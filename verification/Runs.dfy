/** Whole runs of the harness: events from any replicas in any order, with the
    liveness timer firing somewhere (byzzfuzz/instance.go, liveness/liveness.go). */
module Runs {
  import opened Prelude
  import opened Messages
  import opened Vars
  import opened Labels
  import opened Faults
  import opened Partitions
  import opened RoundTracking
  import opened SpecLog
  import opened Pipeline

  datatype Input = Arrives(e: Event) | TimerFires

  /** A configured harness. */
  datatype Harness = Harness(
    env: Setup,
    faults: int,
    drops: seq<MessageDrop>,
    corruptions: seq<MessageCorruption>,
    filters: seq<Filter>)
  {
    ghost predicate Valid() {
      NoDuplicates(env.replicas) && AreFilters(drops, corruptions, filters)
    }

    function Start(): Machine {
      Machine(EMPTY_STATE.(faults := Some(faults), partition := Some(NodeParts(env.replicas))), Init, [])
    }

    function Step(m: Machine, input: Input): Machine {
      match input
      case TimerFires => Finish(m)
      case Arrives(e) => Fold(env, filters, Transition(env.lib, m, e), e).0
    }

    function Run(inputs: seq<Input>): Machine {
      if inputs == [] then Start() else Step(Run(inputs[..|inputs| - 1]), inputs[|inputs| - 1])
    }

    /** The event that comes next reaches the filters while the test is still on. */
    predicate Open(inputs: seq<Input>, e: Event) {
      Transition(env.lib, Run(inputs), e).phase != Success
    }

    /** The state in which the fault filters see the event that comes next. */
    function Seen(inputs: seq<Input>, e: Event): State {
      Tracked(Transition(env.lib, Run(inputs), e), e).st
    }

    /** What the filters make of the event that comes next. */
    function Outcome(inputs: seq<Input>, e: Event): Pipeline.Outcome {
      Fold(env, filters, Transition(env.lib, Run(inputs), e), e).1
    }

    /** The events that went through the filters before the test succeeded. */
    function Processed(inputs: seq<Input>): seq<Event> {
      if inputs == [] then []
      else
        var front, last := inputs[..|inputs| - 1], inputs[|inputs| - 1];
        Processed(front) + (if last.Arrives? && Open(front, last.e) then [last.e] else [])
    }

    /** No event names a replica the harness does not know. */
    ghost predicate Familiar(inputs: seq<Input>) {
      forall i :: 0 <= i < |inputs| && inputs[i].Arrives? ==> !Strange(env, inputs[i].e)
    }

    /** Every replica only moves forward. */
    ghost predicate Forward(inputs: seq<Input>) {
      forall r :: Monotone(History(Processed(inputs), r))
    }
  }

  function ProposedIn(events: seq<Event>): seq<BlockID> {
    if events == [] then [] else ProposedIn(events[..|events| - 1]) + ProposedBy(events[|events| - 1])
  }

  // ---- What a run leaves in the store

  lemma TransitionKeeps(lib: Library, m: Machine, e: Event)
    ensures Transition(lib, m, e).st == m.st.(blockAt := Transition(lib, m, e).st.blockAt)
    ensures Transition(lib, m, e).log == m.log
    ensures m.phase != Init ==> Transition(lib, m, e) == m
  {
  }

  /** A machine's part of the state that the filters keep, as a function of the events. */
  ghost predicate Reflects(h: Harness, m: Machine, events: seq<Event>) {
    var parts := NodeParts(h.env.replicas);
    && m.st.partition == Some(parts) && m.st.faults == Some(h.faults)
    && m.st.rounds == TrackAll(EMPTY_STATE, events).rounds
    && m.st.blockIds == (if ProposedIn(events) == [] then None else Some(ProposedIn(events)))
    && m.log == LogAll(parts, events)
    && m.st.received == map[] && m.st.expected == map[] && m.st.current == map[]
  }

  lemma TrackedReflects(h: Harness, m: Machine, events: seq<Event>, e: Event)
    requires Reflects(h, m, events)
    ensures Reflects(h, Tracked(m, e), events + [e])
  {
    assert (events + [e])[..|events|] == events;
    TrackKeeps(m.st, e);
    assert ProposedIn(events + [e]) == ProposedIn(events) + ProposedBy(e);
    if ProposedBy(e) == [] {
      assert ProposedIn(events + [e]) == ProposedIn(events);
    } else if ProposedIn(events) == [] {
      assert [] + ProposedBy(e) == ProposedBy(e);
    }
  }

  lemma SuccessStops(h: Harness, m: Machine, e: Event)
    requires h.Valid() && m.phase == Success
    ensures Fold(h.env, h.filters, m, e) == (m, Handled([]))
  {
    assert h.filters[0] == h.filters[..|OBSERVERS|][0];
  }

  lemma StepReflects(h: Harness, m: Machine, events: seq<Event>, e: Event)
    requires h.Valid() && Reflects(h, m, events) && !Strange(h.env, e)
    ensures h.Step(m, Arrives(e)).st.finished == m.st.finished
    ensures Transition(h.env.lib, m, e).phase == Success ==> Reflects(h, h.Step(m, Arrives(e)), events)
    ensures Transition(h.env.lib, m, e).phase != Success ==>
      && h.Step(m, Arrives(e)) == Tracked(Transition(h.env.lib, m, e), e)
      && Reflects(h, h.Step(m, Arrives(e)), events + [e])
  {
    var m1 := Transition(h.env.lib, m, e);
    TransitionKeeps(h.env.lib, m, e);
    assert Reflects(h, m1, events);
    if m1.phase == Success {
      SuccessStops(h, m1, e);
    } else {
      PipelineMeaning(h.env, h.drops, h.corruptions, h.filters, m1, e);
      TrackedReflects(h, m1, events, e);
      TrackKeeps(m1.st, e);
    }
  }

  lemma InputReflects(h: Harness, front: seq<Input>, last: Input)
    requires h.Valid() && Reflects(h, h.Run(front), h.Processed(front))
    requires last.Arrives? ==> !Strange(h.env, last.e)
    ensures Reflects(h, h.Run(front + [last]), h.Processed(front + [last]))
    ensures h.Run(front + [last]).st.finished <==> h.Run(front).st.finished || last.TimerFires?
  {
    assert (front + [last])[..|front|] == front;
    assert h.Processed(front) + [] == h.Processed(front);
    if last.Arrives? {
      StepReflects(h, h.Run(front), h.Processed(front), last.e);
    }
  }

  /** After any run: the rounds, the block ids and the log are those of the events
      processed before success, whatever was dropped, corrupted or timed out. */
  lemma {:induction false} RunReflects(h: Harness, inputs: seq<Input>)
    requires h.Valid() && h.Familiar(inputs)
    ensures Reflects(h, h.Run(inputs), h.Processed(inputs))
    ensures h.Run(inputs).st.finished <==> TimerFires in inputs
  {
    if inputs != [] {
      var front, last := inputs[..|inputs| - 1], inputs[|inputs| - 1];
      assert inputs == front + [last];
      FamiliarPrefix(h, front, [last]);
      RunReflects(h, front);
      InputReflects(h, front, last);
    }
  }

  /** In any run, each replica's counter is the count of its own newSteps. */
  lemma RunCounts(h: Harness, inputs: seq<Input>, r: ReplicaID)
    requires h.Valid() && h.Familiar(inputs)
    ensures CounterOf(h.Run(inputs).st, r) == Count(History(h.Processed(inputs), r))
    ensures r in h.Run(inputs).st.rounds <==> History(h.Processed(inputs), r) != []
  {
    RunReflects(h, inputs);
    CounterIsOwnHistory(EMPTY_STATE, h.Processed(inputs), r);
  }

  lemma {:induction false} ProcessedPrefix(h: Harness, inputs: seq<Input>, more: seq<Input>)
    ensures h.Processed(inputs) <= h.Processed(inputs + more)
    decreases |more|
  {
    if more == [] {
      assert inputs + more == inputs;
    } else {
      ProcessedPrefix(h, inputs, more[..|more| - 1]);
      assert (inputs + more)[..|inputs + more| - 1] == inputs + more[..|more| - 1];
    }
  }

  lemma HistoryGrows(h: Harness, inputs: seq<Input>, more: seq<Input>, r: ReplicaID)
    ensures History(h.Processed(inputs), r) <= History(h.Processed(inputs + more), r)
  {
    ProcessedPrefix(h, inputs, more);
    HistoryOfPrefix(h.Processed(inputs), h.Processed(inputs + more), r);
  }

  lemma CountKeepsRecorded(hist: seq<HeightRound>, whole: seq<HeightRound>, at: HeightRound)
    requires hist <= whole && Monotone(whole) && at in Count(hist).index
    ensures at in Count(whole).index && Count(whole).index[at] == Count(hist).index[at]
  {
    assert whole == hist + whole[|hist|..];
    RecordedIsStable(hist, whole[|hist|..], at);
  }

  /** Over a whole run a replica's recorded totals only ever get more: none is changed. */
  lemma RunKeepsRecorded(h: Harness, inputs: seq<Input>, more: seq<Input>, r: ReplicaID, at: HeightRound)
    requires h.Valid() && h.Familiar(inputs + more) && h.Forward(inputs + more)
    requires at in CounterOf(h.Run(inputs).st, r).index
    ensures at in CounterOf(h.Run(inputs + more).st, r).index
    ensures CounterOf(h.Run(inputs + more).st, r).index[at] == CounterOf(h.Run(inputs).st, r).index[at]
  {
    FamiliarPrefix(h, inputs, more);
    RunCounts(h, inputs, r);
    RunCounts(h, inputs + more, r);
    HistoryGrows(h, inputs, more, r);
    CountKeepsRecorded(History(h.Processed(inputs), r), History(h.Processed(inputs + more), r), at);
  }

  lemma FamiliarPrefix(h: Harness, inputs: seq<Input>, more: seq<Input>)
    requires h.Familiar(inputs + more)
    ensures h.Familiar(inputs)
  {
    assert forall i :: 0 <= i < |inputs| ==> (inputs + more)[i] == inputs[i];
  }

  // ---- Which messages the faults can touch

  lemma SendSeesRounds(h: Harness, inputs: seq<Input>, e: Event)
    requires e.kind.Send?
    ensures h.Seen(inputs, e).rounds == h.Run(inputs).st.rounds
  {
    TransitionKeeps(h.env.lib, h.Run(inputs), e);
  }

  /** The round conditions of drops and corruptions on one send: for a message of the
      sender's current height and round they agree, whatever the round asked for; for a
      message of any other one they never both hold. */
  lemma RoundConditionsCompared(h: Harness, inputs: seq<Input>, e: Event, round: int)
    requires h.Valid() && h.Familiar(inputs) && h.Forward(inputs)
    requires e.kind.Send? && ParsedOf(e).Some?
    ensures var hist, st := History(h.Processed(inputs), e.replica), h.Seen(inputs, e);
      var at := ParsedOf(e).value.body.content.at;
      && (at == Latest(hist) ==> FromTotalRound(st, round, e) == OfTotalRound(st, round, e))
      && (at != Latest(hist) ==> !(FromTotalRound(st, round, e) == Yes && OfTotalRound(st, round, e) == Yes))
  {
    var r, at := e.replica, ParsedOf(e).value.body.content.at;
    var hist := History(h.Processed(inputs), r);
    RunCounts(h, inputs, r);
    SendSeesRounds(h, inputs, e);
    assert Monotone(hist);
    IndexIsHistory(hist);
    if at in Count(hist).index {
      CurrentVersusRecorded(hist, at);
    }
    if hist != [] {
      assert Latest(hist) in Elements(hist);
    }
  }

  /** One corruption touches, per sending replica, the messages of one height, round and
      type only, however long the run and however often they are sent. */
  lemma OneCorruptionOneTarget(
    h: Harness, inputs: seq<Input>, more: seq<Input>, c: MessageCorruption, a: Event, b: Event)
    requires h.Valid() && h.Familiar(inputs + more) && h.Forward(inputs + more)
    requires CorruptionMatches(h.env, h.Seen(inputs, a), c, a)
    requires CorruptionMatches(h.env, h.Seen(inputs + more, b), c, b)
    requires a.replica == b.replica
    ensures ParsedOf(a).value.body.content.at == ParsedOf(b).value.body.content.at
    ensures ParsedOf(a).value.body.content.mtype == ParsedOf(b).value.body.content.mtype
  {
    var r := a.replica;
    var atA, atB := ParsedOf(a).value.body.content.at, ParsedOf(b).value.body.content.at;
    SendSeesRounds(h, inputs, a);
    SendSeesRounds(h, inputs + more, b);
    RunKeepsRecorded(h, inputs, more, r, atA);
    RunCounts(h, inputs + more, r);
    OrderEmbedding(History(h.Processed(inputs + more), r), atA, atB);
  }

  /** One drop acts, per sending replica, only while that replica is at one single height
      and round, however long the run. */
  lemma OneDropOneRound(h: Harness, inputs: seq<Input>, more: seq<Input>, d: MessageDrop, a: Event, b: Event)
    requires h.Valid() && h.Familiar(inputs + more) && h.Forward(inputs + more)
    requires DropMatches(h.env, h.Seen(inputs, a), d, a)
    requires DropMatches(h.env, h.Seen(inputs + more, b), d, b)
    requires a.replica == b.replica
    ensures Latest(History(h.Processed(inputs), a.replica)) == Latest(History(h.Processed(inputs + more), a.replica))
    ensures ParsedOf(a).value.body.content.mtype == ParsedOf(b).value.body.content.mtype
  {
    var r := a.replica;
    SendSeesRounds(h, inputs, a);
    SendSeesRounds(h, inputs + more, b);
    FamiliarPrefix(h, inputs, more);
    RunCounts(h, inputs, r);
    RunCounts(h, inputs + more, r);
    HistoryGrows(h, inputs, more, r);
    SameTotalSameRound(History(h.Processed(inputs), r), History(h.Processed(inputs + more), r));
  }

  lemma SameTotalSameRound(hist: seq<HeightRound>, whole: seq<HeightRound>)
    requires hist != [] && hist <= whole && Monotone(whole)
    requires Count(hist).total == Count(whole).total
    ensures Latest(hist) == Latest(whole)
  {
    var at := Latest(hist);
    assert at in Count(hist).index && Count(hist).index[at] == Count(hist).total;
    CountKeepsRecorded(hist, whole, at);
    CurrentVersusRecorded(whole, at);
  }

  /** The block ids the fault filters see are those proposed so far, this event included. */
  lemma SeenBlockIds(h: Harness, inputs: seq<Input>, e: Event)
    requires h.Valid() && h.Familiar(inputs) && !Strange(h.env, e) && h.Open(inputs, e)
    ensures var proposed := ProposedIn(h.Processed(inputs) + [e]);
      h.Seen(inputs, e).blockIds == if proposed == [] then None else Some(proposed)
  {
    RunReflects(h, inputs);
    TransitionKeeps(h.env.lib, h.Run(inputs), e);
    TrackedReflects(h, Transition(h.env.lib, h.Run(inputs), e), h.Processed(inputs), e);
  }

  lemma BlockChangeExactly(env: Setup, st: State, seed: int, m: Message)
    requires m.body.Parsed? && seed >= 0 && st.blockIds != Some([])
    ensures Act(env, st, ChangeBlockIdAnyScope, seed, m) ==
      match st.blockIds
      case None => Some([m])
      case Some(ids) => Some([ChangeVote(env, VoteBlock(ids[seed % |ids|]), m)])
  {
  }

  /** The block id a vote is given was proposed earlier in the run, for every seed that is
      not negative; before any proposal the vote is left alone. */
  lemma SubstitutedIdWasProposed(h: Harness, inputs: seq<Input>, e: Event, seed: int)
    requires h.Valid() && h.Familiar(inputs) && !Strange(h.env, e) && h.Open(inputs, e)
    requires ParsedOf(e).Some? && seed >= 0
    ensures var proposed, m := ProposedIn(h.Processed(inputs) + [e]), ParsedOf(e).value;
      Act(h.env, h.Seen(inputs, e), ChangeBlockIdAnyScope, seed, m) ==
        if proposed == [] then Some([m])
        else Some([ChangeVote(h.env, VoteBlock(proposed[seed % |proposed|]), m)])
  {
    SeenBlockIds(h, inputs, e);
    BlockChangeExactly(h.env, h.Seen(inputs, e), seed, ParsedOf(e).value);
  }

  // ---- Who can reach whom under the drops in force

  /** The partitions of the drops aimed at that round and type. */
  function Aimed(drops: seq<MessageDrop>, round: int, t: MessageType): seq<Partition> {
    if drops == [] then []
    else
      var d := drops[|drops| - 1];
      Aimed(drops[..|drops| - 1], round, t) +
        (if StepRound(d.step) == round && StepType(d.step) == Some(t) then [d.partition] else [])
  }

  lemma {:induction false} AimedExactly(drops: seq<MessageDrop>, round: int, t: MessageType, p: Partition)
    ensures p in Aimed(drops, round, t) <==>
      exists i | 0 <= i < |drops| ::
        StepRound(drops[i].step) == round && StepType(drops[i].step) == Some(t) && drops[i].partition == p
  {
    if drops != [] {
      var front := drops[..|drops| - 1];
      AimedExactly(front, round, t, p);
      assert forall i :: 0 <= i < |front| ==> front[i] == drops[i];
    }
  }

  /** A readable send between two known replicas is dropped exactly when the partitions
      aimed at the sender's round and the message's type, all in force at once, do not
      leave its two ends connected. */
  lemma DroppedIffDisconnected(env: Setup, st: State, drops: seq<MessageDrop>, e: Event)
    requires e.kind.Send? && ParsedOf(e).Some? && !st.finished
    requires ParsedOf(e).value.body.content.at.round != -1 && e.replica in st.rounds
    requires ParsedOf(e).value.from in env.replicas && ParsedOf(e).value.to in env.replicas
    ensures AnyDrop(env, st, drops, e) <==>
      !Connected(
        Aimed(drops, st.rounds[e.replica].total, ParsedOf(e).value.body.content.mtype),
        ReplicaIndex(env.replicas, ParsedOf(e).value.from).value,
        ReplicaIndex(env.replicas, ParsedOf(e).value.to).value)
  {
    var m := ParsedOf(e).value;
    var a, b := ReplicaIndex(env.replicas, m.from).value, ReplicaIndex(env.replicas, m.to).value;
    var round, t := st.rounds[e.replica].total, m.body.content.mtype;
    var ps := Aimed(drops, round, t);
    if i :| 0 <= i < |drops| && DropMatches(env, st, drops[i], e) {
      AimedExactly(drops, round, t, drops[i].partition);
      var k :| 0 <= k < |ps| && ps[k] == drops[i].partition;
      assert Isolates(ps[k], a, b);
    }
    if k :| 0 <= k < |ps| && Isolates(ps[k], a, b) {
      AimedExactly(drops, round, t, ps[k]);
      var i :| 0 <= i < |drops| && StepRound(drops[i].step) == round && StepType(drops[i].step) == Some(t)
        && drops[i].partition == ps[k];
      assert DropMatches(env, st, drops[i], e);
    }
  }

  /** In a run, before the timer has fired: a readable send between known replicas is not
      delivered when the partitions in force separate its ends, and is delivered as it is
      when they do not and no corruption is aimed at it. */
  lemma DeliveredIffConnected(h: Harness, inputs: seq<Input>, e: Event)
    requires h.Valid() && h.Familiar(inputs) && h.Open(inputs, e) && TimerFires !in inputs
    requires e.kind.Send? && ParsedOf(e).Some? && ParsedOf(e).value.body.content.at.round != -1
    requires e.replica in h.Run(inputs).st.rounds
    requires ParsedOf(e).value.from in h.env.replicas && ParsedOf(e).value.to in h.env.replicas
    ensures var m := ParsedOf(e).value;
      var ps := Aimed(h.drops, h.Run(inputs).st.rounds[e.replica].total, m.body.content.mtype);
      var a, b := ReplicaIndex(h.env.replicas, m.from).value, ReplicaIndex(h.env.replicas, m.to).value;
      && (!Connected(ps, a, b) ==> Pipeline.Delivered(e, h.Outcome(inputs, e)) == [])
      && (Connected(ps, a, b)
          && (forall i :: 0 <= i < |h.corruptions| ==> !CorruptionMatches(h.env, h.Seen(inputs, e), h.corruptions[i], e))
          ==> Pipeline.Delivered(e, h.Outcome(inputs, e)) == [m])
  {
    RunReflects(h, inputs);
    TransitionKeeps(h.env.lib, h.Run(inputs), e);
    SendSeesRounds(h, inputs, e);
    var m := Transition(h.env.lib, h.Run(inputs), e);
    TrackKeeps(m.st, e);
    PipelineMeaning(h.env, h.drops, h.corruptions, h.filters, m, e);
    DroppedIffDisconnected(h.env, h.Seen(inputs, e), h.drops, e);
  }

  lemma {:induction false} AimedPartition(drops: seq<MessageDrop>, round: int, t: MessageType, n: nat)
    requires forall i :: 0 <= i < |drops| ==> IsPartition(drops[i].partition, n)
    ensures forall k :: 0 <= k < |Aimed(drops, round, t)| ==> IsPartition(Aimed(drops, round, t)[k], n)
  {
    if drops != [] {
      AimedPartition(drops[..|drops| - 1], round, t, n);
    }
  }

  /** With proper partitions, the replicas that can still exchange messages of one round
      and type form an equivalence, however many drops are aimed at it; drops of
      distinct steps aim at most one partition at it. */
  lemma DropsLeaveAnEquivalence(drops: seq<MessageDrop>, round: int, t: MessageType, n: nat)
    requires forall i :: 0 <= i < |drops| ==> IsPartition(drops[i].partition, n)
    ensures var ps := Aimed(drops, round, t);
      && (forall a :: 0 <= a < n ==> Connected(ps, a, a))
      && (forall a, b :: Connected(ps, a, b) ==> Connected(ps, b, a))
      && (forall a, b, c :: Connected(ps, a, b) && Connected(ps, b, c) ==> Connected(ps, a, c))
    ensures (forall i, j :: 0 <= i < j < |drops| ==> drops[i].step != drops[j].step) ==> |Aimed(drops, round, t)| <= 1
  {
    AimedPartition(drops, round, t, n);
    ConnectedIsEquivalence(Aimed(drops, round, t), n);
    if forall i, j :: 0 <= i < j < |drops| ==> drops[i].step != drops[j].step {
      AimedOnce(drops, round, t);
    }
  }

  lemma {:induction false} AimedOnce(drops: seq<MessageDrop>, round: int, t: MessageType)
    requires forall i, j :: 0 <= i < j < |drops| ==> drops[i].step != drops[j].step
    ensures |Aimed(drops, round, t)| <= 1
    ensures |Aimed(drops, round, t)| == 1 ==>
      exists i :: 0 <= i < |drops| && StepRound(drops[i].step) == round && StepType(drops[i].step) == Some(t)
  {
    if drops != [] {
      var front, d := drops[..|drops| - 1], drops[|drops| - 1];
      AimedOnce(front, round, t);
      forall i | 0 <= i < |front|
        ensures !(StepRound(front[i].step) == round && StepType(front[i].step) == Some(t)
                  && StepRound(d.step) == round && StepType(d.step) == Some(t))
      {
        SameStep(d.step, drops[i].step, t);
      }
      assert forall i :: 0 <= i < |front| ==> front[i] == drops[i];
    }
  }

  lemma SameStep(s: int, s': int, t: MessageType)
    requires s != s'
    ensures !(StepRound(s) == StepRound(s') && StepType(s) == StepType(s') == Some(t))
  {
  }
}
