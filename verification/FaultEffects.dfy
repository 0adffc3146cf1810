/** What a configuration's faults do to the messages of a run, told by the events alone:
    which sends they are aimed at, what each numbered corruption sends instead, and when
    the harness panics (byzzfuzz/instance.go, byzzfuzz/corruption.go). */
module FaultEffects {
  import opened Prelude
  import opened Decimal
  import opened Messages
  import opened Vars
  import opened Labels
  import opened Partitions
  import opened Faults
  import opened RoundTracking
  import opened Pipeline
  import opened Runs

  // ---- Which sends a fault is aimed at

  /** The step is that of messages of the type in a replica's round number `round`. */
  predicate StepFor(step: int, round: int, t: MessageType) {
    match t
    case Proposal => step == 3 * round
    case Prevote => step == 3 * round + 1
    case Precommit => step == 3 * round + 2
    case Other => false
  }

  /** The number of rounds a replica with that history went through before `at`. */
  function RoundNumber(hist: seq<HeightRound>, at: HeightRound): int {
    RoundsUpTo(hist, at.height - 1) + at.round
  }

  predicate Together(p: Partition, a: int, b: int) {
    exists i :: 0 <= i < |p| && a in p[i] && b in p[i]
  }

  /** The two replicas are known, and no part of the partition holds them both. */
  ghost predicate Apart(replicas: seq<ReplicaID>, p: Partition, from: ReplicaID, to: ReplicaID) {
    exists a, b :: 0 <= a < |replicas| && 0 <= b < |replicas|
      && replicas[a] == from && replicas[b] == to && !Together(p, a, b)
  }

  ghost predicate Targets(replicas: seq<ReplicaID>, c: MessageCorruption, from: ReplicaID, to: ReplicaID) {
    && 0 <= c.from < |replicas| && replicas[c.from] == from
    && exists b :: 0 <= b < |replicas| && b in c.to && replicas[b] == to
  }

  /** Before the timer, the sender is in the round the drop's step stands for, and the
      partition keeps the two ends apart. */
  ghost predicate DropAimedAt(h: Harness, inputs: seq<Input>, d: MessageDrop, e: Event) {
    match e.kind
    case Send(Some(Message(from, to, Parsed(c)))) =>
      var hist := History(h.Processed(inputs), e.replica);
      && TimerFires !in inputs && hist != [] && c.at.round != -1
      && StepFor(d.step, RoundNumber(hist, Latest(hist)), c.mtype)
      && Apart(h.env.replicas, d.partition, from, to)
    case _ => false
  }

  /** Before the timer, the message belongs to the round the corruption's step stands for,
      and goes from its node to one of its targets. */
  ghost predicate CorruptionAimedAt(h: Harness, inputs: seq<Input>, x: MessageCorruption, e: Event) {
    match e.kind
    case Send(Some(Message(from, to, Parsed(c)))) =>
      var hist := History(h.Processed(inputs), e.replica);
      && TimerFires !in inputs && c.at in hist
      && StepFor(x.step, RoundNumber(hist, c.at), c.mtype)
      && Targets(h.env.replicas, x, from, to)
    case _ => false
  }

  lemma {:induction false} RoundsNotNegative(hist: seq<HeightRound>, upTo: int)
    requires Monotone(hist)
    ensures RoundsUpTo(hist, upTo) >= 0
    decreases upTo
  {
    if upTo >= 1 {
      RoundsNotNegative(hist, upTo - 1);
      LastRoundBounds(hist, upTo);
    }
  }

  lemma StepIsFor(step: int, round: int, t: MessageType)
    requires round >= 0
    ensures StepRound(step) == round && StepType(step) == Some(t) <==> StepFor(step, round, t)
  {
    if t == Other {
      assert StepType(step) != Some(Other);
    } else {
      StepBijection(step, round, t);
    }
  }

  lemma IndexIs(replicas: seq<ReplicaID>, id: ReplicaID, i: int)
    requires NoDuplicates(replicas)
    ensures 0 <= i < |replicas| && replicas[i] == id <==>
      ReplicaIndex(replicas, id).Some? && ReplicaIndex(replicas, id).value as int == i
  {
  }

  lemma ApartExactly(replicas: seq<ReplicaID>, p: Partition, from: ReplicaID, to: ReplicaID)
    requires NoDuplicates(replicas)
    ensures Apart(replicas, p, from, to) <==>
      var a, b := ReplicaIndex(replicas, from), ReplicaIndex(replicas, to);
      a.Some? && b.Some? && Isolates(p, a.value, b.value)
  {
    if ReplicaIndex(replicas, from).Some? && ReplicaIndex(replicas, to).Some? {
      var a, b := ReplicaIndex(replicas, from).value, ReplicaIndex(replicas, to).value;
      assert Isolates(p, a, b) <==> !Together(p, a, b);
    }
  }

  lemma TargetsExactly(replicas: seq<ReplicaID>, c: MessageCorruption, from: ReplicaID, to: ReplicaID)
    requires NoDuplicates(replicas)
    ensures Targets(replicas, c, from, to) <==>
      var a, b := ReplicaIndex(replicas, from), ReplicaIndex(replicas, to);
      a.Some? && b.Some? && a.value == c.from && b.value as int in c.to
  {
    IndexIs(replicas, from, c.from);
    forall b: int
      ensures 0 <= b < |replicas| && replicas[b] == to <==>
        ReplicaIndex(replicas, to).Some? && ReplicaIndex(replicas, to).value as int == b
    {
      IndexIs(replicas, to, b);
    }
  }

  lemma RecordedFor(hist: seq<HeightRound>, at: HeightRound, step: int, t: MessageType)
    requires Monotone(hist)
    ensures at in Count(hist).index && Count(hist).index[at] == StepRound(step) && StepType(step) == Some(t) <==>
      at in hist && StepFor(step, RoundNumber(hist, at), t)
  {
    IndexIsHistory(hist);
    assert at in hist <==> at in Elements(hist);
    if at in hist {
      IndexClosedForm(hist, at);
      LatestIsGreatest(hist);
      RoundsNotNegative(hist, at.height - 1);
      StepIsFor(step, RoundNumber(hist, at), t);
    }
  }

  lemma TotalFor(hist: seq<HeightRound>, step: int, t: MessageType)
    requires Monotone(hist)
    ensures Count(hist).total == StepRound(step) && StepType(step) == Some(t) <==>
      StepFor(step, RoundNumber(hist, Latest(hist)), t)
  {
    ClosedForm(hist);
    LatestIsGreatest(hist);
    RoundsNotNegative(hist, Latest(hist).height - 1);
    StepIsFor(step, RoundNumber(hist, Latest(hist)), t);
  }

  lemma SeenBySend(h: Harness, inputs: seq<Input>, e: Event)
    requires h.Valid() && h.Familiar(inputs) && e.kind.Send?
    ensures h.Seen(inputs, e).finished <==> TimerFires in inputs
    ensures CounterOf(h.Seen(inputs, e), e.replica) == Count(History(h.Processed(inputs), e.replica))
    ensures e.replica in h.Seen(inputs, e).rounds <==> History(h.Processed(inputs), e.replica) != []
  {
    RunReflects(h, inputs);
    RunCounts(h, inputs, e.replica);
    TransitionKeeps(h.env.lib, h.Run(inputs), e);
  }

  /** In a run in which replicas only move forward, a drop is aimed at exactly the sends
      of its type from replicas that have gone through as many rounds as its step says. */
  lemma DropAimedExactly(h: Harness, inputs: seq<Input>, d: MessageDrop, e: Event)
    requires h.Valid() && h.Familiar(inputs) && h.Forward(inputs)
    ensures DropMatches(h.env, h.Seen(inputs, e), d, e) <==> DropAimedAt(h, inputs, d, e)
  {
    if e.kind.Send? && ParsedOf(e).Some? {
      var m, hist := ParsedOf(e).value, History(h.Processed(inputs), e.replica);
      SeenBySend(h, inputs, e);
      ApartExactly(h.env.replicas, d.partition, m.from, m.to);
      TotalFor(hist, d.step, m.body.content.mtype);
    }
  }

  /** A corruption is aimed at exactly the messages of its type that belong to the round
      its step says, whenever they are sent. */
  lemma CorruptionAimedExactly(h: Harness, inputs: seq<Input>, x: MessageCorruption, e: Event)
    requires h.Valid() && h.Familiar(inputs) && h.Forward(inputs)
    ensures CorruptionMatches(h.env, h.Seen(inputs, e), x, e) <==> CorruptionAimedAt(h, inputs, x, e)
  {
    if e.kind.Send? && ParsedOf(e).Some? {
      var m, hist := ParsedOf(e).value, History(h.Processed(inputs), e.replica);
      var at := m.body.content.at;
      SeenBySend(h, inputs, e);
      TargetsExactly(h.env.replicas, x, m.from, m.to);
      RecordedFor(hist, at, x.step, m.body.content.mtype);
      if at in hist {
        LatestIsGreatest(hist);
      }
    }
  }

  // ---- The block ids on record

  function IdsIn(st: State): seq<BlockID> {
    st.blockIds.GetOr([])
  }

  /** The event is the send or the receive of a message that proposes the block. */
  predicate Proposes(e: Event, id: BlockID) {
    match e.kind
    case Send(Some(Message(_, _, Parsed(Content(_, _, Some(proposed), _))))) => proposed == id
    case Receive(Some(Message(_, _, Parsed(Content(_, _, Some(proposed), _))))) => proposed == id
    case _ => false
  }

  lemma OneMore(h: Harness, inputs: seq<Input>, input: Input)
    ensures h.Run(inputs + [input]) == h.Step(h.Run(inputs), input)
  {
    assert (inputs + [input])[..|inputs|] == inputs;
  }

  lemma RunOneMore(h: Harness, inputs: seq<Input>, e: Event)
    requires h.Valid() && h.Familiar(inputs) && !Strange(h.env, e)
    ensures h.Open(inputs, e) ==> h.Run(inputs + [Arrives(e)]).st == h.Seen(inputs, e)
    ensures !h.Open(inputs, e) ==> h.Run(inputs + [Arrives(e)]).st.blockIds == h.Run(inputs).st.blockIds
  {
    OneMore(h, inputs, Arrives(e));
    RunReflects(h, inputs);
    StepReflects(h, h.Run(inputs), h.Processed(inputs), e);
    TransitionKeeps(h.env.lib, h.Run(inputs), e);
    if !h.Open(inputs, e) {
      SuccessStops(h, Transition(h.env.lib, h.Run(inputs), e), e);
    }
  }

  lemma SeenIds(h: Harness, inputs: seq<Input>, e: Event, id: BlockID)
    requires Proposes(e, id)
    ensures IdsIn(h.Seen(inputs, e)) == IdsIn(h.Run(inputs).st) + [id]
  {
    var m := Transition(h.env.lib, h.Run(inputs), e);
    TransitionKeeps(h.env.lib, h.Run(inputs), e);
    TrackKeeps(m.st, e);
    assert ProposedBy(e) == [id];
  }

  lemma SameIds(h: Harness, inputs: seq<Input>, e: Event)
    requires forall id :: !Proposes(e, id)
    ensures IdsIn(h.Seen(inputs, e)) == IdsIn(h.Run(inputs).st)
  {
    var m := Transition(h.env.lib, h.Run(inputs), e);
    TransitionKeeps(h.env.lib, h.Run(inputs), e);
    TrackKeeps(m.st, e);
    if ProposedBy(e) != [] {
      assert Proposes(e, ProposedBy(e)[0]);
    }
  }

  /** How the block ids on record grow, one input at a time: an event processed before
      success that sends or receives a proposal of a block puts it at the end; nothing
      else changes the list. */
  lemma BlockIdsGrow(h: Harness, inputs: seq<Input>, input: Input)
    requires h.Valid() && h.Familiar(inputs + [input])
    ensures var before, after := IdsIn(h.Run(inputs).st), IdsIn(h.Run(inputs + [input]).st);
      && (forall id | input.Arrives? && h.Open(inputs, input.e) && Proposes(input.e, id) :: after == before + [id])
      && (!(input.Arrives? && h.Open(inputs, input.e) && exists id :: Proposes(input.e, id)) ==> after == before)
    ensures IdsIn(h.Run([]).st) == []
    ensures h.Run(inputs).st.blockIds != Some([])
  {
    FamiliarPrefix(h, inputs, [input]);
    RunReflects(h, inputs);
    OneMore(h, inputs, input);
    if input.Arrives? {
      var e := input.e;
      assert (inputs + [input])[|inputs|] == input;
      RunOneMore(h, inputs, e);
      if id :| Proposes(e, id) {
        SeenIds(h, inputs, e, id);
      } else {
        SameIds(h, inputs, e);
      }
    }
  }

  // ---- What the numbered corruptions send instead

  predicate IsInt32Of(r: int, n: int) {
    -0x8000_0000 <= r < 0x8000_0000 && (r - n) % 0x1_0000_0000 == 0
  }

  lemma Int32Unique(r: int, n: int)
    requires IsInt32Of(r, n)
    ensures r == ToInt32(n)
  {
  }

  /** What comes out is the one message, edited and signed anew by the first replica with
      the vote's validator address; where nobody has it, the editing fails or the message
      is no vote, it comes out as it is. */
  ghost predicate VoteComesOut(env: Setup, edit: Edit, m: Message, out: seq<Message>)
    requires m.body.Parsed?
  {
    var vote := m.body.content.mtype == Prevote || m.body.content.mtype == Precommit;
    && (forall k | 0 <= k < |env.replicas| && vote && Signs(env, m, k) ::
          out == [m.(body := env.lib.rewrite(edit, env.replicas[k], m).GetOr(m.body))])
    && ((!vote || forall k :: 0 <= k < |env.replicas| ==> !Signs(env, m, k)) ==> out == [m])
  }

  lemma ChangedVoteComesOut(env: Setup, edit: Edit, m: Message)
    requires m.body.Parsed?
    ensures VoteComesOut(env, edit, m, [ChangeVote(env, edit, m)])
  {
    if IsVote(m.body.content.mtype) {
      VoteIsRewrittenFor(env, edit, m);
    }
  }

  /** No drop is aimed at the event, and number i is the first corruption that is. */
  ghost predicate Decides(h: Harness, inputs: seq<Input>, e: Event, i: nat)
    requires i < |h.corruptions|
  {
    && h.Open(inputs, e) && !Strange(h.env, e)
    && !AnyDrop(h.env, h.Seen(inputs, e), h.drops, e)
    && FirstCorruption(h.env, h.Seen(inputs, e), h.corruptions, e, i)
  }

  lemma OutcomeDecided(h: Harness, inputs: seq<Input>, e: Event, i: nat)
    requires h.Valid() && h.Familiar(inputs) && i < |h.corruptions| && Decides(h, inputs, e, i)
    ensures h.Outcome(inputs, e) == ActOutcome(h.env, h.Seen(inputs, e), h.corruptions[i], e)
  {
    OutcomeDescribed(h, inputs, e);
  }

  /** Number 0 gives a proposal to nil, in the sender's name; number 3 nothing. */
  lemma ProposalOrNothing(h: Harness, inputs: seq<Input>, e: Event, i: nat)
    requires h.Valid() && h.Familiar(inputs) && i < |h.corruptions| && Decides(h, inputs, e, i)
    ensures var m, out := e.kind.message.value, Delivered(e, h.Outcome(inputs, e));
      && (h.corruptions[i].kind == 0 ==> out == [m.(body := h.env.lib.rewrite(ProposalToNil, m.from, m).GetOr(m.body))])
      && (h.corruptions[i].kind == 3 ==> out == [])
  {
    OutcomeDecided(h, inputs, e, i);
  }

  /** Number 1 gives a vote for nil, number 2 a vote two rounds later, number 4 one for the
      round the seed says; rounds are 32 bits wide. */
  lemma VoteChanged(h: Harness, inputs: seq<Input>, e: Event, i: nat)
    requires h.Valid() && h.Familiar(inputs) && i < |h.corruptions| && Decides(h, inputs, e, i)
    ensures var x, m, out := h.corruptions[i], e.kind.message.value, Delivered(e, h.Outcome(inputs, e));
      && (x.kind == 1 ==> VoteComesOut(h.env, VoteToNil, m, out))
      && (forall r | x.kind == 2 && IsInt32Of(r, m.body.content.at.round + 2) ::
            VoteComesOut(h.env, VoteRound(r), m, out))
      && (forall r | x.kind == 4 && IsInt32Of(r, x.seed) :: VoteComesOut(h.env, VoteRound(r), m, out))
  {
    OutcomeDecided(h, inputs, e, i);
    var x, m := h.corruptions[i], e.kind.message.value;
    ChangedVoteComesOut(h.env, VoteToNil, m);
    forall r | IsInt32Of(r, m.body.content.at.round + 2)
      ensures r == ToInt32(m.body.content.at.round + 2)
      ensures VoteComesOut(h.env, VoteRound(r), m, [ChangeVote(h.env, VoteRound(r), m)])
    {
      Int32Unique(r, m.body.content.at.round + 2);
      ChangedVoteComesOut(h.env, VoteRound(r), m);
    }
    forall r | IsInt32Of(r, x.seed)
      ensures r == ToInt32(x.seed) && VoteComesOut(h.env, VoteRound(r), m, [ChangeVote(h.env, VoteRound(r), m)])
    {
      Int32Unique(r, x.seed);
      ChangedVoteComesOut(h.env, VoteRound(r), m);
    }
  }

  /** Go's `%` finds no entry: the index is negative. */
  predicate NoSuchEntry(ids: seq<BlockID>, seed: int) {
    ids != [] && seed < 0 && seed % |ids| != 0
  }

  lemma PickExactly(ids: seq<BlockID>, seed: int)
    ensures PickBlockId(ids, seed) ==
      if ids == [] || NoSuchEntry(ids, seed) then None else Some(ids[seed % |ids|])
  {
    if ids != [] && seed < 0 {
      var q := (-seed) / |ids|;
      assert seed == -(q * |ids|) - (-seed) % |ids|;
      Divides(seed, |ids|, q);
    }
  }

  lemma Divides(n: int, d: int, q: int)
    requires d > 0 && -n == q * d + (-n) % d
    ensures (-n) % d == 0 <==> n % d == 0
  {
    var r := n / d;
    assert n == r * d + n % d;
    if (-n) % d == 0 {
      assert n == (-q) * d;
      assert (-q) * d == r * d + n % d;
      Multiple(-q - r, d, n % d);
    }
    if n % d == 0 {
      assert -n == (-r) * d == q * d + (-n) % d;
      Multiple(-r - q, d, (-n) % d);
    }
  }

  lemma Multiple(k: int, d: int, r: int)
    requires d > 0 && 0 <= r < d && k * d == r
    ensures r == 0
  {
    if k >= 1 {
      AtLeastOnce(k, d);
    }
  }

  lemma AtLeastOnce(k: int, d: int)
    requires k >= 1 && d > 0
    ensures k * d >= d
  {
  }

  /** Number 5 gives a vote for a block on record, this event included, at the position
      the seed says; before any proposal the message comes out as it is. */
  lemma BlockChanged(h: Harness, inputs: seq<Input>, e: Event, i: nat)
    requires h.Valid() && h.Familiar(inputs) && i < |h.corruptions| && Decides(h, inputs, e, i)
    requires h.corruptions[i].kind == 5
    ensures var seed, m, ids := h.corruptions[i].seed, e.kind.message.value, IdsIn(h.Run(inputs + [Arrives(e)]).st);
      var out := Delivered(e, h.Outcome(inputs, e));
      && (ids == [] ==> out == [m])
      && (ids != [] && !NoSuchEntry(ids, seed) ==> VoteComesOut(h.env, VoteBlock(ids[seed % |ids|]), m, out))
      && (h.Outcome(inputs, e) == Panic <==> NoSuchEntry(ids, seed))
  {
    var seed, m, ids := h.corruptions[i].seed, e.kind.message.value, IdsIn(h.Run(inputs + [Arrives(e)]).st);
    OutcomeDecided(h, inputs, e, i);
    RunOneMore(h, inputs, e);
    SeenBlockIds(h, inputs, e);
    PickExactly(ids, seed);
    if ids != [] {
      ChangedVoteComesOut(h.env, VoteBlock(ids[seed % |ids|]), m);
    }
  }

  // ---- When the harness panics

  /** The event names a replica that is not among the test's: a step, or one end of a
      consensus message. */
  predicate NamesStranger(replicas: seq<ReplicaID>, e: Event) {
    match e.kind
    case Generic(NewStep, Params(Some(height), Some(round), _)) =>
      Atoi(height).Some? && Atoi(round).Some? && e.replica !in replicas
    case Generic(_, _) => false
    case Send(m) => FromStranger(replicas, m)
    case Receive(m) => FromStranger(replicas, m)
  }

  predicate FromStranger(replicas: seq<ReplicaID>, message: Option<Message>) {
    match message
    case Some(Message(from, to, Parsed(Content(Other, _, _, _)))) => false
    case Some(Message(from, to, Parsed(_))) => from !in replicas || to !in replicas
    case _ => false
  }

  predicate Illegible(e: Event) {
    match e.kind
    case Send(None) => true
    case Send(Some(Message(_, _, Unparsed(_)))) => true
    case _ => false
  }

  /** Number i decides about the event, and its seed points nowhere. */
  ghost predicate SeedFails(h: Harness, inputs: seq<Input>, e: Event, i: nat)
    requires i < |h.corruptions|
  {
    && Decides(h, inputs, e, i) && h.corruptions[i].kind == 5
    && NoSuchEntry(IdsIn(h.Run(inputs + [Arrives(e)]).st), h.corruptions[i].seed)
  }

  lemma StrangerExactly(env: Setup, e: Event)
    ensures Strange(env, e) <==> NamesStranger(env.replicas, e)
  {
  }

  /** When an event before success makes the harness panic: it names a stranger, or it is
      an illegible send before the timer while there is any fault, or a negative seed
      decides about it and points nowhere. */
  lemma PanicsExactly(h: Harness, inputs: seq<Input>, e: Event)
    requires h.Valid() && h.Familiar(inputs) && h.Open(inputs, e)
    ensures h.Outcome(inputs, e) == Panic <==>
      || NamesStranger(h.env.replicas, e)
      || (Illegible(e) && TimerFires !in inputs && |h.drops| + |h.corruptions| > 0)
      || exists i :: 0 <= i < |h.corruptions| && SeedFails(h, inputs, e, i)
  {
    StrangerExactly(h.env, e);
    if Strange(h.env, e) {
      RunReflects(h, inputs);
      TransitionKeeps(h.env.lib, h.Run(inputs), e);
      PipelineMeaning(h.env, h.drops, h.corruptions, h.filters, Transition(h.env.lib, h.Run(inputs), e), e);
    } else {
      IllegibleExactly(h, inputs, e);
      if Unreadable(h.Seen(inputs, e), e) {
        OutcomeDescribed(h, inputs, e);
      } else {
        LegiblePanics(h, inputs, e);
      }
    }
  }

  lemma OutcomeDescribed(h: Harness, inputs: seq<Input>, e: Event)
    requires h.Valid() && h.Familiar(inputs) && h.Open(inputs, e) && !Strange(h.env, e)
    ensures Describes(h.env, h.drops, h.corruptions, h.Seen(inputs, e), e, h.Outcome(inputs, e))
  {
    RunReflects(h, inputs);
    TransitionKeeps(h.env.lib, h.Run(inputs), e);
    PipelineMeaning(h.env, h.drops, h.corruptions, h.filters, Transition(h.env.lib, h.Run(inputs), e), e);
  }

  lemma IllegibleExactly(h: Harness, inputs: seq<Input>, e: Event)
    requires h.Valid() && h.Familiar(inputs)
    ensures Unreadable(h.Seen(inputs, e), e) <==> Illegible(e) && TimerFires !in inputs
  {
    IllegibleSend(e);
    if e.kind.Send? {
      SeenBySend(h, inputs, e);
    }
  }

  lemma IllegibleSend(e: Event)
    ensures e.kind.Send? && ParsedOf(e).None? <==> Illegible(e)
  {
  }

  lemma LegiblePanics(h: Harness, inputs: seq<Input>, e: Event)
    requires h.Valid() && h.Familiar(inputs) && h.Open(inputs, e) && !Strange(h.env, e)
    requires !Unreadable(h.Seen(inputs, e), e)
    ensures h.Outcome(inputs, e) == Panic <==> exists i :: 0 <= i < |h.corruptions| && SeedFails(h, inputs, e, i)
  {
    var st := h.Seen(inputs, e);
    OutcomeDescribed(h, inputs, e);
    forall i: nat | i < |h.corruptions| && Decides(h, inputs, e, i)
      ensures h.Outcome(inputs, e) == Panic <==> SeedFails(h, inputs, e, i)
    {
      DecidedPanics(h, inputs, e, i);
    }
    if !AnyDrop(h.env, st, h.drops, e)
      && exists i :: 0 <= i < |h.corruptions| && CorruptionMatches(h.env, st, h.corruptions[i], e)
    {
      var first := FindFirst(h.corruptions, c => CorruptionMatches(h.env, st, c, e));
      assert Decides(h, inputs, e, first);
    }
  }

  lemma DecidedPanics(h: Harness, inputs: seq<Input>, e: Event, i: nat)
    requires h.Valid() && h.Familiar(inputs) && i < |h.corruptions| && Decides(h, inputs, e, i)
    ensures h.Outcome(inputs, e) == Panic <==> SeedFails(h, inputs, e, i)
  {
    if h.corruptions[i].kind == 5 {
      BlockChanged(h, inputs, e, i);
    } else {
      OutcomeDecided(h, inputs, e, i);
      assert Some(h.filters[|OBSERVERS| + |h.drops| + i]) == CorruptFilter(h.corruptions[i]);
    }
  }
}
