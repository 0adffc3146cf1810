/** The online monitor of expected round steps (byzzfuzz/spec/round.go). */
module StepMonitor {
  import opened Prelude
  import opened Messages
  import opened Vars
  import opened RoundTracking

  // ---- The lists the monitor keeps

  function AddOnce<T(==)>(s: seq<T>, x: T): seq<T> {
    if x in s then s else s + [x]
  }

  function RemoveFirst<T(==)>(s: seq<T>, x: T): seq<T> {
    if s == [] then [] else if s[0] == x then s[1..] else [s[0]] + RemoveFirst(s[1..], x)
  }

  lemma AddOnceKeepsDistinct<T>(s: seq<T>, x: T)
    requires NoDuplicates(s)
    ensures NoDuplicates(AddOnce(s, x))
    ensures Elements(AddOnce(s, x)) == Elements(s) + {x}
  {
  }

  lemma {:induction false} RemoveFirstRemoves<T>(s: seq<T>, x: T)
    requires NoDuplicates(s)
    ensures NoDuplicates(RemoveFirst(s, x))
    ensures Elements(RemoveFirst(s, x)) == Elements(s) - {x}
  {
    if s != [] {
      assert s == [s[0]] + s[1..];
      assert Elements(s) == {s[0]} + Elements(s[1..]);
      assert s[0] !in Elements(s[1..]);
      RemoveFirstRemoves(s[1..], x);
      if s[0] != x {
        var rest := RemoveFirst(s[1..], x);
        assert Elements([s[0]] + rest) == {s[0]} + Elements(rest);
        assert s[0] !in Elements(rest);
        assert forall j :: 0 <= j < |rest| ==> rest[j] in Elements(rest);
      }
    }
  }

  lemma RemoveFirstKeepsOthers<T>(s: seq<T>, x: T, y: T)
    requires NoDuplicates(s)
    ensures NoDuplicates(RemoveFirst(s, x))
    ensures y in RemoveFirst(s, x) <==> y in s && y != x
  {
    RemoveFirstRemoves(s, x);
    assert y in RemoveFirst(s, x) <==> y in Elements(RemoveFirst(s, x));
  }

  // ---- One event

  /** Whether a message is of no interest to a replica at that (height, round). */
  type Guard = (HeightRound, HeightRound) -> bool

  /** The guard as the code has it. */
  predicate AsWritten(at: HeightRound, current: HeightRound) {
    at.height <= current.height || (at.height == current.height && at.round <= current.round)
  }

  /** The guard its comment describes: "already at that or a later round". */
  predicate AsIntended(at: HeightRound, current: HeightRound) {
    LexLe(at, current)
  }

  datatype Vote = Vote(from: ReplicaID, at: HeightRound)

  /** The replica receives a message for `at`, of whatever type; messages of the very
      first round do not count. */
  predicate Brings(e: Event, r: ReplicaID, at: HeightRound) {
    && e.replica == r
    && match e.kind
       case Receive(Some(Message(_, _, Parsed(c)))) => c.at == at && at.round >= 0 && at != HeightRound(1, 0)
       case _ => false
  }

  /** The message a receive event brings, if the monitor counts it. */
  function VoteOf(e: Event): (vote: Option<Vote>)
    ensures vote.Some? ==> Brings(e, e.replica, vote.value.at)
    ensures forall at :: Brings(e, e.replica, at) ==> vote == Some(Vote(e.kind.message.value.from, at))
  {
    if !e.kind.Receive? then None
    else match ParsedOf(e)
      case None => None
      case Some(m) =>
        var at := m.body.content.at;
        if at.round < 0 || (at.height == 1 && at.round == 0) then None
        else Some(Vote(m.from, at))
  }

  function ReceivedBy(st: State, r: ReplicaID): map<HeightRound, seq<ReplicaID>> {
    if r in st.received then st.received[r] else map[]
  }

  function NodesFor(st: State, r: ReplicaID, at: HeightRound): seq<ReplicaID> {
    if at in ReceivedBy(st, r) then ReceivedBy(st, r)[at] else []
  }

  function ExpectedOf(st: State, r: ReplicaID): seq<HeightRound> {
    if r in st.expected then st.expected[r] else []
  }

  function CurrentOf(st: State, r: ReplicaID): HeightRound {
    if r in st.current then st.current[r] else HeightRound(1, 0)
  }

  function UpdateReceived(received: map<HeightRound, seq<ReplicaID>>, from: ReplicaID, at: HeightRound):
    map<HeightRound, seq<ReplicaID>>
  {
    received[at := AddOnce(if at in received then received[at] else [], from)]
  }

  /** `TrackRoundsReceived` when the event brings a vote; `faults` is the number the
      harness was set up with. */
  function TrackReceived(guard: Guard, faults: int, st: State, r: ReplicaID, v: Vote): State {
    var received := UpdateReceived(ReceivedBy(st, r), v.from, v.at);
    var st1 := st.(received := st.received[r := received]);
    if !guard(v.at, CurrentOf(st, r)) && |received[v.at]| >= faults + 1
    then st1.(expected := st.expected[r := AddOnce(ExpectedOf(st, r), v.at)])
    else st1
  }

  /** The rest of `TrackCurrentHeightRound` when the event is a step. */
  function TrackStep(st: State, r: ReplicaID, at: HeightRound): State {
    var st1 := st.(current := st.current[r := at]);
    if r in st.expected then st1.(expected := st.expected[r := RemoveFirst(st.expected[r], at)]) else st1
  }

  /** `TrackCurrentHeightRound`. */
  function Observe(guard: Guard, faults: int, st: State, e: Event): State {
    match VoteOf(e)
    case Some(v) => TrackReceived(guard, faults, st, e.replica, v)
    case None =>
      match NewStepOf(e)
      case Some(at) => TrackStep(st, e.replica, at)
      case None => st
  }

  function Run(guard: Guard, faults: int, st: State, events: seq<Event>): State {
    if events == [] then st
    else Observe(guard, faults, Run(guard, faults, st, events[..|events| - 1]), events[|events| - 1])
  }

  // ---- What the history says

  /** Everyone the replica has received an `at` message from. */
  function Senders(events: seq<Event>, r: ReplicaID, at: HeightRound): set<ReplicaID> {
    set i | 0 <= i < |events| && Brings(events[i], r, at) :: events[i].kind.message.value.from
  }

  /** At event number i a message for `at` arrives, from a quorum of faults + 1 senders
      by then, and the guard does not turn it away. */
  ghost predicate QuorumAt(guard: Guard, faults: int, events: seq<Event>, r: ReplicaID, at: HeightRound, i: nat)
    requires i < |events|
  {
    && Brings(events[i], r, at)
    && |Senders(events[..i + 1], r, at)| >= faults + 1
    && !guard(at, Latest(History(events[..i], r)))
  }

  ghost predicate SteppedBetween(events: seq<Event>, r: ReplicaID, at: HeightRound, lo: nat, hi: nat)
    requires hi <= |events|
  {
    exists j :: lo <= j < hi && Steps(events[j], r, at)
  }

  // ---- The state is what the history says

  lemma SendersGrow(events: seq<Event>, r: ReplicaID, at: HeightRound)
    requires events != []
    ensures var front, e := events[..|events| - 1], events[|events| - 1];
      Senders(events, r, at) == Senders(front, r, at) + (if Brings(e, r, at) then {e.kind.message.value.from} else {})
  {
    var front, e := events[..|events| - 1], events[|events| - 1];
    assert forall i :: 0 <= i < |front| ==> front[i] == events[i];
    var claimed := Senders(front, r, at) + (if Brings(e, r, at) then {e.kind.message.value.from} else {});
    forall x ensures x in Senders(events, r, at) <==> x in claimed {
      if x in Senders(front, r, at) {
        var i :| 0 <= i < |front| && Brings(front[i], r, at) && front[i].kind.message.value.from == x;
        assert Brings(events[i], r, at) && events[i].kind.message.value.from == x;
      }
    }
  }

  lemma VoteCounted(guard: Guard, faults: int, st: State, r': ReplicaID, v: Vote, r: ReplicaID, at: HeightRound)
    ensures NodesFor(TrackReceived(guard, faults, st, r', v), r, at) ==
      if r == r' && v.at == at then AddOnce(NodesFor(st, r, at), v.from) else NodesFor(st, r, at)
  {
    var now := TrackReceived(guard, faults, st, r', v);
    assert ReceivedBy(now, r) == if r == r' then UpdateReceived(ReceivedBy(st, r), v.from, v.at) else ReceivedBy(st, r);
  }

  lemma VoteTracked(guard: Guard, faults: int, st: State, r': ReplicaID, v: Vote, r: ReplicaID)
    ensures CurrentOf(TrackReceived(guard, faults, st, r', v), r) == CurrentOf(st, r)
    ensures ExpectedOf(TrackReceived(guard, faults, st, r', v), r) ==
      if r == r' && !guard(v.at, CurrentOf(st, r))
        && |NodesFor(TrackReceived(guard, faults, st, r', v), r, v.at)| >= faults + 1
      then AddOnce(ExpectedOf(st, r), v.at)
      else ExpectedOf(st, r)
  {
    VoteCounted(guard, faults, st, r', v, r', v.at);
  }

  lemma StepTracked(st: State, r': ReplicaID, step: HeightRound, r: ReplicaID, at: HeightRound)
    ensures var st' := TrackStep(st, r', step);
      && NodesFor(st', r, at) == NodesFor(st, r, at)
      && CurrentOf(st', r) == (if r == r' then step else CurrentOf(st, r))
      && ExpectedOf(st', r) == (if r == r' then RemoveFirst(ExpectedOf(st, r), step) else ExpectedOf(st, r))
  {
  }

  lemma ObserveReceived(guard: Guard, faults: int, st: State, e: Event, r: ReplicaID, at: HeightRound)
    ensures NodesFor(Observe(guard, faults, st, e), r, at) ==
      if Brings(e, r, at) then AddOnce(NodesFor(st, r, at), e.kind.message.value.from) else NodesFor(st, r, at)
  {
    match VoteOf(e)
    case Some(v) => VoteCounted(guard, faults, st, e.replica, v, r, at);
    case None =>
      match NewStepOf(e)
      case Some(step) => StepTracked(st, e.replica, step, r, at);
      case None =>
  }

  lemma ObserveCurrent(guard: Guard, faults: int, st: State, e: Event, r: ReplicaID)
    ensures CurrentOf(Observe(guard, faults, st, e), r) ==
      if e.replica == r && NewStepOf(e).Some? then NewStepOf(e).value else CurrentOf(st, r)
  {
    match VoteOf(e)
    case Some(v) => VoteTracked(guard, faults, st, e.replica, v, r);
    case None =>
      match NewStepOf(e)
      case Some(step) => StepTracked(st, e.replica, step, r, step);
      case None =>
  }

  lemma ObserveExpected(guard: Guard, faults: int, st: State, e: Event, r: ReplicaID, at: HeightRound)
    requires NoDuplicates(ExpectedOf(st, r))
    ensures NoDuplicates(ExpectedOf(Observe(guard, faults, st, e), r))
    ensures at in ExpectedOf(Observe(guard, faults, st, e), r) <==>
      && !Steps(e, r, at)
      && (at in ExpectedOf(st, r) || (
        && Brings(e, r, at)
        && |NodesFor(Observe(guard, faults, st, e), r, at)| >= faults + 1
        && !guard(at, CurrentOf(st, r))))
  {
    var before := ExpectedOf(st, r);
    match VoteOf(e)
    case Some(v) =>
      VoteTracked(guard, faults, st, e.replica, v, r);
      AddOnceKeepsDistinct(before, v.at);
    case None =>
      match NewStepOf(e)
      case Some(step) =>
        StepTracked(st, e.replica, step, r, at);
        RemoveFirstKeepsOthers(before, step, at);
      case None =>
  }

  /** The received map holds exactly the senders, each once. */
  lemma {:induction false} ReceivedIsSenders(
    guard: Guard, faults: int, st: State, events: seq<Event>, r: ReplicaID, at: HeightRound)
    requires r !in st.received
    ensures NoDuplicates(NodesFor(Run(guard, faults, st, events), r, at))
    ensures Elements(NodesFor(Run(guard, faults, st, events), r, at)) == Senders(events, r, at)
    ensures |NodesFor(Run(guard, faults, st, events), r, at)| == |Senders(events, r, at)|
  {
    if events != [] {
      var front, e := events[..|events| - 1], events[|events| - 1];
      ReceivedIsSenders(guard, faults, st, front, r, at);
      SendersGrow(events, r, at);
      ObserveReceived(guard, faults, Run(guard, faults, st, front), e, r, at);
      if Brings(e, r, at) {
        AddOnceKeepsDistinct(NodesFor(Run(guard, faults, st, front), r, at), e.kind.message.value.from);
      }
    }
    NoDuplicatesCount(NodesFor(Run(guard, faults, st, events), r, at));
  }

  lemma {:induction false} CurrentIsLatest(guard: Guard, faults: int, st: State, events: seq<Event>, r: ReplicaID)
    requires r !in st.current
    ensures CurrentOf(Run(guard, faults, st, events), r) == Latest(History(events, r))
  {
    if events != [] {
      var front := events[..|events| - 1];
      CurrentIsLatest(guard, faults, st, front, r);
      ObserveCurrent(guard, faults, Run(guard, faults, st, front), events[|events| - 1], r);
    }
  }

  /** The pending list in one event's terms: what it adds and what it takes away. */
  lemma PendingStep(guard: Guard, faults: int, st: State, events: seq<Event>, r: ReplicaID, at: HeightRound)
    requires r !in st.received && r !in st.current && events != []
    requires NoDuplicates(ExpectedOf(Run(guard, faults, st, events[..|events| - 1]), r))
    ensures NoDuplicates(ExpectedOf(Run(guard, faults, st, events), r))
    ensures at in ExpectedOf(Run(guard, faults, st, events), r) <==>
      && !Steps(events[|events| - 1], r, at)
      && (|| at in ExpectedOf(Run(guard, faults, st, events[..|events| - 1]), r)
          || QuorumAt(guard, faults, events, r, at, |events| - 1))
  {
    var front := events[..|events| - 1];
    ObserveExpected(guard, faults, Run(guard, faults, st, front), events[|events| - 1], r, at);
    ReceivedIsSenders(guard, faults, st, events, r, at);
    CurrentIsLatest(guard, faults, st, front, r);
    assert events[..|events|] == events;
  }

  /** Some receive saw a quorum that the guard let through, and the replica has not made
      the step since. */
  ghost predicate Owed(guard: Guard, faults: int, events: seq<Event>, r: ReplicaID, at: HeightRound) {
    exists i :: 0 <= i < |events| && OwedSince(guard, faults, events, r, at, i)
  }

  ghost predicate OwedSince(guard: Guard, faults: int, events: seq<Event>, r: ReplicaID, at: HeightRound, i: nat)
    requires i < |events|
  {
    QuorumAt(guard, faults, events, r, at, i) && !SteppedBetween(events, r, at, i + 1, |events|)
  }

  lemma OwedStep(guard: Guard, faults: int, events: seq<Event>, r: ReplicaID, at: HeightRound)
    requires events != []
    ensures Owed(guard, faults, events, r, at) <==>
      && !Steps(events[|events| - 1], r, at)
      && (|| Owed(guard, faults, events[..|events| - 1], r, at)
          || QuorumAt(guard, faults, events, r, at, |events| - 1))
  {
    var front, last := events[..|events| - 1], |events| - 1;
    forall i | 0 <= i < last
      ensures OwedSince(guard, faults, events, r, at, i) <==>
        OwedSince(guard, faults, front, r, at, i) && !Steps(events[last], r, at)
    {
      QuorumFront(guard, faults, events, r, at, i);
      SteppedFront(events, r, at, i + 1);
    }
    assert OwedSince(guard, faults, events, r, at, last) <==> QuorumAt(guard, faults, events, r, at, last);
    assert Brings(events[last], r, at) ==> !Steps(events[last], r, at);
  }

  /** The exact meaning of the pending list, for any run and any guard: no duplicates,
      and exactly the steps owed. */
  lemma {:induction false} PendingExactly(
    guard: Guard, faults: int, st: State, events: seq<Event>, r: ReplicaID, at: HeightRound)
    requires r !in st.received && r !in st.expected && r !in st.current
    ensures NoDuplicates(ExpectedOf(Run(guard, faults, st, events), r))
    ensures at in ExpectedOf(Run(guard, faults, st, events), r) <==> Owed(guard, faults, events, r, at)
  {
    if events != [] {
      PendingExactly(guard, faults, st, events[..|events| - 1], r, at);
      PendingStep(guard, faults, st, events, r, at);
      OwedStep(guard, faults, events, r, at);
    }
  }

  /** The pending lists are duplicate-free and hold exactly the steps owed. */
  ghost predicate ListsOwed(guard: Guard, faults: int, events: seq<Event>, st: State) {
    && (forall r :: NoDuplicates(ExpectedOf(st, r)))
    && (forall r, at :: at in ExpectedOf(st, r) <==> Owed(guard, faults, events, r, at))
  }

  lemma PendingLists(guard: Guard, faults: int, st: State, events: seq<Event>)
    requires st.received == map[] && st.expected == map[] && st.current == map[]
    ensures ListsOwed(guard, faults, events, Run(guard, faults, st, events))
  {
    var end := Run(guard, faults, st, events);
    forall r, at
      ensures at in ExpectedOf(end, r) <==> Owed(guard, faults, events, r, at)
    {
      PendingExactly(guard, faults, st, events, r, at);
    }
    forall r ensures NoDuplicates(ExpectedOf(end, r)) {
      PendingExactly(guard, faults, st, events, r, HeightRound(0, 0));
    }
  }

  lemma QuorumFront(guard: Guard, faults: int, events: seq<Event>, r: ReplicaID, at: HeightRound, i: nat)
    requires i < |events| - 1
    ensures QuorumAt(guard, faults, events, r, at, i) == QuorumAt(guard, faults, events[..|events| - 1], r, at, i)
  {
    var front := events[..|events| - 1];
    assert front[..i + 1] == events[..i + 1];
    assert front[..i] == events[..i];
  }

  lemma SteppedFront(events: seq<Event>, r: ReplicaID, at: HeightRound, lo: nat)
    requires lo < |events|
    ensures SteppedBetween(events, r, at, lo, |events|) <==>
      SteppedBetween(events[..|events| - 1], r, at, lo, |events| - 1) || Steps(events[|events| - 1], r, at)
  {
    var front, last := events[..|events| - 1], |events| - 1;
    if SteppedBetween(events, r, at, lo, |events|) {
      var j :| lo <= j < |events| && Steps(events[j], r, at);
      assert j < last ==> Steps(front[j], r, at);
    }
    if SteppedBetween(front, r, at, lo, last) {
      var j :| lo <= j < last && Steps(front[j], r, at);
      assert Steps(events[j], r, at);
    }
  }

  // ---- Runs in which the replica only moves forward

  lemma {:induction false} StepsAreHistory(events: seq<Event>, r: ReplicaID, at: HeightRound)
    ensures at in History(events, r) <==> SteppedBetween(events, r, at, 0, |events|)
  {
    if events != [] {
      StepsAreHistory(events[..|events| - 1], r, at);
      SteppedFront(events, r, at, 0);
    }
  }

  lemma ReachedByThen(events: seq<Event>, r: ReplicaID, i: nat)
    requires i <= |events| && Monotone(History(events, r))
    ensures LexLe(Latest(History(events[..i], r)), Latest(History(events, r)))
    ensures forall at :: SteppedBetween(events, r, at, 0, i) ==>
      LexLe(at, Latest(History(events[..i], r)))
  {
    HistoryPrefix(events, r, i);
    LatestIsGreatest(History(events, r));
    LatestIsGreatest(History(events[..i], r));
    forall at | SteppedBetween(events, r, at, 0, i)
      ensures LexLe(at, Latest(History(events[..i], r)))
    {
      var j :| 0 <= j < i && Steps(events[j], r, at);
      assert Steps(events[..i][j], r, at);
      StepsAreHistory(events[..i], r, at);
    }
  }

  /** With a guard that turns away whatever has been reached, in a run that only moves
      forward: pending is what a quorum was seen for and no step was ever made to. */
  lemma PendingInMonotoneRun(
    guard: Guard, faults: int, st: State, events: seq<Event>, r: ReplicaID, at: HeightRound)
    requires r !in st.received && r !in st.expected && r !in st.current
    requires forall a, c :: LexLe(a, c) ==> guard(a, c)
    requires Monotone(History(events, r))
    ensures NoDuplicates(ExpectedOf(Run(guard, faults, st, events), r))
    ensures at in ExpectedOf(Run(guard, faults, st, events), r) <==>
      && (exists i :: 0 <= i < |events| && QuorumAt(guard, faults, events, r, at, i))
      && !SteppedBetween(events, r, at, 0, |events|)
  {
    PendingExactly(guard, faults, st, events, r, at);
    forall i | 0 <= i < |events| && QuorumAt(guard, faults, events, r, at, i)
      ensures OwedSince(guard, faults, events, r, at, i) <==> !SteppedBetween(events, r, at, 0, |events|)
    {
      NoStepBeforeQuorum(guard, faults, events, r, at, i);
    }
  }

  lemma NoStepBeforeQuorum(guard: Guard, faults: int, events: seq<Event>, r: ReplicaID, at: HeightRound, i: nat)
    requires forall a, c :: LexLe(a, c) ==> guard(a, c)
    requires Monotone(History(events, r)) && i < |events| && QuorumAt(guard, faults, events, r, at, i)
    ensures SteppedBetween(events, r, at, 0, |events|) <==> SteppedBetween(events, r, at, i + 1, |events|)
  {
    ReachedByThen(events, r, i);
    assert !SteppedBetween(events, r, at, 0, i);
    assert !Steps(events[i], r, at);
  }

  /** The guard as written and the guard as intended, on one run: the first reports a
      step exactly when the second does and some quorum receive came while the replica
      was at a lower height. */
  lemma GuardsCompared(faults: int, st: State, events: seq<Event>, r: ReplicaID, at: HeightRound)
    requires r !in st.received && r !in st.expected && r !in st.current
    requires Monotone(History(events, r))
    ensures at in ExpectedOf(Run(AsWritten, faults, st, events), r) <==>
      && at in ExpectedOf(Run(AsIntended, faults, st, events), r)
      && (exists i :: 0 <= i < |events| && QuorumAt(AsIntended, faults, events, r, at, i)
            && Latest(History(events[..i], r)).height < at.height)
    ensures at.height <= 1 ==> at !in ExpectedOf(Run(AsWritten, faults, st, events), r)
  {
    PendingInMonotoneRun(AsWritten, faults, st, events, r, at);
    PendingInMonotoneRun(AsIntended, faults, st, events, r, at);
    forall i | 0 <= i < |events|
      ensures QuorumAt(AsWritten, faults, events, r, at, i) <==>
        QuorumAt(AsIntended, faults, events, r, at, i) && Latest(History(events[..i], r)).height < at.height
      ensures Latest(History(events[..i], r)).height >= 1
    {
      HistoryPrefix(events, r, i);
      LatestIsGreatest(History(events[..i], r));
    }
  }

  function PrevoteFrom(from: ReplicaID, to: ReplicaID, at: HeightRound): Event {
    Event(to, Receive(Some(Message(from, to, Parsed(Content(Prevote, at, None, None))))))
  }

  /** The guard as written overlooks a higher round of the height the replica is at: with
      one fault tolerated, a quorum of two prevotes for round 1 of height 1. */
  lemma WrittenGuardOverlooks() returns (events: seq<Event>, at: HeightRound)
    ensures Monotone(History(events, "a"))
    ensures at in ExpectedOf(Run(AsIntended, 1, EMPTY_STATE, events), "a")
    ensures at !in ExpectedOf(Run(AsWritten, 1, EMPTY_STATE, events), "a")
  {
    at := HeightRound(1, 1);
    events := [PrevoteFrom("b", "a", at), PrevoteFrom("c", "a", at)];
    assert events[..2] == events && events[..1] == [events[0]] && events[0..0] == [];
    assert Brings(events[0], "a", at) && events[0].kind.message.value.from == "b";
    assert Brings(events[1], "a", at) && events[1].kind.message.value.from == "c";
    assert NewStepOf(events[0]) == None && NewStepOf(events[1]) == None;
    assert History(events[..1][..0], "a") == [];
    assert History(events[..1], "a") == [];
    assert History(events, "a") == [];
    SubsetCount({"b", "c"}, Senders(events, "a", at));
    assert QuorumAt(AsIntended, 1, events, "a", at, 1);
    assert OwedSince(AsIntended, 1, events, "a", at, 1);
    PendingExactly(AsIntended, 1, EMPTY_STATE, events, "a", at);
    GuardsCompared(1, EMPTY_STATE, events, "a", at);
  }
}
