/** The list of filters every event goes through, and what it amounts to
    (`ByzzFuzzInst` in byzzfuzz/instance.go). */
module Pipeline {
  import opened Prelude
  import opened Messages
  import opened Vars
  import opened Labels
  import opened Faults
  import opened RoundTracking
  import opened SpecLog
  import Agreement

  datatype Filter =
    | EndOnSuccess
    | TrackTotalRounds
    | LogSpec
    | LogConsensus
    | LogBlockIds
    | Drop(drop: MessageDrop, t: MessageType)
    | Corrupt(corruption: MessageCorruption, ct: MessageType, kind: CorruptionType)

  const OBSERVERS: seq<Filter> := [EndOnSuccess, TrackTotalRounds, LogSpec, LogConsensus, LogBlockIds]

  function DropFilter(d: MessageDrop): Option<Filter> {
    match StepType(d.step)
    case None => None
    case Some(t) => Some(Drop(d, t))
  }

  function CorruptFilter(c: MessageCorruption): Option<Filter> {
    match (StepType(c.step), CorruptionTypeOf(c.kind))
    case (Some(t), Some(kind)) => Some(Corrupt(c, t, kind))
    case _ => None
  }

  /** The filters of a configuration; `None` when some step or corruption type makes the
      source panic while it builds them. */
  ghost predicate AreFilters(drops: seq<MessageDrop>, corruptions: seq<MessageCorruption>, filters: seq<Filter>) {
    && |filters| == |OBSERVERS| + |drops| + |corruptions|
    && filters[..|OBSERVERS|] == OBSERVERS
    && (forall i :: 0 <= i < |drops| ==> Some(filters[|OBSERVERS| + i]) == DropFilter(drops[i]))
    && (forall i :: 0 <= i < |corruptions| ==>
          Some(filters[|OBSERVERS| + |drops| + i]) == CorruptFilter(corruptions[i]))
  }

  // ---- The test's state machine

  datatype Phase = Init | DiffCommits | Success

  datatype Machine = Machine(st: State, phase: Phase, log: seq<SpecEvent>)

  /** The transitions out of the initial state, tried in the order they were added. */
  function Transition(lib: Library, m: Machine, e: Event): Machine {
    if m.phase != Init then m
    else
      var (st, differ) := Agreement.Diff(m.st, e);
      if differ then m.(st := st, phase := DiffCommits)
      else if lib.heightReached(e) || (lib.isCommit(e) && st.finished) then m.(st := st, phase := Success)
      else m.(st := st)
  }

  // ---- One filter, and all of them

  datatype Outcome = Pass | Handled(messages: seq<Message>) | Panic

  function ProposedBy(e: Event): seq<BlockID> {
    match ParsedOf(e)
    case None => []
    case Some(m) =>
      match m.body.content.proposed
      case None => []
      case Some(id) => [id]
  }

  /** `logBlockIds`. */
  function AddBlockIds(st: State, e: Event): State {
    if ProposedBy(e) == [] then st else st.(blockIds := Some(st.blockIds.GetOr([]) + ProposedBy(e)))
  }

  /** `logConsensusMessages` prints the labels of both ends of a consensus message. */
  predicate CannotLabel(parts: seq<Part>, e: Event) {
    && ParsedOf(e).Some? && ParsedOf(e).value.body.content.mtype != Other
    && (NodeLabelOf(parts, ParsedOf(e).value.from).None? || NodeLabelOf(parts, ParsedOf(e).value.to).None?)
  }

  function Apply(env: Setup, f: Filter, m: Machine, e: Event): (Machine, Outcome) {
    match f
    case EndOnSuccess => if m.phase == Success then (m, Handled([])) else (m, Pass)
    case TrackTotalRounds => (m.(st := Track(m.st, e)), Pass)
    case LogSpec =>
      (match Logged(m.st.partition.GetOr([]), e)
       case None => (m, Panic)
       case Some(events) => (m.(log := m.log + events), Pass))
    case LogConsensus => if CannotLabel(m.st.partition.GetOr([]), e) then (m, Panic) else (m, Pass)
    case LogBlockIds => (m.(st := AddBlockIds(m.st, e)), Pass)
    case Drop(d, t) =>
      (match DropCondition(env, m.st, d, t, e)
       case No => (m, Pass)
       case Yes => (m, Handled([]))
       case Crash => (m, Panic))
    case Corrupt(c, t, kind) =>
      match CorruptCondition(m.st, c, t, e)
      case No => (m, Pass)
      case Crash => (m, Panic)
      case Yes =>
        match Act(env, m.st, kind, c.seed, ParsedOf(e).value)
        case None => (m, Panic)
        case Some(messages) => (m, Handled(messages))
  }

  /** The library's filter loop: the first filter that handles the event wins. */
  function Fold(env: Setup, filters: seq<Filter>, m: Machine, e: Event): (Machine, Outcome) {
    if filters == [] then (m, Pass)
    else
      var (m', out) := Apply(env, filters[0], m, e);
      if out == Pass then Fold(env, filters[1..], m', e) else (m', out)
  }

  /** What is delivered in the end: a send nobody handled goes out as it is. */
  function Delivered(e: Event, out: Outcome): seq<Message> {
    match out
    case Handled(messages) => messages
    case Panic => []
    case Pass => if e.kind.Send? && e.kind.message.Some? then [e.kind.message.value] else []
  }

  // ---- What the observing filters do together

  function Tracked(m: Machine, e: Event): Machine {
    Machine(AddBlockIds(Track(m.st, e), e), m.phase, m.log + Logged(m.st.partition.GetOr([]), e).GetOr([]))
  }

  lemma TrackKeeps(st: State, e: Event)
    ensures Track(st, e).partition == st.partition && Track(st, e).finished == st.finished
    ensures Track(st, e).blockIds == st.blockIds && Track(st, e).blockAt == st.blockAt
    ensures Track(st, e).received == st.received && Track(st, e).expected == st.expected
    ensures Track(st, e).current == st.current && Track(st, e).faults == st.faults
  {
  }

  lemma StrangeExactly(env: Setup, st: State, e: Event)
    requires Labelled(env, st)
    ensures Strange(env, e) <==> Logged(st.partition.value, e).None? || CannotLabel(st.partition.value, e)
  {
    var parts := st.partition.value;
    if ParsedOf(e).Some? {
      LabelsCoherent(env.replicas, parts, ParsedOf(e).value.from);
      LabelsCoherent(env.replicas, parts, ParsedOf(e).value.to);
    }
    LabelsCoherent(env.replicas, parts, e.replica);
  }

  lemma ObserversFold(env: Setup, rest: seq<Filter>, m: Machine, e: Event)
    requires Labelled(env, m.st) && m.phase != Success
    ensures Strange(env, e) ==> Fold(env, OBSERVERS + rest, m, e).1 == Panic
    ensures !Strange(env, e) ==> Fold(env, OBSERVERS + rest, m, e) == Fold(env, rest, Tracked(m, e), e)
  {
    var filters := OBSERVERS + rest;
    var m1 := m.(st := Track(m.st, e));
    TrackKeeps(m.st, e);
    StrangeExactly(env, m.st, e);
    assert filters == [EndOnSuccess] + ([TrackTotalRounds] + ([LogSpec] + ([LogConsensus] + ([LogBlockIds] + rest))));
    FoldCons(env, EndOnSuccess, [TrackTotalRounds] + ([LogSpec] + ([LogConsensus] + ([LogBlockIds] + rest))), m, e);
    FoldCons(env, TrackTotalRounds, [LogSpec] + ([LogConsensus] + ([LogBlockIds] + rest)), m, e);
    FoldCons(env, LogSpec, [LogConsensus] + ([LogBlockIds] + rest), m1, e);
    if Logged(m.st.partition.value, e).Some? {
      var m2 := m1.(log := m.log + Logged(m.st.partition.value, e).value);
      FoldCons(env, LogConsensus, [LogBlockIds] + rest, m2, e);
      FoldCons(env, LogBlockIds, rest, m2, e);
    }
  }

  lemma FoldCons(env: Setup, f: Filter, rest: seq<Filter>, m: Machine, e: Event)
    ensures Fold(env, [f] + rest, m, e) ==
      if Apply(env, f, m, e).1 == Pass then Fold(env, rest, Apply(env, f, m, e).0, e) else Apply(env, f, m, e)
  {
    assert ([f] + rest)[1..] == rest;
  }

  // ---- What the fault filters do together

  predicate IsFault(f: Filter) {
    f.Drop? || f.Corrupt?
  }

  ghost predicate FirstToAct(env: Setup, filters: seq<Filter>, m: Machine, e: Event, i: nat)
    requires i < |filters|
  {
    && Apply(env, filters[i], m, e).1 != Pass
    && forall j :: 0 <= j < i ==> Apply(env, filters[j], m, e).1 == Pass
  }

  lemma FaultKeepsMachine(env: Setup, f: Filter, m: Machine, e: Event)
    requires IsFault(f)
    ensures Apply(env, f, m, e).0 == m
  {
  }

  lemma {:induction false} FaultsPass(env: Setup, filters: seq<Filter>, m: Machine, e: Event)
    requires forall i :: 0 <= i < |filters| ==> IsFault(filters[i])
    requires forall i :: 0 <= i < |filters| ==> Apply(env, filters[i], m, e).1 == Pass
    ensures Fold(env, filters, m, e) == (m, Pass)
  {
    if filters != [] {
      FaultKeepsMachine(env, filters[0], m, e);
      FaultsPass(env, filters[1..], m, e);
    }
  }

  /** The first fault filter that does not let the event pass decides. */
  lemma {:induction false} FaultDecides(env: Setup, filters: seq<Filter>, m: Machine, e: Event, i: nat)
    requires forall i :: 0 <= i < |filters| ==> IsFault(filters[i])
    requires i < |filters| && FirstToAct(env, filters, m, e, i)
    ensures Fold(env, filters, m, e) == (m, Apply(env, filters[i], m, e).1)
  {
    FaultKeepsMachine(env, filters[0], m, e);
    if i > 0 {
      FaultDecides(env, filters[1..], m, e, i - 1);
    }
  }

  /** The send cannot be parsed: a fault filter's round condition panics on it. */
  predicate Unreadable(st: State, e: Event) {
    e.kind.Send? && ParsedOf(e).None? && !st.finished
  }

  function DropOutcome(env: Setup, st: State, d: MessageDrop, e: Event): Outcome {
    if DropMatches(env, st, d, e) then Handled([]) else if Unreadable(st, e) then Panic else Pass
  }

  function ActOutcome(env: Setup, st: State, c: MessageCorruption, e: Event): Outcome {
    match (CorruptionTypeOf(c.kind), ParsedOf(e))
    case (Some(kind), Some(message)) =>
      (match Act(env, st, kind, c.seed, message)
       case None => Panic
       case Some(messages) => Handled(messages))
    case _ => Panic
  }

  function CorruptOutcome(env: Setup, st: State, c: MessageCorruption, e: Event): Outcome {
    if CorruptionMatches(env, st, c, e) then ActOutcome(env, st, c, e) else if Unreadable(st, e) then Panic else Pass
  }

  lemma DropApplies(env: Setup, d: MessageDrop, f: Filter, m: Machine, e: Event)
    requires Some(f) == DropFilter(d) && !Strange(env, e)
    ensures Apply(env, f, m, e) == (m, DropOutcome(env, m.st, d, e))
  {
    DropConditionExactly(env, m.st, d, f.t, e);
  }

  lemma CorruptApplies(env: Setup, c: MessageCorruption, f: Filter, m: Machine, e: Event)
    requires Some(f) == CorruptFilter(c) && Labelled(env, m.st)
    ensures Apply(env, f, m, e) == (m, CorruptOutcome(env, m.st, c, e))
  {
    CorruptConditionExactly(env, m.st, c, f.ct, e);
  }

  // ---- The network the configuration describes

  predicate AnyDrop(env: Setup, st: State, drops: seq<MessageDrop>, e: Event) {
    exists i :: 0 <= i < |drops| && DropMatches(env, st, drops[i], e)
  }

  predicate FirstCorruption(env: Setup, st: State, corruptions: seq<MessageCorruption>, e: Event, i: nat)
    requires i < |corruptions|
  {
    && CorruptionMatches(env, st, corruptions[i], e)
    && forall j :: 0 <= j < i ==> !CorruptionMatches(env, st, corruptions[j], e)
  }

  /** What becomes of an event: it is dropped if any drop is aimed at it; else the first
      corruption aimed at it acts; else nothing interferes.  A send that cannot be parsed
      is fatal as soon as there is any fault to check for. */
  ghost predicate Describes(
    env: Setup, drops: seq<MessageDrop>, corruptions: seq<MessageCorruption>, st: State, e: Event, out: Outcome)
  {
    if Unreadable(st, e) then out == if |drops| + |corruptions| > 0 then Panic else Pass
    else if AnyDrop(env, st, drops, e) then out == Handled([])
    else
      && (forall i | 0 <= i < |corruptions| && FirstCorruption(env, st, corruptions, e, i) ::
            out == ActOutcome(env, st, corruptions[i], e))
      && ((forall i :: 0 <= i < |corruptions| ==> !CorruptionMatches(env, st, corruptions[i], e)) ==> out == Pass)
  }

  /** The description leaves no choice. */
  lemma DescribesOneOutcome(
    env: Setup, drops: seq<MessageDrop>, corruptions: seq<MessageCorruption>, st: State, e: Event,
    a: Outcome, b: Outcome)
    requires Describes(env, drops, corruptions, st, e, a) && Describes(env, drops, corruptions, st, e, b)
    ensures a == b
  {
    if exists i :: 0 <= i < |corruptions| && CorruptionMatches(env, st, corruptions[i], e) {
      var first := FindFirst(corruptions, c => CorruptionMatches(env, st, c, e));
    }
  }

  /** What fault filter number i does on its own. */
  function FaultOutcome(
    env: Setup, drops: seq<MessageDrop>, corruptions: seq<MessageCorruption>, st: State, e: Event, i: nat): Outcome
    requires i < |drops| + |corruptions|
  {
    if i < |drops| then DropOutcome(env, st, drops[i], e)
    else CorruptOutcome(env, st, corruptions[i - |drops|], e)
  }

  /** The fault filters of a configuration, by what each does. */
  ghost predicate ActAsFaults(
    env: Setup, drops: seq<MessageDrop>, corruptions: seq<MessageCorruption>, faults: seq<Filter>, m: Machine, e: Event)
  {
    && |faults| == |drops| + |corruptions|
    && forall i :: 0 <= i < |faults| ==>
      IsFault(faults[i]) && Apply(env, faults[i], m, e).1 == FaultOutcome(env, drops, corruptions, m.st, e, i)
  }

  lemma CorruptionDecides(
    env: Setup, drops: seq<MessageDrop>, corruptions: seq<MessageCorruption>, st: State, e: Event, i: nat)
    requires !Unreadable(st, e) && !AnyDrop(env, st, drops, e)
    requires i < |corruptions| && FirstCorruption(env, st, corruptions, e, i)
    ensures FaultOutcome(env, drops, corruptions, st, e, |drops| + i) == ActOutcome(env, st, corruptions[i], e) != Pass
    ensures forall j :: 0 <= j < |drops| + i ==> FaultOutcome(env, drops, corruptions, st, e, j) == Pass
  {
  }

  lemma CorruptionActsFirst(
    env: Setup, drops: seq<MessageDrop>, corruptions: seq<MessageCorruption>, faults: seq<Filter>, m: Machine, e: Event,
    i: nat)
    requires ActAsFaults(env, drops, corruptions, faults, m, e)
    requires !Unreadable(m.st, e) && !AnyDrop(env, m.st, drops, e)
    requires i < |corruptions| && FirstCorruption(env, m.st, corruptions, e, i)
    ensures Fold(env, faults, m, e) == (m, ActOutcome(env, m.st, corruptions[i], e))
  {
    CorruptionDecides(env, drops, corruptions, m.st, e, i);
    FaultDecides(env, faults, m, e, |drops| + i);
  }

  lemma DropActsFirst(
    env: Setup, drops: seq<MessageDrop>, corruptions: seq<MessageCorruption>, faults: seq<Filter>, m: Machine, e: Event)
    requires ActAsFaults(env, drops, corruptions, faults, m, e)
    requires !Unreadable(m.st, e) && AnyDrop(env, m.st, drops, e)
    ensures Fold(env, faults, m, e) == (m, Handled([]))
  {
    var first := FindFirst(drops, d => DropMatches(env, m.st, d, e));
    forall j | 0 <= j < first ensures Apply(env, faults[j], m, e).1 == Pass {
      assert FaultOutcome(env, drops, corruptions, m.st, e, j) == Pass;
    }
    assert FaultOutcome(env, drops, corruptions, m.st, e, first) == Handled([]);
    FaultDecides(env, faults, m, e, first);
  }

  lemma UnreadableIsFatal(
    env: Setup, drops: seq<MessageDrop>, corruptions: seq<MessageCorruption>, faults: seq<Filter>, m: Machine, e: Event)
    requires ActAsFaults(env, drops, corruptions, faults, m, e)
    requires Unreadable(m.st, e) && |faults| > 0
    ensures Fold(env, faults, m, e) == (m, Panic)
  {
    assert FaultOutcome(env, drops, corruptions, m.st, e, 0) == Panic;
    FaultDecides(env, faults, m, e, 0);
  }

  /** Fault filters that each do what they should, together do what is described. */
  lemma FaultsMeaning(
    env: Setup, drops: seq<MessageDrop>, corruptions: seq<MessageCorruption>, faults: seq<Filter>, m: Machine, e: Event)
    requires ActAsFaults(env, drops, corruptions, faults, m, e)
    ensures Describes(env, drops, corruptions, m.st, e, Fold(env, faults, m, e).1)
    ensures Fold(env, faults, m, e).0 == m
  {
    if Unreadable(m.st, e) {
      if |faults| > 0 {
        UnreadableIsFatal(env, drops, corruptions, faults, m, e);
      } else {
        FaultsPass(env, faults, m, e);
      }
    } else if AnyDrop(env, m.st, drops, e) {
      DropActsFirst(env, drops, corruptions, faults, m, e);
    } else {
      forall i: nat | i < |corruptions| && FirstCorruption(env, m.st, corruptions, e, i)
        ensures Fold(env, faults, m, e) == (m, ActOutcome(env, m.st, corruptions[i], e))
      {
        CorruptionActsFirst(env, drops, corruptions, faults, m, e, i);
      }
      if forall i :: 0 <= i < |corruptions| ==> !CorruptionMatches(env, m.st, corruptions[i], e) {
        forall i | 0 <= i < |faults| ensures Apply(env, faults[i], m, e).1 == Pass {
          assert FaultOutcome(env, drops, corruptions, m.st, e, i) == Pass;
        }
        FaultsPass(env, faults, m, e);
      } else {
        var first := FindFirst(corruptions, c => CorruptionMatches(env, m.st, c, e));
      }
    }
  }

  /** The meaning of the whole filter list, for any lists of drops and corruptions, any
      event, and any state before success: an event that cannot be labelled is fatal;
      any other is tracked first, and then suffers what the configuration describes. */
  lemma PipelineMeaning(
    env: Setup, drops: seq<MessageDrop>, corruptions: seq<MessageCorruption>, filters: seq<Filter>, m: Machine, e: Event)
    requires AreFilters(drops, corruptions, filters) && Labelled(env, m.st) && m.phase != Success
    ensures Strange(env, e) ==> Fold(env, filters, m, e).1 == Panic
    ensures !Strange(env, e) ==>
      && Fold(env, filters, m, e).0 == Tracked(m, e)
      && Describes(env, drops, corruptions, Tracked(m, e).st, e, Fold(env, filters, m, e).1)
  {
    var faults := filters[|OBSERVERS|..];
    assert filters == OBSERVERS + faults;
    ObserversFold(env, faults, m, e);
    if !Strange(env, e) {
      var m1 := Tracked(m, e);
      TrackKeeps(m.st, e);
      forall i | 0 <= i < |faults|
        ensures IsFault(faults[i])
        ensures Apply(env, faults[i], m1, e).1 == FaultOutcome(env, drops, corruptions, m1.st, e, i)
      {
        if i < |drops| {
          DropApplies(env, drops[i], faults[i], m1, e);
        } else {
          assert faults[i] == filters[|OBSERVERS| + |drops| + (i - |drops|)];
          CorruptApplies(env, corruptions[i - |drops|], faults[i], m1, e);
        }
      }
      FaultsMeaning(env, drops, corruptions, faults, m1, e);
    }
  }

  /** The order of the drops makes no difference. */
  lemma DropOrderIrrelevant(
    env: Setup, drops: seq<MessageDrop>, drops': seq<MessageDrop>, corruptions: seq<MessageCorruption>,
    filters: seq<Filter>, filters': seq<Filter>, m: Machine, e: Event)
    requires multiset(drops) == multiset(drops')
    requires AreFilters(drops, corruptions, filters) && AreFilters(drops', corruptions, filters')
    requires Labelled(env, m.st) && m.phase != Success
    ensures Fold(env, filters, m, e).1 == Fold(env, filters', m, e).1
    ensures !Strange(env, e) ==> Fold(env, filters, m, e).0 == Fold(env, filters', m, e).0
  {
    PipelineMeaning(env, drops, corruptions, filters, m, e);
    PipelineMeaning(env, drops', corruptions, filters', m, e);
    if !Strange(env, e) {
      var st := Tracked(m, e).st;
      assert |drops| == |multiset(drops)| == |multiset(drops')| == |drops'|;
      SameDrops(env, st, drops, drops', e);
      DescribesOneOutcome(env, drops, corruptions, st, e, Fold(env, filters, m, e).1, Fold(env, filters', m, e).1);
    }
  }

  lemma SameDrops(env: Setup, st: State, drops: seq<MessageDrop>, drops': seq<MessageDrop>, e: Event)
    requires multiset(drops) == multiset(drops')
    ensures AnyDrop(env, st, drops, e) <==> AnyDrop(env, st, drops', e)
  {
    if i :| 0 <= i < |drops| && DropMatches(env, st, drops[i], e) {
      assert drops[i] in multiset(drops');
      assert drops[i] in drops';
    }
    if i :| 0 <= i < |drops'| && DropMatches(env, st, drops'[i], e) {
      assert drops'[i] in multiset(drops);
      assert drops'[i] in drops;
    }
  }

  /** At most one message comes out for an event, and it keeps its two ends. */
  lemma AtMostOneMessage(
    env: Setup, drops: seq<MessageDrop>, corruptions: seq<MessageCorruption>, filters: seq<Filter>, m: Machine, e: Event)
    requires AreFilters(drops, corruptions, filters) && Labelled(env, m.st) && m.phase != Success
    ensures |Delivered(e, Fold(env, filters, m, e).1)| <= 1
    ensures forall x :: x in Delivered(e, Fold(env, filters, m, e).1) ==>
      e.kind.Send? && MessageOf(e).Some? && x.from == MessageOf(e).value.from && x.to == MessageOf(e).value.to
  {
    PipelineMeaning(env, drops, corruptions, filters, m, e);
    var st := Tracked(m, e).st;
    if exists i :: 0 <= i < |corruptions| && CorruptionMatches(env, st, corruptions[i], e) {
      var i := FindFirst(corruptions, c => CorruptionMatches(env, st, c, e));
      if CorruptionTypeOf(corruptions[i].kind).Some? {
        ActKeepsEndpoints(env, st, CorruptionTypeOf(corruptions[i].kind).value, corruptions[i].seed, ParsedOf(e).value);
      }
    }
  }

  // ---- Healing

  function Finish(m: Machine): Machine {
    m.(st := m.st.(finished := true))
  }

  /** Once the timer has fired, no fault touches anything: every send the harness can
      label goes out as it is. */
  lemma HealedDelivers(
    env: Setup, drops: seq<MessageDrop>, corruptions: seq<MessageCorruption>, filters: seq<Filter>, m: Machine, e: Event)
    requires AreFilters(drops, corruptions, filters) && Labelled(env, m.st) && m.phase != Success
    requires m.st.finished && !Strange(env, e)
    ensures Fold(env, filters, m, e) == (Tracked(m, e), Pass)
    ensures e.kind.Send? && e.kind.message.Some? ==>
      Delivered(e, Fold(env, filters, m, e).1) == [e.kind.message.value]
  {
    PipelineMeaning(env, drops, corruptions, filters, m, e);
    TrackKeeps(m.st, e);
  }

  /** The flag changes nothing in what a filter records, and whatever passes without it
      passes with it. */
  lemma FinishCommutes(env: Setup, f: Filter, m: Machine, e: Event)
    ensures Apply(env, f, Finish(m), e).0 == Finish(Apply(env, f, m, e).0)
    ensures Apply(env, f, Finish(m), e).1 == if IsFault(f) then Pass else Apply(env, f, m, e).1
  {
  }

  /** Tracking and logging go on exactly as they would have without the timer. */
  lemma TrackingUnaffected(m: Machine, e: Event)
    ensures Tracked(Finish(m), e) == Finish(Tracked(m, e))
  {
  }

  /** The filter loop with the timer firing in another thread just before filter number
      `fires` reads the flag, or not at all if that is never reached. */
  function FoldRacing(env: Setup, filters: seq<Filter>, m: Machine, e: Event, fires: nat): (Machine, Outcome) {
    if filters == [] then (m, Pass)
    else if fires == 0 then Fold(env, filters, Finish(m), e)
    else
      var (m', out) := Apply(env, filters[0], m, e);
      if out == Pass then FoldRacing(env, filters[1..], m', e, fires - 1) else (m', out)
  }

  /** Wherever the timer fires while an event is being filtered, the event fares as if
      the timer had fired before it or after it. */
  lemma {:induction false} RaceIsHarmless(env: Setup, filters: seq<Filter>, m: Machine, e: Event, fires: nat)
    ensures FoldRacing(env, filters, m, e, fires).1 in
      {Fold(env, filters, m, e).1, Fold(env, filters, Finish(m), e).1}
    ensures Finish(FoldRacing(env, filters, m, e, fires).0) in
      {Finish(Fold(env, filters, m, e).0), Finish(Fold(env, filters, Finish(m), e).0)}
  {
    if filters != [] && fires > 0 {
      var m' := Apply(env, filters[0], m, e).0;
      FinishCommutes(env, filters[0], m, e);
      RaceIsHarmless(env, filters[1..], m', e, fires - 1);
    }
  }
}
