/** Random configurations (byzzfuzz/byzzfuzz.go, orchestrate.py, data.py) and what any
    run of one of them can and cannot do. */
module Generator {
  import opened Prelude
  import opened Decimal
  import opened Messages
  import opened Vars
  import opened Partitions
  import opened Faults
  import opened Pipeline
  import opened Runs

  // ---- Random choices: any result the random source may give

  method Intn(n: int) returns (x: int)
    requires n > 0
    ensures 0 <= x < n
  {
    x :| 0 <= x < n;
  }

  ghost predicate IsPermutation(p: seq<int>, n: nat) {
    |p| == n && NoDuplicates(p) && forall i :: 0 <= i < n ==> 0 <= p[i] < n
  }

  /** `rand.Perm`: the inside-out shuffle. */
  method Perm(n: nat) returns (p: seq<int>)
    ensures IsPermutation(p, n)
  {
    p := [];
    for i := 0 to n
      invariant IsPermutation(p, i)
    {
      var j := Intn(i + 1);
      if j == i {
        p := p + [i];
      } else {
        p := p[j := i] + [p[j]];
      }
    }
  }

  // ---- Sorting

  ghost predicate Increasing(s: seq<int>) {
    forall i, j :: 0 <= i < j < |s| ==> s[i] < s[j]
  }

  function Insert(s: seq<int>, x: int): seq<int> {
    if s == [] || x <= s[0] then [x] + s else [s[0]] + Insert(s[1..], x)
  }

  function Sort(s: seq<int>): seq<int> {
    if s == [] then [] else Insert(Sort(s[1..]), s[0])
  }

  lemma {:induction false} InsertIncreasing(s: seq<int>, x: int)
    requires Increasing(s) && x !in s
    ensures Increasing(Insert(s, x)) && |Insert(s, x)| == |s| + 1
    ensures forall y :: y in Insert(s, x) <==> y == x || y in s
  {
    if s != [] {
      assert s == [s[0]] + s[1..];
      if x > s[0] {
        InsertIncreasing(s[1..], x);
        var rest := Insert(s[1..], x);
        forall j | 0 <= j < |rest| ensures s[0] < rest[j] {
          assert rest[j] in rest;
        }
      }
    }
  }

  lemma {:induction false} SortIncreasing(s: seq<int>)
    requires NoDuplicates(s)
    ensures Increasing(Sort(s)) && |Sort(s)| == |s|
    ensures forall y :: y in Sort(s) <==> y in s
  {
    if s != [] {
      assert s == [s[0]] + s[1..];
      SortIncreasing(s[1..]);
      InsertIncreasing(Sort(s[1..]), s[0]);
    }
  }

  // ---- Well-formed configurations

  /** A nonempty set of nodes, in increasing order, that leaves out at least one. */
  ghost predicate ProperSubset(to: seq<int>, n: int) {
    Increasing(to) && 0 < |to| < n && forall i :: 0 <= i < |to| ==> 0 <= to[i] < n
  }

  ghost predicate DropsWellFormed(drops: seq<MessageDrop>, steps: int) {
    && (forall i :: 0 <= i < |drops| ==> 0 <= drops[i].step < steps && drops[i].partition in ALL_PARTITIONS)
    && (forall i, j :: 0 <= i < j < |drops| ==> drops[i].step != drops[j].step)
  }

  /** The kinds that make sense for the type of message of the step. */
  predicate KindFits(kind: int, step: int) {
    match CorruptionTypeOf(kind)
    case Some(ChangeProposalToNil) => StepType(step) == Some(Proposal)
    case Some(ChangeVoteToNil) => StepType(step) == Some(Prevote) || StepType(step) == Some(Precommit)
    case Some(ChangeVoteRound) => StepType(step) == Some(Prevote) || StepType(step) == Some(Precommit)
    case Some(Omit) => StepType(step).Some?
    case _ => false
  }

  ghost predicate CorruptionsWellFormed(corruptions: seq<MessageCorruption>, byzantine: int, steps: int, n: int) {
    && 0 <= byzantine < n
    && forall i :: 0 <= i < |corruptions| ==>
      && 0 <= corruptions[i].step < steps
      && corruptions[i].from == byzantine
      && ProperSubset(corruptions[i].to, n)
      && KindFits(corruptions[i].kind, corruptions[i].step)
  }

  datatype Config = Config(drops: seq<MessageDrop>, corruptions: seq<MessageCorruption>, byzantine: int)

  // ---- The generator

  method RandomPartition() returns (p: Partition)
    ensures p in ALL_PARTITIONS
  {
    var i := Intn(|ALL_PARTITIONS|);
    p := ALL_PARTITIONS[i];
  }

  method RandomNonEmptySubset(n: int) returns (subset: seq<int>)
    requires n >= 2
    ensures ProperSubset(subset, n)
  {
    var p := Perm(n);
    var k := Intn(n - 1);
    var s := p[0..1 + k];
    SortIncreasing(s);
    subset := Sort(s);
    forall i | 0 <= i < |subset| ensures 0 <= subset[i] < n {
      assert subset[i] in subset;
      assert subset[i] in s;
    }
  }

  function FittingKinds(t: MessageType): seq<int> {
    if t == Proposal then [0, 3] else [1, 2, 3]
  }

  /** The table of a step's message type has exactly the kinds that fit, so each of them
      may be drawn. */
  lemma FittingKindsExactly(step: int, t: MessageType, kind: int)
    requires StepType(step) == Some(t)
    ensures kind in FittingKinds(t) <==> KindFits(kind, step)
  {
  }

  /** `None` stands for the panic on a negative remainder. */
  method RandomCorruption(step: int) returns (kind: Option<int>)
    ensures kind.Some? <==> step >= 0 || step % 3 == 0
    ensures kind.Some? ==> KindFits(kind.value, step)
  {
    match StepType(step)
    case None => kind := None;
    case Some(t) =>
      var kinds := FittingKinds(t);
      var i := Intn(|kinds|);
      FittingKindsExactly(step, t, kinds[i]);
      kind := Some(kinds[i]);
  }

  /** `ByzzFuzzRandom`, for every random stream; `None` stands for a panic, which
      depends on the arguments alone. */
  method ByzzFuzzRandom(n: int, nDrops: nat, nCorruptions: nat, steps: int) returns (config: Option<Config>)
    ensures config.Some? <==> nDrops <= steps && n >= 1 && (nCorruptions > 0 ==> steps >= 1 && n >= 2)
    ensures config.Some? ==>
      && |config.value.drops| == nDrops && DropsWellFormed(config.value.drops, steps)
      && |config.value.corruptions| == nCorruptions
      && CorruptionsWellFormed(config.value.corruptions, config.value.byzantine, steps, n)
  {
    if steps < 0 || nDrops > steps { return None; }
    var dropSteps := Perm(steps);
    var drops: seq<MessageDrop> := [];
    for i := 0 to nDrops
      invariant |drops| == i && DropsWellFormed(drops, steps)
      invariant forall j :: 0 <= j < i ==> drops[j].step == dropSteps[j]
    {
      var p := RandomPartition();
      drops := drops + [MessageDrop(dropSteps[i], p)];
    }
    if n < 1 { return None; }
    var byzantine := Intn(n);
    if nCorruptions > 0 && (steps < 1 || n < 2) { return None; }
    var corruptions: seq<MessageCorruption> := [];
    for i := 0 to nCorruptions
      invariant |corruptions| == i && CorruptionsWellFormed(corruptions, byzantine, steps, n)
    {
      var step := Intn(steps);
      var to := RandomNonEmptySubset(n);
      var kind := RandomCorruption(step);
      corruptions := corruptions + [MessageCorruption(step, byzantine, to, kind.value, 0)];
    }
    config := Some(Config(drops, corruptions, byzantine));
  }

  // ---- The orchestration script's corruptions

  datatype Scope = Small | Any

  const MAX_STEPS := 10

  function KindsFor(scope: Scope, step: int): seq<int> {
    if step % 3 == 0 then (if scope == Small then [0, 3] else [5, 3])
    else (if scope == Small then [1, 2, 3] else [4, 3])
  }

  const ALL_SUBSETS: seq<seq<int>> := [
    [0, 1, 2, 3],
    [0, 1, 2], [0, 1, 3], [0, 2, 3], [1, 2, 3],
    [0, 1], [0, 2], [0, 3], [1, 2], [1, 3], [2, 3],
    [0], [1], [2], [3]
  ]

  /** What the random source gives for one corruption: a step, positions in the tables of
      types and of subsets, and a seed. */
  datatype Draw = Draw(step: int, kind: int, to: int, seed: int)

  predicate Legal(scope: Scope, d: Draw) {
    && 0 <= d.step < MAX_STEPS && 0 <= d.kind < |KindsFor(scope, d.step)|
    && 0 <= d.to < |ALL_SUBSETS| && 0 <= d.seed <= 10_000
  }

  function Drawn(scope: Scope, faulty: int, d: Draw): MessageCorruption
    requires Legal(scope, d)
  {
    MessageCorruption(d.step, faulty, ALL_SUBSETS[d.to], KindsFor(scope, d.step)[d.kind], d.seed)
  }

  /** The types of corruption a scope has for a type of message. */
  predicate InScope(scope: Scope, t: MessageType, kind: CorruptionType) {
    match scope
    case Small =>
      (match t
       case Proposal => kind in {ChangeProposalToNil, Omit}
       case Prevote => kind in {ChangeVoteToNil, ChangeVoteRound, Omit}
       case Precommit => kind in {ChangeVoteToNil, ChangeVoteRound, Omit}
       case Other => false)
    case Any =>
      match t
      case Proposal => kind in {ChangeBlockIdAnyScope, Omit}
      case Prevote => kind in {ChangeVoteRoundAnyScope, Omit}
      case Precommit => kind in {ChangeVoteRoundAnyScope, Omit}
      case Other => false
  }

  /** Some of the four nodes, in increasing order. */
  ghost predicate NodeSubset(to: seq<int>) {
    Increasing(to) && to != [] && forall k :: 0 <= k < |to| ==> 0 <= to[k] < 4
  }

  /** A corruption the script may generate. */
  ghost predicate Possible(scope: Scope, faulty: int, c: MessageCorruption) {
    && 0 <= c.step < 10 && c.from == faulty && 0 <= faulty < 4 && 0 <= c.seed <= 10_000 && NodeSubset(c.to)
    && CorruptionTypeOf(c.kind).Some? && InScope(scope, StepType(c.step).value, CorruptionTypeOf(c.kind).value)
  }

  /** The loop of `random_config`, for any draws: only possible corruptions. */
  method RandomConfigCorruptions(scope: Scope, faulty: int, draws: seq<Draw>)
    returns (corruptions: seq<MessageCorruption>)
    requires 0 <= faulty < 4 && forall i :: 0 <= i < |draws| ==> Legal(scope, draws[i])
    ensures |corruptions| == |draws|
    ensures forall i :: 0 <= i < |draws| ==> corruptions[i] == Drawn(scope, faulty, draws[i])
    ensures forall i :: 0 <= i < |draws| ==> Possible(scope, faulty, corruptions[i])
  {
    corruptions := [];
    for i := 0 to |draws|
      invariant |corruptions| == i
      invariant forall j :: 0 <= j < i ==> corruptions[j] == Drawn(scope, faulty, draws[j])
      invariant forall j :: 0 <= j < i ==> Possible(scope, faulty, corruptions[j])
    {
      var d := draws[i];
      var kind := KindsFor(scope, d.step)[d.kind];
      DrawnPossible(scope, faulty, d);
      corruptions := corruptions + [MessageCorruption(d.step, faulty, ALL_SUBSETS[d.to], kind, d.seed)];
    }
  }

  lemma KindsExactly(scope: Scope, step: int, kind: int)
    requires step >= 0
    ensures kind in KindsFor(scope, step) <==>
      CorruptionTypeOf(kind).Some? && InScope(scope, StepType(step).value, CorruptionTypeOf(kind).value)
  {
  }

  lemma DrawnPossible(scope: Scope, faulty: int, d: Draw)
    requires Legal(scope, d) && 0 <= faulty < 4
    ensures Possible(scope, faulty, Drawn(scope, faulty, d))
  {
    KindsExactly(scope, d.step, KindsFor(scope, d.step)[d.kind]);
  }

  lemma {:induction false} IncreasingAbove(s: seq<int>, k: nat)
    requires Increasing(s) && k < |s| && s[0] >= 0
    ensures s[k] >= k
  {
    if k > 0 {
      IncreasingAbove(s, k - 1);
    }
  }

  lemma SubsetListed(to: seq<int>) returns (i: nat)
    requires NodeSubset(to)
    ensures i < |ALL_SUBSETS| && ALL_SUBSETS[i] == to
  {
    if |to| == 1 {
      i := 11 + to[0];
      assert to == [to[0]];
    } else if |to| == 2 {
      i := if to[0] == 0 then 4 + to[1] else 5 + to[0] + to[1];
      assert to[0] < to[1] && to == [to[0], to[1]];
    } else if |to| == 3 {
      i := to[0] + to[1] + to[2] - 2;
      assert to[0] < to[1] < to[2] && to == [to[0], to[1], to[2]];
    } else {
      i := 0;
      IncreasingAbove(to, |to| - 1);
      assert to[0] < to[1] < to[2] < to[3];
      assert to == [to[0], to[1], to[2], to[3]];
    }
  }

  lemma OnePossible(scope: Scope, faulty: int, c: MessageCorruption) returns (d: Draw)
    requires Possible(scope, faulty, c)
    ensures Legal(scope, d) && Drawn(scope, faulty, d) == c
  {
    KindsExactly(scope, c.step, c.kind);
    var kinds := KindsFor(scope, c.step);
    var kind :| 0 <= kind < |kinds| && kinds[kind] == c.kind;
    var to := SubsetListed(c.to);
    d := Draw(c.step, kind, to, c.seed);
  }

  /** And every possible list of corruptions is what some draws give. */
  lemma {:induction false} EveryPossible(scope: Scope, faulty: int, corruptions: seq<MessageCorruption>)
    returns (draws: seq<Draw>)
    requires forall i :: 0 <= i < |corruptions| ==> Possible(scope, faulty, corruptions[i])
    ensures |draws| == |corruptions|
    ensures forall i :: 0 <= i < |draws| ==>
      Legal(scope, draws[i]) && Drawn(scope, faulty, draws[i]) == corruptions[i]
  {
    if corruptions == [] {
      draws := [];
    } else {
      draws := EveryPossible(scope, faulty, corruptions[1..]);
      var d := OnePossible(scope, faulty, corruptions[0]);
      draws := [d] + draws;
    }
  }

  // ---- Consequences for runs

  /** With distinct steps, at most one drop is aimed at any send. */
  lemma AtMostOneDropMatches(env: Setup, st: State, drops: seq<MessageDrop>, steps: int, e: Event, i: nat, j: nat)
    requires DropsWellFormed(drops, steps) && i < |drops| && j < |drops|
    requires DropMatches(env, st, drops[i], e) && DropMatches(env, st, drops[j], e)
    ensures i == j
  {
    if drops[i].step != drops[j].step {
      SameStep(drops[i].step, drops[j].step, ParsedOf(e).value.body.content.mtype);
    }
  }

  /** In a run of a generated configuration, whatever any event: a corruption rewrites or
      omits only messages the one Byzantine node sent to one of the listed targets, and
      the harness panics on nothing but strange or unreadable events. */
  lemma OnlyOneSenderCorrupted(h: Harness, inputs: seq<Input>, e: Event, byzantine: int, steps: int)
    requires h.Valid() && h.Familiar(inputs) && h.Open(inputs, e) && !Strange(h.env, e)
    requires CorruptionsWellFormed(h.corruptions, byzantine, steps, |h.env.replicas|)
    ensures var out := h.Outcome(inputs, e);
      && (out == Panic ==> Unreadable(h.Seen(inputs, e), e))
      && (out.Handled? && !AnyDrop(h.env, h.Seen(inputs, e), h.drops, e) ==>
        && ParsedOf(e).Some? && ParsedOf(e).value.from == h.env.replicas[byzantine]
        && exists i :: 0 <= i < |h.corruptions| && CorruptionMatches(h.env, h.Seen(inputs, e), h.corruptions[i], e))
  {
    RunReflects(h, inputs);
    TransitionKeeps(h.env.lib, h.Run(inputs), e);
    var m := Transition(h.env.lib, h.Run(inputs), e);
    PipelineMeaning(h.env, h.drops, h.corruptions, h.filters, m, e);
    var st := h.Seen(inputs, e);
    if exists i :: 0 <= i < |h.corruptions| && CorruptionMatches(h.env, st, h.corruptions[i], e) {
      var i := FindFirst(h.corruptions, c => CorruptionMatches(h.env, st, c, e));
      FittingKindActs(h.env, st, h.corruptions[i], e);
    }
  }

  lemma FittingKindActs(env: Setup, st: State, c: MessageCorruption, e: Event)
    requires KindFits(c.kind, c.step) && ParsedOf(e).Some?
    ensures ActOutcome(env, st, c, e).Handled?
  {
  }

  /** The any-scope script pairs proposal steps with ChangeBlockIdAnyScope, which leaves a
      proposal as it is; but being the first to match, it keeps every later corruption
      from touching the message. */
  lemma IneffectiveCorruptionShadows(h: Harness, inputs: seq<Input>, e: Event, i: nat)
    requires h.Valid() && h.Familiar(inputs) && h.Open(inputs, e) && !Strange(h.env, e)
    requires i < |h.corruptions| && FirstCorruption(h.env, h.Seen(inputs, e), h.corruptions, e, i)
    requires !AnyDrop(h.env, h.Seen(inputs, e), h.drops, e)
    requires h.corruptions[i].kind == 5 && h.corruptions[i].step % 3 == 0 && h.corruptions[i].seed >= 0
    ensures Delivered(e, h.Outcome(inputs, e)) == [MessageOf(e).value]
  {
    RunReflects(h, inputs);
    TransitionKeeps(h.env.lib, h.Run(inputs), e);
    PipelineMeaning(h.env, h.drops, h.corruptions, h.filters, Transition(h.env.lib, h.Run(inputs), e), e);
    var st, c, m := h.Seen(inputs, e), h.corruptions[i], ParsedOf(e).value;
    SeenBlockIds(h, inputs, e);
    assert StepType(c.step) == Some(Proposal);
    VoteActionsSpareOthers(h.env, st, ChangeBlockIdAnyScope, c.seed, m);
  }

  /** Whatever the library, the state and the seed, the action leaves messages of that
      type as they are. */
  ghost predicate Inert(t: MessageType) {
    forall env: Setup, st: State, seed: int, m: Message ::
      m.body.Parsed? && m.body.content.mtype == t && seed >= 0 && st.blockIds != Some([]) ==>
        Act(env, st, ChangeBlockIdAnyScope, seed, m) == Some([m])
  }

  /** ChangeBlockIdAnyScope is inert on exactly the messages that are no votes. */
  lemma BlockChangeInertExactly(t: MessageType)
    ensures Inert(t) <==> !IsVote(t)
  {
    if IsVote(t) {
      var m := Message("a", "b", Parsed(Content(t, HeightRound(1, 0), None, Some("key"))));
      var lib := Library((edit, r, m) => Some(Unparsed("changed")), r => Some("key"), e => false, e => false);
      var env, st := Setup(lib, ["a"]), EMPTY_STATE.(blockIds := Some(["x"]));
      BlockChangeExactly(env, st, 0, m);
      assert Signer(env, env.replicas, "key") == Some("a");
      assert Act(env, st, ChangeBlockIdAnyScope, 0, m) == Some([m.(body := Unparsed("changed"))]);
    } else {
      forall env: Setup, st: State, seed: int, m: Message
        | m.body.Parsed? && m.body.content.mtype == t && seed >= 0 && st.blockIds != Some([])
        ensures Act(env, st, ChangeBlockIdAnyScope, seed, m) == Some([m])
      {
        BlockChangeExactly(env, st, seed, m);
      }
    }
  }

  function QuietHarness(corruptions: seq<MessageCorruption>, filters: seq<Filter>): Harness {
    Harness(
      Setup(
        Library((edit, r, m) => None, r => None, e => false, e => false),
        ["a", "b", "c", "d"]),
      1, [], corruptions, filters)
  }

  function ProposalFrom(at: HeightRound): Message {
    Message("a", "b", Parsed(Content(Proposal, at, None, None)))
  }

  lemma FirstRoundStarted(h: Harness, start: Event)
    requires h.Valid() && h.env == QuietHarness([], []).env
    requires NewStepOf(start) == Some(HeightRound(1, 0)) && start.replica == "a"
    ensures h.Familiar([Arrives(start)]) && h.Processed([Arrives(start)]) == [start]
  {
    var inputs := [Arrives(start)];
    assert inputs[..0] == [];
    assert h.Open([], start);
    assert h.Processed(inputs) == h.Processed([]) + [start] == [start];
    assert !Strange(h.env, start);
  }

  lemma FirstRoundCounted(h: Harness, start: Event)
    requires h.Valid() && h.env == QuietHarness([], []).env
    requires NewStepOf(start) == Some(HeightRound(1, 0)) && start.replica == "a"
    ensures var rounds := h.Run([Arrives(start)]).st.rounds;
      "a" in rounds && HeightRound(1, 0) in rounds["a"].index && rounds["a"].index[HeightRound(1, 0)] == 0
  {
    var at := HeightRound(1, 0);
    FirstRoundStarted(h, start);
    assert [start][..0] == [] && [at][..0] == [];
    assert RoundTracking.History([start], "a") == RoundTracking.History([], "a") + [at] == [at];
    assert RoundTracking.Count([at]) == RoundTracking.Advance(RoundTracking.UNSTARTED, at);
    RunCounts(h, [Arrives(start)], "a");
  }

  lemma QuietNames()
    ensures var replicas := QuietHarness([], []).env.replicas;
      && Labels.ReplicaIndex(replicas, "a") == Some(0) && Labels.ReplicaIndex(replicas, "b") == Some(1)
      && "a" in replicas && "b" in replicas
  {
  }

  /** A round in which replica "a" has just started and sends its proposal to "b". */
  lemma ProposalSent(h: Harness, start: Event, e: Event, c: MessageCorruption)
    requires h.Valid() && h.env == QuietHarness([], []).env
    requires NewStepOf(start) == Some(HeightRound(1, 0)) && start.replica == "a"
    requires e == Event("a", Send(Some(ProposalFrom(HeightRound(1, 0)))))
    requires c.step == 0 && c.from == 0 && c.to == [1]
    ensures h.Familiar([Arrives(start)]) && h.Open([Arrives(start)], e) && !Strange(h.env, e)
    ensures CorruptionMatches(h.env, h.Seen([Arrives(start)], e), c, e)
  {
    var inputs := [Arrives(start)];
    FirstRoundStarted(h, start);
    FirstRoundCounted(h, start);
    QuietNames();
    SendSeesRounds(h, inputs, e);
    RunReflects(h, inputs);
    TransitionKeeps(h.env.lib, h.Run(inputs), e);
    assert TimerFires !in inputs && !h.Seen(inputs, e).finished;
    QuietRunOpen(h, start, e);
  }

  lemma QuietRunOpen(h: Harness, start: Event, e: Event)
    requires h.Valid() && h.env == QuietHarness([], []).env && NewStepOf(start).Some?
    requires e.kind.Send? && !Strange(h.env, start)
    ensures h.Open([Arrives(start)], e)
  {
    assert [Arrives(start)][..0] == [];
    StepReflects(h, h.Start(), [], start);
  }

  function FirstStep(): (e: Event)
    ensures NewStepOf(e) == Some(HeightRound(1, 0)) && e.replica == "a"
  {
    AnnouncedStepIsRead("a", HeightRound(1, 0), None);
    Event("a", Generic(NewStep, Params(Some(Print(1)), Some(Print(0)), None)))
  }

  /** What the shadowing costs: an omission of the faulty node's first proposal takes
      effect when it stands alone, and is lost behind an inert corruption of that step. */
  lemma ShadowingLosesAnOmission() returns (alone: Harness, shadowed: Harness, inputs: seq<Input>, e: Event)
    ensures alone.Valid() && shadowed.Valid() && shadowed.env == alone.env && shadowed.drops == alone.drops == []
    ensures shadowed.corruptions == [MessageCorruption(0, 0, [1], 5, 0)] + alone.corruptions
    ensures MessageOf(e).Some? && Delivered(e, alone.Outcome(inputs, e)) == []
    ensures Delivered(e, shadowed.Outcome(inputs, e)) == [MessageOf(e).value]
  {
    var inert, omission := MessageCorruption(0, 0, [1], 5, 0), MessageCorruption(0, 0, [1], 3, 0);
    alone, shadowed := TwoHarnesses(inert, omission);
    var start := FirstStep();
    inputs := [Arrives(start)];
    e := Event("a", Send(Some(ProposalFrom(HeightRound(1, 0)))));
    ProposalSent(alone, start, e, omission);
    ProposalSent(shadowed, start, e, inert);
    OmissionActs(alone, inputs, e, omission);
    InertActs(shadowed, inputs, e, inert, omission);
  }

  lemma TwoHarnesses(inert: MessageCorruption, omission: MessageCorruption) returns (alone: Harness, shadowed: Harness)
    requires inert.step == omission.step == 0 && inert.kind == 5 && omission.kind == 3
    ensures alone.Valid() && shadowed.Valid() && alone.env == shadowed.env == QuietHarness([], []).env
    ensures alone.drops == shadowed.drops == []
    ensures alone.corruptions == [omission] && shadowed.corruptions == [inert, omission]
  {
    var omit, change := Corrupt(omission, Proposal, Omit), Corrupt(inert, Proposal, ChangeBlockIdAnyScope);
    alone := QuietHarness([omission], OBSERVERS + [omit]);
    shadowed := QuietHarness([inert, omission], OBSERVERS + [change, omit]);
  }

  lemma InertActs(h: Harness, inputs: seq<Input>, e: Event, c: MessageCorruption, d: MessageCorruption)
    requires h.Valid() && h.Familiar(inputs) && h.Open(inputs, e) && !Strange(h.env, e)
    requires h.drops == [] && h.corruptions == [c, d]
    requires c.kind == 5 && c.step % 3 == 0 && c.seed >= 0
    requires CorruptionMatches(h.env, h.Seen(inputs, e), c, e)
    ensures Delivered(e, h.Outcome(inputs, e)) == [MessageOf(e).value]
  {
    assert FirstCorruption(h.env, h.Seen(inputs, e), h.corruptions, e, 0);
    IneffectiveCorruptionShadows(h, inputs, e, 0);
  }

  lemma OmissionActs(h: Harness, inputs: seq<Input>, e: Event, c: MessageCorruption)
    requires h.Valid() && h.Familiar(inputs) && h.Open(inputs, e) && !Strange(h.env, e)
    requires h.drops == [] && h.corruptions == [c] && c.kind == 3
    requires CorruptionMatches(h.env, h.Seen(inputs, e), c, e)
    ensures Delivered(e, h.Outcome(inputs, e)) == []
  {
    RunReflects(h, inputs);
    TransitionKeeps(h.env.lib, h.Run(inputs), e);
    PipelineMeaning(h.env, h.drops, h.corruptions, h.filters, Transition(h.env.lib, h.Run(inputs), e), e);
    assert FirstCorruption(h.env, h.Seen(inputs, e), h.corruptions, e, 0);
  }
}
