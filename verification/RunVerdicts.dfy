/** How runs end, and what the liveness timer does to them. */
module RunVerdicts {
  import opened Prelude
  import opened Messages
  import opened Vars
  import opened Faults
  import opened RoundTracking
  import opened SpecLog
  import opened Pipeline
  import opened Runs
  import opened Decimal

  // ---- Totals of rounds in a run

  /** In a run in which replicas only move forward, the total stored for a replica is
      given by the heights it visited and the round it left each of them in. */
  lemma RunTotal(h: Harness, inputs: seq<Input>, r: ReplicaID)
    requires h.Valid() && h.Familiar(inputs) && h.Forward(inputs) && r in h.Run(inputs).st.rounds
    ensures var hist := History(h.Processed(inputs), r);
      h.Run(inputs).st.rounds[r].total == RoundsUpTo(hist, Latest(hist).height) - 1
  {
    RunCounts(h, inputs, r);
    ClosedForm(History(h.Processed(inputs), r));
  }

  /** So any two replicas that visited the same heights and left each in the same round
      have the same total, in one run or in two, whatever else happened in between. */
  lemma SameHeightsSameTotal(
    h: Harness, inputs: seq<Input>, r: ReplicaID, h': Harness, inputs': seq<Input>, r': ReplicaID)
    requires h.Valid() && h.Familiar(inputs) && h.Forward(inputs) && r in h.Run(inputs).st.rounds
    requires h'.Valid() && h'.Familiar(inputs') && h'.Forward(inputs') && r' in h'.Run(inputs').st.rounds
    requires forall k :: Visited(History(h.Processed(inputs), r), k) <==> Visited(History(h'.Processed(inputs'), r'), k)
    requires forall k :: Visited(History(h.Processed(inputs), r), k) ==>
      LastRound(History(h.Processed(inputs), r), k) == LastRound(History(h'.Processed(inputs'), r'), k)
    ensures h.Run(inputs).st.rounds[r].total == h'.Run(inputs').st.rounds[r'].total
  {
    RunCounts(h, inputs, r);
    RunCounts(h', inputs', r');
    PathIndependence(History(h.Processed(inputs), r), History(h'.Processed(inputs'), r'));
  }

  // ---- After the timer

  /** However the run went before, once the timer has fired every send the harness can
      label is delivered unchanged until the test succeeds. */
  lemma HealedRunDelivers(h: Harness, inputs: seq<Input>, e: Event)
    requires h.Valid() && h.Familiar(inputs) && TimerFires in inputs
    requires h.Open(inputs, e) && !Strange(h.env, e)
    ensures h.Outcome(inputs, e) == Pass
    ensures e.kind.Send? && e.kind.message.Some? ==> Delivered(e, h.Outcome(inputs, e)) == [e.kind.message.value]
  {
    RunReflects(h, inputs);
    TransitionKeeps(h.env.lib, h.Run(inputs), e);
    HealedDelivers(h.env, h.drops, h.corruptions, h.filters, Transition(h.env.lib, h.Run(inputs), e), e);
  }

  function WithoutTimer(inputs: seq<Input>): seq<Input> {
    if inputs == [] then []
    else
      var front, last := inputs[..|inputs| - 1], inputs[|inputs| - 1];
      WithoutTimer(front) + (if last.TimerFires? then [] else [last])
  }

  lemma FinishedTransition(lib: Library, m: Machine, e: Event)
    requires Transition(lib, Finish(m), e).phase != Success
    ensures Transition(lib, Finish(m), e) == Finish(Transition(lib, m, e))
  {
  }

  lemma FinishedStep(h: Harness, m: Machine, e: Event)
    requires h.Valid() && Labelled(h.env, m.st) && !Strange(h.env, e)
    requires Transition(h.env.lib, Finish(m), e).phase != Success
    ensures h.Step(Finish(m), Arrives(e)) == Finish(h.Step(m, Arrives(e)))
  {
    FinishedTransition(h.env.lib, m, e);
    TransitionKeeps(h.env.lib, m, e);
    var m1 := Transition(h.env.lib, m, e);
    PipelineMeaning(h.env, h.drops, h.corruptions, h.filters, m1, e);
    PipelineMeaning(h.env, h.drops, h.corruptions, h.filters, Finish(m1), e);
    TrackingUnaffected(m1, e);
  }

  lemma StepEndsWithSuccess(h: Harness, m: Machine, e: Event)
    requires h.Valid() && Labelled(h.env, m.st) && !Strange(h.env, e)
    ensures h.Step(m, Arrives(e)).phase == Transition(h.env.lib, m, e).phase
  {
    TransitionKeeps(h.env.lib, m, e);
    var m1 := Transition(h.env.lib, m, e);
    if m1.phase == Success {
      SuccessStops(h, m1, e);
    } else {
      PipelineMeaning(h.env, h.drops, h.corruptions, h.filters, m1, e);
    }
  }

  /** Until the test succeeds the timer leaves no trace but its own flag: rounds, block
      ids, first commits, log and phase are those of the same run without it. */
  lemma {:induction false} TimerLeavesNoTrace(h: Harness, inputs: seq<Input>)
    requires h.Valid() && h.Familiar(inputs) && h.Run(inputs).phase != Success
    ensures Finish(h.Run(inputs)) == Finish(h.Run(WithoutTimer(inputs)))
    ensures h.Familiar(WithoutTimer(inputs))
    ensures h.Run(WithoutTimer(inputs)).st.finished == false
    decreases |inputs|, 0
  {
    if inputs != [] {
      var front, last := inputs[..|inputs| - 1], inputs[|inputs| - 1];
      assert inputs == front + [last];
      FamiliarPrefix(h, front, [last]);
      if last.TimerFires? {
        TimerLeavesNoTrace(h, front);
        assert WithoutTimer(inputs) == WithoutTimer(front) + [] == WithoutTimer(front);
      } else {
        EventLeavesNoTrace(h, front, last.e);
      }
    }
  }

  lemma EventLeavesNoTrace(h: Harness, front: seq<Input>, e: Event)
    requires h.Valid() && h.Familiar(front + [Arrives(e)]) && h.Run(front + [Arrives(e)]).phase != Success
    ensures var inputs := front + [Arrives(e)];
      && Finish(h.Run(inputs)) == Finish(h.Run(WithoutTimer(inputs)))
      && h.Familiar(WithoutTimer(inputs))
      && h.Run(WithoutTimer(inputs)).st.finished == false
    decreases |front|, 1
  {
    var inputs := front + [Arrives(e)];
    FamiliarPrefix(h, front, [Arrives(e)]);
    assert inputs[..|inputs| - 1] == front && !Strange(h.env, inputs[|front|].e);
    RunReflects(h, front);
    var m := h.Run(front);
    StepEndsWithSuccess(h, m, e);
    TimerLeavesNoTrace(h, front);
    var quiet := WithoutTimer(front);
    RunReflects(h, quiet);
    var q := h.Run(quiet);
    assert WithoutTimer(inputs) == quiet + [Arrives(e)];
    assert (quiet + [Arrives(e)])[..|quiet|] == quiet;
    QuietStep(h, m, q, e);
    StepReflects(h, q, h.Processed(quiet), e);
  }

  lemma QuietStep(h: Harness, m: Machine, q: Machine, e: Event)
    requires h.Valid() && Labelled(h.env, m.st) && Labelled(h.env, q.st) && !Strange(h.env, e)
    requires Finish(m) == Finish(q) && !q.st.finished
    requires Transition(h.env.lib, m, e).phase != Success
    ensures Finish(h.Step(m, Arrives(e))) == Finish(h.Step(q, Arrives(e)))
  {
    if m.st.finished {
      assert m == Finish(q);
      FinishedStep(h, q, e);
    } else {
      assert m == q;
    }
  }

  // ---- Agreement

  function Arrived(inputs: seq<Input>): seq<Event> {
    if inputs == [] then []
    else
      var front, last := inputs[..|inputs| - 1], inputs[|inputs| - 1];
      Arrived(front) + (if last.Arrives? then [last.e] else [])
  }

  /** Input number i is an event on which the library lets the test succeed. */
  predicate Succeeds(lib: Library, inputs: seq<Input>, i: nat)
    requires i < |inputs|
  {
    inputs[i].Arrives? && (lib.heightReached(inputs[i].e) || (lib.isCommit(inputs[i].e) && TimerFires in inputs[..i]))
  }

  /** With input number i some disagreement has shown. */
  ghost predicate ShownBy(inputs: seq<Input>, i: nat)
    requires i < |inputs|
  {
    Agreement.Disagree(Arrived(inputs[..i + 1]))
  }

  /** By input number n two replicas have committed different blocks at one height, and
      nothing before that input let the test succeed. */
  ghost predicate DisagreesBy(lib: Library, inputs: seq<Input>, n: nat)
    requires n < |inputs|
  {
    ShownBy(inputs, n) && forall i :: 0 <= i < n ==> !Succeeds(lib, inputs, i)
  }

  ghost predicate Ended(lib: Library, inputs: seq<Input>) {
    Agreement.Disagree(Arrived(inputs)) || exists i :: 0 <= i < |inputs| && Succeeds(lib, inputs, i)
  }

  lemma DiffReadsBlocks(a: State, b: State, e: Event)
    requires a.blockAt == b.blockAt
    ensures Agreement.Diff(a, e).0.blockAt == Agreement.Diff(b, e).0.blockAt
    ensures Agreement.Diff(a, e).1 == Agreement.Diff(b, e).1
  {
    match CommitOf(e)
    case None =>
    case Some(c) =>
  }

  lemma DisagreeGrows(events: seq<Event>, e: Event)
    ensures Agreement.Disagree(events + [e]) <==>
      Agreement.Disagree(events) || Agreement.FlaggedAt(EMPTY_STATE, events + [e], |events|)
  {
    var all := events + [e];
    Agreement.AlarmIffDisagreement(EMPTY_STATE, events);
    Agreement.AlarmIffDisagreement(EMPTY_STATE, all);
    forall i | 0 <= i < |events|
      ensures Agreement.FlaggedAt(EMPTY_STATE, events, i) == Agreement.FlaggedAt(EMPTY_STATE, all, i)
    {
      assert all[..i] == events[..i];
    }
  }

  /** As long as the run has neither disagreed nor succeeded the test is in its initial
      state and knows the first commits; after that it has left it for good. */
  lemma {:induction false} InitExactly(h: Harness, inputs: seq<Input>)
    requires h.Valid() && h.Familiar(inputs)
    ensures h.Run(inputs).phase == Init <==> !Ended(h.env.lib, inputs)
    ensures h.Run(inputs).phase == Init ==>
      h.Run(inputs).st.blockAt == Agreement.Watch(EMPTY_STATE, Arrived(inputs)).blockAt
  {
    if inputs != [] {
      var front, last := inputs[..|inputs| - 1], inputs[|inputs| - 1];
      assert inputs == front + [last];
      FamiliarPrefix(h, front, [last]);
      InitExactly(h, front);
      EndedGrows(h.env.lib, inputs);
      if last.TimerFires? {
        assert Arrived(inputs) == Arrived(front) + [] == Arrived(front);
      } else {
        InitStep(h, front, last.e);
      }
    }
  }

  lemma EndedGrows(lib: Library, inputs: seq<Input>)
    requires inputs != []
    ensures var front, last := inputs[..|inputs| - 1], |inputs| - 1;
      Ended(lib, inputs) <==>
        || Ended(lib, front)
        || Succeeds(lib, inputs, last)
        || (inputs[last].Arrives?
            && Agreement.FlaggedAt(EMPTY_STATE, Arrived(front) + [inputs[last].e], |Arrived(front)|))
  {
    var front, last := inputs[..|inputs| - 1], |inputs| - 1;
    forall i | 0 <= i < last ensures Succeeds(lib, inputs, i) == Succeeds(lib, front, i) {
      assert inputs[..i] == front[..i];
    }
    if inputs[last].Arrives? {
      DisagreeGrows(Arrived(front), inputs[last].e);
    } else {
      assert Arrived(inputs) == Arrived(front) + [] == Arrived(front);
    }
  }

  lemma InitStep(h: Harness, front: seq<Input>, e: Event)
    requires h.Valid() && h.Familiar(front) && !Strange(h.env, e)
    requires h.Run(front).phase == Init ==>
      h.Run(front).st.blockAt == Agreement.Watch(EMPTY_STATE, Arrived(front)).blockAt
    ensures var inputs := front + [Arrives(e)];
      var flagged := Agreement.FlaggedAt(EMPTY_STATE, Arrived(front) + [e], |Arrived(front)|);
      var phase := h.Run(front).phase;
      && h.Run(inputs).phase == (
          if phase != Init then phase
          else if flagged then DiffCommits
          else if Succeeds(h.env.lib, inputs, |front|) then Success
          else Init)
      && (phase == Init ==> h.Run(inputs).st.blockAt == Agreement.Watch(EMPTY_STATE, Arrived(inputs)).blockAt)
  {
    var inputs, m := front + [Arrives(e)], h.Run(front);
    assert inputs[..|front|] == front && inputs[|front|] == Arrives(e);
    RunReflects(h, front);
    StepEndsWithSuccess(h, m, e);
    BlocksKept(h, m, e);
    var events := Arrived(front);
    assert (events + [e])[..|events|] == events;
    assert Arrived(inputs) == events + [e];
    if m.phase == Init {
      DiffReadsBlocks(m.st, Agreement.Watch(EMPTY_STATE, events), e);
    }
  }

  lemma BlocksKept(h: Harness, m: Machine, e: Event)
    requires h.Valid() && Labelled(h.env, m.st) && !Strange(h.env, e)
    ensures h.Step(m, Arrives(e)).st.blockAt == Transition(h.env.lib, m, e).st.blockAt
  {
    TransitionKeeps(h.env.lib, m, e);
    var m1 := Transition(h.env.lib, m, e);
    if m1.phase == Success {
      SuccessStops(h, m1, e);
    } else {
      PipelineMeaning(h.env, h.drops, h.corruptions, h.filters, m1, e);
      TrackKeeps(m1.st, e);
    }
  }

  /** The verdict of a run: it ends up labelled "diff-commits" exactly when two commits
      of one height disagreed before the test had succeeded. */
  lemma {:induction false} DiffCommitsExactly(h: Harness, inputs: seq<Input>)
    requires h.Valid() && h.Familiar(inputs)
    ensures h.Run(inputs).phase == DiffCommits <==> exists n :: 0 <= n < |inputs| && DisagreesBy(h.env.lib, inputs, n)
  {
    if inputs != [] {
      var front, last := inputs[..|inputs| - 1], |inputs| - 1;
      assert inputs == front + [inputs[last]];
      FamiliarPrefix(h, front, [inputs[last]]);
      DiffCommitsExactly(h, front);
      forall n | 0 <= n < last ensures DisagreesBy(h.env.lib, inputs, n) == DisagreesBy(h.env.lib, front, n) {
        DisagreesFront(h.env.lib, inputs, n);
      }
      DisagreesLast(h, inputs);
    }
  }

  lemma DisagreesFront(lib: Library, inputs: seq<Input>, n: nat)
    requires n < |inputs| - 1
    ensures DisagreesBy(lib, inputs, n) == DisagreesBy(lib, inputs[..|inputs| - 1], n)
  {
    var front := inputs[..|inputs| - 1];
    assert front[..n + 1] == inputs[..n + 1];
    forall i | 0 <= i < n ensures Succeeds(lib, inputs, i) == Succeeds(lib, front, i) {
      assert inputs[..i] == front[..i];
    }
  }

  lemma DisagreesLast(h: Harness, inputs: seq<Input>)
    requires h.Valid() && h.Familiar(inputs) && inputs != []
    requires var front := inputs[..|inputs| - 1];
      h.Run(front).phase == DiffCommits <==> exists n :: 0 <= n < |front| && DisagreesBy(h.env.lib, front, n)
    ensures var front := inputs[..|inputs| - 1];
      h.Run(inputs).phase == DiffCommits <==>
        h.Run(front).phase == DiffCommits || DisagreesBy(h.env.lib, inputs, |front|)
  {
    var front, last := inputs[..|inputs| - 1], |inputs| - 1;
    assert inputs == front + [inputs[last]] && inputs[..last + 1] == inputs;
    FamiliarPrefix(h, front, [inputs[last]]);
    InitExactly(h, front);
    QuietSoFar(h.env.lib, inputs);
    DisagreesAtLast(h.env.lib, inputs);
    if inputs[last].Arrives? {
      InitStep(h, front, inputs[last].e);
      DisagreeGrows(Arrived(front), inputs[last].e);
    } else {
      assert Arrived(inputs) == Arrived(front) + [] == Arrived(front);
    }
  }

  lemma DisagreesAtLast(lib: Library, inputs: seq<Input>)
    requires inputs != []
    ensures var front := inputs[..|inputs| - 1];
      DisagreesBy(lib, inputs, |front|) <==>
        Agreement.Disagree(Arrived(inputs)) && forall i :: 0 <= i < |front| ==> !Succeeds(lib, front, i)
  {
    var front := inputs[..|inputs| - 1];
    assert inputs[..|front| + 1] == inputs;
    forall i | 0 <= i < |front| ensures Succeeds(lib, inputs, i) == Succeeds(lib, front, i) {
      assert inputs[..i] == front[..i];
    }
  }

  /** A disagreement with no success before the last input either is new with that input
      or had already shown before it. */
  lemma QuietSoFar(lib: Library, inputs: seq<Input>)
    requires inputs != []
    ensures var front := inputs[..|inputs| - 1];
      DisagreesBy(lib, inputs, |front|) && Ended(lib, front) ==>
        exists n :: 0 <= n < |front| && DisagreesBy(lib, front, n)
  {
    var front := inputs[..|inputs| - 1];
    DisagreesAtLast(lib, inputs);
    NothingArrivedAgrees();
    if DisagreesBy(lib, inputs, |front|) && Ended(lib, front) {
      DisagreedFirst(lib, front);
    }
  }

  lemma NothingArrivedAgrees()
    ensures !Agreement.Disagree(Arrived([]))
  {
    assert Arrived([]) == [];
  }

  /** A run without success that disagrees, disagrees by its last input. */
  lemma DisagreedFirst(lib: Library, inputs: seq<Input>)
    requires inputs != [] && Agreement.Disagree(Arrived(inputs))
    requires forall i :: 0 <= i < |inputs| ==> !Succeeds(lib, inputs, i)
    ensures DisagreesBy(lib, inputs, |inputs| - 1)
  {
    assert inputs[..|inputs|] == inputs;
  }

  lemma {:induction false} ArrivedPrefix(inputs: seq<Input>, n: nat)
    requires n <= |inputs|
    ensures Arrived(inputs[..n]) <= Arrived(inputs)
  {
    if n < |inputs| {
      ArrivedPrefix(inputs[..|inputs| - 1], n);
      assert inputs[..|inputs| - 1][..n] == inputs[..n];
    } else {
      assert inputs[..n] == inputs;
    }
  }

  lemma DisagreeStays(inputs: seq<Input>, n: nat)
    requires n <= |inputs| && Agreement.Disagree(Arrived(inputs[..n]))
    ensures Agreement.Disagree(Arrived(inputs))
  {
    ArrivedPrefix(inputs, n);
    var some, all := Arrived(inputs[..n]), Arrived(inputs);
    var i, j :| 0 <= i < j < |some| && Agreement.Clash(some[i], some[j]);
    assert all[i] == some[i] && all[j] == some[j];
  }

  /** Success at input number i comes before any disagreement. */
  ghost predicate SucceedsFirst(lib: Library, inputs: seq<Input>, i: nat)
    requires i < |inputs|
  {
    Succeeds(lib, inputs, i) && !ShownBy(inputs, i)
  }

  lemma {:induction false} ShowsAt(inputs: seq<Input>) returns (n: nat)
    requires Agreement.Disagree(Arrived(inputs))
    ensures n < |inputs| && ShownBy(inputs, n)
    ensures forall i :: 0 <= i < n ==> !ShownBy(inputs, i)
  {
    NothingArrivedAgrees();
    n := |inputs| - 1;
    assert inputs[..n + 1] == inputs;
    var front := inputs[..n];
    if Agreement.Disagree(Arrived(front)) {
      n := ShowsAt(front);
      forall i | 0 <= i <= n ensures ShownBy(inputs, i) == ShownBy(front, i) {
        assert inputs[..i + 1] == front[..i + 1];
      }
    } else {
      forall i | 0 <= i < n ensures !ShownBy(inputs, i) {
        if ShownBy(inputs, i) {
          assert front[..i + 1] == inputs[..i + 1];
          DisagreeStays(front, i + 1);
        }
      }
    }
  }

  /** A disagreement is in time, or some success was first. */
  lemma ShownOrMissed(lib: Library, inputs: seq<Input>) returns (n: nat)
    requires Agreement.Disagree(Arrived(inputs))
    ensures n < |inputs| && (DisagreesBy(lib, inputs, n) || SucceedsFirst(lib, inputs, n))
  {
    n := ShowsAt(inputs);
    if !DisagreesBy(lib, inputs, n) {
      var i :| 0 <= i < n && Succeeds(lib, inputs, i);
      n := i;
    }
  }

  lemma NotBoth(lib: Library, inputs: seq<Input>, i: nat, k: nat)
    requires i < |inputs| && k < |inputs| && SucceedsFirst(lib, inputs, i)
    ensures !DisagreesBy(lib, inputs, k)
  {
    if k <= i && ShownBy(inputs, k) {
      assert inputs[..i + 1][..k + 1] == inputs[..k + 1];
      DisagreeStays(inputs[..i + 1], k + 1);
    }
  }

  /** When a disagreement goes unnoticed: a run in which replicas disagree ends in success
      exactly when the test succeeded before the disagreement showed. */
  lemma DisagreementMissedExactly(h: Harness, inputs: seq<Input>)
    requires h.Valid() && h.Familiar(inputs) && Agreement.Disagree(Arrived(inputs))
    ensures h.Run(inputs).phase == Success <==> exists i :: 0 <= i < |inputs| && SucceedsFirst(h.env.lib, inputs, i)
  {
    InitExactly(h, inputs);
    DiffCommitsExactly(h, inputs);
    var n := ShownOrMissed(h.env.lib, inputs);
    forall i, k | 0 <= i < |inputs| && 0 <= k < |inputs| && SucceedsFirst(h.env.lib, inputs, i)
      ensures !DisagreesBy(h.env.lib, inputs, k)
    {
      NotBoth(h.env.lib, inputs, i, k);
    }
  }

  function NewStepEvent(r: ReplicaID, at: HeightRound): Event {
    Event(r, Generic(NewStep, Params(Some(Print(at.height)), Some(Print(at.round)), None)))
  }

  function CommitEvent(r: ReplicaID, height: int, id: BlockID): Event {
    Event(r, Generic(CommittingBlock, Params(Some(Print(height)), None, Some(id))))
  }

  lemma ThreeArrived(a: Event, b: Event, c: Event)
    ensures var inputs := [Arrives(a), Arrives(b), Arrives(c)];
      Arrived(inputs) == [a, b, c] && Arrived(inputs[..1]) == [a]
  {
    var inputs := [Arrives(a), Arrives(b), Arrives(c)];
    var two, one := [Arrives(a), Arrives(b)], [Arrives(a)];
    assert inputs[..2] == two && inputs[..1] == two[..1] == one && one[..0] == [];
    assert Arrived(one) == Arrived([]) + [a] == [a];
    assert Arrived(two) == [a] + [b] == [a, b];
  }

  /** A clash that follows a success goes unnoticed. */
  lemma ClashAfterSuccess(h: Harness, e: Event, a: Event, b: Event)
    requires var inputs := [Arrives(e), Arrives(a), Arrives(b)];
      h.Valid() && h.Familiar(inputs) && h.env.lib.heightReached(e) && Agreement.Clash(a, b)
    ensures var inputs := [Arrives(e), Arrives(a), Arrives(b)];
      Agreement.Disagree(Arrived(inputs)) && h.Run(inputs).phase == Success
  {
    var inputs := [Arrives(e), Arrives(a), Arrives(b)];
    ThreeArrived(e, a, b);
    assert Agreement.Clash(Arrived(inputs)[1], Arrived(inputs)[2]);
    assert SucceedsFirst(h.env.lib, inputs, 0);
    DisagreementMissedExactly(h, inputs);
  }

  lemma TwoBlocksClash()
    ensures Agreement.Clash(CommitEvent("a", 1, "x"), CommitEvent("b", 1, "y"))
  {
    AnnouncedCommitIsRead("a", Commit(1, "x"), None);
    AnnouncedCommitIsRead("b", Commit(1, "y"), None);
  }

  /** Such a run: replica "a" reaches height 3, which ends the test; then "a" and "b"
      commit different blocks at height 1. */
  lemma SuccessHidesDisagreement() returns (h: Harness, inputs: seq<Input>)
    ensures h.Valid() && h.Familiar(inputs)
    ensures forall e :: h.env.lib.heightReached(e) <==> NewStepOf(e).Some? && NewStepOf(e).value.height >= 3
    ensures Agreement.Disagree(Arrived(inputs)) && h.Run(inputs).phase == Success
  {
    var lib := Library(
      (edit, r, m) => None, r => None,
      e => NewStepOf(e).Some? && NewStepOf(e).value.height >= 3, e => CommitOf(e).Some?);
    h := Harness(Setup(lib, ["a", "b", "c", "d"]), 1, [], [], OBSERVERS);
    var step, x, y := NewStepEvent("a", HeightRound(3, 0)), CommitEvent("a", 1, "x"), CommitEvent("b", 1, "y");
    AnnouncedStepIsRead("a", HeightRound(3, 0), None);
    TwoBlocksClash();
    inputs := [Arrives(step), Arrives(x), Arrives(y)];
    ClashAfterSuccess(h, step, x, y);
  }

  // ---- The log of a run

  lemma {:induction false} ProcessedKnown(h: Harness, inputs: seq<Input>)
    requires h.Familiar(inputs)
    ensures AllKnown(h.env.replicas, h.Processed(inputs))
  {
    if inputs != [] {
      var front, last := inputs[..|inputs| - 1], inputs[|inputs| - 1];
      assert inputs == front + [last];
      FamiliarPrefix(h, front, [last]);
      ProcessedKnown(h, front);
    }
  }

  /** The analyser's verdict on the log of any run of four replicas: "All good." exactly
      when no replica lacks a step in what was processed before success. */
  lemma RunLogVerdict(h: Harness, inputs: seq<Input>)
    requires h.Valid() && h.Familiar(inputs) && |h.env.replicas| == 4
    ensures AllGood(h.Run(inputs).log) <==> NoneLacks(h.env.replicas, h.Processed(inputs))
  {
    var parts := Labels.NodeParts(h.env.replicas);
    RunReflects(h, inputs);
    ProcessedKnown(h, inputs);
    assert h.Run(inputs).log == LogAll(parts, h.Processed(inputs));
    assert Labels.IsLabelling(h.env.replicas, parts);
    VerdictExactly(h.env.replicas, parts, h.Processed(inputs));
  }
}
