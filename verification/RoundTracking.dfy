/** Numbering a replica's rounds across heights (byzzfuzz/roundTracking.go). */
module RoundTracking {
  import opened Prelude
  import opened Messages
  import opened Vars

  const START := HeightRound(1, 0)
  const UNSTARTED := Counter(START, 0, map[])

  /** One "newStep": the branches of `trackTotalRounds`. */
  function Advance(c: Counter, at: HeightRound): Counter {
    var total :=
      if at.height > c.prev.height then c.total + 1 + at.round
      else if at.round > c.prev.round then c.total + (at.round - c.prev.round)
      else c.total;
    Counter(at, total, c.index[at := total])
  }

  function CounterOf(st: State, r: ReplicaID): Counter {
    if r in st.rounds then st.rounds[r] else UNSTARTED
  }

  function Track(st: State, e: Event): State {
    match NewStepOf(e)
    case None => st
    case Some(at) => st.(rounds := st.rounds[e.replica := Advance(CounterOf(st, e.replica), at)])
  }

  // ---- A history of newSteps, and the closed form of its number of rounds

  function Count(hist: seq<HeightRound>): Counter {
    if hist == [] then UNSTARTED else Advance(Count(hist[..|hist| - 1]), hist[|hist| - 1])
  }

  function Latest(hist: seq<HeightRound>): HeightRound {
    if hist == [] then START else hist[|hist| - 1]
  }

  /** Every replica starts at height 1, round 0; from there it only moves forward. */
  ghost predicate Monotone(hist: seq<HeightRound>) {
    && (forall i :: 0 <= i < |hist| ==> hist[i].round >= 0 && LexLe(START, hist[i]))
    && (forall i, j :: 0 <= i < j < |hist| ==> LexLe(hist[i], hist[j]))
  }

  predicate Visited(hist: seq<HeightRound>, height: int) {
    height == START.height || exists i :: 0 <= i < |hist| && hist[i].height == height
  }

  /** The round the replica was last at, at that height. */
  function LastRound(hist: seq<HeightRound>, height: int): int {
    if hist == [] then 0
    else if hist[|hist| - 1].height == height then hist[|hist| - 1].round
    else LastRound(hist[..|hist| - 1], height)
  }

  /** The number of rounds spent at the visited heights 1 .. upTo: rounds are numbered
      from 0, so a height left in round n took n + 1 of them. */
  function RoundsUpTo(hist: seq<HeightRound>, upTo: int): int
    decreases upTo
  {
    if upTo < 1 then 0
    else RoundsUpTo(hist, upTo - 1) + if Visited(hist, upTo) then LastRound(hist, upTo) + 1 else 0
  }

  lemma MonotoneFront(hist: seq<HeightRound>)
    requires Monotone(hist) && hist != []
    ensures Monotone(hist[..|hist| - 1])
    ensures LexLe(Latest(hist[..|hist| - 1]), Latest(hist)) && Latest(hist).round >= 0
  {
  }

  lemma {:induction false} LatestIsGreatest(hist: seq<HeightRound>)
    requires Monotone(hist)
    ensures LexLe(START, Latest(hist)) && Latest(hist).round >= 0
    ensures forall at :: at in hist ==> LexLe(at, Latest(hist)) && at.round >= 0 && at.height >= 1
    ensures LastRound(hist, Latest(hist).height) == Latest(hist).round
  {
    if hist != [] {
      MonotoneFront(hist);
      LatestIsGreatest(hist[..|hist| - 1]);
      assert hist == hist[..|hist| - 1] + [Latest(hist)];
    }
  }

  lemma VisitedFront(hist: seq<HeightRound>, height: int)
    requires hist != []
    ensures Visited(hist, height) <==> Visited(hist[..|hist| - 1], height) || Latest(hist).height == height
  {
    var front := hist[..|hist| - 1];
    if Visited(front, height) && height != 1 {
      var i :| 0 <= i < |front| && front[i].height == height;
      assert hist[i].height == height;
    }
    if exists i :: 0 <= i < |hist| && hist[i].height == height {
      var i :| 0 <= i < |hist| && hist[i].height == height;
      assert i < |front| ==> front[i].height == height;
    }
  }

  /** Below the height it is at, a further step changes nothing. */
  lemma {:induction false} RoundsUpToFront(hist: seq<HeightRound>, upTo: int)
    requires hist != [] && upTo < Latest(hist).height
    ensures RoundsUpTo(hist, upTo) == RoundsUpTo(hist[..|hist| - 1], upTo)
    decreases upTo
  {
    if upTo >= 1 {
      RoundsUpToFront(hist, upTo - 1);
      VisitedFront(hist, upTo);
    }
  }

  /** Heights beyond the one it is at have not been visited. */
  lemma {:induction false} RoundsUpToBeyond(hist: seq<HeightRound>, upTo: int)
    requires Monotone(hist) && upTo >= Latest(hist).height
    ensures RoundsUpTo(hist, upTo) == RoundsUpTo(hist, Latest(hist).height)
    decreases upTo
  {
    LatestIsGreatest(hist);
    if upTo > Latest(hist).height {
      RoundsUpToBeyond(hist, upTo - 1);
      assert !Visited(hist, upTo);
    }
  }

  /** The counter's total and its closed form: all rounds of all visited heights, less
      one because the very first round is number 0. */
  lemma {:induction false} ClosedForm(hist: seq<HeightRound>)
    requires Monotone(hist)
    ensures Count(hist).prev == Latest(hist)
    ensures Count(hist).total == RoundsUpTo(hist, Latest(hist).height) - 1
    ensures Count(hist).total == RoundsUpTo(hist, Latest(hist).height - 1) + Latest(hist).round
  {
    LatestIsGreatest(hist);
    if hist == [] {
      assert RoundsUpTo(hist, 1) == RoundsUpTo(hist, 0) + 1;
    } else {
      var front, at := hist[..|hist| - 1], Latest(hist);
      MonotoneFront(hist);
      ClosedForm(front);
      RoundsUpToFront(hist, at.height - 1);
      if at.height > Latest(front).height {
        RoundsUpToBeyond(front, at.height - 1);
      }
    }
  }

  /** The total depends on the visited heights and their last rounds alone: not on the
      rounds skipped on the way, on repeated steps, or on the order of anything else. */
  lemma PathIndependence(hist: seq<HeightRound>, hist': seq<HeightRound>)
    requires Monotone(hist) && Monotone(hist')
    requires forall h :: Visited(hist, h) <==> Visited(hist', h)
    requires forall h :: Visited(hist, h) ==> LastRound(hist, h) == LastRound(hist', h)
    ensures Count(hist).total == Count(hist').total
  {
    ClosedForm(hist);
    ClosedForm(hist');
    LatestIsHighestVisited(hist, hist');
    LatestIsHighestVisited(hist', hist);
    RoundsUpToCongruent(hist, hist', Latest(hist).height);
  }

  lemma LatestIsHighestVisited(hist: seq<HeightRound>, hist': seq<HeightRound>)
    requires Monotone(hist) && Monotone(hist')
    requires forall h :: Visited(hist, h) <==> Visited(hist', h)
    ensures Latest(hist).height <= Latest(hist').height
  {
    LatestIsGreatest(hist);
    LatestIsGreatest(hist');
    assert Visited(hist, Latest(hist).height);
    assert Visited(hist', Latest(hist).height);
  }

  lemma {:induction false} RoundsUpToCongruent(hist: seq<HeightRound>, hist': seq<HeightRound>, upTo: int)
    requires forall h :: Visited(hist, h) <==> Visited(hist', h)
    requires forall h :: Visited(hist, h) ==> LastRound(hist, h) == LastRound(hist', h)
    ensures RoundsUpTo(hist, upTo) == RoundsUpTo(hist', upTo)
    decreases upTo
  {
    if upTo >= 1 {
      RoundsUpToCongruent(hist, hist', upTo - 1);
    }
  }

  // ---- The index from (height, round) to its total

  lemma {:induction false} IndexIsHistory(hist: seq<HeightRound>)
    ensures Count(hist).index.Keys == Elements(hist)
  {
    if hist != [] {
      var front, last := hist[..|hist| - 1], Latest(hist);
      IndexIsHistory(front);
      assert hist == front + [last];
      assert Elements(hist) == Elements(front) + {last};
    }
  }

  /** What is recorded for each (height, round) the replica has been at, in closed form:
      the rounds of all lower heights, and its own round. */
  lemma {:induction false} IndexClosedForm(hist: seq<HeightRound>, at: HeightRound)
    requires Monotone(hist) && at in hist
    ensures at in Count(hist).index
    ensures Count(hist).index[at] == RoundsUpTo(hist, at.height - 1) + at.round
  {
    var front, last := hist[..|hist| - 1], Latest(hist);
    MonotoneFront(hist);
    LatestIsGreatest(hist);
    assert hist == front + [last];
    if at == last {
      ClosedForm(hist);
    } else {
      IndexClosedForm(front, at);
      RoundsUpToFront(hist, at.height - 1);
    }
  }

  lemma {:induction false} RoundsUpToGrows(hist: seq<HeightRound>, lower: HeightRound, upTo: int)
    requires Monotone(hist) && lower in hist && lower.height <= upTo
    ensures RoundsUpTo(hist, lower.height - 1) + lower.round < RoundsUpTo(hist, upTo)
    decreases upTo
  {
    LastRoundBounds(hist, upTo);
    LatestIsGreatest(hist);
    if lower.height < upTo {
      RoundsUpToGrows(hist, lower, upTo - 1);
    } else {
      assert RoundsUpTo(hist, upTo) == RoundsUpTo(hist, upTo - 1) + LastRound(hist, upTo) + 1;
    }
  }

  lemma {:induction false} LastRoundBounds(hist: seq<HeightRound>, height: int)
    requires Monotone(hist)
    ensures LastRound(hist, height) >= 0
    ensures forall at :: at in hist && at.height == height ==> at.round <= LastRound(hist, height)
  {
    if hist != [] {
      MonotoneFront(hist);
      LastRoundBounds(hist[..|hist| - 1], height);
      LatestIsGreatest(hist);
      assert hist == hist[..|hist| - 1] + [Latest(hist)];
    }
  }

  /** The recorded numbering is an order embedding: later (height, round), larger total. */
  lemma OrderEmbedding(hist: seq<HeightRound>, a: HeightRound, b: HeightRound)
    requires Monotone(hist) && a in Count(hist).index && b in Count(hist).index
    ensures LexLt(a, b) <==> Count(hist).index[a] < Count(hist).index[b]
    ensures a == b <==> Count(hist).index[a] == Count(hist).index[b]
  {
    IndexIsHistory(hist);
    assert a in Elements(hist) && b in Elements(hist);
    if LexLt(a, b) {
      IndexGrows(hist, a, b);
    } else if LexLt(b, a) {
      IndexGrows(hist, b, a);
    }
  }

  lemma IndexGrows(hist: seq<HeightRound>, a: HeightRound, b: HeightRound)
    requires Monotone(hist) && a in hist && b in hist && LexLt(a, b)
    ensures a in Count(hist).index && b in Count(hist).index
    ensures Count(hist).index[a] < Count(hist).index[b]
  {
    IndexClosedForm(hist, a);
    IndexClosedForm(hist, b);
    LatestIsGreatest(hist);
    if a.height < b.height {
      RoundsUpToGrows(hist, a, b.height - 1);
    }
  }

  /** A recorded total never exceeds the current one, and equals it for the current
      (height, round) only. */
  lemma CurrentVersusRecorded(hist: seq<HeightRound>, at: HeightRound)
    requires Monotone(hist) && at in Count(hist).index
    ensures Count(hist).index[at] <= Count(hist).total
    ensures Count(hist).index[at] == Count(hist).total <==> at == Latest(hist)
  {
    IndexIsHistory(hist);
    assert at in Elements(hist);
    var last := Latest(hist);
    assert last in Elements(hist);
    assert Count(hist).index[last] == Count(hist).total;
    LatestIsGreatest(hist);
    if at != last {
      IndexGrows(hist, at, last);
    }
  }

  lemma StepKeepsRecorded(hist: seq<HeightRound>, at: HeightRound)
    requires hist != [] && Monotone(hist) && at in Count(hist[..|hist| - 1]).index
    ensures at in Count(hist).index && Count(hist).index[at] == Count(hist[..|hist| - 1]).index[at]
  {
    var last := Latest(hist);
    if at == last {
      var front := hist[..|hist| - 1];
      IndexIsHistory(front);
      assert at in Elements(front);
      MonotoneFront(hist);
      IndexClosedForm(front, at);
      IndexClosedForm(hist, at);
      RoundsUpToFront(hist, at.height - 1);
    }
  }

  /** Once recorded, a total is never overwritten with another one. */
  lemma {:induction false} RecordedIsStable(hist: seq<HeightRound>, more: seq<HeightRound>, at: HeightRound)
    requires Monotone(hist + more) && at in Count(hist).index
    ensures at in Count(hist + more).index && Count(hist + more).index[at] == Count(hist).index[at]
    decreases |more|
  {
    if more == [] {
      assert hist + more == hist;
    } else {
      var front := hist + more[..|more| - 1];
      assert (hist + more)[..|hist + more| - 1] == front;
      MonotoneFront(hist + more);
      RecordedIsStable(hist, more[..|more| - 1], at);
      StepKeepsRecorded(hist + more, at);
    }
  }

  ghost predicate Embeds(hist: seq<HeightRound>) {
    var index := Count(hist).index;
    forall a, b :: a in index && b in index ==> (LexLt(a, b) <==> index[a] < index[b])
  }

  lemma BackwardBreaksEmbedding(hist: seq<HeightRound>)
    requires |hist| >= 2
    requires hist[|hist| - 1].round >= 0 && LexLt(hist[|hist| - 1], hist[|hist| - 2])
    ensures !Embeds(hist)
  {
    var front, at, p := hist[..|hist| - 1], hist[|hist| - 1], hist[|hist| - 2];
    assert Count(front).prev == p && p in Count(front).index && Count(front).index[p] == Count(front).total;
    assert Count(hist) == Advance(Count(front), at);
    assert at in Count(hist).index && p in Count(hist).index;
    assert Count(hist).index[at] >= Count(hist).index[p];
  }

  /** Moving forward is not just enough but needed: the numbering follows the order of
      (height, round) all through a history exactly when no step goes back. */
  lemma {:induction false} EmbeddingIffForward(hist: seq<HeightRound>)
    requires forall i :: 0 <= i < |hist| ==> hist[i].round >= 0 && LexLe(START, hist[i])
    ensures Monotone(hist) <==> forall n :: 0 <= n <= |hist| ==> Embeds(hist[..n])
  {
    if Monotone(hist) {
      forall n | 0 <= n <= |hist| ensures Embeds(hist[..n]) {
        forall a, b | a in Count(hist[..n]).index && b in Count(hist[..n]).index
          ensures LexLt(a, b) <==> Count(hist[..n]).index[a] < Count(hist[..n]).index[b]
        {
          OrderEmbedding(hist[..n], a, b);
        }
      }
    } else if hist != [] {
      var front, last := hist[..|hist| - 1], |hist| - 1;
      EmbeddingIffForward(front);
      if Monotone(front) {
        LatestIsGreatest(front);
        assert !LexLe(Latest(front), hist[last]);
        BackwardBreaksEmbedding(hist);
        assert hist[..|hist|] == hist;
      } else {
        var n :| 0 <= n <= last && !Embeds(front[..n]);
        assert front[..n] == hist[..n];
      }
    }
  }

  // ---- Runs of events from any number of replicas

  /** The replica's steps, in order. */
  function History(events: seq<Event>, r: ReplicaID): seq<HeightRound> {
    if events == [] then []
    else
      var front, e := events[..|events| - 1], events[|events| - 1];
      if e.replica == r && NewStepOf(e).Some? then History(front, r) + [NewStepOf(e).value] else History(front, r)
  }

  lemma {:induction false} HistoryPrefix(events: seq<Event>, r: ReplicaID, i: nat)
    requires i <= |events|
    ensures History(events[..i], r) <= History(events, r)
  {
    if i < |events| {
      var front := events[..|events| - 1];
      HistoryPrefix(front, r, i);
      assert front[..i] == events[..i];
    } else {
      assert events[..i] == events;
    }
  }

  lemma HistoryOfPrefix(events: seq<Event>, all: seq<Event>, r: ReplicaID)
    requires events <= all
    ensures History(events, r) <= History(all, r)
  {
    HistoryPrefix(all, r, |events|);
    assert all[..|events|] == events;
  }

  function TrackAll(st: State, events: seq<Event>): State {
    if events == [] then st else Track(TrackAll(st, events[..|events| - 1]), events[|events| - 1])
  }

  /** However the replicas' events interleave, each replica's counter is the count of its
      own history. */
  lemma {:induction false} CounterIsOwnHistory(st: State, events: seq<Event>, r: ReplicaID)
    requires r !in st.rounds
    ensures CounterOf(TrackAll(st, events), r) == Count(History(events, r))
    ensures r in TrackAll(st, events).rounds <==> History(events, r) != []
  {
    if events != [] {
      var front, e := events[..|events| - 1], events[|events| - 1];
      CounterIsOwnHistory(st, front, r);
      if e.replica == r && NewStepOf(e).Some? {
        var hist := History(front, r);
        assert (hist + [NewStepOf(e).value])[..|hist|] == hist;
      }
    }
  }
}
