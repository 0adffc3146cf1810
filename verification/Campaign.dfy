/** The table of test results and the campaign that reruns failures
    (orchestrate.py, queries/stats.sql). */
module Campaign {

  /** One configuration with its counts of passed and failed runs. */
  datatype Row = Row(drops: nat, corruptions: nat, pass: int, fail: int)

  const MAX_FAILS := 5

  /** The rows `deflake_one` selects from. */
  predicate Eligible(row: Row) {
    row.pass == 0 && row.fail < MAX_FAILS
  }

  /** What every operation of the campaign keeps of every row. */
  predicate Sound(row: Row) {
    0 <= row.pass <= 1 && 0 <= row.fail <= MAX_FAILS && (row.pass == 1 ==> row.fail < MAX_FAILS)
  }

  ghost predicate AllSound(rows: seq<Row>) {
    forall i :: 0 <= i < |rows| ==> Sound(rows[i])
  }

  function Rerun(row: Row, ok: bool): Row {
    if ok then row.(pass := row.pass + 1) else row.(fail := row.fail + 1)
  }

  function Count(rows: seq<Row>, p: Row -> bool): nat {
    if rows == [] then 0
    else Count(rows[..|rows| - 1], p) + if p(rows[|rows| - 1]) then 1 else 0
  }

  function RunsOf(rows: seq<Row>): int {
    if rows == [] then 0
    else RunsOf(rows[..|rows| - 1]) + rows[|rows| - 1].pass + rows[|rows| - 1].fail
  }

  /** How many more failures the eligible rows can still take. */
  function Remaining(rows: seq<Row>): int {
    if rows == [] then 0
    else Remaining(rows[..|rows| - 1]) + if rows[|rows| - 1].pass == 0 then MAX_FAILS - rows[|rows| - 1].fail else 0
  }

  lemma {:induction false} RerunCounts(rows: seq<Row>, i: nat, ok: bool)
    requires i < |rows| && Eligible(rows[i])
    ensures RunsOf(rows[i := Rerun(rows[i], ok)]) == RunsOf(rows) + 1
    ensures Remaining(rows[i := Rerun(rows[i], ok)]) ==
      Remaining(rows) - (if ok then MAX_FAILS - rows[i].fail else 1)
  {
    var last := |rows| - 1;
    var rows' := rows[i := Rerun(rows[i], ok)];
    if i == last {
      assert rows'[..last] == rows[..last];
    } else {
      assert rows'[..last] == rows[..last][i := Rerun(rows[i], ok)];
      RerunCounts(rows[..last], i, ok);
    }
  }

  lemma {:induction false} RemainingBounded(rows: seq<Row>)
    requires AllSound(rows)
    ensures 0 <= Remaining(rows)
    ensures 0 <= RunsOf(rows) <= MAX_FAILS * |rows|
    ensures forall i :: 0 <= i < |rows| && Eligible(rows[i]) ==> Remaining(rows) > 0
  {
    if rows != [] {
      RemainingBounded(rows[..|rows| - 1]);
      assert rows == rows[..|rows| - 1] + [rows[|rows| - 1]];
    }
  }

  /** The rows of before are all there, each with at least the counts it had. */
  ghost predicate Continues(before: seq<Row>, after: seq<Row>) {
    && |before| == |after|
    && forall i :: 0 <= i < |before| ==>
      && after[i].drops == before[i].drops && after[i].corruptions == before[i].corruptions
      && after[i].pass >= before[i].pass && after[i].fail >= before[i].fail
      && (!Eligible(before[i]) ==> after[i] == before[i])
  }

  datatype Deflaked = Nothing | Ran(row: nat, ok: bool)

  class Results {
    var rows: seq<Row>

    constructor ()
      ensures rows == []
    {
      rows := [];
    }

    /** The insertion at the end of `fuzz_one`, after its run. */
    method InsertRun(drops: nat, corruptions: nat, ok: bool)
      requires AllSound(rows)
      modifies this
      ensures AllSound(rows)
      ensures rows == old(rows) + [Rerun(Row(drops, corruptions, 0, 0), ok)]
    {
      rows := rows + [Row(drops, corruptions, if ok then 1 else 0, if ok then 0 else 1)];
    }

    /** `deflake_one`: any eligible row may be selected, and its run may pass or fail. */
    method DeflakeOne() returns (result: Deflaked)
      requires AllSound(rows)
      modifies this
      ensures AllSound(rows)
      ensures result == Nothing <==> forall i :: 0 <= i < |old(rows)| ==> !Eligible(old(rows)[i])
      ensures match result
        case Nothing => rows == old(rows)
        case Ran(i, ok) =>
          i < |old(rows)| && Eligible(old(rows)[i]) && rows == old(rows)[i := Rerun(old(rows)[i], ok)]
    {
      if !exists i :: 0 <= i < |rows| && Eligible(rows[i]) {
        return Nothing;
      }
      var i: nat :| i < |rows| && Eligible(rows[i]);
      var ok: bool := *;
      if ok {
        rows := rows[i := rows[i].(pass := rows[i].pass + 1)];
      } else {
        rows := rows[i := rows[i].(fail := rows[i].fail + 1)];
      }
      result := Ran(i, ok);
    }

    /** The generation phase of `reproduce`: 200 fresh rows for each number of drops and
        corruptions up to two, but for none of either. */
    method InsertConfigs()
      requires rows == []
      modifies this
      ensures |rows| == 1600
      ensures forall i :: 0 <= i < |rows| ==> rows[i].pass == 0 && rows[i].fail == 0
      ensures forall d, c :: 0 <= d <= 2 && 0 <= c <= 2 && d + c > 0 ==> Count(rows, InGroup(d, c)) == 200
    {
      for d := 0 to 3
        invariant Generated(rows, d, 0)
      {
        for c := 0 to 3
          invariant Generated(rows, d, c)
        {
          if d > 0 || c > 0 {
            InsertGroup(d, c);
          }
        }
      }
    }

    method InsertGroup(d: nat, c: nat)
      requires d <= 2 && c <= 2 && d + c > 0 && Generated(rows, d, c)
      modifies this
      ensures Generated(rows, d, c + 1)
    {
      for n := 0 to 200
        invariant |rows| == 200 * GroupsBefore(d, c) + n
        invariant forall i :: 0 <= i < |rows| ==> rows[i].pass == 0 && rows[i].fail == 0
        invariant forall d', c' :: 0 <= d' <= 2 && 0 <= c' <= 2 ==>
          Count(rows, InGroup(d', c')) ==
            if d' == d && c' == c then n else if Before(d', c', d, c) then 200 else 0
      {
        ghost var was := rows;
        rows := rows + [Row(d, c, 0, 0)];
        assert rows[..|rows| - 1] == was;
      }
    }

    /** `reproduce`: fills an empty table, or takes up a full one, and reruns until no row
        is eligible.  It ends whatever the runs do, after at most five runs a row; false
        stands for the refusal of a partly filled table. */
    method Reproduce() returns (done: bool, ghost ran: nat)
      requires AllSound(rows)
      modifies this
      ensures AllSound(rows)
      ensures done <==> |old(rows)| == 0 || |old(rows)| == 1600
      ensures !done ==> rows == old(rows) && ran == 0
      ensures done ==> |rows| == 1600 && forall i :: 0 <= i < |rows| ==> !Eligible(rows[i])
      ensures done && |old(rows)| == 1600 ==> Continues(old(rows), rows)
      ensures done && |old(rows)| == 0 ==>
        forall d, c :: 0 <= d <= 2 && 0 <= c <= 2 && d + c > 0 ==> Count(rows, InGroup(d, c)) == 200
      ensures done ==> ran == RunsOf(rows) - RunsOf(old(rows)) && ran <= MAX_FAILS * 1600
      ensures done ==> forall d, c :: AddsUp(StatsOf(rows, d, c))
    {
      ran := 0;
      if |rows| == 0 {
        InsertConfigs();
        FreshRuns(rows);
      } else if |rows| != 1600 {
        return false, 0;
      }
      ghost var start := rows;
      ran := RerunAll();
      forall d, c { GroupKept(start, rows, d, c); }
      forall d, c ensures AddsUp(StatsOf(rows, d, c)) { StatsAddUpIffSettled(rows, d, c); }
      RemainingBounded(start);
      RemainingBounded(rows);
      done := true;
    }

    /** The rerun loop of `reproduce`. */
    method RerunAll() returns (ghost ran: nat)
      requires AllSound(rows)
      modifies this
      ensures AllSound(rows) && Continues(old(rows), rows)
      ensures forall i :: 0 <= i < |rows| ==> !Eligible(rows[i])
      ensures ran == RunsOf(rows) - RunsOf(old(rows))
    {
      ran := 0;
      RemainingBounded(rows);
      var again := exists i :: 0 <= i < |rows| && Eligible(rows[i]);
      while again
        invariant AllSound(rows) && Continues(old(rows), rows)
        invariant again <==> exists i :: 0 <= i < |rows| && Eligible(rows[i])
        invariant ran == RunsOf(rows) - RunsOf(old(rows))
        invariant Remaining(rows) >= 0
        decreases Remaining(rows), again
      {
        ghost var was := rows;
        var result := DeflakeOne();
        RerunCounts(was, result.row, result.ok);
        RemainingBounded(rows);
        ran := ran + 1;
        again := exists i :: 0 <= i < |rows| && Eligible(rows[i]);
      }
    }
  }

  // ---- The generation order

  function InGroup(d: int, c: int): Row -> bool {
    (row: Row) => row.drops == d && row.corruptions == c
  }

  /** Group (d', c') comes before (d, c), and is not the one skipped. */
  predicate Before(d': int, c': int, d: int, c: int) {
    d' + c' > 0 && (d' < d || (d' == d && c' < c))
  }

  function GroupsBefore(d: nat, c: nat): nat {
    if d == 0 then (if c == 0 then 0 else c - 1) else 3 * d + c - 1
  }

  ghost predicate Generated(rows: seq<Row>, d: nat, c: nat) {
    && |rows| == 200 * GroupsBefore(d, c)
    && (forall i :: 0 <= i < |rows| ==> rows[i].pass == 0 && rows[i].fail == 0)
    && forall d', c' :: 0 <= d' <= 2 && 0 <= c' <= 2 ==>
      Count(rows, InGroup(d', c')) == if Before(d', c', d, c) then 200 else 0
  }

  lemma {:induction false} FreshRuns(rows: seq<Row>)
    requires forall i :: 0 <= i < |rows| ==> rows[i].pass == 0 && rows[i].fail == 0
    ensures RunsOf(rows) == 0
  {
    if rows != [] {
      FreshRuns(rows[..|rows| - 1]);
    }
  }

  lemma {:induction false} GroupKept(before: seq<Row>, after: seq<Row>, d: int, c: int)
    requires Continues(before, after)
    ensures Count(after, InGroup(d, c)) == Count(before, InGroup(d, c))
  {
    if before != [] {
      GroupKept(before[..|before| - 1], after[..|after| - 1], d, c);
    }
  }

  // ---- The statistics

  /** One group of queries/stats.sql. */
  datatype Stats = Stats(configs: nat, fail: nat, fail2: nat, failReliable: nat, pass: nat, flaky: nat)

  function And(p: Row -> bool, q: Row -> bool): Row -> bool {
    (row: Row) => p(row) && q(row)
  }

  predicate Failed(row: Row) { row.fail > 0 }
  predicate FailedTwice(row: Row) { row.fail > 1 }
  predicate FailedReliably(row: Row) { row.fail >= 5 && row.pass == 0 }
  predicate Passed(row: Row) { row.pass > 0 }
  predicate Flaky(row: Row) { row.fail > 0 && row.pass > 0 }
  predicate PendingFailed(row: Row) { Eligible(row) && row.fail > 0 }

  /** What the reports take for granted: a configuration passed or failed reliably, and a
      failing one failed reliably or was flaky. */
  predicate AddsUp(s: Stats) {
    s.configs == s.failReliable + s.pass && s.fail == s.failReliable + s.flaky
  }

  function StatsOf(rows: seq<Row>, d: int, c: int): Stats {
    var g := InGroup(d, c);
    Stats(
      Count(rows, g),
      Count(rows, And(g, Failed)),
      Count(rows, And(g, FailedTwice)),
      Count(rows, And(g, FailedReliably)),
      Count(rows, And(g, Passed)),
      Count(rows, And(g, Flaky)))
  }

  /** The rows of a group with at least that many failures and passes. */
  function RowsWith(rows: seq<Row>, d: int, c: int, fails: int, passes: int): set<int> {
    set i | 0 <= i < |rows| && rows[i].drops == d && rows[i].corruptions == c
      && rows[i].fail >= fails && rows[i].pass >= passes
  }

  lemma {:induction false} CountIsSize(rows: seq<Row>, p: Row -> bool)
    ensures Count(rows, p) == |set i | 0 <= i < |rows| && p(rows[i])|
  {
    var all := set i | 0 <= i < |rows| && p(rows[i]);
    if rows == [] {
      assert all == {};
    } else {
      var front, last := rows[..|rows| - 1], |rows| - 1;
      CountIsSize(front, p);
      var some := set i | 0 <= i < |front| && p(front[i]);
      assert all == some + (if p(rows[last]) then {last} else {});
      assert last !in some;
    }
  }

  lemma CountsRowsWith(rows: seq<Row>, d: int, c: int, p: Row -> bool, fails: int, passes: int)
    requires forall i :: 0 <= i < |rows| ==>
      (p(rows[i]) <==> InGroup(d, c)(rows[i]) && rows[i].fail >= fails && rows[i].pass >= passes)
    ensures Count(rows, p) == |RowsWith(rows, d, c, fails, passes)|
  {
    CountIsSize(rows, p);
    assert RowsWith(rows, d, c, fails, passes) == set i | 0 <= i < |rows| && p(rows[i]);
  }

  /** The counts of a group in a sound table, as numbers of rows: those there are, those
      that failed, failed twice, passed, and both failed and passed; a reliable failure is
      one of five failures, for such a row never passed. */
  lemma StatsExactly(rows: seq<Row>, d: int, c: int)
    requires AllSound(rows)
    ensures StatsOf(rows, d, c) == Stats(
      |RowsWith(rows, d, c, 0, 0)|, |RowsWith(rows, d, c, 1, 0)|, |RowsWith(rows, d, c, 2, 0)|,
      |RowsWith(rows, d, c, 5, 0)|, |RowsWith(rows, d, c, 0, 1)|, |RowsWith(rows, d, c, 1, 1)|)
  {
    var g := InGroup(d, c);
    CountsRowsWith(rows, d, c, g, 0, 0);
    CountsRowsWith(rows, d, c, And(g, Failed), 1, 0);
    CountsRowsWith(rows, d, c, And(g, FailedTwice), 2, 0);
    CountsRowsWith(rows, d, c, And(g, FailedReliably), 5, 0);
    CountsRowsWith(rows, d, c, And(g, Passed), 0, 1);
    CountsRowsWith(rows, d, c, And(g, Flaky), 1, 1);
  }

  /** In any sound table, whatever stage the campaign is at, each group splits into its
      reliable failures, its passes and its pending rows, and its failures likewise. */
  lemma {:induction false} StatsConserve(rows: seq<Row>, d: int, c: int)
    requires AllSound(rows)
    ensures var s, g := StatsOf(rows, d, c), InGroup(d, c);
      && s.configs == s.failReliable + s.pass + Count(rows, And(g, Eligible))
      && s.fail == s.failReliable + s.flaky + Count(rows, And(g, PendingFailed))
      && s.flaky <= s.pass && s.fail2 <= s.fail <= s.configs
  {
    if rows != [] {
      StatsConserve(rows[..|rows| - 1], d, c);
    }
  }

  lemma {:induction false} CountsNone(rows: seq<Row>, p: Row -> bool)
    ensures Count(rows, p) == 0 <==> forall i :: 0 <= i < |rows| ==> !p(rows[i])
  {
    if rows != [] {
      CountsNone(rows[..|rows| - 1], p);
      assert rows == rows[..|rows| - 1] + [rows[|rows| - 1]];
    }
  }

  /** A group's statistics add up exactly when nothing in it is left to rerun. */
  lemma StatsAddUpIffSettled(rows: seq<Row>, d: int, c: int)
    requires AllSound(rows)
    ensures StatsOf(rows, d, c).configs == StatsOf(rows, d, c).failReliable + StatsOf(rows, d, c).pass <==>
      forall i :: 0 <= i < |rows| && InGroup(d, c)(rows[i]) ==> !Eligible(rows[i])
    ensures StatsOf(rows, d, c).fail == StatsOf(rows, d, c).failReliable + StatsOf(rows, d, c).flaky <==>
      forall i :: 0 <= i < |rows| && InGroup(d, c)(rows[i]) ==> !(Eligible(rows[i]) && rows[i].fail > 0)
  {
    StatsConserve(rows, d, c);
    CountsNone(rows, And(InGroup(d, c), Eligible));
    CountsNone(rows, And(InGroup(d, c), PendingFailed));
  }
}
