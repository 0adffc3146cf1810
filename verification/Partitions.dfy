/** Network partitions (byzzfuzz/partition.go). */
module Partitions {

  type Partition = seq<seq<int>>

  /** `isolates`: no part contains both. */
  predicate Isolates(p: Partition, a: int, b: int)
    ensures Isolates(p, a, b) <==> forall i :: 0 <= i < |p| ==> !(a in p[i] && b in p[i])
  {
    if p == [] then true
    else if a in p[0] && b in p[0] then false
    else
      assert forall i :: 0 < i < |p| ==> p[i] == p[1..][i - 1];
      Isolates(p[1..], a, b)
  }

  predicate Covers(p: Partition, a: int) {
    exists i :: 0 <= i < |p| && a in p[i]
  }

  /** The parts are disjoint and cover 0 .. n - 1. */
  ghost predicate IsPartition(p: Partition, n: nat) {
    && (forall a :: 0 <= a < n ==> Covers(p, a))
    && (forall i, j, a :: 0 <= i < |p| && 0 <= j < |p| && a in p[i] && a in p[j] ==> i == j)
  }

  /** No partition in the list separates the two. */
  ghost predicate Connected(ps: seq<Partition>, a: int, b: int) {
    forall k :: 0 <= k < |ps| ==> !Isolates(ps[k], a, b)
  }

  /** Whatever partitions are in force together, who can still reach whom is an
      equivalence relation on the replicas. */
  lemma ConnectedIsEquivalence(ps: seq<Partition>, n: nat)
    requires forall k :: 0 <= k < |ps| ==> IsPartition(ps[k], n)
    ensures forall a :: 0 <= a < n ==> Connected(ps, a, a)
    ensures forall a, b :: Connected(ps, a, b) ==> Connected(ps, b, a)
    ensures forall a, b, c :: Connected(ps, a, b) && Connected(ps, b, c) ==> Connected(ps, a, c)
  {
    forall a, b, c | Connected(ps, a, b) && Connected(ps, b, c) ensures Connected(ps, a, c) {
      forall k | 0 <= k < |ps| ensures !Isolates(ps[k], a, c) {
        var i :| 0 <= i < |ps[k]| && a in ps[k][i] && b in ps[k][i];
        var j :| 0 <= j < |ps[k]| && b in ps[k][j] && c in ps[k][j];
        assert i == j;
      }
    }
    forall a | 0 <= a < n ensures Connected(ps, a, a) {
      forall k | 0 <= k < |ps| ensures !Isolates(ps[k], a, a) {
        assert Covers(ps[k], a);
        var i :| 0 <= i < |ps[k]| && a in ps[k][i];
      }
    }
  }

  const TWO_WAY: seq<Partition> := [
    [[0, 1], [2, 3]],
    [[0, 2], [1, 3]],
    [[0, 3], [1, 2]],
    [[0], [1, 2, 3]],
    [[1], [0, 2, 3]],
    [[2], [0, 1, 3]],
    [[3], [0, 1, 2]]
  ]

  const THREE_WAY: seq<Partition> := [
    [[0], [1], [2, 3]],
    [[0], [2], [1, 3]],
    [[0], [3], [1, 2]],
    [[1], [2], [0, 3]],
    [[1], [3], [0, 2]],
    [[2], [3], [0, 1]]
  ]

  const FOUR_WAY: seq<Partition> := [[[0], [1], [2], [3]]]

  /** `allPartitions`: every way to split four nodes but the one that does not. */
  const ALL_PARTITIONS: seq<Partition> := TWO_WAY + THREE_WAY + FOUR_WAY

  lemma TwoParts(x: seq<int>, y: seq<int>)
    requires forall a :: a in x ==> a !in y
    requires forall a :: a in x || a in y <==> 0 <= a < 4
    ensures IsPartition([x, y], 4)
  {
    forall a | 0 <= a < 4 ensures Covers([x, y], a) {
      assert a in [x, y][0] || a in [x, y][1];
    }
  }

  lemma ThreeParts(x: int, y: int, z: seq<int>)
    requires forall a :: a in z || a == x || a == y <==> 0 <= a < 4
    requires x != y && x !in z && y !in z
    ensures IsPartition([[x], [y], z], 4)
  {
    var p := [[x], [y], z];
    forall a | 0 <= a < 4 ensures Covers(p, a) {
      assert a in p[0] || a in p[1] || a in p[2];
    }
  }

  lemma TwoWayPartition(k: nat)
    requires k < |TWO_WAY|
    ensures IsPartition(TWO_WAY[k], 4)
  {
    var p := TWO_WAY[k];
    assert p == [p[0], p[1]];
    TwoParts(p[0], p[1]);
  }

  lemma ThreeWayPartition(k: nat)
    requires k < |THREE_WAY|
    ensures IsPartition(THREE_WAY[k], 4)
  {
    var p := THREE_WAY[k];
    assert p == [[p[0][0]], [p[1][0]], p[2]];
    ThreeParts(p[0][0], p[1][0], p[2]);
  }

  lemma FourWayPartition()
    ensures IsPartition(FOUR_WAY[0], 4)
  {
    var p := FOUR_WAY[0];
    forall a | 0 <= a < 4 ensures Covers(p, a) {
      assert a in p[a];
    }
  }

  /** Every partition the generators draw from really is one. */
  lemma AllPartitionsPartition(k: nat)
    requires k < |ALL_PARTITIONS|
    ensures IsPartition(ALL_PARTITIONS[k], 4)
  {
    if k < |TWO_WAY| {
      TwoWayPartition(k);
    } else if k < |TWO_WAY| + |THREE_WAY| {
      ThreeWayPartition(k - |TWO_WAY|);
    } else {
      FourWayPartition();
    }
  }

  // ---- The table is complete

  /** Which of the six pairs of nodes a partition keeps apart. */
  function Cuts(p: Partition): seq<bool> {
    [Isolates(p, 0, 1), Isolates(p, 0, 2), Isolates(p, 0, 3), Isolates(p, 1, 2), Isolates(p, 1, 3), Isolates(p, 2, 3)]
  }

  /** The cuts of each entry of the table. */
  function CutsAt(k: nat): seq<bool> {
    match k
    case 0 => [false, true, true, true, true, false]
    case 1 => [true, false, true, true, false, true]
    case 2 => [true, true, false, false, true, true]
    case 3 => [true, true, true, false, false, false]
    case 4 => [true, false, false, true, true, false]
    case 5 => [false, true, false, true, false, true]
    case 6 => [false, false, true, false, true, true]
    case 7 => [true, true, true, true, true, false]
    case 8 => [true, true, true, true, false, true]
    case 9 => [true, true, true, false, true, true]
    case 10 => [true, true, false, true, true, true]
    case 11 => [true, false, true, true, true, true]
    case 12 => [false, true, true, true, true, true]
    case _ => [true, true, true, true, true, true]
  }

  lemma TwoPartsCut(x: seq<int>, y: seq<int>, a: int, b: int)
    requires a in x <==> a !in y
    requires b in x <==> b !in y
    ensures Isolates([x, y], a, b) <==> (a in x <==> b in y)
  {
    var p := [x, y];
    assert p[0] == x && p[1] == y;
  }

  lemma ThreePartsCut(x: int, y: int, z: seq<int>, a: int, b: int)
    requires a != b
    ensures Isolates([[x], [y], z], a, b) <==> !(a in z && b in z)
  {
    var p := [[x], [y], z];
    assert p[0] == [x] && p[1] == [y] && p[2] == z;
  }

  lemma TwoWayCuts(k: nat)
    requires k < |TWO_WAY|
    ensures Cuts(TWO_WAY[k]) == CutsAt(k)
  {
    var x, y := TWO_WAY[k][0], TWO_WAY[k][1];
    assert TWO_WAY[k] == [x, y];
    TwoPartsCut(x, y, 0, 1);
    TwoPartsCut(x, y, 0, 2);
    TwoPartsCut(x, y, 0, 3);
    TwoPartsCut(x, y, 1, 2);
    TwoPartsCut(x, y, 1, 3);
    TwoPartsCut(x, y, 2, 3);
  }

  lemma ThreeWayCuts(k: nat)
    requires k < |THREE_WAY|
    ensures Cuts(THREE_WAY[k]) == CutsAt(7 + k)
  {
    var x, y, z := THREE_WAY[k][0][0], THREE_WAY[k][1][0], THREE_WAY[k][2];
    assert THREE_WAY[k] == [[x], [y], z];
    ThreePartsCut(x, y, z, 0, 1);
    ThreePartsCut(x, y, z, 0, 2);
    ThreePartsCut(x, y, z, 0, 3);
    ThreePartsCut(x, y, z, 1, 2);
    ThreePartsCut(x, y, z, 1, 3);
    ThreePartsCut(x, y, z, 2, 3);
  }

  lemma TableCuts(k: nat)
    requires k < |ALL_PARTITIONS|
    ensures Cuts(ALL_PARTITIONS[k]) == CutsAt(k)
  {
    if k < |TWO_WAY| {
      TwoWayCuts(k);
    } else if k < |TWO_WAY| + |THREE_WAY| {
      ThreeWayCuts(k - |TWO_WAY|);
    } else {
      assert forall i :: 0 <= i < 4 ==> FOUR_WAY[0][i] == [i];
    }
  }

  /** No partition cuts only one side of a triangle. */
  predicate Triangle(ab: bool, bc: bool, ac: bool) {
    (ab ==> bc || ac) && (bc ==> ab || ac) && (ac ==> ab || bc)
  }

  predicate Consistent(c: seq<bool>)
    requires |c| == 6
  {
    && Triangle(c[0], c[3], c[1]) && Triangle(c[0], c[4], c[2])
    && Triangle(c[1], c[5], c[2]) && Triangle(c[3], c[5], c[4])
  }

  lemma CutsTriangle(p: Partition, a: int, b: int, c: int)
    requires IsPartition(p, 4)
    ensures Triangle(Isolates(p, a, b), Isolates(p, b, c), Isolates(p, a, c))
  {
  }

  lemma CutsConsistent(p: Partition)
    requires IsPartition(p, 4)
    ensures Consistent(Cuts(p))
  {
    CutsTriangle(p, 0, 1, 2);
    CutsTriangle(p, 0, 1, 3);
    CutsTriangle(p, 0, 2, 3);
    CutsTriangle(p, 1, 2, 3);
  }

  lemma ConsistentListed(c: seq<bool>)
    requires |c| == 6 && Consistent(c) && (c[0] || c[1] || c[2] || c[3] || c[4] || c[5])
    ensures CutsAt(ListedAt(c)) == c
  {
  }

  lemma CutsDecide(p: Partition, q: Partition, a: int, b: int)
    requires Cuts(p) == Cuts(q) && 0 <= a < b < 4
    ensures Isolates(p, a, b) <==> Isolates(q, a, b)
  {
    var i := if a == 0 then b - 1 else a + b;
    assert Cuts(p)[i] == Isolates(p, a, b) && Cuts(q)[i] == Isolates(q, a, b);
  }

  lemma SameCutsSameSplit(p: Partition, q: Partition, a: int, b: int)
    requires IsPartition(p, 4) && IsPartition(q, 4) && Cuts(p) == Cuts(q)
    requires 0 <= a < 4 && 0 <= b < 4
    ensures Isolates(p, a, b) <==> Isolates(q, a, b)
  {
    if a < b {
      CutsDecide(p, q, a, b);
    } else if b < a {
      CutsDecide(p, q, b, a);
    } else {
      assert Covers(p, a) && Covers(q, a);
    }
  }

  /** Every way to split four nodes is in the table: whatever proper partition keeps some
      of them apart, an entry keeps the same ones apart. */
  lemma EveryPartitionListed(p: Partition) returns (k: nat)
    requires IsPartition(p, 4) && exists a, b :: 0 <= a < b < 4 && Isolates(p, a, b)
    ensures k < |ALL_PARTITIONS|
    ensures forall a, b :: 0 <= a < 4 && 0 <= b < 4 ==> (Isolates(p, a, b) <==> Isolates(ALL_PARTITIONS[k], a, b))
  {
    k := ListedAt(Cuts(p));
    CutsConsistent(p);
    ConsistentListed(Cuts(p));
    TableCuts(k);
    AllPartitionsPartition(k);
    forall a, b | 0 <= a < 4 && 0 <= b < 4 ensures Isolates(p, a, b) <==> Isolates(ALL_PARTITIONS[k], a, b) {
      SameCutsSameSplit(p, ALL_PARTITIONS[k], a, b);
    }
  }

  function ListedAt(c: seq<bool>): nat
    requires |c| == 6
  {
    if !c[0] && !c[5] then 0
    else if !c[1] && !c[4] then 1
    else if !c[2] && !c[3] then 2
    else if !c[3] && !c[4] then 3
    else if !c[1] && !c[2] then 4
    else if !c[0] && !c[2] then 5
    else if !c[0] && !c[1] then 6
    else if !c[5] then 7
    else if !c[4] then 8
    else if !c[3] then 9
    else if !c[2] then 10
    else if !c[1] then 11
    else if !c[0] then 12
    else 13
  }
}
