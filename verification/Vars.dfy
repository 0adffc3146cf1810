/** The flat variable store (`c.Vars`) and the separate typed maps it stands for. */
module Vars {
  import opened Prelude
  import opened Messages
  import opened VarKeys

  /** A part of the labelled replica partition. */
  datatype Part = Part(name: string, members: set<ReplicaID>)

  datatype Value =
    | IntV(i: int)
    | BoolV(b: bool)
    | StringV(s: string)
    | HeightRoundV(at: HeightRound)
    | ReceivedV(received: map<HeightRound, seq<ReplicaID>>)
    | StepsV(steps: seq<HeightRound>)
    | BlockIdsV(ids: seq<BlockID>)
    | PartitionV(parts: seq<Part>)

  type Store = map<string, Value>

  function Get(vars: Store, key: string): Option<Value> {
    if key in vars then Some(vars[key]) else None
  }

  /** `GetInt`: absent as well when the value under the key is not an integer. */
  function GetInt(vars: Store, key: string): Option<int> {
    match Get(vars, key)
    case Some(IntV(i)) => Some(i)
    case _ => None
  }

  /** One replica's round counter: its last (height, round), its total number of
      rounds, and the total recorded for each (height, round) it has been at. */
  datatype Counter = Counter(prev: HeightRound, total: int, index: map<HeightRound, int>)

  /** What the store holds, as separate typed maps. */
  datatype State = State(
    rounds: map<ReplicaID, Counter>,
    received: map<ReplicaID, map<HeightRound, seq<ReplicaID>>>,
    expected: map<ReplicaID, seq<HeightRound>>,
    current: map<ReplicaID, HeightRound>,
    blockAt: map<int, BlockID>,
    blockIds: Option<seq<BlockID>>,
    finished: bool,
    faults: Option<int>,
    partition: Option<seq<Part>>)

  const EMPTY_STATE := State(map[], map[], map[], map[], map[], None, false, None, None)

  function Lookup(st: State, k: Key): Option<Value> {
    match k
    case PrevHeight(r) => if r in st.rounds then Some(IntV(st.rounds[r].prev.height)) else None
    case PrevRound(r) => if r in st.rounds then Some(IntV(st.rounds[r].prev.round)) else None
    case TotalRounds(r) => if r in st.rounds then Some(IntV(st.rounds[r].total)) else None
    case TotalRoundFor(r, at) =>
      if r in st.rounds && at in st.rounds[r].index then Some(IntV(st.rounds[r].index[at])) else None
    case RoundsReceived(r) => if r in st.received then Some(ReceivedV(st.received[r])) else None
    case ExpectedSteps(r) => if r in st.expected then Some(StepsV(st.expected[r])) else None
    case CurrentHeightRound(r) => if r in st.current then Some(HeightRoundV(st.current[r])) else None
    case BlockIdAt(h) => if h in st.blockAt then Some(StringV(st.blockAt[h])) else None
    case BlockIds => if st.blockIds.Some? then Some(BlockIdsV(st.blockIds.value)) else None
    case TestFinished => if st.finished then Some(BoolV(true)) else None
    case Faults => if st.faults.Some? then Some(IntV(st.faults.value)) else None
    case PartitionKey => if st.partition.Some? then Some(PartitionV(st.partition.value)) else None
  }

  /** The flat store holds, under every key's string, exactly what the typed maps hold. */
  ghost predicate Represents(vars: Store, st: State) {
    forall k: Key :: Get(vars, KeyString(k)) == Lookup(st, k)
  }

  lemma GetAfterSet(vars: Store, k: Key, v: Value, k': Key)
    ensures Get(vars[KeyString(k) := v], KeyString(k')) == if k' == k then Some(v) else Get(vars, KeyString(k'))
  {
    if KeyString(k') == KeyString(k) {
      KeyStringInjective(k', k);
    }
  }

  /** Setting one key of the flat store changes one entry of the typed maps and no other. */
  lemma SetRepresents(vars: Store, st: State, st': State, k: Key, v: Value)
    requires Represents(vars, st)
    requires forall k': Key :: Lookup(st', k') == if k' == k then Some(v) else Lookup(st, k')
    ensures Represents(vars[KeyString(k) := v], st')
  {
    forall k': Key ensures Get(vars[KeyString(k) := v], KeyString(k')) == Lookup(st', k') {
      GetAfterSet(vars, k, v, k');
    }
  }

  /** A store represents one typed state only: nothing is lost or confused under the string keys. */
  lemma RepresentsDetermines(vars: Store, a: State, b: State)
    requires Represents(vars, a) && Represents(vars, b)
    ensures a == b
  {
    RepresentsDeterminesMaps(vars, a, b);
    RepresentsDeterminesRounds(vars, a, b);
    assert Lookup(a, BlockIds) == Get(vars, KeyString(BlockIds)) == Lookup(b, BlockIds);
    assert Lookup(a, TestFinished) == Get(vars, KeyString(TestFinished)) == Lookup(b, TestFinished);
    assert Lookup(a, Faults) == Get(vars, KeyString(Faults)) == Lookup(b, Faults);
    assert Lookup(a, PartitionKey) == Get(vars, KeyString(PartitionKey)) == Lookup(b, PartitionKey);
  }

  lemma RepresentsDeterminesMaps(vars: Store, a: State, b: State)
    requires Represents(vars, a) && Represents(vars, b)
    ensures a.received == b.received && a.expected == b.expected && a.current == b.current && a.blockAt == b.blockAt
  {
    forall r: ReplicaID
      ensures r in a.received <==> r in b.received
      ensures r in a.received ==> a.received[r] == b.received[r]
    {
      assert Lookup(a, RoundsReceived(r)) == Get(vars, KeyString(RoundsReceived(r))) == Lookup(b, RoundsReceived(r));
    }
    forall r: ReplicaID
      ensures r in a.expected <==> r in b.expected
      ensures r in a.expected ==> a.expected[r] == b.expected[r]
    {
      assert Lookup(a, ExpectedSteps(r)) == Get(vars, KeyString(ExpectedSteps(r))) == Lookup(b, ExpectedSteps(r));
    }
    forall r: ReplicaID
      ensures r in a.current <==> r in b.current
      ensures r in a.current ==> a.current[r] == b.current[r]
    {
      var k := CurrentHeightRound(r);
      assert Lookup(a, k) == Get(vars, KeyString(k)) == Lookup(b, k);
    }
    forall h: int
      ensures h in a.blockAt <==> h in b.blockAt
      ensures h in a.blockAt ==> a.blockAt[h] == b.blockAt[h]
    {
      assert Lookup(a, BlockIdAt(h)) == Get(vars, KeyString(BlockIdAt(h))) == Lookup(b, BlockIdAt(h));
    }
  }

  lemma RepresentsDeterminesRounds(vars: Store, a: State, b: State)
    requires Represents(vars, a) && Represents(vars, b)
    ensures a.rounds == b.rounds
  {
    forall r: ReplicaID
      ensures r in a.rounds <==> r in b.rounds
      ensures r in a.rounds ==> a.rounds[r] == b.rounds[r]
    {
      assert Lookup(a, PrevHeight(r)) == Get(vars, KeyString(PrevHeight(r))) == Lookup(b, PrevHeight(r));
      if r in a.rounds {
        assert Lookup(a, PrevRound(r)) == Get(vars, KeyString(PrevRound(r))) == Lookup(b, PrevRound(r));
        assert Lookup(a, TotalRounds(r)) == Get(vars, KeyString(TotalRounds(r))) == Lookup(b, TotalRounds(r));
        forall at: HeightRound
          ensures at in a.rounds[r].index <==> at in b.rounds[r].index
          ensures at in a.rounds[r].index ==> a.rounds[r].index[at] == b.rounds[r].index[at]
        {
          var k := TotalRoundFor(r, at);
          assert Lookup(a, k) == Get(vars, KeyString(k)) == Lookup(b, k);
        }
        assert a.rounds[r].index == b.rounds[r].index;
      }
    }
  }
}
