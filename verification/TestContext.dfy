/** The harness as the program runs it: one object with a string-keyed variable store,
    updated in place by every filter.  Each method is tied to the specification on
    separate typed maps through `Represents`. */
module TestContext {
  import opened Prelude
  import opened Messages
  import opened VarKeys
  import opened Vars
  import opened Labels
  import opened Faults
  import opened RoundTracking
  import opened SpecLog
  import opened Pipeline
  import opened Runs
  import M = StepMonitor

  // ---- The three small structures of byzzfuzz/spec/round.go

  class NodeSet {
    var nodes: seq<ReplicaID>

    constructor (nodes: seq<ReplicaID>)
      ensures this.nodes == nodes
    {
      this.nodes := nodes;
    }

    method Add(r: ReplicaID)
      modifies this
      ensures nodes == M.AddOnce(old(nodes), r)
    {
      var found := false;
      for i := 0 to |nodes|
        invariant found <==> r in nodes[..i]
        invariant nodes == old(nodes)
      {
        if nodes[i] == r {
          found := true;
          break;
        }
      }
      if !found {
        nodes := nodes + [r];
      }
    }
  }

  class RoundsReceived {
    var received: map<HeightRound, seq<ReplicaID>>

    constructor (received: map<HeightRound, seq<ReplicaID>>)
      ensures this.received == received
    {
      this.received := received;
    }

    method Update(from: ReplicaID, at: HeightRound)
      modifies this
      ensures received == M.UpdateReceived(old(received), from, at)
    {
      var nodeSet := new NodeSet(if at in received then received[at] else []);
      nodeSet.Add(from);
      received := received[at := nodeSet.nodes];
    }
  }

  class ExpectedSteps {
    var steps: seq<HeightRound>

    constructor (steps: seq<HeightRound>)
      ensures this.steps == steps
    {
      this.steps := steps;
    }

    method Add(step: HeightRound)
      modifies this
      ensures steps == M.AddOnce(old(steps), step)
    {
      var found := false;
      for i := 0 to |steps|
        invariant found <==> step in steps[..i]
        invariant steps == old(steps)
      {
        if steps[i] == step {
          found := true;
          break;
        }
      }
      if !found {
        steps := steps + [step];
      }
    }

    method Remove(step: HeightRound)
      modifies this
      ensures steps == M.RemoveFirst(old(steps), step)
    {
      var index := -1;
      for i := 0 to |steps|
        invariant index == -1
        invariant step !in steps[..i]
        invariant steps == old(steps)
      {
        if steps[i] == step {
          index := i;
          break;
        }
      }
      if index == -1 {
        RemoveFirstAbsent(steps, step);
      } else {
        RemoveFirstAt(steps, step, index);
        steps := steps[..index] + steps[index + 1..];
      }
    }
  }

  lemma {:induction false} RemoveFirstAbsent(s: seq<HeightRound>, x: HeightRound)
    requires x !in s
    ensures M.RemoveFirst(s, x) == s
  {
    if s != [] {
      assert s[0] != x && s == [s[0]] + s[1..];
      RemoveFirstAbsent(s[1..], x);
    }
  }

  lemma {:induction false} RemoveFirstAt(s: seq<HeightRound>, x: HeightRound, index: nat)
    requires index < |s| && s[index] == x && x !in s[..index]
    ensures M.RemoveFirst(s, x) == s[..index] + s[index + 1..]
  {
    if index > 0 {
      var tail := s[1..];
      assert s[0] in s[..index];
      assert tail[..index - 1] == s[..index][1..];
      RemoveFirstAt(tail, x, index - 1);
      assert s[..index] + s[index + 1..] == [s[0]] + (tail[..index - 1] + tail[index..]);
    }
  }

  // ---- Building the filter list

  /** The loops of `ByzzFuzzInst`; `None` stands for a panic on an invalid configuration. */
  method BuildFilters(drops: seq<MessageDrop>, corruptions: seq<MessageCorruption>)
    returns (filters: Option<seq<Filter>>)
    ensures filters.Some? ==> AreFilters(drops, corruptions, filters.value)
    ensures filters.Some? <==>
      && (forall i :: 0 <= i < |drops| ==> drops[i].step >= 0 || drops[i].step % 3 == 0)
      && (forall i :: 0 <= i < |corruptions| ==>
            && (corruptions[i].step >= 0 || corruptions[i].step % 3 == 0)
            && 0 <= corruptions[i].kind <= 5)
  {
    var built := OBSERVERS;
    for i := 0 to |drops|
      invariant |built| == |OBSERVERS| + i && built[..|OBSERVERS|] == OBSERVERS
      invariant forall j :: 0 <= j < i ==> Some(built[|OBSERVERS| + j]) == DropFilter(drops[j])
    {
      match DropFilter(drops[i])
      case None => return None;
      case Some(f) => built := built + [f];
    }
    for i := 0 to |corruptions|
      invariant |built| == |OBSERVERS| + |drops| + i && built[..|OBSERVERS|] == OBSERVERS
      invariant forall j :: 0 <= j < |drops| ==> Some(built[|OBSERVERS| + j]) == DropFilter(drops[j])
      invariant forall j :: 0 <= j < i ==> Some(built[|OBSERVERS| + |drops| + j]) == CorruptFilter(corruptions[j])
    {
      match CorruptFilter(corruptions[i])
      case None => return None;
      case Some(f) => built := built + [f];
    }
    filters := Some(built);
  }

  // ---- The four variables of a round counter

  function SetCounter(vars: Store, r: ReplicaID, at: HeightRound, total: int): Store {
    var v1 := vars[KeyString(PrevHeight(r)) := IntV(at.height)];
    var v2 := v1[KeyString(PrevRound(r)) := IntV(at.round)];
    var v3 := v2[KeyString(TotalRounds(r)) := IntV(total)];
    v3[KeyString(TotalRoundFor(r, at)) := IntV(total)]
  }

  lemma SetCounterReads(vars: Store, r: ReplicaID, at: HeightRound, total: int, k: Key)
    ensures Get(SetCounter(vars, r, at, total), KeyString(k)) ==
      if k == PrevHeight(r) then Some(IntV(at.height))
      else if k == PrevRound(r) then Some(IntV(at.round))
      else if k == TotalRounds(r) || k == TotalRoundFor(r, at) then Some(IntV(total))
      else Get(vars, KeyString(k))
  {
    var v1 := vars[KeyString(PrevHeight(r)) := IntV(at.height)];
    var v2 := v1[KeyString(PrevRound(r)) := IntV(at.round)];
    var v3 := v2[KeyString(TotalRounds(r)) := IntV(total)];
    GetAfterSet(vars, PrevHeight(r), IntV(at.height), k);
    GetAfterSet(v1, PrevRound(r), IntV(at.round), k);
    GetAfterSet(v2, TotalRounds(r), IntV(total), k);
    GetAfterSet(v3, TotalRoundFor(r, at), IntV(total), k);
  }

  function WithCounter(st: State, r: ReplicaID, at: HeightRound, total: int): State {
    st.(rounds := st.rounds[r := Counter(at, total, CounterOf(st, r).index[at := total])])
  }

  lemma WithCounterReads(st: State, r: ReplicaID, at: HeightRound, total: int, k: Key)
    ensures Lookup(WithCounter(st, r, at, total), k) ==
      if k == PrevHeight(r) then Some(IntV(at.height))
      else if k == PrevRound(r) then Some(IntV(at.round))
      else if k == TotalRounds(r) || k == TotalRoundFor(r, at) then Some(IntV(total))
      else Lookup(st, k)
  {
  }

  lemma SetCounterRepresents(vars: Store, st: State, r: ReplicaID, at: HeightRound, total: int)
    requires Represents(vars, st)
    ensures Represents(SetCounter(vars, r, at, total), WithCounter(st, r, at, total))
  {
    forall k: Key
      ensures Get(SetCounter(vars, r, at, total), KeyString(k)) == Lookup(WithCounter(st, r, at, total), k)
    {
      SetCounterReads(vars, r, at, total, k);
      WithCounterReads(st, r, at, total, k);
      assert Get(vars, KeyString(k)) == Lookup(st, k);
    }
  }

  lemma TrackIsWithCounter(st: State, e: Event)
    requires NewStepOf(e).Some?
    ensures Track(st, e) ==
      var at := NewStepOf(e).value;
      WithCounter(st, e.replica, at, Advance(CounterOf(st, e.replica), at).total)
  {
  }

  // ---- The harness

  class Context {
    const env: Setup
    var vars: Store
    var phase: Phase
    var specEvents: seq<SpecEvent>
    ghost var st: State

    /** The store represents the typed state, and the setup has run. */
    ghost predicate Valid()
      reads this
    {
      Represents(vars, st) && st.faults.Some? && st.partition.Some?
    }

    ghost function Machine(): Pipeline.Machine
      reads this
    {
      Pipeline.Machine(st, phase, specEvents)
    }

    constructor (env: Setup, faults: int)
      ensures Valid() && this.env == env
      ensures Machine() == Pipeline.Machine(
        EMPTY_STATE.(faults := Some(faults), partition := Some(NodeParts(env.replicas))), Init, [])
    {
      this.env := env;
      vars := map[KeyString(Faults) := IntV(faults)];
      st := EMPTY_STATE.(faults := Some(faults));
      phase, specEvents := Init, [];
      new;
      SetRepresents(map[], EMPTY_STATE, st, Faults, IntV(faults));
      LabelNodes();
    }

    // ---- The variable store's own operations

    method GetVar(k: Key) returns (v: Option<Value>)
      requires Represents(vars, st)
      ensures v == Lookup(st, k)
    {
      v := Get(vars, KeyString(k));
    }

    method GetIntVar(k: Key) returns (v: Option<int>)
      requires Represents(vars, st)
      ensures v == match Lookup(st, k) case Some(IntV(i)) => Some(i) case _ => None
    {
      v := GetInt(vars, KeyString(k));
    }

    method SetVar(k: Key, v: Value, ghost st': State)
      requires Represents(vars, st)
      requires forall k': Key :: Lookup(st', k') == if k' == k then Some(v) else Lookup(st, k')
      modifies this`vars, this`st
      ensures Represents(vars, st) && st == st'
    {
      SetRepresents(vars, st, st', k, v);
      vars := vars[KeyString(k) := v];
      st := st';
    }

    /** `labelNodes`. */
    method LabelNodes()
      requires Represents(vars, st)
      modifies this`vars, this`st
      ensures Represents(vars, st) && st == old(st).(partition := Some(NodeParts(env.replicas)))
    {
      var parts := new Part[|env.replicas|];
      for i := 0 to |env.replicas|
        invariant forall j :: 0 <= j < i ==> parts[j] == NodePart(env.replicas, j)
        invariant vars == old(vars) && st == old(st)
      {
        parts[i] := Part(NodeLabel(i), {env.replicas[i]});
      }
      assert parts[..] == NodeParts(env.replicas);
      SetVar(PartitionKey, PartitionV(parts[..]), st.(partition := Some(parts[..])));
    }

    /** `labelNodesExpectNewRound`, which indexes the first two replicas. */
    method LabelNodesExpectNewRound()
      requires Represents(vars, st) && |env.replicas| >= 2
      modifies this`vars, this`st
      ensures Represents(vars, st) && st == old(st).(partition := Some(NewRoundParts(env.replicas)))
    {
      var n := |env.replicas|;
      var parts := new Part[n + 2];
      for i := 0 to n
        invariant forall j :: 0 <= j < i ==> parts[j] == NodePart(env.replicas, j)
        invariant vars == old(vars) && st == old(st)
      {
        parts[i] := Part(NodeLabel(i), {env.replicas[i]});
      }
      parts[n] := Part("h", {env.replicas[0]});
      parts[n + 1] := Part("faulty", {env.replicas[1]});
      assert parts[..] == parts[..n] + [parts[n], parts[n + 1]];
      assert parts[..n] == NodeParts(env.replicas);
      SetVar(PartitionKey, PartitionV(parts[..]), st.(partition := Some(parts[..])));
    }

    method Partition() returns (parts: seq<Part>)
      requires Valid()
      ensures st.partition == Some(parts)
    {
      var v := GetVar(PartitionKey);
      parts := v.value.parts;
    }

    /** `spec.getPartLabel`; `None` stands for the panic. */
    method GetPartLabel(id: ReplicaID) returns (name: Option<string>)
      requires Valid()
      ensures name == LabelOf(st.partition.value, id)
    {
      var parts := Partition();
      for i := 0 to |parts|
        invariant LabelOf(parts, id) == LabelOf(parts[i..], id)
      {
        assert parts[i..][1..] == parts[i + 1..];
        if id in parts[i].members {
          return Some(parts[i].name);
        }
      }
      name := None;
    }

    /** `byzzfuzz.getPartLabel`. */
    method GetNodeLabel(id: ReplicaID) returns (name: Option<string>)
      requires Valid()
      ensures name == NodeLabelOf(st.partition.value, id)
    {
      var parts := Partition();
      for i := 0 to |parts|
        invariant NodeLabelOf(parts, id) == NodeLabelOf(parts[i..], id)
      {
        assert parts[i..][1..] == parts[i + 1..];
        if "node" <= parts[i].name && id in parts[i].members {
          return Some(parts[i].name);
        }
      }
      name := None;
    }

    /** The goroutine of `SetupLivenessTimer`, when its time is up. */
    method FireTimer()
      requires Valid()
      modifies this`vars, this`st
      ensures Valid() && Machine() == Finish(old(Machine()))
    {
      SetVar(TestFinished, BoolV(true), st.(finished := true));
    }

    method IsTestFinished() returns (finished: bool)
      requires Valid()
      ensures finished == st.finished
    {
      var v := GetVar(TestFinished);
      finished := v.Some? && v.value.b;
    }

    // ---- Observing filters

    method StoreCounter(r: ReplicaID, at: HeightRound, total: int)
      requires Represents(vars, st)
      modifies this`vars, this`st
      ensures Represents(vars, st) && st == WithCounter(old(st), r, at, total)
    {
      SetCounterRepresents(vars, st, r, at, total);
      vars := SetCounter(vars, r, at, total);
      st := WithCounter(st, r, at, total);
    }

    method TrackTotalRounds(e: Event)
      requires Valid()
      modifies this`vars, this`st
      ensures Valid() && st == Track(old(st), e)
    {
      match NewStepOf(e)
      case None =>
      case Some(at) =>
        var r := e.replica;
        var prevHeight := GetIntVar(PrevHeight(r));
        var prevRound := GetIntVar(PrevRound(r));
        var total := GetIntVar(TotalRounds(r));
        var totalRounds := total.GetOr(0);
        if at.height > prevHeight.GetOr(1) {
          totalRounds := totalRounds + 1 + at.round;
        } else if at.round > prevRound.GetOr(0) {
          totalRounds := totalRounds + (at.round - prevRound.GetOr(0));
        }
        TrackIsWithCounter(st, e);
        StoreCounter(r, at, totalRounds);
    }

    /** `logBlockIds`. */
    method RecordBlockIds(e: Event)
      requires Valid()
      modifies this`vars, this`st
      ensures Valid() && st == AddBlockIds(old(st), e)
    {
      match ParsedOf(e)
      case None =>
      case Some(m) =>
        match m.body.content.proposed
        case None =>
        case Some(id) =>
          var v := GetVar(BlockIds);
          var blockIds := if v.Some? then v.value.ids else [];
          SetVar(BlockIds, BlockIdsV(blockIds + [id]), AddBlockIds(st, e));
    }

    /** `DiffCommits`, evaluated as a condition, with its side effect. */
    method CommitsDiffer(e: Event) returns (differ: bool)
      requires Valid()
      modifies this`vars, this`st
      ensures Valid() && (st, differ) == Agreement.Diff(old(st), e)
    {
      match CommitOf(e)
      case None => differ := false;
      case Some(c) =>
        var cur := GetVar(BlockIdAt(c.height));
        if cur.Some? {
          differ := c.id != cur.value.s;
        } else {
          SetVar(BlockIdAt(c.height), StringV(c.id), Agreement.Diff(st, e).0);
          differ := false;
        }
    }

    /** `spec.Log`; false stands for the panic on an unlabelled replica. */
    method Log(e: Event) returns (ok: bool)
      requires Valid()
      modifies this`specEvents
      ensures Valid()
      ensures ok <==> Logged(st.partition.value, e).Some?
      ensures specEvents == old(specEvents) + Logged(st.partition.value, e).GetOr([])
    {
      match LoggedVote(e)
      case Some(m) =>
        var from := GetPartLabel(m.from);
        var to := GetPartLabel(m.to);
        ok := from.Some? && to.Some?;
        if ok {
          specEvents := specEvents + [MessageEvent(from.value, to.value, m.body.content.at)];
        }
      case None =>
        match NewStepOf(e)
        case None => ok := true;
        case Some(at) =>
          var name := GetPartLabel(e.replica);
          ok := name.Some?;
          if ok {
            specEvents := specEvents + [StepEvent(name.value, at)];
          }
    }

    // ---- The online step monitor

    /** Counts a sender, and returns how many distinct ones there are now. */
    method CountSender(r: ReplicaID, v: M.Vote) returns (n: nat)
      requires Valid()
      modifies this`vars, this`st
      ensures Valid()
      ensures var received := M.UpdateReceived(M.ReceivedBy(old(st), r), v.from, v.at);
        st == old(st).(received := old(st).received[r := received]) && n == |received[v.at]|
    {
      var stored := GetVar(VarKeys.RoundsReceived(r));
      var rr := new RoundsReceived(if stored.Some? then stored.value.received else map[]);
      rr.Update(v.from, v.at);
      n := |rr.received[v.at]|;
      SetVar(VarKeys.RoundsReceived(r), ReceivedV(rr.received), st.(received := st.received[r := rr.received]));
    }

    method ExpectStep(r: ReplicaID, at: HeightRound)
      requires Valid()
      modifies this`vars, this`st
      ensures Valid()
      ensures st == old(st).(expected := old(st).expected[r := M.AddOnce(M.ExpectedOf(old(st), r), at)])
    {
      var stored := GetVar(VarKeys.ExpectedSteps(r));
      var es := new ExpectedSteps(if stored.Some? then stored.value.steps else []);
      es.Add(at);
      SetVar(VarKeys.ExpectedSteps(r), StepsV(es.steps), st.(expected := st.expected[r := es.steps]));
    }

    /** `TrackRoundsReceived`. */
    method TrackRoundsReceived(e: Event)
      requires Valid()
      modifies this`vars, this`st
      ensures Valid()
      ensures st ==
        match M.VoteOf(e)
        case None => old(st)
        case Some(v) => M.TrackReceived(M.AsWritten, old(st).faults.value, old(st), e.replica, v)
    {
      match M.VoteOf(e)
      case None =>
      case Some(v) =>
        var n := CountSender(e.replica, v);
        var current := GetVar(CurrentHeightRound(e.replica));
        var at := if current.Some? then current.value.at else HeightRound(1, 0);
        if v.at.height <= at.height || (v.at.height == at.height && v.at.round <= at.round) {
          return;
        }
        var faults := GetVar(Faults);
        if n >= faults.value.i + 1 {
          ExpectStep(e.replica, v.at);
        }
    }

    method TakeOffExpected(r: ReplicaID, at: HeightRound)
      requires Valid()
      modifies this`vars, this`st
      ensures Valid()
      ensures st == if r in old(st).expected
        then old(st).(expected := old(st).expected[r := M.RemoveFirst(old(st).expected[r], at)])
        else old(st)
    {
      var expected := GetVar(VarKeys.ExpectedSteps(r));
      if expected.Some? {
        var es := new ExpectedSteps(expected.value.steps);
        es.Remove(at);
        SetVar(VarKeys.ExpectedSteps(r), StepsV(es.steps), st.(expected := st.expected[r := es.steps]));
      }
    }

    /** `TrackCurrentHeightRound`. */
    method TrackCurrentHeightRound(e: Event)
      requires Valid()
      modifies this`vars, this`st
      ensures Valid()
      ensures st == M.Observe(M.AsWritten, old(st).faults.value, old(st), e)
    {
      TrackRoundsReceived(e);
      match NewStepOf(e)
      case None =>
      case Some(at) =>
        SetVar(CurrentHeightRound(e.replica), HeightRoundV(at), st.(current := st.current[e.replica := at]));
        TakeOffExpected(e.replica, at);
    }

    // ---- Conditions and actions of the fault filters

    method IsMessageFromTotalRound(round: int, e: Event) returns (v: Verdict)
      requires Valid()
      ensures v == FromTotalRound(st, round, e)
    {
      var finished := IsTestFinished();
      if finished { return No; }
      match ParsedOf(e)
      case None => v := Crash;
      case Some(m) =>
        if m.body.content.at.round == -1 { return No; }
        var total := GetIntVar(TotalRounds(e.replica));
        v := if total == Some(round) then Yes else No;
    }

    method IsMessageOfTotalRound(round: int, e: Event) returns (v: Verdict)
      requires Valid()
      ensures v == OfTotalRound(st, round, e)
    {
      var finished := IsTestFinished();
      if finished { return No; }
      match ParsedOf(e)
      case None => v := Crash;
      case Some(m) =>
        var at := m.body.content.at;
        if at.round == -1 { return No; }
        var total := GetIntVar(TotalRoundFor(e.replica, at));
        v := if total == Some(round) then Yes else No;
    }

    method IsMessageToOneOf(to: seq<int>, id: ReplicaID) returns (yes: bool)
      requires Valid()
      ensures yes <==> ToOneOf(st.partition.value, to, id)
    {
      var parts := Partition();
      yes := false;
      for i := 0 to |to|
        invariant yes <==> ToOneOf(parts, to[..i], id)
      {
        assert to[..i + 1][..i] == to[..i];
        yes := yes || InPart(parts, NodeLabel(to[i]), id);
      }
      assert to[..|to|] == to;
    }

    /** The search for the replica that signs a vote. */
    method FindSigner(addr: Address) returns (signer: Option<ReplicaID>)
      ensures signer == Signer(env, env.replicas, addr)
    {
      for i := 0 to |env.replicas|
        invariant Signer(env, env.replicas, addr) == Signer(env, env.replicas[i..], addr)
      {
        assert env.replicas[i..][1..] == env.replicas[i + 1..];
        if env.lib.address(env.replicas[i]) == Some(addr) {
          return Some(env.replicas[i]);
        }
      }
      signer := None;
    }

    method RewriteVote(edit: Edit, m: Message) returns (m': Message)
      requires m.body.Parsed?
      ensures m' == ChangeVote(env, edit, m)
    {
      m' := m;
      if !IsVote(m.body.content.mtype) { return; }
      match m.body.content.validator
      case None =>
      case Some(addr) =>
        var signer := FindSigner(addr);
        match signer
        case None =>
        case Some(s) =>
          match env.lib.rewrite(edit, s, m)
          case None =>
          case Some(body) => m' := m.(body := body);
    }

    /** A corruption's action; `None` stands for a panic. */
    method Action(kind: CorruptionType, seed: int, m: Message) returns (messages: Option<seq<Message>>)
      requires Valid() && m.body.Parsed?
      ensures messages == Act(env, st, kind, seed, m)
    {
      var m' := m;
      match kind {
      case Omit => return Some([]);
      case ChangeProposalToNil => m' := ChangeProposal(env, m);
      case ChangeVoteToNil => m' := RewriteVote(VoteToNil, m);
      case ChangeVoteRound => m' := RewriteVote(VoteRound(ToInt32(m.body.content.at.round + 2)), m);
      case ChangeVoteRoundAnyScope => m' := RewriteVote(VoteRound(ToInt32(seed)), m);
      case ChangeBlockIdAnyScope =>
        var blockIds := GetVar(BlockIds);
        if blockIds.Some? {
          var id := PickBlockId(blockIds.value.ids, seed);
          if id.None? { return None; }
          m' := RewriteVote(VoteBlock(id.value), m);
        }
      }
      messages := Some([m']);
    }

    method DropHolds(d: MessageDrop, t: MessageType, e: Event) returns (v: Verdict)
      requires Valid()
      ensures v == DropCondition(env, st, d, t, e)
    {
      v := No;
      if e.kind.Send? {
        v := IsMessageFromTotalRound(StepRound(d.step), e);
        if v == Yes {
          v := if IsType(t, e) then FromToIsolated(env, d.partition, e) else No;
        }
      }
    }

    method CorruptionHolds(c: MessageCorruption, t: MessageType, e: Event) returns (v: Verdict)
      requires Valid()
      ensures v == CorruptCondition(st, c, t, e)
    {
      v := No;
      if e.kind.Send? {
        v := IsMessageOfTotalRound(StepRound(c.step), e);
        if v == Yes {
          v := No;
          if IsType(t, e) {
            var m := ParsedOf(e).value;
            var parts := Partition();
            var listed := IsMessageToOneOf(c.to, m.to);
            v := if InPart(parts, NodeLabel(c.from), m.from) && listed then Yes else No;
          }
        }
      }
    }

    // ---- The filter loop

    method ApplyFilter(f: Filter, e: Event) returns (out: Outcome)
      requires Valid()
      modifies this
      ensures Valid() && (Machine(), out) == Apply(env, f, old(Machine()), e)
    {
      out := Pass;
      match f
      case EndOnSuccess => if phase == Success { out := Handled([]); }
      case TrackTotalRounds => TrackTotalRounds(e); TrackKeeps(old(st), e);
      case LogSpec =>
        var ok := Log(e);
        if !ok { out := Panic; }
        assert old(specEvents) + [] == old(specEvents);
      case LogConsensus =>
        var m := ParsedOf(e);
        if m.Some? && m.value.body.content.mtype != Other {
          var from := GetNodeLabel(m.value.from);
          var to := GetNodeLabel(m.value.to);
          if from.None? || to.None? { out := Panic; }
        }
      case LogBlockIds => RecordBlockIds(e);
      case Drop(d, t) =>
        var v := DropHolds(d, t, e);
        out := match v case Yes => Handled([]) case No => Pass case Crash => Panic;
      case Corrupt(c, t, kind) =>
        var v := CorruptionHolds(c, t, e);
        if v == Crash {
          out := Panic;
        } else if v == Yes {
          var messages := Action(kind, c.seed, ParsedOf(e).value);
          out := if messages.None? then Panic else Handled(messages.value);
        }
    }

    /** The transitions out of the initial state. */
    method StepStateMachine(e: Event)
      requires Valid()
      modifies this
      ensures Valid() && Machine() == Transition(env.lib, old(Machine()), e)
    {
      if phase == Init {
        var differ := CommitsDiffer(e);
        if differ {
          phase := DiffCommits;
        } else {
          var finished := IsTestFinished();
          if env.lib.heightReached(e) || (env.lib.isCommit(e) && finished) {
            phase := Success;
          }
        }
      }
    }

    /** One event: first the state machine, then the filters in order until one handles it. */
    method HandleEvent(filters: seq<Filter>, e: Event) returns (out: Outcome)
      requires Valid()
      modifies this
      ensures Valid()
      ensures (Machine(), out) == Fold(env, filters, Transition(env.lib, old(Machine()), e), e)
    {
      StepStateMachine(e);
      ghost var m := Machine();
      for i := 0 to |filters|
        invariant Valid()
        invariant Fold(env, filters, m, e) == Fold(env, filters[i..], Machine(), e)
      {
        assert filters[i..][1..] == filters[i + 1..];
        out := ApplyFilter(filters[i], e);
        if out != Pass {
          return;
        }
      }
      out := Pass;
    }
  }

  // ---- A whole run

  lemma RunStep(h: Harness, inputs: seq<Input>, n: nat)
    requires n < |inputs|
    ensures h.Run(inputs[..n + 1]) == h.Step(h.Run(inputs[..n]), inputs[n])
  {
    assert inputs[..n + 1][..n] == inputs[..n];
  }

  /** Every event met the outcome it has in the specified run. */
  ghost predicate OutcomesOf(h: Harness, inputs: seq<Input>, outcomes: seq<Outcome>) {
    && |outcomes| == |inputs|
    && forall i :: 0 <= i < |inputs| && inputs[i].Arrives? ==> outcomes[i] == h.Outcome(inputs[..i], inputs[i].e)
  }

  lemma OutcomesGrow(h: Harness, inputs: seq<Input>, n: nat, outcomes: seq<Outcome>, out: Outcome)
    requires n < |inputs| && OutcomesOf(h, inputs[..n], outcomes)
    requires inputs[n].Arrives? ==> out == h.Outcome(inputs[..n], inputs[n].e)
    ensures OutcomesOf(h, inputs[..n + 1], outcomes + [out])
  {
    var some := inputs[..n + 1];
    forall i | 0 <= i < |some| && some[i].Arrives?
      ensures (outcomes + [out])[i] == h.Outcome(some[..i], some[i].e)
    {
      assert some[..i] == inputs[..i] && (i < n ==> inputs[..n][..i] == inputs[..i]);
    }
  }

  /** The object, driven through any inputs, ends up in the state the run has in the
      specification, and every event met the outcome it has there. */
  method Play(h: Harness, inputs: seq<Input>) returns (c: Context, outcomes: seq<Outcome>)
    ensures fresh(c) && c.Valid() && c.Machine() == h.Run(inputs)
    ensures OutcomesOf(h, inputs, outcomes)
  {
    c := new Context(h.env, h.faults);
    outcomes := [];
    for n := 0 to |inputs|
      invariant fresh(c) && c.Valid() && c.env == h.env && c.Machine() == h.Run(inputs[..n])
      invariant OutcomesOf(h, inputs[..n], outcomes)
    {
      RunStep(h, inputs, n);
      var out := Pass;
      match inputs[n] {
        case TimerFires => c.FireTimer();
        case Arrives(e) => out := c.HandleEvent(h.filters, e);
      }
      OutcomesGrow(h, inputs, n, outcomes, out);
      outcomes := outcomes + [out];
    }
    assert inputs[..|inputs|] == inputs;
  }

  lemma ObserveLast(faults: int, st: State, events: seq<Event>, n: nat)
    requires n < |events|
    ensures M.Run(M.AsWritten, faults, st, events[..n + 1]) ==
      M.Observe(M.AsWritten, faults, M.Run(M.AsWritten, faults, st, events[..n]), events[n])
    ensures M.Run(M.AsWritten, faults, st, events[..n + 1]).faults == M.Run(M.AsWritten, faults, st, events[..n]).faults
  {
    assert events[..n + 1][..n] == events[..n];
  }

  /** The object with the online step monitor as its filter: its store holds the monitor's
      state after the run, and so its pending lists are the steps owed. */
  method PlayMonitor(env: Setup, faults: int, events: seq<Event>) returns (c: Context)
    ensures fresh(c) && c.Valid()
    ensures c.st == M.Run(M.AsWritten, faults,
      EMPTY_STATE.(faults := Some(faults), partition := Some(NodeParts(env.replicas))), events)
    ensures M.ListsOwed(M.AsWritten, faults, events, c.st)
  {
    c := new Context(env, faults);
    ghost var start := c.st;
    for n := 0 to |events|
      invariant fresh(c) && c.Valid() && c.st.faults == Some(faults)
      invariant c.st == M.Run(M.AsWritten, faults, start, events[..n])
    {
      ObserveLast(faults, start, events, n);
      c.TrackCurrentHeightRound(events[n]);
    }
    assert events[..|events|] == events;
    M.PendingLists(M.AsWritten, faults, start, events);
  }
}
