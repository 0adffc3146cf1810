/** The event log the harness writes (byzzfuzz/spec/log.go) and the script that
    analyses it afterwards (analyse.py). */
module SpecLog {
  import opened Prelude
  import opened Messages
  import opened Vars
  import opened Labels

  datatype SpecEvent =
    | MessageEvent(from: string, to: string, at: HeightRound)
    | StepEvent(replica: string, at: HeightRound)

  // ---- The logger

  /** A prevote or precommit that names a round is received. */
  predicate ReceivesVote(e: Event) {
    match e.kind
    case Receive(Some(Message(_, _, Parsed(Content(Prevote, at, _, _))))) => at.round >= 0
    case Receive(Some(Message(_, _, Parsed(Content(Precommit, at, _, _))))) => at.round >= 0
    case _ => false
  }

  /** The vote a receive event brings, if it is one that is logged. */
  function LoggedVote(e: Event): (vote: Option<Message>)
    ensures vote == if ReceivesVote(e) then e.kind.message else None
  {
    if !e.kind.Receive? then None
    else match ParsedOf(e)
      case None => None
      case Some(m) => if m.body.content.at.round >= 0 && IsVote(m.body.content.mtype) then Some(m) else None
  }

  /** What `Log` sends to its channel for one event; `None` is the panic on an unlabelled replica. */
  function Logged(parts: seq<Part>, e: Event): Option<seq<SpecEvent>> {
    match LoggedVote(e)
    case Some(m) =>
      (match (LabelOf(parts, m.from), LabelOf(parts, m.to))
       case (Some(from), Some(to)) => Some([MessageEvent(from, to, m.body.content.at)])
       case _ => None)
    case None =>
      match NewStepOf(e)
      case None => Some([])
      case Some(at) =>
        match LabelOf(parts, e.replica)
        case None => None
        case Some(name) => Some([StepEvent(name, at)])
  }

  function LogAll(parts: seq<Part>, events: seq<Event>): seq<SpecEvent> {
    if events == [] then []
    else LogAll(parts, events[..|events| - 1]) + Logged(parts, events[|events| - 1]).GetOr([])
  }

  // ---- The analyser

  /** The nodes the script looks at, and how many of them it takes to be faulty. */
  const NODES := ["node0", "node1", "node2", "node3"]
  const FAULTY := 1

  /** Everyone the log has a message to the node from, for that (height, round). */
  function LogSenders(log: seq<SpecEvent>, node: string, at: HeightRound): set<string> {
    set e | e in log && e.MessageEvent? && e.to == node && e.at == at :: e.from
  }

  /** Three distinct senders make a step expected. */
  ghost predicate Expects(log: seq<SpecEvent>, node: string, at: HeightRound) {
    |LogSenders(log, node, at)| >= 3
  }

  predicate Makes(log: seq<SpecEvent>, node: string, at: HeightRound) {
    StepEvent(node, at) in log
  }

  ghost predicate Misses(log: seq<SpecEvent>, node: string, at: HeightRound) {
    Expects(log, node, at) && !Makes(log, node, at)
  }

  lemma LogSendersGrow(log: seq<SpecEvent>, e: SpecEvent, node: string, at: HeightRound)
    ensures LogSenders(log + [e], node, at) ==
      LogSenders(log, node, at) + (if e.MessageEvent? && e.to == node && e.at == at then {e.from} else {})
  {
  }

  /** `find_expected_steps`. */
  method FindExpectedSteps(events: seq<SpecEvent>, node: string) returns (expected: set<HeightRound>)
    ensures forall at :: at in expected <==> Expects(events, node, at)
  {
    var received: map<HeightRound, set<string>> := map[];
    for i := 0 to |events|
      invariant forall at :: at in received ==> received[at] == LogSenders(events[..i], node, at)
      invariant forall at :: at !in received ==> LogSenders(events[..i], node, at) == {}
    {
      var e := events[i];
      assert events[..i + 1] == events[..i] + [e];
      forall at { LogSendersGrow(events[..i], e, node, at); }
      if e.MessageEvent? && e.to == node {
        if e.at in received {
          received := received[e.at := received[e.at] + {e.from}];
        } else {
          received := received[e.at := {e.from}];
        }
      }
    }
    assert events[..|events|] == events;
    expected := set at | at in received && |received[at]| > FAULTY + 1;
  }

  /** `find_actual_steps`. */
  method FindActualSteps(events: seq<SpecEvent>, node: string) returns (actual: set<HeightRound>)
    ensures forall at :: at in actual <==> Makes(events, node, at)
  {
    actual := {};
    for i := 0 to |events|
      invariant forall at :: at in actual <==> Makes(events[..i], node, at)
    {
      assert events[..i + 1] == events[..i] + [events[i]];
      if events[i].StepEvent? && events[i].replica == node {
        actual := actual + {events[i].at};
      }
    }
    assert events[..|events|] == events;
  }

  ghost predicate AllGood(log: seq<SpecEvent>) {
    forall node, at :: node in NODES ==> !Misses(log, node, at)
  }

  /** The verdict loop; true stands for "All good.". */
  method Analyse(events: seq<SpecEvent>) returns (good: bool)
    ensures good <==> AllGood(events)
  {
    var foundError := false;
    for i := 0 to |NODES|
      invariant foundError <==> exists j, at :: 0 <= j < i && Misses(events, NODES[j], at)
    {
      var expected := FindExpectedSteps(events, NODES[i]);
      var actual := FindActualSteps(events, NODES[i]);
      var missing := expected - actual;
      if |missing| > 0 {
        var at :| at in missing;
        assert Misses(events, NODES[i], at);
        foundError := true;
      } else {
        assert missing == {};
        assert forall at :: at in expected ==> at in missing || at in actual;
      }
    }
    good := !foundError;
  }

  /** The order of the log does not matter. */
  lemma OrderIsIrrelevant(log: seq<SpecEvent>, log': seq<SpecEvent>, node: string, at: HeightRound)
    requires multiset(log) == multiset(log')
    ensures Misses(log, node, at) <==> Misses(log', node, at)
  {
    forall e ensures e in log <==> e in log' {
      assert e in log <==> e in multiset(log);
      assert e in log' <==> e in multiset(log');
    }
    assert LogSenders(log, node, at) == LogSenders(log', node, at);
  }

  /** One more logged event changes what a node misses in at most one place: a message to
      the node can add its own (height, round), a step of the node removes its own. */
  lemma MissesStep(log: seq<SpecEvent>, e: SpecEvent, node: string, at: HeightRound)
    ensures e.MessageEvent? && Misses(log, node, at) ==> Misses(log + [e], node, at)
    ensures e.MessageEvent? && Misses(log + [e], node, at) && !Misses(log, node, at) ==> e.to == node && e.at == at
    ensures e.StepEvent? ==>
      (Misses(log + [e], node, at) <==> Misses(log, node, at) && !(e.replica == node && e.at == at))
  {
    LogSendersGrow(log, e, node, at);
    SubsetCount(LogSenders(log, node, at), LogSenders(log + [e], node, at));
  }

  // ---- Logger and analyser together, in terms of the raw events

  predicate BringsVote(e: Event, to: ReplicaID, at: HeightRound) {
    ReceivesVote(e) && e.kind.message.value.to == to && e.kind.message.value.body.content.at == at
  }

  /** The distinct replicas whose prevotes or precommits for `at` were delivered to `to`. */
  function VoteSenders(events: seq<Event>, to: ReplicaID, at: HeightRound): set<ReplicaID> {
    set i | 0 <= i < |events| && BringsVote(events[i], to, at) :: events[i].kind.message.value.from
  }

  /** The logger never has to label a stranger, so it never panics. */
  ghost predicate AllKnown(replicas: seq<ReplicaID>, events: seq<Event>) {
    forall i :: 0 <= i < |events| ==>
      && (ReceivesVote(events[i]) ==>
            events[i].kind.message.value.from in replicas && events[i].kind.message.value.to in replicas)
      && (NewStepOf(events[i]).Some? ==> events[i].replica in replicas)
  }

  lemma {:induction false} LogContainsExactly(
    replicas: seq<ReplicaID>, parts: seq<Part>, events: seq<Event>, x: SpecEvent)
    requires NoDuplicates(replicas) && IsLabelling(replicas, parts) && AllKnown(replicas, events)
    ensures x in LogAll(parts, events) <==> exists i :: 0 <= i < |events| && x in Logged(parts, events[i]).GetOr([])
  {
    if events != [] {
      var front := events[..|events| - 1];
      LogContainsExactly(replicas, parts, front, x);
      assert forall i :: 0 <= i < |front| ==> front[i] == events[i];
    }
  }

  lemma LoggedMessage(replicas: seq<ReplicaID>, parts: seq<Part>, e: Event, from: string, k: nat, at: HeightRound)
    requires NoDuplicates(replicas) && IsLabelling(replicas, parts) && AllKnown(replicas, [e]) && k < |replicas|
    ensures MessageEvent(from, NodeLabel(k), at) in Logged(parts, e).GetOr([]) <==>
      BringsVote(e, replicas[k], at) && Some(from) == LabelOf(parts, e.kind.message.value.from)
  {
    assert [e][0] == e;
    if LoggedVote(e).Some? {
      var m := LoggedVote(e).value;
      LabelsCoherent(replicas, parts, m.from);
      LabelsCoherent(replicas, parts, m.to);
      LabelsCoherent(replicas, parts, replicas[k]);
      if m.to != replicas[k] && NodeLabel(ReplicaIndex(replicas, m.to).value) == NodeLabel(k) {
        NodeLabelInjective(ReplicaIndex(replicas, m.to).value, k);
      }
    }
  }

  lemma LoggedStep(replicas: seq<ReplicaID>, parts: seq<Part>, e: Event, k: nat, at: HeightRound)
    requires NoDuplicates(replicas) && IsLabelling(replicas, parts) && AllKnown(replicas, [e]) && k < |replicas|
    ensures StepEvent(NodeLabel(k), at) in Logged(parts, e).GetOr([]) <==> Steps(e, replicas[k], at)
  {
    assert [e][0] == e;
    LabelsCoherent(replicas, parts, replicas[k]);
    LabelsCoherent(replicas, parts, e.replica);
    if NewStepOf(e).Some? && e.replica != replicas[k] {
      var i := ReplicaIndex(replicas, e.replica).value;
      if NodeLabel(i) == NodeLabel(k) {
        NodeLabelInjective(i, k);
      }
    }
  }

  /** A node makes a step in the log exactly when its replica makes it in the run. */
  lemma MakesExactly(replicas: seq<ReplicaID>, parts: seq<Part>, events: seq<Event>, k: nat, at: HeightRound)
    requires NoDuplicates(replicas) && IsLabelling(replicas, parts) && AllKnown(replicas, events) && k < |replicas|
    ensures Makes(LogAll(parts, events), NodeLabel(k), at) <==>
      exists i :: 0 <= i < |events| && Steps(events[i], replicas[k], at)
  {
    LogContainsExactly(replicas, parts, events, StepEvent(NodeLabel(k), at));
    forall i | 0 <= i < |events|
      ensures StepEvent(NodeLabel(k), at) in Logged(parts, events[i]).GetOr([]) <==>
        Steps(events[i], replicas[k], at)
    {
      LoggedStep(replicas, parts, events[i], k, at);
    }
  }

  function LabelName(parts: seq<Part>, id: ReplicaID): string {
    LabelOf(parts, id).GetOr("")
  }

  lemma LabelNameInjective(replicas: seq<ReplicaID>, parts: seq<Part>, a: ReplicaID, b: ReplicaID)
    requires NoDuplicates(replicas) && IsLabelling(replicas, parts) && a in replicas && b in replicas
    requires LabelName(parts, a) == LabelName(parts, b)
    ensures a == b
  {
    LabelsCoherent(replicas, parts, a);
    LabelsCoherent(replicas, parts, b);
    NodeLabelInjective(ReplicaIndex(replicas, a).value, ReplicaIndex(replicas, b).value);
  }

  lemma VotersKnown(replicas: seq<ReplicaID>, events: seq<Event>, r: ReplicaID, at: HeightRound)
    requires AllKnown(replicas, events)
    ensures forall id :: id in VoteSenders(events, r, at) ==> id in replicas
  {
  }

  /** A node has as many logged senders as its replica had distinct voters. */
  lemma LogSendersExactly(replicas: seq<ReplicaID>, parts: seq<Part>, events: seq<Event>, k: nat, at: HeightRound)
    requires NoDuplicates(replicas) && IsLabelling(replicas, parts) && AllKnown(replicas, events) && k < |replicas|
    ensures |LogSenders(LogAll(parts, events), NodeLabel(k), at)| == |VoteSenders(events, replicas[k], at)|
  {
    var names := LogSenders(LogAll(parts, events), NodeLabel(k), at);
    var voters := VoteSenders(events, replicas[k], at);
    var nameOf := (id: ReplicaID) => LabelName(parts, id);
    VotersKnown(replicas, events, replicas[k], at);
    forall a, b | a in voters && b in voters && nameOf(a) == nameOf(b) ensures a == b {
      LabelNameInjective(replicas, parts, a, b);
    }
    InjectiveImageCount(nameOf, voters);
    forall x ensures x in names <==> x in Image(nameOf, voters) {
      LoggedSender(replicas, parts, events, k, at, x);
      assert forall id :: id in voters ==> nameOf(id) == LabelName(parts, id);
    }
    assert names == Image(nameOf, voters);
  }

  lemma LoggedSender(
    replicas: seq<ReplicaID>, parts: seq<Part>, events: seq<Event>, k: nat, at: HeightRound, x: string)
    requires NoDuplicates(replicas) && IsLabelling(replicas, parts) && AllKnown(replicas, events) && k < |replicas|
    ensures x in LogSenders(LogAll(parts, events), NodeLabel(k), at) <==>
      exists id :: id in VoteSenders(events, replicas[k], at) && LabelName(parts, id) == x
  {
    var logged := MessageEvent(x, NodeLabel(k), at);
    LogContainsExactly(replicas, parts, events, logged);
    assert x in LogSenders(LogAll(parts, events), NodeLabel(k), at) <==> logged in LogAll(parts, events);
    forall i | 0 <= i < |events|
      ensures logged in Logged(parts, events[i]).GetOr([]) <==>
        BringsVote(events[i], replicas[k], at) && LabelName(parts, events[i].kind.message.value.from) == x
    {
      LoggedMessage(replicas, parts, events[i], x, k, at);
      if ReceivesVote(events[i]) {
        LabelsCoherent(replicas, parts, events[i].kind.message.value.from);
      }
    }
    if logged in LogAll(parts, events) {
      var i :| 0 <= i < |events| && logged in Logged(parts, events[i]).GetOr([]);
      assert events[i].kind.message.value.from in VoteSenders(events, replicas[k], at);
    }
  }

  /** A replica lacks a step: three replicas' votes for it were delivered to it, and it
      never made it. */
  ghost predicate Lacks(events: seq<Event>, r: ReplicaID, at: HeightRound) {
    && |VoteSenders(events, r, at)| >= 3
    && !exists i :: 0 <= i < |events| && Steps(events[i], r, at)
  }

  ghost predicate NoneLacks(replicas: seq<ReplicaID>, events: seq<Event>) {
    forall r, at :: r in replicas ==> !Lacks(events, r, at)
  }

  lemma MissesExactly(replicas: seq<ReplicaID>, parts: seq<Part>, events: seq<Event>, k: nat, at: HeightRound)
    requires NoDuplicates(replicas) && IsLabelling(replicas, parts) && AllKnown(replicas, events) && k < |replicas|
    ensures Misses(LogAll(parts, events), NodeLabel(k), at) <==> Lacks(events, replicas[k], at)
  {
    LogSendersExactly(replicas, parts, events, k, at);
    MakesExactly(replicas, parts, events, k, at);
  }

  /** The analyser's verdict on the log of any run of four replicas: "All good." exactly
      when no replica lacks a step. */
  lemma VerdictExactly(replicas: seq<ReplicaID>, parts: seq<Part>, events: seq<Event>)
    requires NoDuplicates(replicas) && IsLabelling(replicas, parts) && AllKnown(replicas, events)
    requires |replicas| == 4
    ensures AllGood(LogAll(parts, events)) <==> NoneLacks(replicas, events)
  {
    var log := LogAll(parts, events);
    if AllGood(log) {
      forall r, at | r in replicas ensures !Lacks(events, r, at) {
        var k :| 0 <= k < |replicas| && replicas[k] == r;
        NodeNames(k);
        MissesExactly(replicas, parts, events, k, at);
        assert NODES[k] in NODES;
      }
    }
    if NoneLacks(replicas, events) {
      forall node, at | node in NODES ensures !Misses(log, node, at) {
        var k :| 0 <= k < |NODES| && NODES[k] == node;
        NodeNames(k);
        MissesExactly(replicas, parts, events, k, at);
        assert replicas[k] in replicas;
      }
    }
  }

  lemma NodeNames(k: nat)
    requires k < |NODES|
    ensures NODES[k] == NodeLabel(k)
  {
  }
}
