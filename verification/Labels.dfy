/** Labelling the replicas "node0", "node1", ... (byzzfuzz/instance.go, byzzfuzz/reference.go). */
module Labels {
  import opened Prelude
  import opened Decimal
  import opened Messages
  import opened Vars

  function NodeLabel(i: int): string {
    "node" + Print(i)
  }

  lemma NodeLabelInjective(i: int, j: int)
    requires NodeLabel(i) == NodeLabel(j)
    ensures i == j
  {
    assert Print(i) == NodeLabel(i)[4..] && Print(j) == NodeLabel(j)[4..];
    PrintInjective(i, j);
  }

  /** `replicaIdx`: the first position of the replica; the source ends the process on `None`. */
  function ReplicaIndex(replicas: seq<ReplicaID>, id: ReplicaID): (r: Option<nat>)
    ensures r.Some? ==> r.value < |replicas| && replicas[r.value] == id
    ensures r.Some? ==> forall j :: 0 <= j < r.value ==> replicas[j] != id
    ensures r.None? <==> id !in replicas
  {
    if replicas == [] then None
    else if replicas[0] == id then Some(0)
    else match ReplicaIndex(replicas[1..], id)
      case None => None
      case Some(i) => Some(i + 1)
  }

  lemma IndexOfDistinct(replicas: seq<ReplicaID>, i: nat)
    requires NoDuplicates(replicas) && i < |replicas|
    ensures ReplicaIndex(replicas, replicas[i]) == Some(i)
  {
  }

  // ---- The two labellings

  function NodePart(replicas: seq<ReplicaID>, i: nat): Part
    requires i < |replicas|
  {
    Part(NodeLabel(i), {replicas[i]})
  }

  /** `labelNodes`. */
  function NodeParts(replicas: seq<ReplicaID>): (parts: seq<Part>)
    ensures |parts| == |replicas|
    ensures forall i :: 0 <= i < |parts| ==> parts[i] == NodePart(replicas, i)
  {
    seq(|replicas|, i requires 0 <= i < |replicas| => NodePart(replicas, i))
  }

  /** `labelNodesExpectNewRound`: two more parts, which overlap the first two. */
  function NewRoundParts(replicas: seq<ReplicaID>): seq<Part>
    requires |replicas| >= 2
  {
    NodeParts(replicas) + [Part("h", {replicas[0]}), Part("faulty", {replicas[1]})]
  }

  ghost predicate IsLabelling(replicas: seq<ReplicaID>, parts: seq<Part>) {
    parts == NodeParts(replicas) || (|replicas| >= 2 && parts == NewRoundParts(replicas))
  }

  // ---- The two lookups; `None` stands for the panic "Replica not found"

  /** `spec.getPartLabel`: the first part that contains the replica. */
  function LabelOf(parts: seq<Part>, id: ReplicaID): Option<string> {
    if parts == [] then None
    else if id in parts[0].members then Some(parts[0].name)
    else LabelOf(parts[1..], id)
  }

  /** `byzzfuzz.getPartLabel`: the first such part whose label starts with "node". */
  function NodeLabelOf(parts: seq<Part>, id: ReplicaID): Option<string> {
    if parts == [] then None
    else if "node" <= parts[0].name && id in parts[0].members then Some(parts[0].name)
    else NodeLabelOf(parts[1..], id)
  }

  /** Both lookups return the node label of the replica's index, under both labellings. */
  lemma LabelsCoherent(replicas: seq<ReplicaID>, parts: seq<Part>, id: ReplicaID)
    requires NoDuplicates(replicas) && IsLabelling(replicas, parts)
    ensures LabelOf(parts, id) == NodeLabelOf(parts, id)
    ensures LabelOf(parts, id) ==
      match ReplicaIndex(replicas, id)
      case None => None
      case Some(i) => Some(NodeLabel(i))
  {
    match ReplicaIndex(replicas, id)
    case Some(i) =>
      forall j | 0 <= j < i ensures id !in parts[j].members {
        assert replicas[j] != replicas[i];
      }
      FirstPartDecides(parts, id, i);
    case None =>
      NoPartContains(parts, id);
  }

  lemma {:induction false} FirstPartDecides(parts: seq<Part>, id: ReplicaID, i: nat)
    requires i < |parts| && id in parts[i].members && "node" <= parts[i].name
    requires forall j :: 0 <= j < i ==> id !in parts[j].members
    ensures LabelOf(parts, id) == NodeLabelOf(parts, id) == Some(parts[i].name)
  {
    if i > 0 {
      FirstPartDecides(parts[1..], id, i - 1);
    }
  }

  lemma {:induction false} NoPartContains(parts: seq<Part>, id: ReplicaID)
    requires forall j :: 0 <= j < |parts| ==> id !in parts[j].members
    ensures LabelOf(parts, id) == NodeLabelOf(parts, id) == None
  {
    if parts != [] {
      NoPartContains(parts[1..], id);
    }
  }

  /** The library's "is the replica in the part with this label". */
  predicate InPart(parts: seq<Part>, name: string, id: ReplicaID) {
    exists i :: 0 <= i < |parts| && parts[i].name == name && id in parts[i].members
  }

  /** The two extra parts hold the first and the second replica, and nobody else. */
  lemma ExtraPartsName(replicas: seq<ReplicaID>, id: ReplicaID)
    requires |replicas| >= 2
    ensures InPart(NewRoundParts(replicas), "h", id) <==> id == replicas[0]
    ensures InPart(NewRoundParts(replicas), "faulty", id) <==> id == replicas[1]
  {
    var parts, n := NewRoundParts(replicas), |replicas|;
    assert parts[n].name == "h" && parts[n + 1].name == "faulty";
    assert "h"[0] != 'n' && "faulty"[0] != 'n' && "h"[0] != "faulty"[0];
    forall i | 0 <= i < n ensures parts[i].name[0] == 'n' {
      assert parts[i] == NodePart(replicas, i);
    }
  }

  /** Under either labelling a node label names exactly one replica: the one with that index. */
  lemma NodeLabelNamesReplica(replicas: seq<ReplicaID>, parts: seq<Part>, i: int, id: ReplicaID)
    requires NoDuplicates(replicas) && IsLabelling(replicas, parts)
    ensures InPart(parts, NodeLabel(i), id) <==> 0 <= i < |replicas| && replicas[i] == id
  {
    assert NodeLabel(i)[0] == 'n';
    if InPart(parts, NodeLabel(i), id) {
      var k :| 0 <= k < |parts| && parts[k].name == NodeLabel(i) && id in parts[k].members;
      if k < |replicas| {
        assert parts[k] == NodePart(replicas, k);
        NodeLabelInjective(i, k);
      } else {
        assert false;
      }
    }
    if 0 <= i < |replicas| && replicas[i] == id {
      assert parts[i] == NodePart(replicas, i);
    }
  }
}
