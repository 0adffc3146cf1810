/** The online monitor and the offline analyser on one and the same run. */
module OnlineOffline {
  import opened Prelude
  import opened Messages
  import opened Vars
  import opened Labels
  import opened SpecLog
  import RoundTracking
  import M = StepMonitor

  /** The votes for `at` that are addressed to the replica are received by it: the log goes
      by the addressee, the online monitor by the replica that reports the receive. */
  ghost predicate Delivered(events: seq<Event>, r: ReplicaID, at: HeightRound) {
    forall i :: 0 <= i < |events| && BringsVote(events[i], r, at) ==> events[i].replica == r
  }

  lemma VotersAreSenders(events: seq<Event>, r: ReplicaID, at: HeightRound)
    requires Delivered(events, r, at) && at != HeightRound(1, 0)
    ensures VoteSenders(events, r, at) <= M.Senders(events, r, at)
  {
    forall x | x in VoteSenders(events, r, at) ensures x in M.Senders(events, r, at) {
      var i :| 0 <= i < |events| && BringsVote(events[i], r, at) && events[i].kind.message.value.from == x;
      assert M.Brings(events[i], r, at);
    }
  }

  /** Whatever step the analyser expects of a node, (1, 0) apart, the online monitor has
      three distinct senders on record for. */
  lemma ExpectedOfflineIsReceivedOnline(
    replicas: seq<ReplicaID>, parts: seq<Part>, events: seq<Event>, guard: M.Guard, st: State, k: nat, at: HeightRound)
    requires NoDuplicates(replicas) && IsLabelling(replicas, parts) && AllKnown(replicas, events) && k < |replicas|
    requires Delivered(events, replicas[k], at) && at != HeightRound(1, 0) && replicas[k] !in st.received
    requires Expects(LogAll(parts, events), NodeLabel(k), at)
    ensures |M.NodesFor(M.Run(guard, 1, st, events), replicas[k], at)| >= 3
  {
    LogSendersExactly(replicas, parts, events, k, at);
    VotersAreSenders(events, replicas[k], at);
    SubsetCount(VoteSenders(events, replicas[k], at), M.Senders(events, replicas[k], at));
    M.ReceivedIsSenders(guard, 1, st, events, replicas[k], at);
  }

  /** Votes reported by another replica than the addressee count offline only. */
  lemma ReportedElsewhere(replicas: seq<ReplicaID>, events: seq<Event>, k: nat, at: HeightRound)
    requires NoDuplicates(replicas) && AllKnown(replicas, events) && k < |replicas|
    requires forall e | e in events :: e.replica != replicas[k]
    requires |VoteSenders(events, replicas[k], at)| >= 3
    ensures Expects(LogAll(NodeParts(replicas), events), NodeLabel(k), at)
    ensures M.NodesFor(M.Run(M.AsWritten, 1, EMPTY_STATE, events), replicas[k], at) == []
  {
    LogSendersExactly(replicas, NodeParts(replicas), events, k, at);
    M.ReceivedIsSenders(M.AsWritten, 1, EMPTY_STATE, events, replicas[k], at);
    assert M.Senders(events, replicas[k], at) == {};
  }

  lemma ThreeVoters(events: seq<Event>, r: ReplicaID, at: HeightRound, b: ReplicaID, c: ReplicaID, d: ReplicaID)
    requires |events| == 3 && b != c && b != d && c != d
    requires BringsVote(events[0], r, at) && events[0].kind.message.value.from == b
    requires BringsVote(events[1], r, at) && events[1].kind.message.value.from == c
    requires BringsVote(events[2], r, at) && events[2].kind.message.value.from == d
    ensures |VoteSenders(events, r, at)| >= 3
  {
    SubsetCount({b, c, d}, VoteSenders(events, r, at));
  }

  /** Why that is asked: of votes reported by another replica than their addressee, the
      analyser hears and the online monitor does not. */
  lemma MisreportedVotes() returns (replicas: seq<ReplicaID>, events: seq<Event>, at: HeightRound)
    ensures |replicas| == 4 && NoDuplicates(replicas) && AllKnown(replicas, events)
    ensures Expects(LogAll(NodeParts(replicas), events), NodeLabel(0), at)
    ensures M.NodesFor(M.Run(M.AsWritten, 1, EMPTY_STATE, events), replicas[0], at) == []
  {
    replicas, at := ["a", "b", "c", "d"], HeightRound(1, 1);
    var vote := Parsed(Content(Prevote, at, None, None));
    var heard := (from: ReplicaID) => Event("b", Receive(Some(Message(from, "a", vote))));
    events := [heard("b"), heard("c"), heard("d")];
    forall i | 0 <= i < 3 ensures BringsVote(events[i], "a", at) && NewStepOf(events[i]) == None {}
    var b, c, d := "b", "c", "d";
    assert b != c && b != d && c != d;
    ThreeVoters(events, "a", at, b, c, d);
    ReportedElsewhere(replicas, events, 0, at);
  }

  /** A step the analyser finds missing is pending online exactly when the guard let
      some quorum receive through. */
  lemma MissingOfflinePendingOnline(
    replicas: seq<ReplicaID>, parts: seq<Part>, events: seq<Event>, guard: M.Guard, st: State, k: nat, at: HeightRound)
    requires NoDuplicates(replicas) && IsLabelling(replicas, parts) && AllKnown(replicas, events) && k < |replicas|
    requires replicas[k] !in st.received && replicas[k] !in st.expected && replicas[k] !in st.current
    requires Misses(LogAll(parts, events), NodeLabel(k), at)
    ensures at in M.ExpectedOf(M.Run(guard, 1, st, events), replicas[k]) <==>
      exists i :: 0 <= i < |events| && M.QuorumAt(guard, 1, events, replicas[k], at, i)
  {
    var r := replicas[k];
    MakesExactly(replicas, parts, events, k, at);
    M.PendingExactly(guard, 1, st, events, r, at);
    forall i | 0 <= i < |events|
      ensures M.OwedSince(guard, 1, events, r, at, i) <==> M.QuorumAt(guard, 1, events, r, at, i)
    {
      assert !M.SteppedBetween(events, r, at, i + 1, |events|);
    }
  }

  /** The receive that completes a quorum. */
  lemma {:induction false} QuorumIsCompleted(events: seq<Event>, r: ReplicaID, at: HeightRound, n: nat) returns (i: nat)
    requires 0 < n <= |M.Senders(events, r, at)|
    ensures i < |events| && M.Brings(events[i], r, at) && |M.Senders(events[..i + 1], r, at)| >= n
  {
    assert M.Senders([], r, at) == {};
    var last := |events| - 1;
    var front := events[..last];
    if M.Brings(events[last], r, at) {
      assert events[..last + 1] == events;
      i := last;
    } else {
      M.SendersGrow(events, r, at);
      i := QuorumIsCompleted(front, r, at, n);
      assert front[..i + 1] == events[..i + 1];
    }
  }

  lemma MissingAheadIsPending(
    replicas: seq<ReplicaID>, parts: seq<Part>, events: seq<Event>, guard: M.Guard, st: State, k: nat, at: HeightRound)
    requires NoDuplicates(replicas) && IsLabelling(replicas, parts) && AllKnown(replicas, events) && k < |replicas|
    requires replicas[k] !in st.received && replicas[k] !in st.expected && replicas[k] !in st.current
    requires Delivered(events, replicas[k], at) && RoundTracking.Monotone(RoundTracking.History(events, replicas[k]))
    requires forall a, c, d :: guard(a, c) && LexLe(c, d) ==> guard(a, d)
    requires Misses(LogAll(parts, events), NodeLabel(k), at) && at != HeightRound(1, 0)
    requires !guard(at, RoundTracking.Latest(RoundTracking.History(events, replicas[k])))
    ensures at in M.ExpectedOf(M.Run(guard, 1, st, events), replicas[k])
  {
    var r := replicas[k];
    LogSendersExactly(replicas, parts, events, k, at);
    VotersAreSenders(events, r, at);
    SubsetCount(VoteSenders(events, r, at), M.Senders(events, r, at));
    var i := QuorumIsCompleted(events, r, at, 2);
    M.ReachedByThen(events, r, i);
    assert M.QuorumAt(guard, 1, events, r, at, i);
    MissingOfflinePendingOnline(replicas, parts, events, guard, st, k, at);
  }

  /** A missing step ahead of where the replica ended up is pending online: with the
      guard as written if it lies at a greater height, with the guard as intended if it
      lies anywhere later.  At height 1 the guard as written stays silent in any case. */
  lemma MissingVersusPending(
    replicas: seq<ReplicaID>, parts: seq<Part>, events: seq<Event>, k: nat, at: HeightRound)
    requires NoDuplicates(replicas) && IsLabelling(replicas, parts) && AllKnown(replicas, events) && k < |replicas|
    requires Delivered(events, replicas[k], at) && RoundTracking.Monotone(RoundTracking.History(events, replicas[k]))
    requires Misses(LogAll(parts, events), NodeLabel(k), at) && at != HeightRound(1, 0)
    ensures RoundTracking.Latest(RoundTracking.History(events, replicas[k])).height < at.height ==>
      at in M.ExpectedOf(M.Run(M.AsWritten, 1, EMPTY_STATE, events), replicas[k])
    ensures LexLt(RoundTracking.Latest(RoundTracking.History(events, replicas[k])), at) ==>
      at in M.ExpectedOf(M.Run(M.AsIntended, 1, EMPTY_STATE, events), replicas[k])
    ensures at.height <= 1 ==>
      at !in M.ExpectedOf(M.Run(M.AsWritten, 1, EMPTY_STATE, events), replicas[k])
  {
    var latest := RoundTracking.Latest(RoundTracking.History(events, replicas[k]));
    if latest.height < at.height {
      MissingAheadIsPending(replicas, parts, events, M.AsWritten, EMPTY_STATE, k, at);
    }
    if LexLt(latest, at) {
      MissingAheadIsPending(replicas, parts, events, M.AsIntended, EMPTY_STATE, k, at);
    }
    M.GuardsCompared(1, EMPTY_STATE, events, replicas[k], at);
  }
}
