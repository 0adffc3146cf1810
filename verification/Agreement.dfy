/** The agreement monitor: first committed block per height (byzzfuzz/spec/commit.go). */
module Agreement {
  import opened Prelude
  import opened Messages
  import opened Vars

  /** `DiffCommits` on one event: the new state, and whether the condition holds. */
  function Diff(st: State, e: Event): (State, bool) {
    match CommitOf(e)
    case None => (st, false)
    case Some(c) =>
      if c.height in st.blockAt then (st, st.blockAt[c.height] != c.id)
      else (st.(blockAt := st.blockAt[c.height := c.id]), false)
  }

  /** The monitor's state after it has been evaluated on all the events. */
  function Watch(st: State, events: seq<Event>): State {
    if events == [] then st
    else Diff(Watch(st, events[..|events| - 1]), events[|events| - 1]).0
  }

  /** The condition holds at event number i of the run. */
  predicate FlaggedAt(st: State, events: seq<Event>, i: nat)
    requires i < |events|
  {
    Diff(Watch(st, events[..i]), events[i]).1
  }

  /** Two commits of one height with different block ids. */
  ghost predicate Disagree(events: seq<Event>) {
    exists i, j :: 0 <= i < j < |events| && Clash(events[i], events[j])
  }

  predicate Clash(a: Event, b: Event) {
    match (CommitOf(a), CommitOf(b))
    case (Some(c), Some(d)) => c.height == d.height && c.id != d.id
    case _ => false
  }

  predicate CommitsAt(e: Event, height: int) {
    CommitOf(e).Some? && CommitOf(e).value.height == height
  }

  /** Event number i is the first commit of that height. */
  ghost predicate FirstCommitAt(events: seq<Event>, i: nat, height: int)
    requires i < |events|
  {
    CommitsAt(events[i], height) && forall j :: 0 <= j < i ==> !CommitsAt(events[j], height)
  }

  /** The stored id of a height is the one its first commit had; a height nobody
      committed has none. */
  lemma {:induction false} StoredIsFirst(st: State, events: seq<Event>, height: int)
    requires height !in st.blockAt
    ensures height in Watch(st, events).blockAt <==> exists i :: 0 <= i < |events| && CommitsAt(events[i], height)
    ensures forall i :: 0 <= i < |events| && FirstCommitAt(events, i, height) ==>
      height in Watch(st, events).blockAt && Watch(st, events).blockAt[height] == CommitOf(events[i]).value.id
  {
    if events != [] {
      var front, e := events[..|events| - 1], events[|events| - 1];
      StoredIsFirst(st, front, height);
      assert forall i :: 0 <= i < |front| ==> front[i] == events[i];
      assert forall i :: 0 <= i < |front| ==> FirstCommitAt(front, i, height) == FirstCommitAt(events, i, height);
    }
  }

  /** The condition holds at an event exactly when that event commits a block other than
      the first one committed at its height. */
  lemma FlaggedExactly(st: State, events: seq<Event>, i: nat)
    requires st.blockAt == map[] && i < |events|
    ensures FlaggedAt(st, events, i) <==>
      exists j :: 0 <= j < i && Clash(events[j], events[i]) && FirstCommitAt(events, j, CommitOf(events[j]).value.height)
  {
    if CommitOf(events[i]).Some? {
      var before, c := events[..i], CommitOf(events[i]).value;
      StoredIsFirst(st, before, c.height);
      assert forall j :: 0 <= j < i ==> FirstCommitAt(before, j, c.height) == FirstCommitAt(events, j, c.height);
      if FlaggedAt(st, events, i) {
        var first := FindFirst(before, e => CommitsAt(e, c.height));
        assert Clash(events[first], events[i]);
      }
    }
  }

  /** The monitor is sound and complete: it raises the alarm at some event of a run
      exactly when the run commits two different blocks at one height. */
  lemma AlarmIffDisagreement(st: State, events: seq<Event>)
    requires st.blockAt == map[]
    ensures (exists i :: 0 <= i < |events| && FlaggedAt(st, events, i)) <==> Disagree(events)
  {
    if i :| 0 <= i < |events| && FlaggedAt(st, events, i) {
      FlaggedExactly(st, events, i);
    }
    if i, j :| 0 <= i < j < |events| && Clash(events[i], events[j]) {
      var height := CommitOf(events[i]).value.height;
      assert CommitsAt(events[i], height);
      var first := FindFirst(events, e => CommitsAt(e, height));
      FlaggedExactly(st, events, i);
      FlaggedExactly(st, events, j);
      assert Clash(events[first], events[j]) || Clash(events[first], events[i]);
    }
  }
}
