/** Message drops and corruptions, and the filters they become
    (byzzfuzz/instance.go, byzzfuzz/corruption.go, byzzfuzz/roundTracking.go). */
module Faults {
  import opened Prelude
  import opened Messages
  import opened Vars
  import opened Labels
  import opened Partitions

  datatype MessageDrop = MessageDrop(step: int, partition: Partition)

  /** `kind` is the corruption type's number, as the JSON configuration carries it. */
  datatype MessageCorruption = MessageCorruption(step: int, from: int, to: seq<int>, kind: int, seed: int)

  // ---- Steps: three per round, one for each type of message

  /** Go's `step / 3`, which truncates toward zero. */
  function StepRound(step: int): int {
    if step >= 0 then step / 3 else -((-step) / 3)
  }

  /** The type for Go's `step % 3`; `None` is the panic on a negative remainder. */
  function StepType(step: int): Option<MessageType> {
    match step - 3 * StepRound(step)
    case 0 => Some(Proposal)
    case 1 => Some(Prevote)
    case 2 => Some(Precommit)
    case _ => None
  }

  function TypeOffset(t: MessageType): int {
    match t
    case Proposal => 0
    case Prevote => 1
    case Precommit => 2
    case Other => -1
  }

  /** Steps and (round, consensus type) pairs correspond one to one; the steps without a
      type are the negative ones that are not a multiple of three. */
  lemma StepBijection(step: int, round: int, t: MessageType)
    requires t != Other
    ensures StepType(step).None? <==> step < 0 && step % 3 != 0
    ensures StepRound(step) == round && StepType(step) == Some(t) <==>
      step == 3 * round + TypeOffset(t) && (step >= 0 || t == Proposal)
    ensures round >= 0 ==>
      StepRound(3 * round + TypeOffset(t)) == round && StepType(3 * round + TypeOffset(t)) == Some(t)
    ensures round >= 0 ==>
      && StepType(3 * round) == Some(Proposal)
      && StepType(3 * round + 1) == Some(Prevote)
      && StepType(3 * round + 2) == Some(Precommit)
  {
    if step < 0 {
      assert step == -(3 * ((-step) / 3)) - (-step) % 3;
    }
  }

  datatype CorruptionType =
    | ChangeProposalToNil | ChangeVoteToNil | ChangeVoteRound | Omit | ChangeVoteRoundAnyScope | ChangeBlockIdAnyScope

  /** `None` is the panic "Invalid type of corruption". */
  function CorruptionTypeOf(kind: int): Option<CorruptionType> {
    match kind
    case 0 => Some(ChangeProposalToNil)
    case 1 => Some(ChangeVoteToNil)
    case 2 => Some(ChangeVoteRound)
    case 3 => Some(Omit)
    case 4 => Some(ChangeVoteRoundAnyScope)
    case 5 => Some(ChangeBlockIdAnyScope)
    case _ => None
  }

  // ---- What the libraries contribute

  datatype Edit = ProposalToNil | VoteToNil | VoteRound(round: int) | VoteBlock(id: BlockID)

  /** `rewrite` signs and marshals an edited message and may fail; `address` is a
      replica's validator address, which may be unreadable; the last two are the
      conditions under which the library lets a test succeed. */
  datatype Library = Library(
    rewrite: (Edit, ReplicaID, Message) -> Option<Body>,
    address: ReplicaID -> Option<Address>,
    heightReached: Event -> bool,
    isCommit: Event -> bool)

  datatype Setup = Setup(lib: Library, replicas: seq<ReplicaID>)

  // ---- Corruption actions

  /** The first replica with that address; replicas whose address cannot be read are skipped. */
  function Signer(env: Setup, replicas: seq<ReplicaID>, addr: Address): Option<ReplicaID> {
    if replicas == [] then None
    else if env.lib.address(replicas[0]) == Some(addr) then Some(replicas[0])
    else Signer(env, replicas[1..], addr)
  }

  /** The common part of the vote-changing actions: whatever goes wrong, the message
      itself is passed on. */
  function ChangeVote(env: Setup, edit: Edit, m: Message): Message
    requires m.body.Parsed?
  {
    if !IsVote(m.body.content.mtype) then m
    else match m.body.content.validator
      case None => m
      case Some(addr) =>
        match Signer(env, env.replicas, addr)
        case None => m
        case Some(signer) =>
          match env.lib.rewrite(edit, signer, m)
          case None => m
          case Some(body) => m.(body := body)
  }

  /** Replica number i is the first whose address is the vote's validator. */
  ghost predicate Signs(env: Setup, m: Message, i: nat)
    requires m.body.Parsed? && i < |env.replicas|
  {
    && m.body.content.validator.Some?
    && env.lib.address(env.replicas[i]) == m.body.content.validator
    && forall j :: 0 <= j < i ==> env.lib.address(env.replicas[j]) != m.body.content.validator
  }

  lemma {:induction false} SignerIsFirst(env: Setup, replicas: seq<ReplicaID>, addr: Address, i: nat)
    requires i < |replicas| && env.lib.address(replicas[i]) == Some(addr)
    requires forall j :: 0 <= j < i ==> env.lib.address(replicas[j]) != Some(addr)
    ensures Signer(env, replicas, addr) == Some(replicas[i])
  {
    if i > 0 {
      SignerIsFirst(env, replicas[1..], addr, i - 1);
    }
  }

  lemma {:induction false} NoSigner(env: Setup, replicas: seq<ReplicaID>, addr: Address)
    requires forall i :: 0 <= i < |replicas| ==> env.lib.address(replicas[i]) != Some(addr)
    ensures Signer(env, replicas, addr) == None
  {
    if replicas != [] {
      NoSigner(env, replicas[1..], addr);
    }
  }

  /** A vote is rewritten in the name of the first replica that has its validator's
      address, provided there is one and the rewriting succeeds; else it stays as it is. */
  lemma VoteIsRewrittenFor(env: Setup, edit: Edit, m: Message)
    requires m.body.Parsed? && IsVote(m.body.content.mtype)
    ensures forall i | 0 <= i < |env.replicas| && Signs(env, m, i) ::
      ChangeVote(env, edit, m) == m.(body := env.lib.rewrite(edit, env.replicas[i], m).GetOr(m.body))
    ensures (forall i :: 0 <= i < |env.replicas| ==> !Signs(env, m, i)) ==> ChangeVote(env, edit, m) == m
  {
    match m.body.content.validator
    case None =>
    case Some(addr) =>
      forall i: nat | i < |env.replicas| && Signs(env, m, i)
        ensures ChangeVote(env, edit, m) == m.(body := env.lib.rewrite(edit, env.replicas[i], m).GetOr(m.body))
      {
        SignerIsFirst(env, env.replicas, addr, i);
      }
      if exists i :: 0 <= i < |env.replicas| && env.lib.address(env.replicas[i]) == Some(addr) {
        var i := FindFirst(env.replicas, id => env.lib.address(id) == Some(addr));
        assert Signs(env, m, i);
      } else {
        NoSigner(env, env.replicas, addr);
      }
  }

  function ChangeProposal(env: Setup, m: Message): Message {
    match env.lib.rewrite(ProposalToNil, m.from, m)
    case None => m
    case Some(body) => m.(body := body)
  }

  /** Go's conversion `int32(n)`: the number in range that is equal modulo 2^32. */
  function ToInt32(n: int): (r: int)
    ensures -0x8000_0000 <= r < 0x8000_0000
    ensures (r - n) % 0x1_0000_0000 == 0
    ensures -0x8000_0000 <= n < 0x8000_0000 ==> r == n
  {
    (n + 0x8000_0000) % 0x1_0000_0000 - 0x8000_0000
  }

  /** `blockIds[seed % len(blockIds)]`; `None` is the panic on an empty list or a negative index. */
  function PickBlockId(ids: seq<BlockID>, seed: int): Option<BlockID> {
    if ids == [] then None
    else if seed >= 0 then Some(ids[seed % |ids|])
    else if (-seed) % |ids| == 0 then Some(ids[0])
    else None
  }

  /** What an action makes of a message; `None` stands for a panic. */
  function Act(env: Setup, st: State, kind: CorruptionType, seed: int, m: Message): Option<seq<Message>>
    requires m.body.Parsed?
  {
    match kind
    case ChangeProposalToNil => Some([ChangeProposal(env, m)])
    case ChangeVoteToNil => Some([ChangeVote(env, VoteToNil, m)])
    case ChangeVoteRound => Some([ChangeVote(env, VoteRound(ToInt32(m.body.content.at.round + 2)), m)])
    case Omit => Some([])
    case ChangeVoteRoundAnyScope => Some([ChangeVote(env, VoteRound(ToInt32(seed)), m)])
    case ChangeBlockIdAnyScope =>
      match st.blockIds
      case None => Some([m])
      case Some(ids) =>
        match PickBlockId(ids, seed)
        case None => None
        case Some(id) => Some([ChangeVote(env, VoteBlock(id), m)])
  }

  /** No action redirects a message or makes more than one of it. */
  lemma ActKeepsEndpoints(env: Setup, st: State, kind: CorruptionType, seed: int, m: Message)
    requires m.body.Parsed?
    ensures Act(env, st, kind, seed, m).Some? ==>
      && |Act(env, st, kind, seed, m).value| <= 1
      && forall x :: x in Act(env, st, kind, seed, m).value ==> x.from == m.from && x.to == m.to
  {
  }

  /** On a message that is no vote, every vote-changing action is the identity: in
      particular ChangeBlockIdAnyScope, which the any-scope generator pairs with
      proposal steps, alters no proposal. */
  lemma VoteActionsSpareOthers(env: Setup, st: State, kind: CorruptionType, seed: int, m: Message)
    requires m.body.Parsed? && !IsVote(m.body.content.mtype)
    requires kind != Omit && kind != ChangeProposalToNil
    ensures Act(env, st, kind, seed, m).Some? ==> Act(env, st, kind, seed, m) == Some([m])
    ensures Act(env, st, kind, seed, m).None? <==>
      kind == ChangeBlockIdAnyScope && st.blockIds.Some? && PickBlockId(st.blockIds.value, seed).None?
  {
  }

  // ---- Filter conditions

  datatype Verdict = Yes | No | Crash

  /** `isMessageFromTotalRound`: the sender's current total. */
  function FromTotalRound(st: State, round: int, e: Event): Verdict {
    if st.finished then No
    else match ParsedOf(e)
      case None => Crash
      case Some(m) =>
        if m.body.content.at.round == -1 || e.replica !in st.rounds then No
        else if st.rounds[e.replica].total == round then Yes else No
  }

  /** `isMessageOfTotalRound`: the total recorded for the message's own height and round. */
  function OfTotalRound(st: State, round: int, e: Event): Verdict {
    if st.finished then No
    else match ParsedOf(e)
      case None => Crash
      case Some(m) =>
        var at := m.body.content.at;
        if at.round == -1 || e.replica !in st.rounds || at !in st.rounds[e.replica].index then No
        else if st.rounds[e.replica].index[at] == round then Yes else No
  }

  function IsType(t: MessageType, e: Event): bool {
    ParsedOf(e).Some? && ParsedOf(e).value.body.content.mtype == t
  }

  /** `FromToIsolated`. */
  function FromToIsolated(env: Setup, p: Partition, e: Event): Verdict {
    match MessageOf(e)
    case None => No
    case Some(m) =>
      match (ReplicaIndex(env.replicas, m.from), ReplicaIndex(env.replicas, m.to))
      case (Some(a), Some(b)) => if Isolates(p, a, b) then Yes else No
      case _ => Crash
  }

  /** `IsMessageToOneOf`: the disjunction the source builds up, one index after another. */
  predicate ToOneOf(parts: seq<Part>, to: seq<int>, id: ReplicaID) {
    if to == [] then false
    else ToOneOf(parts, to[..|to| - 1], id) || InPart(parts, NodeLabel(to[|to| - 1]), id)
  }

  lemma {:induction false} ToOneOfMeansListed(replicas: seq<ReplicaID>, parts: seq<Part>, to: seq<int>, id: ReplicaID)
    requires NoDuplicates(replicas) && IsLabelling(replicas, parts)
    ensures ToOneOf(parts, to, id) <==> ReplicaIndex(replicas, id).Some? && ReplicaIndex(replicas, id).value as int in to
  {
    if to != [] {
      var front, last := to[..|to| - 1], to[|to| - 1];
      ToOneOfMeansListed(replicas, parts, front, id);
      LabelNamesIndex(replicas, parts, last, id);
      assert to == front + [last];
    }
  }

  lemma LabelNamesIndex(replicas: seq<ReplicaID>, parts: seq<Part>, i: int, id: ReplicaID)
    requires NoDuplicates(replicas) && IsLabelling(replicas, parts)
    ensures InPart(parts, NodeLabel(i), id) <==>
      ReplicaIndex(replicas, id).Some? && ReplicaIndex(replicas, id).value as int == i
  {
    NodeLabelNamesReplica(replicas, parts, i, id);
  }

  function DropCondition(env: Setup, st: State, d: MessageDrop, t: MessageType, e: Event): Verdict {
    if !e.kind.Send? then No
    else match FromTotalRound(st, StepRound(d.step), e)
      case Crash => Crash
      case No => No
      case Yes => if IsType(t, e) then FromToIsolated(env, d.partition, e) else No
  }

  function CorruptCondition(st: State, c: MessageCorruption, t: MessageType, e: Event): Verdict {
    if !e.kind.Send? then No
    else match OfTotalRound(st, StepRound(c.step), e)
      case Crash => Crash
      case No => No
      case Yes =>
        var parts := st.partition.GetOr([]);
        if !IsType(t, e) then No
        else
          var m := ParsedOf(e).value;
          if InPart(parts, NodeLabel(c.from), m.from) && ToOneOf(parts, c.to, m.to) then Yes else No
  }

  // ---- What the two kinds of faults are for

  /** The send is one the drop is aimed at: the sender is in the drop's round, the message
      is of its type, and its partition separates the two ends. */
  predicate DropMatches(env: Setup, st: State, d: MessageDrop, e: Event) {
    && e.kind.Send? && ParsedOf(e).Some? && !st.finished
    && var m := ParsedOf(e).value;
    && m.body.content.at.round != -1
    && e.replica in st.rounds && st.rounds[e.replica].total == StepRound(d.step)
    && StepType(d.step) == Some(m.body.content.mtype)
    && match (ReplicaIndex(env.replicas, m.from), ReplicaIndex(env.replicas, m.to))
       case (Some(a), Some(b)) => Isolates(d.partition, a, b)
       case _ => false
  }

  /** The send is one the corruption is aimed at: the message belongs to the corruption's
      round, is of its type, and goes from its node to one of its targets. */
  predicate CorruptionMatches(env: Setup, st: State, c: MessageCorruption, e: Event) {
    && e.kind.Send? && ParsedOf(e).Some? && !st.finished
    && var m := ParsedOf(e).value;
    && m.body.content.at.round != -1
    && e.replica in st.rounds && m.body.content.at in st.rounds[e.replica].index
    && st.rounds[e.replica].index[m.body.content.at] == StepRound(c.step)
    && StepType(c.step) == Some(m.body.content.mtype)
    && match (ReplicaIndex(env.replicas, m.from), ReplicaIndex(env.replicas, m.to))
       case (Some(a), Some(b)) => a == c.from && b as int in c.to
       case _ => false
  }

  ghost predicate Labelled(env: Setup, st: State) {
    && NoDuplicates(env.replicas)
    && st.partition.Some? && IsLabelling(env.replicas, st.partition.value)
  }

  /** An event the harness cannot put a label to: it panics on it. */
  predicate Strange(env: Setup, e: Event) {
    || (&& ParsedOf(e).Some? && ParsedOf(e).value.body.content.mtype != Other
        && (ParsedOf(e).value.from !in env.replicas || ParsedOf(e).value.to !in env.replicas))
    || (NewStepOf(e).Some? && e.replica !in env.replicas)
  }

  lemma DropConditionExactly(env: Setup, st: State, d: MessageDrop, t: MessageType, e: Event)
    requires StepType(d.step) == Some(t) && !Strange(env, e)
    ensures DropCondition(env, st, d, t, e) ==
      if DropMatches(env, st, d, e) then Yes
      else if e.kind.Send? && ParsedOf(e).None? && !st.finished then Crash
      else No
  {
  }

  lemma CorruptConditionExactly(env: Setup, st: State, c: MessageCorruption, t: MessageType, e: Event)
    requires StepType(c.step) == Some(t) && Labelled(env, st)
    ensures CorruptCondition(st, c, t, e) ==
      if CorruptionMatches(env, st, c, e) then Yes
      else if e.kind.Send? && ParsedOf(e).None? && !st.finished then Crash
      else No
  {
    if ParsedOf(e).Some? {
      var parts, m := st.partition.value, ParsedOf(e).value;
      NodeLabelNamesReplica(env.replicas, parts, c.from, m.from);
      if 0 <= c.from < |env.replicas| {
        IndexOfDistinct(env.replicas, c.from);
      }
      ToOneOfMeansListed(env.replicas, parts, c.to, m.to);
    }
  }
}
