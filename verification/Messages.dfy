/** Events and messages as the test harness sees them, and what it reads out of them. */
module Messages {
  import opened Prelude
  import opened Decimal

  type ReplicaID = string
  type BlockID = string
  type Address = string

  datatype HeightRound = HeightRound(height: int, round: int)

  /** Lexicographic order on (height, round). */
  predicate LexLe(a: HeightRound, b: HeightRound) {
    a.height < b.height || (a.height == b.height && a.round <= b.round)
  }

  predicate LexLt(a: HeightRound, b: HeightRound) {
    LexLe(a, b) && a != b
  }

  datatype MessageType = Proposal | Prevote | Precommit | Other

  predicate IsVote(t: MessageType) {
    t == Prevote || t == Precommit
  }

  /** What the message parser finds inside a consensus message.  `round` is -1 when
      the message carries no round; `proposed` is the block id of a proposal, when it
      has one that is not nil; `validator` is the address a vote names. */
  datatype Content = Content(
    mtype: MessageType,
    at: HeightRound,
    proposed: Option<BlockID>,
    validator: Option<Address>)

  datatype Body = Unparsed(bytes: string) | Parsed(content: Content)

  datatype Message = Message(from: ReplicaID, to: ReplicaID, body: Body)

  datatype EventName = NewStep | CommittingBlock | OtherName(name: string)

  /** The parameters the harness reads; each may be missing. */
  datatype Params = Params(height: Option<string>, round: Option<string>, blockId: Option<BlockID>)

  /** The message of a send or a receive is `None` when the pool no longer holds it. */
  datatype Kind =
    | Generic(name: EventName, params: Params)
    | Send(message: Option<Message>)
    | Receive(message: Option<Message>)

  datatype Event = Event(replica: ReplicaID, kind: Kind)

  function IntOf(param: Option<string>): Option<int> {
    match param
    case None => None
    case Some(s) => Atoi(s)
  }

  /** The (height, round) a "newStep" event announces, if both parameters parse. */
  function NewStepOf(e: Event): Option<HeightRound> {
    if !e.kind.Generic? || e.kind.name != NewStep then None
    else match IntOf(e.kind.params.height)
      case None => None
      case Some(h) =>
        match IntOf(e.kind.params.round)
        case None => None
        case Some(r) => Some(HeightRound(h, r))
  }

  /** A step is read exactly from a "newStep" event both of whose parameters are there
      and parse. */
  lemma NewStepExactly(e: Event, at: HeightRound)
    ensures NewStepOf(e) == Some(at) <==>
      match e.kind
      case Generic(NewStep, Params(Some(height), Some(round), _)) =>
        Atoi(height) == Some(at.height) && Atoi(round) == Some(at.round)
      case _ => false
  {
  }

  predicate Steps(e: Event, r: ReplicaID, at: HeightRound) {
    e.replica == r && NewStepOf(e) == Some(at)
  }

  datatype Commit = Commit(height: int, id: BlockID)

  /** The commit a "Committing block" event announces, if its height parses and it names a block. */
  function CommitOf(e: Event): Option<Commit> {
    if !e.kind.Generic? || e.kind.name != CommittingBlock then None
    else match IntOf(e.kind.params.height)
      case None => None
      case Some(h) =>
        match e.kind.params.blockId
        case None => None
        case Some(id) => Some(Commit(h, id))
  }

  /** A commit is read exactly from a "Committing block" event whose height parses and
      that names the block. */
  lemma CommitExactly(e: Event, c: Commit)
    ensures CommitOf(e) == Some(c) <==>
      match e.kind
      case Generic(CommittingBlock, Params(Some(height), _, Some(id))) => Atoi(height) == Some(c.height) && id == c.id
      case _ => false
  {
  }

  predicate IsInt64(n: int) {
    -0x8000_0000_0000_0000 <= n < 0x8000_0000_0000_0000
  }

  /** What a replica announces is what is read, height as height and round as round, as
      long as both fit the machine's integers. */
  lemma AnnouncedStepIsRead(r: ReplicaID, at: HeightRound, id: Option<BlockID>)
    ensures NewStepOf(Event(r, Generic(NewStep, Params(Some(Print(at.height)), Some(Print(at.round)), id)))) ==
      if IsInt64(at.height) && IsInt64(at.round) then Some(at) else None
  {
    AtoiPrint(at.height);
    AtoiPrint(at.round);
  }

  lemma AnnouncedCommitIsRead(r: ReplicaID, c: Commit, round: Option<string>)
    ensures CommitOf(Event(r, Generic(CommittingBlock, Params(Some(Print(c.height)), round, Some(c.id))))) ==
      if IsInt64(c.height) then Some(c) else None
  {
    AtoiPrint(c.height);
  }

  /** The message in the pool that belongs to the event, parsed or not. */
  function MessageOf(e: Event): Option<Message> {
    match e.kind
    case Generic(_, _) => None
    case Send(m) => m
    case Receive(m) => m
  }

  /** `util.GetMessageFromEvent`: the event's message, if it is in the pool and parses. */
  function ParsedOf(e: Event): (r: Option<Message>)
    ensures r.Some? ==> r.value.body.Parsed? && MessageOf(e) == r
  {
    match MessageOf(e)
    case None => None
    case Some(m) => if m.body.Parsed? then Some(m) else None
  }
}
