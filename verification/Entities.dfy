/** Users, messages and operations, and the identifiers that name them.

    An identifier is the hash of what it names: a user's public key, a message's content or an
    operation's content. Hashing is idealised as a free constructor, so an identifier is a term that
    shows what was hashed. Identifiers of different kinds are then different, a user's identifier
    determines the public key, and the identifier of a message properly contains that of its parent. */
module Entities {
  import opened Topics

  /** A public key. A signature is identified with the only key it verifies under. */
  type Key = nat

  /** Nanoseconds. */
  type Time = int

  const SECOND: Time := 1_000_000_000
  const EPOCH: Time := 1_546_300_800_000_000_000
  const MAX_USERNAME_LEN := 64
  const MAX_MESSAGE_SUBJECT_LEN := 128
  const MAX_MESSAGE_TEXT_LEN := 1024
  const MAX_MESSAGE_DEPTH := 1024
  const MIN_MESSAGE_POST_DELAY: Time := 60 * SECOND
  const MIN_OPERATION_POST_DELAY: Time := 60 * SECOND

  datatype ID =
    | ZeroID
    | UserHash(key: Key)
    | MessageHash(message: MessageContent)
    | OperationHash(operation: OperationContent)
    | OtherID(n: nat)

  datatype User = User(id: ID, content: UserContent, signedBy: Key)

  datatype UserContent = UserContent(key: Key, proofValid: bool, nickname: string, info: string, regDate: Time)

  datatype Message = Message(id: ID, content: MessageContent, signedBy: Key)

  datatype MessageContent = MessageContent(
    subject: string, text: string, author: ID, parent: ID, dateWritten: Time, topic: Topic)

  datatype OperationType = RemoveMessage | BanUser | OtherType

  const PROTOCOL_VIOLATION: nat := 0
  const LAST_REASON: nat := 4

  datatype Operation = Operation(id: ID, content: OperationContent, signedBy: Key)

  datatype OperationContent = OperationContent(
    typ: OperationType, reason: nat, comment: string, author: ID, target: ID, datePerformed: Time)

  datatype Entity = UserEntity(user: User) | MessageEntity(message: Message) | OperationEntity(operation: Operation) {
    function Id(): ID {
      match this
      case UserEntity(u) => u.id
      case MessageEntity(m) => m.id
      case OperationEntity(o) => o.id
    }
  }

  // ---------------------------------------------------------------- validity of single entities

  predicate IsNicknameChar(c: char) {
    'a' <= c <= 'z' || 'A' <= c <= 'Z' || '0' <= c <= '9' || c == '_'
  }

  predicate IsNicknameValid(nickname: string) {
    1 <= |nickname| <= MAX_USERNAME_LEN && forall c | c in nickname :: IsNicknameChar(c)
  }

  predicate UserValid(u: User) {
    u.signedBy == u.content.key &&
    u.id == UserHash(u.content.key) &&
    u.content.regDate >= EPOCH &&
    u.content.proofValid &&
    IsNicknameValid(u.content.nickname)
  }

  predicate IsReply(m: Message) {
    m.content.parent != ZeroID
  }

  /** `IsUnsignedPartValid` of a message: a root has a topic and a reply has none. Whether the topic
      itself is valid is not checked. */
  predicate MessageValid(m: Message) {
    m.id == MessageHash(m.content) &&
    1 <= |m.content.subject| <= MAX_MESSAGE_SUBJECT_LEN &&
    1 <= |m.content.text| <= MAX_MESSAGE_TEXT_LEN &&
    (IsReply(m) <==> m.content.topic.NilTopic?)
  }

  predicate OperationValid(o: Operation) {
    o.id == OperationHash(o.content) &&
    !o.content.typ.OtherType? &&
    o.content.reason <= LAST_REASON &&
    o.content.author != ZeroID &&
    o.content.target != ZeroID
  }

  /** The entity passes its own validity check and is signed by the author its content names. */
  predicate Authentic(e: Entity) {
    match e
    case UserEntity(u) => UserValid(u)
    case MessageEntity(m) => MessageValid(m) && m.content.author == UserHash(m.signedBy)
    case OperationEntity(o) => OperationValid(o) && o.content.author == UserHash(o.signedBy)
  }

  // ---------------------------------------------------------------- what an identifier depends on

  /** The number of replies between the message and the root of its thread. */
  function Depth(id: ID): nat {
    match id
    case MessageHash(c) => if c.parent == ZeroID then 0 else 1 + Depth(c.parent)
    case _ => 0
  }

  /** The topic of the root of the thread the message is in. */
  function RootTopic(id: ID): Topic {
    match id
    case MessageHash(c) => if c.parent == ZeroID then c.topic else RootTopic(c.parent)
    case _ => NilTopic
  }

  /** The message and the messages it replies to, up to the root of its thread. */
  function Ancestors(id: ID): set<ID> {
    {id} + if id.MessageHash? && id.message.parent != ZeroID then Ancestors(id.message.parent) else {}
  }

  /** The message, its ancestors, and all of their authors. */
  function Chain(id: ID): set<ID> {
    match id
    case MessageHash(c) => {id, c.author} + if c.parent == ZeroID then {} else Chain(c.parent)
    case _ => {id}
  }

  /** Everything a receiver who knows nothing needs in order to accept the entity. The object of a
      ban is not among it: bans of unknown users are skipped. */
  function Dependencies(e: Entity): set<ID> {
    match e
    case UserEntity(u) => {u.id}
    case MessageEntity(m) => Chain(m.id)
    case OperationEntity(o) =>
      {o.id, o.content.author} + if o.content.typ == RemoveMessage then Chain(o.content.target) else {}
  }

  /** A chain of depth d names at most d + 1 messages and d + 1 users. */
  lemma {:induction false} ChainSize(id: ID)
    ensures |Chain(id)| <= 2 * (Depth(id) + 1)
  {
    match id
    case MessageHash(c) =>
      var own := {id, c.author};
      assert |own| <= 2;
      if c.parent != ZeroID {
        ChainSize(c.parent);
        assert |own + Chain(c.parent)| <= |own| + |Chain(c.parent)|;
      } else {
        assert Chain(id) == own;
      }
    case _ =>
      assert Chain(id) == {id};
  }

  /** The chain is the ancestors and the authors of those that are messages. */
  lemma {:induction false} ChainMembers(id: ID, x: ID)
    ensures x in Chain(id) <==>
            x in Ancestors(id) || exists a | a in Ancestors(id) :: a.MessageHash? && a.message.author == x
  {
    match id
    case MessageHash(c) =>
      if c.parent != ZeroID {
        ChainMembers(c.parent, x);
      }
      assert id in Ancestors(id);
    case _ =>
  }

  /** Ancestors are one of the other in a line: each has fewer ancestors and the same root topic. */
  lemma {:induction false} AncestorsOfAncestor(id: ID, x: ID)
    requires x in Ancestors(id)
    ensures Ancestors(x) <= Ancestors(id) && RootTopic(x) == RootTopic(id) && Depth(x) <= Depth(id)
    ensures x.MessageHash? && x.message.parent != ZeroID ==> x.message.parent in Ancestors(id)
  {
    if x != id {
      AncestorsOfAncestor(id.message.parent, x);
    } else if x.MessageHash? && x.message.parent != ZeroID {
      assert x.message.parent in Ancestors(x.message.parent);
    }
  }

  /** Authors are users and parents are messages, all the way up. */
  predicate WellTyped(id: ID) {
    match id
    case MessageHash(c) => c.author.UserHash? && (c.parent == ZeroID || WellTyped(c.parent))
    case _ => false
  }

  /** A chain contains the author and the parent of each of its messages, which all have the same
      root topic. */
  lemma {:induction false} ChainClosed(id: ID, x: ID)
    requires WellTyped(id) && x in Chain(id)
    ensures x.UserHash? || (x.MessageHash? && WellTyped(x))
    ensures x.MessageHash? ==>
              && x.message.author in Chain(id)
              && (x.message.parent == ZeroID || x.message.parent in Chain(id))
              && RootTopic(x) == RootTopic(id)
              && Depth(x) <= Depth(id)
  {
    var c := id.message;
    if x != id && x != c.author {
      ChainClosed(c.parent, x);
    }
    if c.parent != ZeroID {
      assert c.parent in Chain(c.parent);
    }
  }
}
