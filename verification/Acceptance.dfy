/** What a receiver stores of what it is sent: when an announced entity ends up in its database, with
    everything it depends on, and when it is dropped or the sender accused. */
module Acceptance {
  import opened Topics
  import opened Subscriptions
  import opened Entities
  import opened Databases
  import opened Views
  import opened Receiving
  import opened ReceivingRuns
  import opened Sending
  import opened HonestExchange
  import opened Announcements
  import opened Deliveries
  import opened Depths
  import Commits

  // ---------------------------------------------------------------- what has to be fetched

  /** The message and its ancestors up to the first one the receiver has. */
  function NeededMessages(y: Database, id: ID): set<ID> {
    if id in y.messages || !id.MessageHash? then {}
    else {id} + if id.message.parent == ZeroID then {} else NeededMessages(y, id.message.parent)
  }

  function NeededFor(y: Database, e: Entity): set<ID> {
    match e
    case UserEntity(_) => {}
    case MessageEntity(m) => NeededMessages(y, m.id)
    case OperationEntity(o) => if o.content.typ == RemoveMessage then NeededMessages(y, o.content.target) else {}
  }

  /** A user the receiver does not have and who wrote something of what is to be fetched. */
  ghost predicate NeededAuthor(y: Database, e: Entity, id: ID) {
    id !in y.users &&
    ((e.OperationEntity? && e.operation.content.author == id) ||
     exists a | a in NeededFor(y, e) :: a.MessageHash? && a.message.author == id)
  }

  lemma {:induction false} NeededMembers(y: Database, t: ID, a: ID)
    requires a in NeededMessages(y, t)
    ensures a.MessageHash? && a !in y.messages && a in Ancestors(t)
    ensures a.message.parent != ZeroID && a.message.parent.MessageHash? && a.message.parent !in y.messages ==>
              a.message.parent in NeededMessages(y, t)
  {
    if a != t {
      NeededMembers(y, t.message.parent, a);
    } else if a.message.parent.MessageHash? && a.message.parent !in y.messages {
      assert a.message.parent in NeededMessages(y, a.message.parent);
    }
  }

  /** What is needed is part of the closure, and the sender has it with its author. */
  lemma NeededIsStored(x: Database, y: Database, e: Entity, a: ID)
    requires Sound(x) && Whole(x, e) && a in NeededFor(y, e)
    ensures a.MessageHash? && a !in y.messages && a in Dependencies(e) && a in x.messages && x.messages[a].content == a.message
    ensures x.messages[a].id == a && Authentic(MessageEntity(x.messages[a]))
    ensures a.message.author.UserHash? && a.message.author in x.users
    ensures a.message.parent == ZeroID || a.message.parent in y.messages || a.message.parent in NeededFor(y, e)
  {
    var t := ThreadOf(e);
    hide WholeThread, UserValid, MessageValid;
    assert a in NeededMessages(y, t);
    NeededMembers(y, t, a);
    ThreadMember(x, t, a);
    ChainMembers(t, a);
    if a.message.parent != ZeroID {
      ThreadMember(x, t, a.message.parent);
    }
  }

  // ---------------------------------------------------------------- what the receiver takes

  /** The author as the receiver will know it. */
  function AuthorRow(x: Database, y: Database, id: ID): User
    requires id in x.users || id in y.users
  {
    if id in y.users then y.users[id] else x.users[id]
  }

  /** The author of the message is not banned and was registered when it was written, and none of the
      author's other messages, stored or to be fetched, is within a minute. */
  ghost predicate Welcome(x: Database, y: Database, own: Owner, needed: set<ID>, a: ID)
    requires Sound(x) && Sound(y) && a.MessageHash?
  {
    var c := a.message;
    && !IsUserBanned(y, own.moderators, c.author)
    && (c.author in x.users || c.author in y.users)
    && AuthorRow(x, y, c.author).content.regDate <= c.dateWritten
    && (forall id | id in y.messages && id != a && y.messages[id].content.author == c.author ::
          Abs(WholeSeconds(y.messages[id].content.dateWritten) - WholeSeconds(c.dateWritten)) >= 60)
    && (forall b: ID | b in needed && b != a && b.MessageHash? && b.message.author == c.author ::
          Abs(b.message.dateWritten - c.dateWritten) >= 60 * SECOND)
  }

  /** Every message to be fetched is welcome, and of an operation also its author; the object of a ban is
      stored, or is the author. */
  ghost predicate Acceptable(x: Database, y: Database, own: Owner, e: Entity)
    requires Sound(x) && Sound(y)
  {
    && (forall a | a in NeededFor(y, e) && a.MessageHash? :: Welcome(x, y, own, NeededFor(y, e), a))
    && (e.OperationEntity? ==>
          var c := e.operation.content;
          && !IsUserBanned(y, own.moderators, c.author)
          && (c.typ == BanUser ==> c.target == c.author || c.target in y.users || c.target in y.messages || c.target in y.operations))
  }

  // ---------------------------------------------------------------- what is in the buffer

  /** Only what is needed is fetched. */
  ghost predicate OnlyNeeded(y: Database, e: Entity, pending: seq<Entity>) {
    forall p | p in pending ::
      match p
      case UserEntity(u) => NeededAuthor(y, e, u.id)
      case MessageEntity(m) => m.id in NeededFor(y, e)
      case OperationEntity(_) => p == e
  }

  ghost predicate NeededID(y: Database, e: Entity, id: ID) {
    id in NeededFor(y, e) || NeededAuthor(y, e, id)
  }

  /** A request is for something needed. */
  lemma RequestIsNeeded(x: Database, y: Database, own: Owner, e: Entity, pending: seq<Entity>)
    requires Sound(x) && Sound(y) && Whole(x, e) && Delivered(x, e, pending) && OnlyNeeded(y, e, pending)
    requires pending != [] && Decide(y, own, pending).Request?
    ensures NeededID(y, e, Decide(y, own, pending).id)
  {
    hide CheckEntity, Dependencies, Sound, Whole, Delivered, OnlyNeeded, NeededID;
    CheckFromMatched(y, own, pending, 0);
    var id := Decide(y, own, pending).id;
    var i :| 0 <= i < |pending| && CheckEntity(y, own, pending, pending[i]) == NeedID(id);
    NeedIsNeeded(x, y, own, e, pending, pending[i], id);
  }

  lemma NeedIsNeeded(x: Database, y: Database, own: Owner, e: Entity, pending: seq<Entity>, p: Entity, id: ID)
    requires Sound(x) && Sound(y) && Whole(x, e) && OnlyNeeded(y, e, pending) && p in pending
    requires CheckEntity(y, own, pending, p) == NeedID(id)
    ensures NeededID(y, e, id)
  {
    hide Dependencies, Sound, NeededFor, IsUserBanned, NearStored, NearPending, Covers, MessageValid, OperationValid, UserValid;
    match p
    case UserEntity(u) =>
    case MessageEntity(m) =>
      NeededIsStored(x, y, e, m.id);
      MessageNeeds(y, own, pending, m, id);
    case OperationEntity(o) =>
      if id != o.content.author {
        RemovalIsNeeded(x, y, e);
      }
  }

  lemma MessageNeeds(y: Database, own: Owner, pending: seq<Entity>, m: Message, id: ID)
    requires CheckMessage(y, own, pending, m) == NeedID(id)
    ensures m.id == MessageHash(m.content)
    ensures (id == m.content.author && id !in y.users) || (id == m.content.parent && id != ZeroID && id !in y.messages)
  {
    hide IsUserBanned, NearStored, NearPending, Covers;
  }

  lemma RemovalIsNeeded(x: Database, y: Database, e: Entity)
    requires Sound(x) && Whole(x, e) && e.OperationEntity? && e.operation.content.typ == RemoveMessage
    ensures e.operation.content.target !in y.messages ==> e.operation.content.target in NeededFor(y, e)
  {
    var t := e.operation.content.target;
    assert t in Ancestors(t);
    ThreadMember(x, t, t);
  }

  /** The answer to a request for something needed is something needed. */
  lemma AnswerIsNeeded(x: Database, y: Database, e: Entity, pending: seq<Entity>, p: Entity)
    requires Sound(x) && Whole(x, e) && Stored(x, p) && OnlyNeeded(y, e, pending)
    requires p == e || NeededID(y, e, p.Id())
    requires p == e && e.MessageEntity? ==> e.Id() !in y.messages
    ensures OnlyNeeded(y, e, pending + [p])
  {
    hide Dependencies, NeededAuthor;
    var id := p.Id();
    KindsOfRows(x, id);
    if p == e {
      if e.MessageEntity? { assert id in NeededMessages(y, id); }
    } else if id in NeededFor(y, e) {
      NeededIsStored(x, y, e, id);
    } else {
      AuthorsAreUsers(x, y, e, id);
    }
    hide NeededFor, Sound, Whole;
  }

  lemma AuthorsAreUsers(x: Database, y: Database, e: Entity, id: ID)
    requires Sound(x) && Whole(x, e) && NeededAuthor(y, e, id)
    ensures id.UserHash? && id in x.users
  {
    hide Dependencies, NeededFor;
    if e.OperationEntity? && e.operation.content.author == id {
      KindsOfRows(x, id);
    } else {
      var a :| a in NeededFor(y, e) && a.MessageHash? && a.message.author == id;
      NeededIsStored(x, y, e, a);
    }
  }

  /** The whole dialogue fetches only what is needed. */
  lemma {:induction false} DialogueFetchesNeeded(
    x: Database, y: Database, own: Owner, e: Entity, pending: seq<Entity>, needed: ID)
    requires Sound(x) && Sound(y) && Whole(x, e) && Solicited(own.subs, e) && Delivered(x, e, pending)
    requires needed in Dependencies(e) && !Arrived(pending, needed) && (pending == [] ==> needed == e.Id())
    requires |pending| < MAX_PENDING_ENTITIES_NUM && OnlyNeeded(y, e, pending)
    requires (needed == e.Id() && !HasEntity(y, needed)) || NeededID(y, e, needed)
    ensures var t := Dialogue(x, y, own, e, pending, needed);
            && t.decision.Some? && t.pending != [] && Delivered(x, e, t.pending) && OnlyNeeded(y, e, t.pending)
            && (Fits(e) ==> t.Settled())
            && t.decision.value == Decide(y, own, t.pending) && !t.decision.value.Request?
    decreases MAX_PENDING_ENTITIES_NUM - |pending|
  {
    hide Sound, ProcessReq, Decide, Delivered, Arrived, Dependencies, Solicited, Whole, Fits, OnlyNeeded, NeededID, HasEntity;
    RequestIsAnswered(x, e, pending, needed);
    var p := ProcessReq(x, e, needed).value;
    var pending' := pending + [p];
    HonestSenderIsNotAccused(x, y, own, e, pending');
    ServedIsNeeded(x, y, e, pending, needed);
    var d := Decide(y, own, pending');
    if d.Request? {
      RequestLeavesRoom(y, own, pending');
      RequestIsNeeded(x, y, own, e, pending');
      DialogueFetchesNeeded(x, y, own, e, pending', d.id);
    }
  }

  lemma ServedIsNeeded(x: Database, y: Database, e: Entity, pending: seq<Entity>, needed: ID)
    requires Sound(x) && Whole(x, e) && OnlyNeeded(y, e, pending) && ProcessReq(x, e, needed).Ok?
    requires ProcessReq(x, e, needed).value.Id() == needed && Stored(x, ProcessReq(x, e, needed).value)
    requires (needed == e.Id() && !HasEntity(y, needed)) || NeededID(y, e, needed)
    ensures OnlyNeeded(y, e, pending + [ProcessReq(x, e, needed).value])
  {
    hide Sound, OnlyNeeded, NeededAuthor, GetEntity, WholeThread;
    if needed == e.Id() && e.MessageEntity? && NeededID(y, e, needed) {
      KindsOfRows(x, needed);
      if needed in NeededFor(y, e) {
        NeededIsStored(x, y, e, needed);
      } else {
        AuthorsAreUsers(x, y, e, needed);
      }
    }
    AnswerIsNeeded(x, y, e, pending, ProcessReq(x, e, needed).value);
  }

  // ---------------------------------------------------------------- what is stored

  /** A message in the buffer is the sender's row, and the author found for it is the author's row. */
  lemma FoundAuthor(x: Database, y: Database, e: Entity, pending: seq<Entity>, id: ID)
    requires Sound(x) && Sound(y) && Delivered(x, e, pending) && OnlyNeeded(y, e, pending)
    requires FindUser(y, pending, id).Some?
    ensures id in x.users || id in y.users
    ensures FindUser(y, pending, id).value == AuthorRow(x, y, id)
  {
    hide Dependencies, NeededFor;
    FindPendingFound(pending, id);
    if PendingUser(pending, id).Some? {
      var p := FindPending(pending, id).value;
      assert Stored(x, p) && NeededAuthor(y, e, id);
    }
    hide Sound;
  }

  lemma FetchedMessage(x: Database, e: Entity, pending: seq<Entity>, id: ID)
    requires Sound(x) && Delivered(x, e, pending) && (exists m | MessageEntity(m) in pending :: m.id == id)
    ensures id in x.messages && MessageEntity(x.messages[id]) in pending
  {
    hide Dependencies;
    var m :| MessageEntity(m) in pending && m.id == id;
    assert Stored(x, MessageEntity(m));
  }

  /** In a buffer that matches, everything needed has arrived. */
  lemma {:induction false} NeededArrived(x: Database, y: Database, e: Entity, pending: seq<Entity>, t: ID, a: ID)
    requires Sound(x) && Delivered(x, e, pending) && BatchClosed(y, pending)
    requires a in NeededMessages(y, t) && exists m | MessageEntity(m) in pending :: m.id == t
    ensures a in x.messages && MessageEntity(x.messages[a]) in pending
    decreases t
  {
    hide Delivered;
    FetchedMessage(x, e, pending, t);
    if a != t {
      var m := x.messages[t];
      assert EntityClosed(y, pending, MessageEntity(m));
      KindsOfRows(x, t);
      hide Sound, BatchClosed;
      NeededArrived(x, y, e, pending, t.message.parent, a);
    }
  }

  lemma AllNeededArrived(x: Database, y: Database, e: Entity, pending: seq<Entity>, a: ID)
    requires Sound(x) && Sound(y) && Whole(x, e) && Delivered(x, e, pending) && BatchClosed(y, pending) && e in pending
    requires a in NeededFor(y, e)
    ensures a in x.messages && MessageEntity(x.messages[a]) in pending
  {
    hide Dependencies, WholeThread;
    if e.OperationEntity? {
      var t := e.operation.content.target;
      RemovalIsNeeded(x, y, e);
      NeededIsStored(x, y, e, t);
      assert EntityClosed(y, pending, e);
      KindsOfRows(y, t);
      var p :| p in pending && p.Id() == t;
      assert Stored(x, p);
      KindsOfRows(x, t);
    }
    NeededArrived(x, y, e, pending, ThreadOf(e), a);
  }

  lemma MatchedMessageIsWelcome(x: Database, y: Database, own: Owner, e: Entity, pending: seq<Entity>, a: ID)
    requires Sound(x) && Sound(y) && Whole(x, e) && Delivered(x, e, pending) && OnlyNeeded(y, e, pending)
    requires BatchClosed(y, pending) && e in pending && a in NeededFor(y, e)
    requires forall p | p in pending :: CheckEntity(y, own, pending, p) == Matched
    ensures a.MessageHash? && Welcome(x, y, own, NeededFor(y, e), a)
  {
    hide Dependencies, NeededFor, BatchClosed, Whole, Delivered, OnlyNeeded, CheckEntity, Authentic;
    NeededIsStored(x, y, e, a);
    AllNeededArrived(x, y, e, pending, a);
    var m := x.messages[a];
    MatchedMessage(y, own, pending, m);
    FoundAuthor(x, y, e, pending, m.content.author);
    FarFromStored(y, m);
    forall b: ID | b in NeededFor(y, e) && b != a && b.MessageHash? && b.message.author == m.content.author
      ensures Abs(b.message.dateWritten - m.content.dateWritten) >= 60 * SECOND
    {
      NeededIsStored(x, y, e, b);
      AllNeededArrived(x, y, e, pending, b);
      FarFromPending(pending, m, x.messages[b]);
    }
    hide Sound, NearStored, NearPending, FindUser, IsUserBanned;
  }

  /** What the check of a message that matches has found. */
  lemma MatchedMessage(y: Database, own: Owner, pending: seq<Entity>, m: Message)
    requires MessageEntity(m) in pending && forall p | p in pending :: CheckEntity(y, own, pending, p) == Matched
    ensures !IsUserBanned(y, own.moderators, m.content.author) && !NearStored(y, m) && !NearPending(pending, m)
    ensures FindUser(y, pending, m.content.author).Some?
    ensures FindUser(y, pending, m.content.author).value.content.regDate <= m.content.dateWritten
  {
    hide IsUserBanned, FindUser, NearStored, NearPending, Covers;
    assert CheckEntity(y, own, pending, MessageEntity(m)) == CheckMessage(y, own, pending, m) == Matched;
  }

  lemma FarFromStored(y: Database, m: Message)
    requires Sound(y) && !NearStored(y, m)
    ensures forall id | id in y.messages && id != m.id && y.messages[id].content.author == m.content.author ::
              Abs(WholeSeconds(y.messages[id].content.dateWritten) - WholeSeconds(m.content.dateWritten)) >= 60
  {
    hide Authentic;
    assert forall id | id in y.messages :: y.messages[id].id == id;
  }

  lemma FarFromPending(pending: seq<Entity>, m: Message, n: Message)
    requires !NearPending(pending, m) && MessageEntity(n) in pending && n.id != m.id && n.content.author == m.content.author
    ensures Abs(n.content.dateWritten - m.content.dateWritten) >= 60 * SECOND
  {
    var i :| 0 <= i < |pending| && pending[i] == MessageEntity(n);
    assert !NearMessage(pending[i], m);
  }

  lemma CommittedIsAcceptable(x: Database, y: Database, own: Owner, e: Entity, pending: seq<Entity>)
    requires Sound(x) && Sound(y) && Whole(x, e) && Delivered(x, e, pending) && OnlyNeeded(y, e, pending)
    requires pending != [] && Decide(y, own, pending) == Commit
    ensures Acceptable(x, y, own, e)
  {
    hide Decide, CheckPending, Welcome, IsUserBanned, NeededFor, Dependencies, Whole, Sound, BatchClosed, Delivered, OnlyNeeded;
    CommitDecided(y, own, pending);
    BatchMatches(y, own, pending);
    MatchedBatchClosed(y, own, pending);
    FirstIsAnnounced(e, pending, x);
    forall a | a in NeededFor(y, e) && a.MessageHash?
      ensures Welcome(x, y, own, NeededFor(y, e), a)
    {
      MatchedMessageIsWelcome(x, y, own, e, pending, a);
    }
    if e.OperationEntity? {
      assert CheckEntity(y, own, pending, e) == CheckOperation(y, own, pending, e.operation) == Matched;
      hide CheckEntity;
      BanTargetIsKnown(x, y, own, e, pending);
    }
  }

  lemma BanTargetIsKnown(x: Database, y: Database, own: Owner, e: Entity, pending: seq<Entity>)
    requires Sound(x) && Whole(x, e) && Delivered(x, e, pending) && OnlyNeeded(y, e, pending)
    requires e.OperationEntity? && CheckOperation(y, own, pending, e.operation) == Matched
    ensures var c := e.operation.content;
            && !IsUserBanned(y, own.moderators, c.author)
            && (c.typ == BanUser ==> c.target == c.author || c.target in y.users || c.target in y.messages || c.target in y.operations)
  {
    hide IsUserBanned, FindUser, Dependencies, Delivered, Sound;
    var c := e.operation.content;
    FindPendingFound(pending, c.target);
    if c.typ == BanUser && !HasEntity(y, c.target) {
      var p := FindPending(pending, c.target).value;
      assert p in pending && p.Id() == c.target;
      assert c.target != e.Id() by { assert e.operation.id == OperationHash(c); }
    }
  }

  /** Nothing in the buffer is a reason to drop it. */
  lemma NoReasonToDrop(x: Database, y: Database, own: Owner, e: Entity, pending: seq<Entity>, p: Entity)
    requires Sound(x) && Sound(y) && Whole(x, e) && Delivered(x, e, pending) && OnlyNeeded(y, e, pending)
    requires Acceptable(x, y, own, e) && p in pending
    ensures var v := CheckEntity(y, own, pending, p); !v.Banned? && !v.BanID? && !v.Skip?
  {
    hide Dependencies, NeededFor, IsUserBanned, Covers, MessageValid, OperationValid, UserValid, WholeThread, Delivered, Sound;
    match p
    case UserEntity(u) =>
      if e.OperationEntity? && e.operation.content.author == u.id {
      } else {
        var a :| a in NeededFor(y, e) && a.MessageHash? && a.message.author == u.id;
        assert Welcome(x, y, own, NeededFor(y, e), a);
      }
    case MessageEntity(m) => WelcomeIsNotDropped(x, y, own, e, pending, m);
    case OperationEntity(o) => OperationIsNotSkipped(x, y, own, e, pending);
  }

  lemma WelcomeIsNotDropped(x: Database, y: Database, own: Owner, e: Entity, pending: seq<Entity>, m: Message)
    requires Sound(x) && Sound(y) && Whole(x, e) && Delivered(x, e, pending) && OnlyNeeded(y, e, pending)
    requires Acceptable(x, y, own, e) && MessageEntity(m) in pending
    ensures var v := CheckMessage(y, own, pending, m); !v.Banned? && !v.BanID? && !v.Skip?
  {
    hide Dependencies, NeededFor, IsUserBanned, Covers, MessageValid, Whole, Delivered, OnlyNeeded, NearStored, NearPending, Sound;
    SenderRow(x, e, pending, m);
    InTheBuffer(y, e, pending, m);
    NeededIsStored(x, y, e, m.id);
    assert Welcome(x, y, own, NeededFor(y, e), m.id);
    WelcomeIsFarFromStored(x, y, own, e, m);
    WelcomeIsFarFromPending(x, y, own, e, pending, m);
    if FindUser(y, pending, m.content.author).Some? {
      FoundAuthor(x, y, e, pending, m.content.author);
    }
    hide Acceptable, FindUser;
  }

  lemma InTheBuffer(y: Database, e: Entity, pending: seq<Entity>, m: Message)
    requires OnlyNeeded(y, e, pending) && MessageEntity(m) in pending
    ensures m.id in NeededFor(y, e)
  {
    hide NeededFor;
  }

  lemma WelcomeIsFarFromStored(x: Database, y: Database, own: Owner, e: Entity, m: Message)
    requires Sound(x) && Sound(y) && m.id.MessageHash? && m.id.message == m.content
    requires Welcome(x, y, own, NeededFor(y, e), m.id)
    ensures !NearStored(y, m)
  {
    hide NeededFor, IsUserBanned, AuthorRow, Authentic;
    assert forall id | id in y.messages :: y.messages[id].id == id;
    hide Sound;
  }

  lemma WelcomeIsFarFromPending(x: Database, y: Database, own: Owner, e: Entity, pending: seq<Entity>, m: Message)
    requires Sound(x) && Sound(y) && Whole(x, e) && Delivered(x, e, pending) && OnlyNeeded(y, e, pending)
    requires m.id.MessageHash? && m.id.message == m.content && Welcome(x, y, own, NeededFor(y, e), m.id)
    ensures !NearPending(pending, m)
  {
    hide NeededFor, IsUserBanned, AuthorRow, Sound, Whole, Delivered, OnlyNeeded;
    if i :| 0 <= i < |pending| && NearMessage(pending[i], m) {
      var n := pending[i].message;
      assert MessageEntity(n) in pending;
      SenderRow(x, e, pending, n);
      InTheBuffer(y, e, pending, n);
      NeededIsStored(x, y, e, n.id);
    }
  }

  lemma SenderRow(x: Database, e: Entity, pending: seq<Entity>, m: Message)
    requires Sound(x) && Delivered(x, e, pending) && MessageEntity(m) in pending
    ensures m.id in x.messages && x.messages[m.id] == m
  {
    hide Dependencies;
    assert Stored(x, MessageEntity(m));
  }

  lemma OperationIsNotSkipped(x: Database, y: Database, own: Owner, e: Entity, pending: seq<Entity>)
    requires Sound(x) && Sound(y) && Whole(x, e) && Acceptable(x, y, own, e)
    requires e.OperationEntity?
    ensures var v := CheckOperation(y, own, pending, e.operation); !v.Banned? && !v.BanID? && !v.Skip?
  {
    hide Dependencies, NeededFor, IsUserBanned, Welcome, WholeThread, Sound;
    FindPendingFound(pending, e.operation.content.target);
  }

  lemma AcceptableIsCommitted(x: Database, y: Database, own: Owner, e: Entity, pending: seq<Entity>)
    requires Sound(x) && Sound(y) && Whole(x, e) && Delivered(x, e, pending) && OnlyNeeded(y, e, pending)
    requires pending != [] && Acceptable(x, y, own, e)
    requires !Decide(y, own, pending).Request? && !Decide(y, own, pending).Accuse?
    ensures Decide(y, own, pending) == Commit
  {
    hide CheckEntity, Acceptable, Dependencies, Whole, Sound, Delivered, OnlyNeeded;
    CheckFromMatched(y, own, pending, 0);
    var v := CheckPending(y, own, pending);
    if v != Matched && !pending[0].UserEntity? {
      var i :| 0 <= i < |pending| && CheckEntity(y, own, pending, pending[i]) == v;
      NoReasonToDrop(x, y, own, e, pending, pending[i]);
    }
  }

  /** Main theorem. Whatever else the two have stored: a receiver decides to store an entity that a sender
      announces, with everything it depends on, exactly if it is acceptable. */
  lemma AcceptedExactly(x: Database, y: Database, own: Owner, e: Entity)
    requires Sound(x) && Sound(y) && Whole(x, e) && Fits(e) && Solicited(own.subs, e) && !HasEntity(y, e.Id())
    ensures var d := Dialogue(x, y, own, e, [], e.Id()).decision;
            && d.Some? && (d.value.Commit? || d.value.Drop?)
            && (d.value.Commit? <==> Acceptable(x, y, own, e))
  {
    hide Sound, Decide, Delivered, Arrived, Dependencies, Solicited, Whole, Fits, HasEntity, Acceptable, Dialogue;
    DeliveredEmpty(x, e);
    DialogueFetchesNeeded(x, y, own, e, [], e.Id());
    var t := Dialogue(x, y, own, e, [], e.Id());
    if t.decision == Some(Commit) {
      CommittedIsAcceptable(x, y, own, e, t.pending);
    } else if Acceptable(x, y, own, e) {
      AcceptableIsCommitted(x, y, own, e, t.pending);
    }
  }

  // ---------------------------------------------------------------- the run of the receiver

  /** The run that is answered by the sender fetches what the dialogue fetches, and ends with its decision. */
  lemma {:induction false} RunFollowsDialogue(
    x: Database, own: Owner, sender: ID, clock: Clock, local: Local, e: Entity, pending: seq<Entity>, needed: ID)
    requires Sound(x) && Sound(local.db) && Whole(x, e) && Solicited(own.subs, e) && Delivered(x, e, pending)
    requires needed in Dependencies(e) && !Arrived(pending, needed) && (pending == [] ==> needed == e.Id())
    requires |pending| < MAX_PENDING_ENTITIES_NUM
    ensures var t := Dialogue(x, local.db, own, e, pending, needed);
            var r := Fetch(own, sender, clock, local, pending, needed, Answers(x, local.db, own, e, pending, needed));
            && t.decision.Some? && !t.decision.value.Request? && t.pending != [] && Delivered(x, e, t.pending)
            && r.pending == t.pending && t.decision.value == Decide(local.db, own, t.pending)
            && (r.local, r.outcome) == Finish(own, sender, clock, local, t.pending, t.decision.value)
    decreases MAX_PENDING_ENTITIES_NUM - |pending|
  {
    hide Sound, ProcessReq, Decide, Finish, Delivered, Arrived, Dependencies, Solicited, Whole, Fits, HasEntity;
    RequestIsAnswered(x, e, pending, needed);
    var p := ProcessReq(x, e, needed).value;
    var pending' := pending + [p];
    HonestSenderIsNotAccused(x, local.db, own, e, pending');
    var d := Decide(local.db, own, pending');
    var inbox := Answers(x, local.db, own, e, pending, needed);
    assert inbox[0] == Packet(EntityPayload(p), true);
    if d.Request? {
      RequestLeavesRoom(local.db, own, pending');
      RunFollowsDialogue(x, own, sender, clock, local, e, pending', d.id);
      assert inbox[1..] == Answers(x, local.db, own, e, pending', d.id);
    }
  }

  /** The whole run: what is acceptable is stored together with everything it depends on, except that an
      operation whose object is not stored before halts the receiver; anything else is acknowledged and
      leaves at most a ban behind. */
  lemma HonestExchangeStoresExactly(x: Database, own: Owner, sender: ID, clock: Clock, local: Local, e: Entity)
    requires Sound(x) && Good(local.db) && own.Self() in local.db.users
    requires Whole(x, e) && Fits(e) && Solicited(own.subs, e) && !HasEntity(local.db, e.Id())
    ensures var y := local.db;
            var r := Receive(own, sender, clock, local, Packet(AnnouncePayload(e.Id()), true), AllAnswers(x, y, own, e));
            if !Acceptable(x, y, own, e) then
              r.outcome == Acked && (r.local.db == y || exists id :: r.local.db == PutOperation(y, BanOperation(own, clock.first, id)).db)
            else if e.OperationEntity? && !TargetStored(y, e.operation) then r.outcome == Fatal
            else
              && r.outcome == Acked && r.local.lastOper == local.lastOper && Good(r.local.db)
              && Stored(r.local.db, e) && (e.OperationEntity? ==> Linked(r.local.db, e.Id()))
              && forall id | id in Dependencies(e) :: HasEntity(r.local.db, id)
  {
    hide Dependencies, Fetch, Sound, Closed, Readable, TagsMatch, Solicited, Acceptable, Dialogue, Decide, CheckPending, Arrived;
    hide Whole, Fits, PutAll, Stored, Delivered;
    var y := local.db;
    var r := Receive(own, sender, clock, local, Packet(AnnouncePayload(e.Id()), true), AllAnswers(x, y, own, e));
    DeliveredEmpty(x, e);
    RunFollowsDialogue(x, own, sender, clock, local, e, [], e.Id());
    AcceptedExactly(x, y, own, e);
    HonestExchangeEnds(x, own, sender, clock, local, e);
    hide HasEntity;
    if !Acceptable(x, y, own, e) {
      DropLeavesABan(own, sender, clock, local, r.pending, Decide(y, own, r.pending));
      RejectedIsNotMatched(y, own, r.pending);
    } else {
      CommitDecided(y, own, r.pending);
      if r.outcome == Acked {
        StoredWithClosure(x, own, local, e, r);
      }
    }
  }

  lemma RejectedIsNotMatched(db: Database, own: Owner, pending: seq<Entity>)
    requires pending != [] && Decide(db, own, pending).Drop?
    ensures CheckPending(db, own, pending) != Matched
  {
    hide CheckPending;
  }

  lemma DropLeavesABan(own: Owner, sender: ID, clock: Clock, local: Local, pending: seq<Entity>, d: Decision)
    requires d.Drop?
    ensures var db := Finish(own, sender, clock, local, pending, d).0.db;
            db == local.db || exists id :: db == PutOperation(local.db, BanOperation(own, clock.first, id)).db
  {
    hide PutOperation;
  }

  lemma StoredWithClosure(x: Database, own: Owner, local: Local, e: Entity, r: Receiving.Run)
    requires Sound(x) && Whole(x, e) && Delivered(x, e, r.pending) && r.pending != [] && Good(r.local.db)
    requires r.local == local.(db := PutAll(local.db, r.pending).db) && PutAll(local.db, r.pending).ok
    ensures Stored(r.local.db, e) && (e.OperationEntity? ==> Linked(r.local.db, e.Id()))
    ensures forall id | id in Dependencies(e) :: HasEntity(r.local.db, id)
  {
    hide Dependencies, PutAll, Stored, Whole, WholeThread, Closed, Readable, TagsMatch, Authentic;
    var y' := r.local.db;
    FirstIsAnnounced(e, r.pending, x);
    PutAllEffect(local.db, r.pending);
    CommittedObjectsStored(local.db, r.pending);
    assert Genuine(e) by { DeliveredAuthentic(x, e, r.pending); WholeIsNoUser(x, e); }
    hide Delivered;
    assert HasEntity(y', e.Id());
    IdIsContents(y', e);
    GoodIsWhole(y', e);
    forall id | id in Dependencies(e)
      ensures HasEntity(y', id)
    {
      ClosureFacts(y', e, id);
    }
    if e.OperationEntity? {
      FirstIsLinked(local.db, r.pending, e.operation);
    }
  }

  lemma WholeIsNoUser(x: Database, e: Entity)
    requires Whole(x, e)
    ensures !e.UserEntity?
  {
    hide WholeThread;
  }

  lemma FirstIsLinked(db: Database, batch: seq<Entity>, o: Operation)
    requires batch != [] && batch[0] == OperationEntity(o) && PutAll(db, batch).ok
    ensures Linked(PutAll(db, batch).db, o.id)
  {
    var first := PutOperation(db, o).db;
    assert (o.id, o.content.target) in first.userLinks || (o.id, o.content.target) in first.messageLinks;
    PutAllEffect(first, batch[1..]);
    hide PutEntity;
    var db' := PutAll(db, batch).db;
    assert (o.id, o.content.target) in db'.userLinks || (o.id, o.content.target) in db'.messageLinks;
  }

  // ---------------------------------------------------------------- what is served

  /** A request is answered with the entity it names exactly if this entity is stored and can be read: a
      message with a valid topic, an operation that is linked to its object. */
  lemma ServedExactly(db: Database, e: Entity)
    requires Sound(db) && Authentic(e)
    ensures GetEntity(db, e.Id()) == Ok(e) <==>
              Stored(db, e) &&
              match e
              case UserEntity(_) => true
              case MessageEntity(m) => m.content.topic.IsValid()
              case OperationEntity(o) => Linked(db, o.id)
  {
    KindsOfRows(db, e.Id());
    hide Sound;
  }

  // ---------------------------------------------------------------- a single announced entity

  /** A known entity is acknowledged at once, and only a known one. */
  lemma KnownIsAcknowledgedAtOnce(own: Owner, sender: ID, clock: Clock, local: Local, e: Entity, inbox: seq<Packet>)
    requires Sound(local.db) && Genuine(e)
    ensures var r := Receive(own, sender, clock, local, Packet(AnnouncePayload(e.Id()), true), inbox);
            if Stored(local.db, e) then r.sent == [AckPayload] && r.local == local && r.rest == inbox && r.outcome == Acked
            else r.sent != [] && r.sent[0] == ReqPayload(e.Id())
  {
    hide Decide, Finish, Authentic;
    if HasEntity(local.db, e.Id()) {
      IdIsContents(local.db, e);
    }
  }

  /** Nothing is answered to a packet that is not an authentic announcement, and nothing else is left
      unanswered. */
  lemma OnlyAnnouncementsAreAnswered(own: Owner, sender: ID, clock: Clock, local: Local, initial: Packet, inbox: seq<Packet>)
    ensures var r := Receive(own, sender, clock, local, initial, inbox);
            if initial.authentic && initial.payload.AnnouncePayload? then r.sent != []
            else r == Run(local, [], inbox, [], Violation)
  {
    hide Decide, Finish;
  }

  /** An answer that is not authentic, or not the entity that was requested, ends the run at once; nothing is
      stored and nobody is banned. */
  lemma WrongAnswerEndsTheRun(own: Owner, sender: ID, clock: Clock, local: Local, id: ID, answer: Packet, rest: seq<Packet>)
    requires !HasEntity(local.db, id)
    requires !answer.authentic || !answer.payload.EntityPayload? || answer.payload.entity.Id() != id
    ensures Receive(own, sender, clock, local, Packet(AnnouncePayload(id), true), [answer] + rest) ==
            Run(local, [ReqPayload(id)], rest, [], Violation)
  {
    hide Decide, Finish, HasEntity;
    assert ([answer] + rest)[1..] == rest;
  }

  /** An operation whose author is known: the decision. A removal of an unknown message is not dropped, the
      message is asked for. */
  lemma ReceivedOperationIsAcceptedExactly(db: Database, own: Owner, o: Operation)
    requires Sound(db) && Authentic(OperationEntity(o)) && o.content.author in db.users
    ensures var banned, known := IsUserBanned(db, own.moderators, o.content.author),
              o.content.target in db.users || o.content.target in db.messages || o.content.target in db.operations;
            && (CheckPending(db, own, [OperationEntity(o)]) == Matched <==> !banned && known)
            && (Decide(db, own, [OperationEntity(o)]) == Commit <==> !banned && known)
            && (Decide(db, own, [OperationEntity(o)]) == Drop(None) <==> banned || (!known && o.content.typ == BanUser))
            && (Decide(db, own, [OperationEntity(o)]) == Request(o.content.target) <==>
                  !banned && !known && o.content.typ == RemoveMessage)
  {
    hide IsUserBanned, UserValid;
    var e := OperationEntity(o);
    assert [e][1..] == [];
    FindPendingFound([e], o.content.author);
    FindPendingFound([e], o.content.target);
    AuthorKey(db, o.content.author);
    assert o.id == OperationHash(o.content) && o.id != o.content.author && o.id != o.content.target;
    assert FindPending([e], o.content.author) == None && FindPending([e], o.content.target) == None;
    assert CheckFrom(db, own, [e], 1) == Matched;
    assert CheckEntity(db, own, [e], [e][0]) == CheckOperation(db, own, [e], o);
  }

  /** The run: the operation is requested and then stored and linked, or the receiver halts because the
      object is not what the operation asks for, or it is dropped. */
  lemma ReceivedOperationIsStoredExactly(
    own: Owner, sender: ID, clock: Clock, local: Local, o: Operation, rest: seq<Packet>)
    requires Sound(local.db) && Authentic(OperationEntity(o)) && o.content.author in local.db.users
    requires !HasEntity(local.db, o.id)
    requires HasEntity(local.db, o.content.target) || o.content.typ == BanUser
    ensures var db := local.db;
            var r := Receive(own, sender, clock, local, Packet(AnnouncePayload(o.id), true),
                             [Packet(EntityPayload(OperationEntity(o)), true)] + rest);
            var banned := IsUserBanned(db, own.moderators, o.content.author);
            && r.rest == rest && r.local.lastOper == local.lastOper
            && (if banned || !HasEntity(db, o.content.target) then
                  r.outcome == Acked && r.local.db == db && r.sent == [ReqPayload(o.id), AckPayload]
                else if !TargetStored(db, o) then r.outcome == Fatal
                else
                  && r.outcome == Acked && r.sent == [ReqPayload(o.id), AckPayload]
                  && Stored(r.local.db, OperationEntity(o))
                  && (o.id, o.content.target) in (if o.content.typ == BanUser then r.local.db.userLinks else r.local.db.messageLinks)
                  && r.local.db == PutOperation(db, o).db)
  {
    hide IsUserBanned, Decide, Authentic, Sound;
    var e, db := OperationEntity(o), local.db;
    ReceivedOperationIsAcceptedExactly(db, own, o);
    assert [] + [e] == [e] && [e][1..] == [];
    assert ([Packet(EntityPayload(e), true)] + rest)[1..] == rest;
    assert PutAll(PutEntity(db, e).db, [e][1..]) == PutResult(PutEntity(db, e).db, true);
    assert o.content.typ != OtherType by { assert OperationValid(o) by { OperationIsValid(o); } }
  }

  lemma OperationIsValid(o: Operation)
    requires Authentic(OperationEntity(o))
    ensures OperationValid(o)
  {
  }

  /** What it is for: a moderator's ban that is received takes effect on its user and on nobody else. */
  lemma ReceivedBanBansExactly(
    own: Owner, sender: ID, clock: Clock, local: Local, o: Operation, rest: seq<Packet>, user: ID)
    requires Sound(local.db) && LinksTyped(local.db) && Authentic(OperationEntity(o)) && o.content.author in local.db.users
    requires !HasEntity(local.db, o.id) && o.content.typ == BanUser
    requires !IsUserBanned(local.db, own.moderators, o.content.author) && o.content.target in local.db.users
    ensures var r := Receive(own, sender, clock, local, Packet(AnnouncePayload(o.id), true),
                             [Packet(EntityPayload(OperationEntity(o)), true)] + rest);
            IsUserBanned(r.local.db, own.moderators, user) <==>
              || IsUserBanned(local.db, own.moderators, user)
              || (user == o.content.target && o.content.author in own.moderators)
  {
    hide IsUserBanned, Authentic, Sound, LinksTyped, Receive;
    ReceivedOperationIsStoredExactly(own, sender, clock, local, o, rest);
    StoringJudgesExactly(local.db, OperationEntity(o), own.moderators, user);
  }

  /** A ban made here bans its stored target and nobody else, if it is due and the owner is among the
      moderators. */
  lemma BanBansExactly(own: Owner, now: Time, local: Local, target: ID, user: ID)
    requires Sound(local.db) && LinksTyped(local.db) && own.Self() in own.moderators
    ensures IsUserBanned(Ban(own, now, local, target).local.db, own.moderators, user) <==>
              || IsUserBanned(local.db, own.moderators, user)
              || (Due(local, now) && user == target && target in local.db.users)
  {
    hide IsUserBanned, LinksTyped;
    var o := BanOperation(own, now, target);
    BanIsValid(own, now, target);
    if target == ZeroID {
      KindsOfRows(local.db, target);
    } else {
      assert Authentic(OperationEntity(o));
      StoringJudgesExactly(local.db, OperationEntity(o), own.moderators, user);
    }
    hide Sound;
  }

  /** What is asked for after the announced entity itself: first its author, unless that is banned or known;
      then, of a reply with nothing against it, the parent. */
  lemma NextRequestExactly(db: Database, own: Owner, e: Entity)
    requires Sound(db) && Authentic(e) && !e.UserEntity?
    ensures var author := Author(e).value;
            && (author !in db.users ==>
                  Decide(db, own, [e]) == if IsUserBanned(db, own.moderators, author) then Drop(None) else Request(author))
            && (author in db.users && e.MessageEntity? ==>
                  var c := e.message.content;
                  (Decide(db, own, [e]).Request? <==>
                    && !IsUserBanned(db, own.moderators, author)
                    && db.users[author].content.regDate <= c.dateWritten && !NearStored(db, e.message)
                    && c.parent != ZeroID && c.parent !in db.messages)
                  && (Decide(db, own, [e]).Request? ==> Decide(db, own, [e]) == Request(c.parent)))
  {
    hide IsUserBanned, Covers, NearStored, UserValid;
    var author := Author(e).value;
    assert [e][1..] == [] && [e][0] == e;
    FindPendingFound([e], author);
    assert FindPending([e], author) == None;
    if author in db.users { AuthorKey(db, author); }
    NotNearItself(e);
    if e.MessageEntity? {
      Commits.ParentIsOther(e.message);
      FindPendingFound([e], e.message.content.parent);
    }
    assert CheckFrom(db, own, [e], 1) == Matched;
    hide Sound, FindUser;
  }

  /** A message that its known author wrote before registering, or within a minute of another stored one, is
      what makes the receiver drop it and ban the author. */
  lemma AuthorIsBannedExactly(db: Database, own: Owner, m: Message)
    requires Sound(db) && Authentic(MessageEntity(m)) && m.content.author in db.users
    ensures Decide(db, own, [MessageEntity(m)]) == Drop(Some(m.content.author)) <==>
              && !IsUserBanned(db, own.moderators, m.content.author)
              && (|| db.users[m.content.author].content.regDate > m.content.dateWritten
                  || exists id | id in db.messages && id != m.id ::
                       && db.messages[id].content.author == m.content.author
                       && Abs(WholeSeconds(db.messages[id].content.dateWritten) - WholeSeconds(m.content.dateWritten)) < 60)
  {
    hide IsUserBanned, Covers, UserValid;
    var e := MessageEntity(m);
    assert [e][1..] == [] && [e][0] == e;
    AuthorKey(db, m.content.author);
    FindPendingFound([e], m.content.author);
    assert FindPending([e], m.content.author) == None;
    NotNearItself(e);
    assert CheckFrom(db, own, [e], 1) == Matched;
    assert forall id | id in db.messages :: db.messages[id].id == id;
    hide Sound, FindUser;
  }

  // ---------------------------------------------------------------- accusations

  predicate Malformed(e: Entity) {
    match e
    case UserEntity(u) => !UserValid(u)
    case MessageEntity(m) => !MessageValid(m)
    case OperationEntity(o) => !OperationValid(o)
  }

  /** Not signed by the author it names. */
  predicate Forged(e: Entity) {
    match e
    case UserEntity(_) => false
    case MessageEntity(m) => m.content.author != UserHash(m.signedBy)
    case OperationEntity(o) => o.content.author != UserHash(o.signedBy)
  }

  /** The root of a thread that the owner's subscriptions do not cover, with nothing else against it. */
  predicate Unsolicited(db: Database, own: Owner, e: Entity) {
    e.MessageEntity? && !IsReply(e.message) && !Covers(own.subs, e.message.content.topic) &&
    e.message.content.author in db.users &&
    db.users[e.message.content.author].content.regDate <= e.message.content.dateWritten && !NearStored(db, e.message)
  }

  /** When an announced entity makes the receiver accuse its sender at once: users are not announced, and an
      entity of a known author must be well formed, and unless the author is banned, signed by it and not
      unsolicited. */
  lemma AnnouncedIsAccusedExactly(db: Database, own: Owner, e: Entity)
    requires Sound(db) && (!e.UserEntity? ==> Author(e).value in db.users)
    ensures Decide(db, own, [e]).Accuse? <==>
              || e.UserEntity? || Malformed(e)
              || (!IsUserBanned(db, own.moderators, Author(e).value) && (Forged(e) || Unsolicited(db, own, e)))
    ensures Decide(db, own, [e]).Accuse? ==> Decide(db, own, [e]) == Accuse(None)
  {
    hide IsUserBanned, Covers, NearStored, UserValid;
    assert [e][1..] == [] && [e][0] == e;
    if !e.UserEntity? {
      var author := Author(e).value;
      AuthorKey(db, author);
      FindPendingFound([e], author);
      if !Malformed(e) {
        assert FindPending([e], author) == None;
        NotNearItself(e);
      }
      assert CheckFrom(db, own, [e], 1) == Matched;
    }
    hide Sound, FindUser;
  }

  lemma NotNearItself(e: Entity)
    ensures e.MessageEntity? ==> !NearPending([e], e.message)
  {
  }

  /** And so does an answer that is malformed, or forged with its author known, if all before it is in order. */
  lemma BadAnswerIsAccused(db: Database, own: Owner, pending: seq<Entity>, k: nat)
    requires k < |pending| && !pending[0].UserEntity?
    requires forall i | 0 <= i < k :: CheckEntity(db, own, pending, pending[i]) == Matched
    requires || Malformed(pending[k])
             || (Forged(pending[k]) && var author := Author(pending[k]).value;
                 && !IsUserBanned(db, own.moderators, author)
                 && FindUser(db, pending, author).Some? && UserValid(FindUser(db, pending, author).value)
                 && FindUser(db, pending, author).value.id == author)
    ensures Decide(db, own, pending) == Accuse(None)
  {
    assert CheckEntity(db, own, pending, pending[k]) == BanSender by {
      hide FindUser, IsUserBanned, Covers, NearStored, NearPending;
    }
    hide CheckEntity, IsUserBanned, FindUser, Malformed;
    FirstUnmatched(db, own, pending, 0, k);
  }

  lemma {:induction false} FirstUnmatched(db: Database, own: Owner, pending: seq<Entity>, from: nat, k: nat)
    requires from <= k < |pending|
    requires forall i | 0 <= i < k :: CheckEntity(db, own, pending, pending[i]) == Matched
    requires CheckEntity(db, own, pending, pending[k]) != Matched
    ensures CheckFrom(db, own, pending, from) == CheckEntity(db, own, pending, pending[k])
    decreases k - from
  {
    hide CheckEntity;
    if from < k {
      FirstUnmatched(db, own, pending, from + 1, k);
    }
  }

  /** The run that ends so: nothing is acknowledged or stored but the ban of the sender. */
  lemma AccusedRunBansSender(own: Owner, sender: ID, clock: Clock, local: Local, e: Entity, rest: seq<Packet>)
    requires Sound(local.db) && (!e.UserEntity? ==> Author(e).value in local.db.users) && !HasEntity(local.db, e.Id())
    requires e.UserEntity? || Malformed(e) || (!IsUserBanned(local.db, own.moderators, Author(e).value) && (Forged(e) || Unsolicited(local.db, own, e)))
    requires sender != ZeroID
    ensures var r := Receive(own, sender, clock, local, Packet(AnnouncePayload(e.Id()), true), [Packet(EntityPayload(e), true)] + rest);
            && r.outcome == Accused && r.sent == [ReqPayload(e.Id())] && r.rest == rest
            && r.local == Ban(own, clock.first, local, sender).local
  {
    hide Decide, Sound, Malformed, Forged, Unsolicited, HasEntity, IsUserBanned, PutOperation;
    AnnouncedIsAccusedExactly(local.db, own, e);
    BanIsValid(own, clock.first, sender);
    assert [] + [e] == [e];
    assert ([Packet(EntityPayload(e), true)] + rest)[1..] == rest;
  }
}
