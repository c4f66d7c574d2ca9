/** The exchange with an honest sender: one that announces only what the interest filter lets through
    and has stored everything the announced entity depends on. Of both databases no more than
    soundness is required, so other writers may be in the middle of a commit. */
module HonestExchange {
  import opened Topics
  import opened Subscriptions
  import opened Entities
  import opened Databases
  import opened Views
  import opened Receiving
  import opened ReceivingRuns
  import opened Sending

  /** What observers and the sync lists hand over: stored messages and linked operations. */
  ghost predicate Announceable(x: Database, e: Entity) {
    Stored(x, e) &&
    match e
    case UserEntity(_) => false
    case MessageEntity(_) => true
    case OperationEntity(o) => TargetStored(x, o)
  }

  /** The thread of the message can be read up to its root, and its authors are stored. */
  ghost predicate WholeThread(x: Database, id: ID) {
    forall a | a in Ancestors(id) :: GetMessage(x, a).Ok? && x.messages[a].content.author in x.users
  }

  /** What an honest sender makes sure of before it announces, first: whatever the entity depends on is
      stored and can be read. */
  ghost predicate Whole(x: Database, e: Entity) {
    Announceable(x, e) &&
    match e
    case UserEntity(_) => false
    case MessageEntity(m) => WholeThread(x, m.id)
    case OperationEntity(o) =>
      o.content.author in x.users && (o.content.typ == RemoveMessage ==> WholeThread(x, o.content.target))
  }

  /** And second: it fits into the receiver's buffer. This depends on no database. */
  ghost predicate Fits(e: Entity) {
    |Dependencies(e)| <= MAX_PENDING_ENTITIES_NUM
  }

  /** The receiver's subscriptions cover the thread the entity belongs to. */
  ghost predicate Solicited(subs: Subs, e: Entity) {
    match e
    case UserEntity(_) => false
    case MessageEntity(m) => Covers(subs, RootTopic(m.id))
    case OperationEntity(o) => o.content.typ == RemoveMessage ==> Covers(subs, RootTopic(o.content.target))
  }

  /** A buffer filled by the sender: each entity once, all of them from the closure of the announced
      one, which comes first. */
  ghost predicate Delivered(x: Database, e: Entity, pending: seq<Entity>) {
    && (forall i | 0 <= i < |pending| :: Stored(x, pending[i]) && pending[i].Id() in Dependencies(e))
    && (forall i, j | 0 <= i < j < |pending| :: pending[i].Id() != pending[j].Id())
    && (pending != [] ==> pending[0] == e)
  }

  ghost predicate Arrived(pending: seq<Entity>, id: ID) {
    exists i | 0 <= i < |pending| :: pending[i].Id() == id
  }

  // ---------------------------------------------------------------- whole entities

  /** In a good database every announceable entity is whole. */
  lemma GoodIsWhole(x: Database, e: Entity)
    requires Good(x) && Announceable(x, e)
    ensures Whole(x, e)
  {
    hide Authentic;
    match e
    case UserEntity(_) =>
    case MessageEntity(m) => GoodThread(x, m.id);
    case OperationEntity(o) =>
      if o.content.typ == RemoveMessage { GoodThread(x, o.content.target); }
  }

  lemma {:induction false} GoodThread(x: Database, id: ID)
    requires Good(x) && id in x.messages
    ensures WholeThread(x, id)
    decreases id
  {
    var m := x.messages[id];
    assert Authentic(MessageEntity(m)) && MessageClosed(x, m);
    if IsReply(m) {
      GoodThread(x, m.content.parent);
    }
  }

  /** A thread stays whole when the database grows. */
  lemma GrowthKeepsWhole(x: Database, x': Database, e: Entity)
    requires Extends(x, x') && Whole(x, e)
    ensures Whole(x', e)
  {
    hide Ancestors, Depth;
  }

  /** What is known of each message of a whole thread. */
  lemma ThreadMember(x: Database, id: ID, a: ID)
    requires Sound(x) && WholeThread(x, id) && a in Ancestors(id)
    ensures a in x.messages && a == MessageHash(x.messages[a].content) && x.messages[a].content.topic.IsValid()
    ensures a.message.author.UserHash? && a.message.author in x.users
    ensures a.message.parent != ZeroID ==> a.message.parent in Ancestors(id)
    ensures RootTopic(a) == RootTopic(id)
  {
    AncestorsOfAncestor(id, a);
    KindsOfRows(x, a);
    KindsOfRows(x, x.messages[a].content.author);
  }

  /** Everything in the closure of a whole entity is stored in the table of its kind, and the closure
      is closed under the author and the parent of each of its messages; all of them are in one thread. */
  lemma ClosureFacts(x: Database, e: Entity, id: ID)
    requires Sound(x) && Whole(x, e) && id in Dependencies(e)
    ensures || (e.OperationEntity? && id == e.Id())
            || (id.UserHash? && id in x.users)
            || (id.MessageHash? && id in x.messages && GetMessage(x, id).Ok?
                && id.message.author in Dependencies(e) && id.message.author.UserHash?
                && (id.message.parent == ZeroID
                    || (id.message.parent in Dependencies(e) && id.message.parent.MessageHash?))
                && (e.MessageEntity? || e.operation.content.typ == RemoveMessage)
                && RootTopic(id) == RootTopic(ThreadOf(e)))
    ensures e.OperationEntity? ==> e.operation.content.author in Dependencies(e)
    ensures e.OperationEntity? && e.operation.content.typ == RemoveMessage ==>
              e.operation.content.target in Dependencies(e)
  {
    hide WholeThread, Authentic, Sound;
    if e.OperationEntity? {
      KindsOfRows(x, e.operation.content.author);
    }
    if e.MessageEntity? || e.operation.content.typ == RemoveMessage {
      var t := ThreadOf(e);
      ChainMembers(t, t);
      assert t in Ancestors(t);
      if id in Chain(t) {
        ThreadClosure(x, t, id);
      }
    }
  }

  lemma ThreadClosure(x: Database, t: ID, id: ID)
    requires Sound(x) && WholeThread(x, t) && id in Chain(t)
    ensures || (id.UserHash? && id in x.users)
            || (id.MessageHash? && id in x.messages && GetMessage(x, id).Ok?
                && id.message.author in Chain(t) && id.message.author.UserHash?
                && (id.message.parent == ZeroID || (id.message.parent in Chain(t) && id.message.parent.MessageHash?))
                && RootTopic(id) == RootTopic(t))
  {
    hide Chain, Authentic;
    ChainMembers(t, id);
    if id in Ancestors(t) {
      ThreadMember(x, t, id);
      ChainMembers(t, id.message.author);
      ChainMembers(t, id.message.parent);
      if id.message.parent != ZeroID {
        ThreadMember(x, t, id.message.parent);
      }
    } else {
      var a :| a in Ancestors(t) && a.MessageHash? && a.message.author == id;
      ThreadMember(x, t, a);
    }
  }

  ghost function ThreadOf(e: Entity): ID {
    match e
    case UserEntity(u) => u.id
    case MessageEntity(m) => m.id
    case OperationEntity(o) => o.content.target
  }

  // ---------------------------------------------------------------- the interest filter

  /** The sender's filter agrees with the receiver's notion of what it asked for, and never halts. */
  lemma InterestIsSolicited(x: Database, peerSubs: Subs, hist: Option<History>, e: Entity, stored: Time)
    requires Sound(x) && Whole(x, e)
    ensures InterestedInEntity(x, peerSubs, hist, e, stored) == Some(Interest(peerSubs, hist, e, stored))
    ensures Interest(peerSubs, hist, e, stored) ==> Solicited(peerSubs, e)
  {
    hide Sound, InterestedInMessage, Covers, DiffOf, WholeThread;
    var subs := RelevantSubs(peerSubs, hist, stored);
    match e
    case MessageEntity(m) => MessageInterestIsSolicited(x, peerSubs, hist, m, stored);
    case OperationEntity(o) =>
      if o.content.typ == RemoveMessage {
        RemovedMessageIsStored(x, o.content.target);
        MessageInterestIsSolicited(x, peerSubs, hist, x.messages[o.content.target], stored);
      }
  }

  /** The answer of the filter for a whole entity: it depends on no database. */
  predicate Interest(peerSubs: Subs, hist: Option<History>, e: Entity, stored: Time) {
    var subs := RelevantSubs(peerSubs, hist, stored);
    subs != [] &&
    match e
    case UserEntity(_) => false
    case MessageEntity(m) => Covers(subs, RootTopic(m.id))
    case OperationEntity(o) => o.content.typ == BanUser || Covers(subs, RootTopic(o.content.target))
  }

  lemma RemovedMessageIsStored(x: Database, id: ID)
    requires Sound(x) && WholeThread(x, id)
    ensures id in x.messages && x.messages[id].id == id && GetMessage(x, id) == Ok(x.messages[id])
  {
    assert id in Ancestors(id);
  }

  lemma MessageInterestIsSolicited(x: Database, peerSubs: Subs, hist: Option<History>, m: Message, stored: Time)
    requires Sound(x) && WholeThread(x, m.id) && m.id in x.messages && x.messages[m.id] == m
    ensures var subs := RelevantSubs(peerSubs, hist, stored);
            && InterestedInMessage(x, subs, m) == Some(Covers(subs, RootTopic(m.id)))
            && (Covers(subs, RootTopic(m.id)) ==> Covers(peerSubs, RootTopic(m.id)))
  {
    hide Sound, InterestedInMessage, Covers, DiffOf;
    MessageInterest(x, RelevantSubs(peerSubs, hist, stored), m);
    if hist.Some? && Covers(DiffOf(peerSubs, hist.value.subs), RootTopic(m.id)) {
      DiffCoversNoMore(peerSubs, hist.value.subs, RootTopic(m.id));
    }
  }

  lemma MessageInterest(x: Database, subs: Subs, m: Message)
    requires Sound(x) && m.id in x.messages && x.messages[m.id] == m
    ensures InterestedInMessage(x, subs, m) != None ==> InterestedInMessage(x, subs, m) == Some(Covers(subs, RootTopic(m.id)))
    ensures WholeThread(x, m.id) ==> InterestedInMessage(x, subs, m) != None
  {
    assert Authentic(MessageEntity(m));
    GetRootExactly(x, m);
    if IsReply(m) {
      assert m.content.parent in Ancestors(m.content.parent) && Ancestors(m.content.parent) <= Ancestors(m.id);
    }
  }

  /** Whatever of the thread is stored, the filter gives no other answer; it may only halt. */
  lemma InterestOrHalt(x: Database, peerSubs: Subs, hist: Option<History>, e: Entity, stored: Time)
    requires Sound(x) && Announceable(x, e)
    ensures var answer := InterestedInEntity(x, peerSubs, hist, e, stored);
            answer == None || answer == Some(Interest(peerSubs, hist, e, stored))
  {
    var subs := RelevantSubs(peerSubs, hist, stored);
    match e
    case UserEntity(_) =>
    case MessageEntity(m) =>
      MessageInterest(x, subs, m);
    case OperationEntity(o) =>
      if o.content.typ == RemoveMessage && GetMessage(x, o.content.target).Ok? {
        var m := x.messages[o.content.target];
        assert Authentic(MessageEntity(m)) && m.id == o.content.target by { hide Covers, RelevantSubs; }
        MessageInterest(x, subs, m);
      }
      hide Sound, Covers, RelevantSubs;
  }

  // ---------------------------------------------------------------- tables and the size of the closure

  /** Which table an identifier can be in shows in the identifier. */
  lemma KindsOfRows(x: Database, id: ID)
    requires Sound(x)
    ensures id in x.users ==> id.UserHash?
    ensures id in x.messages ==> id.MessageHash? && id.message == x.messages[id].content
    ensures id in x.operations ==> id.OperationHash?
  {
    if id in x.users { assert Authentic(UserEntity(x.users[id])); }
    if id in x.messages { assert Authentic(MessageEntity(x.messages[id])); }
    if id in x.operations { assert Authentic(OperationEntity(x.operations[id])); }
  }

  /** The buffer bound is what threads within the depth limit need: 1 + (1024 + 1) + (1024 + 2) entities. */
  lemma ClosureSize(e: Entity)
    requires !e.UserEntity? && Depth(ThreadOf(e)) <= MAX_MESSAGE_DEPTH
    ensures Fits(e)
  {
    if e.MessageEntity? {
      ChainSize(e.Id());
    } else {
      var own := {e.Id(), e.operation.content.author};
      assert |own| <= 2;
      if e.operation.content.typ == RemoveMessage {
        ChainSize(e.operation.content.target);
        assert |own + Chain(e.operation.content.target)| <= |own| + |Chain(e.operation.content.target)|;
      } else {
        assert Dependencies(e) == own;
      }
    }
  }

  /** Different members of a set cannot outnumber it. */
  lemma {:induction false} DistinctFit(pending: seq<Entity>, ids: set<ID>)
    requires forall i | 0 <= i < |pending| :: pending[i].Id() in ids
    requires forall i, j | 0 <= i < j < |pending| :: pending[i].Id() != pending[j].Id()
    ensures |pending| <= |ids|
    decreases pending
  {
    if pending != [] {
      var last := |pending| - 1;
      DistinctFit(pending[..last], ids - {pending[last].Id()});
    }
  }

  // ---------------------------------------------------------------- what the receiver can conclude

  /** A user or message of the closure that has arrived is found as such. */
  lemma LookupWhole(x: Database, e: Entity, pending: seq<Entity>, id: ID)
    requires Sound(x) && Delivered(x, e, pending)
    ensures id.UserHash? && PendingUser(pending, id).None? ==> !Arrived(pending, id)
    ensures id.MessageHash? && PendingMessage(pending, id).None? ==> !Arrived(pending, id)
    ensures PendingUser(pending, id).Some? ==> UserValid(PendingUser(pending, id).value)
    ensures PendingUser(pending, id).Some? ==> PendingUser(pending, id).value.id == id
  {
    FindPendingFound(pending, id);
    if FindPending(pending, id).Some? {
      var p := FindPending(pending, id).value;
      assert Stored(x, p);
      KindsOfRows(x, id);
      if p.UserEntity? { assert Authentic(UserEntity(x.users[id])); }
    }
  }

  /** The author's key found by the receiver is the key the message was signed with. */
  lemma KeyIsKnown(x: Database, y: Database, e: Entity, pending: seq<Entity>, key: Key)
    requires Sound(x) && Sound(y) && Delivered(x, e, pending)
    ensures FindUser(y, pending, UserHash(key)).Some? ==>
              FindUser(y, pending, UserHash(key)).value.content.key == key &&
              FindUser(y, pending, UserHash(key)).value.id == UserHash(key)
  {
    var id := UserHash(key);
    LookupWhole(x, e, pending, id);
    if PendingUser(pending, id).None? && id in y.users {
      assert Authentic(UserEntity(y.users[id]));
    }
  }

  ghost predicate GoodVerdict(x: Database, e: Entity, pending: seq<Entity>, v: Verdict) {
    match v
    case BanSender => false
    case NeedID(id) => id in Dependencies(e) && !Arrived(pending, id) && HasEntity(x, id)
    case BanID(id) => id.UserHash?
    case _ => true
  }

  lemma EntityVerdict(x: Database, y: Database, own: Owner, e: Entity, pending: seq<Entity>, p: Entity)
    requires Sound(x) && Sound(y) && Whole(x, e) && Solicited(own.subs, e)
    requires Delivered(x, e, pending) && p in pending
    ensures GoodVerdict(x, e, pending, CheckEntity(y, own, pending, p))
  {
    hide Dependencies, FindPending, Covers, IsUserBanned, UserValid;
    assert Stored(x, p) && Authentic(p);
    ClosureFacts(x, e, p.Id());
    match p
    case UserEntity(u) => assert UserValid(u);
    case MessageEntity(m) => MessageVerdict(x, y, own, e, pending, m);
    case OperationEntity(o) => OperationVerdict(x, y, own, e, pending, o);
  }

  lemma MessageVerdict(x: Database, y: Database, own: Owner, e: Entity, pending: seq<Entity>, m: Message)
    requires Sound(x) && Sound(y) && Whole(x, e) && Solicited(own.subs, e)
    requires Delivered(x, e, pending) && MessageEntity(m) in pending
    ensures GoodVerdict(x, e, pending, CheckMessage(y, own, pending, m))
  {
    hide Dependencies, FindPending, Covers, IsUserBanned, UserValid, Sound, Closed, Readable, TagsMatch;
    DeliveredAuthentic(x, e, pending);
    AuthenticId(m);
    ClosureFacts(x, e, m.id);
    ClosureFacts(x, e, m.content.author);
    KeyIsKnown(x, y, e, pending, m.signedBy);
    LookupWhole(x, e, pending, m.content.author);
    if IsReply(m) {
      ClosureFacts(x, e, m.content.parent);
      LookupWhole(x, e, pending, m.content.parent);
    }
  }

  lemma AuthenticId(m: Message)
    requires Authentic(MessageEntity(m))
    ensures m.id == MessageHash(m.content) && (!IsReply(m) ==> RootTopic(m.id) == m.content.topic)
  {
  }

  lemma OperationVerdict(x: Database, y: Database, own: Owner, e: Entity, pending: seq<Entity>, o: Operation)
    requires Sound(x) && Sound(y) && Whole(x, e) && Solicited(own.subs, e)
    requires Delivered(x, e, pending) && OperationEntity(o) in pending
    ensures GoodVerdict(x, e, pending, CheckOperation(y, own, pending, o))
  {
    hide Dependencies, Covers, IsUserBanned, UserValid, Sound, Closed, Readable, TagsMatch;
    DeliveredAuthentic(x, e, pending);
    var i :| 0 <= i < |pending| && pending[i] == OperationEntity(o);
    OnlyOperationIsFirst(x, e, pending, i);
    ClosureFacts(x, e, o.id);
    ClosureFacts(x, e, o.content.author);
    KeyIsKnown(x, y, e, pending, o.signedBy);
    LookupWhole(x, e, pending, o.content.author);
    FindPendingFound(pending, o.content.target);
  }

  lemma PendingFits(x: Database, e: Entity, pending: seq<Entity>, missing: ID)
    requires Delivered(x, e, pending) && missing in Dependencies(e) && !Arrived(pending, missing)
    ensures |pending| < |Dependencies(e)|
  {
    hide Dependencies, Stored;
    DistinctFit(pending, Dependencies(e) - {missing});
  }

  /** A request for more is for a new member of the closure, which the sender can serve. An honest sender is
      accused only when the buffer is full and the closure does not fit into it. */
  lemma HonestSenderIsNotAccused(x: Database, y: Database, own: Owner, e: Entity, pending: seq<Entity>)
    requires Sound(x) && Sound(y) && Whole(x, e) && Solicited(own.subs, e)
    requires Delivered(x, e, pending) && pending != []
    ensures var d := Decide(y, own, pending);
            && (d.Accuse? ==> d == Accuse(Author(e)) && MAX_PENDING_ENTITIES_NUM <= |pending| < |Dependencies(e)|)
            && (Fits(e) ==> !d.Accuse?)
            && (d.Request? ==>
                  d.id in Dependencies(e) && !Arrived(pending, d.id) && HasEntity(x, d.id)
                  && |pending| < |Dependencies(e)|)
            && (d.Drop? && d.ban.Some? ==> d.ban.value.UserHash?)
  {
    hide CheckEntity, Dependencies, Sound, Closed, Readable, TagsMatch, Solicited, Arrived, HasEntity;
    CheckFromMatched(y, own, pending, 0);
    var v := CheckPending(y, own, pending);
    if v != Matched {
      var i :| 0 <= i < |pending| && CheckEntity(y, own, pending, pending[i]) == v;
      EntityVerdict(x, y, own, e, pending, pending[i]);
    }
    FirstIsAnnounced(e, pending, x);
    if v.NeedID? {
      PendingFits(x, e, pending, v.id);
    }
  }

  lemma FirstIsAnnounced(e: Entity, pending: seq<Entity>, x: Database)
    requires Delivered(x, e, pending) && pending != []
    ensures pending[0] == e && e in pending && Arrived(pending, e.Id())
    ensures forall p | p in pending :: Stored(x, p) && p.Id() in Dependencies(e)
  {
    hide Dependencies, Stored;
  }

  lemma RequestLeavesRoom(y: Database, own: Owner, pending: seq<Entity>)
    requires pending != [] && Decide(y, own, pending).Request?
    ensures |pending| < MAX_PENDING_ENTITIES_NUM
  {
  }

  lemma StoredIsServed(x: Database, id: ID)
    requires Sound(x) && (id in x.users || GetMessage(x, id).Ok?)
    ensures GetEntity(x, id).Ok? && GetEntity(x, id).value.Id() == id && Stored(x, GetEntity(x, id).value)
  {
    hide Authentic, GetOperation;
  }

  lemma DeliveredAppend(x: Database, e: Entity, pending: seq<Entity>, p: Entity)
    requires Delivered(x, e, pending) && Stored(x, p) && p.Id() in Dependencies(e)
    requires !Arrived(pending, p.Id()) && (pending == [] ==> p == e)
    ensures Delivered(x, e, pending + [p])
  {
    hide Dependencies, Stored;
  }

  /** Every request the receiver makes is answerable, and the answer keeps the buffer as it should be. */
  lemma RequestIsAnswered(x: Database, e: Entity, pending: seq<Entity>, id: ID)
    requires Sound(x) && Whole(x, e) && Delivered(x, e, pending)
    requires id in Dependencies(e) && !Arrived(pending, id)
    requires pending == [] ==> id == e.Id()
    ensures ProcessReq(x, e, id).Ok?
    ensures ProcessReq(x, e, id).value.Id() == id && Stored(x, ProcessReq(x, e, id).value)
    ensures Delivered(x, e, pending + [ProcessReq(x, e, id).value])
  {
    hide Dependencies, Delivered, Arrived, Stored, GetEntity, Sound, Closed, Readable, TagsMatch;
    ClosureFacts(x, e, id);
    if id != e.Id() {
      StoredIsServed(x, id);
    }
    DeliveredAppend(x, e, pending, ProcessReq(x, e, id).value);
  }

  // ---------------------------------------------------------------- committing

  /** When the buffer of an honest sender is stored, the one thing that halts the receiver is an
      operation whose object was not stored before, or a thread root that was stored meanwhile. */
  lemma HonestCommitSucceedsExactly(x: Database, y: Database, e: Entity, pending: seq<Entity>)
    requires Sound(x) && Sound(y) && TagsMatch(y) && Whole(x, e) && Delivered(x, e, pending) && pending != []
    ensures PutAll(y, pending).ok <==>
              (e.OperationEntity? ==> TargetStored(y, e.operation)) &&
              (forall m | MessageEntity(m) in pending && !IsReply(m) :: m.id !in y.messages)
  {
    hide PutAll, Dependencies, Insertable;
    CommitSucceedsExactly(y, pending);
    forall i | 0 <= i < |pending|
      ensures Insertable(y, pending[..i], pending[i]) <==>
                match pending[i]
                case UserEntity(_) => true
                case MessageEntity(m) => IsReply(m) || m.id !in y.messages
                case OperationEntity(o) => e.OperationEntity? && e.operation == o && TargetStored(y, o)
    {
      InsertableHonest(x, y, e, pending, i);
    }
    assert pending[0] == e && e in pending;
    if PutAll(y, pending).ok {
      assert Insertable(y, pending[..0], pending[0]);
      forall m | MessageEntity(m) in pending && !IsReply(m)
        ensures m.id !in y.messages
      {
        var i :| 0 <= i < |pending| && pending[i] == MessageEntity(m);
        assert Insertable(y, pending[..i], pending[i]);
      }
    } else {
      var i :| 0 <= i < |pending| && !Insertable(y, pending[..i], pending[i]);
      assert pending[i] in pending;
      if pending[i].OperationEntity? {
        OnlyOperationIsFirst(x, e, pending, i);
      }
    }
  }

  lemma OnlyOperationIsFirst(x: Database, e: Entity, pending: seq<Entity>, i: nat)
    requires Sound(x) && Whole(x, e) && Delivered(x, e, pending) && i < |pending| && pending[i].OperationEntity?
    ensures i == 0 && pending[i] == e
  {
    hide Dependencies;
    assert Authentic(pending[i]);
    ClosureFacts(x, e, pending[i].Id());
    assert pending[0].Id() == e.Id() == pending[i].Id();
  }

  lemma InsertableHonest(x: Database, y: Database, e: Entity, pending: seq<Entity>, i: nat)
    requires Sound(x) && Sound(y) && TagsMatch(y) && Whole(x, e) && Delivered(x, e, pending) && i < |pending|
    ensures Insertable(y, pending[..i], pending[i]) <==>
              match pending[i]
              case UserEntity(_) => true
              case MessageEntity(m) => IsReply(m) || m.id !in y.messages
              case OperationEntity(o) => e.OperationEntity? && e.operation == o && TargetStored(y, o)
  {
    hide Dependencies, Sound, Closed, Readable, TagsMatch, Insertable, Authentic;
    DeliveredAuthentic(x, e, pending);
    assert pending[i] in pending;
    match pending[i]
    case UserEntity(_) => assert Insertable(y, pending[..i], pending[i]) by { NoConditionOnUsers(y, pending[..i], pending[i]); }
    case MessageEntity(m) => MessageInsertable(x, y, e, pending, i, m);
    case OperationEntity(o) =>
      OnlyOperationIsFirst(x, e, pending, i);
      FirstOperationInsertable(y, pending, o);
  }

  lemma NoConditionOnUsers(y: Database, earlier: seq<Entity>, u: Entity)
    requires u.UserEntity?
    ensures Insertable(y, earlier, u)
  {
  }

  lemma FirstOperationInsertable(y: Database, pending: seq<Entity>, o: Operation)
    ensures Insertable(y, pending[..0], OperationEntity(o)) <==> TargetStored(y, o)
  {
  }

  lemma MessageInsertable(x: Database, y: Database, e: Entity, pending: seq<Entity>, i: nat, m: Message)
    requires Sound(x) && Whole(x, e) && Sound(y) && TagsMatch(y) && Delivered(x, e, pending) && i < |pending|
    requires pending[i] == MessageEntity(m) && Authentic(MessageEntity(m))
    ensures Insertable(y, pending[..i], MessageEntity(m)) <==> IsReply(m) || m.id !in y.messages
  {
    hide Dependencies, Sound, Closed;
    assert Stored(x, pending[i]);
    ClosureFacts(x, e, m.id);
    KindsOfRows(y, m.id);
    var tags := m.content.topic.Elems();
    forall p | p in pending[..i]
      ensures !SharesTag(p, m)
    {
      var j :| 0 <= j < i && pending[j] == p;
    }
    if !IsReply(m) {
      assert tags[0] in tags;
      assert (m.id, tags[0]) in y.tags <==> m.id in y.messages;
    }
  }

  /** Storing an entity with success keeps the tag table in step with the messages. */
  lemma PutKeepsTags(db: Database, e: Entity)
    requires Sound(db) && TagsMatch(db) && Authentic(e) && PutEntity(db, e).ok
    ensures TagsMatch(PutEntity(db, e).db)
  {
    PutTables(db, e);
    if e.MessageEntity? {
      var m := e.message;
      var tags := m.content.topic.Elems();
      PutTagsExact(db.tags, m.id, tags);
      KindsOfRows(db, m.id);
      var r := PutEntity(db, e).db;
      forall id: ID, tag: Tag
        ensures (id, tag) in r.tags <==> id in r.messages && tag in r.messages[id].content.topic.Elems()
      {
        assert (id, tag) in db.tags <==> id in db.messages && tag in db.messages[id].content.topic.Elems();
      }
    }
  }

  /** Storing authentic entities keeps the tables sound, even when it fails on the way. */
  lemma {:induction false} PutAllSound(db: Database, batch: seq<Entity>)
    requires Sound(db) && forall e | e in batch :: Authentic(e)
    ensures Sound(PutAll(db, batch).db)
    decreases batch
  {
    hide PutEntity, Sound, Authentic;
    if batch != [] {
      PutSound(db, batch[0]);
      if PutEntity(db, batch[0]).ok {
        PutAllSound(PutEntity(db, batch[0]).db, batch[1..]);
      }
    }
  }

  lemma {:induction false} PutAllSoundAndTagged(db: Database, batch: seq<Entity>)
    requires Sound(db) && TagsMatch(db) && (forall e | e in batch :: Authentic(e)) && PutAll(db, batch).ok
    ensures Sound(PutAll(db, batch).db) && TagsMatch(PutAll(db, batch).db)
    decreases batch
  {
    hide PutEntity, Sound, TagsMatch, Authentic;
    if batch != [] {
      PutSound(db, batch[0]);
      PutKeepsTags(db, batch[0]);
      PutAllSoundAndTagged(PutEntity(db, batch[0]).db, batch[1..]);
    }
  }

  /** A good database stays good when a matched buffer is stored in full. */
  lemma CommitKeepsGood(x: Database, y: Database, own: Owner, e: Entity, pending: seq<Entity>)
    requires Sound(x) && Whole(x, e) && Good(y) && Delivered(x, e, pending) && pending != []
    requires CheckPending(y, own, pending) == Matched && PutAll(y, pending).ok
    ensures Good(PutAll(y, pending).db)
    ensures forall p | p in pending :: Occupied(PutAll(y, pending).db, p)
    ensures Extends(y, PutAll(y, pending).db)
  {
    hide CheckPending, PutAll, Sound, TagsMatch, Authentic, BatchClosed, Dependencies, Stored, Occupied, Extends;
    var y' := PutAll(y, pending).db;
    DeliveredAuthentic(x, e, pending);
    PutAllSoundAndTagged(y, pending);
    PutAllEffect(y, pending);
    MatchedBatchClosed(y, own, pending);
    BatchClosedExtends(y, y', pending);
    StoredBatchClosed(y', pending);
    CommitKeepsClosed(x, y, e, pending, y');
  }

  lemma CommitKeepsClosed(x: Database, y: Database, e: Entity, pending: seq<Entity>, y': Database)
    requires Sound(x) && Whole(x, e) && Good(y) && Sound(y') && Extends(y, y') && Delivered(x, e, pending)
    requires forall p | Stored(y', p) :: Stored(y, p) || p in pending
    requires forall m | MessageEntity(m) in pending :: MessageClosed(y', m)
    requires forall o | OperationEntity(o) in pending :: o.content.author in y'.users
    ensures Closed(y') && Readable(y')
  {
    hide TagsMatch, Sound, Authentic, Dependencies, Whole, Delivered;
    RowIds(y');
    forall id | id in y'.messages
      ensures MessageClosed(y', y'.messages[id])
      ensures y'.messages[id].content.topic.IsValid()
    {
      var p := MessageEntity(y'.messages[id]);
      assert Stored(y', p);
      if Stored(y, p) {
        assert MessageClosed(y, p.message);
      } else {
        DeliveredMessageFits(x, e, pending, p.message);
      }
    }
    forall id | id in y'.operations
      ensures y'.operations[id].content.author in y'.users
    {
      assert Stored(y', OperationEntity(y'.operations[id]));
    }
  }

  /** A delivered message is readable and not too deep in its thread. */
  lemma DeliveredMessageFits(x: Database, e: Entity, pending: seq<Entity>, m: Message)
    requires Sound(x) && Whole(x, e) && Delivered(x, e, pending) && MessageEntity(m) in pending
    ensures m.content.topic.IsValid()
  {
    hide Dependencies, UserValid, MessageValid;
    var i :| 0 <= i < |pending| && pending[i] == MessageEntity(m);
    assert Stored(x, pending[i]);
    ClosureFacts(x, e, m.id);
    KindsOfRows(x, m.id);
    assert Authentic(e) by { hide WholeThread; }
  }

  lemma RowIds(db: Database)
    requires Sound(db)
    ensures forall id | id in db.messages :: db.messages[id].id == id
    ensures forall id | id in db.operations :: db.operations[id].id == id
  {
    hide Authentic;
  }

  /** Once everything in the batch is stored, what the batch provided is in the tables. */
  lemma StoredBatchClosed(db: Database, batch: seq<Entity>)
    requires BatchClosed(db, batch) && forall e | e in batch :: Occupied(db, e)
    ensures forall m | MessageEntity(m) in batch :: MessageClosed(db, m)
    ensures forall o | OperationEntity(o) in batch :: o.content.author in db.users
  {
    forall m | MessageEntity(m) in batch
      ensures MessageClosed(db, m)
    {
      assert EntityClosed(db, batch, MessageEntity(m));
    }
    forall o | OperationEntity(o) in batch
      ensures o.content.author in db.users
    {
      assert EntityClosed(db, batch, OperationEntity(o));
    }
  }

  lemma OperationKeepsGood(db: Database, o: Operation)
    requires Good(db) && Authentic(OperationEntity(o)) && o.content.author in db.users
    ensures Good(PutOperation(db, o).db) && Extends(db, PutOperation(db, o).db)
  {
    hide Sound, PutOperation, Authentic;
    var e := OperationEntity(o);
    assert PutEntity(db, e) == PutOperation(db, o);
    PutSound(db, e);
    PutExtends(db, e);
    PutTables(db, e);
  }

  lemma BanIsValid(own: Owner, now: Time, target: ID)
    ensures OperationValid(BanOperation(own, now, target)) <==> target != ZeroID
  {
  }

  /** A ban made here keeps the database good. */
  lemma BanKeepsGood(own: Owner, now: Time, local: Local, target: ID)
    requires Good(local.db) && own.Self() in local.db.users
    ensures Good(Ban(own, now, local, target).local.db)
    ensures Extends(local.db, Ban(own, now, local, target).local.db)
    ensures target != ZeroID ==> !Ban(own, now, local, target).fatal
  {
    var e := OperationEntity(BanOperation(own, now, target));
    hide OperationValid, PutOperation;
    if OperationValid(e.operation) {
      OperationKeepsGood(local.db, e.operation);
    }
    BanIsValid(own, now, target);
  }

  // ---------------------------------------------------------------- a whole exchange

  /** The next answer, and what it may be followed by. */
  lemma NextAnswer(x: Database, y: Database, own: Owner, e: Entity, pending: seq<Entity>, needed: ID)
    requires Sound(x) && Sound(y) && Whole(x, e) && Solicited(own.subs, e) && Delivered(x, e, pending)
    requires needed in Dependencies(e) && !Arrived(pending, needed) && (pending == [] ==> needed == e.Id())
    ensures ProcessReq(x, e, needed).Ok?
    ensures var pending' := pending + [ProcessReq(x, e, needed).value];
            var d := Decide(y, own, pending');
            && Delivered(x, e, pending')
            && (d.Request? ==> d.id in Dependencies(e) && !Arrived(pending', d.id) && |pending'| < MAX_PENDING_ENTITIES_NUM)
  {
    hide Sound, Whole, Solicited, Delivered, Dependencies, Arrived, ProcessReq, CheckPending, Fits, HasEntity;
    RequestIsAnswered(x, e, pending, needed);
    HonestSenderIsNotAccused(x, y, own, e, pending + [ProcessReq(x, e, needed).value]);
  }

  /** The packets an honest sender answers with, request by request. */
  ghost function Answers(x: Database, y: Database, own: Owner, e: Entity, pending: seq<Entity>, needed: ID): seq<Packet>
    requires Sound(x) && Sound(y) && Whole(x, e) && Solicited(own.subs, e) && Delivered(x, e, pending)
    requires needed in Dependencies(e) && !Arrived(pending, needed) && (pending == [] ==> needed == e.Id())
    decreases MAX_PENDING_ENTITIES_NUM - |pending|
  {
    NextAnswer(x, y, own, e, pending, needed);
    var p := ProcessReq(x, e, needed).value;
    var d := Decide(y, own, pending + [p]);
    [Packet(EntityPayload(p), true)] + if d.Request? then Answers(x, y, own, e, pending + [p], d.id) else []
  }

  /** Nothing pending is stored at the receiver yet. */
  ghost predicate Fresh(y: Database, pending: seq<Entity>) {
    forall i | 0 <= i < |pending| :: pending[i].MessageEntity? ==> pending[i].Id() !in y.messages
  }

  lemma RequestIsFresh(y: Database, own: Owner, pending: seq<Entity>)
    requires pending != [] && Decide(y, own, pending).Request?
    requires forall p | p in pending :: Authentic(p)
    ensures Decide(y, own, pending).id.MessageHash? ==> Decide(y, own, pending).id !in y.messages
  {
    hide CheckEntity;
    CheckFromMatched(y, own, pending, 0);
    var id := Decide(y, own, pending).id;
    var i :| 0 <= i < |pending| && CheckEntity(y, own, pending, pending[i]) == NeedID(id);
    NeedIsMissing(y, own, pending, pending[i], id);
  }

  lemma NeedIsMissing(y: Database, own: Owner, pending: seq<Entity>, p: Entity, id: ID)
    requires Authentic(p) && CheckEntity(y, own, pending, p) == NeedID(id)
    ensures id.MessageHash? ==> id !in y.messages
  {
  }

  /** How a run with an honest sender ends. It is acknowledged, and then leaves a good database that
      holds the whole buffer if the decision was to store it; or it halts, which happens exactly when
      the buffer is to be stored and starts with an operation whose object was not stored before. */
  ghost predicate EndsHonestly(x: Database, own: Owner, local: Local, e: Entity, r: Run) {
    && (r.outcome == Acked || r.outcome == Fatal)
    && r.pending != [] && r.pending[0] == e && Delivered(x, e, r.pending)
    && (r.outcome == Fatal <==> CheckPending(local.db, own, r.pending) == Matched
                                && e.OperationEntity? && !TargetStored(local.db, e.operation))
    && (r.outcome == Acked ==> Good(r.local.db))
    && (r.outcome == Acked && CheckPending(local.db, own, r.pending) == Matched ==>
          forall p | p in r.pending :: Occupied(r.local.db, p))
  }

  lemma {:induction false} HonestFetchEnds(
    x: Database, own: Owner, sender: ID, clock: Clock, local: Local, e: Entity, pending: seq<Entity>, needed: ID)
    requires Sound(x) && Good(local.db) && own.Self() in local.db.users
    requires Whole(x, e) && Fits(e) && Solicited(own.subs, e) && Delivered(x, e, pending)
    requires needed in Dependencies(e) && !Arrived(pending, needed) && (pending == [] ==> needed == e.Id())
    requires |pending| < MAX_PENDING_ENTITIES_NUM
    requires Fresh(local.db, pending) && (needed.MessageHash? ==> needed !in local.db.messages)
    ensures EndsHonestly(x, own, local, e,
              Fetch(own, sender, clock, local, pending, needed, Answers(x, local.db, own, e, pending, needed)))
    decreases MAX_PENDING_ENTITIES_NUM - |pending|
  {
    hide Dependencies, CheckPending, PutAll, Ban, Sound, Closed, Readable, TagsMatch, Arrived, Solicited, Stored;
    hide Decide, Finish, Fresh, Announceable, EndsHonestly;
    RequestIsAnswered(x, e, pending, needed);
    var p := ProcessReq(x, e, needed).value;
    var pending' := pending + [p];
    var y := local.db;
    HonestSenderIsNotAccused(x, y, own, e, pending');
    DeliveredAuthentic(x, e, pending');
    assert p in pending';
    FreshAfter(x, y, e, pending, p);
    var inbox := Answers(x, y, own, e, pending, needed);
    assert ReadEntity(inbox[0], needed) == Some(p);
    var d := Decide(y, own, pending');
    if d.Request? {
      RequestLeavesRoom(y, own, pending');
      RequestIsFresh(y, own, pending');
      HonestFetchEnds(x, own, sender, clock, local, e, pending', d.id);
      assert inbox[1..] == Answers(x, y, own, e, pending', d.id);
      SentIsIrrelevant(x, own, local, e, Fetch(own, sender, clock, local, pending', d.id, inbox[1..]),
                       Fetch(own, sender, clock, local, pending, needed, inbox).sent);
    } else {
      var r := Fetch(own, sender, clock, local, pending, needed, inbox);
      HonestFinish(x, own, sender, clock, local, e, pending', r.sent, r.rest);
    }
  }

  lemma SentIsIrrelevant(x: Database, own: Owner, local: Local, e: Entity, r: Run, sent: seq<Payload>)
    requires EndsHonestly(x, own, local, e, r)
    ensures EndsHonestly(x, own, local, e, r.(sent := sent))
  {
    hide Good, Delivered, CheckPending;
  }

  lemma HonestFinish(x: Database, own: Owner, sender: ID, clock: Clock, local: Local, e: Entity, pending: seq<Entity>,
                     sent: seq<Payload>, rest: seq<Packet>)
    requires Sound(x) && Good(local.db) && own.Self() in local.db.users
    requires Whole(x, e) && Fits(e) && Solicited(own.subs, e) && Delivered(x, e, pending) && pending != []
    requires Fresh(local.db, pending) && !Decide(local.db, own, pending).Request?
    ensures var end := Finish(own, sender, clock, local, pending, Decide(local.db, own, pending));
            EndsHonestly(x, own, local, e, Run(end.0, sent, rest, pending, end.1))
  {
    hide Dependencies, CheckPending, PutAll, Ban, Sound, Closed, Readable, TagsMatch, Arrived, Solicited, Stored;
    var y := local.db;
    HonestSenderIsNotAccused(x, y, own, e, pending);
    match Decide(y, own, pending)
    case Commit =>
      HonestCommitFresh(x, y, e, pending);
      if PutAll(y, pending).ok {
        CommitKeepsGood(x, y, own, e, pending);
      }
    case Drop(None) =>
    case Drop(Some(id)) =>
      BanKeepsGood(own, clock.first, local, id);
    case Accuse(_) =>
      assert false;
  }

  lemma DeliveredAuthentic(x: Database, e: Entity, pending: seq<Entity>)
    requires Sound(x) && Delivered(x, e, pending)
    ensures forall p | p in pending :: Authentic(p)
  {
  }

  lemma FreshAfter(x: Database, y: Database, e: Entity, pending: seq<Entity>, p: Entity)
    requires Fresh(y, pending) && Authentic(p) && (p.Id().MessageHash? ==> p.Id() !in y.messages)
    ensures Fresh(y, pending + [p])
  {
  }

  lemma HonestCommitFresh(x: Database, y: Database, e: Entity, pending: seq<Entity>)
    requires Sound(x) && Good(y) && Whole(x, e) && Delivered(x, e, pending) && pending != []
    requires Fresh(y, pending)
    ensures PutAll(y, pending).ok <==> (e.OperationEntity? ==> TargetStored(y, e.operation))
  {
    HonestCommitSucceedsExactly(x, y, e, pending);
    forall m | MessageEntity(m) in pending
      ensures m.id !in y.messages
    {
      var i :| 0 <= i < |pending| && pending[i] == MessageEntity(m);
    }
  }

  lemma DeliveredEmpty(x: Database, e: Entity)
    ensures Delivered(x, e, []) && e.Id() in Dependencies(e) && !Arrived([], e.Id())
  {
  }

  /** The packets the sender answers the whole exchange with. */
  ghost function AllAnswers(x: Database, y: Database, own: Owner, e: Entity): seq<Packet>
    requires Sound(x) && Sound(y) && Whole(x, e) && Solicited(own.subs, e)
  {
    DeliveredEmpty(x, e);
    Answers(x, y, own, e, [], e.Id())
  }

  /** The exchange as a whole: an announcement by an honest sender is always acknowledged, except that
      storing an operation together with an object that was not stored before halts the receiver. */
  lemma HonestExchangeEnds(x: Database, own: Owner, sender: ID, clock: Clock, local: Local, e: Entity)
    requires Sound(x) && Good(local.db) && own.Self() in local.db.users
    requires Whole(x, e) && Fits(e) && Solicited(own.subs, e) && !HasEntity(local.db, e.Id())
    ensures EndsHonestly(x, own, local, e,
              Receive(own, sender, clock, local, Packet(AnnouncePayload(e.Id()), true), AllAnswers(x, local.db, own, e)))
  {
    hide Dependencies, EndsHonestly, Fetch, Sound, Closed, Readable, TagsMatch, Solicited;
    DeliveredEmpty(x, e);
    HonestFetchEnds(x, own, sender, clock, local, e, [], e.Id());
  }
}
