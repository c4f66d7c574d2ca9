/** What holds of every receiving run, whatever the remote peer sends. */
module ReceivingRuns {
  import opened Lists
  import opened Topics
  import opened Entities
  import opened Databases
  import opened Views
  import opened Receiving

  function CountRequests(sent: seq<Payload>): nat {
    if sent == [] then 0 else (if sent[0].ReqPayload? then 1 else 0) + CountRequests(sent[1..])
  }

  lemma {:induction false} FetchRequests(
    own: Owner, sender: ID, clock: Clock, local: Local, pending: seq<Entity>, needed: ID, inbox: seq<Packet>)
    requires |pending| < MAX_PENDING_ENTITIES_NUM
    ensures var r := Fetch(own, sender, clock, local, pending, needed, inbox);
            CountRequests(r.sent) <= MAX_PENDING_ENTITIES_NUM - |pending|
    decreases MAX_PENDING_ENTITIES_NUM - |pending|
  {
    var (r, next) := Round(own, sender, clock, local, pending, needed, inbox);
    assert CountRequests([AckPayload]) == 0;
    assert r.sent[1..] == [] || r.sent[1..] == [AckPayload];
    if next.Some? {
      RoundLeavesRoom(own, sender, clock, local, pending, needed, inbox);
      FetchRequests(own, sender, clock, local, r.pending, next.value, r.rest);
      var later := Fetch(own, sender, clock, local, r.pending, next.value, r.rest);
      assert (r.sent + later.sent)[1..] == later.sent;
    }
  }

  /** No remote peer can make a run send more requests than the buffer has places. */
  lemma RequestsAreBounded(own: Owner, sender: ID, clock: Clock, local: Local, initial: Packet, inbox: seq<Packet>)
    ensures CountRequests(Receive(own, sender, clock, local, initial, inbox).sent) <= MAX_PENDING_ENTITIES_NUM
  {
    if initial.authentic && initial.payload.AnnouncePayload? && !HasEntity(local.db, initial.payload.id) {
      FetchRequests(own, sender, clock, local, [], initial.payload.id, inbox);
    }
  }

  /** When something is still needed, the announced entity is not a user, so it has an author. */
  lemma NeededEntityHasAuthor(db: Database, own: Owner, pending: seq<Entity>)
    requires pending != [] && CheckPending(db, own, pending).NeedID?
    ensures Author(pending[0]).Some?
    ensures Decide(db, own, pending).Accuse? ==> Decide(db, own, pending) == Accuse(Author(pending[0]))
  {
  }

  // ---------------------------------------------------------------- how a run ends

  /** A run that ends by itself ends with a decision on the buffer it had at that moment. */
  lemma {:induction false} FetchEnd(
    own: Owner, sender: ID, clock: Clock, local: Local, pending: seq<Entity>, needed: ID, inbox: seq<Packet>)
    requires |pending| < MAX_PENDING_ENTITIES_NUM
    ensures var r := Fetch(own, sender, clock, local, pending, needed, inbox);
            if r.outcome == ConnectionLost || r.outcome == Violation then r.local == local
            else
              && r.outcome != InProgress
              && |pending| < |r.pending| && pending <= r.pending
              && r.pending[|pending|].Id() == needed
              && !Decide(local.db, own, r.pending).Request?
              && Finish(own, sender, clock, local, r.pending, Decide(local.db, own, r.pending)) == (r.local, r.outcome)
    decreases MAX_PENDING_ENTITIES_NUM - |pending|
  {
    hide Decide, Finish;
    var (r, next) := Round(own, sender, clock, local, pending, needed, inbox);
    if next.Some? {
      RoundLeavesRoom(own, sender, clock, local, pending, needed, inbox);
      FetchEnd(own, sender, clock, local, r.pending, next.value, r.rest);
    }
  }

  /** The buffer satisfies all its own requirements, or they are met by the database. */
  ghost predicate BatchClosed(db: Database, batch: seq<Entity>) {
    forall e | e in batch :: EntityClosed(db, batch, e)
  }

  ghost predicate EntityClosed(db: Database, batch: seq<Entity>, e: Entity) {
    match e
    case UserEntity(_) => true
    case MessageEntity(m) =>
      HasUserIn(db, batch, m.content.author) &&
      (m.content.parent == ZeroID || HasMessageIn(db, batch, m.content.parent))
    case OperationEntity(o) => HasUserIn(db, batch, o.content.author) && HasAnyIn(db, batch, o.content.target)
  }

  ghost predicate HasAnyIn(db: Database, batch: seq<Entity>, id: ID) {
    HasEntity(db, id) || exists e | e in batch :: e.Id() == id
  }

  ghost predicate HasUserIn(db: Database, batch: seq<Entity>, id: ID) {
    id in db.users || exists u | UserEntity(u) in batch :: u.id == id
  }

  ghost predicate HasMessageIn(db: Database, batch: seq<Entity>, id: ID) {
    id in db.messages || exists m | MessageEntity(m) in batch :: m.id == id
  }

  lemma {:induction false} FindPendingFound(pending: seq<Entity>, id: ID)
    ensures FindPending(pending, id).Some? ==>
              FindPending(pending, id).value in pending && FindPending(pending, id).value.Id() == id
    ensures FindPending(pending, id).None? ==> forall e | e in pending :: e.Id() != id
  {
    if pending != [] {
      FindPendingFound(pending[1..], id);
    }
  }

  lemma {:induction false} CheckFromMatched(db: Database, own: Owner, pending: seq<Entity>, k: nat)
    requires k <= |pending|
    ensures CheckFrom(db, own, pending, k) == Matched <==>
              forall i | k <= i < |pending| :: CheckEntity(db, own, pending, pending[i]) == Matched
    ensures CheckFrom(db, own, pending, k) == Matched ||
              exists i | k <= i < |pending| :: CheckEntity(db, own, pending, pending[i]) == CheckFrom(db, own, pending, k)
    decreases |pending| - k
  {
    hide CheckEntity;
    if k < |pending| {
      CheckFromMatched(db, own, pending, k + 1);
    }
  }

  /** One entity that matches has everything it needs, and if its author's key can be trusted it is
      authentic. */
  lemma MatchedEntity(db: Database, own: Owner, pending: seq<Entity>, e: Entity)
    requires CheckEntity(db, own, pending, e) == Matched
    ensures EntityClosed(db, pending, e)
  {
    match e
    case UserEntity(_) =>
    case MessageEntity(m) =>
      FindPendingFound(pending, m.content.author);
      FindPendingFound(pending, m.content.parent);
    case OperationEntity(o) =>
      FindPendingFound(pending, o.content.author);
      FindPendingFound(pending, o.content.target);
  }

  lemma MatchedBatchClosed(db: Database, own: Owner, pending: seq<Entity>)
    requires pending != [] && CheckPending(db, own, pending) == Matched
    ensures BatchClosed(db, pending)
  {
    CheckFromMatched(db, own, pending, 0);
    forall e | e in pending
      ensures EntityClosed(db, pending, e)
    {
      var i :| 0 <= i < |pending| && pending[i] == e;
      MatchedEntity(db, own, pending, e);
    }
  }

  /** All or nothing: an acknowledged run either stored the announced entity together with all of the
      buffer, which then has its authors, its parents and, in the right table, the objects of its
      operations, or it stored nothing but at most one ban. */
  lemma AckedRunIsAllOrNothing(own: Owner, sender: ID, clock: Clock, local: Local, initial: Packet, inbox: seq<Packet>)
    requires Receive(own, sender, clock, local, initial, inbox).outcome == Acked
    ensures var r := Receive(own, sender, clock, local, initial, inbox);
            || r.local.db == local.db
            || (r.pending != [] && r.pending[0].Id() == initial.payload.id &&
                (forall e | e in r.pending :: Occupied(r.local.db, e)) &&
                (forall x | Stored(r.local.db, x) :: Stored(local.db, x) || x in r.pending) &&
                BatchClosed(r.local.db, r.pending) &&
                (forall o | OperationEntity(o) in r.pending :: TargetStored(r.local.db, o)))
            || (exists id :: r.local.db == PutOperation(local.db, BanOperation(own, clock.first, id)).db)
  {
    if !HasEntity(local.db, initial.payload.id) {
      var r := Receive(own, sender, clock, local, initial, inbox);
      FetchEnd(own, sender, clock, local, [], initial.payload.id, inbox);
      hide Fetch, Decide, PutAll, PutOperation;
      match Decide(local.db, own, r.pending) {
        case Commit =>
          CommitDecided(local.db, own, r.pending);
          MatchedBatchClosed(local.db, own, r.pending);
          PutAllEffect(local.db, r.pending);
          BatchClosedExtends(local.db, r.local.db, r.pending);
          CommittedObjectsStored(local.db, r.pending);
        case Drop(ban) =>
        case Accuse(_) =>
      }
    }
  }

  lemma CommitDecided(db: Database, own: Owner, pending: seq<Entity>)
    requires pending != [] && Decide(db, own, pending) == Commit
    ensures CheckPending(db, own, pending) == Matched
  {
  }

  lemma BatchClosedExtends(db: Database, db': Database, batch: seq<Entity>)
    requires Extends(db, db') && BatchClosed(db, batch)
    ensures BatchClosed(db', batch)
  {
    forall e | e in batch
      ensures EntityClosed(db', batch, e)
    {
      assert EntityClosed(db, batch, e);
    }
  }

  // ---------------------------------------------------------------- when storing the buffer succeeds

  /** The earlier entity is the object the operation looks for. */
  predicate Provides(e: Entity, o: Operation) {
    match o.content.typ
    case RemoveMessage => e.MessageEntity? && e.message.id == o.content.target
    case BanUser => e.UserEntity? && e.user.id == o.content.target
    case OtherType => false
  }

  /** The earlier entity already claimed one of the message's tags for the message. */
  predicate SharesTag(e: Entity, m: Message) {
    e.MessageEntity? && e.message.id == m.id &&
    exists tag | tag in m.content.topic.Elems() :: tag in e.message.content.topic.Elems()
  }

  ghost predicate Insertable(db: Database, earlier: seq<Entity>, e: Entity) {
    match e
    case UserEntity(_) => true
    case MessageEntity(m) =>
      Distinct(m.content.topic.Elems()) &&
      (forall tag | tag in m.content.topic.Elems() :: (m.id, tag) !in db.tags) &&
      (forall x | x in earlier :: !SharesTag(x, m))
    case OperationEntity(o) =>
      TargetStored(db, o) || exists x | x in earlier :: Provides(x, o)
  }

  lemma InsertableStep(db: Database, first: Entity, earlier: seq<Entity>, e: Entity)
    requires PutEntity(db, first).ok
    ensures Insertable(PutEntity(db, first).db, earlier, e) <==> Insertable(db, [first] + earlier, e)
  {
    PutTables(db, first);
    if first.MessageEntity? {
      PutTagsExact(db.tags, first.message.id, first.message.content.topic.Elems());
    }
    var db' := PutEntity(db, first).db;
    match e
    case UserEntity(_) =>
    case MessageEntity(m) =>
      var tags := m.content.topic.Elems();
      assert (forall tag | tag in tags :: (m.id, tag) !in db'.tags) <==>
             (forall tag | tag in tags :: (m.id, tag) !in db.tags) && !SharesTag(first, m);
      assert (forall x | x in [first] + earlier :: !SharesTag(x, m)) <==>
             !SharesTag(first, m) && forall x | x in earlier :: !SharesTag(x, m);
    case OperationEntity(o) =>
      assert TargetStored(db', o) <==> TargetStored(db, o) || Provides(first, o);
      assert (exists x | x in [first] + earlier :: Provides(x, o)) <==>
             Provides(first, o) || exists x | x in earlier :: Provides(x, o);
  }

  lemma InsertableFirst(db: Database, e: Entity)
    ensures PutEntity(db, e).ok <==> Insertable(db, [], e)
  {
    if e.MessageEntity? {
      PutTagsExact(db.tags, e.message.id, e.message.content.topic.Elems());
    }
  }

  /** Storing in the order of arrival succeeds exactly when every message brings only new and
      different tags, and the object of every operation was stored before or arrived earlier. */
  lemma {:induction false} CommitSucceedsExactly(db: Database, batch: seq<Entity>)
    ensures PutAll(db, batch).ok <==> forall i | 0 <= i < |batch| :: Insertable(db, batch[..i], batch[i])
    decreases batch
  {
    hide PutEntity, Insertable;
    if batch != [] {
      var first := PutEntity(db, batch[0]);
      InsertableFirst(db, batch[0]);
      assert batch[..0] == [];
      if first.ok {
        CommitSucceedsExactly(first.db, batch[1..]);
        forall i | 0 <= i < |batch| - 1
          ensures Insertable(first.db, batch[1..][..i], batch[1..][i]) <==> Insertable(db, batch[..i + 1], batch[i + 1])
        {
          InsertableStep(db, batch[0], batch[1..][..i], batch[1..][i]);
          assert [batch[0]] + batch[1..][..i] == batch[..i + 1];
        }
        if forall i | 0 <= i < |batch[1..]| :: Insertable(first.db, batch[1..][..i], batch[1..][i]) {
          forall i | 0 <= i < |batch|
            ensures Insertable(db, batch[..i], batch[i])
          {
            if i > 0 {
              assert Insertable(first.db, batch[1..][..i - 1], batch[1..][i - 1]);
            }
          }
        }
      }
    }
  }

  /** After a successful commit every operation's object is stored in the table its type asks for. */
  lemma CommittedObjectsStored(db: Database, batch: seq<Entity>)
    requires PutAll(db, batch).ok
    ensures forall o | OperationEntity(o) in batch :: TargetStored(PutAll(db, batch).db, o)
  {
    hide PutAll;
    CommitSucceedsExactly(db, batch);
    PutAllEffect(db, batch);
    forall o | OperationEntity(o) in batch
      ensures TargetStored(PutAll(db, batch).db, o)
    {
      var i :| 0 <= i < |batch| && batch[i] == OperationEntity(o);
      assert Insertable(db, batch[..i], batch[i]);
      if !TargetStored(db, o) {
        var x :| x in batch[..i] && Provides(x, o);
        assert x in batch;
      }
    }
  }

  // ---------------------------------------------------------------- bans made on the way

  /** A ban is stored as a readable operation exactly when the banned user is stored; otherwise a row
      remains that can be neither read nor requested again. */
  lemma BanIsReadableExactly(own: Owner, now: Time, local: Local, target: ID)
    requires now - local.lastOper >= MIN_OPERATION_POST_DELAY && target != ZeroID
    requires !Linked(local.db, BanOperation(own, now, target).id)
    ensures var ban, o := Ban(own, now, local, target), BanOperation(own, now, target);
            && !ban.fatal && HasEntity(ban.local.db, o.id)
            && (GetOperation(ban.local.db, o.id).Ok? <==> target in local.db.users)
  {
    var o := BanOperation(own, now, target);
    assert OperationValid(o);
    var put := PutOperation(local.db, o);
    if target in local.db.users {
      assert (o.id, target) in put.db.userLinks;
    } else {
      assert put.db.userLinks == local.db.userLinks && put.db.messageLinks == local.db.messageLinks;
    }
  }

  predicate Due(local: Local, now: Time) {
    now - local.lastOper >= MIN_OPERATION_POST_DELAY
  }

  /** A message dated before its author registered, from an author who is not stored. */
  ghost predicate Backdated(local: Local, own: Owner, m: Message, u: User) {
    && Authentic(MessageEntity(m)) && Authentic(UserEntity(u)) && m.content.author == u.id
    && u.content.regDate > m.content.dateWritten
    && !HasEntity(local.db, m.id) && u.id !in local.db.users && !IsUserBanned(local.db, own.moderators, u.id)
  }

  /** The packets with which such a message arrives. */
  function BackdatedPackets(m: Message, u: User): seq<Packet> {
    [Packet(EntityPayload(MessageEntity(m)), true), Packet(EntityPayload(UserEntity(u)), true)]
  }

  /** The run that receives it requests the author, bans it without storing it, and acknowledges. */
  lemma BackdatedAuthorIsBannedUnstored(own: Owner, sender: ID, clock: Clock, local: Local, m: Message, u: User)
    requires Backdated(local, own, m, u) && Due(local, clock.first)
    ensures var r := Receive(own, sender, clock, local, Packet(AnnouncePayload(m.id), true), BackdatedPackets(m, u));
            && r.outcome == Acked && r.sent == [ReqPayload(m.id), ReqPayload(u.id), AckPayload]
            && r.local == Ban(own, clock.first, local, u.id).local && u.id !in r.local.db.users
  {
    hide Decide, Ban, Authentic, IsUserBanned;
    var first, both := [MessageEntity(m)], [MessageEntity(m), UserEntity(u)];
    var inbox := BackdatedPackets(m, u);
    BackdatedDecisions(own, local, m, u);
    BanMadeHere(own, clock.first, local, u.id);
    assert [] + [MessageEntity(m)] == first && first + [UserEntity(u)] == both;
    var banned := Ban(own, clock.first, local, u.id).local;
    var last := Fetch(own, sender, clock, local, first, u.id, inbox[1..]);
    assert last == Run(banned, [ReqPayload(u.id), AckPayload], [], both, Acked);
  }

  lemma BackdatedDecisions(own: Owner, local: Local, m: Message, u: User)
    requires Backdated(local, own, m, u)
    ensures m.id.MessageHash? && u.id.UserHash?
    ensures Decide(local.db, own, [MessageEntity(m)]) == Request(u.id)
    ensures Decide(local.db, own, [MessageEntity(m), UserEntity(u)]) == Drop(Some(u.id))
  {
    hide IsUserBanned, HasEntity, NearStored, NearPending;
    var first, both := [MessageEntity(m)], [MessageEntity(m), UserEntity(u)];
    assert FindPending(first, u.id) == FindPending(first[1..], u.id) == None;
    assert FindPending(both, u.id) == FindPending(both[1..], u.id) == Some(UserEntity(u));
  }

  lemma BanMadeHere(own: Owner, now: Time, local: Local, target: ID)
    requires target != ZeroID
    ensures var ban := Ban(own, now, local, target); !ban.fatal && ban.local.db.users == local.db.users
  {
  }

  /** The ban of the target at this time is a new row. */
  predicate NewlyBanned(before: Database, after: Database, own: Owner, now: Time, target: ID) {
    var id := BanOperation(own, now, target).id;
    id in after.operations && id !in before.operations
  }

  /** When the author and the sender are both to be banned, the sender's ban is stored exactly if the
      sender is the author and the first ban was due, or if the second ban came due a minute after the
      last operation, which is the first ban when that one was made. */
  lemma SenderIsBannedExactly(own: Owner, sender: ID, clock: Clock, local: Local, pending: seq<Entity>, author: ID)
    ensures var after := Finish(own, sender, clock, local, pending, Accuse(Some(author))).0.db;
            var first := Due(local, clock.first);
            (NewlyBanned(local.db, after, own, clock.first, sender) || NewlyBanned(local.db, after, own, clock.second, sender)) <==>
              || (first && author == sender != ZeroID && BanOperation(own, clock.first, sender).id !in local.db.operations)
              || (sender != ZeroID && BanOperation(own, clock.second, sender).id !in local.db.operations &&
                  if first then author != ZeroID && clock.second - clock.first >= MIN_OPERATION_POST_DELAY
                  else Due(local, clock.second))
  {
    hide PutOperation;
    var o1, o2 := BanOperation(own, clock.first, author), BanOperation(own, clock.second, sender);
    assert OperationValid(o1) <==> author != ZeroID;
    assert OperationValid(o2) <==> sender != ZeroID;
    var ban := Ban(own, clock.first, local, author);
    BanRows(own, clock.first, local, author);
    BanRows(own, clock.second, ban.local, sender);
  }

  lemma BanRows(own: Owner, now: Time, local: Local, target: ID)
    ensures var r := Ban(own, now, local, target);
            && r.local.db.operations.Keys ==
                 local.db.operations.Keys +
                 (if Due(local, now) && target != ZeroID then {BanOperation(own, now, target).id} else {})
            && r.local.lastOper == (if Due(local, now) then now else local.lastOper)
            && (r.fatal <==> Due(local, now) && target == ZeroID)
  {
    var o := BanOperation(own, now, target);
    assert OperationValid(o) <==> target != ZeroID;
    PutTables(local.db, OperationEntity(o));
  }

  /** So with less than a minute between the two bans, only the author is banned. */
  lemma FullBufferBansAuthorOnly(own: Owner, sender: ID, clock: Clock, local: Local, pending: seq<Entity>, author: ID)
    requires Due(local, clock.first) && author != ZeroID
    requires clock.second - clock.first < MIN_OPERATION_POST_DELAY
    ensures Finish(own, sender, clock, local, pending, Accuse(Some(author))) ==
            (Local(PutOperation(local.db, BanOperation(own, clock.first, author)).db, clock.first), Accused)
  {
    assert OperationValid(BanOperation(own, clock.first, author));
  }

  // ---------------------------------------------------------------- the message rate

  /** Any two stored messages of one author are at least a minute apart in whole seconds. */
  ghost predicate RateSpaced(db: Database) {
    forall a, b | a in db.messages && b in db.messages && a != b :: SpacedApart(db.messages[a], db.messages[b])
  }

  predicate SpacedApart(a: Message, b: Message) {
    a.content.author == b.content.author ==>
      Abs(WholeSeconds(a.content.dateWritten) - WholeSeconds(b.content.dateWritten)) >= MIN_MESSAGE_POST_DELAY / SECOND
  }

  /** Exact durations of a minute or more survive the truncation to seconds. */
  lemma TruncationKeepsMinute(x: Time, y: Time)
    requires Abs(x - y) >= MIN_MESSAGE_POST_DELAY
    ensures Abs(WholeSeconds(x) - WholeSeconds(y)) >= MIN_MESSAGE_POST_DELAY / SECOND
  {
  }

  lemma MatchedMessageIsSpaced(db: Database, own: Owner, pending: seq<Entity>, m: Message)
    requires Sound(db) && CheckMessage(db, own, pending, m) == Matched
    ensures forall id | id in db.messages && id != m.id :: SpacedApart(db.messages[id], m)
    ensures forall x | MessageEntity(x) in pending && x.id != m.id :: SpacedApart(x, m)
  {
    assert !NearStored(db, m) && !NearPending(pending, m);
    forall id | id in db.messages && id != m.id
      ensures SpacedApart(db.messages[id], m)
    {
      assert db.messages[id].id == id;
    }
    forall x | MessageEntity(x) in pending && x.id != m.id
      ensures SpacedApart(x, m)
    {
      var i :| 0 <= i < |pending| && pending[i] == MessageEntity(x);
      assert !NearMessage(pending[i], m);
      if x.content.author == m.content.author {
        TruncationKeepsMinute(x.content.dateWritten, m.content.dateWritten);
      }
    }
  }

  lemma MatchedBatchKeepsRate(db: Database, own: Owner, pending: seq<Entity>)
    requires Sound(db) && RateSpaced(db) && pending != [] && CheckPending(db, own, pending) == Matched
    ensures RateSpaced(PutAll(db, pending).db)
  {
    hide CheckPending, PutAll, CheckMessage, CheckUser, CheckOperation;
    var db' := PutAll(db, pending).db;
    PutAllEffect(db, pending);
    BatchMatches(db, own, pending);
    SoundAfter(db, own, pending);
    forall a, b | a in db'.messages && b in db'.messages && a != b
      ensures SpacedApart(db'.messages[a], db'.messages[b])
    {
      var x, y := db'.messages[a], db'.messages[b];
      assert Stored(db', MessageEntity(x)) && Stored(db', MessageEntity(y));
      if MessageEntity(x) in pending {
        MatchedMessageIsSpaced(db, own, pending, x);
      }
      if MessageEntity(y) in pending {
        MatchedMessageIsSpaced(db, own, pending, y);
      }
      assert SpacedApart(x, y) <==> SpacedApart(y, x);
    }
  }

  lemma BatchMatches(db: Database, own: Owner, pending: seq<Entity>)
    requires pending != [] && CheckPending(db, own, pending) == Matched
    ensures forall e | e in pending :: CheckEntity(db, own, pending, e) == Matched
  {
    CheckFromMatched(db, own, pending, 0);
  }

  /** Rows stay filed under their own identifiers. */
  lemma SoundAfter(db: Database, own: Owner, pending: seq<Entity>)
    requires Sound(db) && pending != [] && CheckPending(db, own, pending) == Matched
    ensures forall id | id in PutAll(db, pending).db.messages :: PutAll(db, pending).db.messages[id].id == id
  {
    KeyedAfter(db, pending);
  }

  lemma {:induction false} KeyedAfter(db: Database, batch: seq<Entity>)
    requires forall id | id in db.messages :: db.messages[id].id == id
    ensures forall id | id in PutAll(db, batch).db.messages :: PutAll(db, batch).db.messages[id].id == id
    decreases batch
  {
    hide PutEntity;
    if batch != [] {
      PutTables(db, batch[0]);
      if PutEntity(db, batch[0]).ok {
        KeyedAfter(PutEntity(db, batch[0]).db, batch[1..]);
      }
    }
  }

  /** Rate limit: no run, however it ends and whatever was sent to it, brings two messages of one
      author closer than a minute. */
  lemma ReceiveKeepsRate(own: Owner, sender: ID, clock: Clock, local: Local, initial: Packet, inbox: seq<Packet>)
    requires Sound(local.db) && RateSpaced(local.db)
    ensures RateSpaced(Receive(own, sender, clock, local, initial, inbox).local.db)
  {
    if initial.authentic && initial.payload.AnnouncePayload? && !HasEntity(local.db, initial.payload.id) {
      var r := Receive(own, sender, clock, local, initial, inbox);
      FetchEnd(own, sender, clock, local, [], initial.payload.id, inbox);
      if r.outcome != ConnectionLost && r.outcome != Violation {
        var d := Decide(local.db, own, r.pending);
        if d == Commit {
          CommitDecided(local.db, own, r.pending);
          MatchedBatchKeepsRate(local.db, own, r.pending);
        } else {
          FinishKeepsMessages(own, sender, clock, local, r.pending, d);
        }
      }
    }
  }

  lemma FinishKeepsMessages(own: Owner, sender: ID, clock: Clock, local: Local, pending: seq<Entity>, d: Decision)
    requires !d.Request? && !d.Commit?
    ensures Finish(own, sender, clock, local, pending, d).0.db.messages == local.db.messages
  {
    hide Ban, PutAll;
    match d
    case Drop(None) =>
    case Drop(Some(id)) => BanKeepsMessages(own, clock.first, local, id);
    case Accuse(None) => BanKeepsMessages(own, clock.first, local, sender);
    case Accuse(Some(author)) =>
      BanKeepsMessages(own, clock.first, local, author);
      BanKeepsMessages(own, clock.second, Ban(own, clock.first, local, author).local, sender);
  }

  lemma BanKeepsMessages(own: Owner, now: Time, local: Local, target: ID)
    ensures Ban(own, now, local, target).local.db.messages == local.db.messages
  {
    PutTables(local.db, OperationEntity(BanOperation(own, now, target)));
  }
}
