/** Where the limit on the depth of threads is checked, and where it is not. */
module Depths {
  import opened Topics
  import opened Subscriptions
  import opened Entities
  import opened Databases
  import opened Views
  import opened Receiving
  import opened ReceivingRuns

  /** The owner may reply to a readable message that is not yet at the limit. */
  predicate MayReplyTo(db: Database, parent: ID)
    requires Sound(db)
  {
    match GetMessage(db, parent)
    case Err(_) => false
    case Ok(p) =>
      match GetMessageDepth(db, p)
      case Err(_) => false
      case Ok(d) => d < MAX_MESSAGE_DEPTH
  }

  /** No stored message is deeper in its thread than the limit. */
  ghost predicate WithinDepth(db: Database) {
    forall id | id in db.messages :: Depth(id) <= MAX_MESSAGE_DEPTH
  }

  /** In a closed database the check lets a reply through exactly when its thread is readable and the
      reply itself respects the limit. */
  lemma OwnReplyIsAllowedExactly(db: Database, m: Message)
    requires Sound(db) && Closed(db) && MessageValid(m) && IsReply(m)
    ensures MayReplyTo(db, m.content.parent) <==>
              && m.content.parent in db.messages && RootTopic(m.id).IsValid() && Depth(m.id) <= MAX_MESSAGE_DEPTH
  {
    var parent := m.content.parent;
    if parent in db.messages {
      var p := db.messages[parent];
      assert Authentic(MessageEntity(p));
      GetRootResult(db, p);
    }
  }

  /** The checks of a received reply whose author and parent are known: its depth is not among them. */
  lemma ReceivedReplyIsAcceptedExactly(db: Database, own: Owner, m: Message)
    requires Sound(db) && Authentic(MessageEntity(m)) && IsReply(m)
    requires m.content.author in db.users && m.content.parent in db.messages
    ensures CheckPending(db, own, [MessageEntity(m)]) == Matched <==>
              && !IsUserBanned(db, own.moderators, m.content.author)
              && db.users[m.content.author].content.regDate <= m.content.dateWritten
              && !NearStored(db, m)
  {
    hide IsUserBanned, NearStored, UserValid;
    var e := MessageEntity(m);
    assert [e][1..] == [];
    FindPendingFound([e], m.content.author);
    CheckFromMatched(db, own, [e], 0);
    AuthorKey(db, m.content.author);
    assert CheckEntity(db, own, [e], [e][0]) == CheckMessage(db, own, [e], m);
    assert m.id != m.content.author;
    assert FindPending([e], m.content.author) == None;
  }

  lemma AuthorKey(db: Database, id: ID)
    requires Sound(db) && id in db.users
    ensures id == UserHash(db.users[id].content.key)
  {
    assert Authentic(UserEntity(db.users[id]));
  }

  /** So "every stored message respects the limit" is not kept by receiving: an accepted reply that is
      too deep is stored. */
  lemma ReceivedReplyCanBeTooDeep(db: Database, own: Owner, m: Message)
    requires Sound(db) && Authentic(MessageEntity(m)) && IsReply(m) && m.id !in db.messages
    requires m.content.author in db.users && m.content.parent in db.messages
    requires CheckPending(db, own, [MessageEntity(m)]) == Matched && Depth(m.id) > MAX_MESSAGE_DEPTH
    ensures var put := PutAll(db, [MessageEntity(m)]); put.ok && m.id in put.db.messages && !WithinDepth(put.db)
  {
    hide CheckPending;
    var e := MessageEntity(m);
    assert [e][1..] == [];
    assert PutTags(db.tags, m.id, m.content.topic.Elems()).1;
    assert PutAll(PutEntity(db, e).db, [e][1..]) == PutResult(PutEntity(db, e).db, true);
    assert m.id in PutEntity(db, e).db.messages;
  }

  // ---------------------------------------------------------------- an example

  const AUTHOR := User(UserHash(1), UserContent(1, true, "a", "", EPOCH), 1)

  /** The reply of a given depth in a thread to which its author replies every minute. */
  function ReplyAt(n: nat): Message {
    var parent := if n == 0 then ZeroID else ReplyAt(n - 1).id;
    var topic := if n == 0 then Tags(["a"]) else NilTopic;
    var c := MessageContent("s", "t", AUTHOR.id, parent, EPOCH + n * MIN_MESSAGE_POST_DELAY, topic);
    Message(MessageHash(c), c, 1)
  }

  function ThreadUpTo(n: nat): map<ID, Message> {
    if n == 0 then map[ReplyAt(0).id := ReplyAt(0)] else ThreadUpTo(n - 1)[ReplyAt(n).id := ReplyAt(n)]
  }

  function ThreadDatabase(n: nat): Database {
    Database(map[AUTHOR.id := AUTHOR], ThreadUpTo(n), map[], {}, {}, {(ReplyAt(0).id, "a")})
  }

  lemma {:induction false} ReplyFacts(n: nat)
    ensures Authentic(MessageEntity(ReplyAt(n))) && Depth(ReplyAt(n).id) == n
  {
    if n == 0 {
      assert Tags(["a"]).IsValid();
    } else {
      ReplyFacts(n - 1);
    }
  }

  ghost predicate IsReplyUpTo(n: nat, id: ID, m: Message) {
    exists k | 0 <= k <= n :: m == ReplyAt(k) && id == ReplyAt(k).id
  }

  lemma {:induction false} ThreadFacts(n: nat)
    ensures ReplyAt(n).id in ThreadUpTo(n)
    ensures forall id | id in ThreadUpTo(n) ::
              IsReplyUpTo(n, id, ThreadUpTo(n)[id]) &&
              (ThreadUpTo(n)[id].content.parent == ZeroID || ThreadUpTo(n)[id].content.parent in ThreadUpTo(n))
  {
    hide ReplyAt;
    if n == 0 {
      RootFacts();
      assert IsReplyUpTo(0, ReplyAt(0).id, ReplyAt(0));
    } else {
      ThreadFacts(n - 1);
      ParentAt(n);
      var before, after := ThreadUpTo(n - 1), ThreadUpTo(n);
      assert after == before[ReplyAt(n).id := ReplyAt(n)];
      forall id | id in after
        ensures IsReplyUpTo(n, id, after[id])
        ensures after[id].content.parent == ZeroID || after[id].content.parent in after
      {
        if id == ReplyAt(n).id {
          assert after[id] == ReplyAt(n);
        } else {
          assert id in before && after[id] == before[id] && IsReplyUpTo(n - 1, id, before[id]);
        }
      }
    }
  }

  lemma RootFacts()
    ensures ReplyAt(0).content.parent == ZeroID
  {
  }

  lemma ParentAt(n: nat)
    requires n > 0
    ensures ReplyAt(n).content.parent == ReplyAt(n - 1).id
  {
  }

  lemma ThreadDatabaseIsSound(n: nat)
    ensures Sound(ThreadDatabase(n)) && Closed(ThreadDatabase(n))
  {
    hide ReplyAt, ThreadUpTo, Authentic;
    var db := ThreadDatabase(n);
    ThreadFacts(n);
    forall id | id in db.messages
      ensures db.messages[id].id == id && Authentic(MessageEntity(db.messages[id])) && MessageClosed(db, db.messages[id])
    {
      assert IsReplyUpTo(n, id, db.messages[id]);
      var k :| 0 <= k <= n && db.messages[id] == ReplyAt(k) && id == ReplyAt(k).id;
      ReplyFacts(k);
      ByAuthor(k);
    }
    AuthorIsValid();
  }

  lemma ByAuthor(n: nat)
    ensures ReplyAt(n).content.author == AUTHOR.id && ReplyAt(n).content.dateWritten == EPOCH + n * MIN_MESSAGE_POST_DELAY
  {
  }

  lemma AuthorIsValid()
    ensures Authentic(UserEntity(AUTHOR))
  {
  }

  /** In the thread of one author who replies once a minute, the next reply is always accepted. */
  lemma NextReplyIsAccepted(own: Owner, n: nat)
    ensures CheckPending(ThreadDatabase(n), own, [MessageEntity(ReplyAt(n + 1))]) == Matched
    ensures Sound(ThreadDatabase(n)) && Closed(ThreadDatabase(n)) && Authentic(MessageEntity(ReplyAt(n + 1)))
    ensures IsReply(ReplyAt(n + 1)) && ReplyAt(n + 1).id !in ThreadUpTo(n) && Depth(ReplyAt(n + 1).id) == n + 1
    ensures ReplyAt(n + 1).content.author == AUTHOR.id && ReplyAt(n + 1).content.parent in ThreadUpTo(n)
  {
    hide ReplyAt, ThreadUpTo, CheckPending, Authentic, Sound;
    var db, m := ThreadDatabase(n), ReplyAt(n + 1);
    ThreadDatabaseIsSound(n);
    ThreadFacts(n);
    ReplyFacts(n + 1);
    ByAuthor(n + 1);
    ParentAt(n + 1);
    assert IsReply(m) by { IdIsHash(n); }
    NothingNearby(n);
    hide NearStored, IsUserBanned;
    ReceivedReplyIsAcceptedExactly(db, own, m);
  }

  lemma NothingNearby(n: nat)
    ensures !NearStored(ThreadDatabase(n), ReplyAt(n + 1)) && ReplyAt(n + 1).id !in ThreadUpTo(n)
  {
    hide ReplyAt, ThreadUpTo, Authentic;
    var db, m := ThreadDatabase(n), ReplyAt(n + 1);
    ThreadFacts(n);
    ReplyFacts(n + 1);
    ByAuthor(n + 1);
    forall id | id in db.messages
      ensures WholeSeconds(m.content.dateWritten) - WholeSeconds(db.messages[id].content.dateWritten) >= 60 && id != m.id
    {
      assert IsReplyUpTo(n, id, db.messages[id]);
      var k :| 0 <= k <= n && db.messages[id] == ReplyAt(k) && id == ReplyAt(k).id;
      ByAuthor(k);
      ReplyFacts(k);
    }
  }

  lemma IdIsHash(n: nat)
    ensures ReplyAt(n).id.MessageHash?
  {
  }

  /** So the reply one deeper than the limit is stored, in a sound and closed database. */
  lemma TooDeepReplyIsStored(own: Owner, n: nat)
    requires n >= MAX_MESSAGE_DEPTH
    ensures var db, e := ThreadDatabase(n), MessageEntity(ReplyAt(n + 1));
            && Sound(db) && Closed(db) && CheckPending(db, own, [e]) == Matched
            && PutAll(db, [e]).ok && !WithinDepth(PutAll(db, [e]).db)
  {
    hide ReplyAt, ThreadUpTo, CheckPending, Authentic, Sound, PutAll, WithinDepth;
    NextReplyIsAccepted(own, n);
    ReceivedReplyCanBeTooDeep(ThreadDatabase(n), own, ReplyAt(n + 1));
  }
}
