/** A thread that is too long for the receiver's buffer: everything is stored, and yet the sender is
    accused. The thread is that of one author who replies to the own messages once a minute. */
module LongThreads {
  import opened Topics
  import opened Entities
  import opened Databases
  import opened Views
  import opened Receiving
  import opened ReceivingRuns
  import opened Sending
  import opened HonestExchange
  import opened Depths
  import opened Announcements
  import opened Protocol

  function Reply(n: nat): Entity {
    MessageEntity(ReplyAt(n))
  }

  /** The author and n + 1 messages. */
  lemma {:induction false} ThreadSize(n: nat)
    ensures AUTHOR.id in Chain(ReplyAt(n).id) && |Chain(ReplyAt(n).id)| == n + 2
    ensures forall id | id in Chain(ReplyAt(n).id) :: id == AUTHOR.id || (id.MessageHash? && Depth(id) <= n)
  {
    hide ReplyAt, Chain;
    ReplyFacts(n);
    IdIsHash(n);
    ChainOfReply(n);
    if n > 0 {
      ThreadSize(n - 1);
      assert ReplyAt(n).id !in Chain(ReplyAt(n - 1).id);
    }
  }

  lemma ChainOfReply(n: nat)
    ensures Chain(ReplyAt(n).id) == {ReplyAt(n).id} + if n == 0 then {AUTHOR.id} else Chain(ReplyAt(n - 1).id)
    ensures n > 0 ==> AUTHOR.id in Chain(ReplyAt(n - 1).id)
  {
    ByAuthor(n);
    if n == 0 {
      RootFacts();
    } else {
      ParentAt(n);
      IdIsHash(n - 1);
      ByAuthor(n - 1);
    }
  }

  lemma FitsExactly(n: nat)
    ensures Fits(Reply(n)) <==> n + 2 <= MAX_PENDING_ENTITIES_NUM
  {
    ThreadSize(n);
    hide ReplyAt, Chain;
  }

  lemma ThreadIsWhole(n: nat)
    ensures Sound(ThreadDatabase(n)) && Whole(ThreadDatabase(n), Reply(n))
  {
    hide ReplyAt, ThreadUpTo, Sound, Databases.Closed, Readable, TagsMatch, Ancestors;
    ThreadDatabaseIsSound(n);
    ThreadFacts(n);
    StoredUpTo(n, n);
    hide Authentic;
    forall a | a in Ancestors(ReplyAt(n).id)
      ensures a in ThreadUpTo(n) && GetMessage(ThreadDatabase(n), a).Ok? && ThreadUpTo(n)[a].content.author == AUTHOR.id
    {
      var k := AncestorIsReply(n, a);
      StoredUpTo(n, k);
      ByAuthor(k);
    }
  }

  lemma {:induction false} AncestorIsReply(n: nat, a: ID) returns (k: nat)
    requires a in Ancestors(ReplyAt(n).id)
    ensures k <= n && a == ReplyAt(k).id
  {
    k := n;
    if a != ReplyAt(n).id {
      if n == 0 {
        RootFacts();
      } else {
        ParentAt(n);
        k := AncestorIsReply(n - 1, a);
      }
    }
  }

  lemma {:induction false} StoredUpTo(n: nat, k: nat)
    requires k <= n
    ensures ReplyAt(k).id in ThreadUpTo(n) && ThreadUpTo(n)[ReplyAt(k).id] == ReplyAt(k)
    ensures ReplyAt(k).content.topic.IsValid()
  {
    hide ReplyAt;
    ReplyFacts(n);
    ReplyFacts(k);
    if k < n {
      StoredUpTo(n - 1, k);
    } else {
      TopicAt(n);
    }
  }

  lemma TopicAt(n: nat)
    ensures ReplyAt(n).content.topic.IsValid()
  {
    assert Tags(["a"]).IsValid();
  }

  // ---------------------------------------------------------------- the buffer of a new receiver

  /** The newest message, the author, and the k messages before the newest. */
  function Buffer(n: nat, k: nat): seq<Entity>
    requires k <= n
  {
    [Reply(n), UserEntity(AUTHOR)] + seq(k, i requires 0 <= i < k => Reply(n - 1 - i))
  }

  lemma NextBuffer(n: nat, k: nat)
    requires k < n
    ensures Buffer(n, k) + [Reply(n - 1 - k)] == Buffer(n, k + 1)
  {
  }

  /** Which replies are in the buffer. */
  lemma InBuffer(n: nat, k: nat, p: Entity)
    requires k <= n
    ensures p in Buffer(n, k) <==> p == UserEntity(AUTHOR) || exists j: nat | n - k <= j <= n :: p == Reply(j)
  {
    hide ReplyAt;
    var b := Buffer(n, k);
    if p in b && p != UserEntity(AUTHOR) {
      var i :| 0 <= i < |b| && b[i] == p;
      var j := if i == 0 then n else n + 1 - i;
      assert n - k <= j <= n && p == Reply(j);
    }
    if j: nat :| n - k <= j <= n && p == Reply(j) {
      assert b[if j == n then 0 else n + 1 - j] == p;
    }
  }

  lemma DifferentReplies(i: nat, j: nat)
    ensures ReplyAt(i).id == ReplyAt(j).id ==> i == j
    ensures ReplyAt(i).id.MessageHash? && ReplyAt(i).id != AUTHOR.id
  {
    ReplyFacts(i);
    ReplyFacts(j);
    IdIsHash(i);
  }

  /** The author is found, and a reply is found exactly if it is one of those delivered. */
  lemma Lookups(n: nat, k: nat, j: nat)
    requires k <= n && j <= n
    ensures PendingUser(Buffer(n, k), AUTHOR.id) == Some(AUTHOR)
    ensures PendingMessage(Buffer(n, k), ReplyAt(j).id).None? <==> j < n - k
  {
    hide ReplyAt, Buffer, FindPending;
    var b := Buffer(n, k);
    FindPendingFound(b, AUTHOR.id);
    InBuffer(n, k, UserEntity(AUTHOR));
    FoundIn(n, k, AUTHOR.id);
    FindPendingFound(b, ReplyAt(j).id);
    FoundIn(n, k, ReplyAt(j).id);
    DifferentReplies(j, j);
    InBuffer(n, k, Reply(j));
  }

  lemma FoundIn(n: nat, k: nat, id: ID)
    requires k <= n
    ensures forall p | p in Buffer(n, k) && p.Id() == id ::
              (id == AUTHOR.id && p == UserEntity(AUTHOR)) || (p.MessageEntity? && exists j: nat | n - k <= j <= n :: id == ReplyAt(j).id && p == Reply(j))
    ensures forall p | p in Buffer(n, k) && p.Id() == AUTHOR.id :: p == UserEntity(AUTHOR)
    ensures forall j: nat | j < n - k :: id == ReplyAt(j).id ==> forall p | p in Buffer(n, k) :: p.Id() != id
  {
    hide ReplyAt, Buffer;
    forall p | p in Buffer(n, k)
      ensures p == UserEntity(AUTHOR) || exists j: nat | n - k <= j <= n :: p == Reply(j)
    {
      InBuffer(n, k, p);
    }
    forall i: nat, j: nat
      ensures ReplyAt(i).id == ReplyAt(j).id ==> i == j
      ensures ReplyAt(i).id.MessageHash? && ReplyAt(i).id != AUTHOR.id
    {
      DifferentReplies(i, j);
    }
  }

  /** The receiver: it has no messages, does not know the author, and has not banned it. */
  ghost predicate IsNew(y: Database, own: Owner) {
    y.messages == map[] && AUTHOR.id !in y.users && !IsUserBanned(y, own.moderators, AUTHOR.id)
  }

  /** A delivered reply matches, or asks for the message it answers. */
  lemma ReplyVerdict(y: Database, own: Owner, n: nat, k: nat, j: nat)
    requires k < n && n - k <= j <= n && IsNew(y, own)
    ensures CheckMessage(y, own, Buffer(n, k), ReplyAt(j)) ==
            if j == n - k then NeedID(ReplyAt(j - 1).id) else Matched
  {
    hide ReplyAt, Buffer, IsUserBanned, FindPending;
    ReplyFacts(j);
    ByAuthor(j);
    ParentAt(j);
    DifferentReplies(j - 1, j);
    SignedByAuthor(j);
    Lookups(n, k, j - 1);
    assert !NearPending(Buffer(n, k), ReplyAt(j)) by { NothingNear(n, k, j); }
    assert !NearStored(y, ReplyAt(j));
    hide NearPending, NearStored;
  }

  lemma SignedByAuthor(n: nat)
    ensures ReplyAt(n).signedBy == AUTHOR.content.key
  {
  }

  lemma NothingNear(n: nat, k: nat, j: nat)
    requires k <= n && n - k <= j <= n
    ensures !NearPending(Buffer(n, k), ReplyAt(j))
  {
    hide ReplyAt, Buffer;
    var b := Buffer(n, k);
    ByAuthor(j);
    forall i | 0 <= i < |b|
      ensures !NearMessage(b[i], ReplyAt(j))
    {
      assert b[i] in b;
      InBuffer(n, k, b[i]);
      if b[i] != UserEntity(AUTHOR) {
        var m: nat :| n - k <= m <= n && b[i] == Reply(m);
        ByAuthor(m);
      }
    }
  }

  /** The first verdict that is not a match decides. */
  lemma {:induction false} FirstVerdict(y: Database, own: Owner, pending: seq<Entity>, from: nat, at: nat)
    requires from <= at < |pending|
    requires forall i | from <= i < at :: CheckEntity(y, own, pending, pending[i]) == Matched
    requires CheckEntity(y, own, pending, pending[at]) != Matched
    ensures CheckFrom(y, own, pending, from) == CheckEntity(y, own, pending, pending[at])
    decreases at - from
  {
    hide CheckEntity;
    if from < at {
      FirstVerdict(y, own, pending, from + 1, at);
    }
  }

  lemma BufferDecision(y: Database, own: Owner, n: nat, k: nat)
    requires k < n && IsNew(y, own)
    ensures Decide(y, own, Buffer(n, k)) ==
            if k + 2 < MAX_PENDING_ENTITIES_NUM then Request(ReplyAt(n - k - 1).id) else Accuse(Some(AUTHOR.id))
  {
    hide ReplyAt, IsUserBanned, CheckMessage;
    var b := Buffer(n, k);
    var at := if k == 0 then 0 else k + 1;
    AuthorMatches(y, own);
    ByAuthor(n);
    forall i | 0 <= i <= at
      ensures CheckEntity(y, own, b, b[i]) == if i == at then NeedID(ReplyAt(n - k - 1).id) else Matched
    {
      if i == 1 {
        assert b[i] == UserEntity(AUTHOR);
      } else {
        var j: nat := if i == 0 then n else n + 1 - i;
        assert b[i] == Reply(j);
        ReplyVerdict(y, own, n, k, j);
        assert i == at <==> j == n - k;
      }
    }
    FirstVerdict(y, own, b, 0, at);
    hide CheckFrom;
  }

  lemma AuthorMatches(y: Database, own: Owner)
    requires !IsUserBanned(y, own.moderators, AUTHOR.id)
    ensures CheckUser(y, own, AUTHOR) == Matched
  {
    AuthorIsValid();
    hide IsUserBanned;
  }

  // ---------------------------------------------------------------- the whole dialogue

  lemma Served(n: nat, k: nat)
    requires k <= n
    ensures ProcessReq(ThreadDatabase(n), Reply(n), ReplyAt(k).id) == Ok(Reply(k))
    ensures ProcessReq(ThreadDatabase(n), Reply(n), AUTHOR.id) == Ok(UserEntity(AUTHOR))
  {
    hide ReplyAt, ThreadUpTo;
    StoredUpTo(n, k);
    DifferentReplies(k, n);
    DifferentReplies(n, n);
  }

  lemma {:induction false} LongDialogue(y: Database, own: Owner, n: nat, k: nat)
    requires n + 2 > MAX_PENDING_ENTITIES_NUM && k + 2 < MAX_PENDING_ENTITIES_NUM && IsNew(y, own)
    ensures |Buffer(n, k)| < MAX_PENDING_ENTITIES_NUM
    ensures Dialogue(ThreadDatabase(n), y, own, Reply(n), Buffer(n, k), ReplyAt(n - k - 1).id).decision ==
            Some(Accuse(Some(AUTHOR.id)))
    decreases MAX_PENDING_ENTITIES_NUM - k
  {
    hide ReplyAt, ThreadDatabase, Decide, ProcessReq;
    assert |Buffer(n, k)| == k + 2;
    Served(n, n - k - 1);
    NextBuffer(n, k);
    BufferDecision(y, own, n, k + 1);
    hide Buffer;
    if k + 3 < MAX_PENDING_ENTITIES_NUM {
      LongDialogue(y, own, n, k + 1);
    }
  }

  /** Everything the newest reply of a too long thread depends on is stored at the sender, in a sound and
      closed database, and a new receiver accuses: the author is banned, who did nothing wrong. */
  lemma LongThreadIsAccused(y: Database, own: Owner, n: nat)
    requires n + 2 > MAX_PENDING_ENTITIES_NUM && IsNew(y, own)
    ensures Sound(ThreadDatabase(n)) && Databases.Closed(ThreadDatabase(n)) && Whole(ThreadDatabase(n), Reply(n)) && !Fits(Reply(n))
    ensures Dialogue(ThreadDatabase(n), y, own, Reply(n), [], ReplyAt(n).id).decision == Some(Accuse(Some(AUTHOR.id)))
  {
    ThreadDatabaseIsSound(n);
    ThreadIsWhole(n);
    FitsExactly(n);
    hide ReplyAt, ThreadDatabase, Decide, ProcessReq, Whole, Fits, Sound, Databases.Closed, IsUserBanned, Authentic;
    var x, e := ThreadDatabase(n), Reply(n);
    Served(n, n);
    ReplyFacts(n);
    ByAuthor(n);
    AuthorIsAskedFor(y, own, ReplyAt(n));
    BufferDecision(y, own, n, 0);
    LongDialogue(y, own, n, 0);
    assert [] + [e] == [e] && [e] + [UserEntity(AUTHOR)] == Buffer(n, 0);
    assert Dialogue(x, y, own, e, Buffer(n, 0), ReplyAt(n - 1).id).decision == Some(Accuse(Some(AUTHOR.id)));
    assert Dialogue(x, y, own, e, [e], AUTHOR.id) == Dialogue(x, y, own, e, Buffer(n, 0), ReplyAt(n - 1).id);
  }

  /** And there is such a run: the newest reply of a too long thread has been announced and is asked for, in
      a sync or idling; in the end the receiver accuses and gives up the connection, or halts. */
  lemma LongThreadEndsConnection(l: Link, n: nat, next: State, resume: State)
    requires n + 2 > MAX_PENDING_ENTITIES_NUM && l.me.local.db == ThreadDatabase(n) && IsNew(l.other.local.db, l.other.own)
    requires Conversing(l, Reply(n), next, [], ReplyAt(n).id, resume)
    ensures exists steps: seq<Step> :: Runnable(l, steps) && (var s := Execute(l, steps).other.state; s == Failed || s == Halted)
  {
    hide ReplyAt, ThreadDatabase, Dialogue, Runnable, Execute, IsNew, Conversing, Whole, Fits, Sound, Databases.Closed;
    LongThreadIsAccused(l.other.local.db, l.other.own, n);
    var steps := DialogueIsARun(l, Reply(n), next, [], ReplyAt(n).id, resume);
  }
}
