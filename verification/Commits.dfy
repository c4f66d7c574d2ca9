/** Several peers receiving at once into one database. The check of a buffer and each insertion of a
    commit are separate steps, so other peers' steps may fall in between. */
module Commits {
  import opened Lists
  import opened Topics
  import opened Subscriptions
  import opened Entities
  import opened Databases
  import opened Views
  import opened Receiving
  import opened ReceivingRuns
  import opened Sending

  type PeerNumber = nat

  /** `flights` holds what each peer still has to insert of the buffer that passed its check. */
  datatype Node = Node(db: Database, flights: map<PeerNumber, seq<Entity>>, halted: bool)

  datatype Step =
    | Check(peer: PeerNumber, pending: seq<Entity>)
    | InsertNext(peer: PeerNumber)
    | Introduce(user: User)
    | StoreBan(now: Time, target: ID)
    | Post(entity: Entity)

  ghost predicate Enabled(own: Owner, n: Node, s: Step) {
    !n.halted &&
    match s
    case Check(peer, pending) =>
      (peer in n.flights ==> n.flights[peer] == []) && pending != [] && CheckPending(n.db, own, pending) == Matched
    case InsertNext(peer) => peer in n.flights && n.flights[peer] != []
    case Introduce(u) => UserValid(u)
    case StoreBan(now, target) => target != ZeroID
    case Post(e) => Authentic(e) && Postable(own, n.db, e)
  }

  /** The owner's own messages reply to messages that can be read. */
  predicate Postable(own: Owner, db: Database, e: Entity) {
    match e
    case UserEntity(_) => false
    case MessageEntity(m) => m.content.author == own.Self() && (IsReply(m) ==> GetMessage(db, m.content.parent).Ok?)
    case OperationEntity(o) => o.content.author == own.Self()
  }

  function Apply(own: Owner, n: Node, s: Step): Node {
    match s
    case Check(peer, pending) => n.(flights := n.flights[peer := pending])
    case InsertNext(peer) =>
      if peer in n.flights && n.flights[peer] != [] then
        var put := PutEntity(n.db, n.flights[peer][0]);
        Node(put.db, n.flights[peer := n.flights[peer][1..]], !put.ok)
      else n
    case Introduce(u) => n.(db := PutEntity(n.db, UserEntity(u)).db)
    case StoreBan(now, target) => n.(db := PutEntity(n.db, OperationEntity(BanOperation(own, now, target))).db)
    case Post(e) => n.(db := PutEntity(n.db, e).db)
  }

  ghost predicate Runnable(own: Owner, n: Node, steps: seq<Step>)
    decreases steps
  {
    steps == [] || (Enabled(own, n, steps[0]) && Runnable(own, Apply(own, n, steps[0]), steps[1..]))
  }

  function Execute(own: Owner, n: Node, steps: seq<Step>): Node
    decreases steps
  {
    if steps == [] then n else Execute(own, Apply(own, n, steps[0]), steps[1..])
  }

  // ---------------------------------------------------------------- the invariant

  ghost predicate UserPresent(n: Node, id: ID) {
    id in n.db.users || exists p | p in n.flights :: exists u | UserEntity(u) in n.flights[p] :: u.id == id
  }

  ghost predicate MessagePresent(n: Node, id: ID) {
    id in n.db.messages || exists p | p in n.flights :: exists m | MessageEntity(m) in n.flights[p] :: m.id == id
  }

  /** The database together with everything still in flight is closed; each flight is closed with the
      database alone. */
  ghost predicate Inv(own: Owner, n: Node) {
    && Sound(n.db) && own.Self() in n.db.users
    && (forall id | id in n.db.messages :: MessageAttached(n, n.db.messages[id]))
    && (forall id | id in n.db.operations :: UserPresent(n, n.db.operations[id].content.author))
    && (forall p | p in n.flights :: BatchClosed(n.db, n.flights[p]) && forall e | e in n.flights[p] :: Authentic(e))
  }

  ghost predicate MessageAttached(n: Node, m: Message) {
    UserPresent(n, m.content.author) && (m.content.parent == ZeroID || MessagePresent(n, m.content.parent))
  }

  /** The checks establish authenticity: the key found for the author is the author's key. */
  lemma MatchedBatchAuthentic(db: Database, own: Owner, pending: seq<Entity>)
    requires Sound(db) && pending != [] && CheckPending(db, own, pending) == Matched
    ensures forall e | e in pending :: Authentic(e)
  {
    BatchMatches(db, own, pending);
    forall e | e in pending
      ensures Authentic(e)
    {
      match e
      case UserEntity(u) =>
      case MessageEntity(m) => MatchedKey(db, own, pending, m.content.author);
      case OperationEntity(o) => MatchedKey(db, own, pending, o.content.author);
    }
  }

  lemma MatchedKey(db: Database, own: Owner, pending: seq<Entity>, id: ID)
    requires Sound(db) && forall e | e in pending :: CheckEntity(db, own, pending, e) == Matched
    ensures FindUser(db, pending, id).Some? ==> id == UserHash(FindUser(db, pending, id).value.content.key)
  {
    FindPendingFound(pending, id);
    if PendingUser(pending, id).Some? {
      var u := PendingUser(pending, id).value;
      assert CheckEntity(db, own, pending, UserEntity(u)) == Matched;
    } else if id in db.users {
      assert Authentic(UserEntity(db.users[id]));
    }
  }

  /** What stays present when an entity is inserted, from the head of a flight or from elsewhere. */
  lemma InsertKeepsPresent(n: Node, e: Entity, n': Node, id: ID)
    requires n'.db == PutEntity(n.db, e).db
    requires forall p | p in n.flights :: p in n'.flights && forall x | x in n.flights[p] :: x == e || x in n'.flights[p]
    ensures UserPresent(n, id) ==> UserPresent(n', id)
    ensures MessagePresent(n, id) ==> MessagePresent(n', id)
  {
    PutExtends(n.db, e);
    hide PutEntity;
    if UserPresent(n, id) && id !in n.db.users {
      var p, u :| p in n.flights && UserEntity(u) in n.flights[p] && u.id == id;
      assert UserEntity(u) == e || UserEntity(u) in n'.flights[p];
    }
    if MessagePresent(n, id) && id !in n.db.messages {
      var p, m :| p in n.flights && MessageEntity(m) in n.flights[p] && m.id == id;
      assert MessageEntity(m) == e || MessageEntity(m) in n'.flights[p];
    }
  }

  lemma AttachedStays(n: Node, e: Entity, n': Node, m: Message)
    requires n'.db == PutEntity(n.db, e).db
    requires forall p | p in n.flights :: p in n'.flights && forall x | x in n.flights[p] :: x == e || x in n'.flights[p]
    requires MessageAttached(n, m)
    ensures MessageAttached(n', m)
  {
    hide PutEntity, UserPresent, MessagePresent;
    InsertKeepsPresent(n, e, n', m.content.author);
    InsertKeepsPresent(n, e, n', m.content.parent);
  }

  /** An insertion keeps the invariant if the inserted entity is authentic and attached. */
  lemma InsertKeepsInv(own: Owner, n: Node, e: Entity, n': Node)
    requires Inv(own, n) && Authentic(e)
    requires n'.db == PutEntity(n.db, e).db
    requires n'.flights.Keys == n.flights.Keys
    requires forall p | p in n.flights ::
               (forall x | x in n.flights[p] :: x == e || x in n'.flights[p]) &&
               (forall x | x in n'.flights[p] :: x in n.flights[p])
    requires e.MessageEntity? ==> MessageAttached(n, e.message)
    requires e.OperationEntity? ==> UserPresent(n, e.operation.content.author)
    ensures Inv(own, n')
  {
    hide PutEntity, Sound, Authentic, UserPresent, MessageAttached, BatchClosed, Extends, Occupied;
    PutExtends(n.db, e);
    PutTables(n.db, e);
    PutSound(n.db, e);
    forall id | id in n'.db.messages
      ensures MessageAttached(n', n'.db.messages[id])
    {
      AttachedStays(n, e, n', n'.db.messages[id]);
    }
    forall id | id in n'.db.operations
      ensures UserPresent(n', n'.db.operations[id].content.author)
    {
      InsertKeepsPresent(n, e, n', n'.db.operations[id].content.author);
    }
    forall p | p in n'.flights
      ensures BatchClosed(n'.db, n'.flights[p])
      ensures forall x | x in n'.flights[p] :: Authentic(x)
    {
      FlightStaysClosed(n.db, n'.db, n.flights[p], n'.flights[p], e);
    }
  }

  lemma FlightStaysClosed(db: Database, db': Database, flight: seq<Entity>, flight': seq<Entity>, e: Entity)
    requires BatchClosed(db, flight) && Extends(db, db') && Occupied(db', e)
    requires forall x | x in flight :: x == e || x in flight'
    requires forall x | x in flight' :: x in flight
    ensures BatchClosed(db', flight')
  {
    forall x | x in flight'
      ensures EntityClosed(db', flight', x)
    {
      assert EntityClosed(db, flight, x);
      match x
      case UserEntity(_) =>
      case MessageEntity(m) =>
        ProvidedStays(db, db', flight, flight', e, m.content.author);
        ProvidedStays(db, db', flight, flight', e, m.content.parent);
      case OperationEntity(o) =>
        ProvidedStays(db, db', flight, flight', e, o.content.author);
        ProvidedStays(db, db', flight, flight', e, o.content.target);
    }
  }

  lemma ProvidedStays(db: Database, db': Database, flight: seq<Entity>, flight': seq<Entity>, e: Entity, id: ID)
    requires Extends(db, db') && Occupied(db', e) && forall x | x in flight :: x == e || x in flight'
    ensures HasUserIn(db, flight, id) ==> HasUserIn(db', flight', id)
    ensures HasMessageIn(db, flight, id) ==> HasMessageIn(db', flight', id)
    ensures HasAnyIn(db, flight, id) ==> HasAnyIn(db', flight', id)
  {
    if HasUserIn(db, flight, id) && id !in db.users {
      var u :| UserEntity(u) in flight && u.id == id;
      assert UserEntity(u) == e || UserEntity(u) in flight';
    }
    if HasMessageIn(db, flight, id) && id !in db.messages {
      var m :| MessageEntity(m) in flight && m.id == id;
      assert MessageEntity(m) == e || MessageEntity(m) in flight';
    }
  }

  /** Starting a flight only adds to what is present. */
  lemma CheckKeepsInv(own: Owner, n: Node, peer: PeerNumber, pending: seq<Entity>)
    requires Inv(own, n) && Enabled(own, n, Check(peer, pending))
    ensures Inv(own, Apply(own, n, Check(peer, pending)))
  {
    var n' := n.(flights := n.flights[peer := pending]);
    MatchedBatchClosed(n.db, own, pending);
    MatchedBatchAuthentic(n.db, own, pending);
    hide CheckPending, Sound, BatchClosed, Authentic;
    forall id
      ensures UserPresent(n, id) ==> UserPresent(n', id)
      ensures MessagePresent(n, id) ==> MessagePresent(n', id)
    {
      assert forall p | p in n.flights && n.flights[p] != [] :: n'.flights[p] == n.flights[p];
    }
    assert forall id | id in n.db.messages :: MessageAttached(n, n.db.messages[id]);
  }

  lemma InsertNextKeepsInv(own: Owner, n: Node, peer: PeerNumber)
    requires Inv(own, n) && Enabled(own, n, InsertNext(peer))
    ensures Inv(own, Apply(own, n, InsertNext(peer)))
  {
    var flight := n.flights[peer];
    var e := flight[0];
    assert e in flight && EntityClosed(n.db, flight, e);
    assert flight == [e] + flight[1..];
    hide PutEntity, Sound, Authentic;
    InsertKeepsInv(own, n, e, Apply(own, n, InsertNext(peer)));
  }

  lemma StepKeepsInv(own: Owner, n: Node, s: Step)
    requires Inv(own, n) && Enabled(own, n, s)
    ensures Inv(own, Apply(own, n, s))
  {
    hide PutEntity, Sound, UserPresent, MessagePresent, BatchClosed;
    match s
    case Check(peer, pending) => CheckKeepsInv(own, n, peer, pending);
    case InsertNext(peer) => InsertNextKeepsInv(own, n, peer);
    case Introduce(u) => InsertKeepsInv(own, n, UserEntity(u), Apply(own, n, s));
    case StoreBan(now, target) =>
      SelfIsPresent(own, n);
      InsertKeepsInv(own, n, OperationEntity(BanOperation(own, now, target)), Apply(own, n, s));
    case Post(e) =>
      SelfIsPresent(own, n);
      if e.MessageEntity? && IsReply(e.message) {
        StoredIsPresent(n, e.message.content.parent);
      }
      InsertKeepsInv(own, n, e, Apply(own, n, s));
  }

  lemma SelfIsPresent(own: Owner, n: Node)
    requires Inv(own, n)
    ensures UserPresent(n, own.Self())
  {
  }

  lemma StoredIsPresent(n: Node, id: ID)
    requires id in n.db.messages
    ensures MessagePresent(n, id)
  {
  }

  lemma {:induction false} RunKeepsInv(own: Owner, n: Node, steps: seq<Step>)
    requires Inv(own, n) && Runnable(own, n, steps)
    ensures Inv(own, Execute(own, n, steps))
    decreases steps
  {
    hide Enabled, Apply, Inv;
    if steps != [] {
      StepKeepsInv(own, n, steps[0]);
      RunKeepsInv(own, Apply(own, n, steps[0]), steps[1..]);
    }
  }

  /** After any run of any number of peers, once no commit is under way every author and parent is
      stored, so every thread can be followed to its root unless the root's topic is unreadable. */
  lemma QuietNodeIsClosed(own: Owner, n: Node, steps: seq<Step>, m: Message)
    requires Sound(n.db) && Closed(n.db) && own.Self() in n.db.users && n.flights == map[]
    requires Runnable(own, n, steps)
    requires var n' := Execute(own, n, steps);
             (forall p | p in n'.flights :: n'.flights[p] == []) && m.id in n'.db.messages && n'.db.messages[m.id] == m
    ensures var db := Execute(own, n, steps).db;
            && Sound(db) && Closed(db)
            && (GetRoot(db, m).Ok? <==> !IsReply(m) || RootTopic(m.id).IsValid())
            && (GetMessageDepth(db, m).Ok? <==> GetRoot(db, m).Ok?)
  {
    hide Runnable, Execute, Inv, Sound, Closed, GetRoot, GetMessageDepth;
    QuietStart(own, n);
    RunKeepsInv(own, n, steps);
    QuietEnd(own, Execute(own, n, steps));
    GetRootResult(Execute(own, n, steps).db, m);
  }

  lemma QuietStart(own: Owner, n: Node)
    requires Sound(n.db) && Closed(n.db) && own.Self() in n.db.users && n.flights == map[]
    ensures Inv(own, n)
  {
    hide Sound;
    assert forall id | id in n.db.messages :: MessageClosed(n.db, n.db.messages[id]);
  }

  lemma QuietEnd(own: Owner, n: Node)
    requires Inv(own, n) && forall p | p in n.flights :: n.flights[p] == []
    ensures Sound(n.db) && Closed(n.db)
  {
    hide Sound;
    forall id | id in n.db.messages
      ensures MessageClosed(n.db, n.db.messages[id])
    {
      assert MessageAttached(n, n.db.messages[id]);
    }
  }

  // ---------------------------------------------------------------- what a commit does

  /** The insertions of one commit in a row. */
  function Inserts(peer: PeerNumber, k: nat): seq<Step> {
    if k == 0 then [] else [InsertNext(peer)] + Inserts(peer, k - 1)
  }

  /** Uninterrupted, the insertions of a commit are the storing of its buffer: the same database, and a halt
      exactly if storing fails. */
  lemma {:induction false} CommitIsPutAll(own: Owner, n: Node, peer: PeerNumber) returns (k: nat)
    requires peer in n.flights && !n.halted
    ensures k <= |n.flights[peer]| && Runnable(own, n, Inserts(peer, k))
    ensures var r, put := Execute(own, n, Inserts(peer, k)), PutAll(n.db, n.flights[peer]);
            && r.db == put.db && (r.halted <==> !put.ok)
            && r.flights == n.flights[peer := n.flights[peer][k..]] && (put.ok ==> k == |n.flights[peer]|)
    decreases |n.flights[peer]|
  {
    hide PutEntity;
    var flight := n.flights[peer];
    if flight == [] {
      k := 0;
      assert n.flights == n.flights[peer := flight[0..]];
    } else {
      var n' := Apply(own, n, InsertNext(peer));
      if n'.halted {
        k := 1;
        OneInsert(own, n, peer, 0);
      } else {
        var later := CommitIsPutAll(own, n', peer);
        k := later + 1;
        OneInsert(own, n, peer, later);
        assert flight[1..][later..] == flight[k..];
      }
    }
  }

  lemma OneInsert(own: Owner, n: Node, peer: PeerNumber, later: nat)
    requires Enabled(own, n, InsertNext(peer)) && Runnable(own, Apply(own, n, InsertNext(peer)), Inserts(peer, later))
    ensures Runnable(own, n, Inserts(peer, later + 1))
    ensures Execute(own, n, Inserts(peer, later + 1)) == Execute(own, Apply(own, n, InsertNext(peer)), Inserts(peer, later))
  {
    hide Enabled, Apply;
    assert Inserts(peer, later + 1)[1..] == Inserts(peer, later);
  }

  /** When a single insertion halts the node: for a message with tags that is stored already or repeats one
      of them, and for an operation whose object is not stored. */
  lemma InsertHaltsExactly(own: Owner, n: Node, peer: PeerNumber)
    requires Inv(own, n) && TagsMatch(n.db) && Enabled(own, n, InsertNext(peer))
    ensures Apply(own, n, InsertNext(peer)).halted <==>
              match n.flights[peer][0]
              case UserEntity(_) => false
              case MessageEntity(m) =>
                !Distinct(m.content.topic.Elems()) || (m.content.topic.Elems() != [] && m.id in n.db.messages)
              case OperationEntity(o) => !TargetStored(n.db, o)
  {
    var e := n.flights[peer][0];
    assert e in n.flights[peer] && Authentic(e);
    if e.MessageEntity? {
      var m := e.message;
      var tags := m.content.topic.Elems();
      PutTagsExact(n.db.tags, m.id, tags);
      if m.id in n.db.messages {
        assert Authentic(MessageEntity(n.db.messages[m.id])) && n.db.messages[m.id].content == m.content;
        assert tags != [] ==> tags[0] in tags && (m.id, tags[0]) in n.db.tags;
      }
    }
    hide Inv, Authentic;
  }

  /** So it happens that two peers who receive the same new thread at the same time halt the node: both
      buffers pass their check before either is stored. */
  lemma SameRootTwiceHalts(own: Owner, n: Node, p: PeerNumber, q: PeerNumber, m: Message)
    requires Inv(own, n) && p != q && q !in n.flights && !IsReply(m) && m.content.topic.IsValid()
    requires Enabled(own, n, Check(p, [MessageEntity(m)])) && m.id !in n.db.messages && TagsMatch(n.db)
    ensures var e := MessageEntity(m);
            var steps := [Check(p, [e]), Check(q, [e])] + [InsertNext(p), InsertNext(q)];
            Runnable(own, n, steps) && Execute(own, n, steps).halted
  {
    var e := MessageEntity(m);
    var n1 := Apply(own, n, Check(p, [e]));
    var n2 := Apply(own, n1, Check(q, [e]));
    MatchedBatchAuthentic(n.db, own, [e]);
    assert e in [e] && Authentic(e);
    TwoSteps(own, n, Check(p, [e]), Check(q, [e]));
    SecondInsertFails(n.db, m);
    var n3 := Apply(own, n2, InsertNext(p));
    assert n3 == Node(PutEntity(n.db, e).db, n2.flights[p := [e][1..]], false);
    assert n3.flights[q] == [e] && n2.flights[p] == [e];
    hide PutEntity, CheckPending, Inv, Authentic;
    TwoSteps(own, n2, InsertNext(p), InsertNext(q));
    RunsJoin(own, n, [Check(p, [e]), Check(q, [e])], [InsertNext(p), InsertNext(q)]);
  }

  lemma SecondInsertFails(db: Database, m: Message)
    requires Authentic(MessageEntity(m)) && !IsReply(m) && m.content.topic.IsValid() && TagsMatch(db) && m.id !in db.messages
    ensures var put := PutEntity(db, MessageEntity(m)); put.ok && !PutEntity(put.db, MessageEntity(m)).ok
  {
    var tags := m.content.topic.Elems();
    PutTagsExact(db.tags, m.id, tags);
    PutTagsExact(PutEntity(db, MessageEntity(m)).db.tags, m.id, tags);
    assert tags[0] in tags;
  }

  lemma {:induction false} RunsJoin(own: Owner, n: Node, first: seq<Step>, second: seq<Step>)
    requires Runnable(own, n, first) && Runnable(own, Execute(own, n, first), second)
    ensures Runnable(own, n, first + second)
    ensures Execute(own, n, first + second) == Execute(own, Execute(own, n, first), second)
    decreases first
  {
    hide Enabled, Apply;
    if first == [] {
      assert first + second == second;
    } else {
      RunsJoin(own, Apply(own, n, first[0]), first[1..], second);
      assert (first + second)[1..] == first[1..] + second;
    }
  }

  // ---------------------------------------------------------------- while a commit is under way

  /** The message is still to be inserted by some commit. */
  ghost predicate OnlyInFlight(n: Node, id: ID) {
    id !in n.db.messages && MessagePresent(n, id)
  }

  /** All ancestors of what is present are present. */
  lemma {:induction false} AncestorsPresent(own: Owner, n: Node, id: ID, a: ID)
    requires Inv(own, n) && MessagePresent(n, id) && a in Ancestors(id)
    ensures MessagePresent(n, a)
    decreases id
  {
    if a != id {
      ParentPresent(own, n, id);
      AncestorsPresent(own, n, id.message.parent, a);
    }
  }

  lemma ParentPresent(own: Owner, n: Node, id: ID)
    requires Inv(own, n) && MessagePresent(n, id)
    ensures id.MessageHash? && (id.message.parent == ZeroID || MessagePresent(n, id.message.parent))
  {
    hide UserPresent, UserValid, OperationValid;
    if id in n.db.messages {
      assert MessageAttached(n, n.db.messages[id]) && Authentic(MessageEntity(n.db.messages[id]));
    } else {
      var p, m :| p in n.flights && MessageEntity(m) in n.flights[p] && m.id == id;
      assert Authentic(MessageEntity(m)) && EntityClosed(n.db, n.flights[p], MessageEntity(m));
      if IsReply(m) && m.content.parent !in n.db.messages {
        var x :| MessageEntity(x) in n.flights[p] && x.id == m.content.parent;
      }
    }
  }

  /** After any run, a thread cannot be read from a stored or awaited message on exactly if one of its
      messages is still to be inserted, or the root's topic is invalid. */
  lemma ThreadReadableExactly(own: Owner, n: Node, id: ID)
    requires Inv(own, n) && MessagePresent(n, id)
    ensures ThreadReadable(n.db, id) <==>
              !(exists a | a in Ancestors(id) :: OnlyInFlight(n, a)) && RootTopic(id).IsValid()
  {
    hide MessagePresent, Authentic;
    forall a | a in Ancestors(id)
      ensures MessagePresent(n, a) && RootTopic(a) == RootTopic(id)
      ensures GetMessage(n.db, a).Ok? <==> a in n.db.messages && (IsReply(n.db.messages[a]) || RootTopic(id).IsValid())
    {
      AncestorsPresent(own, n, id, a);
      AncestorsOfAncestor(id, a);
      ReadableExactly(n.db, a);
    }
    if forall a | a in Ancestors(id) :: a in n.db.messages {
      RootIsAncestor(own, n, id);
      var root :| root in Ancestors(id) && !IsReply(n.db.messages[root]);
      assert GetMessage(n.db, root).Ok? <==> RootTopic(id).IsValid();
    } else {
      var a :| a in Ancestors(id) && a !in n.db.messages;
      assert OnlyInFlight(n, a) && GetMessage(n.db, a).Err?;
    }
  }

  /** Going up from a present message one arrives at a root. */
  lemma {:induction false} RootIsAncestor(own: Owner, n: Node, id: ID)
    requires Inv(own, n) && MessagePresent(n, id) && forall a | a in Ancestors(id) :: a in n.db.messages
    ensures exists a | a in Ancestors(id) :: !IsReply(n.db.messages[a])
    decreases id
  {
    hide MessagePresent;
    assert id in Ancestors(id) && Authentic(MessageEntity(n.db.messages[id]));
    if IsReply(n.db.messages[id]) {
      ParentPresent(own, n, id);
      RootIsAncestor(own, n, id.message.parent);
    }
  }

  /** So the filter halts on a stored reply exactly if one of its ancestors is still to be inserted or
      the topic of its thread is invalid. */
  lemma FilterHaltsDuringCommitExactly(own: Owner, n: Node, steps: seq<Step>, m: Message, peerSubs: Subs,
                                       hist: Option<History>, stored: Time)
    requires Inv(own, n) && Runnable(own, n, steps) && RelevantSubs(peerSubs, hist, stored) != []
    requires var n' := Execute(own, n, steps); m.id in n'.db.messages && n'.db.messages[m.id] == m
    ensures var n' := Execute(own, n, steps);
            && Sound(n'.db)
            && (InterestedInEntity(n'.db, peerSubs, hist, MessageEntity(m), stored) == None <==>
                  IsReply(m) && ((exists a | a in Ancestors(m.content.parent) :: OnlyInFlight(n', a))
                                 || !RootTopic(m.id).IsValid()))
  {
    hide Runnable, Execute, Inv, OnlyInFlight, ThreadReadable, InterestedInEntity;
    RunKeepsInv(own, n, steps);
    var n' := Execute(own, n, steps);
    InvIsSound(own, n', m);
    FilterHaltsExactly(n'.db, peerSubs, hist, MessageEntity(m), stored);
    if IsReply(m) {
      ThreadReadableExactly(own, n', m.content.parent);
    }
  }

  lemma InvIsSound(own: Owner, n: Node, m: Message)
    requires Inv(own, n) && m.id in n.db.messages && n.db.messages[m.id] == m
    ensures Sound(n.db) && m.id == MessageHash(m.content)
    ensures IsReply(m) ==> MessagePresent(n, m.content.parent)
  {
    assert MessageAttached(n, m) && Authentic(MessageEntity(m));
  }

  /** This happens: after the first insertion of a buffer that starts with a reply to an unknown message,
      the parent is only in flight, and whoever filters the reply halts. */
  lemma FirstInsertionDangles(own: Owner, n: Node, peer: PeerNumber, pending: seq<Entity>, m: Message,
                              peerSubs: Subs, hist: Option<History>, stored: Time)
    requires Inv(own, n) && Enabled(own, n, Check(peer, pending)) && pending[0] == MessageEntity(m)
    requires IsReply(m) && m.id !in n.db.messages && m.content.parent !in n.db.messages
    requires RelevantSubs(peerSubs, hist, stored) != []
    ensures var steps := [Check(peer, pending), InsertNext(peer)];
            && Runnable(own, n, steps)
            && var n' := Execute(own, n, steps);
               && Sound(n'.db) && m.id in n'.db.messages && OnlyInFlight(n', m.content.parent)
               && InterestedInEntity(n'.db, peerSubs, hist, MessageEntity(m), stored) == None
  {
    hide Inv, InterestedInEntity, Sound, CheckPending;
    var steps := [Check(peer, pending), InsertNext(peer)];
    CheckKeepsInv(own, n, peer, pending);
    var n1 := Apply(own, n, Check(peer, pending));
    var n' := Apply(own, n1, InsertNext(peer));
    TwoSteps(own, n, Check(peer, pending), InsertNext(peer));
    ParentStaysInFlight(own, n, peer, pending, m);
    assert m.content.parent in Ancestors(m.content.parent);
    hide Runnable, Execute, Apply, OnlyInFlight, Ancestors, Enabled;
    FilterHaltsDuringCommitExactly(own, n, steps, m, peerSubs, hist, stored);
  }

  lemma TwoSteps(own: Owner, n: Node, first: Step, second: Step)
    requires Enabled(own, n, first) && Enabled(own, Apply(own, n, first), second)
    ensures Runnable(own, n, [first, second])
    ensures Execute(own, n, [first, second]) == Apply(own, Apply(own, n, first), second)
  {
    hide Enabled, Apply;
    var n1 := Apply(own, n, first);
    var n2 := Apply(own, n1, second);
    assert [first, second][1..] == [second] && [second][1..] == [];
    assert Runnable(own, n2, []) && Execute(own, n2, []) == n2;
    assert Runnable(own, n1, [second]) && Execute(own, n1, [second]) == n2;
  }

  lemma ParentStaysInFlight(own: Owner, n: Node, peer: PeerNumber, pending: seq<Entity>, m: Message)
    requires Inv(own, n) && Enabled(own, n, Check(peer, pending)) && pending[0] == MessageEntity(m)
    requires IsReply(m) && m.id !in n.db.messages && m.content.parent !in n.db.messages
    ensures var n' := Apply(own, Apply(own, n, Check(peer, pending)), InsertNext(peer));
            m.id in n'.db.messages && n'.db.messages[m.id] == m && OnlyInFlight(n', m.content.parent)
  {
    ParentIsBehind(own, n, peer, pending, m);
    hide Inv, CheckPending, Authentic, Sound;
    var p :| MessageEntity(p) in pending[1..] && p.id == m.content.parent;
    var n' := Apply(own, Apply(own, n, Check(peer, pending)), InsertNext(peer));
    assert n'.flights[peer] == pending[1..];
    PutTables(n.db, pending[0]);
    hide PutEntity;
  }

  lemma ParentIsBehind(own: Owner, n: Node, peer: PeerNumber, pending: seq<Entity>, m: Message)
    requires Inv(own, n) && Enabled(own, n, Check(peer, pending)) && pending[0] == MessageEntity(m)
    requires IsReply(m) && m.content.parent !in n.db.messages
    ensures m.content.parent != m.id && exists p | MessageEntity(p) in pending[1..] :: p.id == m.content.parent
  {
    MatchedBatchClosed(n.db, own, pending);
    MatchedBatchAuthentic(n.db, own, pending);
    hide Inv, CheckPending, UserPresent, UserValid, OperationValid;
    assert EntityClosed(n.db, pending, pending[0]) && Authentic(pending[0]);
    ParentIsOther(m);
    var p :| MessageEntity(p) in pending && p.id == m.content.parent;
    assert MessageEntity(p) in pending[1..];
  }

  /** A message is not its own parent. */
  lemma ParentIsOther(m: Message)
    requires MessageValid(m)
    ensures m.content.parent != m.id
  {
    assert m.content.parent < m.content;
    assert m.content < m.id;
  }
}
