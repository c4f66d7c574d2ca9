/** The entity database as abstract tables, and the storage in front of it. */
module Databases {
  import opened Lists
  import opened Topics
  import opened Entities

  datatype Error = NoSuchEntity | InconsistentDB | DBOperFailed

  datatype Result<+T> = Ok(value: T) | Err(error: Error)

  /** Rows are only ever added, and a row whose key is taken is ignored. The link tables join an
      operation to the user or message it is performed on; `tags` joins messages to their tags. */
  datatype Database = Database(
    users: map<ID, User>,
    messages: map<ID, Message>,
    operations: map<ID, Operation>,
    userLinks: set<(ID, ID)>,
    messageLinks: set<(ID, ID)>,
    tags: set<(ID, Tag)>)

  /** The database after an insertion, and whether the insertion reported success. */
  datatype PutResult = PutResult(db: Database, ok: bool)

  // ---------------------------------------------------------------- insertions

  /** Insert, or ignore when the key is taken. */
  function Insert<V>(table: map<ID, V>, id: ID, v: V): map<ID, V> {
    if id in table then table else table[id := v]
  }

  function PutUser(db: Database, u: User): Database {
    db.(users := Insert(db.users, u.id, u))
  }

  /** The pairs of message and tag are unique, and a repeated pair is an error rather than ignored. */
  function PutTags(tags: set<(ID, Tag)>, id: ID, list: seq<Tag>): (set<(ID, Tag)>, bool)
    decreases list
  {
    if list == [] then (tags, true)
    else if (id, list[0]) in tags then (tags, false)
    else PutTags(tags + {(id, list[0])}, id, list[1..])
  }

  function PutMessage(db: Database, m: Message): PutResult {
    var (tags, ok) := PutTags(db.tags, m.id, m.content.topic.Elems());
    PutResult(db.(messages := Insert(db.messages, m.id, m), tags := tags), ok)
  }

  /** The row goes in first; then the operation is linked to its object, which must be stored in the
      table its type asks for. When it is not, the row stays without a link. */
  function PutOperation(db: Database, o: Operation): PutResult {
    var inserted := db.(operations := Insert(db.operations, o.id, o));
    if TargetStored(db, o) then
      if o.content.typ == BanUser then
        PutResult(inserted.(userLinks := db.userLinks + {(o.id, o.content.target)}), true)
      else
        PutResult(inserted.(messageLinks := db.messageLinks + {(o.id, o.content.target)}), true)
    else PutResult(inserted, false)
  }

  predicate TargetStored(db: Database, o: Operation) {
    match o.content.typ
    case RemoveMessage => o.content.target in db.messages
    case BanUser => o.content.target in db.users
    case OtherType => false
  }

  function PutEntity(db: Database, e: Entity): PutResult {
    match e
    case UserEntity(u) => PutResult(PutUser(db, u), true)
    case MessageEntity(m) => PutMessage(db, m)
    case OperationEntity(o) => PutOperation(db, o)
  }

  /** Insertion in order up to the first failure. */
  function PutAll(db: Database, batch: seq<Entity>): PutResult
    decreases batch
  {
    if batch == [] then PutResult(db, true)
    else
      var first := PutEntity(db, batch[0]);
      if first.ok then PutAll(first.db, batch[1..]) else first
  }

  // ---------------------------------------------------------------- lookups

  predicate HasEntity(db: Database, id: ID) {
    id in db.users || id in db.messages || id in db.operations
  }

  predicate Linked(db: Database, id: ID) {
    (exists link | link in db.messageLinks :: link.0 == id) || (exists link | link in db.userLinks :: link.0 == id)
  }

  function GetUser(db: Database, id: ID): Result<User> {
    if id in db.users then Ok(db.users[id]) else Err(NoSuchEntity)
  }

  /** A row is rebuilt through the checks of `NewTopic`, so an invalid topic makes it unreadable. */
  function GetMessage(db: Database, id: ID): Result<Message> {
    if id !in db.messages then Err(NoSuchEntity)
    else if !db.messages[id].content.topic.IsValid() then Err(InconsistentDB)
    else Ok(db.messages[id])
  }

  function GetOperation(db: Database, id: ID): Result<Operation> {
    if id !in db.operations then Err(NoSuchEntity)
    else if !Linked(db, id) then Err(DBOperFailed)
    else Ok(db.operations[id])
  }

  function GetEntity(db: Database, id: ID): Result<Entity> {
    match GetUser(db, id)
    case Ok(u) => Ok(UserEntity(u))
    case Err(_) =>
      match GetMessage(db, id)
      case Ok(m) => Ok(MessageEntity(m))
      case Err(NoSuchEntity) =>
        (match GetOperation(db, id)
         case Ok(o) => Ok(OperationEntity(o))
         case Err(e) => Err(e))
      case Err(e) => Err(e)
  }

  /** Follows parents up to the root of the thread. */
  function GetRoot(db: Database, m: Message): Result<Message>
    requires Sound(db)
    decreases m.content
  {
    if !IsReply(m) then Ok(m)
    else
      match GetMessage(db, m.content.parent)
      case Err(e) => Err(e)
      case Ok(p) => GetRoot(db, p)
  }

  function GetMessageDepth(db: Database, m: Message): Result<nat>
    requires Sound(db)
    decreases m.content
  {
    if !IsReply(m) then Ok(0)
    else
      match GetMessage(db, m.content.parent)
      case Err(e) => Err(e)
      case Ok(p) =>
        match GetMessageDepth(db, p)
        case Err(e) => Err(e)
        case Ok(d) => Ok(d + 1)
  }

  // ---------------------------------------------------------------- what a database should satisfy

  /** Every row was checked before it was stored. */
  ghost predicate Sound(db: Database) {
    && (forall id | id in db.users :: db.users[id].id == id && Authentic(UserEntity(db.users[id])))
    && (forall id | id in db.messages :: db.messages[id].id == id && Authentic(MessageEntity(db.messages[id])))
    && (forall id | id in db.operations :: db.operations[id].id == id && Authentic(OperationEntity(db.operations[id])))
  }

  /** Every author is stored, and so is every parent. */
  ghost predicate Closed(db: Database) {
    && (forall id | id in db.messages :: MessageClosed(db, db.messages[id]))
    && (forall id | id in db.operations :: db.operations[id].content.author in db.users)
  }

  predicate MessageClosed(db: Database, m: Message) {
    m.content.author in db.users && (m.content.parent == ZeroID || m.content.parent in db.messages)
  }

  /** Every stored message has a valid topic. */
  ghost predicate Readable(db: Database) {
    forall id | id in db.messages :: db.messages[id].content.topic.IsValid()
  }

  /** The tag table holds the tags of the stored messages. */
  ghost predicate TagsMatch(db: Database) {
    forall id: ID, tag: Tag ::
      (id, tag) in db.tags <==> id in db.messages && tag in db.messages[id].content.topic.Elems()
  }

  ghost predicate Good(db: Database) {
    Sound(db) && Closed(db) && Readable(db) && TagsMatch(db)
  }

  /** Rows are never changed or removed. */
  ghost predicate Extends(db: Database, db': Database) {
    && (forall id | id in db.users :: id in db'.users && db'.users[id] == db.users[id])
    && (forall id | id in db.messages :: id in db'.messages && db'.messages[id] == db.messages[id])
    && (forall id | id in db.operations :: id in db'.operations && db'.operations[id] == db.operations[id])
    && db.userLinks <= db'.userLinks && db.messageLinks <= db'.messageLinks && db.tags <= db'.tags
  }

  predicate Stored(db: Database, e: Entity) {
    match e
    case UserEntity(u) => u.id in db.users && db.users[u.id] == u
    case MessageEntity(m) => m.id in db.messages && db.messages[m.id] == m
    case OperationEntity(o) => o.id in db.operations && db.operations[o.id] == o
  }

  /** The identifier is taken in the table of the entity's kind. */
  predicate Occupied(db: Database, e: Entity) {
    match e
    case UserEntity(u) => u.id in db.users
    case MessageEntity(m) => m.id in db.messages
    case OperationEntity(o) => o.id in db.operations
  }

  // ---------------------------------------------------------------- facts about insertion

  lemma {:induction false} PutTagsExact(tags: set<(ID, Tag)>, id: ID, list: seq<Tag>)
    ensures PutTags(tags, id, list).1 <==> Distinct(list) && forall tag | tag in list :: (id, tag) !in tags
    ensures tags <= PutTags(tags, id, list).0
    ensures forall x, tag :: (x, tag) in PutTags(tags, id, list).0 ==> (x, tag) in tags || (x == id && tag in list)
    ensures PutTags(tags, id, list).1 ==> forall tag | tag in list :: (id, tag) in PutTags(tags, id, list).0
    decreases list
  {
    if list != [] && (id, list[0]) !in tags {
      PutTagsExact(tags + {(id, list[0])}, id, list[1..]);
      assert list == [list[0]] + list[1..];
      if PutTags(tags, id, list).1 {
        forall i, j | 0 <= i < j < |list| ensures list[i] != list[j]
        {
          assert list[j] == list[1..][j - 1];
          if i > 0 { assert list[i] == list[1..][i - 1]; }
        }
      } else if Distinct(list) {
        var tag :| tag in list[1..] && (id, tag) in tags + {(id, list[0])};
      }
    }
  }

  /** Which table an insertion touches. */
  lemma PutTables(db: Database, e: Entity)
    ensures var r := PutEntity(db, e).db;
            && r.users == (if e.UserEntity? then Insert(db.users, e.Id(), e.user) else db.users)
            && r.messages == (if e.MessageEntity? then Insert(db.messages, e.Id(), e.message) else db.messages)
            && r.operations ==
                 (if e.OperationEntity? then Insert(db.operations, e.Id(), e.operation) else db.operations)
            && db.userLinks <= r.userLinks && db.messageLinks <= r.messageLinks && db.tags <= r.tags
            && (!e.MessageEntity? ==> r.tags == db.tags)
  {
    match e
    case UserEntity(u) =>
    case MessageEntity(m) => PutTagsExact(db.tags, m.id, m.content.topic.Elems());
    case OperationEntity(o) =>
  }

  lemma PutExtends(db: Database, e: Entity)
    ensures Extends(db, PutEntity(db, e).db)
    ensures Occupied(PutEntity(db, e).db, e)
    ensures !Occupied(db, e) ==> Stored(PutEntity(db, e).db, e)
  {
    PutTables(db, e);
    hide PutEntity;
  }

  /** An insertion adds at most a row of its own. */
  lemma PutAddsOnly(db: Database, e: Entity, x: Entity)
    requires Stored(PutEntity(db, e).db, x)
    ensures Stored(db, x) || x == e
  {
    PutTables(db, e);
    hide PutEntity;
  }

  lemma ExtendsTransitive(a: Database, b: Database, c: Database)
    requires Extends(a, b) && Extends(b, c)
    ensures Extends(a, c)
  {
  }

  /** After an insertion in order, everything is present and nothing else was added. */
  lemma {:induction false} PutAllEffect(db: Database, batch: seq<Entity>)
    ensures Extends(db, PutAll(db, batch).db)
    ensures PutAll(db, batch).ok ==> forall e | e in batch :: Occupied(PutAll(db, batch).db, e)
    ensures forall x | Stored(PutAll(db, batch).db, x) :: Stored(db, x) || x in batch
    decreases batch
  {
    if batch != [] {
      var first := PutEntity(db, batch[0]);
      PutExtends(db, batch[0]);
      PutAllEffect(first.db, batch[1..]);
      if first.ok {
        ExtendsTransitive(db, first.db, PutAll(db, batch).db);
      }
      forall x | Stored(PutAll(db, batch).db, x)
        ensures Stored(db, x) || x in batch
      {
        if Stored(first.db, x) {
          PutAddsOnly(db, batch[0], x);
        }
      }
    }
  }

  /** Inserting an authentic entity keeps the tables sound. */
  lemma PutSound(db: Database, e: Entity)
    requires Sound(db) && Authentic(e)
    ensures Sound(PutEntity(db, e).db)
  {
    PutTables(db, e);
    hide PutEntity, UserValid, MessageValid, OperationValid;
  }

  // ---------------------------------------------------------------- facts about threads

  /** The message and all its ancestors are stored and readable. */
  predicate ThreadReadable(db: Database, id: ID) {
    forall a | a in Ancestors(id) :: GetMessage(db, a).Ok?
  }

  /** In any sound database the walks to the root succeed exactly if every ancestor is stored and
      readable, and then find the root's topic and the depth. */
  lemma {:induction false} GetRootExactly(db: Database, m: Message)
    requires Sound(db)
    ensures GetRoot(db, m).Ok? <==> (IsReply(m) ==> ThreadReadable(db, m.content.parent))
    ensures GetMessageDepth(db, m).Ok? <==> GetRoot(db, m).Ok?
    ensures m.id == MessageHash(m.content) && GetRoot(db, m).Ok? ==>
              && !IsReply(GetRoot(db, m).value)
              && GetRoot(db, m).value.content.topic == RootTopic(m.id)
              && GetMessageDepth(db, m) == Ok(Depth(m.id))
    decreases m.content
  {
    if IsReply(m) {
      var id := m.content.parent;
      assert id in Ancestors(id);
      if GetMessage(db, id).Ok? {
        var p := db.messages[id];
        assert Authentic(MessageEntity(p)) && p.id == id;
        assert Ancestors(id) == {id} + if IsReply(p) then Ancestors(p.content.parent) else {};
        GetRootExactly(db, p);
      }
    }
  }

  /** A stored message is unreadable exactly if it is a root with an invalid topic. */
  lemma ReadableExactly(db: Database, id: ID)
    requires Sound(db)
    ensures GetMessage(db, id).Ok? <==>
            id in db.messages && (IsReply(db.messages[id]) || RootTopic(id).IsValid())
  {
    if id in db.messages {
      assert Authentic(MessageEntity(db.messages[id]));
    }
  }

  /** In a closed database the walk to the root fails only on an unreadable root topic. */
  lemma {:induction false} GetRootResult(db: Database, m: Message)
    requires Sound(db) && Closed(db)
    requires m.id in db.messages && db.messages[m.id] == m
    ensures GetRoot(db, m).Ok? <==> !IsReply(m) || RootTopic(m.id).IsValid()
    ensures GetMessageDepth(db, m).Ok? <==> GetRoot(db, m).Ok?
    ensures GetRoot(db, m).Ok? ==>
              && !IsReply(GetRoot(db, m).value)
              && GetRoot(db, m).value.content.topic == RootTopic(m.id)
              && GetMessageDepth(db, m) == Ok(Depth(m.id))
    ensures GetRoot(db, m).Err? ==> GetRoot(db, m) == Err(InconsistentDB)
    decreases m.content
  {
    assert Authentic(MessageEntity(m));
    if IsReply(m) {
      var p := db.messages[m.content.parent];
      assert MessageClosed(db, m);
      assert Authentic(MessageEntity(p)) && p.id == m.content.parent;
      GetRootResult(db, p);
    }
  }

  /** In a closed database every identifier a stored message depends on is stored. */
  lemma {:induction false} ChainStored(db: Database, id: ID)
    requires Sound(db) && Closed(db) && id in db.messages
    ensures WellTyped(id)
    ensures forall x | x in Chain(id) :: x in db.users || x in db.messages
    decreases id
  {
    var m := db.messages[id];
    assert MessageClosed(db, m) && Authentic(MessageEntity(m));
    if m.content.parent != ZeroID {
      ChainStored(db, m.content.parent);
    }
  }

  // ---------------------------------------------------------------- the storage object

  class Storage {
    var db: Database

    constructor (initial: Database)
      ensures db == initial
    {
      db := initial;
    }

    /** Stores the tags one by one and stops at the first pair that is already there. */
    method PutMessageTopic(m: Message) returns (ok: bool)
      modifies this
      ensures (db.tags, ok) == PutTags(old(db).tags, m.id, m.content.topic.Elems())
      ensures db == old(db).(tags := db.tags)
    {
      var tags := m.content.topic.Elems();
      for i := 0 to |tags|
        invariant db == old(db).(tags := db.tags)
        invariant PutTags(old(db).tags, m.id, tags) == PutTags(db.tags, m.id, tags[i..])
      {
        assert tags[i..][1..] == tags[i + 1..];
        if (m.id, tags[i]) in db.tags {
          return false;
        }
        db := db.(tags := db.tags + {(m.id, tags[i])});
      }
      return true;
    }

    method Store(e: Entity) returns (ok: bool)
      modifies this
      ensures PutResult(db, ok) == PutEntity(old(db), e)
    {
      match e
      case UserEntity(u) =>
        db := PutUser(db, u);
        ok := true;
      case MessageEntity(m) =>
        if m.id !in db.messages {
          db := db.(messages := db.messages[m.id := m]);
        }
        ok := PutMessageTopic(m);
      case OperationEntity(o) =>
        var stored := TargetStored(db, o);
        if o.id !in db.operations {
          db := db.(operations := db.operations[o.id := o]);
        }
        if !stored {
          return false;
        }
        if o.content.typ == BanUser {
          db := db.(userLinks := db.userLinks + {(o.id, o.content.target)});
        } else {
          db := db.(messageLinks := db.messageLinks + {(o.id, o.content.target)});
        }
        ok := true;
    }

    method Root(m: Message) returns (res: Result<Message>)
      requires Sound(db)
      ensures res == GetRoot(db, m)
    {
      var cur := m;
      while IsReply(cur)
        invariant GetRoot(db, m) == GetRoot(db, cur)
        decreases cur.content
      {
        var p := GetMessage(db, cur.content.parent);
        if p.Err? {
          return Err(p.error);
        }
        cur := p.value;
      }
      return Ok(cur);
    }

    method MessageDepth(m: Message) returns (res: Result<nat>)
      requires Sound(db)
      ensures res == GetMessageDepth(db, m)
    {
      var d, cur := 0, m;
      while IsReply(cur)
        invariant GetMessageDepth(db, m) ==
                  match GetMessageDepth(db, cur) case Ok(r) => Ok(r + d) case Err(e) => Err(e)
        decreases cur.content
      {
        var p := GetMessage(db, cur.content.parent);
        if p.Err? {
          return Err(p.error);
        }
        cur := p.value;
        d := d + 1;
      }
      return Ok(d);
    }
  }
}
