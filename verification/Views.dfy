/** The owner's view of the stored content: the operations of the owner's moderators applied to it. */
module Views {
  import opened Topics
  import opened Entities
  import opened Databases
  import opened Lists
  import opened Profiles

  /** Some moderator's operation is linked to the target. */
  predicate Judged(db: Database, links: set<(ID, ID)>, moderators: set<ID>, target: ID) {
    exists link | link in links ::
      link.1 == target && link.0 in db.operations && db.operations[link.0].content.author in moderators
  }

  predicate IsUserBanned(db: Database, moderators: set<ID>, user: ID) {
    Judged(db, db.userLinks, moderators, user)
  }

  predicate IsMessageRemoved(db: Database, moderators: set<ID>, message: ID) {
    Judged(db, db.messageLinks, moderators, message)
  }

  predicate Visible(db: Database, moderators: set<ID>, m: Message) {
    !IsUserBanned(db, moderators, m.content.author) && !IsMessageRemoved(db, moderators, m.id)
  }

  function VisibleIn(db: Database, moderators: set<ID>): Message -> bool {
    m => Visible(db, moderators, m)
  }

  /** More stored rows and more moderators only hide more. */
  lemma VisibleAntitone(db: Database, db': Database, moderators: set<ID>, moderators': set<ID>, m: Message)
    requires Extends(db, db') && moderators <= moderators'
    requires Visible(db', moderators', m)
    ensures Visible(db, moderators, m)
  {
  }

  /** The link joins a stored operation of this type to the object it names. */
  predicate LinkFits(db: Database, link: (ID, ID), typ: OperationType) {
    link.0 in db.operations &&
    var c := db.operations[link.0].content;
    c.typ == typ && c.target == link.1
  }

  /** Bans are linked to the users they name and removals to the messages they name: a link of another
      type halts the view. */
  ghost predicate LinksTyped(db: Database) {
    && (forall link | link in db.userLinks :: LinkFits(db, link, BanUser))
    && (forall link | link in db.messageLinks :: LinkFits(db, link, RemoveMessage))
  }

  /** Storing keeps the links typed, because an identifier determines the content of its operation. */
  lemma PutKeepsLinksTyped(db: Database, e: Entity)
    requires Sound(db) && Authentic(e) && LinksTyped(db)
    ensures LinksTyped(PutEntity(db, e).db)
  {
    PutTables(db, e);
    if e.OperationEntity? {
      var o := e.operation;
      if o.id in db.operations {
        IdDeterminesOperation(db, o);
      }
      LinksAfter(db, o);
      hide Authentic, Sound, PutEntity, PutOperation;
      var db' := PutOperation(db, o).db;
      assert PutEntity(db, e).db == db' by { PutsOperation(db, o); }
      JoinedFits(db, db', o, db.userLinks, BanUser, o.content.target in db.users);
      JoinedFits(db, db', o, db.messageLinks, RemoveMessage, o.content.target in db.messages);
    } else {
      hide Authentic, Sound;
    }
  }

  lemma PutsOperation(db: Database, o: Operation)
    ensures PutEntity(db, OperationEntity(o)) == PutOperation(db, o)
  {
  }

  lemma JoinedFits(db: Database, db': Database, o: Operation, links: set<(ID, ID)>, typ: OperationType, found: bool)
    requires db'.operations == Databases.Insert(db.operations, o.id, o)
    requires o.id in db.operations ==> db.operations[o.id].content == o.content
    requires forall link | link in links :: LinkFits(db, link, typ)
    ensures forall link | link in Joined(links, o, o.content.typ == typ && found) :: LinkFits(db', link, typ)
  {
    forall link | link in Joined(links, o, o.content.typ == typ && found)
      ensures LinkFits(db', link, typ)
    {
      if link in links {
        assert LinkFits(db, link, typ);
      }
    }
  }

  lemma IdDeterminesOperation(db: Database, o: Operation)
    requires Sound(db) && Authentic(OperationEntity(o)) && o.id in db.operations
    ensures db.operations[o.id].content == o.content
  {
    assert Authentic(OperationEntity(db.operations[o.id]));
  }

  lemma {:induction false} PutAllKeepsLinksTyped(db: Database, batch: seq<Entity>)
    requires Sound(db) && LinksTyped(db) && forall e | e in batch :: Authentic(e)
    ensures LinksTyped(PutAll(db, batch).db)
    decreases batch
  {
    if batch != [] {
      assert batch[0] in batch;
      assert forall e | e in batch[1..] :: e in batch;
      PutKeepsLinksTyped(db, batch[0]);
      PutSound(db, batch[0]);
      hide PutEntity, LinksTyped, Authentic, Sound;
      if PutEntity(db, batch[0]).ok {
        PutAllKeepsLinksTyped(PutEntity(db, batch[0]).db, batch[1..]);
      }
    }
  }

  // ---------------------------------------------------------------- what is hidden

  /** A moderator's operation of this type on this object. */
  predicate Judges(o: Operation, moderators: set<ID>, typ: OperationType, target: ID) {
    o.content.typ == typ && o.content.target == target && o.content.author in moderators
  }

  /** The rows of operations decide: a user is banned exactly if a linked ban by a moderator names it, and
      a message is removed exactly if a linked removal by a moderator names it. */
  lemma HiddenByRowsExactly(db: Database, moderators: set<ID>, target: ID)
    requires LinksTyped(db)
    ensures IsUserBanned(db, moderators, target) <==>
            exists id | id in db.operations :: Linked(db, id) && Judges(db.operations[id], moderators, BanUser, target)
    ensures IsMessageRemoved(db, moderators, target) <==>
            exists id | id in db.operations :: Linked(db, id) && Judges(db.operations[id], moderators, RemoveMessage, target)
  {
    forall id | id in db.operations && Linked(db, id) && db.operations[id].content.target == target
      ensures db.operations[id].content.typ == BanUser ==> (id, target) in db.userLinks
      ensures db.operations[id].content.typ == RemoveMessage ==> (id, target) in db.messageLinks
    {
      var link :| (link in db.messageLinks || link in db.userLinks) && link.0 == id;
      assert link == (id, link.1);
    }
  }

  /** What storing changes, exactly: a moderator's ban of a stored user bans this user and nobody else, a
      moderator's removal of a stored message removes this message and no other, and nothing else has an
      effect on the view. */
  lemma StoringJudgesExactly(db: Database, e: Entity, moderators: set<ID>, target: ID)
    requires Sound(db) && Authentic(e) && LinksTyped(db)
    ensures IsUserBanned(PutEntity(db, e).db, moderators, target) <==>
              || IsUserBanned(db, moderators, target)
              || (e.OperationEntity? && Judges(e.operation, moderators, BanUser, target) && target in db.users)
    ensures IsMessageRemoved(PutEntity(db, e).db, moderators, target) <==>
              || IsMessageRemoved(db, moderators, target)
              || (e.OperationEntity? && Judges(e.operation, moderators, RemoveMessage, target) && target in db.messages)
  {
    if e.OperationEntity? {
      PutsOperation(db, e.operation);
      hide PutEntity, Sound, Authentic, LinksTyped, IsUserBanned, IsMessageRemoved;
      OperationJudges(db, e.operation, moderators, target);
    } else {
      PutTables(db, e);
      NoLinksAdded(db, e);
      hide Authentic, Sound, PutEntity, LinksTyped;
    }
  }

  lemma OperationJudges(db: Database, o: Operation, moderators: set<ID>, target: ID)
    requires Sound(db) && Authentic(OperationEntity(o)) && LinksTyped(db)
    ensures IsUserBanned(PutOperation(db, o).db, moderators, target) <==>
              IsUserBanned(db, moderators, target) || (Judges(o, moderators, BanUser, target) && target in db.users)
    ensures IsMessageRemoved(PutOperation(db, o).db, moderators, target) <==>
              IsMessageRemoved(db, moderators, target) || (Judges(o, moderators, RemoveMessage, target) && target in db.messages)
  {
    if o.id in db.operations {
      IdDeterminesOperation(db, o);
    }
    LinksAfter(db, o);
    RowsAfter(db, o);
    hide Authentic, Sound, PutOperation, Judged, LinkFits;
    var db' := PutOperation(db, o).db;
    JudgedAfter(db, db', o, db.userLinks, BanUser, o.content.target in db.users, moderators, target);
    JudgedAfter(db, db', o, db.messageLinks, RemoveMessage, o.content.target in db.messages, moderators, target);
  }

  lemma RowsAfter(db: Database, o: Operation)
    ensures PutOperation(db, o).db.operations == Databases.Insert(db.operations, o.id, o)
  {
  }

  lemma NoLinksAdded(db: Database, e: Entity)
    requires !e.OperationEntity?
    ensures PutEntity(db, e).db.userLinks == db.userLinks && PutEntity(db, e).db.messageLinks == db.messageLinks
  {
  }

  lemma LinksAfter(db: Database, o: Operation)
    requires Authentic(OperationEntity(o))
    ensures PutOperation(db, o).db.userLinks == Joined(db.userLinks, o, o.content.typ == BanUser && o.content.target in db.users)
    ensures PutOperation(db, o).db.messageLinks ==
            Joined(db.messageLinks, o, o.content.typ == RemoveMessage && o.content.target in db.messages)
  {
  }

  function Joined(links: set<(ID, ID)>, o: Operation, found: bool): set<(ID, ID)> {
    if found then links + {(o.id, o.content.target)} else links
  }

  lemma JudgedAfter(db: Database, db': Database, o: Operation, links: set<(ID, ID)>, typ: OperationType, found: bool,
                    moderators: set<ID>, target: ID)
    requires db'.operations == Databases.Insert(db.operations, o.id, o)
    requires o.id in db.operations ==> db.operations[o.id].content == o.content
    requires forall link | link in links :: LinkFits(db, link, typ)
    ensures Judged(db', Joined(links, o, o.content.typ == typ && found), moderators, target) <==>
            Judged(db, links, moderators, target) || (Judges(o, moderators, typ, target) && found)
  {
    var link := (o.id, o.content.target);
    assert link in Joined(links, o, true);
    forall l | l in links
      ensures l.0 in db'.operations && db'.operations[l.0] == db.operations[l.0]
    {
      assert LinkFits(db, l, typ);
    }
  }

  /** So exactly the messages of the banned user, or the removed message, disappear. */
  lemma StoringHidesExactly(db: Database, o: Operation, moderators: set<ID>, m: Message)
    requires Sound(db) && Authentic(OperationEntity(o)) && LinksTyped(db)
    ensures Visible(PutOperation(db, o).db, moderators, m) <==>
              && Visible(db, moderators, m)
              && !(Judges(o, moderators, BanUser, m.content.author) && m.content.author in db.users)
              && !(Judges(o, moderators, RemoveMessage, m.id) && m.id in db.messages)
  {
    hide IsUserBanned, IsMessageRemoved, Judges, Sound, Authentic, LinksTyped;
    var e := OperationEntity(o);
    assert PutEntity(db, e).db == PutOperation(db, o).db;
    StoringJudgesExactly(db, e, moderators, m.content.author);
    StoringJudgesExactly(db, e, moderators, m.id);
  }

  class View {
    const profile: Profile
    const storage: Storage

    constructor (profile: Profile, storage: Storage)
      ensures this.profile == profile && this.storage == storage
    {
      this.profile, this.storage := profile, storage;
    }

    ghost predicate Ready()
      reads profile, storage
    {
      profile.Valid() && LinksTyped(storage.db)
    }

    /** What the owner may see. */
    ghost function Shown(): Message -> bool
      reads profile`moderatorTable, storage
    {
      VisibleIn(storage.db, profile.Moderators())
    }

    /** The join of the operations with the links to the target, in some order. */
    method GetOperationsOn(links: set<(ID, ID)>, target: ID) returns (ops: seq<Operation>)
      ensures forall o :: o in ops <==>
                exists link | link in links ::
                  link.1 == target && link.0 in storage.db.operations && storage.db.operations[link.0] == o
    {
      ops := [];
      var left := links;
      while left != {}
        invariant left <= links
        invariant forall o :: o in ops <==>
                    exists link | link in links - left ::
                      link.1 == target && link.0 in storage.db.operations && storage.db.operations[link.0] == o
      {
        var link :| link in left;
        ghost var done := links - left;
        left := left - {link};
        assert links - left == done + {link};
        if link.1 == target && link.0 in storage.db.operations {
          ops := ops + [storage.db.operations[link.0]];
        }
      }
    }

    /** One of the operations is a moderator's. An operation of another type would halt the view. */
    method HasJudge(ops: seq<Operation>, typ: OperationType) returns (found: bool)
      requires profile.Valid() && forall o | o in ops :: o.content.typ == typ
      modifies profile`moderators
      ensures profile.Valid()
      ensures found <==> exists o | o in ops :: o.content.author in profile.Moderators()
    {
      for i := 0 to |ops|
        invariant profile.Valid()
        invariant forall j | 0 <= j < i :: ops[j].content.author !in profile.Moderators()
      {
        var isModer := profile.HasModerator(ops[i].content.author);
        if isModer {
          assert ops[i] in ops && ops[i].content.typ == typ;
          return true;
        }
      }
      return false;
    }

    method UserBanned(uid: ID) returns (banned: bool)
      requires Ready()
      modifies profile`moderators
      ensures Ready() && banned == IsUserBanned(storage.db, profile.Moderators(), uid)
    {
      var authOps := GetOperationsOn(storage.db.userLinks, uid);
      banned := HasJudge(authOps, BanUser);
    }

    /** `None` is the nil message that a removal or a ban leaves. */
    method ModerateMessage(m: Message) returns (res: Option<Message>)
      requires Ready()
      modifies profile`moderators
      ensures Ready() && Shown() == old(Shown()) && res == if Shown()(m) then Some(m) else None
    {
      var isBanned := UserBanned(m.content.author);
      if isBanned {
        return None;
      }
      var msgOps := GetOperationsOn(storage.db.messageLinks, m.id);
      var removed := HasJudge(msgOps, RemoveMessage);
      return if removed then None else Some(m);
    }

    /** Moderation of a board keeps the visible messages in their order. */
    method ModerateMessages(board: seq<Message>) returns (res: seq<Message>)
      requires Ready()
      modifies profile`moderators
      ensures Ready() && Shown() == old(Shown()) && res == Filter(Shown(), board)
    {
      res := [];
      for i := 0 to |board|
        invariant Ready() && Shown() == old(Shown()) && res == Filter(Shown(), board[..i])
      {
        assert board[..i + 1] == board[..i] + [board[i]];
        FilterSnoc(Shown(), board[..i], board[i]);
        var m := ModerateMessage(board[i]);
        if m.Some? {
          res := res + [m.value];
        }
      }
      assert board[..|board|] == board;
    }
  }
}
