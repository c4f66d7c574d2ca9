/** Two concrete nodes that get into the situations the other modules describe. */
module Examples {
  import opened Topics
  import opened Subscriptions
  import opened Entities
  import opened Databases
  import opened Views
  import opened Receiving
  import opened Sending
  import opened HonestExchange
  import opened Protocol
  import opened Depths
  import opened Announcements
  import opened Histories
  import Commits
  import ActiveSync

  const ALICE := User(UserHash(2), UserContent(2, true, "b", "", EPOCH), 2)
  const BOB := User(UserHash(3), UserContent(3, true, "c", "", EPOCH), 3)

  /** The root of the example thread, by an author who is neither of the two. */
  const ROOT := ReplyAt(0)
  const SUBS: Subs := [Tags(["a"])]

  function OwnerOf(u: User): Owner {
    Owner(u.content.key, SUBS, {u.id})
  }

  /** Nothing but the owner is stored. */
  function NewDatabase(u: User): Database {
    Database(map[u.id := u], map[], map[], {}, {}, {})
  }

  function PeerOf(u: User, peer: User, role: Role, state: State, db: Database): Peer {
    Peer(role, u, OwnerOf(u), None, Local(db, 0), state, peer, SUBS)
  }

  lemma UsersAreValid()
    ensures UserValid(ALICE) && UserValid(BOB) && ALICE.id == OwnerOf(ALICE).Self() && BOB.id == OwnerOf(BOB).Self()
    ensures Subscriptions.IsValid(SUBS)
  {
    assert SUBS[0].IsValid();
  }

  lemma RootIsValid()
    ensures Authentic(MessageEntity(ROOT)) && !IsReply(ROOT) && ROOT.content.topic == SUBS[0]
    ensures ROOT.content.author == AUTHOR.id && ROOT.content.dateWritten == EPOCH && ROOT.signedBy == 1 && ROOT.id.MessageHash?
  {
    ReplyFacts(0);
  }

  lemma SubsCoverRoot()
    ensures Covers(SUBS, ROOT.content.topic)
  {
    assert SUBS[0].ContainsTopic(ROOT.content.topic);
  }

  // ---------------------------------------------------------------- announcing during a commit

  const BATCH := [MessageEntity(ROOT), UserEntity(AUTHOR)]

  /** Alice's node, before it receives the root and its author from peer 0. */
  const RECEIVING := Commits.Node(NewDatabase(ALICE), map[], false)
  const INSERTING: seq<Commits.Step> := [Commits.Check(0, BATCH), Commits.InsertNext(0)]

  lemma BatchIsMatched()
    ensures CheckPending(NewDatabase(ALICE), OwnerOf(ALICE), BATCH) == Matched
  {
    RootIsValid();
    AuthorIsValid();
    SubsCoverRoot();
    var db, own := NewDatabase(ALICE), OwnerOf(ALICE);
    hide Covers, Authentic, UserValid, MessageValid, ReplyAt;
    assert MessageValid(ROOT) && UserValid(AUTHOR) by { assert Authentic(MessageEntity(ROOT)) && Authentic(UserEntity(AUTHOR)); }
    assert FindPending(BATCH, AUTHOR.id) == FindPending(BATCH[1..], AUTHOR.id) == Some(UserEntity(AUTHOR));
    assert !NearPending(BATCH, ROOT) && !NearStored(db, ROOT);
    assert CheckMessage(db, own, BATCH, ROOT) == Matched;
    assert CheckUser(db, own, AUTHOR) == Matched;
    hide CheckMessage, CheckUser;
    assert CheckFrom(db, own, BATCH, 2) == Matched;
    assert CheckFrom(db, own, BATCH, 1) == Matched;
  }

  lemma AliceIsReceiving()
    ensures Commits.Inv(OwnerOf(ALICE), RECEIVING) && Commits.Enabled(OwnerOf(ALICE), RECEIVING, Commits.Check(0, BATCH))
  {
    UsersAreValid();
    BatchIsMatched();
    hide CheckPending, UserValid;
  }

  /** Alice is idle on another connection, with Bob, and her database is as in the middle of that commit. */
  function IdlePeers(): Link {
    Link(PeerOf(ALICE, BOB, Client, Idle, Commits.Execute(OwnerOf(ALICE), RECEIVING, INSERTING).db),
         PeerOf(BOB, ALICE, Server, Idle, NewDatabase(BOB)), [], [])
  }

  lemma IdlePeersAreHonest()
    ensures Inv(IdlePeers())
  {
    UsersAreValid();
    AliceIsReceiving();
    Commits.TwoSteps(OwnerOf(ALICE), RECEIVING, Commits.Check(0, BATCH), Commits.InsertNext(0));
    CommitsAreWriters(OwnerOf(ALICE), RECEIVING, INSERTING);
    NewNodeIsHonest(PeerOf(BOB, ALICE, Server, Idle, NewDatabase(BOB)));
    hide Commits.Execute, Commits.Inv, Commits.Enabled, Commits.Runnable, Sound, UserValid, Subscriptions.IsValid;
    assert Quiet(IdlePeers());
  }

  lemma BobWantsTheRoot(stored: Time)
    ensures var l := IdlePeers();
            && l.me.state == Idle && l.other.state == Idle && l.out == [] && l.inn == [] && Acquainted(l)
            && Covers(RelevantSubs(l.me.peerSubs, l.me.hist, stored), ROOT.content.topic)
            && !HasEntity(l.other.local.db, ROOT.id) && AUTHOR.id !in l.other.local.db.users
            && !IsUserBanned(l.other.local.db, l.other.own.moderators, AUTHOR.id)
            && ROOT.id !in RECEIVING.db.messages && AUTHOR.id !in RECEIVING.db.users
            && l.me.local.db == Commits.Execute(OwnerOf(ALICE), RECEIVING, INSERTING).db
  {
    RootIsValid();
    SubsCoverRoot();
    hide Covers, ReplyAt, Commits.Execute;
  }

  lemma AliceInserts()
    ensures Commits.Runnable(OwnerOf(ALICE), RECEIVING, INSERTING)
  {
    AliceIsReceiving();
    hide Commits.Inv, CheckPending;
    Commits.TwoSteps(OwnerOf(ALICE), RECEIVING, Commits.Check(0, BATCH), Commits.InsertNext(0));
  }

  /** It does happen: Alice announces the root to Bob before its author is stored, Bob asks for the author,
      and Alice gives up the connection. */
  lemma RefusalHappens(stored: Time)
    ensures Commits.Runnable(OwnerOf(ALICE), RECEIVING, INSERTING)
    ensures Inv(IdlePeers()) && !Whole(IdlePeers().me.local.db, MessageEntity(ROOT))
    ensures exists steps: seq<Step> :: Runnable(IdlePeers(), steps) && Execute(IdlePeers(), steps).me.state == Failed
  {
    RootIsValid();
    AliceIsReceiving();
    AliceInserts();
    IdlePeersAreHonest();
    BobWantsTheRoot(stored);
    hide Inv, Commits.Inv, Commits.Enabled, Commits.Execute, Covers, ReplyAt, Whole, Runnable, Execute, Commits.Runnable;
    hide IdlePeers, OwnerOf, HasEntity, IsUserBanned, RelevantSubs, Authentic;
    AnnouncingDuringCommitIsRefused(OwnerOf(ALICE), RECEIVING, 0, ROOT, AUTHOR, IdlePeers(), stored);
  }

  // ---------------------------------------------------------------- a sync that is interrupted

  /** Alice has the root and its author when she connects to Bob for the first time. */
  const ALICES: Database := Database(map[ALICE.id := ALICE, AUTHOR.id := AUTHOR], map[ROOT.id := ROOT], map[], {}, {}, {(ROOT.id, "a")})

  function FirstContact(): Link {
    Link(PeerOf(ALICE, ALICE, Client, SendUser, ALICES), PeerOf(BOB, BOB, Server, AwaitUser, NewDatabase(BOB)), [], [])
  }

  lemma AlicesIsWhole()
    ensures Sound(ALICES) && Whole(ALICES, MessageEntity(ROOT))
  {
    RootIsValid();
    UsersAreValid();
    AuthorIsValid();
    hide UserValid;
    assert Authentic(UserEntity(ALICE));
    hide Authentic, ReplyAt;
    assert SUBS[0].IsValid();
    assert Ancestors(ROOT.id) == {ROOT.id};
  }

  lemma FirstContactIsConnected()
    ensures Connected(FirstContact())
  {
    UsersAreValid();
    AlicesIsWhole();
    NewNodeIsHonest(PeerOf(BOB, BOB, Server, Closed, NewDatabase(BOB)));
    hide UserValid, Sound, Whole, Subscriptions.IsValid;
  }

  /** It does happen: Alice announces the root in the sync, and if the connection ends now, the history she
      saves keeps the root from being announced when Bob comes back with the same subscriptions. */
  lemma InterruptionHappens(stored: Time, now: Time, later: Database)
    requires stored < now && Sound(later)
    ensures exists steps: seq<Step> ::
              && Runnable(FirstContact(), steps)
              && var p := Execute(FirstContact(), steps).me;
                 && p.state == SendingEntity(MessageEntity(ROOT), ActiveSyncing) && IsSynced(p.state) && InSync(p.state)
                 && !ActiveSync.Wanted(later, p.peerSubs, HistoryAfter(p.state, p.hist, p.peerSubs, now),
                                       ActiveSync.StoredEntity(MessageEntity(ROOT), stored))
  {
    var l, e := FirstContact(), MessageEntity(ROOT);
    FirstContactIsConnected();
    AlicesIsWhole();
    RootIsValid();
    SubsCoverRoot();
    UsersAreValid();
    hide Covers, Whole, Sound, ReplyAt, Connected, UserValid, Runnable, Execute, Subscriptions.IsValid, ActiveSync.Wanted;
    SyncIsInterrupted(l, e, stored);
    var steps := [Step(true, Start), YOURS, MINE] + [YOURS, MINE] + [Step(true, Announce(e, stored))];
    var p := Execute(l, steps).me;
    ClosedSyncForgetsExactly(later, p.peerSubs, p.state, p.hist, ActiveSync.StoredEntity(e, stored), now);
  }
}
