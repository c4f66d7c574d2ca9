/** What a node remembers of a peer that leaves, and what the next sync with that peer makes of it. */
module Histories {
  import opened Topics
  import opened Subscriptions
  import opened Entities
  import opened Databases
  import opened Lists
  import opened Sending
  import opened Protocol
  import opened ActiveSync
  import opened PeerStates
  import opened Views
  import opened HonestExchange

  /** A peer is taken for synced unless its current state is one of these; a sending or receiving state
      inside a sync is not among them. */
  predicate IsSynced(s: State) {
    !Handshaking(s) && s != ActiveSyncing && s != PassiveSyncing
  }

  /** Closing a peer saves when it left and what it was subscribed to. */
  function HistoryAfter(s: State, before: Option<History>, peerSubs: Subs, now: Time): Option<History> {
    if IsSynced(s) then Some(History(now, peerSubs)) else before
  }

  /** A saved history does not mean that the sync was finished: these are the states where it was not. */
  lemma SavedBeforeSynced(s: State)
    ensures IsSynced(s) && InSync(s) <==>
            (s.SendingEntity? && s.next == ActiveSyncing) || (s.ReceivingEntity? && s.next == PassiveSyncing)
  {
  }

  /** And runs get there: two peers complete the handshake, the client announces something the other one
      wants, and if the connection ends now, before anything is acknowledged, a history is saved. */
  lemma SyncIsInterrupted(l: Link, e: Entity, stored: Time)
    requires Connected(l) && Acceptable(l.me, l.other.user) && Acceptable(l.other, l.me.user)
    requires Whole(l.me.local.db, e) && Interest(l.other.own.subs, l.me.hist, e, stored)
    ensures var steps := [Step(true, Start), YOURS, MINE] + [YOURS, MINE] + [Step(true, Announce(e, stored))];
            && Runnable(l, steps)
            && var r := Execute(l, steps);
               && r.me.state == SendingEntity(e, ActiveSyncing) && IsSynced(r.me.state) && InSync(r.me.state)
               && r.me.peerSubs == l.other.own.subs && r.me.hist == l.me.hist
               && r.out == [Receiving.AnnouncePayload(e.Id())] && r.inn == [] && r.other.state == PassiveSyncing
  {
    hide Runnable, Execute, Honest, Sound, Whole, InterestedInEntity, Interest, Acceptable, Finalize;
    var handshake := [Step(true, Start), YOURS, MINE] + [YOURS, MINE];
    HandshakeCompletes(l);
    ClientIsWhole(l, e);
    AnnouncedInSync(Execute(l, handshake), e, stored);
    RunsJoin(l, handshake, [Step(true, Announce(e, stored))]);
  }

  lemma AnnouncedInSync(l: Link, e: Entity, stored: Time)
    requires l.me.state == ActiveSyncing && l.other.state == PassiveSyncing && l.out == [] && l.inn == []
    requires Sound(l.me.local.db) && Whole(l.me.local.db, e) && Interest(l.me.peerSubs, l.me.hist, e, stored)
    ensures var steps := [Step(true, Announce(e, stored))];
            && Runnable(l, steps)
            && Execute(l, steps) ==
               Link(l.me.(state := SendingEntity(e, ActiveSyncing)), l.other, [Receiving.AnnouncePayload(e.Id())], [])
  {
    hide Runnable, Execute, Sound, Whole, InterestedInEntity, Interest, Announceable, StepEnabled, Apply;
    var end := Link(l.me.(state := SendingEntity(e, ActiveSyncing)), l.other, [Receiving.AnnouncePayload(e.Id())], []);
    WholeIsWanted(l.me, e, stored);
    WantedIsAnnounced(l, e, stored);
    RunEnds(end);
    RunOn(l, [Step(true, Announce(e, stored))], end, [], end);
  }

  lemma WholeIsWanted(p: Peer, e: Entity, stored: Time)
    requires Sound(p.local.db) && Whole(p.local.db, e) && Interest(p.peerSubs, p.hist, e, stored)
    ensures Announceable(p.local.db, e) && InterestedInEntity(p.local.db, p.peerSubs, p.hist, e, stored) == Some(true)
  {
    hide Sound, InterestedInEntity, Interest, Announceable, WholeThread;
    InterestIsSolicited(p.local.db, p.peerSubs, p.hist, e, stored);
  }

  lemma WantedIsAnnounced(l: Link, e: Entity, stored: Time)
    requires l.me.state == ActiveSyncing && l.other.state == PassiveSyncing && l.out == [] && l.inn == []
    requires Sound(l.me.local.db) && Announceable(l.me.local.db, e)
    requires InterestedInEntity(l.me.local.db, l.me.peerSubs, l.me.hist, e, stored) == Some(true)
    ensures StepEnabled(l, Step(true, Announce(e, stored)))
    ensures Apply(l, Step(true, Announce(e, stored))) ==
            Link(l.me.(state := SendingEntity(e, ActiveSyncing)), l.other, [Receiving.AnnouncePayload(e.Id())], [])
  {
    hide Sound, InterestedInEntity, Announceable;
    assert l.out + [Receiving.AnnouncePayload(e.Id())] == [Receiving.AnnouncePayload(e.Id())];
  }

  lemma ClientIsWhole(l: Link, e: Entity)
    requires Connected(l) && Whole(l.me.local.db, e)
    ensures var p := Finalize(l.me.(peerUser := l.other.user), l.other.own.subs);
            Sound(p.local.db) && Whole(p.local.db, e) && p.peerSubs == l.other.own.subs && p.hist == l.me.hist
  {
    hide Whole, Sound, UserValid;
    FinalizedIsWhole(l.me, l.other.user, l.other.own.subs, e);
  }

  lemma FinalizedIsWhole(p: Peer, u: User, subs: Subs, e: Entity)
    requires Sound(p.local.db) && Whole(p.local.db, e) && UserValid(u)
    ensures var db := Finalize(p.(peerUser := u), subs).local.db; Sound(db) && Whole(db, e)
  {
    var entity := UserEntity(u);
    assert Authentic(entity);
    PutSound(p.local.db, entity);
    PutExtends(p.local.db, entity);
    assert PutEntity(p.local.db, entity).db == PutUser(p.local.db, u);
    hide Sound, UserValid, Authentic;
    GrowthKeepsWhole(p.local.db, PutUser(p.local.db, u), e);
  }

  lemma NothingNewToKnownSubs(s: Subs)
    requires AllValid(s)
    ensures DiffOf(s, s) == []
  {
    forall i | 0 <= i < |s|
      ensures Covers(s, s[i])
    {
      assert s[i].ContainsTopic(s[i]);
    }
    DiffIsNil(s, s);
  }

  /** A peer that comes back with the same subscriptions is offered something stored before it left
      exactly if no history was saved and the first sync would have offered it. So what a sync had
      left when it was closed in one of the states above is never announced. */
  lemma ClosedSyncForgetsExactly(
    db: Database, peerSubs: Subs, s: State, hist: Option<History>, row: StoredEntity, now: Time)
    requires Sound(db) && AllValid(peerSubs) && row.stored < now
    ensures Wanted(db, peerSubs, HistoryAfter(s, hist, peerSubs, now), row) <==>
            !IsSynced(s) && Wanted(db, peerSubs, hist, row)
  {
    hide Sound, InterestedInEntity, DiffOf;
    if IsSynced(s) {
      NothingNewToKnownSubs(peerSubs);
      OldRowsAreNotWanted(db, peerSubs, History(now, peerSubs), row);
    }
  }

  lemma ForgottenIsNotAnnounced(
    db: Database, peerSubs: Subs, s: State, hist: Option<History>, row: StoredEntity, now: Time,
    q: Query, rows: seq<StoredEntity>, since: Time, limit: nat)
    requires Sound(db) && AllValid(peerSubs) && row.stored < now && IsSynced(s)
    ensures row !in Announced(q, db, peerSubs, HistoryAfter(s, hist, peerSubs, now), rows, since, limit)
  {
    hide Sound, InterestedInEntity, DiffOf, Wanted;
    var next := HistoryAfter(s, hist, peerSubs, now);
    ClosedSyncForgetsExactly(db, peerSubs, s, hist, row, now);
    FilterMembers((r: StoredEntity) => Wanted(db, peerSubs, next, r), StoredAfter(q, rows, since, limit), row);
  }
}
