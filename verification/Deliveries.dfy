/** What an acknowledgement is worth, over every run of two peers: the announced entity is stored at the
    other side, or the other side has decided to drop it. */
module Deliveries {
  import opened Topics
  import opened Subscriptions
  import opened Entities
  import opened Databases
  import opened Views
  import opened Receiving
  import opened ReceivingRuns
  import opened Sending
  import opened HonestExchange
  import opened Protocol
  import opened Turns
  import opened SyncRuns
  import ActiveSync

  // ---------------------------------------------------------------- what is acknowledged and what is dropped

  function AckReadBy(l: Link, s: Step): seq<Entity>
    requires StepEnabled(l, s)
  {
    if s.mine && s.action.Read? && l.me.state.SendingEntity? && l.inn[0].AckPayload? then [l.me.state.entity] else []
  }

  /** My entities whose acknowledgement I read, in the syncs and idling. */
  function AcksRead(l: Link, steps: seq<Step>): seq<Entity>
    requires Runnable(l, steps)
    decreases steps
  {
    if steps == [] then []
    else AckReadBy(l, steps[0]) + AcksRead(Apply(l, steps[0]), steps[1..])
  }

  /** The other side decides to drop the buffer: for an author it banned, a ban it makes for a wrong date,
      or an entity it skips. */
  function DroppedBy(l: Link, s: Step): set<ID>
    requires StepEnabled(l, s)
  {
    if !s.mine && s.action.Read? && l.other.state.ReceivingEntity? && l.out[0].EntityPayload? then
      var pending := l.other.state.pending + [l.out[0].entity];
      if Decide(l.other.local.db, l.other.own, pending).Drop? then {pending[0].Id()} else {}
    else {}
  }

  function Dropped(l: Link, steps: seq<Step>): set<ID>
    requires Runnable(l, steps)
    decreases steps
  {
    if steps == [] then {}
    else DroppedBy(l, steps[0]) + Dropped(Apply(l, steps[0]), steps[1..])
  }

  // ---------------------------------------------------------------- identifiers decide contents

  /** A message or an operation that can be handed over. */
  predicate Genuine(e: Entity) {
    Authentic(e) && !e.UserEntity?
  }

  /** A sound database in which the identifier is found holds this very entity. */
  lemma IdIsContents(db: Database, e: Entity)
    requires Sound(db) && Genuine(e) && HasEntity(db, e.Id())
    ensures Stored(db, e)
  {
    assert forall id | id in db.users :: db.users[id].id == id && db.users[id].id.UserHash?;
    assert forall id | id in db.messages :: db.messages[id].id == id && db.messages[id].id.MessageHash?;
    assert forall id | id in db.operations :: db.operations[id].id == id && db.operations[id].id.OperationHash?;
  }

  // ---------------------------------------------------------------- databases only grow

  lemma ActExtends(l: Link, a: Action)
    requires Enabled(l, a)
    ensures Extends(l.me.local.db, Act(l, a).me.local.db)
  {
    ItselfExtends(l.me.local.db);
    hide Extends, InterestedInEntity, Announceable, ReadPacket;
    if a.Read? {
      ReadingExtends(l.me, l.inn[0], a.clock);
    }
    hide Sound;
  }

  lemma ReadingExtends(p: Peer, x: Payload, clock: Clock)
    requires Reads(p.state) && Sound(p.local.db)
    ensures Extends(p.local.db, ReadPacket(p, x, clock).0.local.db)
  {
    ItselfExtends(p.local.db);
    if p.state.ReceivingEntity? {
      AnswerStaysSound(p, x, clock);
    } else if p.state == AwaitHello {
      PutExtends(p.local.db, UserEntity(p.peerUser));
    }
    hide Extends, Sound, ProcessReq, ReadWhileReceiving, HasEntity, IsUserBanned, UserValid, Subscriptions.IsValid;
  }

  lemma StoredStays(x: Database, x': Database, e: Entity)
    requires Extends(x, x') && Stored(x, e)
    ensures Stored(x', e)
  {
  }

  // ---------------------------------------------------------------- the acknowledgement is earned

  /** What I send is genuine; and when an acknowledgement comes, the entity is stored there or dropped. */
  ghost predicate Earned(l: Link, dropped: set<ID>) {
    l.me.state.SendingEntity? ==>
      var e := l.me.state.entity;
      Genuine(e) && (l.inn != [] && l.inn[0].AckPayload? ==> Stored(l.other.local.db, e) || e.Id() in dropped)
  }

  lemma MyStepIsEarned(l: Link, a: Action, dropped: set<ID>)
    requires InTurn(l) && Enabled(l, a) && Earned(l, dropped)
    ensures Earned(Act(l, a), dropped)
  {
    hide Sound, ReadPacket, InterestedInEntity, Authentic, Stored, Registered;
    if a.Announce? {
      AnnouncedIsGenuine(l.me.local.db, a.entity);
      if l.inn != [] { NoAckWhileResting(l); }
    } else if a.Read? {
      assert Proper(l.me.state) by { hide Turn, Stored; assert Registered(l.me); }
      hide InTurn, Turn;
      if l.me.state.SendingEntity? {
        NothingAfterAnAnswer(l);
        SendingOn(l.me, l.inn[0], a.clock);
      } else {
        ReadingStaysQuiet(l.me, l.inn[0], a.clock);
      }
    }
    hide InTurn, Turn;
  }

  lemma AnnouncedIsGenuine(db: Database, e: Entity)
    requires Sound(db) && Announceable(db, e)
    ensures Genuine(e)
  {
  }

  lemma NoAckWhileResting(l: Link)
    requires InTurn(l) && !Stopped(l) && (l.me.state == ActiveSyncing || l.me.state == Idle) && l.inn != []
    ensures !l.inn[0].AckPayload?
  {
    hide Registered;
  }

  lemma NothingAfterAnAnswer(l: Link)
    requires InTurn(l) && !Stopped(l) && l.me.state.SendingEntity? && l.inn != []
    ensures l.inn[0].ReqPayload? ==> |l.inn| == 1
  {
    SenderIsServing(l);
    hide Registered, InTurn;
  }

  lemma SendingOn(p: Peer, x: Payload, clock: Clock)
    requires p.state.SendingEntity? && Proper(p.state)
    ensures var s := ReadPacket(p, x, clock).0.state;
            s.SendingEntity? ==> s == p.state && x.ReqPayload?
  {
    hide ProcessReq;
  }

  lemma ReadingStaysQuiet(p: Peer, x: Payload, clock: Clock)
    requires Reads(p.state) && !p.state.SendingEntity? && Proper(p.state)
    ensures !ReadPacket(p, x, clock).0.state.SendingEntity?
  {
    hide ProcessReq, Decide, Finish, HasEntity, Subscriptions.IsValid, UserValid, IsUserBanned;
  }

  lemma TheirStepIsEarned(l: Link, a: Action, dropped: set<ID>)
    requires InTurn(l) && Enabled(Flip(l), a) && Earned(l, dropped)
    ensures Earned(Apply(l, Step(false, a)), dropped + DroppedBy(l, Step(false, a)))
  {
    if l.me.state.SendingEntity? {
      var e := l.me.state.entity;
      var l' := Apply(l, Step(false, a));
      ActExtends(Flip(l), a);
      ActKeepsOthers(Flip(l), a);
      if Stored(l.other.local.db, e) {
        StoredStays(l.other.local.db, l'.other.local.db, e);
      }
      if l.inn == [] && l'.inn != [] && l'.inn[0].AckPayload? {
        hide Sound, Stored, Extends, Authentic;
        AckIsEarned(l, a);
      }
      hide InTurn, Sound, Stored, Extends, Authentic, DroppedBy, ReadPacket, InterestedInEntity, Announceable;
    }
  }

  /** An acknowledgement is written for a stored entity, for a buffer just stored, or for a dropped one. */
  lemma AckIsEarned(l: Link, a: Action)
    requires InTurn(l) && Enabled(Flip(l), a) && l.me.state.SendingEntity? && Genuine(l.me.state.entity) && l.inn == []
    requires var l' := Apply(l, Step(false, a)); l'.inn != [] && l'.inn[0].AckPayload?
    ensures || Stored(Apply(l, Step(false, a)).other.local.db, l.me.state.entity)
            || l.me.state.entity.Id() in DroppedBy(l, Step(false, a))
  {
    var e, l' := l.me.state.entity, Apply(l, Step(false, a));
    AckedIsServed(l, a);
    RegisteredStays(Flip(l), a);
    hide Stored, Authentic, InTurn, Turn;
    if HasEntity(l'.other.local.db, e.Id()) {
      assert Sound(l'.other.local.db);
      hide Sound, HasEntity;
      IdIsContents(l'.other.local.db, e);
    } else {
      hide Sound, HasEntity;
    }
  }

  lemma AckedIsServed(l: Link, a: Action)
    requires InTurn(l) && Enabled(Flip(l), a) && l.me.state.SendingEntity? && l.inn == []
    requires var l' := Apply(l, Step(false, a)); l'.inn != [] && l'.inn[0].AckPayload?
    ensures || HasEntity(Apply(l, Step(false, a)).other.local.db, l.me.state.entity.Id())
            || l.me.state.entity.Id() in DroppedBy(l, Step(false, a))
  {
    hide Registered, Sound, HasEntity, ReadWhileReceiving, InterestedInEntity, Announceable, Decide, InTurn;
    OnlyReadersAck(l, a);
    AckingIsServing(l);
    if l.other.state.ReceivingEntity? {
      hide Serving;
      AckedAnswer(l.other, l.out[0], a.clock);
    }
  }

  lemma OnlyReadersAck(l: Link, a: Action)
    requires Enabled(Flip(l), a) && l.inn == []
    requires var l' := Apply(l, Step(false, a)); l'.inn != [] && l'.inn[0].AckPayload?
    ensures a.Read? && Apply(l, Step(false, a)).inn == ReadPacket(l.other, l.out[0], a.clock).1
    ensures l.other.state == PassiveSyncing || l.other.state == Idle || l.other.state.ReceivingEntity?
  {
    hide Sound, ReadWhileReceiving, InterestedInEntity, Announceable, HasEntity, IsUserBanned, UserValid, Subscriptions.IsValid;
  }

  /** What an announcer's partner has to read first is the announcement or an answer, or Done. */
  lemma AckingIsServing(l: Link)
    requires InTurn(l) && !Stopped(l) && l.me.state.SendingEntity? && l.inn == [] && l.out != []
    requires l.other.state == PassiveSyncing || l.other.state == Idle || l.other.state.ReceivingEntity?
    ensures var id, f := l.me.state.entity.Id(), l.out[0];
            || (l.other.state == PassiveSyncing && f == DonePayload)
            || (!l.other.state.ReceivingEntity? && f == AnnouncePayload(id))
            || (l.other.state.ReceivingEntity? && f.EntityPayload? && (l.other.state.pending + [f.entity])[0].Id() == id)
  {
    hide Registered;
  }

  /** The answer is acknowledged: everything in the buffer has been stored, or the buffer is dropped. */
  lemma AckedAnswer(p: Peer, x: Payload, clock: Clock)
    requires p.state.ReceivingEntity? && x.EntityPayload?
    requires var sent := ReadWhileReceiving(p, x, clock).1; sent != [] && sent[0] == AckPayload
    ensures var pending := p.state.pending + [x.entity];
            || HasEntity(ReadWhileReceiving(p, x, clock).0.local.db, pending[0].Id())
            || Decide(p.local.db, p.own, pending).Drop?
  {
    var pending := p.state.pending + [x.entity];
    assert pending[0] in pending;
    PutAllEffect(p.local.db, pending);
    hide Decide, PutAll, Ban;
  }

  // ---------------------------------------------------------------- whole runs

  lemma {:induction false} RunIsEarned(l: Link, steps: seq<Step>, dropped: set<ID>)
    requires InTurn(l) && Runnable(l, steps) && Earned(l, dropped)
    ensures Extends(l.other.local.db, Execute(l, steps).other.local.db)
    ensures forall e | e in AcksRead(l, steps) :: Stored(Execute(l, steps).other.local.db, e) || e.Id() in dropped + Dropped(l, steps)
    decreases steps
  {
    hide InTurn, StepEnabled, Apply, AckReadBy, DroppedBy, Stored, Extends, Earned;
    if steps == [] {
      ItselfExtends(l.other.local.db);
    } else {
      var s, l' := steps[0], Apply(l, steps[0]);
      OneStepIsEarned(l, s, dropped);
      RunIsEarned(l', steps[1..], dropped + DroppedBy(l, s));
      ExtendsTransitive(l.other.local.db, l'.other.local.db, Execute(l, steps).other.local.db);
      forall e | e in AcksRead(l, steps)
        ensures Stored(Execute(l, steps).other.local.db, e) || e.Id() in dropped + Dropped(l, steps)
      {
        if e in AckReadBy(l, s) && Stored(l.other.local.db, e) {
          StoredStays(l.other.local.db, Execute(l, steps).other.local.db, e);
        }
      }
    }
  }

  lemma OneStepIsEarned(l: Link, s: Step, dropped: set<ID>)
    requires InTurn(l) && StepEnabled(l, s) && Earned(l, dropped)
    ensures InTurn(Apply(l, s)) && Earned(Apply(l, s), dropped + DroppedBy(l, s))
    ensures Extends(l.other.local.db, Apply(l, s).other.local.db)
    ensures forall e | e in AckReadBy(l, s) :: Stored(l.other.local.db, e) || e.Id() in dropped
  {
    StepKeepsTurn(l, s);
    ItselfExtends(l.other.local.db);
    hide InTurn, Extends, Stored, Sound, ReadPacket, Enabled;
    if s.mine {
      ActKeepsOthers(l, s.action);
      MyStepIsEarned(l, s.action, dropped);
      assert dropped + DroppedBy(l, s) == dropped;
    } else {
      TheirStepIsEarned(l, s.action, dropped);
      ActExtends(Flip(l), s.action);
    }
    hide Act, DroppedBy;
  }

  /** Every entity whose acknowledgement a peer has read, in any run from the handshake on, is stored at the
      other side, then and for good, unless the other side decided to drop it. */
  lemma AcknowledgedIsStoredOrDropped(l: Link, steps: seq<Step>, e: Entity)
    requires (Connected(l) || Connected(Flip(l))) && Runnable(l, steps) && e in AcksRead(l, steps)
    ensures Stored(Execute(l, steps).other.local.db, e) || e.Id() in Dropped(l, steps)
  {
    hide Runnable, Execute, AcksRead, Dropped, InTurn, Honest, Stored, Extends;
    if Connected(l) {
      ConnectedIsInTurn(l);
    } else {
      ConnectedIsInTurn(Flip(l));
      TurnFlips(l);
    }
    RunIsEarned(l, steps, {});
    assert {} + Dropped(l, steps) == Dropped(l, steps);
  }

  lemma {:induction false} SyncAcksAreRead(l: Link, steps: seq<Step>)
    requires Runnable(l, steps)
    ensures forall e | e in SyncRuns.Acked(l, steps) :: e in AcksRead(l, steps)
    decreases steps
  {
    hide StepEnabled, Apply;
    if steps != [] {
      SyncAcksAreRead(Apply(l, steps[0]), steps[1..]);
    }
  }

  /** When a sync has sent Done, every entity it handed over that the filter lets through is stored at the
      other side, unless the other side decided to drop it. */
  lemma SyncedIsStoredOrDropped(l: Link, steps: seq<Step>, calls: seq<Fetched>, e: Entity)
    requires Connected(l) || Connected(Flip(l))
    requires Runnable(l, steps) && FollowsSync(l, ActiveSync.START, steps, calls)
    requires ActiveSync.Run(ActiveSync.START, calls).end.DoneSent?
    requires e in WantedEntities(l.other.own.subs, l.me.hist, ActiveSync.Run(ActiveSync.START, calls).sent)
    ensures Stored(Execute(l, steps).other.local.db, e) || e.Id() in Dropped(l, steps)
  {
    hide Runnable, Execute, AcksRead, Dropped, Stored, SyncRuns.Acked, WantedEntities, FollowsSync;
    SyncIsAcknowledgedExactly(l, steps, calls);
    SyncAcksAreRead(l, steps);
    AcknowledgedIsStoredOrDropped(l, steps, e);
  }
}
