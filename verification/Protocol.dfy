/** Two honest peers on one connection, from the handshake through both syncs to the idle exchanges.

    A connection is two lossless queues. Each step of a peer reads at most one packet and writes at
    most one, with everything it does in between; other writers may extend either database between
    any two steps, and may have stored only a part of what they are storing. */
module Protocol {
  import opened Topics
  import opened Subscriptions
  import opened Entities
  import opened Databases
  import opened Views
  import opened Receiving
  import opened ReceivingRuns
  import opened Sending
  import opened HonestExchange

  const PROTOCOL_VERSION: int := 1

  /** The client opened the connection. */
  datatype Role = Client | Server

  datatype State =
    | SendUser
    | AwaitUser
    | AwaitHello
    | ActiveSyncing
    | PassiveSyncing
    | Idle
    | SendingEntity(entity: Entity, next: State)
    | ReceivingEntity(pending: seq<Entity>, requested: ID, next: State)
    | Halted
    | Closed
    | Failed

  /** `Failed` is a protocol violation or an accusation, `Closed` any other end of the connection. */
  datatype Peer = Peer(
    role: Role, user: User, own: Owner, hist: Option<History>, local: Local, state: State,
    peerUser: User, peerSubs: Subs)

  /** The connection as one of the peers sees it. */
  datatype Link = Link(me: Peer, other: Peer, out: seq<Payload>, inn: seq<Payload>)

  function Flip(l: Link): Link {
    Link(l.other, l.me, l.inn, l.out)
  }

  // ---------------------------------------------------------------- what a peer does with a packet

  function UserPayload(p: Peer): Payload {
    EntityPayload(UserEntity(p.user))
  }

  function Hello(p: Peer): Payload {
    HelloPayload(PROTOCOL_VERSION, p.own.subs)
  }

  /** The end of the handshake: the peer's user is stored if it is new. */
  function Finalize(p: Peer, subs: Subs): Peer {
    p.(peerSubs := subs,
       local := p.local.(db := PutUser(p.local.db, p.peerUser)),
       state := if p.role == Client then ActiveSyncing else PassiveSyncing)
  }

  function ReadUser(p: Peer, x: Payload): (Peer, seq<Payload>) {
    if !x.EntityPayload? || !x.entity.UserEntity? || !UserValid(x.entity.user) then (p.(state := Failed), [])
    else if IsUserBanned(p.local.db, p.own.moderators, x.entity.user.id) then (p.(state := Closed), [])
    else (p.(peerUser := x.entity.user, state := AwaitHello), [if p.role == Client then Hello(p) else UserPayload(p)])
  }

  function ReadHello(p: Peer, x: Payload): (Peer, seq<Payload>) {
    if !x.HelloPayload? || !Subscriptions.IsValid(x.subs) then (p.(state := Failed), [])
    else if x.proto != PROTOCOL_VERSION then (p.(state := Closed), [])
    else (Finalize(p, x.subs), if p.role == Client then [] else [Hello(p)])
  }

  /** The start of a receiving state: only an announcement is accepted. */
  function StartReceiving(p: Peer, x: Payload): (Peer, seq<Payload>) {
    if !x.AnnouncePayload? then (p.(state := Failed), [])
    else if HasEntity(p.local.db, x.id) then (p, [AckPayload])
    else (p.(state := ReceivingEntity([], x.id, p.state)), [ReqPayload(x.id)])
  }

  function ReadInSync(p: Peer, x: Payload): (Peer, seq<Payload>) {
    if x.DonePayload? then (p.(state := if p.role == Client then Idle else ActiveSyncing), [])
    else StartReceiving(p, x)
  }

  function ReadWhileSending(p: Peer, x: Payload): (Peer, seq<Payload>)
    requires p.state.SendingEntity?
  {
    match x
    case AnnouncePayload(_) => (p.(state := p.state.next), [])
    case AckPayload => (p.(state := p.state.next), [])
    case ReqPayload(id) =>
      (match ProcessReq(p.local.db, p.state.entity, id)
       case Ok(e) => (p, [EntityPayload(e)])
       case Err(_) => (p.(state := Failed), []))
    case _ => (p.(state := Failed), [])
  }

  function ReadWhileReceiving(p: Peer, x: Payload, clock: Clock): (Peer, seq<Payload>)
    requires p.state.ReceivingEntity?
  {
    match ReadEntity(Packet(x, true), p.state.requested)
    case None => (p.(state := Failed), [])
    case Some(e) =>
      var pending := p.state.pending + [e];
      var d := Decide(p.local.db, p.own, pending);
      if d.Request? then (p.(state := ReceivingEntity(pending, d.id, p.state.next)), [ReqPayload(d.id)])
      else
        var (local, outcome) := Finish(p.own, p.peerUser.id, clock, p.local, pending, d);
        match outcome
        case Acked => (p.(local := local, state := p.state.next), [AckPayload])
        case Fatal => (p.(local := local, state := Halted), [])
        case _ => (p.(local := local, state := Failed), [])
  }

  predicate Reads(s: State) {
    s.AwaitUser? || s.AwaitHello? || s.PassiveSyncing? || s.Idle? || s.SendingEntity? || s.ReceivingEntity?
  }

  function ReadPacket(p: Peer, x: Payload, clock: Clock): (Peer, seq<Payload>)
    requires Reads(p.state)
  {
    match p.state
    case AwaitUser => ReadUser(p, x)
    case AwaitHello => ReadHello(p, x)
    case PassiveSyncing => ReadInSync(p, x)
    case Idle => StartReceiving(p, x)
    case SendingEntity(_, _) => ReadWhileSending(p, x)
    case ReceivingEntity(_, _, _) => ReadWhileReceiving(p, x, clock)
  }

  /** A peer that has an entity to send asks the filter first. */
  function TryAnnounce(p: Peer, e: Entity, stored: Time): (Peer, seq<Payload>)
    requires Sound(p.local.db)
  {
    match InterestedInEntity(p.local.db, p.peerSubs, p.hist, e, stored)
    case None => (p.(state := Halted), [])
    case Some(wanted) =>
      if wanted then (p.(state := SendingEntity(e, p.state)), [AnnouncePayload(e.Id())]) else (p, [])
  }

  function FinishSync(p: Peer): (Peer, seq<Payload>) {
    (p.(state := if p.role == Client then PassiveSyncing else Idle), [DonePayload])
  }

  // ---------------------------------------------------------------- steps and runs

  datatype Action =
    | Start
    | Read(clock: Clock)
    | Announce(entity: Entity, stored: Time)
    | Done
    | OtherWriter(db: Database)
    | Stop

  ghost predicate Enabled(l: Link, a: Action) {
    !Stopped(l) && Sound(l.me.local.db) &&
    match a
    case Start => l.me.state == SendUser
    case Read(_) => l.inn != [] && Reads(l.me.state)
    case Announce(e, _) => (l.me.state == ActiveSyncing || l.me.state == Idle) && Announceable(l.me.local.db, e)
    case Done => l.me.state == ActiveSyncing
    case OtherWriter(db) => Sound(db) && Extends(l.me.local.db, db)
    case Stop => true
  }

  /** Nothing is announced before everything it depends on is stored, and nothing that does not fit. */
  ghost predicate Prepared(l: Link, a: Action) {
    a.Announce? ==> Prepares(l.me.local.db, a.entity)
  }

  function Act(l: Link, a: Action): Link
    requires Enabled(l, a)
  {
    match a
    case Start => Link(l.me.(state := AwaitUser), l.other, l.out + [UserPayload(l.me)], l.inn)
    case Read(clock) =>
      var (p, sent) := ReadPacket(l.me, l.inn[0], clock);
      Link(p, l.other, l.out + sent, l.inn[1..])
    case Announce(e, stored) =>
      var (p, sent) := TryAnnounce(l.me, e, stored);
      Link(p, l.other, l.out + sent, l.inn)
    case Done =>
      var (p, sent) := FinishSync(l.me);
      Link(p, l.other, l.out + sent, l.inn)
    case OtherWriter(db) => l.(me := l.me.(local := l.me.local.(db := db)))
    case Stop => l.(me := l.me.(state := Closed))
  }

  /** A step of either peer. */
  datatype Step = Step(mine: bool, action: Action)

  ghost predicate StepEnabled(l: Link, s: Step) {
    Enabled(if s.mine then l else Flip(l), s.action)
  }

  function Apply(l: Link, s: Step): Link
    requires StepEnabled(l, s)
  {
    if s.mine then Act(l, s.action) else Flip(Act(Flip(l), s.action))
  }

  ghost predicate Runnable(l: Link, steps: seq<Step>)
    decreases steps
  {
    steps == [] || (StepEnabled(l, steps[0]) && Runnable(Apply(l, steps[0]), steps[1..]))
  }

  ghost predicate AllPrepared(l: Link, steps: seq<Step>)
    requires Runnable(l, steps)
    decreases steps
  {
    steps == [] ||
    (Prepared(if steps[0].mine then l else Flip(l), steps[0].action) && AllPrepared(Apply(l, steps[0]), steps[1..]))
  }

  function Execute(l: Link, steps: seq<Step>): Link
    requires Runnable(l, steps)
    decreases steps
  {
    if steps == [] then l else Execute(Apply(l, steps[0]), steps[1..])
  }

  // ---------------------------------------------------------------- the invariant

  predicate HasStopped(p: Peer) {
    p.state == Halted || p.state == Closed
  }

  predicate Stopped(l: Link) {
    HasStopped(l.me) || HasStopped(l.other)
  }

  /** An honest peer: a registered user with valid subscriptions and, short of a halt, a sound database. */
  ghost predicate Honest(p: Peer) {
    && (p.state == Halted || (Sound(p.local.db) && p.own.Self() in p.local.db.users))
    && UserValid(p.user) && p.user.id == p.own.Self()
    && Subscriptions.IsValid(p.own.subs)
    && (p.state == AwaitHello ==> UserValid(p.peerUser))
  }

  predicate Acquainted(l: Link) {
    l.me.peerSubs == l.other.own.subs && l.other.peerSubs == l.me.own.subs
  }

  /** Everything the entity depends on is stored, and it fits into the receiver's buffer. */
  ghost predicate Prepares(x: Database, e: Entity) {
    Whole(x, e) && Fits(e)
  }

  ghost predicate MaySend(l: Link, e: Entity) {
    Prepares(l.me.local.db, e) && Solicited(l.other.own.subs, e)
  }

  /** Where the two peers are when no exchange is going on between them. */
  predicate Resting(next: State, base: State) {
    (next == ActiveSyncing && base == PassiveSyncing) || (next == Idle && base == Idle)
  }

  ghost predicate Shaking(l: Link) {
    l.me.role == Client &&
    ((l.me.state == SendUser && l.other.state == AwaitUser && l.out == [] && l.inn == []) ||
     (l.me.state == AwaitUser && l.other.state == AwaitUser && l.out == [UserPayload(l.me)] && l.inn == []) ||
     (l.me.state == AwaitUser && l.other.state == AwaitHello && l.out == [] && l.inn == [UserPayload(l.other)]) ||
     (l.me.state == AwaitHello && l.other.state == AwaitHello && l.out == [Hello(l.me)] && l.inn == []) ||
     (l.me.state == AwaitHello && l.other.state == PassiveSyncing && l.out == [] && l.inn == [Hello(l.other)] &&
      l.other.peerSubs == l.me.own.subs))
  }

  /** Nothing is being sent; in the syncs the turn is being passed on or has just been. */
  ghost predicate Quiet(l: Link) {
    Acquainted(l) && l.inn == [] &&
    ((Resting(l.me.state, l.other.state) && l.out == []) ||
     (l.me.state == PassiveSyncing && l.me.role == Client && l.other.state == PassiveSyncing && l.out == [DonePayload]) ||
     (l.me.state == Idle && l.me.role == Server && l.other.state == PassiveSyncing && l.out == [DonePayload]) ||
     (l.me.state.SendingEntity? && l.me.state.next == Idle && l.me.role == Server && MaySend(l, l.me.state.entity) &&
      l.other.state == PassiveSyncing && l.out == [DonePayload, AnnouncePayload(l.me.state.entity.Id())]))
  }

  /** The entity announced by me is being exchanged. */
  ghost predicate Exchanging(l: Link) {
    Acquainted(l) && l.me.state.SendingEntity? && MaySend(l, l.me.state.entity) &&
    var e, next := l.me.state.entity, l.me.state.next;
    ((Resting(next, l.other.state) && l.out == [AnnouncePayload(e.Id())] && l.inn == []) ||
     (Resting(next, l.other.state) && l.out == [] && l.inn == [AckPayload]) ||
     (l.other.state.ReceivingEntity? && Resting(next, l.other.state.next) &&
      |l.other.state.pending| < MAX_PENDING_ENTITIES_NUM &&
      (Asked(l, e) || Answered(l, e))))
  }

  /** The receiver waits for the answer to a request that can be answered. */
  ghost predicate Asked(l: Link, e: Entity)
    requires l.other.state.ReceivingEntity?
  {
    var pending, id := l.other.state.pending, l.other.state.requested;
    && l.out == [] && l.inn == [ReqPayload(id)]
    && Delivered(l.me.local.db, e, pending)
    && id in Dependencies(e) && !Arrived(pending, id) && (pending == [] ==> id == e.Id())
  }

  /** The answer is on its way. */
  ghost predicate Answered(l: Link, e: Entity)
    requires l.other.state.ReceivingEntity?
  {
    && |l.out| == 1 && l.out[0].EntityPayload? && l.inn == []
    && l.out[0].entity.Id() == l.other.state.requested
    && Delivered(l.me.local.db, e, l.other.state.pending + [l.out[0].entity])
  }

  /** Both peers announced in the idle state: the other's announcement is still unread, has been read,
      or has been read and answered by a new announcement; or the other announced right after its
      acknowledgement. */
  ghost predicate Colliding(l: Link) {
    Acquainted(l) && l.other.state.SendingEntity? && l.other.state.next == Idle && MaySend(Flip(l), l.other.state.entity) &&
    var f := AnnouncePayload(l.other.state.entity.Id());
    ((l.me.state == Idle && |l.out| == 1 && l.out[0].AnnouncePayload? && l.inn == []) ||
     (l.me.state.SendingEntity? && l.me.state.next == Idle && MaySend(l, l.me.state.entity) &&
      var e := AnnouncePayload(l.me.state.entity.Id());
      ((l.out == [e] && l.inn == [f]) ||
       (|l.out| == 2 && l.out[0].AnnouncePayload? && l.out[1] == e && l.inn == []) ||
       (l.out == [] && l.inn == [AckPayload, f]))))
  }

  ghost predicate Shape(l: Link) {
    Shaking(l) || Quiet(l) || Exchanging(l) || Colliding(l)
  }

  ghost predicate Inv(l: Link) {
    && Honest(l.me) && Honest(l.other) && l.me.role != l.other.role
    && l.me.state != Failed && l.other.state != Failed
    && (Stopped(l) || Shape(l) || Shape(Flip(l)))
  }

  // ---------------------------------------------------------------- every step keeps the invariant

  /** Facts that only speak of the databases' contents survive any growth. */
  lemma GrowthKeepsMaySend(x: Database, x': Database, e: Entity, pending: seq<Entity>)
    requires Extends(x, x')
    ensures Prepares(x, e) ==> Prepares(x', e)
    ensures Delivered(x, e, pending) ==> Delivered(x', e, pending)
  {
    hide Dependencies, Whole, Fits;
    if Prepares(x, e) { GrowthKeepsWhole(x, x', e); }
  }

  lemma OtherWriterKeepsInv(l: Link, db: Database)
    requires Inv(l) && Enabled(l, OtherWriter(db))
    ensures Inv(Act(l, OtherWriter(db)))
  {
    hide Sound, Extends, Shape, Honest;
    HonestWhileRunning(l);
    HonestGrows(l.me, db);
    if Shape(l) { GrowthKeepsShape(l, db); }
    if Shape(Flip(l)) { GrowthKeepsFlippedShape(l, db); }
  }

  lemma HonestWhileRunning(l: Link)
    requires Inv(l) && !Stopped(l)
    ensures Honest(l.me) && l.me.state != Halted
  {
    hide Shape;
  }

  lemma GrowthKeepsShape(l: Link, db: Database)
    requires Shape(l) && Extends(l.me.local.db, db)
    ensures Shape(l.(me := l.me.(local := l.me.local.(db := db))))
  {
    hide Extends, Whole, Fits, Delivered, Solicited, Dependencies, Arrived;
    if l.me.state.SendingEntity? {
      var e := l.me.state.entity;
      GrowthKeepsMaySend(l.me.local.db, db, e, []);
      if l.other.state.ReceivingEntity? {
        var pending := l.other.state.pending;
        GrowthKeepsMaySend(l.me.local.db, db, e, pending);
        if |l.out| == 1 && l.out[0].EntityPayload? {
          GrowthKeepsMaySend(l.me.local.db, db, e, pending + [l.out[0].entity]);
        }
      }
    }
  }

  lemma GrowthKeepsFlippedShape(l: Link, db: Database)
    requires Shape(Flip(l)) && Extends(l.me.local.db, db)
    ensures Shape(Flip(l.(me := l.me.(local := l.me.local.(db := db)))))
  {
    hide Extends, Whole, Fits, Delivered, Solicited, Dependencies, Arrived;
    if l.me.state.SendingEntity? {
      GrowthKeepsMaySend(l.me.local.db, db, l.me.state.entity, []);
    }
  }

  lemma HonestGrows(p: Peer, db: Database)
    requires Honest(p) && p.state != Halted && Sound(db) && Extends(p.local.db, db)
    ensures Honest(p.(local := p.local.(db := db)))
  {
    hide Sound;
  }

  lemma StartKeepsInv(l: Link)
    requires Inv(l) && Enabled(l, Start)
    ensures Inv(Act(l, Start))
  {
    hide Sound, Whole, Fits, Delivered, Solicited, Dependencies, Arrived;
    assert Shaking(l);
    assert Shaking(Act(l, Start));
  }

  lemma DoneKeepsInv(l: Link)
    requires Inv(l) && Enabled(l, Done)
    ensures Inv(Act(l, Done))
  {
    hide Sound, Whole, Fits, Delivered, Solicited, Dependencies, Arrived;
    assert Quiet(l);
    assert Quiet(Act(l, Done));
  }

  /** The invariant, given one of its shapes. */
  lemma Established(l: Link)
    requires Honest(l.me) && Honest(l.other) && l.me.role != l.other.role
    requires l.me.state != Failed && l.other.state != Failed
    requires Stopped(l) || Shape(l) || Shape(Flip(l))
    ensures Inv(l)
  {
  }

  /** What the filter lets through may be sent; otherwise nothing happens. */
  lemma AnnounceStep(l: Link, e: Entity, stored: Time)
    requires Honest(l.me) && !Stopped(l) && l.me.peerSubs == l.other.own.subs && Prepares(l.me.local.db, e)
    ensures var (p, sent) := TryAnnounce(l.me, e, stored);
            || (p == l.me && sent == [])
            || (p == l.me.(state := SendingEntity(e, l.me.state)) && sent == [AnnouncePayload(e.Id())] && MaySend(l, e))
  {
    InterestIsSolicited(l.me.local.db, l.me.peerSubs, l.me.hist, e, stored);
    hide Sound, Whole, Fits, Solicited, InterestedInEntity, Subscriptions.IsValid, UserValid;
  }

  lemma AnnounceFromRest(l: Link, e: Entity, p: Peer)
    requires Quiet(l) && MaySend(l, e) && (l.me.state == ActiveSyncing || l.me.state == Idle)
    requires p == l.me.(state := SendingEntity(e, l.me.state))
    ensures var l' := Link(p, l.other, l.out + [AnnouncePayload(e.Id())], l.inn); Exchanging(l') || Quiet(l')
  {
    hide Whole, Fits, Solicited, Delivered, Dependencies, Arrived;
  }

  lemma AnnounceIntoCollision(l: Link, e: Entity, p: Peer)
    requires l.me.state == Idle && MaySend(l, e) && (Colliding(l) || Exchanging(Flip(l)))
    requires p == l.me.(state := SendingEntity(e, l.me.state))
    ensures var l' := Link(p, l.other, l.out + [AnnouncePayload(e.Id())], l.inn); Colliding(l') || Colliding(Flip(l'))
  {
    hide Whole, Fits, Solicited, Delivered, Dependencies, Arrived;
  }

  lemma AnnounceKeepsInv(l: Link, e: Entity, stored: Time)
    requires Inv(l) && Enabled(l, Announce(e, stored)) && Prepares(l.me.local.db, e)
    ensures Inv(Act(l, Announce(e, stored)))
  {
    hide Sound, Whole, Fits, Shape, Shaking, Quiet, Colliding, Exchanging, TryAnnounce, Subscriptions.IsValid;
    var (p, sent) := TryAnnounce(l.me, e, stored);
    AnnouncerIsAtRest(l);
    AnnounceStep(l, e, stored);
    if sent != [] {
      if Quiet(l) {
        AnnounceFromRest(l, e, p);
      } else {
        AnnounceIntoCollision(l, e, p);
      }
      AnnouncedIsEstablished(l, p, e);
    } else {
      assert Act(l, Announce(e, stored)) == l by { assert l.out + [] == l.out; }
    }
  }

  lemma AnnouncerIsAtRest(l: Link)
    requires Inv(l) && !Stopped(l) && (l.me.state == ActiveSyncing || l.me.state == Idle)
    ensures Acquainted(l)
    ensures Quiet(l) || (l.me.state == Idle && (Colliding(l) || Exchanging(Flip(l))))
  {
    hide Honest, Whole, Fits, Solicited, Delivered, Dependencies, Arrived;
  }

  lemma AnnouncedIsEstablished(l: Link, p: Peer, e: Entity)
    requires Inv(l) && !Stopped(l) && p == l.me.(state := SendingEntity(e, l.me.state))
    requires var l' := Link(p, l.other, l.out + [AnnouncePayload(e.Id())], l.inn);
             Exchanging(l') || Quiet(l') || Colliding(l') || Colliding(Flip(l'))
    ensures Inv(Link(p, l.other, l.out + [AnnouncePayload(e.Id())], l.inn))
  {
    hide Sound, Shaking, Quiet, Colliding, Exchanging, Subscriptions.IsValid, UserValid;
  }

  // ---------------------------------------------------------------- reading

  lemma ReadHandshake(l: Link, clock: Clock)
    requires Inv(l) && Enabled(l, Read(clock)) && (Shaking(l) || Shaking(Flip(l)))
    ensures Inv(Act(l, Read(clock)))
    ensures var l' := Act(l, Read(clock));
            || Stopped(l') || Shaking(l') || Shaking(Flip(l'))
            || (Quiet(l') && l'.me.state == ActiveSyncing && l'.other.state == PassiveSyncing)
  {
    hide Sound, Whole, Fits, Delivered, Solicited, Dependencies, Arrived, IsUserBanned, UserValid, Subscriptions.IsValid;
    var l' := Act(l, Read(clock));
    if l.me.state.AwaitHello? {
      FinalizeKeepsGood(l.me);
    }
    if Shaking(l) {
      assert Stopped(l') || Shaking(l') || Quiet(l');
    } else {
      assert Stopped(l') || Shaking(Flip(l'));
    }
  }

  lemma FinalizeKeepsGood(p: Peer)
    requires Sound(p.local.db) && UserValid(p.peerUser)
    ensures Sound(PutUser(p.local.db, p.peerUser)) && Extends(p.local.db, PutUser(p.local.db, p.peerUser))
    ensures Good(p.local.db) ==> Good(PutUser(p.local.db, p.peerUser))
  {
    var e := UserEntity(p.peerUser);
    PutSound(p.local.db, e);
    PutTables(p.local.db, e);
  }

  /** The turn is passed: the reader was waiting in its passive sync. */
  lemma ReadDone(l: Link, clock: Clock)
    requires Inv(l) && Enabled(l, Read(clock)) && Quiet(Flip(l))
    ensures Inv(Act(l, Read(clock)))
    ensures l.me.state == PassiveSyncing && l.inn[0] == DonePayload
    ensures Act(l, Read(clock)) == Link(l.me.(state := if l.me.role == Client then Idle else ActiveSyncing), l.other, l.out, l.inn[1..])
  {
    hide Sound, Whole, Fits, Delivered, Solicited, Dependencies, Arrived;
    var l' := Act(l, Read(clock));
    assert l.out + [] == l.out;
    assert Quiet(l') || Quiet(Flip(l')) || Exchanging(Flip(l'));
  }

  /** The sender of an exchange reads an acknowledgement or a request. */
  lemma ReadAsSender(l: Link, clock: Clock)
    requires Inv(l) && Enabled(l, Read(clock)) && Exchanging(l)
    ensures Inv(Act(l, Read(clock)))
  {
    hide Sound, Shaking, Quiet, Colliding, Exchanging, Subscriptions.IsValid, UserValid, Whole, Fits, Solicited;
    SenderStep(l, clock);
    Established(Act(l, Read(clock)));
  }

  lemma SenderStep(l: Link, clock: Clock)
    requires Exchanging(l) && Sound(l.me.local.db) && l.inn != []
    ensures var (p, sent) := ReadPacket(l.me, l.inn[0], clock);
            && (p.state == l.me.state || p.state == l.me.state.next) && p == l.me.(state := p.state)
            && (p.state == ActiveSyncing || p.state == Idle || p.state.SendingEntity?)
            && (Exchanging(Link(p, l.other, l.out + sent, l.inn[1..])) || Quiet(Link(p, l.other, l.out + sent, l.inn[1..])))
  {
    hide Sound, Whole, Fits, Delivered, Solicited, Dependencies, Arrived, ProcessReq;
    if l.other.state.ReceivingEntity? {
      RequestIsAnswered(l.me.local.db, l.me.state.entity, l.other.state.pending, l.other.state.requested);
    }
  }

  /** The receiver reads the announcement. */
  lemma AnnouncementStep(l: Link, clock: Clock)
    requires Exchanging(Flip(l)) && !l.me.state.ReceivingEntity? && l.inn != [] && Reads(l.me.state)
    ensures var (p, sent) := ReadPacket(l.me, l.inn[0], clock);
            && (p.state == l.me.state || p.state.ReceivingEntity?) && p == l.me.(state := p.state)
            && Exchanging(Flip(Link(p, l.other, l.out + sent, l.inn[1..])))
  {
    DeliveredEmpty(l.other.local.db, l.other.state.entity);
    hide Whole, Fits, Delivered, Solicited, Dependencies, Arrived, HasEntity;
  }

  lemma ReadAnnouncement(l: Link, clock: Clock)
    requires Inv(l) && Enabled(l, Read(clock)) && Exchanging(Flip(l)) && !l.me.state.ReceivingEntity?
    ensures Inv(Act(l, Read(clock)))
  {
    AnnouncementStep(l, clock);
    hide ReadPacket, Sound, Exchanging, Shaking, Quiet, Colliding, Subscriptions.IsValid, UserValid;
    Established(Act(l, Read(clock)));
  }

  /** The database after an exchange: sound, with the owner still in it, and good if it was good. */
  ghost predicate StaysHonest(own: Owner, before: Database, after: Database) {
    Sound(after) && own.Self() in after.users && (Good(before) ==> Good(after))
  }

  /** The receiver reads the entity it asked for: it asks for another one, acknowledges or halts. */
  lemma AnswerStep(x: Database, p: Peer, e: Entity, answer: Entity, clock: Clock)
    requires Sound(p.local.db) && p.own.Self() in p.local.db.users
    requires p.state.ReceivingEntity? && p.state.next != Halted && answer.Id() == p.state.requested
    requires Sound(x) && Prepares(x, e) && Solicited(p.own.subs, e) && Delivered(x, e, p.state.pending + [answer])
    ensures var (p', sent) := ReadWhileReceiving(p, EntityPayload(answer), clock);
            var pending := p.state.pending + [answer];
            && (p'.state == Halted
                || (sent == [AckPayload] && p' == p.(state := p.state.next, local := p'.local)
                    && StaysHonest(p.own, p.local.db, p'.local.db))
                || (p'.state.ReceivingEntity? && p' == p.(state := ReceivingEntity(pending, p'.state.requested, p.state.next))
                    && sent == [ReqPayload(p'.state.requested)] && |pending| < MAX_PENDING_ENTITIES_NUM
                    && p'.state.requested in Dependencies(e) && !Arrived(pending, p'.state.requested)))
            && (p'.state == Halted ==> sent == [] && p' == p.(state := Halted, local := p'.local))
  {
    hide Sound, Whole, Fits, Delivered, Solicited, Dependencies, Arrived, Finish, Decide, CheckPending, HasEntity;
    DecideHonest(x, p.local, p.own, p.peerUser.id, clock, e, p.state.pending + [answer]);
  }

  /** What the receiver decides about the buffer of an honest sender. */
  lemma DecideHonest(x: Database, local: Local, own: Owner, sender: ID, clock: Clock, e: Entity, pending: seq<Entity>)
    requires Sound(x) && Sound(local.db) && own.Self() in local.db.users
    requires Prepares(x, e) && Solicited(own.subs, e) && Delivered(x, e, pending) && pending != []
    ensures var d := Decide(local.db, own, pending);
            if d.Request? then
              |pending| < MAX_PENDING_ENTITIES_NUM && d.id in Dependencies(e) && !Arrived(pending, d.id)
            else
              var end := Finish(own, sender, clock, local, pending, d);
              end.1 == Fatal || (end.1 == Acked && StaysHonest(own, local.db, end.0.db))
  {
    HonestSenderIsNotAccused(x, local.db, own, e, pending);
    FinishHonest(x, local, own, sender, clock, e, pending);
    hide Sound, Whole, Fits, Delivered, Solicited, Dependencies, Arrived, Finish, Decide, CheckPending;
  }

  lemma AnswerIsExpected(l: Link)
    requires Exchanging(Flip(l)) && l.me.state.ReceivingEntity? && l.inn != []
    ensures l.out == [] && |l.inn| == 1 && l.inn[0].EntityPayload? && l.inn[0].entity.Id() == l.me.state.requested
    ensures l.other.state.SendingEntity? && MaySend(Flip(l), l.other.state.entity)
    ensures Delivered(l.other.local.db, l.other.state.entity, l.me.state.pending + [l.inn[0].entity])
    ensures l.me.state.next == Idle || l.me.state.next == PassiveSyncing
  {
    hide Whole, Fits, Delivered, Solicited, Dependencies, Arrived;
  }

  lemma AcknowledgedExchange(l: Link, p: Peer)
    requires Exchanging(Flip(l)) && l.me.state.ReceivingEntity?
    requires p == l.me.(state := l.me.state.next, local := p.local)
    ensures Exchanging(Flip(Link(p, l.other, [AckPayload], [])))
  {
    hide Whole, Fits, Delivered, Solicited, Dependencies, Arrived;
  }

  lemma ContinuedExchange(l: Link, p: Peer, id: ID)
    requires Exchanging(Flip(l)) && l.me.state.ReceivingEntity? && |l.inn| == 1 && l.inn[0].EntityPayload?
    requires var e, pending := l.other.state.entity, l.me.state.pending + [l.inn[0].entity];
             && p == l.me.(state := ReceivingEntity(pending, id, l.me.state.next))
             && |pending| < MAX_PENDING_ENTITIES_NUM
             && Delivered(l.other.local.db, e, pending) && id in Dependencies(e) && !Arrived(pending, id)
    ensures Exchanging(Flip(Link(p, l.other, [ReqPayload(id)], [])))
  {
    hide Whole, Fits, Delivered, Solicited, Dependencies, Arrived;
  }

  lemma AnswerKeepsExchange(l: Link, clock: Clock)
    requires Sound(l.other.local.db) && Sound(l.me.local.db) && l.me.own.Self() in l.me.local.db.users
    requires Exchanging(Flip(l)) && l.me.state.ReceivingEntity? && l.inn != []
    ensures var (p, sent) := ReadPacket(l.me, l.inn[0], clock);
            && p == l.me.(state := p.state, local := p.local)
            && (p.state == Halted ||
                (StaysHonest(p.own, l.me.local.db, p.local.db) && p.state != Failed && p.state != AwaitHello
                 && Exchanging(Flip(Link(p, l.other, l.out + sent, l.inn[1..])))))
  {
    hide Sound, Whole, Fits, Delivered, Solicited, Dependencies, Arrived, ReadWhileReceiving, Exchanging;
    AnswerIsExpected(l);
    AnswerStep(l.other.local.db, l.me, l.other.state.entity, l.inn[0].entity, clock);
    var (p, sent) := ReadPacket(l.me, l.inn[0], clock);
    assert l.inn[1..] == [] && l.out + sent == sent;
    if p.state.ReceivingEntity? {
      ContinuedExchange(l, p, p.state.requested);
    } else if p.state != Halted {
      AcknowledgedExchange(l, p);
    }
  }

  lemma ReadAnswer(l: Link, clock: Clock)
    requires Inv(l) && Enabled(l, Read(clock)) && Exchanging(Flip(l)) && l.me.state.ReceivingEntity?
    ensures Inv(Act(l, Read(clock)))
  {
    AnswerKeepsExchange(l, clock);
    hide ReadPacket, Sound, Exchanging, Shaking, Quiet, Colliding, Subscriptions.IsValid, UserValid;
    Established(Act(l, Read(clock)));
  }

  /** Without a further request an honest exchange ends well or halts, and the database stays good. */
  lemma FinishHonest(x: Database, local: Local, own: Owner, sender: ID, clock: Clock, e: Entity, pending: seq<Entity>)
    requires Sound(x) && Sound(local.db) && own.Self() in local.db.users
    requires Prepares(x, e) && Solicited(own.subs, e) && Delivered(x, e, pending) && pending != []
    ensures var d := Decide(local.db, own, pending);
            !d.Request? ==>
              var end := Finish(own, sender, clock, local, pending, d);
              && (end.1 == Acked || end.1 == Fatal)
              && (end.1 == Acked ==> StaysHonest(own, local.db, end.0.db))
  {
    hide Whole, Fits, Delivered, Solicited, Dependencies, Arrived, PutAll, Ban, CheckPending, Good, Sound;
    HonestSenderIsNotAccused(x, local.db, own, e, pending);
    match Decide(local.db, own, pending)
    case Commit =>
      if PutAll(local.db, pending).ok {
        CommitStaysHonest(x, local.db, own, e, pending);
      }
    case Drop(Some(id)) => BanStaysHonest(own, clock.first, local, id);
    case _ =>
  }

  lemma CommitStaysHonest(x: Database, y: Database, own: Owner, e: Entity, pending: seq<Entity>)
    requires Sound(x) && Prepares(x, e) && Sound(y) && own.Self() in y.users && Delivered(x, e, pending) && pending != []
    requires Decide(y, own, pending) == Commit && PutAll(y, pending).ok
    ensures StaysHonest(own, y, PutAll(y, pending).db)
  {
    hide Whole, Fits, Dependencies, PutAll, CheckPending, Sound;
    CommitDecided(y, own, pending);
    DeliveredAuthentic(x, e, pending);
    PutAllSound(y, pending);
    PutAllEffect(y, pending);
    if Good(y) {
      CommitKeepsGood(x, y, own, e, pending);
    }
  }

  lemma BanStaysHonest(own: Owner, now: Time, local: Local, target: ID)
    requires Sound(local.db) && own.Self() in local.db.users && target != ZeroID
    ensures StaysHonest(own, local.db, Ban(own, now, local, target).local.db) && !Ban(own, now, local, target).fatal
  {
    hide Sound, Good, OperationValid;
    var e := OperationEntity(BanOperation(own, now, target));
    BanIsValid(own, now, target);
    PutSound(local.db, e);
    PutExtends(local.db, e);
    if Good(local.db) {
      BanKeepsGood(own, now, local, target);
    }
  }

  /** One of two colliding senders reads the other's announcement, or the acknowledgement before it. */
  lemma ReadCollision(l: Link, clock: Clock)
    requires Inv(l) && Enabled(l, Read(clock)) && (Colliding(l) || Colliding(Flip(l)))
    ensures Inv(Act(l, Read(clock)))
    ensures l.me.state.SendingEntity? && (l.inn[0].AnnouncePayload? || l.inn[0] == AckPayload)
    ensures Act(l, Read(clock)) == Link(l.me.(state := Idle), l.other, l.out, l.inn[1..])
  {
    hide Sound, Whole, Fits, Delivered, Solicited, Dependencies, Arrived, HasEntity;
    var l' := Act(l, Read(clock));
    assert l.out + [] == l.out;
    assert Colliding(l) ==> Colliding(l') || Exchanging(Flip(l'));
    assert Colliding(Flip(l)) ==> Quiet(l') || Quiet(Flip(l')) || Exchanging(Flip(l')) || Colliding(l') || Colliding(Flip(l'));
  }

  lemma ActKeepsInv(l: Link, a: Action)
    requires Inv(l) && Enabled(l, a) && Prepared(l, a)
    ensures Inv(Act(l, a))
  {
    hide Sound, Honest, Act, Shaking, Colliding, Extends, Whole, Fits;
    match a
    case Start => StartKeepsInv(l);
    case Announce(e, stored) => AnnounceKeepsInv(l, e, stored);
    case Done => DoneKeepsInv(l);
    case OtherWriter(db) => OtherWriterKeepsInv(l, db);
    case Stop => StopKeepsInv(l);
    case Read(clock) =>
      if Shaking(l) || Shaking(Flip(l)) {
        ReadHandshake(l, clock);
      } else if Colliding(l) || Colliding(Flip(l)) {
        ReadCollision(l, clock);
      } else if Exchanging(l) {
        ReadAsSender(l, clock);
      } else if Exchanging(Flip(l)) {
        if l.me.state.ReceivingEntity? {
          ReadAnswer(l, clock);
        } else {
          ReadAnnouncement(l, clock);
        }
      } else {
        assert Quiet(Flip(l));
        ReadDone(l, clock);
      }
  }

  lemma StopKeepsInv(l: Link)
    requires Inv(l) && Enabled(l, Stop)
    ensures Inv(Act(l, Stop))
  {
    hide Sound, Shape;
  }

  lemma InvFlips(l: Link)
    ensures Inv(l) <==> Inv(Flip(l))
  {
    hide Honest, Shape;
    assert Flip(Flip(l)) == l;
  }

  lemma {:induction false} RunKeepsInv(l: Link, steps: seq<Step>)
    requires Inv(l) && Runnable(l, steps) && AllPrepared(l, steps)
    ensures Inv(Execute(l, steps))
    decreases steps
  {
    hide Inv, Act, Enabled;
    if steps != [] {
      var s := steps[0];
      if s.mine {
        ActKeepsInv(l, s.action);
      } else {
        InvFlips(l);
        ActKeepsInv(Flip(l), s.action);
        InvFlips(Act(Flip(l), s.action));
      }
      RunKeepsInv(Apply(l, s), steps[1..]);
    }
  }

  // ---------------------------------------------------------------- what the invariant gives

  /** Two peers that have just been connected. */
  ghost predicate Connected(l: Link) {
    && Honest(l.me) && Honest(l.other)
    && l.me.role == Client && l.other.role == Server
    && l.me.state == SendUser && l.other.state == AwaitUser
    && l.out == [] && l.inn == []
  }

  /** A peer that can only go on after reading. An idle peer gives up reading after a while. */
  predicate Blocked(s: State) {
    Reads(s) && s != Idle
  }

  predicate InSync(s: State) {
    match s
    case SendingEntity(_, next) => next == ActiveSyncing
    case ReceivingEntity(_, _, next) => next == PassiveSyncing
    case _ => s == ActiveSyncing || s == PassiveSyncing
  }

  lemma InvIsSafe(l: Link)
    requires Inv(l) && !Stopped(l)
    ensures |l.out| <= 2 && |l.inn| <= 2
    ensures !(Blocked(l.me.state) && Blocked(l.other.state) && l.out == [] && l.inn == [])
    ensures InSync(l.me.state) || InSync(l.other.state) ==>
              !(l.me.state.SendingEntity? && l.other.state.SendingEntity?)
    ensures l.me.state.SendingEntity? && l.me.state.next == ActiveSyncing && l.inn != [] ==>
              l.inn[0].AckPayload? || l.inn[0].ReqPayload?
  {
    hide Honest, Whole, Fits, Delivered, Solicited, Dependencies, Arrived;
  }

  /** Whatever packet is first in the queue, its reader accepts it. */
  lemma HeadIsAccepted(l: Link, clock: Clock)
    requires Inv(l) && !Stopped(l) && l.inn != [] && Reads(l.me.state)
    ensures ReadPacket(l.me, l.inn[0], clock).0.state != Failed
  {
    assert Sound(l.me.local.db) by { hide Shape; }
    hide ReadPacket, Honest, Shape;
    ActKeepsInv(l, Read(clock));
  }

  lemma ConnectedIsInv(l: Link)
    requires Connected(l)
    ensures Inv(l)
  {
    hide Honest;
    assert Shaking(l);
  }

  /** What is safe about a connection on which neither peer has stopped: at most two packets are in a
      queue, the peers do not wait for each other, the first packet of each queue is accepted by its
      reader, and while a sync lasts at most one side sends and hears nothing but answers. */
  ghost predicate Safe(l: Link, clock: Clock) {
    && |l.out| <= 2 && |l.inn| <= 2
    && !(Blocked(l.me.state) && Blocked(l.other.state) && l.out == [] && l.inn == [])
    && (l.inn != [] && Reads(l.me.state) ==> ReadPacket(l.me, l.inn[0], clock).0.state != Failed)
    && (l.out != [] && Reads(l.other.state) ==> ReadPacket(l.other, l.out[0], clock).0.state != Failed)
    && (InSync(l.me.state) || InSync(l.other.state) ==> !(l.me.state.SendingEntity? && l.other.state.SendingEntity?))
    && (SendingInSync(l.me.state) && l.inn != [] ==> l.inn[0].AckPayload? || l.inn[0].ReqPayload?)
    && (SendingInSync(l.other.state) && l.out != [] ==> l.out[0].AckPayload? || l.out[0].ReqPayload?)
  }

  predicate SendingInSync(s: State) {
    s.SendingEntity? && s.next == ActiveSyncing
  }

  /** Safety over all runs. From the handshake on, whatever both peers do and whatever sound databases
      other writers leave behind at any moment, as long as nothing is announced before everything it
      depends on is stored, or that does not fit into the receiver's buffer: no packet is refused and no
      sender accused, and until one of the peers stops the connection is safe. */
  lemma RunsAreSafe(l: Link, steps: seq<Step>, clock: Clock)
    requires Connected(l) && Runnable(l, steps) && AllPrepared(l, steps)
    ensures var r := Execute(l, steps);
            && r.me.state != Failed && r.other.state != Failed
            && (!Stopped(r) ==> Safe(r, clock) && Sound(r.me.local.db) && Sound(r.other.local.db))
  {
    hide Execute, Runnable, ReadPacket, Sound, Shape, AllPrepared;
    ConnectedIsInv(l);
    RunKeepsInv(l, steps);
    var r := Execute(l, steps);
    if !Stopped(r) {
      InvFlips(r);
      InvIsSafe(r);
      InvIsSafe(Flip(r));
      if r.inn != [] && Reads(r.me.state) {
        HeadIsAccepted(r, clock);
      }
      if r.out != [] && Reads(r.other.state) {
        HeadIsAccepted(Flip(r), clock);
      }
    }
  }

  // ---------------------------------------------------------------- databases that stay good

  ghost predicate GoodOrHalted(p: Peer) {
    p.state == Halted || Good(p.local.db)
  }

  ghost predicate WritesGood(a: Action) {
    a.OtherWriter? ==> Good(a.db)
  }

  ghost predicate AnnouncesFitting(a: Action) {
    a.Announce? ==> Fits(a.entity)
  }

  lemma GoodIsPrepared(l: Link, a: Action)
    requires Enabled(l, a) && Good(l.me.local.db) && AnnouncesFitting(a)
    ensures Prepared(l, a)
  {
    hide Good, Fits, Whole, Announceable;
    if a.Announce? {
      GoodIsWhole(l.me.local.db, a.entity);
    }
  }

  lemma StepKeepsGood(l: Link, a: Action)
    requires Inv(l) && Enabled(l, a) && Good(l.me.local.db) && WritesGood(a)
    ensures GoodOrHalted(Act(l, a).me)
  {
    hide Inv, Good, ReadPacket, Sound;
    if a.Read? && l.me.state == AwaitHello {
      HelloKeepsGood(l, a.clock);
    } else if a.Read? && l.me.state.ReceivingEntity? {
      AnswerKeepsGood(l, a.clock);
    } else if a.Read? {
      ReadingKeepsLocal(l.me, l.inn[0], a.clock);
    }
  }

  lemma ReadingKeepsLocal(p: Peer, x: Payload, clock: Clock)
    requires Reads(p.state) && p.state != AwaitHello && !p.state.ReceivingEntity?
    ensures ReadPacket(p, x, clock).0.local == p.local
  {
    hide ProcessReq, IsUserBanned, UserValid, HasEntity;
  }

  lemma HelloKeepsGood(l: Link, clock: Clock)
    requires Inv(l) && Enabled(l, Read(clock)) && l.me.state == AwaitHello && Good(l.me.local.db)
    ensures Good(ReadPacket(l.me, l.inn[0], clock).0.local.db)
  {
    hide Shape, Good, Subscriptions.IsValid;
    FinalizeKeepsGood(l.me);
    hide Sound;
  }

  lemma AnswerKeepsGood(l: Link, clock: Clock)
    requires Inv(l) && Enabled(l, Read(clock)) && l.me.state.ReceivingEntity? && Good(l.me.local.db)
    ensures GoodOrHalted(ReadPacket(l.me, l.inn[0], clock).0)
  {
    ReceiverIsServed(l);
    hide Shape, Exchanging, ReadPacket;
    AnswerKeepsExchange(l, clock);
    hide Good, Sound;
  }

  lemma ReceiverIsServed(l: Link)
    requires Inv(l) && !Stopped(l) && l.me.state.ReceivingEntity?
    ensures Exchanging(Flip(l))
  {
    hide Honest, Whole, Fits, Delivered, Solicited, Dependencies, Arrived;
  }

  /** Where all other writers leave good databases, in which nothing is missing or unreadable, everything
      that can be announced is whole, and both databases stay good. */
  lemma {:induction false} GoodRuns(l: Link, steps: seq<Step>)
    requires Inv(l) && Runnable(l, steps) && (forall s | s in steps :: WritesGood(s.action) && AnnouncesFitting(s.action))
    requires GoodOrHalted(l.me) && GoodOrHalted(l.other)
    ensures AllPrepared(l, steps)
    ensures GoodOrHalted(Execute(l, steps).me) && GoodOrHalted(Execute(l, steps).other)
    decreases steps
  {
    hide Inv, Act, Good, WritesGood, AnnouncesFitting, Prepared;
    if steps != [] {
      var s := steps[0];
      assert s in steps;
      assert forall t | t in steps[1..] :: t in steps;
      OneGoodStep(l, s);
      GoodRuns(Apply(l, s), steps[1..]);
    }
  }

  lemma OneGoodStep(l: Link, s: Step)
    requires Inv(l) && StepEnabled(l, s) && WritesGood(s.action) && AnnouncesFitting(s.action) && GoodOrHalted(l.me) && GoodOrHalted(l.other)
    ensures Prepared(if s.mine then l else Flip(l), s.action)
    ensures Inv(Apply(l, s)) && GoodOrHalted(Apply(l, s).me) && GoodOrHalted(Apply(l, s).other)
  {
    hide Inv, Good, WritesGood, AnnouncesFitting, Prepared;
    var own := if s.mine then l else Flip(l);
    InvFlips(l);
    GoodIsPrepared(own, s.action);
    ActKeepsInv(own, s.action);
    StepKeepsGood(own, s.action);
    InvFlips(Act(own, s.action));
    ActKeepsOther(own, s.action);
  }

  lemma ActKeepsOther(l: Link, a: Action)
    requires Enabled(l, a)
    ensures Act(l, a).other == l.other
  {
  }

  /** Where other writers leave good databases, nothing but its size is asked of what is announced: every
      run is safe, and as long as neither peer has stopped both databases are good. */
  lemma RunsOverGoodDatabasesAreSafe(l: Link, steps: seq<Step>, clock: Clock)
    requires Connected(l) && Runnable(l, steps) && (forall s | s in steps :: WritesGood(s.action) && AnnouncesFitting(s.action))
    requires Good(l.me.local.db) && Good(l.other.local.db)
    ensures var r := Execute(l, steps);
            && r.me.state != Failed && r.other.state != Failed
            && (!Stopped(r) ==> Safe(r, clock) && Good(r.me.local.db) && Good(r.other.local.db))
  {
    hide Execute, Runnable, Safe, Good, AllPrepared;
    ConnectedIsInv(l);
    GoodRuns(l, steps);
    RunsAreSafe(l, steps, clock);
  }

  // ---------------------------------------------------------------- the handshake can be completed

  /** A newly registered node, with nobody but the owner in its database, is an honest peer. */
  lemma NewNodeIsHonest(p: Peer)
    requires UserValid(p.user) && p.user.id == p.own.Self() && Subscriptions.IsValid(p.own.subs)
    requires p.local.db == Database(map[p.user.id := p.user], map[], map[], {}, {}, {}) && p.state != AwaitHello
    ensures Honest(p)
  {
    hide UserValid, Subscriptions.IsValid;
    assert Authentic(UserEntity(p.user));
  }

  ghost predicate Acceptable(p: Peer, u: User) {
    !IsUserBanned(p.local.db, p.own.moderators, u.id)
  }

  const MINE := Step(true, Read(Clock(0, 0)))
  const YOURS := Step(false, Read(Clock(0, 0)))

  function UsersKnown(l: Link): Link {
    Link(l.me.(peerUser := l.other.user, state := AwaitHello), l.other.(peerUser := l.me.user, state := AwaitHello),
         [Hello(l.me)], [])
  }

  lemma UsersAreExchanged(l: Link)
    requires Connected(l) && Acceptable(l.me, l.other.user) && Acceptable(l.other, l.me.user)
    ensures Runnable(l, [Step(true, Start), YOURS, MINE]) && Execute(l, [Step(true, Start), YOURS, MINE]) == UsersKnown(l)
  {
    hide Honest, Sound, IsUserBanned, Subscriptions.IsValid, UserValid, Runnable, Execute;
    HonestHandshake(l.me);
    HonestHandshake(l.other);
    var l1 := Link(l.me.(state := AwaitUser), l.other, [UserPayload(l.me)], []);
    var l2 := Link(l1.me, l.other.(peerUser := l.me.user, state := AwaitHello), [], [UserPayload(l.other)]);
    assert Apply(l, Step(true, Start)) == l1 by { assert [] + [UserPayload(l.me)] == [UserPayload(l.me)]; }
    var l3 := UsersKnown(l);
    RunEnds(l3);
    RunOn(l2, [MINE], l3, [], l3);
    RunOn(l1, [YOURS, MINE], l2, [MINE], l3);
    RunOn(l, [Step(true, Start), YOURS, MINE], l1, [YOURS, MINE], l3);
  }

  lemma HellosAreExchanged(l: Link)
    requires l.me.role == Client && l.other.role == Server && l.out == [Hello(l.me)] && l.inn == []
    requires l.me.state == AwaitHello && l.other.state == AwaitHello && Honest(l.me) && Honest(l.other)
    ensures Runnable(l, [YOURS, MINE])
    ensures Execute(l, [YOURS, MINE]) == Link(Finalize(l.me, l.other.own.subs), Finalize(l.other, l.me.own.subs), [], [])
  {
    hide Honest, Sound, IsUserBanned, Subscriptions.IsValid, UserValid, Runnable, Execute;
    HonestHandshake(l.me);
    HonestHandshake(l.other);
    var l1 := Link(l.me, Finalize(l.other, l.me.own.subs), [], [Hello(l.other)]);
    var l2 := Link(Finalize(l.me, l.other.own.subs), l1.other, [], []);
    RunEnds(l2);
    RunOn(l1, [MINE], l2, [], l2);
    RunOn(l, [YOURS, MINE], l1, [MINE], l2);
  }

  /** Two connected peers that have not banned each other can always complete the handshake, after
      which each has stored the other's user and knows its subscriptions, and the client syncs first. */
  lemma HandshakeCompletes(l: Link)
    requires Connected(l) && Acceptable(l.me, l.other.user) && Acceptable(l.other, l.me.user)
    ensures var steps := [Step(true, Start), YOURS, MINE] + [YOURS, MINE];
            && Runnable(l, steps)
            && var r := Execute(l, steps);
               && r.me.state == ActiveSyncing && r.other.state == PassiveSyncing && r.out == [] && r.inn == []
               && r.me.peerUser == l.other.user && r.other.peerUser == l.me.user && Acquainted(r)
               && r.me == Finalize(l.me.(peerUser := l.other.user), l.other.own.subs)
               && r.other == Finalize(l.other.(peerUser := l.me.user), l.me.own.subs)
               && l.other.user.id in r.me.local.db.users && l.me.user.id in r.other.local.db.users
  {
    hide Runnable, Execute, Sound, UserValid, Subscriptions.IsValid;
    UsersAreExchanged(l);
    HellosAreExchanged(UsersKnown(l));
    RunsJoin(l, [Step(true, Start), YOURS, MINE], [YOURS, MINE]);
  }

  lemma {:induction false} RunsJoin(l: Link, first: seq<Step>, second: seq<Step>)
    requires Runnable(l, first) && Runnable(Execute(l, first), second)
    ensures Runnable(l, first + second) && Execute(l, first + second) == Execute(Execute(l, first), second)
    decreases first
  {
    hide Enabled, Act;
    if first == [] {
      assert first + second == second;
    } else {
      RunsJoin(Apply(l, first[0]), first[1..], second);
      assert (first + second)[1..] == first[1..] + second;
    }
  }

  lemma HonestHandshake(p: Peer)
    requires Honest(p) && p.state != Halted
    ensures Sound(p.local.db) && UserValid(p.user) && Subscriptions.IsValid(p.own.subs)
  {
  }

  lemma RunOn(l: Link, steps: seq<Step>, l': Link, rest: seq<Step>, end: Link)
    requires steps != [] && StepEnabled(l, steps[0]) && Apply(l, steps[0]) == l' && steps[1..] == rest
    requires Runnable(l', rest) && Execute(l', rest) == end
    ensures Runnable(l, steps) && Execute(l, steps) == end
  {
  }

  lemma RunEnds(l: Link)
    ensures Runnable(l, []) && Execute(l, []) == l
  {
  }

  /** An honest exchange halts the receiver exactly when the buffer is to be stored and the announced
      operation's object was not stored before, or one of the thread roots in the buffer has been
      stored by somebody else meanwhile. */
  lemma ExchangeHaltsExactly(x: Database, p: Peer, e: Entity, answer: Entity, clock: Clock)
    requires Honest(p) && p.state.ReceivingEntity? && p.state.next != Halted && answer.Id() == p.state.requested
    requires TagsMatch(p.local.db) && Sound(x) && Prepares(x, e) && Solicited(p.own.subs, e) && Delivered(x, e, p.state.pending + [answer])
    ensures var pending := p.state.pending + [answer];
            ReadWhileReceiving(p, EntityPayload(answer), clock).0.state == Halted <==>
              && CheckPending(p.local.db, p.own, pending) == Matched
              && !((e.OperationEntity? ==> TargetStored(p.local.db, e.operation)) &&
                   (forall m | MessageEntity(m) in pending && !IsReply(m) :: m.id !in p.local.db.messages))
  {
    var pending := p.state.pending + [answer];
    HonestSenderIsNotAccused(x, p.local.db, p.own, e, pending);
    HonestCommitSucceedsExactly(x, p.local.db, e, pending);
    FinishHonest(x, p.local, p.own, p.peerUser.id, clock, e, pending);
    HonestBanIsNotFatal(p, pending, clock);
    HaltMeansFailedCommit(p, answer, clock);
    hide *;
  }

  /** The only way to halt on an answer: the decision is to store, and storing fails. */
  lemma HaltMeansFailedCommit(p: Peer, answer: Entity, clock: Clock)
    requires p.state.ReceivingEntity? && p.state.next != Halted && answer.Id() == p.state.requested
    requires var d := Decide(p.local.db, p.own, p.state.pending + [answer]);
             !d.Accuse? && (d.Drop? && d.ban.Some? ==> !Ban(p.own, clock.first, p.local, d.ban.value).fatal)
    ensures ReadWhileReceiving(p, EntityPayload(answer), clock).0.state == Halted <==>
              && CheckPending(p.local.db, p.own, p.state.pending + [answer]) == Matched
              && !PutAll(p.local.db, p.state.pending + [answer]).ok
  {
    hide Ban, CheckPending, PutAll;
  }

  lemma HonestBanIsNotFatal(p: Peer, pending: seq<Entity>, clock: Clock)
    requires pending != []
    ensures var d := Decide(p.local.db, p.own, pending);
            d.Drop? && d.ban.Some? && d.ban.value.UserHash? ==> !Ban(p.own, clock.first, p.local, d.ban.value).fatal
  {
    var d := Decide(p.local.db, p.own, pending);
    if d.Drop? && d.ban.Some? {
      BanIsValid(p.own, clock.first, d.ban.value);
    }
  }
}
