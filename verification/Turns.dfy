/** The order of packets on a connection: over every run of two peers, whatever is announced and whatever
    other writers store. Nothing is asked of the databases but that they are sound. */
module Turns {
  import opened Topics
  import opened Subscriptions
  import opened Entities
  import opened Databases
  import opened Views
  import opened Receiving
  import opened ReceivingRuns
  import opened Sending
  import opened HonestExchange
  import opened Protocol
  import Commits

  // ---------------------------------------------------------------- the invariant

  predicate IsOver(p: Peer) {
    HasStopped(p) || p.state == Failed
  }

  predicate SomeOver(l: Link) {
    IsOver(l.me) || IsOver(l.other)
  }

  /** Exchanges are only nested in idling and in the syncs. */
  predicate Proper(s: State) {
    match s
    case SendingEntity(_, next) => next == Idle || next == ActiveSyncing
    case ReceivingEntity(_, _, next) => next == Idle || next == PassiveSyncing
    case _ => true
  }

  /** A registered user with valid subscriptions and a sound database. */
  ghost predicate Registered(p: Peer) {
    && Proper(p.state) && Sound(p.local.db) && UserValid(p.user) && p.user.id == p.own.Self() && Subscriptions.IsValid(p.own.subs)
    && (p.state == AwaitHello ==> UserValid(p.peerUser))
  }

  /** No exchange; in the syncs the turn is being passed on or has just been. */
  predicate Calm(l: Link) {
    Acquainted(l) && l.inn == [] &&
    ((Resting(l.me.state, l.other.state) && l.out == []) ||
     (l.me.state == PassiveSyncing && l.me.role == Client && l.other.state == PassiveSyncing && l.out == [DonePayload]) ||
     (l.me.state == Idle && l.me.role == Server && l.other.state == PassiveSyncing && l.out == [DonePayload]) ||
     (l.me.state.SendingEntity? && l.me.state.next == Idle && l.me.role == Server &&
      l.other.state == PassiveSyncing && l.out == [DonePayload, AnnouncePayload(l.me.state.entity.Id())]))
  }

  /** The buffer starts with the announced entity, or that is what is requested. */
  predicate Started(pending: seq<Entity>, requested: ID, id: ID) {
    if pending == [] then requested == id else pending[0].Id() == id
  }

  /** The entity I announced is asked for, answered or acknowledged. */
  predicate Serving(l: Link) {
    Acquainted(l) && l.me.state.SendingEntity? &&
    var id, next := l.me.state.entity.Id(), l.me.state.next;
    ((Resting(next, l.other.state) && l.out == [AnnouncePayload(id)] && l.inn == []) ||
     (Resting(next, l.other.state) && l.out == [] && l.inn == [AckPayload]) ||
     (l.other.state.ReceivingEntity? && Resting(next, l.other.state.next) &&
      Started(l.other.state.pending, l.other.state.requested, id) &&
      ((l.out == [] && l.inn == [ReqPayload(l.other.state.requested)]) ||
       (|l.out| == 1 && l.out[0].EntityPayload? && l.out[0].entity.Id() == l.other.state.requested && l.inn == []))))
  }

  /** Both announced in the idle state. */
  predicate Crossing(l: Link) {
    Acquainted(l) && l.other.state.SendingEntity? && l.other.state.next == Idle &&
    var f := AnnouncePayload(l.other.state.entity.Id());
    ((l.me.state == Idle && |l.out| == 1 && l.out[0].AnnouncePayload? && l.inn == []) ||
     (l.me.state.SendingEntity? && l.me.state.next == Idle &&
      var e := AnnouncePayload(l.me.state.entity.Id());
      ((l.out == [e] && l.inn == [f]) ||
       (|l.out| == 2 && l.out[0].AnnouncePayload? && l.out[1] == e && l.inn == []) ||
       (l.out == [] && l.inn == [AckPayload, f]))))
  }

  /** I gave up the connection in the middle of an exchange; the other side waits and hears nothing more. */
  predicate Broken(l: Link) {
    l.me.state == Failed && l.out == [] && l.inn == [] && (l.other.state.SendingEntity? || l.other.state.ReceivingEntity?)
  }

  ghost predicate Turn(l: Link) {
    Shaking(l) || Calm(l) || Serving(l) || Crossing(l) || Broken(l)
  }

  ghost predicate InTurn(l: Link) {
    && Registered(l.me) && Registered(l.other) && l.me.role != l.other.role
    && (Stopped(l) || Turn(l) || Turn(Flip(l)))
  }

  // ---------------------------------------------------------------- every step keeps it

  lemma RegisteredStays(l: Link, a: Action)
    requires Registered(l.me) && Enabled(l, a)
    ensures Registered(Act(l, a).me)
  {
    hide UserValid, Subscriptions.IsValid, Sound, InterestedInEntity, Announceable, ReadPacket;
    if a.Read? {
      ReadingStaysRegistered(l.me, l.inn[0], a.clock);
    }
  }

  lemma ReadingStaysRegistered(p: Peer, x: Payload, clock: Clock)
    requires Registered(p) && Reads(p.state)
    ensures Registered(ReadPacket(p, x, clock).0)
  {
    hide Subscriptions.IsValid, Sound, ProcessReq, HasEntity, IsUserBanned, UserValid, ReadWhileReceiving;
    if p.state == AwaitHello {
      UserIsAuthentic(p.peerUser);
      PutSound(p.local.db, UserEntity(p.peerUser));
    } else if p.state.ReceivingEntity? {
      AnswerStaysSound(p, x, clock);
    }
  }

  lemma UserIsAuthentic(u: User)
    ensures Authentic(UserEntity(u)) <==> UserValid(u)
  {
  }

  /** Whatever is answered, the receiver's database stays sound. */
  lemma AnswerStaysSound(p: Peer, x: Payload, clock: Clock)
    requires Sound(p.local.db) && p.state.ReceivingEntity?
    ensures var p' := ReadWhileReceiving(p, x, clock).0;
            && Sound(p'.local.db) && Extends(p.local.db, p'.local.db) && p' == p.(state := p'.state, local := p'.local)
            && (p'.state == p.state.next || p'.state == Halted || p'.state == Failed
                || (p'.state.ReceivingEntity? && p'.state.next == p.state.next))
  {
    ItselfExtends(p.local.db);
    hide Sound, Extends, Decide, Finish;
    if ReadEntity(Packet(x, true), p.state.requested).Some? {
      var pending := p.state.pending + [x.entity];
      if !Decide(p.local.db, p.own, pending).Request? {
        FinishStaysSound(p.own, p.peerUser.id, clock, p.local, pending);
      }
    }
  }

  lemma ItselfExtends(db: Database)
    ensures Extends(db, db)
  {
  }

  lemma FinishStaysSound(own: Owner, sender: ID, clock: Clock, local: Local, pending: seq<Entity>)
    requires Sound(local.db) && pending != [] && !Decide(local.db, own, pending).Request?
    ensures var end := Finish(own, sender, clock, local, pending, Decide(local.db, own, pending));
            Sound(end.0.db) && Extends(local.db, end.0.db)
  {
    ItselfExtends(local.db);
    hide Sound, Extends, PutAll, Ban, CheckPending;
    var d := Decide(local.db, own, pending);
    match d
    case Commit =>
      CommitDecided(local.db, own, pending);
      Commits.MatchedBatchAuthentic(local.db, own, pending);
      PutAllSound(local.db, pending);
      PutAllEffect(local.db, pending);
    case Drop(None) =>
    case Drop(Some(id)) => BanStaysSound(own, clock.first, local, id);
    case Accuse(None) => BanStaysSound(own, clock.first, local, sender);
    case Accuse(Some(author)) =>
      var ban := Ban(own, clock.first, local, author).local;
      BanStaysSound(own, clock.first, local, author);
      BanStaysSound(own, clock.second, ban, sender);
      ExtendsTransitive(local.db, ban.db, Ban(own, clock.second, ban, sender).local.db);
  }

  lemma BanStaysSound(own: Owner, now: Time, local: Local, target: ID)
    requires Sound(local.db)
    ensures Sound(Ban(own, now, local, target).local.db) && Extends(local.db, Ban(own, now, local, target).local.db)
  {
    ItselfExtends(local.db);
    var e := OperationEntity(BanOperation(own, now, target));
    PutExtends(local.db, e);
    hide Sound, Extends, OperationValid;
    if OperationValid(e.operation) {
      PutSound(local.db, e);
    }
  }

  // ---------------------------------------------------------------- what a reader accepts

  /** The packets a peer accepts in each state. */
  predicate Expects(p: Peer, x: Payload)
    requires Reads(p.state)
  {
    match p.state
    case AwaitUser => x.EntityPayload? && x.entity.UserEntity? && UserValid(x.entity.user)
    case AwaitHello => x.HelloPayload? && x.proto == PROTOCOL_VERSION && Subscriptions.IsValid(x.subs)
    case PassiveSyncing => x.AnnouncePayload? || x.DonePayload?
    case Idle => x.AnnouncePayload?
    case SendingEntity(_, next) => x.AckPayload? || x.ReqPayload? || (next == Idle && x.AnnouncePayload?)
    case ReceivingEntity(_, requested, _) => x.EntityPayload? && x.entity.Id() == requested
  }

  /** The two causes of a failure: a request that cannot be answered, and an accusation. */
  predicate Fails(p: Peer, x: Payload, clock: Clock)
    requires Reads(p.state)
  {
    match p.state
    case SendingEntity(e, _) => x.ReqPayload? && ProcessReq(p.local.db, e, x.id).Err?
    case ReceivingEntity(pending, _, _) =>
      x.EntityPayload? &&
      var d := Decide(p.local.db, p.own, pending + [x.entity]);
      !d.Request? && Finish(p.own, p.peerUser.id, clock, p.local, pending + [x.entity], d).1 == Accused
    case _ => false
  }

  lemma FailsExactly(p: Peer, x: Payload, clock: Clock)
    requires Reads(p.state) && Proper(p.state) && Expects(p, x)
    ensures ReadPacket(p, x, clock).0.state == Failed <==> Fails(p, x, clock)
  {
    hide ProcessReq, Decide, Finish, HasEntity, IsUserBanned, UserValid, Subscriptions.IsValid;
  }

  // ---------------------------------------------------------------- the order of packets

  /** At most two packets are in a queue, the peers do not wait for each other, at most one side sends
      while a sync lasts, and the first packet of each queue is one its reader accepts. */
  ghost predicate Orderly(l: Link) {
    && |l.out| <= 2 && |l.inn| <= 2
    && !(Blocked(l.me.state) && Blocked(l.other.state) && l.out == [] && l.inn == [])
    && (InSync(l.me.state) || InSync(l.other.state) ==> !(l.me.state.SendingEntity? && l.other.state.SendingEntity?))
    && (l.inn != [] && Reads(l.me.state) ==> Expects(l.me, l.inn[0]))
    && (l.out != [] && Reads(l.other.state) ==> Expects(l.other, l.out[0]))
  }

  lemma InTurnIsOrderly(l: Link)
    requires InTurn(l) && !SomeOver(l)
    ensures Orderly(l)
  {
    hide UserValid, Subscriptions.IsValid, Sound;
  }

  lemma TurnFlips(l: Link)
    ensures InTurn(l) <==> InTurn(Flip(l))
  {
    hide Registered, Turn;
    assert Flip(Flip(l)) == l;
  }

  lemma ActKeepsTurn(l: Link, a: Action)
    requires InTurn(l) && Enabled(l, a)
    ensures InTurn(Act(l, a))
  {
    hide Registered, Turn, Act, Enabled;
    RegisteredStays(l, a);
    ActKeepsOthers(l, a);
    if a.Read? {
      ReadKeepsTurn(l, a.clock);
    } else {
      WritingKeepsTurn(l, a);
    }
  }

  lemma ActKeepsOthers(l: Link, a: Action)
    requires Enabled(l, a)
    ensures Act(l, a).other == l.other && Act(l, a).me.role == l.me.role && !Stopped(l)
  {
    hide Sound, Decide, Finish, ProcessReq, HasEntity, IsUserBanned, UserValid, Subscriptions.IsValid, InterestedInEntity, Announceable;
  }

  lemma WritingKeepsTurn(l: Link, a: Action)
    requires InTurn(l) && Enabled(l, a) && !a.Read?
    ensures var l' := Act(l, a); Stopped(l') || Turn(l') || Turn(Flip(l'))
  {
    hide Registered, Sound, InterestedInEntity, Announceable;
    assert l.out + [] == l.out;
    if a.OtherWriter? || a.Stop? {
      WaitingKeepsTurn(l, a);
    }
  }

  lemma WaitingKeepsTurn(l: Link, a: Action)
    requires InTurn(l) && Enabled(l, a) && (a.OtherWriter? || a.Stop?)
    ensures var l' := Act(l, a); Stopped(l') || Turn(l') || Turn(Flip(l'))
  {
    hide Registered, Sound;
  }

  lemma ReadKeepsTurn(l: Link, clock: Clock)
    requires InTurn(l) && Enabled(l, Read(clock))
    ensures var l' := Act(l, Read(clock)); Stopped(l') || Turn(l') || Turn(Flip(l'))
  {
    assert Reads(l.me.state);
    hide InTurn, Turn, Act, Enabled;
    if l.me.state.ReceivingEntity? {
      ReadAnswerKeepsTurn(l, clock);
    } else if l.me.state.SendingEntity? {
      ReadInSendingKeepsTurn(l, clock);
    } else if l.me.state == AwaitUser || l.me.state == AwaitHello {
      ReadGreetingKeepsTurn(l, clock);
    } else {
      ReadAtRestKeepsTurn(l, clock);
    }
  }

  lemma ReadGreetingKeepsTurn(l: Link, clock: Clock)
    requires InTurn(l) && Enabled(l, Read(clock)) && (l.me.state == AwaitUser || l.me.state == AwaitHello)
    ensures var l' := Act(l, Read(clock)); Stopped(l') || Turn(l') || Turn(Flip(l'))
  {
    hide Sound, IsUserBanned, UserValid, Subscriptions.IsValid;
  }

  lemma ReadAtRestKeepsTurn(l: Link, clock: Clock)
    requires InTurn(l) && Enabled(l, Read(clock)) && (l.me.state == PassiveSyncing || l.me.state == Idle)
    ensures var l' := Act(l, Read(clock)); Stopped(l') || Turn(l') || Turn(Flip(l'))
  {
    hide Registered, HasEntity;
    assert l.out + [] == l.out;
  }

  lemma ReadAnswerKeepsTurn(l: Link, clock: Clock)
    requires InTurn(l) && Enabled(l, Read(clock)) && l.me.state.ReceivingEntity?
    ensures var l' := Act(l, Read(clock)); Stopped(l') || Turn(l') || Turn(Flip(l'))
  {
    assert Serving(Flip(l)) by { hide Registered; }
    hide InTurn, Decide, Finish, Sound;
    var l' := Act(l, Read(clock));
    assert HasStopped(l'.me) || Serving(Flip(l')) || Broken(l');
  }

  lemma ReadInSendingKeepsTurn(l: Link, clock: Clock)
    requires InTurn(l) && Enabled(l, Read(clock)) && l.me.state.SendingEntity?
    ensures var l' := Act(l, Read(clock)); Stopped(l') || Turn(l') || Turn(Flip(l'))
  {
    SenderIsServing(l);
    var x := l.inn[0];
    if x.ReqPayload? {
      if ProcessReq(l.me.local.db, l.me.state.entity, x.id).Ok? {
        AnswerHasId(l.me.local.db, l.me.state.entity, x.id);
      }
      hide Registered, ProcessReq, InTurn, Calm, Crossing, Shaking;
      var l' := Act(l, Read(clock));
      assert Serving(l') || Broken(l');
    } else {
      hide Registered, ProcessReq, InTurn;
      assert l.out + [] == l.out;
    }
  }

  lemma SenderIsServing(l: Link)
    requires InTurn(l) && !Stopped(l) && l.me.state.SendingEntity? && l.inn != []
    ensures Serving(l) || ((l.inn[0].AckPayload? || l.inn[0].AnnouncePayload?) && (Crossing(l) || Crossing(Flip(l))))
  {
    hide Registered;
  }

  lemma AnswerHasId(x: Database, e: Entity, id: ID)
    requires Sound(x) && ProcessReq(x, e, id).Ok?
    ensures ProcessReq(x, e, id).value.Id() == id
  {
    hide Authentic;
  }

  lemma {:induction false} RunKeepsTurn(l: Link, steps: seq<Step>)
    requires InTurn(l) && Runnable(l, steps)
    ensures InTurn(Execute(l, steps))
    decreases steps
  {
    hide InTurn, Act, Enabled;
    if steps != [] {
      StepKeepsTurn(l, steps[0]);
      RunKeepsTurn(Apply(l, steps[0]), steps[1..]);
    }
  }

  lemma StepKeepsTurn(l: Link, s: Step)
    requires InTurn(l) && StepEnabled(l, s)
    ensures InTurn(Apply(l, s))
  {
    hide InTurn, Act, Enabled;
    TurnFlips(l);
    ActKeepsTurn(if s.mine then l else Flip(l), s.action);
    TurnFlips(Act(if s.mine then l else Flip(l), s.action));
  }

  lemma ConnectedIsInTurn(l: Link)
    requires Connected(l)
    ensures InTurn(l)
  {
    hide UserValid, Subscriptions.IsValid, Sound;
    assert Shaking(l);
  }

  /** Over every run of two peers from the handshake on, whatever they announce and whatever sound databases
      other writers leave, until a peer stops or gives up the connection: the packets are in order. */
  lemma AllRunsAreOrderly(l: Link, steps: seq<Step>)
    requires Connected(l) && Runnable(l, steps)
    ensures var r := Execute(l, steps); SomeOver(r) || Orderly(r)
  {
    hide Connected, Runnable, Execute, InTurn, Orderly;
    ConnectedIsInTurn(l);
    RunKeepsTurn(l, steps);
    if !SomeOver(Execute(l, steps)) {
      InTurnIsOrderly(Execute(l, steps));
    }
  }

  lemma StepGivesUpExactly(l: Link, a: Action)
    requires InTurn(l) && Enabled(l, a) && !SomeOver(l)
    ensures Act(l, a).me.state == Failed <==> a.Read? && Fails(l.me, l.inn[0], a.clock)
  {
    InTurnIsOrderly(l);
    assert Proper(l.me.state);
    hide InTurn, Fails, Sound, Announceable, InterestedInEntity, ReadPacket;
    if a.Read? {
      FailsExactly(l.me, l.inn[0], a.clock);
    }
  }

  /** In every run, when a peer gives up the connection it has just read a request it cannot answer, or an
      answer for which it accuses the sender; and whenever it reads such a packet it gives up. */
  lemma GivesUpExactly(l: Link, steps: seq<Step>, s: Step)
    requires Connected(l) && Runnable(l, steps) && StepEnabled(Execute(l, steps), s) && !SomeOver(Execute(l, steps))
    ensures var r := Execute(l, steps);
            var own := if s.mine then r else Flip(r);
            Act(own, s.action).me.state == Failed <==> s.action.Read? && Fails(own.me, own.inn[0], s.action.clock)
  {
    hide Connected, Runnable, Execute, InTurn, Fails, Act, Enabled;
    ConnectedIsInTurn(l);
    RunKeepsTurn(l, steps);
    TurnFlips(Execute(l, steps));
    StepGivesUpExactly(if s.mine then Execute(l, steps) else Flip(Execute(l, steps)), s.action);
  }
}
