/** Announcing while other writers are in the middle of a commit. Storage tells its observers of each
    entity as soon as it is inserted, so an idle peer may announce a message whose author or parent is
    still to be inserted. What then happens is said exactly here. */
module Announcements {
  import opened Topics
  import opened Subscriptions
  import opened Entities
  import opened Databases
  import opened Views
  import opened Receiving
  import opened ReceivingRuns
  import opened Sending
  import opened HonestExchange
  import opened Protocol
  import opened Turns
  import Commits

  // ---------------------------------------------------------------- commits are such writers

  /** Whatever any number of receiving peers do to a database, single insertion by single insertion, is
      something another writer of the two-peer machine may do. */
  lemma {:induction false} CommitsAreWriters(own: Owner, n: Commits.Node, steps: seq<Commits.Step>)
    requires Commits.Inv(own, n) && Commits.Runnable(own, n, steps)
    ensures Sound(Commits.Execute(own, n, steps).db) && Extends(n.db, Commits.Execute(own, n, steps).db)
    decreases steps
  {
    hide Commits.Enabled, Commits.Apply, Extends, Sound, Commits.Inv;
    CommitsKeepSound(own, n);
    if steps == [] {
      ItselfExtends(n.db);
    } else {
      Commits.StepKeepsInv(own, n, steps[0]);
      CommitStepExtends(own, n, steps[0]);
      CommitsAreWriters(own, Commits.Apply(own, n, steps[0]), steps[1..]);
      ExtendsTransitive(n.db, Commits.Apply(own, n, steps[0]).db, Commits.Execute(own, n, steps).db);
    }
  }

  lemma CommitsKeepSound(own: Owner, n: Commits.Node)
    requires Commits.Inv(own, n)
    ensures Sound(n.db)
  {
  }

  lemma CommitStepExtends(own: Owner, n: Commits.Node, s: Commits.Step)
    ensures Extends(n.db, Commits.Apply(own, n, s).db)
  {
    hide PutEntity, Extends;
    ItselfExtends(n.db);
    match s
    case Check(_, _) =>
    case InsertNext(peer) =>
      if peer in n.flights && n.flights[peer] != [] { PutExtends(n.db, n.flights[peer][0]); }
    case Introduce(u) => PutExtends(n.db, UserEntity(u));
    case StoreBan(now, target) => PutExtends(n.db, OperationEntity(BanOperation(own, now, target)));
    case Post(e) => PutExtends(n.db, e);
  }

  // ---------------------------------------------------------------- an exchange with fixed databases

  /** How an exchange ends: the buffer, and the receiver's decision unless a request was not answered. */
  datatype Talk = Talk(pending: seq<Entity>, decision: Option<Decision>) {
    /** Neither side takes the other's packets for a violation. */
    predicate Settled() {
      decision.Some? && !decision.value.Accuse?
    }
  }

  /** The sender with database `x` and the receiver with database `y`, request by request. */
  function Dialogue(x: Database, y: Database, own: Owner, e: Entity, pending: seq<Entity>, needed: ID): Talk
    requires |pending| < MAX_PENDING_ENTITIES_NUM
    decreases MAX_PENDING_ENTITIES_NUM - |pending|
  {
    match ProcessReq(x, e, needed)
    case Err(_) => Talk(pending, None)
    case Ok(p) =>
      var pending' := pending + [p];
      var d := Decide(y, own, pending');
      if d.Request? then Dialogue(x, y, own, e, pending', d.id) else Talk(pending', Some(d))
  }

  lemma LastAnswer(p: Peer, answer: Entity, clock: Clock)
    requires p.state.ReceivingEntity? && p.state.next != Failed && answer.Id() == p.state.requested
    requires !Decide(p.local.db, p.own, p.state.pending + [answer]).Request?
    ensures var d, s := Decide(p.local.db, p.own, p.state.pending + [answer]), ReadWhileReceiving(p, EntityPayload(answer), clock).0.state;
            if d.Accuse? then s == Failed || s == Halted else s != Failed
  {
    hide PutAll, Ban, CheckPending;
  }

  lemma ReceiverAsksOn(p: Peer, answer: Entity, clock: Clock)
    requires p.state.ReceivingEntity? && answer.Id() == p.state.requested
    requires Decide(p.local.db, p.own, p.state.pending + [answer]).Request?
    ensures var pending := p.state.pending + [answer];
            var id := Decide(p.local.db, p.own, pending).id;
            ReadWhileReceiving(p, EntityPayload(answer), clock) ==
              (p.(state := ReceivingEntity(pending, id, p.state.next)), [ReqPayload(id)])
  {
    hide CheckPending;
  }

  ghost predicate Conversing(l: Link, e: Entity, next: State, pending: seq<Entity>, needed: ID, resume: State) {
    && l.me.state == SendingEntity(e, next) && l.other.state == ReceivingEntity(pending, needed, resume)
    && l.out == [] && l.inn == [ReqPayload(needed)]
    && Sound(l.me.local.db) && Sound(l.other.local.db) && resume != Failed && resume != Halted
  }

  /** The link after one request has been answered and the answer has been read. */
  function AfterAnswer(l: Link, p: Entity): Link
    requires l.other.state.ReceivingEntity?
  {
    var (o, sent) := ReadWhileReceiving(l.other, EntityPayload(p), Clock(0, 0));
    Link(l.me, o, [], sent)
  }

  lemma RequestIsServed(l: Link, e: Entity, next: State, pending: seq<Entity>, needed: ID, resume: State, p: Entity)
    requires Conversing(l, e, next, pending, needed, resume) && ProcessReq(l.me.local.db, e, needed) == Ok(p)
    ensures StepEnabled(l, MINE) && Apply(l, MINE) == Link(l.me, l.other, [EntityPayload(p)], [])
  {
    hide Sound, ProcessReq;
  }

  lemma AnswerIsRead(l: Link, p: Entity)
    requires l.me.state.SendingEntity? && l.other.state.ReceivingEntity? && Sound(l.other.local.db)
    ensures var l1 := Link(l.me, l.other, [EntityPayload(p)], []); StepEnabled(l1, YOURS) && Apply(l1, YOURS) == AfterAnswer(l, p)
  {
    hide Sound, ReadWhileReceiving;
  }

  lemma OneAnswer(l: Link, e: Entity, next: State, pending: seq<Entity>, needed: ID, resume: State, p: Entity)
    requires Conversing(l, e, next, pending, needed, resume) && ProcessReq(l.me.local.db, e, needed) == Ok(p)
    ensures var l2 := AfterAnswer(l, p);
            Runnable(l, [MINE, YOURS]) && Execute(l, [MINE, YOURS]) == l2
  {
    var l1, l2 := Link(l.me, l.other, [EntityPayload(p)], []), AfterAnswer(l, p);
    RequestIsServed(l, e, next, pending, needed, resume, p);
    AnswerIsRead(l, p);
    hide Sound, Conversing, StepEnabled, Apply, AfterAnswer, ProcessReq, Runnable, Execute;
    RunEnds(l2);
    RunOn(l1, [YOURS], l2, [], l2);
    RunOn(l, [MINE, YOURS], l1, [YOURS], l2);
  }

  lemma Unanswered(l: Link, e: Entity, next: State, pending: seq<Entity>, needed: ID, resume: State)
    requires Conversing(l, e, next, pending, needed, resume) && ProcessReq(l.me.local.db, e, needed).Err?
    ensures Runnable(l, [MINE]) && Execute(l, [MINE]).me.state == Failed
  {
    hide Sound, ProcessReq, Runnable, Execute;
    var l1 := Link(l.me.(state := Failed), l.other, [], []);
    RunEnds(l1);
    RunOn(l, [MINE], l1, [], l1);
  }

  /** The two-peer machine conducts this dialogue: if a request is not answered the sender gives up the
      connection, if the receiver accuses it does or halts, and if it is settled neither gives up. */
  lemma {:induction false} DialogueIsARun(l: Link, e: Entity, next: State, pending: seq<Entity>, needed: ID, resume: State)
    returns (steps: seq<Step>)
    requires |pending| < MAX_PENDING_ENTITIES_NUM && Conversing(l, e, next, pending, needed, resume)
    ensures Runnable(l, steps)
    ensures var t, r := Dialogue(l.me.local.db, l.other.local.db, l.other.own, e, pending, needed), Execute(l, steps);
            && (t.decision == None ==> r.me.state == Failed)
            && (t.Settled() ==> r.me.state != Failed && r.other.state != Failed)
            && (t.decision.Some? && t.decision.value.Accuse? ==> r.other.state == Failed || r.other.state == Halted)
    decreases MAX_PENDING_ENTITIES_NUM - |pending|
  {
    hide Sound, ProcessReq, Decide, Runnable, Execute, ReadWhileReceiving;
    var x, y := l.me.local.db, l.other.local.db;
    match ProcessReq(x, e, needed)
    case Err(_) =>
      Unanswered(l, e, next, pending, needed, resume);
      steps := [MINE];
    case Ok(p) =>
      AnswerHasId(x, e, needed);
      OneAnswer(l, e, next, pending, needed, resume, p);
      var pending' := pending + [p];
      var d := Decide(y, l.other.own, pending');
      steps := [MINE, YOURS];
      if d.Request? {
        RequestLeavesRoom(y, l.other.own, pending');
        ReceiverAsksOn(l.other, p, Clock(0, 0));
        var rest := DialogueIsARun(AfterAnswer(l, p), e, next, pending', d.id, resume);
        RunsJoin(l, steps, rest);
        steps := steps + rest;
      } else {
        LastAnswer(l.other, p, Clock(0, 0));
      }
  }

  // ---------------------------------------------------------------- when nobody refuses

  /** If everything the entity depends on is stored, every request is answered, whatever the receiver has
      stored, and nobody is accused if the entity fits into the buffer. */
  lemma {:induction false} WholeIsAnswered(
    x: Database, y: Database, own: Owner, e: Entity, pending: seq<Entity>, needed: ID)
    requires Sound(x) && Sound(y) && Whole(x, e) && Solicited(own.subs, e) && Delivered(x, e, pending)
    requires needed in Dependencies(e) && !Arrived(pending, needed) && (pending == [] ==> needed == e.Id())
    requires |pending| < MAX_PENDING_ENTITIES_NUM
    ensures var t := Dialogue(x, y, own, e, pending, needed);
            && t.decision.Some? && (Fits(e) ==> t.Settled()) && Delivered(x, e, t.pending)
            && pending <= t.pending && |pending| < |t.pending| <= MAX_PENDING_ENTITIES_NUM
            && t.pending[|pending|].Id() == needed
    decreases MAX_PENDING_ENTITIES_NUM - |pending|
  {
    hide Sound, ProcessReq, Decide, Delivered, Arrived, Dependencies, Solicited, Whole, Fits;
    RequestIsAnswered(x, e, pending, needed);
    var p := ProcessReq(x, e, needed).value;
    var pending' := pending + [p];
    HonestSenderIsNotAccused(x, y, own, e, pending');
    var d := Decide(y, own, pending');
    if d.Request? {
      RequestLeavesRoom(y, own, pending');
      WholeIsAnswered(x, y, own, e, pending', d.id);
    }
  }

  predicate Available(x: Database, e: Entity, id: ID) {
    ProcessReq(x, e, id).Ok?
  }

  /** What is available earlier is the same later: a request that is answered already is answered alike. */
  lemma AvailableIsStable(x: Database, x': Database, e: Entity, id: ID)
    requires Sound(x) && Sound(x') && Extends(x, x') && Whole(x', e) && id in Dependencies(e)
    requires Available(x, e, id)
    ensures ProcessReq(x', e, id) == ProcessReq(x, e, id)
  {
    hide Whole, Dependencies;
    ClosureFacts(x', e, id);
    KindsOfRows(x, id);
    KindsOfRows(x', id);
    hide Authentic;
  }

  /** Before the commit is finished the dialogue is settled exactly if it would be after it, and everything
      that would be requested then is stored already. */
  lemma {:induction false} SettledExactly(
    x: Database, x': Database, y: Database, own: Owner, e: Entity, pending: seq<Entity>, needed: ID)
    requires Sound(x) && Sound(x') && Extends(x, x') && Whole(x', e)
    requires Sound(y) && Solicited(own.subs, e) && Delivered(x', e, pending)
    requires needed in Dependencies(e) && !Arrived(pending, needed) && (pending == [] ==> needed == e.Id())
    requires |pending| < MAX_PENDING_ENTITIES_NUM
    ensures var later := Dialogue(x', y, own, e, pending, needed).pending;
            Dialogue(x, y, own, e, pending, needed).Settled() <==>
              Dialogue(x', y, own, e, pending, needed).Settled() &&
              forall i | |pending| <= i < |later| :: Available(x, e, later[i].Id())
    decreases MAX_PENDING_ENTITIES_NUM - |pending|
  {
    hide Sound, ProcessReq, Decide, Delivered, Arrived, Dependencies, Solicited, Whole, Extends;
    RequestIsAnswered(x', e, pending, needed);
    var p := ProcessReq(x', e, needed).value;
    var pending' := pending + [p];
    HonestSenderIsNotAccused(x', y, own, e, pending');
    WholeIsAnswered(x', y, own, e, pending, needed);
    var later := Dialogue(x', y, own, e, pending, needed).pending;
    assert later[|pending|].Id() == needed;
    if Available(x, e, needed) {
      AvailableIsStable(x, x', e, needed);
      var d := Decide(y, own, pending');
      if d.Request? {
        RequestLeavesRoom(y, own, pending');
        SettledExactly(x, x', y, own, e, pending', d.id);
      }
    }
  }

  ghost predicate KnowsNothingOf(y: Database, e: Entity) {
    forall id | id in Dependencies(e) :: !HasEntity(y, id)
  }

  /** A receiver that knew nothing of the entity and accepts it has fetched all it depends on. */
  lemma AcceptedMeansFetched(x: Database, y: Database, own: Owner, e: Entity, pending: seq<Entity>, id: ID)
    requires Sound(x) && Whole(x, e) && Delivered(x, e, pending) && pending != [] && KnowsNothingOf(y, e)
    requires Decide(y, own, pending) == Commit && id in Dependencies(e)
    ensures Arrived(pending, id)
  {
    hide Whole, Decide, Sound, Delivered;
    CommitDecided(y, own, pending);
    MatchedBatchClosed(y, own, pending);
    FirstIsAnnounced(e, pending, x);
    match e
    case UserEntity(_) => hide *;
    case MessageEntity(m) =>
      KindOfAnnounced(x, e);
      ThreadFetched(x, y, e, pending, m.id, id);
    case OperationEntity(o) =>
      assert EntityClosed(y, pending, e);
      NeedsFetched(x, y, e, pending, o.content.author);
      if o.content.typ == RemoveMessage {
        KindOfAnnounced(x, e);
        NeedsFetched(x, y, e, pending, o.content.target);
        if id in Chain(o.content.target) {
          ThreadFetched(x, y, e, pending, o.content.target, id);
        }
      }
  }

  lemma KindOfAnnounced(x: Database, e: Entity)
    requires Sound(x) && Whole(x, e)
    ensures e.MessageEntity? ==> e.Id().MessageHash? && e.Id() in Dependencies(e)
    ensures e.OperationEntity? ==>
              && e.Id().OperationHash? && e.operation.content.author in Dependencies(e)
              && (e.operation.content.typ == RemoveMessage ==>
                    e.operation.content.target.MessageHash? && e.operation.content.target in Dependencies(e))
  {
    KindsOfRows(x, e.Id());
    if e.OperationEntity? {
      KindsOfRows(x, e.operation.content.target);
    }
    hide Sound, WholeThread;
  }

  /** Whatever of the closure the batch needs, it has. */
  lemma NeedsFetched(x: Database, y: Database, e: Entity, pending: seq<Entity>, id: ID)
    requires KnowsNothingOf(y, e) && id in Dependencies(e)
    requires HasUserIn(y, pending, id) || HasMessageIn(y, pending, id) || HasAnyIn(y, pending, id)
    ensures Arrived(pending, id)
  {
    hide Dependencies;
    var p :| p in pending && p.Id() == id;
    var i :| 0 <= i < |pending| && pending[i] == p;
  }

  lemma {:induction false} ThreadFetched(x: Database, y: Database, e: Entity, pending: seq<Entity>, t: ID, id: ID)
    requires Sound(x) && Whole(x, e) && Delivered(x, e, pending) && pending != [] && KnowsNothingOf(y, e)
    requires BatchClosed(y, pending) && Arrived(pending, t) && t in Dependencies(e) && t.MessageHash? && id in Chain(t)
    ensures Arrived(pending, id)
    decreases t
  {
    hide Whole, Sound, Dependencies, Stored, KnowsNothingOf;
    ArrivedMessage(x, e, pending, t);
    var m := MessageEntity(x.messages[t]);
    assert EntityClosed(y, pending, m);
    KindOfAnnounced(x, e);
    ClosureFacts(x, e, t);
    NeedsFetched(x, y, e, pending, t.message.author);
    if t.message.parent != ZeroID {
      NeedsFetched(x, y, e, pending, t.message.parent);
      if id in Chain(t.message.parent) {
        ThreadFetched(x, y, e, pending, t.message.parent, id);
      }
    }
  }

  lemma ArrivedMessage(x: Database, e: Entity, pending: seq<Entity>, t: ID)
    requires Sound(x) && Delivered(x, e, pending) && Arrived(pending, t) && t.MessageHash?
    ensures t in x.messages && MessageEntity(x.messages[t]) in pending && t.message == x.messages[t].content
  {
    hide Dependencies;
    var i :| 0 <= i < |pending| && pending[i].Id() == t;
    assert Stored(x, pending[i]);
    KindsOfRows(x, t);
    hide Authentic;
  }

  /** A receiver that knew nothing of a whole entity and does not drop it accuses its honest sender exactly
      if the entity does not fit into the buffer. */
  lemma NewReceiverAccusesExactly(x: Database, y: Database, own: Owner, e: Entity)
    requires Sound(x) && Whole(x, e) && Sound(y) && Solicited(own.subs, e) && KnowsNothingOf(y, e)
    requires var d := Dialogue(x, y, own, e, [], e.Id()).decision; d.Some? && !d.value.Drop?
    ensures var t := Dialogue(x, y, own, e, [], e.Id());
            && (t.decision.value.Accuse? <==> !Fits(e))
            && (t.decision.value == Commit ==> forall id | id in Dependencies(e) :: Arrived(t.pending, id))
  {
    hide Whole, Dependencies, Sound, Solicited, KnowsNothingOf, Decide, Delivered, Arrived;
    DeliveredEmpty(x, e);
    WholeIsAnswered(x, y, own, e, [], e.Id());
    DialogueDecides(x, y, own, e, [], e.Id());
    var t := Dialogue(x, y, own, e, [], e.Id());
    if t.decision.value == Commit {
      forall id | id in Dependencies(e)
        ensures Arrived(t.pending, id)
      {
        AcceptedMeansFetched(x, y, own, e, t.pending, id);
      }
      ArrivedFit(t.pending, Dependencies(e));
    }
  }

  /** A buffer with all members of a set is not shorter than the set. */
  lemma {:induction false} ArrivedFit(pending: seq<Entity>, ids: set<ID>)
    requires forall id | id in ids :: Arrived(pending, id)
    ensures |ids| <= |pending|
    decreases pending
  {
    if pending == [] {
      assert ids == {};
    } else {
      var last := |pending| - 1;
      var rest := ids - {pending[last].Id()};
      forall id | id in rest
        ensures Arrived(pending[..last], id)
      {
        var i :| 0 <= i < |pending| && pending[i].Id() == id;
        assert pending[..last][i].Id() == id;
      }
      ArrivedFit(pending[..last], rest);
    }
  }

  /** With a receiver that knows nothing of an entity and would not drop it once its commit is finished,
      the exchange before that is settled exactly if everything the entity depends on is stored and fits. */
  lemma NewReceiverIsServedExactly(x: Database, x': Database, y: Database, own: Owner, e: Entity)
    requires Sound(x) && Sound(x') && Extends(x, x') && Whole(x', e) && Announceable(x, e)
    requires Sound(y) && Solicited(own.subs, e) && KnowsNothingOf(y, e)
    requires var d := Dialogue(x', y, own, e, [], e.Id()).decision; d.Some? && !d.value.Drop?
    ensures Dialogue(x, y, own, e, [], e.Id()).Settled() <==> Whole(x, e) && Fits(e)
  {
    hide Whole, Dependencies, Extends, Sound, Solicited, Available, KnowsNothingOf, Announceable, Delivered, Fits;
    DeliveredEmpty(x', e);
    SettledExactly(x, x', y, own, e, [], e.Id());
    WholeIsAnswered(x', y, own, e, [], e.Id());
    NewReceiverAccusesExactly(x', y, own, e);
    DialogueDecides(x', y, own, e, [], e.Id());
    var t := Dialogue(x', y, own, e, [], e.Id());
    FirstIsAnnounced(e, t.pending, x');
    forall i | 0 <= i < |t.pending|
      ensures t.pending[i].Id() in Dependencies(e)
    {
      assert t.pending[i] in t.pending;
    }
    AvailableMeansWhole(x, x', e);
  }

  lemma {:induction false} DialogueDecides(x: Database, y: Database, own: Owner, e: Entity, pending: seq<Entity>, needed: ID)
    requires |pending| < MAX_PENDING_ENTITIES_NUM
    ensures var t := Dialogue(x, y, own, e, pending, needed);
            t.decision.Some? ==> !t.decision.value.Request? && t.pending != [] && Decide(y, own, t.pending) == t.decision.value
    decreases MAX_PENDING_ENTITIES_NUM - |pending|
  {
    hide Decide, ProcessReq;
    match ProcessReq(x, e, needed)
    case Err(_) =>
    case Ok(p) =>
      if Decide(y, own, pending + [p]).Request? {
        RequestLeavesRoom(y, own, pending + [p]);
        DialogueDecides(x, y, own, e, pending + [p], Decide(y, own, pending + [p]).id);
      }
  }

  /** An entity is whole exactly if everything it depends on can be served. */
  lemma AvailableMeansWhole(x: Database, x': Database, e: Entity)
    requires Sound(x) && Sound(x') && Extends(x, x') && Whole(x', e) && Announceable(x, e)
    ensures (forall id | id in Dependencies(e) :: Available(x, e, id)) <==> Whole(x, e)
  {
    if Whole(x, e) {
      forall id | id in Dependencies(e)
        ensures Available(x, e, id)
      {
        WholeIsAvailable(x, e, id);
      }
    }
    if forall id | id in Dependencies(e) :: Available(x, e, id) {
      hide Whole, Available, Extends, Sound, Announceable;
      forall id | id in Dependencies(e)
        ensures StoredLike(x, e, id)
      {
        AvailableIsStored(x, x', e, id);
      }
      StoredMeansWhole(x, x', e);
    }
  }

  lemma WholeIsAvailable(x: Database, e: Entity, id: ID)
    requires Sound(x) && Whole(x, e) && id in Dependencies(e)
    ensures Available(x, e, id)
  {
    hide Whole, Dependencies;
    ClosureFacts(x, e, id);
    if id != e.Id() && (id in x.users || GetMessage(x, id).Ok?) {
      StoredIsServed(x, id);
    }
  }

  /** The announced entity itself, or a stored user or readable message. */
  predicate StoredLike(x: Database, e: Entity, id: ID) {
    (e.OperationEntity? && id == e.Id()) || (id.UserHash? && id in x.users) || (id.MessageHash? && GetMessage(x, id).Ok?)
  }

  lemma AvailableIsStored(x: Database, x': Database, e: Entity, id: ID)
    requires Sound(x) && Sound(x') && Extends(x, x') && Whole(x', e) && Announceable(x, e)
    requires id in Dependencies(e) && Available(x, e, id)
    ensures StoredLike(x, e, id)
  {
    hide Whole, Dependencies;
    ClosureFacts(x', e, id);
    KindsOfRows(x, id);
    hide Authentic, Sound;
  }

  lemma StoredMeansWhole(x: Database, x': Database, e: Entity)
    requires Sound(x') && Extends(x, x') && Whole(x', e) && Announceable(x, e)
    requires forall id | id in Dependencies(e) :: StoredLike(x, e, id)
    ensures Whole(x, e)
  {
    hide WholeThread, Sound;
    KindOfAnnounced(x', e);
    match e
    case UserEntity(_) => hide *;
    case MessageEntity(m) => ThreadStored(x, x', e, m.id);
    case OperationEntity(o) =>
      KindsOfRows(x', o.content.author);
      assert StoredLike(x, e, o.content.author);
      if o.content.typ == RemoveMessage {
        ThreadStored(x, x', e, o.content.target);
      }
  }

  lemma ThreadStored(x: Database, x': Database, e: Entity, t: ID)
    requires Sound(x') && Extends(x, x') && Whole(x', e) && WholeThread(x', t)
    requires Chain(t) <= Dependencies(e) && forall id | id in Chain(t) :: StoredLike(x, e, id)
    requires e.OperationEntity? ==> e.Id().OperationHash?
    ensures WholeThread(x, t)
  {
    hide Whole, Dependencies, Authentic, Sound, Chain;
    forall a | a in Ancestors(t)
      ensures GetMessage(x, a).Ok? && x.messages[a].content.author in x.users
    {
      ThreadMember(x', t, a);
      ChainMembers(t, a);
      ChainMembers(t, a.message.author);
      assert StoredLike(x, e, a) && StoredLike(x, e, a.message.author);
    }
  }

  /** An entity that some new receiver would not drop is never refused, by no receiver that subscribed to
      its thread, exactly if everything it depends on is stored when it is announced, and fits. */
  lemma NeverRefusedExactly(x: Database, x': Database, e: Entity, y0: Database, own0: Owner)
    requires Sound(x) && Sound(x') && Extends(x, x') && Whole(x', e) && Announceable(x, e)
    requires Sound(y0) && Solicited(own0.subs, e) && KnowsNothingOf(y0, e)
    requires var d := Dialogue(x', y0, own0, e, [], e.Id()).decision; d.Some? && !d.value.Drop?
    ensures (forall y: Database, own: Owner | Sound(y) && Solicited(own.subs, e) :: Dialogue(x, y, own, e, [], e.Id()).Settled()) <==>
            Whole(x, e) && Fits(e)
  {
    hide Whole, Dependencies, Extends, Sound, Solicited, KnowsNothingOf, Announceable, Dialogue, Fits;
    NewReceiverIsServedExactly(x, x', y0, own0, e);
    if Whole(x, e) && Fits(e) {
      DeliveredEmpty(x, e);
      forall y: Database, own: Owner | Sound(y) && Solicited(own.subs, e)
        ensures Dialogue(x, y, own, e, [], e.Id()).Settled()
      {
        WholeIsAnswered(x, y, own, e, [], e.Id());
      }
    }
  }

  // ---------------------------------------------------------------- a refused announcement

  /** A message whose author is not stored yet is announced to a peer that does not know the author: the
      peer asks for the author, the request is not answered, and the connection is given up. */
  lemma MissingAuthorIsRefused(l: Link, m: Message, stored: Time)
    requires Inv(l) && l.me.state == Idle && l.other.state == Idle && l.out == [] && l.inn == [] && Acquainted(l)
    requires Stored(l.me.local.db, MessageEntity(m)) && m.content.author !in l.me.local.db.users
    requires InterestedInEntity(l.me.local.db, l.me.peerSubs, l.me.hist, MessageEntity(m), stored) == Some(true)
    requires !HasEntity(l.other.local.db, m.id) && m.content.author !in l.other.local.db.users
    requires !IsUserBanned(l.other.local.db, l.other.own.moderators, m.content.author)
    ensures var steps := [Step(true, Announce(MessageEntity(m), stored)), YOURS] + ([MINE, YOURS] + [MINE]);
            Runnable(l, steps) && Execute(l, steps).me.state == Failed
  {
    hide Sound, Runnable, Execute, InterestedInEntity, HasEntity, IsUserBanned, Honest, ReadWhileReceiving, ProcessReq;
    var e := MessageEntity(m);
    IdleIsSound(l);
    AuthorIsMissing(l.me.local.db, m);
    var l2 := AfterAnnouncement(l, e);
    AnnouncementIsAnswered(l, e, stored);
    AuthorIsAskedFor(l.other.local.db, l.other.own, m);
    OwnEntityIsServed(l.me.local.db, e);
    OneAnswer(l2, e, Idle, [], m.id, Idle, e);
    assert [] + [e] == [e];
    ReceiverAsksOn(l2.other, e, Clock(0, 0));
    var l3 := AfterAnswer(l2, e);
    Unanswered(l3, e, Idle, [e], m.content.author, Idle);
    RunsJoin(l2, [MINE, YOURS], [MINE]);
    RunsJoin(l, [Step(true, Announce(e, stored)), YOURS], [MINE, YOURS] + [MINE]);
  }

  function AfterAnnouncement(l: Link, e: Entity): Link {
    Link(l.me.(state := SendingEntity(e, Idle)), l.other.(state := ReceivingEntity([], e.Id(), Idle)), [], [ReqPayload(e.Id())])
  }

  lemma AnnouncementIsAnswered(l: Link, e: Entity, stored: Time)
    requires l.me.state == Idle && l.other.state == Idle && l.out == [] && l.inn == []
    requires Sound(l.me.local.db) && Sound(l.other.local.db) && Announceable(l.me.local.db, e)
    requires InterestedInEntity(l.me.local.db, l.me.peerSubs, l.me.hist, e, stored) == Some(true)
    requires !HasEntity(l.other.local.db, e.Id())
    ensures var steps := [Step(true, Announce(e, stored)), YOURS];
            Runnable(l, steps) && Execute(l, steps) == AfterAnnouncement(l, e)
  {
    hide Sound, Runnable, Execute, InterestedInEntity, HasEntity, Announceable;
    var l1, l2 := Link(l.me.(state := SendingEntity(e, Idle)), l.other, [AnnouncePayload(e.Id())], []), AfterAnnouncement(l, e);
    assert Apply(l, Step(true, Announce(e, stored))) == l1 by { assert [] + [AnnouncePayload(e.Id())] == [AnnouncePayload(e.Id())]; }
    assert Apply(l1, YOURS) == l2;
    RunEnds(l2);
    RunOn(l1, [YOURS], l2, [], l2);
    RunOn(l, [Step(true, Announce(e, stored)), YOURS], l1, [YOURS], l2);
  }

  lemma IdleIsSound(l: Link)
    requires Inv(l) && l.me.state == Idle && l.other.state == Idle
    ensures Sound(l.me.local.db) && Sound(l.other.local.db)
  {
    hide Shape, Sound;
  }

  lemma OwnEntityIsServed(x: Database, e: Entity)
    ensures ProcessReq(x, e, e.Id()) == Ok(e)
  {
  }

  lemma AuthorIsAskedFor(y: Database, own: Owner, m: Message)
    requires Authentic(MessageEntity(m)) && m.content.author !in y.users && !IsUserBanned(y, own.moderators, m.content.author)
    ensures Decide(y, own, [MessageEntity(m)]) == Request(m.content.author)
  {
    hide IsUserBanned, NearStored, Covers;
    var e := MessageEntity(m);
    assert [e][1..] == [];
    assert FindPending([e], m.content.author) == None;
    assert CheckMessage(y, own, [e], m) == NeedID(m.content.author);
    assert CheckFrom(y, own, [e], 0) == NeedID(m.content.author);
  }

  lemma AuthorIsMissing(x: Database, m: Message)
    requires Sound(x) && Stored(x, MessageEntity(m)) && m.content.author !in x.users
    ensures Authentic(MessageEntity(m)) && ProcessReq(x, MessageEntity(m), m.content.author).Err?
  {
    KindsOfRows(x, m.content.author);
    hide UserValid, OperationValid;
  }

  /** And such a database is what a commit leaves behind on its way: after the check of a buffer with a
      thread root and its author, and the first insertion. */
  lemma AnnouncingDuringCommitIsRefused(own: Owner, n: Commits.Node, peer: nat, m: Message, u: User, l: Link, stored: Time)
    requires Commits.Inv(own, n) && Commits.Enabled(own, n, Commits.Check(peer, [MessageEntity(m), UserEntity(u)]))
    requires !IsReply(m) && m.id !in n.db.messages && m.content.author !in n.db.users
    requires var steps := [Commits.Check(peer, [MessageEntity(m), UserEntity(u)]), Commits.InsertNext(peer)];
             l.me.local.db == Commits.Execute(own, n, steps).db
    requires Inv(l) && l.me.state == Idle && l.other.state == Idle && l.out == [] && l.inn == [] && Acquainted(l)
    requires Covers(RelevantSubs(l.me.peerSubs, l.me.hist, stored), m.content.topic)
    requires !HasEntity(l.other.local.db, m.id) && m.content.author !in l.other.local.db.users
    requires !IsUserBanned(l.other.local.db, l.other.own.moderators, m.content.author)
    ensures Announceable(l.me.local.db, MessageEntity(m)) && !Whole(l.me.local.db, MessageEntity(m))
    ensures exists steps: seq<Step> :: Runnable(l, steps) && Execute(l, steps).me.state == Failed
  {
    hide Inv, Commits.Inv, Runnable, Execute, CheckPending, HasEntity, IsUserBanned;
    var batch := [MessageEntity(m), UserEntity(u)];
    IdleIsSound(l);
    AfterFirstInsertion(own, n, peer, batch);
    PutTables(n.db, MessageEntity(m));
    hide Commits.Execute, PutEntity;
    assert m.id in Ancestors(m.id);
    assert InterestedInEntity(l.me.local.db, l.me.peerSubs, l.me.hist, MessageEntity(m), stored) == Some(true) by { hide Covers, DiffOf; }
    MissingAuthorIsRefused(l, m, stored);
  }

  lemma AfterFirstInsertion(own: Owner, n: Commits.Node, peer: nat, batch: seq<Entity>)
    requires Commits.Enabled(own, n, Commits.Check(peer, batch))
    ensures Commits.Execute(own, n, [Commits.Check(peer, batch), Commits.InsertNext(peer)]).db == PutEntity(n.db, batch[0]).db
  {
    hide PutEntity, CheckPending;
    Commits.TwoSteps(own, n, Commits.Check(peer, batch), Commits.InsertNext(peer));
  }
}
