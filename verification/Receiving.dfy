/** The receiving side of an exchange. One entity is announced; the receiver requests it and, one by
    one, everything it turns out to depend on, re-checking the whole buffer after each arrival. The
    run ends in storing the buffer, in dropping it, or in an accusation of the sender. */
module Receiving {
  import opened Topics
  import opened Subscriptions
  import opened Entities
  import opened Databases
  import opened Views

  const MAX_PENDING_ENTITIES_NUM: nat := (MAX_MESSAGE_DEPTH + 2) * 2

  // ---------------------------------------------------------------- packets and parties

  datatype Payload =
    | EntityPayload(entity: Entity)
    | HelloPayload(proto: int, subs: Subs)
    | AnnouncePayload(id: ID)
    | ReqPayload(id: ID)
    | AckPayload
    | DonePayload

  /** `authentic` stands for a payload that decodes and a header that verifies: the signature, the
      receiver and the date. */
  datatype Packet = Packet(payload: Payload, authentic: bool)

  /** The local user. The moderators include the user itself. */
  datatype Owner = Owner(key: Key, subs: Subs, moderators: set<ID>) {
    function Self(): ID {
      UserHash(key)
    }
  }

  /** What a run reads and writes: the database and the date of the last operation made here. */
  datatype Local = Local(db: Database, lastOper: Time)

  /** The readings of the clock for the first and the second ban of a run. */
  datatype Clock = Clock(first: Time, second: Time)

  // ---------------------------------------------------------------- checks of the buffer

  datatype Verdict = Matched | NeedID(id: ID) | BanSender | BanID(id: ID) | Banned | Skip

  /** The first pending entity with this identifier. */
  function FindPending(pending: seq<Entity>, id: ID): Option<Entity> {
    if pending == [] then None
    else if pending[0].Id() == id then Some(pending[0])
    else FindPending(pending[1..], id)
  }

  function PendingUser(pending: seq<Entity>, id: ID): Option<User> {
    match FindPending(pending, id)
    case Some(UserEntity(u)) => Some(u)
    case _ => None
  }

  function PendingMessage(pending: seq<Entity>, id: ID): Option<Message> {
    match FindPending(pending, id)
    case Some(MessageEntity(m)) => Some(m)
    case _ => None
  }

  /** The author is looked up among the pending entities first. */
  function FindUser(db: Database, pending: seq<Entity>, id: ID): Option<User> {
    match PendingUser(pending, id)
    case Some(u) => Some(u)
    case None => if id in db.users then Some(db.users[id]) else None
  }

  function Abs(x: int): nat {
    if x < 0 then -x else x
  }

  function WholeSeconds(t: Time): int {
    t / SECOND
  }

  predicate SameAuthor(a: Message, b: Message) {
    a.id != b.id && a.content.author == b.content.author
  }

  /** The database compares dates in whole seconds. */
  predicate NearStored(db: Database, m: Message) {
    exists id | id in db.messages ::
      SameAuthor(db.messages[id], m) &&
      Abs(WholeSeconds(db.messages[id].content.dateWritten) - WholeSeconds(m.content.dateWritten))
        < MIN_MESSAGE_POST_DELAY / SECOND
  }

  predicate NearMessage(e: Entity, m: Message) {
    e.MessageEntity? && SameAuthor(e.message, m) &&
    Abs(e.message.content.dateWritten - m.content.dateWritten) < MIN_MESSAGE_POST_DELAY
  }

  /** The buffer is compared in exact durations. */
  predicate NearPending(pending: seq<Entity>, m: Message) {
    exists i | 0 <= i < |pending| :: NearMessage(pending[i], m)
  }

  function CheckUser(db: Database, own: Owner, u: User): Verdict {
    if !UserValid(u) then BanSender
    else if IsUserBanned(db, own.moderators, u.id) then Banned
    else Matched
  }

  function CheckMessage(db: Database, own: Owner, pending: seq<Entity>, m: Message): Verdict {
    if !MessageValid(m) then BanSender
    else if IsUserBanned(db, own.moderators, m.content.author) then Banned
    else
      match FindUser(db, pending, m.content.author)
      case None => NeedID(m.content.author)
      case Some(u) =>
        if m.signedBy != u.content.key then BanSender
        else if u.content.regDate > m.content.dateWritten then BanID(u.id)
        else if NearStored(db, m) || NearPending(pending, m) then BanID(m.content.author)
        else if !IsReply(m) then
          if Covers(own.subs, m.content.topic) then Matched else BanSender
        else if m.content.parent !in db.messages && PendingMessage(pending, m.content.parent).None? then
          NeedID(m.content.parent)
        else Matched
  }

  function CheckOperation(db: Database, own: Owner, pending: seq<Entity>, o: Operation): Verdict {
    if !OperationValid(o) then BanSender
    else if IsUserBanned(db, own.moderators, o.content.author) then Banned
    else
      match FindUser(db, pending, o.content.author)
      case None => NeedID(o.content.author)
      case Some(u) =>
        if o.signedBy != u.content.key then BanSender
        else if FindPending(pending, o.content.target).None? && !HasEntity(db, o.content.target) then
          if o.content.typ == BanUser then Skip else NeedID(o.content.target)
        else Matched
  }

  function CheckEntity(db: Database, own: Owner, pending: seq<Entity>, e: Entity): Verdict {
    match e
    case UserEntity(u) => CheckUser(db, own, u)
    case MessageEntity(m) => CheckMessage(db, own, pending, m)
    case OperationEntity(o) => CheckOperation(db, own, pending, o)
  }

  /** The first verdict other than Matched from place `k` on. */
  function CheckFrom(db: Database, own: Owner, pending: seq<Entity>, k: nat): Verdict
    requires k <= |pending|
    decreases |pending| - k
  {
    if k == |pending| then Matched
    else
      var v := CheckEntity(db, own, pending, pending[k]);
      if v != Matched then v else CheckFrom(db, own, pending, k + 1)
  }

  /** Users may be requested but not advertised. */
  function CheckPending(db: Database, own: Owner, pending: seq<Entity>): Verdict
    requires pending != []
  {
    if pending[0].UserEntity? then BanSender else CheckFrom(db, own, pending, 0)
  }

  // ---------------------------------------------------------------- one run

  /** What the receiver does after an arrival. `Accuse` carries the author who is banned first when
      the buffer is full. */
  datatype Decision = Commit | Request(id: ID) | Drop(ban: Option<ID>) | Accuse(author: Option<ID>)

  function Author(e: Entity): Option<ID> {
    match e
    case MessageEntity(m) => Some(m.content.author)
    case OperationEntity(o) => Some(o.content.author)
    case UserEntity(_) => None
  }

  function Decide(db: Database, own: Owner, pending: seq<Entity>): Decision
    requires pending != []
  {
    match CheckPending(db, own, pending)
    case Matched => Commit
    case NeedID(id) =>
      if |pending| < MAX_PENDING_ENTITIES_NUM then Request(id) else Accuse(Author(pending[0]))
    case BanSender => Accuse(None)
    case BanID(id) => Drop(Some(id))
    case Banned => Drop(None)
    case Skip => Drop(None)
  }

  /** A ban made here. `fatal` is the halt on an operation that is not valid. */
  datatype BanResult = BanResult(local: Local, fatal: bool)

  function BanOperation(own: Owner, now: Time, target: ID): Operation {
    var c := OperationContent(BanUser, PROTOCOL_VIOLATION, "", own.Self(), target, now);
    Operation(OperationHash(c), c, own.key)
  }

  /** At most one operation a minute is made; a ban in between is skipped. A ban of a user who is not
      stored is reported in the log only. */
  function Ban(own: Owner, now: Time, local: Local, target: ID): BanResult {
    if now - local.lastOper < MIN_OPERATION_POST_DELAY then BanResult(local, false)
    else if !OperationValid(BanOperation(own, now, target)) then BanResult(Local(local.db, now), true)
    else BanResult(Local(PutOperation(local.db, BanOperation(own, now, target)).db, now), false)
  }

  datatype Outcome = InProgress | Acked | Violation | ConnectionLost | Accused | Fatal

  /** The end of a run: the local state, what was sent, what was left unread, and the buffer. */
  datatype Run = Run(local: Local, sent: seq<Payload>, rest: seq<Packet>, pending: seq<Entity>, outcome: Outcome)

  /** An authentic packet carrying the requested entity. */
  function ReadEntity(p: Packet, requested: ID): Option<Entity> {
    if p.authentic && p.payload.EntityPayload? && p.payload.entity.Id() == requested then
      Some(p.payload.entity)
    else None
  }

  /** How a run ends that makes no further request. */
  function Finish(own: Owner, sender: ID, clock: Clock, local: Local, pending: seq<Entity>, d: Decision)
    : (end: (Local, Outcome))
    requires !d.Request?
    ensures end.1 == Acked || end.1 == Accused || end.1 == Fatal
  {
    match d
    case Commit =>
      var put := PutAll(local.db, pending);
      (local.(db := put.db), if put.ok then Acked else Fatal)
    case Drop(None) => (local, Acked)
    case Drop(Some(id)) =>
      var ban := Ban(own, clock.first, local, id);
      (ban.local, if ban.fatal then Fatal else Acked)
    case Accuse(None) =>
      var ban := Ban(own, clock.first, local, sender);
      (ban.local, if ban.fatal then Fatal else Accused)
    case Accuse(Some(author)) =>
      var ban := Ban(own, clock.first, local, author);
      if ban.fatal then (ban.local, Fatal)
      else
        var second := Ban(own, clock.second, ban.local, sender);
        (second.local, if second.fatal then Fatal else Accused)
  }

  /** One round: request, read, re-check. The second component is the entity to request next; without
      it the run is over. */
  function Round(own: Owner, sender: ID, clock: Clock, local: Local, pending: seq<Entity>, needed: ID,
                 inbox: seq<Packet>): (Run, Option<ID>)
  {
    var req := [ReqPayload(needed)];
    if inbox == [] then (Run(local, req, [], pending, ConnectionLost), None)
    else
      match ReadEntity(inbox[0], needed)
      case None => (Run(local, req, inbox[1..], pending, Violation), None)
      case Some(e) =>
        var pending' := pending + [e];
        var d := Decide(local.db, own, pending');
        if d.Request? then (Run(local, req, inbox[1..], pending', InProgress), Some(d.id))
        else
          var (local', outcome) := Finish(own, sender, clock, local, pending', d);
          (Run(local', req + if outcome == Acked then [AckPayload] else [], inbox[1..], pending', outcome), None)
  }

  function Fetch(own: Owner, sender: ID, clock: Clock, local: Local, pending: seq<Entity>, needed: ID,
                 inbox: seq<Packet>): Run
    requires |pending| < MAX_PENDING_ENTITIES_NUM
    decreases MAX_PENDING_ENTITIES_NUM - |pending|
  {
    var (r, next) := Round(own, sender, clock, local, pending, needed, inbox);
    if next.Some? then
      var later := Fetch(own, sender, clock, local, r.pending, next.value, r.rest);
      later.(sent := r.sent + later.sent)
    else r
  }

  /** A whole run, started by the packet that took the peer out of its previous state. */
  function Receive(own: Owner, sender: ID, clock: Clock, local: Local, initial: Packet, inbox: seq<Packet>): Run {
    if !initial.authentic || !initial.payload.AnnouncePayload? then Run(local, [], inbox, [], Violation)
    else if HasEntity(local.db, initial.payload.id) then Run(local, [AckPayload], inbox, [], Acked)
    else Fetch(own, sender, clock, local, [], initial.payload.id, inbox)
  }

  // ---------------------------------------------------------------- the state object

  class Connection {
    var inbox: seq<Packet>
    var outbox: seq<Payload>

    /** `None` is a closed or silent connection. */
    method Read() returns (p: Option<Packet>)
      modifies this
      ensures outbox == old(outbox)
      ensures old(inbox) == [] ==> p == None && inbox == []
      ensures old(inbox) != [] ==> p == Some(old(inbox)[0]) && inbox == old(inbox)[1..]
    {
      if inbox == [] {
        return None;
      }
      p := Some(inbox[0]);
      inbox := inbox[1..];
    }

    method Write(p: Payload)
      modifies this
      ensures inbox == old(inbox) && outbox == old(outbox) + [p]
    {
      outbox := outbox + [p];
    }
  }

  class StateReceiving {
    const owner: Owner
    const sender: ID
    const conn: Connection
    const storage: Storage
    const initialPacket: Packet
    var pendingEntities: seq<Entity>
    var requestedEntity: ID
    var lastOper: Time

    constructor (owner: Owner, sender: ID, conn: Connection, storage: Storage, initialPacket: Packet, lastOper: Time)
      ensures this.owner == owner && this.sender == sender && this.conn == conn && this.storage == storage
      ensures this.initialPacket == initialPacket && this.lastOper == lastOper && pendingEntities == []
    {
      this.owner, this.sender, this.conn, this.storage := owner, sender, conn, storage;
      this.initialPacket, this.lastOper := initialPacket, lastOper;
      pendingEntities, requestedEntity := [], ZeroID;
    }

    ghost function LocalState(): Local
      reads this, storage
    {
      Local(storage.db, lastOper)
    }

    method GetPendingEntity(id: ID) returns (res: Option<Entity>)
      ensures res == FindPending(pendingEntities, id)
    {
      for i := 0 to |pendingEntities|
        invariant FindPending(pendingEntities, id) == FindPending(pendingEntities[i..], id)
      {
        if pendingEntities[i].Id() == id {
          return Some(pendingEntities[i]);
        }
        assert pendingEntities[i..][1..] == pendingEntities[i + 1..];
      }
      return None;
    }

    method GetNearPendingMessageID(m: Message) returns (res: Option<ID>)
      ensures res.Some? <==> NearPending(pendingEntities, m)
      ensures res.Some? ==> exists e | e in pendingEntities :: NearMessage(e, m) && e.Id() == res.value
    {
      for i := 0 to |pendingEntities|
        invariant forall j | 0 <= j < i :: !NearMessage(pendingEntities[j], m)
      {
        if pendingEntities[i].MessageEntity? {
          var e := pendingEntities[i].message;
          if e.id == m.id || e.content.author != m.content.author {
            continue;
          }
          if e.content.dateWritten > m.content.dateWritten {
            if e.content.dateWritten - m.content.dateWritten < MIN_MESSAGE_POST_DELAY {
              assert NearMessage(pendingEntities[i], m);
              return Some(e.id);
            }
          } else if m.content.dateWritten - e.content.dateWritten < MIN_MESSAGE_POST_DELAY {
            assert NearMessage(pendingEntities[i], m);
            return Some(e.id);
          }
        }
      }
      return None;
    }

    method GetPendingUser(id: ID) returns (res: Option<User>)
      ensures res == PendingUser(pendingEntities, id)
    {
      var e := GetPendingEntity(id);
      return if e.Some? && e.value.UserEntity? then Some(e.value.user) else None;
    }

    method GetPendingMessage(id: ID) returns (res: Option<Message>)
      ensures res == PendingMessage(pendingEntities, id)
    {
      var e := GetPendingEntity(id);
      return if e.Some? && e.value.MessageEntity? then Some(e.value.message) else None;
    }

    /** The author, from the buffer or else from the storage. */
    method GetAuthor(id: ID) returns (res: Option<User>)
      ensures res == FindUser(storage.db, pendingEntities, id)
    {
      res := GetPendingUser(id);
      if res.None? && id in storage.db.users {
        res := Some(storage.db.users[id]);
      }
    }

    method CheckPendingMessage(m: Message) returns (v: Verdict)
      ensures v == CheckMessage(storage.db, owner, pendingEntities, m)
    {
      if !MessageValid(m) {
        return BanSender;
      }
      if IsUserBanned(storage.db, owner.moderators, m.content.author) {
        return Banned;
      }
      var u := GetAuthor(m.content.author);
      if u.None? {
        return NeedID(m.content.author);
      }
      if m.signedBy != u.value.content.key {
        return BanSender;
      }
      if u.value.content.regDate > m.content.dateWritten {
        return BanID(u.value.id);
      }
      var near := NearStored(storage.db, m);
      if !near {
        var nearID := GetNearPendingMessageID(m);
        near := nearID.Some?;
      }
      if near {
        return BanID(m.content.author);
      }
      if !IsReply(m) {
        return if Covers(owner.subs, m.content.topic) then Matched else BanSender;
      }
      var parent := GetPendingMessage(m.content.parent);
      return if m.content.parent !in storage.db.messages && parent.None? then NeedID(m.content.parent) else Matched;
    }

    method CheckPendingOperation(o: Operation) returns (v: Verdict)
      ensures v == CheckOperation(storage.db, owner, pendingEntities, o)
    {
      if !OperationValid(o) {
        return BanSender;
      }
      if IsUserBanned(storage.db, owner.moderators, o.content.author) {
        return Banned;
      }
      var u := GetAuthor(o.content.author);
      if u.None? {
        return NeedID(o.content.author);
      }
      if o.signedBy != u.value.content.key {
        return BanSender;
      }
      var target := GetPendingEntity(o.content.target);
      if target.None? && !HasEntity(storage.db, o.content.target) {
        return if o.content.typ == OperationType.BanUser then Skip else NeedID(o.content.target);
      }
      return Matched;
    }

    method CheckPendingEntities() returns (v: Verdict)
      requires pendingEntities != []
      ensures v == CheckPending(storage.db, owner, pendingEntities)
    {
      if pendingEntities[0].UserEntity? {
        return BanSender;
      }
      for i := 0 to |pendingEntities|
        invariant CheckPending(storage.db, owner, pendingEntities) == CheckFrom(storage.db, owner, pendingEntities, i)
      {
        match pendingEntities[i] {
          case UserEntity(u) => v := CheckUser(storage.db, owner, u);
          case MessageEntity(m) => v := CheckPendingMessage(m);
          case OperationEntity(o) => v := CheckPendingOperation(o);
        }
        if v != Matched {
          return v;
        }
      }
      return Matched;
    }

    method BanUser(target: ID, now: Time) returns (fatal: bool)
      modifies this`lastOper, storage
      ensures BanResult(LocalState(), fatal) == Ban(owner, now, old(LocalState()), target)
    {
      if now - lastOper < MIN_OPERATION_POST_DELAY {
        return false;
      }
      lastOper := now;
      var o := BanOperation(owner, now, target);
      if !OperationValid(o) {
        return true;
      }
      var ok := storage.Store(OperationEntity(o));
      return false;
    }

    /** Stores the buffer in the order of arrival. */
    method Store() returns (ok: bool)
      modifies storage
      ensures PutResult(storage.db, ok) == PutAll(old(storage.db), pendingEntities)
    {
      for i := 0 to |pendingEntities|
        invariant PutAll(old(storage.db), pendingEntities) == PutAll(storage.db, pendingEntities[i..])
      {
        assert pendingEntities[i..][1..] == pendingEntities[i + 1..];
        ok := storage.Store(pendingEntities[i]);
        if !ok {
          return false;
        }
      }
      return true;
    }

    /** Acts on the verdict about the buffer: either names the entity to request next, or ends the run. */
    method HandleVerdict(v: Verdict, clock: Clock) returns (next: Option<ID>, outcome: Outcome)
      requires pendingEntities != [] && v == CheckPending(storage.db, owner, pendingEntities)
      modifies this`lastOper, storage
      ensures var d := Decide(old(storage.db), owner, pendingEntities);
              if d.Request? then next == Some(d.id) && outcome == InProgress && LocalState() == old(LocalState())
              else next == None && (LocalState(), outcome) == Finish(owner, sender, clock, old(LocalState()), pendingEntities, d)
    {
      hide CheckPending, PutAll, Ban;
      outcome := InProgress;
      next := None;
      match v
      case Matched =>
        var ok := Store();
        outcome := if ok then Acked else Fatal;
      case NeedID(id) =>
        if |pendingEntities| < MAX_PENDING_ENTITIES_NUM {
          next := Some(id);
        } else {
          var author := Author(pendingEntities[0]);
          NeedIsNotForUser();
          var fatal := BanUser(author.value, clock.first);
          if !fatal {
            fatal := BanUser(sender, clock.second);
          }
          outcome := if fatal then Fatal else Accused;
        }
      case BanSender =>
        var fatal := BanUser(sender, clock.first);
        outcome := if fatal then Fatal else Accused;
      case BanID(id) =>
        var fatal := BanUser(id, clock.first);
        outcome := if fatal then Fatal else Acked;
      case Banned =>
        outcome := Acked;
      case Skip =>
        outcome := Acked;
    }

    lemma NeedIsNotForUser()
      requires pendingEntities != [] && CheckPending(storage.db, owner, pendingEntities).NeedID?
      ensures Author(pendingEntities[0]).Some?
    {
    }

    /** One round of the request loop. The acknowledgement is written by the caller. */
    method RequestEntity(neededID: ID, clock: Clock) returns (next: Option<ID>, outcome: Outcome)
      modifies this, conn, storage
      ensures var (r, n) := Round(owner, sender, clock, old(LocalState()), old(pendingEntities), neededID, old(conn.inbox));
              && next == n && outcome == r.outcome
              && LocalState() == r.local && pendingEntities == r.pending && conn.inbox == r.rest
              && conn.outbox == old(conn.outbox) + [ReqPayload(neededID)]
              && r.sent == [ReqPayload(neededID)] + if r.outcome == Acked then [AckPayload] else []
    {
      hide Decide, Finish, ReadEntity;
      conn.Write(ReqPayload(neededID));
      requestedEntity := neededID;
      var pkt := conn.Read();
      if pkt.None? {
        return None, ConnectionLost;
      }
      var e := ReadEntity(pkt.value, requestedEntity);
      if e.None? {
        return None, Violation;
      }
      pendingEntities := pendingEntities + [e.value];
      var v := CheckPendingEntities();
      next, outcome := HandleVerdict(v, clock);
    }

    method Perform(clock: Clock) returns (outcome: Outcome)
      requires pendingEntities == []
      modifies this, conn, storage
      ensures var r := Receive(owner, sender, clock, old(LocalState()), initialPacket, old(conn.inbox));
              && outcome == r.outcome
              && LocalState() == r.local && pendingEntities == r.pending && conn.inbox == r.rest
              && conn.outbox == old(conn.outbox) + r.sent
    {
      hide Round, HasEntity;
      if !initialPacket.authentic || !initialPacket.payload.AnnouncePayload? {
        return Violation;
      }
      var neededID := initialPacket.payload.id;
      var allMatched := HasEntity(storage.db, neededID);
      ghost var sent: seq<Payload> := [];
      ghost var r := Receive(owner, sender, clock, LocalState(), initialPacket, conn.inbox);
      while !allMatched
        invariant conn.outbox == old(conn.outbox) + sent
        invariant if allMatched then r == Run(LocalState(), sent + [AckPayload], conn.inbox, pendingEntities, Acked)
                  else
                    |pendingEntities| < MAX_PENDING_ENTITIES_NUM &&
                    var f := Fetch(owner, sender, clock, LocalState(), pendingEntities, neededID, conn.inbox);
                    r == f.(sent := sent + f.sent)
        decreases !allMatched, MAX_PENDING_ENTITIES_NUM - |pendingEntities|
      {
        RoundLeavesRoom(owner, sender, clock, LocalState(), pendingEntities, neededID, conn.inbox);
        var next, end := RequestEntity(neededID, clock);
        sent := sent + [ReqPayload(neededID)];
        if next.Some? {
          neededID := next.value;
        } else if end == Acked {
          allMatched := true;
        } else {
          return end;
        }
      }
      conn.Write(AckPayload);
      return Acked;
    }
  }

  /** A further request is made only while the buffer has room, and leaves the local state alone. */
  lemma RoundLeavesRoom(own: Owner, sender: ID, clock: Clock, local: Local, pending: seq<Entity>, needed: ID,
                        inbox: seq<Packet>)
    ensures var (r, next) := Round(own, sender, clock, local, pending, needed, inbox);
            && (next.Some? <==> r.outcome == InProgress)
            && (next.Some? ==> r.local == local && |pending| < |r.pending| < MAX_PENDING_ENTITIES_NUM)
  {
  }
}
