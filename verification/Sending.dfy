/** The sending side of an exchange, and the filter that decides what is sent at all. */
module Sending {
  import opened Topics
  import opened Subscriptions
  import opened Entities
  import opened Databases
  import opened Receiving

  /** When the peer was last connected, and its subscriptions at that time. */
  datatype History = History(disconnected: Time, subs: Subs)

  /** Entities stored before the last session are compared with the subscriptions that are new since. */
  function RelevantSubs(peerSubs: Subs, hist: Option<History>, stored: Time): Subs {
    if hist.Some? && stored < hist.value.disconnected then DiffOf(peerSubs, hist.value.subs) else peerSubs
  }

  /** `None` is the halt on a thread that cannot be followed to its root. */
  function InterestedInMessage(db: Database, subs: Subs, m: Message): Option<bool>
    requires Sound(db)
  {
    if IsReply(m) then
      match GetRoot(db, m)
      case Ok(root) => Some(Covers(subs, root.content.topic))
      case Err(_) => None
    else Some(Covers(subs, m.content.topic))
  }

  function InterestedInEntity(db: Database, peerSubs: Subs, hist: Option<History>, e: Entity, stored: Time): Option<bool>
    requires Sound(db)
  {
    var subs := RelevantSubs(peerSubs, hist, stored);
    if subs == [] then Some(false)
    else
      match e
      case MessageEntity(m) => InterestedInMessage(db, subs, m)
      case OperationEntity(o) =>
        if o.content.typ == BanUser then Some(true)
        else
          (match GetMessage(db, o.content.target)
           case Ok(m) => InterestedInMessage(db, subs, m)
           case Err(_) => None)
      case UserEntity(_) => Some(false)
  }

  /** The filter halts exactly if it is asked about a thread, for a peer with subscriptions, that cannot
      be read up to its root at this moment. A user is never announced. */
  lemma FilterHaltsExactly(db: Database, peerSubs: Subs, hist: Option<History>, e: Entity, stored: Time)
    requires Sound(db)
    ensures InterestedInEntity(db, peerSubs, hist, e, stored) == None <==>
              RelevantSubs(peerSubs, hist, stored) != [] &&
              match e
              case UserEntity(_) => false
              case MessageEntity(m) => IsReply(m) && !ThreadReadable(db, m.content.parent)
              case OperationEntity(o) => o.content.typ != BanUser && !ThreadReadable(db, o.content.target)
    ensures e.UserEntity? ==> InterestedInEntity(db, peerSubs, hist, e, stored) == Some(false)
  {
    hide GetRoot, Covers, DiffOf;
    match e
    case UserEntity(_) =>
    case MessageEntity(m) => GetRootExactly(db, m);
    case OperationEntity(o) =>
      var id := o.content.target;
      assert id in Ancestors(id);
      if GetMessage(db, id).Ok? {
        var m := db.messages[id];
        assert Authentic(MessageEntity(m)) && m.id == id;
        assert Ancestors(id) == {id} + if IsReply(m) then Ancestors(m.content.parent) else {};
        GetRootExactly(db, m);
      }
  }

  /** The outgoing entity itself is served from memory, everything else from the database. */
  function ProcessReq(db: Database, outgoing: Entity, id: ID): Result<Entity> {
    if id == outgoing.Id() then Ok(outgoing) else GetEntity(db, id)
  }

  datatype Ending = Acknowledged | Collision | Refused | Unanswerable | Lost

  /** What was sent, what was left unread, and how it ended. */
  datatype Service = Service(sent: seq<Payload>, rest: seq<Packet>, end: Ending)

  /** The loop that serves requests until the acknowledgement. */
  function Serve(db: Database, outgoing: Entity, inbox: seq<Packet>): Service
    decreases inbox
  {
    if inbox == [] then Service([], [], Lost)
    else if !inbox[0].authentic then Service([], inbox[1..], Refused)
    else
      match inbox[0].payload
      case AnnouncePayload(_) => Service([], inbox[1..], Collision)
      case AckPayload => Service([], inbox[1..], Acknowledged)
      case ReqPayload(id) =>
        (match ProcessReq(db, outgoing, id)
         case Err(_) => Service([], inbox[1..], Unanswerable)
         case Ok(e) =>
           var later := Serve(db, outgoing, inbox[1..]);
           later.(sent := [EntityPayload(e)] + later.sent))
      case _ => Service([], inbox[1..], Refused)
  }

  class StateSending {
    const conn: Connection
    const storage: Storage
    const peerSubs: Subs
    const hist: Option<History>
    const outgoingEntity: Entity
    const stored: Time

    constructor (conn: Connection, storage: Storage, peerSubs: Subs, hist: Option<History>, e: Entity, stored: Time)
      ensures this.conn == conn && this.storage == storage && this.peerSubs == peerSubs && this.hist == hist
      ensures outgoingEntity == e && this.stored == stored
    {
      this.conn, this.storage, this.peerSubs, this.hist := conn, storage, peerSubs, hist;
      outgoingEntity, this.stored := e, stored;
    }

    /** `skipped` is the return to the previous state without an announcement; `fatal` the halt. */
    method Perform() returns (skipped: bool, fatal: bool, end: Ending)
      requires Sound(storage.db)
      modifies conn
      ensures var wanted := InterestedInEntity(storage.db, peerSubs, hist, outgoingEntity, stored);
              && (fatal <==> wanted == None)
              && (skipped <==> wanted == Some(false))
              && (fatal || skipped ==> conn.inbox == old(conn.inbox) && conn.outbox == old(conn.outbox))
              && (wanted == Some(true) ==>
                    var s := Serve(storage.db, outgoingEntity, old(conn.inbox));
                    && conn.outbox == old(conn.outbox) + [AnnouncePayload(outgoingEntity.Id())] + s.sent
                    && conn.inbox == s.rest && end == s.end)
    {
      hide ProcessReq, InterestedInEntity;
      end := Lost;
      var wanted := InterestedInEntity(storage.db, peerSubs, hist, outgoingEntity, stored);
      if wanted != Some(true) {
        return wanted == Some(false), wanted == None, end;
      }
      skipped, fatal := false, false;
      conn.Write(AnnouncePayload(outgoingEntity.Id()));
      var acked := false;
      ghost var all := Serve(storage.db, outgoingEntity, conn.inbox);
      ghost var sent: seq<Payload> := [];
      while !acked
        invariant conn.outbox == old(conn.outbox) + [AnnouncePayload(outgoingEntity.Id())] + sent
        invariant if acked then all.sent == sent && all.rest == conn.inbox && all.end == Acknowledged
                  else
                    var s := Serve(storage.db, outgoingEntity, conn.inbox);
                    all.sent == sent + s.sent && all.rest == s.rest && all.end == s.end
        decreases !acked, |conn.inbox|
      {
        var pkt := conn.Read();
        if pkt.None? {
          return false, false, Lost;
        }
        if !pkt.value.authentic {
          return false, false, Refused;
        }
        match pkt.value.payload
        case AnnouncePayload(_) =>
          return false, false, Collision;
        case AckPayload =>
          acked := true;
        case ReqPayload(id) =>
          var e := ProcessReq(storage.db, outgoingEntity, id);
          if e.Err? {
            return false, false, Unanswerable;
          }
          conn.Write(EntityPayload(e.value));
          sent := sent + [EntityPayload(e.value)];
        case _ =>
          return false, false, Refused;
      }
      end := Acknowledged;
    }
  }
}
