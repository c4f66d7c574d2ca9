/** The states of a peer as the program runs them, each to its end, against the steps of the two-peer
    machine: performing a state is the machine's reading steps in a row. */
module PeerStates {
  import opened Topics
  import opened Subscriptions
  import opened Entities
  import opened Databases
  import opened Views
  import opened Receiving
  import opened Sending
  import opened Protocol

  // ---------------------------------------------------------------- steps in a row

  predicate Handshaking(s: State) {
    s.SendUser? || s.AwaitUser? || s.AwaitHello?
  }

  /** The peer is still performing the same state. */
  predicate Continues(s: State, s': State) {
    || (Handshaking(s) && Handshaking(s'))
    || (s.SendingEntity? && s'.SendingEntity?)
    || (s.ReceivingEntity? && s'.ReceivingEntity?)
  }

  /** The peer afterwards, what it sent, and what it left unread. */
  datatype Driven = Driven(peer: Peer, sent: seq<Payload>, rest: seq<Packet>)

  /** The machine's reading steps until the state is left or nothing is left to read. */
  function Drive(p: Peer, inbox: seq<Packet>, clock: Clock): Driven
    requires Reads(p.state)
    decreases inbox
  {
    if inbox == [] then Driven(p, [], [])
    else if !inbox[0].authentic then Driven(p.(state := Failed), [], inbox[1..])
    else
      var (p', sent) := ReadPacket(p, inbox[0].payload, clock);
      if Continues(p.state, p'.state) && Reads(p'.state) then
        var later := Drive(p', inbox[1..], clock);
        later.(sent := sent + later.sent)
      else Driven(p', sent, inbox[1..])
  }

  // ---------------------------------------------------------------- sending

  function SendingEnds(p: Peer, end: Ending): State
    requires p.state.SendingEntity?
  {
    match end
    case Acknowledged => p.state.next
    case Collision => p.state.next
    case Refused => Failed
    case Unanswerable => Failed
    case Lost => p.state
  }

  /** The serving loop of a sending state is the machine's steps. */
  lemma {:induction false} ServingIsDriving(p: Peer, inbox: seq<Packet>, clock: Clock)
    requires p.state.SendingEntity? && !p.state.next.SendingEntity?
    ensures var s := Serve(p.local.db, p.state.entity, inbox);
            Drive(p, inbox, clock) == Driven(p.(state := SendingEnds(p, s.end)), s.sent, s.rest)
    decreases inbox
  {
    hide ProcessReq;
    if inbox != [] {
      ServingIsDriving(p, inbox[1..], clock);
    }
  }

  // ---------------------------------------------------------------- receiving

  /** The state after a receiving run, given where it was when it stopped. */
  predicate ReceivingEnds(next: State, r: Run, s: State) {
    match r.outcome
    case Acked => s == next
    case Fatal => s == Halted
    case ConnectionLost => s.ReceivingEntity? && s.pending == r.pending && s.next == next
    case Violation => s == Failed
    case Accused => s == Failed
    case InProgress => false
  }

  /** The request loop of a receiving state is the machine's steps; the first request went out before. */
  lemma {:induction false} FetchingIsDriving(p: Peer, inbox: seq<Packet>, clock: Clock)
    requires p.state.ReceivingEntity? && |p.state.pending| < MAX_PENDING_ENTITIES_NUM
    requires !p.state.next.ReceivingEntity?
    ensures var r := Fetch(p.own, p.peerUser.id, clock, p.local, p.state.pending, p.state.requested, inbox);
            var d := Drive(p, inbox, clock);
            && [ReqPayload(p.state.requested)] + d.sent == r.sent && d.rest == r.rest
            && d.peer == p.(state := d.peer.state, local := r.local)
            && ReceivingEnds(p.state.next, r, d.peer.state)
    decreases inbox
  {
    hide Finish, CheckPending;
    if inbox != [] && ReadEntity(inbox[0], p.state.requested).Some? {
      var pending := p.state.pending + [inbox[0].payload.entity];
      var d := Decide(p.local.db, p.own, pending);
      if d.Request? {
        FetchingIsDriving(p.(state := ReceivingEntity(pending, d.id, p.state.next)), inbox[1..], clock);
      }
    }
  }

  /** Performing a receiving state, started by the packet that took the peer out of its former state. */
  lemma ReceivingIsDriving(p: Peer, first: Payload, inbox: seq<Packet>, clock: Clock)
    requires p.state == Idle || p.state == PassiveSyncing
    ensures var r := Receive(p.own, p.peerUser.id, clock, p.local, Packet(first, true), inbox);
            var (p', sent) := StartReceiving(p, first);
            if p'.state.ReceivingEntity? then
              var d := Drive(p', inbox, clock);
              && sent + d.sent == r.sent && d.rest == r.rest && d.peer.local == r.local
              && ReceivingEnds(p.state, r, d.peer.state)
            else
              sent == r.sent && inbox == r.rest && p'.local == r.local && ReceivingEnds(p.state, r, p'.state)
  {
    hide HasEntity, Fetch, Drive;
    var (p', sent) := StartReceiving(p, first);
    if p'.state.ReceivingEntity? {
      FetchingIsDriving(p', inbox, clock);
    }
  }

  // ---------------------------------------------------------------- the handshake

  /** `AwaitHello` stands for going on. */
  function UserLeadsTo(db: Database, own: Owner, x: Packet): (next: State)
    ensures next == AwaitHello ==> x.payload.EntityPayload? && x.payload.entity.UserEntity?
  {
    if !x.authentic || !x.payload.EntityPayload? || !x.payload.entity.UserEntity? then Failed
    else if !UserValid(x.payload.entity.user) then Failed
    else if IsUserBanned(db, own.moderators, x.payload.entity.user.id) then Closed
    else AwaitHello
  }

  /** `ActiveSyncing` stands for going on. */
  function HelloLeadsTo(x: Packet): (next: State)
    ensures next == ActiveSyncing ==> x.payload.HelloPayload?
  {
    if !x.authentic || !x.payload.HelloPayload? || !Subscriptions.IsValid(x.payload.subs) then Failed
    else if x.payload.proto != PROTOCOL_VERSION then Closed
    else ActiveSyncing
  }

  lemma DrivingFromUser(p: Peer, inbox: seq<Packet>, clock: Clock)
    requires p.state == AwaitUser && inbox != []
    ensures var d := Drive(p, inbox, clock);
            if UserLeadsTo(p.local.db, p.own, inbox[0]) == AwaitHello then
              var later := Drive(p.(peerUser := inbox[0].payload.entity.user, state := AwaitHello), inbox[1..], clock);
              d == later.(sent := [if p.role == Client then Hello(p) else UserPayload(p)] + later.sent)
            else d == Driven(p.(state := UserLeadsTo(p.local.db, p.own, inbox[0])), [], inbox[1..])
  {
    hide UserValid, IsUserBanned;
  }

  lemma DrivingFromHello(p: Peer, inbox: seq<Packet>, clock: Clock)
    requires p.state == AwaitHello && inbox != []
    ensures Drive(p, inbox, clock) ==
            if HelloLeadsTo(inbox[0]) == ActiveSyncing then
              Driven(Protocol.Finalize(p, inbox[0].payload.subs), if p.role == Client then [] else [Hello(p)], inbox[1..])
            else Driven(p.(state := HelloLeadsTo(inbox[0])), [], inbox[1..])
  {
    hide Subscriptions.IsValid;
  }

  /** A whole handshake: where it leads, what is sent, what is left unread. */
  datatype Talk = Talk(next: State, sent: seq<Payload>, rest: seq<Packet>)

  function Conversation(p: Peer, inbox: seq<Packet>): (c: Talk)
    ensures c.next == ActiveSyncing ==>
              |inbox| >= 2 && UserLeadsTo(p.local.db, p.own, inbox[0]) == AwaitHello && HelloLeadsTo(inbox[1]) == ActiveSyncing
  {
    var client := p.role == Client;
    var greeting := if client then [UserPayload(p)] else [];
    if inbox == [] then Talk(AwaitUser, greeting, [])
    else if UserLeadsTo(p.local.db, p.own, inbox[0]) != AwaitHello then Talk(UserLeadsTo(p.local.db, p.own, inbox[0]), greeting, inbox[1..])
    else
      var answer := greeting + [if client then Hello(p) else UserPayload(p)];
      if |inbox| == 1 then Talk(AwaitHello, answer, [])
      else
        var next := HelloLeadsTo(inbox[1]);
        Talk(next, answer + if next == ActiveSyncing && !client then [Hello(p)] else [], inbox[1..][1..])
  }

  lemma ConversationIsDriving(p: Peer, inbox: seq<Packet>, clock: Clock)
    ensures var c, d := Conversation(p, inbox), Drive(p.(state := AwaitUser), inbox, clock);
            && c.rest == d.rest
            && c.sent == (if p.role == Client then [UserPayload(p)] else []) + d.sent
            && (c.next == ActiveSyncing ==>
                  d.peer == Protocol.Finalize(p.(peerUser := inbox[0].payload.entity.user), inbox[1].payload.subs))
            && (c.next != ActiveSyncing ==> d.peer.state == c.next && !Completed(c.next))
  {
    hide Drive, UserLeadsTo, HelloLeadsTo;
    if inbox == [] {
      DrivingEnds(p.(state := AwaitUser), clock);
    } else {
      DrivingFromUser(p.(state := AwaitUser), inbox, clock);
      if UserLeadsTo(p.local.db, p.own, inbox[0]) == AwaitHello {
        var p' := p.(peerUser := inbox[0].payload.entity.user, state := AwaitHello);
        if |inbox| == 1 {
          DrivingEnds(p', clock);
        } else {
          DrivingFromHello(p', inbox[1..], clock);
        }
      }
      LeadsToNoSync(p, inbox);
    }
  }

  /** Whatever the other side sends: the handshake completes exactly if that is a valid user whom no moderator
      of the owner has banned, and then a Hello of this version with valid subscriptions. The peer has then
      stored this user and knows these subscriptions. A ban or another version closes the connection, and any
      other packet is a violation. */
  lemma ConversationCompletesExactly(p: Peer, inbox: seq<Packet>, clock: Clock)
    requires LinksTyped(p.local.db)
    ensures var c := Conversation(p, inbox);
            && (c.next == ActiveSyncing <==> |inbox| >= 2 && Introduces(inbox[0]) && !Banned(p, inbox[0]) && Greets(inbox[1], 1))
            && (c.next == Closed <==>
                  || (inbox != [] && Introduces(inbox[0]) && Banned(p, inbox[0]))
                  || (|inbox| >= 2 && Introduces(inbox[0]) && !Banned(p, inbox[0])
                      && !Greets(inbox[1], 1) && exists version :: Greets(inbox[1], version)))
            && (c.next == Failed <==>
                  || (inbox != [] && !Introduces(inbox[0]))
                  || (|inbox| >= 2 && Introduces(inbox[0]) && !Banned(p, inbox[0]) && forall version :: !Greets(inbox[1], version)))
            && (c.next == ActiveSyncing ==>
                  var d := Drive(p.(state := AwaitUser), inbox, clock).peer;
                  && d.peerUser == inbox[0].payload.entity.user && d.peerUser.id in d.local.db.users
                  && d.peerSubs == inbox[1].payload.subs
                  && Extends(p.local.db, d.local.db) && d.local.db.users.Keys == p.local.db.users.Keys + {d.peerUser.id})
  {
    hide Drive, UserValid, LinksTyped, Judged;
    ConversationIsDriving(p, inbox, clock);
    if inbox != [] && Introduces(inbox[0]) {
      HiddenByRowsExactly(p.local.db, p.own.moderators, inbox[0].payload.entity.user.id);
    }
    if |inbox| >= 2 && inbox[1].payload.HelloPayload? {
      assert forall version :: Greets(inbox[1], version) ==> version == inbox[1].payload.proto;
      assert Greets(inbox[1], inbox[1].payload.proto) || forall version :: !Greets(inbox[1], version);
    }
  }

  predicate Introduces(x: Packet) {
    x.authentic && x.payload.EntityPayload? && x.payload.entity.UserEntity? && UserValid(x.payload.entity.user)
  }

  /** A moderator's linked ban names the user. */
  ghost predicate Banned(p: Peer, x: Packet)
    requires Introduces(x)
  {
    var db := p.local.db;
    exists id | id in db.operations ::
      Linked(db, id) && Judges(db.operations[id], p.own.moderators, BanUser, x.payload.entity.user.id)
  }

  predicate Greets(x: Packet, version: int) {
    x.authentic && x.payload.HelloPayload? && Subscriptions.IsValid(x.payload.subs) && x.payload.proto == version
  }

  lemma DrivingEnds(p: Peer, clock: Clock)
    requires Reads(p.state)
    ensures Drive(p, [], clock) == Driven(p, [], [])
  {
  }

  lemma LeadsToNoSync(p: Peer, inbox: seq<Packet>)
    requires inbox != []
    ensures !Completed(UserLeadsTo(p.local.db, p.own, inbox[0]))
    ensures |inbox| > 1 ==> HelloLeadsTo(inbox[1]) != PassiveSyncing
  {
  }

  predicate Completed(s: State) {
    s == ActiveSyncing || s == PassiveSyncing
  }

  class StateHandshaking {
    const conn: Connection
    var p: Peer
    var u: Option<User>
    var s: Subs

    constructor (conn: Connection, p: Peer)
      ensures this.conn == conn && this.p == p && u == None && s == []
    {
      this.conn, this.p, u, s := conn, p, None, [];
    }

    method SendUser()
      modifies conn
      ensures conn.inbox == old(conn.inbox) && conn.outbox == old(conn.outbox) + [UserPayload(p)]
    {
      conn.Write(UserPayload(p));
    }

    method SendHello()
      modifies conn
      ensures conn.inbox == old(conn.inbox) && conn.outbox == old(conn.outbox) + [Hello(p)]
    {
      conn.Write(Hello(p));
    }

    /** `next` is the state an error leads to, or where the handshake goes on. A lost connection leaves
        the peer waiting. */
    method ReadAndProcessUser() returns (next: State)
      modifies this`u, conn
      ensures conn.outbox == old(conn.outbox)
      ensures old(conn.inbox) == [] ==> next == AwaitUser && conn.inbox == []
      ensures old(conn.inbox) != [] ==>
                && conn.inbox == old(conn.inbox)[1..]
                && next == UserLeadsTo(p.local.db, p.own, old(conn.inbox)[0])
                && (next == AwaitHello ==> u == Some(old(conn.inbox)[0].payload.entity.user))
    {
      var pkt := conn.Read();
      if pkt.None? {
        return AwaitUser;
      }
      if !pkt.value.authentic || !pkt.value.payload.EntityPayload? || !pkt.value.payload.entity.UserEntity? {
        return Failed;
      }
      var user := pkt.value.payload.entity.user;
      if !UserValid(user) {
        return Failed;
      }
      if IsUserBanned(p.local.db, p.own.moderators, user.id) {
        return Closed;
      }
      u := Some(user);
      return AwaitHello;
    }

    method ReadAndProcessHello() returns (next: State)
      modifies this`s, conn
      ensures conn.outbox == old(conn.outbox)
      ensures old(conn.inbox) == [] ==> next == AwaitHello && conn.inbox == []
      ensures old(conn.inbox) != [] ==>
                && conn.inbox == old(conn.inbox)[1..]
                && next == HelloLeadsTo(old(conn.inbox)[0])
                && (next == ActiveSyncing ==> s == old(conn.inbox)[0].payload.subs)
    {
      var pkt := conn.Read();
      if pkt.None? {
        return AwaitHello;
      }
      if !pkt.value.authentic || !pkt.value.payload.HelloPayload? {
        return Failed;
      }
      var h := pkt.value.payload;
      if !Subscriptions.IsValid(h.subs) {
        return Failed;
      }
      if h.proto != PROTOCOL_VERSION {
        return Closed;
      }
      s := h.subs;
      return ActiveSyncing;
    }

    /** Stores a new user, asks the pool whether the peer may stay, and looks up when it was last here. */
    method Finalize(accepted: bool, history: Option<History>) returns (ok: bool)
      requires u.Some?
      modifies this`p
      ensures ok == accepted
      ensures p == old(p).(peerUser := u.value, peerSubs := s, hist := if accepted then history else old(p).hist,
                           local := old(p).local.(db := PutUser(old(p).local.db, u.value)))
    {
      if u.value.id !in p.local.db.users {
        p := p.(local := p.local.(db := p.local.db.(users := p.local.db.users[u.value.id := u.value])));
      }
      p := p.(peerUser := u.value, peerSubs := s);
      if !accepted {
        return false;
      }
      p := p.(hist := history);
      return true;
    }

    /** The packets of either side, in their straight-line order. */
    method Converse() returns (next: State)
      modifies this`u, this`s, conn
      ensures var c := Conversation(p, old(conn.inbox));
              && next == c.next && conn.inbox == c.rest && conn.outbox == old(conn.outbox) + c.sent
              && (next == ActiveSyncing ==>
                    u == Some(old(conn.inbox)[0].payload.entity.user) && s == old(conn.inbox)[1].payload.subs)
    {
      if p.role == Client {
        SendUser();
        next := ReadAndProcessUser();
        if next == AwaitHello {
          SendHello();
          next := ReadAndProcessHello();
        }
      } else {
        next := ReadAndProcessUser();
        if next == AwaitHello {
          SendUser();
          next := ReadAndProcessHello();
          if next == ActiveSyncing {
            SendHello();
          }
        }
      }
    }

    /** The handshake is the machine's steps in a row. Unless it completes it leaves the peer as it was; a
        peer the pool refuses at the end is closed, and of any other the history is looked up. */
    method Perform(accepted: bool, history: Option<History>, ghost clock: Clock)
      requires p.state == if p.role == Client then State.SendUser else AwaitUser
      modifies this, conn
      ensures var d := Drive(old(p).(state := AwaitUser), old(conn.inbox), clock);
              && conn.inbox == d.rest
              && conn.outbox == old(conn.outbox) + (if old(p).role == Client then [UserPayload(old(p))] else []) + d.sent
              && p == if !Completed(d.peer.state) then old(p).(state := d.peer.state)
                      else if accepted then d.peer.(hist := history) else d.peer.(state := Closed)
    {
      ConversationIsDriving(p, conn.inbox, clock);
      var next := Converse();
      if next != ActiveSyncing {
        p := p.(state := next);
        return;
      }
      var ok := Finalize(accepted, history);
      p := p.(state := if !ok then Closed else if p.role == Client then ActiveSyncing else PassiveSyncing);
    }
  }
}
