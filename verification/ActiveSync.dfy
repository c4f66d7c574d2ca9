/** The active part of a sync: which stored entities are offered to the peer, in which order, and why
    that comes to an end. */
module ActiveSync {
  import opened Topics
  import opened Subscriptions
  import opened Entities
  import opened Databases
  import opened Lists
  import opened Receiving
  import opened ReceivingRuns
  import opened Sending
  import opened HonestExchange

  const MAX_SYNC_DURATION: Time := 30 * 24 * 3600 * SECOND
  const MAX_SYNC_NUMBER_OF_MESSAGES: nat := 1000
  const MAX_SYNC_NUMBER_OF_OPERATIONS: nat := 1000

  /** A row with the time it was stored. */
  datatype StoredEntity = StoredEntity(entity: Entity, stored: Time)

  // ---------------------------------------------------------------- fetching

  function Date(row: StoredEntity): int {
    match row.entity
    case UserEntity(u) => u.content.regDate
    case MessageEntity(m) => m.content.dateWritten
    case OperationEntity(o) => o.content.datePerformed
  }

  function Window(rows: seq<StoredEntity>, since: Time): seq<StoredEntity> {
    Filter((row: StoredEntity) => row.stored >= since, rows)
  }

  /** Messages are ordered by date, operations come as they are in the table. */
  datatype Query = MessageQuery | OperationQuery {
    function Ordered(rows: seq<StoredEntity>): seq<StoredEntity> {
      if MessageQuery? then Sort(Date, rows) else rows
    }
  }

  /** The rows stored since a time, up to a limit. */
  function StoredAfter(q: Query, rows: seq<StoredEntity>, since: Time, limit: nat): seq<StoredEntity> {
    var all := q.Ordered(Window(rows, since));
    if |all| <= limit then all else all[..limit]
  }

  lemma StoredAfterLimit(q: Query, rows: seq<StoredEntity>, since: Time, limit: nat)
    ensures |StoredAfter(q, rows, since, limit)| <= limit
  {
  }

  /** A row can be scanned if its topic is valid or the operation is linked to its object. */
  predicate Scannable(db: Database, row: StoredEntity) {
    match row.entity
    case UserEntity(_) => true
    case MessageEntity(m) => m.content.topic.IsValid()
    case OperationEntity(o) => Linked(db, o.id)
  }

  /** One row that cannot be scanned makes the whole fetch fail. */
  function Scan(db: Database, rows: seq<StoredEntity>): Result<seq<StoredEntity>> {
    if forall row | row in rows :: Scannable(db, row) then Ok(rows) else Err(InconsistentDB)
  }

  method ScanRows(db: Database, rows: seq<StoredEntity>) returns (res: Result<seq<StoredEntity>>)
    ensures res == Scan(db, rows)
  {
    var scanned: seq<StoredEntity> := [];
    for i := 0 to |rows|
      invariant scanned == rows[..i] && forall row | row in rows[..i] :: Scannable(db, row)
    {
      assert rows[..i + 1] == rows[..i] + [rows[i]];
      if !Scannable(db, rows[i]) {
        assert rows[i] in rows;
        return Err(InconsistentDB);
      }
      scanned := scanned + [rows[i]];
    }
    assert rows[..|rows|] == rows;
    return Ok(scanned);
  }

  function FetchMessages(db: Database, rows: seq<StoredEntity>, since: Time): Result<seq<StoredEntity>> {
    Scan(db, StoredAfter(MessageQuery, rows, since, MAX_SYNC_NUMBER_OF_MESSAGES))
  }

  function FetchOperations(db: Database, rows: seq<StoredEntity>, since: Time): Result<seq<StoredEntity>> {
    Scan(db, StoredAfter(OperationQuery, rows, since, MAX_SYNC_NUMBER_OF_OPERATIONS))
  }

  // ---------------------------------------------------------------- one step

  /** `None` is the nil list, which a query without a result leaves behind as well. */
  datatype Worklist = Worklist(messages: Option<seq<StoredEntity>>, operations: Option<seq<StoredEntity>>)

  /** What a query returned at one call. */
  datatype Fetched = Fetched(messages: Result<seq<StoredEntity>>, operations: Result<seq<StoredEntity>>)

  /** The next entity to send, the end of the sync, or a fetch that failed. */
  datatype Next = Send(row: StoredEntity) | Done | Failed(error: Error)

  /** A nil list is fetched again every time, an emptied one never. */
  function Refill(list: Option<seq<StoredEntity>>, fetched: Result<seq<StoredEntity>>): Result<Option<seq<StoredEntity>>> {
    if list.Some? then Ok(list)
    else
      match fetched
      case Err(e) => Err(e)
      case Ok(rows) => Ok(if rows == [] then None else Some(rows))
  }

  predicate Synced(list: Option<seq<StoredEntity>>) {
    list.None? || list.value == []
  }

  /** Messages go first; operations are only fetched while no message is left. */
  function Advance(s: Worklist, c: Fetched): (Worklist, Next) {
    match Refill(s.messages, c.messages)
    case Err(e) => (s, Failed(e))
    case Ok(m) =>
      if !Synced(m) then (s.(messages := Some(m.value[1..])), Send(m.value[0]))
      else
        match Refill(s.operations, c.operations)
        case Err(e) => (s.(messages := m), Failed(e))
        case Ok(o) =>
          if !Synced(o) then (Worklist(m, Some(o.value[1..])), Send(o.value[0])) else (Worklist(m, o), Done)
  }

  class StateActiveSyncing {
    const conn: Connection
    const peerSubs: Subs
    const hist: Option<History>
    var messagesToSync: Option<seq<StoredEntity>>
    var operationsToSync: Option<seq<StoredEntity>>
    var startTime: Option<Time>

    constructor (conn: Connection, peerSubs: Subs, hist: Option<History>)
      ensures this.conn == conn && this.peerSubs == peerSubs && this.hist == hist
      ensures ToSync() == Worklist(None, None) && startTime == None
    {
      this.conn, this.peerSubs, this.hist := conn, peerSubs, hist;
      messagesToSync, operationsToSync, startTime := None, None, None;
    }

    ghost function ToSync(): Worklist
      reads this
    {
      Worklist(messagesToSync, operationsToSync)
    }

    method MessagesSynced(db: Database, rows: seq<StoredEntity>) returns (synced: Result<bool>)
      requires startTime.Some?
      modifies this`messagesToSync
      ensures match Refill(old(messagesToSync), FetchMessages(db, rows, startTime.value))
              case Err(e) => synced == Err(e) && messagesToSync == old(messagesToSync)
              case Ok(m) => synced == Ok(Synced(m)) && messagesToSync == m
    {
      if messagesToSync.None? {
        var mm := ScanRows(db, StoredAfter(MessageQuery, rows, startTime.value, MAX_SYNC_NUMBER_OF_MESSAGES));
        if mm.Err? {
          return Err(mm.error);
        }
        messagesToSync := if mm.value == [] then None else Some(mm.value);
      }
      return Ok(messagesToSync.None? || |messagesToSync.value| == 0);
    }

    method OperationsSynced(db: Database, rows: seq<StoredEntity>) returns (synced: Result<bool>)
      requires startTime.Some?
      modifies this`operationsToSync
      ensures match Refill(old(operationsToSync), FetchOperations(db, rows, startTime.value))
              case Err(e) => synced == Err(e) && operationsToSync == old(operationsToSync)
              case Ok(o) => synced == Ok(Synced(o)) && operationsToSync == o
    {
      if operationsToSync.None? {
        var oo := ScanRows(db, StoredAfter(OperationQuery, rows, startTime.value, MAX_SYNC_NUMBER_OF_OPERATIONS));
        if oo.Err? {
          return Err(oo.error);
        }
        operationsToSync := if oo.value == [] then None else Some(oo.value);
      }
      return Ok(operationsToSync.None? || |operationsToSync.value| == 0);
    }

    /** One call: the tables are as they are at this moment. The Done packet is written exactly at the
        end of the sync. */
    method Perform(db: Database, messages: seq<StoredEntity>, operations: seq<StoredEntity>, now: Time) returns (next: Next)
      modifies this, conn
      ensures startTime == Some(if old(startTime).Some? then old(startTime).value else StartTime(peerSubs, hist, now))
      ensures (ToSync(), next) == Advance(old(ToSync()),
                Fetched(FetchMessages(db, messages, startTime.value), FetchOperations(db, operations, startTime.value)))
      ensures conn.inbox == old(conn.inbox)
      ensures conn.outbox == old(conn.outbox) + if next == Done then [DonePayload] else []
    {
      if startTime.None? {
        startTime := Some(StartTime(peerSubs, hist, now));
      }
      var synced := MessagesSynced(db, messages);
      if synced.Err? {
        return Failed(synced.error);
      }
      if !synced.value {
        next := Send(messagesToSync.value[0]);
        messagesToSync := Some(messagesToSync.value[1..]);
        return;
      }
      synced := OperationsSynced(db, operations);
      if synced.Err? {
        return Failed(synced.error);
      }
      if !synced.value {
        next := Send(operationsToSync.value[0]);
        operationsToSync := Some(operationsToSync.value[1..]);
        return;
      }
      conn.Write(DonePayload);
      return Done;
    }
  }

  // ---------------------------------------------------------------- whole syncs

  datatype Ending = Unfinished | DoneSent | FetchFailed(error: Error)

  /** The calls of one sync, each with what the queries return at that moment: what was handed over for
      sending, the lists left, and how the sync ended. */
  datatype Progress = Progress(sent: seq<StoredEntity>, left: Worklist, end: Ending)

  function Run(s: Worklist, calls: seq<Fetched>): Progress
    decreases calls
  {
    if calls == [] then Progress([], s, Unfinished)
    else
      var (s', next) := Advance(s, calls[0]);
      match next
      case Done => Progress([], s', DoneSent)
      case Failed(e) => Progress([], s', FetchFailed(e))
      case Send(row) =>
        var later := Run(s', calls[1..]);
        later.(sent := [row] + later.sent)
  }

  const START := Worklist(None, None)

  function Measure(s: Worklist): nat {
    (if s.messages.None? then MAX_SYNC_NUMBER_OF_MESSAGES else |s.messages.value|) +
    (if s.operations.None? then MAX_SYNC_NUMBER_OF_OPERATIONS else |s.operations.value|)
  }

  ghost predicate WithinLimits(calls: seq<Fetched>) {
    forall c | c in calls ::
      && (c.messages.Ok? ==> |c.messages.value| <= MAX_SYNC_NUMBER_OF_MESSAGES)
      && (c.operations.Ok? ==> |c.operations.value| <= MAX_SYNC_NUMBER_OF_OPERATIONS)
  }

  /** Each sending uses up one place, even though an empty result is fetched again. */
  lemma {:induction false} RunIsBounded(s: Worklist, calls: seq<Fetched>)
    requires WithinLimits(calls)
    ensures |Run(s, calls).sent| <= Measure(s)
    ensures Run(s, calls).end == Unfinished ==> |Run(s, calls).sent| == |calls|
    decreases calls
  {
    if calls != [] {
      assert calls[0] in calls;
      assert forall c | c in calls[1..] :: c in calls;
      var (s', next) := Advance(s, calls[0]);
      if next.Send? {
        assert Measure(s') < Measure(s);
        RunIsBounded(s', calls[1..]);
      }
    }
  }

  /** The sync ends although other peers may go on storing: after at most 1000 + 1000 sendings the next
      call sends Done, unless a fetch fails. */
  lemma SyncEnds(calls: seq<Fetched>)
    requires WithinLimits(calls)
    requires |calls| > MAX_SYNC_NUMBER_OF_MESSAGES + MAX_SYNC_NUMBER_OF_OPERATIONS
    ensures Run(START, calls).end != Unfinished
  {
    RunIsBounded(START, calls);
  }

  /** A sync that fails does so for a fetch of that very call, made because the list was nil. */
  lemma {:induction false} FailsWithTheFetch(s: Worklist, calls: seq<Fetched>)
    requires Run(s, calls).end.FetchFailed?
    ensures var r := Run(s, calls);
            && |r.sent| < |calls|
            && var c := calls[|r.sent|];
               || (r.left.messages.None? && c.messages == Err(r.end.error))
               || (Synced(r.left.messages) && r.left.operations.None? && c.operations == Err(r.end.error))
    decreases calls
  {
    var (s', next) := Advance(s, calls[0]);
    if next.Send? {
      FailsWithTheFetch(s', calls[1..]);
    }
  }

  /** While the tables stay as they are, a sync ends with Done exactly if both fetches succeed. */
  lemma StableSyncIsDoneExactly(calls: seq<Fetched>, f: Fetched)
    requires (forall c | c in calls :: c == f) && Run(START, calls).end != Unfinished
    ensures Run(START, calls).end == DoneSent <==> f.messages.Ok? && f.operations.Ok?
  {
    assert calls[0] in calls;
    if f.messages.Ok? {
      StableEnd(START, calls, f);
    }
  }

  lemma {:induction false} StableEnd(s: Worklist, calls: seq<Fetched>, f: Fetched)
    requires (forall c | c in calls :: c == f) && f.messages.Ok? && Run(s, calls).end != Unfinished
    requires s.operations.Some? ==> f.operations.Ok?
    ensures Run(s, calls).end == DoneSent <==> f.operations.Ok?
    decreases calls
  {
    assert calls[0] in calls;
    assert forall c | c in calls[1..] :: c in calls;
    var (s', next) := Advance(s, calls[0]);
    if next.Send? {
      StableEnd(s', calls[1..], f);
    }
  }

  /** So over unchanged tables Done is sent exactly if every row of both windows can be scanned. */
  lemma DoneIfAllScannableExactly(db: Database, messages: seq<StoredEntity>, operations: seq<StoredEntity>, since: Time, n: nat)
    requires n > MAX_SYNC_NUMBER_OF_MESSAGES + MAX_SYNC_NUMBER_OF_OPERATIONS
    ensures var calls := seq(n, _ => Fetched(FetchMessages(db, messages, since), FetchOperations(db, operations, since)));
            Run(START, calls).end == DoneSent <==>
              && (forall row | row in StoredAfter(MessageQuery, messages, since, MAX_SYNC_NUMBER_OF_MESSAGES) :: Scannable(db, row))
              && (forall row | row in StoredAfter(OperationQuery, operations, since, MAX_SYNC_NUMBER_OF_OPERATIONS) :: Scannable(db, row))
  {
    hide StoredAfter, Scannable, Run;
    var f := Fetched(FetchMessages(db, messages, since), FetchOperations(db, operations, since));
    var calls := seq(n, _ => f);
    StoredAfterLimit(MessageQuery, messages, since, MAX_SYNC_NUMBER_OF_MESSAGES);
    StoredAfterLimit(OperationQuery, operations, since, MAX_SYNC_NUMBER_OF_OPERATIONS);
    SyncEnds(calls);
    StableSyncIsDoneExactly(calls, f);
  }

  /** Such a row exists as soon as a user who is not stored has been banned: while it is in the window no
      sync with any peer gets to its Done packet. */
  lemma BanOfUnknownUserStopsSyncs(own: Owner, now: Time, local: Local, target: ID, operations: seq<StoredEntity>,
                                   messages: seq<StoredEntity>, stored: Time, since: Time, n: nat)
    requires Due(local, now) && target != ZeroID && target !in local.db.users
    requires !Linked(local.db, BanOperation(own, now, target).id)
    requires n > MAX_SYNC_NUMBER_OF_MESSAGES + MAX_SYNC_NUMBER_OF_OPERATIONS
    requires StoredEntity(OperationEntity(BanOperation(own, now, target)), stored) in
               StoredAfter(OperationQuery, operations, since, MAX_SYNC_NUMBER_OF_OPERATIONS)
    ensures var db := Ban(own, now, local, target).local.db;
            var calls := seq(n, _ => Fetched(FetchMessages(db, messages, since), FetchOperations(db, operations, since)));
            Run(START, calls).end != DoneSent
  {
    hide StoredAfter, Run;
    BanIsReadableExactly(own, now, local, target);
    var db := Ban(own, now, local, target).local.db;
    DoneIfAllScannableExactly(db, messages, operations, since, n);
    assert !Scannable(db, StoredEntity(OperationEntity(BanOperation(own, now, target)), stored));
  }

  /** And there is such a run: it receives a message dated before its author registered. Afterwards the
      author is banned without being stored, and while the ban is in the window every sync fails. */
  lemma BackdatedMessageStopsSyncs(
      own: Owner, sender: ID, clock: Clock, local: Local, m: Message, u: User, operations: seq<StoredEntity>,
      messages: seq<StoredEntity>, stored: Time, since: Time, n: nat)
    requires Backdated(local, own, m, u) && Due(local, clock.first)
    requires !Linked(local.db, BanOperation(own, clock.first, u.id).id)
    requires n > MAX_SYNC_NUMBER_OF_MESSAGES + MAX_SYNC_NUMBER_OF_OPERATIONS
    requires StoredEntity(OperationEntity(BanOperation(own, clock.first, u.id)), stored) in
               StoredAfter(OperationQuery, operations, since, MAX_SYNC_NUMBER_OF_OPERATIONS)
    ensures var r := Receive(own, sender, clock, local, Packet(AnnouncePayload(m.id), true), BackdatedPackets(m, u));
            var calls := seq(n, _ => Fetched(FetchMessages(r.local.db, messages, since), FetchOperations(r.local.db, operations, since)));
            r.outcome == Acked && HasEntity(r.local.db, BanOperation(own, clock.first, u.id).id) && Run(START, calls).end != DoneSent
  {
    assert u.id != ZeroID && u.id !in local.db.users;
    hide StoredAfter, Run, Backdated, Receive, Ban;
    BackdatedAuthorIsBannedUnstored(own, sender, clock, local, m, u);
    BanIsReadableExactly(own, clock.first, local, u.id);
    BanOfUnknownUserStopsSyncs(own, clock.first, local, u.id, operations, messages, stored, since, n);
  }

  predicate IsMessage(row: StoredEntity) {
    row.entity.MessageEntity?
  }

  ghost predicate WellKinded(calls: seq<Fetched>) {
    forall c | c in calls ::
      && (c.messages.Ok? ==> forall row | row in c.messages.value :: IsMessage(row))
      && (c.operations.Ok? ==> forall row | row in c.operations.value :: !IsMessage(row))
  }

  ghost predicate KindedLists(s: Worklist) {
    (s.messages.Some? ==> forall row | row in s.messages.value :: IsMessage(row)) &&
    (s.operations.Some? ==> forall row | row in s.operations.value :: !IsMessage(row))
  }

  function OfKind(messages: bool, sent: seq<StoredEntity>): seq<StoredEntity> {
    if sent == [] then []
    else (if IsMessage(sent[0]) == messages then [sent[0]] else []) + OfKind(messages, sent[1..])
  }

  function FetchedOf(messages: bool, c: Fetched): Result<seq<StoredEntity>> {
    if messages then c.messages else c.operations
  }

  /** The rows are the list held at the start, or one of those fetched later, or none. */
  ghost predicate IsSource(messages: bool, list: Option<seq<StoredEntity>>, calls: seq<Fetched>, rows: seq<StoredEntity>) {
    match list
    case Some(l) => rows == l
    case None => rows == [] || exists c | c in calls :: FetchedOf(messages, c) == Ok(rows)
  }

  /** One more call in front: what is sent of a kind is what this call takes and what is sent later. */
  lemma SourceStep(messages: bool, list: Option<seq<StoredEntity>>, calls: seq<Fetched>, row: StoredEntity, rows: seq<StoredEntity>)
    requires calls != [] && Refill(list, FetchedOf(messages, calls[0])).Ok?
    ensures var l := Refill(list, FetchedOf(messages, calls[0])).value;
            && (!Synced(l) && row == l.value[0] && IsSource(messages, Some(l.value[1..]), calls[1..], rows) ==>
                  IsSource(messages, list, calls, [row] + rows))
            && (IsSource(messages, l, calls[1..], rows) ==> IsSource(messages, list, calls, rows))
  {
    assert calls[0] in calls;
    assert forall c | c in calls[1..] :: c in calls;
    var l := Refill(list, FetchedOf(messages, calls[0])).value;
    if !Synced(l) {
      assert l.value == [l.value[0]] + l.value[1..];
    }
  }

  lemma SourceLater(messages: bool, list: Option<seq<StoredEntity>>, calls: seq<Fetched>, rows: seq<StoredEntity>)
    requires calls != [] && IsSource(messages, list, calls[1..], rows)
    ensures IsSource(messages, list, calls, rows)
  {
    assert forall c | c in calls[1..] :: c in calls;
  }

  /** A sync that sent Done has handed over, in the order of the list and each row once, exactly one
      fetched list of messages and one of operations, or nothing of a kind. */
  lemma {:induction false} EverythingFetchedIsSent(s: Worklist, calls: seq<Fetched>)
    requires WellKinded(calls) && KindedLists(s) && Run(s, calls).end == DoneSent
    ensures IsSource(true, s.messages, calls, OfKind(true, Run(s, calls).sent))
    ensures IsSource(false, s.operations, calls, OfKind(false, Run(s, calls).sent))
    decreases calls
  {
    var c := calls[0];
    assert c in calls;
    assert forall d | d in calls[1..] :: d in calls;
    var (s', next) := Advance(s, c);
    if next.Send? {
      var later := Run(s', calls[1..]).sent;
      EverythingFetchedIsSent(s', calls[1..]);
      OfKindStep(next.row, later);
      OneMoreSource(s, calls, OfKind(true, later), OfKind(false, later));
    }
  }

  /** One more call in front. */
  lemma OneMoreSource(s: Worklist, calls: seq<Fetched>, messages: seq<StoredEntity>, operations: seq<StoredEntity>)
    requires calls != [] && KindedLists(s) && WellKinded(calls) && Advance(s, calls[0]).1.Send?
    requires var (s', next) := Advance(s, calls[0]);
             IsSource(true, s'.messages, calls[1..], messages) && IsSource(false, s'.operations, calls[1..], operations)
    ensures var row := Advance(s, calls[0]).1.row;
            && IsSource(true, s.messages, calls, (if IsMessage(row) then [row] else []) + messages)
            && IsSource(false, s.operations, calls, (if IsMessage(row) then [] else [row]) + operations)
  {
    hide IsSource;
    assert calls[0] in calls;
    var row := Advance(s, calls[0]).1.row;
    assert [] + messages == messages && [] + operations == operations;
    SourceStep(true, s.messages, calls, row, messages);
    if IsMessage(row) {
      SourceLater(false, s.operations, calls, operations);
    } else {
      SourceStep(false, s.operations, calls, row, operations);
    }
  }

  /** When Done is sent, both lists are worked off, and a list that is still nil was found empty at
      that very call. */
  lemma {:induction false} NothingIsLeft(s: Worklist, calls: seq<Fetched>)
    requires Run(s, calls).end == DoneSent
    ensures var r := Run(s, calls);
            && |r.sent| < |calls| && Synced(r.left.messages) && Synced(r.left.operations)
            && (r.left.messages.None? ==> calls[|r.sent|].messages == Ok([]))
            && (r.left.operations.None? ==> calls[|r.sent|].operations == Ok([]))
    decreases calls
  {
    var (s', next) := Advance(s, calls[0]);
    if next.Send? {
      NothingIsLeft(s', calls[1..]);
    }
  }

  lemma OfKindStep(row: StoredEntity, sent: seq<StoredEntity>)
    ensures OfKind(true, [row] + sent) == (if IsMessage(row) then [row] else []) + OfKind(true, sent)
    ensures OfKind(false, [row] + sent) == (if IsMessage(row) then [] else [row]) + OfKind(false, sent)
  {
    assert ([row] + sent)[1..] == sent;
  }

  // ---------------------------------------------------------------- messages before operations

  /** No message follows an operation. */
  predicate MessagesFirst(sent: seq<StoredEntity>) {
    forall i, j | 0 <= i < j < |sent| && IsMessage(sent[j]) :: IsMessage(sent[i])
  }

  predicate AnyMessage(sent: seq<StoredEntity>) {
    exists i | 0 <= i < |sent| :: IsMessage(sent[i])
  }

  lemma AnyMessageStep(row: StoredEntity, sent: seq<StoredEntity>)
    ensures AnyMessage([row] + sent) <==> IsMessage(row) || AnyMessage(sent)
    ensures MessagesFirst([row] + sent) <==> MessagesFirst(sent) && (AnyMessage(sent) ==> IsMessage(row))
  {
    var all := [row] + sent;
    assert all[0] == row && forall i | 0 <= i < |sent| :: all[i + 1] == sent[i];
    if AnyMessage(all) && !IsMessage(row) {
      var i :| 0 <= i < |all| && IsMessage(all[i]);
      assert sent[i - 1] == all[i];
    }
    if AnyMessage(sent) {
      var i :| 0 <= i < |sent| && IsMessage(sent[i]);
      assert IsMessage(all[i + 1]);
    }
    if MessagesFirst(sent) && (AnyMessage(sent) ==> IsMessage(row)) {
      forall i, j | 0 <= i < j < |all| && IsMessage(all[j])
        ensures IsMessage(all[i])
      {
        assert sent[j - 1] == all[j];
        if i > 0 { assert sent[i - 1] == all[i]; }
      }
    }
    if MessagesFirst(all) {
      forall i, j | 0 <= i < j < |sent| && IsMessage(sent[j])
        ensures IsMessage(sent[i])
      {
        assert IsMessage(all[j + 1]) && all[i + 1] == sent[i];
      }
    }
  }

  /** From a fetched list of messages on, no message follows an operation; from an emptied one, no
      message is sent at all. */
  lemma {:induction false} FetchedMessagesComeFirst(s: Worklist, calls: seq<Fetched>)
    requires WellKinded(calls) && KindedLists(s) && s.messages.Some?
    ensures MessagesFirst(Run(s, calls).sent)
    ensures s.messages == Some([]) ==> !AnyMessage(Run(s, calls).sent)
    decreases calls
  {
    if calls != [] {
      assert calls[0] in calls;
      assert forall d | d in calls[1..] :: d in calls;
      var (s', next) := Advance(s, calls[0]);
      if next.Send? {
        FetchedMessagesComeFirst(s', calls[1..]);
        AnyMessageStep(next.row, Run(s', calls[1..]).sent);
      }
    }
  }

  /** While no message has been fetched, a message is sent exactly if some call up to the last one
      fetches one. */
  lemma {:induction false} MessageIsSentExactly(s: Worklist, calls: seq<Fetched>)
    requires WellKinded(calls) && KindedLists(s) && s.messages.None? && Run(s, calls).end == DoneSent
    ensures |Run(s, calls).sent| < |calls|
    ensures AnyMessage(Run(s, calls).sent) <==> exists i | 0 <= i <= |Run(s, calls).sent| :: calls[i].messages != Ok([])
    decreases calls
  {
    assert calls[0] in calls;
    assert forall d | d in calls[1..] :: d in calls;
    NothingIsLeft(s, calls);
    var (s', next) := Advance(s, calls[0]);
    if next.Send? {
      var later := Run(s', calls[1..]).sent;
      AnyMessageStep(next.row, later);
      assert Run(s, calls).sent == [next.row] + later;
      if calls[0].messages == Ok([]) {
        MessageIsSentExactly(s', calls[1..]);
        assert forall i | 0 <= i < |calls| - 1 :: calls[1..][i] == calls[i + 1];
        if i :| 0 <= i <= |later| && calls[1..][i].messages != Ok([]) {
          assert calls[i + 1].messages != Ok([]);
        }
        if i :| 0 <= i <= |later| + 1 && calls[i].messages != Ok([]) {
          assert calls[1..][i - 1].messages != Ok([]);
        }
      } else {
        assert IsMessage(next.row) && calls[0].messages != Ok([]);
      }
    }
  }

  /** A finished sync sends no message after an operation exactly if it found messages at its first call
      or none at any call up to its last. */
  lemma MessagesFirstExactly(calls: seq<Fetched>)
    requires WellKinded(calls) && Run(START, calls).end == DoneSent
    ensures |Run(START, calls).sent| < |calls|
    ensures MessagesFirst(Run(START, calls).sent) <==>
              || calls[0].messages != Ok([])
              || forall i | 0 <= i <= |Run(START, calls).sent| :: calls[i].messages == Ok([])
  {
    assert calls[0] in calls;
    assert forall d | d in calls[1..] :: d in calls;
    MessageIsSentExactly(START, calls);
    var (s', next) := Advance(START, calls[0]);
    if next.Send? {
      var later := Run(s', calls[1..]).sent;
      AnyMessageStep(next.row, later);
      assert Run(START, calls).sent == [next.row] + later;
      if calls[0].messages != Ok([]) {
        FetchedMessagesComeFirst(s', calls[1..]);
      } else if !AnyMessage(later) {
        assert MessagesFirst(later);
      }
    }
  }

  /** A message stored by another peer after the first call is sent after an operation. */
  lemma LateMessageFollowsOperation(o: StoredEntity, m: StoredEntity)
    requires !IsMessage(o) && IsMessage(m)
    ensures var calls := [Fetched(Ok([]), Ok([o])), Fetched(Ok([m]), Ok([])), Fetched(Ok([]), Ok([]))];
            Run(START, calls) == Progress([o, m], Worklist(Some([]), Some([])), DoneSent)
            && !MessagesFirst([o, m])
  {
    var c0, c1, c2 := Fetched(Ok([]), Ok([o])), Fetched(Ok([m]), Ok([])), Fetched(Ok([]), Ok([]));
    var s1, s2 := Worklist(None, Some([])), Worklist(Some([]), Some([]));
    assert [o][1..] == [] && [m][1..] == [];
    assert Advance(START, c0) == (s1, Send(o)) && Advance(s1, c1) == (s2, Send(m)) && Advance(s2, c2) == (s2, Done);
    hide Advance, Run;
    RunFirst(s2, c2, []);
    RunFirst(s1, c1, [c2]);
    RunFirst(START, c0, [c1, c2]);
    assert [c1] + [c2] == [c1, c2] && [c0] + [c1, c2] == [c0, c1, c2] && [c2] + [] == [c2];
    assert [o] + ([m] + []) == [o, m];
    assert IsMessage([o, m][1]) && !IsMessage([o, m][0]);
  }

  lemma RunFirst(s: Worklist, c: Fetched, rest: seq<Fetched>)
    ensures var (s', next) := Advance(s, c);
            Run(s, [c] + rest) ==
              match next
              case Done => Progress([], s', DoneSent)
              case Failed(e) => Progress([], s', FetchFailed(e))
              case Send(row) => var later := Run(s', rest); later.(sent := [row] + later.sent)
  {
    assert ([c] + rest)[1..] == rest;
  }

  /** With no other writer the sync sends the two lists. */
  lemma {:induction false} StableSyncSendsBoth(s: Worklist, calls: seq<Fetched>, f: Fetched)
    requires (forall c | c in calls :: c == f) && Run(s, calls).end == DoneSent
    ensures var m, o := Refill(s.messages, f.messages), Refill(s.operations, f.operations);
            && m.Ok? && o.Ok?
            && Run(s, calls).sent == (if m.value.Some? then m.value.value else []) + (if o.value.Some? then o.value.value else [])
    decreases calls
  {
    assert calls[0] in calls;
    assert forall c | c in calls[1..] :: c in calls;
    var (s', next) := Advance(s, f);
    if next.Send? {
      StableSyncSendsBoth(s', calls[1..], f);
      var m, o := Refill(s.messages, f.messages).value, Refill(s.operations, f.operations).value;
      if !Synced(m) {
        assert m.value == [m.value[0]] + m.value[1..];
      } else {
        assert o.value == [o.value[0]] + o.value[1..];
      }
    }
  }

  // ---------------------------------------------------------------- where a sync starts

  /** A new peer gets a month. A known one gets what was stored since it left, or a month more when it
      has subscribed to something it was not subscribed to then. */
  function StartTime(peerSubs: Subs, hist: Option<History>, now: Time): Time {
    match hist
    case None => now - MAX_SYNC_DURATION
    case Some(h) =>
      if DiffOf(peerSubs, h.subs) != [] then h.disconnected - MAX_SYNC_DURATION else h.disconnected
  }

  ghost predicate Wanted(db: Database, peerSubs: Subs, hist: Option<History>, row: StoredEntity)
    requires Sound(db)
  {
    InterestedInEntity(db, peerSubs, hist, row.entity, row.stored) == Some(true)
  }

  /** What a sync from a start time announces: what it fetches and the filter lets through. */
  ghost function Announced(q: Query, db: Database, peerSubs: Subs, hist: Option<History>, rows: seq<StoredEntity>,
                           since: Time, limit: nat): seq<StoredEntity>
    requires Sound(db)
  {
    Filter(row => Wanted(db, peerSubs, hist, row), StoredAfter(q, rows, since, limit))
  }

  /** Shortening the window is only an optimisation: below the limit, the sync of a known peer announces
      exactly what the filter lets through of the whole month before it left, in the same order. */
  lemma ResyncRefinesFullWindow(q: Query, db: Database, peerSubs: Subs, h: History, now: Time, rows: seq<StoredEntity>, limit: nat)
    requires Sound(db)
    requires |Window(rows, h.disconnected - MAX_SYNC_DURATION)| <= limit
    ensures Announced(q, db, peerSubs, Some(h), rows, StartTime(peerSubs, Some(h), now), limit) ==
            Announced(q, db, peerSubs, Some(h), rows, h.disconnected - MAX_SYNC_DURATION, limit)
  {
    if DiffOf(peerSubs, h.subs) == [] {
      var long, short := h.disconnected - MAX_SYNC_DURATION, h.disconnected;
      var wanted := row => Wanted(db, peerSubs, Some(h), row);
      forall row: StoredEntity
        ensures wanted(row) ==> row.stored >= short
      {
        OldRowsAreNotWanted(db, peerSubs, h, row);
      }
      hide InterestedInEntity, Sound, DiffOf, Wanted;
      ShorterWindow(q, rows, wanted, short, long, limit);
    }
  }

  lemma ShorterWindow(q: Query, rows: seq<StoredEntity>, wanted: StoredEntity -> bool, short: Time, long: Time, limit: nat)
    requires (forall row :: wanted(row) ==> row.stored >= short) && long <= short && |Window(rows, long)| <= limit
    ensures Filter(wanted, StoredAfter(q, rows, short, limit)) == Filter(wanted, StoredAfter(q, rows, long, limit))
  {
    hide Filter, Sort;
    FilterLength((row: StoredEntity) => row.stored >= short, (row: StoredEntity) => row.stored >= long, rows);
    AnnouncedUnlimited(q, rows, wanted, long);
    AnnouncedUnlimited(q, rows, wanted, short);
    SortLength(Date, Window(rows, long));
    SortLength(Date, Window(rows, short));
    FilterSame((row: StoredEntity) => wanted(row) && row.stored >= short,
               (row: StoredEntity) => wanted(row) && row.stored >= long, rows);
  }

  lemma OldRowsAreNotWanted(db: Database, peerSubs: Subs, h: History, row: StoredEntity)
    requires Sound(db) && DiffOf(peerSubs, h.subs) == []
    ensures Wanted(db, peerSubs, Some(h), row) ==> row.stored >= h.disconnected
  {
  }

  lemma AnnouncedUnlimited(q: Query, rows: seq<StoredEntity>, wanted: StoredEntity -> bool, since: Time)
    ensures Filter(wanted, q.Ordered(Window(rows, since))) ==
            q.Ordered(Filter((row: StoredEntity) => wanted(row) && row.stored >= since, rows))
  {
    FilterSort(wanted, Date, Window(rows, since));
    FilterFilter(wanted, (row: StoredEntity) => row.stored >= since,
                 (row: StoredEntity) => wanted(row) && row.stored >= since, rows);
  }

  /** Nothing the peer subscribes to falls between the sessions: of everything stored since a month before
      it left, below the limit, a message of a covered thread is announced, unless it was stored before
      the peer left in a thread the peer already covered then. */
  lemma ResyncMissesNothing(db: Database, peerSubs: Subs, h: History, now: Time, rows: seq<StoredEntity>, limit: nat, row: StoredEntity)
    requires Good(db) && AllValid(peerSubs) && peerSubs != []
    requires |Window(rows, h.disconnected - MAX_SYNC_DURATION)| <= limit
    requires row in rows && row.stored >= h.disconnected - MAX_SYNC_DURATION
    requires row.entity.MessageEntity? && Stored(db, row.entity) && Covers(peerSubs, RootTopic(row.entity.Id()))
    ensures || row in Announced(MessageQuery, db, peerSubs, Some(h), rows, StartTime(peerSubs, Some(h), now), limit)
            || (row.stored < h.disconnected && Covers(h.subs, RootTopic(row.entity.Id())))
  {
    hide Covers, Sort, Filter, InterestedInEntity;
    ResyncWants(db, peerSubs, h, row);
    if Wanted(db, peerSubs, Some(h), row) {
      var long := h.disconnected - MAX_SYNC_DURATION;
      ResyncRefinesFullWindow(MessageQuery, db, peerSubs, h, now, rows, limit);
      hide StartTime;
      FilterMembers((row: StoredEntity) => row.stored >= long, rows, row);
      SortMembers(Date, Window(rows, long), row);
      SortLength(Date, Window(rows, long));
      FilterMembers(row => Wanted(db, peerSubs, Some(h), row), StoredAfter(MessageQuery, rows, long, limit), row);
    }
  }

  lemma ResyncWants(db: Database, peerSubs: Subs, h: History, row: StoredEntity)
    requires Good(db) && AllValid(peerSubs) && peerSubs != []
    requires row.entity.MessageEntity? && Stored(db, row.entity) && Covers(peerSubs, RootTopic(row.entity.Id()))
    ensures Wanted(db, peerSubs, Some(h), row) ||
            (row.stored < h.disconnected && Covers(h.subs, RootTopic(row.entity.Id())))
  {
    var m := row.entity.message;
    GoodThread(db, m.id);
    MessageInterest(db, RelevantSubs(peerSubs, Some(h), row.stored), m);
    DiffSplits(peerSubs, h.subs, RootTopic(m.id));
  }

  // ---------------------------------------------------------------- what is offered

  /** The peer's subscriptions ask for the entity: for its thread, or for any ban. */
  predicate AskedFor(subs: Subs, e: Entity) {
    match e
    case UserEntity(_) => false
    case MessageEntity(m) => Covers(subs, RootTopic(m.id))
    case OperationEntity(o) => o.content.typ == BanUser || Covers(subs, RootTopic(o.content.target))
  }

  /** Below the limit, what is announced are the rows of the window that the filter lets through. */
  lemma AnnouncedMembers(q: Query, db: Database, peerSubs: Subs, hist: Option<History>, rows: seq<StoredEntity>,
                         since: Time, limit: nat, row: StoredEntity)
    requires Sound(db) && |Window(rows, since)| <= limit
    ensures row in Announced(q, db, peerSubs, hist, rows, since, limit) <==>
            row in rows && row.stored >= since && Wanted(db, peerSubs, hist, row)
  {
    hide Wanted, Sort, Filter, Sound;
    FilterMembers((r: StoredEntity) => r.stored >= since, rows, row);
    SortMembers(Date, Window(rows, since), row);
    SortLength(Date, Window(rows, since));
    FilterMembers((r: StoredEntity) => Wanted(db, peerSubs, hist, r), StoredAfter(q, rows, since, limit), row);
  }

  lemma WantedIsInterest(db: Database, peerSubs: Subs, hist: Option<History>, row: StoredEntity)
    requires Good(db) && Announceable(db, row.entity)
    ensures Wanted(db, peerSubs, hist, row) <==> Interest(peerSubs, hist, row.entity, row.stored)
  {
    GoodIsWhole(db, row.entity);
    hide Good, Whole, Announceable, InterestedInEntity, Interest;
    InterestIsSolicited(db, peerSubs, hist, row.entity, row.stored);
  }

  /** A peer that has never been here is offered exactly what its subscriptions ask for of the last thirty
      days, below the limit. */
  lemma FirstSyncOffersExactly(q: Query, db: Database, peerSubs: Subs, now: Time, rows: seq<StoredEntity>, limit: nat,
                               row: StoredEntity)
    requires Good(db) && peerSubs != [] && |Window(rows, StartTime(peerSubs, None, now))| <= limit
    requires row in rows && Announceable(db, row.entity)
    ensures row in Announced(q, db, peerSubs, None, rows, StartTime(peerSubs, None, now), limit) <==>
            now - row.stored <= 30 * 24 * 3600 * SECOND && AskedFor(peerSubs, row.entity)
  {
    hide Good, Announceable, Wanted, Covers, Window, Announced;
    GoodIsSound(db);
    AnnouncedMembers(q, db, peerSubs, None, rows, StartTime(peerSubs, None, now), limit, row);
    WantedIsInterest(db, peerSubs, None, row);
    assert !row.entity.UserEntity? by { NoUserIsAnnounceable(db, row.entity); }
  }

  lemma NoUserIsAnnounceable(db: Database, e: Entity)
    requires Announceable(db, e)
    ensures !e.UserEntity?
  {
  }

  /** The same for operations to a peer that was here before: a ban is offered exactly if it is new since
      then, or a month old at most by then while the peer has subscribed to something new; a removal in a
      covered thread is offered unless it is older in a thread that was covered then. */
  lemma ResyncOffersOperations(db: Database, peerSubs: Subs, h: History, now: Time, rows: seq<StoredEntity>, limit: nat, row: StoredEntity)
    requires Good(db) && AllValid(peerSubs) && peerSubs != []
    requires |Window(rows, h.disconnected - MAX_SYNC_DURATION)| <= limit
    requires row in rows && row.entity.OperationEntity? && Announceable(db, row.entity)
    ensures var offered := row in Announced(OperationQuery, db, peerSubs, Some(h), rows, StartTime(peerSubs, Some(h), now), limit);
            var o := row.entity.operation;
            && (o.content.typ == BanUser ==>
                  (offered <==>
                    || row.stored >= h.disconnected
                    || (h.disconnected - row.stored <= 30 * 24 * 3600 * SECOND &&
                        exists i | 0 <= i < |peerSubs| :: !Covers(h.subs, peerSubs[i]))))
            && (o.content.typ == RemoveMessage ==>
                  && (offered ==> Covers(peerSubs, RootTopic(o.content.target)))
                  && (Covers(peerSubs, RootTopic(o.content.target)) && h.disconnected - row.stored <= 30 * 24 * 3600 * SECOND ==>
                        offered || (row.stored < h.disconnected && Covers(h.subs, RootTopic(o.content.target)))))
  {
    hide Good, Announceable, Wanted, Covers, Window, Announced, StartTime, DiffOf;
    var long := h.disconnected - MAX_SYNC_DURATION;
    GoodIsSound(db);
    ResyncRefinesFullWindow(OperationQuery, db, peerSubs, h, now, rows, limit);
    AnnouncedMembers(OperationQuery, db, peerSubs, Some(h), rows, long, limit, row);
    WantedIsInterest(db, peerSubs, Some(h), row);
    DiffIsNil(peerSubs, h.subs);
    var t := RootTopic(row.entity.operation.content.target);
    if Covers(peerSubs, t) { DiffSplits(peerSubs, h.subs, t); }
    if Covers(DiffOf(peerSubs, h.subs), t) { DiffCoversNoMore(peerSubs, h.subs, t); }
    if DiffOf(peerSubs, h.subs) == [] { NothingCoversNothing(t); }
  }

  lemma GoodIsSound(db: Database)
    requires Good(db)
    ensures Sound(db)
  {
  }

  lemma NothingCoversNothing(t: Topic)
    ensures !Covers([], t)
  {
  }

  /** Nothing is ever offered that the peer's subscriptions do not ask for. */
  lemma OnlyAskedForIsOffered(q: Query, db: Database, peerSubs: Subs, hist: Option<History>, rows: seq<StoredEntity>,
                              since: Time, limit: nat, row: StoredEntity)
    requires Sound(db) && Announceable(db, row.entity) && row in Announced(q, db, peerSubs, hist, rows, since, limit)
    ensures AskedFor(peerSubs, row.entity)
  {
    hide Announceable, Sound, Covers, InterestedInEntity, DiffOf;
    FilterMembers((r: StoredEntity) => Wanted(db, peerSubs, hist, r), StoredAfter(q, rows, since, limit), row);
    InterestOrHalt(db, peerSubs, hist, row.entity, row.stored);
    if hist.Some? && !row.entity.UserEntity? {
      var t := RootTopic(ThreadOf(row.entity));
      if Covers(DiffOf(peerSubs, hist.value.subs), t) { DiffCoversNoMore(peerSubs, hist.value.subs, t); }
    }
  }

  /** At the limit the messages written first are fetched: as many as the limit allows, in the order of their
      dates, and none of those left out is older than any of them. */
  lemma LimitKeepsOldestMessages(rows: seq<StoredEntity>, since: Time, limit: nat)
    ensures var kept := StoredAfter(MessageQuery, rows, since, limit);
            && (forall i, j | 0 <= i < j < |kept| :: NotLater(kept[i], kept[j]))
            && |kept| == (if |Window(rows, since)| <= limit then |Window(rows, since)| else limit)
            && exists left :: Left(rows, since, kept, left) && forall a, b | a in kept && b in left :: NotLater(a, b)
  {
    hide Sort, Filter;
    var window := Window(rows, since);
    var all, kept := Sort(Date, window), StoredAfter(MessageQuery, rows, since, limit);
    SortCorrect(Date, window);
    SortLength(Date, window);
    assert kept == all[..|kept|];
    SortedSplits(Date, all, |kept|);
    assert Left(rows, since, kept, all[|kept|..]);
  }

  /** The first message was not written later than the second. */
  predicate NotLater(a: StoredEntity, b: StoredEntity) {
    a.entity.MessageEntity? && b.entity.MessageEntity? ==>
      a.entity.message.content.dateWritten <= b.entity.message.content.dateWritten
  }

  /** What was fetched and what was left out make up the window. */
  ghost predicate Left(rows: seq<StoredEntity>, since: Time, kept: seq<StoredEntity>, left: seq<StoredEntity>) {
    multiset(kept) + multiset(left) == multiset(Window(rows, since))
  }
}
