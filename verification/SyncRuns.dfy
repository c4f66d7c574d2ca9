/** Whole syncs on the two-peer machine, over every run: a peer that syncs takes its next action from its
    worklist, and what the other side acknowledges before Done is exactly what the filter lets through,
    in order. */
module SyncRuns {
  import opened Topics
  import opened Subscriptions
  import opened Entities
  import opened Databases
  import opened Views
  import opened Sending
  import opened HonestExchange
  import opened Protocol
  import opened Turns
  import Receiving
  import ActiveSync

  type StoredEntity = ActiveSync.StoredEntity
  type Worklist = ActiveSync.Worklist
  type Fetched = ActiveSync.Fetched

  // ---------------------------------------------------------------- the worklist drives the machine

  /** What the machine does for the result of one call; a failed fetch ends the connection. */
  function ActionFor(next: ActiveSync.Next): Action {
    match next
    case Send(row) => Announce(row.entity, row.stored)
    case Done => Action.Done
    case Failed(_) => Stop
  }

  /** Where one call leads: Done is written at the end, and the turn passes to the other side or to
      idling; an entity that is wanted is announced, and afterwards the sync goes on. */
  lemma CallLeadsTo(l: Link, w: Worklist, c: Fetched)
    requires l.me.state == ActiveSyncing && Enabled(l, ActionFor(ActiveSync.Advance(w, c).1))
    ensures var next := ActiveSync.Advance(w, c).1;
            var l' := Act(l, ActionFor(next));
            match next
            case Done =>
              l' == Link(l.me.(state := if l.me.role == Client then PassiveSyncing else Idle), l.other, l.out + [Receiving.DonePayload], l.inn)
            case Failed(_) => l' == l.(me := l.me.(state := Closed))
            case Send(row) =>
              match InterestedInEntity(l.me.local.db, l.me.peerSubs, l.me.hist, row.entity, row.stored)
              case None => l'.me.state == Halted
              case Some(wanted) =>
                if wanted then
                  l' == Link(l.me.(state := SendingEntity(row.entity, ActiveSyncing)), l.other,
                             l.out + [Receiving.AnnouncePayload(row.entity.Id())], l.inn)
                else l' == l
  {
    hide InterestedInEntity, Sound, Announceable;
    assert l.out + [] == l.out;
  }

  predicate IsSyncAction(l: Link, s: Step) {
    s.mine && l.me.state == ActiveSyncing && (s.action.Announce? || s.action.Done?)
  }

  /** My announcements and my Done while syncing are those of the worklist, call by call. */
  ghost predicate FollowsSync(l: Link, w: Worklist, steps: seq<Step>, calls: seq<Fetched>)
    requires Runnable(l, steps)
    decreases steps
  {
    if steps == [] then calls == []
    else if IsSyncAction(l, steps[0]) then
      calls != [] &&
      var (w', next) := ActiveSync.Advance(w, calls[0]);
      steps[0].action == ActionFor(next) && FollowsSync(Apply(l, steps[0]), w', steps[1..], calls[1..])
    else FollowsSync(Apply(l, steps[0]), w, steps[1..], calls)
  }

  /** My entities whose acknowledgement I read while syncing. */
  function Acked(l: Link, steps: seq<Step>): seq<Entity>
    requires Runnable(l, steps)
    decreases steps
  {
    if steps == [] then []
    else AckedBy(l, steps[0]) + Acked(Apply(l, steps[0]), steps[1..])
  }

  function AckedBy(l: Link, s: Step): seq<Entity>
    requires StepEnabled(l, s)
  {
    if s.mine && s.action.Read? && SendingInSync(l.me.state) && l.inn[0].AckPayload? then [l.me.state.entity] else []
  }

  function WantedEntities(subs: Subs, hist: Option<History>, rows: seq<StoredEntity>): seq<Entity> {
    if rows == [] then []
    else
      (if Interest(subs, hist, rows[0].entity, rows[0].stored) then [rows[0].entity] else []) +
      WantedEntities(subs, hist, rows[1..])
  }

  /** The entity that is announced and not acknowledged yet. */
  function InFlight(l: Link): seq<Entity> {
    if SendingInSync(l.me.state) then [l.me.state.entity] else []
  }

  // ---------------------------------------------------------------- after the sync

  function Base(s: State): State {
    match s
    case SendingEntity(_, next) => next
    case ReceivingEntity(_, _, next) => next
    case _ => s
  }

  /** My sync is over for good. */
  predicate Past(p: Peer) {
    Base(p.state) == Idle || (p.role == Client && Base(p.state) == PassiveSyncing) || p.state == Halted || p.state == Closed
    || p.state == Failed
  }

  lemma PastStays(l: Link, s: Step)
    requires StepEnabled(l, s) && Past(l.me)
    ensures Past(Apply(l, s).me) && !IsSyncAction(l, s) && AckedBy(l, s) == []
  {
    hide Sound, Good, ProcessReq, Receiving.Decide, Receiving.Finish, InterestedInEntity, HasEntity, Announceable;
    hide Subscriptions.IsValid, UserValid;
  }

  lemma {:induction false} NothingAfterTheSync(l: Link, w: Worklist, steps: seq<Step>, calls: seq<Fetched>)
    requires Runnable(l, steps) && Past(l.me) && FollowsSync(l, w, steps, calls)
    ensures calls == [] && Acked(l, steps) == []
    decreases steps
  {
    hide Past, StepEnabled, Apply, IsSyncAction, AckedBy;
    if steps != [] {
      PastStays(l, steps[0]);
      NothingAfterTheSync(Apply(l, steps[0]), w, steps[1..], calls);
    }
  }

  // ---------------------------------------------------------------- the sync itself

  ghost predicate OneStep(l: Link, s: Step) {
    StepEnabled(l, s) && InTurn(l)
  }

  lemma StepInv(l: Link, s: Step)
    requires OneStep(l, s)
    ensures InTurn(Apply(l, s)) && Apply(l, s).other.own == l.other.own && Apply(l, s).me.hist == l.me.hist
  {
    hide InTurn, Act, Enabled;
    StepKeepsTurn(l, s);
    StepKeepsSettings(if s.mine then l else Flip(l), s.action);
  }

  lemma StepKeepsSettings(l: Link, a: Action)
    requires Enabled(l, a)
    ensures Act(l, a).me.own == l.me.own && Act(l, a).me.hist == l.me.hist && Act(l, a).other == l.other
  {
    hide Sound, Good, ProcessReq, Receiving.Decide, Receiving.Finish, InterestedInEntity, HasEntity, Announceable;
    hide Subscriptions.IsValid, UserValid, IsUserBanned;
  }

  /** Any step but a sync action: what is in flight stays there or is acknowledged, unless I stop or give up. */
  lemma OtherStep(l: Link, s: Step)
    requires OneStep(l, s) && !IsSyncAction(l, s) && !(s.mine && s.action.Stop?)
    ensures InFlight(l) == AckedBy(l, s) + InFlight(Apply(l, s))
            || (Past(Apply(l, s).me) && AckedBy(l, s) == [])
  {
    hide InTurn, Act, Enabled, Past;
    if s.mine && s.action.Read? {
      ReadingInSync(l, s.action.clock);
    } else if s.mine {
      MyQuietStep(l, s.action);
    } else {
      StepKeepsSettings(Flip(l), s.action);
    }
  }

  lemma MyQuietStep(l: Link, a: Action)
    requires Enabled(l, a) && !a.Read? && !a.Stop? && !IsSyncAction(l, Step(true, a))
    ensures InFlight(Act(l, a)) == InFlight(l)
  {
    hide Sound, InterestedInEntity, Announceable;
  }

  lemma ReadingInSync(l: Link, clock: Receiving.Clock)
    requires InTurn(l) && Enabled(l, Read(clock))
    ensures var s, l' := Step(true, Read(clock)), Act(l, Read(clock));
            InFlight(l) == AckedBy(l, s) + InFlight(l') || (Past(l'.me) && AckedBy(l, s) == [])
  {
    assert Proper(l.me.state) by { hide Turn; }
    hide Sound, ReadPacket, Registered, InTurn;
    if SendingInSync(l.me.state) {
      AnswersWhileSyncing(l);
      AnswerWhileSending(l.me, l.inn[0], clock);
    } else {
      ReadingNeverSends(l.me, l.inn[0], clock);
    }
  }

  /** A peer that sends in its sync hears nothing but answers. */
  lemma AnswersWhileSyncing(l: Link)
    requires InTurn(l) && !Stopped(l) && SendingInSync(l.me.state) && l.inn != []
    ensures l.inn[0].AckPayload? || l.inn[0].ReqPayload?
  {
    SenderIsServing(l);
    hide Registered, InTurn;
  }

  lemma AnswerWhileSending(p: Peer, x: Receiving.Payload, clock: Receiving.Clock)
    requires SendingInSync(p.state) && (x.AckPayload? || x.ReqPayload?)
    ensures var s := ReadPacket(p, x, clock).0.state;
            s == if x.AckPayload? then ActiveSyncing else if s == Failed then Failed else p.state
  {
    hide ProcessReq;
  }

  lemma ReadingNeverSends(p: Peer, x: Receiving.Payload, clock: Receiving.Clock)
    requires Reads(p.state) && !SendingInSync(p.state)
    requires !SendingInSync(Base(p.state))
    ensures !SendingInSync(ReadPacket(p, x, clock).0.state)
  {
    hide ProcessReq, Receiving.Decide, Receiving.Finish, HasEntity, Subscriptions.IsValid, UserValid, IsUserBanned;
  }

  /** What the next sync action does to what is in flight: a wanted entity goes out, any other is
      skipped, unless the filter halts. */
  lemma SyncStep(l: Link, s: Step, w: Worklist, c: Fetched)
    requires OneStep(l, s) && IsSyncAction(l, s) && s.action == ActionFor(ActiveSync.Advance(w, c).1)
    ensures InFlight(l) == [] && AckedBy(l, s) == []
    ensures s.action.Announce? ==>
              || Past(Apply(l, s).me)
              || InFlight(Apply(l, s)) ==
                 if Interest(l.other.own.subs, l.me.hist, s.action.entity, s.action.stored) then [s.action.entity] else []
    ensures s.action.Done? ==> Past(Apply(l, s).me) && InFlight(Apply(l, s)) == []
  {
    hide Sound, Interest, InterestedInEntity, InTurn, Announceable;
    CallLeadsTo(l, w, c);
    SyncerIsAcquainted(l);
    if s.action.Announce? {
      InterestOrHalt(l.me.local.db, l.me.peerSubs, l.me.hist, s.action.entity, s.action.stored);
    }
    hide Act;
  }

  lemma SyncerIsAcquainted(l: Link)
    requires InTurn(l) && !Stopped(l) && l.me.state == ActiveSyncing
    ensures Acquainted(l)
  {
    hide Registered;
  }

  lemma StoppedRunEnds(l: Link, steps: seq<Step>)
    requires Stopped(l) && Runnable(l, steps)
    ensures steps == []
  {
  }

  /** At every moment of a sync, what has been acknowledged is the beginning of what was in flight and
      what the filter lets through of the entities handed over; when Done has been sent it is all of it. */
  lemma {:induction false} AckedFollowsSync(
    l: Link, w: Worklist, steps: seq<Step>, calls: seq<Fetched>, subs: Subs, hist: Option<History>)
    requires InTurn(l) && Runnable(l, steps) && FollowsSync(l, w, steps, calls)
    requires subs == l.other.own.subs && hist == l.me.hist
    ensures var r := ActiveSync.Run(w, calls);
            && Acked(l, steps) <= InFlight(l) + WantedEntities(subs, hist, r.sent)
            && (r.end.DoneSent? ==> Acked(l, steps) == InFlight(l) + WantedEntities(subs, hist, r.sent))
    decreases steps
  {
    hide InTurn, StepEnabled, Apply, AckedBy, InFlight, Past, Interest, ActiveSync.Advance;
    if steps == [] {
    } else if Stops(l, steps[0]) {
      StopEnds(l, w, steps, calls);
    } else {
      var s, l' := steps[0], Apply(l, steps[0]);
      StepInv(l, s);
      if IsSyncAction(l, s) {
        var (w', next) := ActiveSync.Advance(w, calls[0]);
        SyncStep(l, s, w, calls[0]);
        if Past(l'.me) {
          NothingAfterTheSync(l', w', steps[1..], calls[1..]);
        } else {
          AckedFollowsSync(l', w', steps[1..], calls[1..], subs, hist);
          var later := ActiveSync.Run(w', calls[1..]).sent;
          assert next.Send? && ([next.row] + later)[1..] == later;
        }
      } else {
        OtherStep(l, s);
        if Past(l'.me) {
          NothingAfterTheSync(l', w, steps[1..], calls);
        }
        AckedFollowsSync(l', w, steps[1..], calls, subs, hist);
        Reassociate(AckedBy(l, s), InFlight(l'), WantedEntities(subs, hist, ActiveSync.Run(w, calls).sent), Acked(l', steps[1..]));
      }
    }
  }

  predicate Stops(l: Link, s: Step) {
    s.mine && s.action.Stop?
  }

  lemma StopEnds(l: Link, w: Worklist, steps: seq<Step>, calls: seq<Fetched>)
    requires Runnable(l, steps) && steps != [] && Stops(l, steps[0]) && FollowsSync(l, w, steps, calls)
    ensures calls == [] && Acked(l, steps) == []
  {
    StoppedRunEnds(Apply(l, steps[0]), steps[1..]);
  }

  lemma Reassociate(a: seq<Entity>, b: seq<Entity>, c: seq<Entity>, d: seq<Entity>)
    ensures a + (b + c) == a + b + c
    ensures d <= b + c ==> a + d <= a + b + c
  {
    if d <= b + c {
      assert b + c == d + (b + c)[|d|..];
      assert a + b + c == (a + d) + (b + c)[|d|..];
    }
  }

  /** The syncs of both sides, in every run from the handshake on, whatever is announced, stored or given
      up meanwhile: the entities the other side acknowledges are, each once and in order, those of the
      entities handed over by the worklist that the filter lets through. Before Done is sent all of them
      have been acknowledged. */
  lemma SyncIsAcknowledgedExactly(l: Link, steps: seq<Step>, calls: seq<Fetched>)
    requires Connected(l) || Connected(Flip(l))
    requires Runnable(l, steps) && FollowsSync(l, ActiveSync.START, steps, calls)
    ensures var r := ActiveSync.Run(ActiveSync.START, calls);
            var wanted := WantedEntities(l.other.own.subs, l.me.hist, r.sent);
            Acked(l, steps) <= wanted && (r.end.DoneSent? ==> Acked(l, steps) == wanted)
  {
    hide Runnable, FollowsSync, InTurn, Acked, WantedEntities, Honest;
    if Connected(l) {
      ConnectedIsInTurn(l);
    } else {
      ConnectedIsInTurn(Flip(l));
      TurnFlips(l);
    }
    AckedFollowsSync(l, ActiveSync.START, steps, calls, l.other.own.subs, l.me.hist);
    assert InFlight(l) == [];
    var wanted := WantedEntities(l.other.own.subs, l.me.hist, ActiveSync.Run(ActiveSync.START, calls).sent);
    assert [] + wanted == wanted;
  }
}
