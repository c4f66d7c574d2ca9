/** What the owner's view needs of the database, that users are only linked to bans and messages only to
    removals, over whole runs: of any number of receiving peers, and of two peers on a connection. */
module Links {
  import opened Topics
  import opened Subscriptions
  import opened Entities
  import opened Databases
  import opened Views
  import opened Receiving
  import opened ReceivingRuns
  import opened Sending
  import opened HonestExchange
  import opened Protocol
  import opened Turns
  import Commits

  // ---------------------------------------------------------------- many peers

  lemma CommitStepKeepsLinksTyped(own: Owner, n: Commits.Node, s: Commits.Step)
    requires Commits.Inv(own, n) && Commits.Enabled(own, n, s) && LinksTyped(n.db)
    ensures LinksTyped(Commits.Apply(own, n, s).db)
  {
    hide LinksTyped, Sound, PutEntity, Authentic, CheckPending, Commits.MessageAttached, Commits.UserPresent, BatchClosed;
    match s {
      case Check(_, _) =>
      case InsertNext(peer) =>
        assert n.flights[peer][0] in n.flights[peer];
        PutKeepsLinksTyped(n.db, n.flights[peer][0]);
      case Introduce(u) =>
        UserIsAuthentic(u);
        PutKeepsLinksTyped(n.db, UserEntity(u));
      case StoreBan(now, target) =>
        BanIsAuthentic(own, now, target);
        PutKeepsLinksTyped(n.db, OperationEntity(BanOperation(own, now, target)));
      case Post(e) => PutKeepsLinksTyped(n.db, e);
    }
  }

  lemma BanIsAuthentic(own: Owner, now: Time, target: ID)
    requires target != ZeroID
    ensures Authentic(OperationEntity(BanOperation(own, now, target)))
  {
  }

  /** However many peers receive, introduce themselves and are banned, in any order of the single
      insertions, every operation is linked to what its type is about. */
  lemma {:induction false} CommitRunKeepsLinksTyped(own: Owner, n: Commits.Node, steps: seq<Commits.Step>)
    requires Commits.Inv(own, n) && Commits.Runnable(own, n, steps) && LinksTyped(n.db)
    ensures LinksTyped(Commits.Execute(own, n, steps).db)
    decreases steps
  {
    hide Commits.Inv, Commits.Enabled, Commits.Apply, LinksTyped;
    if steps != [] {
      CommitStepKeepsLinksTyped(own, n, steps[0]);
      Commits.StepKeepsInv(own, n, steps[0]);
      CommitRunKeepsLinksTyped(own, Commits.Apply(own, n, steps[0]), steps[1..]);
    }
  }

  // ---------------------------------------------------------------- two peers

  ghost predicate WritesTyped(a: Action) {
    a.OtherWriter? ==> LinksTyped(a.db)
  }

  lemma BanKeepsLinksTyped(own: Owner, now: Time, local: Local, target: ID)
    requires Sound(local.db) && LinksTyped(local.db)
    ensures LinksTyped(Ban(own, now, local, target).local.db)
  {
    var e := OperationEntity(BanOperation(own, now, target));
    hide LinksTyped, Sound;
    if OperationValid(e.operation) {
      PutKeepsLinksTyped(local.db, e);
    }
  }

  lemma FinishKeepsLinksTyped(own: Owner, sender: ID, clock: Clock, local: Local, pending: seq<Entity>)
    requires Sound(local.db) && LinksTyped(local.db) && pending != [] && !Decide(local.db, own, pending).Request?
    ensures LinksTyped(Finish(own, sender, clock, local, pending, Decide(local.db, own, pending)).0.db)
  {
    hide Sound, LinksTyped, PutAll, Ban, CheckPending;
    var d := Decide(local.db, own, pending);
    match d {
      case Commit =>
        CommitDecided(local.db, own, pending);
        Commits.MatchedBatchAuthentic(local.db, own, pending);
        PutAllKeepsLinksTyped(local.db, pending);
      case Drop(None) =>
      case Drop(Some(id)) => BanKeepsLinksTyped(own, clock.first, local, id);
      case Accuse(None) => BanKeepsLinksTyped(own, clock.first, local, sender);
      case Accuse(Some(author)) =>
        var ban := Ban(own, clock.first, local, author).local;
        BanKeepsLinksTyped(own, clock.first, local, author);
        BanStaysSound(own, clock.first, local, author);
        BanKeepsLinksTyped(own, clock.second, ban, sender);
    }
  }

  lemma ReadingKeepsLinksTyped(p: Peer, x: Payload, clock: Clock)
    requires Reads(p.state) && Registered(p) && LinksTyped(p.local.db)
    ensures LinksTyped(ReadPacket(p, x, clock).0.local.db)
  {
    hide LinksTyped, Sound, UserValid, Subscriptions.IsValid, ProcessReq, IsUserBanned, HasEntity, Decide, Finish;
    if p.state == AwaitHello {
      UserIsAuthentic(p.peerUser);
      PutKeepsLinksTyped(p.local.db, UserEntity(p.peerUser));
    } else if p.state.ReceivingEntity? && x.EntityPayload? {
      var pending := p.state.pending + [x.entity];
      if !Decide(p.local.db, p.own, pending).Request? {
        FinishKeepsLinksTyped(p.own, p.peerUser.id, clock, p.local, pending);
      }
    }
  }

  lemma ActKeepsLinksTyped(l: Link, a: Action)
    requires InTurn(l) && Enabled(l, a) && WritesTyped(a) && LinksTyped(l.me.local.db)
    ensures LinksTyped(Act(l, a).me.local.db)
  {
    hide LinksTyped, Turn, Registered, ReadPacket, InterestedInEntity, Announceable;
    if a.Read? {
      ReadingKeepsLinksTyped(l.me, l.inn[0], a.clock);
    }
    hide Sound;
  }

  lemma {:induction false} RunKeepsLinksTyped(l: Link, steps: seq<Step>)
    requires InTurn(l) && Runnable(l, steps) && (forall s | s in steps :: WritesTyped(s.action))
    requires LinksTyped(l.me.local.db) && LinksTyped(l.other.local.db)
    ensures LinksTyped(Execute(l, steps).me.local.db) && LinksTyped(Execute(l, steps).other.local.db)
    decreases steps
  {
    hide InTurn, Act, Enabled, LinksTyped, WritesTyped;
    if steps != [] {
      var s := steps[0];
      var own := if s.mine then l else Flip(l);
      assert s in steps;
      assert forall t | t in steps[1..] :: t in steps;
      TurnFlips(l);
      ActKeepsLinksTyped(own, s.action);
      ActKeepsOthers(own, s.action);
      StepKeepsTurn(l, s);
      RunKeepsLinksTyped(Apply(l, s), steps[1..]);
    }
  }

  /** Whatever happens between two peers, as long as the other writers keep the links typed, both views
      can be computed at any moment. */
  lemma LinksStayTyped(l: Link, steps: seq<Step>)
    requires Connected(l) && Runnable(l, steps) && (forall s | s in steps :: WritesTyped(s.action))
    requires LinksTyped(l.me.local.db) && LinksTyped(l.other.local.db)
    ensures LinksTyped(Execute(l, steps).me.local.db) && LinksTyped(Execute(l, steps).other.local.db)
  {
    hide Connected, Runnable, Execute, InTurn, LinksTyped, WritesTyped;
    ConnectedIsInTurn(l);
    RunKeepsLinksTyped(l, steps);
  }
}
