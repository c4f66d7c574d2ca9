/** The pool of peers. Each handshaking peer first publishes its user and then scans a copy of the
    pool for another peer with the same user; the peers do this at the same time. */
module PeerPool {
  import opened Topics
  import opened Entities

  /** A peer object, told apart by identity. */
  type PeerRef = nat

  type Address = string

  // ---------------------------------------------------------------- the list of peers

  class PeerList {
    var peers: seq<PeerRef>

    constructor ()
      ensures peers == []
    {
      peers := [];
    }

    method Append(p: PeerRef)
      modifies this
      ensures peers == old(peers) + [p]
    {
      peers := peers + [p];
    }

    /** Swaps the peer with the last one and cuts the list. */
    method Remove(p: PeerRef) returns (found: bool)
      modifies this
      ensures found <==> p in old(peers)
      ensures peers == if p in old(peers) then SwapRemoved(old(peers), p) else old(peers)
    {
      for i := 0 to |peers|
        invariant peers == old(peers) && p !in peers[..i]
      {
        if peers[i] == p {
          assert i == IndexOf(peers, p) by { IndexIsFirst(peers, p, i); }
          var last := |peers| - 1;
          peers := peers[last := peers[i]][i := peers[last]];
          peers := peers[..last];
          return true;
        }
        assert peers[..i + 1] == peers[..i] + [peers[i]];
      }
      assert peers[..|peers|] == peers;
      return false;
    }
  }

  function IndexOf(peers: seq<PeerRef>, p: PeerRef): nat
    requires p in peers
  {
    if peers[0] == p then 0 else 1 + IndexOf(peers[1..], p)
  }

  lemma {:induction false} IndexIsFirst(peers: seq<PeerRef>, p: PeerRef, i: nat)
    requires i < |peers| && peers[i] == p && p !in peers[..i]
    ensures IndexOf(peers, p) == i
  {
    if i > 0 {
      assert peers[0] in peers[..i];
      assert peers[1..][..i - 1] == peers[..i][1..];
      IndexIsFirst(peers[1..], p, i - 1);
    }
  }

  lemma {:induction false} IndexFound(peers: seq<PeerRef>, p: PeerRef)
    requires p in peers
    ensures IndexOf(peers, p) < |peers| && peers[IndexOf(peers, p)] == p
  {
    if peers[0] != p {
      IndexFound(peers[1..], p);
    }
  }

  function SwapRemoved(peers: seq<PeerRef>, p: PeerRef): seq<PeerRef>
    requires p in peers
  {
    IndexFound(peers, p);
    var last := |peers| - 1;
    peers[IndexOf(peers, p) := peers[last]][..last]
  }

  /** Exactly the peer disappears; the order of the others may change. */
  lemma SwapRemovedIsOneLess(peers: seq<PeerRef>, p: PeerRef)
    requires p in peers
    ensures multiset(SwapRemoved(peers, p)) == multiset(peers) - multiset{p}
    ensures forall x | x in SwapRemoved(peers, p) :: x in peers
  {
    IndexFound(peers, p);
    var i, last := IndexOf(peers, p), |peers| - 1;
    var swapped := peers[i := peers[last]][last := p];
    assert multiset(swapped) == multiset(peers);
    assert swapped == SwapRemoved(peers, p) + [p];
    forall x | x in SwapRemoved(peers, p)
      ensures x in peers
    {
      assert x in multiset(peers);
    }
  }

  // ---------------------------------------------------------------- validation, one step at a time

  /** How far a peer has got: its user is not known yet; it is; it is scanning a copy of the pool and
      has come to place `next`; it passed; it found another peer with its user. */
  datatype Phase = Unknown | Known | Scanning(copy: seq<PeerRef>, next: nat) | Passed | Rejected

  datatype PeerInfo = PeerInfo(user: Option<ID>, phase: Phase, addresses: seq<Address>)

  /** `pool` is the shared list; `info` holds every peer ever created. */
  datatype World = World(pool: seq<PeerRef>, info: map<PeerRef, PeerInfo>)

  datatype Step =
    | Append(p: PeerRef)
    | SetUser(p: PeerRef, user: ID)
    | StartScan(p: PeerRef)
    | ScanNext(p: PeerRef)
    | Remove(p: PeerRef)

  /** A peer is appended once. With `inOrder`, that happens before it starts its scan; the code appends
      a peer after having started it, so a very fast handshake could come first. */
  ghost predicate Enabled(inOrder: bool, w: World, s: Step) {
    s.p in w.info &&
    var i := w.info[s.p];
    match s
    case Append(p) => p !in w.pool && (inOrder ==> i.phase == Unknown || i.phase == Known)
    case SetUser(p, _) => i.phase == Unknown
    case StartScan(p) => i.phase == Known && (inOrder ==> p in w.pool)
    case ScanNext(p) => i.phase.Scanning?
    case Remove(p) => p in w.pool
  }

  function Phased(w: World, p: PeerRef, phase: Phase): World
    requires p in w.info
  {
    w.(info := w.info[p := w.info[p].(phase := phase)])
  }

  /** One round of the scan. On a match the other peer takes over the addresses of the rejected one. */
  function Scanned(w: World, p: PeerRef): World
    requires p in w.info && w.info[p].phase.Scanning?
  {
    var i := w.info[p];
    if i.phase.next >= |i.phase.copy| then Phased(w, p, Passed)
    else
      var q := i.phase.copy[i.phase.next];
      if q in w.info && w.info[q].user.Some? && w.info[q].user == i.user && q != p then
        w.(info := w.info[q := w.info[q].(addresses := w.info[q].addresses + i.addresses)]
                         [p := i.(addresses := [], phase := Rejected)])
      else Phased(w, p, Scanning(i.phase.copy, i.phase.next + 1))
  }

  function Apply(w: World, s: Step): World
    requires Enabled(false, w, s)
  {
    match s
    case Append(p) => w.(pool := w.pool + [p])
    case SetUser(p, user) => w.(info := w.info[p := w.info[p].(user := Some(user), phase := Known)])
    case StartScan(p) => Phased(w, p, Scanning(w.pool, 0))
    case ScanNext(p) => Scanned(w, p)
    case Remove(p) => w.(pool := SwapRemoved(w.pool, p))
  }

  ghost predicate Runnable(inOrder: bool, w: World, steps: seq<Step>)
    decreases steps
  {
    steps == [] || (Enabled(inOrder, w, steps[0]) && Runnable(inOrder, Apply(w, steps[0]), steps[1..]))
  }

  function Execute(w: World, steps: seq<Step>): World
    requires Runnable(false, w, steps)
    decreases steps
  {
    if steps == [] then w else Execute(Apply(w, steps[0]), steps[1..])
  }

  // ---------------------------------------------------------------- mutual exclusion

  /** `p` will not look at `q` any more: it has passed, or `q` is not in the rest of its copy. */
  predicate Cleared(w: World, p: PeerRef, q: PeerRef)
    requires p in w.info
  {
    match w.info[p].phase
    case Passed => true
    case Scanning(copy, next) => next > |copy| || q !in copy[next..]
    case _ => false
  }

  predicate SameUser(w: World, p: PeerRef, q: PeerRef)
    requires p in w.info && q in w.info
  {
    w.info[p].user.Some? && w.info[p].user == w.info[q].user
  }

  ghost predicate Inv(w: World) {
    && (forall p | p in w.pool :: p in w.info)
    && (forall p | p in w.info :: w.info[p].phase.Unknown? <==> w.info[p].user.None?)
    && (forall p, q | p in w.pool && q in w.pool && p != q && SameUser(w, p, q) ::
          !(Cleared(w, p, q) && Cleared(w, q, p)))
  }

  /** The scan of `p` moves past `q` only if `q` is not a peer with the same user. */
  lemma ScanNextClears(w: World, p: PeerRef, q: PeerRef)
    requires p in w.info && q in w.info && w.info[p].phase.Scanning? && p != q
    requires SameUser(w, p, q) && Scanned(w, p).info[p].phase != Rejected
    ensures Cleared(Scanned(w, p), p, q) ==> Cleared(w, p, q)
  {
    var copy, next := w.info[p].phase.copy, w.info[p].phase.next;
    if next < |copy| {
      assert copy[next..] == [copy[next]] + copy[next + 1..];
    }
  }

  lemma ScanKeepsInv(w: World, p: PeerRef)
    requires Inv(w) && p in w.info && w.info[p].phase.Scanning?
    ensures Inv(Scanned(w, p))
  {
    var w' := Scanned(w, p);
    forall x, y | x in w'.pool && y in w'.pool && x != y && SameUser(w', x, y)
      ensures !(Cleared(w', x, y) && Cleared(w', y, x))
    {
      assert SameUser(w, x, y);
      if x == p && w'.info[p].phase != Rejected {
        ScanNextClears(w, p, y);
      }
      if y == p && w'.info[p].phase != Rejected {
        ScanNextClears(w, p, x);
      }
    }
  }

  lemma StepKeepsInv(w: World, s: Step)
    requires Inv(w) && Enabled(true, w, s)
    ensures Inv(Apply(w, s))
  {
    var w' := Apply(w, s);
    match s
    case ScanNext(p) => ScanKeepsInv(w, p);
    case Remove(p) => SwapRemovedIsOneLess(w.pool, p);
    case SetUser(p, _) => assert forall x, y | x in w.info && y in w.info && x != p && y != p :: SameUser(w', x, y) == SameUser(w, x, y);
    case Append(p) =>
    case StartScan(p) =>
  }

  lemma {:induction false} RunKeepsInv(w: World, steps: seq<Step>)
    requires Inv(w) && Runnable(true, w, steps)
    ensures Runnable(false, w, steps) && Inv(Execute(w, steps))
    decreases steps
  {
    hide Inv, Apply;
    if steps != [] {
      StepKeepsInv(w, steps[0]);
      RunKeepsInv(Apply(w, steps[0]), steps[1..]);
    }
  }

  /** Nobody is connected and nobody's user is known. */
  ghost predicate Fresh(w: World) {
    w.pool == [] && forall p | p in w.info :: w.info[p].user == None && w.info[p].phase == Unknown
  }

  /** Mutual exclusion: in no interleaving do two peers of the pool with the same user both pass. */
  lemma NoTwoPeersOfOneUser(w: World, steps: seq<Step>, p: PeerRef, q: PeerRef)
    requires Fresh(w) && Runnable(true, w, steps) && Runnable(false, w, steps)
    requires var r := Execute(w, steps);
             p in r.pool && q in r.pool && p != q && p in r.info && q in r.info &&
             r.info[p].phase == Passed && r.info[q].phase == Passed
    ensures var r := Execute(w, steps); r.info[p].user != r.info[q].user
  {
    hide Runnable, Execute;
    RunKeepsInv(w, steps);
    var r := Execute(w, steps);
    assert Cleared(r, p, q) && Cleared(r, q, p);
  }

  // ---------------------------------------------------------------- who is rejected and who passes

  /** A user is known as soon as a peer is past the first phase, and is never changed. */
  ghost predicate UsersKnown(w: World) {
    forall p | p in w.info :: w.info[p].phase.Unknown? <==> w.info[p].user.None?
  }

  /** Two peers of one user. */
  predicate Rivals(w: World, p: PeerRef, q: PeerRef) {
    p != q && p in w.info && q in w.info && SameUser(w, p, q)
  }

  ghost predicate HasRival(w: World, p: PeerRef) {
    exists q :: Rivals(w, p, q)
  }

  ghost predicate RejectedForCause(w: World) {
    UsersKnown(w) && forall p | p in w.info && w.info[p].phase == Rejected :: HasRival(w, p)
  }

  lemma StepKeepsUsers(w: World, s: Step)
    requires UsersKnown(w) && Enabled(false, w, s)
    ensures UsersKnown(Apply(w, s)) && Apply(w, s).info.Keys == w.info.Keys
    ensures forall p | p in w.info && w.info[p].user.Some? :: Apply(w, s).info[p].user == w.info[p].user
  {
  }

  lemma StepKeepsCause(w: World, s: Step)
    requires RejectedForCause(w) && Enabled(false, w, s)
    ensures RejectedForCause(Apply(w, s))
  {
    StepKeepsUsers(w, s);
    var w' := Apply(w, s);
    forall p | p in w'.info && w'.info[p].phase == Rejected
      ensures HasRival(w', p)
    {
      if w.info[p].phase != Rejected {
        var i := w.info[p];
        var q := i.phase.copy[i.phase.next];
        assert Rivals(w', p, q);
      } else {
        var q :| Rivals(w, p, q);
        assert Rivals(w', p, q);
      }
    }
  }

  lemma {:induction false} RunKeepsCause(w: World, steps: seq<Step>)
    requires RejectedForCause(w) && Runnable(false, w, steps)
    ensures RejectedForCause(Execute(w, steps))
    decreases steps
  {
    hide RejectedForCause, Apply;
    if steps != [] {
      StepKeepsCause(w, steps[0]);
      RunKeepsCause(Apply(w, steps[0]), steps[1..]);
    }
  }

  /** In no interleaving, in whatever order, is a peer rejected unless another one has its user. */
  lemma RejectedOnlyForRival(w: World, steps: seq<Step>, p: PeerRef)
    requires Fresh(w) && Runnable(false, w, steps)
    requires p in Execute(w, steps).info && Execute(w, steps).info[p].phase == Rejected
    ensures exists q :: Rivals(Execute(w, steps), p, q)
  {
    hide Runnable, Execute;
    RunKeepsCause(w, steps);
  }

  lemma {:induction false} UsersStay(w: World, steps: seq<Step>)
    requires UsersKnown(w) && Runnable(false, w, steps)
    ensures var r := Execute(w, steps);
            && r.info.Keys == w.info.Keys
            && forall p | p in w.info && w.info[p].user.Some? :: r.info[p].user == w.info[p].user
    decreases steps
  {
    hide UsersKnown, Apply;
    if steps != [] {
      StepKeepsUsers(w, steps[0]);
      UsersStay(Apply(w, steps[0]), steps[1..]);
    }
  }

  /** How many rounds of its scan the peer makes. */
  function Rounds(steps: seq<Step>, p: PeerRef): nat {
    if steps == [] then 0 else (if steps[0] == ScanNext(p) then 1 else 0) + Rounds(steps[1..], p)
  }

  lemma {:induction false} EndStays(w: World, steps: seq<Step>, p: PeerRef)
    requires Runnable(false, w, steps) && p in w.info && (w.info[p].phase == Passed || w.info[p].phase == Rejected)
    ensures p in Execute(w, steps).info && Execute(w, steps).info[p].phase == w.info[p].phase && Rounds(steps, p) == 0
    decreases steps
  {
    if steps != [] {
      EndStays(Apply(w, steps[0]), steps[1..], p);
    }
  }

  /** Whatever the others do meanwhile: a scanning peer whose user no other peer in the rest of its copy gets
      goes on by one place a round, and passes with the round after the last place. */
  lemma {:induction false} UnrivalledPasses(w: World, steps: seq<Step>, p: PeerRef, copy: seq<PeerRef>, next: nat)
    requires UsersKnown(w) && Runnable(false, w, steps) && next <= |copy|
    requires p in w.info && w.info[p].phase == Scanning(copy, next)
    requires forall k | next <= k < |copy| :: !Rivals(Execute(w, steps), p, copy[k])
    ensures p in Execute(w, steps).info && Rounds(steps, p) <= |copy| - next + 1
    ensures Execute(w, steps).info[p].phase ==
            if Rounds(steps, p) > |copy| - next then Passed else Scanning(copy, next + Rounds(steps, p))
    decreases steps
  {
    if steps != [] {
      var s, w' := steps[0], Apply(w, steps[0]);
      StepKeepsUsers(w, s);
      UsersStay(w, steps);
      hide UsersKnown;
      if s == ScanNext(p) {
        if next == |copy| {
          EndStays(w', steps[1..], p);
        } else {
          NoRivalMoves(w, p, copy, next, Execute(w, steps));
          UnrivalledPasses(w', steps[1..], p, copy, next + 1);
        }
      } else {
        OtherStepKeepsScan(w, s, p);
        UnrivalledPasses(w', steps[1..], p, copy, next);
      }
    }
  }

  lemma OtherStepKeepsScan(w: World, s: Step, p: PeerRef)
    requires Enabled(false, w, s) && p in w.info && w.info[p].phase.Scanning? && s != ScanNext(p)
    ensures p in Apply(w, s).info && Apply(w, s).info[p].phase == w.info[p].phase
  {
  }

  lemma NoRivalMoves(w: World, p: PeerRef, copy: seq<PeerRef>, next: nat, r: World)
    requires p in w.info && w.info[p].phase == Scanning(copy, next) && next < |copy| && w.info[p].user.Some?
    requires r.info.Keys == w.info.Keys && forall x | x in w.info && w.info[x].user.Some? :: r.info[x].user == w.info[x].user
    requires !Rivals(r, p, copy[next])
    ensures Scanned(w, p).info[p].phase == Scanning(copy, next + 1)
  {
  }

  /** And one that has a rival with a known user in the rest of its copy never passes: it is rejected at the
      rival's place at the latest. */
  lemma {:induction false} RivalIsMet(w: World, steps: seq<Step>, p: PeerRef, copy: seq<PeerRef>, next: nat, k: nat)
    requires UsersKnown(w) && Runnable(false, w, steps) && next <= k < |copy|
    requires p in w.info && w.info[p].phase == Scanning(copy, next)
    requires Rivals(w, p, copy[k])
    ensures p in Execute(w, steps).info
    ensures var phase := Execute(w, steps).info[p].phase;
            if phase.Scanning? then phase.copy == copy && phase.next == next + Rounds(steps, p) <= k else phase == Rejected
    decreases steps
  {
    if steps != [] {
      var s, w' := steps[0], Apply(w, steps[0]);
      StepKeepsUsers(w, s);
      hide UsersKnown;
      if s == ScanNext(p) {
        assert w'.info[p].phase == Rejected || (w'.info[p].phase == Scanning(copy, next + 1) && next < k);
        if w'.info[p].phase == Rejected {
          EndStays(w', steps[1..], p);
        } else {
          RivalIsMet(w', steps[1..], p, copy, next + 1, k);
        }
      } else {
        OtherStepKeepsScan(w, s, p);
        RivalIsMet(w', steps[1..], p, copy, next, k);
      }
    }
  }

  /** Two peers outside the pool, in the same phase. */
  function Twins(user: Option<ID>, phase: Phase): World {
    World([], map[0 := PeerInfo(user, phase, []), 1 := PeerInfo(user, phase, [])])
  }

  /** Without the order the claim fails: two peers of one user that scan before they are appended see
      an empty pool and both pass. */
  lemma ScanBeforeAppendBreaksExclusion(user: ID)
    ensures var start, steps := Twins(None, Unknown),
              [SetUser(0, user), SetUser(1, user), StartScan(0), StartScan(1), ScanNext(0), ScanNext(1), Append(0), Append(1)];
            && Fresh(start) && Runnable(false, start, steps)
            && Execute(start, steps) == Twins(Some(user), Passed).(pool := [0, 1])
  {
    TwinsGetUsers(user);
    TwinsStartScan(user);
    TwinsPass(user);
    TwinsAreAppended(user);
    hide Runnable, Execute, Apply, Enabled;
    var set2, start2, scan2, append2 :=
      [SetUser(0, user), SetUser(1, user)], [StartScan(0), StartScan(1)], [ScanNext(0), ScanNext(1)], [Append(0), Append(1)];
    RunBoth(Twins(Some(user), Scanning([], 0)), scan2, append2);
    RunBoth(Twins(Some(user), Known), start2, scan2 + append2);
    RunBoth(Twins(None, Unknown), set2, start2 + (scan2 + append2));
    assert set2 + (start2 + (scan2 + append2)) ==
           [SetUser(0, user), SetUser(1, user), StartScan(0), StartScan(1), ScanNext(0), ScanNext(1), Append(0), Append(1)];
  }

  /** Two peers in these phases, both in the pool. */
  function Pair(user: Option<ID>, first: Phase, second: Phase): World {
    World([0, 1], map[0 := PeerInfo(user, first, []), 1 := PeerInfo(user, second, [])])
  }

  /** The scans do not decide between rivals: with the order kept, two peers of one user that scan at the
      same time can each meet the other, and then neither stays. */
  lemma BothRivalsCanBeRejected(user: ID)
    ensures var start, steps := Twins(None, Unknown),
              [Append(0), Append(1), SetUser(0, user), SetUser(1, user), StartScan(0), StartScan(1),
               ScanNext(0), ScanNext(0), ScanNext(1)];
            && Fresh(start) && Runnable(true, start, steps) && Runnable(false, start, steps)
            && Execute(start, steps) == Pair(Some(user), Rejected, Rejected)
  {
    var u, copy := Some(user), [0, 1];
    var end := Pair(u, Rejected, Rejected);
    BothMeet(user);
    BothStartToScan(user);
    BothGetUsers(user);
    hide Enabled, Apply, Fresh;
    var s9 := [ScanNext(1)];
    RunOne(Pair(u, Rejected, Scanning(copy, 0)), ScanNext(1), end, [], end);
    RunOne(Pair(u, Scanning(copy, 1), Scanning(copy, 0)), ScanNext(0), Pair(u, Rejected, Scanning(copy, 0)), s9, end);
    var s8 := [ScanNext(0)] + s9;
    RunOne(Pair(u, Scanning(copy, 0), Scanning(copy, 0)), ScanNext(0), Pair(u, Scanning(copy, 1), Scanning(copy, 0)), s8, end);
    var s7 := [ScanNext(0)] + s8;
    RunOne(Pair(u, Scanning(copy, 0), Known), StartScan(1), Pair(u, Scanning(copy, 0), Scanning(copy, 0)), s7, end);
    var s6 := [StartScan(1)] + s7;
    RunOne(Pair(u, Known, Known), StartScan(0), Pair(u, Scanning(copy, 0), Known), s6, end);
    var s5 := [StartScan(0)] + s6;
    RunOne(Half(u), SetUser(1, user), Pair(u, Known, Known), s5, end);
    var s4 := [SetUser(1, user)] + s5;
    RunOne(Pair(None, Unknown, Unknown), SetUser(0, user), Half(u), s4, end);
    var s3 := [SetUser(0, user)] + s4;
    RunOne(Twins(None, Unknown).(pool := [0]), Append(1), Pair(None, Unknown, Unknown), s3, end);
    var s2 := [Append(1)] + s3;
    RunOne(Twins(None, Unknown), Append(0), Twins(None, Unknown).(pool := [0]), s2, end);
    assert [Append(0)] + s2 ==
           [Append(0), Append(1), SetUser(0, user), SetUser(1, user), StartScan(0), StartScan(1),
            ScanNext(0), ScanNext(0), ScanNext(1)];
    hide Runnable, Execute;
    assert Fresh(Twins(None, Unknown)) by { NobodyIsKnown(); }
  }

  lemma NobodyIsKnown()
    ensures Fresh(Twins(None, Unknown))
  {
  }

  /** The user of the first peer is known. */
  function Half(user: Option<ID>): World {
    World([0, 1], map[0 := PeerInfo(user, Known, []), 1 := PeerInfo(None, Unknown, [])])
  }

  ghost predicate Leads(w: World, s: Step, w': World) {
    Enabled(true, w, s) && Apply(w, s) == w'
  }

  lemma BothMeet(user: ID)
    ensures var u, copy := Some(user), [0, 1];
            && Leads(Pair(u, Scanning(copy, 0), Scanning(copy, 0)), ScanNext(0), Pair(u, Scanning(copy, 1), Scanning(copy, 0)))
            && Leads(Pair(u, Scanning(copy, 1), Scanning(copy, 0)), ScanNext(0), Pair(u, Rejected, Scanning(copy, 0)))
            && Leads(Pair(u, Rejected, Scanning(copy, 0)), ScanNext(1), Pair(u, Rejected, Rejected))
  {
    var none: seq<Address> := [];
    assert none + none == none;
    var w := Pair(Some(user), Scanning([0, 1], 1), Scanning([0, 1], 0));
    assert Apply(w, ScanNext(0)).info == Pair(Some(user), Rejected, Scanning([0, 1], 0)).info;
  }

  lemma BothStartToScan(user: ID)
    ensures var u, copy := Some(user), [0, 1];
            && Leads(Pair(u, Known, Known), StartScan(0), Pair(u, Scanning(copy, 0), Known))
            && Leads(Pair(u, Scanning(copy, 0), Known), StartScan(1), Pair(u, Scanning(copy, 0), Scanning(copy, 0)))
  {
  }

  lemma BothGetUsers(user: ID)
    ensures var u := Some(user);
            && Leads(Twins(None, Unknown), Append(0), Twins(None, Unknown).(pool := [0]))
            && Leads(Twins(None, Unknown).(pool := [0]), Append(1), Pair(None, Unknown, Unknown))
            && Leads(Pair(None, Unknown, Unknown), SetUser(0, user), Half(u))
            && Leads(Half(u), SetUser(1, user), Pair(u, Known, Known))
  {
  }

  lemma RunOne(w: World, s: Step, w': World, rest: seq<Step>, end: World)
    requires Leads(w, s, w') && Runnable(true, w', rest) && Runnable(false, w', rest) && Execute(w', rest) == end
    ensures var steps := [s] + rest;
            Runnable(true, w, steps) && Runnable(false, w, steps) && Execute(w, steps) == end
  {
    var steps := [s] + rest;
    assert steps[1..] == rest && steps[0] == s;
    assert Enabled(false, w, s);
    hide Apply;
  }

  lemma TwinsGetUsers(user: ID)
    ensures var w, steps := Twins(None, Unknown), [SetUser(0, user), SetUser(1, user)];
            Runnable(false, w, steps) && Execute(w, steps) == Twins(Some(user), Known)
  {
    var w := Twins(None, Unknown);
    RunTwo(w, SetUser(0, user), SetUser(1, user));
    hide Runnable, Execute;
  }

  lemma TwinsStartScan(user: ID)
    ensures var w, steps := Twins(Some(user), Known), [StartScan(0), StartScan(1)];
            Runnable(false, w, steps) && Execute(w, steps) == Twins(Some(user), Scanning([], 0))
  {
    RunTwo(Twins(Some(user), Known), StartScan(0), StartScan(1));
    hide Runnable, Execute;
  }

  lemma TwinsPass(user: ID)
    ensures var w, steps := Twins(Some(user), Scanning([], 0)), [ScanNext(0), ScanNext(1)];
            Runnable(false, w, steps) && Execute(w, steps) == Twins(Some(user), Passed)
  {
    RunTwo(Twins(Some(user), Scanning([], 0)), ScanNext(0), ScanNext(1));
    hide Runnable, Execute;
  }

  lemma TwinsAreAppended(user: ID)
    ensures var w, steps := Twins(Some(user), Passed), [Append(0), Append(1)];
            Runnable(false, w, steps) && Execute(w, steps) == w.(pool := [0, 1])
  {
    RunTwo(Twins(Some(user), Passed), Append(0), Append(1));
    hide Runnable, Execute;
  }

  lemma RunTwo(w: World, a: Step, b: Step)
    requires Enabled(false, w, a) && Enabled(false, Apply(w, a), b)
    ensures Runnable(false, w, [a, b]) && Execute(w, [a, b]) == Apply(Apply(w, a), b)
  {
    hide Enabled, Apply;
    assert [a, b][1..] == [b] && [b][1..] == [];
    assert Runnable(false, Apply(w, a), [b]);
    assert Execute(Apply(w, a), [b]) == Apply(Apply(w, a), b);
  }

  lemma {:induction false} RunBoth(w: World, first: seq<Step>, second: seq<Step>)
    requires Runnable(false, w, first) && Runnable(false, Execute(w, first), second)
    ensures Runnable(false, w, first + second) && Execute(w, first + second) == Execute(Execute(w, first), second)
    decreases first
  {
    hide Enabled, Apply;
    if first == [] {
      assert first + second == second;
    } else {
      RunBoth(Apply(w, first[0]), first[1..], second);
      assert (first + second)[1..] == first[1..] + second;
    }
  }

  // ---------------------------------------------------------------- addresses

  function Holds(info: map<PeerRef, PeerInfo>, p: PeerRef): multiset<Address> {
    if p in info then multiset(info[p].addresses) else multiset{}
  }

  /** The addresses of a list of different peers. */
  function AllAddresses(w: World, peers: seq<PeerRef>): multiset<Address> {
    if peers == [] then multiset{} else Holds(w.info, peers[0]) + AllAddresses(w, peers[1..])
  }

  lemma {:induction false} UntouchedAddresses(w: World, w': World, peers: seq<PeerRef>)
    requires forall x | x in peers :: Holds(w.info, x) == Holds(w'.info, x)
    ensures AllAddresses(w, peers) == AllAddresses(w', peers)
  {
    if peers != [] {
      UntouchedAddresses(w, w', peers[1..]);
    }
  }

  /** The list without one peer. */
  function Others(peers: seq<PeerRef>, p: PeerRef): seq<PeerRef> {
    if peers == [] then []
    else if peers[0] == p then Others(peers[1..], p)
    else [peers[0]] + Others(peers[1..], p)
  }

  lemma {:induction false} OthersMembers(peers: seq<PeerRef>, p: PeerRef, x: PeerRef)
    ensures x in Others(peers, p) <==> x in peers && x != p
  {
    if peers != [] {
      OthersMembers(peers[1..], p, x);
    }
  }

  lemma {:induction false} OthersDifferent(peers: seq<PeerRef>, p: PeerRef)
    requires forall i, j | 0 <= i < j < |peers| :: peers[i] != peers[j]
    ensures var o := Others(peers, p); forall i, j | 0 <= i < j < |o| :: o[i] != o[j]
  {
    if peers != [] {
      OthersDifferent(peers[1..], p);
      OthersMembers(peers[1..], p, peers[0]);
    }
  }

  lemma {:induction false} AddressesWithout(w: World, peers: seq<PeerRef>, p: PeerRef)
    requires p in peers && forall i, j | 0 <= i < j < |peers| :: peers[i] != peers[j]
    ensures AllAddresses(w, peers) == Holds(w.info, p) + AllAddresses(w, Others(peers, p))
  {
    var rest := peers[1..];
    if peers[0] == p {
      AbsentIsNoOther(rest, p);
    } else {
      AddressesWithout(w, rest, p);
      assert Others(peers, p)[1..] == Others(rest, p);
    }
  }

  lemma {:induction false} AbsentIsNoOther(peers: seq<PeerRef>, p: PeerRef)
    requires p !in peers
    ensures Others(peers, p) == peers
  {
    if peers != [] {
      AbsentIsNoOther(peers[1..], p);
    }
  }

  /** Handing addresses from one peer to another keeps the whole. */
  lemma HandoverConserves(w: World, w': World, p: PeerRef, q: PeerRef, peers: seq<PeerRef>)
    requires p != q && p in peers && q in peers && forall i, j | 0 <= i < j < |peers| :: peers[i] != peers[j]
    requires Holds(w'.info, p) == multiset{} && Holds(w'.info, q) == Holds(w.info, q) + Holds(w.info, p)
    requires forall x | x in peers && x != p && x != q :: Holds(w'.info, x) == Holds(w.info, x)
    ensures AllAddresses(w', peers) == AllAddresses(w, peers)
  {
    hide Holds, AllAddresses, Others;
    var others := Others(peers, p);
    OthersMembers(peers, p, q);
    OthersDifferent(peers, p);
    AddressesWithout(w, peers, p);
    AddressesWithout(w', peers, p);
    AddressesWithout(w, others, q);
    AddressesWithout(w', others, q);
    forall x | x in Others(others, q)
      ensures Holds(w'.info, x) == Holds(w.info, x)
    {
      OthersMembers(others, q, x);
      OthersMembers(peers, p, x);
    }
    UntouchedAddresses(w, w', Others(others, q));
  }

  /** A scan never loses or invents an address: what the rejected peer gives up, the other takes. */
  lemma ScanConservesAddresses(w: World, p: PeerRef, peers: seq<PeerRef>)
    requires p in w.info && w.info[p].phase.Scanning?
    requires (forall x | x in w.info :: x in peers) && forall i, j | 0 <= i < j < |peers| :: peers[i] != peers[j]
    ensures AllAddresses(Scanned(w, p), peers) == AllAddresses(w, peers)
  {
    var w' := Scanned(w, p);
    if w'.info[p].phase != Rejected {
      UntouchedAddresses(w, w', peers);
    } else {
      var q := w.info[p].phase.copy[w.info[p].phase.next];
      HandoverConserves(w, w', p, q, peers);
    }
  }

  /** Over every run: whatever addresses a peer has come from itself or from peers of the same user. */
  lemma {:induction false} AddressesStayWithUser(w: World, steps: seq<Step>, p: PeerRef, a: Address)
    requires UsersKnown(w) && Runnable(false, w, steps)
    requires p in Execute(w, steps).info && a in Execute(w, steps).info[p].addresses
    ensures exists q | q in w.info && q in Execute(w, steps).info ::
              a in w.info[q].addresses && (q == p || Rivals(Execute(w, steps), p, q))
    decreases steps
  {
    var r := Execute(w, steps);
    if steps != [] {
      var s, w' := steps[0], Apply(w, steps[0]);
      StepKeepsUsers(w, s);
      UsersStay(w', steps[1..]);
      AddressesStayWithUser(w', steps[1..], p, a);
      var q :| q in w'.info && q in r.info && a in w'.info[q].addresses && (q == p || Rivals(r, p, q));
      hide Runnable, Execute, UsersKnown;
      var x := StepAddresses(w, s, q, a);
      assert x == p || Rivals(r, p, x);
    }
  }

  lemma StepAddresses(w: World, s: Step, q: PeerRef, a: Address) returns (x: PeerRef)
    requires Enabled(false, w, s) && q in Apply(w, s).info && a in Apply(w, s).info[q].addresses
    ensures x in w.info && a in w.info[x].addresses
    ensures x == q || (q in w.info && SameUser(w, q, x))
  {
    x := if a in w.info[q].addresses then q else s.p;
  }
}
