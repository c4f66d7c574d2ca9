/** Discussion threads as values: the tree a flat table of messages describes, and what moderation
    leaves of it. */
module Threads {
  import opened Topics
  import opened Entities
  import opened Databases
  import opened Lists
  import opened Views

  datatype Tree = Tree(msg: Message, kids: seq<Tree>)

  // ---------------------------------------------------------------- the table and paths in it

  function DateWritten(m: Message): int {
    m.content.dateWritten
  }

  /** The rows that name a message as their parent, by date. */
  function Replies(rows: seq<Message>, id: ID): seq<Message> {
    Sort(DateWritten, Filter((m: Message) => m.content.parent == id, rows))
  }

  /** The identifier is the key of the table. */
  ghost predicate Keyed(rows: seq<Message>) {
    && Distinct(rows)
    && (forall a, b | a in rows && b in rows && a.id == b.id :: a == b)
    && forall m | m in rows :: m.id != ZeroID
  }

  /** Each message of the path answers the one before it. */
  ghost predicate IsPath(rows: seq<Message>, path: seq<Message>) {
    && path != []
    && (forall m | m in path :: m in rows)
    && forall i | 0 < i < |path| :: path[i].content.parent == path[i - 1].id
  }

  function Last(path: seq<Message>): Message
    requires path != []
  {
    path[|path| - 1]
  }

  /** A thread can be read from a message without a parent in any table, whatever its parent pointers
      are, and from any message when identifiers are hashes of the content. */
  ghost predicate Anchored(rows: seq<Message>, m: Message) {
    m.content.parent == ZeroID || forall row | row in rows :: row.id == MessageHash(row.content)
  }

  ghost predicate Thread(rows: seq<Message>, path: seq<Message>) {
    Keyed(rows) && IsPath(rows, path) && Anchored(rows, path[0])
  }

  /** Parents are unique, so two paths to the same message agree from the end on. */
  lemma {:induction false} SameEnd(rows: seq<Message>, p: seq<Message>, q: seq<Message>, i: nat)
    requires Keyed(rows) && IsPath(rows, p) && IsPath(rows, q) && Last(p) == Last(q)
    requires i < |p| && i < |q|
    ensures p[|p| - 1 - i] == q[|q| - 1 - i]
  {
    if i > 0 {
      SameEnd(rows, p, q, i - 1);
      assert p[|p| - i].content.parent == q[|q| - i].content.parent;
      assert p[|p| - 1 - i] in p && q[|q| - 1 - i] in q;
    }
  }

  lemma {:induction false} DepthsAlongPath(rows: seq<Message>, path: seq<Message>, i: nat)
    requires Keyed(rows) && IsPath(rows, path) && i < |path|
    requires forall row | row in rows :: row.id == MessageHash(row.content)
    ensures Depth(path[i].id) == Depth(path[0].id) + i
  {
    if i > 0 {
      DepthsAlongPath(rows, path, i - 1);
      assert path[i] in path && path[i - 1] in path;
    }
  }

  /** No message repeats on a path: going back from a repetition would give the first message a parent. */
  lemma PathIsDistinct(rows: seq<Message>, path: seq<Message>)
    requires Thread(rows, path)
    ensures forall i, j | 0 <= i < j < |path| :: path[i].id != path[j].id
  {
    forall i, j | 0 <= i < j < |path|
      ensures path[i].id != path[j].id
    {
      assert path[i] in path && path[j] in path;
      if path[i].id == path[j].id {
        if path[0].content.parent == ZeroID {
          assert path[j - i - 1] in path;
          SameEnd(rows, path[..i + 1], path[..j + 1], i);
        } else {
          DepthsAlongPath(rows, path, i);
          DepthsAlongPath(rows, path, j);
        }
      }
    }
  }

  /** Two paths of one thread to the same message are the same path. */
  lemma PathIsUnique(rows: seq<Message>, p: seq<Message>, q: seq<Message>)
    requires Thread(rows, p) && Thread(rows, q) && p[0] == q[0] && Last(p) == Last(q)
    ensures p == q
  {
    PathIsDistinct(rows, p);
    PathIsDistinct(rows, q);
    if |p| <= |q| {
      SameEnd(rows, p, q, |p| - 1);
    } else {
      SameEnd(rows, p, q, |q| - 1);
    }
    forall i | 0 <= i < |p|
      ensures p[i] == q[i]
    {
      SameEnd(rows, p, q, |p| - 1 - i);
    }
  }

  // ---------------------------------------------------------------- building

  function Ids(messages: seq<Message>): set<ID> {
    set m | m in messages :: m.id
  }

  /** The rows not on the path yet: what makes the recursion over replies end. */
  function Unvisited(rows: seq<Message>, path: seq<Message>): set<ID> {
    Ids(rows) - Ids(path)
  }

  ghost predicate AreReplies(rows: seq<Message>, path: seq<Message>, kids: seq<Message>)
    requires path != []
  {
    forall k | k in kids :: k in rows && k.content.parent == Last(path).id
  }

  lemma StepDown(rows: seq<Message>, path: seq<Message>, k: Message)
    requires Thread(rows, path) && AreReplies(rows, path, [k])
    ensures Thread(rows, path + [k])
    ensures Unvisited(rows, path + [k]) < Unvisited(rows, path)
  {
    var longer := path + [k];
    assert k in [k];
    PathIsDistinct(rows, longer);
    assert Ids(longer) == Ids(path) + {k.id};
    forall m | m in path
      ensures m.id != k.id
    {
      var i :| 0 <= i < |path| && path[i] == m;
      assert longer[i] == m && longer[|path|] == k;
    }
    assert k.id in Unvisited(rows, path);
  }

  lemma RepliesMembers(rows: seq<Message>, id: ID, x: Message)
    ensures x in Replies(rows, id) <==> x in rows && x.content.parent == id
  {
    var selected := (m: Message) => m.content.parent == id;
    SortMembers(DateWritten, Filter(selected, rows), x);
    FilterMembers(selected, rows, x);
  }

  lemma RepliesAreReplies(rows: seq<Message>, path: seq<Message>)
    requires path != []
    ensures AreReplies(rows, path, Replies(rows, Last(path).id))
  {
    forall k | k in Replies(rows, Last(path).id)
      ensures k in rows && k.content.parent == Last(path).id
    {
      RepliesMembers(rows, Last(path).id, k);
    }
  }

  /** The subtree below the last message of the path. */
  ghost function Build(rows: seq<Message>, path: seq<Message>): Tree
    requires Thread(rows, path)
    decreases Unvisited(rows, path), 1, 0
  {
    RepliesAreReplies(rows, path);
    Tree(Last(path), Forest(rows, path, Replies(rows, Last(path).id)))
  }

  ghost function Forest(rows: seq<Message>, path: seq<Message>, kids: seq<Message>): (r: seq<Tree>)
    requires Thread(rows, path) && AreReplies(rows, path, kids)
    ensures |r| == |kids|
    decreases Unvisited(rows, path), 0, |kids|
  {
    if kids == [] then []
    else
      var last := |kids| - 1;
      StepDown(rows, path, kids[last]);
      Forest(rows, path, kids[..last]) + [Build(rows, path + [kids[last]])]
  }

  // ---------------------------------------------------------------- what a thread holds

  /** How many nodes hold the message. */
  function Count(t: Tree, x: Message): nat
    decreases t
  {
    (if t.msg == x then 1 else 0) + CountAll(t.kids, x)
  }

  function CountAll(ts: seq<Tree>, x: Message): nat
    decreases ts
  {
    if ts == [] then 0 else CountAll(ts[..|ts| - 1], x) + Count(ts[|ts| - 1], x)
  }

  /** The message is reached by going down from the path. */
  ghost predicate Below(rows: seq<Message>, path: seq<Message>, x: Message) {
    exists p :: IsPath(rows, p) && path <= p && Last(p) == x
  }

  /** A message is below one reply at most. */
  lemma BelowOneReply(rows: seq<Message>, path: seq<Message>, a: Message, b: Message, x: Message)
    requires Thread(rows, path) && Below(rows, path + [a], x) && Below(rows, path + [b], x)
    ensures a == b
  {
    var p: seq<Message> :| IsPath(rows, p) && path + [a] <= p && Last(p) == x;
    var q: seq<Message> :| IsPath(rows, q) && path + [b] <= q && Last(q) == x;
    assert (path + [a])[0] == p[0] && (path + [b])[0] == q[0];
    PathIsUnique(rows, p, q);
    assert (path + [a])[|path|] == p[|path|] && (path + [b])[|path|] == q[|path|];
  }

  /** Below a message are the message itself and what is below its replies. */
  lemma BelowSplits(rows: seq<Message>, path: seq<Message>, x: Message)
    requires Thread(rows, path)
    ensures Below(rows, path, x) <==>
            x == Last(path) || exists k | k in Replies(rows, Last(path).id) :: Below(rows, path + [k], x)
    ensures x == Last(path) ==> forall k | k in Replies(rows, Last(path).id) :: !Below(rows, path + [k], x)
  {
    if Below(rows, path, x) && x != Last(path) {
      var p: seq<Message> :| IsPath(rows, p) && path <= p && Last(p) == x;
      var k := p[|path|];
      assert k in p && k.content.parent == p[|path| - 1].id;
      RepliesMembers(rows, Last(path).id, k);
      assert path + [k] <= p;
    }
    forall k | k in Replies(rows, Last(path).id) && Below(rows, path + [k], x)
      ensures Below(rows, path, x) && x != Last(path)
    {
      var p: seq<Message> :| IsPath(rows, p) && path + [k] <= p && Last(p) == x;
      assert path <= path + [k];
      assert (path + [k])[0] == p[0];
      PathIsDistinct(rows, p);
      assert p[|path| - 1] == Last(path);
    }
    if x == Last(path) {
      assert IsPath(rows, path) && path <= path;
    }
  }

  /** Exactly the message and its transitive replies are in the thread, each of them once. */
  lemma {:induction false} ThreadHoldsEachReplyOnce(rows: seq<Message>, path: seq<Message>, x: Message)
    requires Thread(rows, path)
    ensures Count(Build(rows, path), x) == if Below(rows, path, x) then 1 else 0
    decreases Unvisited(rows, path), 1, 0
  {
    var kids := Replies(rows, Last(path).id);
    RepliesAreReplies(rows, path);
    RepliesAreDistinct(rows, Last(path).id);
    ForestHoldsEachReplyOnce(rows, path, kids, x);
    BelowSplits(rows, path, x);
  }

  lemma RepliesAreDistinct(rows: seq<Message>, id: ID)
    requires Keyed(rows)
    ensures Distinct(Replies(rows, id))
  {
    var selected := (m: Message) => m.content.parent == id;
    FilterDistinct(selected, rows);
    SortDistinct(DateWritten, Filter(selected, rows));
  }

  lemma {:induction false} ForestHoldsEachReplyOnce(rows: seq<Message>, path: seq<Message>, kids: seq<Message>, x: Message)
    requires Thread(rows, path) && AreReplies(rows, path, kids) && Distinct(kids)
    ensures CountAll(Forest(rows, path, kids), x) == if exists k | k in kids :: Below(rows, path + [k], x) then 1 else 0
    decreases Unvisited(rows, path), 0, |kids|
  {
    if kids != [] {
      var init, k := kids[..|kids| - 1], kids[|kids| - 1];
      assert kids == init + [k];
      StepDown(rows, path, k);
      ForestHoldsEachReplyOnce(rows, path, init, x);
      ThreadHoldsEachReplyOnce(rows, path + [k], x);
      var rest := Forest(rows, path, init);
      assert (rest + [Build(rows, path + [k])])[..|rest|] == rest;
      if Below(rows, path + [k], x) {
        forall a | a in init && Below(rows, path + [a], x)
          ensures false
        {
          BelowOneReply(rows, path, a, k, x);
        }
      }
    }
  }

  /** Below each message are answers to it, by date, all the way down. */
  ghost predicate Arranged(t: Tree)
    decreases t
  {
    && (forall k | k in t.kids :: k.msg.content.parent == t.msg.id && Arranged(k))
    && (forall i, j | 0 <= i < j < |t.kids| :: t.kids[i].msg.content.dateWritten <= t.kids[j].msg.content.dateWritten)
  }

  lemma {:induction false} ThreadIsArranged(rows: seq<Message>, path: seq<Message>)
    requires Thread(rows, path)
    ensures Arranged(Build(rows, path))
    decreases Unvisited(rows, path), 1, 0
  {
    var id := Last(path).id;
    RepliesAreReplies(rows, path);
    RepliesByDate(rows, id);
    hide Replies;
    ForestIsArranged(rows, path, Replies(rows, id));
  }

  lemma RepliesByDate(rows: seq<Message>, id: ID)
    ensures forall i, j | 0 <= i < j < |Replies(rows, id)| ::
              Replies(rows, id)[i].content.dateWritten <= Replies(rows, id)[j].content.dateWritten
  {
    var selected := Filter((m: Message) => m.content.parent == id, rows);
    SortCorrect(DateWritten, selected);
    hide Sort, Filter;
    var r := Sort(DateWritten, selected);
    forall i, j | 0 <= i < j < |r|
      ensures r[i].content.dateWritten <= r[j].content.dateWritten
    {
      assert DateWritten(r[i]) <= DateWritten(r[j]);
    }
    assert r == Replies(rows, id);
  }

  lemma {:induction false} ForestIsArranged(rows: seq<Message>, path: seq<Message>, kids: seq<Message>)
    requires Thread(rows, path) && AreReplies(rows, path, kids)
    ensures forall i | 0 <= i < |kids| ::
              Forest(rows, path, kids)[i].msg == kids[i] && Arranged(Forest(rows, path, kids)[i])
    decreases Unvisited(rows, path), 0, |kids|
  {
    if kids != [] {
      var init, k := kids[..|kids| - 1], kids[|kids| - 1];
      assert kids == init + [k];
      StepDown(rows, path, k);
      BuiltForMessage(rows, path + [k]);
      ForestSnoc(rows, path, init, k);
      hide Build, Forest, Arranged, Thread, AreReplies;
      ForestIsArranged(rows, path, init);
      ThreadIsArranged(rows, path + [k]);
    }
  }

  lemma BuiltForMessage(rows: seq<Message>, path: seq<Message>)
    requires Thread(rows, path)
    ensures Build(rows, path).msg == Last(path)
  {
  }

  // ---------------------------------------------------------------- moderation

  /** A node that is not visible disappears with everything below it. */
  function Prune(t: Tree, visible: Message -> bool): Option<Tree>
    decreases t
  {
    if visible(t.msg) then Some(Tree(t.msg, PruneAll(t.kids, visible))) else None
  }

  function PruneAll(ts: seq<Tree>, visible: Message -> bool): seq<Tree>
    decreases ts
  {
    if ts == [] then []
    else
      var last := |ts| - 1;
      PruneAll(ts[..last], visible) + match Prune(ts[last], visible) case Some(t) => [t] case None => []
  }

  lemma KeyedFilter(rows: seq<Message>, visible: Message -> bool)
    requires Keyed(rows)
    ensures Keyed(Filter(visible, rows))
  {
    FilterDistinct(visible, rows);
    forall m | m in Filter(visible, rows) ensures m in rows { FilterMembers(visible, rows, m); }
  }

  /** The paths of the moderated table are those of the whole table whose messages are all visible. */
  lemma VisiblePath(rows: seq<Message>, visible: Message -> bool, path: seq<Message>)
    ensures IsPath(Filter(visible, rows), path) <==> IsPath(rows, path) && forall m | m in path :: visible(m)
    ensures Thread(rows, path) && (forall m | m in path :: visible(m)) ==> Thread(Filter(visible, rows), path)
  {
    forall m: Message
      ensures m in Filter(visible, rows) <==> m in rows && visible(m)
    {
      FilterMembers(visible, rows, m);
    }
    if Keyed(rows) { KeyedFilter(rows, visible); }
  }

  lemma RepliesFilter(rows: seq<Message>, visible: Message -> bool, id: ID)
    ensures Replies(Filter(visible, rows), id) == Filter(visible, Replies(rows, id))
  {
    var selected := (m: Message) => m.content.parent == id;
    var both := (m: Message) => selected(m) && visible(m);
    FilterFilter(selected, visible, both, rows);
    FilterFilter(visible, selected, both, rows);
    FilterSort(visible, DateWritten, Filter(selected, rows));
  }

  /** Moderating a thread gives the thread of the moderated table. */
  lemma {:induction false} ModerationFusesWithBuilding(rows: seq<Message>, path: seq<Message>, visible: Message -> bool)
    requires Thread(rows, path) && forall m | m in path :: visible(m)
    ensures Thread(Filter(visible, rows), path)
    ensures Prune(Build(rows, path), visible) == Some(Build(Filter(visible, rows), path))
    decreases Unvisited(rows, path), 1, 0
  {
    VisiblePath(rows, visible, path);
    RepliesAreReplies(rows, path);
    RepliesFilter(rows, visible, Last(path).id);
    ModerationFusesWithForest(rows, path, Replies(rows, Last(path).id), visible);
    assert Last(path) in path;
  }

  /** Moderating a list of subtrees gives the subtrees of the visible replies in the moderated table. */
  ghost predicate Fuses(rows: seq<Message>, path: seq<Message>, kids: seq<Message>, visible: Message -> bool)
    requires Thread(rows, path) && AreReplies(rows, path, kids)
  {
    var kept := Filter(visible, rows);
    && Thread(kept, path) && AreReplies(kept, path, Filter(visible, kids))
    && PruneAll(Forest(rows, path, kids), visible) == Forest(kept, path, Filter(visible, kids))
  }

  lemma RepliesStay(rows: seq<Message>, path: seq<Message>, kids: seq<Message>, visible: Message -> bool)
    requires path != [] && AreReplies(rows, path, kids)
    ensures AreReplies(Filter(visible, rows), path, Filter(visible, kids))
  {
    forall k | k in Filter(visible, kids)
      ensures k in Filter(visible, rows) && k.content.parent == Last(path).id
    {
      FilterMembers(visible, kids, k);
      FilterMembers(visible, rows, k);
    }
  }

  lemma PruneAllSnoc(ts: seq<Tree>, t: Tree, visible: Message -> bool)
    ensures PruneAll(ts + [t], visible) ==
            match Prune(t, visible) case Some(u) => PruneAll(ts, visible) + [u] case None => PruneAll(ts, visible)
  {
    assert (ts + [t])[..|ts|] == ts;
    assert PruneAll(ts, visible) + [] == PruneAll(ts, visible);
  }

  lemma ForestSnoc(rows: seq<Message>, path: seq<Message>, kids: seq<Message>, k: Message)
    requires Thread(rows, path) && AreReplies(rows, path, kids + [k]) && Thread(rows, path + [k])
    ensures AreReplies(rows, path, kids)
    ensures Forest(rows, path, kids + [k]) == Forest(rows, path, kids) + [Build(rows, path + [k])]
  {
    assert (kids + [k])[..|kids|] == kids;
    assert forall x | x in kids :: x in kids + [k];
  }

  lemma {:induction false} ModerationFusesWithForest(
    rows: seq<Message>, path: seq<Message>, kids: seq<Message>, visible: Message -> bool)
    requires Thread(rows, path) && AreReplies(rows, path, kids) && forall m | m in path :: visible(m)
    ensures Fuses(rows, path, kids, visible)
    decreases Unvisited(rows, path), 0, |kids|
  {
    VisiblePath(rows, visible, path);
    RepliesStay(rows, path, kids, visible);
    if kids != [] {
      var init, k := kids[..|kids| - 1], kids[|kids| - 1];
      assert kids == init + [k];
      StepDown(rows, path, k);
      ModerationFusesWithForest(rows, path, init, visible);
      if visible(k) {
        ModerationFusesWithBuilding(rows, path + [k], visible);
      }
      OneMoreReply(rows, path, init, k, visible);
    }
  }

  lemma OneMoreReply(rows: seq<Message>, path: seq<Message>, init: seq<Message>, k: Message, visible: Message -> bool)
    requires Thread(rows, path) && AreReplies(rows, path, init + [k]) && Thread(rows, path + [k])
    requires AreReplies(rows, path, init) && Fuses(rows, path, init, visible)
    requires AreReplies(Filter(visible, rows), path, Filter(visible, init + [k]))
    requires visible(k) ==> Thread(Filter(visible, rows), path + [k])
    requires Prune(Build(rows, path + [k]), visible) ==
             if visible(k) then Some(Build(Filter(visible, rows), path + [k])) else None
    ensures Fuses(rows, path, init + [k], visible)
  {
    hide Thread, Build, Prune, PruneAll, Filter;
    var kept, f := Filter(visible, rows), Filter(visible, init);
    ForestSnoc(rows, path, init, k);
    PruneAllSnoc(Forest(rows, path, init), Build(rows, path + [k]), visible);
    FilterSnoc(visible, init, k);
    if visible(k) {
      ForestSnoc(kept, path, f, k);
    } else {
      assert f + [] == f;
    }
  }

  /** In the moderated thread a message appears exactly when it and all its ancestors up to the root
      are visible, and then once. */
  lemma ModeratedThreadHolds(rows: seq<Message>, m: Message, visible: Message -> bool, x: Message)
    requires Thread(rows, [m])
    ensures Prune(Build(rows, [m]), visible).Some? <==> visible(m)
    ensures visible(m) ==>
              Count(Prune(Build(rows, [m]), visible).value, x) ==
              if exists p :: IsPath(rows, p) && p[0] == m && Last(p) == x && (forall y | y in p :: visible(y))
              then 1 else 0
  {
    if visible(m) {
      var kept := Filter(visible, rows);
      ModerationFusesWithBuilding(rows, [m], visible);
      ThreadHoldsEachReplyOnce(kept, [m], x);
      if Below(kept, [m], x) {
        var p: seq<Message> :| IsPath(kept, p) && [m] <= p && Last(p) == x;
        VisiblePath(rows, visible, p);
        assert p[0] == m;
      }
      if p: seq<Message> :| IsPath(rows, p) && p[0] == m && Last(p) == x && (forall y | y in p :: visible(y)) {
        VisiblePath(rows, visible, p);
        assert [m] <= p;
      }
    }
  }

  /** And what is left is arranged as before. */
  lemma ModeratedThreadIsArranged(rows: seq<Message>, m: Message, visible: Message -> bool)
    requires Thread(rows, [m]) && visible(m)
    ensures Arranged(Prune(Build(rows, [m]), visible).value)
  {
    ModerationFusesWithBuilding(rows, [m], visible);
    ThreadIsArranged(Filter(visible, rows), [m]);
  }

  /** Moderating again with a stricter view is moderating with the stricter view from scratch. */
  lemma {:induction false} PruneTwice(t: Tree, weak: Message -> bool, strict: Message -> bool)
    requires forall m :: strict(m) ==> weak(m)
    ensures Prune(t, strict) ==
            match Prune(t, weak) case None => None case Some(u) => Prune(u, strict)
    decreases t
  {
    PruneAllTwice(t.kids, weak, strict);
  }

  lemma {:induction false} PruneAllTwice(ts: seq<Tree>, weak: Message -> bool, strict: Message -> bool)
    requires forall m :: strict(m) ==> weak(m)
    ensures PruneAll(ts, strict) == PruneAll(PruneAll(ts, weak), strict)
    decreases ts
  {
    if ts != [] {
      var init, t := ts[..|ts| - 1], ts[|ts| - 1];
      PruneAllTwice(init, weak, strict);
      PruneTwice(t, weak, strict);
      var p := PruneAll(init, weak);
      match Prune(t, weak)
      case None => assert p + [] == p && PruneAll(init, strict) + [] == PruneAll(init, strict);
      case Some(u) => assert (p + [u])[..|p|] == p;
    }
  }

  /** Storing more and trusting more moderators only removes nodes, and an already moderated thread can
      be moderated again without going back to the original. */
  lemma ModerationIsAntitone(db: Database, db': Database, moderators: set<ID>, moderators': set<ID>, t: Tree)
    requires Extends(db, db') && moderators <= moderators'
    ensures var before, after := VisibleIn(db, moderators), VisibleIn(db', moderators');
            Prune(t, after) == match Prune(t, before) case None => None case Some(u) => Prune(u, after)
  {
    var before, after := VisibleIn(db, moderators), VisibleIn(db', moderators');
    forall m: Message | after(m)
      ensures before(m)
    {
      VisibleAntitone(db, db', moderators, moderators', m);
    }
    PruneTwice(t, before, after);
  }

  // ---------------------------------------------------------------- threads of the database

  /** The rows list the messages table. */
  ghost predicate IsListing(db: Database, rows: seq<Message>) {
    Distinct(rows) && forall m :: m in rows <==> m.id in db.messages && db.messages[m.id] == m
  }

  lemma ListedIsKeyed(db: Database, rows: seq<Message>)
    requires Sound(db) && IsListing(db, rows)
    ensures Keyed(rows) && forall row | row in rows :: row.id == MessageHash(row.content)
  {
    forall m | m in rows
      ensures m.id == MessageHash(m.content)
    {
      assert Authentic(MessageEntity(db.messages[m.id]));
    }
  }

  /** The length of the path from the root is the depth the storage computes. */
  lemma {:induction false} PathLengthIsDepth(db: Database, rows: seq<Message>, path: seq<Message>)
    requires Sound(db) && IsListing(db, rows) && IsPath(rows, path)
    requires !IsReply(path[0]) && path[0].content.topic.IsValid()
    ensures GetMessageDepth(db, Last(path)) == Ok(|path| - 1)
    decreases |path|
  {
    hide UserValid, OperationValid, Keyed;
    var m := Last(path);
    ListedIsKeyed(db, rows);
    assert m in path && path[0] in path;
    if |path| > 1 {
      var p := path[|path| - 2];
      assert m.content.parent == p.id && p in path && p in rows;
      PathLengthIsDepth(db, rows, path[..|path| - 1]);
      assert Last(path[..|path| - 1]) == p;
      assert Authentic(MessageEntity(db.messages[p.id]));
      if |path| > 2 {
        assert path[|path| - 3] in path;
        assert IsReply(p);
      }
    }
  }
}
