/** Threads as the program keeps them: nodes on the heap that know their children and their parent. */
module ThreadNodes {
  import opened Topics
  import opened Entities
  import opened Databases
  import opened Lists
  import opened Profiles
  import opened Views
  import opened Threads

  class Node {
    const msg: Message
    var children: seq<Node>
    var parent: Node?
    /** The nodes of this subtree, and the value they represent. */
    ghost var repr: set<Node>
    ghost var tree: Tree

    /** The children's subtrees are disjoint and their parent pointers lead here. */
    ghost predicate Valid()
      reads this, repr
      decreases repr
    {
      && this in repr
      && tree.msg == msg && |tree.kids| == |children|
      && (forall i | 0 <= i < |children| ::
            && children[i] in repr && children[i].repr <= repr - {this}
            && children[i].parent == this && children[i].tree == tree.kids[i]
            && children[i].Valid())
      && forall i, j | 0 <= i < j < |children| :: children[i].repr !! children[j].repr
    }

    constructor (m: Message)
      ensures Valid() && msg == m && children == [] && parent == null
      ensures repr == {this} && tree == Tree(m, [])
    {
      msg, children, parent := m, [], null;
      repr, tree := {this}, Tree(m, []);
    }

    method AddReply(m: Message) returns (child: Node)
      requires Valid()
      modifies this
      ensures Valid() && repr == old(repr) + {child} && parent == old(parent)
      ensures children == old(children) + [child] && tree == Tree(msg, old(tree).kids + [Tree(m, [])])
      ensures fresh(child) && child.Valid() && child.msg == m && child.children == [] && child.repr == {child}
    {
      child := new Node(m);
      children := children + [child];
      child.parent := this;
      repr, tree := repr + {child}, Tree(msg, tree.kids + [child.tree]);
    }

    /** Takes in what was added below the last child. */
    ghost method LastChildGrew()
      requires this in repr && tree.msg == msg && |tree.kids| == |children| > 0
      requires forall i | 0 <= i < |children| ::
                 children[i] in repr && children[i].parent == this && children[i].Valid() && this !in children[i].repr
      requires forall i | 0 <= i < |children| - 1 :: children[i].repr <= repr && children[i].tree == tree.kids[i]
      requires forall i, j | 0 <= i < j < |children| :: children[i].repr !! children[j].repr
      modifies this`repr, this`tree
      ensures var i := |children| - 1;
              Valid() && repr == old(repr) + children[i].repr && tree == Tree(msg, old(tree).kids[..i] + [children[i].tree])
    {
      var last := children[|children| - 1];
      repr, tree := repr + last.repr, Tree(msg, tree.kids[..|children| - 1] + [last.tree]);
    }

    method AddChild(child: Node)
      requires Valid() && child.Valid() && repr !! child.repr
      modifies this, child`parent
      ensures Valid() && repr == old(repr) + child.repr && parent == old(parent)
      ensures children == old(children) + [child] && tree == Tree(msg, old(tree).kids + [child.tree])
      ensures child.Valid() && child.parent == this
    {
      children := children + [child];
      child.parent := this;
      repr, tree := repr + child.repr, Tree(msg, tree.kids + [child.tree]);
    }

    /** Follows the parent pointers; `line` is the nodes from the root to this one. */
    method Depth(ghost line: seq<Node>) returns (depth: nat)
      requires IsLine(line) && line[0].parent == null && line[|line| - 1] == this
      ensures depth == |line| - 1
    {
      depth := 0;
      var tmp: Node := this;
      while tmp.parent != null
        invariant depth < |line| && tmp == line[|line| - 1 - depth]
        invariant depth < |line| - 1 ==> tmp.parent == line[|line| - 2 - depth]
        decreases |line| - depth
      {
        tmp := tmp.parent;
        depth := depth + 1;
      }
    }
  }

  /** Each node of the line is the parent of the next. */
  ghost predicate IsLine(line: seq<Node>)
    reads set n | n in line
  {
    line != [] && forall i | 0 < i < |line| :: line[i].parent == line[i - 1]
  }

  // ---------------------------------------------------------------- reading a thread

  /** The subtrees of the first replies to the last message of the path. */
  ghost function Subtrees(rows: seq<Message>, path: seq<Message>, n: nat): seq<Tree>
    requires Thread(rows, path) && n <= |Replies(rows, Last(path).id)|
  {
    RepliesAreReplies(rows, path);
    Forest(rows, path, Replies(rows, Last(path).id)[..n])
  }

  lemma SubtreesAtEnds(rows: seq<Message>, path: seq<Message>)
    requires Thread(rows, path)
    ensures Subtrees(rows, path, 0) == []
    ensures Build(rows, path) == Tree(Last(path), Subtrees(rows, path, |Replies(rows, Last(path).id)|))
  {
    var replies := Replies(rows, Last(path).id);
    assert replies[..|replies|] == replies;
  }

  lemma NextSubtree(rows: seq<Message>, path: seq<Message>, n: nat)
    requires Thread(rows, path) && n < |Replies(rows, Last(path).id)|
    ensures var r := Replies(rows, Last(path).id)[n];
            && Thread(rows, path + [r]) && Unvisited(rows, path + [r]) < Unvisited(rows, path)
            && Subtrees(rows, path, n + 1) == Subtrees(rows, path, n) + [Build(rows, path + [r])]
  {
    var replies := Replies(rows, Last(path).id);
    RepliesAreReplies(rows, path);
    StepDown(rows, path, replies[n]);
    assert replies[..n + 1] == replies[..n] + [replies[n]];
    ForestSnoc(rows, path, replies[..n], replies[n]);
  }

  /** Adds the stored replies, and theirs, below a node. `path` is the messages from the root to it. */
  method FillSubthreads(rows: seq<Message>, t: Node, ghost path: seq<Message>)
    requires Thread(rows, path) && t.msg == Last(path)
    requires t.Valid() && t.children == [] && t.repr == {t}
    modifies t
    ensures t.Valid() && t.tree == Build(rows, path)
    ensures fresh(t.repr - {t}) && t.parent == old(t.parent)
    decreases Unvisited(rows, path), 0
  {
    var replies := Replies(rows, t.msg.id);
    SubtreesAtEnds(rows, path);
    for i := 0 to |replies|
      invariant t.Valid() && fresh(t.repr - {t}) && t.parent == old(t.parent)
      invariant t.tree.kids == Subtrees(rows, path, i)
    {
      NextSubtree(rows, path, i);
      FillReply(rows, t, replies[i], path);
    }
  }

  /** One turn of the loop: adds a reply and everything below it. */
  method FillReply(rows: seq<Message>, t: Node, r: Message, ghost path: seq<Message>)
    requires Thread(rows, path + [r]) && t.Valid()
    modifies t
    ensures t.Valid() && t.tree == Tree(t.msg, old(t.tree).kids + [Build(rows, path + [r])])
    ensures fresh(t.repr - old(t.repr)) && t.parent == old(t.parent)
    decreases Unvisited(rows, path + [r]), 1
  {
    hide Thread, Build, Unvisited;
    var node := t.AddReply(r);
    FillSubthreads(rows, node, path + [r]);
    t.LastChildGrew();
  }

  /** Reads the thread below a message. */
  method GetThread(db: Database, rows: seq<Message>, eid: ID) returns (res: Result<Node>)
    requires Sound(db) && IsListing(db, rows)
    ensures match GetMessage(db, eid)
            case Err(e) => res == Err(e)
            case Ok(m) =>
              && res.Ok? && fresh(res.value.repr) && res.value.Valid() && res.value.parent == null
              && Thread(rows, [m]) && res.value.tree == Build(rows, [m])
  {
    var root := GetMessage(db, eid);
    if root.Err? {
      return Err(root.error);
    }
    ListedIsKeyed(db, rows);
    assert root.value in rows;
    var t := new Node(root.value);
    FillSubthreads(rows, t, [root.value]);
    return Ok(t);
  }

  // ---------------------------------------------------------------- depth

  function Messages(line: seq<Node>): (ms: seq<Message>)
    ensures |ms| == |line|
    ensures forall i | 0 <= i < |line| :: ms[i] == line[i].msg
  {
    if line == [] then [] else [line[0].msg] + Messages(line[1..])
  }

  /** Each node of the line is a child of the one before it. */
  ghost predicate LeadsDown(line: seq<Node>)
    reads set n | n in line
  {
    line != [] && forall i | 0 < i < |line| :: line[i] in line[i - 1].children
  }

  lemma {:induction false} ForestAt(rows: seq<Message>, path: seq<Message>, kids: seq<Message>, i: nat)
    requires Thread(rows, path) && AreReplies(rows, path, kids) && i < |kids|
    ensures Thread(rows, path + [kids[i]])
    ensures Forest(rows, path, kids)[i] == Build(rows, path + [kids[i]])
    decreases |kids|
  {
    var init, k := kids[..|kids| - 1], kids[|kids| - 1];
    StepDown(rows, path, k);
    if i < |init| {
      ForestAt(rows, path, init, i);
    }
  }

  lemma ChildIsBuilt(rows: seq<Message>, path: seq<Message>, n: Node, child: Node)
    requires Thread(rows, path) && n.Valid() && n.tree == Build(rows, path) && child in n.children
    ensures child.Valid() && child.parent == n
    ensures Thread(rows, path + [child.msg]) && child.tree == Build(rows, path + [child.msg])
  {
    var i :| 0 <= i < |n.children| && n.children[i] == child;
    var kids := Replies(rows, Last(path).id);
    RepliesAreReplies(rows, path);
    ForestAt(rows, path, kids, i);
    assert child.tree.msg == kids[i];
  }

  lemma LeadsDownFromChild(line: seq<Node>)
    requires LeadsDown(line) && |line| > 1
    ensures line[1] in line[0].children && LeadsDown(line[1..])
  {
    assert line[1] in line[1 - 1].children;
    forall i | 0 < i < |line[1..]|
      ensures line[1..][i] in line[1..][i - 1].children
    {
      assert line[i + 1] in line[i + 1 - 1].children;
    }
  }

  lemma MessagesOfRest(path: seq<Message>, line: seq<Node>)
    requires |line| > 1
    ensures path + Messages(line[1..]) == path + [line[1].msg] + Messages(line[1..][1..])
  {
  }

  lemma {:induction false} LeadsBackUp(line: seq<Node>)
    requires LeadsDown(line) && line[0].Valid()
    ensures IsLine(line)
    decreases |line|
  {
    if |line| > 1 {
      LeadsDownFromChild(line);
      LeadsBackUp(line[1..]);
      forall i | 0 < i < |line|
        ensures line[i].parent == line[i - 1]
      {
        if i > 1 { assert line[1..][i - 1].parent == line[1..][i - 2]; }
      }
    }
  }

  /** Going down from a node built for a path, the messages continue the path. */
  lemma {:induction false} LineContinuesPath(rows: seq<Message>, path: seq<Message>, line: seq<Node>)
    requires Thread(rows, path) && LeadsDown(line) && line[0].Valid() && line[0].tree == Build(rows, path)
    ensures IsPath(rows, path + Messages(line[1..]))
    decreases |line|
  {
    if |line| == 1 {
      assert path + [] == path;
    } else {
      LeadsDownFromChild(line);
      ChildIsBuilt(rows, path, line[0], line[1]);
      LineContinuesPath(rows, path + [line[1].msg], line[1..]);
      MessagesOfRest(path, line);
    }
  }

  /** In a thread read from its root, the depth of a node is the depth of its message in the storage. */
  lemma NodeDepthIsMessageDepth(db: Database, rows: seq<Message>, line: seq<Node>)
    requires Sound(db) && IsListing(db, rows) && LeadsDown(line)
    requires line[0].Valid() && Thread(rows, [line[0].msg]) && line[0].tree == Build(rows, [line[0].msg])
    requires !IsReply(line[0].msg) && line[0].msg.content.topic.IsValid()
    ensures IsLine(line) && GetMessageDepth(db, line[|line| - 1].msg) == Ok(|line| - 1)
  {
    LeadsBackUp(line);
    LineContinuesPath(rows, [line[0].msg], line);
    PathLengthIsDepth(db, rows, [line[0].msg] + Messages(line[1..]));
  }

  // ---------------------------------------------------------------- moderation

  /** A detached tree of nodes for the value, or no node for none. */
  ghost predicate Represents(n: Node?, t: Option<Tree>)
    reads n, if n == null then {} else n.repr
  {
    match t
    case None => n == null
    case Some(u) => n != null && n.Valid() && n.parent == null && n.tree == u
  }

  /** What moderation leaves of the first subtrees. */
  function Kept(t: Tree, visible: Message -> bool, n: nat): seq<Tree>
    requires n <= |t.kids|
  {
    PruneAll(t.kids[..n], visible)
  }

  lemma KeptAtEnds(t: Tree, visible: Message -> bool)
    ensures Kept(t, visible, 0) == []
    ensures Prune(t, visible) == if visible(t.msg) then Some(Tree(t.msg, Kept(t, visible, |t.kids|))) else None
  {
    assert t.kids[..|t.kids|] == t.kids;
  }

  lemma KeptNext(t: Tree, visible: Message -> bool, n: nat)
    requires n < |t.kids|
    ensures Kept(t, visible, n + 1) ==
            match Prune(t.kids[n], visible) case Some(u) => Kept(t, visible, n) + [u] case None => Kept(t, visible, n)
  {
    assert t.kids[..n + 1] == t.kids[..n] + [t.kids[n]];
    PruneAllSnoc(t.kids[..n], t.kids[n], visible);
  }

  /** Copies what the owner may see into a new tree. Only the moderator cache of the profile is touched,
      so the original tree is unchanged. */
  method Visit(n: Node, view: View) returns (newNode: Node?)
    requires n.Valid() && view.Ready()
    modifies view.profile`moderators
    ensures view.Ready() && view.Shown() == old(view.Shown())
    ensures Represents(newNode, Prune(n.tree, view.Shown()))
    ensures newNode != null ==> fresh(newNode.repr)
    decreases n.repr, 1
  {
    KeptAtEnds(n.tree, view.Shown());
    var newMsg := view.ModerateMessage(n.msg);
    if newMsg.None? {
      return null;
    }
    var copy := new Node(newMsg.value);
    VisitChildren(n, view, copy);
    return copy;
  }

  method VisitChildren(n: Node, view: View, copy: Node)
    requires n.Valid() && view.Ready()
    requires copy.Valid() && copy.repr == {copy} && copy !in n.repr && copy.tree == Tree(n.msg, [])
    modifies view.profile`moderators, copy
    ensures view.Ready() && view.Shown() == old(view.Shown())
    ensures copy.Valid() && fresh(copy.repr - {copy}) && copy.parent == old(copy.parent)
    ensures copy.tree == Tree(n.msg, Kept(n.tree, view.Shown(), |n.tree.kids|))
    decreases n.repr, 0
  {
    KeptAtEnds(n.tree, view.Shown());
    for i := 0 to |n.children|
      invariant view.Ready() && view.Shown() == old(view.Shown())
      invariant copy.Valid() && fresh(copy.repr - {copy}) && copy.parent == old(copy.parent)
      invariant copy.tree == Tree(n.msg, Kept(n.tree, view.Shown(), i))
    {
      KeptNext(n.tree, view.Shown(), i);
      VisitChild(n.children[i], view, copy);
    }
  }

  /** One turn of the loop: adds what is left of a child to the copy. */
  method VisitChild(child: Node, view: View, copy: Node)
    requires child.Valid() && view.Ready() && copy.Valid() && copy !in child.repr
    modifies view.profile`moderators, copy
    ensures view.Ready() && view.Shown() == old(view.Shown())
    ensures copy.Valid() && fresh(copy.repr - old(copy.repr)) && copy.parent == old(copy.parent)
    ensures copy.tree == match Prune(child.tree, view.Shown())
                         case Some(u) => Tree(copy.msg, old(copy.tree).kids + [u])
                         case None => old(copy.tree)
    decreases child.repr, 2
  {
    var rep := Visit(child, view);
    if rep != null {
      copy.AddChild(rep);
    }
  }

  /** Moderating the thread of the storage gives the thread of the visible messages of the storage. */
  method ModeratedThread(view: View, rows: seq<Message>, eid: ID) returns (res: Result<Node?>)
    requires Sound(view.storage.db) && IsListing(view.storage.db, rows) && view.Ready()
    modifies view.profile`moderators
    ensures view.Ready() && view.Shown() == old(view.Shown())
    ensures var kept := Filter(view.Shown(), rows);
            match GetMessage(view.storage.db, eid)
            case Err(e) => res == Err(e)
            case Ok(m) =>
              && res.Ok? && (view.Shown()(m) ==> Thread(kept, [m]))
              && Represents(res.value, if view.Shown()(m) then Some(Build(kept, [m])) else None)
              && (res.value != null ==> fresh(res.value.repr))
  {
    var t := GetThread(view.storage.db, rows, eid);
    if t.Err? {
      return Err(t.error);
    }
    var moderated := Visit(t.value, view);
    if view.Shown()(t.value.msg) {
      ModerationFusesWithBuilding(rows, [t.value.msg], view.Shown());
    }
    return Ok(moderated);
  }
}
