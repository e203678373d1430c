/**
 * The owning scene graph (`Ktisis/Scene/SceneGraph.cs`): a list of root objects, each owning a
 * tree of children, with cascading removal that raises one removal notification per node.
 *
 * `SceneObject` itself is not part of this model beyond the members the graph and the selection
 * states use: its flags, its parent link, its child list and `SetParent(null)`.
 * Traversals are stated over `Tree`, a value describing a subtree of live objects.
 */
module Scenes {
  import opened Common

  /** A node of the scene (`SceneObject`), with the `Selected` and `Removed` flags as booleans. */
  class SceneObject {
    const uiId: string
    /** The names of the types the object is an instance of (for `item is T`). */
    const types: set<string>
    var selected: bool
    var removed: bool
    var parent: SceneObject?
    var children: seq<SceneObject>

    constructor (uiId: string, types: set<string>)
      ensures this.uiId == uiId && this.types == types
      ensures !selected && !removed && parent == null && children == []
    {
      this.uiId := uiId;
      this.types := types;
      selected := false;
      removed := false;
      parent := null;
      children := [];
    }

    /** `SetParent(null)`: the object leaves its parent's child list and has no parent any more. */
    method Detach()
      modifies this`parent, ParentFrame(this)`children
      ensures parent == null
      ensures old(parent) != null ==> old(parent).children == RemoveFirst(old(parent.children), this)
    {
      if parent != null {
        parent.children := RemoveFirst(parent.children, this);
      }
      parent := null;
    }
  }

  /**
   * A selection list and the `Selected` flags agree on the objects of `u`: the list holds objects
   * of `u`, each once, and an object of `u` is flagged exactly when it is listed.
   */
  ghost predicate FlagsMirror(sel: seq<SceneObject>, u: set<SceneObject>)
    reads u
  {
    NoDups(sel) && (forall o :: o in sel ==> o in u) && forall o :: o in u ==> (o.selected <==> o in sel)
  }

  /** The objects of a list, as a frame. */
  ghost function Listed(s: seq<SceneObject>): set<SceneObject>
  {
    set o | o in s
  }

  /** The parent of `o`, if it has one, as a frame. */
  ghost function ParentFrame(o: SceneObject): set<SceneObject>
    reads o
  {
    if o.parent == null then {} else {o.parent}
  }

  /** A subtree of the scene: an object and the subtrees of its children, in child-list order. */
  datatype Tree = Node(obj: SceneObject, kids: seq<Tree>)

  /** `objs` lists the objects at the roots of `ts`, in order. */
  predicate RootsAre(objs: seq<SceneObject>, ts: seq<Tree>)
  {
    |objs| == |ts| && forall k :: 0 <= k < |ts| ==> objs[k] == ts[k].obj
  }

  /** `RecurseChildren` below and including `t`: each node, then its children's subtrees in order. */
  function PreOrder(t: Tree): seq<SceneObject>
    decreases t
  {
    [t.obj] + PreOrderForest(t.kids)
  }

  /** `RecurseChildren` over a list of children. */
  function PreOrderForest(ts: seq<Tree>): seq<SceneObject>
    decreases ts
  {
    if ts == [] then [] else PreOrder(ts[0]) + PreOrderForest(ts[1..])
  }

  /** The order in which `Remove` raises its notifications: the children's subtrees, then the node. */
  function PostOrder(t: Tree): seq<SceneObject>
    decreases t
  {
    PostOrderForest(t.kids) + [t.obj]
  }

  function PostOrderForest(ts: seq<Tree>): seq<SceneObject>
    decreases ts
  {
    if ts == [] then [] else PostOrder(ts[0]) + PostOrderForest(ts[1..])
  }

  /** The objects of a subtree, as a frame. */
  ghost function Objs(t: Tree): set<SceneObject>
  {
    set x | x in PreOrder(t)
  }

  ghost function ForestObjs(ts: seq<Tree>): set<SceneObject>
  {
    set x | x in PreOrderForest(ts)
  }

  /** Every node of `t`, pre-order, paired with the object that is its parent (`p` for `t` itself). */
  ghost function Nodes(t: Tree, p: SceneObject?): seq<(Tree, SceneObject?)>
    decreases t
  {
    [(t, p)] + NodesForest(t.kids, t.obj)
  }

  ghost function NodesForest(ts: seq<Tree>, p: SceneObject?): seq<(Tree, SceneObject?)>
    decreases ts
  {
    if ts == [] then [] else Nodes(ts[0], p) + NodesForest(ts[1..], p)
  }

  /** The objects of a list of nodes, as a frame. */
  ghost function NodeObjs(ns: seq<(Tree, SceneObject?)>): set<SceneObject>
  {
    set n | n in ns :: n.0.obj
  }

  /** One node agrees with the live object: its child list, and its parent link unless it is the top. */
  ghost predicate Linked(n: (Tree, SceneObject?))
    reads n.0.obj
  {
    RootsAre(n.0.obj.children, n.0.kids) && (n.1 != null ==> n.0.obj.parent == n.1)
  }

  /** What `Remove` leaves of an object: flagged removed, detached, without children. */
  ghost predicate Cleared(o: SceneObject)
    reads o
  {
    o.removed && o.parent == null && o.children == []
  }

  ghost predicate AllCleared(s: set<SceneObject>)
    reads s
  {
    forall o :: o in s ==> Cleared(o)
  }

  lemma ClearedUnion(a: set<SceneObject>, b: set<SceneObject>)
    requires AllCleared(a) && AllCleared(b)
    ensures AllCleared(a + b)
  {
  }

  /** Every node of `ns` agrees with its live object. */
  ghost predicate AllLinked(ns: seq<(Tree, SceneObject?)>)
    reads NodeObjs(ns)
  {
    forall n :: n in ns ==> Linked(n)
  }

  /** The live objects agree with `t`: child lists and parent links are those of the tree. */
  ghost predicate Shaped(t: Tree)
    reads NodeObjs(Nodes(t, null))
  {
    AllLinked(Nodes(t, null))
  }

  /** The nodes of a tree carry objects of its traversal. */
  lemma {:induction false} NodesIn(t: Tree, p: SceneObject?)
    ensures forall n :: n in Nodes(t, p) ==> n.0.obj in PreOrder(t)
    decreases t
  {
    ForestNodesIn(t.kids, t.obj);
  }

  lemma {:induction false} ForestNodesIn(ts: seq<Tree>, p: SceneObject?)
    ensures forall n :: n in NodesForest(ts, p) ==> n.0.obj in PreOrderForest(ts)
    decreases ts
  {
    if ts != [] {
      NodesIn(ts[0], p);
      ForestNodesIn(ts[1..], p);
    }
  }

  /** The objects of the nodes of a forest are objects of the forest. */
  lemma ForestNodeObjs(ts: seq<Tree>, p: SceneObject?)
    ensures NodeObjs(NodesForest(ts, p)) <= ForestObjs(ts)
  {
    ForestNodesIn(ts, p);
  }

  /** The objects of a tree: its root and the objects of its children's subtrees. */
  lemma ObjsNode(t: Tree)
    ensures Objs(t) == {t.obj} + ForestObjs(t.kids)
  {
    assert PreOrder(t) == [t.obj] + PreOrderForest(t.kids);
  }

  /** The objects of a forest with one more tree. */
  lemma ForestObjsSnoc(ts: seq<Tree>, t: Tree)
    ensures ForestObjs(ts + [t]) == ForestObjs(ts) + Objs(t)
  {
    PreOrderForestAppend(ts, [t]);
    assert PreOrderForest([t]) == PreOrder(t) + PreOrderForest([]);
  }

  /** The objects a tree value refers to exist in the current heap. */
  lemma {:induction false} Allocated(t: Tree)
    ensures forall o :: o in PreOrder(t) ==> allocated(o)
    decreases t
  {
    ForestAllocated(t.kids);
  }

  lemma {:induction false} ForestAllocated(ts: seq<Tree>)
    ensures forall o :: o in PreOrderForest(ts) ==> allocated(o)
    decreases ts
  {
    if ts != [] {
      Allocated(ts[0]);
      ForestAllocated(ts[1..]);
    }
  }

  /** Appending the notifications of one more child subtree. */
  lemma LogStep(log: seq<SceneObject>, done: seq<Tree>, kid: Tree)
    ensures log + PostOrderForest(done) + PostOrder(kid) == log + PostOrderForest(done + [kid])
  {
    PostOrderForestAppend(done, [kid]);
    assert PostOrderForest([kid]) == PostOrder(kid) + PostOrderForest([]);
  }

  /** Every object occurs once in the subtree. */
  ghost predicate Distinct(t: Tree)
  {
    NoDups(PreOrder(t))
  }

  /** `s` is `t` or a subtree below it. */
  ghost predicate SubtreeOf(s: Tree, t: Tree)
    decreases t
  {
    s == t || exists i :: 0 <= i < |t.kids| && SubtreeOf(s, t.kids[i])
  }

  /** `b` occurs in `a` as a contiguous block starting at position `k`. */
  ghost predicate Block<T>(a: seq<T>, b: seq<T>, k: int)
  {
    0 <= k && k + |b| <= |a| && a[k..k + |b|] == b
  }

  // ---------------------------------------------------------------------------------------------
  // Traversal lemmas

  /** Concatenating the children lists concatenates the pre-order traversals. */
  lemma {:induction false} PreOrderForestAppend(a: seq<Tree>, b: seq<Tree>)
    ensures PreOrderForest(a + b) == PreOrderForest(a) + PreOrderForest(b)
    decreases a
  {
    if a == [] {
      assert a + b == b;
    } else {
      assert (a + b)[0] == a[0] && (a + b)[1..] == a[1..] + b;
      PreOrderForestAppend(a[1..], b);
      calc {
        PreOrderForest(a + b);
        PreOrder(a[0]) + PreOrderForest(a[1..] + b);
        PreOrder(a[0]) + (PreOrderForest(a[1..]) + PreOrderForest(b));
      }
    }
  }

  /** Concatenating the children lists concatenates the notification orders. */
  lemma {:induction false} PostOrderForestAppend(a: seq<Tree>, b: seq<Tree>)
    ensures PostOrderForest(a + b) == PostOrderForest(a) + PostOrderForest(b)
    decreases a
  {
    if a == [] {
      assert a + b == b;
    } else {
      assert (a + b)[0] == a[0] && (a + b)[1..] == a[1..] + b;
      PostOrderForestAppend(a[1..], b);
      calc {
        PostOrderForest(a + b);
        PostOrder(a[0]) + PostOrderForest(a[1..] + b);
        PostOrder(a[0]) + (PostOrderForest(a[1..]) + PostOrderForest(b));
      }
    }
  }

  /** The i-th sibling's traversal sits between those of the siblings before and after it. */
  lemma SiblingOrder(ts: seq<Tree>, i: nat)
    requires i < |ts|
    ensures PreOrderForest(ts) == PreOrderForest(ts[..i]) + (PreOrder(ts[i]) + PreOrderForest(ts[i + 1..]))
  {
    var rest := ts[i..];
    assert ts == ts[..i] + rest;
    PreOrderForestAppend(ts[..i], rest);
    assert PreOrderForest(rest) == PreOrder(ts[i]) + PreOrderForest(ts[i + 1..]) by {
      assert rest[0] == ts[i] && rest[1..] == ts[i + 1..];
    }
  }

  /** The i-th sibling's notifications come after the earlier siblings' and before the later ones'. */
  lemma SiblingNotifications(ts: seq<Tree>, i: nat)
    requires i < |ts|
    ensures PostOrderForest(ts) == PostOrderForest(ts[..i]) + (PostOrder(ts[i]) + PostOrderForest(ts[i + 1..]))
  {
    var rest := ts[i..];
    assert ts == ts[..i] + rest;
    PostOrderForestAppend(ts[..i], rest);
    assert PostOrderForest(rest) == PostOrder(ts[i]) + PostOrderForest(ts[i + 1..]) by {
      assert rest[0] == ts[i] && rest[1..] == ts[i + 1..];
    }
  }

  /** The notifications are a rearrangement of the pre-order traversal: the same objects, as often. */
  lemma {:induction false} PostOrderPermutes(t: Tree)
    ensures multiset(PostOrder(t)) == multiset(PreOrder(t))
    decreases t
  {
    PostOrderForestPermutes(t.kids);
  }

  lemma {:induction false} PostOrderForestPermutes(ts: seq<Tree>)
    ensures multiset(PostOrderForest(ts)) == multiset(PreOrderForest(ts))
    decreases ts
  {
    if ts != [] {
      PostOrderPermutes(ts[0]);
      PostOrderForestPermutes(ts[1..]);
    }
  }

  /** A duplicate-free list holds each of its elements exactly once. */
  lemma {:induction false} NoDupsOnce<T>(s: seq<T>, x: T)
    requires NoDups(s) && x in s
    ensures multiset(s)[x] == 1
  {
    assert s == [s[0]] + s[1..];
    if s[0] == x {
      assert x !in s[1..];
    } else {
      NoDupsOnce(s[1..], x);
    }
  }

  /** The notifications of a removal name exactly the objects of the subtree. */
  lemma PostOrderObjs(t: Tree)
    ensures forall x :: x in PostOrder(t) <==> x in Objs(t)
    ensures forall k :: 0 <= k < |PostOrder(t)| ==> PostOrder(t)[k] in Objs(t)
  {
    PostOrderPermutes(t);
    forall x ensures x in PostOrder(t) <==> x in PreOrder(t) {
      assert x in PostOrder(t) <==> x in multiset(PostOrder(t));
      assert x in PreOrder(t) <==> x in multiset(PreOrder(t));
    }
    forall k | 0 <= k < |PostOrder(t)| ensures PostOrder(t)[k] in Objs(t) {
      var x := PostOrder(t)[k];
      assert x in multiset(PostOrder(t));
    }
  }

  /** In a tree without shared objects, `Remove` notifies every node of the subtree exactly once. */
  lemma NotifiedOnce(t: Tree)
    requires Distinct(t)
    ensures forall x :: x in PreOrder(t) ==> multiset(PostOrder(t))[x] == 1
    ensures |PostOrder(t)| == |set x | x in PreOrder(t)|
  {
    PostOrderPermutes(t);
    forall x | x in PreOrder(t) ensures multiset(PostOrder(t))[x] == 1 {
      NoDupsOnce(PreOrder(t), x);
    }
    NoDupsCard(PreOrder(t));
    assert |multiset(PostOrder(t))| == |multiset(PreOrder(t))|;
  }

  /** A duplicate-free list has as many elements as its set of elements. */
  lemma {:induction false} NoDupsCard<T>(s: seq<T>)
    requires NoDups(s)
    ensures |set x | x in s| == |s|
  {
    if s != [] {
      NoDupsCard(s[1..]);
      assert (set x | x in s) == {s[0]} + (set x | x in s[1..]);
      assert s[0] !in s[1..];
    }
  }

  /** A subtree's traversal is a contiguous block: the node comes first and its descendants follow. */
  lemma {:induction false} PreOrderBlock(s: Tree, t: Tree)
    requires SubtreeOf(s, t)
    ensures exists k :: Block(PreOrder(t), PreOrder(s), k)
    decreases t
  {
    if s == t {
      assert Block(PreOrder(t), PreOrder(s), 0);
    } else {
      var i :| 0 <= i < |t.kids| && SubtreeOf(s, t.kids[i]);
      PreOrderBlock(s, t.kids[i]);
      var m :| Block(PreOrder(t.kids[i]), PreOrder(s), m);
      SiblingOrder(t.kids, i);
      var pre := [t.obj] + PreOrderForest(t.kids[..i]);
      assert PreOrder(t) == pre + (PreOrder(t.kids[i]) + PreOrderForest(t.kids[i + 1..]));
      BlockShift(PreOrder(t), pre, PreOrder(t.kids[i]), PreOrderForest(t.kids[i + 1..]), PreOrder(s), m);
    }
  }

  /** A subtree's notifications are a contiguous block ending with the subtree's own node. */
  lemma {:induction false} PostOrderBlock(s: Tree, t: Tree)
    requires SubtreeOf(s, t)
    ensures exists k :: Block(PostOrder(t), PostOrder(s), k)
    decreases t
  {
    if s == t {
      assert Block(PostOrder(t), PostOrder(s), 0);
    } else {
      var i :| 0 <= i < |t.kids| && SubtreeOf(s, t.kids[i]);
      PostOrderBlock(s, t.kids[i]);
      var m :| Block(PostOrder(t.kids[i]), PostOrder(s), m);
      var pre := PostOrderForest(t.kids[..i]);
      var post := PostOrderForest(t.kids[i + 1..]) + [t.obj];
      assert PostOrder(t) == pre + (PostOrder(t.kids[i]) + post) by {
        SiblingNotifications(t.kids, i);
        AppendAssoc(pre, PostOrder(t.kids[i]), PostOrderForest(t.kids[i + 1..]), [t.obj]);
      }
      BlockShift(PostOrder(t), pre, PostOrder(t.kids[i]), post, PostOrder(s), m);
    }
  }

  lemma AppendAssoc<T>(a: seq<T>, b: seq<T>, c: seq<T>, d: seq<T>)
    ensures (a + (b + c)) + d == a + (b + (c + d))
  {
  }

  /** A block of a block, moved past a prefix. */
  lemma BlockShift<T>(a: seq<T>, pre: seq<T>, b: seq<T>, post: seq<T>, c: seq<T>, m: int)
    requires a == pre + (b + post)
    requires Block(b, c, m)
    ensures Block(a, c, |pre| + m)
  {
    assert a[|pre| + m..|pre| + m + |c|] == b[m..m + |c|];
  }

  /**
   * Distinct objects in a tree: the i-th child's subtree is distinct and shares no object with the
   * node, the earlier siblings' subtrees or the later ones'.
   */
  lemma SplitAt(t: Tree, done: seq<Tree>, todo: seq<Tree>)
    requires Distinct(t) && t.kids == done + todo && todo != []
    ensures Distinct(todo[0]) && Objs(todo[0]) <= Objs(t)
    ensures Objs(todo[0]) !! ForestObjs(done) && Objs(todo[0]) !! ForestObjs(todo[1..])
    ensures t.obj !in Objs(todo[0]) && t.obj !in ForestObjs(done) && t.obj !in ForestObjs(todo[1..])
  {
    var i := |done|;
    assert done == t.kids[..i] && todo[0] == t.kids[i] && todo[1..] == t.kids[i + 1..];
    var before, here, after := PreOrderForest(t.kids[..i]), PreOrder(t.kids[i]), PreOrderForest(t.kids[i + 1..]);
    SiblingOrder(t.kids, i);
    assert PreOrder(t) == [t.obj] + (before + (here + after));
    NoDupsSplit([t.obj], before + (here + after));
    NoDupsSplit(before, here + after);
    NoDupsSplit(here, after);
  }

  /** A concatenation is duplicate-free iff both parts are and they share no element. */
  lemma NoDupsSplit<T>(a: seq<T>, b: seq<T>)
    ensures NoDups(a + b) <==> NoDups(a) && NoDups(b) && forall x :: x in a ==> x !in b
  {
    var s := a + b;
    if NoDups(s) {
      forall i, j | 0 <= i < j < |a| ensures a[i] != a[j] {
        assert s[i] == a[i] && s[j] == a[j];
      }
      forall i, j | 0 <= i < j < |b| ensures b[i] != b[j] {
        assert s[|a| + i] == b[i] && s[|a| + j] == b[j];
      }
      forall i, j | 0 <= i < |a| && 0 <= j < |b| ensures a[i] != b[j] {
        assert s[i] == a[i] && s[|a| + j] == b[j];
      }
    }
    if NoDups(a) && NoDups(b) && forall x :: x in a ==> x !in b {
      forall i, j | 0 <= i < j < |s| ensures s[i] != s[j] {
        if j < |a| {
          assert s[i] == a[i] && s[j] == a[j];
        } else if i >= |a| {
          assert s[i] == b[i - |a|] && s[j] == b[j - |a|];
        } else {
          assert s[i] == a[i] && s[j] == b[j - |a|] && a[i] in a;
        }
      }
    }
  }

  /** The first tree of a linked forest is itself shaped and linked to the parent. */
  lemma HeadLinked(ts: seq<Tree>, p: SceneObject)
    requires ts != [] && AllLinked(NodesForest(ts, p))
    ensures Shaped(ts[0]) && ts[0].obj.parent == p && AllLinked(NodesForest(ts[1..], p))
  {
    var kid := ts[0];
    assert NodesForest(ts, p) == Nodes(kid, p) + NodesForest(ts[1..], p);
    assert Linked((kid, p));
    forall n | n in Nodes(kid, null) ensures Linked(n) {
      if n != (kid, null) {
        assert n in Nodes(kid, p);
      }
    }
  }

  /**
   * What removing the next child `todo[0]` of `t` may touch: its objects are objects of the
   * children, and they are apart from the parent, from the children already removed and from the
   * nodes of the children still to go.
   */
  lemma ChildFrame(t: Tree, done: seq<Tree>, todo: seq<Tree>)
    requires Distinct(t) && t.kids == done + todo && todo != []
    ensures Distinct(todo[0]) && Objs(todo[0]) <= ForestObjs(t.kids)
    ensures t.obj !in Objs(todo[0]) && t.obj !in ForestObjs(done)
    ensures Objs(todo[0]) !! ForestObjs(done)
    ensures NodeObjs(NodesForest(todo[1..], t.obj)) !! Objs(todo[0])
    ensures t.obj !in NodeObjs(NodesForest(todo[1..], t.obj))
    ensures forall o :: o in PreOrderForest(done) ==> allocated(o)
    ensures forall o :: o in PreOrderForest(todo[1..]) ==> allocated(o)
  {
    SplitAt(t, done, todo);
    PreOrderForestAppend(done, todo);
    ForestAllocated(done);
    ForestAllocated(todo[1..]);
    ForestNodeObjs(todo[1..], t.obj);
  }

  /** How a list splits at `i` and at `i + 1`. */
  lemma Slices<T>(s: seq<T>, i: nat)
    requires i < |s|
    ensures s == s[..i] + s[i..] && s[i..] == [s[i]] + s[i + 1..]
    ensures s[..i + 1] == s[..i] + [s[i]] && s[i + 1..] == s[i..][1..]
  {
  }

  /** Removing the first element of a list by value drops its head. */
  lemma RemoveHead<T>(s: seq<T>)
    requires s != []
    ensures RemoveFirst(s, s[0]) == s[1..]
  {
    assert IndexOf(s, s[0]) == 0;
  }

  // ---------------------------------------------------------------------------------------------
  // Searching

  /** `item is T result && item.UiId == id`. */
  predicate Matches(x: SceneObject, typeName: string, id: string)
  {
    typeName in x.types && x.uiId == id
  }

  /** The first element of `s` that matches, if any. */
  function FirstMatch(s: seq<SceneObject>, typeName: string, id: string): (r: Option<SceneObject>)
    ensures r.None? <==> forall k :: 0 <= k < |s| ==> !Matches(s[k], typeName, id)
    ensures r.Some? ==> exists k :: (0 <= k < |s| && s[k] == r.value && Matches(s[k], typeName, id)
      && forall j :: 0 <= j < k ==> !Matches(s[j], typeName, id))
  {
    if s == [] then None
    else if Matches(s[0], typeName, id) then Some(s[0])
    else FirstMatch(s[1..], typeName, id)
  }

  /**
   * `FindObjectTypeById`: the first object, in the pre-order traversal of the roots, of the given
   * type and with the given `UiId`; `None` (null) when there is none. `roots` is the graph's
   * forest: the trees whose roots are `SceneGraph.objects` (`RootsAre`) and whose children are the
   * live child lists (`Shaped`), which `RecurseChildren` walks.
   */
  function FindObjectTypeById(roots: seq<Tree>, typeName: string, id: string): (r: Option<SceneObject>)
    ensures r.None? <==> forall x :: x in PreOrderForest(roots) ==> !Matches(x, typeName, id)
    ensures r.Some? ==> r.value in PreOrderForest(roots) && Matches(r.value, typeName, id)
  {
    FirstMatch(PreOrderForest(roots), typeName, id)
  }

  /** An object found by `FindObjectTypeById` comes before every other match in the traversal. */
  lemma FindObjectTypeByIdFirst(roots: seq<Tree>, typeName: string, id: string, k: nat)
    requires k < |PreOrderForest(roots)| && Matches(PreOrderForest(roots)[k], typeName, id)
    ensures FindObjectTypeById(roots, typeName, id).Some?
    ensures exists j :: 0 <= j <= k && PreOrderForest(roots)[j] == FindObjectTypeById(roots, typeName, id).value
  {
  }

  // ---------------------------------------------------------------------------------------------
  // The graph

  datatype UpdateEvent = SceneUpdated | ObjectUpdated(obj: SceneObject)

  /** One `ObjectUpdated` per object, in list order. */
  function ObjectUpdates(objs: seq<SceneObject>): (r: seq<UpdateEvent>)
    ensures |r| == |objs|
    ensures forall k :: 0 <= k < |objs| ==> r[k] == ObjectUpdated(objs[k])
  {
    if objs == [] then [] else [ObjectUpdated(objs[0])] + ObjectUpdates(objs[1..])
  }

  class SceneGraph {
    /** The root objects (`Objects`). */
    var objects: seq<SceneObject>
    /** The `OnSceneObjectRemoved` notifications raised so far. */
    var removedLog: seq<SceneObject>
    /** `OnSceneUpdate` and the roots' `Update` calls so far. */
    var updates: seq<UpdateEvent>

    constructor ()
      ensures objects == [] && removedLog == [] && updates == []
    {
      objects := [];
      removedLog := [];
      updates := [];
    }

    /** `Update`: the scene-update event once, then each root's update in list order. */
    method Update()
      modifies this
      ensures updates == old(updates) + [SceneUpdated] + ObjectUpdates(objects)
      ensures objects == old(objects) && removedLog == old(removedLog)
    {
      updates := updates + [SceneUpdated];
      var i := 0;
      while i < |objects|
        invariant 0 <= i <= |objects|
        invariant objects == old(objects) && removedLog == old(removedLog)
        invariant updates == old(updates) + [SceneUpdated] + ObjectUpdates(objects[..i])
      {
        assert ObjectUpdates(objects[..i + 1]) == ObjectUpdates(objects[..i]) + [ObjectUpdated(objects[i])];
        updates := updates + [ObjectUpdated(objects[i])];
        i := i + 1;
      }
      assert objects[..i] == objects;
    }

    /**
     * `Remove(item)`, where `t` describes the subtree below `item`: marks every object of the
     * subtree removed, takes a root out of `objects` or detaches a child from its parent, then
     * removes the children (a snapshot of the child list) and finally notifies `item`.
     */
    method Remove(item: SceneObject, ghost t: Tree)
      requires t.obj == item && Shaped(t) && Distinct(t)
      requires item.parent !in Objs(t)
      modifies this`objects, this`removedLog, Objs(t)`removed, Objs(t)`parent, Objs(t)`children
      modifies ParentFrame(item)`children
      decreases t, 2
      ensures removedLog == old(removedLog) + PostOrder(t)
      ensures AllCleared(Objs(t))
      ensures old(item.parent) == null ==> objects == RemoveFirst(old(objects), item)
      ensures old(item.parent) != null ==> objects == old(objects)
      ensures old(item.parent) != null ==> old(item.parent).children == RemoveFirst(old(item.parent.children), item)
    {
      assert t.obj !in PreOrderForest(t.kids) by {
        NoDupsSplit([t.obj], PreOrderForest(t.kids));
      }
      ForestAllocated(t.kids);
      ForestNodeObjs(t.kids, item);
      assert Objs(t) == {item} + ForestObjs(t.kids) && item !in ForestObjs(t.kids) by {
        ObjsNode(t);
      }
      assert RootsAre(item.children, t.kids) && AllLinked(NodesForest(t.kids, item)) by {
        assert Nodes(t, null) == [(t, null)] + NodesForest(t.kids, item);
        assert Linked((t, null));
      }
      item.removed := true;
      if item.parent == null {
        objects := RemoveFirst(objects, item);
      } else {
        item.Detach();
      }
      var kids := item.children;
      RemoveChildren(item, kids, t);
      removedLog := removedLog + [item];
    }

    /**
     * The loop of `Remove` over the children of `item`, which has been detached already: removes
     * each child's subtree in turn, so that their notifications come in child order.
     */
    method RemoveChildren(item: SceneObject, kids: seq<SceneObject>, ghost t: Tree)
      requires t.obj == item && Distinct(t)
      requires item.children == kids && RootsAre(kids, t.kids)
      requires AllLinked(NodesForest(t.kids, item))
      modifies this`objects, this`removedLog, ForestObjs(t.kids)`removed, ForestObjs(t.kids)`parent
      modifies ForestObjs(t.kids)`children, item`children
      decreases t, 1
      ensures objects == old(objects)
      ensures removedLog == old(removedLog) + PostOrderForest(t.kids)
      ensures AllCleared(ForestObjs(t.kids)) && item.children == []
    {
      ghost var done, todo := [], t.kids;
      var i := 0;
      while i < |kids|
        invariant 0 <= i <= |kids| && |done| == i && done == t.kids[..i] && todo == t.kids[i..]
        invariant RootsAre(kids[i..], todo) && item.children == kids[i..]
        invariant objects == old(objects) && removedLog == old(removedLog) + PostOrderForest(done)
        invariant AllCleared(ForestObjs(done))
        invariant AllLinked(NodesForest(todo, item))
      {
        ghost var kid := todo[0];
        ChildFrame(t, done, todo);
        Slices(t.kids, i);
        RemoveNext(item, kids, i, t, done, todo);
        LogStep(old(removedLog), done, kid);
        ForestObjsSnoc(done, kid);
        assert AllCleared(ForestObjs(done));
        ClearedUnion(ForestObjs(done), Objs(kid));
        done, todo := done + [kid], todo[1..];
        i := i + 1;
      }
      assert done == t.kids;
    }

    /** One turn of the loop of `Remove`: removes the subtree of the child `kids[i]`, which detaches it. */
    method RemoveNext(item: SceneObject, kids: seq<SceneObject>, i: nat, ghost t: Tree,
                      ghost done: seq<Tree>, ghost todo: seq<Tree>)
      requires t.obj == item && Distinct(t)
      requires i < |kids| && t.kids == done + todo && |done| == i
      requires RootsAre(kids[i..], todo) && item.children == kids[i..]
      requires AllLinked(NodesForest(todo, item))
      modifies this`objects, this`removedLog, Objs(todo[0])`removed, Objs(todo[0])`parent
      modifies Objs(todo[0])`children, item`children
      decreases t, 0
      ensures objects == old(objects) && removedLog == old(removedLog) + PostOrder(todo[0])
      ensures AllCleared(Objs(todo[0]))
      ensures item.children == kids[i + 1..] && RootsAre(kids[i + 1..], todo[1..])
      ensures AllLinked(NodesForest(todo[1..], item))
    {
      ghost var kid := todo[0];
      HeadLinked(todo, item);
      Slices(kids, i);
      ChildFrame(t, done, todo);
      ghost var rest := NodesForest(todo[1..], item);
      assert NodeObjs(rest) !! Objs(kid) && item !in NodeObjs(rest);
      RemoveHead(kids[i..]);
      assert t.kids[i] == kid;
      Remove(kids[i], kid);
      assert AllLinked(rest);
    }

    /** The number of root objects. */
    function Count(): (r: nat)
      reads this
      ensures r == |objects|
    {
      |objects|
    }

    /** `AddChild`: appends a root. */
    method AddChild(child: SceneObject)
      modifies this
      ensures objects == old(objects) + [child]
      ensures Count() == old(Count()) + 1
      ensures removedLog == old(removedLog) && updates == old(updates)
    {
      objects := objects + [child];
    }

    /** `RemoveChild`: removes the first occurrence of a root, if there is one. */
    method RemoveChild(child: SceneObject)
      modifies this
      ensures objects == RemoveFirst(old(objects), child)
      ensures removedLog == old(removedLog) && updates == old(updates)
    {
      objects := RemoveFirst(objects, child);
    }
  }

  /** Removing a root that was just added restores the root list. */
  lemma AddRemoveRoundTrip(objs: seq<SceneObject>, child: SceneObject)
    requires child !in objs
    ensures RemoveFirst(objs + [child], child) == objs
  {
    assert (objs + [child])[|objs|] == child;
    var i := IndexOf(objs + [child], child);
    assert i == |objs|;
    assert (objs + [child])[..i] == objs;
  }
}
