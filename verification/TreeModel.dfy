/** The actor tree of tree/impl.go as a value.

    A Go `*node` is a handle into an allocation-ordered arena, so a node that
    has left the index keeps its identity: a stale pointer held by a spawner is
    a handle that no longer answers to its ActorID. Refs are identified with
    ActorIDs. */
module TreeModel {
  import opened Common

  type ActorID = nat
  type Handle = nat

  const ROOT: Handle := 0

  datatype Node = Node(
    self: ActorID, parent: Option<Handle>, name: Str,
    children: map<Str, Handle>, pending: bool)

  datatype Tree = Tree(
    heap: seq<Node>,
    byID: map<ActorID, Handle>,
    scoped: map<ActorID, map<Str, ActorID>>,
    global: map<ActorID, set<Str>>)

  function NewTree(root: ActorID): Tree {
    Tree([Node(root, None, [], map[], false)], map[root := ROOT], map[], map[])
  }

  // ---------------------------------------------------------------------
  // Structure
  // ---------------------------------------------------------------------

  predicate Live(t: Tree, h: Handle) {
    h < |t.heap| && t.heap[h].self in t.byID && t.byID[t.heap[h].self] == h
  }

  /** Pointers follow allocation order: up to older nodes, down to younger ones. */
  ghost predicate HeapOrdered(heap: seq<Node>) {
    && (forall h :: 0 <= h < |heap| && heap[h].parent.Some? ==> heap[h].parent.value < h)
    && (forall h, n :: 0 <= h < |heap| && n in heap[h].children ==> h < heap[h].children[n] < |heap|)
  }

  ghost predicate IndexOk(t: Tree) {
    forall id :: id in t.byID ==> t.byID[id] < |t.heap| && t.heap[t.byID[id]].self == id
  }

  /** A live node hangs from its live parent under its own name. */
  ghost predicate ParentOk(t: Tree, h: Handle)
    requires h < |t.heap|
  {
    if h == ROOT then t.heap[h].parent.None?
    else
      && t.heap[h].parent.Some?
      && Live(t, t.heap[h].parent.value)
      && t.heap[h].name in t.heap[t.heap[h].parent.value].children
      && t.heap[t.heap[h].parent.value].children[t.heap[h].name] == h
  }

  /** Every child slot of a live node holds a live node that knows its parent and name. */
  ghost predicate ChildOk(t: Tree, h: Handle, n: Str)
    requires h < |t.heap| && n in t.heap[h].children
  {
    var c := t.heap[h].children[n];
    Live(t, c) && t.heap[c].parent == Some(h) && t.heap[c].name == n
  }

  ghost predicate Structured(t: Tree) {
    && HeapOrdered(t.heap)
    && IndexOk(t)
    && (forall h: Handle :: Live(t, h) ==> ParentOk(t, h))
    && (forall h: Handle, n :: Live(t, h) && n in t.heap[h].children ==> ChildOk(t, h, n))
  }

  /** `h` is `top` or lies below it, following parent pointers. */
  predicate Descends(heap: seq<Node>, h: Handle, top: Handle)
    decreases h
  {
    h == top ||
    (h < |heap| && heap[h].parent.Some? && heap[h].parent.value < h
     && Descends(heap, heap[h].parent.value, top))
  }

  lemma {:induction false} DescendsIsOlder(heap: seq<Node>, h: Handle, top: Handle)
    requires Descends(heap, h, top)
    ensures top <= h
    decreases h
  {
    if h != top { DescendsIsOlder(heap, heap[h].parent.value, top); }
  }

  lemma {:induction false} DescendsTransitive(heap: seq<Node>, a: Handle, b: Handle, c: Handle)
    requires Descends(heap, a, b) && Descends(heap, b, c)
    ensures Descends(heap, a, c)
    decreases a
  {
    if a != b { DescendsTransitive(heap, heap[a].parent.value, b, c); }
  }

  /** The nodes above one node form a chain. */
  lemma {:induction false} AncestorsChain(heap: seq<Node>, x: Handle, a: Handle, b: Handle)
    requires Descends(heap, x, a) && Descends(heap, x, b)
    ensures Descends(heap, a, b) || Descends(heap, b, a)
    decreases x
  {
    if x != a && x != b { AncestorsChain(heap, heap[x].parent.value, a, b); }
  }

  /** Two children of one node have no common descendant. */
  lemma {:induction false} SiblingsDisjoint(heap: seq<Node>, x: Handle, a: Handle, b: Handle)
    requires Descends(heap, x, a) && Descends(heap, x, b)
    requires a < |heap| && b < |heap| && heap[a].parent == heap[b].parent
    requires heap[a].parent.Some? && heap[a].parent.value < a && heap[a].parent.value < b
    ensures a == b
  {
    AncestorsChain(heap, x, a, b);
    if a != b {
      var p := heap[a].parent.value;
      if Descends(heap, a, b) { DescendsIsOlder(heap, p, b); } else { DescendsIsOlder(heap, p, a); }
    }
  }

  lemma {:induction false} LiveUnderRoot(t: Tree, h: Handle)
    requires Structured(t) && Live(t, h)
    ensures Live(t, ROOT) && Descends(t.heap, h, ROOT)
    decreases h
  {
    assert ParentOk(t, h);
    if h != ROOT { LiveUnderRoot(t, t.heap[h].parent.value); }
  }

  // ---------------------------------------------------------------------
  // Reachability by names
  // ---------------------------------------------------------------------

  /** The node found by following `path` down from `h`. */
  function Resolve(heap: seq<Node>, h: Handle, path: seq<Str>): Option<Handle>
    decreases |path|
  {
    if path == [] then Some(h)
    else if h < |heap| && path[0] in heap[h].children then Resolve(heap, heap[h].children[path[0]], path[1..])
    else None
  }

  /** The names on the way from the root to `h`. */
  function PathOf(heap: seq<Node>, h: Handle): seq<Str>
    decreases h
  {
    if h < |heap| && heap[h].parent.Some? && heap[h].parent.value < h
    then PathOf(heap, heap[h].parent.value) + [heap[h].name]
    else []
  }

  lemma {:induction false} ResolveAppend(heap: seq<Node>, h: Handle, path: seq<Str>, n: Str)
    ensures Resolve(heap, h, path + [n]) ==
            match Resolve(heap, h, path)
            case None => None
            case Some(k) => if k < |heap| && n in heap[k].children then Some(heap[k].children[n]) else None
    decreases |path|
  {
    if path == [] {
      assert (path + [n])[1..] == [];
    } else if h < |heap| && path[0] in heap[h].children {
      assert (path + [n])[1..] == path[1..] + [n];
      ResolveAppend(heap, heap[h].children[path[0]], path[1..], n);
    } else {
      assert (path + [n])[0] == path[0];
    }
  }

  lemma {:induction false} LiveIsReachable(t: Tree, h: Handle)
    requires Structured(t) && Live(t, h)
    ensures Resolve(t.heap, ROOT, PathOf(t.heap, h)) == Some(h)
    decreases h
  {
    assert ParentOk(t, h);
    if h != ROOT {
      var p := t.heap[h].parent.value;
      LiveIsReachable(t, p);
      ResolveAppend(t.heap, ROOT, PathOf(t.heap, p), t.heap[h].name);
    }
  }

  lemma {:induction false} ReachableIsLive(t: Tree, path: seq<Str>)
    requires Structured(t) && Live(t, ROOT)
    requires Resolve(t.heap, ROOT, path).Some?
    ensures Live(t, Resolve(t.heap, ROOT, path).value)
    ensures path == PathOf(t.heap, Resolve(t.heap, ROOT, path).value)
    decreases |path|
  {
    if path == [] {
      assert ParentOk(t, ROOT);
    } else {
      var k := |path| - 1;
      assert path == path[..k] + [path[k]];
      ResolveAppend(t.heap, ROOT, path[..k], path[k]);
      ReachableIsLive(t, path[..k]);
      var p := Resolve(t.heap, ROOT, path[..k]).value;
      assert ChildOk(t, p, path[k]);
    }
  }

  /** The index is exactly the set of nodes reachable from the live root, each
      by one path only; and it is empty once the root is gone. */
  lemma IndexIsReachableSet(t: Tree, h: Handle)
    requires Structured(t)
    ensures Live(t, ROOT) ==> (Live(t, h) <==> exists path :: Resolve(t.heap, ROOT, path) == Some(h))
    ensures Live(t, ROOT) ==>
      forall p, q :: Resolve(t.heap, ROOT, p) == Some(h) && Resolve(t.heap, ROOT, q) == Some(h) ==> p == q
    ensures !Live(t, ROOT) ==> t.byID == map[]
  {
    if Live(t, ROOT) {
      if Live(t, h) { LiveIsReachable(t, h); }
      forall p | Resolve(t.heap, ROOT, p) == Some(h) ensures Live(t, h) && p == PathOf(t.heap, h) {
        ReachableIsLive(t, p);
      }
    } else {
      forall id | id in t.byID ensures false { LiveUnderRoot(t, t.byID[id]); }
    }
  }

  // ---------------------------------------------------------------------
  // Destroy: the post-order sweep and the set it stands for
  // ---------------------------------------------------------------------

  /** collectPostOrder: children in name order, each before its parent. */
  ghost function PostOrder(heap: seq<Node>, h: Handle): seq<Handle>
    requires HeapOrdered(heap) && h < |heap|
    decreases |heap| - h, |heap[h].children| + 1
  {
    PostOrderKids(heap, h, SortedKeys(heap[h].children.Keys)) + [h]
  }

  ghost function PostOrderKids(heap: seq<Node>, h: Handle, names: seq<Str>): seq<Handle>
    requires HeapOrdered(heap) && h < |heap|
    requires forall n :: n in names ==> n in heap[h].children
    decreases |heap| - h, |names|
  {
    if names == [] then []
    else PostOrderKids(heap, h, names[..|names| - 1]) + PostOrder(heap, heap[h].children[names[|names| - 1]])
  }

  lemma PostOrderKidsStep(heap: seq<Node>, h: Handle, names: seq<Str>, i: nat)
    requires HeapOrdered(heap) && h < |heap| && i < |names|
    requires forall n :: n in names ==> n in heap[h].children
    ensures PostOrderKids(heap, h, names[..i + 1]) ==
      PostOrderKids(heap, h, names[..i]) + PostOrder(heap, heap[h].children[names[i]])
  {
    assert names[..i + 1][..i] == names[..i];
  }

  ghost predicate Swept(t: Tree, order: seq<Handle>, top: Handle) {
    forall x :: x in order ==> Live(t, x) && Descends(t.heap, x, top)
  }

  lemma {:induction false} PostOrderSwept(t: Tree, h: Handle)
    requires Structured(t) && Live(t, h)
    ensures Swept(t, PostOrder(t.heap, h), h)
    decreases |t.heap| - h, |t.heap[h].children| + 1
  {
    PostOrderKidsSwept(t, h, SortedKeys(t.heap[h].children.Keys));
  }

  lemma {:induction false} PostOrderKidsSwept(t: Tree, h: Handle, names: seq<Str>)
    requires Structured(t) && Live(t, h)
    requires forall n :: n in names ==> n in t.heap[h].children
    ensures Swept(t, PostOrderKids(t.heap, h, names), h)
    decreases |t.heap| - h, |names|
  {
    if names != [] {
      var n := names[|names| - 1];
      assert ChildOk(t, h, n);
      var c := t.heap[h].children[n];
      PostOrderKidsSwept(t, h, names[..|names| - 1]);
      PostOrderSwept(t, c);
      forall x | x in PostOrder(t.heap, c) ensures Descends(t.heap, x, h) {
        DescendsTransitive(t.heap, x, c, h);
      }
    }
  }

  lemma {:induction false} KidsContain(heap: seq<Node>, h: Handle, names: seq<Str>, n: Str, x: Handle)
    requires HeapOrdered(heap) && h < |heap|
    requires forall m :: m in names ==> m in heap[h].children
    requires n in names && x in PostOrder(heap, heap[h].children[n])
    ensures x in PostOrderKids(heap, h, names)
    decreases |names|
  {
    if names[|names| - 1] != n { KidsContain(heap, h, names[..|names| - 1], n, x); }
  }

  lemma {:induction false} PostOrderContains(heap: seq<Node>, h: Handle, p: Handle, n: Str)
    requires HeapOrdered(heap) && h < |heap|
    requires p in PostOrder(heap, h) && p < |heap| && n in heap[p].children
    ensures heap[p].children[n] in PostOrder(heap, h)
    decreases |heap| - h, |heap[h].children| + 1
  {
    var names := SortedKeys(heap[h].children.Keys);
    if p == h {
      var c := heap[h].children[n];
      assert PostOrder(heap, c)[|PostOrder(heap, c)| - 1] == c;
      KidsContain(heap, h, names, n, c);
    } else {
      PostOrderKidsContain(heap, h, names, p, n);
    }
  }

  lemma {:induction false} PostOrderKidsContain(heap: seq<Node>, h: Handle, names: seq<Str>, p: Handle, n: Str)
    requires HeapOrdered(heap) && h < |heap|
    requires forall m :: m in names ==> m in heap[h].children
    requires p in PostOrderKids(heap, h, names) && p < |heap| && n in heap[p].children
    ensures heap[p].children[n] in PostOrderKids(heap, h, names)
    decreases |heap| - h, |names|
  {
    var c := heap[h].children[names[|names| - 1]];
    if p in PostOrder(heap, c) {
      PostOrderContains(heap, c, p, n);
    } else {
      PostOrderKidsContain(heap, h, names[..|names| - 1], p, n);
    }
  }

  lemma {:induction false} PostOrderComplete(t: Tree, top: Handle, x: Handle)
    requires Structured(t) && Live(t, top) && Live(t, x) && Descends(t.heap, x, top)
    ensures x in PostOrder(t.heap, top)
    decreases x
  {
    if x == top {
      var po := PostOrder(t.heap, top);
      assert po[|po| - 1] == top;
    } else {
      assert ParentOk(t, x) by { if x == ROOT { DescendsIsOlder(t.heap, x, top); } }
      var p := t.heap[x].parent.value;
      PostOrderComplete(t, top, p);
      PostOrderContains(t.heap, top, p, t.heap[x].name);
    }
  }

  /** No node comes before one of its descendants, and none comes twice. */
  ghost predicate DescendantsFirst(heap: seq<Node>, order: seq<Handle>) {
    forall i, j :: 0 <= i < j < |order| ==> !Descends(heap, order[j], order[i])
  }

  lemma {:induction false} DescendantsFirstConcat(heap: seq<Node>, a: seq<Handle>, b: seq<Handle>)
    requires DescendantsFirst(heap, a) && DescendantsFirst(heap, b)
    requires forall x, y :: x in a && y in b ==> !Descends(heap, y, x)
    ensures DescendantsFirst(heap, a + b)
  {
    forall i, j | 0 <= i < j < |a + b| ensures !Descends(heap, (a + b)[j], (a + b)[i]) {
      if i < |a| && |a| <= j { assert a[i] in a && b[j - |a|] in b; }
    }
  }

  lemma {:induction false} PostOrderDescendantsFirst(t: Tree, h: Handle)
    requires Structured(t) && Live(t, h)
    ensures DescendantsFirst(t.heap, PostOrder(t.heap, h))
    decreases |t.heap| - h, |t.heap[h].children| + 1
  {
    var names := SortedKeys(t.heap[h].children.Keys);
    assert forall i, j :: 0 <= i < j < |names| ==> names[i] != names[j] by {
      forall i, j | 0 <= i < j < |names| ensures names[i] != names[j] { LessTotal(names[i], names[j]); }
    }
    var kids := PostOrderKids(t.heap, h, names);
    PostOrderKidsDescendantsFirst(t, h, names);
    forall x, y | x in kids && y in [h] ensures !Descends(t.heap, y, x) {
      var _ := KidsUnderNamedChild(t, h, names, x);
      if Descends(t.heap, h, x) { DescendsIsOlder(t.heap, h, x); }
    }
    DescendantsFirstConcat(t.heap, kids, [h]);
  }

  lemma {:induction false} KidsUnderNamedChild(t: Tree, h: Handle, names: seq<Str>, x: Handle) returns (n: Str)
    requires Structured(t) && Live(t, h)
    requires forall m :: m in names ==> m in t.heap[h].children
    requires x in PostOrderKids(t.heap, h, names)
    ensures n in names && Descends(t.heap, x, t.heap[h].children[n]) && h < x
    decreases |names|
  {
    n := names[|names| - 1];
    var c := t.heap[h].children[n];
    assert ChildOk(t, h, n);
    if x in PostOrder(t.heap, c) {
      PostOrderSwept(t, c);
      DescendsIsOlder(t.heap, x, c);
    } else {
      n := KidsUnderNamedChild(t, h, names[..|names| - 1], x);
    }
  }

  lemma {:induction false} PostOrderKidsDescendantsFirst(t: Tree, h: Handle, names: seq<Str>)
    requires Structured(t) && Live(t, h)
    requires forall n :: n in names ==> n in t.heap[h].children
    requires forall i, j :: 0 <= i < j < |names| ==> names[i] != names[j]
    ensures DescendantsFirst(t.heap, PostOrderKids(t.heap, h, names))
    decreases |t.heap| - h, |names|
  {
    if names != [] {
      var k := |names| - 1;
      var c := t.heap[h].children[names[k]];
      assert ChildOk(t, h, names[k]);
      var before, last := PostOrderKids(t.heap, h, names[..k]), PostOrder(t.heap, c);
      PostOrderKidsDescendantsFirst(t, h, names[..k]);
      PostOrderDescendantsFirst(t, c);
      PostOrderSwept(t, c);
      forall x, y | x in before && y in last ensures !Descends(t.heap, y, x) {
        if Descends(t.heap, y, x) {
          var m := KidsUnderNamedChild(t, h, names[..k], x);
          assert ChildOk(t, h, m);
          DescendsTransitive(t.heap, y, x, t.heap[h].children[m]);
          SiblingsDisjoint(t.heap, y, c, t.heap[h].children[m]);
          assert false;
        }
      }
      DescendantsFirstConcat(t.heap, before, last);
    }
  }

  /** What Destroy tears down: each live node of the subtree, once, descendants first. */
  lemma PostOrderIsSubtree(t: Tree, top: Handle)
    requires Structured(t) && Live(t, top)
    ensures forall x :: x in PostOrder(t.heap, top) <==> Live(t, x) && Descends(t.heap, x, top)
    ensures DescendantsFirst(t.heap, PostOrder(t.heap, top))
    ensures forall i, j :: 0 <= i < j < |PostOrder(t.heap, top)| ==>
      PostOrder(t.heap, top)[i] != PostOrder(t.heap, top)[j]
  {
    PostOrderSwept(t, top);
    PostOrderDescendantsFirst(t, top);
    forall x | Live(t, x) && Descends(t.heap, x, top) ensures x in PostOrder(t.heap, top) {
      PostOrderComplete(t, top, x);
    }
  }
}
