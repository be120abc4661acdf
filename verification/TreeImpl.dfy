/** The tree object of tree/impl.go: its fields, its critical sections, and
    their agreement with the steps of TreeRuns. */
module TreeImpl {
  import opened Common
  import opened TreeModel
  import opened TreeRuns

  // ---------------------------------------------------------------------
  // What Walk shows
  // ---------------------------------------------------------------------

  /** No node from `x` up to `top` is pending. */
  predicate ShownUpTo(heap: seq<Node>, x: Handle, top: Handle)
    decreases x
  {
    x < |heap| && !heap[x].pending &&
    (x == top || (heap[x].parent.Some? && heap[x].parent.value < x && ShownUpTo(heap, heap[x].parent.value, top)))
  }

  ghost function PreOrder(heap: seq<Node>, h: Handle): seq<Handle>
    requires HeapOrdered(heap) && h < |heap|
    decreases |heap| - h, |heap[h].children| + 1
  {
    if heap[h].pending then [] else [h] + PreOrderKids(heap, h, SortedKeys(heap[h].children.Keys))
  }

  ghost function PreOrderKids(heap: seq<Node>, h: Handle, names: seq<Str>): seq<Handle>
    requires HeapOrdered(heap) && h < |heap|
    requires forall n :: n in names ==> n in heap[h].children
    decreases |heap| - h, |names|
  {
    if names == [] then []
    else PreOrderKids(heap, h, names[..|names| - 1]) + PreOrder(heap, heap[h].children[names[|names| - 1]])
  }

  lemma PreOrderKidsStep(heap: seq<Node>, h: Handle, names: seq<Str>, i: nat)
    requires HeapOrdered(heap) && h < |heap| && i < |names|
    requires forall n :: n in names ==> n in heap[h].children
    ensures PreOrderKids(heap, h, names[..i + 1]) ==
      PreOrderKids(heap, h, names[..i]) + PreOrder(heap, heap[h].children[names[i]])
  {
    assert names[..i + 1][..i] == names[..i];
  }

  lemma {:induction false} ShownTransitive(heap: seq<Node>, x: Handle, c: Handle, h: Handle)
    requires ShownUpTo(heap, x, c) && ShownUpTo(heap, c, h)
    ensures ShownUpTo(heap, x, h)
    decreases x
  {
    if x != c { ShownTransitive(heap, heap[x].parent.value, c, h); }
  }

  lemma {:induction false} PreOrderShown(t: Tree, h: Handle, x: Handle)
    requires Structured(t) && Live(t, h) && x in PreOrder(t.heap, h)
    ensures Live(t, x) && ShownUpTo(t.heap, x, h)
    decreases |t.heap| - h, |t.heap[h].children| + 1
  {
    if x != h {
      var n := PreOrderKidsShown(t, h, SortedKeys(t.heap[h].children.Keys), x);
      assert ChildOk(t, h, n);
      ShownTransitive(t.heap, x, t.heap[h].children[n], h);
    }
  }

  lemma {:induction false} PreOrderKidsShown(t: Tree, h: Handle, names: seq<Str>, x: Handle) returns (n: Str)
    requires Structured(t) && Live(t, h)
    requires forall n :: n in names ==> n in t.heap[h].children
    requires x in PreOrderKids(t.heap, h, names)
    ensures n in names && Live(t, x) && ShownUpTo(t.heap, x, t.heap[h].children[n])
    ensures !t.heap[t.heap[h].children[n]].pending
    decreases |t.heap| - h, |names|
  {
    n := names[|names| - 1];
    assert ChildOk(t, h, n);
    if x in PreOrder(t.heap, t.heap[h].children[n]) {
      PreOrderShown(t, t.heap[h].children[n], x);
    } else {
      n := PreOrderKidsShown(t, h, names[..|names| - 1], x);
    }
  }

  lemma {:induction false} PreKidsContain(heap: seq<Node>, h: Handle, names: seq<Str>, n: Str, x: Handle)
    requires HeapOrdered(heap) && h < |heap|
    requires forall m :: m in names ==> m in heap[h].children
    requires n in names && x in PreOrder(heap, heap[h].children[n])
    ensures x in PreOrderKids(heap, h, names)
    decreases |names|
  {
    if names[|names| - 1] != n { PreKidsContain(heap, h, names[..|names| - 1], n, x); }
  }

  lemma {:induction false} PreOrderContains(heap: seq<Node>, h: Handle, p: Handle, n: Str)
    requires HeapOrdered(heap) && h < |heap|
    requires p in PreOrder(heap, h) && p < |heap| && n in heap[p].children
    requires !heap[heap[p].children[n]].pending
    ensures heap[p].children[n] in PreOrder(heap, h)
    decreases |heap| - h, |heap[h].children| + 1
  {
    var names := SortedKeys(heap[h].children.Keys);
    if p == h {
      PreKidsContain(heap, h, names, n, heap[h].children[n]);
    } else {
      PreOrderKidsContain(heap, h, names, p, n);
    }
  }

  lemma {:induction false} PreOrderKidsContain(heap: seq<Node>, h: Handle, names: seq<Str>, p: Handle, n: Str)
    requires HeapOrdered(heap) && h < |heap|
    requires forall m :: m in names ==> m in heap[h].children
    requires p in PreOrderKids(heap, h, names) && p < |heap| && n in heap[p].children
    requires !heap[heap[p].children[n]].pending
    ensures heap[p].children[n] in PreOrderKids(heap, h, names)
    decreases |heap| - h, |names|
  {
    var c := heap[h].children[names[|names| - 1]];
    if p in PreOrder(heap, c) {
      PreOrderContains(heap, c, p, n);
    } else {
      PreOrderKidsContain(heap, h, names[..|names| - 1], p, n);
    }
  }

  lemma {:induction false} PreOrderComplete(t: Tree, top: Handle, x: Handle)
    requires Structured(t) && Live(t, top) && Live(t, x) && ShownUpTo(t.heap, x, top)
    ensures x in PreOrder(t.heap, top)
    decreases x
  {
    if x != top {
      assert ParentOk(t, x);
      PreOrderComplete(t, top, t.heap[x].parent.value);
      PreOrderContains(t.heap, top, t.heap[x].parent.value, t.heap[x].name);
    }
  }

  /** While the root is live, Walk visits exactly the live nodes with no pending
      node between them and the root, and so only nodes LookupID also answers for. */
  lemma WalkIsShownSet(t: Tree, x: Handle)
    requires Structured(t) && Live(t, ROOT)
    ensures x in PreOrder(t.heap, ROOT) <==> Live(t, x) && ShownUpTo(t.heap, x, ROOT)
    ensures x in PreOrder(t.heap, ROOT) ==> !t.heap[x].pending
  {
    if x in PreOrder(t.heap, ROOT) { PreOrderShown(t, ROOT, x); }
    if Live(t, x) && ShownUpTo(t.heap, x, ROOT) { PreOrderComplete(t, ROOT, x); }
  }

  /** Walk starts from the root pointer, not from the index: what it shows is live if and
      only if the root is. */
  lemma WalkIsLiveIffRootIs(t: Tree)
    requires Structured(t) && t.heap != [] && !t.heap[ROOT].pending
    ensures Live(t, ROOT) <==> forall x :: x in PreOrder(t.heap, ROOT) ==> Live(t, x)
  {
    if Live(t, ROOT) {
      forall x | x in PreOrder(t.heap, ROOT) ensures Live(t, x) { WalkIsShownSet(t, x); }
    }
    assert ROOT in PreOrder(t.heap, ROOT);
  }

  /** Destroying the root takes every node out of the index and leaves Walk as it was. */
  lemma WalkAfterRootDestroyed(t: Tree)
    requires Structured(t) && Live(t, ROOT)
    ensures PreOrder(Remove(t, ROOT).heap, ROOT) == PreOrder(t.heap, ROOT)
    ensures forall h: Handle :: !Live(Remove(t, ROOT), h)
  {
    assert ParentOk(t, ROOT);
    RemoveStructured(t, ROOT);
    forall h: Handle ensures !Live(Remove(t, ROOT), h) {
      if Live(t, h) { LiveUnderRoot(t, h); }
    }
  }

  /** Both hold in every run: the root is never pending. */
  lemma {:induction false} EveryRunWalk(root: ActorID, steps: seq<Step>)
    ensures var t := Run(Start(root), steps).tree;
      && Structured(t) && t.heap != [] && !t.heap[ROOT].pending
      && (Live(t, ROOT) <==> forall x :: x in PreOrder(t.heap, ROOT) ==> Live(t, x))
    decreases |steps|
  {
    EveryRunKeepsInv(root, steps);
    if steps != [] {
      var before := steps[..|steps| - 1];
      EveryRunKeepsInv(root, before);
      EveryRunWalk(root, before);
      StepOnlyForgets(Run(Start(root), before), steps[|steps| - 1], ROOT);
    }
    WalkIsLiveIffRootIs(Run(Start(root), steps).tree);
  }

  // ---------------------------------------------------------------------
  // The object
  // ---------------------------------------------------------------------

  datatype ReserveResult = Reserved(spawn: Spawn) | Refused(error: ReserveError)

  class ActorTree {
    var heap: seq<Node>
    var byID: map<ActorID, Handle>
    var scoped: map<ActorID, map<Str, ActorID>>
    var global: map<ActorID, set<Str>>

    ghost function View(): Tree
      reads this
    {
      Tree(heap, byID, scoped, global)
    }

    ghost predicate Valid()
      reads this
    {
      Structured(View()) && DirectoryOk(View())
    }

    constructor (root: ActorID)
      ensures View() == Start(root).tree && Valid()
    {
      heap := [Node(root, None, [], map[], false)];
      byID, scoped, global := map[root := ROOT], map[], map[];
      new;
      EveryRunKeepsInv(root, []);
    }

    /** Spawn, first critical section. */
    method ReservePhase(parent: ActorID, name: Str, alloc: Option<ActorID>) returns (r: ReserveResult)
      requires Valid()
      modifies this
      ensures Valid()
      ensures r.Refused? <==> ReserveFailure(old(View()), parent, name, alloc).Some?
      ensures r.Refused? ==> r.error == ReserveFailure(old(View()), parent, name, alloc).value && View() == old(View())
      ensures forall fl :: r.Reserved? ==>
        System(View(), fl + {r.spawn}) == Next(System(old(View()), fl), Reserve(parent, name, alloc))
    {
      if parent !in byID { return Refused(UnknownParent); }
      var p := byID[parent];
      if name in heap[p].children { return Refused(NameTaken); }
      if alloc.None? { return Refused(AllocatorFailed); }
      if alloc.value in byID { return Refused(Cycle); }
      InsertStructured(View(), p, name, alloc.value);
      ghost var t := View();
      var c := |heap|;
      heap := heap[p := heap[p].(children := heap[p].children[name := c])]
              + [Node(alloc.value, Some(p), name, map[], true)];
      byID := byID[alloc.value := c];
      assert View() == Insert(t, p, name, alloc.value);
      assert forall n :: AnyGlobal(View(), n) == AnyGlobal(t, n) && AnyScoped(View(), n) == AnyScoped(t, n);
      r := Reserved(Spawn(parent, p, alloc.value, c));
    }

    method CollectPostOrder(x: Handle) returns (order: seq<Handle>)
      requires HeapOrdered(heap) && x < |heap|
      ensures order == PostOrder(heap, x)
      decreases |heap| - x
    {
      order := [];
      var names := SortedKeys(heap[x].children.Keys);
      var i := 0;
      while i < |names|
        invariant 0 <= i <= |names|
        invariant order == PostOrderKids(heap, x, names[..i])
      {
        var sub := CollectPostOrder(heap[x].children[names[i]]);
        PostOrderKidsStep(heap, x, names, i);
        order := order + sub;
        i := i + 1;
      }
      assert names[..i] == names;
      order := order + [x];
    }

    /** The index deletions for a swept subtree. */
    method DropFromIndex(order: seq<Handle>)
      requires forall x :: x in order ==> x < |heap|
      modifies this`byID, this`scoped, this`global
      ensures byID == old(byID) - SelfIDs(heap, order)
      ensures scoped == old(scoped) - SelfIDs(heap, order)
      ensures global == old(global) - SelfIDs(heap, order)
    {
      var i := 0;
      while i < |order|
        invariant 0 <= i <= |order| && heap == old(heap)
        invariant byID == old(byID) - SelfIDs(heap, order[..i])
        invariant scoped == old(scoped) - SelfIDs(heap, order[..i])
        invariant global == old(global) - SelfIDs(heap, order[..i])
      {
        assert order[i] in order;
        var id := heap[order[i]].self;
        assert SelfIDs(heap, order[..i + 1]) == SelfIDs(heap, order[..i]) + {id} by {
          assert order[..i + 1] == order[..i] + [order[i]];
        }
        byID, scoped, global := byID - {id}, scoped - {id}, global - {id};
        i := i + 1;
      }
      assert order[..i] == order;
    }

    /** The sweep shared by Destroy and rollback. */
    method Detach(top: Handle) returns (order: seq<Handle>)
      requires Valid() && Live(View(), top)
      modifies this
      ensures Valid() && View() == Remove(old(View()), top)
      ensures order == PostOrder(old(heap), top)
    {
      ghost var t := View();
      RemoveStructured(t, top);
      DirectoryAfterRemove(t, top);
      order := CollectPostOrder(top);
      SweptIDs(t, top);
      DropFromIndex(order);
      assert ParentOk(t, top);
      if heap[top].parent.Some? {
        var p := heap[top].parent.value;
        heap := heap[p := heap[p].(children := heap[p].children - {heap[top].name})];
      }
    }

    /** Spawn, last critical section. */
    method FinishPhase(spawn: Spawn, buildOk: bool) returns (verdict: FinishResult, order: seq<Handle>)
      requires Valid() && SpawnOk(View(), spawn)
      modifies this
      ensures Valid()
      ensures View() == FinishTree(old(View()), spawn, buildOk)
      ensures verdict == Verdict(old(View()), spawn, buildOk)
      ensures order == if !buildOk && StillOurs(old(View()), spawn) then PostOrder(old(heap), spawn.childNode) else []
    {
      ghost var t := View();
      var ours := spawn.childID in byID && byID[spawn.childID] == spawn.childNode;
      var stillParent := spawn.parentID in byID && byID[spawn.parentID] == spawn.pNode;
      order := [];
      if ours {
        assert Live(t, spawn.childNode);
        assert ParentOk(t, spawn.childNode);
      }
      if buildOk && stillParent && ours {
        CommitStructured(t, spawn.childNode);
        heap := heap[spawn.childNode := heap[spawn.childNode].(pending := false)];
        assert forall n :: AnyGlobal(View(), n) == AnyGlobal(t, n) && AnyScoped(View(), n) == AnyScoped(t, n);
        return Committed, [];
      }
      if ours { order := Detach(spawn.childNode); }
      if !buildOk { return BuildFailed, order; }
      if !stillParent { return LostParent, order; }
      return LostTarget, order;
    }

    /** Destroy: the terminator then runs over `order`, outside the lock. */
    method Destroy(target: ActorID) returns (found: bool, order: seq<Handle>)
      requires Valid()
      modifies this
      ensures Valid() && View() == DestroyTree(old(View()), target)
      ensures found <==> target in old(byID)
      ensures found ==> order == PostOrder(old(heap), old(byID)[target])
      ensures found ==> forall h: Handle ::
        h in order <==> Live(old(View()), h) && Descends(old(heap), h, old(byID)[target])
      ensures found ==> DescendantsFirst(old(heap), order)
      ensures !found ==> order == []
    {
      if target !in byID { return false, []; }
      assert Live(View(), byID[target]);
      PostOrderIsSubtree(View(), byID[target]);
      order := Detach(byID[target]);
      found := true;
    }

    method WalkFrom(x: Handle) returns (shown: seq<Handle>)
      requires HeapOrdered(heap) && x < |heap|
      ensures shown == PreOrder(heap, x)
      decreases |heap| - x
    {
      if heap[x].pending { return []; }
      var kids: seq<Handle> := [];
      var names := SortedKeys(heap[x].children.Keys);
      var i := 0;
      while i < |names|
        invariant 0 <= i <= |names|
        invariant kids == PreOrderKids(heap, x, names[..i])
      {
        var c := heap[x].children[names[i]];
        var sub := WalkFrom(c);
        PreOrderKidsStep(heap, x, names, i);
        kids := kids + sub;
        i := i + 1;
      }
      assert names[..i] == names;
      shown := [x] + kids;
    }

    /** LookupScopedService: the registration of the nearest strict ancestor that has one. */
    method LookupScoped(caller: ActorID, name: Str) returns (r: Option<ActorID>)
      requires Valid()
      ensures caller !in byID ==> r == None
      ensures caller in byID ==>
        (r.None? <==> forall a: Handle :: StrictlyAbove(heap, byID[caller], a) ==> !Offers(View(), a, name))
      ensures caller in byID && r.Some? ==>
        exists a: Handle :: StrictlyAbove(heap, byID[caller], a) && Offers(View(), a, name)
          && r.value == scoped[heap[a].self][name]
          && forall b: Handle :: StrictlyAbove(heap, byID[caller], b) && Offers(View(), b, name) ==>
               Descends(heap, a, b)
    {
      if caller !in byID { return None; }
      var n := byID[caller];
      assert Live(View(), n);
      assert ParentOk(View(), n);
      var p := heap[n].parent;
      while p.Some?
        invariant p.Some? ==> p.value < n && Live(View(), p.value) && StrictlyAbove(heap, n, p.value)
        invariant forall b: Handle :: StrictlyAbove(heap, n, b) && Offers(View(), b, name) ==>
          p.Some? && Descends(heap, p.value, b)
        decreases if p.Some? then p.value + 1 else 0
      {
        var q := p.value;
        if heap[q].self in scoped && name in scoped[heap[q].self] {
          return Some(scoped[heap[q].self][name]);
        }
        assert ParentOk(View(), q);
        StepUp(heap, n, q);
        p := heap[q].parent;
      }
      return None;
    }

    /** RegisterScopedService */
    method AddScopedService(owner: ActorID, name: Str, target: ActorID) returns (r: ServiceResult)
      requires Valid()
      modifies this
      ensures Valid()
      ensures r == ScopedOutcome(old(View()), owner, name)
      ensures View() == RegisterScoped(old(View()), owner, name, target)
    {
      ghost var t := View();
      StepKeepsValid(t, AddScoped(owner, name, target));
      if !ValidName(name) { return InvalidName; }
      if owner !in byID { return UnknownOwner; }
      var ownerHasName := owner in scoped && name in scoped[owner];
      r := ScopedRegistrationError(exists o :: o in global && name in global[o], ownerHasName);
      if r.Registered? {
        var m: map<Str, ActorID> := if owner in scoped then scoped[owner] else map[];
        scoped := scoped[owner := m[name := target]];
      }
    }

    /** The scan of RegisterGlobalService stops at the first owner found, whichever that is. */
    method ScanGlobal(owner: ActorID, name: Str) returns (bySelf: bool, byOther: bool)
      requires OneOwner(global)
      ensures bySelf <==> owner in global && name in global[owner]
      ensures byOther <==> AnyGlobal(View(), name) && !bySelf
    {
      var rest := global.Keys;
      bySelf, byOther := false, false;
      while rest != {}
        invariant rest <= global.Keys
        invariant forall o :: o in global.Keys - rest ==> name !in global[o]
        decreases |rest|
      {
        var o :| o in rest;
        if name in global[o] { return o == owner, o != owner; }
        rest := rest - {o};
      }
    }

    /** RegisterGlobalService */
    method AddGlobalService(owner: ActorID, name: Str) returns (r: ServiceResult)
      requires Valid()
      modifies this
      ensures Valid()
      ensures r == GlobalOutcome(old(View()), owner, name)
      ensures View() == RegisterGlobal(old(View()), owner, name)
    {
      ghost var t := View();
      StepKeepsValid(t, AddGlobal(owner, name));
      if !ValidName(name) { return InvalidName; }
      if owner !in byID { return UnknownOwner; }
      var takenBySelf, takenByOther := ScanGlobal(owner, name);
      r := GlobalRegistrationError(takenBySelf, takenByOther, exists o :: o in scoped && name in scoped[o]);
      if r.Registered? {
        var m: set<Str> := if owner in global then global[owner] else {};
        global := global[owner := m + {name}];
      }
    }
  }

  lemma StepKeepsValid(t: Tree, step: Step)
    requires Structured(t) && DirectoryOk(t)
    requires step.AddScoped? || step.AddGlobal?
    ensures Structured(Next(System(t, {}), step).tree) && DirectoryOk(Next(System(t, {}), step).tree)
  {
    DirectoryAfterService(t, step);
    var t' := Next(System(t, {}), step).tree;
    assert t'.heap == t.heap && t'.byID == t.byID;
    forall h: Handle | Live(t', h) ensures ParentOk(t', h) { assert Live(t, h) && ParentOk(t, h); }
    forall h: Handle, n | Live(t', h) && n in t'.heap[h].children ensures ChildOk(t', h, n) {
      assert Live(t, h) && ChildOk(t, h, n);
    }
  }

  ghost function SelfIDs(heap: seq<Node>, order: seq<Handle>): set<ActorID> {
    set x | x in order && x < |heap| :: heap[x].self
  }

  lemma SweptIDs(t: Tree, top: Handle)
    requires Structured(t) && Live(t, top)
    ensures forall x :: x in PostOrder(t.heap, top) ==> x < |t.heap|
    ensures SelfIDs(t.heap, PostOrder(t.heap, top)) == Gone(t, top)
  {
    PostOrderIsSubtree(t, top);
    var ids := SelfIDs(t.heap, PostOrder(t.heap, top));
    forall id | id in Gone(t, top) ensures id in ids {
      assert Live(t, t.byID[id]);
      assert t.byID[id] in PostOrder(t.heap, top);
    }
  }

  /** `a` is a proper ancestor of `n`. */
  predicate StrictlyAbove(heap: seq<Node>, n: Handle, a: Handle) { a != n && Descends(heap, n, a) }

  predicate Offers(t: Tree, a: Handle, name: Str) {
    a < |t.heap| && t.heap[a].self in t.scoped && name in t.scoped[t.heap[a].self]
  }

  lemma StepUp(heap: seq<Node>, n: Handle, q: Handle)
    requires HeapOrdered(heap) && q < n < |heap| && StrictlyAbove(heap, n, q)
    ensures heap[q].parent.Some? ==> StrictlyAbove(heap, n, heap[q].parent.value)
    ensures forall b: Handle :: Descends(heap, q, b) && b != q ==>
      heap[q].parent.Some? && Descends(heap, heap[q].parent.value, b)
  {
    if heap[q].parent.Some? { DescendsTransitive(heap, n, q, heap[q].parent.value); }
  }
}
