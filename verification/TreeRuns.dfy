/** The critical sections of tree/impl.go as steps, and what every
    interleaving of them keeps. */
module TreeRuns {
  import opened Common
  import opened TreeModel

  // ---------------------------------------------------------------------
  // Topology: reserve, commit, remove
  // ---------------------------------------------------------------------

  datatype ReserveError = UnknownParent | NameTaken | AllocatorFailed | Cycle

  /** The early returns of Spawn's first phase, in the order it tests them. */
  function ReserveFailure(t: Tree, parent: ActorID, name: Str, alloc: Option<ActorID>): Option<ReserveError> {
    if parent !in t.byID then Some(UnknownParent)
    else if t.byID[parent] < |t.heap| && name in t.heap[t.byID[parent]].children then Some(NameTaken)
    else if alloc.None? then Some(AllocatorFailed)
    else if alloc.value in t.byID then Some(Cycle)
    else None
  }

  /** Phase 1: insert a pending node under its parent and into the index. */
  function Insert(t: Tree, p: Handle, name: Str, child: ActorID): Tree
    requires p < |t.heap|
  {
    var linked := t.heap[p := t.heap[p].(children := t.heap[p].children[name := |t.heap|])];
    t.(heap := linked + [Node(child, Some(p), name, map[], true)],
       byID := t.byID[child := |t.heap|])
  }

  function Commit(t: Tree, h: Handle): Tree
    requires h < |t.heap|
  {
    t.(heap := t.heap[h := t.heap[h].(pending := false)])
  }

  /** The ActorIDs of the live nodes at or below `top`. */
  function Gone(t: Tree, top: Handle): set<ActorID> {
    set id | id in t.byID && Descends(t.heap, t.byID[id], top)
  }

  function Unlink(heap: seq<Node>, top: Handle): seq<Node>
    requires top < |heap|
  {
    if heap[top].parent.Some? && heap[top].parent.value < |heap| then
      var p := heap[top].parent.value;
      heap[p := heap[p].(children := heap[p].children - {heap[top].name})]
    else heap
  }

  /** Destroy and rollback: drop a whole subtree and everything it registered. */
  function Remove(t: Tree, top: Handle): Tree
    requires top < |t.heap|
  {
    Tree(Unlink(t.heap, top), t.byID - Gone(t, top), t.scoped - Gone(t, top), t.global - Gone(t, top))
  }

  lemma InsertLive(t: Tree, p: Handle, name: Str, child: ActorID)
    requires IndexOk(t) && p < |t.heap| && child !in t.byID
    ensures forall h: Handle :: Live(Insert(t, p, name, child), h) <==> Live(t, h) || h == |t.heap|
    ensures forall k :: 0 <= k < |t.heap| ==>
      var k' := Insert(t, p, name, child).heap[k];
      && k'.self == t.heap[k].self && k'.parent == t.heap[k].parent
      && k'.name == t.heap[k].name && k'.pending == t.heap[k].pending
      && (k != p ==> k'.children == t.heap[k].children)
  {
  }

  lemma InsertParents(t: Tree, p: Handle, name: Str, child: ActorID)
    requires Structured(t) && Live(t, p) && name !in t.heap[p].children && child !in t.byID
    ensures forall h: Handle :: Live(Insert(t, p, name, child), h) ==> ParentOk(Insert(t, p, name, child), h)
  {
    var t' := Insert(t, p, name, child);
    InsertLive(t, p, name, child);
    forall h: Handle | Live(t', h) ensures ParentOk(t', h) {
      if h < |t.heap| { assert ParentOk(t, h); }
    }
  }

  lemma InsertStructured(t: Tree, p: Handle, name: Str, child: ActorID)
    requires Structured(t) && Live(t, p) && name !in t.heap[p].children && child !in t.byID
    ensures Structured(Insert(t, p, name, child))
  {
    var t' := Insert(t, p, name, child);
    InsertLive(t, p, name, child);
    InsertParents(t, p, name, child);
    forall h: Handle, n | Live(t', h) && n in t'.heap[h].children ensures ChildOk(t', h, n) {
      if h == |t.heap| || (h == p && n == name) {
      } else {
        assert ChildOk(t, h, n);
      }
    }
  }

  lemma CommitStructured(t: Tree, h: Handle)
    requires Structured(t) && Live(t, h)
    ensures Structured(Commit(t, h))
    ensures forall k: Handle :: Live(Commit(t, h), k) <==> Live(t, k)
  {
    var t' := Commit(t, h);
    assert forall k :: 0 <= k < |t.heap| ==>
      t'.heap[k].self == t.heap[k].self && t'.heap[k].parent == t.heap[k].parent &&
      t'.heap[k].name == t.heap[k].name && t'.heap[k].children == t.heap[k].children;
    forall k: Handle | Live(t', k) ensures ParentOk(t', k) { assert ParentOk(t, k); }
    forall k: Handle, n | Live(t', k) && n in t'.heap[k].children ensures ChildOk(t', k, n) {
      assert ChildOk(t, k, n);
    }
  }

  lemma UnlinkKeepsIdentity(t: Tree, top: Handle)
    requires Structured(t) && Live(t, top)
    ensures |Unlink(t.heap, top)| == |t.heap|
    ensures forall k :: 0 <= k < |t.heap| ==>
      && Unlink(t.heap, top)[k].self == t.heap[k].self
      && Unlink(t.heap, top)[k].parent == t.heap[k].parent
      && Unlink(t.heap, top)[k].name == t.heap[k].name
      && Unlink(t.heap, top)[k].pending == t.heap[k].pending
    ensures forall k, n :: 0 <= k < |t.heap| ==>
      (n in Unlink(t.heap, top)[k].children <==>
       n in t.heap[k].children && !(t.heap[top].parent == Some(k) && n == t.heap[top].name))
    ensures forall k, n :: 0 <= k < |t.heap| && n in Unlink(t.heap, top)[k].children ==>
      Unlink(t.heap, top)[k].children[n] == t.heap[k].children[n]
  {
    assert ParentOk(t, top);
  }

  lemma RemoveLive(t: Tree, top: Handle)
    requires Structured(t) && Live(t, top)
    ensures forall h: Handle :: Live(Remove(t, top), h) <==> Live(t, h) && !Descends(t.heap, h, top)
  {
    UnlinkKeepsIdentity(t, top);
    var t' := Remove(t, top);
    forall h: Handle ensures Live(t', h) <==> Live(t, h) && !Descends(t.heap, h, top) { }
  }

  lemma RemoveKeepsParent(t: Tree, top: Handle, h: Handle)
    requires Structured(t) && Live(t, top) && Live(Remove(t, top), h)
    ensures h < |Remove(t, top).heap| && ParentOk(Remove(t, top), h)
  {
    RemoveLive(t, top);
    UnlinkKeepsIdentity(t, top);
    assert ParentOk(t, h);
    if h != ROOT { assert !Descends(t.heap, t.heap[h].parent.value, top); }
  }

  lemma RemoveKeepsChild(t: Tree, top: Handle, h: Handle, n: Str)
    requires Structured(t) && Live(t, top) && Live(Remove(t, top), h) && n in Remove(t, top).heap[h].children
    ensures ChildOk(Remove(t, top), h, n)
  {
    RemoveLive(t, top);
    UnlinkKeepsIdentity(t, top);
    assert ChildOk(t, h, n);
    var c := t.heap[h].children[n];
    assert c != top;
    assert !Descends(t.heap, c, top);
  }

  lemma RemoveHeapOrdered(t: Tree, top: Handle)
    requires Structured(t) && Live(t, top)
    ensures HeapOrdered(Remove(t, top).heap) && IndexOk(Remove(t, top))
  {
    UnlinkKeepsIdentity(t, top);
  }

  /** Exactly the subtree leaves: what stays keeps its place and its children. */
  lemma RemoveStructured(t: Tree, top: Handle)
    requires Structured(t) && Live(t, top)
    ensures Structured(Remove(t, top))
    ensures forall h: Handle :: Live(Remove(t, top), h) <==> Live(t, h) && !Descends(t.heap, h, top)
  {
    var t' := Remove(t, top);
    RemoveLive(t, top);
    RemoveHeapOrdered(t, top);
    forall h: Handle | Live(t', h) ensures ParentOk(t', h) { RemoveKeepsParent(t, top, h); }
    forall h: Handle, n | Live(t', h) && n in t'.heap[h].children ensures ChildOk(t', h, n) {
      RemoveKeepsChild(t, top, h, n);
    }
  }

  // ---------------------------------------------------------------------
  // Service directory
  // ---------------------------------------------------------------------

  /** service.ValidName: ^[a-z][a-z0-9_-]*$ */
  predicate ValidName(s: Str) {
    s != [] && 97 <= s[0] <= 122 &&
    forall i :: 0 < i < |s| ==> 97 <= s[i] <= 122 || 48 <= s[i] <= 57 || s[i] == 95 || s[i] == 45
  }

  datatype ServiceResult = Registered | UnknownOwner | InvalidName | ScopedConflict | ServiceNameTaken

  predicate AnyGlobal(t: Tree, name: Str) {
    exists o :: o in t.global && name in t.global[o]
  }

  predicate AnyScoped(t: Tree, name: Str) {
    exists o :: o in t.scoped && name in t.scoped[o]
  }

  /** service.ScopedRegistrationError */
  function ScopedRegistrationError(globalTaken: bool, ownerTaken: bool): ServiceResult {
    if globalTaken || ownerTaken then ScopedConflict else Registered
  }

  /** service.GlobalRegistrationError */
  function GlobalRegistrationError(takenBySelf: bool, takenByOther: bool, scopedTaken: bool): ServiceResult {
    if takenBySelf then Registered
    else if takenByOther then ServiceNameTaken
    else if scopedTaken then ScopedConflict
    else Registered
  }

  function ScopedOutcome(t: Tree, owner: ActorID, name: Str): ServiceResult {
    if !ValidName(name) then InvalidName
    else if owner !in t.byID then UnknownOwner
    else ScopedRegistrationError(AnyGlobal(t, name), owner in t.scoped && name in t.scoped[owner])
  }

  function RegisterScoped(t: Tree, owner: ActorID, name: Str, target: ActorID): Tree {
    if !ScopedOutcome(t, owner, name).Registered? then t
    else
      var m: map<Str, ActorID> := if owner in t.scoped then t.scoped[owner] else map[];
      t.(scoped := t.scoped[owner := m[name := target]])
  }

  function UnregisterScoped(t: Tree, owner: ActorID, name: Str): Tree {
    if owner !in t.scoped then t
    else
      var m := t.scoped[owner] - {name};
      t.(scoped := if m == map[] then t.scoped - {owner} else t.scoped[owner := m])
  }

  function UnregisterAllScoped(t: Tree, owner: ActorID): Tree {
    t.(scoped := t.scoped - {owner})
  }

  /** The scan of the global directory stops at the first owner of the name;
      with at most one owner the order of the scan cannot matter. */
  function GlobalOutcome(t: Tree, owner: ActorID, name: Str): ServiceResult {
    if !ValidName(name) then InvalidName
    else if owner !in t.byID then UnknownOwner
    else
      var bySelf := owner in t.global && name in t.global[owner];
      GlobalRegistrationError(bySelf, AnyGlobal(t, name) && !bySelf, AnyScoped(t, name))
  }

  function RegisterGlobal(t: Tree, owner: ActorID, name: Str): Tree {
    if !GlobalOutcome(t, owner, name).Registered? then t
    else
      var m: set<Str> := if owner in t.global then t.global[owner] else {};
      t.(global := t.global[owner := m + {name}])
  }

  function UnregisterGlobal(t: Tree, owner: ActorID, name: Str): Tree {
    if owner !in t.global then t
    else
      var m := t.global[owner] - {name};
      t.(global := if m == {} then t.global - {owner} else t.global[owner := m])
  }

  function ScopedEntry(t: Tree, o: ActorID, n: Str): Option<ActorID> {
    if o in t.scoped && n in t.scoped[o] then Some(t.scoped[o][n]) else None
  }

  predicate GlobalEntry(t: Tree, o: ActorID, n: Str) { o in t.global && n in t.global[o] }

  /** Each directory call changes the one entry it names, and only when accepted. */
  lemma DirectoryPointwise(t: Tree, owner: ActorID, name: Str, target: ActorID, o: ActorID, n: Str)
    ensures ScopedEntry(RegisterScoped(t, owner, name, target), o, n) ==
      if (o, n) == (owner, name) && ScopedOutcome(t, owner, name) == Registered then Some(target)
      else ScopedEntry(t, o, n)
    ensures ScopedEntry(UnregisterScoped(t, owner, name), o, n) ==
      if (o, n) == (owner, name) then None else ScopedEntry(t, o, n)
    ensures ScopedEntry(UnregisterAllScoped(t, owner), o, n) == if o == owner then None else ScopedEntry(t, o, n)
    ensures GlobalEntry(RegisterGlobal(t, owner, name), o, n) <==>
      ((o, n) == (owner, name) && GlobalOutcome(t, owner, name) == Registered) || GlobalEntry(t, o, n)
    ensures GlobalEntry(UnregisterGlobal(t, owner, name), o, n) <==>
      (o, n) != (owner, name) && GlobalEntry(t, o, n)
  {
    if owner in t.scoped {
      var m := t.scoped[owner] - {name};
      assert m == map[] && n in t.scoped[owner] ==> n == name by {
        if n in t.scoped[owner] && n != name { assert n in m; }
      }
    }
    if owner in t.global {
      var m := t.global[owner] - {name};
      assert n in t.global[owner] && n != name ==> n in m;
    }
  }

  ghost predicate OneOwner(global: map<ActorID, set<Str>>) {
    forall o, o', n :: o in global && o' in global && n in global[o] && n in global[o'] ==> o == o'
  }

  /** Owners are live; a name is global or scoped, never both; a global name has one owner. */
  ghost predicate DirectoryOk(t: Tree) {
    && t.scoped.Keys <= t.byID.Keys
    && t.global.Keys <= t.byID.Keys
    && (forall n :: !(AnyGlobal(t, n) && AnyScoped(t, n)))
    && OneOwner(t.global)
  }

  // ---------------------------------------------------------------------
  // Runs
  // ---------------------------------------------------------------------

  /** What a spawner carries from Phase 1 to Phase 3. */
  datatype Spawn = Spawn(parentID: ActorID, pNode: Handle, childID: ActorID, childNode: Handle)

  /** The tree and the spawners whose Build is in flight. */
  datatype System = System(tree: Tree, inflight: set<Spawn>)

  datatype Step =
    | Reserve(parent: ActorID, name: Str, alloc: Option<ActorID>)
    | Finish(spawn: Spawn, buildOk: bool)
    | Destroy(target: ActorID)
    | AddScoped(owner: ActorID, svc: Str, provider: ActorID)
    | DropScoped(owner: ActorID, svc: Str)
    | DropAllScoped(owner: ActorID)
    | AddGlobal(owner: ActorID, svc: Str)
    | DropGlobal(owner: ActorID, svc: Str)

  /** Phase 3's identity tests. */
  predicate StillOurs(t: Tree, s: Spawn) { s.childID in t.byID && t.byID[s.childID] == s.childNode }
  predicate StillParent(t: Tree, s: Spawn) { s.parentID in t.byID && t.byID[s.parentID] == s.pNode }
  predicate Commits(t: Tree, s: Spawn, buildOk: bool) { buildOk && StillParent(t, s) && StillOurs(t, s) }

  function FinishTree(t: Tree, s: Spawn, buildOk: bool): Tree {
    if s.childNode >= |t.heap| || !StillOurs(t, s) then t
    else if Commits(t, s, buildOk) then Commit(t, s.childNode)
    else Remove(t, s.childNode)
  }

  function DestroyTree(t: Tree, target: ActorID): Tree {
    if target in t.byID && t.byID[target] < |t.heap| then Remove(t, t.byID[target]) else t
  }

  function Next(s: System, step: Step): System {
    match step
    case Reserve(parent, name, alloc) =>
      if ReserveFailure(s.tree, parent, name, alloc).Some? || s.tree.byID[parent] >= |s.tree.heap| then s
      else
        var p := s.tree.byID[parent];
        System(Insert(s.tree, p, name, alloc.value),
               s.inflight + {Spawn(parent, p, alloc.value, |s.tree.heap|)})
    case Finish(spawn, buildOk) =>
      if spawn !in s.inflight then s
      else System(FinishTree(s.tree, spawn, buildOk), s.inflight - {spawn})
    case Destroy(target) => s.(tree := DestroyTree(s.tree, target))
    case AddScoped(owner, svc, provider) => s.(tree := RegisterScoped(s.tree, owner, svc, provider))
    case DropScoped(owner, svc) => s.(tree := UnregisterScoped(s.tree, owner, svc))
    case DropAllScoped(owner) => s.(tree := UnregisterAllScoped(s.tree, owner))
    case AddGlobal(owner, svc) => s.(tree := RegisterGlobal(s.tree, owner, svc))
    case DropGlobal(owner, svc) => s.(tree := UnregisterGlobal(s.tree, owner, svc))
  }

  function Run(s: System, steps: seq<Step>): System {
    if steps == [] then s else Next(Run(s, steps[..|steps| - 1]), steps[|steps| - 1])
  }

  function Start(root: ActorID): System { System(NewTree(root), {}) }

  /** A spawner's record agrees with the node it allocated, live or not. */
  ghost predicate SpawnOk(t: Tree, s: Spawn) {
    && s.pNode < s.childNode < |t.heap|
    && t.heap[s.childNode].self == s.childID
    && t.heap[s.childNode].parent == Some(s.pNode)
    && t.heap[s.pNode].self == s.parentID
    && t.heap[s.childNode].pending
  }

  ghost predicate SpawnsOk(s: System) {
    && (forall x :: x in s.inflight ==> SpawnOk(s.tree, x))
    && (forall x, y :: x in s.inflight && y in s.inflight && x.childNode == y.childNode ==> x == y)
    && (forall h: Handle :: Live(s.tree, h) && s.tree.heap[h].pending ==>
          exists x :: x in s.inflight && x.childNode == h)
  }

  ghost predicate Inv(s: System) {
    Structured(s.tree) && DirectoryOk(s.tree) && SpawnsOk(s)
  }

  // ---------------------------------------------------------------------
  // Every step keeps the invariant
  // ---------------------------------------------------------------------

  lemma DirectoryAfterRemove(t: Tree, top: Handle)
    requires DirectoryOk(t) && top < |t.heap|
    ensures DirectoryOk(Remove(t, top))
  {
    var t' := Remove(t, top);
    forall n ensures !(AnyGlobal(t', n) && AnyScoped(t', n)) {
      assert AnyGlobal(t', n) ==> AnyGlobal(t, n);
      assert AnyScoped(t', n) ==> AnyScoped(t, n);
    }
  }

  lemma DirectoryAfterService(t: Tree, step: Step)
    requires DirectoryOk(t)
    requires step.AddScoped? || step.DropScoped? || step.DropAllScoped? || step.AddGlobal? || step.DropGlobal?
    ensures DirectoryOk(Next(System(t, {}), step).tree)
  {
    var t' := Next(System(t, {}), step).tree;
    forall n ensures !(AnyGlobal(t', n) && AnyScoped(t', n)) {
      if !step.AddScoped? { assert AnyScoped(t', n) ==> AnyScoped(t, n); }
      if !step.AddGlobal? { assert AnyGlobal(t', n) ==> AnyGlobal(t, n); }
      if step.AddScoped? && AnyScoped(t', n) && n != step.svc { assert AnyScoped(t, n); }
      if step.AddGlobal? && AnyGlobal(t', n) && n != step.svc { assert AnyGlobal(t, n); }
      if step.AddGlobal? && n == step.svc && t' != t && step.owner in t.global && n in t.global[step.owner] {
        assert AnyGlobal(t, n);
      }
    }
  }

  lemma SpawnsAfterRemove(s: System, top: Handle)
    requires Inv(s) && Live(s.tree, top)
    ensures SpawnsOk(s.(tree := Remove(s.tree, top)))
  {
    UnlinkKeepsIdentity(s.tree, top);
    RemoveStructured(s.tree, top);
    var s' := s.(tree := Remove(s.tree, top));
    forall x | x in s'.inflight ensures SpawnOk(s'.tree, x) { assert SpawnOk(s.tree, x); }
  }

  lemma ReserveInv(s: System, parent: ActorID, name: Str, child: ActorID)
    requires Inv(s) && ReserveFailure(s.tree, parent, name, Some(child)).None?
    ensures Inv(Next(s, Reserve(parent, name, Some(child))))
  {
    var s' := Next(s, Reserve(parent, name, Some(child)));
    var p := s.tree.byID[parent];
    InsertStructured(s.tree, p, name, child);
    InsertLive(s.tree, p, name, child);
    assert DirectoryOk(s'.tree) by {
      assert forall n :: AnyGlobal(s'.tree, n) == AnyGlobal(s.tree, n) && AnyScoped(s'.tree, n) == AnyScoped(s.tree, n);
    }
    var own := Spawn(parent, p, child, |s.tree.heap|);
    forall x | x in s'.inflight ensures SpawnOk(s'.tree, x) {
      if x != own { assert SpawnOk(s.tree, x); }
    }
    forall h: Handle | Live(s'.tree, h) && s'.tree.heap[h].pending
      ensures exists x :: x in s'.inflight && x.childNode == h
    {
      if h == |s.tree.heap| {
        assert own in s'.inflight;
      } else {
        var x :| x in s.inflight && x.childNode == h;
        assert x in s'.inflight;
      }
    }
  }

  lemma DropSpawner(s: System, spawn: Spawn)
    requires SpawnsOk(s) && spawn in s.inflight
    requires Live(s.tree, spawn.childNode) ==> !s.tree.heap[spawn.childNode].pending
    ensures SpawnsOk(s.(inflight := s.inflight - {spawn}))
  {
    var s' := s.(inflight := s.inflight - {spawn});
    forall h: Handle | Live(s'.tree, h) && s'.tree.heap[h].pending
      ensures exists x :: x in s'.inflight && x.childNode == h
    {
      var x :| x in s.inflight && x.childNode == h;
      assert x in s'.inflight;
    }
  }

  lemma CommitInv(s: System, spawn: Spawn)
    requires Inv(s) && spawn in s.inflight && Commits(s.tree, spawn, true)
    ensures Inv(Next(s, Finish(spawn, true)))
  {
    var t, h := s.tree, spawn.childNode;
    assert SpawnOk(t, spawn);
    CommitStructured(t, h);
    var t' := Commit(t, h);
    assert forall n :: AnyGlobal(t', n) == AnyGlobal(t, n) && AnyScoped(t', n) == AnyScoped(t, n);
    var s' := System(t', s.inflight - {spawn});
    forall x | x in s'.inflight ensures SpawnOk(t', x) { assert SpawnOk(t, x); }
    forall k: Handle | Live(t', k) && t'.heap[k].pending
      ensures exists x :: x in s'.inflight && x.childNode == k
    {
      var x :| x in s.inflight && x.childNode == k;
      assert x in s'.inflight;
    }
  }

  lemma FinishInv(s: System, spawn: Spawn, buildOk: bool)
    requires Inv(s) && spawn in s.inflight
    ensures Inv(Next(s, Finish(spawn, buildOk)))
  {
    assert SpawnOk(s.tree, spawn);
    if Commits(s.tree, spawn, buildOk) {
      CommitInv(s, spawn);
    } else if StillOurs(s.tree, spawn) {
      var h := spawn.childNode;
      RemoveStructured(s.tree, h);
      DirectoryAfterRemove(s.tree, h);
      SpawnsAfterRemove(s, h);
      assert Descends(s.tree.heap, h, h);
      DropSpawner(s.(tree := Remove(s.tree, h)), spawn);
    } else {
      DropSpawner(s, spawn);
    }
  }

  lemma StepInv(s: System, step: Step)
    requires Inv(s)
    ensures Inv(Next(s, step))
  {
    match step
    case Reserve(parent, name, alloc) =>
      if ReserveFailure(s.tree, parent, name, alloc).None? { ReserveInv(s, parent, name, alloc.value); }
    case Finish(spawn, buildOk) =>
      if spawn in s.inflight { FinishInv(s, spawn, buildOk); }
    case Destroy(target) =>
      if target in s.tree.byID {
        var top := s.tree.byID[target];
        assert Live(s.tree, top);
        RemoveStructured(s.tree, top);
        DirectoryAfterRemove(s.tree, top);
        SpawnsAfterRemove(s, top);
      }
    case _ =>
      DirectoryAfterService(s.tree, step);
      var t' := Next(s, step).tree;
      assert t' == Next(System(s.tree, {}), step).tree;
      assert t'.heap == s.tree.heap && t'.byID == s.tree.byID;
      ServiceKeepsTopology(s, t');
  }

  lemma ServiceKeepsTopology(s: System, t': Tree)
    requires Inv(s) && t'.heap == s.tree.heap && t'.byID == s.tree.byID
    ensures Structured(t') && SpawnsOk(s.(tree := t'))
  {
    var t := s.tree;
    assert forall h: Handle :: Live(t', h) == Live(t, h);
    forall h: Handle | Live(t', h) ensures ParentOk(t', h) { assert ParentOk(t, h); }
    forall h: Handle, n | Live(t', h) && n in t'.heap[h].children ensures ChildOk(t', h, n) {
      assert ChildOk(t, h, n);
    }
    forall x | x in s.inflight ensures SpawnOk(t', x) { assert SpawnOk(t, x); }
  }

  /** In every interleaving of Spawn's phases, Destroy, nested spawns and the
      service calls, the tree is structured, the directory is consistent and
      every pending node belongs to exactly one spawner. */
  lemma {:induction false} EveryRunKeepsInv(root: ActorID, steps: seq<Step>)
    ensures Inv(Run(Start(root), steps))
    decreases |steps|
  {
    if steps == [] {
      var t := NewTree(root);
      assert forall h: Handle :: Live(t, h) ==> h == ROOT;
      assert forall n :: !AnyGlobal(t, n);
    } else {
      EveryRunKeepsInv(root, steps[..|steps| - 1]);
      StepInv(Run(Start(root), steps[..|steps| - 1]), steps[|steps| - 1]);
    }
  }

  // ---------------------------------------------------------------------
  // What the invariant buys
  // ---------------------------------------------------------------------

  datatype FinishResult = Committed | BuildFailed | LostParent | LostTarget

  /** Spawn's answer after Phase 3. */
  function Verdict(t: Tree, spawn: Spawn, buildOk: bool): FinishResult {
    if Commits(t, spawn, buildOk) then Committed
    else if !buildOk then BuildFailed
    else if !StillParent(t, spawn) then LostParent
    else LostTarget
  }

  /** Phase 3 in any reachable state. A successful build commits exactly when
      its own node survived; the parent test then never fails on its own. A
      successful build that is not committed changes nothing. A rollback takes
      away the spawner's own subtree and nothing else, whoever answers to the
      reserved ActorID by then. */
  lemma FinishVerdict(s: System, spawn: Spawn, buildOk: bool)
    requires Inv(s) && spawn in s.inflight
    ensures Verdict(s.tree, spawn, buildOk) == Committed <==> buildOk && Live(s.tree, spawn.childNode)
    ensures Live(s.tree, spawn.childNode) ==> StillParent(s.tree, spawn)
    ensures buildOk && Verdict(s.tree, spawn, buildOk) != Committed ==>
      Next(s, Finish(spawn, buildOk)).tree == s.tree
    ensures Verdict(s.tree, spawn, buildOk) != Committed ==>
      forall h: Handle :: Live(Next(s, Finish(spawn, buildOk)).tree, h) <==>
        Live(s.tree, h) && !Descends(s.tree.heap, h, spawn.childNode)
    ensures Verdict(s.tree, spawn, buildOk) == Committed ==>
      forall h: Handle :: Live(Next(s, Finish(spawn, buildOk)).tree, h) <==> Live(s.tree, h)
  {
    CommitsIffLive(s, spawn, buildOk);
    if Live(s.tree, spawn.childNode) {
      RemoveStructured(s.tree, spawn.childNode);
      CommitStructured(s.tree, spawn.childNode);
    } else {
      DeadHasNothingBelow(s.tree, spawn.childNode);
    }
  }

  lemma CommitsIffLive(s: System, spawn: Spawn, buildOk: bool)
    requires Inv(s) && spawn in s.inflight
    ensures spawn.childNode < |s.tree.heap|
    ensures StillOurs(s.tree, spawn) <==> Live(s.tree, spawn.childNode)
    ensures Live(s.tree, spawn.childNode) ==> StillParent(s.tree, spawn)
  {
    assert SpawnOk(s.tree, spawn);
    if Live(s.tree, spawn.childNode) { assert ParentOk(s.tree, spawn.childNode); }
  }

  lemma DeadHasNothingBelow(t: Tree, c: Handle)
    requires Structured(t) && c < |t.heap| && !Live(t, c)
    ensures forall h: Handle :: Live(t, h) ==> !Descends(t.heap, h, c)
  {
    forall h: Handle | Live(t, h) ensures !Descends(t.heap, h, c) {
      if Descends(t.heap, h, c) { LiveUpwards(t, h, c); }
    }
  }

  lemma {:induction false} LiveUpwards(t: Tree, h: Handle, top: Handle)
    requires Structured(t) && Live(t, h) && Descends(t.heap, h, top)
    ensures Live(t, top)
    decreases h
  {
    if h != top {
      assert ParentOk(t, h);
      LiveUpwards(t, t.heap[h].parent.value, top);
    }
  }

  lemma RemoveForgets(t: Tree, top: Handle, h: Handle)
    requires Structured(t) && Live(t, top) && h < |t.heap|
    ensures var t' := Remove(t, top);
      && h < |t'.heap| && (Live(t', h) ==> Live(t, h))
      && t'.heap[h].self == t.heap[h].self && t'.heap[h].parent == t.heap[h].parent
      && t'.heap[h].name == t.heap[h].name && t'.heap[h].pending == t.heap[h].pending
  {
    RemoveStructured(t, top);
    UnlinkKeepsIdentity(t, top);
  }

  /** `h` stays what it was: identity for good, liveness and pending only fall. */
  ghost predicate Forgets(t: Tree, t': Tree, h: Handle)
    requires h < |t.heap|
  {
    && h < |t'.heap| && (Live(t', h) ==> Live(t, h))
    && t'.heap[h].self == t.heap[h].self && t'.heap[h].parent == t.heap[h].parent
    && t'.heap[h].name == t.heap[h].name && (!t.heap[h].pending ==> !t'.heap[h].pending)
  }

  lemma ReserveForgets(s: System, parent: ActorID, name: Str, alloc: Option<ActorID>, h: Handle)
    requires Inv(s) && h < |s.tree.heap|
    ensures Forgets(s.tree, Next(s, Reserve(parent, name, alloc)).tree, h)
  {
    if ReserveFailure(s.tree, parent, name, alloc).None? {
      InsertLive(s.tree, s.tree.byID[parent], name, alloc.value);
    }
  }

  lemma FinishForgets(s: System, spawn: Spawn, buildOk: bool, h: Handle)
    requires Inv(s) && h < |s.tree.heap|
    ensures Forgets(s.tree, Next(s, Finish(spawn, buildOk)).tree, h)
  {
    if spawn in s.inflight {
      assert SpawnOk(s.tree, spawn);
      if StillOurs(s.tree, spawn) {
        CommitStructured(s.tree, spawn.childNode);
        RemoveForgets(s.tree, spawn.childNode, h);
      }
    }
  }

  lemma DestroyForgets(s: System, target: ActorID, h: Handle)
    requires Inv(s) && h < |s.tree.heap|
    ensures Forgets(s.tree, Next(s, Destroy(target)).tree, h)
  {
    if target in s.tree.byID {
      assert Live(s.tree, s.tree.byID[target]);
      RemoveForgets(s.tree, s.tree.byID[target], h);
    }
  }

  /** A step never brings a node back, moves it, or renames it. */
  lemma StepOnlyForgets(s: System, step: Step, h: Handle)
    requires Inv(s) && h < |s.tree.heap|
    ensures h < |Next(s, step).tree.heap|
    ensures Live(Next(s, step).tree, h) ==> Live(s.tree, h)
    ensures Next(s, step).tree.heap[h].self == s.tree.heap[h].self
    ensures Next(s, step).tree.heap[h].parent == s.tree.heap[h].parent
    ensures Next(s, step).tree.heap[h].name == s.tree.heap[h].name
    ensures !s.tree.heap[h].pending ==> !Next(s, step).tree.heap[h].pending
  {
    match step
    case Reserve(parent, name, alloc) => ReserveForgets(s, parent, name, alloc, h);
    case Finish(spawn, buildOk) => FinishForgets(s, spawn, buildOk, h);
    case Destroy(target) => DestroyForgets(s, target, h);
    case _ =>
  }

  /** A node destroyed while its build was in flight stays destroyed in every
      continuation, even when its ActorID is handed out again. */
  lemma {:induction false} DestroyedForGood(s: System, steps: seq<Step>, h: Handle)
    requires Inv(s) && h < |s.tree.heap| && !Live(s.tree, h)
    ensures Inv(Run(s, steps)) && h < |Run(s, steps).tree.heap| && !Live(Run(s, steps).tree, h)
    decreases |steps|
  {
    if steps != [] {
      DestroyedForGood(s, steps[..|steps| - 1], h);
      var m := Run(s, steps[..|steps| - 1]);
      StepInv(m, steps[|steps| - 1]);
      StepOnlyForgets(m, steps[|steps| - 1], h);
    }
  }

  /** Destroy takes a subtree's registrations with it and touches no other. */
  lemma DestroyDirectory(s: System, target: ActorID)
    requires Inv(s) && target in s.tree.byID
    ensures var t, t' := s.tree, Next(s, Destroy(target)).tree;
      && (forall o :: o in t'.scoped <==> o in t.scoped && !Descends(t.heap, t.byID[o], t.byID[target]))
      && (forall o :: o in t'.global <==> o in t.global && !Descends(t.heap, t.byID[o], t.byID[target]))
      && (forall o :: o in t'.scoped ==> t'.scoped[o] == t.scoped[o])
      && (forall o :: o in t'.global ==> t'.global[o] == t.global[o])
  {
    assert forall o :: o in s.tree.scoped || o in s.tree.global ==> o in s.tree.byID;
  }
}
