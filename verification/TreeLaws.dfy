/** What the steps of the actor tree answer, in terms of the live nodes alone. */
module TreeLaws {
  import opened Common
  import opened TreeModel
  import opened TreeRuns

  ghost predicate AnswersTo(t: Tree, h: Handle, id: ActorID) { Live(t, h) && t.heap[h].self == id }

  ghost predicate HangsFrom(t: Tree, h: Handle, p: Handle, name: Str) {
    Live(t, h) && t.heap[h].parent == Some(p) && t.heap[h].name == name
  }

  ghost predicate Known(t: Tree, id: ActorID) { exists h: Handle :: AnswersTo(t, h, id) }

  /** Some live node hangs under `name` from the live node that answers to `parent`. */
  ghost predicate Taken(t: Tree, parent: ActorID, name: Str) {
    exists p: Handle, h: Handle :: AnswersTo(t, p, parent) && HangsFrom(t, h, p, name)
  }

  lemma KnownIsIndexed(t: Tree, id: ActorID)
    requires Structured(t)
    ensures Known(t, id) <==> id in t.byID
    ensures id in t.byID ==> AnswersTo(t, t.byID[id], id)
    ensures forall h: Handle :: AnswersTo(t, h, id) ==> t.byID[id] == h
  {
    if id in t.byID { assert AnswersTo(t, t.byID[id], id); }
  }

  lemma TakenIsChild(t: Tree, parent: ActorID, name: Str)
    requires Structured(t) && parent in t.byID
    ensures Taken(t, parent, name) <==> name in t.heap[t.byID[parent]].children
  {
    KnownIsIndexed(t, parent);
    var p := t.byID[parent];
    if name in t.heap[p].children {
      assert ChildOk(t, p, name);
      assert HangsFrom(t, t.heap[p].children[name], p, name);
    }
    forall h: Handle | HangsFrom(t, h, p, name) ensures name in t.heap[p].children { assert ParentOk(t, h); }
  }

  // ---------------------------------------------------------------------
  // Spawn, first phase
  // ---------------------------------------------------------------------

  /** A fresh pending node answers to `id` and hangs under `name` from the live node that
      answers to `parent`; all others are as they were. */
  ghost predicate Reserved(t: Tree, t': Tree, parent: ActorID, name: Str, id: ActorID) {
    var h := |t.heap|;
    && |t'.heap| == h + 1 && AnswersTo(t', h, id) && t'.heap[h].pending
    && (exists p: Handle :: AnswersTo(t, p, parent) && AnswersTo(t', p, parent) && HangsFrom(t', h, p, name))
    && (forall k: Handle :: k < h ==> (Live(t', k) <==> Live(t, k)))
  }

  /** A reservation goes through, under a pending parent as under any other, if and only if
      a live node answers to the parent, nothing live hangs from it under the name, and
      nothing live answers to the new ActorID. */
  lemma ReserveIff(s: System, parent: ActorID, name: Str, id: ActorID)
    requires Inv(s)
    ensures var s' := Next(s, Reserve(parent, name, Some(id)));
      && (Reserved(s.tree, s'.tree, parent, name, id)
          <==> Known(s.tree, parent) && !Taken(s.tree, parent, name) && !Known(s.tree, id))
      && (Reserved(s.tree, s'.tree, parent, name, id) || s' == s)
  {
    var t := s.tree;
    KnownIsIndexed(t, parent);
    KnownIsIndexed(t, id);
    if parent in t.byID {
      TakenIsChild(t, parent, name);
      if !Taken(t, parent, name) && !Known(t, id) { ReserveInserts(s, parent, name, id); }
    }
  }

  lemma ReserveInserts(s: System, parent: ActorID, name: Str, id: ActorID)
    requires Inv(s) && parent in s.tree.byID && id !in s.tree.byID
    requires name !in s.tree.heap[s.tree.byID[parent]].children
    ensures Reserved(s.tree, Next(s, Reserve(parent, name, Some(id))).tree, parent, name, id)
  {
    var t, p := s.tree, s.tree.byID[parent];
    InsertLive(t, p, name, id);
    assert AnswersTo(t, p, parent) && AnswersTo(Insert(t, p, name, id), p, parent);
    assert HangsFrom(Insert(t, p, name, id), |t.heap|, p, name);
  }

  /** Which error goes with which missing fact. */
  lemma ReserveRefusals(t: Tree, parent: ActorID, name: Str, alloc: Option<ActorID>)
    requires Structured(t)
    ensures var why := ReserveFailure(t, parent, name, alloc);
      && (why == Some(UnknownParent) <==> !Known(t, parent))
      && (why == Some(NameTaken) <==> Known(t, parent) && Taken(t, parent, name))
      && (why == Some(AllocatorFailed) <==> Known(t, parent) && !Taken(t, parent, name) && alloc.None?)
      && (why == Some(Cycle) <==>
            Known(t, parent) && !Taken(t, parent, name) && alloc.Some? && Known(t, alloc.value))
  {
    KnownIsIndexed(t, parent);
    if parent in t.byID { TakenIsChild(t, parent, name); }
    if alloc.Some? { KnownIsIndexed(t, alloc.value); }
    if Taken(t, parent, name) { assert Known(t, parent); }
  }

  // ---------------------------------------------------------------------
  // Spawn, last phase, and Destroy
  // ---------------------------------------------------------------------

  /** A failed build is reported as such; a lost node by its parent first. */
  lemma VerdictSays(s: System, spawn: Spawn, buildOk: bool)
    requires Inv(s) && spawn in s.inflight
    ensures var v := Verdict(s.tree, spawn, buildOk);
      && (v == BuildFailed <==> !buildOk)
      && (v == LostParent <==> buildOk && !Live(s.tree, spawn.pNode))
      && (v == LostTarget <==> buildOk && Live(s.tree, spawn.pNode) && !Live(s.tree, spawn.childNode))
  {
    assert SpawnOk(s.tree, spawn);
    CommitsIffLive(s, spawn, buildOk);
  }

  /** A commit shows the node and changes nothing else. */
  lemma CommitShows(s: System, spawn: Spawn)
    requires Inv(s) && spawn in s.inflight && Live(s.tree, spawn.childNode)
    ensures var s', c := Next(s, Finish(spawn, true)), spawn.childNode;
      && |s'.tree.heap| == |s.tree.heap| && !s'.tree.heap[c].pending && Live(s'.tree, c)
      && forall h: Handle :: h < |s.tree.heap| && h != c ==> s'.tree.heap[h] == s.tree.heap[h]
  {
    CommitsIffLive(s, spawn, true);
    assert SpawnOk(s.tree, spawn);
  }

  /** Destroy takes the subtree of the live node that answers, and only that. */
  lemma DestroyTakesSubtree(s: System, target: ActorID, h: Handle)
    requires Inv(s)
    ensures !Known(s.tree, target) ==> Next(s, Destroy(target)) == s
    ensures forall p: Handle :: AnswersTo(s.tree, p, target) ==>
      (Live(Next(s, Destroy(target)).tree, h) <==> Live(s.tree, h) && !Descends(s.tree.heap, h, p))
  {
    KnownIsIndexed(s.tree, target);
    if target in s.tree.byID { RemoveLive(s.tree, s.tree.byID[target]); }
  }

  // ---------------------------------------------------------------------
  // Services
  // ---------------------------------------------------------------------

  const LOWER: seq<Byte> := [
    97, 98, 99, 100, 101, 102, 103, 104, 105, 106, 107, 108, 109,
    110, 111, 112, 113, 114, 115, 116, 117, 118, 119, 120, 121, 122]

  const LATER: seq<Byte> := LOWER + [48, 49, 50, 51, 52, 53, 54, 55, 56, 57, 45, 95]

  /** a-z first, then a-z, 0-9, hyphen and underscore. */
  lemma ValidNameLetters(s: Str)
    ensures ValidName(s) <==> s != [] && s[0] in LOWER && forall c <- s :: c in LATER
  {
    forall c: Byte ensures (c in LOWER <==> IsLower(c)) && (c in LATER <==> IsLater(c)) { LettersListed(c); }
    if s != [] && s[0] in LOWER && forall c <- s :: c in LATER {
      forall i | 0 < i < |s| ensures IsLater(s[i]) { assert s[i] in s; }
    }
  }

  predicate IsLower(c: Byte) { 97 <= c <= 122 }

  predicate IsLater(c: Byte) { IsLower(c) || 48 <= c <= 57 || c == 95 || c == 45 }

  lemma LettersListed(c: Byte)
    ensures c in LOWER <==> IsLower(c)
    ensures c in LATER <==> IsLater(c)
  {
    if IsLower(c) { assert LOWER[c - 97] == c; }
  }

  ghost predicate OwnsScoped(t: Tree, o: ActorID, n: Str) { ScopedEntry(t, o, n).Some? }

  /** A scoped registration is accepted if and only if the name is well formed, the owner is
      live and has no such entry yet, and no actor exposes the name globally. */
  lemma ScopedAccepted(s: System, owner: ActorID, name: Str, target: ActorID)
    requires Inv(s)
    ensures var t := s.tree;
      var free := !OwnsScoped(t, owner, name) && forall o :: !GlobalEntry(t, o, name);
      && (ScopedOutcome(t, owner, name) == Registered <==> ValidName(name) && Known(t, owner) && free)
      && (ScopedOutcome(t, owner, name) == InvalidName <==> !ValidName(name))
      && (ScopedOutcome(t, owner, name) == UnknownOwner <==> ValidName(name) && !Known(t, owner))
      && (ScopedOutcome(t, owner, name) == ScopedConflict <==> ValidName(name) && Known(t, owner) && !free)
  {
    KnownIsIndexed(s.tree, owner);
    if AnyGlobal(s.tree, name) {
      var o :| o in s.tree.global && name in s.tree.global[o];
      assert GlobalEntry(s.tree, o, name);
    }
  }

  /** A global registration is accepted if and only if the name is well formed, the owner is
      live, and either it exposes the name already or nobody does, globally or scoped. */
  lemma GlobalAccepted(s: System, owner: ActorID, name: Str)
    requires Inv(s)
    ensures var t := s.tree;
      var own, other := GlobalEntry(t, owner, name), exists o :: o != owner && GlobalEntry(t, o, name);
      var scoped := exists o :: OwnsScoped(t, o, name);
      var asked := ValidName(name) && Known(t, owner);
      && (GlobalOutcome(t, owner, name) == Registered <==> asked && (own || (!other && !scoped)))
      && (GlobalOutcome(t, owner, name) == InvalidName <==> !ValidName(name))
      && (GlobalOutcome(t, owner, name) == UnknownOwner <==> ValidName(name) && !Known(t, owner))
      && (GlobalOutcome(t, owner, name) == ServiceNameTaken <==> asked && !own && other)
      && (GlobalOutcome(t, owner, name) == ScopedConflict <==> asked && !own && !other && scoped)
  {
    var t := s.tree;
    KnownIsIndexed(t, owner);
    assert AnyGlobal(t, name) <==> exists o :: GlobalEntry(t, o, name) by {
      if AnyGlobal(t, name) {
        var o :| o in t.global && name in t.global[o];
        assert GlobalEntry(t, o, name);
      }
    }
    assert AnyScoped(t, name) <==> exists o :: OwnsScoped(t, o, name) by {
      if AnyScoped(t, name) {
        var o :| o in t.scoped && name in t.scoped[o];
        assert OwnsScoped(t, o, name);
      }
    }
  }
}
