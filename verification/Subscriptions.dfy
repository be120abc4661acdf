/** The session's subscription registry, gateway/session.go: resubscribe,
    unsubscribe, failed begins and pump exits, in any order. */
module Subscriptions {
  import opened Common

  type SubID = Str

  /** Between installing its entry and Done a registration begins its call, pumps
      frames, and on its way out gives up its entry. */
  datatype Phase = Beginning | BeginFailed | Pumping | Exiting | Unmapped | Done

  datatype Reg = Reg(subID: SubID, cancelled: bool, phase: Phase)

  /** `regs[id]` is the registration with sequence number id + 1. */
  datatype Registry = Registry(m: map<SubID, nat>, regs: seq<Reg>, tornDown: bool)

  datatype Step =
    | Subscribe(subID: SubID)
    | BeginOk(id: nat)
    | BeginError(id: nat)
    | DropFailed(id: nat)
    | PumpEnds(id: nat)
    | PumpUnmaps(id: nat)
    | PumpDone(id: nat)
    | Unsubscribe(subID: SubID)
    | Teardown

  function CancelReg(regs: seq<Reg>, id: nat): seq<Reg> {
    if id < |regs| then regs[id := regs[id].(cancelled := true)] else regs
  }

  function MoveReg(r: Registry, id: nat, before: Phase, after: Phase): Registry {
    if id < |r.regs| && r.regs[id].phase == before
    then r.(regs := r.regs[id := r.regs[id].(phase := after)])
    else r
  }

  /** Delete the map entry only if it still belongs to this registration. */
  function DropOwn(r: Registry, id: nat): Registry {
    if id < |r.regs| && r.regs[id].subID in r.m && r.m[r.regs[id].subID] == id
    then r.(m := r.m - {r.regs[id].subID})
    else r
  }

  predicate WorkersDone(r: Registry) {
    forall i :: 0 <= i < |r.regs| ==> r.regs[i].phase != Beginning && r.regs[i].phase != BeginFailed
  }

  /** Each critical section of handleSubscribe, the unsubscribe worker, the pump's
      exit and the teardown loop. Teardown runs once the workers are gone. */
  function Next(r: Registry, step: Step): Registry {
    match step
    case Subscribe(s) =>
      if r.tornDown then r
      else
        var regs := if s in r.m then CancelReg(r.regs, r.m[s]) else r.regs;
        Registry(r.m[s := |regs|], regs + [Reg(s, false, Beginning)], false)
    case BeginOk(id) => MoveReg(r, id, Beginning, Pumping)
    case BeginError(id) =>
      if id < |r.regs| && r.regs[id].phase == Beginning
      then MoveReg(r.(regs := CancelReg(r.regs, id)), id, Beginning, BeginFailed) else r
    case DropFailed(id) =>
      if id < |r.regs| && r.regs[id].phase == BeginFailed
      then MoveReg(DropOwn(r, id), id, BeginFailed, Done) else r
    case PumpEnds(id) => MoveReg(r, id, Pumping, Exiting)
    case PumpUnmaps(id) =>
      if id < |r.regs| && r.regs[id].phase == Exiting then MoveReg(DropOwn(r, id), id, Exiting, Unmapped) else r
    case PumpDone(id) =>
      if id < |r.regs| && r.regs[id].phase == Unmapped
      then MoveReg(r.(regs := CancelReg(r.regs, id)), id, Unmapped, Done) else r
    case Unsubscribe(s) =>
      if s !in r.m || r.tornDown then r
      else r.(regs := CancelReg(r.regs, r.m[s]), m := r.m - {s})
    case Teardown =>
      if !WorkersDone(r) then r
      else r.(regs := CancelAll(r), tornDown := true)
  }

  predicate Owns(m: map<SubID, nat>, keys: set<SubID>, i: nat) { exists s :: s in keys && s in m && m[s] == i }

  function Fired(m: map<SubID, nat>, keys: set<SubID>, regs: seq<Reg>, i: nat): Reg
    requires i < |regs|
  {
    regs[i].(cancelled := regs[i].cancelled || Owns(m, keys, i))
  }

  function CancelAll(r: Registry): (regs: seq<Reg>)
    ensures |regs| == |r.regs|
    ensures forall i :: 0 <= i < |regs| ==> regs[i] == Fired(r.m, r.m.Keys, r.regs, i)
  {
    seq(|r.regs|, i requires 0 <= i < |r.regs| => Fired(r.m, r.m.Keys, r.regs, i))
  }

  function Run(r: Registry, steps: seq<Step>): Registry {
    if steps == [] then r else Next(Run(r, steps[..|steps| - 1]), steps[|steps| - 1])
  }

  const EMPTY := Registry(map[], [], false)

  predicate Leaving(p: Phase) { p == Exiting || p == Unmapped || p == Done }

  /** A registration is cancelled, on its way out, or reachable through the map. */
  ghost predicate Tracked(r: Registry, id: nat)
    requires id < |r.regs|
  {
    r.regs[id].cancelled || Leaving(r.regs[id].phase) || (r.regs[id].subID in r.m && r.m[r.regs[id].subID] == id)
  }

  ghost predicate RegistryOk(r: Registry) {
    && (forall s :: s in r.m ==> r.m[s] < |r.regs| && r.regs[r.m[s]].subID == s)
    && (forall id :: 0 <= id < |r.regs| ==> Tracked(r, id))
    && (r.tornDown ==> forall id :: 0 <= id < |r.regs| ==> r.regs[id].cancelled || Leaving(r.regs[id].phase))
    && (r.tornDown ==> WorkersDone(r))
  }

  lemma SubscribeOk(r: Registry, s: SubID)
    requires RegistryOk(r)
    ensures RegistryOk(Next(r, Subscribe(s)))
  {
    var r' := Next(r, Subscribe(s));
    if !r.tornDown {
      forall id | 0 <= id < |r'.regs| ensures Tracked(r', id) {
        if id < |r.regs| { assert Tracked(r, id); }
      }
    }
  }

  lemma MoveOk(r: Registry, id: nat, before: Phase, after: Phase)
    requires RegistryOk(r)
    requires Leaving(before) ==> Leaving(after)
    requires after != Beginning && (after == BeginFailed ==> before == Beginning)
    ensures RegistryOk(MoveReg(r, id, before, after))
  {
    var r' := MoveReg(r, id, before, after);
    forall i | 0 <= i < |r'.regs| ensures Tracked(r', i) { assert Tracked(r, i); }
  }

  lemma DropOwnOk(r: Registry, id: nat)
    requires RegistryOk(r) && id < |r.regs| && (r.regs[id].cancelled || Leaving(r.regs[id].phase))
    ensures RegistryOk(DropOwn(r, id))
  {
    var r' := DropOwn(r, id);
    forall i | 0 <= i < |r'.regs| ensures Tracked(r', i) { assert Tracked(r, i); }
  }

  lemma CancelOk(r: Registry, id: nat)
    requires RegistryOk(r)
    ensures RegistryOk(r.(regs := CancelReg(r.regs, id)))
  {
    var r' := r.(regs := CancelReg(r.regs, id));
    forall i | 0 <= i < |r'.regs| ensures Tracked(r', i) { assert Tracked(r, i); }
  }

  lemma UnsubscribeOk(r: Registry, s: SubID)
    requires RegistryOk(r)
    ensures RegistryOk(Next(r, Unsubscribe(s)))
  {
    if s in r.m && !r.tornDown {
      var id := r.m[s];
      CancelOk(r, id);
      DropOwnOk(r.(regs := CancelReg(r.regs, id)), id);
    }
  }

  lemma TeardownOk(r: Registry)
    requires RegistryOk(r)
    ensures RegistryOk(Next(r, Teardown))
  {
    var r' := Next(r, Teardown);
    if WorkersDone(r) {
      forall id | 0 <= id < |r'.regs|
        ensures r'.regs[id].cancelled || Leaving(r'.regs[id].phase)
        ensures Tracked(r', id)
      {
        assert Tracked(r, id);
      }
    }
  }

  lemma StepOk(r: Registry, step: Step)
    requires RegistryOk(r)
    ensures RegistryOk(Next(r, step))
  {
    match step
    case Subscribe(s) => SubscribeOk(r, s);
    case BeginOk(id) => MoveOk(r, id, Beginning, Pumping);
    case BeginError(id) =>
      CancelOk(r, id);
      MoveOk(r.(regs := CancelReg(r.regs, id)), id, Beginning, BeginFailed);
    case DropFailed(id) =>
      if id < |r.regs| && r.regs[id].phase == BeginFailed {
        FailedIsCancelledOrMapped(r, id);
      }
    case PumpEnds(id) => MoveOk(r, id, Pumping, Exiting);
    case PumpUnmaps(id) =>
      if id < |r.regs| && r.regs[id].phase == Exiting {
        DropOwnOk(r, id);
        MoveOk(DropOwn(r, id), id, Exiting, Unmapped);
      }
    case PumpDone(id) =>
      CancelOk(r, id);
      MoveOk(r.(regs := CancelReg(r.regs, id)), id, Unmapped, Done);
    case Unsubscribe(s) => UnsubscribeOk(r, s);
    case Teardown => TeardownOk(r);
  }

  lemma FailedIsCancelledOrMapped(r: Registry, id: nat)
    requires RegistryOk(r) && id < |r.regs| && r.regs[id].phase == BeginFailed
    ensures RegistryOk(Next(r, DropFailed(id)))
  {
    MoveOk(r, id, BeginFailed, Done);
    var r1 := MoveReg(r, id, BeginFailed, Done);
    DropOwnOk(r1, id);
    assert Next(r, DropFailed(id)) == DropOwn(r1, id);
  }

  lemma {:induction false} EveryRunTracked(steps: seq<Step>)
    ensures RegistryOk(Run(EMPTY, steps))
  {
    if steps != [] {
      EveryRunTracked(steps[..|steps| - 1]);
      StepOk(Run(EMPTY, steps[..|steps| - 1]), steps[|steps| - 1]);
    }
  }

  /** No cancel is ever stranded: from the teardown loop on, every pump still running
      has been cancelled, so the wait for the pumps ends. */
  lemma TeardownReachesEveryPump(steps: seq<Step>, id: nat)
    requires id < |Run(EMPTY, steps).regs| && Run(EMPTY, steps).tornDown
    ensures Run(EMPTY, steps).regs[id].phase == Pumping ==> Run(EMPTY, steps).regs[id].cancelled
  {
    EveryRunTracked(steps);
  }

  // ---------------------------------------------------------------------
  // What the map holds
  // ---------------------------------------------------------------------

  /** A registration in the map has not been through its own exit, and before the teardown its
      cancel has fired if and only if its call failed to begin. */
  ghost predicate EntryAlive(r: Registry, s: SubID)
    requires s in r.m
  {
    var id := r.m[s];
    id < |r.regs| &&
    var g := r.regs[id];
    && g.subID == s && g.phase != Unmapped && g.phase != Done
    && (!r.tornDown ==> (g.cancelled <==> g.phase == BeginFailed))
  }

  ghost predicate EntriesAlive(r: Registry) { forall s :: s in r.m ==> EntryAlive(r, s) }

  lemma SubscribeAlive(r: Registry, s: SubID)
    requires EntriesAlive(r)
    ensures EntriesAlive(Next(r, Subscribe(s)))
  {
    var r' := Next(r, Subscribe(s));
    forall k | k in r'.m ensures EntryAlive(r', k) {
      if k in r.m { assert EntryAlive(r, k); }
      if s in r.m { assert EntryAlive(r, s); }
    }
  }

  lemma UnsubscribeAlive(r: Registry, s: SubID)
    requires EntriesAlive(r)
    ensures EntriesAlive(Next(r, Unsubscribe(s)))
  {
    var r' := Next(r, Unsubscribe(s));
    if s in r.m { assert EntryAlive(r, s); }
    forall k | k in r'.m ensures EntryAlive(r', k) { assert EntryAlive(r, k); }
  }

  /** Any other change to one registration: an entry that points to it must stay alive. */
  lemma ChangeAlive(r: Registry, r': Registry, id: nat)
    requires EntriesAlive(r) && id < |r.regs| && r'.tornDown == r.tornDown
    requires |r'.regs| == |r.regs| && r'.regs == r.regs[id := r'.regs[id]] && r'.regs[id].subID == r.regs[id].subID
    requires forall s :: s in r'.m ==> s in r.m && r'.m[s] == r.m[s]
    requires r.regs[id].subID in r'.m && r'.m[r.regs[id].subID] == id ==> EntryAlive(r', r.regs[id].subID)
    ensures EntriesAlive(r')
  {
    forall s | s in r'.m ensures EntryAlive(r', s) {
      assert EntryAlive(r, s);
    }
  }

  lemma BeginAlive(r: Registry, id: nat)
    requires EntriesAlive(r)
    ensures EntriesAlive(Next(r, BeginOk(id))) && EntriesAlive(Next(r, BeginError(id)))
  {
    if id < |r.regs| && r.regs[id].phase == Beginning {
      var s := r.regs[id].subID;
      if s in r.m && r.m[s] == id { assert EntryAlive(r, s); }
      ChangeAlive(r, Next(r, BeginOk(id)), id);
      ChangeAlive(r, Next(r, BeginError(id)), id);
    }
  }

  lemma ExitAlive(r: Registry, id: nat)
    requires EntriesAlive(r)
    ensures EntriesAlive(Next(r, PumpEnds(id))) && EntriesAlive(Next(r, PumpDone(id)))
  {
    if id < |r.regs| {
      var s := r.regs[id].subID;
      if s in r.m && r.m[s] == id { assert EntryAlive(r, s); }
      if r.regs[id].phase == Pumping { ChangeAlive(r, Next(r, PumpEnds(id)), id); }
      if r.regs[id].phase == Unmapped { ChangeAlive(r, Next(r, PumpDone(id)), id); }
    }
  }

  lemma DropAlive(r: Registry, id: nat)
    requires EntriesAlive(r)
    ensures EntriesAlive(Next(r, DropFailed(id))) && EntriesAlive(Next(r, PumpUnmaps(id)))
  {
    if id < |r.regs| {
      if r.regs[id].phase == BeginFailed { ChangeAlive(r, Next(r, DropFailed(id)), id); }
      if r.regs[id].phase == Exiting { ChangeAlive(r, Next(r, PumpUnmaps(id)), id); }
    }
  }

  lemma TeardownAlive(r: Registry)
    requires EntriesAlive(r)
    ensures EntriesAlive(Next(r, Teardown))
  {
    var r' := Next(r, Teardown);
    forall s | s in r'.m ensures EntryAlive(r', s) { assert EntryAlive(r, s); }
  }

  lemma StepAlive(r: Registry, step: Step)
    requires EntriesAlive(r)
    ensures EntriesAlive(Next(r, step))
  {
    match step
    case Subscribe(s) => SubscribeAlive(r, s);
    case BeginOk(id) => BeginAlive(r, id);
    case BeginError(id) => BeginAlive(r, id);
    case DropFailed(id) => DropAlive(r, id);
    case PumpEnds(id) => ExitAlive(r, id);
    case PumpUnmaps(id) => DropAlive(r, id);
    case PumpDone(id) => ExitAlive(r, id);
    case Unsubscribe(s) => UnsubscribeAlive(r, s);
    case Teardown => TeardownAlive(r);
  }

  /** In every run: nothing takes a subscription out of service but its own failure to begin,
      its own exit, an unsubscribe, a resubscribe or the teardown. */
  lemma {:induction false} EveryEntryAlive(steps: seq<Step>)
    ensures EntriesAlive(Run(EMPTY, steps))
  {
    if steps != [] {
      EveryEntryAlive(steps[..|steps| - 1]);
      StepAlive(Run(EMPTY, steps[..|steps| - 1]), steps[|steps| - 1]);
    }
  }

  predicate Ended(g: Reg) { g.cancelled || Leaving(g.phase) }

  /** Registrations of the SubID are ended where they stand; others are left alone. */
  ghost predicate EndsExactly(before: Registry, after: Registry, s: SubID) {
    |after.regs| >= |before.regs| && forall i :: 0 <= i < |before.regs| ==> EndsOne(before.regs[i], after.regs[i], s)
  }

  predicate EndsOne(g: Reg, g': Reg, s: SubID) {
    if g.subID == s then Ended(g') && g'.phase == g.phase && g'.subID == s else g' == g
  }

  lemma CancelEnds(r: Registry, s: SubID, i: nat)
    requires RegistryOk(r) && i < |r.regs|
    ensures var regs := if s in r.m then CancelReg(r.regs, r.m[s]) else r.regs;
      i < |regs| && EndsOne(r.regs[i], regs[i], s)
  {
    assert Tracked(r, i);
  }

  /** After an unsubscribe every registration of the SubID, older ones included, is cancelled or
      on its way out, and its entry is gone; all others stay as they were. */
  lemma UnsubscribeEnds(steps: seq<Step>, s: SubID)
    ensures var r := Run(EMPTY, steps);
      var r' := Next(r, Unsubscribe(s));
      && EndsExactly(r, r', s) && |r'.regs| == |r.regs|
      && r'.m == (if r.tornDown then r.m else r.m - {s})
  {
    EveryRunTracked(steps);
    UnsubscribeEach(Run(EMPTY, steps), s);
  }

  lemma UnsubscribeEach(r: Registry, s: SubID)
    requires RegistryOk(r)
    ensures EndsExactly(r, Next(r, Unsubscribe(s)), s)
  {
    forall i | 0 <= i < |r.regs| ensures EndsOne(r.regs[i], Next(r, Unsubscribe(s)).regs[i], s) {
      if r.tornDown { assert Tracked(r, i); } else { CancelEnds(r, s, i); }
    }
  }

  /** A resubscribe ends every earlier registration of the SubID and installs a fresh one. */
  lemma SubscribeReplaces(steps: seq<Step>, s: SubID)
    requires !Run(EMPTY, steps).tornDown
    ensures var r := Run(EMPTY, steps);
      var r' := Next(r, Subscribe(s));
      && EndsExactly(r, r', s)
      && |r'.regs| == |r.regs| + 1 && r'.regs[|r.regs|] == Reg(s, false, Beginning)
      && r'.m == r.m[s := |r.regs|] && !r'.tornDown
  {
    EveryRunTracked(steps);
    SubscribeEach(Run(EMPTY, steps), s);
  }

  lemma SubscribeEach(r: Registry, s: SubID)
    requires RegistryOk(r) && !r.tornDown
    ensures EndsExactly(r, Next(r, Subscribe(s)), s)
  {
    forall i | 0 <= i < |r.regs| ensures EndsOne(r.regs[i], Next(r, Subscribe(s)).regs[i], s) {
      CancelEnds(r, s, i);
    }
  }

  /** A displaced registration never takes the newer one's entry with it. */
  lemma DisplacedKeepsNewer(r: Registry, s: SubID, old': nat)
    requires RegistryOk(r) && !r.tornDown && s in r.m && r.m[s] == old'
    ensures var r1 := Next(r, Subscribe(s));
      && r1.regs[old'].cancelled
      && forall p :: p in [PumpUnmaps(old'), DropFailed(old'), PumpDone(old')] ==>
           Next(r1, p).m == r1.m && r1.m[s] == |r.regs|
  {
  }

  /** The registry as an object. */
  class SubscriptionMap {
    var m: map<SubID, nat>
    var regs: seq<Reg>
    var tornDown: bool

    ghost function View(): Registry
      reads this
    {
      Registry(m, regs, tornDown)
    }

    constructor ()
      ensures View() == EMPTY
    {
      m, regs, tornDown := map[], [], false;
    }

    /** handleSubscribe, under the lock: fire the displaced cancel, then install. */
    method Install(s: SubID) returns (id: nat)
      requires !tornDown
      modifies this
      ensures View() == Next(old(View()), Subscribe(s)) && id == |old(regs)| && m[s] == id
    {
      if s in m { regs := CancelReg(regs, m[s]); }
      id := |regs|;
      regs := regs + [Reg(s, false, Beginning)];
      m := m[s := id];
    }

    /** The pump's exit, under the lock. */
    method Leave(id: nat)
      requires id < |regs| && regs[id].phase == Exiting
      modifies this
      ensures View() == Next(old(View()), PumpUnmaps(id))
    {
      var s := regs[id].subID;
      if s in m && m[s] == id { m := m - {s}; }
      regs := regs[id := regs[id].(phase := Unmapped)];
    }

    /** The teardown loop. */
    method CancelRemaining()
      requires RegistryOk(View()) && WorkersDone(View())
      modifies this
      ensures View() == Next(old(View()), Teardown)
      ensures forall i :: 0 <= i < |regs| ==> regs[i].cancelled || Leaving(regs[i].phase)
    {
      TeardownOk(View());
      CancelEach();
      tornDown := true;
    }

    method CancelEach()
      requires forall s :: s in m ==> m[s] < |regs|
      modifies `regs
      ensures regs == CancelAll(old(View()))
    {
      var rest := m.Keys;
      ghost var seen: set<SubID> := {};
      while rest != {}
        invariant seen + rest == m.Keys
        invariant |regs| == |old(regs)|
        invariant forall i :: 0 <= i < |regs| ==> regs[i] == Fired(m, seen, old(regs), i)
        decreases |rest|
      {
        var s :| s in rest;
        OwnsMore(m, seen, s);
        regs := regs[m[s] := regs[m[s]].(cancelled := true)];
        rest, seen := rest - {s}, seen + {s};
      }
      assert seen == m.Keys;
    }
  }

  lemma OwnsMore(m: map<SubID, nat>, keys: set<SubID>, s: SubID)
    requires s in m
    ensures forall i: nat :: Owns(m, keys + {s}, i) <==> Owns(m, keys, i) || m[s] == i
  {
    forall i: nat ensures Owns(m, keys + {s}, i) <==> Owns(m, keys, i) || m[s] == i {
      if Owns(m, keys, i) {
        var k :| k in keys && k in m && m[k] == i;
        assert k in keys + {s};
      }
      if m[s] == i { assert s in keys + {s}; }
    }
  }
}
