/** Start delivery at boot, app/bootstrap.go and app/spawn.go: dynamic builds racing
    Phase 2, the batchInitComplete store and the sweep after it. */
module StartOnce {
  type ActorID = nat

  /** A build: its cell inserted and OnInit running, about to deliver directly, or over. */
  datatype Build = Inserted | GoingDirect | Finished

  /** Run: Phase 2, then the flag is stored, then the sweep snapshots the cells and
      walks the snapshot. */
  datatype Boot = PhaseTwo | FlagStored | Sweeping(left: set<ActorID>) | Booted

  datatype App = App(
    cells: set<ActorID>, builds: map<ActorID, Build>, boot: Boot,
    startSent: set<ActorID>, delivered: map<ActorID, nat>)

  datatype Step =
    | InsertCell(id: ActorID)
    | DecideStart(id: ActorID)
    | DirectStart(id: ActorID)
    | PhaseTwoStart(id: ActorID)
    | StoreFlag
    | SnapshotCells
    | SweepStart(id: ActorID)
    | SweepEnds

  predicate BatchComplete(a: App) { !a.boot.PhaseTwo? }

  function Deliveries(a: App, id: ActorID): nat { if id in a.delivered then a.delivered[id] else 0 }

  /** deliverStart, under pendingMu. */
  function DeliverStart(a: App, id: ActorID): App {
    if id in a.startSent then a
    else a.(startSent := a.startSent + {id}, delivered := a.delivered[id := Deliveries(a, id) + 1])
  }

  function Next(a: App, step: Step): App {
    match step
    case InsertCell(id) =>
      if id in a.cells then a
      else a.(cells := a.cells + {id}, builds := a.builds[id := Inserted])
    case DecideStart(id) =>
      if id !in a.builds || a.builds[id] != Inserted then a
      else a.(builds := a.builds[id := if BatchComplete(a) then GoingDirect else Finished])
    case DirectStart(id) =>
      if id !in a.builds || a.builds[id] != GoingDirect then a
      else DeliverStart(a, id).(builds := a.builds[id := Finished])
    case PhaseTwoStart(id) =>
      if a.boot.PhaseTwo? && id in a.cells then DeliverStart(a, id) else a
    case StoreFlag => if a.boot.PhaseTwo? then a.(boot := FlagStored) else a
    case SnapshotCells => if a.boot.FlagStored? then a.(boot := Sweeping(a.cells)) else a
    case SweepStart(id) =>
      if a.boot.Sweeping? && id in a.boot.left
      then DeliverStart(a, id).(boot := Sweeping(a.boot.left - {id})) else a
    case SweepEnds => if a.boot == Sweeping({}) then a.(boot := Booted) else a
  }

  function Run(a: App, steps: seq<Step>): App {
    if steps == [] then a else Next(Run(a, steps[..|steps| - 1]), steps[|steps| - 1])
  }

  function Begin(root: ActorID): App { App({root}, map[root := Finished], PhaseTwo, {}, map[]) }

  /** A finished build has been started, or someone still to come will start it. */
  ghost predicate Covered(a: App, id: ActorID) {
    id in a.startSent || a.boot.PhaseTwo? || a.boot.FlagStored? || (a.boot.Sweeping? && id in a.boot.left)
  }

  ghost predicate AppOk(a: App) {
    && a.builds.Keys == a.cells && a.startSent <= a.cells
    && (forall id :: Deliveries(a, id) == if id in a.startSent then 1 else 0)
    && (forall id :: id in a.builds && a.builds[id] == Finished ==> Covered(a, id))
    && (forall id :: id in a.builds && a.builds[id] == GoingDirect ==> BatchComplete(a))
    && (a.boot.Sweeping? ==> a.boot.left <= a.cells)
  }

  lemma DeliverOk(a: App, id: ActorID)
    requires AppOk(a) && id in a.cells
    ensures AppOk(DeliverStart(a, id)) && id in DeliverStart(a, id).startSent
  {
    var b := DeliverStart(a, id);
    forall x | x in b.builds && b.builds[x] == Finished ensures Covered(b, x) { assert Covered(a, x); }
  }

  lemma StepOk(a: App, step: Step)
    requires AppOk(a)
    ensures AppOk(Next(a, step))
  {
    var b := Next(a, step);
    match step
    case DirectStart(id) => if id in a.builds { DeliverOk(a, id); }
    case PhaseTwoStart(id) => if id in a.cells { DeliverOk(a, id); }
    case SweepStart(id) => if a.boot.Sweeping? && id in a.boot.left { DeliverOk(a, id); }
    case _ =>
    forall x | x in b.builds && b.builds[x] == Finished ensures Covered(b, x) {
      if x in a.builds && a.builds[x] == Finished { assert Covered(a, x); }
    }
  }

  lemma {:induction false} EveryRunOk(root: ActorID, steps: seq<Step>)
    ensures AppOk(Run(Begin(root), steps))
  {
    if steps != [] {
      EveryRunOk(root, steps[..|steps| - 1]);
      StepOk(Run(Begin(root), steps[..|steps| - 1]), steps[|steps| - 1]);
    }
  }

  /** In every interleaving no cell gets Start twice; and once the sweep is over,
      every cell whose build is over has got it exactly once. */
  lemma StartExactlyOnce(root: ActorID, steps: seq<Step>, id: ActorID)
    ensures var a := Run(Begin(root), steps);
      && Deliveries(a, id) <= 1
      && (a.boot.Booted? && id in a.builds && a.builds[id] == Finished ==> Deliveries(a, id) == 1)
  {
    EveryRunOk(root, steps);
  }

  // ---------------------------------------------------------------------
  // Builds end and the boot ends
  // ---------------------------------------------------------------------

  /** A new cell is built once: by the time its build is over it has been started, if the flag
      was set, or is left to the boot. */
  lemma BuildEnds(a: App, id: ActorID)
    requires AppOk(a) && id !in a.cells
    ensures var b := Next(a, InsertCell(id));
      var c := Next(Next(b, DecideStart(id)), DirectStart(id));
      && b.cells == a.cells + {id} && b.builds[id] == Inserted && b.startSent == a.startSent
      && c.builds[id] == Finished && c.startSent == a.startSent + (if a.boot == PhaseTwo then {} else {id})
  {
    assert id !in a.startSent;
  }

  predicate Covers(order: seq<ActorID>, left: set<ActorID>) { forall id <- left :: id in order }

  function Sweeps(order: seq<ActorID>): seq<Step> { seq(|order|, i requires 0 <= i < |order| => SweepStart(order[i])) }

  function RunOn(a: App, steps: seq<Step>): App
    decreases |steps|
  {
    if steps == [] then a else RunOn(Next(a, steps[0]), steps[1..])
  }

  /** In whatever order the snapshot is walked, the sweep comes to its end and leaves exactly the
      cells of the snapshot started in addition. */
  lemma {:induction false} SweepFinishes(a: App, order: seq<ActorID>)
    requires a.boot.Sweeping? && Covers(order, a.boot.left)
    ensures var b := RunOn(a, Sweeps(order));
      b.boot == Sweeping({}) && Next(b, SweepEnds).boot == Booted && b.startSent == a.startSent + a.boot.left
    decreases |order|
  {
    if order == [] {
      assert forall id :: id in a.boot.left ==> id in order;
      assert a.boot.left == {};
    } else {
      var b := Next(a, SweepStart(order[0]));
      assert Sweeps(order)[1..] == Sweeps(order[1..]);
      assert Covers(order[1..], b.boot.left);
      SweepFinishes(b, order[1..]);
    }
  }

  class Starter {
    var cells: set<ActorID>
    var startSent: set<ActorID>
    /** The Start envelopes sent, in order. */
    var sent: seq<ActorID>

    ghost predicate Valid()
      reads this
    {
      && startSent == (set id | id in sent)
      && forall i, j :: 0 <= i < j < |sent| ==> sent[i] != sent[j]
    }

    constructor (root: ActorID)
      ensures Valid() && cells == {root} && sent == []
    {
      cells, startSent, sent := {root}, {}, [];
    }

    method Deliver(id: ActorID)
      requires Valid()
      modifies `startSent, `sent
      ensures Valid() && startSent == old(startSent) + {id}
      ensures sent == if id in old(startSent) then old(sent) else old(sent) + [id]
    {
      if id in startSent { return; }
      sent, startSent := sent + [id], startSent + {id};
    }

    /** deliverDeferredStarts */
    method Sweep()
      requires Valid()
      modifies `startSent, `sent
      ensures Valid() && startSent == old(startSent) + cells && old(sent) <= sent
    {
      var left := cells;
      while left != {}
        invariant left <= cells && Valid()
        invariant startSent == old(startSent) + (cells - left) && old(sent) <= sent
        decreases |left|
      {
        var id :| id in left;
        Deliver(id);
        left := left - {id};
      }
    }
  }
}
