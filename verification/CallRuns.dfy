/** Calls from registration to the last read: the runs of PendingTable with the readers of
    CallStream. */
module CallRuns {
  import opened Common
  import opened PendingSlot
  import PL = PendingLaws
  import PT = PendingTable
  import opened CallStream

  // ---------------------------------------------------------------------
  // Streams with their own pump
  // ---------------------------------------------------------------------

  /** The reader of a registration whose terminal it has not read yet. */
  function ReaderOf(e: PT.Entry): State { Fresh(e.slot, e.pump == PT.OwnPump) }

  lemma WaitingEnds(s: Slot)
    requires EndsTerminal(Stream(s))
    ensures if Waiting(s) == [] then EndsTerminal(s.got) else EndsTerminal(Waiting(s))
  {
    var all, w := Stream(s), Waiting(s);
    assert all == s.got + w;
    if w == [] {
      assert all == s.got;
    } else {
      assert w[|w| - 1] == all[|all| - 1];
      assert w[..|w| - 1] == all[..|all| - 1][|s.got|..];
    }
  }

  /** A registration that the table has ended and whose stream is built. */
  predicate OverAndRead(es: seq<PT.Entry>, h: nat) {
    h < |es| && PT.Over(es[h].fate) && es[h].pump != PT.NoStream
  }

  lemma OverEnds(steps: seq<PT.Step>, h: nat)
    requires PT.Buffered(steps) && OverAndRead(PT.Run(PT.EMPTY, steps).entries, h)
    ensures var e := PT.Run(PT.EMPTY, steps).entries[h];
      PT.EntryOk(e) && EndsTerminal(Stream(e.slot))
  {
    PT.EveryRunOk(steps);
    assert PT.EntryOk(PT.Run(PT.EMPTY, steps).entries[h]);
  }

  /** Reading everything that waits delivers it in order, without blocking, and latches the
      terminal. */
  ghost predicate ReadsToTheEnd(s: State) {
    var w := Waiting(s.slot);
    var (s', os) := ReadMany(s, |w|);
    && w != [] && Terminal(w[|w| - 1])
    && |os| == |w| && (forall i :: 0 <= i < |w| ==> Answers(os[i], w[i]))
    && Answers(s'.latch, w[|w| - 1])
  }

  /** Reading on ends before an empty channel with frames in overflow, for good. */
  ghost predicate ReadsUntilStranded(s: State) {
    var s' := ReadMany(s, |Waiting(s.slot)|).0;
    s'.latch.None? && s'.slot.ch == [] && s'.slot.ov != [] && ReadOne(s', false) == (s', None)
  }

  lemma EndsOrStrands(s: State)
    requires s.latch.None? && !s.done && EndsTerminal(Waiting(s.slot)) && SlotOk(s.slot) && s.slot.cap >= 1
    requires s.bound ==> Settled(s.slot)
    ensures s.bound || s.slot.ov == [] ==> ReadsToTheEnd(s)
    ensures !s.bound && s.slot.ov != [] ==> ReadsUntilStranded(s)
  {
    if s.bound || s.slot.ov == [] {
      DrainsInOrder(s);
    } else {
      var w := Waiting(s.slot);
      assert w[..|w| - 1] == s.slot.ch + s.slot.ov[..|s.slot.ov| - 1];
      StrandsInOverflow(s, |w|);
    }
  }

  /** In every run, a call that is over, is still open and whose stream was built while it
      was in the table is read to its terminal, unless that has been read already. */
  lemma OwnPumpDrains(steps: seq<PT.Step>, h: nat)
    requires PT.Buffered(steps) && OverAndRead(PT.Run(PT.EMPTY, steps).entries, h)
    ensures var e := PT.Run(PT.EMPTY, steps).entries[h];
      e.pump == PT.OwnPump ==> if Waiting(e.slot) == [] then EndsTerminal(e.slot.got) else ReadsToTheEnd(ReaderOf(e))
  {
    OverEnds(steps, h);
    var e := PT.Run(PT.EMPTY, steps).entries[h];
    WaitingEnds(e.slot);
    if Waiting(e.slot) != [] && e.pump == PT.OwnPump { EndsOrStrands(ReaderOf(e)); }
  }

  /** The terminal that reading on leaves latched tells how the call ended: an evicted or
      flushed call fails with its reason, an errored one fails, a completed one is at its end. */
  lemma EndedCallsTell(steps: seq<PT.Step>, h: nat)
    requires PT.Buffered(steps) && OverAndRead(PT.Run(PT.EMPTY, steps).entries, h)
    ensures var e := PT.Run(PT.EMPTY, steps).entries[h];
      var latch := ReadMany(ReaderOf(e), |Waiting(e.slot)|).0.latch;
      Waiting(e.slot) != [] && (e.pump == PT.OwnPump || e.slot.ov == []) ==>
        if e.fate == PT.Completed then latch == Some(EndOfStream)
        else
          && latch.Some? && latch.value.Failed?
          && (e.fate == PT.EvictedCapacity ==> latch.value.message == PT.AT_CAPACITY)
          && (e.fate == PT.EvictedStalled ==> latch.value.message == PT.STALLED)
          && (e.fate == PT.Flushed ==> PT.DoFlush(latch.value.message) in steps)
  {
    OverEnds(steps, h);
    PL.EveryCallEndsAsFated(steps, h);
    PL.EveryFlushSaid(steps, steps);
    var e := PT.Run(PT.EMPTY, steps).entries[h];
    WaitingEnds(e.slot);
    if Waiting(e.slot) != [] && (e.pump == PT.OwnPump || e.slot.ov == []) {
      EndsOrStrands(ReaderOf(e));
      WaitingLast(e.slot);
    }
  }

  lemma WaitingLast(s: Slot)
    requires Waiting(s) != []
    ensures Stream(s) != [] && Waiting(s)[|Waiting(s)| - 1] == Stream(s)[|Stream(s)| - 1]
  {
    assert Stream(s) == s.got + Waiting(s);
  }

  // ---------------------------------------------------------------------
  // Streams built too late
  // ---------------------------------------------------------------------

  ghost predicate LateOk(e: PT.Entry) {
    !e.pump.OtherPump? && (e.pump == PT.NoPump ==> Unpumped(e.slot))
  }

  /** No two registrations share a CorID, so a stream finds its own slot or none. */
  ghost predicate SoloOk(es: seq<PT.Entry>) {
    && (forall i, j :: 0 <= i < j < |es| ==> es[i].corID != es[j].corID)
    && (forall h :: 0 <= h < |es| ==> LateOk(es[h]))
  }

  lemma UpdateSolo(es: seq<PT.Entry>, h: nat, e: PT.Entry)
    requires SoloOk(es) && h < |es| && e.corID == es[h].corID && LateOk(e)
    ensures SoloOk(es[h := e])
  {
  }

  /** In the table a registration is read with its own pump, or not at all. */
  lemma LeaveSolo(t: PT.Table, h: nat, s: Slot, fate: PT.Fate)
    requires SoloOk(t.entries) && PT.EntriesOk(t) && h < |t.entries| && t.entries[h].fate == PT.InTable
    ensures SoloOk(PT.Leave(t, h, s, fate).entries) && SoloOk(PT.SetSlot(t, h, s).entries)
  {
    assert PT.EntryOk(t.entries[h]);
    UpdateSolo(t.entries, h, t.entries[h].(slot := s, fate := fate));
    UpdateSolo(t.entries, h, t.entries[h].(slot := s));
  }

  lemma BuildSolo(t: PT.Table, h: nat)
    requires SoloOk(t.entries) && PT.EntriesOk(t) && PT.MappingOk(t)
    ensures SoloOk(PT.BuildStream(t, h).entries)
  {
    if h < |t.entries| && t.entries[h].pump == PT.NoStream {
      assert PT.EntryOk(t.entries[h]);
      UpdateSolo(t.entries, h, t.entries[h].(pump := PT.PumpFor(t, h)));
    }
  }

  lemma RecvSolo(t: PT.Table, h: nat)
    requires SoloOk(t.entries)
    ensures SoloOk(PT.Recv(t, h).entries)
  {
    if h < |t.entries| {
      var e := t.entries[h];
      assert LateOk(e);
      if e.pump == PT.OwnPump { UpdateSolo(t.entries, h, e.(slot := Pump(Take(e.slot)))); }
      if e.pump == PT.NoPump { UpdateSolo(t.entries, h, e.(slot := Take(e.slot))); }
    }
  }

  lemma FlushSolo(t: PT.Table, why: Str)
    requires SoloOk(t.entries) && PT.EntriesOk(t)
    ensures SoloOk(PT.FlushAll(t, why).entries)
  {
    forall h | 0 <= h < |t.entries| ensures LateOk(PT.FlushEntry(t.entries[h], why)) {
      assert PT.EntryOk(t.entries[h]) && LateOk(t.entries[h]);
    }
  }

  lemma DropSolo(t: PT.Table, corID: nat, fate: PT.Fate)
    requires SoloOk(t.entries) && PT.TableOk(t)
    ensures SoloOk(PT.Drop(t, corID, fate).entries)
  {
    if corID in t.slots {
      PT.LiveEntry(t, corID);
      LeaveSolo(t, t.slots[corID], t.entries[t.slots[corID]].slot, fate);
    }
  }

  lemma DeliverSolo(t: PT.Table, f: Frame)
    requires SoloOk(t.entries) && PT.TableOk(t)
    ensures SoloOk(PT.DeliverTo(t, f).entries)
  {
    if f.corID in t.slots {
      PT.LiveEntry(t, f.corID);
      var h := t.slots[f.corID];
      var (s, ok) := Enqueue(t.entries[h].slot, f);
      LeaveSolo(t, h, s, PT.Completed);
      LeaveSolo(t, h, s, PT.Errored);
      LeaveSolo(t, h, PT.Terminate(s, f.corID, PT.STALLED), PT.EvictedStalled);
    }
  }

  ghost predicate Unused(es: seq<PT.Entry>, corID: nat) { forall h :: 0 <= h < |es| ==> es[h].corID != corID }

  lemma AddSolo(t: PT.Table, corID: nat, callID: Str, mode: Str, cap: nat)
    requires SoloOk(t.entries) && Unused(t.entries, corID)
    ensures SoloOk(PT.AddEntry(t, corID, callID, mode, cap).entries)
  {
  }

  lemma EvictSolo(t: PT.Table, corID: nat)
    requires SoloOk(t.entries) && PT.TableOk(t) && t.slots != map[] && Unused(t.entries, corID)
    ensures SoloOk(PT.EvictOldest(t).entries) && Unused(PT.EvictOldest(t).entries, corID)
  {
    var c := PT.Oldest(t.slots);
    PT.LiveEntry(t, c);
    var h := t.slots[c];
    LeaveSolo(t, h, PT.Terminate(t.entries[h].slot, c, PT.AT_CAPACITY), PT.EvictedCapacity);
  }

  lemma RegisterSolo(t: PT.Table, corID: nat, callID: Str, mode: Str, cap: nat)
    requires SoloOk(t.entries) && PT.TableOk(t) && Unused(t.entries, corID)
    ensures SoloOk(PT.Register(t, corID, callID, mode, cap).entries)
  {
    assert corID !in t.slots by { if corID in t.slots { PT.LiveEntry(t, corID); } }
    if |t.slots| >= PT.MAX_SLOTS {
      assert t.slots != map[];
      EvictSolo(t, corID);
      AddSolo(PT.EvictOldest(t), corID, callID, mode, cap);
    } else {
      AddSolo(t, corID, callID, mode, cap);
    }
  }

  lemma StepSolo(t: PT.Table, step: PT.Step)
    requires SoloOk(t.entries) && PT.TableOk(t) && (step.DoRegister? ==> Unused(t.entries, step.corID))
    ensures SoloOk(PT.Next(t, step).entries)
  {
    match step
    case DoRegister(c, call, mode, cap) => RegisterSolo(t, c, call, mode, cap);
    case DoUnregister(c) => DropSolo(t, c, PT.ClosedEarly);
    case DoFailSend(c) => DropSolo(t, c, PT.SendFailed);
    case DoDeliver(f) => DeliverSolo(t, f);
    case DoFlush(why) => FlushSolo(t, why);
    case DoBuild(h) => BuildSolo(t, h);
    case DoRecv(h) => RecvSolo(t, h);
  }

  lemma LeaveUnused(t: PT.Table, h: nat, e: PT.Entry, c: nat)
    requires Unused(t.entries, c) && h < |t.entries| && e.corID == t.entries[h].corID
    ensures Unused(t.entries[h := e], c)
  {
  }

  lemma RegisterUnused(t: PT.Table, corID: nat, callID: Str, mode: Str, cap: nat, c: nat)
    requires Unused(t.entries, c) && corID != c
    ensures Unused(PT.Register(t, corID, callID, mode, cap).entries, c)
  {
    if t.slots != map[] { assert Unused(PT.EvictOldest(t).entries, c); }
    DropUnused(t, corID, PT.Replaced, c);
  }

  lemma RecvUnused(t: PT.Table, h: nat, c: nat)
    requires Unused(t.entries, c)
    ensures Unused(PT.Recv(t, h).entries, c)
  {
    if h < |t.entries| && t.entries[h].pump.OtherPump? {
      LeaveUnused(t, h, t.entries[h].(slot := Take(t.entries[h].slot)), c);
    }
  }

  lemma DeliverUnused(t: PT.Table, f: Frame, c: nat)
    requires Unused(t.entries, c)
    ensures Unused(PT.DeliverTo(t, f).entries, c)
  {
  }

  lemma FlushUnused(t: PT.Table, why: Str, c: nat)
    requires Unused(t.entries, c)
    ensures Unused(PT.FlushAll(t, why).entries, c)
  {
    forall h | 0 <= h < |t.entries| ensures PT.FlushEntry(t.entries[h], why).corID != c { }
  }

  lemma DropUnused(t: PT.Table, corID: nat, fate: PT.Fate, c: nat)
    requires Unused(t.entries, c)
    ensures Unused(PT.Drop(t, corID, fate).entries, c)
  {
    if corID in t.slots && t.slots[corID] < |t.entries| {
      var h := t.slots[corID];
      LeaveUnused(t, h, t.entries[h].(slot := t.entries[h].slot, fate := fate), c);
    }
  }

  lemma BuildUnused(t: PT.Table, h: nat, c: nat)
    requires Unused(t.entries, c)
    ensures Unused(PT.BuildStream(t, h).entries, c)
  {
  }

  lemma StepUnused(t: PT.Table, step: PT.Step, c: nat)
    requires Unused(t.entries, c) && (step.DoRegister? ==> step.corID != c)
    ensures Unused(PT.Next(t, step).entries, c)
  {
    match step
    case DoRegister(d, call, mode, cap) => RegisterUnused(t, d, call, mode, cap, c);
    case DoDeliver(f) => DeliverUnused(t, f, c);
    case DoFlush(why) => FlushUnused(t, why, c);
    case DoUnregister(d) => DropUnused(t, d, PT.ClosedEarly, c);
    case DoFailSend(d) => DropUnused(t, d, PT.SendFailed, c);
    case DoBuild(h) => BuildUnused(t, h, c);
    case DoRecv(h) => RecvUnused(t, h, c);
  }

  lemma {:induction false} NeverRegistered(steps: seq<PT.Step>, c: nat)
    requires forall i :: 0 <= i < |steps| && steps[i].DoRegister? ==> steps[i].corID != c
    ensures Unused(PT.Run(PT.EMPTY, steps).entries, c)
  {
    if steps != [] {
      var n := |steps| - 1;
      NeverRegistered(steps[..n], c);
      StepUnused(PT.Run(PT.EMPTY, steps[..n]), steps[n], c);
    }
  }

  lemma {:induction false} EveryRunSolo(steps: seq<PT.Step>)
    requires PT.Buffered(steps) && PT.DistinctCorIDs(steps)
    ensures SoloOk(PT.Run(PT.EMPTY, steps).entries)
  {
    if steps != [] {
      var n := |steps| - 1;
      EveryRunSolo(steps[..n]);
      PT.EveryRunOk(steps[..n]);
      if steps[n].DoRegister? { NeverRegistered(steps[..n], steps[n].corID); }
      StepSolo(PT.Run(PT.EMPTY, steps[..n]), steps[n]);
    }
  }

  /** In every run with fresh CorIDs, a call that is over and still open is read to its
      terminal if and only if its stream was built while the call was in the table, or no
      more frames were delivered than its channel holds. Otherwise the reader gets what the
      channel held and then waits for ever, the terminal in overflow. */
  lemma OverCallsDrain(steps: seq<PT.Step>, h: nat)
    requires PT.Buffered(steps) && PT.DistinctCorIDs(steps)
    requires OverAndRead(PT.Run(PT.EMPTY, steps).entries, h)
    ensures var e := PT.Run(PT.EMPTY, steps).entries[h];
      var fits := e.pump == PT.OwnPump || |Stream(e.slot)| <= e.slot.cap;
      if Waiting(e.slot) == [] then fits && EndsTerminal(e.slot.got)
      else if fits then ReadsToTheEnd(ReaderOf(e))
      else ReadsUntilStranded(ReaderOf(e))
  {
    OverEnds(steps, h);
    EveryRunSolo(steps);
    var e := PT.Run(PT.EMPTY, steps).entries[h];
    assert LateOk(e);
    assert |Stream(e.slot)| == |e.slot.got| + |e.slot.ch| + |e.slot.ov|;
    WaitingEnds(e.slot);
    if Waiting(e.slot) != [] { EndsOrStrands(ReaderOf(e)); }
  }

  /** Such a run: two frames into a channel of one before the stream is built. */
  lemma LateStreamStrands(c: nat, call: Str, mode: Str, body: Str)
    ensures var steps := [PT.DoRegister(c, call, mode, 1), PT.DoDeliver(Frame(Reply, c, body)),
                          PT.DoDeliver(Frame(End, c, [])), PT.DoBuild(0)];
      var es := PT.Run(PT.EMPTY, steps).entries;
      && PT.Buffered(steps) && PT.DistinctCorIDs(steps) && OverAndRead(es, 0)
      && ReadsUntilStranded(ReaderOf(es[0]))
  {
    var s1, s2 := PT.DoRegister(c, call, mode, 1), PT.DoDeliver(Frame(Reply, c, body));
    var s3, s4 := PT.DoDeliver(Frame(End, c, [])), PT.DoBuild(0);
    RunAppend([], s1);
    RunAppend([] + [s1], s2);
    RunAppend([] + [s1] + [s2], s3);
    RunAppend([] + [s1] + [s2] + [s3], s4);
    var steps := [s1, s2, s3, s4];
    assert steps == [] + [s1] + [s2] + [s3] + [s4];
    var t1 := FirstCall(c, call, mode);
    var t2 := ReplyArrives(t1, c, call, mode, body);
    var t3 := EndArrives(t2, c, call, mode, body);
    BuiltLate(t3, c, call, mode, body);
    OverCallsDrain(steps, 0);
  }

  lemma RunAppend(steps: seq<PT.Step>, step: PT.Step)
    ensures PT.Run(PT.EMPTY, steps + [step]) == PT.Next(PT.Run(PT.EMPTY, steps), step)
  {
    assert (steps + [step])[..|steps|] == steps;
  }

  lemma FirstCall(c: nat, call: Str, mode: Str) returns (t: PT.Table)
    ensures t == PT.Next(PT.EMPTY, PT.DoRegister(c, call, mode, 1)) && t.slots == map[c := 0]
    ensures t.entries == [PT.Entry(c, call, mode, Slot(1, [], [], [], 0), PT.InTable, PT.NoStream)]
  {
    t := PT.Next(PT.EMPTY, PT.DoRegister(c, call, mode, 1));
  }

  lemma ReplyArrives(t: PT.Table, c: nat, call: Str, mode: Str, body: Str) returns (t': PT.Table)
    requires t.slots == map[c := 0]
    requires t.entries == [PT.Entry(c, call, mode, Slot(1, [], [], [], 0), PT.InTable, PT.NoStream)]
    ensures t' == PT.Next(t, PT.DoDeliver(Frame(Reply, c, body))) && t'.slots == t.slots
    ensures t'.entries ==
      [PT.Entry(c, call, mode, Slot(1, [], [Frame(Reply, c, body)], [], 0), PT.InTable, PT.NoStream)]
  {
    var f, s := Frame(Reply, c, body), t.entries[0].slot;
    assert Enqueue(s, f) == (s.(ch := [f]), true) by { assert s.ch + [f] == [f]; }
    t' := PT.Next(t, PT.DoDeliver(f));
    assert t'.entries[0] == t.entries[0].(slot := s.(ch := [f]));
  }

  lemma EndArrives(t: PT.Table, c: nat, call: Str, mode: Str, body: Str) returns (t': PT.Table)
    requires t.slots == map[c := 0]
    requires t.entries ==
      [PT.Entry(c, call, mode, Slot(1, [], [Frame(Reply, c, body)], [], 0), PT.InTable, PT.NoStream)]
    ensures t' == PT.Next(t, PT.DoDeliver(Frame(End, c, []))) && c !in t'.slots
    ensures t'.entries == [PT.Entry(
      c, call, mode, Slot(1, [], [Frame(Reply, c, body)], [Frame(End, c, [])], 0), PT.Completed, PT.NoStream)]
  {
    var f, s := Frame(End, c, []), t.entries[0].slot;
    assert Enqueue(s, f) == (s.(ov := [f]), true) by { assert s.ov + [f] == [f]; }
    t' := PT.Next(t, PT.DoDeliver(f));
  }

  lemma BuiltLate(t: PT.Table, c: nat, call: Str, mode: Str, body: Str)
    requires c !in t.slots
    requires t.entries == [PT.Entry(
      c, call, mode, Slot(1, [], [Frame(Reply, c, body)], [Frame(End, c, [])], 0), PT.Completed, PT.NoStream)]
    ensures PT.Next(t, PT.DoBuild(0)).entries == [PT.Entry(
      c, call, mode, Slot(1, [], [Frame(Reply, c, body)], [Frame(End, c, [])], 0), PT.Completed, PT.NoPump)]
  {
  }
}
