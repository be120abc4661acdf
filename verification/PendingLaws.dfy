/** What the methods of the pending table do to the call they name, and how each ended call
    ends. */
module PendingLaws {
  import opened Common
  import opened PendingSlot
  import opened PendingTable

  // ---------------------------------------------------------------------
  // The buffer
  // ---------------------------------------------------------------------

  /** A frame is accepted if and only if the channel has room and nothing is in overflow, or
      the overflow with it stays within 8192 frames and 8 MiB. */
  lemma AcceptedIff(s: Slot, f: Frame)
    requires SlotOk(s)
    ensures Enqueue(s, f).1 <==> Fits(s, f)
  {
  }

  // ---------------------------------------------------------------------
  // Register, Unregister, SendFailed
  // ---------------------------------------------------------------------

  function NewEntry(corID: nat, callID: Str, mode: Str, cap: nat): Entry {
    Entry(corID, callID, mode, Slot(cap, [], [], [], 0), InTable, NoStream)
  }

  /** Below 4096 calls a fresh registration displaces nobody. */
  lemma RegisterAdds(t: Table, corID: nat, callID: Str, mode: Str, cap: nat)
    requires BookOk(t) && corID !in t.slots && |t.slots| < 4096
    ensures var t' := Register(t, corID, callID, mode, cap);
      t'.slots == t.slots[corID := |t.entries|] && t'.entries == t.entries + [NewEntry(corID, callID, mode, cap)]
  {
  }

  /** A CorID in use costs its own earlier registration the slot, and nobody else. */
  lemma RegisterReplaces(t: Table, corID: nat, callID: Str, mode: Str, cap: nat)
    requires BookOk(t) && corID in t.slots
    ensures var t', h := Register(t, corID, callID, mode, cap), t.slots[corID];
      && h < |t.entries| && t'.slots == t.slots[corID := |t.entries|]
      && t'.entries == t.entries[h := t.entries[h].(fate := Replaced)] + [NewEntry(corID, callID, mode, cap)]
  {
    LiveEntry(t, corID);
  }

  /** A full table gives up the smallest CorID, with an error for its caller. */
  lemma RegisterEvicts(t: Table, corID: nat, callID: Str, mode: Str, cap: nat) returns (v: nat)
    requires TableOk(t) && corID !in t.slots && |t.slots| == 4096
    ensures v in t.slots && forall c :: c in t.slots ==> v <= c
    ensures var t', h := Register(t, corID, callID, mode, cap), t.slots[v];
      && h < |t.entries| && t'.slots == (t.slots - {v})[corID := |t.entries|]
      && |t'.entries| == |t.entries| + 1 && t'.entries[|t.entries|] == NewEntry(corID, callID, mode, cap)
      && (forall k :: 0 <= k < |t.entries| && k != h ==> t'.entries[k] == t.entries[k])
      && t'.entries[h].fate == EvictedCapacity
      && Stream(t'.entries[h].slot) == t.entries[h].slot.got
           + (if t.entries[h].slot.ch == [] then [] else t.entries[h].slot.ch[1..]) + [Frame(Error, v, AT_CAPACITY)]
  {
    assert t.slots != map[];
    v := Oldest(t.slots);
    LiveEntry(t, v);
    TerminatedStream(t.entries[t.slots[v]], AT_CAPACITY);
  }

  /** Overflow and the oldest waiting frame make room for the error. */
  lemma TerminatedStream(e: Entry, why: Str)
    requires EntryOk(e) && e.fate == InTable
    ensures Stream(Terminate(e.slot, e.corID, why)) ==
      e.slot.got + (if e.slot.ch == [] then [] else e.slot.ch[1..]) + [Frame(Error, e.corID, why)]
  {
    StreamParts(e.slot);
    TerminateOk(e.slot, e.corID, why);
  }

  /** Unregister and SendFailed release the named call, once, and leave its buffer alone; an
      unknown CorID changes nothing. */
  lemma DropReleases(t: Table, corID: nat)
    requires BookOk(t)
    ensures corID !in t.slots ==> Unregister(t, corID) == t && FailSend(t, corID) == t
    ensures corID in t.slots ==> var h := t.slots[corID];
      && h < |t.entries|
      && Unregister(t, corID).slots == t.slots - {corID} && FailSend(t, corID).slots == t.slots - {corID}
      && Unregister(t, corID).entries == t.entries[h := t.entries[h].(fate := ClosedEarly)]
      && FailSend(t, corID).entries == t.entries[h := t.entries[h].(fate := Fate.SendFailed)]
  {
    if corID in t.slots { LiveEntry(t, corID); }
  }

  // ---------------------------------------------------------------------
  // Deliver
  // ---------------------------------------------------------------------

  ghost predicate Fits(s: Slot, f: Frame) {
    || (s.ov == [] && |s.ch| < s.cap)
    || (|s.ov| + 1 <= 8192 && Bytes(s.ov) + |f.body| <= 8 * 1024 * 1024)
  }

  /** A terminal frame ends its call and frees the slot; a frame past the caps evicts the call;
      a frame for nobody changes nothing. */
  lemma DeliverDecides(t: Table, f: Frame)
    requires TableOk(t)
    ensures f.corID !in t.slots ==> DeliverTo(t, f) == t
    ensures f.corID in t.slots ==>
      var h := t.slots[f.corID];
      h < |t.entries| &&
      var e, t' := t.entries[h], DeliverTo(t, f);
      && |t'.entries| == |t.entries| && (forall k :: 0 <= k < |t.entries| && k != h ==> t'.entries[k] == t.entries[k])
      && t'.slots == (if Fits(e.slot, f) && f.kind != End && f.kind != Error then t.slots else t.slots - {f.corID})
      && t'.entries[h].fate == (if !Fits(e.slot, f) then EvictedStalled else if f.kind == End then Completed
                                else if f.kind == Error then Errored else InTable)
  {
    if f.corID in t.slots {
      LiveEntry(t, f.corID);
      assert EntryOk(t.entries[t.slots[f.corID]]);
      AcceptedIff(t.entries[t.slots[f.corID]].slot, f);
    }
  }

  /** A frame within the caps is the last of its call's stream. */
  lemma DeliverAppends(t: Table, f: Frame)
    requires TableOk(t) && f.corID in t.slots && t.slots[f.corID] < |t.entries|
    requires Fits(t.entries[t.slots[f.corID]].slot, f)
    ensures var h := t.slots[f.corID];
      Stream(DeliverTo(t, f).entries[h].slot) == Stream(t.entries[h].slot) + [f]
  {
    var s := t.entries[t.slots[f.corID]].slot;
    assert EntryOk(t.entries[t.slots[f.corID]]);
    AcceptedIff(s, f);
    EnqueueEffect(s, f);
  }

  // ---------------------------------------------------------------------
  // Flush
  // ---------------------------------------------------------------------

  /** Flush empties the table and ends every call in it with an error that gives the reason;
      the channel loses at most its oldest frame. */
  lemma FlushEnds(t: Table, why: Str, h: Handle)
    requires TableOk(t) && h < |t.entries|
    ensures FlushAll(t, why).slots == map[] && |FlushAll(t, why).entries| == |t.entries|
    ensures var e, e' := t.entries[h], FlushAll(t, why).entries[h];
      if e.fate != InTable then e' == e
      else
        && e'.fate == Flushed
        && Stream(e'.slot) == e.slot.got + (if e.slot.ch == [] then [] else e.slot.ch[1..])
                                + [Frame(Error, e.corID, why)]
  {
    assert EntryOk(t.entries[h]);
    if t.entries[h].fate == InTable { TerminatedStream(t.entries[h], why); }
  }

  // ---------------------------------------------------------------------
  // The reader
  // ---------------------------------------------------------------------

  /** A stream built while its call is in the table gets the call's own pump; built later it
      gets none, unless the CorID is in use again. */
  lemma BuildBinds(t: Table, h: Handle)
    requires BookOk(t) && h < |t.entries| && t.entries[h].pump == NoStream
    ensures var p := BuildStream(t, h).entries[h].pump;
      && (p == OwnPump <==> t.entries[h].fate == InTable)
      && (p == NoPump <==> t.entries[h].corID !in t.slots)
      && BuildStream(t, h) == t.(entries := t.entries[h := t.entries[h].(pump := p)])
  {
  }

  /** A receive takes the oldest frame of the channel. With its own pump the overflow follows. */
  lemma RecvTakes(t: Table, h: Handle)
    requires TableOk(t) && h < |t.entries| && t.entries[h].pump != NoStream && t.entries[h].slot.ch != []
    requires !t.entries[h].pump.OtherPump?
    ensures var s, s' := t.entries[h].slot, Recv(t, h).entries[h].slot;
      && s'.got == s.got + [s.ch[0]] && s'.ch + s'.ov == s.ch[1..] + s.ov
      && (t.entries[h].pump == OwnPump ==> s'.ov == [] || |s'.ch| == s'.cap)
      && (t.entries[h].pump == NoPump ==> s'.ov == s.ov)
  {
    var s := t.entries[h].slot;
    assert EntryOk(t.entries[h]);
    TakeEffect(s);
    PumpEffect(Take(s));
    PumpKeepsWaiting(Take(s));
    assert Waiting(Take(s)) == s.ch[1..] + s.ov;
    var s' := if t.entries[h].pump == OwnPump then Pump(Take(s)) else Take(s);
    assert Recv(t, h).entries[h].slot == s' && Waiting(s') == s'.ch + s'.ov;
  }

  // ---------------------------------------------------------------------
  // How calls end, in every run
  // ---------------------------------------------------------------------

  /** Completed calls end with End, all other ended calls with an error under their own CorID;
      an evicted call's error gives the reason. */
  lemma EveryCallEndsAsFated(steps: seq<PendingTable.Step>, h: Handle)
    requires Buffered(steps)
    ensures var es := PendingTable.Run(EMPTY, steps).entries;
      h < |es| && Over(es[h].fate) ==>
        var e := es[h];
        && Stream(e.slot) != []
        && var last := Stream(e.slot)[|Stream(e.slot)| - 1];
        && last.corID == e.corID
        && last.kind == (if e.fate == Completed then End else Error)
        && (e.fate == EvictedStalled ==> last.body == STALLED)
        && (e.fate == EvictedCapacity ==> last.body == AT_CAPACITY)
  {
    EveryRunOk(steps);
    assert h < |PendingTable.Run(EMPTY, steps).entries| ==> EntryOk(PendingTable.Run(EMPTY, steps).entries[h]);
  }

  /** A frame reaches only the call whose CorID it carries. */
  lemma EveryFrameRouted(steps: seq<PendingTable.Step>, h: Handle, f: Frame)
    requires Buffered(steps)
    ensures var es := PendingTable.Run(EMPTY, steps).entries;
      h < |es| && f in Stream(es[h].slot) ==> f.corID == es[h].corID
  {
    EveryRunOk(steps);
    assert h < |PendingTable.Run(EMPTY, steps).entries| ==> EntryOk(PendingTable.Run(EMPTY, steps).entries[h]);
  }

  /** A flushed call's error gives the reason of a flush of the run. */
  ghost predicate FlushSaid(es: seq<Entry>, steps: seq<PendingTable.Step>) {
    forall h :: 0 <= h < |es| && es[h].fate == Flushed ==>
      Stream(es[h].slot) != [] && DoFlush(LastFrame(es[h]).body) in steps
  }

  lemma StepFlushSaid(t: Table, step: PendingTable.Step, steps: seq<PendingTable.Step>)
    requires TableOk(t) && FlushSaid(t.entries, steps) && step in steps
    ensures FlushSaid(PendingTable.Next(t, step).entries, steps)
  {
    var es := PendingTable.Next(t, step).entries;
    forall h | 0 <= h < |es| && es[h].fate == Flushed
      ensures Stream(es[h].slot) != [] && DoFlush(LastFrame(es[h]).body) in steps
    {
      FlushedStep(t, step, h);
    }
  }

  /** If `h` is flushed after the step, it was flushed by it or has kept its stream. */
  ghost predicate FlushedWell(t: Table, step: PendingTable.Step, h: Handle) {
    var es := PendingTable.Next(t, step).entries;
    h < |es| && es[h].fate == Flushed ==>
      || (h < |t.entries| && t.entries[h].fate == Flushed && Stream(es[h].slot) == Stream(t.entries[h].slot))
      || (step.DoFlush? && Stream(es[h].slot) != [] && LastFrame(es[h]).body == step.why)
  }

  lemma FlushedStep(t: Table, step: PendingTable.Step, h: Handle)
    requires TableOk(t)
    ensures FlushedWell(t, step, h)
  {
    match step
    case DoRegister(c, call, mode, cap) => RegisterFlushed(t, c, call, mode, cap, h);
    case DoUnregister(c) => UnregisterFlushed(t, c, h);
    case DoFailSend(c) => FailSendFlushed(t, c, h);
    case DoDeliver(f) => DeliverFlushed(t, f, h);
    case DoFlush(why) => FlushFlushed(t, why, h);
    case DoBuild(k) => BuildFlushed(t, k, h);
    case DoRecv(k) => RecvFlushed(t, k, h);
  }

  lemma FlushFlushed(t: Table, why: Str, h: Handle)
    requires TableOk(t)
    ensures FlushedWell(t, DoFlush(why), h)
  {
    if h < |t.entries| { FlushEnds(t, why, h); }
  }

  lemma BuildFlushed(t: Table, k: Handle, h: Handle)
    ensures FlushedWell(t, DoBuild(k), h)
  {
  }

  lemma UnregisterFlushed(t: Table, c: nat, h: Handle)
    requires BookOk(t)
    ensures FlushedWell(t, DoUnregister(c), h)
  {
    DropReleases(t, c);
  }

  lemma FailSendFlushed(t: Table, c: nat, h: Handle)
    requires BookOk(t)
    ensures FlushedWell(t, DoFailSend(c), h)
  {
    DropReleases(t, c);
  }

  lemma DeliverFlushed(t: Table, f: Frame, h: Handle)
    requires TableOk(t)
    ensures FlushedWell(t, DoDeliver(f), h)
  {
    DeliverDecides(t, f);
  }

  lemma RecvFlushed(t: Table, k: Handle, h: Handle)
    requires TableOk(t)
    ensures FlushedWell(t, DoRecv(k), h)
  {
    if h < |t.entries| { RecvKeepsStreams(t, k, h); }
  }

  lemma RegisterFlushed(t: Table, corID: nat, callID: Str, mode: Str, cap: nat, h: Handle)
    requires TableOk(t)
    ensures FlushedWell(t, DoRegister(corID, callID, mode, cap), h)
  {
    if corID in t.slots {
      RegisterReplaces(t, corID, callID, mode, cap);
    } else if |t.slots| < 4096 {
      RegisterAdds(t, corID, callID, mode, cap);
    } else {
      var v := RegisterEvicts(t, corID, callID, mode, cap);
    }
  }

  lemma PumpAtKeepsStreams(t: Table, k: Handle, h: Handle)
    requires EntriesOk(t) && h < |t.entries|
    ensures h < |PumpAt(t, k).entries| && Stream(PumpAt(t, k).entries[h].slot) == Stream(t.entries[h].slot)
    ensures PumpAt(t, k).entries[h].fate == t.entries[h].fate
  {
    assert EntryOk(t.entries[h]);
    PumpEffect(t.entries[h].slot);
  }

  lemma RecvKeepsStreams(t: Table, k: Handle, h: Handle)
    requires EntriesOk(t) && h < |t.entries|
    ensures h < |Recv(t, k).entries| && Stream(Recv(t, k).entries[h].slot) == Stream(t.entries[h].slot)
    ensures Recv(t, k).entries[h].fate == t.entries[h].fate
  {
    if k < |t.entries| && t.entries[k].pump != NoStream {
      var e := t.entries[k];
      assert EntryOk(e);
      TakeEffect(e.slot);
      if e.pump == OwnPump { PumpEffect(Take(e.slot)); }
      if e.pump.OtherPump? {
        ReadOk(e);
        UpdateEntries(t.entries, k, e.(slot := Take(e.slot)));
        PumpAtKeepsStreams(SetSlot(t, k, Take(e.slot)), e.pump.slot, h);
      }
    }
  }

  lemma {:induction false} EveryFlushSaid(steps: seq<PendingTable.Step>, all: seq<PendingTable.Step>)
    requires Buffered(steps) && forall s :: s in steps ==> s in all
    ensures FlushSaid(PendingTable.Run(EMPTY, steps).entries, all)
  {
    if steps != [] {
      var n := |steps| - 1;
      assert forall s :: s in steps[..n] ==> s in steps;
      EveryFlushSaid(steps[..n], all);
      EveryRunOk(steps[..n]);
      assert steps[n] in steps;
      StepFlushSaid(PendingTable.Run(EMPTY, steps[..n]), steps[n], all);
    }
  }
}
