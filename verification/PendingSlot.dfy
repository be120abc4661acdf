/** One in-flight call's buffer, invoke/pending.go: a bounded channel with a
    FIFO overflow behind it, filled by Deliver and drained by the caller. */
module PendingSlot {
  import opened Common

  datatype Kind = Call | Reply | Error | End | Cancel | System

  datatype Frame = Frame(kind: Kind, corID: nat, body: Str)

  const OV_FRAME_CAP := 8192
  const OV_BYTE_CAP := 0x80_0000

  /** `cap` is the channel's capacity; `got` is what its reader has taken. */
  datatype Slot = Slot(cap: nat, got: seq<Frame>, ch: seq<Frame>, ov: seq<Frame>, ovBytes: int)

  predicate Terminal(f: Frame) { f.kind == End || f.kind == Error }

  predicate NoTerminal(fs: seq<Frame>) { forall f :: f in fs ==> !Terminal(f) }

  /** Exactly one terminal frame, and it is the last. */
  predicate EndsTerminal(fs: seq<Frame>) {
    fs != [] && Terminal(fs[|fs| - 1]) && NoTerminal(fs[..|fs| - 1])
  }

  function Bytes(fs: seq<Frame>): nat {
    if fs == [] then 0 else |fs[0].body| + Bytes(fs[1..])
  }

  lemma {:induction false} BytesAppend(fs: seq<Frame>, f: Frame)
    ensures Bytes(fs + [f]) == Bytes(fs) + |f.body|
  {
    if fs == [] {
      assert fs + [f] == [f] && [f][1..] == [];
    } else {
      assert (fs + [f])[1..] == fs[1..] + [f];
      BytesAppend(fs[1..], f);
    }
  }

  /** pumpLocked: overflow moves into the channel while it has room. */
  function Pump(s: Slot): Slot
    decreases |s.ov|
  {
    if s.ov == [] then s.(ovBytes := 0)
    else if |s.ch| < s.cap then
      Pump(s.(ch := s.ch + [s.ov[0]], ov := s.ov[1..], ovBytes := s.ovBytes - |s.ov[0].body|))
    else s
  }

  /** The queued frame, and whether the overflow stayed within its caps. */
  function Enqueue(s: Slot, f: Frame): (Slot, bool) {
    if s.ov == [] && |s.ch| < s.cap then (s.(ch := s.ch + [f]), true)
    else
      var q := s.(ov := s.ov + [f], ovBytes := s.ovBytes + |f.body|);
      if |q.ov| > OV_FRAME_CAP || q.ovBytes > OV_BYTE_CAP then (q, false) else (Pump(q), true)
  }

  /** A channel receive. */
  function Take(s: Slot): Slot {
    if s.ch == [] then s else s.(got := s.got + [s.ch[0]], ch := s.ch[1..])
  }

  /** Everything the call has been sent, in reading order. */
  function Stream(s: Slot): seq<Frame> { s.got + s.ch + s.ov }

  ghost predicate SlotOk(s: Slot) { |s.ch| <= s.cap && s.ovBytes == Bytes(s.ov) }

  /** Nothing is left in overflow behind a channel with room. */
  ghost predicate Settled(s: Slot) { SlotOk(s) && s.cap >= 1 && (s.ov == [] || |s.ch| == s.cap) }

  lemma {:induction false} PumpEffect(s: Slot)
    requires SlotOk(s)
    ensures SlotOk(Pump(s)) && Stream(Pump(s)) == Stream(s)
    ensures Pump(s).cap == s.cap && Pump(s).got == s.got
    ensures Pump(s).ov == [] || |Pump(s).ch| == s.cap
    ensures |Pump(s).ov| <= |s.ov| && Bytes(Pump(s).ov) <= Bytes(s.ov)
    decreases |s.ov|
  {
    if s.ov != [] && |s.ch| < s.cap {
      var t := s.(ch := s.ch + [s.ov[0]], ov := s.ov[1..], ovBytes := s.ovBytes - |s.ov[0].body|);
      PumpEffect(t);
      assert Stream(t) == Stream(s) by {
        assert s.ov == [s.ov[0]] + s.ov[1..];
        assert s.got + (s.ch + [s.ov[0]]) + s.ov[1..] == s.got + s.ch + ([s.ov[0]] + s.ov[1..]);
      }
    }
  }

  function Waiting(s: Slot): seq<Frame> { s.ch + s.ov }

  lemma PumpKeepsWaiting(s: Slot)
    requires SlotOk(s)
    ensures Waiting(Pump(s)) == Waiting(s)
  {
    PumpEffect(s);
    var u := Pump(s);
    assert Stream(s) == s.got + Waiting(s) && Stream(u) == u.got + Waiting(u);
    assert Waiting(u) == Stream(u)[|u.got|..] && Waiting(s) == Stream(s)[|s.got|..];
  }

  lemma EnqueueEffect(s: Slot, f: Frame)
    requires SlotOk(s)
    ensures var (t, ok) := Enqueue(s, f);
      && SlotOk(t) && t.cap == s.cap && t.got == s.got
      && Stream(t) == Stream(s) + [f]
      && (ok ==> t.ov == [] || |t.ch| == t.cap)
      && (ok && |s.ov| <= OV_FRAME_CAP && s.ovBytes <= OV_BYTE_CAP ==>
            |t.ov| <= OV_FRAME_CAP && t.ovBytes <= OV_BYTE_CAP)
  {
    if s.ov == [] && |s.ch| < s.cap {
      assert Stream(s.(ch := s.ch + [f])) == Stream(s) + [f];
    } else {
      var q := s.(ov := s.ov + [f], ovBytes := s.ovBytes + |f.body|);
      BytesAppend(s.ov, f);
      assert Stream(q) == Stream(s) + [f];
      PumpEffect(q);
    }
  }

  lemma TakeEffect(s: Slot)
    requires SlotOk(s)
    ensures SlotOk(Take(s)) && Stream(Take(s)) == Stream(s) && Take(s).cap == s.cap
  {
    if s.ch != [] {
      assert s.ch == [s.ch[0]] + s.ch[1..];
      assert s.got + [s.ch[0]] + s.ch[1..] + s.ov == s.got + s.ch + s.ov;
    }
  }

  // ---------------------------------------------------------------------
  // Deliver and Recv interleaved
  // ---------------------------------------------------------------------

  /** The reader's stream: not built yet; built while the table had the slot, so that its
      pump works; or built too late, with a pump that does nothing. */
  datatype Reader = NotBuilt | Pumping | Late

  /** `sent` is everything enqueued; `pumpsDue` counts receives whose pump has not run;
      `released` says that the table has dropped the slot. */
  datatype Traffic = Traffic(
    slot: Slot, sent: seq<Frame>, reader: Reader, pumpsDue: nat, released: bool, evicted: bool)

  datatype Step = Deliver(frame: Frame) | Release | Build | Receive | PumpAfterReceive

  function Next(t: Traffic, step: Step): Traffic {
    match step
    case Deliver(f) =>
      if t.evicted || t.released then t
      else
        var (s, ok) := Enqueue(t.slot, f);
        t.(slot := s, sent := t.sent + [f], evicted := !ok)
    case Release => t.(released := true)
    case Build =>
      if t.reader != NotBuilt || t.evicted then t
      else t.(reader := if t.released then Late else Pumping)
    case Receive =>
      if t.reader == NotBuilt || t.slot.ch == [] then t
      else t.(slot := Take(t.slot), pumpsDue := t.pumpsDue + if t.reader == Pumping then 1 else 0)
    case PumpAfterReceive =>
      if t.pumpsDue == 0 then t else t.(slot := Pump(t.slot), pumpsDue := t.pumpsDue - 1)
  }

  function Run(t: Traffic, steps: seq<Step>): Traffic {
    if steps == [] then t else Next(Run(t, steps[..|steps| - 1]), steps[|steps| - 1])
  }

  function Open(cap: nat): Traffic { Traffic(Slot(cap, [], [], [], 0), [], NotBuilt, 0, false, false) }

  /** Read by a late stream: what left the channel is never made up for. */
  ghost predicate Unpumped(s: Slot) {
    |s.got| + |s.ch| <= s.cap && (s.ov == [] || |s.got| + |s.ch| == s.cap)
  }

  ghost predicate ReaderOk(t: Traffic) {
    match t.reader
    case NotBuilt => t.slot.got == [] && Unpumped(t.slot) && t.pumpsDue == 0
    case Pumping => t.slot.ov == [] || |t.slot.ch| == t.slot.cap || t.pumpsDue > 0
    case Late => t.released && Unpumped(t.slot) && t.pumpsDue == 0
  }

  ghost predicate TrafficOk(t: Traffic) {
    && SlotOk(t.slot)
    && Stream(t.slot) == t.sent
    && (!t.evicted ==> ReaderOk(t) && |t.slot.ov| <= OV_FRAME_CAP && t.slot.ovBytes <= OV_BYTE_CAP)
  }

  lemma StepOk(t: Traffic, step: Step)
    requires TrafficOk(t)
    ensures TrafficOk(Next(t, step)) && Next(t, step).slot.cap == t.slot.cap
  {
    match step
    case Deliver(f) => EnqueueEffect(t.slot, f);
    case Receive => TakeEffect(t.slot);
    case PumpAfterReceive => PumpEffect(t.slot);
    case _ =>
  }

  /** In every interleaving: frames read, then buffered, then in overflow are exactly the
      frames sent, in order, and overflow stays within its caps. A reader facing an empty
      channel has nothing in overflow unless a pump is still due - or its stream was built
      after the table had dropped the slot: then, if and only if more frames were sent than
      the channel holds. */
  lemma {:induction false} EveryRunFifo(cap: nat, steps: seq<Step>)
    requires cap > 0
    ensures var t := Run(Open(cap), steps);
      && TrafficOk(t) && t.slot.cap == cap
      && t.slot.got + t.slot.ch + t.slot.ov == t.sent
      && (!t.evicted && t.slot.ch == [] ==>
            && (t.reader != Late && t.slot.ov != [] ==> t.pumpsDue > 0)
            && (t.reader == Late ==> (t.slot.ov != [] <==> |t.sent| > cap)))
  {
    if steps != [] {
      EveryRunFifo(cap, steps[..|steps| - 1]);
      StepOk(Run(Open(cap), steps[..|steps| - 1]), steps[|steps| - 1]);
    }
  }

  /** The buffer as an object. */
  class PendingBuffer {
    const cap: nat
    var ch: seq<Frame>
    var ov: seq<Frame>
    var ovBytes: int
    ghost var got: seq<Frame>

    ghost function View(): Slot
      reads this
    {
      Slot(cap, got, ch, ov, ovBytes)
    }

    constructor (cap: nat)
      ensures View() == Open(cap).slot
    {
      this.cap, ch, ov, ovBytes, got := cap, [], [], 0, [];
    }

    method PumpLocked()
      modifies this
      ensures View() == Pump(old(View()))
    {
      while ov != []
        invariant Pump(View()) == Pump(old(View()))
        decreases |ov|
      {
        if |ch| >= cap { return; }
        ch, ovBytes, ov := ch + [ov[0]], ovBytes - |ov[0].body|, ov[1..];
      }
      ovBytes := 0;
    }

    method EnqueueFrame(f: Frame) returns (ok: bool)
      modifies this
      ensures (View(), ok) == Enqueue(old(View()), f)
    {
      if ov == [] && |ch| < cap {
        ch := ch + [f];
        return true;
      }
      ov := ov + [f];
      ovBytes := ovBytes + |f.body|;
      if |ov| > OV_FRAME_CAP || ovBytes > OV_BYTE_CAP { return false; }
      PumpLocked();
      return true;
    }
  }
}
