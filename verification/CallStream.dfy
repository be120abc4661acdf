/** The caller's side of a call, invoke/invoke.go: Recv over the slot's channel,
    the latched terminal, Close and Cancel. */
module CallStream {
  import opened Common
  import opened PendingSlot

  datatype Outcome = Value(body: Str) | Failed(message: Str) | EndOfStream | CallCancelled | Unexpected

  /** decodeFrame, for value payloads. */
  function Decode(f: Frame): Outcome {
    match f.kind
    case Reply => Value(f.body)
    case Error => Failed(f.body)
    case End => EndOfStream
    case _ => Unexpected
  }

  /** What a caller sees of a frame: a reply's body, an error's text, or the end. */
  ghost predicate Answers(o: Option<Outcome>, f: Frame) {
    && (f.kind == Reply ==> o == Some(Value(f.body)))
    && (f.kind == Error ==> o == Some(Failed(f.body)))
    && (f.kind == End ==> o == Some(EndOfStream))
    && (f.kind != Reply && !Terminal(f) ==> o == Some(Unexpected))
  }

  /** `bound` says that the pump which the stream was built with is the slot's own; otherwise
      it does nothing. */
  datatype State = State(slot: Slot, bound: bool, latch: Option<Outcome>, done: bool, cancelled: bool)

  function Fresh(slot: Slot, bound: bool): State { State(slot, bound, None, false, false) }

  /** The receive and the pump after it. */
  function Read(slot: Slot, bound: bool): Slot { if bound then Pump(Take(slot)) else Take(slot) }

  /** One Recv. When a frame is ready and the stream is closed as well, Go's select
      picks either case: `preferDone` is that pick. None means it would block. */
  function ReadOne(s: State, preferDone: bool): (State, Option<Outcome>) {
    if s.latch.Some? then (s, s.latch)
    else if s.slot.ch != [] && !(s.done && preferDone) then
      var f := s.slot.ch[0];
      var s' := s.(slot := Read(s.slot, s.bound), latch := if Terminal(f) then Some(Decode(f)) else None);
      (s', Some(Decode(f)))
    else if s.done then
      if s.slot.ch != [] then (s.(slot := Take(s.slot)), Some(Decode(s.slot.ch[0])))
      else (s, Some(if s.cancelled then CallCancelled else EndOfStream))
    else (s, None)
  }

  datatype Move = DoRecv(preferDone: bool) | DoClose | DoCancel | Arrive(frame: Frame)

  function Advance(s: State, step: Move): State {
    match step
    case DoRecv(pick) => ReadOne(s, pick).0
    case DoClose => s.(done := true)
    case DoCancel => s.(done := true, cancelled := true)
    case Arrive(f) => s.(slot := Enqueue(s.slot, f).0)
  }

  function Perform(s: State, steps: seq<Move>): State
    decreases |steps|
  {
    if steps == [] then s else Perform(Advance(s, steps[0]), steps[1..])
  }

  /** A latched terminal is what every later Recv returns, whatever happens between:
      more frames, Close or Cancel. */
  lemma {:induction false} TerminalSticky(s: State, steps: seq<Move>, preferDone: bool)
    requires s.latch.Some?
    ensures Perform(s, steps).latch == s.latch
    ensures ReadOne(Perform(s, steps), preferDone) == (Perform(s, steps), s.latch)
    decreases |steps|
  {
    if steps != [] { TerminalSticky(Advance(s, steps[0]), steps[1..], preferDone); }
  }

  /** A terminal that is read is latched whatever the select picks, if and only if the
      stream is neither closed nor cancelled. */
  lemma TerminalLatched(s: State)
    requires s.latch.None? && s.slot.ch != [] && Terminal(s.slot.ch[0])
    ensures forall pick :: Answers(ReadOne(s, pick).1, s.slot.ch[0])
    ensures (forall pick :: ReadOne(s, pick).0.latch == ReadOne(s, pick).1) <==> !s.done
  {
    assert s.done ==> ReadOne(s, true).0.latch == None;
  }

  /** With nothing to receive a Recv blocks, until Close ends the stream or Cancel says so. */
  lemma EmptyChannelReads(s: State, pick: bool)
    requires s.latch.None? && s.slot.ch == []
    ensures ReadOne(s, pick).0 == s
    ensures ReadOne(Advance(s, DoClose), pick).1 == Some(if s.cancelled then CallCancelled else EndOfStream)
    ensures ReadOne(Advance(s, DoCancel), pick).1 == Some(CallCancelled)
    ensures ReadOne(s, pick).1.None? <==> !s.done
  {
  }

  /** Through the closed branch it is not: a Recv after Cancel may return the callee's
      error once and the cancellation from then on. */
  lemma ClosedBranchForgets(e: Frame)
    requires e.kind == Error
    ensures var s := State(Slot(1, [], [e], [], 0), true, None, true, true);
      && ReadOne(s, true).1 == Some(Failed(e.body))
      && ReadOne(ReadOne(s, true).0, true).1 == Some(CallCancelled)
  {
  }

  // ---------------------------------------------------------------------
  // Draining
  // ---------------------------------------------------------------------

  /** What waits gets to the reader: its pump works, or there is nothing to pump. */
  ghost predicate Flows(s: State) {
    SlotOk(s.slot) && s.slot.cap >= 1 && if s.bound then Settled(s.slot) else s.slot.ov == []
  }

  lemma RecvTakesFirst(s: State)
    requires s.latch.None? && !s.done && Flows(s) && Waiting(s.slot) != []
    ensures var (s', o) := ReadOne(s, false);
      && Answers(o, Waiting(s.slot)[0])
      && Flows(s') && Waiting(s'.slot) == Waiting(s.slot)[1..] && !s'.done
      && s'.latch == (if Terminal(Waiting(s.slot)[0]) then o else None)
  {
    var t := Take(s.slot);
    TakeEffect(s.slot);
    PumpEffect(t);
    assert s.slot.ch != [];
    assert Waiting(t) == Waiting(s.slot)[1..];
    if s.bound { PumpKeepsWaiting(t); }
  }

  function ReadMany(s: State, n: nat): (State, seq<Option<Outcome>>)
    decreases n
  {
    if n == 0 then (s, [])
    else
      var (s1, o) := ReadOne(s, false);
      var (s2, os) := ReadMany(s1, n - 1);
      (s2, [o] + os)
  }

  /** A caller that keeps reading gets every waiting frame in order, never blocks on
      the way, and is left with the terminal latched. */
  lemma {:induction false} DrainsInOrder(s: State)
    requires s.latch.None? && !s.done && Flows(s) && EndsTerminal(Waiting(s.slot))
    ensures var w := Waiting(s.slot);
      var (s', os) := ReadMany(s, |w|);
      && |os| == |w| && (forall i :: 0 <= i < |w| ==> Answers(os[i], w[i]))
      && Answers(s'.latch, w[|w| - 1])
    decreases |Waiting(s.slot)|
  {
    var w := Waiting(s.slot);
    RecvTakesFirst(s);
    var (s1, o) := ReadOne(s, false);
    if |w| > 1 {
      assert w[0] in w[..|w| - 1];
      assert w[1..][..|w| - 2] == w[..|w| - 1][1..];
      assert EndsTerminal(w[1..]);
      DrainsInOrder(s1);
    } else {
      assert ReadMany(s1, 0) == (s1, []);
    }
  }

  // ---------------------------------------------------------------------
  // A stream built too late
  // ---------------------------------------------------------------------

  lemma {:induction false} BlockedStays(s: State, n: nat)
    requires s.latch.None? && !s.done && s.slot.ch == []
    ensures ReadMany(s, n).0 == s
  {
    if n > 0 { BlockedStays(s, n - 1); }
  }

  /** Without a pump, reading stops when the channel is empty, and what is in overflow stays
      there. */
  lemma {:induction false} StrandsInOverflow(s: State, n: nat)
    requires s.latch.None? && !s.done && !s.bound && NoTerminal(s.slot.ch) && n >= |s.slot.ch|
    ensures var s' := ReadMany(s, n).0;
      && s'.latch.None? && !s'.done && s'.slot.ch == [] && s'.slot.ov == s.slot.ov
      && ReadOne(s', false) == (s', None)
    decreases |s.slot.ch|
  {
    if s.slot.ch == [] {
      BlockedStays(s, n);
    } else {
      assert s.slot.ch[0] in s.slot.ch && forall f :: f in s.slot.ch[1..] ==> f in s.slot.ch;
      StrandsInOverflow(ReadOne(s, false).0, n - 1);
    }
  }

  /** The stream object: `done` closes once, whichever of Close and Cancel comes first. */
  class CallReader {
    var slot: Slot
    const bound: bool
    var latch: Option<Outcome>
    var done: bool
    var cancelled: bool
    var unregistered: nat

    ghost function View(): State
      reads this
    {
      State(slot, bound, latch, done, cancelled)
    }

    constructor (slot: Slot, bound: bool)
      ensures View() == Fresh(slot, bound) && unregistered == 0
    {
      this.slot, this.bound, latch, done, cancelled, unregistered := slot, bound, None, false, false, 0;
    }

    method Receive(preferDone: bool) returns (o: Option<Outcome>)
      modifies this
      ensures (View(), o) == ReadOne(old(View()), preferDone) && unregistered == old(unregistered)
    {
      if latch.Some? { return latch; }
      if slot.ch != [] && !(done && preferDone) {
        var f := slot.ch[0];
        slot := Take(slot);
        if bound { slot := Pump(slot); }
        if Terminal(f) { latch := Some(Decode(f)); }
        return Some(Decode(f));
      }
      if !done { return None; }
      if slot.ch != [] {
        var f := slot.ch[0];
        slot := Take(slot);
        return Some(Decode(f));
      }
      return Some(if cancelled then CallCancelled else EndOfStream);
    }

    /** Close unregisters the slot at most once over the stream's life. */
    method Close()
      modifies this
      ensures View() == Advance(old(View()), DoClose)
      ensures unregistered == old(unregistered) + if old(done) then 0 else 1
    {
      if !done { unregistered, done := unregistered + 1, true; }
    }

    method CancelCall()
      modifies this
      ensures View() == Advance(old(View()), DoCancel)
      ensures unregistered == old(unregistered) + if old(done) then 0 else 1
    {
      cancelled := true;
      if !done { unregistered, done := unregistered + 1, true; }
    }
  }
}
