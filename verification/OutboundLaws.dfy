/** When the gateway's connection takes a frame, what closes it, and that all it took is
    written once the peer reads. */
module OutboundLaws {
  import opened Outbound

  // ---------------------------------------------------------------------
  // Accepting and refusing
  // ---------------------------------------------------------------------

  /** The channel takes the frame, or the overflow stays within the byte budget with it. */
  predicate HasPlace(c: Conn, size: nat) {
    (c.overflow == [] && |c.outCh| < c.capacity) || Sizes(c.overflow) + size <= c.budget
  }

  /** A frame on an open link is accepted if and only if it has a place: in the channel while
      nothing overflows, else last in the overflow. A refused one closes the link. */
  lemma SendAcceptedIff(l: Link, size: nat)
    requires BytesOk(l.conn) && !l.conn.closed
    ensures var x, l' := Item(l.transID + 1, size), Next(l, Send(size, true, true));
      var direct := l.conn.overflow == [] && |l.conn.outCh| < l.conn.capacity;
      && l'.transID == l.transID + 1
      && l'.accepted == l.accepted + (if HasPlace(l.conn, size) then [x] else [])
      && l'.conn.outCh == l.conn.outCh + (if direct then [x] else [])
      && l'.conn.overflow == l.conn.overflow + (if HasPlace(l.conn, size) && !direct then [x] else [])
      && (l'.conn.closed <==> !HasPlace(l.conn, size))
  {
  }

  /** Nothing else is accepted: a frame that cannot be converted leaves the link as it was, one
      that cannot be marshaled closes it, and a closed link takes nothing. */
  lemma SendDropped(l: Link, size: nat, convertOk: bool, marshalOk: bool)
    requires l.conn.closed || !convertOk || !marshalOk
    ensures var l' := Next(l, Send(size, convertOk, marshalOk));
      && l'.accepted == l.accepted && l'.conn.outCh == l.conn.outCh && l'.conn.overflow == l.conn.overflow
      && (l'.conn.closed <==> l.conn.closed || convertOk)
      && l'.transID == l.transID + 1
  {
  }

  // ---------------------------------------------------------------------
  // What closes a link
  // ---------------------------------------------------------------------

  /** A forced close; a marshaling failure or a frame without a place; a write that fails. */
  predicate Breaks(l: Link, step: Step) {
    match step
    case ForceClose => true
    case Send(size, convertOk, marshalOk) => convertOk && (!marshalOk || !HasPlace(l.conn, size))
    case Write(ok, pick) => !ok && Next(l, Write(true, pick)).written != l.written
  }

  lemma StepClosed(l: Link, step: Step)
    requires BytesOk(l.conn)
    ensures Next(l, step).conn.closed <==> l.conn.closed || Breaks(l, step)
  {
    match step
    case Send(size, convertOk, marshalOk) =>
      if l.conn.closed || !convertOk || !marshalOk {
        SendDropped(l, size, convertOk, marshalOk);
      } else {
        SendAcceptedIff(l, size);
      }
    case ForceClose =>
    case Write(ok, pick) => WriteClosed(l, ok, pick);
  }

  lemma WriteClosed(l: Link, ok: bool, pick: bool)
    ensures Next(l, Write(ok, pick)).conn.closed <==> l.conn.closed || Breaks(l, Write(ok, pick))
  {
    assert forall x: Item :: |l.written + [x]| == |l.written| + 1;
  }

  /** In every run the link is closed if and only if one of these has happened. */
  lemma {:induction false} EveryRunClosedIff(capacity: nat, budget: nat, steps: seq<Step>)
    ensures Run(Start(capacity, budget), steps).conn.closed <==> !Never(Start(capacity, budget), steps, Breaks)
  {
    if steps != [] {
      var s, n := Start(capacity, budget), |steps| - 1;
      NeverStep(s, steps, Breaks);
      EveryRunClosedIff(capacity, budget, steps[..n]);
      EveryRunConserved(capacity, budget, steps[..n]);
      StepClosed(Run(s, steps[..n]), steps[n]);
    }
  }

  /** Every write and marshal succeeds and nobody forces a close. */
  predicate Healthy(step: Step) {
    match step
    case ForceClose => false
    case Send(_, convertOk, marshalOk) => convertOk ==> marshalOk
    case Write(ok, _) => ok
  }

  predicate PassesBudget(l: Link, step: Step) {
    step.Send? && step.convertOk && !HasPlace(l.conn, step.size)
  }

  /** A healthy link is closed only by a frame that would have passed the budget. */
  lemma OnlyTheBudgetCloses(capacity: nat, budget: nat, steps: seq<Step>)
    requires forall s <- steps :: Healthy(s)
    ensures var s := Start(capacity, budget);
      Run(s, steps).conn.closed <==> exists i :: 0 <= i < |steps| && PassesBudget(Run(s, steps[..i]), steps[i])
  {
    var s := Start(capacity, budget);
    EveryRunClosedIff(capacity, budget, steps);
    forall i | 0 <= i < |steps|
      ensures Breaks(Run(s, steps[..i]), steps[i]) <==> PassesBudget(Run(s, steps[..i]), steps[i])
    {
      assert Healthy(steps[i]);
    }
  }

  // ---------------------------------------------------------------------
  // Everything accepted is written
  // ---------------------------------------------------------------------

  /** A writer that has stopped without a failed write has written all that was accepted. */
  lemma StoppedHasWrittenAll(capacity: nat, budget: nat, steps: seq<Step>)
    ensures var l := Run(Start(capacity, budget), steps);
      l.writer == Stopped && l.inHand == [] ==> multiset(l.written) == multiset(l.accepted)
  {
    EveryRunWindow(capacity, budget, steps);
    EveryRunConserved(capacity, budget, steps);
  }

  /** The writer alone, every write good; the picks of its selects are any. */
  function Writes(l: Link, picks: seq<bool>): Link
    decreases |picks|
  {
    if picks == [] then l else Writes(WriteStep(l, true, picks[0]), picks[1..])
  }

  function Left(l: Link): nat { |l.conn.outCh| + |l.conn.overflow| }

  /** How far the writer may walk before it meets a frame that waits. */
  function Walk(w: Writer): nat {
    match w
    case Top => 4
    case SawEmpty(_, _) => 3
    case Parked => 2
    case Draining => 1
    case _ => 0
  }

  ghost predicate Writable(l: Link) {
    && l.conn.capacity >= 1 && l.inHand == [] && WindowOk(l)
    && (l.writer.Draining? || l.writer.DrainSawEmpty? ==> l.conn.closed)
  }

  lemma GoodWrite(l: Link, pick: bool)
    requires Writable(l)
    ensures var l' := WriteStep(l, true, pick); Writable(l') && l'.accepted == l.accepted
  {
    StepWindow(l, Write(true, pick));
  }

  /** A good write takes a frame or brings the writer closer to one. */
  lemma GoodWriteAdvances(l: Link, pick: bool)
    requires Writable(l)
    ensures var l' := WriteStep(l, true, pick);
      if Left(l) == 0 then Left(l') == 0
      else 5 * Left(l') + Walk(l'.writer) < 5 * Left(l) + Walk(l.writer)
  {
  }

  lemma {:induction false} WritesEmpty(l: Link, picks: seq<bool>)
    requires Writable(l) && (Left(l) == 0 || |picks| >= 5 * Left(l) + Walk(l.writer))
    ensures var l' := Writes(l, picks); l'.accepted == l.accepted && l'.inHand == [] && Left(l') == 0
    decreases |picks|
  {
    if picks != [] {
      GoodWrite(l, picks[0]);
      GoodWriteAdvances(l, picks[0]);
      WritesEmpty(WriteStep(l, true, picks[0]), picks[1..]);
    }
  }

  lemma {:induction false} WritesConserve(l: Link, picks: seq<bool>)
    requires Conserved(l)
    ensures Conserved(Writes(l, picks))
    decreases |picks|
  {
    if picks != [] {
      WriteConserved(l, true, picks[0]);
      WritesConserve(WriteStep(l, true, picks[0]), picks[1..]);
    }
  }

  /** Buffered frames flush once the peer resumes: from every reachable link that has lost no
      frame to a failed write, some good writes on everything accepted has been written. */
  lemma EveryRunFlushes(capacity: nat, budget: nat, steps: seq<Step>, picks: seq<bool>)
    requires capacity >= 1 && Run(Start(capacity, budget), steps).inHand == []
    requires |picks| >= 5 * Left(Run(Start(capacity, budget), steps)) + 4
    ensures var l := Run(Start(capacity, budget), steps);
      multiset(Writes(l, picks).written) == multiset(l.accepted)
  {
    EveryRunWindow(capacity, budget, steps);
    EveryRunConserved(capacity, budget, steps);
    RunKeepsCapacity(Start(capacity, budget), steps);
    var l := Run(Start(capacity, budget), steps);
    WritesEmpty(l, picks);
    WritesConserve(l, picks);
  }

  lemma {:induction false} RunKeepsCapacity(l: Link, steps: seq<Step>)
    ensures Run(l, steps).conn.capacity == l.conn.capacity
  {
    if steps != [] { RunKeepsCapacity(l, steps[..|steps| - 1]); }
  }
}
