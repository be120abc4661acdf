/** The gateway's outbound path: TransIDs in gateway/session.go, and the two-queue
    writer with a byte budget in gateway/ws_frame_conn.go. */
module Outbound {

  /** A marshaled frame: the TransID it carries and its length in bytes. */
  datatype Item = Item(transID: nat, size: nat)

  function Sizes(q: seq<Item>): nat { if q == [] then 0 else q[0].size + Sizes(q[1..]) }

  lemma {:induction false} SizesAppend(q: seq<Item>, x: Item)
    ensures Sizes(q + [x]) == Sizes(q) + x.size
  {
    if q == [] {
      assert q + [x] == [x] && [x][1..] == [];
    } else {
      assert (q + [x])[1..] == q[1..] + [x];
      SizesAppend(q[1..], x);
    }
  }

  datatype Conn = Conn(
    capacity: nat, budget: nat,
    outCh: seq<Item>, overflow: seq<Item>, overflowBytes: int, closed: bool)

  /** enqueueOut: the queued frame, and whether it was accepted. */
  function Enqueue(c: Conn, x: Item): (Conn, bool) {
    if c.closed then (c, false)
    else if c.overflow == [] && |c.outCh| < c.capacity then (c.(outCh := c.outCh + [x]), true)
    else if c.overflowBytes + x.size > c.budget then (c.(closed := true), false)
    else (c.(overflow := c.overflow + [x], overflowBytes := c.overflowBytes + x.size), true)
  }

  /** popOverflow, on a non-empty overflow. */
  function Pop(c: Conn): Conn
    requires c.overflow != []
  {
    c.(overflow := c.overflow[1..], overflowBytes := c.overflowBytes - c.overflow[0].size)
  }

  // ---------------------------------------------------------------------
  // The session above and the writer below, step by step
  // ---------------------------------------------------------------------

  /** Where writeLoop stands. Between finding outCh empty and popping the overflow,
      `since` counts the frames accepted in the meantime; `idle` says that the overflow
      was empty too when outCh was found empty. */
  datatype Writer =
    | Top | SawEmpty(since: nat, idle: bool) | Parked
    | Draining | DrainSawEmpty(since: nat, idle: bool) | Stopped

  datatype Link = Link(
    conn: Conn, writer: Writer, transID: nat,
    accepted: seq<Item>, written: seq<Item>, inHand: seq<Item>)

  datatype Step =
    | Send(size: nat, convertOk: bool, marshalOk: bool)
    | ForceClose
    | Write(writeOk: bool, seeClosed: bool)

  function Noted(w: Writer): Writer {
    match w
    case SawEmpty(n, idle) => SawEmpty(n + 1, idle)
    case DrainSawEmpty(n, idle) => DrainSawEmpty(n + 1, idle)
    case _ => w
  }

  /** session.send, under sendMu: a frame that cannot be converted is dropped with its
      TransID spent; a frame the connection refuses closes it. */
  function SendFrame(l: Link, size: nat, convertOk: bool, marshalOk: bool): Link {
    var id := l.transID + 1;
    var l1 := l.(transID := id);
    if !convertOk then l1
    else if !marshalOk then l1.(conn := l.conn.(closed := true))
    else
      var (c, ok) := Enqueue(l.conn, Item(id, size));
      if ok then l1.(conn := c, accepted := l.accepted + [Item(id, size)], writer := Noted(l.writer))
      else l1.(conn := c.(closed := true))
  }

  function Emit(l: Link, x: Item, writeOk: bool, after: Writer): Link {
    if writeOk then l.(written := l.written + [x], writer := after)
    else l.(conn := l.conn.(closed := true), inHand := [x], writer := Stopped)
  }

  function TakeOut(l: Link, writeOk: bool, after: Writer): Link
    requires l.conn.outCh != []
  {
    Emit(l.(conn := l.conn.(outCh := l.conn.outCh[1..])), l.conn.outCh[0], writeOk, after)
  }

  function TakeOverflow(l: Link, writeOk: bool, after: Writer): Link
    requires l.conn.overflow != []
  {
    Emit(l.(conn := Pop(l.conn)), l.conn.overflow[0], writeOk, after)
  }

  /** writeLoop and drainOut; `seeClosed` is the pick of a select with both cases ready. */
  function WriteStep(l: Link, writeOk: bool, seeClosed: bool): Link {
    match l.writer
    case Top =>
      if l.conn.outCh != [] then TakeOut(l, writeOk, Top)
      else l.(writer := SawEmpty(0, l.conn.overflow == []))
    case SawEmpty(_, _) =>
      if l.conn.overflow != [] then TakeOverflow(l, writeOk, Top) else l.(writer := Parked)
    case Parked =>
      if l.conn.outCh != [] && !(l.conn.closed && seeClosed) then TakeOut(l, writeOk, Top)
      else if l.conn.closed then l.(writer := Draining)
      else l
    case Draining =>
      if l.conn.outCh != [] then TakeOut(l, writeOk, Draining)
      else l.(writer := DrainSawEmpty(0, l.conn.overflow == []))
    case DrainSawEmpty(_, _) =>
      if l.conn.overflow != [] then TakeOverflow(l, writeOk, Draining) else l.(writer := Stopped)
    case Stopped => l
  }

  function Next(l: Link, step: Step): Link {
    match step
    case Send(size, convertOk, marshalOk) => SendFrame(l, size, convertOk, marshalOk)
    case ForceClose => l.(conn := l.conn.(closed := true))
    case Write(writeOk, seeClosed) => WriteStep(l, writeOk, seeClosed)
  }

  function Run(l: Link, steps: seq<Step>): Link {
    if steps == [] then l else Next(Run(l, steps[..|steps| - 1]), steps[|steps| - 1])
  }

  function Start(capacity: nat, budget: nat): Link {
    Link(Conn(capacity, budget, [], [], 0, false), Top, 0, [], [], [])
  }

  // ---------------------------------------------------------------------
  // In every run: the budget holds and nothing is lost or written twice
  // ---------------------------------------------------------------------

  ghost predicate BytesOk(c: Conn) {
    c.overflowBytes == Sizes(c.overflow) <= c.budget && |c.outCh| <= c.capacity
  }

  function Queued(c: Conn): multiset<Item> { multiset(c.outCh) + multiset(c.overflow) }

  function Everywhere(l: Link): multiset<Item> {
    multiset(l.written) + multiset(l.inHand) + Queued(l.conn)
  }

  ghost predicate Conserved(l: Link) {
    && BytesOk(l.conn)
    && Everywhere(l) == multiset(l.accepted)
    && (l.inHand != [] ==> l.writer == Stopped)
  }

  lemma EnqueueBytes(c: Conn, x: Item)
    requires BytesOk(c)
    ensures BytesOk(Enqueue(c, x).0)
  {
    SizesAppend(c.overflow, x);
  }

  lemma EnqueueAdds(c: Conn, x: Item)
    ensures Queued(Enqueue(c, x).0) == if Enqueue(c, x).1 then Queued(c) + multiset{x} else Queued(c)
  {
  }

  lemma AddedLast(a: multiset<Item>, b: multiset<Item>, q: seq<Item>, x: Item)
    requires a + b == multiset(q)
    ensures a + (b + multiset{x}) == multiset(q + [x])
  {
  }

  /** A send adds one item to the queues and to the accepted, or leaves both. */
  lemma SendEffect(l: Link, size: nat, convertOk: bool, marshalOk: bool) returns (ok: bool)
    ensures var x, l' := Item(l.transID + 1, size), SendFrame(l, size, convertOk, marshalOk);
      && l'.written == l.written && l'.inHand == l.inHand
      && (ok ==> l'.accepted == l.accepted + [x] && Queued(l'.conn) == Queued(l.conn) + multiset{x})
      && (!ok ==> l'.accepted == l.accepted && Queued(l'.conn) == Queued(l.conn))
  {
    var x := Item(l.transID + 1, size);
    EnqueueAdds(l.conn, x);
    ok := convertOk && marshalOk && Enqueue(l.conn, x).1;
    assert Queued(SendFrame(l, size, convertOk, marshalOk).conn) ==
      if ok then Queued(Enqueue(l.conn, x).0) else Queued(l.conn);
  }

  lemma SendAdds(l: Link, size: nat, convertOk: bool, marshalOk: bool)
    requires Everywhere(l) == multiset(l.accepted)
    ensures var l' := SendFrame(l, size, convertOk, marshalOk); Everywhere(l') == multiset(l'.accepted)
  {
    var ok := SendEffect(l, size, convertOk, marshalOk);
    if ok {
      AddedLast(multiset(l.written) + multiset(l.inHand), Queued(l.conn), l.accepted, Item(l.transID + 1, size));
    }
  }

  lemma SendBytes(l: Link, size: nat, convertOk: bool, marshalOk: bool)
    requires BytesOk(l.conn) && (l.inHand != [] ==> l.writer == Stopped)
    ensures var l' := SendFrame(l, size, convertOk, marshalOk);
      BytesOk(l'.conn) && (l'.inHand != [] ==> l'.writer == Stopped)
  {
    EnqueueBytes(l.conn, Item(l.transID + 1, size));
  }

  lemma SendConserved(l: Link, size: nat, convertOk: bool, marshalOk: bool)
    requires Conserved(l)
    ensures Conserved(SendFrame(l, size, convertOk, marshalOk))
  {
    SendBytes(l, size, convertOk, marshalOk);
    SendAdds(l, size, convertOk, marshalOk);
  }

  lemma HeadOfQueue(q: seq<Item>)
    requires q != []
    ensures multiset(q) == multiset{q[0]} + multiset(q[1..])
  {
    assert q == [q[0]] + q[1..];
  }

  lemma WriteConserved(l: Link, writeOk: bool, seeClosed: bool)
    requires Conserved(l)
    ensures Conserved(WriteStep(l, writeOk, seeClosed))
  {
    if l.writer != Stopped {
      if l.conn.outCh != [] { TakeOutConserved(l, writeOk, Top); TakeOutConserved(l, writeOk, Draining); }
      if l.conn.overflow != [] { TakeOverflowConserved(l, writeOk, Top); TakeOverflowConserved(l, writeOk, Draining); }
    }
  }

  lemma TakeOutConserved(l: Link, writeOk: bool, after: Writer)
    requires Conserved(l) && l.conn.outCh != [] && l.inHand == []
    ensures Conserved(TakeOut(l, writeOk, after))
  {
    HeadOfQueue(l.conn.outCh);
  }

  lemma TakeOverflowConserved(l: Link, writeOk: bool, after: Writer)
    requires Conserved(l) && l.conn.overflow != [] && l.inHand == []
    ensures Conserved(TakeOverflow(l, writeOk, after))
  {
    HeadOfQueue(l.conn.overflow);
  }

  lemma {:induction false} EveryRunConserved(capacity: nat, budget: nat, steps: seq<Step>)
    ensures Conserved(Run(Start(capacity, budget), steps))
  {
    if steps != [] {
      EveryRunConserved(capacity, budget, steps[..|steps| - 1]);
      var l := Run(Start(capacity, budget), steps[..|steps| - 1]);
      match steps[|steps| - 1]
      case Send(size, convertOk, marshalOk) => SendConserved(l, size, convertOk, marshalOk);
      case ForceClose =>
      case Write(writeOk, seeClosed) => WriteConserved(l, writeOk, seeClosed);
    }
  }

  // ---------------------------------------------------------------------
  // TransIDs
  // ---------------------------------------------------------------------

  ghost predicate Ascending(q: seq<Item>, upTo: nat) {
    && (forall i :: 0 <= i < |q| ==> q[i].transID <= upTo)
    && (forall i, j :: 0 <= i < j < |q| ==> q[i].transID < q[j].transID)
  }

  ghost predicate Numbered(q: seq<Item>) { forall i :: 0 <= i < |q| ==> q[i].transID == i + 1 }

  predicate FailsToConvert(step: Step) { step.Send? && !step.convertOk }

  ghost predicate SomeFailed(steps: seq<Step>) { exists i :: 0 <= i < |steps| && FailsToConvert(steps[i]) }

  predicate Accepts(l: Link, step: Step) { |Next(l, step).accepted| > |l.accepted| }

  /** Step `j` accepts a frame after one that could not be converted. */
  ghost predicate SkipsAt(l: Link, steps: seq<Step>, j: nat) {
    j < |steps| && Accepts(Run(l, steps[..j]), steps[j]) && SomeFailed(steps[..j])
  }

  ghost predicate Skips(l: Link, steps: seq<Step>) { exists j: nat :: SkipsAt(l, steps, j) }

  lemma SkipsStep(l: Link, steps: seq<Step>)
    requires steps != []
    ensures Skips(l, steps) <==> Skips(l, steps[..|steps| - 1]) || SkipsAt(l, steps, |steps| - 1)
  {
    var n := |steps| - 1;
    forall j: nat | j < n ensures SkipsAt(l, steps, j) <==> SkipsAt(l, steps[..n], j) {
      assert steps[..n][..j] == steps[..j];
    }
  }

  /** Sends that were not accepted have spent an ID. */
  ghost predicate TransIDsOk(l: Link, failed: bool) {
    && Ascending(l.accepted, l.transID)
    && |l.accepted| <= l.transID
    && (failed ==> |l.accepted| < l.transID)
    && (!failed && !l.conn.closed ==> |l.accepted| == l.transID)
  }

  lemma AppendNumbered(q: seq<Item>, x: Item)
    ensures Numbered(q + [x]) <==> Numbered(q) && x.transID == |q| + 1
  {
    var r := q + [x];
    assert r[|q|] == x && forall i :: 0 <= i < |q| ==> r[i] == q[i];
  }

  lemma AppendAscending(q: seq<Item>, upTo: nat, x: Item)
    requires Ascending(q, upTo) && x.transID == upTo + 1
    ensures Ascending(q + [x], upTo + 1)
  {
  }

  lemma StepTransIDs(l: Link, step: Step, failed: bool)
    requires TransIDsOk(l, failed)
    ensures TransIDsOk(Next(l, step), failed || FailsToConvert(step))
    ensures Accepts(l, step) ==> Numbered(Next(l, step).accepted) == (Numbered(l.accepted) && !failed)
    ensures !Accepts(l, step) ==> Next(l, step).accepted == l.accepted
  {
    if step.Write? {
      var l' := WriteStep(l, step.writeOk, step.seeClosed);
      assert l'.accepted == l.accepted && l'.transID == l.transID && (l.conn.closed ==> l'.conn.closed);
    } else if Accepts(l, step) {
      var x := Item(l.transID + 1, step.size);
      assert Next(l, step).accepted == l.accepted + [x];
      AppendNumbered(l.accepted, x);
      AppendAscending(l.accepted, l.transID, x);
    }
  }

  lemma SomeFailedStep(steps: seq<Step>)
    requires steps != []
    ensures SomeFailed(steps) <==> SomeFailed(steps[..|steps| - 1]) || FailsToConvert(steps[|steps| - 1])
  {
    var before := steps[..|steps| - 1];
    if SomeFailed(before) {
      var i :| 0 <= i < |before| && FailsToConvert(before[i]);
      assert FailsToConvert(steps[i]);
    }
    if i :| 0 <= i < |steps| && FailsToConvert(steps[i]) {
      if i < |before| { assert FailsToConvert(before[i]); }
    }
  }

  /** Accepted frames carry increasing TransIDs; and exactly 1..n, if and only if no
      frame was accepted after one that could not be converted. */
  lemma {:induction false} EveryRunTransIDs(capacity: nat, budget: nat, steps: seq<Step>)
    ensures TransIDsOk(Run(Start(capacity, budget), steps), SomeFailed(steps))
    ensures Numbered(Run(Start(capacity, budget), steps).accepted)
            <==> !Skips(Start(capacity, budget), steps)
  {
    var s := Start(capacity, budget);
    if steps != [] {
      var n := |steps| - 1;
      var before := steps[..n];
      EveryRunTransIDs(capacity, budget, before);
      SomeFailedStep(steps);
      StepTransIDs(Run(s, before), steps[n], SomeFailed(before));
      SkipsStep(s, steps);
    }
  }

  /** Such a run: the one frame accepted carries 2. */
  lemma ConversionFailureLeavesGap(capacity: nat, budget: nat, size: nat)
    requires capacity > 0
    ensures var l := Run(Start(capacity, budget), [Send(size, false, true), Send(size, true, true)]);
      l.accepted == [Item(2, size)]
  {
    var a, b := Send(size, false, true), Send(size, true, true);
    assert [a, b][..1] == [a] && [a][..0] == [];
    assert Run(Start(capacity, budget), [a, b]) == Next(Run(Start(capacity, budget), [a]), b);
    assert Run(Start(capacity, budget), [a]) == Next(Run(Start(capacity, budget), []), a);
  }

  lemma {:induction false} AscendingDistinct(q: seq<Item>, upTo: nat)
    requires Ascending(q, upTo)
    ensures forall x :: multiset(q)[x] <= 1
  {
    if q != [] {
      var n := |q| - 1;
      assert q == q[..n] + [q[n]];
      AscendingDistinct(q[..n], upTo);
      assert q[n] !in q[..n];
    }
  }

  /** No frame is written twice, and none is both written and still queued. */
  lemma {:induction false} WrittenOnce(capacity: nat, budget: nat, steps: seq<Step>, x: Item)
    ensures var l := Run(Start(capacity, budget), steps);
      && Everywhere(l)[x] <= 1
      && multiset(l.written)[x] <= 1
      && (x in l.written ==> x in l.accepted && x !in l.conn.outCh && x !in l.conn.overflow)
  {
    var l := Run(Start(capacity, budget), steps);
    EveryRunConserved(capacity, budget, steps);
    EveryRunTransIDs(capacity, budget, steps);
    AscendingDistinct(l.accepted, l.transID);
    assert multiset(l.accepted)[x] <= 1;
    if x in l.written {
      assert multiset(l.written)[x] >= 1;
      assert multiset(l.accepted)[x] >= 1;
    }
  }

  // ---------------------------------------------------------------------
  // Order
  // ---------------------------------------------------------------------

  function Pipeline(l: Link): seq<Item> { l.written + l.inHand + l.conn.outCh + l.conn.overflow }

  function Least(a: nat, b: nat): nat { if a < b then a else b }

  /** What was accepted since the empty test lies in outCh first, unless the overflow was
      already in use. */
  ghost predicate Placed(c: Conn, since: nat, idle: bool) {
    if idle then |c.outCh| == Least(since, c.capacity) && |c.overflow| == since - Least(since, c.capacity)
    else c.outCh == [] && c.overflow != []
  }

  ghost predicate WindowOk(l: Link) {
    match l.writer
    case SawEmpty(n, idle) => Placed(l.conn, n, idle)
    case Parked => l.conn.capacity >= 1 && l.conn.overflow != [] ==> l.conn.outCh != []
    case DrainSawEmpty(n, idle) => n == 0 && Placed(l.conn, n, idle)
    case Stopped => l.conn.closed && (l.inHand == [] ==> l.conn.outCh == [] && l.conn.overflow == [])
    case _ => true
  }

  /** The writer pops although more frames than outCh holds were accepted since it found
      both queues empty. */
  predicate Late(l: Link, step: Step) {
    step.Write? &&
    match l.writer
    case SawEmpty(n, idle) => idle && n > l.conn.capacity >= 1
    case DrainSawEmpty(n, idle) => idle && n > l.conn.capacity >= 1
    case _ => false
  }

  predicate Overtakes(l: Link, step: Step) { Late(l, step) && step.writeOk }

  lemma SendKeepsWindow(l: Link, size: nat, convertOk: bool, marshalOk: bool)
    requires WindowOk(l) && (l.writer.Draining? || l.writer.DrainSawEmpty? ==> l.conn.closed)
    ensures WindowOk(SendFrame(l, size, convertOk, marshalOk))
  {
  }

  lemma StepWindow(l: Link, step: Step)
    requires WindowOk(l) && (l.writer.Draining? || l.writer.DrainSawEmpty? ==> l.conn.closed)
    ensures WindowOk(Next(l, step))
    ensures Next(l, step).writer.Draining? || Next(l, step).writer.DrainSawEmpty? ==> Next(l, step).conn.closed
  {
    if step.Send? { SendKeepsWindow(l, step.size, step.convertOk, step.marshalOk); }
  }

  lemma {:induction false} EveryRunWindow(capacity: nat, budget: nat, steps: seq<Step>)
    ensures var l := Run(Start(capacity, budget), steps);
      WindowOk(l) && (l.writer.Draining? || l.writer.DrainSawEmpty? ==> l.conn.closed)
  {
    if steps != [] {
      EveryRunWindow(capacity, budget, steps[..|steps| - 1]);
      StepWindow(Run(Start(capacity, budget), steps[..|steps| - 1]), steps[|steps| - 1]);
    }
  }

  /** What is written, in hand and queued is what was accepted, in order. */
  ghost predicate InOrder(l: Link) { Pipeline(l) == l.accepted && (l.inHand != [] ==> l.writer == Stopped) }

  lemma SendInOrder(l: Link, size: nat, convertOk: bool, marshalOk: bool)
    requires InOrder(l) && WindowOk(l)
    ensures InOrder(SendFrame(l, size, convertOk, marshalOk))
  {
    var x := Item(l.transID + 1, size);
    var l' := SendFrame(l, size, convertOk, marshalOk);
    if convertOk && marshalOk && Enqueue(l.conn, x).1 {
      assert Pipeline(l') == Pipeline(l) + [x];
    }
  }

  lemma EmitFirst(l: Link, writeOk: bool, after: Writer)
    requires Pipeline(l) == l.accepted && l.inHand == []
    ensures l.conn.outCh != [] ==> Pipeline(TakeOut(l, writeOk, after)) == l.accepted
    ensures l.conn.outCh == [] && l.conn.overflow != [] ==> Pipeline(TakeOverflow(l, writeOk, after)) == l.accepted
  {
    if l.conn.outCh != [] {
      assert l.conn.outCh == [l.conn.outCh[0]] + l.conn.outCh[1..];
    } else if l.conn.overflow != [] {
      assert l.conn.overflow == [l.conn.overflow[0]] + l.conn.overflow[1..];
    }
  }

  lemma StepInOrder(l: Link, step: Step)
    requires InOrder(l) && WindowOk(l) && !Late(l, step)
    ensures InOrder(Next(l, step))
  {
    match step
    case Send(size, convertOk, marshalOk) => SendInOrder(l, size, convertOk, marshalOk);
    case ForceClose =>
    case Write(writeOk, seeClosed) =>
      if l.writer != Stopped {
        EmitFirst(l, writeOk, Top);
        EmitFirst(l, writeOk, Draining);
      }
  }

  ghost predicate Never(l: Link, steps: seq<Step>, bad: (Link, Step) -> bool) {
    forall i :: 0 <= i < |steps| ==> !bad(Run(l, steps[..i]), steps[i])
  }

  lemma NeverStep(l: Link, steps: seq<Step>, bad: (Link, Step) -> bool)
    requires steps != []
    ensures var n := |steps| - 1;
      Never(l, steps, bad) <==> Never(l, steps[..n], bad) && !bad(Run(l, steps[..n]), steps[n])
  {
    var n := |steps| - 1;
    forall i | 0 <= i < n ensures steps[..n][..i] == steps[..i] { }
    if Never(l, steps[..n], bad) && !bad(Run(l, steps[..n]), steps[n]) {
      forall i | 0 <= i < |steps| ensures !bad(Run(l, steps[..i]), steps[i]) {
        if i < n { assert !bad(Run(l, steps[..n][..i]), steps[..n][i]); }
      }
    }
  }

  /** Whatever else interleaves, a writer that never pops late keeps everything in order:
      what is written is a prefix of what was accepted, and what waits is the rest. */
  lemma {:induction false} EveryCalmRunInOrder(capacity: nat, budget: nat, steps: seq<Step>)
    requires Never(Start(capacity, budget), steps, Late)
    ensures var l := Run(Start(capacity, budget), steps);
      InOrder(l) && l.written <= l.accepted
  {
    var s := Start(capacity, budget);
    if steps != [] {
      var n := |steps| - 1;
      NeverStep(s, steps, Late);
      EveryCalmRunInOrder(capacity, budget, steps[..n]);
      EveryRunWindow(capacity, budget, steps[..n]);
      StepInOrder(Run(s, steps[..n]), steps[n]);
    }
    var l := Run(s, steps);
    assert l.written <= Pipeline(l);
  }

  /** Order so far: a running writer has everything in order, a stopped one has written
      a prefix. */
  ghost predicate Faithful(l: Link) { l.written <= l.accepted && (l.writer != Stopped ==> InOrder(l)) }

  ghost predicate Broken(l: Link) {
    exists i :: 0 <= i < |l.written| && i < |l.accepted| && l.written[i] != l.accepted[i]
  }

  /** A late pop with a good write puts a frame before an older one that still waits. */
  lemma OvertakingBreaks(l: Link, step: Step)
    requires InOrder(l) && WindowOk(l) && Overtakes(l, step) && Ascending(l.accepted, l.transID)
    ensures Broken(Next(l, step))
  {
    var l', i := Next(l, step), |l.written|;
    assert l.inHand == [] && l.accepted == l.written + l.conn.outCh + l.conn.overflow;
    assert l.accepted[i] == l.conn.outCh[0];
    assert l.accepted[i + |l.conn.outCh|] == l.conn.overflow[0] == l'.written[i];
    assert l'.accepted == l.accepted;
  }

  lemma OnTimeKeepsFaith(l: Link, step: Step)
    requires Faithful(l) && WindowOk(l) && !Overtakes(l, step)
    ensures Faithful(Next(l, step))
  {
    if l.writer == Stopped {
      assert Next(l, step).written == l.written && Next(l, step).accepted == l.accepted;
    } else if Late(l, step) {
      var l' := Next(l, step);
      assert l'.written == l.written && l'.accepted == l.accepted && l'.writer == Stopped;
    } else {
      StepInOrder(l, step);
      assert Next(l, step).written <= Pipeline(Next(l, step));
    }
  }

  lemma BrokenStays(l: Link, step: Step)
    requires Broken(l)
    ensures Broken(Next(l, step))
  {
    var i :| 0 <= i < |l.written| && i < |l.accepted| && l.written[i] != l.accepted[i];
    assert l.written <= Next(l, step).written && l.accepted <= Next(l, step).accepted;
    assert Next(l, step).written[i] == l.written[i] && Next(l, step).accepted[i] == l.accepted[i];
  }

  lemma {:induction false} FaithfulOrBroken(capacity: nat, budget: nat, steps: seq<Step>)
    ensures var s := Start(capacity, budget);
      var l := Run(s, steps);
      if Never(s, steps, Overtakes) then Faithful(l) else Broken(l)
  {
    var s := Start(capacity, budget);
    if steps != [] {
      var n := |steps| - 1;
      var l := Run(s, steps[..n]);
      NeverStep(s, steps, Overtakes);
      FaithfulOrBroken(capacity, budget, steps[..n]);
      EveryRunWindow(capacity, budget, steps[..n]);
      EveryRunTransIDs(capacity, budget, steps[..n]);
      if !Never(s, steps[..n], Overtakes) { BrokenStays(l, steps[n]); }
      else if Overtakes(l, steps[n]) { OvertakingBreaks(l, steps[n]); }
      else { OnTimeKeepsFaith(l, steps[n]); }
    }
  }

  /** In every run: frames are written in the order they were accepted, if and only if no
      write succeeded after more than `capacity` frames were accepted since the writer
      found both queues empty. */
  lemma {:induction false} OrderLostIffOvertaken(capacity: nat, budget: nat, steps: seq<Step>)
    ensures var l := Run(Start(capacity, budget), steps);
      l.written <= l.accepted <==> Never(Start(capacity, budget), steps, Overtakes)
  {
    FaithfulOrBroken(capacity, budget, steps);
  }

  /** Such a run, with a channel of one: the second frame is written first. */
  lemma StormReorders(budget: nat)
    requires budget >= 1
    ensures var steps := [Write(true, false), Send(1, true, true), Send(1, true, true), Write(true, false)];
      var l := Run(Start(1, budget), steps);
      l.accepted == [Item(1, 1), Item(2, 1)] && l.written == [Item(2, 1)]
  {
    var s := Start(1, budget);
    var w, f := Write(true, false), Send(1, true, true);
    var steps := [w, f, f, w];
    assert steps[..3] == [w, f, f] && [w, f, f][..2] == [w, f] && [w, f][..1] == [w] && [w][..0] == [];
    assert Run(s, [w]) == Next(s, w);
    assert Run(s, [w, f]) == Next(Run(s, [w]), f);
    assert Run(s, [w, f, f]) == Next(Run(s, [w, f]), f);
    assert Run(s, steps) == Next(Run(s, [w, f, f]), w);
  }

  // ---------------------------------------------------------------------
  // The connection as an object
  // ---------------------------------------------------------------------

  class WsConn {
    const capacity: nat
    const budget: nat
    var outCh: seq<Item>
    var overflow: seq<Item>
    var overflowBytes: int
    var closed: bool
    var written: seq<Item>

    ghost function View(): Conn
      reads this
    {
      Conn(capacity, budget, outCh, overflow, overflowBytes, closed)
    }

    constructor (capacity: nat, budget: nat)
      ensures View() == Start(capacity, budget).conn && written == []
    {
      this.capacity, this.budget := capacity, budget;
      outCh, overflow, overflowBytes, closed, written := [], [], 0, false, [];
    }

    method EnqueueOut(x: Item) returns (ok: bool)
      modifies this
      ensures (View(), ok) == Enqueue(old(View()), x) && written == old(written)
    {
      if closed { return false; }
      if overflow == [] && |outCh| < capacity {
        outCh := outCh + [x];
        return true;
      }
      if overflowBytes + x.size > budget {
        closed := true;
        return false;
      }
      overflow, overflowBytes := overflow + [x], overflowBytes + x.size;
      return true;
    }

    /** drainOut on a closed connection: both queues in order, up to the first write
        that fails; `good` is how many writes succeed. */
    method DrainOut(good: nat)
      requires closed && BytesOk(View())
      modifies this
      ensures closed && BytesOk(View())
      ensures good >= |old(outCh) + old(overflow)| ==>
        written == old(written) + old(outCh) + old(overflow) && outCh == [] && overflow == []
      ensures good < |old(outCh) + old(overflow)| ==>
        written == old(written) + (old(outCh) + old(overflow))[..good]
    {
      ghost var all := outCh + overflow;
      var n := 0;
      while true
        invariant closed && BytesOk(View())
        invariant 0 <= n <= good && n <= |all|
        invariant all[n..] == outCh + overflow
        invariant written == old(written) + all[..n]
        decreases |all| - n
      {
        if outCh != [] {
          var x := outCh[0];
          assert x == all[n] && outCh[1..] + overflow == (outCh + overflow)[1..];
          outCh := outCh[1..];
          if n == good { return; }
          written := written + [x];
        } else {
          if overflow == [] { return; }
          var x := overflow[0];
          assert x == all[n] && overflow[1..] == (outCh + overflow)[1..];
          overflow, overflowBytes := overflow[1..], overflowBytes - x.size;
          if n == good { return; }
          written := written + [x];
        }
        assert all[n..][1..] == all[n + 1..];
        n := n + 1;
      }
    }
  }
}
