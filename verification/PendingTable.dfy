/** The table of in-flight calls, invoke/pending.go, with its methods as steps:
    who is waiting for what, and how every registration ends. */
module PendingTable {
  import opened Common
  import opened PendingSlot

  const MAX_SLOTS := 4096

  type Handle = nat

  datatype Fate =
    | InTable | Replaced
    | Completed | Errored | SendFailed | ClosedEarly | EvictedStalled | EvictedCapacity | Flushed

  /** What pumpFor bound when the caller's stream was built: the slot it then found under
      the call's CorID - the call's own or another's - or none. */
  datatype Binding = NoStream | OwnPump | OtherPump(slot: Handle) | NoPump

  /** One registration: its key, its breakdown labels, its buffer, how it ended, and the
      pump of the stream that reads it. */
  datatype Entry = Entry(corID: nat, callID: Str, mode: Str, slot: Slot, fate: Fate, pump: Binding)

  datatype Counters = Counters(
    registered: nat, completed: nat, errored: nat, sendFailed: nat,
    closedEarly: nat, evictedStalled: nat, evictedCapacity: nat, flushed: nat)

  /** Slots are Go pointers: handles into the arena of registrations. */
  datatype Table = Table(
    entries: seq<Entry>, slots: map<nat, Handle>, counters: Counters,
    inMode: map<Str, nat>, inCall: map<Str, nat>)

  const EMPTY := Table([], map[], Counters(0, 0, 0, 0, 0, 0, 0, 0), map[], map[])

  // ---------------------------------------------------------------------
  // In-flight breakdowns
  // ---------------------------------------------------------------------

  function Inc(m: map<Str, nat>, k: Str): map<Str, nat> {
    if k == [] then m else m[k := (if k in m then m[k] else 0) + 1]
  }

  function Dec(m: map<Str, nat>, k: Str): map<Str, nat> {
    if k == [] then m
    else if k in m && m[k] > 1 then m[k := m[k] - 1]
    else m - {k}
  }

  function At(m: map<Str, nat>, k: Str): nat { if k in m then m[k] else 0 }

  function Count(p: Entry -> bool, es: seq<Entry>): nat {
    if es == [] then 0 else Count(p, es[..|es| - 1]) + if p(es[|es| - 1]) then 1 else 0
  }

  /** Registrations still in the table that carry the label, and those of one fate. */
  function WithMode(k: Str): Entry -> bool { (e: Entry) => e.fate == InTable && e.mode == k }
  function WithCall(k: Str): Entry -> bool { (e: Entry) => e.fate == InTable && e.callID == k }
  function Of(f: Fate): Entry -> bool { (e: Entry) => e.fate == f }

  function One(b: bool): nat { if b then 1 else 0 }

  lemma {:induction false} CountUpdate(p: Entry -> bool, es: seq<Entry>, h: nat, e: Entry)
    requires h < |es|
    ensures Count(p, es[h := e]) + One(p(es[h])) == Count(p, es) + One(p(e))
  {
    var n := |es| - 1;
    if h < n {
      assert es[h := e][..n] == es[..n][h := e];
      CountUpdate(p, es[..n], h, e);
    } else {
      assert es[h := e][..n] == es[..n];
    }
  }

  lemma CountAppend(p: Entry -> bool, es: seq<Entry>, e: Entry)
    ensures Count(p, es + [e]) == Count(p, es) + One(p(e))
  {
    assert (es + [e])[..|es|] == es;
  }

  /** Every registration has exactly one fate. */
  lemma {:induction false} FatesPartition(es: seq<Entry>)
    ensures |es| == Count(Of(InTable), es) + Count(Of(Replaced), es) + Count(Of(Completed), es)
      + Count(Of(Errored), es) + Count(Of(SendFailed), es) + Count(Of(ClosedEarly), es)
      + Count(Of(EvictedStalled), es) + Count(Of(EvictedCapacity), es) + Count(Of(Flushed), es)
  {
    if es != [] { FatesPartition(es[..|es| - 1]); }
  }

  // ---------------------------------------------------------------------
  // Steps
  // ---------------------------------------------------------------------

  /** The counter an outcome belongs to. */
  function Bump(c: Counters, fate: Fate): Counters {
    match fate
    case Completed => c.(completed := c.completed + 1)
    case Errored => c.(errored := c.errored + 1)
    case SendFailed => c.(sendFailed := c.sendFailed + 1)
    case ClosedEarly => c.(closedEarly := c.closedEarly + 1)
    case EvictedStalled => c.(evictedStalled := c.evictedStalled + 1)
    case EvictedCapacity => c.(evictedCapacity := c.evictedCapacity + 1)
    case Flushed => c.(flushed := c.flushed + 1)
    case _ => c
  }

  /** A registration leaves the table: its mapping goes, its breakdowns and its
      outcome are counted, its buffer stays with the caller as `s`. */
  function Leave(t: Table, h: Handle, s: Slot, fate: Fate): Table
    requires h < |t.entries|
  {
    var e := t.entries[h];
    Table(t.entries[h := e.(slot := s, fate := fate)], t.slots - {e.corID}, Bump(t.counters, fate),
          Dec(t.inMode, e.mode), Dec(t.inCall, e.callID))
  }

  /** Unblock a caller whose registration was evicted: overflow is dropped, the oldest
      buffered frame makes room, and a terminal error is pushed without blocking. */
  function Terminate(s: Slot, corID: nat, why: Str): Slot {
    var ch := if s.ch == [] then [] else s.ch[1..];
    s.(ov := [], ovBytes := 0,
       ch := if |ch| < s.cap then ch + [Frame(Error, corID, why)] else ch)
  }

  ghost predicate IsOldest(slots: map<nat, Handle>, id: nat) {
    id in slots && forall k :: k in slots ==> id <= k
  }

  lemma {:induction false} OldestExists(keys: set<nat>) returns (id: nat)
    requires keys != {}
    ensures id in keys && forall k :: k in keys ==> id <= k
    decreases |keys|
  {
    var x :| x in keys;
    var rest := keys - {x};
    if rest == {} {
      id := x;
    } else {
      var m := OldestExists(rest);
      id := if m < x then m else x;
    }
    assert keys == rest + {x};
  }

  ghost function Oldest(slots: map<nat, Handle>): (id: nat)
    requires slots != map[]
    ensures IsOldest(slots, id)
  {
    assert exists id :: IsOldest(slots, id) by {
      assert slots.Keys != {};
      var id := OldestExists(slots.Keys);
      assert IsOldest(slots, id);
    }
    var id :| IsOldest(slots, id);
    id
  }

  ghost function EvictOldest(t: Table): Table {
    if t.slots == map[] || t.slots[Oldest(t.slots)] >= |t.entries| then t
    else
      var h := t.slots[Oldest(t.slots)];
      Leave(t, h, Terminate(t.entries[h].slot, Oldest(t.slots), AT_CAPACITY), EvictedCapacity)
  }

  function AddEntry(t: Table, corID: nat, callID: Str, mode: Str, cap: nat): Table {
    t.(entries := t.entries + [Entry(corID, callID, mode, Slot(cap, [], [], [], 0), InTable, NoStream)],
       slots := t.slots[corID := |t.entries|],
       counters := t.counters.(registered := t.counters.registered + 1),
       inMode := Inc(t.inMode, mode), inCall := Inc(t.inCall, callID))
  }

  const AT_CAPACITY: Str := [1]
  const STALLED: Str := [2]

  ghost function Register(t: Table, corID: nat, callID: Str, mode: Str, cap: nat): Table {
    var t1 :=
      if corID !in t.slots && |t.slots| >= MAX_SLOTS then EvictOldest(t)
      else if corID in t.slots && t.slots[corID] < |t.entries|
      then Leave(t, t.slots[corID], t.entries[t.slots[corID]].slot, Replaced)
      else t;
    AddEntry(t1, corID, callID, mode, cap)
  }

  function Drop(t: Table, corID: nat, fate: Fate): Table {
    if corID !in t.slots || t.slots[corID] >= |t.entries| then t
    else Leave(t, t.slots[corID], t.entries[t.slots[corID]].slot, fate)
  }

  function Unregister(t: Table, corID: nat): Table { Drop(t, corID, ClosedEarly) }

  function FailSend(t: Table, corID: nat): Table { Drop(t, corID, SendFailed) }

  function SetEntry(t: Table, h: Handle, e: Entry): Table
    requires h < |t.entries|
  {
    t.(entries := t.entries[h := e])
  }

  function SetSlot(t: Table, h: Handle, s: Slot): Table
    requires h < |t.entries|
  {
    SetEntry(t, h, t.entries[h].(slot := s))
  }

  function DeliverTo(t: Table, f: Frame): Table {
    if f.corID !in t.slots || t.slots[f.corID] >= |t.entries| then t
    else
      var h := t.slots[f.corID];
      var (s, ok) := Enqueue(t.entries[h].slot, f);
      if !ok then Leave(t, h, Terminate(s, f.corID, STALLED), EvictedStalled)
      else if f.kind == End then Leave(t, h, s, Completed)
      else if f.kind == Error then Leave(t, h, s, Errored)
      else SetSlot(t, h, s)
  }

  /** Every live registration is terminated and the table emptied. */
  function FlushEntry(e: Entry, why: Str): Entry {
    if e.fate == InTable then e.(fate := Flushed, slot := Terminate(e.slot, e.corID, why)) else e
  }

  function FlushEntries(es: seq<Entry>, why: Str): (fs: seq<Entry>)
    ensures |fs| == |es| && forall i :: 0 <= i < |es| ==> fs[i] == FlushEntry(es[i], why)
  {
    seq(|es|, i requires 0 <= i < |es| => FlushEntry(es[i], why))
  }

  function FlushAll(t: Table, why: Str): Table {
    Table(FlushEntries(t.entries, why), map[],
          t.counters.(flushed := t.counters.flushed + |t.slots|), map[], map[])
  }

  /** pumpFor, as the caller's stream is built. */
  function PumpFor(t: Table, h: Handle): Binding
    requires h < |t.entries|
  {
    var c := t.entries[h].corID;
    if c !in t.slots then NoPump else if t.slots[c] == h then OwnPump else OtherPump(t.slots[c])
  }

  function BuildStream(t: Table, h: Handle): Table {
    if h >= |t.entries| || t.entries[h].pump != NoStream then t
    else SetEntry(t, h, t.entries[h].(pump := PumpFor(t, h)))
  }

  function PumpAt(t: Table, h: Handle): Table {
    if h < |t.entries| then SetSlot(t, h, Pump(t.entries[h].slot)) else t
  }

  /** The caller's Recv on an open stream: take one frame, then call the pump. */
  function Recv(t: Table, h: Handle): Table {
    if h >= |t.entries| || t.entries[h].pump == NoStream || t.entries[h].slot.ch == [] then t
    else
      var s := Take(t.entries[h].slot);
      match t.entries[h].pump
      case OwnPump => SetSlot(t, h, Pump(s))
      case OtherPump(k) => PumpAt(SetSlot(t, h, s), k)
      case _ => SetSlot(t, h, s)
  }

  // ---------------------------------------------------------------------
  // Invariant
  // ---------------------------------------------------------------------

  ghost predicate EntryOk(e: Entry) {
    && SlotOk(e.slot) && e.slot.cap >= 1 && Routed(e)
    && (e.pump == NoStream ==> e.slot.got == [])
    && (if e.pump == NoStream || e.pump == OwnPump then Settled(e.slot) else e.fate != InTable)
    && match e.fate
       case InTable => NoTerminal(Stream(e.slot))
       case Completed => EndsTerminal(Stream(e.slot)) && LastFrame(e).kind == End
       case Errored => EndsTerminal(Stream(e.slot)) && LastFrame(e).kind == Error
       case EvictedStalled => EndsTerminal(Stream(e.slot)) && LastFrame(e) == Frame(Error, e.corID, STALLED)
       case EvictedCapacity => EndsTerminal(Stream(e.slot)) && LastFrame(e) == Frame(Error, e.corID, AT_CAPACITY)
       case Flushed => EndsTerminal(Stream(e.slot)) && LastFrame(e).kind == Error
       case _ => true
  }

  /** Every frame of a registration carries its CorID. */
  ghost predicate Routed(e: Entry) { forall f <- Stream(e.slot) :: f.corID == e.corID }

  function LastFrame(e: Entry): Frame
    requires Stream(e.slot) != []
  {
    Stream(e.slot)[|Stream(e.slot)| - 1]
  }

  /** The mapping and the registrations still in the table are one and the same. */
  ghost predicate MappingOk(t: Table) {
    && (forall c :: c in t.slots ==>
          t.slots[c] < |t.entries| && t.entries[t.slots[c]].corID == c && t.entries[t.slots[c]].fate == InTable)
    && (forall h :: 0 <= h < |t.entries| && t.entries[h].fate == InTable ==>
          t.entries[h].corID in t.slots && t.slots[t.entries[h].corID] == h)
  }

  predicate Counted(f: Fate) { f != InTable && f != Replaced }

  function Outcome(c: Counters, f: Fate): nat
    requires Counted(f)
  {
    match f
    case Completed => c.completed
    case Errored => c.errored
    case SendFailed => c.sendFailed
    case ClosedEarly => c.closedEarly
    case EvictedStalled => c.evictedStalled
    case EvictedCapacity => c.evictedCapacity
    case Flushed => c.flushed
  }

  /** Each counter counts what it is named after. */
  ghost predicate CountersOk(t: Table) {
    && t.counters.registered == |t.entries|
    && |t.slots| == Count(Of(InTable), t.entries)
    && forall f :: Counted(f) ==> Outcome(t.counters, f) == Count(Of(f), t.entries)
  }

  ghost predicate Positive(m: map<Str, nat>) { forall k :: k in m ==> k != [] && m[k] > 0 }

  ghost predicate BreakdownOk(t: Table) {
    && Positive(t.inMode) && Positive(t.inCall)
    && forall k :: k != [] ==>
         At(t.inMode, k) == Count(WithMode(k), t.entries) && At(t.inCall, k) == Count(WithCall(k), t.entries)
  }

  ghost predicate AllOk(es: seq<Entry>) { forall h :: 0 <= h < |es| ==> EntryOk(es[h]) }

  ghost predicate EntriesOk(t: Table) { AllOk(t.entries) }

  /** The bookkeeping, which does not look inside buffers. */
  ghost predicate BookOk(t: Table) {
    MappingOk(t) && CountersOk(t) && BreakdownOk(t) && |t.slots| <= MAX_SLOTS
  }

  ghost predicate TableOk(t: Table) { EntriesOk(t) && BookOk(t) }

  // ---------------------------------------------------------------------
  // Changing one registration
  // ---------------------------------------------------------------------

  lemma DecAt(m: map<Str, nat>, k: Str, j: Str)
    requires Positive(m) && j != []
    ensures At(Dec(m, k), j) == At(m, j) - One(k == j && At(m, j) > 0)
    ensures Positive(Dec(m, k))
  {
  }

  lemma LeaveMapping(t: Table, h: Handle, s: Slot, fate: Fate)
    requires MappingOk(t) && h < |t.entries| && t.entries[h].fate == InTable && fate != InTable
    ensures MappingOk(Leave(t, h, s, fate))
    ensures |Leave(t, h, s, fate).slots| == |t.slots| - 1
  {
    var c := t.entries[h].corID;
    assert c in t.slots && t.slots.Keys == (t.slots - {c}).Keys + {c};
    assert |t.slots.Keys| == |(t.slots - {c}).Keys| + 1;
  }

  lemma LeaveBreakdown(t: Table, h: Handle, s: Slot, fate: Fate)
    requires BreakdownOk(t) && h < |t.entries| && t.entries[h].fate == InTable && fate != InTable
    ensures BreakdownOk(Leave(t, h, s, fate))
  {
    var e := t.entries[h];
    var r := Leave(t, h, s, fate);
    forall k | k != []
      ensures At(r.inMode, k) == Count(WithMode(k), r.entries) && At(r.inCall, k) == Count(WithCall(k), r.entries)
    {
      DecAt(t.inMode, e.mode, k);
      DecAt(t.inCall, e.callID, k);
      CountUpdate(WithMode(k), t.entries, h, e.(slot := s, fate := fate));
      CountUpdate(WithCall(k), t.entries, h, e.(slot := s, fate := fate));
    }
    DecAt(t.inMode, e.mode, [0]);
    DecAt(t.inCall, e.callID, [0]);
  }

  lemma LeaveOutcome(t: Table, h: Handle, s: Slot, fate: Fate, f: Fate)
    requires h < |t.entries| && fate != InTable && Counted(f)
    ensures Outcome(Leave(t, h, s, fate).counters, f) == Outcome(t.counters, f) + One(f == fate)
  {
  }

  lemma LeaveCounters(t: Table, h: Handle, s: Slot, fate: Fate)
    requires MappingOk(t) && CountersOk(t) && h < |t.entries| && t.entries[h].fate == InTable && fate != InTable
    ensures CountersOk(Leave(t, h, s, fate))
  {
    LeaveMapping(t, h, s, fate);
    var e := t.entries[h].(slot := s, fate := fate);
    CountUpdate(Of(InTable), t.entries, h, e);
    var r := Leave(t, h, s, fate);
    forall f | Counted(f) ensures Outcome(r.counters, f) == Count(Of(f), r.entries) {
      CountUpdate(Of(f), t.entries, h, e);
      LeaveOutcome(t, h, s, fate, f);
    }
  }

  /** The books do not look at the buffer or the pump. */
  predicate SameBook(e: Entry, e': Entry) {
    e'.corID == e.corID && e'.callID == e.callID && e'.mode == e.mode && e'.fate == e.fate
  }

  lemma SetEntryCounters(t: Table, h: Handle, e: Entry)
    requires h < |t.entries| && SameBook(t.entries[h], e) && CountersOk(t)
    ensures CountersOk(SetEntry(t, h, e))
  {
    forall f ensures Count(Of(f), SetEntry(t, h, e).entries) == Count(Of(f), t.entries) {
      CountUpdate(Of(f), t.entries, h, e);
    }
  }

  lemma SetEntryBreakdown(t: Table, h: Handle, e: Entry)
    requires h < |t.entries| && SameBook(t.entries[h], e) && BreakdownOk(t)
    ensures BreakdownOk(SetEntry(t, h, e))
  {
    forall k ensures Count(WithMode(k), SetEntry(t, h, e).entries) == Count(WithMode(k), t.entries) {
      CountUpdate(WithMode(k), t.entries, h, e);
    }
    forall k ensures Count(WithCall(k), SetEntry(t, h, e).entries) == Count(WithCall(k), t.entries) {
      CountUpdate(WithCall(k), t.entries, h, e);
    }
  }

  lemma SetEntryMapping(t: Table, h: Handle, e: Entry)
    requires h < |t.entries| && SameBook(t.entries[h], e) && MappingOk(t)
    ensures MappingOk(SetEntry(t, h, e))
  {
  }

  lemma TerminateOk(s: Slot, corID: nat, why: Str)
    requires SlotOk(s) && s.cap >= 1 && NoTerminal(s.got) && NoTerminal(s.ch)
    ensures Settled(Terminate(s, corID, why)) && EndsTerminal(Stream(Terminate(s, corID, why)))
    ensures Stream(Terminate(s, corID, why)) ==
      s.got + (if s.ch == [] then [] else s.ch[1..]) + [Frame(Error, corID, why)]
  {
    var ch := if s.ch == [] then [] else s.ch[1..];
    var t := Terminate(s, corID, why);
    assert Stream(t) == s.got + ch + [Frame(Error, corID, why)];
    assert Stream(t)[..|Stream(t)| - 1] == s.got + ch;
    assert forall f :: f in ch ==> f in s.ch;
  }

  lemma StreamParts(s: Slot)
    ensures NoTerminal(Stream(s)) ==> NoTerminal(s.got) && NoTerminal(s.ch) && NoTerminal(s.ov)
  {
    assert forall f :: f in s.got || f in s.ch || f in s.ov ==> f in Stream(s);
  }

  lemma ReadOk(e: Entry)
    requires EntryOk(e) && e.pump != NoStream
    ensures EntryOk(e.(slot := if e.pump == OwnPump then Pump(Take(e.slot)) else Take(e.slot)))
  {
    TakeEffect(e.slot);
    PumpEffect(Take(e.slot));
  }

  lemma PumpedOk(e: Entry)
    requires EntryOk(e)
    ensures EntryOk(e.(slot := Pump(e.slot)))
  {
    PumpEffect(e.slot);
  }

  // ---------------------------------------------------------------------
  // Each method keeps the books
  // ---------------------------------------------------------------------

  lemma LiveEntry(t: Table, corID: nat)
    requires MappingOk(t) && corID in t.slots
    ensures var h := t.slots[corID];
      h < |t.entries| && t.entries[h].fate == InTable && t.entries[h].corID == corID
  {
  }

  lemma LeaveBook(t: Table, h: Handle, s: Slot, fate: Fate)
    requires BookOk(t) && h < |t.entries| && t.entries[h].fate == InTable && fate != InTable
    ensures BookOk(Leave(t, h, s, fate)) && |Leave(t, h, s, fate).slots| == |t.slots| - 1
  {
    LeaveMapping(t, h, s, fate);
    LeaveBreakdown(t, h, s, fate);
    LeaveCounters(t, h, s, fate);
  }

  lemma DropBook(t: Table, corID: nat, fate: Fate)
    requires BookOk(t) && fate != InTable
    ensures BookOk(Drop(t, corID, fate))
    ensures corID in t.slots ==> |Drop(t, corID, fate).slots| == |t.slots| - 1 && corID !in Drop(t, corID, fate).slots
  {
    if corID in t.slots {
      LiveEntry(t, corID);
      LeaveBook(t, t.slots[corID], t.entries[t.slots[corID]].slot, fate);
    }
  }

  lemma SetEntryBook(t: Table, h: Handle, e: Entry)
    requires BookOk(t) && h < |t.entries| && SameBook(t.entries[h], e)
    ensures BookOk(SetEntry(t, h, e))
  {
    SetEntryMapping(t, h, e);
    SetEntryCounters(t, h, e);
    SetEntryBreakdown(t, h, e);
  }

  lemma DeliverBook(t: Table, f: Frame)
    requires BookOk(t)
    ensures BookOk(DeliverTo(t, f))
  {
    if f.corID in t.slots {
      LiveEntry(t, f.corID);
      var h := t.slots[f.corID];
      var (s, ok) := Enqueue(t.entries[h].slot, f);
      if !ok {
        LeaveBook(t, h, Terminate(s, f.corID, STALLED), EvictedStalled);
      } else if Terminal(f) {
        LeaveBook(t, h, s, if f.kind == End then Completed else Errored);
      } else {
        SetEntryBook(t, h, t.entries[h].(slot := s));
      }
    }
  }

  lemma PumpAtBook(t: Table, h: Handle)
    requires BookOk(t)
    ensures BookOk(PumpAt(t, h))
  {
    if h < |t.entries| { SetEntryBook(t, h, t.entries[h].(slot := Pump(t.entries[h].slot))); }
  }

  lemma RecvBook(t: Table, h: Handle)
    requires BookOk(t)
    ensures BookOk(Recv(t, h))
  {
    if h < |t.entries| {
      var e := t.entries[h];
      SetEntryBook(t, h, e.(slot := Take(e.slot)));
      SetEntryBook(t, h, e.(slot := Pump(Take(e.slot))));
      if e.pump.OtherPump? { PumpAtBook(SetSlot(t, h, Take(e.slot)), e.pump.slot); }
    }
  }

  lemma AddEntryCounters(t: Table, corID: nat, callID: Str, mode: Str, cap: nat)
    requires CountersOk(t) && corID !in t.slots
    ensures CountersOk(AddEntry(t, corID, callID, mode, cap))
    ensures |AddEntry(t, corID, callID, mode, cap).slots| == |t.slots| + 1
  {
    var e := Entry(corID, callID, mode, Slot(cap, [], [], [], 0), InTable, NoStream);
    var t' := AddEntry(t, corID, callID, mode, cap);
    assert t'.slots.Keys == t.slots.Keys + {corID};
    assert |t'.slots.Keys| == |t.slots.Keys| + 1;
    CountAppend(Of(InTable), t.entries, e);
    forall f | Counted(f) ensures Outcome(t'.counters, f) == Count(Of(f), t'.entries) {
      CountAppend(Of(f), t.entries, e);
      assert Outcome(t'.counters, f) == Outcome(t.counters, f);
    }
  }

  lemma AddEntryBreakdown(t: Table, corID: nat, callID: Str, mode: Str, cap: nat)
    requires BreakdownOk(t)
    ensures BreakdownOk(AddEntry(t, corID, callID, mode, cap))
  {
    var e := Entry(corID, callID, mode, Slot(cap, [], [], [], 0), InTable, NoStream);
    var t' := AddEntry(t, corID, callID, mode, cap);
    forall k | k != []
      ensures At(t'.inMode, k) == Count(WithMode(k), t'.entries) && At(t'.inCall, k) == Count(WithCall(k), t'.entries)
    {
      CountAppend(WithMode(k), t.entries, e);
      CountAppend(WithCall(k), t.entries, e);
    }
  }

  lemma AddEntryMapping(t: Table, corID: nat, callID: Str, mode: Str, cap: nat)
    requires MappingOk(t) && corID !in t.slots
    ensures MappingOk(AddEntry(t, corID, callID, mode, cap))
  {
  }

  lemma AddEntryBook(t: Table, corID: nat, callID: Str, mode: Str, cap: nat)
    requires BookOk(t) && corID !in t.slots && |t.slots| < MAX_SLOTS
    ensures BookOk(AddEntry(t, corID, callID, mode, cap))
  {
    AddEntryCounters(t, corID, callID, mode, cap);
    AddEntryBreakdown(t, corID, callID, mode, cap);
    AddEntryMapping(t, corID, callID, mode, cap);
  }

  lemma RegisterBook(t: Table, corID: nat, callID: Str, mode: Str, cap: nat)
    requires BookOk(t)
    ensures BookOk(Register(t, corID, callID, mode, cap))
  {
    if corID in t.slots {
      DropBook(t, corID, Replaced);
      AddEntryBook(Drop(t, corID, Replaced), corID, callID, mode, cap);
    } else if |t.slots| >= MAX_SLOTS {
      assert t.slots != map[];
      var c := Oldest(t.slots);
      LiveEntry(t, c);
      LeaveBook(t, t.slots[c], Terminate(t.entries[t.slots[c]].slot, c, AT_CAPACITY), EvictedCapacity);
      AddEntryBook(EvictOldest(t), corID, callID, mode, cap);
    } else {
      AddEntryBook(t, corID, callID, mode, cap);
    }
  }

  lemma {:induction false} FlushCounts(es: seq<Entry>, why: Str)
    ensures var fs := FlushEntries(es, why);
      && Count(Of(InTable), fs) == 0
      && Count(Of(Flushed), fs) == Count(Of(Flushed), es) + Count(Of(InTable), es)
      && (forall f :: f != InTable && f != Flushed ==> Count(Of(f), fs) == Count(Of(f), es))
      && (forall k :: Count(WithMode(k), fs) == 0) && (forall k :: Count(WithCall(k), fs) == 0)
  {
    if es != [] {
      FlushCounts(es[..|es| - 1], why);
      assert FlushEntries(es, why)[..|es| - 1] == FlushEntries(es[..|es| - 1], why);
    }
  }

  lemma FlushCounters(t: Table, why: Str)
    requires CountersOk(t)
    ensures CountersOk(FlushAll(t, why))
  {
    FlushCounts(t.entries, why);
    var r := FlushAll(t, why);
    forall f | Counted(f) ensures Outcome(r.counters, f) == Count(Of(f), r.entries) {
      assert Outcome(r.counters, f) == Outcome(t.counters, f) + if f == Flushed then |t.slots| else 0;
    }
  }

  lemma FlushBook(t: Table, why: Str)
    requires BookOk(t)
    ensures BookOk(FlushAll(t, why))
  {
    FlushCounters(t, why);
    FlushCounts(t.entries, why);
  }

  // ---------------------------------------------------------------------
  // Each method keeps the streams
  // ---------------------------------------------------------------------

  /** One registration changes, to a good one. */
  lemma UpdateEntries(es: seq<Entry>, h: Handle, e: Entry)
    requires h < |es| && EntryOk(e) && AllOk(es)
    ensures AllOk(es[h := e])
  {
  }

  lemma DropEntries(t: Table, corID: nat, fate: Fate)
    requires MappingOk(t) && EntriesOk(t) && (fate.ClosedEarly? || fate.SendFailed? || fate.Replaced?)
    ensures EntriesOk(Drop(t, corID, fate))
  {
    if corID in t.slots {
      var h := t.slots[corID];
      UpdateEntries(t.entries, h, t.entries[h].(fate := fate));
    }
  }

  lemma EntryAfterEnqueue(e: Entry, f: Frame)
    requires EntryOk(e) && e.fate == InTable && f.corID == e.corID
    ensures var (s, ok) := Enqueue(e.slot, f);
      if !ok then EntryOk(e.(slot := Terminate(s, f.corID, STALLED), fate := EvictedStalled))
      else if Terminal(f) then EntryOk(e.(slot := s, fate := if f.kind == End then Completed else Errored))
      else EntryOk(e.(slot := s))
  {
    var (s, ok) := Enqueue(e.slot, f);
    EnqueueEffect(e.slot, f);
    if !ok {
      EnqueueKeepsChannel(e.slot, f);
      TerminateEntry(e, s, STALLED, EvictedStalled);
    } else {
      assert Stream(s)[..|Stream(s)| - 1] == Stream(e.slot);
      assert Routed(e.(slot := s));
    }
  }

  /** Terminating a buffer that still has the channel of a registration in the table. */
  lemma TerminateEntry(e: Entry, s: Slot, why: Str, fate: Fate)
    requires EntryOk(e) && e.fate == InTable
    requires SlotOk(s) && s.cap == e.slot.cap && s.got == e.slot.got && s.ch == e.slot.ch
    requires || fate == Flushed
             || (fate == EvictedStalled && why == STALLED) || (fate == EvictedCapacity && why == AT_CAPACITY)
    ensures EntryOk(e.(slot := Terminate(s, e.corID, why), fate := fate))
  {
    StreamParts(e.slot);
    TerminateOk(s, e.corID, why);
    var kept := s.got + if s.ch == [] then [] else s.ch[1..];
    forall f <- kept ensures f.corID == e.corID { assert f in Stream(e.slot); }
    var e' := e.(slot := Terminate(s, e.corID, why), fate := fate);
    assert Stream(e'.slot) == kept + [Frame(Error, e.corID, why)];
  }

  lemma EnqueueKeepsChannel(s: Slot, f: Frame)
    ensures !Enqueue(s, f).1 ==> Enqueue(s, f).0.ch == s.ch && Enqueue(s, f).0.got == s.got
  {
  }

  lemma DeliverEntries(t: Table, f: Frame)
    requires MappingOk(t) && EntriesOk(t)
    ensures EntriesOk(DeliverTo(t, f))
  {
    if f.corID in t.slots {
      LiveEntry(t, f.corID);
      var h := t.slots[f.corID];
      var e := t.entries[h];
      var (s, ok) := Enqueue(e.slot, f);
      EntryAfterEnqueue(e, f);
      if !ok {
        UpdateEntries(t.entries, h, e.(slot := Terminate(s, f.corID, STALLED), fate := EvictedStalled));
      } else if Terminal(f) {
        UpdateEntries(t.entries, h, e.(slot := s, fate := if f.kind == End then Completed else Errored));
      } else {
        UpdateEntries(t.entries, h, e.(slot := s));
      }
    }
  }

  lemma PumpAtEntries(t: Table, h: Handle)
    requires EntriesOk(t)
    ensures EntriesOk(PumpAt(t, h))
  {
    if h < |t.entries| {
      PumpedOk(t.entries[h]);
      UpdateEntries(t.entries, h, t.entries[h].(slot := Pump(t.entries[h].slot)));
    }
  }

  lemma RecvEntries(t: Table, h: Handle)
    requires EntriesOk(t)
    ensures EntriesOk(Recv(t, h))
  {
    if h < |t.entries| && t.entries[h].pump != NoStream {
      var e := t.entries[h];
      ReadOk(e);
      UpdateEntries(t.entries, h, e.(slot := if e.pump == OwnPump then Pump(Take(e.slot)) else Take(e.slot)));
      if e.pump.OtherPump? { PumpAtEntries(SetSlot(t, h, Take(e.slot)), e.pump.slot); }
    }
  }

  lemma BuildEntries(t: Table, h: Handle)
    requires MappingOk(t) && EntriesOk(t)
    ensures EntriesOk(BuildStream(t, h))
  {
    if h < |t.entries| && t.entries[h].pump == NoStream {
      UpdateEntries(t.entries, h, t.entries[h].(pump := PumpFor(t, h)));
    }
  }

  lemma EvictOldestEntries(t: Table)
    requires MappingOk(t) && EntriesOk(t) && t.slots != map[]
    ensures EntriesOk(EvictOldest(t))
  {
    var c := Oldest(t.slots);
    LiveEntry(t, c);
    var e := t.entries[t.slots[c]];
    TerminateEntry(e, e.slot, AT_CAPACITY, EvictedCapacity);
    UpdateEntries(t.entries, t.slots[c], e.(slot := Terminate(e.slot, c, AT_CAPACITY), fate := EvictedCapacity));
  }

  lemma AddEntryEntries(t: Table, corID: nat, callID: Str, mode: Str, cap: nat)
    requires EntriesOk(t) && cap >= 1
    ensures EntriesOk(AddEntry(t, corID, callID, mode, cap))
  {
    assert EntryOk(Entry(corID, callID, mode, Slot(cap, [], [], [], 0), InTable, NoStream));
  }

  lemma RegisterEntries(t: Table, corID: nat, callID: Str, mode: Str, cap: nat)
    requires MappingOk(t) && EntriesOk(t) && cap >= 1
    ensures EntriesOk(Register(t, corID, callID, mode, cap))
  {
    if corID in t.slots {
      DropEntries(t, corID, Replaced);
      AddEntryEntries(Drop(t, corID, Replaced), corID, callID, mode, cap);
    } else if |t.slots| >= MAX_SLOTS {
      assert t.slots != map[];
      EvictOldestEntries(t);
      AddEntryEntries(EvictOldest(t), corID, callID, mode, cap);
    } else {
      AddEntryEntries(t, corID, callID, mode, cap);
    }
  }

  lemma FlushEntriesOk(t: Table, why: Str)
    requires EntriesOk(t)
    ensures EntriesOk(FlushAll(t, why))
  {
    forall h | 0 <= h < |t.entries| ensures EntryOk(FlushEntry(t.entries[h], why)) {
      if t.entries[h].fate == InTable { TerminateEntry(t.entries[h], t.entries[h].slot, why, Flushed); }
    }
  }

  // ---------------------------------------------------------------------
  // Runs
  // ---------------------------------------------------------------------

  datatype Step =
    | DoRegister(corID: nat, callID: Str, mode: Str, cap: nat)
    | DoUnregister(corID: nat)
    | DoFailSend(corID: nat)
    | DoDeliver(frame: Frame)
    | DoFlush(why: Str)
    | DoBuild(handle: Handle)
    | DoRecv(handle: Handle)

  ghost function Next(t: Table, step: Step): Table {
    match step
    case DoRegister(c, call, mode, cap) => Register(t, c, call, mode, cap)
    case DoUnregister(c) => Unregister(t, c)
    case DoFailSend(c) => FailSend(t, c)
    case DoDeliver(f) => DeliverTo(t, f)
    case DoFlush(why) => FlushAll(t, why)
    case DoBuild(h) => BuildStream(t, h)
    case DoRecv(h) => Recv(t, h)
  }

  ghost function Run(t: Table, steps: seq<Step>): Table {
    if steps == [] then t else Next(Run(t, steps[..|steps| - 1]), steps[|steps| - 1])
  }

  /** Callers hand in buffered channels. */
  ghost predicate Buffered(steps: seq<Step>) {
    forall i :: 0 <= i < |steps| && steps[i].DoRegister? ==> steps[i].cap >= 1
  }

  lemma StepBook(t: Table, step: Step)
    requires BookOk(t)
    ensures BookOk(Next(t, step))
  {
    match step
    case DoRegister(c, call, mode, cap) => RegisterBook(t, c, call, mode, cap);
    case DoUnregister(c) => DropBook(t, c, ClosedEarly);
    case DoFailSend(c) => DropBook(t, c, SendFailed);
    case DoDeliver(f) => DeliverBook(t, f);
    case DoFlush(why) => FlushBook(t, why);
    case DoBuild(h) => if h < |t.entries| { SetEntryBook(t, h, t.entries[h].(pump := PumpFor(t, h))); }
    case DoRecv(h) => RecvBook(t, h);
  }

  lemma StepEntries(t: Table, step: Step)
    requires MappingOk(t) && EntriesOk(t) && (step.DoRegister? ==> step.cap >= 1)
    ensures EntriesOk(Next(t, step))
  {
    match step
    case DoRegister(c, call, mode, cap) => RegisterEntries(t, c, call, mode, cap);
    case DoUnregister(c) => DropEntries(t, c, ClosedEarly);
    case DoFailSend(c) => DropEntries(t, c, SendFailed);
    case DoDeliver(f) => DeliverEntries(t, f);
    case DoFlush(why) => FlushEntriesOk(t, why);
    case DoBuild(h) => BuildEntries(t, h);
    case DoRecv(h) => RecvEntries(t, h);
  }

  /** The books agree in every run, whatever channels the callers hand in. */
  lemma {:induction false} EveryRunBook(steps: seq<Step>)
    ensures BookOk(Run(EMPTY, steps))
  {
    if steps != [] {
      EveryRunBook(steps[..|steps| - 1]);
      StepBook(Run(EMPTY, steps[..|steps| - 1]), steps[|steps| - 1]);
    }
  }

  lemma {:induction false} EveryRunOk(steps: seq<Step>)
    requires Buffered(steps)
    ensures TableOk(Run(EMPTY, steps))
  {
    EveryRunBook(steps);
    if steps != [] {
      EveryRunOk(steps[..|steps| - 1]);
      StepEntries(Run(EMPTY, steps[..|steps| - 1]), steps[|steps| - 1]);
    }
  }

  /** Over: the table itself ended the registration, with a terminal frame. */
  predicate Over(f: Fate) {
    f == Completed || f == Errored || f == EvictedStalled || f == EvictedCapacity || f == Flushed
  }

  /** No caller is left hanging: after any run each registration is still in the
      table, or was closed, failed to send or was replaced under its own CorID, or
      has exactly one terminal frame, as the last frame of its stream; and no stream that
      was built while its call was in the table faces an empty channel with frames left in
      overflow. */
  lemma NobodyHangs(steps: seq<Step>, h: Handle)
    requires Buffered(steps)
    ensures var t := Run(EMPTY, steps);
      h < |t.entries| ==>
      var e := t.entries[h];
      && (e.pump == NoStream || e.pump == OwnPump ==> Settled(e.slot))
      && (|| (e.fate == InTable && e.corID in t.slots && t.slots[e.corID] == h)
          || e.fate in {ClosedEarly, SendFailed, Replaced}
          || (Over(e.fate) && EndsTerminal(Stream(e.slot))))
  {
    EveryRunOk(steps);
    assert h < |Run(EMPTY, steps).entries| ==> EntryOk(Run(EMPTY, steps).entries[h]);
  }

  function Outcomes(c: Counters): nat {
    c.completed + c.errored + c.sendFailed + c.closedEarly + c.evictedStalled + c.evictedCapacity + c.flushed
  }

  /** A registration under a CorID that is still in the table. */
  predicate Reuses(t: Table, step: Step) { step.DoRegister? && step.corID in t.slots }

  ghost function ReuseCount(steps: seq<Step>): nat {
    if steps == [] then 0
    else
      var n := |steps| - 1;
      ReuseCount(steps[..n]) + One(Reuses(Run(EMPTY, steps[..n]), steps[n]))
  }

  /** What a caller of Register can check: its CorID is not in the table. */
  ghost predicate FreshWhenRegistered(steps: seq<Step>) {
    forall i: nat :: !ReusesAt(steps, i)
  }

  ghost predicate ReusesAt(steps: seq<Step>, i: nat) {
    i < |steps| && Reuses(Run(EMPTY, steps[..i]), steps[i])
  }

  lemma ReusesInPrefix(steps: seq<Step>, i: nat)
    requires i + 1 < |steps|
    ensures ReusesAt(steps[..|steps| - 1], i) == ReusesAt(steps, i)
  {
    assert steps[..|steps| - 1][..i] == steps[..i];
  }

  lemma FreshStep(steps: seq<Step>)
    requires steps != []
    ensures FreshWhenRegistered(steps)
            <==> FreshWhenRegistered(steps[..|steps| - 1]) && !ReusesAt(steps, |steps| - 1)
  {
    var n := |steps| - 1;
    if FreshWhenRegistered(steps) {
      forall i: nat ensures !ReusesAt(steps[..n], i) { if i < n { ReusesInPrefix(steps, i); } }
    }
    if FreshWhenRegistered(steps[..n]) && !ReusesAt(steps, n) {
      forall i: nat ensures !ReusesAt(steps, i) { if i < n { ReusesInPrefix(steps, i); } }
    }
  }

  lemma {:induction false} FreshIffNoReuse(steps: seq<Step>)
    ensures FreshWhenRegistered(steps) <==> ReuseCount(steps) == 0
  {
    if steps != [] {
      FreshIffNoReuse(steps[..|steps| - 1]);
      FreshStep(steps);
    }
  }

  lemma LeaveReplaced(t: Table, h: Handle, s: Slot, fate: Fate)
    requires h < |t.entries| && t.entries[h].fate == InTable
    ensures Count(Of(Replaced), Leave(t, h, s, fate).entries) == Count(Of(Replaced), t.entries) + One(fate == Replaced)
  {
    CountUpdate(Of(Replaced), t.entries, h, t.entries[h].(slot := s, fate := fate));
  }

  lemma SetEntryReplaced(t: Table, h: Handle, e: Entry)
    requires h < |t.entries| && SameBook(t.entries[h], e)
    ensures Count(Of(Replaced), SetEntry(t, h, e).entries) == Count(Of(Replaced), t.entries)
  {
    CountUpdate(Of(Replaced), t.entries, h, e);
  }

  lemma RecvReplaced(t: Table, h: Handle)
    ensures Count(Of(Replaced), Recv(t, h).entries) == Count(Of(Replaced), t.entries)
  {
    if h < |t.entries| {
      var e := t.entries[h];
      SetEntryReplaced(t, h, e.(slot := Take(e.slot)));
      SetEntryReplaced(t, h, e.(slot := Pump(Take(e.slot))));
      if e.pump.OtherPump? && e.pump.slot < |t.entries| {
        var t1, k := SetSlot(t, h, Take(e.slot)), e.pump.slot;
        SetEntryReplaced(t1, k, t1.entries[k].(slot := Pump(t1.entries[k].slot)));
      }
    }
  }

  lemma RegisterReplaced(t: Table, corID: nat, callID: Str, mode: Str, cap: nat)
    requires BookOk(t)
    ensures Count(Of(Replaced), Register(t, corID, callID, mode, cap).entries) ==
      Count(Of(Replaced), t.entries) + One(corID in t.slots)
  {
    var e := Entry(corID, callID, mode, Slot(cap, [], [], [], 0), InTable, NoStream);
    if corID !in t.slots && |t.slots| >= MAX_SLOTS {
      assert t.slots != map[];
      var c := Oldest(t.slots);
      LiveEntry(t, c);
      LeaveReplaced(t, t.slots[c], Terminate(t.entries[t.slots[c]].slot, c, AT_CAPACITY), EvictedCapacity);
      CountAppend(Of(Replaced), EvictOldest(t).entries, e);
    } else if corID in t.slots {
      LiveEntry(t, corID);
      LeaveReplaced(t, t.slots[corID], t.entries[t.slots[corID]].slot, Replaced);
      CountAppend(Of(Replaced), Drop(t, corID, Replaced).entries, e);
    } else {
      CountAppend(Of(Replaced), t.entries, e);
    }
  }

  lemma DeliverReplaced(t: Table, f: Frame)
    requires BookOk(t)
    ensures Count(Of(Replaced), DeliverTo(t, f).entries) == Count(Of(Replaced), t.entries)
  {
    if f.corID in t.slots {
      LiveEntry(t, f.corID);
      var h := t.slots[f.corID];
      var (s, ok) := Enqueue(t.entries[h].slot, f);
      if !ok {
        LeaveReplaced(t, h, Terminate(s, f.corID, STALLED), EvictedStalled);
      } else if Terminal(f) {
        LeaveReplaced(t, h, s, if f.kind == End then Completed else Errored);
      } else {
        SetEntryReplaced(t, h, t.entries[h].(slot := s));
      }
    }
  }

  lemma FlushReplaced(t: Table, why: Str)
    ensures Count(Of(Replaced), FlushAll(t, why).entries) == Count(Of(Replaced), t.entries)
  {
    FlushCounts(t.entries, why);
  }

  lemma StepReplaced(t: Table, step: Step)
    requires BookOk(t)
    ensures Count(Of(Replaced), Next(t, step).entries) == Count(Of(Replaced), t.entries) + One(Reuses(t, step))
  {
    match step
    case DoRegister(c, call, mode, cap) => RegisterReplaced(t, c, call, mode, cap);
    case DoUnregister(c) => DropReplaced(t, c, ClosedEarly);
    case DoFailSend(c) => DropReplaced(t, c, SendFailed);
    case DoDeliver(f) => DeliverReplaced(t, f);
    case DoFlush(why) => FlushReplaced(t, why);
    case DoBuild(h) => if h < |t.entries| { SetEntryReplaced(t, h, t.entries[h].(pump := PumpFor(t, h))); }
    case DoRecv(h) => RecvReplaced(t, h);
  }

  lemma DropReplaced(t: Table, corID: nat, fate: Fate)
    requires BookOk(t) && fate != Replaced
    ensures Count(Of(Replaced), Drop(t, corID, fate).entries) == Count(Of(Replaced), t.entries)
  {
    if corID in t.slots {
      LiveEntry(t, corID);
      LeaveReplaced(t, t.slots[corID], t.entries[t.slots[corID]].slot, fate);
    }
  }

  lemma {:induction false} ReplacedAreReuses(steps: seq<Step>)
    ensures Count(Of(Replaced), Run(EMPTY, steps).entries) == ReuseCount(steps)
  {
    if steps != [] {
      var n := |steps| - 1;
      ReplacedAreReuses(steps[..n]);
      EveryRunBook(steps[..n]);
      StepReplaced(Run(EMPTY, steps[..n]), steps[n]);
    }
  }

  /** Registrations equal in-flight plus the seven outcomes, if and only if no call was
      registered under a CorID still in the table; the shortfall counts those that were. */
  lemma {:induction false} Conservation(steps: seq<Step>)
    ensures var t := Run(EMPTY, steps);
      && t.counters.registered == |t.slots| + Outcomes(t.counters) + ReuseCount(steps)
      && (t.counters.registered == |t.slots| + Outcomes(t.counters) <==> FreshWhenRegistered(steps))
      && |t.slots| <= MAX_SLOTS
  {
    EveryRunBook(steps);
    ReplacedAreReuses(steps);
    FreshIffNoReuse(steps);
    FatesPartition(Run(EMPTY, steps).entries);
    OutcomesCount(Run(EMPTY, steps));
  }

  /** The CorID generator's promise. */
  ghost predicate DistinctCorIDs(steps: seq<Step>) {
    forall i, j :: 0 <= i < j < |steps| && steps[i].DoRegister? && steps[j].DoRegister? ==>
      steps[i].corID != steps[j].corID
  }

  lemma StepSlots(t: Table, step: Step, c: nat)
    requires c in Next(t, step).slots
    ensures c in t.slots || (step.DoRegister? && step.corID == c)
  {
  }

  lemma {:induction false} UnregisteredIsAbsent(steps: seq<Step>, c: nat)
    requires forall i :: 0 <= i < |steps| && steps[i].DoRegister? ==> steps[i].corID != c
    ensures c !in Run(EMPTY, steps).slots
  {
    if steps != [] {
      var n := |steps| - 1;
      UnregisteredIsAbsent(steps[..n], c);
      if c in Next(Run(EMPTY, steps[..n]), steps[n]).slots { StepSlots(Run(EMPTY, steps[..n]), steps[n], c); }
    }
  }

  /** With CorIDs never handed out twice, nothing is missing. */
  lemma {:induction false} FreshCorIDsConserve(steps: seq<Step>)
    requires DistinctCorIDs(steps)
    ensures var t := Run(EMPTY, steps);
      t.counters.registered == |t.slots| + Outcomes(t.counters)
  {
    forall i: nat ensures !ReusesAt(steps, i) {
      if i < |steps| && steps[i].DoRegister? { UnregisteredIsAbsent(steps[..i], steps[i].corID); }
    }
    Conservation(steps);
  }

  lemma OutcomesCount(t: Table)
    requires CountersOk(t)
    ensures Outcomes(t.counters) ==
      Count(Of(Completed), t.entries) + Count(Of(Errored), t.entries) + Count(Of(SendFailed), t.entries)
      + Count(Of(ClosedEarly), t.entries) + Count(Of(EvictedStalled), t.entries)
      + Count(Of(EvictedCapacity), t.entries) + Count(Of(Flushed), t.entries)
  {
    assert Outcome(t.counters, Completed) == Count(Of(Completed), t.entries);
    assert Outcome(t.counters, Errored) == Count(Of(Errored), t.entries);
    assert Outcome(t.counters, SendFailed) == Count(Of(SendFailed), t.entries);
    assert Outcome(t.counters, ClosedEarly) == Count(Of(ClosedEarly), t.entries);
    assert Outcome(t.counters, EvictedStalled) == Count(Of(EvictedStalled), t.entries);
    assert Outcome(t.counters, EvictedCapacity) == Count(Of(EvictedCapacity), t.entries);
    assert Outcome(t.counters, Flushed) == Count(Of(Flushed), t.entries);
  }

  /** With a full table a fresh registration costs the smallest CorID its slot. */
  lemma CapacityVictim(t: Table, corID: nat, callID: Str, mode: Str, cap: nat)
    requires TableOk(t) && corID !in t.slots && |t.slots| == MAX_SLOTS
    ensures exists v: nat ::
      && IsOldest(t.slots, v)
      && Register(t, corID, callID, mode, cap).slots == (t.slots - {v})[corID := |t.entries|]
      && EndsTerminal(Stream(Register(t, corID, callID, mode, cap).entries[t.slots[v]].slot))
  {
    assert t.slots != map[];
    var v := Oldest(t.slots);
    LiveEntry(t, v);
    VictimLeaves(t, corID, callID, mode, cap);
    assert EntryOk(EvictOldest(t).entries[t.slots[v]]) by { EvictOldestEntries(t); }
  }

  lemma VictimLeaves(t: Table, corID: nat, callID: Str, mode: Str, cap: nat)
    requires MappingOk(t) && corID !in t.slots && |t.slots| == MAX_SLOTS
    ensures t.slots != map[] && t.slots[Oldest(t.slots)] < |t.entries| == |EvictOldest(t).entries|
    ensures var h, r := t.slots[Oldest(t.slots)], Register(t, corID, callID, mode, cap);
      && r.slots == (t.slots - {Oldest(t.slots)})[corID := |t.entries|]
      && |r.entries| == |t.entries| + 1 && r.entries[h] == EvictOldest(t).entries[h]
      && r.entries[h].fate == EvictedCapacity
  {
    assert t.slots != map[];
    LiveEntry(t, Oldest(t.slots));
  }

  /** With nobody parked in a receive, the terminal error gets through if and only if the
      channel has a buffer. */
  lemma TerminateNeedsRoom(s: Slot, corID: nat, why: Str)
    requires SlotOk(s) && NoTerminal(s.got) && NoTerminal(s.ch)
    ensures EndsTerminal(Stream(Terminate(s, corID, why))) <==> s.cap >= 1
  {
    if s.cap >= 1 {
      TerminateOk(s, corID, why);
    } else {
      assert Stream(Terminate(s, corID, why)) == s.got;
    }
  }
}
