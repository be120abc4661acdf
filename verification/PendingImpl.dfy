/** The table of invoke/pending.go as an object, method by method in step with
    PendingTable. */
module PendingImpl {
  import opened Common
  import opened PendingSlot
  import opened PendingTable

  /** The part of the invariant the methods themselves rely on. */
  ghost predicate Indexed(t: Table) {
    forall c :: c in t.slots ==> t.slots[c] < |t.entries| && t.entries[t.slots[c]].corID == c
  }

  lemma OldestUnique(slots: map<nat, Handle>, id: nat)
    requires IsOldest(slots, id)
    ensures slots != map[] && Oldest(slots) == id
  {
    assert id in slots;
  }

  class CallTable {
    var entries: seq<Entry>
    var slots: map<nat, Handle>
    var counters: Counters
    var inMode: map<Str, nat>
    var inCall: map<Str, nat>

    ghost function View(): Table
      reads this
    {
      Table(entries, slots, counters, inMode, inCall)
    }

    constructor ()
      ensures View() == EMPTY
    {
      entries, slots, counters := [], map[], Counters(0, 0, 0, 0, 0, 0, 0, 0);
      inMode, inCall := map[], map[];
    }

    /** Register's scan for the victim. */
    method FindVictim() returns (id: nat)
      requires slots != map[]
      ensures IsOldest(slots, id)
    {
      ghost var seen: set<nat> := {};
      var rest := slots.Keys;
      assert rest != {};
      var found := false;
      id := 0;
      while rest != {}
        invariant seen + rest == slots.Keys
        invariant found <==> seen != {}
        invariant found ==> id in slots
        invariant forall k :: k in seen ==> id <= k
        decreases |rest|
      {
        var k :| k in rest;
        if !found || k < id { id, found := k, true; }
        rest, seen := rest - {k}, seen + {k};
      }
      assert seen == slots.Keys;
    }

    /** Delete a mapping, decrement the breakdowns, keep the buffer `s` with the caller. */
    method Forget(h: Handle, s: Slot, fate: Fate)
      requires h < |entries|
      modifies this
      ensures View() == Leave(old(View()), h, s, fate)
    {
      var e := entries[h];
      slots := slots - {e.corID};
      inMode, inCall := Dec(inMode, e.mode), Dec(inCall, e.callID);
      entries := entries[h := e.(slot := s, fate := fate)];
      counters := Bump(counters, fate);
    }

    method RegisterCall(corID: nat, callID: Str, mode: Str, cap: nat)
      requires Indexed(View())
      modifies this
      ensures View() == Register(old(View()), corID, callID, mode, cap)
    {
      if corID !in slots && |slots| >= MAX_SLOTS {
        assert slots != map[];
        var victim := FindVictim();
        OldestUnique(slots, victim);
        var h := slots[victim];
        Forget(h, Terminate(entries[h].slot, victim, AT_CAPACITY), EvictedCapacity);
      } else if corID in slots {
        Forget(slots[corID], entries[slots[corID]].slot, Replaced);
      }
      slots := slots[corID := |entries|];
      entries := entries + [Entry(corID, callID, mode, Slot(cap, [], [], [], 0), InTable, NoStream)];
      inMode, inCall := Inc(inMode, mode), Inc(inCall, callID);
      counters := counters.(registered := counters.registered + 1);
    }

    method UnregisterCall(corID: nat)
      requires Indexed(View())
      modifies this
      ensures View() == Unregister(old(View()), corID)
    {
      if corID in slots { Forget(slots[corID], entries[slots[corID]].slot, ClosedEarly); }
    }

    method SendFailedCall(corID: nat)
      requires Indexed(View())
      modifies this
      ensures View() == FailSend(old(View()), corID)
    {
      if corID in slots { Forget(slots[corID], entries[slots[corID]].slot, SendFailed); }
    }

    /** Deliver: true when the frame was queued. */
    method DeliverFrame(f: Frame) returns (ok: bool)
      requires Indexed(View())
      modifies this
      ensures View() == DeliverTo(old(View()), f)
      ensures ok <==> f.corID in old(slots) && Enqueue(old(entries)[old(slots)[f.corID]].slot, f).1
    {
      if f.corID !in slots { return false; }
      var h := slots[f.corID];
      var (s, fits) := Enqueue(entries[h].slot, f);
      if !fits {
        Forget(h, Terminate(s, f.corID, STALLED), EvictedStalled);
        return false;
      }
      if f.kind == End {
        Forget(h, s, Completed);
      } else if f.kind == Error {
        Forget(h, s, Errored);
      } else {
        entries := entries[h := entries[h].(slot := s)];
      }
      return true;
    }

    /** The caller's stream is built: pumpFor looks its slot up once and for all. */
    method Build(h: Handle)
      requires h < |entries| && entries[h].pump == NoStream
      modifies `entries
      ensures View() == BuildStream(old(View()), h)
    {
      var e := entries[h];
      if e.corID !in slots {
        e := e.(pump := NoPump);
      } else {
        e := e.(pump := if slots[e.corID] == h then OwnPump else OtherPump(slots[e.corID]));
      }
      entries := entries[h := e];
    }

    /** Flush: the table is emptied first, then each victim is unblocked. */
    method Flush(why: Str) returns (n: nat)
      requires MappingOk(View())
      modifies this
      ensures View() == FlushAll(old(View()), why) && n == |old(slots)|
    {
      var victims := slots;
      slots, inMode, inCall := map[], map[], map[];
      counters := counters.(flushed := counters.flushed + |victims|);
      n := |victims|;
      Unblock(victims, why);
    }

    method Unblock(victims: map<nat, Handle>, why: Str)
      requires MappingOk(Table(entries, victims, counters, inMode, inCall))
      modifies `entries
      ensures entries == FlushEntries(old(entries), why)
    {
      var rest := victims.Keys;
      while rest != {}
        invariant rest <= victims.Keys
        invariant |entries| == |old(entries)|
        invariant forall h :: 0 <= h < |entries| ==>
          entries[h] == if old(entries)[h].corID in rest then old(entries)[h] else FlushEntry(old(entries)[h], why)
        decreases |rest|
      {
        var c :| c in rest;
        var h := victims[c];
        assert old(entries)[h].corID == c && old(entries)[h].fate == InTable;
        var e := entries[h];
        entries := entries[h := e.(fate := Flushed, slot := Terminate(e.slot, e.corID, why))];
        rest := rest - {c};
      }
    }
  }
}
