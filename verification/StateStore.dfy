/** The store's per-actor state, projection/store_impl.go: Publish and Watch as
    they run under the store lock. */
module StateStore {
  import opened Common
  import opened Ring
  import opened Projection
  import opened StateChannel

  lemma {:induction false} FilterSame<T>(p: T -> bool, q: T -> bool, s: seq<T>)
    requires forall i :: 0 <= i < |s| ==> p(s[i]) == q(s[i])
    ensures Filter(p, s) == Filter(q, s)
  {
    if s != [] { FilterSame(p, q, s[..|s| - 1]); }
  }

  class ActorState {
    var snapshot: Snapshot
    const window: RingBuffer<Update>
    var subs: seq<Sub>
    /** Everything published so far. */
    ghost var pubs: seq<Snapshot>

    ghost predicate Valid()
      reads this, window, window.buf
    {
      && window.Valid() && window.stamp == VersionOf && window.pushed == Deltas(pubs)
      && snapshot == Current(pubs)
    }

    constructor (deltaCap: int)
      ensures Valid() && pubs == [] && subs == []
      ensures window.capacity == if deltaCap <= 0 then DEFAULT_WINDOW else deltaCap
      ensures fresh(window) && fresh(window.buf)
    {
      snapshot, subs, pubs := ZERO, [], [];
      window := new RingBuffer<Update>(VersionOf, deltaCap, DEFAULT_WINDOW);
    }

    method Publish(snap: Snapshot)
      requires Valid()
      modifies this, window, window.buf
      ensures Valid() && pubs == old(pubs) + [snap]
      ensures snap.version == 0 ==> subs == old(subs)
      ensures snap.version > 0 ==> |subs| == |old(subs)| && forall i :: 0 <= i < |subs| ==>
        subs[i] == Deliver(old(subs)[i], DeltaOf(old(snapshot), snap))
    {
      var prev := snapshot;
      DeltasAppend(pubs, snap);
      snapshot := snap;
      pubs := pubs + [snap];
      if snap.version > 0 {
        var delta := DeltaOf(prev, snap);
        window.Push(delta);
        FanOut(delta);
      }
    }

    method FanOut(delta: Update)
      modifies `subs
      ensures |subs| == |old(subs)| && forall i :: 0 <= i < |subs| ==>
        subs[i] == Deliver(old(subs)[i], delta)
    {
      var i := 0;
      while i < |subs|
        invariant 0 <= i <= |subs| == |old(subs)|
        invariant forall j :: 0 <= j < i ==> subs[j] == Deliver(old(subs)[j], delta)
        invariant forall j :: i <= j < |subs| ==> subs[j] == old(subs)[j]
      {
        subs := subs[i := Deliver(subs[i], delta)];
        i := i + 1;
      }
    }

    /** The deltas after `since` still in the window. */
    method DeltasAfter(since: nat) returns (r: seq<Update>)
      requires Valid()
      ensures r == Filter(After(since), LastN(Deltas(pubs), window.capacity))
    {
      var all := (u: Update) => true;
      r := window.Since(since, all, 0);
      FilterSame(Passes(window.stamp, since, all), After(since), LastN(window.pushed, window.capacity));
    }

    method InitialUpdates(since: nat) returns (initial: seq<Update>)
      requires Valid()
      ensures initial == Replay(snapshot, LastN(Deltas(pubs), window.capacity), since)
    {
      initial := [];
      WindowEnds(Deltas(pubs), window.capacity);
      if snapshot.fields != map[] {
        if since > 0 {
          if window.oldest > 0 && since < window.oldest {
            initial := [GapTooLarge(snapshot.version, snapshot), FullSnapshot(snapshot.version, snapshot)];
          } else if since < window.latest {
            initial := DeltasAfter(since);
          }
        } else {
          initial := [FullSnapshot(snapshot.version, snapshot)];
        }
      }
    }

    /** Watch: the replay is sent before the subscription is installed; a replay
        longer than the channel would block here with the store lock held. */
    method Watch(since: nat, batched: bool) returns (blocked: bool)
      requires Valid()
      modifies `subs
      ensures Valid()
      ensures var r := Replay(snapshot, LastN(Deltas(pubs), window.capacity), since);
        && (blocked <==> |r| > CHANNEL_CAP)
        && subs == if blocked then old(subs) else old(subs) + [Sub(batched, r, None, [], false)]
    {
      var initial := InitialUpdates(since);
      blocked := |initial| > CHANNEL_CAP;
      if !blocked { subs := subs + [Sub(batched, initial, None, [], false)]; }
    }
  }

  lemma DeltasAppend(pubs: seq<Snapshot>, snap: Snapshot)
    ensures Deltas(pubs + [snap]) ==
      Deltas(pubs) + if snap.version > 0 then [DeltaOf(Current(pubs), snap)] else []
  {
    var q := pubs + [snap];
    assert q[..|q| - 1] == pubs && At(q, |q| - 1) == Current(pubs);
  }

  lemma WindowEnds<T>(ds: seq<T>, cap: nat)
    requires cap > 0
    ensures ds != [] ==> LastN(ds, cap) != [] && LastN(ds, cap)[|LastN(ds, cap)| - 1] == ds[|ds| - 1]
  {
  }
}
