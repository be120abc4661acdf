/** The state channel, projection/store_impl.go: snapshots, the deltas that
    stand for them, replay by version, batching and lossy delivery. */
module Projection {
  import opened Common
  import opened Ring

  /** One projected view: its fields, compared by value. */
  type View = map<Str, Str>
  type Fields = map<Str, View>

  datatype Snapshot = Snapshot(version: nat, fields: Fields)

  datatype Update =
    | FullSnapshot(version: nat, snapshot: Snapshot)
    | GapTooLarge(version: nat, snapshot: Snapshot)
    | Delta(version: nat, prevVersion: nat, delta: Fields)

  const CHANNEL_CAP := 16
  const DEFAULT_WINDOW := 64
  const ZERO := Snapshot(0, map[])

  // ---------------------------------------------------------------------
  // Deltas as patches
  // ---------------------------------------------------------------------

  /** computeDeltaUpdate */
  function DeltaOf(prev: Snapshot, next: Snapshot): Update {
    Delta(next.version, prev.version,
      map n | n in next.fields && (n !in prev.fields || prev.fields[n] != next.fields[n]) :: next.fields[n])
  }

  function Patch(f: Fields, d: Fields): Fields { f + d }

  /** A delta carries changes and additions, never removals: it patches the old
      fields into the new ones exactly when no field disappeared. */
  lemma PatchExact(prev: Snapshot, next: Snapshot)
    ensures Patch(prev.fields, DeltaOf(prev, next).delta) == next.fields
            <==> prev.fields.Keys <= next.fields.Keys
  {
    var r := Patch(prev.fields, DeltaOf(prev, next).delta);
    assert forall n :: n in r <==> n in prev.fields || n in next.fields;
    assert forall n :: n in next.fields ==> r[n] == next.fields[n];
    if r == next.fields {
      assert forall n :: n in prev.fields ==> n in r;
    }
  }

  /** A delta carries nothing that the old snapshot has already. */
  lemma DeltaMinimal(prev: Snapshot, next: Snapshot, n: Str)
    requires n in DeltaOf(prev, next).delta
    ensures var less := Patch(prev.fields, DeltaOf(prev, next).delta - {n});
      !(n in less && n in next.fields && less[n] == next.fields[n])
  {
  }

  /** mergePending */
  function Merge(a: Update, b: Update): Update {
    if a.Delta? && b.Delta? then Delta(b.version, a.prevVersion, a.delta + b.delta) else b
  }

  lemma PatchMerge(f: Fields, a: Update, b: Update)
    requires a.Delta? && b.Delta?
    ensures Patch(f, Merge(a, b).delta) == Patch(Patch(f, a.delta), b.delta)
  {
  }

  // ---------------------------------------------------------------------
  // A publishing history
  // ---------------------------------------------------------------------

  /** The snapshot in force after the first `n` publications. */
  function At(pubs: seq<Snapshot>, n: nat): Snapshot
    requires n <= |pubs|
  {
    if n == 0 then ZERO else pubs[n - 1]
  }

  /** The deltas Publish pushes; a snapshot of version 0 pushes none. */
  function Deltas(pubs: seq<Snapshot>): (r: seq<Update>)
    ensures forall i :: 0 <= i < |r| ==> r[i].Delta?
  {
    if pubs == [] then []
    else
      var n := |pubs| - 1;
      Deltas(pubs[..n]) + if pubs[n].version > 0 then [DeltaOf(At(pubs, n), pubs[n])] else []
  }

  /** What DeltaWindow trusts its caller for. */
  ghost predicate Increasing(pubs: seq<Snapshot>) {
    && (forall i :: 0 <= i < |pubs| ==> pubs[i].version > 0)
    && (forall i, j :: 0 <= i < j < |pubs| ==> pubs[i].version < pubs[j].version)
  }

  ghost predicate NonShrinking(pubs: seq<Snapshot>) {
    forall i, j :: 0 <= i <= j < |pubs| ==> pubs[i].fields.Keys <= pubs[j].fields.Keys
  }

  lemma {:induction false} DeltaAt(pubs: seq<Snapshot>, i: nat)
    requires Increasing(pubs) && i < |pubs|
    ensures |Deltas(pubs)| == |pubs| && Deltas(pubs)[i] == DeltaOf(At(pubs, i), pubs[i])
  {
    var n := |pubs| - 1;
    if n > 0 { DeltaAt(pubs[..n], if i < n then i else 0); }
  }

  lemma DeltasAt(pubs: seq<Snapshot>)
    requires Increasing(pubs)
    ensures |Deltas(pubs)| == |pubs|
    ensures forall i :: 0 <= i < |pubs| ==> Deltas(pubs)[i] == DeltaOf(At(pubs, i), pubs[i])
  {
    if pubs != [] { DeltaAt(pubs, 0); }
    forall i | 0 <= i < |pubs| ensures Deltas(pubs)[i] == DeltaOf(At(pubs, i), pubs[i]) { DeltaAt(pubs, i); }
  }

  /** Folding the deltas of publications from..to into one, as batching does. */
  function MergedFields(pubs: seq<Snapshot>, lo: nat, hi: nat): Fields
    requires lo <= hi <= |pubs|
  {
    if lo == hi then map[] else MergedFields(pubs, lo, hi - 1) + DeltaOf(At(pubs, hi - 1), pubs[hi - 1]).delta
  }

  ghost predicate Seen(pubs: seq<Snapshot>, lo: nat, hi: nat, n: Str)
    requires hi <= |pubs|
  {
    exists k :: lo <= k <= hi && n in At(pubs, k).fields
  }

  lemma SeenStep(pubs: seq<Snapshot>, lo: nat, hi: nat, n: Str)
    requires lo < hi <= |pubs|
    ensures Seen(pubs, lo, hi, n) <==> Seen(pubs, lo, hi - 1, n) || n in At(pubs, hi).fields
  {
    if Seen(pubs, lo, hi, n) {
      var k :| lo <= k <= hi && n in At(pubs, k).fields;
    }
  }

  lemma PatchAssoc(f: Fields, a: Fields, b: Fields)
    ensures Patch(f, a + b) == Patch(f, a) + b
  {
  }

  lemma PatchOne(before: Fields, prev: Snapshot, next: Snapshot)
    requires forall n :: n in prev.fields ==> n in before && before[n] == prev.fields[n]
    ensures var r := before + DeltaOf(prev, next).delta;
      && (forall n :: n in r <==> n in before || n in next.fields)
      && (forall n :: n in next.fields ==> r[n] == next.fields[n])
  {
  }

  /** Patched fields agree with the target wherever the target has a field, and
      otherwise keep whatever some snapshot on the way had. */
  lemma {:induction false} MergedAgrees(pubs: seq<Snapshot>, lo: nat, hi: nat)
    requires lo <= hi <= |pubs|
    ensures var r := Patch(At(pubs, lo).fields, MergedFields(pubs, lo, hi));
      && (forall n :: n in r <==> Seen(pubs, lo, hi, n))
      && (forall n :: n in At(pubs, hi).fields ==> n in r && r[n] == At(pubs, hi).fields[n])
    decreases hi
  {
    var f := At(pubs, lo).fields;
    if lo < hi {
      MergedAgrees(pubs, lo, hi - 1);
      PatchOne(Patch(f, MergedFields(pubs, lo, hi - 1)), At(pubs, hi - 1), pubs[hi - 1]);
      PatchAssoc(f, MergedFields(pubs, lo, hi - 1), DeltaOf(At(pubs, hi - 1), pubs[hi - 1]).delta);
      forall n { SeenStep(pubs, lo, hi, n); }
    } else {
      assert forall n :: Seen(pubs, lo, hi, n) <==> n in f by {
        forall n | n in f ensures Seen(pubs, lo, hi, n) { assert n in At(pubs, lo).fields; }
      }
    }
  }

  /** Any run of consecutive deltas, merged or applied one by one, is a correct
      patch exactly when every field seen on the way is still there at the end. */
  lemma MergedExact(pubs: seq<Snapshot>, lo: nat, hi: nat)
    requires lo <= hi <= |pubs|
    ensures Patch(At(pubs, lo).fields, MergedFields(pubs, lo, hi)) == At(pubs, hi).fields
            <==> NoneVanished(pubs, lo, hi)
  {
    MergedAgrees(pubs, lo, hi);
    var r := Patch(At(pubs, lo).fields, MergedFields(pubs, lo, hi));
    var target := At(pubs, hi).fields;
    if r == target {
      forall k, n | lo <= k <= hi && n in At(pubs, k).fields ensures n in target {
        assert Seen(pubs, lo, hi, n);
      }
    }
    if NoneVanished(pubs, lo, hi) {
      forall n | n in r ensures n in target {
        assert Seen(pubs, lo, hi, n);
        var k :| lo <= k <= hi && n in At(pubs, k).fields;
        assert n in At(pubs, k).fields.Keys;
      }
      assert r.Keys == target.Keys;
    }
  }

  ghost predicate NoneVanished(pubs: seq<Snapshot>, lo: nat, hi: nat)
    requires lo <= hi <= |pubs|
  {
    forall k :: lo <= k <= hi ==> At(pubs, k).fields.Keys <= At(pubs, hi).fields.Keys
  }

  lemma NoneVanishedIfNonShrinking(pubs: seq<Snapshot>, lo: nat, hi: nat)
    requires NonShrinking(pubs) && lo <= hi <= |pubs|
    ensures NoneVanished(pubs, lo, hi)
  {
    forall k | lo <= k <= hi ensures At(pubs, k).fields.Keys <= At(pubs, hi).fields.Keys {
      if k > 0 { assert pubs[k - 1].fields.Keys <= pubs[hi - 1].fields.Keys; }
    }
  }

  // ---------------------------------------------------------------------
  // Reconnect
  // ---------------------------------------------------------------------

  function VersionOf(u: Update): nat { u.version }

  function After(since: nat): Update -> bool { (u: Update) => VersionOf(u) > since }

  /** Watch's initial updates, from the current snapshot and the window. */
  function Replay(current: Snapshot, window: seq<Update>, since: nat): seq<Update> {
    if current.fields == map[] then []
    else if since == 0 then [FullSnapshot(current.version, current)]
    else
      var oldest := if window == [] then 0 else window[0].version;
      var latest := if window == [] then 0 else window[|window| - 1].version;
      if oldest > 0 && since < oldest then
        [GapTooLarge(current.version, current), FullSnapshot(current.version, current)]
      else if since < latest then Filter(After(since), window)
      else []
  }

  function ApplyOne(f: Fields, u: Update): Fields {
    match u
    case FullSnapshot(_, s) => s.fields
    case GapTooLarge(_, s) => s.fields
    case Delta(_, _, d) => Patch(f, d)
  }

  function ApplyAll(f: Fields, us: seq<Update>): Fields {
    if us == [] then f else ApplyOne(ApplyAll(f, us[..|us| - 1]), us[|us| - 1])
  }

  /** The deltas of publications lo..hi. */
  function DeltaRun(pubs: seq<Snapshot>, lo: nat, hi: nat): (r: seq<Update>)
    requires lo <= hi <= |pubs|
    ensures |r| == hi - lo
  {
    if lo == hi then [] else DeltaRun(pubs, lo, hi - 1) + [DeltaOf(At(pubs, hi - 1), pubs[hi - 1])]
  }

  lemma {:induction false} DeltaRunAt(pubs: seq<Snapshot>, lo: nat, hi: nat, i: nat)
    requires lo <= i < hi <= |pubs|
    ensures DeltaRun(pubs, lo, hi)[i - lo] == DeltaOf(At(pubs, i), pubs[i])
    decreases hi
  {
    if i < hi - 1 { DeltaRunAt(pubs, lo, hi - 1, i); }
  }

  lemma DeltasSuffixAt(pubs: seq<Snapshot>, lo: nat, j: nat)
    requires Increasing(pubs) && lo + j < |pubs|
    ensures |Deltas(pubs)| == |pubs| && Deltas(pubs)[lo + j] == DeltaRun(pubs, lo, |pubs|)[j]
  {
    DeltasAt(pubs);
    DeltaRunAt(pubs, lo, |pubs|, lo + j);
  }

  lemma DeltasSuffix(pubs: seq<Snapshot>, lo: nat)
    requires Increasing(pubs) && lo <= |pubs| && |Deltas(pubs)| == |pubs|
    ensures Deltas(pubs)[lo..] == DeltaRun(pubs, lo, |pubs|)
  {
    SameElements(Deltas(pubs), lo, DeltaRun(pubs, lo, |pubs|)) by {
      forall j | 0 <= j < |pubs| - lo ensures Deltas(pubs)[lo + j] == DeltaRun(pubs, lo, |pubs|)[j] {
        DeltasSuffixAt(pubs, lo, j);
      }
    }
  }

  lemma SuffixOfSuffix<T>(s: seq<T>, a: nat, b: nat)
    requires a + b <= |s|
    ensures s[a..][b..] == s[a + b..]
  {
  }

  lemma SameElements<T>(s: seq<T>, lo: nat, r: seq<T>)
    requires lo <= |s| && |r| == |s| - lo
    requires forall j :: 0 <= j < |r| ==> s[lo + j] == r[j]
    ensures s[lo..] == r
  {
  }

  lemma {:induction false} ApplyDeltaRun(pubs: seq<Snapshot>, f: Fields, lo: nat, hi: nat)
    requires lo <= hi <= |pubs|
    ensures ApplyAll(f, DeltaRun(pubs, lo, hi)) == Patch(f, MergedFields(pubs, lo, hi))
    decreases hi
  {
    var us := DeltaRun(pubs, lo, hi);
    if lo < hi {
      assert us[..|us| - 1] == DeltaRun(pubs, lo, hi - 1);
      ApplyDeltaRun(pubs, f, lo, hi - 1);
      PatchAssoc(f, MergedFields(pubs, lo, hi - 1), DeltaOf(At(pubs, hi - 1), pubs[hi - 1]).delta);
    }
  }

  lemma RetainedReplay(current: Snapshot, w: seq<Update>, since: nat, k: nat)
    requires current.fields != map[] && since > 0 && 0 < k <= |w|
    requires forall j :: 0 <= j < k ==> w[j].version <= since
    requires forall j :: k <= j < |w| ==> w[j].version > since
    ensures Replay(current, w, since) == w[k..]
  {
    FilterSuffix(After(since), w, k);
    if k < |w| { assert w[|w| - 1].version > since; }
  }

  lemma WindowVersion(pubs: seq<Snapshot>, cap: nat, k: nat)
    requires Increasing(pubs) && |Deltas(pubs)| == |pubs| && k < |LastN(Deltas(pubs), cap)|
    ensures var w := LastN(Deltas(pubs), cap); w[k].version == pubs[|pubs| - |w| + k].version
  {
    DeltaAt(pubs, |pubs| - |LastN(Deltas(pubs), cap)| + k);
  }

  /** The window over a history: which publications it still covers. */
  lemma WindowOf(pubs: seq<Snapshot>, cap: nat)
    requires Increasing(pubs) && cap > 0 && pubs != []
    ensures |Deltas(pubs)| == |pubs|
    ensures var w := LastN(Deltas(pubs), cap);
      && w == Deltas(pubs)[|pubs| - |w|..] && w != []
      && forall k :: 0 <= k < |w| ==> w[k].version == pubs[|pubs| - |w| + k].version
  {
    DeltaAt(pubs, 0);
    var w := LastN(Deltas(pubs), cap);
    forall k | 0 <= k < |w| ensures w[k].version == pubs[|pubs| - |w| + k].version { WindowVersion(pubs, cap, k); }
  }

  /** Where the versions of a window lie relative to the one a client holds. */
  lemma WindowSplit(pubs: seq<Snapshot>, cap: nat, i: nat, w: seq<Update>)
    requires Increasing(pubs) && cap > 0 && i < |pubs|
    requires 0 < |w| <= |pubs| && |w| == (if |pubs| < cap then |pubs| else cap)
    requires forall k :: 0 <= k < |w| ==> w[k].version == pubs[|pubs| - |w| + k].version
    ensures i + cap < |pubs| ==> pubs[i].version < w[0].version
    ensures i + cap >= |pubs| ==> var k := i + 1 - (|pubs| - |w|);
      && 0 < k <= |w|
      && (forall j :: 0 <= j < k ==> w[j].version <= pubs[i].version)
      && (forall j :: k <= j < |w| ==> w[j].version > pubs[i].version)
  {
    var start := |pubs| - |w|;
    if i + cap >= |pubs| {
      var k := i + 1 - start;
      forall j | 0 <= j < k ensures w[j].version <= pubs[i].version {
        if start + j < i { assert pubs[start + j].version < pubs[i].version; }
      }
    }
  }

  lemma RetainedWindow(pubs: seq<Snapshot>, cap: nat, i: nat, w: seq<Update>)
    requires Increasing(pubs) && cap > 0 && i < |pubs| <= i + cap && Current(pubs).fields != map[]
    requires 0 < |w| <= |pubs| && |w| == (if |pubs| < cap then |pubs| else cap)
    requires forall k :: 0 <= k < |w| ==> w[k].version == pubs[|pubs| - |w| + k].version
    ensures 0 < i + 1 - (|pubs| - |w|) <= |w|
    ensures Replay(Current(pubs), w, pubs[i].version) == w[i + 1 - (|pubs| - |w|)..]
  {
    WindowSplit(pubs, cap, i, w);
    RetainedReplay(Current(pubs), w, pubs[i].version, i + 1 - (|pubs| - |w|));
  }

  lemma RetainedReplays(pubs: seq<Snapshot>, cap: nat, i: nat)
    requires Increasing(pubs) && cap > 0 && i < |pubs| <= i + cap && Current(pubs).fields != map[]
    ensures var w := LastN(Deltas(pubs), cap);
      0 < i + 1 - (|pubs| - |w|) <= |w| && ReplayTo(pubs, cap, i) == w[i + 1 - (|pubs| - |w|)..]
  {
    WindowOf(pubs, cap);
    var w := LastN(Deltas(pubs), cap);
    assert |w| == if |pubs| < cap then |pubs| else cap;
    RetainedWindow(pubs, cap, i, w);
  }

  lemma WindowTail(pubs: seq<Snapshot>, cap: nat, a: nat)
    requires Increasing(pubs) && |LastN(Deltas(pubs), cap)| <= |pubs|
    requires |pubs| - |LastN(Deltas(pubs), cap)| <= a <= |pubs|
    ensures |Deltas(pubs)| == |pubs|
    ensures var w := LastN(Deltas(pubs), cap); w[a - (|pubs| - |w|)..] == Deltas(pubs)[a..]
  {
    if pubs != [] { DeltaAt(pubs, 0); }
    var w := LastN(Deltas(pubs), cap);
    SuffixOfSuffix(Deltas(pubs), |pubs| - |w|, a - (|pubs| - |w|));
  }

  lemma RetainedShape(pubs: seq<Snapshot>, cap: nat, i: nat)
    requires Increasing(pubs) && cap > 0 && i < |pubs| <= i + cap && Current(pubs).fields != map[]
    ensures ReplayTo(pubs, cap, i) == DeltaRun(pubs, i + 1, |pubs|)
  {
    DeltaAt(pubs, i);
    RetainedReplays(pubs, cap, i);
    WindowTail(pubs, cap, i + 1);
    DeltasSuffix(pubs, i + 1);
  }

  function Current(pubs: seq<Snapshot>): Snapshot { At(pubs, |pubs|) }

  /** What a client that last saw publication `i` is sent on Watch. */
  function ReplayTo(pubs: seq<Snapshot>, cap: nat, i: nat): seq<Update>
    requires i < |pubs|
  {
    Replay(Current(pubs), LastN(Deltas(pubs), cap), pubs[i].version)
  }

  lemma EvictedShape(pubs: seq<Snapshot>, cap: nat, i: nat)
    requires Increasing(pubs) && cap > 0 && i + cap < |pubs| && Current(pubs).fields != map[]
    ensures ReplayTo(pubs, cap, i) == GapAndSnapshot(pubs)
  {
    WindowOf(pubs, cap);
    WindowSplit(pubs, cap, i, LastN(Deltas(pubs), cap));
  }

  function GapAndSnapshot(pubs: seq<Snapshot>): seq<Update> {
    [GapTooLarge(Current(pubs).version, Current(pubs)), FullSnapshot(Current(pubs).version, Current(pubs))]
  }

  /** What a reconnect is sent: nothing while the current snapshot has no fields; else the
      gap marker and the full snapshot for an evicted version, and the deltas that came
      after a retained one, in order. */
  lemma ReplayShape(pubs: seq<Snapshot>, cap: nat, i: nat)
    requires Increasing(pubs) && cap > 0 && i < |pubs|
    ensures ReplayTo(pubs, cap, i) ==
      if Current(pubs).fields == map[] then []
      else if i + cap < |pubs| then GapAndSnapshot(pubs)
      else DeltaRun(pubs, i + 1, |pubs|)
  {
    if Current(pubs).fields != map[] {
      if i + cap < |pubs| { EvictedShape(pubs, cap, i); } else { RetainedShape(pubs, cap, i); }
    }
  }

  /** A reconnect leads to the current snapshot exactly when: with an empty current
      snapshot, the client held no fields either; otherwise its version was evicted, or no
      field vanished since. */
  lemma ReconnectExact(pubs: seq<Snapshot>, cap: nat, i: nat)
    requires Increasing(pubs) && cap > 0 && i < |pubs|
    ensures ApplyAll(pubs[i].fields, ReplayTo(pubs, cap, i)) == Current(pubs).fields
            <==> if Current(pubs).fields == map[] then pubs[i].fields == map[]
                 else i + cap < |pubs| || NoneVanished(pubs, i + 1, |pubs|)
  {
    var f := pubs[i].fields;
    ReplayShape(pubs, cap, i);
    if Current(pubs).fields == map[] {
      assert ApplyAll(f, []) == f;
    } else if i + cap < |pubs| {
      SnapshotApplies(pubs, f);
    } else {
      DeltasApply(pubs, i);
    }
  }

  lemma SnapshotApplies(pubs: seq<Snapshot>, f: Fields)
    ensures ApplyAll(f, GapAndSnapshot(pubs)) == Current(pubs).fields
  {
    var r := GapAndSnapshot(pubs);
    assert ApplyAll(f, r) == ApplyOne(ApplyAll(f, r[..1]), r[1]);
  }

  lemma DeltasApply(pubs: seq<Snapshot>, i: nat)
    requires i < |pubs|
    ensures ApplyAll(pubs[i].fields, DeltaRun(pubs, i + 1, |pubs|)) == Current(pubs).fields
            <==> NoneVanished(pubs, i + 1, |pubs|)
  {
    ApplyDeltaRun(pubs, pubs[i].fields, i + 1, |pubs|);
    MergedExact(pubs, i + 1, |pubs|);
  }

  /** Reconnect is lossless from every published version, retained or evicted. */
  lemma ReconnectLossless(pubs: seq<Snapshot>, cap: nat, i: nat)
    requires Increasing(pubs) && NonShrinking(pubs) && cap > 0 && i < |pubs|
    ensures ApplyAll(pubs[i].fields, ReplayTo(pubs, cap, i)) == Current(pubs).fields
  {
    ReconnectExact(pubs, cap, i);
    assert pubs[i].fields.Keys <= pubs[|pubs| - 1].fields.Keys;
    NoneVanishedIfNonShrinking(pubs, i + 1, |pubs|);
  }

  /** Watch sends the replay into a channel of 16 before anyone can read it. It goes
      through exactly when the current snapshot is empty, the version was evicted, or at
      most 16 publications came since. */
  lemma ReplayFits(pubs: seq<Snapshot>, cap: nat, i: nat)
    requires Increasing(pubs) && cap > 0 && i < |pubs|
    ensures |ReplayTo(pubs, cap, i)| <= CHANNEL_CAP
            <==> Current(pubs).fields == map[] || i + cap < |pubs| || |pubs| - 1 - i <= CHANNEL_CAP
  {
    ReplayShape(pubs, cap, i);
  }
}
