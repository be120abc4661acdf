/** One subscription of the state channel: what a watcher can see, in every
    interleaving of publishing, flushing and receiving. */
module StateChannel {
  import opened Common
  import opened Ring
  import opened Projection

  /** `flying` holds the updates that a flush has taken and not yet sent. */
  datatype Sub = Sub(batched: bool, ch: seq<Update>, pending: Option<Update>, flying: seq<Update>, done: bool)

  predicate HasRoom(s: Sub) { !s.done && |s.ch| < CHANNEL_CAP }

  /** A non-blocking send: a full buffer drops the update. */
  function SendNow(s: Sub, u: Update): Sub {
    if HasRoom(s) then s.(ch := s.ch + [u]) else s
  }

  /** deliver */
  function Deliver(s: Sub, u: Update): Sub {
    if !s.batched || !u.Delta? then SendNow(s, u)
    else if s.done then s
    else s.(pending := Some(if s.pending.None? then u else Merge(s.pending.value, u)))
  }

  /** flushPending up to its unlock: the timer's update is in hand, the next delivery
      starts a new batch and a new timer. */
  function TakePending(s: Sub): Sub {
    if s.pending.None? || s.done then s
    else s.(pending := None, flying := s.flying + [s.pending.value])
  }

  /** A closed subscription with room leaves the choice to Go's select: `toDone`. */
  predicate Lands(s: Sub, toDone: bool) { |s.ch| < CHANNEL_CAP && !(s.done && toDone) }

  /** flushPending after its unlock, for the `k`-th of the flushes under way. */
  function SendFlying(s: Sub, k: nat, toDone: bool): Sub
    requires k < |s.flying|
  {
    var rest := s.(flying := s.flying[..k] + s.flying[k + 1..]);
    if Lands(s, toDone) then rest.(ch := rest.ch + [s.flying[k]]) else rest
  }

  // ---------------------------------------------------------------------
  // The watcher
  // ---------------------------------------------------------------------

  /** A watcher that applies a delta only onto the version it was made from. */
  datatype Client = Client(version: nat, fields: Fields, synced: bool)

  function Receive(c: Client, u: Update): Client {
    match u
    case FullSnapshot(_, s) => Client(s.version, s.fields, true)
    case GapTooLarge(_, s) => Client(s.version, s.fields, true)
    case Delta(v, pv, d) =>
      if c.synced && pv == c.version then Client(v, Patch(c.fields, d), true) else c.(synced := false)
  }

  /** `log` is everything that entered the buffer, `gaps[k]` whether updates were
      lost just before `log[k]`, `tail` the last version that entered, `lossy`
      whether an update was lost since. */
  datatype Channel = Channel(
    pubs: seq<Snapshot>, sub: Sub, client: Client,
    log: seq<Update>, gaps: seq<bool>, tail: nat, lossy: bool)

  datatype Step = Publish(snap: Snapshot) | FlushTake | FlushSend(k: nat, toDone: bool) | Recv | Close

  function Record(c: Channel, u: Update, accepted: bool): Channel {
    if accepted then c.(log := c.log + [u], gaps := c.gaps + [c.lossy], tail := u.version, lossy := false)
    else c.(lossy := true)
  }

  function Next(c: Channel, step: Step): Channel {
    match step
    case Publish(snap) =>
      if snap.version == 0 then c.(pubs := c.pubs + [snap])
      else
        var d := DeltaOf(Current(c.pubs), snap);
        var c' := if c.sub.batched && !c.sub.done then c else Record(c, d, HasRoom(c.sub));
        c'.(pubs := c.pubs + [snap], sub := Deliver(c.sub, d))
    case FlushTake => c.(sub := TakePending(c.sub))
    case FlushSend(k, toDone) =>
      if k >= |c.sub.flying| then c
      else Record(c, c.sub.flying[k], Lands(c.sub, toDone)).(sub := SendFlying(c.sub, k, toDone))
    case Recv =>
      if c.sub.ch == [] then c
      else c.(sub := c.sub.(ch := c.sub.ch[1..]), client := Receive(c.client, c.sub.ch[0]))
    case Close => c.(sub := c.sub.(done := true, pending := None))
  }

  // ---------------------------------------------------------------------
  // Invariant
  // ---------------------------------------------------------------------

  /** A delta that stands for publications lo+1..hi. */
  ghost predicate DeltaFor(pubs: seq<Snapshot>, u: Update, lo: nat, hi: nat) {
    && lo < hi <= |pubs|
    && u == Delta(At(pubs, hi).version, At(pubs, lo).version, MergedFields(pubs, lo, hi))
  }

  ghost predicate SnapshotFor(pubs: seq<Snapshot>, u: Update, k: nat) {
    k <= |pubs| && !u.Delta? && u.snapshot == At(pubs, k) && u.version == At(pubs, k).version
  }

  ghost predicate Faithful(pubs: seq<Snapshot>, u: Update) {
    (exists lo, hi :: DeltaFor(pubs, u, lo, hi)) || (exists k :: SnapshotFor(pubs, u, k))
  }

  /** `f` has every field of `g`, with its value. */
  ghost predicate Agrees(f: Fields, g: Fields) { forall n :: n in g ==> n in f && f[n] == g[n] }

  /** The client holds publication `k`, and at most vanished fields besides. */
  ghost predicate Holding(pubs: seq<Snapshot>, c: Client, k: nat) {
    && k <= |pubs| && c.version == At(pubs, k).version && Agrees(c.fields, At(pubs, k).fields)
    && (NonShrinking(pubs) ==> c.fields == At(pubs, k).fields)
  }

  ghost predicate PendingOk(c: Channel) {
    c.sub.pending.Some? ==>
      && c.sub.batched && !c.sub.done
      && exists lo :: DeltaFor(c.pubs, c.sub.pending.value, lo, |c.pubs|)
  }

  /** The version that what is still to come starts from: the next flush, or else the
      batch being gathered, or else the next publication. */
  function Gathering(c: Channel): nat {
    if c.sub.pending.Some? && c.sub.pending.value.Delta? then c.sub.pending.value.prevVersion
    else Current(c.pubs).version
  }

  function StartOf(us: seq<Update>, after: nat): nat {
    if us == [] || !us[0].Delta? then after else us[0].prevVersion
  }

  function Joint(c: Channel): nat { StartOf(c.sub.flying, Gathering(c)) }

  /** Flushes under way follow one another without a gap. */
  ghost predicate Chained(us: seq<Update>, after: nat) {
    us == [] ||
    (us[0].Delta? && us[0].prevVersion < us[0].version && us[0].version == StartOf(us[1..], after)
     && Chained(us[1..], after))
  }

  /** The version in force just before the k-th recorded update. */
  function VersionBefore(log: seq<Update>, k: nat, start: nat): nat
    requires k <= |log|
  {
    if k == 0 then start else log[k - 1].version
  }

  /** Each recorded update continues its predecessor exactly when nothing was lost between. */
  ghost predicate LogOk(log: seq<Update>, gaps: seq<bool>, start: nat) {
    && |gaps| == |log|
    && forall k :: 0 <= k < |log| ==>
         log[k].Delta? && (log[k].prevVersion == VersionBefore(log, k, start) <==> !gaps[k])
  }

  ghost predicate GapsShow(c: Channel, start: nat) {
    && LogOk(c.log, c.gaps, start)
    && Chained(c.sub.flying, Gathering(c))
    && c.tail == VersionBefore(c.log, |c.log|, start) <= Joint(c)
    && (Joint(c) == c.tail <==> !c.lossy)
  }

  ghost predicate ChannelOk(c: Channel) {
    && Increasing(c.pubs)
    && PendingOk(c)
    && (forall u :: u in c.sub.ch || u in c.sub.flying ==> Faithful(c.pubs, u))
    && (c.sub.flying != [] ==> c.sub.batched)
    && (c.client.synced ==> exists k :: Holding(c.pubs, c.client, k))
  }

  // ---------------------------------------------------------------------
  // Later publications do not change what an update stands for
  // ---------------------------------------------------------------------

  lemma {:induction false} MergedFrame(pubs: seq<Snapshot>, x: Snapshot, lo: nat, hi: nat)
    requires lo <= hi <= |pubs|
    ensures MergedFields(pubs + [x], lo, hi) == MergedFields(pubs, lo, hi)
    decreases hi
  {
    if lo < hi {
      MergedFrame(pubs, x, lo, hi - 1);
      assert At(pubs + [x], hi - 1) == At(pubs, hi - 1) && (pubs + [x])[hi - 1] == pubs[hi - 1];
    }
  }

  lemma DeltaForFrame(pubs: seq<Snapshot>, x: Snapshot, u: Update, lo: nat, hi: nat)
    requires DeltaFor(pubs, u, lo, hi)
    ensures DeltaFor(pubs + [x], u, lo, hi)
  {
    MergedFrame(pubs, x, lo, hi);
    assert At(pubs + [x], lo) == At(pubs, lo) && At(pubs + [x], hi) == At(pubs, hi);
  }

  lemma FaithfulFrame(pubs: seq<Snapshot>, x: Snapshot, u: Update)
    requires Faithful(pubs, u)
    ensures Faithful(pubs + [x], u)
  {
    if exists lo, hi :: DeltaFor(pubs, u, lo, hi) {
      var lo, hi :| DeltaFor(pubs, u, lo, hi);
      DeltaForFrame(pubs, x, u, lo, hi);
    } else {
      var k :| SnapshotFor(pubs, u, k);
      assert SnapshotFor(pubs + [x], u, k);
    }
  }

  lemma SingleDelta(pubs: seq<Snapshot>, x: Snapshot)
    ensures DeltaFor(pubs + [x], DeltaOf(Current(pubs), x), |pubs|, |pubs| + 1)
  {
    var q := pubs + [x];
    assert At(q, |pubs|) == At(pubs, |pubs|) && At(q, |pubs| + 1) == x;
    assert MergedFields(q, |pubs|, |pubs| + 1) == MergedFields(q, |pubs|, |pubs|) + DeltaOf(At(q, |pubs|), x).delta;
  }

  lemma MergedDelta(pubs: seq<Snapshot>, x: Snapshot, u: Update, lo: nat)
    requires DeltaFor(pubs, u, lo, |pubs|)
    ensures DeltaFor(pubs + [x], Merge(u, DeltaOf(Current(pubs), x)), lo, |pubs| + 1)
  {
    var q := pubs + [x];
    MergedFrame(pubs, x, lo, |pubs|);
    assert At(q, |pubs|) == At(pubs, |pubs|) && At(q, |pubs| + 1) == x && At(q, lo) == At(pubs, lo);
  }

  lemma VersionIsIndex(pubs: seq<Snapshot>, a: nat, b: nat)
    requires Increasing(pubs) && a <= |pubs| && b <= |pubs|
    ensures At(pubs, a).version == At(pubs, b).version ==> a == b
    ensures a < b ==> At(pubs, a).version < At(pubs, b).version
  {
  }

  lemma PatchKeepsAgreement(pubs: seq<Snapshot>, f: Fields, lo: nat, hi: nat)
    requires lo <= hi <= |pubs| && Agrees(f, At(pubs, lo).fields)
    ensures Agrees(Patch(f, MergedFields(pubs, lo, hi)), At(pubs, hi).fields)
  {
    MergedAgrees(pubs, lo, hi);
    var m, r := MergedFields(pubs, lo, hi), Patch(At(pubs, lo).fields, MergedFields(pubs, lo, hi));
    forall n | n in At(pubs, hi).fields
      ensures n in Patch(f, m) && Patch(f, m)[n] == At(pubs, hi).fields[n]
    {
      assert n in r && r[n] == At(pubs, hi).fields[n];
    }
  }

  /** A faithful update takes a synced client from one published state to another. */
  lemma ReceiveHolds(pubs: seq<Snapshot>, c: Client, u: Update)
    requires Increasing(pubs) && Faithful(pubs, u)
    requires c.synced ==> exists k :: Holding(pubs, c, k)
    ensures Receive(c, u).synced ==> exists k :: Holding(pubs, Receive(c, u), k)
  {
    if u.Delta? {
      var lo, hi :| DeltaFor(pubs, u, lo, hi);
      if c.synced && u.prevVersion == c.version {
        var k :| Holding(pubs, c, k);
        VersionIsIndex(pubs, k, lo);
        PatchKeepsAgreement(pubs, c.fields, lo, hi);
        if NonShrinking(pubs) {
          NoneVanishedIfNonShrinking(pubs, lo, hi);
          MergedExact(pubs, lo, hi);
        }
        assert Holding(pubs, Receive(c, u), hi);
      }
    } else {
      var k :| SnapshotFor(pubs, u, k);
      assert Holding(pubs, Receive(c, u), k);
    }
  }

  lemma HoldingFrame(pubs: seq<Snapshot>, x: Snapshot, c: Client, k: nat)
    requires Holding(pubs, c, k)
    ensures Holding(pubs + [x], c, k)
  {
    var q := pubs + [x];
    assert At(q, k) == At(pubs, k);
    if NonShrinking(q) {
      forall i, j | 0 <= i <= j < |pubs| ensures pubs[i].fields.Keys <= pubs[j].fields.Keys {
        assert q[i].fields.Keys <= q[j].fields.Keys;
      }
    }
  }

  ghost predicate StepGood(c: Channel, step: Step) { step.Publish? ==> Increasing(c.pubs + [step.snap]) }

  lemma PublishOk(c: Channel, snap: Snapshot)
    requires ChannelOk(c) && StepGood(c, Publish(snap))
    ensures ChannelOk(Next(c, Publish(snap)))
  {
    var c' := Next(c, Publish(snap));
    var d := DeltaOf(Current(c.pubs), snap);
    assert c.pubs + [snap] == c'.pubs && (c.pubs + [snap])[|c.pubs|] == snap;
    SingleDelta(c.pubs, snap);
    forall u | u in c'.sub.ch || u in c'.sub.flying ensures Faithful(c'.pubs, u) {
      if u in c.sub.ch || u in c.sub.flying { FaithfulFrame(c.pubs, snap, u); } else { assert u == d; }
    }
    if c.sub.pending.Some? {
      var lo :| DeltaFor(c.pubs, c.sub.pending.value, lo, |c.pubs|);
      MergedDelta(c.pubs, snap, c.sub.pending.value, lo);
    }
    if c.client.synced {
      var k :| Holding(c.pubs, c.client, k);
      HoldingFrame(c.pubs, snap, c.client, k);
    }
  }

  lemma StepOk(c: Channel, step: Step)
    requires ChannelOk(c) && StepGood(c, step)
    ensures ChannelOk(Next(c, step))
  {
    match step
    case Publish(snap) => PublishOk(c, snap);
    case FlushTake =>
      if c.sub.pending.Some? {
        var lo :| DeltaFor(c.pubs, c.sub.pending.value, lo, |c.pubs|);
        assert Faithful(c.pubs, c.sub.pending.value);
      }
    case FlushSend(k, toDone) =>
    case Recv =>
      if c.sub.ch != [] {
        assert c.sub.ch[0] in c.sub.ch;
        ReceiveHolds(c.pubs, c.client, c.sub.ch[0]);
        assert forall u :: u in c.sub.ch[1..] ==> u in c.sub.ch;
      }
    case Close =>
  }

  ghost predicate GoodRun(c: Channel, steps: seq<Step>)
    decreases |steps|
  {
    steps == [] ||
    (StepGood(c, steps[0]) && GoodRun(Next(c, steps[0]), steps[1..]))
  }

  function Run(c: Channel, steps: seq<Step>): Channel
    decreases |steps|
  {
    if steps == [] then c else Run(Next(c, steps[0]), steps[1..])
  }

  /** Every update a watcher can still receive, live, replayed or merged, is a
      correct patch or a published snapshot; and a watcher that has seen no version
      mismatch holds every field of a published snapshot, and exactly that snapshot as
      long as no field vanishes. */
  lemma {:induction false} EveryRunFaithful(c: Channel, steps: seq<Step>)
    requires ChannelOk(c) && GoodRun(c, steps)
    ensures ChannelOk(Run(c, steps))
    decreases |steps|
  {
    if steps != [] {
      StepOk(c, steps[0]);
      EveryRunFaithful(Next(c, steps[0]), steps[1..]);
    }
  }

  /** Reading `Faithful` out: a delta patches the snapshot at PrevVersion into the one at
      Version, if and only if no field vanished on the way. */
  lemma FaithfulPatches(pubs: seq<Snapshot>, u: Update, a: nat, b: nat)
    requires Increasing(pubs) && Faithful(pubs, u) && u.Delta?
    requires a <= |pubs| && b <= |pubs| && At(pubs, a).version == u.prevVersion && At(pubs, b).version == u.version
    ensures a < b
    ensures Patch(At(pubs, a).fields, u.delta) == At(pubs, b).fields <==> NoneVanished(pubs, a, b)
  {
    var lo, hi :| DeltaFor(pubs, u, lo, hi);
    VersionIsIndex(pubs, a, lo);
    VersionIsIndex(pubs, b, hi);
    MergedExact(pubs, lo, hi);
  }

  // ---------------------------------------------------------------------
  // Losses show
  // ---------------------------------------------------------------------

  lemma LogAppend(log: seq<Update>, gaps: seq<bool>, start: nat, u: Update, gap: bool)
    requires LogOk(log, gaps, start) && u.Delta?
    requires u.prevVersion == VersionBefore(log, |log|, start) <==> !gap
    ensures LogOk(log + [u], gaps + [gap], start)
  {
    var log', gaps' := log + [u], gaps + [gap];
    forall k | 0 <= k < |log'|
      ensures log'[k].Delta? && (log'[k].prevVersion == VersionBefore(log', k, start) <==> !gaps'[k])
    {
      assert VersionBefore(log', k, start) == VersionBefore(log, k, start);
      if k < |log| { assert log[k] == log'[k]; }
    }
  }

  lemma GapsPublish(c: Channel, snap: Snapshot, start: nat)
    requires ChannelOk(c) && StepGood(c, Publish(snap)) && GapsShow(c, start) && !c.sub.done
    ensures GapsShow(Next(c, Publish(snap)), start)
  {
    var c' := Next(c, Publish(snap));
    assert (c.pubs + [snap])[|c.pubs|] == snap && Current(c'.pubs) == snap;
    VersionIsIndex(c.pubs + [snap], |c.pubs|, |c.pubs| + 1);
    assert At(c'.pubs, |c.pubs|) == Current(c.pubs);
    if c.sub.batched {
      assert Gathering(c') == Gathering(c);
    } else if HasRoom(c.sub) {
      LogAppend(c.log, c.gaps, start, DeltaOf(Current(c.pubs), snap), c.lossy);
    }
  }

  lemma {:induction false} ChainedAppend(us: seq<Update>, u: Update, after: nat)
    requires u.Delta? && u.prevVersion < u.version && Chained(us, u.prevVersion) && u.version == after
    ensures Chained(us + [u], after) && StartOf(us + [u], after) == StartOf(us, u.prevVersion)
  {
    if us == [] {
      assert us + [u] == [u] && [u][1..] == [];
    } else {
      assert (us + [u])[1..] == us[1..] + [u];
      ChainedAppend(us[1..], u, after);
    }
  }

  // ---- flushes in turn ----

  /** A flush under way is sent in the order it was taken. */
  predicate TurnAt(c: Channel, step: Step) { step.FlushSend? && step.k < |c.sub.flying| ==> step.k == 0 }

  ghost predicate InTurn(c: Channel, steps: seq<Step>)
    decreases |steps|
  {
    steps == [] || (TurnAt(c, steps[0]) && InTurn(Next(c, steps[0]), steps[1..]))
  }

  predicate StaysOpen(steps: seq<Step>) { forall s <- steps :: !s.Close? }

  lemma GapsStep(c: Channel, step: Step, start: nat)
    requires ChannelOk(c) && StepGood(c, step) && GapsShow(c, start) && !c.sub.done
    requires !step.Close? && TurnAt(c, step)
    ensures GapsShow(Next(c, step), start)
  {
    match step
    case Publish(snap) => GapsPublish(c, snap, start);
    case FlushTake =>
      if c.sub.pending.Some? {
        var lo :| DeltaFor(c.pubs, c.sub.pending.value, lo, |c.pubs|);
        VersionIsIndex(c.pubs, lo, |c.pubs|);
        ChainedAppend(c.sub.flying, c.sub.pending.value, Current(c.pubs).version);
      }
    case FlushSend(k, toDone) =>
      if k < |c.sub.flying| {
        assert c.sub.flying[..0] + c.sub.flying[1..] == c.sub.flying[1..];
        LogAppend(c.log, c.gaps, start, c.sub.flying[0], c.lossy);
      }
    case Recv =>
  }

  /** In every run of an open subscription whose flushes are sent in turn - an unbatched
      one has none - an update continues the one before it in the stream exactly when
      nothing was dropped between them. */
  lemma {:induction false} EveryLossShows(c: Channel, steps: seq<Step>, start: nat)
    requires ChannelOk(c) && GoodRun(c, steps) && GapsShow(c, start) && !c.sub.done
    requires StaysOpen(steps) && InTurn(c, steps)
    ensures GapsShow(Run(c, steps), start)
    decreases |steps|
  {
    if steps != [] {
      assert !steps[0].Close?;
      StepOk(c, steps[0]);
      GapsStep(c, steps[0], start);
      EveryLossShows(Next(c, steps[0]), steps[1..], start);
    }
  }

  lemma UnbatchedInTurn(c: Channel, steps: seq<Step>)
    requires ChannelOk(c) && GoodRun(c, steps) && !c.sub.batched
    ensures InTurn(c, steps)
    decreases |steps|
  {
    if steps != [] {
      StepOk(c, steps[0]);
      UnbatchedInTurn(Next(c, steps[0]), steps[1..]);
    }
  }

  // ---- flushes out of turn ----

  lemma {:induction false} ChainedLater(us: seq<Update>, after: nat, k: nat)
    requires Chained(us, after) && 0 < k < |us|
    ensures us[k].Delta? && us[k].prevVersion >= us[0].version > us[0].prevVersion
    decreases |us|
  {
    if k > 1 { ChainedLater(us[1..], after, k - 1); }
    assert us[1..] != [] && Chained(us[1..], after);
  }

  lemma LogPrefix(log: seq<Update>, gaps: seq<bool>, start: nat, u: Update, gap: bool)
    requires |log| == |gaps| && LogOk(log + [u], gaps + [gap], start)
    ensures LogOk(log, gaps, start) && u.Delta? && (u.prevVersion == VersionBefore(log, |log|, start) <==> !gap)
  {
    var log', gaps' := log + [u], gaps + [gap];
    forall k | 0 <= k < |log|
      ensures log[k].Delta? && (log[k].prevVersion == VersionBefore(log, k, start) <==> !gaps[k])
    {
      assert log'[k] == log[k] && VersionBefore(log', k, start) == VersionBefore(log, k, start);
    }
    assert log'[|log|] == u && VersionBefore(log', |log|, start) == VersionBefore(log, |log|, start);
  }

  /** With nothing lost so far, sending the k-th of any number of flushes under way makes a
      false mismatch if and only if k is not the first. */
  lemma MismatchIffOutOfTurn(c: Channel, start: nat, k: nat, toDone: bool)
    requires GapsShow(c, start) && !c.lossy && k < |c.sub.flying| && Lands(c.sub, toDone)
    ensures var c' := Next(c, FlushSend(k, toDone));
      |c'.log| == |c'.gaps| && (LogOk(c'.log, c'.gaps, start) <==> k == 0)
  {
    var u := c.sub.flying[k];
    if k == 0 {
      LogAppend(c.log, c.gaps, start, u, false);
    } else {
      ChainedLater(c.sub.flying, Gathering(c), k);
      if LogOk(c.log + [u], c.gaps + [false], start) { LogPrefix(c.log, c.gaps, start, u, false); }
    }
  }

  /** `k` is the publication in force at version `v`. */
  ghost predicate InForce(pubs: seq<Snapshot>, k: nat, v: nat) { k <= |pubs| && At(pubs, k).version == v }

  /** What every step keeps, whatever is dropped and in whatever order flushes are sent:
      `tail` is the version at which the last update that entered ends. */
  ghost predicate TailOk(c: Channel, start: nat) {
    && |c.gaps| == |c.log| && c.tail == VersionBefore(c.log, |c.log|, start)
    && exists k :: InForce(c.pubs, k, c.tail)
  }

  lemma FaithfulEnds(pubs: seq<Snapshot>, u: Update) returns (k: nat)
    requires Faithful(pubs, u)
    ensures InForce(pubs, k, u.version)
  {
    if lo, hi :| DeltaFor(pubs, u, lo, hi) { k := hi; } else { k :| SnapshotFor(pubs, u, k); }
  }

  lemma TailStep(c: Channel, step: Step, start: nat)
    requires ChannelOk(c) && TailOk(c, start)
    ensures TailOk(Next(c, step), start)
  {
    var c' := Next(c, step);
    var k :| InForce(c.pubs, k, c.tail);
    match step
    case Publish(snap) =>
      InForceFrame(c.pubs, snap, k, c.tail);
    case FlushSend(i, _) =>
      if i < |c.sub.flying| { var hi := FaithfulEnds(c.pubs, c.sub.flying[i]); }
    case _ =>
  }

  lemma InForceFrame(pubs: seq<Snapshot>, x: Snapshot, k: nat, v: nat)
    requires InForce(pubs, k, v)
    ensures InForce(pubs + [x], k, v) && InForce(pubs + [x], |pubs| + 1, x.version)
  {
    assert At(pubs + [x], k) == At(pubs, k);
  }

  lemma {:induction false} EveryRunTail(c: Channel, steps: seq<Step>, start: nat)
    requires ChannelOk(c) && GoodRun(c, steps) && TailOk(c, start)
    ensures ChannelOk(Run(c, steps)) && TailOk(Run(c, steps), start)
    decreases |steps|
  {
    if steps != [] {
      StepOk(c, steps[0]);
      TailStep(c, steps[0], start);
      EveryRunTail(Next(c, steps[0]), steps[1..], start);
    }
  }

  /** In every run, with drops and out of turn: a flush that gets through continues the
      update before it if and only if the publication it starts from is the one at which
      the last update that entered the buffer ends. */
  lemma EveryFlushMatchesIff(
    c: Channel, steps: seq<Step>, start: nat, k: nat, toDone: bool, lo: nat, hi: nat)
    requires ChannelOk(c) && GoodRun(c, steps) && TailOk(c, start)
    requires k < |Run(c, steps).sub.flying| && Lands(Run(c, steps).sub, toDone)
    requires DeltaFor(Run(c, steps).pubs, Run(c, steps).sub.flying[k], lo, hi)
    ensures var c1 := Run(c, steps);
      var c2, n := Next(c1, FlushSend(k, toDone)), |c1.log|;
      && |c2.log| == n + 1 && c2.log[n] == c1.sub.flying[k]
      && (c1.sub.flying[k].prevVersion == VersionBefore(c2.log, n, start) <==> InForce(c1.pubs, lo, c1.tail))
      && exists last :: InForce(c1.pubs, last, c1.tail) && forall m :: InForce(c1.pubs, m, c1.tail) ==> m == last
  {
    var c1 := Run(c, steps);
    EveryRunTail(c, steps, start);
    var last :| InForce(c1.pubs, last, c1.tail);
    forall m | InForce(c1.pubs, m, c1.tail) ensures m == last { VersionIsIndex(c1.pubs, m, last); }
    assert (c1.log + [c1.sub.flying[k]])[..|c1.log|] == c1.log;
  }

  /** The step drops an update on a full buffer. */
  predicate Drops(c: Channel, step: Step) {
    match step
    case Publish(snap) => snap.version > 0 && !c.sub.batched && !HasRoom(c.sub)
    case FlushSend(k, toDone) => k < |c.sub.flying| && !Lands(c.sub, toDone)
    case _ => false
  }

  ghost predicate NothingDropped(c: Channel, steps: seq<Step>)
    decreases |steps|
  {
    steps == [] || (!Drops(c, steps[0]) && NothingDropped(Next(c, steps[0]), steps[1..]))
  }

  lemma {:induction false} BrokenLogStays(c: Channel, steps: seq<Step>, start: nat)
    requires |c.log| == |c.gaps| && !LogOk(c.log, c.gaps, start)
    ensures !LogOk(Run(c, steps).log, Run(c, steps).gaps, start)
    decreases |steps|
  {
    if steps != [] {
      BrokenStep(c, steps[0], start);
      BrokenLogStays(Next(c, steps[0]), steps[1..], start);
    }
  }

  lemma BrokenStep(c: Channel, step: Step, start: nat)
    requires |c.log| == |c.gaps| && !LogOk(c.log, c.gaps, start)
    ensures var c' := Next(c, step); |c'.log| == |c'.gaps| && !LogOk(c'.log, c'.gaps, start)
  {
    var c' := Next(c, step);
    if |c'.log| > |c.log| {
      var u := c'.log[|c.log|];
      assert c'.log == c.log + [u] && c'.gaps == c.gaps + [c.lossy];
      if LogOk(c'.log, c'.gaps, start) { LogPrefix(c.log, c.gaps, start, u, c.lossy); }
    } else {
      assert c'.log == c.log && c'.gaps == c.gaps;
    }
  }

  /** In every run of an open subscription that drops nothing: every update continues the
      one before it if and only if every flush was sent in turn. */
  lemma {:induction false} FalseMismatchIffOutOfTurn(c: Channel, steps: seq<Step>, start: nat)
    requires ChannelOk(c) && GoodRun(c, steps) && GapsShow(c, start) && !c.sub.done && !c.lossy
    requires StaysOpen(steps) && NothingDropped(c, steps)
    ensures LogOk(Run(c, steps).log, Run(c, steps).gaps, start) <==> InTurn(c, steps)
    decreases |steps|
  {
    if steps != [] {
      var c', rest := Next(c, steps[0]), steps[1..];
      assert !steps[0].Close?;
      StepOk(c, steps[0]);
      if TurnAt(c, steps[0]) {
        GapsStep(c, steps[0], start);
        FalseMismatchIffOutOfTurn(c', rest, start);
      } else {
        MismatchIffOutOfTurn(c, start, steps[0].k, steps[0].toDone);
        BrokenLogStays(c', rest, start);
      }
    }
  }

  /** Two publications and two timers. */
  function Gathered(c: Channel, x: Snapshot): Channel { Next(Next(c, Publish(x)), FlushTake) }

  function OneFlush(a: Snapshot): Channel { Gathered(PlainWatch([], 64, true), a) }

  function TwoFlushes(a: Snapshot, b: Snapshot): Channel { Gathered(OneFlush(a), b) }

  lemma OneUnderWay(a: Snapshot)
    requires 0 < a.version
    ensures var c := OneFlush(a);
      && ChannelOk(c) && GapsShow(c, 0) && !c.lossy && !c.sub.done && c.sub.batched
      && c.pubs == [a] && |c.sub.flying| == 1 && c.gaps == [] && c.sub.ch == [] && c.sub.pending.None?
  {
    PlainWatchOk([], 64, true);
    assert [] + [a] == [a];
    GatherAndTake(PlainWatch([], 64, true), a);
  }

  lemma TwoUnderWay(a: Snapshot, b: Snapshot)
    requires 0 < a.version < b.version
    ensures var c := TwoFlushes(a, b);
      GapsShow(c, 0) && !c.lossy && !c.sub.done && |c.sub.flying| == 2 && c.sub.ch == [] && c.gaps == []
  {
    OneUnderWay(a);
    IncreasingPair(a, b);
    GatherAndTake(OneFlush(a), b);
  }

  lemma IncreasingPair(a: Snapshot, b: Snapshot)
    requires 0 < a.version < b.version
    ensures Increasing([a] + [b])
  {
    assert [a] + [b] == [a, b];
  }

  /** A publication on an idle batch, and the timer that takes it. */
  lemma GatherAndTake(c: Channel, x: Snapshot)
    requires ChannelOk(c) && StepGood(c, Publish(x)) && GapsShow(c, 0) && x.version > 0
    requires c.sub.batched && !c.sub.done && c.sub.pending.None?
    ensures var c' := Gathered(c, x);
      && ChannelOk(c') && GapsShow(c', 0) && c'.lossy == c.lossy && !c'.sub.done && c'.sub.batched
      && c'.pubs == c.pubs + [x] && |c'.sub.flying| == |c.sub.flying| + 1 && c'.sub.ch == c.sub.ch
      && c'.sub.pending.None? && c'.gaps == c.gaps
  {
    var c1 := Next(c, Publish(x));
    StepOk(c, Publish(x));
    GapsStep(c, Publish(x), 0);
    StepOk(c1, FlushTake);
    GapsStep(c1, FlushTake, 0);
  }

  /** So a second flush can be sent first: nothing is dropped, and it mismatches. */
  lemma FlushesOvertake(a: Snapshot, b: Snapshot)
    requires 0 < a.version < b.version
    ensures var c := Next(TwoFlushes(a, b), FlushSend(1, false)); c.gaps == [false] && !LogOk(c.log, c.gaps, 0)
  {
    TwoUnderWay(a, b);
    MismatchIffOutOfTurn(TwoFlushes(a, b), 0, 1, false);
  }

  // ---------------------------------------------------------------------
  // Losses show to the watcher
  // ---------------------------------------------------------------------

  /** Updates of the replay that the watcher has yet to read. */
  function Replaying(c: Channel): nat { if |c.sub.ch| > |c.log| then |c.sub.ch| - |c.log| else 0 }

  function Follow(c: Client, us: seq<Update>): Client
    decreases |us|
  {
    if us == [] then c else Follow(Receive(c, us[0]), us[1..])
  }

  /** None of the first `n` recorded updates follows a drop. */
  ghost predicate NoDropBefore(gaps: seq<bool>, n: nat) { forall i :: 0 <= i < n && i < |gaps| ==> !gaps[i] }

  /** The replay leads to `start`; from then on the watcher is synced if and only if no
      update it has passed follows a drop. */
  ghost predicate SyncShows(c: Channel, start: nat) {
    if Replaying(c) > 0 then InReplay(c, start, Replaying(c)) else InStream(c, start, |c.log| - |c.sub.ch|)
  }

  ghost predicate InReplay(c: Channel, start: nat, r: nat) {
    && r <= |c.sub.ch| && c.sub.ch[r..] == c.log
    && Follow(c.client, c.sub.ch[..r]).synced && Follow(c.client, c.sub.ch[..r]).version == start
  }

  ghost predicate InStream(c: Channel, start: nat, passed: nat) {
    && passed <= |c.log| && c.sub.ch == c.log[passed..]
    && (c.client.synced <==> NoDropBefore(c.gaps, passed))
    && (c.client.synced ==> c.client.version == VersionBefore(c.log, passed, start))
  }

  lemma SyncAppend(c: Channel, c': Channel, u: Update, gap: bool, start: nat)
    requires SyncShows(c, start) && |c.log| == |c.gaps|
    requires c'.client == c.client && c'.sub.ch == c.sub.ch + [u]
    requires c'.log == c.log + [u] && c'.gaps == c.gaps + [gap]
    ensures SyncShows(c', start)
  {
    var r := Replaying(c);
    if r > 0 {
      assert c'.sub.ch[r..] == c.sub.ch[r..] + [u] && c'.sub.ch[..r] == c.sub.ch[..r];
    } else {
      var passed := |c.log| - |c.sub.ch|;
      assert c'.log[passed..] == c.log[passed..] + [u];
      assert NoDropBefore(c'.gaps, passed) == NoDropBefore(c.gaps, passed) by {
        assert forall i :: 0 <= i < passed ==> c'.gaps[i] == c.gaps[i];
      }
      assert VersionBefore(c'.log, passed, start) == VersionBefore(c.log, passed, start);
    }
  }

  lemma RecvInReplay(c: Channel, start: nat, r: nat)
    requires InReplay(c, start, r) && r > 0
    ensures InReplay(Next(c, Recv), start, r - 1)
  {
    var rest := c.sub.ch[1..];
    assert rest[r - 1..] == c.sub.ch[r..] && c.sub.ch[..r][1..] == rest[..r - 1];
  }

  lemma ReplayEnds(c: Channel, start: nat)
    requires InReplay(c, start, 0)
    ensures InStream(c, start, 0)
  {
    assert c.sub.ch[..0] == [] && c.sub.ch[0..] == c.sub.ch && c.log[0..] == c.log;
  }

  lemma RecvInStream(c: Channel, start: nat, passed: nat)
    requires InStream(c, start, passed) && LogOk(c.log, c.gaps, start) && c.sub.ch != []
    ensures InStream(Next(c, Recv), start, passed + 1)
  {
    assert c.sub.ch[0] == c.log[passed] && c.sub.ch[1..] == c.log[passed + 1..];
    assert NoDropBefore(c.gaps, passed + 1) <==> NoDropBefore(c.gaps, passed) && !c.gaps[passed];
  }

  lemma SyncRecv(c: Channel, start: nat)
    requires SyncShows(c, start) && LogOk(c.log, c.gaps, start) && c.sub.ch != []
    ensures SyncShows(Next(c, Recv), start)
  {
    var r := Replaying(c);
    if r > 0 {
      RecvInReplay(c, start, r);
      if r == 1 { ReplayEnds(Next(c, Recv), start); }
    } else {
      RecvInStream(c, start, |c.log| - |c.sub.ch|);
    }
  }

  /** What enters the buffer is what is recorded. */
  lemma BufferIsLogged(c: Channel, step: Step) returns (logged: bool)
    requires !step.Recv? && !step.Close? && !c.sub.done
    ensures var c' := Next(c, step);
      && c'.client == c.client
      && (if logged then
            && |c'.log| == |c.log| + 1 && c'.log == c.log + [c'.log[|c.log|]]
            && c'.gaps == c.gaps + [c.lossy] && c'.sub.ch == c.sub.ch + [c'.log[|c.log|]]
          else c'.log == c.log && c'.gaps == c.gaps && c'.sub.ch == c.sub.ch)
  {
    match step
    case Publish(snap) => logged := snap.version > 0 && !c.sub.batched && HasRoom(c.sub);
    case FlushTake => logged := false;
    case FlushSend(k, toDone) => logged := k < |c.sub.flying| && Lands(c.sub, toDone);
  }

  lemma SyncStep(c: Channel, step: Step, start: nat)
    requires GapsShow(c, start) && SyncShows(c, start) && !c.sub.done && !step.Close?
    ensures SyncShows(Next(c, step), start)
  {
    if step.Recv? {
      if c.sub.ch != [] { SyncRecv(c, start); }
    } else {
      var c' := Next(c, step);
      var logged := BufferIsLogged(c, step);
      if logged { SyncAppend(c, c', c'.log[|c.log|], c.lossy, start); }
    }
  }

  ghost predicate Noticing(c: Channel, start: nat) {
    ChannelOk(c) && GapsShow(c, start) && SyncShows(c, start) && !c.sub.done
  }

  lemma StepNotices(c: Channel, step: Step, start: nat)
    requires Noticing(c, start) && StepGood(c, step) && !step.Close? && TurnAt(c, step)
    ensures Noticing(Next(c, step), start)
  {
    StepOk(c, step);
    GapsStep(c, step, start);
    SyncStep(c, step, start);
  }

  /** In every such run, once the replay is read, the watcher is synced if and only if no
      update it has passed follows a drop. */
  lemma {:induction false} EveryWatcherNotices(c: Channel, steps: seq<Step>, start: nat)
    requires Noticing(c, start) && GoodRun(c, steps) && StaysOpen(steps) && InTurn(c, steps)
    ensures Noticing(Run(c, steps), start)
    decreases |steps|
  {
    if steps != [] {
      assert !steps[0].Close?;
      StepNotices(c, steps[0], start);
      EveryWatcherNotices(Next(c, steps[0]), steps[1..], start);
    }
  }

  /** A watcher that starts at another version than the store sees a mismatch first of all,
      although nothing was dropped. */
  lemma StaleStartMismatches(c: Channel, snap: Snapshot)
    requires c.sub.ch == [] && c.log == [] && c.gaps == [] && !c.lossy && !c.sub.batched && !c.sub.done
    requires snap.version > 0 && c.client.version != Current(c.pubs).version
    ensures var c' := Next(Next(c, Publish(snap)), Recv);
      c'.gaps == [false] && c'.sub.ch == [] && !c'.client.synced
  {
    var c1 := Next(c, Publish(snap));
    assert c1.sub.ch == [DeltaOf(Current(c.pubs), snap)] && c1.gaps == [false];
  }

  // ---------------------------------------------------------------------
  // What gets through
  // ---------------------------------------------------------------------

  /** On an unbatched subscription a publication reaches the channel and the log if and only
      if the subscription is open and fewer than 16 updates are unread. */
  lemma PublicationGetsThrough(c: Channel, snap: Snapshot)
    requires !c.sub.batched && snap.version > 0
    ensures var c', d := Next(c, Publish(snap)), DeltaOf(Current(c.pubs), snap);
      if !c.sub.done && |c.sub.ch| < 16
      then c'.sub.ch == c.sub.ch + [d] && c'.log == c.log + [d] && c'.gaps == c.gaps + [c.lossy] && !c'.lossy
      else c'.sub.ch == c.sub.ch && c'.log == c.log && c'.lossy
  {
  }

  /** The same for a flush that is sent; a closed subscription may still take it. */
  lemma FlushGetsThrough(c: Channel, k: nat, toDone: bool)
    requires k < |c.sub.flying|
    ensures var c', u := Next(c, FlushSend(k, toDone)), c.sub.flying[k];
      && c'.sub.flying == c.sub.flying[..k] + c.sub.flying[k + 1..]
      && if |c.sub.ch| < 16 && (!c.sub.done || !toDone)
         then c'.sub.ch == c.sub.ch + [u] && c'.log == c.log + [u] && c'.gaps == c.gaps + [c.lossy] && !c'.lossy
         else c'.sub.ch == c.sub.ch && c'.log == c.log && c'.lossy
  {
  }

  /** A batched publication waits for the timer, joined to what waits already. */
  lemma PublicationWaits(c: Channel, snap: Snapshot)
    requires ChannelOk(c) && c.sub.batched && !c.sub.done && snap.version > 0
    ensures var c' := Next(c, Publish(snap));
      && c'.sub.ch == c.sub.ch && c'.log == c.log && c'.sub.flying == c.sub.flying
      && c'.sub.pending.Some? && c'.sub.pending.value.Delta? && c'.sub.pending.value.version == snap.version
      && c'.sub.pending.value.prevVersion ==
           if c.sub.pending.Some? then c.sub.pending.value.prevVersion else Current(c.pubs).version
  {
  }

  /** The timer takes what waits, once. */
  lemma TimerTakes(c: Channel)
    requires !c.sub.done
    ensures var c' := Next(c, FlushTake);
      && c'.sub.pending.None? && c'.sub.ch == c.sub.ch
      && c'.sub.flying == c.sub.flying + if c.sub.pending.Some? then [c.sub.pending.value] else []
  {
  }

  /** So a batched publication reaches the channel with the next timer, if it has room then. */
  lemma BatchGetsThrough(c: Channel, snap: Snapshot)
    requires ChannelOk(c) && c.sub.batched && !c.sub.done && snap.version > 0 && |c.sub.ch| < 16
    ensures var c2 := Next(Next(c, Publish(snap)), FlushTake);
      && |c2.sub.flying| == |c.sub.flying| + 1
      && var c3 := Next(c2, FlushSend(|c.sub.flying|, false));
         && |c3.sub.ch| == |c.sub.ch| + 1 && c3.sub.ch[|c.sub.ch|].version == snap.version
         && |c3.log| == |c.log| + 1 && c3.log[|c.log|].version == snap.version
  {
    PublicationWaits(c, snap);
    var c1 := Next(c, Publish(snap));
    TimerTakes(c1);
    FlushGetsThrough(Next(c1, FlushTake), |c.sub.flying|, false);
  }

  /** A receive takes the oldest unread update; on an empty channel it takes none. */
  lemma ReceiveTakesOldest(c: Channel)
    ensures var c' := Next(c, Recv);
      if c.sub.ch == [] then c' == c
      else c.sub.ch == [c.sub.ch[0]] + c'.sub.ch && c'.client == Receive(c.client, c.sub.ch[0]) && c'.log == c.log
  {
  }

  /** Every publication of the run finds fewer than 16 unread updates. */
  ghost predicate NeverFull(c: Channel, steps: seq<Step>)
    decreases |steps|
  {
    steps == [] ||
    ((steps[0].Publish? ==> |c.sub.ch| < 16) && NeverFull(Next(c, steps[0]), steps[1..]))
  }

  function Publications(steps: seq<Step>): nat {
    if steps == [] then 0
    else (if steps[0].Publish? && steps[0].snap.version > 0 then 1 else 0) + Publications(steps[1..])
  }

  /** In every such run of an open unbatched subscription, each publication is logged and
      nothing is ever lost. */
  lemma {:induction false} NeverFullNeverLossy(c: Channel, steps: seq<Step>)
    requires !c.sub.batched && !c.sub.done && c.sub.flying == [] && c.sub.pending.None?
    requires StaysOpen(steps) && NeverFull(c, steps)
    ensures |Run(c, steps).log| == |c.log| + Publications(steps)
    ensures !c.lossy ==> !Run(c, steps).lossy
    decreases |steps|
  {
    if steps != [] {
      assert !steps[0].Close?;
      if steps[0].Publish? && steps[0].snap.version > 0 { PublicationGetsThrough(c, steps[0].snap); }
      NeverFullNeverLossy(Next(c, steps[0]), steps[1..]);
    }
  }

  // ---------------------------------------------------------------------
  // A watch starts well
  // ---------------------------------------------------------------------

  /** Watch by a client holding publication `i`, when its replay fits. */
  ghost function Watch(pubs: seq<Snapshot>, cap: nat, i: nat, batched: bool): Channel
    requires i < |pubs|
  {
    Channel(pubs, Sub(batched, ReplayTo(pubs, cap, i), None, [], false),
            Client(pubs[i].version, pubs[i].fields, true),
            [], [], Current(pubs).version, false)
  }

  /** A reconnect starts in the invariants, and with the watcher on the store's version if
      and only if the current snapshot has fields or is the one the watcher holds. */
  lemma WatchOk(pubs: seq<Snapshot>, cap: nat, i: nat, batched: bool)
    requires Increasing(pubs) && cap > 0 && i < |pubs|
    ensures var c, start := Watch(pubs, cap, i, batched), Current(pubs).version;
      && ChannelOk(c) && GapsShow(c, start)
      && (SyncShows(c, start) <==> Current(pubs).fields != map[] || i == |pubs| - 1)
  {
    var c := Watch(pubs, cap, i, batched);
    forall u | u in c.sub.ch ensures Faithful(pubs, u) { ReplayFaithful(pubs, cap, i, u); }
    assert At(pubs, i + 1) == pubs[i];
    assert Holding(pubs, c.client, i + 1);
    ReplaySyncs(pubs, cap, i);
    assert c.sub.ch[..|c.sub.ch|] == c.sub.ch;
  }

  /** Watch without a version, by a client that holds nothing: before the first
      publication it just waits, later it is sent the full snapshot. */
  function PlainWatch(pubs: seq<Snapshot>, cap: nat, batched: bool): Channel {
    Channel(pubs, Sub(batched, Replay(Current(pubs), LastN(Deltas(pubs), cap), 0), None, [], false),
            Client(0, map[], true), [], [], Current(pubs).version, false)
  }

  /** So does a plain watch, if and only if the current snapshot has fields or nothing has
      been published. */
  lemma PlainWatchOk(pubs: seq<Snapshot>, cap: nat, batched: bool)
    requires Increasing(pubs)
    ensures var c, start := PlainWatch(pubs, cap, batched), Current(pubs).version;
      && |c.sub.ch| <= 1 && ChannelOk(c) && GapsShow(c, start)
      && (SyncShows(c, start) <==> Current(pubs).fields != map[] || pubs == [])
  {
    var c := PlainWatch(pubs, cap, batched);
    forall u | u in c.sub.ch ensures Faithful(pubs, u) { assert SnapshotFor(pubs, u, |pubs|); }
    assert Holding(pubs, c.client, 0);
    if c.sub.ch != [] {
      assert c.sub.ch == [] + [c.sub.ch[0]] && c.sub.ch[..1] == c.sub.ch && c.sub.ch[1..] == [];
      FollowAppend(c.client, [], c.sub.ch[0]);
    }
  }

  lemma {:induction false} FollowDeltas(pubs: seq<Snapshot>, c: Client, lo: nat, hi: nat)
    requires lo <= hi <= |pubs| && c.synced && c.version == At(pubs, lo).version
    ensures var f := Follow(c, DeltaRun(pubs, lo, hi)); f.synced && f.version == At(pubs, hi).version
    decreases hi
  {
    if lo < hi {
      FollowDeltas(pubs, c, lo, hi - 1);
      FollowAppend(c, DeltaRun(pubs, lo, hi - 1), DeltaOf(At(pubs, hi - 1), pubs[hi - 1]));
    }
  }

  lemma {:induction false} FollowAppend(c: Client, us: seq<Update>, u: Update)
    ensures Follow(c, us + [u]) == Receive(Follow(c, us), u)
    decreases |us|
  {
    if us == [] {
      assert us + [u] == [u] && [u][1..] == [];
    } else {
      assert (us + [u])[1..] == us[1..] + [u];
      FollowAppend(Receive(c, us[0]), us[1..], u);
    }
  }

  lemma ReplaySyncs(pubs: seq<Snapshot>, cap: nat, i: nat)
    requires Increasing(pubs) && cap > 0 && i < |pubs|
    ensures var f := Follow(Client(pubs[i].version, pubs[i].fields, true), ReplayTo(pubs, cap, i));
      && f.synced
      && (f.version == Current(pubs).version <==> Current(pubs).fields != map[] || i == |pubs| - 1)
    ensures ReplayTo(pubs, cap, i) == [] <==> Current(pubs).fields == map[] || i == |pubs| - 1
  {
    var c := Client(pubs[i].version, pubs[i].fields, true);
    if Current(pubs).fields == map[] {
      VersionIsIndex(pubs, i + 1, |pubs|);
    } else if i + cap < |pubs| {
      EvictedShape(pubs, cap, i);
      var u, v := ReplayTo(pubs, cap, i)[0], ReplayTo(pubs, cap, i)[1];
      FollowAppend(c, [u], v);
      assert ReplayTo(pubs, cap, i) == [u] + [v];
    } else {
      RetainedShape(pubs, cap, i);
      FollowDeltas(pubs, c, i + 1, |pubs|);
    }
  }

  lemma ReplayFaithful(pubs: seq<Snapshot>, cap: nat, i: nat, u: Update)
    requires Increasing(pubs) && cap > 0 && i < |pubs| && u in ReplayTo(pubs, cap, i)
    ensures Faithful(pubs, u)
  {
    if i + cap < |pubs| {
      EvictedShape(pubs, cap, i);
      assert SnapshotFor(pubs, u, |pubs|);
    } else {
      RetainedShape(pubs, cap, i);
      RunFaithful(pubs, i + 1, |pubs|, u);
    }
  }

  lemma {:induction false} RunFaithful(pubs: seq<Snapshot>, lo: nat, hi: nat, u: Update)
    requires lo <= hi <= |pubs| && u in DeltaRun(pubs, lo, hi)
    ensures Faithful(pubs, u)
    decreases hi
  {
    if u in DeltaRun(pubs, lo, hi - 1) { RunFaithful(pubs, lo, hi - 1, u); } else { OneDeltaFor(pubs, hi - 1); }
  }

  lemma OneDeltaFor(pubs: seq<Snapshot>, k: nat)
    requires k < |pubs|
    ensures DeltaFor(pubs, DeltaOf(At(pubs, k), pubs[k]), k, k + 1)
  {
    assert MergedFields(pubs, k, k + 1) == MergedFields(pubs, k, k) + DeltaOf(At(pubs, k), pubs[k]).delta;
  }
}
