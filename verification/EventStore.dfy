/** One actor's event stream, events/store_impl.go over events/ring.go:
    numbering, retention, replay and counted drops. */
module EventStore {
  import opened Ring

  const DEFAULT_RING := 256
  const CHANNEL_CAP := 16

  datatype Record = Record(seqNo: nat, kind: nat, body: nat)

  function SeqNo(r: Record): nat { r.seqNo }

  /** kindsMatch: an empty list accepts every kind. */
  predicate KindsMatch(kinds: seq<nat>, kind: nat) { kinds == [] || kind in kinds }

  /** ValidWatchKind: the thirteen single-bit kinds. */
  predicate ValidKind(k: nat) {
    k in [0x1, 0x2, 0x4, 0x8, 0x10, 0x20, 0x40, 0x80, 0x100, 0x200, 0x400, 0x800, 0x1000]
  }

  function OfKinds(kinds: seq<nat>): Record -> bool { (r: Record) => KindsMatch(kinds, r.kind) }

  ghost predicate Numbered(pushed: seq<Record>) {
    forall i :: 0 <= i < |pushed| ==> pushed[i].seqNo == i + 1
  }

  /** Where a history starts again after `since`, cut short by what was evicted. */
  function Resume(pushed: seq<Record>, cap: nat, since: nat): nat {
    var evicted := |pushed| - |LastN(pushed, cap)|;
    if since < evicted then evicted else if since > |pushed| then |pushed| else since
  }

  /** The store's numbering makes the held records a contiguous range. */
  lemma HeldIsContiguous(pushed: seq<Record>, cap: nat)
    requires Numbered(pushed)
    ensures var held := LastN(pushed, cap);
      && held == pushed[|pushed| - |held|..]
      && forall i :: 0 <= i < |held| ==> held[i].seqNo == |pushed| - |held| + i + 1
  {
  }

  /** What Since answers: the matching records of a suffix of the whole history. */
  lemma SinceIsSuffix(pushed: seq<Record>, cap: nat, since: nat, kinds: seq<nat>)
    requires Numbered(pushed) && cap > 0
    ensures Filter(Passes(SeqNo, since, OfKinds(kinds)), LastN(pushed, cap)) ==
      Filter(OfKinds(kinds), pushed[Resume(pushed, cap, since)..])
  {
    var held := LastN(pushed, cap);
    var evicted := |pushed| - |held|;
    HeldIsContiguous(pushed, cap);
    var k := Resume(pushed, cap, since) - evicted;
    FilterSince(SeqNo, since, OfKinds(kinds), held, k);
    SliceTwice(pushed, evicted, k);
  }

  lemma SliceTwice(s: seq<Record>, a: nat, b: nat)
    requires a + b <= |s|
    ensures s[a..][b..] == s[a + b..]
  {
  }

  ghost predicate Ascending(s: seq<Record>) { forall i, j :: 0 <= i < j < |s| ==> s[i].seqNo < s[j].seqNo }

  lemma {:induction false} FilterAscending(p: Record -> bool, s: seq<Record>)
    requires Ascending(s)
    ensures Ascending(Filter(p, s))
  {
    if s != [] {
      var n := |s| - 1;
      FilterAscending(p, s[..n]);
      var before := Filter(p, s[..n]);
      forall i | 0 <= i < |before| ensures before[i].seqNo < s[n].seqNo {
        FilterMember(p, s[..n], before[i]);
        var j :| 0 <= j < n && s[j] == before[i];
      }
    }
  }

  /** A subscriber: what its reader got, what waits in its channel, how many were dropped.
      `start` is the position in the history from which records are offered to it. */
  datatype Subscriber = Subscriber(kinds: seq<nat>, start: nat, got: seq<Record>, ch: seq<Record>, dropped: nat)

  function Fresh(kinds: seq<nat>, start: nat): Subscriber { Subscriber(kinds, start, [], [], 0) }

  function Offer(s: Subscriber, r: Record): Subscriber {
    if !KindsMatch(s.kinds, r.kind) then s
    else if |s.ch| < CHANNEL_CAP then s.(ch := s.ch + [r])
    else s.(dropped := s.dropped + 1)
  }

  function OfferAll(s: Subscriber, rs: seq<Record>): Subscriber {
    if rs == [] then s else Offer(OfferAll(s, rs[..|rs| - 1]), rs[|rs| - 1])
  }

  function Take(s: Subscriber): Subscriber {
    if s.ch == [] then s else s.(got := s.got + [s.ch[0]], ch := s.ch[1..])
  }

  // ---------------------------------------------------------------------
  // Nothing is lost unseen
  // ---------------------------------------------------------------------

  /** `a` is `m` with some elements left out. */
  ghost predicate Subsequence(a: seq<Record>, m: seq<Record>) {
    a == [] ||
    (m != [] && (|| (a[|a| - 1] == m[|m| - 1] && Subsequence(a[..|a| - 1], m[..|m| - 1]))
                 || Subsequence(a, m[..|m| - 1])))
  }

  /** The records a subscriber asked for, since it subscribed or since its replay starts. */
  function Matching(s: Subscriber, pushed: seq<Record>): seq<Record>
    requires s.start <= |pushed|
  {
    Filter(OfKinds(s.kinds), pushed[s.start..])
  }

  ghost predicate Covers(s: Subscriber, m: seq<Record>) {
    && |s.got| + |s.ch| + s.dropped == |m|
    && |s.ch| <= CHANNEL_CAP
    && Subsequence(s.got + s.ch, m)
  }

  /** Of the matching records of the history, in order, each was read, waits in the channel
      or is counted as dropped. */
  ghost predicate Accounted(s: Subscriber, pushed: seq<Record>) {
    s.start <= |pushed| && Covers(s, Matching(s, pushed))
  }

  lemma SubsequenceAppend(a: seq<Record>, m: seq<Record>, x: Record)
    requires Subsequence(a, m)
    ensures Subsequence(a, m + [x]) && Subsequence(a + [x], m + [x])
  {
    assert (m + [x])[..|m|] == m && (a + [x])[..|a|] == a;
  }

  lemma OfferCovers(s: Subscriber, m: seq<Record>, r: Record)
    requires Covers(s, m) && KindsMatch(s.kinds, r.kind)
    ensures Covers(Offer(s, r), m + [r])
  {
    SubsequenceAppend(s.got + s.ch, m, r);
    assert s.got + (s.ch + [r]) == s.got + s.ch + [r];
  }

  lemma MatchingAppend(s: Subscriber, pushed: seq<Record>, r: Record)
    requires s.start <= |pushed|
    ensures Matching(s, pushed + [r]) == Matching(s, pushed) + if KindsMatch(s.kinds, r.kind) then [r] else []
  {
    var tail := pushed[s.start..];
    assert (pushed + [r])[s.start..] == tail + [r] && (tail + [r])[..|tail|] == tail;
  }

  lemma OfferAccounted(s: Subscriber, pushed: seq<Record>, r: Record)
    requires Accounted(s, pushed)
    ensures Accounted(Offer(s, r), pushed + [r])
  {
    MatchingAppend(s, pushed, r);
    var m := Matching(s, pushed);
    if KindsMatch(s.kinds, r.kind) { OfferCovers(s, m, r); } else { assert m + [] == m; }
  }

  // ---------------------------------------------------------------------
  // What must not be dropped
  // ---------------------------------------------------------------------

  /** A record of a kind asked for is the next in the channel while fewer than sixteen wait
      there; an empty list asks for every kind. Only a full channel counts a drop. */
  lemma OfferEnters(s: Subscriber, r: Record)
    ensures var wanted, s' := s.kinds == [] || r.kind in s.kinds, Offer(s, r);
      && s'.ch == s.ch + (if wanted && |s.ch| < 16 then [r] else [])
      && s'.dropped == s.dropped + (if wanted && |s.ch| >= 16 then 1 else 0)
      && s'.got == s.got && s'.kinds == s.kinds && s'.start == s.start
  {
  }

  lemma {:induction false} SubsequenceLength(a: seq<Record>, m: seq<Record>)
    requires Subsequence(a, m)
    ensures |a| <= |m| && (|a| == |m| ==> a == m)
  {
    if m != [] {
      var n := |m| - 1;
      if a != [] && a[|a| - 1] == m[n] && Subsequence(a[..|a| - 1], m[..n]) {
        SubsequenceLength(a[..|a| - 1], m[..n]);
        assert a == a[..|a| - 1] + [m[n]] && m == m[..n] + [m[n]];
      } else if a != [] {
        SubsequenceLength(a, m[..n]);
      }
    }
  }

  /** A subscriber with no counted drop has lost nothing: what it read and what waits are all
      the records it asked for. */
  lemma NoDropNoLoss(s: Subscriber, pushed: seq<Record>)
    requires Accounted(s, pushed) && s.dropped == 0
    ensures s.got + s.ch == Matching(s, pushed)
  {
    SubsequenceLength(s.got + s.ch, Matching(s, pushed));
  }

  function FirstSixteen(rs: seq<Record>): (r: seq<Record>)
    ensures r <= rs && |r| == if |rs| <= 16 then |rs| else 16
  {
    if |rs| <= 16 then rs else rs[..16]
  }

  lemma FirstSixteenAppend(rs: seq<Record>, r: Record)
    ensures FirstSixteen(rs + [r]) == FirstSixteen(rs) + if |rs| < 16 then [r] else []
  {
  }

  /** A replay of at most sixteen records is complete; a longer one loses all but the first
      sixteen, counted. */
  lemma {:induction false} ReplayKeepsFirst(kinds: seq<nat>, start: nat, rs: seq<Record>)
    requires forall r <- rs :: KindsMatch(kinds, r.kind)
    ensures var s := OfferAll(Fresh(kinds, start), rs);
      && s.kinds == kinds && s.got == []
      && s.ch == FirstSixteen(rs) && s.dropped == |rs| - |s.ch|
  {
    if rs != [] {
      var n := |rs| - 1;
      ReplayKeepsFirst(kinds, start, rs[..n]);
      var s := OfferAll(Fresh(kinds, start), rs[..n]);
      assert KindsMatch(kinds, rs[n].kind) by { assert rs[n] in rs; }
      OfferEnters(s, rs[n]);
      FirstSixteenAppend(rs[..n], rs[n]);
      assert rs == rs[..n] + [rs[n]];
    }
  }

  lemma TakeAccounted(s: Subscriber, pushed: seq<Record>)
    requires Accounted(s, pushed)
    ensures Accounted(Take(s), pushed)
  {
    if s.ch != [] { assert s.got + [s.ch[0]] + s.ch[1..] == s.got + s.ch; }
  }

  lemma {:induction false} OfferAllCovers(s: Subscriber, m: seq<Record>)
    requires forall i :: 0 <= i < |m| ==> KindsMatch(s.kinds, m[i].kind)
    requires s == Fresh(s.kinds, s.start)
    ensures Covers(OfferAll(s, m), m) && OfferAll(s, m).kinds == s.kinds && OfferAll(s, m).start == s.start
  {
    if m != [] {
      var n := |m| - 1;
      OfferAllCovers(s, m[..n]);
      OfferCovers(OfferAll(s, m[..n]), m[..n], m[n]);
      assert m == m[..n] + [m[n]];
    }
  }

  /** A subscription starts accounted, at the first record after `since` still held, or at
      the next one when no replay is asked for. */
  lemma ReplayAccounted(pushed: seq<Record>, kinds: seq<nat>, start: nat)
    requires start <= |pushed|
    ensures Accounted(OfferAll(Fresh(kinds, start), Filter(OfKinds(kinds), pushed[start..])), pushed)
  {
    var m := Filter(OfKinds(kinds), pushed[start..]);
    forall i | 0 <= i < |m| ensures KindsMatch(kinds, m[i].kind) {
      FilterMember(OfKinds(kinds), pushed[start..], m[i]);
    }
    OfferAllCovers(Fresh(kinds, start), m);
  }

  lemma {:induction false} SubsequenceMember(a: seq<Record>, m: seq<Record>, x: Record)
    requires Subsequence(a, m) && x in a
    ensures x in m
  {
    var n := |m| - 1;
    if a[|a| - 1] == m[n] && Subsequence(a[..|a| - 1], m[..n]) {
      if x != m[n] { SubsequenceMember(a[..|a| - 1], m[..n], x); }
    } else {
      SubsequenceMember(a, m[..n], x);
    }
  }

  lemma {:induction false} SubsequenceAscending(a: seq<Record>, m: seq<Record>)
    requires Subsequence(a, m) && Ascending(m)
    ensures Ascending(a)
  {
    if a != [] {
      var n, k := |m| - 1, |a| - 1;
      if a[k] == m[n] && Subsequence(a[..k], m[..n]) {
        SubsequenceAscending(a[..k], m[..n]);
        forall i | 0 <= i < k ensures a[i].seqNo < a[k].seqNo {
          SubsequenceMember(a[..k], m[..n], a[..k][i]);
          var j :| 0 <= j < n && m[j] == a[i];
        }
      } else {
        SubsequenceAscending(a, m[..n]);
      }
    }
  }

  /** So a subscriber reads in increasing sequence order. */
  lemma ReadsAscend(s: Subscriber, pushed: seq<Record>)
    requires Numbered(pushed) && Accounted(s, pushed)
    ensures Ascending(s.got + s.ch)
  {
    FilterAscending(OfKinds(s.kinds), pushed[s.start..]);
    SubsequenceAscending(s.got + s.ch, Matching(s, pushed));
  }

  lemma NumberedPush(pushed: seq<Record>, r: Record)
    requires Numbered(pushed) && r.seqNo == |pushed| + 1
    ensures Numbered(pushed + [r])
  {
  }

  lemma OfferedAccounted(before: seq<Subscriber>, after: seq<Subscriber>, pushed: seq<Record>, r: Record)
    requires |after| == |before|
    requires forall i :: 0 <= i < |before| ==> Accounted(before[i], pushed)
    requires forall i :: 0 <= i < |after| ==> after[i] == Offer(before[i], r)
    ensures forall i :: 0 <= i < |after| ==> Accounted(after[i], pushed + [r])
  {
    forall i | 0 <= i < |after| ensures Accounted(after[i], pushed + [r]) { OfferAccounted(before[i], pushed, r); }
  }

  class EventLog {
    const ring: RingBuffer<Record>
    var nextSeqNo: nat
    var subs: seq<Subscriber>

    ghost predicate Valid()
      reads this, ring, ring.buf
    {
      && ring.Valid() && ring.stamp == SeqNo
      && Numbered(ring.pushed) && nextSeqNo == |ring.pushed|
      && forall i :: 0 <= i < |subs| ==> Accounted(subs[i], ring.pushed)
    }

    constructor (ringCap: int)
      ensures Valid() && ring.pushed == [] && subs == [] && fresh(ring) && fresh(ring.buf)
      ensures ring.capacity == if ringCap <= 0 then DEFAULT_RING else ringCap
    {
      nextSeqNo, subs := 0, [];
      ring := new RingBuffer<Record>(SeqNo, ringCap, DEFAULT_RING);
    }

    /** Push: the caller's sequence number is overwritten. */
    method Push(rec: Record)
      requires Valid()
      modifies this, ring, ring.buf
      ensures Valid()
      ensures ring.pushed == old(ring.pushed) + [rec.(seqNo := |old(ring.pushed)| + 1)]
      ensures |subs| == |old(subs)| && forall i :: 0 <= i < |subs| ==>
        subs[i] == Offer(old(subs)[i], rec.(seqNo := |old(ring.pushed)| + 1))
    {
      ghost var before, was := subs, ring.pushed;
      nextSeqNo := nextSeqNo + 1;
      var stamped := rec.(seqNo := nextSeqNo);
      ring.Push(stamped);
      FanOut(stamped);
      NumberedPush(was, stamped);
      OfferedAccounted(before, subs, was, stamped);
    }

    method FanOut(r: Record)
      modifies `subs
      ensures |subs| == |old(subs)| && forall i :: 0 <= i < |subs| ==> subs[i] == Offer(old(subs)[i], r)
    {
      var i := 0;
      while i < |subs|
        invariant 0 <= i <= |subs| == |old(subs)|
        invariant forall j :: 0 <= j < i ==> subs[j] == Offer(old(subs)[j], r)
        invariant forall j :: i <= j < |subs| ==> subs[j] == old(subs)[j]
      {
        subs := subs[i := Offer(subs[i], r)];
        i := i + 1;
      }
    }

    /** Recent */
    method Recent(since: nat, kinds: seq<nat>, limit: int) returns (out: seq<Record>)
      requires Valid()
      ensures out == Capped(Filter(Passes(SeqNo, since, OfKinds(kinds)), LastN(ring.pushed, ring.capacity)), limit)
    {
      out := ring.Since(since, OfKinds(kinds), limit);
    }

    /** Recv on an open subscription with something in its channel. */
    method Receive(k: nat) returns (r: Record)
      requires Valid() && k < |subs| && subs[k].ch != []
      modifies `subs
      ensures Valid() && subs == old(subs)[k := Take(old(subs)[k])] && r == old(subs)[k].ch[0]
    {
      TakeAccounted(subs[k], ring.pushed);
      r := subs[k].ch[0];
      subs := subs[k := Take(subs[k])];
    }

    /** Subscribe: replay from the ring when asked for, then join the live fan-out; a kind
        that is no single event kind is refused. */
    method Subscribe(since: nat, kinds: seq<nat>) returns (ok: bool)
      requires Valid()
      modifies `subs
      ensures Valid() && (ok <==> forall k <- kinds :: ValidKind(k))
      ensures !ok ==> subs == old(subs)
      ensures ok ==> var start := if since == 0 then nextSeqNo else Resume(ring.pushed, ring.capacity, since);
        subs == old(subs) + [OfferAll(Fresh(kinds, start), Filter(OfKinds(kinds), ring.pushed[start..]))]
    {
      ok := AllValid(kinds);
      if !ok { return; }
      var start, replay := ReplayFrom(since, kinds);
      ReplayAccounted(ring.pushed, kinds, start);
      var sub := OfferEach(Fresh(kinds, start), replay);
      subs := subs + [sub];
    }

    /** Where the subscription starts, and the retained records it is sent first. */
    method ReplayFrom(since: nat, kinds: seq<nat>) returns (start: nat, replay: seq<Record>)
      requires Valid()
      ensures start == (if since == 0 then nextSeqNo else Resume(ring.pushed, ring.capacity, since)) <= nextSeqNo
      ensures replay == Filter(OfKinds(kinds), ring.pushed[start..])
    {
      if since == 0 {
        assert ring.pushed[nextSeqNo..] == [];
        return nextSeqNo, [];
      }
      start := if since < ring.evicted then ring.evicted else if since > nextSeqNo then nextSeqNo else since;
      replay := ring.Since(since, OfKinds(kinds), 0);
      SinceIsSuffix(ring.pushed, ring.capacity, since, kinds);
    }
  }

  method AllValid(kinds: seq<nat>) returns (ok: bool)
    ensures ok <==> forall k <- kinds :: ValidKind(k)
  {
    var i := 0;
    while i < |kinds|
      invariant 0 <= i <= |kinds| && forall k <- kinds[..i] :: ValidKind(k)
    {
      if !ValidKind(kinds[i]) { return false; }
      i := i + 1;
    }
    ok := true;
  }

  method OfferEach(s: Subscriber, rs: seq<Record>) returns (sub: Subscriber)
    ensures sub == OfferAll(s, rs)
  {
    sub := s;
    var i := 0;
    while i < |rs|
      invariant 0 <= i <= |rs|
      invariant sub == OfferAll(s, rs[..i])
    {
      assert rs[..i + 1][..i] == rs[..i];
      sub := Offer(sub, rs[i]);
      i := i + 1;
    }
    assert rs[..i] == rs;
  }
}
