/** The circular buffer behind events/ring.go and projection/window.go: one
    shape, keyed by a sequence number or a version. */
module Ring {

  /** What a ring of capacity `cap` should hold after the pushes `h`. */
  function LastN<T>(h: seq<T>, cap: nat): (r: seq<T>)
    ensures |r| == if |h| < cap then |h| else cap
  {
    if |h| <= cap then h else h[|h| - cap..]
  }

  function Filter<T>(p: T -> bool, s: seq<T>): seq<T> {
    if s == [] then [] else Filter(p, s[..|s| - 1]) + if p(s[|s| - 1]) then [s[|s| - 1]] else []
  }

  function Passes<T>(stamp: T -> nat, since: nat, keep: T -> bool): T -> bool {
    x => stamp(x) > since && keep(x)
  }

  /** limit > 0 caps the length; otherwise everything passes. */
  function Capped<T>(s: seq<T>, limit: int): (r: seq<T>)
    ensures r <= s && |r| == if 0 < limit < |s| then limit else |s|
  {
    if 0 < limit < |s| then s[..limit] else s
  }

  lemma {:induction false} FilterMember<T>(p: T -> bool, s: seq<T>, x: T)
    ensures x in Filter(p, s) <==> x in s && p(x)
  {
    if s != [] {
      var n := |s| - 1;
      FilterMember(p, s[..n], x);
      assert s == s[..n] + [s[n]];
    }
  }

  lemma {:induction false} FilterPrefix<T>(p: T -> bool, s: seq<T>, i: nat)
    requires i <= |s|
    ensures Filter(p, s[..i]) <= Filter(p, s)
    decreases |s| - i
  {
    if i == |s| {
      assert s[..i] == s;
    } else {
      FilterPrefix(p, s, i + 1);
      assert s[..i + 1][..i] == s[..i];
    }
  }

  lemma FilterStep<T>(p: T -> bool, s: seq<T>, i: nat)
    requires i < |s|
    ensures Filter(p, s[..i + 1]) == Filter(p, s[..i]) + if p(s[i]) then [s[i]] else []
  {
    assert s[..i + 1][..i] == s[..i];
  }

  /** A sequence whose passing elements come last. */
  lemma {:induction false} FilterSuffix<T>(p: T -> bool, s: seq<T>, k: nat)
    requires k <= |s|
    requires forall i :: 0 <= i < k ==> !p(s[i])
    requires forall i :: k <= i < |s| ==> p(s[i])
    ensures Filter(p, s) == s[k..]
  {
    if s != [] {
      var n := |s| - 1;
      if k <= n {
        FilterSuffix(p, s[..n], k);
        assert s[k..] == s[..n][k..] + [s[n]];
      } else {
        FilterSuffix(p, s[..n], n);
      }
    }
  }

  /** Filtering by stamp and kind, where the stamps that pass come last. */
  lemma {:induction false} FilterSince<T>(stamp: T -> nat, since: nat, keep: T -> bool, s: seq<T>, k: nat)
    requires k <= |s|
    requires forall i :: 0 <= i < k ==> stamp(s[i]) <= since
    requires forall i :: k <= i < |s| ==> stamp(s[i]) > since
    ensures Filter(Passes(stamp, since, keep), s) == Filter(keep, s[k..])
  {
    if s != [] {
      var n := |s| - 1;
      if k <= n {
        FilterSince(stamp, since, keep, s[..n], k);
        assert s[k..][..n - k] == s[..n][k..] && s[k..][n - k] == s[n];
      } else {
        FilterSince(stamp, since, keep, s[..n], n);
        assert s[..n][n..] == [] && s[k..] == [];
      }
    }
  }

  /** Position of the i-th held record. */
  function Slot(head: nat, i: nat, cap: nat): nat
    requires head < cap && i <= cap
  {
    if head + i < cap then head + i else head + i - cap
  }

  method WrapIndex(head: nat, i: nat, cap: nat) returns (idx: nat)
    requires head < cap && i <= cap
    ensures idx == Slot(head, i, cap) < cap
  {
    idx := (head + i) % cap;
    if head + i >= cap { assert head + i == cap + (head + i - cap) && head + i - cap < cap; }
  }

  ghost predicate Holds<T>(b: seq<T>, head: nat, held: seq<T>) {
    && |held| <= |b| && head < |b|
    && forall i :: 0 <= i < |held| ==> Slot(head, i, |b|) < |b| && b[Slot(head, i, |b|)] == held[i]
  }

  lemma HoldsAppend<T>(b: seq<T>, head: nat, held: seq<T>, x: T)
    requires Holds(b, head, held) && |held| < |b|
    ensures Slot(head, |held|, |b|) < |b| && Holds(b[Slot(head, |held|, |b|) := x], head, held + [x])
  {
  }

  lemma HoldsOverwrite<T>(b: seq<T>, head: nat, held: seq<T>, x: T)
    requires Holds(b, head, held) && |held| == |b|
    ensures Slot(head, 1, |b|) < |b| && Holds(b[head := x], Slot(head, 1, |b|), held[1..] + [x])
  {
    var b', head', held' := b[head := x], Slot(head, 1, |b|), held[1..] + [x];
    forall i | 0 <= i < |held'| ensures Slot(head', i, |b|) < |b| && b'[Slot(head', i, |b|)] == held'[i] {
      if i < |held'| - 1 { assert b[Slot(head, i + 1, |b|)] == held[i + 1]; }
    }
  }

  lemma HoldsFirst<T>(b: seq<T>, head: nat, held: seq<T>)
    requires Holds(b, head, held) && held != []
    ensures b[head] == held[0]
  {
    assert b[Slot(head, 0, |b|)] == held[0];
  }

  lemma LastNPush<T>(h: seq<T>, x: T, cap: nat)
    requires cap > 0
    ensures |h| < cap ==> LastN(h + [x], cap) == LastN(h, cap) + [x]
    ensures |h| >= cap ==> LastN(h + [x], cap) == LastN(h, cap)[1..] + [x]
  {
  }

  class RingBuffer<T(0,!new)> {
    const stamp: T -> nat
    const capacity: nat
    const buf: array<T>
    var head: nat
    var count: nat
    var latest: nat
    var oldest: nat
    var evicted: nat
    /** Everything ever pushed. */
    ghost var pushed: seq<T>

    ghost predicate Valid()
      reads this, buf
    {
      && capacity > 0 && buf.Length == capacity
      && count == |Held()| && evicted + count == |pushed|
      && Holds(buf[..], head, Held())
      && latest == (if pushed == [] then 0 else stamp(pushed[|pushed| - 1]))
      && oldest == (if Held() == [] then 0 else stamp(Held()[0]))
    }

    /** The records held, oldest first: always the last `capacity` pushed. */
    ghost function Held(): seq<T>
      reads this
    {
      LastN(pushed, capacity)
    }

    constructor (stamp: T -> nat, size: int, default: nat)
      requires default > 0
      ensures Valid() && fresh(buf) && pushed == [] && this.stamp == stamp
      ensures capacity == if size <= 0 then default else size
    {
      var cap: nat := if size <= 0 then default else size;
      this.stamp, capacity := stamp, cap;
      buf := new T[cap];
      head, count, latest, oldest, evicted, pushed := 0, 0, 0, 0, 0, [];
    }

    /** Push: overwrite the oldest once full. */
    method Push(x: T)
      requires Valid()
      modifies this, buf
      ensures Valid() && pushed == old(pushed) + [x]
      ensures Held() == LastN(old(pushed) + [x], capacity)
      ensures evicted == old(evicted) + if old(count) == capacity then 1 else 0
    {
      if count < capacity { Append(x); } else { Overwrite(x); }
    }

    method Append(x: T)
      requires Valid() && count < capacity
      modifies this, buf
      ensures Valid() && pushed == old(pushed) + [x] && evicted == old(evicted)
    {
      LastNPush(pushed, x, capacity);
      ghost var b, held := buf[..], Held();
      HoldsAppend(b, head, held, x);
      var idx := WrapIndex(head, count, capacity);
      buf[idx] := x;
      assert buf[..] == b[idx := x];
      count := count + 1;
      if count == 1 { oldest := stamp(x); }
      latest := stamp(x);
      pushed := pushed + [x];
      assert Held() == held + [x];
    }

    method Overwrite(x: T)
      requires Valid() && count == capacity
      modifies this, buf
      ensures Valid() && pushed == old(pushed) + [x] && evicted == old(evicted) + 1
    {
      ghost var b, want := buf[..], Held()[1..] + [x];
      assert LastN(pushed + [x], capacity) == want by { LastNPush(pushed, x, capacity); }
      HoldsOverwrite(b, head, Held(), x);
      var next := WrapIndex(head, 1, capacity);
      buf[head] := x;
      assert buf[..] == b[head := x];
      head := next;
      HoldsFirst(buf[..], head, want);
      oldest := stamp(buf[head]);
      evicted := evicted + 1;
      latest := stamp(x);
      pushed := pushed + [x];
    }

    method Nth(i: nat) returns (x: T)
      requires Valid() && i < count
      ensures x == Held()[i]
    {
      var idx := WrapIndex(head, i, capacity);
      x := buf[idx];
      assert buf[..][Slot(head, i, capacity)] == Held()[i];
    }

    /** Since: the records after `since` that pass `keep`, in order, at most `limit` of them. */
    method Since(since: nat, keep: T -> bool, limit: int) returns (out: seq<T>)
      requires Valid()
      ensures out == Capped(Filter(Passes(stamp, since, keep), LastN(pushed, capacity)), limit)
    {
      ghost var p, held := Passes(stamp, since, keep), Held();
      out := [];
      var i := 0;
      while i < count
        invariant 0 <= i <= count
        invariant out == Filter(p, held[..i])
        invariant limit > 0 ==> |out| < limit
      {
        var x := Nth(i);
        FilterStep(p, held, i);
        if stamp(x) > since && keep(x) {
          out := out + [x];
          if limit > 0 && |out| == limit {
            FilterPrefix(p, held, i + 1);
            return;
          }
        }
        i := i + 1;
      }
      assert held[..i] == held;
    }
  }
}
