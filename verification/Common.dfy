/** Notions shared by every component: optional values, byte strings in
    Go's sense, and their sorted key lists. */
module Common {
  datatype Option<+T> = None | Some(value: T)

  type Byte = x: int | 0 <= x < 256

  /** A Go string is a sequence of bytes. */
  type Str = seq<Byte>

  /** Go's `<` on strings: bytewise lexicographic order. */
  predicate Less(a: Str, b: Str) {
    b != [] && (a == [] || a[0] < b[0] || (a[0] == b[0] && Less(a[1..], b[1..])))
  }

  lemma {:induction false} LessTotal(a: Str, b: Str)
    ensures a != b ==> Less(a, b) != Less(b, a)
    ensures a == b ==> !Less(a, b)
  {
    if a == [] || b == [] {
    } else if a[0] == b[0] {
      LessTotal(a[1..], b[1..]);
      assert a == [a[0]] + a[1..] && b == [b[0]] + b[1..];
    }
  }

  lemma {:induction false} LessTransitive(a: Str, b: Str, c: Str)
    requires Less(a, b) && Less(b, c)
    ensures Less(a, c)
  {
    if a != [] && a[0] == b[0] && b[0] == c[0] {
      LessTransitive(a[1..], b[1..], c[1..]);
    }
  }

  predicate IsLeast(m: Str, s: set<Str>) {
    m in s && forall x :: x in s && x != m ==> Less(m, x)
  }

  lemma {:induction false} LeastExists(s: set<Str>) returns (m: Str)
    requires s != {}
    ensures IsLeast(m, s)
    decreases |s|
  {
    var x :| x in s;
    if s == {x} {
      m := x;
    } else {
      var rest := s - {x};
      assert rest != {} && |rest| < |s| by { assert s == rest + {x}; }
      var k := LeastExists(rest);
      LessTotal(x, k);
      if Less(x, k) {
        m := x;
        forall y | y in s && y != m ensures Less(m, y) {
          if y != k { LessTransitive(x, k, y); }
        }
      } else {
        m := k;
      }
    }
  }

  function Least(s: set<Str>): (m: Str)
    requires s != {}
    ensures IsLeast(m, s)
  {
    assert exists m :: m in s && IsLeast(m, s) by { var m := LeastExists(s); }
    assert forall m, n :: IsLeast(m, s) && IsLeast(n, s) ==> m == n by {
      forall m, n | IsLeast(m, s) && IsLeast(n, s) ensures m == n { LessTotal(m, n); }
    }
    var m :| m in s && IsLeast(m, s);
    m
  }

  predicate Lists(r: seq<Str>, s: set<Str>) {
    && (forall k :: k in r ==> k in s)
    && (forall k :: k in s ==> k in r)
    && (forall i, j :: 0 <= i < j < |r| ==> Less(r[i], r[j]))
    && |r| == |s|
  }

  lemma ListsCons(m: Str, s: set<Str>, r: seq<Str>)
    requires IsLeast(m, s) && Lists(r, s - {m})
    ensures Lists([m] + r, s)
  {
    assert s == (s - {m}) + {m};
    forall i | 0 <= i < |r| ensures Less(m, r[i]) { assert r[i] in r; }
  }

  /** collections.SortedKeys: the keys in strictly increasing order. */
  function SortedKeys(s: set<Str>): (r: seq<Str>)
    ensures forall k :: k in r <==> k in s
    ensures forall i, j :: 0 <= i < j < |r| ==> Less(r[i], r[j])
    ensures |r| == |s|
  {
    SortedKeysList(s);
    Listed(s)
  }

  function Listed(s: set<Str>): seq<Str>
    decreases |s|
  {
    if s == {} then []
    else
      var m := Least(s);
      assert s == (s - {m}) + {m};
      [m] + Listed(s - {m})
  }

  lemma {:induction false} SortedKeysList(s: set<Str>)
    ensures Lists(Listed(s), s)
    decreases |s|
  {
    if s != {} {
      var m := Least(s);
      assert s == (s - {m}) + {m};
      SortedKeysList(s - {m});
      ListsCons(m, s, Listed(s - {m}));
    }
  }
}
