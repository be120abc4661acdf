/** The byte-level vocabulary shared by message/frame.go and
    gateway/frame_binary.go: big-endian fixed fields, base-128 varints and
    length-prefixed blobs, written and read one after another. */
module Wire {
  import opened Common

  const U64 := 0x1_0000_0000_0000_0000
  const U32 := 0x1_0000_0000

  // ---------------------------------------------------------------------
  // Varints
  // ---------------------------------------------------------------------

  /** binary.PutUvarint */
  function PutUvarint(v: nat): Str {
    if v < 128 then [v] else [v % 128 + 128] + PutUvarint(v / 128)
  }

  /** binary.ReadUvarint from its `i`-th byte on: at most ten bytes, the tenth at most 1. */
  function ReadUvarint(data: Str, i: nat): Option<(nat, Str)>
    decreases |data|
  {
    if i >= 10 || data == [] then None
    else if data[0] < 128 then
      if i == 9 && data[0] > 1 then None else Some((data[0], data[1..]))
    else
      match ReadUvarint(data[1..], i + 1)
      case None => None
      case Some((v, rest)) => Some((data[0] - 128 + 128 * v, rest))
  }

  /** What still fits from the `i`-th byte on. */
  function Room(i: nat): nat
    decreases 9 - i
  {
    if i >= 9 then 2 else 128 * Room(i + 1)
  }

  lemma RoomIs64Bits()
    ensures Room(0) == U64
  {
    assert Room(9) == 2;
    assert Room(8) == 256;
    assert Room(7) == 128 * Room(8);
    assert Room(6) == 128 * Room(7);
    assert Room(5) == 128 * Room(6);
    assert Room(4) == 128 * Room(5);
    assert Room(3) == 128 * Room(4);
    assert Room(2) == 128 * Room(3);
    assert Room(1) == 128 * Room(2);
  }

  lemma ReadUvarintStep(b: Byte, tail: Str, i: nat, v: nat, rest: Str)
    requires b >= 128 && i < 10 && ReadUvarint(tail, i + 1) == Some((v, rest))
    ensures ReadUvarint([b] + tail, i) == Some((b - 128 + 128 * v, rest))
  {
    assert ([b] + tail)[1..] == tail;
  }

  lemma {:induction false} UvarintRoundTrip(v: nat, i: nat, rest: Str)
    requires i <= 9 && v < Room(i)
    ensures ReadUvarint(PutUvarint(v) + rest, i) == Some((v, rest))
    decreases v
  {
    var data := PutUvarint(v) + rest;
    if v < 128 {
      assert data[1..] == rest;
    } else {
      RoomShrinks(v, i);
      UvarintRoundTrip(v / 128, i + 1, rest);
      AppendAssoc([v % 128 + 128], PutUvarint(v / 128), rest);
      ReadUvarintStep(v % 128 + 128, PutUvarint(v / 128) + rest, i, v / 128, rest);
    }
  }

  lemma RoomShrinks(v: nat, i: nat)
    requires i <= 9 && 128 <= v < Room(i)
    ensures i < 9 && v / 128 < Room(i + 1) && v % 128 + 128 * (v / 128) == v
  {
  }

  /** A varint cut short is never mistaken for another. */
  lemma {:induction false} UvarintPrefix(v: nat, i: nat, k: nat)
    requires k < |PutUvarint(v)|
    ensures ReadUvarint(PutUvarint(v)[..k], i) == None
    decreases v
  {
    var data := PutUvarint(v)[..k];
    if k > 0 {
      assert v >= 128;
      assert data[1..] == PutUvarint(v / 128)[..k - 1];
      UvarintPrefix(v / 128, i + 1, k - 1);
    }
  }

  // ---------------------------------------------------------------------
  // Big-endian integers
  // ---------------------------------------------------------------------

  function Power256(n: nat): nat { if n == 0 then 1 else 256 * Power256(n - 1) }

  /** binary.BigEndian.PutUint: the last byte is the least significant. */
  function BigEndian(v: nat, n: nat): (r: Str)
    ensures |r| == n
  {
    if n == 0 then [] else BigEndian(v / 256, n - 1) + [v % 256]
  }

  function FromBigEndian(b: Str): nat {
    if b == [] then 0 else 256 * FromBigEndian(b[..|b| - 1]) + b[|b| - 1]
  }

  lemma {:induction false} BigEndianRoundTrip(v: nat, n: nat)
    requires v < Power256(n)
    ensures FromBigEndian(BigEndian(v, n)) == v
    decreases n
  {
    if n > 0 {
      assert v / 256 < Power256(n - 1);
      BigEndianRoundTrip(v / 256, n - 1);
      assert BigEndian(v, n)[..n - 1] == BigEndian(v / 256, n - 1);
    }
  }

  lemma Powers()
    ensures Power256(4) == U32 && Power256(8) == U64
  {
    assert Power256(1) == 256 * Power256(0);
    assert Power256(2) == 256 * Power256(1);
    assert Power256(3) == 256 * Power256(2);
    assert Power256(5) == 256 * Power256(4);
    assert Power256(6) == 256 * Power256(5);
    assert Power256(7) == 256 * Power256(6);
  }

  // ---------------------------------------------------------------------
  // Fields in a row
  // ---------------------------------------------------------------------

  datatype Shape = Fixed(n: nat) | Varint | Blob

  datatype Token = Bytes(b: Str) | Num(v: nat)

  predicate Fits(s: Shape, t: Token) {
    match s
    case Fixed(n) => t.Bytes? && |t.b| == n
    case Varint => t.Num? && t.v < U64
    case Blob => t.Bytes? && |t.b| < U64
  }

  function WriteToken(s: Shape, t: Token): Str
    requires Fits(s, t)
  {
    match s
    case Fixed(_) => t.b
    case Varint => PutUvarint(t.v)
    case Blob => PutUvarint(|t.b|) + t.b
  }

  /** The form a read token has. */
  predicate Shaped(s: Shape, t: Token) {
    match s
    case Fixed(n) => t.Bytes? && |t.b| == n
    case Varint => t.Num?
    case Blob => t.Bytes?
  }

  /** One read; every failure is reported the same way. */
  function ReadToken(s: Shape, data: Str): (r: Option<(Token, Str)>)
    ensures r.Some? ==> Shaped(s, r.value.0)
  {
    match s
    case Fixed(n) => if |data| < n then None else Some((Bytes(data[..n]), data[n..]))
    case Varint =>
      (match ReadUvarint(data, 0)
       case None => None
       case Some((v, rest)) => Some((Num(v), rest)))
    case Blob =>
      (match ReadUvarint(data, 0)
       case None => None
       case Some((n, rest)) => if |rest| < n then None else Some((Bytes(rest[..n]), rest[n..])))
  }

  lemma TokenRoundTrip(s: Shape, t: Token, rest: Str)
    requires Fits(s, t)
    ensures ReadToken(s, WriteToken(s, t) + rest) == Some((t, rest))
  {
    RoomIs64Bits();
    match s
    case Fixed(n) =>
      assert (t.b + rest)[..n] == t.b && (t.b + rest)[n..] == rest;
    case Varint => UvarintRoundTrip(t.v, 0, rest);
    case Blob =>
      assert PutUvarint(|t.b|) + t.b + rest == PutUvarint(|t.b|) + (t.b + rest);
      UvarintRoundTrip(|t.b|, 0, t.b + rest);
      assert (t.b + rest)[..|t.b|] == t.b && (t.b + rest)[|t.b|..] == rest;
  }

  lemma TokenPrefix(s: Shape, t: Token, k: nat)
    requires Fits(s, t) && k < |WriteToken(s, t)|
    ensures ReadToken(s, WriteToken(s, t)[..k]) == None
  {
    match s
    case Fixed(n) =>
    case Varint => UvarintPrefix(t.v, 0, k);
    case Blob =>
      var len := PutUvarint(|t.b|);
      var all := len + t.b;
      if k < |len| {
        assert all[..k] == len[..k];
        UvarintPrefix(|t.b|, 0, k);
      } else {
        assert all[..k] == len + t.b[..k - |len|];
        RoomIs64Bits();
        UvarintRoundTrip(|t.b|, 0, t.b[..k - |len|]);
      }
  }

  ghost predicate AllFit(ss: seq<Shape>, ts: seq<Token>) {
    |ss| == |ts| && forall i :: 0 <= i < |ss| ==> Fits(ss[i], ts[i])
  }

  ghost function WriteAll(ss: seq<Shape>, ts: seq<Token>): Str
    requires AllFit(ss, ts)
  {
    if ss == [] then [] else WriteToken(ss[0], ts[0]) + WriteAll(ss[1..], ts[1..])
  }

  function ReadAll(ss: seq<Shape>, data: Str): (r: Option<(seq<Token>, Str)>)
    ensures r.Some? ==> |r.value.0| == |ss| && forall i :: 0 <= i < |ss| ==> Shaped(ss[i], r.value.0[i])
  {
    if ss == [] then Some(([], data))
    else
      match ReadToken(ss[0], data)
      case None => None
      case Some((t, rest)) =>
        match ReadAll(ss[1..], rest)
        case None => None
        case Some((ts, rest')) => Some(([t] + ts, rest'))
  }

  lemma ReadAllCons(ss: seq<Shape>, data: Str, t: Token, rest: Str, ts: seq<Token>, rest': Str)
    requires ss != [] && ReadToken(ss[0], data) == Some((t, rest)) && ReadAll(ss[1..], rest) == Some((ts, rest'))
    ensures ReadAll(ss, data) == Some(([t] + ts, rest'))
  {
  }

  lemma {:induction false} AllRoundTrip(ss: seq<Shape>, ts: seq<Token>, rest: Str)
    requires AllFit(ss, ts)
    ensures ReadAll(ss, WriteAll(ss, ts) + rest) == Some((ts, rest))
  {
    if ss == [] {
      assert WriteAll(ss, ts) + rest == rest;
    } else {
      var first, others := WriteToken(ss[0], ts[0]), WriteAll(ss[1..], ts[1..]);
      assert WriteAll(ss, ts) + rest == first + (others + rest);
      assert ts == [ts[0]] + ts[1..];
      TokenRoundTrip(ss[0], ts[0], others + rest);
      AllRoundTrip(ss[1..], ts[1..], rest);
      ReadAllCons(ss, WriteAll(ss, ts) + rest, ts[0], others + rest, ts[1..], rest);
    }
  }

  /** A record cut short anywhere fails to read. */
  lemma {:induction false} AllPrefix(ss: seq<Shape>, ts: seq<Token>, k: nat)
    requires AllFit(ss, ts) && k < |WriteAll(ss, ts)|
    ensures ReadAll(ss, WriteAll(ss, ts)[..k]) == None
  {
    var first, others := WriteToken(ss[0], ts[0]), WriteAll(ss[1..], ts[1..]);
    var all := first + others;
    if k < |first| {
      assert all[..k] == first[..k];
      TokenPrefix(ss[0], ts[0], k);
    } else {
      assert all[..k] == first + others[..k - |first|];
      TokenRoundTrip(ss[0], ts[0], others[..k - |first|]);
      AllPrefix(ss[1..], ts[1..], k - |first|);
    }
  }

  // ---------------------------------------------------------------------
  // Headers: a count, then that many key-value pairs in key order
  // ---------------------------------------------------------------------

  type Headers = map<Str, Str>

  ghost predicate HeadersFit(h: Headers) {
    |h| < U64 && forall k :: k in h ==> |k| < U64 && |h[k]| < U64
  }

  function PairTokens(h: Headers, keys: seq<Str>): seq<Token>
    requires forall k :: k in keys ==> k in h
  {
    if keys == [] then [] else [Bytes(keys[0]), Bytes(h[keys[0]])] + PairTokens(h, keys[1..])
  }

  function Blobs(n: nat): (r: seq<Shape>)
    ensures |r| == 2 * n && forall i :: 0 <= i < |r| ==> r[i] == Blob
  {
    seq(2 * n, i => Blob)
  }

  /** Later pairs overwrite earlier ones. */
  function FromPairs(ts: seq<Token>): Headers {
    if |ts| < 2 || !ts[|ts| - 2].Bytes? || !ts[|ts| - 1].Bytes? then map[]
    else FromPairs(ts[..|ts| - 2])[ts[|ts| - 2].b := ts[|ts| - 1].b]
  }

  lemma {:induction false} PairTokensFit(h: Headers, keys: seq<Str>)
    requires HeadersFit(h) && forall k :: k in keys ==> k in h
    ensures AllFit(Blobs(|keys|), PairTokens(h, keys))
  {
    if keys != [] {
      PairTokensFit(h, keys[1..]);
      var rest := PairTokens(h, keys[1..]);
      forall i | 0 <= i < 2 * |keys| ensures Fits(Blobs(|keys|)[i], PairTokens(h, keys)[i]) {
        if i < 2 {
          assert keys[0] in h;
        } else {
          assert PairTokens(h, keys)[i] == rest[i - 2];
          assert Fits(Blobs(|keys[1..]|)[i - 2], rest[i - 2]);
        }
      }
    }
  }

  lemma {:induction false} PairTokensAppend(h: Headers, keys: seq<Str>, k: Str)
    requires k in h && forall x :: x in keys ==> x in h
    ensures PairTokens(h, keys + [k]) == PairTokens(h, keys) + [Bytes(k), Bytes(h[k])]
  {
    if keys == [] {
      assert keys + [k] == [k] && [k][1..] == [];
    } else {
      assert (keys + [k])[1..] == keys[1..] + [k];
      PairTokensAppend(h, keys[1..], k);
    }
  }

  lemma {:induction false} FromPairTokens(h: Headers, keys: seq<Str>)
    requires forall k :: k in keys ==> k in h
    ensures FromPairs(PairTokens(h, keys)).Keys == set k | k in keys
    ensures forall k :: k in keys ==> FromPairs(PairTokens(h, keys))[k] == h[k]
  {
    if keys != [] {
      var n := |keys| - 1;
      assert keys == keys[..n] + [keys[n]];
      PairTokensAppend(h, keys[..n], keys[n]);
      FromPairTokens(h, keys[..n]);
      var ts := PairTokens(h, keys);
      assert ts[..|ts| - 2] == PairTokens(h, keys[..n]);
    }
  }

  /** Reading back the sorted pairs restores the map. */
  lemma HeadersRoundTrip(h: Headers)
    ensures FromPairs(PairTokens(h, SortedKeys(h.Keys))) == h
  {
    FromPairTokens(h, SortedKeys(h.Keys));
  }

  // ---------------------------------------------------------------------
  // The header loops
  // ---------------------------------------------------------------------

  function Prepend(ts: seq<Token>, r: Option<(seq<Token>, Str)>): Option<(seq<Token>, Str)> {
    match r
    case None => None
    case Some((us, rest)) => Some((ts + us, rest))
  }

  lemma ReadPair(n: nat, data: Str)
    requires n > 0
    ensures ReadAll(Blobs(n), data) ==
      match ReadToken(Blob, data)
      case None => None
      case Some((k, r1)) =>
        match ReadToken(Blob, r1)
        case None => None
        case Some((v, r2)) => Prepend([k, v], ReadAll(Blobs(n - 1), r2))
  {
    var ss := Blobs(n);
    assert ss[1..][1..] == Blobs(n - 1);
    match ReadToken(Blob, data)
    case None =>
    case Some((k, r1)) =>
      match ReadToken(Blob, r1)
      case None =>
      case Some((v, r2)) =>
        match ReadAll(Blobs(n - 1), r2)
        case None =>
        case Some((us, r3)) => assert [k] + ([v] + us) == [k, v] + us;
  }

  lemma PrependTwice(a: seq<Token>, b: seq<Token>, r: Option<(seq<Token>, Str)>)
    ensures Prepend(a, Prepend(b, r)) == Prepend(a + b, r)
  {
    if r.Some? { assert a + (b + r.value.0) == a + b + r.value.0; }
  }

  ghost function PairBytes(h: Headers, keys: seq<Str>): Str
    requires HeadersFit(h) && forall k :: k in keys ==> k in h
  {
    PairTokensFit(h, keys);
    WriteAll(Blobs(|keys|), PairTokens(h, keys))
  }

  lemma PairBytesCons(h: Headers, keys: seq<Str>)
    requires HeadersFit(h) && keys != [] && forall k :: k in keys ==> k in h
    ensures Fits(Blob, Bytes(keys[0])) && Fits(Blob, Bytes(h[keys[0]]))
    ensures PairBytes(h, keys) ==
      WriteToken(Blob, Bytes(keys[0])) + WriteToken(Blob, Bytes(h[keys[0]])) + PairBytes(h, keys[1..])
  {
    PairTokensFit(h, keys);
    PairTokensFit(h, keys[1..]);
    var ss, ts := Blobs(|keys|), PairTokens(h, keys);
    assert Fits(ss[0], ts[0]) && Fits(ss[1], ts[1]);
    assert ss[1..][1..] == Blobs(|keys| - 1) && ts[1..][1..] == PairTokens(h, keys[1..]);
    assert WriteAll(ss, ts) == WriteToken(ss[0], ts[0]) + WriteAll(ss[1..], ts[1..]);
    assert WriteAll(ss[1..], ts[1..]) == WriteToken(ss[1], ts[1]) + WriteAll(ss[1..][1..], ts[1..][1..]);
  }

  /** Writing side: the pairs in key order. */
  method WriteHeaders(h: Headers) returns (out: Str)
    requires HeadersFit(h)
    ensures out == PairBytes(h, SortedKeys(h.Keys))
  {
    var keys := SortedKeys(h.Keys);
    out := [];
    var i := 0;
    assert keys[0..] == keys;
    while i < |keys|
      invariant 0 <= i <= |keys|
      invariant out + PairBytesFrom(h, keys, i) == PairBytesFrom(h, keys, 0)
    {
      PairBytesStep(h, keys, i);
      out := AppendPair(out, keys[i], h[keys[i]], PairBytesFrom(h, keys, i + 1));
      i := i + 1;
    }
    assert PairBytesFrom(h, keys, |keys|) == [];
  }

  ghost function PairBytesFrom(h: Headers, keys: seq<Str>, i: nat): Str
    requires HeadersFit(h) && (forall k :: k in keys ==> k in h) && i <= |keys|
  {
    PairBytes(h, keys[i..])
  }

  lemma PairBytesStep(h: Headers, keys: seq<Str>, i: nat)
    requires HeadersFit(h) && (forall k :: k in keys ==> k in h) && i < |keys|
    ensures keys[i] in h && Fits(Blob, Bytes(keys[i])) && Fits(Blob, Bytes(h[keys[i]]))
    ensures PairBytesFrom(h, keys, i) ==
      WriteToken(Blob, Bytes(keys[i])) + WriteToken(Blob, Bytes(h[keys[i]])) + PairBytesFrom(h, keys, i + 1)
  {
    assert keys[i] in keys;
    assert keys[i..][0] == keys[i] && keys[i..][1..] == keys[i + 1..];
    PairBytesCons(h, keys[i..]);
  }

  method AppendPair(out: Str, k: Str, v: Str, ghost rest: Str) returns (out': Str)
    requires Fits(Blob, Bytes(k)) && Fits(Blob, Bytes(v))
    ensures out' == out + WriteToken(Blob, Bytes(k)) + WriteToken(Blob, Bytes(v))
    ensures out' + rest == out + (WriteToken(Blob, Bytes(k)) + WriteToken(Blob, Bytes(v)) + rest)
  {
    out' := out + WriteToken(Blob, Bytes(k)) + WriteToken(Blob, Bytes(v));
  }

  lemma {:induction false} WriteAllAppend(ss: seq<Shape>, ts: seq<Token>, s: Shape, t: Token)
    requires AllFit(ss, ts) && Fits(s, t)
    ensures AllFit(ss + [s], ts + [t]) && WriteAll(ss + [s], ts + [t]) == WriteAll(ss, ts) + WriteToken(s, t)
    decreases |ss|
  {
    if ss == [] {
      assert ss + [s] == [s] && ts + [t] == [t] && [s][1..] == [] && [t][1..] == [];
      assert WriteAll([s], [t]) == WriteToken(s, t) + WriteAll([s][1..], [t][1..]);
    } else {
      var ss', ts' := ss + [s], ts + [t];
      assert ss'[1..] == ss[1..] + [s] && ts'[1..] == ts[1..] + [t];
      WriteAllAppend(ss[1..], ts[1..], s, t);
      AppendAssoc(WriteToken(ss[0], ts[0]), WriteAll(ss[1..], ts[1..]), WriteToken(s, t));
      assert WriteAll(ss', ts') == WriteToken(ss[0], ts[0]) + WriteAll(ss'[1..], ts'[1..]);
    }
  }

  lemma AppendAssoc(a: Str, b: Str, c: Str)
    ensures a + (b + c) == a + b + c
  {
  }

  /** A frame's fields, one after another. */
  method WriteTokens(ss: seq<Shape>, ts: seq<Token>) returns (buf: Str)
    requires AllFit(ss, ts)
    ensures buf == WriteAll(ss, ts)
  {
    buf := [];
    var i := 0;
    while i < |ss|
      invariant 0 <= i <= |ss| && AllFit(ss[..i], ts[..i])
      invariant buf == WriteAll(ss[..i], ts[..i])
    {
      WriteTokensStep(ss, ts, i);
      buf := buf + WriteToken(ss[i], ts[i]);
      i := i + 1;
    }
    assert ss[..i] == ss && ts[..i] == ts;
  }

  lemma WriteTokensStep(ss: seq<Shape>, ts: seq<Token>, i: nat)
    requires AllFit(ss, ts) && i < |ss| && AllFit(ss[..i], ts[..i])
    ensures Fits(ss[i], ts[i]) && AllFit(ss[..i + 1], ts[..i + 1])
    ensures WriteAll(ss[..i + 1], ts[..i + 1]) == WriteAll(ss[..i], ts[..i]) + WriteToken(ss[i], ts[i])
  {
    WriteAllAppend(ss[..i], ts[..i], ss[i], ts[i]);
    assert ss[..i] + [ss[i]] == ss[..i + 1] && ts[..i] + [ts[i]] == ts[..i + 1];
  }

  lemma PrependNothing(r: Option<(seq<Token>, Str)>)
    ensures Prepend([], r) == r
  {
    if r.Some? { assert [] + r.value.0 == r.value.0; }
  }

  /** Reading side: `n` pairs, later keys overwriting. */
  method ReadHeaders(n: nat, data: Str) returns (r: Option<(Headers, Str)>)
    ensures r == match ReadAll(Blobs(n), data)
                 case None => None
                 case Some((ts, rest)) => Some((FromPairs(ts), rest))
  {
    var h: Headers := map[];
    ghost var acc: seq<Token> := [];
    var rest := data;
    var i := 0;
    PrependNothing(ReadAll(Blobs(n), data));
    while i < n
      invariant 0 <= i <= n
      invariant Prepend(acc, ReadAll(Blobs(n - i), rest)) == ReadAll(Blobs(n), data)
      invariant h == FromPairs(acc)
      invariant |acc| == 2 * i && forall j :: 0 <= j < |acc| ==> acc[j].Bytes?
    {
      ReadPair(n - i, rest);
      var first := ReadToken(Blob, rest);
      if first.None? { return None; }
      var second := ReadToken(Blob, first.value.1);
      if second.None? { return None; }
      var k, v := first.value.0, second.value.0;
      PrependTwice(acc, [k, v], ReadAll(Blobs(n - i - 1), second.value.1));
      ghost var acc' := acc + [k, v];
      assert acc'[..|acc'| - 2] == acc;
      h := h[k.b := v.b];
      rest, acc, i := second.value.1, acc', i + 1;
    }
    assert Blobs(0) == [];
    assert acc + [] == acc;
    return Some((h, rest));
  }
}
