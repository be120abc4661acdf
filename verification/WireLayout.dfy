/** The bytes of the two frames, position by position, as another implementation of the
    protocol would have to write and read them. */
module WireLayout {
  import opened Common
  import opened Wire
  import M = MessageFrame
  import G = GatewayFrame

  // ---------------------------------------------------------------------
  // Integers
  // ---------------------------------------------------------------------

  /** Shifts to the right by `k` bytes, and by `k` groups of seven bits. */
  function ShiftBytes(v: nat, k: nat): nat { if k == 0 then v else ShiftBytes(v / 256, k - 1) }
  function ShiftGroups(v: nat, k: nat): nat { if k == 0 then v else ShiftGroups(v / 128, k - 1) }

  /** Byte `k` of a fixed-width field: the most significant byte comes first. */
  lemma {:induction false} BigEndianByte(v: nat, n: nat, k: nat)
    requires k < n
    ensures BigEndian(v, n)[k] == ShiftBytes(v, n - 1 - k) % 256
    decreases n
  {
    if k < n - 1 {
      BigEndianByte(v / 256, n - 1, k);
      assert BigEndian(v, n)[k] == BigEndian(v / 256, n - 1)[k];
    }
  }

  /** Byte `k` of a varint: seven bits, the least significant first, with a mark on all bytes
      but the last. */
  lemma {:induction false} UvarintByte(v: nat, k: nat)
    requires k < |PutUvarint(v)|
    ensures PutUvarint(v)[k] == ShiftGroups(v, k) % 128 + if k < |PutUvarint(v)| - 1 then 128 else 0
    decreases v
  {
    if k > 0 {
      assert PutUvarint(v)[k] == PutUvarint(v / 128)[k - 1];
      UvarintByte(v / 128, k - 1);
    }
  }

  /** A varint has every group that is not zero, and none too many. */
  lemma {:induction false} UvarintShortest(v: nat)
    ensures var n := |PutUvarint(v)|;
      n >= 1 && ShiftGroups(v, n) == 0 && (n > 1 ==> ShiftGroups(v, n - 1) > 0)
    decreases v
  {
    if v >= 128 { UvarintShortest(v / 128); } else { assert ShiftGroups(v / 128, 0) == 0; }
  }

  /** The number that marked bytes and a last unmarked one stand for. */
  function Groups(b: Str): nat { if b == [] then 0 else b[0] % 128 + 128 * Groups(b[1..]) }

  /** `k` is where the first unmarked byte stands. */
  ghost predicate StopsAt(data: Str, k: nat) {
    k < |data| && data[k] < 128 && forall j :: 0 <= j < k ==> data[j] >= 128
  }

  /** A varint is read up to its first unmarked byte, if that is among the first ten and, as the
      tenth, at most 1: more does not fit 64 bits. */
  lemma {:induction false} ReadUvarintIff(data: Str, i: nat, k: nat)
    requires StopsAt(data, k)
    ensures ReadUvarint(data, i) ==
      if i + k < 9 || (i + k == 9 && data[k] <= 1) then Some((Groups(data[..k + 1]), data[k + 1..])) else None
    decreases k
  {
    if k > 0 {
      var tail := data[1..];
      assert tail[k - 1] == data[k] && forall j :: 0 <= j < k - 1 ==> tail[j] == data[j + 1];
      assert StopsAt(tail, k - 1);
      ReadUvarintIff(tail, i + 1, k - 1);
      assert data[..k + 1][1..] == tail[..k] && tail[k..] == data[k + 1..];
      assert data[..k + 1][0] == data[0];
      assert data[0] >= 128;
    } else {
      assert data[..1] == [data[0]] && [data[0]][1..] == [];
      assert Groups([data[0]]) == data[0] % 128 + 128 * Groups([]);
    }
  }

  /** Without an unmarked byte there is no varint. */
  lemma {:induction false} EndlessVarint(data: Str, i: nat)
    requires forall b <- data :: b >= 128
    ensures ReadUvarint(data, i) == None
    decreases |data|
  {
    if data != [] {
      assert data[0] in data && forall b <- data[1..] :: b in data;
      EndlessVarint(data[1..], i + 1);
    }
  }

  // ---------------------------------------------------------------------
  // Headers
  // ---------------------------------------------------------------------

  /** The `i`-th pair of a header list. */
  ghost predicate PairAt(ts: seq<Token>, i: nat, k: Str, v: Str) {
    2 * i + 1 < |ts| && ts[2 * i] == Bytes(k) && ts[2 * i + 1] == Bytes(v)
  }

  ghost predicate KeyAt(ts: seq<Token>, i: nat, k: Str) { exists v :: PairAt(ts, i, k, v) }

  /** In any order of the pairs, a key has the value of the last pair that carries it. */
  lemma {:induction false} LastPairWins(ts: seq<Token>, i: nat, k: Str, v: Str)
    requires |ts| % 2 == 0 && (forall t <- ts :: t.Bytes?) && PairAt(ts, i, k, v)
    requires forall j: nat :: i < j < |ts| / 2 ==> !KeyAt(ts, j, k)
    ensures k in FromPairs(ts) && FromPairs(ts)[k] == v
    decreases |ts|
  {
    var n := |ts| - 2;
    var before := ts[..n];
    if 2 * i < n {
      forall j: nat | i < j < |before| / 2 ensures !KeyAt(before, j, k) {
        assert !KeyAt(ts, j, k);
        forall u ensures !PairAt(before, j, k, u) { assert !PairAt(ts, j, k, u); }
      }
      assert PairAt(before, i, k, v);
      assert forall t <- before :: t in ts;
      LastPairWins(before, i, k, v);
      assert !KeyAt(ts, n / 2, k);
      assert PairAt(ts, n / 2, ts[n].b, ts[n + 1].b);
      assert ts[n].b != k;
    } else {
      assert ts[n].b == k && ts[n + 1].b == v;
    }
  }

  // ---------------------------------------------------------------------
  // Frames
  // ---------------------------------------------------------------------

  function Join(parts: seq<Str>): Str { if parts == [] then [] else parts[0] + Join(parts[1..]) }

  /** A length and then the bytes. */
  function Prefixed(s: Str): Str { PutUvarint(|s|) + s }

  ghost function Written(ss: seq<Shape>, ts: seq<Token>): (parts: seq<Str>)
    requires AllFit(ss, ts)
    ensures |parts| == |ss| && forall i :: 0 <= i < |ss| ==> parts[i] == WriteToken(ss[i], ts[i])
  {
    if ss == [] then [] else [WriteToken(ss[0], ts[0])] + Written(ss[1..], ts[1..])
  }

  lemma {:induction false} WriteAllJoins(ss: seq<Shape>, ts: seq<Token>)
    requires AllFit(ss, ts)
    ensures WriteAll(ss, ts) == Join(Written(ss, ts))
  {
    if ss != [] {
      WriteAllJoins(ss[1..], ts[1..]);
      assert Written(ss, ts)[1..] == Written(ss[1..], ts[1..]);
    }
  }

  ghost function Pairs(h: Headers, keys: seq<Str>): Str
    requires forall k :: k in keys ==> k in h
  {
    if keys == [] then [] else Prefixed(keys[0]) + Prefixed(h[keys[0]]) + Pairs(h, keys[1..])
  }

  lemma {:induction false} PairBytesLayout(h: Headers, keys: seq<Str>)
    requires HeadersFit(h) && forall k :: k in keys ==> k in h
    ensures PairBytes(h, keys) == Pairs(h, keys)
  {
    if keys != [] {
      PairBytesCons(h, keys);
      PairBytesLayout(h, keys[1..]);
    }
  }

  function MessageParts(f: M.Frame): seq<Str> {
    [f.sender, f.target, [f.kind], BigEndian(f.corID, 8) + BigEndian(f.seqNo, 4),
     Prefixed(f.callID), Prefixed(f.schemaNS), PutUvarint(f.schemaID),
     [f.payloadMode], [f.encoding], Prefixed(f.body), PutUvarint(|f.headers|)]
  }

  /** The fields of a message frame in the order they are written; then its headers, sorted. */
  lemma MessageLayout(f: M.Frame)
    requires M.Typed(f)
    ensures M.Encode(f) == Join(MessageParts(f)) + Pairs(f.headers, SortedKeys(f.headers.Keys))
  {
    M.HeadFits(f);
    WriteAllJoins(M.HEAD, M.HeadTokens(f));
    MessageTokens(f);
    PairBytesLayout(f.headers, SortedKeys(f.headers.Keys));
  }

  lemma MessageTokens(f: M.Frame)
    requires M.Typed(f) && AllFit(M.HEAD, M.HeadTokens(f))
    ensures Written(M.HEAD, M.HeadTokens(f)) == MessageParts(f)
  {
    forall i | 0 <= i < 11 ensures WriteToken(M.HEAD[i], M.HeadTokens(f)[i]) == MessageParts(f)[i] {
      if i < 6 { MessageTokenFirst(f, i); } else { MessageTokenRest(f, i); }
    }
  }

  lemma MessageTokenFirst(f: M.Frame, i: nat)
    requires M.Typed(f) && AllFit(M.HEAD, M.HeadTokens(f)) && i < 6
    ensures WriteToken(M.HEAD[i], M.HeadTokens(f)[i]) == MessageParts(f)[i]
  {
  }

  lemma MessageTokenRest(f: M.Frame, i: nat)
    requires M.Typed(f) && AllFit(M.HEAD, M.HeadTokens(f)) && 6 <= i < 11
    ensures WriteToken(M.HEAD[i], M.HeadTokens(f)[i]) == MessageParts(f)[i]
  {
  }

  /** A message whose header pairs come in any order, with repeated keys, is read as well. */
  lemma AnyPairsRead(f: M.Frame, n: nat, ps: seq<Token>, trailing: Str)
    requires M.Typed(f) && M.Valid(f) && n < U64 && AllFit(Blobs(n), ps)
    ensures var ts := M.HeadTokens(f)[10 := Num(n)];
      && AllFit(M.HEAD, ts)
      && M.Unmarshal(WriteAll(M.HEAD, ts) + (WriteAll(Blobs(n), ps) + trailing)) == M.Ok(f.(headers := FromPairs(ps)))
  {
    var ts, pairs := M.HeadTokens(f)[10 := Num(n)], WriteAll(Blobs(n), ps);
    M.FrameOfHead(f);
    forall i | 0 <= i < 11 ensures Fits(M.HEAD[i], ts[i]) && Shaped(M.HEAD[i], ts[i]) {
      if i < 10 { assert ts[i] == M.HeadTokens(f)[i] && Fits(M.HEAD[i], M.HeadTokens(f)[i]); }
    }
    AllRoundTrip(M.HEAD, ts, pairs + trailing);
    AllRoundTrip(Blobs(n), ps, trailing);
    SameFields(f, ts, n, FromPairs(ps));
  }

  lemma SameFields(f: M.Frame, ts: seq<Token>, n: nat, h: Headers)
    requires M.Typed(f) && ts == M.HeadTokens(f)[10 := Num(n)]
    requires forall i :: 0 <= i < |M.HEAD| ==> Shaped(M.HEAD[i], ts[i])
    ensures M.FrameOf(ts, h) == f.(headers := h) && M.HeaderCount(ts) == n
  {
    M.FrameOfHead(f);
    var us := M.HeadTokens(f);
    assert forall i :: 0 <= i < 10 ==> ts[i] == us[i];
    assert M.FrameOf(us, h) == M.FrameOf(us, f.headers).(headers := h);
  }

  /** The payload metadata that validation lets pass. */
  lemma ValidIff(f: M.Frame)
    ensures M.Valid(f) <==>
      || (f.payloadMode == 0 && f.encoding == 0)
      || (f.kind in {1, 2, 6} && f.payloadMode == 1 && f.encoding in {1, 2})
  {
  }

  function GatewayParts(f: G.WireFrame): seq<Str> {
    [[f.flags], [f.kind], BigEndian(f.corID, 8) + BigEndian(f.seqNo, 4) + BigEndian(f.transID, 8),
     Prefixed(f.callID), Prefixed(f.subID), Prefixed(f.target), Prefixed(f.errorMsg), Prefixed(f.payload),
     PutUvarint(|f.headers|)]
  }

  lemma BodyLayout(f: G.WireFrame)
    requires G.Typed(f)
    ensures G.Body(f) == Join(GatewayParts(f)) + Pairs(f.headers, SortedKeys(f.headers.Keys))
  {
    G.HeadFits(f);
    WriteAllJoins(G.HEAD, G.HeadTokens(f));
    GatewayTokens(f);
    PairBytesLayout(f.headers, SortedKeys(f.headers.Keys));
  }

  /** The fields of a gateway frame in the order they are written, between its preamble and its
      headers; From comes last. */
  lemma GatewayLayout(f: G.WireFrame)
    requires G.Typed(f)
    ensures G.Encode(f) == [71, 83, 70, 1, 2] + (Join(GatewayParts(f))
      + Pairs(f.headers, SortedKeys(f.headers.Keys))) + Prefixed(f.sender)
  {
    BodyLayout(f);
    assert G.MAGIC + [G.VERSION] == [71, 83, 70, 1, 2];
  }

  lemma GatewayTokens(f: G.WireFrame)
    requires G.Typed(f) && AllFit(G.HEAD, G.HeadTokens(f))
    ensures Written(G.HEAD, G.HeadTokens(f)) == GatewayParts(f)
  {
    var parts := GatewayParts(f);
    forall i | 0 <= i < 9 ensures WriteToken(G.HEAD[i], G.HeadTokens(f)[i]) == parts[i] {
      if i < 3 { } else if i < 6 { } else { }
    }
  }

  /** Data that does not start with the magic and version 2 is malformed as soon as that shows,
      and truncated before. */
  lemma BadPreamble(data: Str)
    ensures |data| < 4 || data == [71, 83, 70, 1] ==> G.Unmarshal(data) == G.Truncated
    ensures |data| >= 4 && data[..4] != [71, 83, 70, 1] ==> G.Unmarshal(data) == G.Malformed
    ensures |data| >= 5 && data[4] != 2 ==> G.Unmarshal(data) == G.Malformed
  {
  }

  /** Encoding in the two low bits of the flags, compression in the next two. */
  lemma FlagsBits(enc: bv8, comp: bv8)
    requires enc < 4 && comp < 4
    ensures G.MakeFlags(enc, comp) == 4 * comp + enc
    ensures forall f: bv8 :: G.Encoding(f) == f % 4 && G.Compression(f) == f / 4 % 4
  {
  }
}
