/** The frame exchanged with gateway clients, gateway/frame_binary.go. */
module GatewayFrame {
  import opened Common
  import opened Wire

  datatype WireFrame = WireFrame(
    flags: Byte, kind: Byte, corID: nat, seqNo: nat, transID: nat,
    callID: Str, subID: Str, target: Str, errorMsg: Str, payload: Str,
    headers: Headers, sender: Str)

  datatype Result = Ok(frame: WireFrame) | Truncated | Malformed

  /** "GSF\x01" */
  const MAGIC: Str := [71, 83, 70, 1]
  const VERSION: Byte := 2

  ghost predicate Typed(f: WireFrame) {
    && f.corID < U64 && f.seqNo < U32 && f.transID < U64
    && |f.callID| < U64 && |f.subID| < U64 && |f.target| < U64 && |f.errorMsg| < U64 && |f.payload| < U64
    && |f.sender| < U64 && HeadersFit(f.headers)
  }

  const HEAD: seq<Shape> := [Fixed(1), Fixed(1), Fixed(20), Blob, Blob, Blob, Blob, Blob, Varint]

  function HeadTokens(f: WireFrame): seq<Token> {
    [Bytes([f.flags]), Bytes([f.kind]),
     Bytes(BigEndian(f.corID, 8) + BigEndian(f.seqNo, 4) + BigEndian(f.transID, 8)),
     Bytes(f.callID), Bytes(f.subID), Bytes(f.target), Bytes(f.errorMsg), Bytes(f.payload), Num(|f.headers|)]
  }

  lemma HeadFits(f: WireFrame)
    requires Typed(f)
    ensures AllFit(HEAD, HeadTokens(f))
  {
    forall i | 0 <= i < 9 ensures Fits(HEAD[i], HeadTokens(f)[i]) {
      if i < 3 { } else if i < 6 { } else { }
    }
  }

  /** Everything up to the trailing From field. */
  ghost function Body(f: WireFrame): Str
    requires Typed(f)
  {
    HeadFits(f);
    WriteAll(HEAD, HeadTokens(f)) + PairBytes(f.headers, SortedKeys(f.headers.Keys))
  }

  ghost function Required(f: WireFrame): Str
    requires Typed(f)
  {
    MAGIC + [VERSION] + Body(f)
  }

  /** marshalWireFrameTo */
  ghost function Encode(f: WireFrame): Str
    requires Typed(f)
  {
    Required(f) + WriteToken(Blob, Bytes(f.sender))
  }

  function FrameOf(ts: seq<Token>, headers: Headers, sender: Str): WireFrame
    requires |ts| == |HEAD| && forall i :: 0 <= i < |HEAD| ==> Shaped(HEAD[i], ts[i])
  {
    assert Shaped(HEAD[0], ts[0]) && Shaped(HEAD[1], ts[1]) && Shaped(HEAD[2], ts[2]) && Shaped(HEAD[3], ts[3]);
    assert Shaped(HEAD[4], ts[4]) && Shaped(HEAD[5], ts[5]) && Shaped(HEAD[6], ts[6]) && Shaped(HEAD[7], ts[7]);
    WireFrame(ts[0].b[0], ts[1].b[0],
              FromBigEndian(ts[2].b[..8]), FromBigEndian(ts[2].b[8..12]), FromBigEndian(ts[2].b[12..]),
              ts[3].b, ts[4].b, ts[5].b, ts[6].b, ts[7].b, headers, sender)
  }

  function HeaderCount(ts: seq<Token>): nat
    requires |ts| == |HEAD| && forall i :: 0 <= i < |HEAD| ==> Shaped(HEAD[i], ts[i])
  {
    assert Shaped(HEAD[8], ts[8]);
    ts[8].v
  }

  /** From is optional: absent or unreadable, it is left empty. */
  function TrailingFrom(rest: Str): Str {
    if rest == [] then []
    else match ReadToken(Blob, rest) case None => [] case Some((t, _)) => t.b
  }

  function ReadBody(data: Str): Result {
    match ReadAll(HEAD, data)
    case None => Truncated
    case Some((ts, rest)) =>
      match ReadAll(Blobs(HeaderCount(ts)), rest)
      case None => Truncated
      case Some((ps, rest')) => Ok(FrameOf(ts, FromPairs(ps), TrailingFrom(rest')))
  }

  /** UnmarshalWireFrame: magic and version are checked as soon as they are read. */
  function Unmarshal(data: Str): Result {
    if |data| < 4 then Truncated
    else if data[..4] != MAGIC then Malformed
    else if |data| < 5 then Truncated
    else if data[4] != VERSION then Malformed
    else ReadBody(data[5..])
  }

  lemma FrameOfHead(f: WireFrame)
    requires Typed(f)
    ensures AllFit(HEAD, HeadTokens(f)) && (forall i :: 0 <= i < |HEAD| ==> Shaped(HEAD[i], HeadTokens(f)[i]))
    ensures HeaderCount(HeadTokens(f)) == |f.headers|
    ensures forall s :: FrameOf(HeadTokens(f), f.headers, s) == f.(sender := s)
  {
    HeadFits(f);
    var ts := HeadTokens(f);
    Powers();
    BigEndianRoundTrip(f.corID, 8);
    BigEndianRoundTrip(f.seqNo, 4);
    BigEndianRoundTrip(f.transID, 8);
    assert ts[2].b[..8] == BigEndian(f.corID, 8);
    assert ts[2].b[8..12] == BigEndian(f.seqNo, 4);
    assert ts[2].b[12..] == BigEndian(f.transID, 8);
    forall i | 0 <= i < |HEAD| ensures Shaped(HEAD[i], ts[i]) { assert Fits(HEAD[i], ts[i]); }
  }

  lemma BodyRead(f: WireFrame, rest: Str)
    requires Typed(f)
    ensures ReadBody(Body(f) + rest) == Ok(f.(sender := TrailingFrom(rest)))
  {
    FrameOfHead(f);
    var keys := SortedKeys(f.headers.Keys);
    var head, pairs := WriteAll(HEAD, HeadTokens(f)), PairBytes(f.headers, keys);
    AppendAssoc(head, pairs, rest);
    AllRoundTrip(HEAD, HeadTokens(f), pairs + rest);
    PairTokensFit(f.headers, keys);
    AllRoundTrip(Blobs(|f.headers|), PairTokens(f.headers, keys), rest);
    HeadersRoundTrip(f.headers);
  }

  lemma BodyPrefix(f: WireFrame, k: nat)
    requires Typed(f) && k < |Body(f)|
    ensures ReadBody(Body(f)[..k]) == Truncated
  {
    FrameOfHead(f);
    var keys := SortedKeys(f.headers.Keys);
    var head, pairs := WriteAll(HEAD, HeadTokens(f)), PairBytes(f.headers, keys);
    if k < |head| {
      assert Body(f)[..k] == head[..k];
      AllPrefix(HEAD, HeadTokens(f), k);
    } else {
      var j := k - |head|;
      assert Body(f)[..k] == head + pairs[..j];
      AllRoundTrip(HEAD, HeadTokens(f), pairs[..j]);
      PairTokensFit(f.headers, keys);
      AllPrefix(Blobs(|f.headers|), PairTokens(f.headers, keys), j);
    }
  }

  lemma AfterPreamble(data: Str)
    ensures Unmarshal(MAGIC + [VERSION] + data) == ReadBody(data)
  {
    var all := MAGIC + [VERSION] + data;
    assert all[..4] == MAGIC && all[4] == VERSION && all[5..] == data;
  }

  lemma TrailingFromReads(s: Str, k: nat)
    requires |s| < U64
    ensures TrailingFrom(WriteToken(Blob, Bytes(s))) == s
    ensures k < |WriteToken(Blob, Bytes(s))| ==> TrailingFrom(WriteToken(Blob, Bytes(s))[..k]) == []
    ensures |WriteToken(Blob, Bytes(s))| > 0
  {
    TokenRoundTrip(Blob, Bytes(s), []);
    assert WriteToken(Blob, Bytes(s)) + [] == WriteToken(Blob, Bytes(s));
    if k < |WriteToken(Blob, Bytes(s))| { TokenPrefix(Blob, Bytes(s), k); }
  }

  /** A wire frame survives the round trip. */
  lemma RoundTrip(f: WireFrame)
    requires Typed(f)
    ensures Unmarshal(Encode(f)) == Ok(f)
  {
    var tail := WriteToken(Blob, Bytes(f.sender));
    AppendAssoc(MAGIC + [VERSION], Body(f), tail);
    AfterPreamble(Body(f) + tail);
    BodyRead(f, tail);
    TrailingFromReads(f.sender, 0);
  }

  /** Cut anywhere before the trailing From field it is rejected as truncated; cut
      inside that field or right before it, only From is lost. */
  lemma StrictPrefix(f: WireFrame, k: nat)
    requires Typed(f) && k < |Encode(f)|
    ensures Unmarshal(Encode(f)[..k]) == if k < |Required(f)| then Truncated else Ok(f.(sender := []))
  {
    if k < 5 {
      PreamblePrefix(f, k);
    } else if k < |Required(f)| {
      CutInBody(f, k);
    } else {
      CutInSender(f, k);
    }
  }

  lemma CutMiddle(a: Str, b: Str, c: Str, k: nat)
    requires k <= |b|
    ensures (a + b + c)[..|a| + k] == a + b[..k]
  {
  }

  lemma CutInBody(f: WireFrame, k: nat)
    requires Typed(f) && 5 <= k < |Required(f)|
    ensures k < |Encode(f)| && Unmarshal(Encode(f)[..k]) == Truncated
  {
    var data, rest := Encode(f)[..k], Body(f)[..k - 5];
    assert data == MAGIC + [VERSION] + rest by {
      CutMiddle(MAGIC + [VERSION], Body(f), WriteToken(Blob, Bytes(f.sender)), k - 5);
    }
    assert ReadBody(rest) == Truncated by { BodyPrefix(f, k - 5); }
    AfterPreamble(rest);
  }

  lemma CutInSender(f: WireFrame, k: nat)
    requires Typed(f) && |Required(f)| <= k < |Encode(f)|
    ensures Unmarshal(Encode(f)[..k]) == Ok(f.(sender := []))
  {
    var tail, j := WriteToken(Blob, Bytes(f.sender)), k - |Required(f)|;
    assert Encode(f)[..k] == Required(f) + tail[..j];
    AppendAssoc(MAGIC + [VERSION], Body(f), tail[..j]);
    AfterPreamble(Body(f) + tail[..j]);
    BodyRead(f, tail[..j]);
    TrailingFromReads(f.sender, j);
  }

  lemma PreamblePrefix(f: WireFrame, k: nat)
    requires Typed(f) && k < 5
    ensures k < |Required(f)| && k < |Encode(f)| && Unmarshal(Encode(f)[..k]) == Truncated
  {
    var p := Encode(f)[..k];
    if k == 4 { assert p == MAGIC; }
  }

  // ---------------------------------------------------------------------
  // Flags
  // ---------------------------------------------------------------------

  /** Bits 0-1 encoding, bits 2-3 compression. */
  function MakeFlags(enc: bv8, comp: bv8): bv8 { enc | (comp << 2) }
  function Encoding(f: bv8): bv8 { f & 0x03 }
  function Compression(f: bv8): bv8 { (f >> 2) & 0x03 }

  /** Packing is lossless exactly for two-bit values. */
  lemma FlagsRoundTrip(enc: bv8, comp: bv8)
    ensures Encoding(MakeFlags(enc, comp)) == enc && Compression(MakeFlags(enc, comp)) == comp
            <==> enc < 4 && comp < 4
  {
  }

  /** marshalWireFrameTo with its header loop. */
  method MarshalFrame(f: WireFrame) returns (buf: Str)
    requires Typed(f)
    ensures buf == Encode(f)
  {
    HeadFits(f);
    buf := MAGIC + [VERSION];
    var head := WriteTokens(HEAD, HeadTokens(f));
    var pairs := WriteHeaders(f.headers);
    buf := buf + (head + pairs);
    buf := buf + WriteToken(Blob, Bytes(f.sender));
  }

  /** UnmarshalWireFrame with its header loop. */
  method UnmarshalFrame(data: Str) returns (r: Result)
    ensures r == Unmarshal(data)
  {
    if |data| < 4 { return Truncated; }
    if data[..4] != MAGIC { return Malformed; }
    if |data| < 5 { return Truncated; }
    if data[4] != VERSION { return Malformed; }
    var head := ReadAll(HEAD, data[5..]);
    if head.None? { return Truncated; }
    var (ts, rest) := head.value;
    var pairs := ReadHeaders(HeaderCount(ts), rest);
    if pairs.None? { return Truncated; }
    var sender := TrailingFrom(pairs.value.1);
    return Ok(FrameOf(ts, pairs.value.0, sender));
  }
}
