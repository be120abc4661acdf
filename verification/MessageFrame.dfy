/** The frame exchanged between actors, message/frame.go. */
module MessageFrame {
  import opened Common
  import opened Wire

  datatype Frame = Frame(
    sender: Str, target: Str, kind: Byte, corID: nat, seqNo: nat,
    callID: Str, schemaNS: Str, schemaID: nat,
    payloadMode: Byte, encoding: Byte, body: Str, headers: Headers)

  datatype Result = Ok(frame: Frame) | Truncated | Malformed

  const CALL: Byte := 1
  const REPLY: Byte := 2
  const SYSTEM: Byte := 6
  const MODE_VALUE: Byte := 0
  const MODE_RAW: Byte := 1
  const ENC_NONE: Byte := 0
  const ENC_JSON: Byte := 1
  const ENC_BINARY: Byte := 2

  /** validateFrame */
  predicate Valid(f: Frame) {
    if f.kind == REPLY || f.kind == CALL || f.kind == SYSTEM then
      if f.payloadMode == MODE_VALUE then f.encoding == ENC_NONE
      else f.payloadMode == MODE_RAW && (f.encoding == ENC_JSON || f.encoding == ENC_BINARY)
    else f.payloadMode == MODE_VALUE && f.encoding == ENC_NONE
  }

  /** The widths of the Go fields. */
  ghost predicate Typed(f: Frame) {
    && |f.sender| == 16 && |f.target| == 16
    && f.corID < U64 && f.seqNo < U32 && f.schemaID < U64
    && |f.callID| < U64 && |f.schemaNS| < U64 && |f.body| < U64
    && HeadersFit(f.headers)
  }

  const HEAD: seq<Shape> :=
    [Fixed(16), Fixed(16), Fixed(1), Fixed(12), Blob, Blob, Varint, Fixed(1), Fixed(1), Blob, Varint]

  function HeadTokens(f: Frame): seq<Token> {
    [Bytes(f.sender), Bytes(f.target), Bytes([f.kind]),
     Bytes(BigEndian(f.corID, 8) + BigEndian(f.seqNo, 4)),
     Bytes(f.callID), Bytes(f.schemaNS), Num(f.schemaID),
     Bytes([f.payloadMode]), Bytes([f.encoding]), Bytes(f.body), Num(|f.headers|)]
  }

  lemma HeadFits(f: Frame)
    requires Typed(f)
    ensures AllFit(HEAD, HeadTokens(f))
  {
    forall i | 0 <= i < 11 ensures Fits(HEAD[i], HeadTokens(f)[i]) {
      if i < 4 { } else if i < 8 { } else { }
    }
  }

  ghost function HeaderBytes(h: Headers): Str
    requires HeadersFit(h)
  {
    PairBytes(h, SortedKeys(h.Keys))
  }

  /** The canonical byte sequence of a valid frame. */
  ghost function Encode(f: Frame): Str
    requires Typed(f)
  {
    HeadFits(f);
    WriteAll(HEAD, HeadTokens(f)) + HeaderBytes(f.headers)
  }

  function FrameOf(ts: seq<Token>, headers: Headers): Frame
    requires |ts| == |HEAD| && forall i :: 0 <= i < |HEAD| ==> Shaped(HEAD[i], ts[i])
  {
    assert Shaped(HEAD[0], ts[0]) && Shaped(HEAD[1], ts[1]) && Shaped(HEAD[2], ts[2]) && Shaped(HEAD[3], ts[3]);
    assert Shaped(HEAD[4], ts[4]) && Shaped(HEAD[5], ts[5]) && Shaped(HEAD[6], ts[6]) && Shaped(HEAD[7], ts[7]);
    assert Shaped(HEAD[8], ts[8]) && Shaped(HEAD[9], ts[9]);
    Frame(ts[0].b, ts[1].b, ts[2].b[0], FromBigEndian(ts[3].b[..8]), FromBigEndian(ts[3].b[8..]),
          ts[4].b, ts[5].b, ts[6].v, ts[7].b[0], ts[8].b[0], ts[9].b, headers)
  }

  function HeaderCount(ts: seq<Token>): nat
    requires |ts| == |HEAD| && forall i :: 0 <= i < |HEAD| ==> Shaped(HEAD[i], ts[i])
  {
    assert Shaped(HEAD[10], ts[10]);
    ts[10].v
  }

  /** Unmarshal: any read that runs dry is a truncation; a frame that reads well is then validated. */
  function Unmarshal(data: Str): Result {
    match ReadAll(HEAD, data)
    case None => Truncated
    case Some((ts, rest)) =>
      match ReadAll(Blobs(HeaderCount(ts)), rest)
      case None => Truncated
      case Some((ps, _)) =>
        var f := FrameOf(ts, FromPairs(ps));
        if Valid(f) then Ok(f) else Malformed
  }

  lemma FrameOfHead(f: Frame)
    requires Typed(f)
    ensures AllFit(HEAD, HeadTokens(f)) && (forall i :: 0 <= i < |HEAD| ==> Shaped(HEAD[i], HeadTokens(f)[i]))
    ensures FrameOf(HeadTokens(f), f.headers) == f && HeaderCount(HeadTokens(f)) == |f.headers|
  {
    HeadFits(f);
    var ts := HeadTokens(f);
    Powers();
    BigEndianRoundTrip(f.corID, 8);
    BigEndianRoundTrip(f.seqNo, 4);
    assert ts[3].b[..8] == BigEndian(f.corID, 8) && ts[3].b[8..] == BigEndian(f.seqNo, 4);
    forall i | 0 <= i < |HEAD| ensures Shaped(HEAD[i], ts[i]) { assert Fits(HEAD[i], ts[i]); }
  }

  /** Unmarshal undoes Marshal, whatever follows the frame in the buffer. */
  lemma RoundTrip(f: Frame, trailing: Str)
    requires Typed(f) && Valid(f)
    ensures Unmarshal(Encode(f) + trailing) == Ok(f)
  {
    FrameOfHead(f);
    var head, pairs := WriteAll(HEAD, HeadTokens(f)), HeaderBytes(f.headers);
    AppendAssoc(head, pairs, trailing);
    AllRoundTrip(HEAD, HeadTokens(f), pairs + trailing);
    var keys := SortedKeys(f.headers.Keys);
    PairTokensFit(f.headers, keys);
    AllRoundTrip(Blobs(|f.headers|), PairTokens(f.headers, keys), trailing);
    HeadersRoundTrip(f.headers);
  }

  /** Every strict prefix of an encoding is rejected as truncated. */
  lemma StrictPrefixTruncated(f: Frame, k: nat)
    requires Typed(f) && k < |Encode(f)|
    ensures Unmarshal(Encode(f)[..k]) == Truncated
  {
    FrameOfHead(f);
    var head, pairs := WriteAll(HEAD, HeadTokens(f)), HeaderBytes(f.headers);
    if k < |head| {
      assert Encode(f)[..k] == head[..k];
      AllPrefix(HEAD, HeadTokens(f), k);
    } else {
      var j := k - |head|;
      assert Encode(f)[..k] == head + pairs[..j];
      AllRoundTrip(HEAD, HeadTokens(f), pairs[..j]);
      PairTokensFit(f.headers, SortedKeys(f.headers.Keys));
      AllPrefix(Blobs(|f.headers|), PairTokens(f.headers, SortedKeys(f.headers.Keys)), j);
    }
  }

  /** Unmarshal never hands out a frame Marshal would refuse. */
  lemma UnmarshalValidates(data: Str)
    ensures Unmarshal(data).Ok? ==> Valid(Unmarshal(data).frame)
    ensures (exists f :: Typed(f) && !Valid(f) && data == Encode(f)) ==> Unmarshal(data) == Malformed
  {
    forall f | Typed(f) && !Valid(f) && data == Encode(f) ensures Unmarshal(data) == Malformed {
      InvalidIsMalformed(f);
    }
  }

  lemma InvalidIsMalformed(f: Frame)
    requires Typed(f) && !Valid(f)
    ensures Unmarshal(Encode(f)) == Malformed
  {
    FrameOfHead(f);
    var head, pairs := WriteAll(HEAD, HeadTokens(f)), HeaderBytes(f.headers);
    AllRoundTrip(HEAD, HeadTokens(f), pairs);
    var ps := PairTokens(f.headers, SortedKeys(f.headers.Keys));
    PairTokensFit(f.headers, SortedKeys(f.headers.Keys));
    AllRoundTrip(Blobs(|f.headers|), ps, []);
    assert pairs + [] == pairs;
    HeadersRoundTrip(f.headers);
  }

  /** Distinct frames have distinct encodings, and neither is a prefix of the other. */
  lemma EncodingsPrefixFree(f: Frame, g: Frame)
    requires Typed(f) && Valid(f) && Typed(g) && Valid(g) && Encode(f) <= Encode(g)
    ensures f == g
  {
    var e, d := Encode(f), Encode(g);
    assert d == e + d[|e|..] && d == d + [];
    RoundTrip(f, d[|e|..]);
    RoundTrip(g, []);
    OneResult(d, f, g);
  }

  lemma OneResult(data: Str, f: Frame, g: Frame)
    requires Unmarshal(data) == Ok(f) && Unmarshal(data) == Ok(g)
    ensures f == g
  {
  }

  // ---------------------------------------------------------------------
  // The two functions with their loops
  // ---------------------------------------------------------------------

  datatype MarshalResult = Encoded(bytes: Str) | Refused

  method Marshal(f: Frame) returns (r: MarshalResult)
    requires Typed(f)
    ensures r == if Valid(f) then Encoded(Encode(f)) else Refused
  {
    if !Valid(f) { return Refused; }
    HeadFits(f);
    var buf := WriteTokens(HEAD, HeadTokens(f));
    var pairs := WriteHeaders(f.headers);
    r := Encoded(buf + pairs);
  }

  method UnmarshalFrame(data: Str) returns (r: Result)
    ensures r == Unmarshal(data)
  {
    var head := ReadAll(HEAD, data);
    if head.None? { return Truncated; }
    var (ts, rest) := head.value;
    var pairs := ReadHeaders(HeaderCount(ts), rest);
    if pairs.None? { return Truncated; }
    var f := FrameOf(ts, pairs.value.0);
    return if Valid(f) then Ok(f) else Malformed;
  }
}
