/** internal/server/websocket.go: decoding what clients send. */
module ClientDecoder {
  import opened Bytes
  import opened Collections
  import opened Rfc6455

  const MAX_PAYLOAD := 64 * 1024

  datatype DecodeError =
    | RsvNotZero
    | ControlFrameInvalid
    | FragmentNotSupported
    | InvalidFrame
    | PayloadTooLarge

  datatype Verdict =
    | Incomplete
    | Bad(error: DecodeError)
    | Done(frame: Frame, size: nat)
  {
    function Before(rest: Scan): Scan
      requires Done?
    {
      Scan([frame] + rest.frames, size + rest.consumed, rest.error)
    }
  }

  // ----- specification of one call ----------------------------------------------------------

  predicate AllowedOpcode(op: byte) {
    op == OP_TEXT || op == OP_BINARY || op == OP_CLOSE || op == OP_PING || op == OP_PONG
  }

  /** The checks on the first two octets, in the order in which the code makes them. */
  function HeaderError(b0: byte, b1: byte): Option<DecodeError> {
    var fin, opcode, len := b0 & 0x80 != 0, b0 & 0x0F, (b1 & 0x7F) as nat;
    if b0 & 0x40 != 0 || b0 & 0x20 != 0 || b0 & 0x10 != 0 then Some(RsvNotZero)
    else if opcode >= 0x08 && !fin then Some(ControlFrameInvalid)
    else if opcode >= 0x08 && len > 125 then Some(ControlFrameInvalid)
    else if !fin || opcode == 0x00 then Some(FragmentNotSupported)
    else if !AllowedOpcode(opcode) then Some(InvalidFrame)
    else if b1 & 0x80 == 0 then Some(InvalidFrame)
    else None
  }

  datatype Extent = NeedMore | TooLong | Extent(len: nat, offset: nat)

  /** The payload length and where the mask key starts. */
  function PayloadExtent(data: seq<byte>): (e: Extent)
    requires |data| >= 2
    ensures e.Extent? ==> 2 <= e.offset <= 10 && e.offset <= |data|
  {
    var len := (data[1] & 0x7F) as nat;
    if len == 126 then
      if |data| < 4 then NeedMore else Extent(FromBigEndian(data[2..4]), 4)
    else if len == 127 then
      if |data| < 10 then NeedMore
      else if FromBigEndian(data[2..10]) > 0x7FFF_FFFF then TooLong
      else Extent(FromBigEndian(data[2..10]), 10)
    else Extent(len, 2)
  }

  function DecodeOne(data: seq<byte>): (v: Verdict)
    ensures v.Done? ==> 6 <= v.size <= |data|
    ensures v.Incomplete? ==> |data| <= 65549
  {
    if |data| < 2 then Incomplete
    else
      var bad := HeaderError(data[0], data[1]);
      if bad.Some? then Bad(bad.value)
      else match PayloadExtent(data)
        case NeedMore => Incomplete
        case TooLong => Bad(InvalidFrame)
        case Extent(len, offset) =>
          if len > MAX_PAYLOAD then Bad(PayloadTooLarge)
          else if |data| < offset + 4 then Incomplete
          else if |data| < offset + 4 + len then Incomplete
          else
            var key := data[offset..offset + 4];
            Done(Frame(data[0] & 0x0F, Mask(data[offset + 4..offset + 4 + len], key)), offset + 4 + len)
  }

  // ----- the grammar the decoder accepts ----------------------------------------------------

  /** A masked, unfragmented client frame within the size limits; the length form need not be minimal. */
  predicate ClientWire(w: Wire) {
    && WellFormed(w)
    && w.key.Some?
    && AllowedOpcode(w.opcode)
    && |w.payload| <= MAX_PAYLOAD
    && (w.opcode >= 0x08 ==> w.form == Len7)
  }

  lemma HeaderBits(b0: byte, b1: byte)
    ensures HeaderError(b0, b1) == None <==>
      && b0 == 0x80 | (b0 & 0x0F) && AllowedOpcode(b0 & 0x0F)
      && b1 == 0x80 | (b1 & 0x7F) && (b0 & 0x0F >= 0x08 ==> b1 & 0x7F <= 125)
  {
    assert (b1 & 0x7F) as nat > 125 <==> b1 & 0x7F > 125;
    assert (b0 & 0x80 != 0 && b0 & 0x40 == 0 && b0 & 0x20 == 0 && b0 & 0x10 == 0) <==> b0 == 0x80 | (b0 & 0x0F);
    assert b1 & 0x80 != 0 <==> b1 == 0x80 | (b1 & 0x7F);
  }

  lemma OpcodeBits(op: byte)
    requires op < 0x10
    ensures (0x80 | op) & 0x0F == op
  {
  }

  lemma LenBits(n: byte)
    requires n < 0x80
    ensures (0x80 | n) & 0x7F == n
  {
  }

  lemma LenOctetBounds(form: LenForm, len: nat)
    requires Fits(form, len)
    ensures LenOctet(form, len) < 0x80
    ensures form == Len7 ==> LenOctet(form, len) as nat == len && LenOctet(form, len) <= 125
  {
    if form == Len7 {
      ByteOfNat(len);
    }
  }

  /** Completeness: whenever the input starts with a frame of the grammar, that frame is returned,
      unmasked and with its exact size, whatever follows it. */
  lemma DecoderIsComplete(w: Wire, rest: seq<byte>)
    requires ClientWire(w)
    ensures DecodeOne(Encode(w) + rest) == Done(Frame(w.opcode, w.payload), |Encode(w)|)
  {
    hide HeaderError, PayloadExtent, Mask, Encode;
    var data, len, key := Encode(w) + rest, |w.payload|, w.key.value;
    EncodingLayout(w, rest);
    HeaderOfEncoding(w);
    ExtentOfEncoding(data, w.form, len);
    MaskTwice(w.payload, key);
  }

  lemma EncodingLayout(w: Wire, rest: seq<byte>)
    requires ClientWire(w)
    ensures var data, o := Encode(w) + rest, 2 + |ExtendedLen(w.form, |w.payload|)|;
      && |Encode(w)| == o + 4 + |w.payload|
      && data[0] == 0x80 | w.opcode && data[1] == 0x80 | LenOctet(w.form, |w.payload|)
      && data[2..o] == ExtendedLen(w.form, |w.payload|) && data[o..o + 4] == w.key.value
      && data[o + 4..o + 4 + |w.payload|] == Mask(w.payload, w.key.value)
  {
    hide ExtendedLen, LenOctet, Mask;
    FourParts([0x80 | w.opcode, 0x80 | LenOctet(w.form, |w.payload|)], ExtendedLen(w.form, |w.payload|), w.key.value,
              Mask(w.payload, w.key.value), rest);
  }

  lemma FourParts(a: seq<byte>, b: seq<byte>, c: seq<byte>, d: seq<byte>, rest: seq<byte>)
    ensures var data, i := a + b + (c + d) + rest, |a| + |b|;
      && |a + b + (c + d)| == i + |c| + |d|
      && data[..|a|] == a && data[|a|..i] == b && data[i..i + |c|] == c && data[i + |c|..i + |c| + |d|] == d
  {
  }

  lemma HeaderOfEncoding(w: Wire)
    requires ClientWire(w)
    ensures var b0, b1 := 0x80 | w.opcode, 0x80 | LenOctet(w.form, |w.payload|);
      HeaderError(b0, b1) == None && b0 & 0x0F == w.opcode && b1 & 0x7F == LenOctet(w.form, |w.payload|)
  {
    hide HeaderError, LenOctet;
    LenOctetBounds(w.form, |w.payload|);
    OpcodeBits(w.opcode);
    LenBits(LenOctet(w.form, |w.payload|));
    HeaderBits(0x80 | w.opcode, 0x80 | LenOctet(w.form, |w.payload|));
  }

  lemma ExtentOfEncoding(data: seq<byte>, form: LenForm, len: nat)
    requires len <= MAX_PAYLOAD && Fits(form, len)
    requires |data| >= 2 + |ExtendedLen(form, len)|
    requires data[1] & 0x7F == LenOctet(form, len)
    requires data[2..2 + |ExtendedLen(form, len)|] == ExtendedLen(form, len)
    ensures PayloadExtent(data) == Extent(len, 2 + |ExtendedLen(form, len)|)
  {
    LenOctetBounds(form, len);
    match form
    case Len7 =>
    case Len16 =>
      assert Pow256(2) == 0x1_0000;
      BigEndianRoundTrip(len, 2);
    case Len64 =>
      assert Pow256(8) == 0x1_0000_0000_0000_0000;
      BigEndianRoundTrip(len, 8);
  }

  /** The grammar derivation a successful verdict stands for. */
  function Parsed(data: seq<byte>): (w: Wire)
    requires DecodeOne(data).Done?
  {
    var Extent(len, offset) := PayloadExtent(data);
    Wire(data[0] & 0x0F, Some(data[offset..offset + 4]),
         if offset == 2 then Len7 else if offset == 4 then Len16 else Len64,
         DecodeOne(data).frame.payload)
  }

  /** Soundness: a success is the prefix of the input derived by the grammar. */
  lemma DecoderIsSound(data: seq<byte>)
    requires DecodeOne(data).Done?
    ensures var v := DecodeOne(data); var w := Parsed(data);
      ClientWire(w) && data[..v.size] == Encode(w) && v.frame == Frame(w.opcode, w.payload)
  {
    hide HeaderError, PayloadExtent, Mask, LenOctet, ExtendedLen, FromBigEndian;
    var v, w := DecodeOne(data), Parsed(data);
    var Extent(len, o) := PayloadExtent(data);
    HeaderBits(data[0], data[1]);
    ParsedLength(data);
    var masked := data[o + 4..o + 4 + len];
    MaskTwice(masked, data[o..o + 4]);
    Split(data, o, o + 4, o + 4 + len);
  }

  lemma Split(data: seq<byte>, i: nat, j: nat, k: nat)
    requires 2 <= i <= j <= k <= |data|
    ensures data[..k] == [data[0], data[1]] + data[2..i] + (data[i..j] + data[j..k])
  {
  }

  lemma ParsedLength(data: seq<byte>)
    requires DecodeOne(data).Done?
    ensures var w := Parsed(data); var Extent(len, o) := PayloadExtent(data);
      && WellFormed(w) && |w.payload| == len && (data[0] & 0x0F >= 0x08 ==> w.form == Len7)
      && data[1] & 0x7F == LenOctet(w.form, len) && data[2..o] == ExtendedLen(w.form, len)
  {
    var w := Parsed(data);
    var Extent(len, o) := PayloadExtent(data);
    HeaderBits(data[0], data[1]);
    var n := data[1] & 0x7F;
    assert n as nat < 128;
    BigEndianIsOnto(data[2..o]);
    assert Pow256(2) == 0x1_0000;
  }

  /** The verdict is a success exactly when some frame of the grammar is a prefix of the input. */
  lemma SuccessIffGrammar(data: seq<byte>)
    ensures DecodeOne(data).Done? <==> exists w :: ClientWire(w) && Encode(w) <= data
  {
    hide DecodeOne, Encode;
    if DecodeOne(data).Done? {
      DecoderIsSound(data);
      assert ClientWire(Parsed(data)) && Encode(Parsed(data)) <= data;
    }
    if w :| ClientWire(w) && Encode(w) <= data {
      DecoderIsComplete(w, data[|Encode(w)|..]);
      assert Encode(w) + data[|Encode(w)|..] == data;
    }
  }

  /** Every verdict but Incomplete is final: later bytes cannot change it. */
  lemma VerdictIsStable(data: seq<byte>, more: seq<byte>)
    requires DecodeOne(data) != Incomplete
    ensures DecodeOne(data + more) == DecodeOne(data)
  {
    hide HeaderError, PayloadExtent, Mask;
    var all := data + more;
    assert all[0] == data[0] && all[1] == data[1];
    if HeaderError(data[0], data[1]) == None && PayloadExtent(data) != NeedMore {
      ExtentIsStable(data, more);
      if PayloadExtent(data).Extent? {
        var Extent(len, o) := PayloadExtent(data);
        if len <= MAX_PAYLOAD {
          assert all[o..o + 4] == data[o..o + 4];
          assert all[o + 4..o + 4 + len] == data[o + 4..o + 4 + len];
        }
      }
    }
  }

  lemma ExtentIsStable(data: seq<byte>, more: seq<byte>)
    requires |data| >= 2 && PayloadExtent(data) != NeedMore
    ensures PayloadExtent(data + more) == PayloadExtent(data)
  {
    hide FromBigEndian;
    var all := data + more;
    assert all[1] == data[1];
    if |data| >= 4 {
      assert all[2..4] == data[2..4];
    }
    if |data| >= 10 {
      assert all[2..10] == data[2..10];
    }
  }

  /** The longest input on which the decoder asks for more, so the bound on Incomplete is exact. */
  lemma IncompleteBoundIsTight()
    ensures exists data: seq<byte> :: |data| == 65549 && DecodeOne(data) == Incomplete
  {
    var w := Wire(OP_BINARY, Some([0, 0, 0, 0]), Len64, seq(65536, _ => 0));
    var full := Encode(w);
    DecoderIsComplete(w, []);
    assert full + [] == full && full[..65549] + full[65549..] == full;
    if DecodeOne(full[..65549]) != Incomplete {
      VerdictIsStable(full[..65549], full[65549..]);
      assert false;
    }
  }

  // ----- whole buffers ----------------------------------------------------------------------

  /** Frames decoded up to the first error or incomplete tail; unlike the Go function the frames
      before an error are kept here, so that the callers' loss of them can be stated. */
  datatype Scan = Scan(frames: seq<Frame>, consumed: nat, error: Option<DecodeError>)

  function ScanAll(data: seq<byte>): (s: Scan)
    ensures s.consumed <= |data|
    ensures s.error.None? ==> |data| - s.consumed <= 65549
    decreases |data|
  {
    match DecodeOne(data)
    case Incomplete => Scan([], 0, None)
    case Bad(e) => Scan([], 0, Some(e))
    case Done(f, n) =>
      DecodeOne(data).Before(ScanAll(data[n..]))
  }

  lemma ScanUnfolds(data: seq<byte>)
    ensures DecodeOne(data).Incomplete? ==> ScanAll(data) == Scan([], 0, None)
    ensures DecodeOne(data).Bad? ==> ScanAll(data) == Scan([], 0, Some(DecodeOne(data).error))
    ensures DecodeOne(data).Done? ==>
      ScanAll(data) == DecodeOne(data).Before(ScanAll(data[DecodeOne(data).size..]))
  {
  }

  lemma NothingToDecode()
    ensures DecodeOne([]) == Incomplete
  {
  }

  /** Decoding in two portions: an error is final, and otherwise the residual plus the new bytes
      continue exactly where the first portion stopped. */
  lemma {:induction false} ScanResumes(a: seq<byte>, b: seq<byte>)
    ensures var s := ScanAll(a);
      if s.error.Some? then ScanAll(a + b) == s
      else var t := ScanAll(a[s.consumed..] + b);
        ScanAll(a + b) == Scan(s.frames + t.frames, s.consumed + t.consumed, t.error)
    decreases |a|
  {
    hide DecodeOne, ScanAll;
    ScanUnfolds(a);
    ScanUnfolds(a + b);
    match DecodeOne(a)
    case Incomplete =>
      assert a[0..] == a;
    case Bad(_) =>
      VerdictIsStable(a, b);
    case Done(f, n) =>
      VerdictIsStable(a, b);
      ScanResumes(a[n..], b);
      assert (a + b)[n..] == a[n..] + b;
      var rest := ScanAll(a[n..]);
      assert a[n..][rest.consumed..] == a[n + rest.consumed..];
      if rest.error.None? {
        var t := ScanAll(a[n..][rest.consumed..] + b);
        assert [f] + (rest.frames + t.frames) == ([f] + rest.frames) + t.frames;
      }
  }

  function FramesOf(ws: seq<Wire>): seq<Frame> {
    seq(|ws|, i requires 0 <= i < |ws| => Frame(ws[i].opcode, ws[i].payload))
  }

  /** Round trip: the concatenation of any client frames decodes to exactly those frames,
      consuming every octet. */
  lemma {:induction false} RoundTrip(ws: seq<Wire>)
    requires forall w | w in ws :: WellFormed(w) && ClientWire(w)
    ensures ScanAll(EncodeAll(ws)) == Scan(FramesOf(ws), |EncodeAll(ws)|, None)
  {
    hide DecodeOne, Encode, ClientWire, WellFormed;
    NothingToDecode();
    if ws == [] {
    } else {
      var rest := EncodeAll(ws[1..]);
      DecoderIsComplete(ws[0], rest);
      RoundTrip(ws[1..]);
      assert EncodeAll(ws)[|Encode(ws[0])|..] == rest;
      assert FramesOf(ws) == [Frame(ws[0].opcode, ws[0].payload)] + FramesOf(ws[1..]);
    }
  }

  // ----- the imperative code ----------------------------------------------------------------

  /** decodeOneFrame. */
  method DecodeOneFrame(data: seq<byte>) returns (v: Verdict)
    ensures v == DecodeOne(data)
  {
    hide Mask, FromBigEndian;
    if |data| < 2 {
      return Incomplete;
    }
    var b0, b1 := data[0], data[1];
    var fin, opcode, masked := b0 & 0x80 != 0, b0 & 0x0F, b1 & 0x80 != 0;
    var payloadLen := (b1 & 0x7F) as nat;
    if b0 & 0x40 != 0 || b0 & 0x20 != 0 || b0 & 0x10 != 0 {
      return Bad(RsvNotZero);
    }
    if opcode >= 0x08 {
      if !fin {
        return Bad(ControlFrameInvalid);
      }
      if payloadLen > 125 {
        return Bad(ControlFrameInvalid);
      }
    }
    if !fin || opcode == 0x00 {
      return Bad(FragmentNotSupported);
    }
    if opcode != 0x1 && opcode != 0x2 && opcode != 0x8 && opcode != 0x9 && opcode != 0xA {
      return Bad(InvalidFrame);
    }
    if !masked {
      return Bad(InvalidFrame);
    }
    assert HeaderError(b0, b1) == None;
    var offset := 2;
    if payloadLen == 126 {
      if |data| < offset + 2 {
        return Incomplete;
      }
      payloadLen := FromBigEndian(data[offset..offset + 2]);
      offset := offset + 2;
    } else if payloadLen == 127 {
      if |data| < offset + 8 {
        return Incomplete;
      }
      var wide := FromBigEndian(data[offset..offset + 8]);
      if wide > 0x7FFF_FFFF {
        return Bad(InvalidFrame);
      }
      payloadLen := wide;
      offset := offset + 8;
    }
    assert PayloadExtent(data) == Extent(payloadLen, offset);
    if payloadLen > MAX_PAYLOAD {
      return Bad(PayloadTooLarge);
    }
    if |data| < offset + 4 {
      return Incomplete;
    }
    var maskKey := data[offset..offset + 4];
    offset := offset + 4;
    if |data| < offset + payloadLen {
      return Incomplete;
    }
    var payload := Unmask(data[offset..offset + payloadLen], maskKey);
    offset := offset + payloadLen;
    v := Done(Frame(opcode, payload), offset);
  }

  /** The in-place unmasking loop of decodeOneFrame. */
  method Unmask(source: seq<byte>, maskKey: seq<byte>) returns (r: seq<byte>)
    requires |maskKey| == 4
    ensures r == Mask(source, maskKey)
  {
    var payload := new byte[|source|](i requires 0 <= i < |source| => source[i]);
    for i := 0 to |source|
      invariant forall k | 0 <= k < i :: payload[k] == source[k] ^ maskKey[k % 4]
      invariant forall k | i <= k < |source| :: payload[k] == source[k]
    {
      payload[i] := payload[i] ^ maskKey[i % 4];
    }
    r := payload[..];
  }

  /** DecodeWebSocketFrames: on an error the frames decoded before it are discarded. */
  method DecodeWebSocketFrames(data: seq<byte>)
    returns (frames: seq<Frame>, consumed: nat, error: Option<DecodeError>)
    ensures consumed == ScanAll(data).consumed && error == ScanAll(data).error
    ensures frames == if error.Some? then [] else ScanAll(data).frames
  {
    hide DecodeOne;
    NothingToDecode();
    frames, consumed, error := [], 0, None;
    assert data[0..] == data;
    while consumed < |data|
      invariant consumed <= |data|
      invariant var s := ScanAll(data[consumed..]);
        ScanAll(data) == Scan(frames + s.frames, consumed + s.consumed, s.error)
      decreases |data| - consumed
    {
      var v := DecodeOneFrame(data[consumed..]);
      match v
      case Incomplete =>
        return;
      case Bad(e) =>
        return [], consumed, Some(e);
      case Done(frame, n) =>
        assert data[consumed..][n..] == data[consumed + n..];
        ghost var s := ScanAll(data[consumed + n..]);
        assert frames + ([frame] + s.frames) == (frames + [frame]) + s.frames;
        frames := frames + [frame];
        consumed := consumed + n;
    }
  }
}
