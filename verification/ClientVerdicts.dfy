/** internal/server/websocket.go: which inputs the decoder turns down, and which it wants to see more of. */
module ClientVerdicts {
  import opened Bytes
  import opened Collections
  import opened Rfc6455
  import opened ClientDecoder

  // ----- the examples of section 5.7 of RFC 6455 --------------------------------------------------------------------

  /** A single-frame masked text message, "Hello". */
  lemma MaskedHello()
    ensures DecodeOne([0x81, 0x85, 0x37, 0xFA, 0x21, 0x3D, 0x7F, 0x9F, 0x4D, 0x51, 0x58])
         == Done(Frame(0x1, [0x48, 0x65, 0x6C, 0x6C, 0x6F]), 11)
  {
    var data: seq<byte> := [0x81, 0x85, 0x37, 0xFA, 0x21, 0x3D, 0x7F, 0x9F, 0x4D, 0x51, 0x58];
    assert PayloadExtent(data) == Extent(5, 2);
    assert data[2..6] == [0x37, 0xFA, 0x21, 0x3D] && data[6..11] == [0x7F, 0x9F, 0x4D, 0x51, 0x58];
  }

  /** The same message, unmasked, is a server's frame and no client's. */
  lemma UnmaskedHello()
    ensures DecodeOne([0x81, 0x05, 0x48, 0x65, 0x6C, 0x6C, 0x6F]) == Bad(InvalidFrame)
  {
  }

  // ----- Bad, by the grammar ----------------------------------------------------------------------------------------

  /** No accepted frame has a header that begins with the first two octets of the input. */
  ghost predicate NoSuchHeader(data: seq<byte>) {
    |data| >= 2 && forall w | ClientWire(w) :: !BeginsLike(w, data)
  }

  predicate BeginsLike(w: Wire, data: seq<byte>)
    requires ClientWire(w)
  {
    |data| >= 2 && Encode(w)[0] == data[0] && Encode(w)[1] == data[1]
  }

  /** No accepted frame is a prefix of the input, or has the input as a prefix. */
  ghost predicate NoSuchFrame(data: seq<byte>) {
    forall w | ClientWire(w) :: !(Encode(w) <= data) && !(data <= Encode(w))
  }

  lemma HeaderOctets(w: Wire)
    requires ClientWire(w)
    ensures Encode(w)[0] == 0x80 | w.opcode && Encode(w)[1] == 0x80 | LenOctet(w.form, |w.payload|)
  {
  }

  /** Where the two header octets pass the checks, some accepted frame begins with them. */
  lemma GoodHeaderBeginsFrame(data: seq<byte>)
    requires |data| >= 2 && HeaderError(data[0], data[1]) == None
    ensures !NoSuchHeader(data)
  {
    hide HeaderError, Encode, LenOctet, ClientWire;
    var w := GoodHeaderWire(data[0], data[1]);
    HeaderOctets(w);
    assert BeginsLike(w, data);
  }

  lemma GoodHeaderWire(b0: byte, b1: byte) returns (w: Wire)
    requires HeaderError(b0, b1) == None
    ensures ClientWire(w) && 0x80 | w.opcode == b0 && 0x80 | LenOctet(w.form, |w.payload|) == b1
  {
    hide HeaderError, LenOctet, ClientWire, AllowedOpcode;
    HeaderBits(b0, b1);
    LowBits(b1);
    w := ShortestWire(b0 & 0x0F, b1 & 0x7F);
  }

  lemma LowBits(b: byte)
    ensures b & 0x7F < 0x80
  {
  }

  /** A frame with this opcode and these seven bits of length. */
  lemma ShortestWire(opcode: byte, n: byte) returns (w: Wire)
    requires AllowedOpcode(opcode) && n < 0x80 && (opcode >= 0x08 ==> n <= 125)
    ensures ClientWire(w) && w.opcode == opcode && LenOctet(w.form, |w.payload|) == n
  {
    SevenBits(n);
    var len := if n < 126 then n as nat else 0;
    var payload: seq<byte> := seq(len, _ => 0);
    w := Wire(opcode, Some([0, 0, 0, 0]), if n == 126 then Len16 else if n == 127 then Len64 else Len7, payload);
  }

  lemma SevenBits(n: byte)
    requires n < 0x80
    ensures n as nat < 128 && (n as nat) as byte == n
    ensures n < 126 <==> n as nat < 126
    ensures n == 126 || n == 127 <==> !(n < 126)
  {
  }

  /** An input whose length is known and allowed is completed by zeros to one that decodes. */
  lemma AllowedLengthIsExtended(data: seq<byte>)
    requires |data| >= 10 && DecodeOne(data) == Incomplete
    ensures !NoSuchFrame(data)
  {
    hide HeaderError, Encode, Mask, PayloadExtent;
    assert PayloadExtent(data) != NeedMore by {
      LongEnough(data);
    }
    var Extent(len, o) := PayloadExtent(data);
    var more: seq<byte> := seq(o + 4 + len - |data|, _ => 0);
    var full := data + more;
    ExtentIsStable(data, more);
    assert full[0] == data[0] && full[1] == data[1];
    assert DecodeOne(full).Done? && DecodeOne(full).size == |full|;
    DecoderIsSound(full);
    assert full[..|full|] == full;
    assert data <= Encode(Parsed(full));
  }

  lemma LongEnough(data: seq<byte>)
    requires |data| >= 10
    ensures PayloadExtent(data) != NeedMore
  {
  }

  /** A length beyond the limits can only be read from ten octets. */
  lemma LongLengthNeedsTen(data: seq<byte>)
    requires |data| >= 2 && HeaderError(data[0], data[1]) == None && DecodeOne(data).Bad?
    ensures |data| >= 10
  {
    hide HeaderError;
    TwoOctetsFit(data);
  }

  lemma TwoOctetsFit(data: seq<byte>)
    ensures |data| >= 4 ==> FromBigEndian(data[2..4]) <= 65535
  {
    assert Pow256(2) == 0x1_0000;
    if |data| >= 4 {
      BigEndianIsOnto(data[2..4]);
    }
  }

  /** The decoder turns an input down if and only if no accepted frame's header begins with its first two octets, or
      ten octets are there and no accepted frame is a prefix or an extension of it. Everything else without a whole
      frame in front is incomplete. */
  lemma BadIffGrammar(data: seq<byte>)
    ensures DecodeOne(data).Bad? <==> NoSuchHeader(data) || (|data| >= 10 && NoSuchFrame(data))
    ensures DecodeOne(data).Incomplete? <==>
      && !NoSuchHeader(data) && !(|data| >= 10 && NoSuchFrame(data))
      && !exists w :: ClientWire(w) && Encode(w) <= data
  {
    hide HeaderError, Encode, DecodeOne, NoSuchHeader, NoSuchFrame;
    SuccessIffGrammar(data);
    match DecodeOne(data)
    case Bad(_) => BadHasNoFrame(data);
    case Incomplete => IncompleteHasFrame(data);
    case Done(_, _) => DoneHasFrame(data);
  }

  lemma BadHasNoFrame(data: seq<byte>)
    requires DecodeOne(data).Bad?
    ensures NoSuchHeader(data) || (|data| >= 10 && NoSuchFrame(data))
  {
    hide HeaderError, Encode, PayloadExtent, Mask;
    if HeaderError(data[0], data[1]).Some? {
      forall w | ClientWire(w)
        ensures !BeginsLike(w, data)
      {
        HeaderOctets(w);
        HeaderOfEncoding(w);
      }
    } else {
      LongLengthNeedsTen(data);
      forall w | ClientWire(w)
        ensures !(Encode(w) <= data) && !(data <= Encode(w))
      {
        BadIsNoPart(w, data);
      }
    }
  }

  lemma BadIsNoPart(w: Wire, data: seq<byte>)
    requires ClientWire(w) && DecodeOne(data).Bad?
    ensures !(Encode(w) <= data) && !(data <= Encode(w))
  {
    hide Encode, DecodeOne;
    if Encode(w) <= data {
      assert Encode(w) + data[|Encode(w)|..] == data;
      DecoderIsComplete(w, data[|Encode(w)|..]);
    } else if data <= Encode(w) {
      VerdictIsStable(data, Encode(w)[|data|..]);
      assert data + Encode(w)[|data|..] == Encode(w) && Encode(w) + [] == Encode(w);
      DecoderIsComplete(w, []);
    }
  }

  lemma IncompleteHasFrame(data: seq<byte>)
    requires DecodeOne(data).Incomplete?
    ensures !NoSuchHeader(data) && !(|data| >= 10 && NoSuchFrame(data))
  {
    hide HeaderError, Encode, PayloadExtent, Mask, NoSuchFrame;
    if |data| >= 2 {
      GoodHeaderBeginsFrame(data);
    }
    if |data| >= 10 {
      AllowedLengthIsExtended(data);
    }
  }

  lemma DoneHasFrame(data: seq<byte>)
    requires DecodeOne(data).Done?
    ensures !NoSuchHeader(data) && !NoSuchFrame(data)
  {
    hide HeaderError, Encode, PayloadExtent, Mask;
    GoodHeaderBeginsFrame(data);
    DecoderIsSound(data);
    assert Encode(Parsed(data)) <= data;
  }

  // ----- Bad, by its cause ------------------------------------------------------------------------------------------

  predicate HasReservedBit(b0: byte) {
    b0 & 0x70 != 0
  }

  /** A control frame that is fragmented or too long. */
  predicate BadControl(b0: byte, b1: byte) {
    b0 & 0x78 == 0x08 && (b0 & 0x80 == 0 || b1 & 0x7F > 125)
  }

  /** A data frame that is not final, or a continuation. */
  predicate Fragmented(b0: byte) {
    b0 & 0x78 == 0 && (b0 & 0x80 == 0 || b0 & 0x0F == 0)
  }

  /** None of these, and one of Text, Binary, Close, Ping and Pong, and masked. */
  predicate Acceptable(b0: byte, b1: byte) {
    && b0 & 0xF0 == 0x80 && b0 & 0x0F in {0x1, 0x2, 0x8, 0x9, 0xA} && b1 & 0x80 != 0
    && (b0 & 0x08 != 0 ==> b1 & 0x7F <= 125)
  }

  /** The 64-bit length, when it is there. */
  function WideLength(data: seq<byte>): Option<nat>
    requires |data| >= 2
  {
    if data[1] & 0x7F == 0x7F && |data| >= 10 then Some(FromBigEndian(data[2..10])) else None
  }

  /** Each error, by the bits of the header and the length. */
  lemma ErrorByCause(data: seq<byte>)
    requires |data| >= 2
    ensures var (b0, b1, v, wide) := (data[0], data[1], DecodeOne(data), WideLength(data));
      && (v == Bad(RsvNotZero) <==> HasReservedBit(b0))
      && (v == Bad(ControlFrameInvalid) <==> BadControl(b0, b1))
      && (v == Bad(FragmentNotSupported) <==> Fragmented(b0))
      && (v == Bad(InvalidFrame) <==>
            if Acceptable(b0, b1) then wide.Some? && wide.value > 0x7FFF_FFFF
            else !HasReservedBit(b0) && !BadControl(b0, b1) && !Fragmented(b0))
      && (v == Bad(PayloadTooLarge) <==> Acceptable(b0, b1) && wide.Some? && 65536 < wide.value <= 0x7FFF_FFFF)
  {
    hide HeaderError, HasReservedBit, BadControl, Fragmented, Acceptable, WideLength, PayloadExtent, Mask;
    HeaderCause(data[0], data[1]);
    LengthCause(data);
    match HeaderError(data[0], data[1])
    case None =>
    case Some(e) =>
      assert e == RsvNotZero || e == ControlFrameInvalid || e == FragmentNotSupported || e == InvalidFrame;
  }

  lemma LengthCause(data: seq<byte>)
    requires |data| >= 2
    ensures var (e, wide) := (PayloadExtent(data), WideLength(data));
      && (e.TooLong? <==> wide.Some? && wide.value > 0x7FFF_FFFF)
      && (e.Extent? && e.len > MAX_PAYLOAD <==> wide.Some? && 65536 < wide.value <= 0x7FFF_FFFF)
  {
    LowBits(data[1]);
    SevenBits(data[1] & 0x7F);
    LengthBits(data[1]);
    TwoOctetsFit(data);
  }

  lemma LengthBits(b: byte)
    ensures (b & 0x7F) as nat == 127 <==> b & 0x7F == 0x7F
    ensures (b & 0x7F) as nat <= 125 <==> b & 0x7F <= 125
  {
  }

  lemma HeaderCause(b0: byte, b1: byte)
    ensures HeaderError(b0, b1) == Some(RsvNotZero) <==> HasReservedBit(b0)
    ensures HeaderError(b0, b1) == Some(ControlFrameInvalid) <==> BadControl(b0, b1)
    ensures HeaderError(b0, b1) == Some(FragmentNotSupported) <==> Fragmented(b0)
    ensures HeaderError(b0, b1) == None <==> Acceptable(b0, b1)
    ensures HeaderError(b0, b1) != Some(PayloadTooLarge)
  {
    CauseBits(b0);
    LengthBits(b1);
  }

  lemma CauseBits(b0: byte)
    ensures b0 & 0x70 != 0 <==> b0 & 0x40 != 0 || b0 & 0x20 != 0 || b0 & 0x10 != 0
    ensures b0 & 0x78 == 0x08 <==> b0 & 0x70 == 0 && b0 & 0x0F >= 0x08
    ensures b0 & 0x78 == 0 <==> b0 & 0x70 == 0 && b0 & 0x0F < 0x08
    ensures b0 & 0xF0 == 0x80 <==> b0 & 0x70 == 0 && b0 & 0x80 != 0
    ensures b0 & 0x08 != 0 <==> b0 & 0x0F >= 0x08
  {
  }
}
