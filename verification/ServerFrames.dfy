/** internal/protocol/ws/frame.go: printing what the server sends, and the reader a conforming
    client applies to it (section 5.2 of RFC 6455). */
module ServerFrames {
  import opened Bytes
  import opened Collections
  import opened Rfc6455

  /** What Go's types guarantee of the printer's arguments: a four-bit opcode, an int length. */
  predicate Printable(f: Frame) {
    f.opcode < 0x10 && |f.payload| < 0x8000_0000_0000_0000
  }

  function ServerWire(f: Frame): (w: Wire)
    requires Printable(f)
    ensures WellFormed(w)
  {
    Wire(f.opcode, None, MinimalForm(|f.payload|), f.payload)
  }

  function Print(f: Frame): seq<byte>
    requires Printable(f)
  {
    Encode(ServerWire(f))
  }

  function PrintAll(fs: seq<Frame>): seq<byte>
    requires forall f | f in fs :: Printable(f)
  {
    if fs == [] then [] else Print(fs[0]) + PrintAll(fs[1..])
  }

  // ----- the reference reader ---------------------------------------------------------------

  datatype Length = Malformed | Length(len: nat, start: nat)

  datatype Reading = Unreadable | Reading(frame: Frame, size: nat)

  /** Length and header size of the frame at the start of the input; malformed when the header is
      cut short, or uses more octets for the length than it needs. */
  function ReadLength(data: seq<byte>): (r: Length)
    requires |data| >= 2
    ensures r.Length? ==> 2 <= r.start <= |data|
  {
    var n := data[1];
    if n == 126 then
      if |data| < 4 || FromBigEndian(data[2..4]) < 126 then Malformed else Length(FromBigEndian(data[2..4]), 4)
    else if n == 127 then
      if |data| < 10 || FromBigEndian(data[2..10]) < 0x1_0000 then Malformed
      else Length(FromBigEndian(data[2..10]), 10)
    else Length(n as nat, 2)
  }

  /** One unmasked, final frame without extension bits, and the octets it takes. */
  function ReadFrame(data: seq<byte>): (r: Reading)
    ensures r.Reading? ==> 2 <= r.size <= |data|
  {
    if |data| < 2 || data[0] & 0xF0 != 0x80 || data[1] & 0x80 != 0 then Unreadable
    else match ReadLength(data)
      case Malformed => Unreadable
      case Length(len, start) =>
        if |data| < start + len then Unreadable
        else Reading(Frame(data[0] & 0x0F, data[start..start + len]), start + len)
  }

  function ReadAll(data: seq<byte>): Option<seq<Frame>>
    decreases |data|
  {
    if data == [] then Some([])
    else match ReadFrame(data)
      case Unreadable => None
      case Reading(f, n) =>
        match ReadAll(data[n..])
        case None => None
        case Some(rest) => Some([f] + rest)
  }

  // ----- the printer's output is uniquely decodable ------------------------------------------

  lemma PrintLayout(f: Frame, rest: seq<byte>)
    requires Printable(f)
    ensures var data, len := Print(f) + rest, |f.payload|;
      var form := MinimalForm(len); var start := 2 + |ExtendedLen(form, len)|;
      && |Print(f)| == start + len
      && data[0] == 0x80 | f.opcode && data[1] == LenOctet(form, len)
      && data[2..start] == ExtendedLen(form, len) && data[start..start + len] == f.payload
  {
    hide LenOctet, ExtendedLen;
  }

  lemma LengthOfPrinted(data: seq<byte>, len: nat)
    requires len < 0x8000_0000_0000_0000
    requires |data| >= 2 + |ExtendedLen(MinimalForm(len), len)|
    requires data[1] == LenOctet(MinimalForm(len), len)
    requires data[2..2 + |ExtendedLen(MinimalForm(len), len)|] == ExtendedLen(MinimalForm(len), len)
    ensures ReadLength(data) == Length(len, 2 + |ExtendedLen(MinimalForm(len), len)|)
    ensures data[1] & 0x80 == 0
  {
    match MinimalForm(len)
    case Len7 =>
      ByteOfNat(len);
      assert data[1] < 126;
    case Len16 =>
      assert Pow256(2) == 0x1_0000;
      BigEndianRoundTrip(len, 2);
    case Len64 =>
      assert Pow256(8) == 0x1_0000_0000_0000_0000;
      BigEndianRoundTrip(len, 8);
  }

  lemma FirstOctet(op: byte)
    requires op < 0x10
    ensures (0x80 | op) & 0xF0 == 0x80 && (0x80 | op) & 0x0F == op
  {
  }

  lemma ReadsWhatWasPrinted(f: Frame, rest: seq<byte>)
    requires Printable(f)
    ensures ReadFrame(Print(f) + rest) == Reading(f, |Print(f)|)
  {
    hide Print, ReadLength, LenOctet, ExtendedLen, MinimalForm;
    PrintLayout(f, rest);
    LengthOfPrinted(Print(f) + rest, |f.payload|);
    FirstOctet(f.opcode);
  }

  /** Any sequence of frames written on one connection is read back unchanged. */
  lemma {:induction false} StreamIsReadBack(fs: seq<Frame>)
    requires forall f | f in fs :: Printable(f)
    ensures ReadAll(PrintAll(fs)) == Some(fs)
  {
    hide Print, ReadFrame, Printable;
    if fs == [] {
    } else {
      var rest := PrintAll(fs[1..]);
      ReadsWhatWasPrinted(fs[0], rest);
      StreamIsReadBack(fs[1..]);
      assert PrintAll(fs)[|Print(fs[0])|..] == rest;
      assert fs == [fs[0]] + fs[1..];
    }
  }

  /** The examples of section 5.7: a single-frame unmasked text message, "Hello"; 256 octets of binary data; 64KiB. */
  lemma PrintedExamples(payload: seq<byte>)
    ensures Print(Frame(0x1, [0x48, 0x65, 0x6C, 0x6C, 0x6F])) == [0x81, 0x05, 0x48, 0x65, 0x6C, 0x6C, 0x6F]
    ensures |payload| == 256 ==> Print(Frame(0x2, payload)) == [0x82, 0x7E, 0x01, 0x00] + payload
    ensures |payload| == 65536 ==> Print(Frame(0x2, payload)) == [0x82, 0x7F, 0, 0, 0, 0, 0, 1, 0, 0] + payload
  {
    hide ToBigEndian;
    BigEndianExamples();
  }

  lemma BigEndianExamples()
    ensures ToBigEndian(256, 2) == [1, 0] && ToBigEndian(65536, 8) == [0, 0, 0, 0, 0, 1, 0, 0]
  {
    hide FromBigEndian, ToBigEndian;
    var none: seq<byte>, five: seq<byte> := [], [0, 0, 0, 0, 0];
    var two: seq<byte>, eight: seq<byte> := [1, 0], [0, 0, 0, 0, 0, 1, 0, 0];
    OneThenZeros(none);
    OneThenZeros(five);
    assert none + [1, 0] == two && five + [1, 0, 0] == eight;
    BigEndianIsOnto(two);
    BigEndianIsOnto(eight);
  }

  lemma OneThenZeros(zeros: seq<byte>)
    requires forall i | 0 <= i < |zeros| :: zeros[i] == 0
    ensures FromBigEndian(zeros + [1, 0]) == 256 && FromBigEndian(zeros + [1, 0, 0]) == 65536
  {
    hide FromBigEndian;
    NothingBigEndian(zeros);
    NextOctet(zeros, 1);
    NextOctet(zeros + [1], 0);
    NextOctet(zeros + [1] + [0], 0);
    assert zeros + [1] + [0] == zeros + [1, 0] && zeros + [1] + [0] + [0] == zeros + [1, 0, 0];
  }

  lemma NextOctet(s: seq<byte>, b: byte)
    ensures FromBigEndian(s + [b]) == 256 * FromBigEndian(s) + b as nat
  {
    assert (s + [b])[..|s + [b]| - 1] == s;
  }

  lemma {:induction false} NothingBigEndian(s: seq<byte>)
    requires forall i | 0 <= i < |s| :: s[i] == 0
    ensures FromBigEndian(s) == 0
  {
    if s == [] {
    } else {
      NothingBigEndian(s[..|s| - 1]);
    }
  }

  /** No printed stream can be read in two ways. */
  lemma PrintingIsInjective(fs: seq<Frame>, gs: seq<Frame>)
    requires forall f | f in fs :: Printable(f)
    requires forall g | g in gs :: Printable(g)
    ensures PrintAll(fs) == PrintAll(gs) ==> fs == gs
  {
    StreamIsReadBack(fs);
    StreamIsReadBack(gs);
  }

  /** The printer never spends more header octets than the shortest form that can hold the length. */
  lemma HeaderIsMinimal(f: Frame, form: LenForm)
    requires Printable(f) && Fits(form, |f.payload|)
    ensures |Print(f)| - |f.payload| <= |Header(Wire(f.opcode, None, form, f.payload))|
    ensures |Print(f)| - |f.payload| == |Header(Wire(f.opcode, None, form, f.payload))| ==>
      form == MinimalForm(|f.payload|)
  {
    PrintLayout(f, []);
    assert Print(f) + [] == Print(f);
  }

  lemma {:induction false} PrintAllAppend(fs: seq<Frame>, gs: seq<Frame>)
    requires forall f | f in fs + gs :: Printable(f)
    ensures PrintAll(fs + gs) == PrintAll(fs) + PrintAll(gs)
  {
    hide Print, Printable;
    if fs == [] {
      assert fs + gs == gs;
    } else {
      assert (fs + gs)[1..] == fs[1..] + gs;
      PrintAllAppend(fs[1..], gs);
    }
  }

  // ----- the imperative code ----------------------------------------------------------------

  /** binary.BigEndian.PutUint16 and PutUint64. */
  method PutBigEndian(a: array<byte>, at: nat, width: nat, value: nat)
    requires at + width <= a.Length
    modifies a
    ensures a[..] == old(a[..at]) + ToBigEndian(value, width) + old(a[at + width..])
  {
    var i, v := width, value;
    while i > 0
      invariant 0 <= i <= width
      invariant a[..at] == old(a[..at]) && a[at + width..] == old(a[at + width..])
      invariant ToBigEndian(v, i) + a[at + i..at + width] == ToBigEndian(value, width)
    {
      ghost var tail := a[at + i..at + width];
      i := i - 1;
      a[at + i] := (v % 256) as byte;
      assert a[at + i..at + width] == [(v % 256) as byte] + tail;
      v := v / 256;
    }
    assert a[..] == a[..at] + a[at..at + width] + a[at + width..];
  }

  /** The header with an extended length: 4 octets with marker 126, 10 with marker 127. */
  method WideHeader(opcode: byte, marker: byte, width: nat, len: nat) returns (header: array<byte>)
    ensures fresh(header)
    ensures header[..] == [0x80 | opcode, marker] + ToBigEndian(len, width)
  {
    header := new byte[2 + width](_ => 0);
    header[0] := 0x80 | opcode;
    header[1] := marker;
    PutBigEndian(header, 2, width, len);
  }

  /** buildServerFrame. */
  method BuildServerFrame(opcode: byte, payload: seq<byte>) returns (out: seq<byte>)
    requires Printable(Frame(opcode, payload))
    ensures out == Print(Frame(opcode, payload))
  {
    hide ToBigEndian;
    var len := |payload|;
    var header: array<byte>;
    if len < 126 {
      header := new byte[] [0x80 | opcode, len as byte];
    } else if len <= 65535 {
      header := WideHeader(opcode, 126, 2, len);
    } else {
      header := WideHeader(opcode, 127, 8, len);
    }
    assert header[..] == Header(ServerWire(Frame(opcode, payload)));
    out := [];
    out := out + header[..];
    out := out + payload;
  }

  method BuildBinaryFrame(payload: seq<byte>) returns (out: seq<byte>)
    requires Printable(Frame(OP_BINARY, payload))
    ensures out == Print(Frame(OP_BINARY, payload))
  {
    out := BuildServerFrame(OP_BINARY, payload);
  }

  method BuildPongFrame(payload: seq<byte>) returns (out: seq<byte>)
    requires Printable(Frame(OP_PONG, payload))
    ensures out == Print(Frame(OP_PONG, payload))
  {
    out := BuildServerFrame(OP_PONG, payload);
  }

  method BuildCloseFrame(payload: seq<byte>) returns (out: seq<byte>)
    requires Printable(Frame(OP_CLOSE, payload))
    ensures out == Print(Frame(OP_CLOSE, payload))
  {
    out := BuildServerFrame(OP_CLOSE, payload);
  }
}
