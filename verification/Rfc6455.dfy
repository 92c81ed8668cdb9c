/** The frame format of sections 5.2 and 5.3 of RFC 6455, written as a grammar:
    every unfragmented frame without extension bits is the encoding of a `Wire` value. */
module Rfc6455 {
  import opened Bytes
  import opened Collections

  const OP_TEXT: byte := 0x1
  const OP_BINARY: byte := 0x2
  const OP_CLOSE: byte := 0x8
  const OP_PING: byte := 0x9
  const OP_PONG: byte := 0xA

  datatype Frame = Frame(opcode: byte, payload: seq<byte>)

  datatype LenForm = Len7 | Len16 | Len64

  datatype Wire = Wire(opcode: byte, key: Option<seq<byte>>, form: LenForm, payload: seq<byte>)

  predicate Fits(form: LenForm, len: nat) {
    match form
    case Len7 => len < 126
    case Len16 => len < 0x1_0000
    case Len64 => len < 0x8000_0000_0000_0000
  }

  predicate WellFormed(w: Wire) {
    && w.opcode < 0x10
    && (w.key.Some? ==> |w.key.value| == 4)
    && Fits(w.form, |w.payload|)
  }

  function LenOctet(form: LenForm, len: nat): (b: byte)
    requires Fits(form, len)
  {
    match form
    case Len7 => len as byte
    case Len16 => 126
    case Len64 => 127
  }

  function ExtendedLen(form: LenForm, len: nat): seq<byte> {
    match form
    case Len7 => []
    case Len16 => ToBigEndian(len, 2)
    case Len64 => ToBigEndian(len, 8)
  }

  function Header(w: Wire): (h: seq<byte>)
    requires WellFormed(w)
  {
    var n := LenOctet(w.form, |w.payload|);
    [0x80 | w.opcode, if w.key.Some? then 0x80 | n else n] + ExtendedLen(w.form, |w.payload|)
  }

  function Encode(w: Wire): seq<byte>
    requires WellFormed(w)
  {
    Header(w) + (if w.key.Some? then w.key.value + Mask(w.payload, w.key.value) else w.payload)
  }

  function EncodeAll(ws: seq<Wire>): seq<byte>
    requires forall w | w in ws :: WellFormed(w)
  {
    if ws == [] then [] else Encode(ws[0]) + EncodeAll(ws[1..])
  }

  /** The size class section 5.2 demands: the minimal number of octets. */
  function MinimalForm(len: nat): LenForm {
    if len < 126 then Len7 else if len < 0x1_0000 then Len16 else Len64
  }
}
