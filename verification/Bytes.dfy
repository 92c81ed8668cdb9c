/** Bytes, big-endian integers and the XOR mask shared by the decoder and the printer. */
module Bytes {
  type byte = bv8

  function Pow256(width: nat): (p: nat)
    ensures p > 0
  {
    if width == 0 then 1 else 256 * Pow256(width - 1)
  }

  function FromBigEndian(s: seq<byte>): nat {
    if s == [] then 0 else 256 * FromBigEndian(s[..|s| - 1]) + s[|s| - 1] as nat
  }

  function ToBigEndian(n: nat, width: nat): (s: seq<byte>)
    ensures |s| == width
  {
    if width == 0 then [] else ToBigEndian(n / 256, width - 1) + [(n % 256) as byte]
  }

  lemma NextByte(b: byte)
    requires b != 0xFF
    ensures (b + 1) as nat == b as nat + 1
  {
  }

  lemma {:induction false} ByteOfNat(n: nat)
    requires n < 256
    ensures (n as byte) as nat == n
  {
    if n == 0 {
    } else {
      ByteOfNat(n - 1);
      var b := (n - 1) as byte;
      NextByte(b);
      assert (b + 1) as nat == n;
      assert ((b + 1) as nat) as byte == b + 1;
    }
  }

  lemma {:induction false} BigEndianRoundTrip(n: nat, width: nat)
    requires n < Pow256(width)
    ensures FromBigEndian(ToBigEndian(n, width)) == n
  {
    if width == 0 {
    } else {
      BigEndianRoundTrip(n / 256, width - 1);
      ByteOfNat(n % 256);
      var s := ToBigEndian(n, width);
      assert s[..|s| - 1] == ToBigEndian(n / 256, width - 1);
    }
  }

  lemma {:induction false} BigEndianIsOnto(s: seq<byte>)
    ensures FromBigEndian(s) < Pow256(|s|)
    ensures ToBigEndian(FromBigEndian(s), |s|) == s
  {
    if s == [] {
    } else {
      BigEndianIsOnto(s[..|s| - 1]);
      var last := s[|s| - 1] as nat;
      var n := FromBigEndian(s);
      assert n / 256 == FromBigEndian(s[..|s| - 1]) && n % 256 == last;
      assert s == s[..|s| - 1] + [s[|s| - 1]];
    }
  }

  /** Section 5.3 of RFC 6455: octet i is XORed with octet i mod 4 of the key. */
  function Mask(payload: seq<byte>, key: seq<byte>): (r: seq<byte>)
    requires |key| == 4
    ensures |r| == |payload|
  {
    seq(|payload|, i requires 0 <= i < |payload| => payload[i] ^ key[i % 4])
  }

  lemma MaskTwice(payload: seq<byte>, key: seq<byte>)
    requires |key| == 4
    ensures Mask(Mask(payload, key), key) == payload
  {
    forall i | 0 <= i < |payload|
      ensures Mask(Mask(payload, key), key)[i] == payload[i]
    {
      XorTwice(payload[i], key[i % 4]);
    }
  }

  lemma XorTwice(a: byte, k: byte)
    ensures (a ^ k) ^ k == a
  {
  }
}
