/** Bytes, little-endian words and lower-case hexadecimal. */
module Bytes {
  import opened Options

  type Byte = b: int | 0 <= b < 256

  const WORD: nat := 0x1_0000_0000

  type Word = n: nat | n < WORD

  function Pow256(k: nat): (p: nat)
    ensures p > 0
  {
    if k == 0 then 1 else 256 * Pow256(k - 1)
  }

  /** struct.pack of an unsigned little-endian field of k bytes. */
  function Pack(n: nat, k: nat): (s: seq<Byte>)
    ensures |s| == k
  {
    if k == 0 then [] else [n % 256] + Pack(n / 256, k - 1)
  }

  function Unpack(s: seq<Byte>): nat {
    if s == [] then 0 else s[0] + 256 * Unpack(s[1..])
  }

  /** Byte j of a field is digit j to the base 256. */
  lemma {:induction false} PackDigits(n: nat, k: nat)
    ensures k > 0 ==> Pack(n, k)[0] == n % 256
    ensures k > 1 ==> Pack(n, k)[1] == n / 0x100 % 256
    ensures k > 2 ==> Pack(n, k)[2] == n / 0x1_0000 % 256
    ensures k > 3 ==> Pack(n, k)[3] == n / 0x100_0000 % 256
  {
    var rest := n / 256;
    Quotients(n);
    assert k > 0 ==> Pack(n, k) == [n % 256] + Pack(rest, k - 1);
    hide Pack;
    if k > 1 {
      PackDigits(rest, k - 1);
    }
  }

  lemma Quotients(n: nat)
    ensures n / 256 / 0x100 == n / 0x1_0000 && n / 256 / 0x1_0000 == n / 0x100_0000
  {
  }

  lemma {:induction false} UnpackPack(n: nat, k: nat)
    requires n < Pow256(k)
    ensures Unpack(Pack(n, k)) == n
  {
    if k == 0 {
    } else {
      UnpackPack(n / 256, k - 1);
      assert Pack(n, k)[1..] == Pack(n / 256, k - 1);
    }
  }

  lemma {:induction false} PackUnpack(s: seq<Byte>)
    ensures Unpack(s) < Pow256(|s|) && Pack(Unpack(s), |s|) == s
  {
    if s == [] {
    } else {
      PackUnpack(s[1..]);
      assert s == [s[0]] + s[1..];
    }
  }

  /** Little-endian fields of two and of four bytes, byte by byte. */
  function Field16(s: seq<Byte>, at: nat): (n: nat)
    requires at + 2 <= |s|
    ensures n < 0x1_0000
  {
    var a: nat, b: nat := s[at], s[at + 1];
    a + 0x100 * b
  }

  function Field32(s: seq<Byte>, at: nat): (n: nat)
    requires at + 4 <= |s|
    ensures n < WORD
  {
    var a: nat, b: nat, c: nat, d: nat := s[at], s[at + 1], s[at + 2], s[at + 3];
    a + 0x100 * b + 0x1_0000 * c + 0x100_0000 * d
  }

  lemma FieldsAreBytes(s: seq<Byte>, at: nat)
    ensures at + 1 <= |s| ==> Unpack(s[at..at + 1]) == s[at]
    ensures at + 2 <= |s| ==> Unpack(s[at..at + 2]) == Field16(s, at)
    ensures at + 4 <= |s| ==> Unpack(s[at..at + 4]) == Field32(s, at)
  {
    if at + 1 <= |s| { FirstByte(s[at..at + 1]); }
    if at + 2 <= |s| {
      FirstByte(s[at..at + 2]);
      FirstByte(s[at..at + 2][1..]);
    }
    if at + 4 <= |s| {
      var t := s[at..at + 4];
      FirstByte(t);
      FirstByte(t[1..]);
      FirstByte(t[1..][1..]);
      FirstByte(t[1..][1..][1..]);
    }
  }

  lemma FirstByte(s: seq<Byte>)
    requires s != []
    ensures Unpack(s) == s[0] + 256 * Unpack(s[1..]) && (|s| == 1 ==> Unpack(s) == s[0])
  {
  }

  lemma Widths()
    ensures Pow256(1) == 256 && Pow256(2) == 0x1_0000 && Pow256(4) == WORD
  {
  }

  // ------------------------------------------------------------ hexadecimal

  function HexDigit(d: int): Byte
    requires 0 <= d < 16
  {
    if d < 10 then 0x30 + d else 0x57 + d
  }

  predicate IsHexDigit(c: Byte) { 0x30 <= c <= 0x39 || 0x61 <= c <= 0x66 }

  function DigitValue(c: Byte): (d: int)
    requires IsHexDigit(c)
    ensures 0 <= d < 16 && HexDigit(d) == c
  {
    if c <= 0x39 then c - 0x30 else c - 0x57
  }

  /** binascii.hexlify */
  function Hexlify(s: seq<Byte>): (h: seq<Byte>)
    ensures |h| == 2 * |s| && forall k :: 0 <= k < |h| ==> IsHexDigit(h[k])
  {
    if s == [] then [] else [HexDigit(s[0] / 16), HexDigit(s[0] % 16)] + Hexlify(s[1..])
  }

  /** binascii.unhexlify, None where it raises. */
  function Unhexlify(h: seq<Byte>): Option<seq<Byte>> {
    if h == [] then Some([])
    else if |h| == 1 || !IsHexDigit(h[0]) || !IsHexDigit(h[1]) then None
    else
      match Unhexlify(h[2..])
      case None => None
      case Some(rest) => Some([DigitValue(h[0]) * 16 + DigitValue(h[1])] + rest)
  }

  /** The digits are 0 to 9 and a to f, the upper half of a byte first. */
  lemma {:induction false} HexDigits(s: seq<Byte>, k: nat)
    requires k < |s|
    ensures Hexlify(s)[2 * k] == s[k] / 16 + (if s[k] / 16 < 10 then 0x30 else 0x57)
    ensures Hexlify(s)[2 * k + 1] == s[k] % 16 + (if s[k] % 16 < 10 then 0x30 else 0x57)
  {
    if k > 0 {
      HexDigits(s[1..], k - 1);
      assert Hexlify(s) == [HexDigit(s[0] / 16), HexDigit(s[0] % 16)] + Hexlify(s[1..]);
    }
  }

  lemma {:induction false} UnhexlifyHexlify(s: seq<Byte>)
    ensures Unhexlify(Hexlify(s)) == Some(s)
  {
    if s == [] {
    } else {
      UnhexlifyHexlify(s[1..]);
      assert Hexlify(s)[2..] == Hexlify(s[1..]);
      assert s == [s[0]] + s[1..];
    }
  }

  lemma {:induction false} HexlifyUnhexlify(h: seq<Byte>)
    requires Unhexlify(h).Some?
    ensures Hexlify(Unhexlify(h).value) == h
  {
    if h == [] {
    } else {
      HexlifyUnhexlify(h[2..]);
      var s := Unhexlify(h).value;
      assert s[1..] == Unhexlify(h[2..]).value;
      assert h == [h[0], h[1]] + h[2..];
    }
  }
}
