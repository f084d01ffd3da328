/** Bytes, positional encodings and two's complement: the base that the byte
    array, the framing and the envelope share. */
module Bytes {

  type byte = b: int | 0 <= b < 256

  datatype Option<+T> = None | Some(value: T)

  datatype Endian = BigEndian | LittleEndian

  const INT_MAX := 0x7FFF_FFFF
  const USHRT_MAX := 0xFFFF
  const SHRT_MAX := 0x7FFF

  predicate NoRepeats<T(==)>(s: seq<T>) {
    forall i, j :: 0 <= i < j < |s| ==> s[i] != s[j]
  }

  lemma Assoc<T>(a: seq<T>, b: seq<T>, c: seq<T>)
    ensures a + b + c == a + (b + c)
  {
  }

  function Pow256(w: nat): (p: nat)
    ensures p > 0
  {
    if w == 0 then 1 else 256 * Pow256(w - 1)
  }

  /** The `w` low base-256 digits of `v`, least significant first. */
  function LittleDigits(v: nat, w: nat): (s: seq<byte>)
    ensures |s| == w
  {
    if w == 0 then [] else [v % 256] + LittleDigits(v / 256, w - 1)
  }

  /** The number whose base-256 digits, least significant first, are `s`. */
  function LittleValue(s: seq<byte>): (v: nat)
    ensures v < Pow256(|s|)
  {
    if s == [] then 0 else s[0] + 256 * LittleValue(s[1..])
  }

  function Reverse(s: seq<byte>): (r: seq<byte>)
    ensures |r| == |s|
    ensures forall i :: 0 <= i < |s| ==> r[i] == s[|s| - 1 - i]
  {
    if s == [] then [] else Reverse(s[1..]) + [s[0]]
  }

  function Encode(e: Endian, v: nat, w: nat): (s: seq<byte>)
    ensures |s| == w
  {
    if e == LittleEndian then LittleDigits(v, w) else Reverse(LittleDigits(v, w))
  }

  function Decode(e: Endian, s: seq<byte>): (v: nat)
    ensures v < Pow256(|s|)
  {
    if e == LittleEndian then LittleValue(s) else LittleValue(Reverse(s))
  }

  lemma {:induction false} LittleValueOfDigits(v: nat, w: nat)
    requires v < Pow256(w)
    ensures LittleValue(LittleDigits(v, w)) == v
  {
    if w != 0 {
      LittleValueOfDigits(v / 256, w - 1);
      assert LittleDigits(v, w)[1..] == LittleDigits(v / 256, w - 1);
    }
  }

  lemma LowDigit(b: byte, v: nat)
    ensures (b + 256 * v) % 256 == b && (b + 256 * v) / 256 == v
  {
  }

  lemma {:induction false} LittleDigitsOfValue(s: seq<byte>)
    ensures LittleDigits(LittleValue(s), |s|) == s
  {
    if s != [] {
      LittleDigitsOfValue(s[1..]);
      LowDigit(s[0], LittleValue(s[1..]));
      assert s == [s[0]] + s[1..];
    }
  }

  lemma {:induction false} ZerosAreZero(s: seq<byte>)
    requires forall i :: 0 <= i < |s| ==> s[i] == 0
    ensures LittleValue(s) == 0
  {
    if s != [] { ZerosAreZero(s[1..]); }
  }

  function Zeros(n: nat): (s: seq<byte>)
    ensures |s| == n && forall i :: 0 <= i < n ==> s[i] == 0
  {
    seq(n, _ => 0)
  }

  lemma ReverseTwice(s: seq<byte>)
    ensures Reverse(Reverse(s)) == s
  {
    var r := Reverse(Reverse(s));
    assert forall i :: 0 <= i < |s| ==> r[i] == s[i];
  }

  lemma ReverseConcat(a: seq<byte>, b: seq<byte>)
    ensures Reverse(a + b) == Reverse(b) + Reverse(a)
  {
  }

  /** An integer of `w` bytes survives encoding in either byte order. */
  lemma DecodeOfEncode(e: Endian, v: nat, w: nat)
    requires v < Pow256(w)
    ensures Decode(e, Encode(e, v, w)) == v
  {
    LittleValueOfDigits(v, w);
    ReverseTwice(LittleDigits(v, w));
  }

  /** Every byte string of `w` bytes is the encoding of exactly the number it decodes to. */
  lemma EncodeOfDecode(e: Endian, s: seq<byte>)
    ensures Encode(e, Decode(e, s), |s|) == s
  {
    LittleDigitsOfValue(s);
    LittleDigitsOfValue(Reverse(s));
    ReverseTwice(s);
  }

  lemma ScaleSum(v: int, x: int, y: int, p: int, q: int)
    requires q == 256 * p
    ensures v + 256 * (x + p * y) == (v + 256 * x) + q * y
  {
    assert q * y == 256 * (p * y);
  }

  lemma {:induction false} LittleValueConcat(a: seq<byte>, b: seq<byte>)
    ensures LittleValue(a + b) == LittleValue(a) + Pow256(|a|) * LittleValue(b)
  {
    if a == [] {
      assert a + b == b;
    } else {
      LittleValueConcat(a[1..], b);
      assert (a + b)[1..] == a[1..] + b;
      ScaleSum(a[0], LittleValue(a[1..]), LittleValue(b), Pow256(|a| - 1), Pow256(|a|));
    }
  }

  /** Reading a number in two halves: the half that comes first is the high one
      exactly when the order is big endian. */
  lemma DecodeHalves(e: Endian, a: seq<byte>, b: seq<byte>)
    requires |a| == |b|
    ensures Decode(e, a + b) ==
            if e == LittleEndian then Decode(e, a) + Pow256(|a|) * Decode(e, b)
            else Pow256(|a|) * Decode(e, a) + Decode(e, b)
  {
    LittleValueConcat(a, b);
    ReverseConcat(a, b);
    LittleValueConcat(Reverse(b), Reverse(a));
  }

  /** Writing a number in two halves gives the digits of the whole. */
  lemma EncodeHalves(e: Endian, hi: nat, lo: nat, w: nat)
    requires lo < Pow256(w) && hi < Pow256(w)
    ensures Pow256(w) * hi + lo < Pow256(2 * w)
    ensures Encode(e, Pow256(w) * hi + lo, 2 * w) ==
            if e == LittleEndian then Encode(e, lo, w) + Encode(e, hi, w)
            else Encode(e, hi, w) + Encode(e, lo, w)
  {
    var h, l := Encode(e, hi, w), Encode(e, lo, w);
    DecodeOfEncode(e, hi, w);
    DecodeOfEncode(e, lo, w);
    if e == LittleEndian {
      DecodeHalves(e, l, h);
      EncodeOfDecode(e, l + h);
    } else {
      DecodeHalves(e, h, l);
      EncodeOfDecode(e, h + l);
    }
  }

  /** What `TransformType` does between an unsigned and a signed type of `w` bytes. */
  function ToSigned(v: nat, w: nat): (r: int)
    requires v < Pow256(w)
  {
    if 2 * v < Pow256(w) then v else v - Pow256(w)
  }

  predicate InSigned(v: int, w: nat) {
    var p: int := Pow256(w);
    -p <= 2 * v < p
  }

  function ToUnsigned(v: int, w: nat): (r: nat)
    requires InSigned(v, w)
    ensures r < Pow256(w)
    ensures ToSigned(r, w) == v
  {
    if v < 0 then v + Pow256(w) else v
  }

  lemma Widths()
    ensures Pow256(0) == 1 && Pow256(1) == 0x100 && Pow256(2) == 0x1_0000
    ensures Pow256(4) == 0x1_0000_0000 && Pow256(8) == 0x1_0000_0000_0000_0000
  {
    assert Pow256(2) == 256 * Pow256(1);
    assert Pow256(3) == 256 * Pow256(2);
    assert Pow256(4) == 256 * Pow256(3);
    assert Pow256(5) == 256 * Pow256(4);
    assert Pow256(6) == 256 * Pow256(5);
    assert Pow256(7) == 256 * Pow256(6);
    assert Pow256(8) == 256 * Pow256(7);
  }
}
