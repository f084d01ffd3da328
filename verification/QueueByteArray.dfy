/** The typed byte queue (elegance/memory/byte_array/queue_byte_array.cpp). The
    functions say what bytes a write appends and what a read returns and removes;
    the class is the code, whose wide integers are built out of halves. */
module ByteQueue {
  import opened Bytes

  datatype Kind = Int8 | Uint8 | Int16 | Uint16 | Int32 | Uint32 | Int64 | Uint64

  function Width(k: Kind): (w: nat)
    ensures w in {1, 2, 4, 8}
  {
    match k
    case Int8 => 1 case Uint8 => 1
    case Int16 => 2 case Uint16 => 2
    case Int32 => 4 case Uint32 => 4
    case Int64 => 8 case Uint64 => 8
  }

  predicate IsSigned(k: Kind) {
    k == Int8 || k == Int16 || k == Int32 || k == Int64
  }

  predicate InRange(k: Kind, v: int) {
    if IsSigned(k) then InSigned(v, Width(k)) else 0 <= v < Pow256(Width(k))
  }

  function WriteInt(e: Endian, k: Kind, v: int): (s: seq<byte>)
    requires InRange(k, v)
    ensures |s| == Width(k)
  {
    Encode(e, if IsSigned(k) then ToUnsigned(v, Width(k)) else v, Width(k))
  }

  /** The next `w` bytes, with a zero for every byte the queue does not have. */
  function Padded(q: seq<byte>, w: nat): (s: seq<byte>)
    ensures |s| == w
    ensures forall i :: 0 <= i < w ==> s[i] == if i < |q| then q[i] else 0
  {
    seq(w, i requires 0 <= i < w => if i < |q| then q[i] else 0)
  }

  function Rest(q: seq<byte>, w: nat): seq<byte> {
    if w <= |q| then q[w..] else []
  }

  /** A read of a queue that runs dry sees zeros and consumes what there was. */
  function ReadInt(e: Endian, k: Kind, q: seq<byte>): (r: (int, seq<byte>))
    ensures InRange(k, r.0)
  {
    var u := Decode(e, Padded(q, Width(k)));
    (if IsSigned(k) then ToSigned(u, Width(k)) else u, Rest(q, Width(k)))
  }

  function WriteStr(e: Endian, s: seq<byte>): seq<byte> {
    if |s| > USHRT_MAX then [] else WriteInt(e, Uint16, StringLength(s)) + s
  }

  function StringLength(s: seq<byte>): (n: nat)
    requires |s| <= USHRT_MAX
    ensures n == |s| && InRange(Uint16, n)
  {
    Widths();
    |s|
  }

  /** A string that is not wholly there is not read at all. */
  function ReadStr(e: Endian, q: seq<byte>): (r: (seq<byte>, seq<byte>))
  {
    if |q| < 2 then ([], q)
    else
      var n := Decode(e, q[..2]);
      if 2 + n > |q| then ([], q) else (q[2..2 + n], q[2 + n..])
  }

  // ----- one value -----

  lemma PaddedPrefix(s: seq<byte>, rest: seq<byte>)
    ensures Padded(s + rest, |s|) == s && Rest(s + rest, |s|) == rest
  {
  }

  /** Every integer of every kind survives, in either byte order, whatever follows it. */
  lemma IntRoundTrip(e: Endian, k: Kind, v: int, rest: seq<byte>)
    requires InRange(k, v)
    ensures ReadInt(e, k, WriteInt(e, k, v) + rest) == (v, rest)
  {
    var u := if IsSigned(k) then ToUnsigned(v, Width(k)) else v;
    PaddedPrefix(WriteInt(e, k, v), rest);
    DecodeOfEncode(e, u, Width(k));
  }

  lemma {:induction false} StrRoundTrip(e: Endian, s: seq<byte>, rest: seq<byte>)
    requires |s| <= 65535
    ensures ReadStr(e, WriteStr(e, s) + rest) == (s, rest)
  {
    var h := WriteInt(e, Uint16, StringLength(s));
    var q := WriteStr(e, s) + rest;
    assert Pow256(2) == 0x1_0000 by { Widths(); }
    DecodeOfEncode(e, |s|, 2);
    Assoc(h, s, rest);
    assert q[..2] == h && q[2..] == s + rest;
    assert q[2..2 + |s|] == q[2..][..|s|] == s && q[2 + |s|..] == q[2..][|s|..] == rest;
  }

  /** A string cut anywhere inside its encoding is left in the queue untouched. */
  lemma TruncatedStringConsumesNothing(e: Endian, s: seq<byte>, k: nat)
    requires |s| <= USHRT_MAX && k < 2 + |s|
    ensures ReadStr(e, WriteStr(e, s)[..k]) == ([], WriteStr(e, s)[..k])
  {
    Widths();
    DecodeOfEncode(e, |s|, 2);
    if k >= 2 {
      assert WriteStr(e, s)[..k][..2] == Encode(e, |s|, 2);
    }
  }

  lemma {:induction false} LittleValueTruncated(v: nat, w: nat, k: nat)
    requires k <= w
    ensures LittleValue(Padded(LittleDigits(v, w)[..k], w)) == v % Pow256(k)
  {
    var s := Padded(LittleDigits(v, w)[..k], w);
    if k == 0 {
      ZerosAreZero(s);
    } else {
      LittleValueTruncated(v / 256, w - 1, k - 1);
      assert s[1..] == Padded(LittleDigits(v / 256, w - 1)[..k - 1], w - 1);
      DigitSplit(v, Pow256(k - 1));
    }
  }

  lemma DigitSplit(v: nat, p: nat)
    requires p > 0
    ensures v % (256 * p) == v % 256 + 256 * ((v / 256) % p)
  {
    var q, r := v / 256, v % 256;
    var a, b := q / p, q % p;
    assert q == p * a + b;
    assert v == 256 * q + r;
    var m := r + 256 * b;
    assert 256 * (p * a) == (256 * p) * a;
    assert v == (256 * p) * a + m;
    assert 0 <= m < 256 * p;
    RemainderUnique(v, 256 * p, a, m);
  }

  lemma MultiplesApart(d: nat, a: nat, b: nat)
    ensures a < b ==> d * a + d <= d * b
  {
    if a < b {
      assert d * b == d * a + d * (b - a);
      assert d * (b - a) == d + d * (b - a - 1);
    }
  }

  lemma RemainderUnique(v: nat, d: nat, a: nat, m: nat)
    requires d > 0 && m < d && v == d * a + m
    ensures v % d == m
  {
    var a', m' := v / d, v % d;
    assert v == d * a' + m';
    MultiplesApart(d, a, a');
    MultiplesApart(d, a', a);
  }

  /** The high digits of a number, with zeros below, are the number less its low digits. */
  lemma {:induction false} HighDigits(u: nat, w: nat, j: nat)
    requires u < Pow256(w) && j <= w
    ensures LittleValue(Zeros(j) + LittleDigits(u, w)[j..]) == u - u % Pow256(j)
  {
    var d := LittleDigits(u, w);
    LittleValueOfDigits(u, w);
    LowDigits(u, w, j);
    SameHighPart(d[..j], Zeros(j), d[j..]);
    assert d == d[..j] + d[j..];
    ZerosAreZero(Zeros(j));
  }

  /** The digits below do not matter to those above. */
  lemma {:induction false} SameHighPart(a: seq<byte>, b: seq<byte>, high: seq<byte>)
    requires |a| == |b|
    ensures LittleValue(a + high) - LittleValue(a) == LittleValue(b + high) - LittleValue(b)
  {
    LittleValueConcat(a, high);
    LittleValueConcat(b, high);
  }

  lemma {:induction false} LowDigits(u: nat, w: nat, j: nat)
    requires j <= w
    ensures LittleValue(LittleDigits(u, w)[..j]) == u % Pow256(j)
  {
    var low := LittleDigits(u, w)[..j];
    LittleValueTruncated(u, w, j);
    assert Padded(low, w) == low + Zeros(w - j);
    TrailingZeros(low, w - j);
  }

  lemma {:induction false} TrailingZeros(s: seq<byte>, n: nat)
    ensures LittleValue(s + Zeros(n)) == LittleValue(s)
  {
    if s == [] {
      assert s + Zeros(n) == Zeros(n);
      ZerosAreZero(Zeros(n));
    } else {
      assert (s + Zeros(n))[1..] == s[1..] + Zeros(n);
      TrailingZeros(s[1..], n);
    }
  }

  /** The first `k` of the `w` bytes of a number, and zeros for the others. */
  function Arrived(e: Endian, u: nat, w: nat, k: nat): (x: nat)
    requires k <= w
    ensures x <= u
  {
    if e == LittleEndian then Reduced(u, Pow256(k)) else u - Reduced(u, Pow256(w - k))
  }

  function Reduced(u: nat, p: nat): (r: nat)
    requires p > 0
    ensures r <= u
  {
    u % p
  }

  lemma {:induction false} DecodeTruncated(e: Endian, u: nat, w: nat, k: nat)
    requires u < Pow256(w) && k <= w
    ensures Decode(e, Padded(Encode(e, u, w)[..k], w)) == Arrived(e, u, w, k)
  {
    if e == LittleEndian {
      LittleValueTruncated(u, w, k);
    } else {
      var d := LittleDigits(u, w);
      assert Reverse(Padded(Reverse(d)[..k], w)) == Zeros(w - k) + d[w - k..];
      HighDigits(u, w, w - k);
    }
  }

  /** The bit pattern of a number, and the number of a bit pattern. */
  function Pattern(kind: Kind, v: int): (u: nat)
    requires InRange(kind, v)
    ensures u < Pow256(Width(kind))
  {
    if IsSigned(kind) then ToUnsigned(v, Width(kind)) else v
  }

  function OfPattern(kind: Kind, u: nat): int
    requires u < Pow256(Width(kind))
  {
    if IsSigned(kind) then ToSigned(u, Width(kind)) else u
  }

  /** A number of which only `k` bytes arrived leaves the queue empty. In little endian the
      low `k` bytes of its bit pattern are read, in big endian the high `k` bytes; the
      others are zero. */
  lemma TruncatedIntReadsWhatArrived(e: Endian, kind: Kind, v: int, k: nat)
    requires InRange(kind, v) && k <= Width(kind)
    ensures ReadInt(e, kind, WriteInt(e, kind, v)[..k]) ==
            (OfPattern(kind, Arrived(e, Pattern(kind, v), Width(kind), k)), [])
  {
    DecodeTruncated(e, Pattern(kind, v), Width(kind), k);
    var s := WriteInt(e, kind, v);
    assert s == Encode(e, Pattern(kind, v), Width(kind));
    assert k == Width(kind) ==> s[..k][k..] == [];
  }

  // ----- lists of values -----

  datatype Item = IntItem(kind: Kind, v: int) | StrItem(s: seq<byte>)
  datatype Shape = IntShape(kind: Kind) | StrShape

  predicate Writable(it: Item) {
    match it
    case IntItem(k, v) => InRange(k, v)
    case StrItem(s) => |s| <= USHRT_MAX
  }

  predicate AllWritable(items: seq<Item>) {
    forall i :: 0 <= i < |items| ==> Writable(items[i])
  }

  function ShapeOf(it: Item): Shape {
    match it
    case IntItem(k, _) => IntShape(k)
    case StrItem(_) => StrShape
  }

  function Shapes(items: seq<Item>): (r: seq<Shape>) {
    if items == [] then [] else [ShapeOf(items[0])] + Shapes(items[1..])
  }

  function WriteItem(e: Endian, it: Item): seq<byte>
    requires Writable(it)
  {
    match it
    case IntItem(k, v) => WriteInt(e, k, v)
    case StrItem(s) => WriteStr(e, s)
  }

  function ReadItem(e: Endian, sh: Shape, q: seq<byte>): (Item, seq<byte>) {
    match sh
    case IntShape(k) => var (v, r) := ReadInt(e, k, q); (IntItem(k, v), r)
    case StrShape => var (s, r) := ReadStr(e, q); (StrItem(s), r)
  }

  function WriteItems(e: Endian, items: seq<Item>): seq<byte>
    requires AllWritable(items)
  {
    if items == [] then [] else WriteItem(e, items[0]) + WriteItems(e, items[1..])
  }

  function ReadItems(e: Endian, shapes: seq<Shape>, q: seq<byte>): (seq<Item>, seq<byte>)
    decreases |shapes|
  {
    if shapes == [] then ([], q)
    else
      var (it, q1) := ReadItem(e, shapes[0], q);
      var (its, q2) := ReadItems(e, shapes[1..], q1);
      ([it] + its, q2)
  }

  /** Values are written one after the other. */
  lemma {:induction false} ItemsInOrder(e: Endian, a: seq<Item>, b: seq<Item>)
    requires AllWritable(a) && AllWritable(b)
    ensures AllWritable(a + b) && WriteItems(e, a + b) == WriteItems(e, a) + WriteItems(e, b)
    ensures |a| == 1 ==> WriteItems(e, a) == WriteItem(e, a[0])
  {
    if a == [] {
      assert a + b == b;
    } else {
      assert (a + b)[1..] == a[1..] + b;
      ItemsInOrder(e, a[1..], b);
      Assoc(WriteItem(e, a[0]), WriteItems(e, a[1..]), WriteItems(e, b));
      assert |a| == 1 ==> a[1..] == [];
    }
  }

  /** The ranges of the eight kinds, in numbers. */
  lemma Ranges(v: int)
    ensures InRange(Int8, v) <==> -0x80 <= v < 0x80
    ensures InRange(Uint8, v) <==> 0 <= v < 0x100
    ensures InRange(Int16, v) <==> -0x8000 <= v < 0x8000
    ensures InRange(Uint16, v) <==> 0 <= v < 0x1_0000
    ensures InRange(Int32, v) <==> -0x8000_0000 <= v < 0x8000_0000
    ensures InRange(Uint32, v) <==> 0 <= v < 0x1_0000_0000
    ensures InRange(Int64, v) <==> -0x8000_0000_0000_0000 <= v < 0x8000_0000_0000_0000
    ensures InRange(Uint64, v) <==> 0 <= v < 0x1_0000_0000_0000_0000
  {
    Widths();
  }

  /** Sixteen bits on the wire, in both orders, and a byte below zero. */
  lemma WireBytes(hi: byte, lo: byte, neg: int, s: seq<byte>)
    requires -0x80 <= neg < 0 && |s| <= 65535
    ensures InRange(Uint16, hi * 256 + lo) && InRange(Int8, neg)
    ensures WriteInt(LittleEndian, Uint16, hi * 256 + lo) == [lo, hi]
    ensures WriteInt(BigEndian, Uint16, hi * 256 + lo) == [hi, lo]
    ensures WriteInt(LittleEndian, Int8, neg) == [neg + 256]
    ensures WriteStr(LittleEndian, s) == [|s| % 256, |s| / 256] + s
  {
    Ranges(hi * 256 + lo);
    TwoDigits(hi * 256 + lo);
    assert Reverse([lo, hi]) == [hi, lo];
    Int8Bytes(neg);
    StringBytes(s);
  }

  lemma StringBytes(s: seq<byte>)
    requires |s| <= 65535
    ensures WriteStr(LittleEndian, s) == [|s| % 256, |s| / 256] + s
  {
    TwoDigits(|s|);
  }

  lemma Int8Bytes(v: int)
    requires -0x80 <= v < 0x80
    ensures InRange(Int8, v) && WriteInt(LittleEndian, Int8, v) == [v % 256]
  {
    Ranges(v);
    Widths();
    assert LittleDigits(v % 256, 1) == [v % 256] + LittleDigits(0, 0);
  }

  lemma TwoDigits(v: nat)
    requires v < 0x1_0000
    ensures LittleDigits(v, 2) == [v % 256, v / 256]
  {
    assert LittleDigits(v / 256, 1) == [v / 256 % 256] + LittleDigits(v / 256 / 256, 0);
    assert LittleDigits(v, 2) == [v % 256] + LittleDigits(v / 256, 1);
  }

  lemma ItemRoundTrip(e: Endian, it: Item, rest: seq<byte>)
    requires Writable(it)
    ensures ReadItem(e, ShapeOf(it), WriteItem(e, it) + rest) == (it, rest)
  {
    match it {
      case IntItem(k, v) => IntRoundTrip(e, k, v, rest);
      case StrItem(s) => StrRoundTrip(e, s, rest);
    }
  }

  lemma ReadItemsStep(e: Endian, sh: Shape, shapes: seq<Shape>, q: seq<byte>)
    ensures var (it, q1) := ReadItem(e, sh, q);
            var (its, q2) := ReadItems(e, shapes, q1);
            ReadItems(e, [sh] + shapes, q) == ([it] + its, q2)
  {
    assert ([sh] + shapes)[1..] == shapes;
  }

  /** Reading back with the matching calls returns every value written, in order,
      and consumes exactly the bytes that were written. */
  lemma {:induction false} ItemsRoundTrip(e: Endian, items: seq<Item>, rest: seq<byte>)
    requires AllWritable(items)
    ensures ReadItems(e, Shapes(items), WriteItems(e, items) + rest) == (items, rest)
  {
    if items == [] {
      assert WriteItems(e, items) + rest == rest;
    } else {
      ItemsRoundTrip(e, items[1..], rest);
      MoreItemsRoundTrip(e, items[0], items[1..], rest);
      assert items == [items[0]] + items[1..];
    }
  }

  lemma MoreItemsRoundTrip(e: Endian, it: Item, items: seq<Item>, rest: seq<byte>)
    requires Writable(it) && AllWritable(items) && AllWritable([it] + items)
    requires ReadItems(e, Shapes(items), WriteItems(e, items) + rest) == (items, rest)
    ensures ReadItems(e, Shapes([it] + items), WriteItems(e, [it] + items) + rest) == ([it] + items, rest)
  {
    assert ([it] + items)[1..] == items;
    assert Shapes([it] + items) == [ShapeOf(it)] + Shapes(items);
    assert WriteItems(e, [it] + items) == WriteItem(e, it) + WriteItems(e, items);
    FirstItemRoundTrip(e, it, WriteItems(e, items), rest, Shapes(items));
  }

  lemma FirstItemRoundTrip(e: Endian, it: Item, tail: seq<byte>, rest: seq<byte>, shapes: seq<Shape>)
    requires Writable(it)
    ensures var (its, q) := ReadItems(e, shapes, tail + rest);
            ReadItems(e, [ShapeOf(it)] + shapes, WriteItem(e, it) + tail + rest) == ([it] + its, q)
  {
    assert WriteItem(e, it) + tail + rest == WriteItem(e, it) + (tail + rest);
    ItemRoundTrip(e, it, tail + rest);
    ReadItemsStep(e, ShapeOf(it), shapes, WriteItem(e, it) + (tail + rest));
  }

  // ----- the code -----

  class QueueByteArray {
    var bytes: seq<byte>
    var endian: Endian

    constructor ()
      ensures bytes == [] && endian == LittleEndian
    {
      bytes, endian := [], LittleEndian;
    }

    method Clear()
      modifies this`bytes
      ensures bytes == []
    {
      bytes := [];
    }

    method ReadUint8() returns (r: int)
      modifies this`bytes
      ensures (r, bytes) == ReadInt(endian, Uint8, old(bytes))
    {
      assert Reverse(Padded(bytes, 1)) == Padded(bytes, 1);
      assert Padded(bytes, 1)[1..] == [];
      if |bytes| == 0 { return 0; }
      r := bytes[0];
      bytes := bytes[1..];
    }

    method ReadInt8() returns (r: int)
      modifies this`bytes
      ensures (r, bytes) == ReadInt(endian, Int8, old(bytes))
    {
      Widths();
      assert Reverse(Padded(bytes, 1)) == Padded(bytes, 1);
      assert Padded(bytes, 1)[1..] == [];
      if |bytes| == 0 { return 0; }
      var tmp: int := bytes[0];
      r := if tmp < 128 then tmp else tmp - 256;
      bytes := bytes[1..];
    }

    method ReadUint16() returns (value: int)
      modifies this`bytes
      ensures (value, bytes) == ReadInt(endian, Uint16, old(bytes))
    {
      assert Pow256(1) == 0x100 by { Widths(); }
      ReadInHalves(endian, Uint8, Uint16, bytes, 0x100);
      var left := ReadUint8();
      var right := ReadUint8();
      if endian == BigEndian {
        value := left * 0x100 + right;
      } else {
        value := left + right * 0x100;
      }
    }

    method ReadUint32() returns (value: int)
      modifies this`bytes
      ensures (value, bytes) == ReadInt(endian, Uint32, old(bytes))
    {
      assert Pow256(2) == 0x1_0000 by { Widths(); }
      ReadInHalves(endian, Uint16, Uint32, bytes, 0x1_0000);
      var left := ReadUint16();
      var right := ReadUint16();
      if endian == BigEndian {
        value := left * 0x1_0000 + right;
      } else {
        value := left + right * 0x1_0000;
      }
    }

    method ReadUint64() returns (value: int)
      modifies this`bytes
      ensures (value, bytes) == ReadInt(endian, Uint64, old(bytes))
    {
      assert Pow256(4) == 0x1_0000_0000 by { Widths(); }
      ReadInHalves(endian, Uint32, Uint64, bytes, 0x1_0000_0000);
      var left := ReadUint32();
      var right := ReadUint32();
      if endian == BigEndian {
        value := left * 0x1_0000_0000 + right;
      } else {
        value := left + right * 0x1_0000_0000;
      }
    }

    method ReadInt16() returns (r: int)
      modifies this`bytes
      ensures (r, bytes) == ReadInt(endian, Int16, old(bytes))
    {
      var value := ReadUint16();
      r := ToSigned(value, 2);
    }

    method ReadInt32() returns (r: int)
      modifies this`bytes
      ensures (r, bytes) == ReadInt(endian, Int32, old(bytes))
    {
      var value := ReadUint32();
      r := ToSigned(value, 4);
    }

    method ReadInt64() returns (r: int)
      modifies this`bytes
      ensures (r, bytes) == ReadInt(endian, Int64, old(bytes))
    {
      var value := ReadUint64();
      r := ToSigned(value, 8);
    }

    method ReadString() returns (str: seq<byte>)
      modifies this`bytes
      ensures (str, bytes) == ReadStr(endian, old(bytes))
    {
      str := [];
      if 2 > |bytes| { return; }
      ghost var q := bytes;
      var first: int, second: int := bytes[0], bytes[1];
      var len := if endian == BigEndian then first * 256 + second else second * 256 + first;
      PairValue(endian, bytes[..2]);
      if 2 + len > |bytes| { return; }
      var total := len;
      bytes := bytes[1..];
      bytes := bytes[1..];
      while len > 0
        invariant 0 <= len <= total
        invariant str == q[2..2 + total - len]
        invariant bytes == q[2 + total - len..]
      {
        len := len - 1;
        str := str + [bytes[0]];
        bytes := bytes[1..];
      }
    }

    /** `None` is the null pointer; a size of 0 asks for everything. */
    method ReadObject(size: nat) returns (obj: Option<seq<byte>>)
      modifies this`bytes
      ensures size > old(|bytes|) ==> obj == None && bytes == old(bytes)
      ensures size <= old(|bytes|) ==>
                obj.Some? && obj.value + bytes == old(bytes) &&
                |obj.value| == if size == 0 then old(|bytes|) else size
    {
      if size > |bytes| { return None; }
      var n := if size == 0 then |bytes| else size;
      ghost var q := bytes;
      var data := [];
      var i := 0;
      while i < n
        invariant 0 <= i <= n
        invariant data == q[..i] && bytes == q[i..]
      {
        data := data + [bytes[0]];
        bytes := bytes[1..];
        i := i + 1;
      }
      obj := Some(data);
    }

    method WriteUint8(value: int)
      requires InRange(Uint8, value)
      modifies this`bytes
      ensures bytes == old(bytes) + WriteInt(endian, Uint8, value)
    {
      Widths();
      assert LittleDigits(value, 1) == [value] == Reverse([value]);
      bytes := bytes + [value];
    }

    method WriteInt8(value: int)
      requires InRange(Int8, value)
      modifies this`bytes
      ensures bytes == old(bytes) + WriteInt(endian, Int8, value)
    {
      Widths();
      var realValue := ToUnsigned(value, 1);
      assert LittleDigits(realValue, 1) == [realValue] == Reverse([realValue]);
      bytes := bytes + [realValue];
    }

    method WriteUint16(value: int)
      requires InRange(Uint16, value)
      modifies this`bytes
      ensures bytes == old(bytes) + WriteInt(endian, Uint16, value)
    {
      assert Pow256(1) == 0x100 && Pow256(2) == 0x1_0000 by { Widths(); }
      WriteInHalves(endian, Uint8, Uint16, value, value / 0x100, value % 0x100);
      if endian == BigEndian {
        WriteUint8(value / 0x100);
        WriteUint8(value % 0x100);
      } else {
        WriteUint8(value % 0x100);
        WriteUint8(value / 0x100);
      }
    }

    /** The shifts `(value << 16) >> 16` are those of a 32-bit unsigned integer. */
    method WriteUint32(value: int)
      requires InRange(Uint32, value)
      modifies this`bytes
      ensures bytes == old(bytes) + WriteInt(endian, Uint32, value)
    {
      assert Pow256(2) == 0x1_0000 && Pow256(4) == 0x1_0000_0000 by { Widths(); }
      var low := ((value * 0x1_0000) % 0x1_0000_0000) / 0x1_0000;
      LowHalf32(value);
      WriteInHalves(endian, Uint16, Uint32, value, value / 0x1_0000, low);
      if endian == BigEndian {
        WriteUint16(value / 0x1_0000);
        WriteUint16(low);
      } else {
        WriteUint16(low);
        WriteUint16(value / 0x1_0000);
      }
    }

    method WriteUint64(value: int)
      requires InRange(Uint64, value)
      modifies this`bytes
      ensures bytes == old(bytes) + WriteInt(endian, Uint64, value)
    {
      Split64(endian, value);
      WriteHalves(value / 0x1_0000_0000, ((value * 0x1_0000_0000) % 0x1_0000_0000_0000_0000) / 0x1_0000_0000);
    }

    /** The two halves of a 64-bit integer, in the queue's byte order. */
    method WriteHalves(high: int, low: int)
      requires InRange(Uint32, high) && InRange(Uint32, low)
      modifies this`bytes
      ensures bytes == old(bytes) +
                if endian == LittleEndian then WriteInt(endian, Uint32, low) + WriteInt(endian, Uint32, high)
                else WriteInt(endian, Uint32, high) + WriteInt(endian, Uint32, low)
    {
      if endian == BigEndian {
        WriteUint32(high);
        WriteUint32(low);
      } else {
        WriteUint32(low);
        WriteUint32(high);
      }
    }

    method WriteInt16(value: int)
      requires InRange(Int16, value)
      modifies this`bytes
      ensures bytes == old(bytes) + WriteInt(endian, Int16, value)
    {
      WriteUint16(ToUnsigned(value, 2));
    }

    method WriteInt32(value: int)
      requires InRange(Int32, value)
      modifies this`bytes
      ensures bytes == old(bytes) + WriteInt(endian, Int32, value)
    {
      WriteUint32(ToUnsigned(value, 4));
    }

    method WriteInt64(value: int)
      requires InRange(Int64, value)
      modifies this`bytes
      ensures bytes == old(bytes) + WriteInt(endian, Int64, value)
    {
      WriteUint64(ToUnsigned(value, 8));
    }

    method WriteString(value: seq<byte>)
      modifies this`bytes
      ensures bytes == old(bytes) + WriteStr(endian, value)
    {
      if |value| > USHRT_MAX { return; }
      var len := StringLength(value);
      WriteUint16(len);
      Assoc(old(bytes), WriteInt(endian, Uint16, len), value);
      ghost var q := bytes;
      var i := 0;
      while i < len
        invariant 0 <= i <= len
        invariant bytes == q + value[..i]
      {
        bytes := bytes + [value[i]];
        i := i + 1;
      }
      assert value[..i] == value;
    }

    /** A length that is not positive writes nothing. */
    method WriteObject(obj: seq<byte>, bytesLen: int)
      requires bytesLen <= |obj|
      modifies this`bytes
      ensures bytes == old(bytes) + if bytesLen <= 0 then [] else obj[..bytesLen]
    {
      if bytesLen <= 0 { return; }
      ghost var q := bytes;
      var i := 0;
      while i < bytesLen
        invariant 0 <= i <= bytesLen
        invariant bytes == q + obj[..i]
      {
        bytes := bytes + [obj[i]];
        i := i + 1;
      }
    }

    /** Moves bytes, never copies them: what this queue gains is what the other loses.
        A negative length compares as a large unsigned one and so moves everything.
        Reading from itself moves the front of the queue to its back. */
    method ReadFromByteArray(other: QueueByteArray, bytesLen: int)
      modifies this`bytes, other`bytes
      ensures var n := if 0 < bytesLen <= old(|other.bytes|) then bytesLen else old(|other.bytes|);
              if other == this then bytes == old(bytes)[n..] + old(bytes)[..n]
              else |bytes| == old(|bytes|) + n && bytes + other.bytes == old(bytes) + old(other.bytes)
    {
      ghost var q, p := bytes, other.bytes;
      var n := if bytesLen <= 0 || |other.bytes| < bytesLen then |other.bytes| else bytesLen;
      var obj := other.ReadObject(n);
      assert obj.value == p[..n] && other.bytes == p[n..];
      WriteObject(obj.value, n);
      assert other != this ==> bytes == q + p[..n] && other.bytes == p[n..];
    }

    /** `operator+` drains the other queue into this one. */
    method Append(other: QueueByteArray)
      modifies this`bytes, other`bytes
      ensures other != this ==> bytes == old(bytes) + old(other.bytes) && other.bytes == []
      ensures other == this ==> bytes == old(bytes)
    {
      ghost var q, p := bytes, other.bytes;
      ReadFromByteArray(other, |other.bytes|);
      if other != this {
        assert other.bytes == [];
        assert bytes == bytes + other.bytes == q + p;
      }
    }

    /** `operator=` is a move: the source of the assignment ends up empty. */
    method Assign(other: QueueByteArray)
      modifies this`bytes, other`bytes
      ensures bytes == old(other.bytes)
      ensures other != this ==> other.bytes == []
    {
      if other == this { return; }
      Clear();
      Append(other);
    }
  }

  lemma PaddedHalves(q: seq<byte>, w: nat)
    ensures Padded(q, 2 * w) == Padded(q, w) + Padded(Rest(q, w), w)
    ensures Rest(Rest(q, w), w) == Rest(q, 2 * w)
  {
  }

  /** Two reads of half the width see the same bytes as one read of the whole. */
  lemma ReadInHalves(e: Endian, half: Kind, whole: Kind, q: seq<byte>, p: int)
    requires !IsSigned(half) && !IsSigned(whole) && Width(whole) == 2 * Width(half) && p == Pow256(Width(half))
    ensures var (left, q1) := ReadInt(e, half, q);
            var (right, q2) := ReadInt(e, half, q1);
            ReadInt(e, whole, q) == (if e == LittleEndian then left + p * right else p * left + right, q2)
  {
    var w := Width(half);
    PaddedHalves(q, w);
    DecodeHalves(e, Padded(q, w), Padded(Rest(q, w), w));
  }

  /** Two writes of half the width append the same bytes as one write of the whole. */
  lemma WriteInHalves(e: Endian, half: Kind, whole: Kind, value: int, hi: int, lo: int)
    requires !IsSigned(half) && !IsSigned(whole) && Width(whole) == 2 * Width(half)
    requires InRange(half, hi) && InRange(half, lo) && value == Pow256(Width(half)) * hi + lo
    ensures InRange(whole, value)
    ensures WriteInt(e, whole, value) ==
            if e == LittleEndian then WriteInt(e, half, lo) + WriteInt(e, half, hi)
            else WriteInt(e, half, hi) + WriteInt(e, half, lo)
  {
    EncodeHalves(e, hi, lo, Width(half));
  }

  /** `(value << 16) >> 16` on 32 bits keeps the low half. */
  lemma LowHalf32(value: nat)
    requires value < 0x1_0000_0000
    ensures ((value * 0x1_0000) % 0x1_0000_0000) / 0x1_0000 == value % 0x1_0000
  {
  }

  /** `(value << 32) >> 32` on 64 bits keeps the low half. */
  lemma LowHalf64(value: nat)
    requires value < 0x1_0000_0000_0000_0000
    ensures ((value * 0x1_0000_0000) % 0x1_0000_0000_0000_0000) / 0x1_0000_0000 == value % 0x1_0000_0000
  {
  }

  lemma Split64(e: Endian, value: int)
    requires InRange(Uint64, value)
    ensures var hi, lo := value / 0x1_0000_0000, value % 0x1_0000_0000;
            && InRange(Uint32, hi) && InRange(Uint32, lo)
            && ((value * 0x1_0000_0000) % 0x1_0000_0000_0000_0000) / 0x1_0000_0000 == lo
            && WriteInt(e, Uint64, value) ==
               if e == LittleEndian then WriteInt(e, Uint32, lo) + WriteInt(e, Uint32, hi)
               else WriteInt(e, Uint32, hi) + WriteInt(e, Uint32, lo)
  {
    var hi, lo := value / 0x1_0000_0000, value % 0x1_0000_0000;
    Ranges(value);
    Ranges(hi);
    Ranges(lo);
    LowHalf64(value);
    assert Pow256(4) == 0x1_0000_0000 by { Widths(); }
    WriteInHalves(e, Uint32, Uint64, value, hi, lo);
  }

  lemma PairValue(e: Endian, s: seq<byte>)
    requires |s| == 2
    ensures var first: int, second: int := s[0], s[1];
            Decode(e, s) == if e == BigEndian then first * 256 + second else second * 256 + first
  {
    Widths();
    assert s == [s[0]] + [s[1]];
    DecodeHalves(e, [s[0]], [s[1]]);
    assert Reverse([s[0]]) == [s[0]] && Reverse([s[1]]) == [s[1]];
    assert forall b: byte :: LittleValue([b]) == b + 256 * LittleValue([b][1..]) == b;
  }
}
