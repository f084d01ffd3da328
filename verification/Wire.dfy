/** The bytes that the generated code of tools/serialize_creator/cpp_creator.py puts on the
    wire: their order, their make-up, and those of the demo's classes spelled out. */
module Wire {
  import opened Bytes
  import opened ByteQueue
  import opened Schema

  // ----- the bytes on the wire -----

  /** Attributes are written one after the other, in the order of the class. */
  lemma {:induction false} AttributesInOrder(e: Endian, a: Class, b: Class, fs: seq<Value>, gs: seq<Value>)
    requires |a| == |fs|
    ensures RunSerialize(e, a + b, fs + gs) == RunSerialize(e, a, fs) + RunSerialize(e, b, gs)
    decreases |a|
  {
    if a == [] {
      assert a + b == b && fs + gs == gs;
    } else {
      assert (a + b)[1..] == a[1..] + b && (fs + gs)[1..] == fs[1..] + gs;
      AttributesInOrder(e, a[1..], b, fs[1..], gs);
      Assoc(ExecWrite(e, SerializeCode(a[0]), fs[0]), RunSerialize(e, a[1..], fs[1..]), RunSerialize(e, b, gs));
    }
  }

  /** And read in that order, each from where the one before it stopped. */
  lemma {:induction false} AttributesReadInOrder(e: Endian, a: Class, b: Class, fs: seq<Value>, gs: seq<Value>,
                                                 q: seq<byte>)
    requires |a| == |fs| && |b| == |gs|
    ensures var (vs, q1) := RunUnserialize(e, a, fs, q);
            var (us, q2) := RunUnserialize(e, b, gs, q1);
            RunUnserialize(e, a + b, fs + gs, q) == (vs + us, q2)
    decreases |a|
  {
    if a == [] {
      assert a + b == b && fs + gs == gs;
      var us := RunUnserialize(e, b, gs, q).0;
      assert [] + us == us;
    } else {
      assert (a + b)[1..] == a[1..] + b && (fs + gs)[1..] == fs[1..] + gs;
      var (v, q1) := ExecRead(e, UnserializeCode(a[0]), fs[0], q);
      AttributesReadInOrder(e, a[1..], b, fs[1..], gs, q1);
      var (vs, q2) := RunUnserialize(e, a[1..], fs[1..], q1);
      Assoc([v], vs, RunUnserialize(e, b, gs, q2).0);
    }
  }

  /** The typed values that make up an object on the wire: a scalar or string is itself, a
      nested object is nothing, a vector is its length and then its elements. */
  function Flat(cls: Class, fields: seq<Value>): seq<Item>
    decreases fields, 0
  {
    if cls == [] || fields == [] then [] else FlatAttr(cls[0], fields[0]) + Flat(cls[1..], fields[1..])
  }

  function FlatAttr(a: Attr, v: Value): seq<Item>
    decreases v, 2
  {
    match a
    case Single(Msg(_)) => []
    case Single(t) => FlatElem(t, v)
    case Array(t) => if v.ArrV? then [IntItem(Uint16, |v.items|)] + FlatEach(t, v.items) else []
  }

  function FlatElem(t: Elem, v: Value): seq<Item>
    decreases v, 1
  {
    match (t, v)
    case (Prim(k), IntV(n)) => [IntItem(k, n)]
    case (Str, StrV(s)) => [StrItem(s)]
    case (Msg(c), MsgV(fields)) => Flat(c, fields)
    case _ => []
  }

  function FlatEach(t: Elem, items: seq<Value>): seq<Item>
    decreases items, 0
  {
    if items == [] then [] else FlatElem(t, items[0]) + FlatEach(t, items[1..])
  }

  /** For every class and every value of it the generated code writes exactly these. */
  lemma {:induction false} WireFormat(e: Endian, cls: Class, fields: seq<Value>)
    requires Fits(cls, fields)
    ensures AllWritable(Flat(cls, fields)) && RunSerialize(e, cls, fields) == WriteItems(e, Flat(cls, fields))
    decreases fields, 0
  {
    if cls != [] {
      AttrFormat(e, cls[0], fields[0]);
      WireFormat(e, cls[1..], fields[1..]);
      ItemsInOrder(e, FlatAttr(cls[0], fields[0]), Flat(cls[1..], fields[1..]));
    }
  }

  lemma {:induction false} AttrFormat(e: Endian, a: Attr, v: Value)
    requires FitsAttr(a, v)
    ensures AllWritable(FlatAttr(a, v)) && ExecWrite(e, SerializeCode(a), v) == WriteItems(e, FlatAttr(a, v))
    decreases v, 2
  {
    match a {
      case Single(Prim(k)) => ElemFormat(e, a.elem, v);
      case Single(Str) => ElemFormat(e, a.elem, v);
      case Single(Msg(_)) =>
      case Array(t) =>
        var size := IntItem(Uint16, |v.items|);
        Ranges(|v.items|);
        ArrayWrites(e, t, v.items);
        EachFormat(e, t, v.items);
        ItemsInOrder(e, [size], FlatEach(t, v.items));
        assert WriteItem(e, size) == WriteInt(e, Uint16, SizeField(v.items));
    }
  }

  lemma {:induction false} ElemFormat(e: Endian, t: Elem, v: Value)
    requires FitsElem(t, v)
    ensures AllWritable(FlatElem(t, v)) && ExecWrite(e, ElemSerializeCode(t), v) == WriteItems(e, FlatElem(t, v))
    decreases v, 1
  {
    match t {
      case Prim(k) => IntFormat(e, k, v);
      case Str => StrFormat(e, v);
      case Msg(c) =>
        OneWrite(e, CallSerialize(c), v);
        WireFormat(e, c, v.fields);
    }
  }

  lemma IntFormat(e: Endian, k: Kind, v: Value)
    requires FitsElem(Prim(k), v)
    ensures AllWritable(FlatElem(Prim(k), v))
    ensures ExecWrite(e, ElemSerializeCode(Prim(k)), v) == WriteItems(e, FlatElem(Prim(k), v))
  {
    OneWrite(e, WritePrim(k), v);
    OneItem(e, IntItem(k, v.v));
  }

  lemma StrFormat(e: Endian, v: Value)
    requires FitsElem(Str, v)
    ensures AllWritable(FlatElem(Str, v)) && ExecWrite(e, ElemSerializeCode(Str), v) == WriteItems(e, FlatElem(Str, v))
  {
    OneWrite(e, WriteString, v);
    OneItem(e, StrItem(v.s));
  }

  lemma OneItem(e: Endian, it: Item)
    requires Writable(it)
    ensures AllWritable([it]) && WriteItems(e, [it]) == WriteItem(e, it)
  {
    assert [it][1..] == [] && WriteItem(e, it) + [] == WriteItem(e, it);
  }

  lemma {:induction false} EachFormat(e: Endian, t: Elem, items: seq<Value>)
    requires forall i :: 0 <= i < |items| ==> FitsElem(t, items[i])
    ensures AllWritable(FlatEach(t, items))
    ensures ExecWriteEach(e, ElemSerializeCode(t), items) == WriteItems(e, FlatEach(t, items))
    decreases items, 0
  {
    if items != [] {
      ElemFormat(e, t, items[0]);
      EachFormat(e, t, items[1..]);
      ItemsInOrder(e, FlatElem(t, items[0]), FlatEach(t, items[1..]));
    }
  }

  /** A nested object comes back as a new one, whatever it held. */
  lemma NestedObjectIsLost(e: Endian, inner: Class, v: Value, rest: seq<byte>)
    requires FitsElem(Msg(inner), v)
    ensures var cls := [Single(Msg(inner))];
            RunUnserialize(e, cls, Fresh(cls), RunSerialize(e, cls, [v]) + rest) == ([MsgV(Fresh(inner))], rest)
  {
    var cls: Class := [Single(Msg(inner))];
    assert FitsAttr(cls[0], v);
    ClassTransfers(e, cls, Fresh(cls), [v], rest);
    FreshOfClass(inner);
    assert OverlayFields(cls, Fresh(cls), [v]) == [FreshAttr(cls[0])];
  }

  // ----- the classes of the demo -----

  /** A project item on the wire: its type, the length of its name low byte first, the name. */
  lemma ProjectItemBytes(kind: int, name: seq<byte>)
    requires -0x80 <= kind < 0x80 && |name| <= 65535
    ensures RunSerialize(LittleEndian, PROJECT_ITEM, [IntV(kind), StrV(name)]) ==
            [kind % 256, |name| % 256, |name| / 256] + name
  {
    TwoAttributes(Prim(Int8), Str, IntV(kind), StrV(name));
    OneWrite(LittleEndian, WritePrim(Int8), IntV(kind));
    OneWrite(LittleEndian, WriteString, StrV(name));
    Int8Bytes(kind);
    StringBytes(name);
    assert [kind % 256] + ([|name| % 256, |name| / 256] + name) == [kind % 256, |name| % 256, |name| / 256] + name;
  }

  lemma TwoAttributes(t: Elem, u: Elem, a: Value, b: Value)
    ensures RunSerialize(LittleEndian, [Single(t), Single(u)], [a, b]) ==
            ExecWrite(LittleEndian, SerializeCode(Single(t)), a) + ExecWrite(LittleEndian, SerializeCode(Single(u)), b)
  {
    assert [Single(t), Single(u)][1..] == [Single(u)] && [a, b][1..] == [b];
    OneAttribute(Single(u), b);
  }

  /** Two project items and no operate items: the length of each list, then its items. */
  lemma ListAckBytes(k: int, n: seq<byte>, l: int, m: seq<byte>)
    requires -0x80 <= k < 0x80 && -0x80 <= l < 0x80 && |n| <= 65535 && |m| <= 65535
    ensures RunSerialize(LittleEndian, [Array(Msg(PROJECT_ITEM))] + [Array(Msg(OPERATE_ITEM))],
                         [ArrV([MsgV([IntV(k), StrV(n)]), MsgV([IntV(l), StrV(m)])])] + [ArrV([])]) ==
            [2, 0] + (([k % 256, |n| % 256, |n| / 256] + n) + ([l % 256, |m| % 256, |m| / 256] + m)) + [0, 0]
  {
    var a, b := MsgV([IntV(k), StrV(n)]), MsgV([IntV(l), StrV(m)]);
    ItemBytes(k, n);
    ItemBytes(l, m);
    ListsBytes(PROJECT_ITEM, OPERATE_ITEM, a, b);
  }

  lemma ListsBytes(c: Class, d: Class, a: Value, b: Value)
    ensures RunSerialize(LittleEndian, [Array(Msg(c))] + [Array(Msg(d))], [ArrV([a, b])] + [ArrV([])]) ==
            [2, 0] + (ExecWrite(LittleEndian, ElemSerializeCode(Msg(c)), a)
                      + ExecWrite(LittleEndian, ElemSerializeCode(Msg(c)), b)) + [0, 0]
  {
    ListBytes(c, [a, b]);
    ListBytes(d, []);
    TwoItems(Msg(c), a, b);
    AttributesInOrder(LittleEndian, [Array(Msg(c))], [Array(Msg(d))], [ArrV([a, b])], [ArrV([])]);
  }

  lemma ItemBytes(kind: int, name: seq<byte>)
    requires -0x80 <= kind < 0x80 && |name| <= 65535
    ensures ExecWrite(LittleEndian, ElemSerializeCode(Msg(PROJECT_ITEM)), MsgV([IntV(kind), StrV(name)])) ==
            [kind % 256, |name| % 256, |name| / 256] + name
  {
    OneWrite(LittleEndian, CallSerialize(PROJECT_ITEM), MsgV([IntV(kind), StrV(name)]));
    ProjectItemBytes(kind, name);
  }

  lemma ListBytes(c: Class, items: seq<Value>)
    requires |items| < 256
    ensures RunSerialize(LittleEndian, [Array(Msg(c))], [ArrV(items)]) ==
            [|items|, 0] + ExecWriteEach(LittleEndian, ElemSerializeCode(Msg(c)), items)
  {
    OneAttribute(Array(Msg(c)), ArrV(items));
    ArrayWrites(LittleEndian, Msg(c), items);
    WireBytes(0, |items|, -1, []);
  }

  lemma OneAttribute(a: Attr, v: Value)
    ensures RunSerialize(LittleEndian, [a], [v]) == ExecWrite(LittleEndian, SerializeCode(a), v)
  {
    assert [a][1..] == [] && [v][1..] == [];
    var w := ExecWrite(LittleEndian, SerializeCode(a), v);
    assert RunSerialize(LittleEndian, [a], [v]) == w + [];
  }

  lemma TwoItems(t: Elem, a: Value, b: Value)
    ensures var code := ElemSerializeCode(t);
            ExecWriteEach(LittleEndian, code, [a, b]) ==
            ExecWrite(LittleEndian, code, a) + ExecWrite(LittleEndian, code, b)
  {
    assert [a, b][1..] == [b] && [b][1..] == [];
    var w := ExecWrite(LittleEndian, ElemSerializeCode(t), b);
    assert ExecWriteEach(LittleEndian, ElemSerializeCode(t), [b]) == w + [];
  }
}
