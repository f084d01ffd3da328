/** The schema compiler (tools/serialize_creator/cpp_creator.py). Two functions
    turn an attribute of a protocol class into the statements that the tool emits
    for `Serialize` and `Unserialize`; two interpreters run those statements on a
    byte queue. `Overlay` says, without mentioning code, what unserializing into an
    existing object leaves there. */
module Schema {
  import opened Bytes
  import opened ByteQueue

  /** The `type` of a plain attribute or the `subtype` of an array. Any name that is
      not built in is the name of another protocol class, here given by its attributes. */
  datatype Elem = Prim(kind: Kind) | Str | Msg(cls: seq<Attr>)
  datatype Attr = Single(elem: Elem) | Array(elem: Elem)
  type Class = seq<Attr>

  datatype Value = IntV(v: int) | StrV(s: seq<byte>) | MsgV(fields: seq<Value>) | ArrV(items: seq<Value>)

  predicate FitsElem(t: Elem, v: Value) {
    match t
    case Prim(k) => v.IntV? && InRange(k, v.v)
    case Str => v.StrV? && |v.s| <= USHRT_MAX
    case Msg(cls) => v.MsgV? && |v.fields| == |cls| && forall i :: 0 <= i < |cls| ==> FitsAttr(cls[i], v.fields[i])
  }

  predicate FitsAttr(a: Attr, v: Value) {
    match a
    case Single(e) => FitsElem(e, v)
    case Array(e) => v.ArrV? && |v.items| <= USHRT_MAX && forall i :: 0 <= i < |v.items| ==> FitsElem(e, v.items[i])
  }

  predicate Fits(cls: Class, fields: seq<Value>) {
    |fields| == |cls| && forall i :: 0 <= i < |cls| ==> FitsAttr(cls[i], fields[i])
  }

  /** A newly created object: zero, the empty string, the empty vector. */
  function FreshElem(t: Elem): (v: Value)
    ensures FitsElem(t, v)
  {
    match t
    case Prim(k) => Widths(); IntV(0)
    case Str => StrV([])
    case Msg(cls) => MsgV(seq(|cls|, i requires 0 <= i < |cls| => FreshAttr(cls[i])))
  }

  function FreshAttr(a: Attr): (v: Value)
    ensures FitsAttr(a, v)
  {
    match a
    case Single(e) => FreshElem(e)
    case Array(_) => ArrV([])
  }

  function Fresh(cls: Class): (fields: seq<Value>)
    ensures Fits(cls, fields)
  {
    seq(|cls|, i requires 0 <= i < |cls| => FreshAttr(cls[i]))
  }

  lemma FreshValues(k: Kind, t: Elem)
    ensures FreshElem(Prim(k)) == IntV(0) && FreshElem(Str) == StrV([]) && FreshAttr(Array(t)) == ArrV([])
  {
  }

  lemma FreshOfClass(c: Class)
    ensures FreshElem(Msg(c)) == MsgV(Fresh(c))
  {
    assert FreshElem(Msg(c)).fields == Fresh(c);
  }

  // ----- the generated code -----

  datatype WriteStmt =
    | WritePrim(kind: Kind)
    | WriteString
    | WriteEach(body: seq<WriteStmt>)
    | CallSerialize(cls: Class)

  /** `GetSerializeCode`: a plain attribute of class type gets no code at all. */
  function SerializeCode(a: Attr): (code: seq<WriteStmt>)
    ensures code == [] <==> a.Single? && a.elem.Msg?
    decreases a.elem, if a.Array? then 2 else 0
  {
    match a
    case Single(Prim(k)) => [WritePrim(k)]
    case Single(Str) => [WriteString]
    case Single(Msg(_)) => []
    case Array(e) => [WriteEach(ElemSerializeCode(e))]
  }

  /** An empty element code is replaced by a call of the element's own `Serialize`. */
  function ElemSerializeCode(e: Elem): (code: seq<WriteStmt>)
    decreases e, 1
  {
    var sub := SerializeCode(Single(e));
    if sub == [] then [CallSerialize(e.cls)] else sub
  }

  datatype ReadStmt =
    | ReadPrim(kind: Kind)
    | ReadString
    | ReadEach(tmp: Elem, body: seq<ReadStmt>)
    | CallUnserialize(cls: Class)

  function UnserializeCode(a: Attr): (code: seq<ReadStmt>)
    ensures code == [] <==> a.Single? && a.elem.Msg?
    ensures CodeWeight(code) <= AttrWeight(a)
    decreases a.elem, if a.Array? then 2 else 0
  {
    match a
    case Single(Prim(k)) => [ReadPrim(k)]
    case Single(Str) => [ReadString]
    case Single(Msg(_)) => []
    case Array(e) => [ReadEach(e, ElemUnserializeCode(e))]
  }

  function ElemUnserializeCode(e: Elem): (code: seq<ReadStmt>)
    ensures CodeWeight(code) <= ElemWeight(e)
    decreases e, 1
  {
    var sub := UnserializeCode(Single(e));
    if sub == [] then [CallUnserialize(e.cls)] else sub
  }

  // Weights only serve the termination of the second interpreter.

  function ClassWeight(cls: Class): nat {
    if cls == [] then 0 else AttrWeight(cls[0]) + ClassWeight(cls[1..]) + 1
  }

  function ElemWeight(e: Elem): nat {
    match e
    case Prim(_) => 2
    case Str => 2
    case Msg(c) => ClassWeight(c) + 2
  }

  function AttrWeight(a: Attr): nat {
    match a
    case Single(e) => ElemWeight(e)
    case Array(e) => ElemWeight(e) + 2
  }

  function StmtWeight(s: ReadStmt): nat {
    match s
    case ReadPrim(_) => 1
    case ReadString => 1
    case ReadEach(_, body) => CodeWeight(body) + 1
    case CallUnserialize(c) => ClassWeight(c) + 1
  }

  function CodeWeight(code: seq<ReadStmt>): nat {
    if code == [] then 0 else StmtWeight(code[0]) + CodeWeight(code[1..]) + 1
  }

  // ----- running it -----

  function RunSerialize(e: Endian, cls: Class, fields: seq<Value>): seq<byte>
    decreases fields, 0, 0
  {
    if cls == [] || fields == [] then []
    else ExecWrite(e, SerializeCode(cls[0]), fields[0]) + RunSerialize(e, cls[1..], fields[1..])
  }

  function ExecWrite(e: Endian, code: seq<WriteStmt>, v: Value): seq<byte>
    decreases v, |code|, 1
  {
    if code == [] then [] else ExecWriteStmt(e, code[0], v) + ExecWrite(e, code[1..], v)
  }

  /** The size of an array is cast to 16 bits before it is written. */
  function ExecWriteStmt(e: Endian, stmt: WriteStmt, v: Value): seq<byte>
    decreases v, 0, 0
  {
    match stmt
    case WritePrim(k) => if v.IntV? && InRange(k, v.v) then WriteInt(e, k, v.v) else []
    case WriteString => if v.StrV? then WriteStr(e, v.s) else []
    case WriteEach(body) =>
      if v.ArrV? then WriteInt(e, Uint16, SizeField(v.items)) + ExecWriteEach(e, body, v.items) else []
    case CallSerialize(c) => if v.MsgV? then RunSerialize(e, c, v.fields) else []
  }

  function SizeField(items: seq<Value>): (n: nat)
    ensures InRange(Uint16, n)
    ensures n == |items| % 0x1_0000 && (|items| <= USHRT_MAX ==> n == |items|)
  {
    Widths();
    |items| % 0x1_0000
  }

  function ExecWriteEach(e: Endian, body: seq<WriteStmt>, items: seq<Value>): seq<byte>
    decreases items, 0, 0
  {
    if items == [] then [] else ExecWrite(e, body, items[0]) + ExecWriteEach(e, body, items[1..])
  }

  function FieldsOf(cls: Class, v: Value): (fields: seq<Value>)
    ensures |fields| == |cls|
  {
    if v.MsgV? && |v.fields| == |cls| then v.fields else Fresh(cls)
  }

  function ItemsOf(v: Value): seq<Value> {
    if v.ArrV? then v.items else []
  }

  function RunUnserialize(e: Endian, cls: Class, cur: seq<Value>, q: seq<byte>): (r: (seq<Value>, seq<byte>))
    requires |cur| == |cls|
    ensures |r.0| == |cls|
    decreases ClassWeight(cls), 0, 0
  {
    if cls == [] then ([], q)
    else
      var (v, q1) := ExecRead(e, UnserializeCode(cls[0]), cur[0], q);
      var (vs, q2) := RunUnserialize(e, cls[1..], cur[1..], q1);
      ([v] + vs, q2)
  }

  function ExecRead(e: Endian, code: seq<ReadStmt>, cur: Value, q: seq<byte>): (Value, seq<byte>)
    decreases CodeWeight(code), 0, 0
  {
    if code == [] then (cur, q)
    else
      var (v, q1) := ExecReadStmt(e, code[0], cur, q);
      ExecRead(e, code[1..], v, q1)
  }

  function ExecReadStmt(e: Endian, stmt: ReadStmt, cur: Value, q: seq<byte>): (Value, seq<byte>)
    decreases StmtWeight(stmt), 0, 0
  {
    match stmt
    case ReadPrim(k) => var (v, q1) := ReadInt(e, k, q); (IntV(v), q1)
    case ReadString => var (s, q1) := ReadStr(e, q); (StrV(s), q1)
    case ReadEach(t, body) =>
      var (n, q1) := ReadInt(e, Uint16, q);
      var (items, q2) := ExecReadEach(e, body, n, FreshElem(t), q1);
      (ArrV(ItemsOf(cur) + items), q2)
    case CallUnserialize(c) =>
      var (fields, q1) := RunUnserialize(e, c, FieldsOf(c, cur), q);
      (MsgV(fields), q1)
  }

  /** One `tmp_attr_value` serves all rounds of the loop. */
  function ExecReadEach(e: Endian, body: seq<ReadStmt>, n: int, tmp: Value, q: seq<byte>): (seq<Value>, seq<byte>)
    decreases CodeWeight(body), 1, n
  {
    if n <= 0 then ([], q)
    else
      var (v, q1) := ExecRead(e, body, tmp, q);
      var (vs, q2) := ExecReadEach(e, body, n - 1, v, q1);
      ([v] + vs, q2)
  }

  // ----- what unserializing means -----

  function OverlayElem(t: Elem, cur: Value, v: Value): Value
    decreases t, 1, 0
  {
    match t
    case Prim(_) => v
    case Str => v
    case Msg(c) => if v.MsgV? && |v.fields| == |c| then MsgV(OverlayFields(c, FieldsOf(c, cur), v.fields)) else v
  }

  function OverlayFields(cls: Class, cur: seq<Value>, fields: seq<Value>): (r: seq<Value>)
    requires |cur| == |cls| == |fields|
    ensures |r| == |cls|
    decreases cls, 0, 0
  {
    seq(|cls|, i requires 0 <= i < |cls| => OverlayAttr(cls[i], cur[i], fields[i]))
  }

  /** Scalars and strings are replaced, nested objects stay as they were, and
      vectors grow by the elements received. */
  function OverlayAttr(a: Attr, cur: Value, v: Value): Value
    decreases a, 1, 0
  {
    match a
    case Single(Msg(_)) => cur
    case Single(_) => v
    case Array(e) => if v.ArrV? then ArrV(ItemsOf(cur) + Accumulate(e, FreshElem(e), v.items)) else v
  }

  /** Each element is laid over the one before it. */
  function Accumulate(e: Elem, tmp: Value, items: seq<Value>): (r: seq<Value>)
    ensures |r| == |items|
    decreases e, 2, |items|
  {
    if items == [] then []
    else
      var v := OverlayElem(e, tmp, items[0]);
      [v] + Accumulate(e, v, items[1..])
  }

  lemma {:induction false} OverlayTail(cls: Class, cur: seq<Value>, fields: seq<Value>)
    requires |cur| == |cls| == |fields| && cls != []
    ensures OverlayFields(cls, cur, fields) ==
            [OverlayAttr(cls[0], cur[0], fields[0])] + OverlayFields(cls[1..], cur[1..], fields[1..])
  {
    var tail := OverlayFields(cls[1..], cur[1..], fields[1..]);
    forall i | 0 < i < |cls| ensures OverlayFields(cls, cur, fields)[i] == tail[i - 1] {
      assert cls[1..][i - 1] == cls[i] && cur[1..][i - 1] == cur[i] && fields[1..][i - 1] == fields[i];
    }
  }

  /** For every class, every value of it, every object already there and every byte
      that follows: the generated pair leaves exactly the overlay and the rest. */
  lemma {:induction false} ClassTransfers(e: Endian, cls: Class, cur: seq<Value>, fields: seq<Value>, rest: seq<byte>)
    requires Fits(cls, fields) && |cur| == |cls|
    ensures RunUnserialize(e, cls, cur, RunSerialize(e, cls, fields) + rest) == (OverlayFields(cls, cur, fields), rest)
    decreases ClassWeight(cls), 0, 0
  {
    if cls == [] {
      assert RunSerialize(e, cls, fields) + rest == rest;
    } else {
      var tail := RunSerialize(e, cls[1..], fields[1..]) + rest;
      assert RunSerialize(e, cls, fields) + rest == ExecWrite(e, SerializeCode(cls[0]), fields[0]) + tail;
      AttrTransfers(e, cls[0], cur[0], fields[0], tail);
      ClassTransfers(e, cls[1..], cur[1..], fields[1..], rest);
      OverlayTail(cls, cur, fields);
    }
  }

  lemma {:induction false} AttrTransfers(e: Endian, a: Attr, cur: Value, v: Value, rest: seq<byte>)
    requires FitsAttr(a, v)
    ensures ExecRead(e, UnserializeCode(a), cur, ExecWrite(e, SerializeCode(a), v) + rest)
            == (OverlayAttr(a, cur, v), rest)
    decreases AttrWeight(a), 2, 0
  {
    match a {
      case Single(Prim(k)) => ElemTransfers(e, a.elem, cur, v, rest);
      case Single(Str) => ElemTransfers(e, a.elem, cur, v, rest);
      case Single(Msg(_)) => assert ExecWrite(e, SerializeCode(a), v) + rest == rest;
      case Array(t) => ArrayTransfers(e, t, cur, v, rest);
    }
  }

  lemma {:induction false} ArrayTransfers(e: Endian, t: Elem, cur: Value, v: Value, rest: seq<byte>)
    requires FitsAttr(Array(t), v)
    ensures ExecRead(e, UnserializeCode(Array(t)), cur, ExecWrite(e, SerializeCode(Array(t)), v) + rest)
            == (OverlayAttr(Array(t), cur, v), rest)
    decreases ElemWeight(t), 2, 0
  {
    var h := WriteInt(e, Uint16, SizeField(v.items));
    var body := ExecWriteEach(e, ElemSerializeCode(t), v.items);
    ArrayWrites(e, t, v.items);
    Assoc(h, body, rest);
    IntRoundTrip(e, Uint16, |v.items|, body + rest);
    LoopTransfers(e, t, FreshElem(t), v.items, rest);
    ArrayReads(e, t, cur, h + (body + rest));
  }

  /** An array is its size and its elements. */
  lemma ArrayWrites(e: Endian, t: Elem, items: seq<Value>)
    ensures ExecWrite(e, SerializeCode(Array(t)), ArrV(items)) ==
            WriteInt(e, Uint16, SizeField(items)) + ExecWriteEach(e, ElemSerializeCode(t), items)
  {
    OneWrite(e, WriteEach(ElemSerializeCode(t)), ArrV(items));
  }

  lemma ArrayReads(e: Endian, t: Elem, cur: Value, q: seq<byte>)
    ensures ExecRead(e, UnserializeCode(Array(t)), cur, q) ==
            var (n, q1) := ReadInt(e, Uint16, q);
            var (items, q2) := ExecReadEach(e, ElemUnserializeCode(t), n, FreshElem(t), q1);
            (ArrV(ItemsOf(cur) + items), q2)
  {
    OneRead(e, ReadEach(t, ElemUnserializeCode(t)), cur, q);
  }

  lemma OneWrite(e: Endian, s: WriteStmt, v: Value)
    ensures ExecWrite(e, [s], v) == ExecWriteStmt(e, s, v)
  {
    assert ExecWrite(e, [s][1..], v) == [];
  }

  lemma OneRead(e: Endian, s: ReadStmt, cur: Value, q: seq<byte>)
    ensures ExecRead(e, [s], cur, q) == ExecReadStmt(e, s, cur, q)
  {
    var r := ExecReadStmt(e, s, cur, q);
    assert ExecRead(e, [s][1..], r.0, r.1) == r;
  }

  lemma {:induction false} ElemTransfers(e: Endian, t: Elem, cur: Value, v: Value, rest: seq<byte>)
    requires FitsElem(t, v)
    ensures ExecRead(e, ElemUnserializeCode(t), cur, ExecWrite(e, ElemSerializeCode(t), v) + rest)
            == (OverlayElem(t, cur, v), rest)
    decreases ElemWeight(t), 0, 0
  {
    var q := ExecWrite(e, ElemSerializeCode(t), v) + rest;
    match t {
      case Prim(k) =>
        OneWrite(e, WritePrim(k), v);
        OneRead(e, ReadPrim(k), cur, q);
        IntRoundTrip(e, k, v.v, rest);
      case Str =>
        OneWrite(e, WriteString, v);
        OneRead(e, ReadString, cur, q);
        StrRoundTrip(e, v.s, rest);
      case Msg(c) =>
        OneWrite(e, CallSerialize(c), v);
        OneRead(e, CallUnserialize(c), cur, q);
        ClassTransfers(e, c, FieldsOf(c, cur), v.fields, rest);
    }
  }

  lemma {:induction false} LoopTransfers(e: Endian, t: Elem, tmp: Value, items: seq<Value>, rest: seq<byte>)
    requires forall i :: 0 <= i < |items| ==> FitsElem(t, items[i])
    ensures ExecReadEach(e, ElemUnserializeCode(t), |items|, tmp, ExecWriteEach(e, ElemSerializeCode(t), items) + rest)
            == (Accumulate(t, tmp, items), rest)
    decreases ElemWeight(t), 1, |items|
  {
    var w := ElemSerializeCode(t);
    if items == [] {
      assert ExecWriteEach(e, w, items) + rest == rest;
    } else {
      var tail := ExecWriteEach(e, w, items[1..]) + rest;
      assert ExecWriteEach(e, w, items) + rest == ExecWrite(e, w, items[0]) + tail;
      ElemTransfers(e, t, tmp, items[0], tail);
      LoopTransfers(e, t, OverlayElem(t, tmp, items[0]), items[1..], rest);
    }
  }

  // ----- exactly which classes round trip -----

  /** A class with a single value: nothing in it but nested classes of that sort. */
  predicate Trivial(cls: Class) {
    forall i :: 0 <= i < |cls| ==> TrivialAttr(cls[i])
  }

  predicate TrivialAttr(a: Attr) {
    match a
    case Single(e) => TrivialElem(e)
    case Array(_) => false
  }

  predicate TrivialElem(e: Elem) {
    match e
    case Msg(c) => Trivial(c)
    case _ => false
  }

  lemma {:induction false} MemberWeight(cls: Class, i: nat)
    requires i < |cls|
    ensures AttrWeight(cls[i]) < ClassWeight(cls)
  {
    if i > 0 { MemberWeight(cls[1..], i - 1); }
  }

  predicate Plain(a: Attr) {
    a.Single? && (a.elem.Msg? ==> Trivial(a.elem.cls))
  }

  /** No nested class that carries information, and no vector inside the class of
      the elements of a vector. */
  predicate Supported(cls: Class) {
    forall i :: 0 <= i < |cls| ==> SupportedAttr(cls[i])
  }

  predicate SupportedAttr(a: Attr) {
    match a
    case Single(_) => Plain(a)
    case Array(e) => e.Msg? ==> forall j :: 0 <= j < |e.cls| ==> Plain(e.cls[j])
  }

  /** The generated pair returns every value of the class, whatever bytes follow it. */
  ghost predicate RoundTrips(cls: Class) {
    forall e, fields, rest | Fits(cls, fields) ::
      RunUnserialize(e, cls, Fresh(cls), RunSerialize(e, cls, fields) + rest) == (fields, rest)
  }

  lemma {:induction false} TrivialValue(cls: Class, a: seq<Value>, b: seq<Value>)
    requires Trivial(cls) && Fits(cls, a) && Fits(cls, b)
    ensures a == b
    decreases ClassWeight(cls)
  {
    forall i | 0 <= i < |cls| ensures a[i] == b[i] {
      assert TrivialAttr(cls[i]) && TrivialElem(cls[i].elem);
      assert FitsAttr(cls[i], a[i]) && FitsAttr(cls[i], b[i]);
      assert FitsElem(cls[i].elem, a[i]) && FitsElem(cls[i].elem, b[i]);
      MemberWeight(cls, i);
      TrivialValue(cls[i].elem.cls, a[i].fields, b[i].fields);
    }
  }

  lemma PlainOverlay(a: Attr, cur: Value, v: Value)
    requires Plain(a) && FitsAttr(a, cur) && FitsAttr(a, v)
    ensures OverlayAttr(a, cur, v) == v
  {
    if a.elem.Msg? {
      TrivialValue(a.elem.cls, cur.fields, v.fields);
    }
  }

  lemma PlainElemOverlay(c: Class, cur: Value, v: Value)
    requires forall j :: 0 <= j < |c| ==> Plain(c[j])
    requires FitsElem(Msg(c), cur) && FitsElem(Msg(c), v)
    ensures OverlayElem(Msg(c), cur, v) == v
  {
    forall j | 0 <= j < |c| ensures OverlayAttr(c[j], cur.fields[j], v.fields[j]) == v.fields[j] {
      PlainOverlay(c[j], cur.fields[j], v.fields[j]);
    }
    assert OverlayFields(c, cur.fields, v.fields) == v.fields;
  }

  lemma {:induction false} PlainAccumulate(e: Elem, tmp: Value, items: seq<Value>)
    requires SupportedAttr(Array(e)) && FitsElem(e, tmp)
    requires forall i :: 0 <= i < |items| ==> FitsElem(e, items[i])
    ensures Accumulate(e, tmp, items) == items
    decreases |items|
  {
    if items != [] {
      if e.Msg? { PlainElemOverlay(e.cls, tmp, items[0]); }
      PlainAccumulate(e, items[0], items[1..]);
      assert items == [items[0]] + items[1..];
    }
  }

  lemma SupportedOverlay(cls: Class, fields: seq<Value>)
    requires Supported(cls) && Fits(cls, fields)
    ensures OverlayFields(cls, Fresh(cls), fields) == fields
  {
    forall i | 0 <= i < |cls| ensures OverlayAttr(cls[i], FreshAttr(cls[i]), fields[i]) == fields[i] {
      match cls[i] {
        case Single(_) => PlainOverlay(cls[i], FreshAttr(cls[i]), fields[i]);
        case Array(e) => PlainAccumulate(e, FreshElem(e), fields[i].items);
      }
    }
  }

  /** A class that is not trivial has a value other than the fresh one. */
  lemma {:induction false} OtherValue(cls: Class) returns (w: seq<Value>)
    requires !Trivial(cls)
    ensures Fits(cls, w) && w != Fresh(cls)
    decreases ClassWeight(cls)
  {
    var i :| 0 <= i < |cls| && !TrivialAttr(cls[i]);
    MemberWeight(cls, i);
    var v := FreshAttr(cls[i]);
    Widths();
    match cls[i] {
      case Single(Prim(_)) => v := IntV(1);
      case Single(Str) => v := StrV([0]);
      case Single(Msg(c)) =>
        assert !TrivialElem(Msg(c));
        var u := OtherValue(c);
        v := MsgV(u);
        assert FreshAttr(cls[i]) == MsgV(Fresh(c));
      case Array(e) => v := ArrV([FreshElem(e)]);
    }
    w := Fresh(cls)[i := v];
    assert w[i] != Fresh(cls)[i];
  }

  /** An attribute outside the class of `Plain` can be made to lose or grow. */
  lemma UnsupportedAttrFails(a: Attr) returns (v: Value)
    requires !SupportedAttr(a)
    ensures FitsAttr(a, v) && OverlayAttr(a, FreshAttr(a), v) != v
  {
    match a {
      case Single(Msg(c)) =>
        var u := OtherValue(c);
        v := MsgV(u);
        assert FreshAttr(a) == MsgV(Fresh(c));
      case Array(Msg(c)) =>
        v := UnsupportedElementFails(c);
    }
  }

  lemma UnsupportedElementFails(c: Class) returns (v: Value)
    requires !SupportedAttr(Array(Msg(c)))
    ensures FitsAttr(Array(Msg(c)), v)
    ensures OverlayAttr(Array(Msg(c)), ArrV([]), v) != v
  {
    var t := Msg(c);
    var f := Fresh(c);
    assert FreshElem(t) == MsgV(f);
    var j :| 0 <= j < |c| && !Plain(c[j]);
    if c[j].Single? {
      var u := OtherValue(c[j].elem.cls);
      var x := MsgV(f[j := MsgV(u)]);
      v := ArrV([x]);
      assert FitsAttr(c[j], x.fields[j]);
      assert FitsElem(t, x);
      var r := OverlayElem(t, MsgV(f), x);
      assert r.fields == OverlayFields(c, f, x.fields);
      assert r.fields[j] == OverlayAttr(c[j], f[j], x.fields[j]) == f[j] == FreshAttr(c[j]);
      FreshOfClass(c[j].elem.cls);
      assert Accumulate(t, MsgV(f), [x])[0] == r != x;
    } else {
      var one := ArrV([FreshElem(c[j].elem)]);
      var x := MsgV(f[j := one]);
      v := ArrV([x, x]);
      assert FitsAttr(c[j], one);
      assert FitsElem(t, x);
      var r := OverlayElem(t, MsgV(f), x);
      var r' := OverlayElem(t, r, x);
      assert r.fields == OverlayFields(c, f, x.fields);
      assert r.fields[j] == OverlayAttr(c[j], f[j], one);
      assert |r.fields[j].items| == 1;
      assert r'.fields == OverlayFields(c, r.fields, x.fields);
      assert r'.fields[j] == OverlayAttr(c[j], r.fields[j], one);
      assert |r'.fields[j].items| == 2;
      var acc := Accumulate(t, MsgV(f), [x, x]);
      assert acc == [r] + Accumulate(t, r, [x, x][1..]);
      assert [x, x][1..] == [x];
      assert acc[1] == r' != x;
    }
  }

  /** The generated code round trips every value of a class if and only if the class
      has no informative nested attribute and no vector inside a vector's elements. */
  lemma RoundTripsIffSupported(cls: Class)
    ensures RoundTrips(cls) <==> Supported(cls)
  {
    if Supported(cls) {
      forall e, fields, rest | Fits(cls, fields)
        ensures RunUnserialize(e, cls, Fresh(cls), RunSerialize(e, cls, fields) + rest) == (fields, rest)
      {
        ClassTransfers(e, cls, Fresh(cls), fields, rest);
        SupportedOverlay(cls, fields);
      }
    } else {
      var i :| 0 <= i < |cls| && !SupportedAttr(cls[i]);
      var v := UnsupportedAttrFails(cls[i]);
      var f := Fresh(cls)[i := v];
      ClassTransfers(LittleEndian, cls, Fresh(cls), f, []);
      assert OverlayFields(cls, Fresh(cls), f)[i] == OverlayAttr(cls[i], FreshAttr(cls[i]), v) != f[i];
    }
  }

  // ----- exactly which values round trip -----

  /** Whatever the bytes, a plain attribute reads as a value of its type. */
  lemma PlainReads(e: Endian, a: Attr, cur: Value, q: seq<byte>)
    requires Plain(a) && FitsAttr(a, cur)
    ensures FitsAttr(a, ExecRead(e, UnserializeCode(a), cur, q).0)
  {
    match a.elem {
      case Prim(k) => OneRead(e, ReadPrim(k), cur, q);
      case Str => OneRead(e, ReadString, cur, q);
      case Msg(_) =>
    }
  }

  lemma {:induction false} PlainClassReads(e: Endian, c: Class, cur: seq<Value>, q: seq<byte>)
    requires (forall j :: 0 <= j < |c| ==> Plain(c[j])) && Fits(c, cur)
    ensures Fits(c, RunUnserialize(e, c, cur, q).0)
    decreases |c|
  {
    if c != [] {
      var (v, q1) := ExecRead(e, UnserializeCode(c[0]), cur[0], q);
      PlainReads(e, c[0], cur[0], q);
      PlainClassReads(e, c[1..], cur[1..], q1);
      ConsFits(c, v, RunUnserialize(e, c[1..], cur[1..], q1).0);
    }
  }

  lemma ConsFits(c: Class, v: Value, vs: seq<Value>)
    requires c != [] && FitsAttr(c[0], v) && Fits(c[1..], vs)
    ensures Fits(c, [v] + vs)
  {
    forall i | 0 <= i < |c| ensures FitsAttr(c[i], ([v] + vs)[i]) {
      if i > 0 { assert FitsAttr(c[1..][i - 1], vs[i - 1]); }
    }
  }

  lemma ElemReads(e: Endian, t: Elem, tmp: Value, q: seq<byte>)
    requires SupportedAttr(Array(t)) && FitsElem(t, tmp)
    ensures FitsElem(t, ExecRead(e, ElemUnserializeCode(t), tmp, q).0)
  {
    match t {
      case Prim(k) => OneRead(e, ReadPrim(k), tmp, q);
      case Str => OneRead(e, ReadString, tmp, q);
      case Msg(c) =>
        OneRead(e, CallUnserialize(c), tmp, q);
        PlainClassReads(e, c, tmp.fields, q);
    }
  }

  predicate FitElems(t: Elem, items: seq<Value>) {
    forall i :: 0 <= i < |items| ==> FitsElem(t, items[i])
  }

  lemma {:induction false} ConsElems(t: Elem, v: Value, vs: seq<Value>)
    requires FitsElem(t, v) && FitElems(t, vs)
    ensures FitElems(t, [v] + vs)
  {
  }

  lemma {:induction false} LoopReads(e: Endian, t: Elem, n: nat, tmp: Value, q: seq<byte>)
    requires SupportedAttr(Array(t)) && FitsElem(t, tmp)
    ensures FitElems(t, ExecReadEach(e, ElemUnserializeCode(t), n, tmp, q).0)
    decreases n
  {
    if n > 0 {
      var (v, q1) := ExecRead(e, ElemUnserializeCode(t), tmp, q);
      ElemReads(e, t, tmp, q);
      LoopReads(e, t, n - 1, v, q1);
      ConsElems(t, v, ExecReadEach(e, ElemUnserializeCode(t), n - 1, v, q1).0);
      OneRound(e, ElemUnserializeCode(t), n, tmp, q);
    }
  }

  lemma OneRound(e: Endian, body: seq<ReadStmt>, n: nat, tmp: Value, q: seq<byte>)
    requires n > 0
    ensures var (v, q1) := ExecRead(e, body, tmp, q);
            ExecReadEach(e, body, n, tmp, q).0 == [v] + ExecReadEach(e, body, n - 1, v, q1).0
  {
  }

  lemma AttrReads(e: Endian, a: Attr, q: seq<byte>)
    requires SupportedAttr(a)
    ensures FitsAttr(a, ExecRead(e, UnserializeCode(a), FreshAttr(a), q).0)
  {
    match a {
      case Single(_) => PlainReads(e, a, FreshAttr(a), q);
      case Array(t) =>
        ArrayReads(e, t, FreshAttr(a), q);
        var (n, q1) := ReadInt(e, Uint16, q);
        LoopReads(e, t, n, FreshElem(t), q1);
        EachReadCount(e, ElemUnserializeCode(t), n, FreshElem(t), q1);
    }
  }

  /** Any bytes at all, read into a new object of a supported class, leave a value of it. */
  lemma {:induction false} ReadsFit(e: Endian, cls: Class, q: seq<byte>)
    requires Supported(cls)
    ensures Fits(cls, RunUnserialize(e, cls, Fresh(cls), q).0)
    decreases |cls|
  {
    if cls != [] {
      var (v, q1) := ExecRead(e, UnserializeCode(cls[0]), Fresh(cls)[0], q);
      AttrReads(e, cls[0], q);
      assert Fresh(cls)[1..] == Fresh(cls[1..]);
      ReadsFit(e, cls[1..], q1);
      ConsFits(cls, v, RunUnserialize(e, cls[1..], Fresh(cls[1..]), q1).0);
    }
  }

  /** Of a supported class, exactly these values come back: integers in range, strings and
      vectors of at most 65535 bytes and elements. */
  lemma ValueRoundTripsIffFits(e: Endian, cls: Class, fields: seq<Value>, rest: seq<byte>)
    requires Supported(cls)
    ensures RunUnserialize(e, cls, Fresh(cls), RunSerialize(e, cls, fields) + rest) == (fields, rest) <==>
            Fits(cls, fields)
  {
    if Fits(cls, fields) {
      RoundTripsIffSupported(cls);
    } else {
      ReadsFit(e, cls, RunSerialize(e, cls, fields) + rest);
    }
  }

  // ----- the classes of the demo -----

  const PROJECT_ITEM: Class := [Single(Prim(Int8)), Single(Str)]
  const OPERATE_ITEM: Class := [Single(Prim(Int8)), Single(Str), Single(Str)]
  const LIST_ACK: Class := [Array(Msg(PROJECT_ITEM)), Array(Msg(OPERATE_ITEM))]
  const OUTPUT: Class := [Array(Str)]

  /** A vector of messages twice, and a vector of strings. */
  lemma DemoClassesRoundTrip()
    ensures RoundTrips(LIST_ACK) && RoundTrips(OUTPUT)
  {
    DemoClassesSupported();
    RoundTripsIffSupported(LIST_ACK);
    RoundTripsIffSupported(OUTPUT);
  }

  lemma DemoClassesSupported()
    ensures Supported(LIST_ACK) && Supported(OUTPUT)
  {
    assert SupportedAttr(LIST_ACK[0]) && SupportedAttr(LIST_ACK[1]);
  }

  // ----- lengths beyond 16 bits -----

  lemma {:induction false} EachReadCount(e: Endian, body: seq<ReadStmt>, n: nat, tmp: Value, q: seq<byte>)
    ensures |ExecReadEach(e, body, n, tmp, q).0| == n
    decreases n
  {
    if n > 0 {
      var (v, q1) := ExecRead(e, body, tmp, q);
      EachReadCount(e, body, n - 1, v, q1);
    }
  }

  /** Whatever its elements, a vector of more than 65535 of them comes back with a number
      of elements that is its own modulo 65536. */
  lemma OversizedVectorIsCut(e: Endian, t: Elem, items: seq<Value>, rest: seq<byte>)
    ensures var code := ExecWrite(e, SerializeCode(Array(t)), ArrV(items));
            var r := ExecRead(e, UnserializeCode(Array(t)), ArrV([]), code + rest).0;
            r.ArrV? && |r.items| == |items| % 0x1_0000
  {
    var h := WriteInt(e, Uint16, SizeField(items));
    var body := ExecWriteEach(e, ElemSerializeCode(t), items);
    ArrayWrites(e, t, items);
    Assoc(h, body, rest);
    IntRoundTrip(e, Uint16, SizeField(items), body + rest);
    ArrayReads(e, t, ArrV([]), h + (body + rest));
    EachReadCount(e, ElemUnserializeCode(t), SizeField(items), FreshElem(t), body + rest);
  }

  /** A string of more than 65535 bytes is not written, so the read takes what follows. */
  lemma OversizedStringIsSkipped(e: Endian, s: seq<byte>, rest: seq<byte>)
    requires |s| > USHRT_MAX
    ensures ExecRead(e, UnserializeCode(Single(Str)), StrV([]),
                     ExecWrite(e, SerializeCode(Single(Str)), StrV(s)) + rest)
            == (StrV(ReadStr(e, rest).0), ReadStr(e, rest).1)
  {
    OneWrite(e, WriteString, StrV(s));
    OneRead(e, ReadString, StrV([]), rest);
    assert [] + rest == rest;
  }
}
