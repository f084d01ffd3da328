/** Objects over the wire (elegance/memory/serialize/serialize_manager.cpp): the type-name
    envelope, and the end-to-end theorem through schema code, envelope, frames and chunks. */
module Serialize {
  import opened Bytes
  import opened ByteQueue
  import opened Schema
  import opened Framing

  const SERIALIZE_CLASS_NAME_MAX_LEN := 256

  type Name = seq<byte>
  /** `SerializeDescribe::GetNameToObjectMap`. */
  type Registry = map<Name, Class>
  datatype Obj = Obj(name: Name, fields: seq<Value>)

  /** The bytes `SendSerialize` hands to `Send`. */
  function Envelope(reg: Registry, o: Obj): seq<byte>
    requires o.name in reg
  {
    WriteStr(LittleEndian, o.name) + RunSerialize(LittleEndian, reg[o.name], o.fields)
  }

  /** A C string ends at its first NUL. */
  function CString(s: seq<byte>): (r: seq<byte>)
    ensures |r| <= |s| && 0 !in r
    ensures r == s <==> 0 !in s
  {
    if s == [] || s[0] == 0 then [] else [s[0]] + CString(s[1..])
  }

  /** What `OnRecvPackage` passes to the handlers, if anything. The name length is read
      as a signed 16-bit number, and a name that runs past the package is dropped, as is
      every package too short to have a name length. */
  function ReadEnvelope(reg: Registry, data: seq<byte>): (r: Option<Obj>) {
    var n := ReadInt(LittleEndian, Int16, data).0;
    if n <= 0 || n >= SERIALIZE_CLASS_NAME_MAX_LEN || 2 + n > |data| then None
    else
      var name := CString(data[2..2 + n]);
      if name !in reg then None
      else Some(Obj(name, RunUnserialize(LittleEndian, reg[name], Fresh(reg[name]), data[2 + n..]).0))
  }

  /** What `OnRecvPackage` reads of a package before it looks at its length: the two bytes
      of the name length and, when that is 1 to 255, the name. */
  predicate ReadsInside(data: seq<byte>) {
    var n := ReadInt(LittleEndian, Int16, data).0;
    |data| >= 2 && (0 < n < SERIALIZE_CLASS_NAME_MAX_LEN ==> 2 + n <= |data|)
  }

  /** A package read past its end yields nothing, and [1, 0] is one. */
  lemma ReadPastEndYieldsNothing(reg: Registry, data: seq<byte>)
    ensures !ReadsInside(data) ==> ReadEnvelope(reg, data) == None
    ensures !ReadsInside([1, 0])
  {
    if |data| < 2 {
      TooShortForAName(reg, data);
    }
    NameLengthField([7], []);
    var h := WriteStr(LittleEndian, [7]) + [];
    assert LittleDigits(1, 2) == [1] + LittleDigits(0, 1) == [1, 0];
    assert h == [1, 0, 7];
    assert Padded(h, 2) == Padded([1, 0], 2);
  }

  lemma TooShortForAName(reg: Registry, data: seq<byte>)
    requires |data| < 2
    ensures ReadEnvelope(reg, data) == None
  {
  }

  predicate GoodName(name: Name) {
    1 <= |name| < SERIALIZE_CLASS_NAME_MAX_LEN && 0 !in name
  }

  /** Objects of registered classes that the generated code can carry. */
  predicate Carried(reg: Registry, o: Obj) {
    o.name in reg && Supported(reg[o.name]) && Fits(reg[o.name], o.fields)
  }

  /** The name length on the wire, as the receiver reads it. */
  lemma NameLengthField(name: Name, rest: seq<byte>)
    requires |name| <= USHRT_MAX
    ensures var data := WriteStr(LittleEndian, name) + rest;
            && |data| >= 2
            && ReadInt(LittleEndian, Int16, data).0 == (if |name| <= SHRT_MAX then |name| else |name| - 0x1_0000)
            && data[2..] == name + rest
  {
    Widths();
    var h := WriteInt(LittleEndian, Uint16, |name|);
    var data := WriteStr(LittleEndian, name) + rest;
    assert data == h + (name + rest);
    PaddedPrefix(h, name + rest);
    DecodeOfEncode(LittleEndian, |name|, 2);
  }

  lemma NameField(name: Name, rest: seq<byte>)
    requires 1 <= |name| < SERIALIZE_CLASS_NAME_MAX_LEN
    ensures var data := WriteStr(LittleEndian, name) + rest;
            2 + |name| <= |data| && data[2..2 + |name|] == name && data[2 + |name|..] == rest
  {
    NameLengthField(name, rest);
    var data := WriteStr(LittleEndian, name) + rest;
    assert data[2..2 + |name|] == data[2..][..|name|];
    assert data[2 + |name|..] == data[2..][|name|..];
  }

  /** An object of a supported class comes back as it was sent if and only if its type
      name has 1 to 255 bytes and no NUL among them, and all its lengths fit 16 bits. */
  lemma EnvelopeRoundTripsIff(reg: Registry, o: Obj)
    requires o.name in reg && Supported(reg[o.name])
    ensures ReadEnvelope(reg, Envelope(reg, o)) == Some(o) <==>
            1 <= |o.name| <= 255 && 0 !in o.name && Fits(reg[o.name], o.fields)
  {
    var cls := reg[o.name];
    var body := RunSerialize(LittleEndian, cls, o.fields);
    if GoodName(o.name) {
      NameLengthField(o.name, body);
      NameField(o.name, body);
      assert body + [] == body;
      ReadsFit(LittleEndian, cls, body);
      ValueRoundTripsIffFits(LittleEndian, cls, o.fields, []);
    } else if o.name == [] {
      NameLengthField(o.name, body);
    } else {
      NamesReadAreShort(reg, Envelope(reg, o));
    }
  }

  lemma NamesReadAreShort(reg: Registry, data: seq<byte>)
    ensures var r := ReadEnvelope(reg, data);
            r.Some? ==> |r.value.name| < SERIALIZE_CLASS_NAME_MAX_LEN && 0 !in r.value.name
  {
  }

  /** Whatever bytes arrive, an object that comes out of them is of a registered class and,
      if that is supported, a value of it. */
  lemma ObjectsAreRegistered(reg: Registry, data: seq<byte>)
    ensures var r := ReadEnvelope(reg, data);
            r.Some? ==>
              && r.value.name in reg && |r.value.fields| == |reg[r.value.name]|
              && (Supported(reg[r.value.name]) ==> Fits(reg[r.value.name], r.value.fields))
  {
    var n, r := ReadInt(LittleEndian, Int16, data).0, ReadEnvelope(reg, data);
    if r.Some? && Supported(reg[r.value.name]) {
      ReadsFit(LittleEndian, reg[r.value.name], data[2 + n..]);
    }
  }

  /** The envelope is the length of the name, low byte first, the name, and the object. */
  lemma EnvelopeBytes(reg: Registry, o: Obj)
    requires o.name in reg && |o.name| <= 65535
    ensures Envelope(reg, o) ==
            [|o.name| % 256, |o.name| / 256] + o.name + RunSerialize(LittleEndian, reg[o.name], o.fields)
  {
    StringBytes(o.name);
  }

  /** An object whose name has a NUL arrives as an object of another class. */
  lemma NulNameIsMistaken()
    ensures var reg: Registry := map[[97, 0] := [], [97] := []];
            var o := Obj([97, 0], []);
            Carried(reg, o) && ReadEnvelope(reg, Envelope(reg, o)) == Some(Obj([97], []))
  {
    var reg: Registry := map[[97, 0] := [], [97] := []];
    var o := Obj([97, 0], []);
    NameLengthField(o.name, []);
    NameField(o.name, []);
    assert o.name[1..] == [0];
    assert CString(o.name) == [97] + CString([0]) == [97];
  }

  predicate Deliverable(reg: Registry, o: Obj) {
    Carried(reg, o) && GoodName(o.name) && |Envelope(reg, o)| <= MAX_BODY
  }

  predicate AllDeliverable(reg: Registry, os: seq<Obj>) {
    forall i :: 0 <= i < |os| ==> Deliverable(reg, os[i])
  }

  /** Objects that can be framed at all: of registered classes, and with a length that
      fits the header. */
  predicate Framed(reg: Registry, o: Obj) {
    o.name in reg && |Envelope(reg, o)| <= MAX_BODY
  }

  predicate AllFramed(reg: Registry, os: seq<Obj>) {
    forall i :: 0 <= i < |os| ==> Framed(reg, os[i])
  }

  function Envelopes(reg: Registry, os: seq<Obj>): (ms: seq<Body>)
    requires AllFramed(reg, os)
    ensures |ms| == |os|
    ensures forall i :: 0 <= i < |os| ==> Framed(reg, os[i]) && ms[i] == Envelope(reg, os[i])
    ensures forall m :: m in ms ==> Sendable(m)
  {
    seq(|os|, i requires 0 <= i < |os| => Envelope(reg, os[i]))
  }

  /** The objects that a list of packages yields, in order. */
  function Objects(reg: Registry, ms: seq<Body>): (os: seq<Obj>)
    ensures |os| <= |ms|
  {
    if ms == [] then []
    else
      (match ReadEnvelope(reg, ms[0]) case None => [] case Some(o) => [o]) + Objects(reg, ms[1..])
  }

  lemma {:induction false} ObjectsOfEnvelopes(reg: Registry, os: seq<Obj>)
    requires AllDeliverable(reg, os)
    ensures Objects(reg, Envelopes(reg, os)) == os
  {
    var ms := Envelopes(reg, os);
    if os != [] {
      EnvelopeRoundTripsIff(reg, os[0]);
      assert ms[1..] == Envelopes(reg, os[1..]);
      ObjectsOfEnvelopes(reg, os[1..]);
      assert os == [os[0]] + os[1..];
    }
  }

  /** End to end. For every list of deliverable objects, every prefix of the byte stream
      their packages make, and every division of that prefix into non-empty chunks, the
      receiver has rebuilt exactly the objects whose frames are complete, in order. */
  lemma EndToEndPrefix(reg: Registry, os: seq<Obj>, k: nat, chunks: seq<seq<byte>>)
    requires AllDeliverable(reg, os)
    requires k <= |Stream(Envelopes(reg, os))|
    requires NonEmpty(chunks) && Join(chunks) == Stream(Envelopes(reg, os))[..k]
    ensures var r, c := FeedAll([], chunks), CutAt(Envelopes(reg, os), k);
            && r.Fed? && r.part == c.part
            && Objects(reg, r.out) == os[..c.count]
  {
    var ms := Envelopes(reg, os);
    var c := CutAt(ms, k);
    FramingUnderAnyChunking(ms, k, chunks);
    assert ms[..c.count] == Envelopes(reg, os[..c.count]);
    ObjectsOfEnvelopes(reg, os[..c.count]);
  }

  /** A list of packages yields a list of objects of the same length if and only if each
      yields its own. */
  lemma {:induction false} ObjectsAre(reg: Registry, ms: seq<Body>, os: seq<Obj>)
    requires |ms| == |os|
    ensures Objects(reg, ms) == os <==> Each(reg, ms, os)
  {
    if os != [] {
      ObjectsAre(reg, ms[1..], os[1..]);
      var tail := Objects(reg, ms[1..]);
      assert os == [os[0]] + os[1..];
      match ReadEnvelope(reg, ms[0]) {
        case None => assert |Objects(reg, ms)| < |os|;
        case Some(o) => assert Objects(reg, ms)[0] == o && Objects(reg, ms)[1..] == tail;
      }
      EachFirst(reg, ms, os);
    }
  }

  lemma EachFirst(reg: Registry, ms: seq<Body>, os: seq<Obj>)
    requires |ms| == |os| > 0
    ensures Each(reg, ms, os) <==> ReadEnvelope(reg, ms[0]) == Some(os[0]) && Each(reg, ms[1..], os[1..])
  {
    if ReadEnvelope(reg, ms[0]) == Some(os[0]) && Each(reg, ms[1..], os[1..]) {
      forall i | 0 <= i < |os| ensures ReadEnvelope(reg, ms[i]) == Some(os[i]) {
        if i > 0 { assert ms[i] == ms[1..][i - 1] && os[i] == os[1..][i - 1]; }
      }
    }
  }

  /** Each package yields its own object. */
  predicate Each(reg: Registry, ms: seq<Body>, os: seq<Obj>) {
    |ms| == |os| && forall i :: 0 <= i < |os| ==> ReadEnvelope(reg, ms[i]) == Some(os[i])
  }

  lemma RebuiltIffDeliverable(reg: Registry, os: seq<Obj>)
    requires AllFramed(reg, os) && forall i :: 0 <= i < |os| ==> Supported(reg[os[i].name])
    ensures Objects(reg, Envelopes(reg, os)) == os <==> AllDeliverable(reg, os)
  {
    var ms := Envelopes(reg, os);
    ObjectsAre(reg, ms, os);
    forall i | 0 <= i < |os| ensures ReadEnvelope(reg, ms[i]) == Some(os[i]) <==> Deliverable(reg, os[i]) {
      EnvelopeRoundTripsIff(reg, os[i]);
    }
  }

  /** The whole stream, in any chunks, gives back the whole list if and only if each of its
      objects is deliverable; the buffer is then idle. */
  lemma EndToEnd(reg: Registry, os: seq<Obj>, chunks: seq<seq<byte>>)
    requires AllFramed(reg, os) && forall i :: 0 <= i < |os| ==> Supported(reg[os[i].name])
    requires NonEmpty(chunks) && Join(chunks) == Stream(Envelopes(reg, os))
    ensures FeedAll([], chunks).Fed?
    ensures Objects(reg, FeedAll([], chunks).out) == os <==> AllDeliverable(reg, os)
    ensures AllDeliverable(reg, os) ==> FeedAll([], chunks) == Fed([], Envelopes(reg, os))
  {
    var ms := Envelopes(reg, os);
    var k := |Stream(ms)|;
    assert Stream(ms)[..k] == Stream(ms);
    FramingUnderAnyChunking(ms, k, chunks);
    var c := CutAt(ms, k).count;
    RebuiltIffDeliverable(reg, os);
    if c == |ms| {
      assert ms[..c] == ms;
    } else {
      assert |Objects(reg, ms[..c])| < |os|;
    }
    if AllDeliverable(reg, os) {
      StreamRoundTrip(ms, chunks);
    }
  }
}
