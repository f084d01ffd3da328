/** The packer as it is written: a growing buffer per connection, filled in place by a
    method that calls itself on what is left of the chunk. */
module Packer {
  import opened Bytes
  import opened Framing

  // ----- elegance/memory/flexible_buffer.hpp -----

  /** The `buffer` pointer. A size that is not positive deletes the block and leaves the
      pointer to it in place. */
  datatype Pointer = Null | Block(bytes: array<byte>) | Dangling

  predicate SizeMatches(p: Pointer, bufferSize: int) {
    match p
    case Null => bufferSize <= 0
    case Block(b) => b.Length == bufferSize && bufferSize > 0
    case Dangling => bufferSize <= 0
  }

  /** Growing keeps the old bytes and zeroes the new ones, shrinking cuts. With a dangling
      pointer any real change would delete the block a second time. */
  method ChangeBufferSize(p: Pointer, bufferSize: int, size: int) returns (p': Pointer)
    requires SizeMatches(p, bufferSize) && (p.Dangling? ==> size == bufferSize)
    ensures SizeMatches(p', size)
    ensures size > 0 ==> p'.Block? && (p' == p || fresh(p'.bytes))
    ensures size > 0 ==>
              forall i :: 0 <= i < size ==> p'.bytes[i] == if p.Block? && i < bufferSize then p.bytes[i] else 0
    ensures size <= 0 ==> p' == if p.Null? then Null else Dangling
  {
    if bufferSize == size { return p; }
    if size <= 0 { return if p.Null? then Null else Dangling; }
    var minBufferSize := if size < bufferSize then size else bufferSize;
    var block := new byte[size](_ => 0);
    if p.Block? {
      var i := 0;
      while i < minBufferSize
        invariant 0 <= i <= minBufferSize
        invariant forall j :: 0 <= j < size ==> block[j] == if j < i then p.bytes[j] else 0
      {
        block[i] := p.bytes[i];
        i := i + 1;
      }
    }
    p' := Block(block);
  }

  method ZeroAllBytes(buffer: array<byte>)
    modifies buffer
    ensures forall i :: 0 <= i < buffer.Length ==> buffer[i] == 0
  {
    var i := 0;
    while i < buffer.Length
      invariant 0 <= i <= buffer.Length
      invariant forall j :: 0 <= j < i ==> buffer[j] == 0
    {
      buffer[i] := 0;
      i := i + 1;
    }
  }

  /** `memcpy(buffer + at, data, n)`; the bounds are what makes it defined. */
  method CopyInto(buffer: array<byte>, at: int, data: seq<byte>, n: int)
    requires 0 <= at && 0 <= n <= |data| && at + n <= buffer.Length
    modifies buffer
    ensures buffer[..at + n] == old(buffer[..at]) + data[..n]
  {
    var i := 0;
    while i < n
      invariant 0 <= i <= n
      invariant buffer[..at + i] == old(buffer[..at]) + data[..i]
    {
      buffer[at + i] := data[i];
      i := i + 1;
    }
  }

  // ----- elegance/network/network_packer/network_packer_fixhead.cpp -----

  /** `NetPackerFixHeadMsgCacheBuffer`, a value kept in the map. */
  datatype CacheBuffer = CacheBuffer(buffer: array<byte>, curReadSize: int) {

    ghost function Part(): (p: seq<byte>)
      reads buffer
      requires 0 <= curReadSize <= buffer.Length
    {
      buffer[..curReadSize]
    }

    /** The header always fits, and once a header is there its whole frame fits. */
    ghost predicate Roomy()
      reads buffer
    {
      && HEADER <= buffer.Length
      && 0 <= curReadSize <= buffer.Length
      && (InBody(Part()) && Readable(Part()) ==> HEADER + PackageLength(Part()) <= buffer.Length)
    }

    ghost predicate Keeps(p: seq<byte>)
      reads buffer
    {
      Roomy() && Part() == p && Reachable(p)
    }
  }

  method ReadPackageLength(c: CacheBuffer) returns (n: int)
    requires HEADER <= c.curReadSize <= c.buffer.Length
    ensures n == PackageLength(c.Part())
  {
    assert c.Part()[..HEADER] == c.buffer[..HEADER];
    n := ToSigned(LittleValue(c.buffer[..HEADER]), HEADER);
  }

  /** The branch of `UnPack` that reads a body; a complete frame leaves the buffer idle. */
  method BodyTurn(c: CacheBuffer, data: seq<byte>) returns (c': CacheBuffer, copyBytes: int, out: seq<Body>)
    requires c.Roomy() && InBody(c.Part()) && Readable(c.Part())
    modifies c.buffer
    ensures c'.buffer == c.buffer && c'.Roomy()
    ensures copyBytes == Copied(old(c.Part()), data)
    ensures Turn(c'.Part(), out, data[copyBytes..]) == OneTurn(old(c.Part()), data)
  {
    ghost var p := c.Part();
    var n := ReadPackageLength(c);
    var leftBytes := HEADER + n - c.curReadSize;
    copyBytes := if |data| >= leftBytes then leftBytes else |data|;
    CopyInto(c.buffer, c.curReadSize, data, copyBytes);
    c' := c.(curReadSize := c.curReadSize + copyBytes);
    SameHeader(p, data[..copyBytes]);
    out := [];
    if c'.curReadSize == HEADER + n {
      out := [c.buffer[HEADER..HEADER + n]];
      assert out[0] == (p + data[..copyBytes])[HEADER..];
      ZeroAllBytes(c.buffer);
      c' := c.(curReadSize := 0);
    }
  }

  /** The branch of `UnPack` that reads a header and, when it is complete, makes room
      for the frame without disturbing the header. */
  method HeaderTurn(c: CacheBuffer, data: seq<byte>) returns (c': CacheBuffer, copyBytes: int)
    requires c.Roomy() && !InBody(c.Part()) && !Overflows(OneTurn(c.Part(), data).part)
    modifies c.buffer
    ensures c'.Roomy() && (c'.buffer == c.buffer || fresh(c'.buffer))
    ensures copyBytes == Copied(old(c.Part()), data)
    ensures Turn(c'.Part(), [], data[copyBytes..]) == OneTurn(old(c.Part()), data)
  {
    var leftBytes := HEADER - c.curReadSize;
    copyBytes := if |data| >= leftBytes then leftBytes else |data|;
    CopyInto(c.buffer, c.curReadSize, data, copyBytes);
    c' := c.(curReadSize := c.curReadSize + copyBytes);
    assert c'.Part() == OneTurn(old(c.Part()), data).part;
    if c'.curReadSize >= HEADER {
      c' := MakeRoom(c');
    }
  }

  /** A complete header: the buffer grows to the size of the frame. */
  method MakeRoom(c: CacheBuffer) returns (c': CacheBuffer)
    requires HEADER == c.curReadSize <= c.buffer.Length && !Overflows(c.Part())
    ensures c'.Roomy() && (c'.buffer == c.buffer || fresh(c'.buffer)) && c'.Part() == c.Part()
  {
    var n := ReadPackageLength(c);
    var allPackSize := HEADER + n;
    c' := c;
    if c.buffer.Length < allPackSize {
      var grown := ChangeBufferSize(Block(c.buffer), c.buffer.Length, allPackSize);
      c' := c.(buffer := grown.bytes);
      assert c'.Part() == c.Part();
    }
  }

  method TakeTurn(c: CacheBuffer, data: seq<byte>) returns (c': CacheBuffer, copyBytes: int, out: seq<Body>)
    requires c.Roomy() && Readable(c.Part()) && !Overflows(OneTurn(c.Part(), data).part)
    modifies c.buffer
    ensures c'.Roomy() && (c'.buffer == c.buffer || fresh(c'.buffer))
    ensures copyBytes == Copied(old(c.Part()), data)
    ensures Turn(c'.Part(), out, data[copyBytes..]) == OneTurn(old(c.Part()), data)
  {
    if c.curReadSize >= HEADER {
      c', copyBytes, out := BodyTurn(c, data);
    } else {
      out := [];
      c', copyBytes := HeaderTurn(c, data);
    }
  }

  datatype Packet = Packet(id: int, bytes: seq<byte>)

  class NetworkPackagerFixHead {
    var buffers: map<int, CacheBuffer>
    /** The calls of `ManagerSend`, in order. */
    var sent: seq<Packet>
    /** What each buffer holds. */
    ghost var parts: Parts
    ghost var Repr: set<array<byte>>

    ghost predicate Valid()
      reads this, Repr
    {
      && parts.Keys == buffers.Keys
      && (forall id :: id in buffers ==> buffers[id].buffer in Repr && buffers[id].Keeps(parts[id]))
      && (forall i, j :: i in buffers && j in buffers && i != j ==> buffers[i].buffer != buffers[j].buffer)
    }

    constructor ()
      ensures Valid() && fresh(Repr) && parts == map[] && sent == []
    {
      buffers, sent, parts, Repr := map[], [], map[], {};
    }

    /** The buffer of a connection is created on its first read; until then it holds
        nothing, like an idle one. */
    method EnsureBuffer(id: int)
      requires Valid()
      modifies this`buffers, this`parts, this`Repr
      ensures Valid() && fresh(Repr - old(Repr)) && Repr >= old(Repr)
      ensures id in buffers && parts == old(parts)[id := PartOf(old(parts), id)]
    {
      if id !in buffers {
        var p := ChangeBufferSize(Null, 0, HEADER);
        buffers := buffers[id := CacheBuffer(p.bytes, 0)];
        parts := parts[id := []];
        Repr := Repr + {p.bytes};
      }
    }

    method TurnAt(id: int, data: seq<byte>) returns (copyBytes: int, out: seq<Body>)
      requires Valid() && id in buffers
      requires Readable(parts[id]) && !Overflows(OneTurn(parts[id], data).part)
      requires Reachable(OneTurn(parts[id], data).part)
      modifies this`buffers, this`parts, this`Repr, Repr
      ensures Valid() && fresh(Repr - old(Repr)) && Repr >= old(Repr)
      ensures var t := OneTurn(old(parts)[id], data);
              parts == old(parts)[id := t.part] && out == t.out && copyBytes == Copied(old(parts)[id], data)
    {
      var c;
      ghost var t := OneTurn(parts[id], data);
      c, copyBytes, out := TakeTurn(buffers[id], data);
      buffers := buffers[id := c];
      parts := parts[id := t.part];
      Repr := Repr + {c.buffer};
    }

    /** One round of `UnPack` before it calls itself on the remaining bytes. */
    method Round(id: int, data: seq<byte>) returns (remain: seq<byte>, out: seq<Body>)
      requires Valid() && Readable(PartOf(parts, id))
      requires var t := OneTurn(PartOf(parts, id), data); !Overflows(t.part) && Reachable(t.part)
      modifies this`buffers, this`parts, this`Repr, Repr
      ensures Valid() && fresh(Repr - old(Repr)) && Repr >= old(Repr)
      ensures var t := OneTurn(PartOf(old(parts), id), data);
              parts == old(parts)[id := t.part] && remain == t.rest && out == t.out
    {
      EnsureBuffer(id);
      var copyBytes;
      copyBytes, out := TurnAt(id, data);
      remain := data[copyBytes..];
    }

    /** Exactly `Feed` on the bytes this connection holds; no other connection is touched.
        The result lists the calls of `ManagerRecv`. The precondition is that the code is
        defined on the bytes. */
    method UnPack(id: int, data: seq<byte>) returns (out: seq<Body>)
      requires Valid() && Accepts(PartOf(parts, id), data)
      modifies this`buffers, this`parts, this`Repr, Repr
      ensures Valid() && fresh(Repr - old(Repr)) && Repr >= old(Repr)
      ensures Unpacked(old(parts), id, data, parts, out)
      decreases |data|, if InBody(PartOf(parts, id)) then 1 else 0
    {
      ghost var before := parts;
      ghost var p := PartOf(before, id);
      AcceptedRound(p, data);
      var remain;
      remain, out := Round(id, data);
      if |remain| > 0 {
        ghost var part := parts[id];
        var more := UnPack(id, remain);
        RoundThenRest(before, id, part, parts);
        assert Feed(p, data) == Prepend(out, Fed(PartOf(parts, id), more));
        out := out + more;
      }
    }

    /** One buffer holding the header and the body is handed to the socket. */
    method PackAndSend(id: int, data: Body)
      requires Sendable(data)
      modifies this`sent
      ensures sent == old(sent) + [Packet(id, Frame(data))]
    {
      var p := ChangeBufferSize(Null, 0, HEADER + |data|);
      var buffer := p.bytes;
      var header := Header(|data|);
      CopyInto(buffer, 0, header, HEADER);
      CopyInto(buffer, HEADER, data, |data|);
      assert header[..HEADER] == header && data[..|data|] == data;
      assert buffer[..] == buffer[..HEADER + |data|] == Frame(data);
      sent := sent + [Packet(id, buffer[..])];
    }
  }

  /** The bodies reported and the part kept are those of `Feed`; no other part changes. */
  ghost predicate Unpacked(before: Parts, id: int, data: seq<byte>, after: Parts, out: seq<Body>) {
    && Fed(PartOf(after, id), out) == Feed(PartOf(before, id), data)
    && after == before[id := PartOf(after, id)]
  }

  lemma RoundThenRest(before: Parts, id: int, part: seq<byte>, after: Parts)
    requires after == before[id := part][id := PartOf(after, id)]
    ensures after == before[id := PartOf(after, id)]
  {
  }

  /** What one round leaves for the next. */
  lemma AcceptedRound(p: seq<byte>, data: seq<byte>)
    requires Reachable(p) && Accepts(p, data)
    ensures Readable(p)
    ensures var t := OneTurn(p, data);
            && !Overflows(t.part) && Reachable(t.part)
            && (t.rest == [] ==> Feed(p, data) == Fed(t.part, t.out))
            && (t.rest != [] ==>
                  && Accepts(t.part, t.rest) && Feed(p, data) == Prepend(t.out, Feed(t.part, t.rest))
                  && Feed(t.part, t.rest).Fed?
                  && (|t.rest| < |data| || (|t.rest| == |data| && InBody(p) && !InBody(t.part))))
  {
    FeedDefinedIffAccepts(p, data);
    var t := OneTurn(p, data);
    SameHeader(p, data[..Copied(p, data)]);
    if t.rest != [] { FeedDefinedIffAccepts(t.part, t.rest); }
  }
}
