/** From the objects sent to the objects rebuilt, through the send queue of the socket
    that carries them. */
module SendPath {
  import opened Bytes
  import opened ByteQueue
  import opened Schema
  import opened Framing
  import opened Serialize
  import SendQueue
  import SendBytes

  /** What the caller of `Write` wrote, in order. */
  function Written(moves: seq<SendBytes.Move>): seq<seq<byte>> {
    if moves == [] then []
    else (if moves[0].Send? then [moves[0].data] else []) + Written(moves[1..])
  }

  /** The socket is known, there is memory, and no send fails hard. */
  predicate Smooth(moves: seq<SendBytes.Move>) {
    forall i :: 0 <= i < |moves| ==> moves[i].Send? ==> moves[i].ready && moves[i].outcome != SendQueue.Failed
  }

  function Accepted(frames: seq<seq<byte>>): seq<seq<byte>> {
    if frames == [] then []
    else (if SendQueue.Sendable(frames[0]) then [frames[0]] else []) + Accepted(frames[1..])
  }

  lemma {:induction false} AcceptedFirst(data: seq<byte>, rest: seq<seq<byte>>, before: seq<seq<byte>>)
    ensures before + Accepted([data] + rest) ==
            (before + if SendQueue.Sendable(data) then [data] else []) + Accepted(rest)
  {
    assert ([data] + rest)[1..] == rest;
    Assoc(before, if SendQueue.Sendable(data) then [data] else [], Accepted(rest));
  }

  /** A smooth run accepts exactly the frames of a size that `Write` takes. */
  lemma {:induction false} SmoothRunAccepts(m: SendBytes.Mode, c: SendBytes.Channel, moves: seq<SendBytes.Move>)
    requires Smooth(moves) && SendBytes.Run(m, c, moves).Some?
    ensures SendBytes.Run(m, c, moves).value.accepted == c.accepted + Accepted(Written(moves))
    decreases |moves|
  {
    if moves != [] {
      var c1 := SendBytes.Apply(m, c, moves[0]);
      SmoothStepAccepts(m, c, moves[0]);
      SmoothRunAccepts(m, c1, moves[1..]);
      if moves[0].Send? {
        AcceptedFirst(moves[0].data, Written(moves[1..]), c.accepted);
      } else {
        assert c1.accepted == c.accepted && Written(moves) == Written(moves[1..]);
      }
    }
  }

  lemma SmoothStepAccepts(m: SendBytes.Mode, c: SendBytes.Channel, move: SendBytes.Move)
    requires Smooth([move]) && SendBytes.Enabled(m, c, move)
    ensures SendBytes.Apply(m, c, move).accepted ==
            c.accepted + if move.Send? && SendQueue.Sendable(move.data) then [move.data] else []
  {
    assert [move][0] == move;
  }

  function Frames(ms: seq<Body>): (r: seq<seq<byte>>)
    requires forall m :: m in ms ==> Sendable(m)
    ensures |r| == |ms|
  {
    seq(|ms|, i requires 0 <= i < |ms| => assert ms[i] in ms; Frame(ms[i]))
  }

  /** The objects whose frame has at most 4096 bytes. */
  function Small(reg: Registry, os: seq<Obj>): (r: seq<Obj>)
    requires AllDeliverable(reg, os)
    ensures AllDeliverable(reg, r) && |r| <= |os|
  {
    if os == [] then []
    else
      assert Deliverable(reg, os[0]);
      (if IsSmall(reg, os[0]) then [os[0]] else []) + Small(reg, os[1..])
  }

  predicate IsSmall(reg: Registry, o: Obj)
    requires o.name in reg
  {
    HEADER + |Envelope(reg, o)| <= SendQueue.MAX_SOCKET_MSG_BUFF_LENGTH
  }

  predicate AllSmall(reg: Registry, os: seq<Obj>)
    requires AllDeliverable(reg, os)
  {
    forall i :: 0 <= i < |os| ==> assert Deliverable(reg, os[i]); IsSmall(reg, os[i])
  }

  /** Nothing is missing from the list if and only if every frame is small. */
  lemma {:induction false} WholeIffAllSmall(reg: Registry, os: seq<Obj>)
    requires AllDeliverable(reg, os)
    ensures Small(reg, os) == os <==> AllSmall(reg, os)
  {
    if os != [] {
      var rest := os[1..];
      WholeIffAllSmall(reg, rest);
      assert os == [os[0]] + rest;
      assert Deliverable(reg, os[0]);
      if IsSmall(reg, os[0]) {
        assert Small(reg, os)[1..] == Small(reg, rest);
        assert AllSmall(reg, rest) ==> AllSmall(reg, os) by {
          if AllSmall(reg, rest) {
            forall i | 0 <= i < |os| ensures os[i].name in reg && IsSmall(reg, os[i]) {
              assert Deliverable(reg, os[i]);
              if i > 0 { assert os[i] == rest[i - 1]; }
            }
          }
        }
        assert AllSmall(reg, os) ==> AllSmall(reg, rest) by {
          assert forall i :: 0 <= i < |rest| ==> rest[i] == os[i + 1];
        }
      } else {
        assert Small(reg, os) == Small(reg, rest);
      }
    }
  }

  /** A string of 5000 bytes is enough for an object that is deliverable and never sent. */
  lemma LargeObjectIsRefused()
    ensures var reg: Registry := map[[97] := [Single(Str)]];
            var o := Obj([97], [StrV(Zeros(5000))]);
            Deliverable(reg, o) && !IsSmall(reg, o) && Small(reg, [o]) == []
  {
    var text := StrV(Zeros(5000));
    var cls := [Single(Str)];
    OneWrite(LittleEndian, WriteString, text);
    assert cls[1..] == [] && [text][1..] == [];
    var body := RunSerialize(LittleEndian, cls, [text]);
    assert body == WriteStr(LittleEndian, text.s) + RunSerialize(LittleEndian, cls[1..], [text][1..]);
    assert |body| == 5002;
    assert SupportedAttr(cls[0]) && FitsAttr(cls[0], text);
    var reg: Registry, o := map[[97] := cls], Obj([97], [text]);
    assert |Envelope(reg, o)| == 5005;
    assert [o][1..] == [];
  }

  lemma {:induction false} SmallFrames(reg: Registry, os: seq<Obj>)
    requires AllDeliverable(reg, os)
    ensures Accepted(Frames(Envelopes(reg, os))) == Frames(Envelopes(reg, Small(reg, os)))
    decreases |os|
  {
    if os != [] {
      assert Deliverable(reg, os[0]);
      SmallFrames(reg, os[1..]);
      assert os == [os[0]] + os[1..];
      FramesFirst(reg, os[0], os[1..]);
      FramesFirst(reg, os[0], Small(reg, os[1..]));
      AcceptedFirst(Frame(Envelope(reg, os[0])), Frames(Envelopes(reg, os[1..])), []);
    }
  }

  lemma {:induction false} FramesFirst(reg: Registry, o: Obj, rest: seq<Obj>)
    requires Deliverable(reg, o) && AllDeliverable(reg, rest)
    ensures AllDeliverable(reg, [o] + rest)
    ensures Frames(Envelopes(reg, [o] + rest)) == [Frame(Envelope(reg, o))] + Frames(Envelopes(reg, rest))
  {
    var fs, gs := Frames(Envelopes(reg, [o] + rest)), Frames(Envelopes(reg, rest));
    forall i | 0 < i < |fs| ensures fs[i] == gs[i - 1] {
      assert ([o] + rest)[i] == rest[i - 1];
    }
  }

  lemma {:induction false} JoinFrames(ms: seq<Body>)
    requires forall m :: m in ms ==> Sendable(m)
    ensures Join(Frames(ms)) == Stream(ms)
  {
    if ms != [] {
      JoinFrames(ms[1..]);
      assert ms[0] in ms;
      assert Frames(ms)[1..] == Frames(ms[1..]);
    }
  }

  /** What is on the wire after a run that wrote the objects in order. */
  lemma WireBytes(m: SendBytes.Mode, reg: Registry, os: seq<Obj>, moves: seq<SendBytes.Move>)
    requires AllDeliverable(reg, os) && Smooth(moves) && Written(moves) == Frames(Envelopes(reg, os))
    requires SendBytes.KeepsOrder(m) && SendBytes.Run(m, SendBytes.NEW_CHANNEL, moves).Some?
    ensures var c, all := SendBytes.Run(m, SendBytes.NEW_CHANNEL, moves).value, Envelopes(reg, Small(reg, os));
            c.wire <= Stream(all) && (c.ops == [] ==> c.wire == Stream(all))
  {
    SmoothRunAccepts(m, SendBytes.NEW_CHANNEL, moves);
    assert [] + Accepted(Written(moves)) == Accepted(Written(moves));
    SmallFrames(reg, os);
    SendBytes.BytesKeepOrder(m, moves);
    JoinFrames(Envelopes(reg, Small(reg, os)));
  }

  /** At any moment of any interleaving of writes and completions, whatever part of which
      buffer the system took, however much has arrived and in whatever chunks: the receiver
      has rebuilt exactly those objects written so far whose frame has at most 4096 bytes
      and is complete. */
  lemma SentObjectsArrive(m: SendBytes.Mode, reg: Registry, os: seq<Obj>, moves: seq<SendBytes.Move>,
                          k: nat, chunks: seq<seq<byte>>)
    requires AllDeliverable(reg, os) && Smooth(moves) && Written(moves) == Frames(Envelopes(reg, os))
    requires SendBytes.KeepsOrder(m) && SendBytes.Run(m, SendBytes.NEW_CHANNEL, moves).Some?
    requires var wire := SendBytes.Run(m, SendBytes.NEW_CHANNEL, moves).value.wire;
             NonEmpty(chunks) && k <= |wire| && Join(chunks) == wire[..k]
    ensures var r, all := FeedAll([], chunks), Envelopes(reg, Small(reg, os));
            && k <= |Stream(all)| && r.Fed? && r.part == CutAt(all, k).part
            && Objects(reg, r.out) == Small(reg, os)[..CutAt(all, k).count]
  {
    WireBytes(m, reg, os, moves);
    EndToEndPrefix(reg, Small(reg, os), k, chunks);
  }

  /** Once nothing is in flight, exactly the objects with small frames are rebuilt, in order:
      the whole list if and only if all frames are small. */
  lemma SmallObjectsArrive(m: SendBytes.Mode, reg: Registry, os: seq<Obj>, moves: seq<SendBytes.Move>,
                           chunks: seq<seq<byte>>)
    requires AllDeliverable(reg, os) && Smooth(moves) && Written(moves) == Frames(Envelopes(reg, os))
    requires SendBytes.KeepsOrder(m)
    requires var r := SendBytes.Run(m, SendBytes.NEW_CHANNEL, moves);
             r.Some? && r.value.ops == [] && NonEmpty(chunks) && Join(chunks) == r.value.wire
    ensures var r := FeedAll([], chunks);
            && r.Fed? && r.part == [] && Objects(reg, r.out) == Small(reg, os)
            && (Objects(reg, r.out) == os <==> AllSmall(reg, os))
  {
    WireBytes(m, reg, os, moves);
    EndToEnd(reg, Small(reg, os), chunks);
    WholeIffAllSmall(reg, os);
  }
}
