/** One connection's stream through the whole manager, while any number of other
    connections open, receive, close and recycle ids around it. */
module NetStreams {
  import opened Bytes
  import opened Framing
  import opened NetTable
  import opened Serialize

  /** The bodies reported for one id. */
  function Heard(events: seq<Event>, id: NetId): seq<Body> {
    if events == [] then []
    else
      var last := events[|events| - 1];
      Heard(events[..|events| - 1], id) + if last.Received? && last.id == id then [last.body] else []
  }

  function NonEmptyOnly(out: seq<Body>): seq<Body> {
    if out == [] then [] else (if out[0] != [] then [out[0]] else []) + NonEmptyOnly(out[1..])
  }

  lemma HeardNext(events: seq<Event>, e: Event, id: NetId)
    ensures Heard(events + [e], id) == Heard(events, id) + if e.Received? && e.id == id then [e.body] else []
  {
    assert (events + [e])[..|events|] == events;
  }

  lemma PackagesFirst(events: seq<Event>, from: NetId, out: seq<Body>)
    requires from > 0 && out != []
    ensures events + Packages(from, out) ==
            if out[0] != [] then events + [Event.Received(from, out[0])] + Packages(from, out[1..])
            else events + Packages(from, out[1..])
  {
    if out[0] != [] {
      Assoc(events, [Event.Received(from, out[0])], Packages(from, out[1..]));
    } else {
      assert Packages(from, out) == Packages(from, out[1..]);
    }
  }

  lemma {:induction false} HeardOwn(events: seq<Event>, id: NetId, out: seq<Body>)
    requires id > 0
    ensures Heard(events + Packages(id, out), id) == Heard(events, id) + NonEmptyOnly(out)
    decreases |out|
  {
    if out == [] {
      assert events + Packages(id, out) == events;
    } else {
      PackagesFirst(events, id, out);
      if out[0] != [] {
        var e := Event.Received(id, out[0]);
        HeardNext(events, e, id);
        HeardOwn(events + [e], id, out[1..]);
        Assoc(Heard(events, id), [out[0]], NonEmptyOnly(out[1..]));
      } else {
        HeardOwn(events, id, out[1..]);
        assert NonEmptyOnly(out) == NonEmptyOnly(out[1..]);
      }
    }
  }

  lemma {:induction false} HeardOthers(events: seq<Event>, from: NetId, out: seq<Body>, id: NetId)
    requires from > 0 && from != id
    ensures Heard(events + Packages(from, out), id) == Heard(events, id)
    decreases |out|
  {
    if out == [] {
      assert events + Packages(from, out) == events;
    } else {
      PackagesFirst(events, from, out);
      if out[0] != [] {
        var e := Event.Received(from, out[0]);
        HeardNext(events, e, id);
        HeardOthers(events + [e], from, out[1..], id);
      } else {
        HeardOthers(events, from, out[1..], id);
      }
    }
  }

  lemma {:induction false} NonEmptyConcat(a: seq<Body>, b: seq<Body>)
    ensures NonEmptyOnly(a + b) == NonEmptyOnly(a) + NonEmptyOnly(b)
  {
    if a == [] {
      assert a + b == b;
    } else {
      assert (a + b)[1..] == a[1..] + b;
      NonEmptyConcat(a[1..], b);
    }
  }

  lemma {:induction false} NonEmptyAll(ms: seq<Body>)
    requires forall i :: 0 <= i < |ms| ==> ms[i] != []
    ensures NonEmptyOnly(ms) == ms
  {
    if ms != [] {
      NonEmptyAll(ms[1..]);
      assert ms == [ms[0]] + ms[1..];
    }
  }

  /** The chunks that arrive for a key. */
  function ChunksFor(key: Key, inputs: seq<Input>): seq<seq<byte>> {
    if inputs == [] then []
    else
      (if inputs[0].Recv? && KeyOf(inputs[0].endpoint) == key then [inputs[0].data] else [])
      + ChunksFor(key, inputs[1..])
  }

  /** Neither closes the connection nor opens another one under its key. */
  predicate Spares(key: Key, input: Input) {
    input.Open? || input.Close? ==> KeyOf(input.endpoint) != key
  }

  predicate AllSpare(key: Key, inputs: seq<Input>) {
    forall i :: 0 <= i < |inputs| ==> Spares(key, inputs[i])
  }

  predicate Carries(n: Net, key: Key, id: NetId) {
    key in n.ids && n.ids[key] == id
  }

  /** A connection as its peer sees it. */
  datatype View = View(part: seq<byte>, heard: seq<Body>)

  function ViewOf(n: Net, id: NetId): View {
    View(PartOf(n.parts, id), Heard(n.events, id))
  }

  /** What an opening does to the events, the endpoints' ids and the buffers. */
  lemma OpenShape(n: Net, role: Role, e: Endpoint, sock: Option<Sock>)
    ensures var n', i := OpenStep(n, role, e, sock), GetFreeNetID(n).0;
            && n'.events == n.events + [OpenEvent(role, e, i)] && n'.parts == n.parts
            && n'.ids == if sock.None? then n.ids else n.ids[KeyOf(e) := i]
  {
    var (i, n1) := GetFreeNetID(n);
    assert n1.events == n.events && n1.parts == n.parts && n1.ids == n.ids;
  }

  lemma HeardOpening(n: Net, role: Role, e: Endpoint, i: NetId, id: NetId)
    ensures Heard(n.events + [OpenEvent(role, e, i)], id) == Heard(n.events, id)
  {
    HeardNext(n.events, OpenEvent(role, e, i), id);
  }

  lemma OtherOpens(n: Net, key: Key, id: NetId, role: Role, e: Endpoint, sock: Option<Sock>)
    requires Carries(n, key, id) && KeyOf(e) != key
    ensures var n' := OpenStep(n, role, e, sock); Carries(n', key, id) && ViewOf(n', id) == ViewOf(n, id)
  {
    OpenShape(n, role, e, sock);
    HeardOpening(n, role, e, GetFreeNetID(n).0, id);
  }

  lemma OtherReceives(n: Net, key: Key, id: NetId, e: Endpoint, data: seq<byte>)
    requires TableInv(n) && Carries(n, key, id) && RecvDefined(n, e, data) && KeyOf(e) != key
    ensures var n' := RecvStep(n, e, data); Carries(n', key, id) && ViewOf(n', id) == ViewOf(n, id)
  {
    if KeyOf(e) in n.ids {
      var from := n.ids[KeyOf(e)];
      assert from != id && from > 0;
      FeedDefinedIffAccepts(PartOf(n.parts, from), data);
      HeardOthers(n.events, from, Feed(PartOf(n.parts, from), data).out, id);
    }
  }

  lemma OtherCloses(n: Net, key: Key, id: NetId, e: Endpoint)
    requires Carries(n, key, id) && KeyOf(e) != key
    ensures var n' := CloseStep(n, e); Carries(n', key, id) && ViewOf(n', id) == ViewOf(n, id)
  {
    if KeyOf(e) in n.ids { HeardNext(n.events, Disconnected(n.ids[KeyOf(e)]), id); }
  }

  /** A step that is not its own changes nothing about a connection. */
  lemma OtherStep(n: Net, key: Key, id: NetId, input: Input)
    requires TableInv(n) && Carries(n, key, id) && Enabled(n, input) && Spares(key, input)
    requires !(input.Recv? && KeyOf(input.endpoint) == key)
    ensures Carries(Next(n, input), key, id) && ViewOf(Next(n, input), id) == ViewOf(n, id)
  {
    match input {
      case Open(role, e, sock) => OtherOpens(n, key, id, role, e, sock);
      case Recv(e, data) => OtherReceives(n, key, id, e, data);
      case Close(e) => OtherCloses(n, key, id, e);
      case ConnectFail(e) => HeardNext(n.events, ConnectFailed(e), id);
      case ListenFail(p) => HeardNext(n.events, ListenFailed(p), id);
    }
  }

  lemma OwnStep(n: Net, key: Key, id: NetId, e: Endpoint, data: seq<byte>)
    requires TableInv(n) && Carries(n, key, id) && RecvDefined(n, e, data) && KeyOf(e) == key
    ensures var n', f := RecvStep(n, e, data), Feed(PartOf(n.parts, id), data);
            Carries(n', key, id) && f.Fed? && ViewOf(n', id) == View(f.part, Heard(n.events, id) + NonEmptyOnly(f.out))
  {
    assert id > 0;
    FeedDefinedIffAccepts(PartOf(n.parts, id), data);
    HeardOwn(n.events, id, Feed(PartOf(n.parts, id), data).out);
  }

  /** The view of a connection after its own chunks. */
  ghost predicate FedInto(v: View, chunks: seq<seq<byte>>, v': View) {
    var f := FeedAll(v.part, chunks);
    f.Fed? && v' == View(f.part, v.heard + NonEmptyOnly(f.out))
  }

  lemma FedFirst(v: View, chunk: seq<byte>, chunks: seq<seq<byte>>, v1: View, v': View)
    requires var f := Feed(v.part, chunk); f.Fed? && v1 == View(f.part, v.heard + NonEmptyOnly(f.out))
    requires FedInto(v1, chunks, v')
    ensures FedInto(v, [chunk] + chunks, v')
  {
    var f, g := Feed(v.part, chunk), FeedAll(v1.part, chunks);
    assert ([chunk] + chunks)[1..] == chunks;
    assert FeedAll(v.part, [chunk] + chunks) == Fed(g.part, f.out + g.out);
    NonEmptyConcat(f.out, g.out);
    Assoc(v.heard, NonEmptyOnly(f.out), NonEmptyOnly(g.out));
  }

  /** Whatever the other connections do, the bodies reported for a connection are the
      non-empty ones its own chunks deliver, and its buffer is the one they leave. */
  lemma {:induction false} StreamIsOwn(n: Net, key: Key, id: NetId, inputs: seq<Input>)
    requires Inv(n) && Carries(n, key, id) && Run(n, inputs).Some? && AllSpare(key, inputs)
    ensures Carries(Run(n, inputs).value, key, id)
    ensures FedInto(ViewOf(n, id), ChunksFor(key, inputs), ViewOf(Run(n, inputs).value, id))
    decreases |inputs|
  {
    if inputs == [] {
      assert Heard(n.events, id) + [] == Heard(n.events, id);
    } else {
      var first, rest := inputs[0], inputs[1..];
      var n1 := Next(n, first);
      NextKeepsInv(n, first);
      assert Spares(key, first);
      if first.Recv? && KeyOf(first.endpoint) == key {
        OwnStep(n, key, id, first.endpoint, first.data);
        StreamIsOwn(n1, key, id, rest);
        FedFirst(ViewOf(n, id), first.data, ChunksFor(key, rest), ViewOf(n1, id), ViewOf(Run(n, inputs).value, id));
      } else {
        OtherStep(n, key, id, first);
        StreamIsOwn(n1, key, id, rest);
        assert ChunksFor(key, inputs) == ChunksFor(key, rest);
      }
    }
  }

  lemma {:induction false} ChunksNonEmpty(n: Net, key: Key, inputs: seq<Input>)
    requires Run(n, inputs).Some?
    ensures NonEmpty(ChunksFor(key, inputs))
    decreases |inputs|
  {
    if inputs != [] { ChunksNonEmpty(Next(n, inputs[0]), key, inputs[1..]); }
  }

  lemma OpenedIdle(n: Net, role: Role, e: Endpoint, s: Sock)
    requires Inv(n) && PartOf(n.parts, GetFreeNetID(n).0) == []
    ensures var id, n1 := GetFreeNetID(n).0, OpenStep(n, role, e, Some(s));
            Inv(n1) && Carries(n1, KeyOf(e), id) && ViewOf(n1, id) == View([], Heard(n.events, id))
  {
    OpenKeepsInv(n, role, e, Some(s));
    OpenShape(n, role, e, Some(s));
    var id := GetFreeNetID(n).0;
    HeardOpening(n, role, e, id, id);
  }

  lemma FedByStream(v: View, chunks: seq<seq<byte>>, v': View, ms: seq<Body>, k: nat)
    requires FedInto(v, chunks, v') && v.part == [] && NonEmpty(chunks)
    requires forall m :: m in ms ==> Framing.Sendable(m) && m != []
    requires k <= |Stream(ms)| && Join(chunks) == Stream(ms)[..k]
    ensures v'.heard == v.heard + ms[..CutAt(ms, k).count]
  {
    FramingUnderAnyChunking(ms, k, chunks);
    var some := ms[..CutAt(ms, k).count];
    forall i | 0 <= i < |some| ensures some[i] != [] { assert some[i] in ms; }
    NonEmptyAll(some);
  }

  /** From the moment a connection is opened on an id whose buffer is idle, and as long as
      it lives, the bodies reported for the id are exactly the messages its peer has sent
      completely, in order, whatever chunks they came in and whatever else went on. */
  lemma MessagesArrive(n: Net, role: Role, e: Endpoint, s: Sock, inputs: seq<Input>, ms: seq<Body>, k: nat)
    requires Inv(n) && PartOf(n.parts, GetFreeNetID(n).0) == []
    requires Run(OpenStep(n, role, e, Some(s)), inputs).Some? && AllSpare(KeyOf(e), inputs)
    requires forall m :: m in ms ==> Framing.Sendable(m) && m != []
    requires k <= |Stream(ms)| && Join(ChunksFor(KeyOf(e), inputs)) == Stream(ms)[..k]
    ensures var id, n' := GetFreeNetID(n).0, Run(OpenStep(n, role, e, Some(s)), inputs).value;
            Heard(n'.events, id) == Heard(n.events, id) + ms[..CutAt(ms, k).count]
  {
    var id, n1 := GetFreeNetID(n).0, OpenStep(n, role, e, Some(s));
    OpenedIdle(n, role, e, s);
    StreamIsOwn(n1, KeyOf(e), id, inputs);
    ChunksNonEmpty(n1, KeyOf(e), inputs);
    FedByStream(ViewOf(n1, id), ChunksFor(KeyOf(e), inputs), ViewOf(Run(n1, inputs).value, id), ms, k);
  }

  /** The same for objects: what the packages reported since the opening decode to is
      exactly the objects whose bytes have all arrived. */
  lemma ObjectsArrive(reg: Registry, n: Net, role: Role, e: Endpoint, s: Sock, inputs: seq<Input>, os: seq<Obj>, k: nat)
    requires Inv(n) && PartOf(n.parts, GetFreeNetID(n).0) == []
    requires Run(OpenStep(n, role, e, Some(s)), inputs).Some? && AllSpare(KeyOf(e), inputs)
    requires AllDeliverable(reg, os) && k <= |Stream(Envelopes(reg, os))|
    requires Join(ChunksFor(KeyOf(e), inputs)) == Stream(Envelopes(reg, os))[..k]
    ensures var id, n' := GetFreeNetID(n).0, Run(OpenStep(n, role, e, Some(s)), inputs).value;
            var before, heard := |Heard(n.events, id)|, Heard(n'.events, id);
            && before <= |heard|
            && Objects(reg, heard[before..]) == os[..CutAt(Envelopes(reg, os), k).count]
  {
    var ms := Envelopes(reg, os);
    MessagesArrive(n, role, e, s, inputs, ms, k);
    var c := CutAt(ms, k).count;
    FirstObjects(reg, os, c);
    var earlier := Heard(n.events, GetFreeNetID(n).0);
    assert (earlier + ms[..c])[|earlier|..] == ms[..c];
  }

  lemma FirstObjects(reg: Registry, os: seq<Obj>, c: nat)
    requires AllDeliverable(reg, os) && c <= |os|
    ensures Objects(reg, Envelopes(reg, os)[..c]) == os[..c]
  {
    assert Envelopes(reg, os)[..c] == Envelopes(reg, os[..c]);
    ObjectsOfEnvelopes(reg, os[..c]);
  }
}
