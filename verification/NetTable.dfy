/** The connection table of the network manager (elegance/network/network_manager.cpp):
    connection ids, their recycling, and the events shown to the handlers. */
module NetTable {
  import opened Bytes
  import opened Framing

  // ----- endpoints (elegance/platform/network/socket_def.hpp) -----

  datatype Endpoint = Endpoint(remoteIp: string, remotePort: int, localPort: int)

  /** `operator<`: it compares the lengths of the addresses, not the addresses. */
  predicate Less(a: Endpoint, b: Endpoint) {
    if |a.remoteIp| < |b.remoteIp| then true
    else if |a.remoteIp| > |b.remoteIp| then false
    else if a.remotePort < b.remotePort then true
    else if a.remotePort > b.remotePort then false
    else a.localPort < b.localPort
  }

  /** Keys that neither precede the other are one key of an ordered map. */
  predicate SameKey(a: Endpoint, b: Endpoint) {
    !Less(a, b) && !Less(b, a)
  }

  datatype Key = Key(ipLength: nat, remotePort: int, localPort: int)

  function KeyOf(e: Endpoint): Key {
    Key(|e.remoteIp|, e.remotePort, e.localPort)
  }

  /** The order is fit for a map, and what it identifies is length and ports alone. */
  lemma OrderIdentifiesByLength(a: Endpoint, b: Endpoint, c: Endpoint)
    ensures !Less(a, a)
    ensures Less(a, b) && Less(b, c) ==> Less(a, c)
    ensures SameKey(a, b) <==> KeyOf(a) == KeyOf(b)
    ensures SameKey(a, b) <==>
            |a.remoteIp| == |b.remoteIp| && a.remotePort == b.remotePort && a.localPort == b.localPort
  {
  }

  // ----- state -----

  type NetId = int
  type Sock = int

  datatype Event =
    | Accepted(endpoint: Endpoint, id: NetId)
    | Connected(endpoint: Endpoint, id: NetId)
    | ConnectFailed(endpoint: Endpoint)
    | ListenFailed(port: int)
    | Received(id: NetId, body: Body)
    | Disconnected(id: NetId)

  datatype Net = Net(
    max: int,
    free: seq<NetId>,
    endpoints: map<NetId, Endpoint>,
    ids: map<Key, NetId>,
    accepts: map<NetId, Sock>,
    connects: map<NetId, Sock>,
    parts: Parts,
    events: seq<Event>)

  const NEW_NET := Net(0, [], map[], map[], map[], map[], map[], [])

  function GetFreeNetID(n: Net): (r: (NetId, Net))
    ensures r.1 == n.(max := r.1.max, free := r.1.free)
  {
    if n.free != [] then (n.free[|n.free| - 1], n.(free := n.free[..|n.free| - 1]))
    else (n.max + 1, n.(max := n.max + 1))
  }

  datatype Role = Acceptor | Connector

  function Enter(n: Net, role: Role, id: NetId, e: Endpoint, s: Sock): (r: Net)
    ensures r == n.(endpoints := n.endpoints[id := e], ids := n.ids[KeyOf(e) := id],
                    accepts := r.accepts, connects := r.connects)
  {
    var n' := n.(endpoints := n.endpoints[id := e], ids := n.ids[KeyOf(e) := id]);
    if role == Acceptor then n'.(accepts := n.accepts[id := s]) else n'.(connects := n.connects[id := s])
  }

  /** No socket, no entry. */
  function EnterAny(n: Net, role: Role, id: NetId, e: Endpoint, sock: Option<Sock>): (r: Net) {
    if sock.None? then n else Enter(n, role, id, e, sock.value)
  }

  function OpenEvent(role: Role, e: Endpoint, id: NetId): (r: Event)
    ensures Opens(r, id)
  {
    if role == Acceptor then Accepted(e, id) else Connected(e, id)
  }

  /** `OnAccept` and `OnConnect`. `sock` is the last socket of the list that says it
      knows the remote side; without one the id is handed out but not entered. */
  function OpenStep(n: Net, role: Role, e: Endpoint, sock: Option<Sock>): (r: Net) {
    var (id, n1) := GetFreeNetID(n);
    var n2 := EnterAny(n1, role, id, e, sock);
    n2.(events := n2.events + [OpenEvent(role, e, id)])
  }

  /** `OnRecvPackage` passes on no package without bytes. */
  function Packages(id: NetId, out: seq<Body>): seq<Event> {
    if out == [] then []
    else (if id > 0 && out[0] != [] then [Event.Received(id, out[0])] else []) + Packages(id, out[1..])
  }

  /** A chunk has bytes, and after those the connection holds they scan. That the part
      held is a reachable one is an invariant of every run. */
  predicate RecvDefined(n: Net, e: Endpoint, data: seq<byte>) {
    data != [] && (KeyOf(e) in n.ids ==>
      var p := PartOf(n.parts, n.ids[KeyOf(e)]);
      Reachable(p) && Scans(p + data))
  }

  function RecvStep(n: Net, e: Endpoint, data: seq<byte>): (r: Net)
    requires RecvDefined(n, e, data)
  {
    if KeyOf(e) !in n.ids then n
    else
      var id := n.ids[KeyOf(e)];
      FeedDefinedIffAccepts(PartOf(n.parts, id), data);
      var f := Feed(PartOf(n.parts, id), data);
      n.(parts := n.parts[id := f.part], events := n.events + Packages(id, f.out))
  }

  /** The packer's buffer of the id is left as it is. */
  function CloseStep(n: Net, e: Endpoint): (r: Net) {
    if KeyOf(e) !in n.ids then n
    else
      var id := n.ids[KeyOf(e)];
      n.(endpoints := n.endpoints - {id}, ids := n.ids - {KeyOf(e)},
         accepts := n.accepts - {id}, connects := n.connects - {id},
         events := n.events + [Disconnected(id)], free := n.free + [id])
  }

  function FailStep(n: Net, event: Event): (r: Net) {
    n.(events := n.events + [event])
  }

  // ----- the discipline of one id -----

  predicate Opens(event: Event, id: NetId) {
    (event.Accepted? || event.Connected?) && event.id == id
  }

  /** An automaton over the events of one id: closed, open, or out of order. */
  function Track(events: seq<Event>, id: NetId): (r: Option<bool>) {
    if events == [] then Some(false)
    else
      var last := events[|events| - 1];
      match Track(events[..|events| - 1], id)
      case None => None
      case Some(open) =>
        if Opens(last, id) then (if open then None else Some(true))
        else if last.Received? && last.id == id then (if open then Some(true) else None)
        else if last.Disconnected? && last.id == id then (if open then Some(false) else None)
        else Some(open)
  }

  /** Given out and not yet returned. */
  predicate Held(n: Net, id: NetId) {
    1 <= id <= n.max && id !in n.free
  }

  ghost predicate TableInv(n: Net) {
    && 0 <= n.max && NoRepeats(n.free)
    && (forall i :: i in n.free ==> 1 <= i <= n.max && i !in n.endpoints)
    && (forall i :: i in n.endpoints ==> 1 <= i <= n.max)
    && (forall k :: k in n.ids ==> n.ids[k] in n.endpoints && KeyOf(n.endpoints[n.ids[k]]) == k)
    && n.accepts.Keys + n.connects.Keys == n.endpoints.Keys && n.accepts.Keys !! n.connects.Keys
  }

  ghost predicate Disciplined(n: Net) {
    forall id :: Track(n.events, id) == Some(Held(n, id))
  }

  ghost predicate Inv(n: Net) {
    TableInv(n) && Disciplined(n) && forall i :: i in n.parts ==> Reachable(n.parts[i])
  }

  lemma TrackNext(events: seq<Event>, e: Event, id: NetId)
    ensures Track(events + [e], id) ==
            match Track(events, id)
            case None => None
            case Some(open) =>
              if Opens(e, id) then (if open then None else Some(true))
              else if e.Received? && e.id == id then (if open then Some(true) else None)
              else if e.Disconnected? && e.id == id then (if open then Some(false) else None)
              else Some(open)
  {
    assert (events + [e])[..|events|] == events;
  }

  lemma FreshNetID(n: Net)
    requires TableInv(n)
    ensures var (id, n') := GetFreeNetID(n);
            && 1 <= id <= n'.max && !Held(n, id) && Held(n', id) && id !in n.endpoints
            && (forall i :: i != id ==> (Held(n', i) <==> Held(n, i)))
            && TableInv(n')
            && (n'.max > n.max ==> n.free == [] && n'.max == n.max + 1)
  {
    if n.free != [] {
      var (id, n') := GetFreeNetID(n);
      assert n.free == n'.free + [id];
      assert forall i :: i in n.free <==> i == id || i in n'.free;
      assert id !in n'.free;
    }
  }

  lemma EnterKeepsTable(n: Net, role: Role, id: NetId, e: Endpoint, s: Sock)
    requires TableInv(n) && Held(n, id) && id !in n.endpoints
    ensures TableInv(Enter(n, role, id, e, s))
  {
    var n' := Enter(n, role, id, e, s);
    assert id !in n.accepts.Keys + n.connects.Keys;
    assert n'.accepts.Keys + n'.connects.Keys == n'.endpoints.Keys;
    forall k | k in n'.ids ensures n'.ids[k] in n'.endpoints && KeyOf(n'.endpoints[n'.ids[k]]) == k {
      if k != KeyOf(e) { assert n.ids[k] in n.endpoints; }
    }
  }

  lemma OpenKeepsTable(n: Net, role: Role, e: Endpoint, sock: Option<Sock>)
    requires TableInv(n)
    ensures TableInv(OpenStep(n, role, e, sock))
  {
    FreshNetID(n);
    var (id, n1) := GetFreeNetID(n);
    if sock.Some? { EnterKeepsTable(n1, role, id, e, sock.value); }
  }

  lemma OpenKeepsInv(n: Net, role: Role, e: Endpoint, sock: Option<Sock>)
    requires Inv(n)
    ensures Inv(OpenStep(n, role, e, sock))
  {
    FreshNetID(n);
    OpenKeepsTable(n, role, e, sock);
    var (id, n1) := GetFreeNetID(n);
    var n' := OpenStep(n, role, e, sock);
    var event := OpenEvent(role, e, id);
    assert n'.events == n.events + [event] && n'.max == n1.max && n'.free == n1.free && n'.parts == n.parts;
    forall i ensures Track(n'.events, i) == Some(Held(n', i)) {
      TrackNext(n.events, event, i);
      assert Held(n', i) <==> Held(n1, i);
    }
  }

  lemma {:induction false} TrackPackages(events: seq<Event>, id: NetId, out: seq<Body>, i: NetId)
    requires Track(events, id) == Some(true)
    ensures Track(events + Packages(id, out), i) == Track(events, i)
    decreases |out|
  {
    if out == [] {
      assert events + Packages(id, out) == events;
    } else if id > 0 && out[0] != [] {
      var e := Event.Received(id, out[0]);
      TrackNext(events, e, id);
      TrackNext(events, e, i);
      TrackPackages(events + [e], id, out[1..], i);
      assert events + Packages(id, out) == events + [e] + Packages(id, out[1..]);
    } else {
      TrackPackages(events, id, out[1..], i);
      assert Packages(id, out) == Packages(id, out[1..]);
    }
  }

  lemma RecvKeepsInv(n: Net, e: Endpoint, data: seq<byte>)
    requires Inv(n) && RecvDefined(n, e, data)
    ensures Inv(RecvStep(n, e, data))
  {
    if KeyOf(e) in n.ids {
      var id := n.ids[KeyOf(e)];
      FeedDefinedIffAccepts(PartOf(n.parts, id), data);
      var f := Feed(PartOf(n.parts, id), data);
      FeedStaysReachable(PartOf(n.parts, id), data);
      var n' := RecvStep(n, e, data);
      assert Held(n, id);
      forall i ensures Track(n'.events, i) == Some(Held(n', i)) {
        TrackPackages(n.events, id, f.out, i);
        assert Held(n', i) <==> Held(n, i);
      }
    }
  }

  lemma CloseKeepsTable(n: Net, e: Endpoint)
    requires TableInv(n) && KeyOf(e) in n.ids
    ensures TableInv(CloseStep(n, e))
  {
    var id := n.ids[KeyOf(e)];
    var n' := CloseStep(n, e);
    assert id in n.endpoints && id !in n.free;
    assert forall i :: i in n'.free <==> i == id || i in n.free;
    assert n'.accepts.Keys + n'.connects.Keys == n'.endpoints.Keys;
    forall k | k in n'.ids ensures n'.ids[k] in n'.endpoints && KeyOf(n'.endpoints[n'.ids[k]]) == k {
      assert n.ids[k] != id;
    }
  }

  lemma CloseKeepsInv(n: Net, e: Endpoint)
    requires Inv(n)
    ensures Inv(CloseStep(n, e))
  {
    if KeyOf(e) in n.ids {
      CloseKeepsTable(n, e);
      var id := n.ids[KeyOf(e)];
      var n' := CloseStep(n, e);
      assert Held(n, id);
      assert forall i :: i in n'.free <==> i == id || i in n.free;
      forall i ensures Track(n'.events, i) == Some(Held(n', i)) {
        TrackNext(n.events, Disconnected(id), i);
      }
    }
  }

  // ----- every run -----

  datatype Input =
    | Open(role: Role, endpoint: Endpoint, sock: Option<Sock>)
    | Recv(endpoint: Endpoint, data: seq<byte>)
    | Close(endpoint: Endpoint)
    | ConnectFail(endpoint: Endpoint)
    | ListenFail(port: int)

  predicate Enabled(n: Net, input: Input) {
    input.Recv? ==> RecvDefined(n, input.endpoint, input.data)
  }

  function Next(n: Net, input: Input): Net
    requires Enabled(n, input)
  {
    match input
    case Open(role, e, sock) => OpenStep(n, role, e, sock)
    case Recv(e, data) => RecvStep(n, e, data)
    case Close(e) => CloseStep(n, e)
    case ConnectFail(e) => FailStep(n, ConnectFailed(e))
    case ListenFail(p) => FailStep(n, ListenFailed(p))
  }

  function Run(n: Net, inputs: seq<Input>): (r: Option<Net>)
    decreases |inputs|
  {
    if inputs == [] then Some(n)
    else if !Enabled(n, inputs[0]) then None
    else Run(Next(n, inputs[0]), inputs[1..])
  }

  lemma NextKeepsInv(n: Net, input: Input)
    requires Inv(n) && Enabled(n, input)
    ensures Inv(Next(n, input))
  {
    match input {
      case Open(role, e, sock) => OpenKeepsInv(n, role, e, sock);
      case Recv(e, data) => RecvKeepsInv(n, e, data);
      case Close(e) => CloseKeepsInv(n, e);
      case ConnectFail(e) => FailKeepsInv(n, ConnectFailed(e));
      case ListenFail(p) => FailKeepsInv(n, ListenFailed(p));
    }
  }

  lemma FailKeepsInv(n: Net, event: Event)
    requires Inv(n) && (event.ConnectFailed? || event.ListenFailed?)
    ensures Inv(FailStep(n, event))
  {
    var n' := FailStep(n, event);
    forall i ensures Track(n'.events, i) == Some(Held(n', i)) {
      TrackNext(n.events, event, i);
      assert Held(n', i) <==> Held(n, i);
    }
  }

  /** In every run the table is consistent and every id obeys the automaton, whatever
      endpoints appear and however ids are recycled. */
  lemma {:induction false} RunKeepsInv(n: Net, inputs: seq<Input>)
    requires Inv(n) && Run(n, inputs).Some?
    ensures Inv(Run(n, inputs).value)
    decreases |inputs|
  {
    if inputs != [] {
      NextKeepsInv(n, inputs[0]);
      RunKeepsInv(Next(n, inputs[0]), inputs[1..]);
    }
  }

  lemma EveryRunIsDisciplined(inputs: seq<Input>)
    requires Run(NEW_NET, inputs).Some?
    ensures Inv(Run(NEW_NET, inputs).value)
  {
    assert Inv(NEW_NET);
    RunKeepsInv(NEW_NET, inputs);
  }

  /** Read off the automaton: an event that needs an open connection comes after an
      opening of that id with no disconnect in between. */
  ghost predicate OpenedBefore(events: seq<Event>, j: int, id: NetId) {
    exists i :: 0 <= i < j <= |events| && Opens(events[i], id) && Uninterrupted(events, i, j, id)
  }

  /** Between `i` and `j` the id is neither closed nor opened again. */
  predicate Uninterrupted(events: seq<Event>, i: int, j: int, id: NetId)
    requires 0 <= i && j <= |events|
  {
    forall k :: i < k < j ==> !(events[k].Disconnected? && events[k].id == id) && !Opens(events[k], id)
  }

  lemma {:induction false} TrackOpen(events: seq<Event>, id: NetId) returns (i: nat)
    requires Track(events, id) == Some(true)
    ensures i < |events| && Opens(events[i], id) && Uninterrupted(events, i, |events|, id)
  {
    var m := |events| - 1;
    var before := events[..m];
    if Opens(events[m], id) {
      i := m;
    } else {
      i := TrackOpen(before, id);
      assert forall k :: 0 <= k < m ==> events[k] == before[k];
    }
  }

  lemma {:induction false} TrackPrefix(events: seq<Event>, j: nat, id: NetId)
    requires j <= |events| && Track(events, id).Some?
    ensures Track(events[..j], id).Some?
  {
    if j == |events| {
      assert events[..j] == events;
    } else {
      var before := events[..|events| - 1];
      TrackPrefix(before, j, id);
      assert before[..j] == events[..j];
    }
  }

  lemma NothingBeforeItsOpening(events: seq<Event>, j: nat, id: NetId)
    requires Track(events, id).Some? && j < |events|
    requires (events[j].Received? || events[j].Disconnected?) && events[j].id == id
    ensures OpenedBefore(events[..j], j, id)
  {
    TrackPrefix(events, j + 1, id);
    assert events[..j + 1] == events[..j] + [events[j]];
    TrackNext(events[..j], events[j], id);
    var i := TrackOpen(events[..j], id);
    assert Opens(events[..j][i], id);
  }

  // ----- when the table is a bijection -----

  /** Every live id is the one its endpoint leads to. */
  predicate Bijective(n: Net) {
    forall i :: i in n.endpoints ==> KeyOf(n.endpoints[i]) in n.ids && n.ids[KeyOf(n.endpoints[i])] == i
  }

  /** Every id issued is live or free. */
  predicate AllAccounted(n: Net) {
    forall i :: 1 <= i <= n.max ==> i in n.free || i in n.endpoints
  }

  /** Entering a connection keeps the bijection if and only if no live endpoint has the
      same address length and ports. */
  lemma BijectiveIffNewKey(n: Net, role: Role, e: Endpoint, s: Sock)
    requires TableInv(n) && Bijective(n)
    ensures Bijective(OpenStep(n, role, e, Some(s))) <==> KeyOf(e) !in n.ids
  {
    FreshNetID(n);
    var (id, n1) := GetFreeNetID(n);
    var n' := OpenStep(n, role, e, Some(s));
    assert n'.endpoints == n.endpoints[id := e] && n'.ids == n.ids[KeyOf(e) := id];
    if KeyOf(e) in n.ids {
      var prior := n.ids[KeyOf(e)];
      assert prior in n'.endpoints && prior != id && n'.ids[KeyOf(n'.endpoints[prior])] == id;
    } else {
      forall i | i in n'.endpoints ensures KeyOf(n'.endpoints[i]) in n'.ids && n'.ids[KeyOf(n'.endpoints[i])] == i {
        if i != id { assert KeyOf(n.endpoints[i]) in n.ids; }
      }
    }
  }

  lemma CloseKeepsBijective(n: Net, e: Endpoint)
    requires TableInv(n) && Bijective(n)
    ensures Bijective(CloseStep(n, e))
    ensures AllAccounted(n) ==> AllAccounted(CloseStep(n, e))
  {
    if KeyOf(e) in n.ids {
      var id := n.ids[KeyOf(e)];
      var n' := CloseStep(n, e);
      assert n'.free[|n.free|] == id;
      forall i | i in n'.endpoints ensures KeyOf(n'.endpoints[i]) in n'.ids && n'.ids[KeyOf(n'.endpoints[i])] == i {
        assert n.ids[KeyOf(n.endpoints[i])] == i;
      }
      forall i | 1 <= i <= n'.max && AllAccounted(n) ensures i in n'.free || i in n'.endpoints {
        if i in n.free {
          var j :| 0 <= j < |n.free| && n.free[j] == i;
          assert n'.free[j] == i;
        }
      }
    }
  }

  lemma OpenKeepsAccounts(n: Net, role: Role, e: Endpoint, s: Sock)
    requires TableInv(n) && AllAccounted(n)
    ensures AllAccounted(OpenStep(n, role, e, Some(s)))
  {
    FreshNetID(n);
    var (id, n1) := GetFreeNetID(n);
    forall i | 1 <= i <= n1.max && i != id ensures i in n1.free || i in n.endpoints {
      if i in n.free { assert n.free == n1.free + [id]; }
    }
  }

  /** A run in which every opening finds its socket and no live endpoint shares the key. */
  predicate CleanStep(n: Net, input: Input) {
    Enabled(n, input) && (input.Open? ==> input.sock.Some? && KeyOf(input.endpoint) !in n.ids)
  }

  predicate CleanRun(n: Net, inputs: seq<Input>)
    decreases |inputs|
  {
    inputs == [] || (CleanStep(n, inputs[0]) && CleanRun(Next(n, inputs[0]), inputs[1..]))
  }

  /** In a clean run endpoints and ids are in bijection, and the ids 1..max are exactly
      the free ones and the live ones. */
  lemma {:induction false} CleanRunsAreBijective(n: Net, inputs: seq<Input>)
    requires Inv(n) && Bijective(n) && AllAccounted(n) && CleanRun(n, inputs)
    ensures Run(n, inputs).Some?
    ensures Bijective(Run(n, inputs).value) && AllAccounted(Run(n, inputs).value)
    decreases |inputs|
  {
    if inputs != [] {
      NextKeepsInv(n, inputs[0]);
      match inputs[0] {
        case Open(role, e, sock) =>
          BijectiveIffNewKey(n, role, e, sock.value);
          OpenKeepsAccounts(n, role, e, sock.value);
        case Recv(e, data) =>
        case Close(e) => CloseKeepsBijective(n, e);
        case ConnectFail(e) =>
        case ListenFail(p) =>
      }
      CleanRunsAreBijective(Next(n, inputs[0]), inputs[1..]);
    }
  }

  // ----- when it is not -----

  lemma MessageOnIdleId(n: Net, e: Endpoint, m: Body)
    requires TableInv(n) && KeyOf(e) in n.ids && PartOf(n.parts, n.ids[KeyOf(e)]) == []
    requires Sendable(m) && m != []
    ensures RecvDefined(n, e, Frame(m))
    ensures RecvStep(n, e, Frame(m)).events == n.events + [Event.Received(n.ids[KeyOf(e)], m)]
  {
    var id := n.ids[KeyOf(e)];
    FeedWholeFrame(m, []);
    assert Frame(m) + [] == Frame(m);
    FeedDefinedIffAccepts([], Frame(m));
    assert Packages(id, [m]) == [Event.Received(id, m)] + Packages(id, [m][1..]);
    assert 1 <= id;
  }

  lemma OpenedTwice(n: Net, a: Endpoint, b: Endpoint, s: Sock, t: Sock)
    requires TableInv(n) && KeyOf(a) == KeyOf(b)
    ensures var n1 := OpenStep(n, Acceptor, a, Some(s));
            var n2 := OpenStep(n1, Acceptor, b, Some(t));
            var ida, idb := GetFreeNetID(n).0, GetFreeNetID(n1).0;
            && TableInv(n2) && n2.parts == n.parts
            && ida != idb && ida in n2.endpoints && KeyOf(a) in n2.ids && n2.ids[KeyOf(a)] == idb
  {
    var n1 := OpenStep(n, Acceptor, a, Some(s));
    OpenKeepsTable(n, Acceptor, a, Some(s));
    OpenKeepsTable(n1, Acceptor, b, Some(t));
    FreshNetID(n);
    FreshNetID(n1);
  }

  /** Two live clients whose addresses have the same length and whose ports agree: the
      bytes of the first are reported under the id of the second, and when the first
      hangs up it is the second that is disconnected. */
  lemma SameLengthAddressesCollide(n: Net, a: Endpoint, b: Endpoint, s: Sock, t: Sock, m: Body)
    requires TableInv(n) && SameKey(a, b) && Sendable(m) && m != []
    requires PartOf(n.parts, GetFreeNetID(OpenStep(n, Acceptor, a, Some(s))).0) == []
    ensures var n1 := OpenStep(n, Acceptor, a, Some(s));
            var n2 := OpenStep(n1, Acceptor, b, Some(t));
            var ida, idb := GetFreeNetID(n).0, GetFreeNetID(n1).0;
            && ida != idb
            && RecvDefined(n2, a, Frame(m)) && RecvStep(n2, a, Frame(m)).events == n2.events + [Event.Received(idb, m)]
            && CloseStep(n2, a).events == n2.events + [Disconnected(idb)]
            && idb !in CloseStep(n2, a).endpoints && ida in CloseStep(n2, a).endpoints
  {
    OrderIdentifiesByLength(a, b, a);
    OpenedTwice(n, a, b, s, t);
    var n2 := OpenStep(OpenStep(n, Acceptor, a, Some(s)), Acceptor, b, Some(t));
    MessageOnIdleId(n2, a, m);
  }

  /** Such clients exist. */
  lemma CollidingClients()
    ensures var a, b := Endpoint("10.0.0.1", 5000, 80), Endpoint("10.0.0.2", 5000, 80);
            a != b && SameKey(a, b)
  {
    assert "10.0.0.1"[7] != "10.0.0.2"[7];
  }

  // ----- recycled ids -----

  /** The id of a closed connection is the next one handed out, and the stream of the new
      connection is read as on an id never used if and only if the old connection ended
      between two messages. */
  lemma RecycledIdIsFreshIffIdle(n: Net, e: Endpoint, role: Role, e': Endpoint, s: Sock)
    requires Inv(n) && KeyOf(e) in n.ids
    ensures var id := n.ids[KeyOf(e)];
            var n' := OpenStep(CloseStep(n, e), role, e', Some(s));
            && n'.ids[KeyOf(e')] == id
            && ((forall d :: d != [] ==> SameBodies(Feed(PartOf(n'.parts, id), d), Feed([], d))) <==>
                PartOf(n.parts, id) == [])
  {
    FreshIffIdle(PartOf(n.parts, n.ids[KeyOf(e)]));
  }

  /** One client sends a byte and hangs up, another sends a whole message. */
  function StaleRun(a: Endpoint, b: Endpoint, s: Sock, t: Sock): seq<Input> {
    [Open(Acceptor, a, Some(s)), Recv(a, [0]), Close(a)] + [Open(Acceptor, b, Some(t)), Recv(b, Frame([2]))]
  }

  /** Such a state is reached: the second client gets the id of the first, and its message
      is not reported. */
  lemma StaleIdSwallowsMessage(a: Endpoint, b: Endpoint, s: Sock, t: Sock)
    ensures var r := Run(NEW_NET, StaleRun(a, b, s, t));
            r.Some? && r.value.events == [Accepted(a, 1), Disconnected(1), Accepted(b, 1)]
  {
    var first, last := [Open(Acceptor, a, Some(s)), Recv(a, [0]), Close(a)],
                       [Open(Acceptor, b, Some(t)), Recv(b, Frame([2]))];
    var n := HalfMessage(a, s, last);
    SwallowedAfterReopening(n, b, t);
    RunTwo(n, last[0], last[1], OpenStep(n, Acceptor, b, Some(t)));
  }

  lemma HalfMessage(a: Endpoint, s: Sock, last: seq<Input>) returns (n3: Net)
    ensures Run(NEW_NET, [Open(Acceptor, a, Some(s)), Recv(a, [0]), Close(a)] + last) == Run(n3, last)
    ensures n3.free == [1] && n3.parts == map[1 := [0]] && n3.events == [Accepted(a, 1), Disconnected(1)]
  {
    var n1 := OpenStep(NEW_NET, Acceptor, a, Some(s));
    assert n1.ids == map[KeyOf(a) := 1] && n1.events == [Accepted(a, 1)] && n1.free == [] && n1.parts == map[];
    n3 := HalfMessageGone(n1, a);
    RunThree(NEW_NET, Open(Acceptor, a, Some(s)), Recv(a, [0]), Close(a), n1, RecvStep(n1, a, [0]), last);
  }

  lemma HalfMessageGone(n: Net, a: Endpoint) returns (n': Net)
    requires n.ids == map[KeyOf(a) := 1] && n.free == [] && n.parts == map[]
    ensures RecvDefined(n, a, [0]) && n' == CloseStep(RecvStep(n, a, [0]), a)
    ensures n'.free == [1] && n'.parts == map[1 := [0]] && n'.events == n.events + [Disconnected(1)]
  {
    StrayByteSwallowsFrame();
    assert [] + [0] == [0];
    assert Packages(1, []) == [];
    n' := CloseStep(RecvStep(n, a, [0]), a);
  }

  lemma RunTwo(n: Net, i: Input, j: Input, n1: Net)
    requires Enabled(n, i) && Next(n, i) == n1 && Enabled(n1, j)
    ensures Run(n, [i, j]) == Some(Next(n1, j))
  {
    assert [i, j][1..] == [j] && [j][1..] == [];
    assert Run(n1, [j]) == Run(Next(n1, j), []);
  }

  lemma RunThree(n: Net, i: Input, j: Input, k: Input, n1: Net, n2: Net, rest: seq<Input>)
    requires Enabled(n, i) && Next(n, i) == n1 && Enabled(n1, j) && Next(n1, j) == n2 && Enabled(n2, k)
    ensures Run(n, [i, j, k] + rest) == Run(Next(n2, k), rest)
  {
    var s := [i, j, k] + rest;
    assert s[1..] == [j, k] + rest && s[1..][1..] == [k] + rest && ([k] + rest)[1..] == rest;
    assert Run(n1, s[1..]) == Run(n2, [k] + rest);
  }

  lemma SwallowedAfterReopening(n: Net, b: Endpoint, t: Sock)
    requires n.free == [1] && n.parts == map[1 := [0]]
    ensures var n' := OpenStep(n, Acceptor, b, Some(t));
            && n'.events == n.events + [Accepted(b, 1)]
            && RecvDefined(n', b, Frame([2])) && RecvStep(n', b, Frame([2])).events == n'.events
  {
    StrayByteSwallowsFrame();
  }
}
