/** The network manager as it is written: callbacks that update the tables in place and
    show an event to the handlers, at once or through the task queue. */
module NetworkManager {
  import opened Bytes
  import opened Framing
  import opened Packer
  import opened Pools
  import opened NetTable
  import opened NetDelivery

  /** What a listening socket answers to `CheckOnHandle`: it looks the remote side up
      among the endpoints it has accepted. */
  datatype Listener = Listener(sock: Sock, localPort: int, known: set<Key>) {
    predicate CheckOnHandle(ip: string, port: int) {
      Key(|ip|, port, localPort) in known
    }
  }

  /** A connecting socket compares remote address and port only. */
  datatype Dialer = Dialer(sock: Sock, remoteIp: string, remotePort: int) {
    predicate CheckOnHandle(ip: string, port: int) {
      ip == remoteIp && port == remotePort
    }
  }

  /** Every match overwrites the one before. */
  function LastListener(ls: seq<Listener>, e: Endpoint): Option<Sock> {
    if ls == [] then None
    else
      var l := ls[|ls| - 1];
      if l.CheckOnHandle(e.remoteIp, e.remotePort) then Some(l.sock) else LastListener(ls[..|ls| - 1], e)
  }

  function LastDialer(ds: seq<Dialer>, e: Endpoint): Option<Sock> {
    if ds == [] then None
    else
      var d := ds[|ds| - 1];
      if d.CheckOnHandle(e.remoteIp, e.remotePort) then Some(d.sock) else LastDialer(ds[..|ds| - 1], e)
  }

  /** The last listener of the list among whose endpoints the remote side is. */
  ghost predicate Listens(ls: seq<Listener>, e: Endpoint, j: int) {
    && 0 <= j < |ls| && Key(|e.remoteIp|, e.remotePort, ls[j].localPort) in ls[j].known
    && forall k :: j < k < |ls| ==> Key(|e.remoteIp|, e.remotePort, ls[k].localPort) !in ls[k].known
  }

  /** The last connector of the list that dialled the remote side. */
  ghost predicate Dialled(ds: seq<Dialer>, e: Endpoint, j: int) {
    && 0 <= j < |ds| && ds[j].remoteIp == e.remoteIp && ds[j].remotePort == e.remotePort
    && forall k :: j < k < |ds| ==> !(ds[k].remoteIp == e.remoteIp && ds[k].remotePort == e.remotePort)
  }

  lemma {:induction false} LastListenerIs(ls: seq<Listener>, e: Endpoint)
    ensures forall j :: Listens(ls, e, j) ==> LastListener(ls, e) == Some(ls[j].sock)
    ensures (forall j :: !Listens(ls, e, j)) ==> LastListener(ls, e) == None
  {
    if ls != [] {
      var n := |ls| - 1;
      var init := ls[..n];
      LastListenerIs(init, e);
      if ls[n].CheckOnHandle(e.remoteIp, e.remotePort) {
        assert Listens(ls, e, n);
      } else {
        forall j ensures Listens(ls, e, j) <==> Listens(init, e, j) {
          assert forall k :: 0 <= k < n ==> ls[k] == init[k];
        }
      }
    }
  }

  lemma {:induction false} LastDialerIs(ds: seq<Dialer>, e: Endpoint)
    ensures forall j :: Dialled(ds, e, j) ==> LastDialer(ds, e) == Some(ds[j].sock)
    ensures (forall j :: !Dialled(ds, e, j)) ==> LastDialer(ds, e) == None
  {
    if ds != [] {
      var n := |ds| - 1;
      var init := ds[..n];
      LastDialerIs(init, e);
      if ds[n].CheckOnHandle(e.remoteIp, e.remotePort) {
        assert Dialled(ds, e, n);
      } else {
        forall j ensures Dialled(ds, e, j) <==> Dialled(init, e, j) {
          assert forall k :: 0 <= k < n ==> ds[k] == init[k];
        }
      }
    }
  }

  lemma NextListener(ls: seq<Listener>, e: Endpoint, i: nat)
    requires i < |ls|
    ensures LastListener(ls[..i + 1], e) ==
            if ls[i].CheckOnHandle(e.remoteIp, e.remotePort) then Some(ls[i].sock) else LastListener(ls[..i], e)
  {
    assert ls[..i + 1][..i] == ls[..i];
  }

  lemma NextDialer(ds: seq<Dialer>, e: Endpoint, i: nat)
    requires i < |ds|
    ensures LastDialer(ds[..i + 1], e) ==
            if ds[i].CheckOnHandle(e.remoteIp, e.remotePort) then Some(ds[i].sock) else LastDialer(ds[..i], e)
  {
    assert ds[..i + 1][..i] == ds[..i];
  }

  lemma EnterAgain(n: Net, role: Role, id: NetId, e: Endpoint, sock: Option<Sock>, s: Sock)
    ensures Enter(EnterAny(n, role, id, e, sock), role, id, e, s) == EnterAny(n, role, id, e, Some(s))
  {
  }

  /** An address past every chunk of the pool: one that `new` may return. */
  function Beyond(chunks: seq<Addr>, len: int): (a: Addr)
    ensures forall c :: 0 <= c < |chunks| ==> chunks[c] + len <= a
  {
    if chunks == [] then 1
    else
      var a, last := Beyond(chunks[..|chunks| - 1], len), chunks[|chunks| - 1] + len;
      if a < last then last else a
  }

  datatype Write = Write(role: Role, sock: Sock, data: seq<byte>)

  /** The handlers, the task queue, and the pool its records live in: the part of the
      manager that shows events. */
  class Dispatcher {
    const singleThreadHandleMode: bool
    /** `handler_list_` in the order of the set; it does not change. */
    const handlers: seq<Handler>

    var pool: Pool
    var memory: map<Addr, Task>
    var handleTaskQueue: seq<Addr>
    /** The calls of the handlers, in order. */
    var callbacks: seq<Callback>
    ghost var events: seq<Event>

    function Queue(): Delivery
      reads this
    {
      Delivery(pool, memory, handleTaskQueue, callbacks)
    }

    /** In both modes: the callbacks made and those waiting in the queue are, in order,
        the callbacks of direct mode for the events so far. */
    ghost predicate Valid()
      reads this
    {
      && Refines(Queue(), handlers, events)
      && (!singleThreadHandleMode ==> handleTaskQueue == [])
    }

    constructor (singleThread: bool, hs: seq<Handler>, taskSize: int, increaseNum: int)
      requires taskSize > 0 && increaseNum > 0
      ensures Valid() && events == [] && Queue() == Delivery(Pool(taskSize, increaseNum, [], []), map[], [], [])
      ensures singleThreadHandleMode == singleThread && handlers == hs
    {
      singleThreadHandleMode, handlers := singleThread, hs;
      pool, memory, handleTaskQueue, callbacks := Pool(taskSize, increaseNum, [], []), map[], [], [];
      events := [];
      new;
      assert Slots([]) == {};
    }

    /** The tail of every callback: queue a task, or call the handlers. */
    method Show(e: Event)
      requires Valid() && (singleThreadHandleMode ==> Fits(e))
      modifies this
      ensures Valid() && events == old(events) + [e]
      ensures singleThreadHandleMode ==> callbacks == old(callbacks) && |handleTaskQueue| == old(|handleTaskQueue|) + 1
      ensures !singleThreadHandleMode ==>
                && callbacks == old(callbacks) + Broadcast(handlers, e) && |callbacks| == |old(callbacks)| + |handlers|
                && forall i :: 0 <= i < |handlers| ==> callbacks[|old(callbacks)| + i] == Callback(handlers[i], e)
    {
      if singleThreadHandleMode {
        var base := Beyond(pool.chunks, pool.ChunkLen());
        EnqueueRefines(Queue(), handlers, events, e, base);
        var d := Enqueue(Queue(), e, base);
        pool, memory, handleTaskQueue := d.pool, d.memory, d.queue;
      } else {
        CallAll(e);
        DirectRefines(old(Queue()), Queue(), e, old(events));
      }
      events := events + [e];
    }

    /** The loop over the handlers. */
    method CallAll(e: Event)
      modifies this`callbacks
      ensures callbacks == old(callbacks) + Broadcast(handlers, e) && |callbacks| == |old(callbacks)| + |handlers|
      ensures forall i :: 0 <= i < |handlers| ==> callbacks[|old(callbacks)| + i] == Callback(handlers[i], e)
    {
      var i := 0;
      while i < |handlers|
        invariant 0 <= i <= |handlers|
        invariant callbacks == old(callbacks) + Broadcast(handlers[..i], e)
      {
        callbacks := callbacks + [Callback(handlers[i], e)];
        assert Broadcast(handlers[..i + 1], e) == Broadcast(handlers[..i], e) + [Callback(handlers[i], e)];
        i := i + 1;
      }
      assert handlers[..i] == handlers;
    }

    lemma DirectRefines(d: Delivery, d': Delivery, e: Event, before: seq<Event>)
      requires Refines(d, handlers, before) && d.queue == []
      requires d' == d.(callbacks := d.callbacks + Broadcast(handlers, e))
      ensures Refines(d', handlers, before + [e])
    {
      assert before[..|before|] == before;
      assert (before + [e])[..|before| + 1] == before + [e];
      assert (before + [e])[..|before|] == before;
    }

    method HandleNetTask()
      requires Valid()
      modifies this`pool, this`handleTaskQueue, this`callbacks
      ensures Valid()
      ensures Queue() == NetDelivery.HandleNetTask(old(Queue()), handlers)
    {
      HandleRefines(Queue(), handlers, events);
      if handleTaskQueue == [] { return; }
      var task := handleTaskQueue[0];
      handleTaskQueue := handleTaskQueue[1..];
      var shown := Shown(memory[task]);
      CallAll(shown);
      pool := FreeStep(pool, task);
    }

    /** Calling `HandleNetTask` until nothing is left yields what direct mode yields. */
    method DrainAll()
      requires Valid()
      modifies this`pool, this`handleTaskQueue, this`callbacks
      ensures Valid() && handleTaskQueue == []
      ensures callbacks == BroadcastAll(handlers, events) && |callbacks| == |events| * |handlers|
      ensures forall i, j :: 0 <= i < |events| && 0 <= j < |handlers| ==>
                0 <= Position(i, j, |handlers|) < |callbacks| &&
                callbacks[Position(i, j, |handlers|)] == Callback(handlers[j], events[i])
    {
      while handleTaskQueue != []
        invariant Valid()
        decreases |handleTaskQueue|
      {
        HandleNetTask();
      }
      assert events[..|events|] == events;
      DirectOrder(handlers, events);
    }
  }

  class NetworkManager {
    const dispatcher: Dispatcher

    var maxNetId: int
    var freeNetIdList: seq<NetId>
    var netIdToEndpoint: map<NetId, Endpoint>
    var endpointToNetId: map<Key, NetId>
    var netIdToAccept: map<NetId, Sock>
    var netIdToConnect: map<NetId, Sock>
    const packager: NetworkPackagerFixHead

    ghost function Tables(): Net
      reads this, packager
    {
      Net(maxNetId, freeNetIdList, netIdToEndpoint, endpointToNetId, netIdToAccept, netIdToConnect, packager.parts, [])
    }

    ghost function Table(): Net
      reads this, packager, dispatcher
    {
      Tables().(events := dispatcher.events)
    }

    constructor (d: Dispatcher)
      requires d.events == []
      ensures dispatcher == d && fresh(packager) && fresh(packager.Repr) && packager.Valid() && Table() == NEW_NET
    {
      dispatcher := d;
      packager := new NetworkPackagerFixHead();
      maxNetId, freeNetIdList, netIdToEndpoint, endpointToNetId := 0, [], map[], map[];
      netIdToAccept, netIdToConnect := map[], map[];
    }

    method TakeNetID() returns (id: NetId)
      modifies this`maxNetId, this`freeNetIdList
      ensures (id, Table()) == GetFreeNetID(old(Table())) && id == old(NextId())
    {
      if freeNetIdList != [] {
        id := freeNetIdList[|freeNetIdList| - 1];
        freeNetIdList := freeNetIdList[..|freeNetIdList| - 1];
      } else {
        id := maxNetId + 1;
        maxNetId := id;
      }
    }

    method AcceptEnters(id: NetId, e: Endpoint, acceptList: seq<Listener>)
      modifies this`netIdToAccept, this`netIdToEndpoint, this`endpointToNetId
      ensures Tables() == EnterAny(old(Tables()), Acceptor, id, e, LastListener(acceptList, e))
      ensures (forall j :: !Listens(acceptList, e, j)) ==> SameEntries(old(Tables()))
      ensures forall j :: Listens(acceptList, e, j) ==> EnteredAcceptor(old(Tables()), id, e, acceptList[j].sock)
    {
      LastListenerIs(acceptList, e);
      var i := 0;
      while i < |acceptList|
        invariant 0 <= i <= |acceptList|
        invariant Tables() == EnterAny(old(Tables()), Acceptor, id, e, LastListener(acceptList[..i], e))
      {
        var accept := acceptList[i];
        NextListener(acceptList, e, i);
        EnterAgain(old(Tables()), Acceptor, id, e, LastListener(acceptList[..i], e), accept.sock);
        if accept.CheckOnHandle(e.remoteIp, e.remotePort) {
          netIdToAccept := netIdToAccept[id := accept.sock];
          netIdToEndpoint := netIdToEndpoint[id := e];
          endpointToNetId := endpointToNetId[KeyOf(e) := id];
        }
        i := i + 1;
      }
      assert acceptList[..i] == acceptList;
    }

    method OnAccept(e: Endpoint, acceptList: seq<Listener>)
      requires dispatcher.Valid()
      modifies this, dispatcher
      ensures dispatcher.Valid() && Table() == OpenStep(old(Table()), Acceptor, e, LastListener(acceptList, e))
      ensures dispatcher.events == old(dispatcher.events) + [Accepted(e, old(NextId()))]
      ensures (forall j :: !Listens(acceptList, e, j)) ==> SameEntries(old(Tables()))
      ensures forall j :: Listens(acceptList, e, j) ==>
                && EnteredAcceptor(old(Tables()), old(NextId()), e, acceptList[j].sock)
                && WritesGoTo(old(NextId()), Acceptor, acceptList[j].sock)
    {
      var id := AcceptorId(e, acceptList);
      dispatcher.Show(Accepted(e, id));
      if id in netIdToAccept { AcceptorWrites(id); }
    }

    /** The tables of a new accept, before the handlers hear of it. */
    method AcceptorId(e: Endpoint, acceptList: seq<Listener>) returns (id: NetId)
      modifies this
      ensures id == old(NextId())
      ensures Tables() == EnterAny(GetFreeNetID(old(Tables())).1, Acceptor, id, e, LastListener(acceptList, e))
      ensures id == GetFreeNetID(old(Tables())).0
      ensures (forall j :: !Listens(acceptList, e, j)) ==> SameEntries(old(Tables()))
      ensures forall j :: Listens(acceptList, e, j) ==> EnteredAcceptor(old(Tables()), id, e, acceptList[j].sock)
    {
      id := TakeNetID();
      AcceptEnters(id, e, acceptList);
    }

    /** The id that the next opening hands out. */
    function NextId(): NetId
      reads this
    {
      if freeNetIdList == [] then maxNetId + 1 else freeNetIdList[|freeNetIdList| - 1]
    }

    /** The entries of a new id, and nothing else changed. */
    ghost predicate EnteredAcceptor(n: Net, id: NetId, e: Endpoint, s: Sock)
      reads this
    {
      && netIdToAccept == n.accepts[id := s] && netIdToConnect == n.connects
      && netIdToEndpoint == n.endpoints[id := e] && endpointToNetId == n.ids[KeyOf(e) := id]
    }

    ghost predicate EnteredConnector(n: Net, id: NetId, e: Endpoint, s: Sock)
      reads this
    {
      && netIdToAccept == n.accepts && netIdToConnect == n.connects[id := s]
      && netIdToEndpoint == n.endpoints[id := e] && endpointToNetId == n.ids[KeyOf(e) := id]
    }

    ghost predicate SameEntries(n: Net)
      reads this
    {
      && netIdToAccept == n.accepts && netIdToConnect == n.connects
      && netIdToEndpoint == n.endpoints && endpointToNetId == n.ids
    }

    method ConnectEnters(id: NetId, e: Endpoint, connectList: seq<Dialer>)
      modifies this`netIdToConnect, this`netIdToEndpoint, this`endpointToNetId
      ensures Tables() == EnterAny(old(Tables()), Connector, id, e, LastDialer(connectList, e))
      ensures (forall j :: !Dialled(connectList, e, j)) ==> SameEntries(old(Tables()))
      ensures forall j :: Dialled(connectList, e, j) ==> EnteredConnector(old(Tables()), id, e, connectList[j].sock)
    {
      LastDialerIs(connectList, e);
      var i := 0;
      while i < |connectList|
        invariant 0 <= i <= |connectList|
        invariant Tables() == EnterAny(old(Tables()), Connector, id, e, LastDialer(connectList[..i], e))
      {
        var connect := connectList[i];
        NextDialer(connectList, e, i);
        EnterAgain(old(Tables()), Connector, id, e, LastDialer(connectList[..i], e), connect.sock);
        if connect.CheckOnHandle(e.remoteIp, e.remotePort) {
          netIdToConnect := netIdToConnect[id := connect.sock];
          netIdToEndpoint := netIdToEndpoint[id := e];
          endpointToNetId := endpointToNetId[KeyOf(e) := id];
        }
        i := i + 1;
      }
      assert connectList[..i] == connectList;
    }

    method OnConnect(e: Endpoint, connectList: seq<Dialer>)
      requires dispatcher.Valid()
      modifies this, dispatcher
      ensures dispatcher.Valid() && Table() == OpenStep(old(Table()), Connector, e, LastDialer(connectList, e))
      ensures dispatcher.events == old(dispatcher.events) + [Connected(e, old(NextId()))]
      ensures (forall j :: !Dialled(connectList, e, j)) ==> SameEntries(old(Tables()))
      ensures forall j :: Dialled(connectList, e, j) ==>
                && EnteredConnector(old(Tables()), old(NextId()), e, connectList[j].sock)
                && WritesGoTo(old(NextId()), Connector, connectList[j].sock)
    {
      var id := ConnectorId(e, connectList);
      dispatcher.Show(Connected(e, id));
      if id in netIdToConnect { ConnectorWrites(id); }
    }

    /** The tables of a new connect, before the handlers hear of it. */
    method ConnectorId(e: Endpoint, connectList: seq<Dialer>) returns (id: NetId)
      modifies this
      ensures id == old(NextId())
      ensures Tables() == EnterAny(GetFreeNetID(old(Tables())).1, Connector, id, e, LastDialer(connectList, e))
      ensures id == GetFreeNetID(old(Tables())).0
      ensures (forall j :: !Dialled(connectList, e, j)) ==> SameEntries(old(Tables()))
      ensures forall j :: Dialled(connectList, e, j) ==> EnteredConnector(old(Tables()), id, e, connectList[j].sock)
    {
      id := TakeNetID();
      ConnectEnters(id, e, connectList);
    }

    method OnRecvPackage(id: NetId, data: Body)
      requires dispatcher.Valid() && (dispatcher.singleThreadHandleMode ==> |data| <= TASK_CAPACITY)
      modifies dispatcher
      ensures dispatcher.Valid() && dispatcher.events == old(dispatcher.events) + Packages(id, [data])
      ensures id > 0 && data != [] ==> dispatcher.events == old(dispatcher.events) + [Event.Received(id, data)]
      ensures id <= 0 || data == [] ==> dispatcher.events == old(dispatcher.events)
    {
      assert [data][1..] == [];
      if id <= 0 || |data| <= 0 { return; }
      dispatcher.Show(Event.Received(id, data));
    }

    /** One call of `OnRecvPackage` for every complete body. */
    method PassOn(id: NetId, out: seq<Body>)
      requires dispatcher.Valid() && (dispatcher.singleThreadHandleMode ==> AllWithin(out, TASK_CAPACITY))
      modifies dispatcher
      ensures dispatcher.Valid() && dispatcher.events == old(dispatcher.events) + Packages(id, out)
    {
      var i := 0;
      while i < |out|
        invariant 0 <= i <= |out|
        invariant dispatcher.Valid() && dispatcher.events == old(dispatcher.events) + Packages(id, out[..i])
      {
        OnRecvPackage(id, out[i]);
        NextPackage(old(dispatcher.events), id, out, i);
        i := i + 1;
      }
      assert out[..i] == out;
    }

    /** The packager reports the bodies to `OnRecvPackage`. In single-thread mode each has
        to fit the array of a task. */
    method OnRecv(e: Endpoint, data: seq<byte>)
      requires dispatcher.Valid() && packager.Valid() && RecvDefined(Table(), e, data)
      requires dispatcher.singleThreadHandleMode && KeyOf(e) in endpointToNetId ==>
                 Within(PartOf(packager.parts, endpointToNetId[KeyOf(e)]) + data, TASK_CAPACITY)
      modifies dispatcher, packager`buffers, packager`parts, packager`Repr, packager.Repr
      ensures packager.Valid() && fresh(packager.Repr - old(packager.Repr))
      ensures dispatcher.Valid() && Table() == RecvStep(old(Table()), e, data)
    {
      if KeyOf(e) !in endpointToNetId { return; }
      var id := endpointToNetId[KeyOf(e)];
      var out := Unpack(id, data);
      ReceivedTable(old(Table()), e, data, packager.parts, out);
      PassOn(id, out);
    }

    method Unpack(id: NetId, data: seq<byte>) returns (out: seq<Body>)
      requires packager.Valid() && TakesChunk(PartOf(packager.parts, id), data)
      modifies packager`buffers, packager`parts, packager`Repr, packager.Repr
      ensures packager.Valid() && fresh(packager.Repr - old(packager.Repr))
      ensures Unpacked(old(packager.parts), id, data, packager.parts, out)
      ensures Within(PartOf(old(packager.parts), id) + data, TASK_CAPACITY) ==> AllWithin(out, TASK_CAPACITY)
    {
      TakenChunk(PartOf(packager.parts, id), data);
      out := packager.UnPack(id, data);
      UnpackedWithin(old(packager.parts), id, data, packager.parts, out);
    }

    method OnDisconnect(e: Endpoint)
      requires dispatcher.Valid()
      modifies this, dispatcher
      ensures dispatcher.Valid() && Table() == CloseStep(old(Table()), e)
      ensures KeyOf(e) !in old(endpointToNetId) ==>
                SameEntries(old(Tables())) && dispatcher.events == old(dispatcher.events)
      ensures KeyOf(e) in old(endpointToNetId) ==>
                var id := old(endpointToNetId)[KeyOf(e)];
                && id !in netIdToAccept && id !in netIdToConnect && id !in netIdToEndpoint
                && KeyOf(e) !in endpointToNetId && freeNetIdList == old(freeNetIdList) + [id]
                && dispatcher.events == old(dispatcher.events) + [Disconnected(id)]
    {
      if KeyOf(e) !in endpointToNetId { return; }
      var id := endpointToNetId[KeyOf(e)];
      netIdToEndpoint := netIdToEndpoint - {id};
      endpointToNetId := endpointToNetId - {KeyOf(e)};
      netIdToAccept := netIdToAccept - {id};
      netIdToConnect := netIdToConnect - {id};
      dispatcher.Show(Disconnected(id));
      freeNetIdList := freeNetIdList + [id];
    }

    method ConnectThreadFails(e: Endpoint)
      requires dispatcher.Valid()
      modifies this, dispatcher
      ensures dispatcher.Valid() && Table() == FailStep(old(Table()), ConnectFailed(e))
      ensures dispatcher.events == old(dispatcher.events) + [ConnectFailed(e)]
    {
      dispatcher.Show(ConnectFailed(e));
    }

    method ListenThreadFails(port: int)
      requires dispatcher.Valid()
      modifies this, dispatcher
      ensures dispatcher.Valid() && Table() == FailStep(old(Table()), ListenFailed(port))
      ensures dispatcher.events == old(dispatcher.events) + [ListenFailed(port)]
    {
      dispatcher.Show(ListenFailed(port));
    }

    /** A live id gets one frame, any other id nothing; the packager hands the frame to
        `SendRaw`. */
    method Send(id: NetId, data: Body) returns (writes: seq<Write>)
      requires TableInv(Table()) && (id in netIdToEndpoint ==> Framing.Sendable(data))
      modifies packager`sent
      ensures WrittenTo(id, if id in netIdToEndpoint then Frame(data) else [], writes)
    {
      if id !in netIdToEndpoint { return []; }
      packager.PackAndSend(id, data);
      writes := SendRaw(id, packager.sent[|packager.sent| - 1].bytes);
    }

    /** Exactly one write of the bytes, on the socket of the id, or none at all. */
    predicate WrittenTo(id: NetId, data: seq<byte>, writes: seq<Write>)
      reads this
    {
      && (id !in netIdToEndpoint ==> writes == [])
      && (id in netIdToEndpoint ==> |writes| == 1 && writes[0].data == data)
      && (id in netIdToAccept ==> writes == [Write(Acceptor, netIdToAccept[id], data)])
      && (id in netIdToConnect ==> writes == [Write(Connector, netIdToConnect[id], data)])
    }

    /** Whatever is sent under the id is written to this socket, once. */
    ghost predicate WritesGoTo(id: NetId, role: Role, s: Sock)
      reads this
    {
      forall d, writes :: WrittenTo(id, d, writes) ==> writes == [Write(role, s, d)]
    }

    lemma AcceptorWrites(id: NetId)
      requires id in netIdToAccept
      ensures WritesGoTo(id, Acceptor, netIdToAccept[id])
    {
    }

    lemma ConnectorWrites(id: NetId)
      requires id in netIdToConnect
      ensures WritesGoTo(id, Connector, netIdToConnect[id])
    {
    }

    /** A live id leads to exactly one socket, any other id to none. */
    method SendRaw(id: NetId, data: seq<byte>) returns (writes: seq<Write>)
      requires TableInv(Table())
      ensures WrittenTo(id, data, writes)
    {
      writes := [];
      assert id in netIdToAccept.Keys + netIdToConnect.Keys <==> id in netIdToEndpoint.Keys;
      if id !in netIdToEndpoint { return; }
      if id in netIdToAccept { writes := writes + [Write(Acceptor, netIdToAccept[id], data)]; }
      if id in netIdToConnect { writes := writes + [Write(Connector, netIdToConnect[id], data)]; }
    }
  }

  /** A body of one byte more than a task record holds arrives like any other. */
  lemma LongBodyArrives(m: Body)
    requires |m| == 4097
    ensures Scans(Frame(m)) && Feed([], Frame(m)) == Fed([], [m])
    ensures !Within(Frame(m), 4096) && !Fits(Event.Received(1, m)) && Fits(Event.Received(1, m[1..]))
  {
    assert Frame(m) + [] == Frame(m) && [] + Frame(m) == Frame(m);
    FeedWholeFrame(m, []);
    FeedDefinedIffAccepts([], Frame(m));
    WithinFrame(m, [], TASK_CAPACITY);
  }

  /** What the packager did, as a step of the table. */
  lemma ReceivedTable(n: Net, e: Endpoint, data: seq<byte>, parts: Parts, out: seq<Body>)
    requires RecvDefined(n, e, data) && KeyOf(e) in n.ids && Unpacked(n.parts, n.ids[KeyOf(e)], data, parts, out)
    ensures RecvStep(n, e, data) == n.(parts := parts, events := n.events + Packages(n.ids[KeyOf(e)], out))
  {
    WithinCapacity(PartOf(n.parts, n.ids[KeyOf(e)]), data);
  }

  predicate TakesChunk(p: seq<byte>, data: seq<byte>) {
    data != [] && Reachable(p) && Scans(p + data)
  }

  lemma TakenChunk(p: seq<byte>, data: seq<byte>)
    requires TakesChunk(p, data)
    ensures Accepts(p, data)
  {
  }

  lemma UnpackedWithin(before: Parts, id: NetId, data: seq<byte>, after: Parts, out: seq<Body>)
    requires TakesChunk(PartOf(before, id), data) && Unpacked(before, id, data, after, out)
    ensures Within(PartOf(before, id) + data, TASK_CAPACITY) ==> AllWithin(out, TASK_CAPACITY)
  {
    WithinCapacity(PartOf(before, id), data);
  }

  lemma WithinCapacity(p: seq<byte>, data: seq<byte>)
    requires Reachable(p) && data != [] && Scans(p + data)
    ensures Feed(p, data).Fed?
    ensures Within(p + data, TASK_CAPACITY) ==> AllWithin(Feed(p, data).out, TASK_CAPACITY)
  {
    FeedDefinedIffAccepts(p, data);
    BodiesWithinIff(p, data, TASK_CAPACITY);
  }

  lemma NextPackage(before: seq<Event>, id: NetId, out: seq<Body>, i: nat)
    requires i < |out|
    ensures before + Packages(id, out[..i]) + Packages(id, [out[i]]) == before + Packages(id, out[..i + 1])
  {
    assert out[..i + 1] == out[..i] + [out[i]];
    PackagesConcat(id, out[..i], [out[i]]);
  }

  lemma {:induction false} PackagesConcat(id: NetId, a: seq<Body>, b: seq<Body>)
    ensures Packages(id, a + b) == Packages(id, a) + Packages(id, b)
  {
    if a == [] {
      assert a + b == b;
    } else {
      PackagesConcat(id, a[1..], b);
      assert (a + b)[0] == a[0] && (a + b)[1..] == a[1..] + b;
      Assoc(if id > 0 && a[0] != [] then [Event.Received(id, a[0])] else [], Packages(id, a[1..]), Packages(id, b));
    }
  }
}
