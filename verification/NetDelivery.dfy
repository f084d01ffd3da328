/** How events reach the handlers. Directly, or, in single-thread mode, through task
    records kept in the slots of a memory pool and drained by `HandleNetTask`
    (elegance/network/network_manager.cpp). */
module NetDelivery {
  import opened Bytes
  import opened Pools
  import opened NetTable

  /** The size of the `data` array of a task. */
  const TASK_CAPACITY := 1024 * 4

  datatype TaskType = ON_CONNECT | ON_CONNECT_FAIL | ON_LISTEN_FAIL | ON_ACCEPT | ON_DISCONNECT | ON_RECV

  /** `NetworkHandleTask`. The constructor does not touch the `data` array. */
  datatype Task = Task(taskType: TaskType, netId: int, remoteIp: string, remotePort: int, localPort: int,
                       data: seq<byte>, length: int)

  predicate Fits(e: Event) {
    e.Received? ==> |e.body| <= TASK_CAPACITY
  }

  /** Fills a record in place; `data` is what the slot held before. */
  function Fill(data: seq<byte>, e: Event): (t: Task)
    requires |data| == TASK_CAPACITY && Fits(e)
    ensures |t.data| == TASK_CAPACITY
  {
    match e
    case Accepted(p, id) => Task(ON_ACCEPT, id, p.remoteIp, p.remotePort, p.localPort, data, 0)
    case Connected(p, id) => Task(ON_CONNECT, id, p.remoteIp, p.remotePort, p.localPort, data, 0)
    case ConnectFailed(p) => Task(ON_CONNECT_FAIL, 0, p.remoteIp, p.remotePort, p.localPort, data, 0)
    case ListenFailed(port) => Task(ON_LISTEN_FAIL, 0, "", 0, port, data, 0)
    case Received(id, body) => Task(ON_RECV, id, "", 0, 0, body + data[|body|..], |body|)
    case Disconnected(id) => Task(ON_DISCONNECT, id, "", 0, 0, data, 0)
  }

  predicate Readable(t: Task) {
    0 <= t.length <= |t.data|
  }

  /** What `HandleNetTask` passes to the handlers for a record. */
  function Shown(t: Task): Event
    requires Readable(t)
  {
    var p := Endpoint(t.remoteIp, t.remotePort, t.localPort);
    match t.taskType
    case ON_CONNECT => Connected(p, t.netId)
    case ON_CONNECT_FAIL => ConnectFailed(p)
    case ON_LISTEN_FAIL => ListenFailed(t.localPort)
    case ON_RECV => Event.Received(t.netId, t.data[..t.length])
    case ON_ACCEPT => Accepted(p, t.netId)
    case ON_DISCONNECT => Disconnected(t.netId)
  }

  lemma ShownOfFill(data: seq<byte>, e: Event)
    requires |data| == TASK_CAPACITY && Fits(e)
    ensures Readable(Fill(data, e)) && Shown(Fill(data, e)) == e
  {
    if e.Received? { assert (e.body + data[|e.body|..])[..|e.body|] == e.body; }
  }

  // ----- callbacks -----

  type Handler = int
  datatype Callback = Callback(handler: Handler, event: Event)

  function Broadcast(handlers: seq<Handler>, e: Event): (r: seq<Callback>)
    ensures |r| == |handlers|
  {
    seq(|handlers|, i requires 0 <= i < |handlers| => Callback(handlers[i], e))
  }

  /** The callbacks of direct mode for a list of events. */
  function BroadcastAll(handlers: seq<Handler>, events: seq<Event>): seq<Callback> {
    if events == [] then []
    else BroadcastAll(handlers, events[..|events| - 1]) + Broadcast(handlers, events[|events| - 1])
  }

  /** Where the callback of handler `j` for event `i` stands. */
  function Position(i: int, j: int, handlers: nat): int {
    i * handlers + j
  }

  /** Direct mode, without recursion: event by event, and for each event handler by handler. */
  lemma {:induction false} DirectOrder(handlers: seq<Handler>, events: seq<Event>)
    ensures |BroadcastAll(handlers, events)| == |events| * |handlers|
    ensures forall i, j :: 0 <= i < |events| && 0 <= j < |handlers| ==>
              && 0 <= Position(i, j, |handlers|) < |BroadcastAll(handlers, events)|
              && BroadcastAll(handlers, events)[Position(i, j, |handlers|)] == Callback(handlers[j], events[i])
  {
    if events != [] {
      var n, k := |events| - 1, |handlers|;
      var init := events[..n];
      DirectOrder(handlers, init);
      assert |events| * k == n * k + k;
      forall i, j | 0 <= i < |events| && 0 <= j < k
        ensures 0 <= Position(i, j, k) < |events| * k
        ensures BroadcastAll(handlers, events)[Position(i, j, k)] == Callback(handlers[j], events[i])
      {
        if i < n {
          SlotsSpread(i, n, if k > 0 then k else 1);
          assert events[i] == init[i];
        }
      }
    }
  }

  // ----- single-thread mode -----

  datatype Delivery = Delivery(pool: Pool, memory: map<Addr, Task>, queue: seq<Addr>, callbacks: seq<Callback>)

  function OldData(memory: map<Addr, Task>, a: Addr): (d: seq<byte>)
    ensures |d| == TASK_CAPACITY
  {
    if a in memory && |memory[a].data| == TASK_CAPACITY then memory[a].data else seq(TASK_CAPACITY, _ => 0)
  }

  function Enqueue(d: Delivery, e: Event, base: Addr): (r: Delivery)
    requires d.pool.increaseNum > 0 && Fits(e)
  {
    var (pool, slot) := AllocStep(d.pool, base);
    d.(pool := pool, memory := d.memory[slot := Fill(OldData(d.memory, slot), e)], queue := d.queue + [slot])
  }

  function HandleNetTask(d: Delivery, handlers: seq<Handler>): (r: Delivery)
    requires d.queue != [] ==> d.queue[0] in d.memory && Readable(d.memory[d.queue[0]])
  {
    if d.queue == [] then d
    else
      var slot := d.queue[0];
      d.(pool := FreeStep(d.pool, slot), queue := d.queue[1..],
         callbacks := d.callbacks + Broadcast(handlers, Shown(d.memory[slot])))
  }

  /** The events that the queued records still hold. */
  function Waiting(d: Delivery): (r: seq<Event>)
    requires forall i :: 0 <= i < |d.queue| ==> d.queue[i] in d.memory && Readable(d.memory[d.queue[i]])
    ensures |r| == |d.queue|
  {
    seq(|d.queue|, i requires 0 <= i < |d.queue| => Shown(d.memory[d.queue[i]]))
  }

  ghost function Slots(queue: seq<Addr>): set<Addr> {
    set a | a in queue
  }

  /** No slot is queued twice, and no queued slot is on the pool's free stack. */
  ghost predicate Sound(d: Delivery) {
    && NoRepeats(d.queue)
    && PoolInv(d.pool, Slots(d.queue))
    && (forall i :: 0 <= i < |d.queue| ==> d.queue[i] in d.memory && Readable(d.memory[d.queue[i]]))
  }

  /** What has been called plus what is waiting is what direct mode would have called. */
  ghost predicate Refines(d: Delivery, handlers: seq<Handler>, events: seq<Event>) {
    && Sound(d)
    && |events| >= |d.queue|
    && Waiting(d) == events[|events| - |d.queue|..]
    && d.callbacks == BroadcastAll(handlers, events[..|events| - |d.queue|])
  }

  lemma EnqueueSound(d: Delivery, e: Event, base: Addr)
    requires Sound(d) && Fits(e) && NewChunkOk(d.pool, base)
    ensures var d' := Enqueue(d, e, base); Sound(d') && Waiting(d') == Waiting(d) + [e]
  {
    AllocKeepsInv(d.pool, Slots(d.queue), base);
    var (_, slot) := AllocStep(d.pool, base);
    var d' := Enqueue(d, e, base);
    ShownOfFill(OldData(d.memory, slot), e);
    assert slot !in d.queue;
    assert Slots(d'.queue) == Slots(d.queue) + {slot};
    forall i | 0 <= i < |d'.queue|
      ensures d'.queue[i] in d'.memory && Readable(d'.memory[d'.queue[i]])
      ensures i < |d.queue| ==> d'.memory[d'.queue[i]] == d.memory[d.queue[i]]
    {
      if i < |d.queue| { assert d.queue[i] != slot; }
    }
    assert Waiting(d') == Waiting(d) + [e];
  }

  lemma HandleSound(d: Delivery, handlers: seq<Handler>)
    requires Sound(d) && d.queue != []
    ensures Sound(HandleNetTask(d, handlers)) && Waiting(HandleNetTask(d, handlers)) == Waiting(d)[1..]
  {
    var slot := d.queue[0];
    var d' := HandleNetTask(d, handlers);
    assert slot in Slots(d.queue);
    FreeKeepsInvIffLive(d.pool, Slots(d.queue), slot);
    SlotsOfTail(d.queue);
    assert forall i :: 0 <= i < |d'.queue| ==> d'.queue[i] == d.queue[i + 1];
  }

  lemma SlotsOfTail(queue: seq<Addr>)
    requires NoRepeats(queue) && queue != []
    ensures Slots(queue[1..]) == Slots(queue) - {queue[0]} && NoRepeats(queue[1..])
  {
    assert queue == [queue[0]] + queue[1..];
  }

  lemma EnqueueRefines(d: Delivery, handlers: seq<Handler>, events: seq<Event>, e: Event, base: Addr)
    requires Refines(d, handlers, events) && Fits(e) && NewChunkOk(d.pool, base)
    ensures Refines(Enqueue(d, e, base), handlers, events + [e])
  {
    EnqueueSound(d, e, base);
    var k := |events| - |d.queue|;
    assert (events + [e])[k..] == events[k..] + [e];
    assert (events + [e])[..k] == events[..k];
  }

  lemma HandleRefines(d: Delivery, handlers: seq<Handler>, events: seq<Event>)
    requires Refines(d, handlers, events)
    ensures Refines(HandleNetTask(d, handlers), handlers, events)
  {
    if d.queue != [] {
      HandleSound(d, handlers);
      var k := |events| - |d.queue|;
      assert Waiting(d)[0] == events[k];
      assert Waiting(d)[1..] == events[k + 1..];
      assert events[..k + 1][..k] == events[..k];
      assert events[..k + 1][k] == events[k];
    }
  }

  // ----- every interleaving of arrivals and draining -----

  datatype Move = Arrive(event: Event, base: Addr) | Drain

  function Events(moves: seq<Move>): seq<Event> {
    if moves == [] then []
    else
      var m := moves[|moves| - 1];
      Events(moves[..|moves| - 1]) + if m.Arrive? then [m.event] else []
  }

  /** `d` is reached from an empty queue by `moves`; payloads fit their record and `new`
      never returns memory in use. */
  ghost predicate Reached(d: Delivery, itemLen: int, increaseNum: int, handlers: seq<Handler>, moves: seq<Move>)
    decreases |moves|
  {
    if moves == [] then d == Delivery(Pool(itemLen, increaseNum, [], []), map[], [], [])
    else
      var m := moves[|moves| - 1];
      exists d0 :: Reached(d0, itemLen, increaseNum, handlers, moves[..|moves| - 1]) && Moved(d0, handlers, m, d)
  }

  ghost predicate Moved(d: Delivery, handlers: seq<Handler>, m: Move, d': Delivery) {
    match m
    case Arrive(e, base) =>
      d.pool.increaseNum > 0 && Fits(e) && NewChunkOk(d.pool, base) && d' == Enqueue(d, e, base)
    case Drain =>
      (d.queue != [] ==> d.queue[0] in d.memory && Readable(d.memory[d.queue[0]])) && d' == HandleNetTask(d, handlers)
  }

  lemma {:induction false} ReachedRefines(d: Delivery, itemLen: int, increaseNum: int, handlers: seq<Handler>,
                                          moves: seq<Move>)
    requires itemLen > 0 && increaseNum > 0 && Reached(d, itemLen, increaseNum, handlers, moves)
    ensures Refines(d, handlers, Events(moves))
    decreases |moves|
  {
    if moves != [] {
      var m, before := moves[|moves| - 1], moves[..|moves| - 1];
      var d0 :| Reached(d0, itemLen, increaseNum, handlers, before) && Moved(d0, handlers, m, d);
      ReachedRefines(d0, itemLen, increaseNum, handlers, before);
      match m {
        case Arrive(e, base) => EnqueueRefines(d0, handlers, Events(before), e, base);
        case Drain =>
          HandleRefines(d0, handlers, Events(before));
          assert Events(moves) == Events(before);
      }
    } else {
      assert Slots(d.queue) == {};
    }
  }

  /** Queued delivery refines direct delivery: at any moment the callbacks made so far are
      a prefix of those of direct mode, and when the queue is empty they are all of them,
      with the same payloads, for the same handlers, in the same order. */
  lemma QueuedRefinesDirect(d: Delivery, itemLen: int, increaseNum: int, handlers: seq<Handler>, moves: seq<Move>)
    requires itemLen > 0 && increaseNum > 0 && Reached(d, itemLen, increaseNum, handlers, moves)
    ensures d.callbacks <= BroadcastAll(handlers, Events(moves))
    ensures d.queue == [] ==> d.callbacks == BroadcastAll(handlers, Events(moves))
    ensures forall i :: 0 <= i < |d.queue| ==> d.queue[i] !in d.pool.free
  {
    ReachedRefines(d, itemLen, increaseNum, handlers, moves);
    var events := Events(moves);
    var k := |events| - |d.queue|;
    BroadcastPrefix(handlers, events, k);
    assert d.queue == [] ==> events[..k] == events;
    QueuedNotFree(d);
  }

  lemma QueuedNotFree(d: Delivery)
    requires Sound(d)
    ensures forall i :: 0 <= i < |d.queue| ==> d.queue[i] !in d.pool.free
  {
    forall i | 0 <= i < |d.queue| ensures d.queue[i] !in d.pool.free {
      var a := d.queue[i];
      assert a in Slots(d.queue);
      assert forall b :: b in d.pool.free ==> b !in Slots(d.queue);
    }
  }

  lemma {:induction false} BroadcastPrefix(handlers: seq<Handler>, events: seq<Event>, k: nat)
    requires k <= |events|
    ensures BroadcastAll(handlers, events[..k]) <= BroadcastAll(handlers, events)
  {
    if k == |events| {
      assert events[..k] == events;
    } else {
      var before := events[..|events| - 1];
      BroadcastPrefix(handlers, before, k);
      assert before[..k] == events[..k];
    }
  }
}
