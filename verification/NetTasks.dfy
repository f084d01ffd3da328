/** Single-thread mode step by step (elegance/network/network_manager.cpp). The mutex guards
    only the queue: a network thread reserves a record, fills it and pushes it, a draining
    thread pops one, calls the handlers in turn and frees it, and all of these interleave. */
module NetTasks {
  import opened Bytes
  import opened Pools
  import opened NetTable
  import opened NetDelivery

  type Thread = nat

  datatype Writer = Writer(slot: Addr, event: Event, filled: bool)

  /** `index` numbers the push that the record came from; no step looks at it. */
  datatype Reader = Reader(slot: Addr, index: nat, called: nat)

  datatype Owner = ByWriter(t: Thread) | InQueue | ByReader(t: Thread)

  /** `pushed` and `owner` record what has happened; no step looks at them. */
  datatype Tasks = Tasks(
    pool: Pool,
    memory: map<Addr, Task>,
    writers: map<Thread, Writer>,
    queue: seq<Addr>,
    readers: map<Thread, Reader>,
    callbacks: seq<Callback>,
    pushed: seq<Event>,
    owner: map<Addr, Owner>)

  function NewTasks(itemLen: int, increaseNum: int): Tasks {
    Tasks(Pool(itemLen, increaseNum, [], []), map[], map[], [], map[], [], [], map[])
  }

  datatype Step =
    | Reserve(t: Thread, event: Event, base: Addr)
    | FillIn(t: Thread)
    | Push(t: Thread)
    | Pop(t: Thread)
    | Call(t: Thread)
    | Release(t: Thread)

  /** `limit` bounds the threads inside `HandleNetTask` at a time. */
  ghost predicate Enabled(limit: nat, handlers: seq<Handler>, s: Tasks, step: Step) {
    match step
    case Reserve(t, e, base) => t !in s.writers && Fits(e) && s.pool.increaseNum > 0 && NewChunkOk(s.pool, base)
    case FillIn(t) => t in s.writers && !s.writers[t].filled && Fits(s.writers[t].event)
    case Push(t) => t in s.writers && s.writers[t].filled
    case Pop(t) => t !in s.readers && |s.readers| < limit && s.queue != []
    case Call(t) =>
      && t in s.readers && s.readers[t].called < |handlers|
      && s.readers[t].slot in s.memory && Readable(s.memory[s.readers[t].slot])
    case Release(t) => t in s.readers && s.readers[t].called >= |handlers|
  }

  ghost function Apply(limit: nat, handlers: seq<Handler>, s: Tasks, step: Step): Tasks
    requires Enabled(limit, handlers, s, step)
  {
    match step
    case Reserve(t, e, base) =>
      var (pool, slot) := AllocStep(s.pool, base);
      s.(pool := pool, writers := s.writers[t := Writer(slot, e, false)], owner := s.owner[slot := ByWriter(t)])
    case FillIn(t) =>
      var w := s.writers[t];
      s.(memory := s.memory[w.slot := Fill(OldData(s.memory, w.slot), w.event)],
         writers := s.writers[t := w.(filled := true)])
    case Push(t) =>
      var w := s.writers[t];
      s.(writers := s.writers - {t}, queue := s.queue + [w.slot], pushed := s.pushed + [w.event],
         owner := s.owner[w.slot := InQueue])
    case Pop(t) =>
      var slot := s.queue[0];
      s.(queue := s.queue[1..], readers := s.readers[t := Reader(slot, Popped(s), 0)],
         owner := s.owner[slot := ByReader(t)])
    case Call(t) =>
      var r := s.readers[t];
      s.(callbacks := s.callbacks + [Callback(handlers[r.called], Shown(s.memory[r.slot]))],
         readers := s.readers[t := r.(called := r.called + 1)])
    case Release(t) =>
      var slot := s.readers[t].slot;
      s.(pool := FreeStep(s.pool, slot), readers := s.readers - {t}, owner := s.owner - {slot})
  }

  /** How many records have been popped. */
  function Popped(s: Tasks): nat {
    if |s.queue| <= |s.pushed| then |s.pushed| - |s.queue| else 0
  }

  ghost function Run(limit: nat, handlers: seq<Handler>, s: Tasks, steps: seq<Step>): (r: Option<Tasks>)
    decreases |steps|
  {
    if steps == [] then Some(s)
    else if !Enabled(limit, handlers, s, steps[0]) then None
    else Run(limit, handlers, Apply(limit, handlers, s, steps[0]), steps[1..])
  }

  // ----- who owns a record, and what it holds -----

  predicate Holds(memory: map<Addr, Task>, a: Addr, e: Event) {
    a in memory && Readable(memory[a]) && Shown(memory[a]) == e
  }

  predicate OwnedBy(s: Tasks, a: Addr, o: Owner) {
    a in s.owner && s.owner[a] == o
  }

  ghost predicate WritersOk(s: Tasks) {
    forall t :: t in s.writers ==>
      var w := s.writers[t];
      OwnedBy(s, w.slot, ByWriter(t)) && Fits(w.event) && (w.filled ==> Holds(s.memory, w.slot, w.event))
  }

  ghost predicate QueueOk(s: Tasks) {
    && NoRepeats(s.queue) && |s.queue| <= |s.pushed|
    && (forall i :: 0 <= i < |s.queue| ==>
          OwnedBy(s, s.queue[i], InQueue) && Holds(s.memory, s.queue[i], s.pushed[Popped(s) + i]))
  }

  ghost predicate ReadersOk(s: Tasks) {
    forall t :: t in s.readers ==>
      var r := s.readers[t];
      OwnedBy(s, r.slot, ByReader(t)) && r.index < Popped(s) <= |s.pushed| && Holds(s.memory, r.slot, s.pushed[r.index])
  }

  /** Every block taken from the pool is in one place. */
  ghost predicate OwnersOk(s: Tasks) {
    forall a :: a in s.owner ==>
      match s.owner[a]
      case ByWriter(t) => t in s.writers && s.writers[t].slot == a
      case InQueue => a in s.queue
      case ByReader(t) => t in s.readers && s.readers[t].slot == a
  }

  ghost predicate PlacesOk(s: Tasks) {
    WritersOk(s) && QueueOk(s) && ReadersOk(s) && OwnersOk(s)
  }

  ghost predicate Inv(s: Tasks) {
    PlacesOk(s) && PoolInv(s.pool, s.owner.Keys)
  }

  lemma ReserveKeeps(s: Tasks, t: Thread, e: Event, pool: Pool, slot: Addr)
    requires PlacesOk(s) && t !in s.writers && Fits(e) && slot !in s.owner
    ensures PlacesOk(s.(pool := pool, writers := s.writers[t := Writer(slot, e, false)],
                        owner := s.owner[slot := ByWriter(t)]))
  {
  }

  lemma FillKeeps(s: Tasks, t: Thread, task: Task)
    requires PlacesOk(s) && t in s.writers && Readable(task) && Shown(task) == s.writers[t].event
    ensures var w := s.writers[t];
            PlacesOk(s.(memory := s.memory[w.slot := task], writers := s.writers[t := w.(filled := true)]))
  {
  }

  lemma PushKeeps(s: Tasks, t: Thread)
    requires PlacesOk(s) && t in s.writers && s.writers[t].filled
    ensures var w := s.writers[t];
            PlacesOk(s.(writers := s.writers - {t}, queue := s.queue + [w.slot], pushed := s.pushed + [w.event],
                        owner := s.owner[w.slot := InQueue]))
  {
    assert s.writers[t].slot !in s.queue;
  }

  lemma PopKeeps(s: Tasks, t: Thread)
    requires PlacesOk(s) && t !in s.readers && s.queue != []
    ensures var slot := s.queue[0];
            PlacesOk(s.(queue := s.queue[1..], readers := s.readers[t := Reader(slot, Popped(s), 0)],
                        owner := s.owner[slot := ByReader(t)]))
  {
    var slot := s.queue[0];
    var s' := s.(queue := s.queue[1..], readers := s.readers[t := Reader(slot, Popped(s), 0)],
                 owner := s.owner[slot := ByReader(t)]);
    QueueAfterPop(s, s', t);
    assert OwnedBy(s, slot, InQueue) && Holds(s.memory, slot, s.pushed[Popped(s) + 0]);
    OwnersAfterPop(s, s', t);
  }

  lemma QueueAfterPop(s: Tasks, s': Tasks, t: Thread)
    requires QueueOk(s) && s.queue != [] && s'.queue == s.queue[1..] && s'.pushed == s.pushed && s'.memory == s.memory
    requires s'.owner == s.owner[s.queue[0] := ByReader(t)]
    ensures QueueOk(s') && Popped(s') == Popped(s) + 1
  {
    forall i | 0 <= i < |s'.queue|
      ensures OwnedBy(s', s'.queue[i], InQueue) && Holds(s'.memory, s'.queue[i], s'.pushed[Popped(s') + i])
    {
      assert s'.queue[i] == s.queue[i + 1] != s.queue[0] && Popped(s') + i == Popped(s) + (i + 1);
      assert OwnedBy(s, s.queue[i + 1], InQueue) && Holds(s.memory, s.queue[i + 1], s.pushed[Popped(s) + (i + 1)]);
    }
  }

  lemma OwnersAfterPop(s: Tasks, s': Tasks, t: Thread)
    requires OwnersOk(s) && s.queue != [] && t !in s.readers && s'.queue == s.queue[1..] && s'.writers == s.writers
    requires s'.owner == s.owner[s.queue[0] := ByReader(t)]
    requires s'.readers.Keys == s.readers.Keys + {t} && s'.readers[t].slot == s.queue[0]
    requires forall u :: u in s.readers ==> s'.readers[u] == s.readers[u]
    ensures OwnersOk(s')
  {
    assert s.queue == [s.queue[0]] + s'.queue;
  }

  lemma CallKeeps(s: Tasks, t: Thread, callbacks: seq<Callback>)
    requires PlacesOk(s) && t in s.readers
    ensures var r := s.readers[t];
            PlacesOk(s.(callbacks := callbacks, readers := s.readers[t := r.(called := r.called + 1)]))
  {
  }

  lemma ReleaseKeeps(s: Tasks, t: Thread, pool: Pool)
    requires PlacesOk(s) && t in s.readers
    ensures PlacesOk(s.(pool := pool, readers := s.readers - {t}, owner := s.owner - {s.readers[t].slot}))
  {
  }

  lemma SameOwned(limit: nat, handlers: seq<Handler>, s: Tasks, step: Step)
    requires WritersOk(s) && QueueOk(s) && Enabled(limit, handlers, s, step) && !step.Reserve? && !step.Release?
    ensures var s' := Apply(limit, handlers, s, step); s'.pool == s.pool && s'.owner.Keys == s.owner.Keys
  {
    match step {
      case FillIn(_) =>
      case Push(t) => assert OwnedBy(s, s.writers[t].slot, ByWriter(t));
      case Pop(_) => assert OwnedBy(s, s.queue[0], InQueue);
      case Call(_) =>
    }
  }

  lemma ReleasedOwned(s: Tasks, t: Thread)
    requires PlacesOk(s) && t in s.readers
    ensures s.readers[t].slot in s.owner
  {
    assert OwnedBy(s, s.readers[t].slot, ByReader(t));
  }

  lemma PoolKeeps(limit: nat, handlers: seq<Handler>, s: Tasks, step: Step)
    requires Enabled(limit, handlers, s, step) && PoolInv(s.pool, s.owner.Keys)
    requires step.Release? ==> s.readers[step.t].slot in s.owner
    requires !step.Reserve? && !step.Release? ==>
               var s' := Apply(limit, handlers, s, step); s'.pool == s.pool && s'.owner.Keys == s.owner.Keys
    ensures var s' := Apply(limit, handlers, s, step); PoolInv(s'.pool, s'.owner.Keys)
    ensures step.Reserve? ==> AllocStep(s.pool, step.base).1 !in s.owner
  {
    if step.Reserve? {
      AllocKeepsInv(s.pool, s.owner.Keys, step.base);
      var s' := Apply(limit, handlers, s, step);
      assert s'.owner.Keys == s.owner.Keys + {AllocStep(s.pool, step.base).1};
    } else if step.Release? {
      var slot, s' := s.readers[step.t].slot, Apply(limit, handlers, s, step);
      FreeKeepsInvIffLive(s.pool, s.owner.Keys, slot);
      assert s'.owner.Keys == s.owner.Keys - {slot};
    }
  }

  lemma PlacesKeep(limit: nat, handlers: seq<Handler>, s: Tasks, step: Step)
    requires PlacesOk(s) && Enabled(limit, handlers, s, step)
    requires step.Reserve? ==> AllocStep(s.pool, step.base).1 !in s.owner
    ensures PlacesOk(Apply(limit, handlers, s, step))
  {
    match step {
      case Reserve(t, e, base) => ReserveKeeps(s, t, e, AllocStep(s.pool, base).0, AllocStep(s.pool, base).1);
      case FillIn(t) => FillStepKeeps(limit, handlers, s, t);
      case Push(t) => PushKeeps(s, t);
      case Pop(t) => PopKeeps(s, t);
      case Call(t) => CallStepKeeps(limit, handlers, s, t);
      case Release(t) => ReleaseKeeps(s, t, FreeStep(s.pool, s.readers[t].slot));
    }
  }

  lemma FillStepKeeps(limit: nat, handlers: seq<Handler>, s: Tasks, t: Thread)
    requires PlacesOk(s) && Enabled(limit, handlers, s, FillIn(t))
    ensures PlacesOk(Apply(limit, handlers, s, FillIn(t)))
  {
    var w := s.writers[t];
    ShownOfFill(OldData(s.memory, w.slot), w.event);
    FillKeeps(s, t, Fill(OldData(s.memory, w.slot), w.event));
  }

  lemma CallStepKeeps(limit: nat, handlers: seq<Handler>, s: Tasks, t: Thread)
    requires PlacesOk(s) && Enabled(limit, handlers, s, Call(t))
    ensures PlacesOk(Apply(limit, handlers, s, Call(t)))
  {
    CallKeeps(s, t, Apply(limit, handlers, s, Call(t)).callbacks);
  }

  lemma StepKeepsInv(limit: nat, handlers: seq<Handler>, s: Tasks, step: Step)
    requires Inv(s) && Enabled(limit, handlers, s, step)
    ensures Inv(Apply(limit, handlers, s, step))
  {
    if step.Release? { ReleasedOwned(s, step.t); }
    else if !step.Reserve? { SameOwned(limit, handlers, s, step); }
    PoolKeeps(limit, handlers, s, step);
    PlacesKeep(limit, handlers, s, step);
  }

  lemma {:induction false} RunKeepsInv(limit: nat, handlers: seq<Handler>, s: Tasks, steps: seq<Step>)
    requires Inv(s) && Run(limit, handlers, s, steps).Some?
    ensures Inv(Run(limit, handlers, s, steps).value)
    decreases |steps|
  {
    if steps != [] {
      StepKeepsInv(limit, handlers, s, steps[0]);
      RunKeepsInv(limit, handlers, Apply(limit, handlers, s, steps[0]), steps[1..]);
    }
  }

  lemma NewTasksOk(itemLen: int, increaseNum: int)
    requires itemLen > 0 && increaseNum > 0
    ensures Inv(NewTasks(itemLen, increaseNum))
  {
    assert NewTasks(itemLen, increaseNum).owner.Keys == {};
  }

  /** With any number of draining threads: every block taken from the pool is with one
      writer, in the queue once, or with one reader; and what a queued record, or one being
      shown, holds is the event that was pushed in its place. */
  lemma RecordsStayIntact(limit: nat, handlers: seq<Handler>, itemLen: int, increaseNum: int, steps: seq<Step>)
    requires itemLen > 0 && increaseNum > 0 && Run(limit, handlers, NewTasks(itemLen, increaseNum), steps).Some?
    ensures var s := Run(limit, handlers, NewTasks(itemLen, increaseNum), steps).value;
            && PlacesOk(s) && PoolInv(s.pool, s.owner.Keys)
  {
    NewTasksOk(itemLen, increaseNum);
    RunKeepsInv(limit, handlers, NewTasks(itemLen, increaseNum), steps);
  }

  // ----- the order of the callbacks -----

  /** One reader at most; the callbacks are those of direct mode for the records popped, up
      to the handler that the reader has come to. */
  ghost predicate OrderOk(handlers: seq<Handler>, s: Tasks) {
    && Popped(s) <= |s.pushed|
    && (s.readers == map[] ==> s.callbacks == BroadcastAll(handlers, s.pushed[..Popped(s)]))
    && (forall t :: t in s.readers ==> s.readers == map[t := s.readers[t]] && ReaderAt(handlers, s, s.readers[t]))
  }

  predicate ReaderAt(handlers: seq<Handler>, s: Tasks, r: Reader) {
    && r.index + 1 == Popped(s) <= |s.pushed| && r.called <= |handlers|
    && s.callbacks == BroadcastAll(handlers, s.pushed[..r.index]) + Broadcast(handlers[..r.called], s.pushed[r.index])
  }

  lemma PushOrder(handlers: seq<Handler>, s: Tasks, s': Tasks, e: Event)
    requires OrderOk(handlers, s) && s'.pushed == s.pushed + [e] && |s'.queue| == |s.queue| + 1 <= |s'.pushed|
    requires s'.readers == s.readers && s'.callbacks == s.callbacks
    ensures OrderOk(handlers, s')
  {
    assert Popped(s') == Popped(s);
    assert forall k :: 0 <= k <= |s.pushed| ==> s'.pushed[..k] == s.pushed[..k];
  }

  lemma PopOrder(handlers: seq<Handler>, s: Tasks, s': Tasks, t: Thread, slot: Addr)
    requires OrderOk(handlers, s) && s.readers == map[] && s.queue != [] && |s.queue| <= |s.pushed|
    requires s'.pushed == s.pushed && s'.queue == s.queue[1..] && s'.callbacks == s.callbacks
    requires s'.readers == map[t := Reader(slot, Popped(s), 0)]
    ensures OrderOk(handlers, s')
  {
    assert t in s'.readers;
    assert handlers[..0] == [] && Broadcast(handlers[..0], s.pushed[Popped(s)]) == [];
  }

  lemma CallOrder(handlers: seq<Handler>, s: Tasks, s': Tasks, t: Thread)
    requires OrderOk(handlers, s) && t in s.readers && s.readers[t].called < |handlers|
    requires s'.pushed == s.pushed && s'.queue == s.queue
    requires var r := s.readers[t];
             && s'.readers == s.readers[t := r.(called := r.called + 1)]
             && s'.callbacks == s.callbacks + [Callback(handlers[r.called], s.pushed[r.index])]
    ensures OrderOk(handlers, s')
  {
    var r := s.readers[t];
    var e := s.pushed[r.index];
    assert Broadcast(handlers[..r.called + 1], e) ==
           Broadcast(handlers[..r.called], e) + [Callback(handlers[r.called], e)];
    Assoc(BroadcastAll(handlers, s.pushed[..r.index]), Broadcast(handlers[..r.called], e),
          [Callback(handlers[r.called], e)]);
    assert s'.readers == map[t := s'.readers[t]];
  }

  lemma ReleaseOrder(handlers: seq<Handler>, s: Tasks, s': Tasks, t: Thread)
    requires OrderOk(handlers, s) && t in s.readers && s.readers[t].called >= |handlers|
    requires s'.pushed == s.pushed && s'.queue == s.queue && s'.callbacks == s.callbacks
    requires s'.readers == s.readers - {t}
    ensures OrderOk(handlers, s')
  {
    var r := s.readers[t];
    assert s'.readers == map[] && handlers[..r.called] == handlers;
    assert s.pushed[..Popped(s)][..r.index] == s.pushed[..r.index];
  }

  predicate ShowsItsPush(s: Tasks, t: Thread) {
    && t in s.readers && s.readers[t].index < |s.pushed|
    && Holds(s.memory, s.readers[t].slot, s.pushed[s.readers[t].index])
  }

  lemma QuietOrder(handlers: seq<Handler>, s: Tasks, s': Tasks)
    requires OrderOk(handlers, s) && s'.pushed == s.pushed && s'.queue == s.queue
    requires s'.readers == s.readers && s'.callbacks == s.callbacks
    ensures OrderOk(handlers, s')
  {
  }

  lemma WriterStepKeepsOrder(limit: nat, handlers: seq<Handler>, s: Tasks, step: Step)
    requires OrderOk(handlers, s) && Enabled(limit, handlers, s, step) && |s.queue| <= |s.pushed|
    requires step.Reserve? || step.FillIn? || step.Push?
    ensures OrderOk(handlers, Apply(limit, handlers, s, step))
  {
    var s' := Apply(limit, handlers, s, step);
    if step.Push? { PushOrder(handlers, s, s', s.writers[step.t].event); } else { QuietOrder(handlers, s, s'); }
  }

  lemma StepKeepsOrder(limit: nat, handlers: seq<Handler>, s: Tasks, step: Step)
    requires limit <= 1 && OrderOk(handlers, s) && Enabled(limit, handlers, s, step) && |s.queue| <= |s.pushed|
    requires step.Call? ==> ShowsItsPush(s, step.t)
    ensures OrderOk(handlers, Apply(limit, handlers, s, step))
  {
    var s' := Apply(limit, handlers, s, step);
    if step.Pop? {
      assert s.readers == map[];
      PopOrder(handlers, s, s', step.t, s.queue[0]);
    } else if step.Call? {
      CallOrder(handlers, s, s', step.t);
    } else if step.Release? {
      ReleaseOrder(handlers, s, s', step.t);
    } else {
      WriterStepKeepsOrder(limit, handlers, s, step);
    }
  }

  lemma {:induction false} RunKeepsOrder(limit: nat, handlers: seq<Handler>, s: Tasks, steps: seq<Step>)
    requires limit <= 1 && Inv(s) && OrderOk(handlers, s) && Run(limit, handlers, s, steps).Some?
    ensures OrderOk(handlers, Run(limit, handlers, s, steps).value)
    decreases |steps|
  {
    if steps != [] {
      OrderPremises(limit, handlers, s, steps[0]);
      StepKeepsInv(limit, handlers, s, steps[0]);
      StepKeepsOrder(limit, handlers, s, steps[0]);
      RunKeepsOrder(limit, handlers, Apply(limit, handlers, s, steps[0]), steps[1..]);
    }
  }

  lemma OrderPremises(limit: nat, handlers: seq<Handler>, s: Tasks, step: Step)
    requires PlacesOk(s) && Enabled(limit, handlers, s, step)
    ensures |s.queue| <= |s.pushed| && (step.Call? ==> ShowsItsPush(s, step.t))
  {
  }

  /** The callbacks made so far are the first of those of direct mode, in the order in which
      the records were pushed. */
  ghost predicate InPushOrder(handlers: seq<Handler>, s: Tasks) {
    s.callbacks <= BroadcastAll(handlers, s.pushed)
  }

  lemma OrderIsPrefix(handlers: seq<Handler>, s: Tasks)
    requires OrderOk(handlers, s)
    ensures InPushOrder(handlers, s)
  {
    if s.readers == map[] {
      BroadcastPrefix(handlers, s.pushed, Popped(s));
    } else {
      var t :| t in s.readers;
      var r := s.readers[t];
      var upTo := s.pushed[..r.index + 1];
      BroadcastPrefix(handlers, s.pushed, r.index + 1);
      assert upTo[..r.index] == s.pushed[..r.index] && upTo[r.index] == s.pushed[r.index];
      assert Broadcast(handlers[..r.called], s.pushed[r.index]) <= Broadcast(handlers, s.pushed[r.index]);
    }
  }

  /** With one draining thread, whatever the interleaving: the callbacks are those of direct
      mode in the order of the pushes, all of them once no record is queued or being shown. */
  lemma OneReaderKeepsOrder(limit: nat, handlers: seq<Handler>, itemLen: int, increaseNum: int, steps: seq<Step>)
    requires limit <= 1 && itemLen > 0 && increaseNum > 0
    requires Run(limit, handlers, NewTasks(itemLen, increaseNum), steps).Some?
    ensures var s := Run(limit, handlers, NewTasks(itemLen, increaseNum), steps).value;
            && InPushOrder(handlers, s)
            && (s.queue == [] && s.readers == map[] ==> s.callbacks == BroadcastAll(handlers, s.pushed))
  {
    var s0 := NewTasks(itemLen, increaseNum);
    NewTasksOk(itemLen, increaseNum);
    RunKeepsOrder(limit, handlers, s0, steps);
    var s := Run(limit, handlers, s0, steps).value;
    OrderIsPrefix(handlers, s);
    assert s.pushed[..|s.pushed|] == s.pushed;
  }

  // ----- two draining threads -----

  /** The states from which a second reader overtakes the first. */
  ghost predicate TwoWaiting(s: Tasks, a: Event, b: Event) {
    && s.readers == map[] && s.callbacks == [] && s.pushed == [a, b]
    && |s.queue| == 2 && Holds(s.memory, s.queue[1], b)
  }

  lemma BothPop(limit: nat, handlers: seq<Handler>, s: Tasks, a: Event, b: Event) returns (s1: Tasks, s2: Tasks)
    requires limit >= 2 && TwoWaiting(s, a, b)
    ensures Enabled(limit, handlers, s, Pop(0)) && Apply(limit, handlers, s, Pop(0)) == s1
    ensures Enabled(limit, handlers, s1, Pop(1)) && Apply(limit, handlers, s1, Pop(1)) == s2
    ensures 1 in s2.readers && s2.readers[1] == Reader(s.queue[1], 1, 0)
    ensures s2.memory == s.memory && s2.callbacks == [] && s2.pushed == [a, b]
  {
    s1 := Apply(limit, handlers, s, Pop(0));
    assert s1.readers == map[0 := Reader(s.queue[0], 0, 0)];
    s2 := Apply(limit, handlers, s1, Pop(1));
  }

  lemma Overtaken(limit: nat, handlers: seq<Handler>, s: Tasks, a: Event, b: Event) returns (s': Tasks)
    requires limit >= 2 && handlers != [] && TwoWaiting(s, a, b)
    ensures Run(limit, handlers, s, [Pop(0), Pop(1), Call(1)] + []) == Some(s')
    ensures s'.callbacks == [Callback(handlers[0], b)] && s'.pushed == [a, b]
  {
    var s1, s2 := BothPop(limit, handlers, s, a, b);
    s' := Apply(limit, handlers, s2, Call(1));
    RunThree(limit, handlers, s, Pop(0), Pop(1), Call(1), s1, s2, []);
  }

  function Arrival(t: Thread, e: Event, base: Addr): seq<Step> {
    [Reserve(t, e, base), FillIn(t), Push(t)]
  }

  /** One event queued with nothing in between. */
  lemma Arrives(limit: nat, handlers: seq<Handler>, s: Tasks, t: Thread, e: Event, base: Addr, rest: seq<Step>)
    returns (s': Tasks)
    requires s.pool.increaseNum > 0 && NewChunkOk(s.pool, base) && s.writers == map[] && Fits(e)
    ensures Run(limit, handlers, s, Arrival(t, e, base) + rest) == Run(limit, handlers, s', rest)
    ensures var (pool, slot) := AllocStep(s.pool, base);
            && s'.pool == pool && s'.writers == map[] && s'.readers == s.readers && s'.callbacks == s.callbacks
            && s'.pushed == s.pushed + [e] && s'.queue == s.queue + [slot] && Holds(s'.memory, slot, e)
  {
    var slot := AllocStep(s.pool, base).1;
    var s1 := Apply(limit, handlers, s, Reserve(t, e, base));
    var s2 := Apply(limit, handlers, s1, FillIn(t));
    s' := Apply(limit, handlers, s2, Push(t));
    ShownOfFill(OldData(s.memory, slot), e);
    RunThree(limit, handlers, s, Reserve(t, e, base), FillIn(t), Push(t), s1, s2, rest);
    assert s'.writers == map[];
  }

  lemma RunThree(limit: nat, handlers: seq<Handler>, s: Tasks, i: Step, j: Step, k: Step, s1: Tasks, s2: Tasks,
                 rest: seq<Step>)
    requires Enabled(limit, handlers, s, i) && Apply(limit, handlers, s, i) == s1
    requires Enabled(limit, handlers, s1, j) && Apply(limit, handlers, s1, j) == s2 && Enabled(limit, handlers, s2, k)
    ensures Run(limit, handlers, s, [i, j, k] + rest) == Run(limit, handlers, Apply(limit, handlers, s2, k), rest)
  {
    var steps := [i, j, k] + rest;
    assert steps[1..] == [j, k] + rest && steps[1..][1..] == [k] + rest && ([k] + rest)[1..] == rest;
    assert Run(limit, handlers, s1, steps[1..]) == Run(limit, handlers, s2, [k] + rest);
  }

  function OvertakingRun(chunkLen: int): seq<Step> {
    Arrival(0, ListenFailed(1), 0) + (Arrival(0, ListenFailed(2), chunkLen) + ([Pop(0), Pop(1), Call(1)] + []))
  }

  /** Two threads pop one record each and the second calls first. */
  lemma SecondReaderOvertakes(limit: nat, handlers: seq<Handler>, itemLen: int, increaseNum: int)
    requires limit >= 2 && handlers != [] && itemLen > 0 && increaseNum > 0
    ensures var r := Run(limit, handlers, NewTasks(itemLen, increaseNum), OvertakingRun(increaseNum * itemLen));
            && r.Some? && r.value.pushed == [ListenFailed(1), ListenFailed(2)]
            && r.value.callbacks == [Callback(handlers[0], ListenFailed(2))] && !InPushOrder(handlers, r.value)
  {
    var a, b := ListenFailed(1), ListenFailed(2);
    var s0 := NewTasks(itemLen, increaseNum);
    var last := [Pop(0), Pop(1), Call(1)] + [];
    var s1 := Arrives(limit, handlers, s0, 0, a, 0, Arrival(0, b, increaseNum * itemLen) + last);
    var s2 := Arrives(limit, handlers, s1, 0, b, increaseNum * itemLen, last);
    assert s1.pushed == [a] && s2.pushed == [a, b];
    var s3 := Overtaken(limit, handlers, s2, a, b);
    FirstOfTwo(handlers, a, b);
  }

  lemma FirstOfTwo(handlers: seq<Handler>, a: Event, b: Event)
    requires handlers != []
    ensures |BroadcastAll(handlers, [a, b])| > 0 && BroadcastAll(handlers, [a, b])[0] == Callback(handlers[0], a)
  {
    assert [a, b][..1] == [a] && [a][..0] == [];
    assert BroadcastAll(handlers, [a]) == BroadcastAll(handlers, []) + Broadcast(handlers, a);
  }

  lemma {:induction false} NobodyListens(limit: nat, s: Tasks, steps: seq<Step>)
    requires s.callbacks == [] && Run(limit, [], s, steps).Some?
    ensures Run(limit, [], s, steps).value.callbacks == []
    decreases |steps|
  {
    if steps != [] { NobodyListens(limit, Apply(limit, [], s, steps[0]), steps[1..]); }
  }

  /** The callbacks keep the order of the pushes in every run if and only if at most one
      thread drains the queue, or there is no handler. */
  lemma InPushOrderIff(limit: nat, handlers: seq<Handler>, itemLen: int, increaseNum: int)
    requires itemLen > 0 && increaseNum > 0
    ensures (forall steps :: Run(limit, handlers, NewTasks(itemLen, increaseNum), steps).Some? ==>
               InPushOrder(handlers, Run(limit, handlers, NewTasks(itemLen, increaseNum), steps).value)) <==>
            limit <= 1 || handlers == []
  {
    var s0 := NewTasks(itemLen, increaseNum);
    if limit <= 1 || handlers == [] {
      forall steps | Run(limit, handlers, s0, steps).Some?
        ensures InPushOrder(handlers, Run(limit, handlers, s0, steps).value)
      {
        if limit <= 1 { OneReaderKeepsOrder(limit, handlers, itemLen, increaseNum, steps); }
        else { NobodyListens(limit, s0, steps); }
      }
    } else {
      SecondReaderOvertakes(limit, handlers, itemLen, increaseNum);
    }
  }
}
