/** The Linux thread pool (elegance/platform/thread/thread_pool.cpp) as the steps its
    threads take between two accesses to shared state. The running flag is read and
    written without the mutex; the task list only under it. */
module ThreadPool {
  import opened Bytes

  type Task = nat
  type ThreadId = nat

  /** Where a worker is in `ThreadPoolWorkingTask::Run` and `GetNextTask`. */
  datatype WorkerAt =
    | AtLoop            // about to read the flag
    | WantsLock
    | Checking          // holds the mutex, at the loop condition of the wait
    | Waiting           // in the condition wait, mutex released
    | Deciding          // holds the mutex, past the wait
    | Popping           // holds the mutex, about to take the front task
    | Running(task: Task)
    | Exited

  datatype AdderAt = AdderWantsLock | Pushing
  datatype StopperAt = StopperWantsLock | Clearing | Cleared

  datatype Owner = Nobody | Worker(w: ThreadId) | Adder(t: Task) | Stopper(s: ThreadId)

  /** `adders` are the calls of `AddTask` in progress, named by their task. The last six
      fields are history. */
  datatype State = State(
    running: bool,
    mutex: Owner,
    list: seq<Task>,
    workers: map<ThreadId, WorkerAt>,
    adders: map<Task, AdderAt>,
    stoppers: map<ThreadId, StopperAt>,
    pushed: seq<Task>,
    removed: seq<Task>,
    finished: set<Task>,
    discarded: set<Task>,
    clears: nat,
    born: map<ThreadId, nat>)

  const START := State(false, Nobody, [], map[], map[], map[], [], [], {}, {}, 0, map[])

  datatype Step =
    | Run(threads: set<ThreadId>)
    | ReadFlag(w: ThreadId)
    | Lock(w: ThreadId)
    | WaitTest(w: ThreadId)
    | Wake(w: ThreadId)
    | Decide(w: ThreadId)
    | Pop(w: ThreadId)
    | Finish(w: ThreadId)
    | AddBegin(t: Task)
    | AddLock(t: Task)
    | AddPush(t: Task)
    | StopBegin(s: ThreadId)
    | StopLock(s: ThreadId)
    | StopClear(s: ThreadId)
    | StopFlag(s: ThreadId)

  predicate WorkerIs(s: State, w: ThreadId, at: WorkerAt) {
    w in s.workers && s.workers[w] == at
  }

  predicate Enabled(s: State, step: Step) {
    match step
    case Run(threads) => !s.running && threads != {} && threads !! s.workers.Keys
    case ReadFlag(w) => WorkerIs(s, w, AtLoop)
    case Lock(w) => WorkerIs(s, w, WantsLock) && s.mutex == Nobody
    case WaitTest(w) => WorkerIs(s, w, Checking)
    case Wake(w) => WorkerIs(s, w, Waiting) && s.mutex == Nobody
    case Decide(w) => WorkerIs(s, w, Deciding)
    case Pop(w) => WorkerIs(s, w, Popping)
    case Finish(w) => w in s.workers && s.workers[w].Running?
    case AddBegin(t) => t !in s.pushed && t !in s.adders
    case AddLock(t) => t in s.adders && s.adders[t] == AdderWantsLock && s.mutex == Nobody
    case AddPush(t) => t in s.adders && s.adders[t] == Pushing
    case StopBegin(i) => i !in s.stoppers
    case StopLock(i) => i in s.stoppers && s.stoppers[i] == StopperWantsLock && s.mutex == Nobody
    case StopClear(i) => i in s.stoppers && s.stoppers[i] == Clearing
    case StopFlag(i) => i in s.stoppers && s.stoppers[i] == Cleared
  }

  function MoveTo(s: State, w: ThreadId, at: WorkerAt): State {
    s.(workers := s.workers[w := at])
  }

  function Elements(q: seq<Task>): set<Task> {
    set t | t in q
  }

  /** `front()` of an empty list is undefined; that it never happens is a theorem. */
  predicate Defined(s: State, step: Step) {
    step.Pop? ==> s.list != []
  }

  function Apply(s: State, step: Step): State
    requires Enabled(s, step) && Defined(s, step)
  {
    match step
    case Run(threads) =>
      s.(running := true,
         workers := s.workers + (map w | w in threads :: AtLoop),
         born := s.born + (map w | w in threads :: s.clears))
    case ReadFlag(w) => MoveTo(s, w, if s.running then WantsLock else Exited)
    case Lock(w) => MoveTo(s, w, Checking).(mutex := Worker(w))
    case WaitTest(w) =>
      if s.list == [] && s.running then MoveTo(s, w, Waiting).(mutex := Nobody) else MoveTo(s, w, Deciding)
    case Wake(w) => MoveTo(s, w, Checking).(mutex := Worker(w))
    case Decide(w) =>
      if s.list == [] || !s.running then MoveTo(s, w, Exited).(mutex := Nobody) else MoveTo(s, w, Popping)
    case Pop(w) =>
      MoveTo(s, w, Running(s.list[0])).(mutex := Nobody, list := s.list[1..], removed := s.removed + [s.list[0]])
    case Finish(w) => MoveTo(s, w, AtLoop).(finished := s.finished + {s.workers[w].task})
    case AddBegin(t) => if s.running then s.(adders := s.adders[t := AdderWantsLock]) else s
    case AddLock(t) => s.(adders := s.adders[t := Pushing], mutex := Adder(t))
    case AddPush(t) =>
      s.(adders := s.adders - {t}, mutex := Nobody, list := s.list + [t], pushed := s.pushed + [t])
    case StopBegin(i) => if s.running then s.(stoppers := s.stoppers[i := StopperWantsLock]) else s
    case StopLock(i) => s.(stoppers := s.stoppers[i := Clearing], mutex := Stopper(i))
    case StopClear(i) =>
      s.(stoppers := s.stoppers[i := Cleared], mutex := Nobody,
         removed := s.removed + s.list, discarded := s.discarded + Elements(s.list), list := [])
    case StopFlag(i) => s.(stoppers := s.stoppers - {i}, running := false, clears := s.clears + 1)
  }

  // ----- what every step keeps -----

  predicate Holding(at: WorkerAt) {
    at == Checking || at == Deciding || at == Popping
  }

  /** The mutex is held by the thread that is inside, and by no other. */
  ghost predicate MutexOk(s: State) {
    && (forall w :: w in s.workers ==> (Holding(s.workers[w]) <==> s.mutex == Worker(w)))
    && (forall t :: t in s.adders ==> (s.adders[t] == Pushing <==> s.mutex == Adder(t)))
    && (forall i :: i in s.stoppers ==> (s.stoppers[i] == Clearing <==> s.mutex == Stopper(i)))
    && (s.mutex.Worker? ==> s.mutex.w in s.workers)
    && (s.mutex.Adder? ==> s.mutex.t in s.adders)
    && (s.mutex.Stopper? ==> s.mutex.s in s.stoppers)
  }

  /** First in, first out, and no task twice. */
  predicate QueueOk(s: State) {
    s.pushed == s.removed + s.list && NoRepeats(s.pushed) && forall t :: t in s.adders ==> t !in s.pushed
  }

  predicate InHand(s: State, w: ThreadId, t: Task) {
    w in s.workers && s.workers[w] == Running(t)
  }

  ghost predicate InSomeHand(s: State, t: Task) {
    exists w :: InHand(s, w, t)
  }

  /** A task taken off the list is with exactly one worker, or finished, or discarded. */
  ghost predicate PlacesOk(s: State) {
    && (forall t :: t in s.removed <==> InSomeHand(s, t) || t in s.finished || t in s.discarded)
    && s.finished !! s.discarded
    && (forall w, t :: InHand(s, w, t) ==> t !in s.finished && t !in s.discarded)
    && (forall w, v, t :: InHand(s, w, t) && InHand(s, v, t) ==> w == v)
  }

  /** A worker that has left, or can no longer stay, has seen a flag cleared after it was
      started. */
  ghost predicate FlagOk(s: State) {
    && s.born.Keys == s.workers.Keys
    && (forall w :: w in s.workers ==> s.born[w] <= s.clears)
    && (forall w :: w in s.workers && s.born[w] == s.clears ==> s.running && s.workers[w] != Exited)
    && (forall w :: w in s.workers && s.workers[w] == Deciding && s.list == [] ==> s.born[w] < s.clears)
    && (forall w :: w in s.workers && s.workers[w] == Popping ==> s.list != [])
  }

  ghost predicate Inv(s: State) {
    MutexOk(s) && QueueOk(s) && PlacesOk(s) && FlagOk(s)
  }

  /** A thread that enters takes a free mutex; one that leaves gives up its own. */
  lemma WorkerMoves(s: State, s': State, w: ThreadId, at: WorkerAt)
    requires MutexOk(s) && w in s.workers && s'.workers == s.workers[w := at]
    requires s'.adders == s.adders && s'.stoppers == s.stoppers
    requires Holding(at) ==> s.mutex == Nobody || s.mutex == Worker(w)
    requires s'.mutex == if Holding(at) then Worker(w) else if s.mutex == Worker(w) then Nobody else s.mutex
    ensures MutexOk(s')
  {
  }

  lemma WorkerMutex(s: State, step: Step)
    requires MutexOk(s) && Enabled(s, step) && Defined(s, step) && WorkerStep(step)
    ensures MutexOk(Apply(s, step))
  {
    var s' := Apply(s, step);
    WorkerMoves(s, s', step.w, s'.workers[step.w]);
  }

  predicate WorkerStep(step: Step) {
    step.ReadFlag? || step.Lock? || step.WaitTest? || step.Wake? || step.Decide? || step.Pop? || step.Finish?
  }

  lemma AdderMutex(s: State, step: Step)
    requires MutexOk(s) && Enabled(s, step) && (step.AddBegin? || step.AddLock? || step.AddPush?)
    ensures MutexOk(Apply(s, step))
  {
  }

  lemma StopperMutex(s: State, step: Step)
    requires MutexOk(s) && Enabled(s, step)
    requires step.StopBegin? || step.StopLock? || step.StopClear? || step.StopFlag?
    ensures MutexOk(Apply(s, step))
  {
  }

  lemma RunMutex(s: State, threads: set<ThreadId>)
    requires MutexOk(s) && Enabled(s, Run(threads))
    ensures MutexOk(Apply(s, Run(threads)))
  {
    assert forall w :: w in threads ==> s.mutex != Worker(w);
  }

  lemma MutexStep(s: State, step: Step)
    requires Inv(s) && Enabled(s, step) && Defined(s, step)
    ensures MutexOk(Apply(s, step))
  {
    if WorkerStep(step) { WorkerMutex(s, step); }
    else if step.Run? { RunMutex(s, step.threads); }
    else if step.AddBegin? || step.AddLock? || step.AddPush? { AdderMutex(s, step); }
    else { StopperMutex(s, step); }
  }

  lemma QueueStep(s: State, step: Step)
    requires Inv(s) && Enabled(s, step) && Defined(s, step)
    ensures QueueOk(Apply(s, step))
  {
    if step.Pop? {
      assert s.removed + s.list == s.removed + [s.list[0]] + s.list[1..];
    } else if step.AddPush? {
      assert s.removed + s.list + [step.t] == s.removed + (s.list + [step.t]);
    } else if step.StopClear? {
      assert s.removed + s.list == s.removed + s.list + [];
    }
  }

  lemma WorkerFlag(s: State, step: Step)
    requires Inv(s) && Enabled(s, step) && Defined(s, step) && WorkerStep(step)
    ensures FlagOk(Apply(s, step))
  {
    var s' := Apply(s, step);
    MovedFlag(s, s', step.w, s'.workers[step.w]);
  }

  /** A worker may go wherever the flag and the list allow; the list changes only in the
      hands of the worker that holds the mutex. */
  lemma MovedFlag(s: State, s': State, w: ThreadId, at: WorkerAt)
    requires Inv(s) && w in s.workers && s'.workers == s.workers[w := at]
    requires s'.running == s.running && s'.clears == s.clears && s'.born == s.born
    requires s'.list == s.list || s.mutex == Worker(w)
    requires at == Exited ==> s.born[w] < s.clears
    requires at == Deciding && s'.list == [] ==> s.born[w] < s.clears
    requires at == Popping ==> s'.list != []
    ensures FlagOk(s')
  {
    assert s'.workers.Keys == s.workers.Keys;
    forall v | v in s.workers && v != w && Holding(s.workers[v]) ensures s'.list == s.list {
      assert s.mutex == Worker(v);
    }
  }

  lemma OtherFlag(s: State, step: Step)
    requires Inv(s) && Enabled(s, step) && Defined(s, step) && !WorkerStep(step)
    ensures FlagOk(Apply(s, step))
  {
    var s' := Apply(s, step);
    assert step.Run? ==> s'.born.Keys == s'.workers.Keys;
    forall v | v in s.workers && Holding(s.workers[v]) ensures s'.list == s.list {
      assert s.mutex == Worker(v);
    }
  }

  lemma FlagStep(s: State, step: Step)
    requires Inv(s) && Enabled(s, step) && Defined(s, step)
    ensures FlagOk(Apply(s, step))
  {
    if WorkerStep(step) { WorkerFlag(s, step); } else { OtherFlag(s, step); }
  }

  /** Steps that change no hand and no list leave every task where it is. */
  lemma PlacesKept(s: State, s': State)
    requires PlacesOk(s) && s'.removed == s.removed && s'.finished == s.finished && s'.discarded == s.discarded
    requires forall w, t :: InHand(s', w, t) <==> InHand(s, w, t)
    ensures PlacesOk(s')
  {
    forall t ensures InSomeHand(s', t) <==> InSomeHand(s, t) {
      if InSomeHand(s, t) { var w :| InHand(s, w, t); assert InHand(s', w, t); }
      if InSomeHand(s', t) { var w :| InHand(s', w, t); assert InHand(s, w, t); }
    }
  }

  lemma PopPlaces(s: State, w: ThreadId)
    requires Inv(s) && Enabled(s, Pop(w)) && s.list != []
    ensures PlacesOk(Apply(s, Pop(w)))
  {
    var s' := Apply(s, Pop(w));
    var t0 := s.list[0];
    assert s.pushed[|s.removed|] == t0;
    assert forall i :: 0 <= i < |s.removed| ==> s.pushed[i] == s.removed[i];
    assert t0 !in s.removed;
    assert forall v, t :: InHand(s', v, t) <==> (v == w && t == t0) || InHand(s, v, t);
    forall t ensures InSomeHand(s', t) <==> t == t0 || InSomeHand(s, t) {
      if t == t0 { assert InHand(s', w, t); }
      if InSomeHand(s, t) { var v :| InHand(s, v, t); assert InHand(s', v, t); }
      if InSomeHand(s', t) { var v :| InHand(s', v, t); assert (v == w && t == t0) || InHand(s, v, t); }
    }
    assert !InSomeHand(s, t0);
  }

  lemma FinishPlaces(s: State, w: ThreadId)
    requires Inv(s) && Enabled(s, Finish(w))
    ensures PlacesOk(Apply(s, Finish(w)))
  {
    var s' := Apply(s, Finish(w));
    var t0 := s.workers[w].task;
    assert InHand(s, w, t0);
    assert forall v, t :: InHand(s', v, t) <==> v != w && InHand(s, v, t);
    forall t ensures InSomeHand(s', t) <==> t != t0 && InSomeHand(s, t) {
      if InSomeHand(s', t) { var v :| InHand(s', v, t); assert InHand(s, v, t); }
      if t != t0 && InSomeHand(s, t) { var v :| InHand(s, v, t); assert InHand(s', v, t); }
    }
  }

  lemma ClearPlaces(s: State, i: ThreadId)
    requires Inv(s) && Enabled(s, StopClear(i))
    ensures PlacesOk(Apply(s, StopClear(i)))
  {
    var s' := Apply(s, StopClear(i));
    assert forall v, t :: InHand(s', v, t) <==> InHand(s, v, t);
    forall t | t in s.list ensures t !in s.removed {
      var j :| 0 <= j < |s.list| && s.list[j] == t;
      assert s.pushed[|s.removed| + j] == t;
      assert forall k :: 0 <= k < |s.removed| ==> s.pushed[k] == s.removed[k];
    }
    forall t ensures InSomeHand(s', t) <==> InSomeHand(s, t) {
      if InSomeHand(s, t) { var v :| InHand(s, v, t); assert InHand(s', v, t); }
      if InSomeHand(s', t) { var v :| InHand(s', v, t); assert InHand(s, v, t); }
    }
    assert forall w, t :: InHand(s, w, t) ==> InSomeHand(s, t);
  }

  lemma SameHands(s: State, step: Step)
    requires Enabled(s, step) && Defined(s, step) && !step.Pop? && !step.Finish?
    ensures forall w, t :: InHand(Apply(s, step), w, t) <==> InHand(s, w, t)
  {
  }

  lemma PlacesStep(s: State, step: Step)
    requires Inv(s) && Enabled(s, step) && Defined(s, step)
    ensures PlacesOk(Apply(s, step))
  {
    if step.Pop? { PopPlaces(s, step.w); }
    else if step.Finish? { FinishPlaces(s, step.w); }
    else if step.StopClear? { ClearPlaces(s, step.s); }
    else { QuietPlaces(s, step); }
  }

  lemma QuietPlaces(s: State, step: Step)
    requires PlacesOk(s) && Enabled(s, step) && !step.Pop? && !step.Finish? && !step.StopClear?
    ensures PlacesOk(Apply(s, step))
  {
    SameHands(s, step);
    PlacesKept(s, Apply(s, step));
  }

  // ----- every interleaving -----

  /** Runs are total only because an enabled step is always defined. */
  function After(s: State, steps: seq<Step>): (r: Option<State>)
    decreases |steps|
  {
    if steps == [] then Some(s)
    else if !Enabled(s, steps[0]) || !Defined(s, steps[0]) then None
    else After(Apply(s, steps[0]), steps[1..])
  }

  lemma {:induction false} AfterKeepsInv(s: State, steps: seq<Step>)
    requires Inv(s) && After(s, steps).Some?
    ensures Inv(After(s, steps).value)
    decreases |steps|
  {
    if steps != [] {
      MutexStep(s, steps[0]);
      QueueStep(s, steps[0]);
      PlacesStep(s, steps[0]);
      FlagStep(s, steps[0]);
      AfterKeepsInv(Apply(s, steps[0]), steps[1..]);
    }
  }

  function One(b: bool): nat {
    if b then 1 else 0
  }

  /** In every interleaving of adding, working and stopping: tasks leave the list in the
      order they entered it; a task accepted is in exactly one place, and in at most one
      worker's hand; no step finds the list empty where it takes the front; and a worker
      has left only after the flag was cleared since that worker was started. */
  lemma EveryInterleavingIsSafe(steps: seq<Step>, next: Step)
    requires After(START, steps).Some?
    ensures var s := After(START, steps).value;
            && s.pushed == s.removed + s.list
            && (forall t :: One(t in s.list) + One(InSomeHand(s, t)) + One(t in s.finished) + One(t in s.discarded)
                            == One(t in s.pushed))
            && (forall w, v, t :: InHand(s, w, t) && InHand(s, v, t) ==> w == v)
            && (Enabled(s, next) ==> Defined(s, next))
            && (forall w :: WorkerIs(s, w, Exited) ==> w in s.born && s.born[w] < s.clears)
  {
    assert Inv(START);
    AfterKeepsInv(START, steps);
    var s := After(START, steps).value;
    forall t
      ensures One(t in s.list) + One(InSomeHand(s, t)) + One(t in s.finished) + One(t in s.discarded) ==
              One(t in s.pushed)
    {
      OnePlace(s, t);
    }
  }

  lemma OnePlace(s: State, t: Task)
    requires QueueOk(s) && PlacesOk(s)
    ensures One(t in s.list) + One(InSomeHand(s, t)) + One(t in s.finished) + One(t in s.discarded) ==
            One(t in s.pushed)
  {
    assert t in s.pushed <==> t in s.removed || t in s.list;
    assert forall i :: 0 <= i < |s.removed| ==> s.pushed[i] == s.removed[i];
    assert forall j :: 0 <= j < |s.list| ==> s.pushed[|s.removed| + j] == s.list[j];
    assert t in s.list ==> t !in s.removed;
  }
}
