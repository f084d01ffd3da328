/** What the runs of the thread pool tell about the past of each thread: which flag and
    which list it saw when it went where it is. */
module ThreadHistory {
  import opened Bytes
  import opened ThreadPool

  /** The state before step `i` of a run. */
  ghost predicate Before(steps: seq<Step>, i: int, s: State) {
    0 <= i <= |steps| && After(START, steps[..i]) == Some(s)
  }

  lemma {:induction false} AfterLast(s: State, steps: seq<Step>)
    requires steps != [] && After(s, steps).Some?
    ensures var init, last := steps[..|steps| - 1], steps[|steps| - 1];
            && After(s, init).Some? && Enabled(After(s, init).value, last) && Defined(After(s, init).value, last)
            && After(s, steps) == Some(Apply(After(s, init).value, last))
    decreases |steps|
  {
    var init := steps[..|steps| - 1];
    if |steps| == 1 {
      assert init == [] && steps[1..] == [];
    } else {
      AfterLast(Apply(s, steps[0]), steps[1..]);
      assert steps[1..][..|steps| - 2] == init[1..] && init[0] == steps[0];
    }
  }

  lemma BeforeInit(steps: seq<Step>, i: int, s: State)
    requires steps != [] && Before(steps[..|steps| - 1], i, s)
    ensures Before(steps, i, s)
  {
    assert steps[..|steps| - 1][..i] == steps[..i];
  }

  lemma BeforeLast(steps: seq<Step>)
    requires steps != [] && After(START, steps).Some?
    ensures After(START, steps[..|steps| - 1]).Some?
    ensures Before(steps, |steps| - 1, After(START, steps[..|steps| - 1]).value)
  {
    AfterLast(START, steps);
  }

  // ----- tasks -----

  /** The call of `AddTask` read the flag while it was set. */
  ghost predicate BegunWhileRunning(steps: seq<Step>, t: Task) {
    exists i, s :: Before(steps, i, s) && i < |steps| && steps[i] == AddBegin(t) && s.running
  }

  lemma BegunInit(steps: seq<Step>, t: Task)
    requires steps != [] && BegunWhileRunning(steps[..|steps| - 1], t)
    ensures BegunWhileRunning(steps, t)
  {
    var init := steps[..|steps| - 1];
    var i, s :| Before(init, i, s) && i < |init| && init[i] == AddBegin(t) && s.running;
    BeforeInit(steps, i, s);
  }

  /** A task is on its way into the list, or was ever put there, only if the pool was
      running when its `AddTask` began. */
  lemma {:induction false} AcceptedWhileRunning(steps: seq<Step>, t: Task)
    requires After(START, steps).Some?
    requires var s := After(START, steps).value; t in s.adders || t in s.pushed
    ensures BegunWhileRunning(steps, t)
    decreases |steps|
  {
    if steps != [] {
      var init, last := steps[..|steps| - 1], steps[|steps| - 1];
      AfterLast(START, steps);
      var s := After(START, init).value;
      if t in s.adders || t in s.pushed {
        AcceptedWhileRunning(init, t);
        BegunInit(steps, t);
      } else {
        assert last == AddBegin(t) && s.running;
        BeforeLast(steps);
      }
    }
  }

  // ----- workers -----

  predicate StepOf(step: Step, w: ThreadId) {
    WorkerStep(step) && step.w == w
  }

  /** What a worker saw when it took the step that led to `at`. */
  predicate Saw(s: State, step: Step, at: WorkerAt) {
    match at
    case AtLoop => step.Finish?
    case WantsLock => step.ReadFlag? && s.running
    case Checking => (step.Lock? || step.Wake?) && s.mutex == Nobody
    case Waiting => step.WaitTest? && s.list == [] && s.running
    case Deciding => step.WaitTest? && (s.list != [] || !s.running)
    case Popping => step.Decide? && s.list != [] && s.running
    case Running(t) => step.Pop? && s.list != [] && s.list[0] == t
    case Exited => (step.ReadFlag? && !s.running) || (step.Decide? && (s.list == [] || !s.running))
  }

  predicate StillSince(steps: seq<Step>, i: int, j: int, w: ThreadId)
    requires j <= |steps|
  {
    forall k :: 0 <= i < k < j ==> !StepOf(steps[k], w)
  }

  /** Step `i` of the worker led to `at`, and saw what goes with it. */
  ghost predicate SawAt(steps: seq<Step>, i: int, s: State, w: ThreadId, at: WorkerAt) {
    Before(steps, i, s) && i < |steps| && StepOf(steps[i], w) && Saw(s, steps[i], at)
  }

  /** The last step of the worker did. */
  ghost predicate CameTo(steps: seq<Step>, w: ThreadId, at: WorkerAt) {
    exists i, s :: SawAt(steps, i, s, w, at) && StillSince(steps, i, |steps|, w)
  }

  lemma CameInit(steps: seq<Step>, w: ThreadId, at: WorkerAt)
    requires steps != [] && CameTo(steps[..|steps| - 1], w, at) && !StepOf(steps[|steps| - 1], w)
    ensures CameTo(steps, w, at)
  {
    var init := steps[..|steps| - 1];
    var i, s :| SawAt(init, i, s, w, at) && StillSince(init, i, |init|, w);
    BeforeInit(steps, i, s);
    assert SawAt(steps, i, s, w, at);
    forall k | 0 <= i < k < |steps| ensures !StepOf(steps[k], w) {
      if k < |init| { assert steps[k] == init[k]; }
    }
  }

  lemma CameNow(steps: seq<Step>, w: ThreadId, at: WorkerAt, s: State)
    requires steps != [] && Before(steps, |steps| - 1, s)
    requires StepOf(steps[|steps| - 1], w) && Saw(s, steps[|steps| - 1], at)
    ensures CameTo(steps, w, at)
  {
    assert SawAt(steps, |steps| - 1, s, w, at);
  }

  lemma WorkerSaw(s: State, step: Step)
    requires Enabled(s, step) && Defined(s, step) && WorkerStep(step)
    ensures step.w in s.workers && step.w in Apply(s, step).workers
    ensures Saw(s, step, Apply(s, step).workers[step.w])
  {
  }

  lemma OtherWorkersStay(s: State, step: Step, w: ThreadId)
    requires Enabled(s, step) && Defined(s, step) && !StepOf(step, w) && w in Apply(s, step).workers
    ensures w in s.workers ==> Apply(s, step).workers[w] == s.workers[w]
    ensures w !in s.workers ==> Apply(s, step).workers[w] == AtLoop
  {
  }

  predicate NoStepsOf(steps: seq<Step>, w: ThreadId) {
    forall k :: 0 <= k < |steps| ==> !StepOf(steps[k], w)
  }

  lemma {:induction false} NoStepsYet(steps: seq<Step>, w: ThreadId)
    requires After(START, steps).Some? && w !in After(START, steps).value.workers
    ensures NoStepsOf(steps, w)
    decreases |steps|
  {
    if steps != [] {
      var init, last := steps[..|steps| - 1], steps[|steps| - 1];
      AfterLast(START, steps);
      var s := After(START, init).value;
      if StepOf(last, w) { WorkerSaw(s, last); }
      if w in s.workers { WorkersRemain(s, last, w); }
      NoStepsYet(init, w);
      assert steps == init + [last];
    }
  }

  lemma WorkersRemain(s: State, step: Step, w: ThreadId)
    requires Enabled(s, step) && Defined(s, step) && w in s.workers
    ensures w in Apply(s, step).workers
  {
  }

  /** Wherever a worker is, unless it has not done anything yet, its last step brought it
      there, with the flag and the list as its place requires. */
  lemma {:induction false} EveryWorkerSaw(steps: seq<Step>, w: ThreadId)
    requires After(START, steps).Some? && w in After(START, steps).value.workers
    ensures var at := After(START, steps).value.workers[w];
            CameTo(steps, w, at) || (at == AtLoop && NoStepsOf(steps, w))
    decreases |steps|
  {
    if steps != [] {
      var init, last := steps[..|steps| - 1], steps[|steps| - 1];
      AfterLast(START, steps);
      BeforeLast(steps);
      var s := After(START, init).value;
      if StepOf(last, w) {
        WorkerSaw(s, last);
        CameNow(steps, w, Apply(s, last).workers[w], s);
      } else {
        OtherWorkersStay(s, last, w);
        if w in s.workers { EveryWorkerSaw(init, w); } else { NoStepsYet(init, w); }
        if CameTo(init, w, Apply(s, last).workers[w]) {
          CameInit(steps, w, Apply(s, last).workers[w]);
        } else {
          assert steps == init + [last];
        }
      }
    }
  }

  /** The `Decide` before each `Pop` saw the flag set and the list not empty. */
  lemma TakenWhileRunning(steps: seq<Step>, j: nat, w: ThreadId)
    requires After(START, steps).Some? && j < |steps| && steps[j] == Pop(w)
    ensures exists i, s ::
              && Before(steps, i, s) && i < j && steps[i] == Decide(w) && s.running && s.list != []
              && StillSince(steps, i, j, w)
  {
    var before := steps[..j];
    PoppedFrom(steps, j, w);
    EveryWorkerSaw(before, w);
    var i, s :| SawAt(before, i, s, w, Popping) && StillSince(before, i, |before|, w);
    assert before[..i] == steps[..i];
    assert Before(steps, i, s) && steps[i] == Decide(w);
    forall k | 0 <= i < k < j ensures !StepOf(steps[k], w) {
      assert steps[k] == before[k];
    }
  }

  lemma PoppedFrom(steps: seq<Step>, j: nat, w: ThreadId)
    requires After(START, steps).Some? && j < |steps| && steps[j] == Pop(w)
    ensures After(START, steps[..j]).Some? && WorkerIs(After(START, steps[..j]).value, w, Popping)
  {
    var upTo := steps[..j + 1];
    PrefixRuns(START, steps, j + 1);
    AfterLast(START, upTo);
    assert upTo[..j] == steps[..j] && upTo[j] == Pop(w);
  }

  lemma {:induction false} PrefixRuns(s: State, steps: seq<Step>, j: nat)
    requires After(s, steps).Some? && j <= |steps|
    ensures After(s, steps[..j]).Some?
    decreases |steps|
  {
    if j > 0 {
      PrefixRuns(Apply(s, steps[0]), steps[1..], j - 1);
      assert steps[..j][1..] == steps[1..][..j - 1];
    }
  }

  // ----- the flag -----

  predicate StartedAt(steps: seq<Step>, i: int) {
    0 <= i < |steps| && steps[i].Run? && forall k :: i < k < |steps| ==> !steps[k].StopFlag?
  }

  /** Some `Run` is not followed by the end of a `Stop`. */
  ghost predicate StartedLast(steps: seq<Step>) {
    exists i :: StartedAt(steps, i)
  }

  lemma StartedInit(steps: seq<Step>)
    requires steps != []
    ensures var init, last := steps[..|steps| - 1], steps[|steps| - 1];
            StartedLast(steps) <==> last.Run? || (StartedLast(init) && !last.StopFlag?)
  {
    var init, last := steps[..|steps| - 1], steps[|steps| - 1];
    if last.Run? {
      assert StartedAt(steps, |steps| - 1);
    } else {
      if StartedLast(init) && !last.StopFlag? {
        var i :| StartedAt(init, i);
        forall k | i < k < |steps| ensures !steps[k].StopFlag? {
          if k < |init| { assert steps[k] == init[k]; }
        }
        assert StartedAt(steps, i);
      }
      if StartedLast(steps) {
        var i :| StartedAt(steps, i);
        assert StartedAt(init, i);
      }
    }
  }

  /** The flag is what the last `Run` or `Stop` made it. */
  lemma {:induction false} FlagIsHistory(steps: seq<Step>)
    requires After(START, steps).Some?
    ensures After(START, steps).value.running <==> StartedLast(steps)
    decreases |steps|
  {
    if steps != [] {
      AfterLast(START, steps);
      FlagIsHistory(steps[..|steps| - 1]);
      StartedInit(steps);
      FlagAfter(After(START, steps[..|steps| - 1]).value, steps[|steps| - 1]);
    }
  }

  lemma FlagAfter(s: State, step: Step)
    requires Enabled(s, step) && Defined(s, step)
    ensures Apply(s, step).running <==> step.Run? || (s.running && !step.StopFlag?)
  {
  }

  // ----- stopping -----

  ghost predicate StopBegunWhileRunning(steps: seq<Step>, id: ThreadId) {
    exists i, s :: Before(steps, i, s) && i < |steps| && steps[i] == StopBegin(id) && s.running
  }

  /** A thread is inside `Stop` only if it found the pool running. */
  lemma {:induction false} StoppersSawRunning(steps: seq<Step>, id: ThreadId)
    requires After(START, steps).Some? && id in After(START, steps).value.stoppers
    ensures StopBegunWhileRunning(steps, id)
    decreases |steps|
  {
    if steps != [] {
      var init, last := steps[..|steps| - 1], steps[|steps| - 1];
      AfterLast(START, steps);
      BeforeLast(steps);
      if id in After(START, init).value.stoppers {
        StoppersSawRunning(init, id);
        var i, s :| Before(init, i, s) && i < |init| && init[i] == StopBegin(id) && s.running;
        BeforeInit(steps, i, s);
      }
    }
  }

  /** When it clears the list, no waiting task is left and each has been discarded. */
  lemma ClearingDiscardsAll(steps: seq<Step>, id: ThreadId)
    requires After(START, steps + [StopClear(id)]).Some?
    ensures After(START, steps).Some?
    ensures var s, s' := After(START, steps).value, After(START, steps + [StopClear(id)]).value;
            s'.list == [] && (forall t :: t in s.list ==> t in s'.discarded) && s'.pushed == s.pushed
  {
    var all := steps + [StopClear(id)];
    AfterLast(START, all);
    assert all[..|steps|] == steps;
  }

  function Pops(steps: seq<Step>): nat {
    if steps == [] then 0 else (if steps[0].Pop? then 1 else 0) + Pops(steps[1..])
  }

  predicate NoRestart(steps: seq<Step>) {
    forall i :: 0 <= i < |steps| ==> !steps[i].Run?
  }

  /** A worker is about to take a task, which it does under the mutex. */
  predicate Taking(s: State) {
    s.mutex.Worker? && WorkerIs(s, s.mutex.w, Popping)
  }

  lemma StoppedStep(s: State, step: Step)
    requires MutexOk(s) && !s.running && !step.Run? && Enabled(s, step) && Defined(s, step)
    ensures var s' := Apply(s, step);
            && !s'.running && (step.Pop? ==> Taking(s) && !Taking(s')) && (Taking(s') ==> Taking(s))
            && (forall t :: t in s'.pushed || t in s'.adders ==> t in s.pushed || t in s.adders)
  {
  }

  /** Once the flag is clear, until the pool is started again: at most one more task is
      taken, by the worker that had decided to, and no task is accepted but those whose
      `AddTask` had begun. */
  lemma {:induction false} StoppedPoolWindsDown(s: State, steps: seq<Step>)
    requires Inv(s) && !s.running && NoRestart(steps) && After(s, steps).Some?
    ensures Pops(steps) <= if Taking(s) then 1 else 0
    ensures var s' := After(s, steps).value;
            !s'.running && forall t :: t in s'.pushed || t in s'.adders ==> t in s.pushed || t in s.adders
    decreases |steps|
  {
    if steps != [] {
      StoppedStep(s, steps[0]);
      AfterKeepsInv(s, [steps[0]]);
      assert [steps[0]][1..] == [];
      StoppedPoolWindsDown(Apply(s, steps[0]), steps[1..]);
    }
  }

  // ----- what gets done -----

  lemma AfterTwo(s: State, a: Step, b: Step, rest: seq<Step>)
    requires Enabled(s, a) && Defined(s, a)
    requires Enabled(Apply(s, a), b) && Defined(Apply(s, a), b)
    ensures After(s, [a, b] + rest) == After(Apply(Apply(s, a), b), rest)
  {
    var steps := [a, b] + rest;
    assert steps[1..] == [b] + rest && ([b] + rest)[1..] == rest;
    assert After(Apply(s, a), [b] + rest) == After(Apply(Apply(s, a), b), rest);
  }

  /** While the pool runs and nobody holds the mutex, `AddTask` puts its task last. */
  lemma TaskIsAdded(s: State, t: Task)
    requires s.running && s.mutex == Nobody && t !in s.pushed && t !in s.adders
    ensures After(s, [AddBegin(t), AddLock(t)] + [AddPush(t)]) ==
            Some(s.(list := s.list + [t], pushed := s.pushed + [t]))
  {
    var s2 := Apply(Apply(s, AddBegin(t)), AddLock(t));
    AfterTwo(s, AddBegin(t), AddLock(t), [AddPush(t)]);
    assert [AddPush(t)][1..] == [];
    assert s2.adders - {t} == s.adders;
  }

  lemma WorkerLocks(s: State, w: ThreadId, rest: seq<Step>)
    requires s.running && s.mutex == Nobody && WorkerIs(s, w, AtLoop)
    ensures After(s, [ReadFlag(w), Lock(w)] + rest) ==
            After(s.(workers := s.workers[w := Checking], mutex := Worker(w)), rest)
  {
    AfterTwo(s, ReadFlag(w), Lock(w), rest);
    assert s.workers[w := WantsLock][w := Checking] == s.workers[w := Checking];
  }

  lemma WorkerDecides(s: State, w: ThreadId, rest: seq<Step>)
    requires s.running && s.list != [] && WorkerIs(s, w, Checking)
    ensures After(s, [WaitTest(w), Decide(w)] + rest) == After(s.(workers := s.workers[w := Popping]), rest)
  {
    AfterTwo(s, WaitTest(w), Decide(w), rest);
    assert s.workers[w := Deciding][w := Popping] == s.workers[w := Popping];
  }

  lemma WorkerRuns(s: State, w: ThreadId)
    requires s.list != [] && WorkerIs(s, w, Popping)
    ensures After(s, [Pop(w), Finish(w)] + []) ==
            Some(s.(workers := s.workers[w := AtLoop], mutex := Nobody, list := s.list[1..],
                    removed := s.removed + [s.list[0]], finished := s.finished + {s.list[0]}))
  {
    AfterTwo(s, Pop(w), Finish(w), []);
    assert s.workers[w := Running(s.list[0])][w := AtLoop] == s.workers[w := AtLoop];
  }

  /** And a worker that goes round its loop undisturbed takes the first task and finishes it. */
  lemma TaskIsRun(s: State, w: ThreadId)
    requires s.running && s.mutex == Nobody && s.list != [] && WorkerIs(s, w, AtLoop)
    ensures After(s, [ReadFlag(w), Lock(w)] + ([WaitTest(w), Decide(w)] + ([Pop(w), Finish(w)] + []))) ==
            Some(s.(list := s.list[1..], removed := s.removed + [s.list[0]], finished := s.finished + {s.list[0]}))
  {
    var s2 := s.(workers := s.workers[w := Checking], mutex := Worker(w));
    var s4 := s2.(workers := s2.workers[w := Popping]);
    WorkerLocks(s, w, [WaitTest(w), Decide(w)] + ([Pop(w), Finish(w)] + []));
    WorkerDecides(s2, w, [Pop(w), Finish(w)] + []);
    WorkerRuns(s4, w);
    assert s4.workers[w := AtLoop] == s.workers;
  }

  /** `Run` does nothing to a running pool, and `Stop` ends with the flag clear. */
  lemma StartAndStop(steps: seq<Step>, threads: set<ThreadId>, id: ThreadId)
    ensures After(START, steps + [Run(threads)]).Some? ==>
              && After(START, steps).Some? && !After(START, steps).value.running
              && forall w :: w in threads ==> WorkerIs(After(START, steps + [Run(threads)]).value, w, AtLoop)
    ensures After(START, steps + [StopFlag(id)]).Some? ==>
              && After(START, steps).Some? && id in After(START, steps).value.stoppers
              && id !in After(START, steps + [StopFlag(id)]).value.stoppers
  {
    var start, stop := steps + [Run(threads)], steps + [StopFlag(id)];
    assert start[..|steps|] == steps && stop[..|steps|] == steps;
    if After(START, start).Some? { AfterLast(START, start); }
    if After(START, stop).Some? { AfterLast(START, stop); }
  }
}
