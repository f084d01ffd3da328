/** How many answering handlers and how many outstanding requests the correlation of
    calls and callbacks bears: exactly one, and exactly as many as there are ids. */
module RpcLimits {
  import opened Bytes
  import opened RpcSession
  import opened RpcRuns

  // ----- two answering handlers -----

  const SEVEN: seq<byte> := [7]
  const FIRST_ASK := Packet(true, Request(0, [1]), 0)
  const FIRST_REPLY := Packet(false, Response(0, SEVEN), 0)
  const SECOND_ASK := Packet(true, Request(0, [2]), 1)
  const BOTH_ANSWER := [Answer(0, SEVEN), Answer(0, SEVEN)]

  function Peers(s: Session): map<Peer, Session> {
    map[false := s, true := NEW_SESSION]
  }

  /** The states of a run in which two handlers answer the first call and its second
      response arrives after the id has been given to the second call. */
  function Mixing(i: nat): World {
    var one, two := CallRecord(false, [1]), CallRecord(false, [2]);
    var given := {AnswerRecord(0, [1], SEVEN)};
    var first, second := CallbackRecord(0, SEVEN), CallbackRecord(1, SEVEN);
    if i == 0 then START
    else if i == 1 then World(Peers(Session(map[0 := 0], [], 1)), multiset{FIRST_ASK}, [one], {}, [])
    else if i == 2 then World(Peers(Session(map[0 := 0], [], 1)), multiset{FIRST_REPLY, FIRST_REPLY}, [one], given, [])
    else if i == 3 then World(Peers(Session(map[], [0], 1)), multiset{FIRST_REPLY}, [one], given, [first])
    else if i == 4 then
      World(Peers(Session(map[0 := 1], [], 1)), multiset{FIRST_REPLY, SECOND_ASK}, [one, two], given, [first])
    else World(Peers(Session(map[], [0], 1)), multiset{SECOND_ASK}, [one, two], given, [first, second])
  }

  function MixUp(i: nat): Step {
    if i == 0 then Call(false, [1])
    else if i == 1 then Ask(FIRST_ASK, BOTH_ANSWER)
    else if i == 3 then Call(false, [2])
    else Reply(FIRST_REPLY)
  }

  ghost predicate Takes(l: Limits, i: nat) {
    Enabled(l, Mixing(i), MixUp(i)) && Apply(l, Mixing(i), MixUp(i)) == Mixing(i + 1)
  }

  lemma FirstCall(l: Limits)
    requires l.outstanding >= 1
    ensures Takes(l, 0)
  {
    var w := Apply(l, Mixing(0), MixUp(0));
    assert CallStep(NEW_SESSION, 0, [1]) == Called(Session(map[0 := 0], [], 1), Some(Request(0, [1])));
    assert w.sessions == Mixing(1).sessions;
    assert w.wire == Mixing(1).wire;
  }

  lemma BothReplies()
    ensures Replies(BOTH_ANSWER) == [SEVEN, SEVEN]
  {
    assert BOTH_ANSWER[1..] == [Answer(0, SEVEN)];
    assert BOTH_ANSWER[1..][1..] == [];
    assert Replies(BOTH_ANSWER[1..][1..]) == [];
    assert Replies(BOTH_ANSWER[1..]) == [SEVEN];
  }

  lemma BothHandlersAnswer(l: Limits)
    requires l.replies >= 2 && l.outstanding >= 1
    ensures Takes(l, 1)
  {
    BothReplies();
    var results := [SEVEN, SEVEN];
    assert results[1..] == [SEVEN];
    OneResponse(FIRST_ASK, results[1..]);
    assert Responses(FIRST_ASK, results) == multiset{FIRST_REPLY, FIRST_REPLY};
    assert AnswersTo(FIRST_ASK, results) == {AnswerRecord(0, [1], SEVEN)};
    var w := Apply(l, Mixing(1), MixUp(1));
    assert w.wire == Mixing(2).wire;
    assert w.answers == Mixing(2).answers;
  }

  lemma FirstReplyArrives(l: Limits)
    ensures Takes(l, 2)
  {
    var w := Apply(l, Mixing(2), MixUp(2));
    assert ResponseStep(Session(map[0 := 0], [], 1), Response(0, SEVEN)).session == Session(map[], [0], 1);
    assert w.sessions == Mixing(3).sessions;
    assert w.wire == Mixing(3).wire;
  }

  lemma SecondCall(l: Limits)
    requires l.outstanding >= 1
    ensures Takes(l, 3)
  {
    var w := Apply(l, Mixing(3), MixUp(3));
    assert CallStep(Session(map[], [0], 1), 1, [2]) == Called(Session(map[0 := 1], [], 1), Some(Request(0, [2])));
    assert w.sessions == Mixing(4).sessions;
    assert w.wire == Mixing(4).wire;
    assert w.calls == Mixing(4).calls;
  }

  lemma SecondReplyArrives(l: Limits)
    ensures Takes(l, 4)
  {
    var w := Apply(l, Mixing(4), MixUp(4));
    assert ResponseStep(Session(map[0 := 1], [], 1), Response(0, SEVEN)).session == Session(map[], [0], 1);
    assert w.sessions == Mixing(5).sessions;
    assert w.wire == Mixing(5).wire;
    assert w.callbacks == Mixing(5).callbacks;
  }

  function MixUpFrom(i: nat): seq<Step>
    requires i <= 5
    decreases 5 - i
  {
    if i == 5 then [] else [MixUp(i)] + MixUpFrom(i + 1)
  }

  lemma {:induction false} MixUpRuns(l: Limits, i: nat)
    requires i <= 5 && forall j :: i <= j < 5 ==> Takes(l, j)
    ensures Run(l, Mixing(i), MixUpFrom(i)) == Some(Mixing(5))
    decreases 5 - i
  {
    if i < 5 {
      assert Takes(l, i);
      assert MixUpFrom(i)[1..] == MixUpFrom(i + 1);
      MixUpRuns(l, i + 1);
    }
  }

  lemma MixUpTaken(l: Limits, i: nat)
    requires l.replies >= 2 && l.outstanding >= 1 && i < 5
    ensures Takes(l, i)
  {
    if i == 0 { FirstCall(l); }
    else if i == 1 { BothHandlersAnswer(l); }
    else if i == 2 { FirstReplyArrives(l); }
    else if i == 3 { SecondCall(l); }
    else { SecondReplyArrives(l); }
  }

  lemma MixedUp(w: World)
    requires w == Mixing(5)
    ensures !Correlated(w)
  {
    assert w.callbacks[1] == CallbackRecord(1, SEVEN);
    assert forall r :: r in w.answers ==> r.tag == 0;
  }

  /** With two answering handlers the second call is called back with the result of
      the first. */
  lemma SecondCallGetsFirstResult(l: Limits)
    requires l.replies >= 2 && l.outstanding >= 1
    ensures Run(l, START, MixUpFrom(0)).Some?
    ensures !Correlated(Run(l, START, MixUpFrom(0)).value)
  {
    forall j: nat | 0 <= j < 5 ensures Takes(l, j) { MixUpTaken(l, j); }
    MixUpRuns(l, 0);
    assert Mixing(0) == START;
    MixedUp(Mixing(5));
  }

  // ----- more requests than ids -----

  const LATE: seq<byte> := [2]

  function Asking(i: nat): Packet {
    Packet(true, Request(i, [1]), i)
  }

  function Asked(n: nat): multiset<Packet> {
    if n == 0 then multiset{} else Asked(n - 1) + multiset{Asking(n - 1)}
  }

  function Callers(n: nat): (r: seq<CallRecord>)
    ensures |r| == n
  {
    if n == 0 then [] else Callers(n - 1) + [CallRecord(false, [1])]
  }

  /** The world after `n` unanswered calls by one peer. */
  function Crowded(n: nat): World {
    World(Peers(Filled(n)), Asked(n), Callers(n), {}, [])
  }

  lemma Replaced(s: Session, s': Session)
    ensures Peers(s)[false := s'] == Peers(s')
  {
  }

  /** A call by the first peer, spelled out. */
  lemma CallByFirst(l: Limits, s: Session, w: World, payload: seq<byte>)
    requires w.sessions == Peers(s) && |s.outstanding| < l.outstanding && Sendable(payload)
    ensures Enabled(l, w, Call(false, payload))
    ensures var r := CallStep(s, |w.calls|, payload);
            Apply(l, w, Call(false, payload)) ==
            World(Peers(r.session), w.wire + multiset{Packet(true, r.sent.value, |w.calls|)},
                  w.calls + [CallRecord(false, payload)], w.answers, w.callbacks)
  {
    Replaced(s, CallStep(s, |w.calls|, payload).session);
  }

  lemma CrowdGrows(l: Limits, n: nat)
    requires n < SHRT_MAX && n < l.outstanding
    ensures Leads(l, Crowded(n), Call(false, [1]), Crowded(n + 1))
  {
    CallFills(n, [1]);
    CallByFirst(l, Filled(n), Crowded(n), [1]);
  }

  /** The same step `n` times, and then the steps `last`. */
  function Repeat<S>(n: nat, step: S, last: seq<S>): seq<S> {
    if n == 0 then last else [step] + Repeat(n - 1, step, last)
  }

  ghost predicate Moves<W(!new), S(!new)>(
    run: (W, seq<S>) -> Option<W>, world: nat -> W, step: S, j: nat, rest: seq<S>)
  {
    run(world(j), [step] + rest) == run(world(j + 1), rest)
  }

  ghost predicate AllMove<W(!new), S(!new)>(run: (W, seq<S>) -> Option<W>, world: nat -> W, step: S, i: nat, n: nat) {
    forall j: nat, rest :: i <= j < n ==> Moves(run, world, step, j, rest)
  }

  lemma {:induction false} RepeatRuns<W(!new), S(!new)>(
    run: (W, seq<S>) -> Option<W>, world: nat -> W, step: S, i: nat, n: nat, last: seq<S>)
    requires i <= n && AllMove(run, world, step, i, n)
    ensures run(world(i), Repeat(n - i, step, last)) == run(world(n), last)
    decreases n - i
  {
    if i < n {
      assert Moves(run, world, step, i, Repeat(n - i - 1, step, last));
      RepeatRuns(run, world, step, i + 1, n, last);
    }
  }

  predicate Leads(l: Limits, w: World, step: Step, w': World) {
    Enabled(l, w, step) && Apply(l, w, step) == w'
  }

  lemma RunFirst(l: Limits, w: World, step: Step, w': World, rest: seq<Step>)
    requires Leads(l, w, step, w')
    ensures Run(l, w, [step] + rest) == Run(l, w', rest)
  {
    assert ([step] + rest)[1..] == rest;
  }

  lemma CrowdStep(l: Limits, i: nat, rest: seq<Step>)
    requires i < SHRT_MAX && i < l.outstanding
    ensures Run(l, Crowded(i), [Call(false, [1])] + rest) == Run(l, Crowded(i + 1), rest)
  {
    CrowdGrows(l, i);
    RunFirst(l, Crowded(i), Call(false, [1]), Crowded(i + 1), rest);
  }

  function Runner(l: Limits): (World, seq<Step>) -> Option<World> {
    (w: World, steps: seq<Step>) => Run(l, w, steps)
  }

  lemma CrowdMoves(l: Limits, j: nat, rest: seq<Step>)
    requires j < SHRT_MAX && j < l.outstanding
    ensures Moves(Runner(l), Crowded, Call(false, [1]), j, rest)
  {
    CrowdStep(l, j, rest);
  }

  lemma CrowdMovesOn(l: Limits, i: nat, n: nat)
    requires n <= SHRT_MAX && n <= l.outstanding
    ensures AllMove(Runner(l), Crowded, Call(false, [1]), i, n)
  {
    forall j: nat, rest | i <= j < n ensures Moves(Runner(l), Crowded, Call(false, [1]), j, rest) {
      CrowdMoves(l, j, rest);
    }
  }

  lemma CrowdRuns(l: Limits, i: nat, n: nat, last: seq<Step>)
    requires i <= n <= SHRT_MAX && n <= l.outstanding
    ensures Runner(l)(Crowded(i), Repeat(n - i, Call(false, [1]), last)) == Runner(l)(Crowded(n), last)
  {
    CrowdMovesOn(l, i, n);
    RepeatRuns(Runner(l), Crowded, Call(false, [1]), i, n, last);
  }

  lemma {:induction false} FirstStillAsked(n: nat)
    requires n > 0
    ensures FIRST_ASK in Asked(n)
  {
    if n > 1 { FirstStillAsked(n - 1); }
  }

  const LATE_CALL := Call(false, LATE)
  const FIRST_ANSWERED := Ask(FIRST_ASK, [Answer(0, SEVEN)])

  /** What matters once the call too many has taken the id of the first call, whose request
      or response is still on its way. */
  predicate Overfull(w: World, n: nat, asked: Packet) {
    && w.sessions == Peers(Session(Numbered(n)[0 := n], [], 1))
    && |w.calls| == n + 1 && w.callbacks == [] && asked in w.wire
  }

  lemma CallTooMany(l: Limits, n: nat, w: World, w': World)
    requires 0 < n < l.outstanding && n % SHRT_MAX == 0 && w == Crowded(n)
    requires w' == World(Peers(Session(Numbered(n)[0 := n], [], 1)),
                         w.wire + multiset{Packet(true, Request(0, LATE), n)},
                         w.calls + [CallRecord(false, LATE)], w.answers, w.callbacks)
    ensures Leads(l, w, LATE_CALL, w') && Overfull(w', n, FIRST_ASK) && w'.answers == {}
  {
    FirstStillAsked(n);
    WrapsToZero(n);
    CallByFirst(l, Filled(n), w, LATE);
  }

  lemma FirstIsAnswered(l: Limits, w: World, n: nat) returns (w': World)
    requires l.replies >= 1 && Overfull(w, n, FIRST_ASK) && w.answers == {}
    ensures Leads(l, w, FIRST_ANSWERED, w') && Overfull(w', n, FIRST_REPLY)
    ensures w'.answers == {AnswerRecord(0, [1], SEVEN)}
  {
    var given := [Answer(0, SEVEN)];
    assert given[1..] == [] && Replies(given[1..]) == [];
    assert Replies(given) == [SEVEN];
    OneResponse(FIRST_ASK, [SEVEN]);
    assert AnswersTo(FIRST_ASK, [SEVEN]) == {AnswerRecord(0, [1], SEVEN)};
    w' := Apply(l, w, FIRST_ANSWERED);
  }

  lemma LateCallIsCalledBack(l: Limits, w: World, n: nat) returns (w': World)
    requires 0 < n && Overfull(w, n, FIRST_REPLY) && w.answers == {AnswerRecord(0, [1], SEVEN)}
    ensures Leads(l, w, Reply(FIRST_REPLY), w')
    ensures w'.callbacks == [CallbackRecord(n, SEVEN)] && !Correlated(w')
  {
    w' := Apply(l, w, Reply(FIRST_REPLY));
    assert w'.callbacks == [CallbackRecord(n, SEVEN)];
    assert w'.callbacks[0].req == n;
    assert forall r :: r in w'.answers ==> r.tag == 0;
  }

  function Overrun(n: nat): seq<Step> {
    Repeat(n, Call(false, [1]), LateSteps())
  }

  function LateSteps(): seq<Step> {
    [LATE_CALL] + ([FIRST_ANSWERED] + ([Reply(FIRST_REPLY)] + []))
  }

  lemma LateRuns(l: Limits, n: nat)
    requires 0 < n < l.outstanding && n % SHRT_MAX == 0 && l.replies >= 1
    ensures Run(l, Crowded(n), LateSteps()).Some? && !Correlated(Run(l, Crowded(n), LateSteps()).value)
  {
    var w := Crowded(n);
    var w1 := World(Peers(Session(Numbered(n)[0 := n], [], 1)), w.wire + multiset{Packet(true, Request(0, LATE), n)},
                    w.calls + [CallRecord(false, LATE)], w.answers, w.callbacks);
    CallTooMany(l, n, w, w1);
    var w2 := FirstIsAnswered(l, w1, n);
    var w3 := LateCallIsCalledBack(l, w2, n);
    RunThree(l, w, w1, w2, w3);
  }

  lemma RunThree(l: Limits, w: World, w1: World, w2: World, w3: World)
    requires Leads(l, w, LATE_CALL, w1) && Leads(l, w1, FIRST_ANSWERED, w2) && Leads(l, w2, Reply(FIRST_REPLY), w3)
    ensures Run(l, w, LateSteps()) == Some(w3)
  {
    RunFirst(l, w2, Reply(FIRST_REPLY), w3, []);
    RunFirst(l, w1, FIRST_ANSWERED, w2, [Reply(FIRST_REPLY)] + []);
    RunFirst(l, w, LATE_CALL, w1, [FIRST_ANSWERED] + ([Reply(FIRST_REPLY)] + []));
  }

  /** With one request more outstanding than there are ids, the last call is called back
      with the result of the first. */
  lemma LateCallGetsFirstResult(l: Limits, n: nat)
    requires n == SHRT_MAX < l.outstanding && l.replies >= 1
    ensures Run(l, START, Overrun(n)).Some?
    ensures !Correlated(Run(l, START, Overrun(n)).value)
  {
    assert Crowded(0) == START;
    CrowdRuns(l, 0, n, LateSteps());
    LateRuns(l, n);
  }

  // ----- within the limits -----

  /** Nothing has been called back and nothing will be. */
  predicate Silent(l: Limits, w: World) {
    && w.callbacks == []
    && (forall k :: k in w.wire ==> k.msg.Request?)
    && (l.outstanding == 0 ==> w.wire == multiset{})
  }

  lemma SilentStep(l: Limits, w: World, step: Step)
    requires (l.replies == 0 || l.outstanding == 0) && Silent(l, w) && Enabled(l, w, step)
    ensures Silent(l, Apply(l, w, step))
  {
    match step {
      case Call(p, payload) =>
      case Ask(k, given) => assert Responses(k, Replies(given)) == multiset{};
      case Reply(k) => assert false;
      case Lose(k) =>
    }
  }

  lemma {:induction false} SilentRuns(l: Limits, w: World, steps: seq<Step>)
    requires (l.replies == 0 || l.outstanding == 0) && Silent(l, w) && Run(l, w, steps).Some?
    ensures Silent(l, Run(l, w, steps).value)
    decreases |steps|
  {
    if steps != [] {
      SilentStep(l, w, steps[0]);
      SilentRuns(l, Apply(l, w, steps[0]), steps[1..]);
    }
  }

  lemma {:induction false} LowerLimits(l: Limits, w: World, steps: seq<Step>)
    requires l.replies <= 1 && l.outstanding <= SHRT_MAX
    ensures Run(l, w, steps).Some? ==> Run(SAFE, w, steps) == Run(l, w, steps)
    decreases |steps|
  {
    if steps != [] && Enabled(l, w, steps[0]) {
      LowerLimits(l, Apply(l, w, steps[0]), steps[1..]);
    }
  }

  /** Exactly the limits under which every run correlates: nobody calls, nobody answers,
      or one handler answers and there is an id for every outstanding request. */
  lemma CorrelatesIffWithinLimits(l: Limits)
    ensures (forall steps :: Run(l, START, steps).Some? ==> Correlated(Run(l, START, steps).value)) <==>
            l.replies == 0 || l.outstanding == 0 || (l.replies == 1 && l.outstanding <= SHRT_MAX)
  {
    if l.replies == 0 || l.outstanding == 0 {
      forall steps | Run(l, START, steps).Some? ensures Correlated(Run(l, START, steps).value) {
        SilentRuns(l, START, steps);
      }
    } else if l.replies >= 2 {
      SecondCallGetsFirstResult(l);
    } else if l.outstanding > SHRT_MAX {
      LateCallGetsFirstResult(l, SHRT_MAX);
    } else {
      forall steps | Run(l, START, steps).Some? ensures Correlated(Run(l, START, steps).value) {
        LowerLimits(l, START, steps);
        OneHandlerCorrelates(steps);
      }
    }
  }
}
