/** The send queue of one socket (Windows branch of
    elegance/platform/network/socket_accept.cpp). A null entry stands for a send that the
    system has taken on but not completed. */
module SendQueue {
  import opened Bytes

  type Buffer = seq<byte>

  const MAX_SOCKET_MSG_BUFF_LENGTH := 1024 * 4

  /** How `WSASend` returns: at once, with the operation pending, or with a hard error. */
  datatype Outcome = Immediate | Pending | Failed

  /** `outstanding` counts operations whose completion has not been handled; a send that
      returns at once is completed through the port like any other. */
  datatype Socket = Socket(queue: seq<Option<Buffer>>, outstanding: nat, issued: seq<Buffer>, accepted: seq<Buffer>)

  const NEW_SOCKET := Socket([], 0, [], [])

  predicate Sendable(data: Buffer) {
    0 < |data| <= MAX_SOCKET_MSG_BUFF_LENGTH
  }

  function Buffers(queue: seq<Option<Buffer>>): (r: seq<Buffer>)
    ensures |r| <= |queue|
  {
    if queue == [] then []
    else (if queue[0].Some? then [queue[0].value] else []) + Buffers(queue[1..])
  }

  function Issue(s: Socket, data: Buffer, outcome: Outcome): Socket {
    s.(outstanding := s.outstanding + 1, issued := s.issued + [data],
       queue := if outcome == Pending then s.queue + [None] else s.queue)
  }

  /** `Write`; the second component is its result. `ready` says that the endpoint has a
      socket and that a record for the operation could be allocated. */
  function WriteStep(s: Socket, data: Buffer, ready: bool, outcome: Outcome): (r: (Socket, bool)) {
    if !Sendable(data) || !ready then (s, false)
    else if s.queue != [] then (s.(queue := s.queue + [Some(data)], accepted := s.accepted + [data]), true)
    else if outcome == Failed then (s, false)
    else (Issue(s, data, outcome).(accepted := s.accepted + [data]), true)
  }

  /** Drops null entries up to the first buffer. */
  function SkipNulls(queue: seq<Option<Buffer>>): (r: seq<Option<Buffer>>)
    ensures |r| <= |queue| && (r != [] ==> r[0].Some?) && Buffers(r) == Buffers(queue)
  {
    if queue == [] || queue[0].Some? then queue else SkipNulls(queue[1..])
  }

  /** A send has completed with all its bytes: start the next one. */
  function CompleteStep(s: Socket, outcome: Outcome): (r: Socket)
    requires s.outstanding > 0
  {
    var q := SkipNulls(s.queue);
    var s1 := s.(outstanding := s.outstanding - 1);
    if q == [] then s1.(queue := [])
    else if outcome == Failed then s1.(queue := q[1..])
    else Issue(s1.(queue := q[1..]), q[0].value, outcome)
  }

  /** Accepted data is issued or queued, in order, and a queue that is not empty has an
      operation outstanding that will come back for it. */
  predicate Inv(s: Socket) {
    s.accepted == s.issued + Buffers(s.queue) && (s.queue != [] ==> s.outstanding > 0)
  }

  lemma {:induction false} BuffersAppend(q: seq<Option<Buffer>>, x: Option<Buffer>)
    ensures Buffers(q + [x]) == Buffers(q) + if x.Some? then [x.value] else []
  {
    if q == [] {
      assert q + [x] == [x] && [x][1..] == [];
    } else {
      BuffersAppend(q[1..], x);
      assert (q + [x])[1..] == q[1..] + [x];
    }
  }

  lemma WriteKeepsInv(s: Socket, data: Buffer, ready: bool, outcome: Outcome)
    requires Inv(s)
    ensures var (s', ok) := WriteStep(s, data, ready, outcome);
            && Inv(s') && s'.accepted == s.accepted + (if ok then [data] else [])
            && (ok <==> 1 <= |data| <= 4096 && ready && (s.queue != [] || outcome != Failed))
  {
    BuffersAppend(s.queue, Some(data));
    BuffersAppend(s.queue, None);
    assert s.queue == [] ==> s.issued + [data] == s.issued + [data] + [];
    assert s.issued + Buffers(s.queue) + [data] == s.issued + (Buffers(s.queue) + [data]);
  }

  /** The number of completions that a socket still needs. */
  function Left(s: Socket): nat {
    s.outstanding + |Buffers(s.queue)|
  }

  lemma CompleteKeepsInv(s: Socket, outcome: Outcome)
    requires Inv(s) && s.outstanding > 0 && outcome != Failed
    ensures Inv(CompleteStep(s, outcome))
    ensures CompleteStep(s, outcome).accepted == s.accepted
    ensures Left(CompleteStep(s, outcome)) == Left(s) - 1
  {
    var q := SkipNulls(s.queue);
    if q != [] {
      assert Buffers(q) == [q[0].value] + Buffers(q[1..]);
      BuffersAppend(q[1..], None);
      assert s.issued + ([q[0].value] + Buffers(q[1..])) == s.issued + [q[0].value] + Buffers(q[1..]);
    }
  }

  // ----- every run -----

  datatype Step = Write(data: Buffer, ready: bool, outcome: Outcome) | Complete(outcome: Outcome)

  /** Completions without a hard error. */
  predicate Enabled(s: Socket, step: Step) {
    step.Complete? ==> s.outstanding > 0 && step.outcome != Failed
  }

  function Apply(s: Socket, step: Step): Socket
    requires Enabled(s, step)
  {
    match step
    case Write(data, ready, outcome) => WriteStep(s, data, ready, outcome).0
    case Complete(outcome) => CompleteStep(s, outcome)
  }

  function After(s: Socket, steps: seq<Step>): (r: Option<Socket>)
    decreases |steps|
  {
    if steps == [] then Some(s)
    else if !Enabled(s, steps[0]) then None
    else After(Apply(s, steps[0]), steps[1..])
  }

  /** In every interleaving of writes and completions. */
  lemma {:induction false} NothingIsStranded(s: Socket, steps: seq<Step>)
    requires Inv(s) && After(s, steps).Some?
    ensures Inv(After(s, steps).value)
    decreases |steps|
  {
    if steps != [] {
      match steps[0] {
        case Write(data, ready, outcome) => WriteKeepsInv(s, data, ready, outcome);
        case Complete(outcome) => CompleteKeepsInv(s, outcome);
      }
      NothingIsStranded(Apply(s, steps[0]), steps[1..]);
    }
  }

  /** From any reachable state, exactly `Left(s)` completions, however each next send
      returns, put everything accepted on the wire in order and leave the queue empty;
      as long as there are fewer, another one is due. */
  lemma {:induction false} CompletionsDrain(s: Socket, outcomes: seq<Outcome>)
    requires Inv(s) && |outcomes| <= Left(s)
    requires forall i :: 0 <= i < |outcomes| ==> outcomes[i] != Failed
    ensures var r := After(s, Completions(outcomes));
            && r.Some? && r.value.accepted == s.accepted && Left(r.value) == Left(s) - |outcomes|
            && (|outcomes| < Left(s) ==> r.value.outstanding > 0)
            && (|outcomes| == Left(s) ==> r.value.queue == [] && r.value.issued == s.accepted)
    decreases |outcomes|
  {
    if outcomes == [] {
      assert Left(s) == 0 ==> s.issued + Buffers(s.queue) == s.issued;
      BuffersNeedOperation(s);
    } else {
      BuffersNeedOperation(s);
      CompleteKeepsInv(s, outcomes[0]);
      var steps := Completions(outcomes);
      assert steps[0] == Complete(outcomes[0]);
      assert steps[1..] == Completions(outcomes[1..]);
      CompletionsDrain(CompleteStep(s, outcomes[0]), outcomes[1..]);
    }
  }

  lemma BuffersNeedOperation(s: Socket)
    requires Inv(s)
    ensures Left(s) > 0 ==> s.outstanding > 0
  {
    if s.queue == [] { assert Buffers(s.queue) == []; }
  }

  function Completions(outcomes: seq<Outcome>): (r: seq<Step>)
    ensures |r| == |outcomes|
  {
    seq(|outcomes|, i requires 0 <= i < |outcomes| => Complete(outcomes[i]))
  }

  /** A completion whose next send fails hard keeps the promise if and only if there was
      nothing to send. */
  lemma HardFailureLosesData(s: Socket)
    requires Inv(s) && s.outstanding > 0
    ensures Inv(CompleteStep(s, Failed)) <==> Buffers(s.queue) == []
  {
    var q := SkipNulls(s.queue);
    if q == [] {
      assert Buffers(s.queue) == [];
      assert s.issued + [] == s.issued;
    } else {
      assert Buffers(q) == [q[0].value] + Buffers(q[1..]);
      assert |s.issued + Buffers(q[1..])| < |s.accepted|;
    }
  }

  /** Two writes, the second while the first is pending, then a completion whose send
      fails: the second buffer was accepted and is neither issued nor queued. */
  lemma QueuedBufferIsLost(a: Buffer, b: Buffer)
    requires Sendable(a) && Sendable(b)
    ensures var r := After(NEW_SOCKET, [Write(a, true, Pending), Write(b, true, Immediate)]);
            && r.Some? && r.value.outstanding == 1 && r.value.queue == [None, Some(b)]
            && var s := CompleteStep(r.value, Failed);
            s.accepted == [a, b] && s.issued == [a] && s.queue == [] && !Inv(s)
  {
    var first, second := Write(a, true, Pending), Write(b, true, Immediate);
    var s1 := Apply(NEW_SOCKET, first);
    var s2 := Apply(s1, second);
    assert [first, second][1..] == [second] && [second][1..] == [];
    assert After(s1, [second]) == After(s2, []);
    assert s2.queue == [None, Some(b)];
    assert SkipNulls(s2.queue) == SkipNulls([Some(b)]) by { assert s2.queue[1..] == [Some(b)]; }
  }
}
