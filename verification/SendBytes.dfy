/** The send queue down to the bytes (Windows branch of
    elegance/platform/network/socket_accept.cpp): the system may take only part of a buffer,
    and the rest is then sent again from where it stopped. */
module SendBytes {
  import opened Bytes
  import Framing
  import opened SendQueue

  /** An operation in flight: a buffer and how many of its bytes the system took. */
  datatype Op = Op(data: Buffer, taken: nat) {
    predicate Valid() {
      0 < taken <= |data|
    }

    function Rest(): Buffer
      requires Valid()
    {
      data[taken..]
    }
  }

  /** `wire` is what the system took so far, in the order of the calls of `WSASend`. */
  datatype Channel = Channel(queue: seq<Option<Buffer>>, ops: seq<Op>, wire: seq<byte>, accepted: seq<Buffer>)

  const NEW_CHANNEL := Channel([], [], [], [])

  predicate AllValid(ops: seq<Op>) {
    forall i :: 0 <= i < |ops| ==> ops[i].Valid()
  }

  /** `WSASend` with some bytes taken. */
  function Start(c: Channel, op: Op): (r: Channel)
    requires op.Valid()
  {
    c.(ops := c.ops + [op], wire := c.wire + op.data[..op.taken])
  }

  function Mark(queue: seq<Option<Buffer>>, outcome: Outcome): seq<Option<Buffer>> {
    if outcome == Pending then queue + [None] else queue
  }

  /** `Write`; `taken` matters only when the buffer is sent at once. */
  function WriteBytes(c: Channel, data: Buffer, ready: bool, outcome: Outcome, taken: nat): (r: (Channel, bool))
    requires 0 < taken <= |data| || data == []
  {
    if !Sendable(data) || !ready then (c, false)
    else if c.queue != [] then (c.(queue := c.queue + [Some(data)], accepted := c.accepted + [data]), true)
    else if outcome == Failed then (c, false)
    else (Start(c, Op(data, taken)).(queue := Mark(c.queue, outcome), accepted := c.accepted + [data]), true)
  }

  function Without(ops: seq<Op>, i: nat): (r: seq<Op>)
    requires i < |ops|
    ensures |r| == |ops| - 1
  {
    ops[..i] + ops[i + 1..]
  }

  /** What a completion sends next: the rest of its own buffer, or the first one queued. */
  function NextSend(c: Channel, i: nat): (r: Option<Buffer>)
    requires i < |c.ops| && c.ops[i].Valid()
  {
    var op, q := c.ops[i], SkipNulls(c.queue);
    if op.taken < |op.data| then Some(op.Rest()) else if q == [] then None else q[0]
  }

  /** The operation `i` has completed. A hard error drops what was to be sent next. */
  function CompleteBytes(c: Channel, i: nat, outcome: Outcome, taken: nat): (r: Channel)
    requires i < |c.ops| && c.ops[i].Valid()
    requires NextSend(c, i).Some? ==> 0 < taken <= |NextSend(c, i).value|
  {
    var op, q := c.ops[i], SkipNulls(c.queue);
    var c1 := c.(ops := Without(c.ops, i));
    if op.taken < |op.data| then
      if outcome == Failed then c1 else Start(c1, Op(op.Rest(), taken))
    else if q == [] then c1.(queue := [])
    else if outcome == Failed then c1.(queue := q[1..])
    else Start(c1, Op(q[0].value, taken)).(queue := Mark(q[1..], outcome))
  }

  // ----- the order of the bytes -----

  /** What a system may do: take part of a buffer, and complete a send at once, so that the
      next `Write` sends while an operation is in flight. */
  datatype Mode = Mode(partial: bool, immediate: bool)

  function Join(buffers: seq<Buffer>): seq<byte> {
    Framing.Join(buffers)
  }

  /** The bytes that operations in flight still have to send, in the order of the operations. */
  function Rests(ops: seq<Op>): seq<byte>
    requires AllValid(ops)
  {
    if ops == [] then [] else ops[0].Rest() + Rests(ops[1..])
  }

  /** The bytes taken, the rest of what is in flight and the bytes queued are, in this
      order, the bytes accepted. */
  ghost predicate Ordered(m: Mode, c: Channel) {
    && AllValid(c.ops)
    && c.wire + (Rests(c.ops) + Join(Buffers(c.queue))) == Join(c.accepted)
    && (c.queue != [] ==> c.ops != []) && HaveBytes(Buffers(c.queue))
    && (!m.partial ==> forall i :: 0 <= i < |c.ops| ==> c.ops[i].taken == |c.ops[i].data|)
    && (!m.immediate ==> |c.ops| <= 1 && (c.ops != [] ==> c.queue != []))
  }

  predicate HaveBytes(buffers: seq<Buffer>) {
    forall i :: 0 <= i < |buffers| ==> buffers[i] != []
  }

  /** Popping the first buffer, and marking the queue when the send is pending. */
  lemma {:induction false} Popped(queue: seq<Option<Buffer>>, outcome: Outcome)
    requires SkipNulls(queue) != []
    ensures var q := SkipNulls(queue);
            var later := Buffers(Mark(q[1..], outcome));
            && later == Buffers(q[1..]) && Buffers(queue) == [q[0].value] + later
            && Join(Buffers(queue)) == q[0].value + Join(later)
            && (HaveBytes(Buffers(queue)) ==> q[0].value != [] && HaveBytes(later))
  {
    var q := SkipNulls(queue);
    var later := Buffers(q[1..]);
    assert Buffers(q) == [q[0].value] + later;
    BuffersAppend(q[1..], None);
    JoinFirst(q[0].value, later);
    assert forall i :: 0 <= i < |later| ==> later[i] == Buffers(q)[i + 1];
  }

  lemma {:induction false} WholeRests(ops: seq<Op>)
    requires AllValid(ops) && forall i :: 0 <= i < |ops| ==> ops[i].taken == |ops[i].data|
    ensures Rests(ops) == []
  {
    if ops != [] { WholeRests(ops[1..]); }
  }

  lemma {:induction false} RestsAppend(ops: seq<Op>, op: Op)
    requires AllValid(ops) && op.Valid()
    ensures Rests(ops + [op]) == Rests(ops) + op.Rest()
  {
    if ops == [] {
      assert ops + [op] == [op] && [op][1..] == [];
    } else {
      assert (ops + [op])[1..] == ops[1..] + [op];
      RestsAppend(ops[1..], op);
      Assoc(ops[0].Rest(), Rests(ops[1..]), op.Rest());
    }
  }

  lemma {:induction false} JoinAppend(buffers: seq<Buffer>, b: Buffer)
    ensures Join(buffers + [b]) == Join(buffers) + b
  {
    if buffers == [] {
      assert buffers + [b] == [b] && [b][1..] == [];
    } else {
      assert (buffers + [b])[1..] == buffers[1..] + [b];
      JoinAppend(buffers[1..], b);
      Assoc(buffers[0], Join(buffers[1..]), b);
    }
  }

  lemma JoinFirst(b: Buffer, later: seq<Buffer>)
    ensures Join([b] + later) == b + Join(later)
  {
    assert ([b] + later)[1..] == later;
  }

  /** A new operation, started when nothing else in flight has a rest. */
  lemma StartOrdered(c: Channel, op: Op, later: seq<byte>)
    requires AllValid(c.ops) && op.Valid() && Rests(c.ops) == []
    ensures var r := Start(c, op);
            AllValid(r.ops) && r.wire + (Rests(r.ops) + later) == c.wire + (op.data + later)
  {
    RestsAppend(c.ops, op);
    assert op.data == op.data[..op.taken] + op.Rest();
    assert [] + op.Rest() == op.Rest();
    Assoc(op.data[..op.taken], op.Rest(), later);
    Assoc(c.wire, op.data[..op.taken], op.Rest() + later);
  }

  /** A call of `WSASend` that the mode allows. */
  predicate Allowed(m: Mode, d: Buffer, outcome: Outcome, taken: nat) {
    0 < taken <= |d| && (!m.partial ==> taken == |d|) && (outcome == Immediate ==> m.immediate)
  }

  predicate KeepsOrder(m: Mode) {
    !m.partial || !m.immediate
  }

  /** Then nothing in flight has a rest when a buffer is sent. */
  lemma NoRests(m: Mode, c: Channel)
    requires Ordered(m, c) && KeepsOrder(m)
    ensures c.queue == [] ==> Rests(c.ops) == []
    ensures forall i :: 0 <= i < |c.ops| && c.ops[i].taken == |c.ops[i].data| ==>
              AllValid(Without(c.ops, i)) && Rests(Without(c.ops, i)) == Rests(c.ops) == []
  {
    if !m.partial { WholeRests(c.ops); }
    forall i | 0 <= i < |c.ops| && c.ops[i].taken == |c.ops[i].data|
      ensures AllValid(Without(c.ops, i)) && Rests(Without(c.ops, i)) == Rests(c.ops) == []
    {
      if !m.partial {
        WholeRests(Without(c.ops, i));
      } else {
        assert c.ops == [c.ops[0]] && Without(c.ops, i) == [];
        assert Rests(c.ops) == c.ops[0].Rest() + Rests([]);
      }
    }
  }

  lemma QueuedOrdered(m: Mode, c: Channel, data: Buffer)
    requires Ordered(m, c) && c.queue != [] && data != []
    ensures Ordered(m, c.(queue := c.queue + [Some(data)], accepted := c.accepted + [data]))
  {
    BuffersAppend(c.queue, Some(data));
    JoinAppend(Buffers(c.queue), data);
    JoinAppend(c.accepted, data);
    Assoc(Rests(c.ops), Join(Buffers(c.queue)), data);
    Assoc(c.wire, Rests(c.ops) + Join(Buffers(c.queue)), data);
  }

  lemma SentOrdered(m: Mode, c: Channel, data: Buffer, outcome: Outcome, taken: nat)
    requires Ordered(m, c) && KeepsOrder(m) && c.queue == [] && Allowed(m, data, outcome, taken) && outcome != Failed
    ensures Ordered(m, Start(c, Op(data, taken)).(queue := Mark([], outcome), accepted := c.accepted + [data]))
  {
    NoRests(m, c);
    StartOrdered(c, Op(data, taken), []);
    JoinAppend(c.accepted, data);
    assert [] + Join([]) == [] && data + [] == data && c.wire + [] == c.wire;
    BuffersAppend([], None);
    assert Mark([], Pending) == [] + [None];
  }

  lemma WriteOrdered(m: Mode, c: Channel, data: Buffer, ready: bool, outcome: Outcome, taken: nat)
    requires Ordered(m, c) && KeepsOrder(m) && (data != [] ==> Allowed(m, data, outcome, taken))
    ensures Ordered(m, WriteBytes(c, data, ready, outcome, taken).0)
  {
    if Sendable(data) && ready {
      if c.queue != [] { QueuedOrdered(m, c, data); }
      else if outcome != Failed { SentOrdered(m, c, data, outcome, taken); }
    }
  }

  lemma RestSentOrdered(m: Mode, c: Channel, i: nat, outcome: Outcome, taken: nat)
    requires Ordered(m, c) && KeepsOrder(m) && i < |c.ops| && c.ops[i].taken < |c.ops[i].data|
    requires Allowed(m, c.ops[i].Rest(), outcome, taken) && outcome != Failed
    ensures Ordered(m, CompleteBytes(c, i, outcome, taken))
  {
    var op := c.ops[i];
    assert m.partial && c.ops == [op] && Without(c.ops, i) == [];
    assert Rests(c.ops) == op.Rest() + Rests([]) == op.Rest();
    StartOrdered(c.(ops := []), Op(op.Rest(), taken), Join(Buffers(c.queue)));
  }

  lemma NextSentOrdered(m: Mode, c: Channel, i: nat, outcome: Outcome, taken: nat)
    requires Ordered(m, c) && KeepsOrder(m) && i < |c.ops| && c.ops[i].taken == |c.ops[i].data|
    requires NextSend(c, i).Some? ==> Allowed(m, NextSend(c, i).value, outcome, taken) && outcome != Failed
    ensures Ordered(m, CompleteBytes(c, i, outcome, taken))
  {
    NoRests(m, c);
    var q, c1 := SkipNulls(c.queue), c.(ops := Without(c.ops, i));
    assert [] + Join(Buffers(c.queue)) == Join(Buffers(c.queue));
    if q != [] {
      Popped(c.queue, outcome);
      StartOrdered(c1, Op(q[0].value, taken), Join(Buffers(Mark(q[1..], outcome))));
    }
  }

  // ----- every run -----

  datatype Move =
    | Send(data: Buffer, ready: bool, outcome: Outcome, taken: nat)
    | Done(index: nat, outcome: Outcome, taken: nat)

  /** Completions without a hard error. */
  predicate Enabled(m: Mode, c: Channel, move: Move) {
    match move
    case Send(data, _, outcome, taken) => data != [] ==> Allowed(m, data, outcome, taken)
    case Done(i, outcome, taken) =>
      && i < |c.ops| && c.ops[i].Valid() && outcome != Failed
      && (NextSend(c, i).Some? ==> Allowed(m, NextSend(c, i).value, outcome, taken))
  }

  function Apply(m: Mode, c: Channel, move: Move): Channel
    requires Enabled(m, c, move)
  {
    match move
    case Send(data, ready, outcome, taken) => WriteBytes(c, data, ready, outcome, taken).0
    case Done(i, outcome, taken) => CompleteBytes(c, i, outcome, taken)
  }

  function Run(m: Mode, c: Channel, moves: seq<Move>): (r: Option<Channel>)
    decreases |moves|
  {
    if moves == [] then Some(c)
    else if !Enabled(m, c, moves[0]) then None
    else Run(m, Apply(m, c, moves[0]), moves[1..])
  }

  lemma {:induction false} RunOrdered(m: Mode, c: Channel, moves: seq<Move>)
    requires Ordered(m, c) && KeepsOrder(m) && Run(m, c, moves).Some?
    ensures Ordered(m, Run(m, c, moves).value)
    decreases |moves|
  {
    if moves != [] {
      match moves[0] {
        case Send(data, ready, outcome, taken) => WriteOrdered(m, c, data, ready, outcome, taken);
        case Done(i, outcome, taken) =>
          if c.ops[i].taken < |c.ops[i].data| { RestSentOrdered(m, c, i, outcome, taken); }
          else { NextSentOrdered(m, c, i, outcome, taken); }
      }
      RunOrdered(m, Apply(m, c, moves[0]), moves[1..]);
    }
  }

  predicate InOrder(c: Channel) {
    c.wire <= Join(c.accepted)
  }

  /** In every run of such a system, whatever part of which buffer it takes: the bytes on
      the wire are the first of those accepted, and all of them once nothing is in flight. */
  lemma BytesKeepOrder(m: Mode, moves: seq<Move>)
    requires KeepsOrder(m) && Run(m, NEW_CHANNEL, moves).Some?
    ensures var c := Run(m, NEW_CHANNEL, moves).value;
            InOrder(c) && (c.ops == [] ==> c.queue == [] && c.wire == Join(c.accepted))
  {
    assert Ordered(m, NEW_CHANNEL);
    RunOrdered(m, NEW_CHANNEL, moves);
    var c := Run(m, NEW_CHANNEL, moves).value;
    if c.ops == [] { NothingInFlight(m, c); }
  }

  /** Part of the first buffer, then the second, then the rest of the first. */
  lemma RestComesLate(m: Mode)
    requires m.partial && m.immediate
    ensures var r := Run(m, NEW_CHANNEL, [Send([1, 2], true, Immediate, 1), Send([3], true, Immediate, 1)]);
            r.Some? && r.value.wire == [1, 3] && r.value.accepted == [[1, 2], [3]] && !InOrder(r.value)
  {
    var first, second := Send([1, 2], true, Immediate, 1), Send([3], true, Immediate, 1);
    assert [first, second][1..] == [second] && [second][1..] == [];
    var c1 := Apply(m, NEW_CHANNEL, first);
    assert c1.wire == [1] && c1.queue == [];
    var c2 := Apply(m, c1, second);
    assert c2.wire == [1, 3] && c2.accepted == [[1, 2], [3]];
    assert Run(m, c1, [second]) == Run(m, c2, []);
    assert [[1, 2], [3]][1..] == [[3]] && [[3]][1..] == [];
    assert Join([[3]]) == [3] + Join([]) == [3];
    assert Join([[1, 2], [3]]) == [1, 2] + [3] == [1, 2, 3];
    assert c2.wire[1] != Join(c2.accepted)[1];
  }

  /** The bytes stay in order in every run if and only if the system never both takes part
      of a buffer and completes a send at once. */
  lemma InOrderIff(m: Mode)
    ensures (forall moves :: Run(m, NEW_CHANNEL, moves).Some? ==> InOrder(Run(m, NEW_CHANNEL, moves).value)) <==>
            KeepsOrder(m)
  {
    if KeepsOrder(m) {
      forall moves | Run(m, NEW_CHANNEL, moves).Some? ensures InOrder(Run(m, NEW_CHANNEL, moves).value) {
        BytesKeepOrder(m, moves);
      }
    } else {
      RestComesLate(m);
    }
  }

  // ----- completions run out -----

  /** What a channel still has to do: bytes not yet taken and operations in flight. */
  function Due(c: Channel): nat
    requires AllValid(c.ops)
  {
    |Rests(c.ops)| + |Join(Buffers(c.queue))| + |c.ops|
  }

  lemma StartDue(c: Channel, op: Op)
    requires AllValid(c.ops) && op.Valid()
    ensures AllValid(Start(c, op).ops) && |Rests(Start(c, op).ops)| == |Rests(c.ops)| + |op.data| - op.taken
  {
    RestsAppend(c.ops, op);
  }

  /** Every completion brings the end closer. */
  lemma DoneProgresses(m: Mode, c: Channel, i: nat, outcome: Outcome, taken: nat)
    requires Ordered(m, c) && KeepsOrder(m) && Enabled(m, c, Done(i, outcome, taken))
    ensures Ordered(m, CompleteBytes(c, i, outcome, taken)) && Due(CompleteBytes(c, i, outcome, taken)) < Due(c)
  {
    var op := c.ops[i];
    if op.taken < |op.data| {
      RestSentOrdered(m, c, i, outcome, taken);
      assert c.ops == [op] && Without(c.ops, i) == [];
      assert Rests(c.ops) == op.Rest() + Rests([]) == op.Rest();
      StartDue(c.(ops := []), Op(op.Rest(), taken));
    } else {
      NextSentOrdered(m, c, i, outcome, taken);
      NoRests(m, c);
      var q := SkipNulls(c.queue);
      if q != [] {
        Popped(c.queue, outcome);
        StartDue(c.(ops := Without(c.ops, i)), Op(q[0].value, taken));
      }
    }
  }

  /** Without new writes the channel runs empty: no more than `Due(c)` completions can come,
      as long as an operation is in flight another one can, and after the last of them
      everything accepted is on the wire. */
  lemma {:induction false} CompletionsRunOut(m: Mode, c: Channel, moves: seq<Move>)
    requires Ordered(m, c) && KeepsOrder(m) && Run(m, c, moves).Some?
    requires forall i :: 0 <= i < |moves| ==> moves[i].Done?
    ensures var r := Run(m, c, moves).value;
            && |moves| <= Due(c)
            && (r.ops != [] ==> exists taken :: Enabled(m, r, Done(0, Pending, taken)))
            && (r.ops == [] ==> r.wire == Join(c.accepted))
    decreases |moves|
  {
    if moves == [] {
      if c.ops != [] { CompletionPossible(m, c); } else { NothingInFlight(m, c); }
    } else {
      var (i, outcome, taken) := (moves[0].index, moves[0].outcome, moves[0].taken);
      DoneProgresses(m, c, i, outcome, taken);
      CompletionsRunOut(m, CompleteBytes(c, i, outcome, taken), moves[1..]);
    }
  }

  lemma NothingInFlight(m: Mode, c: Channel)
    requires Ordered(m, c) && c.ops == []
    ensures c.queue == [] && c.wire == Join(c.accepted)
  {
    assert c.wire + ([] + []) == c.wire;
  }

  lemma CompletionPossible(m: Mode, c: Channel)
    requires Ordered(m, c) && c.ops != []
    ensures var next := NextSend(c, 0); Enabled(m, c, Done(0, Pending, if next.Some? then |next.value| else 0))
  {
    var q := SkipNulls(c.queue);
    if q != [] { Popped(c.queue, Pending); }
  }

  // ----- a hard error -----

  /** A completion whose send fails hard keeps the promise if and only if it had nothing to
      send: neither a rest of its own buffer nor a buffer queued. */
  lemma FailureKeepsOrderIff(m: Mode, c: Channel, i: nat, taken: nat)
    requires Ordered(m, c) && KeepsOrder(m) && i < |c.ops|
    requires NextSend(c, i).Some? ==> 0 < taken <= |NextSend(c, i).value|
    ensures Ordered(m, CompleteBytes(c, i, Failed, taken)) <==> NextSend(c, i) == None
  {
    var op, q, r := c.ops[i], SkipNulls(c.queue), CompleteBytes(c, i, Failed, taken);
    if op.taken < |op.data| {
      assert c.ops == [op] && r.ops == [];
      assert Rests(c.ops) == op.Rest() + Rests([]) == op.Rest();
      assert |r.wire + (Rests(r.ops) + Join(Buffers(r.queue)))| < |Join(c.accepted)|;
    } else if q == [] {
      NextSentOrdered(m, c, i, Failed, taken);
    } else {
      NoRests(m, c);
      Popped(c.queue, Failed);
      assert AllValid(r.ops) ==> |r.wire + (Rests(r.ops) + Join(Buffers(r.queue)))| < |Join(c.accepted)|;
    }
  }

  // ----- buffers taken whole -----

  /** The coarser model, in which a buffer is issued whole and operations are counted. */
  ghost predicate Matches(c: Channel, s: Socket) {
    && c.queue == s.queue && |c.ops| == s.outstanding && c.accepted == s.accepted && c.wire == Join(s.issued)
    && AllValid(c.ops) && forall i :: 0 <= i < |c.ops| ==> c.ops[i].taken == |c.ops[i].data|
  }

  lemma WriteMatches(c: Channel, s: Socket, data: Buffer, ready: bool, outcome: Outcome)
    requires Matches(c, s)
    ensures var r, t := WriteBytes(c, data, ready, outcome, |data|), WriteStep(s, data, ready, outcome);
            r.1 == t.1 && Matches(r.0, t.0)
  {
    JoinAppend(s.issued, data);
    assert data[..|data|] == data;
  }

  lemma CompleteMatches(c: Channel, s: Socket, i: nat, outcome: Outcome)
    requires Matches(c, s) && i < |c.ops|
    requires NextSend(c, i).Some? ==> NextSend(c, i).value != []
    ensures var next := NextSend(c, i);
            Matches(CompleteBytes(c, i, outcome, if next.Some? then |next.value| else 0), CompleteStep(s, outcome))
  {
    var q := SkipNulls(c.queue);
    if q != [] {
      JoinAppend(s.issued, q[0].value);
      assert q[0].value[..|q[0].value|] == q[0].value;
    }
  }

  // ----- the code -----

  class SocketSendQueue {
    /** `send_queue_map_` of the socket. */
    var queue: seq<Option<Buffer>>
    /** The records in flight, what the system took of them, and in what order. */
    var ops: seq<Op>
    var wire: seq<byte>
    ghost var accepted: seq<Buffer>

    ghost function State(): Channel
      reads this
    {
      Channel(queue, ops, wire, accepted)
    }

    constructor ()
      ensures State() == NEW_CHANNEL
    {
      queue, ops, wire, accepted := [], [], [], [];
    }

    /** `WSASend` on a record: the system takes some bytes, or it fails. */
    method WSASend(data: Buffer, outcome: Outcome, taken: nat) returns (ok: bool)
      requires 0 < taken <= |data|
      modifies this`ops, this`wire
      ensures ok <==> outcome != Failed
      ensures State() == if ok then Start(old(State()), Op(data, taken)) else old(State())
    {
      ok := outcome != Failed;
      if ok {
        ops := ops + [Op(data, taken)];
        wire := wire + data[..taken];
      }
    }

    method Write(data: Buffer, ready: bool, outcome: Outcome, taken: nat) returns (ok: bool)
      requires 0 < taken <= |data| || data == []
      modifies this
      ensures (State(), ok) == WriteBytes(old(State()), data, ready, outcome, taken)
    {
      if |data| <= 0 { return false; }
      if |data| > MAX_SOCKET_MSG_BUFF_LENGTH { return false; }
      if !ready { return false; }
      if queue != [] {
        queue := queue + [Some(data)];
      } else {
        var sent := WSASend(data, outcome, taken);
        if !sent { return false; }
        if outcome == Pending { queue := queue + [None]; }
      }
      accepted := accepted + [data];
      ok := true;
    }

    /** The completion of the record `i`; `exit` says that the worker thread returns. */
    method OnSendComplete(i: nat, outcome: Outcome, taken: nat) returns (exit: bool)
      requires i < |ops| && ops[i].Valid()
      requires NextSend(State(), i).Some? ==> 0 < taken <= |NextSend(State(), i).value|
      modifies this
      ensures State() == CompleteBytes(old(State()), i, outcome, taken)
      ensures exit <==> outcome == Failed && old(NextSend(State(), i)).Some?
    {
      var op := ops[i];
      ops := ops[..i] + ops[i + 1..];
      var sent := true;
      if op.taken >= |op.data| {
        var next := PopBuffer();
        if next.Some? {
          sent := WSASend(next.value, outcome, taken);
          if sent && outcome == Pending { queue := queue + [None]; }
        }
      } else {
        sent := WSASend(op.data[op.taken..], outcome, taken);
      }
      exit := !sent;
    }

    /** Pops null entries and the first buffer after them. */
    method PopBuffer() returns (next: Option<Buffer>)
      modifies this`queue
      ensures var q := SkipNulls(old(queue));
              if q == [] then next == None && queue == [] else next == q[0] && queue == q[1..]
    {
      next := None;
      while next == None && queue != []
        invariant if next == None then SkipNulls(queue) == SkipNulls(old(queue))
                  else SkipNulls(old(queue)) == [next] + queue
        decreases |queue|
      {
        next := queue[0];
        assert queue == [queue[0]] + queue[1..];
        queue := queue[1..];
      }
    }
  }
}
