/** One end of a remote procedure call session (`RPCSession` in elegance/rpc/rpc_manager.cpp):
    request ids, outstanding requests, and the messages it reads and writes. */
module RpcSession {
  import opened Bytes
  import opened ByteQueue

  const MESSAGE_MAX_LEN := 10240
  const HEADER_LEN := 4
  const TYPE_REQUEST := 2
  const TYPE_RESPONSE := 3

  /** An `IRpcRequest*`: which call the callback belongs to. */
  type RequestPtr = nat

  datatype Session = Session(outstanding: map<int, RequestPtr>, free: seq<int>, next: int)

  const NEW_SESSION := Session(map[], [], 0)

  // ----- request ids -----

  /** `GetRequestID`; the free ids are a stack whose top is the last element. */
  function GetRequestID(s: Session): (r: (int, Session)) {
    if s.free == [] then (s.next, s.(next := (s.next + 1) % SHRT_MAX))
    else (s.free[|s.free| - 1], s.(free := s.free[..|s.free| - 1]))
  }

  /** The number of ids issued so far: each is either free or outstanding. */
  function Issued(s: Session): nat {
    |s.free| + |s.outstanding|
  }

  /** Free and outstanding ids partition the ids issued so far, which are the first ones. */
  ghost predicate IdsPartitioned(s: Session) {
    && Issued(s) <= SHRT_MAX && s.next == Issued(s) % SHRT_MAX
    && NoRepeats(s.free)
    && (forall id :: id in s.free ==> id !in s.outstanding)
    && (forall id :: 0 <= id < Issued(s) <==> id in s.free || id in s.outstanding)
  }

  /** An id that is not outstanding is returned if and only if fewer than SHRT_MAX
      requests are outstanding, also after the counter has wrapped. */
  lemma FreshIdIffRoom(s: Session)
    requires IdsPartitioned(s)
    ensures var id := GetRequestID(s).0;
            0 <= id < 32767 && (id !in s.outstanding <==> |s.outstanding| < 32767)
  {
    if s.free != [] {
      var id := GetRequestID(s).0;
      assert id in s.free;
    } else if |s.outstanding| == SHRT_MAX {
      assert s.next == 0 && 0 in s.outstanding;
    }
  }

  // ----- running out of ids -----

  /** The session after `n` calls, none of them answered. */
  function Unanswered(n: nat, payload: seq<byte>): Session {
    if n == 0 then NEW_SESSION else CallStep(Unanswered(n - 1, payload), n - 1, payload).session
  }

  function Numbered(n: nat): (m: map<int, RequestPtr>)
    ensures |m| == n && forall id :: id in m <==> 0 <= id < n
    ensures forall id :: id in m ==> m[id] == id
  {
    if n == 0 then map[]
    else
      OneMoreOutstanding(Numbered(n - 1), n - 1, n - 1);
      Numbered(n - 1)[n - 1 := n - 1]
  }

  function Filled(n: nat): Session {
    Session(Numbered(n), [], n % SHRT_MAX)
  }

  lemma CallFills(n: nat, payload: seq<byte>)
    requires n < SHRT_MAX && Sendable(payload)
    ensures CallStep(Filled(n), n, payload) == Called(Filled(n + 1), Some(Request(n, payload)))
  {
    assert n % SHRT_MAX == n;
    assert GetRequestID(Filled(n)) == (n, Session(Numbered(n), [], (n + 1) % SHRT_MAX));
    assert Numbered(n + 1) == Numbered(n)[n := n];
  }

  lemma WrapsToZero(n: nat)
    requires n % SHRT_MAX == 0
    ensures GetRequestID(Filled(n)) == (0, Session(Numbered(n), [], 1))
  {
  }

  lemma {:induction false} UnansweredFills(n: nat, payload: seq<byte>)
    requires n <= SHRT_MAX && Sendable(payload)
    ensures Unanswered(n, payload) == Filled(n)
  {
    if n > 0 {
      UnansweredFills(n - 1, payload);
      CallFills(n - 1, payload);
    }
  }

  /** The failing side is reached: after `n` = SHRT_MAX unanswered calls the next one takes
      the id of the first, whose entry it overwrites. */
  lemma IdsRunOut(n: nat, payload: seq<byte>)
    requires n == SHRT_MAX && Sendable(payload)
    ensures var s := Unanswered(n, payload);
            && IdsPartitioned(s) && |s.outstanding| == SHRT_MAX
            && 0 in s.outstanding && s.outstanding[0] == 0
            && var r := CallStep(s, n, payload);
            && r.sent == Some(Request(0, payload)) && r.session.outstanding == s.outstanding[0 := n]
  {
    UnansweredFills(n, payload);
  }

  // ----- messages -----

  datatype Message = Request(id: int, payload: seq<byte>) | Response(id: int, payload: seq<byte>)

  predicate Sendable(payload: seq<byte>) {
    0 < |payload| && |payload| + HEADER_LEN < MESSAGE_MAX_LEN
  }

  predicate WellFormed(m: Message) {
    InRange(Int16, m.id) && 0 < |m.payload|
  }

  /** The header is one byte of type, one byte never set, and the id in 16 bits. */
  function Pack(m: Message, reserve: byte): (s: seq<byte>)
    requires WellFormed(m)
    ensures |s| == HEADER_LEN + |m.payload|
  {
    Widths();
    [if m.Request? then TYPE_REQUEST else TYPE_RESPONSE, reserve] + WriteInt(LittleEndian, Int16, m.id) + m.payload
  }

  /** What `OnRecv` makes of a package: nothing without a payload or of another type. */
  function Parse(data: seq<byte>): (r: Option<Message>)
    ensures r.Some? ==> WellFormed(r.value)
  {
    if |data| <= HEADER_LEN then None
    else
      var id := ReadInt(LittleEndian, Int16, data[2..]).0;
      if data[0] == TYPE_RESPONSE then Some(Response(id, data[HEADER_LEN..]))
      else if data[0] == TYPE_REQUEST then Some(Request(id, data[HEADER_LEN..]))
      else None
  }

  /** The id of a message, in its third and fourth byte. */
  lemma MessageId(data: seq<byte>)
    requires |data| > 4
    ensures var low: int, high: int := data[2], data[3];
            high < 128 ==> ReadInt(LittleEndian, Int16, data[2..]).0 == low + 256 * high
  {
    var p := Padded(data[2..], 2);
    assert p == [data[2], data[3]] && p[1..] == [data[3]] && [data[3]][1..] == [];
    assert LittleValue(p[1..]) == data[3] + 256 * LittleValue([]);
    assert LittleValue(p) == data[2] + 256 * LittleValue(p[1..]);
    Widths();
  }

  lemma IssuableIds(id: int)
    requires 0 <= id < SHRT_MAX
    ensures InRange(Int16, id)
  {
    Widths();
  }

  /** Every id that can be issued fits the 16-bit field and comes back unchanged. */
  lemma ParseOfPack(m: Message, reserve: byte)
    requires WellFormed(m)
    ensures Parse(Pack(m, reserve)) == Some(m)
  {
    Widths();
    var s := Pack(m, reserve);
    var h := WriteInt(LittleEndian, Int16, m.id);
    assert s[2..] == h + m.payload;
    IntRoundTrip(LittleEndian, Int16, m.id, m.payload);
    assert s[HEADER_LEN..] == m.payload;
  }

  // ----- the three operations -----

  datatype Called = Called(session: Session, sent: Option<Message>)

  /** `AsyncCall`, with sending and recording as one step. */
  function CallStep(s: Session, req: RequestPtr, payload: seq<byte>): (r: Called) {
    if !Sendable(payload) then Called(s, None)
    else
      var (id, s') := GetRequestID(s);
      Called(s'.(outstanding := s'.outstanding[id := req]), Some(Request(id, payload)))
  }

  datatype Answered = Answered(session: Session, callback: Option<(RequestPtr, seq<byte>)>)

  function ResponseStep(s: Session, m: Message): (r: Answered) {
    if m.id !in s.outstanding then Answered(s, None)
    else Answered(Session(s.outstanding - {m.id}, s.free + [m.id], s.next), Some((s.outstanding[m.id], m.payload)))
  }

  /** What one handler returned from `HandleCall`: a code and the bytes it filled in. */
  datatype Answer = Answer(result: int, data: seq<byte>)

  /** The replies sent for one request: one for every handler that answers. */
  function Replies(answers: seq<Answer>): (r: seq<seq<byte>>)
    ensures |r| <= |answers|
    ensures forall i :: 0 <= i < |r| ==> Sendable(r[i])
  {
    if answers == [] then []
    else (if answers[0].result == 0 && Sendable(answers[0].data) then [answers[0].data] else []) + Replies(answers[1..])
  }

  /** The replies in order, handler by handler: those of handlers that return 0 and fill in
      1 to 10235 bytes. */
  lemma {:induction false} RepliesInOrder(a: seq<Answer>, b: seq<Answer>)
    ensures Replies(a + b) == Replies(a) + Replies(b)
    ensures |a| == 1 ==>
              Replies(a) == if a[0].result == 0 && 1 <= |a[0].data| <= 10235 then [a[0].data] else []
  {
    if a == [] {
      assert a + b == b;
    } else {
      assert (a + b)[1..] == a[1..] + b;
      RepliesInOrder(a[1..], b);
      assert |a| == 1 ==> a[1..] == [];
    }
  }

  /** A call that is answered is called back with the answer, and only its id is free again. */
  lemma AnsweredCallIsCalledBack(s: Session, req: RequestPtr, payload: seq<byte>, result: seq<byte>)
    requires IdsPartitioned(s) && |s.outstanding| < SHRT_MAX && Sendable(payload)
    ensures var c := CallStep(s, req, payload);
            && c.sent.Some? && c.sent.value.Request? && c.sent.value.payload == payload
            && var r := ResponseStep(c.session, Response(c.sent.value.id, result));
            && r.callback == Some((req, result)) && r.session.outstanding == s.outstanding
  {
    FreshIdIffRoom(s);
    var id := GetRequestID(s).0;
    assert s.outstanding[id := req] - {id} == s.outstanding;
  }

  /** A response that nobody waits for is ignored. */
  lemma StrayResponseIsIgnored(s: Session, m: Message)
    requires m.id !in s.outstanding
    ensures ResponseStep(s, m).session == s && ResponseStep(s, m).callback == None
  {
  }

  /** Ids given back are taken again last in, first out. */
  lemma LastFreedIdIsNext(s: Session, m: Message, req: RequestPtr, payload: seq<byte>)
    requires m.id in s.outstanding && Sendable(payload)
    ensures var r := CallStep(ResponseStep(s, m).session, req, payload);
            r.sent == Some(Request(m.id, payload)) && r.session.outstanding == s.outstanding[m.id := req]
            && r.session.free == s.free && r.session.next == s.next
  {
    assert (s.free + [m.id])[..|s.free|] == s.free;
    assert (s.outstanding - {m.id})[m.id := req] == s.outstanding[m.id := req];
  }

  /** The bytes of a message: 2 for a request or 3 for a response, a byte that is not set,
      the id low byte first, the payload. */
  lemma PackedBytes(id: int, payload: seq<byte>, reserve: byte)
    requires 0 <= id < 32768 && payload != []
    ensures InRange(Int16, id)
    ensures Pack(Request(id, payload), reserve) == [2, reserve, id % 256, id / 256] + payload
    ensures Pack(Response(id, payload), reserve) == [3, reserve, id % 256, id / 256] + payload
  {
    Widths();
    assert LittleDigits(id / 256, 1) == [id / 256 % 256] + LittleDigits(id / 256 / 256, 0);
    assert LittleDigits(id, 2) == [id % 256] + LittleDigits(id / 256, 1);
    assert WriteInt(LittleEndian, Int16, id) == [id % 256, id / 256];
  }

  lemma CallKeepsIds(s: Session, req: RequestPtr, payload: seq<byte>)
    requires IdsPartitioned(s) && |s.outstanding| < SHRT_MAX
    ensures var r := CallStep(s, req, payload);
            && IdsPartitioned(r.session)
            && (r.sent.Some? ==>
                  && 0 <= r.sent.value.id < SHRT_MAX && r.sent.value.id !in s.outstanding
                  && r.sent.value.payload == payload
                  && r.session.outstanding == s.outstanding[r.sent.value.id := req])
  {
    if Sendable(payload) {
      FreshIdIffRoom(s);
      var (id, _) := GetRequestID(s);
      OneMoreOutstanding(s.outstanding, id, req);
      if s.free != [] { StackIdTaken(s, id, req); } else { CounterIdTaken(s, id, req); }
    }
  }

  lemma OneMoreOutstanding(m: map<int, RequestPtr>, id: int, req: RequestPtr)
    requires id !in m
    ensures |m[id := req]| == |m| + 1
  {
    assert m[id := req].Keys == m.Keys + {id};
  }

  lemma OneFewerOutstanding(m: map<int, RequestPtr>, id: int)
    requires id in m
    ensures |m - {id}| == |m| - 1
  {
    assert (m - {id}).Keys == m.Keys - {id};
    assert |(m - {id}).Keys| == |m.Keys| - 1;
  }

  lemma StackIdTaken(s: Session, id: int, req: RequestPtr)
    requires IdsPartitioned(s) && s.free != [] && id == s.free[|s.free| - 1]
    requires |s.outstanding[id := req]| == |s.outstanding| + 1
    ensures IdsPartitioned(Session(s.outstanding[id := req], s.free[..|s.free| - 1], s.next))
  {
    PoppedIds(s, id);
    var r := Session(s.outstanding[id := req], s.free[..|s.free| - 1], s.next);
    assert Issued(r) == Issued(s);
    assert forall x :: x in r.outstanding <==> x == id || x in s.outstanding;
    assert forall x :: x in r.free ==> x in s.free && x != id;
  }

  lemma CounterIdTaken(s: Session, id: int, req: RequestPtr)
    requires IdsPartitioned(s) && s.free == [] && id == s.next && |s.outstanding| < SHRT_MAX
    requires |s.outstanding[id := req]| == |s.outstanding| + 1
    ensures IdsPartitioned(Session(s.outstanding[id := req], [], (s.next + 1) % SHRT_MAX))
  {
  }

  lemma PoppedIds(s: Session, id: int)
    requires NoRepeats(s.free) && s.free != [] && id == s.free[|s.free| - 1]
    ensures forall x :: x in s.free <==> x == id || x in s.free[..|s.free| - 1]
    ensures id !in s.free[..|s.free| - 1]
  {
    assert s.free == s.free[..|s.free| - 1] + [id];
  }

  lemma ResponseKeepsIds(s: Session, m: Message)
    requires IdsPartitioned(s)
    ensures IdsPartitioned(ResponseStep(s, m).session)
  {
    if m.id in s.outstanding {
      var r := ResponseStep(s, m).session;
      assert r.outstanding.Keys == s.outstanding.Keys - {m.id};
      assert |r.outstanding| == |r.outstanding.Keys| == |s.outstanding| - 1;
      assert forall x :: x in r.free <==> x == m.id || x in s.free;
    }
  }

  /** Whatever the number of requests, ids stay within the 16-bit field. */
  predicate IdsFit(s: Session) {
    && 0 <= s.next < SHRT_MAX
    && (forall i :: 0 <= i < |s.free| ==> 0 <= s.free[i] < SHRT_MAX)
    && (forall id :: id in s.outstanding ==> 0 <= id < SHRT_MAX)
  }

  // ----- the code -----

  class RPCSession {
    var requestList: map<int, RequestPtr>
    var freeRequestIdStack: seq<int>
    var nextRequestId: int
    /** The calls of `OnCallBack` and of the network manager's `Send`, in order. */
    var callbacks: seq<(RequestPtr, seq<byte>)>
    var sent: seq<seq<byte>>

    function State(): Session
      reads this
    {
      Session(requestList, freeRequestIdStack, nextRequestId)
    }

    constructor ()
      ensures State() == NEW_SESSION && IdsFit(State()) && callbacks == [] && sent == []
    {
      requestList, freeRequestIdStack, nextRequestId := map[], [], 0;
      callbacks, sent := [], [];
    }

    method TakeRequestID() returns (id: int)
      modifies this`freeRequestIdStack, this`nextRequestId
      ensures (id, State()) == GetRequestID(old(State()))
    {
      if freeRequestIdStack == [] {
        id := nextRequestId;
        nextRequestId := nextRequestId + 1;
        nextRequestId := nextRequestId % SHRT_MAX;
      } else {
        id := freeRequestIdStack[|freeRequestIdStack| - 1];
        freeRequestIdStack := freeRequestIdStack[..|freeRequestIdStack| - 1];
      }
    }

    /** `reserve` is the byte that happens to lie in the message buffer. */
    method AsyncCall(req: RequestPtr, data: seq<byte>, reserve: byte)
      requires IdsFit(State())
      modifies this
      ensures IdsFit(State())
      ensures var r := CallStep(old(State()), req, data);
              && State() == r.session && callbacks == old(callbacks)
              && (r.sent.Some? ==> WellFormed(r.sent.value))
              && sent == old(sent) + (match r.sent case None => [] case Some(m) => [Pack(m, reserve)])
      ensures |data| == 0 || |data| > 10235 ==> State() == old(State()) && sent == old(sent)
      ensures 1 <= |data| <= 10235 ==>
                var stack := old(freeRequestIdStack);
                var id := if stack == [] then old(nextRequestId) else stack[|stack| - 1];
                && requestList == old(requestList)[id := req]
                && sent == old(sent) + [[2, reserve, id % 256, id / 256] + data]
    {
      if |data| <= 0 { return; }
      var totalLen := |data| + HEADER_LEN;
      if totalLen >= MESSAGE_MAX_LEN { return; }
      var id := TakeRequestID();
      IssuableIds(id);
      var message := Pack(Request(id, data), reserve);
      PackedBytes(id, data, reserve);
      sent := sent + [message];
      requestList := requestList[id := req];
    }

    /** `answers` is what each registered handler does with a request. */
    method OnRecv(data: seq<byte>, answers: seq<Answer>, reserve: byte)
      requires IdsFit(State())
      modifies this
      ensures IdsFit(State())
      ensures match Parse(data)
              case None => State() == old(State()) && callbacks == old(callbacks) && sent == old(sent)
              case Some(Response(id, d)) =>
                var r := ResponseStep(old(State()), Response(id, d));
                && State() == r.session && sent == old(sent)
                && callbacks == old(callbacks) + (match r.callback case None => [] case Some(c) => [c])
              case Some(Request(id, d)) =>
                && State() == old(State()) && callbacks == old(callbacks)
                && sent == old(sent) + Packed(id, Replies(answers), reserve)
      ensures |data| <= 4 || (data[0] != 2 && data[0] != 3) ==>
                State() == old(State()) && callbacks == old(callbacks) && sent == old(sent)
      ensures |data| > 4 && data[0] == 3 && data[3] < 128 ==>
                var low: int, high: int := data[2], data[3];
                var id := low + 256 * high;
                callbacks == old(callbacks) +
                  if id in old(requestList) then [(old(requestList)[id], data[4..])] else []
      ensures old(callbacks) <= callbacks && requestList.Keys <= old(requestList).Keys
      ensures |callbacks| - |old(callbacks)| == |old(requestList)| - |requestList|
      ensures forall i :: |old(callbacks)| <= i < |callbacks| ==>
                exists id :: id in old(requestList) && id !in requestList && callbacks[i].0 == old(requestList)[id]
    {
      if |data| <= HEADER_LEN { return; }
      var id := ReadInt(LittleEndian, Int16, data[2..]).0;
      MessageId(data);
      if data[0] == TYPE_RESPONSE {
        CallBack(id, data[HEADER_LEN..]);
      } else if data[0] == TYPE_REQUEST {
        AnswerAll(id, answers, reserve);
      }
    }

    /** The branch for a response. An id that is not outstanding is ignored. */
    method CallBack(id: int, result: seq<byte>)
      modifies this`callbacks, this`requestList, this`freeRequestIdStack
      ensures id !in old(requestList) ==> State() == old(State()) && callbacks == old(callbacks)
      ensures id in old(requestList) ==>
                && State() == Session(old(requestList) - {id}, old(freeRequestIdStack) + [id], old(nextRequestId))
                && callbacks == old(callbacks) + [(old(requestList)[id], result)]
                && |requestList| == |old(requestList)| - 1
    {
      if id in requestList {
        callbacks := callbacks + [(requestList[id], result)];
        OneFewerOutstanding(requestList, id);
        requestList := requestList - {id};
        freeRequestIdStack := freeRequestIdStack + [id];
      }
    }

    /** The loop over the handlers: one response for each that answers. */
    method AnswerAll(id: int, answers: seq<Answer>, reserve: byte)
      requires InRange(Int16, id)
      modifies this`sent
      ensures sent == old(sent) + Packed(id, Replies(answers), reserve)
    {
      var i := 0;
      while i < |answers|
        invariant 0 <= i <= |answers|
        invariant sent + Packed(id, Replies(answers[i..]), reserve) == old(sent) + Packed(id, Replies(answers), reserve)
      {
        var a := answers[i];
        PackedSplit(id, answers[i..], reserve);
        assert answers[i..][1..] == answers[i + 1..];
        if a.result == 0 && |a.data| > 0 {
          var total := |a.data| + HEADER_LEN;
          if total < MESSAGE_MAX_LEN {
            var message := Pack(Response(id, a.data), reserve);
            Assoc(sent, [message], Packed(id, Replies(answers[i + 1..]), reserve));
            sent := sent + [message];
          }
        }
        i := i + 1;
      }
      assert answers[i..] == [];
      assert sent == sent + Packed(id, [], reserve);
    }
  }

  function Packed(id: int, replies: seq<seq<byte>>, reserve: byte): seq<seq<byte>>
    requires InRange(Int16, id) && forall i :: 0 <= i < |replies| ==> Sendable(replies[i])
  {
    if replies == [] then []
    else
      assert Sendable(replies[0]);
      [Pack(Response(id, replies[0]), reserve)] + Packed(id, replies[1..], reserve)
  }

  lemma {:induction false} PackedEach(id: int, replies: seq<seq<byte>>, reserve: byte)
    requires 0 <= id < 32768 && forall i :: 0 <= i < |replies| ==> Sendable(replies[i])
    ensures InRange(Int16, id) && |Packed(id, replies, reserve)| == |replies|
    ensures forall i :: 0 <= i < |replies| ==>
              Packed(id, replies, reserve)[i] == [3, reserve, id % 256, id / 256] + replies[i]
  {
    Widths();
    if replies != [] {
      PackedEach(id, replies[1..], reserve);
      PackedBytes(id, replies[0], reserve);
    }
  }

  lemma PackedSplit(id: int, answers: seq<Answer>, reserve: byte)
    requires InRange(Int16, id) && answers != []
    ensures var a := answers[0];
            Packed(id, Replies(answers), reserve) ==
            if a.result == 0 && Sendable(a.data)
            then [Pack(Response(id, a.data), reserve)] + Packed(id, Replies(answers[1..]), reserve)
            else Packed(id, Replies(answers[1..]), reserve)
  {
    var a := answers[0];
    if a.result == 0 && Sendable(a.data) {
      assert Replies(answers)[1..] == Replies(answers[1..]);
    } else {
      assert Replies(answers) == Replies(answers[1..]);
    }
  }
}
