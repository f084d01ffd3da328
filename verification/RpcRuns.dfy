/** Whole runs of two peers that call each other over a network which may lose and
    reorder messages but does not duplicate them. */
module RpcRuns {
  import opened Bytes
  import opened RpcSession

  type Peer = bool

  /** `tag` numbers the call a message belongs to. It is not on the wire and no step
      looks at it. */
  datatype Packet = Packet(to: Peer, msg: Message, tag: nat)

  datatype CallRecord = CallRecord(peer: Peer, payload: seq<byte>)
  datatype AnswerRecord = AnswerRecord(tag: nat, asked: seq<byte>, result: seq<byte>)
  datatype CallbackRecord = CallbackRecord(req: RequestPtr, result: seq<byte>)

  datatype World = World(
    sessions: map<Peer, Session>,
    wire: multiset<Packet>,
    calls: seq<CallRecord>,
    answers: set<AnswerRecord>,
    callbacks: seq<CallbackRecord>)

  const START := World(map[false := NEW_SESSION, true := NEW_SESSION], multiset{}, [], {}, [])

  /** The peer whose request a message carries or answers. */
  function Caller(k: Packet): Peer {
    if k.msg.Request? then !k.to else k.to
  }

  datatype Step =
    | Call(peer: Peer, payload: seq<byte>)
    | Ask(packet: Packet, given: seq<Answer>)
    | Reply(packet: Packet)
    | Lose(packet: Packet)

  /** How many handlers of a session answer one request, and how many requests a caller
      may have outstanding, at most. */
  datatype Limits = Limits(replies: nat, outstanding: nat)

  const SAFE := Limits(1, SHRT_MAX)

  predicate Enabled(l: Limits, w: World, step: Step) {
    && w.sessions.Keys == {false, true}
    && match step
       case Call(p, _) => |w.sessions[p].outstanding| < l.outstanding
       case Ask(k, given) => k in w.wire && k.msg.Request? && |Replies(given)| <= l.replies
       case Reply(k) => k in w.wire && k.msg.Response?
       case Lose(k) => k in w.wire
  }

  function Responses(k: Packet, results: seq<seq<byte>>): multiset<Packet> {
    if results == [] then multiset{}
    else multiset{Packet(!k.to, Response(k.msg.id, results[0]), k.tag)} + Responses(k, results[1..])
  }

  function AnswersTo(k: Packet, results: seq<seq<byte>>): set<AnswerRecord> {
    set r | r in results :: AnswerRecord(k.tag, k.msg.payload, r)
  }

  function Apply(l: Limits, w: World, step: Step): World
    requires Enabled(l, w, step)
  {
    match step
    case Call(p, payload) =>
      var r := CallStep(w.sessions[p], |w.calls|, payload);
      w.(sessions := w.sessions[p := r.session],
         calls := w.calls + [CallRecord(p, payload)],
         wire := w.wire + (match r.sent case None => multiset{} case Some(m) => multiset{Packet(!p, m, |w.calls|)}))
    case Ask(k, given) =>
      w.(wire := w.wire - multiset{k} + Responses(k, Replies(given)),
         answers := w.answers + AnswersTo(k, Replies(given)))
    case Reply(k) =>
      var r := ResponseStep(w.sessions[k.to], k.msg);
      w.(sessions := w.sessions[k.to := r.session],
         wire := w.wire - multiset{k},
         callbacks := w.callbacks + (match r.callback case None => [] case Some(c) => [CallbackRecord(c.0, c.1)]))
    case Lose(k) => w.(wire := w.wire - multiset{k})
  }

  function Run(l: Limits, w: World, steps: seq<Step>): (r: Option<World>)
    decreases |steps|
  {
    if steps == [] then Some(w)
    else if !Enabled(l, w, steps[0]) then None
    else Run(l, Apply(l, w, steps[0]), steps[1..])
  }

  /** Every callback got a result that a handler computed from the payload of that very
      call, and no call was called back twice. */
  predicate Correlated(w: World) {
    && (forall i :: 0 <= i < |w.callbacks| ==>
          var c := w.callbacks[i];
          c.req < |w.calls| && AnswerRecord(c.req, w.calls[c.req].payload, c.result) in w.answers)
    && (forall i, j :: 0 <= i < j < |w.callbacks| ==> w.callbacks[i].req != w.callbacks[j].req)
  }

  predicate Pending(w: World, p: Peer, id: int) {
    p in w.sessions && id in w.sessions[p].outstanding
  }

  function RequestOf(w: World, p: Peer, id: int): RequestPtr
    requires Pending(w, p, id)
  {
    w.sessions[p].outstanding[id]
  }

  /** A message in flight belongs to a request that is still outstanding. */
  predicate Current(w: World, k: Packet) {
    && Pending(w, Caller(k), k.msg.id) && RequestOf(w, Caller(k), k.msg.id) == k.tag
    && k.tag < |w.calls|
    && (k.msg.Request? ==> k.msg.payload == w.calls[k.tag].payload)
    && (k.msg.Response? ==> AnswerRecord(k.tag, w.calls[k.tag].payload, k.msg.payload) in w.answers)
  }

  /** At most one message per request id of a peer is in flight. */
  predicate OneInFlight(w: World) {
    && (forall k :: k in w.wire ==> w.wire[k] == 1)
    && (forall k, l :: k in w.wire && l in w.wire && k != l ==> Caller(k) != Caller(l) || k.msg.id != l.msg.id)
  }

  /** Outstanding requests are distinct calls of their peer that were not called back. */
  ghost predicate OutstandingOk(w: World) {
    && (forall p, id :: Pending(w, p, id) ==> RequestOf(w, p, id) < |w.calls|)
    && (forall p, id, q, jd :: Pending(w, p, id) && Pending(w, q, jd) && RequestOf(w, p, id) == RequestOf(w, q, jd) ==>
          p == q && id == jd)
    && (forall p, id, i :: Pending(w, p, id) && 0 <= i < |w.callbacks| ==> w.callbacks[i].req != RequestOf(w, p, id))
  }

  ghost predicate Inv(w: World) {
    && w.sessions.Keys == {false, true}
    && (forall p: Peer :: p in w.sessions ==> IdsPartitioned(w.sessions[p]))
    && (forall k :: k in w.wire ==> Current(w, k))
    && OneInFlight(w)
    && OutstandingOk(w)
    && Correlated(w)
  }

  // ----- a call -----

  /** The outstanding requests after a call: one more, under an id that was not pending. */
  ghost predicate OneMorePending(w: World, w': World, p: Peer, id: int, req: RequestPtr) {
    && !Pending(w, p, id) && Pending(w', p, id) && RequestOf(w', p, id) == req
    && (forall q, jd :: Pending(w', q, jd) ==>
          (q == p && jd == id) || (Pending(w, q, jd) && RequestOf(w', q, jd) == RequestOf(w, q, jd)))
    && (forall q, jd :: Pending(w, q, jd) ==> Pending(w', q, jd) && RequestOf(w', q, jd) == RequestOf(w, q, jd))
  }

  ghost predicate Recorded(w: World, w': World) {
    && |w'.calls| == |w.calls| + 1 && (forall i :: 0 <= i < |w.calls| ==> w'.calls[i] == w.calls[i])
    && w'.answers == w.answers && w'.callbacks == w.callbacks
  }

  lemma CallOutstanding(w: World, w': World, p: Peer, id: int)
    requires OutstandingOk(w) && Correlated(w) && Recorded(w, w') && OneMorePending(w, w', p, id, |w.calls|)
    ensures OutstandingOk(w') && Correlated(w')
  {
  }

  lemma CallWire(w: World, w': World, p: Peer, n: Packet)
    requires (forall k :: k in w.wire ==> Current(w, k)) && OneInFlight(w)
    requires Recorded(w, w') && OneMorePending(w, w', p, n.msg.id, |w.calls|)
    requires n.msg.Request? && n.to == !p && n.tag == |w.calls| && w'.calls[|w.calls|].payload == n.msg.payload
    requires w'.wire == w.wire + multiset{n}
    ensures (forall k :: k in w'.wire ==> Current(w', k)) && OneInFlight(w')
  {
    assert Current(w', n);
    forall k | k in w.wire ensures Current(w', k) && k != n && (Caller(k) != p || k.msg.id != n.msg.id) {
      assert Current(w, k);
    }
    assert forall k :: k in w'.wire ==> k == n || k in w.wire;
  }

  lemma CallPending(w: World, p: Peer, s: Session, id: int, w': World)
    requires p in w.sessions && id !in w.sessions[p].outstanding
    requires s.outstanding == w.sessions[p].outstanding[id := |w.calls|] && w'.sessions == w.sessions[p := s]
    ensures OneMorePending(w, w', p, id, |w.calls|)
  {
  }

  lemma SentCall(w: World, w': World, p: Peer, s: Session, n: Packet)
    requires Inv(w) && Recorded(w, w') && p in w.sessions
    requires IdsPartitioned(s) && w'.sessions == w.sessions[p := s]
    requires n.msg.id !in w.sessions[p].outstanding && s.outstanding == w.sessions[p].outstanding[n.msg.id := |w.calls|]
    requires n.msg.Request? && n.to == !p && n.tag == |w.calls| && w'.calls[|w.calls|].payload == n.msg.payload
    requires w'.wire == w.wire + multiset{n}
    ensures Inv(w')
  {
    CallPending(w, p, s, n.msg.id, w');
    CallOutstanding(w, w', p, n.msg.id);
    CallWire(w, w', p, n);
  }

  lemma CallKeepsInv(w: World, p: Peer, payload: seq<byte>)
    requires Inv(w) && Enabled(SAFE, w, Call(p, payload))
    ensures Inv(Apply(SAFE, w, Call(p, payload)))
  {
    var w' := Apply(SAFE, w, Call(p, payload));
    CallKeepsIds(w.sessions[p], |w.calls|, payload);
    var r := CallStep(w.sessions[p], |w.calls|, payload);
    if Sendable(payload) {
      SentCall(w, w', p, r.session, Packet(!p, r.sent.value, |w.calls|));
    } else {
      assert w'.sessions == w.sessions && w'.wire == w.wire;
      SilentCall(w, w');
    }
  }

  lemma SilentCall(w: World, w': World)
    requires Inv(w) && w'.sessions == w.sessions && w'.wire == w.wire && Recorded(w, w')
    ensures Inv(w')
  {
    SamePending(w, w');
    forall k | k in w'.wire ensures Current(w', k) { assert Current(w, k); }
  }

  lemma SamePending(w: World, w': World)
    requires w'.sessions == w.sessions
    ensures forall p, id :: Pending(w', p, id) <==> Pending(w, p, id)
    ensures forall p, id :: Pending(w', p, id) ==> RequestOf(w', p, id) == RequestOf(w, p, id)
  {
  }

  // ----- messages that leave the wire -----

  lemma LoseKeepsInv(w: World, k: Packet)
    requires Inv(w) && k in w.wire
    ensures Inv(w.(wire := w.wire - multiset{k}))
    ensures forall l :: l in w.wire - multiset{k} ==> l in w.wire && l != k
  {
    var w' := w.(wire := w.wire - multiset{k});
    SamePending(w, w');
    forall l | l in w'.wire ensures l in w.wire && l != k && w'.wire[l] == 1 && Current(w', l) {
      assert w.wire[l] == 1;
      assert Current(w, l);
    }
  }

  // ----- a request answered -----

  /** Adding a response for the id of a request that has just been taken off the wire. */
  lemma AnswerWire(v: World, w': World, n: Packet)
    requires Inv(v) && Current(w', n) && w'.wire == v.wire + multiset{n}
    requires w'.sessions == v.sessions && w'.calls == v.calls && v.answers <= w'.answers
    requires forall l :: l in v.wire ==> Caller(l) != Caller(n) || l.msg.id != n.msg.id
    ensures (forall l :: l in w'.wire ==> Current(w', l)) && OneInFlight(w')
  {
    SamePending(v, w');
    forall l | l in v.wire ensures Current(w', l) && l != n { assert Current(v, l); }
    assert forall l :: l in w'.wire ==> l == n || l in v.wire;
  }

  lemma MoreAnswers(v: World, w': World)
    requires Inv(v) && w'.sessions == v.sessions && w'.calls == v.calls && w'.callbacks == v.callbacks
    requires v.answers <= w'.answers
    ensures OutstandingOk(w') && Correlated(w')
    ensures w'.wire == v.wire ==> Inv(w')
  {
    SamePending(v, w');
    if w'.wire == v.wire {
      forall l | l in w'.wire ensures Current(w', l) { assert Current(v, l); }
    }
  }

  lemma OneResponse(k: Packet, results: seq<seq<byte>>)
    requires |results| == 1
    ensures Responses(k, results) == multiset{Packet(!k.to, Response(k.msg.id, results[0]), k.tag)}
    ensures AnswerRecord(k.tag, k.msg.payload, results[0]) in AnswersTo(k, results)
  {
    assert results[1..] == [];
    assert Responses(k, results[1..]) == multiset{};
  }

  /** The response inherits the id and the standing of the request it answers. */
  lemma ResponseIsCurrent(w: World, w': World, k: Packet, n: Packet)
    requires Current(w, k) && k.msg.Request? && w'.sessions == w.sessions && w'.calls == w.calls
    requires n.msg.Response? && n.to == !k.to && n.msg.id == k.msg.id && n.tag == k.tag
    requires AnswerRecord(k.tag, k.msg.payload, n.msg.payload) in w'.answers
    ensures Current(w', n) && Caller(n) == Caller(k)
  {
    SamePending(w, w');
  }

  lemma {:induction false} AskKeepsInv(w: World, k: Packet, given: seq<Answer>)
    requires Inv(w) && Enabled(SAFE, w, Ask(k, given))
    ensures Inv(Apply(SAFE, w, Ask(k, given)))
  {
    var v := w.(wire := w.wire - multiset{k});
    LoseKeepsInv(w, k);
    var results := Replies(given);
    var w' := w.(wire := v.wire + Responses(k, results), answers := w.answers + AnswersTo(k, results));
    assert w' == Apply(SAFE, w, Ask(k, given));
    MoreAnswers(v, w');
    if results == [] {
      assert w'.wire == v.wire;
    } else {
      OneResponse(k, results);
      OneAnswer(w, v, w', k, Packet(!k.to, Response(k.msg.id, results[0]), k.tag));
    }
  }

  lemma OneAnswer(w: World, v: World, w': World, k: Packet, n: Packet)
    requires Inv(w) && k in w.wire && k.msg.Request? && Inv(v) && v == w.(wire := w.wire - multiset{k})
    requires n.msg.Response? && n.to == !k.to && n.msg.id == k.msg.id && n.tag == k.tag
    requires w'.wire == v.wire + multiset{n} && w'.sessions == v.sessions && w'.calls == v.calls
    requires v.answers <= w'.answers && AnswerRecord(k.tag, k.msg.payload, n.msg.payload) in w'.answers
    ensures (forall l :: l in w'.wire ==> Current(w', l)) && OneInFlight(w')
  {
    assert Current(w, k);
    ResponseIsCurrent(w, w', k, n);
    OthersDiffer(w, k);
    AnswerWire(v, w', n);
  }

  lemma OthersDiffer(w: World, k: Packet)
    requires OneInFlight(w) && k in w.wire
    ensures forall l :: l in w.wire - multiset{k} ==> Caller(l) != Caller(k) || l.msg.id != k.msg.id
  {
    forall l | l in w.wire - multiset{k} ensures Caller(l) != Caller(k) || l.msg.id != k.msg.id {
      assert w.wire[k] == 1;
      assert l in w.wire && l != k;
    }
  }

  // ----- a response received -----

  ghost predicate OneFewerPending(w: World, w': World, p: Peer, id: int) {
    && (forall q, jd :: Pending(w', q, jd) <==> Pending(w, q, jd) && (q != p || jd != id))
    && (forall q, jd :: Pending(w', q, jd) ==> RequestOf(w', q, jd) == RequestOf(w, q, jd))
  }

  lemma ReplyOutstanding(v: World, w': World, k: Packet)
    requires OutstandingOk(v) && Correlated(v) && Current(v, k) && k.msg.Response?
    requires w'.calls == v.calls && w'.answers == v.answers
    requires w'.callbacks == v.callbacks + [CallbackRecord(k.tag, k.msg.payload)]
    requires OneFewerPending(v, w', Caller(k), k.msg.id)
    ensures OutstandingOk(w') && Correlated(w')
  {
    assert forall i :: 0 <= i < |v.callbacks| ==> w'.callbacks[i] == v.callbacks[i];
    assert w'.callbacks[|v.callbacks|] == CallbackRecord(k.tag, k.msg.payload);
  }

  lemma ReplyWire(v: World, w': World, k: Packet)
    requires (forall l :: l in v.wire ==> Current(v, l)) && OneInFlight(v)
    requires w'.wire == v.wire && w'.calls == v.calls && w'.answers == v.answers
    requires OneFewerPending(v, w', Caller(k), k.msg.id)
    requires forall l :: l in v.wire ==> Caller(l) != Caller(k) || l.msg.id != k.msg.id
    ensures (forall l :: l in w'.wire ==> Current(w', l)) && OneInFlight(w')
  {
    forall l | l in w'.wire ensures Current(w', l) { assert Current(v, l); }
  }

  lemma ReplyPending(w: World, k: Packet)
    requires w.sessions.Keys == {false, true} && Pending(w, k.to, k.msg.id)
    ensures var w' := w.(sessions := w.sessions[k.to := ResponseStep(w.sessions[k.to], k.msg).session]);
            OneFewerPending(w, w', k.to, k.msg.id)
  {
  }

  lemma ReplyKeepsInv(w: World, k: Packet)
    requires Inv(w) && Enabled(SAFE, w, Reply(k))
    ensures Inv(Apply(SAFE, w, Reply(k)))
  {
    var v := w.(wire := w.wire - multiset{k});
    LoseKeepsInv(w, k);
    OthersDiffer(w, k);
    assert Current(w, k) && Caller(k) == k.to;
    ReplyAfterLoss(w, v, k);
  }

  lemma ReplyAfterLoss(w: World, v: World, k: Packet)
    requires Inv(v) && Current(w, k) && k.msg.Response?
    requires v == w.(wire := w.wire - multiset{k}) && Enabled(SAFE, w, Reply(k))
    requires forall l :: l in v.wire ==> Caller(l) != Caller(k) || l.msg.id != k.msg.id
    ensures Inv(Apply(SAFE, w, Reply(k)))
  {
    SamePending(w, v);
    assert Current(v, k);
    var s := ResponseStep(v.sessions[k.to], k.msg).session;
    var w' := v.(sessions := v.sessions[k.to := s], callbacks := v.callbacks + [CallbackRecord(k.tag, k.msg.payload)]);
    assert w' == Apply(SAFE, w, Reply(k));
    ResponseKeepsIds(v.sessions[k.to], k.msg);
    ReplyPending(v, k);
    SamePending(v.(sessions := w'.sessions), w');
    CalledBack(v, w', k, s);
  }

  lemma CalledBack(v: World, w': World, k: Packet, s: Session)
    requires Inv(v) && Current(v, k) && k.msg.Response? && IdsPartitioned(s)
    requires w' == v.(sessions := v.sessions[k.to := s],
                      callbacks := v.callbacks + [CallbackRecord(k.tag, k.msg.payload)])
    requires k.to in v.sessions && OneFewerPending(v, w', k.to, k.msg.id)
    requires forall l :: l in v.wire ==> Caller(l) != Caller(k) || l.msg.id != k.msg.id
    ensures Inv(w')
  {
    ReplyOutstanding(v, w', k);
    ReplyWire(v, w', k);
  }

  // ----- runs -----

  lemma {:induction false} RunKeepsInv(w: World, steps: seq<Step>)
    requires Inv(w) && Run(SAFE, w, steps).Some?
    ensures Inv(Run(SAFE, w, steps).value)
    decreases |steps|
  {
    if steps != [] {
      match steps[0] {
        case Call(p, payload) => CallKeepsInv(w, p, payload);
        case Ask(k, given) => AskKeepsInv(w, k, given);
        case Reply(k) => ReplyKeepsInv(w, k);
        case Lose(k) => LoseKeepsInv(w, k);
      }
      RunKeepsInv(Apply(SAFE, w, steps[0]), steps[1..]);
    }
  }

  /** Over every run of two peers with at most one answering handler and no more requests
      outstanding than there are ids: callbacks get the result of their own request and
      come at most once, ids never collide, and every message in flight is the only one
      for a request that is still outstanding. */
  lemma OneHandlerCorrelates(steps: seq<Step>)
    requires Run(SAFE, START, steps).Some?
    ensures var w := Run(SAFE, START, steps).value;
            && Correlated(w) && OneInFlight(w)
            && (forall k :: k in w.wire ==> Current(w, k))
            && (forall p :: p in w.sessions ==> IdsPartitioned(w.sessions[p]))
  {
    RunKeepsInv(START, steps);
  }

  // ----- whatever the limits -----

  /** The calls called back and those outstanding are all different. */
  ghost predicate Accounted(w: World) {
    && w.sessions.Keys == {false, true} && OutstandingOk(w)
    && (forall i :: 0 <= i < |w.callbacks| ==> w.callbacks[i].req < |w.calls|)
    && (forall i, j :: 0 <= i < j < |w.callbacks| ==> w.callbacks[i].req != w.callbacks[j].req)
    && |w.callbacks| + |w.sessions[false].outstanding| + |w.sessions[true].outstanding| <= |w.calls|
  }

  lemma CallAccounted(l: Limits, w: World, p: Peer, payload: seq<byte>)
    requires Accounted(w) && Enabled(l, w, Call(p, payload))
    ensures Accounted(Apply(l, w, Call(p, payload)))
  {
    var w', s := Apply(l, w, Call(p, payload)), w.sessions[p];
    if Sendable(payload) {
      var id := GetRequestID(s).0;
      assert w'.sessions[p].outstanding == s.outstanding[id := |w.calls|];
      AtMostOneMore(s.outstanding, id, |w.calls|);
      assert forall q, jd :: Pending(w', q, jd) <==> (q == p && jd == id) || Pending(w, q, jd);
      assert forall q, jd :: Pending(w', q, jd) ==>
        RequestOf(w', q, jd) == if q == p && jd == id then |w.calls| else RequestOf(w, q, jd);
    } else {
      assert w'.sessions == w.sessions;
      SamePending(w, w');
    }
  }

  lemma AtMostOneMore(m: map<int, RequestPtr>, id: int, req: RequestPtr)
    ensures |m[id := req]| <= |m| + 1
  {
    assert m[id := req].Keys == m.Keys + {id};
    assert |m[id := req].Keys| <= |m.Keys| + 1;
  }

  lemma ReplyAccounted(l: Limits, w: World, k: Packet)
    requires Accounted(w) && Enabled(l, w, Reply(k))
    ensures Accounted(Apply(l, w, Reply(k)))
  {
    var w', s := Apply(l, w, Reply(k)), w.sessions[k.to];
    if k.msg.id in s.outstanding {
      OneFewerOutstanding(s.outstanding, k.msg.id);
      ReplyPending(w, k);
      var v := w.(sessions := w'.sessions);
      assert v.sessions[k.to] == ResponseStep(s, k.msg).session;
      SamePending(v, w');
      assert Pending(w, k.to, k.msg.id);
      var req := RequestOf(w, k.to, k.msg.id);
      assert w'.callbacks == w.callbacks + [CallbackRecord(req, k.msg.payload)];
      CalledBackOutstanding(w, w', k.to, k.msg.id);
    } else {
      assert w'.sessions == w.sessions && w'.callbacks == w.callbacks;
      SamePending(w, w');
    }
  }

  lemma CalledBackOutstanding(w: World, w': World, p: Peer, id: int)
    requires Accounted(w) && Pending(w, p, id) && OneFewerPending(w, w', p, id) && w'.calls == w.calls
    requires |w'.callbacks| == |w.callbacks| + 1 && w'.callbacks[|w.callbacks|].req == RequestOf(w, p, id)
    requires forall i :: 0 <= i < |w.callbacks| ==> w'.callbacks[i] == w.callbacks[i]
    ensures OutstandingOk(w')
    ensures forall i :: 0 <= i < |w'.callbacks| ==> w'.callbacks[i].req < |w'.calls|
    ensures forall i, j :: 0 <= i < j < |w'.callbacks| ==> w'.callbacks[i].req != w'.callbacks[j].req
  {
  }

  lemma StepAccounted(l: Limits, w: World, step: Step)
    requires Accounted(w) && Enabled(l, w, step)
    ensures Accounted(Apply(l, w, step))
  {
    match step {
      case Call(p, payload) => CallAccounted(l, w, p, payload);
      case Ask(_, _) => SamePending(w, Apply(l, w, step));
      case Reply(k) => ReplyAccounted(l, w, k);
      case Lose(_) => SamePending(w, Apply(l, w, step));
    }
  }

  lemma {:induction false} RunAccounted(l: Limits, w: World, steps: seq<Step>)
    requires Accounted(w) && Run(l, w, steps).Some?
    ensures Accounted(Run(l, w, steps).value)
    decreases |steps|
  {
    if steps != [] {
      StepAccounted(l, w, steps[0]);
      RunAccounted(l, Apply(l, w, steps[0]), steps[1..]);
    }
  }

  /** Whatever the number of answering handlers and of outstanding requests: no call is
      called back twice, none that was not made is called back, and callbacks made and
      requests outstanding together never exceed the calls made. */
  lemma CalledBackAtMostOnce(l: Limits, steps: seq<Step>)
    requires Run(l, START, steps).Some?
    ensures var w := Run(l, START, steps).value;
            && (forall i :: 0 <= i < |w.callbacks| ==> w.callbacks[i].req < |w.calls|)
            && (forall i, j :: 0 <= i < j < |w.callbacks| ==> w.callbacks[i].req != w.callbacks[j].req)
            && false in w.sessions && true in w.sessions
            && |w.callbacks| + |w.sessions[false].outstanding| + |w.sessions[true].outstanding| <= |w.calls|
  {
    assert Accounted(START);
    RunAccounted(l, START, steps);
  }
}
