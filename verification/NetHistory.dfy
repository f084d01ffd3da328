/** What the runs of the network manager tell about the past of an id: which opening gave it
    its socket, and what its handlers were shown. */
module NetHistory {
  import opened Bytes
  import opened Framing
  import opened NetTable

  lemma {:induction false} RunLast(n: Net, inputs: seq<Input>)
    requires inputs != [] && Run(n, inputs).Some?
    ensures var init, last := inputs[..|inputs| - 1], inputs[|inputs| - 1];
            && Run(n, init).Some? && Enabled(Run(n, init).value, last)
            && Run(n, inputs) == Some(Next(Run(n, init).value, last))
    decreases |inputs|
  {
    var init := inputs[..|inputs| - 1];
    if |inputs| == 1 {
      assert init == [] && inputs[1..] == [];
    } else {
      RunLast(Next(n, inputs[0]), inputs[1..]);
      assert inputs[1..][..|inputs| - 2] == init[1..] && init[0] == inputs[0];
    }
  }

  // ----- sockets -----

  /** Input `i` is the opening that handed out the id. */
  ghost predicate IssuedAt(inputs: seq<Input>, i: int, id: NetId) {
    && 0 <= i < |inputs| && inputs[i].Open? && Run(NEW_NET, inputs[..i]).Some?
    && GetFreeNetID(Run(NEW_NET, inputs[..i]).value).0 == id
  }

  ghost predicate NotIssuedSince(inputs: seq<Input>, i: int, id: NetId) {
    forall k :: i < k < |inputs| ==> !IssuedAt(inputs, k, id)
  }

  /** The entry of the id is what this opening gave: its endpoint, and its socket in the map
      of its role and in no other. */
  predicate EnteredBy(n: Net, id: NetId, input: Input) {
    && input.Open? && input.sock.Some? && id in n.endpoints && n.endpoints[id] == input.endpoint
    && (input.role == Acceptor ==> id in n.accepts && n.accepts[id] == input.sock.value && id !in n.connects)
    && (input.role == Connector ==> id in n.connects && n.connects[id] == input.sock.value && id !in n.accepts)
  }

  lemma IssuedInit(inputs: seq<Input>, i: int, id: NetId)
    requires inputs != [] && i < |inputs| - 1
    ensures IssuedAt(inputs[..|inputs| - 1], i, id) <==> IssuedAt(inputs, i, id)
  {
    if 0 <= i { assert inputs[..|inputs| - 1][..i] == inputs[..i]; }
  }

  lemma OpenEnters(n: Net, role: Role, e: Endpoint, sock: Option<Sock>, id: NetId)
    requires TableInv(n)
    ensures var n', i := OpenStep(n, role, e, sock), GetFreeNetID(n).0;
            && i !in n.endpoints
            && (id in n'.endpoints && id == i ==> EnteredBy(n', id, Open(role, e, sock)))
            && (id in n'.endpoints && id != i ==>
                  && id in n.endpoints && n'.endpoints[id] == n.endpoints[id]
                  && (id in n'.accepts <==> id in n.accepts) && (id in n.accepts ==> n'.accepts[id] == n.accepts[id])
                  && (id in n'.connects <==> id in n.connects)
                  && (id in n.connects ==> n'.connects[id] == n.connects[id]))
  {
    FreshNetID(n);
    var i := GetFreeNetID(n).0;
    assert i !in n.accepts.Keys + n.connects.Keys;
  }

  lemma OthersKeepEntries(n: Net, input: Input, id: NetId)
    requires Enabled(n, input) && !input.Open? && id in Next(n, input).endpoints
    ensures var n' := Next(n, input);
            && id in n.endpoints && n'.endpoints[id] == n.endpoints[id]
            && (id in n'.accepts <==> id in n.accepts) && (id in n.accepts ==> n'.accepts[id] == n.accepts[id])
            && (id in n'.connects <==> id in n.connects) && (id in n.connects ==> n'.connects[id] == n.connects[id])
  {
  }

  /** In every run the endpoint and the socket of a live id are those given with the opening
      that handed the id out last, entered under the role of that opening. */
  lemma {:induction false} SocketIsOfItsOpening(inputs: seq<Input>, id: NetId) returns (i: nat)
    requires Run(NEW_NET, inputs).Some? && id in Run(NEW_NET, inputs).value.endpoints
    ensures IssuedAt(inputs, i, id) && NotIssuedSince(inputs, i, id)
    ensures EnteredBy(Run(NEW_NET, inputs).value, id, inputs[i])
    decreases |inputs|
  {
    var m := |inputs| - 1;
    var init, last := inputs[..m], inputs[m];
    RunLast(NEW_NET, inputs);
    var n := Run(NEW_NET, init).value;
    EveryRunIsDisciplined(init);
    if last.Open? {
      OpenEnters(n, last.role, last.endpoint, last.sock, id);
    } else {
      OthersKeepEntries(n, last, id);
    }
    if last.Open? && GetFreeNetID(n).0 == id {
      i := m;
    } else {
      i := SocketIsOfItsOpening(init, id);
      IssuedInit(inputs, i, id);
      forall k | i < k < |inputs| ensures !IssuedAt(inputs, k, id) {
        if k < m { IssuedInit(inputs, k, id); }
      }
    }
  }

  // ----- events -----

  /** An accept is shown as an accept and a connect as a connect, with the endpoint and the
      id handed out. */
  lemma OpeningIsShown(n: Net, e: Endpoint, sock: Option<Sock>)
    ensures OpenStep(n, Acceptor, e, sock).events == n.events + [Accepted(e, GetFreeNetID(n).0)]
    ensures OpenStep(n, Connector, e, sock).events == n.events + [Connected(e, GetFreeNetID(n).0)]
  {
  }

  predicate NoEmptyPackage(events: seq<Event>) {
    forall i :: 0 <= i < |events| ==> events[i].Received? ==> events[i].body != [] && events[i].id > 0
  }

  lemma {:induction false} PackagesHaveBytes(id: NetId, out: seq<Body>)
    ensures NoEmptyPackage(Packages(id, out))
  {
    if out != [] { PackagesHaveBytes(id, out[1..]); }
  }

  /** No handler is ever shown a package without bytes or under an id that is not positive. */
  lemma {:induction false} PackagesShownHaveBytes(inputs: seq<Input>)
    requires Run(NEW_NET, inputs).Some?
    ensures NoEmptyPackage(Run(NEW_NET, inputs).value.events)
    decreases |inputs|
  {
    if inputs != [] {
      var init, last := inputs[..|inputs| - 1], inputs[|inputs| - 1];
      RunLast(NEW_NET, inputs);
      PackagesShownHaveBytes(init);
      StepShowsBytes(Run(NEW_NET, init).value, last);
    }
  }

  lemma StepShowsBytes(n: Net, input: Input)
    requires Enabled(n, input) && NoEmptyPackage(n.events)
    ensures NoEmptyPackage(Next(n, input).events)
  {
    if input.Recv? && KeyOf(input.endpoint) in n.ids {
      var id := n.ids[KeyOf(input.endpoint)];
      FeedDefinedIffAccepts(PartOf(n.parts, id), input.data);
      PackagesHaveBytes(id, Feed(PartOf(n.parts, id), input.data).out);
    }
  }
}
