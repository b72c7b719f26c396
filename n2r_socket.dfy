/** N2R sockets (src/socket/n2r_socket.rs): binding a dock, queueing
    incoming batched messages, and the sender's loop that groups outgoing
    bodies per destination and cuts each group to a size-bounded
    subbatch. */
module N2r {
  import opened Wrappers
  import opened Types

  /** A subbatch's size budget, and the per-body overhead counted in it. */
  const LIMIT: nat := 8192
  const OVERHEAD: nat := 10

  /** The size a subbatch is charged: each body's length plus the
      overhead. */
  function Size(bodies: seq<Bytes>): nat
  {
    if bodies == [] then 0 else |bodies[0]| + OVERHEAD + Size(bodies[1..])
  }

  lemma {:induction false} SizeAppend(bodies: seq<Bytes>, b: Bytes)
    ensures Size(bodies + [b]) == Size(bodies) + |b| + OVERHEAD
  {
    if bodies != [] {
      assert (bodies + [b])[1..] == bodies[1..] + [b];
      SizeAppend(bodies[1..], b);
    }
  }

  /** The inner `while let` of `send_batcher_loop`: take bodies from the
      front while the running size `current` stays within `LIMIT`. */
  function Fit(batch: seq<Bytes>, current: nat): (sub: seq<Bytes>)
    requires current <= LIMIT
    ensures sub <= batch
    ensures current + Size(sub) <= LIMIT
    ensures |sub| < |batch| ==> current + Size(sub) + |batch[|sub|]| + OVERHEAD > LIMIT
  {
    if batch == [] then []
    else if current + |batch[0]| + OVERHEAD > LIMIT then []
    else
      var sub := [batch[0]] + Fit(batch[1..], current + |batch[0]| + OVERHEAD);
      assert sub[1..] == Fit(batch[1..], current + |batch[0]| + OVERHEAD);
      sub
  }

  /** The subbatch sent to one endpoint in one round: the longest prefix
      of its bodies whose size is within `LIMIT`. */
  function FitPrefix(batch: seq<Bytes>): (sub: seq<Bytes>)
    ensures sub <= batch && Size(sub) <= LIMIT
    ensures |sub| < |batch| ==> Size(sub) + |batch[|sub|]| + OVERHEAD > LIMIT
  {
    Fit(batch, 0)
  }

  /** A first body too large on its own makes an empty subbatch, so the
      whole group waits for the next round's `clear`. */
  lemma OversizedHeadSendsNothing(batch: seq<Bytes>)
    requires batch != [] && |batch[0]| + OVERHEAD > LIMIT
    ensures FitPrefix(batch) == []
  {
  }

  /** The longest-fitting prefix is the only prefix that fits and cannot
      take one more body. */
  lemma {:induction false} FitPrefixUnique(batch: seq<Bytes>, sub: seq<Bytes>)
    requires sub <= batch && Size(sub) <= LIMIT
    requires |sub| < |batch| ==> Size(sub) + |batch[|sub|]| + OVERHEAD > LIMIT
    ensures sub == FitPrefix(batch)
  {
    var f := FitPrefix(batch);
    if |f| < |sub| {
      SizeOfPrefix(sub, |f| + 1);
      assert sub[..|f| + 1] == f + [batch[|f|]];
      SizeAppend(f, batch[|f|]);
    } else if |sub| < |f| {
      SizeOfPrefix(f, |sub| + 1);
      assert f[..|sub| + 1] == sub + [batch[|sub|]];
      SizeAppend(sub, batch[|sub|]);
    }
  }

  /** A prefix costs no more than the whole. */
  lemma {:induction false} SizeOfPrefix(bodies: seq<Bytes>, n: nat)
    requires n <= |bodies|
    ensures Size(bodies[..n]) <= Size(bodies)
  {
    if n > 0 {
      assert bodies[..n][1..] == bodies[1..][..n - 1];
      SizeOfPrefix(bodies[1..], n - 1);
    }
  }

  /** The bodies of the messages to `e`, in arrival order. */
  function BodiesFor(msgs: seq<(Bytes, Endpoint)>, e: Endpoint): seq<Bytes>
  {
    if msgs == [] then []
    else
      var last := msgs[|msgs| - 1];
      BodiesFor(msgs[..|msgs| - 1], e) + (if last.1 == e then [last.0] else [])
  }

  /** Arrival order is kept per endpoint: what arrived earlier is queued
      earlier. */
  lemma {:induction false} BodiesForConcat(a: seq<(Bytes, Endpoint)>, b: seq<(Bytes, Endpoint)>, e: Endpoint)
    ensures BodiesFor(a + b, e) == BodiesFor(a, e) + BodiesFor(b, e)
    decreases |b|
  {
    if b != [] {
      var b' := b[..|b| - 1];
      assert (a + b)[..|a + b| - 1] == a + b';
      BodiesForConcat(a, b', e);
    } else {
      assert a + b == a;
    }
  }

  /** A body is queued for `e` exactly when a message carrying it was sent
      to `e`. */
  lemma {:induction false} BodiesForMembers(msgs: seq<(Bytes, Endpoint)>, e: Endpoint, x: Bytes)
    ensures x in BodiesFor(msgs, e) <==> exists i :: 0 <= i < |msgs| && msgs[i] == (x, e)
  {
    if msgs != [] {
      var init := msgs[..|msgs| - 1];
      BodiesForMembers(init, e, x);
      if exists i :: 0 <= i < |msgs| && msgs[i] == (x, e) {
        var i :| 0 <= i < |msgs| && msgs[i] == (x, e);
        if i < |init| {
          assert init[i] == (x, e);
        }
      }
      if exists i :: 0 <= i < |init| && init[i] == (x, e) {
        var i :| 0 <= i < |init| && init[i] == (x, e);
        assert msgs[i] == (x, e);
      }
    }
  }

  /** The destinations in order of their first message. */
  function ArrivalOrder(msgs: seq<(Bytes, Endpoint)>): (order: seq<Endpoint>)
    ensures forall i, j :: 0 <= i < j < |order| ==> order[i] != order[j]
    ensures forall e :: e in order <==> exists i :: 0 <= i < |msgs| && msgs[i].1 == e
    ensures forall e :: e !in order ==> BodiesFor(msgs, e) == []
  {
    if msgs == [] then []
    else
      var init := msgs[..|msgs| - 1];
      var o := ArrivalOrder(init);
      assert forall i :: 0 <= i < |init| ==> init[i] == msgs[i];
      if msgs[|msgs| - 1].1 in o then o else o + [msgs[|msgs| - 1].1]
  }

  datatype SendError = SendFailed(to: Endpoint)

  /** The `for` over the batches of one round: each endpoint, in `order`,
      is sent its subbatch; a failing `send_message` ends the round. */
  function SendAll(msgs: seq<(Bytes, Endpoint)>, order: seq<Endpoint>,
                   sendOk: (Endpoint, seq<Bytes>) -> bool)
    : (r: (seq<(Endpoint, seq<Bytes>)>, Outcome<SendError>))
    ensures |r.0| <= |order|
    ensures forall i :: 0 <= i < |r.0| ==>
              r.0[i] == (order[i], FitPrefix(BodiesFor(msgs, order[i]))) && sendOk(order[i], r.0[i].1)
    ensures r.1.Pass? ==> |r.0| == |order|
    ensures r.1.Fail? ==>
              && |r.0| < |order|
              && r.1 == Fail(SendFailed(order[|r.0|]))
              && !sendOk(order[|r.0|], FitPrefix(BodiesFor(msgs, order[|r.0|])))
  {
    if order == [] then ([], Pass)
    else
      var sub := FitPrefix(BodiesFor(msgs, order[0]));
      if !sendOk(order[0], sub) then ([], Fail(SendFailed(order[0])))
      else
        var rest := SendAll(msgs, order[1..], sendOk);
        assert forall i :: 1 <= i < |order| ==> order[1..][i - 1] == order[i];
        ([(order[0], sub)] + rest.0, rest.1)
  }

  /** What one round sends: each subbatch goes to a distinct endpoint, is
      an in-order prefix of that endpoint's bodies, and fits within
      `LIMIT`. */
  lemma {:induction false} RoundSendsFit(msgs: seq<(Bytes, Endpoint)>, order: seq<Endpoint>,
                                         sendOk: (Endpoint, seq<Bytes>) -> bool)
    requires forall i, j :: 0 <= i < j < |order| ==> order[i] != order[j]
    ensures var s := SendAll(msgs, order, sendOk).0;
      && |s| <= |order|
      && (forall k :: 0 <= k < |s| ==> s[k].0 == order[k])
      && (forall k :: 0 <= k < |s| ==> s[k].1 <= BodiesFor(msgs, s[k].0) && Size(s[k].1) <= LIMIT)
      && (forall k, l :: 0 <= k < l < |s| ==> s[k].0 != s[l].0)
  {
    if order != [] {
      var tail := order[1..];
      assert forall i, j :: 0 <= i < j < |tail| ==> tail[i] != tail[j] by {
        forall i, j | 0 <= i < j < |tail| ensures tail[i] != tail[j] {
          assert tail[i] == order[i + 1] && tail[j] == order[j + 1];
        }
      }
      RoundSendsFit(msgs, tail, sendOk);
    }
  }

  /** What `recv_from` gets from an incoming message: each of its bodies,
      in order, tagged with the sender's fingerprint and source dock. */
  function Tagged(m: Message, from: Fingerprint): (items: seq<(Bytes, Endpoint)>)
    ensures |items| == |m.body|
    ensures forall i :: 0 <= i < |items| ==> items[i] == (m.body[i], Endpoint(from, m.sourceDock))
  {
    seq(|m.body|, i requires 0 <= i < |m.body| => (m.body[i], Endpoint(from, m.sourceDock)))
  }

  datatype RecvOutcome = Received(body: Bytes, from: Endpoint) | Pending | RecvError

  /** `recv_from` with an empty local queue, on the channel contents
      `buf`: messages are taken until one has a body; its first body is
      returned and the rest queued. With nothing left, the call waits
      (`Pending`) or, once the channel is closed, fails. Returned are the
      outcome, the new local queue and what is left in the channel. */
  function Drain(buf: seq<(Message, Fingerprint)>, closed: bool)
    : (r: (RecvOutcome, seq<(Bytes, Endpoint)>, seq<(Message, Fingerprint)>))
    ensures |r.2| < |buf| || r.2 == []
    ensures !r.0.Received? ==> r.1 == [] && r.2 == []
  {
    if buf == [] then (if closed then RecvError else Pending, [], [])
    else
      var items := Tagged(buf[0].0, buf[0].1);
      if items != [] then (Received(items[0].0, items[0].1), items[1..], buf[1..])
      else Drain(buf[1..], closed)
  }

  /** `recv_from` returns the first body of the first message that has
      one, queues that message's other bodies in order, and leaves the
      messages behind it in the channel; it waits or fails only when no
      message has a body. */
  lemma {:induction false} DrainFirstBody(buf: seq<(Message, Fingerprint)>, closed: bool)
    ensures var r := Drain(buf, closed);
      && (r.0.Received? <==> exists k :: 0 <= k < |buf| && buf[k].0.body != [])
      && (r.0.Received? ==>
            exists k :: 0 <= k < |buf|
              && (forall j :: 0 <= j < k ==> buf[j].0.body == [])
              && [(r.0.body, r.0.from)] + r.1 == Tagged(buf[k].0, buf[k].1)
              && r.2 == buf[k + 1..])
      && (!r.0.Received? ==> r.1 == [] && r.2 == [] && (r.0 == RecvError <==> closed))
  {
    var k := FirstFilled(buf);
    DrainSkip(buf, closed, k);
    if k < |buf| {
      var items := Tagged(buf[k].0, buf[k].1);
      assert buf[k..][0] == buf[k] && buf[k..][1..] == buf[k + 1..];
      assert [items[0]] + items[1..] == items;
    } else {
      assert buf[k..] == [];
    }
  }

  /** The index of the first message with a body, or `|buf|` if none has one. */
  function FirstFilled(buf: seq<(Message, Fingerprint)>): (k: nat)
    ensures k <= |buf|
    ensures forall j :: 0 <= j < k ==> buf[j].0.body == []
    ensures k < |buf| ==> buf[k].0.body != []
  {
    if buf == [] || buf[0].0.body != [] then 0
    else
      var k := 1 + FirstFilled(buf[1..]);
      assert forall j :: 1 <= j < k ==> buf[j] == buf[1..][j - 1];
      k
  }

  /** `Drain` passes over messages without bodies. */
  lemma {:induction false} DrainSkip(buf: seq<(Message, Fingerprint)>, closed: bool, k: nat)
    requires k <= |buf|
    requires forall j :: 0 <= j < k ==> buf[j].0.body == []
    ensures Drain(buf, closed) == Drain(buf[k..], closed)
  {
    if k > 0 {
      assert buf[1..][k - 1..] == buf[k..];
      assert forall j :: 0 <= j < k - 1 ==> buf[1..][j] == buf[j + 1];
      DrainSkip(buf[1..], closed, k - 1);
    }
  }

  /** An incoming channel (`send_incoming`/`recv_incoming`, bounded to
      1000), with the messages waiting in it and their last hops. */
  class Channel {
    var buf: seq<(Message, Fingerprint)>

    constructor ()
      ensures buf == []
    {
      buf := [];
    }
  }

  /** SOCKET_RECV_QUEUES: which channel receives for each bound endpoint. */
  class SocketRegistry {
    var queues: map<Endpoint, Channel>

    constructor ()
      ensures queues == map[]
    {
      queues := map[];
    }
  }

  /** The endpoints of `fp` with a dock below `n`. */
  ghost function EndpointsBelow(fp: Fingerprint, n: nat): (s: set<Endpoint>)
    requires n <= DOCK_COUNT
    ensures |s| == n
    ensures forall e :: e in s <==> e.fingerprint == fp && e.dock < n
  {
    if n == 0 then {}
    else
      var s := EndpointsBelow(fp, n - 1);
      assert Endpoint(fp, n - 1) !in s;
      s + {Endpoint(fp, n - 1)}
  }

  /** Fewer bound endpoints than docks leaves a dock free for `fp`, so
      `bind`'s search for a free dock ends. */
  lemma FreeDockExists(keys: set<Endpoint>, fp: Fingerprint)
    requires |keys| < DOCK_COUNT
    ensures exists d: Dock :: Endpoint(fp, d) !in keys
  {
    var all := EndpointsBelow(fp, DOCK_COUNT);
    var missing := all - keys;
    assert all == missing + (all * keys);
    assert |all * keys| <= |keys| by {
      assert keys == (all * keys) + (keys - all);
    }
    var e :| e in missing;
    assert Endpoint(fp, e.dock) == e;
  }

  class N2rSocket {
    const fp: Fingerprint
    const dock: Dock
    const registry: SocketRegistry
    const channel: Channel

    /** `incoming_queue`: bodies already split out of received messages. */
    var incomingQueue: seq<(Bytes, Endpoint)>
    /** `send_outgoing`: bodies waiting for the batcher. */
    var outgoing: seq<(Bytes, Endpoint)>
    /** The subbatches handed to `send_message`, from our dock. */
    var sent: seq<(Endpoint, seq<Bytes>)>

    /** `bind`: a supplied dock is used as it is; otherwise some dock not
        yet bound for `fp` is picked. The endpoint is then registered with
        a fresh channel. */
    constructor Bind(registry: SocketRegistry, fp: Fingerprint, dock: Option<Dock>)
      requires dock.Some? || exists d: Dock :: Endpoint(fp, d) !in registry.queues
      modifies registry
      ensures this.fp == fp && this.registry == registry
      ensures dock.Some? ==> this.dock == dock.value
      ensures dock.None? ==> Endpoint(fp, this.dock) !in old(registry.queues)
      ensures fresh(channel) && channel.buf == []
      ensures registry.queues == old(registry.queues)[Endpoint(fp, this.dock) := channel]
      ensures incomingQueue == [] && outgoing == [] && sent == []
    {
      var d: Dock;
      if dock.Some? {
        d := dock.value;
      } else {
        d :| Endpoint(fp, d) !in registry.queues;
      }
      var ch := new Channel();
      this.fp, this.dock, this.registry, this.channel := fp, d, registry, ch;
      incomingQueue, outgoing, sent := [], [], [];
      registry.queues := registry.queues[Endpoint(fp, d) := ch];
    }

    /** `local_endpoint` */
    function LocalEndpoint(): (e: Endpoint)
      ensures e.fingerprint == fp && e.dock == dock
    {
      Endpoint(fp, dock)
    }

    /** The channel is closed once the registry no longer holds its
        sending end. */
    predicate Closed()
      reads registry
    {
      !(LocalEndpoint() in registry.queues && registry.queues[LocalEndpoint()] == channel)
    }

    /** `send_to`: always succeeds; the body waits for the batcher. */
    method SendTo(body: Bytes, endpoint: Endpoint) returns (r: Outcome<SendError>)
      modifies this`outgoing
      ensures r == Pass && outgoing == old(outgoing) + [(body, endpoint)]
    {
      outgoing := outgoing + [(body, endpoint)];
      r := Pass;
    }

    /** `recv_from` */
    method RecvFrom() returns (r: RecvOutcome)
      modifies this`incomingQueue, channel`buf
      ensures old(incomingQueue) != [] ==>
                && r == Received(old(incomingQueue)[0].0, old(incomingQueue)[0].1)
                && incomingQueue == old(incomingQueue)[1..]
                && channel.buf == old(channel.buf)
      ensures old(incomingQueue) == [] ==> (r, incomingQueue, channel.buf) == Drain(old(channel.buf), Closed())
    {
      if incomingQueue != [] {
        r := Received(incomingQueue[0].0, incomingQueue[0].1);
        incomingQueue := incomingQueue[1..];
        return;
      }
      while channel.buf != []
        invariant incomingQueue == []
        invariant Drain(old(channel.buf), Closed()) == Drain(channel.buf, Closed())
        decreases |channel.buf|
      {
        var (message, from) := channel.buf[0];
        channel.buf := channel.buf[1..];
        var endpoint := Endpoint(from, message.sourceDock);
        ghost var left := channel.buf;
        for j := 0 to |message.body|
          invariant incomingQueue == Tagged(message, from)[..j]
          invariant channel.buf == left
        {
          incomingQueue := incomingQueue + [(message.body[j], endpoint)];
        }
        assert Tagged(message, from)[..|message.body|] == Tagged(message, from);
        if incomingQueue != [] {
          r := Received(incomingQueue[0].0, incomingQueue[0].1);
          incomingQueue := incomingQueue[1..];
          return;
        }
      }
      r := if Closed() then RecvError else Pending;
    }

    /** Dropping the bound dock unregisters exactly its endpoint. */
    method Drop()
      modifies registry`queues
      ensures registry.queues == old(registry.queues) - {LocalEndpoint()}
    {
      registry.queues := registry.queues - {Endpoint(fp, dock)};
    }

    /** One round of `send_batcher_loop`: with nothing waiting it waits;
        otherwise it takes every waiting body, groups them and sends each
        destination its subbatch. What does not fit is dropped with the
        round's batches. */
    method SendBatches(sendOk: (Endpoint, seq<Bytes>) -> bool) returns (r: Outcome<SendError>)
      modifies this`outgoing, this`sent
      ensures old(outgoing) == [] ==> r == Pass && outgoing == [] && sent == old(sent)
      ensures old(outgoing) != [] ==>
                && outgoing == []
                && var round := SendAll(old(outgoing), ArrivalOrder(old(outgoing)), sendOk);
                   sent == old(sent) + round.0 && r == round.1
    {
      if outgoing == [] {
        return Pass;
      }
      var msgs := outgoing;
      outgoing := [];
      var order, batches := GroupByEndpoint(msgs);
      var sends;
      sends, r := SendEach(msgs, order, batches, sendOk);
      sent := sent + sends;
    }
  }

  /** The `for` over a round's batches: each destination in `order` gets
      the subbatch cut from its batch, until a send fails. */
  method SendEach(msgs: seq<(Bytes, Endpoint)>, order: seq<Endpoint>, batches: map<Endpoint, seq<Bytes>>,
                  sendOk: (Endpoint, seq<Bytes>) -> bool)
    returns (sends: seq<(Endpoint, seq<Bytes>)>, r: Outcome<SendError>)
    requires forall e :: e in order ==> e in batches && batches[e] == BodiesFor(msgs, e)
    ensures (sends, r) == SendAll(msgs, order, sendOk)
  {
    sends := [];
    for i := 0 to |order|
      invariant |sends| == i
      invariant forall k :: 0 <= k < i ==>
                  sends[k] == (order[k], FitPrefix(BodiesFor(msgs, order[k]))) && sendOk(order[k], sends[k].1)
    {
      var sub, rest := TakeSubbatch(batches[order[i]]);
      if !sendOk(order[i], sub) {
        ghost var whole := SendAll(msgs, order, sendOk);
        assert |whole.0| == i;
        assert whole.0 == sends;
        return sends, Fail(SendFailed(order[i]));
      }
      sends := sends + [(order[i], sub)];
    }
    ghost var whole := SendAll(msgs, order, sendOk);
    assert whole.1.Pass?;
    assert whole.0 == sends;
    r := Pass;
  }

  /** The grouping of a round: `batches.entry(dest).or_default().push_back(msg)`
      for each waiting body in turn. */
  method GroupByEndpoint(msgs: seq<(Bytes, Endpoint)>)
    returns (order: seq<Endpoint>, batches: map<Endpoint, seq<Bytes>>)
    ensures order == ArrivalOrder(msgs)
    ensures forall e :: e in batches <==> e in order
    ensures forall e :: e in batches ==> batches[e] == BodiesFor(msgs, e)
  {
    order, batches := [], map[];
    for i := 0 to |msgs|
      invariant order == ArrivalOrder(msgs[..i])
      invariant forall e :: e in batches <==> e in order
      invariant forall e :: e in batches ==> batches[e] == BodiesFor(msgs[..i], e)
    {
      assert msgs[..i + 1][..i] == msgs[..i];
      var (body, dest) := msgs[i];
      if dest in batches {
        batches := batches[dest := batches[dest] + [body]];
      } else {
        batches := batches[dest := [body]];
        order := order + [dest];
      }
    }
    assert msgs[..|msgs|] == msgs;
  }

  /** The subbatch loop for one destination: pop bodies from the front
      while they fit, putting back the one that does not. */
  method TakeSubbatch(batch: seq<Bytes>) returns (sub: seq<Bytes>, rest: seq<Bytes>)
    ensures sub == FitPrefix(batch) && sub + rest == batch
  {
    sub, rest := [], batch;
    var currentSize: nat := 0;
    while rest != []
      invariant sub + rest == batch
      invariant currentSize == Size(sub) <= LIMIT
      decreases |rest|
    {
      var first := rest[0];
      var nextSize := currentSize + |first| + OVERHEAD;
      if nextSize > LIMIT {
        break;
      }
      SizeAppend(sub, first);
      assert (sub + [first]) + rest[1..] == sub + rest;
      sub, rest := sub + [first], rest[1..];
      currentSize := nextSize;
    }
    assert sub == batch[..|sub|] && rest == batch[|sub|..];
    FitPrefixUnique(batch, sub);
  }
}
