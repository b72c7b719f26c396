/** The relay's per-packet routing engine (src/network.rs): the replay set,
    the peel-or-forward decision, the dispatch of peeled packets and the
    choice of the neighbour one hop closer to a destination. */
module Network {
  import opened Wrappers
  import opened Types

  /** A fixed-size onion packet and an onion body, as opaque bytes. */
  type RawPacket = Bytes
  type RawBody = Bytes
  /** A blake3 digest of a packet's bytes. */
  type PacketHash = Bytes

  /** `usize::MAX`, the initial "shortest length" of the neighbour scan. */
  const USIZE_MAX: nat := 0xFFFF_FFFF_FFFF_FFFF

  /** One onion layer peeled off, as network.rs sees it. */
  datatype PeeledPacket =
    | Relay(nextPeeler: Fingerprint, pkt: RawPacket, delayMs: nat)
    | Received(from: Fingerprint, body: RawBody)
    | GarbledReply(rbId: nat, body: RawBody, clientId: ClientId)

  datatype NetError =
    | NoNeighbours
    | NoRoute(dest: Fingerprint)
    | NoSuchRelayNeighbour(hop: Fingerprint)
    | NoSuchClient(client: ClientId)
    | Replayed(hash: PacketHash)
    | PeelFailed
    | IncomingRawFailed(cause: NetError)

  /** The relay graph's `find_shortest_path(from, to)`. */
  type PathFinder = (Fingerprint, Fingerprint) -> Option<seq<Fingerprint>>

  /** A neighbour is a candidate when the graph knows a route from it to
      `dest` shorter than the scan's initial bound `usize::MAX`. */
  predicate HasRoute(paths: PathFinder, neigh: Fingerprint, dest: Fingerprint)
  {
    paths(neigh, dest).Some? && |paths(neigh, dest).value| < USIZE_MAX
  }

  function RouteLen(paths: PathFinder, neigh: Fingerprint, dest: Fingerprint): nat
    requires HasRoute(paths, neigh, dest)
  {
    |paths(neigh, dest).value|
  }

  /** `neighs[i]` is the neighbour one hop closer to `dest`: it has a route,
      no neighbour has a strictly shorter one, and every earlier neighbour
      with a route has a strictly longer one (ties go to the first). */
  predicate ClosestAt(neighs: seq<Fingerprint>, paths: PathFinder, dest: Fingerprint, i: int)
  {
    && 0 <= i < |neighs|
    && HasRoute(paths, neighs[i], dest)
    && (forall j :: 0 <= j < |neighs| && HasRoute(paths, neighs[j], dest) ==>
          RouteLen(paths, neighs[i], dest) <= RouteLen(paths, neighs[j], dest))
    && (forall j :: 0 <= j < i && HasRoute(paths, neighs[j], dest) ==>
          RouteLen(paths, neighs[i], dest) < RouteLen(paths, neighs[j], dest))
  }

  /** At most one position satisfies ClosestAt, so the choice is determined
      by the neighbour order and the graph. */
  lemma ClosestAtUnique(neighs: seq<Fingerprint>, paths: PathFinder, dest: Fingerprint, i: int, k: int)
    requires ClosestAt(neighs, paths, dest, i) && ClosestAt(neighs, paths, dest, k)
    ensures i == k
  {
  }

  /** `one_hop_closer`: scans the neighbours in order, keeping the first one
      with the strictly shortest route to `dest`. */
  method OneHopCloser(neighs: seq<Fingerprint>, paths: PathFinder, dest: Fingerprint)
    returns (r: Result<Fingerprint, NetError>)
    ensures |neighs| == 0 ==> r == Failure(NoNeighbours)
    ensures |neighs| > 0 && (forall j :: 0 <= j < |neighs| ==> !HasRoute(paths, neighs[j], dest)) ==>
              r == Failure(NoRoute(dest))
    ensures r.Success? <==> exists i :: ClosestAt(neighs, paths, dest, i)
    ensures r.Success? ==> exists i :: ClosestAt(neighs, paths, dest, i) && neighs[i] == r.value
  {
    if |neighs| == 0 {
      return Failure(NoNeighbours);
    }
    var shortest := USIZE_MAX;
    var nextHop: Option<Fingerprint> := None;
    ghost var at := 0;
    for k := 0 to |neighs|
      invariant nextHop.None? ==> shortest == USIZE_MAX
      invariant nextHop.None? ==> forall j :: 0 <= j < k ==> !HasRoute(paths, neighs[j], dest)
      invariant nextHop.Some? ==> ClosestAt(neighs[..k], paths, dest, at)
      invariant nextHop.Some? ==> neighs[at] == nextHop.value && shortest == RouteLen(paths, neighs[at], dest)
    {
      var route := paths(neighs[k], dest);
      if route.Some? && |route.value| < shortest {
        shortest := |route.value|;
        nextHop := Some(neighs[k]);
        at := k;
      }
    }
    assert neighs[..|neighs|] == neighs;
    if nextHop.None? {
      return Failure(NoRoute(dest));
    }
    return Success(nextHop.value);
  }

  /** Appends `msg` to the queue of `key`, when `key` has a queue. */
  function Enqueue<K, M>(queues: map<K, seq<M>>, key: K, msg: M): map<K, seq<M>>
  {
    if key in queues then queues[key := queues[key] + [msg]] else queues
  }

  /** What a relay link carries: a packet and its designated next peeler. */
  type RelayLinkMsg = (RawPacket, Fingerprint)
  /** What a client link carries: a garbled reply body and its reply-block id. */
  type ClientLinkMsg = (RawBody, nat)

  /** A detached task that sends `pkt` towards `nextPeeler` after `delayMs`. */
  datatype Timer = Timer(delayMs: nat, pkt: RawPacket, nextPeeler: Fingerprint)

  /** A node's routing state. The seen-set, the two spiders' outgoing
      queues, the spawned delay timers and the bodies handed to the N2R
      layer are fields the operations below update. */
  class Relay {
    /** Our relay fingerprint; `None` when this node is a client. */
    const myFp: Option<Fingerprint>
    /** blake3 over the packet's bytes. */
    const hash: RawPacket -> PacketHash
    /** Peeling one layer with our onion secret key; `None` when it fails. */
    const peel: RawPacket -> Option<PeeledPacket>
    /** The relay graph's shortest-path query. */
    const paths: PathFinder

    /** PKTS_SEEN */
    var pktsSeen: set<PacketHash>
    /** RELAY_SPIDER: the neighbour relays in key order, and their queues. */
    var relayNeighs: seq<Fingerprint>
    var relayOut: map<Fingerprint, seq<RelayLinkMsg>>
    /** CLIENT_SPIDER: the queues of the neighbouring clients. */
    var clientOut: map<ClientId, seq<ClientLinkMsg>>
    /** Spawned `send_raw` timers for peeled relay packets. */
    var timers: seq<Timer>
    /** Bodies handed to `n2r::incoming_forward`, with their sender. */
    var delivered: seq<(RawBody, Fingerprint)>

    ghost predicate Valid()
      reads this
    {
      forall n :: n in relayNeighs <==> n in relayOut
    }

    constructor (myFp: Option<Fingerprint>, hash: RawPacket -> PacketHash,
                 peel: RawPacket -> Option<PeeledPacket>, paths: PathFinder,
                 neighs: seq<Fingerprint>, clients: set<ClientId>)
      ensures Valid()
      ensures this.myFp == myFp && this.hash == hash && this.peel == peel && this.paths == paths
      ensures pktsSeen == {} && relayNeighs == neighs && timers == [] && delivered == []
      ensures relayOut == map n | n in neighs :: []
      ensures clientOut == map c | c in clients :: []
    {
      this.myFp, this.hash, this.peel, this.paths := myFp, hash, peel, paths;
      pktsSeen := {};
      relayNeighs := neighs;
      relayOut := map n | n in neighs :: [];
      clientOut := map c | c in clients :: [];
      timers, delivered := [], [];
    }

    /** Spider::send on RELAY_SPIDER. */
    method SendToRelay(hop: Fingerprint, msg: RelayLinkMsg) returns (r: Outcome<NetError>)
      requires Valid()
      modifies this`relayOut
      ensures Valid()
      ensures r == if hop in old(relayOut) then Pass else Fail(NoSuchRelayNeighbour(hop))
      ensures relayOut == Enqueue(old(relayOut), hop, msg)
    {
      if hop in relayOut {
        relayOut := relayOut[hop := relayOut[hop] + [msg]];
        return Pass;
      }
      return Fail(NoSuchRelayNeighbour(hop));
    }

    /** The whole effect of `incoming_raw`: the hash is always recorded; a
        replay changes nothing else; a packet we do not peel is queued,
        unchanged and with the same next peeler, to the neighbour one hop
        closer; a packet we peel is dispatched on its peeled form. */
    twostate predicate IncomingRawDone(nextPeeler: Fingerprint, pkt: RawPacket, new r: Outcome<NetError>)
      reads this
      requires myFp.Some?
    {
      && relayNeighs == old(relayNeighs)
      && pktsSeen == old(pktsSeen) + {hash(pkt)}
      && if hash(pkt) in old(pktsSeen) then
           && r == Fail(Replayed(hash(pkt)))
           && relayOut == old(relayOut) && clientOut == old(clientOut)
           && timers == old(timers) && delivered == old(delivered)
         else if nextPeeler != myFp.value then
           && clientOut == old(clientOut) && timers == old(timers) && delivered == old(delivered)
           && ForwardedOneHopCloser(pkt, nextPeeler, r)
         else
           && relayOut == old(relayOut)
           && match peel(pkt)
              case None =>
                r == Fail(PeelFailed) && clientOut == old(clientOut)
                && timers == old(timers) && delivered == old(delivered)
              case Some(Relay(np, inner, delay)) =>
                r == Pass && timers == old(timers) + [Timer(delay, inner, np)]
                && clientOut == old(clientOut) && delivered == old(delivered)
              case Some(Received(from, body)) =>
                r == Pass && delivered == old(delivered) + [(body, from)]
                && clientOut == old(clientOut) && timers == old(timers)
              case Some(GarbledReply(rbId, body, client)) =>
                && r == (if client in old(clientOut) then Pass else Fail(NoSuchClient(client)))
                && clientOut == Enqueue(old(clientOut), client, (body, rbId))
                && timers == old(timers) && delivered == old(delivered)
    }

    /** `pkt` went, with `nextPeeler`, to the neighbour one hop closer to
        `nextPeeler`, or nowhere when there is no such neighbour. */
    twostate predicate ForwardedOneHopCloser(pkt: RawPacket, nextPeeler: Fingerprint, new r: Outcome<NetError>)
      reads this
    {
      && (r.Pass? <==> exists i :: ClosestAt(relayNeighs, paths, nextPeeler, i))
      && (r.Fail? ==> relayOut == old(relayOut))
      && (r.Pass? ==> exists i :: ClosestAt(relayNeighs, paths, nextPeeler, i)
                               && relayOut == Enqueue(old(relayOut), relayNeighs[i], (pkt, nextPeeler)))
    }

    /** Looks up the neighbour one hop closer and queues the packet there. */
    method ForwardOneHopCloser(pkt: RawPacket, nextPeeler: Fingerprint) returns (r: Outcome<NetError>)
      requires Valid()
      modifies this`relayOut
      ensures Valid()
      ensures ForwardedOneHopCloser(pkt, nextPeeler, r)
    {
      var hop := OneHopCloser(relayNeighs, paths, nextPeeler);
      if hop.Failure? {
        return Fail(hop.error);
      }
      ghost var i :| ClosestAt(relayNeighs, paths, nextPeeler, i) && relayNeighs[i] == hop.value;
      r := SendToRelay(hop.value, (pkt, nextPeeler));
      assert relayNeighs[i] in old(relayOut);
    }

    /** `incoming_raw`: a packet arriving at a relay. */
    method IncomingRaw(nextPeeler: Fingerprint, pkt: RawPacket) returns (r: Outcome<NetError>)
      requires Valid() && myFp.Some?
      modifies this`pktsSeen, this`relayOut, this`clientOut, this`timers, this`delivered
      ensures Valid()
      ensures IncomingRawDone(nextPeeler, pkt, r)
    {
      var packetHash := hash(pkt);
      if packetHash in pktsSeen {
        return Fail(Replayed(packetHash));
      }
      pktsSeen := pktsSeen + {packetHash};
      if nextPeeler == myFp.value {
        var peeled := peel(pkt);
        if peeled.None? {
          return Fail(PeelFailed);
        }
        match peeled.value {
          case Relay(np, inner, delay) =>
            timers := timers + [Timer(delay, inner, np)];
            r := Pass;
          case Received(from, body) =>
            delivered := delivered + [(body, from)];
            r := Pass;
          case GarbledReply(rbId, body, client) =>
            if client in clientOut {
              clientOut := clientOut[client := clientOut[client] + [(body, rbId)]];
              r := Pass;
            } else {
              r := Fail(NoSuchClient(client));
            }
        }
      } else {
        r := ForwardOneHopCloser(pkt, nextPeeler);
      }
    }

    /** `send_raw`: a client always forwards one hop closer; a relay hands
        a packet it must peel itself to `incoming_raw`, and forwards any
        other packet one hop closer. */
    method SendRaw(pkt: RawPacket, nextPeeler: Fingerprint) returns (r: Outcome<NetError>)
      requires Valid()
      modifies this`pktsSeen, this`relayOut, this`clientOut, this`timers, this`delivered
      ensures Valid()
      ensures myFp.None? || nextPeeler != myFp.value ==>
                && pktsSeen == old(pktsSeen) && clientOut == old(clientOut)
                && timers == old(timers) && delivered == old(delivered)
                && ForwardedOneHopCloser(pkt, nextPeeler, r)
      ensures myFp.Some? && nextPeeler == myFp.value ==>
                exists inner :: IncomingRawDone(nextPeeler, pkt, inner)
                             && r == (if inner.Pass? then Pass else Fail(IncomingRawFailed(inner.error)))
    {
      if myFp.None? || nextPeeler != myFp.value {
        r := ForwardOneHopCloser(pkt, nextPeeler);
      } else {
        var inner := IncomingRaw(nextPeeler, pkt);
        r := if inner.Pass? then Pass else Fail(IncomingRawFailed(inner.error));
      }
    }
  }

  /** Delivering the same packet twice: the second delivery is rejected as a
      replay, whatever the first one did, and forwards nothing. */
  method SecondDeliveryRejected(relay: Relay, nextPeeler: Fingerprint, pkt: RawPacket)
    returns (first: Outcome<NetError>, second: Outcome<NetError>)
    requires relay.Valid() && relay.myFp.Some?
    modifies relay
    ensures second == Fail(Replayed(relay.hash(pkt)))
    ensures relay.hash(pkt) in relay.pktsSeen
  {
    first := relay.IncomingRaw(nextPeeler, pkt);
    ghost var mid := relay.relayOut;
    second := relay.IncomingRaw(nextPeeler, pkt);
    assert relay.relayOut == mid;
  }
}
