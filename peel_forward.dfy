/** The daemon's peel-and-forward pipeline with debt accounting
    (src/daemon/peel_forward.rs): a debt gate on the last hop, the debt
    counters, and the three-way dispatch of a peeled packet to a neighbour,
    to a local socket, or through a one-shot reply degarbler. */
module PeelForward {
  import opened Wrappers
  import opened Types

  type RawPacket = Bytes
  type RawBody = Bytes
  /** A reply block (a single-use reply path), kept opaque. */
  type ReplyBlock = Bytes

  /** The capacity of a socket's incoming channel (`bounded(1000)`). */
  const SOCKET_QUEUE_CAPACITY: nat := 1000

  /** The decrypted content of a packet addressed to us. */
  datatype InnerPacket =
    | Msg(msg: Message)
    | ReplyBlocks(blocks: seq<ReplyBlock>)

  /** One onion layer peeled off, as peel_forward.rs sees it. */
  datatype PeeledPacket =
    | Forward(to: Fingerprint, pkt: RawPacket)
    | Received(from: Fingerprint, inner: InnerPacket)
    | GarbledReply(id: nat, body: RawBody)

  /** A reply degarbler, kept for the reply blocks we handed out; it belongs
      to one of our anonymous identities. */
  datatype ReplyDegarbler = ReplyDegarbler(myAnonFp: Fingerprint, key: Bytes)

  datatype PfError =
    | OverDebtLimit(neigh: Fingerprint)
    | PeelFailed
    | NoSuchNextHop(hop: Fingerprint)
    | NoDegarbler(id: nat)
    | DegarbleFailed
    | NoSocket(dest: Endpoint)
    | SocketQueueFull(dest: Endpoint)

  /** The debt counters: packets received from each neighbour and packets
      sent to each neighbour. */
  datatype Debts = Debts(incoming: map<Fingerprint, nat>, outgoing: map<Fingerprint, nat>)

  /** `incr_incoming`/`incr_outgoing`: add one to a neighbour's counter, a
      missing counter counting as zero. */
  function Bump(counters: map<Fingerprint, nat>, fp: Fingerprint): (r: map<Fingerprint, nat>)
    ensures r.Keys == counters.Keys + {fp}
    ensures r[fp] == (if fp in counters then counters[fp] else 0) + 1
    ensures forall k :: k in counters && k != fp ==> r[k] == counters[k]
  {
    counters[fp := (if fp in counters then counters[fp] else 0) + 1]
  }

  class Daemon {
    /** GLOBAL_IDENTITY's fingerprint. */
    const myFp: Fingerprint
    /** Peeling with GLOBAL_ONION_SK; `None` when it fails. */
    const peel: RawPacket -> Option<PeeledPacket>
    /** `degarble`: decrypting a garbled reply; the inner packet and its source. */
    const degarble: (ReplyDegarbler, RawBody) -> Option<(InnerPacket, Fingerprint)>
    /** `is_within_debt_limit`, a policy of the debt store. */
    const withinDebtLimit: (Debts, Fingerprint) -> bool
    /** The capacity of a neighbour connection's outgoing channel. */
    const linkQueueCapacity: nat

    /** DEBTS */
    var debts: Debts
    /** NEIGH_TABLE_NEW: each neighbour's outgoing packet queue. */
    var neighTable: map<Fingerprint, seq<RawPacket>>
    /** DEGARBLERS */
    var degarblers: map<nat, ReplyDegarbler>
    /** SOCKET_RECV_QUEUES: each bound endpoint's incoming channel. */
    var socketQueues: map<Endpoint, seq<(Message, Fingerprint)>>
    /** ANON_DESTS: reply blocks per source fingerprint, oldest first. */
    var anonDests: map<Fingerprint, seq<ReplyBlock>>

    constructor (myFp: Fingerprint, peel: RawPacket -> Option<PeeledPacket>,
                 degarble: (ReplyDegarbler, RawBody) -> Option<(InnerPacket, Fingerprint)>,
                 withinDebtLimit: (Debts, Fingerprint) -> bool, linkQueueCapacity: nat)
      ensures this.myFp == myFp && this.peel == peel && this.degarble == degarble
      ensures this.withinDebtLimit == withinDebtLimit && this.linkQueueCapacity == linkQueueCapacity
      ensures debts == Debts(map[], map[]) && neighTable == map[] && degarblers == map[]
      ensures socketQueues == map[] && anonDests == map[]
    {
      this.myFp, this.peel, this.degarble := myFp, peel, degarble;
      this.withinDebtLimit, this.linkQueueCapacity := withinDebtLimit, linkQueueCapacity;
      debts := Debts(map[], map[]);
      neighTable, degarblers := map[], map[];
      socketQueues, anonDests := map[], map[];
    }

    /** The effect of `process_inner_pkt`: a message goes to the socket
        queue of `(destFp, dest_dock)`, which must exist and have room; reply
        blocks are filed, in order, under `srcFp`. */
    twostate predicate InnerPktDone(inner: InnerPacket, srcFp: Fingerprint, destFp: Fingerprint, new r: Outcome<PfError>)
      reads this
    {
      match inner
      case Msg(msg) =>
        var dest := Endpoint(destFp, msg.destDock);
        && anonDests == old(anonDests)
        && (if dest !in old(socketQueues) then
              r == Fail(NoSocket(dest)) && socketQueues == old(socketQueues)
            else if |old(socketQueues)[dest]| >= SOCKET_QUEUE_CAPACITY then
              r == Fail(SocketQueueFull(dest)) && socketQueues == old(socketQueues)
            else
              r == Pass && socketQueues == old(socketQueues)[dest := old(socketQueues)[dest] + [(msg, srcFp)]])
      case ReplyBlocks(blocks) =>
        && r == Pass
        && socketQueues == old(socketQueues)
        && anonDests == Filed(old(anonDests), srcFp, blocks)
    }

    /** `process_inner_pkt` */
    method ProcessInnerPkt(inner: InnerPacket, srcFp: Fingerprint, destFp: Fingerprint)
      returns (r: Outcome<PfError>)
      modifies this`socketQueues, this`anonDests
      ensures InnerPktDone(inner, srcFp, destFp, r)
    {
      match inner {
        case Msg(msg) =>
          var dest := Endpoint(destFp, msg.destDock);
          if dest !in socketQueues {
            return Fail(NoSocket(dest));
          }
          if |socketQueues[dest]| >= SOCKET_QUEUE_CAPACITY {
            return Fail(SocketQueueFull(dest));
          }
          socketQueues := socketQueues[dest := socketQueues[dest] + [(msg, srcFp)]];
          r := Pass;
        case ReplyBlocks(blocks) =>
          for i := 0 to |blocks|
            invariant socketQueues == old(socketQueues)
            invariant anonDests == Filed(old(anonDests), srcFp, blocks[..i])
          {
            assert blocks[..i + 1] == blocks[..i] + [blocks[i]];
            assert StoredFor(anonDests, srcFp) == StoredFor(old(anonDests), srcFp) + blocks[..i];
            assert StoredFor(anonDests, srcFp) + [blocks[i]] == StoredFor(old(anonDests), srcFp) + blocks[..i + 1];
            anonDests := anonDests[srcFp := StoredFor(anonDests, srcFp) + [blocks[i]]];
          }
          assert blocks[..|blocks|] == blocks;
          r := Pass;
      }
    }

    /** The effect of the body of `peel_forward` on a packet from
        `lastHop`. */
    twostate predicate PeelForwardDone(lastHop: Fingerprint, pkt: RawPacket, new r: Outcome<PfError>)
      reads this
    {
      if !withinDebtLimit(old(debts), lastHop) then
        // refused before anything else happens
        && r == Fail(OverDebtLimit(lastHop))
        && debts == old(debts) && neighTable == old(neighTable) && degarblers == old(degarblers)
        && socketQueues == old(socketQueues) && anonDests == old(anonDests)
      else
        && debts.incoming == (if lastHop != myFp then Bump(old(debts).incoming, lastHop) else old(debts).incoming)
        && match peel(pkt)
           case None =>
             && r == Fail(PeelFailed)
             && debts.outgoing == old(debts).outgoing && neighTable == old(neighTable)
             && degarblers == old(degarblers) && socketQueues == old(socketQueues) && anonDests == old(anonDests)
           case Some(Forward(hop, inner)) =>
             && degarblers == old(degarblers) && socketQueues == old(socketQueues) && anonDests == old(anonDests)
             && if hop !in old(neighTable) then
                  r == Fail(NoSuchNextHop(hop)) && debts.outgoing == old(debts).outgoing && neighTable == old(neighTable)
                else
                  // a full queue silently drops the packet
                  && r == Pass
                  && neighTable == old(neighTable)[hop := TrySend(old(neighTable)[hop], inner, linkQueueCapacity)]
                  && debts.outgoing == (if hop != myFp then Bump(old(debts).outgoing, hop) else old(debts).outgoing)
           case Some(Received(src, inner)) =>
             && debts.outgoing == old(debts).outgoing && neighTable == old(neighTable) && degarblers == old(degarblers)
             && InnerPktDone(inner, src, myFp, r)
           case Some(GarbledReply(id, body)) =>
             && debts.outgoing == old(debts).outgoing && neighTable == old(neighTable)
             && if id !in old(degarblers) then
                  r == Fail(NoDegarbler(id)) && degarblers == old(degarblers)
                  && socketQueues == old(socketQueues) && anonDests == old(anonDests)
                else
                  // the degarbler is used up whether or not degarbling works
                  && degarblers == old(degarblers) - {id}
                  && match degarble(old(degarblers)[id], body)
                     case None =>
                       r == Fail(DegarbleFailed) && socketQueues == old(socketQueues) && anonDests == old(anonDests)
                     case Some((inner, src)) =>
                       InnerPktDone(inner, src, old(degarblers)[id].myAnonFp, r)
    }

    /** The fallible body of `peel_forward`. */
    method PeelForwardInner(lastHop: Fingerprint, pkt: RawPacket) returns (r: Outcome<PfError>)
      modifies this`debts, this`neighTable, this`degarblers, this`socketQueues, this`anonDests
      ensures PeelForwardDone(lastHop, pkt, r)
    {
      if !withinDebtLimit(debts, lastHop) {
        return Fail(OverDebtLimit(lastHop));
      }
      if lastHop != myFp {
        debts := debts.(incoming := Bump(debts.incoming, lastHop));
      }
      var peeled := peel(pkt);
      if peeled.None? {
        return Fail(PeelFailed);
      }
      match peeled.value {
        case Forward(hop, inner) =>
          if hop !in neighTable {
            return Fail(NoSuchNextHop(hop));
          }
          neighTable := neighTable[hop := TrySend(neighTable[hop], inner, linkQueueCapacity)];
          if hop != myFp {
            debts := debts.(outgoing := Bump(debts.outgoing, hop));
          }
          r := Pass;
        case Received(src, inner) =>
          r := ProcessInnerPkt(inner, src, myFp);
        case GarbledReply(id, body) =>
          if id !in degarblers {
            return Fail(NoDegarbler(id));
          }
          var degarbler := degarblers[id];
          degarblers := degarblers - {id};
          var degarbled := degarble(degarbler, body);
          if degarbled.None? {
            return Fail(DegarbleFailed);
          }
          var (inner, src) := degarbled.value;
          r := ProcessInnerPkt(inner, src, degarbler.myAnonFp);
      }
    }

    /** `peel_forward`: every failure is logged and swallowed, so the
        caller sees no result. */
    method PeelForward(lastHop: Fingerprint, pkt: RawPacket)
      modifies this`debts, this`neighTable, this`degarblers, this`socketQueues, this`anonDests
      ensures exists r :: PeelForwardDone(lastHop, pkt, r)
    {
      var _ := PeelForwardInner(lastHop, pkt);
    }
  }

  /** Reply blocks already filed under `fp`. */
  function StoredFor(dests: map<Fingerprint, seq<ReplyBlock>>, fp: Fingerprint): seq<ReplyBlock>
  {
    if fp in dests then dests[fp] else []
  }

  /** ANON_DESTS after inserting each of `blocks`, in order, under `fp`. */
  function Filed(dests: map<Fingerprint, seq<ReplyBlock>>, fp: Fingerprint, blocks: seq<ReplyBlock>): map<Fingerprint, seq<ReplyBlock>>
  {
    if blocks == [] then dests else dests[fp := StoredFor(dests, fp) + blocks]
  }

  /** `try_send` on a bounded channel: the packet is queued when there is
      room and dropped otherwise. */
  function TrySend(queue: seq<RawPacket>, pkt: RawPacket, capacity: nat): (r: seq<RawPacket>)
    ensures |queue| < capacity ==> r == queue + [pkt]
    ensures |queue| >= capacity ==> r == queue
  {
    if |queue| < capacity then queue + [pkt] else queue
  }

  /** A degarbler serves one reply: two garbled replies with the same id
      arriving in a row, the second fails. */
  method SecondGarbledReplyFails(d: Daemon, lastHop: Fingerprint, p1: RawPacket, p2: RawPacket, id: nat)
    returns (first: Outcome<PfError>, second: Outcome<PfError>)
    requires d.peel(p1).Some? && d.peel(p1).value.GarbledReply? && d.peel(p1).value.id == id
    requires d.peel(p2).Some? && d.peel(p2).value.GarbledReply? && d.peel(p2).value.id == id
    modifies d
    ensures second == Fail(OverDebtLimit(lastHop)) || second == Fail(NoDegarbler(id))
  {
    first := d.PeelForwardInner(lastHop, p1);
    second := d.PeelForwardInner(lastHop, p2);
  }
}
