/** The RPC service one relay offers its neighbour over a link
    (src/daemon/inout_route/link_protocol_impl.rs): countersigning
    adjacencies, answering identity and adjacency queries, and recording
    incoming chat messages. */
module InoutRoute {
  import opened Wrappers
  import opened Types
  import opened Topology

  /** Whom a chat is with: a client (`either::Left`) or a relay
      (`either::Right`). */
  datatype ChatPeer = ClientPeer(client: ClientId) | RelayPeer(relay: Fingerprint)

  datatype ChatEntry = ChatEntry(text: string, isMine: bool, time: nat)

  /** CHATS.record: appends an entry to the history of one peer. */
  function Record(chats: map<ChatPeer, seq<ChatEntry>>, peer: ChatPeer, entry: ChatEntry): (r: map<ChatPeer, seq<ChatEntry>>)
    ensures r.Keys == chats.Keys + {peer}
    ensures r[peer] == (if peer in chats then chats[peer] else []) + [entry]
    ensures forall p :: p in chats && p != peer ==> r[p] == chats[p]
  {
    chats[peer := (if peer in chats then chats[peer] else []) + [entry]]
  }

  /** `adjacencies`: the adjacencies of the requested fingerprints, in
      request order, with runs of equal descriptors collapsed. */
  function AnswerAdjacencies(g: RelayGraph, fps: seq<Fingerprint>): (r: seq<AdjacencyDescriptor>)
    ensures NoConsecutiveDuplicates(r)
    ensures IsSubsequence(r, Flatten(g, fps))
    ensures forall a :: a in r <==> exists i :: 0 <= i < |fps| && a in AdjacenciesOf(g, fps[i])
  {
    var all := Flatten(g, fps);
    DedupIsSubsequence(all);
    forall a ensures a in Dedup(all) <==> exists i :: 0 <= i < |fps| && a in AdjacenciesOf(g, fps[i]) {
      FlattenMembers(g, fps, a);
    }
    Dedup(all)
  }

  /** The serving side of one link. */
  class LinkProtocolImpl {
    /** MY_RELAY_IDENTITY's fingerprint; `None` on a client. */
    const myFp: Option<Fingerprint>
    /** Our signature over an adjacency's to-be-signed bytes. */
    const sign: AdjacencyDescriptor -> Bytes
    /** RELAY_GRAPH's `insert_adjacency`. */
    const insertAdjacency: AdjacencyInserter
    /** Who is at the other end of the link. */
    const remoteClientId: ClientId
    const remoteRelayFp: Option<Fingerprint>
    /** The relays we have a link to (`is_relay_neigh`). */
    const relayNeighs: set<Fingerprint>

    /** RELAY_GRAPH */
    var graph: RelayGraph
    /** CHATS */
    var chats: map<ChatPeer, seq<ChatEntry>>

    constructor (myFp: Option<Fingerprint>, sign: AdjacencyDescriptor -> Bytes,
                 insertAdjacency: AdjacencyInserter, remoteClientId: ClientId,
                 remoteRelayFp: Option<Fingerprint>, relayNeighs: set<Fingerprint>, graph: RelayGraph)
      ensures this.myFp == myFp && this.sign == sign && this.insertAdjacency == insertAdjacency
      ensures this.remoteClientId == remoteClientId && this.remoteRelayFp == remoteRelayFp
      ensures this.relayNeighs == relayNeighs && this.graph == graph && chats == map[]
    {
      this.myFp, this.sign, this.insertAdjacency := myFp, sign, insertAdjacency;
      this.remoteClientId, this.remoteRelayFp, this.relayNeighs := remoteClientId, remoteRelayFp, relayNeighs;
      this.graph, chats := graph, map[];
    }

    /** `sign_adjacency`: countersign a descriptor the left relay started,
        and insert it into our graph. Only relays serve it (the source
        panics on a client). */
    method SignAdjacency(leftIncomplete: AdjacencyDescriptor) returns (r: Option<AdjacencyDescriptor>)
      requires myFp.Some?
      modifies this`graph
      ensures !RightSideAccepts(leftIncomplete, myFp.value, leftIncomplete.left in relayNeighs) ==>
                r == None && graph == old(graph)
      ensures r.Some? ==> RightSideAccepts(leftIncomplete, myFp.value, leftIncomplete.left in relayNeighs)
      ensures r.Some? ==> r.value == leftIncomplete.(rightSig := sign(leftIncomplete))
      ensures r.Some? ==> insertAdjacency(old(graph), r.value) == Some(graph)
      ensures r.None? ==> graph == old(graph)
      ensures RightSideAccepts(leftIncomplete, myFp.value, leftIncomplete.left in relayNeighs) ==>
                (r.Some? <==> insertAdjacency(old(graph), leftIncomplete.(rightSig := sign(leftIncomplete))).Some?)
    {
      var valid := leftIncomplete.left < leftIncomplete.right
        && leftIncomplete.right == myFp.value
        && leftIncomplete.left in relayNeighs;
      if !valid {
        return None;
      }
      var signed := leftIncomplete.(rightSig := sign(leftIncomplete));
      var inserted := insertAdjacency(graph, signed);
      if inserted.None? {
        return None;
      }
      graph := inserted.value;
      return Some(signed);
    }

    /** `identity`: a lookup in our graph. */
    function Identity(fp: Fingerprint): (r: Option<IdentityDescriptor>)
      reads this
      ensures r.Some? <==> fp in graph.identities
      ensures r.Some? ==> r.value == graph.identities[fp]
    {
      IdentityOf(graph, fp)
    }

    /** `adjacencies` over our graph. */
    function Adjacencies(fps: seq<Fingerprint>): (r: seq<AdjacencyDescriptor>)
      reads this
      ensures NoConsecutiveDuplicates(r)
      ensures forall a :: a in r <==> exists i :: 0 <= i < |fps| && a in AdjacenciesOf(graph, fps[i])
    {
      AnswerAdjacencies(graph, fps)
    }

    /** The peer a chat on this link is filed under. */
    function ChatPeerOfLink(): (p: ChatPeer)
      reads this
      ensures p.RelayPeer? <==> remoteRelayFp.Some?
      ensures remoteRelayFp.Some? ==> p == RelayPeer(remoteRelayFp.value)
      ensures remoteRelayFp.None? ==> p == ClientPeer(remoteClientId)
    {
      if remoteRelayFp.Some? then RelayPeer(remoteRelayFp.value) else ClientPeer(remoteClientId)
    }

    /** `push_chat`: record an incoming message from the other side, at
        time `now`. */
    method PushChat(msg: string, now: nat)
      modifies this`chats
      ensures chats == Record(old(chats), ChatPeerOfLink(), ChatEntry(msg, false, now))
    {
      if remoteRelayFp.Some? {
        chats := Record(chats, RelayPeer(remoteRelayFp.value), ChatEntry(msg, false, now));
      } else {
        chats := Record(chats, ClientPeer(remoteClientId), ChatEntry(msg, false, now));
      }
    }
  }
}
