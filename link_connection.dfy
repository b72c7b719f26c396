/** One node-to-node link (src/daemon/link_connection.rs): admitting the
    authenticated neighbour into the neighbour table, the size check on
    incoming onion packets, the pooled RPC transport, and the serving side
    of the link protocol in this revision of the daemon. */
module LinkConnection {
  import opened Wrappers
  import opened Types
  import opened Topology

  /** An in-route neighbour is kept for 300 s unless refreshed. */
  const IN_ROUTE_LIFETIME_MS: nat := 300_000
  /** A pooled RPC connection idle this long or longer is discarded. */
  const POOL_TIMEOUT_MS: nat := 60_000

  /** A multiplexed stream or link, by identity. */
  type ConnId = nat

  /** A neighbour-table entry: the link, and when it lapses (`None` for a
      pinned out-route). */
  datatype NeighEntry = NeighEntry(conn: ConnId, expiresAt: Option<nat>)

  datatype ConnectError = AuthenticationFailed | FingerprintMismatch(expected: Fingerprint, actual: Fingerprint)

  /** The end of `connect`: `auth` is the fingerprint of the remote
      identity key once the authentication response verified (`None` when
      it did not), `theirFp` the fingerprint the configuration expects. */
  function Admit(table: map<Fingerprint, NeighEntry>, auth: Option<Fingerprint>,
                 theirFp: Option<Fingerprint>, conn: ConnId, now: nat)
    : (r: (Result<Fingerprint, ConnectError>, map<Fingerprint, NeighEntry>))
    ensures r.0.Failure? <==> auth.None? || (theirFp.Some? && theirFp != auth)
    ensures r.0.Failure? ==> r.1 == table
    ensures auth.Some? && theirFp.Some? && theirFp != auth ==>
              r.0 == Failure(FingerprintMismatch(theirFp.value, auth.value))
    ensures r.0.Success? ==> r.0.value == auth.value && r.1.Keys == table.Keys + {auth.value}
    ensures r.0.Success? ==> forall fp :: fp in table && fp != auth.value ==> r.1[fp] == table[fp]
    ensures r.0.Success? ==> r.1[auth.value].conn == conn
    ensures r.0.Success? ==> (r.1[auth.value].expiresAt.None? <==> theirFp.Some?)
    ensures r.0.Success? && theirFp.None? ==> r.1[auth.value].expiresAt == Some(now + IN_ROUTE_LIFETIME_MS)
  {
    if auth.None? then (Failure(AuthenticationFailed), table)
    else if theirFp.Some? then
      if theirFp.value != auth.value then (Failure(FingerprintMismatch(theirFp.value, auth.value)), table)
      else (Success(auth.value), table[auth.value := NeighEntry(conn, None)])
    else (Success(auth.value), table[auth.value := NeighEntry(conn, Some(now + IN_ROUTE_LIFETIME_MS))])
  }

  /** The `bytemuck::try_from_bytes` check of `handle_onion_packets`:
      exactly one raw packet's worth of bytes is accepted, unchanged. */
  function DecodeOnionPacket(bytes: Bytes, rawPacketSize: nat): (r: Option<Bytes>)
    ensures r.Some? <==> |bytes| == rawPacketSize
    ensures r.Some? ==> r.value == bytes
  {
    if |bytes| == rawPacketSize then Some(bytes) else None
  }

  predicate IsRelay(g: RelayGraph, fp: Fingerprint)
  {
    fp in g.identities && g.identities[fp].isRelay
  }

  predicate BothRelays(g: RelayGraph, a: AdjacencyDescriptor)
  {
    IsRelay(g, a.left) && IsRelay(g, a.right)
  }

  /** The `filter` of `adjacencies`: keep those whose two ends are known
      relays. */
  function RelayOnly(g: RelayGraph, adjs: seq<AdjacencyDescriptor>): (r: seq<AdjacencyDescriptor>)
    ensures forall a :: a in r <==> a in adjs && BothRelays(g, a)
    ensures forall a :: multiset(r)[a] == if BothRelays(g, a) then multiset(adjs)[a] else 0
  {
    if adjs == [] then []
    else
      var r := (if BothRelays(g, adjs[0]) then [adjs[0]] else []) + RelayOnly(g, adjs[1..]);
      assert adjs == [adjs[0]] + adjs[1..];
      r
  }

  lemma {:induction false} RelayOnlyIsSubsequence(g: RelayGraph, adjs: seq<AdjacencyDescriptor>)
    ensures IsSubsequence(RelayOnly(g, adjs), adjs)
  {
    if adjs != [] {
      RelayOnlyIsSubsequence(g, adjs[1..]);
      if BothRelays(g, adjs[0]) {
        assert RelayOnly(g, adjs)[1..] == RelayOnly(g, adjs[1..]);
      } else {
        assert RelayOnly(g, adjs) == RelayOnly(g, adjs[1..]);
        SubsequenceOfTail(RelayOnly(g, adjs), adjs);
      }
    }
  }

  /** A subsequence of a subsequence is a subsequence. */
  lemma {:induction false} SubsequenceTransitive<T>(a: seq<T>, b: seq<T>, c: seq<T>)
    requires IsSubsequence(a, b) && IsSubsequence(b, c)
    ensures IsSubsequence(a, c)
    decreases |c|
  {
    if a != [] {
      assert b != [] && c != [];
      if b[0] == c[0] {
        if a[0] == b[0] {
          SubsequenceTransitive(a[1..], b[1..], c[1..]);
        } else {
          SubsequenceTransitive(a, b[1..], c[1..]);
          SubsequenceOfTail(a, c);
        }
      } else {
        SubsequenceTransitive(a, b, c[1..]);
        SubsequenceOfTail(a, c);
      }
    }
  }

  /** `adjacencies` of this revision: the requested fingerprints'
      adjacencies in request order, only those between two known relays,
      with consecutive duplicates removed. */
  function RelayAdjacencies(g: RelayGraph, fps: seq<Fingerprint>): (r: seq<AdjacencyDescriptor>)
    ensures NoConsecutiveDuplicates(r)
    ensures IsSubsequence(r, Flatten(g, fps))
    ensures forall a :: a in r <==>
              (exists i :: 0 <= i < |fps| && a in AdjacenciesOf(g, fps[i])) && BothRelays(g, a)
  {
    var all := Flatten(g, fps);
    var kept := RelayOnly(g, all);
    DedupIsSubsequence(kept);
    RelayOnlyIsSubsequence(g, all);
    SubsequenceTransitive(Dedup(kept), kept, all);
    forall a ensures a in Dedup(kept) <==>
        (exists i :: 0 <= i < |fps| && a in AdjacenciesOf(g, fps[i])) && BothRelays(g, a) {
      FlattenMembers(g, fps, a);
    }
    Dedup(kept)
  }

  /** How long ago `t` was at time `now`; `Instant::elapsed` saturates at
      zero. */
  function Elapsed(now: nat, t: nat): nat
  {
    if now >= t then now - t else 0
  }

  predicate Fresh(entry: (ConnId, nat), now: nat)
  {
    Elapsed(now, entry.1) < POOL_TIMEOUT_MS
  }

  datatype RpcError = OpenFailed | CallFailed

  /** `get_conn` on the pool `pool` (front first): pop entries until one is
      younger than the timeout; if none is, open a new stream, whose outcome
      is `newConn`. The second component is what is left in the pool. */
  function PoolTake(pool: seq<(ConnId, nat)>, now: nat, newConn: Option<ConnId>)
    : (r: (Result<ConnId, RpcError>, seq<(ConnId, nat)>))
    ensures |r.1| < |pool| || r.1 == []
  {
    if pool == [] then (if newConn.Some? then Success(newConn.value) else Failure(OpenFailed), [])
    else if Fresh(pool[0], now) then (Success(pool[0].0), pool[1..])
    else PoolTake(pool[1..], now, newConn)
  }

  /** What `get_conn` promises: the first entry younger than the timeout
      is handed out and the entries behind it stay pooled in order; only
      when every entry is stale is the pool emptied and a new stream
      opened. */
  lemma {:induction false} PoolTakeFirstFresh(pool: seq<(ConnId, nat)>, now: nat, newConn: Option<ConnId>)
    ensures var r := PoolTake(pool, now, newConn);
      && ((exists i :: 0 <= i < |pool| && Fresh(pool[i], now)) ==>
            exists i :: 0 <= i < |pool| && Fresh(pool[i], now)
                     && (forall j :: 0 <= j < i ==> !Fresh(pool[j], now))
                     && r == (Success(pool[i].0), pool[i + 1..]))
      && ((forall i :: 0 <= i < |pool| ==> !Fresh(pool[i], now)) ==>
            r.1 == [] && r.0 == (if newConn.Some? then Success(newConn.value) else Failure(OpenFailed)))
  {
    if pool != [] && !Fresh(pool[0], now) {
      var tail := pool[1..];
      PoolTakeFirstFresh(tail, now, newConn);
      var r := PoolTake(tail, now, newConn);
      if exists i :: 0 <= i < |pool| && Fresh(pool[i], now) {
        var i :| 0 <= i < |pool| && Fresh(pool[i], now);
        assert Fresh(tail[i - 1], now);
        var k :| 0 <= k < |tail| && Fresh(tail[k], now)
               && (forall j :: 0 <= j < k ==> !Fresh(tail[j], now))
               && r == (Success(tail[k].0), tail[k + 1..]);
        assert tail[k + 1..] == pool[k + 2..];
        forall j | 0 <= j < k + 1
          ensures !Fresh(pool[j], now)
        {
          if j > 0 {
            assert pool[j] == tail[j - 1];
          }
        }
        assert pool[k + 1] == tail[k];
      } else {
        forall i | 0 <= i < |tail|
          ensures !Fresh(tail[i], now)
        {
          assert tail[i] == pool[i + 1];
        }
      }
    }
  }

  /** The daemon state this file touches: GLOBAL_IDENTITY, NEIGH_TABLE and
      RELAY_GRAPH. */
  class DaemonContext {
    /** The fingerprint of GLOBAL_IDENTITY. */
    const myFp: Fingerprint
    /** A signature with GLOBAL_IDENTITY. */
    const sign: AdjacencyDescriptor -> Bytes
    /** RELAY_GRAPH's `insert_adjacency`. */
    const insertAdjacency: AdjacencyInserter

    var neighTable: map<Fingerprint, NeighEntry>
    var graph: RelayGraph

    constructor (myFp: Fingerprint, sign: AdjacencyDescriptor -> Bytes, insertAdjacency: AdjacencyInserter,
                 graph: RelayGraph)
      ensures this.myFp == myFp && this.sign == sign && this.insertAdjacency == insertAdjacency
      ensures neighTable == map[] && this.graph == graph
    {
      this.myFp, this.sign, this.insertAdjacency := myFp, sign, insertAdjacency;
      neighTable, this.graph := map[], graph;
    }

    /** `LinkConnection::connect` after the handshake. */
    method Connect(auth: Option<Fingerprint>, theirFp: Option<Fingerprint>, conn: ConnId, now: nat)
      returns (r: Result<Fingerprint, ConnectError>)
      modifies this`neighTable
      ensures (r, neighTable) == Admit(old(neighTable), auth, theirFp, conn, now)
    {
      if auth.None? {
        return Failure(AuthenticationFailed);
      }
      var remoteFp := auth.value;
      if theirFp.Some? {
        if theirFp.value != remoteFp {
          return Failure(FingerprintMismatch(theirFp.value, remoteFp));
        }
        neighTable := neighTable[theirFp.value := NeighEntry(conn, None)];
      } else {
        neighTable := neighTable[remoteFp := NeighEntry(conn, Some(now + IN_ROUTE_LIFETIME_MS))];
      }
      r := Success(remoteFp);
    }
  }

  /** The serving side of the link protocol. */
  class LinkProtocolImpl {
    const ctx: DaemonContext

    constructor (ctx: DaemonContext)
      ensures this.ctx == ctx
    {
      this.ctx := ctx;
    }

    /** `sign_adjacency`: countersign only for a neighbour left of us, then
        insert; the countersigned descriptor is returned only if the graph
        took it. */
    method SignAdjacency(leftIncomplete: AdjacencyDescriptor) returns (r: Option<AdjacencyDescriptor>)
      modifies ctx`graph
      ensures !RightSideAccepts(leftIncomplete, ctx.myFp, leftIncomplete.left in ctx.neighTable) ==>
                r.None? && ctx.graph == old(ctx.graph)
      ensures r.Some? ==>
                && RightSideAccepts(leftIncomplete, ctx.myFp, leftIncomplete.left in ctx.neighTable)
                && r.value == leftIncomplete.(rightSig := ctx.sign(leftIncomplete))
                && ctx.insertAdjacency(old(ctx.graph), r.value) == Some(ctx.graph)
      ensures r.None? ==> ctx.graph == old(ctx.graph)
      ensures RightSideAccepts(leftIncomplete, ctx.myFp, leftIncomplete.left in ctx.neighTable) ==>
                (r.Some? <==> ctx.insertAdjacency(old(ctx.graph), leftIncomplete.(rightSig := ctx.sign(leftIncomplete))).Some?)
    {
      var valid := leftIncomplete.left < leftIncomplete.right
                   && leftIncomplete.right == ctx.myFp
                   && leftIncomplete.left in ctx.neighTable;
      if !valid {
        return None;
      }
      var signed := leftIncomplete.(rightSig := ctx.sign(leftIncomplete));
      var inserted := ctx.insertAdjacency(ctx.graph, signed);
      if inserted.None? {
        return None;
      }
      ctx.graph := inserted.value;
      r := Some(signed);
    }

    /** `identity`: a read of the graph. */
    function Identity(fp: Fingerprint): (r: Option<IdentityDescriptor>)
      reads this, ctx
      ensures r.Some? <==> fp in ctx.graph.identities
      ensures r.Some? ==> r.value == ctx.graph.identities[fp]
    {
      IdentityOf(ctx.graph, fp)
    }

    /** `adjacencies`: see `RelayAdjacencies`. */
    function Adjacencies(fps: seq<Fingerprint>): (r: seq<AdjacencyDescriptor>)
      reads this, ctx
      ensures NoConsecutiveDuplicates(r) && IsSubsequence(r, Flatten(ctx.graph, fps))
      ensures forall a :: a in r ==> BothRelays(ctx.graph, a)
    {
      RelayAdjacencies(ctx.graph, fps)
    }
  }

  /** The RPC transport over a link's multiplex, with its FIFO pool of idle
      control streams and when each was returned. */
  class MultiplexRpcTransport {
    var pool: seq<(ConnId, nat)>

    constructor ()
      ensures pool == []
    {
      pool := [];
    }

    /** `get_conn`; `newConn` is what opening a fresh `n2n_control` stream
        would give. */
    method GetConn(now: nat, newConn: Option<ConnId>) returns (r: Result<ConnId, RpcError>)
      modifies this`pool
      ensures (r, pool) == PoolTake(old(pool), now, newConn)
    {
      while pool != []
        invariant PoolTake(old(pool), now, newConn) == PoolTake(pool, now, newConn)
        decreases |pool|
      {
        var entry := pool[0];
        pool := pool[1..];
        if Fresh(entry, now) {
          return Success(entry.0);
        }
      }
      if newConn.None? {
        return Failure(OpenFailed);
      }
      r := Success(newConn.value);
    }

    /** `call_raw`: once a stream is obtained, it goes back to the pool,
        stamped `now`, whatever `exchange` (writing the request line and
        reading the reply line) gives. */
    method CallRaw(now: nat, newConn: Option<ConnId>, exchange: ConnId -> Result<Bytes, RpcError>)
      returns (r: Result<Bytes, RpcError>)
      modifies this`pool
      ensures var (got, rest) := PoolTake(old(pool), now, newConn);
        && (got.Failure? ==> r == Failure(got.error) && pool == rest)
        && (got.Success? ==> r == exchange(got.value) && pool == rest + [(got.value, now)])
    {
      var conn := GetConn(now, newConn);
      if conn.Failure? {
        return Failure(conn.error);
      }
      r := exchange(conn.value);
      pool := pool + [(conn.value, now)];
    }
  }
}
