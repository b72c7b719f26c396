/** One round of topology gossip over a link
    (src/daemon/inout_route/gossip.rs): fetch the neighbour's identity, sign
    an adjacency with it when we are its left side, then sample the graph and
    merge the adjacencies and identities the neighbour reports. */
module Gossip {
  import opened Wrappers
  import opened Types
  import opened Topology

  /** How many known nodes one round asks about. */
  const SAMPLE_SIZE: nat := 10

  /** A request this node sends to its neighbour over the link. */
  datatype Request =
    | IdentityReq(fp: Fingerprint)
    | SignAdjacencyReq(adj: AdjacencyDescriptor)
    | AdjacenciesReq(fps: seq<Fingerprint>)

  /** The neighbour's answer to one request, or a transport failure. */
  datatype Reply<+T> = Answered(value: T) | RpcError

  /** How the neighbour answers each kind of request during this round. */
  datatype Remote = Remote(
    identity: Fingerprint -> Reply<Option<IdentityDescriptor>>,
    signAdjacency: AdjacencyDescriptor -> Reply<Option<AdjacencyDescriptor>>,
    adjacencies: seq<Fingerprint> -> Reply<seq<AdjacencyDescriptor>>)

  datatype GossipError = RpcFailed | NoRemoteIdentity | RemoteRefused | GraphRejected

  /** What one round reads and writes: RELAY_GRAPH, IDENTITY_CACHE and the
      requests sent so far. */
  datatype GossipState = GossipState(
    graph: RelayGraph, cache: map<Fingerprint, IdentityDescriptor>, sent: seq<Request>)

  /** The node's fixed context: its relay fingerprint (`None` on a client),
      its signing key, and the graph's validating inserts. */
  datatype Env = Env(
    me: Option<Fingerprint>,
    sign: AdjacencyDescriptor -> Bytes,
    insertIdentity: IdentityInserter,
    insertAdjacency: AdjacencyInserter)

  function Min(a: nat, b: nat): nat { if a < b then a else b }

  /** `choose_multiple(rng, min(10, n))` over the known nodes: that many
      distinct known nodes. */
  predicate IsSample(nodes: set<Fingerprint>, s: seq<Fingerprint>)
  {
    && |s| == Min(SAMPLE_SIZE, |nodes|)
    && (forall i, j :: 0 <= i < j < |s| ==> s[i] != s[j])
    && (forall i :: 0 <= i < |s| ==> s[i] in nodes)
  }

  /** Some `k` distinct elements of `nodes`. */
  ghost function TakeDistinct(nodes: set<Fingerprint>, k: nat): (s: seq<Fingerprint>)
    requires k <= |nodes|
    ensures |s| == k
    ensures forall i, j :: 0 <= i < j < |s| ==> s[i] != s[j]
    ensures forall i :: 0 <= i < |s| ==> s[i] in nodes
  {
    if k == 0 then []
    else
      var x :| x in nodes;
      [x] + TakeDistinct(nodes - {x}, k - 1)
  }

  /** Every set of known nodes has a sample, so the sampler's contract can
      be met. */
  lemma SampleExists(nodes: set<Fingerprint>)
    ensures exists s :: IsSample(nodes, s)
  {
    var s := TakeDistinct(nodes, Min(SAMPLE_SIZE, |nodes|));
    assert IsSample(nodes, s);
  }

  /** Step 1, `fetch_identity`: ask for the neighbour's identity and
      insert it; a missing identity is an error. */
  function FetchIdentityStep(env: Env, st: GossipState, remoteFp: Fingerprint, remote: Remote)
    : (r: (GossipState, Outcome<GossipError>))
    ensures r.0.sent == st.sent + [IdentityReq(remoteFp)] && r.0.cache == st.cache
    ensures r.1.Pass? <==> (remote.identity(remoteFp).Answered? && remote.identity(remoteFp).value.Some?
                            && env.insertIdentity(st.graph, remote.identity(remoteFp).value.value).Some?)
    ensures r.1.Pass? ==> Some(r.0.graph) == env.insertIdentity(st.graph, remote.identity(remoteFp).value.value)
    ensures r.1.Fail? ==> r.0.graph == st.graph
    ensures remote.identity(remoteFp).RpcError? ==> r.1 == Fail(RpcFailed)
    ensures remote.identity(remoteFp) == Answered(None) ==> r.1 == Fail(NoRemoteIdentity)
  {
    var st1 := st.(sent := st.sent + [IdentityReq(remoteFp)]);
    match remote.identity(remoteFp)
    case RpcError => (st1, Fail(RpcFailed))
    case Answered(None) => (st1, Fail(NoRemoteIdentity))
    case Answered(Some(id)) =>
      match env.insertIdentity(st1.graph, id)
      case None => (st1, Fail(GraphRejected))
      case Some(g) => (st1.(graph := g), Pass)
  }

  /** The descriptor the left side sends: left is us, right is the
      neighbour, the right signature is still empty. */
  function Initiated(env: Env, myFp: Fingerprint, remoteFp: Fingerprint, now: nat): (a: AdjacencyDescriptor)
    ensures a.left == myFp && a.right == remoteFp && a.rightSig == [] && a.unixTimestamp == now
    ensures a.leftSig == env.sign(a.(leftSig := []))
  {
    var unsigned := AdjacencyDescriptor(myFp, remoteFp, [], [], now);
    unsigned.(leftSig := env.sign(unsigned))
  }

  /** Step 2, `sign_adjacency`: only a relay that is left of the
      neighbour starts a signature; the countersigned descriptor the
      neighbour returns is inserted, and a refusal is an error. */
  function SignAdjacencyStep(env: Env, st: GossipState, remoteFp: Fingerprint, remote: Remote, now: nat)
    : (r: (GossipState, Outcome<GossipError>))
    ensures r.0.cache == st.cache
    ensures !(env.me.Some? && env.me.value < remoteFp) ==> r == (st, Pass)
    ensures env.me.Some? && env.me.value < remoteFp ==>
              var reply := remote.signAdjacency(Initiated(env, env.me.value, remoteFp, now));
              && r.0.sent == st.sent + [SignAdjacencyReq(Initiated(env, env.me.value, remoteFp, now))]
              && (reply.RpcError? ==> r.1 == Fail(RpcFailed))
              && (reply == Answered(None) ==> r.1 == Fail(RemoteRefused))
              && (r.1.Pass? <==> reply.Answered? && reply.value.Some?
                                 && env.insertAdjacency(st.graph, reply.value.value).Some?)
              && (r.1.Pass? ==> Some(r.0.graph) == env.insertAdjacency(st.graph, reply.value.value))
              && (r.1.Fail? ==> r.0.graph == st.graph)
  {
    if env.me.None? || !(env.me.value < remoteFp) then (st, Pass)
    else
      var adj := Initiated(env, env.me.value, remoteFp, now);
      var st1 := st.(sent := st.sent + [SignAdjacencyReq(adj)]);
      match remote.signAdjacency(adj)
      case RpcError => (st1, Fail(RpcFailed))
      case Answered(None) => (st1, Fail(RemoteRefused))
      case Answered(Some(complete)) =>
        match env.insertAdjacency(st1.graph, complete)
        case None => (st1, Fail(GraphRejected))
        case Some(g) => (st1.(graph := g), Pass)
  }

  /** The identity of one end of a reported adjacency: nothing is asked
      for our own fingerprint or for one already cached; an identity the
      neighbour returns is cached. */
  function LookupIdentity(env: Env, st: GossipState, fp: Fingerprint, remote: Remote)
    : (r: (GossipState, Reply<Option<IdentityDescriptor>>))
    ensures r.0.graph == st.graph && st.sent <= r.0.sent && st.cache.Keys <= r.0.cache.Keys
    ensures env.me == Some(fp) || fp in st.cache ==> r == (st, Answered(None))
    ensures forall k :: |st.sent| <= k < |r.0.sent| ==>
              r.0.sent[k] == IdentityReq(fp) && env.me != Some(fp) && fp !in st.cache
    ensures env.me != Some(fp) && fp !in st.cache ==>
              && r.0.sent == st.sent + [IdentityReq(fp)]
              && r.1 == remote.identity(fp)
              && r.0.cache == (if r.1.Answered? && r.1.value.Some? then st.cache[fp := r.1.value.value] else st.cache)
  {
    if env.me == Some(fp) || fp in st.cache then (st, Answered(None))
    else
      var st1 := st.(sent := st.sent + [IdentityReq(fp)]);
      match remote.identity(fp)
      case RpcError => (st1, RpcError)
      case Answered(v) => (if v.Some? then st1.(cache := st1.cache[fp := v.value]) else st1, Answered(v))
  }

  /** The graph with `id` inserted, when there is one; `None` when the
      graph rejects it. */
  function WithIdentity(env: Env, g: RelayGraph, id: Option<IdentityDescriptor>): Option<RelayGraph>
  {
    if id.None? then Some(g) else env.insertIdentity(g, id.value)
  }

  /** What merging one reported adjacency does to the graph once both
      identity lookups were answered: the fetched left identity, then the
      fetched right one, then the adjacency are inserted; `None` at the
      first rejection. */
  function Merged(env: Env, g: RelayGraph, leftId: Option<IdentityDescriptor>,
                  rightId: Option<IdentityDescriptor>, adj: AdjacencyDescriptor): Option<RelayGraph>
  {
    match WithIdentity(env, g, leftId)
    case None => None
    case Some(g1) =>
      match WithIdentity(env, g1, rightId)
      case None => None
      case Some(g2) => env.insertAdjacency(g2, adj)
  }

  /** Inserting a fetched identity, when there is one: a rejection is an
      error and leaves the graph as it was. */
  function InsertFetched(env: Env, st: GossipState, id: Option<IdentityDescriptor>)
    : (r: (GossipState, Outcome<GossipError>))
    ensures r.0.sent == st.sent && r.0.cache == st.cache
    ensures id.None? ==> r == (st, Pass)
    ensures id.Some? && env.insertIdentity(st.graph, id.value).Some? ==>
              r == (st.(graph := env.insertIdentity(st.graph, id.value).value), Pass)
    ensures id.Some? && env.insertIdentity(st.graph, id.value).None? ==> r == (st, Fail(GraphRejected))
  {
    if id.None? then (st, Pass)
    else
      match env.insertIdentity(st.graph, id.value)
      case None => (st, Fail(GraphRejected))
      case Some(g) => (st.(graph := g), Pass)
  }

  /** One iteration of `gossip_graph`: look up both ends, insert what was
      fetched, then insert the adjacency itself. */
  function GossipAdjacency(env: Env, st: GossipState, adj: AdjacencyDescriptor, remote: Remote)
    : (r: (GossipState, Outcome<GossipError>))
    ensures st.sent <= r.0.sent && st.cache.Keys <= r.0.cache.Keys
    ensures forall k :: |st.sent| <= k < |r.0.sent| ==>
              r.0.sent[k].IdentityReq? && env.me != Some(r.0.sent[k].fp) && r.0.sent[k].fp !in st.cache
  {
    var (s1, leftId) := LookupIdentity(env, st, adj.left, remote);
    if leftId.RpcError? then (s1, Fail(RpcFailed))
    else
      var (s2, rightId) := LookupIdentity(env, s1, adj.right, remote);
      if rightId.RpcError? then (s2, Fail(RpcFailed))
      else
        var (s3, o3) := InsertFetched(env, s2, leftId.value);
        if o3.Fail? then (s3, o3)
        else
          var (s4, o4) := InsertFetched(env, s3, rightId.value);
          if o4.Fail? then (s4, o4)
          else
            match env.insertAdjacency(s4.graph, adj)
            case None => (s4, Fail(GraphRejected))
            case Some(g) => (s4.(graph := g), Pass)
  }

  /** One reported adjacency: a failed identity lookup ends the step with
      an RPC error; with both lookups answered, the step passes exactly when
      the fetched identities and then the adjacency are all accepted, and
      the graph is then the merged one; a rejection is an error. */
  lemma GossipAdjacencyMerges(env: Env, st: GossipState, adj: AdjacencyDescriptor, remote: Remote)
    ensures var r := GossipAdjacency(env, st, adj, remote);
            var (s1, leftId) := LookupIdentity(env, st, adj.left, remote);
            var (s2, rightId) := LookupIdentity(env, s1, adj.right, remote);
            && (leftId.RpcError? ==> r == (s1, Fail(RpcFailed)))
            && (leftId.Answered? && rightId.RpcError? ==> r == (s2, Fail(RpcFailed)))
            && (leftId.Answered? && rightId.Answered? ==>
                  && r.0.sent == s2.sent && r.0.cache == s2.cache
                  && (r.1.Pass? <==> Merged(env, st.graph, leftId.value, rightId.value, adj).Some?)
                  && (r.1.Pass? ==> Some(r.0.graph) == Merged(env, st.graph, leftId.value, rightId.value, adj))
                  && (r.1.Fail? ==> r.1 == Fail(GraphRejected)))
  {
  }

  /** The loop of `gossip_graph` over the reported adjacencies, in order,
      stopping at the first error. Over the whole loop only identities are
      requested, never our own and never one cached when the loop began,
      and the cache only grows. */
  function GossipAll(env: Env, st: GossipState, adjs: seq<AdjacencyDescriptor>, remote: Remote)
    : (r: (GossipState, Outcome<GossipError>))
    ensures st.sent <= r.0.sent && st.cache.Keys <= r.0.cache.Keys
    ensures forall k :: |st.sent| <= k < |r.0.sent| ==>
              r.0.sent[k].IdentityReq? && env.me != Some(r.0.sent[k].fp) && r.0.sent[k].fp !in st.cache
    decreases |adjs|
  {
    if adjs == [] then (st, Pass)
    else
      var (s1, o1) := GossipAdjacency(env, st, adjs[0], remote);
      if o1.Fail? then (s1, o1)
      else GossipAll(env, s1, adjs[1..], remote)
  }

  /** The loop merges the reported adjacencies in order: it passes
      exactly when each adjacency, merged into the state the ones before it
      left, passes; otherwise its result is that of the first adjacency
      that fails, so nothing after it is requested or inserted. */
  lemma {:induction false} GossipAllFirstError(env: Env, st: GossipState, adjs: seq<AdjacencyDescriptor>, remote: Remote)
    ensures var r := GossipAll(env, st, adjs, remote);
      && (r.1.Pass? <==>
            forall n :: 0 <= n < |adjs| ==>
              GossipAdjacency(env, GossipAll(env, st, adjs[..n], remote).0, adjs[n], remote).1.Pass?)
      && (r.1.Fail? ==>
            exists n :: 0 <= n < |adjs|
              && GossipAll(env, st, adjs[..n], remote).1.Pass?
              && r == GossipAdjacency(env, GossipAll(env, st, adjs[..n], remote).0, adjs[n], remote))
    decreases |adjs|
  {
    if adjs != [] {
      var r := GossipAll(env, st, adjs, remote);
      var (s1, o1) := GossipAdjacency(env, st, adjs[0], remote);
      assert adjs[..0] == [];
      if o1.Fail? {
        assert r == GossipAdjacency(env, GossipAll(env, st, adjs[..0], remote).0, adjs[0], remote);
      } else {
        var tail := adjs[1..];
        GossipAllFirstError(env, s1, tail, remote);
        forall n | 1 <= n <= |adjs|
          ensures GossipAll(env, st, adjs[..n], remote) == GossipAll(env, s1, tail[..n - 1], remote)
        {
          GossipAllShift(env, st, adjs, remote, n);
        }
        if r.1.Fail? {
          var m :| 0 <= m < |tail|
            && GossipAll(env, s1, tail[..m], remote).1.Pass?
            && r == GossipAdjacency(env, GossipAll(env, s1, tail[..m], remote).0, tail[m], remote);
          assert adjs[m + 1] == tail[m];
          var n := m + 1;
          assert GossipAll(env, st, adjs[..n], remote) == GossipAll(env, s1, tail[..m], remote);
        } else {
          forall n | 0 <= n < |adjs|
            ensures GossipAdjacency(env, GossipAll(env, st, adjs[..n], remote).0, adjs[n], remote).1.Pass?
          {
            if n > 0 {
              assert adjs[n] == tail[n - 1];
            }
          }
        }
      }
    }
  }

  /** Once the first adjacency passed, the loop over a prefix continues
      from the state it left. */
  lemma GossipAllShift(env: Env, st: GossipState, adjs: seq<AdjacencyDescriptor>, remote: Remote, n: nat)
    requires 1 <= n <= |adjs| && GossipAdjacency(env, st, adjs[0], remote).1.Pass?
    ensures GossipAll(env, st, adjs[..n], remote)
         == GossipAll(env, GossipAdjacency(env, st, adjs[0], remote).0, adjs[1..][..n - 1], remote)
  {
    assert adjs[..n][0] == adjs[0] && adjs[..n][1..] == adjs[1..][..n - 1];
  }

  /** Step 3, `gossip_graph`: ask the neighbour for the adjacencies of a
      sample of known nodes and merge them. */
  function GossipGraphStep(env: Env, st: GossipState, sample: seq<Fingerprint>, remote: Remote)
    : (r: (GossipState, Outcome<GossipError>))
    ensures |r.0.sent| > |st.sent| && r.0.sent[..|st.sent| + 1] == st.sent + [AdjacenciesReq(sample)]
    ensures forall k :: |st.sent| < k < |r.0.sent| ==>
              r.0.sent[k].IdentityReq? && env.me != Some(r.0.sent[k].fp) && r.0.sent[k].fp !in st.cache
    ensures st.cache.Keys <= r.0.cache.Keys
    ensures remote.adjacencies(sample).RpcError? ==>
              r.1 == Fail(RpcFailed) && r.0.graph == st.graph && r.0.cache == st.cache
    ensures remote.adjacencies(sample).Answered? ==>
              r == GossipAll(env, st.(sent := st.sent + [AdjacenciesReq(sample)]), remote.adjacencies(sample).value, remote)
  {
    var st1 := st.(sent := st.sent + [AdjacenciesReq(sample)]);
    match remote.adjacencies(sample)
    case RpcError => (st1, Fail(RpcFailed))
    case Answered(adjs) =>
      var r := GossipAll(env, st1, adjs, remote);
      assert r.0.sent[..|st.sent| + 1] == st1.sent;
      r
  }

  /** `gossip_once`: with a relay on the other side, fetch its identity and
      sign an adjacency first; the graph gossip runs in any case; the first
      error ends the round. `sample` picks the nodes to ask about. */
  function GossipOnceStep(env: Env, st: GossipState, remoteFp: Option<Fingerprint>, remote: Remote,
                          now: nat, sample: set<Fingerprint> -> seq<Fingerprint>)
    : (r: (GossipState, Outcome<GossipError>))
    ensures st.sent <= r.0.sent && |r.0.sent| > |st.sent|
    ensures st.cache.Keys <= r.0.cache.Keys
  {
    if remoteFp.None? then GossipGraphStep(env, st, sample(st.graph.nodes), remote)
    else
      var (s1, o1) := FetchIdentityStep(env, st, remoteFp.value, remote);
      if o1.Fail? then (s1, o1)
      else
        var (s2, o2) := SignAdjacencyStep(env, s1, remoteFp.value, remote, now);
        if o2.Fail? then (s2, o2)
        else GossipGraphStep(env, s2, sample(s2.graph.nodes), remote)
  }

  /** The order of a round: with a relay neighbour the first request is for
      its identity, otherwise the first request is the graph query; and an
      adjacency signature is requested, second, only when we are a relay
      left of the neighbour and its identity was merged. */
  lemma {:induction false} GossipOnceOrder(env: Env, st: GossipState, remoteFp: Option<Fingerprint>, remote: Remote,
                                           now: nat, sample: set<Fingerprint> -> seq<Fingerprint>)
    ensures var r := GossipOnceStep(env, st, remoteFp, remote, now, sample);
      && |r.0.sent| > |st.sent|
      && st.sent <= r.0.sent
      && (remoteFp.None? ==> r.0.sent[|st.sent|] == AdjacenciesReq(sample(st.graph.nodes)))
      && (remoteFp.Some? ==> r.0.sent[|st.sent|] == IdentityReq(remoteFp.value))
      && (remoteFp.Some? && |r.0.sent| > |st.sent| + 1 && r.0.sent[|st.sent| + 1].SignAdjacencyReq? ==>
            && FetchIdentityStep(env, st, remoteFp.value, remote).1 == Pass
            && env.me.Some? && env.me.value < remoteFp.value
            && r.0.sent[|st.sent| + 1] == SignAdjacencyReq(Initiated(env, env.me.value, remoteFp.value, now)))
  {
    var r := GossipOnceStep(env, st, remoteFp, remote, now, sample);
    if remoteFp.None? {
      var g := GossipGraphStep(env, st, sample(st.graph.nodes), remote);
      assert g.0.sent[..|st.sent| + 1][|st.sent|] == AdjacenciesReq(sample(st.graph.nodes));
    } else {
      var fp := remoteFp.value;
      var (s1, o1) := FetchIdentityStep(env, st, fp, remote);
      assert s1.sent[|st.sent|] == IdentityReq(fp);
      if o1.Pass? {
        var (s2, o2) := SignAdjacencyStep(env, s1, fp, remote, now);
        assert st.sent <= s1.sent <= s2.sent;
        if o2.Pass? {
          var g := GossipGraphStep(env, s2, sample(s2.graph.nodes), remote);
          assert g.0.sent[..|s2.sent| + 1] == s2.sent + [AdjacenciesReq(sample(s2.graph.nodes))];
          assert s2.sent <= g.0.sent;
          if !(env.me.Some? && env.me.value < fp) {
            assert s2.sent == s1.sent;
            assert g.0.sent[|s1.sent|] == AdjacenciesReq(sample(s2.graph.nodes));
          }
        } else if !(env.me.Some? && env.me.value < fp) {
          assert false;
        }
      }
    }
  }

  /** A round stops at the first error: a failed identity fetch or
      adjacency signature is the round's result, with nothing requested
      after it; with both passed, or with no relay neighbour, the graph
      gossip runs. The graph is queried exactly in those cases. */
  lemma {:induction false} GossipOnceStopsAtFirstError(env: Env, st: GossipState, remoteFp: Option<Fingerprint>,
                                                       remote: Remote, now: nat,
                                                       sample: set<Fingerprint> -> seq<Fingerprint>)
    ensures var r := GossipOnceStep(env, st, remoteFp, remote, now, sample);
      && (remoteFp.None? ==> r == GossipGraphStep(env, st, sample(st.graph.nodes), remote))
      && (remoteFp.Some? ==>
            var f := FetchIdentityStep(env, st, remoteFp.value, remote);
            var s := SignAdjacencyStep(env, f.0, remoteFp.value, remote, now);
            && (f.1.Fail? ==> r == f)
            && (f.1.Pass? && s.1.Fail? ==> r == s)
            && (f.1.Pass? && s.1.Pass? ==> r == GossipGraphStep(env, s.0, sample(s.0.graph.nodes), remote))
            && ((exists k :: |st.sent| <= k < |r.0.sent| && r.0.sent[k].AdjacenciesReq?) <==> f.1.Pass? && s.1.Pass?))
      && (remoteFp.None? ==> exists k :: |st.sent| <= k < |r.0.sent| && r.0.sent[k].AdjacenciesReq?)
  {
    var r := GossipOnceStep(env, st, remoteFp, remote, now, sample);
    if remoteFp.None? {
      assert r.0.sent[..|st.sent| + 1][|st.sent|] == AdjacenciesReq(sample(st.graph.nodes));
    } else {
      var fp := remoteFp.value;
      var f := FetchIdentityStep(env, st, fp, remote);
      var s := SignAdjacencyStep(env, f.0, fp, remote, now);
      if f.1.Fail? {
        assert r.0.sent == st.sent + [IdentityReq(fp)];
      } else if s.1.Fail? {
        assert r.0.sent == st.sent + [IdentityReq(fp), SignAdjacencyReq(Initiated(env, env.me.value, fp, now))];
      } else {
        var k := |s.0.sent|;
        assert r.0.sent[..k + 1][k] == AdjacenciesReq(sample(s.0.graph.nodes));
        assert |st.sent| <= k;
      }
    }
  }

  /** The rule that makes the handshake work: the descriptor a left-side
      relay starts passes the right side's ordering and identity test. */
  lemma InitiatedPassesResponder(env: Env, myFp: Fingerprint, remoteFp: Fingerprint, now: nat)
    requires myFp < remoteFp
    ensures RightSideAccepts(Initiated(env, myFp, remoteFp, now), remoteFp, true)
  {
  }

  /** The gossip side of one link: the node's state and the operations of
      a round. */
  class GossipNode {
    const env: Env
    /** The random sampler of `gossip_graph`. */
    const sample: set<Fingerprint> -> seq<Fingerprint>

    var graph: RelayGraph
    var identityCache: map<Fingerprint, IdentityDescriptor>
    var sent: seq<Request>

    /** The sampler always returns a valid sample. */
    ghost predicate Valid()
      reads this
    {
      forall nodes :: IsSample(nodes, sample(nodes))
    }

    function State(): GossipState
      reads this
    {
      GossipState(graph, identityCache, sent)
    }

    constructor (env: Env, sample: set<Fingerprint> -> seq<Fingerprint>, graph: RelayGraph)
      requires forall nodes :: IsSample(nodes, sample(nodes))
      ensures Valid() && this.env == env && this.sample == sample
      ensures State() == GossipState(graph, map[], [])
    {
      this.env, this.sample := env, sample;
      this.graph, identityCache, sent := graph, map[], [];
    }

    /** The random sample taken at the start of `gossip_graph` has
        `min(10, known)` distinct known nodes. */
    lemma SampleIsValid()
      requires Valid()
      ensures |sample(graph.nodes)| == Min(SAMPLE_SIZE, |graph.nodes|)
      ensures forall i, j :: 0 <= i < j < |sample(graph.nodes)| ==> sample(graph.nodes)[i] != sample(graph.nodes)[j]
      ensures forall i :: 0 <= i < |sample(graph.nodes)| ==> sample(graph.nodes)[i] in graph.nodes
    {
      assert IsSample(graph.nodes, sample(graph.nodes));
    }

    method FetchIdentity(remoteFp: Fingerprint, remote: Remote) returns (r: Outcome<GossipError>)
      requires Valid()
      modifies this`graph, this`sent
      ensures Valid()
      ensures (State(), r) == FetchIdentityStep(env, old(State()), remoteFp, remote)
    {
      sent := sent + [IdentityReq(remoteFp)];
      var reply := remote.identity(remoteFp);
      if reply.RpcError? {
        return Fail(RpcFailed);
      }
      if reply.value.None? {
        return Fail(NoRemoteIdentity);
      }
      var inserted := env.insertIdentity(graph, reply.value.value);
      if inserted.None? {
        return Fail(GraphRejected);
      }
      graph := inserted.value;
      r := Pass;
    }

    method SignAdjacency(remoteFp: Fingerprint, remote: Remote, now: nat) returns (r: Outcome<GossipError>)
      requires Valid()
      modifies this`graph, this`sent
      ensures Valid()
      ensures (State(), r) == SignAdjacencyStep(env, old(State()), remoteFp, remote, now)
    {
      if env.me.None? || !(env.me.value < remoteFp) {
        return Pass;
      }
      var leftIncomplete := AdjacencyDescriptor(env.me.value, remoteFp, [], [], now);
      leftIncomplete := leftIncomplete.(leftSig := env.sign(leftIncomplete));
      sent := sent + [SignAdjacencyReq(leftIncomplete)];
      var reply := remote.signAdjacency(leftIncomplete);
      if reply.RpcError? {
        return Fail(RpcFailed);
      }
      if reply.value.None? {
        return Fail(RemoteRefused);
      }
      var inserted := env.insertAdjacency(graph, reply.value.value);
      if inserted.None? {
        return Fail(GraphRejected);
      }
      graph := inserted.value;
      r := Pass;
    }

    /** The identity lookup of one adjacency end, with the cache. */
    method FetchIfUnknown(fp: Fingerprint, remote: Remote) returns (reply: Reply<Option<IdentityDescriptor>>)
      requires Valid()
      modifies this`identityCache, this`sent
      ensures Valid()
      ensures (State(), reply) == LookupIdentity(env, old(State()), fp, remote)
    {
      if env.me == Some(fp) || fp in identityCache {
        return Answered(None);
      }
      sent := sent + [IdentityReq(fp)];
      reply := remote.identity(fp);
      if reply.Answered? && reply.value.Some? {
        identityCache := identityCache[fp := reply.value.value];
      }
    }

    /** Inserting an identity fetched for an adjacency end, if any. */
    method InsertIdentity(id: Option<IdentityDescriptor>) returns (r: Outcome<GossipError>)
      requires Valid()
      modifies this`graph
      ensures Valid()
      ensures (State(), r) == InsertFetched(env, old(State()), id)
    {
      if id.Some? {
        var inserted := env.insertIdentity(graph, id.value);
        if inserted.None? {
          return Fail(GraphRejected);
        }
        graph := inserted.value;
      }
      r := Pass;
    }

    method GossipGraph(remote: Remote) returns (r: Outcome<GossipError>)
      requires Valid()
      modifies this`graph, this`identityCache, this`sent
      ensures Valid()
      ensures (State(), r) == GossipGraphStep(env, old(State()), sample(old(graph).nodes), remote)
    {
      var chosen := sample(graph.nodes);
      sent := sent + [AdjacenciesReq(chosen)];
      var reply := remote.adjacencies(chosen);
      if reply.RpcError? {
        return Fail(RpcFailed);
      }
      var adjs := reply.value;
      ghost var st1 := State();
      for i := 0 to |adjs|
        invariant GossipAll(env, st1, adjs, remote) == GossipAll(env, State(), adjs[i..], remote)
      {
        ghost var before := State();
        var leftId := FetchIfUnknown(adjs[i].left, remote);
        if leftId.RpcError? {
          return Fail(RpcFailed);
        }
        var rightId := FetchIfUnknown(adjs[i].right, remote);
        if rightId.RpcError? {
          return Fail(RpcFailed);
        }
        var o := InsertIdentity(leftId.value);
        if o.Fail? {
          return o;
        }
        o := InsertIdentity(rightId.value);
        if o.Fail? {
          return o;
        }
        var inserted := env.insertAdjacency(graph, adjs[i]);
        if inserted.None? {
          return Fail(GraphRejected);
        }
        graph := inserted.value;
        assert GossipAdjacency(env, before, adjs[i], remote) == (State(), Pass);
        assert adjs[i..][1..] == adjs[i + 1..];
      }
      r := Pass;
    }

    method GossipOnce(remoteFp: Option<Fingerprint>, remote: Remote, now: nat) returns (r: Outcome<GossipError>)
      requires Valid()
      modifies this`graph, this`identityCache, this`sent
      ensures Valid()
      ensures (State(), r) == GossipOnceStep(env, old(State()), remoteFp, remote, now, sample)
    {
      if remoteFp.Some? {
        r := FetchIdentity(remoteFp.value, remote);
        if r.Fail? {
          return;
        }
        r := SignAdjacency(remoteFp.value, remote, now);
        if r.Fail? {
          return;
        }
      }
      r := GossipGraph(remote);
    }
  }
}
