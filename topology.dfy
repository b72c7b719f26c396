/** The part of the relay graph (earendil_topology) that the core reads and
    writes: identity and adjacency descriptors, the graph's lookups, the
    flattening and de-duplication of adjacency queries, and the rule by which
    the right-hand relay of an adjacency agrees to countersign it. */
module Topology {
  import opened Wrappers
  import opened Types

  /** A relay's or client's published identity. */
  datatype IdentityDescriptor = IdentityDescriptor(fingerprint: Fingerprint, isRelay: bool, body: Bytes)

  /** A link between two relays, `left < right`, signed by both ends. */
  datatype AdjacencyDescriptor = AdjacencyDescriptor(
    left: Fingerprint, right: Fingerprint, leftSig: Bytes, rightSig: Bytes, unixTimestamp: nat)

  /** The graph as seen through its queries: identities by fingerprint,
      the adjacencies reported for each fingerprint (in the graph's order),
      and the set of all known nodes. */
  datatype RelayGraph = RelayGraph(
    identities: map<Fingerprint, IdentityDescriptor>,
    adjacencies: map<Fingerprint, seq<AdjacencyDescriptor>>,
    nodes: set<Fingerprint>)

  /** `insert_identity` / `insert_adjacency`: they validate what they are
      given and either reject it (`None`) or return the updated graph. */
  type IdentityInserter = (RelayGraph, IdentityDescriptor) -> Option<RelayGraph>
  type AdjacencyInserter = (RelayGraph, AdjacencyDescriptor) -> Option<RelayGraph>

  /** `identity(fp)` */
  function IdentityOf(g: RelayGraph, fp: Fingerprint): (r: Option<IdentityDescriptor>)
    ensures r.Some? <==> fp in g.identities
    ensures r.Some? ==> r.value == g.identities[fp]
  {
    if fp in g.identities then Some(g.identities[fp]) else None
  }

  /** `adjacencies(fp).into_iter().flatten()`: an unknown fingerprint has no
      adjacencies. */
  function AdjacenciesOf(g: RelayGraph, fp: Fingerprint): seq<AdjacencyDescriptor>
  {
    if fp in g.adjacencies then g.adjacencies[fp] else []
  }

  /** The adjacencies of each requested fingerprint, concatenated in request
      order (the `flat_map`). */
  function Flatten(g: RelayGraph, fps: seq<Fingerprint>): seq<AdjacencyDescriptor>
  {
    if fps == [] then [] else AdjacenciesOf(g, fps[0]) + Flatten(g, fps[1..])
  }

  /** An adjacency is in the flattened answer exactly when it is an
      adjacency of one of the requested fingerprints. */
  lemma {:induction false} FlattenMembers(g: RelayGraph, fps: seq<Fingerprint>, a: AdjacencyDescriptor)
    ensures a in Flatten(g, fps) <==> exists i :: 0 <= i < |fps| && a in AdjacenciesOf(g, fps[i])
  {
    if fps != [] {
      FlattenMembers(g, fps[1..], a);
      if a in Flatten(g, fps[1..]) {
        var i :| 0 <= i < |fps[1..]| && a in AdjacenciesOf(g, fps[1..][i]);
        assert a in AdjacenciesOf(g, fps[i + 1]);
      }
      if exists i :: 0 <= i < |fps| && a in AdjacenciesOf(g, fps[i]) {
        var i :| 0 <= i < |fps| && a in AdjacenciesOf(g, fps[i]);
        if i > 0 {
          assert a in AdjacenciesOf(g, fps[1..][i - 1]);
        }
      }
    }
  }

  predicate NoConsecutiveDuplicates<T(==)>(s: seq<T>)
  {
    forall i :: 0 < i < |s| ==> s[i - 1] != s[i]
  }

  /** itertools' `dedup`: each run of equal consecutive elements collapses
      to one element. */
  function Dedup<T(==,!new)>(s: seq<T>): (r: seq<T>)
    ensures |r| <= |s|
    ensures s != [] ==> r != [] && r[0] == s[0]
    ensures NoConsecutiveDuplicates(r)
    ensures forall x :: x in r <==> x in s
  {
    if |s| <= 1 then s
    else if s[0] == s[1] then Dedup(s[1..])
    else [s[0]] + Dedup(s[1..])
  }

  /** itertools' own loop: remember the last element emitted and emit the
      next element only when it differs from it. */
  function DedupFold<T(==)>(acc: seq<T>, s: seq<T>): seq<T>
    decreases |s|
  {
    if s == [] then acc
    else if acc != [] && acc[|acc| - 1] == s[0] then DedupFold(acc, s[1..])
    else DedupFold(acc + [s[0]], s[1..])
  }

  /** `Dedup` is itertools' `dedup`: it agrees with the emitting loop on
      every sequence. */
  lemma DedupIsItertoolsDedup<T(!new)>(s: seq<T>)
    ensures Dedup(s) == DedupFold([], s)
  {
    if s != [] {
      assert [] + [s[0]] == [s[0]];
      assert DedupFold([], s) == DedupFold([s[0]], s[1..]);
      DedupFoldFrom([s[0]], s[1..]);
      assert [s[0]] + s[1..] == s;
      assert [s[0]] + Dedup(s)[1..] == Dedup(s);
    }
  }

  /** The loop continued from a non-empty output `acc` appends what
      `Dedup` keeps of `s` after the last element emitted. */
  lemma {:induction false} DedupFoldFrom<T(!new)>(acc: seq<T>, s: seq<T>)
    requires acc != []
    ensures DedupFold(acc, s) == acc + Dedup([acc[|acc| - 1]] + s)[1..]
    decreases |s|
  {
    var x := acc[|acc| - 1];
    if s == [] {
      assert [x] + s == [x];
      assert acc + [] == acc;
    } else if x == s[0] {
      DedupFoldFrom(acc, s[1..]);
      assert ([x] + s)[1..] == s && s == [x] + s[1..];
    } else {
      var acc' := acc + [s[0]];
      assert acc'[|acc'| - 1] == s[0];
      DedupFoldFrom(acc', s[1..]);
      assert [s[0]] + s[1..] == s;
      assert ([x] + s)[1..] == s;
      assert Dedup([x] + s) == [x] + Dedup(s);
      assert acc' + Dedup(s)[1..] == acc + ([s[0]] + Dedup(s)[1..]);
      assert [s[0]] + Dedup(s)[1..] == Dedup(s);
    }
  }

  /** `sub` is `s` with some elements left out, the rest kept in order. */
  predicate IsSubsequence<T(==)>(sub: seq<T>, s: seq<T>)
    decreases |s|
  {
    if sub == [] then true
    else if s == [] then false
    else if sub[0] == s[0] then IsSubsequence(sub[1..], s[1..])
    else IsSubsequence(sub, s[1..])
  }

  /** De-duplication keeps the order of what it keeps. */
  lemma {:induction false} DedupIsSubsequence<T(!new)>(s: seq<T>)
    ensures IsSubsequence(Dedup(s), s)
    decreases |s|
  {
    if |s| > 1 {
      DedupIsSubsequence(s[1..]);
      if s[0] == s[1] {
        SubsequenceOfTail(Dedup(s[1..]), s);
      } else {
        assert ([s[0]] + Dedup(s[1..]))[1..] == Dedup(s[1..]);
      }
    } else if |s| == 1 {
      assert s[1..] == [];
    }
  }

  /** Skipping the head of `s` keeps a subsequence a subsequence. */
  lemma {:induction false} SubsequenceOfTail<T>(sub: seq<T>, s: seq<T>)
    requires s != [] && IsSubsequence(sub, s[1..])
    ensures IsSubsequence(sub, s)
    decreases |s|, 0
  {
    if sub != [] && sub[0] == s[0] {
      SubsequenceDropHead(sub, s[1..]);
    }
  }

  /** Dropping the head of a subsequence keeps it a subsequence. */
  lemma {:induction false} SubsequenceDropHead<T>(sub: seq<T>, t: seq<T>)
    requires sub != [] && IsSubsequence(sub, t)
    ensures IsSubsequence(sub[1..], t)
    decreases |t|, 1
  {
    if sub[0] == t[0] {
      SubsequenceOfTail(sub[1..], t);
    } else {
      SubsequenceDropHead(sub, t[1..]);
      SubsequenceOfTail(sub[1..], t);
    }
  }

  /** A sequence already free of consecutive duplicates is left as it is,
      so de-duplicating twice changes nothing. */
  lemma {:induction false} DedupKeepsDuplicateFree<T(!new)>(s: seq<T>)
    requires NoConsecutiveDuplicates(s)
    ensures Dedup(s) == s
    decreases |s|
  {
    if |s| > 1 {
      assert s[0] != s[1];
      DedupKeepsDuplicateFree(s[1..]);
      assert s == [s[0]] + s[1..];
    }
  }

  /** The responder's test before countersigning `adj`: the initiator must
      be left of us, we must be the right side, and the left side must be a
      neighbour of ours. */
  predicate RightSideAccepts(adj: AdjacencyDescriptor, myFp: Fingerprint, leftIsNeighbour: bool)
  {
    adj.left < adj.right && adj.right == myFp && leftIsNeighbour
  }
}
