/**
 * The traverser's frontier: a MultivaluedMap from a vertex id to the list of
 * in-flight nodes that end at that vertex.
 */
module Multivalued {
  import opened Base
  import opened Nodes

  type Frontier = map<VertexId, seq<Node>>

  /** Every node is filed under its own vertex id. */
  ghost predicate Keyed(f: Frontier)
  {
    forall k, n :: k in f && n in f[k] ==> n.id == k
  }

  /** The node is in the list filed under its vertex id. */
  ghost predicate InFrontier(f: Frontier, n: Node)
  {
    n.id in f && n in f[n.id]
  }

  /** MultivaluedMap.add(key, value): appends to the key's list, creating it if absent. */
  function Add(f: Frontier, k: VertexId, n: Node): (g: Frontier)
    ensures g.Keys == f.Keys + {k}
  {
    f[k := (if k in f then f[k] else []) + [n]]
  }

  /** Adding a node files it and keeps everything that was there. */
  lemma AddFiles(f: Frontier, n: Node)
    requires Keyed(f)
    ensures Keyed(Add(f, n.id, n)) && InFrontier(Add(f, n.id, n), n)
    ensures forall m :: InFrontier(Add(f, n.id, n), m) <==> InFrontier(f, m) || m == n
  {
  }

  /** A weight per frontier entry, summed over the keys in ks. */
  ghost function SumOver(f: Frontier, ks: set<VertexId>, w: (VertexId, seq<Node>) -> nat): nat
    requires ks <= f.Keys
    decreases ks
  {
    if ks == {} then 0 else PickFrom(ks); var k :| k in ks; w(k, f[k]) + SumOver(f, ks - {k}, w)
  }

  /** The weight that counts the nodes of an entry. */
  function Length(k: VertexId, nodes: seq<Node>): nat
  {
    |nodes|
  }

  /** The number of nodes in the frontier, counted over all its lists. */
  ghost function Size(f: Frontier): nat
  {
    SumOver(f, f.Keys, Length)
  }

  /** Summing does not depend on which key is taken first. */
  lemma {:induction false} SumOverRemove(f: Frontier, ks: set<VertexId>, k: VertexId, w: (VertexId, seq<Node>) -> nat)
    requires ks <= f.Keys && k in ks
    ensures SumOver(f, ks, w) == w(k, f[k]) + SumOver(f, ks - {k}, w)
    decreases ks
  {
    var j :| j in ks && SumOver(f, ks, w) == w(j, f[j]) + SumOver(f, ks - {j}, w);
    if j != k {
      SumOverRemove(f, ks - {j}, k, w);
      SumOverRemove(f, ks - {k}, j, w);
      assert ks - {j} - {k} == ks - {k} - {j};
    }
  }
  /** Visiting one more key k of those left adds k's weight to the sum over the keys visited. */
  lemma SumOverStep(f: Frontier, left: set<VertexId>, k: VertexId, w: (VertexId, seq<Node>) -> nat)
    requires left <= f.Keys && k in left
    ensures SumOver(f, f.Keys - (left - {k}), w) == SumOver(f, f.Keys - left, w) + w(k, f[k])
  {
    SumOverRemove(f, f.Keys - (left - {k}), k, w);
    assert f.Keys - (left - {k}) - {k} == f.Keys - left;
  }


  /** Two frontiers whose entries weigh the same on ks sum the same. */
  lemma {:induction false} SumOverSame(f: Frontier, g: Frontier, ks: set<VertexId>, w: (VertexId, seq<Node>) -> nat)
    requires ks <= f.Keys && ks <= g.Keys
    requires forall k :: k in ks ==> w(k, f[k]) == w(k, g[k])
    ensures SumOver(f, ks, w) == SumOver(g, ks, w)
    decreases ks
  {
    if ks != {} {
      PickFrom(ks);
      var k :| k in ks;
      SumOverRemove(f, ks, k, w);
      SumOverRemove(g, ks, k, w);
      SumOverSame(f, g, ks - {k}, w);
    }
  }

  /** Adding a node to key k changes the sum by what k's entry weighs now instead of before. */
  lemma SumAdd(f: Frontier, k: VertexId, n: Node, w: (VertexId, seq<Node>) -> nat)
    ensures SumOver(Add(f, k, n), Add(f, k, n).Keys, w) + (if k in f then w(k, f[k]) else 0)
         == SumOver(f, f.Keys, w) + w(k, Add(f, k, n)[k])
  {
    var g := Add(f, k, n);
    SumOverRemove(g, g.Keys, k, w);
    assert g.Keys - {k} == f.Keys - {k};
    SumOverSame(f, g, f.Keys - {k}, w);
    if k in f {
      SumOverRemove(f, f.Keys, k, w);
    } else {
      assert f.Keys - {k} == f.Keys;
    }
  }

  /** Adding one node grows the frontier's size by one. */
  lemma SizeAdd(f: Frontier, k: VertexId, n: Node)
    ensures Size(Add(f, k, n)) == Size(f) + 1
  {
    SumAdd(f, k, n, Length);
  }
}
