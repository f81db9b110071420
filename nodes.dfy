/**
 * The parent-linked path nodes of the customized-path traverser and the
 * paths built from them: HugeTraverser.Node (contains, path), its weighted
 * subclass WeightNode (weights) and the results Path / WeightPath
 * (calcTotalWeight, reverse).
 */
module Nodes {
  import opened Base

  /**
   * An in-flight path: the vertex it ends at and the chain back to the
   * source. A child carries the weight of the edge that reached it; an
   * unweighted child (traversal not sorted) carries 0.0, which nothing reads.
   */
  datatype Node = Root(id: VertexId) | Child(id: VertexId, parent: Node, weight: real)

  /** The number of edges between the root and this node. */
  function Depth(n: Node): nat
  {
    match n
    case Root(_) => 0
    case Child(_, p, _) => Depth(p) + 1
  }

  /** Node.path(): the vertex ids from the root to this node. */
  function PathOf(n: Node): (p: seq<VertexId>)
    ensures |p| == Depth(n) + 1
    ensures p[0] == Root0(n) && p[|p| - 1] == n.id
  {
    match n
    case Root(v) => [v]
    case Child(v, parent, _) => PathOf(parent) + [v]
  }

  /** The id at the root of the chain. */
  function Root0(n: Node): VertexId
  {
    match n
    case Root(v) => v
    case Child(_, p, _) => Root0(p)
  }

  /** Node.contains(id): walks the chain, this node included. */
  function Contains(n: Node, v: VertexId): (b: bool)
    ensures b <==> v in PathOf(n)
  {
    match n
    case Root(id) => id == v
    case Child(id, p, _) => id == v || Contains(p, v)
  }

  /** The edge weights from the root to this node; the root has none. */
  function WeightsOf(n: Node): (ws: seq<real>)
    ensures |ws| == Depth(n)
  {
    match n
    case Root(_) => []
    case Child(_, p, w) => WeightsOf(p) + [w]
  }

  function Reversed<T>(s: seq<T>): (r: seq<T>)
    ensures |r| == |s|
  {
    if s == [] then [] else Reversed(s[1..]) + [s[0]]
  }

  lemma {:induction false} ReversedAt<T>(s: seq<T>, k: nat)
    requires k < |s|
    ensures Reversed(s)[k] == s[|s| - 1 - k]
  {
    if k < |s| - 1 {
      ReversedAt(s[1..], k);
    }
  }

  lemma ReversedAll<T>(s: seq<T>)
    ensures forall k :: 0 <= k < |s| ==> Reversed(s)[k] == s[|s| - 1 - k]
  {
    forall k | 0 <= k < |s| ensures Reversed(s)[k] == s[|s| - 1 - k] {
      ReversedAt(s, k);
    }
  }

  lemma ReversedAppend<T>(s: seq<T>, x: T)
    ensures Reversed(s + [x]) == [x] + Reversed(s)
  {
    var r, t := Reversed(s + [x]), [x] + Reversed(s);
    forall k | 0 <= k < |r| ensures r[k] == t[k] {
      ReversedAt(s + [x], k);
      if k > 0 { ReversedAt(s, k - 1); }
    }
  }

  /** Reversing twice gives back the sequence. */
  lemma ReversedTwice<T>(s: seq<T>)
    ensures Reversed(Reversed(s)) == s
  {
    var r := Reversed(Reversed(s));
    forall k | 0 <= k < |s| ensures r[k] == s[k] {
      ReversedAt(Reversed(s), k);
      ReversedAt(s, |s| - 1 - k);
    }
  }

  /**
   * WeightNode.weights(): collects the weights while walking up to the root
   * (whose own weight 0 is not collected), then reverses them.
   */
  method Weights(n: Node) returns (weights: seq<real>)
    ensures weights == WeightsOf(n)
  {
    weights := [];
    var current := n;
    while current.Child?
      invariant WeightsOf(n) == WeightsOf(current) + Reversed(weights)
      decreases current
    {
      ReversedAppend(weights, current.weight);
      weights := weights + [current.weight];
      current := current.parent;
    }
    weights := Reversed(weights);
  }

  /** The sum of a weight sequence, added up from the front as a loop does. */
  function Sum(ws: seq<real>): real
  {
    if ws == [] then 0.0 else Sum(ws[..|ws| - 1]) + ws[|ws| - 1]
  }

  lemma {:induction false} SumConcat(a: seq<real>, b: seq<real>)
    ensures Sum(a + b) == Sum(a) + Sum(b)
    decreases |b|
  {
    if b != [] {
      assert (a + b)[..|a + b| - 1] == a + b[..|b| - 1];
      SumConcat(a, b[..|b| - 1]);
    } else {
      assert a + b == a;
    }
  }

  /** The order of the weights does not change their sum. */
  lemma {:induction false} SumReversed(ws: seq<real>)
    ensures Sum(Reversed(ws)) == Sum(ws)
    decreases |ws|
  {
    if ws != [] {
      SumReversed(ws[1..]);
      SumConcat(Reversed(ws[1..]), [ws[0]]);
      SumConcat([ws[0]], ws[1..]);
      assert [ws[0]] + ws[1..] == ws;
      assert Sum([ws[0]]) == ws[0] by {
        assert [ws[0]][..0] == [];
      }
    }
  }

  /** A finished path: Path carries the vertices, WeightPath also the weights and their sum. */
  datatype Path =
    | Path(vertices: seq<VertexId>)
    | WeightPath(vertices: seq<VertexId>, weights: seq<real>, totalWeight: real)

  /** The WeightPath invariant that the constructor establishes. */
  ghost predicate WellFormed(p: Path)
  {
    p.WeightPath? ==> p.totalWeight == Sum(p.weights)
  }

  /** WeightPath.calcTotalWeight(): adds up the weights in a loop. */
  method CalcTotalWeight(weights: seq<real>) returns (sum: real)
    ensures sum == Sum(weights)
  {
    sum := 0.0;
    for i := 0 to |weights|
      invariant sum == Sum(weights[..i])
    {
      assert weights[..i + 1][..i] == weights[..i];
      sum := sum + weights[i];
    }
    assert weights[..|weights|] == weights;
  }

  /** The WeightPath constructor: keeps vertices and weights, computes the total. */
  method NewWeightPath(vertices: seq<VertexId>, weights: seq<real>) returns (p: Path)
    ensures p.WeightPath? && WellFormed(p)
    ensures p.vertices == vertices && p.weights == weights
  {
    var total := CalcTotalWeight(weights);
    p := WeightPath(vertices, weights, total);
  }

  /**
   * Path.reverse() and its WeightPath override: the vertices are reversed,
   * a weighted path's weights along with them, and the total is kept.
   */
  function Reverse(p: Path): (r: Path)
    ensures r.Path? == p.Path? && |r.vertices| == |p.vertices|
    ensures forall k :: 0 <= k < |p.vertices| ==> r.vertices[k] == p.vertices[|p.vertices| - 1 - k]
    ensures p.WeightPath? ==> |r.weights| == |p.weights| && r.totalWeight == p.totalWeight
    ensures p.WeightPath? ==> forall k :: 0 <= k < |p.weights| ==> r.weights[k] == p.weights[|p.weights| - 1 - k]
  {
    ReversedAll(p.vertices);
    if p.WeightPath? then
      ReversedAll(p.weights);
      WeightPath(Reversed(p.vertices), Reversed(p.weights), p.totalWeight)
    else
      Path(Reversed(p.vertices))
  }

  /** Reversing keeps a weighted path's total equal to the sum of its weights. */
  lemma ReversePreservesWellFormed(p: Path)
    requires WellFormed(p)
    ensures WellFormed(Reverse(p))
  {
    if p.WeightPath? {
      SumReversed(p.weights);
    }
  }

  /** Reversing a path twice gives it back. */
  lemma ReverseTwice(p: Path)
    ensures Reverse(Reverse(p)) == p
  {
    ReversedTwice(p.vertices);
    if p.WeightPath? {
      ReversedTwice(p.weights);
    }
  }

}
