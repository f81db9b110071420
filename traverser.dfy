/**
 * CustomizePathTraverser.customizedPaths: a breadth-first walk that follows
 * one step (direction, labels, properties, degree, sample) per level from the
 * source vertices, drops targets already on the path, and returns every
 * simple walk of exactly |steps| edges, weighted when the result is sorted.
 */
module Traverser {
  import opened Base
  import opened Nodes
  import opened Multivalued
  import Sampling

  /** CustomizePathTraverser.Step: what one level of the walk follows. */
  datatype Step = Step(
    direction: Direction,
    labels: map<LabelId, string>,
    properties: map<string, string>,
    weightBy: Option<string>,
    defaultWeight: real,
    degree: int,
    sample: int)

  /** An edge as the traverser sees it: the other endpoint and the value of its weightBy property. */
  datatype Edge = Edge(target: VertexId, weight: real)

  /**
   * edgesOfVertex(vertex, direction, labels, properties, degree): the edges
   * the storage layer yields for one vertex and one step, in its order.
   */
  type EdgeOracle = (VertexId, Step) -> seq<Edge>

  /** The weight a sorted walk gives an edge: its weightBy property, or the step's default. */
  function EdgeWeight(step: Step, e: Edge): real
  {
    if step.weightBy.Some? then e.weight else step.defaultWeight
  }

  /** The weight a new node carries; unweighted nodes carry 0.0. */
  function NodeWeight(step: Step, e: Edge, sorted: bool): real
  {
    if sorted then EdgeWeight(step, e) else 0.0
  }

  /** The fixed inputs of one customizedPaths call. */
  datatype Query = Query(g: EdgeOracle, sources: seq<VertexId>, steps: seq<Step>, sorted: bool)

  /** Step i has an edge from u to v whose node weight is w. */
  ghost predicate Hop(q: Query, i: int, u: VertexId, v: VertexId, w: real)
    requires 0 <= i < |q.steps|
  {
    exists e :: e in q.g(u, q.steps[i]) && e.target == v && w == NodeWeight(q.steps[i], e, q.sorted)
  }

  /** The node is built by k levels of the walk from a source vertex. */
  ghost predicate Reached(q: Query, n: Node, k: int)
    decreases n
  {
    match n
    case Root(v) => k == 0 && v in q.sources
    case Child(v, p, w) =>
      0 < k <= |q.steps| && Reached(q, p, k - 1) && !Contains(p, v) && Hop(q, k - 1, p.id, v, w)
  }

  /**
   * The reference definition: vs is a simple walk from a source vertex that
   * takes its i-th edge from step i, and ws holds the node weights.
   */
  ghost predicate Walk(q: Query, vs: seq<VertexId>, ws: seq<real>)
  {
    |vs| == |ws| + 1 && |ws| <= |q.steps| && vs[0] in q.sources && NoRepeat(vs)
    && forall i :: 0 <= i < |ws| ==> Hop(q, i, vs[i], vs[i + 1], ws[i])
  }

  function Zeros(n: nat): (z: seq<real>)
    ensures |z| == n && forall i :: 0 <= i < n ==> z[i] == 0.0
  {
    seq(n, _ => 0.0)
  }

  /**
   * A path customizedPaths may return: a WeightPath whose total is the sum of
   * its weights when sorted, a plain Path otherwise, along a walk of every step.
   */
  ghost predicate ValidPath(q: Query, p: Path)
  {
    if q.sorted then
      p.WeightPath? && p.totalWeight == Sum(p.weights) && |p.weights| == |q.steps| && Walk(q, p.vertices, p.weights)
    else
      p.Path? && Walk(q, p.vertices, Zeros(|q.steps|))
  }

  /** The result path built from a node of the last level. */
  ghost function ToPath(n: Node, sorted: bool): Path
  {
    if sorted then WeightPath(PathOf(n), WeightsOf(n), Sum(WeightsOf(n))) else Path(PathOf(n))
  }

  /** A reached node spells a walk of as many edges as levels. */
  lemma {:induction false} ReachedIsWalk(q: Query, n: Node, k: int)
    requires Reached(q, n, k)
    ensures Depth(n) == k && Walk(q, PathOf(n), WeightsOf(n))
    decreases n
  {
    match n
    case Root(v) =>
    case Child(v, p, w) =>
      ReachedIsWalk(q, p, k - 1);
      var vs, ws := PathOf(n), WeightsOf(n);
      assert vs == PathOf(p) + [v] && ws == WeightsOf(p) + [w];
      forall i | 0 <= i < |ws| ensures Hop(q, i, vs[i], vs[i + 1], ws[i]) {
        if i < |ws| - 1 {
          assert vs[i] == PathOf(p)[i] && vs[i + 1] == PathOf(p)[i + 1] && ws[i] == WeightsOf(p)[i];
        }
      }
  }

  /** The node that a walk describes, built from the root outwards. */
  ghost function NodeFrom(vs: seq<VertexId>, ws: seq<real>): Node
    requires |vs| == |ws| + 1
    decreases |ws|
  {
    if ws == [] then Root(vs[0])
    else Child(vs[|vs| - 1], NodeFrom(vs[..|vs| - 1], ws[..|ws| - 1]), ws[|ws| - 1])
  }

  /** Dropping the last edge of a walk leaves a walk. */
  lemma WalkPrefix(q: Query, vs: seq<VertexId>, ws: seq<real>)
    requires Walk(q, vs, ws) && ws != []
    ensures Walk(q, vs[..|ws|], ws[..|ws| - 1])
  {
    var k := |ws|;
    var vs', ws' := vs[..k], ws[..k - 1];
    forall i | 0 <= i < |ws'| ensures Hop(q, i, vs'[i], vs'[i + 1], ws'[i]) {
      assert Hop(q, i, vs[i], vs[i + 1], ws[i]);
    }
  }

  /** The last vertex of a walk is not among the ones before it. */
  lemma LastIsNew(vs: seq<VertexId>)
    requires NoRepeat(vs) && vs != []
    ensures vs[|vs| - 1] !in vs[..|vs| - 1]
  {
    var before := vs[..|vs| - 1];
    forall i | 0 <= i < |before| ensures before[i] != vs[|vs| - 1] {
      assert before[i] == vs[i];
    }
  }

  /** The node of a walk one edge longer is the child of the shorter walk's node. */
  lemma NodeFromStep(vs: seq<VertexId>, ws: seq<real>)
    requires |vs| == |ws| + 1 && ws != []
    ensures NodeFrom(vs, ws) == Child(vs[|ws|], NodeFrom(vs[..|ws|], ws[..|ws| - 1]), ws[|ws| - 1])
  {
  }

  /** A node reached at level k - 1 grows by one hop of step k - 1 to a vertex not on its path. */
  lemma ChildReached(q: Query, parent: Node, v: VertexId, w: real, k: int)
    requires 0 < k <= |q.steps| && Reached(q, parent, k - 1)
    requires v !in PathOf(parent) && Hop(q, k - 1, parent.id, v, w)
    ensures Reached(q, Child(v, parent, w), k)
  {
  }

  /** A walk's node grows from the node of the walk without its last edge. */
  lemma WalkStep(q: Query, vs: seq<VertexId>, ws: seq<real>, parent: Node)
    requires Walk(q, vs, ws) && ws != []
    requires Reached(q, parent, |ws| - 1)
    requires PathOf(parent) == vs[..|ws|] && WeightsOf(parent) == ws[..|ws| - 1]
    ensures Reached(q, Child(vs[|ws|], parent, ws[|ws| - 1]), |ws|)
    ensures PathOf(Child(vs[|ws|], parent, ws[|ws| - 1])) == vs
    ensures WeightsOf(Child(vs[|ws|], parent, ws[|ws| - 1])) == ws
  {
    var k := |ws|;
    LastIsNew(vs);
    assert parent.id == vs[k - 1] by {
      assert PathOf(parent)[k - 1] == parent.id;
    }
    ChildReached(q, parent, vs[k], ws[k - 1], k);
    assert vs == vs[..k] + [vs[k]];
    assert ws == ws[..k - 1] + [ws[k - 1]];
  }

  /** Every walk is reached, as the node that spells it. */
  lemma {:induction false} WalkIsReached(q: Query, vs: seq<VertexId>, ws: seq<real>)
    requires Walk(q, vs, ws)
    ensures Reached(q, NodeFrom(vs, ws), |ws|)
    ensures PathOf(NodeFrom(vs, ws)) == vs && WeightsOf(NodeFrom(vs, ws)) == ws
    decreases |ws|
  {
    if ws != [] {
      var k := |ws|;
      WalkPrefix(q, vs, ws);
      WalkIsReached(q, vs[..k], ws[..k - 1]);
      NodeFromStep(vs, ws);
      WalkStep(q, vs, ws, NodeFrom(vs[..k], ws[..k - 1]));
    }
  }

  /** Unsorted walks carry only zero weights. */
  lemma UnsortedWeightsAreZero(q: Query, vs: seq<VertexId>, ws: seq<real>)
    requires !q.sorted && Walk(q, vs, ws)
    ensures ws == Zeros(|ws|)
  {
    forall i | 0 <= i < |ws| ensures ws[i] == 0.0 {
      assert Hop(q, i, vs[i], vs[i + 1], ws[i]);
    }
  }

  /** Soundness: the path of a node at the last level is a valid result path. */
  lemma LastLevelIsValid(q: Query, n: Node)
    requires Reached(q, n, |q.steps|)
    ensures ValidPath(q, ToPath(n, q.sorted))
  {
    ReachedIsWalk(q, n, |q.steps|);
    if !q.sorted {
      UnsortedWeightsAreZero(q, PathOf(n), WeightsOf(n));
    }
  }

  /** Completeness: every valid result path comes from a node at the last level. */
  lemma ValidIsLastLevel(q: Query, p: Path)
    requires ValidPath(q, p)
    ensures exists n :: Reached(q, n, |q.steps|) && ToPath(n, q.sorted) == p
  {
    var ws := if q.sorted then p.weights else Zeros(|q.steps|);
    WalkIsReached(q, p.vertices, ws);
    var n := NodeFrom(p.vertices, ws);
    assert ToPath(n, q.sorted) == p;
  }

  /** A node that one vertex's expansion in a step may produce. */
  ghost predicate Extends(g: EdgeOracle, step: Step, sorted: bool, v: VertexId, nodes: seq<Node>, c: Node)
  {
    c.Child? && c.parent in nodes && !Contains(c.parent, c.id)
    && exists e :: e in g(v, step) && e.target == c.id && c.weight == NodeWeight(step, e, sorted)
  }

  /** The nodes of ns whose path does not hold t: those that edge target t extends. */
  ghost function Open(t: VertexId, ns: seq<Node>): nat
    decreases |ns|
  {
    if ns == [] then 0
    else Open(t, ns[..|ns| - 1]) + (if Contains(ns[|ns| - 1], t) then 0 else 1)
  }

  /**
   * The new nodes one expansion creates, each of which counts against
   * capacity: the pairs of an edge and a node whose path the edge's target
   * is not on.
   */
  ghost function Candidates(edges: seq<Edge>, ns: seq<Node>): nat
    decreases |edges|
  {
    if edges == [] then 0
    else Candidates(edges[..|edges| - 1], ns) + Open(edges[|edges| - 1].target, ns)
  }

  /** The edges whose target is not on n's path. */
  ghost function Fresh(edges: seq<Edge>, n: Node): nat
    decreases |edges|
  {
    if edges == [] then 0
    else Fresh(edges[..|edges| - 1], n) + (if Contains(n, edges[|edges| - 1].target) then 0 else 1)
  }

  /** What a frontier entry weighs in the capacity count of step. */
  ghost function CandidateWeight(g: EdgeOracle, step: Step): (VertexId, seq<Node>) -> nat
  {
    (k: VertexId, ns: seq<Node>) => Candidates(g(k, step), ns)
  }

  /**
   * The capacity the first level consumes: for each source vertex in turn,
   * its edges of step that do not lead back to it.
   */
  ghost function FirstLevel(g: EdgeOracle, sources: seq<VertexId>, step: Step): nat
    decreases |sources|
  {
    if sources == [] then 0
    else
      var v := sources[|sources| - 1];
      FirstLevel(g, sources[..|sources| - 1], step) + Fresh(g(v, step), Root(v))
  }

  /** One more node in an entry adds the edges it can take. */
  lemma {:induction false} CandidatesAppend(edges: seq<Edge>, ns: seq<Node>, n: Node)
    ensures Candidates(edges, ns + [n]) == Candidates(edges, ns) + Fresh(edges, n)
    decreases |edges|
  {
    if edges != [] {
      CandidatesAppend(edges[..|edges| - 1], ns, n);
      assert (ns + [n])[..|ns|] == ns;
    }
  }

  /** No node, no candidate. */
  lemma {:induction false} CandidatesNone(edges: seq<Edge>)
    ensures Candidates(edges, []) == 0
    decreases |edges|
  {
    if edges != [] {
      CandidatesNone(edges[..|edges| - 1]);
    }
  }

  /**
   * The loop over the nodes ending at v for one of its edges: a new node for
   * each node whose path does not hold the edge's target, each counted
   * against capacity; reaching it stops the loop (hit).
   */
  method CrossEdge(step: Step, sorted: bool, nodes: seq<Node>, edge: Edge, capacity: int, count0: int)
    returns (added: seq<Node>, count: int, hit: bool)
    ensures forall c :: c in added ==>
      c.Child? && c.parent in nodes && !Contains(c.parent, c.id)
      && c.id == edge.target && c.weight == NodeWeight(step, edge, sorted)
    ensures !hit ==> forall n :: n in nodes && !Contains(n, edge.target) ==>
      Child(edge.target, n, NodeWeight(step, edge, sorted)) in added
    ensures !hit ==> |added| == Open(edge.target, nodes)
    ensures capacity == NO_LIMIT ==> !hit && count == count0
    ensures capacity != NO_LIMIT ==> count == count0 + |added|
    ensures hit ==> capacity != NO_LIMIT && count >= capacity
    ensures !hit && capacity != NO_LIMIT ==> count == count0 || count < capacity
  {
    added, count, hit := [], count0, false;
    var target := edge.target;
    for j := 0 to |nodes|
      invariant forall c :: c in added ==>
        c.Child? && c.parent in nodes && !Contains(c.parent, c.id)
        && c.id == target && c.weight == NodeWeight(step, edge, sorted)
      invariant forall k :: 0 <= k < j && !Contains(nodes[k], target) ==>
        Child(target, nodes[k], NodeWeight(step, edge, sorted)) in added
      invariant |added| == Open(target, nodes[..j])
      invariant capacity == NO_LIMIT ==> count == count0
      invariant capacity != NO_LIMIT ==> count == count0 + |added|
      invariant capacity != NO_LIMIT ==> count == count0 || count < capacity
    {
      assert nodes[..j + 1][..j] == nodes[..j];
      var n := nodes[j];
      if !Contains(n, target) {
        var newNode: Node;
        if sorted {
          var w := if step.weightBy.Some? then edge.weight else step.defaultWeight;
          newNode := Child(target, n, w);
        } else {
          newNode := Child(target, n, 0.0);
        }
        added := added + [newNode];
        if capacity != NO_LIMIT {
          count := count + 1;
          if count >= capacity {
            hit := true;
            return;
          }
        }
      }
    }
    assert nodes[..|nodes|] == nodes;
  }

  /**
   * The body of the loop over one frontier entry: every edge of v, crossed
   * with every node ending at v, except targets already on that node's path.
   * Each new node counts against capacity; reaching it stops the expansion
   * (hit) and customizedPaths then breaks out of all its loops.
   */
  method ExpandVertex(g: EdgeOracle, step: Step, sorted: bool, v: VertexId, nodes: seq<Node>,
                      capacity: int, accessCount: int)
    returns (adjacency: seq<Node>, count: int, hit: bool)
    ensures forall c :: c in adjacency ==> Extends(g, step, sorted, v, nodes, c)
    ensures !hit ==> forall n, e :: n in nodes && e in g(v, step) && !Contains(n, e.target) ==>
      Child(e.target, n, NodeWeight(step, e, sorted)) in adjacency
    ensures capacity == NO_LIMIT ==> !hit && count == accessCount
    ensures capacity != NO_LIMIT ==> count == accessCount + |adjacency|
    ensures hit ==> capacity != NO_LIMIT && count >= capacity
    ensures !hit && capacity != NO_LIMIT ==> count == accessCount || count < capacity
    ensures !hit ==> |adjacency| == Candidates(g(v, step), nodes)
  {
    adjacency, count, hit := [], accessCount, false;
    var edges := g(v, step);
    for i := 0 to |edges|
      invariant forall c :: c in adjacency ==> Extends(g, step, sorted, v, nodes, c)
      invariant forall n, k :: n in nodes && 0 <= k < i && !Contains(n, edges[k].target) ==>
        Child(edges[k].target, n, NodeWeight(step, edges[k], sorted)) in adjacency
      invariant capacity == NO_LIMIT ==> count == accessCount
      invariant capacity != NO_LIMIT ==> count == accessCount + |adjacency|
      invariant capacity != NO_LIMIT ==> count == accessCount || count < capacity
      invariant |adjacency| == Candidates(edges[..i], nodes)
    {
      var edge := edges[i];
      var added, c, h := CrossEdge(step, sorted, nodes, edge, capacity, count);
      forall a | a in added ensures Extends(g, step, sorted, v, nodes, a) {
        assert edge in g(v, step);
      }
      adjacency, count := adjacency + added, c;
      if h {
        hit := true;
        return;
      }
      assert edges[..i + 1][..i] == edges[..i];
    }
    assert edges[..|edges|] == edges;
  }

  /**
   * The loop that files one vertex's new nodes into the next frontier. On the
   * last step of an unsorted walk with a limit, each node counts as a path
   * and reaching the limit stops the insertion (hit).
   */
  method InsertAdjacency(newVertices: Frontier, adjacency: seq<Node>, lastStep: bool, sorted: bool,
                         limit: int, pathCount: int)
    returns (nv: Frontier, count: int, hit: bool)
    requires Keyed(newVertices)
    requires lastStep && limit != NO_LIMIT && !sorted ==> pathCount < Max(limit, 1)
    ensures Keyed(nv)
    ensures forall n :: InFrontier(nv, n) ==> InFrontier(newVertices, n) || n in adjacency
    ensures forall n :: InFrontier(newVertices, n) ==> InFrontier(nv, n)
    ensures !hit ==> forall n :: n in adjacency ==> InFrontier(nv, n)
    ensures Size(newVertices) <= Size(nv) <= Size(newVertices) + |adjacency|
    ensures !hit ==> Size(nv) == Size(newVertices) + |adjacency|
    ensures !(lastStep && limit != NO_LIMIT && !sorted) ==> !hit && count == pathCount
    ensures lastStep && limit != NO_LIMIT && !sorted ==>
      count - pathCount == Size(nv) - Size(newVertices) && count <= Max(limit, 1)
      && (hit ==> count >= limit) && (!hit ==> count < Max(limit, 1))
  {
    nv, count, hit := newVertices, pathCount, false;
    var counting := lastStep && limit != NO_LIMIT && !sorted;
    for i := 0 to |adjacency|
      invariant Keyed(nv)
      invariant forall n :: InFrontier(nv, n) ==> InFrontier(newVertices, n) || n in adjacency[..i]
      invariant forall n :: InFrontier(newVertices, n) ==> InFrontier(nv, n)
      invariant forall n :: n in adjacency[..i] ==> InFrontier(nv, n)
      invariant Size(nv) == Size(newVertices) + i
      invariant !counting ==> count == pathCount
      invariant counting ==> count - pathCount == i && count < Max(limit, 1)
    {
      var node := adjacency[i];
      AddFiles(nv, node);
      SizeAdd(nv, node.id, node);
      nv := Add(nv, node.id, node);
      assert adjacency[..i + 1] == adjacency[..i] + [node];
      if lastStep {
        if limit != NO_LIMIT && !sorted {
          count := count + 1;
          if count >= limit {
            hit := true;
            return;
          }
        }
      }
    }
    assert adjacency[..|adjacency|] == adjacency;
  }

  /** The paths of one frontier entry's nodes, in the entry's order. */
  method NodePaths(nodes: seq<Node>, sorted: bool) returns (paths: seq<Path>)
    ensures |paths| == |nodes|
    ensures forall j :: 0 <= j < |nodes| ==> paths[j] == ToPath(nodes[j], sorted)
  {
    paths := [];
    for i := 0 to |nodes|
      invariant |paths| == i
      invariant forall j :: 0 <= j < i ==> paths[j] == ToPath(nodes[j], sorted)
    {
      var n := nodes[i];
      var p: Path;
      if sorted {
        var ws := Weights(n);
        p := NewWeightPath(PathOf(n), ws);
      } else {
        p := Path(PathOf(n));
      }
      paths := paths + [p];
    }
  }

  /** The output loop: one result path per node of the last frontier. */
  method ToPaths(f: Frontier, sorted: bool) returns (paths: seq<Path>)
    requires Keyed(f)
    ensures |paths| == Size(f)
    ensures forall p :: p in paths ==> exists n :: InFrontier(f, n) && p == ToPath(n, sorted)
    ensures forall n :: InFrontier(f, n) ==> ToPath(n, sorted) in paths
  {
    paths := [];
    var keys := f.Keys;
    while keys != {}
      invariant keys <= f.Keys
      invariant |paths| == SumOver(f, f.Keys - keys, Length)
      invariant forall p :: p in paths ==> exists n :: InFrontier(f, n) && p == ToPath(n, sorted)
      invariant forall n :: InFrontier(f, n) && n.id !in keys ==> ToPath(n, sorted) in paths
      decreases keys
    {
      PickFrom(keys);
      var k :| k in keys;
      var ps := NodePaths(f[k], sorted);
      forall p | p in ps ensures exists n :: InFrontier(f, n) && p == ToPath(n, sorted) {
        var j :| 0 <= j < |ps| && ps[j] == p;
        assert InFrontier(f, f[k][j]);
      }
      forall n | InFrontier(f, n) && n.id == k ensures ToPath(n, sorted) in ps {
        var j :| 0 <= j < |f[k]| && f[k][j] == n;
        assert ps[j] == ToPath(n, sorted);
      }
      paths := paths + ps;
      SumOverStep(f, keys, k, Length);
      keys := keys - {k};
    }
    assert f.Keys - {} == f.Keys;
  }

  /** No step samples its candidates. */
  predicate NoSampling(steps: seq<Step>)
  {
    forall i :: 0 <= i < |steps| ==> steps[i].sample <= 0
  }

  /**
   * One frontier entry of a level: its expansion, sampled when the step
   * samples. hit stands for capacity being reached during the expansion.
   */
  method ExpandEntry(g: EdgeOracle, ghost sources: seq<VertexId>, steps: seq<Step>, s: int, sorted: bool,
                     frontier: Frontier, v: VertexId, capacity: int, count0: int)
    returns (adjacency: seq<Node>, count: int, hit: bool)
    requires 0 <= s < |steps| && v in frontier && Keyed(frontier)
    requires forall n :: InFrontier(frontier, n) ==> Reached(Query(g, sources, steps, sorted), n, s)
    ensures forall c :: c in adjacency ==> Reached(Query(g, sources, steps, sorted), c, s + 1)
    ensures (!hit && steps[s].sample <= 0
             && forall n :: Reached(Query(g, sources, steps, sorted), n, s) ==> InFrontier(frontier, n)) ==>
      forall c :: Reached(Query(g, sources, steps, sorted), c, s + 1) && c.Child? && c.parent.id == v ==>
        c in adjacency
    ensures capacity == NO_LIMIT ==> !hit && count == count0
    ensures capacity != NO_LIMIT && !hit ==>
      count == count0 + Candidates(g(v, steps[s]), frontier[v]) && |adjacency| <= count - count0
      && (count == count0 || count < capacity)
    ensures hit ==> capacity != NO_LIMIT && count >= capacity
  {
    ghost var q := Query(g, sources, steps, sorted);
    var step := steps[s];
    adjacency, count, hit := ExpandVertex(g, step, sorted, v, frontier[v], capacity, count0);
    if hit {
      return;
    }
    ExpansionReaches(q, s, frontier, v, adjacency);
    if step.sample <= 0 && forall n :: Reached(q, n, s) ==> InFrontier(frontier, n) {
      ExpansionComplete(q, s, frontier, v, adjacency);
    }
    if step.sample > 0 {
      var sampled := Sampling.Sample(adjacency, step.sample);
      SampledFrom(adjacency, sampled);
      adjacency := sampled;
    }
  }

  /**
   * One level of customizedPaths: the loop over the frontier's entries for
   * step s. The counter paths starts from the zero pathCount holds before the
   * last level. stop stands for `break root`: capacity was reached while
   * expanding, or the limit while filing the last level's nodes.
   */
  method ExpandLevel(g: EdgeOracle, ghost sources: seq<VertexId>, steps: seq<Step>, s: int, sorted: bool,
                     frontier: Frontier, capacity: int, limit: int, accessCount: int)
    returns (newVertices: Frontier, count: int, paths: int, stop: bool)
    requires 0 <= s < |steps|
    requires Keyed(frontier)
    requires forall n :: InFrontier(frontier, n) ==> Reached(Query(g, sources, steps, sorted), n, s)
    requires capacity == NO_LIMIT ==> accessCount == 0
    requires capacity != NO_LIMIT ==> 0 <= accessCount <= Max(capacity - 1, 0)
    ensures Keyed(newVertices)
    ensures forall n :: InFrontier(newVertices, n) ==> Reached(Query(g, sources, steps, sorted), n, s + 1)
    ensures (capacity == NO_LIMIT && (sorted || limit == NO_LIMIT) && steps[s].sample <= 0
             && forall n :: Reached(Query(g, sources, steps, sorted), n, s) ==> InFrontier(frontier, n)) ==>
      !stop && forall n :: Reached(Query(g, sources, steps, sorted), n, s + 1) ==> InFrontier(newVertices, n)
    ensures capacity == NO_LIMIT ==> count == 0
    ensures capacity != NO_LIMIT ==> Size(newVertices) <= Max(capacity - 1, 0)
    ensures capacity != NO_LIMIT && !stop ==> accessCount <= count <= Max(capacity - 1, 0)
    ensures s < |steps| - 1 ==> paths == 0 && (stop ==> capacity != NO_LIMIT)
    ensures s == |steps| - 1 && limit != NO_LIMIT && !sorted ==>
      Size(newVertices) == paths <= Max(limit, 1) && (!stop ==> paths < Max(limit, 1))
    ensures capacity != NO_LIMIT && !stop ==>
      count == accessCount + SumOver(frontier, frontier.Keys, CandidateWeight(g, steps[s]))
  {
    ghost var q := Query(g, sources, steps, sorted);
    ghost var complete := capacity == NO_LIMIT && (sorted || limit == NO_LIMIT) && steps[s].sample <= 0
      && forall n :: Reached(q, n, s) ==> InFrontier(frontier, n);
    var step := steps[s];
    var lastStep := s == |steps| - 1;
    newVertices, count, paths, stop := map[], accessCount, 0, false;
    var keys := frontier.Keys;
    while keys != {}
      invariant keys <= frontier.Keys
      invariant Keyed(newVertices) && forall n :: InFrontier(newVertices, n) ==> Reached(q, n, s + 1)
      invariant complete ==> forall c :: Reached(q, c, s + 1) && c.Child? && c.parent.id !in keys ==>
        InFrontier(newVertices, c)
      invariant capacity == NO_LIMIT ==> count == 0
      invariant capacity != NO_LIMIT ==>
        accessCount <= count <= Max(capacity - 1, 0) && Size(newVertices) + accessCount <= count
      invariant !lastStep ==> paths == 0
      invariant lastStep && limit != NO_LIMIT && !sorted ==> Size(newVertices) == paths < Max(limit, 1)
      invariant capacity != NO_LIMIT ==>
        count == accessCount + SumOver(frontier, frontier.Keys - keys, CandidateWeight(g, step))
      decreases keys
    {
      PickFrom(keys);
      var v :| v in keys;
      var adjacency, c, hit := ExpandEntry(g, sources, steps, s, sorted, frontier, v, capacity, count);
      if hit {
        count, stop := c, true;
        return;
      }
      count := c;
      var nv, pc, full := InsertAdjacency(newVertices, adjacency, lastStep, sorted, limit, paths);
      newVertices, paths := nv, pc;
      if full {
        stop := true;
        return;
      }
      SumOverStep(frontier, keys, v, CandidateWeight(g, step));
      keys := keys - {v};
    }
    assert frontier.Keys - {} == frontier.Keys;
    assert complete ==> forall n :: Reached(q, n, s + 1) ==> InFrontier(newVertices, n) by {
      if complete {
        forall n | Reached(q, n, s + 1) ensures InFrontier(newVertices, n) {
          assert n.Child? && n.parent.id !in keys;
        }
      }
    }
  }

  /** Filing the root of v in a first-level frontier built from prefix keeps it one. */
  lemma RootFiled(frontier: Frontier, prefix: seq<VertexId>, v: VertexId)
    requires Keyed(frontier)
    requires forall n :: InFrontier(frontier, n) <==> n.Root? && n.id in prefix
    ensures Keyed(Add(frontier, v, Root(v)))
    ensures forall n :: InFrontier(Add(frontier, v, Root(v)), n) <==> n.Root? && n.id in prefix + [v]
  {
    AddFiles(frontier, Root(v));
    forall n ensures InFrontier(Add(frontier, v, Root(v)), n) <==> n.Root? && n.id in prefix + [v] {
      assert n.id in prefix + [v] <==> n.id in prefix || n.id == v;
    }
  }

  /** Filing the root of v adds what v's edges of step contribute to the first level. */
  lemma RootCounted(g: EdgeOracle, step: Step, frontier: Frontier, prefix: seq<VertexId>, v: VertexId)
    requires SumOver(frontier, frontier.Keys, CandidateWeight(g, step)) == FirstLevel(g, prefix, step)
    ensures SumOver(Add(frontier, v, Root(v)), Add(frontier, v, Root(v)).Keys, CandidateWeight(g, step))
         == FirstLevel(g, prefix + [v], step)
  {
    var w := CandidateWeight(g, step);
    var node := Root(v);
    var after := Add(frontier, v, node);
    var before := if v in frontier then frontier[v] else [];
    SumAdd(frontier, v, node, w);
    assert after[v] == before + [node];
    CandidatesAppend(g(v, step), before, node);
    assert w(v, after[v]) == Candidates(g(v, step), before) + Fresh(g(v, step), node);
    if v in frontier {
      assert w(v, frontier[v]) == Candidates(g(v, step), before);
    } else {
      CandidatesNone(g(v, step));
    }
    assert (prefix + [v])[..|prefix|] == prefix;
  }

  /**
   * The loop that files a root node for every source vertex, as often as the
   * vertex is listed; step is the first step, whose candidates the roots
   * determine.
   */
  method Roots(g: EdgeOracle, sources: seq<VertexId>, ghost step: Step) returns (frontier: Frontier)
    ensures Keyed(frontier)
    ensures forall n :: InFrontier(frontier, n) <==> n.Root? && n.id in sources
    ensures Size(frontier) == |sources|
    ensures SumOver(frontier, frontier.Keys, CandidateWeight(g, step)) == FirstLevel(g, sources, step)
  {
    ghost var w := CandidateWeight(g, step);
    frontier := map[];
    for i := 0 to |sources|
      invariant Keyed(frontier)
      invariant forall n :: InFrontier(frontier, n) <==> n.Root? && n.id in sources[..i]
      invariant Size(frontier) == i
      invariant SumOver(frontier, frontier.Keys, w) == FirstLevel(g, sources[..i], step)
    {
      SizeAdd(frontier, sources[i], Root(sources[i]));
      RootFiled(frontier, sources[..i], sources[i]);
      RootCounted(g, step, frontier, sources[..i], sources[i]);
      assert sources[..i + 1] == sources[..i] + [sources[i]];
      frontier := Add(frontier, sources[i], Root(sources[i]));
    }
    assert sources[..|sources|] == sources;
  }

  /**
   * customizedPaths(vertices, steps, sorted, capacity, limit). When the first
   * level alone creates capacity new nodes and more steps follow, the walk
   * breaks off and returns no path.
   */
  method CustomizedPaths(g: EdgeOracle, sources: seq<VertexId>, steps: seq<Step>, sorted: bool,
                         capacity: int, limit: int)
    returns (r: Result<seq<Path>>)
    ensures sources == [] ==> r == Err(IllegalArgument("The source vertices can't be empty"))
    ensures sources != [] && steps == [] ==> r == Err(IllegalArgument("The steps can't be empty"))
    ensures sources != [] && steps != [] ==> r.Ok?
    ensures r.Ok? ==> forall p :: p in r.value ==> ValidPath(Query(g, sources, steps, sorted), p)
    ensures r.Ok? && capacity == NO_LIMIT && (sorted || limit == NO_LIMIT) && NoSampling(steps) ==>
      forall p :: ValidPath(Query(g, sources, steps, sorted), p) ==> p in r.value
    ensures r.Ok? && !sorted && limit != NO_LIMIT ==> |r.value| <= Max(limit, 1)
    ensures r.Ok? && capacity != NO_LIMIT ==> |r.value| <= Max(capacity - 1, 0)
    ensures (sources != [] && |steps| >= 2 && capacity != NO_LIMIT
             && FirstLevel(g, sources, steps[0]) >= Max(capacity, 1)) ==> r == Ok([])
  {
    if |sources| == 0 {
      return Err(IllegalArgument("The source vertices can't be empty"));
    }
    if |steps| == 0 {
      return Err(IllegalArgument("The steps can't be empty"));
    }
    ghost var q := Query(g, sources, steps, sorted);
    ghost var complete := capacity == NO_LIMIT && (sorted || limit == NO_LIMIT) && NoSampling(steps);
    ghost var w0 := CandidateWeight(g, steps[0]);
    ghost var abortsFirst := capacity != NO_LIMIT && FirstLevel(g, sources, steps[0]) >= Max(capacity, 1);
    var frontier := Roots(g, sources, steps[0]);
    var stepNum := |steps|;
    var pathCount := 0;
    var accessCount := 0;
    var newVertices: Frontier := map[];
    for s := 0 to |steps|
      invariant stepNum == |steps| - s
      invariant Keyed(frontier) && forall n :: InFrontier(frontier, n) ==> Reached(q, n, s)
      invariant complete ==> forall n :: Reached(q, n, s) ==> InFrontier(frontier, n)
      invariant s > 0 ==> newVertices == frontier
      invariant capacity == NO_LIMIT ==> accessCount == 0
      invariant capacity != NO_LIMIT ==> 0 <= accessCount <= Max(capacity - 1, 0)
      invariant s > 0 && capacity != NO_LIMIT ==> Size(frontier) <= Max(capacity - 1, 0)
      invariant s == |steps| && limit != NO_LIMIT && !sorted ==> Size(frontier) == pathCount < Max(limit, 1)
      invariant s == 0 ==> accessCount == 0 && SumOver(frontier, frontier.Keys, w0) == FirstLevel(g, sources, steps[0])
      invariant s > 0 ==> !abortsFirst
    {
      stepNum := stepNum - 1;
      var nv, count, paths, stop := ExpandLevel(g, sources, steps, s, sorted, frontier, capacity, limit, accessCount);
      newVertices, accessCount, pathCount := nv, count, paths;
      if stop {
        break;
      }
      frontier := newVertices;
    }
    if stepNum != 0 {
      return Ok([]);
    }
    var paths := LastLevelPaths(q, newVertices, sorted);
    r := Ok(paths);
  }

  /**
   * The output loop over the last level, with what it means: every path is a
   * valid result, and when the level is whole every valid result is there.
   */
  method LastLevelPaths(ghost q: Query, f: Frontier, sorted: bool) returns (paths: seq<Path>)
    requires sorted == q.sorted
    requires Keyed(f) && forall n :: InFrontier(f, n) ==> Reached(q, n, |q.steps|)
    ensures |paths| == Size(f)
    ensures forall p :: p in paths ==> ValidPath(q, p)
    ensures (forall n :: Reached(q, n, |q.steps|) ==> InFrontier(f, n)) ==>
      forall p :: ValidPath(q, p) ==> p in paths
  {
    paths := ToPaths(f, sorted);
    forall p | p in paths ensures ValidPath(q, p) {
      var n :| InFrontier(f, n) && p == ToPath(n, sorted);
      LastLevelIsValid(q, n);
    }
    if forall n :: Reached(q, n, |q.steps|) ==> InFrontier(f, n) {
      forall p | ValidPath(q, p) ensures p in paths {
        ValidIsLastLevel(q, p);
      }
    }
  }

  /** With nothing cut off, every node of the next level whose parent ends at v was produced. */
  lemma ExpansionComplete(q: Query, s: int, frontier: Frontier, v: VertexId, adjacency: seq<Node>)
    requires 0 <= s < |q.steps| && v in frontier && Keyed(frontier)
    requires forall n :: Reached(q, n, s) ==> InFrontier(frontier, n)
    requires forall n, e :: n in frontier[v] && e in q.g(v, q.steps[s]) && !Contains(n, e.target) ==>
      Child(e.target, n, NodeWeight(q.steps[s], e, q.sorted)) in adjacency
    ensures forall c :: Reached(q, c, s + 1) && c.Child? && c.parent.id == v ==> c in adjacency
  {
    forall c | Reached(q, c, s + 1) && c.Child? && c.parent.id == v ensures c in adjacency {
      var e :| e in q.g(c.parent.id, q.steps[s]) && e.target == c.id && c.weight == NodeWeight(q.steps[s], e, q.sorted);
      assert InFrontier(frontier, c.parent);
    }
  }

  /** What one expansion adds is reached at the next level. */
  lemma ExpansionReaches(q: Query, s: int, frontier: Frontier, v: VertexId, adjacency: seq<Node>)
    requires 0 <= s < |q.steps| && v in frontier
    requires forall n :: InFrontier(frontier, n) ==> Reached(q, n, s)
    requires Keyed(frontier)
    requires forall c :: c in adjacency ==> Extends(q.g, q.steps[s], q.sorted, v, frontier[v], c)
    ensures forall c :: c in adjacency ==> Reached(q, c, s + 1)
  {
    forall c | c in adjacency ensures Reached(q, c, s + 1) {
      assert InFrontier(frontier, c.parent);
      var e :| e in q.g(v, q.steps[s]) && e.target == c.id && c.weight == NodeWeight(q.steps[s], e, q.sorted);
      assert Hop(q, s, c.parent.id, c.id, c.weight);
    }
  }

  /** A sample holds nothing that was not a candidate. */
  lemma SampledFrom(nodes: seq<Node>, sampled: seq<Node>)
    requires sampled == nodes || multiset(sampled) <= multiset(nodes)
    ensures forall c :: c in sampled ==> c in nodes
  {
    forall c | c in sampled ensures c in nodes {
      assert c in multiset(sampled);
    }
  }
}
