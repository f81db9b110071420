/**
 * RankAlgorithm: personalRank and neighborRank over the edges of one edge
 * label. Each round spreads alpha of every seed's rank evenly over its
 * degree to the seed's neighbours.
 */
module Rank {
  import opened Base

  /**
   * The graph store's answers for one edge label: adjacentVertices,
   * degreeOfVertex, and the label of each vertex.
   */
  datatype RankGraph = RankGraph(
    adjacent: (VertexId, Direction, LabelId) -> set<VertexId>,
    degree: (VertexId, Direction, LabelId) -> int,
    vertexLabel: VertexId -> LabelId)

  /** An edge label's schema: its id and the vertex labels at its two ends. */
  datatype EdgeLabel = EdgeLabel(id: LabelId, sourceLabel: LabelId, targetLabel: LabelId)

  /**
   * What the algorithm takes from the store: an edge seen OUT from one end
   * is seen IN from the other, and a vertex with a neighbour has degree at
   * least one.
   */
  ghost predicate Consistent(g: RankGraph, labelId: LabelId)
  {
    forall u, v, d :: Linked(g, labelId, u, v, d)
  }

  ghost predicate Linked(g: RankGraph, labelId: LabelId, u: VertexId, v: VertexId, d: Direction)
  {
    (v in g.adjacent(u, OUT, labelId) <==> u in g.adjacent(v, IN, labelId))
    && (v in g.adjacent(u, d, labelId) ==> g.degree(u, d, labelId) >= 1)
  }

  /**
   * getStartDirection: rejects a vertex whose label is at neither end of the
   * edge labelId, walks OUT from the source end and IN otherwise.
   */
  function StartDirection(vertexLabel: LabelId, el: EdgeLabel): (r: Result<Direction>)
    ensures r.Err? <==> vertexLabel != el.sourceLabel && vertexLabel != el.targetLabel
    ensures r.Ok? ==> r.value != BOTH && (r.value == OUT <==> vertexLabel == el.sourceLabel)
    ensures r.Ok? && r.value == IN ==> vertexLabel == el.targetLabel
    ensures r.Err? ==> r.error == IllegalArgument("The vertex '%s' doesn't link with edge label '%s'")
  {
    if el.sourceLabel != vertexLabel && el.targetLabel != vertexLabel then
      Err(IllegalArgument("The vertex '%s' doesn't link with edge label '%s'"))
    else if el.sourceLabel == vertexLabel then
      Ok(OUT)
    else
      Ok(IN)
  }

  /** Map.getOrDefault(k, 0.0). */
  function GetOr(m: map<VertexId, real>, k: VertexId): real
  {
    if k in m then m[k] else 0.0
  }

  /** m with c added to the entry of every vertex in nbs, an absent entry counting as 0. */
  ghost function AddSpread(m: map<VertexId, real>, nbs: set<VertexId>, c: real): map<VertexId, real>
  {
    map n | n in m.Keys + nbs :: GetOr(m, n) + (if n in nbs then c else 0.0)
  }

  lemma AddSpreadStep(m: map<VertexId, real>, nbs: set<VertexId>, x: VertexId, c: real)
    requires x !in nbs
    ensures AddSpread(m, nbs + {x}, c) == AddSpread(m, nbs, c)[x := GetOr(AddSpread(m, nbs, c), x) + c]
  {
    var a, b := AddSpread(m, nbs + {x}, c), AddSpread(m, nbs, c)[x := GetOr(AddSpread(m, nbs, c), x) + c];
    assert a.Keys == b.Keys;
    forall n | n in a.Keys ensures a[n] == b[n] {
    }
  }

  /** The state personalRank carries from round to round. */
  datatype PersonalState = PersonalState(outSeeds: set<VertexId>, inSeeds: set<VertexId>, ranks: map<VertexId, real>)

  /** The state neighborRank carries from round to round. */
  datatype NeighborState = NeighborState(seeds: set<VertexId>, dir: Direction, ranks: map<VertexId, real>)

  class RankAlgorithm {
    const graph: RankGraph
    const alpha: real
    const maxDepth: int

    constructor(graph: RankGraph, alpha: real, maxDepth: int)
      ensures this.graph == graph && this.alpha == alpha && this.maxDepth == maxDepth
    {
      this.graph := graph;
      this.alpha := alpha;
      this.maxDepth := maxDepth;
    }

    /** Every seed has a rank and a positive degree in dir: what a round reads of it. */
    ghost predicate Ready(labelId: LabelId, ranks: map<VertexId, real>, seeds: set<VertexId>, dir: Direction)
    {
      seeds <= ranks.Keys && forall s :: s in seeds ==> graph.degree(s, dir, labelId) > 0
    }

    /** The vertices adjacent in dir to some seed. */
    ghost function Neighbours(labelId: LabelId, seeds: set<VertexId>, dir: Direction): set<VertexId>
    {
      set s, n | s in seeds && n in graph.adjacent(s, dir, labelId) :: n
    }

    /** The share of a seed's rank that each of its neighbours receives. */
    ghost function Spread(labelId: LabelId, ranks: map<VertexId, real>, dir: Direction, s: VertexId): real
      requires s in ranks && graph.degree(s, dir, labelId) > 0
    {
      ranks[s] * alpha / (graph.degree(s, dir, labelId) as real)
    }

    /**
     * What seed s passes to vertex n: its spread when n is its neighbour; a
     * seed without a rank or a degree passes nothing (the rounds never read one).
     */
    ghost function Contribution(labelId: LabelId, ranks: map<VertexId, real>, dir: Direction, s: VertexId, n: VertexId): real
    {
      if s in ranks && graph.degree(s, dir, labelId) > 0 && n in graph.adjacent(s, dir, labelId)
      then Spread(labelId, ranks, dir, s) else 0.0
    }

    /** The increment n receives from all seeds, summed in an arbitrary order. */
    ghost function IncrFrom(labelId: LabelId, ranks: map<VertexId, real>, dir: Direction, seeds: set<VertexId>, n: VertexId): real
      decreases seeds
    {
      if seeds == {} then 0.0
      else
        PickFrom(seeds);
        var s :| s in seeds;
        Contribution(labelId, ranks, dir, s, n) + IncrFrom(labelId, ranks, dir, seeds - {s}, n)
    }

    /** The sum does not depend on which seed is taken first. */
    lemma {:induction false} IncrFromRemove(labelId: LabelId, ranks: map<VertexId, real>, dir: Direction,
                                            seeds: set<VertexId>, s: VertexId, n: VertexId)
      requires s in seeds
      ensures IncrFrom(labelId, ranks, dir, seeds, n)
           == Contribution(labelId, ranks, dir, s, n) + IncrFrom(labelId, ranks, dir, seeds - {s}, n)
      decreases seeds
    {
      var j :| j in seeds && IncrFrom(labelId, ranks, dir, seeds, n)
            == Contribution(labelId, ranks, dir, j, n) + IncrFrom(labelId, ranks, dir, seeds - {j}, n);
      if j != s {
        IncrFromRemove(labelId, ranks, dir, seeds - {j}, s, n);
        IncrFromRemove(labelId, ranks, dir, seeds - {s}, j, n);
        assert seeds - {j} - {s} == seeds - {s} - {j};
      }
    }

    /** A vertex next to no seed receives nothing. */
    lemma {:induction false} IncrFromOutside(labelId: LabelId, ranks: map<VertexId, real>, dir: Direction,
                                             seeds: set<VertexId>, n: VertexId)
      requires n !in Neighbours(labelId, seeds, dir)
      ensures IncrFrom(labelId, ranks, dir, seeds, n) == 0.0
      decreases seeds
    {
      if seeds != {} {
        PickFrom(seeds);
        var s :| s in seeds;
        IncrFromRemove(labelId, ranks, dir, seeds, s, n);
        assert n !in graph.adjacent(s, dir, labelId);
        NeighboursGrow(labelId, seeds - {s}, seeds, dir);
        IncrFromOutside(labelId, ranks, dir, seeds - {s}, n);
      }
    }

    /** With non-negative ranks and alpha, no increment is negative. */
    lemma {:induction false} IncrFromNonNegative(labelId: LabelId, ranks: map<VertexId, real>, dir: Direction,
                                                 seeds: set<VertexId>, n: VertexId)
      requires alpha >= 0.0 && forall s :: s in ranks ==> ranks[s] >= 0.0
      ensures IncrFrom(labelId, ranks, dir, seeds, n) >= 0.0
      decreases seeds
    {
      if seeds != {} {
        PickFrom(seeds);
        var s :| s in seeds;
        IncrFromRemove(labelId, ranks, dir, seeds, s, n);
        assert s in ranks ==> ranks[s] * alpha >= 0.0;
        IncrFromNonNegative(labelId, ranks, dir, seeds - {s}, n);
      }
    }

    lemma NeighboursAdd(labelId: LabelId, seeds: set<VertexId>, s: VertexId, dir: Direction)
      ensures Neighbours(labelId, seeds + {s}, dir) == Neighbours(labelId, seeds, dir) + graph.adjacent(s, dir, labelId)
    {
      var a, b := Neighbours(labelId, seeds + {s}, dir), Neighbours(labelId, seeds, dir) + graph.adjacent(s, dir, labelId);
      forall n | n in a ensures n in b {
        var t :| t in seeds + {s} && n in graph.adjacent(t, dir, labelId);
        if t != s {
          assert n in Neighbours(labelId, seeds, dir);
        }
      }
      forall n | n in b ensures n in a {
        if n !in graph.adjacent(s, dir, labelId) {
          var t :| t in seeds && n in graph.adjacent(t, dir, labelId);
        }
      }
    }

    /** incr0 plus the increments the seeds spread along dir. */
    ghost function Accumulated(labelId: LabelId, ranks: map<VertexId, real>, dir: Direction, seeds: set<VertexId>,
                               incr0: map<VertexId, real>): map<VertexId, real>
    {
      map n | n in incr0.Keys + Neighbours(labelId, seeds, dir) :: GetOr(incr0, n) + IncrFrom(labelId, ranks, dir, seeds, n)
    }

    /** Spreading one more seed adds its spread to each of its neighbours. */
    lemma AccumulatedStep(labelId: LabelId, ranks: map<VertexId, real>, dir: Direction, done: set<VertexId>,
                          seed: VertexId, incr0: map<VertexId, real>)
      requires Ready(labelId, ranks, done + {seed}, dir) && seed !in done
      ensures Accumulated(labelId, ranks, dir, done + {seed}, incr0)
           == AddSpread(Accumulated(labelId, ranks, dir, done, incr0), graph.adjacent(seed, dir, labelId),
                        Spread(labelId, ranks, dir, seed))
    {
      var all := done + {seed};
      NeighboursAdd(labelId, done, seed, dir);
      var acc := Accumulated(labelId, ranks, dir, done, incr0);
      var lhs := Accumulated(labelId, ranks, dir, all, incr0);
      var rhs := AddSpread(acc, graph.adjacent(seed, dir, labelId), Spread(labelId, ranks, dir, seed));
      assert lhs.Keys == rhs.Keys;
      forall n | n in lhs.Keys ensures lhs[n] == rhs[n] {
        IncrFromRemove(labelId, ranks, dir, all, seed, n);
        assert all - {seed} == done;
        if n !in acc.Keys {
          IncrFromOutside(labelId, ranks, dir, done, n);
        }
      }
    }

    /**
     * The inner loop of getIncrRanks: every neighbour is recorded and gets
     * spreadRank added to its increment, an absent increment counting as 0.
     */
    method SpreadToNeighbours(neighbors: set<VertexId>, spreadRank: real, incr0: map<VertexId, real>,
                              reached0: set<VertexId>)
      returns (incr: map<VertexId, real>, reached: set<VertexId>)
      ensures incr == AddSpread(incr0, neighbors, spreadRank)
      ensures reached == reached0 + neighbors
    {
      incr, reached := incr0, reached0;
      var left := neighbors;
      assert AddSpread(incr0, {}, spreadRank) == incr0;
      while left != {}
        invariant left <= neighbors
        invariant incr == AddSpread(incr0, neighbors - left, spreadRank)
        invariant reached == reached0 + (neighbors - left)
        decreases left
      {
        PickFrom(left);
        var neighbor :| neighbor in left;
        reached := reached + {neighbor};
        AddSpreadStep(incr0, neighbors - left, neighbor, spreadRank);
        var incrRank := GetOr(incr, neighbor);
        incrRank := incrRank + spreadRank;
        incr := incr[neighbor := incrRank];
        assert neighbors - (left - {neighbor}) == (neighbors - left) + {neighbor};
        left := left - {neighbor};
      }
      assert neighbors - {} == neighbors;
    }

    /**
     * The collectNeighborIncrRanks lambda (and the one-sided getIncrRanks,
     * which runs the same loop): for every seed, adds its spread to each of
     * its neighbours' increments and records the neighbours.
     */
    method Collect(seeds: set<VertexId>, dir: Direction, labelId: LabelId, ranks: map<VertexId, real>,
                   incr0: map<VertexId, real>)
      returns (incr: map<VertexId, real>, reached: set<VertexId>)
      requires Ready(labelId, ranks, seeds, dir)
      ensures incr == Accumulated(labelId, ranks, dir, seeds, incr0)
      ensures reached == Neighbours(labelId, seeds, dir)
    {
      incr, reached := incr0, {};
      assert incr0 == Accumulated(labelId, ranks, dir, {}, incr0);
      var remaining := seeds;
      while remaining != {}
        invariant remaining <= seeds
        invariant incr == Accumulated(labelId, ranks, dir, seeds - remaining, incr0)
        invariant reached == Neighbours(labelId, seeds - remaining, dir)
        decreases remaining
      {
        PickFrom(remaining);
        var seed :| seed in remaining;
        ghost var done := seeds - remaining;
        ghost var acc := incr;
        var degree := graph.degree(seed, dir, labelId);
        var originRank := ranks[seed];
        var spreadRank := originRank * alpha / (degree as real);
        var neighbors := graph.adjacent(seed, dir, labelId);
        incr, reached := SpreadToNeighbours(neighbors, spreadRank, incr, reached);
        assert spreadRank == Spread(labelId, ranks, dir, seed);
        AccumulatedStep(labelId, ranks, dir, done, seed, incr0);
        NeighboursAdd(labelId, done, seed, dir);
        assert done + {seed} == seeds - (remaining - {seed});
        remaining := remaining - {seed};
      }
      assert seeds - {} == seeds;
    }

    /** The increments of one round of personalRank, from both seed sets. */
    ghost function BothIncr(labelId: LabelId, ranks: map<VertexId, real>, outSeeds: set<VertexId>, inSeeds: set<VertexId>)
      : map<VertexId, real>
    {
      map n | n in Neighbours(labelId, outSeeds, OUT) + Neighbours(labelId, inSeeds, IN) ::
        IncrFrom(labelId, ranks, OUT, outSeeds, n) + IncrFrom(labelId, ranks, IN, inSeeds, n)
    }

    /**
     * getIncrRanks(outSeeds, inSeeds, labelId, ranks): the increments every
     * neighbour receives from the OUT seeds and the IN seeds together, and the
     * seed sets grown by the neighbours reached the other way.
     */
    method GetIncrRanksBoth(outSeeds: set<VertexId>, inSeeds: set<VertexId>, labelId: LabelId, ranks: map<VertexId, real>)
      returns (incrRanks: map<VertexId, real>, newOutSeeds: set<VertexId>, newInSeeds: set<VertexId>)
      requires Ready(labelId, ranks, outSeeds, OUT) && Ready(labelId, ranks, inSeeds, IN)
      ensures incrRanks.Keys == Neighbours(labelId, outSeeds, OUT) + Neighbours(labelId, inSeeds, IN)
      ensures forall n :: n in incrRanks ==>
        incrRanks[n] == IncrFrom(labelId, ranks, OUT, outSeeds, n) + IncrFrom(labelId, ranks, IN, inSeeds, n)
      ensures incrRanks == BothIncr(labelId, ranks, outSeeds, inSeeds)
      ensures newOutSeeds == outSeeds + Neighbours(labelId, inSeeds, IN)
      ensures newInSeeds == inSeeds + Neighbours(labelId, outSeeds, OUT)
    {
      var incr, tmpInSeeds := Collect(outSeeds, OUT, labelId, ranks, map[]);
      ghost var fromOut := incr;
      var tmpOutSeeds;
      incr, tmpOutSeeds := Collect(inSeeds, IN, labelId, ranks, incr);
      forall n | n in incr ensures incr[n] == IncrFrom(labelId, ranks, OUT, outSeeds, n) + IncrFrom(labelId, ranks, IN, inSeeds, n) {
        if n !in fromOut {
          IncrFromOutside(labelId, ranks, OUT, outSeeds, n);
        }
      }
      BothIncrEqual(labelId, ranks, outSeeds, inSeeds, incr);
      newOutSeeds := outSeeds + tmpOutSeeds;
      newInSeeds := inSeeds + tmpInSeeds;
      incrRanks := incr;
    }

    /** A map with BothIncr's keys and values is BothIncr. */
    lemma BothIncrEqual(labelId: LabelId, ranks: map<VertexId, real>, outSeeds: set<VertexId>, inSeeds: set<VertexId>,
                        m: map<VertexId, real>)
      requires m.Keys == Neighbours(labelId, outSeeds, OUT) + Neighbours(labelId, inSeeds, IN)
      requires forall n :: n in m ==> m[n] == IncrFrom(labelId, ranks, OUT, outSeeds, n) + IncrFrom(labelId, ranks, IN, inSeeds, n)
      ensures m == BothIncr(labelId, ranks, outSeeds, inSeeds)
    {
    }

    /** The increments of one round of neighborRank. */
    ghost function OneIncr(labelId: LabelId, ranks: map<VertexId, real>, dir: Direction, seeds: set<VertexId>)
      : map<VertexId, real>
    {
      map n | n in Neighbours(labelId, seeds, dir) :: IncrFrom(labelId, ranks, dir, seeds, n)
    }

    /**
     * getIncrRanks(seeds, dir, labelId, ranks): the increment every neighbour
     * of the seeds receives along dir, and only those.
     */
    method GetIncrRanks(seeds: set<VertexId>, dir: Direction, labelId: LabelId, ranks: map<VertexId, real>)
      returns (rankIncrs: map<VertexId, real>)
      requires Ready(labelId, ranks, seeds, dir)
      ensures rankIncrs.Keys == Neighbours(labelId, seeds, dir)
      ensures forall n :: n in rankIncrs ==> rankIncrs[n] == IncrFrom(labelId, ranks, dir, seeds, n)
      ensures rankIncrs == OneIncr(labelId, ranks, dir, seeds)
    {
      var reached;
      rankIncrs, reached := Collect(seeds, dir, labelId, ranks, map[]);
    }

    /** compensateSourceVertex: the source gets 1 - alpha on top of its increment. */
    function CompensateSourceVertex(source: VertexId, incrRanks: map<VertexId, real>): (r: map<VertexId, real>)
      ensures r.Keys == incrRanks.Keys + {source}
      ensures r[source] == GetOr(incrRanks, source) + (1.0 - alpha)
      ensures forall k :: k in incrRanks && k != source ==> r[k] == incrRanks[k]
    {
      incrRanks[source := GetOr(incrRanks, source) + (1.0 - alpha)]
    }

    /** A rank as combineIncrement leaves it: scaled by 1 - alpha when it belongs to a seed. */
    function Attenuated(rank: real, isSeed: bool): real
    {
      if isSeed then rank * (1.0 - alpha) else rank
    }

    lemma AttenuatedNonNegative(rank: real, isSeed: bool)
      requires rank >= 0.0 && alpha <= 1.0
      ensures Attenuated(rank, isSeed) >= 0.0
    {
    }

    /** The ranks after combineIncrement. */
    ghost function Combined(seeds: set<VertexId>, ranks: map<VertexId, real>, incrRanks: map<VertexId, real>)
      : map<VertexId, real>
    {
      map k | k in ranks.Keys + incrRanks.Keys ::
        Attenuated(GetOr(ranks, k) + GetOr(incrRanks, k), k in seeds)
    }

    /**
     * combineIncrement: adds every increment to the rank it belongs to, then
     * attenuates each seed's rank to (1 - alpha) of its new value.
     */
    method CombineIncrement(seeds: set<VertexId>, ranks: map<VertexId, real>, incrRanks: map<VertexId, real>)
      returns (r: map<VertexId, real>)
      requires seeds <= ranks.Keys + incrRanks.Keys
      ensures r.Keys == ranks.Keys + incrRanks.Keys
      ensures forall k :: k in r && k !in seeds ==> r[k] == GetOr(ranks, k) + GetOr(incrRanks, k)
      ensures forall k :: k in seeds ==> r[k] == (GetOr(ranks, k) + GetOr(incrRanks, k)) * (1.0 - alpha)
      ensures r == Combined(seeds, ranks, incrRanks)
    {
      var sums := AddIncrements(ranks, incrRanks);
      r := Attenuate(seeds, sums);
      CombinedEqual(seeds, ranks, incrRanks, r);
    }

    /** A map with Combined's keys and values is Combined. */
    lemma CombinedEqual(seeds: set<VertexId>, ranks: map<VertexId, real>, incrRanks: map<VertexId, real>,
                        m: map<VertexId, real>)
      requires m.Keys == ranks.Keys + incrRanks.Keys
      requires forall k :: k in m ==> m[k] == Attenuated(GetOr(ranks, k) + GetOr(incrRanks, k), k in seeds)
      ensures m == Combined(seeds, ranks, incrRanks)
    {
      var c := Combined(seeds, ranks, incrRanks);
      assert m.Keys == c.Keys;
      forall k | k in m ensures m[k] == c[k] {
      }
    }

    /** The first loop of combineIncrement: every increment is added to its vertex's rank. */
    method AddIncrements(ranks: map<VertexId, real>, incrRanks: map<VertexId, real>) returns (r: map<VertexId, real>)
      ensures r.Keys == ranks.Keys + incrRanks.Keys
      ensures forall k :: k in r ==> r[k] == GetOr(ranks, k) + GetOr(incrRanks, k)
    {
      r := ranks;
      var entries := incrRanks.Keys;
      while entries != {}
        invariant entries <= incrRanks.Keys
        invariant r.Keys == ranks.Keys + (incrRanks.Keys - entries)
        invariant forall k :: k in r ==> r[k] == GetOr(ranks, k) + (if k in entries then 0.0 else GetOr(incrRanks, k))
        decreases entries
      {
        PickFrom(entries);
        var k :| k in entries;
        var oldRank := GetOr(r, k);
        var incrRank := incrRanks[k];
        r := r[k := oldRank + incrRank];
        entries := entries - {k};
      }
    }

    /** The second loop of combineIncrement: every seed's rank is scaled by 1 - alpha. */
    method Attenuate(seeds: set<VertexId>, ranks: map<VertexId, real>) returns (r: map<VertexId, real>)
      requires seeds <= ranks.Keys
      ensures r.Keys == ranks.Keys
      ensures forall k :: k in r ==> r[k] == Attenuated(ranks[k], k in seeds)
    {
      r := ranks;
      var left := seeds;
      while left != {}
        invariant left <= seeds
        invariant r.Keys == ranks.Keys
        invariant forall k :: k in r ==> r[k] == Attenuated(ranks[k], k in seeds && k !in left)
        decreases left
      {
        PickFrom(left);
        var seed :| seed in left;
        var oldRank := r[seed];
        r := r[seed := oldRank * (1.0 - alpha)];
        left := left - {seed};
      }
    }

    /**
     * What a personalRank round relies on: the source keeps a rank, every
     * seed is ranked with a positive degree in its direction, and every seed
     * other than the source was reached by the other direction's seeds.
     */
    ghost predicate PersonalInv(labelId: LabelId, source: VertexId, st: PersonalState)
    {
      source in st.ranks
      && Ready(labelId, st.ranks, st.outSeeds, OUT) && Ready(labelId, st.ranks, st.inSeeds, IN)
      && st.outSeeds - {source} <= Neighbours(labelId, st.inSeeds, IN)
      && st.inSeeds - {source} <= Neighbours(labelId, st.outSeeds, OUT)
    }

    /** The state personalRank starts from, walking dir from the source. */
    function PersonalStart(source: VertexId, dir: Direction): PersonalState
    {
      PersonalState(if dir == OUT then {source} else {}, if dir == OUT then {} else {source}, map[source := 1.0])
    }

    /** One round of the personalRank loop. */
    ghost function PersonalRound(labelId: LabelId, source: VertexId, st: PersonalState): PersonalState
    {
      PersonalState(
        st.outSeeds + Neighbours(labelId, st.inSeeds, IN),
        st.inSeeds + Neighbours(labelId, st.outSeeds, OUT),
        CompensateSourceVertex(source, BothIncr(labelId, st.ranks, st.outSeeds, st.inSeeds)))
    }

    /** A vertex reached IN from some seed has an OUT edge, and the other way round. */
    lemma ReachedHasDegree(labelId: LabelId, seeds: set<VertexId>, dir: Direction, v: VertexId)
      requires Consistent(graph, labelId) && dir != BOTH && v in Neighbours(labelId, seeds, dir)
      ensures graph.degree(v, dir.Opposite(), labelId) >= 1
    {
      var s :| s in seeds && v in graph.adjacent(s, dir, labelId);
      assert Linked(graph, labelId, s, v, dir) && Linked(graph, labelId, v, s, dir.Opposite());
      assert Linked(graph, labelId, v, s, OUT) && Linked(graph, labelId, s, v, OUT);
    }

    /** Every seed read during a personalRank round is ranked and has a positive degree. */
    lemma PersonalInvPreserved(labelId: LabelId, source: VertexId, st: PersonalState)
      requires Consistent(graph, labelId) && PersonalInv(labelId, source, st)
      ensures PersonalInv(labelId, source, PersonalRound(labelId, source, st))
    {
      var next := PersonalRound(labelId, source, st);
      var nIn, nOut := Neighbours(labelId, st.inSeeds, IN), Neighbours(labelId, st.outSeeds, OUT);
      forall v | v in nIn ensures graph.degree(v, OUT, labelId) >= 1 {
        ReachedHasDegree(labelId, st.inSeeds, IN, v);
      }
      forall v | v in nOut ensures graph.degree(v, IN, labelId) >= 1 {
        ReachedHasDegree(labelId, st.outSeeds, OUT, v);
      }
      NeighboursGrow(labelId, st.inSeeds, next.inSeeds, IN);
      NeighboursGrow(labelId, st.outSeeds, next.outSeeds, OUT);
    }

    lemma NeighboursGrow(labelId: LabelId, seeds: set<VertexId>, more: set<VertexId>, dir: Direction)
      requires seeds <= more
      ensures Neighbours(labelId, seeds, dir) <= Neighbours(labelId, more, dir)
    {
      forall n | n in Neighbours(labelId, seeds, dir) ensures n in Neighbours(labelId, more, dir) {
        var s :| s in seeds && n in graph.adjacent(s, dir, labelId);
      }
    }

    /** The state after k rounds of personalRank. */
    ghost function PersonalRounds(labelId: LabelId, source: VertexId, st: PersonalState, k: nat): PersonalState
      decreases k
    {
      if k == 0 then st else PersonalRound(labelId, source, PersonalRounds(labelId, source, st, k - 1))
    }

    /** The invariant holds after any number of personalRank rounds. */
    lemma {:induction false} PersonalRoundsInv(labelId: LabelId, source: VertexId, st: PersonalState, k: nat)
      requires Consistent(graph, labelId) && PersonalInv(labelId, source, st)
      ensures PersonalInv(labelId, source, PersonalRounds(labelId, source, st, k))
      decreases k
    {
      if k > 0 {
        PersonalRoundsInv(labelId, source, st, k - 1);
        PersonalInvPreserved(labelId, source, PersonalRounds(labelId, source, st, k - 1));
      }
    }

    /**
     * personalRank(source, labelId): {source: 1.0} when the source has no edge
     * of the label in its direction, otherwise the ranks after maxDepth rounds.
     */
    method PersonalRank(source: VertexId, el: EdgeLabel) returns (r: Result<map<VertexId, real>>)
      requires Consistent(graph, el.id)
      ensures StartDirection(graph.vertexLabel(source), el).Err? ==>
        r == Err(StartDirection(graph.vertexLabel(source), el).error)
      ensures var d := StartDirection(graph.vertexLabel(source), el);
        d.Ok? && graph.degree(source, d.value, el.id) < 1 ==> r == Ok(map[source := 1.0])
      ensures StartDirection(graph.vertexLabel(source), el).Ok? && maxDepth <= 0 ==> r == Ok(map[source := 1.0])
      ensures var d := StartDirection(graph.vertexLabel(source), el);
        d.Ok? && graph.degree(source, d.value, el.id) >= 1 ==>
        r == Ok(PersonalRounds(el.id, source, PersonalStart(source, d.value), Max(maxDepth, 0)).ranks)
    {
      var labelId := el.id;
      var d := StartDirection(graph.vertexLabel(source), el);
      if d.Err? {
        return Err(d.error);
      }
      var dir := d.value;
      var degree := graph.degree(source, dir, labelId);
      if degree < 1 {
        return Ok(map[source := 1.0]);
      }
      var ranks := PersonalLoop(source, labelId, dir);
      return Ok(ranks);
    }

    /** The rounds of personalRank, from the source alone in the seeds of its direction. */
    method PersonalLoop(source: VertexId, labelId: LabelId, dir: Direction) returns (ranks: map<VertexId, real>)
      requires Consistent(graph, labelId) && dir != BOTH && graph.degree(source, dir, labelId) >= 1
      ensures ranks == PersonalRounds(labelId, source, PersonalStart(source, dir), Max(maxDepth, 0)).ranks
    {
      var outSeeds: set<VertexId> := {};
      var inSeeds: set<VertexId> := {};
      if dir == OUT {
        outSeeds := outSeeds + {source};
      } else {
        inSeeds := inSeeds + {source};
      }
      ranks := map[source := 1.0];
      ghost var start := PersonalStart(source, dir);
      assert PersonalState(outSeeds, inSeeds, ranks) == start;
      PersonalStartInv(labelId, source, dir);
      // the Java loop `while (++depth <= maxDepth)` runs max(maxDepth, 0) times
      var depth := 0;
      while depth < maxDepth
        invariant 0 <= depth <= Max(maxDepth, 0)
        invariant PersonalRounds(labelId, source, start, depth) == PersonalState(outSeeds, inSeeds, ranks)
      {
        PersonalRoundsInv(labelId, source, start, depth);
        outSeeds, inSeeds, ranks := PersonalStep(labelId, source, outSeeds, inSeeds, ranks);
        depth := depth + 1;
      }
    }

    /** The starting state meets the invariant when the source has an edge in its direction. */
    lemma PersonalStartInv(labelId: LabelId, source: VertexId, dir: Direction)
      requires dir != BOTH && graph.degree(source, dir, labelId) >= 1
      ensures PersonalInv(labelId, source, PersonalStart(source, dir))
    {
      var st := PersonalStart(source, dir);
      assert st.outSeeds - {source} == {} && st.inSeeds - {source} == {};
    }

    /** One pass of the personalRank loop: getIncrRanks, then compensateSourceVertex. */
    method PersonalStep(labelId: LabelId, source: VertexId, outSeeds: set<VertexId>, inSeeds: set<VertexId>,
                        ranks: map<VertexId, real>)
      returns (newOutSeeds: set<VertexId>, newInSeeds: set<VertexId>, newRanks: map<VertexId, real>)
      requires PersonalInv(labelId, source, PersonalState(outSeeds, inSeeds, ranks))
      ensures PersonalState(newOutSeeds, newInSeeds, newRanks)
           == PersonalRound(labelId, source, PersonalState(outSeeds, inSeeds, ranks))
    {
      var incrRanks;
      incrRanks, newOutSeeds, newInSeeds := GetIncrRanksBoth(outSeeds, inSeeds, labelId, ranks);
      newRanks := CompensateSourceVertex(source, incrRanks);
    }

    /** The source always keeps a rank of at least 1 - alpha once a round has run. */
    lemma {:induction false} PersonalSourceRank(labelId: LabelId, source: VertexId, st: PersonalState, k: nat)
      requires 0.0 <= alpha <= 1.0 && forall v :: v in st.ranks ==> st.ranks[v] >= 0.0
      ensures forall v :: v in PersonalRounds(labelId, source, st, k).ranks ==> PersonalRounds(labelId, source, st, k).ranks[v] >= 0.0
      ensures k > 0 ==> PersonalRounds(labelId, source, st, k).ranks[source] >= 1.0 - alpha
      decreases k
    {
      if k > 0 {
        PersonalSourceRank(labelId, source, st, k - 1);
        var prev := PersonalRounds(labelId, source, st, k - 1);
        var incr := BothIncr(labelId, prev.ranks, prev.outSeeds, prev.inSeeds);
        forall n | n in incr ensures incr[n] >= 0.0 {
          IncrFromNonNegative(labelId, prev.ranks, OUT, prev.outSeeds, n);
          IncrFromNonNegative(labelId, prev.ranks, IN, prev.inSeeds, n);
        }
      }
    }

    /** personalRank's seed sets only grow from round to round. */
    lemma {:induction false} PersonalSeedsGrow(labelId: LabelId, source: VertexId, st: PersonalState, k: nat)
      ensures st.outSeeds <= PersonalRounds(labelId, source, st, k).outSeeds
      ensures st.inSeeds <= PersonalRounds(labelId, source, st, k).inSeeds
      decreases k
    {
      if k > 0 {
        PersonalSeedsGrow(labelId, source, st, k - 1);
      }
    }

    /** What a neighborRank round relies on: a single direction and ranked seeds of positive degree. */
    ghost predicate NeighborInv(labelId: LabelId, st: NeighborState)
    {
      st.dir != BOTH && Ready(labelId, st.ranks, st.seeds, st.dir)
    }

    /** One round of the neighborRank loop: the reached vertices become the seeds and the direction flips. */
    ghost function NeighborRound(labelId: LabelId, st: NeighborState): NeighborState
    {
      var incr := OneIncr(labelId, st.ranks, st.dir, st.seeds);
      NeighborState(incr.Keys, st.dir.Opposite(), Combined(st.seeds, st.ranks, incr))
    }

    /** Every seed read during a neighborRank round is ranked and has a positive degree. */
    lemma NeighborInvPreserved(labelId: LabelId, st: NeighborState)
      requires Consistent(graph, labelId) && NeighborInv(labelId, st)
      ensures NeighborInv(labelId, NeighborRound(labelId, st))
    {
      forall v | v in Neighbours(labelId, st.seeds, st.dir) ensures graph.degree(v, st.dir.Opposite(), labelId) >= 1 {
        ReachedHasDegree(labelId, st.seeds, st.dir, v);
      }
    }

    /** The state after k rounds of neighborRank. */
    ghost function NeighborRounds(labelId: LabelId, st: NeighborState, k: nat): NeighborState
      decreases k
    {
      if k == 0 then st else NeighborRound(labelId, NeighborRounds(labelId, st, k - 1))
    }

    /** The invariant holds after any number of neighborRank rounds. */
    lemma {:induction false} NeighborRoundsInv(labelId: LabelId, st: NeighborState, k: nat)
      requires Consistent(graph, labelId) && NeighborInv(labelId, st)
      ensures NeighborInv(labelId, NeighborRounds(labelId, st, k))
      decreases k
    {
      if k > 0 {
        NeighborRoundsInv(labelId, st, k - 1);
        NeighborInvPreserved(labelId, NeighborRounds(labelId, st, k - 1));
      }
    }

    /** One pass of the neighborRank loop: getIncrRanks, combineIncrement, then the reached vertices walk back. */
    method NeighborStep(labelId: LabelId, seeds: set<VertexId>, dir: Direction, ranks: map<VertexId, real>)
      returns (newSeeds: set<VertexId>, newDir: Direction, newRanks: map<VertexId, real>)
      requires NeighborInv(labelId, NeighborState(seeds, dir, ranks))
      ensures newSeeds == Neighbours(labelId, seeds, dir) && newDir == dir.Opposite()
      ensures NeighborState(newSeeds, newDir, newRanks) == NeighborRound(labelId, NeighborState(seeds, dir, ranks))
    {
      var incrRanks := GetIncrRanks(seeds, dir, labelId, ranks);
      newRanks := CombineIncrement(seeds, ranks, incrRanks);
      newSeeds := incrRanks.Keys;
      newDir := dir.Opposite();
    }

    /** With 0 <= alpha <= 1, neighborRank's ranks stay non-negative round after round. */
    lemma {:induction false} NeighborRanksNonNegative(labelId: LabelId, st: NeighborState, k: nat)
      requires 0.0 <= alpha <= 1.0 && forall v :: v in st.ranks ==> st.ranks[v] >= 0.0
      ensures forall v :: v in NeighborRounds(labelId, st, k).ranks ==> NeighborRounds(labelId, st, k).ranks[v] >= 0.0
      decreases k
    {
      if k > 0 {
        NeighborRanksNonNegative(labelId, st, k - 1);
        var prev := NeighborRounds(labelId, st, k - 1);
        var incr := OneIncr(labelId, prev.ranks, prev.dir, prev.seeds);
        forall n | n in incr ensures incr[n] >= 0.0 {
          IncrFromNonNegative(labelId, prev.ranks, prev.dir, prev.seeds, n);
        }
        var next := Combined(prev.seeds, prev.ranks, incr);
        forall v | v in next ensures next[v] >= 0.0 {
          var sum := GetOr(prev.ranks, v) + GetOr(incr, v);
          assert next[v] == Attenuated(sum, v in prev.seeds);
          AttenuatedNonNegative(sum, v in prev.seeds);
        }
      }
    }

    /**
     * neighborRank(source, labelId): {source: 1.0} when the source has no edge
     * of the label in its direction, otherwise the ranks after maxDepth rounds.
     */
    method NeighborRank(source: VertexId, el: EdgeLabel) returns (r: Result<map<VertexId, real>>)
      requires Consistent(graph, el.id)
      ensures StartDirection(graph.vertexLabel(source), el).Err? ==>
        r == Err(StartDirection(graph.vertexLabel(source), el).error)
      ensures var d := StartDirection(graph.vertexLabel(source), el);
        d.Ok? && graph.degree(source, d.value, el.id) < 1 ==> r == Ok(map[source := 1.0])
      ensures StartDirection(graph.vertexLabel(source), el).Ok? && maxDepth <= 0 ==> r == Ok(map[source := 1.0])
      ensures var d := StartDirection(graph.vertexLabel(source), el);
        d.Ok? && graph.degree(source, d.value, el.id) >= 1 ==>
        r == Ok(NeighborRounds(el.id, NeighborState({source}, d.value, map[source := 1.0]), Max(maxDepth, 0)).ranks)
    {
      var labelId := el.id;
      var d := StartDirection(graph.vertexLabel(source), el);
      if d.Err? {
        return Err(d.error);
      }
      var dir := d.value;
      var degree := graph.degree(source, dir, labelId);
      if degree < 1 {
        return Ok(map[source := 1.0]);
      }
      var ranks := NeighborLoop(source, labelId, dir);
      return Ok(ranks);
    }

    /** The rounds of neighborRank, from the source alone as the seed. */
    method NeighborLoop(source: VertexId, labelId: LabelId, dir: Direction) returns (ranks: map<VertexId, real>)
      requires Consistent(graph, labelId) && dir != BOTH && graph.degree(source, dir, labelId) >= 1
      ensures ranks == NeighborRounds(labelId, NeighborState({source}, dir, map[source := 1.0]), Max(maxDepth, 0)).ranks
    {
      var seeds := {source};
      ranks := map[source := 1.0];
      var walk := dir;
      ghost var start := NeighborState(seeds, walk, ranks);
      var depth := 0;
      while depth < maxDepth
        invariant 0 <= depth <= Max(maxDepth, 0)
        invariant NeighborRounds(labelId, start, depth) == NeighborState(seeds, walk, ranks)
      {
        NeighborRoundsInv(labelId, start, depth);
        seeds, walk, ranks := NeighborStep(labelId, seeds, walk, ranks);
        depth := depth + 1;
      }
    }
  }
}
