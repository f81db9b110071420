/**
 * CustomizePathTraverser.sample and randomSet: a random subset of a vertex's
 * candidate nodes, chosen by drawing distinct indices.
 */
module Sampling {
  import opened Base

  /** The integers in [min, max). */
  function Range(min: int, max: int): (r: set<int>)
    ensures forall x :: x in r <==> min <= x < max
    decreases max - min
  {
    if max <= min then {} else Range(min, max - 1) + {max - 1}
  }

  lemma {:induction false} RangeSize(min: int, max: int)
    requires min <= max
    ensures |Range(min, max)| == max - min
    decreases max - min
  {
    if min < max {
      RangeSize(min, max - 1);
    }
  }

  lemma {:induction false} SubsetSize(s: set<int>, t: set<int>)
    requires s <= t
    ensures |s| <= |t|
    decreases t
  {
    if s != {} {
      PickFrom(s);
      var x :| x in s;
      SubsetSize(s - {x}, t - {x});
    }
  }

  /** While fewer than max - min values are drawn, an undrawn value is left. */
  lemma NotAllDrawn(drawn: set<int>, min: int, max: int)
    requires min <= max && drawn <= Range(min, max) && |drawn| < max - min
    ensures exists x :: min <= x < max && x !in drawn
  {
    RangeSize(min, max);
    if forall x :: min <= x < max ==> x in drawn {
      SubsetSize(Range(min, max), drawn);
    }
  }

  /** The guard at the head of randomSet, as written. */
  predicate RejectsAsWritten(min: int, max: int, count: int)
  {
    max < min || count > max - min + 1
  }

  /** The guard randomSet needs: [min, max) holds only max - min distinct values. */
  predicate Rejects(min: int, max: int, count: int)
  {
    max < min || count > max - min
  }

  /**
   * The guard as written lets count == max - min + 1 through, and no set of
   * that many values fits in [min, max). When min < max the draw loop can
   * never stop; when min == max its first draw, nextInt(min, min), throws.
   */
  lemma RejectsAsWrittenAdmitsEndlessDraw(min: int, max: int)
    requires min <= max
    ensures !RejectsAsWritten(min, max, max - min + 1)
    ensures forall s :: s <= Range(min, max) ==> |s| < max - min + 1
  {
    RangeSize(min, max);
    forall s | s <= Range(min, max) ensures |s| < max - min + 1 {
      SubsetSize(s, Range(min, max));
    }
  }

  /** randomSet(0, 1, 2) gets past the guard as written, yet only 0 can ever be drawn. */
  lemma RandomSetZeroOneTwoNeverFinishes()
    ensures !RejectsAsWritten(0, 1, 2) && Rejects(0, 1, 2)
    ensures forall s :: s <= Range(0, 1) ==> |s| < 2
  {
    RejectsAsWrittenAdmitsEndlessDraw(0, 1);
  }

  /**
   * randomSet(min, max, count) with the corrected guard: the empty set when
   * the range cannot hold count values, otherwise count distinct values drawn
   * from [min, max). Each iteration stands for the draws up to the next
   * value not yet drawn; a repeated draw leaves the set as it was.
   */
  method RandomSet(min: int, max: int, count: int) returns (randoms: set<int>)
    ensures Rejects(min, max, count) ==> randoms == {}
    ensures !Rejects(min, max, count) ==> |randoms| == Max(count, 0) && randoms <= Range(min, max)
  {
    if Rejects(min, max, count) {
      return {};
    }
    randoms := {};
    while |randoms| < count
      invariant randoms <= Range(min, max) && |randoms| <= Max(count, 0)
      decreases count - |randoms|
    {
      NotAllDrawn(randoms, min, max);
      var x :| min <= x < max && x !in randoms;
      randoms := randoms + {x};
    }
  }

  /** The elements of s at the positions listed in idx, in that order. */
  ghost predicate Indexes<T>(s: seq<T>, idx: seq<int>)
  {
    forall j :: 0 <= j < |idx| ==> 0 <= idx[j] < |s|
  }

  ghost function Gather<T>(s: seq<T>, idx: seq<int>): (r: seq<T>)
    requires Indexes(s, idx)
    ensures |r| == |idx|
  {
    seq(|idx|, j requires 0 <= j < |idx| => s[idx[j]])
  }

  /** Dropping position p keeps the remaining indices distinct. */
  lemma DropIndex(idx: seq<int>, p: int)
    requires 0 <= p < |idx| && NoRepeat(idx)
    ensures var rest := idx[..p] + idx[p + 1..];
      NoRepeat(rest) && forall j :: 0 <= j < |rest| ==> rest[j] in idx && rest[j] != idx[p]
  {
    var rest := idx[..p] + idx[p + 1..];
    forall j | 0 <= j < |rest| ensures rest[j] == idx[if j < p then j else j + 1] {
    }
  }

  /** Gathering at idx is gathering around position p, with that element in the middle. */
  lemma GatherSplit<T>(s: seq<T>, idx: seq<int>, p: int)
    requires Indexes(s, idx) && 0 <= p < |idx|
    ensures Indexes(s, idx[..p] + idx[p + 1..])
    ensures multiset(Gather(s, idx)) == multiset(Gather(s, idx[..p] + idx[p + 1..])) + multiset{s[idx[p]]}
  {
    var g := Gather(s, idx);
    var rest := idx[..p] + idx[p + 1..];
    assert g == g[..p] + [s[idx[p]]] + g[p + 1..];
    assert g[..p] + g[p + 1..] == Gather(s, rest);
  }

  /** Gathering from a prefix that holds every listed position. */
  lemma GatherPrefix<T>(s: seq<T>, idx: seq<int>, n: int)
    requires 0 <= n <= |s| && forall j :: 0 <= j < |idx| ==> 0 <= idx[j] < n
    ensures Indexes(s, idx) && Indexes(s[..n], idx) && Gather(s, idx) == Gather(s[..n], idx)
  {
  }

  /** Elements taken at pairwise-distinct positions form a sub-multiset. */
  lemma {:induction false} GatherSub<T>(s: seq<T>, idx: seq<int>)
    requires Indexes(s, idx) && NoRepeat(idx)
    ensures multiset(Gather(s, idx)) <= multiset(s)
    decreases |s|
  {
    if |idx| == 0 {
      return;
    }
    assert 0 <= idx[0] < |s|;
    var n := |s| - 1;
    assert s == s[..n] + [s[n]];
    if p :| 0 <= p < |idx| && idx[p] == n {
      var rest := idx[..p] + idx[p + 1..];
      DropIndex(idx, p);
      GatherSplit(s, idx, p);
      GatherPrefix(s, rest, n);
      GatherSub(s[..n], rest);
    } else {
      GatherPrefix(s, idx, n);
      GatherSub(s[..n], idx);
    }
  }

  /**
   * sample(nodes, k): the list itself when it has at most k entries,
   * otherwise the entries at k distinct random positions.
   */
  method Sample<T(==)>(nodes: seq<T>, sample: int) returns (result: seq<T>)
    requires sample > 0
    ensures |nodes| <= sample ==> result == nodes
    ensures |nodes| > sample ==> |result| == sample && multiset(result) <= multiset(nodes)
  {
    if |nodes| <= sample {
      return nodes;
    }
    // sample < |nodes|, so the int cast of the Java code keeps the value
    var indices := RandomSet(0, |nodes|, sample);
    result := [];
    ghost var taken: seq<int> := [];
    var remaining := indices;
    while remaining != {}
      invariant remaining <= indices
      invariant forall j :: 0 <= j < |taken| ==> taken[j] in indices && taken[j] !in remaining
      invariant |taken| + |remaining| == |indices|
      invariant NoRepeat(taken)
      invariant Indexes(nodes, taken) && result == Gather(nodes, taken)
      decreases remaining
    {
      var random :| random in remaining;
      result := result + [nodes[random]];
      taken := taken + [random];
      remaining := remaining - {random};
    }
    GatherSub(nodes, taken);
  }
}
