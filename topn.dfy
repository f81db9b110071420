/**
 * CustomizePathTraverser.topNPath: sorts weighted paths in place by their
 * total weight (ascending when incr, descending otherwise) and keeps the
 * first limit of them.
 */
module TopN {
  import opened Base
  import opened Nodes

  ghost predicate AllWeighted(s: seq<Path>)
  {
    forall i :: 0 <= i < |s| ==> s[i].WeightPath?
  }

  /** p may come before q: the comparator of topNPath does not put q first. */
  predicate NoWorse(p: Path, q: Path, incr: bool)
  {
    p.WeightPath? && q.WeightPath?
    && if incr then p.totalWeight <= q.totalWeight else p.totalWeight >= q.totalWeight
  }

  ghost predicate Ordered(s: seq<Path>, incr: bool)
  {
    forall i, j :: 0 <= i < j < |s| ==> NoWorse(s[i], s[j], incr)
  }

  /**
   * output is k of the input's paths in order, each no worse than every path
   * left out.
   */
  ghost predicate IsTopK(input: seq<Path>, incr: bool, k: int, output: seq<Path>)
  {
    0 <= k <= |input| && |output| == k && multiset(output) <= multiset(input) && Ordered(output, incr)
    && forall p, q :: p in output && q in multiset(input) - multiset(output) ==> NoWorse(p, q, incr)
  }

  /**
   * The reference definition of topNPath's result: the input when there is
   * no limit or it already fits, otherwise its top limit paths.
   */
  ghost predicate IsTopN(input: seq<Path>, incr: bool, limit: int, output: seq<Path>)
  {
    if limit == NO_LIMIT || |input| <= limit then output == input else IsTopK(input, incr, limit, output)
  }

  /** Swapping two paths keeps the multiset of the array. */
  method Swap(a: array<Path>, i: int, j: int)
    requires 0 <= i < a.Length && 0 <= j < a.Length
    modifies a
    ensures a[..] == old(a[..])[i := old(a[j])][j := old(a[i])]
    ensures multiset(a[..]) == old(multiset(a[..]))
  {
    a[i], a[j] := a[j], a[i];
  }

  /** paths.sort(comparator): an insertion sort by adjacent swaps. */
  method SortPaths(a: array<Path>, incr: bool)
    requires AllWeighted(a[..])
    modifies a
    ensures multiset(a[..]) == old(multiset(a[..]))
    ensures AllWeighted(a[..]) && Ordered(a[..], incr)
  {
    var i := 0;
    while i < a.Length
      invariant 0 <= i <= a.Length
      invariant multiset(a[..]) == old(multiset(a[..]))
      invariant AllWeighted(a[..])
      invariant forall x, y :: 0 <= x < y < i ==> NoWorse(a[x], a[y], incr)
    {
      var j := i;
      while j > 0 && !NoWorse(a[j - 1], a[j], incr)
        invariant 0 <= j <= i
        invariant multiset(a[..]) == old(multiset(a[..]))
        invariant AllWeighted(a[..])
        invariant forall x, y :: 0 <= x < y <= i && x != j && y != j ==> NoWorse(a[x], a[y], incr)
        invariant forall y :: j < y <= i ==> NoWorse(a[j], a[y], incr)
      {
        Swap(a, j - 1, j);
        j := j - 1;
      }
      i := i + 1;
    }
  }

  /**
   * topNPath(paths, incr, limit): the list unchanged when limit is NO_LIMIT
   * or the list fits, otherwise the list sorted in place and
   * subList(0, (int) limit). A limit below NO_LIMIT reaches subList through
   * the cast: a negative bound fails the fromIndex <= toIndex check, a bound
   * past the list fails the toIndex <= size check, and any other bound takes
   * that many paths.
   */
  method TopNPath(paths: array<Path>, incr: bool, limit: int) returns (r: Result<seq<Path>>)
    requires AllWeighted(paths[..])
    modifies paths
    ensures limit >= NO_LIMIT ==> r.Ok? && IsTopN(old(paths[..]), incr, limit, r.value)
    ensures limit < NO_LIMIT ==>
      var k := IntCast(limit);
      (r.Err? <==> k < 0 || k > paths.Length)
      && (k < 0 ==> r == Err(IllegalArgument("fromIndex(%s) > toIndex(%s)")))
      && (k > paths.Length ==> r == Err(IndexOutOfBounds))
      && (r.Ok? ==> IsTopK(old(paths[..]), incr, k, r.value))
    ensures limit == NO_LIMIT || paths.Length <= limit ==> paths[..] == old(paths[..])
    ensures multiset(paths[..]) == old(multiset(paths[..]))
  {
    if limit == NO_LIMIT || paths.Length <= limit {
      return Ok(paths[..]);
    }
    SortPaths(paths, incr);
    // A non-negative limit is below the list's size here, which Java keeps
    // within int, so only a negative limit is changed by the cast.
    var k := if limit >= 0 then limit else IntCast(limit);
    if k > paths.Length {
      return Err(IndexOutOfBounds);
    }
    if k < 0 {
      return Err(IllegalArgument("fromIndex(%s) > toIndex(%s)"));
    }
    SortedPrefixIsTopK(old(paths[..]), paths[..], incr, k);
    r := Ok(paths[..k]);
  }

  /** The first k paths of a sorted permutation of the input are its top k paths. */
  lemma SortedPrefixIsTopK(input: seq<Path>, sorted: seq<Path>, incr: bool, k: int)
    requires multiset(sorted) == multiset(input) && Ordered(sorted, incr) && 0 <= k <= |sorted|
    ensures IsTopK(input, incr, k, sorted[..k])
  {
    assert |input| == |multiset(input)| == |sorted|;
    var kept, dropped := sorted[..k], sorted[k..];
    assert sorted == kept + dropped;
    assert multiset(input) - multiset(kept) == multiset(dropped);
    forall p, q | p in kept && q in multiset(input) - multiset(kept) ensures NoWorse(p, q, incr) {
      var x :| 0 <= x < k && kept[x] == p;
      var y :| 0 <= y < |dropped| && dropped[y] == q;
      assert sorted[x] == p && sorted[k + y] == q;
    }
  }

  /** Choosing the top paths again from a chosen result changes nothing. */
  lemma IsTopNIdempotent(input: seq<Path>, incr: bool, limit: int, output: seq<Path>)
    requires IsTopN(input, incr, limit, output)
    ensures IsTopN(output, incr, limit, output)
  {
  }

  /** The chosen paths are a sub-multiset of the input and at most limit of them. */
  lemma IsTopNBounds(input: seq<Path>, incr: bool, limit: int, output: seq<Path>)
    requires AllWeighted(input) && IsTopN(input, incr, limit, output)
    ensures multiset(output) <= multiset(input)
    ensures limit != NO_LIMIT ==> |output| <= Max(limit, 0)
    ensures AllWeighted(output)
  {
    forall i | 0 <= i < |output| ensures output[i].WeightPath? {
      assert output[i] in multiset(input);
    }
  }

  /**
   * Two weighted paths A-B of weight 1 and A-C of weight 2, sorted in
   * decreasing order with limit 1: the only admissible result is [A-C].
   */
  lemma HeaviestFirst()
    ensures var ab := WeightPath([1, 2], [1.0], 1.0);
            var ac := WeightPath([1, 3], [2.0], 2.0);
            forall out :: IsTopN([ab, ac], false, 1, out) ==> out == [ac]
  {
    var ab := WeightPath([1, 2], [1.0], 1.0);
    var ac := WeightPath([1, 3], [2.0], 2.0);
    forall out | IsTopN([ab, ac], false, 1, out) ensures out == [ac] {
      assert out == [out[0]];
      assert out[0] in multiset([ab, ac]);
      assert out[0] == ab ==> ac in multiset([ab, ac]) - multiset(out);
      assert out[0] == ab ==> !NoWorse(out[0], ac, false);
    }
  }
}
