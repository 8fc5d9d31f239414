/** vllm/model_inspection.py: printing the numbered children of a module, grouped by structure. */
module ModuleInspection {
  import opened Options
  import opened RangeText
  import opened Sequences

  // ---- sorted(indices) ----------------------------------------------------------------

  predicate AtMost(a: int, b: int) {
    a <= b
  }

  function Sorted(indices: seq<int>): seq<int> {
    Sort(indices, AtMost)
  }

  lemma SortedSorts(indices: seq<int>)
    ensures Ordered(Sorted(indices), AtMost) && multiset(Sorted(indices)) == multiset(indices)
  {
    SortSorts(indices, AtMost);
  }

  // ---- _format_index_ranges ---------------------------------------------------------------

  /** Range `k` is an interval that does not continue the one before it. */
  ghost predicate TightAt(ranges: seq<Range>, k: nat)
    requires k < |ranges|
  {
    ranges[k].start <= ranges[k].end && (0 < k ==> ranges[k].start != ranges[k - 1].end + 1)
  }

  /** Every range is an interval, and no two neighbours could be one. */
  ghost predicate Tight(ranges: seq<Range>) {
    forall k: nat :: k < |ranges| ==> TightAt(ranges, k)
  }

  lemma TightSnoc(ranges: seq<Range>, r: Range)
    requires Tight(ranges) && r.start <= r.end
    requires ranges != [] ==> r.start != ranges[|ranges| - 1].end + 1
    ensures Tight(ranges + [r])
  {
    forall k: nat | k < |ranges| + 1 ensures TightAt(ranges + [r], k) {
      assert k < |ranges| ==> TightAt(ranges, k);
    }
  }

  lemma ExpandSnoc(ranges: seq<Range>, r: Range)
    ensures Expand(ranges + [r]) == Expand(ranges) + Interval(r.start, r.end)
  {
    assert (ranges + [r])[..|ranges|] == ranges;
  }

  lemma IntervalGrows(a: int, b: int)
    requires a <= b
    ensures Interval(a, b + 1) == Interval(a, b) + [b + 1]
  {
  }

  /** The ranges of a non-empty ascending list: an element that continues the last range joins it,
      any other starts its own. */
  function RangesOf(sorted: seq<int>): (ranges: seq<Range>)
    requires sorted != []
    ensures ranges != [] && ranges[|ranges| - 1].end == sorted[|sorted| - 1]
  {
    if |sorted| == 1 then [Range(sorted[0], sorted[0])]
    else Joined(RangesOf(sorted[..|sorted| - 1]), sorted[|sorted| - 1])
  }

  function Joined(ranges: seq<Range>, x: int): seq<Range>
    requires ranges != []
  {
    var last := ranges[|ranges| - 1];
    if x == last.end + 1 then ranges[..|ranges| - 1] + [Range(last.start, x)] else ranges + [Range(x, x)]
  }

  ghost predicate StandsFor(ranges: seq<Range>, sorted: seq<int>) {
    Expand(ranges) == sorted && Tight(ranges)
  }

  /** The ranges stand for exactly the listed indices, duplicates included, and none could be joined. */
  lemma {:induction false} RangesStandFor(sorted: seq<int>)
    requires sorted != []
    ensures StandsFor(RangesOf(sorted), sorted)
  {
    if |sorted| == 1 {
      SingleRange(sorted);
    } else {
      RangesStandFor(sorted[..|sorted| - 1]);
      OneMoreStandsFor(RangesOf(sorted[..|sorted| - 1]), sorted);
    }
  }

  lemma SingleRange(sorted: seq<int>)
    requires |sorted| == 1
    ensures StandsFor([Range(sorted[0], sorted[0])], sorted)
  {
    var r := Range(sorted[0], sorted[0]);
    assert [r][..0] == [] && sorted == [sorted[0]];
  }

  lemma OneMoreStandsFor(ranges: seq<Range>, sorted: seq<int>)
    requires ranges != [] && sorted != [] && StandsFor(ranges, sorted[..|sorted| - 1])
    ensures StandsFor(Joined(ranges, sorted[|sorted| - 1]), sorted)
  {
    JoinedStandsFor(ranges, sorted[|sorted| - 1]);
    assert sorted == sorted[..|sorted| - 1] + [sorted[|sorted| - 1]];
  }

  lemma JoinedStandsFor(ranges: seq<Range>, x: int)
    requires ranges != [] && Tight(ranges)
    ensures Expand(Joined(ranges, x)) == Expand(ranges) + [x] && Tight(Joined(ranges, x))
  {
    var before, last := ranges[..|ranges| - 1], ranges[|ranges| - 1];
    assert TightAt(ranges, |ranges| - 1);
    if x == last.end + 1 {
      assert before + [last] == ranges;
      LastGrows(before, last);
    } else {
      TightSnoc(ranges, Range(x, x));
      ExpandSnoc(ranges, Range(x, x));
      assert Interval(x, x) == [x];
    }
  }

  lemma LastGrows(before: seq<Range>, last: Range)
    requires Tight(before + [last])
    ensures var longer := Range(last.start, last.end + 1);
      Tight(before + [longer]) && Expand(before + [longer]) == Expand(before + [last]) + [last.end + 1]
  {
    var longer := Range(last.start, last.end + 1);
    assert TightAt(before + [last], |before|);
    forall k: nat | k < |before| ensures TightAt(before, k) {
      assert TightAt(before + [last], k);
    }
    TightSnoc(before, longer);
    ExpandSnoc(before, last);
    ExpandSnoc(before, longer);
    IntervalGrows(last.start, last.end);
  }

  /** No other list of ranges does the same: any tight one is made again from its own indices. */
  lemma {:induction false} RangesAreUnique(ranges: seq<Range>)
    requires ranges != [] && Tight(ranges)
    ensures Expand(ranges) != [] && RangesOf(Expand(ranges)) == ranges
  {
    var before, r := ranges[..|ranges| - 1], ranges[|ranges| - 1];
    assert TightAt(ranges, |ranges| - 1) && ranges == before + [r];
    if before == [] {
      assert Expand(before) + [r.start] == [r.start];
    } else {
      forall k: nat | k < |before| ensures TightAt(before, k) {
        assert TightAt(ranges, k);
      }
      RangesAreUnique(before);
      assert (Expand(before) + [r.start])[..|Expand(before)|] == Expand(before);
    }
    IntervalExtends(Expand(before), before, r.start, r.end);
  }

  lemma {:induction false} IntervalExtends(expanded: seq<int>, before: seq<Range>, a: int, b: int)
    requires a <= b && RangesOf(expanded + [a]) == before + [Range(a, a)]
    ensures expanded + Interval(a, b) != [] && RangesOf(expanded + Interval(a, b)) == before + [Range(a, b)]
    decreases b - a
  {
    if a == b {
      assert Interval(a, a) == [a];
    } else {
      IntervalExtends(expanded, before, a, b - 1);
      OneMoreJoins(expanded + Interval(a, b - 1), before, a, b);
      IntervalGrows(a, b - 1);
      assert expanded + Interval(a, b) == expanded + Interval(a, b - 1) + [b];
    }
  }

  lemma OneMoreJoins(sorted: seq<int>, before: seq<Range>, a: int, b: int)
    requires sorted != [] && RangesOf(sorted) == before + [Range(a, b - 1)]
    ensures RangesOf(sorted + [b]) == before + [Range(a, b)]
  {
    assert (sorted + [b])[..|sorted|] == sorted;
    assert (before + [Range(a, b - 1)])[..|before|] == before;
  }

  lemma NextIndex(sorted: seq<int>, i: nat, ranges: seq<Range>, start: int, end: int)
    requires 0 < i < |sorted| && RangesOf(sorted[..i]) == ranges + [Range(start, end)]
    ensures var x := sorted[i];
      RangesOf(sorted[..i + 1]) == if x == end + 1 then ranges + [Range(start, x)]
                                   else ranges + [Range(start, end)] + [Range(x, x)]
  {
    assert sorted[..i + 1][..i] == sorted[..i];
    assert (ranges + [Range(start, end)])[..|ranges|] == ranges;
  }

  /** The loop of `_format_index_ranges` over the sorted indices. */
  method CollectRanges(sorted: seq<int>) returns (pieces: seq<string>)
    requires sorted != []
    ensures pieces == PrintAll(RangesOf(sorted))
  {
    pieces := [];
    ghost var ranges: seq<Range> := [];
    var start, end := sorted[0], sorted[0];
    for i := 1 to |sorted|
      invariant pieces == PrintAll(ranges) && RangesOf(sorted[..i]) == ranges + [Range(start, end)]
    {
      var idx := sorted[i];
      NextIndex(sorted, i, ranges, start, end);
      if idx == end + 1 {
        end := idx;
      } else {
        PrintAllSnoc(ranges, Range(start, end));
        pieces := pieces + [PrintRange(Range(start, end))];
        ranges := ranges + [Range(start, end)];
        start, end := idx, idx;
      }
    }
    PrintAllSnoc(ranges, Range(start, end));
    assert sorted[..|sorted|] == sorted;
    pieces := pieces + [PrintRange(Range(start, end))];
  }

  /** The printed text: it prints the ranges of the sorted indices, and when no index is negative
      it reads back as ranges that expand to exactly the sorted indices, none of which could be joined. */
  method FormatIndexRanges(indices: seq<int>) returns (text: string)
    requires indices != []
    ensures Sorted(indices) != [] && text == Print(RangesOf(Sorted(indices)))
    ensures (forall k :: 0 <= k < |indices| ==> 0 <= indices[k]) ==>
              Parse(text).Some? && Expand(Parse(text).value) == Sorted(indices) && Tight(Parse(text).value)
  {
    SortedSorts(indices);
    assert indices[0] in multiset(Sorted(indices));
    var pieces := CollectRanges(Sorted(indices));
    text := Join(pieces);
    RangesStandFor(Sorted(indices));
    if forall k :: 0 <= k < |indices| ==> 0 <= indices[k] {
      NonNegativeReadsBack(indices, RangesOf(Sorted(indices)));
    }
  }

  lemma NonNegativeReadsBack(indices: seq<int>, ranges: seq<Range>)
    requires ranges != [] && Expand(ranges) == Sorted(indices) && Tight(ranges)
    requires forall k :: 0 <= k < |indices| ==> 0 <= indices[k]
    ensures Parse(Print(ranges)) == Some(ranges)
  {
    SortedSorts(indices);
    forall k: nat | k < |ranges| ensures ranges[k].start <= ranges[k].end {
      assert TightAt(ranges, k);
    }
    EndsAreIndices(ranges, Sorted(indices));
    forall k | 0 <= k < |ranges| ensures 0 <= ranges[k].start && 0 <= ranges[k].end {
      assert ranges[k].start in multiset(Sorted(indices));
      assert ranges[k].start in indices;
    }
    PrintParses(ranges);
  }

  lemma {:induction false} EndsAreIndices(ranges: seq<Range>, expanded: seq<int>)
    requires Expand(ranges) == expanded && forall k :: 0 <= k < |ranges| ==> ranges[k].start <= ranges[k].end
    ensures forall k :: 0 <= k < |ranges| ==> ranges[k].start in expanded
  {
    if ranges != [] {
      var before, r := ranges[..|ranges| - 1], ranges[|ranges| - 1];
      EndsAreIndices(before, Expand(before));
      assert Interval(r.start, r.end)[0] == r.start;
      assert expanded[|Expand(before)|] == r.start;
      forall k | 0 <= k < |ranges| - 1 ensures ranges[k].start in expanded {
        assert ranges[k] == before[k] && before[k].start in Expand(before);
      }
    }
  }
}
