/** vllm/logprobs.py: log-probabilities of many positions flattened into parallel lists. */
module FlatView {
  import opened Options

  datatype Logprob = Logprob(logprob: real, rank: Option<int>, decoded: Option<string>)

  /** One flattened slot: a token and its log-probability. */
  datatype Entry = Entry(token: int, info: Logprob)

  type OnePosition = map<int, Logprob>

  /** A dictionary built from entries in order: the last entry of a token wins. */
  function DictOf(entries: seq<Entry>): OnePosition {
    if entries == [] then map[]
    else DictOf(entries[..|entries| - 1])[entries[|entries| - 1].token := entries[|entries| - 1].info]
  }

  /** The value of the container's fields, with the four parallel lists zipped. */
  datatype Flat = Flat(starts: seq<int>, ends: seq<int>, entries: seq<Entry>)

  /** Positions are stored in order without overlap; gaps between them are allowed. */
  ghost predicate Valid(f: Flat) {
    && |f.starts| == |f.ends|
    && (forall i :: 0 <= i < |f.starts| ==> 0 <= f.starts[i] <= f.ends[i] <= |f.entries|)
    && (forall i, j :: 0 <= i < j < |f.starts| ==> f.ends[i] <= f.starts[j])
  }

  ghost function EntriesAt(f: Flat, k: nat): seq<Entry>
    requires Valid(f) && k < |f.starts|
  {
    f.entries[f.starts[k]..f.ends[k]]
  }

  /** What reading position `k` yields. */
  ghost function At(f: Flat, k: nat): OnePosition
    requires Valid(f) && k < |f.starts|
  {
    DictOf(EntriesAt(f, k))
  }

  /** The container as the list of dictionaries it stands for. */
  ghost function View(f: Flat): (v: seq<OnePosition>)
    requires Valid(f)
    ensures |v| == |f.starts|
  {
    seq(|f.starts|, k requires 0 <= k < |f.starts| => At(f, k))
  }

  // ---- appending ------------------------------------------------------------

  function Appended(f: Flat, items: seq<Entry>): Flat {
    Flat(f.starts + [|f.entries|], f.ends + [|f.entries| + |items|], f.entries + items)
  }

  /** Appending adds exactly one position and disturbs none. */
  lemma AppendExtendsView(f: Flat, items: seq<Entry>)
    requires Valid(f)
    ensures Valid(Appended(f, items))
    ensures View(Appended(f, items)) == View(f) + [DictOf(items)]
  {
    var g := Appended(f, items);
    assert Valid(g);
    forall k | 0 <= k < |f.starts| ensures At(g, k) == At(f, k) {
      assert EntriesAt(g, k) == EntriesAt(f, k);
    }
    assert EntriesAt(g, |f.starts|) == items;
  }

  // ---- slicing ---------------------------------------------------------------

  /** The positions a slice selects: `count` of them from `first`, `step` apart. */
  ghost predicate Selects(n: nat, first: nat, step: int, count: nat) {
    0 < count && first < n && 0 <= first + (count - 1) * step < n
  }

  function Selected(first: nat, step: int, j: nat): int {
    first + j * step
  }

  lemma SelectedInside(n: nat, first: nat, step: int, count: nat, j: nat)
    requires Selects(n, first, step, count) && j < count
    ensures 0 <= Selected(first, step, j) < n
  {
    if step >= 0 {
      MulUpTo(j, count - 1, step);
    } else {
      MulUpTo(j, count - 1, -step);
      assert j * step == -(j * -step) && (count - 1) * step == -((count - 1) * -step);
    }
  }

  lemma MulUpTo(a: nat, b: nat, m: nat)
    requires a <= b
    ensures 0 <= a * m <= b * m
  {
  }

  lemma SelectedApart(first: nat, step: int, i: nat, j: nat)
    requires i < j
    ensures 0 < step ==> Selected(first, step, i) < Selected(first, step, j)
    ensures step < 0 ==> Selected(first, step, j) < Selected(first, step, i)
  {
    assert j * step == i * step + (j - i) * step;
    if 0 < step {
      MulUpTo(1, j - i, step);
    } else if step < 0 {
      MulUpTo(1, j - i, -step);
      assert (j - i) * step == -((j - i) * -step);
    }
  }

  /** The arguments of a Python slice, and what it normalises to on a list of `n` elements. */
  datatype Slice = Slice(start: Option<int>, stop: Option<int>, step: Option<int>)

  function StepOf(s: Slice): int {
    if s.step.None? then 1 else s.step.value
  }

  function Clip(i: int, n: nat, low: int, high: int): int {
    var j := if i < 0 then i + n else i;
    if j < low then low else if high < j then high else j
  }

  function FirstOf(s: Slice, n: nat): int {
    if 0 < StepOf(s) then (if s.start.None? then 0 else Clip(s.start.value, n, 0, n))
    else (if s.start.None? then n - 1 else Clip(s.start.value, n, -1, n - 1))
  }

  function StopOf(s: Slice, n: nat): int {
    if 0 < StepOf(s) then (if s.stop.None? then n else Clip(s.stop.value, n, 0, n))
    else (if s.stop.None? then -1 else Clip(s.stop.value, n, -1, n - 1))
  }

  function CountOf(s: Slice, n: nat): nat
    requires StepOf(s) != 0
  {
    var step, first, stop := StepOf(s), FirstOf(s, n), StopOf(s, n);
    if 0 < step && first < stop then (stop - first - 1) / step + 1
    else if step < 0 && stop < first then (first - stop - 1) / -step + 1
    else 0
  }

  /** Normalising a slice selects positions of the list, or none at all. */
  lemma SliceSelects(s: Slice, n: nat)
    requires StepOf(s) != 0 && CountOf(s, n) != 0
    ensures 0 <= FirstOf(s, n) && Selects(n, FirstOf(s, n), StepOf(s), CountOf(s, n))
  {
    var step, first, stop := StepOf(s), FirstOf(s, n), StopOf(s, n);
    if 0 < step {
      SpanFits(stop - first - 1, step);
    } else {
      SpanFits(first - stop - 1, -step);
      NegatedProduct(CountOf(s, n) - 1, step);
    }
  }

  lemma SpanFits(span: nat, step: nat)
    requires 0 < step
    ensures 0 <= (span / step + 1 - 1) * step <= span
  {
    DivideBelow(span, step);
  }

  lemma NegatedProduct(a: int, b: int)
    ensures a * b == -(a * -b)
  {
  }

  lemma DivideBelow(x: nat, d: nat)
    requires 0 < d
    ensures 0 <= x / d * d <= x
  {
    assert x == x / d * d + x % d;
  }

  /** Where an index of a list of `n` elements points: a negative one counts from the end. */
  function Wrapped(i: int, n: nat): int {
    if i < 0 then i + n else i
  }

  /** The slice goes up: its step is absent or positive. */
  ghost predicate GoesUp(s: Slice) {
    s.step.None? || 0 < s.step.value
  }

  /** How far apart the slice selects. */
  ghost function Stride(s: Slice): int {
    if s.step.None? then 1 else if 0 < s.step.value then s.step.value else -s.step.value
  }

  /** Position `k` lies between the bounds of the slice: not before the start and before the stop, in the
      direction the slice goes. A bound that is absent excludes nothing, nor does one outside the list. */
  ghost predicate InBounds(s: Slice, n: nat, k: int) {
    && 0 <= k < n
    && (s.start.Some? ==> if GoesUp(s) then Wrapped(s.start.value, n) <= k else k <= Wrapped(s.start.value, n))
    && (s.stop.Some? ==> if GoesUp(s) then k < Wrapped(s.stop.value, n) else Wrapped(s.stop.value, n) < k)
  }

  /** Position `k` is one of the first `count` that lie a whole number of steps from `first`. */
  ghost predicate IsSelected(first: nat, step: int, count: nat, k: int) {
    exists j: nat :: j < count && Selected(first, step, j) == k
  }

  ghost predicate OnGrid(first: nat, step: int, k: int) {
    exists j: nat :: Selected(first, step, j) == k
  }

  /** `first` lies within the bounds, and nothing within them comes before it. */
  ghost predicate IsFirst(s: Slice, n: nat, first: int) {
    InBounds(s, n, first) && forall k :: InBounds(s, n, k) ==> if GoesUp(s) then first <= k else k <= first
  }

  /** A slice selects the first position within its bounds and, from there, every one within them that is
      a whole number of strides away; it selects none exactly if there is none within its bounds. */
  lemma SliceSelectsExactly(s: Slice, n: nat)
    requires s.step != Some(0)
    ensures CountOf(s, n) == 0 <==> forall k :: !InBounds(s, n, k)
    ensures StepOf(s) == if GoesUp(s) then Stride(s) else -Stride(s)
    ensures CountOf(s, n) != 0 ==>
              && IsFirst(s, n, FirstOf(s, n))
              && forall k :: IsSelected(FirstOf(s, n), StepOf(s), CountOf(s, n), k)
                        <==> InBounds(s, n, k) && OnGrid(FirstOf(s, n), StepOf(s), k)
  {
    var step, first, stop, count := StepOf(s), FirstOf(s, n), StopOf(s, n), CountOf(s, n);
    forall k ensures InBounds(s, n, k) <==> if 0 < step then first <= k < stop else stop < k <= first {
    }
    CountIsZero(s, n);
    if count == 0 {
      forall k ensures !InBounds(s, n, k) {
      }
    } else {
      assert InBounds(s, n, first);
      forall j: nat ensures j < count <==> InBounds(s, n, Selected(first, step, j)) {
        CountedInBounds(first, stop, step, count, j);
      }
      forall k ensures IsSelected(first, step, count, k) <==> InBounds(s, n, k) && OnGrid(first, step, k) {
        if InBounds(s, n, k) && OnGrid(first, step, k) {
          var j: nat :| Selected(first, step, j) == k;
          assert j < count;
        }
      }
    }
  }

  lemma CountIsZero(s: Slice, n: nat)
    requires StepOf(s) != 0
    ensures CountOf(s, n) == 0 <==> if 0 < StepOf(s) then StopOf(s, n) <= FirstOf(s, n) else FirstOf(s, n) <= StopOf(s, n)
  {
    var step, first, stop := StepOf(s), FirstOf(s, n), StopOf(s, n);
    if 0 < step && first < stop {
      DivideBelow(stop - first - 1, step);
    } else if step < 0 && stop < first {
      DivideBelow(first - stop - 1, -step);
    }
  }

  lemma CountedInBounds(first: nat, stop: int, step: int, count: nat, j: nat)
    requires step != 0 && if 0 < step then first < stop else stop < first
    requires count == if 0 < step then (stop - first - 1) / step + 1 else (first - stop - 1) / -step + 1
    ensures j < count
       <==> if 0 < step then first <= Selected(first, step, j) < stop else stop < Selected(first, step, j) <= first
  {
    if 0 < step {
      StepsWithin(stop - first - 1, step, j);
    } else {
      StepsWithin(first - stop - 1, -step, j);
      NegatedProduct(j, step);
    }
  }

  lemma StepsWithin(span: nat, step: nat, j: nat)
    requires 0 < step
    ensures 0 <= j * step && (j < span / step + 1 <==> j * step <= span)
  {
    MulUpTo(0, j, step);
    assert span == span / step * step + span % step;
    if j <= span / step {
      MulUpTo(j, span / step, step);
    } else {
      MulUpTo(span / step + 1, j, step);
      Distribute(span / step, step);
    }
  }

  lemma Distribute(q: int, step: int)
    ensures (q + 1) * step == q * step + step
  {
  }

  /** A stretch `[a:b]` of the container reads as that stretch of the list it stands for. */
  lemma StretchReadsAsView(f: Flat, a: nat, b: nat, s: Slice)
    requires Valid(f) && a < b <= |f.starts| && s == Slice(Some(a), Some(b), None)
    ensures var n := |f.starts|; CountOf(s, n) == b - a && Selects(n, a, 1, b - a) && FirstOf(s, n) == a
    ensures Valid(Sliced(f, a, 1, b - a)) && View(Sliced(f, a, 1, b - a)) == View(f)[a..b]
  {
    SliceReadsSelected(f, a, 1, b - a);
  }

  /** A Python list slice that selects these positions. */
  function Picked(xs: seq<int>, first: nat, step: int, count: nat): (r: seq<int>)
    requires Selects(|xs|, first, step, count)
    ensures |r| == count
  {
    SelectedAreInside(|xs|, first, step, count);
    seq(count, j requires 0 <= j < count => xs[Selected(first, step, j)])
  }

  function Shifted(xs: seq<int>, low: int): (r: seq<int>)
    ensures |r| == |xs| && forall j :: 0 <= j < |xs| ==> r[j] == xs[j] - low
  {
    seq(|xs|, j requires 0 <= j < |xs| => xs[j] - low)
  }

  /** `FlatLogprobs.__getitem__` on a slice: indices shifted down by the first start, and the
      stretch of entries between the first start and the last end. */
  function Sliced(f: Flat, first: nat, step: int, count: nat): Flat
    requires |f.starts| == |f.ends| && Selects(|f.starts|, first, step, count)
  {
    var starts, ends := Picked(f.starts, first, step, count), Picked(f.ends, first, step, count);
    Flat(Shifted(starts, starts[0]), Shifted(ends, starts[0]), Stretch(f.entries, starts[0], ends[count - 1]))
  }

  /** Python's `entries[low:high]` for bounds that are not negative. */
  function Stretch(entries: seq<Entry>, low: int, high: int): seq<Entry> {
    if 0 <= low <= high <= |entries| then entries[low..high] else []
  }

  lemma SelectedAreInside(n: nat, first: nat, step: int, count: nat)
    requires Selects(n, first, step, count)
    ensures forall j :: 0 <= j < count ==> 0 <= Selected(first, step, j) < n
  {
    forall j | 0 <= j < count ensures 0 <= Selected(first, step, j) < n {
      SelectedInside(n, first, step, count, j);
    }
  }

  /** Python's subscript on a list: negative positions count from the end, others may fail. */
  function Subscript(entries: seq<Entry>, i: int): Option<Entry> {
    if 0 <= i < |entries| then Some(entries[i])
    else if -|entries| <= i < 0 then Some(entries[|entries| + i])
    else None
  }

  function ReadRange(entries: seq<Entry>, lo: int, hi: int): Option<seq<Entry>>
    decreases hi - lo
  {
    if hi <= lo then Some([])
    else
      match (ReadRange(entries, lo, hi - 1), Subscript(entries, hi - 1))
      case (Some(before), Some(e)) => Some(before + [e])
      case _ => None
  }

  /** `FlatLogprobs.__getitem__` on a position, whatever the fields hold; none is an IndexError. */
  function Read(f: Flat, k: nat): Option<OnePosition>
    requires k < |f.starts| && k < |f.ends|
  {
    match ReadRange(f.entries, f.starts[k], f.ends[k])
    case Some(entries) => Some(DictOf(entries))
    case None => None
  }

  lemma {:induction false} ReadRangeInside(entries: seq<Entry>, lo: nat, hi: nat)
    requires lo <= hi <= |entries|
    ensures ReadRange(entries, lo, hi) == Some(entries[lo..hi])
    decreases hi
  {
    if lo < hi {
      ReadRangeInside(entries, lo, hi - 1);
      assert entries[lo..hi] == entries[lo..hi - 1] + [entries[hi - 1]];
    } else {
      assert entries[lo..hi] == [];
    }
  }

  /** On a valid container every position reads as its dictionary. */
  lemma ReadsItsView(f: Flat, k: nat)
    requires Valid(f) && k < |f.starts|
    ensures Read(f, k) == Some(At(f, k))
  {
    ReadRangeInside(f.entries, f.starts[k], f.ends[k]);
  }

  /** A slice with a positive step is valid again and reads, position by position, as the
      selected positions of the original. */
  lemma SliceReadsSelected(f: Flat, first: nat, step: int, count: nat)
    requires Valid(f) && Selects(|f.starts|, first, step, count) && (0 < step || count == 1)
    ensures Valid(Sliced(f, first, step, count))
    ensures |View(Sliced(f, first, step, count))| == count
    ensures forall j :: 0 <= j < count ==>
              0 <= Selected(first, step, j) < |f.starts| &&
              View(Sliced(f, first, step, count))[j] == View(f)[Selected(first, step, j)]
  {
    var g := Sliced(f, first, step, count);
    SelectedAreInside(|f.starts|, first, step, count);
    var low, high := f.starts[Selected(first, step, 0)], f.ends[Selected(first, step, count - 1)];
    WithinSlice(f, first, step, count, 0);
    forall j | 0 <= j < count ensures Copies(f, g, low, high, Selected(first, step, j), j) {
      WithinSlice(f, first, step, count, j);
    }
    forall i, j | 0 <= i < j < count ensures g.ends[i] <= g.starts[j] {
      SelectedApart(first, step, i, j);
    }
    forall j | 0 <= j < count ensures 0 <= g.starts[j] <= g.ends[j] <= |g.entries| {
      assert Copies(f, g, low, high, Selected(first, step, j), j);
    }
    assert Valid(g);
    forall j | 0 <= j < count ensures At(g, j) == At(f, Selected(first, step, j)) {
      assert Copies(f, g, low, high, Selected(first, step, j), j);
      CopyReadsTheSame(f, g, low, high, Selected(first, step, j), j);
    }
  }

  /** Position `j` of `g` is position `k` of `f`, moved down by `low`, with the entries cut at `low` and `high`. */
  ghost predicate Copies(f: Flat, g: Flat, low: int, high: int, k: int, j: nat)
    requires |f.starts| == |f.ends|
  {
    && 0 <= k < |f.starts| && j < |g.starts| == |g.ends|
    && 0 <= low <= f.starts[k] <= f.ends[k] <= high <= |f.entries|
    && g.starts[j] == f.starts[k] - low && g.ends[j] == f.ends[k] - low
    && g.entries == f.entries[low..high]
  }

  lemma CopyReadsTheSame(f: Flat, g: Flat, low: int, high: int, k: int, j: nat)
    requires Valid(f) && Valid(g) && Copies(f, g, low, high, k, j)
    ensures At(g, j) == At(f, k)
  {
    assert EntriesAt(g, j) == EntriesAt(f, k);
  }

  lemma WithinSlice(f: Flat, first: nat, step: int, count: nat, j: nat)
    requires Valid(f) && Selects(|f.starts|, first, step, count) && (0 < step || count == 1) && j < count
    ensures 0 <= Selected(first, step, 0) < |f.starts| && 0 <= Selected(first, step, count - 1) < |f.starts|
    ensures 0 <= Selected(first, step, j) < |f.starts|
    ensures f.starts[Selected(first, step, 0)] <= f.starts[Selected(first, step, j)]
    ensures f.ends[Selected(first, step, j)] <= f.ends[Selected(first, step, count - 1)]
  {
    SelectedAreInside(|f.starts|, first, step, count);
    if 0 < j {
      SelectedApart(first, step, 0, j);
    }
    if j < count - 1 {
      SelectedApart(first, step, j, count - 1);
    }
  }

  /** Slicing keeps every reading if and only if the step is positive, one position is selected,
      or all selected positions are empty: with a negative step the stretch of entries is empty. */
  lemma SliceReadsRightIff(f: Flat, first: nat, step: int, count: nat)
    requires Valid(f) && Selects(|f.starts|, first, step, count) && step != 0
    ensures SliceReadsRight(f, first, step, count) <==>
            0 < step || count == 1 || SelectsNothing(f, first, step, count)
  {
    var g := Sliced(f, first, step, count);
    SelectedAreInside(|f.starts|, first, step, count);
    if 0 < step || count == 1 {
      SliceReadsSelected(f, first, step, count);
      forall j | 0 <= j < count ensures Read(g, j) == Some(At(f, Selected(first, step, j))) {
        ReadsItsView(g, j);
        assert View(g)[j] == At(g, j) && View(f)[Selected(first, step, j)] == At(f, Selected(first, step, j));
      }
    } else {
      SelectedApart(first, step, 0, count - 1);
      assert f.ends[Selected(first, step, count - 1)] <= f.starts[Selected(first, step, 0)];
      assert g.entries == [];
      forall j | 0 <= j < count
        ensures Read(g, j) == Some(At(f, Selected(first, step, j))) <==> EntriesAt(f, Selected(first, step, j)) == []
      {
        NothingToRead(g.starts[j], g.ends[j]);
      }
    }
  }

  ghost predicate SliceReadsRight(f: Flat, first: nat, step: int, count: nat)
    requires Valid(f) && Selects(|f.starts|, first, step, count)
  {
    SelectedAreInside(|f.starts|, first, step, count);
    forall j :: 0 <= j < count ==> Read(Sliced(f, first, step, count), j) == Some(At(f, Selected(first, step, j)))
  }

  ghost predicate SelectsNothing(f: Flat, first: nat, step: int, count: nat)
    requires Valid(f) && Selects(|f.starts|, first, step, count)
  {
    SelectedAreInside(|f.starts|, first, step, count);
    forall j :: 0 <= j < count ==> EntriesAt(f, Selected(first, step, j)) == []
  }

  lemma NothingToRead(lo: int, hi: int)
    ensures ReadRange([], lo, hi) == if hi <= lo then Some([]) else None
  {
  }

  /** A negative step misreads as soon as the first of several selected positions holds an entry. */
  lemma FullPositionMisreads(f: Flat, first: nat, step: int, count: nat)
    requires Valid(f) && Selects(|f.starts|, first, step, count) && step < 0 && 1 < count
    requires EntriesAt(f, first) != []
    ensures !SliceReadsRight(f, first, step, count)
  {
    SelectedAreInside(|f.starts|, first, step, count);
    assert Selected(first, step, 0) == first;
    SliceReadsRightIff(f, first, step, count);
  }

  /** Reversing with [::-1] selects every position, the last one first. */
  lemma ReversedSelection(s: Slice, n: nat)
    requires s == Slice(None, None, Some(-1)) && 0 < n
    ensures FirstOf(s, n) == n - 1 && StepOf(s) == -1 && CountOf(s, n) == n
  {
  }

  /** So reversing misreads every container of two positions or more whose last position is not empty. */
  lemma ReversedSliceMisreads(f: Flat, s: Slice)
    requires Valid(f) && 2 <= |f.starts| && EntriesAt(f, |f.starts| - 1) != [] && s == Slice(None, None, Some(-1))
    ensures var n := |f.starts|;
      && FirstOf(s, n) == n - 1 && StepOf(s) == -1 && CountOf(s, n) == n && Selects(n, n - 1, -1, n)
      && !SliceReadsRight(f, n - 1, -1, n)
  {
    var n := |f.starts|;
    ReversedSelection(s, n);
    SliceSelects(s, n);
    FullPositionMisreads(f, n - 1, -1, n);
  }

  lemma TwoPositions(a: Entry, b: Entry) returns (f: Flat)
    ensures Valid(f) && |f.starts| == 2 && View(f) == [DictOf([a]), DictOf([b])] && EntriesAt(f, 1) == [b]
  {
    f := Flat([0, 1], [1, 2], [a, b]);
    assert EntriesAt(f, 0) == [a] && EntriesAt(f, 1) == [b];
  }

  /** The shortest such container: two positions with one entry each. */
  lemma ReversedPairMisreads(a: Entry, b: Entry, s: Slice) returns (f: Flat)
    requires s == Slice(None, None, Some(-1))
    ensures Valid(f) && View(f) == [DictOf([a]), DictOf([b])]
    ensures var n := |f.starts|; n == 2 && Selects(n, n - 1, -1, n) && !SliceReadsRight(f, n - 1, -1, n)
  {
    f := TwoPositions(a, b);
    ReversedSliceMisreads(f, s);
  }

  // ---- both branches of append_logprobs_for_next_position -----------------------

  /** The arguments of one call. */
  datatype Step = Step(tokens: seq<int>, logprobs: seq<real>, decoded: seq<Option<string>>, rank: int, numLogprobs: int)

  function Min(a: nat, b: nat): nat {
    if a < b then a else b
  }

  /** The sampled token's rank, then 1, 2, 3, ... */
  function RanksOf(s: Step): (ranks: seq<int>)
  {
    var num := if s.numLogprobs == -1 then |s.logprobs| else s.numLogprobs;
    [s.rank] + seq(if num < 0 then 0 else num, k => k + 1)
  }

  /** `zip` of the four lists: as long as the shortest. */
  function Zipped(tokens: seq<int>, logprobs: seq<real>, ranks: seq<int>, decoded: seq<Option<string>>): seq<Entry> {
    seq(Min(Min(|tokens|, |logprobs|), Min(|ranks|, |decoded|)),
        k requires 0 <= k < Min(Min(|tokens|, |logprobs|), Min(|ranks|, |decoded|)) =>
          Entry(tokens[k], Logprob(logprobs[k], Some(ranks[k]), decoded[k])))
  }

  function StepEntries(s: Step): seq<Entry> {
    Zipped(s.tokens, s.logprobs, RanksOf(s), s.decoded)
  }

  /** How many tokens beside the sampled one are to be kept: -1 stands for all. */
  ghost function Wanted(s: Step): nat {
    if s.numLogprobs == -1 then |s.logprobs| else if s.numLogprobs < 0 then 0 else s.numLogprobs
  }

  /** The entry shows the arguments at its place: the sampled token with its own rank comes first,
      and token `k` after it has rank `k`. */
  ghost predicate Shows(e: Entry, s: Step, k: nat)
    requires k < |s.tokens| && k < |s.logprobs| && k < |s.decoded|
  {
    && e.token == s.tokens[k] && e.info.logprob == s.logprobs[k] && e.info.decoded == s.decoded[k]
    && e.info.rank == Some(if k == 0 then s.rank else k)
  }

  /** One call stores the sampled token and the wanted ones, or as many as there are arguments for. */
  lemma StepShowsArguments(s: Step)
    ensures var n := |StepEntries(s)|;
      && n <= |s.tokens| && n <= |s.logprobs| && n <= |s.decoded| && n <= Wanted(s) + 1
      && (n == |s.tokens| || n == |s.logprobs| || n == |s.decoded| || n == Wanted(s) + 1)
      && forall k :: 0 <= k < n ==> Shows(StepEntries(s)[k], s, k)
  {
    var ranks := RanksOf(s);
    assert |ranks| == Wanted(s) + 1 && ranks[0] == s.rank;
    forall k | 0 < k < |ranks| ensures ranks[k] == k {
    }
  }

  function FlatRun(f: Flat, steps: seq<Step>): Flat {
    if steps == [] then f else Appended(FlatRun(f, steps[..|steps| - 1]), StepEntries(steps[|steps| - 1]))
  }

  function ListRun(l: seq<OnePosition>, steps: seq<Step>): seq<OnePosition> {
    if steps == [] then l else ListRun(l, steps[..|steps| - 1]) + [DictOf(StepEntries(steps[|steps| - 1]))]
  }

  /** Any run of calls leaves the flat container and the list of dictionaries with the same view. */
  lemma {:induction false} BranchesAgree(f: Flat, steps: seq<Step>)
    requires Valid(f)
    ensures Valid(FlatRun(f, steps)) && View(FlatRun(f, steps)) == ListRun(View(f), steps)
  {
    if steps != [] {
      BranchesAgree(f, steps[..|steps| - 1]);
      AppendExtendsView(FlatRun(f, steps[..|steps| - 1]), StepEntries(steps[|steps| - 1]));
    }
  }

  /** A token is in the dictionary exactly if some entry has it, with the value of the last such entry. */
  lemma {:induction false} LastEntryWins(entries: seq<Entry>, k: nat)
    requires k < |entries|
    ensures forall t :: t in DictOf(entries) ==> exists i :: 0 <= i < |entries| && entries[i].token == t
    ensures entries[k].token in DictOf(entries)
    ensures (forall i :: k < i < |entries| ==> entries[i].token != entries[k].token) ==>
              DictOf(entries)[entries[k].token] == entries[k].info
  {
    var before := entries[..|entries| - 1];
    if k < |before| {
      LastEntryWins(before, k);
      forall t | t in DictOf(entries) ensures exists i :: 0 <= i < |entries| && entries[i].token == t {
        if t != entries[|before|].token {
          var i :| 0 <= i < |before| && before[i].token == t;
          assert entries[i].token == t;
        }
      }
    } else if before != [] {
      LastEntryWins(before, 0);
      forall t | t in DictOf(entries) ensures exists i :: 0 <= i < |entries| && entries[i].token == t {
        if t != entries[k].token {
          var i :| 0 <= i < |before| && before[i].token == t;
          assert entries[i].token == t;
        }
      }
    }
  }
}
