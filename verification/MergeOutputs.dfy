/** vllm/outputs.py: merging streamed outputs, on values. */
module MergeOutputs {
  import opened Options
  import opened FlatView

  datatype StopReason = StopString(text: string) | StopToken(token: int)

  datatype Completion = Completion(
    index: int,
    text: string,
    tokenIds: seq<int>,
    cumulative: Option<real>,
    logprobs: Option<seq<OnePosition>>,   // by view
    finishReason: Option<string>,
    stopReason: Option<StopReason>)

  /** A logprobs field that is truthy in Python. */
  predicate HasLogprobs(c: Completion) {
    c.logprobs.Some? && c.logprobs.value != []
  }

  /** Two outputs of one index: merged, or the new one; none is the assertion failing. */
  function Combine(c: Completion, n: Completion, aggregate: bool): Option<Completion> {
    if !aggregate then Some(n)
    else if HasLogprobs(n) && c.logprobs.None? then None
    else Some(Completion(
      c.index,
      c.text + n.text,
      c.tokenIds + n.tokenIds,
      n.cumulative,
      if HasLogprobs(n) then Some(c.logprobs.value + n.logprobs.value) else c.logprobs,
      n.finishReason,
      n.stopReason))
  }

  /** Position of the first output with the index, or the number of outputs. */
  function Find(outputs: seq<Completion>, index: int): (k: nat)
    ensures k <= |outputs|
    ensures k < |outputs| ==> outputs[k].index == index
    ensures forall j :: 0 <= j < k ==> outputs[j].index != index
  {
    if outputs == [] then 0
    else if outputs[0].index == index then 0
    else 1 + Find(outputs[1..], index)
  }

  function AddOne(outputs: seq<Completion>, n: Completion, aggregate: bool): Option<seq<Completion>> {
    var k := Find(outputs, n.index);
    if k == |outputs| then Some(outputs + [n])
    else
      match Combine(outputs[k], n, aggregate)
      case Some(c) => Some(outputs[k := c])
      case None => None
  }

  function AddAll(outputs: seq<Completion>, ns: seq<Completion>, aggregate: bool): Option<seq<Completion>> {
    if ns == [] then Some(outputs)
    else Then(AddAll(outputs, ns[..|ns| - 1], aggregate), ns[|ns| - 1], aggregate)
  }

  function Then(outputs: Option<seq<Completion>>, n: Completion, aggregate: bool): Option<seq<Completion>> {
    match outputs
    case Some(o) => AddOne(o, n, aggregate)
    case None => None
  }

  function AddAllTo(outputs: Option<seq<Completion>>, ns: seq<Completion>, aggregate: bool): Option<seq<Completion>> {
    match outputs
    case Some(o) => AddAll(o, ns, aggregate)
    case None => None
  }

  ghost predicate Unique(outputs: seq<Completion>) {
    forall i, j :: 0 <= i < j < |outputs| ==> outputs[i].index != outputs[j].index
  }

  // ---- associativity ----------------------------------------------------------

  lemma CombineIsAssociative(s: Completion, y: Completion, z: Completion, aggregate: bool)
    requires Combine(y, z, aggregate).Some?
    ensures var left := Combine(s, y, aggregate); var right := Combine(s, Combine(y, z, aggregate).value, aggregate);
      (if left.Some? then Combine(left.value, z, aggregate) else None) == right
  {
    if aggregate {
      assert (s.text + y.text) + z.text == s.text + (y.text + z.text);
      assert (s.tokenIds + y.tokenIds) + z.tokenIds == s.tokenIds + (y.tokenIds + z.tokenIds);
      if y.logprobs.Some? && HasLogprobs(z) && s.logprobs.Some? {
        assert y.logprobs.value == [] ==> y.logprobs.value + z.logprobs.value == z.logprobs.value;
        assert (s.logprobs.value + y.logprobs.value) + z.logprobs.value
            == s.logprobs.value + (y.logprobs.value + z.logprobs.value);
      }
    }
  }

  /** The same positions carry the same indices, the new output's index last if it is new. */
  ghost predicate SameIndices(outputs: seq<Completion>, outputs': seq<Completion>, n: Completion) {
    && (forall k :: 0 <= k < |outputs| ==> k < |outputs'| && outputs'[k].index == outputs[k].index)
    && if Find(outputs, n.index) < |outputs| then |outputs'| == |outputs|
       else |outputs'| == |outputs| + 1 && outputs'[|outputs|].index == n.index
  }

  lemma AddOneIndices(outputs: seq<Completion>, n: Completion, aggregate: bool)
    requires AddOne(outputs, n, aggregate).Some?
    ensures SameIndices(outputs, AddOne(outputs, n, aggregate).value, n)
    ensures Unique(outputs) ==> Unique(AddOne(outputs, n, aggregate).value)
  {
  }

  /** An index is found at the same place after an output of another index was added. */
  lemma FindAfter(outputs: seq<Completion>, outputs': seq<Completion>, n: Completion, i: int)
    requires SameIndices(outputs, outputs', n)
    ensures Find(outputs', i)
         == if Find(outputs, i) < |outputs| || i == n.index then Find(outputs, i) else |outputs'|
  {
    var k, k' := Find(outputs, i), Find(outputs', i);
    if k < |outputs| {
      assert outputs'[k].index == i;
    } else if i == n.index {
      assert outputs'[|outputs|].index == i;
    }
  }

  /** Outputs of different indices can be added in either order, once the second one is known. */
  lemma AddsCommute(outputs: seq<Completion>, y: Completion, z: Completion, aggregate: bool)
    requires y.index != z.index && Find(outputs, z.index) < |outputs|
    ensures Then(AddOne(outputs, y, aggregate), z, aggregate) == Then(AddOne(outputs, z, aggregate), y, aggregate)
  {
    if Find(outputs, y.index) < |outputs| {
      UpdatesCommute(outputs, y, z, aggregate);
    } else {
      AppendCommutes(outputs, y, z, aggregate);
    }
  }

  lemma UpdatesCommute(outputs: seq<Completion>, y: Completion, z: Completion, aggregate: bool)
    requires y.index != z.index && Find(outputs, y.index) < |outputs| && Find(outputs, z.index) < |outputs|
    ensures Then(AddOne(outputs, y, aggregate), z, aggregate) == Then(AddOne(outputs, z, aggregate), y, aggregate)
  {
    UpdateTwice(outputs, y, z, aggregate);
    UpdateTwice(outputs, z, y, aggregate);
    var j, k := Find(outputs, y.index), Find(outputs, z.index);
    var c, d := Combine(outputs[j], y, aggregate), Combine(outputs[k], z, aggregate);
    if c.Some? && d.Some? {
      SwapUpdates(outputs, j, c.value, k, d.value);
    }
  }

  lemma SwapUpdates(outputs: seq<Completion>, j: nat, c: Completion, k: nat, d: Completion)
    requires j < |outputs| && k < |outputs| && j != k
    ensures outputs[j := c][k := d] == outputs[k := d][j := c]
  {
  }

  lemma UpdateTwice(outputs: seq<Completion>, y: Completion, z: Completion, aggregate: bool)
    requires y.index != z.index && Find(outputs, y.index) < |outputs| && Find(outputs, z.index) < |outputs|
    ensures var j, k := Find(outputs, y.index), Find(outputs, z.index);
      var c, d := Combine(outputs[j], y, aggregate), Combine(outputs[k], z, aggregate);
      Then(AddOne(outputs, y, aggregate), z, aggregate)
        == if c.Some? && d.Some? then Some(outputs[j := c.value][k := d.value]) else None
  {
    AddOneElsewhere(outputs, y, z, aggregate);
  }

  lemma AppendCommutes(outputs: seq<Completion>, y: Completion, z: Completion, aggregate: bool)
    requires y.index != z.index && Find(outputs, y.index) == |outputs| && Find(outputs, z.index) < |outputs|
    ensures Then(AddOne(outputs, y, aggregate), z, aggregate) == Then(AddOne(outputs, z, aggregate), y, aggregate)
  {
    AddOneElsewhere(outputs, y, z, aggregate);
    AddOneElsewhere(outputs, z, y, aggregate);
    var k := Find(outputs, z.index);
    var d := Combine(outputs[k], z, aggregate);
    if d.Some? {
      UpdateBeforeAppend(outputs, y, k, d.value);
    }
  }

  lemma UpdateBeforeAppend(outputs: seq<Completion>, y: Completion, k: nat, d: Completion)
    requires k < |outputs|
    ensures (outputs + [y])[k := d] == outputs[k := d] + [y]
  {
  }

  /** Adding `y` leaves the place and the content of another index alone. */
  lemma AddOneElsewhere(outputs: seq<Completion>, y: Completion, z: Completion, aggregate: bool)
    requires y.index != z.index
    ensures var a := AddOne(outputs, y, aggregate); var k := Find(outputs, z.index);
      a.Some? ==>
        && Find(a.value, z.index) == (if k < |outputs| then k else |a.value|)
        && (k < |outputs| ==> k < |a.value| && a.value[k] == outputs[k])
  {
    var a := AddOne(outputs, y, aggregate);
    if a.Some? {
      AddOneIndices(outputs, y, aggregate);
      FindAfter(outputs, a.value, y, z.index);
    }
  }

  lemma {:induction false} AddsCommuteAll(outputs: seq<Completion>, ns: seq<Completion>, z: Completion, aggregate: bool)
    requires Find(outputs, z.index) < |outputs| && Find(ns, z.index) == |ns|
    ensures Then(AddAll(outputs, ns, aggregate), z, aggregate) == AddAllTo(AddOne(outputs, z, aggregate), ns, aggregate)
    ensures AddAll(outputs, ns, aggregate).Some? ==>
              Find(AddAll(outputs, ns, aggregate).value, z.index) < |AddAll(outputs, ns, aggregate).value|
  {
    if ns != [] {
      var before, y := ns[..|ns| - 1], ns[|ns| - 1];
      FindInPrefix(ns, z.index);
      AddsCommuteAll(outputs, before, z, aggregate);
      var mid := AddAll(outputs, before, aggregate);
      if mid.Some? {
        AddsCommute(mid.value, y, z, aggregate);
        AddOneElsewhere(mid.value, y, z, aggregate);
      }
    }
  }

  lemma FindInPrefix(ns: seq<Completion>, i: int)
    requires ns != [] && Find(ns, i) == |ns|
    ensures Find(ns[..|ns| - 1], i) == |ns| - 1 && ns[|ns| - 1].index != i
  {
    var before := ns[..|ns| - 1];
    forall k | 0 <= k < |before| ensures before[k].index != i {
      assert ns[k].index != i;
    }
  }

  lemma {:induction false} AddAllSplit(outputs: seq<Completion>, p: seq<Completion>, q: seq<Completion>, aggregate: bool)
    ensures AddAll(outputs, p + q, aggregate) == AddAllTo(AddAll(outputs, p, aggregate), q, aggregate)
  {
    if q == [] {
      assert p + q == p;
    } else {
      AddAllSplit(outputs, p, q[..|q| - 1], aggregate);
      assert (p + q)[..|p + q| - 1] == p + q[..|q| - 1];
    }
  }

  /** Adding two outputs of one index is adding their combination. */
  lemma AddMerged(outputs: seq<Completion>, y: Completion, z: Completion, aggregate: bool)
    requires y.index == z.index && Combine(y, z, aggregate).Some?
    ensures Then(AddOne(outputs, y, aggregate), z, aggregate) == AddOne(outputs, Combine(y, z, aggregate).value, aggregate)
  {
    var k := Find(outputs, y.index);
    var a := AddOne(outputs, y, aggregate);
    if a.Some? {
      AddOneIndices(outputs, y, aggregate);
      FindAfter(outputs, a.value, y, z.index);
    }
    if k < |outputs| {
      CombineIsAssociative(outputs[k], y, z, aggregate);
      if a.Some? && Combine(a.value[k], z, aggregate).Some? {
        var m := Combine(a.value[k], z, aggregate).value;
        assert a.value[k := m] == outputs[k := m];
      }
    } else {
      var m := Combine(y, z, aggregate).value;
      assert (outputs + [y])[k := m] == outputs + [m];
    }
  }

  /** The middle of a merge can absorb an output before or after it is merged itself. */
  lemma AddThroughMiddle(a: seq<Completion>, b: seq<Completion>, z: Completion, aggregate: bool)
    requires Unique(b) && AddOne(b, z, aggregate).Some?
    ensures AddAll(a, AddOne(b, z, aggregate).value, aggregate) == Then(AddAll(a, b, aggregate), z, aggregate)
  {
    var k := Find(b, z.index);
    if k == |b| {
      AddLast(a, b, z, aggregate);
    } else {
      SplitAt(b, k, b[k]);
      SplitAt(b, k, Combine(b[k], z, aggregate).value);
      NotAfter(b, k);
      AddInside(a, b[..k], b[k], b[k + 1..], z, aggregate);
      assert b[k := b[k]] == b;
    }
  }

  lemma AddLast(a: seq<Completion>, b: seq<Completion>, z: Completion, aggregate: bool)
    ensures AddAll(a, b + [z], aggregate) == Then(AddAll(a, b, aggregate), z, aggregate)
  {
    assert (b + [z])[..|b|] == b;
  }

  lemma SplitAt(b: seq<Completion>, k: nat, m: Completion)
    requires k < |b|
    ensures b[k := m] == b[..k] + ([m] + b[k + 1..])
  {
  }

  lemma NotAfter(b: seq<Completion>, k: nat)
    requires Unique(b) && k < |b|
    ensures Find(b[k + 1..], b[k].index) == |b[k + 1..]|
  {
    var after := b[k + 1..];
    forall j | 0 <= j < |after| ensures after[j].index != b[k].index {
      assert after[j] == b[k + 1 + j];
    }
  }

  lemma AddInside(a: seq<Completion>, before: seq<Completion>, y: Completion, after: seq<Completion>,
                  z: Completion, aggregate: bool)
    requires y.index == z.index && Combine(y, z, aggregate).Some? && Find(after, z.index) == |after|
    ensures AddAll(a, before + ([Combine(y, z, aggregate).value] + after), aggregate)
         == Then(AddAll(a, before + ([y] + after), aggregate), z, aggregate)
  {
    var m := Combine(y, z, aggregate).value;
    AddAllSplit(a, before, [m] + after, aggregate);
    AddAllSplit(a, before, [y] + after, aggregate);
    var s := AddAll(a, before, aggregate);
    if s.Some? {
      AddFirst(s.value, m, after, aggregate);
      AddFirst(s.value, y, after, aggregate);
      AddMerged(s.value, y, z, aggregate);
      var t := AddOne(s.value, y, aggregate);
      if t.Some? {
        AddOneIndices(s.value, y, aggregate);
        FindAfter(s.value, t.value, y, z.index);
        AddsCommuteAll(t.value, after, z, aggregate);
      }
    }
  }

  lemma AddFirst(outputs: seq<Completion>, y: Completion, rest: seq<Completion>, aggregate: bool)
    ensures AddAll(outputs, [y] + rest, aggregate) == AddAllTo(AddOne(outputs, y, aggregate), rest, aggregate)
  {
    AddAllSplit(outputs, [y], rest, aggregate);
    assert [y][..0] == [] && AddAll(outputs, [y][..0], aggregate) == Some(outputs);
  }

  lemma {:induction false} AddAllKeepsUnique(outputs: seq<Completion>, ns: seq<Completion>, aggregate: bool)
    requires Unique(outputs) && AddAll(outputs, ns, aggregate).Some?
    ensures Unique(AddAll(outputs, ns, aggregate).value)
  {
    if ns != [] {
      AddAllKeepsUnique(outputs, ns[..|ns| - 1], aggregate);
      AddOneIndices(AddAll(outputs, ns[..|ns| - 1], aggregate).value, ns[|ns| - 1], aggregate);
    }
  }

  /** Merging is associative whenever the right-hand grouping can be computed at all. */
  lemma {:induction false} MergeIsAssociative(a: seq<Completion>, b: seq<Completion>, c: seq<Completion>, aggregate: bool)
    requires Unique(b) && AddAll(b, c, aggregate).Some?
    ensures AddAllTo(AddAll(a, b, aggregate), c, aggregate) == AddAll(a, AddAll(b, c, aggregate).value, aggregate)
  {
    if c != [] {
      var before, z := c[..|c| - 1], c[|c| - 1];
      MergeIsAssociative(a, b, before, aggregate);
      AddAllKeepsUnique(b, before, aggregate);
      AddThroughMiddle(a, AddAll(b, before, aggregate).value, z, aggregate);
    }
  }

  // ---- when merging fails -----------------------------------------------------

  /** The first output of the index has no logprobs. */
  ghost predicate WithoutLogprobs(outputs: seq<Completion>, index: int) {
    Find(outputs, index) < |outputs| && outputs[Find(outputs, index)].logprobs.None?
  }

  /** An output of `c` brings logprobs to an index whose first output, in `b` or in `c`, has none. */
  ghost predicate Clash(b: seq<Completion>, c: seq<Completion>) {
    exists j :: 0 <= j < |c| && ClashesAt(b, c, j)
  }

  ghost predicate ClashesAt(b: seq<Completion>, c: seq<Completion>, j: nat)
    requires j < |c|
  {
    HasLogprobs(c[j]) && WithoutLogprobs(b + c, c[j].index)
  }

  lemma FindSnoc(cs: seq<Completion>, z: Completion, i: int)
    ensures Find(cs + [z], i) == if Find(cs, i) < |cs| || z.index == i then Find(cs, i) else |cs| + 1
    ensures WithoutLogprobs(cs + [z], i) <==>
      if Find(cs, i) < |cs| then WithoutLogprobs(cs, i) else z.index == i && z.logprobs.None?
  {
    var longer, k := cs + [z], Find(cs, i);
    if k < |cs| {
      assert longer[k].index == i;
    } else if z.index == i {
      assert longer[|cs|].index == i;
    }
  }

  /** Merging keeps which indices there are and which of them started without logprobs. */
  lemma {:induction false} FirstDecides(b: seq<Completion>, c: seq<Completion>, i: int)
    requires AddAll(b, c, true).Some?
    ensures var d := AddAll(b, c, true).value;
      && (Find(d, i) < |d| <==> Find(b + c, i) < |b + c|)
      && (WithoutLogprobs(d, i) <==> WithoutLogprobs(b + c, i))
  {
    if c == [] {
      assert b + c == b;
    } else {
      var before, z := c[..|c| - 1], c[|c| - 1];
      var mid := AddAll(b, before, true).value;
      assert b + c == (b + before) + [z];
      FirstDecides(b, before, i);
      FindSnoc(b + before, z, i);
      AddOneDecides(mid, z, i);
    }
  }

  lemma AddOneDecides(mid: seq<Completion>, z: Completion, i: int)
    requires AddOne(mid, z, true).Some?
    ensures var d := AddOne(mid, z, true).value;
      && (Find(d, i) < |d| <==> Find(mid, i) < |mid| || z.index == i)
      && (WithoutLogprobs(d, i) <==>
          if Find(mid, i) < |mid| then WithoutLogprobs(mid, i) else z.index == i && z.logprobs.None?)
  {
    var d, k := AddOne(mid, z, true).value, Find(mid, z.index);
    if k == |mid| {
      FindSnoc(mid, z, i);
    } else {
      AddOneIndices(mid, z, true);
      FindAfter(mid, d, z, i);
      assert Combine(mid[k], z, true) == Some(d[k]);
    }
  }

  /** Aggregating fails exactly on a clash. */
  lemma {:induction false} MergeFailsOnClash(b: seq<Completion>, c: seq<Completion>)
    ensures AddAll(b, c, true).None? <==> Clash(b, c)
  {
    if c != [] {
      var before, z := c[..|c| - 1], c[|c| - 1];
      MergeFailsOnClash(b, before);
      ClashGrows(b, c);
      if AddAll(b, before, true).Some? {
        FirstDecides(b, before, z.index);
        assert b + c == (b + before) + [z];
        FindSnoc(b + before, z, z.index);
      }
    }
  }

  lemma ClashGrows(b: seq<Completion>, c: seq<Completion>)
    requires c != []
    ensures Clash(b, c) <==> Clash(b, c[..|c| - 1]) || ClashesAt(b, c, |c| - 1)
  {
    var before, z := c[..|c| - 1], c[|c| - 1];
    forall j: nat | j < |before| ensures ClashesAt(b, c, j) <==> ClashesAt(b, before, j) {
      assert (b + before)[|b| + j] == c[j];
      assert b + c == (b + before) + [z];
      FindSnoc(b + before, z, c[j].index);
    }
    if Clash(b, before) {
      var j: nat :| j < |before| && ClashesAt(b, before, j);
      assert ClashesAt(b, c, j);
    }
  }

  /** Both groupings of three lists agree, errors included, if and only if the later two do not
      clash, or together they clash with the first as well. */
  lemma GroupingMatters(a: seq<Completion>, b: seq<Completion>, c: seq<Completion>)
    requires Unique(b)
    ensures var left, right := AddAllTo(AddAll(a, b, true), c, true), AddAll(b, c, true);
      left == (if right.Some? then AddAll(a, right.value, true) else None)
      <==> !Clash(b, c) || Clash(a, b + c)
  {
    MergeFailsOnClash(b, c);
    MergeFailsOnClash(a, b + c);
    AddAllSplit(a, b, c, true);
    if AddAll(b, c, true).Some? {
      MergeIsAssociative(a, b, c, true);
    }
  }

  /** Three outputs of one index on which the groupings differ: the first starts the logprobs,
      the second has none, the third brings some. */
  lemma GroupingDiffers() returns (a: Completion, b: Completion, c: Completion)
    ensures AddAllTo(AddAll([a], [b], true), [c], true).Some? && AddAll([b], [c], true).None?
  {
    a := Completion(0, "", [], None, Some([]), None, None);
    b := a.(logprobs := None);
    c := a.(logprobs := Some([map[]]));
    assert ClashesAt([b], [c], 0) by {
      assert ([b] + [c])[0] == b;
    }
    MergeFailsOnClash([b], [c]);
    assert !Clash([a], [b] + [c]) by {
      assert ([a] + ([b] + [c]))[0] == a;
    }
    MergeFailsOnClash([a], [b] + [c]);
    AddAllSplit([a], [b], [c], true);
  }

  ghost predicate Uniform(outputs: seq<Completion>) {
    || (forall k :: 0 <= k < |outputs| ==> outputs[k].logprobs.Some?)
    || (forall k :: 0 <= k < |outputs| ==> outputs[k].logprobs.None?)
  }

  lemma UniformNeverClashes(b: seq<Completion>, c: seq<Completion>)
    requires Uniform(b + c)
    ensures !Clash(b, c)
  {
    forall j: nat | j < |c| ensures !ClashesAt(b, c, j) {
      assert (b + c)[|b| + j] == c[j];
    }
  }

  /** With logprobs uniformly present or uniformly absent, merging is associative. */
  lemma UniformIsAssociative(a: seq<Completion>, b: seq<Completion>, c: seq<Completion>)
    requires Unique(b) && Uniform(b + c)
    ensures AddAll(b, c, true).Some?
    ensures AddAllTo(AddAll(a, b, true), c, true) == AddAll(a, AddAll(b, c, true).value, true)
  {
    UniformNeverClashes(b, c);
    MergeFailsOnClash(b, c);
    MergeIsAssociative(a, b, c, true);
  }

  // ---- what a stream adds up to --------------------------------------------------

  function TextOf(cs: seq<Completion>, i: int): string {
    if cs == [] then ""
    else
      var last := cs[|cs| - 1];
      TextOf(cs[..|cs| - 1], i) + if last.index == i then last.text else ""
  }

  function TokensOf(cs: seq<Completion>, i: int): seq<int> {
    if cs == [] then []
    else
      var last := cs[|cs| - 1];
      TokensOf(cs[..|cs| - 1], i) + if last.index == i then last.tokenIds else []
  }

  function LogprobsOf(cs: seq<Completion>, i: int): seq<OnePosition> {
    if cs == [] then []
    else
      var last := cs[|cs| - 1];
      LogprobsOf(cs[..|cs| - 1], i) + if last.index == i && last.logprobs.Some? then last.logprobs.value else []
  }

  /** The indices of a stream in first-seen order. */
  function FirstSeen(cs: seq<Completion>): seq<int> {
    if cs == [] then []
    else
      var before, i := FirstSeen(cs[..|cs| - 1]), cs[|cs| - 1].index;
      if i in before then before else before + [i]
  }

  /** The output carries the whole text, tokens and logprobs of its index, and the final state of
      the last delta for it. */
  ghost predicate SumsUp(o: Completion, cs: seq<Completion>) {
    && o.text == TextOf(cs, o.index)
    && o.tokenIds == TokensOf(cs, o.index)
    && LogprobsOf(cs, o.index) == (if o.logprobs.Some? then o.logprobs.value else [])
    && exists k :: 0 <= k < |cs| && LastDelta(o, cs, k)
  }

  ghost predicate LastDelta(o: Completion, cs: seq<Completion>, k: nat)
    requires k < |cs|
  {
    && cs[k].index == o.index && (forall j :: k < j < |cs| ==> cs[j].index != o.index)
    && o.cumulative == cs[k].cumulative && o.finishReason == cs[k].finishReason && o.stopReason == cs[k].stopReason
  }

  ghost predicate Aligned(outputs: seq<Completion>, seen: seq<int>) {
    |outputs| == |seen| && forall k :: 0 <= k < |outputs| ==> outputs[k].index == seen[k]
  }

  ghost predicate AllSumUp(outputs: seq<Completion>, cs: seq<Completion>) {
    forall k :: 0 <= k < |outputs| ==> SumsUp(outputs[k], cs)
  }

  lemma AlignedFind(outputs: seq<Completion>, seen: seq<int>, i: int)
    requires Aligned(outputs, seen)
    ensures Find(outputs, i) < |outputs| <==> i in seen
  {
    if i in seen {
      var j :| 0 <= j < |seen| && seen[j] == i;
      assert outputs[j].index == i;
    }
  }

  lemma AddOneAt(mid: seq<Completion>, outputs: seq<Completion>, z: Completion, j: nat)
    requires AddOne(mid, z, true) == Some(outputs) && Unique(mid) && j < |outputs|
    ensures j < |mid| && mid[j].index == z.index ==> Combine(mid[j], z, true) == Some(outputs[j])
    ensures j < |mid| && mid[j].index != z.index ==> outputs[j] == mid[j]
    ensures j >= |mid| ==> outputs[j] == z && Find(mid, z.index) == |mid|
  {
    var k := Find(mid, z.index);
    assert j < k || k == j || k < j;
  }

  lemma AlignedStep(mid: seq<Completion>, outputs: seq<Completion>, z: Completion, seen: seq<int>)
    requires Aligned(mid, seen) && SameIndices(mid, outputs, z)
    ensures Aligned(outputs, if z.index in seen then seen else seen + [z.index])
  {
    AlignedFind(mid, seen, z.index);
  }

  lemma StreamStep(mid: seq<Completion>, outputs: seq<Completion>, cs: seq<Completion>)
    requires cs != [] && AddOne(mid, cs[|cs| - 1], true) == Some(outputs) && Unique(mid)
    requires Aligned(mid, FirstSeen(cs[..|cs| - 1])) && AllSumUp(mid, cs[..|cs| - 1])
    ensures Aligned(outputs, FirstSeen(cs)) && AllSumUp(outputs, cs)
  {
    AddOneIndices(mid, cs[|cs| - 1], true);
    AlignedStep(mid, outputs, cs[|cs| - 1], FirstSeen(cs[..|cs| - 1]));
    forall j: nat | j < |outputs| ensures SumsUp(outputs[j], cs) {
      StreamStepAt(mid, outputs, cs, j);
    }
  }

  lemma StreamStepAt(mid: seq<Completion>, outputs: seq<Completion>, cs: seq<Completion>, j: nat)
    requires cs != [] && AddOne(mid, cs[|cs| - 1], true) == Some(outputs) && Unique(mid) && j < |outputs|
    requires Aligned(mid, FirstSeen(cs[..|cs| - 1])) && AllSumUp(mid, cs[..|cs| - 1])
    ensures SumsUp(outputs[j], cs)
  {
    var z := cs[|cs| - 1];
    AddOneAt(mid, outputs, z, j);
    if j < |mid| {
      assert SumsUp(mid[j], cs[..|cs| - 1]);
      SumsUpStep(mid[j], outputs[j], cs);
    } else {
      AlignedFind(mid, FirstSeen(cs[..|cs| - 1]), z.index);
      NewIndex(cs);
    }
  }

  lemma SumsUpStep(o: Completion, o': Completion, cs: seq<Completion>)
    requires cs != [] && SumsUp(o, cs[..|cs| - 1])
    requires var z := cs[|cs| - 1];
      if z.index == o.index then Combine(o, z, true) == Some(o') else o' == o
    ensures SumsUp(o', cs)
  {
    var before, z := cs[..|cs| - 1], cs[|cs| - 1];
    if z.index == o.index {
      assert LastDelta(o', cs, |before|);
    } else {
      var k: nat :| k < |before| && LastDelta(o, before, k);
      assert LastDelta(o', cs, k);
    }
  }

  /** An index seen for the first time has nothing before it. */
  lemma NewIndex(cs: seq<Completion>)
    requires cs != [] && cs[|cs| - 1].index !in FirstSeen(cs[..|cs| - 1])
    ensures SumsUp(cs[|cs| - 1], cs)
  {
    Unseen(cs[..|cs| - 1], cs[|cs| - 1].index);
    assert LastDelta(cs[|cs| - 1], cs, |cs| - 1);
  }

  lemma {:induction false} Unseen(cs: seq<Completion>, i: int)
    requires i !in FirstSeen(cs)
    ensures TextOf(cs, i) == "" && TokensOf(cs, i) == [] && LogprobsOf(cs, i) == []
  {
    if cs != [] {
      Unseen(cs[..|cs| - 1], i);
    }
  }

  lemma {:induction false} FoldSumsUp(cs: seq<Completion>)
    requires AddAll([], cs, true).Some?
    ensures var outputs := AddAll([], cs, true).value;
      Unique(outputs) && Aligned(outputs, FirstSeen(cs)) && AllSumUp(outputs, cs)
  {
    AddAllKeepsUnique([], cs, true);
    if cs != [] {
      FoldSumsUp(cs[..|cs| - 1]);
      StreamStep(AddAll([], cs[..|cs| - 1], true).value, AddAll([], cs, true).value, cs);
    }
  }

  /** Folding a stream, whose indices may repeat, fails exactly if some delta brings logprobs to an
      index that started without them, which a uniform stream never does. Otherwise it gives one
      output per index, in first-seen order, that sums the index up. */
  lemma StreamSumsUp(cs: seq<Completion>)
    ensures AddAll([], cs, true).None? <==> Clash([], cs)
    ensures Uniform(cs) ==> !Clash([], cs)
    ensures !Clash([], cs) ==>
      var outputs := AddAll([], cs, true).value;
      Unique(outputs) && Aligned(outputs, FirstSeen(cs)) && AllSumUp(outputs, cs)
  {
    MergeFailsOnClash([], cs);
    if Uniform(cs) {
      assert [] + cs == cs;
      UniformNeverClashes([], cs);
    }
    if !Clash([], cs) {
      FoldSumsUp(cs);
    }
  }

  /** Aggregating onto outputs of distinct indices sums up what was there and what is added. */
  lemma AggregatingSumsUp(outputs: seq<Completion>, ns: seq<Completion>)
    requires Unique(outputs)
    ensures AddAll(outputs, ns, true).None? <==> Clash([], outputs + ns)
    ensures AddAll(outputs, ns, true).Some? ==>
      var r := AddAll(outputs, ns, true).value;
      Unique(r) && Aligned(r, FirstSeen(outputs + ns)) && AllSumUp(r, outputs + ns)
  {
    UniqueStays(outputs, true);
    AddAllSplit([], outputs, ns, true);
    StreamSumsUp(outputs + ns);
  }

  /** Outputs of distinct indices are what adding them one by one gives. */
  lemma {:induction false} UniqueStays(outputs: seq<Completion>, aggregate: bool)
    requires Unique(outputs)
    ensures AddAll([], outputs, aggregate) == Some(outputs)
  {
    if outputs != [] {
      var before, z := outputs[..|outputs| - 1], outputs[|outputs| - 1];
      UniqueStays(before, aggregate);
      assert before + [z] == outputs;
    }
  }

  // ---- replacing ------------------------------------------------------------------

  /** The output is the last one of its index. */
  ghost predicate IsLast(o: Completion, cs: seq<Completion>) {
    exists k :: 0 <= k < |cs| && IsLastAt(o, cs, k)
  }

  ghost predicate IsLastAt(o: Completion, cs: seq<Completion>, k: nat)
    requires k < |cs|
  {
    cs[k] == o && forall j :: k < j < |cs| ==> cs[j].index != o.index
  }

  ghost predicate AllLast(outputs: seq<Completion>, cs: seq<Completion>) {
    forall k :: 0 <= k < |outputs| ==> IsLast(outputs[k], cs)
  }

  /** Without aggregation adding never fails. Of outputs with distinct indices each one stays where it is
      and gives way to the last new output of its index; new indices follow in first-seen order. */
  lemma ReplacingKeepsLast(outputs: seq<Completion>, ns: seq<Completion>)
    ensures AddAll(outputs, ns, false).Some?
    ensures Unique(outputs) ==>
      var r := AddAll(outputs, ns, false).value;
      Unique(r) && Aligned(r, FirstSeen(outputs + ns)) && AllLast(r, outputs + ns)
  {
    NeverFails(outputs, ns);
    if Unique(outputs) {
      UniqueStays(outputs, false);
      AddAllSplit([], outputs, ns, false);
      NeverFails([], outputs + ns);
      FoldKeepsLast(outputs + ns);
    }
  }

  lemma {:induction false} NeverFails(outputs: seq<Completion>, ns: seq<Completion>)
    ensures AddAll(outputs, ns, false).Some?
  {
    if ns != [] {
      NeverFails(outputs, ns[..|ns| - 1]);
    }
  }

  lemma {:induction false} FoldKeepsLast(cs: seq<Completion>)
    requires AddAll([], cs, false).Some?
    ensures var r := AddAll([], cs, false).value; Unique(r) && Aligned(r, FirstSeen(cs)) && AllLast(r, cs)
  {
    AddAllKeepsUnique([], cs, false);
    if cs != [] {
      var before, z := cs[..|cs| - 1], cs[|cs| - 1];
      NeverFails([], before);
      FoldKeepsLast(before);
      var mid, r := AddAll([], before, false).value, AddAll([], cs, false).value;
      AddOneIndices(mid, z, false);
      AlignedStep(mid, r, z, FirstSeen(before));
      forall j: nat | j < |r| ensures IsLast(r[j], cs) {
        LastStep(mid, r, cs, j);
      }
    }
  }

  lemma LastStep(mid: seq<Completion>, r: seq<Completion>, cs: seq<Completion>, j: nat)
    requires cs != [] && AddOne(mid, cs[|cs| - 1], false) == Some(r) && Unique(mid) && j < |r|
    requires AllLast(mid, cs[..|cs| - 1])
    ensures IsLast(r[j], cs)
  {
    var before, z := cs[..|cs| - 1], cs[|cs| - 1];
    var k := Find(mid, z.index);
    if j == k {
      assert r[j] == z && IsLastAt(z, cs, |before|);
    } else {
      assert r[j] == mid[j] && mid[j].index != z.index;
      assert IsLast(mid[j], before);
      var i: nat :| i < |before| && IsLastAt(mid[j], before, i);
      assert IsLastAt(r[j], cs, i);
    }
  }
}
