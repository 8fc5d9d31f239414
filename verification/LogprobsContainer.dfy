/** The mutable container of vllm/logprobs.py, over six parallel Python lists. */
module LogprobsContainer {
  import opened Options
  import opened FlatView

  ghost predicate DistinctTokens(items: seq<Entry>) {
    forall i, j :: 0 <= i < j < |items| ==> items[i].token != items[j].token
  }

  /** Setting a key of an insertion-ordered dictionary. */
  function Put(items: seq<Entry>, e: Entry): seq<Entry> {
    if items == [] then [e]
    else if items[0].token == e.token then [e] + items[1..]
    else [items[0]] + Put(items[1..], e)
  }

  /** Dictionaries in the other direction: the first entry decides last. */
  lemma {:induction false} DictOfFront(first: Entry, rest: seq<Entry>)
    ensures DictOf([first] + rest) == map[first.token := first.info] + DictOf(rest)
  {
    if rest == [] {
      assert [first] + rest == [first];
      assert [first][..0] == [];
    } else {
      DictOfFront(first, rest[..|rest| - 1]);
      assert ([first] + rest)[..|rest|] == [first] + rest[..|rest| - 1];
    }
  }

  lemma {:induction false} PutIsUpdate(items: seq<Entry>, e: Entry)
    requires DistinctTokens(items)
    ensures DictOf(Put(items, e)) == DictOf(items)[e.token := e.info]
    ensures DistinctTokens(Put(items, e))
  {
    PutKeepsDistinct(items, e);
    if items == [] {
      DictOfFront(e, []);
      assert [e] + [] == [e];
    } else {
      DictOfFront(items[0], items[1..]);
      assert items == [items[0]] + items[1..];
      if items[0].token == e.token {
        DictOfFront(e, items[1..]);
        NotInRest(items);
        ReplaceFront(e.token, items[0].info, e.info, DictOf(items[1..]));
      } else {
        PutIsUpdate(items[1..], e);
        DictOfFront(items[0], Put(items[1..], e));
        UpdateBehind(items[0], e, DictOf(items[1..]));
      }
    }
  }

  lemma ReplaceFront(token: int, was: Logprob, now: Logprob, rest: OnePosition)
    requires token !in rest
    ensures (map[token := was] + rest)[token := now] == map[token := now] + rest
  {
  }

  lemma UpdateBehind(first: Entry, e: Entry, rest: OnePosition)
    requires first.token != e.token
    ensures map[first.token := first.info] + rest[e.token := e.info]
         == (map[first.token := first.info] + rest)[e.token := e.info]
  {
  }

  lemma {:induction false} PutKeepsDistinct(items: seq<Entry>, e: Entry)
    requires DistinctTokens(items)
    ensures DistinctTokens(Put(items, e))
    ensures forall x :: x in Put(items, e) ==> x == e || x in items
  {
    if items != [] && items[0].token != e.token {
      var rest := Put(items[1..], e);
      PutKeepsDistinct(items[1..], e);
      forall j | 0 <= j < |rest| ensures rest[j].token != items[0].token {
        assert rest[j] in rest;
      }
    }
  }

  lemma NotInRest(items: seq<Entry>)
    requires items != [] && DistinctTokens(items)
    ensures items[0].token !in DictOf(items[1..])
  {
    if items[1..] != [] {
      LastEntryWins(items[1..], 0);
    }
  }

  class FlatLogprobs {
    var startIndices: seq<int>
    var endIndices: seq<int>
    var tokenIds: seq<int>
    var logprobs: seq<real>
    var ranks: seq<Option<int>>
    var decodedTokens: seq<Option<string>>

    ghost predicate Parallel()
      reads this
    {
      |tokenIds| == |logprobs| == |ranks| == |decodedTokens|
    }

    /** The fields as one value. */
    ghost function Value(): (f: Flat)
      reads this
      requires Parallel()
      ensures |f.entries| == |tokenIds|
    {
      Flat(startIndices, endIndices,
           seq(|tokenIds|, i requires 0 <= i < |tokenIds| && Parallel() reads this =>
             Entry(tokenIds[i], Logprob(logprobs[i], ranks[i], decodedTokens[i]))))
    }

    ghost predicate Ready()
      reads this
    {
      Parallel() && Valid(Value())
    }

    constructor ()
      ensures Ready() && Value() == Flat([], [], [])
    {
      startIndices, endIndices := [], [];
      tokenIds, logprobs, ranks, decodedTokens := [], [], [], [];
    }

    method Push(e: Entry)
      requires Parallel()
      modifies this`tokenIds, this`logprobs, this`ranks, this`decodedTokens
      ensures Parallel() && Value() == old(Value()).(entries := old(Value()).entries + [e])
    {
      tokenIds := tokenIds + [e.token];
      logprobs := logprobs + [e.info.logprob];
      ranks := ranks + [e.info.rank];
      decodedTokens := decodedTokens + [e.info.decoded];
    }

    /** `append` of a dictionary's items, or of None. */
    method Append(position: Option<seq<Entry>>)
      requires Ready()
      modifies this
      ensures Ready()
      ensures Value() == Appended(old(Value()), if position.Some? then position.value else [])
      ensures View(Value()) == old(View(Value())) + [DictOf(if position.Some? then position.value else [])]
    {
      ghost var items := if position.Some? then position.value else [];
      AppendExtendsView(Value(), items);
      startIndices := startIndices + [|logprobs|];
      if position.Some? && position.value != [] {
        for i := 0 to |position.value|
          invariant Parallel() && startIndices == old(startIndices) + [|old(logprobs)|] && endIndices == old(endIndices)
          invariant Value().entries == old(Value().entries) + position.value[..i]
        {
          Push(position.value[i]);
          assert position.value[..i + 1] == position.value[..i] + [position.value[i]];
        }
        assert position.value[..|position.value|] == position.value;
      }
      endIndices := endIndices + [|logprobs|];
      assert Value() == Appended(old(Value()), items);
    }

    /** `append_fast`: the zip of the four arguments becomes one position. */
    method AppendFast(newTokens: seq<int>, newLogprobs: seq<real>, newRanks: seq<int>, newDecoded: seq<Option<string>>)
      requires Ready()
      modifies this
      ensures Ready() && Value() == Appended(old(Value()), Zipped(newTokens, newLogprobs, newRanks, newDecoded))
      ensures View(Value()) == old(View(Value())) + [DictOf(Zipped(newTokens, newLogprobs, newRanks, newDecoded))]
    {
      ghost var items := Zipped(newTokens, newLogprobs, newRanks, newDecoded);
      AppendExtendsView(Value(), items);
      startIndices := startIndices + [|logprobs|];
      var i := 0;
      while i < |newTokens| && i < |newLogprobs| && i < |newRanks| && i < |newDecoded|
        invariant 0 <= i <= |items|
        invariant Parallel() && startIndices == old(startIndices) + [|old(logprobs)|] && endIndices == old(endIndices)
        invariant Value().entries == old(Value().entries) + items[..i]
      {
        Push(Entry(newTokens[i], Logprob(newLogprobs[i], Some(newRanks[i]), newDecoded[i])));
        assert items[..i + 1] == items[..i] + [items[i]];
        i := i + 1;
      }
      assert items[..i] == items;
      endIndices := endIndices + [|logprobs|];
      assert Value() == Appended(old(Value()), items);
    }

    /** `append_logprobs_for_next_position` on this container. */
    method AppendStep(s: Step)
      requires Ready()
      modifies this
      ensures Ready() && Value() == FlatRun(old(Value()), [s])
      ensures View(Value()) == ListRun(old(View(Value())), [s])
    {
      ghost var f := Value();
      BranchesAgree(f, [s]);
      assert [s][..0] == [] && FlatRun(f, [s][..0]) == f;
      AppendFast(s.tokens, s.logprobs, RanksOf(s), s.decoded);
    }

    /** `extend`: one position per element. */
    method Extend(positions: seq<Option<seq<Entry>>>)
      requires Ready()
      modifies this
      ensures Ready() && View(Value()) == old(View(Value())) + Dicts(positions)
    {
      for i := 0 to |positions|
        invariant Ready() && View(Value()) == old(View(Value())) + Dicts(positions[..i])
      {
        Append(positions[i]);
        assert positions[..i + 1][..i] == positions[..i];
      }
      assert positions[..|positions|] == positions;
    }

    /** `__getitem__` on a position: the dictionary, as its items in insertion order. Negative
        positions count from the end; others out of range are an IndexError. */
    method GetItem(index: int) returns (r: Option<seq<Entry>>)
      requires Ready()
      ensures r.Some? <==> -|startIndices| <= index < |startIndices|
      ensures r.Some? ==>
                && DistinctTokens(r.value)
                && DictOf(r.value) == At(Value(), if index < 0 then index + |startIndices| else index)
    {
      if !(-|startIndices| <= index < |startIndices|) {
        return None;
      }
      var k := if index < 0 then index + |startIndices| else index;
      var items: seq<Entry> := [];
      ghost var entries := EntriesAt(Value(), k);
      for i := startIndices[k] to endIndices[k]
        invariant DistinctTokens(items) && DictOf(items) == DictOf(entries[..i - startIndices[k]])
      {
        var e := Entry(tokenIds[i], Logprob(logprobs[i], ranks[i], decodedTokens[i]));
        ghost var n := i - startIndices[k];
        assert entries[n] == e && entries[..n + 1][..n] == entries[..n];
        PutIsUpdate(items, e);
        items := Put(items, e);
      }
      assert entries[..|entries|] == entries;
      return Some(items);
    }

    /** Extending from another container re-reads it position by position. */
    method ExtendFrom(other: FlatLogprobs)
      requires Ready() && other.Ready() && other != this
      modifies this
      ensures Ready() && View(Value()) == old(View(Value())) + old(View(other.Value()))
    {
      for k := 0 to |other.startIndices|
        invariant Ready() && View(Value()) == old(View(Value())) + View(other.Value())[..k]
      {
        var items := other.GetItem(k);
        Append(items);
      }
      assert View(other.Value())[..|other.startIndices|] == View(other.Value());
    }

    /** `__getitem__` on a slice: a zero step and an empty selection raise. A positive step gives a
        container that reads as the selected positions, ready for further slicing and appending. */
    method GetSlice(s: Slice) returns (r: FlatLogprobs?)
      requires Ready()
      ensures r == null <==> s.step == Some(0) || forall k :: !InBounds(s, |startIndices|, k)
      ensures r != null ==>
                && 0 <= FirstOf(s, |startIndices|)
                && Selects(|startIndices|, FirstOf(s, |startIndices|), StepOf(s), CountOf(s, |startIndices|))
                && IsFirst(s, |startIndices|, FirstOf(s, |startIndices|))
                && fresh(r) && r.Parallel()
                && r.Value() == Sliced(Value(), FirstOf(s, |startIndices|), StepOf(s), CountOf(s, |startIndices|))
      ensures r != null && 0 < StepOf(s) ==>
                && r.Ready() && |View(r.Value())| == CountOf(s, |startIndices|)
                && forall j :: 0 <= j < CountOf(s, |startIndices|) ==>
                     var k := Selected(FirstOf(s, |startIndices|), StepOf(s), j);
                     0 <= k < |startIndices| && View(r.Value())[j] == View(Value())[k]
    {
      if s.step != Some(0) {
        SliceSelectsExactly(s, |startIndices|);
      }
      if StepOf(s) == 0 || CountOf(s, |startIndices|) == 0 {
        return null;
      }
      SliceSelects(s, |startIndices|);
      var first, step, count := FirstOf(s, |startIndices|), StepOf(s), CountOf(s, |startIndices|);
      r := CopySelected(first, step, count);
      if 0 < step {
        SliceReadsSelected(Value(), first, step, count);
      }
    }

    method CopySelected(first: nat, step: int, count: nat) returns (r: FlatLogprobs)
      requires Ready() && Selects(|startIndices|, first, step, count)
      ensures fresh(r) && r.Parallel() && r.Value() == Sliced(Value(), first, step, count)
    {
      var starts, ends := Picked(startIndices, first, step, count), Picked(endIndices, first, step, count);
      var low, high := starts[0], ends[count - 1];
      assert 0 <= low && high <= |tokenIds| by {
        SelectedAreInside(|startIndices|, first, step, count);
      }
      r := new FlatLogprobs();
      r.startIndices, r.endIndices := Shifted(starts, low), Shifted(ends, low);
      if low <= high {
        r.tokenIds, r.logprobs := tokenIds[low..high], logprobs[low..high];
        r.ranks, r.decodedTokens := ranks[low..high], decodedTokens[low..high];
        assert r.Value().entries == Value().entries[low..high];
      }
      assert r.Value().entries == Stretch(Value().entries, low, high);
    }
  }

  /** The other branch: a plain list of dictionaries. */
  class PositionList {
    var positions: seq<OnePosition>

    constructor ()
      ensures positions == []
    {
      positions := [];
    }

    /** `append_logprobs_for_next_position` on a list: a dictionary comprehension over the same zip. */
    method AppendStep(s: Step)
      modifies this
      ensures positions == ListRun(old(positions), [s])
    {
      var ranks := RanksOf(s);
      ghost var items := StepEntries(s);
      var position: OnePosition := map[];
      var i := 0;
      while i < |s.tokens| && i < |s.logprobs| && i < |ranks| && i < |s.decoded|
        invariant 0 <= i <= |items| && position == DictOf(items[..i])
      {
        position := position[s.tokens[i] := Logprob(s.logprobs[i], Some(ranks[i]), s.decoded[i])];
        assert items[..i + 1][..i] == items[..i];
        i := i + 1;
      }
      assert items[..i] == items;
      assert [s][..0] == [] && ListRun(positions, [s][..0]) == positions;
      positions := positions + [position];
    }
  }

  function Dicts(positions: seq<Option<seq<Entry>>>): seq<OnePosition> {
    if positions == [] then []
    else
      var last := positions[|positions| - 1];
      Dicts(positions[..|positions| - 1]) + [DictOf(if last.Some? then last.value else [])]
  }
}
