/** vllm/outputs.py: `RequestOutput.add` on the objects it updates in place. */
module RequestOutputs {
  import opened Options
  import opened FlatView
  import opened MergeOutputs

  class CompletionOutput {
    var index: int
    var text: string
    var tokenIds: seq<int>
    var cumulative: Option<real>
    var logprobs: Option<seq<OnePosition>>
    var finishReason: Option<string>
    var stopReason: Option<StopReason>

    constructor (c: Completion)
      ensures Value() == c
    {
      index, text, tokenIds := c.index, c.text, c.tokenIds;
      cumulative, logprobs := c.cumulative, c.logprobs;
      finishReason, stopReason := c.finishReason, c.stopReason;
    }

    function Value(): Completion
      reads this
    {
      Completion(index, text, tokenIds, cumulative, logprobs, finishReason, stopReason)
    }

    /** The aggregating branch; false is the failed assertion. */
    method MergeIn(n: CompletionOutput) returns (ok: bool)
      requires n != this && n.index == index
      modifies this
      ensures ok <==> Combine(old(Value()), n.Value(), true).Some?
      ensures ok ==> Some(Value()) == Combine(old(Value()), n.Value(), true)
      ensures index == old(index)
    {
      text := text + n.text;
      tokenIds := tokenIds + n.tokenIds;
      if n.logprobs.Some? && n.logprobs.value != [] {
        if logprobs.None? {
          return false;
        }
        logprobs := Some(logprobs.value + n.logprobs.value);
      }
      cumulative := n.cumulative;
      finishReason := n.finishReason;
      stopReason := n.stopReason;
      return true;
    }
  }

  function Values(outputs: seq<CompletionOutput>): (r: seq<Completion>)
    reads outputs
  {
    seq(|outputs|, i requires 0 <= i < |outputs| reads outputs => outputs[i].Value())
  }

  ghost predicate DistinctObjects(outputs: seq<CompletionOutput>) {
    forall i, j :: 0 <= i < j < |outputs| ==> outputs[i] != outputs[j]
  }

  ghost predicate NoneShared(a: seq<CompletionOutput>, b: seq<CompletionOutput>) {
    forall i, j :: 0 <= i < |a| && 0 <= j < |b| ==> a[i] != b[j]
  }

  class RequestOutput {
    var outputs: seq<CompletionOutput>
    var finished: bool
    var kvTransferParams: Option<map<string, string>>

    constructor (outputs: seq<CompletionOutput>, finished: bool, kvTransferParams: Option<map<string, string>>)
      ensures this.outputs == outputs && this.finished == finished && this.kvTransferParams == kvTransferParams
    {
      this.outputs, this.finished, this.kvTransferParams := outputs, finished, kvTransferParams;
    }

    /** The inner search: the first output with the index. */
    method Search(index: int) returns (k: nat)
      ensures k == Find(Values(outputs), index)
    {
      for i := 0 to |outputs|
        invariant forall j :: 0 <= j < i ==> Values(outputs)[j].index != index
      {
        if outputs[i].index == index {
          assert Values(outputs)[i].index == index;
          return i;
        }
      }
      return |outputs|;
    }

    /** One new output: merged into the output of its index, put in its place, or appended. */
    method AddCompletion(n: CompletionOutput, aggregate: bool) returns (ok: bool)
      requires DistinctObjects(outputs) && n !in outputs
      modifies this`outputs, outputs
      ensures DistinctObjects(outputs)
      ensures forall k :: 0 <= k < |outputs| ==> outputs[k] in old(outputs) || outputs[k] == n
      ensures ok <==> AddOne(old(Values(outputs)), old(n.Value()), aggregate).Some?
      ensures ok ==> Some(Values(outputs)) == AddOne(old(Values(outputs)), old(n.Value()), aggregate)
    {
      ghost var was := Values(outputs);
      var k := Search(n.index);
      if k == |outputs| {
        outputs := outputs + [n];
        assert Values(outputs) == was + [n.Value()];
        ok := true;
      } else if aggregate {
        ok := outputs[k].MergeIn(n);
        if ok {
          OneChanged(was, Values(outputs), k);
        }
      } else {
        outputs := outputs[k := n];
        OneChanged(was, Values(outputs), k);
        ok := true;
      }
    }

    /** The outer loop over the new outputs. */
    method AddOutputs(ns: seq<CompletionOutput>, aggregate: bool) returns (ok: bool)
      requires DistinctObjects(outputs) && DistinctObjects(ns) && NoneShared(outputs, ns)
      modifies this`outputs, outputs, ns
      ensures ok <==> AddAll(old(Values(outputs)), old(Values(ns)), aggregate).Some?
      ensures ok ==> Some(Values(outputs)) == AddAll(old(Values(outputs)), old(Values(ns)), aggregate)
      ensures DistinctObjects(outputs)
      ensures forall k :: 0 <= k < |outputs| ==> outputs[k] in old(outputs) || outputs[k] in ns
    {
      ghost var was, news := Values(outputs), Values(ns);
      for i := 0 to |ns|
        invariant DistinctObjects(outputs) && AddAll(was, news[..i], aggregate) == Some(Values(outputs))
        invariant forall k :: 0 <= k < |outputs| ==> outputs[k] in old(outputs) || outputs[k] in ns
        invariant forall j :: i <= j < |ns| ==> ns[j] !in outputs && ns[j].Value() == news[j]
      {
        AddAllStep(was, news, i, Values(outputs), aggregate);
        ok := AddCompletion(ns[i], aggregate);
        if !ok {
          StaysFailed(was, news, i, aggregate);
          return;
        }
      }
      assert news[..|ns|] == news;
      ok := true;
    }

    /** What the loop leaves of outputs with distinct indices. */
    method MergeOutputsOf(ns: seq<CompletionOutput>, aggregate: bool) returns (ok: bool)
      requires DistinctObjects(outputs) && DistinctObjects(ns) && NoneShared(outputs, ns)
      modifies this`outputs, outputs, ns
      ensures ok <==> AddAll(old(Values(outputs)), old(Values(ns)), aggregate).Some?
      ensures ok ==> Some(Values(outputs)) == AddAll(old(Values(outputs)), old(Values(ns)), aggregate)
      ensures Unique(old(Values(outputs))) ==>
                && (ok <==> !aggregate || !Clash([], old(Values(outputs)) + old(Values(ns))))
                && (ok ==> IsMerge(Values(outputs), old(Values(outputs)) + old(Values(ns)), aggregate))
      ensures DistinctObjects(outputs)
      ensures forall k :: 0 <= k < |outputs| ==> outputs[k] in old(outputs) || outputs[k] in ns
    {
      ghost var was, news := Values(outputs), Values(ns);
      ok := AddOutputs(ns, aggregate);
      if Unique(was) {
        MergeTold(was, news, aggregate);
      }
    }

    /** `add`: the outputs become the merge of both, unless the assertion fails. */
    method Add(next: RequestOutput, aggregate: bool) returns (ok: bool)
      requires next != this && DistinctObjects(outputs) && DistinctObjects(next.outputs)
      requires NoneShared(outputs, next.outputs)
      modifies this, outputs, next.outputs
      ensures ok <==> AddAll(old(Values(outputs)), old(Values(next.outputs)), aggregate).Some?
      ensures ok ==> Some(Values(outputs)) == AddAll(old(Values(outputs)), old(Values(next.outputs)), aggregate)
      ensures Unique(old(Values(outputs))) ==>
                && (ok <==> !aggregate || !Clash([], old(Values(outputs)) + old(Values(next.outputs))))
                && (ok ==> IsMerge(Values(outputs), old(Values(outputs)) + old(Values(next.outputs)), aggregate))
      ensures DistinctObjects(outputs)
      ensures forall k :: 0 <= k < |outputs| ==> outputs[k] in old(outputs) || outputs[k] in old(next.outputs)
      ensures finished == (old(finished) || next.finished) && kvTransferParams == next.kvTransferParams
      ensures next.outputs == old(next.outputs)
    {
      finished := finished || next.finished;
      kvTransferParams := next.kvTransferParams;
      ok := MergeOutputsOf(next.outputs, aggregate);
    }
  }

  /** One output per index in first-seen order: the sum of its index, or the last one of it. */
  ghost predicate IsMerge(outputs: seq<Completion>, cs: seq<Completion>, aggregate: bool) {
    && Unique(outputs) && Aligned(outputs, FirstSeen(cs))
    && if aggregate then AllSumUp(outputs, cs) else AllLast(outputs, cs)
  }

  lemma MergeTold(was: seq<Completion>, news: seq<Completion>, aggregate: bool)
    requires Unique(was)
    ensures AddAll(was, news, aggregate).Some? <==> !aggregate || !Clash([], was + news)
    ensures AddAll(was, news, aggregate).Some? ==> IsMerge(AddAll(was, news, aggregate).value, was + news, aggregate)
  {
    if aggregate {
      AggregatingSumsUp(was, news);
    } else {
      ReplacingKeepsLast(was, news);
    }
  }

  lemma OneChanged(was: seq<Completion>, now: seq<Completion>, k: nat)
    requires |was| == |now| && k < |was| && forall i :: 0 <= i < |was| && i != k ==> now[i] == was[i]
    ensures now == was[k := now[k]]
  {
  }

  lemma AddAllStep(was: seq<Completion>, news: seq<Completion>, i: nat, mid: seq<Completion>, aggregate: bool)
    requires i < |news| && AddAll(was, news[..i], aggregate) == Some(mid)
    ensures AddAll(was, news[..i + 1], aggregate) == AddOne(mid, news[i], aggregate)
  {
    assert news[..i + 1][..i] == news[..i];
  }

  lemma {:induction false} StaysFailed(was: seq<Completion>, news: seq<Completion>, i: nat, aggregate: bool)
    requires i < |news| && Then(AddAll(was, news[..i], aggregate), news[i], aggregate).None?
    ensures AddAll(was, news, aggregate).None?
  {
    AddLast(was, news[..i], news[i], aggregate);
    AddAllSplit(was, news[..i] + [news[i]], news[i + 1..], aggregate);
    assert news == (news[..i] + [news[i]]) + news[i + 1..];
  }
}
