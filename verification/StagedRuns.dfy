/** Stages called one after the other over a set of names: each needs some names present, drops some
    and returns some. What a backward pass over such stages tells about running them forward. */
module StagedRuns {

  datatype Stage = Stage(needs: set<string>, drops: set<string>, returned: set<string>)

  /** Of the names a stage returns, those without storage never become present. */
  function After(s: Stage, unstored: set<string>, present: set<string>): set<string> {
    present - s.drops + (s.returned - unstored)
  }

  /** Calling stages `i..` finds every needed name, and all of `final` is present at the end. */
  predicate Runs(stages: seq<Stage>, unstored: set<string>, final: set<string>, i: nat, present: set<string>)
    requires i <= |stages|
    decreases |stages| - i
  {
    if i == |stages| then final <= present
    else stages[i].needs <= present && Runs(stages, unstored, final, i + 1, After(stages[i], unstored, present))
  }

  // ---- exactly which starts succeed ---------------------------------------------

  function NeedsAt(stages: seq<Stage>, final: set<string>, k: nat): set<string>
    requires k <= |stages|
  {
    if k == |stages| then final else stages[k].needs
  }

  /** The start, or the stage before `j`, supplies the name, and nothing drops it from `j` to `k`. */
  ghost predicate SuppliedFrom(stages: seq<Stage>, unstored: set<string>, start: set<string>, j: nat, k: nat, x: string)
    requires j <= k <= |stages|
  {
    && (if j == 0 then x in start else x in stages[j - 1].returned - unstored)
    && forall i :: j <= i < k ==> x !in stages[i].drops
  }

  ghost predicate Supplied(stages: seq<Stage>, unstored: set<string>, start: set<string>, k: nat, x: string)
    requires k <= |stages|
  {
    exists j: nat :: j <= k && SuppliedFrom(stages, unstored, start, j, k, x)
  }

  ghost predicate AllSupplied(stages: seq<Stage>, unstored: set<string>, final: set<string>, start: set<string>, k: nat)
    requires k <= |stages|
  {
    forall x :: x in NeedsAt(stages, final, k) ==> Supplied(stages, unstored, start, k, x)
  }

  /** A run succeeds if and only if every name needed at some point was supplied before it and
      not dropped in between. */
  lemma RunsIffSupplied(stages: seq<Stage>, unstored: set<string>, final: set<string>, start: set<string>)
    ensures Runs(stages, unstored, final, 0, start)
      <==> forall k: nat :: k <= |stages| ==> AllSupplied(stages, unstored, final, start, k)
  {
    forall x ensures x in start <==> Supplied(stages, unstored, start, 0, x) {
      assert x in start ==> SuppliedFrom(stages, unstored, start, 0, 0, x);
    }
    RunsFrom(stages, unstored, final, start, 0, start);
  }

  lemma SuppliedStep(stages: seq<Stage>, unstored: set<string>, start: set<string>, k: nat, x: string)
    requires k < |stages|
    ensures Supplied(stages, unstored, start, k + 1, x) <==>
      x in stages[k].returned - unstored || (Supplied(stages, unstored, start, k, x) && x !in stages[k].drops)
  {
    if x in stages[k].returned - unstored {
      assert SuppliedFrom(stages, unstored, start, k + 1, k + 1, x);
    } else if Supplied(stages, unstored, start, k + 1, x) {
      var j: nat :| j <= k + 1 && SuppliedFrom(stages, unstored, start, j, k + 1, x);
      assert SuppliedFrom(stages, unstored, start, j, k, x);
    } else if Supplied(stages, unstored, start, k, x) {
      var j: nat :| j <= k && SuppliedFrom(stages, unstored, start, j, k, x);
      assert x !in stages[k].drops ==> SuppliedFrom(stages, unstored, start, j, k + 1, x);
    }
  }

  lemma {:induction false} RunsFrom(stages: seq<Stage>, unstored: set<string>, final: set<string>, start: set<string>,
                                    i: nat, present: set<string>)
    requires i <= |stages| && forall x :: x in present <==> Supplied(stages, unstored, start, i, x)
    ensures Runs(stages, unstored, final, i, present)
      <==> forall k: nat :: i <= k <= |stages| ==> AllSupplied(stages, unstored, final, start, k)
    decreases |stages| - i
  {
    assert AllSupplied(stages, unstored, final, start, i) <==> NeedsAt(stages, final, i) <= present;
    if i < |stages| {
      var present' := After(stages[i], unstored, present);
      forall x ensures x in present' <==> Supplied(stages, unstored, start, i + 1, x) {
        SuppliedStep(stages, unstored, start, i, x);
      }
      RunsFrom(stages, unstored, final, start, i + 1, present');
    }
  }

  // ---- the backward pass -----------------------------------------------------------

  /** Names still to be produced before stage `i`; at the end, `final`. */
  function Unmet(stages: seq<Stage>, final: set<string>, i: nat): set<string>
    requires i <= |stages|
    decreases |stages| - i
  {
    if i == |stages| then final
    else stages[i].needs + (Unmet(stages, final, i + 1) - stages[i].returned)
  }

  /** Whatever a successful run starts from contains every unmet name. */
  lemma {:induction false} UnmetIsNecessary(stages: seq<Stage>, unstored: set<string>, final: set<string>,
                                            i: nat, present: set<string>)
    requires i <= |stages| && Runs(stages, unstored, final, i, present)
    ensures Unmet(stages, final, i) <= present
    decreases |stages| - i
  {
    if i < |stages| {
      UnmetIsNecessary(stages, unstored, final, i + 1, After(stages[i], unstored, present));
    }
  }

  /** Stage `k` drops no name that is still unmet after it, unless it returns that name. */
  predicate KeepsUnmet(stages: seq<Stage>, final: set<string>, k: nat)
    requires k < |stages|
  {
    stages[k].drops * Unmet(stages, final, k + 1) <= stages[k].returned
  }

  /** An unmet name without storage that stage `k` returns is one it took and did not drop. */
  predicate StoresUnmet(stages: seq<Stage>, unstored: set<string>, final: set<string>, k: nat)
    requires k < |stages|
  {
    Unmet(stages, final, k + 1) * stages[k].returned * unstored <= stages[k].needs - stages[k].drops
  }

  ghost predicate NoEarlyDrop(stages: seq<Stage>, final: set<string>) {
    forall k :: 0 <= k < |stages| ==> KeepsUnmet(stages, final, k)
  }

  ghost predicate NoneUnstored(stages: seq<Stage>, unstored: set<string>, final: set<string>) {
    forall k :: 0 <= k < |stages| ==> StoresUnmet(stages, unstored, final, k)
  }

  /** A name a stage returns without taking it is taken by no earlier stage. */
  ghost predicate NotTakenBefore(stages: seq<Stage>) {
    forall j, k :: 0 <= j < k < |stages| ==> stages[k].returned * stages[j].needs <= stages[k].needs
  }

  /** The run from the unmet names succeeds if nothing is dropped early and nothing without storage has
      to be returned. When names are returned before they are taken, this is exactly when. */
  lemma UnmetRunSucceedsIff(stages: seq<Stage>, unstored: set<string>, final: set<string>)
    ensures NoEarlyDrop(stages, final) && NoneUnstored(stages, unstored, final)
      ==> Runs(stages, unstored, final, 0, Unmet(stages, final, 0))
    ensures NotTakenBefore(stages) ==>
      (Runs(stages, unstored, final, 0, Unmet(stages, final, 0)) <==>
       NoEarlyDrop(stages, final) && NoneUnstored(stages, unstored, final))
  {
    var start := Unmet(stages, final, 0);
    if NoEarlyDrop(stages, final) && NoneUnstored(stages, unstored, final) {
      UnmetIsEnough(stages, unstored, final, 0, start);
    }
    if NotTakenBefore(stages) && Runs(stages, unstored, final, 0, start) {
      SuccessDropsNothingEarly(stages, unstored, final, 0, start);
      SuccessStoresAll(stages, unstored, final, 0, start);
    }
  }

  lemma {:induction false} UnmetIsEnough(stages: seq<Stage>, unstored: set<string>, final: set<string>,
                                         i: nat, present: set<string>)
    requires i <= |stages| && Unmet(stages, final, i) <= present
    requires NoEarlyDrop(stages, final) && NoneUnstored(stages, unstored, final)
    ensures Runs(stages, unstored, final, i, present)
    decreases |stages| - i
  {
    if i < |stages| {
      assert KeepsUnmet(stages, final, i) && StoresUnmet(stages, unstored, final, i);
      forall x | x in Unmet(stages, final, i + 1) ensures x in After(stages[i], unstored, present) {
        if x !in stages[i].returned - unstored {
          assert x in stages[i].returned ==> x in Unmet(stages, final, i + 1) * stages[i].returned * unstored;
          assert x in Unmet(stages, final, i);
        }
      }
      UnmetIsEnough(stages, unstored, final, i + 1, After(stages[i], unstored, present));
    }
  }

  /** Whatever a run starts from, if it succeeds nothing was dropped early. */
  lemma {:induction false} SuccessDropsNothingEarly(stages: seq<Stage>, unstored: set<string>, final: set<string>,
                                                    i: nat, present: set<string>)
    requires i <= |stages| && Runs(stages, unstored, final, i, present)
    ensures forall k :: i <= k < |stages| ==> KeepsUnmet(stages, final, k)
    decreases |stages| - i
  {
    if i < |stages| {
      var present' := After(stages[i], unstored, present);
      SuccessDropsNothingEarly(stages, unstored, final, i + 1, present');
      UnmetIsNecessary(stages, unstored, final, i + 1, present');
      forall x | x in stages[i].drops * Unmet(stages, final, i + 1) ensures x in stages[i].returned {
        assert x in present';
      }
    }
  }

  /** What has no storage is present only from the start. */
  lemma {:induction false} SuccessStoresAll(stages: seq<Stage>, unstored: set<string>, final: set<string>,
                                            i: nat, present: set<string>)
    requires NotTakenBefore(stages) && i <= |stages| && Runs(stages, unstored, final, i, present)
    requires present * unstored <= Unmet(stages, final, 0)
    ensures forall k :: i <= k < |stages| ==> StoresUnmet(stages, unstored, final, k)
    decreases |stages| - i
  {
    if i < |stages| {
      var present' := After(stages[i], unstored, present);
      SuccessStoresAll(stages, unstored, final, i + 1, present');
      UnmetIsNecessary(stages, unstored, final, i + 1, present');
      forall x | x in Unmet(stages, final, i + 1) * stages[i].returned * unstored
        ensures x in stages[i].needs - stages[i].drops
      {
        assert x in present' && x in present;
        StaysUnmet(stages, final, i, x);
      }
    }
  }

  /** An unmet name that no stage takes before `k` is still unmet at `k`. */
  lemma {:induction false} StaysUnmet(stages: seq<Stage>, final: set<string>, k: nat, x: string)
    requires k <= |stages| && x in Unmet(stages, final, 0)
    ensures (forall j :: 0 <= j < k ==> x !in stages[j].needs) ==> x in Unmet(stages, final, k)
  {
    if k > 0 {
      StaysUnmet(stages, final, k - 1, x);
    }
  }

  /** A name no later stage needs is not unmet. */
  lemma {:induction false} UnmetIsUsedLater(stages: seq<Stage>, final: set<string>, i: nat, x: string)
    requires i <= |stages| && x !in final && forall j :: i <= j < |stages| ==> x !in stages[j].needs
    ensures x !in Unmet(stages, final, i)
    decreases |stages| - i
  {
    if i < |stages| {
      UnmetIsUsedLater(stages, final, i + 1, x);
    }
  }
}
