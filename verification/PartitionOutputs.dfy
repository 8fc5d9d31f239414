/** vllm/env_override.py: what the names in a partition's signature mean to the other partitions. */
module PartitionOutputs {
  import opened StagedRuns
  import opened PartitionSignature

  ghost predicate Produces(p: seq<Node>, x: string) {
    exists i :: 0 <= i < |p| && x in p[i].outputs
  }

  ghost predicate Frees(p: seq<Node>, x: string) {
    exists i :: 0 <= i < |p| && x in p[i].lastUsage
  }

  /** Node `i` reads or writes, under the name `x`, storage of real name `c` from outside. */
  ghost predicate TouchesAs(g: Graph, p: seq<Node>, i: nat, x: string, c: string)
    requires RenamesSettle(g) && i < |p|
  {
    && (x in p[i].readNames || x in p[i].writeNames)
    && !Produces(p, x) && !IsNoneLayout(g, x) && c == if x in g.realName then g.realName[x] else x
  }

  /** The partition takes the name: a node reads or writes it, or frees it for an earlier partition. */
  ghost predicate Takes(g: Graph, p: seq<Node>, c: string)
    requires RenamesSettle(g)
  {
    || (exists i: nat, x :: i < |p| && TouchesAs(g, p, i, x, c))
    || (Frees(p, c) && !Produces(p, c) && c in g.nodes)
  }

  /** A name is without storage if its buffer is, unless that buffer only stands for one with storage. */
  lemma NoStorageIff(g: Graph, x: string)
    requires RenamesSettle(g)
    ensures IsNoneLayout(g, x) <==>
      && x in g.buffers && g.buffers[x].noneLayout
      && (g.buffers[x].mutationOutput && x in g.realName ==>
            g.realName[x] in g.buffers && g.buffers[g.realName[x]].noneLayout)
  {
  }

  lemma CollectedNames(p: seq<Node>, x: string)
    ensures x in Outputs(p) <==> Produces(p, x)
    ensures x in Freed(p) <==> Frees(p, x)
  {
  }

  /** The inputs of a signature are the nodes the partition takes, marked by whether it frees them; its
      constants are the constants it takes. */
  lemma SignatureTakes(g: Graph, p: seq<Node>, unmet: set<string>, skip: bool, c: string)
    requires RenamesSettle(g)
    ensures var sig := SignatureOf(g, p, unmet, skip);
      && (c in sig.inputNodes <==> c in g.nodes && Takes(g, p, c))
      && (c in sig.constantNames <==> c in g.constants && Takes(g, p, c))
      && (c in sig.deallocation <==> c in sig.inputNodes)
      && (c in sig.deallocation ==> (sig.deallocation[c] <==> Frees(p, c)))
      && sig.skipCudagraph == skip
  {
    CollectedNames(p, c);
    InputsAreTaken(g, p, c);
  }

  lemma InputsAreTaken(g: Graph, p: seq<Node>, c: string)
    requires RenamesSettle(g)
    ensures c in Inputs(g, p) <==> Takes(g, p, c)
  {
    CollectedNames(p, c);
    if x :| x in Uses(p) && !IsNoneLayout(g, x) && x !in Outputs(p) && c == Real(g, x) {
      CollectedNames(p, x);
      var i: nat :| i < |p| && x in p[i].readNames + p[i].writeNames;
      assert TouchesAs(g, p, i, x, c);
    }
    if i: nat, x :| i < |p| && TouchesAs(g, p, i, x, c) {
      CollectedNames(p, x);
      assert x in p[i].readNames + p[i].writeNames && x in Uses(p);
      assert c == Real(g, x);
    }
  }

  // ---- outputs -------------------------------------------------------------------

  /** An input of the partition that it does not free. */
  ghost predicate PassesOn(sig: Signature, x: string) {
    x in sig.inputNodes && x in sig.deallocation && !sig.deallocation[x]
  }

  /** The partition passes the name on, or produces it for a later one or for the graph. */
  ghost predicate WantedFrom(g: Graph, ps: seq<seq<Node>>, skips: seq<bool>, k: nat, x: string)
    requires RenamesSettle(g) && k < |ps| == |skips|
  {
    PassesOn(SignatureAt(g, ps, skips, k), x) || (Produces(ps[k], x) && !DoneAfter(g, ps, k, x))
  }

  /** A partition returns nothing but the inputs it passes on and the names it produces that are graph
      outputs or inputs of a later partition, all under their real names. */
  lemma OutputsAreWanted(g: Graph, ps: seq<seq<Node>>, skips: seq<bool>, k: nat, y: string)
    requires RenamesSettle(g) && k < |ps| == |skips| && y in SignatureAt(g, ps, skips, k).outputNodes
    ensures !IsNoneLayout(g, y)
    ensures exists x :: Real(g, x) == y && WantedFrom(g, ps, skips, k, x)
  {
    var sig := SignatureAt(g, ps, skips, k);
    var x :| x in Outputs(ps[k]) * PartitionSignature.Unmet(g, ps, k + 1) + Kept(g, ps[k]) && y == Real(g, x);
    if x in Kept(g, ps[k]) {
      assert PassesOn(sig, x);
    } else {
      CollectedNames(ps[k], x);
      UnmetIsWanted(g, ps, k, k + 1, x);
    }
  }

  lemma {:induction false} UnmetIsWanted(g: Graph, ps: seq<seq<Node>>, k: nat, i: nat, x: string)
    requires RenamesSettle(g) && k < i <= |ps| && x in PartitionSignature.Unmet(g, ps, i)
    ensures !DoneAfter(g, ps, k, x)
    decreases |ps| - i
  {
    if i < |ps| && x !in Inputs(g, ps[i]) {
      UnmetIsWanted(g, ps, k, i + 1, x);
    }
  }

  /** The signatures of the whole pass, in order. */
  ghost predicate AreSignatures(g: Graph, ps: seq<seq<Node>>, skips: seq<bool>, sigs: seq<Signature>)
    requires RenamesSettle(g)
  {
    |ps| == |skips| == |sigs| && forall i :: 0 <= i < |ps| ==> sigs[i] == SignatureAt(g, ps, skips, i)
  }

  /** The name is a graph output, at the end, or an input of call `j`. */
  ghost predicate DemandedAt(g: Graph, sigs: seq<Signature>, j: nat, x: string)
    requires j <= |sigs|
  {
    if j == |sigs| then x in g.outputNames else x in sigs[j].inputNodes
  }

  /** Call `j` is the first from `i` on to demand the name before any call returns it anew. */
  ghost predicate AwaitedBy(g: Graph, sigs: seq<Signature>, i: nat, j: nat, x: string)
    requires i <= j <= |sigs|
  {
    DemandedAt(g, sigs, j, x) && forall m :: i <= m < j ==> x !in sigs[m].outputNodes
  }

  ghost predicate Awaited(g: Graph, sigs: seq<Signature>, i: nat, x: string)
    requires i <= |sigs|
  {
    exists j: nat :: i <= j <= |sigs| && AwaitedBy(g, sigs, i, j, x)
  }

  lemma AwaitedStep(g: Graph, sigs: seq<Signature>, i: nat, x: string)
    requires i < |sigs|
    ensures Awaited(g, sigs, i, x) <==>
      x in sigs[i].inputNodes || (x !in sigs[i].outputNodes && Awaited(g, sigs, i + 1, x))
  {
    if x in sigs[i].inputNodes {
      assert AwaitedBy(g, sigs, i, i, x);
    } else if Awaited(g, sigs, i, x) {
      var j: nat :| i <= j <= |sigs| && AwaitedBy(g, sigs, i, j, x);
      assert AwaitedBy(g, sigs, i + 1, j, x);
    } else if x !in sigs[i].outputNodes && Awaited(g, sigs, i + 1, x) {
      var j: nat :| i + 1 <= j <= |sigs| && AwaitedBy(g, sigs, i + 1, j, x);
      assert AwaitedBy(g, sigs, i, j, x);
    }
  }

  /** For a node with storage, unmet means awaited. */
  lemma {:induction false} UnmetIsAwaited(g: Graph, ps: seq<seq<Node>>, skips: seq<bool>, sigs: seq<Signature>, i: nat, x: string)
    requires RenamesSettle(g) && AreSignatures(g, ps, skips, sigs) && i <= |ps| && x in g.nodes && !IsNoneLayout(g, x)
    ensures x in PartitionSignature.Unmet(g, ps, i) <==> Awaited(g, sigs, i, x)
    decreases |ps| - i
  {
    if i == |ps| {
      assert AwaitedBy(g, sigs, i, i, x) <==> x in g.outputNames;
    } else {
      UnmetIsAwaited(g, ps, skips, sigs, i + 1, x);
      AwaitedStep(g, sigs, i, x);
      assert sigs[i] == SignatureAt(g, ps, skips, i);
    }
  }

  /** What the partition produces for storage that exists is itself a node with storage. */
  ghost predicate ProducesStored(g: Graph, p: seq<Node>)
    requires RenamesSettle(g)
  {
    forall x :: Produces(p, x) && !IsNoneLayout(g, Real(g, x)) ==> x in g.nodes && !IsNoneLayout(g, x)
  }

  /** A partition returns exactly what has storage and is passed on or produced and awaited. */
  lemma OutputsExactly(g: Graph, ps: seq<seq<Node>>, skips: seq<bool>, sigs: seq<Signature>, k: nat, y: string)
    requires RenamesSettle(g) && AreSignatures(g, ps, skips, sigs) && k < |ps| && ProducesStored(g, ps[k])
    ensures y in sigs[k].outputNodes <==>
      !IsNoneLayout(g, y) && exists x :: Real(g, x) == y && Hands(g, ps, sigs, k, x)
  {
    var unmet := PartitionSignature.Unmet(g, ps, k + 1);
    assert sigs[k] == SignatureAt(g, ps, skips, k);
    if !IsNoneLayout(g, y) {
      forall x | Real(g, x) == y
        ensures x in Outputs(ps[k]) * unmet + Kept(g, ps[k]) <==> Hands(g, ps, sigs, k, x)
      {
        CollectedNames(ps[k], x);
        if Produces(ps[k], x) {
          UnmetIsAwaited(g, ps, skips, sigs, k + 1, x);
        }
      }
    }
  }

  ghost predicate Hands(g: Graph, ps: seq<seq<Node>>, sigs: seq<Signature>, k: nat, x: string)
    requires k < |ps| == |sigs|
  {
    PassesOn(sigs[k], x) || (Produces(ps[k], x) && Awaited(g, sigs, k + 1, x))
  }

  // ---- every output is needed --------------------------------------------------------

  /** The stages with `x` no longer returned by stage `k`. */
  ghost function Withholding(stages: seq<Stage>, k: nat, x: string): (r: seq<Stage>)
    requires k < |stages|
    ensures |r| == |stages|
  {
    stages[k := stages[k].(returned := stages[k].returned - {x})]
  }

  /** If partition `k` withheld a name it produces and returns, every run would fail in which the name is not
      there already. */
  lemma ProducedOutputIsNeeded(g: Graph, ps: seq<seq<Node>>, skips: seq<bool>, k: nat, x: string, start: set<string>)
    requires RenamesSettle(g) && k < |ps| == |skips|
    requires x in SignatureAt(g, ps, skips, k).outputNodes && !PassesOn(SignatureAt(g, ps, skips, k), x)
    requires x in g.nodes && forall z :: z in g.realName ==> g.realName[z] != x
    requires !Supplied(StagesOf(g, ps), Unstored(g), start, k, x)
    ensures !Runs(Withholding(StagesOf(g, ps), k, x), Unstored(g), Final(g), 0, start)
  {
    ProducedIsUnmet(g, ps, skips, k, x);
    WithheldIsMissed(StagesOf(g, ps), Unstored(g), Final(g), start, k, x);
  }

  lemma ProducedIsUnmet(g: Graph, ps: seq<seq<Node>>, skips: seq<bool>, k: nat, x: string)
    requires RenamesSettle(g) && k < |ps| == |skips|
    requires x in SignatureAt(g, ps, skips, k).outputNodes && !PassesOn(SignatureAt(g, ps, skips, k), x)
    requires x in g.nodes && forall z :: z in g.realName ==> g.realName[z] != x
    ensures x in StagedRuns.Unmet(StagesOf(g, ps), Final(g), k + 1)
  {
    var z :| z in Outputs(ps[k]) * PartitionSignature.Unmet(g, ps, k + 1) + Kept(g, ps[k]) && x == Real(g, z);
    assert z == x && x !in Kept(g, ps[k]);
    UnmetIsStaged(g, ps, k + 1);
  }

  lemma WithheldIsMissed(stages: seq<Stage>, unstored: set<string>, final: set<string>, start: set<string>,
                         k: nat, x: string)
    requires k < |stages| && x in StagedRuns.Unmet(stages, final, k + 1)
    requires !Supplied(stages, unstored, start, k, x)
    ensures !Runs(Withholding(stages, k, x), unstored, final, 0, start)
  {
    var without := Withholding(stages, k, x);
    var j := FirstDemand(stages, final, k + 1, x);
    if Supplied(without, unstored, start, j, x) {
      var i: nat :| i <= j && SuppliedFrom(without, unstored, start, i, j, x);
      if i <= k {
        forall m | i <= m < k ensures x !in stages[m].drops {
          assert without[m] == stages[m];
        }
        assert SuppliedFrom(stages, unstored, start, i, k, x);
      }
      assert false;
    }
    assert x in NeedsAt(without, final, j) && !AllSupplied(without, unstored, final, start, j);
    RunsIffSupplied(without, unstored, final, start);
  }

  /** Where an unmet name is demanded before any stage returns it. */
  lemma {:induction false} FirstDemand(stages: seq<Stage>, final: set<string>, i: nat, x: string) returns (j: nat)
    requires i <= |stages| && x in StagedRuns.Unmet(stages, final, i)
    ensures i <= j <= |stages| && x in NeedsAt(stages, final, j)
    ensures forall m :: i <= m < j ==> x !in stages[m].returned
    decreases |stages| - i
  {
    j := i;
    if i < |stages| && x !in stages[i].needs {
      j := FirstDemand(stages, final, i + 1, x);
    }
  }
}
