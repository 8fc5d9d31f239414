/** vllm/env_override.py: one reverse pass gives each graph partition its inputs, outputs and freed inputs. */
module PartitionSignature {
  import opened Options
  import opened StagedRuns

  datatype Node = Node(outputs: set<string>, readNames: set<string>, writeNames: set<string>, lastUsage: set<string>)

  /** What the pass needs to know of a buffer: whether it has no storage, and whether its node is
      a mutation output. */
  datatype Buffer = Buffer(noneLayout: bool, mutationOutput: bool)

  datatype Graph = Graph(
    outputNames: set<string>,
    nodes: set<string>,            // keys of name_to_node
    constants: set<string>,
    buffers: map<string, Buffer>,  // name_to_buf
    realName: map<string, string>) // mutation_real_name

  datatype Signature = Signature(
    inputNodes: set<string>,
    outputNodes: set<string>,
    deallocation: map<string, bool>,
    skipCudagraph: bool,
    constantNames: set<string>)

  /** A real name is final: it is not itself renamed. */
  ghost predicate RenamesSettle(g: Graph) {
    forall x :: x in g.realName ==> g.realName[x] !in g.realName
  }

  predicate IsNoneLayout(g: Graph, name: string)
    requires RenamesSettle(g)
    decreases if name in g.realName then 1 else 0
  {
    name in g.buffers && g.buffers[name].noneLayout &&
    (g.buffers[name].mutationOutput && name in g.realName ==> IsNoneLayout(g, g.realName[name]))
  }

  function Real(g: Graph, name: string): string {
    if name in g.realName then g.realName[name] else name
  }

  // ---- what one partition contributes --------------------------------------

  function Outputs(p: seq<Node>): set<string> {
    set i, x | 0 <= i < |p| && x in p[i].outputs :: x
  }

  function Uses(p: seq<Node>): set<string> {
    set i, x | 0 <= i < |p| && x in p[i].readNames + p[i].writeNames :: x
  }

  function Freed(p: seq<Node>): set<string> {
    set i, x | 0 <= i < |p| && x in p[i].lastUsage :: x
  }

  /** Names read or written but not produced here, under their real names, and freed names
      of earlier partitions. */
  function Inputs(g: Graph, p: seq<Node>): set<string>
    requires RenamesSettle(g)
  {
    (set x | x in Uses(p) && !IsNoneLayout(g, x) && x !in Outputs(p) :: Real(g, x))
    + (set x | x in Freed(p) && x !in Outputs(p) && x in g.nodes)
  }

  /** Inputs that this partition does not free. */
  function Kept(g: Graph, p: seq<Node>): set<string>
    requires RenamesSettle(g)
  {
    set x | x in Inputs(g, p) && x in g.nodes && x !in Freed(p)
  }

  /** Inputs that this partition frees. */
  function Dropped(g: Graph, p: seq<Node>): set<string>
    requires RenamesSettle(g)
  {
    set x | x in Inputs(g, p) && x in g.nodes && x in Freed(p)
  }

  function Returned(g: Graph, p: seq<Node>, unmet: set<string>): set<string>
    requires RenamesSettle(g)
  {
    set x | x in Outputs(p) * unmet + Kept(g, p) :: Real(g, x)
  }

  function OutputNodes(g: Graph, p: seq<Node>, unmet: set<string>): set<string>
    requires RenamesSettle(g)
  {
    set x | x in Returned(g, p, unmet) && !IsNoneLayout(g, x)
  }

  function SignatureOf(g: Graph, p: seq<Node>, unmet: set<string>, skip: bool): Signature
    requires RenamesSettle(g)
  {
    Signature(
      Inputs(g, p) * g.nodes,
      OutputNodes(g, p, unmet),
      map x | x in Inputs(g, p) * g.nodes :: x in Freed(p),
      skip,
      Inputs(g, p) * g.constants)
  }

  /** Names still to be produced before partition `i` runs; at the end, the graph outputs. */
  function Unmet(g: Graph, ps: seq<seq<Node>>, i: nat): set<string>
    requires RenamesSettle(g) && i <= |ps|
    decreases |ps| - i
  {
    if i == |ps| then g.outputNames
    else
      var after := Unmet(g, ps, i + 1);
      Inputs(g, ps[i]) + (after - Returned(g, ps[i], after))
  }

  // ---- the pass --------------------------------------------------------------

  method CollectNames(p: seq<Node>) returns (outputs: set<string>, uses: set<string>, freed: set<string>)
    ensures outputs == Outputs(p) && uses == Uses(p) && freed == Freed(p)
  {
    outputs, uses, freed := {}, {}, {};
    for i := 0 to |p|
      invariant outputs == Outputs(p[..i]) && uses == Uses(p[..i]) && freed == Freed(p[..i])
    {
      CollectOne(p, i);
      outputs := outputs + p[i].outputs;
      uses := uses + (p[i].readNames + p[i].writeNames);
      freed := freed + p[i].lastUsage;
    }
    assert p[..|p|] == p;
  }

  lemma CollectOne(p: seq<Node>, i: nat)
    requires i < |p|
    ensures Outputs(p[..i + 1]) == Outputs(p[..i]) + p[i].outputs
    ensures Uses(p[..i + 1]) == Uses(p[..i]) + (p[i].readNames + p[i].writeNames)
    ensures Freed(p[..i + 1]) == Freed(p[..i]) + p[i].lastUsage
  {
    assert p[..i + 1] == p[..i] + [p[i]];
    forall x | x in p[i].outputs ensures x in Outputs(p[..i + 1]) { assert p[..i + 1][i] == p[i]; }
    forall x | x in p[i].readNames + p[i].writeNames ensures x in Uses(p[..i + 1]) { assert p[..i + 1][i] == p[i]; }
    forall x | x in p[i].lastUsage ensures x in Freed(p[..i + 1]) { assert p[..i + 1][i] == p[i]; }
    forall k | 0 <= k < i ensures p[..i + 1][k] == p[..i][k] {}
  }

  /** Partition `i` returns no allocated name without a node. */
  predicate Known(g: Graph, ps: seq<seq<Node>>, i: nat)
    requires RenamesSettle(g) && i < |ps|
  {
    OutputNodes(g, ps[i], Unmet(g, ps, i + 1)) <= g.nodes
  }

  function SignatureAt(g: Graph, ps: seq<seq<Node>>, skips: seq<bool>, i: nat): Signature
    requires RenamesSettle(g) && i < |ps| == |skips|
  {
    SignatureOf(g, ps[i], Unmet(g, ps, i + 1), skips[i])
  }

  /** The body of the reverse loop for partition `i`: its signature, or none when an allocated
      returned name has no node, and the names unmet before it. */
  method OneSignature(g: Graph, ps: seq<seq<Node>>, skips: seq<bool>, i: nat, unmet: set<string>)
    returns (sig: Option<Signature>, before: set<string>)
    requires RenamesSettle(g) && i < |ps| == |skips| && unmet == Unmet(g, ps, i + 1)
    ensures sig.Some? <==> Known(g, ps, i)
    ensures sig.Some? ==> sig.value == SignatureAt(g, ps, skips, i)
    ensures before == Unmet(g, ps, i)
  {
    var p := ps[i];
    var outputs, uses, freed := CollectNames(p);
    var returned := outputs * unmet;
    var inputs := set x | x in uses && !IsNoneLayout(g, x) && x !in outputs;
    inputs := set x | x in inputs :: Real(g, x);
    var extraInputs := set x | x in freed - outputs && x in g.nodes;
    inputs := inputs + extraInputs;
    assert inputs == Inputs(g, p);
    var inputNodes := set x | x in inputs && x in g.nodes;
    assert inputNodes == Inputs(g, p) * g.nodes;
    var deallocation := map x | x in inputNodes :: x in freed;
    var extraOutputs := set x | x in inputs && x in g.nodes && x !in freed;
    assert extraOutputs == Kept(g, p);
    returned := set x | x in returned + extraOutputs :: Real(g, x);
    assert returned == Returned(g, p, unmet);
    var outputNodes := set x | x in returned && !IsNoneLayout(g, x);
    var constantNames := set x | x in inputs && x in g.constants;
    assert constantNames == Inputs(g, p) * g.constants;
    before := inputs + (unmet - returned);
    sig := if outputNodes <= g.nodes
           then Some(Signature(inputNodes, outputNodes, deallocation, skips[i], constantNames)) else None;
  }

  /** Outputs with nodes, and nodes closed under renaming, rule the KeyError out. */
  lemma KnownWhenNodesClosed(g: Graph, ps: seq<seq<Node>>, i: nat)
    requires RenamesSettle(g) && i < |ps| && Outputs(ps[i]) <= g.nodes
    requires forall x :: x in g.nodes ==> Real(g, x) in g.nodes
    ensures Known(g, ps, i)
  {
    forall x | x in OutputNodes(g, ps[i], Unmet(g, ps, i + 1)) ensures x in g.nodes {
      var y :| y in Outputs(ps[i]) * Unmet(g, ps, i + 1) + Kept(g, ps[i]) && x == Real(g, y);
    }
  }

  predicate KnownFrom(g: Graph, ps: seq<seq<Node>>, i: nat)
    requires RenamesSettle(g) && i <= |ps|
    decreases |ps| - i
  {
    i == |ps| || (Known(g, ps, i) && KnownFrom(g, ps, i + 1))
  }

  function SignaturesFrom(g: Graph, ps: seq<seq<Node>>, skips: seq<bool>, i: nat): seq<Signature>
    requires RenamesSettle(g) && i <= |ps| == |skips|
    decreases |ps| - i
  {
    if i == |ps| then [] else [SignatureAt(g, ps, skips, i)] + SignaturesFrom(g, ps, skips, i + 1)
  }

  lemma {:induction false} KnownFromAt(g: Graph, ps: seq<seq<Node>>, i: nat, k: nat)
    requires RenamesSettle(g) && i <= k < |ps|
    ensures KnownFrom(g, ps, i) ==> Known(g, ps, k)
    decreases |ps| - i
  {
    if i < k {
      KnownFromAt(g, ps, i + 1, k);
    }
  }

  lemma {:induction false} SignaturesFromAt(g: Graph, ps: seq<seq<Node>>, skips: seq<bool>, i: nat, k: nat)
    requires RenamesSettle(g) && i <= |ps| == |skips| && i <= k <= |ps|
    ensures |SignaturesFrom(g, ps, skips, i)| == |ps| - i
    ensures k < |ps| ==> SignaturesFrom(g, ps, skips, i)[k - i] == SignatureAt(g, ps, skips, k)
    decreases |ps| - i
  {
    if i < |ps| {
      SignaturesFromAt(g, ps, skips, i + 1, if i < k then k else |ps|);
    }
  }

  /** The reverse pass. It fails (a KeyError) exactly when some partition would return an
      allocated name that has no node. */
  method PartitionSignatures(g: Graph, ps: seq<seq<Node>>, skips: seq<bool>) returns (r: Option<seq<Signature>>)
    requires RenamesSettle(g) && |ps| == |skips|
    ensures r.Some? <==> forall i :: 0 <= i < |ps| ==> SignatureAt(g, ps, skips, i).outputNodes <= g.nodes
    ensures r.Some? ==>
              && |r.value| == |ps|
              && forall i :: 0 <= i < |ps| ==>
                   r.value[i] == SignatureAt(g, ps, skips, i) && r.value[i].skipCudagraph == skips[i]
  {
    var unmet := g.outputNames;
    var signatures: seq<Signature> := [];
    var i := |ps|;
    while i > 0
      invariant 0 <= i <= |ps|
      invariant unmet == Unmet(g, ps, i)
      invariant KnownFrom(g, ps, i) && signatures == SignaturesFrom(g, ps, skips, i)
    {
      i := i - 1;
      var sig, before := OneSignature(g, ps, skips, i, unmet);
      if sig.None? {
        return None;
      }
      signatures := [sig.value] + signatures;
      unmet := before;
    }
    SignaturesFromAt(g, ps, skips, 0, |ps|);
    forall k | 0 <= k < |ps| ensures Known(g, ps, k) && signatures[k] == SignatureAt(g, ps, skips, k) {
      KnownFromAt(g, ps, 0, k);
      SignaturesFromAt(g, ps, skips, 0, k);
    }
    return Some(signatures);
  }

  // ---- running the partitions -------------------------------------------------

  /** Calling a partition needs its input nodes present; it drops those marked for deallocation
      and adds its output nodes. */
  function Call(sig: Signature, env: set<string>): Option<set<string>> {
    if sig.inputNodes <= env
    then Some(env - (set x | x in sig.deallocation && sig.deallocation[x]) + sig.outputNodes)
    else None
  }

  /** Calling partitions `i..` in order, with the signatures the pass gives them. */
  function Execute(g: Graph, ps: seq<seq<Node>>, i: nat, env: set<string>): Option<set<string>>
    requires RenamesSettle(g) && i <= |ps|
    decreases |ps| - i
  {
    if i == |ps| then Some(env)
    else
      match Call(SignatureOf(g, ps[i], Unmet(g, ps, i + 1), false), env)
      case None => None
      case Some(env') => Execute(g, ps, i + 1, env')
  }

  /** The run starting from `env` finds every input and ends with every graph output present. */
  predicate Succeeds(g: Graph, ps: seq<seq<Node>>, i: nat, env: set<string>)
    requires RenamesSettle(g) && i <= |ps|
  {
    var end := Execute(g, ps, i, env);
    end.Some? && g.outputNames * g.nodes <= end.value
  }

  // ---- the partitions as stages -------------------------------------------------------

  /** Partition `k` as a stage: what its call needs, drops and returns. */
  function StageAt(g: Graph, ps: seq<seq<Node>>, k: nat): Stage
    requires RenamesSettle(g) && k < |ps|
  {
    Stage(Inputs(g, ps[k]) * g.nodes, Dropped(g, ps[k]), Returned(g, ps[k], Unmet(g, ps, k + 1)))
  }

  function StagesOf(g: Graph, ps: seq<seq<Node>>): (stages: seq<Stage>)
    requires RenamesSettle(g)
    ensures |stages| == |ps|
  {
    seq(|ps|, k requires 0 <= k < |ps| && RenamesSettle(g) => StageAt(g, ps, k))
  }

  function Unstored(g: Graph): set<string>
    requires RenamesSettle(g)
  {
    set x | x in g.buffers && IsNoneLayout(g, x)
  }

  function Final(g: Graph): set<string> {
    g.outputNames * g.nodes
  }

  lemma CallIsAfter(g: Graph, ps: seq<seq<Node>>, k: nat, env: set<string>)
    requires RenamesSettle(g) && k < |ps|
    ensures var stage := StageAt(g, ps, k);
      Call(SignatureOf(g, ps[k], Unmet(g, ps, k + 1), false), env)
        == if stage.needs <= env then Some(After(stage, Unstored(g), env)) else None
  {
    var stage, sig := StageAt(g, ps, k), SignatureOf(g, ps[k], Unmet(g, ps, k + 1), false);
    assert (set x | x in sig.deallocation && sig.deallocation[x]) == stage.drops;
    assert sig.outputNodes == stage.returned - Unstored(g);
  }

  /** Executing the partitions is running their stages. */
  lemma {:induction false} SucceedsIsRuns(g: Graph, ps: seq<seq<Node>>, i: nat, env: set<string>)
    requires RenamesSettle(g) && i <= |ps|
    ensures Succeeds(g, ps, i, env) <==> Runs(StagesOf(g, ps), Unstored(g), Final(g), i, env)
    decreases |ps| - i
  {
    if i < |ps| {
      var stage := StageAt(g, ps, i);
      CallIsAfter(g, ps, i, env);
      assert StagesOf(g, ps)[i] == stage;
      SucceedsIsRuns(g, ps, i + 1, After(stage, Unstored(g), env));
    }
  }

  /** What the pass leaves unmet, as far as it has nodes, is what the stages leave unmet. */
  lemma {:induction false} UnmetIsStaged(g: Graph, ps: seq<seq<Node>>, i: nat)
    requires RenamesSettle(g) && i <= |ps|
    ensures Unmet(g, ps, i) * g.nodes == StagedRuns.Unmet(StagesOf(g, ps), Final(g), i)
    decreases |ps| - i
  {
    if i < |ps| {
      UnmetIsStaged(g, ps, i + 1);
      assert StagesOf(g, ps)[i] == StageAt(g, ps, i);
      UnmetStep(Inputs(g, ps[i]), Unmet(g, ps, i + 1), StageAt(g, ps, i).returned, g.nodes);
    }
  }

  lemma UnmetStep(inputs: set<string>, after: set<string>, returned: set<string>, nodes: set<string>)
    ensures (inputs + (after - returned)) * nodes == inputs * nodes + (after * nodes - returned)
  {
  }

  // ---- when every input is found ---------------------------------------------------------

  /** A run from any set of names finds every input and ends with every graph output if and only if
      each name needed at some point is supplied before it and not dropped in between. */
  lemma RunSucceedsIff(g: Graph, ps: seq<seq<Node>>, start: set<string>)
    requires RenamesSettle(g)
    ensures Succeeds(g, ps, 0, start) <==>
      forall k: nat :: k <= |ps| ==> AllSupplied(StagesOf(g, ps), Unstored(g), Final(g), start, k)
  {
    SucceedsIsRuns(g, ps, 0, start);
    RunsIffSupplied(StagesOf(g, ps), Unstored(g), Final(g), start);
  }

  /** The pass computes the least starting set: whatever a successful run starts from
      contains every unmet name that has a node. No assumption on the graph is needed. */
  lemma UnmetIsLeast(g: Graph, ps: seq<seq<Node>>, env: set<string>)
    requires RenamesSettle(g) && Succeeds(g, ps, 0, env)
    ensures Unmet(g, ps, 0) * g.nodes <= env
  {
    SucceedsIsRuns(g, ps, 0, env);
    UnmetIsStaged(g, ps, 0);
    UnmetIsNecessary(StagesOf(g, ps), Unstored(g), Final(g), 0, env);
  }

  /** Names without a node make no difference to a run. */
  lemma {:induction false} OnlyNodesMatter(stages: seq<Stage>, unstored: set<string>, final: set<string>, nodes: set<string>,
                                           i: nat, present: set<string>)
    requires i <= |stages| && final <= nodes && forall k :: 0 <= k < |stages| ==> stages[k].needs <= nodes
    ensures forall other :: other * nodes == present * nodes ==>
      (Runs(stages, unstored, final, i, other) <==> Runs(stages, unstored, final, i, present))
    decreases |stages| - i
  {
    if i < |stages| {
      OnlyNodesMatter(stages, unstored, final, nodes, i + 1, After(stages[i], unstored, present));
      forall other | other * nodes == present * nodes
        ensures Runs(stages, unstored, final, i, other) <==> Runs(stages, unstored, final, i, present)
      {
        SameOnNodes(stages[i], unstored, nodes, other, present);
      }
    } else {
      forall other | other * nodes == present * nodes ensures final <= other <==> final <= present {
        SameBelow(final, nodes, other, present);
      }
    }
  }

  lemma SameBelow(needs: set<string>, nodes: set<string>, a: set<string>, b: set<string>)
    requires needs <= nodes && a * nodes == b * nodes
    ensures needs <= a <==> needs <= b
  {
    assert forall x :: x in needs ==> (x in a <==> x in a * nodes) && (x in b <==> x in b * nodes);
  }

  lemma SameOnNodes(s: Stage, unstored: set<string>, nodes: set<string>, a: set<string>, b: set<string>)
    requires s.needs <= nodes && a * nodes == b * nodes
    ensures s.needs <= a <==> s.needs <= b
    ensures After(s, unstored, a) * nodes == After(s, unstored, b) * nodes
  {
    SameBelow(s.needs, nodes, a, b);
    forall x ensures x in After(s, unstored, a) * nodes <==> x in After(s, unstored, b) * nodes {
      assert x in a * nodes <==> x in b * nodes;
    }
  }

  /** Running forward from the names the pass leaves unmet, every partition finds its inputs and every
      graph output is there at the end, if no partition drops a name that is still unmet without
      returning it, and none has to return a name without storage. When names are returned before
      they are taken, this is exactly when. */
  lemma ForwardRunNeverMisses(g: Graph, ps: seq<seq<Node>>)
    requires RenamesSettle(g)
    ensures var stages, unstored, final := StagesOf(g, ps), Unstored(g), Final(g);
      && (NoEarlyDrop(stages, final) && NoneUnstored(stages, unstored, final) ==>
            Succeeds(g, ps, 0, Unmet(g, ps, 0)))
      && (NotTakenBefore(stages) ==>
            (Succeeds(g, ps, 0, Unmet(g, ps, 0)) <==>
             NoEarlyDrop(stages, final) && NoneUnstored(stages, unstored, final)))
  {
    var stages, unstored, final := StagesOf(g, ps), Unstored(g), Final(g);
    UnmetIsStaged(g, ps, 0);
    SucceedsIsRuns(g, ps, 0, Unmet(g, ps, 0));
    OnlyNodesMatter(stages, unstored, final, g.nodes, 0, Unmet(g, ps, 0));
    assert StagedRuns.Unmet(stages, final, 0) * g.nodes == Unmet(g, ps, 0) * g.nodes;
    UnmetRunSucceedsIff(stages, unstored, final);
  }

  // ---- sufficient conditions, and inputs on which they fail ------------------------

  /** Renaming leaves alone what the pass carries from one partition to the next, and none of
      it lacks storage. */
  ghost predicate Allocated(g: Graph, ps: seq<seq<Node>>)
    requires RenamesSettle(g)
  {
    && (forall x :: x in g.outputNames ==> x !in g.realName && !IsNoneLayout(g, x))
    && (forall k, x :: 0 <= k < |ps| && x in Freed(ps[k]) && x in g.nodes ==>
          x !in g.realName && !IsNoneLayout(g, x))
    && (forall x :: x in g.realName && !IsNoneLayout(g, x) ==> !IsNoneLayout(g, g.realName[x]))
  }

  lemma {:induction false} UnmetIsAllocated(g: Graph, ps: seq<seq<Node>>, i: nat)
    requires RenamesSettle(g) && Allocated(g, ps) && i <= |ps|
    ensures forall x :: x in Unmet(g, ps, i) ==> !IsNoneLayout(g, x)
    decreases |ps| - i
  {
    if i < |ps| {
      UnmetIsAllocated(g, ps, i + 1);
    }
  }

  lemma AllocatedStores(g: Graph, ps: seq<seq<Node>>, k: nat)
    requires RenamesSettle(g) && Allocated(g, ps) && k < |ps|
    ensures StoresUnmet(StagesOf(g, ps), Unstored(g), Final(g), k)
  {
    UnmetIsAllocated(g, ps, k + 1);
    UnmetIsStaged(g, ps, k + 1);
    assert StagedRuns.Unmet(StagesOf(g, ps), Final(g), k + 1) * Unstored(g) == {};
  }

  /** When graph outputs, freed names and real names have storage, only an early drop can fail
      the run, from these names or from any others. */
  lemma AllocatedRunNeverMisses(g: Graph, ps: seq<seq<Node>>)
    requires RenamesSettle(g) && Allocated(g, ps)
    ensures NoneUnstored(StagesOf(g, ps), Unstored(g), Final(g))
    ensures Succeeds(g, ps, 0, Unmet(g, ps, 0)) <==> NoEarlyDrop(StagesOf(g, ps), Final(g))
    ensures (exists env :: Succeeds(g, ps, 0, env)) <==> NoEarlyDrop(StagesOf(g, ps), Final(g))
  {
    var stages, unstored, final := StagesOf(g, ps), Unstored(g), Final(g);
    forall k | 0 <= k < |ps| ensures StoresUnmet(stages, unstored, final, k) {
      AllocatedStores(g, ps, k);
    }
    ForwardRunNeverMisses(g, ps);
    forall env | Succeeds(g, ps, 0, env) ensures NoEarlyDrop(stages, final) {
      SucceedsIsRuns(g, ps, 0, env);
      SuccessDropsNothingEarly(stages, unstored, final, 0, env);
    }
  }

  /** No partition after `k` takes the name and it is no graph output. */
  ghost predicate DoneAfter(g: Graph, ps: seq<seq<Node>>, k: nat, x: string)
    requires RenamesSettle(g)
  {
    x !in g.outputNames && forall j :: k < j < |ps| ==> x !in Inputs(g, ps[j])
  }

  /** A partition's last usages are last. */
  ghost predicate LastUse(g: Graph, ps: seq<seq<Node>>)
    requires RenamesSettle(g)
  {
    forall k, x :: 0 <= k < |ps| && x in Freed(ps[k]) ==> DoneAfter(g, ps, k, x)
  }

  lemma DoneIsNotUnmet(g: Graph, ps: seq<seq<Node>>, k: nat, x: string)
    requires RenamesSettle(g) && k < |ps| && DoneAfter(g, ps, k, x)
    ensures x !in StagedRuns.Unmet(StagesOf(g, ps), Final(g), k + 1)
  {
    forall j | k < j < |ps| ensures x !in StagesOf(g, ps)[j].needs {
      assert x !in Inputs(g, ps[j]);
    }
    UnmetIsUsedLater(StagesOf(g, ps), Final(g), k + 1, x);
  }

  lemma LastUseKeeps(g: Graph, ps: seq<seq<Node>>, k: nat)
    requires RenamesSettle(g) && LastUse(g, ps) && k < |ps|
    ensures KeepsUnmet(StagesOf(g, ps), Final(g), k)
  {
    forall x | x in StagesOf(g, ps)[k].drops ensures x !in StagedRuns.Unmet(StagesOf(g, ps), Final(g), k + 1) {
      assert x in Freed(ps[k]);
      DoneIsNotUnmet(g, ps, k, x);
    }
  }

  /** When usages marked last are last, nothing is dropped early, and the run misses an input only
      for want of storage. */
  lemma LastUseSuffices(g: Graph, ps: seq<seq<Node>>)
    requires RenamesSettle(g) && LastUse(g, ps)
    ensures var stages, unstored, final := StagesOf(g, ps), Unstored(g), Final(g);
      && NoEarlyDrop(stages, final)
      && (NoneUnstored(stages, unstored, final) ==> Succeeds(g, ps, 0, Unmet(g, ps, 0)))
      && (NotTakenBefore(stages) ==>
            (Succeeds(g, ps, 0, Unmet(g, ps, 0)) <==> NoneUnstored(stages, unstored, final)))
  {
    var stages, final := StagesOf(g, ps), Final(g);
    forall k | 0 <= k < |ps| ensures KeepsUnmet(stages, final, k) {
      LastUseKeeps(g, ps, k);
    }
    ForwardRunNeverMisses(g, ps);
  }

  function OneBuffer(noneLayout: bool): Graph {
    Graph({}, {"b"}, {}, map["b" := Buffer(noneLayout, false)], map[])
  }

  /** Nodes on that buffer. */
  const PRODUCES: Node := Node({"b"}, {}, {}, {})
  const READS: Node := Node({}, {"b"}, {}, {})
  const FREES: Node := Node({}, {}, {}, {"b"})

  lemma OneNode(n: Node)
    ensures Outputs([n]) == n.outputs && Uses([n]) == n.readNames + n.writeNames && Freed([n]) == n.lastUsage
  {
    assert [n][0] == n;
  }

  /** A buffer without storage, produced by one partition and freed by the next: the usages are last and
      the pass raises nothing, but the second call demands what the first never returns. */
  lemma FreedWithoutStorage() returns (g: Graph, ps: seq<seq<Node>>)
    ensures RenamesSettle(g) && LastUse(g, ps) && forall k :: 0 <= k < |ps| ==> Known(g, ps, k)
    ensures !NoneUnstored(StagesOf(g, ps), Unstored(g), Final(g)) && !Succeeds(g, ps, 0, Unmet(g, ps, 0))
  {
    g, ps := OneBuffer(true), [[PRODUCES], [FREES]];
    OneNode(PRODUCES);
    OneNode(FREES);
    assert Inputs(g, ps[0]) == {} && Inputs(g, ps[1]) == {"b"};
    assert Returned(g, ps[1], {}) == {} && Unmet(g, ps, 1) == {"b"};
    assert "b" in Returned(g, ps[0], Unmet(g, ps, 1)) by {
      assert "b" in Outputs(ps[0]) * Unmet(g, ps, 1) && Real(g, "b") == "b";
    }
    var stages, unstored, final := StagesOf(g, ps), Unstored(g), Final(g);
    UnmetIsStaged(g, ps, 1);
    assert !StoresUnmet(stages, unstored, final, 0) by {
      assert "b" in StagedRuns.Unmet(stages, final, 1) * stages[0].returned * unstored;
    }
    ForwardRunNeverMisses(g, ps);
  }

  /** A buffer freed by one partition and read by the next: the reader misses it. */
  lemma DroppedEarly() returns (g: Graph, ps: seq<seq<Node>>)
    ensures RenamesSettle(g) && Allocated(g, ps)
    ensures !NoEarlyDrop(StagesOf(g, ps), Final(g)) && !Succeeds(g, ps, 0, Unmet(g, ps, 0))
  {
    g, ps := OneBuffer(false), [[PRODUCES], [FREES], [READS]];
    OneNode(FREES);
    OneNode(READS);
    assert Real(g, "b") == "b" && "b" in Inputs(g, ps[2]) && Inputs(g, ps[1]) == {"b"};
    assert Kept(g, ps[1]) == {} && Returned(g, ps[1], Unmet(g, ps, 2)) == {};
    var stages, final := StagesOf(g, ps), Final(g);
    UnmetIsStaged(g, ps, 2);
    assert !KeepsUnmet(stages, final, 1) by {
      assert "b" in stages[1].drops * StagedRuns.Unmet(stages, final, 2);
    }
    AllocatedRunNeverMisses(g, ps);
  }

  /** Every name a partition reads or writes is produced in it, has no storage, is no node, or is
      an input; and an input it does not free comes back as an output under its real name. */
  lemma SignatureCovers(g: Graph, p: seq<Node>, unmet: set<string>, skip: bool, x: string)
    requires RenamesSettle(g)
    ensures var sig := SignatureOf(g, p, unmet, skip);
      && (x in Uses(p) && x !in Outputs(p) && !IsNoneLayout(g, x) && Real(g, x) in g.nodes ==>
            Real(g, x) in sig.inputNodes)
      && (x in sig.inputNodes && !sig.deallocation[x] && !IsNoneLayout(g, Real(g, x)) ==>
            Real(g, x) in sig.outputNodes)
      && (x in sig.inputNodes && sig.deallocation[x] <==> x in Dropped(g, p))
  {
    var sig := SignatureOf(g, p, unmet, skip);
    if x in sig.inputNodes && !sig.deallocation[x] {
      assert x in Kept(g, p);
    }
  }
}
