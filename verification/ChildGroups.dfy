/** vllm/model_inspection.py: numbered children collapsed into groups of one structure. */
module ChildGroups {
  import opened RangeText
  import opened Sequences
  import opened ModuleInspection

  /** A numbered child and the signature of its structure. */
  datatype Child = Child(index: int, sig: string)

  /** The children of one signature, in the order met. */
  datatype Group = Group(sig: string, indices: seq<int>)

  function IndexOf(groups: seq<Group>, sig: string): (k: nat)
    ensures k <= |groups|
    ensures k < |groups| ==> groups[k].sig == sig
    ensures forall j :: 0 <= j < k ==> groups[j].sig != sig
  {
    if groups == [] then 0 else if groups[0].sig == sig then 0 else 1 + IndexOf(groups[1..], sig)
  }

  /** `sig_to_group.setdefault(sig, []).append(...)` on an insertion-ordered dictionary. */
  function AddChild(groups: seq<Group>, c: Child): seq<Group> {
    var k := IndexOf(groups, c.sig);
    if k < |groups| then groups[k := Group(c.sig, groups[k].indices + [c.index])]
    else groups + [Group(c.sig, [c.index])]
  }

  /** Indices of the children with a signature, in order. */
  function Members(children: seq<Child>, sig: string): seq<int> {
    if children == [] then []
    else
      var last := children[|children| - 1];
      Members(children[..|children| - 1], sig) + if last.sig == sig then [last.index] else []
  }

  function IndicesOf(children: seq<Child>): seq<int> {
    if children == [] then [] else IndicesOf(children[..|children| - 1]) + [children[|children| - 1].index]
  }

  /** All indices of all groups together. */
  function AllIndices(groups: seq<Group>): multiset<int> {
    if groups == [] then multiset{}
    else AllIndices(groups[..|groups| - 1]) + multiset(groups[|groups| - 1].indices)
  }

  /** Every group is one signature's members, and no signature has two groups. */
  ghost predicate BySignature(groups: seq<Group>, children: seq<Child>) {
    && (forall k :: 0 <= k < |groups| ==> IsSignature(groups[k], children))
    && (forall j, k :: 0 <= j < k < |groups| ==> groups[j].sig != groups[k].sig)
  }

  ghost predicate IsSignature(g: Group, children: seq<Child>) {
    g.indices == Members(children, g.sig) && g.indices != []
  }

  lemma AllIndicesSnoc(groups: seq<Group>, g: Group)
    ensures AllIndices(groups + [g]) == AllIndices(groups) + multiset(g.indices)
  {
    assert (groups + [g])[..|groups|] == groups;
  }

  lemma {:induction false} AllIndicesUpdate(groups: seq<Group>, k: nat, g: Group, x: int)
    requires k < |groups| && g.indices == groups[k].indices + [x]
    ensures AllIndices(groups[k := g]) == AllIndices(groups) + multiset{x}
  {
    var last := |groups| - 1;
    if k < last {
      assert groups[k := g][..last] == groups[..last][k := g];
      AllIndicesUpdate(groups[..last], k, g, x);
    } else {
      assert groups[k := g][..last] == groups[..last];
      assert multiset(g.indices) == multiset(groups[k].indices) + multiset{x};
    }
  }

  lemma AddChildAll(groups: seq<Group>, c: Child)
    ensures AllIndices(AddChild(groups, c)) == AllIndices(groups) + multiset{c.index}
  {
    var k := IndexOf(groups, c.sig);
    if k < |groups| {
      AllIndicesUpdate(groups, k, Group(c.sig, groups[k].indices + [c.index]), c.index);
    } else {
      AllIndicesSnoc(groups, Group(c.sig, [c.index]));
    }
  }

  lemma {:induction false} NoMembers(children: seq<Child>, sig: string)
    requires forall k :: 0 <= k < |children| ==> children[k].sig != sig
    ensures Members(children, sig) == []
  {
    if children != [] {
      NoMembers(children[..|children| - 1], sig);
    }
  }

  ghost predicate HasGroup(groups: seq<Group>, sig: string) {
    IndexOf(groups, sig) < |groups|
  }

  ghost predicate NoneMissing(groups: seq<Group>, children: seq<Child>) {
    forall k :: 0 <= k < |children| ==> HasGroup(groups, children[k].sig)
  }

  /** After the children `before`: grouped by signature, none missing, each counted once. */
  ghost predicate Collected(groups: seq<Group>, before: seq<Child>) {
    && BySignature(groups, before)
    && NoneMissing(groups, before)
    && AllIndices(groups) == multiset(IndicesOf(before))
  }

  lemma AddChildCollects(groups: seq<Group>, numbered: seq<Child>, i: nat)
    requires i < |numbered| && Collected(groups, numbered[..i])
    ensures Collected(AddChild(groups, numbered[i]), numbered[..i + 1])
  {
    var before, c := numbered[..i], numbered[i];
    assert numbered[..i + 1] == before + [c];
    AddChildBySignature(groups, before, c);
    AddChildAll(groups, c);
    assert (before + [c])[..|before|] == before;
  }

  lemma CollectedAll(groups: seq<Group>, numbered: seq<Child>)
    requires Collected(groups, numbered[..|numbered|])
    ensures BySignature(groups, numbered) && AllIndices(groups) == multiset(IndicesOf(numbered))
  {
    assert numbered[..|numbered|] == numbered;
  }

  lemma AddChildBySignature(groups: seq<Group>, before: seq<Child>, c: Child)
    requires BySignature(groups, before) && NoneMissing(groups, before)
    ensures BySignature(AddChild(groups, c), before + [c])
    ensures NoneMissing(AddChild(groups, c), before + [c])
  {
    AddChildMisses(groups, before, c);
    var groups' := AddChild(groups, c);
    forall k | 0 <= k < |groups'| ensures IsSignature(groups'[k], before + [c]) {
      AddChildAt(groups, before, c, k);
    }
    assert forall j, k :: 0 <= j < k < |groups| ==> groups'[j].sig == groups[j].sig && groups'[k].sig == groups[k].sig;
  }

  lemma AddChildMisses(groups: seq<Group>, before: seq<Child>, c: Child)
    requires NoneMissing(groups, before)
    ensures NoneMissing(AddChild(groups, c), before + [c])
  {
    var groups', children := AddChild(groups, c), before + [c];
    forall k | 0 <= k < |children| ensures HasGroup(groups', children[k].sig) {
      assert k < |before| ==> HasGroup(groups, before[k].sig);
      var j := IndexOf(groups, children[k].sig);
      assert groups'[j].sig == children[k].sig;
    }
  }

  lemma AddChildAt(groups: seq<Group>, before: seq<Child>, c: Child, k: nat)
    requires BySignature(groups, before) && NoneMissing(groups, before) && k < |AddChild(groups, c)|
    ensures IsSignature(AddChild(groups, c)[k], before + [c])
  {
    var children, n := before + [c], IndexOf(groups, c.sig);
    assert children[..|before|] == before;
    if k < |groups| {
      assert IsSignature(groups[k], before);
      assert k == n || groups[k].sig != c.sig;
    } else {
      NewSignature(groups, before, c.sig);
    }
  }

  lemma NewSignature(groups: seq<Group>, before: seq<Child>, sig: string)
    requires IndexOf(groups, sig) == |groups|
    requires NoneMissing(groups, before)
    ensures Members(before, sig) == []
  {
    forall k | 0 <= k < |before| ensures before[k].sig != sig {
      assert HasGroup(groups, before[k].sig);
    }
    NoMembers(before, sig);
  }

  /** The grouping loop. */
  method GroupChildren(numbered: seq<Child>) returns (groups: seq<Group>)
    ensures BySignature(groups, numbered)
    ensures AllIndices(groups) == multiset(IndicesOf(numbered))
  {
    groups := [];
    for i := 0 to |numbered|
      invariant Collected(groups, numbered[..i])
    {
      AddChildCollects(groups, numbered, i);
      groups := AddChild(groups, numbered[i]);
    }
    CollectedAll(groups, numbered);
  }

  // ---- sorted(groups, key = first index) -------------------------------------------------

  function FirstIndex(g: Group): int {
    if g.indices == [] then 0 else g.indices[0]
  }

  predicate NotAfter(a: Group, b: Group) {
    FirstIndex(a) <= FirstIndex(b)
  }

  ghost predicate NoneEmpty(groups: seq<Group>) {
    forall k :: 0 <= k < |groups| ==> groups[k].indices != []
  }

  /** A group comes before those whose first index is larger. */
  ghost predicate ByFirstIndex(groups: seq<Group>)
    requires NoneEmpty(groups)
  {
    forall j, k :: 0 <= j < k < |groups| ==> groups[j].indices[0] <= groups[k].indices[0]
  }

  lemma OrderedByFirst(groups: seq<Group>)
    ensures NoneEmpty(groups) ==> (Ordered(groups, NotAfter) <==> ByFirstIndex(groups))
  {
    if NoneEmpty(groups) && ByFirstIndex(groups) {
      forall j, k | 0 <= j < k < |groups| ensures NotAfter(groups[j], groups[k]) {
        assert groups[j].indices[0] <= groups[k].indices[0];
      }
    }
    if NoneEmpty(groups) && Ordered(groups, NotAfter) {
      forall j, k | 0 <= j < k < |groups| ensures groups[j].indices[0] <= groups[k].indices[0] {
        assert NotAfter(groups[j], groups[k]);
      }
    }
  }

  function SortedGroups(groups: seq<Group>): seq<Group> {
    Sort(groups, NotAfter)
  }

  lemma SortedGroupsSorts(groups: seq<Group>)
    ensures Ordered(SortedGroups(groups), NotAfter) && multiset(SortedGroups(groups)) == multiset(groups)
  {
    SortSorts(groups, NotAfter);
  }

  lemma {:induction false} AllIndicesFront(groups: seq<Group>)
    requires groups != []
    ensures AllIndices(groups) == multiset(groups[0].indices) + AllIndices(groups[1..])
  {
    if |groups| > 1 {
      var before := groups[..|groups| - 1];
      AllIndicesFront(before);
      assert before[1..] == groups[1..][..|groups| - 2];
      assert groups[1..][|groups| - 2] == groups[|groups| - 1];
    } else {
      assert groups[..0] == [] && groups[1..] == [];
    }
  }

  lemma {:induction false} InsertAll(g: Group, groups: seq<Group>)
    ensures AllIndices(Insert(g, groups, NotAfter)) == AllIndices(groups) + multiset(g.indices)
  {
    var r := Insert(g, groups, NotAfter);
    AllIndicesFront(r);
    if groups != [] && !NotAfter(g, groups[0]) {
      InsertAll(g, groups[1..]);
      AllIndicesFront(groups);
      assert r[1..] == Insert(g, groups[1..], NotAfter);
    } else {
      assert r[1..] == groups;
    }
  }

  lemma {:induction false} SortedGroupsAll(groups: seq<Group>)
    ensures AllIndices(SortedGroups(groups)) == AllIndices(groups)
  {
    if groups != [] {
      SortedGroupsAll(groups[1..]);
      AllIndicesFront(groups);
      InsertAll(groups[0], SortedGroups(groups[1..]));
    }
  }

  // ---- the printed labels ------------------------------------------------------------------

  predicate NonNegative(s: seq<int>) {
    forall k :: 0 <= k < |s| ==> 0 <= s[k]
  }

  ghost predicate Labels(text: string, g: Group) {
    NonNegative(g.indices) ==> Names(text, g.indices)
  }

  /** The part of a group's first line that names the children. */
  method Label(g: Group) returns (text: string)
    requires g.indices != []
    ensures Labels(text, g)
  {
    if |g.indices| > 1 {
      text := FormatIndexRanges(g.indices);
    } else {
      text := Str(g.indices[0]);
      SingleNames(g.indices);
    }
  }

  /** Read back and expanded, the label lists exactly these indices. */
  ghost predicate Names(text: string, indices: seq<int>) {
    Parse(text).Some? && Expand(Parse(text).value) == Sorted(indices)
  }

  lemma SingleNames(indices: seq<int>)
    requires |indices| == 1
    ensures 0 <= indices[0] ==> Names(Str(indices[0]), indices)
  {
    var ranges := [Range(indices[0], indices[0])];
    if 0 <= indices[0] {
      PrintParses(ranges);
      PrintAllAt(ranges, 0);
      assert Print(ranges) == Str(indices[0]);
      assert ranges[..0] == [] && Expand(ranges) == [indices[0]];
      assert indices == [indices[0]];
      assert Sort(indices[1..], AtMost) == [];
    }
  }

  /** All indices read back from a list of labels. */
  ghost function Listed(labels: seq<string>): multiset<int> {
    if labels == [] then multiset{}
    else
      var last := Parse(labels[|labels| - 1]);
      Listed(labels[..|labels| - 1]) + if last.Some? then multiset(Expand(last.value)) else multiset{}
  }

  lemma {:induction false} ListedAll(labels: seq<string>, groups: seq<Group>)
    requires |labels| == |groups| && forall k :: 0 <= k < |labels| ==> Names(labels[k], groups[k].indices)
    ensures Listed(labels) == AllIndices(groups)
  {
    if labels != [] {
      ListedAll(labels[..|labels| - 1], groups[..|groups| - 1]);
      assert Names(labels[|labels| - 1], groups[|groups| - 1].indices);
      SortedSorts(groups[|groups| - 1].indices);
    }
  }

  method LabelAll(groups: seq<Group>) returns (labels: seq<string>)
    requires NoneEmpty(groups)
    ensures |labels| == |groups| && forall k :: 0 <= k < |labels| ==> Labels(labels[k], groups[k])
  {
    labels := [];
    for i := 0 to |groups|
      invariant |labels| == i && forall k :: 0 <= k < i ==> Labels(labels[k], groups[k])
    {
      var text := Label(groups[i]);
      labels := labels + [text];
    }
  }

  /** The numbered part of `_format_module_tree`: one label per structure, by first index. When no
      index is negative, the labels together name every numbered child exactly once, and each
      label names the children of one signature. */
  method PrintNumbered(numbered: seq<Child>) returns (labels: seq<string>, groups: seq<Group>)
    ensures |labels| == |groups| && BySignature(groups, numbered)
    ensures NoneEmpty(groups) && ByFirstIndex(groups)
    ensures NonNegative(IndicesOf(numbered)) ==>
              && (forall k :: 0 <= k < |labels| ==> Names(labels[k], Members(numbered, groups[k].sig)))
              && Listed(labels) == multiset(IndicesOf(numbered))
  {
    var unsorted := GroupChildren(numbered);
    NoSignatureIsEmpty(unsorted, numbered);
    groups := SortedGroups(unsorted);
    OrderedByFirst(groups);
    SortedGroupsAll(unsorted);
    SortedGroupsSorts(unsorted);
    StillBySignature(unsorted, groups, numbered);
    labels := LabelAll(groups);
    if NonNegative(IndicesOf(numbered)) {
      LabelsNameAll(numbered, labels, groups);
    }
  }

  lemma NoSignatureIsEmpty(groups: seq<Group>, children: seq<Child>)
    requires BySignature(groups, children)
    ensures NoneEmpty(groups)
  {
    forall k | 0 <= k < |groups| ensures groups[k].indices != [] {
      assert IsSignature(groups[k], children);
    }
  }

  lemma LabelsNameAll(numbered: seq<Child>, labels: seq<string>, groups: seq<Group>)
    requires BySignature(groups, numbered) && NonNegative(IndicesOf(numbered))
    requires |labels| == |groups| && forall k :: 0 <= k < |labels| ==> Labels(labels[k], groups[k])
    ensures forall k :: 0 <= k < |labels| ==> Names(labels[k], Members(numbered, groups[k].sig))
    ensures Listed(labels) == AllIndices(groups)
  {
    forall k | 0 <= k < |labels|
      ensures Names(labels[k], groups[k].indices) && Names(labels[k], Members(numbered, groups[k].sig))
    {
      assert IsSignature(groups[k], numbered);
      MembersAreIndices(numbered, groups[k].sig);
      assert Labels(labels[k], groups[k]);
    }
    ListedAll(labels, groups);
  }

  lemma {:induction false} MembersAreIndices(children: seq<Child>, sig: string)
    requires NonNegative(IndicesOf(children))
    ensures NonNegative(Members(children, sig))
  {
    if children != [] {
      var all, before := IndicesOf(children), IndicesOf(children[..|children| - 1]);
      assert all == before + [children[|children| - 1].index];
      assert all[|before|] == children[|children| - 1].index;
      forall k | 0 <= k < |before| ensures 0 <= before[k] {
        assert all[k] == before[k];
      }
      MembersAreIndices(children[..|children| - 1], sig);
    }
  }

  /** Reordering the groups keeps them one per signature. */
  lemma StillBySignature(groups: seq<Group>, groups': seq<Group>, children: seq<Child>)
    requires BySignature(groups, children) && multiset(groups') == multiset(groups)
    ensures BySignature(groups', children)
  {
    forall k | 0 <= k < |groups'| ensures IsSignature(groups'[k], children) {
      assert groups'[k] in multiset(groups);
    }
    forall j, k | 0 <= j < k < |groups'| ensures groups'[j].sig != groups'[k].sig {
      if groups'[j].sig == groups'[k].sig {
        assert groups'[j] == groups'[k] by {
          assert IsSignature(groups'[j], children) && IsSignature(groups'[k], children);
        }
        TwiceInMultiset(groups', j, k);
        Once(groups, groups'[j]);
      }
    }
  }

  lemma {:induction false} Once(groups: seq<Group>, g: Group)
    requires forall j, k :: 0 <= j < k < |groups| ==> groups[j].sig != groups[k].sig
    ensures multiset(groups)[g] <= 1
  {
    if groups != [] {
      var before, last := groups[..|groups| - 1], groups[|groups| - 1];
      Once(before, g);
      assert groups == before + [last];
      forall j | 0 <= j < |before| ensures before[j] != last {
        assert groups[j].sig != groups[|groups| - 1].sig;
      }
    }
  }
}
