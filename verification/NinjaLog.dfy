/** tools/report_build_time_ninja.py, `ReadTargets`: the state machine over log lines. */
module NinjaLog {
  import opened NinjaReport

  /** A split log line: five fields, or anything else. Times are whole milliseconds. */
  datatype Line = Malformed | Record(start: int, end: int, name: string, cmdhash: string)

  /** The time in seconds is that many whole milliseconds. */
  ghost predicate IsMillis(time: real, ms: int) {
    time * 1000.0 == ms as real
  }

  function Seconds(ms: int): real {
    ms as real / 1000.0
  }

  /** What a target shows: its command, its times and the outputs it lists. */
  datatype Group = Group(cmdhash: string, start: real, end: real, names: seq<string>)

  function Records(lines: seq<Line>): (r: seq<Line>)
    ensures forall i :: 0 <= i < |r| ==> r[i].Record?
  {
    if lines == [] then []
    else
      var last := lines[|lines| - 1];
      if last.Record? then Records(lines[..|lines| - 1]) + [last] else Records(lines[..|lines| - 1])
  }

  ghost predicate AllRecords(recs: seq<Line>) {
    forall i :: 0 <= i < |recs| ==> recs[i].Record?
  }

  function IndexOf(groups: seq<Group>, cmdhash: string): (k: nat)
    ensures k <= |groups|
    ensures k < |groups| ==> groups[k].cmdhash == cmdhash
    ensures forall j :: 0 <= j < k ==> groups[j].cmdhash != cmdhash
  {
    if groups == [] then 0
    else if groups[0].cmdhash == cmdhash then 0
    else 1 + IndexOf(groups[1..], cmdhash)
  }

  function AddRecord(groups: seq<Group>, r: Line): seq<Group>
    requires r.Record?
  {
    var k := IndexOf(groups, r.cmdhash);
    if k < |groups| then groups[k := groups[k].(names := groups[k].names + [r.name])]
    else groups + [Group(r.cmdhash, Seconds(r.start), Seconds(r.end), [r.name])]
  }

  /** Records grouped by command, commands in first-seen order. */
  function Grouped(recs: seq<Line>): seq<Group>
    requires AllRecords(recs)
  {
    if recs == [] then [] else AddRecord(Grouped(recs[..|recs| - 1]), recs[|recs| - 1])
  }

  /** Output names listed for a command, in log order. */
  function NamesOf(recs: seq<Line>, cmdhash: string): seq<string>
    requires AllRecords(recs)
  {
    if recs == [] then []
    else
      var last := recs[|recs| - 1];
      var before := NamesOf(recs[..|recs| - 1], cmdhash);
      if last.cmdhash == cmdhash then before + [last.name] else before
  }

  /** Position of a command's first record, or the number of records. */
  function FirstOf(recs: seq<Line>, cmdhash: string): (k: nat)
    requires AllRecords(recs)
    ensures k <= |recs|
    ensures k < |recs| ==> recs[k].cmdhash == cmdhash
    ensures forall j :: 0 <= j < k ==> recs[j].cmdhash != cmdhash
  {
    if recs == [] then 0
    else
      var k := FirstOf(recs[..|recs| - 1], cmdhash);
      if k < |recs| - 1 then k else if recs[|recs| - 1].cmdhash == cmdhash then k else |recs|
  }

  /** Each group is one command: all its outputs, once and in order, under the times of its first record. */
  ghost predicate Describes(g: Group, recs: seq<Line>)
    requires AllRecords(recs)
  {
    var k := FirstOf(recs, g.cmdhash);
    && k < |recs|
    && IsMillis(g.start, recs[k].start) && IsMillis(g.end, recs[k].end)
    && g.names == NamesOf(recs, g.cmdhash)
  }

  /** One more record: the first positions of known commands stay, a new command's is the last. */
  lemma OneMore(before: seq<Line>, r: Line, cmdhash: string)
    requires AllRecords(before) && r.Record?
    ensures var recs, k := before + [r], FirstOf(before, cmdhash);
      && FirstOf(recs, cmdhash) == (if k < |before| then k else if r.cmdhash == cmdhash then |before| else |recs|)
      && (k < |before| ==> recs[k] == before[k])
      && NamesOf(recs, cmdhash) == NamesOf(before, cmdhash) + if r.cmdhash == cmdhash then [r.name] else []
  {
    assert (before + [r])[..|before|] == before;
  }

  lemma {:induction false} UnseenHasNoNames(recs: seq<Line>, cmdhash: string)
    requires AllRecords(recs) && !Seen(recs, cmdhash)
    ensures NamesOf(recs, cmdhash) == []
  {
    if recs != [] {
      var before, r := recs[..|recs| - 1], recs[|recs| - 1];
      assert recs == before + [r];
      OneMore(before, r, cmdhash);
      UnseenHasNoNames(before, cmdhash);
    }
  }

  ghost predicate Seen(recs: seq<Line>, cmdhash: string)
    requires AllRecords(recs)
  {
    FirstOf(recs, cmdhash) < |recs|
  }

  ghost predicate HasGroup(groups: seq<Group>, cmdhash: string) {
    IndexOf(groups, cmdhash) < |groups|
  }

  /** Every command seen has a group, and each group describes its command. */
  ghost predicate Complete(groups: seq<Group>, recs: seq<Line>)
    requires AllRecords(recs)
  {
    && (forall i :: 0 <= i < |groups| ==> Describes(groups[i], recs))
    && (forall h :: Seen(recs, h) ==> HasGroup(groups, h))
  }

  ghost predicate Earlier(groups: seq<Group>, recs: seq<Line>, i: nat, j: nat)
    requires AllRecords(recs) && i < |groups| && j < |groups|
  {
    FirstOf(recs, groups[i].cmdhash) < FirstOf(recs, groups[j].cmdhash)
  }

  ghost predicate FirstSeenOrder(groups: seq<Group>, recs: seq<Line>)
    requires AllRecords(recs)
  {
    forall i, j :: 0 <= i < j < |groups| ==> Earlier(groups, recs, i, j)
  }

  /** Grouping lists every command once, in first-seen order, with all its outputs. */
  lemma {:induction false} GroupedMeaning(recs: seq<Line>)
    requires AllRecords(recs)
    ensures Complete(Grouped(recs), recs) && FirstSeenOrder(Grouped(recs), recs)
  {
    if recs != [] {
      var before, r := recs[..|recs| - 1], recs[|recs| - 1];
      var groups := Grouped(before);
      assert recs == before + [r];
      GroupedMeaning(before);
      forall h ensures Seen(recs, h) ==> HasGroup(Grouped(recs), h) {
        assert Seen(before, h) ==> HasGroup(groups, h);
        OneMore(before, r, h);
        AddRecordFinds(groups, r, h);
      }
      assert Seen(before, r.cmdhash) ==> HasGroup(groups, r.cmdhash);
      forall i | 0 <= i < |Grouped(recs)| ensures Describes(Grouped(recs)[i], recs) {
        if i < |groups| && HasGroup(groups, r.cmdhash) {
          OneGroupEach(groups, before, i, IndexOf(groups, r.cmdhash));
        }
        assert i < |groups| ==> Describes(groups[i], before);
        AddRecordDescribes(groups, before, r, i);
      }
      forall i, j | 0 <= i < j < |Grouped(recs)| ensures Earlier(Grouped(recs), recs, i, j) {
        assert Describes(groups[i], before);
        assert j < |groups| ==> Describes(groups[j], before) && Earlier(groups, before, i, j);
        AddRecordOrder(groups, before, r, i, j);
      }
    }
  }

  lemma OneGroupEach(groups: seq<Group>, recs: seq<Line>, i: nat, k: nat)
    requires AllRecords(recs) && FirstSeenOrder(groups, recs) && i < |groups| && k < |groups|
    ensures groups[i].cmdhash == groups[k].cmdhash ==> i == k
  {
    if i < k {
      assert Earlier(groups, recs, i, k);
    } else if k < i {
      assert Earlier(groups, recs, k, i);
    }
  }

  /** Adding a record changes no group's command, and a group it adds is the record's own. */
  lemma SameHashes(groups: seq<Group>, r: Line)
    requires r.Record?
    ensures var groups' := AddRecord(groups, r);
      && |groups'| == (if HasGroup(groups, r.cmdhash) then |groups| else |groups| + 1)
      && (forall i :: 0 <= i < |groups| ==> groups'[i].cmdhash == groups[i].cmdhash)
      && (!HasGroup(groups, r.cmdhash) ==> groups'[|groups|].cmdhash == r.cmdhash)
  {
  }

  lemma AddRecordFinds(groups: seq<Group>, r: Line, h: string)
    requires r.Record?
    ensures HasGroup(AddRecord(groups, r), h) <==> HasGroup(groups, h) || h == r.cmdhash
  {
    var groups', k := AddRecord(groups, r), IndexOf(groups, h);
    SameHashes(groups, r);
    if k < |groups| || h == r.cmdhash {
      assert groups'[k].cmdhash == h;
    }
  }

  lemma AddRecordDescribes(groups: seq<Group>, before: seq<Line>, r: Line, i: nat)
    requires AllRecords(before) && r.Record? && i < |AddRecord(groups, r)|
    requires i < |groups| ==> Describes(groups[i], before)
    requires i < |groups| && groups[i].cmdhash == r.cmdhash ==> i == IndexOf(groups, r.cmdhash)
    requires Seen(before, r.cmdhash) ==> HasGroup(groups, r.cmdhash)
    ensures Describes(AddRecord(groups, r)[i], before + [r])
  {
    if i < |groups| {
      OneMore(before, r, groups[i].cmdhash);
    } else {
      OneMore(before, r, r.cmdhash);
      UnseenHasNoNames(before, r.cmdhash);
    }
  }

  lemma AddRecordOrder(groups: seq<Group>, before: seq<Line>, r: Line, i: nat, j: nat)
    requires AllRecords(before) && r.Record? && i < j < |AddRecord(groups, r)| && i < |groups|
    requires Describes(groups[i], before)
    requires j < |groups| ==> Describes(groups[j], before) && Earlier(groups, before, i, j)
    requires Seen(before, r.cmdhash) ==> HasGroup(groups, r.cmdhash)
    ensures Earlier(AddRecord(groups, r), before + [r], i, j)
  {
    SameHashes(groups, r);
    OneMore(before, r, groups[i].cmdhash);
    OneMore(before, r, AddRecord(groups, r)[j].cmdhash);
  }

  // ---- the reader -----------------------------------------------------------

  predicate SameTimes(a: Line, b: Line)
    requires a.Record? && b.Record?
  {
    a.start == b.start && a.end == b.end
  }

  ghost predicate EndsAscend(recs: seq<Line>)
    requires AllRecords(recs)
  {
    forall i, j :: 0 <= i <= j < |recs| ==> recs[i].end <= recs[j].end
  }

  ghost predicate TimesAgree(recs: seq<Line>)
    requires AllRecords(recs)
  {
    forall i, j :: 0 <= i < j < |recs| && recs[i].cmdhash == recs[j].cmdhash ==> SameTimes(recs[i], recs[j])
  }

  /** The log of one build: end times never go back, and a command keeps its times. */
  ghost predicate OneBuild(recs: seq<Line>)
    requires AllRecords(recs)
  {
    EndsAscend(recs) && TimesAgree(recs)
  }

  /** The reader's two reasons to reset. */
  ghost predicate BreaksOff(recs: seq<Line>, r: Line, first: nat)
    requires AllRecords(recs) && r.Record? && first < |recs|
  {
    var j := FirstOf(recs[first..], r.cmdhash);
    || r.end < recs[|recs| - 1].end
    || (j < |recs| - first && !SameTimes(recs[first + j], r))
  }

  /** Where the kept records start: at the last record that broke off from those kept before it. */
  ghost function FirstKept(recs: seq<Line>): (first: nat)
    requires AllRecords(recs)
    ensures first <= |recs|
  {
    if recs == [] then 0
    else
      var before, r := recs[..|recs| - 1], recs[|recs| - 1];
      var first := FirstKept(before);
      if first < |before| && BreaksOff(before, r, first) then |before| else first
  }

  /** Record `k` cannot belong to the same build as the records before it. */
  ghost predicate StartsNewBuild(recs: seq<Line>, k: nat)
    requires AllRecords(recs) && k < |recs|
  {
    || (0 < k && recs[k].end < recs[k - 1].end)
    || (exists j :: 0 <= j < k && recs[j].cmdhash == recs[k].cmdhash && !SameTimes(recs[j], recs[k]))
  }

  /** The dictionary, in insertion order, shows exactly the groups, on distinct objects. */
  ghost predicate Mirrors(order: seq<string>, dict: map<string, Target>, groups: seq<Group>)
    reads dict.Values
  {
    && |order| == |groups| && (forall h :: h in dict <==> h in order)
    && (forall k :: 0 <= k < |groups| ==>
          order[k] == groups[k].cmdhash && order[k] in dict && Shows(dict[order[k]], groups[k]))
    && (forall j, k :: 0 <= j < k < |order| ==> order[j] != order[k])
    && (forall g, h :: g in dict && h in dict && g != h ==> dict[g] != dict[h])
  }

  ghost predicate Shows(t: Target, g: Group)
    reads t
  {
    t.start == g.start && t.end == g.end && t.targets == g.names
  }

  /** Looks the command up, makes a target when there is none, and appends the output name. */
  method AddLine(order: seq<string>, dict: map<string, Target>, r: Line, ghost groups: seq<Group>)
    returns (order': seq<string>, dict': map<string, Target>)
    requires r.Record? && Mirrors(order, dict, groups)
    modifies dict.Values
    ensures Mirrors(order', dict', AddRecord(groups, r))
    ensures forall t :: t in dict'.Values && t !in dict.Values ==> fresh(t)
  {
    ghost var k := IndexOf(groups, r.cmdhash);
    order', dict' := order, dict;
    var target;
    if r.cmdhash in dict {
      target := dict[r.cmdhash];
    } else {
      target := new Target(Seconds(r.start), Seconds(r.end));
      order', dict' := order + [r.cmdhash], dict[r.cmdhash := target];
    }
    target.targets := target.targets + [r.name];
  }

  lemma SecondsInjective(a: int, b: int)
    ensures Seconds(a) == Seconds(b) <==> a == b
    ensures Seconds(a) < Seconds(b) <==> a < b
  {
  }

  /** The times the reader compares with are those of the command's first record. */
  lemma TimesOfCommand(block: seq<Line>, r: Line)
    requires AllRecords(block) && r.Record?
    ensures var groups := Grouped(block); var k := IndexOf(groups, r.cmdhash); var j := FirstOf(block, r.cmdhash);
      && (k < |groups| <==> j < |block|)
      && (k < |groups| ==>
            (groups[k].start == Seconds(r.start) && groups[k].end == Seconds(r.end) <==> SameTimes(block[j], r)))
  {
    var groups := Grouped(block);
    var k := IndexOf(groups, r.cmdhash);
    GroupedMeaning(block);
    assert Seen(block, r.cmdhash) ==> HasGroup(groups, r.cmdhash);
    if k < |groups| {
      assert Describes(groups[k], block);
      var j := FirstOf(block, r.cmdhash);
      SecondsInjective(block[j].start, r.start);
      SecondsInjective(block[j].end, r.end);
    }
  }

  lemma BuildGoesOn(block: seq<Line>, r: Line)
    requires AllRecords(block) && r.Record? && OneBuild(block)
    requires block != [] ==> block[|block| - 1].end <= r.end
    requires FirstOf(block, r.cmdhash) < |block| ==> SameTimes(block[FirstOf(block, r.cmdhash)], r)
    ensures OneBuild(block + [r])
  {
    EndsGoOn(block, r);
    AgreementGoesOn(block, r);
  }

  lemma EndsGoOn(block: seq<Line>, r: Line)
    requires AllRecords(block) && r.Record? && EndsAscend(block)
    requires block != [] ==> block[|block| - 1].end <= r.end
    ensures EndsAscend(block + [r])
  {
    forall i | 0 <= i < |block| ensures block[i].end <= r.end {
      assert block[i].end <= block[|block| - 1].end;
    }
  }

  lemma {:induction false} AgreementGoesOn(block: seq<Line>, r: Line)
    requires AllRecords(block) && r.Record? && TimesAgree(block)
    requires FirstOf(block, r.cmdhash) < |block| ==> SameTimes(block[FirstOf(block, r.cmdhash)], r)
    ensures TimesAgree(block + [r])
  {
    var first := FirstOf(block, r.cmdhash);
    forall i | 0 <= i < |block| && block[i].cmdhash == r.cmdhash ensures SameTimes(block[i], r) {
      assert i == first || SameTimes(block[first], block[i]);
    }
  }

  /** Where the kept records start: everywhere with `showAll`, else at the last that broke off. */
  ghost function KeptFrom(recs: seq<Line>, showAll: bool): (first: nat)
    requires AllRecords(recs)
    ensures first <= |recs|
  {
    if showAll then 0 else FirstKept(recs)
  }

  /** The kept records form one build, and the first of them cannot belong to an earlier one. */
  lemma {:induction false} KeptIsOneBuild(recs: seq<Line>)
    requires AllRecords(recs)
    ensures recs != [] ==> FirstKept(recs) < |recs|
    ensures OneBuild(recs[FirstKept(recs)..])
    ensures 0 < FirstKept(recs) ==> StartsNewBuild(recs, FirstKept(recs))
  {
    if recs != [] {
      var before, r := recs[..|recs| - 1], recs[|recs| - 1];
      KeptIsOneBuild(before);
      assert recs == before + [r];
      KeptGoesOn(before, r, FirstKept(before));
    }
  }

  lemma KeptGoesOn(recs: seq<Line>, r: Line, first: nat)
    requires r.Record? && AllRecords(recs) && first <= |recs| && (recs != [] ==> first < |recs|)
    requires OneBuild(recs[first..]) && (0 < first ==> StartsNewBuild(recs, first))
    ensures var first' := if first < |recs| && BreaksOff(recs, r, first) then |recs| else first;
      OneBuild((recs + [r])[first'..]) && (0 < first' ==> StartsNewBuild(recs + [r], first'))
  {
    if first < |recs| {
      if BreaksOff(recs, r, first) {
        NewBuildStarts(recs, r, first);
        assert (recs + [r])[|recs|..] == [r];
      } else {
        BuildGoesOn(recs[first..], r);
        assert (recs + [r])[first..] == recs[first..] + [r];
        StillStarts(recs, r, first);
      }
    }
  }

  /** A record joins the kept ones exactly if they form one build together; otherwise it starts over. */
  lemma KeptIsGreedy(recs: seq<Line>, r: Line)
    requires AllRecords(recs) && r.Record?
    ensures FirstKept([]) == 0
    ensures FirstKept(recs + [r]) == if OneBuild(recs[FirstKept(recs)..] + [r]) then FirstKept(recs) else |recs|
  {
    assert (recs + [r])[..|recs|] == recs;
    KeptIsOneBuild(recs);
    if recs != [] {
      BreaksIff(recs, r, FirstKept(recs));
    }
  }

  lemma BreaksIff(recs: seq<Line>, r: Line, first: nat)
    requires AllRecords(recs) && r.Record? && first < |recs| && OneBuild(recs[first..])
    ensures BreaksOff(recs, r, first) <==> !OneBuild(recs[first..] + [r])
  {
    var kept := recs[first..];
    assert kept[|kept| - 1] == recs[|recs| - 1] && kept[0..] == kept;
    assert BreaksOff(recs, r, first) <==> BreaksOff(kept, r, 0);
    if BreaksOff(recs, r, first) {
      BreakingIsNoBuild(kept, r);
    } else {
      BuildGoesOn(kept, r);
    }
  }

  lemma BreakingIsNoBuild(kept: seq<Line>, r: Line)
    requires AllRecords(kept) && r.Record? && kept != [] && BreaksOff(kept, r, 0)
    ensures !OneBuild(kept + [r])
  {
    var all, n := kept + [r], |kept|;
    assert kept[0..] == kept && all[n] == r && all[n - 1] == kept[n - 1];
    var j := FirstOf(kept, r.cmdhash);
    if r.end >= kept[n - 1].end {
      assert all[j] == kept[j] && all[j].cmdhash == all[n].cmdhash;
    }
  }

  /** The records of a log are its well-formed lines, in order. */
  lemma {:induction false} RecordsInOrder(lines: seq<Line>, more: seq<Line>)
    ensures Records(lines + more) == Records(lines) + Records(more)
    ensures Records([]) == [] && Records([Malformed]) == []
    ensures forall r: Line :: r.Record? ==> Records([r]) == [r]
  {
    forall r: Line ensures [r][..0] == [] {
    }
    if more == [] {
      assert lines + more == lines;
    } else {
      RecordsInOrder(lines, more[..|more| - 1]);
      assert (lines + more)[..|lines + more| - 1] == lines + more[..|more| - 1];
    }
  }

  /** The names of a command are listed in the order of its records. */
  lemma {:induction false} NamesInOrder(recs: seq<Line>, more: seq<Line>, cmdhash: string)
    requires AllRecords(recs) && AllRecords(more)
    ensures NamesOf(recs + more, cmdhash) == NamesOf(recs, cmdhash) + NamesOf(more, cmdhash)
    ensures forall r: Line :: r.Record? ==> NamesOf([r], cmdhash) == if r.cmdhash == cmdhash then [r.name] else []
  {
    forall r: Line ensures [r][..0] == [] {
    }
    if more == [] {
      assert recs + more == recs;
    } else {
      NamesInOrder(recs, more[..|more| - 1], cmdhash);
      assert (recs + more)[..|recs + more| - 1] == recs + more[..|more| - 1];
    }
  }

  /** Reads the whole log. The targets are distinct and describe the kept well-formed records,
      grouped by command. With `showAll` these are all of them; otherwise they form one build, and
      the first of them cannot belong to an earlier one. */
  method ReadTargets(lines: seq<Line>, showAll: bool) returns (targets: seq<Target>)
    ensures var first := KeptFrom(Records(lines), showAll); var groups := Grouped(Records(lines)[first..]);
      && |targets| == |groups|
      && (forall k :: 0 <= k < |targets| ==>
            Shows(targets[k], groups[k]) && Describes(groups[k], Records(lines)[first..]))
      && (forall j, k :: 0 <= j < k < |targets| ==> targets[j] != targets[k])
      && (if showAll then first == 0 else OneBuild(Records(lines)[first..]))
      && (0 < first ==> first < |Records(lines)| && StartsNewBuild(Records(lines), first))
    ensures forall k :: 0 <= k < |targets| ==> fresh(targets[k])
  {
    var order, dict := ReadDict(lines, showAll);
    ghost var first := KeptFrom(Records(lines), showAll);
    KeptIsOneBuild(Records(lines));
    GroupedMeaning(Records(lines)[first..]);
    targets := ValuesOf(order, dict, Grouped(Records(lines)[first..]));
  }

  /** The loop over the lines. */
  method ReadDict(lines: seq<Line>, showAll: bool) returns (order: seq<string>, dict: map<string, Target>)
    ensures fresh(dict.Values)
    ensures Mirrors(order, dict, Grouped(Records(lines)[KeptFrom(Records(lines), showAll)..]))
  {
    order, dict := [], map[];
    var lastEnd := 0.0;
    ghost var recs: seq<Line> := [];
    for i := 0 to |lines|
      invariant recs == Records(lines[..i])
      invariant fresh(dict.Values) && Mirrors(order, dict, Grouped(recs[KeptFrom(recs, showAll)..]))
      invariant lastEnd == LastEnd(recs)
    {
      assert lines[..i + 1][..i] == lines[..i];
      if lines[i].Record? {
        order, dict := ReadRecord(order, dict, lines[i], showAll, lastEnd, recs);
        recs := recs + [lines[i]];
        lastEnd := Seconds(lines[i].end);
      }
    }
    assert lines[..|lines|] == lines;
  }

  function LastEnd(recs: seq<Line>): real
    requires AllRecords(recs)
  {
    if recs == [] then 0.0 else Seconds(recs[|recs| - 1].end)
  }

  /** `list(targets_dict.values())` */
  method ValuesOf(order: seq<string>, dict: map<string, Target>, ghost groups: seq<Group>) returns (targets: seq<Target>)
    requires Mirrors(order, dict, groups)
    ensures |targets| == |groups| && forall k :: 0 <= k < |targets| ==> Shows(targets[k], groups[k])
    ensures forall j, k :: 0 <= j < k < |targets| ==> targets[j] != targets[k]
    ensures forall k :: 0 <= k < |targets| ==> targets[k] in dict.Values
  {
    targets := [];
    for i := 0 to |order|
      invariant |targets| == i && forall k :: 0 <= k < i ==> order[k] in dict && targets[k] == dict[order[k]]
    {
      targets := targets + [dict[order[i]]];
    }
  }

  /** One record: forget the earlier build if this one cannot belong to it, then add the line. */
  method ReadRecord(order: seq<string>, dict: map<string, Target>, r: Line, showAll: bool, lastEnd: real,
                    ghost recs: seq<Line>)
    returns (order': seq<string>, dict': map<string, Target>)
    requires r.Record? && AllRecords(recs) && lastEnd == LastEnd(recs)
    requires Mirrors(order, dict, Grouped(recs[KeptFrom(recs, showAll)..]))
    modifies dict.Values
    ensures Mirrors(order', dict', Grouped((recs + [r])[KeptFrom(recs + [r], showAll)..]))
    ensures forall t :: t in dict'.Values && t !in dict.Values ==> fresh(t)
  {
    ghost var first;
    order', dict', first := Restart(order, dict, r, showAll, lastEnd, recs);
    assert (recs + [r])[first..] == recs[first..] + [r];
    assert (recs[first..] + [r])[..|recs| - first] == recs[first..];
    order', dict' := AddLine(order', dict', r, Grouped(recs[first..]));
  }

  /** The two resets: an end time that goes back, and a known command with other times. */
  method Restart(order: seq<string>, dict: map<string, Target>, r: Line, showAll: bool, lastEnd: real,
                 ghost recs: seq<Line>)
    returns (order': seq<string>, dict': map<string, Target>, ghost first: nat)
    requires r.Record? && AllRecords(recs) && lastEnd == LastEnd(recs)
    requires Mirrors(order, dict, Grouped(recs[KeptFrom(recs, showAll)..]))
    ensures first <= |recs| && first == KeptFrom(recs + [r], showAll)
    ensures Mirrors(order', dict', Grouped(recs[first..])) && dict'.Values <= dict.Values
  {
    order', dict', first := order, dict, KeptFrom(recs, showAll);
    var end := Seconds(r.end);
    if !showAll && end < lastEnd {
      order', dict', first := [], map[], |recs|;
    }
    if r.cmdhash in dict' && !showAll &&
       (dict'[r.cmdhash].start != Seconds(r.start) || dict'[r.cmdhash].end != end) {
      assert TimesMoved(Grouped(recs[first..]), r) by {
        OneKey(order', dict', Grouped(recs[first..]), r.cmdhash);
      }
      order', dict', first := [], map[], |recs|;
    } else {
      OneKey(order', dict', Grouped(recs[first..]), r.cmdhash);
    }
    ResetsAreBreaks(recs, r, showAll);
  }

  /** The command has a group, under other times than the record's. */
  ghost predicate TimesMoved(groups: seq<Group>, r: Line)
    requires r.Record?
  {
    var k := IndexOf(groups, r.cmdhash);
    k < |groups| && (groups[k].start != Seconds(r.start) || groups[k].end != Seconds(r.end))
  }

  lemma OneKey(order: seq<string>, dict: map<string, Target>, groups: seq<Group>, cmdhash: string)
    requires Mirrors(order, dict, groups)
    ensures cmdhash in dict <==> IndexOf(groups, cmdhash) < |groups|
    ensures cmdhash in dict ==> Shows(dict[cmdhash], groups[IndexOf(groups, cmdhash)])
  {
    if cmdhash in dict {
      var k :| 0 <= k < |order| && order[k] == cmdhash;
      assert groups[k].cmdhash == cmdhash;
    }
  }

  /** Where the two resets of the reader leave the kept records. */
  lemma ResetsAreBreaks(recs: seq<Line>, r: Line, showAll: bool)
    requires AllRecords(recs) && r.Record?
    ensures var first := KeptFrom(recs, showAll);
      KeptFrom(recs + [r], showAll)
        == if !showAll && (Seconds(r.end) < LastEnd(recs) || TimesMoved(Grouped(recs[first..]), r))
           then |recs| else first
  {
    var first := KeptFrom(recs, showAll);
    assert (recs + [r])[..|recs|] == recs;
    KeptIsOneBuild(recs);
    if recs != [] {
      SecondsInjective(r.end, recs[|recs| - 1].end);
      TimesOfCommand(recs[first..], r);
    }
  }

  lemma StillStarts(recs: seq<Line>, r: Line, first: nat)
    requires AllRecords(recs) && r.Record? && first < |recs|
    ensures StartsNewBuild(recs, first) ==> StartsNewBuild(recs + [r], first)
  {
    var longer := recs + [r];
    if StartsNewBuild(recs, first) && !(0 < first && recs[first].end < recs[first - 1].end) {
      var j :| 0 <= j < first && recs[j].cmdhash == recs[first].cmdhash && !SameTimes(recs[j], recs[first]);
      assert longer[j].cmdhash == longer[first].cmdhash && !SameTimes(longer[j], longer[first]);
    }
  }

  lemma NewBuildStarts(recs: seq<Line>, r: Line, first: nat)
    requires AllRecords(recs) && r.Record? && first < |recs| && BreaksOff(recs, r, first)
    ensures StartsNewBuild(recs + [r], |recs|)
  {
    var longer, j := recs + [r], FirstOf(recs[first..], r.cmdhash);
    if !(r.end < recs[|recs| - 1].end) {
      assert recs[first..][j] == recs[first + j] == longer[first + j];
      assert longer[first + j].cmdhash == longer[|recs|].cmdhash && !SameTimes(longer[first + j], longer[|recs|]);
    }
  }
}
