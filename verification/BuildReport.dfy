/** tools/report_build_time_ninja.py, `main`: reading the log and reporting on it. */
module BuildReport {
  import opened Options
  import opened TimeShares
  import opened NinjaReport
  import opened NinjaLog

  /** The records of the log that belong to its last build. */
  ghost function LastBuild(lines: seq<Line>): (recs: seq<Line>)
    ensures AllRecords(recs)
  {
    NinjaLog.Records(lines)[KeptFrom(NinjaLog.Records(lines), false)..]
  }

  ghost predicate FromZero(recs: seq<Line>)
    requires AllRecords(recs)
  {
    forall i :: 0 <= i < |recs| ==> 0 <= recs[i].start && 0 <= recs[i].end
  }

  ghost predicate NoneReversed(recs: seq<Line>)
    requires AllRecords(recs)
  {
    forall i :: 0 <= i < |recs| ==> recs[i].start <= recs[i].end
  }

  ghost predicate TakeNoTime(recs: seq<Line>)
    requires AllRecords(recs)
  {
    forall i :: 0 <= i < |recs| ==> recs[i].start == recs[0].start == recs[i].end
  }

  ghost predicate SameSpan(t: Task, r: Line)
    requires r.Record?
  {
    IsMillis(t.start, r.start) && IsMillis(t.end, r.end)
  }

  /** Task `k` has the times of record `recordOf[k]`, and record `i` those of task `taskOf[i]`. */
  ghost predicate Spans(tasks: seq<Task>, recs: seq<Line>, recordOf: seq<nat>, taskOf: seq<nat>)
    requires AllRecords(recs)
  {
    && |recordOf| == |tasks| && |taskOf| == |recs|
    && (forall k :: 0 <= k < |tasks| ==> recordOf[k] < |recs| && SameSpan(tasks[k], recs[recordOf[k]]))
    && (forall i :: 0 <= i < |recs| ==> taskOf[i] < |tasks| && SameSpan(tasks[taskOf[i]], recs[i]))
  }

  /** No record starts before record `i` or ends after record `j`. */
  ghost predicate Outermost(recs: seq<Line>, i: nat, j: nat)
    requires AllRecords(recs) && i < |recs| && j < |recs|
  {
    forall k :: 0 <= k < |recs| ==> recs[i].start <= recs[k].start && recs[k].end <= recs[j].end
  }

  /** The time is that from the earliest start to the latest end. */
  ghost predicate Lasts(recs: seq<Line>, length: real)
    requires AllRecords(recs)
  {
    exists i: nat, j: nat ::
      i < |recs| && j < |recs| && Outermost(recs, i, j) && IsMillis(length, recs[j].end - recs[i].start)
  }

  /** A log whose times start at zero is reported on without an exception exactly when its last build has
      records, none of them ends before it starts, and they do not all lie at one instant. The length it
      reports is the time from the earliest start to the latest end of these records. */
  method Summarize(lines: seq<Line>) returns (length: real, report: Option<Report>)
    ensures FromZero(LastBuild(lines)) ==>
              (report.Some? <==> LastBuild(lines) != [] && NoneReversed(LastBuild(lines)) && !TakeNoTime(LastBuild(lines)))
    ensures FromZero(LastBuild(lines)) && LastBuild(lines) != [] ==> Lasts(LastBuild(lines), length)
  {
    var targets := ReadTargets(lines, false);
    ghost var recs := LastBuild(lines);
    TargetsTell(targets, recs);
    length, report := SummarizeEntries(targets);
  }

  lemma TargetsTell(targets: seq<Target>, recs: seq<Line>)
    requires AllRecords(recs) && TimesAgree(recs) && |targets| == |Grouped(recs)|
    requires forall k :: 0 <= k < |targets| ==> Shows(targets[k], Grouped(recs)[k])
    ensures HaveOutputs(targets) && (targets == [] <==> recs == [])
    ensures var tasks := TasksOf(targets);
      && (FromZero(recs) ==> NonNegative(tasks))
      && (WellTimed(tasks) <==> NoneReversed(recs)) && (AtOneInstant(tasks) <==> TakeNoTime(recs))
      && (forall length :: IsLength(tasks, length) ==> Lasts(recs, length))
  {
    NamesNeverEmpty(recs);
    forall k | 0 <= k < |targets| ensures targets[k].targets != [] {
      assert Shows(targets[k], Grouped(recs)[k]);
    }
    var tasks := TasksOf(targets);
    forall k | 0 <= k < |targets| ensures SameTask(tasks[k], Grouped(recs)[k]) {
      assert Shows(targets[k], Grouped(recs)[k]);
    }
    var recordOf, taskOf := GroupsSpan(tasks, recs);
    OrderTold(tasks, recs, recordOf, taskOf);
    InstantTold(tasks, recs, recordOf, taskOf);
    forall length | IsLength(tasks, length) ensures Lasts(recs, length) {
      LengthTold(tasks, recs, recordOf, taskOf, length);
    }
  }

  lemma {:induction false} NamesNeverEmpty(recs: seq<Line>)
    requires AllRecords(recs)
    ensures forall k :: 0 <= k < |Grouped(recs)| ==> Grouped(recs)[k].names != []
  {
    if recs != [] {
      NamesNeverEmpty(recs[..|recs| - 1]);
    }
  }

  ghost predicate SameTask(t: Task, g: Group) {
    t.start == g.start && t.end == g.end
  }

  /** In one build every record has the times of its command's group. */
  lemma GroupsSpan(tasks: seq<Task>, recs: seq<Line>) returns (recordOf: seq<nat>, taskOf: seq<nat>)
    requires AllRecords(recs) && TimesAgree(recs) && |tasks| == |Grouped(recs)|
    requires forall k :: 0 <= k < |tasks| ==> SameTask(tasks[k], Grouped(recs)[k])
    ensures Spans(tasks, recs, recordOf, taskOf)
  {
    var groups := Grouped(recs);
    GroupedMeaning(recs);
    recordOf := seq(|groups|, k requires 0 <= k < |groups| => FirstOf(recs, groups[k].cmdhash));
    taskOf := seq(|recs|, i requires 0 <= i < |recs| => IndexOf(groups, recs[i].cmdhash));
    forall k | 0 <= k < |groups| ensures recordOf[k] < |recs| && SameSpan(tasks[k], recs[recordOf[k]]) {
      assert Describes(groups[k], recs) && SameTask(tasks[k], groups[k]);
    }
    forall i | 0 <= i < |recs| ensures taskOf[i] < |groups| && SameSpan(tasks[taskOf[i]], recs[i]) {
      RecordHasGroup(recs, i);
      assert SameTask(tasks[taskOf[i]], groups[taskOf[i]]);
    }
  }

  lemma RecordHasGroup(recs: seq<Line>, i: nat)
    requires AllRecords(recs) && TimesAgree(recs) && i < |recs|
    ensures var k := IndexOf(Grouped(recs), recs[i].cmdhash);
      k < |Grouped(recs)| && IsMillis(Grouped(recs)[k].start, recs[i].start) && IsMillis(Grouped(recs)[k].end, recs[i].end)
  {
    GroupedMeaning(recs);
    var h := recs[i].cmdhash;
    var first := FirstOf(recs, h);
    assert first == i || (first < i && SameTimes(recs[first], recs[i]));
    assert Seen(recs, h) && HasGroup(Grouped(recs), h);
    assert Describes(Grouped(recs)[IndexOf(Grouped(recs), h)], recs);
  }

  /** What the times of the records say about the tasks. */
  lemma OrderTold(tasks: seq<Task>, recs: seq<Line>, recordOf: seq<nat>, taskOf: seq<nat>)
    requires AllRecords(recs) && Spans(tasks, recs, recordOf, taskOf)
    ensures tasks == [] <==> recs == []
    ensures FromZero(recs) ==> NonNegative(tasks)
    ensures WellTimed(tasks) <==> NoneReversed(recs)
  {
    assert tasks != [] ==> recordOf[0] < |recs|;
    assert recs != [] ==> taskOf[0] < |tasks|;
    forall k | 0 <= k < |tasks|
      ensures tasks[k].start <= tasks[k].end <==> recs[recordOf[k]].start <= recs[recordOf[k]].end
      ensures FromZero(recs) ==> 0.0 <= tasks[k].start && 0.0 <= tasks[k].end
    {
      assert SameSpan(tasks[k], recs[recordOf[k]]);
    }
    forall i | 0 <= i < |recs|
      ensures tasks[taskOf[i]].start <= tasks[taskOf[i]].end <==> recs[i].start <= recs[i].end
    {
      assert SameSpan(tasks[taskOf[i]], recs[i]);
    }
  }

  lemma InstantTold(tasks: seq<Task>, recs: seq<Line>, recordOf: seq<nat>, taskOf: seq<nat>)
    requires AllRecords(recs) && Spans(tasks, recs, recordOf, taskOf)
    ensures AtOneInstant(tasks) <==> TakeNoTime(recs)
  {
    if AtOneInstant(tasks) {
      forall i | 0 <= i < |recs| ensures recs[i].start == recs[0].start == recs[i].end {
        SameInstant(tasks[taskOf[0]], recs[0], tasks[taskOf[i]], recs[i]);
      }
    }
    if TakeNoTime(recs) {
      forall k | 0 <= k < |tasks| ensures tasks[k].start == tasks[0].start == tasks[k].end {
        SameInstant(tasks[0], recs[recordOf[0]], tasks[k], recs[recordOf[k]]);
      }
    }
  }

  lemma LengthTold(tasks: seq<Task>, recs: seq<Line>, recordOf: seq<nat>, taskOf: seq<nat>, length: real)
    requires AllRecords(recs) && Spans(tasks, recs, recordOf, taskOf) && IsLength(tasks, length)
    ensures Lasts(recs, length)
  {
    var i: nat, j: nat :|
      i < |tasks| && j < |tasks| && NinjaReport.Outermost(tasks, i, j) && length == tasks[j].end - tasks[i].start;
    var a, b := recordOf[i], recordOf[j];
    assert SameSpan(tasks[i], recs[a]) && SameSpan(tasks[j], recs[b]);
    forall k | 0 <= k < |recs| ensures recs[a].start <= recs[k].start && recs[k].end <= recs[b].end {
      assert tasks[i].start <= tasks[taskOf[k]].start && tasks[taskOf[k]].end <= tasks[j].end;
      SameOrder(tasks[i], recs[a], tasks[taskOf[k]], recs[k]);
      SameOrder(tasks[taskOf[k]], recs[k], tasks[j], recs[b]);
    }
    assert Outermost(recs, a, b);
    Difference(tasks[j].end, recs[b].end, tasks[i].start, recs[a].start);
  }

  lemma SameInstant(t: Task, r: Line, u: Task, q: Line)
    requires r.Record? && q.Record? && SameSpan(t, r) && SameSpan(u, q)
    ensures u.start == t.start == u.end <==> q.start == r.start == q.end
  {
  }

  lemma SameOrder(t: Task, r: Line, u: Task, q: Line)
    requires r.Record? && q.Record? && SameSpan(t, r) && SameSpan(u, q)
    ensures t.start <= u.start <==> r.start <= q.start
    ensures t.end <= u.end <==> r.end <= q.end
  {
  }

  lemma Difference(a: real, m: int, b: real, n: int)
    requires IsMillis(a, m) && IsMillis(b, n)
    ensures IsMillis(a - b, m - n)
  {
  }
}
