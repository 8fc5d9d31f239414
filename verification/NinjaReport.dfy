/** tools/report_build_time_ninja.py, `SummarizeEntries`: the sweep over start and stop events. */
module NinjaReport {
  import opened Options
  import opened Sequences
  import opened TimeShares

  class Target {
    const start: real
    const end: real
    var targets: seq<string>
    var weightedDuration: real

    constructor (start: real, end: real)
      ensures this.start == start && this.end == end && targets == [] && weightedDuration == 0.0
    {
      this.start, this.end := start, end;
      targets, weightedDuration := [], 0.0;
    }
  }

  /** A start or stop record; `target` is the position of the target among the entries. */
  datatype Event = Event(time: real, stop: bool, target: nat)

  /** The sort key is the time, then "start" before "stop". */
  predicate Before(a: Event, b: Event) {
    a.time < b.time || (a.time == b.time && (!a.stop || b.stop))
  }

  lemma BeforeIsOrder()
    ensures IsOrder(Before)
  {
  }

  /** Sorted by time and kind, the target ignored. */
  function SortEvents(events: seq<Event>): seq<Event> {
    Sort(events, Before)
  }

  function StartOf(tasks: seq<Task>, i: nat): Event
    requires i < |tasks|
  {
    Event(tasks[i].start, false, i)
  }

  function StopOf(tasks: seq<Task>, i: nat): Event
    requires i < |tasks|
  {
    Event(tasks[i].end, true, i)
  }

  /** The unsorted records: a start and a stop for each target, in entry order. */
  function Records(tasks: seq<Task>): seq<Event> {
    if tasks == [] then []
    else Records(tasks[..|tasks| - 1]) + [StartOf(tasks, |tasks| - 1), StopOf(tasks, |tasks| - 1)]
  }

  /** Exactly one start and one stop event of every task, in key order. */
  ghost predicate Orderly(tasks: seq<Task>, events: seq<Event>) {
    && Ordered(events, Before)
    && (forall j, k :: 0 <= j < k < |events| ==> events[j] != events[k])
    && (forall k :: 0 <= k < |events| ==>
          events[k].target < |tasks| &&
          events[k] == if events[k].stop then StopOf(tasks, events[k].target) else StartOf(tasks, events[k].target))
    && (forall i :: 0 <= i < |tasks| ==> StartOf(tasks, i) in events && StopOf(tasks, i) in events)
  }

  lemma {:induction false} RecordsOnce(tasks: seq<Task>, e: Event)
    ensures multiset(Records(tasks))[e]
         == if e.target < |tasks| && e == (if e.stop then StopOf(tasks, e.target) else StartOf(tasks, e.target))
            then 1 else 0
  {
    if tasks != [] {
      RecordsOnce(tasks[..|tasks| - 1], e);
    }
  }

  lemma SortedRecordsAreOrderly(tasks: seq<Task>)
    ensures Orderly(tasks, SortEvents(Records(tasks)))
  {
    var events := SortEvents(Records(tasks));
    BeforeIsOrder();
    SortSorts(Records(tasks), Before);
    forall j, k | 0 <= j < k < |events| ensures events[j] != events[k] {
      RecordsOnce(tasks, events[j]);
      if events[j] == events[k] {
        TwiceInMultiset(events, j, k);
      }
    }
    forall k | 0 <= k < |events|
      ensures events[k].target < |tasks|
      ensures events[k] == if events[k].stop then StopOf(tasks, events[k].target) else StartOf(tasks, events[k].target)
    {
      RecordsOnce(tasks, events[k]);
      assert events[k] in multiset(events);
    }
    forall i | 0 <= i < |tasks| ensures StartOf(tasks, i) in events && StopOf(tasks, i) in events {
      RecordsOnce(tasks, StartOf(tasks, i));
      RecordsOnce(tasks, StopOf(tasks, i));
      assert StartOf(tasks, i) in multiset(events) && StopOf(tasks, i) in multiset(events);
    }
  }

  /** The events the sweep runs over. */
  ghost predicate Schedule(tasks: seq<Task>, events: seq<Event>) {
    events == SortEvents(Records(tasks))
  }

  lemma EventAt(tasks: seq<Task>, events: seq<Event>, n: nat)
    requires Schedule(tasks, events) && n < |events|
    ensures events[n].target < |tasks| && events[n] !in events[..n]
    ensures events[n] == if events[n].stop then StopOf(tasks, events[n].target) else StartOf(tasks, events[n].target)
  {
    SortedRecordsAreOrderly(tasks);
  }

  // ---- the sweep ------------------------------------------------------------

  ghost function Times(events: seq<Event>): (times: seq<real>)
    ensures |times| == |events|
  {
    seq(|events|, k requires 0 <= k < |events| => events[k].time)
  }

  /** Tasks whose start, but not whose stop, is among the first `n` events. */
  ghost function Running(tasks: seq<Task>, events: seq<Event>, n: nat): set<nat>
    requires n <= |events|
  {
    set i: nat | i < |tasks| && StartOf(tasks, i) in events[..n] && StopOf(tasks, i) !in events[..n]
  }

  /** Between two different event times, the running table is the set of tasks that cover the gap. */
  lemma RunningIsRunners(tasks: seq<Task>, events: seq<Event>, k: nat)
    requires Schedule(tasks, events) && k + 1 < |events| && events[k].time != events[k + 1].time
    ensures Running(tasks, events, k + 1) == Runners(tasks, Times(events), k)
  {
    SortedRecordsAreOrderly(tasks);
    forall i: nat | i < |tasks|
      ensures i in Running(tasks, events, k + 1) <==> Covers(tasks[i], events[k].time, events[k + 1].time)
    {
      var p, q := Position(events, StartOf(tasks, i)), Position(events, StopOf(tasks, i));
      InPrefix(events, p, k + 1);
      InPrefix(events, q, k + 1);
      TimesGrow(events, p, k);
      TimesGrow(events, q, k);
    }
  }

  ghost function Position(events: seq<Event>, e: Event): (k: nat)
    requires e in events
    ensures k < |events| && events[k] == e
  {
    var k: nat :| k < |events| && events[k] == e;
    k
  }

  lemma InPrefix(events: seq<Event>, p: nat, n: nat)
    requires p < |events| && n <= |events|
    requires forall j, k :: 0 <= j < k < |events| ==> events[j] != events[k]
    ensures events[p] in events[..n] <==> p < n
  {
    if p < n {
      assert events[..n][p] == events[p];
    }
  }

  lemma TimesGrow(events: seq<Event>, p: nat, k: nat)
    requires Ordered(events, Before) && p < |events| && k + 1 < |events|
    ensures if p <= k then events[p].time <= events[k].time else events[k + 1].time <= events[p].time
  {
    if p < k {
      assert Before(events[p], events[k]);
    } else if k + 1 < p {
      assert Before(events[k + 1], events[p]);
    }
  }

  /** Segments closed once `n` events are done. */
  function Closed(n: nat): nat {
    if n == 0 then 0 else n - 1
  }

  function PerTask(elapsed: real, count: nat): real {
    if count == 0 then 0.0 else elapsed / (count as real)
  }

  /** Charging the gap before event `n` to the running tasks closes one more segment. */
  lemma {:induction false} GapIsCharged(tasks: seq<Task>, events: seq<Event>, n: nat, i: nat)
    requires Schedule(tasks, events) && 0 < n < |events| && i < |tasks|
    ensures Share(tasks, Times(events), i, n)
         == Share(tasks, Times(events), i, n - 1)
          + if i in Running(tasks, events, n)
            then PerTask(events[n].time - events[n - 1].time, |Running(tasks, events, n)|) else 0.0
  {
    if events[n].time == events[n - 1].time {
      NothingElapsed(tasks, Times(events), n - 1, |Running(tasks, events, n)|);
    } else {
      RunningIsRunners(tasks, events, n - 1);
    }
  }

  lemma NothingElapsed(tasks: seq<Task>, times: seq<real>, k: nat, count: nat)
    requires k + 1 < |times| && times[k] == times[k + 1]
    ensures Rate(tasks, times, k) == 0.0 && PerTask(0.0, count) == 0.0
  {
    ZeroOver(count);
    ZeroOver(|Runners(tasks, times, k)|);
  }

  lemma ZeroOver(count: nat)
    ensures PerTask(0.0, count) == 0.0
    ensures count != 0 ==> 0.0 / (count as real) == 0.0
  {
  }

  /** The accounts after `n` events: a running task is owed what the level rose since it started;
      what any other task was charged is settled in `weights`. */
  ghost predicate Swept(tasks: seq<Task>, events: seq<Event>, n: nat, done: nat,
                        running: map<nat, real>, level: real, weights: seq<real>)
    requires n <= |events| && done < |events|
  {
    && |weights| == |tasks|
    && running.Keys == Running(tasks, events, n)
    && (forall i :: 0 <= i < |tasks| ==> Account(tasks, events, done, running, level, weights, i))
    && (forall i :: 0 <= i < |tasks| && StopOf(tasks, i) !in events[..n] ==> weights[i] == 0.0)
  }

  ghost predicate Account(tasks: seq<Task>, events: seq<Event>, done: nat,
                          running: map<nat, real>, level: real, weights: seq<real>, i: nat)
    requires i < |tasks| == |weights| && done < |events|
  {
    Share(tasks, Times(events), i, done) == if i in running then level - running[i] else weights[i]
  }

  lemma {:induction false} LevelRises(tasks: seq<Task>, events: seq<Event>, n: nat, running: map<nat, real>,
                   level: real, level': real, weights: seq<real>)
    requires Schedule(tasks, events) && n < |events|
    requires Swept(tasks, events, n, Closed(n), running, level, weights)
    requires level' == level + if n == 0 then 0.0
                               else PerTask(events[n].time - events[n - 1].time, |running|)
    ensures Swept(tasks, events, n, n, running, level', weights)
  {
    assert |running| == |running.Keys|;
    forall i | 0 <= i < |tasks| ensures Account(tasks, events, n, running, level', weights, i) {
      assert Account(tasks, events, Closed(n), running, level, weights, i);
      if n > 0 {
        GapIsCharged(tasks, events, n, i);
      }
    }
  }

  lemma PrefixStep(events: seq<Event>, n: nat, e: Event)
    requires n < |events|
    ensures e in events[..n + 1] <==> e in events[..n] || e == events[n]
  {
    assert events[..n + 1] == events[..n] + [events[n]];
  }

  /** A start event adds its task to the running ones, a stop event removes it. */
  lemma RunningStep(tasks: seq<Task>, events: seq<Event>, n: nat)
    requires Schedule(tasks, events) && n < |events| && events[n].target < |tasks|
    requires !events[n].stop ==> StopOf(tasks, events[n].target) !in events[..n]
    ensures Running(tasks, events, n + 1)
         == if events[n].stop then Running(tasks, events, n) - {events[n].target}
            else Running(tasks, events, n) + {events[n].target}
    ensures forall i :: 0 <= i < |tasks| ==>
              (StopOf(tasks, i) in events[..n + 1] <==>
               StopOf(tasks, i) in events[..n] || (events[n].stop && i == events[n].target))
  {
    EventAt(tasks, events, n);
    forall i: nat | i < |tasks|
      ensures StartOf(tasks, i) in events[..n + 1] <==> StartOf(tasks, i) in events[..n] || StartOf(tasks, i) == events[n]
      ensures StopOf(tasks, i) in events[..n + 1] <==> StopOf(tasks, i) in events[..n] || StopOf(tasks, i) == events[n]
    {
      PrefixStep(events, n, StartOf(tasks, i));
      PrefixStep(events, n, StopOf(tasks, i));
    }
  }

  lemma {:induction false} StartIsSwept(tasks: seq<Task>, events: seq<Event>, n: nat, running: map<nat, real>,
                                        level: real, weights: seq<real>)
    requires Schedule(tasks, events) && n < |events| && events[n].target < |tasks| && !events[n].stop
    requires Swept(tasks, events, n, n, running, level, weights)
    requires StopOf(tasks, events[n].target) !in events[..n]
    ensures Swept(tasks, events, n + 1, n, running[events[n].target := level], level, weights)
  {
    var x := events[n].target;
    RunningStep(tasks, events, n);
    EventAt(tasks, events, n);
    var running' := running[x := level];
    StartedOnce(tasks, events, n);
    forall i | 0 <= i < |tasks| ensures Account(tasks, events, n, running', level, weights, i) {
      assert Account(tasks, events, n, running, level, weights, i);
    }
  }

  lemma StartedOnce(tasks: seq<Task>, events: seq<Event>, n: nat)
    requires Schedule(tasks, events) && n < |events| && !events[n].stop
    ensures events[n].target !in Running(tasks, events, n)
  {
    EventAt(tasks, events, n);
  }

  lemma {:induction false} StopIsSwept(tasks: seq<Task>, events: seq<Event>, n: nat, running: map<nat, real>,
                                       level: real, weights: seq<real>)
    requires Schedule(tasks, events) && n < |events| && events[n].target < |tasks|
    requires events[n].stop && events[n].target in running
    requires Swept(tasks, events, n, n, running, level, weights)
    ensures var x := events[n].target;
      Swept(tasks, events, n + 1, n, running - {x}, level, weights[x := level - running[x]])
  {
    var x := events[n].target;
    RunningStep(tasks, events, n);
    var running', weights' := running - {x}, weights[x := level - running[x]];
    forall i | 0 <= i < |tasks| ensures Account(tasks, events, n, running', level, weights', i) {
      assert Account(tasks, events, n, running, level, weights, i);
    }
  }

  /** A stop event finds its task in the running table exactly when the task does not end before it starts. */
  lemma StopFindsStart(tasks: seq<Task>, events: seq<Event>, n: nat)
    requires Schedule(tasks, events) && n < |events| && events[n].target < |tasks| && events[n].stop
    ensures var x := events[n].target;
      x in Running(tasks, events, n) <==> tasks[x].start <= tasks[x].end
  {
    SortedRecordsAreOrderly(tasks);
    var x := events[n].target;
    var p := Position(events, StartOf(tasks, x));
    InPrefix(events, p, n);
    InPrefix(events, n, n);
    if p < n {
      assert Before(events[p], events[n]);
    } else {
      assert Before(events[n], events[p]);
    }
  }

  /** One target that ends before it starts: its stop comes first and finds nothing running. */
  lemma ReversedTargetIsMissing()
    ensures var tasks := [Task(2.0, 1.0)]; var events := SortEvents(Records(tasks));
      && Schedule(tasks, events) && 0 < |events| && events[0] == StopOf(tasks, 0)
      && 0 !in Running(tasks, events, 0)
  {
    var tasks := [Task(2.0, 1.0)];
    var events := SortEvents(Records(tasks));
    SortedRecordsAreOrderly(tasks);
    EventAt(tasks, events, 0);
    var stop := StopOf(tasks, 0);
    assert stop in events;
    var p := Position(events, stop);
    assert Before(events[0], events[p]);
  }

  lemma AllHaveStopped(tasks: seq<Task>, events: seq<Event>)
    requires Schedule(tasks, events)
    ensures Running(tasks, events, |events|) == {}
  {
    SortedRecordsAreOrderly(tasks);
    assert events[..|events|] == events;
  }

  function Total(weights: seq<real>): real {
    if weights == [] then 0.0 else Total(weights[..|weights| - 1]) + weights[|weights| - 1]
  }

  lemma {:induction false} TotalUpdate(weights: seq<real>, x: nat, w: real)
    requires x < |weights|
    ensures Total(weights[x := w]) == Total(weights) - weights[x] + w
  {
    var last := |weights| - 1;
    if x < last {
      assert weights[x := w][..last] == weights[..last][x := w];
      TotalUpdate(weights[..last], x, w);
    } else {
      assert weights[x := w][..last] == weights[..last];
    }
  }

  lemma {:induction false} TotalOfZeros(n: nat)
    ensures Total(seq(n, _ => 0.0)) == 0.0
  {
    if n > 0 {
      assert seq(n, _ => 0.0)[..n - 1] == seq(n - 1, _ => 0.0);
      TotalOfZeros(n - 1);
    }
  }

  lemma {:induction false} TotalIsShares(tasks: seq<Task>, times: seq<real>, n: nat, weights: seq<real>, m: nat)
    requires n < |times| && m <= |tasks| == |weights|
    requires forall i :: 0 <= i < m ==> weights[i] == Share(tasks, times, i, n)
    ensures Total(weights[..m]) == SharesOf(tasks, times, n, m)
  {
    if m > 0 {
      assert weights[..m][..m - 1] == weights[..m - 1];
      TotalIsShares(tasks, times, n, weights, m - 1);
    }
  }

  function TasksOf(entries: seq<Target>): seq<Task> {
    seq(|entries|, i requires 0 <= i < |entries| => Task(entries[i].start, entries[i].end))
  }

  ghost predicate WellTimed(tasks: seq<Task>) {
    forall i :: 0 <= i < |tasks| ==> tasks[i].start <= tasks[i].end
  }

  /** Every stop among the first `n` events found its start. */
  ghost predicate TimedSoFar(tasks: seq<Task>, events: seq<Event>, n: nat)
    requires n <= |events|
  {
    forall i :: 0 <= i < |tasks| && StopOf(tasks, i) in events[..n] ==> tasks[i].start <= tasks[i].end
  }

  /** When the events run out, every account is settled and the total is the busy time. */
  lemma {:induction false} Settled(tasks: seq<Task>, events: seq<Event>, running: map<nat, real>, level: real, weights: seq<real>)
    requires Schedule(tasks, events) && 0 < |events| && TimedSoFar(tasks, events, |events|)
    requires Swept(tasks, events, |events|, |events| - 1, running, level, weights)
    ensures running == map[] && WellTimed(tasks)
    ensures forall i :: 0 <= i < |tasks| ==> StopOf(tasks, i) in events[..|events|]
    ensures forall i :: 0 <= i < |tasks| ==> weights[i] == Share(tasks, Times(events), i, |events| - 1)
    ensures Total(weights) == Busy(tasks, Times(events), |events| - 1)
  {
    AllHaveStopped(tasks, events);
    assert running.Keys == {};
    EveryoneTimed(tasks, events);
    forall i | 0 <= i < |tasks| ensures weights[i] == Share(tasks, Times(events), i, |events| - 1) {
      assert Account(tasks, events, |events| - 1, running, level, weights, i);
    }
    TotalIsShares(tasks, Times(events), |events| - 1, weights, |tasks|);
    assert weights[..|tasks|] == weights;
    SharesAddUp(tasks, Times(events), |events| - 1);
  }

  lemma EveryoneTimed(tasks: seq<Task>, events: seq<Event>)
    requires Schedule(tasks, events) && TimedSoFar(tasks, events, |events|)
    ensures WellTimed(tasks) && forall i :: 0 <= i < |tasks| ==> StopOf(tasks, i) in events[..|events|]
  {
    SortedRecordsAreOrderly(tasks);
    assert events[..|events|] == events;
  }

  /** Processing event `n`, whose target is in order, keeps `TimedSoFar`. */
  lemma TimedStep(tasks: seq<Task>, events: seq<Event>, n: nat)
    requires Schedule(tasks, events) && n < |events| && events[n].target < |tasks| && TimedSoFar(tasks, events, n)
    requires events[n].stop ==> events[n].target in Running(tasks, events, n)
    ensures TimedSoFar(tasks, events, n + 1)
  {
    if events[n].stop {
      StopFindsStart(tasks, events, n);
    }
    forall i | 0 <= i < |tasks| && StopOf(tasks, i) in events[..n + 1] ensures tasks[i].start <= tasks[i].end {
      PrefixStep(events, n, StopOf(tasks, i));
    }
  }

  lemma StopComesLater(tasks: seq<Task>, events: seq<Event>, n: nat)
    requires Schedule(tasks, events) && n < |events| && events[n].target < |tasks|
    requires !events[n].stop && TimedSoFar(tasks, events, n)
    ensures StopOf(tasks, events[n].target) !in events[..n]
  {
    SortedRecordsAreOrderly(tasks);
    var stop := StopOf(tasks, events[n].target);
    forall q | 0 <= q < n ensures stop in events[..n] ==> events[q] != stop {
      assert Before(events[q], events[n]);
    }
  }

  /** The fields hold the settled weights. */
  ghost predicate Recorded(entries: seq<Target>, tasks: seq<Task>, events: seq<Event>, n: nat, weights: seq<real>)
    requires |entries| == |tasks| == |weights| && n <= |events|
    reads entries`weightedDuration
  {
    forall i :: 0 <= i < |entries| && StopOf(tasks, i) in events[..n] ==> entries[i].weightedDuration == weights[i]
  }

  lemma {:induction false} RecordedStep(entries: seq<Target>, tasks: seq<Task>, events: seq<Event>, n: nat, weights: seq<real>)
    requires Schedule(tasks, events) && n < |events| && events[n].target < |tasks| && |entries| == |tasks| == |weights|
    requires Recorded(entries, tasks, events, n, weights)
    requires events[n].stop ==> entries[events[n].target].weightedDuration == weights[events[n].target]
    ensures Recorded(entries, tasks, events, n + 1, weights)
  {
    SortedRecordsAreOrderly(tasks);
    forall i | 0 <= i < |entries| && StopOf(tasks, i) in events[..n + 1]
      ensures entries[i].weightedDuration == weights[i]
    {
      PrefixStep(events, n, StopOf(tasks, i));
    }
  }

  /** The loop over the sorted events. It meets a missing key exactly when some task ends before
      it starts; otherwise every target gets exactly its share and the table is empty at the end. */
  method Sweep(entries: seq<Target>, events: seq<Event>) returns (ok: bool, weightedTotal: real)
    requires forall i, j :: 0 <= i < j < |entries| ==> entries[i] != entries[j]
    requires Schedule(TasksOf(entries), events) && 0 < |events|
    modifies entries`weightedDuration
    ensures ok <==> WellTimed(TasksOf(entries))
    ensures ok ==> forall i :: 0 <= i < |entries| ==>
              entries[i].weightedDuration == Share(TasksOf(entries), Times(events), i, |events| - 1)
    ensures ok ==> weightedTotal == Busy(TasksOf(entries), Times(events), |events| - 1)
  {
    ghost var tasks := TasksOf(entries);
    ghost var weights := seq(|tasks|, _ => 0.0);
    var running: map<nat, real> := map[];
    var lastTime := events[0].time;
    var level := 0.0;
    weightedTotal := 0.0;
    TotalOfZeros(|tasks|);
    for n := 0 to |events|
      invariant lastTime == events[Closed(n)].time
      invariant Swept(tasks, events, n, Closed(n), running, level, weights)
      invariant weightedTotal == Total(weights) && TimedSoFar(tasks, events, n)
      invariant Recorded(entries, tasks, events, n, weights)
    {
      var weighted;
      ok, running, level, weighted, weights := OneEvent(entries, tasks, events, n, running, level, lastTime, weights);
      if !ok {
        return;
      }
      if events[n].stop {
        weightedTotal := weightedTotal + weighted;
      }
      lastTime := events[n].time;
    }
    Settled(tasks, events, running, level, weights);
    ok := true;
  }

  /** One event: raise the level by the time gone by, then start or stop its target. */
  method OneEvent(entries: seq<Target>, ghost tasks: seq<Task>, events: seq<Event>, n: nat, running: map<nat, real>,
                  level: real, lastTime: real, ghost weights: seq<real>)
    returns (ok: bool, running': map<nat, real>, level': real, weighted: real, ghost weights': seq<real>)
    requires forall i, j :: 0 <= i < j < |entries| ==> entries[i] != entries[j]
    requires |entries| == |tasks| && Schedule(tasks, events) && n < |events| && lastTime == events[Closed(n)].time
    requires Swept(tasks, events, n, Closed(n), running, level, weights)
    requires TimedSoFar(tasks, events, n) && Recorded(entries, tasks, events, n, weights)
    modifies entries`weightedDuration
    ensures !ok ==> !WellTimed(tasks)
    ensures ok ==>
              && Swept(tasks, events, n + 1, Closed(n + 1), running', level', weights')
              && TimedSoFar(tasks, events, n + 1) && Recorded(entries, tasks, events, n + 1, weights')
              && Total(weights') == if events[n].stop then Total(weights) + weighted else Total(weights)
  {
    ok, running', weighted, weights' := true, running, 0.0, weights;
    EventAt(tasks, events, n);
    level' := Raise(tasks, events, n, running, level, lastTime, weights);
    if events[n].stop && events[n].target !in running {
      StopFindsStart(tasks, events, n);
      ok := false;
      return;
    }
    running', weighted, weights' := Settle(tasks, events, n, running, level', weights);
    Record(entries, tasks, events, n, weighted, weights, weights');
  }

  /** A stop event writes the target's field. */
  method Record(entries: seq<Target>, ghost tasks: seq<Task>, events: seq<Event>, n: nat, weighted: real,
                ghost was: seq<real>, ghost weights: seq<real>)
    requires forall i, j :: 0 <= i < j < |entries| ==> entries[i] != entries[j]
    requires Schedule(tasks, events) && n < |events| && events[n].target < |entries| == |tasks| == |was| == |weights|
    requires Recorded(entries, tasks, events, n, was)
    requires weights == if events[n].stop then was[events[n].target := weighted] else was
    modifies entries`weightedDuration
    ensures Recorded(entries, tasks, events, n + 1, weights)
  {
    if events[n].stop {
      entries[events[n].target].weightedDuration := weighted;
    }
    RecordedStep(entries, tasks, events, n, weights);
  }

  /** The start and stop branches: a start notes the level, a stop takes the rise since then. */
  method Settle(ghost tasks: seq<Task>, events: seq<Event>, n: nat, running: map<nat, real>, level: real,
                ghost weights: seq<real>)
    returns (running': map<nat, real>, weighted: real, ghost weights': seq<real>)
    requires Schedule(tasks, events) && n < |events| && events[n].target < |tasks| && TimedSoFar(tasks, events, n)
    requires events[n].stop ==> events[n].target in running
    requires Swept(tasks, events, n, n, running, level, weights)
    ensures Swept(tasks, events, n + 1, Closed(n + 1), running', level, weights') && TimedSoFar(tasks, events, n + 1)
    ensures weights' == if events[n].stop then weights[events[n].target := weighted] else weights
    ensures Total(weights') == if events[n].stop then Total(weights) + weighted else Total(weights)
  {
    var x := events[n].target;
    weighted, weights' := 0.0, weights;
    TimedStep(tasks, events, n);
    if !events[n].stop {
      StopComesLater(tasks, events, n);
      StartIsSwept(tasks, events, n, running, level, weights);
      running' := running[x := level];
    } else {
      StopIsSwept(tasks, events, n, running, level, weights);
      EventAt(tasks, events, n);
      weighted := level - running[x];
      running' := running - {x};
      TotalUpdate(weights, x, weighted);
      weights' := weights[x := weighted];
    }
  }

  /** The top of the loop body: the level rises by the gap, divided among the running tasks. */
  method Raise(ghost tasks: seq<Task>, events: seq<Event>, n: nat, running: map<nat, real>, level: real,
               lastTime: real, ghost weights: seq<real>) returns (raised: real)
    requires Schedule(tasks, events) && n < |events| && lastTime == events[Closed(n)].time
    requires Swept(tasks, events, n, Closed(n), running, level, weights)
    ensures Swept(tasks, events, n, n, running, raised, weights)
  {
    raised := level + if |running| > 0 then (events[n].time - lastTime) / (|running| as real) else 0.0;
    ZeroOver(|running|);
    LevelRises(tasks, events, n, running, level, raised, weights);
  }

  // ---- the whole report -----------------------------------------------------

  lemma {:induction false} TimesAreSorted(tasks: seq<Task>, events: seq<Event>)
    requires Schedule(tasks, events)
    ensures Sorted(Times(events))
  {
    SortedRecordsAreOrderly(tasks);
    forall i, j | 0 <= i <= j < |events| ensures Times(events)[i] <= Times(events)[j] {
      assert i == j || Before(events[i], events[j]);
    }
  }

  ghost predicate Earliest(tasks: seq<Task>, n: nat, t: real)
    requires n <= |tasks|
  {
    (forall i :: 0 <= i < n ==> t <= tasks[i].start) && (exists i :: 0 <= i < n && t == tasks[i].start)
  }

  ghost predicate Latest(tasks: seq<Task>, n: nat, t: real)
    requires n <= |tasks|
  {
    (forall i :: 0 <= i < n ==> tasks[i].end <= t) && (exists i :: 0 <= i < n && t == tasks[i].end)
  }

  ghost predicate NonNegative(tasks: seq<Task>) {
    forall i :: 0 <= i < |tasks| ==> 0.0 <= tasks[i].start && 0.0 <= tasks[i].end
  }

  /** What the two running extremes are after `n` entries, with their initial values for none. */
  ghost predicate Span(tasks: seq<Task>, n: nat, earliest: real, latest: real)
    requires n <= |tasks|
  {
    if n == 0 then earliest == -1.0 && latest == 0.0 else Earliest(tasks, n, earliest) && Latest(tasks, n, latest)
  }

  lemma SpanStep(tasks: seq<Task>, n: nat, earliest: real, latest: real, earliest': real, latest': real)
    requires n < |tasks|
    requires earliest' == if earliest < 0.0 || tasks[n].start < earliest then tasks[n].start else earliest
    requires latest' == if tasks[n].end > latest then tasks[n].end else latest
    ensures NonNegative(tasks) && Span(tasks, n, earliest, latest) ==> Span(tasks, n + 1, earliest', latest')
  {
    if NonNegative(tasks) && Span(tasks, n, earliest, latest) {
      if earliest' == tasks[n].start {
      } else {
        var i :| 0 <= i < n && earliest == tasks[i].start;
        assert earliest' == tasks[i].start;
      }
      if latest' == tasks[n].end {
      } else {
        var i :| 0 <= i < n && latest == tasks[i].end;
        assert latest' == tasks[i].end;
      }
    }
  }

  /** Nothing starts before task `i` or ends after task `j`. */
  ghost predicate Outermost(tasks: seq<Task>, i: nat, j: nat)
    requires i < |tasks| && j < |tasks|
  {
    forall k :: 0 <= k < |tasks| ==> tasks[i].start <= tasks[k].start && tasks[k].end <= tasks[j].end
  }

  /** The time from the earliest start to the latest end. */
  ghost predicate IsLength(tasks: seq<Task>, length: real) {
    exists i: nat, j: nat :: i < |tasks| && j < |tasks| && Outermost(tasks, i, j) && length == tasks[j].end - tasks[i].start
  }

  lemma SpanGivesLength(tasks: seq<Task>, earliest: real, latest: real)
    requires Earliest(tasks, |tasks|, earliest) && Latest(tasks, |tasks|, latest)
    ensures IsLength(tasks, latest - earliest)
  {
    var i: nat :| i < |tasks| && earliest == tasks[i].start;
    var j: nat :| j < |tasks| && latest == tasks[j].end;
    assert Outermost(tasks, i, j);
  }

  /** That is the time from the first event to the last. */
  lemma {:induction false} SpanIsLength(tasks: seq<Task>, events: seq<Event>, length: real)
    requires Schedule(tasks, events) && 0 < |events| && WellTimed(tasks) && IsLength(tasks, length)
    ensures length == events[|events| - 1].time - events[0].time
  {
    TimesAreSorted(tasks, events);
    EventAt(tasks, events, 0);
    EventAt(tasks, events, |events| - 1);
    SortedRecordsAreOrderly(tasks);
    var i: nat, j: nat :|
      i < |tasks| && j < |tasks| && Outermost(tasks, i, j) && length == tasks[j].end - tasks[i].start;
    var p, q := Position(events, StartOf(tasks, i)), Position(events, StopOf(tasks, j));
    assert Times(events)[0] <= Times(events)[p];
    assert Times(events)[q] <= Times(events)[|events| - 1];
  }

  /** Some task runs at every moment between the first and the last event. */
  ghost predicate NoIdleGap(tasks: seq<Task>, times: seq<real>) {
    0 < |times| && NoGap(tasks, times, |times| - 1)
  }

  lemma {:induction false} RecordsSnoc(tasks: seq<Task>, n: nat)
    requires n < |tasks|
    ensures Records(tasks[..n + 1]) == Records(tasks[..n]) + [StartOf(tasks, n), StopOf(tasks, n)]
  {
    assert tasks[..n + 1][..n] == tasks[..n];
  }

  /** How long each task took. */
  function Durations(tasks: seq<Task>): seq<real> {
    seq(|tasks|, i requires 0 <= i < |tasks| => tasks[i].end - tasks[i].start)
  }

  /** The first loop: the records, the earliest start and latest end, and all durations together. */
  method CollectRecords(entries: seq<Target>)
    returns (records: seq<Event>, earliest: real, latest: real, elapsedTotal: real)
    ensures records == Records(TasksOf(entries))
    ensures NonNegative(TasksOf(entries)) ==> Span(TasksOf(entries), |entries|, earliest, latest)
    ensures NonNegative(TasksOf(entries)) && entries != [] ==> IsLength(TasksOf(entries), latest - earliest)
    ensures elapsedTotal == Total(Durations(TasksOf(entries)))
  {
    ghost var tasks := TasksOf(entries);
    ghost var durations := Durations(tasks);
    earliest, latest, elapsedTotal := -1.0, 0.0, 0.0;
    records := [];
    for i := 0 to |entries|
      invariant records == Records(tasks[..i])
      invariant NonNegative(tasks) ==> Span(tasks, i, earliest, latest)
      invariant elapsedTotal == Total(durations[..i])
    {
      ghost var earliest0, latest0 := earliest, latest;
      if earliest < 0.0 || entries[i].start < earliest {
        earliest := entries[i].start;
      }
      if entries[i].end > latest {
        latest := entries[i].end;
      }
      SpanStep(tasks, i, earliest0, latest0, earliest, latest);
      RecordsSnoc(tasks, i);
      assert durations[..i + 1] == durations[..i] + [durations[i]];
      elapsedTotal := elapsedTotal + (entries[i].end - entries[i].start);
      records := records + [Event(entries[i].start, false, i), Event(entries[i].end, true, i)];
    }
    assert tasks[..|entries|] == tasks && durations[..|entries|] == durations;
    if NonNegative(tasks) && entries != [] {
      SpanGivesLength(tasks, earliest, latest);
    }
  }

  /** Every task starts and ends at one and the same time. */
  ghost predicate AtOneInstant(tasks: seq<Task>) {
    forall i :: 0 <= i < |tasks| ==> tasks[i].start == tasks[0].start == tasks[i].end
  }

  /** The build takes no time exactly when nothing in it does. */
  lemma NoLengthIff(tasks: seq<Task>, length: real)
    requires WellTimed(tasks) && IsLength(tasks, length)
    ensures 0.0 <= length
    ensures length == 0.0 <==> AtOneInstant(tasks)
  {
    var i: nat, j: nat :|
      i < |tasks| && j < |tasks| && Outermost(tasks, i, j) && length == tasks[j].end - tasks[i].start;
    assert tasks[i].start <= tasks[0].start <= tasks[0].end <= tasks[j].end;
    if length == 0.0 {
      forall k | 0 <= k < |tasks| ensures tasks[k].start == tasks[0].start == tasks[k].end {
        assert tasks[i].start <= tasks[k].start <= tasks[k].end <= tasks[j].end;
      }
    }
  }

  lemma {:induction false} LengthTold(tasks: seq<Task>, events: seq<Event>, length: real)
    requires Schedule(tasks, events) && 0 < |events| && WellTimed(tasks) && IsLength(tasks, length)
    ensures length == Times(events)[|events| - 1] - Times(events)[0]
    ensures 0.0 <= length && (length == 0.0 <==> AtOneInstant(tasks))
  {
    SpanIsLength(tasks, events, length);
    NoLengthIff(tasks, length);
  }

  /** A single step that starts and ends at the same time: no time lies between its extremes, and the report
      divides by it. */
  lemma InstantTargetHasNoLength()
    ensures var tasks := [Task(5.0, 5.0)]; WellTimed(tasks) && NonNegative(tasks) && IsLength(tasks, 0.0)
  {
    assert Outermost([Task(5.0, 5.0)], 0, 0);
  }

  /** The target's weighted duration is its share, and lies between 0 and its own duration. */
  ghost predicate Charged(entries: seq<Target>, times: seq<real>, i: nat)
    requires i < |entries| && 0 < |times|
    reads entries`weightedDuration
  {
    && entries[i].weightedDuration == Share(TasksOf(entries), times, i, |times| - 1)
    && 0.0 <= entries[i].weightedDuration <= entries[i].end - entries[i].start
  }

  /** The figures of the closing lines. */
  datatype Report = Report(weightedTotal: real, elapsedTotal: real, parallelism: real, stepsPerSecond: real)

  ghost predicate IsRatio(ratio: real, total: real, length: real) {
    ratio * length == total
  }

  /** What the figures of a build of the given length say about it. */
  ghost predicate Balanced(tasks: seq<Task>, times: seq<real>, length: real, report: Report)
    requires 0 < |times|
  {
    && report.elapsedTotal == Total(Durations(tasks))
    && report.weightedTotal == Busy(tasks, times, |times| - 1) <= report.elapsedTotal
    && IsRatio(report.parallelism, report.elapsedTotal, length)
    && IsRatio(report.stepsPerSecond, |tasks| as real, length)
    && (NonNegative(tasks) ==>
          && 0.0 < length == times[|times| - 1] - times[0]
          && report.weightedTotal <= length
          && (report.weightedTotal == length <==> NoIdleGap(tasks, times))
          && (NoIdleGap(tasks, times) ==> 1.0 <= report.parallelism))
  }

  /** The total is the busy time, within the durations and the span, and the whole span exactly without a gap. */
  ghost predicate Comparable(tasks: seq<Task>, times: seq<real>, weightedTotal: real)
    requires 0 < |times|
  {
    var span := times[|times| - 1] - times[0];
    && weightedTotal == Busy(tasks, times, |times| - 1)
    && weightedTotal <= span && weightedTotal <= Total(Durations(tasks))
    && (weightedTotal == span <==> NoIdleGap(tasks, times))
  }

  ghost predicate HaveOutputs(entries: seq<Target>)
    reads entries`targets
  {
    forall i :: 0 <= i < |entries| ==> entries[i].targets != []
  }

  /** The grouping by file extension, as far as it can fail: a target without outputs has none. */
  method FindExtensions(entries: seq<Target>) returns (ok: bool)
    ensures ok <==> HaveOutputs(entries)
  {
    for i := 0 to |entries|
      invariant forall j :: 0 <= j < i ==> entries[j].targets != []
    {
      if entries[i].targets == [] {
        return false;
      }
    }
    return true;
  }

  /** A figure per second of the build. */
  method Divide(total: real, length: real) returns (ratio: real)
    requires length != 0.0
    ensures IsRatio(ratio, total, length)
    ensures 0.0 < length <= total ==> 1.0 <= ratio
  {
    ratio := total / length;
    RatioOf(total, length);
    if 0.0 < length <= total {
      AtLeastOnce(ratio, total, length);
    }
  }

  lemma RatioOf(total: real, length: real)
    requires length != 0.0
    ensures IsRatio(total / length, total, length)
  {
    QuotientTimes(total, length);
  }

  lemma AtLeastOnce(ratio: real, total: real, length: real)
    requires IsRatio(ratio, total, length) && 0.0 < length <= total
    ensures 1.0 <= ratio
  {
    if ratio < 1.0 {
      SmallerProduct(ratio, length);
    }
  }

  lemma SmallerProduct(ratio: real, length: real)
    requires ratio < 1.0 && 0.0 < length
    ensures ratio * length < length
  {
    assert 0.0 < (1.0 - ratio) * length;
  }

  /** The closing lines. */
  method CloseReport(entries: seq<Target>, length: real, weightedTotal: real, elapsedTotal: real)
    returns (report: Option<Report>)
    ensures report.Some? <==> HaveOutputs(entries) && length != 0.0
    ensures report.Some? ==>
              && report.value.weightedTotal == weightedTotal && report.value.elapsedTotal == elapsedTotal
              && IsRatio(report.value.parallelism, elapsedTotal, length)
              && IsRatio(report.value.stepsPerSecond, |entries| as real, length)
              && (0.0 < length <= elapsedTotal ==> 1.0 <= report.value.parallelism)
  {
    var named := FindExtensions(entries);
    if !named || length == 0.0 {
      return None;
    }
    var parallelism := Divide(elapsedTotal, length);
    var stepsPerSecond := Divide(|entries| as real, length);
    return Some(Report(weightedTotal, elapsedTotal, parallelism, stepsPerSecond));
  }

  /** The sweep as a whole: what it charges, and how the total compares. */
  method ChargeTargets(entries: seq<Target>, events: seq<Event>) returns (ok: bool, weightedTotal: real)
    requires forall i, j :: 0 <= i < j < |entries| ==> entries[i] != entries[j]
    requires Schedule(TasksOf(entries), events) && 0 < |events|
    modifies entries`weightedDuration
    ensures ok <==> WellTimed(TasksOf(entries))
    ensures ok ==> forall i :: 0 <= i < |entries| ==> Charged(entries, Times(events), i)
    ensures ok ==> Comparable(TasksOf(entries), Times(events), weightedTotal)
  {
    ok, weightedTotal := Sweep(entries, events);
    if ok {
      ghost var times := Times(events);
      SweepIsFair(TasksOf(entries), events, times);
      forall i | 0 <= i < |entries| ensures Charged(entries, times, i) {
        assert WithinDuration(TasksOf(entries), times, i);
      }
    }
  }

  /** Everything after the sort. */
  method ReportOn(entries: seq<Target>, events: seq<Event>, length: real, elapsedTotal: real)
    returns (report: Option<Report>)
    requires forall i, j :: 0 <= i < j < |entries| ==> entries[i] != entries[j]
    requires Schedule(TasksOf(entries), events) && 0 < |events| && elapsedTotal == Total(Durations(TasksOf(entries)))
    requires NonNegative(TasksOf(entries)) ==> IsLength(TasksOf(entries), length)
    modifies entries`weightedDuration
    ensures report.Some? <==> WellTimed(TasksOf(entries)) && HaveOutputs(entries) && length != 0.0
    ensures NonNegative(TasksOf(entries)) && WellTimed(TasksOf(entries)) ==>
              (length == 0.0 <==> AtOneInstant(TasksOf(entries)))
    ensures WellTimed(TasksOf(entries)) ==>
              && (forall i :: 0 <= i < |entries| ==> Charged(entries, Times(events), i))
              && (report.Some? ==> Balanced(TasksOf(entries), Times(events), length, report.value))
  {
    var swept, weightedTotal := ChargeTargets(entries, events);
    if !swept {
      return None;
    }
    if NonNegative(TasksOf(entries)) {
      LengthTold(TasksOf(entries), events, length);
    }
    report := CloseReport(entries, length, weightedTotal, elapsedTotal);
  }

  /** `SummarizeEntries` without the lines it writes for each extension. It fails on an empty list, on a task
      that ends before it starts, on one without outputs, and on a build that takes no time, and on nothing
      else. Unless it fails before, every target's weighted duration is its share, at most its own duration.
      The weighted total is the busy time: the whole build exactly when there is no idle gap. */
  method SummarizeEntries(entries: seq<Target>) returns (length: real, report: Option<Report>)
    requires forall i, j :: 0 <= i < j < |entries| ==> entries[i] != entries[j]
    modifies entries`weightedDuration
    ensures report.Some? <==> entries != [] && WellTimed(TasksOf(entries)) && HaveOutputs(entries) && length != 0.0
    ensures NonNegative(TasksOf(entries)) && entries != [] ==> IsLength(TasksOf(entries), length)
    ensures NonNegative(TasksOf(entries)) ==>
              (report.Some? <==> entries != [] && WellTimed(TasksOf(entries)) && HaveOutputs(entries)
                                 && !AtOneInstant(TasksOf(entries)))
    ensures var tasks := TasksOf(entries); var times := Times(SortEvents(Records(tasks)));
      entries != [] && WellTimed(tasks) ==>
        && 0 < |times|
        && (forall i :: 0 <= i < |entries| ==> Charged(entries, times, i))
        && (report.Some? ==> Balanced(tasks, times, length, report.value))
  {
    var records, earliest, latest, elapsedTotal := CollectRecords(entries);
    length := latest - earliest;
    var events := SortEvents(records);
    SomethingToSweep(TasksOf(entries));
    if |events| == 0 {
      return length, None;
    }
    report := ReportOn(entries, events, length, elapsedTotal);
  }

  lemma {:induction false} SomethingToSweep(tasks: seq<Task>)
    ensures SortEvents(Records(tasks)) == [] <==> tasks == []
  {
    BeforeIsOrder();
    SortSorts(Records(tasks), Before);
    assert |multiset(SortEvents(Records(tasks)))| == |multiset(Records(tasks))|;
  }

  ghost predicate WithinDuration(tasks: seq<Task>, times: seq<real>, i: nat)
    requires i < |tasks| && 0 < |times|
  {
    0.0 <= Share(tasks, times, i, |times| - 1) <= tasks[i].end - tasks[i].start
  }

  lemma {:induction false} SweepIsFair(tasks: seq<Task>, events: seq<Event>, times: seq<real>)
    requires Schedule(tasks, events) && 0 < |events| && WellTimed(tasks) && times == Times(events)
    ensures forall i :: 0 <= i < |tasks| ==> WithinDuration(tasks, times, i)
    ensures Comparable(tasks, times, Busy(tasks, times, |times| - 1))
  {
    TimesAreSorted(tasks, events);
    forall i | 0 <= i < |tasks| ensures WithinDuration(tasks, times, i) {
      ShareBounds(tasks, times, i, |times| - 1);
    }
    BusyIsAllIff(tasks, times, |times| - 1);
    SharesAddUp(tasks, times, |times| - 1);
    SharesWithinDurations(tasks, times, |tasks|);
    assert Durations(tasks)[..|tasks|] == Durations(tasks);
  }

  /** Together the shares are at most all durations together. */
  lemma {:induction false} SharesWithinDurations(tasks: seq<Task>, times: seq<real>, m: nat)
    requires 0 < |times| && m <= |tasks| && forall i :: 0 <= i < |tasks| ==> WithinDuration(tasks, times, i)
    ensures SharesOf(tasks, times, |times| - 1, m) <= Total(Durations(tasks)[..m])
  {
    if m > 0 {
      SharesWithinDurations(tasks, times, m - 1);
      assert Durations(tasks)[..m][..m - 1] == Durations(tasks)[..m - 1];
      assert WithinDuration(tasks, times, m - 1);
    }
  }
}
