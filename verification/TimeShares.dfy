/** How tools/report_build_time_ninja.py means to divide build time: at each moment the passing
    time is split evenly among the tasks then running. */
module TimeShares {

  datatype Task = Task(start: real, end: real)

  ghost predicate Sorted(times: seq<real>) {
    forall i, j :: 0 <= i <= j < |times| ==> times[i] <= times[j]
  }

  /** The task runs during the whole segment. */
  predicate Covers(t: Task, a: real, b: real) {
    t.start <= a && b <= t.end
  }

  /** The tasks that run during segment `k`, between two neighbouring times. */
  ghost function Runners(tasks: seq<Task>, times: seq<real>, k: nat): set<nat>
    requires k + 1 < |times|
  {
    set i: nat | i < |tasks| && Covers(tasks[i], times[k], times[k + 1])
  }

  ghost function Length(times: seq<real>, k: nat): real
    requires k + 1 < |times|
  {
    times[k + 1] - times[k]
  }

  /** What each runner of segment `k` gets. */
  ghost function Rate(tasks: seq<Task>, times: seq<real>, k: nat): real
    requires k + 1 < |times|
  {
    var runners := Runners(tasks, times, k);
    if runners == {} then 0.0 else Length(times, k) / (|runners| as real)
  }

  /** Time the task is charged for over the first `n` segments. */
  ghost function Share(tasks: seq<Task>, times: seq<real>, i: nat, n: nat): real
    requires i < |tasks| && n < |times|
  {
    if n == 0 then 0.0
    else Share(tasks, times, i, n - 1)
         + if i in Runners(tasks, times, n - 1) then Rate(tasks, times, n - 1) else 0.0
  }

  /** Time over the first `n` segments during which at least one task runs. */
  ghost function Busy(tasks: seq<Task>, times: seq<real>, n: nat): real
    requires n < |times|
  {
    if n == 0 then 0.0
    else Busy(tasks, times, n - 1) + if Runners(tasks, times, n - 1) == {} then 0.0 else Length(times, n - 1)
  }

  /** The shares of the first `m` tasks together. */
  ghost function SharesOf(tasks: seq<Task>, times: seq<real>, n: nat, m: nat): real
    requires n < |times| && m <= |tasks|
  {
    if m == 0 then 0.0 else SharesOf(tasks, times, n, m - 1) + Share(tasks, times, m - 1, n)
  }

  // ---- conservation ---------------------------------------------------------

  /** The shares of all tasks add up to exactly the time during which something runs. */
  lemma {:induction false} SharesAddUp(tasks: seq<Task>, times: seq<real>, n: nat)
    requires n < |times|
    ensures SharesOf(tasks, times, n, |tasks|) == Busy(tasks, times, n)
  {
    if n == 0 {
      NoSegments(tasks, times, |tasks|);
    } else {
      SharesAddUp(tasks, times, n - 1);
      var runners := Runners(tasks, times, n - 1);
      OneSegment(tasks, times, n, |tasks|);
      assert Below(runners, |tasks|) == runners;
      SegmentIsPaidOut(tasks, times, n - 1);
    }
  }

  /** The rates of all runners of a segment make up its whole length. */
  lemma SegmentIsPaidOut(tasks: seq<Task>, times: seq<real>, k: nat)
    requires k + 1 < |times|
    ensures Repeated(Rate(tasks, times, k), |Runners(tasks, times, k)|)
         == if Runners(tasks, times, k) == {} then 0.0 else Length(times, k)
  {
    var runners := Runners(tasks, times, k);
    RepeatedIsProduct(Rate(tasks, times, k), |runners|);
    if runners != {} {
      AtLeastOne(runners);
      QuotientTimes(Length(times, k), |runners| as real);
    }
  }

  lemma QuotientTimes(x: real, k: real)
    requires k != 0.0
    ensures (x / k) * k == x
  {
  }

  lemma {:induction false} NoSegments(tasks: seq<Task>, times: seq<real>, m: nat)
    requires 0 < |times| && m <= |tasks|
    ensures SharesOf(tasks, times, 0, m) == 0.0
  {
    if m > 0 {
      NoSegments(tasks, times, m - 1);
    }
  }

  ghost function Below(s: set<nat>, m: nat): set<nat> {
    set i | i in s && i < m
  }

  ghost function Repeated(rate: real, count: nat): real {
    if count == 0 then 0.0 else Repeated(rate, count - 1) + rate
  }

  lemma {:induction false} RepeatedIsProduct(rate: real, count: nat)
    ensures Repeated(rate, count) == rate * (count as real)
  {
    if count > 0 {
      RepeatedIsProduct(rate, count - 1);
    }
  }

  lemma BelowStep(s: set<nat>, m: nat)
    ensures |Below(s, m + 1)| == |Below(s, m)| + if m in s then 1 else 0
  {
    if m in s {
      assert Below(s, m + 1) == Below(s, m) + {m};
    } else {
      assert Below(s, m + 1) == Below(s, m);
    }
  }

  /** One more segment pays its rate once to each runner. */
  lemma {:induction false} OneSegment(tasks: seq<Task>, times: seq<real>, n: nat, m: nat)
    requires 0 < n < |times| && m <= |tasks|
    ensures SharesOf(tasks, times, n, m)
         == SharesOf(tasks, times, n - 1, m)
          + Repeated(Rate(tasks, times, n - 1), |Below(Runners(tasks, times, n - 1), m)|)
  {
    if m == 0 {
      assert Below(Runners(tasks, times, n - 1), 0) == {};
    } else {
      OneSegment(tasks, times, n, m - 1);
      BelowStep(Runners(tasks, times, n - 1), m - 1);
    }
  }

  /** Some task runs in each of the first `n` segments that takes any time. */
  ghost predicate NoGap(tasks: seq<Task>, times: seq<real>, n: nat)
    requires n < |times|
  {
    forall k: nat :: k < n && times[k] != times[k + 1] ==> Runners(tasks, times, k) != {}
  }

  /** The busy time is at most everything from the first time to the last, and all of it exactly
      when there is no idle gap. */
  lemma {:induction false} BusyIsAllIff(tasks: seq<Task>, times: seq<real>, n: nat)
    requires n < |times| && Sorted(times)
    ensures Busy(tasks, times, n) <= times[n] - times[0]
    ensures Busy(tasks, times, n) == times[n] - times[0] <==> NoGap(tasks, times, n)
  {
    if n > 0 {
      BusyIsAllIff(tasks, times, n - 1);
      assert times[n - 1] <= times[n];
    }
  }

  // ---- bounds -----------------------------------------------------------------

  lemma RateBounds(tasks: seq<Task>, times: seq<real>, k: nat)
    requires k + 1 < |times| && Sorted(times)
    ensures 0.0 <= Rate(tasks, times, k) <= Length(times, k)
  {
    var runners := Runners(tasks, times, k);
    if runners != {} {
      AtLeastOne(runners);
      DivideByCount(Length(times, k), |runners|);
    }
  }

  lemma AtLeastOne(s: set<nat>)
    requires s != {}
    ensures 1 <= |s|
  {
    var x :| x in s;
    assert {x} <= s && |s - {x}| + 1 == |s|;
  }

  lemma DivideByCount(x: real, k: nat)
    requires 0.0 <= x && 1 <= k
    ensures 0.0 <= x / (k as real) <= x
  {
    QuotientTimes(x, k as real);
    NoSmallerMultiple(x / (k as real), k as real);
  }

  lemma NoSmallerMultiple(q: real, k: real)
    requires 1.0 <= k && 0.0 <= q * k
    ensures 0.0 <= q <= q * k
  {
  }

  /** A task is never charged for more than its own duration. */
  lemma {:induction false} ShareBounds(tasks: seq<Task>, times: seq<real>, i: nat, n: nat)
    requires i < |tasks| && n < |times| && Sorted(times) && tasks[i].start <= tasks[i].end
    ensures 0.0 <= Share(tasks, times, i, n) <= tasks[i].end - tasks[i].start
  {
    ShareUpTo(tasks, times, i, n);
  }

  lemma {:induction false} ShareUpTo(tasks: seq<Task>, times: seq<real>, i: nat, n: nat)
    requires i < |tasks| && n < |times| && Sorted(times)
    ensures 0.0 <= Share(tasks, times, i, n)
    ensures Share(tasks, times, i, n)
         <= if times[n] <= tasks[i].start || tasks[i].end <= tasks[i].start then 0.0
            else if times[n] <= tasks[i].end then times[n] - tasks[i].start
            else tasks[i].end - tasks[i].start
  {
    if n > 0 {
      ShareUpTo(tasks, times, i, n - 1);
      RateBounds(tasks, times, n - 1);
    }
  }
}
