/** The concurrent probes of one sweep: a semaphore admits them, a gather collects them by position. */
module ProbeAll {
  import opened Prelude
  import opened Checks
  import opened Sweeps

  datatype Task = Waiting | Running | Done(outcome: ProbeOutcome)

  datatype Event = Begin(i: nat) | Finish(i: nat, answer: ProbeOutcome)

  predicate IsRunning(t: Task) {
    t.Running?
  }

  function InFlight(tasks: seq<Task>): nat {
    |Filter(IsRunning, tasks)|
  }

  /** The semaphore's size; a concurrency below 1 is treated as 1. */
  function Permits(concurrency: int): (n: int)
    ensures n >= 1 && n >= concurrency && (n == 1 || n == concurrency)
  {
    Max(1, concurrency)
  }

  predicate Enabled(tasks: seq<Task>, concurrency: int, e: Event) {
    e.i < |tasks| &&
    match e
    case Begin(i) => tasks[i].Waiting? && InFlight(tasks) < Permits(concurrency)
    case Finish(i, _) => tasks[i].Running?
  }

  function Next(tasks: seq<Task>, concurrency: int, e: Event): seq<Task>
    requires Enabled(tasks, concurrency, e)
  {
    match e
    case Begin(i) => tasks[i := Running]
    case Finish(i, answer) => tasks[i := Done(answer)]
  }

  predicate Possible(n: nat, concurrency: int, events: seq<Event>)
    decreases |events|, 0
  {
    events == []
    || (Possible(n, concurrency, events[..|events| - 1])
        && Enabled(After(n, concurrency, events[..|events| - 1]), concurrency, events[|events| - 1]))
  }

  function After(n: nat, concurrency: int, events: seq<Event>): (tasks: seq<Task>)
    requires Possible(n, concurrency, events)
    ensures |tasks| == n
    decreases |events|, 1
  {
    if events == [] then seq(n, _ => Waiting)
    else Next(After(n, concurrency, events[..|events| - 1]), concurrency, events[|events| - 1])
  }

  /** How often the i-th member was probed. */
  function Probes(events: seq<Event>, i: nat): nat {
    if events == [] then 0
    else Probes(events[..|events| - 1], i) + (if events[|events| - 1] == Begin(i) then 1 else 0)
  }

  lemma {:induction false} CountUpdate(p: Task -> bool, xs: seq<Task>, i: nat, x: Task)
    requires i < |xs|
    ensures |Filter(p, xs[i := x])| + (if p(xs[i]) then 1 else 0) == |Filter(p, xs)| + (if p(x) then 1 else 0)
  {
    var n := |xs| - 1;
    if i < n {
      CountUpdate(p, xs[..n], i, x);
      assert xs[i := x][..n] == xs[..n][i := x];
    } else {
      assert xs[i := x][..n] == xs[..n];
    }
  }

  lemma {:induction false} NobodyRuns(n: nat)
    ensures InFlight(seq(n, _ => Waiting)) == 0
  {
    if n > 0 {
      NobodyRuns(n - 1);
      assert seq(n, _ => Waiting)[..n - 1] == seq(n - 1, _ => Waiting);
    }
  }

  /** In every schedule at most max(1, concurrency) probes run at once, and none is started twice. */
  lemma {:induction false} Bounded(n: nat, concurrency: int, events: seq<Event>)
    requires Possible(n, concurrency, events)
    ensures InFlight(After(n, concurrency, events)) <= Max(1, concurrency)
    ensures forall i | 0 <= i < n :: Probes(events, i) == if After(n, concurrency, events)[i].Waiting? then 0 else 1
  {
    if events == [] {
      NobodyRuns(n);
    } else {
      var before, last := events[..|events| - 1], events[|events| - 1];
      Bounded(n, concurrency, before);
      var tasks := After(n, concurrency, before);
      CountUpdate(IsRunning, tasks, last.i, Next(tasks, concurrency, last)[last.i]);
    }
  }

  function Begins(k: nat): (events: seq<Event>)
    ensures |events| == k
  {
    if k == 0 then [] else Begins(k - 1) + [Begin(k - 1)]
  }

  /** k probes are in flight, and those from the k-th on are still waiting. */
  ghost predicate FirstRun(tasks: seq<Task>, k: nat) {
    InFlight(tasks) == k && forall i | k <= i < |tasks| :: tasks[i].Waiting?
  }

  lemma OneMoreRuns(tasks: seq<Task>, k: nat)
    requires FirstRun(tasks, k) && k < |tasks|
    ensures FirstRun(tasks[k := Running], k + 1)
  {
    CountUpdate(IsRunning, tasks, k, Running);
  }

  /** The concurrency can be used up: max(1, concurrency) of enough probes can be in flight at once. */
  lemma {:induction false} UsedUp(n: nat, concurrency: int, k: nat)
    requires k <= n && k <= Max(1, concurrency)
    ensures Possible(n, concurrency, Begins(k)) && FirstRun(After(n, concurrency, Begins(k)), k)
  {
    if k == 0 {
      NobodyRuns(n);
    } else {
      UsedUp(n, concurrency, k - 1);
      var before, tasks := Begins(k - 1), After(n, concurrency, Begins(k - 1));
      assert Begins(k)[..|Begins(k)| - 1] == before && Begins(k)[|Begins(k)| - 1] == Begin(k - 1);
      assert Enabled(tasks, concurrency, Begin(k - 1));
      OneMoreRuns(tasks, k - 1);
    }
  }

  /** Every probe that has answered so far gave its member's answer. */
  ghost predicate Answering(events: seq<Event>, answers: seq<ProbeOutcome>) {
    forall k | 0 <= k < |events| && events[k].Finish? :: events[k].i < |answers| && events[k].answer == answers[events[k].i]
  }

  predicate Complete(tasks: seq<Task>) {
    forall i | 0 <= i < |tasks| :: tasks[i].Done?
  }

  /** What the gather returns. */
  function Gathered(tasks: seq<Task>): (outcomes: seq<ProbeOutcome>)
    requires Complete(tasks)
    ensures |outcomes| == |tasks|
  {
    seq(|tasks|, i requires 0 <= i < |tasks| => tasks[i].outcome)
  }

  lemma {:induction false} AnswersKept(n: nat, concurrency: int, events: seq<Event>, answers: seq<ProbeOutcome>)
    requires Possible(n, concurrency, events) && |answers| == n && Answering(events, answers)
    ensures forall i | 0 <= i < n :: After(n, concurrency, events)[i].Done? ==> After(n, concurrency, events)[i].outcome == answers[i]
  {
    if events != [] {
      AnswersKept(n, concurrency, events[..|events| - 1], answers);
    }
  }

  /**
   * Whatever the schedule, a complete sweep has probed every member exactly once, and its i-th
   * record and its i-th result carry the i-th member and that member's answer.
   */
  lemma ScheduleDoesNotMatter(ids: seq<string>, concurrency: int, events: seq<Event>, answers: seq<ProbeOutcome>)
    requires Possible(|ids|, concurrency, events) && |answers| == |ids| && Answering(events, answers)
    requires Complete(After(|ids|, concurrency, events))
    ensures Gathered(After(|ids|, concurrency, events)) == answers
    ensures forall i | 0 <= i < |ids| :: Probes(events, i) == 1
    ensures forall i | 0 <= i < |ids| ::
              var outcomes, a := Gathered(After(|ids|, concurrency, events)), answers[i];
              && PoolRecords(ids, outcomes)[i]
                 == CheckRecord(ids[i], Series.Pool, a.checkedAt, a.success, a.latency, a.statusCode, a.error)
              && Applies(ids, outcomes)[i] == CheckApply(ids[i], a.success, a.latency, a.statusCode, a.error, a.checkedAt)
  {
    AnswersKept(|ids|, concurrency, events, answers);
    Bounded(|ids|, concurrency, events);
  }

  function Remaining(tasks: seq<Task>): nat {
    if tasks == [] then 0
    else
      var last := tasks[|tasks| - 1];
      Remaining(tasks[..|tasks| - 1]) + (match last case Waiting => 2 case Running => 1 case Done(_) => 0)
  }

  lemma {:induction false} RemainingUpdate(tasks: seq<Task>, i: nat, t: Task)
    requires i < |tasks|
    requires (tasks[i].Waiting? && t.Running?) || (tasks[i].Running? && t.Done?)
    ensures Remaining(tasks[i := t]) == Remaining(tasks) - 1
  {
    var n := |tasks| - 1;
    if i < n {
      RemainingUpdate(tasks[..n], i, t);
      assert tasks[i := t][..n] == tasks[..n][i := t];
    } else {
      assert tasks[i := t][..n] == tasks[..n];
    }
  }

  /** The semaphore never blocks for good: until all is done some probe can start or finish, and each event is progress. */
  lemma NoDeadlock(tasks: seq<Task>, concurrency: int, answers: seq<ProbeOutcome>) returns (e: Event)
    requires !Complete(tasks) && |answers| == |tasks|
    ensures Enabled(tasks, concurrency, e) && (e.Finish? ==> e.answer == answers[e.i])
    ensures Remaining(Next(tasks, concurrency, e)) == Remaining(tasks) - 1
  {
    var i :| 0 <= i < |tasks| && !tasks[i].Done?;
    if tasks[i].Running? {
      e := Finish(i, answers[i]);
    } else if InFlight(tasks) < Permits(concurrency) {
      e := Begin(i);
    } else {
      var running := Filter(IsRunning, tasks);
      assert running[0] in tasks;
      var j :| 0 <= j < |tasks| && tasks[j] == running[0];
      e := Finish(j, answers[j]);
    }
    RemainingUpdate(tasks, e.i, Next(tasks, concurrency, e)[e.i]);
  }
}
