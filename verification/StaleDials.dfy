/** "The feeder does not dial a member that is not currently healthy": exactly when that holds. */
module StaleDials {
  import opened Prelude
  import opened Sorting
  import opened Checks
  import opened PoolStates
  import opened Feeder
  import Selection
  import Streak
  import Sweeps
  import Undisturbed

  // ---- Sweeps in which all probes answer alike.

  /** Every member answers, or none does. */
  function Outcomes(n: nat, ok: bool): (outcomes: seq<ProbeOutcome>)
    ensures |outcomes| == n
  {
    seq(n, _ => ProbeOutcome(ok, None, None, None, 0.0))
  }

  /** The length of the current streak of successes, or of failures. */
  function Run(h: Streak.Health, ok: bool): nat {
    if ok then h.successes else h.failures
  }

  function Threshold(policy: Selection.SelectionPolicy, ok: bool): int {
    Max(1, if ok then policy.successThreshold else policy.failThreshold)
  }

  /** Every member has a streak of at least k, and a flag to match if that reaches the threshold. */
  ghost predicate Uniform(c: Sweeps.Config, p: PoolState, ok: bool, k: nat) {
    forall id | id in c.ids :: id in p.members && UniformMember(c.policies.selection, p.members[id].health, ok, k)
  }

  predicate UniformMember(policy: Selection.SelectionPolicy, h: Streak.Health, ok: bool, k: nat) {
    Run(h, ok) >= k && (k >= Threshold(policy, ok) ==> h.healthy == ok)
  }

  lemma UniformStep(policy: Selection.SelectionPolicy, h: Streak.Health, ok: bool, k: nat)
    requires Run(h, ok) >= k
    ensures UniformMember(policy, Streak.Step(h, ok, policy), ok, k + 1)
  {
  }

  /** The sweep that gives these answers. */
  function SweepOf(c: Sweeps.Config, s: Sweeps.System, ok: bool): Sweeps.System {
    Undisturbed.Swept(c, s, Outcomes(|c.ids|, ok), 0.0, 1.0)
  }

  lemma UniformSweep(c: Sweeps.Config, s: Sweeps.System, ok: bool, k: nat)
    requires s.pool.ids == c.ids && Uniform(c, s.pool, ok, k)
    ensures Uniform(c, SweepOf(c, s, ok).pool, ok, k + 1)
  {
    var outcomes := Outcomes(|c.ids|, ok);
    var input := Undisturbed.SweptInput(c.ids, s.tables, outcomes, 0.0, 1.0);
    forall id | id in c.ids
      ensures id in SweepOf(c, s, ok).pool.members
      ensures UniformMember(c.policies.selection, SweepOf(c, s, ok).pool.members[id].health, ok, k + 1)
    {
      var i :| 0 <= i < |c.ids| && c.ids[i] == id;
      SweptMember(s.pool, input, c.policies, i);
      UniformStep(c.policies.selection, s.pool.members[id].health, ok, k);
    }
  }

  // ---- The system's steps among the feeder's events.

  function Events(steps: seq<Sweeps.Step>): (events: seq<Event>)
    ensures |events| == |steps|
  {
    seq(|steps|, i requires 0 <= i < |steps| => System(steps[i]))
  }

  lemma {:induction false} SystemRuns(c: Config, events: seq<Event>, steps: seq<Sweeps.Step>)
    requires NoDuplicates(c.system.ids) && Possible(c, events)
    requires Undisturbed.Lead(c.system, After(c, events).system, steps).Some?
    ensures Possible(c, events + Events(steps))
    ensures After(c, events + Events(steps))
            == After(c, events).(system := Undisturbed.Lead(c.system, After(c, events).system, steps).value)
    decreases |steps|
  {
    if steps == [] {
      assert events + Events(steps) == events;
    } else {
      var first, rest := steps[0], steps[1..];
      assert Events(steps) == [System(first)] + Events(rest);
      assert events + Events(steps) == events + [System(first)] + Events(rest);
      OneMoreEvent(c, events, System(first));
      SystemRuns(c, events + [System(first)], rest);
    }
  }

  /** A run whose system is at rest goes on with a sweep; no handler moves. */
  lemma SweepAmongEvents(c: Config, events: seq<Event>, ok: bool) returns (more: seq<Event>)
    requires NoDuplicates(c.system.ids) && Possible(c, events) && After(c, events).system.sweep.Idle?
    ensures Possible(c, more)
    ensures After(c, more) == After(c, events).(system := SweepOf(c.system, After(c, events).system, ok))
  {
    var steps := Undisturbed.SweepSteps(Outcomes(|c.system.ids|, ok), 0.0, 1.0);
    Undisturbed.UndisturbedSweep(c.system, After(c, events).system, Outcomes(|c.system.ids|, ok), 0.0, 1.0);
    SystemRuns(c, events, steps);
    more := events + Events(steps);
  }

  lemma OneMoreUniform(c: Config, events: seq<Event>, ok: bool, k: nat) returns (more: seq<Event>)
    requires NoDuplicates(c.system.ids) && Possible(c, events) && After(c, events).system.sweep.Idle?
    requires Uniform(c.system, After(c, events).system.pool, ok, k)
    ensures Possible(c, more) && After(c, more).system.sweep.Idle?
    ensures After(c, more).handlers == After(c, events).handlers && After(c, more).active == After(c, events).active
    ensures Uniform(c.system, After(c, more).system.pool, ok, k + 1)
  {
    RunsInOrder(c, events);
    more := SweepAmongEvents(c, events, ok);
    UniformSweep(c.system, After(c, events).system, ok, k);
  }

  lemma NothingUniform(c: Config, s: Server, ok: bool)
    requires InOrder(c, s)
    ensures Uniform(c.system, s.system.pool, ok, 0)
  {
  }

  /** After enough sweeps with the same answers all flags are up, or all are down. */
  lemma {:induction false} AllFlags(c: Config, events: seq<Event>, ok: bool, n: nat) returns (more: seq<Event>)
    requires NoDuplicates(c.system.ids) && Possible(c, events) && After(c, events).system.sweep.Idle?
    ensures Possible(c, more) && After(c, more).system.sweep.Idle?
    ensures After(c, more).handlers == After(c, events).handlers && After(c, more).active == After(c, events).active
    ensures Uniform(c.system, After(c, more).system.pool, ok, n)
  {
    if n == 0 {
      more := events;
      RunsInOrder(c, events);
      NothingUniform(c, After(c, events), ok);
    } else {
      more := AllFlags(c, events, ok, n - 1);
      more := OneMoreUniform(c, more, ok, n - 1);
    }
  }

  // ---- A stale walk.

  /** A pool of healthy members offers them all, hence at least two of two. */
  lemma AllOffered(c: Config, s: Server)
    requires InOrder(c, s) && NoDuplicates(c.system.ids) && |c.system.ids| >= 2
    requires forall id | id in c.system.ids :: id in s.system.pool.members && s.system.pool.members[id].health.healthy
    ensures |s.Now().ranked| >= 2
  {
    OfferIsFair(s.system.pool);
    var ranked, ids := s.Now().ranked, c.system.ids;
    assert ids[0] in ids && ids[1] in ids;
    assert ids[0] in ranked && ids[1] in ranked;
    var i :| 0 <= i < |ranked| && ranked[i] == ids[0];
    var j :| 0 <= j < |ranked| && ranked[j] == ids[1];
  }

  /** A request read while two members are healthy has dialled the first of them. */
  lemma RequestRead(c: Config, events: seq<Event>) returns (more: seq<Event>)
    requires NoDuplicates(c.system.ids) && Possible(c, events) && 0 !in After(c, events).handlers
    requires c.policy.Admits(After(c, events).active, 0) && c.Tries() >= 2 && |After(c, events).Now().ranked| >= 2
    ensures Possible(c, more) && After(c, more).system == After(c, events).system && 0 in After(c, more).handlers
    ensures var x := After(c, more).handlers[0]; x.phase.Opening? && |x.candidates| >= 2 && |x.dials| == 1
  {
    OneMoreEvent(c, events, Connect(0, 0));
    OneMoreEvent(c, events + [Connect(0, 0)], HeadRead(0, true));
    more := events + [Connect(0, 0)] + [HeadRead(0, true)];
  }

  /** When its connection fails after everybody went down, it dials the second one, who is down. */
  lemma SecondDial(c: Config, events: seq<Event>)
    requires NoDuplicates(c.system.ids) && Possible(c, events) && 0 in After(c, events).handlers
    requires var x := After(c, events).handlers[0]; x.phase.Opening? && |x.candidates| >= 2 && |x.dials| == 1
    requires forall id | id in c.system.ids ::
               id in After(c, events).system.pool.members && !After(c, events).system.pool.members[id].health.healthy
    ensures Possible(c, events + [OpenFailed(0)]) && !DialsHealthyOnly(After(c, events + [OpenFailed(0)]))
  {
    RunsInOrder(c, events);
    OneMoreEvent(c, events, OpenFailed(0));
    NobodyOffered(c, After(c, events));
    DialsTheDown(After(c, events).Now(), After(c, events).handlers[0]);
  }

  lemma NobodyOffered(c: Config, s: Server)
    requires InOrder(c, s)
    requires forall id | id in c.system.ids :: id in s.system.pool.members && !s.system.pool.members[id].health.healthy
    ensures s.Now().healthy == {}
  {
  }

  lemma DialsTheDown(now: Offer, x: Handler)
    requires now.healthy == {} && |x.candidates| >= 2 && |x.dials| == 1
    ensures !HealthyDials(TryNext(now, x))
  {
    assert !TryNext(now, x).dials[1].healthy;
  }

  /**
   * With two members, two tries and a free permit: enough sweeps raise everybody, a request is
   * read, enough sweeps lower everybody, and the first connection fails.
   */
  lemma StaleWalkDialsUnhealthy(c: Config) returns (events: seq<Event>)
    requires NoDuplicates(c.system.ids) && !OneDial(c)
    ensures Possible(c, events) && !DialsHealthyOnly(After(c, events))
  {
    var policy := c.system.policies.selection;
    var up := AllFlags(c, [], true, Threshold(policy, true));
    RunsInOrder(c, up);
    AllOffered(c, After(c, up));
    var read := RequestRead(c, up);
    var down := AllFlags(c, read, false, Threshold(policy, false));
    SecondDial(c, down);
    events := down + [OpenFailed(0)];
  }

  /**
   * The documented promise that no member is dialled that is not currently healthy holds of all
   * runs exactly when a request cannot dial twice: there is one try, or one member, or nobody is
   * admitted. The list is read once, and sweeps may change the pool before a later attempt.
   */
  lemma CurrentlyHealthyIff(c: Config)
    requires NoDuplicates(c.system.ids)
    ensures NeverDialsUnhealthy(c) <==>
              c.maxFailover <= 1 || c.policy.maxConnections <= 0 || |c.system.ids| <= 1
  {
    if OneDial(c) {
      forall events: seq<Event> | Possible(c, events) ensures DialsHealthyOnly(After(c, events)) {
        OneDialIsHealthy(c, events);
      }
    } else {
      var events := StaleWalkDialsUnhealthy(c);
    }
  }
}
