/** A sweep that nothing interleaves with: its steps, and what they make of the pool and the store. */
module Undisturbed {
  import opened Prelude
  import opened Sorting
  import opened Checks
  import opened Windows
  import opened Stores
  import opened PoolStates
  import Sweeps

  /** What a sweep that is not interleaved makes of the store. */
  function SweptTables(engine: Engine, tables: Tables, records: seq<CheckRecord>, now: real, retainDays: int): Tables {
    var recorded := Apply(engine, tables, Record(records));
    Apply(engine, Apply(engine, recorded, Rebuild(now, 7, 48, Series.Pool)), Prune(now, retainDays))
  }

  /** What it hands to the pool: the rates are read after its own records are in. */
  function SweptInput(ids: seq<string>, tables: Tables, outcomes: seq<ProbeOutcome>, now: real, seconds: real): SweepInput
    requires |ids| == |outcomes|
  {
    SweepInput(Sweeps.Applies(ids, outcomes), Sweeps.RatesAt(ids, tables.checks + Sweeps.PoolRecords(ids, outcomes), now), now, seconds)
  }

  /** The steps of an undisturbed sweep, in the step machine. */
  function SweepSteps(outcomes: seq<ProbeOutcome>, now: real, seconds: real): seq<Sweeps.Step> {
    [Sweeps.SweepBegin(false), Sweeps.SweepProbed(outcomes), Sweeps.SweepRecord, Sweeps.SweepClock(now), Sweeps.SweepRates,
     Sweeps.SweepApply(seconds), Sweeps.SweepRebuild, Sweeps.SweepPrune]
  }

  /** Where a list of steps leads from a state, if every one of them is enabled in turn. */
  function Lead(c: Sweeps.Config, s: Sweeps.System, steps: seq<Sweeps.Step>): Option<Sweeps.System>
    decreases |steps|
  {
    if steps == [] then Some(s)
    else if !Sweeps.Enabled(c, s, steps[0]) then None
    else Lead(c, Sweeps.Next(c, s, steps[0]), steps[1..])
  }

  /** What the pool and the system's books hold after an undisturbed sweep. */
  function Swept(c: Sweeps.Config, s: Sweeps.System, outcomes: seq<ProbeOutcome>, now: real, seconds: real): Sweeps.System
    requires |outcomes| == |c.ids|
  {
    var records, input := Sweeps.PoolRecords(c.ids, outcomes), SweptInput(c.ids, s.tables, outcomes, now, seconds);
    s.(pool := Sweep(s.pool, input, c.policies), sweepInProgress := false, sweep := Sweeps.Idle,
       tables := SweptTables(c.engine, s.tables, records, now, c.retainDays),
       journal := s.journal + [Record(records)] + [Rebuild(now, 7, 48, Series.Pool)] + [Prune(now, c.retainDays)],
       inputs := s.inputs + [input])
  }

  /** Up to the point where it has read its rates, a sweep has only recorded its checks. */
  lemma SweepReads(c: Sweeps.Config, s: Sweeps.System, outcomes: seq<ProbeOutcome>, now: real, seconds: real) returns (t: Sweeps.System)
    requires s.sweep.Idle? && |outcomes| == |c.ids|
    ensures Lead(c, s, SweepSteps(outcomes, now, seconds)) == Lead(c, t, SweepSteps(outcomes, now, seconds)[5..])
    ensures var records := Sweeps.PoolRecords(c.ids, outcomes);
            t == Sweeps.Execute(c, s, Record(records)).(
                   sweepInProgress := true,
                   sweep := Sweeps.Rated(outcomes, now, Sweeps.RatesAt(c.ids, s.tables.checks + records, now)))
  {
    var steps := SweepSteps(outcomes, now, seconds);
    t := s;
    for i := 0 to 5
      invariant Lead(c, s, steps) == Lead(c, t, steps[i..])
      invariant i == 0 ==> t == s
      invariant i == 1 ==> t == s.(sweepInProgress := true, sweep := Sweeps.Probing)
      invariant i == 2 ==> t == s.(sweepInProgress := true, sweep := Sweeps.Recording(outcomes))
      invariant i >= 3 ==>
                  t == Sweeps.Execute(c, s, Record(Sweeps.PoolRecords(c.ids, outcomes))).(sweepInProgress := true, sweep := t.sweep)
      invariant i == 3 ==> t.sweep == Sweeps.Recorded(outcomes)
      invariant i == 4 ==> t.sweep == Sweeps.Reading(outcomes, now)
      invariant i == 5 ==> t.sweep == Sweeps.Rated(outcomes, now, Sweeps.RatesAt(c.ids, t.tables.checks, now))
    {
      assert steps[i..][1..] == steps[i + 1..];
      t := Sweeps.Next(c, t, steps[i]);
    }
  }

  /** From its rates on, it scores the pool, rebuilds the rollups and prunes. */
  lemma SweepWrites(c: Sweeps.Config, t: Sweeps.System, outcomes: seq<ProbeOutcome>, now: real, seconds: real) returns (u: Sweeps.System)
    requires t.sweep.Rated? && t.sweep.outcomes == outcomes && t.sweep.now == now && |outcomes| == |c.ids|
    ensures Lead(c, t, SweepSteps(outcomes, now, seconds)[5..]) == Some(u)
    ensures var input := SweepInput(Sweeps.Applies(c.ids, outcomes), t.sweep.rates, now, seconds);
            var v := Sweeps.Execute(c, Sweeps.Execute(c, t, Rebuild(now, 7, 48, Series.Pool)), Prune(now, c.retainDays));
            u == v.(pool := Sweep(t.pool, input, c.policies), sweepInProgress := false, sweep := Sweeps.Idle,
                    inputs := t.inputs + [input])
  {
    var steps := SweepSteps(outcomes, now, seconds);
    var v := Sweeps.Next(c, t, Sweeps.SweepApply(seconds));
    var w := Sweeps.Next(c, v, Sweeps.SweepRebuild);
    u := Sweeps.Next(c, w, Sweeps.SweepPrune);
    assert steps[5..][1..] == steps[6..] && steps[6..][1..] == steps[7..] && steps[7..][1..] == [];
    assert Lead(c, w, steps[7..]) == Lead(c, u, []);
    assert Lead(c, v, steps[6..]) == Lead(c, w, steps[7..]);
  }

  /** The step machine, run without interleaving, leaves the pool and the store exactly as Execute does. */
  lemma UndisturbedSweep(c: Sweeps.Config, s: Sweeps.System, outcomes: seq<ProbeOutcome>, now: real, seconds: real)
    requires s.sweep.Idle? && |outcomes| == |c.ids|
    ensures Lead(c, s, SweepSteps(outcomes, now, seconds)) == Some(Swept(c, s, outcomes, now, seconds))
  {
    var t := SweepReads(c, s, outcomes, now, seconds);
    var u := SweepWrites(c, t, outcomes, now, seconds);
  }

  /**
   * What an undisturbed sweep leaves behind: of the checks there were and its own exactly those
   * within the retention, and each member with the rates of the checks there were and its own.
   */
  lemma SweepLeaves(c: Sweeps.Config, s: Sweeps.System, outcomes: seq<ProbeOutcome>, now: real, seconds: real, r: CheckRecord, id: string)
    requires |outcomes| == |c.ids| && s.pool.ids == c.ids && id in c.ids
    ensures var t, all := Swept(c, s, outcomes, now, seconds), s.tables.checks + Sweeps.PoolRecords(c.ids, outcomes);
            var cutoff := now - (86400 * if c.retainDays < 1 then 1 else c.retainDays) as real;
            && multiset(t.tables.checks)[r] == (if r.checkedAt >= cutoff then multiset(all)[r] else 0)
            && id in t.pool.members && t.pool.members[id].rates == Rates(all, id, now, Series.Pool)
            && t.pool.lastSweepAt == Some(now) && t.pool.lastSweepSeconds == Some(seconds)
            && !t.sweepInProgress && t.sweep.Idle?
  {
    var all := s.tables.checks + Sweeps.PoolRecords(c.ids, outcomes);
    RecentKeeps(all, Cutoff(now, c.retainDays), r);
    SweptTablesChecks(c.engine, s.tables, Sweeps.PoolRecords(c.ids, outcomes), now, c.retainDays);
    RatesOfSwept(c, s, outcomes, now, seconds, id);
  }

  lemma SweptTablesChecks(engine: Engine, tables: Tables, records: seq<CheckRecord>, now: real, retainDays: int)
    ensures SweptTables(engine, tables, records, now, retainDays).checks
            == Recent(tables.checks + records, Cutoff(now, retainDays))
  {
  }

  lemma RatesOfSwept(c: Sweeps.Config, s: Sweeps.System, outcomes: seq<ProbeOutcome>, now: real, seconds: real, id: string)
    requires |outcomes| == |c.ids| && s.pool.ids == c.ids && id in c.ids
    ensures var t := Swept(c, s, outcomes, now, seconds);
            && id in t.pool.members
            && t.pool.members[id].rates == Rates(s.tables.checks + Sweeps.PoolRecords(c.ids, outcomes), id, now, Series.Pool)
  {
    var i :| 0 <= i < |c.ids| && c.ids[i] == id;
    SweptMember(s.pool, SweptInput(c.ids, s.tables, outcomes, now, seconds), c.policies, i);
  }

  // ---- Undisturbed sweeps in a run.

  /** Where the steps lead is where a run goes that continues with them. */
  lemma {:induction false} LeadRuns(c: Sweeps.Config, before: seq<Sweeps.Step>, steps: seq<Sweeps.Step>)
    requires NoDuplicates(c.ids) && Sweeps.Possible(c, before) && Lead(c, Sweeps.AfterSteps(c, before), steps).Some?
    ensures Sweeps.Possible(c, before + steps)
    ensures Sweeps.AfterSteps(c, before + steps) == Lead(c, Sweeps.AfterSteps(c, before), steps).value
    decreases |steps|
  {
    if steps == [] {
      assert before + steps == before;
    } else {
      var first, rest := steps[0], steps[1..];
      assert before + steps == before + [first] + rest;
      Sweeps.OneMoreStep(c, before, first);
      LeadRuns(c, before + [first], rest);
    }
  }

  /** Any run at rest can be continued by an undisturbed sweep, whatever the probes answer. */
  lemma SweepContinues(c: Sweeps.Config, before: seq<Sweeps.Step>, outcomes: seq<ProbeOutcome>, now: real, seconds: real)
    requires NoDuplicates(c.ids) && Sweeps.Possible(c, before) && |outcomes| == |c.ids|
    requires Sweeps.AfterSteps(c, before).sweep.Idle?
    ensures var steps := before + SweepSteps(outcomes, now, seconds);
            && Sweeps.Possible(c, steps)
            && Sweeps.AfterSteps(c, steps) == Swept(c, Sweeps.AfterSteps(c, before), outcomes, now, seconds)
  {
    UndisturbedSweep(c, Sweeps.AfterSteps(c, before), outcomes, now, seconds);
    LeadRuns(c, before, SweepSteps(outcomes, now, seconds));
  }

  lemma SweepWellClocked(before: seq<Sweeps.Step>, outcomes: seq<ProbeOutcome>, now: real, seconds: real)
    requires Sweeps.WellClocked(before, now) && Sweeps.DatedOutcomes(outcomes)
    ensures Sweeps.WellClocked(before + SweepSteps(outcomes, now, seconds), now)
  {
    Sweeps.ClockedTogether(before, SweepSteps(outcomes, now, seconds), now);
  }
}
