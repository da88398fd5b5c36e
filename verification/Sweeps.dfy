/**
 * The sweep and the egress probe as interleaved steps on one store. A step is what runs
 * between two awaits; what the network, the clock and the memory reading answer is part of it.
 */
module Sweeps {
  import opened Prelude
  import opened Sorting
  import opened Checks
  import opened Windows
  import opened Stores
  import opened Score
  import opened PoolStates
  import opened History
  import Selection
  import Streak
  import SelectionRuns

  /** The egress probe is enabled when its flag is set and it has a target. */
  datatype Config = Config(ids: seq<string>, policies: Policies, retainDays: int, engine: Engine, egressEnabled: bool)

  datatype SweepPhase =
    | Idle
    | Probing
    | Recording(outcomes: seq<ProbeOutcome>)
    | Recorded(outcomes: seq<ProbeOutcome>)
    | Reading(outcomes: seq<ProbeOutcome>, now: real)
    | Rated(outcomes: seq<ProbeOutcome>, now: real, rates: map<string, SuccessRates>)
    | Applied(now: real)
    | RolledUp(now: real)

  datatype EgressPhase = Resting | Dialling | Storing(outcome: ProbeOutcome)

  type ValidPool = p: PoolState | p.Valid() witness PoolState([], map[], Selection.NOTHING_CHOSEN, None, None)

  datatype System = System(
    pool: ValidPool,
    sweepInProgress: bool,
    sweep: SweepPhase,
    tables: Tables,
    egress: Option<ProbeOutcome>,
    probe: EgressPhase,
    journal: seq<Op>,
    inputs: seq<SweepInput>)

  datatype Step =
    | SweepBegin(overLimit: bool)
    | SweepProbed(outcomes: seq<ProbeOutcome>)
    | SweepRecord
    | SweepClock(now: real)
    | SweepRates
    | SweepApply(seconds: real)
    | SweepRebuild
    | SweepPrune
    | SweepFail
    | EgressBegin(overLimit: bool)
    | EgressProbed(outcome: ProbeOutcome)
    | EgressRecord
    | EgressFail

  predicate IsSweepStep(step: Step) {
    !(step.EgressBegin? || step.EgressProbed? || step.EgressRecord? || step.EgressFail?)
  }

  function PoolRecords(ids: seq<string>, outcomes: seq<ProbeOutcome>): (rows: seq<CheckRecord>)
    requires |ids| == |outcomes|
    ensures |rows| == |ids|
  {
    seq(|ids|, i requires 0 <= i < |ids| =>
      var o := outcomes[i]; CheckRecord(ids[i], Series.Pool, o.checkedAt, o.success, o.latency, o.statusCode, o.error))
  }

  function Applies(ids: seq<string>, outcomes: seq<ProbeOutcome>): (results: seq<CheckApply>)
    requires |ids| == |outcomes|
    ensures |results| == |ids|
  {
    seq(|ids|, i requires 0 <= i < |ids| =>
      var o := outcomes[i]; CheckApply(ids[i], o.success, o.latency, o.statusCode, o.error, o.checkedAt))
  }

  function EgressRecordOf(o: ProbeOutcome): CheckRecord {
    CheckRecord(EGRESS_ID, Series.Egress, o.checkedAt, o.success, o.latency, o.statusCode, o.error)
  }

  /** A check is recorded field by field as the probe found it, in the pool's series under its member, or in the egress series. */
  lemma RecordsCarryOutcomes(ids: seq<string>, outcomes: seq<ProbeOutcome>, i: nat, o: ProbeOutcome)
    requires |ids| == |outcomes| && i < |ids| && outcomes[i] == o
    ensures PoolRecords(ids, outcomes)[i]
            == CheckRecord(ids[i], Series.Pool, o.checkedAt, o.success, o.latency, o.statusCode, o.error)
    ensures Applies(ids, outcomes)[i] == CheckApply(ids[i], o.success, o.latency, o.statusCode, o.error, o.checkedAt)
    ensures EgressRecordOf(o) == CheckRecord("egress", Series.Egress, o.checkedAt, o.success, o.latency, o.statusCode, o.error)
  {
  }

  function Start(c: Config): System
    requires NoDuplicates(c.ids)
  {
    System(NewPool(c.ids), false, Idle, EMPTY, None, Resting, [], [])
  }

  /** The zips of members and outcomes are strict: a mismatch is an error, hence a SweepFail. */
  predicate Enabled(c: Config, s: System, step: Step) {
    match step
    case SweepBegin(_) => s.sweep.Idle?
    case SweepProbed(outcomes) => s.sweep.Probing? && |outcomes| == |c.ids|
    case SweepRecord => s.sweep.Recording? && |s.sweep.outcomes| == |c.ids|
    case SweepClock(_) => s.sweep.Recorded?
    case SweepRates => s.sweep.Reading?
    case SweepApply(_) => s.sweep.Rated? && |s.sweep.outcomes| == |c.ids|
    case SweepRebuild => s.sweep.Applied?
    case SweepPrune => s.sweep.RolledUp?
    case SweepFail => !s.sweep.Idle?
    case EgressBegin(_) => s.probe.Resting?
    case EgressProbed(_) => s.probe.Dialling?
    case EgressRecord => s.probe.Storing?
    case EgressFail => !s.probe.Resting?
  }

  /** One store operation, executed atomically and written down in the journal. */
  function Execute(c: Config, s: System, op: Op): System {
    s.(tables := Apply(c.engine, s.tables, op), journal := s.journal + [op])
  }

  function RatesAt(ids: seq<string>, checks: seq<CheckRecord>, now: real): map<string, SuccessRates> {
    map id | id in ids :: Rates(checks, id, now, Series.Pool)
  }

  /** What a sweep in progress hands to the pool. */
  function InputOf(c: Config, s: System, seconds: real): SweepInput
    requires Enabled(c, s, SweepApply(seconds))
  {
    SweepInput(Applies(c.ids, s.sweep.outcomes), s.sweep.rates, s.sweep.now, seconds)
  }

  function ApplySweep(c: Config, s: System, seconds: real): System
    requires Enabled(c, s, SweepApply(seconds))
  {
    var input := InputOf(c, s, seconds);
    s.(pool := Sweep(s.pool, input, c.policies), inputs := s.inputs + [input], sweep := Applied(s.sweep.now))
  }

  function Next(c: Config, s: System, step: Step): System
    requires Enabled(c, s, step)
  {
    match step
    case SweepBegin(overLimit) =>
      if overLimit then s else s.(sweepInProgress := true, sweep := Probing)
    case SweepProbed(outcomes) => s.(sweep := Recording(outcomes))
    case SweepRecord =>
      Execute(c, s, Record(PoolRecords(c.ids, s.sweep.outcomes))).(sweep := Recorded(s.sweep.outcomes))
    case SweepClock(now) => s.(sweep := Reading(s.sweep.outcomes, now))
    case SweepRates =>
      s.(sweep := Rated(s.sweep.outcomes, s.sweep.now, RatesAt(c.ids, s.tables.checks, s.sweep.now)))
    case SweepApply(seconds) => ApplySweep(c, s, seconds)
    case SweepRebuild => Execute(c, s, Rebuild(s.sweep.now, 7, 48, Series.Pool)).(sweep := RolledUp(s.sweep.now))
    case SweepPrune => Execute(c, s, Prune(s.sweep.now, c.retainDays)).(sweepInProgress := false, sweep := Idle)
    case SweepFail => s.(sweepInProgress := false, sweep := Idle)
    case EgressBegin(overLimit) => if !c.egressEnabled || overLimit then s else s.(probe := Dialling)
    case EgressProbed(outcome) => s.(egress := Some(outcome), probe := Storing(outcome))
    case EgressRecord => Execute(c, s, Record([EgressRecordOf(s.probe.outcome)])).(probe := Resting)
    case EgressFail => s.(probe := Resting)
  }

  // ---- Runs.

  predicate Possible(c: Config, steps: seq<Step>)
    requires NoDuplicates(c.ids)
    decreases |steps|, 0
  {
    steps == []
    || (Possible(c, steps[..|steps| - 1])
        && Enabled(c, AfterSteps(c, steps[..|steps| - 1]), steps[|steps| - 1]))
  }

  function AfterSteps(c: Config, steps: seq<Step>): System
    requires NoDuplicates(c.ids) && Possible(c, steps)
    decreases |steps|, 1
  {
    if steps == [] then Start(c)
    else Next(c, AfterSteps(c, steps[..|steps| - 1]), steps[|steps| - 1])
  }

  /** Under memory pressure neither a sweep nor an egress probe starts, and a disabled egress probe never does. */
  lemma PressureSkips(c: Config, s: System, overLimit: bool)
    ensures Enabled(c, s, SweepBegin(true)) ==> Next(c, s, SweepBegin(true)) == s
    ensures Enabled(c, s, EgressBegin(overLimit)) && (overLimit || !c.egressEnabled) ==> Next(c, s, EgressBegin(overLimit)) == s
    ensures Enabled(c, s, SweepBegin(false)) ==> Next(c, s, SweepBegin(false)).sweep.Probing?
    ensures Enabled(c, s, EgressBegin(false)) && c.egressEnabled ==> Next(c, s, EgressBegin(false)).probe.Dialling?
  {
  }

  lemma OneMoreStep(c: Config, steps: seq<Step>, step: Step)
    requires NoDuplicates(c.ids) && Possible(c, steps) && Enabled(c, AfterSteps(c, steps), step)
    ensures Possible(c, steps + [step]) && AfterSteps(c, steps + [step]) == Next(c, AfterSteps(c, steps), step)
  {
    assert (steps + [step])[..|steps|] == steps;
  }

  // ---- The egress probe cannot be seen from the pool.

  /** All of the system that the pool, its rates, its rollups and its histories depend on. */
  datatype View = View(
    pool: PoolState,
    sweepInProgress: bool,
    sweep: SweepPhase,
    poolChecks: seq<CheckRecord>,
    daily: RollupTable,
    hourly: RollupTable,
    inputs: seq<SweepInput>)

  function Seen(s: System): View {
    View(s.pool, s.sweepInProgress, s.sweep, Filter(InSeries(Series.Pool), s.tables.checks), s.tables.daily, s.tables.hourly, s.inputs)
  }

  lemma EgressStepUnseen(c: Config, s: System, step: Step)
    requires Enabled(c, s, step) && !IsSweepStep(step)
    ensures Seen(Next(c, s, step)) == Seen(s)
  {
    if step.EgressRecord? {
      FilterAppend(InSeries(Series.Pool), s.tables.checks, EgressRecordOf(s.probe.outcome));
    }
  }

  /** What a rebuild makes of the rollups depends on the pool's own checks only. */
  lemma RebuildSeesPoolOnly(engine: Engine, period: Period, t: RollupTable, checks: seq<CheckRecord>, since: real)
    ensures Rebuilt(engine, period, Series.Pool, t, checks, since)
            == Rebuilt(engine, period, Series.Pool, t, Filter(InSeries(Series.Pool), checks), since)
  {
    FilterSwap(InSeries(Series.Pool), Since(since), checks);
    TableIgnoresOtherSeries(engine, period.Width(), Series.Pool, Recent(checks, since));
  }

  lemma RatesSeePoolOnly(ids: seq<string>, xs: seq<CheckRecord>, ys: seq<CheckRecord>, now: real)
    requires Filter(InSeries(Series.Pool), xs) == Filter(InSeries(Series.Pool), ys)
    ensures RatesAt(ids, xs, now) == RatesAt(ids, ys, now)
  {
    forall id | id in ids ensures Rates(xs, id, now, Series.Pool) == Rates(ys, id, now, Series.Pool) {
      RatesIgnoreOtherSeries(xs, id, now, Series.Pool);
      RatesIgnoreOtherSeries(ys, id, now, Series.Pool);
    }
  }

  /** Systems that look the same run the same store operation to the same look. */
  lemma ExecuteSeen(c: Config, s: System, t: System, op: Op)
    requires Seen(s) == Seen(t) && (op.Rebuild? ==> op.of == Series.Pool)
    ensures Seen(Execute(c, s, op)) == Seen(Execute(c, t, op))
  {
    var pool, xs, ys := InSeries(Series.Pool), s.tables.checks, t.tables.checks;
    match op
    case Record(records) =>
      FilterConcat(pool, xs, records);
      FilterConcat(pool, ys, records);
    case Rebuild(now, days, hours, of) =>
      RebuildSeesPoolOnly(c.engine, Daily, s.tables.daily, xs, Back(now, days, DAY_SECONDS));
      RebuildSeesPoolOnly(c.engine, Daily, s.tables.daily, ys, Back(now, days, DAY_SECONDS));
      RebuildSeesPoolOnly(c.engine, Hourly, s.tables.hourly, xs, Back(now, hours, HOUR_SECONDS));
      RebuildSeesPoolOnly(c.engine, Hourly, s.tables.hourly, ys, Back(now, hours, HOUR_SECONDS));
    case Prune(now, retainDays) =>
      FilterSwap(pool, Since(Cutoff(now, retainDays)), xs);
      FilterSwap(pool, Since(Cutoff(now, retainDays)), ys);
  }

  lemma SweepStepSeen(c: Config, s: System, t: System, step: Step)
    requires Seen(s) == Seen(t) && IsSweepStep(step) && Enabled(c, s, step)
    ensures Enabled(c, t, step) && Seen(Next(c, s, step)) == Seen(Next(c, t, step))
  {
    match step
    case SweepRecord => ExecuteSeen(c, s, t, Record(PoolRecords(c.ids, s.sweep.outcomes)));
    case SweepRates => RatesSeePoolOnly(c.ids, s.tables.checks, t.tables.checks, s.sweep.now);
    case SweepRebuild => ExecuteSeen(c, s, t, Rebuild(s.sweep.now, 7, 48, Series.Pool));
    case SweepPrune => ExecuteSeen(c, s, t, Prune(s.sweep.now, c.retainDays));
    case _ =>
  }

  /**
   * Egress noninterference: deleting every egress step from any run leaves a run, with the same
   * members, scores, choice, sweep phase, rates, rollups and pool checks at its end.
   */
  lemma {:induction false} EgressNoninterference(c: Config, steps: seq<Step>)
    requires NoDuplicates(c.ids) && Possible(c, steps)
    ensures var alone := Filter(IsSweepStep, steps);
            Possible(c, alone) && Seen(AfterSteps(c, alone)) == Seen(AfterSteps(c, steps))
  {
    if steps != [] {
      var before, step := steps[..|steps| - 1], steps[|steps| - 1];
      EgressNoninterference(c, before);
      var alone := Filter(IsSweepStep, before);
      if IsSweepStep(step) {
        SweepStepSeen(c, AfterSteps(c, before), AfterSteps(c, alone), step);
        assert (alone + [step])[..|alone|] == alone;
        assert Filter(IsSweepStep, steps) == alone + [step];
      } else {
        EgressStepUnseen(c, AfterSteps(c, before), step);
        assert Filter(IsSweepStep, steps) == alone;
      }
    }
  }

  /** The pool history of a member is a function of the view. */
  lemma HistorySeesPoolOnly(s: System, id: string, limit: int)
    ensures MemoryHistory(s.tables.checks, id, Series.Pool, limit) == MemoryHistory(Seen(s).poolChecks, id, Series.Pool, limit)
  {
    FilterWeaker(Belongs(id, Series.Pool), InSeries(Series.Pool), s.tables.checks);
  }

  // ---- The pool's rates, scores and health agree with a log that is never pruned.

  /** Clock readings do not go back, and no probe is dated before the epoch. */
  predicate WellClocked(steps: seq<Step>, now: real) {
    steps == []
    || (var last := steps[|steps| - 1];
        match last
        case SweepClock(reading) => reading <= now && WellClocked(steps[..|steps| - 1], reading)
        case SweepProbed(outcomes) => (forall o | o in outcomes :: o.checkedAt >= 0.0) && WellClocked(steps[..|steps| - 1], now)
        case EgressProbed(outcome) => outcome.checkedAt >= 0.0 && WellClocked(steps[..|steps| - 1], now)
        case _ => WellClocked(steps[..|steps| - 1], now))
  }

  predicate DatedOutcomes(outcomes: seq<ProbeOutcome>) {
    forall o | o in outcomes :: o.checkedAt >= 0.0
  }

  /** What the system writes: dated checks, rebuilds of 7 days and 48 hours of the pool's series, and prunes. */
  predicate SystemWrites(op: Op, retainDays: int) {
    && Dated(op)
    && (op.Rebuild? ==> op.days == 7 && op.hours == 48 && op.of == Series.Pool)
    && (op.Prune? ==> op.retainDays == retainDays)
  }

  ghost predicate WrittenBySweeps(ops: seq<Op>, retainDays: int) {
    forall i | 0 <= i < |ops| :: SystemWrites(ops[i], retainDays)
  }

  /** A sweep that has read the clock. */
  predicate HasReading(phase: SweepPhase) {
    phase.Reading? || phase.Rated? || phase.Applied? || phase.RolledUp?
  }

  /** The store is that of the journal, and nothing in the journal is later than the clock readings in use. */
  ghost predicate Journalled(c: Config, s: System, now: real) {
    && s.tables == After(c.engine, s.journal)
    && Timely(s.journal, now) && WrittenBySweeps(s.journal, c.retainDays)
    && (s.probe.Storing? ==> s.probe.outcome.checkedAt >= 0.0)
    && (s.sweep.Recording? ==> DatedOutcomes(s.sweep.outcomes))
    && (HasReading(s.sweep) ==> s.sweep.now <= now && Timely(s.journal, s.sweep.now))
  }

  /** The rates a sweep has read are still those of the log that is never pruned. */
  ghost predicate RatesCurrent(c: Config, s: System) {
    s.sweep.Rated? ==> s.sweep.rates == RatesAt(c.ids, Log(s.journal), s.sweep.now)
  }

  lemma {:induction false} TimelyLater(ops: seq<Op>, now: real, later: real)
    requires Timely(ops, now) && now <= later
    ensures Timely(ops, later)
  {
    if ops != [] && ops[|ops| - 1].Record? {
      TimelyLater(ops[..|ops| - 1], now, later);
    }
  }

  lemma OneMoreOp(c: Config, s: System, op: Op, at: real)
    requires s.tables == After(c.engine, s.journal) && Timely(s.journal, at)
    requires WrittenBySweeps(s.journal, c.retainDays) && SystemWrites(op, c.retainDays)
    requires op.Record? || op.now == at
    ensures var t := Execute(c, s, op);
            t.tables == After(c.engine, t.journal) && Timely(t.journal, at) && WrittenBySweeps(t.journal, c.retainDays)
    ensures Log(Execute(c, s, op).journal) == if op.Record? then Log(s.journal) + op.records else Log(s.journal)
  {
    assert (s.journal + [op])[..|s.journal|] == s.journal;
  }

  lemma JournalledRecord(c: Config, s: System, records: seq<CheckRecord>, now: real)
    requires Journalled(c, s, now) && AllDated(records)
    ensures Journalled(c, Execute(c, s, Record(records)), now)
    ensures Log(Execute(c, s, Record(records)).journal) == Log(s.journal) + records
  {
    OneMoreOp(c, s, Record(records), now);
    if HasReading(s.sweep) {
      OneMoreOp(c, s, Record(records), s.sweep.now);
    }
  }

  /** A store operation of the sweep itself, at the clock reading it carries. */
  lemma JournalledOwnOp(c: Config, s: System, op: Op, now: real)
    requires Journalled(c, s, now) && SystemWrites(op, c.retainDays) && !op.Record?
    requires HasReading(s.sweep) && op.now == s.sweep.now
    ensures Journalled(c, Execute(c, s, op), now)
  {
    OneMoreOp(c, s, op, s.sweep.now);
    TimelyLater(s.journal + [op], s.sweep.now, now);
  }

  /** What is given to a step is in order: a clock reading no earlier than any before, and dated outcomes. */
  predicate GoodInput(step: Step, now: real) {
    && (step.SweepClock? ==> step.now == now)
    && (step.SweepProbed? ==> DatedOutcomes(step.outcomes))
    && (step.EgressProbed? ==> step.outcome.checkedAt >= 0.0)
  }

  predicate WritesStore(step: Step) {
    step.SweepRecord? || step.SweepRebuild? || step.SweepPrune? || step.EgressRecord?
  }

  lemma JournalledQuietStep(c: Config, s: System, step: Step, now: real)
    requires Journalled(c, s, now) && Enabled(c, s, step) && GoodInput(step, now) && !WritesStore(step)
    ensures Journalled(c, Next(c, s, step), now)
  {
  }

  lemma JournalledRecordStep(c: Config, s: System, step: Step, now: real)
    requires Journalled(c, s, now) && Enabled(c, s, step) && (step.SweepRecord? || step.EgressRecord?)
    ensures Journalled(c, Next(c, s, step), now)
  {
    if step.SweepRecord? {
      JournalledRecord(c, s, PoolRecords(c.ids, s.sweep.outcomes), now);
    } else {
      JournalledRecord(c, s, [EgressRecordOf(s.probe.outcome)], now);
    }
  }

  lemma JournalledOwnStep(c: Config, s: System, step: Step, now: real)
    requires Journalled(c, s, now) && Enabled(c, s, step) && (step.SweepRebuild? || step.SweepPrune?)
    ensures Journalled(c, Next(c, s, step), now)
  {
    if step.SweepRebuild? {
      JournalledOwnOp(c, s, Rebuild(s.sweep.now, 7, 48, Series.Pool), now);
    } else {
      JournalledOwnOp(c, s, Prune(s.sweep.now, c.retainDays), now);
    }
  }

  lemma JournalledStep(c: Config, s: System, step: Step, now: real)
    requires Journalled(c, s, now) && Enabled(c, s, step) && GoodInput(step, now)
    ensures Journalled(c, Next(c, s, step), now)
  {
    if step.SweepRecord? || step.EgressRecord? {
      JournalledRecordStep(c, s, step, now);
    } else if WritesStore(step) {
      JournalledOwnStep(c, s, step, now);
    } else {
      JournalledQuietStep(c, s, step, now);
    }
  }

  lemma {:induction false} ClockedTogether(steps: seq<Step>, more: seq<Step>, now: real)
    requires WellClocked(steps, now) && forall i | 0 <= i < |more| :: GoodInput(more[i], now)
    ensures WellClocked(steps + more, now)
  {
    if more == [] {
      assert steps + more == steps;
    } else {
      var n := |more| - 1;
      ClockedTogether(steps, more[..n], now);
      assert (steps + more)[..|steps + more| - 1] == steps + more[..n];
    }
  }

  lemma {:induction false} ClockLater(steps: seq<Step>, now: real, later: real)
    requires WellClocked(steps, now) && now <= later
    ensures WellClocked(steps, later)
  {
    if steps != [] && !steps[|steps| - 1].SweepClock? {
      ClockLater(steps[..|steps| - 1], now, later);
    }
  }

  lemma JournalledLater(c: Config, s: System, now: real, later: real)
    requires Journalled(c, s, now) && now <= later
    ensures Journalled(c, s, later)
  {
    TimelyLater(s.journal, now, later);
  }

  /** The latest clock reading of the steps before a step that is made no later than now. */
  function ClockAfter(step: Step, now: real): real {
    if step.SweepClock? then step.now else now
  }

  /** In every interleaving the store is that of its journal, and the journal is one that sweeps write. */
  lemma {:induction false} RunsAreJournalled(c: Config, steps: seq<Step>, now: real)
    requires NoDuplicates(c.ids) && Possible(c, steps) && WellClocked(steps, now)
    ensures Journalled(c, AfterSteps(c, steps), now)
  {
    if steps != [] {
      var before, last := steps[..|steps| - 1], steps[|steps| - 1];
      RunsAreJournalled(c, before, ClockAfter(last, now));
      JournalledStep(c, AfterSteps(c, before), last, ClockAfter(last, now));
      JournalledLater(c, AfterSteps(c, steps), ClockAfter(last, now), now);
    }
  }

  lemma RatesReadFromLog(c: Config, s: System, now: real)
    requires Journalled(c, s, now) && c.retainDays >= 7 && s.sweep.Reading?
    ensures RatesAt(c.ids, s.tables.checks, s.sweep.now) == RatesAt(c.ids, Log(s.journal), s.sweep.now)
  {
    forall id | id in c.ids ensures Rates(s.tables.checks, id, s.sweep.now, Series.Pool) == Rates(Log(s.journal), id, s.sweep.now, Series.Pool) {
      RatesFromLog(c.engine, s.journal, id, s.sweep.now, Series.Pool);
    }
  }

  lemma NoPoolRow(o: ProbeOutcome)
    ensures Filter(InSeries(Series.Pool), [EgressRecordOf(o)]) == []
  {
    assert [] + [EgressRecordOf(o)] == [EgressRecordOf(o)];
    FilterAppend(InSeries(Series.Pool), [], EgressRecordOf(o));
  }

  /** An egress check that is recorded while a sweep holds its rates leaves them those of the log. */
  lemma RatesOutliveEgress(c: Config, s: System, o: ProbeOutcome, now: real)
    requires Journalled(c, s, now) && RatesCurrent(c, s) && o.checkedAt >= 0.0
    ensures RatesCurrent(c, Execute(c, s, Record([EgressRecordOf(o)])))
  {
    var rows := [EgressRecordOf(o)];
    JournalledRecord(c, s, rows, now);
    NoPoolRow(o);
    FilterConcat(InSeries(Series.Pool), Log(s.journal), rows);
    if s.sweep.Rated? {
      RatesSeePoolOnly(c.ids, Log(s.journal), Log(s.journal) + rows, s.sweep.now);
    }
  }

  lemma RatesCurrentStep(c: Config, s: System, step: Step, now: real)
    requires Journalled(c, s, now) && RatesCurrent(c, s) && Enabled(c, s, step) && c.retainDays >= 7
    ensures RatesCurrent(c, Next(c, s, step))
  {
    match step
    case SweepRates => RatesReadFromLog(c, s, now);
    case EgressRecord => RatesOutliveEgress(c, s, s.probe.outcome, now);
    case _ =>
  }

  /** With 7 days of retention, rates once read stay those of the log in every interleaving. */
  lemma {:induction false} RunsAreCoherent(c: Config, steps: seq<Step>, now: real)
    requires NoDuplicates(c.ids) && Possible(c, steps) && WellClocked(steps, now) && c.retainDays >= 7
    ensures Journalled(c, AfterSteps(c, steps), now) && RatesCurrent(c, AfterSteps(c, steps))
  {
    RunsAreJournalled(c, steps, now);
    if steps != [] {
      var before, last := steps[..|steps| - 1], steps[|steps| - 1];
      RunsAreCoherent(c, before, ClockAfter(last, now));
      RatesCurrentStep(c, AfterSteps(c, before), last, ClockAfter(last, now));
    }
  }

  lemma {:induction false} PoolFollowsInputs(c: Config, steps: seq<Step>)
    requires NoDuplicates(c.ids) && Possible(c, steps)
    ensures AfterSteps(c, steps).pool == AfterSweeps(c.ids, AfterSteps(c, steps).inputs, c.policies)
  {
    if steps != [] {
      var before, last := steps[..|steps| - 1], steps[|steps| - 1];
      PoolFollowsInputs(c, before);
      PoolFollowsStep(c, AfterSteps(c, before), last);
    }
  }

  lemma PoolFollowsStep(c: Config, s: System, step: Step)
    requires NoDuplicates(c.ids) && Enabled(c, s, step) && s.pool == AfterSweeps(c.ids, s.inputs, c.policies)
    ensures Next(c, s, step).pool == AfterSweeps(c.ids, Next(c, s, step).inputs, c.policies)
  {
    if step.SweepApply? {
      OneMoreSweep(c.ids, s.inputs, InputOf(c, s, step.seconds), c.policies);
    }
  }

  /** The laws of selection runs apply to the pool of every run of the system. */
  lemma SystemRunsSelection(c: Config, steps: seq<Step>)
    requires NoDuplicates(c.ids) && Possible(c, steps)
    ensures var s := AfterSteps(c, steps);
            var run := PoolStates.Shown(c.ids, s.inputs, c.policies);
            SelectionRuns.AllValid(run) && s.pool.choice == SelectionRuns.After(run, c.policies.selection)
  {
    PoolFollowsInputs(c, steps);
    PoolRunsSelection(c.ids, AfterSteps(c, steps).inputs, c.policies);
  }

  /** The member agrees with a recomputation from logs: all checks ever recorded, all results ever applied. */
  ghost predicate FromLogs(c: Config, m: Member, id: string, outcome: ProbeOutcome, log: seq<CheckRecord>, now: real, inputs: seq<SweepInput>) {
    && m.rates == Rates(log, id, now, Series.Pool)
    && m.score == ComputeScore(m.rates, m.health.healthy, outcome.latency, c.policies.scoring)
    && m.latency == outcome.latency && m.checkedAt == Some(outcome.checkedAt)
    && m.statusCode == outcome.statusCode && m.error == outcome.error
    && m.health == Streak.AfterChecks(HistoryOf(AllResults(inputs), id), c.policies.selection)
  }

  /**
   * Cache coherence: in every run with a clock that does not go back and at least 7 days of
   * retention, what a sweep leaves in the pool is what a recomputation gives from the log of all
   * checks ever recorded, never pruned, and from all results ever applied.
   */
  lemma SweepIsCoherent(c: Config, steps: seq<Step>, seconds: real, now: real, i: nat)
    requires NoDuplicates(c.ids) && c.retainDays >= 7 && i < |c.ids|
    requires Possible(c, steps) && WellClocked(steps, now) && Enabled(c, AfterSteps(c, steps), SweepApply(seconds))
    ensures var s := AfterSteps(c, steps);
            var t := Next(c, s, SweepApply(seconds));
            && t.pool.lastSweepAt == Some(s.sweep.now) && t.pool.lastSweepSeconds == Some(seconds) && c.ids[i] in t.pool.members
            && FromLogs(c, t.pool.members[c.ids[i]], c.ids[i], s.sweep.outcomes[i], Log(t.journal), s.sweep.now, t.inputs)
  {
    var s := AfterSteps(c, steps);
    RunsAreCoherent(c, steps, now);
    PoolFollowsInputs(c, steps);
    var input := InputOf(c, s, seconds);
    OneMoreSweep(c.ids, s.inputs, input, c.policies);
    HealthIsHistory(c.ids, s.inputs + [input], c.policies, c.ids[i]);
    SweptFromLogs(c, s, seconds, i);
  }

  lemma SweptFromLogs(c: Config, s: System, seconds: real, i: nat)
    requires Enabled(c, s, SweepApply(seconds)) && i < |c.ids| && s.pool.ids == c.ids
    requires s.sweep.rates == RatesAt(c.ids, Log(s.journal), s.sweep.now)
    ensures var p := Sweep(s.pool, InputOf(c, s, seconds), c.policies);
            && c.ids[i] in p.members
            && (p.members[c.ids[i]].health
                  == Streak.AfterChecks(HistoryOf(AllResults(s.inputs + [InputOf(c, s, seconds)]), c.ids[i]), c.policies.selection)
                ==> FromLogs(c, p.members[c.ids[i]], c.ids[i], s.sweep.outcomes[i], Log(s.journal), s.sweep.now,
                             s.inputs + [InputOf(c, s, seconds)]))
  {
    SweptMember(s.pool, InputOf(c, s, seconds), c.policies, i);
  }

  // ---- Between sweeps.

  predicate IsApply(step: Step) {
    step.SweepApply?
  }

  /** Until the next apply step the pool stays as it is, whatever else happens. */
  lemma {:induction false} PoolRests(c: Config, steps: seq<Step>, more: seq<Step>)
    requires NoDuplicates(c.ids) && Possible(c, steps + more) && forall i | 0 <= i < |more| :: !IsApply(more[i])
    ensures Possible(c, steps) && AfterSteps(c, steps + more).pool == AfterSteps(c, steps).pool
  {
    if more == [] {
      assert steps + more == steps;
    } else {
      assert (steps + more)[..|steps + more| - 1] == steps + more[..|more| - 1];
      PoolRests(c, steps, more[..|more| - 1]);
    }
  }

  /**
   * Cache coherence at any time: after a sweep's apply step, and until the next one, every member
   * is what a recomputation gives from the logs as they were at that apply.
   */
  lemma StaysCoherent(c: Config, steps: seq<Step>, seconds: real, more: seq<Step>, now: real, i: nat)
    requires NoDuplicates(c.ids) && c.retainDays >= 7 && i < |c.ids|
    requires Possible(c, steps) && WellClocked(steps, now) && Enabled(c, AfterSteps(c, steps), SweepApply(seconds))
    requires Possible(c, steps + [SweepApply(seconds)] + more) && forall i | 0 <= i < |more| :: !IsApply(more[i])
    ensures var s, p := AfterSteps(c, steps), AfterSteps(c, steps + [SweepApply(seconds)] + more).pool;
            var t := Next(c, s, SweepApply(seconds));
            && p.lastSweepAt == Some(s.sweep.now) && c.ids[i] in p.members
            && FromLogs(c, p.members[c.ids[i]], c.ids[i], s.sweep.outcomes[i], Log(t.journal), s.sweep.now, t.inputs)
  {
    PoolRests(c, steps + [SweepApply(seconds)], more);
    assert (steps + [SweepApply(seconds)])[..|steps|] == steps;
    SweepIsCoherent(c, steps, seconds, now, i);
  }

  // ---- The two stores under the system.

  /** The same system but for its rollup tables. */
  ghost predicate AlikeButRollups(s: System, t: System) {
    t == s.(tables := t.tables) && t.tables.checks == s.tables.checks
  }

  lemma AlikeStep(c: Config, engine: Engine, s: System, t: System, step: Step)
    requires AlikeButRollups(s, t) && Enabled(c, s, step)
    ensures Enabled(c.(engine := engine), t, step)
    ensures AlikeButRollups(Next(c, s, step), Next(c.(engine := engine), t, step))
  {
  }

  /**
   * Whatever the clock reads and however little is retained, a run on one store is a run on the
   * other, with the same pool, choice, checks, journal and inputs; only the rollups can differ.
   */
  lemma {:induction false} EnginesRunAlike(c: Config, engine: Engine, steps: seq<Step>)
    requires NoDuplicates(c.ids) && Possible(c, steps)
    ensures Possible(c.(engine := engine), steps)
    ensures AlikeButRollups(AfterSteps(c, steps), AfterSteps(c.(engine := engine), steps))
  {
    if steps != [] {
      var before := steps[..|steps| - 1];
      EnginesRunAlike(c, engine, before);
      AlikeStep(c, engine, AfterSteps(c, before), AfterSteps(c.(engine := engine), before), steps[|steps| - 1]);
    }
  }

  /** The flag the status page shows is raised exactly while a sweep is between its first and last step. */
  lemma {:induction false} ProgressFlag(c: Config, steps: seq<Step>)
    requires NoDuplicates(c.ids) && Possible(c, steps)
    ensures var s := AfterSteps(c, steps); s.sweepInProgress <==> !s.sweep.Idle?
  {
    if steps != [] {
      ProgressFlag(c, steps[..|steps| - 1]);
    }
  }
}
