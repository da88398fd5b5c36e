/** The use cases on the mutable pool and store: one undisturbed sweep, one egress probe. */
module Services {
  import opened Prelude
  import opened Sorting
  import opened Checks
  import opened Windows
  import opened Stores
  import opened PoolStates
  import opened Pressure
  import opened Undisturbed
  import Listings
  import Pools
  import ReadStatus
  import SqlStore
  import Sweeps

  lemma RatesRead(rates: map<string, SuccessRates>, ids: seq<string>, checks: seq<CheckRecord>, now: real)
    requires rates.Keys == set id | id in ids
    requires forall id | id in ids :: rates[id] == Rates(checks, id, now, Series.Pool)
    ensures rates == Sweeps.RatesAt(ids, checks, now)
  {
  }

  class SweepPoolService {
    const pool: Pools.Pool
    const store: SqlStore.SqliteCheckStore
    const guard: PressureGuard
    const retainDays: int

    ghost predicate Valid()
      reads store
    {
      pool.Valid() && store.Valid()
    }

    constructor (pool: Pools.Pool, store: SqlStore.SqliteCheckStore, guard: PressureGuard, retainDays: int)
      requires pool.Valid() && store.Valid()
      ensures this.pool == pool && this.store == store && this.guard == guard && this.retainDays == retainDays
    {
      this.pool, this.store, this.guard, this.retainDays := pool, store, guard, retainDays;
    }

    /** One sweep with the given answers of the network, the clocks and the memory reading. */
    method Execute(rssBytes: int, outcomes: seq<ProbeOutcome>, now: real, seconds: real) returns (probed: nat)
      requires Valid() && |outcomes| == |pool.order|
      modifies pool, pool.members.Values, store
      ensures Valid()
      ensures guard.policy.OverLimit(rssBytes) ==>
                probed == 0 && pool.State() == old(pool.State()) && store.State() == old(store.State())
                && pool.sweepInProgress == old(pool.sweepInProgress)
      ensures !guard.policy.OverLimit(rssBytes) ==>
                && probed == |outcomes| && !pool.sweepInProgress
                && pool.State() == Sweep(old(pool.State()), SweptInput(pool.order, old(store.State()), outcomes, now, seconds), pool.policies)
                && store.State() == SweptTables(Sqlite, old(store.State()), Sweeps.PoolRecords(pool.order, outcomes), now, retainDays)
    {
      var over := guard.OverLimit(rssBytes);
      if over {
        return 0;
      }
      pool.MarkSweep(true);
      Score(outcomes, now, seconds);
      Tidy(now);
      pool.MarkSweep(false);
      probed := |outcomes|;
    }

    /** The checks are recorded, the rates read back, and both given to the pool. */
    method Score(outcomes: seq<ProbeOutcome>, now: real, seconds: real)
      requires Valid() && |outcomes| == |pool.order|
      modifies pool, pool.members.Values, store
      ensures Valid()
      ensures pool.State() == Sweep(old(pool.State()), SweptInput(pool.order, old(store.State()), outcomes, now, seconds), pool.policies)
      ensures store.State() == Apply(Sqlite, old(store.State()), Record(Sweeps.PoolRecords(pool.order, outcomes)))
    {
      ghost var input := SweptInput(pool.order, store.State(), outcomes, now, seconds);
      var rates := RecordAndRead(outcomes, now);
      assert input == SweepInput(Sweeps.Applies(pool.order, outcomes), rates, now, seconds);
      pool.ApplySweep(Sweeps.Applies(pool.order, outcomes), rates, now, seconds);
    }

    /** The rates are read after the sweep's own checks are in. */
    method RecordAndRead(outcomes: seq<ProbeOutcome>, now: real) returns (rates: map<string, SuccessRates>)
      requires Valid() && |outcomes| == |pool.order|
      modifies store
      ensures Valid() && pool.State() == old(pool.State())
      ensures store.State() == Apply(Sqlite, old(store.State()), Record(Sweeps.PoolRecords(pool.order, outcomes)))
      ensures rates == Sweeps.RatesAt(pool.order, old(store.State()).checks + Sweeps.PoolRecords(pool.order, outcomes), now)
    {
      store.Record(Sweeps.PoolRecords(pool.order, outcomes));
      rates := store.SuccessRates(pool.order, now, Series.Pool);
      RatesRead(rates, pool.order, store.checks, now);
      pool.StateKept();
    }

    /** The rollups are rebuilt and old rows pruned; the pool is not touched. */
    method Tidy(now: real)
      requires Valid()
      modifies store
      ensures Valid() && pool.State() == old(pool.State())
      ensures store.State() == Apply(Sqlite, Apply(Sqlite, old(store.State()), Rebuild(now, 7, 48, Series.Pool)), Prune(now, retainDays))
    {
      store.RebuildRollups(now, 7, 48, Series.Pool);
      var _ := store.Prune(now, retainDays);
      pool.StateKept();
    }
  }

  /** The last outcome of the egress probe, field by field; an empty `via` means that no target is set. */
  class EgressStatus {
    const enabled: bool
    const via: string
    var ok: Option<bool>
    var latency: Option<real>
    var statusCode: Option<int>
    var error: Option<string>
    var checkedAt: Option<real>

    constructor (enabled: bool, via: string)
      ensures this.enabled == enabled && this.via == via && Last().None?
    {
      this.enabled, this.via := enabled, via;
      ok, latency, statusCode, error, checkedAt := None, None, None, None, None;
    }

    /** The outcome the fields show, if one was observed. */
    ghost function Last(): Option<ProbeOutcome>
      reads this
    {
      if ok.Some? && checkedAt.Some?
      then Some(ProbeOutcome(ok.value, latency, statusCode, error, checkedAt.value))
      else None
    }

    method Observe(outcome: ProbeOutcome)
      modifies this
      ensures Last() == Some(outcome)
    {
      ok := Some(outcome.success);
      latency := outcome.latency;
      statusCode := outcome.statusCode;
      error := outcome.error;
      checkedAt := Some(outcome.checkedAt);
    }
  }

  class ProbeEgressService {
    const status: EgressStatus
    const store: SqlStore.SqliteCheckStore
    const guard: PressureGuard

    constructor (status: EgressStatus, store: SqlStore.SqliteCheckStore, guard: PressureGuard)
      ensures this.status == status && this.store == store && this.guard == guard
    {
      this.status, this.store, this.guard := status, store, guard;
    }

    /** One egress probe; no pool is within its reach, and of the store it changes the egress series only. */
    method Execute(rssBytes: int, outcome: ProbeOutcome) returns (probed: bool)
      requires store.Valid()
      modifies status, store
      ensures store.Valid()
      ensures probed <==> status.enabled && status.via != "" && !guard.policy.OverLimit(rssBytes)
      ensures !probed ==> status.Last() == old(status.Last()) && store.State() == old(store.State())
      ensures probed ==> status.Last() == Some(outcome)
                         && store.State() == Apply(Sqlite, old(store.State()), Record([Sweeps.EgressRecordOf(outcome)]))
      ensures Filter(InSeries(Series.Pool), store.State().checks) == old(Filter(InSeries(Series.Pool), store.State().checks))
      ensures store.State().daily == old(store.State().daily) && store.State().hourly == old(store.State().hourly)
    {
      if !status.enabled || status.via == "" {
        return false;
      }
      var over := guard.OverLimit(rssBytes);
      if over {
        return false;
      }
      status.Observe(outcome);
      FilterAppend(InSeries(Series.Pool), store.checks, Sweeps.EgressRecordOf(outcome));
      store.Record([Sweeps.EgressRecordOf(outcome)]);
      probed := true;
    }
  }

  class ReadStatusService {
    const pool: Pools.Pool
    const store: SqlStore.SqliteCheckStore

    constructor (pool: Pools.Pool, store: SqlStore.SqliteCheckStore)
      ensures this.pool == pool && this.store == store
    {
      this.pool, this.store := pool, store;
    }

    /** Everything shown of one member, read while nothing else runs. */
    method Detail(id: string, now: real) returns (d: Option<ReadStatus.ProxyDetail>)
      requires pool.Valid() && store.Valid()
      ensures ReadStatus.ShowsDetail(Sqlite, pool.State(), store.State(), id, now, d)
    {
      if id !in pool.members {
        return None;
      }
      var member := pool.members[id].Value();
      var history := store.HistoryOf(id, Series.Pool, ReadStatus.HISTORY_LIMIT);
      var daily := store.DailySince(7, now);
      var hourly := store.HourlySince(24, now);
      d := Some(ReadStatus.ProxyDetail(member, pool.choice.preferred == Some(id), history,
                                       Listings.GetRows(daily, id), Listings.GetRows(hourly, id)));
    }
  }
}
