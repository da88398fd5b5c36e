/** The pool as a value: what a sweep makes of it, and whole runs of sweeps. */
module PoolStates {
  import opened Prelude
  import opened Sorting
  import opened Checks
  import opened Score
  import opened Selection
  import opened Streak
  import SelectionRuns

  datatype Member = Member(
    health: Health,
    latency: Option<real>,
    statusCode: Option<int>,
    error: Option<string>,
    checkedAt: Option<real>,
    score: real,
    rates: SuccessRates)

  const UNCHECKED := Member(UNKNOWN, None, None, None, None, 0.0, NO_RATES)

  type Members = map<string, Member>

  datatype PoolState = PoolState(
    ids: seq<string>,
    members: Members,
    choice: SelectionState,
    lastSweepAt: Option<real>,
    lastSweepSeconds: Option<real>)
  {
    /** The ids are the keys of a dictionary, in insertion order. */
    ghost predicate Valid() {
      NoDuplicates(ids) && forall id :: id in ids <==> id in members
    }
  }

  datatype Policies = Policies(scoring: ScoringPolicy, selection: SelectionPolicy)

  function Checked(m: Member, r: CheckApply, policy: SelectionPolicy): Member {
    m.(health := Step(m.health, r.success, policy), latency := r.latency, statusCode := r.statusCode,
       error := r.error, checkedAt := Some(r.checkedAt))
  }

  /** One result changes the member it names; a result for an unknown member changes nothing. */
  function ApplyOne(members: Members, r: CheckApply, policy: SelectionPolicy): Members {
    if r.proxyId in members then members[r.proxyId := Checked(members[r.proxyId], r, policy)] else members
  }

  function ApplyAll(members: Members, results: seq<CheckApply>, policy: SelectionPolicy): (out: Members)
    ensures out.Keys == members.Keys
  {
    if results == [] then members
    else ApplyOne(ApplyAll(members, results[..|results| - 1], policy), results[|results| - 1], policy)
  }

  function RatesOf(rates: map<string, SuccessRates>, id: string): SuccessRates {
    if id in rates then rates[id] else NO_RATES
  }

  function Rescored(m: Member, stats: SuccessRates, scoring: ScoringPolicy): Member {
    m.(rates := stats, score := ComputeScore(stats, m.health.healthy, m.latency, scoring))
  }

  function RescoreAll(members: Members, rates: map<string, SuccessRates>, scoring: ScoringPolicy): Members {
    map id | id in members :: Rescored(members[id], RatesOf(rates, id), scoring)
  }

  /** A result for an unknown member changes nothing. */
  lemma UnknownIgnored(members: Members, r: CheckApply, policy: SelectionPolicy)
    requires r.proxyId !in members
    ensures ApplyOne(members, r, policy) == members
  {
  }

  /** A member whose rates are missing is scored as one without checks. */
  lemma MissingRatesCountNothing(members: Members, rates: map<string, SuccessRates>, scoring: ScoringPolicy, id: string)
    requires id in members && id !in rates
    ensures RescoreAll(members, rates, scoring)[id].rates == SuccessRates(0, 0, 0, 0, 0, 0)
  {
  }

  lemma RescoredEach(was: Members, now: Members, rates: map<string, SuccessRates>, scoring: ScoringPolicy)
    requires now.Keys == was.Keys
    requires forall id | id in was :: now[id] == Rescored(was[id], RatesOf(rates, id), scoring)
    ensures now == RescoreAll(was, rates, scoring)
  {
  }

  function Ranked(ids: seq<string>, members: Members): (out: seq<RankedMember>)
    requires forall id | id in ids :: id in members
    ensures |out| == |ids|
    ensures forall i | 0 <= i < |ids| ::
              out[i] == RankedMember(ids[i], members[ids[i]].health.healthy, members[ids[i]].score, members[ids[i]].latency)
  {
    seq(|ids|, i requires 0 <= i < |ids| =>
      RankedMember(ids[i], members[ids[i]].health.healthy, members[ids[i]].score, members[ids[i]].latency))
  }

  datatype SweepInput = SweepInput(results: seq<CheckApply>, rates: map<string, SuccessRates>, at: real, seconds: real)

  /** One result for each member, in their order, as a sweep that ran to its end gives. */
  ghost predicate Full(ids: seq<string>, input: SweepInput) {
    |input.results| == |ids| && forall j | 0 <= j < |ids| :: input.results[j].proxyId == ids[j]
  }

  function Sweep(p: PoolState, input: SweepInput, policies: Policies): (q: PoolState)
    requires p.Valid()
    ensures q.Valid() && q.ids == p.ids
  {
    var members := RescoreAll(ApplyAll(p.members, input.results, policies.selection), input.rates, policies.scoring);
    PoolState(p.ids, members, ChoosePreferred(Ranked(p.ids, members), p.choice, policies.selection),
              Some(input.at), Some(input.seconds))
  }

  function HealthyRanked(p: PoolState): seq<string>
    requires p.Valid()
  {
    HealthyOrder(Ranked(p.ids, p.members), p.choice.preferred)
  }

  // ---- Members do not interfere, and a member's health is its history.

  lemma ResultsCommute(members: Members, r: CheckApply, s: CheckApply, policy: SelectionPolicy)
    requires r.proxyId != s.proxyId
    ensures ApplyOne(ApplyOne(members, r, policy), s, policy) == ApplyOne(ApplyOne(members, s, policy), r, policy)
  {
  }

  /** The results of one member, oldest first. */
  function HistoryOf(results: seq<CheckApply>, id: string): seq<bool> {
    if results == [] then []
    else
      var last := results[|results| - 1];
      HistoryOf(results[..|results| - 1], id) + (if last.proxyId == id then [last.success] else [])
  }

  lemma {:induction false} HistoryConcat(xs: seq<CheckApply>, ys: seq<CheckApply>, id: string)
    ensures HistoryOf(xs + ys, id) == HistoryOf(xs, id) + HistoryOf(ys, id)
  {
    if ys == [] {
      assert xs + ys == xs;
    } else {
      assert (xs + ys)[..|xs + ys| - 1] == xs + ys[..|ys| - 1];
      HistoryConcat(xs, ys[..|ys| - 1], id);
    }
  }

  /** If a member's health is that of a history, results extend the history. */
  lemma {:induction false} HealthFollows(members: Members, results: seq<CheckApply>, policy: SelectionPolicy, id: string, history: seq<bool>)
    requires id in members && members[id].health == AfterChecks(history, policy)
    ensures ApplyAll(members, results, policy)[id].health == AfterChecks(history + HistoryOf(results, id), policy)
  {
    if results == [] {
      assert history + HistoryOf(results, id) == history;
    } else {
      var before, last := results[..|results| - 1], results[|results| - 1];
      HealthFollows(members, before, policy, id, history);
      var h := history + HistoryOf(before, id);
      if last.proxyId == id {
        assert history + HistoryOf(results, id) == h + [last.success];
        assert (h + [last.success])[..|h|] == h;
      } else {
        assert history + HistoryOf(results, id) == h;
      }
    }
  }

  /** The i-th result belongs to the i-th member: it is the only one that changes it. */
  lemma {:induction false} ResultsHitTheirMember(ids: seq<string>, members: Members, results: seq<CheckApply>, i: nat, policy: SelectionPolicy)
    requires NoDuplicates(ids) && |results| <= |ids| && i < |ids| && ids[i] in members
    requires forall j | 0 <= j < |results| :: results[j].proxyId == ids[j]
    ensures ApplyAll(members, results, policy)[ids[i]]
            == if i < |results| then Checked(members[ids[i]], results[i], policy) else members[ids[i]]
  {
    if results != [] {
      ResultsHitTheirMember(ids, members, results[..|results| - 1], i, policy);
    }
  }

  /** What a full sweep leaves of its i-th member. */
  lemma SweptMember(p: PoolState, input: SweepInput, policies: Policies, i: nat)
    requires p.Valid() && Full(p.ids, input) && i < |p.ids|
    ensures Sweep(p, input, policies).members[p.ids[i]]
            == Rescored(Checked(p.members[p.ids[i]], input.results[i], policies.selection), RatesOf(input.rates, p.ids[i]), policies.scoring)
  {
    ResultsHitTheirMember(p.ids, p.members, input.results, i, policies.selection);
  }

  // ---- Runs of sweeps.

  function NewPool(ids: seq<string>): PoolState {
    PoolState(ids, map id | id in ids :: UNCHECKED, NOTHING_CHOSEN, None, None)
  }

  /** In a new pool nobody is preferred or healthy, nobody was checked, and all scores are 0. */
  lemma NewPoolIsBlank(ids: seq<string>, id: string)
    requires id in ids
    ensures var p := NewPool(ids);
            && p.ids == ids && p.choice == SelectionState(None, None, 0) && p.lastSweepAt.None? && p.lastSweepSeconds.None?
            && id in p.members && p.members[id].health == Health(false, 0, 0) && p.members[id].score == 0.0
            && p.members[id].rates == SuccessRates(0, 0, 0, 0, 0, 0)
            && p.members[id].latency.None? && p.members[id].statusCode.None? && p.members[id].error.None?
            && p.members[id].checkedAt.None?
  {
  }

  function AfterSweeps(ids: seq<string>, inputs: seq<SweepInput>, policies: Policies): (p: PoolState)
    requires NoDuplicates(ids)
    ensures p.Valid() && p.ids == ids
  {
    if inputs == [] then NewPool(ids)
    else Sweep(AfterSweeps(ids, inputs[..|inputs| - 1], policies), inputs[|inputs| - 1], policies)
  }

  lemma OneMoreSweep(ids: seq<string>, inputs: seq<SweepInput>, input: SweepInput, policies: Policies)
    requires NoDuplicates(ids)
    ensures AfterSweeps(ids, inputs + [input], policies) == Sweep(AfterSweeps(ids, inputs, policies), input, policies)
  {
    assert (inputs + [input])[..|inputs|] == inputs;
  }

  /** What the selection saw at each sweep of a run. */
  function Shown(ids: seq<string>, inputs: seq<SweepInput>, policies: Policies): SelectionRuns.Run
    requires NoDuplicates(ids)
  {
    if inputs == [] then []
    else
      Shown(ids, inputs[..|inputs| - 1], policies)
      + [StandingOf(Ranked(ids, AfterSweeps(ids, inputs, policies).members))]
  }

  lemma RankedDistinct(ids: seq<string>, members: Members)
    requires NoDuplicates(ids) && forall id | id in ids :: id in members
    ensures DistinctIds(Ranked(ids, members))
  {
  }

  lemma RankedHealthy(ids: seq<string>, members: Members, id: string)
    requires forall id | id in ids :: id in members
    ensures id in StandingOf(Ranked(ids, members)).healthy <==> id in ids && members[id].health.healthy
  {
    var rows := Ranked(ids, members);
    StandingHealthy(rows);
    if id in ids && members[id].health.healthy {
      var i :| 0 <= i < |ids| && ids[i] == id;
      assert rows[i] in rows;
    }
  }

  lemma RankedFlag(ids: seq<string>, members: Members, id: string)
    requires (forall id :: id in ids <==> id in members)
    ensures (exists m :: m in Ranked(ids, members) && m.healthy && m.id == id) <==> id in members && members[id].health.healthy
  {
    if id in members {
      var i :| 0 <= i < |ids| && ids[i] == id;
      assert Ranked(ids, members)[i] in Ranked(ids, members);
    }
  }

  lemma SweepChooses(p: PoolState, input: SweepInput, policies: Policies)
    requires p.Valid()
    ensures var q := Sweep(p, input, policies);
            var st := StandingOf(Ranked(q.ids, q.members));
            st.Valid() && q.choice == Choose(st, p.choice, policies.selection)
  {
    var q := Sweep(p, input, policies);
    RankedDistinct(q.ids, q.members);
    StandingValid(Ranked(q.ids, q.members));
    ChoiceFollowsRule(Ranked(q.ids, q.members), p.choice, policies.selection);
  }

  /** The pool's choice is the selection state of the standings it showed, so the laws of runs apply to it. */
  lemma {:induction false} PoolRunsSelection(ids: seq<string>, inputs: seq<SweepInput>, policies: Policies)
    requires NoDuplicates(ids)
    ensures var run := Shown(ids, inputs, policies);
            && |run| == |inputs| && SelectionRuns.AllValid(run)
            && AfterSweeps(ids, inputs, policies).choice == SelectionRuns.After(run, policies.selection)
  {
    if inputs != [] {
      var before, last := inputs[..|inputs| - 1], inputs[|inputs| - 1];
      PoolRunsSelection(ids, before, policies);
      SweepChooses(AfterSweeps(ids, before, policies), last, policies);
      RunExtended(Shown(ids, before, policies), StandingOf(Ranked(ids, AfterSweeps(ids, inputs, policies).members)), policies.selection);
    }
  }

  lemma RunExtended(run: SelectionRuns.Run, st: Standing, policy: SelectionPolicy)
    requires SelectionRuns.AllValid(run) && st.Valid()
    ensures SelectionRuns.AllValid(run + [st])
    ensures SelectionRuns.After(run + [st], policy) == Choose(st, SelectionRuns.After(run, policy), policy)
  {
    assert (run + [st])[..|run|] == run;
  }

  /** All results a run applied, oldest first. */
  function AllResults(inputs: seq<SweepInput>): seq<CheckApply> {
    if inputs == [] then [] else AllResults(inputs[..|inputs| - 1]) + inputs[|inputs| - 1].results
  }

  lemma {:induction false} HealthIsHistory(ids: seq<string>, inputs: seq<SweepInput>, policies: Policies, id: string)
    requires NoDuplicates(ids) && id in ids
    ensures AfterSweeps(ids, inputs, policies).members[id].health
            == AfterChecks(HistoryOf(AllResults(inputs), id), policies.selection)
  {
    if inputs != [] {
      var before, last := inputs[..|inputs| - 1], inputs[|inputs| - 1];
      HealthIsHistory(ids, before, policies, id);
      HealthFollows(AfterSweeps(ids, before, policies).members, last.results, policies.selection, id,
                    HistoryOf(AllResults(before), id));
      HistoryConcat(AllResults(before), last.results, id);
    }
  }

  /** Nobody is preferred exactly when nobody is healthy, and whoever is preferred is healthy. */
  ghost predicate ChoiceFits(p: PoolState)
    requires p.Valid()
  {
    var up := HealthyIds(Ranked(p.ids, p.members));
    && (p.choice.preferred.None? <==> up == {})
    && (p.choice.preferred.Some? ==> p.choice.preferred.value in up)
  }

  /** A sweep leaves a choice that fits, whatever the pool was like before. */
  lemma SweepFits(p: PoolState, input: SweepInput, policies: Policies)
    requires p.Valid()
    ensures ChoiceFits(Sweep(p, input, policies))
  {
    var q := Sweep(p, input, policies);
    SweepChooses(p, input, policies);
    StandingHealthy(Ranked(q.ids, q.members));
    SelectionRuns.ChoiceIsSound(StandingOf(Ranked(q.ids, q.members)), p.choice, policies.selection);
  }

  lemma NewPoolFits(ids: seq<string>)
    requires NoDuplicates(ids)
    ensures NewPool(ids).Valid() && ChoiceFits(NewPool(ids))
  {
    assert forall m | m in Ranked(ids, NewPool(ids).members) :: !m.healthy;
  }

  lemma ReachableFits(ids: seq<string>, inputs: seq<SweepInput>, policies: Policies)
    requires NoDuplicates(ids)
    ensures ChoiceFits(AfterSweeps(ids, inputs, policies))
  {
    if inputs == [] {
      NewPoolFits(ids);
    } else {
      SweepFits(AfterSweeps(ids, inputs[..|inputs| - 1], policies), inputs[|inputs| - 1], policies);
    }
  }

  /** In every reachable state the feeder's order and the members endpoint agree. */
  lemma ReachableOrders(ids: seq<string>, inputs: seq<SweepInput>, policies: Policies)
    requires NoDuplicates(ids)
    ensures var p := AfterSweeps(ids, inputs, policies);
            OrdersAgree(Ranked(ids, p.members), p.choice.preferred)
  {
    var p := AfterSweeps(ids, inputs, policies);
    ReachableFits(ids, inputs, policies);
    RankedDistinct(ids, p.members);
    OrdersFit(Ranked(ids, p.members), p.choice.preferred);
  }
}
