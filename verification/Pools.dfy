/** The pool of members as the program keeps it: one mutable state for each member. */
module Pools {
  import opened Prelude
  import opened Sorting
  import opened Checks
  import opened Score
  import opened Selection
  import opened Streak
  import opened PoolStates
  import opened Inventory

  class MemberState {
    const proxy: Proxy
    var healthy: bool
    var consecutiveSuccess: nat
    var consecutiveFail: nat
    var lastLatency: Option<real>
    var lastStatus: Option<int>
    var lastError: Option<string>
    var lastCheckedAt: Option<real>
    var score: real
    var rates: SuccessRates

    constructor (proxy: Proxy)
      ensures this.proxy == proxy && Value() == UNCHECKED
    {
      this.proxy := proxy;
      healthy, consecutiveSuccess, consecutiveFail := false, 0, 0;
      lastLatency, lastStatus, lastError, lastCheckedAt := None, None, None, None;
      score, rates := 0.0, NO_RATES;
    }

    function Value(): Member
      reads this
    {
      Member(Health(healthy, consecutiveSuccess, consecutiveFail), lastLatency, lastStatus, lastError, lastCheckedAt, score, rates)
    }
  }

  /** No id repeats, as in every inventory that loads. */
  ghost predicate Distinct(proxies: seq<Proxy>) {
    forall i, j | 0 <= i < j < |proxies| :: proxies[i].id != proxies[j].id
  }

  class Pool {
    /** The member dictionary: its keys in insertion order, and their values. */
    const order: seq<string>
    const members: map<string, MemberState>
    const policies: Policies
    var choice: SelectionState
    var lastSweepAt: Option<real>
    var lastSweepSeconds: Option<real>
    var sweepInProgress: bool

    ghost predicate Valid() {
      && NoDuplicates(order)
      && (forall id :: id in order <==> id in members)
      && (forall id | id in members :: members[id].proxy.id == id)
    }

    ghost function Values(): Members
      reads members.Values
    {
      map id | id in members :: members[id].Value()
    }

    ghost function State(): PoolState
      reads `choice, `lastSweepAt, `lastSweepSeconds, members.Values
    {
      PoolState(order, Values(), choice, lastSweepAt, lastSweepSeconds)
    }

    /** A repeated id keeps its first position and takes its last proxy, as a dictionary does. */
    constructor (proxies: seq<Proxy>, policies: Policies)
      ensures Valid() && fresh(members.Values)
      ensures State() == NewPool(order) && this.policies == policies && !sweepInProgress
      ensures forall id :: id in order <==> exists i :: 0 <= i < |proxies| && proxies[i].id == id
      ensures Distinct(proxies) ==>
                |order| == |proxies|
                && forall i | 0 <= i < |proxies| ::
                     order[i] == proxies[i].id && proxies[i].id in members && members[proxies[i].id].proxy == proxies[i]
    {
      var ids: seq<string> := [];
      var states: map<string, MemberState> := map[];
      for i := 0 to |proxies|
        invariant NoDuplicates(ids) && forall id :: id in ids <==> id in states
        invariant forall id | id in states :: states[id].proxy.id == id && states[id].Value() == UNCHECKED && fresh(states[id])
        invariant forall id :: id in ids <==> exists j :: 0 <= j < i && proxies[j].id == id
        invariant Distinct(proxies) ==>
                    |ids| == i
                    && forall j | 0 <= j < i ::
                         ids[j] == proxies[j].id && proxies[j].id in states && states[proxies[j].id].proxy == proxies[j]
      {
        var member := new MemberState(proxies[i]);
        if proxies[i].id !in states {
          ids := ids + [proxies[i].id];
        }
        states := states[proxies[i].id := member];
      }
      order, members := ids, states;
      this.policies := policies;
      choice := NOTHING_CHOSEN;
      lastSweepAt, lastSweepSeconds, sweepInProgress := None, None, false;
    }

    function Ranking(): (rows: seq<RankedMember>)
      requires Valid()
      reads members.Values
      ensures rows == Ranked(order, Values())
    {
      seq(|order|, i requires 0 <= i < |order| reads members.Values =>
        var m := members[order[i]];
        RankedMember(m.proxy.id, m.healthy, m.score, m.lastLatency))
    }

    /** The healthy members in the order the feeder tries them. */
    method Offered() returns (out: seq<Proxy>)
      requires Valid()
      ensures |out| == |HealthyRanked(State())|
      ensures forall i | 0 <= i < |out| ::
                out[i].id == HealthyRanked(State())[i] && out[i].id in members && out[i] == members[out[i].id].proxy
    {
      var ids := HealthyOrder(Ranking(), choice.preferred);
      out := [];
      for i := 0 to |ids|
        invariant |out| == i
        invariant forall j | 0 <= j < i :: out[j].id == ids[j] && out[j].id in members && out[j] == members[out[j].id].proxy
      {
        assert ids[i] in order by {
          OfferedAreMembers(ids[i]);
        }
        out := out + [members[ids[i]].proxy];
      }
    }

    lemma OfferedAreMembers(id: string)
      requires Valid() && id in HealthyOrder(Ranking(), choice.preferred)
      ensures id in order
    {
      HealthyOrderPermutes(Ranking(), choice.preferred);
    }

    method ApplyOne(result: CheckApply)
      requires Valid()
      modifies members.Values
      ensures Values() == PoolStates.ApplyOne(old(Values()), result, policies.selection)
    {
      if result.proxyId !in members {
        return;
      }
      var member := members[result.proxyId];
      member.lastCheckedAt := Some(result.checkedAt);
      member.lastLatency := result.latency;
      member.lastStatus := result.statusCode;
      member.lastError := result.error;
      var healthy, successes, failures :=
        ApplyStreak(member.healthy, member.consecutiveSuccess, member.consecutiveFail, result.success, policies.selection);
      member.healthy, member.consecutiveSuccess, member.consecutiveFail := healthy, successes, failures;
    }

    method Rescore(id: string, stats: SuccessRates)
      requires Valid() && id in members
      modifies members[id]
      ensures members[id].Value() == Rescored(old(members[id].Value()), stats, policies.scoring)
    {
      var member := members[id];
      member.rates := stats;
      member.score := ComputeScore(stats, member.healthy, member.lastLatency, policies.scoring);
    }

    /** The first loop of a sweep: the results in order. */
    method ApplyResults(results: seq<CheckApply>)
      requires Valid()
      modifies members.Values
      ensures Values() == ApplyAll(old(Values()), results, policies.selection)
    {
      for i := 0 to |results|
        invariant Values() == ApplyAll(old(Values()), results[..i], policies.selection)
      {
        assert results[..i + 1][..i] == results[..i];
        ApplyOne(results[i]);
      }
      assert results[..|results|] == results;
    }

    /** The second loop of a sweep: every member takes its rates and its new score. */
    method RescoreMembers(rates: map<string, SuccessRates>)
      requires Valid()
      modifies members.Values
      ensures Values() == RescoreAll(old(Values()), rates, policies.scoring)
    {
      ghost var was := Values();
      for i := 0 to |order|
        invariant forall id | id in members :: members[id].Value() ==
                    if id in order[..i] then Rescored(was[id], RatesOf(rates, id), policies.scoring) else was[id]
      {
        assert order[..i + 1] == order[..i] + [order[i]];
        Rescore(order[i], RatesOf(rates, order[i]));
      }
      assert order[..|order|] == order;
      RescoredEach(was, Values(), rates, policies.scoring);
    }

    method ApplySweep(results: seq<CheckApply>, rates: map<string, SuccessRates>, sweepAt: real, durationSeconds: real)
      requires Valid()
      modifies this, members.Values
      ensures State() == Sweep(old(State()), SweepInput(results, rates, sweepAt, durationSeconds), policies)
      ensures sweepInProgress == old(sweepInProgress)
    {
      ApplyResults(results);
      RescoreMembers(rates);
      ghost var swept := Values();
      var next := ChoosePreferred(Ranking(), choice, policies.selection);
      SetChoice(next, sweepAt, durationSeconds);
      assert State() == PoolState(order, swept, next, Some(sweepAt), Some(durationSeconds));
    }

    /** Writes elsewhere leave the pool as it was. */
    twostate lemma StateKept()
      requires unchanged(`choice) && unchanged(`lastSweepAt) && unchanged(`lastSweepSeconds)
      requires unchanged(members.Values)
      ensures State() == old(State())
    {
    }

    method MarkSweep(inProgress: bool)
      modifies `sweepInProgress
      ensures sweepInProgress == inProgress && State() == old(State())
    {
      sweepInProgress := inProgress;
    }

    method SetChoice(next: SelectionState, sweepAt: real, durationSeconds: real)
      modifies this
      ensures choice == next && lastSweepAt == Some(sweepAt) && lastSweepSeconds == Some(durationSeconds)
      ensures sweepInProgress == old(sweepInProgress) && Values() == old(Values())
    {
      choice := next;
      lastSweepAt := Some(sweepAt);
      lastSweepSeconds := Some(durationSeconds);
    }
  }
}
