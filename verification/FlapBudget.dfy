/** How often the preferred member can change at all: the selection bound and the streak bound, put together. */
module FlapBudget {
  import opened Prelude
  import opened Sorting
  import opened Checks
  import opened Selection
  import opened Streak
  import opened PoolStates
  import SelectionRuns

  /** The flag moves of one member in a run. */
  ghost function MovesOf(id: string, inputs: seq<SweepInput>, policy: SelectionPolicy): nat {
    var history := HistoryOf(AllResults(inputs), id);
    FlagMoves(history, policy, true) + FlagMoves(history, policy, false)
  }

  /** The flag moves of the first k members in a run. */
  ghost function Moves(ids: seq<string>, k: nat, inputs: seq<SweepInput>, policy: SelectionPolicy): nat
    requires k <= |ids|
  {
    if k == 0 then 0 else Moves(ids, k - 1, inputs, policy) + MovesOf(ids[k - 1], inputs, policy)
  }

  /** The number of the first k members that are in a set. */
  ghost function CountIn(ids: seq<string>, k: nat, s: set<string>): nat
    requires k <= |ids|
  {
    if k == 0 then 0 else CountIn(ids, k - 1, s) + (if ids[k - 1] in s then 1 else 0)
  }

  lemma {:induction false} CountInIsSize(ids: seq<string>, k: nat, s: set<string>)
    requires NoDuplicates(ids) && k <= |ids|
    ensures CountIn(ids, k, s) == |set i | 0 <= i < k && ids[i] in s :: ids[i]|
  {
    var now := set i | 0 <= i < k && ids[i] in s :: ids[i];
    if k > 0 {
      CountInIsSize(ids, k - 1, s);
      var before := set i | 0 <= i < k - 1 && ids[i] in s :: ids[i];
      assert ids[k - 1] !in before;
      assert now == if ids[k - 1] in s then before + {ids[k - 1]} else before;
    } else {
      assert now == {};
    }
  }

  lemma AllCounted(ids: seq<string>, s: set<string>)
    requires NoDuplicates(ids) && forall id | id in s :: id in ids
    ensures CountIn(ids, |ids|, s) == |s|
  {
    CountInIsSize(ids, |ids|, s);
    assert s == set i | 0 <= i < |ids| && ids[i] in s :: ids[i];
  }

  lemma {:induction false} OneResult(ids: seq<string>, results: seq<CheckApply>, i: nat)
    requires NoDuplicates(ids) && |results| <= |ids| && i < |ids|
    requires forall j | 0 <= j < |results| :: results[j].proxyId == ids[j]
    ensures HistoryOf(results, ids[i]) == if i < |results| then [results[i].success] else []
  {
    if results != [] {
      OneResult(ids, results[..|results| - 1], i);
    }
  }

  /** Whether a member's flag moved in the last sweep. */
  ghost predicate Moved(ids: seq<string>, inputs: seq<SweepInput>, policies: Policies, id: string)
    requires NoDuplicates(ids) && inputs != [] && id in ids
  {
    AfterSweeps(ids, inputs[..|inputs| - 1], policies).members[id].health.healthy
    != AfterSweeps(ids, inputs, policies).members[id].health.healthy
  }

  lemma MemberMoves(ids: seq<string>, inputs: seq<SweepInput>, policies: Policies, i: nat)
    requires NoDuplicates(ids) && i < |ids| && inputs != [] && Full(ids, inputs[|inputs| - 1])
    ensures MovesOf(ids[i], inputs, policies.selection)
            == MovesOf(ids[i], inputs[..|inputs| - 1], policies.selection) + (if Moved(ids, inputs, policies, ids[i]) then 1 else 0)
  {
    var before, last := inputs[..|inputs| - 1], inputs[|inputs| - 1];
    var h, g := HistoryOf(AllResults(inputs), ids[i]), HistoryOf(AllResults(before), ids[i]);
    HistoryConcat(AllResults(before), last.results, ids[i]);
    OneResult(ids, last.results, i);
    assert h[..|h| - 1] == g;
    HealthIsHistory(ids, before, policies, ids[i]);
    HealthIsHistory(ids, inputs, policies, ids[i]);
  }

  lemma {:induction false} MovesGrow(ids: seq<string>, k: nat, inputs: seq<SweepInput>, before: seq<SweepInput>, policy: SelectionPolicy, flipped: set<string>)
    requires k <= |ids|
    requires forall i | 0 <= i < |ids| ::
               MovesOf(ids[i], inputs, policy) == MovesOf(ids[i], before, policy) + (if ids[i] in flipped then 1 else 0)
    ensures Moves(ids, k, inputs, policy) == Moves(ids, k, before, policy) + CountIn(ids, k, flipped)
  {
    if k > 0 {
      MovesGrow(ids, k - 1, inputs, before, policy, flipped);
    }
  }

  /** Who the pool shows healthy is who is healthy. */
  lemma ShownHealthy(ids: seq<string>, inputs: seq<SweepInput>, policies: Policies, id: string)
    requires NoDuplicates(ids)
    ensures id in SelectionRuns.HealthyAfter(Shown(ids, inputs, policies))
            <==> id in ids && AfterSweeps(ids, inputs, policies).members[id].health.healthy
  {
    if inputs != [] {
      RankedHealthy(ids, AfterSweeps(ids, inputs, policies).members, id);
    }
  }

  /** Who changed sides between the last two standings is who moved. */
  lemma ShownMoved(ids: seq<string>, inputs: seq<SweepInput>, policies: Policies, id: string)
    requires NoDuplicates(ids) && inputs != []
    ensures (id in SelectionRuns.HealthyAfter(Shown(ids, inputs[..|inputs| - 1], policies)))
            != (id in SelectionRuns.HealthyAfter(Shown(ids, inputs, policies)))
            <==> id in ids && Moved(ids, inputs, policies, id)
  {
    ShownHealthy(ids, inputs[..|inputs| - 1], policies, id);
    ShownHealthy(ids, inputs, policies, id);
  }

  lemma ShownBefore(ids: seq<string>, inputs: seq<SweepInput>, policies: Policies)
    requires NoDuplicates(ids) && inputs != []
    ensures var run := Shown(ids, inputs, policies);
            run != [] && run[..|run| - 1] == Shown(ids, inputs[..|inputs| - 1], policies)
  {
  }

  lemma FlippedMoved(ids: seq<string>, inputs: seq<SweepInput>, policies: Policies) returns (flipped: set<string>)
    requires NoDuplicates(ids) && inputs != []
    ensures SelectionRuns.Flips(Shown(ids, inputs, policies))
            == SelectionRuns.Flips(Shown(ids, inputs[..|inputs| - 1], policies)) + |flipped|
    ensures forall id :: id in flipped <==> id in ids && Moved(ids, inputs, policies, id)
  {
    var before := inputs[..|inputs| - 1];
    var run, shown := Shown(ids, inputs, policies), Shown(ids, before, policies);
    ShownBefore(ids, inputs, policies);
    var was, now := SelectionRuns.HealthyAfter(shown), SelectionRuns.HealthyAfter(run);
    flipped := (was - now) + (now - was);
    forall id ensures id in flipped <==> id in ids && Moved(ids, inputs, policies, id) {
      ShownMoved(ids, inputs, policies, id);
      OneSided(was, now, id);
    }
  }

  lemma OneSided(a: set<string>, b: set<string>, x: string)
    ensures x in (a - b) + (b - a) <==> (x in a) != (x in b)
  {
  }

  /** The health flips the selection sees are the flag moves of the members. */
  lemma {:induction false} FlipsAreMoves(ids: seq<string>, inputs: seq<SweepInput>, policies: Policies)
    requires NoDuplicates(ids) && forall i | 0 <= i < |inputs| :: Full(ids, inputs[i])
    ensures SelectionRuns.Flips(Shown(ids, inputs, policies)) == Moves(ids, |ids|, inputs, policies.selection)
  {
    if inputs == [] {
      NoMoves(ids, |ids|, policies.selection);
    } else {
      var before := inputs[..|inputs| - 1];
      FlipsAreMoves(ids, before, policies);
      var flipped := FlippedMoved(ids, inputs, policies);
      forall i | 0 <= i < |ids|
        ensures MovesOf(ids[i], inputs, policies.selection)
                == MovesOf(ids[i], before, policies.selection) + (if ids[i] in flipped then 1 else 0)
      {
        MemberMoves(ids, inputs, policies, i);
      }
      MovesGrow(ids, |ids|, inputs, before, policies.selection, flipped);
      AllCounted(ids, flipped);
    }
  }

  lemma {:induction false} NoMoves(ids: seq<string>, k: nat, policy: SelectionPolicy)
    requires k <= |ids|
    ensures Moves(ids, k, [], policy) == 0
  {
    if k > 0 {
      NoMoves(ids, k - 1, policy);
    }
  }

  lemma {:induction false} HistoryLength(ids: seq<string>, inputs: seq<SweepInput>, i: nat)
    requires NoDuplicates(ids) && i < |ids| && forall j | 0 <= j < |inputs| :: Full(ids, inputs[j])
    ensures |HistoryOf(AllResults(inputs), ids[i])| == |inputs|
  {
    if inputs != [] {
      var before, last := inputs[..|inputs| - 1], inputs[|inputs| - 1];
      HistoryLength(ids, before, i);
      HistoryConcat(AllResults(before), last.results, ids[i]);
      OneResult(ids, last.results, i);
    }
  }

  /** The flips one member can make in n checks: a rise and a fall cost both thresholds. */
  function FlipBudget(n: nat, policy: SelectionPolicy): nat {
    2 * n / (Max(1, policy.successThreshold) + Max(1, policy.failThreshold)) + 1
  }

  lemma MovesWithinBudget(history: seq<bool>, policy: SelectionPolicy)
    ensures FlagMoves(history, policy, true) + FlagMoves(history, policy, false) <= FlipBudget(|history|, policy)
    ensures FlipBudget(|history|, policy) == 2 * |history| / (Max(1, policy.successThreshold) + Max(1, policy.failThreshold)) + 1
  {
    FlagMovesPaidByChecks(history, policy);
    var u, d := FlagMoves(history, policy, true), FlagMoves(history, policy, false);
    var s, f := Max(1, policy.successThreshold), Max(1, policy.failThreshold);
    PairsCost(u, d, s, f, |history|);
  }

  lemma PairsCost(u: nat, d: nat, s: int, f: int, n: nat)
    requires s >= 1 && f >= 1 && u * s + d * f <= n && d <= u <= d + 1
    ensures u + d <= 2 * n / (s + f) + 1
  {
    SelectionRuns.Monotone(d, u, s);
    assert d * (s + f) == d * s + d * f;
    assert 2 * d * (s + f) <= 2 * n;
    SelectionRuns.QuotientBound(2 * d, s + f, 2 * n);
  }

  lemma {:induction false} MovesBounded(ids: seq<string>, k: nat, inputs: seq<SweepInput>, policy: SelectionPolicy, budget: nat)
    requires k <= |ids| && forall i | 0 <= i < |ids| :: MovesOf(ids[i], inputs, policy) <= budget
    ensures Moves(ids, k, inputs, policy) <= k * budget
  {
    if k > 0 {
      MovesBounded(ids, k - 1, inputs, policy, budget);
      SelectionRuns.Distribute(k - 1, budget);
    }
  }

  /**
   * Over N full sweeps of a pool of M members, whatever the probes answer, the preferred member
   * changes at most N / hold times plus, for each member, 2N / (success + failure threshold) + 1.
   */
  lemma ChangesWithinBudget(ids: seq<string>, inputs: seq<SweepInput>, policies: Policies)
    requires NoDuplicates(ids) && forall i | 0 <= i < |inputs| :: Full(ids, inputs[i])
    requires policies.selection.scoreSwitchMargin > 0.0
    ensures SelectionRuns.Changes(Shown(ids, inputs, policies), policies.selection)
            <= |inputs| / policies.selection.Hold() + |ids| * FlipBudget(|inputs|, policies.selection)
  {
    PoolRunsSelection(ids, inputs, policies);
    SelectionRuns.AntiFlapBound(Shown(ids, inputs, policies), policies.selection);
    FlipsAreMoves(ids, inputs, policies);
    forall i | 0 <= i < |ids| ensures MovesOf(ids[i], inputs, policies.selection) <= FlipBudget(|inputs|, policies.selection) {
      HistoryLength(ids, inputs, i);
      MovesWithinBudget(HistoryOf(AllResults(inputs), ids[i]), policies.selection);
    }
    MovesBounded(ids, |ids|, inputs, policies.selection, FlipBudget(|inputs|, policies.selection));
  }
}
