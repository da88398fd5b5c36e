/**
 * Selection over whole runs. A run lists what the selection saw at each sweep; the selection
 * state is folded over it, from NOTHING_CHOSEN unless another start is given.
 */
module SelectionRuns {
  import opened Prelude
  import opened Selection

  type Run = seq<Standing>

  ghost predicate AllValid(run: Run) {
    forall i | 0 <= i < |run| :: run[i].Valid()
  }

  /** The state after a run that starts from a given state. */
  function Resumed(start: SelectionState, run: Run, policy: SelectionPolicy): SelectionState {
    if run == [] then start
    else Choose(run[|run| - 1], Resumed(start, run[..|run| - 1], policy), policy)
  }

  function After(run: Run, policy: SelectionPolicy): SelectionState {
    Resumed(NOTHING_CHOSEN, run, policy)
  }

  /** At sweep i, b headed the ranking and led the healthy incumbent c by at least the margin. */
  ghost predicate LedAt(run: Run, policy: SelectionPolicy, i: nat, c: string, b: string)
    requires i < |run|
  {
    && After(run[..i], policy).preferred == Some(c)
    && c in run[i].healthy && run[i].top.Some? && run[i].top.value.id == b && b != c
    && run[i].top.value.score - run[i].healthy[c].score >= policy.scoreSwitchMargin
  }

  /** The length of the longest suffix of sweeps in which b led the incumbent c. */
  ghost function LeadRun(run: Run, policy: SelectionPolicy, c: string, b: string): (n: nat)
    ensures n <= |run|
  {
    if run == [] || !LedAt(run, policy, |run| - 1, c, b) then 0
    else LeadRun(run[..|run| - 1], policy, c, b) + 1
  }

  lemma LedAtPrefix(run: Run, policy: SelectionPolicy, i: nat, c: string, b: string)
    requires i < |run| - 1
    ensures LedAt(run[..|run| - 1], policy, i, c, b) == LedAt(run, policy, i, c, b)
  {
    assert run[..|run| - 1][..i] == run[..i];
  }

  lemma {:induction false} LeadRunAt(run: Run, policy: SelectionPolicy, c: string, b: string, i: nat)
    requires |run| - LeadRun(run, policy, c, b) - 1 <= i < |run|
    ensures LedAt(run, policy, i, c, b) <==> i >= |run| - LeadRun(run, policy, c, b)
  {
    if i < |run| - 1 {
      LeadRunAt(run[..|run| - 1], policy, c, b, i);
      LedAtPrefix(run, policy, i, c, b);
    }
  }

  /** The lead run is the maximal suffix: it covers k sweeps exactly when b led on each of the last k. */
  lemma LeadRunIsMaximalSuffix(run: Run, policy: SelectionPolicy, c: string, b: string, k: nat)
    ensures LeadRun(run, policy, c, b) >= k <==> k <= |run| && forall i | |run| - k <= i < |run| :: LedAt(run, policy, i, c, b)
  {
    var n := LeadRun(run, policy, c, b);
    if k <= n {
      forall i | |run| - k <= i < |run| ensures LedAt(run, policy, i, c, b) {
        LeadRunAt(run, policy, c, b, i);
      }
    } else if k <= |run| {
      LeadRunAt(run, policy, c, b, |run| - n - 1);
    }
  }

  /** What holds after every sweep: the preferred member is healthy, and a pending lead is still short. */
  ghost predicate Sound(st: Standing, s: SelectionState, policy: SelectionPolicy) {
    && (s.preferred.None? <==> st.healthy == map[])
    && (s.preferred.Some? ==> s.preferred.value in st.healthy)
    && (s.pending.None? ==> s.pendingSweeps == 0)
    && (s.pending.Some? ==>
          s.preferred.Some? && s.pending != s.preferred && 1 <= s.pendingSweeps < policy.Hold()
          && policy.scoreSwitchMargin > 0.0 && st.top.Some? && s.pending == Some(st.top.value.id)
          && st.top.value.score - st.healthy[s.preferred.value].score >= policy.scoreSwitchMargin)
  }

  lemma ChoiceIsSound(st: Standing, state: SelectionState, policy: SelectionPolicy)
    requires st.Valid()
    ensures Sound(st, Choose(st, state, policy), policy)
  {
  }

  /**
   * A lead below the margin does not move preference, and ends any pending count: a healthy
   * incumbent that is at the top, or behind it by less than the margin, stays with nothing pending.
   */
  lemma KeptWithoutLead(st: Standing, state: SelectionState, policy: SelectionPolicy, c: string)
    requires st.Valid() && policy.scoreSwitchMargin > 0.0 && state.preferred == Some(c) && c in st.healthy
    requires st.top.value.id == c || st.top.value.score - st.healthy[c].score < policy.scoreSwitchMargin
    ensures Choose(st, state, policy) == SelectionState(Some(c), None, 0)
  {
  }

  /** Without a margin, or without an incumbent that is healthy, the top member is preferred at once. */
  lemma TopWithoutIncumbent(st: Standing, state: SelectionState, policy: SelectionPolicy)
    requires st.Valid() && st.top.Some?
    requires policy.scoreSwitchMargin <= 0.0 || state.preferred.None? || state.preferred.value !in st.healthy
    ensures Choose(st, state, policy) == SelectionState(Some(st.top.value.id), None, 0)
  {
  }

  /** The same on the members themselves, for the program's sorting and searching. */
  lemma SmallLeadKeepsPreferred(members: seq<RankedMember>, state: SelectionState, policy: SelectionPolicy, c: RankedMember)
    requires DistinctIds(members) && c in members && c.healthy && state.preferred == Some(c.id)
    requires policy.scoreSwitchMargin > 0.0
    requires forall m | m in members && m.healthy :: m.score - c.score < policy.scoreSwitchMargin
    ensures ChoosePreferred(members, state, policy) == SelectionState(Some(c.id), None, 0)
  {
    ChoiceFollowsRule(members, state, policy);
    StandingValid(members);
    StandingHealthy(members);
    TopIsBest(members, c);
    DistinctMeansUnique(members, c, HealthyMember(members, Some(c.id)).value);
    KeptWithoutLead(StandingOf(members), state, policy, c.id);
  }

  /**
   * After every sweep somebody is preferred exactly when somebody is healthy, and no healthy member
   * leads the preferred one by the margin unless that member's lead is still pending; without a
   * margin the preferred member is the top one.
   */
  lemma PreferredIsNearlyBest(run: Run, policy: SelectionPolicy)
    requires run != [] && AllValid(run)
    ensures var st, s := run[|run| - 1], After(run, policy);
            && Sound(st, s, policy)
            && (s.preferred.Some? ==>
                  var lead := st.top.value.score - st.healthy[s.preferred.value].score;
                  && (policy.scoreSwitchMargin <= 0.0 ==> st.top.value.id == s.preferred.value)
                  && (policy.scoreSwitchMargin > 0.0 ==> s.pending == Some(st.top.value.id) || lead < policy.scoreSwitchMargin)
                  && (policy.scoreSwitchMargin > 0.0 && policy.Hold() == 1 ==> lead < policy.scoreSwitchMargin))
  {
    ChoiceIsSound(run[|run| - 1], After(run[..|run| - 1], policy), policy);
  }

  /** The pending count is the length of the current lead of the pending member, and of no other. */
  lemma {:induction false} PendingIsLeadRun(run: Run, policy: SelectionPolicy, b: string)
    requires policy.scoreSwitchMargin > 0.0 && AllValid(run)
    ensures var s := After(run, policy);
            && (s.preferred.Some? ==>
                  LeadRun(run, policy, s.preferred.value, b) == if s.pending == Some(b) then s.pendingSweeps else 0)
            && s.pendingSweeps < policy.Hold()
  {
    if run != [] {
      PendingIsLeadRun(run[..|run| - 1], policy, b);
    }
  }

  lemma SwitchNeedsFullLead(run: Run, policy: SelectionPolicy, c: string, b: string)
    requires policy.scoreSwitchMargin > 0.0 && AllValid(run)
    requires run != [] && b != c
    requires After(run[..|run| - 1], policy).preferred == Some(c) && c in run[|run| - 1].healthy
    ensures After(run, policy).preferred == Some(b) <==> LeadRun(run, policy, c, b) >= policy.Hold()
  {
    PendingIsLeadRun(run[..|run| - 1], policy, b);
  }

  /**
   * The exact switch law. Preference leaves a healthy incumbent c for b at the last sweep of the
   * run if and only if on each of the last Hold() sweeps c was the healthy incumbent, b headed
   * the ranking, and b led c by at least the margin.
   */
  lemma ExactSwitchLaw(run: Run, policy: SelectionPolicy, c: string, b: string)
    requires policy.scoreSwitchMargin > 0.0 && AllValid(run)
    requires run != [] && b != c
    requires After(run[..|run| - 1], policy).preferred == Some(c) && c in run[|run| - 1].healthy
    ensures After(run, policy).preferred == Some(b) <==>
              policy.Hold() <= |run| && forall i | |run| - policy.Hold() <= i < |run| :: LedAt(run, policy, i, c, b)
  {
    SwitchNeedsFullLead(run, policy, c, b);
    LeadRunIsMaximalSuffix(run, policy, c, b, policy.Hold());
  }

  function TopId(st: Standing): Option<string> {
    if st.top.None? then None else Some(st.top.value.id)
  }

  /** No member heads two sweeps running. */
  ghost predicate Alternates(run: Run) {
    |run| <= 1 || (TopId(run[|run| - 1]) != TopId(run[|run| - 2]) && Alternates(run[..|run| - 1]))
  }

  /**
   * Challengers that take turns at the top never win: when no member heads two sweeps running
   * and the hold is at least 2, a healthy incumbent stays preferred for the whole run.
   */
  lemma {:induction false} AlternatingChallengersNeverWin(start: SelectionState, run: Run, policy: SelectionPolicy, c: string)
    requires policy.scoreSwitchMargin > 0.0 && policy.Hold() >= 2 && AllValid(run)
    requires start == SelectionState(Some(c), None, 0)
    requires forall i | 0 <= i < |run| :: c in run[i].healthy
    requires Alternates(run)
    ensures var s := Resumed(start, run, policy);
            s.preferred == Some(c) && (s.pending.Some? ==> run != [] && s.pending == TopId(run[|run| - 1]) && s.pendingSweeps == 1)
  {
    if run != [] {
      AlternatingChallengersNeverWin(start, run[..|run| - 1], policy, c);
    }
  }

  // ---- The rule as it is documented.

  /** At sweep i the healthy member b, at the top or not, was ahead of the healthy incumbent c by the margin. */
  ghost predicate AheadAt(run: Run, policy: SelectionPolicy, i: nat, c: string, b: string)
    requires i < |run|
  {
    && After(run[..i], policy).preferred == Some(c) && b != c
    && c in run[i].healthy && b in run[i].healthy
    && run[i].healthy[b].score - run[i].healthy[c].score >= policy.scoreSwitchMargin
  }

  /** b was ahead of c on every sweep of a whole hold. */
  ghost predicate AheadForHold(run: Run, policy: SelectionPolicy, c: string, b: string) {
    policy.Hold() <= |run| && forall i | |run| - policy.Hold() <= i < |run| :: AheadAt(run, policy, i, c, b)
  }

  /** The documentation: an incumbent that some member leads by the margin for a whole hold loses its place. */
  ghost predicate AsDocumented(run: Run, policy: SelectionPolicy) {
    forall c, b | AheadForHold(run, policy, c, b) :: After(run, policy).preferred != Some(c)
  }

  ghost predicate AlwaysAsDocumented(policy: SelectionPolicy) {
    forall run: Run | AllValid(run) :: AsDocumented(run, policy)
  }

  /** The scores of normalised weights: all in [0, 1]. */
  ghost predicate UnitScores(run: Run) {
    forall i, id | 0 <= i < |run| && id in run[i].healthy :: 0.0 <= run[i].healthy[id].score <= 1.0
  }

  ghost predicate AlwaysAsDocumentedInUnit(policy: SelectionPolicy) {
    forall run: Run | AllValid(run) && UnitScores(run) :: AsDocumented(run, policy)
  }

  /** With a hold of one sweep whoever is ahead of the incumbent unseats it, for the top member is ahead too. */
  lemma OneSweepIsAsDocumented(run: Run, policy: SelectionPolicy)
    requires policy.scoreSwitchMargin > 0.0 && policy.Hold() == 1 && AllValid(run)
    ensures AsDocumented(run, policy)
  {
    forall c, b | AheadForHold(run, policy, c, b) ensures After(run, policy).preferred != Some(c) {
      var st := run[|run| - 1];
      assert AheadAt(run, policy, |run| - 1, c, b);
      assert BestFirst(st.top.value, st.healthy[b]);
    }
  }

  const INCUMBENT := RankedMember("c", true, 0.0, None)

  /** A member ahead of the incumbent by exactly the margin; of two such members the faster one ranks first. */
  function Rival(id: string, margin: real, fast: bool): RankedMember {
    RankedMember(id, true, margin, Some(if fast then 1.0 else 2.0))
  }

  /** Both rivals are ahead of the incumbent; which of them is at the top depends on the turn. */
  function RivalTurn(margin: real, first: bool): Standing {
    var x, y := Rival("x", margin, first), Rival("y", margin, !first);
    Standing(Some(if first then x else y), map["c" := INCUMBENT, "x" := x, "y" := y])
  }

  function RivalTurns(margin: real, n: nat): (run: Run)
    ensures |run| == n
    ensures forall i | 0 <= i < n :: run[i] == RivalTurn(margin, i % 2 == 0)
  {
    seq(n, i requires 0 <= i < n => RivalTurn(margin, i % 2 == 0))
  }

  const ALONE := Standing(Some(INCUMBENT), map["c" := INCUMBENT])

  lemma {:induction false} RivalsAlternate(margin: real, n: nat)
    ensures Alternates(RivalTurns(margin, n))
  {
    if n >= 2 {
      RivalsAlternate(margin, n - 1);
      assert RivalTurns(margin, n)[..n - 1] == RivalTurns(margin, n - 1);
    }
  }

  lemma {:induction false} ResumedAfter(first: Standing, rest: Run, policy: SelectionPolicy)
    ensures After([first] + rest, policy) == Resumed(After([first], policy), rest, policy)
  {
    if rest == [] {
      assert [first] + rest == [first];
    } else {
      var n := |rest| - 1;
      ResumedAfter(first, rest[..n], policy);
      assert ([first] + rest)[..n + 1] == [first] + rest[..n];
    }
  }

  lemma IncumbentAlone(policy: SelectionPolicy)
    ensures After([ALONE], policy) == SelectionState(Some("c"), None, 0)
  {
    assert [ALONE][..0] == [];
  }

  lemma IncumbentStays(policy: SelectionPolicy, n: nat)
    requires policy.scoreSwitchMargin > 0.0 && policy.Hold() >= 2
    ensures After([ALONE] + RivalTurns(policy.scoreSwitchMargin, n), policy).preferred == Some("c")
  {
    var run := RivalTurns(policy.scoreSwitchMargin, n);
    IncumbentAlone(policy);
    RivalTurnIsValid(policy.scoreSwitchMargin, true);
    RivalTurnIsValid(policy.scoreSwitchMargin, false);
    RivalsAlternate(policy.scoreSwitchMargin, n);
    AlternatingChallengersNeverWin(After([ALONE], policy), run, policy, "c");
    ResumedAfter(ALONE, run, policy);
  }

  lemma RivalTurnIsValid(margin: real, first: bool)
    requires margin > 0.0
    ensures RivalTurn(margin, first).Valid() && ALONE.Valid()
    ensures forall id | id in RivalTurn(margin, first).healthy :: 0.0 <= RivalTurn(margin, first).healthy[id].score <= margin
  {
    NameLeOrder();
    var x, y := Rival("x", margin, first), Rival("y", margin, !first);
    var top := if first then x else y;
    assert BestFirst(top, x) && BestFirst(top, y) && BestFirst(top, INCUMBENT) && BestFirst(INCUMBENT, INCUMBENT);
    assert "c" in ALONE.healthy && "c" in RivalTurn(margin, first).healthy;
  }

  function RivalRun(margin: real, n: nat): (run: Run)
    ensures |run| == n + 1 && run[0] == ALONE
    ensures forall i | 1 <= i <= n :: run[i] == RivalTurn(margin, (i - 1) % 2 == 0)
  {
    [ALONE] + RivalTurns(margin, n)
  }

  lemma RivalRunIsValid(margin: real, n: nat)
    requires margin > 0.0
    ensures AllValid(RivalRun(margin, n)) && (margin <= 1.0 ==> UnitScores(RivalRun(margin, n)))
  {
    RivalTurnIsValid(margin, true);
    RivalTurnIsValid(margin, false);
  }

  lemma RivalIsAhead(policy: SelectionPolicy, n: nat, i: nat)
    requires policy.scoreSwitchMargin > 0.0 && policy.Hold() >= 2 && 1 <= i <= n
    ensures AheadAt(RivalRun(policy.scoreSwitchMargin, n), policy, i, "c", "x")
  {
    var margin := policy.scoreSwitchMargin;
    IncumbentStays(policy, i - 1);
    assert RivalRun(margin, n)[..i] == [ALONE] + RivalTurns(margin, i - 1);
  }

  /**
   * Two rivals, both ahead of the incumbent by the margin on every sweep, take turns at the top.
   * Each of them leads the incumbent for any number of sweeps, and it keeps its place.
   */
  lemma RivalsNeverWin(policy: SelectionPolicy) returns (run: Run)
    requires policy.scoreSwitchMargin > 0.0 && policy.Hold() >= 2
    ensures AllValid(run) && (policy.scoreSwitchMargin <= 1.0 ==> UnitScores(run))
    ensures AheadForHold(run, policy, "c", "x") && After(run, policy).preferred == Some("c")
  {
    var n := policy.Hold();
    run := RivalRun(policy.scoreSwitchMargin, n);
    RivalRunIsValid(policy.scoreSwitchMargin, n);
    IncumbentStays(policy, n);
    forall i | |run| - n <= i < |run| ensures AheadAt(run, policy, i, "c", "x") {
      RivalIsAhead(policy, n, i);
    }
  }

  /** The code follows the documented rule on all runs exactly when one sweep is enough to switch. */
  lemma DocumentedIff(policy: SelectionPolicy)
    requires policy.scoreSwitchMargin > 0.0
    ensures AlwaysAsDocumented(policy) <==> policy.Hold() == 1
  {
    if policy.Hold() == 1 {
      forall run: Run | AllValid(run) ensures AsDocumented(run, policy) {
        OneSweepIsAsDocumented(run, policy);
      }
    } else {
      var run := RivalsNeverWin(policy);
      assert !AsDocumented(run, policy);
    }
  }

  /** On scores in [0, 1] the only other way to follow it is a margin that no lead can reach. */
  lemma DocumentedInUnitIff(policy: SelectionPolicy)
    requires policy.scoreSwitchMargin > 0.0
    ensures AlwaysAsDocumentedInUnit(policy) <==> policy.Hold() == 1 || policy.scoreSwitchMargin > 1.0
  {
    if policy.Hold() == 1 {
      forall run: Run | AllValid(run) && UnitScores(run) ensures AsDocumented(run, policy) {
        OneSweepIsAsDocumented(run, policy);
      }
    } else if policy.scoreSwitchMargin > 1.0 {
      forall run: Run | AllValid(run) && UnitScores(run) ensures AsDocumented(run, policy) {
        forall c, b ensures !AheadForHold(run, policy, c, b) {
          assert |run| >= policy.Hold() ==> !AheadAt(run, policy, |run| - 1, c, b);
        }
      }
    } else {
      var run := RivalsNeverWin(policy);
      assert !AsDocumented(run, policy);
    }
  }

  // ---- How often preference can change.

  /** Sweeps that took preference away from a member that was still healthy. */
  ghost function LeadSwitches(run: Run, policy: SelectionPolicy): nat {
    if run == [] then 0
    else
      var before := run[..|run| - 1];
      var s, t := After(before, policy), After(run, policy);
      LeadSwitches(before, policy)
      + (if s.preferred.Some? && s.preferred != t.preferred && s.preferred.value in run[|run| - 1].healthy then 1 else 0)
  }

  /** Sweeps after which the preferred member differs from the one before. */
  ghost function Changes(run: Run, policy: SelectionPolicy): nat {
    if run == [] then 0
    else
      var before := run[..|run| - 1];
      Changes(before, policy) + (if After(before, policy).preferred != After(run, policy).preferred then 1 else 0)
  }

  /** Who was healthy after the last sweep; nobody before the first. */
  ghost function HealthyAfter(run: Run): set<string> {
    if run == [] then {} else run[|run| - 1].healthy.Keys
  }

  /** The number of (sweep, member) pairs at which the member's health flipped. */
  ghost function Flips(run: Run): nat {
    if run == [] then 0
    else
      var was, now := HealthyAfter(run[..|run| - 1]), HealthyAfter(run);
      Flips(run[..|run| - 1]) + |(was - now) + (now - was)|
  }

  lemma {:induction false} SwitchesPaidBySweeps(run: Run, policy: SelectionPolicy)
    requires policy.scoreSwitchMargin > 0.0 && AllValid(run)
    ensures LeadSwitches(run, policy) * policy.Hold() + After(run, policy).pendingSweeps <= |run|
  {
    if run != [] {
      var before := run[..|run| - 1];
      SwitchesPaidBySweeps(before, policy);
      Budget(LeadSwitches(before, policy), After(before, policy).pendingSweeps,
             LeadSwitches(run, policy), After(run, policy).pendingSweeps, policy.Hold(), |before|);
    }
  }

  lemma Budget(k: int, p: int, k': int, p': int, h: int, n: int)
    requires k * h + p <= n
    requires (k' == k + 1 && p + 1 >= h && p' == 0) || (k' == k && p' <= p + 1)
    ensures k' * h + p' <= n + 1
  {
    Distribute(k, h);
  }

  lemma Distribute(k: int, h: int)
    ensures (k + 1) * h == k * h + h
  {
  }

  /** Every change is a lead-driven switch, or falls in a sweep with a flip of the incumbent or the newcomer. */
  lemma {:induction false} ChangesPaidByFlips(run: Run, policy: SelectionPolicy)
    requires policy.scoreSwitchMargin > 0.0 && AllValid(run)
    ensures Changes(run, policy) <= LeadSwitches(run, policy) + Flips(run)
    ensures After(run, policy).preferred.None? <==> HealthyAfter(run) == {}
    ensures After(run, policy).preferred.Some? ==> After(run, policy).preferred.value in HealthyAfter(run)
  {
    if run != [] {
      var before, st := run[..|run| - 1], run[|run| - 1];
      var s, t := After(before, policy), After(run, policy);
      ChangesPaidByFlips(before, policy);
      ChoiceIsSound(st, s, policy);
      var was, now := HealthyAfter(before), HealthyAfter(run);
      if s.preferred != t.preferred && !(s.preferred.Some? && s.preferred.value in st.healthy) {
        var flipped := if s.preferred.Some? then s.preferred.value else t.preferred.value;
        assert flipped in (was - now) + (now - was);
      }
    }
  }

  /**
   * The anti-flap bound: over N sweeps, lead-driven switches number at most N / Hold(), and all
   * changes of preference at most N / Hold() plus the health flips of all members.
   */
  lemma AntiFlapBound(run: Run, policy: SelectionPolicy)
    requires policy.scoreSwitchMargin > 0.0 && AllValid(run)
    ensures LeadSwitches(run, policy) * policy.Hold() + After(run, policy).pendingSweeps <= |run|
    ensures Changes(run, policy) <= |run| / policy.Hold() + Flips(run)
  {
    SwitchesPaidBySweeps(run, policy);
    ChangesPaidByFlips(run, policy);
    QuotientBound(LeadSwitches(run, policy), policy.Hold(), |run|);
  }

  lemma QuotientBound(k: nat, h: int, n: nat)
    requires h >= 1 && k * h <= n
    ensures k <= n / h
  {
    var q := n / h;
    assert n < q * h + h;
    if q < k {
      Monotone(q + 1, k, h);
      Distribute(q, h);
    }
  }

  lemma Monotone(a: int, b: int, h: nat)
    requires a <= b
    ensures a * h <= b * h
  {
  }
}
