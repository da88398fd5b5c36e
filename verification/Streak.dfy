/** Health as a streak: the step a check makes, and what the steps of a whole history amount to. */
module Streak {
  import opened Prelude
  import opened Selection

  datatype Health = Health(healthy: bool, successes: nat, failures: nat)

  const UNKNOWN := Health(false, 0, 0)

  function Step(h: Health, success: bool, policy: SelectionPolicy): Health {
    if success then
      Health(h.healthy || h.successes + 1 >= policy.successThreshold, h.successes + 1, 0)
    else
      Health(h.healthy && h.failures + 1 < policy.failThreshold, 0, h.failures + 1)
  }

  method ApplyStreak(healthy: bool, consecutiveSuccess: nat, consecutiveFail: nat, success: bool, policy: SelectionPolicy)
    returns (healthy': bool, successes: nat, failures: nat)
    ensures Health(healthy', successes, failures) == Step(Health(healthy, consecutiveSuccess, consecutiveFail), success, policy)
  {
    healthy', successes, failures := healthy, consecutiveSuccess, consecutiveFail;
    if success {
      successes := successes + 1;
      failures := 0;
      if successes >= policy.successThreshold {
        healthy' := true;
      }
      return;
    }
    failures := failures + 1;
    successes := 0;
    if failures >= policy.failThreshold {
      healthy' := false;
    }
  }

  /** The state of a member whose checks had these results, oldest first. */
  function AfterChecks(history: seq<bool>, policy: SelectionPolicy): Health {
    if history == [] then UNKNOWN
    else Step(AfterChecks(history[..|history| - 1], policy), history[|history| - 1], policy)
  }

  /** The length of the longest suffix of results equal to v. */
  function Trailing(history: seq<bool>, v: bool): (n: nat)
    ensures n <= |history|
  {
    if history == [] || history[|history| - 1] != v then 0
    else Trailing(history[..|history| - 1], v) + 1
  }

  lemma {:induction false} TrailingIsMaximal(history: seq<bool>, v: bool)
    ensures var n := Trailing(history, v);
            && (forall i | |history| - n <= i < |history| :: history[i] == v)
            && (n < |history| ==> history[|history| - n - 1] != v)
  {
    if history != [] {
      TrailingIsMaximal(history[..|history| - 1], v);
    }
  }

  /** A success streak was completed after i checks, and no failure streak has been since. */
  ghost predicate RoseAt(history: seq<bool>, i: nat, policy: SelectionPolicy) {
    && 1 <= i <= |history|
    && Trailing(history[..i], true) >= Max(1, policy.successThreshold)
    && QuietSince(history, i, policy)
  }

  /** The failures trailing the first j checks do not complete a failure streak. */
  ghost predicate Quiet(history: seq<bool>, j: nat, policy: SelectionPolicy)
    requires j <= |history|
  {
    Trailing(history[..j], false) < Max(1, policy.failThreshold)
  }

  /**
   * Health is a function of the history: the counters are the trailing runs, and the flag says
   * that some completed success streak has not been followed by a completed failure streak.
   */
  lemma {:induction false} HealthFromHistory(history: seq<bool>, policy: SelectionPolicy)
    ensures var h := AfterChecks(history, policy);
            && h.successes == Trailing(history, true)
            && h.failures == Trailing(history, false)
            && (h.healthy <==> exists i: nat :: RoseAt(history, i, policy))
  {
    if history != [] {
      var before := history[..|history| - 1];
      HealthFromHistory(before, policy);
      forall i: nat | i <= |history| ensures RoseAt(history, i, policy) <==>
          if i == |history| then Trailing(history, true) >= Max(1, policy.successThreshold)
          else RoseAt(before, i, policy) && Trailing(history, false) < Max(1, policy.failThreshold)
      {
        RoseAtLater(history, i, policy);
      }
      assert forall i: nat :: RoseAt(history, i, policy) ==> i <= |history|;
      assert forall i: nat :: RoseAt(before, i, policy) ==> i < |history|;
      assert RoseAt(history, |history|, policy) <==> Trailing(history, true) >= Max(1, policy.successThreshold);
    }
  }

  lemma QuietPrefix(history: seq<bool>, j: nat, policy: SelectionPolicy)
    requires j < |history|
    ensures Quiet(history, j, policy) == Quiet(history[..|history| - 1], j, policy)
  {
    assert history[..|history| - 1][..j] == history[..j];
  }

  ghost predicate QuietSince(history: seq<bool>, i: nat, policy: SelectionPolicy) {
    forall j: nat | i < j <= |history| :: Quiet(history, j, policy)
  }

  lemma QuietSinceLater(history: seq<bool>, i: nat, policy: SelectionPolicy)
    requires i < |history|
    ensures QuietSince(history, i, policy) <==>
              QuietSince(history[..|history| - 1], i, policy) && Quiet(history, |history|, policy)
  {
    var before := history[..|history| - 1];
    if QuietSince(history, i, policy) {
      forall j: nat | i < j <= |before| ensures Quiet(before, j, policy) {
        QuietPrefix(history, j, policy);
      }
    }
    if QuietSince(before, i, policy) && Quiet(history, |history|, policy) {
      forall j: nat | i < j <= |history| ensures Quiet(history, j, policy) {
        if j < |history| {
          QuietPrefix(history, j, policy);
        }
      }
    }
  }

  lemma RoseAtLater(history: seq<bool>, i: nat, policy: SelectionPolicy)
    requires history != [] && i <= |history|
    ensures RoseAt(history, i, policy) <==>
              if i == |history| then Trailing(history, true) >= Max(1, policy.successThreshold)
              else RoseAt(history[..|history| - 1], i, policy) && Trailing(history, false) < Max(1, policy.failThreshold)
  {
    assert history[..|history|] == history;
    if i < |history| {
      assert history[..|history| - 1][..i] == history[..i];
      QuietSinceLater(history, i, policy);
    }
  }

  /** How often the flag rose (up) or fell in the course of a history. */
  ghost function FlagMoves(history: seq<bool>, policy: SelectionPolicy, up: bool): nat {
    if history == [] then 0
    else
      var before := history[..|history| - 1];
      FlagMoves(before, policy, up)
      + (if AfterChecks(before, policy).healthy == !up && AfterChecks(history, policy).healthy == up then 1 else 0)
  }

  /** Every rise consumes a success streak of its own and every fall a failure streak of its own. */
  lemma {:induction false} FlagMovesPaidByChecks(history: seq<bool>, policy: SelectionPolicy)
    ensures var u, d := FlagMoves(history, policy, true), FlagMoves(history, policy, false);
            var h := AfterChecks(history, policy);
            && u * Max(1, policy.successThreshold) + d * Max(1, policy.failThreshold)
               + (if h.healthy then h.failures else h.successes) <= |history|
            && u == d + (if h.healthy then 1 else 0)
  {
    if history != [] {
      var before := history[..|history| - 1];
      FlagMovesPaidByChecks(before, policy);
      var h, g := AfterChecks(before, policy), AfterChecks(history, policy);
      Price(FlagMoves(before, policy, true), FlagMoves(before, policy, false), h,
            FlagMoves(history, policy, true), FlagMoves(history, policy, false), g,
            Max(1, policy.successThreshold), Max(1, policy.failThreshold), |before|);
    }
  }

  /** A flag that moves has a full streak behind it; otherwise one more check is in hand at most. */
  lemma Price(u: nat, d: nat, h: Health, u': nat, d': nat, g: Health, s: int, f: int, n: nat)
    requires u * s + d * f + (if h.healthy then h.failures else h.successes) <= n
    requires u' == u + (if !h.healthy && g.healthy then 1 else 0)
    requires d' == d + (if h.healthy && !g.healthy then 1 else 0)
    requires if g.successes > 0 then g == Health(h.healthy || h.successes + 1 >= s, h.successes + 1, 0)
             else g == Health(h.healthy && h.failures + 1 < f, 0, h.failures + 1)
    ensures u' * s + d' * f + (if g.healthy then g.failures else g.successes) <= n + 1
  {
    assert (u + 1) * s == u * s + s && (d + 1) * f == d * f + f;
  }
}
