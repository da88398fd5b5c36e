/** The laws of the pool, carried to every interleaved run of the system. */
module SystemRuns {
  import opened Prelude
  import opened Sorting
  import opened PoolStates
  import opened FlapBudget
  import opened Sweeps
  import SelectionRuns

  /** A sweep that scores the pool has one answer for each member. */
  lemma InputIsFull(c: Config, s: System, step: Step)
    requires Enabled(c, s, step) && forall i | 0 <= i < |s.inputs| :: Full(c.ids, s.inputs[i])
    ensures var t := Next(c, s, step); forall i | 0 <= i < |t.inputs| :: Full(c.ids, t.inputs[i])
  {
    if step.SweepApply? {
      assert Full(c.ids, InputOf(c, s, step.seconds));
    } else {
      assert Next(c, s, step).inputs == s.inputs;
    }
  }

  lemma {:induction false} InputsAreFull(c: Config, steps: seq<Step>)
    requires NoDuplicates(c.ids) && Possible(c, steps)
    ensures forall i | 0 <= i < |AfterSteps(c, steps).inputs| :: Full(c.ids, AfterSteps(c, steps).inputs[i])
  {
    if steps != [] {
      var before := steps[..|steps| - 1];
      InputsAreFull(c, before);
      InputIsFull(c, AfterSteps(c, before), steps[|steps| - 1]);
    }
  }

  /** The budget holds of every interleaved run: the changes of the system's own choice stay within it. */
  lemma SystemWithinBudget(c: Config, steps: seq<Step>)
    requires NoDuplicates(c.ids) && Possible(c, steps) && c.policies.selection.scoreSwitchMargin > 0.0
    ensures var s, policy := AfterSteps(c, steps), c.policies.selection;
            var run := PoolStates.Shown(c.ids, s.inputs, c.policies);
            && s.pool.choice == SelectionRuns.After(run, policy)
            && SelectionRuns.Changes(run, policy) <= |s.inputs| / policy.Hold() + |c.ids| * FlipBudget(|s.inputs|, policy)
  {
    InputsAreFull(c, steps);
    SystemRunsSelection(c, steps);
    ChangesWithinBudget(c.ids, AfterSteps(c, steps).inputs, c.policies);
  }
}
