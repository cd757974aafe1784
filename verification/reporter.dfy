/**
 * ReportPortalStoryReporter: the JBehave event handlers, each driving the
 * bridge Context. Every handler is proved to move the context's abstract
 * state exactly as the matching function of Handlers (or Lifecycle) says;
 * the properties of the handlers are proved there.
 */
module StoryReporter {
  import opened Wrappers
  import opened Lifecycle
  import opened Handlers
  import opened Bridge

  /** storyCancelled: the current story is finished. */
  method StoryCancelled(ctx: Context)
    modifies ctx
    ensures ctx.Abs() == Lifecycle.FinishStory(old(ctx.Abs()))
  {
    ctx.FinishStory();
  }

  /** beforeStory. */
  method BeforeStory(ctx: Context, def: StoryDef, givenStory: bool)
    modifies ctx
    ensures ctx.Abs() == Lifecycle.StartStory(old(ctx.Abs()), def, givenStory)
  {
    ctx.StartStory(def, givenStory);
  }

  /** afterStory: the current story is finished, given or not. */
  method AfterStory(ctx: Context, givenStory: bool)
    modifies ctx
    ensures ctx.Abs() == Lifecycle.FinishStory(old(ctx.Abs()))
  {
    ctx.FinishStory();
  }

  /** beforeScenario: record the scenario meta, then start the scenario. */
  method BeforeScenario(ctx: Context, sc: ScenarioDef)
    modifies ctx
    ensures ctx.Abs() == Handlers.BeforeScenario(old(ctx.Abs()), sc)
  {
    ctx.story := ctx.story.(scenarioMeta := Some(sc.meta));
    ctx.StartScenario(sc.title);
  }

  /** afterScenario: finishScenario(), that is, PASSED. */
  method AfterScenario(ctx: Context)
    modifies ctx
    ensures ctx.Abs() == Lifecycle.FinishScenario(old(ctx.Abs()), Passed)
  {
    ctx.FinishScenario(Passed);
  }

  /** beforeStep. */
  method BeforeStep(ctx: Context, step: string)
    modifies ctx
    ensures ctx.Abs() == Lifecycle.StartStep(old(ctx.Abs()), step)
  {
    ctx.StartStep(step);
  }

  /**
   * example(row, index): the current example index is set. Without an
   * examples context the call fails with a null dereference: ok is false
   * and nothing changes.
   */
  method Example(ctx: Context, index: nat) returns (ok: bool)
    modifies ctx
    ensures Handlers.Example(old(ctx.Abs()), index) == (if ok then Some(ctx.Abs()) else None)
    ensures !ok ==> ctx.Abs() == old(ctx.Abs())
  {
    if ctx.story.examples.None? {
      return false;
    }
    ctx.story := ctx.story.(examples := Some(ctx.story.examples.value.(current := index)));
    ok := true;
  }

  /** beforeExamples: a new examples context for the steps and the table. */
  method BeforeExamples(ctx: Context, steps: seq<string>, rows: seq<map<string, string>>)
    modifies ctx
    ensures ctx.Abs() == Handlers.BeforeExamples(old(ctx.Abs()), steps, rows)
  {
    ctx.story := ctx.story.(examples := Some(Examples(steps, rows, 0)));
  }

  /** afterExamples: the examples context is cleared. */
  method AfterExamples(ctx: Context)
    modifies ctx
    ensures ctx.Abs() == Handlers.AfterExamples(old(ctx.Abs()))
  {
    ctx.story := ctx.story.(examples := None);
  }

  /** successful: the current step is finished PASSED. */
  method Successful(ctx: Context, step: string)
    modifies ctx
    ensures ctx.Abs() == Lifecycle.FinishStep(old(ctx.Abs()), Passed)
  {
    ctx.FinishStep(Passed);
  }

  /** ignorable. */
  method Ignorable(ctx: Context, step: string)
    modifies ctx
    ensures ctx.Abs() == SkipStep(old(ctx.Abs()), step)
  {
    if ctx.story.step.None? {
      ctx.StartStep(step);
    }
    ctx.FinishStep(Skipped);
  }

  /** notPerformed: handled exactly as ignorable. */
  method NotPerformed(ctx: Context, step: string)
    modifies ctx
    ensures ctx.Abs() == SkipStep(old(ctx.Abs()), step)
  {
    if ctx.story.step.None? {
      ctx.StartStep(step);
    }
    ctx.FinishStep(Skipped);
  }

  /** failed. */
  method Failed(ctx: Context, step: string, cause: string)
    modifies ctx
    ensures ctx.Abs() == StepFailed(old(ctx.Abs()), cause)
  {
    ctx.SendStackTrace(cause);
    ctx.FinishStep(Status.Failed);
  }

  /** pending: a step is simulated as SKIPPED. */
  method Pending(ctx: Context, step: string)
    modifies ctx
    ensures ctx.Abs() == Handlers.SimulateStep(old(ctx.Abs()), step, Skipped)
  {
    SimulateStep(ctx, step, Skipped);
  }

  /** The one-argument example(row) hook: example row i becomes the current one. */
  method SelectExample(ctx: Context, i: nat)
    modifies ctx
    ensures ctx.Abs() == SelectRow(old(ctx.Abs()), i)
  {
    if ctx.story.examples.Some? {
      ctx.story := ctx.story.(examples := Some(ctx.story.examples.value.(current := i)));
    }
  }

  /** scenarioNotAllowed. */
  method ScenarioNotAllowed(ctx: Context, sc: ScenarioDef)
    modifies ctx
    ensures ctx.Abs() == Handlers.ScenarioNotAllowed(old(ctx.Abs()), sc)
  {
    if sc.table.Some? && |sc.table.value| > 0 {
      var rows := sc.table.value;
      BeforeExamples(ctx, sc.steps, rows);
      ghost var st0 := ctx.Abs();
      for i := 0 to |rows|
        invariant ctx.Abs() == SimulateRows(st0, sc.steps, i)
      {
        SelectExample(ctx, i);
        ghost var sel := ctx.Abs();
        SimulateAll(ctx, sc.steps);
        assert ctx.Abs() == SimulateSteps(sel, sc.steps);
      }
    } else {
      SimulateAll(ctx, sc.steps);
    }
    ctx.FinishScenario(Skipped);
  }

  /** The loop over the scenario's steps in scenarioNotAllowed: each is simulated as SKIPPED. */
  method SimulateAll(ctx: Context, steps: seq<string>)
    modifies ctx
    ensures ctx.Abs() == SimulateSteps(old(ctx.Abs()), steps)
  {
    for j := 0 to |steps|
      invariant ctx.Abs() == SimulateSteps(old(ctx.Abs()), steps[..j])
    {
      SimulateStep(ctx, steps[j], Skipped);
      assert steps[..j + 1][..j] == steps[..j];
    }
    assert steps[..|steps|] == steps;
  }

  /** simulateStep: a step is started and at once finished with the status. */
  method SimulateStep(ctx: Context, step: string, status: Status)
    modifies ctx
    ensures ctx.Abs() == Handlers.SimulateStep(old(ctx.Abs()), step, status)
  {
    ctx.StartStep(step);
    ctx.FinishStep(status);
  }
}
