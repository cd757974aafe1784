/**
 * What each event handler of ReportPortalStoryReporter does to the
 * bridge state, as functions from the state before to the state after,
 * and the properties of those handlers: skipped and pending steps, and
 * the fan-out of a scenario that is not allowed to run into one skipped
 * step per example row and step, in row-major order.
 */
module Handlers {
  import opened Wrappers
  import opened Metas
  import opened Lifecycle
  import opened CallLog

  /** A scenario as JBehave hands it over: title, meta, step texts and examples table (may be null). */
  datatype ScenarioDef = ScenarioDef(
    title: string,
    meta: Meta,
    steps: seq<string>,
    table: Option<seq<map<string, string>>>)

  /** beforeScenario: the scenario meta is recorded first, then the scenario is started. */
  function BeforeScenario(st: State, sc: ScenarioDef): State {
    StartScenario(st.(story := st.story.(scenarioMeta := Some(sc.meta))), sc.title)
  }

  /** beforeExamples: a new examples context of the steps and table, at row 0. */
  function BeforeExamples(st: State, steps: seq<string>, rows: seq<map<string, string>>): State {
    st.(story := st.story.(examples := Some(Examples(steps, rows, 0))))
  }

  /** afterExamples: the examples context is dropped. */
  function AfterExamples(st: State): State {
    st.(story := st.story.(examples := None))
  }

  /** Selecting example row i: only the current index of the examples context changes. */
  function SelectRow(st: State, i: nat): State {
    if st.story.examples.None? then st
    else st.(story := st.story.(examples := Some(st.story.examples.value.(current := i))))
  }

  /** example(row, index): selects the row; without an examples context the call fails (None). */
  function Example(st: State, index: nat): Option<State> {
    if st.story.examples.None? then None else Some(SelectRow(st, index))
  }

  /** ignorable and notPerformed: a step is started only if none is open, then the open step is finished SKIPPED. */
  function SkipStep(st: State, step: string): State {
    FinishStep(if st.story.step.None? then StartStep(st, step) else st, Skipped)
  }

  /** failed: the cause is uploaded, then the current step is finished FAILED. */
  function StepFailed(st: State, cause: string): State {
    FinishStep(st.(calls := st.calls + [LogError(cause)]), Failed)
  }

  /** simulateStep: a step is started and at once finished with the status. */
  function SimulateStep(st: State, step: string, status: Status): State {
    FinishStep(StartStep(st, step), status)
  }

  /** Each step simulated as SKIPPED, in order. */
  function SimulateSteps(st: State, steps: seq<string>): State {
    if steps == [] then st
    else SimulateStep(SimulateSteps(st, steps[..|steps| - 1]), steps[|steps| - 1], Skipped)
  }

  /** The first n example rows, each selected and then all steps simulated as SKIPPED. */
  function SimulateRows(st: State, steps: seq<string>, n: nat): State {
    if n == 0 then st
    else SimulateSteps(SelectRow(SimulateRows(st, steps, n - 1), n - 1), steps)
  }

  /**
   * scenarioNotAllowed: with a non-empty examples table every row runs
   * every step as a skipped step; otherwise every step is skipped once;
   * then the scenario is finished SKIPPED.
   */
  function ScenarioNotAllowed(st: State, sc: ScenarioDef): State {
    if sc.table.Some? && |sc.table.value| > 0 then
      var rows := sc.table.value;
      FinishScenario(SimulateRows(BeforeExamples(st, sc.steps, rows), sc.steps, |rows|), Skipped)
    else
      FinishScenario(SimulateSteps(st, sc.steps), Skipped)
  }

  // ---------------------------------------------------------------------
  // The calls a skipped step sends
  // ---------------------------------------------------------------------

  /** The requests of the steps in the story record, in order. */
  function StepRequests(story: Story, steps: seq<string>): (r: seq<StartRequest>)
    ensures |r| == |steps|
  {
    seq(|steps|, i requires 0 <= i < |steps| => StepRequest(story, steps[i]))
  }

  /** The story record while example row r runs. */
  function RowStory(story: Story, ex: Examples, r: nat): Story {
    story.(step := None, examples := Some(ex.(current := r)))
  }

  /** The requests of all steps for each of the first n rows. */
  function RowRequests(story: Story, ex: Examples, steps: seq<string>, n: nat): (r: seq<seq<StartRequest>>)
    ensures |r| == n
  {
    seq(n, i requires 0 <= i < n => StepRequests(RowStory(story, ex, i), steps))
  }

  /** The finish of the scenario, if one is open, as SKIPPED. */
  function ScenarioEnd(scenario: Option<Handle>): seq<Call> {
    if scenario.Some? then [Finish(scenario.value, Skipped, None)] else []
  }

  // ---------------------------------------------------------------------
  // Properties of the handlers
  // ---------------------------------------------------------------------

  /** Only the story record, the handle counter and the call log can differ. */
  predicate SameFrame(a: State, b: State) {
    a.parents == b.parents && a.cache == b.cache && a.skippedAnIssue == b.skippedAnIssue
  }

  /** The two story records agree on everything but the open step and the examples context. */
  predicate SameScenario(a: Story, b: Story) {
    a.storyId == b.storyId && a.scenario == b.scenario && a.storyMeta == b.storyMeta && a.scenarioMeta == b.scenarioMeta
  }

  /**
   * pending (and every simulated step): always a new step, started under
   * the scenario and finished at once, whatever step was open before.
   */
  lemma {:induction false} SimulateStepEffect(st: State, step: string, status: Status)
    ensures var r := SimulateStep(st, step, status);
      && r.story == st.story.(step := None)
      && r.issued == st.issued + 1
      && r.calls == st.calls + StepPair(st.story.scenario, StepRequest(st.story, step), Handle(st.issued), status, st.skippedAnIssue)
      && SameFrame(r, st)
  {
  }

  /**
   * ignorable and notPerformed: an open step is finished SKIPPED without
   * starting another; otherwise a step is started and finished SKIPPED.
   */
  lemma {:induction false} SkipStepEffect(st: State, step: string)
    ensures st.story.step.Some? ==> SkipStep(st, step) == FinishStep(st, Skipped)
    ensures st.story.step.Some? ==>
      SkipStep(st, step).calls == st.calls + [Finish(st.story.step.value, Skipped, IssueFor(Skipped, st.skippedAnIssue))]
    ensures st.story.step.None? ==> SkipStep(st, step) == SimulateStep(st, step, Skipped)
    ensures SkipStep(st, step).story.step.None?
  {
  }

  /** failed: the cause goes out first, then the open step (if any) is finished FAILED with no issue. */
  lemma {:induction false} StepFailedEffect(st: State, cause: string)
    ensures StepFailed(st, cause).calls ==
      st.calls + [LogError(cause)] + (if st.story.step.Some? then [Finish(st.story.step.value, Failed, None)] else [])
    ensures StepFailed(st, cause).story == st.story.(step := None)
  {
  }

  /**
   * beforeScenario: the scenario meta is in place before the start, so
   * the scenario's name draws on it and its description renders it
   * after the story meta.
   */
  lemma {:induction false} BeforeScenarioSeesMeta(st: State, sc: ScenarioDef)
    ensures var story := st.story.(scenarioMeta := Some(sc.meta));
      && BeforeScenario(st, sc).calls == st.calls + [Start(Under(st.story.storyId), ScenarioRequest(story, sc.title), Handle(st.issued))]
      && ScenarioRequest(story, sc.title).name == ScenarioName(story, sc.title)
      && ScenarioRequest(story, sc.title).description == Some(MetaText(st.story.storyMeta) + " " + MetaText(Some(sc.meta)))
      && BeforeScenario(st, sc).story.scenario == Some(Handle(st.issued))
      && BeforeScenario(st, sc).story.scenarioMeta == Some(sc.meta)
  {
  }

  /** example and the examples hooks touch only the examples context of the current story. */
  lemma {:induction false} ExamplesHooks(st: State, steps: seq<string>, rows: seq<map<string, string>>, index: nat)
    ensures Example(st, index).Some? <==> st.story.examples.Some?
    ensures st.story.examples.Some? ==>
      Example(st, index) == Some(st.(story := st.story.(examples := Some(st.story.examples.value.(current := index)))))
    ensures BeforeExamples(st, steps, rows).story.examples == Some(Examples(steps, rows, 0))
    ensures AfterExamples(BeforeExamples(st, steps, rows)) == AfterExamples(st)
    ensures AfterExamples(st).story == st.story.(examples := None)
  {
  }

  /** The request of a step does not depend on whether the record had a step open. */
  lemma {:induction false} StepRequestIgnoresStep(story: Story, step: string, h: Option<Handle>)
    ensures StepRequest(story.(step := h), step) == StepRequest(story, step)
  {
  }

  /** The requests of the steps do not depend on whether the record had a step open. */
  lemma {:induction false} StepRequestsIgnoreStep(story: Story, steps: seq<string>, h: Option<Handle>)
    ensures StepRequests(story.(step := h), steps) == StepRequests(story, steps)
  {
    forall i | 0 <= i < |steps|
      ensures StepRequests(story.(step := h), steps)[i] == StepRequests(story, steps)[i]
    {
      StepRequestIgnoresStep(story, steps[i], h);
    }
  }

  /** The requests of a leading run of the steps are a leading run of the requests. */
  lemma {:induction false} StepRequestsPrefix(story: Story, steps: seq<string>, n: nat)
    requires n <= |steps|
    ensures StepRequests(story, steps)[..n] == StepRequests(story, steps[..n])
  {
    forall i | 0 <= i < n
      ensures StepRequests(story, steps)[i] == StepRequests(story, steps[..n])[i]
    {
      assert steps[..n][i] == steps[i];
    }
  }

  /**
   * Skipping the steps one by one starts and finishes each of them in
   * order, with consecutive handles, and leaves no step open.
   */
  lemma {:induction false} SimulateStepsEffect(st: State, steps: seq<string>)
    ensures var r := SimulateSteps(st, steps);
      && r.story == (if steps == [] then st.story else st.story.(step := None))
      && r.issued == st.issued + |steps|
      && r.calls == st.calls + SkippedPairs(st.story.scenario, StepRequests(st.story, steps), st.skippedAnIssue, st.issued)
      && SameFrame(r, st)
  {
    if steps != [] {
      var n := |steps| - 1;
      SimulateStepsEffect(st, steps[..n]);
      var mid := SimulateSteps(st, steps[..n]);
      SimulateStepEffect(mid, steps[n], Skipped);
      StepRequestsPrefix(st.story, steps, n);
      StepRequestIgnoresStep(st.story, steps[n], mid.story.step);
      StepsStep(st, mid, SimulateSteps(st, steps), StepRequests(st.story, steps), StepRequests(st.story, steps[..n]),
                StepRequest(mid.story, steps[n]));
    }
  }

  /**
   * The induction step of SimulateStepsEffect, over the requests of the
   * steps: the last step is skipped after the steps before it.
   */
  lemma {:induction false} StepsStep(st: State, mid: State, r: State, rqs: seq<StartRequest>, pre: seq<StartRequest>, rq: StartRequest)
    requires |rqs| == |pre| + 1 && rqs[..|pre|] == pre && rqs[|pre|] == rq
    requires mid.story == (if pre == [] then st.story else st.story.(step := None))
    requires mid.issued == st.issued + |pre|
    requires mid.calls == st.calls + SkippedPairs(st.story.scenario, pre, st.skippedAnIssue, st.issued)
    requires SameFrame(mid, st)
    requires r.story == mid.story.(step := None)
    requires r.issued == mid.issued + 1
    requires r.calls == mid.calls + StepPair(mid.story.scenario, rq, Handle(mid.issued), Skipped, mid.skippedAnIssue)
    requires SameFrame(r, mid)
    ensures r.story == st.story.(step := None)
    ensures r.issued == st.issued + |rqs|
    ensures r.calls == st.calls + SkippedPairs(st.story.scenario, rqs, st.skippedAnIssue, st.issued)
    ensures SameFrame(r, st)
  {
    SkippedPairsStep(st.story.scenario, rqs, pre, rq, st.skippedAnIssue, st.issued);
    var pair := StepPair(mid.story.scenario, rq, Handle(mid.issued), Skipped, mid.skippedAnIssue);
    assert mid.story.scenario == st.story.scenario;
    assert pair == StepPair(st.story.scenario, rq, Handle(st.issued + |pre|), Skipped, st.skippedAnIssue);
    assert r.calls == st.calls + (SkippedPairs(st.story.scenario, pre, st.skippedAnIssue, st.issued) + pair);
  }

  /** The requests of the first n - 1 rows lead those of the first n. */
  lemma {:induction false} RowRequestsPrefix(story: Story, ex: Examples, steps: seq<string>, n: nat)
    requires n > 0
    ensures RowRequests(story, ex, steps, n)[..n - 1] == RowRequests(story, ex, steps, n - 1)
    ensures RowRequests(story, ex, steps, n)[n - 1] == StepRequests(RowStory(story, ex, n - 1), steps)
  {
  }

  /** Entry (r, s) of the row requests is the request of step s in row r. */
  lemma {:induction false} RowRequestAt(story: Story, ex: Examples, steps: seq<string>, n: nat, r: nat, s: nat)
    requires r < n && s < |steps|
    ensures |RowRequests(story, ex, steps, n)[r]| == |steps|
    ensures RowRequests(story, ex, steps, n)[r][s] == StepRequest(RowStory(story, ex, r), steps[s])
  {
  }

  /**
   * Running the first n rows selects each row in turn and skips all
   * steps in it, one row after the other.
   */
  lemma {:induction false} SimulateRowsEffect(st: State, steps: seq<string>, n: nat)
    requires st.story.examples.Some?
    ensures var r := SimulateRows(st, steps, n);
      && SameScenario(r.story, st.story)
      && r.story.examples == (if n == 0 then st.story.examples else Some(st.story.examples.value.(current := n - 1)))
      && r.story.step == (if n > 0 && steps != [] then None else st.story.step)
      && r.issued == st.issued + Cells(n, |steps|)
      && r.calls == st.calls + RowPairs(st.story.scenario, RowRequests(st.story, st.story.examples.value, steps, n),
                                        |steps|, st.skippedAnIssue, st.issued)
      && SameFrame(r, st)
  {
    if n > 0 {
      SimulateRowsEffect(st, steps, n - 1);
      var prev := SimulateRows(st, steps, n - 1);
      SimulateStepsEffect(SelectRow(prev, n - 1), steps);
      RowStep(st, steps, n, prev, SimulateRows(st, steps, n));
    }
  }

  /** The induction step of SimulateRowsEffect: row n - 1 run after the rows before it. */
  lemma {:induction false} RowStep(st: State, steps: seq<string>, n: nat, prev: State, r: State)
    requires st.story.examples.Some? && n > 0
    requires SameScenario(prev.story, st.story)
    requires prev.story.examples == (if n == 1 then st.story.examples else Some(st.story.examples.value.(current := n - 2)))
    requires prev.story.step == (if n > 1 && steps != [] then None else st.story.step)
    requires prev.issued == st.issued + Cells(n - 1, |steps|)
    requires prev.calls == st.calls + RowPairs(st.story.scenario, RowRequests(st.story, st.story.examples.value, steps, n - 1),
                                               |steps|, st.skippedAnIssue, st.issued)
    requires SameFrame(prev, st)
    requires var sel := SelectRow(prev, n - 1);
      && r.story == (if steps == [] then sel.story else sel.story.(step := None))
      && r.issued == sel.issued + |steps|
      && r.calls == sel.calls + SkippedPairs(sel.story.scenario, StepRequests(sel.story, steps), sel.skippedAnIssue, sel.issued)
      && SameFrame(r, sel)
    ensures SameScenario(r.story, st.story)
    ensures r.story.examples == Some(st.story.examples.value.(current := n - 1))
    ensures r.story.step == (if steps != [] then None else st.story.step)
    ensures r.issued == st.issued + Cells(n, |steps|)
    ensures r.calls == st.calls + RowPairs(st.story.scenario, RowRequests(st.story, st.story.examples.value, steps, n),
                                           |steps|, st.skippedAnIssue, st.issued)
    ensures SameFrame(r, st)
  {
    RowStepCalls(st, steps, n, prev, r);
  }

  /** The calls of the induction step: row n - 1's skipped steps follow the calls of the rows before it. */
  lemma {:induction false} RowStepCalls(st: State, steps: seq<string>, n: nat, prev: State, r: State)
    requires st.story.examples.Some? && n > 0
    requires SameScenario(prev.story, st.story)
    requires prev.story.examples == (if n == 1 then st.story.examples else Some(st.story.examples.value.(current := n - 2)))
    requires prev.issued == st.issued + Cells(n - 1, |steps|)
    requires prev.calls == st.calls + RowPairs(st.story.scenario, RowRequests(st.story, st.story.examples.value, steps, n - 1),
                                               |steps|, st.skippedAnIssue, st.issued)
    requires prev.skippedAnIssue == st.skippedAnIssue
    requires var sel := SelectRow(prev, n - 1);
      r.calls == sel.calls + SkippedPairs(sel.story.scenario, StepRequests(sel.story, steps), sel.skippedAnIssue, sel.issued)
    ensures r.calls == st.calls + RowPairs(st.story.scenario, RowRequests(st.story, st.story.examples.value, steps, n),
                                           |steps|, st.skippedAnIssue, st.issued)
  {
    var ex := st.story.examples.value;
    var sel := SelectRow(prev, n - 1);
    var row := RowStory(st.story, ex, n - 1);
    assert sel.story == row.(step := sel.story.step);
    StepRequestsIgnoreStep(row, steps, sel.story.step);
    RowRequestsPrefix(st.story, ex, steps, n);
    var rqs := StepRequests(row, steps);
    var next := st.issued + Cells(n - 1, |steps|);
    SamePairs(sel.story.scenario, st.story.scenario, StepRequests(sel.story, steps), rqs, sel.skippedAnIssue, st.skippedAnIssue, sel.issued, next);
    RowLogStep(st.calls, prev.calls, r.calls, st.story.scenario, RowRequests(st.story, ex, steps, n), RowRequests(st.story, ex, steps, n - 1),
               rqs, |steps|, st.skippedAnIssue, st.issued, next);
  }

  /**
   * scenarioNotAllowed with a non-empty table: the examples are
   * installed, rows × steps skipped steps go out in row-major order
   * (row r's requests named from row r), then the scenario is finished
   * SKIPPED and cleared.
   */
  lemma {:induction false} ScenarioNotAllowedWithExamples(st: State, sc: ScenarioDef)
    requires sc.table.Some? && |sc.table.value| > 0
    ensures var rows := sc.table.value;
      var ex := Examples(sc.steps, rows, 0);
      var table := RowRequests(st.story, ex, sc.steps, |rows|);
      var r := ScenarioNotAllowed(st, sc);
      && r.calls == st.calls + RowPairs(st.story.scenario, table, |sc.steps|, st.skippedAnIssue, st.issued)
                             + ScenarioEnd(st.story.scenario)
      && |RowPairs(st.story.scenario, table, |sc.steps|, st.skippedAnIssue, st.issued)| == 2 * Cells(|rows|, |sc.steps|)
      && r.issued == st.issued + Cells(|rows|, |sc.steps|)
      && r.story == st.story.(step := if sc.steps != [] then None else st.story.step,
                              scenario := None,
                              examples := Some(ex.(current := |rows| - 1)))
      && SameFrame(r, st)
  {
    var rows := sc.table.value;
    var ex := Examples(sc.steps, rows, 0);
    var st0 := BeforeExamples(st, sc.steps, rows);
    SimulateRowsEffect(st0, sc.steps, |rows|);
    RowRequestsIgnoreExamples(st.story, st0.story, ex, sc.steps, |rows|);
    var table := RowRequests(st.story, ex, sc.steps, |rows|);
    forall i | 0 <= i < |table| ensures |table[i]| == |sc.steps| {
    }
    RowPairsLength(st.story.scenario, table, |sc.steps|, st.skippedAnIssue, st.issued);
  }

  /**
   * The size of the fan-out: a scenario that is not allowed, with a
   * table of rows, starts rows × steps steps and sends two calls for
   * each, plus the scenario's finish.
   */
  lemma {:induction false} ScenarioNotAllowedCount(st: State, sc: ScenarioDef)
    requires sc.table.Some? && |sc.table.value| > 0
    ensures ScenarioNotAllowed(st, sc).issued == st.issued + |sc.table.value| * |sc.steps|
    ensures |ScenarioNotAllowed(st, sc).calls| ==
      |st.calls| + 2 * (|sc.table.value| * |sc.steps|) + (if st.story.scenario.Some? then 1 else 0)
  {
    ScenarioNotAllowedWithExamples(st, sc);
    CellsIsProduct(|sc.table.value|, |sc.steps|);
  }

  /** The row requests depend on the record only through its scenario and metas. */
  lemma {:induction false} RowRequestsIgnoreExamples(a: Story, b: Story, ex: Examples, steps: seq<string>, n: nat)
    requires b == a.(examples := b.examples)
    ensures RowRequests(a, ex, steps, n) == RowRequests(b, ex, steps, n)
  {
    forall i | 0 <= i < n ensures RowStory(a, ex, i) == RowStory(b, ex, i) {
    }
  }

  /**
   * scenarioNotAllowed without examples (no table, or an empty one):
   * each step skipped exactly once in order, then the scenario finished
   * SKIPPED and cleared.
   */
  lemma {:induction false} ScenarioNotAllowedWithoutExamples(st: State, sc: ScenarioDef)
    requires sc.table.None? || sc.table.value == []
    ensures var rqs := StepRequests(st.story, sc.steps);
      var r := ScenarioNotAllowed(st, sc);
      && r.calls == st.calls + SkippedPairs(st.story.scenario, rqs, st.skippedAnIssue, st.issued) + ScenarioEnd(st.story.scenario)
      && |SkippedPairs(st.story.scenario, rqs, st.skippedAnIssue, st.issued)| == 2 * |sc.steps|
      && r.issued == st.issued + |sc.steps|
      && r.story == st.story.(step := if sc.steps != [] then None else st.story.step, scenario := None)
      && SameFrame(r, st)
  {
    SimulateStepsEffect(st, sc.steps);
    SkippedPairsLength(st.story.scenario, StepRequests(st.story, sc.steps), st.skippedAnIssue, st.issued);
  }
  // ---------------------------------------------------------------------
  // Fresh handles
  // ---------------------------------------------------------------------

  /** beforeScenario keeps the handles fresh. */
  lemma {:induction false} BeforeScenarioKeepsFresh(st: State, sc: ScenarioDef)
    requires Fresh(st)
    ensures Fresh(BeforeScenario(st, sc))
  {
    var ws := st.(story := st.story.(scenarioMeta := Some(sc.meta)));
    FreshRecord(st, ws);
    StartScenarioKeepsFresh(ws, sc.title);
  }

  /** The examples hooks only touch the story record. */
  lemma {:induction false} ExamplesHooksKeepFresh(st: State, steps: seq<string>, rows: seq<map<string, string>>, i: nat)
    requires Fresh(st)
    ensures Fresh(BeforeExamples(st, steps, rows)) && Fresh(AfterExamples(st)) && Fresh(SelectRow(st, i))
  {
    FreshRecord(st, BeforeExamples(st, steps, rows));
    FreshRecord(st, AfterExamples(st));
    FreshRecord(st, SelectRow(st, i));
  }

  /** A simulated step keeps the handles fresh. */
  lemma {:induction false} SimulateStepKeepsFresh(st: State, step: string, status: Status)
    requires Fresh(st)
    ensures Fresh(SimulateStep(st, step, status))
  {
    StartStepKeepsFresh(st, step);
    FinishStepKeepsFresh(StartStep(st, step), status);
  }

  /** ignorable, notPerformed and failed keep the handles fresh. */
  lemma {:induction false} SkipAndFailKeepFresh(st: State, step: string, cause: string)
    requires Fresh(st)
    ensures Fresh(SkipStep(st, step))
    ensures Fresh(StepFailed(st, cause))
  {
    if st.story.step.None? {
      StartStepKeepsFresh(st, step);
      FinishStepKeepsFresh(StartStep(st, step), Skipped);
    } else {
      FinishStepKeepsFresh(st, Skipped);
    }
    var logged := st.(calls := st.calls + [LogError(cause)]);
    FreshAppend(st, [LogError(cause)], logged);
    FinishStepKeepsFresh(logged, Failed);
  }

  /** Skipping steps one by one keeps the handles fresh. */
  lemma {:induction false} SimulateStepsKeepFresh(st: State, steps: seq<string>)
    requires Fresh(st)
    ensures Fresh(SimulateSteps(st, steps))
  {
    if steps != [] {
      var n := |steps| - 1;
      SimulateStepsKeepFresh(st, steps[..n]);
      SimulateStepKeepsFresh(SimulateSteps(st, steps[..n]), steps[n], Skipped);
    }
  }

  /** Running example rows keeps the handles fresh. */
  lemma {:induction false} SimulateRowsKeepFresh(st: State, steps: seq<string>, n: nat)
    requires Fresh(st)
    ensures Fresh(SimulateRows(st, steps, n))
  {
    if n > 0 {
      SimulateRowsKeepFresh(st, steps, n - 1);
      var prev := SimulateRows(st, steps, n - 1);
      ExamplesHooksKeepFresh(prev, [], [], n - 1);
      SimulateStepsKeepFresh(SelectRow(prev, n - 1), steps);
    }
  }

  /** scenarioNotAllowed keeps the handles fresh, however many rows and steps it fans out into. */
  lemma {:induction false} ScenarioNotAllowedKeepsFresh(st: State, sc: ScenarioDef)
    requires Fresh(st)
    ensures Fresh(ScenarioNotAllowed(st, sc))
  {
    if sc.table.Some? && |sc.table.value| > 0 {
      var rows := sc.table.value;
      var st0 := BeforeExamples(st, sc.steps, rows);
      ExamplesHooksKeepFresh(st, sc.steps, rows, 0);
      SimulateRowsKeepFresh(st0, sc.steps, |rows|);
      FinishScenarioKeepsFresh(SimulateRows(st0, sc.steps, |rows|), Skipped);
    } else {
      SimulateStepsKeepFresh(st, sc.steps);
      FinishScenarioKeepsFresh(SimulateSteps(st, sc.steps), Skipped);
    }
  }
}
