/**
 * The running bridge: the JBehaveContext story record, the stack of outer
 * stories, the cache of started items and the reporting backend, held in
 * one object whose methods do what the static stateful operations of
 * JBehaveUtils do, step by step. Each method is proved to move the
 * object's abstract state exactly as the matching Lifecycle function
 * says; the properties of those functions are proved in Lifecycle.
 */
module Bridge {
  import opened Wrappers
  import opened Text
  import opened Metas
  import opened Placeholders
  import opened Lifecycle

  class Context {
    /** The current story record (JBehaveContext.getCurrentStory()). */
    var story: Story
    /** The stories the current one is nested in, innermost last (its parent chain). */
    var parents: seq<Story>
    /** The cache of started items that makeSureAllItemsFinished drains, oldest first. */
    var itemsCache: seq<Handle>
    /** How many items the backend has started: the next handle it returns. */
    var issued: nat
    /** Every call made to the backend, in order. */
    ghost var calls: seq<Call>
    /** The launch parameter: whether skipped steps count as issues. */
    const skippedAnIssue: bool

    ghost function Abs(): State
      reads this
    {
      State(story, parents, itemsCache, issued, calls, skippedAnIssue)
    }

    /** A fresh context: an empty story record, no outer stories, nothing sent yet. */
    constructor (skippedAnIssue: bool, cache: seq<Handle>)
      ensures Abs() == State(EmptyStory, [], cache, 0, [], skippedAnIssue)
      ensures Fresh(Abs())
    {
      story := EmptyStory;
      parents := [];
      itemsCache := cache;
      issued := 0;
      calls := [];
      this.skippedAnIssue := skippedAnIssue;
    }

    /** The backend's startTestItem: the next handle is returned and the call is logged. */
    method StartTestItem(parent: Parent, rq: StartRequest) returns (h: Handle)
      modifies this
      ensures h == Handle(old(issued))
      ensures Abs() == StartItem(old(Abs()), parent, rq)
      ensures Fresh(old(Abs())) ==> Fresh(Abs())
      ensures Fresh(old(Abs())) ==> forall i :: 0 <= i < |old(calls)| && old(calls)[i].Start? ==> old(calls)[i].handle != h
    {
      h := Handle(issued);
      calls := calls + [Start(parent, rq, h)];
      issued := issued + 1;
    }

    /** The backend's finishTestItem: only the call is logged. */
    method FinishTestItem(item: Handle, status: Status, issue: Option<string>)
      modifies this
      ensures Abs() == old(Abs()).(calls := old(calls) + [Finish(item, status, issue)])
    {
      calls := calls + [Finish(item, status, issue)];
    }

    /** sendStackTraceToRP: the cause is uploaded as an error log; nothing else changes. */
    method SendStackTrace(cause: string)
      modifies this
      ensures Abs() == old(Abs()).(calls := old(calls) + [LogError(cause)])
    {
      calls := calls + [LogError(cause)];
    }

    /** startStory. */
    method StartStory(def: StoryDef, givenStory: bool)
      modifies this
      ensures Abs() == Lifecycle.StartStory(old(Abs()), def, givenStory)
    {
      var metaText := JoinMetaMap(EntriesOf(def.meta));
      var description := if def.description.None? || def.description.value == "" then Some(Concatenated(def.description) + "\n" + metaText) else None;
      var rq := StartRequest(NormalizeName(def.name), StoryItem, description, None);
      if givenStory {
        var parent := if story.scenario.Some? then story.scenario else story.storyId;
        var id := StartTestItem(Under(parent), rq);
        parents := parents + [story];
        story := EmptyStory.(storyId := Some(id), storyMeta := Some(def.meta));
      } else {
        var id := StartTestItem(Launch, rq);
        story := story.(storyId := Some(id), storyMeta := Some(def.meta));
      }
    }

    /** finishStory. */
    method FinishStory()
      modifies this
      ensures Abs() == Lifecycle.FinishStory(old(Abs()))
    {
      if story.storyId.None? {
        return;
      }
      FinishTestItem(story.storyId.value, Passed, None);
      story := story.(storyId := None);
      if parents != [] {
        story := parents[|parents| - 1];
        parents := parents[..|parents| - 1];
      }
    }

    /** startStep. */
    method StartStep(step: string)
      modifies this
      ensures Abs() == Lifecycle.StartStep(old(Abs()), step)
    {
      var rq: StartRequest;
      if story.examples.Some? && step in story.examples.value.steps {
        var ex := story.examples.value;
        var text, parameters := ExpandParameters(step, ex.Params(), []);
        assert parameters == Expand(step, ex.Params()).used;
        rq := StartRequest(NormalizeName(Some("[" + NatToString(ex.current) + "] " + text)), StepItem, None, Some(parameters));
      } else {
        rq := StartRequest(NormalizeName(Some(step)), StepItem, Some(JoinMetas([story.storyMeta, story.scenarioMeta])), None);
      }
      assert rq == StepRequest(story, step);
      var id := StartTestItem(Under(story.scenario), rq);
      story := story.(step := Some(id));
    }

    /** finishStep. */
    method FinishStep(status: Status)
      modifies this
      ensures Abs() == Lifecycle.FinishStep(old(Abs()), status)
    {
      if story.step.None? {
        return;
      }
      FinishTestItem(story.step.value, status, IssueFor(status, skippedAnIssue));
      story := story.(step := None);
    }

    /**
     * startScenario, with the substituted parameters collected into a
     * list of their own rather than appended to an immutable one.
     */
    method StartScenario(title: string)
      modifies this
      ensures Abs() == Lifecycle.StartScenario(old(Abs()), title)
    {
      var metaMap := MetasToMap([story.storyMeta, story.scenarioMeta]);
      var text, _ := ExpandParameters(title, metaMap, []);
      var rq := StartRequest(NormalizeName(Some(text)), ScenarioItem, Some(JoinMetas([story.storyMeta, story.scenarioMeta])), None);
      var id := StartTestItem(Under(story.storyId), rq);
      story := story.(scenario := Some(id));
    }

    /** finishScenario(status); finishScenario() is this with PASSED. */
    method FinishScenario(status: Status)
      modifies this
      ensures Abs() == Lifecycle.FinishScenario(old(Abs()), status)
    {
      if story.scenario.None? {
        return;
      }
      FinishTestItem(story.scenario.value, status, None);
      story := story.(scenario := None);
    }

    /** makeSureAllItemsFinished: poll the cache until it is empty, finishing each item. */
    method MakeSureAllItemsFinished(status: Status)
      modifies this
      ensures Abs() == Lifecycle.MakeSureAllItemsFinished(old(Abs()), status)
    {
      ghost var items := itemsCache;
      ghost var done: nat := 0;
      while itemsCache != []
        invariant done <= |items| && itemsCache == items[done..]
        invariant calls == old(calls) + FinishAll(items[..done], status)
        invariant story == old(story) && parents == old(parents) && issued == old(issued)
        decreases |itemsCache|
      {
        var item := itemsCache[0];
        itemsCache := itemsCache[1..];
        FinishTestItem(item, status, None);
        assert items[..done + 1][..done] == items[..done];
        done := done + 1;
      }
      assert items[..done] == items;
    }
  }
}
