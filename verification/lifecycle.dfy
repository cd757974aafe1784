/**
 * The item lifecycle of JBehaveUtils: the current story record with its
 * optional story, scenario and step handles, the stack of outer stories
 * that given (nested) stories push, the cache of started items, and the
 * calls made to the reporting backend. Every operation is a function
 * from the state before to the state after; the Context class in
 * Bridge runs them imperatively and is proved to agree.
 */
module Lifecycle {
  import opened Wrappers
  import opened Text
  import opened Metas
  import opened Placeholders

  /** A backend item id, as returned when an item is started; opaque to the bridge. */
  datatype Handle = Handle(id: nat)

  /** The item statuses the bridge sends. */
  datatype Status = Passed | Failed | Skipped

  datatype ItemType = StoryItem | ScenarioItem | StepItem

  /** Issue type attached to a SKIPPED step when skipped steps are not issues. */
  const NotIssue: string := "NOT_ISSUE"

  /** Where a new item hangs: at the launch root, or under an item (which may be null). */
  datatype Parent = Launch | Under(item: Option<Handle>)

  /** What the bridge sends when it starts an item (timestamps left out). */
  datatype StartRequest = StartRequest(
    name: string,
    itemType: ItemType,
    description: Option<string>,
    parameters: Option<seq<Parameter>>)

  /** One call to the backend: start an item (and the handle it returned), finish one, or upload an error. */
  datatype Call =
    | Start(parent: Parent, rq: StartRequest, handle: Handle)
    | Finish(item: Handle, status: Status, issue: Option<string>)
    | LogError(cause: string)

  /** The examples of the running scenario: its steps, its table rows and the row being run. */
  datatype Examples = Examples(steps: seq<string>, rows: seq<map<string, string>>, current: nat)
  {
    /** The values of the current row; a row past the table has none. */
    function Params(): map<string, string> {
      if current < |rows| then rows[current] else map[]
    }
  }

  /** The context record of one story (null references are None). */
  datatype Story = Story(
    storyId: Option<Handle>,
    scenario: Option<Handle>,
    step: Option<Handle>,
    storyMeta: Option<Meta>,
    scenarioMeta: Option<Meta>,
    examples: Option<Examples>)

  /** A freshly created story record. */
  const EmptyStory: Story := Story(None, None, None, None, None, None)

  /**
   * The whole bridge state: the current story, the stories it was nested
   * in (innermost last), the cache of started items, how many items the
   * backend has started so far (the next handle), every backend call in
   * order, and whether the launch counts skipped steps as issues.
   */
  datatype State = State(
    story: Story,
    parents: seq<Story>,
    cache: seq<Handle>,
    issued: nat,
    calls: seq<Call>,
    skippedAnIssue: bool)

  /** A story as JBehave hands it over: name and description text (either may be null), and meta. */
  datatype StoryDef = StoryDef(name: Option<string>, description: Option<string>, meta: Meta)

  /** Every item started in the log got a handle below n. */
  predicate StartedBelow(calls: seq<Call>, n: nat) {
    forall i :: 0 <= i < |calls| && calls[i].Start? ==> calls[i].handle.id < n
  }

  /** No two items started in the log share a handle. */
  predicate StartsDistinct(calls: seq<Call>) {
    forall i, j :: 0 <= i < j < |calls| && calls[i].Start? && calls[j].Start? ==> calls[i].handle != calls[j].handle
  }

  /**
   * The backend hands out fresh handles: every item started so far has a
   * handle below the counter, and no two of them share one.
   */
  predicate Fresh(st: State) {
    StartedBelow(st.calls, st.issued) && StartsDistinct(st.calls)
  }

  /**
   * The backend starts an item: the call is logged with the next handle,
   * which no item started before has, and the handles stay fresh.
   */
  function StartItem(st: State, parent: Parent, rq: StartRequest): (r: State)
    ensures r.calls == st.calls + [Start(parent, rq, Handle(st.issued))]
    ensures r == st.(issued := st.issued + 1, calls := r.calls)
    ensures Fresh(st) ==> forall i :: 0 <= i < |st.calls| && st.calls[i].Start? ==> st.calls[i].handle != Handle(st.issued)
    ensures Fresh(st) ==> Fresh(r)
  {
    st.(issued := st.issued + 1, calls := st.calls + [Start(parent, rq, Handle(st.issued))])
  }

  /**
   * The request of startStory; the description is set only when the
   * story's own is null or empty, and then begins with that text as
   * string concatenation renders it ("null" for null).
   */
  function StoryRequest(def: StoryDef): StartRequest {
    StartRequest(
      NormalizeName(def.name),
      StoryItem,
      if def.description.None? || def.description.value == "" then Some(Concatenated(def.description) + "\n" + MetaText(Some(def.meta)))
      else None,
      None)
  }

  /**
   * startStory: a given story starts under the open scenario (or, failing
   * that, under the current story) and becomes a new current story whose
   * parent is the old one; any other story starts at the root and reuses
   * the current record. Either way the record gets the new id and meta.
   */
  function StartStory(st: State, def: StoryDef, givenStory: bool): State {
    var h := Handle(st.issued);
    if givenStory then
      var parent := if st.story.scenario.Some? then st.story.scenario else st.story.storyId;
      StartItem(st, Under(parent), StoryRequest(def)).(
        story := EmptyStory.(storyId := Some(h), storyMeta := Some(def.meta)),
        parents := st.parents + [st.story])
    else
      StartItem(st, Launch, StoryRequest(def)).(
        story := st.story.(storyId := Some(h), storyMeta := Some(def.meta)))
  }

  /**
   * finishStory: nothing without a story id; otherwise the story is
   * finished PASSED, its id cleared, and an enclosing story becomes
   * current again.
   */
  function FinishStory(st: State): State {
    if st.story.storyId.None? then st
    else
      var calls := st.calls + [Finish(st.story.storyId.value, Passed, None)];
      if st.parents == [] then
        st.(story := st.story.(storyId := None), calls := calls)
      else
        st.(story := st.parents[|st.parents| - 1], parents := st.parents[..|st.parents| - 1], calls := calls)
  }

  /**
   * The request of startStep: a step of the running examples is named
   * "[index] " plus its name with the row's values substituted, and
   * carries the substituted parameters; any other step keeps its name
   * and is described by the story and scenario meta.
   */
  function StepRequest(story: Story, step: string): StartRequest {
    if story.examples.Some? && step in story.examples.value.steps then
      var ex := story.examples.value;
      var e := Expand(step, ex.Params());
      StartRequest(NormalizeName(Some("[" + NatToString(ex.current) + "] " + e.text)), StepItem, None, Some(e.used))
    else
      StartRequest(NormalizeName(Some(step)), StepItem, Some(JoinMetas([story.storyMeta, story.scenarioMeta])), None)
  }

  /** startStep: a step starts under the current scenario and becomes the current step. */
  function StartStep(st: State, step: string): State {
    StartItem(st, Under(st.story.scenario), StepRequest(st.story, step)).(
      story := st.story.(step := Some(Handle(st.issued))))
  }

  /** The issue sent with a finished step: NOT_ISSUE exactly for a skip that is not an issue. */
  function IssueFor(status: Status, skippedAnIssue: bool): (r: Option<string>)
    ensures r == Some(NotIssue) <==> status == Skipped && !skippedAnIssue
    ensures r.None? <==> !(status == Skipped && !skippedAnIssue)
  {
    if status == Skipped && !skippedAnIssue then Some(NotIssue) else None
  }

  /** finishStep: nothing without a current step; otherwise it is finished and cleared. */
  function FinishStep(st: State, status: Status): State {
    if st.story.step.None? then st
    else
      st.(story := st.story.(step := None),
          calls := st.calls + [Finish(st.story.step.value, status, IssueFor(status, st.skippedAnIssue))])
  }

  /** The values a scenario title may refer to: story meta, overridden by scenario meta. */
  function ScenarioMetaMap(story: Story): map<string, string> {
    MergeMetas([story.storyMeta, story.scenarioMeta])
  }

  /**
   * The scenario name as startScenario computes it: the title with meta
   * values substituted into its placeholders, normalised. (The parameter
   * list of the substitution is discarded.)
   */
  function ScenarioName(story: Story, title: string): string {
    NormalizeName(Some(Expand(title, ScenarioMetaMap(story)).text))
  }

  function ScenarioRequest(story: Story, title: string): StartRequest {
    StartRequest(ScenarioName(story, title), ScenarioItem, Some(JoinMetas([story.storyMeta, story.scenarioMeta])), None)
  }

  /** startScenario: a scenario starts under the current story and becomes the current scenario. */
  function StartScenario(st: State, title: string): State {
    StartItem(st, Under(st.story.storyId), ScenarioRequest(st.story, title)).(
      story := st.story.(scenario := Some(Handle(st.issued))))
  }

  /**
   * startScenario as written: the substitution appends to an immutable
   * empty list, so a title with a placeholder that names a meta key
   * throws (None) before anything is started.
   */
  function StartScenarioAsWritten(st: State, title: string): Option<State> {
    if Expand(title, ScenarioMetaMap(st.story)).used != [] then None
    else Some(StartScenario(st, title))
  }

  /** finishScenario: nothing without a current scenario; otherwise it is finished and cleared. */
  function FinishScenario(st: State, status: Status): State {
    if st.story.scenario.None? then st
    else
      st.(story := st.story.(scenario := None),
          calls := st.calls + [Finish(st.story.scenario.value, status, None)])
  }

  /** One finish call per item, in order. */
  function FinishAll(items: seq<Handle>, status: Status): seq<Call> {
    if items == [] then [] else FinishAll(items[..|items| - 1], status) + [Finish(items[|items| - 1], status, None)]
  }

  /** makeSureAllItemsFinished: every cached item is finished with the status, and the cache is drained. */
  function MakeSureAllItemsFinished(st: State, status: Status): State {
    st.(cache := [], calls := st.calls + FinishAll(st.cache, status))
  }

  // ---------------------------------------------------------------------
  // Properties of the lifecycle
  // ---------------------------------------------------------------------

  /**
   * A given story is nested: it starts under the open scenario if there
   * is one, else under the current story, and finishing it restores the
   * outer story record exactly, after one start and one PASSED finish.
   */
  lemma {:induction false} GivenStoryRoundTrip(st: State, def: StoryDef)
    ensures var mid := StartStory(st, def, true);
      && mid.parents == st.parents + [st.story]
      && mid.story == EmptyStory.(storyId := Some(Handle(st.issued)), storyMeta := Some(def.meta))
    ensures var parent := if st.story.scenario.Some? then st.story.scenario else st.story.storyId;
      FinishStory(StartStory(st, def, true)) ==
      st.(issued := st.issued + 1,
          calls := st.calls + [Start(Under(parent), StoryRequest(def), Handle(st.issued)), Finish(Handle(st.issued), Passed, None)])
  {
    var mid := StartStory(st, def, true);
    assert mid.parents[..|mid.parents| - 1] == st.parents;
  }

  /**
   * A top-level story starts at the launch root in the same record: after
   * it finishes, only its id is cleared; its meta and the rest of the
   * record stay.
   */
  lemma {:induction false} TopStoryRoundTrip(st: State, def: StoryDef)
    requires st.parents == []
    ensures FinishStory(StartStory(st, def, false)) ==
      st.(story := st.story.(storyId := None, storyMeta := Some(def.meta)),
          issued := st.issued + 1,
          calls := st.calls + [Start(Launch, StoryRequest(def), Handle(st.issued)), Finish(Handle(st.issued), Passed, None)])
  {
  }

  /** finishStory without a story id changes nothing, so a second finish is a no-op. */
  lemma {:induction false} FinishStoryWithoutId(st: State)
    requires st.story.storyId.None? || st.parents == []
    ensures st.story.storyId.None? ==> FinishStory(st) == st
    ensures FinishStory(st).story.storyId.None?
    ensures FinishStory(FinishStory(st)) == FinishStory(st)
  {
  }

  /**
   * startStory fills in the description only when the story's own is
   * null or empty: a newline and the meta text, after "null" for a null
   * description. A story with a description of its own gets none.
   */
  lemma {:induction false} StoryDescription(def: StoryDef)
    ensures StoryRequest(def).description.Some? <==> def.description.None? || def.description.value == ""
    ensures def.description == Some("") ==> StoryRequest(def).description == Some("\n" + MetaText(Some(def.meta)))
    ensures def.description.None? ==> StoryRequest(def).description == Some("null\n" + MetaText(Some(def.meta)))
    ensures StoryRequest(def).name == NormalizeName(def.name)
  {
    var meta := MetaText(Some(def.meta));
    if def.description == Some("") {
      assert Concatenated(def.description) == "";
      assert "" + "\n" + meta == "\n" + meta;
    } else if def.description.None? {
      assert Concatenated(def.description) == "null";
      assert "null" + "\n" + meta == "null\n" + meta;
    }
  }

  /**
   * finishStep: without an open step nothing happens; otherwise exactly
   * one finish of that step is sent, with NOT_ISSUE exactly when the
   * status is SKIPPED and skipped steps are not issues, and the step is
   * cleared. A second finish is therefore a no-op.
   */
  lemma {:induction false} FinishStepEffect(st: State, status: Status)
    ensures st.story.step.None? ==> FinishStep(st, status) == st
    ensures st.story.step.Some? ==>
      && FinishStep(st, status).calls == st.calls + [Finish(st.story.step.value, status, IssueFor(status, st.skippedAnIssue))]
      && FinishStep(st, status).story == st.story.(step := None)
    ensures FinishStep(st, status).story.step.None?
    ensures FinishStep(FinishStep(st, status), status) == FinishStep(st, status)
    ensures FinishStep(st, status).issued == st.issued && FinishStep(st, status).cache == st.cache
  {
  }

  /**
   * finishScenario: without an open scenario nothing happens; otherwise
   * one finish with the status (never an issue) and the scenario is cleared.
   */
  lemma {:induction false} FinishScenarioEffect(st: State, status: Status)
    ensures st.story.scenario.None? ==> FinishScenario(st, status) == st
    ensures st.story.scenario.Some? ==>
      FinishScenario(st, status).calls == st.calls + [Finish(st.story.scenario.value, status, None)]
    ensures FinishScenario(st, status).story == st.story.(scenario := None)
  {
  }

  /** A started step hangs under the current scenario and replaces any step still open. */
  lemma {:induction false} StartStepEffect(st: State, step: string)
    ensures StartStep(st, step).calls == st.calls + [Start(Under(st.story.scenario), StepRequest(st.story, step), Handle(st.issued))]
    ensures StartStep(st, step).story == st.story.(step := Some(Handle(st.issued)))
    ensures StartStep(st, step).issued == st.issued + 1
  {
  }

  /**
   * A step of the running examples is named after the row index and
   * carries the parameters substituted from the current row; any other
   * step is described by the story and scenario meta, space-separated.
   */
  lemma {:induction false} StepRequestShape(story: Story, step: string)
    ensures var rq := StepRequest(story, step);
      && rq.itemType == StepItem
      && 0 < |rq.name| <= MaxNameLength
      && (story.examples.Some? && step in story.examples.value.steps ==>
            && rq.description.None?
            && rq.parameters == Some(Expand(step, story.examples.value.Params()).used)
            && IsPrefix(rq.name, "[" + NatToString(story.examples.value.current) + "] " + Expand(step, story.examples.value.Params()).text))
      && (!(story.examples.Some? && step in story.examples.value.steps) ==>
            && rq.parameters.None?
            && rq.description == Some(MetaText(story.storyMeta) + " " + MetaText(story.scenarioMeta))
            && rq.name == NormalizeName(Some(step)))
  {
  }

  /** makeSureAllItemsFinished sends exactly one finish per cached item, in cache order. */
  lemma {:induction false} FinishAllInOrder(items: seq<Handle>, status: Status)
    ensures |FinishAll(items, status)| == |items|
    ensures forall i :: 0 <= i < |items| ==> FinishAll(items, status)[i] == Finish(items[i], status, None)
  {
    if items != [] {
      FinishAllInOrder(items[..|items| - 1], status);
    }
  }

  /** A placeholder key made of plain characters: one token of its own. */
  predicate PlainKey(k: string) {
    forall i :: 0 <= i < |k| ==> k[i] != '>' && !IsLineTerminator(k[i])
  }

  /**
   * A title that is one placeholder of a meta key: startScenario as
   * written throws, while the corrected one names the scenario after
   * the meta value.
   */
  lemma {:induction false} ScenarioTitleWithMetaKey(st: State, k: string)
    requires PlainKey(k) && k in ScenarioMetaMap(st.story)
    ensures StartScenarioAsWritten(st, "<" + k + ">").None?
    ensures ScenarioName(st.story, "<" + k + ">") == NormalizeName(Some(ScenarioMetaMap(st.story)[k]))
  {
    var s := "<" + k + ">";
    var row := ScenarioMetaMap(st.story);
    var t := Token(0, |k| + 1);
    assert Plain(s, 1, |k| + 1) by {
      forall i | 1 <= i < |k| + 1 ensures s[i] != '>' && !IsLineTerminator(s[i]) {
        assert s[i] == k[i - 1];
      }
    }
    FindTokenAt(s, 0, 0, |k| + 1);
    assert KeyOf(s, t) == k;
    FindTokenNone(s, |s|);
    assert ExpandText(s, row, 0) == s[0..0] + row[k] + ExpandText(s, row, |s|);
    assert Keys(s, 0) == [k] + Keys(s, |s|);
  }

  /**
   * The corrected startScenario on such a title: exactly one start, under
   * the current story, of a scenario named after the meta value.
   */
  lemma {:induction false} ScenarioNamedAfterMeta(st: State, k: string)
    requires PlainKey(k) && k in ScenarioMetaMap(st.story)
    ensures StartScenario(st, "<" + k + ">").calls ==
      st.calls + [Start(Under(st.story.storyId),
                        StartRequest(NormalizeName(Some(ScenarioMetaMap(st.story)[k])), ScenarioItem,
                                     Some(JoinMetas([st.story.storyMeta, st.story.scenarioMeta])), None),
                        Handle(st.issued))]
    ensures StartScenario(st, "<" + k + ">").story.scenario == Some(Handle(st.issued))
  {
    ScenarioTitleWithMetaKey(st, k);
  }

  /** Where the title has no placeholder naming a meta key, both versions agree. */
  lemma {:induction false} ScenarioAsWrittenAgrees(st: State, title: string)
    requires forall p :: 0 <= p < |title| ==> Unmatched(title, ScenarioMetaMap(st.story), p)
    ensures StartScenarioAsWritten(st, title) == Some(StartScenario(st, title))
    ensures ScenarioName(st.story, title) == NormalizeName(Some(title))
  {
    ExpandWithoutKnownKeys(title, ScenarioMetaMap(st.story), 0);
  }

  /** A started scenario hangs under the current story and is described by both metas. */
  lemma {:induction false} StartScenarioEffect(st: State, title: string)
    ensures StartScenario(st, title).calls ==
      st.calls + [Start(Under(st.story.storyId), ScenarioRequest(st.story, title), Handle(st.issued))]
    ensures ScenarioRequest(st.story, title).description == Some(MetaText(st.story.storyMeta) + " " + MetaText(st.story.scenarioMeta))
    ensures StartScenario(st, title).story == st.story.(scenario := Some(Handle(st.issued)))
  {
  }
  // ---------------------------------------------------------------------
  // Fresh handles
  // ---------------------------------------------------------------------

  /** Calls that start nothing, with the counter unchanged, keep the handles fresh. */
  lemma {:induction false} FreshAppend(st: State, extra: seq<Call>, r: State)
    requires Fresh(st)
    requires forall i :: 0 <= i < |extra| ==> !extra[i].Start?
    requires r.calls == st.calls + extra && r.issued == st.issued
    ensures Fresh(r)
  {
    assert forall i :: |st.calls| <= i < |r.calls| ==> r.calls[i] == extra[i - |st.calls|];
  }

  /** Freshness depends only on the log and the counter. */
  lemma {:induction false} FreshRecord(a: State, b: State)
    requires Fresh(a) && b.calls == a.calls && b.issued == a.issued
    ensures Fresh(b)
  {
  }

  /** startStory keeps the handles fresh, for a given story and a top-level one. */
  lemma {:induction false} StartStoryKeepsFresh(st: State, def: StoryDef, givenStory: bool)
    requires Fresh(st)
    ensures Fresh(StartStory(st, def, givenStory))
  {
    var parent := if givenStory then Under(if st.story.scenario.Some? then st.story.scenario else st.story.storyId) else Launch;
    FreshRecord(StartItem(st, parent, StoryRequest(def)), StartStory(st, def, givenStory));
  }

  /** finishStory keeps the handles fresh. */
  lemma {:induction false} FinishStoryKeepsFresh(st: State)
    requires Fresh(st)
    ensures Fresh(FinishStory(st))
  {
    if st.story.storyId.Some? {
      FreshAppend(st, [Finish(st.story.storyId.value, Passed, None)], FinishStory(st));
    }
  }

  /** startStep keeps the handles fresh. */
  lemma {:induction false} StartStepKeepsFresh(st: State, step: string)
    requires Fresh(st)
    ensures Fresh(StartStep(st, step))
  {
    FreshRecord(StartItem(st, Under(st.story.scenario), StepRequest(st.story, step)), StartStep(st, step));
  }

  /** finishStep keeps the handles fresh. */
  lemma {:induction false} FinishStepKeepsFresh(st: State, status: Status)
    requires Fresh(st)
    ensures Fresh(FinishStep(st, status))
  {
    if st.story.step.Some? {
      FreshAppend(st, [Finish(st.story.step.value, status, IssueFor(status, st.skippedAnIssue))], FinishStep(st, status));
    }
  }

  /** startScenario keeps the handles fresh. */
  lemma {:induction false} StartScenarioKeepsFresh(st: State, title: string)
    requires Fresh(st)
    ensures Fresh(StartScenario(st, title))
  {
    FreshRecord(StartItem(st, Under(st.story.storyId), ScenarioRequest(st.story, title)), StartScenario(st, title));
  }

  /** finishScenario keeps the handles fresh. */
  lemma {:induction false} FinishScenarioKeepsFresh(st: State, status: Status)
    requires Fresh(st)
    ensures Fresh(FinishScenario(st, status))
  {
    if st.story.scenario.Some? {
      FreshAppend(st, [Finish(st.story.scenario.value, status, None)], FinishScenario(st, status));
    }
  }

  /** makeSureAllItemsFinished keeps the handles fresh: it only finishes items. */
  lemma {:induction false} MakeSureAllItemsFinishedKeepsFresh(st: State, status: Status)
    requires Fresh(st)
    ensures Fresh(MakeSureAllItemsFinished(st, status))
  {
    FinishAllInOrder(st.cache, status);
    FreshAppend(st, FinishAll(st.cache, status), MakeSureAllItemsFinished(st, status));
  }

  /**
   * In a log of fresh handles, the step just started is the only item
   * ever started with its handle, so finishing the current step finishes
   * exactly that item.
   */
  lemma {:induction false} StartedStepIsUnique(st: State, step: string)
    requires Fresh(st)
    ensures var r := StartStep(st, step);
      && r.story.step == Some(Handle(st.issued))
      && r.calls[|st.calls|] == Start(Under(st.story.scenario), StepRequest(st.story, step), Handle(st.issued))
      && forall i :: 0 <= i < |r.calls| && r.calls[i].Start? && r.calls[i].handle == Handle(st.issued) ==> i == |st.calls|
  {
  }
}
