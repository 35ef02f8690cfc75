/**
 * The add component (`RecipeAdd`): the entry form plus a submit that hands the new
 * recipe to the `onAddRecipe` callback of its parent. The form itself is
 * `DraftForm`; this module adds the payload.
 */
module RecipeAdd {
  import opened Wrappers
  import opened JsString
  import opened DraftForm

  /** The object passed to `onAddRecipe`. */
  datatype NewRecipe = NewRecipe(
    title: string,
    tags: seq<string>,
    ingredients: seq<string>,
    processes: seq<string>,
    timers: seq<int>,
    timestamp: string)

  /** `handleSubmit`: `None` when the submit is refused (the callback is not
      called), otherwise the payload. `timestamp` stands for
      `new Date().toISOString()`. The form is not cleared either way. */
  function HandleSubmit(d: Draft, timestamp: string): (r: Option<NewRecipe>)
    ensures r.Some? <==> !IsBlank(d.title) && |d.tags| > 0
    ensures r.Some? ==> r.value.title == d.title && r.value.tags == d.tags
    ensures r.Some? ==> r.value.ingredients == d.ingredients && r.value.processes == d.processes
    ensures r.Some? ==> r.value.timestamp == timestamp
    ensures r.Some? ==> r.value.timers == []
  {
    if Trim(d.title) == "" || |d.tags| == 0 then None
    else Some(NewRecipe(d.title, d.tags, d.ingredients, d.processes, [], timestamp))
  }

  /** A draft built from a blank form by any sequence of user actions and then
      accepted hands over a title with visible text, at least one tag, tags that
      are trimmed, and ingredients and steps that are not blank. */
  lemma SubmittedPayloadIsClean(events: seq<DraftEvent>, timestamp: string)
    requires HandleSubmit(Run(Blank, events), timestamp).Some?
    ensures var p := HandleSubmit(Run(Blank, events), timestamp).value;
      !IsBlank(p.title) && |p.tags| > 0 &&
      CleanTags(p.tags) && NoBlank(p.ingredients) && NoBlank(p.processes)
  {
    RunKeepsClean(Blank, events);
  }

  /** The payload has one timer list for no steps: whenever the recipe has a step,
      the timers do not line up with the steps. */
  lemma SubmittedTimersMisaligned(d: Draft, timestamp: string)
    requires HandleSubmit(d, timestamp).Some? && |d.processes| > 0
    ensures |HandleSubmit(d, timestamp).value.timers| != |HandleSubmit(d, timestamp).value.processes|
  {
  }
}
