/**
 * The recipe edit form (`RecipeEditForm`). Each handler computes the next value of
 * the edited recipe from the current one; the form hands it to the detail view's
 * state setter (`RecipeDetail.DetailView.HandleFormEvent`). Saving builds the record
 * passed to `onSaveChanges`.
 */
module RecipeEdit {
  import opened Wrappers
  import opened JsString
  import opened JsArray
  import opened Records

  /** Timers are index-aligned with processes: `timers[i]` belongs to step `i`. */
  predicate Aligned(r: Recipe) {
    |r.timers| == |r.processes|
  }

  /** `handleInputChange` on the one named input, the title. */
  function HandleInputChange(r: Recipe, value: string): (r': Recipe)
    ensures r'.title == value && r'.(title := r.title) == r
  {
    r.(title := value)
  }

  function HandleAddIngredient(r: Recipe): (r': Recipe)
    ensures |r'.ingredients| == |r.ingredients| + 1 && r'.ingredients[|r.ingredients|] == ""
    ensures r'.ingredients[..|r.ingredients|] == r.ingredients
    ensures r'.(ingredients := r.ingredients) == r
  {
    r.(ingredients := r.ingredients + [""])
  }

  function HandleIngredientChange(r: Recipe, index: nat, value: string): (r': Recipe)
    ensures index < |r.ingredients| ==> r'.ingredients == r.ingredients[index := value]
    ensures |r'.ingredients| == (if index < |r.ingredients| then |r.ingredients| else index + 1) && r'.ingredients[index] == value
    ensures r'.(ingredients := r.ingredients) == r
  {
    r.(ingredients := Assigned(r.ingredients, index, value, ""))
  }

  function HandleDeleteIngredient(r: Recipe, index: nat): (r': Recipe)
    ensures r'.ingredients == if index < |r.ingredients|
      then r.ingredients[..index] + r.ingredients[index + 1..] else r.ingredients
    ensures r'.(ingredients := r.ingredients) == r
  {
    WithoutIsSplice(r.ingredients, index);
    r.(ingredients := Without(r.ingredients, index))
  }

  function HandleAddTag(r: Recipe): (r': Recipe)
    ensures |r'.tags| == |r.tags| + 1 && r'.tags[|r.tags|] == ""
    ensures r'.tags[..|r.tags|] == r.tags
    ensures r'.(tags := r.tags) == r
  {
    r.(tags := r.tags + [""])
  }

  function HandleTagChange(r: Recipe, index: nat, value: string): (r': Recipe)
    ensures index < |r.tags| ==> r'.tags == r.tags[index := value]
    ensures |r'.tags| == (if index < |r.tags| then |r.tags| else index + 1) && r'.tags[index] == value
    ensures r'.(tags := r.tags) == r
  {
    r.(tags := Assigned(r.tags, index, value, ""))
  }

  function HandleDeleteTag(r: Recipe, index: nat): (r': Recipe)
    ensures r'.tags == if index < |r.tags| then r.tags[..index] + r.tags[index + 1..] else r.tags
    ensures r'.(tags := r.tags) == r
  {
    WithoutIsSplice(r.tags, index);
    r.(tags := Without(r.tags, index))
  }

  /** A new step comes with a 0-second timer, so alignment is kept. */
  function HandleAddProcess(r: Recipe): (r': Recipe)
    ensures |r'.processes| == |r.processes| + 1 && r'.processes[|r.processes|] == ""
    ensures r'.processes[..|r.processes|] == r.processes
    ensures |r'.timers| == |r.timers| + 1 && r'.timers[|r.timers|] == 0
    ensures r'.timers[..|r.timers|] == r.timers
    ensures Aligned(r) ==> Aligned(r') && r'.timers[|r.processes|] == 0
    ensures r'.(processes := r.processes, timers := r.timers) == r
  {
    r.(processes := r.processes + [""], timers := r.timers + [0])
  }

  /** Editing a step's text leaves the timers alone. */
  function HandleProcessChange(r: Recipe, index: nat, value: string): (r': Recipe)
    ensures index < |r.processes| ==> r'.processes == r.processes[index := value]
    ensures |r'.processes| == (if index < |r.processes| then |r.processes| else index + 1) && r'.processes[index] == value && r'.timers == r.timers
    ensures r'.(processes := r.processes) == r
  {
    r.(processes := Assigned(r.processes, index, value, ""))
  }

  /** Deleting step `index` also deletes the timer at the same index. */
  function HandleDeleteProcess(r: Recipe, index: nat): (r': Recipe)
    ensures r'.processes == if index < |r.processes|
      then r.processes[..index] + r.processes[index + 1..] else r.processes
    ensures r'.timers == if index < |r.timers|
      then r.timers[..index] + r.timers[index + 1..] else r.timers
    ensures Aligned(r) ==> Aligned(r')
    ensures r'.(processes := r.processes, timers := r.timers) == r
  {
    WithoutIsSplice(r.processes, index);
    WithoutIsSplice(r.timers, index);
    r.(processes := Without(r.processes, index), timers := Without(r.timers, index))
  }

  /** `parseInt(text) || 0`: NaN (and zero) give 0. */
  function TimerValue(text: string): (n: int)
    ensures ParseInt(text).None? ==> n == 0
    ensures ParseInt(text).Some? ==> n == ParseInt(text).value
  {
    match ParseInt(text)
    case None => 0
    case Some(v) => v
  }

  /** Stores the parsed timer at `index`; every other timer is kept. */
  function HandleTimerChange(r: Recipe, index: nat, text: string): (r': Recipe)
    ensures |r'.timers| == if index < |r.timers| then |r.timers| else index + 1
    ensures r'.timers[index] == TimerValue(text)
    ensures IsBlank(text) ==> r'.timers[index] == 0
    ensures forall j :: 0 <= j < |r.timers| && j != index ==> r'.timers[j] == r.timers[j]
    ensures r'.(timers := r.timers) == r
  {
    ParseIntOfBlank(text);
    r.(timers := Assigned(r.timers, index, TimerValue(text), 0))
  }

  /** A timer typed as a number is stored as that number. */
  lemma TimerChangeReadsNumber(r: Recipe, index: nat, seconds: int)
    ensures HandleTimerChange(r, index, IntToString(seconds)).timers[index] == seconds
  {
    ParseIntOfIntToString(seconds);
  }

  /** The history entry written by a save: the values being saved, labelled with the
      version number they are saved under before the bump. */
  function Snapshot(r: Recipe, timestamp: string): (v: Version)
    ensures v.version == r.version && v.timestamp == timestamp
    ensures v.title == r.title && v.tags == r.tags && v.ingredients == r.ingredients
    ensures v.processes == r.processes && v.timers == Some(r.timers)
    ensures v.activeVersion.None? && !IsActive(v)
  {
    Version(r.version, timestamp, r.title, r.tags, r.ingredients, r.processes, Some(r.timers), None)
  }

  /** `handleSave`: the record given to `onSaveChanges`. The version goes up by one
      and exactly one entry is appended to the history (a missing history counts as
      empty); nothing else changes. */
  function HandleSave(r: Recipe, timestamp: string): (r': Recipe)
    ensures r'.version == r.version + 1
    ensures r'.versionHistory.Some?
    ensures var h := r.versionHistory.GetOr([]);
      |r'.versionHistory.value| == |h| + 1
      && r'.versionHistory.value[..|h|] == h
      && r'.versionHistory.value[|h|] == Snapshot(r, timestamp)
    ensures r.versionHistory.None? ==> r'.versionHistory == Some([Snapshot(r, timestamp)])
    ensures r'.(version := r.version, versionHistory := r.versionHistory) == r
  {
    var h := r.versionHistory.GetOr([]);
    assert (h + [Snapshot(r, timestamp)])[..|h|] == h;
    r.(version := r.version + 1, versionHistory := Some(h + [Snapshot(r, timestamp)]))
  }

  // ---- the events the form's controls raise

  datatype FormEvent =
    | TitleTyped(value: string)
    | AddIngredientClicked
    | IngredientTyped(index: nat, value: string)
    | DeleteIngredientClicked(index: nat)
    | AddTagClicked
    | TagTyped(index: nat, value: string)
    | DeleteTagClicked(index: nat)
    | AddProcessClicked
    | ProcessTyped(index: nat, value: string)
    | DeleteProcessClicked(index: nat)
    | TimerTyped(index: nat, text: string)

  /** The handler each control calls. No control changes the id, the version or
      the history. */
  function Apply(r: Recipe, e: FormEvent): (r': Recipe)
    ensures r'.id == r.id && r'.version == r.version && r'.versionHistory == r.versionHistory
  {
    match e
    case TitleTyped(v) => HandleInputChange(r, v)
    case AddIngredientClicked => HandleAddIngredient(r)
    case IngredientTyped(i, v) => HandleIngredientChange(r, i, v)
    case DeleteIngredientClicked(i) => HandleDeleteIngredient(r, i)
    case AddTagClicked => HandleAddTag(r)
    case TagTyped(i, v) => HandleTagChange(r, i, v)
    case DeleteTagClicked(i) => HandleDeleteTag(r, i)
    case AddProcessClicked => HandleAddProcess(r)
    case ProcessTyped(i, v) => HandleProcessChange(r, i, v)
    case DeleteProcessClicked(i) => HandleDeleteProcess(r, i)
    case TimerTyped(i, t) => HandleTimerChange(r, i, t)
  }

  /** The index an event carries is one the form renders: list rows come from
      mapping over that list, and timer inputs sit under the process rows. */
  predicate Rendered(r: Recipe, e: FormEvent) {
    match e
    case IngredientTyped(i, _) => i < |r.ingredients|
    case DeleteIngredientClicked(i) => i < |r.ingredients|
    case TagTyped(i, _) => i < |r.tags|
    case DeleteTagClicked(i) => i < |r.tags|
    case ProcessTyped(i, _) => i < |r.processes|
    case DeleteProcessClicked(i) => i < |r.processes|
    case TimerTyped(i, _) => i < |r.processes|
    case _ => true
  }

  /** Every rendered control keeps the timers aligned with the processes. */
  lemma ApplyKeepsAlignment(r: Recipe, e: FormEvent)
    requires Aligned(r) && Rendered(r, e)
    ensures Aligned(Apply(r, e))
  {
  }

  /** Rendered controls never grow a list by typing: list lengths change only by
      the add and delete buttons. */
  lemma TypingKeepsLengths(r: Recipe, e: FormEvent)
    requires Aligned(r) && Rendered(r, e)
    requires e.TitleTyped? || e.IngredientTyped? || e.TagTyped? || e.ProcessTyped? || e.TimerTyped?
    ensures var r' := Apply(r, e);
      |r'.ingredients| == |r.ingredients| && |r'.tags| == |r.tags|
      && |r'.processes| == |r.processes| && |r'.timers| == |r.timers|
  {
  }

  /** Deleting the step just added restores the recipe, timers included, when the
      timers were aligned; otherwise the delete removes a different timer. */
  lemma DeleteUndoesAddProcess(r: Recipe)
    requires Aligned(r)
    ensures HandleDeleteProcess(HandleAddProcess(r), |r.processes|) == r
  {
    WithoutLast(r.processes, "");
    WithoutLast(r.timers, 0);
  }

  lemma DeleteUndoesAddIngredient(r: Recipe)
    ensures HandleDeleteIngredient(HandleAddIngredient(r), |r.ingredients|) == r
  {
    WithoutLast(r.ingredients, "");
  }

  lemma DeleteUndoesAddTag(r: Recipe)
    ensures HandleDeleteTag(HandleAddTag(r), |r.tags|) == r
  {
    WithoutLast(r.tags, "");
  }

  /** Typing back the old text undoes an edit of a rendered row. */
  lemma ChangeUndo(r: Recipe, index: nat, value: string)
    ensures index < |r.ingredients| ==>
      HandleIngredientChange(HandleIngredientChange(r, index, value), index, r.ingredients[index]) == r
    ensures index < |r.tags| ==>
      HandleTagChange(HandleTagChange(r, index, value), index, r.tags[index]) == r
    ensures index < |r.processes| ==>
      HandleProcessChange(HandleProcessChange(r, index, value), index, r.processes[index]) == r
  {
  }

  // ---- sessions of edits and saves

  datatype Step = Edit(event: FormEvent) | Save(timestamp: string)

  function Run(r: Recipe, steps: seq<Step>): Recipe
    decreases |steps|
  {
    if steps == [] then r
    else
      var next := match steps[0]
        case Edit(e) => Apply(r, e)
        case Save(t) => HandleSave(r, t);
      Run(next, steps[1..])
  }

  function SaveCount(steps: seq<Step>): nat {
    if steps == [] then 0 else (if steps[0].Save? then 1 else 0) + SaveCount(steps[1..])
  }

  /** The history is append-only: over any session, the earlier history is a prefix
      of the later one, each save adds one entry, and the version number goes up by
      exactly the number of saves. */
  lemma {:induction false} RunHistoryAppendOnly(r: Recipe, steps: seq<Step>)
    ensures var r' := Run(r, steps);
      var h := r.versionHistory.GetOr([]);
      var h' := r'.versionHistory.GetOr([]);
      |h'| == |h| + SaveCount(steps) && h'[..|h|] == h
      && r'.version == r.version + SaveCount(steps) && r'.id == r.id
    decreases |steps|
  {
    if steps != [] {
      var next := match steps[0]
        case Edit(e) => Apply(r, e)
        case Save(t) => HandleSave(r, t);
      RunHistoryAppendOnly(next, steps[1..]);
      var h := r.versionHistory.GetOr([]);
      var hn := next.versionHistory.GetOr([]);
      var h' := Run(r, steps).versionHistory.GetOr([]);
      assert hn[..|h|] == h;
      assert h'[..|hn|] == hn;
      assert h'[..|h|] == hn[..|h|];
    }
  }
}
