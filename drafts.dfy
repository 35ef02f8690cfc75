/**
 * The recipe entry form that the add component (`RecipeAdd`), the add page and the
 * edit page each declare with the same state and the same helpers: a title, three
 * text inputs (tag, ingredient, step) and the three lists they feed. A tag is
 * added trimmed; an ingredient or a step is added as typed. Each needs some
 * non-space text, and the input is cleared only when something was added.
 */
module DraftForm {
  import opened JsString
  import opened JsArray

  datatype Draft = Draft(
    title: string,
    tag: string,
    tags: seq<string>,
    ingredient: string,
    ingredients: seq<string>,
    process: string,
    processes: seq<string>)

  /** Every `useState` initial value. */
  const Blank: Draft := Draft("", "", [], "", [], "", [])

  /** `addTag`. */
  function AddTag(d: Draft): (d': Draft)
    ensures IsBlank(d.tag) ==> d' == d
    ensures !IsBlank(d.tag) ==> d'.tags == d.tags + [Trim(d.tag)] && d'.tag == ""
    ensures d'.(tag := d.tag, tags := d.tags) == d
  {
    if Trim(d.tag) != "" then d.(tags := d.tags + [Trim(d.tag)], tag := "") else d
  }

  /** `addIngredient`: the typed text, padding and all. */
  function AddIngredient(d: Draft): (d': Draft)
    ensures IsBlank(d.ingredient) ==> d' == d
    ensures !IsBlank(d.ingredient) ==> d'.ingredients == d.ingredients + [d.ingredient] && d'.ingredient == ""
    ensures d'.(ingredient := d.ingredient, ingredients := d.ingredients) == d
  {
    if Trim(d.ingredient) != "" then d.(ingredients := d.ingredients + [d.ingredient], ingredient := "") else d
  }

  /** `addProcess`: the typed text, padding and all. */
  function AddProcess(d: Draft): (d': Draft)
    ensures IsBlank(d.process) ==> d' == d
    ensures !IsBlank(d.process) ==> d'.processes == d.processes + [d.process] && d'.process == ""
    ensures d'.(process := d.process, processes := d.processes) == d
  {
    if Trim(d.process) != "" then d.(processes := d.processes + [d.process], process := "") else d
  }

  /** `removeTag(index)`: the tag at `index` is cut out, the rest keep their order. */
  function RemoveTag(d: Draft, index: int): (d': Draft)
    ensures d'.tags == if 0 <= index < |d.tags| then d.tags[..index] + d.tags[index + 1..] else d.tags
    ensures d'.(tags := d.tags) == d
  {
    WithoutIsSplice(d.tags, index);
    d.(tags := Without(d.tags, index))
  }

  /** `removeIngredient(index)`. */
  function RemoveIngredient(d: Draft, index: int): (d': Draft)
    ensures d'.ingredients ==
      if 0 <= index < |d.ingredients| then d.ingredients[..index] + d.ingredients[index + 1..] else d.ingredients
    ensures d'.(ingredients := d.ingredients) == d
  {
    WithoutIsSplice(d.ingredients, index);
    d.(ingredients := Without(d.ingredients, index))
  }

  /** `removeProcess(index)`. */
  function RemoveProcess(d: Draft, index: int): (d': Draft)
    ensures d'.processes ==
      if 0 <= index < |d.processes| then d.processes[..index] + d.processes[index + 1..] else d.processes
    ensures d'.(processes := d.processes) == d
  {
    WithoutIsSplice(d.processes, index);
    d.(processes := Without(d.processes, index))
  }

  /** The submit guard shared by all three forms: a title whose trim is not empty
      and at least one tag. It passes exactly when the title has a character that is
      not white space and the tag list is not empty. */
  function Accepts(d: Draft): (ok: bool)
    ensures ok <==> !AllSpace(d.title) && |d.tags| > 0
  {
    TrimEmptyIffAllSpace(d.title);
    !IsBlank(d.title) && |d.tags| > 0
  }

  /** What the user can do to the form: type into an input or click a button. */
  datatype DraftEvent =
    | TitleTyped(title: string)
    | TagTyped(tag: string)
    | IngredientTyped(ingredient: string)
    | ProcessTyped(process: string)
    | AddTagClicked
    | AddIngredientClicked
    | AddProcessClicked
    | RemoveTagClicked(tagIndex: int)
    | RemoveIngredientClicked(ingredientIndex: int)
    | RemoveProcessClicked(processIndex: int)

  /** One handler run to completion. */
  function Apply(d: Draft, e: DraftEvent): (d': Draft)
    ensures |d'.tags| <= |d.tags| + 1 && |d'.ingredients| <= |d.ingredients| + 1
    ensures |d'.processes| <= |d.processes| + 1
    ensures !e.TitleTyped? ==> d'.title == d.title
  {
    match e
    case TitleTyped(s) => d.(title := s)
    case TagTyped(s) => d.(tag := s)
    case IngredientTyped(s) => d.(ingredient := s)
    case ProcessTyped(s) => d.(process := s)
    case AddTagClicked => AddTag(d)
    case AddIngredientClicked => AddIngredient(d)
    case AddProcessClicked => AddProcess(d)
    case RemoveTagClicked(i) => RemoveTag(d, i)
    case RemoveIngredientClicked(i) => RemoveIngredient(d, i)
    case RemoveProcessClicked(i) => RemoveProcess(d, i)
  }

  function Run(d: Draft, events: seq<DraftEvent>): Draft
    decreases |events|
  {
    if events == [] then d else Run(Apply(d, events[0]), events[1..])
  }

  /** Non-empty, with a visible character at each end; such a text is its own
      trim (`UnpaddedIsTrimmed`). */
  predicate Unpadded(t: string) {
    t != "" && !IsSpace(t[0]) && !IsSpace(t[|t| - 1])
  }

  lemma UnpaddedIsTrimmed(t: string)
    requires Unpadded(t)
    ensures Trim(t) == t && !IsBlank(t)
  {
    TrimStartOfUnpadded(t);
    TrimEndOfUnpadded(t);
  }

  /** Every tag is trimmed and non-empty. */
  predicate CleanTags(tags: seq<string>) {
    forall t :: t in tags ==> Unpadded(t)
  }

  /** Every entry has some non-space text. */
  predicate NoBlank(list: seq<string>) {
    forall t :: t in list ==> !IsBlank(t)
  }

  /** What the helpers guarantee about the lists: every tag is trimmed and
      non-empty, every ingredient and step has some non-space text. */
  predicate Clean(d: Draft) {
    CleanTags(d.tags) && NoBlank(d.ingredients) && NoBlank(d.processes)
  }

  lemma AddTagKeepsClean(d: Draft)
    requires CleanTags(d.tags)
    ensures CleanTags(AddTag(d).tags)
  {
  }

  lemma RemoveKeepsCleanTags(tags: seq<string>, i: int)
    requires CleanTags(tags)
    ensures CleanTags(Without(tags, i))
  {
  }

  lemma RemoveKeepsNoBlank(list: seq<string>, i: int)
    requires NoBlank(list)
    ensures NoBlank(Without(list, i))
  {
  }

  /** No handler can put a blank entry or a padded tag into a list. */
  lemma ApplyKeepsClean(d: Draft, e: DraftEvent)
    requires Clean(d)
    ensures Clean(Apply(d, e))
  {
    match e
    case AddTagClicked => AddTagKeepsClean(d);
    case RemoveTagClicked(i) => RemoveKeepsCleanTags(d.tags, i);
    case RemoveIngredientClicked(i) => RemoveKeepsNoBlank(d.ingredients, i);
    case RemoveProcessClicked(i) => RemoveKeepsNoBlank(d.processes, i);
    case _ =>
  }

  /** Whatever the user does, starting from a clean form, the lists stay clean;
      in particular a form opened blank only ever holds clean lists. */
  lemma {:induction false} RunKeepsClean(d: Draft, events: seq<DraftEvent>)
    requires Clean(d)
    ensures Clean(Run(d, events))
    decreases |events|
  {
    if events != [] {
      ApplyKeepsClean(d, events[0]);
      RunKeepsClean(Apply(d, events[0]), events[1..]);
    }
  }

  /** Removing the last tag right after adding it gives back the tag list. */
  lemma RemoveUndoesAddTag(d: Draft)
    requires !IsBlank(d.tag)
    ensures RemoveTag(AddTag(d), |d.tags|).tags == d.tags
  {
    WithoutLast(d.tags, Trim(d.tag));
  }

  /** Removing the last ingredient right after adding it gives back the list. */
  lemma RemoveUndoesAddIngredient(d: Draft)
    requires !IsBlank(d.ingredient)
    ensures RemoveIngredient(AddIngredient(d), |d.ingredients|).ingredients == d.ingredients
  {
    WithoutLast(d.ingredients, d.ingredient);
  }

  /** Removing the last step right after adding it gives back the list. */
  lemma RemoveUndoesAddProcess(d: Draft)
    requires !IsBlank(d.process)
    ensures RemoveProcess(AddProcess(d), |d.processes|).processes == d.processes
  {
    WithoutLast(d.processes, d.process);
  }

  /** Text typed with a leading space is kept padded in the ingredient list but
      trimmed in the tag list. */
  lemma PaddingKeptOnlyOutsideTags(d: Draft, w: string)
    requires Unpadded(w) && d.tag == " " + w && d.ingredient == " " + w
    ensures AddIngredient(d).ingredients == d.ingredients + [" " + w]
    ensures AddTag(d).tags == d.tags + [w]
  {
    var t := " " + w;
    assert IsSpace(t[0]) && t[1..] == w;
    assert TrimStart(t) == TrimStart(w);
    UnpaddedIsTrimmed(w);
    assert Trim(t) == w;
  }
}
