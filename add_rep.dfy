/**
 * The add page (`app/addRep/page.tsx`): the entry form plus a submit that writes
 * the new recipe under the `newRecipe` key. The form itself is `DraftForm`.
 */
module AddRep {
  import opened Wrappers
  import opened JsString
  import opened Records
  import opened Storage
  import opened DraftForm

  /** `{ title, tags, ingredients, processes }`: the stored record has exactly these
      four properties. */
  function DraftRecord(d: Draft): (e: Entry)
    ensures e.title == d.title && e.tags == Some(d.tags)
    ensures e.ingredients == Some(d.ingredients) && e.processes == Some(d.processes)
    ensures e.id.None? && e.timers.None? && e.version.None? && e.versionHistory.None?
    ensures e.activeVersion.None? && e.timestamp.None?
  {
    Entry(None, d.title, Some(d.tags), Some(d.ingredients), Some(d.processes),
          None, None, None, None, None)
  }

  /** Reading a stored record back into a form: title and lists, empty inputs. */
  function DraftOf(e: Entry): (d: Draft)
    ensures d.title == e.title && d.tag == "" && d.ingredient == "" && d.process == ""
    ensures d.tags == e.tags.GetOr([]) && d.ingredients == e.ingredients.GetOr([])
    ensures d.processes == e.processes.GetOr([])
  {
    Draft(e.title, "", e.tags.GetOr([]), "", e.ingredients.GetOr([]), "", e.processes.GetOr([]))
  }

  /** The stored record loses only what the user was still typing. */
  lemma DraftRecordRoundTrip(d: Draft)
    ensures DraftOf(DraftRecord(d)) == d.(tag := "", ingredient := "", process := "")
  {
  }

  /** `handleSubmit`: a refused draft writes nothing; an accepted one overwrites
      `newRecipe` and leaves every other key alone. Navigation is not modelled. */
  method HandleSubmit(d: Draft, store: LocalStorage) returns (accepted: bool)
    modifies store
    ensures accepted <==> !IsBlank(d.title) && |d.tags| > 0
    ensures accepted ==> store.items == old(store.items)[NewRecipeKey := Record(DraftRecord(d))]
    ensures !accepted ==> store.items == old(store.items)
  {
    if Trim(d.title) == "" || |d.tags| == 0 {
      return false;
    }
    store.SetItem(NewRecipeKey, Record(DraftRecord(d)));
    return true;
  }
}
