/**
 * The recipe detail view (`RecipeDetails`): it keeps the edited recipe and the edit
 * mode in component state, restores a chosen history entry, takes the edit form's
 * saved record, and persists its recipe under `recipe_<id>`.
 */
module RecipeDetail {
  import opened Wrappers
  import opened Records
  import opened Storage
  import RecipeEdit

  /** `handleRestore`'s new recipe: title, lists and version number come from the
      chosen entry. The id, the timers and the history (with its `activeVersion`
      flags) are the current ones. */
  function RestoredRecipe(r: Recipe, v: Version): (r': Recipe)
    ensures r'.title == v.title && r'.tags == v.tags && r'.ingredients == v.ingredients
    ensures r'.processes == v.processes && r'.version == v.version
    ensures r'.id == r.id && r'.timers == r.timers && r'.versionHistory == r.versionHistory
  {
    r.(title := v.title, tags := v.tags, ingredients := v.ingredients,
       processes := v.processes, version := v.version)
  }

  /** Restoring the same entry twice gives the recipe restoring it once gives. */
  lemma RestoreIdempotent(r: Recipe, v: Version)
    ensures RestoredRecipe(RestoredRecipe(r, v), v) == RestoredRecipe(r, v)
  {
  }

  /** A restore rewrites no `activeVersion` flag: every history entry's flag is the
      one it had, and so is the set of active entries. */
  lemma RestoreKeepsFlags(r: Recipe, v: Version, k: nat)
    requires r.versionHistory.Some? && k < |r.versionHistory.value|
    ensures var h' := RestoredRecipe(r, v).versionHistory.value;
      k < |h'| && h'[k].activeVersion == r.versionHistory.value[k].activeVersion
  {
  }

  /** The recipe a view shows after its mount effect: a record stored under
      `recipe_<id>` replaces the current one, otherwise the current one stays. */
  function Mounted(current: Recipe, id: int, items: map<string, Stored>): (r: Recipe)
    ensures RecipeKey(id) in items && items[RecipeKey(id)].Detail? ==>
      r == items[RecipeKey(id)].recipe
    ensures !(RecipeKey(id) in items && items[RecipeKey(id)].Detail?) ==> r == current
  {
    var key := RecipeKey(id);
    if key in items && items[key].Detail? then items[key].recipe else current
  }

  class DetailView {
    /** The `recipe` prop: its id names the storage key. */
    const recipe: Recipe
    var editedRecipe: Recipe
    var editMode: bool

    /** `useState(recipe)` and `useState(false)`; `Mount` then runs the effect, so
        a freshly mounted view shows `Mounted(recipe, recipe.id, items)`. */
    constructor (recipe: Recipe)
      ensures this.recipe == recipe && editedRecipe == recipe && !editMode
    {
      this.recipe := recipe;
      editedRecipe := recipe;
      editMode := false;
    }

    /** The stored copy under `recipe_<id>` is the recipe on screen. */
    predicate Persisted(store: LocalStorage)
      reads this, store
    {
      RecipeKey(recipe.id) in store.items && store.items[RecipeKey(recipe.id)] == Detail(editedRecipe)
    }

    /** The mount effect: load a stored `recipe_<id>` if there is one. */
    method Mount(store: LocalStorage)
      modifies this
      ensures editedRecipe == Mounted(old(editedRecipe), recipe.id, store.items)
      ensures editMode == old(editMode)
    {
      var saved := store.GetItem(RecipeKey(recipe.id));
      if saved.Some? && saved.value.Detail? {
        editedRecipe := saved.value.recipe;
      }
    }

    /** `saveToLocalStorage`: writes under the prop's id, not the record's. */
    method SaveToLocalStorage(updated: Recipe, store: LocalStorage)
      modifies store
      ensures store.items == old(store.items)[RecipeKey(recipe.id) := Detail(updated)]
    {
      store.SetItem(RecipeKey(recipe.id), Detail(updated));
    }

    method HandleRestore(v: Version, store: LocalStorage)
      modifies this, store
      ensures editedRecipe == RestoredRecipe(old(editedRecipe), v)
      ensures editMode == old(editMode)
      ensures store.items == old(store.items)[RecipeKey(recipe.id) := Detail(editedRecipe)]
      ensures Persisted(store)
    {
      var restored := RestoredRecipe(editedRecipe, v);
      editedRecipe := restored;
      SaveToLocalStorage(restored, store);
    }

    method HandleEdit()
      modifies this
      ensures editMode && editedRecipe == old(editedRecipe)
    {
      editMode := true;
    }

    /** The edit form's `setEditedRecipe`: one control's handler applied. */
    method HandleFormEvent(e: RecipeEdit.FormEvent)
      modifies this
      ensures editedRecipe == RecipeEdit.Apply(old(editedRecipe), e)
      ensures editMode == old(editMode)
    {
      editedRecipe := RecipeEdit.Apply(editedRecipe, e);
    }

    /** The edit form's `onClose`. */
    method CloseForm()
      modifies this
      ensures !editMode && editedRecipe == old(editedRecipe)
    {
      editMode := false;
    }

    /** `handleSaveChanges`: keep the saved record, persist it, leave edit mode. */
    method HandleSaveChanges(updated: Recipe, store: LocalStorage)
      modifies this, store
      ensures editedRecipe == updated && !editMode
      ensures store.items == old(store.items)[RecipeKey(recipe.id) := Detail(updated)]
      ensures Persisted(store)
    {
      editedRecipe := updated;
      SaveToLocalStorage(updated, store);
      editMode := false;
    }

    /** The edit form's save button: `handleSave` feeding `handleSaveChanges`. */
    method SaveFromForm(timestamp: string, store: LocalStorage)
      modifies this, store
      ensures editedRecipe == RecipeEdit.HandleSave(old(editedRecipe), timestamp)
      ensures editedRecipe.version == old(editedRecipe).version + 1
      ensures !editMode && Persisted(store)
      ensures store.items == old(store.items)[RecipeKey(recipe.id) := Detail(editedRecipe)]
    {
      HandleSaveChanges(RecipeEdit.HandleSave(editedRecipe, timestamp), store);
    }
  }

  /** A restore followed by a save repeats a number: restoring any history entry
      and saving appends an entry labelled with the restored number, next to the
      entry that was restored. The save path therefore does not keep version
      numbers distinct. */
  lemma RestoreThenSaveRepeatsNumber(r: Recipe, k: nat, t: string)
    requires r.versionHistory.Some? && k < |r.versionHistory.value|
    ensures var v := r.versionHistory.value[k];
      var h := RecipeEdit.HandleSave(RestoredRecipe(r, v), t).versionHistory.value;
      var n := |r.versionHistory.value|;
      |h| == n + 1 && h[k].version == v.version && h[n].version == v.version &&
      !DistinctVersions(h)
  {
    var v := r.versionHistory.value[k];
    var h := RecipeEdit.HandleSave(RestoredRecipe(r, v), t).versionHistory.value;
    var n := |r.versionHistory.value|;
    assert h[..n][k] == h[k];
    assert h[k].version == h[n].version;
  }
}
