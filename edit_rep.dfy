/**
 * The edit page (`app/editRep/page.tsx`): it resolves the recipe id from the query
 * string (a fresh time-based id when there is none), loads the saved record and its
 * history, lets the entry form change the draft, and on submit writes three keys:
 * the saved record under `selectedRecipe_<id>`, the grown history under
 * `versionHistory_<id>`, and the shared `recipes` list with earlier copies of the
 * recipe switched off and the new one pushed at the end.
 */
module EditRep {
  import opened Wrappers
  import opened JsString
  import opened Records
  import opened Storage
  import opened DraftForm

  /** `searchParams.get("id")`, or `Date.now().toString()` when that is missing
      or empty (`!id`). */
  function ResolveId(param: Option<string>, now: nat): (id: string)
    ensures id != ""
    ensures param.Some? && param.value != "" ==> id == param.value
    ensures param.None? || param.value == "" ==> id == IntToString(now)
  {
    if param.Some? && param.value != "" then param.value else IntToString(now)
  }

  /** `currentVersion`: the content being saved, labelled with the number before
      the bump and flagged inactive; it records no timers. */
  function Snapshot(d: Draft, version: int, timestamp: string): (v: Version)
    ensures v.version == version && v.timestamp == timestamp
    ensures v.title == d.title && v.tags == d.tags
    ensures v.ingredients == d.ingredients && v.processes == d.processes
    ensures v.timers.None? && v.activeVersion == Some(false)
  {
    Version(version, timestamp, d.title, d.tags, d.ingredients, d.processes, None, Some(false))
  }

  /** `newRecipe`: the saved content under the page's string id, flagged active;
      it carries neither timers nor a history nor a timestamp. */
  function SavedEntry(d: Draft, version: int, id: string): (e: Entry)
    ensures e.id == Some(Str(id)) && e.version == Some(version) && EntryActive(e)
    ensures e.title == d.title && e.tags == Some(d.tags)
    ensures e.ingredients == Some(d.ingredients) && e.processes == Some(d.processes)
    ensures e.timers.None? && e.versionHistory.None? && e.timestamp.None?
  {
    Entry(Some(Str(id)), d.title, Some(d.tags), Some(d.ingredients), Some(d.processes),
          None, Some(version), None, Some(true), None)
  }

  /** `recipes.map(r => r.id === id ? {...r, activeVersion: false} : r)`. Strict
      equality: a record whose id is the number with the same digits is left on. */
  function Deactivated(list: seq<Entry>, id: string): (r: seq<Entry>)
    ensures |r| == |list|
    ensures forall k :: 0 <= k < |list| ==>
      if list[k].id == Some(Str(id)) then r[k] == list[k].(activeVersion := Some(false)) else r[k] == list[k]
  {
    seq(|list|, k requires 0 <= k < |list| =>
      if list[k].id == Some(Str(id)) then list[k].(activeVersion := Some(false)) else list[k])
  }

  /** Writing the saved record and the history leaves the `recipes` list as read. */
  lemma RecordWritesKeepList(items: map<string, Stored>, id: string, a: Stored, b: Stored)
    ensures ListAt(items[SelectedKey(id) := a][HistoryKey(id) := b], RecipesKey) == ListAt(items, RecipesKey)
  {
    assert SelectedKey(id)[0] == 's' && HistoryKey(id)[0] == 'v' && RecipesKey[0] == 'r';
  }

  /** The last step of `handleSubmit`: read the `recipes` list (empty when there
      is none), switch off the earlier copies of the recipe, push the new record
      and write the list back. */
  method PushRecipe(e: Entry, id: string, store: LocalStorage)
    modifies store
    ensures store.items == old(store.items)[RecipesKey := Records(Deactivated(ListAt(old(store.items), RecipesKey).GetOr([]), id) + [e])]
  {
    var stored := store.GetItem(RecipesKey);
    var recipes := if stored.Some? && stored.value.Records? then stored.value.list else [];
    var updatedRecipes := Deactivated(recipes, id);
    updatedRecipes := updatedRecipes + [e];
    store.SetItem(RecipesKey, Records(updatedRecipes));
  }

  /** After the deactivate-then-push step the list is one longer, ends with the
      saved record, and among the records with that id exactly the last is active. */
  lemma PushLeavesOneActive(list: seq<Entry>, e: Entry, id: string)
    requires e.id == Some(Str(id)) && EntryActive(e)
    ensures var r := Deactivated(list, id) + [e];
      |r| == |list| + 1 && r[|list|] == e &&
      r[..|list|] == Deactivated(list, id) &&
      forall k :: 0 <= k < |r| ==> (r[k].id == Some(Str(id)) && EntryActive(r[k]) <==> k == |list|)
  {
    var r := Deactivated(list, id) + [e];
    forall k | 0 <= k < |r|
      ensures r[k].id == Some(Str(id)) && EntryActive(r[k]) <==> k == |list|
    {
      if k < |list| {
        assert r[k] == Deactivated(list, id)[k];
      }
    }
  }

  class EditPage {
    var draft: Draft
    var version: int
    var versionHistory: seq<Version>
    var recipeId: string

    constructor ()
      ensures draft == Blank && version == 1 && versionHistory == [] && recipeId == ""
    {
      draft := Blank;
      version := 1;
      versionHistory := [];
      recipeId := "";
    }

    /** The load effect. `now` stands for `Date.now()`. A saved record fills the
        title and lists (missing lists read as empty) and the version (missing or
        zero read as 1); a saved history replaces the history; the text inputs and
        anything not found keep their values. */
    method Load(idParam: Option<string>, now: nat, store: LocalStorage)
      modifies this
      ensures recipeId == ResolveId(idParam, now)
      ensures var saved := store.GetItem(SelectedKey(recipeId));
        if saved.Some? && saved.value.Record? then
          var e := saved.value.entry;
          draft == old(draft).(title := e.title, tags := e.tags.GetOr([]),
                               ingredients := e.ingredients.GetOr([]),
                               processes := e.processes.GetOr([])) &&
          version == LoadedVersion(e.version)
        else
          draft == old(draft) && version == old(version)
      ensures var h := store.GetItem(HistoryKey(recipeId));
        versionHistory == if h.Some? && h.value.History? then h.value.versions else old(versionHistory)
    {
      var id := ResolveId(idParam, now);
      recipeId := id;
      var savedRecipe := store.GetItem(SelectedKey(id));
      var savedHistory := store.GetItem(HistoryKey(id));
      if savedRecipe.Some? && savedRecipe.value.Record? {
        var recipe := savedRecipe.value.entry;
        draft := draft.(title := recipe.title, tags := recipe.tags.GetOr([]),
                        ingredients := recipe.ingredients.GetOr([]),
                        processes := recipe.processes.GetOr([]));
        version := LoadedVersion(recipe.version);
      }
      if savedHistory.Some? && savedHistory.value.History? {
        versionHistory := savedHistory.value.versions;
      }
    }

    /** An input's `onChange` or one of the add/remove buttons. */
    method Dispatch(e: DraftEvent)
      modifies this
      ensures draft == Apply(old(draft), e)
      ensures version == old(version) && versionHistory == old(versionHistory) && recipeId == old(recipeId)
    {
      draft := Apply(draft, e);
    }

    /** `handleSubmit`. A draft without a non-blank title or without tags is
        refused and nothing changes. Otherwise the history grows by the snapshot,
        and the three keys are written; the page's own version is not bumped. */
    method HandleSubmit(timestamp: string, store: LocalStorage) returns (saved: bool)
      modifies this, store
      ensures saved == Accepts(old(draft))
      ensures draft == old(draft) && version == old(version) && recipeId == old(recipeId)
      ensures !saved ==> versionHistory == old(versionHistory) && store.items == old(store.items)
      ensures saved ==> versionHistory == old(versionHistory) + [Snapshot(draft, version, timestamp)]
      ensures saved ==>
        var e := SavedEntry(draft, version + 1, recipeId);
        store.items == old(store.items)
          [SelectedKey(recipeId) := Record(e)]
          [HistoryKey(recipeId) := History(versionHistory)]
          [RecipesKey := Records(Deactivated(ListAt(old(store.items), RecipesKey).GetOr([]), recipeId) + [e])]
    {
      if !Accepts(draft) {
        return false;
      }
      var newVersion := version + 1;
      var current := Snapshot(draft, version, timestamp);
      var updatedHistory := versionHistory + [current];
      versionHistory := updatedHistory;
      var newRecipe := SavedEntry(draft, newVersion, recipeId);

      ghost var before := store.items;
      store.SetItem(SelectedKey(recipeId), Record(newRecipe));
      store.SetItem(HistoryKey(recipeId), History(updatedHistory));
      RecordWritesKeepList(before, recipeId, Record(newRecipe), History(updatedHistory));
      PushRecipe(newRecipe, recipeId, store);
      return true;
    }
  }

  /** Submitting twice from the same page: both submits are accepted, and since the
      page's version state is never bumped, the two history entries they append
      carry the same number, the page's current one. */
  method ResubmitRepeatsNumber(p: EditPage, t1: string, t2: string, store: LocalStorage)
    returns (first: bool, second: bool)
    requires Accepts(p.draft)
    modifies p, store
    ensures first && second
    ensures var h := p.versionHistory;
      |h| >= 2 && h[|h| - 2].version == p.version && h[|h| - 1].version == p.version
    ensures !DistinctVersions(p.versionHistory)
  {
    first := p.HandleSubmit(t1, store);
    second := p.HandleSubmit(t2, store);
    var h := p.versionHistory;
    assert h[|h| - 2].version == h[|h| - 1].version;
  }
}
