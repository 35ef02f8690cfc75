/**
 * The detail page (`app/detailRep/page.tsx`): it loads one record of the shared
 * `recipes` list by its position, shows its version history, and restores a
 * chosen version. A restore re-flags every history entry, copies the version's
 * content into the page, and writes the merged record back into the list.
 */
module DetailRep {
  import opened Wrappers
  import opened Records
  import opened Storage

  /** `versionHistory.map(ver => ({...ver, activeVersion: ver.version === n}))`:
      every entry keeps its content and is flagged active exactly when its number
      is `n`. */
  function RemapActive(h: seq<Version>, n: int): (r: seq<Version>)
    ensures |r| == |h|
    ensures forall k :: 0 <= k < |h| ==> r[k].(activeVersion := h[k].activeVersion) == h[k]
    ensures forall k :: 0 <= k < |h| ==> r[k].activeVersion.Some?
    ensures forall k :: 0 <= k < |h| ==> (IsActive(r[k]) <==> h[k].version == n)
  {
    seq(|h|, k requires 0 <= k < |h| => h[k].(activeVersion := Some(h[k].version == n)))
  }

  /** Exactly one entry of `h` is flagged active. */
  predicate OneActive(h: seq<Version>) {
    exists k :: 0 <= k < |h| && IsActive(h[k]) && forall j :: 0 <= j < |h| && IsActive(h[j]) ==> j == k
  }

  /** With distinct version numbers, restoring an entry of the history leaves that
      entry, and no other, flagged active. */
  lemma RemapOneActive(h: seq<Version>, k: nat)
    requires DistinctVersions(h) && k < |h|
    ensures var r := RemapActive(h, h[k].version);
      IsActive(r[k]) && forall j :: 0 <= j < |h| && IsActive(r[j]) ==> j == k
    ensures OneActive(RemapActive(h, h[k].version))
  {
    var r := RemapActive(h, h[k].version);
    forall j | 0 <= j < |h| && j != k
      ensures !IsActive(r[j])
    {
      if j < k {
        assert h[j].version != h[k].version;
      } else {
        assert h[k].version != h[j].version;
      }
    }
  }

  /** With distinct version numbers, no remap flags two entries, whatever number it
      restores. */
  lemma RemapAtMostOneActive(h: seq<Version>, n: int, i: nat, j: nat)
    requires DistinctVersions(h) && i < j < |h|
    ensures !(IsActive(RemapActive(h, n)[i]) && IsActive(RemapActive(h, n)[j]))
  {
    assert h[i].version != h[j].version;
  }

  /** A number no entry carries leaves the whole history inactive. */
  lemma RemapAbsentNumber(h: seq<Version>, n: int)
    requires forall k :: 0 <= k < |h| ==> h[k].version != n
    ensures forall k :: 0 <= k < |h| ==> !IsActive(RemapActive(h, n)[k])
  {
  }

  /** Re-flagging an already re-flagged history by the same number changes nothing. */
  lemma RemapIdempotent(h: seq<Version>, n: int)
    ensures RemapActive(RemapActive(h, n), n) == RemapActive(h, n)
  {
    var r := RemapActive(h, n);
    var r2 := RemapActive(r, n);
    assert forall k :: 0 <= k < |h| ==> r2[k] == r[k];
  }

  /** `{...e, ...v, id: e.id, versionHistory: h}`: the list record merged with the
      restored version. Every property the version carries overrides the record's,
      a property the version lacks (`timers` of an edit-page entry, `activeVersion`
      of an edit-form entry) keeps the record's value, and the id and the history
      are set explicitly. */
  function RestoredEntry(e: Entry, v: Version, h: seq<Version>): (r: Entry)
    ensures r.id == e.id && r.versionHistory == Some(h)
    ensures r.title == v.title && r.tags == Some(v.tags)
    ensures r.ingredients == Some(v.ingredients) && r.processes == Some(v.processes)
    ensures r.version == Some(v.version) && r.timestamp == Some(v.timestamp)
    ensures r.timers == if v.timers.Some? then v.timers else e.timers
    ensures r.activeVersion == if v.activeVersion.Some? then v.activeVersion else e.activeVersion
  {
    Entry(e.id, v.title, Some(v.tags), Some(v.ingredients), Some(v.processes),
          if v.timers.Some? then v.timers else e.timers,
          Some(v.version), Some(h),
          if v.activeVersion.Some? then v.activeVersion else e.activeVersion,
          Some(v.timestamp))
  }

  /** Passing the same version object to a second restore writes the record the
      first restore wrote. (The page's own second click passes the re-flagged
      entry instead; see `SecondClickFlagsActive`.) */
  lemma RestoreTwiceSameEntry(e: Entry, v: Version, h: seq<Version>)
    ensures var h1 := RemapActive(h, v.version);
      RestoredEntry(RestoredEntry(e, v, h1), v, RemapActive(h1, v.version)) == RestoredEntry(e, v, h1)
  {
    RemapIdempotent(h, v.version);
  }

  /** The merged record takes its `activeVersion` from the clicked entry, which is
      its flag from before the remap: restoring an entry the edit page wrote with
      `activeVersion: false` stores a record flagged inactive whose own history
      marks the restored version active. */
  lemma RestoredEntryKeepsStaleFlag(e: Entry, h: seq<Version>, k: nat)
    requires k < |h| && h[k].activeVersion == Some(false)
    ensures var h1 := RemapActive(h, h[k].version);
      !EntryActive(RestoredEntry(e, h[k], h1)) && IsActive(h1[k])
  {
  }

  /** Clicking the same row twice. After the first restore the page lists the
      re-flagged history, so the second click passes that entry, now flagged
      active. The record the second click writes differs from the first one's
      exactly in its `activeVersion`, which becomes true: an entry the edit page
      wrote inactive is stored inactive after one click and active after two. */
  lemma SecondClickFlagsActive(e: Entry, h: seq<Version>, k: nat)
    requires k < |h| && h[k].activeVersion == Some(false)
    ensures var h1 := RemapActive(h, h[k].version);
      var first := RestoredEntry(e, h[k], h1);
      var second := RestoredEntry(first, h1[k], RemapActive(h1, h1[k].version));
      !EntryActive(first) && EntryActive(second) &&
      second == first.(activeVersion := Some(true))
  {
    var h1 := RemapActive(h, h[k].version);
    RemapIdempotent(h, h[k].version);
    assert h1[k].version == h[k].version && h1[k].timers == h[k].timers;
  }

  class DetailPage {
    var title: string
    var tags: seq<string>
    var ingredients: seq<string>
    var processes: seq<string>
    var version: int
    var versionHistory: seq<Version>
    /** The list position the page was loaded from; `None` until a load succeeds. */
    var recipeIndex: Option<int>

    constructor ()
      ensures title == "" && tags == [] && ingredients == [] && processes == []
      ensures version == 1 && versionHistory == [] && recipeIndex == None
    {
      title, tags, ingredients, processes := "", [], [], [];
      version, versionHistory, recipeIndex := 1, [], None;
    }

    /** The load effect. `index` is the `id` query parameter read as a number
        (`None` when it is absent or not a number). A record at that position of
        the stored list fills the page, with missing lists read as empty and a
        missing or zero version read as 1; otherwise nothing changes. */
    method Load(index: Option<int>, store: LocalStorage)
      modifies this
      ensures var list := ListAt(store.items, RecipesKey);
        if index.Some? && list.Some? && 0 <= index.value < |list.value| then
          var e := list.value[index.value];
          title == e.title && tags == e.tags.GetOr([]) &&
          ingredients == e.ingredients.GetOr([]) && processes == e.processes.GetOr([]) &&
          version == LoadedVersion(e.version) && versionHistory == e.versionHistory.GetOr([]) &&
          recipeIndex == index
        else
          title == old(title) && tags == old(tags) && ingredients == old(ingredients) &&
          processes == old(processes) && version == old(version) &&
          versionHistory == old(versionHistory) && recipeIndex == old(recipeIndex)
    {
      if index.Some? {
        var stored := store.GetItem(RecipesKey);
        if stored.Some? && stored.value.Records? {
          var recipes := stored.value.list;
          if 0 <= index.value < |recipes| {
            var selected := recipes[index.value];
            title := selected.title;
            tags := selected.tags.GetOr([]);
            ingredients := selected.ingredients.GetOr([]);
            processes := selected.processes.GetOr([]);
            version := LoadedVersion(selected.version);
            versionHistory := selected.versionHistory.GetOr([]);
            recipeIndex := index;
          }
        }
      }
    }

    /** `restoreVersion`: the page takes the version's content and number, the
        history is re-flagged by that number, and, when a list is stored and the
        page was loaded from a position inside it, the record at that position is
        replaced by the merged record; every other record and every other key is
        left alone. */
    method RestoreVersion(v: Version, store: LocalStorage)
      modifies this, store
      ensures title == v.title && tags == v.tags && ingredients == v.ingredients
      ensures processes == v.processes && version == v.version
      ensures versionHistory == RemapActive(old(versionHistory), v.version)
      ensures recipeIndex == old(recipeIndex)
      ensures DistinctVersions(old(versionHistory)) && v in old(versionHistory) ==>
        OneActive(versionHistory)
      ensures var list := ListAt(old(store.items), RecipesKey);
        if list.Some? && recipeIndex.Some? && 0 <= recipeIndex.value < |list.value| then
          var i := recipeIndex.value;
          store.items == old(store.items)[RecipesKey :=
            Records(list.value[i := RestoredEntry(list.value[i], v, versionHistory)])]
        else
          store.items == old(store.items)
    {
      var updated := RemapActive(versionHistory, v.version);
      if DistinctVersions(versionHistory) && v in versionHistory {
        var k :| 0 <= k < |versionHistory| && versionHistory[k] == v;
        RemapOneActive(versionHistory, k);
      }
      title, tags, ingredients, processes := v.title, v.tags, v.ingredients, v.processes;
      version := v.version;
      versionHistory := updated;

      var stored := store.GetItem(RecipesKey);
      if stored.Some? && stored.value.Records? && recipeIndex.Some? {
        var recipes := stored.value.list;
        var i := recipeIndex.value;
        if 0 <= i < |recipes| {
          recipes := recipes[i := RestoredEntry(recipes[i], v, updated)];
          store.SetItem(RecipesKey, Records(recipes));
        }
      }
    }
  }
}
