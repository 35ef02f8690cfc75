/**
 * The record shapes the recipe screens pass around and persist.
 *
 * - `Version`: one entry of a recipe's version history. Every writer of history
 *   entries records the number, timestamp, title and the three lists; the edit
 *   form also records the timers, the edit page records an `activeVersion` flag.
 * - `Recipe`: the typed recipe of the detail view and its edit form.
 * - `Entry`: a loosely shaped recipe object as found in storage (the `recipes`
 *   list, `selectedRecipe_<id>`, `newRecipe`); every property except the title
 *   may be missing, and the id may be a number or a string.
 */
module Records {
  import opened Wrappers

  /** A recipe id as JavaScript sees it; `===` never equates a number with a string. */
  datatype Id = Num(n: int) | Str(s: string)

  datatype Version = Version(
    version: int,
    timestamp: string,
    title: string,
    tags: seq<string>,
    ingredients: seq<string>,
    processes: seq<string>,
    timers: Option<seq<int>>,
    activeVersion: Option<bool>)

  /** `ver.activeVersion` is truthy: the entry is marked as the current one. */
  predicate IsActive(v: Version) {
    v.activeVersion == Some(true)
  }

  /** No two history entries carry the same version number. */
  predicate DistinctVersions(h: seq<Version>) {
    forall j, k :: 0 <= j < k < |h| ==> h[j].version != h[k].version
  }

  datatype Recipe = Recipe(
    id: int,
    title: string,
    tags: seq<string>,
    ingredients: seq<string>,
    processes: seq<string>,
    timers: seq<int>,
    version: int,
    versionHistory: Option<seq<Version>>)

  datatype Entry = Entry(
    id: Option<Id>,
    title: string,
    tags: Option<seq<string>>,
    ingredients: Option<seq<string>>,
    processes: Option<seq<string>>,
    timers: Option<seq<int>>,
    version: Option<int>,
    versionHistory: Option<seq<Version>>,
    activeVersion: Option<bool>,
    timestamp: Option<string>)

  /** `recipe.version || 1`: a missing version, or the falsy 0, loads as 1. */
  function LoadedVersion(stored: Option<int>): (v: int)
    ensures v != 0
    ensures stored.Some? && stored.value != 0 ==> v == stored.value
    ensures stored.None? || stored.value == 0 ==> v == 1
  {
    if stored.Some? && stored.value != 0 then stored.value else 1
  }

  /** `r.activeVersion` is truthy. */
  predicate EntryActive(e: Entry) {
    e.activeVersion == Some(true)
  }
}
