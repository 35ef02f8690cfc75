# Recipe editing and version history, modelled in Dafny

This project models the recipe-editing core of a Next.js recipe app. That core is
the event handlers of six React components, which all keep recipe records in
component state and in the browser's `localStorage`:

- the **edit form** (`RecipeEditForm`) adds, changes and deletes tags, ingredients
  and steps. It keeps each step's timer aligned with the step, and on save it bumps
  the version and appends a history entry;
- the **detail view** (`RecipeDetails`) restores a history entry into the recipe
  on screen, takes the form's saved record, and persists the recipe under
  `recipe_<id>`;
- the **detail page** loads a record of the shared `recipes` list by position. It
  restores a version by re-flagging every history entry (`activeVersion` true
  exactly for the restored number), then merges the version into the list record;
- the **edit page** validates a draft and writes three keys. These are the saved
  record, the history grown by a snapshot, and the `recipes` list, in which
  earlier copies of the recipe are switched off and the new one is pushed;
- the **add component** and the **add page** validate a draft. The component
  hands over a payload with an empty timer list; the page stores a
  four-property record under `newRecipe`.

The three entry forms share one draft (`DraftForm`): a tag is added trimmed, an
ingredient or a step is added as typed, and each needs some visible text.

Modules:

- `Wrappers`: the `Option` type.
- `JsString`: `String.prototype.trim` and `parseInt` (section 19.2.5 of ECMA-262,
  radix left undefined), with integer-to-text conversion for the storage keys.
- `JsArray`: the filter-by-index and copy-then-assign idioms.
- `Records`: the record shapes.
- `Storage`: the keys, and `localStorage` as a class holding a map.
- `RecipeEdit`, `RecipeDetail`, `DetailRep`, `DraftForm`, `EditRep`, `RecipeAdd`,
  `AddRep`: one module per component. The forms' draft is shared.

Components whose state changes step by step are classes whose methods update
fields and the store. Each handler's computation is a function, and the
properties are lemmas about those functions.

Behaviour worth knowing:

- **The save snapshot.** The history entry a save appends records the values
  being saved, labelled with the number from before the bump.
- **An empty history stays empty until a save.** Loading a recipe with no
  history adds no entry for the current version.
- **Restoring an absent number.** Restoring a number missing from the history
  raises no error; every entry is simply flagged inactive (`RemapAbsentNumber`).
- **The detail view's restore** touches neither the flags nor the timers.
- **Duplicate version numbers.** Versions are not kept distinct. A restore
  followed by a save repeats a number (`RestoreThenSaveRepeatsNumber`), and so
  do two submits from the edit page (`ResubmitRepeatsNumber`).

## Model

| member | source | states |
|---|---|---|
| `JsString.Trim` | app/addRep/page.tsx:20-21 | the result has no white space at either end |
| `JsString.TrimIsInfix` | app/addRep/page.tsx:20-21 | the result is the part of the input that starts where the leading white space ends, and everything cut off before and after it is white space |
| `JsString.TrimEmptyIffAllSpace` | app/addRep/page.tsx:20-21 | trimming leaves nothing exactly when every character of the input is white space, in both directions |
| `JsString.TrimIdempotent` | app/addRep/page.tsx:20-21 | trimming an already trimmed text changes nothing, so a stored tag is its own trim |
| `JsString.ParseInt` | app/components/layout/RecipeEdit.tsx:111 | the result is absent exactly when, after leading white space and one sign, no digit of the selected radix (16 after `0x`, else 10) follows; a leading `-` negates |
| `JsString.ParseIntOfIntToString` | app/components/layout/RecipeEdit.tsx:111 | the decimal text of any integer parses back to that integer |
| `JsString.ParseIntOfBlank` | app/components/layout/RecipeEdit.tsx:111 | an empty or all-white-space timer input parses to nothing, so the `|| 0` fallback applies |
| `JsString.IntToStringInjective` | app/components/layout/RecipeDetail.tsx:55 | different integers have different decimal texts |
| `JsArray.WithoutIsSplice` | app/components/layout/RecipeEdit.tsx:57-60 | filtering out position `i` is cutting it out: the elements before and after keep their order, and an index outside the list removes nothing |
| `JsArray.Without` | app/components/layout/RecipeEdit.tsx:57-60 | filtering out position `i` drops one element when `i` is a position of the list and none otherwise, and keeps only elements of the list |
| `JsArray.Assigned` | app/components/layout/RecipeEdit.tsx:52-53 | copy-then-assign puts the value at the index and keeps every other element; past the end the list grows to index + 1 |
| `JsArray.AssignedUndo` | app/components/layout/RecipeEdit.tsx:52-53 | assigning back the old value at an index inside the list gives back the list |
| `Records.LoadedVersion` | app/detailRep/page.tsx:30 | a missing version or the falsy 0 loads as 1; any other number loads as itself; the result is never 0 |
| `Storage.RecipeKeyInjective` | app/components/layout/RecipeDetail.tsx:55 | two different numeric ids never share a `recipe_<id>` key |
| `Storage.KeysDistinct` | app/editRep/page.tsx:123-143 | the `selectedRecipe_`, `versionHistory_`, `recipe_`, `recipes` and `newRecipe` keys never collide, and each prefixed family is injective in the id |
| `Storage.ListAt` | app/detailRep/page.tsx:21-23 | a list is read exactly when one is stored under the key, and it is the stored list |
| `Storage.RecipeKey` | app/components/layout/RecipeDetail.tsx:55 | the key is `recipe_` followed by text that `parseInt` reads back as the id |
| `Storage.SelectedKey` | app/editRep/page.tsx:124 | the key is `selectedRecipe_` followed by the id exactly as given |
| `Storage.HistoryKey` | app/editRep/page.tsx:128 | the key is `versionHistory_` followed by the id exactly as given |
| `Storage.LocalStorage.GetItem` | app/editRep/page.tsx:32 | a value is returned exactly when the key is present, and it is the value stored there |
| `Storage.LocalStorage.SetItem` | app/editRep/page.tsx:123-126 | the key now maps to the value and every other key keeps its value |
| `RecipeEdit.HandleInputChange` | app/components/layout/RecipeEdit.tsx:37-42 | the title becomes the typed text; no other field changes |
| `RecipeEdit.HandleAddIngredient` | app/components/layout/RecipeEdit.tsx:44-49 | one empty ingredient is appended after the unchanged list; no other field changes |
| `RecipeEdit.HandleIngredientChange` | app/components/layout/RecipeEdit.tsx:51-55 | only the ingredient at the index is replaced and the length is unchanged for a shown row; no other field changes |
| `RecipeEdit.HandleDeleteIngredient` | app/components/layout/RecipeEdit.tsx:57-62 | exactly the ingredient at the index is removed, the rest in order; no other field changes |
| `RecipeEdit.HandleAddTag` | app/components/layout/RecipeEdit.tsx:64-69 | one empty tag is appended after the unchanged list; no other field changes |
| `RecipeEdit.HandleTagChange` | app/components/layout/RecipeEdit.tsx:71-75 | only the tag at the index is replaced and the length is unchanged for a shown row; no other field changes |
| `RecipeEdit.HandleDeleteTag` | app/components/layout/RecipeEdit.tsx:77-80 | exactly the tag at the index is removed, the rest in order; no other field changes |
| `RecipeEdit.HandleAddProcess` | app/components/layout/RecipeEdit.tsx:82-88 | an empty step and a 0 timer are appended after the unchanged lists; aligned lists stay aligned and the new step's timer is 0 |
| `RecipeEdit.HandleProcessChange` | app/components/layout/RecipeEdit.tsx:90-94 | only the step at the index is replaced; the timers are untouched |
| `RecipeEdit.HandleDeleteProcess` | app/components/layout/RecipeEdit.tsx:96-106 | the step and the timer at the index are both removed, the rest in order, so aligned lists stay aligned |
| `RecipeEdit.TimerValue` | app/components/layout/RecipeEdit.tsx:111 | the parsed integer, or 0 when the text does not parse |
| `RecipeEdit.HandleTimerChange` | app/components/layout/RecipeEdit.tsx:109-113 | the timer at the index becomes the parsed value (0 for blank or unparsable text); every other timer and field is kept |
| `RecipeEdit.TimerChangeReadsNumber` | app/components/layout/RecipeEdit.tsx:109-113 | typing an integer's decimal text stores that integer |
| `RecipeEdit.Snapshot` | app/components/layout/RecipeEdit.tsx:122-130 | the history entry holds the values being saved and their timers, labelled with the pre-save number, with no active flag |
| `RecipeEdit.HandleSave` | app/components/layout/RecipeEdit.tsx:116-134 | the version goes up by exactly 1; the history (missing read as empty) grows by exactly the snapshot at its end, earlier entries unchanged; nothing else changes |
| `RecipeEdit.Apply` | app/components/layout/RecipeEdit.tsx:139-235 | no form control changes the id, the version or the history |
| `RecipeEdit.ApplyKeepsAlignment` | app/components/layout/RecipeEdit.tsx:82-113 | every control the form renders keeps timers aligned with steps |
| `RecipeEdit.TypingKeepsLengths` | app/components/layout/RecipeEdit.tsx:51-113 | typing into a rendered row changes no list length |
| `RecipeEdit.DeleteUndoesAddProcess` | app/components/layout/RecipeEdit.tsx:82-106 | deleting the step just added gives back the recipe, timers included, when they were aligned |
| `RecipeEdit.DeleteUndoesAddIngredient` | app/components/layout/RecipeEdit.tsx:44-62 | deleting the ingredient just added gives back the recipe |
| `RecipeEdit.DeleteUndoesAddTag` | app/components/layout/RecipeEdit.tsx:64-80 | deleting the tag just added gives back the recipe |
| `RecipeEdit.ChangeUndo` | app/components/layout/RecipeEdit.tsx:51-94 | retyping a shown row's old text gives back the recipe |
| `RecipeEdit.RunHistoryAppendOnly` | app/components/layout/RecipeEdit.tsx:116-134 | over any session of edits and saves the old history is a prefix of the new, which is longer by the number of saves, and the version rises by that number; the id is kept |
| `RecipeDetail.RestoredRecipe` | app/components/layout/RecipeDetail.tsx:59-67 | title, lists and version number come from the chosen entry; id, timers and history are kept |
| `RecipeDetail.RestoreIdempotent` | app/components/layout/RecipeDetail.tsx:59-68 | restoring an entry twice gives what restoring it once gives |
| `RecipeDetail.RestoreKeepsFlags` | app/components/layout/RecipeDetail.tsx:59-67 | a restore changes no history entry's `activeVersion` |
| `RecipeDetail.Mounted` | app/components/layout/RecipeDetail.tsx:46-51 | a recipe stored under `recipe_<id>` replaces the current one; otherwise the current one stays |
| `RecipeDetail.RestoreThenSaveRepeatsNumber` | app/components/layout/RecipeDetail.tsx:59-81 | restoring any history entry and saving leaves that entry and the appended one with the same number, so the history's numbers are no longer distinct |
| `RecipeDetail.DetailView.constructor` | app/components/layout/RecipeDetail.tsx:42-43 | the view starts out showing the prop, not in edit mode |
| `RecipeDetail.DetailView.Mount` | app/components/layout/RecipeDetail.tsx:46-51 | after the effect the view shows `Mounted`; the edit mode is unchanged |
| `RecipeDetail.DetailView.SaveToLocalStorage` | app/components/layout/RecipeDetail.tsx:54-56 | exactly the key built from the prop's id is overwritten with the given recipe |
| `RecipeDetail.DetailView.HandleRestore` | app/components/layout/RecipeDetail.tsx:59-70 | the view shows the restored recipe and the stored copy equals it; only that key changes |
| `RecipeDetail.DetailView.HandleEdit` | app/components/layout/RecipeDetail.tsx:72-74 | edit mode is entered and the recipe is unchanged |
| `RecipeDetail.DetailView.HandleFormEvent` | app/components/layout/RecipeDetail.tsx:85-87 | the form's setter leaves the recipe its handler computed |
| `RecipeDetail.DetailView.CloseForm` | app/components/layout/RecipeDetail.tsx:89 | edit mode is left and the recipe is unchanged |
| `RecipeDetail.DetailView.HandleSaveChanges` | app/components/layout/RecipeDetail.tsx:76-81 | the view shows the saved record, the stored copy equals it, and edit mode is left |
| `RecipeDetail.DetailView.SaveFromForm` | app/components/layout/RecipeDetail.tsx:85-88 | the form's save leaves the view at one version higher with its snapshot appended, persisted and out of edit mode |
| `DetailRep.RemapActive` | app/detailRep/page.tsx:39-43 | same length and order, every entry's content kept, every flag set, and an entry active exactly when its number is the restored one |
| `DetailRep.RemapOneActive` | app/detailRep/page.tsx:39-43 | with distinct numbers, restoring an entry of the history leaves exactly that entry active |
| `DetailRep.RemapAtMostOneActive` | app/detailRep/page.tsx:39-43 | with distinct numbers, no two entries are active after a remap by any number |
| `DetailRep.RemapAbsentNumber` | app/detailRep/page.tsx:39-43 | a number no entry carries leaves every entry inactive |
| `DetailRep.RemapIdempotent` | app/detailRep/page.tsx:38-50 | re-flagging by the same number again changes nothing |
| `DetailRep.RestoredEntry` | app/detailRep/page.tsx:55-60 | the merged list record keeps its id, takes the remapped history, takes the version's content, number and timestamp, and takes timers and flag from the version only when it has them |
| `DetailRep.RestoreTwiceSameEntry` | app/detailRep/page.tsx:38-61 | a second restore given the same version object as the first writes the record the first wrote; the page's own second click passes the re-flagged entry instead (`SecondClickFlagsActive`) |
| `DetailRep.SecondClickFlagsActive` | app/detailRep/page.tsx:38-61 | clicking the same history row twice stores, on the second click, the first click's record with `activeVersion` switched to true, because the page now lists the re-flagged entry; an entry saved inactive is stored inactive after one click and active after two |
| `DetailRep.RestoredEntryKeepsStaleFlag` | app/detailRep/page.tsx:55-60 | restoring an entry saved with `activeVersion: false` stores a record flagged inactive while its history marks that entry active |
| `DetailRep.DetailPage.constructor` | app/detailRep/page.tsx:8-14 | the page starts empty at version 1 with no index |
| `DetailRep.DetailPage.Load` | app/detailRep/page.tsx:18-36 | a record at the index fills the page, with missing lists empty and a falsy version 1; no stored list, no index or an index outside the list changes nothing |
| `DetailRep.DetailPage.RestoreVersion` | app/detailRep/page.tsx:38-62 | the page takes the version's content and number and the remapped history (exactly one active entry when numbers are distinct); the list record at the loaded index is replaced by the merged record and nothing else is written, and without a list or an in-range index nothing is written |
| `DraftForm.AddTag` | app/components/layout/RecipeAdd.tsx:26-31 | a non-blank tag is appended trimmed and the input cleared; a blank one changes nothing |
| `DraftForm.AddIngredient` | app/components/layout/RecipeAdd.tsx:33-38 | a non-blank ingredient is appended as typed and the input cleared; a blank one changes nothing |
| `DraftForm.AddProcess` | app/components/layout/RecipeAdd.tsx:40-45 | a non-blank step is appended as typed and the input cleared; a blank one changes nothing |
| `DraftForm.RemoveTag` | app/components/layout/RecipeAdd.tsx:47-50 | exactly the tag at the index is removed, the rest in order |
| `DraftForm.RemoveIngredient` | app/components/layout/RecipeAdd.tsx:52-55 | exactly the ingredient at the index is removed, the rest in order |
| `DraftForm.RemoveProcess` | app/components/layout/RecipeAdd.tsx:57-60 | exactly the step at the index is removed, the rest in order |
| `DraftForm.Accepts` | app/editRep/page.tsx:89 | the submit guard passes exactly when the title has a character that is not white space and there is at least one tag |
| `DraftForm.Apply` | app/components/layout/RecipeAdd.tsx:26-60 | one action grows each list by at most one and only typing into the title changes it |
| `DraftForm.ApplyKeepsClean` | app/components/layout/RecipeAdd.tsx:26-60 | no action puts a padded or empty tag or a blank ingredient or step into a list |
| `DraftForm.RunKeepsClean` | app/components/layout/RecipeAdd.tsx:16-60 | any sequence of actions on a clean form, the blank form among them, keeps it clean |
| `DraftForm.RemoveUndoesAddTag` | app/components/layout/RecipeAdd.tsx:26-50 | removing the tag just added gives back the tag list |
| `DraftForm.RemoveUndoesAddIngredient` | app/components/layout/RecipeAdd.tsx:33-55 | removing the ingredient just added gives back the list |
| `DraftForm.RemoveUndoesAddProcess` | app/components/layout/RecipeAdd.tsx:40-60 | removing the step just added gives back the list |
| `DraftForm.PaddingKeptOnlyOutsideTags` | app/components/layout/RecipeAdd.tsx:26-38 | any visible text typed after a leading space is added trimmed as a tag but with its space as an ingredient |
| `RecipeAdd.HandleSubmit` | app/components/layout/RecipeAdd.tsx:62-80 | a payload is produced exactly when the title has visible text and there is a tag; it carries the title and lists unchanged, the timestamp, and an empty timer list |
| `RecipeAdd.SubmittedPayloadIsClean` | app/components/layout/RecipeAdd.tsx:26-80 | an accepted payload built from the blank form has a non-blank title, a tag, trimmed tags and no blank ingredient or step |
| `RecipeAdd.SubmittedTimersMisaligned` | app/components/layout/RecipeAdd.tsx:69-78 | an accepted recipe with a step hands over timers that do not line up with its steps |
| `AddRep.DraftRecord` | app/addRep/page.tsx:56 | the stored record has the title and the three lists and no other property |
| `AddRep.DraftRecordRoundTrip` | app/addRep/page.tsx:56-57 | loading the stored record back into a form gives the draft minus what was still being typed |
| `AddRep.HandleSubmit` | app/addRep/page.tsx:49-59 | accepted exactly when the title has visible text and there is a tag; an accepted draft overwrites only `newRecipe`, a refused one writes nothing |
| `EditRep.ResolveId` | app/editRep/page.tsx:23-28 | the query id when it is present and non-empty, otherwise the decimal text of the clock; never empty |
| `EditRep.Snapshot` | app/editRep/page.tsx:98-106 | the history entry holds the content being saved, labelled with the pre-increment number and flagged inactive, with no timers |
| `EditRep.SavedEntry` | app/editRep/page.tsx:112-120 | the saved record has the page's string id, the given number, the active flag and the content, and no timers or history |
| `EditRep.Deactivated` | app/editRep/page.tsx:137-139 | same length; a record with the same string id is switched off and otherwise kept; every other record is kept |
| `EditRep.PushLeavesOneActive` | app/editRep/page.tsx:136-143 | after deactivate-then-push the list is one longer, its prefix is the deactivated list, it ends with the saved record, and among records with that id exactly the last is active |
| `EditRep.ResubmitRepeatsNumber` | app/editRep/page.tsx:87-147 | two submits of an accepted draft from one page both succeed and append two history entries numbered with the page's unchanged version, so the history's numbers are no longer distinct |
| `EditRep.EditPage.constructor` | app/editRep/page.tsx:8-17 | a blank draft, version 1, an empty history and an empty id |
| `EditRep.EditPage.Load` | app/editRep/page.tsx:22-47 | the id is resolved; a saved record fills title and lists (missing lists empty) and the version (falsy read as 1); a saved history replaces the history; otherwise those stay |
| `EditRep.EditPage.Dispatch` | app/editRep/page.tsx:50-84 | the draft takes the handler's result and nothing else changes |
| `EditRep.PushRecipe` | app/editRep/page.tsx:133-143 | only the `recipes` key is written: the stored list (missing read as empty) with earlier copies of the id switched off, then the record pushed at the end |
| `EditRep.RecordWritesKeepList` | app/editRep/page.tsx:123-134 | writing the saved record and the history leaves the `recipes` list that is read next unchanged |
| `EditRep.EditPage.HandleSubmit` | app/editRep/page.tsx:87-147 | refused exactly when the title is blank or there are no tags, and then nothing changes; otherwise the history grows by the snapshot, the version state stays, and exactly the three keys are written: the saved record at version + 1, the grown history, and the stored list (missing read as empty) deactivated with the record pushed |

## Left out

- JSON text is not modelled. A value is stored in the shape it was written in, and
  a parse failure cannot happen. A value of another shape under a key is read as if
  nothing were stored there; no modelled writer produces one.
- Router navigation, `alert` and the query string are left out. The detail page's
  index is an optional integer (`parseInt(index, 10)` of the query text is not
  modelled; `None` also stands for a text that is not a number), and the edit page's
  id is an optional string.
- `Date.now()`, `toLocaleString()` and `toISOString()` are inputs to the model: a
  natural number for the clock and a text for each timestamp.
- React's batching of state updates and stale closures are not modelled. Each
  handler is one atomic step from the old state to the new state.
- `JsString.ParseInt`: the result is an unbounded integer, where JavaScript returns a
  double that rounds beyond 2^53 and becomes `Infinity` for very long numerals.
- `RecipeEdit.HandleIngredientChange`: past the end of the list JavaScript leaves holes
  (saved as `null`); the model fills them with `""`. `HandleTagChange` and
  `HandleProcessChange` do the same; the form only raises in-range indices.
- `RecipeEdit.HandleTimerChange`: past the end the holes are filled with 0.
- `RecipeEdit.HandleDeleteProcess`: JavaScript's `filter` skips holes, so after a
  timer was set past the end of the timer list its position shifts on a delete; the
  model's dense 0-filled list does not. For example, steps `["a","b","c"]` with timers
  `[]` (what the add component submits), then "5" typed into timer 2, then step 0
  deleted: the source keeps timers `[5]` beside `["b","c"]`, so the 5 moves to step
  "b"; the model keeps `[0,5]`.
- A recipe record without a `timers` property makes `handleAddProcess`,
  `handleDeleteProcess` and `handleTimerChange` throw. The detail view's recipe type
  declares no timers, but the model's recipe always has a timer list.
- `DetailRep.DetailPage.RestoreVersion`: when the stored list has become shorter than
  the loaded index, the source throws a `TypeError` on `recipes[recipeIndex].id`; the
  model writes nothing in that case.
- The detail view's `onRestore` callback is never called and its `onClose` callback
  belongs to the parent; the parent is not part of this model. The mount effect also
  reruns when the prop's id changes; in the model the prop is fixed, so it runs once.
- A stored record without a title loads `undefined` as the title; the model's records
  always have one.
- Login, sign-in and the header's login flag (foreign `next-auth` calls and raw
  storage writes), the footer, the home page, the to-do components, the styling and
  all rendering are not part of this model.
