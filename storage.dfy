/**
 * The browser's `localStorage` as the recipe screens use it: a map from key to a
 * stored value. JSON text is not modelled; a value is kept in the shape that was
 * serialised. Keys are built from fixed prefixes and a recipe id.
 */
module Storage {
  import opened Wrappers
  import opened JsString
  import opened Records

  /** The shapes of value written under the keys: the `recipes` list, one loose
      record (`selectedRecipe_<id>`, `newRecipe`), a history (`versionHistory_<id>`)
      and the detail view's typed recipe (`recipe_<id>`). */
  datatype Stored =
    | Records(list: seq<Entry>)
    | Record(entry: Entry)
    | History(versions: seq<Version>)
    | Detail(recipe: Recipe)

  const RecipesKey: string := "recipes"
  const NewRecipeKey: string := "newRecipe"

  /** `recipe_${id}` for the detail view's numeric id: the prefix, then the id's
      decimal text, which `parseInt` reads back as the id. */
  function RecipeKey(id: int): (k: string)
    ensures |k| > 7 && k[..7] == "recipe_" && ParseInt(k[7..]) == Some(id)
  {
    ParseIntOfIntToString(id);
    var k := "recipe_" + IntToString(id);
    assert k[7..] == IntToString(id);
    k
  }

  /** `selectedRecipe_${id}`: the prefix, then the id as given. */
  function SelectedKey(id: string): (k: string)
    ensures |k| == 15 + |id| && k[..15] == "selectedRecipe_" && k[15..] == id
  {
    "selectedRecipe_" + id
  }

  /** `versionHistory_${id}`: the prefix, then the id as given. */
  function HistoryKey(id: string): (k: string)
    ensures |k| == 15 + |id| && k[..15] == "versionHistory_" && k[15..] == id
  {
    "versionHistory_" + id
  }

  /** Distinct numeric ids never share a `recipe_` key. */
  lemma RecipeKeyInjective(a: int, b: int)
    ensures RecipeKey(a) == RecipeKey(b) ==> a == b
  {
    if RecipeKey(a) == RecipeKey(b) {
      assert RecipeKey(a)[7..] == IntToString(a);
      assert RecipeKey(b)[7..] == IntToString(b);
      IntToStringInjective(a, b);
    }
  }

  /** The key families never collide: a write under one leaves the others alone. */
  lemma KeysDistinct(id: string, other: string, n: int)
    ensures SelectedKey(id) != HistoryKey(other)
    ensures SelectedKey(id) != RecipesKey && HistoryKey(id) != RecipesKey
    ensures SelectedKey(id) != NewRecipeKey && HistoryKey(id) != NewRecipeKey
    ensures RecipeKey(n) != RecipesKey && RecipeKey(n) != NewRecipeKey
    ensures RecipeKey(n) != SelectedKey(id) && RecipeKey(n) != HistoryKey(id)
    ensures SelectedKey(id) == SelectedKey(other) ==> id == other
    ensures HistoryKey(id) == HistoryKey(other) ==> id == other
  {
    assert SelectedKey(id)[0] == 's' && HistoryKey(other)[0] == 'v' && HistoryKey(id)[0] == 'v';
    assert RecipeKey(n)[0] == 'r' && RecipeKey(n)[6] == '_';
    assert SelectedKey(id)[15..] == id && SelectedKey(other)[15..] == other;
    assert HistoryKey(id)[15..] == id && HistoryKey(other)[15..] == other;
  }

  /** `JSON.parse(localStorage.getItem(key))` of a list of recipe records;
      `None` when nothing (or something of another shape) is stored there. */
  function ListAt(items: map<string, Stored>, key: string): (r: Option<seq<Entry>>)
    ensures r.Some? <==> key in items && items[key].Records?
    ensures r.Some? ==> r.value == items[key].list
  {
    if key in items && items[key].Records? then Some(items[key].list) else None
  }

  class LocalStorage {
    var items: map<string, Stored>

    constructor ()
      ensures items == map[]
    {
      items := map[];
    }

    /** `localStorage.getItem(key)`, parsed. */
    function GetItem(key: string): (r: Option<Stored>)
      reads this
      ensures r.Some? <==> key in items
      ensures r.Some? ==> r.value == items[key]
    {
      if key in items then Some(items[key]) else None
    }

    /** `localStorage.setItem(key, value)`. */
    method SetItem(key: string, value: Stored)
      modifies this
      ensures items == old(items)[key := value]
    {
      items := items[key := value];
    }
  }
}
