/**
 * The module-level state of app.js (`data`, `cuisine`, `meal`), the handlers
 * that reassign it, the cuisine fallback of `renderCuisineTabs`, and the two
 * reads that run the rotation on it.
 */
module Dashboard {
  import opened Wrappers
  import opened Rotation
  import opened Upcoming
  import opened Prep

  /** `localStorage.getItem(key) || fallback`: a missing or empty stored string gives the fallback. */
  function StoredOr(stored: Option<string>, fallback: string): (r: string)
    ensures stored.Some? && stored.value != [] ==> r == stored.value
    ensures (stored.None? || stored.value == []) ==> r == fallback
    ensures fallback != [] ==> r != []
  {
    if stored.Some? && stored.value != [] then stored.value else fallback
  }

  /**
   * `if (!cuisines.includes(cuisine)) cuisine = cuisines[0]`, with `None` for
   * `undefined` (what `cuisines[0]` is when there are no cuisines): a known
   * cuisine is kept, any other choice is replaced by the first key, and the
   * result is a key whenever there is one.
   */
  function ResolveCuisine(names: seq<string>, current: Option<string>): (r: Option<string>)
    ensures r.Some? <==> names != []
    ensures r.Some? ==> r.value in names
    ensures current.Some? && current.value in names ==> r == current
    ensures names != [] && (current.None? || current.value !in names) ==> r == Some(names[0])
  {
    if current.Some? && current.value in names then current
    else if names != [] then Some(names[0])
    else None
  }

  /** Running the fallback again changes nothing. */
  lemma ResolveCuisineIdempotent(names: seq<string>, current: Option<string>)
    ensures ResolveCuisine(names, ResolveCuisine(names, current)) == ResolveCuisine(names, current)
  {
  }

  /** On a well-formed table with at least one cuisine, the fallback always lands on a cuisine the table holds. */
  lemma ResolveCuisineKnown(t: CuisineTable, current: Option<string>)
    requires WellFormed(t) && t.names != []
    ensures ResolveCuisine(t.names, current).Some?
    ensures ResolveCuisine(t.names, current).value in t.meals
  {
    var r := ResolveCuisine(t.names, current);
    assert r.value in t.names;
  }

  /**
   * The property key JavaScript uses for a cuisine value: a string is its own
   * key and `undefined` is looked up as "undefined", so the key "undefined"
   * comes from exactly those two values.
   */
  function PropertyKey(c: Option<string>): (key: string)
    ensures c.Some? ==> key == c.value
    ensures key == "undefined" <==> c == None || c == Some("undefined")
  {
    match c
    case Some(s) => s
    case None => "undefined"
  }

  /** The page's selection state. */
  class Dashboard {
    var data: Option<Data>
    var cuisine: Option<string>
    var meal: string

    /** A loaded cuisine table is the one `JSON.parse` builds: its key list matches its keys. */
    predicate Valid()
      reads this
    {
      data.Some? && data.value.cuisines.Some? ==> WellFormed(data.value.cuisines.value)
    }

    /** The script's start: nothing loaded, the stored choices or their defaults. */
    constructor (storedCuisine: Option<string>, storedMeal: Option<string>)
      ensures Valid()
      ensures data == None
      ensures cuisine == Some(StoredOr(storedCuisine, "international"))
      ensures meal == StoredOr(storedMeal, "Breakfast")
    {
      data := None;
      cuisine := Some(StoredOr(storedCuisine, "international"));
      meal := StoredOr(storedMeal, "Breakfast");
    }

    /** `data = await loadData()` in `init`. */
    method Load(d: Data)
      requires d.cuisines.Some? ==> WellFormed(d.cuisines.value)
      modifies this
      ensures Valid()
      ensures data == Some(d)
      ensures cuisine == old(cuisine) && meal == old(meal)
    {
      data := Some(d);
    }

    /** A click on a cuisine tab. */
    method ChooseCuisine(c: string)
      requires Valid()
      modifies this
      ensures Valid()
      ensures cuisine == Some(c)
      ensures data == old(data) && meal == old(meal)
    {
      cuisine := Some(c);
    }

    /** A click on a meal tab. */
    method ChooseMeal(m: string)
      requires Valid()
      modifies this
      ensures Valid()
      ensures meal == m
      ensures data == old(data) && cuisine == old(cuisine)
    {
      meal := m;
    }

    /**
     * The fallback at the top of `renderCuisineTabs`. `Object.keys` of a
     * missing document or table throws; then `ok` is false and nothing changes.
     */
    method ApplyCuisineFallback() returns (ok: bool)
      requires Valid()
      modifies this
      ensures Valid()
      ensures ok <==> data.Some? && data.value.cuisines.Some?
      ensures ok ==> cuisine == ResolveCuisine(data.value.cuisines.value.names, old(cuisine))
      ensures !ok ==> cuisine == old(cuisine)
      ensures ok && data.value.cuisines.value.names != [] ==>
                cuisine.Some? && cuisine.value in data.value.cuisines.value.meals
      ensures data == old(data) && meal == old(meal)
    {
      if data.None? || data.value.cuisines.None? {
        return false;
      }
      var cuisines := data.value.cuisines.value.names;
      if !(cuisine.Some? && cuisine.value in cuisines) {
        cuisine := if cuisines != [] then Some(cuisines[0]) else None;
      }
      if cuisines != [] {
        ResolveCuisineKnown(data.value.cuisines.value, old(cuisine));
      }
      ok := true;
    }

    /**
     * `pickRecipe(cuisine, meal, 0)` in `renderRecipe`: today's recipe for the
     * current selection. There is one exactly when the selection's list is
     * non-empty and today's day number is not negative or is a multiple of the
     * list length, and it is then the entry at the day number modulo the length.
     */
    method CurrentRecipe(utcMs: int) returns (r: Option<Recipe>)
      ensures r == PickRecipe(data, PropertyKey(cuisine), meal, utcMs, 0)
      ensures var list := RecipesFor(data, PropertyKey(cuisine), meal);
              var day := DayNumber(utcMs, 0);
              && (r.Some? <==> |list| > 0 && (day >= 0 || day % |list| == 0))
              && (r.Some? ==> r.value == list[day % |list|])
    {
      var cui := PropertyKey(cuisine);
      r := PickRecipe(data, cui, meal, utcMs, 0);
      PickRecipeExists(data, cui, meal, utcMs, 0);
      if r.Some? {
        PickRecipeIndex(data, cui, meal, utcMs, 0);
      }
    }

    /** The list `openPrepModal` builds for the current selection, from one clock reading. */
    method OpenPrep(utcMs: int) returns (items: seq<PrepItem>)
      ensures items == PrepItemsOf(data, PropertyKey(cuisine), utcMs, UpcomingIn(MEALS, meal))
    {
      var upcoming := UpcomingMealsFrom(meal);
      items := CollectPrepItems(data, PropertyKey(cuisine), upcoming, utcMs);
    }
  }
}
