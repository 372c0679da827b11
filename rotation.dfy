/**
 * The rotation selector of app.js: a recipe for a cuisine and meal slot is
 * chosen by the day number alone, so the same calendar day always yields the
 * same recipe, with no stored cursor and no randomness.
 */
module Rotation {
  import opened Wrappers

  /** One recipe as loaded from recipes.json; `prepNotes` may be missing. */
  datatype Recipe = Recipe(
    title: string,
    ingredients: seq<string>,
    steps: seq<string>,
    prepNotes: Option<string>)

  /** Meal slot name to its ordered list of recipes. */
  type MealTable = map<string, seq<Recipe>>

  /**
   * `data.cuisines`: `names` is the key order that `Object.keys` reports,
   * `meals` the value stored under each key.
   */
  datatype CuisineTable = CuisineTable(names: seq<string>, meals: map<string, MealTable>)

  /** The parsed recipes.json document; its `cuisines` member may be missing. */
  datatype Data = Data(cuisines: Option<CuisineTable>)

  /** An object's key list never repeats a key and lists exactly its keys. */
  predicate WellFormed(t: CuisineTable) {
    && (forall i, j :: 0 <= i < j < |t.names| ==> t.names[i] != t.names[j])
    && (forall c :: c in t.names ==> c in t.meals)
    && (forall c :: c in t.meals ==> c in t.names)
  }

  const MS_PER_DAY: int := 86400000

  /**
   * `getDayNumber(offsetDays)`: the whole number of days in the UTC-midnight
   * millisecond count `utcMs` (the value of `Date.UTC` for today), rounded
   * down as `Math.floor` does, plus the day offset.
   */
  function DayNumber(utcMs: int, offsetDays: int): (day: int)
    ensures (day - offsetDays) * MS_PER_DAY <= utcMs < (day - offsetDays + 1) * MS_PER_DAY
  {
    utcMs / MS_PER_DAY + offsetDays
  }

  /**
   * JavaScript's `d % n` for a positive divisor: the quotient is truncated
   * toward zero, so the remainder lies strictly between `-n` and `n` and
   * takes the sign of `d`.
   */
  function JsRem(d: int, n: int): (r: int)
    requires n > 0
    ensures -n < r < n
    ensures d >= 0 ==> r >= 0
    ensures d <= 0 ==> r <= 0
  {
    if d >= 0 then d % n else -((-d) % n)
  }

  /**
   * The truncated remainder differs from `d` by a multiple of `n`; with the
   * bound and the sign that `JsRem` ensures, this fixes it.
   */
  lemma JsRemSpec(d: int, n: int)
    requires n > 0
    ensures (d - JsRem(d, n)) % n == 0
  {
    if d >= 0 {
      assert d - d % n == n * (d / n);
      ModOfMultiple(n, d / n);
    } else {
      var q := (-d) / n;
      var m := (-d) % n;
      assert -d == n * q + m;
      assert d - -m == n * -q;
      ModOfMultiple(n, -q);
    }
  }

  /** Euclidean remainders are unique: `d == n * q + m` with `0 <= m < n` fixes `d % n`. */
  lemma ModUnique(d: int, n: int, q: int, m: int)
    requires n > 0 && 0 <= m < n && d == n * q + m
    ensures d % n == m
  {
    var q' := d / n;
    var m' := d % n;
    assert n * q + m == n * q' + m';
    if q > q' {
      assert n * (q - q') == m' - m;
      MulAtLeast(n, q - q');
    } else if q < q' {
      assert n * (q' - q) == m - m';
      MulAtLeast(n, q' - q);
    }
  }

  lemma MulAtLeast(n: int, k: int)
    requires n > 0 && k >= 1
    ensures n * k >= n
  {
  }

  lemma ModOfMultiple(n: int, k: int)
    requires n > 0
    ensures (n * k) % n == 0
  {
    ModUnique(n * k, n, k, 0);
  }

  /**
   * `data.cuisines[cui][mealName] || []`, guarded by the `data &&
   * data.cuisines && data.cuisines[cui]` test: the stored list when every
   * step of the lookup finds its key, and the empty list when any step fails.
   */
  function RecipesFor(data: Option<Data>, cui: string, mealName: string): (list: seq<Recipe>)
    ensures (data.Some? && data.value.cuisines.Some? && cui in data.value.cuisines.value.meals
             && mealName in data.value.cuisines.value.meals[cui])
            ==> list == data.value.cuisines.value.meals[cui][mealName]
    ensures list != [] ==>
              (data.Some? && data.value.cuisines.Some? && cui in data.value.cuisines.value.meals
               && mealName in data.value.cuisines.value.meals[cui])
  {
    if data.None? || data.value.cuisines.None? then []
    else
      var table := data.value.cuisines.value;
      if cui !in table.meals || mealName !in table.meals[cui] then []
      else table.meals[cui][mealName]
  }

  /**
   * `pickRecipe(cui, mealName, offsetDays)`, with the clock reading taken as
   * the parameter `utcMs`. `None` stands for the `null` the source returns
   * for an empty list and for the `undefined` that `arr[idx]` yields when the
   * remainder is negative.
   */
  function PickRecipe(data: Option<Data>, cui: string, mealName: string, utcMs: int, offsetDays: int): (r: Option<Recipe>)
    ensures r.Some? ==> r.value in RecipesFor(data, cui, mealName)
  {
    var arr := RecipesFor(data, cui, mealName);
    if |arr| == 0 then None
    else
      var idx := JsRem(DayNumber(utcMs, offsetDays), |arr|);
      if idx < 0 then None else Some(arr[idx])
  }

  /** A missing document, table, cuisine or meal slot gives no recipe, never an error. */
  lemma PickRecipeMissing(data: Option<Data>, cui: string, mealName: string, utcMs: int, offsetDays: int)
    requires || data.None? || data.value.cuisines.None?
             || cui !in data.value.cuisines.value.meals
             || mealName !in data.value.cuisines.value.meals[cui]
    ensures PickRecipe(data, cui, mealName, utcMs, offsetDays).None?
  {
  }

  /**
   * A recipe is chosen exactly when the list is non-empty and the day number
   * is not negative or is a multiple of the list length (`arr[idx]` is
   * `undefined` for a negative `idx`).
   */
  lemma PickRecipeExists(data: Option<Data>, cui: string, mealName: string, utcMs: int, offsetDays: int)
    ensures var list := RecipesFor(data, cui, mealName);
            var day := DayNumber(utcMs, offsetDays);
            PickRecipe(data, cui, mealName, utcMs, offsetDays).Some? <==>
              |list| > 0 && (day >= 0 || day % |list| == 0)
  {
    var list := RecipesFor(data, cui, mealName);
    if |list| > 0 {
      NegativeRemainder(DayNumber(utcMs, offsetDays), |list|);
    }
  }

  /**
   * When a recipe is chosen (a non-empty list, and a day number from 1970 on
   * or a multiple of the list length), the index lies in `[0, |list|)` and
   * the recipe is the entry at the day number modulo the list length; a
   * negative multiple is JavaScript's `-0`, which indexes the first entry.
   */
  lemma PickRecipeIndex(data: Option<Data>, cui: string, mealName: string, utcMs: int, offsetDays: int)
    requires |RecipesFor(data, cui, mealName)| > 0
    requires DayNumber(utcMs, offsetDays) >= 0 || DayNumber(utcMs, offsetDays) % |RecipesFor(data, cui, mealName)| == 0
    ensures var list := RecipesFor(data, cui, mealName);
            var day := DayNumber(utcMs, offsetDays);
            && 0 <= day % |list| < |list|
            && PickRecipe(data, cui, mealName, utcMs, offsetDays) == Some(list[day % |list|])
  {
    NegativeRemainder(DayNumber(utcMs, offsetDays), |RecipesFor(data, cui, mealName)|);
  }

  /** The JavaScript remainder is negative exactly when `d` is negative and not a multiple of `n`. */
  lemma NegativeRemainder(d: int, n: int)
    requires n > 0
    ensures JsRem(d, n) < 0 <==> d < 0 && d % n != 0
    ensures d >= 0 || d % n == 0 ==> JsRem(d, n) == d % n
  {
    if d < 0 {
      var m := (-d) % n;
      var q := (-d) / n;
      assert -d == n * q + m;
      if m == 0 {
        ModUnique(d, n, -q, 0);
      } else {
        ModUnique(d, n, -q - 1, n - m);
      }
    }
  }

  /** The offset is added to the day count of the clock reading. */
  lemma DayNumberOffset(utcMs: int, offsetDays: int)
    ensures DayNumber(utcMs, offsetDays) == DayNumber(utcMs, 0) + offsetDays
  {
  }

  /** A one-element list yields its only recipe on every day, before 1970 as well. */
  lemma PickSingleton(data: Option<Data>, cui: string, mealName: string, utcMs: int, offsetDays: int)
    requires |RecipesFor(data, cui, mealName)| == 1
    ensures PickRecipe(data, cui, mealName, utcMs, offsetDays) == Some(RecipesFor(data, cui, mealName)[0])
  {
  }

  /** Shifting a number by whole multiples of `n` keeps its remainder. */
  lemma ModShift(d: int, j: int, n: int)
    requires n > 0
    ensures (d + j * n) % n == d % n
  {
    var q := d / n;
    assert d == n * q + d % n;
    assert d + j * n == n * (q + j) + d % n;
    ModUnique(d + j * n, n, q + j, d % n);
  }

  /**
   * The rotation is periodic: day offsets that differ by a multiple of the
   * list length select the same recipe (for day numbers from 1970 on).
   */
  lemma PickPeriodic(data: Option<Data>, cui: string, mealName: string, utcMs: int, offsetDays: int, j: int)
    requires DayNumber(utcMs, offsetDays) >= 0
    requires DayNumber(utcMs, offsetDays + j * |RecipesFor(data, cui, mealName)|) >= 0
    ensures PickRecipe(data, cui, mealName, utcMs, offsetDays + j * |RecipesFor(data, cui, mealName)|)
         == PickRecipe(data, cui, mealName, utcMs, offsetDays)
  {
    var n := |RecipesFor(data, cui, mealName)|;
    if n > 0 {
      var d := DayNumber(utcMs, offsetDays);
      assert DayNumber(utcMs, offsetDays + j * n) == d + j * n;
      ModShift(d, j, n);
    }
  }

  /** For dividends that are both at most 0, a shift by whole multiples of `n` keeps the JavaScript remainder. */
  lemma JsRemShiftNonPositive(d: int, j: int, n: int)
    requires n > 0 && d <= 0 && d + j * n <= 0
    ensures JsRem(d + j * n, n) == JsRem(d, n)
  {
    ModShift(-d, -j, n);
    assert -(d + j * n) == -d + (-j) * n;
  }

  /**
   * The rotation is periodic before 1970 as well: day offsets that differ by
   * a multiple of the list length select the same recipe (or none) when both
   * day numbers are at most 0. Across day 0 the truncated remainder does not
   * repeat, so no such claim is made there.
   */
  lemma PickPeriodicBeforeEpoch(data: Option<Data>, cui: string, mealName: string, utcMs: int, offsetDays: int, j: int)
    requires DayNumber(utcMs, offsetDays) <= 0
    requires DayNumber(utcMs, offsetDays + j * |RecipesFor(data, cui, mealName)|) <= 0
    ensures PickRecipe(data, cui, mealName, utcMs, offsetDays + j * |RecipesFor(data, cui, mealName)|)
         == PickRecipe(data, cui, mealName, utcMs, offsetDays)
  {
    var n := |RecipesFor(data, cui, mealName)|;
    if n > 0 {
      var d := DayNumber(utcMs, offsetDays);
      assert DayNumber(utcMs, offsetDays + j * n) == d + j * n;
      JsRemShiftNonPositive(d, j, n);
    }
  }
}
