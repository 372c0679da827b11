/**
 * `upcomingMealsFrom` of app.js: the meal slots still to come today, then
 * the first slot of tomorrow.
 */
module Upcoming {

  /** The fixed slot order `MEALS`. */
  const MEALS: seq<string> := ["Breakfast", "Lunch", "Dinner"]

  /** A slot to look ahead to: its name and its day offset (0 today, 1 tomorrow). */
  datatype Slot = Slot(meal: string, offset: int)

  predicate Distinct(s: seq<string>) {
    forall i, j :: 0 <= i < j < |s| ==> s[i] != s[j]
  }

  /** `Array.prototype.indexOf`: the first position of `x` in `s`, or -1. */
  function IndexOf(s: seq<string>, x: string): (k: int)
    ensures -1 <= k < |s|
    ensures k == -1 <==> x !in s
    ensures k >= 0 ==> s[k] == x && forall i :: 0 <= i < k ==> s[i] != x
  {
    if s == [] then -1
    else if s[0] == x then 0
    else
      var k := IndexOf(s[1..], x);
      if k == -1 then -1 else k + 1
  }

  /** Each name of `names` as a slot of today. */
  function Today(names: seq<string>): (r: seq<Slot>)
    ensures |r| == |names|
    ensures forall i :: 0 <= i < |names| ==> r[i] == Slot(names[i], 0)
  {
    seq(|names|, i requires 0 <= i < |names| => Slot(names[i], 0))
  }

  /**
   * What `upcomingMealsFrom(current)` returns for the slot order `slots`:
   * the slots after the first occurrence of `current` (all of them when it
   * does not occur) with offset 0, then the first slot with offset 1.
   */
  function UpcomingIn(slots: seq<string>, current: string): seq<Slot>
    requires slots != []
  {
    Today(slots[IndexOf(slots, current) + 1..]) + [Slot(slots[0], 1)]
  }

  /** `upcomingMealsFrom(currentMeal)`: the loop over `MEALS` that pushes onto `order`. */
  method UpcomingMealsFrom(currentMeal: string) returns (order: seq<Slot>)
    ensures order == UpcomingIn(MEALS, currentMeal)
  {
    var idx := IndexOf(MEALS, currentMeal);
    order := [];
    var i := idx + 1;
    while i < |MEALS|
      invariant idx + 1 <= i <= |MEALS|
      invariant order == Today(MEALS[idx + 1..i])
    {
      order := order + [Slot(MEALS[i], 0)];
      i := i + 1;
    }
    order := order + [Slot(MEALS[0], 1)];
  }

  /**
   * For a `current` in a list without repeats, the result has
   * `|slots| - indexOf(current)` entries: every later slot in order with
   * offset 0, then the first slot with offset 1.
   */
  lemma UpcomingOfKnown(slots: seq<string>, current: string)
    requires slots != [] && Distinct(slots) && current in slots
    ensures var r := UpcomingIn(slots, current);
            && |r| == |slots| - IndexOf(slots, current)
            && (forall k :: 0 <= k < |r| - 1 ==>
                  r[k].offset == 0 && r[k].meal in slots &&
                  IndexOf(slots, r[k].meal) == IndexOf(slots, current) + 1 + k)
            && r[|r| - 1] == Slot(slots[0], 1)
  {
    var idx := IndexOf(slots, current);
    var r := UpcomingIn(slots, current);
    forall k | 0 <= k < |r| - 1
      ensures r[k].offset == 0 && r[k].meal in slots &&
              IndexOf(slots, r[k].meal) == idx + 1 + k
    {
      var p := idx + 1 + k;
      assert r[k] == Slot(slots[p], 0);
      IndexOfDistinct(slots, p);
    }
  }

  /** In a list without repeats, the position of an element is its index. */
  lemma IndexOfDistinct(s: seq<string>, p: int)
    requires Distinct(s) && 0 <= p < |s|
    ensures IndexOf(s, s[p]) == p
  {
  }

  /** A `current` not in the list: every slot with offset 0, then the first slot again with offset 1. */
  lemma UpcomingOfUnknown(slots: seq<string>, current: string)
    requires slots != [] && current !in slots
    ensures UpcomingIn(slots, current) == Today(slots) + [Slot(slots[0], 1)]
  {
    assert slots[0..] == slots;
  }

  /** The slots of the source's own list. */
  lemma UpcomingMeals()
    ensures UpcomingIn(MEALS, "Breakfast") == [Slot("Lunch", 0), Slot("Dinner", 0), Slot("Breakfast", 1)]
    ensures UpcomingIn(MEALS, "Lunch") == [Slot("Dinner", 0), Slot("Breakfast", 1)]
    ensures UpcomingIn(MEALS, "Dinner") == [Slot("Breakfast", 1)]
  {
    assert IndexOf(MEALS, "Breakfast") == 0;
    assert IndexOf(MEALS, "Lunch") == 1;
    assert IndexOf(MEALS, "Dinner") == 2;
  }

  /** Every upcoming slot names a slot of the list and has offset 0 or 1; only the last has offset 1. */
  lemma UpcomingOffsets(slots: seq<string>, current: string)
    requires slots != []
    ensures var r := UpcomingIn(slots, current);
            && r != []
            && (forall k :: 0 <= k < |r| ==> r[k].meal in slots)
            && (forall k :: 0 <= k < |r| ==> (r[k].offset == 1 <==> k == |r| - 1))
            && (forall k :: 0 <= k < |r| ==> (r[k].offset == 0 || r[k].offset == 1))
  {
    var rest := slots[IndexOf(slots, current) + 1..];
    var r := UpcomingIn(slots, current);
    forall k | 0 <= k < |r|
      ensures r[k].meal in slots && (r[k].offset == 1 <==> k == |r| - 1)
    {
      if k < |rest| {
        assert r[k] == Slot(rest[k], 0);
        assert rest[k] == slots[IndexOf(slots, current) + 1 + k];
      } else {
        assert r[k] == Slot(slots[0], 1);
      }
    }
  }
}
