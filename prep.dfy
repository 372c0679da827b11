/**
 * The non-DOM part of `openPrepModal` in app.js: run the rotation over the
 * upcoming slots and keep, in order, the recipes that carry a non-blank prep
 * note, labelled Today or Tomorrow, with the note trimmed.
 */
module Prep {
  import opened Wrappers
  import opened Rotation
  import opened Text
  import opened Upcoming

  /** One entry of the prep list. */
  datatype PrepItem = PrepItem(meal: string, when: string, title: string, note: string)

  /** `r.prepNotes && r.prepNotes.trim()`: the note is present and not blank. */
  predicate HasPrepNote(r: Recipe) {
    r.prepNotes.Some? && Trim(r.prepNotes.value) != []
  }

  /** Slot `u` yields an item: its recipe exists and has a prep note. */
  predicate Keeps(data: Option<Data>, cui: string, utcMs: int, u: Slot) {
    var p := PickRecipe(data, cui, u.meal, utcMs, u.offset);
    p.Some? && HasPrepNote(p.value)
  }

  /** The item slot `u` yields. */
  function ItemFor(data: Option<Data>, cui: string, utcMs: int, u: Slot): PrepItem
    requires Keeps(data, cui, utcMs, u)
  {
    var r := PickRecipe(data, cui, u.meal, utcMs, u.offset).value;
    PrepItem(u.meal, if u.offset == 0 then "Today" else "Tomorrow", r.title, Trim(r.prepNotes.value))
  }

  /**
   * The item of a slot: its meal, "Today" exactly for offset 0 and
   * "Tomorrow" otherwise, the recipe's title, and its prep note trimmed,
   * which is never empty and neither starts nor ends with white space.
   */
  lemma ItemForFields(data: Option<Data>, cui: string, utcMs: int, u: Slot)
    requires Keeps(data, cui, utcMs, u)
    ensures var it := ItemFor(data, cui, utcMs, u);
            var r := PickRecipe(data, cui, u.meal, utcMs, u.offset).value;
            && it.meal == u.meal
            && (it.when == "Today" <==> u.offset == 0)
            && (it.when == "Tomorrow" <==> u.offset != 0)
            && it.title == r.title && it.note == Trim(r.prepNotes.value)
            && it.note != [] && !IsJsSpace(it.note[0]) && !IsJsSpace(it.note[|it.note| - 1])
  {
  }

  /** What one slot contributes to the list: its item, or nothing. */
  function PrepFor(data: Option<Data>, cui: string, utcMs: int, u: Slot): seq<PrepItem> {
    if Keeps(data, cui, utcMs, u) then [ItemFor(data, cui, utcMs, u)] else []
  }

  /** What each element of `xs` contributes, concatenated in the order of `xs`. */
  function Collect<T, U>(xs: seq<T>, part: T -> seq<U>): seq<U> {
    if xs == [] then [] else Collect(xs[..|xs| - 1], part) + part(xs[|xs| - 1])
  }

  lemma {:induction false} CollectAppend<T, U>(a: seq<T>, b: seq<T>, part: T -> seq<U>)
    ensures Collect(a + b, part) == Collect(a, part) + Collect(b, part)
    decreases |b|
  {
    if b == [] {
      assert a + b == a;
    } else {
      var init := b[..|b| - 1];
      assert (a + b)[..|a + b| - 1] == a + init;
      assert (a + b)[|a + b| - 1] == b[|b| - 1];
      CollectAppend(a, init, part);
    }
  }

  /** `Collect` taken from the front: the first element's contribution comes first. */
  lemma CollectCons<T, U>(xs: seq<T>, part: T -> seq<U>)
    requires xs != []
    ensures Collect(xs, part) == part(xs[0]) + Collect(xs[1..], part)
  {
    CollectAppend([xs[0]], xs[1..], part);
    assert [xs[0]] + xs[1..] == xs;
    assert [xs[0]][..0] == [];
  }

  /** The positions, from `from` on, of the elements that contribute something. */
  function Contributing<T, U>(xs: seq<T>, part: T -> seq<U>, from: nat): (src: seq<nat>)
    requires from <= |xs|
    ensures forall k :: 0 <= k < |src| ==> from <= src[k] < |xs|
    decreases |xs| - from
  {
    if from == |xs| then []
    else
      var rest := Contributing(xs, part, from + 1);
      if part(xs[from]) != [] then [from] + rest else rest
  }

  /** `Contributing` lists its positions in increasing order. */
  lemma {:induction false} ContributingSorted<T, U>(xs: seq<T>, part: T -> seq<U>, from: nat)
    requires from <= |xs|
    ensures forall k, l :: 0 <= k < l < |Contributing(xs, part, from)| ==>
              Contributing(xs, part, from)[k] < Contributing(xs, part, from)[l]
    decreases |xs| - from
  {
    if from < |xs| {
      ContributingSorted(xs, part, from + 1);
    }
  }

  /** `Contributing` lists every position, from `from` on, that contributes, and only those. */
  lemma {:induction false} ContributingComplete<T, U>(xs: seq<T>, part: T -> seq<U>, from: nat)
    requires from <= |xs|
    ensures var src := Contributing(xs, part, from);
            && (forall k :: 0 <= k < |src| ==> part(xs[src[k]]) != [])
            && (forall j :: from <= j < |xs| && part(xs[j]) != [] ==> j in src)
    decreases |xs| - from
  {
    if from < |xs| {
      ContributingComplete(xs, part, from + 1);
      var rest := Contributing(xs, part, from + 1);
      var src := Contributing(xs, part, from);
      if part(xs[from]) != [] {
        assert src == [from] + rest;
        assert forall k :: 0 < k < |src| ==> src[k] == rest[k - 1];
      } else {
        assert src == rest;
      }
    }
  }

  /**
   * When every element contributes at most one value, `Collect` holds one
   * value per contributing position: value `k` is the contribution of
   * position `Contributing(xs, part, from)[k]`.
   */
  lemma {:induction false} CollectAt<T, U>(xs: seq<T>, part: T -> seq<U>, from: nat)
    requires from <= |xs|
    requires forall j :: from <= j < |xs| ==> |part(xs[j])| <= 1
    ensures var src := Contributing(xs, part, from);
            var out := Collect(xs[from..], part);
            && |out| == |src|
            && (forall k :: 0 <= k < |src| ==> part(xs[src[k]]) == [out[k]])
    decreases |xs| - from
  {
    if from < |xs| {
      CollectAt(xs, part, from + 1);
      var rest := Contributing(xs, part, from + 1);
      var src := Contributing(xs, part, from);
      var tail := Collect(xs[from + 1..], part);
      var out := Collect(xs[from..], part);
      assert xs[from..][1..] == xs[from + 1..];
      CollectCons(xs[from..], part);
      assert out == part(xs[from]) + tail;
      if part(xs[from]) != [] {
        assert src == [from] + rest;
        assert out == [out[0]] + tail;
        assert forall k :: 0 < k < |src| ==> src[k] == rest[k - 1] && out[k] == tail[k - 1];
      } else {
        assert src == rest;
        assert out == tail;
      }
    } else {
      assert xs[from..] == [];
    }
  }

  /** The contribution of each slot for one selection and one clock reading. */
  function SlotYield(data: Option<Data>, cui: string, utcMs: int): Slot -> seq<PrepItem> {
    u => PrepFor(data, cui, utcMs, u)
  }

  /** The prep list for the slots `upcoming`, in their order. */
  function PrepItemsOf(data: Option<Data>, cui: string, utcMs: int, upcoming: seq<Slot>): seq<PrepItem> {
    Collect(upcoming, SlotYield(data, cui, utcMs))
  }

  /** What one slot contributes, spelled out as the loop body tests it. */
  lemma PrepForStep(data: Option<Data>, cui: string, utcMs: int, u: Slot)
    ensures var r := PickRecipe(data, cui, u.meal, utcMs, u.offset);
            PrepFor(data, cui, utcMs, u)
            == if r.Some? && r.value.prepNotes.Some? && Trim(r.value.prepNotes.value) != []
               then [PrepItem(u.meal, if u.offset == 0 then "Today" else "Tomorrow",
                              r.value.title, Trim(r.value.prepNotes.value))]
               else []
  {
  }

  /** The `for (const u of upcoming)` loop of `openPrepModal`, pushing onto `items`. */
  method CollectPrepItems(data: Option<Data>, cui: string, upcoming: seq<Slot>, utcMs: int)
    returns (items: seq<PrepItem>)
    ensures items == PrepItemsOf(data, cui, utcMs, upcoming)
  {
    items := [];
    var i := 0;
    while i < |upcoming|
      invariant 0 <= i <= |upcoming|
      invariant items == PrepItemsOf(data, cui, utcMs, upcoming[..i])
    {
      var u := upcoming[i];
      ghost var before := items;
      var r := PickRecipe(data, cui, u.meal, utcMs, u.offset);
      if r.Some? && r.value.prepNotes.Some? && Trim(r.value.prepNotes.value) != [] {
        var when := if u.offset == 0 then "Today" else "Tomorrow";
        items := items + [PrepItem(u.meal, when, r.value.title, Trim(r.value.prepNotes.value))];
      }
      PrepForStep(data, cui, utcMs, u);
      assert items == before + SlotYield(data, cui, utcMs)(u);
      assert upcoming[..i + 1][..i] == upcoming[..i];
      i := i + 1;
    }
    assert upcoming[..i] == upcoming;
  }

  /**
   * The prep list holds one item per upcoming slot whose recipe exists and
   * has a non-blank prep note, in slot order, and no other item: `src` lists
   * those slots' positions in increasing order and item `k` is the item of
   * slot `src[k]`.
   */
  lemma PrepItemsExact(data: Option<Data>, cui: string, utcMs: int, upcoming: seq<Slot>)
    ensures var items := PrepItemsOf(data, cui, utcMs, upcoming);
            var src := Contributing(upcoming, SlotYield(data, cui, utcMs), 0);
            && |items| == |src|
            && (forall k, l :: 0 <= k < l < |src| ==> src[k] < src[l])
            && (forall k :: 0 <= k < |src| ==> src[k] < |upcoming| && Keeps(data, cui, utcMs, upcoming[src[k]]))
            && (forall j :: 0 <= j < |upcoming| && Keeps(data, cui, utcMs, upcoming[j]) ==> j in src)
            && (forall k :: 0 <= k < |src| ==> items[k] == ItemFor(data, cui, utcMs, upcoming[src[k]]))
  {
    var y := SlotYield(data, cui, utcMs);
    ContributingSorted(upcoming, y, 0);
    ContributingComplete(upcoming, y, 0);
    CollectAt(upcoming, y, 0);
    assert upcoming[0..] == upcoming;
  }

  /** The list is empty, and the modal says no prep is needed, exactly when no upcoming slot has a recipe with a prep note. */
  lemma PrepItemsEmpty(data: Option<Data>, cui: string, utcMs: int, upcoming: seq<Slot>)
    ensures PrepItemsOf(data, cui, utcMs, upcoming) == [] <==>
            forall j :: 0 <= j < |upcoming| ==> !Keeps(data, cui, utcMs, upcoming[j])
  {
    PrepItemsExact(data, cui, utcMs, upcoming);
    var src := Contributing(upcoming, SlotYield(data, cui, utcMs), 0);
    if PrepItemsOf(data, cui, utcMs, upcoming) != [] {
      assert src[0] < |upcoming| && Keeps(data, cui, utcMs, upcoming[src[0]]);
    }
  }

  /** Slots that are all for today yield items that are all for today. */
  lemma {:induction false} PrepAllToday(data: Option<Data>, cui: string, utcMs: int, us: seq<Slot>)
    requires forall j :: 0 <= j < |us| ==> us[j].offset == 0
    ensures forall k :: 0 <= k < |PrepItemsOf(data, cui, utcMs, us)| ==>
              PrepItemsOf(data, cui, utcMs, us)[k].when == "Today"
    decreases |us|
  {
    if us != [] {
      var u := us[|us| - 1];
      PrepAllToday(data, cui, utcMs, us[..|us| - 1]);
      assert PrepItemsOf(data, cui, utcMs, us)
          == PrepItemsOf(data, cui, utcMs, us[..|us| - 1]) + PrepFor(data, cui, utcMs, u);
      if Keeps(data, cui, utcMs, u) {
        ItemForFields(data, cui, utcMs, u);
      }
    }
  }

  /**
   * When only the last slot is for another day, only the last item can be
   * for tomorrow, and it is that slot's item.
   */
  lemma PrepTomorrowOnlyLast(data: Option<Data>, cui: string, utcMs: int, us: seq<Slot>)
    requires forall j :: 0 <= j < |us| && us[j].offset != 0 ==> j == |us| - 1
    ensures var items := PrepItemsOf(data, cui, utcMs, us);
            forall k :: 0 <= k < |items| && items[k].when == "Tomorrow" ==>
              k == |items| - 1 && items[k].meal == us[|us| - 1].meal
  {
    if us != [] {
      var init := us[..|us| - 1];
      var u := us[|us| - 1];
      PrepAllToday(data, cui, utcMs, init);
      var before := PrepItemsOf(data, cui, utcMs, init);
      var items := PrepItemsOf(data, cui, utcMs, us);
      assert items == before + PrepFor(data, cui, utcMs, u);
      forall k | 0 <= k < |items| && items[k].when == "Tomorrow"
        ensures k == |items| - 1 && items[k].meal == u.meal
      {
        assert k >= |before|;
      }
    }
  }

  /**
   * Across a look-ahead from `current`, at most the last item is for
   * tomorrow, and it is then the item of tomorrow's first slot.
   */
  lemma PrepTomorrowLast(data: Option<Data>, cui: string, utcMs: int, slots: seq<string>, current: string)
    requires slots != []
    ensures var items := PrepItemsOf(data, cui, utcMs, UpcomingIn(slots, current));
            forall k :: 0 <= k < |items| && items[k].when == "Tomorrow" ==>
              k == |items| - 1 && items[k].meal == slots[0]
  {
    var us := UpcomingIn(slots, current);
    UpcomingOffsets(slots, current);
    assert us[|us| - 1].meal == slots[0];
    PrepTomorrowOnlyLast(data, cui, utcMs, us);
  }
}
