# kcdb kitchen dashboard: the meal-rotation core

The dashboard in `app.js` shows one recipe per cuisine and meal slot
(Breakfast, Lunch, Dinner) for the current day. It also shows a "prep for
upcoming" list of the preparation notes of the meals still to come. The
choice is deterministic. The day number (whole days since 1970, plus an
offset) indexes the slot's recipe list modulo its length. There is no
stored cursor and no randomness.

The Dafny model has six modules:

- `Wrappers`: the `Option` type. `None` stands for JavaScript's `null` and `undefined`.
- `Rotation` (`rotation.dfy`): the shape of `recipes.json`, `getDayNumber`,
  JavaScript's truncating `%`, and `pickRecipe`.
- `Text` (`text.dfy`): JavaScript's `String.prototype.trim` and `toTitle`.
- `Upcoming` (`upcoming.dfy`): the slot list `MEALS`, `indexOf`, and the
  `upcomingMealsFrom` loop as a method, proved against a function.
- `Prep` (`prep.dfy`): the item-collecting loop of `openPrepModal` as a
  method, proved against a function. Lemmas state which items the list
  holds and in what order.
- `Dashboard` (`dashboard.dfy`): the module-level state `data`, `cuisine`
  and `meal` as a class. Its methods are the handlers that reassign that
  state, the cuisine fallback of `renderCuisineTabs`, and the two places
  that run the rotation on the state.

The clock is a parameter. Every operation that reads "now" takes `utcMs`,
the value `Date.UTC` gives for today's date.

`getDayNumber(offset) % arr.length` is JavaScript's truncating remainder,
not a non-negative modulo. For a day number before 1970 that is not a
multiple of the list length, the remainder is negative and `arr[idx]` is
`undefined`, so no recipe is shown. `JsRem` models that remainder, and
`PickRecipeExists` states exactly when a recipe is chosen. From 1970 on
(`DayNumber >= 0`) the remainder and the non-negative modulo agree.

## Model

| member | source | states |
|---|---|---|
| Rotation.DayNumber | app.js:45-50 | the day number minus its offset is the floor of the UTC millisecond count divided by 86400000, as `Math.floor(utc / msPerDay) + offsetDays` gives |
| Rotation.DayNumberOffset | app.js:49 | the day number with an offset is the day number with offset 0 plus the offset |
| Rotation.JsRem | app.js:55 | JavaScript's `%` with a positive divisor: the result lies strictly between `-n` and `n` and has the sign of the dividend (0 when that is 0) |
| Rotation.JsRemSpec | app.js:55 | the JavaScript remainder differs from the dividend by a multiple of `n`; with the bound and the sign this fixes the truncated remainder |
| Rotation.NegativeRemainder | app.js:55 | the JavaScript remainder is negative exactly when the dividend is negative and not a multiple of `n`; otherwise it equals the Euclidean remainder |
| Rotation.RecipesFor | app.js:53 | the guarded lookup gives the stored list when the document, its table, the cuisine and the meal slot are all present, and the empty list (`|| []`) as soon as one is missing |
| Rotation.PickRecipe | app.js:52-57 | a chosen recipe is always an entry of the slot's recipe list |
| Rotation.PickRecipeMissing | app.js:53-54 | a missing document, cuisine table, cuisine or meal slot gives no recipe, and never an error |
| Rotation.PickRecipeExists | app.js:53-56 | a recipe is chosen exactly when the list is non-empty and the day number is non-negative or a multiple of the list length |
| Rotation.PickRecipeIndex | app.js:55-56 | whenever a recipe is chosen (non-empty list, day number non-negative or a multiple of the length), the index `day % len` lies in `[0, len)` and the result is exactly `list[day % len]`; a negative multiple is JavaScript's `-0`, which indexes the first entry |
| Rotation.PickSingleton | app.js:55-56 | a one-element list yields its only recipe for every clock reading and offset |
| Rotation.PickPeriodic | app.js:49-56 | for day numbers from 1970 on (both day numbers at least 0), offsets that differ by a multiple of the list length select the same recipe |
| Rotation.JsRemShiftNonPositive | app.js:55 | for two dividends that are both at most 0 and differ by a multiple of `n`, JavaScript's `%` gives the same remainder |
| Rotation.PickPeriodicBeforeEpoch | app.js:49-56 | for day numbers that are both at most 0, offsets that differ by a multiple of the list length select the same recipe or both select none; across day 0 this does not hold (day -1 over three recipes gives none, day 2 gives the third) |
| Text.Trim | app.js:151-153 | `trim` returns the infix that starts after the leading white space; everything removed is white space; the result neither starts nor ends with white space; it is empty exactly when the input is all white space |
| Text.TrimIdempotent | app.js:153 | trimming a trimmed note changes nothing |
| Text.ToTitle | app.js:171-173 | same length; every `-` and `_` becomes a space; a character that begins a word (a letter or digit after a non-alphanumeric character or at the start) is upper-cased; every other character is unchanged; no `-` or `_` remains |
| Text.ToTitleIdempotent | app.js:171-173 | applying `toTitle` to its own output changes nothing |
| Upcoming.IndexOf | app.js:137 | `indexOf` gives -1 exactly when the meal is absent, and otherwise its first position |
| Upcoming.UpcomingMealsFrom | app.js:136-143 | the loop that pushes onto `order` returns `UpcomingIn(MEALS, currentMeal)` |
| Upcoming.UpcomingOfKnown | app.js:137-142 | for a meal in a slot list without repeats (as `MEALS` is): length `len - indexOf`; entry `k` before the last is the slot at position `indexOf + 1 + k`, with offset 0; the last entry is the first slot with offset 1 |
| Upcoming.UpcomingOfUnknown | app.js:137-141 | for a meal not in the list: every slot with offset 0, then the first slot with offset 1 |
| Upcoming.UpcomingMeals | app.js:6 | for `MEALS`: Breakfast gives Lunch, Dinner, then tomorrow's Breakfast; Lunch gives Dinner, then tomorrow's Breakfast; Dinner gives only tomorrow's Breakfast |
| Upcoming.UpcomingOffsets | app.js:137-142 | the look-ahead is never empty; its entries name slots of the list with offset 0 or 1; offset 1 occurs exactly at the last entry |
| Prep.ItemForFields | app.js:151-153 | an item carries the slot's meal, "Today" exactly for offset 0 and "Tomorrow" otherwise, the recipe's title, and its prep note trimmed, which is non-empty with no white space at either end |
| Prep.CollectPrepItems | app.js:147-155 | the `for...of` loop that pushes onto `items` returns `PrepItemsOf` of the upcoming slots |
| Prep.PrepItemsExact | app.js:149-155 | there is one item per upcoming slot whose recipe exists and has a non-blank prep note, and no other item; the items follow the slot order; item `k` is the item of the `k`-th such slot |
| Prep.PrepItemsEmpty | app.js:149-158 | the list is empty ("No prep needed") exactly when no upcoming slot has a recipe with a non-blank prep note |
| Prep.PrepAllToday | app.js:152 | slots that are all for today yield only "Today" items |
| Prep.PrepTomorrowOnlyLast | app.js:149-155 | when only the last slot is for another day, only the last item can be "Tomorrow", and its meal is that slot's meal |
| Prep.PrepTomorrowLast | app.js:141-155 | across a look-ahead, a "Tomorrow" item can only be the last item, and its meal is the first slot of the list |
| Dashboard.StoredOr | app.js:27-28 | the stored value or its default, as JavaScript's `or` on strings: a stored non-empty string is used; a missing or empty one gives the fallback; a non-empty fallback never yields an empty selection |
| Dashboard.ResolveCuisine | app.js:60-61 | a known cuisine is kept; any other choice becomes the first key; the result is defined exactly when there is a key, and it is then one of the keys |
| Dashboard.ResolveCuisineIdempotent | app.js:60-61 | running the fallback a second time changes nothing |
| Dashboard.ResolveCuisineKnown | app.js:60-61 | on a well-formed table (key list matching its keys, as `JSON.parse` builds it) with at least one cuisine, the fallback always lands on a cuisine the table holds |
| Dashboard.PropertyKey | app.js:98 | a cuisine string is its own property key, and `undefined` is looked up as "undefined"; the key "undefined" comes from exactly those two values |
| Dashboard.Dashboard.constructor | app.js:26-28 | the script starts with no data and the stored cuisine and meal; a missing or empty stored value falls back to "international" or "Breakfast"; the state is valid |
| Dashboard.Dashboard.Load | app.js:185 | loading a parsed document (whose cuisine key list matches its keys, as `JSON.parse` builds it) sets `data`, leaves the selection alone and keeps the state valid |
| Dashboard.Dashboard.ChooseCuisine | app.js:69-70 | a cuisine-tab click sets `cuisine` and nothing else, and keeps the state valid |
| Dashboard.Dashboard.ChooseMeal | app.js:87-88 | a meal-tab click sets `meal` and nothing else, and keeps the state valid |
| Dashboard.Dashboard.ApplyCuisineFallback | app.js:59-61 | with a loaded cuisine table, `cuisine` becomes `ResolveCuisine` of the table's keys and the old choice, and on a non-empty table it is then a cuisine the table holds; without a table, `Object.keys` throws, so `ok` is false and nothing changes |
| Dashboard.Dashboard.CurrentRecipe | app.js:98 | today's recipe (offset 0) for the current cuisine and meal exists exactly when their list is non-empty and today's day number is non-negative or a multiple of the length, and it is then the entry at the day number modulo the length |
| Dashboard.Dashboard.OpenPrep | app.js:145-156 | the prep list is `PrepItemsOf` the look-ahead from the current meal, for the current cuisine |

## Left out

- DOM building, event wiring, the modal's show and hide, and the HTML templates (app.js:59-134, 157-180). These only display the values the model computes.
- `fetch` of `recipes.json` and the error display of `init` (app.js:39-43, 183-193). This is network I/O. `Load` takes the parsed document.
- `localStorage` writes (app.js:71, 89). These are external persistence. The reads at app.js:27-28 are the constructor's parameters.
- The clock tick, `setInterval`, and the locale formatting (app.js:31-36, 99-100). These use timers and locale data.
- Turning a `Date` into a UTC-midnight millisecond count (app.js:47-48). This needs the platform date library, so the count is a parameter.
- `OpenPrep` reads the clock once for the whole list. The source reads it once per slot, so a list built across midnight could mix two days. That case is not modelled.
- `DayNumber`: numbers are unbounded integers, not 64-bit floats. The rounding of very large millisecond counts is not modelled.
- The structure of `recipes.json` is not validated by the source. The model assumes that recipe lists are lists, that every entry is a recipe object with a string `title`, and that `prepNotes`, if present, is a string. A `null` entry (shown as "No recipe") and a missing `title` cannot be represented. A non-string note would make `trim` throw.
- Property lookups see only a table's own keys. A cuisine or meal name that names an inherited `Object.prototype` member is not modelled.
- `Dashboard.Dashboard.cuisine` is `None` after the fallback runs on an empty table, which is JavaScript's `undefined`. Lookups then use the key "undefined", as JavaScript does (`PropertyKey`).
- Strings are sequences of Unicode scalar values, not UTF-16 code units. ECMAScript's WhiteSpace, LineTerminator and `\w` sets are all single code units, so `trim` and `toTitle` agree with the source on them.
- Ingredient parsing, grocery aggregation, quantity formatting and checked-set merging are not part of this model. That code is not in `app.js`.
