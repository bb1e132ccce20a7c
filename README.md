# Flashcard scheduler and session, modelled in Dafny

The program is a browser flashcard tool for idioms. At startup it loads
a progress map (card `ID` → `{ dueDate: "YYYY-MM-DD", … }`) from one
storage slot. It sorts the dataset once by stored due date, with cards
that have no due date last, and then shows one card at a time. The
"back" and "skip" buttons move one card with wraparound. A click on a
list row jumps to that card. A click on a card face flips it, and every
render turns it front side up again. As intended (see below), the buttons
"again", "good" and "easy" schedule the current card 1, 3 or 7 days from
today, save the whole map and move on one card. The list marks a due date as overdue
when it falls strictly before today, and shows cards without one as
"Unseen".

The model has four modules:

- `Progress` (progress.dfy) holds the card and entry values, the storage
  slot with load and save, the outcome table, the review update and the
  due cell.
- `Ordering` (ordering.dfy) holds the sort key, the comparator
  `dateA - dateB` as a JavaScript number, the way the sort reads that
  number, and the deck order. The deck order is a stable insertion sort,
  and the module proves it is the only sorted order that keeps ties in
  dataset order.
- `Session` (session.dfy) holds the wraparound index arithmetic, the
  card side, the `updateEntries` loop, and the class `FlashcardSession`.
  The class has the deck, `currentIndex`, the progress map, the slot and
  the side, with one method per handler.
- `Scenarios` (scenarios.dfy) works through a three-card example.

Dates are integer day numbers. "Today" is a parameter wherever the
source calls `new Date()`.

Two evident defects are modelled by their evident intent. A comment in
the Dafny marks each one, and both are logged under Findings:

- index.js:240 calls an undefined `newIDate`. The model uses `new Date`.
- index.js:241 keys the map by `card.id`. The model uses `ID`, as
  lines 22, 124 and 141 do.

Two more facts about the code shape the model:

- A corrupt stored value makes `JSON.parse` throw, and nothing catches
  it. So `LoadProgress` returns an error, and the session starts only
  from a slot that loads.
- A row click does no range check. Row indices are in range by
  construction, so `ClickRow` requires `index < |deck|`.

## Model

| member | source | states |
|---|---|---|
| Progress.LoadProgress | index.js:7-10 | an empty slot loads as the empty map, a stored snapshot loads as itself, and loading fails exactly when the stored text does not parse |
| Progress.SaveProgress | index.js:13-15 | the slot written holds the whole map: loading it gives back exactly the map saved |
| Progress.StoredDue | index.js:141 | the stored due day of a card is absent when the card has no entry, and otherwise is its entry's due date, which may itself be absent |
| Progress.ShowDue | index.js:141-150 | the cell reads "Unseen" exactly when there is no due date; otherwise it shows that date and is marked overdue exactly when the date is strictly before today |
| Progress.DayOffset | index.js:232 | every outcome schedules the card at least one day ahead |
| Progress.DayOffsetOrdered | index.js:232 | again, good and easy are 1, 3 and 7 days, in increasing order |
| Progress.NextDueDate | index.js:239-240 | the new due day is strictly after today, by exactly the outcome's offset |
| Progress.RecordReview | index.js:237-241 | the reviewed card's entry exists afterwards, with due date today + offset; an existing entry keeps its other fields, and a new one has none; the key set gains only this card; every other entry is unchanged |
| Progress.ReviewSetsOnlyThisDue | index.js:241 | after a review, the card's stored due day is the new date and every other card's stored due day is as before |
| Progress.OverdueBoundary | index.js:141-150 | due yesterday is overdue; due today or tomorrow is not; no due date shows "Unseen" with no overdue mark |
| Progress.OverdueExactlyAfterDue | index.js:145-147 | a dated card is overdue exactly on the days after its due day, so once overdue it stays overdue |
| Progress.ReviewedCardNotOverdueUntilDue | index.js:237-241 | a card just reviewed shows its new due date and is overdue exactly on the days after that date, so never on the review day |
| Progress.UpdateDueDateAsWritten | index.js:240 | as written, the due-date update always ends in ReferenceError and yields no map |
| Progress.AsWrittenReviewNeverRecords | index.js:240 | as written, the due-date update never yields the intended map, in which the card is due on today + offset |
| Progress.RecordReviewUnderLowercaseId | index.js:241 | with line 240 fixed, the entry created or updated is the one under the key "undefined": it gains the new due date (today + offset), the key set gains only "undefined", and every other entry is unchanged |
| Progress.LowercaseIdReviewMissesCard | index.js:241 | with line 240 fixed, a review leaves the reviewed card's own due date as it was, so an unseen card stays "Unseen" |
| Ordering.KeyOf | index.js:22-23 | a card's key is Infinity exactly when it has no stored due date, and otherwise is the stored due day |
| Ordering.Difference | index.js:24 | `dateA - dateB` is NaN exactly for two undated cards, -Infinity exactly for a dated card against an undated one, and finite exactly for two dated cards, with the sign of the difference of their days |
| Ordering.PutsAfter | index.js:20-24 | the sort puts the first card after the second only on a value that does not count as equal; NaN and -Infinity never do |
| Ordering.CountsAsEqual | index.js:20-24 | the sort reads NaN as "equal", and never reads an infinite value as "equal" |
| Ordering.ComparatorMeansKeyOrder | index.js:20-24 | the comparator value puts a after b exactly when a's key is not at most b's; it reads as "equal" (0 or NaN) exactly on equal keys, including two undated cards |
| Ordering.KeyLeTotalOrder | index.js:20-24 | KeyLe, the order the comparator's values stand for once NaN is read as +0, is reflexive, antisymmetric, transitive and total |
| Ordering.Insert | index.js:19-25 | inserting a card into a sorted sequence gives a sorted sequence holding the same cards plus that one |
| Ordering.SortDeck | index.js:19-25 | the deck is a permutation of the dataset and is sorted by key: due days ascending, undated cards last |
| Ordering.DatedBeforeUndated | index.js:21-23 | in the deck, every card with a due date comes before every card without one |
| Ordering.DatedAscending | index.js:22-24 | in the deck, dated cards appear in ascending due-day order |
| Ordering.InsertWithKey | index.js:19-25 | an insertion puts the new card ahead of the cards it ties with and changes nothing for other keys |
| Ordering.SortDeckKeepsTies | index.js:19-25 | the sort is stable: for every key, the cards with that key appear in the deck in their dataset order |
| Ordering.UndatedKeepDatasetOrder | index.js:21-24 | undated cards keep their dataset order, and so do cards due on the same day |
| Ordering.SortedByTiesUnique | index.js:19-25 | two sorted sequences that agree on the cards of every key are equal |
| Ordering.IsTheStableSort | index.js:19-25 | any sorted order of the dataset that keeps every group of equal keys in dataset order is the deck, so every stable sort gives the same deck |
| Session.NextIndex | index.js:216-218 | the next index stays in [0, n): one on, with n-1 wrapping to 0 |
| Session.PrevIndex | index.js:211-213 | the previous index stays in [0, n): one back, with 0 wrapping to n-1 |
| Session.NavigationInverse | index.js:211-218 | previous undoes next and next undoes previous; on a one-card deck both stay at 0 |
| Session.NextTimesMoves | index.js:216-218 | k presses of "next", up to a full round, move k cards on and wrap past the end at most once |
| Session.FullCircle | index.js:216-218 | from any card, "next" reaches every card within one round, and n presses return to the start |
| Session.Flipped | index.js:207 | a flip always changes the side |
| Session.FlipTwice | index.js:207 | two flips return to the starting side |
| Session.UpdateEntries | index.js:134-153 | one row per deck card; exactly the current card's row is highlighted; each due cell shows the stored date with the overdue mark for today, or "Unseen" |
| Session.FlashcardSession.constructor | index.js:18-27 | startup loads the map from the slot, sorts the dataset by it into the deck, starts at index 0 with the front side up, and the slot loads back to the map in memory |
| Session.FlashcardSession.PreviousCard | index.js:211-213 | the index becomes the previous index with wraparound, and nothing else changes |
| Session.FlashcardSession.NextCard | index.js:216-218 | the index becomes the next index with wraparound, and nothing else changes |
| Session.FlashcardSession.RenderCard | index.js:158-194 | the side is reset to front, the shown card is the one at the current index, and the rows are those of the list refresh |
| Session.FlashcardSession.ClickCard | index.js:202-208 | a click on a card face flips the side; any other click leaves it |
| Session.FlashcardSession.ClickRow | index.js:113-118 | a row click jumps to that row's card and renders it, front side up, with that row highlighted; progress and slot are unchanged |
| Session.FlashcardSession.BackButton | index.js:220-223 | the back button moves one card back with wraparound and renders front side up |
| Session.FlashcardSession.SkipButton | index.js:224-227 | the skip button moves one card on with wraparound and renders front side up |
| Session.FlashcardSession.UpdateDueDate | index.js:237-244 | the map becomes the review update of the current card; the slot is overwritten with the new map; the refreshed list shows the new date on the current row, not overdue, and every other row as stored |
| Session.FlashcardSession.Review | index.js:246-260 | each review button records the review of the card shown, saves the map, so the slot loads back to it, advances exactly one card with wraparound, and renders front side up; the deck is not re-sorted |
| Session.FlashcardSession.ReviewAsWritten | index.js:246-260 | as written, a review button press ends in ReferenceError; the method has no modifies clause, so the index, the map, the slot and the side stay as they were |
| Scenarios.InitialOrderExample | index.js:19-25 | dataset 1, 2, 3 with only 2 due on 2024-01-01 sorts to 2, 1, 3; card 2 is overdue on 2024-01-02 and card 1 is "Unseen" |
| Scenarios.ReviewGoodExample | index.js:237-241 | "good" on 2024-01-02 makes card 2 due on 2024-01-05 |
| Scenarios.ReviewExample | index.js:246-260 | a session on that data shows card 1 after "good" and card 2 again after "back", and the slot holds the new map |

## Left out

- Fetching and parsing the dataset (index.js:1-4) is network input and a foreign CSV library. The dataset is an input sequence of records.
- `localStorage` and the JSON encoding (index.js:7-15) are reduced to a slot that is empty, holds a snapshot of the map, or holds text that does not parse. A stored `null` is not modelled. It makes the property look-up throw a TypeError at startup: at index.js:22, or at index.js:124 on a one-card dataset, where the sort never calls the comparator. A stored number, string or boolean is not modelled either. It loads without error and every look-up gives `undefined`, so it reads as a map with no due dates. With line 240 fixed, the first review would then throw a TypeError at index.js:241, because module code runs in strict mode. Every JSON value of an entry other than `dueDate` is modelled as a string field in `extra`.
- Stored `dueDate` texts that are non-empty but not valid dates are not modelled. A stored due date is a day number or absent. Such a text would give an Invalid Date, and so a NaN comparator value and no overdue mark.
- JavaScript `Date` details are not modelled: timezone offsets, `setHours`, `toISOString`, and UTC parsing of "YYYY-MM-DD" against local midnight (index.js:145-147, 239-241). Days are integers, so the day shift these can cause around midnight or west of UTC is not captured.
- The "YYYY-MM-DD" text of a due date is not modelled. It is taken to be an injective encoding of the day.
- The empty dataset is excluded by the constructor's requires. There `% 0` is NaN and `cards[0]` is undefined, and the page does not work.
- `Array.prototype.sort` is modelled by its result, not by its in-place algorithm. `IsTheStableSort` shows that every stable sort that reads NaN as +0 gives the same result.
- The ECMAScript standard's definition of `Array.prototype.sort` (with its SortCompare step) calls a comparator that returns NaN inconsistent, and then leaves the sort order implementation-defined. `dateA - dateB` is NaN for any two undated cards, a card compared with itself included. The model follows the step in which the sort reads NaN as +0, and then a stable sort. What an engine might do with the freedom the standard leaves is not modelled.
- DOM work is presentation and is left out: table building in `initEntries` (index.js:111-131), class toggling, the list toggle (index.js:197-199), card faces, images, emoji, and the `levelStars` label (index.js:176-177). The due text `initEntries` writes agrees with `ShowDue`, without the overdue mark.
- Random colours, emoji and sparkles (index.js:75-108) use `Math.random` and are presentation.
- The `setTimeout` delay and the transition duration read from CSS (index.js:155, 185-190) are timing of the animation.

## Findings

| source | as written | input that shows it | evidently intended | confidence | as-written member | corrected member |
|---|---|---|---|---|---|---|
| index.js:240 | `newIDate(...)` names a function that does not exist, so every press of again, good or easy throws ReferenceError before the map is updated, saved or the card advanced | any review, e.g. "good" on card 2 | `new Date(...)`: the due date is today plus the offset | high (not executed) | Session.FlashcardSession.ReviewAsWritten | Progress.RecordReview |
| index.js:241 | the entry is keyed by `card.id`, which records from the `ID` column lack. With line 240 fixed, every review would write the entry under "undefined" and never the card's own. As written, line 240 throws first, so this is a latent defect that line 240 hides | with line 240 fixed, reviewing card "2" with no entry: it stays "Unseen" | key by `card.ID`, as lines 22, 124 and 141 do | high (not executed) | Progress.LowercaseIdReviewMissesCard | Progress.ReviewSetsOnlyThisDue |
