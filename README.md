# Headache diary: the entry-collection rules

This project models the logic of the `HeadacheTracker` React component of the
headache diary (`src/App.jsx`) and proves properties of it in Dafny. The
component keeps one list of daily entries and one form. The model covers:

- **Updating the list.** Saving the form is an upsert keyed by date: every
  entry with the form's date is dropped, the new entry is appended, and the
  list is sorted by date string. Deleting removes the entries with a given id,
  but only after confirmation. Toggling a trigger label flips whether it is in
  the form's trigger list.
- **The statistics bar.** The mean pain over rated entries. The peak entry,
  which is the first entry after a stable sort by pain, highest first, with a
  missing pain counted as 0. The guards that decide whether each value is shown.
- **The history list.** A copy of the entries sorted by date, latest first.
- **ISO date strings.** `today()` builds `YYYY-MM-DD`. `formatDate` splits
  such a string on `-` and converts each piece with `Number`.

Modules, one per concern:

- `Seqs`: `Option`, `Array.prototype.filter` as `Filter`, and subsequences.
- `LexOrder`: lexicographic order on strings, standing in for `localeCompare`.
- `IsoDates`: `today()`, `padStart`, `String(n)`, `split` and `Number`.
- `Entries`: the entry and form records, `INITIAL_ENTRIES`, and the entry
  built from the form.
- `Sorting`: the three comparators and a stable sort.
- `EntryList`: the pure updaters behind `toggleTrigger`, `saveEntry` and
  `deleteEntry`, and the history order.
- `Stats`: `avgPain`, `maxEntry` and the display guards.
- `Tracker`: a class holding the `entries` and `form` state cells. Its
  methods are the three event handlers, and each one assigns the result of a
  pure updater.

`Array.prototype.sort` has been stable since ES2019, and any stable sort
gives the same output, so the sort is modelled as insertion sort.

The code (`src/App.jsx:262`) averages over every entry whose `pain` is neither `null`
nor `undefined`, so a rating of 0 counts towards the mean. Only the display
guard (`src/App.jsx:298-299`) tests truthiness, and it hides the mean
(showing "—") when no rating is non-zero. The model follows the code:
`Stats.AvgPainIsMean` includes 0 ratings, and `Stats.AvgDisplay` returns
nothing exactly when every rating is 0 or missing.

## Model

| member | source | states |
|---|---|---|
| Seqs.Filter | src/App.jsx:249 | `filter` keeps exactly the elements that pass the test, and is no longer than its input |
| Seqs.FilterMultiplicity | src/App.jsx:258 | a kept element occurs as often as in the input; a dropped one not at all |
| Seqs.FilterIsSubsequence | src/App.jsx:242 | `filter` keeps the surviving elements in their input order |
| Seqs.FilterConcat | src/App.jsx:242 | filtering a concatenation is the concatenation of the filtered parts |
| Seqs.FilterKeepsAll | src/App.jsx:242 | when every element passes, `filter` returns the list unchanged |
| Seqs.FilterIdempotent | src/App.jsx:258 | filtering twice by the same test is filtering once |
| Seqs.FilterComplementLength | src/App.jsx:249 | the elements kept and those dropped add up to the whole list |
| LexOrder.LexLeq | src/App.jsx:250 | `a.localeCompare(b) <= 0` on date strings (here and in the history sort at line 419), as lexicographic order; `LexOrder.LexTotal`, `LexOrder.LexTransitive` and `LexOrder.LexAntisymmetric` state that it is a total order |
| LexOrder.LexReflexive | src/App.jsx:250 | every date string compares equal to itself |
| LexOrder.LexTotal | src/App.jsx:250 | any two date strings are comparable |
| LexOrder.LexAntisymmetric | src/App.jsx:250 | strings that compare equal both ways are the same string |
| LexOrder.LexTransitive | src/App.jsx:250 | the order on date strings is transitive |
| LexOrder.LexFirstDifference | src/App.jsx:250 | strings that agree up to a position and differ there are ordered, strictly, by the characters at that position |
| LexOrder.LexStrictTransitive | src/App.jsx:250 | a strict step followed by a non-strict one is strict |
| IsoDates.Today | src/App.jsx:198-201 | `today()`: year, one-based month and day joined by `-`, month and day padded to two digits; its contract is stated by `IsoDates.TodayRoundTrip` and `IsoDates.TodayShape` |
| IsoDates.Number | src/App.jsx:193 | `Number` on a piece of the date string: its decimal value, or `NaN` for a non-digit piece; `IsoDates.DecimalStringValue` and `IsoDates.ZeroPaddedValue` state what it reads back |
| IsoDates.NumberAt | src/App.jsx:193 | one destructured number of `formatDate`: an existing piece converted with `Number`, `undefined` for a missing piece, which `new Date` reads as `NaN`; stated through `IsoDates.SplitThreeFields` |
| IsoDates.SplitDate | src/App.jsx:193 | `formatDate`'s split into three numbers; `IsoDates.SplitThreeFields` and `IsoDates.TodayRoundTrip` state its results |
| IsoDates.DecimalString | src/App.jsx:200 | `String(n)` is a non-empty string of decimal digits with no leading zero, except for 0 itself |
| IsoDates.PadStart | src/App.jsx:200 | `padStart` yields a string of length max(|s|, width) |
| IsoDates.PadStartContents | src/App.jsx:200 | `padStart` returns the string itself when it is already long enough, and otherwise the string behind exactly `width - |s|` copies of the fill character |
| IsoDates.Split | src/App.jsx:193 | `split` always yields at least one piece |
| IsoDates.DecimalStringValue | src/App.jsx:193-200 | `Number(String(n)) == n`: reading back the digits gives the number |
| IsoDates.LeadingZeroValue | src/App.jsx:193-200 | a leading `0` does not change the value `Number` reads |
| IsoDates.ZeroPaddedValue | src/App.jsx:193-200 | zero padding keeps a digit string a digit string of the same value |
| IsoDates.SplitWithoutSeparator | src/App.jsx:193 | a string without `-` splits into itself alone |
| IsoDates.SplitAtSeparator | src/App.jsx:193 | a first piece free of `-` is cut off at the `-` that follows it |
| IsoDates.SplitThreeFields | src/App.jsx:193 | three digit strings joined by `-` split and convert back into their three values |
| IsoDates.TodayRoundTrip | src/App.jsx:193-200 | splitting and converting `today()`'s string gives back the year, the one-based month and the day, for every clock reading |
| IsoDates.FourDigitYear | src/App.jsx:200 | a year from 1000 to 9999 prints as four digits |
| IsoDates.TwoDigitField | src/App.jsx:200 | a month or day from 1 to 99, padded to 2, is two characters long |
| IsoDates.TodayShape | src/App.jsx:198-201 | for a four-digit year, month index 0 to 11 and day 1 to 31, `today()` is 10 characters long, with `-` at positions 4 and 7 and digits everywhere else |
| Entries.NewEntry | src/App.jsx:247 | the entry a save builds from the form; its contents are stated by `EntryList.SavedEntryContent` |
| Entries.InitialForm | src/App.jsx:206-216 | the blank form: date `today()`, pain 5, no triggers, medication "None", every text field empty; `Tracker.Tracker.constructor` states it as the starting form |
| Entries.PainOr0 | src/App.jsx:263 | the peak comparator's fallback of a missing `pain` to 0: a missing rating counts as 0; `Stats.PeakIsEarliestMaximum` and `Stats.PeakDisplayNoPositive` use it |
| Entries.InitialEntries | src/App.jsx:21-190 | the twelve seeded entries, field by field; `Entries.InitialRatings`, `Entries.InitialDatesListed` and `EntryList.InitialEntriesOrdered` state their ratings, dates and order |
| Entries.InitialRatings | src/App.jsx:21-190 | the seeded diary has 12 entries, starts on 2025-02-08, and has ratings 7, 6, 4, 5, 5, 3, 3, 6, 3, 3, 6, 7 |
| Entries.InitialDatesListed | src/App.jsx:21-190 | the seeded diary's dates are 2025-02-08 to 2025-02-19, one per entry in that order |
| Entries.InitialDatesAscending | src/App.jsx:21-190 | each seeded date comes strictly before the next |
| Sorting.Le | src/App.jsx:250-263 | the three comparators (date ascending at line 250, pain descending at line 263, date descending at line 419) as "may stay before"; `Sorting.LeTotal`, `Sorting.LeTransitive` and `Sorting.SameDateKey` state their properties |
| Sorting.LeTotal | src/App.jsx:250 | each comparator orders any two entries one way or the other |
| Sorting.LeTransitive | src/App.jsx:250 | each comparator is transitive |
| Sorting.SameDateKey | src/App.jsx:250 | the date comparators see a tie exactly when the dates are equal |
| Sorting.Insert | src/App.jsx:250 | one insertion step adds exactly the inserted entry to the multiset |
| Sorting.Sort | src/App.jsx:250 | the sort is a permutation of its input |
| Sorting.SortSorted | src/App.jsx:250 | the sort's output is ordered by its comparator |
| Sorting.InsertSorted | src/App.jsx:250 | inserting into an ordered list keeps it ordered |
| Sorting.InsertStable | src/App.jsx:250 | an insertion does not move the new entry past an entry that ties with it |
| Sorting.SortStable | src/App.jsx:250 | stability: entries that tie come out in the order they went in |
| EntryList.ToggleTrigger | src/App.jsx:239-244 | a present label is removed; an absent one is added as the last label; every other label's membership is unchanged |
| EntryList.Upsert | src/App.jsx:248-250 | the `setEntries` updater of a save; its contract is stated by `EntryList.UpsertSingleEntryForDate`, `EntryList.UpsertKeepsOtherDates`, `EntryList.UpsertSorted` and `EntryList.UpsertKeepsDatesUnique` |
| EntryList.SaveEntry | src/App.jsx:247-250 | a save: the form's entry upserted into the list; `EntryList.SavedEntryContent` and the `Upsert` lemmas state the result |
| EntryList.DeleteEntry | src/App.jsx:256-259 | the delete updater, guarded by the confirmation; stated by `EntryList.DeleteRemovesExactly`, `EntryList.DeleteNoop`, `EntryList.DeleteIdempotent` and `EntryList.DeleteKeepsOrderAndUniqueness` |
| EntryList.HistoryOrder | src/App.jsx:419 | the history list's order; stated by `EntryList.HistoryIsDescendingPermutation` |
| EntryList.ToggleRemovesPresent | src/App.jsx:242 | removing a present label drops every occurrence of it; every other label keeps its count and its order |
| EntryList.ToggleAppendsAbsent | src/App.jsx:242 | an absent label is appended at the end |
| EntryList.ToggleTwiceRestores | src/App.jsx:239-244 | toggling an absent label twice restores the original list |
| EntryList.UpsertSingleEntryForDate | src/App.jsx:247-250 | after a save, the new entry is in the list exactly once and is the only entry with its date |
| EntryList.UpsertKeepsOtherDates | src/App.jsx:249-250 | every entry with another date keeps its count and nothing else is added; the new length is the old length, minus the entries with that date, plus one |
| EntryList.UpsertSorted | src/App.jsx:250 | the list a save produces is in ascending date order |
| EntryList.SavedEntryContent | src/App.jsx:247 | the saved entry carries the form's fields, the id `date + "_" + now`, `logged` set to true, and no label (the form of lines 206-216 has none) |
| EntryList.UpsertKeepsDatesUnique | src/App.jsx:249-250 | a save keeps one entry per date if the list had one entry per date |
| EntryList.SubsequenceKeepsDatesUnique | src/App.jsx:258 | removing entries keeps dates unique |
| EntryList.SubsequenceMembers | src/App.jsx:258 | a sublist holds only elements of the list |
| EntryList.InsertKeepsDatesUnique | src/App.jsx:250 | inserting an entry with a new date keeps dates unique |
| EntryList.SortKeepsDatesUnique | src/App.jsx:250 | sorting keeps dates unique |
| EntryList.DeleteRemovesExactly | src/App.jsx:256-259 | a confirmed delete keeps exactly the entries with another id, in order and each as often as before |
| EntryList.DeleteNoop | src/App.jsx:256-259 | deleting an id that no entry carries, or declining the confirmation, changes nothing |
| EntryList.DeleteIdempotent | src/App.jsx:256-259 | deleting the same id twice is deleting it once |
| EntryList.DeleteKeepsOrderAndUniqueness | src/App.jsx:258 | deleting keeps an ordered list with one entry per date that way |
| EntryList.SubsequenceKeepsSorted | src/App.jsx:258 | removing entries keeps ascending date order |
| EntryList.StrictlyAscendingDates | src/App.jsx:250 | a list whose dates strictly ascend from each entry to the next is in date order with one entry per date |
| EntryList.InitialEntriesOrdered | src/App.jsx:21-190 | `INITIAL_ENTRIES` is in ascending date order with one entry per date |
| EntryList.HistoryIsDescendingPermutation | src/App.jsx:419 | the history shows every entry, as often as stored, with the latest date first |
| Stats.TotalPain | src/App.jsx:262 | the reference sum of the ratings, a missing one counted as 0; `Stats.TotalPainBounds` and `Stats.TotalPainIsSum` state its value |
| Stats.MeanFold | src/App.jsx:262 | the `reduce` of `avgPain`, term by term; `Stats.MeanFoldIsSum` states that it is the total over the count |
| Stats.AvgPain | src/App.jsx:262 | `avgPain`; `Stats.AvgPainIsMean`, `Stats.AvgPainBounds` and `Stats.AvgPainBetweenRatings` state what it is |
| Stats.IsRated | src/App.jsx:262 | the filter test of `avgPain`: the pain is neither `null` nor `undefined`; `Stats.Rated` states what it keeps |
| Stats.Rated | src/App.jsx:262 | the entries averaged are exactly those whose pain is present |
| Stats.MeanFoldIsSum | src/App.jsx:262 | the `reduce` that adds `pain / length` term by term gives the total divided by the length |
| Stats.AvgPainIsMean | src/App.jsx:262 | `avgPain` is the exact mean of the ratings present, 0 included; it is 0 when no entry is rated |
| Stats.TotalPainBounds | src/App.jsx:262 | ratings within `[lo, hi]` give a total within `[n * lo, n * hi]` |
| Stats.MeanBetween | src/App.jsx:262 | dividing such a total by the count gives a value within `[lo, hi]` |
| Stats.AvgPainBounds | src/App.jsx:262 | when every rating lies in `[lo, hi]` (the slider's 0 to 10), so does the mean |
| Stats.LowestRated | src/App.jsx:262 | some rated entry has a rating no other rated entry is below |
| Stats.HighestRated | src/App.jsx:262 | some rated entry has a rating no other rated entry is above |
| Stats.AvgPainBetweenRatings | src/App.jsx:262 | the mean lies between the lowest and the highest rating present |
| Stats.HasTruthyPain | src/App.jsx:298-299 | the display guard's `e => e.pain` test: present and not 0; `Stats.AvgShown` states the guard |
| Stats.AvgShown | src/App.jsx:298-299 | the mean is shown exactly when some entry has a non-zero rating |
| Stats.AvgDisplay | src/App.jsx:298-299 | "Avg pain" shows "—" exactly when every rating is 0 or missing; otherwise it shows the total over the count of rated entries |
| Stats.MaxEntry | src/App.jsx:263 | the peak is undefined exactly for an empty list, and is otherwise one of the entries |
| Stats.SortHead | src/App.jsx:263 | the pain sort puts the first entry in front unless the front of the sorted rest is rated higher |
| Stats.EarliestMaximumCons | src/App.jsx:263 | an earliest highest-rated entry of the tail gives one of the whole list |
| Stats.SortHeadIsEarliestMaximum | src/App.jsx:263 | the front of the stable pain sort is the earliest entry with the highest rating |
| Stats.PeakIsEarliestMaximum | src/App.jsx:263 | the peak's rating, a missing one counted as 0, is at least every entry's, and no earlier entry has it |
| Stats.PeakDisplay | src/App.jsx:304-305 | the peak cell shows nothing for an empty list; with `Stats.PeakDisplayNoPositive` and `Stats.PeakDisplayAllUnrated`, it shows the first entry's rating when every rating is 0 or missing |
| Stats.PeakDisplayNoPositive | src/App.jsx:263-305 | when every rating is 0 or missing, the stable sort keeps the first entry in front and the cell shows that entry's rating: nothing if it is unrated, 0 if it is rated 0 |
| Stats.PeakDisplayAllUnrated | src/App.jsx:263-305 | a diary in which no entry is rated, the empty one included, shows nothing in the peak cell |
| Stats.PeakDisplayShowsMaximum | src/App.jsx:304-305 | once some rating is positive, "Peak pain" shows a rating that some entry has and that no entry exceeds |
| Stats.FirstMaximumIsPeak | src/App.jsx:263 | when the first entry has the highest rating, it is the peak |
| Stats.TotalPainIsSum | src/App.jsx:262 | the total rating is the sum of the ratings read off one by one |
| Stats.SeededAllRated | src/App.jsx:21-190 | in a list rated like the seeded diary, every entry is rated |
| Stats.SeededTotal | src/App.jsx:21-190 | in a list rated like the seeded diary, the ratings total 58 |
| Stats.SeededFirstHighest | src/App.jsx:21-190 | in a list rated like the seeded diary, the first entry's rating of 7 is the highest |
| Stats.SeededAverage | src/App.jsx:262 | in a list rated like the seeded diary, the mean is 58/12 and it is shown |
| Stats.InitialPeak | src/App.jsx:263 | for `INITIAL_ENTRIES` the peak is the 2025-02-08 entry, and the cell shows 7 |
| Stats.InitialAverage | src/App.jsx:262 | for `INITIAL_ENTRIES` the mean is 58/12, and it is shown |
| Tracker.Tracker.constructor | src/App.jsx:204-216 | the state starts with `INITIAL_ENTRIES` and a blank form dated `today()`, and the invariant `Valid()` (date order, one entry per date) holds |
| Tracker.Tracker.ToggleTrigger | src/App.jsx:239-244 | only the form's triggers change, to the toggled list; `Valid()` is kept |
| Tracker.Tracker.SaveEntry | src/App.jsx:246-251 | the entries become the upsert of the form's entry; the form is unchanged; afterwards the list is in date order, holds the new entry as the only one with its date, and keeps one entry per date if it had one before; `Valid()` is kept |
| Tracker.Tracker.DeleteEntry | src/App.jsx:256-260 | the entries lose exactly those with the id when confirmed, and are unchanged otherwise; the form is unchanged; `Valid()` is kept |

## Left out

- Rendering, styles, the `PAIN_COLORS` lookup and the view switching: user interface only.
- Loading from and saving to `window.storage`, and the JSON parsing: asynchronous browser I/O whose errors are swallowed. So the model never replaces the entries with a stored list, and the tracker's invariant `Valid()` (date order, one entry per date) covers only the states the handlers reach from the seeded diary.
- `window.confirm`: a boolean parameter of the delete (`confirmed`).
- `Date.now()` and `new Date()`: read from outside the program. They are passed in as the millisecond count `now` and as a `Clock` reading (full year, zero-based month, day of the month).
- `setTimeout`, the `saved` flash and the switch to the history view after a save: timers and UI feedback.
- `toLocaleDateString` in `formatDate`: a locale library call that is not part of this model. Only the split into numbers is modelled.
- The form's `onChange` handlers and the location chips: they set single form fields, and the saved entry takes whatever they set.
- Stats.AvgPainIsMean: the mean is exact `real` arithmetic. It does not model the floating-point rounding of the per-term division in the `reduce`, nor `toFixed(1)` and `Math.round` in the display.
- Sorting.Le: `localeCompare` is modelled as lexicographic comparison of characters. This agrees with `localeCompare` on the strings the diary stores as dates: ISO `YYYY-MM-DD` dates, or the empty string a cleared date field gives (`src/App.jsx:328`). It does not agree in general.
- IsoDates.Number: modelled on strings of decimal digits only (the empty string gives 0). Every other string gives `NaN`, which includes signs, whitespace and decimal points that JavaScript would accept.
- IsoDates.Clock: years are non-negative, so `getFullYear()` of a year before year 0 is not modelled.
- Entries.Entry: `pain` is an integer or missing. A stored non-numeric or fractional pain is not modelled. Negative ratings are allowed by the type although the slider only produces 0 to 10; the lemmas hold for them too.
