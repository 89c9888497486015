/**
 * The diary's records: the entry shape the component stores, the form it
 * edits, the twelve entries it starts with, and the entry `saveEntry` builds
 * from the form.
 */
module Entries {
  import opened Seqs
  import opened LexOrder
  import IsoDates

  /**
   * One logged day. `dayLabel` (the component's `label`) is present only on the initial entries; `pain` is
   * `None` for a stored record whose pain is `null` or `undefined`.
   */
  datatype Entry = Entry(
    id: string,
    date: string,
    dayLabel: Option<string>,
    pain: Option<int>,
    onset: string,
    duration: string,
    location: string,
    triggers: seq<string>,
    medication: string,
    relief: string,
    notes: string,
    logged: bool)

  /** The form state; its pain always holds the slider's number. */
  datatype Form = Form(
    date: string,
    pain: int,
    onset: string,
    duration: string,
    location: string,
    triggers: seq<string>,
    medication: string,
    relief: string,
    notes: string)

  /** The rating with a missing pain counted as 0, as the peak comparator reads it. */
  function PainOr0(e: Entry): int {
    match e.pain
    case Some(p) => p
    case None => 0
  }

  /** The form the component starts with, dated by `today()`. */
  function InitialForm(today: string): Form {
    Form(date := today, pain := 5, onset := "", duration := "", location := "",
         triggers := [], medication := "None", relief := "", notes := "")
  }

  /**
   * The entry `saveEntry` stores: the form's fields, an id made of the form's
   * date, `_` and the millisecond clock reading `now`, and the logged flag set.
   */
  function NewEntry(form: Form, now: nat): Entry {
    Entry(id := form.date + "_" + IsoDates.DecimalString(now), date := form.date, dayLabel := None,
          pain := Some(form.pain), onset := form.onset, duration := form.duration,
          location := form.location, triggers := form.triggers, medication := form.medication,
          relief := form.relief, notes := form.notes, logged := true)
  }

  /** `INITIAL_ENTRIES`: days 1 to 12, 2025-02-08 to 2025-02-19. */
  const InitialEntries: seq<Entry> := [
    Entry(
      id := "2025-02-08", date := "2025-02-08", dayLabel := Some("Day 1 — Super Bowl Night"),
      pain := Some(7), onset := "Evening", duration := "All night",
      location := "Whole Head", triggers := ["Unknown"], medication := "None",
      relief := "",
      notes := "First night of headache. Super Bowl Sunday.",
      logged := true),
    Entry(
      id := "2025-02-09", date := "2025-02-09", dayLabel := Some("Day 2 — Volleyball"),
      pain := Some(6), onset := "Afternoon", duration := "All day",
      location := "Whole Head", triggers := ["Exercise", "Food/drink"], medication := "None",
      relief := "No relief",
      notes := "Played volleyball. Felt dizzy during the game. Did not eat beforehand. Tired that night — napped when she got home.",
      logged := true),
    Entry(
      id := "2025-02-10", date := "2025-02-10", dayLabel := Some("Day 3 — Receding"),
      pain := Some(4), onset := "Morning", duration := "All day",
      location := "Whole Head", triggers := ["Food/drink"], medication := "None",
      relief := "Partial relief",
      notes := "Felt like it was receding — not as bad. Had alcohol.",
      logged := true),
    Entry(
      id := "2025-02-11", date := "2025-02-11", dayLabel := Some("Day 4 — Doctor Visit"),
      pain := Some(5), onset := "Morning", duration := "All day",
      location := "Whole Head", triggers := ["Unknown"], medication := "Naproxen",
      relief := "",
      notes := "Saw family doctor (not her usual doctor). Went out at night but did not drink because of the headache. Took at least 1 Naproxen.",
      logged := true),
    Entry(
      id := "2025-02-12", date := "2025-02-12", dayLabel := Some("Day 5 — Pasta Class"),
      pain := Some(5), onset := "Afternoon", duration := "All day",
      location := "Whole Head", triggers := ["Food/drink"], medication := "Naproxen",
      relief := "",
      notes := "Pasta making class. Had wine that night. Headache coming in and out throughout the day. Took 1 Naproxen.",
      logged := true),
    Entry(
      id := "2025-02-13", date := "2025-02-13", dayLabel := Some("Day 6 — Mild"),
      pain := Some(3), onset := "Morning", duration := "All day",
      location := "Whole Head", triggers := ["Unknown"], medication := "Naproxen",
      relief := "Partial relief",
      notes := "Mild headache. Severity not recalled. Took 2 Naproxen.",
      logged := true),
    Entry(
      id := "2025-02-14", date := "2025-02-14", dayLabel := Some("Day 7 — Valentine's Day, Mild"),
      pain := Some(3), onset := "Morning", duration := "All day",
      location := "Whole Head", triggers := ["Unknown"], medication := "Naproxen",
      relief := "",
      notes := "Headache mild throughout the day. Took 1 Naproxen.",
      logged := true),
    Entry(
      id := "2025-02-15", date := "2025-02-15", dayLabel := Some("Day 8 — Not Great"),
      pain := Some(6), onset := "Morning", duration := "All day",
      location := "Whole Head", triggers := ["Unknown"], medication := "Naproxen",
      relief := "",
      notes := "Not a good day. Was complaining to her mom about the headache. May have taken Naproxen (does not remember). Last confirmed day of Naproxen use.",
      logged := true),
    Entry(
      id := "2025-02-16", date := "2025-02-16", dayLabel := Some("Day 9 — Mild"),
      pain := Some(3), onset := "Morning", duration := "All day",
      location := "Whole Head", triggers := ["Unknown"], medication := "None",
      relief := "",
      notes := "Mild. No medication taken. Naproxen stopped.",
      logged := true),
    Entry(
      id := "2025-02-17", date := "2025-02-17", dayLabel := Some("Day 10 — Mild"),
      pain := Some(3), onset := "Morning", duration := "All day",
      location := "Whole Head", triggers := ["Unknown"], medication := "Tylenol",
      relief := "",
      notes := "Mild. Took 2x Extra Strength Tylenol.",
      logged := true),
    Entry(
      id := "2025-02-18", date := "2025-02-18", dayLabel := Some("Day 11 — Notably Worse"),
      pain := Some(6), onset := "Morning", duration := "All day",
      location := "Whole Head", triggers := ["Stress"], medication := "None",
      relief := "No relief",
      notes := "Headache notably worse. No medication taken. Increasing frustration that headache is not resolving after multiple weeks.",
      logged := true),
    Entry(
      id := "2025-02-19", date := "2025-02-19", dayLabel := Some("Day 12 — Worse"),
      pain := Some(7), onset := "Morning", duration := "All day",
      location := "Whole Head", triggers := ["Stress"], medication := "Tylenol",
      relief := "",
      notes := "Same as yesterday or worse. Day 12 of continuous headache. Took 2x Extra Strength Tylenol at 5:30 PM. Relief TBD.",
      logged := true)
  ]

  /** The seeded diary's ratings, day by day. */
  const InitialPains: seq<int> := [7, 6, 4, 5, 5, 3, 3, 6, 3, 3, 6, 7]

  /** The first date and the ratings of the seeded diary. */
  lemma InitialRatings()
    ensures |InitialEntries| == |InitialPains| == 12
    ensures InitialEntries[0].date == "2025-02-08"
    ensures forall j :: 0 <= j < 12 ==> InitialEntries[j].pain == Some(InitialPains[j])
  {
  }

  /** The seeded diary's dates, day by day. */
  const InitialDates: seq<string> := [
    "2025-02-08", "2025-02-09", "2025-02-10", "2025-02-11", "2025-02-12", "2025-02-13",
    "2025-02-14", "2025-02-15", "2025-02-16", "2025-02-17", "2025-02-18", "2025-02-19"]

  /** The dates of the seeded diary. */
  lemma InitialDatesListed()
    ensures |InitialEntries| == |InitialDates| == 12
    ensures forall j :: 0 <= j < 12 ==> InitialEntries[j].date == InitialDates[j]
  {
  }

  /** Each seeded date comes strictly before the next one. */
  lemma InitialDatesAscending()
    ensures forall i :: 0 <= i < |InitialDates| - 1 ==>
      LexLeq(InitialDates[i], InitialDates[i + 1]) && InitialDates[i] != InitialDates[i + 1]
  {
    var d := InitialDates;
    forall i | 0 <= i < |d| - 1 ensures LexLeq(d[i], d[i + 1]) && d[i] != d[i + 1] {
      LexFirstDifference(d[i], d[i + 1], if i == 1 then 8 else 9);
    }
  }
}
