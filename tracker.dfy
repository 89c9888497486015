/**
 * The `HeadacheTracker` component's two state cells, `entries` and `form`,
 * and the three event handlers that replace them wholesale. Each handler
 * assigns the result of the matching pure updater, so what is proved about
 * the updaters carries over to the new state.
 */
module Tracker {
  import opened Seqs
  import opened Entries
  import opened Sorting
  import IsoDates
  import EntryList

  class Tracker {
    var entries: seq<Entry>
    var form: Form

    /**
     * The handlers keep the list in date order with one entry per date; the
     * seeded diary starts that way.
     */
    ghost predicate Valid()
      reads this
    {
      Sorted(DateAscending, entries) && EntryList.UniqueDates(entries)
    }

    /** `useState(INITIAL_ENTRIES)` and the initial form dated `today()`, read from `clock`. */
    constructor(clock: IsoDates.Clock)
      ensures Valid()
      ensures entries == InitialEntries
      ensures form == InitialForm(IsoDates.Today(clock))
      ensures form.date == IsoDates.Today(clock) && form.triggers == []
    {
      EntryList.InitialEntriesOrdered();
      entries := InitialEntries;
      form := InitialForm(IsoDates.Today(clock));
    }

    /** `toggleTrigger(t)`: flips `t` in the form's triggers; the entries are untouched. */
    method ToggleTrigger(t: string)
      requires Valid()
      modifies this
      ensures Valid()
      ensures form == old(form).(triggers := EntryList.ToggleTrigger(old(form).triggers, t))
      ensures entries == old(entries)
      ensures t in old(form).triggers ==> t !in form.triggers
      ensures t !in old(form).triggers ==> form.triggers == old(form).triggers + [t]
    {
      if t !in form.triggers {
        EntryList.ToggleAppendsAbsent(form.triggers, t);
      }
      form := form.(triggers := EntryList.ToggleTrigger(form.triggers, t));
    }

    /**
     * `saveEntry()` with `Date.now()` passed in as `now`: the entries become
     * the upsert of the form's entry; the form is kept as it is.
     */
    method SaveEntry(now: nat)
      requires Valid()
      modifies this
      ensures Valid()
      ensures entries == EntryList.SaveEntry(old(entries), old(form), now)
      ensures form == old(form)
      ensures Sorted(DateAscending, entries)
      ensures NewEntry(form, now) in entries
      ensures forall e :: e in entries && e.date == form.date ==> e == NewEntry(form, now)
      ensures forall e :: e in entries ==> e.date == form.date || e in old(entries)
      ensures EntryList.UniqueDates(old(entries)) ==> EntryList.UniqueDates(entries)
    {
      var entry := NewEntry(form, now);
      EntryList.UpsertSingleEntryForDate(entries, entry);
      EntryList.UpsertKeepsOtherDates(entries, entry);
      EntryList.UpsertSorted(entries, entry);
      if EntryList.UniqueDates(entries) {
        EntryList.UpsertKeepsDatesUnique(entries, entry);
      }
      entries := EntryList.SaveEntry(entries, form, now);
    }

    /**
     * `deleteEntry(id)` with the answer of `window.confirm` passed in as
     * `confirmed`: the entries lose exactly those with this id; the form is kept.
     */
    method DeleteEntry(id: string, confirmed: bool)
      requires Valid()
      modifies this
      ensures Valid()
      ensures entries == EntryList.DeleteEntry(old(entries), id, confirmed)
      ensures form == old(form)
      ensures confirmed ==> forall e :: e in entries <==> e in old(entries) && e.id != id
      ensures !confirmed ==> entries == old(entries)
      ensures confirmed ==> SubsequenceOf(entries, old(entries))
    {
      EntryList.DeleteRemovesExactly(entries, id);
      EntryList.DeleteKeepsOrderAndUniqueness(entries, id, confirmed);
      if !confirmed {
        EntryList.DeleteNoop(entries, id, confirmed);
      }
      entries := EntryList.DeleteEntry(entries, id, confirmed);
    }
  }
}
