/**
 * The updaters the component hands to `setForm` and `setEntries`:
 * `toggleTrigger`, the upsert by date in `saveEntry`, the removal by id in
 * `deleteEntry`, and the date-descending copy the history list shows.
 */
module EntryList {
  import opened Seqs
  import opened Entries
  import opened Sorting

  /** The labels other than `t`, as a filter test. */
  function IsNot(t: string): string -> bool {
    x => x != t
  }

  /** The entries dated otherwise than `date`, as a filter test. */
  function DateIsNot(date: string): Entry -> bool {
    (e: Entry) => e.date != date
  }

  /** The entries dated `date` (the ones a save replaces), as a filter test. */
  function DateIs(date: string): Entry -> bool {
    (e: Entry) => e.date == date
  }

  /** The entries whose id is not `id`, as a filter test. */
  function IdIsNot(id: string): Entry -> bool {
    (e: Entry) => e.id != id
  }

  /** The triggers without `t` if `t` is among them, otherwise the triggers with `t` appended. */
  function ToggleTrigger(triggers: seq<string>, t: string): (r: seq<string>)
    ensures t in triggers ==> t !in r
    ensures t !in triggers ==> t in r && r[|r| - 1] == t
    ensures forall x :: x != t ==> (x in r <==> x in triggers)
  {
    if t in triggers then Filter(triggers, IsNot(t)) else triggers + [t]
  }

  /**
   * The `setEntries` updater of `saveEntry`: drop every entry dated like the
   * new one, append it, and sort by date ascending.
   */
  function Upsert(prev: seq<Entry>, entry: Entry): seq<Entry> {
    Sort(DateAscending, Filter(prev, DateIsNot(entry.date)) + [entry])
  }

  /** `saveEntry()`: the entry built from the form at clock reading `now`, upserted into `prev`. */
  function SaveEntry(prev: seq<Entry>, form: Form, now: nat): seq<Entry> {
    Upsert(prev, NewEntry(form, now))
  }

  /** `deleteEntry(id)`, with the answer to `window.confirm` passed in as `confirmed`. */
  function DeleteEntry(prev: seq<Entry>, id: string, confirmed: bool): seq<Entry> {
    if confirmed then Filter(prev, IdIsNot(id)) else prev
  }

  /** The order of the history list: a copy of the entries sorted by date, latest first. */
  function HistoryOrder(entries: seq<Entry>): seq<Entry> {
    Sort(DateDescending, entries)
  }

  /** Every date occurs at most once. */
  ghost predicate UniqueDates(s: seq<Entry>) {
    forall i, j :: 0 <= i < j < |s| ==> s[i].date != s[j].date
  }

  // ---------------------------------------------------------------- toggleTrigger

  /**
   * Removing a present label drops every occurrence of it and keeps the other
   * labels, each as often as before and in their order.
   */
  lemma ToggleRemovesPresent(triggers: seq<string>, t: string)
    requires t in triggers
    ensures SubsequenceOf(ToggleTrigger(triggers, t), triggers)
    ensures forall x :: multiset(ToggleTrigger(triggers, t))[x] == if x == t then 0 else multiset(triggers)[x]
  {
    FilterIsSubsequence(triggers, IsNot(t));
    forall x ensures multiset(ToggleTrigger(triggers, t))[x] == if x == t then 0 else multiset(triggers)[x] {
      FilterMultiplicity(triggers, IsNot(t), x);
    }
  }

  /** An absent label is appended at the end, after all the others. */
  lemma ToggleAppendsAbsent(triggers: seq<string>, t: string)
    requires t !in triggers
    ensures ToggleTrigger(triggers, t) == triggers + [t]
  {
  }

  /** Toggling an absent label twice gives back the original list. */
  lemma ToggleTwiceRestores(triggers: seq<string>, t: string)
    requires t !in triggers
    ensures ToggleTrigger(ToggleTrigger(triggers, t), t) == triggers
  {
    FilterConcat(triggers, [t], IsNot(t));
    FilterKeepsAll(triggers, IsNot(t));
    assert Filter([t], IsNot(t)) == [];
  }

  // ---------------------------------------------------------------- saveEntry

  /**
   * After a save exactly one entry carries the saved date: the new entry,
   * once; everything else carries another date.
   */
  lemma UpsertSingleEntryForDate(prev: seq<Entry>, entry: Entry)
    ensures entry in Upsert(prev, entry)
    ensures multiset(Upsert(prev, entry))[entry] == 1
    ensures forall e :: e in Upsert(prev, entry) && e.date == entry.date ==> e == entry
  {
    var kept := Filter(prev, DateIsNot(entry.date));
    var r := Upsert(prev, entry);
    assert multiset(r) == multiset(kept) + multiset{entry};
    assert entry !in kept;
    assert multiset(kept)[entry] == 0;
    assert multiset(r)[entry] == 1;
    assert entry in multiset(r);
    forall e | e in r ensures e == entry || e in kept {
      assert e in multiset(r);
    }
  }

  /**
   * A save keeps every entry with another date, each as often as before, and
   * nothing else: the list loses the entries of the saved date and gains one.
   */
  lemma UpsertKeepsOtherDates(prev: seq<Entry>, entry: Entry)
    ensures forall e: Entry :: e.date != entry.date ==> multiset(Upsert(prev, entry))[e] == multiset(prev)[e]
    ensures forall e :: e in Upsert(prev, entry) ==> e == entry || e in prev
    ensures |Upsert(prev, entry)| == |prev| - |Filter(prev, DateIs(entry.date))| + 1
  {
    var kept := Filter(prev, DateIsNot(entry.date));
    var r := Upsert(prev, entry);
    assert multiset(r) == multiset(kept) + multiset{entry};
    forall e: Entry | e.date != entry.date ensures multiset(r)[e] == multiset(prev)[e] {
      FilterMultiplicity(prev, DateIsNot(entry.date), e);
    }
    forall e | e in r ensures e == entry || e in prev {
      assert e in multiset(r);
    }
    assert |r| == |multiset(r)| == |kept| + 1;
    FilterComplementLength(prev, DateIsNot(entry.date), DateIs(entry.date));
  }

  /** The list a save produces is in ascending date order (so ties keep insertion order, see SortStable). */
  lemma UpsertSorted(prev: seq<Entry>, entry: Entry)
    ensures Sorted(DateAscending, Upsert(prev, entry))
  {
    SortSorted(DateAscending, Filter(prev, DateIsNot(entry.date)) + [entry]);
  }

  /** The entry a save stores is the form's content under a fresh id, marked logged, with no label. */
  lemma SavedEntryContent(prev: seq<Entry>, form: Form, now: nat)
    ensures exists e :: e in SaveEntry(prev, form, now) && e.date == form.date
    ensures forall e :: e in SaveEntry(prev, form, now) && e.date == form.date ==>
      && e.id == form.date + "_" + IsoDates.DecimalString(now) && e.logged
      && e.pain == Some(form.pain) && e.triggers == form.triggers
      && e.onset == form.onset && e.duration == form.duration && e.location == form.location
      && e.medication == form.medication && e.relief == form.relief && e.notes == form.notes
      && e.dayLabel.None?
  {
    UpsertSingleEntryForDate(prev, NewEntry(form, now));
  }

  /** Dates that are unique stay unique after a save. */
  lemma UpsertKeepsDatesUnique(prev: seq<Entry>, entry: Entry)
    requires UniqueDates(prev)
    ensures UniqueDates(Upsert(prev, entry))
  {
    var kept := Filter(prev, DateIsNot(entry.date));
    FilterIsSubsequence(prev, DateIsNot(entry.date));
    SubsequenceKeepsDatesUnique(kept, prev);
    var s := kept + [entry];
    forall i, j | 0 <= i < j < |s| ensures s[i].date != s[j].date {
      if j == |s| - 1 {
        assert s[i] in kept;
      }
    }
    SortKeepsDatesUnique(DateAscending, s);
  }

  lemma {:induction false} SubsequenceKeepsDatesUnique(a: seq<Entry>, b: seq<Entry>)
    requires SubsequenceOf(a, b) && UniqueDates(b)
    ensures UniqueDates(a)
    decreases |b|
  {
    if a != [] && b != [] {
      if a[0] == b[0] && SubsequenceOf(a[1..], b[1..]) {
        SubsequenceKeepsDatesUnique(a[1..], b[1..]);
        SubsequenceMembers(a[1..], b[1..]);
        forall j | 0 < j < |a| ensures a[0].date != a[j].date {
          assert a[j] in a[1..];
          var k :| 0 <= k < |b[1..]| && b[1..][k] == a[j];
          assert b[k + 1] == a[j];
        }
      } else {
        SubsequenceKeepsDatesUnique(a, b[1..]);
      }
    }
  }

  lemma {:induction false} SubsequenceMembers<T(!new)>(a: seq<T>, b: seq<T>)
    requires SubsequenceOf(a, b)
    ensures forall x :: x in a ==> x in b
    decreases |b|
  {
    if a != [] && b != [] {
      if a[0] == b[0] && SubsequenceOf(a[1..], b[1..]) {
        SubsequenceMembers(a[1..], b[1..]);
        assert a == [a[0]] + a[1..];
      } else {
        SubsequenceMembers(a, b[1..]);
      }
    }
  }

  lemma {:induction false} InsertKeepsDatesUnique(o: Order, x: Entry, t: seq<Entry>)
    requires UniqueDates(t)
    requires forall y :: y in t ==> y.date != x.date
    ensures UniqueDates(Insert(o, x, t))
    decreases |t|
  {
    if t != [] && !Le(o, x, t[0]) {
      var u := Insert(o, x, t[1..]);
      InsertKeepsDatesUnique(o, x, t[1..]);
      forall j | 0 <= j < |u| ensures t[0].date != u[j].date {
        assert u[j] in multiset(u);
        if u[j] != x {
          assert u[j] in t[1..];
          var k :| 0 <= k < |t[1..]| && t[1..][k] == u[j];
          assert t[k + 1] == u[j];
        }
      }
    }
  }

  lemma {:induction false} SortKeepsDatesUnique(o: Order, s: seq<Entry>)
    requires UniqueDates(s)
    ensures UniqueDates(Sort(o, s))
    decreases |s|
  {
    if s != [] {
      var t := Sort(o, s[1..]);
      SortKeepsDatesUnique(o, s[1..]);
      forall y | y in t ensures y.date != s[0].date {
        assert y in multiset(t);
        var k :| 0 <= k < |s[1..]| && s[1..][k] == y;
        assert s[k + 1] == y;
      }
      InsertKeepsDatesUnique(o, s[0], t);
    }
  }

  // ---------------------------------------------------------------- deleteEntry

  /** A confirmed delete removes exactly the entries with that id and keeps the rest in order. */
  lemma DeleteRemovesExactly(prev: seq<Entry>, id: string)
    ensures forall e :: e in DeleteEntry(prev, id, true) <==> e in prev && e.id != id
    ensures SubsequenceOf(DeleteEntry(prev, id, true), prev)
    ensures forall e: Entry :: e.id != id ==> multiset(DeleteEntry(prev, id, true))[e] == multiset(prev)[e]
  {
    FilterIsSubsequence(prev, IdIsNot(id));
    forall e: Entry | e.id != id ensures multiset(DeleteEntry(prev, id, true))[e] == multiset(prev)[e] {
      FilterMultiplicity(prev, IdIsNot(id), e);
    }
  }

  /** Deleting an id nobody carries, or declining the confirmation, changes nothing. */
  lemma DeleteNoop(prev: seq<Entry>, id: string, confirmed: bool)
    requires !confirmed || forall e :: e in prev ==> e.id != id
    ensures DeleteEntry(prev, id, confirmed) == prev
  {
    if confirmed {
      FilterKeepsAll(prev, IdIsNot(id));
    }
  }

  /** Deleting the same id twice is deleting it once. */
  lemma DeleteIdempotent(prev: seq<Entry>, id: string, confirmed: bool)
    ensures DeleteEntry(DeleteEntry(prev, id, confirmed), id, confirmed) == DeleteEntry(prev, id, confirmed)
  {
    FilterIdempotent(prev, IdIsNot(id));
  }

  /** Removing entries keeps a date-ordered, one-entry-per-date list so. */
  lemma DeleteKeepsOrderAndUniqueness(prev: seq<Entry>, id: string, confirmed: bool)
    requires Sorted(DateAscending, prev) && UniqueDates(prev)
    ensures Sorted(DateAscending, DeleteEntry(prev, id, confirmed))
    ensures UniqueDates(DeleteEntry(prev, id, confirmed))
  {
    if confirmed {
      FilterIsSubsequence(prev, IdIsNot(id));
      SubsequenceKeepsDatesUnique(DeleteEntry(prev, id, confirmed), prev);
      SubsequenceKeepsSorted(DeleteEntry(prev, id, confirmed), prev);
    }
  }

  lemma {:induction false} SubsequenceKeepsSorted(a: seq<Entry>, b: seq<Entry>)
    requires SubsequenceOf(a, b) && Sorted(DateAscending, b)
    ensures Sorted(DateAscending, a)
    decreases |b|
  {
    if a != [] && b != [] {
      if a[0] == b[0] && SubsequenceOf(a[1..], b[1..]) {
        SubsequenceKeepsSorted(a[1..], b[1..]);
        SubsequenceMembers(a[1..], b[1..]);
        forall j | 0 < j < |a| ensures Le(DateAscending, a[0], a[j]) {
          assert a[j] in a[1..];
          var k :| 0 <= k < |b[1..]| && b[1..][k] == a[j];
          assert b[k + 1] == a[j];
        }
      } else {
        SubsequenceKeepsSorted(a, b[1..]);
      }
    }
  }

  // ---------------------------------------------------------------- the seeded diary

  /** A list whose dates strictly ascend from each entry to the next is in date order with one entry per date. */
  lemma {:induction false} StrictlyAscendingDates(s: seq<Entry>)
    requires forall i :: 0 <= i < |s| - 1 ==> LexOrder.LexLeq(s[i].date, s[i + 1].date) && s[i].date != s[i + 1].date
    ensures Sorted(DateAscending, s) && UniqueDates(s)
    decreases |s|
  {
    if |s| >= 2 {
      var t := s[1..];
      forall i | 0 <= i < |t| - 1 ensures LexOrder.LexLeq(t[i].date, t[i + 1].date) && t[i].date != t[i + 1].date {
        assert t[i] == s[i + 1] && t[i + 1] == s[i + 2];
      }
      StrictlyAscendingDates(t);
      forall j | 1 < j < |s| ensures LexOrder.LexLeq(s[0].date, s[j].date) && s[0].date != s[j].date {
        assert s[1] == t[0] && s[j] == t[j - 1];
        LexOrder.LexStrictTransitive(s[0].date, s[1].date, s[j].date);
      }
      forall i, j | 0 <= i < j < |s| ensures Le(DateAscending, s[i], s[j]) && s[i].date != s[j].date {
        if i > 0 {
          assert s[i] == t[i - 1] && s[j] == t[j - 1];
        }
      }
    }
  }

  /** `INITIAL_ENTRIES` is in date order with one entry per date. */
  lemma InitialEntriesOrdered()
    ensures Sorted(DateAscending, InitialEntries) && UniqueDates(InitialEntries)
  {
    InitialDatesListed();
    InitialDatesAscending();
    StrictlyAscendingDates(InitialEntries);
  }

  // ---------------------------------------------------------------- history

  /** The history list shows every entry, as often as stored, latest date first. */
  lemma HistoryIsDescendingPermutation(entries: seq<Entry>)
    ensures multiset(HistoryOrder(entries)) == multiset(entries)
    ensures forall i, j :: 0 <= i < j < |HistoryOrder(entries)| ==>
      LexOrder.LexLeq(HistoryOrder(entries)[j].date, HistoryOrder(entries)[i].date)
  {
    SortSorted(DateDescending, entries);
  }
}
