/**
 * The three sorts the diary performs on `[...entries]`, each with
 * `Array.prototype.sort`, which is stable:
 *   - by date ascending after a save,
 *   - by date descending for the history list,
 *   - by pain descending, a missing pain counting as 0, to find the peak.
 * Any stable sort gives the same result, so it is modelled as insertion sort.
 */
module Sorting {
  import opened Seqs
  import opened LexOrder
  import opened Entries

  datatype Order = DateAscending | DateDescending | PainDescending

  /** `a` may stay before `b`: the comparator applied to `(a, b)` is not positive. */
  predicate Le(o: Order, a: Entry, b: Entry) {
    match o
    case DateAscending => LexLeq(a.date, b.date)
    case DateDescending => LexLeq(b.date, a.date)
    case PainDescending => PainOr0(b) <= PainOr0(a)
  }

  /** The comparator returns 0: the sort keeps `a` and `b` in their input order. */
  predicate SameKey(o: Order, a: Entry, b: Entry) {
    Le(o, a, b) && Le(o, b, a)
  }

  /** The entries that compare equal to `k`, as a filter predicate. */
  function SameKeyAs(o: Order, k: Entry): Entry -> bool {
    e => SameKey(o, e, k)
  }

  lemma LeTotal(o: Order, a: Entry, b: Entry)
    ensures Le(o, a, b) || Le(o, b, a)
  {
    if o != PainDescending {
      LexTotal(a.date, b.date);
    }
  }

  lemma LeTransitive(o: Order, a: Entry, b: Entry, c: Entry)
    requires Le(o, a, b) && Le(o, b, c)
    ensures Le(o, a, c)
  {
    match o
    case DateAscending => LexTransitive(a.date, b.date, c.date);
    case DateDescending => LexTransitive(c.date, b.date, a.date);
    case PainDescending =>
  }

  /** Both date orders compare equal exactly on equal dates. */
  lemma SameDateKey(o: Order, a: Entry, b: Entry)
    requires o != PainDescending
    ensures SameKey(o, a, b) <==> a.date == b.date
  {
    if a.date == b.date {
      LexReflexive(a.date);
    } else if SameKey(o, a, b) {
      LexAntisymmetric(a.date, b.date);
    }
  }

  ghost predicate Sorted(o: Order, s: seq<Entry>) {
    forall i, j :: 0 <= i < j < |s| ==> Le(o, s[i], s[j])
  }

  /** Places `x` before the first element it may precede. */
  function Insert(o: Order, x: Entry, t: seq<Entry>): (r: seq<Entry>)
    ensures multiset(r) == multiset(t) + multiset{x}
    decreases |t|
  {
    if t == [] || Le(o, x, t[0]) then [x] + t
    else
      assert t == [t[0]] + t[1..];
      [t[0]] + Insert(o, x, t[1..])
  }

  /** Stable insertion sort: `[...s].sort(comparator of o)`. */
  function Sort(o: Order, s: seq<Entry>): (r: seq<Entry>)
    ensures multiset(r) == multiset(s)
    decreases |s|
  {
    if s == [] then []
    else
      assert s == [s[0]] + s[1..];
      Insert(o, s[0], Sort(o, s[1..]))
  }

  /** The sort's output is ordered by `o`. */
  lemma {:induction false} SortSorted(o: Order, s: seq<Entry>)
    ensures Sorted(o, Sort(o, s))
    decreases |s|
  {
    if s != [] {
      SortSorted(o, s[1..]);
      InsertSorted(o, s[0], Sort(o, s[1..]));
    }
  }

  lemma {:induction false} InsertSorted(o: Order, x: Entry, t: seq<Entry>)
    requires Sorted(o, t)
    ensures Sorted(o, Insert(o, x, t))
    decreases |t|
  {
    var r := Insert(o, x, t);
    if t == [] {
    } else if Le(o, x, t[0]) {
      forall j | 1 <= j < |r| ensures Le(o, x, r[j]) {
        if j > 1 {
          LeTransitive(o, x, t[0], t[j - 1]);
        }
      }
    } else {
      LeTotal(o, x, t[0]);
      var u := Insert(o, x, t[1..]);
      InsertSorted(o, x, t[1..]);
      forall j | 0 <= j < |u| ensures Le(o, t[0], u[j]) {
        assert u[j] in multiset(u);
        if u[j] != x {
          assert u[j] in t[1..];
        }
      }
    }
  }

  /** Inserting `x` goes past no element equal to it, so the elements equal to any `k` keep their order. */
  lemma {:induction false} InsertStable(o: Order, x: Entry, t: seq<Entry>, k: Entry)
    ensures Filter(Insert(o, x, t), SameKeyAs(o, k))
         == (if SameKey(o, x, k) then [x] else []) + Filter(t, SameKeyAs(o, k))
    decreases |t|
  {
    var q := SameKeyAs(o, k);
    assert q(x) == SameKey(o, x, k);
    var hx := if q(x) then [x] else [];
    if t == [] || Le(o, x, t[0]) {
      assert Insert(o, x, t) == [x] + t;
      assert ([x] + t)[0] == x && ([x] + t)[1..] == t;
      assert Filter([x] + t, q) == hx + Filter(t, q);
    } else {
      var u := Insert(o, x, t[1..]);
      var ht := if q(t[0]) then [t[0]] else [];
      assert Insert(o, x, t) == [t[0]] + u;
      assert ([t[0]] + u)[0] == t[0] && ([t[0]] + u)[1..] == u;
      assert Filter([t[0]] + u, q) == ht + Filter(u, q);
      InsertStable(o, x, t[1..], k);
      assert Filter(u, q) == hx + Filter(t[1..], q);
      assert Filter(t, q) == ht + Filter(t[1..], q);
      var rest := Filter(t[1..], q);
      if q(t[0]) {
        if q(x) {
          LeTransitive(o, x, k, t[0]);
          assert false;
        }
        assert hx == [] && hx + rest == rest && hx + Filter(t, q) == Filter(t, q);
      } else {
        assert ht == [] && ht + (hx + rest) == hx + rest && Filter(t, q) == rest;
      }
    }
  }

  /** Stability: elements that compare equal come out in the order they went in. */
  lemma {:induction false} SortStable(o: Order, s: seq<Entry>, k: Entry)
    ensures Filter(Sort(o, s), SameKeyAs(o, k)) == Filter(s, SameKeyAs(o, k))
    decreases |s|
  {
    if s != [] {
      SortStable(o, s[1..], k);
      InsertStable(o, s[0], Sort(o, s[1..]), k);
      assert s == [s[0]] + s[1..];
    }
  }
}
