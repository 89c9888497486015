/**
 * The statistics bar: the mean pain over rated entries (`avgPain`), the peak
 * entry (`maxEntry`), and the guards that decide whether each is shown.
 * Arithmetic is exact (`real`); the `toFixed(1)` and `Math.round` applied for
 * display are not modelled.
 */
module Stats {
  import opened Seqs
  import opened Entries
  import opened Sorting

  /** The pain is neither `null` nor `undefined`. */
  predicate IsRated(e: Entry) {
    e.pain.Some?
  }

  /** The display guard's test: a rating that is present and not 0. */
  predicate HasTruthyPain(e: Entry) {
    e.pain.Some? && e.pain.value != 0
  }

  /** The entries `avgPain` averages over. */
  function Rated(entries: seq<Entry>): (r: seq<Entry>)
    ensures forall e :: e in r <==> e in entries && e.pain.Some?
  {
    Filter(entries, IsRated)
  }

  function TotalPain(s: seq<Entry>): int
    decreases |s|
  {
    if s == [] then 0 else PainOr0(s[0]) + TotalPain(s[1..])
  }

  /** The `reduce` of `avgPain`: adds each rating divided by the number `n` of rated entries to `acc`. */
  function MeanFold(a: seq<Entry>, n: nat, acc: real): real
    requires a == [] || n > 0
    decreases |a|
  {
    if a == [] then acc else MeanFold(a[1..], n, acc + (PainOr0(a[0]) as real) / (n as real))
  }

  /** `avgPain`: 0 when nothing is rated (the `reduce` returns its initial value). */
  function AvgPain(entries: seq<Entry>): real {
    var a := Rated(entries);
    MeanFold(a, |a|, 0.0)
  }

  lemma {:induction false} MeanFoldIsSum(a: seq<Entry>, n: nat, acc: real)
    requires n > 0
    ensures MeanFold(a, n, acc) == acc + (TotalPain(a) as real) / (n as real)
    decreases |a|
  {
    if a != [] {
      var nr := n as real;
      var p := PainOr0(a[0]) as real;
      var t := TotalPain(a[1..]) as real;
      MeanFoldIsSum(a[1..], n, acc + p / nr);
      assert p / nr + t / nr == (p + t) / nr;
    }
  }

  /**
   * `avgPain` is the exact mean of the ratings that are present, a rating of
   * 0 included; with no rating it is 0.
   */
  lemma AvgPainIsMean(entries: seq<Entry>)
    ensures Rated(entries) == [] ==> AvgPain(entries) == 0.0
    ensures Rated(entries) != [] ==>
      AvgPain(entries) == (TotalPain(Rated(entries)) as real) / (|Rated(entries)| as real)
  {
    var a := Rated(entries);
    if a != [] {
      MeanFoldIsSum(a, |a|, 0.0);
    }
  }

  lemma MulSucc(n: int, x: int)
    ensures (n + 1) * x == n * x + x
  {
  }

  lemma {:induction false} TotalPainBounds(s: seq<Entry>, lo: int, hi: int)
    requires forall e :: e in s ==> lo <= PainOr0(e) <= hi
    ensures |s| * lo <= TotalPain(s) <= |s| * hi
    decreases |s|
  {
    if s != [] {
      assert s[0] in s;
      assert forall e :: e in s[1..] ==> e in s;
      TotalPainBounds(s[1..], lo, hi);
      MulSucc(|s[1..]|, lo);
      MulSucc(|s[1..]|, hi);
    }
  }

  /** Dividing bounds `n * lo <= t <= n * hi` by a positive count `n`. */
  lemma MeanBetween(t: int, n: int, lo: int, hi: int)
    requires n > 0 && n * lo <= t <= n * hi
    ensures lo as real <= (t as real) / (n as real) <= hi as real
  {
  }

  /** When every rating lies in `[lo, hi]` (the slider gives `[0, 10]`), so does the mean. */
  lemma AvgPainBounds(entries: seq<Entry>, lo: int, hi: int)
    requires exists e :: e in entries && e.pain.Some?
    requires forall e :: e in entries && e.pain.Some? ==> lo <= e.pain.value <= hi
    ensures lo as real <= AvgPain(entries) <= hi as real
  {
    var a := Rated(entries);
    var e :| e in entries && e.pain.Some?;
    assert e in a;
    TotalPainBounds(a, lo, hi);
    AvgPainIsMean(entries);
    MeanBetween(TotalPain(a), |a|, lo, hi);
  }

  /** A rated entry whose rating none of the others beats from below. */
  function LowestRated(a: seq<Entry>): (r: Entry)
    requires a != []
    ensures r in a && forall e :: e in a ==> PainOr0(r) <= PainOr0(e)
    decreases |a|
  {
    if |a| == 1 then a[0]
    else
      var m := LowestRated(a[1..]);
      assert forall e :: e in a ==> e == a[0] || e in a[1..];
      if PainOr0(a[0]) <= PainOr0(m) then a[0] else m
  }

  /** A rated entry whose rating none of the others beats. */
  function HighestRated(a: seq<Entry>): (r: Entry)
    requires a != []
    ensures r in a && forall e :: e in a ==> PainOr0(e) <= PainOr0(r)
    decreases |a|
  {
    if |a| == 1 then a[0]
    else
      var m := HighestRated(a[1..]);
      assert forall e :: e in a ==> e == a[0] || e in a[1..];
      if PainOr0(m) <= PainOr0(a[0]) then a[0] else m
  }

  /** The mean lies between the lowest and the highest rating present. */
  lemma AvgPainBetweenRatings(entries: seq<Entry>)
    requires exists e :: e in entries && e.pain.Some?
    ensures exists lo, hi :: (lo in entries && hi in entries && lo.pain.Some? && hi.pain.Some? &&
      lo.pain.value as real <= AvgPain(entries) <= hi.pain.value as real)
  {
    var a := Rated(entries);
    var e :| e in entries && e.pain.Some?;
    assert e in a;
    var lo, hi := LowestRated(a), HighestRated(a);
    AvgPainBounds(entries, PainOr0(lo), PainOr0(hi));
  }

  /** Whether some entry has a non-zero rating: the average is shown exactly then. */
  function AvgShown(entries: seq<Entry>): (shown: bool)
    ensures shown <==> exists e :: e in entries && HasTruthyPain(e)
  {
    var truthy := Filter(entries, HasTruthyPain);
    if truthy == [] then false
    else
      assert truthy[0] in truthy;
      true
  }

  /** What the "Avg pain" cell shows: the mean, or nothing (rendered as "—"). */
  function AvgDisplay(entries: seq<Entry>): (r: Option<real>)
    ensures r.None? <==> forall e :: e in entries ==> PainOr0(e) == 0
    ensures r.Some? ==> (Rated(entries) != [] &&
      r.value == (TotalPain(Rated(entries)) as real) / (|Rated(entries)| as real))
  {
    AvgPainIsMean(entries);
    if AvgShown(entries) then
      var e :| e in entries && HasTruthyPain(e);
      assert e in Rated(entries);
      Some(AvgPain(entries))
    else None
  }

  /** `maxEntry`: the first entry of a copy stably sorted by rating, highest first; `None` for an empty list. */
  function MaxEntry(entries: seq<Entry>): (r: Option<Entry>)
    ensures r.None? <==> entries == []
    ensures r.Some? ==> r.value in entries
  {
    if entries == [] then None
    else
      var sorted := Sort(PainDescending, entries);
      assert |sorted| == |multiset(sorted)| == |entries|;
      assert sorted[0] in multiset(entries);
      Some(sorted[0])
  }

  /** `s[i]` has the highest rating (missing counted as 0) and no earlier entry has it. */
  ghost predicate EarliestMaximum(s: seq<Entry>, i: int) {
    && 0 <= i < |s|
    && (forall j :: 0 <= j < |s| ==> PainOr0(s[j]) <= PainOr0(s[i]))
    && (forall j :: 0 <= j < i ==> PainOr0(s[j]) < PainOr0(s[i]))
  }

  lemma SortLength(o: Order, s: seq<Entry>)
    ensures |Sort(o, s)| == |s|
  {
    assert |Sort(o, s)| == |multiset(Sort(o, s))| == |s|;
  }

  /** The pain-descending sort puts `s[0]` first unless the head of the sorted rest beats it. */
  lemma SortHead(s: seq<Entry>)
    requires |s| >= 2
    ensures |Sort(PainDescending, s[1..])| == |s| - 1
    ensures Sort(PainDescending, s)[0] ==
      var h := Sort(PainDescending, s[1..])[0];
      if PainOr0(h) <= PainOr0(s[0]) then s[0] else h
  {
    SortLength(PainDescending, s[1..]);
  }

  /** Extends an earliest maximum of `s[1..]` at index `k` to one of `s`. */
  lemma EarliestMaximumCons(s: seq<Entry>, k: int)
    requires s != [] && EarliestMaximum(s[1..], k)
    ensures PainOr0(s[k + 1]) <= PainOr0(s[0]) ==> EarliestMaximum(s, 0)
    ensures PainOr0(s[0]) < PainOr0(s[k + 1]) ==> EarliestMaximum(s, k + 1)
  {
  }

  /** The head of the stable pain-descending sort is the earliest entry with the highest rating. */
  lemma {:induction false} SortHeadIsEarliestMaximum(s: seq<Entry>)
    requires s != []
    ensures |Sort(PainDescending, s)| == |s|
    ensures exists i :: EarliestMaximum(s, i) && Sort(PainDescending, s)[0] == s[i]
    decreases |s|
  {
    SortLength(PainDescending, s);
    if |s| == 1 {
      assert EarliestMaximum(s, 0);
    } else {
      var u := s[1..];
      SortHeadIsEarliestMaximum(u);
      var k :| EarliestMaximum(u, k) && Sort(PainDescending, u)[0] == u[k];
      SortHead(s);
      EarliestMaximumCons(s, k);
      assert u[k] == s[k + 1];
    }
  }

  /**
   * The peak entry has a rating (missing counted as 0) no other entry beats,
   * and it is the first such entry in list order.
   */
  lemma PeakIsEarliestMaximum(entries: seq<Entry>)
    requires entries != []
    ensures exists i :: EarliestMaximum(entries, i) && MaxEntry(entries) == Some(entries[i])
  {
    SortHeadIsEarliestMaximum(entries);
  }

  /** What the "Peak pain" cell shows: the peak entry's rating, or nothing (rendered as "—"). */
  function PeakDisplay(entries: seq<Entry>): (r: Option<int>)
    ensures entries == [] ==> r.None?
  {
    match MaxEntry(entries)
    case None => None
    case Some(e) => e.pain
  }

  /**
   * When no rating is positive, the stable sort keeps the list's first entry
   * in front, so the cell shows that entry's rating: nothing if it is unrated,
   * 0 if it is rated 0.
   */
  lemma PeakDisplayNoPositive(s: seq<Entry>)
    requires s != [] && forall e :: e in s ==> PainOr0(e) == 0
    ensures PeakDisplay(s) == s[0].pain
  {
    PeakIsEarliestMaximum(s);
    var i :| EarliestMaximum(s, i) && MaxEntry(s) == Some(s[i]);
    assert s[0] in s && s[i] in s;
    assert i == 0;
  }

  /** A diary with no rating at all (empty included) shows nothing in the "Peak pain" cell. */
  lemma PeakDisplayAllUnrated(s: seq<Entry>)
    requires forall e :: e in s ==> e.pain.None?
    ensures PeakDisplay(s).None?
  {
    if s != [] {
      assert s[0] in s;
      PeakDisplayNoPositive(s);
    }
  }

  /** Once some rating is positive, the "Peak pain" cell shows the highest rating. */
  lemma PeakDisplayShowsMaximum(entries: seq<Entry>)
    requires exists e :: e in entries && PainOr0(e) > 0
    ensures PeakDisplay(entries).Some?
    ensures forall e :: e in entries ==> PainOr0(e) <= PeakDisplay(entries).value
    ensures exists e :: e in entries && e.pain == PeakDisplay(entries)
  {
    var w :| w in entries && PainOr0(w) > 0;
    PeakIsEarliestMaximum(entries);
    var i :| EarliestMaximum(entries, i) && MaxEntry(entries) == Some(entries[i]);
    var k :| 0 <= k < |entries| && entries[k] == w;
    assert PainOr0(entries[i]) >= PainOr0(w) > 0;
    assert entries[i].pain.Some?;
    forall e | e in entries ensures PainOr0(e) <= PeakDisplay(entries).value {
      var j :| 0 <= j < |entries| && entries[j] == e;
    }
  }

  // ---------------------------------------------------------------- the seeded diary

  /** When the first entry attains the highest rating, it is the peak. */
  lemma FirstMaximumIsPeak(s: seq<Entry>)
    requires s != [] && forall j :: 0 <= j < |s| ==> PainOr0(s[j]) <= PainOr0(s[0])
    ensures MaxEntry(s) == Some(s[0])
  {
    PeakIsEarliestMaximum(s);
    var i :| EarliestMaximum(s, i) && MaxEntry(s) == Some(s[i]);
    assert i == 0;
  }

  /** `p[i] + p[i + 1] + ... + p[|p| - 1]`. */
  function SumFrom(p: seq<int>, i: nat): int
    decreases |p| - i
  {
    if i >= |p| then 0 else p[i] + SumFrom(p, i + 1)
  }

  /** The total rating of `s[i..]` is the sum of the ratings read off one by one. */
  lemma {:induction false} TotalPainIsSum(s: seq<Entry>, p: seq<int>, i: nat)
    requires i <= |s| == |p| && forall j :: i <= j < |s| ==> PainOr0(s[j]) == p[j]
    ensures TotalPain(s[i..]) == SumFrom(p, i)
    decreases |s| - i
  {
    if i < |s| {
      TotalPainIsSum(s, p, i + 1);
      assert s[i..][1..] == s[i + 1..];
    }
  }

  /** Entries rated as the seeded diary is, day by day. */
  ghost predicate RatedAsSeeded(s: seq<Entry>) {
    |s| == |InitialPains| && forall j :: 0 <= j < |s| ==> s[j].pain == Some(InitialPains[j])
  }

  lemma SeededAllRated(s: seq<Entry>)
    requires RatedAsSeeded(s)
    ensures Rated(s) == s
  {
    forall e | e in s ensures IsRated(e) {
      var j :| 0 <= j < |s| && s[j] == e;
    }
    FilterKeepsAll(s, IsRated);
  }

  lemma SeededTotal(s: seq<Entry>)
    requires RatedAsSeeded(s)
    ensures TotalPain(s) == 58
  {
    TotalPainIsSum(s, InitialPains, 0);
    assert s[0..] == s;
    assert SumFrom(InitialPains, 0) == 58;
  }

  lemma SeededFirstHighest(s: seq<Entry>)
    requires RatedAsSeeded(s)
    ensures s != [] && forall j :: 0 <= j < |s| ==> PainOr0(s[j]) <= PainOr0(s[0]) == 7
  {
    assert forall j :: 0 <= j < |InitialPains| ==> InitialPains[j] <= 7;
  }

  /** For the twelve initial entries the peak is day 1, 2025-02-08, at pain 7. */
  lemma InitialPeak()
    ensures MaxEntry(InitialEntries) == Some(InitialEntries[0])
    ensures InitialEntries[0].date == "2025-02-08" && PeakDisplay(InitialEntries) == Some(7)
  {
    InitialRatings();
    SeededFirstHighest(InitialEntries);
    FirstMaximumIsPeak(InitialEntries);
  }

  /** Entries rated as the seeded diary is average 58/12, and the average is shown. */
  lemma SeededAverage(s: seq<Entry>)
    requires RatedAsSeeded(s)
    ensures AvgPain(s) == 58.0 / 12.0
    ensures AvgDisplay(s) == Some(58.0 / 12.0)
  {
    SeededAllRated(s);
    SeededTotal(s);
    SeededFirstHighest(s);
    AvgPainIsMean(s);
    assert s[0] in s && HasTruthyPain(s[0]);
  }

  /** For the twelve initial entries the mean is 58/12 and it is shown. */
  lemma InitialAverage()
    ensures AvgPain(InitialEntries) == 58.0 / 12.0
    ensures AvgDisplay(InitialEntries) == Some(58.0 / 12.0)
  {
    InitialRatings();
    SeededAverage(InitialEntries);
  }
}
