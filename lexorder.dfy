/**
 * The order the diary sorts date strings by. `a.localeCompare(b)` applied to
 * well-formed `YYYY-MM-DD` strings (digits and `-` only) orders them as plain
 * lexicographic comparison of their characters does, which is what is modelled.
 */
module LexOrder {

  /** `a` sorts before or together with `b`: `a.localeCompare(b) <= 0`. */
  predicate LexLeq(a: string, b: string)
    decreases |a|
  {
    if a == [] then true
    else if b == [] then false
    else if a[0] != b[0] then a[0] < b[0]
    else LexLeq(a[1..], b[1..])
  }

  lemma {:induction false} LexReflexive(a: string)
    ensures LexLeq(a, a)
    decreases |a|
  {
    if a != [] {
      LexReflexive(a[1..]);
    }
  }

  lemma {:induction false} LexTotal(a: string, b: string)
    ensures LexLeq(a, b) || LexLeq(b, a)
    decreases |a|
  {
    if a != [] && b != [] && a[0] == b[0] {
      LexTotal(a[1..], b[1..]);
    }
  }

  lemma {:induction false} LexAntisymmetric(a: string, b: string)
    requires LexLeq(a, b) && LexLeq(b, a)
    ensures a == b
    decreases |a|
  {
    if a != [] && b != [] {
      LexAntisymmetric(a[1..], b[1..]);
      assert a == [a[0]] + a[1..] && b == [b[0]] + b[1..];
    }
  }

  lemma {:induction false} LexTransitive(a: string, b: string, c: string)
    requires LexLeq(a, b) && LexLeq(b, c)
    ensures LexLeq(a, c)
    decreases |a|
  {
    if a != [] && b != [] && c != [] && a[0] == b[0] && b[0] == c[0] {
      LexTransitive(a[1..], b[1..], c[1..]);
    }
  }

  /** Strings that agree before position `k` and differ there are ordered by the characters at `k`. */
  lemma {:induction false} LexFirstDifference(a: string, b: string, k: nat)
    requires k < |a| && k < |b| && a[k] < b[k]
    requires forall i :: 0 <= i < k ==> a[i] == b[i]
    ensures LexLeq(a, b) && a != b
    decreases k
  {
    if k > 0 {
      LexFirstDifference(a[1..], b[1..], k - 1);
    }
  }

  /** A strict step followed by a non-strict one is strict. */
  lemma LexStrictTransitive(a: string, b: string, c: string)
    requires LexLeq(a, b) && a != b && LexLeq(b, c)
    ensures LexLeq(a, c) && a != c
  {
    LexTransitive(a, b, c);
    if a == c {
      LexAntisymmetric(a, b);
      assert false;
    }
  }
}
