/**
 * Python's `<` on `str`: lexicographic comparison by code point. sklearn's
 * LabelEncoder sorts its classes with it, and pandas' `mode()` returns its
 * most frequent values in that order.
 */
module StringOrder {

  predicate Lt(a: string, b: string)
  {
    if a == [] then b != []
    else if b == [] then false
    else a[0] < b[0] || (a[0] == b[0] && Lt(a[1..], b[1..]))
  }

  lemma {:induction false} LtIrreflexive(a: string)
    ensures !Lt(a, a)
  {
    if a != [] {
      LtIrreflexive(a[1..]);
    }
  }

  lemma {:induction false} LtTransitive(a: string, b: string, c: string)
    requires Lt(a, b) && Lt(b, c)
    ensures Lt(a, c)
  {
    if a != [] && a[0] == b[0] && b[0] == c[0] {
      LtTransitive(a[1..], b[1..], c[1..]);
    }
  }

  lemma {:induction false} LtTotal(a: string, b: string)
    requires a != b
    ensures Lt(a, b) || Lt(b, a)
  {
    if a != [] && b != [] && a[0] == b[0] {
      assert a == [a[0]] + a[1..] && b == [b[0]] + b[1..];
      LtTotal(a[1..], b[1..]);
    }
  }

  lemma LtAsymmetric(a: string, b: string)
    requires Lt(a, b)
    ensures !Lt(b, a)
  {
    if Lt(b, a) {
      LtTransitive(a, b, a);
      LtIrreflexive(a);
    }
  }

  /** Sorted in increasing order with no value twice: the shape of `classes_`. */
  predicate StrictlySorted(s: seq<string>)
  {
    forall i, j :: 0 <= i < j < |s| ==> Lt(s[i], s[j])
  }

  lemma SortedDistinct(s: seq<string>, i: int, j: int)
    requires StrictlySorted(s)
    requires 0 <= i < |s| && 0 <= j < |s| && s[i] == s[j]
    ensures i == j
  {
    if i != j {
      LtIrreflexive(s[i]);
    }
  }

  /** A strictly sorted sequence has as many elements as it has distinct values. */
  lemma {:induction false} SortedCardinality(s: seq<string>)
    requires StrictlySorted(s)
    ensures |set v | v in s| == |s|
  {
    if s != [] {
      var t := s[1..];
      SortedCardinality(t);
      assert s[0] !in t by {
        if s[0] in t {
          var j :| 0 <= j < |t| && t[j] == s[0];
          SortedDistinct(s, 0, j + 1);
        }
      }
      assert (set v | v in s) == {s[0]} + (set v | v in t);
    }
  }
}
