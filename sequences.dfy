/** Distinctness and first-occurrence order over sequences. */
module Sequences {

  /** No element occurs twice. */
  predicate NoDup<T(==)>(s: seq<T>) {
    forall i, j :: 0 <= i < j < |s| ==> s[i] != s[j]
  }

  /** The position of the first occurrence of `x` in `s`. */
  function FirstIndex<T(==)>(s: seq<T>, x: T): (k: nat)
    requires x in s
    ensures k < |s| && s[k] == x
    ensures forall j :: 0 <= j < k ==> s[j] != x
  {
    if s[0] == x then 0 else 1 + FirstIndex(s[1..], x)
  }

  /**
   * The distinct elements of `s`, each kept at its first occurrence
   * (pandas `Series.unique()`).
   */
  function Unique(s: seq<string>): (u: seq<string>)
    ensures NoDup(u)
    ensures forall x :: x in u <==> x in s
    ensures |u| <= |s|
  {
    if s == [] then []
    else
      var u := Unique(s[..|s| - 1]);
      if s[|s| - 1] in u then u else u + [s[|s| - 1]]
  }

  /** Appending never moves the first occurrence of an element already present. */
  lemma {:induction false} FirstIndexOfPrefix<T>(s: seq<T>, t: seq<T>, x: T)
    requires x in s
    ensures FirstIndex(s + t, x) == FirstIndex(s, x)
  {
    if s[0] != x {
      assert (s + t)[1..] == s[1..] + t;
      FirstIndexOfPrefix(s[1..], t, x);
    }
  }

  /** `Unique` lists the elements in the order of their first occurrence in `s`. */
  lemma {:induction false} UniqueKeepsFirstOccurrenceOrder(s: seq<string>, i: nat, j: nat)
    requires i < j < |Unique(s)|
    ensures FirstIndex(s, Unique(s)[i]) < FirstIndex(s, Unique(s)[j])
  {
    var n := |s|;
    var p := s[..n - 1];
    assert s == p + [s[n - 1]];
    var u := Unique(p);
    var x, y := Unique(s)[i], Unique(s)[j];
    if s[n - 1] in u || j < |u| {
      assert x == u[i] && y == u[j];
      UniqueKeepsFirstOccurrenceOrder(p, i, j);
      FirstIndexOfPrefix(p, [s[n - 1]], x);
      FirstIndexOfPrefix(p, [s[n - 1]], y);
    } else {
      assert x == u[i] && x in p;
      FirstIndexOfPrefix(p, [s[n - 1]], x);
      assert y == s[n - 1] && y !in p;
      assert FirstIndex(s, y) == n - 1;
    }
  }
}
