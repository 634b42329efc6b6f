/**
 * Sequence vocabulary shared by the grouping and the formatters: first and last
 * occurrences, the order-preserving duplicate removal that `[...new Set(xs)]`
 * performs, and multiplicities with the counting facts built on them.
 *
 * Recursive definitions peel the LAST element off, so that they follow the
 * left-to-right loops and `reduce` folds of the program one step at a time.
 */
module Seqs {

  /** No element occurs twice. */
  predicate Distinct<T(==)>(s: seq<T>) {
    forall i, j :: 0 <= i < j < |s| ==> s[i] != s[j]
  }

  /** Index of the first occurrence of `x` in `s`. */
  function FirstIndex<T(==)>(s: seq<T>, x: T): (i: nat)
    requires x in s
    ensures i < |s| && s[i] == x && x !in s[..i]
  {
    var p := s[..|s| - 1];
    if x in p then
      var i := FirstIndex(p, x);
      assert s[..i] == p[..i];
      i
    else
      assert s == p + [s[|s| - 1]];
      |s| - 1
  }

  /** Index of the last occurrence of `x` in `s`. */
  function LastIndex<T(==)>(s: seq<T>, x: T): (i: nat)
    requires x in s
    ensures i < |s| && s[i] == x && x !in s[i + 1..]
  {
    var p := s[..|s| - 1];
    if s[|s| - 1] == x then
      |s| - 1
    else
      assert s == p + [s[|s| - 1]];
      var i := LastIndex(p, x);
      assert s[i + 1..] == p[i + 1..] + [s[|s| - 1]];
      i
  }

  /**
   * The distinct elements of `s` in order of first occurrence: what
   * `[...new Set(s)]` yields, since a JavaScript `Set` iterates in insertion
   * order and ignores repeated insertions.
   */
  function Dedup<T(==, !new)>(s: seq<T>): (d: seq<T>)
    ensures Distinct(d)
    ensures forall x :: x in d <==> x in s
    ensures |d| <= |s|
  {
    if s == [] then []
    else
      var p := s[..|s| - 1];
      assert s == p + [s[|s| - 1]];
      var d := Dedup(p);
      if s[|s| - 1] in d then d else d + [s[|s| - 1]]
  }

  /** Number of occurrences of `x` in `s`. */
  function Multiplicity<T(==)>(s: seq<T>, x: T): (n: nat)
    ensures n <= |s|
    ensures n > 0 <==> x in s
  {
    if s == [] then 0
    else
      var p := s[..|s| - 1];
      assert s == p + [s[|s| - 1]];
      Multiplicity(p, x) + if s[|s| - 1] == x then 1 else 0
  }

  /** Sum of the multiplicities in `s` of the elements of `keys`. */
  function TotalMultiplicity<T(==)>(s: seq<T>, keys: seq<T>): nat {
    if keys == [] then 0
    else TotalMultiplicity(s, keys[..|keys| - 1]) + Multiplicity(s, keys[|keys| - 1])
  }

  /** Number of elements of `s` that occur in `keys`. */
  function CountIn<T(==)>(s: seq<T>, keys: seq<T>): nat {
    if s == [] then 0
    else CountIn(s[..|s| - 1], keys) + if s[|s| - 1] in keys then 1 else 0
  }

  /** Each element of `d` occurs in `s`, and `d` lists them in order of first occurrence in `s`. */
  predicate InFirstOccurrenceOrder<T(==, !new)>(d: seq<T>, s: seq<T>) {
    && (forall x :: x in d ==> x in s)
    && (forall i, j :: 0 <= i < j < |d| ==> FirstIndex(s, d[i]) < FirstIndex(s, d[j]))
  }

  // ---------------------------------------------------------------------------
  // One step of each definition, for the loops that extend a prefix by one element.

  lemma DedupSnoc<T(!new)>(s: seq<T>, x: T)
    ensures Dedup(s + [x]) == if x in s then Dedup(s) else Dedup(s) + [x]
  {
    assert (s + [x])[..|s|] == s;
  }

  lemma MultiplicitySnoc<T(!new)>(s: seq<T>, x: T, y: T)
    ensures Multiplicity(s + [x], y) == Multiplicity(s, y) + if x == y then 1 else 0
  {
    assert (s + [x])[..|s|] == s;
  }

  lemma FirstIndexSnoc<T(!new)>(s: seq<T>, x: T, y: T)
    requires y in s + [x]
    ensures FirstIndex(s + [x], y) == if y in s then FirstIndex(s, y) else |s|
  {
    assert (s + [x])[..|s|] == s;
  }

  lemma LastIndexSnoc<T(!new)>(s: seq<T>, x: T, y: T)
    requires y in s + [x]
    ensures LastIndex(s + [x], y) == if y == x then |s| else LastIndex(s, y)
  {
    assert (s + [x])[..|s|] == s;
  }

  /** In a sequence without repetitions, every element occurs exactly once. */
  lemma {:induction false} MultiplicityOfDistinct<T(!new)>(s: seq<T>, x: T)
    requires Distinct(s)
    ensures Multiplicity(s, x) == if x in s then 1 else 0
  {
    if s != [] {
      var p := s[..|s| - 1];
      assert s == p + [s[|s| - 1]];
      MultiplicityOfDistinct(p, x);
    }
  }

  // ---------------------------------------------------------------------------
  // Properties of Dedup beyond its contract.

  /** Dedup keeps the elements in the order in which they first occur. */
  lemma {:induction false} DedupFirstOccurrenceOrder<T(!new)>(s: seq<T>)
    ensures InFirstOccurrenceOrder(Dedup(s), s)
  {
    if s != [] {
      var p, x := s[..|s| - 1], s[|s| - 1];
      assert s == p + [x];
      DedupFirstOccurrenceOrder(p);
      DedupSnoc(p, x);
      var d := Dedup(s);
      forall i, j | 0 <= i < j < |d|
        ensures FirstIndex(s, d[i]) < FirstIndex(s, d[j])
      {
        FirstIndexSnoc(p, x, d[i]);
        FirstIndexSnoc(p, x, d[j]);
        if j == |Dedup(p)| {
          assert d[i] in p;
        }
      }
    }
  }

  /**
   * The three facts Dedup guarantees determine it: any repetition-free list of
   * exactly the elements of `s`, in first-occurrence order, is Dedup(s).
   */
  lemma {:induction false} DedupUnique<T(!new)>(s: seq<T>, d: seq<T>)
    requires Distinct(d)
    requires forall x :: x in d <==> x in s
    requires InFirstOccurrenceOrder(d, s)
    ensures d == Dedup(s)
  {
    if s == [] {
      HeadIsMember(d);
    } else {
      var p, x := s[..|s| - 1], s[|s| - 1];
      assert s == p + [x];
      DedupSnoc(p, x);
      if x in p {
        OrderOnPrefix(p, x, d);
        DedupUnique(p, d);
      } else {
        var d' := DropNewest(p, x, d);
        DedupUnique(p, d');
      }
    }
  }

  /** A non-empty sequence has a member; a term for the solver to work with. */
  lemma HeadIsMember<T(!new)>(d: seq<T>)
    ensures d == [] || d[0] in d
  {
  }

  /** Removing the final element `x` of `p + [x]` keeps the order of the elements that occur in `p`. */
  lemma OrderOnPrefix<T(!new)>(p: seq<T>, x: T, d: seq<T>)
    requires forall y :: y in d ==> y in p
    requires InFirstOccurrenceOrder(d, p + [x])
    ensures InFirstOccurrenceOrder(d, p)
  {
    forall i, j | 0 <= i < j < |d|
      ensures FirstIndex(p, d[i]) < FirstIndex(p, d[j])
    {
      FirstIndexSnoc(p, x, d[i]);
      FirstIndexSnoc(p, x, d[j]);
    }
  }

  /** An element that first occurs at the very end of `p + [x]` closes any list in first-occurrence order. */
  lemma LastIsNewest<T(!new)>(p: seq<T>, x: T, d: seq<T>)
    requires x !in p && x in d
    requires InFirstOccurrenceOrder(d, p + [x])
    ensures d != [] && d[|d| - 1] == x
  {
    var s := p + [x];
    var k :| 0 <= k < |d| && d[k] == x;
    FirstIndexSnoc(p, x, x);
  }

  /** Without its newest element, a list in first-occurrence order of `p + [x]` is one of `p`. */
  lemma DropNewest<T(!new)>(p: seq<T>, x: T, d: seq<T>) returns (d': seq<T>)
    requires x !in p
    requires Distinct(d)
    requires forall y :: y in d <==> y in p + [x]
    requires InFirstOccurrenceOrder(d, p + [x])
    ensures Distinct(d') && d == d' + [x]
    ensures forall y :: y in d' <==> y in p
    ensures InFirstOccurrenceOrder(d', p)
  {
    var s := p + [x];
    assert x in s;
    LastIsNewest(p, x, d);
    d' := d[..|d| - 1];
    assert d == d' + [x];
    forall y ensures y in d' <==> y in p {
      if y in d' {
        var m :| 0 <= m < |d'| && d'[m] == y;
        assert d[m] != d[|d| - 1];
      }
      if y in p {
        assert y in d && y != x;
      }
    }
    assert InFirstOccurrenceOrder(d', s) by {
      forall i, j | 0 <= i < j < |d'|
        ensures FirstIndex(s, d'[i]) < FirstIndex(s, d'[j])
      {
        assert d'[i] == d[i] && d'[j] == d[j];
      }
    }
    OrderOnPrefix(p, x, d');
  }

  // ---------------------------------------------------------------------------
  // Counting.

  lemma {:induction false} TotalMultiplicitySnoc<T(!new)>(s: seq<T>, x: T, keys: seq<T>)
    ensures TotalMultiplicity(s + [x], keys) == TotalMultiplicity(s, keys) + Multiplicity(keys, x)
  {
    if keys != [] {
      var ks, k := keys[..|keys| - 1], keys[|keys| - 1];
      assert keys == ks + [k];
      TotalMultiplicitySnoc(s, x, ks);
      MultiplicitySnoc(s, x, k);
      MultiplicitySnoc(ks, k, x);
    }
  }

  lemma {:induction false} TotalMultiplicityOfEmpty<T(!new)>(keys: seq<T>)
    ensures TotalMultiplicity([], keys) == 0
  {
    if keys != [] {
      TotalMultiplicityOfEmpty(keys[..|keys| - 1]);
    }
  }

  /**
   * Summing, over repetition-free `keys`, how often each key occurs in `s`
   * counts every element of `s` that is one of the keys exactly once.
   */
  lemma {:induction false} TotalMultiplicityIsCountIn<T(!new)>(s: seq<T>, keys: seq<T>)
    requires Distinct(keys)
    ensures TotalMultiplicity(s, keys) == CountIn(s, keys)
  {
    if s == [] {
      TotalMultiplicityOfEmpty(keys);
    } else {
      var p, x := s[..|s| - 1], s[|s| - 1];
      assert s == p + [x];
      TotalMultiplicityIsCountIn(p, keys);
      TotalMultiplicitySnoc(p, x, keys);
      MultiplicityOfDistinct(keys, x);
    }
  }

}
