/** The order `Vec<String>::sort` puts strings in, and a sort over it.
    Rust compares `String`s byte by byte in UTF-8, which orders them exactly
    as comparing their code points lexicographically does. */
module Ordering {

  /** `a` comes no later than `b` in lexicographic code-point order. */
  predicate Below(a: string, b: string)
  {
    |a| == 0 || (|b| > 0 && (a[0] < b[0] || (a[0] == b[0] && Below(a[1..], b[1..]))))
  }

  lemma {:induction false} BelowReflexive(a: string)
    ensures Below(a, a)
  {
    if |a| > 0 {
      BelowReflexive(a[1..]);
    }
  }

  lemma {:induction false} BelowTotal(a: string, b: string)
    ensures Below(a, b) || Below(b, a)
  {
    if |a| > 0 && |b| > 0 && a[0] == b[0] {
      BelowTotal(a[1..], b[1..]);
    }
  }

  lemma {:induction false} BelowAntisymmetric(a: string, b: string)
    requires Below(a, b) && Below(b, a)
    ensures a == b
  {
    if |a| > 0 && |b| > 0 {
      BelowAntisymmetric(a[1..], b[1..]);
      assert a == [a[0]] + a[1..];
      assert b == [b[0]] + b[1..];
    }
  }

  lemma {:induction false} BelowTransitive(a: string, b: string, c: string)
    requires Below(a, b) && Below(b, c)
    ensures Below(a, c)
  {
    if |a| > 0 && a[0] == b[0] && b[0] == c[0] {
      BelowTransitive(a[1..], b[1..], c[1..]);
    }
  }

  /** Every earlier element is Below every later one. */
  predicate Sorted(s: seq<string>)
  {
    forall i, j :: 0 <= i < j < |s| ==> Below(s[i], s[j])
  }

  /** `y` is Below every element of `s`. */
  predicate AllAbove(y: string, s: seq<string>)
  {
    forall j :: 0 <= j < |s| ==> Below(y, s[j])
  }

  lemma ConsSorted(y: string, t: seq<string>)
    requires Sorted(t) && AllAbove(y, t)
    ensures Sorted([y] + t)
  {
  }

  /** A lower bound of `s` that is also Below `x` bounds any rearrangement of `s` plus `x`. */
  lemma AllAbovePermutation(y: string, x: string, s: seq<string>, t: seq<string>)
    requires AllAbove(y, s) && Below(y, x)
    requires multiset(t) == multiset(s) + multiset{x}
    ensures AllAbove(y, t)
  {
    forall j | 0 <= j < |t|
      ensures Below(y, t[j])
    {
      assert t[j] in multiset(t);
      if t[j] != x {
        assert t[j] in multiset(s);
      }
    }
  }

  lemma AllAboveTransitive(x: string, y: string, s: seq<string>)
    requires Below(x, y) && AllAbove(y, s)
    ensures AllAbove(x, s)
  {
    forall j | 0 <= j < |s|
      ensures Below(x, s[j])
    {
      BelowTransitive(x, y, s[j]);
    }
  }

  /** Places `x` in front of the first element it is Below. */
  function Insert(x: string, s: seq<string>): (r: seq<string>)
    requires Sorted(s)
    ensures Sorted(r)
    ensures multiset(r) == multiset(s) + multiset{x}
  {
    if |s| == 0 then [x]
    else
      assert s == [s[0]] + s[1..];
      assert AllAbove(s[0], s[1..]);
      if Below(x, s[0]) then
        AllAboveTransitive(x, s[0], s[1..]);
        ConsSorted(x, s);
        [x] + s
      else
        BelowTotal(x, s[0]);
        var tail := Insert(x, s[1..]);
        AllAbovePermutation(s[0], x, s[1..], tail);
        ConsSorted(s[0], tail);
        [s[0]] + tail
  }

  /** Insertion sort: a sorted permutation of its input. */
  function Sort(s: seq<string>): (r: seq<string>)
    ensures Sorted(r)
    ensures multiset(r) == multiset(s)
  {
    if |s| == 0 then []
    else
      assert s == [s[0]] + s[1..];
      Insert(s[0], Sort(s[1..]))
  }

  /** A sorted sequence is fixed by its elements: two sorted permutations of each other are equal. */
  lemma {:induction false} SortedUnique(a: seq<string>, b: seq<string>)
    requires Sorted(a) && Sorted(b)
    requires multiset(a) == multiset(b)
    ensures a == b
    decreases |a|
  {
    if |a| == 0 {
      assert |b| == |multiset(b)| == 0;
    } else {
      SortedHeads(a, b);
      TailsMultiset(a, b);
      SortedUnique(a[1..], b[1..]);
      assert a == [a[0]] + a[1..];
      assert b == [b[0]] + b[1..];
    }
  }

  /** Two sorted permutations of each other start with the same element. */
  lemma SortedHeads(a: seq<string>, b: seq<string>)
    requires Sorted(a) && Sorted(b) && |a| > 0
    requires multiset(a) == multiset(b)
    ensures |b| > 0 && a[0] == b[0]
  {
    assert |b| == |multiset(b)| == |a|;
    assert a[0] in multiset(b);
    var j :| 0 <= j < |b| && b[j] == a[0];
    assert b[0] in multiset(a);
    var i :| 0 <= i < |a| && a[i] == b[0];
    BelowReflexive(a[0]);
    assert Below(b[0], a[0]) by {
      if j > 0 {
        assert Below(b[0], b[j]);
      }
    }
    assert Below(a[0], b[0]) by {
      if i > 0 {
        assert Below(a[0], a[i]);
      }
    }
    BelowAntisymmetric(a[0], b[0]);
  }

  lemma TailsMultiset(a: seq<string>, b: seq<string>)
    requires |a| > 0 && |b| > 0 && a[0] == b[0]
    requires multiset(a) == multiset(b)
    ensures multiset(a[1..]) == multiset(b[1..])
  {
    assert a == [a[0]] + a[1..];
    assert b == [b[0]] + b[1..];
    assert multiset(a[1..]) == multiset(a) - multiset{a[0]};
    assert multiset(b[1..]) == multiset(b) - multiset{a[0]};
  }

  /** Sorting only depends on which elements there are, not on the order they came in. */
  lemma SortPermutationInvariant(a: seq<string>, b: seq<string>)
    requires multiset(a) == multiset(b)
    ensures Sort(a) == Sort(b)
  {
    SortedUnique(Sort(a), Sort(b));
  }
}
