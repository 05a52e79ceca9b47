/** Python's tuple ordering and its stable `sorted(..., key=...)`, over keys that
    are sequences of integers. The table's sort key (matches/utils.py:140) is such a
    tuple, and the form's query orders results by a one-element key. */
module Sorting {

  /** Tuple comparison `a <= b`: the first differing component decides, and a
      proper prefix comes first. */
  predicate LexLe(a: seq<int>, b: seq<int>) {
    if |a| == 0 then true
    else if |b| == 0 then false
    else if a[0] != b[0] then a[0] < b[0]
    else LexLe(a[1..], b[1..])
  }

  lemma {:induction false} LexLeTotal(a: seq<int>, b: seq<int>)
    ensures LexLe(a, b) || LexLe(b, a)
  {
    if |a| > 0 && |b| > 0 && a[0] == b[0] {
      LexLeTotal(a[1..], b[1..]);
    }
  }

  lemma {:induction false} LexLeTransitive(a: seq<int>, b: seq<int>, c: seq<int>)
    requires LexLe(a, b) && LexLe(b, c)
    ensures LexLe(a, c)
  {
    if |a| > 0 && |b| > 0 && |c| > 0 && a[0] == b[0] == c[0] {
      LexLeTransitive(a[1..], b[1..], c[1..]);
    }
  }

  lemma {:induction false} LexLeAntisymmetric(a: seq<int>, b: seq<int>)
    requires LexLe(a, b) && LexLe(b, a)
    ensures a == b
  {
    if |a| > 0 && |b| > 0 {
      LexLeAntisymmetric(a[1..], b[1..]);
      assert a == [a[0]] + a[1..] && b == [b[0]] + b[1..];
    }
  }

  /** Keys never decrease along `xs`. */
  predicate SortedBy<T>(xs: seq<T>, key: T -> seq<int>) {
    forall i, j :: 0 <= i < j < |xs| ==> LexLe(key(xs[i]), key(xs[j]))
  }

  /** Puts `x` before the first element whose key is not smaller, so that `x`
      stays ahead of the elements with an equal key. */
  function InsertBy<T>(x: T, xs: seq<T>, key: T -> seq<int>): (r: seq<T>)
    requires SortedBy(xs, key)
    ensures SortedBy(r, key)
    ensures multiset(r) == multiset(xs) + multiset{x}
  {
    if xs == [] then [x]
    else if LexLe(key(x), key(xs[0])) then
      assert forall j :: 0 < j < |xs| ==> LexLe(key(x), key(xs[j])) by {
        forall j | 0 < j < |xs| ensures LexLe(key(x), key(xs[j])) {
          LexLeTransitive(key(x), key(xs[0]), key(xs[j]));
        }
      }
      [x] + xs
    else
      var rest := InsertBy(x, xs[1..], key);
      assert xs == [xs[0]] + xs[1..];
      LexLeTotal(key(x), key(xs[0]));
      assert forall y :: y in multiset(rest) ==> LexLe(key(xs[0]), key(y)) by {
        forall y | y in multiset(rest) ensures LexLe(key(xs[0]), key(y)) {
          assert y == x || y in multiset(xs[1..]);
          if y != x {
            var j :| 0 <= j < |xs[1..]| && xs[1..][j] == y;
            assert y == xs[j + 1];
          }
        }
      }
      assert forall j :: 0 <= j < |rest| ==> LexLe(key(xs[0]), key(rest[j])) by {
        forall j | 0 <= j < |rest| ensures LexLe(key(xs[0]), key(rest[j])) {
          assert rest[j] in multiset(rest);
        }
      }
      [xs[0]] + rest
  }

  /** `sorted(xs, key=key)`: a stable insertion sort. */
  function SortBy<T>(xs: seq<T>, key: T -> seq<int>): (r: seq<T>)
    ensures SortedBy(r, key)
    ensures multiset(r) == multiset(xs)
    ensures |r| == |xs|
  {
    if xs == [] then []
    else
      assert xs == [xs[0]] + xs[1..];
      InsertBy(xs[0], SortBy(xs[1..], key), key)
  }

  /** The first element of a sorted sequence has the least key. */
  lemma FirstIsLeast<T>(a: seq<T>, key: T -> seq<int>, y: T)
    requires SortedBy(a, key) && y in multiset(a)
    ensures LexLe(key(a[0]), key(y))
  {
    var i :| 0 <= i < |a| && a[i] == y;
    if i == 0 {
      LexLeTotal(key(y), key(y));
    }
  }

  /** When no two different elements share a key, sortedness and the multiset
      of elements determine the order: every correct sort returns the same sequence. */
  lemma {:induction false} SortedUnique<T>(a: seq<T>, b: seq<T>, key: T -> seq<int>)
    requires SortedBy(a, key) && SortedBy(b, key)
    requires multiset(a) == multiset(b)
    requires forall x, y :: x in multiset(a) && y in multiset(a) && key(x) == key(y) ==> x == y
    ensures a == b
  {
    if |a| == 0 {
      assert |multiset(b)| == 0;
    } else {
      assert |b| == |multiset(b)| == |a|;
      assert a[0] in multiset(a) && b[0] in multiset(b);
      FirstIsLeast(a, key, b[0]);
      FirstIsLeast(b, key, a[0]);
      LexLeAntisymmetric(key(a[0]), key(b[0]));
      assert a[0] == b[0];
      TailsAgree(a, b);
      SortedUnique(a[1..], b[1..], key);
    }
  }

  lemma TailsAgree<T>(a: seq<T>, b: seq<T>)
    requires |a| > 0 && |b| > 0 && a[0] == b[0] && multiset(a) == multiset(b)
    ensures multiset(a[1..]) == multiset(b[1..]) && multiset(a[1..]) <= multiset(a)
  {
    assert a == [a[0]] + a[1..] && b == [b[0]] + b[1..];
    assert multiset(a) == multiset{a[0]} + multiset(a[1..]);
    assert multiset(b) == multiset{b[0]} + multiset(b[1..]);
    assert multiset(a[1..]) == multiset(a) - multiset{a[0]};
    assert multiset(b[1..]) == multiset(b) - multiset{b[0]};
  }

  /** What `LexLe(a, b)` says about the first components. */
  lemma LexLeHead(a: seq<int>, b: seq<int>)
    requires |a| > 0 && |b| > 0 && LexLe(a, b)
    ensures a[0] <= b[0]
    ensures a[0] == b[0] ==> LexLe(a[1..], b[1..])
  {
  }

  /** No element occurs twice in `xs`. */
  ghost predicate Distinct<T>(xs: seq<T>) {
    forall i, j :: 0 <= i < j < |xs| ==> xs[i] != xs[j]
  }

  lemma {:induction false} DistinctCount<T>(xs: seq<T>, x: T)
    requires Distinct(xs)
    ensures multiset(xs)[x] <= 1
  {
    if xs != [] {
      var prefix, last := xs[..|xs| - 1], xs[|xs| - 1];
      assert xs == prefix + [last];
      assert Distinct(prefix);
      DistinctCount(prefix, x);
      if last == x {
        assert x !in prefix;
      }
    }
  }

  lemma RepeatCount<T>(xs: seq<T>, i: int, j: int)
    requires 0 <= i < j < |xs|
    ensures xs[i] == xs[j] ==> multiset(xs)[xs[i]] >= 2
  {
    assert xs == xs[..j] + xs[j..];
    assert xs[i] in multiset(xs[..j]) by { assert xs[..j][i] == xs[i]; }
    assert xs[j] in multiset(xs[j..]) by { assert xs[j..][0] == xs[j]; }
  }

  /** A rearrangement of a sequence without repeats has no repeats. */
  lemma PermutationOfDistinct<T>(a: seq<T>, b: seq<T>)
    requires multiset(a) == multiset(b) && Distinct(a)
    ensures Distinct(b)
  {
    forall i, j | 0 <= i < j < |b|
      ensures b[i] != b[j]
    {
      RepeatCount(b, i, j);
      DistinctCount(a, b[i]);
    }
  }
}
