/** Sorting by decreasing weight, keeping the order of equal weights.

    A stable sort is determined by what it promises, so the function below stands for
    any correct implementation of the list sort the search handler calls. */
module StableSort {

  ghost predicate Descending<T>(s: seq<T>, weight: T -> real) {
    forall i, j :: 0 <= i < j < |s| ==> weight(s[i]) >= weight(s[j])
  }

  // The elements of one weight, in order
  function Tied<T>(s: seq<T>, weight: T -> real, w: real): seq<T> {
    if s == [] then []
    else (if weight(s[0]) == w then [s[0]] else []) + Tied(s[1..], weight, w)
  }

  ghost predicate Stable<T>(s: seq<T>, r: seq<T>, weight: T -> real) {
    forall w :: Tied(r, weight, w) == Tied(s, weight, w)
  }

  // x goes in front of everything that is not heavier
  function InsertSorted<T>(x: T, s: seq<T>, weight: T -> real): seq<T> {
    if s != [] && weight(s[0]) > weight(x) then [s[0]] + InsertSorted(x, s[1..], weight)
    else [x] + s
  }

  function Sort<T>(s: seq<T>, weight: T -> real): seq<T> {
    if s == [] then [] else InsertSorted(s[0], Sort(s[1..], weight), weight)
  }

  lemma {:induction false} InsertDescending<T>(x: T, s: seq<T>, weight: T -> real)
    requires Descending(s, weight)
    ensures Descending(InsertSorted(x, s, weight), weight)
    ensures InsertSorted(x, s, weight) != []
    ensures InsertSorted(x, s, weight)[0] == x || (s != [] && InsertSorted(x, s, weight)[0] == s[0])
  {
    if s != [] && weight(s[0]) > weight(x) {
      InsertDescending(x, s[1..], weight);
    }
  }

  lemma {:induction false} InsertTied<T>(x: T, s: seq<T>, weight: T -> real, w: real)
    ensures Tied(InsertSorted(x, s, weight), weight, w) == Tied([x] + s, weight, w)
  {
    assert ([x] + s)[1..] == s;
    if s != [] && weight(s[0]) > weight(x) {
      InsertTied(x, s[1..], weight, w);
      assert ([x] + s[1..])[1..] == s[1..];
      assert InsertSorted(x, s, weight)[1..] == InsertSorted(x, s[1..], weight);
    }
  }

  /** The sort is in descending order and keeps ties in their order. */
  lemma {:induction false} SortIsStable<T>(s: seq<T>, weight: T -> real)
    ensures Descending(Sort(s, weight), weight)
    ensures Stable(s, Sort(s, weight), weight)
  {
    if s != [] {
      SortIsStable(s[1..], weight);
      InsertDescending(s[0], Sort(s[1..], weight), weight);
      forall w ensures Tied(Sort(s, weight), weight, w) == Tied(s, weight, w) {
        InsertTied(s[0], Sort(s[1..], weight), weight, w);
        var t := [s[0]] + Sort(s[1..], weight);
        assert t[1..] == Sort(s[1..], weight);
      }
    }
  }

  lemma {:induction false} TiedHead<T>(s: seq<T>, weight: T -> real, w: real)
    ensures Tied(s, weight, w) != [] ==> exists i :: 0 <= i < |s| && weight(s[i]) == w
  {
    if s != [] && weight(s[0]) != w {
      TiedHead(s[1..], weight, w);
      if Tied(s, weight, w) != [] {
        var i :| 0 <= i < |s[1..]| && weight(s[1..][i]) == w;
        assert weight(s[i + 1]) == w;
      }
    }
  }

  lemma TiedWithHead<T>(s: seq<T>, weight: T -> real)
    ensures s != [] ==> Tied(s, weight, weight(s[0])) != []
  {
  }

  /** Nothing else does: two descending arrangements of the same ties are the same list. */
  lemma {:induction false} StableSortUnique<T>(a: seq<T>, b: seq<T>, weight: T -> real)
    requires Descending(a, weight) && Descending(b, weight) && Stable(a, b, weight)
    ensures a == b
  {
    if a == [] {
      TiedWithHead(b, weight);
    } else {
      var w := weight(a[0]);
      assert Tied(b, weight, w) == Tied(a, weight, w);
      TiedHead(b, weight, w);
      assert b != [];
      assert Tied(b, weight, weight(b[0])) == Tied(a, weight, weight(b[0]));
      TiedHead(a, weight, weight(b[0]));
      assert weight(b[0]) == w;
      assert Tied(a, weight, w)[0] == a[0] && Tied(b, weight, w)[0] == b[0];
      forall v ensures Tied(b[1..], weight, v) == Tied(a[1..], weight, v) {
        assert Tied(b, weight, v) == Tied(a, weight, v);
        if v == w {
          assert Tied(a, weight, v)[1..] == Tied(a[1..], weight, v);
          assert Tied(b, weight, v)[1..] == Tied(b[1..], weight, v);
        } else {
          assert Tied(a, weight, v) == Tied(a[1..], weight, v);
          assert Tied(b, weight, v) == Tied(b[1..], weight, v);
        }
      }
      StableSortUnique(a[1..], b[1..], weight);
      assert a == [a[0]] + a[1..] && b == [b[0]] + b[1..];
    }
  }

  // Weights matter only on the elements
  lemma {:induction false} SortCongruent<T>(s: seq<T>, weight: T -> real, other: T -> real)
    requires forall x :: x in s ==> weight(x) == other(x)
    ensures Sort(s, weight) == Sort(s, other)
  {
    if s != [] {
      SortCongruent(s[1..], weight, other);
      SortElements(s[1..], weight);
      forall y | y in Sort(s[1..], weight) ensures weight(y) == other(y) {
        assert y in multiset(Sort(s[1..], weight));
        assert y in s[1..];
      }
      InsertCongruent(s[0], Sort(s[1..], weight), weight, other);
    }
  }

  lemma {:induction false} InsertCongruent<T>(x: T, s: seq<T>, weight: T -> real, other: T -> real)
    requires weight(x) == other(x) && forall y :: y in s ==> weight(y) == other(y)
    ensures InsertSorted(x, s, weight) == InsertSorted(x, s, other)
  {
    if s != [] {
      InsertCongruent(x, s[1..], weight, other);
    }
  }

  lemma {:induction false} InsertElements<T>(x: T, s: seq<T>, weight: T -> real)
    ensures multiset(InsertSorted(x, s, weight)) == multiset(s) + multiset{x}
  {
    if s != [] && weight(s[0]) > weight(x) {
      InsertElements(x, s[1..], weight);
      assert s == [s[0]] + s[1..];
    }
  }

  lemma {:induction false} SortElements<T>(s: seq<T>, weight: T -> real)
    ensures multiset(Sort(s, weight)) == multiset(s)
  {
    if s != [] {
      SortElements(s[1..], weight);
      InsertElements(s[0], Sort(s[1..], weight), weight);
      assert s == [s[0]] + s[1..];
    }
  }
}
