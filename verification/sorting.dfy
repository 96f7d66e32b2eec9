/** `sorted(xs, key=w, reverse=True)`: Python's sort is stable, so the result is the one
    ordering by non-increasing weight in which elements of equal weight keep their order. */
module Sorting {

  predicate NonIncreasing<T>(s: seq<T>, w: T -> nat) {
    forall i, j :: 0 <= i < j < |s| ==> w(s[i]) >= w(s[j])
  }

  /** `x` placed just before the first element of smaller weight. */
  function InsertDesc<T(==)>(x: T, s: seq<T>, w: T -> nat): (r: seq<T>)
    ensures |r| == |s| + 1
    ensures multiset(r) == multiset(s) + multiset{x}
  {
    if s == [] then [x]
    else if w(s[0]) < w(x) then [x] + s
    else
      assert s == [s[0]] + s[1..];
      [s[0]] + InsertDesc(x, s[1..], w)
  }

  /** Inserting into a sequence sorted by non-increasing weight keeps it sorted. */
  lemma {:induction false} InsertDescSorted<T>(x: T, s: seq<T>, w: T -> nat)
    requires NonIncreasing(s, w)
    ensures NonIncreasing(InsertDesc(x, s, w), w)
  {
    if s != [] && w(s[0]) >= w(x) {
      var rest := InsertDesc(x, s[1..], w);
      InsertDescSorted(x, s[1..], w);
      forall k | 0 <= k < |rest| ensures w(s[0]) >= w(rest[k]) {
        assert rest[k] in multiset(rest);
        if rest[k] != x {
          assert rest[k] in multiset(s[1..]);
          var p :| 0 <= p < |s[1..]| && s[1..][p] == rest[k];
          assert s[p + 1] == rest[k];
        }
      }
      assert InsertDesc(x, s, w) == [s[0]] + rest;
    }
  }

  /** The sort, one insertion per element in input order. */
  function SortDesc<T(==)>(xs: seq<T>, w: T -> nat): (r: seq<T>)
    ensures |r| == |xs|
    ensures multiset(r) == multiset(xs)
  {
    if xs == [] then []
    else
      assert xs == xs[..|xs| - 1] + [xs[|xs| - 1]];
      InsertDesc(xs[|xs| - 1], SortDesc(xs[..|xs| - 1], w), w)
  }

  /** The sort orders by non-increasing weight. */
  lemma {:induction false} SortDescSorted<T>(xs: seq<T>, w: T -> nat)
    ensures NonIncreasing(SortDesc(xs, w), w)
  {
    if xs != [] {
      SortDescSorted(xs[..|xs| - 1], w);
      InsertDescSorted(xs[|xs| - 1], SortDesc(xs[..|xs| - 1], w), w);
    }
  }

  /** The elements of weight `n`, in order. */
  function OfWeight<T>(s: seq<T>, w: T -> nat, n: nat): (r: seq<T>)
    ensures |r| <= |s|
  {
    if s == [] then [] else (if w(s[0]) == n then [s[0]] else []) + OfWeight(s[1..], w, n)
  }

  lemma {:induction false} OfWeightAppend<T>(a: seq<T>, b: seq<T>, w: T -> nat, n: nat)
    ensures OfWeight(a + b, w, n) == OfWeight(a, w, n) + OfWeight(b, w, n)
  {
    if a != [] {
      var h := if w(a[0]) == n then [a[0]] else [];
      assert (a + b)[1..] == a[1..] + b;
      assert OfWeight(a + b, w, n) == h + OfWeight(a[1..] + b, w, n);
      OfWeightAppend(a[1..], b, w, n);
      assert OfWeight(a, w, n) == h + OfWeight(a[1..], w, n);
      assert h + (OfWeight(a[1..], w, n) + OfWeight(b, w, n)) == (h + OfWeight(a[1..], w, n)) + OfWeight(b, w, n);
    } else {
      assert a + b == b;
    }
  }

  /** In a sequence whose first weight is below `n`, nothing weighs `n`. */
  lemma {:induction false} OfWeightNone<T>(s: seq<T>, w: T -> nat, n: nat)
    requires NonIncreasing(s, w) && s != [] && w(s[0]) < n
    ensures OfWeight(s, w, n) == []
  {
    if |s| > 1 { OfWeightNone(s[1..], w, n); }
  }

  /** Inserting `x` adds it after every element of its own weight. */
  lemma {:induction false} InsertDescOfWeight<T>(x: T, s: seq<T>, w: T -> nat, n: nat)
    requires NonIncreasing(s, w)
    ensures OfWeight(InsertDesc(x, s, w), w, n) == OfWeight(s, w, n) + (if w(x) == n then [x] else [])
  {
    if s == [] {
    } else if w(s[0]) < w(x) {
      var r := [x] + s;
      assert r[1..] == s;
      if w(x) == n { OfWeightNone(s, w, n); } else { assert OfWeight(r, w, n) == OfWeight(s, w, n); }
    } else {
      var r := InsertDesc(x, s, w);
      assert r[1..] == InsertDesc(x, s[1..], w);
      InsertDescOfWeight(x, s[1..], w, n);
    }
  }

  /** Appending one element extends `OfWeight` by that element when it has weight `n`. */
  lemma OfWeightSnoc<T>(s: seq<T>, x: T, w: T -> nat, n: nat)
    ensures OfWeight(s + [x], w, n) == OfWeight(s, w, n) + (if w(x) == n then [x] else [])
  {
    OfWeightAppend(s, [x], w, n);
    assert OfWeight([x], w, n) == (if w(x) == n then [x] else []) + OfWeight([x][1..], w, n);
  }

  /** Stability: the elements of any one weight come out in the order they went in. */
  lemma {:induction false} SortDescStable<T>(xs: seq<T>, w: T -> nat, n: nat)
    ensures OfWeight(SortDesc(xs, w), w, n) == OfWeight(xs, w, n)
  {
    if xs != [] {
      var init, x := xs[..|xs| - 1], xs[|xs| - 1];
      assert xs == init + [x];
      SortDescStable(init, w, n);
      SortDescSorted(init, w);
      InsertDescOfWeight(x, SortDesc(init, w), w, n);
      OfWeightSnoc(init, x, w, n);
    }
  }

  /** The first element of `OfWeight` is the first element of that weight. */
  lemma {:induction false} OfWeightFirst<T>(s: seq<T>, w: T -> nat, n: nat)
    requires OfWeight(s, w, n) != []
    ensures exists j :: (0 <= j < |s| && s[j] == OfWeight(s, w, n)[0] && w(s[j]) == n &&
      forall k :: 0 <= k < j ==> w(s[k]) != n)
  {
    if w(s[0]) != n {
      OfWeightFirst(s[1..], w, n);
      var j :| 0 <= j < |s[1..]| && s[1..][j] == OfWeight(s[1..], w, n)[0] && w(s[1..][j]) == n &&
        (forall k :: 0 <= k < j ==> w(s[1..][k]) != n);
      assert s[j + 1] == s[1..][j];
      forall k | 0 <= k < j + 1 ensures w(s[k]) != n {
        if k > 0 { assert s[k] == s[1..][k - 1]; }
      }
    } else {
      assert w(s[0]) == n;
    }
  }

  /** `sorted(xs, key=w, reverse=True)[0]` is the first element of greatest weight. */
  lemma SortDescFirst<T>(xs: seq<T>, w: T -> nat)
    requires xs != []
    ensures var r := SortDesc(xs, w)[0];
      && (forall k :: 0 <= k < |xs| ==> w(xs[k]) <= w(r))
      && exists j :: 0 <= j < |xs| && xs[j] == r && (forall k :: 0 <= k < j ==> w(xs[k]) < w(r))
  {
    var s := SortDesc(xs, w);
    var n := w(s[0]);
    SortDescSorted(xs, w);
    forall k | 0 <= k < |xs| ensures w(xs[k]) <= n {
      assert xs[k] in multiset(s);
      var p :| 0 <= p < |s| && s[p] == xs[k];
    }
    SortDescStable(xs, w, n);
    assert OfWeight(s, w, n) == [s[0]] + OfWeight(s[1..], w, n);
    OfWeightFirst(xs, w, n);
  }
}
