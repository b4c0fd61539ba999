/** Strict total orders and the sorted listing of a finite set, the meaning of ORDER BY over a unique key. */
module Ordering {
  import opened Prelude

  ghost predicate TotalOrder<T(!new)>(less: (T, T) -> bool) {
    && (forall x :: !less(x, x))
    && (forall x, y, z :: less(x, y) && less(y, z) ==> less(x, z))
    && (forall x, y :: x == y || less(x, y) || less(y, x))
  }

  ghost predicate Ascending<T(!new)>(less: (T, T) -> bool, xs: seq<T>) {
    forall i, j :: 0 <= i < j < |xs| ==> less(xs[i], xs[j])
  }

  predicate IsLeast<T>(less: (T, T) -> bool, x: T, s: set<T>) {
    x in s && forall y | y in s :: y == x || less(x, y)
  }

  lemma {:induction false} LeastExists<T(!new)>(less: (T, T) -> bool, s: set<T>) returns (x: T)
    requires TotalOrder(less) && s != {}
    ensures IsLeast(less, x, s)
    decreases s
  {
    var y :| y in s;
    if s == {y} {
      x := y;
    } else {
      var rest := s - {y};
      assert s == rest + {y};
      var z := LeastExists(less, rest);
      x := if less(y, z) then y else z;
      forall w | w in s ensures w == x || less(x, w) {
        if w != y { assert w in rest; }
      }
    }
  }

  /** The elements of `s` in ascending order. */
  ghost function SortedListing<T(!new)>(less: (T, T) -> bool, s: set<T>): (xs: seq<T>)
    requires TotalOrder(less)
    decreases s
  {
    if s == {} then []
    else
      assert exists x :: IsLeast(less, x, s) by { var x := LeastExists(less, s); }
      var x :| IsLeast(less, x, s);
      [x] + SortedListing(less, s - {x})
  }

  lemma NothingToList<T(!new)>(less: (T, T) -> bool)
    requires TotalOrder(less)
    ensures SortedListing(less, {}) == []
  {
  }

  lemma LeastIsFirst<T(!new)>(less: (T, T) -> bool, s: set<T>, x: T)
    requires TotalOrder(less) && IsLeast(less, x, s)
    ensures SortedListing(less, s) == [x] + SortedListing(less, s - {x})
  {
    assert IsLeast(less, SortedListing(less, s)[0], s);
  }

  lemma {:induction false} ListingIsAscending<T(!new)>(less: (T, T) -> bool, s: set<T>)
    requires TotalOrder(less)
    ensures Ascending(less, SortedListing(less, s))
    ensures Elems(SortedListing(less, s)) == s
    ensures |SortedListing(less, s)| == |s|
    decreases s
  {
    if s != {} {
      var xs := SortedListing(less, s);
      var x := xs[0];
      assert IsLeast(less, x, s);
      ListingIsAscending(less, s - {x});
      var rest := SortedListing(less, s - {x});
      assert xs == [x] + rest;
      forall i, j | 0 <= i < j < |xs| ensures less(xs[i], xs[j]) {
        if i == 0 { assert rest[j - 1] in Elems(rest); }
      }
      ElemsConcat([x], rest);
    }
  }

  /** There is only one ascending listing of a set. */
  lemma {:induction false} AscendingIsUnique<T(!new)>(less: (T, T) -> bool, xs: seq<T>, ys: seq<T>)
    requires TotalOrder(less)
    requires Ascending(less, xs) && Ascending(less, ys) && Elems(xs) == Elems(ys)
    ensures xs == ys
    decreases |xs|
  {
    if xs == [] {
      assert forall i :: 0 <= i < |ys| ==> ys[i] in Elems(ys);
    } else {
      assert xs[0] in Elems(ys);
      var j :| 0 <= j < |ys| && ys[j] == xs[0];
      assert ys[0] in Elems(xs);
      var i :| 0 <= i < |xs| && xs[i] == ys[0];
      assert xs[0] == ys[0];
      forall x | x in Elems(xs[1..]) ensures x in Elems(ys[1..]) {
        var k :| 1 <= k < |xs| && xs[k] == x;
        assert less(xs[0], x);
        assert x in Elems(ys);
        var l :| 0 <= l < |ys| && ys[l] == x;
        assert ys[1..][l - 1] == x;
      }
      forall y | y in Elems(ys[1..]) ensures y in Elems(xs[1..]) {
        var k :| 1 <= k < |ys| && ys[k] == y;
        assert less(ys[0], y);
        assert y in Elems(xs);
        var l :| 0 <= l < |xs| && xs[l] == y;
        assert xs[1..][l - 1] == y;
      }
      AscendingIsUnique(less, xs[1..], ys[1..]);
      assert xs == [xs[0]] + xs[1..] && ys == [ys[0]] + ys[1..];
    }
  }

  /** What is left to list after a non-empty prefix is exactly what lies above the last element of that prefix. */
  lemma {:induction false} ElementsAbovePrefix<T(!new)>(less: (T, T) -> bool, xs: seq<T>, n: nat)
    requires TotalOrder(less) && Ascending(less, xs) && 0 < n <= |xs|
    ensures forall x :: x in xs[n..] <==> x in xs && less(xs[n - 1], x)
    ensures forall x :: x in xs[..n] <==> x in xs && !less(xs[n - 1], x)
  {
    forall x | x in xs ensures x in xs[n..] <==> less(xs[n - 1], x)
                       ensures x in xs[..n] <==> !less(xs[n - 1], x) {
      var i :| 0 <= i < |xs| && xs[i] == x;
      if i < n {
        assert xs[..n][i] == x;
        if i < n - 1 { assert less(xs[i], xs[n - 1]); }
      } else {
        assert xs[n..][i - n] == x;
        assert less(xs[n - 1], xs[i]);
      }
    }
  }

  lemma SuffixIsAscending<T(!new)>(less: (T, T) -> bool, xs: seq<T>, n: nat)
    requires Ascending(less, xs) && n <= |xs|
    ensures Ascending(less, xs[n..])
  {
  }

  /** Listing only what lies above the k-th element gives the rest of the listing. */
  lemma ListingAbove<T(!new)>(less: (T, T) -> bool, s: set<T>, above: set<T>, k: nat)
    requires TotalOrder(less) && k < |SortedListing(less, s)|
    requires forall x :: x in above <==> x in s && less(SortedListing(less, s)[k], x)
    ensures SortedListing(less, above) == SortedListing(less, s)[k + 1..]
  {
    hide TotalOrder, SortedListing, Ascending;
    var xs := SortedListing(less, s);
    ListingIsAscending(less, s);
    ListingIsAscending(less, above);
    SuffixIsAscending(less, xs, k + 1);
    ElementsAbovePrefix(less, xs, k + 1);
    forall x ensures x in Elems(xs[k + 1..]) <==> x in above {
      assert x in Elems(xs[k + 1..]) <==> x in xs[k + 1..];
      assert x in xs <==> x in Elems(xs);
    }
    AscendingIsUnique(less, SortedListing(less, above), xs[k + 1..]);
  }
}
