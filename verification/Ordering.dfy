// Python's `sorted` with a key, and the order of `str` values it relies on.
module Ordering {

  /** Python's `<=` on `str`: lexicographic by code point. */
  predicate TextLe(a: string, b: string)
  {
    a == [] || (b != [] && (a[0] < b[0] || (a[0] == b[0] && TextLe(a[1..], b[1..]))))
  }

  lemma {:induction false} TextTotal(a: string, b: string)
    ensures TextLe(a, b) || TextLe(b, a)
  {
    if a != [] && b != [] && a[0] == b[0] {
      TextTotal(a[1..], b[1..]);
    }
  }

  lemma {:induction false} TextTransitive(a: string, b: string, c: string)
    requires TextLe(a, b) && TextLe(b, c)
    ensures TextLe(a, c)
  {
    if a != [] && a[0] == b[0] == c[0] {
      TextTransitive(a[1..], b[1..], c[1..]);
    }
  }

  lemma {:induction false} TextAntisymmetric(a: string, b: string)
    requires TextLe(a, b) && TextLe(b, a)
    ensures a == b
  {
    if a != [] {
      TextAntisymmetric(a[1..], b[1..]);
      assert a == [a[0]] + a[1..] && b == [b[0]] + b[1..];
    }
  }

  ghost predicate IsPreorder<T(!new)>(le: (T, T) -> bool)
  {
    && (forall a, b :: le(a, b) || le(b, a))
    && (forall a, b, c :: le(a, b) && le(b, c) ==> le(a, c))
  }

  ghost predicate SortedBy<T>(xs: seq<T>, le: (T, T) -> bool)
  {
    forall i, j :: 0 <= i < j < |xs| ==> le(xs[i], xs[j])
  }

  function Insert<T>(x: T, xs: seq<T>, le: (T, T) -> bool): seq<T>
  {
    if xs == [] then [x]
    else if le(x, xs[0]) then [x] + xs
    else [xs[0]] + Insert(x, xs[1..], le)
  }

  /** A stable sort: an element is inserted before the equal ones that followed it. */
  function Sort<T>(xs: seq<T>, le: (T, T) -> bool): seq<T>
  {
    if xs == [] then [] else Insert(xs[0], Sort(xs[1..], le), le)
  }

  lemma {:induction false} InsertPermutes<T>(x: T, xs: seq<T>, le: (T, T) -> bool)
    ensures multiset(Insert(x, xs, le)) == multiset{x} + multiset(xs)
  {
    if xs != [] && !le(x, xs[0]) {
      InsertPermutes(x, xs[1..], le);
      assert xs == [xs[0]] + xs[1..];
    }
  }

  lemma {:induction false} SortPermutes<T>(xs: seq<T>, le: (T, T) -> bool)
    ensures multiset(Sort(xs, le)) == multiset(xs)
    ensures |Sort(xs, le)| == |xs|
  {
    if xs != [] {
      SortPermutes(xs[1..], le);
      InsertPermutes(xs[0], Sort(xs[1..], le), le);
      assert xs == [xs[0]] + xs[1..];
    }
    assert |multiset(Sort(xs, le))| == |multiset(xs)|;
  }

  lemma {:induction false} SortKeepsMembers<T>(xs: seq<T>, le: (T, T) -> bool)
    ensures forall x :: x in Sort(xs, le) <==> x in xs
  {
    SortPermutes(xs, le);
    forall x ensures x in Sort(xs, le) <==> x in xs {
      assert x in Sort(xs, le) <==> x in multiset(Sort(xs, le));
      assert x in xs <==> x in multiset(xs);
    }
  }

  lemma {:induction false} InsertSorts<T(!new)>(x: T, xs: seq<T>, le: (T, T) -> bool)
    requires IsPreorder(le) && SortedBy(xs, le)
    ensures SortedBy(Insert(x, xs, le), le)
  {
    if xs != [] && !le(x, xs[0]) {
      var rest := Insert(x, xs[1..], le);
      InsertSorts(x, xs[1..], le);
      InsertPermutes(x, xs[1..], le);
      forall y | y in rest ensures le(xs[0], y) {
        assert y in multiset(rest);
        assert y == x || y in multiset(xs[1..]);
      }
    }
  }

  lemma {:induction false} SortSorts<T(!new)>(xs: seq<T>, le: (T, T) -> bool)
    requires IsPreorder(le)
    ensures SortedBy(Sort(xs, le), le)
  {
    if xs != [] {
      SortSorts(xs[1..], le);
      InsertSorts(xs[0], Sort(xs[1..], le), le);
    }
  }

  /** Sorting what is already sorted changes nothing. */
  lemma {:induction false} SortFixes<T(!new)>(xs: seq<T>, le: (T, T) -> bool)
    requires IsPreorder(le) && SortedBy(xs, le)
    ensures Sort(xs, le) == xs
  {
    if |xs| > 0 {
      SortFixes(xs[1..], le);
      assert xs == [xs[0]] + xs[1..];
    }
  }

  /** Two orderings of the same elements agree when ties are only between equal elements. */
  lemma {:induction false} SortedUnique<T(!new)>(a: seq<T>, b: seq<T>, le: (T, T) -> bool)
    requires IsPreorder(le) && SortedBy(a, le) && SortedBy(b, le)
    requires multiset(a) == multiset(b)
    requires forall x, y :: x in a && y in a && le(x, y) && le(y, x) ==> x == y
    ensures a == b
  {
    assert |multiset(a)| == |a| && |multiset(b)| == |b|;
    if a != [] {
      HeadsAgree(a, b, le);
      TailsPermute(a, b);
      forall x | x in a[1..] ensures x in a {
      }
      SortedUnique(a[1..], b[1..], le);
      assert a == [a[0]] + a[1..] && b == [b[0]] + b[1..];
    }
  }

  lemma {:induction false} TailsPermute<T>(a: seq<T>, b: seq<T>)
    requires a != [] && b != [] && a[0] == b[0] && multiset(a) == multiset(b)
    ensures multiset(a[1..]) == multiset(b[1..])
  {
    assert a == [a[0]] + a[1..] && b == [b[0]] + b[1..];
    assert multiset(a[1..]) == multiset(a) - multiset{a[0]};
    assert multiset(b[1..]) == multiset(b) - multiset{b[0]};
  }

  lemma {:induction false} HeadsAgree<T(!new)>(a: seq<T>, b: seq<T>, le: (T, T) -> bool)
    requires IsPreorder(le) && SortedBy(a, le) && SortedBy(b, le)
    requires multiset(a) == multiset(b) && a != [] && b != []
    requires forall x, y :: x in a && y in a && le(x, y) && le(y, x) ==> x == y
    ensures a[0] == b[0]
  {
    assert a[0] in multiset(b) && b[0] in multiset(a);
    var i :| 0 <= i < |b| && b[i] == a[0];
    var j :| 0 <= j < |a| && a[j] == b[0];
    assert le(a[0], b[0]) && le(b[0], a[0]);
  }

  /** Hence any permutation of a list sorts to the same result. */
  lemma {:induction false} SortCanonical<T(!new)>(a: seq<T>, b: seq<T>, le: (T, T) -> bool)
    requires IsPreorder(le) && multiset(a) == multiset(b)
    requires forall x, y :: x in a && y in a && le(x, y) && le(y, x) ==> x == y
    ensures Sort(a, le) == Sort(b, le)
  {
    SortPermutes(a, le);
    SortPermutes(b, le);
    SortSorts(a, le);
    SortSorts(b, le);
    SortKeepsMembers(a, le);
    SortedUnique(Sort(a, le), Sort(b, le), le);
  }

  lemma {:induction false} InsertFront<T>(y: T, xs: seq<T>, le: (T, T) -> bool)
    requires xs == [] || le(y, xs[0])
    ensures Insert(y, xs, le) == [y] + xs
  {
  }

  /** Inserting the least element of a list into the rest with x at place j moves x by at most one. */
  lemma {:induction false} InsertLeast<T(!new)>(all: seq<T>, y: T, ys: seq<T>, x: T, j: nat, le: (T, T) -> bool) returns (k: nat)
    requires all == [y] + ys && j <= |ys| && (ys == [] || le(y, ys[0]))
    ensures k <= |all|
    ensures Insert(y, ys[..j] + [x] + ys[j..], le) == all[..k] + [x] + all[k..]
  {
    var rest := ys[..j] + [x] + ys[j..];
    if j == 0 && !le(y, x) {
      k := 0;
      assert rest == [x] + ys && rest[1..] == ys;
      InsertFront(y, ys, le);
      assert Insert(y, rest, le) == [x] + all;
    } else {
      k := j + 1;
      assert le(y, rest[0]);
      InsertFront(y, rest, le);
      assert all[..k] == [y] + ys[..j] && all[k..] == ys[j..];
      assert [y] + rest == [y] + ys[..j] + [x] + ys[j..];
    }
  }

  /** Sorting a sorted list with one more element at its end puts that element in its place. */
  lemma {:induction false} SortAppend<T(!new)>(xs: seq<T>, x: T, le: (T, T) -> bool) returns (k: nat)
    requires IsPreorder(le) && SortedBy(xs, le)
    ensures k <= |xs| && Sort(xs + [x], le) == xs[..k] + [x] + xs[k..]
  {
    if xs == [] {
      k := 0;
      assert xs + [x] == [x] && [x][1..] == [];
    } else {
      var y, ys := xs[0], xs[1..];
      var j := SortAppend(ys, x, le);
      k := InsertLeast(xs, y, ys, x, j, le);
      SortUnfolds(xs + [x], y, ys + [x], le);
    }
  }

  lemma {:induction false} SortUnfolds<T>(all: seq<T>, y: T, ys: seq<T>, le: (T, T) -> bool)
    requires all != [] && all[0] == y && all[1..] == ys
    ensures Sort(all, le) == Insert(y, Sort(ys, le), le)
  {
  }

  ghost predicate Pairwise<T>(xs: seq<T>, rel: (T, T) -> bool)
  {
    forall i, j :: 0 <= i < j < |xs| ==> rel(xs[i], xs[j])
  }

  lemma {:induction false} InsertKeepsPairwise<T(!new)>(x: T, xs: seq<T>, le: (T, T) -> bool, rel: (T, T) -> bool)
    requires forall a, b :: rel(a, b) ==> rel(b, a)
    requires Pairwise(xs, rel) && forall i :: 0 <= i < |xs| ==> rel(x, xs[i])
    ensures Pairwise(Insert(x, xs, le), rel)
  {
    if xs != [] && !le(x, xs[0]) {
      InsertKeepsPairwise(x, xs[1..], le, rel);
      InsertPermutes(x, xs[1..], le);
      var rest := Insert(x, xs[1..], le);
      forall j | 0 <= j < |rest| ensures rel(xs[0], rest[j]) {
        assert rest[j] in multiset(rest);
        assert rest[j] == x || rest[j] in multiset(xs[1..]);
      }
    }
  }

  /** A symmetric relation between all members holds in any order. */
  lemma {:induction false} SortKeepsPairwise<T(!new)>(xs: seq<T>, le: (T, T) -> bool, rel: (T, T) -> bool)
    requires forall a, b :: rel(a, b) ==> rel(b, a)
    requires Pairwise(xs, rel)
    ensures Pairwise(Sort(xs, le), rel)
  {
    if xs != [] {
      SortKeepsPairwise(xs[1..], le, rel);
      SortKeepsMembers(xs[1..], le);
      var rest := Sort(xs[1..], le);
      forall i | 0 <= i < |rest| ensures rel(xs[0], rest[i]) {
        assert rest[i] in xs[1..];
      }
      InsertKeepsPairwise(xs[0], rest, le, rel);
    }
  }

  /** A symmetric relation between all members of a list holds in every permutation of it. */
  lemma {:induction false} PermutationKeepsPairwise<T(!new)>(a: seq<T>, b: seq<T>, rel: (T, T) -> bool)
    requires forall x, y :: rel(x, y) ==> rel(y, x)
    requires multiset(a) == multiset(b) && Pairwise(a, rel)
    ensures Pairwise(b, rel)
    decreases |b|
  {
    if b != [] {
      var i := Without(a, b);
      var rest := a[..i] + a[i + 1..];
      PermutationKeepsPairwise(rest, b[1..], rel);
      forall j | 1 <= j < |b| ensures rel(b[0], b[j]) {
        assert b[1..][j - 1] == b[j] && b[j] in multiset(b[1..]);
        assert b[j] in rest;
        var k :| 0 <= k < |rest| && rest[k] == b[j];
        assert rest[k] == a[if k < i then k else k + 1];
      }
      assert forall j :: 0 <= j < |b| - 1 ==> b[1..][j] == b[j + 1];
    }
  }

  // The place of a list's head in a permutation of it, and what is left without it.
  lemma {:induction false} Without<T>(a: seq<T>, b: seq<T>) returns (i: nat)
    requires multiset(a) == multiset(b) && b != []
    ensures i < |a| && a[i] == b[0] && multiset(a[..i] + a[i + 1..]) == multiset(b[1..])
  {
    assert b[0] in multiset(a);
    i :| 0 <= i < |a| && a[i] == b[0];
    LeavesTheRest(a, i);
    assert b == [b[0]] + b[1..];
    assert multiset(b[1..]) == multiset(b) - multiset{b[0]};
  }

  lemma {:induction false} LeavesTheRest<T>(a: seq<T>, i: nat)
    requires i < |a|
    ensures multiset(a[..i] + a[i + 1..]) == multiset(a) - multiset{a[i]}
  {
    var front, back := a[..i], a[i + 1..];
    assert a == (front + [a[i]]) + back;
    assert multiset(a) == multiset(front + [a[i]]) + multiset(back) == multiset(front) + multiset{a[i]} + multiset(back);
    assert multiset(front + back) == multiset(front) + multiset(back);
  }
}
