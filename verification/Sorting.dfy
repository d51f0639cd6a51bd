/**
 The orders the program sorts by: strings compared character by character, and a stable sort by any total order.
 */
module Sorting {

  /** The order of strings: the first differing character decides, and a proper prefix comes first. */
  predicate StringLeq(a: string, b: string) {
    a == "" || (b != "" && (a[0] < b[0] || (a[0] == b[0] && StringLeq(a[1..], b[1..]))))
  }

  predicate StringLess(a: string, b: string) {
    StringLeq(a, b) && a != b
  }

  lemma {:induction false} StringOrder(a: string, b: string, c: string)
    ensures StringLeq(a, a)
    ensures StringLeq(a, b) || StringLeq(b, a)
    ensures StringLeq(a, b) && StringLeq(b, a) ==> a == b
    ensures StringLeq(a, b) && StringLeq(b, c) ==> StringLeq(a, c)
    decreases |a| + |b| + |c|
  {
    if a != "" {
      var tailB, tailC := if b == "" then "" else b[1..], if c == "" then "" else c[1..];
      StringOrder(a[1..], tailB, tailC);
      assert a == [a[0]] + a[1..];
      assert b != "" ==> b == [b[0]] + b[1..];
    }
  }

  /** `a` is a prefix of `b`, or smaller where they first differ. */
  predicate Precedes(a: string, b: string) {
    a <= b || exists k :: 0 <= k < |a| && k < |b| && a[..k] == b[..k] && a[k] < b[k]
  }

  lemma {:induction false} StringLeqIsLexicographic(a: string, b: string)
    ensures StringLeq(a, b) <==> Precedes(a, b)
  {
    if a != "" && b != "" && a[0] == b[0] {
      StringLeqIsLexicographic(a[1..], b[1..]);
      SameHead(a, b);
    }
  }

  lemma SameHead(a: string, b: string)
    requires a != "" && b != "" && a[0] == b[0]
    ensures Precedes(a, b) <==> Precedes(a[1..], b[1..])
  {
    assert a == [a[0]] + a[1..] && b == [b[0]] + b[1..];
    if k :| 0 <= k < |a| && k < |b| && a[..k] == b[..k] && a[k] < b[k] {
      assert a[1..][..k - 1] == a[..k][1..] && b[1..][..k - 1] == b[..k][1..];
      assert a[1..][k - 1] < b[1..][k - 1];
    }
    if k :| 0 <= k < |a| - 1 && k < |b| - 1 && a[1..][..k] == b[1..][..k] && a[1..][k] < b[1..][k] {
      assert a[..k + 1] == [a[0]] + a[1..][..k] && b[..k + 1] == [b[0]] + b[1..][..k];
      assert a[k + 1] < b[k + 1];
    }
  }

  /** leq is total, transitive and, on members of xs, antisymmetric. */
  ghost predicate OrdersMembers<T(!new)>(leq: (T, T) -> bool, xs: multiset<T>) {
    && (forall x, y :: x in xs && y in xs ==> leq(x, y) || leq(y, x))
    && (forall x, y, z :: x in xs && y in xs && z in xs && leq(x, y) && leq(y, z) ==> leq(x, z))
    && (forall x, y :: x in xs && y in xs && leq(x, y) && leq(y, x) ==> x == y)
  }

  predicate Ascending<T>(leq: (T, T) -> bool, xs: seq<T>) {
    forall i, j :: 0 <= i < j < |xs| ==> leq(xs[i], xs[j])
  }

  function Insert<T>(leq: (T, T) -> bool, x: T, xs: seq<T>): (r: seq<T>)
    ensures multiset(r) == multiset{x} + multiset(xs)
    ensures |r| == |xs| + 1
  {
    if xs == [] then [x]
    else if leq(x, xs[0]) then assert [x] + xs == [x] + xs; [x] + xs
    else assert xs == [xs[0]] + xs[1..]; [xs[0]] + Insert(leq, x, xs[1..])
  }

  /** A stable sort: of equal elements, the one that stood first stays first. */
  function Sort<T>(leq: (T, T) -> bool, xs: seq<T>): (r: seq<T>)
    ensures multiset(r) == multiset(xs)
    ensures |r| == |xs|
  {
    if xs == [] then [] else assert xs == [xs[0]] + xs[1..]; Insert(leq, xs[0], Sort(leq, xs[1..]))
  }

  lemma SameMembers<T>(xs: seq<T>, ys: seq<T>, x: T)
    requires multiset(xs) == multiset(ys)
    ensures x in xs <==> x in ys
  {
    assert x in xs <==> x in multiset(xs);
    assert x in ys <==> x in multiset(ys);
  }

  lemma {:induction false} InsertAscends<T(!new)>(leq: (T, T) -> bool, x: T, xs: seq<T>, all: multiset<T>)
    requires OrdersMembers(leq, all) && x in all && (forall y :: y in xs ==> y in all)
    requires Ascending(leq, xs)
    ensures Ascending(leq, Insert(leq, x, xs))
  {
    if xs != [] && !leq(x, xs[0]) {
      var rest := Insert(leq, x, xs[1..]);
      InsertAscends(leq, x, xs[1..], all);
      forall k | 0 <= k < |rest| ensures leq(xs[0], rest[k]) {
        assert rest[k] in multiset(rest);
        assert rest[k] == x || rest[k] in xs[1..];
        assert xs[0] in xs;
        if rest[k] != x {
          var m :| 0 <= m < |xs| - 1 && xs[1..][m] == rest[k];
          assert leq(xs[0], xs[m + 1]);
        }
      }
    } else if xs != [] {
      forall k | 0 <= k < |xs| ensures leq(x, xs[k]) {
        assert xs[0] in xs && xs[k] in xs;
        assert k == 0 || leq(xs[0], xs[k]);
      }
    }
  }

  lemma {:induction false} SortAscends<T(!new)>(leq: (T, T) -> bool, xs: seq<T>, all: multiset<T>)
    requires OrdersMembers(leq, all) && (forall x :: x in xs ==> x in all)
    ensures Ascending(leq, Sort(leq, xs))
  {
    if xs != [] {
      SortAscends(leq, xs[1..], all);
      forall y | y in Sort(leq, xs[1..]) ensures y in all {
        SameMembers(Sort(leq, xs[1..]), xs[1..], y);
      }
      InsertAscends(leq, xs[0], Sort(leq, xs[1..]), all);
    }
  }

  lemma SameLeast<T(!new)>(leq: (T, T) -> bool, xs: seq<T>, ys: seq<T>, all: multiset<T>)
    requires OrdersMembers(leq, all) && (forall x :: x in xs ==> x in all)
    requires multiset(xs) == multiset(ys) && |xs| > 0 && |ys| > 0
    requires Ascending(leq, xs) && Ascending(leq, ys)
    ensures xs[0] == ys[0]
  {
    SameMembers(xs, ys, xs[0]);
    SameMembers(xs, ys, ys[0]);
    assert leq(ys[0], xs[0]) by {
      var j :| 0 <= j < |ys| && ys[j] == xs[0];
      assert xs[0] in all;
    }
    assert leq(xs[0], ys[0]) by {
      var i :| 0 <= i < |xs| && xs[i] == ys[0];
      assert ys[0] in all;
    }
  }

  lemma TailsAgree<T>(xs: seq<T>, ys: seq<T>)
    requires xs != [] && ys != [] && xs[0] == ys[0] && multiset(xs) == multiset(ys)
    ensures multiset(xs[1..]) == multiset(ys[1..])
  {
    assert xs == [xs[0]] + xs[1..] && ys == [ys[0]] + ys[1..];
    assert multiset(xs[1..]) == multiset(xs) - multiset{xs[0]};
    assert multiset(ys[1..]) == multiset(ys) - multiset{ys[0]};
  }

  /** An ascending list is determined by its elements. */
  lemma {:induction false} AscendingIsUnique<T(!new)>(leq: (T, T) -> bool, xs: seq<T>, ys: seq<T>, all: multiset<T>)
    requires OrdersMembers(leq, all) && (forall x :: x in xs ==> x in all)
    requires multiset(xs) == multiset(ys)
    requires Ascending(leq, xs) && Ascending(leq, ys)
    ensures xs == ys
  {
    assert |multiset(xs)| == |xs| && |multiset(ys)| == |ys|;
    if xs != [] {
      SameLeast(leq, xs, ys, all);
      TailsAgree(xs, ys);
      AscendingIsUnique(leq, xs[1..], ys[1..], all);
    }
  }

  /** Sorting forgets the order its input came in. */
  lemma SortIsCanonical<T(!new)>(leq: (T, T) -> bool, xs: seq<T>, ys: seq<T>)
    requires OrdersMembers(leq, multiset(xs))
    requires multiset(xs) == multiset(ys)
    ensures Sort(leq, xs) == Sort(leq, ys)
    ensures Ascending(leq, Sort(leq, xs))
  {
    forall y | y in ys ensures y in multiset(xs) { SameMembers(xs, ys, y); }
    SortAscends(leq, xs, multiset(xs));
    SortAscends(leq, ys, multiset(xs));
    forall x | x in Sort(leq, xs) ensures x in multiset(xs) { SameMembers(Sort(leq, xs), xs, x); }
    AscendingIsUnique(leq, Sort(leq, xs), Sort(leq, ys), multiset(xs));
  }

  /** No element stands twice. */
  predicate Distinct<T(==)>(xs: seq<T>) {
    forall i, j :: 0 <= i < j < |xs| ==> xs[i] != xs[j]
  }

  // ---------- Filtering ----------

  function Filter<T(!new)>(keep: T -> bool, xs: seq<T>): (r: seq<T>)
    ensures forall x :: x in r <==> x in xs && keep(x)
    ensures |r| <= |xs|
  {
    if xs == [] then []
    else
      assert xs == [xs[0]] + xs[1..];
      (if keep(xs[0]) then [xs[0]] else []) + Filter(keep, xs[1..])
  }

  lemma {:induction false} FilterCounts<T(!new)>(keep: T -> bool, xs: seq<T>, x: T)
    ensures multiset(Filter(keep, xs))[x] == if keep(x) then multiset(xs)[x] else 0
  {
    if xs != [] {
      FilterCounts(keep, xs[1..], x);
      assert xs == [xs[0]] + xs[1..];
    }
  }

  lemma {:induction false} FilterNone<T(!new)>(keep: T -> bool, xs: seq<T>)
    requires forall i :: 0 <= i < |xs| ==> !keep(xs[i])
    ensures Filter(keep, xs) == []
  {
    if xs != [] {
      FilterNone(keep, xs[1..]);
    }
  }
}
