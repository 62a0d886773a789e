/**
 * Stable sorting of a sequence by a "may precede" relation. `Array.prototype.sort`
 * with a consistent comparator `cmp` is a stable sort in which `a` may precede
 * `b` exactly when `cmp(a, b) <= 0`; its result is the one computed here by
 * insertion from the back.
 */
module Sorting {

  ghost predicate TotalPreorder<T(!new)>(le: (T, T) -> bool) {
    && (forall x :: le(x, x))
    && (forall x, y, z :: le(x, y) && le(y, z) ==> le(x, z))
    && (forall x, y :: le(x, y) || le(y, x))
  }

  ghost predicate SortedBy<T>(le: (T, T) -> bool, s: seq<T>) {
    forall i, j :: 0 <= i < j < |s| ==> le(s[i], s[j])
  }

  /** Neither of `a`, `b` must precede the other: the comparator returns 0. */
  predicate Tied<T>(le: (T, T) -> bool, a: T, b: T) {
    le(a, b) && le(b, a)
  }

  /** The elements of `s` tied with `k`, in their order in `s`. */
  function TiedWith<T>(le: (T, T) -> bool, s: seq<T>, k: T): seq<T> {
    if s == [] then []
    else TiedWith(le, s[..|s| - 1], k) + (if Tied(le, s[|s| - 1], k) then [s[|s| - 1]] else [])
  }

  /** A sort is stable when every class of tied elements keeps its order. */
  ghost predicate StableFrom<T(!new)>(le: (T, T) -> bool, s: seq<T>, r: seq<T>) {
    forall k :: TiedWith(le, r, k) == TiedWith(le, s, k)
  }

  /** Insert `x` after the last element of the sorted `r` that may precede it. */
  function Insert<T>(le: (T, T) -> bool, r: seq<T>, x: T): (q: seq<T>)
    ensures |q| == |r| + 1
  {
    if r == [] then [x]
    else if le(r[|r| - 1], x) then r + [x]
    else Insert(le, r[..|r| - 1], x) + [r[|r| - 1]]
  }

  lemma {:induction false} InsertPermutes<T>(le: (T, T) -> bool, r: seq<T>, x: T)
    ensures multiset(Insert(le, r, x)) == multiset(r) + multiset{x}
  {
    if r != [] && !le(r[|r| - 1], x) {
      InsertPermutes(le, r[..|r| - 1], x);
      assert r == r[..|r| - 1] + [r[|r| - 1]];
    }
  }

  /** Insertion sort; each element is inserted behind the already sorted elements before it. */
  function Sort<T>(le: (T, T) -> bool, s: seq<T>): (r: seq<T>)
    ensures |r| == |s|
  {
    if s == [] then []
    else Insert(le, Sort(le, s[..|s| - 1]), s[|s| - 1])
  }

  /** `Sort` returns a permutation of its input. */
  lemma {:induction false} SortPermutes<T>(le: (T, T) -> bool, s: seq<T>)
    ensures multiset(Sort(le, s)) == multiset(s)
  {
    if s != [] {
      SortPermutes(le, s[..|s| - 1]);
      InsertPermutes(le, Sort(le, s[..|s| - 1]), s[|s| - 1]);
      assert s == s[..|s| - 1] + [s[|s| - 1]];
    }
  }

  lemma {:induction false} InsertSorted<T(!new)>(le: (T, T) -> bool, r: seq<T>, x: T)
    requires TotalPreorder(le) && SortedBy(le, r)
    ensures SortedBy(le, Insert(le, r, x))
  {
    if r != [] {
      var last := r[|r| - 1];
      if le(last, x) {
        SnocSorted(le, r, x);
      } else {
        var init := r[..|r| - 1];
        assert SortedBy(le, init);
        InsertSorted(le, init, x);
        var q := Insert(le, init, x);
        assert forall i :: 0 <= i < |q| ==> le(q[i], last) by {
          forall i | 0 <= i < |q| ensures le(q[i], last) {
            InsertFrom(le, init, x, q[i]);
            if q[i] != x {
              var j :| 0 <= j < |init| && init[j] == q[i];
              assert r[j] == init[j];
            }
          }
        }
        SnocSorted(le, q, last);
      }
    }
  }

  /** Every element of `Insert(le, r, x)` comes from `r` or is `x`. */
  lemma InsertFrom<T>(le: (T, T) -> bool, r: seq<T>, x: T, e: T)
    requires e in Insert(le, r, x)
    ensures e == x || e in r
  {
    InsertPermutes(le, r, x);
    assert e in multiset(Insert(le, r, x));
  }

  /** A sorted sequence stays sorted when an element every one of its elements may precede is appended. */
  lemma SnocSorted<T>(le: (T, T) -> bool, q: seq<T>, y: T)
    requires SortedBy(le, q) && forall i :: 0 <= i < |q| ==> le(q[i], y)
    ensures SortedBy(le, q + [y])
  {
    var r := q + [y];
    forall i, j | 0 <= i < j < |r| ensures le(r[i], r[j]) {
      assert r[i] == q[i];
      if j < |q| {
        assert r[j] == q[j];
      }
    }
  }

  /** The result of `Sort` is ordered by `le`. */
  lemma {:induction false} SortSorted<T(!new)>(le: (T, T) -> bool, s: seq<T>)
    requires TotalPreorder(le)
    ensures SortedBy(le, Sort(le, s))
  {
    if s != [] {
      SortSorted(le, s[..|s| - 1]);
      InsertSorted(le, Sort(le, s[..|s| - 1]), s[|s| - 1]);
    }
  }

  lemma {:induction false} TiedWithAppend<T>(le: (T, T) -> bool, a: seq<T>, b: seq<T>, k: T)
    ensures TiedWith(le, a + b, k) == TiedWith(le, a, k) + TiedWith(le, b, k)
  {
    if b == [] {
      assert a + b == a;
    } else {
      assert (a + b)[..|a + b| - 1] == a + b[..|b| - 1];
      TiedWithAppend(le, a, b[..|b| - 1], k);
    }
  }

  lemma {:induction false} InsertTied<T(!new)>(le: (T, T) -> bool, r: seq<T>, x: T, k: T)
    requires TotalPreorder(le)
    ensures TiedWith(le, Insert(le, r, x), k)
            == TiedWith(le, r, k) + (if Tied(le, x, k) then [x] else [])
  {
    if r == [] {
      assert TiedWith(le, [x], k) == TiedWith(le, [x][..0], k) + (if Tied(le, x, k) then [x] else []);
    } else {
      var init, last := r[..|r| - 1], r[|r| - 1];
      if le(last, x) {
        TiedWithAppend(le, r, [x], k);
        assert TiedWith(le, [x], k) == TiedWith(le, [x][..0], k) + (if Tied(le, x, k) then [x] else []);
      } else {
        InsertTied(le, init, x, k);
        TiedWithAppend(le, Insert(le, init, x), [last], k);
        assert TiedWith(le, [last], k) == TiedWith(le, [last][..0], k) + (if Tied(le, last, k) then [last] else []);
        assert Tied(le, x, k) ==> !Tied(le, last, k);
      }
    }
  }

  /** `Sort` is stable: tied elements come out in the order they went in. */
  lemma {:induction false} SortStable<T(!new)>(le: (T, T) -> bool, s: seq<T>)
    requires TotalPreorder(le)
    ensures StableFrom(le, s, Sort(le, s))
  {
    forall k ensures TiedWith(le, Sort(le, s), k) == TiedWith(le, s, k) {
      SortStableFor(le, s, k);
    }
  }

  lemma {:induction false} SortStableFor<T(!new)>(le: (T, T) -> bool, s: seq<T>, k: T)
    requires TotalPreorder(le)
    ensures TiedWith(le, Sort(le, s), k) == TiedWith(le, s, k)
  {
    if s != [] {
      SortStableFor(le, s[..|s| - 1], k);
      InsertTied(le, Sort(le, s[..|s| - 1]), s[|s| - 1], k);
    }
  }

  /** A comparator that ties everything (an unknown sort key returns 0) leaves the order as it is. */
  lemma {:induction false} SortAllTied<T>(le: (T, T) -> bool, s: seq<T>)
    requires forall a, b :: le(a, b)
    ensures Sort(le, s) == s
  {
    if s != [] {
      SortAllTied(le, s[..|s| - 1]);
      assert s == s[..|s| - 1] + [s[|s| - 1]];
    }
  }

  lemma {:induction false} TiedWithMembers<T>(le: (T, T) -> bool, s: seq<T>, k: T, x: T)
    ensures x in TiedWith(le, s, k) <==> x in s && Tied(le, x, k)
  {
    if s != [] {
      TiedWithMembers(le, s[..|s| - 1], k, x);
      assert s == s[..|s| - 1] + [s[|s| - 1]];
    }
  }

  /**
   * Sortedness, being a permutation and stability pin the result down: any
   * stable sort by `le` returns exactly `Sort(le, s)`.
   */
  lemma {:induction false} SortIsTheStableSort<T(!new)>(le: (T, T) -> bool, s: seq<T>, r: seq<T>)
    requires TotalPreorder(le)
    requires SortedBy(le, r) && multiset(r) == multiset(s) && StableFrom(le, s, r)
    ensures r == Sort(le, s)
  {
    SortSorted(le, s);
    SortStable(le, s);
    SortPermutes(le, s);
    StableSortUnique(le, r, Sort(le, s));
  }

  lemma {:induction false} StableSortUnique<T(!new)>(le: (T, T) -> bool, r1: seq<T>, r2: seq<T>)
    requires TotalPreorder(le)
    requires SortedBy(le, r1) && SortedBy(le, r2) && multiset(r1) == multiset(r2)
    requires forall k :: TiedWith(le, r1, k) == TiedWith(le, r2, k)
    ensures r1 == r2
    decreases |r1|
  {
    SameLength(r1, r2);
    if r1 != [] {
      SameLast(le, r1, r2);
      var a := r1[|r1| - 1];
      var i1, i2 := r1[..|r1| - 1], r2[..|r2| - 1];
      DropLast(r1, i1, a);
      DropLast(r2, i2, a);
      forall k ensures TiedWith(le, i1, k) == TiedWith(le, i2, k) {
        DropLastTied(le, i1, i2, a, k);
      }
      StableSortUnique(le, i1, i2);
    }
  }

  lemma SameLength<T>(r1: seq<T>, r2: seq<T>)
    requires multiset(r1) == multiset(r2)
    ensures |r1| == |r2|
  {
    assert |r1| == |multiset(r1)|;
    assert |r2| == |multiset(r2)|;
  }

  lemma DropLast<T>(r: seq<T>, init: seq<T>, a: T)
    requires r != [] && init == r[..|r| - 1] && a == r[|r| - 1]
    ensures r == init + [a]
    ensures multiset(init) == multiset(r) - multiset{a}
  {
    assert r == init + [a];
  }

  lemma {:induction false} SameLast<T>(le: (T, T) -> bool, r1: seq<T>, r2: seq<T>)
    requires forall x :: le(x, x)
    requires SortedBy(le, r1) && SortedBy(le, r2) && r1 != [] && r2 != []
    requires forall k :: TiedWith(le, r1, k) == TiedWith(le, r2, k)
    ensures r1[|r1| - 1] == r2[|r2| - 1]
  {
    var a, b := r1[|r1| - 1], r2[|r2| - 1];
    var i1, i2 := r1[..|r1| - 1], r2[..|r2| - 1];
    assert r1 == i1 + [a] && r2 == i2 + [b];
    TiedWithMembers(le, r2, b, b);
    TiedWithMembers(le, r1, b, b);
    var j :| 0 <= j < |r1| && r1[j] == b;
    assert le(b, a);
    TiedWithMembers(le, r1, a, a);
    TiedWithMembers(le, r2, a, a);
    var j' :| 0 <= j' < |r2| && r2[j'] == a;
    assert le(a, b);
    var t1, t2 := TiedWith(le, r1, a), TiedWith(le, r2, a);
    assert t1 == TiedWith(le, i1, a) + [a];
    assert t2 == TiedWith(le, i2, a) + [b];
    assert t1[|t1| - 1] == a && t2[|t2| - 1] == b;
  }

  lemma {:induction false} DropLastTied<T>(le: (T, T) -> bool, i1: seq<T>, i2: seq<T>, a: T, k: T)
    requires TiedWith(le, i1 + [a], k) == TiedWith(le, i2 + [a], k)
    ensures TiedWith(le, i1, k) == TiedWith(le, i2, k)
  {
    var c := if Tied(le, a, k) then [a] else [];
    var x1, x2 := TiedWith(le, i1, k), TiedWith(le, i2, k);
    assert (i1 + [a])[..|i1|] == i1;
    assert (i2 + [a])[..|i2|] == i2;
    assert TiedWith(le, i1 + [a], k) == x1 + c;
    assert TiedWith(le, i2 + [a], k) == x2 + c;
    assert x1 == (x1 + c)[..|x1|] && x2 == (x2 + c)[..|x2|];
  }

  /**
   * `Array.prototype.sort` on an array: insertion sort in place, each element
   * moved left past the sorted elements it must follow.
   */
  method SortInPlace<T>(a: array<T>, le: (T, T) -> bool)
    modifies a
    ensures a[..] == Sort(le, old(a[..]))
  {
    ghost var input := a[..];
    for i := 0 to a.Length
      invariant a[..i] == Sort(le, input[..i])
      invariant a[i..] == input[i..]
    {
      ghost var prefix := input[..i + 1];
      assert prefix[..i] == input[..i] && prefix[i] == input[i] == a[i];
      InsertInPlace(a, i, le);
      assert Sort(le, prefix) == Insert(le, Sort(le, input[..i]), input[i]);
    }
    assert input[..a.Length] == input;
    assert a[..a.Length] == a[..];
  }

  /** One step of the insertion sort: `a[i]` moves into the sorted prefix `a[..i]`. */
  method InsertInPlace<T>(a: array<T>, i: nat, le: (T, T) -> bool)
    requires i < a.Length
    modifies a
    ensures a[..i + 1] == Insert(le, old(a[..i]), old(a[i]))
    ensures a[i + 1..] == old(a[i + 1..])
  {
    ghost var done := a[..i];
    var x := a[i];
    var j := i;
    while j > 0 && !le(a[j - 1], x)
      invariant 0 <= j <= i
      invariant forall k :: 0 <= k < j ==> a[k] == done[k]
      invariant forall k :: j < k <= i ==> a[k] == done[k - 1]
      invariant forall k :: i < k < a.Length ==> a[k] == old(a[k])
      invariant forall k :: j <= k < i ==> !le(done[k], x)
    {
      a[j] := a[j - 1];
      j := j - 1;
    }
    a[j] := x;
    InsertAt(le, done, x, j);
    Placed(a[..], done, x, j);
  }

  lemma Placed<T>(s: seq<T>, done: seq<T>, x: T, j: nat)
    requires j <= |done| < |s|
    requires forall k :: 0 <= k < j ==> s[k] == done[k]
    requires s[j] == x
    requires forall k :: j < k <= |done| ==> s[k] == done[k - 1]
    ensures s[..|done| + 1] == done[..j] + [x] + done[j..]
  {
    var w := done[..j] + [x] + done[j..];
    forall k | 0 <= k <= |done| ensures s[k] == w[k] {
      if k < j {
        assert w[k] == done[k];
      } else if j < k {
        assert w[k] == done[k - 1];
      }
    }
  }

  /** `x` goes right after the last element of `done` that may precede it. */
  lemma {:induction false} InsertAt<T>(le: (T, T) -> bool, done: seq<T>, x: T, j: nat)
    requires j <= |done| && (j == 0 || le(done[j - 1], x))
    requires forall k :: j <= k < |done| ==> !le(done[k], x)
    ensures Insert(le, done, x) == done[..j] + [x] + done[j..]
    decreases |done| - j
  {
    if j < |done| {
      var init := done[..|done| - 1];
      InsertAt(le, init, x, j);
      assert init[..j] == done[..j];
      assert init[j..] + [done[|done| - 1]] == done[j..];
    } else {
      assert done[..j] == done;
    }
  }


}
