/** Sequence helpers shared by the aggregation code: sums as `reduce`
    computes them, first-occurrence order of keys, and the stable insertion
    sort that stands in for `Array.prototype.sort` with a comparator. */
module Seqs {

  /** A sequence is its part before `k`, its element at `k` and the rest. */
  lemma SplitAt<T>(s: seq<T>, k: int)
    requires 0 <= k < |s|
    ensures s == s[..k] + ([s[k]] + s[k + 1..]) && s == s[..k] + [s[k]] + s[k + 1..]
  {
    assert s == s[..k] + s[k..];
    assert s[k..] == [s[k]] + s[k + 1..];
  }

  // ----- sums --------------------------------------------------------------

  /** A prefix one longer is the shorter prefix and the next element. */
  lemma TakeSnoc<T>(s: seq<T>, i: int)
    requires 0 <= i < |s|
    ensures s[..i + 1] == s[..i] + [s[i]]
  {
  }


  /** `s.reduce((acc, x) => acc + w(x), 0)`, adding from the left. */
  function SumBy<T>(s: seq<T>, w: T -> real): real {
    if s == [] then 0.0 else SumBy(s[..|s| - 1], w) + w(s[|s| - 1])
  }

  lemma {:induction false} SumByAppend<T>(a: seq<T>, b: seq<T>, w: T -> real)
    ensures SumBy(a + b, w) == SumBy(a, w) + SumBy(b, w)
    decreases |b|
  {
    if b != [] {
      assert (a + b)[..|a + b| - 1] == a + b[..|b| - 1];
      SumByAppend(a, b[..|b| - 1], w);
    } else {
      assert a + b == a;
    }
  }

  lemma SumBySplit<T>(s: seq<T>, j: int, w: T -> real)
    requires 0 <= j < |s|
    ensures SumBy(s, w) == SumBy(s[..j], w) + w(s[j]) + SumBy(s[j + 1..], w)
  {
    assert s == s[..j] + [s[j]] + s[j + 1..];
    SumByAppend(s[..j] + [s[j]], s[j + 1..], w);
    SumByAppend(s[..j], [s[j]], w);
  }

  /** Replacing one element changes the sum by the difference of the weights. */
  lemma SumByUpdate<T>(s: seq<T>, j: int, x: T, w: T -> real)
    requires 0 <= j < |s|
    ensures SumBy(s[j := x], w) == SumBy(s, w) - w(s[j]) + w(x)
  {
    SumBySplit(s, j, w);
    SumBySplit(s[j := x], j, w);
    assert s[j := x][..j] == s[..j] && s[j := x][j + 1..] == s[j + 1..];
  }

  /** The sum does not depend on the order of the elements. */
  lemma {:induction false} SumByPermutation<T>(a: seq<T>, b: seq<T>, w: T -> real)
    requires multiset(a) == multiset(b)
    ensures SumBy(a, w) == SumBy(b, w)
    decreases |a|
  {
    if a == [] {
      assert |b| == |multiset(b)| == 0;
    } else {
      var x := a[|a| - 1];
      assert x in multiset(b);
      var i :| 0 <= i < |b| && b[i] == x;
      var rest := b[..i] + b[i + 1..];
      assert b == b[..i] + [x] + b[i + 1..];
      assert a == a[..|a| - 1] + [x];
      assert multiset(rest) == multiset(b) - multiset{x};
      SumByPermutation(a[..|a| - 1], rest, w);
      SumBySplit(b, i, w);
      SumByAppend(b[..i], b[i + 1..], w);
    }
  }

  /** Sums of two sequences that agree position by position are equal. */
  lemma {:induction false} SumByPointwise<A, B>(a: seq<A>, f: A -> real, b: seq<B>, g: B -> real)
    requires |a| == |b| && forall i :: 0 <= i < |a| ==> f(a[i]) == g(b[i])
    ensures SumBy(a, f) == SumBy(b, g)
    decreases |a|
  {
    if a != [] {
      SumByPointwise(a[..|a| - 1], f, b[..|b| - 1], g);
    }
  }

  lemma {:induction false} SumByZero<T>(s: seq<T>, w: T -> real)
    requires forall i :: 0 <= i < |s| ==> w(s[i]) == 0.0
    ensures SumBy(s, w) == 0.0
    decreases |s|
  {
    if s != [] {
      SumByZero(s[..|s| - 1], w);
    }
  }

  // ----- distinct elements -------------------------------------------------

  predicate Distinct<T(==)>(s: seq<T>) {
    forall i, j :: 0 <= i < j < |s| ==> s[i] != s[j]
  }

  /** The distinct elements of `s` in the order they first occur, which is
      the order in which a JavaScript object enumerates keys it was given. */
  function Dedup<T(==,!new)>(s: seq<T>): (r: seq<T>)
    ensures forall x :: x in r <==> x in s
    ensures Distinct(r)
  {
    if s == [] then []
    else
      var p := Dedup(s[..|s| - 1]);
      if s[|s| - 1] in p then p else p + [s[|s| - 1]]
  }

  lemma DedupSnoc<T(!new)>(s: seq<T>, x: T)
    ensures Dedup(s + [x]) == if x in s then Dedup(s) else Dedup(s) + [x]
  {
    assert (s + [x])[..|s|] == s;
  }

  /** A sequence is distinct exactly when no element occurs twice in its multiset. */
  lemma {:induction false} DistinctMultiplicity<T>(s: seq<T>)
    ensures Distinct(s) <==> forall x :: multiset(s)[x] <= 1
    decreases |s|
  {
    if s != [] {
      var p, y := s[..|s| - 1], s[|s| - 1];
      assert s == p + [y];
      DistinctMultiplicity(p);
      if Distinct(s) {
        assert y !in p;
        forall x ensures multiset(s)[x] <= 1 {
          assert Distinct(p) by {
            forall i, j | 0 <= i < j < |p| ensures p[i] != p[j] {
              assert p[i] == s[i] && p[j] == s[j];
            }
          }
        }
      } else {
        var i, j :| 0 <= i < j < |s| && s[i] == s[j];
        if j == |s| - 1 {
          assert p[i] == y;
          assert y in multiset(p);
          assert multiset(s)[y] >= 2;
        } else {
          assert p[i] == p[j];
          assert !Distinct(p);
          var x :| multiset(p)[x] > 1;
          assert multiset(s)[x] > 1;
        }
      }
    }
  }

  /** A permutation of a distinct sequence is distinct. */
  lemma DistinctPermutation<T>(a: seq<T>, b: seq<T>)
    requires multiset(a) == multiset(b) && Distinct(a)
    ensures Distinct(b)
  {
    DistinctMultiplicity(a);
    DistinctMultiplicity(b);
  }

  /** `list.indexOf(x)`: the first position of `x`, or -1. */
  function IndexOf<T(==)>(list: seq<T>, x: T): (i: int)
    ensures -1 <= i < |list|
    ensures i >= 0 ==> list[i] == x && forall j :: 0 <= j < i ==> list[j] != x
    ensures i < 0 <==> x !in list
    decreases |list|
  {
    if list == [] then -1
    else if list[0] == x then 0
    else
      var j := IndexOf(list[1..], x);
      if j < 0 then -1 else j + 1
  }

  /** A sequence of one repeated element has at most that element once. */
  lemma {:induction false} DedupConstant<T(!new)>(s: seq<T>, x: T)
    requires forall i :: 0 <= i < |s| ==> s[i] == x
    ensures Dedup(s) == if s == [] then [] else [x]
    decreases |s|
  {
    if s != [] {
      DedupConstant(s[..|s| - 1], x);
    }
  }

  // ----- sorting -----------------------------------------------------------

  /** `le` is what a consistent comparator's `<= 0` means: total and transitive. */
  ghost predicate TotalPreorder<T(!new)>(le: (T, T) -> bool) {
    && (forall a, b :: le(a, b) || le(b, a))
    && (forall a, b, c :: le(a, b) && le(b, c) ==> le(a, c))
  }

  predicate SortedBy<T>(s: seq<T>, le: (T, T) -> bool) {
    forall i, j :: 0 <= i < j < |s| ==> le(s[i], s[j])
  }

  /** Inserts `x` after every element it does not precede (so equal
      elements keep their order). */
  function Insert<T>(s: seq<T>, x: T, le: (T, T) -> bool): (r: seq<T>)
    ensures multiset(r) == multiset(s) + multiset{x}
  {
    if s == [] || le(s[|s| - 1], x) then s + [x]
    else
      var last := s[|s| - 1];
      assert s == s[..|s| - 1] + [last];
      Insert(s[..|s| - 1], x, le) + [last]
  }

  lemma {:induction false} InsertSorted<T(!new)>(s: seq<T>, x: T, le: (T, T) -> bool)
    requires TotalPreorder(le) && SortedBy(s, le)
    ensures SortedBy(Insert(s, x, le), le)
    decreases |s|
  {
    if s == [] || le(s[|s| - 1], x) {
    } else {
      var last := s[|s| - 1];
      var p := s[..|s| - 1];
      InsertSorted(p, x, le);
      var q := Insert(p, x, le);
      forall y | y in q ensures le(y, last) {
        assert y in multiset(q);
        if y != x {
          assert y in multiset(p);
          var k :| 0 <= k < |p| && p[k] == y;
          assert s[k] == y;
        }
      }
      var r := q + [last];
      forall i, j | 0 <= i < j < |r| ensures le(r[i], r[j]) {
        if j == |r| - 1 {
          assert r[i] in q;
        } else {
          assert r[i] == q[i] && r[j] == q[j];
        }
      }
    }
  }

  /** The inserted element comes out in front exactly when no element of
      `s` may precede it; otherwise the front element stays where it was. */
  lemma InsertHead<T>(s: seq<T>, x: T, le: (T, T) -> bool)
    ensures Insert(s, x, le)[0] == if exists i :: 0 <= i < |s| && le(s[i], x) then s[0] else x
  {
    if exists i :: 0 <= i < |s| && le(s[i], x) {
      var i :| 0 <= i < |s| && le(s[i], x);
      InsertKeepsHead(s, x, le, i);
    } else {
      InsertAtHead(s, x, le);
    }
  }

  /** With an element that may precede `x`, the front element stays. */
  lemma {:induction false} InsertKeepsHead<T>(s: seq<T>, x: T, le: (T, T) -> bool, i: int)
    requires 0 <= i < |s| && le(s[i], x)
    ensures Insert(s, x, le)[0] == s[0]
    decreases |s|
  {
    if !le(s[|s| - 1], x) {
      var p := s[..|s| - 1];
      assert Insert(s, x, le) == Insert(p, x, le) + [s[|s| - 1]];
      assert p[i] == s[i];
      InsertKeepsHead(p, x, le, i);
    }
  }

  /** With no element that may precede `x`, `x` comes out in front. */
  lemma {:induction false} InsertAtHead<T>(s: seq<T>, x: T, le: (T, T) -> bool)
    requires forall i :: 0 <= i < |s| ==> !le(s[i], x)
    ensures Insert(s, x, le)[0] == x
    decreases |s|
  {
    if s != [] {
      var p := s[..|s| - 1];
      assert Insert(s, x, le) == Insert(p, x, le) + [s[|s| - 1]];
      assert forall i :: 0 <= i < |p| ==> p[i] == s[i];
      InsertAtHead(p, x, le);
    }
  }

  /** Insertion sort: `[...s].sort(cmp)` for a comparator whose `<= 0` is `le`. */
  function Sort<T>(s: seq<T>, le: (T, T) -> bool): (r: seq<T>)
    ensures multiset(r) == multiset(s) && |r| == |s|
  {
    if s == [] then []
    else
      assert s == s[..|s| - 1] + [s[|s| - 1]];
      Insert(Sort(s[..|s| - 1], le), s[|s| - 1], le)
  }

  /** The sorted copy is ordered by `le`. */
  lemma {:induction false} SortSorted<T(!new)>(s: seq<T>, le: (T, T) -> bool)
    requires TotalPreorder(le)
    ensures SortedBy(Sort(s, le), le)
    decreases |s|
  {
    if s != [] {
      SortSorted(s[..|s| - 1], le);
      InsertSorted(Sort(s[..|s| - 1], le), s[|s| - 1], le);
    }
  }
}
