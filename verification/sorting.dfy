/** A stable insertion sort over an arbitrary total preorder.  The C++ code
    sorts with std::sort; where two elements compare equal std::sort leaves
    their order unspecified, and this model resolves such ties by keeping the
    original order. */
module Sorting {

  /** `le` is a total preorder: every pair is comparable and it is transitive. */
  ghost predicate TotalPreorder<T(!new)>(le: (T, T) -> bool) {
    && (forall a, b :: le(a, b) || le(b, a))
    && (forall a, b, c :: le(a, b) && le(b, c) ==> le(a, c))
  }

  ghost predicate SortedBy<T>(le: (T, T) -> bool, s: seq<T>) {
    forall i, j :: 0 <= i < j < |s| ==> le(s[i], s[j])
  }

  /** Inserts `x` before the first element that is strictly greater. */
  function Insert<T>(le: (T, T) -> bool, t: seq<T>, x: T): (r: seq<T>)
    ensures multiset(r) == multiset(t) + multiset{x}
    ensures |r| == |t| + 1
  {
    if t == [] || !le(t[0], x) then [x] + t
    else
      assert t == [t[0]] + t[1..];
      [t[0]] + Insert(le, t[1..], x)
  }

  function Sort<T>(le: (T, T) -> bool, s: seq<T>): (r: seq<T>)
    ensures multiset(r) == multiset(s)
    ensures |r| == |s|
  {
    if s == [] then []
    else
      assert s == s[..|s| - 1] + [s[|s| - 1]];
      Insert(le, Sort(le, s[..|s| - 1]), s[|s| - 1])
  }

  lemma {:induction false} InsertSorted<T(!new)>(le: (T, T) -> bool, t: seq<T>, x: T)
    requires TotalPreorder(le)
    requires SortedBy(le, t)
    ensures SortedBy(le, Insert(le, t, x))
  {
    if t == [] || !le(t[0], x) {
    } else {
      InsertSorted(le, t[1..], x);
      var r := Insert(le, t, x);
      var rest := Insert(le, t[1..], x);
      assert r == [t[0]] + rest;
      forall k | 0 <= k < |rest| ensures le(t[0], rest[k]) {
        assert rest[k] in multiset(rest);
        assert rest[k] in multiset(t[1..]) + multiset{x};
        if rest[k] in multiset(t[1..]) {
          var m :| 0 <= m < |t[1..]| && t[1..][m] == rest[k];
          assert t[1 + m] == rest[k];
        }
      }
    }
  }

  /** The sort yields a sorted permutation of its input. */
  lemma {:induction false} SortSorted<T(!new)>(le: (T, T) -> bool, s: seq<T>)
    requires TotalPreorder(le)
    ensures SortedBy(le, Sort(le, s))
  {
    if s != [] {
      SortSorted(le, s[..|s| - 1]);
      InsertSorted(le, Sort(le, s[..|s| - 1]), s[|s| - 1]);
    }
  }

  /** An element not below any element of `t` goes to the end. */
  lemma {:induction false} InsertAtEnd<T>(le: (T, T) -> bool, t: seq<T>, x: T)
    requires forall k :: 0 <= k < |t| ==> le(t[k], x)
    ensures Insert(le, t, x) == t + [x]
  {
    if t != [] {
      InsertAtEnd(le, t[1..], x);
      assert t == [t[0]] + t[1..];
    }
  }

  /** Sorting an already sorted sequence leaves it as it is; in particular
      the sort is idempotent. */
  lemma {:induction false} SortOfSorted<T>(le: (T, T) -> bool, s: seq<T>)
    requires SortedBy(le, s)
    ensures Sort(le, s) == s
  {
    if s != [] {
      var init := s[..|s| - 1];
      assert SortedBy(le, init);
      SortOfSorted(le, init);
      InsertAtEnd(le, init, s[|s| - 1]);
      assert init + [s[|s| - 1]] == s;
    }
  }

  /** The sequence of images of the elements of `s`. */
  function Map<T, U>(f: T -> U, s: seq<T>): (r: seq<U>)
    ensures |r| == |s|
  {
    if s == [] then [] else [f(s[0])] + Map(f, s[1..])
  }

  lemma {:induction false} MapAppend<T, U>(f: T -> U, a: seq<T>, b: seq<T>)
    ensures Map(f, a + b) == Map(f, a) + Map(f, b)
  {
    if a == [] {
      assert a + b == b;
    } else {
      assert (a + b)[1..] == a[1..] + b;
      MapAppend(f, a[1..], b);
      assert Map(f, a + b) == [f(a[0])] + Map(f, a[1..] + b);
    }
  }

  lemma {:induction false} MapAt<T, U>(f: T -> U, s: seq<T>, k: nat)
    requires k < |s|
    ensures Map(f, s)[k] == f(s[k])
  {
    if k > 0 {
      MapAt(f, s[1..], k - 1);
    }
  }

  lemma {:induction false} MapInsert<T, U>(le: (T, T) -> bool, leU: (U, U) -> bool, f: T -> U, t: seq<T>, x: T)
    requires forall a, b :: leU(f(a), f(b)) == le(a, b)
    ensures Map(f, Insert(le, t, x)) == Insert(leU, Map(f, t), f(x))
  {
    if t == [] || !le(t[0], x) {
    } else {
      MapInsert(le, leU, f, t[1..], x);
      assert Map(f, t)[1..] == Map(f, t[1..]);
    }
  }

  /** Sorting commutes with a projection the order only looks through:
      the sort of the projected elements is the projection of the sort. */
  lemma {:induction false} MapSort<T, U>(le: (T, T) -> bool, leU: (U, U) -> bool, f: T -> U, s: seq<T>)
    requires forall a, b :: leU(f(a), f(b)) == le(a, b)
    ensures Map(f, Sort(le, s)) == Sort(leU, Map(f, s))
  {
    if s != [] {
      var n := |s| - 1;
      MapSort(le, leU, f, s[..n]);
      MapInsert(le, leU, f, Sort(le, s[..n]), s[n]);
      assert s == s[..n] + [s[n]];
      MapAppend(f, s[..n], [s[n]]);
      assert Map(f, s)[..n] == Map(f, s[..n]);
    }
  }
}
