/** `std::set` as a sequence sorted by its comparison: insertion keeps the first of two equivalent elements. */
module Ordered {
  import opened Ordering

  ghost predicate Within<T>(dom: T -> bool, s: seq<T>) {
    forall i :: 0 <= i < |s| ==> dom(s[i])
  }

  ghost predicate Sorted<T>(less: (T, T) -> bool, s: seq<T>) {
    forall i, j :: 0 <= i < j < |s| ==> less(s[i], s[j])
  }

  /** `count(x) != 0`: some element is incomparable with `x`. */
  predicate Has<T>(less: (T, T) -> bool, s: seq<T>, x: T) {
    exists i :: 0 <= i < |s| && !less(s[i], x) && !less(x, s[i])
  }

  function Insert<T>(less: (T, T) -> bool, s: seq<T>, x: T): seq<T> {
    if s == [] || less(x, s[0]) then [x] + s
    else if less(s[0], x) then [s[0]] + Insert(less, s[1..], x)
    else s
  }

  function InsertAll<T>(less: (T, T) -> bool, s: seq<T>, xs: seq<T>): seq<T>
    decreases |xs|
  {
    if xs == [] then s else InsertAll(less, Insert(less, s, xs[0]), xs[1..])
  }

  lemma {:induction false} InsertElements<T(!new)>(less: (T, T) -> bool, s: seq<T>, x: T)
    ensures Insert(less, s, x) == s || multiset(Insert(less, s, x)) == multiset(s) + multiset{x}
    ensures forall y :: y in Insert(less, s, x) ==> y in s || y == x
  {
    if s != [] && !less(x, s[0]) && less(s[0], x) {
      InsertElements(less, s[1..], x);
      assert s == [s[0]] + s[1..];
    }
  }

  lemma {:induction false} InsertSorted<T(!new)>(less: (T, T) -> bool, dom: T -> bool, s: seq<T>, x: T)
    requires Transitive(less, dom)
    requires Within(dom, s) && dom(x) && Sorted(less, s)
    ensures Sorted(less, Insert(less, s, x)) && Within(dom, Insert(less, s, x))
  {
    if s != [] && less(x, s[0]) {
      forall i | 0 <= i < |s| ensures less(x, s[i]) {
        if i > 0 { assert less(s[0], s[i]); }
      }
    } else if s != [] && less(s[0], x) {
      var t := s[1..];
      InsertSorted(less, dom, t, x);
      var r := Insert(less, t, x);
      InsertElements(less, t, x);
      forall j | 0 <= j < |r| ensures less(s[0], r[j]) {
        assert r[j] in r;
        if r[j] in t {
          var i :| 0 <= i < |t| && t[i] == r[j];
          assert s[i + 1] == r[j];
        }
      }
    }
  }

  lemma {:induction false} InsertAddsNew<T(!new)>(
      less: (T, T) -> bool, eq: (T, T) -> bool, dom: T -> bool, s: seq<T>, x: T)
    requires StrictTotalOrder(less, eq, dom)
    requires Within(dom, s) && dom(x) && Sorted(less, s)
    ensures Insert(less, s, x) == s <==> Has(less, s, x)
  {
    if s == [] {
    } else if less(x, s[0]) {
      forall i | 0 <= i < |s| ensures less(x, s[i]) {
        if i > 0 { assert less(s[0], s[i]); }
      }
      assert |Insert(less, s, x)| == |s| + 1;
    } else if less(s[0], x) {
      var t := s[1..];
      InsertAddsNew(less, eq, dom, t, x);
      assert s == [s[0]] + t;
      assert Insert(less, s, x)[1..] == Insert(less, t, x);
      if i :| 0 <= i < |t| && !less(t[i], x) && !less(x, t[i]) { assert s[i + 1] == t[i]; }
      if i :| 0 <= i < |s| && !less(s[i], x) && !less(x, s[i]) { assert i > 0 && t[i - 1] == s[i]; }
    }
  }

  /** Insertion keeps the order and adds exactly `x`, unless an equivalent element was there already. */
  lemma InsertCorrect<T(!new)>(less: (T, T) -> bool, eq: (T, T) -> bool, dom: T -> bool, s: seq<T>, x: T)
    requires StrictTotalOrder(less, eq, dom)
    requires Within(dom, s) && dom(x) && Sorted(less, s)
    ensures Sorted(less, Insert(less, s, x)) && Within(dom, Insert(less, s, x))
    ensures Has(less, s, x) ==> Insert(less, s, x) == s
    ensures !Has(less, s, x) ==> multiset(Insert(less, s, x)) == multiset(s) + multiset{x}
  {
    InsertSorted(less, dom, s, x);
    InsertElements(less, s, x);
    InsertAddsNew(less, eq, dom, s, x);
  }

  lemma {:induction false} InsertLast<T(!new)>(
      less: (T, T) -> bool, eq: (T, T) -> bool, dom: T -> bool, s: seq<T>, x: T)
    requires StrictTotalOrder(less, eq, dom)
    requires Within(dom, s) && dom(x) && forall i :: 0 <= i < |s| ==> less(s[i], x)
    ensures Insert(less, s, x) == s + [x]
  {
    if s != [] {
      assert less(s[0], x);
      InsertLast(less, eq, dom, s[1..], x);
      assert s == [s[0]] + s[1..];
    }
  }

  /** Inserting the elements of a set in its own order, as a reader of a set does, rebuilds it. */
  lemma {:induction false} InsertAllSorted<T(!new)>(
      less: (T, T) -> bool, eq: (T, T) -> bool, dom: T -> bool, s: seq<T>, xs: seq<T>)
    requires StrictTotalOrder(less, eq, dom)
    requires Within(dom, s + xs) && Sorted(less, s + xs)
    ensures InsertAll(less, s, xs) == s + xs
    decreases |xs|
  {
    if xs == [] {
      assert s + xs == s;
    } else {
      assert forall i :: 0 <= i < |s| ==> s[i] == (s + xs)[i];
      assert xs[0] == (s + xs)[|s|];
      InsertLast(less, eq, dom, s, xs[0]);
      assert (s + [xs[0]]) + xs[1..] == s + xs;
      InsertAllSorted(less, eq, dom, s + [xs[0]], xs[1..]);
    }
  }

  /** A sorted sequence is determined by its elements. */
  lemma {:induction false} SortedUnique<T(!new)>(
      less: (T, T) -> bool, eq: (T, T) -> bool, dom: T -> bool, s: seq<T>, t: seq<T>)
    requires StrictTotalOrder(less, eq, dom)
    requires Within(dom, s) && Sorted(less, s) && Within(dom, t) && Sorted(less, t)
    requires forall x :: x in s <==> x in t
    ensures s == t
  {
    if s == [] {
      assert forall i :: 0 <= i < |t| ==> t[i] in t;
    } else {
      assert s[0] in t;
      assert t != [] && t[0] in s;
      HeadIsLeast(less, s);
      HeadIsLeast(less, t);
      Antisymmetric(less, dom, s[0], t[0]);
      forall x ensures x in s[1..] <==> x in t[1..] {
        HeadOnce(less, dom, s, x);
        HeadOnce(less, dom, t, x);
      }
      SortedUnique(less, eq, dom, s[1..], t[1..]);
      assert s == [s[0]] + s[1..] && t == [t[0]] + t[1..];
    }
  }

  lemma Antisymmetric<T(!new)>(less: (T, T) -> bool, dom: T -> bool, x: T, y: T)
    requires Irreflexive(less, dom) && Transitive(less, dom) && dom(x) && dom(y)
    requires (x == y || less(x, y)) && (y == x || less(y, x))
    ensures x == y
  {
  }

  lemma HeadIsLeast<T(!new)>(less: (T, T) -> bool, s: seq<T>)
    requires s != [] && Sorted(less, s)
    ensures forall x :: x in s ==> x == s[0] || less(s[0], x)
  {
  }

  lemma HeadOnce<T(!new)>(less: (T, T) -> bool, dom: T -> bool, s: seq<T>, x: T)
    requires Irreflexive(less, dom) && s != [] && Sorted(less, s) && Within(dom, s)
    ensures x in s[1..] <==> x in s && x != s[0]
  {
    if x in s[1..] {
      var i :| 0 <= i < |s[1..]| && s[1..][i] == x;
      assert s[i + 1] == x && less(s[0], s[i + 1]);
    }
    assert s == [s[0]] + s[1..];
  }
}
