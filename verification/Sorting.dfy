/** Stable sorting by a key order, as the standard library's `sort_by` does it. */
module Sorting {

  /** `le` orders any two elements and is transitive; ties are allowed. */
  ghost predicate TotalPreorder<T(!new)>(le: (T, T) -> bool) {
    && (forall x, y :: le(x, y) || le(y, x))
    && (forall x, y, z :: le(x, y) && le(y, z) ==> le(x, z))
  }

  ghost predicate Sorted<T>(le: (T, T) -> bool, s: seq<T>) {
    forall i, j :: 0 <= i < j < |s| ==> le(s[i], s[j])
  }

  /** Places `x` behind every element of `s` that does not come strictly after it. */
  function Insert<T>(le: (T, T) -> bool, s: seq<T>, x: T): (r: seq<T>)
    ensures |r| == |s| + 1
    ensures multiset(r) == multiset(s) + multiset{x}
  {
    if s == [] || le(s[|s| - 1], x) then s + [x]
    else
      var front := s[..|s| - 1];
      assert s == front + [s[|s| - 1]];
      Insert(le, front, x) + [s[|s| - 1]]
  }

  /** Stable: elements that tie keep the order they came in. */
  function Sort<T>(le: (T, T) -> bool, s: seq<T>): (r: seq<T>)
    ensures |r| == |s|
    ensures multiset(r) == multiset(s)
  {
    if s == [] then []
    else
      assert s == s[..|s| - 1] + [s[|s| - 1]];
      Insert(le, Sort(le, s[..|s| - 1]), s[|s| - 1])
  }

  lemma InMultiset<T>(s: seq<T>, x: T)
    ensures x in s <==> x in multiset(s)
  {
  }

  lemma {:induction false} InsertSorted<T(!new)>(le: (T, T) -> bool, s: seq<T>, x: T)
    requires TotalPreorder(le) && Sorted(le, s)
    ensures Sorted(le, Insert(le, s, x))
  {
    if s != [] && !le(s[|s| - 1], x) {
      var front, last := s[..|s| - 1], s[|s| - 1];
      InsertSorted(le, front, x);
      var r := Insert(le, front, x);
      forall i | 0 <= i < |r| ensures le(r[i], last) {
        InMultiset(r, r[i]);
        assert r[i] in multiset(front) + multiset{x};
        assert r[i] == x || r[i] in front;
      }
    } else if s != [] {
      forall i | 0 <= i < |s| ensures le(s[i], x) {
        assert i < |s| - 1 ==> le(s[i], s[|s| - 1]);
      }
    }
  }

  lemma {:induction false} SortSorted<T(!new)>(le: (T, T) -> bool, s: seq<T>)
    requires TotalPreorder(le)
    ensures Sorted(le, Sort(le, s))
  {
    if s != [] {
      SortSorted(le, s[..|s| - 1]);
      InsertSorted(le, Sort(le, s[..|s| - 1]), s[|s| - 1]);
    }
  }

  /** Elements that tie are the same element. */
  ghost predicate TiesAreEqual<T(!new)>(le: (T, T) -> bool, s: seq<T>) {
    forall x, y :: x in s && y in s && le(x, y) && le(y, x) ==> x == y
  }

  lemma SortedHeadsAgree<T(!new)>(le: (T, T) -> bool, a: seq<T>, b: seq<T>)
    requires Sorted(le, a) && Sorted(le, b) && a != [] && b != []
    requires multiset(a) == multiset(b) && TiesAreEqual(le, a)
    ensures a[0] == b[0]
  {
    InMultiset(a, b[0]);
    InMultiset(b, a[0]);
    assert b[0] in multiset(b) && a[0] in multiset(a);
    var i :| 0 <= i < |a| && a[i] == b[0];
    var j :| 0 <= j < |b| && b[j] == a[0];
    if i > 0 && j > 0 {
      assert le(a[0], a[i]) && le(b[0], b[j]);
    }
  }

  lemma TailMultiset<T>(s: seq<T>)
    requires s != []
    ensures multiset(s[1..]) == multiset(s) - multiset{s[0]}
  {
    assert s == [s[0]] + s[1..];
  }

  /** Without ties between different elements, the contents determine the sorted order. */
  lemma {:induction false} SortedUnique<T(!new)>(le: (T, T) -> bool, a: seq<T>, b: seq<T>)
    requires Sorted(le, a) && Sorted(le, b)
    requires multiset(a) == multiset(b) && TiesAreEqual(le, a)
    ensures a == b
    decreases |a|
  {
    assert |a| == |multiset(a)| == |multiset(b)| == |b|;
    if a != [] {
      SortedHeadsAgree(le, a, b);
      TailMultiset(a);
      TailMultiset(b);
      SortedUnique(le, a[1..], b[1..]);
      assert a == [a[0]] + a[1..] && b == [b[0]] + b[1..];
    }
  }

  /** So the order of the input is irrelevant. */
  lemma SortIgnoresInputOrder<T(!new)>(le: (T, T) -> bool, s: seq<T>, t: seq<T>)
    requires TotalPreorder(le) && multiset(s) == multiset(t) && TiesAreEqual(le, s)
    ensures Sort(le, s) == Sort(le, t)
  {
    SortSorted(le, s);
    SortSorted(le, t);
    forall x | x in Sort(le, s) ensures x in s {
      InMultiset(Sort(le, s), x);
      InMultiset(s, x);
    }
    SortedUnique(le, Sort(le, s), Sort(le, t));
  }

  function Filter<T(!new)>(p: T -> bool, s: seq<T>): (r: seq<T>)
    ensures |r| <= |s|
    ensures forall x :: x in r <==> x in s && p(x)
  {
    if s == [] then []
    else
      assert forall x :: x in s <==> x in s[..|s| - 1] || x == s[|s| - 1];
      var front := Filter(p, s[..|s| - 1]);
      if p(s[|s| - 1]) then front + [s[|s| - 1]] else front
  }

  lemma {:induction false} FilterKeepsDistinct<T(!new)>(p: T -> bool, s: seq<T>)
    requires forall i, j :: 0 <= i < j < |s| ==> s[i] != s[j]
    ensures forall i, j :: 0 <= i < j < |Filter(p, s)| ==> Filter(p, s)[i] != Filter(p, s)[j]
  {
    if s != [] {
      var front, last := s[..|s| - 1], s[|s| - 1];
      FilterKeepsDistinct(p, front);
      assert last !in front;
      var f := Filter(p, front);
      assert last !in f;
      assert forall i :: 0 <= i < |f| ==> f[i] != last;
    }
  }

  lemma {:induction false} DistinctMultiset<T(!new)>(s: seq<T>)
    requires forall i, j :: 0 <= i < j < |s| ==> s[i] != s[j]
    ensures forall x :: x in s ==> multiset(s)[x] == 1
  {
    if s != [] {
      DistinctMultiset(s[..|s| - 1]);
      assert s == s[..|s| - 1] + [s[|s| - 1]];
      InMultiset(s[..|s| - 1], s[|s| - 1]);
    }
  }

  lemma RepeatCountsTwice<T>(s: seq<T>, i: nat, j: nat)
    requires i < j < |s| && s[i] == s[j]
    ensures multiset(s)[s[i]] >= 2
  {
    assert s == s[..j] + s[j..];
    assert s[..j][i] == s[i] && s[j..][0] == s[j];
    InMultiset(s[..j], s[i]);
    InMultiset(s[j..], s[i]);
  }

  lemma DistinctFromMultiset<T(!new)>(s: seq<T>)
    requires forall x :: x in s ==> multiset(s)[x] == 1
    ensures forall i, j :: 0 <= i < j < |s| ==> s[i] != s[j]
  {
    forall i, j | 0 <= i < j < |s| && s[i] == s[j] ensures false {
      RepeatCountsTwice(s, i, j);
    }
  }

  lemma SortKeepsDistinct<T(!new)>(le: (T, T) -> bool, s: seq<T>)
    requires forall i, j :: 0 <= i < j < |s| ==> s[i] != s[j]
    ensures forall i, j :: 0 <= i < j < |Sort(le, s)| ==> Sort(le, s)[i] != Sort(le, s)[j]
  {
    DistinctMultiset(s);
    var r := Sort(le, s);
    forall x | x in r ensures multiset(r)[x] == 1 {
      InMultiset(r, x);
      InMultiset(s, x);
    }
    DistinctFromMultiset(r);
  }

  lemma SortKeepsElements<T(!new)>(le: (T, T) -> bool, s: seq<T>)
    ensures forall x :: x in Sort(le, s) <==> x in s
  {
    forall x ensures x in Sort(le, s) <==> x in s {
      InMultiset(s, x);
      InMultiset(Sort(le, s), x);
    }
  }

  // ---------------------------------------------------------------------------
  // Stability, and when the sorted order is canonical
  // ---------------------------------------------------------------------------

  lemma {:induction false} FilterConcat<T(!new)>(p: T -> bool, a: seq<T>, b: seq<T>)
    ensures Filter(p, a + b) == Filter(p, a) + Filter(p, b)
  {
    if b == [] {
      assert a + b == a;
    } else {
      var front, last := b[..|b| - 1], b[|b| - 1];
      assert (a + b)[..|a + b| - 1] == a + front;
      FilterConcat(p, a, front);
    }
  }

  /** `p` holds of elements that all tie with each other. */
  ghost predicate TieClass<T(!new)>(le: (T, T) -> bool, p: T -> bool) {
    forall x, y :: p(x) && p(y) ==> le(x, y)
  }

  lemma {:induction false} InsertIsStable<T(!new)>(le: (T, T) -> bool, p: T -> bool, s: seq<T>, x: T)
    requires TieClass(le, p)
    ensures Filter(p, Insert(le, s, x)) == Filter(p, s + [x])
  {
    if s != [] && !le(s[|s| - 1], x) {
      var front, last := s[..|s| - 1], s[|s| - 1];
      InsertIsStable(le, p, front, x);
      FilterConcat(p, Insert(le, front, x), [last]);
      FilterConcat(p, front, [x]);
      FilterConcat(p, front, [last]);
      FilterConcat(p, s, [x]);
      assert front + [last] == s;
    }
  }

  /** Sorting keeps tied elements in the order they came in. */
  lemma {:induction false} SortIsStable<T(!new)>(le: (T, T) -> bool, p: T -> bool, s: seq<T>)
    requires TieClass(le, p)
    ensures Filter(p, Sort(le, s)) == Filter(p, s)
  {
    if s != [] {
      var front, last := s[..|s| - 1], s[|s| - 1];
      var sorted := Sort(le, front);
      assert Filter(p, Insert(le, sorted, last)) == Filter(p, sorted) + Filter(p, [last]) by {
        InsertIsStable(le, p, sorted, last);
        FilterConcat(p, sorted, [last]);
      }
      assert Filter(p, s) == Filter(p, front) + Filter(p, [last]) by {
        FilterConcat(p, front, [last]);
        assert front + [last] == s;
      }
      SortIsStable(le, p, front);
    }
  }

  /** `a` lists the contents of `s` in some order. */
  ghost predicate Rearranges<T>(a: seq<T>, s: seq<T>) {
    multiset(a) == multiset(s)
  }

  /** Every arrangement of the contents sorts to the same list. */
  ghost predicate Canonical<T(!new)>(le: (T, T) -> bool, s: seq<T>) {
    forall a, b :: Rearranges(a, s) && Rearranges(b, s) ==> Sort(le, a) == Sort(le, b)
  }

  lemma FilterPair<T(!new)>(p: T -> bool, x: T, y: T, rest: seq<T>)
    requires p(x) && p(y)
    ensures Filter(p, [x, y] + rest) == [x, y] + Filter(p, rest)
  {
    FilterConcat(p, [x, y], rest);
    assert [x, y][..1] == [x] && [x][..0] == [];
  }

  lemma TiedFrontsSortApart<T(!new)>(le: (T, T) -> bool, x: T, y: T, rest: seq<T>)
    requires x != y && le(x, y) && le(y, x) && le(x, x) && le(y, y)
    ensures Sort(le, [x, y] + rest) != Sort(le, [y, x] + rest)
  {
    var p := z => z == x || z == y;
    SortIsStable(le, p, [x, y] + rest);
    SortIsStable(le, p, [y, x] + rest);
    FilterPair(p, x, y, rest);
    FilterPair(p, y, x, rest);
    assert ([x, y] + Filter(p, rest))[0] == x && ([y, x] + Filter(p, rest))[0] == y;
  }

  lemma TakeTwo<T>(m: multiset<T>, x: T, y: T)
    requires x in m && y in m && x != y
    ensures m - multiset{x} - multiset{y} + multiset{x, y} == m
  {
  }

  lemma PairInFront<T(!new)>(s: seq<T>, x: T, y: T) returns (rest: seq<T>)
    requires x in s && y in s && x != y
    ensures Rearranges([x, y] + rest, s) && Rearranges([y, x] + rest, s)
  {
    InMultiset(s, x);
    InMultiset(s, y);
    TakeTwo(multiset(s), x, y);
    rest := SeqOf(multiset(s) - multiset{x} - multiset{y});
    assert multiset([x, y]) == multiset{x, y} == multiset([y, x]);
    assert multiset([x, y] + rest) == multiset([x, y]) + multiset(rest);
    assert multiset([y, x] + rest) == multiset([y, x]) + multiset(rest);
  }

  lemma TieBreaksCanonical<T(!new)>(le: (T, T) -> bool, s: seq<T>, x: T, y: T)
    requires x in s && y in s && x != y && le(x, y) && le(y, x) && le(x, x) && le(y, y)
    ensures !Canonical(le, s)
  {
    var rest := PairInFront(s, x, y);
    TiedFrontsSortApart(le, x, y, rest);
  }

  ghost function SeqOf<T>(m: multiset<T>): (s: seq<T>)
    ensures multiset(s) == m
    decreases |m|
  {
    if m == multiset{} then []
    else
      var x :| x in m;
      SeqOf(m - multiset{x}) + [x]
  }

  /** The sorted list depends on the contents alone exactly when ties are between equal elements. */
  lemma CanonicalIffNoTies<T(!new)>(le: (T, T) -> bool, s: seq<T>)
    requires TotalPreorder(le)
    ensures Canonical(le, s) <==> TiesAreEqual(le, s)
  {
    if TiesAreEqual(le, s) {
      forall a, b | Rearranges(a, s) && Rearranges(b, s) ensures Sort(le, a) == Sort(le, b) {
        forall x | x in a ensures x in s {
          InMultiset(a, x);
          InMultiset(s, x);
        }
        SortIgnoresInputOrder(le, a, b);
      }
    } else {
      var x, y :| x in s && y in s && le(x, y) && le(y, x) && x != y;
      TieBreaksCanonical(le, s, x, y);
    }
  }
}
