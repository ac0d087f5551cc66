/** Small definitions shared by every component. */
module Prelude {

  datatype Option<+T> = None | Some(value: T)

  /** The largest value of the node's 64-bit counters, heights and timestamps. */
  const U64_MAX: nat := 0xFFFF_FFFF_FFFF_FFFF

  const U32_MAX: nat := 0xFFFF_FFFF

  /** What is left of `n` in an unsigned counter with largest value `top` that wraps around. */
  function Wrap(n: nat, top: nat): (r: nat)
    ensures r <= n && r <= top && (n <= top ==> r == n)
  {
    if n <= top then n else Wrap(n - top - 1, top)
  }

  /** `saturating_sub` on unsigned integers. */
  function SatSub(a: nat, b: nat): (r: nat)
    ensures r <= a
  {
    if a < b then 0 else a - b
  }

  /** `saturating_add(1)` on 64-bit heights. */
  function SatInc(h: nat): (r: nat)
    ensures r <= U64_MAX
  {
    if h < U64_MAX then h + 1 else U64_MAX
  }

  function Min(a: int, b: int): (r: int) {
    if a <= b then a else b
  }

  function Max(a: int, b: int): (r: int) {
    if a <= b then b else a
  }

  ghost predicate Distinct<T(!new)>(s: seq<T>) {
    forall i, j :: 0 <= i < j < |s| ==> s[i] != s[j]
  }

  /** `s` lists the elements of `keys`, each once: one possible hash-map iteration order. */
  ghost predicate Enumerates<T(!new)>(s: seq<T>, keys: set<T>) {
    Distinct(s) && (forall x :: x in keys <==> x in s)
  }

  lemma {:induction false} SubsetSize<T>(a: set<T>, b: set<T>)
    requires a <= b
    ensures |a| <= |b|
  {
    if a != {} {
      var x :| x in a;
      SubsetSize(a - {x}, b - {x});
    }
  }

  lemma ConcatDistinct<T(!new)>(a: seq<T>, b: seq<T>)
    requires Distinct(a) && Distinct(b) && forall x :: x in b ==> x !in a
    ensures Distinct(a + b)
  {
    var c := a + b;
    forall i, j | 0 <= i < j < |c| ensures c[i] != c[j] {
      if i < |a| <= j {
        assert c[i] == a[i] && c[j] == b[j - |a|];
        assert b[j - |a|] in b && a[i] in a;
      }
    }
  }

  lemma {:induction false} DistinctHasSetSize<T(!new)>(s: seq<T>, all: set<T>)
    requires Enumerates(s, all)
    ensures |s| == |all|
  {
    if s == [] {
      assert all == {};
    } else {
      var last := s[|s| - 1];
      assert last in s;
      DistinctHasSetSize(s[..|s| - 1], all - {last});
    }
  }
}
