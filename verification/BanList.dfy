/** Merging ban lists from several peers, and the hash of a ban list. */
module BanList {
  import opened Prelude
  import opened Sorting

  /** The 16 address bytes as one big-endian number: comparing numbers is comparing bytes. */
  datatype Address = Address(services: nat, ip: nat, port: nat, time: nat)

  /** `unban` is the time the ban ends; the largest 64-bit value means never. */
  datatype BanEntry = BanEntry(addr: Address, unban: nat, reason: Option<string>)

  /** A reply that is not full carries only a hash and is ignored. */
  datatype BanMessage = BanMessage(isFull: bool, entries: seq<BanEntry>)

  type Bans = map<Address, BanEntry>

  ghost predicate Stamped(es: seq<BanEntry>) {
    forall i :: 0 <= i < |es| ==> es[i].unban <= U64_MAX
  }

  function LongerBan(current: nat, other: nat): (r: nat) {
    if other == U64_MAX then U64_MAX
    else if current != U64_MAX && other > current then other
    else current
  }

  function JoinReasons(a: Option<string>, b: Option<string>): Option<string> {
    if b.None? then a else if a.None? then b else Some(a.value + "; " + b.value)
  }

  function MergeEntry(m: Bans, e: BanEntry): Bans {
    if e.addr !in m then m[e.addr := e]
    else m[e.addr := m[e.addr].(unban := LongerBan(m[e.addr].unban, e.unban), reason := JoinReasons(m[e.addr].reason, e.reason))]
  }

  function MergeEntries(m: Bans, es: seq<BanEntry>): Bans {
    if es == [] then m else MergeEntry(MergeEntries(m, es[..|es| - 1]), es[|es| - 1])
  }

  function MergeMessages(m: Bans, ms: seq<BanMessage>): Bans {
    if ms == [] then m
    else
      var before := MergeMessages(m, ms[..|ms| - 1]);
      if ms[|ms| - 1].isFull then MergeEntries(before, ms[|ms| - 1].entries) else before
  }

  /** By address bytes, then port; services and advertised time do not matter. */
  predicate ByAddress(a: BanEntry, b: BanEntry) {
    a.addr.ip < b.addr.ip || (a.addr.ip == b.addr.ip && a.addr.port <= b.addr.port)
  }

  function ValuesIn(m: Bans, order: seq<Address>): seq<BanEntry>
    requires forall i :: 0 <= i < |order| ==> order[i] in m
  {
    seq(|order|, i requires 0 <= i < |order| => m[order[i]])
  }

  method MergeIntoMap(ms: seq<BanMessage>) returns (merged: Bans)
    ensures merged == MergeMessages(map[], ms)
  {
    merged := map[];
    var i := 0;
    while i < |ms|
      invariant 0 <= i <= |ms|
      invariant merged == MergeMessages(map[], ms[..i])
    {
      assert ms[..i + 1][..i] == ms[..i];
      if ms[i].isFull {
        merged := MergeOneList(merged, ms[i].entries);
      }
      i := i + 1;
    }
    assert ms[..i] == ms;
  }

  /** `merge_ban_lists`: the merged entries, each once, sorted by address, in whatever order the map yields them. */
  method MergeBanLists(ms: seq<BanMessage>) returns (result: seq<BanEntry>)
    ensures Sorted(ByAddress, result) && Distinct(result)
    ensures var m := MergeMessages(map[], ms); forall e :: e in result <==> e.addr in m && m[e.addr] == e
  {
    var merged := MergeIntoMap(ms);
    var todo := merged.Keys;
    result := [];
    ghost var order := [];
    while todo != {}
      invariant todo <= merged.Keys && Distinct(order)
      invariant forall a :: a in order <==> a in merged.Keys && a !in todo
      invariant |result| == |order| && forall i :: 0 <= i < |order| ==> order[i] in merged && result[i] == merged[order[i]]
      decreases |todo|
    {
      var a :| a in todo;
      todo := todo - {a};
      result := result + [merged[a]];
      order := order + [a];
    }
    assert result == ValuesIn(merged, order);
    MergeIsOverFullEntries(map[], ms);
    MergedUnderOwnAddress(FullEntries(ms));
    OutputIsSorted(merged, order);
    result := Sort(ByAddress, result);
  }

  method MergeOneList(m: Bans, es: seq<BanEntry>) returns (merged: Bans)
    ensures merged == MergeEntries(m, es)
  {
    merged := m;
    var j := 0;
    while j < |es|
      invariant 0 <= j <= |es|
      invariant merged == MergeEntries(m, es[..j])
    {
      assert es[..j + 1][..j] == es[..j];
      var e := es[j];
      if e.addr in merged {
        var existing := merged[e.addr];
        if e.unban == U64_MAX {
          existing := existing.(unban := U64_MAX);
        } else if existing.unban != U64_MAX {
          if e.unban > existing.unban {
            existing := existing.(unban := e.unban);
          }
        }
        if e.reason.Some? {
          existing := existing.(reason := if existing.reason.Some? then Some(existing.reason.value + "; " + e.reason.value) else e.reason);
        }
        merged := merged[e.addr := existing];
      } else {
        merged := merged[e.addr := e];
      }
      j := j + 1;
    }
    assert es[..j] == es;
  }

  // ---------------------------------------------------------------------------
  // The merge is a maximum
  // ---------------------------------------------------------------------------

  /** All entries of the full lists, in order. */
  function FullEntries(ms: seq<BanMessage>): seq<BanEntry> {
    if ms == [] then []
    else FullEntries(ms[..|ms| - 1]) + if ms[|ms| - 1].isFull then ms[|ms| - 1].entries else []
  }

  lemma {:induction false} MergeConcat(m: Bans, a: seq<BanEntry>, b: seq<BanEntry>)
    ensures MergeEntries(m, a + b) == MergeEntries(MergeEntries(m, a), b)
  {
    if b == [] {
      assert a + b == a;
    } else {
      assert (a + b)[..|a + b| - 1] == a + b[..|b| - 1];
      MergeConcat(m, a, b[..|b| - 1]);
    }
  }

  lemma {:induction false} MergeIsOverFullEntries(m: Bans, ms: seq<BanMessage>)
    ensures MergeMessages(m, ms) == MergeEntries(m, FullEntries(ms))
  {
    if ms != [] {
      var last := ms[|ms| - 1];
      MergeIsOverFullEntries(m, ms[..|ms| - 1]);
      MergeConcat(m, FullEntries(ms[..|ms| - 1]), if last.isFull then last.entries else []);
    }
  }

  ghost predicate Occurs(es: seq<BanEntry>, a: Address) {
    exists i :: 0 <= i < |es| && es[i].addr == a
  }

  /** `u` is the latest end of a ban of `a` among the entries. */
  ghost predicate IsLongest(es: seq<BanEntry>, a: Address, u: nat) {
    && (exists i :: 0 <= i < |es| && es[i].addr == a && es[i].unban == u)
    && (forall i :: 0 <= i < |es| && es[i].addr == a ==> es[i].unban <= u)
  }

  /** Every address of the entries, and no other, is banned for the longest time any entry asks, permanent being longest. */
  lemma {:induction false} MergeTakesLongest(es: seq<BanEntry>, a: Address)
    requires Stamped(es)
    ensures var m := MergeEntries(map[], es);
            && (a in m <==> Occurs(es, a))
            && (a in m ==> m[a].addr == a && IsLongest(es, a, m[a].unban))
  {
    if es != [] {
      var front, last := es[..|es| - 1], es[|es| - 1];
      MergeTakesLongest(front, a);
      var before := MergeEntries(map[], front);
      if a in before {
        var i :| 0 <= i < |front| && front[i].addr == a && front[i].unban == before[a].unban;
        assert es[i] == front[i];
      }
      if last.addr == a {
        assert es[|es| - 1].addr == a;
      }
    }
  }

  /** The reasons given for an address, in order. */
  function ReasonsFor(es: seq<BanEntry>, a: Address): seq<string> {
    if es == [] then []
    else
      var front, last := ReasonsFor(es[..|es| - 1], a), es[|es| - 1];
      if last.addr == a && last.reason.Some? then front + [last.reason.value] else front
  }

  function Joined(reasons: seq<string>): string {
    if reasons == [] then ""
    else if |reasons| == 1 then reasons[0]
    else Joined(reasons[..|reasons| - 1]) + "; " + reasons[|reasons| - 1]
  }

  /** The merged reason lists every reason given, in the order the lists came. */
  lemma {:induction false} MergeKeepsReasons(es: seq<BanEntry>, a: Address)
    ensures var m := MergeEntries(map[], es);
            a in m ==> m[a].reason == if ReasonsFor(es, a) == [] then None else Some(Joined(ReasonsFor(es, a)))
    ensures a !in MergeEntries(map[], es) ==> ReasonsFor(es, a) == []
  {
    if es != [] {
      var front, last := es[..|es| - 1], es[|es| - 1];
      MergeKeepsReasons(front, a);
      if last.addr == a && last.reason.Some? {
        var before := ReasonsFor(front, a);
        assert (before + [last.reason.value])[..|before|] == before;
      }
    }
  }

  /** The ban times alone, without reasons. */
  ghost function Times(m: Bans): map<Address, nat> {
    map a | a in m :: m[a].unban
  }

  lemma LongestIsUnique(es: seq<BanEntry>, fs: seq<BanEntry>, a: Address, u: nat, v: nat)
    requires forall e :: e in es <==> e in fs
    requires IsLongest(es, a, u) && IsLongest(fs, a, v)
    ensures u == v
  {
    var i :| 0 <= i < |es| && es[i].addr == a && es[i].unban == u;
    var j :| 0 <= j < |fs| && fs[j].addr == a && fs[j].unban == v;
    assert es[i] in fs && fs[j] in es;
  }

  /** Only which entries the full lists hold matters: not their order, grouping or repetition. */
  lemma MergeIgnoresOrder(ms: seq<BanMessage>, ns: seq<BanMessage>)
    requires Stamped(FullEntries(ms)) && Stamped(FullEntries(ns))
    requires forall e :: e in FullEntries(ms) <==> e in FullEntries(ns)
    ensures Times(MergeMessages(map[], ms)) == Times(MergeMessages(map[], ns))
  {
    MergeIsOverFullEntries(map[], ms);
    MergeIsOverFullEntries(map[], ns);
    var es, fs := FullEntries(ms), FullEntries(ns);
    forall a ensures Occurs(es, a) <==> Occurs(fs, a) {
      SameOccurrences(es, fs, a);
      SameOccurrences(fs, es, a);
    }
    forall a ensures a in MergeEntries(map[], es) <==> a in MergeEntries(map[], fs) {
      MergeTakesLongest(es, a);
      MergeTakesLongest(fs, a);
    }
    forall a | a in MergeEntries(map[], es) ensures MergeEntries(map[], es)[a].unban == MergeEntries(map[], fs)[a].unban {
      MergeTakesLongest(es, a);
      MergeTakesLongest(fs, a);
      LongestIsUnique(es, fs, a, MergeEntries(map[], es)[a].unban, MergeEntries(map[], fs)[a].unban);
    }
  }

  lemma SameOccurrences(es: seq<BanEntry>, fs: seq<BanEntry>, a: Address)
    requires forall e :: e in es ==> e in fs
    ensures Occurs(es, a) ==> Occurs(fs, a)
  {
    if Occurs(es, a) {
      var i :| 0 <= i < |es| && es[i].addr == a;
      assert es[i] in fs;
    }
  }

  // ---------------------------------------------------------------------------
  // Merging again
  // ---------------------------------------------------------------------------

  /** Entries of different addresses, none yet in the map, are simply added. */
  lemma {:induction false} MergeOfDistinct(m: Bans, order: seq<Address>)
    requires Distinct(order) && forall i :: 0 <= i < |order| ==> order[i] in m && m[order[i]].addr == order[i]
    ensures var r := MergeEntries(map[], ValuesIn(m, order));
            && (forall a :: a in r <==> a in order)
            && (forall a :: a in r ==> a in m && r[a] == m[a])
  {
    if order != [] {
      var front, last := order[..|order| - 1], order[|order| - 1];
      MergeOfDistinct(m, front);
      assert ValuesIn(m, order)[..|order| - 1] == ValuesIn(m, front);
      assert last !in front;
      assert forall a :: a in order <==> a in front || a == last;
    }
  }

  lemma {:induction false} MergedUnderOwnAddress(es: seq<BanEntry>)
    ensures forall a :: a in MergeEntries(map[], es) ==> MergeEntries(map[], es)[a].addr == a
  {
    if es != [] {
      MergedUnderOwnAddress(es[..|es| - 1]);
    }
  }

  /** Merging the merged list, in any order, changes nothing, reasons included. */
  lemma MergeIsIdempotent(ms: seq<BanMessage>, order: seq<Address>)
    requires Enumerates(order, MergeMessages(map[], ms).Keys)
    ensures (forall i :: 0 <= i < |order| ==> order[i] in MergeMessages(map[], ms))
            && MergeMessages(map[], [BanMessage(true, ValuesIn(MergeMessages(map[], ms), order))]) == MergeMessages(map[], ms)
  {
    var m := MergeMessages(map[], ms);
    MergeIsOverFullEntries(map[], ms);
    MergedUnderOwnAddress(FullEntries(ms));
    forall i | 0 <= i < |order| ensures order[i] in m {
      assert order[i] in order;
    }
    MergeOfDistinct(m, order);
    var again := [BanMessage(true, ValuesIn(m, order))];
    assert again[..0] == [];
    assert MergeMessages(map[], again) == MergeEntries(MergeMessages(map[], []), ValuesIn(m, order));
  }

  // ---------------------------------------------------------------------------
  // Sorted output and the list's hash
  // ---------------------------------------------------------------------------

  /** Whatever the map's order, the list comes out sorted by address and port and holds each banned address once. */
  lemma OutputIsSorted(m: Bans, order: seq<Address>)
    requires Enumerates(order, m.Keys) && forall i :: 0 <= i < |order| ==> order[i] in m
    requires forall a :: a in m ==> m[a].addr == a
    ensures var r := Sort(ByAddress, ValuesIn(m, order));
            && Sorted(ByAddress, r) && Distinct(r)
            && (forall e :: e in r <==> e.addr in m && m[e.addr] == e)
  {
    var es := ValuesIn(m, order);
    SortSorted(ByAddress, es);
    forall i, j | 0 <= i < j < |es| ensures es[i] != es[j] {
      assert es[i].addr == order[i] && es[j].addr == order[j];
    }
    SortKeepsDistinct(ByAddress, es);
    SortKeepsElements(ByAddress, es);
    forall e ensures e in es <==> e.addr in m && m[e.addr] == e {
      if e.addr in m && m[e.addr] == e {
        assert e.addr in order;
        var i :| 0 <= i < |order| && order[i] == e.addr;
        assert es[i] == e;
      }
    }
  }

  /** No two merged addresses share address bytes and port. */
  ghost predicate DistinctKeys(m: Bans) {
    forall a, b :: a in m && b in m && a.ip == b.ip && a.port == b.port ==> a == b
  }

  /** `order` is one of the orders the map can be walked in. */
  ghost predicate Walks(order: seq<Address>, m: Bans) {
    Enumerates(order, m.Keys) && forall i :: 0 <= i < |order| ==> order[i] in m
  }

  /** The map's order does not show in the output. */
  ghost predicate OutputIsCanonical(m: Bans) {
    forall o, q :: Walks(o, m) && Walks(q, m) ==> Sort(ByAddress, ValuesIn(m, o)) == Sort(ByAddress, ValuesIn(m, q))
  }

  /** The values listed in two orders are the same up to order. */
  lemma ValuesRearrange(m: Bans, o: seq<Address>, q: seq<Address>)
    requires Walks(o, m) && Walks(q, m) && forall a :: a in m ==> m[a].addr == a
    ensures multiset(ValuesIn(m, o)) == multiset(ValuesIn(m, q))
  {
    ValuesOnce(m, o);
    ValuesOnce(m, q);
    var x, y := multiset(ValuesIn(m, o)), multiset(ValuesIn(m, q));
    forall e ensures x[e] == y[e] {
      InMultiset(ValuesIn(m, o), e);
      InMultiset(ValuesIn(m, q), e);
    }
  }

  lemma ValuesOnce(m: Bans, order: seq<Address>)
    requires Walks(order, m) && forall a :: a in m ==> m[a].addr == a
    ensures var es := ValuesIn(m, order);
            (forall e :: e in es <==> e.addr in m && m[e.addr] == e) && (forall e :: e in es ==> multiset(es)[e] == 1)
  {
    var es := ValuesIn(m, order);
    forall i, j | 0 <= i < j < |es| ensures es[i] != es[j] {
      assert es[i].addr == order[i] && es[j].addr == order[j];
    }
    DistinctMultiset(es);
    forall e ensures e in es <==> e.addr in m && m[e.addr] == e {
      if e.addr in m && m[e.addr] == e {
        assert e.addr in order;
        var i :| 0 <= i < |order| && order[i] == e.addr;
        assert es[i] == e;
      }
    }
  }

  lemma {:induction false} SomeOrder(keys: set<Address>) returns (order: seq<Address>)
    ensures Enumerates(order, keys)
    decreases keys
  {
    order := [];
    if keys != {} {
      var a :| a in keys;
      var rest := SomeOrder(keys - {a});
      order := [a] + rest;
    }
  }

  /** Any two addresses can come first. */
  lemma PairFirst(m: Bans, a: Address, b: Address, rest: seq<Address>)
    requires a in m && b in m && a != b && Enumerates(rest, m.Keys - {a, b})
    ensures Walks([a, b] + rest, m) && forall i :: 0 <= i < |rest| ==> rest[i] in m
    ensures ValuesIn(m, [a, b] + rest) == [m[a], m[b]] + ValuesIn(m, rest)
  {
    var order := [a, b] + rest;
    forall x ensures x in m.Keys <==> x in order {
      assert x in m.Keys - {a, b} <==> x in rest;
    }
    assert a !in rest && b !in rest;
    ConcatDistinct([a, b], rest);
    forall i | 0 <= i < |rest| ensures rest[i] in m {
      assert rest[i] in rest;
    }
  }

  /** Two addresses with one endpoint come out in the order the map yields them. */
  lemma SharedEndpointShows(m: Bans, a: Address, b: Address)
    requires forall x :: x in m ==> m[x].addr == x
    requires a in m && b in m && a != b && a.ip == b.ip && a.port == b.port
    ensures !OutputIsCanonical(m)
  {
    var rest := SomeOrder(m.Keys - {a, b});
    PairFirst(m, a, b, rest);
    assert m.Keys - {a, b} == m.Keys - {b, a};
    PairFirst(m, b, a, rest);
    var o, q := [a, b] + rest, [b, a] + rest;
    assert Sort(ByAddress, ValuesIn(m, o)) != Sort(ByAddress, ValuesIn(m, q)) by {
      TiedFrontsSortApart(ByAddress, m[a], m[b], ValuesIn(m, rest));
    }
  }

  /** The sorted output is the same for every map order exactly if no two merged addresses share an endpoint. */
  lemma OutputIsCanonicalIff(m: Bans)
    requires forall a :: a in m ==> m[a].addr == a
    ensures OutputIsCanonical(m) <==> DistinctKeys(m)
  {
    if DistinctKeys(m) {
      forall o, q | Walks(o, m) && Walks(q, m) ensures Sort(ByAddress, ValuesIn(m, o)) == Sort(ByAddress, ValuesIn(m, q)) {
        ValuesRearrange(m, o, q);
        ValuesOnce(m, o);
        assert DistinctEndpoints(ValuesIn(m, o));
        SortIgnoresInputOrder(ByAddress, ValuesIn(m, o), ValuesIn(m, q));
      }
    } else {
      var a, b :| a in m && b in m && a.ip == b.ip && a.port == b.port && a != b;
      SharedEndpointShows(m, a, b);
    }
  }

  lemma {:induction false} MergedKeys(es: seq<BanEntry>, a: Address)
    ensures a in MergeEntries(map[], es) <==> Occurs(es, a)
  {
    if es != [] {
      MergedKeys(es[..|es| - 1], a);
      if Occurs(es[..|es| - 1], a) {
        SameOccurrences(es[..|es| - 1], es, a);
      }
    }
  }

  /** For the lists themselves: the output is deterministic exactly if banned addresses with one endpoint are the same address. */
  lemma MergeIsDeterministicIff(ms: seq<BanMessage>)
    ensures OutputIsCanonical(MergeMessages(map[], ms)) <==>
            forall e, f :: e in FullEntries(ms) && f in FullEntries(ms) && e.addr.ip == f.addr.ip && e.addr.port == f.addr.port ==> e.addr == f.addr
  {
    var m, es := MergeMessages(map[], ms), FullEntries(ms);
    MergeIsOverFullEntries(map[], ms);
    MergedUnderOwnAddress(es);
    OutputIsCanonicalIff(m);
    forall a ensures a in m <==> Occurs(es, a) {
      MergedKeys(es, a);
    }
    forall e | e in es ensures e.addr in m {
      assert Occurs(es, e.addr);
    }
  }

  /** `calculate_ban_list_hash` over a digest of the sorted entries. */
  function ListHash(digest: seq<BanEntry> -> nat, es: seq<BanEntry>): nat {
    digest(Sort(ByAddress, es))
  }

  /** Entries that agree in address bytes and port are the same entry. */
  ghost predicate DistinctEndpoints(es: seq<BanEntry>) {
    forall x, y :: x in es && y in es && x.addr.ip == y.addr.ip && x.addr.port == y.addr.port ==> x == y
  }

  /** The hash of a permutation is the same, when no two different entries share address and port. */
  lemma HashIgnoresOrder(digest: seq<BanEntry> -> nat, es: seq<BanEntry>, fs: seq<BanEntry>)
    requires DistinctEndpoints(es) && multiset(es) == multiset(fs)
    ensures ListHash(digest, es) == ListHash(digest, fs)
  {
    SortIgnoresInputOrder(ByAddress, es, fs);
  }

  ghost predicate HashIsCanonical(digest: seq<BanEntry> -> nat, es: seq<BanEntry>) {
    forall a, b :: Rearranges(a, es) && Rearranges(b, es) ==> ListHash(digest, a) == ListHash(digest, b)
  }

  /** With a digest that tells lists apart, that is exactly when the hash depends on the contents alone. */
  lemma HashIsCanonicalIff(digest: seq<BanEntry> -> nat, es: seq<BanEntry>)
    requires forall a, b :: digest(a) == digest(b) ==> a == b
    ensures HashIsCanonical(digest, es) <==> DistinctEndpoints(es)
  {
    CanonicalIffNoTies(ByAddress, es);
    if HashIsCanonical(digest, es) {
      forall a, b | Rearranges(a, es) && Rearranges(b, es)
        ensures Sort(ByAddress, a) == Sort(ByAddress, b)
      {
        assert ListHash(digest, a) == ListHash(digest, b);
      }
      assert Canonical(ByAddress, es);
    }
    if Canonical(ByAddress, es) {
      forall a, b | Rearranges(a, es) && Rearranges(b, es)
        ensures ListHash(digest, a) == ListHash(digest, b)
      {
        assert Sort(ByAddress, a) == Sort(ByAddress, b);
      }
    }
  }
}
