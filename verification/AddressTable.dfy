/** The two sides of the address table: capped buckets filled by hash, and which address gives way in a full one. */
module AddressTable {
  import opened Prelude
  import opened Sorting

  const NEW_BUCKETS := 1024
  const TRIED_BUCKETS := 256
  const BUCKET_SIZE := 64
  const MAX_ANCHORS := 2
  const ANCHOR_KEEP_SECS := 7 * 24 * 60 * 60
  const TERRIBLE_UNSEEN_SECS := 30 * 24 * 60 * 60
  const TERRIBLE_FUTURE_SKEW_SECS := 10 * 60
  const TERRIBLE_FAILURES := 3

  /** IPv4 octets (4) or IPv6 octets (16), and a port. */
  datatype Addr = Addr(ip: seq<nat>, port: nat)

  datatype Side = New | Tried

  function BucketCount(side: Side): (n: nat)
    ensures n > 0
  {
    if side == New then NEW_BUCKETS else TRIED_BUCKETS
  }

  function Mix(hash: nat, value: nat): (r: nat) {
    (hash * 0x0100_0000_01b3 + value) % (U64_MAX + 1)
  }

  function MixAll(hash: nat, ip: seq<nat>): nat {
    if ip == [] then hash else Mix(MixAll(hash, ip[..|ip| - 1]), ip[|ip| - 1])
  }

  function SeedOf(side: Side): nat {
    if side == Tried then 0x9e37_79b9 else 0x85eb_ca6b
  }

  /** The one bucket an address may be in. */
  function BucketIndex(a: Addr, side: Side): (i: nat)
    ensures i < BucketCount(side)
  {
    Mix(MixAll(SeedOf(side), a.ip), a.port) % BucketCount(side)
  }

  method ComputeBucketIndex(a: Addr, side: Side) returns (i: nat)
    ensures i == BucketIndex(a, side)
  {
    var hash := SeedOf(side);
    var j := 0;
    while j < |a.ip|
      invariant 0 <= j <= |a.ip|
      invariant hash == MixAll(SeedOf(side), a.ip[..j])
    {
      assert a.ip[..j + 1][..j] == a.ip[..j];
      hash := Mix(hash, a.ip[j]);
      j := j + 1;
    }
    assert a.ip[..j] == a.ip;
    i := Mix(hash, a.port) % BucketCount(side);
  }

  /** A coin decides between the sides when both have something to offer. */
  function ChooseSide(newNonempty: bool, triedNonempty: bool, pickTried: bool): (side: Option<Side>)
    ensures side.None? <==> !newNonempty && !triedNonempty
    ensures side == Some(New) ==> newNonempty
    ensures side == Some(Tried) ==> triedNonempty
  {
    if newNonempty && triedNonempty then Some(if pickTried then Tried else New)
    else if triedNonempty then Some(Tried)
    else if newNonempty then Some(New)
    else None
  }

  /** Unseen for a month, dated too far ahead, or failing without a single success. */
  predicate IsTerribleRecord(lastSeen: nat, advertised: nat, now: nat, failures: nat, successes: nat) {
    || lastSeen == 0 || SatSub(now, lastSeen) > TERRIBLE_UNSEEN_SECS
    || (advertised != 0 && advertised > now + TERRIBLE_FUTURE_SKEW_SECS)
    || (failures >= TERRIBLE_FAILURES && successes == 0)
  }

  datatype Attempt = Attempt(failures: nat, successes: nat)

  datatype Anchor = Anchor(addr: Addr, seen: nat)

  type Buckets = seq<seq<Addr>>

  datatype Table = Table(untried: Buckets, tried: Buckets, attempts: map<Addr, Attempt>, anchors: seq<Anchor>)

  function EmptyTable(): Table {
    Table(seq(NEW_BUCKETS, i => []), seq(TRIED_BUCKETS, i => []), map[], [])
  }

  predicate Contains(b: Buckets, a: Addr) {
    exists i :: 0 <= i < |b| && a in b[i]
  }

  function BucketsOf(t: Table, side: Side): Buckets {
    if side == New then t.untried else t.tried
  }

  // ---------------------------------------------------------------------------
  // The operations
  // ---------------------------------------------------------------------------

  /** The first slot whose address is terrible, or the length of the bucket. */
  function FirstTerrible(bucket: seq<Addr>, terrible: Addr -> bool): (slot: nat)
    ensures slot <= |bucket|
    ensures slot < |bucket| ==> terrible(bucket[slot])
    ensures forall j :: 0 <= j < slot ==> !terrible(bucket[j])
  {
    if bucket == [] || terrible(bucket[0]) then 0 else 1 + FirstTerrible(bucket[1..], terrible)
  }

  function InsertCapped(bucket: seq<Addr>, a: Addr, terrible: Addr -> bool): (r: seq<Addr>) {
    if a in bucket then bucket
    else if |bucket| < BUCKET_SIZE then bucket + [a]
    else
      var slot := FirstTerrible(bucket, terrible);
      if slot < |bucket| then bucket[slot := a] else bucket
  }

  function Without(bucket: seq<Addr>, a: Addr): seq<Addr> {
    Filter(x => x != a, bucket)
  }

  function Purged(b: Buckets, a: Addr): Buckets {
    seq(|b|, i requires 0 <= i < |b| => Without(b[i], a))
  }

  function Placed(b: Buckets, side: Side, a: Addr, terrible: Addr -> bool): Buckets {
    var i := BucketIndex(a, side);
    if i < |b| then b[i := InsertCapped(b[i], a, terrible)] else b
  }

  function PlaceNew(t: Table, a: Addr, terrible: Addr -> bool): Table {
    if Contains(t.tried, a) || Contains(t.untried, a) then t else t.(untried := Placed(t.untried, New, a, terrible))
  }

  function PromoteTried(t: Table, a: Addr, terrible: Addr -> bool): Table {
    var purged := t.(untried := Purged(t.untried, a));
    if Contains(t.tried, a) then purged else purged.(tried := Placed(t.tried, Tried, a, terrible))
  }

  function SatInc32(n: nat): nat {
    if n < U32_MAX then n + 1 else n
  }

  function NoteAttempt(t: Table, a: Addr, success: bool): Table {
    var counts := AttemptCounts(t, a);
    t.(attempts := t.attempts[a := if success then counts.(successes := SatInc32(counts.successes))
                                   else counts.(failures := SatInc32(counts.failures))])
  }

  function AttemptCounts(t: Table, a: Addr): Attempt {
    if a in t.attempts then t.attempts[a] else Attempt(0, 0)
  }

  function Remove(t: Table, a: Addr): Table {
    Table(Purged(t.untried, a), Purged(t.tried, a), t.attempts - {a}, Filter((x: Anchor) => x.addr != a, t.anchors))
  }

  function RememberAnchor(t: Table, a: Addr, now: nat): Table {
    var kept := Filter((x: Anchor) => x.addr != a && SatSub(now, x.seen) <= ANCHOR_KEEP_SECS, t.anchors);
    var all := [Anchor(a, now)] + kept;
    t.(anchors := if |all| <= MAX_ANCHORS then all else all[..MAX_ANCHORS])
  }

  function DropOldAnchors(t: Table, now: nat): Table {
    t.(anchors := Filter((x: Anchor) => SatSub(now, x.seen) <= ANCHOR_KEEP_SECS, t.anchors))
  }

  // ---------------------------------------------------------------------------
  // The table invariant
  // ---------------------------------------------------------------------------

  /** Bucket `i` is capped, lists each address once, and only addresses whose hash names it. */
  ghost predicate BucketOk(side: Side, bucket: seq<Addr>, i: nat) {
    |bucket| <= BUCKET_SIZE && Distinct(bucket) && forall a :: a in bucket ==> BucketIndex(a, side) == i
  }

  ghost predicate BucketsOk(side: Side, b: Buckets) {
    |b| == BucketCount(side) && forall i :: 0 <= i < |b| ==> BucketOk(side, b[i], i)
  }

  ghost predicate AnchorsOk(anchors: seq<Anchor>) {
    |anchors| <= MAX_ANCHORS && DistinctAnchors(anchors)
  }

  ghost predicate DistinctAnchors(anchors: seq<Anchor>) {
    forall i, j :: 0 <= i < j < |anchors| ==> anchors[i].addr != anchors[j].addr
  }

  ghost predicate TableInv(t: Table) {
    && BucketsOk(New, t.untried) && BucketsOk(Tried, t.tried) && AnchorsOk(t.anchors)
    && (forall a :: Contains(t.untried, a) ==> !Contains(t.tried, a))
  }

  /** Scanning the whole table finds an address exactly when its own bucket holds it. */
  lemma ScanIsOneBucket(side: Side, b: Buckets, a: Addr)
    requires BucketsOk(side, b)
    ensures Contains(b, a) <==> a in b[BucketIndex(a, side)]
  {
    if Contains(b, a) {
      var i :| 0 <= i < |b| && a in b[i];
      assert BucketOk(side, b[i], i);
    }
  }

  lemma EmptyTableInv()
    ensures TableInv(EmptyTable())
  {
    var t := EmptyTable();
    forall i | 0 <= i < |t.untried| ensures BucketOk(New, t.untried[i], i) {
    }
    forall i | 0 <= i < |t.tried| ensures BucketOk(Tried, t.tried[i], i) {
    }
  }

  /** What an insertion does to a bucket: nothing, one more, or one terrible address replaced. */
  lemma InsertCappedEffect(bucket: seq<Addr>, a: Addr, terrible: Addr -> bool, x: Addr)
    requires Distinct(bucket)
    ensures var r := InsertCapped(bucket, a, terrible);
            var slot := FirstTerrible(bucket, terrible);
            var replaced := a !in bucket && |bucket| >= BUCKET_SIZE && slot < |bucket|;
            && (a in r <==> a in bucket || |bucket| < BUCKET_SIZE || slot < |bucket|)
            && (x != a ==> (x in r <==> x in bucket && !(replaced && x == bucket[slot])))
  {
    var r := InsertCapped(bucket, a, terrible);
    var slot := FirstTerrible(bucket, terrible);
    if a !in bucket && |bucket| >= BUCKET_SIZE && slot < |bucket| {
      assert r[slot] == a;
      if x in bucket {
        var j :| 0 <= j < |bucket| && bucket[j] == x;
        assert j != slot ==> r[j] == x;
      }
    }
  }

  lemma PurgedOk(side: Side, b: Buckets, a: Addr)
    requires BucketsOk(side, b)
    ensures BucketsOk(side, Purged(b, a))
    ensures forall x :: Contains(Purged(b, a), x) <==> Contains(b, x) && x != a
  {
    var r := Purged(b, a);
    forall i | 0 <= i < |r| ensures BucketOk(side, r[i], i) {
      FilterKeepsDistinct(x => x != a, b[i]);
    }
    forall x ensures Contains(r, x) <==> Contains(b, x) && x != a {
      if Contains(b, x) && x != a {
        var i :| 0 <= i < |b| && x in b[i];
        assert x in r[i];
      }
    }
  }

  lemma PlaceNewKeepsInv(t: Table, a: Addr, terrible: Addr -> bool)
    requires TableInv(t)
    ensures TableInv(PlaceNew(t, a, terrible))
  {
  }

  lemma PromoteTriedKeepsInv(t: Table, a: Addr, terrible: Addr -> bool)
    requires TableInv(t)
    ensures TableInv(PromoteTried(t, a, terrible))
  {
    PurgedOk(New, t.untried, a);
  }

  lemma AnchorFilterOk(keep: Anchor -> bool, anchors: seq<Anchor>)
    requires AnchorsOk(anchors)
    ensures AnchorsOk(Filter(keep, anchors))
  {
  }

  lemma RememberAnchorOk(t: Table, a: Addr, now: nat)
    requires AnchorsOk(t.anchors)
    ensures AnchorsOk(RememberAnchor(t, a, now).anchors) && RememberAnchor(t, a, now).anchors[0] == Anchor(a, now)
  {
    var keep := (x: Anchor) => x.addr != a && SatSub(now, x.seen) <= ANCHOR_KEEP_SECS;
    AnchorFilterOk(keep, t.anchors);
    var kept := Filter(keep, t.anchors);
    forall i | 0 <= i < |kept| ensures kept[i].addr != a {
      assert kept[i] in kept;
    }
  }

  lemma RemoveKeepsInv(t: Table, a: Addr)
    requires TableInv(t)
    ensures TableInv(Remove(t, a)) && !Contains(Remove(t, a).untried, a) && !Contains(Remove(t, a).tried, a)
  {
    PurgedOk(New, t.untried, a);
    PurgedOk(Tried, t.tried, a);
    AnchorFilterOk((x: Anchor) => x.addr != a, t.anchors);
  }

  datatype TableOp =
    | Place(addr: Addr, terrible: Addr -> bool) | Promote(addr: Addr, terrible: Addr -> bool)
    | Attempted(addr: Addr, success: bool) | Drop(addr: Addr) | Remember(addr: Addr, now: nat) | Anchors(now: nat)

  function ApplyTo(t: Table, op: TableOp): Table {
    match op
    case Place(a, terrible) => PlaceNew(t, a, terrible)
    case Promote(a, terrible) => PromoteTried(t, a, terrible)
    case Attempted(a, success) => NoteAttempt(t, a, success)
    case Drop(a) => Remove(t, a)
    case Remember(a, now) => RememberAnchor(t, a, now)
    case Anchors(now) => DropOldAnchors(t, now)
  }

  function Run(t: Table, ops: seq<TableOp>): Table
    decreases ops
  {
    if ops == [] then t else Run(ApplyTo(t, ops[0]), ops[1..])
  }

  /** Every run of table operations, whatever counts as terrible at each, keeps the invariant. */
  lemma {:induction false} RunKeepsInv(t: Table, ops: seq<TableOp>)
    requires TableInv(t)
    ensures TableInv(Run(t, ops))
    decreases ops
  {
    if ops != [] {
      match ops[0] {
        case Place(a, terrible) => PlaceNewKeepsInv(t, a, terrible);
        case Promote(a, terrible) => PromoteTriedKeepsInv(t, a, terrible);
        case Attempted(_, _) =>
        case Drop(a) => RemoveKeepsInv(t, a);
        case Remember(a, now) => RememberAnchorOk(t, a, now);
        case Anchors(now) => AnchorFilterOk((x: Anchor) => SatSub(now, x.seen) <= ANCHOR_KEEP_SECS, t.anchors);
      }
      RunKeepsInv(ApplyTo(t, ops[0]), ops[1..]);
    }
  }

  // ---------------------------------------------------------------------------
  // Where an address ends up
  // ---------------------------------------------------------------------------

  predicate HasRoom(bucket: seq<Addr>, terrible: Addr -> bool) {
    |bucket| < BUCKET_SIZE || FirstTerrible(bucket, terrible) < |bucket|
  }

  /** A new address is kept exactly when it was known or its bucket has room or a terrible slot. */
  lemma PlaceNewOutcome(t: Table, a: Addr, terrible: Addr -> bool)
    requires TableInv(t)
    ensures var r := PlaceNew(t, a, terrible);
            && r.tried == t.tried
            && (Contains(r.untried, a) <==>
                  Contains(t.untried, a) || (!Contains(t.tried, a) && HasRoom(t.untried[BucketIndex(a, New)], terrible)))
  {
    PlaceNewKeepsInv(t, a, terrible);
    ScanIsOneBucket(New, t.untried, a);
    ScanIsOneBucket(New, PlaceNew(t, a, terrible).untried, a);
    InsertCappedEffect(t.untried[BucketIndex(a, New)], a, terrible, a);
  }

  /** Promotion always leaves the new table, and drops the address from both exactly when its tried bucket is full of good ones. */
  lemma PromoteTriedOutcome(t: Table, a: Addr, terrible: Addr -> bool)
    requires TableInv(t)
    ensures var r := PromoteTried(t, a, terrible);
            && !Contains(r.untried, a)
            && (Contains(r.tried, a) <==> Contains(t.tried, a) || HasRoom(t.tried[BucketIndex(a, Tried)], terrible))
  {
    PurgedOk(New, t.untried, a);
    PromoteTriedKeepsInv(t, a, terrible);
    ScanIsOneBucket(Tried, t.tried, a);
    ScanIsOneBucket(Tried, PromoteTried(t, a, terrible).tried, a);
    InsertCappedEffect(t.tried[BucketIndex(a, Tried)], a, terrible, a);
  }

  /** Every address of one side, bucket by bucket. */
  function Addrs(b: Buckets): seq<Addr> {
    if b == [] then [] else Addrs(b[..|b| - 1]) + b[|b| - 1]
  }

  lemma {:induction false} AddrsAreContents(b: Buckets, a: Addr)
    ensures a in Addrs(b) <==> Contains(b, a)
  {
    if b != [] {
      var front := b[..|b| - 1];
      AddrsAreContents(front, a);
      if Contains(b, a) {
        var i :| 0 <= i < |b| && a in b[i];
        if i < |front| {
          assert a in front[i];
        }
      }
      if Contains(front, a) {
        var i :| 0 <= i < |front| && a in front[i];
        assert a in b[i];
      }
    }
  }

  /** No address is listed twice, because each is only in the bucket its hash names. */
  lemma {:induction false} AddrsDistinct(side: Side, b: Buckets)
    requires forall i :: 0 <= i < |b| ==> BucketOk(side, b[i], i)
    ensures Distinct(Addrs(b))
  {
    if b != [] {
      var front, last := b[..|b| - 1], b[|b| - 1];
      AddrsDistinct(side, front);
      forall x | x in last ensures x !in Addrs(front) {
        AddrsAreContents(front, x);
        assert BucketOk(side, last, |b| - 1);
        forall i | 0 <= i < |front| ensures x !in front[i] {
          assert BucketOk(side, b[i], i);
        }
      }
      assert BucketOk(side, last, |b| - 1);
      ConcatDistinct(Addrs(front), last);
    }
  }

  // ---------------------------------------------------------------------------
  // The table as an object
  // ---------------------------------------------------------------------------

  class AddressBuckets {
    var untried: Buckets
    var tried: Buckets
    var attempts: map<Addr, Attempt>
    var anchors: seq<Anchor>

    ghost function View(): Table
      reads this
    {
      Table(untried, tried, attempts, anchors)
    }

    constructor ()
      ensures View() == EmptyTable() && TableInv(View())
    {
      untried := seq(NEW_BUCKETS, i => []);
      tried := seq(TRIED_BUCKETS, i => []);
      attempts := map[];
      anchors := [];
      new;
      EmptyTableInv();
      assert untried == EmptyTable().untried && tried == EmptyTable().tried;
    }

    method PurgeNew(a: Addr)
      modifies `untried
      ensures untried == Purged(old(untried), a)
    {
      var i := 0;
      while i < |untried|
        invariant 0 <= i <= |untried| == |old(untried)|
        invariant forall j :: 0 <= j < |untried| ==> untried[j] == if j < i then Without(old(untried)[j], a) else old(untried)[j]
      {
        untried := untried[i := Without(untried[i], a)];
        i := i + 1;
      }
    }

    method PurgeTried(a: Addr)
      modifies `tried
      ensures tried == Purged(old(tried), a)
    {
      var i := 0;
      while i < |tried|
        invariant 0 <= i <= |tried| == |old(tried)|
        invariant forall j :: 0 <= j < |tried| ==> tried[j] == if j < i then Without(old(tried)[j], a) else old(tried)[j]
      {
        tried := tried[i := Without(tried[i], a)];
        i := i + 1;
      }
    }

    method Place(a: Addr, terrible: Addr -> bool)
      requires |untried| == NEW_BUCKETS
      modifies `untried
      ensures View() == PlaceNew(old(View()), a, terrible)
    {
      if Contains(tried, a) || Contains(untried, a) {
        return;
      }
      var i := ComputeBucketIndex(a, New);
      untried := untried[i := InsertCapped(untried[i], a, terrible)];
    }

    method Promote(a: Addr, terrible: Addr -> bool)
      requires |tried| == TRIED_BUCKETS
      modifies `untried, `tried
      ensures View() == PromoteTried(old(View()), a, terrible)
    {
      PurgeNew(a);
      if Contains(tried, a) {
        return;
      }
      var i := ComputeBucketIndex(a, Tried);
      tried := tried[i := InsertCapped(tried[i], a, terrible)];
    }

    method Note(a: Addr, success: bool)
      modifies `attempts
      ensures View() == NoteAttempt(old(View()), a, success)
    {
      if a !in attempts {
        attempts := attempts[a := Attempt(0, 0)];
      }
      if success {
        attempts := attempts[a := attempts[a].(successes := SatInc32(attempts[a].successes))];
      } else {
        attempts := attempts[a := attempts[a].(failures := SatInc32(attempts[a].failures))];
      }
    }

    method RemoveAddr(a: Addr)
      modifies this
      ensures View() == Remove(old(View()), a)
    {
      PurgeNew(a);
      PurgeTried(a);
      attempts := attempts - {a};
      anchors := Filter((x: Anchor) => x.addr != a, anchors);
    }

    method Remember(a: Addr, now: nat)
      modifies `anchors
      ensures View() == RememberAnchor(old(View()), a, now)
    {
      anchors := Filter((x: Anchor) => x.addr != a && SatSub(now, x.seen) <= ANCHOR_KEEP_SECS, anchors);
      anchors := [Anchor(a, now)] + anchors;
      if |anchors| > MAX_ANCHORS {
        anchors := anchors[..MAX_ANCHORS];
      }
    }

    /** The anchors still kept, newest first; older ones are dropped on the way. */
    method AnchorsNow(now: nat) returns (addrs: seq<Addr>)
      modifies `anchors
      ensures View() == DropOldAnchors(old(View()), now)
      ensures |addrs| == |anchors| && forall i :: 0 <= i < |addrs| ==> addrs[i] == anchors[i].addr
    {
      anchors := Filter((x: Anchor) => SatSub(now, x.seen) <= ANCHOR_KEEP_SECS, anchors);
      var kept := anchors;
      addrs := seq(|kept|, i requires 0 <= i < |kept| => kept[i].addr);
    }

    method AllOn(side: Side) returns (all: seq<Addr>)
      ensures all == Addrs(BucketsOf(View(), side))
    {
      var b := if side == New then untried else tried;
      all := [];
      var i := 0;
      while i < |b|
        invariant 0 <= i <= |b|
        invariant all == Addrs(b[..i])
      {
        assert b[..i + 1][..i] == b[..i];
        all := all + b[i];
        i := i + 1;
      }
      assert b[..i] == b;
    }
  }
}
