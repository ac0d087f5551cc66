/**
 Full buckets are reached: addresses of one host whose ports agree modulo the number of buckets
 share a bucket, and 64 of them fill it.  Runs from the empty database to a bucket of the new
 side blocked by expired rows, and to a promotion that drops its address from both sides.
 */
module AddressCrowd {
  import opened Prelude
  import opened Sorting
  import opened AddressTable
  import opened AddressDatabase

  // ---------------------------------------------------------------------------
  // Ports that share a bucket
  // ---------------------------------------------------------------------------

  lemma AddMultiple(x: nat, c: nat, n: nat)
    requires c == NEW_BUCKETS || c == TRIED_BUCKETS
    ensures (x + c * n) % c == x % c
  {
  }

  /** The number of buckets divides 2^64, so wrapping around does not move an address. */
  lemma WrapKeepsBucket(x: nat, c: nat)
    requires c == NEW_BUCKETS || c == TRIED_BUCKETS
    ensures (x % (U64_MAX + 1)) % c == x % c
  {
    var q, r := x / (U64_MAX + 1), x % (U64_MAX + 1);
    if c == NEW_BUCKETS {
      assert x == r + NEW_BUCKETS * (0x40_0000_0000_0000 * q);
      AddMultiple(r, NEW_BUCKETS, 0x40_0000_0000_0000 * q);
    } else {
      assert x == r + TRIED_BUCKETS * (0x100_0000_0000_0000 * q);
      AddMultiple(r, TRIED_BUCKETS, 0x100_0000_0000_0000 * q);
    }
  }

  /** The `k`-th address of the crowd of a host. */
  function Member(ip: seq<nat>, port: nat, side: Side, k: nat): Addr {
    Addr(ip, port + BucketCount(side) * k)
  }

  function Crowd(ip: seq<nat>, port: nat, side: Side, n: nat): (r: seq<Addr>)
    ensures |r| == n && forall k :: 0 <= k < n ==> r[k] == Member(ip, port, side, k)
  {
    seq(n, k requires 0 <= k < n => Member(ip, port, side, k))
  }

  lemma MembersShareABucket(ip: seq<nat>, port: nat, side: Side, k: nat)
    ensures BucketIndex(Member(ip, port, side, k), side) == BucketIndex(Addr(ip, port), side)
  {
    var c, h := BucketCount(side), MixAll(SeedOf(side), ip) * 0x0100_0000_01b3;
    WrapKeepsBucket(h + port, c);
    WrapKeepsBucket(h + (port + c * k), c);
    AddMultiple(h + port, c, k);
  }

  lemma NextIsNew(ip: seq<nat>, port: nat, side: Side, n: nat)
    ensures Member(ip, port, side, n) !in Crowd(ip, port, side, n)
    ensures Crowd(ip, port, side, n + 1) == Crowd(ip, port, side, n) + [Member(ip, port, side, n)]
  {
    forall k | 0 <= k < n ensures Crowd(ip, port, side, n)[k] != Member(ip, port, side, n) {
      assert BucketCount(side) * k < BucketCount(side) * n;
    }
  }

  /** One bucket holds the crowd and all others are empty. */
  ghost predicate OnlyCrowd(b: Buckets, ip: seq<nat>, port: nat, side: Side, n: nat) {
    var i := BucketIndex(Addr(ip, port), side);
    |b| == BucketCount(side) && b[i] == Crowd(ip, port, side, n) && forall j :: 0 <= j < |b| && j != i ==> b[j] == []
  }

  ghost predicate AllEmpty(b: Buckets) {
    forall j :: 0 <= j < |b| ==> b[j] == []
  }

  /** With room in the bucket, the next member joins. */
  lemma NextJoins(b: Buckets, ip: seq<nat>, port: nat, side: Side, n: nat, terrible: Addr -> bool)
    requires OnlyCrowd(b, ip, port, side, n) && n < BUCKET_SIZE
    ensures var a := Member(ip, port, side, n); !Contains(b, a) && OnlyCrowd(Placed(b, side, a, terrible), ip, port, side, n + 1)
  {
    MembersShareABucket(ip, port, side, n);
    NextIsNew(ip, port, side, n);
  }

  // ---------------------------------------------------------------------------
  // A blocked bucket
  // ---------------------------------------------------------------------------

  /** How a peer's 16 address bytes appear in the table. */
  function HostOf(net: seq<nat>): seq<nat> {
    ToSocket(NetAddr(0, net, 0, 0)).ip
  }

  function EmptyDb(maxAddresses: nat, expiration: nat): Db {
    Db(map[], EmptyTable(), maxAddresses, expiration)
  }

  /** The `k`-th address is advertised at `now`; nothing has to be evicted for it. */
  function AddMember(net: seq<nat>, port: nat, k: nat, now: nat): Op {
    Add(NetAddr(0, net, port + NEW_BUCKETS * k, now), 1, now, Addr(HostOf(net), port))
  }

  function AddCrowd(net: seq<nat>, port: nat, n: nat, now: nat): seq<Op> {
    if n == 0 then [] else AddCrowd(net, port, n - 1, now) + [AddMember(net, port, n - 1, now)]
  }

  ghost function Members(ip: seq<nat>, port: nat, n: nat): set<Addr> {
    set a | a in Crowd(ip, port, New, n)
  }

  /** The database after `n` of them. */
  ghost predicate Crowded(db: Db, ip: seq<nat>, port: nat, n: nat, now: nat) {
    && OnlyCrowd(db.table.untried, ip, port, New, n) && AllEmpty(db.table.tried)
    && |db.entries| <= n && db.entries.Keys == Members(ip, port, n)
    && (forall a :: a in db.entries ==> db.entries[a].lastSeen == now)
  }

  lemma OldestIsFirst(db: Db, net: seq<nat>, port: nat, n: nat, now: nat)
    requires Crowded(db, HostOf(net), port, n, now)
    ensures VictimOk(db, AddMember(net, port, n, now))
  {
    if n > 0 {
      var first := Crowd(HostOf(net), port, New, n)[0];
      assert first in db.entries.Keys && first == Addr(HostOf(net), port);
    }
  }

  /** The database with the entry of the next member stored and not yet placed. */
  ghost function Stored(db: Db, net: seq<nat>, port: nat, n: nat, now: nat): Db {
    db.(entries := db.entries[Member(HostOf(net), port, New, n) := NewEntry(NetAddr(0, net, port + NEW_BUCKETS * n, now), 1, now)])
  }

  lemma AddMemberStores(db: Db, net: seq<nat>, port: nat, n: nat, now: nat)
    requires Crowded(db, HostOf(net), port, n, now) && n < BUCKET_SIZE <= db.maxAddresses && now > 0
    ensures Member(HostOf(net), port, New, n) !in db.entries
    ensures Apply(db, AddMember(net, port, n, now)) == PlaceSocket(Stored(db, net, port, n, now), Member(HostOf(net), port, New, n), now)
  {
    NextIsNew(HostOf(net), port, New, n);
    assert Member(HostOf(net), port, New, n) !in db.entries.Keys;
    assert ToSocket(NetAddr(0, net, port + NEW_BUCKETS * n, now)) == Member(HostOf(net), port, New, n);
  }

  lemma StoredIsCrowd(db: Db, net: seq<nat>, port: nat, n: nat, now: nat)
    requires Crowded(db, HostOf(net), port, n, now) && Member(HostOf(net), port, New, n) !in db.entries
    ensures var e := Stored(db, net, port, n, now).entries;
            |e| <= n + 1 && e.Keys == Members(HostOf(net), port, n + 1) && forall a :: a in e ==> e[a].lastSeen == now
  {
    var s, e := Member(HostOf(net), port, New, n), Stored(db, net, port, n, now).entries;
    NextIsNew(HostOf(net), port, New, n);
    assert e.Keys == db.entries.Keys + {s};
  }

  lemma AddCrowdStep(db: Db, net: seq<nat>, port: nat, n: nat, now: nat)
    requires Crowded(db, HostOf(net), port, n, now) && n < BUCKET_SIZE <= db.maxAddresses && now > 0
    ensures Crowded(Apply(db, AddMember(net, port, n, now)), HostOf(net), port, n + 1, now)
  {
    var stored := Stored(db, net, port, n, now);
    AddMemberStores(db, net, port, n, now);
    StoredIsCrowd(db, net, port, n, now);
    NextJoins(db.table.untried, HostOf(net), port, New, n, x => Replaceable(stored, now, x));
  }

  lemma {:induction false} RunSnoc(db: Db, ops: seq<Op>, op: Op)
    ensures RunDb(db, ops + [op]) == Apply(RunDb(db, ops), op)
    ensures VictimsOk(db, ops + [op]) <==> VictimsOk(db, ops) && VictimOk(RunDb(db, ops), op)
    decreases ops
  {
    if ops == [] {
      assert [op][1..] == [] && [] + [op] == [op];
    } else {
      assert (ops + [op])[1..] == ops[1..] + [op];
      RunSnoc(Apply(db, ops[0]), ops[1..], op);
    }
  }

  /** A run that leads to the crowd of `n`. */
  ghost predicate LeadsToCrowd(db: Db, ops: seq<Op>, ip: seq<nat>, port: nat, n: nat, now: nat) {
    var r := RunDb(db, ops);
    VictimsOk(db, ops) && Crowded(r, ip, port, n, now) && r.maxAddresses == db.maxAddresses && r.expiration == db.expiration
  }

  lemma CrowdSnoc(db: Db, ops: seq<Op>, net: seq<nat>, port: nat, n: nat, now: nat)
    requires LeadsToCrowd(db, ops, HostOf(net), port, n, now) && n < BUCKET_SIZE <= db.maxAddresses && now > 0
    ensures LeadsToCrowd(db, ops + [AddMember(net, port, n, now)], HostOf(net), port, n + 1, now)
  {
    var before := RunDb(db, ops);
    RunSnoc(db, ops, AddMember(net, port, n, now));
    OldestIsFirst(before, net, port, n, now);
    AddCrowdStep(before, net, port, n, now);
    AddMemberStores(before, net, port, n, now);
  }

  lemma NoCrowdYet(net: seq<nat>, port: nat, now: nat, maxAddresses: nat, expiration: nat)
    ensures LeadsToCrowd(EmptyDb(maxAddresses, expiration), [], HostOf(net), port, 0, now)
  {
    assert Crowd(HostOf(net), port, New, 0) == [];
  }

  lemma {:induction false} CrowdIsReached(net: seq<nat>, port: nat, n: nat, now: nat, maxAddresses: nat, expiration: nat)
    requires n <= BUCKET_SIZE <= maxAddresses && now > 0
    ensures LeadsToCrowd(EmptyDb(maxAddresses, expiration), AddCrowd(net, port, n, now), HostOf(net), port, n, now)
  {
    if n == 0 {
      NoCrowdYet(net, port, now, maxAddresses, expiration);
    } else {
      CrowdIsReached(net, port, n - 1, now, maxAddresses, expiration);
      assert AddCrowd(net, port, n, now) == AddCrowd(net, port, n - 1, now) + [AddMember(net, port, n - 1, now)];
      CrowdSnoc(EmptyDb(maxAddresses, expiration), AddCrowd(net, port, n - 1, now), net, port, n - 1, now);
    }
  }

  /** The 64 addresses are advertised, and their entries expire. */
  function BlockingRun(net: seq<nat>, port: nat, now: nat, expiration: nat): seq<Op> {
    AddCrowd(net, port, BUCKET_SIZE, now) + [Expire(now + expiration)]
  }

  /** From the empty database, for every host: a bucket full of rows without an entry. */
  lemma BlockedIsReached(net: seq<nat>, port: nat, now: nat, maxAddresses: nat, expiration: nat)
    requires BUCKET_SIZE <= maxAddresses && now > 0
    ensures var db := EmptyDb(maxAddresses, expiration);
            var ops := BlockingRun(net, port, now, expiration);
            var ip := HostOf(net);
            VictimsOk(db, ops) && Blocked(RunDb(db, ops), BucketIndex(Addr(ip, port), New), Crowd(ip, port, New, BUCKET_SIZE))
  {
    var db, ops := EmptyDb(maxAddresses, expiration), AddCrowd(net, port, BUCKET_SIZE, now);
    CrowdIsReached(net, port, BUCKET_SIZE, now, maxAddresses, expiration);
    RunSnoc(db, ops, Expire(now + expiration));
    var full := RunDb(db, ops);
    assert RemoveExpired(full, now + expiration).entries == map[];
  }

  // ---------------------------------------------------------------------------
  // A promotion that loses its address
  // ---------------------------------------------------------------------------

  function ConnectCrowd(ip: seq<nat>, port: nat, n: nat, now: nat): seq<Op> {
    if n == 0 then [] else ConnectCrowd(ip, port, n - 1, now) + [Connected(Member(ip, port, Tried, n - 1), now)]
  }

  ghost predicate ConnectedTo(db: Db, ip: seq<nat>, port: nat, n: nat) {
    db.entries == map[] && AllEmpty(db.table.untried) && |db.table.untried| == NEW_BUCKETS && OnlyCrowd(db.table.tried, ip, port, Tried, n)
  }

  lemma ConnectStep(db: Db, ip: seq<nat>, port: nat, n: nat, now: nat)
    requires ConnectedTo(db, ip, port, n) && n < BUCKET_SIZE
    ensures ConnectedTo(Apply(db, Connected(Member(ip, port, Tried, n), now)), ip, port, n + 1)
  {
    var a := Member(ip, port, Tried, n);
    var noted := db.(table := NoteAttempt(db.table, a, true));
    NextJoins(db.table.tried, ip, port, Tried, n, x => Replaceable(noted, now, x));
  }

  ghost predicate LeadsToConnected(db: Db, ops: seq<Op>, ip: seq<nat>, port: nat, n: nat) {
    var r := RunDb(db, ops);
    VictimsOk(db, ops) && ConnectedTo(r, ip, port, n) && r.maxAddresses == db.maxAddresses
  }

  lemma NoneConnectedYet(ip: seq<nat>, port: nat, maxAddresses: nat, expiration: nat)
    ensures LeadsToConnected(EmptyDb(maxAddresses, expiration), [], ip, port, 0)
  {
    assert Crowd(ip, port, Tried, 0) == [];
  }

  lemma ConnectSnoc(db: Db, ops: seq<Op>, ip: seq<nat>, port: nat, n: nat, now: nat)
    requires LeadsToConnected(db, ops, ip, port, n) && n < BUCKET_SIZE
    ensures LeadsToConnected(db, ops + [Connected(Member(ip, port, Tried, n), now)], ip, port, n + 1)
  {
    RunSnoc(db, ops, Connected(Member(ip, port, Tried, n), now));
    ConnectStep(RunDb(db, ops), ip, port, n, now);
  }

  lemma {:induction false} ConnectedIsReached(ip: seq<nat>, port: nat, n: nat, now: nat, maxAddresses: nat, expiration: nat)
    requires n <= BUCKET_SIZE
    ensures LeadsToConnected(EmptyDb(maxAddresses, expiration), ConnectCrowd(ip, port, n, now), ip, port, n)
  {
    if n == 0 {
      NoneConnectedYet(ip, port, maxAddresses, expiration);
    } else {
      ConnectedIsReached(ip, port, n - 1, now, maxAddresses, expiration);
      ConnectSnoc(EmptyDb(maxAddresses, expiration), ConnectCrowd(ip, port, n - 1, now), ip, port, n - 1, now);
    }
  }

  /** One more address of the crowd is advertised and goes to the new side. */
  function LastAdvert(net: seq<nat>, port: nat, now: nat): Op {
    Add(NetAddr(0, net, port + TRIED_BUCKETS * BUCKET_SIZE, now), 1, now, Addr([], 0))
  }

  /** With 64 connected addresses in its bucket, the next one is on the new side until it connects, and then on none. */
  lemma PromotionLosesItsAddress(net: seq<nat>, port: nat, now: nat, maxAddresses: nat, expiration: nat)
    requires maxAddresses > 0 && now > 0
    ensures var ip := HostOf(net);
            var a := Member(ip, port, Tried, BUCKET_SIZE);
            var ops := ConnectCrowd(ip, port, BUCKET_SIZE, now) + [LastAdvert(net, port, now)];
            var before, after := RunDb(EmptyDb(maxAddresses, expiration), ops), RunDb(EmptyDb(maxAddresses, expiration), ops + [Connected(a, now)]);
            && VictimsOk(EmptyDb(maxAddresses, expiration), ops + [Connected(a, now)])
            && a in before.entries && Contains(before.table.untried, a)
            && a in after.entries && !Contains(after.table.untried, a) && !Contains(after.table.tried, a)
  {
    var ip, db := HostOf(net), EmptyDb(maxAddresses, expiration);
    var a, connects := Member(ip, port, Tried, BUCKET_SIZE), ConnectCrowd(ip, port, BUCKET_SIZE, now);
    ConnectedIsReached(ip, port, BUCKET_SIZE, now, maxAddresses, expiration);
    RunSnoc(db, connects, LastAdvert(net, port, now));
    RunSnoc(db, connects + [LastAdvert(net, port, now)], Connected(a, now));
    var full := RunDb(db, connects);
    EmptyTableInv();
    RunKeepsDbInv(db, connects);
    AdvertIsPlaced(full, net, port, now);
    PromotionIntoFull(Apply(full, LastAdvert(net, port, now)), ip, port, now);
  }

  lemma AdvertIsPlaced(db: Db, net: seq<nat>, port: nat, now: nat)
    requires ConnectedTo(db, HostOf(net), port, BUCKET_SIZE) && DbInv(db) && db.maxAddresses > 0 && now > 0
    ensures var r := Apply(db, LastAdvert(net, port, now));
            var a := Member(HostOf(net), port, Tried, BUCKET_SIZE);
            TableInv(r.table) && r.entries.Keys == {a} && Contains(r.table.untried, a) && r.table.tried == db.table.tried
  {
    var ip, op := HostOf(net), LastAdvert(net, port, now);
    var a := Member(ip, port, Tried, BUCKET_SIZE);
    assert ToSocket(op.addr) == a;
    NextIsNew(ip, port, Tried, BUCKET_SIZE);
    ApplyKeepsInv(db, op);
    var stored := db.(entries := db.entries[a := FirstEntry(op.addr, 1, now)]);
    assert Apply(db, op) == PlaceSocket(stored, a, now);
    PlaceNewOutcome(db.table, a, x => Replaceable(stored, now, x));
    assert !Contains(db.table.tried, a);
  }

  lemma PromotionIntoFull(db: Db, ip: seq<nat>, port: nat, now: nat)
    requires TableInv(db.table) && OnlyCrowd(db.table.tried, ip, port, Tried, BUCKET_SIZE)
    requires db.entries.Keys == {Member(ip, port, Tried, BUCKET_SIZE)}
    ensures var a := Member(ip, port, Tried, BUCKET_SIZE);
            var r := Apply(db, Connected(a, now));
            a in r.entries && !Contains(r.table.untried, a) && !Contains(r.table.tried, a)
  {
    var a := Member(ip, port, Tried, BUCKET_SIZE);
    var noted := db.(table := NoteAttempt(db.table, a, true));
    var terrible := x => Replaceable(noted, now, x);
    MembersShareABucket(ip, port, Tried, BUCKET_SIZE);
    NextIsNew(ip, port, Tried, BUCKET_SIZE);
    var bucket := Crowd(ip, port, Tried, BUCKET_SIZE);
    assert forall j :: 0 <= j < |bucket| ==> bucket[j] in bucket && !terrible(bucket[j]);
    PromoteTriedOutcome(noted.table, a, terrible);
    assert !Contains(noted.table.tried, a);
  }
}
