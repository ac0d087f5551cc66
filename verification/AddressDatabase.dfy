/** The address database: stored entries, their buckets, and the choice of outbound peers. */
module AddressDatabase {
  import opened Prelude
  import opened Sorting
  import opened AddressTable

  const NODE_NETWORK: bv64 := 1
  const NODE_NETWORK_LIMITED: bv64 := 1024
  const ADDR_RELAY_HORIZON_SECS := 30 * 24 * 60 * 60

  /** An address as it travels: services, 16 bytes of IPv6 or IPv4-mapped IPv6, port, advertised time. */
  datatype NetAddr = NetAddr(services: bv64, ip: seq<nat>, port: nat, time: nat)

  datatype Entry = Entry(addr: NetAddr, firstSeen: nat, lastSeen: nat, services: bv64, seenCount: nat)

  datatype Db = Db(entries: map<Addr, Entry>, table: Table, maxAddresses: nat, expiration: nat)

  function ToSocket(a: NetAddr): Addr {
    if |a.ip| == 16 && a.ip[..12] == [0, 0, 0, 0, 0, 0, 0, 0, 0, 0, 0xff, 0xff] then Addr(a.ip[12..], a.port)
    else Addr(a.ip, a.port)
  }

  predicate WithinHorizon(time: nat, now: nat) {
    time != 0 && time <= now + 10 * 60 && SatSub(now, time) <= ADDR_RELAY_HORIZON_SECS
  }

  predicate IsFresh(e: Entry, expiration: nat, now: nat) {
    e.addr.time != 0 && e.addr.time <= now + 10 * 60 && SatSub(now, e.lastSeen) < expiration
  }

  predicate SocketIsTerrible(db: Db, a: Addr, now: nat) {
    a !in db.entries
    || var n := AttemptCounts(db.table, a);
       IsTerribleRecord(db.entries[a].lastSeen, db.entries[a].addr.time, now, n.failures, n.successes)
  }

  /** Replacement looks only at stored addresses: a bucket row without an entry is never offered up. */
  predicate Replaceable(db: Db, now: nat, a: Addr) {
    a in db.entries && SocketIsTerrible(db, a, now)
  }

  function NewEntry(a: NetAddr, services: bv64, now: nat): Entry {
    Entry(a, now, now, services, 1)
  }

  function Seen(e: Entry, now: nat): Entry {
    e.(lastSeen := now, seenCount := Wrap(e.seenCount + 1, U32_MAX))
  }

  function PlaceSocket(db: Db, a: Addr, now: nat): Db {
    db.(table := PlaceNew(db.table, a, x => Replaceable(db, now, x)))
  }

  predicate IsOldest(db: Db, a: Addr) {
    a in db.entries && forall x :: x in db.entries ==> db.entries[a].lastSeen <= db.entries[x].lastSeen
  }

  /** Evicts `victim`, one of the entries seen longest ago; nothing happens in an empty database. */
  function Evict(db: Db, victim: Addr): Db {
    if victim in db.entries then db.(entries := db.entries - {victim}, table := Remove(db.table, victim)) else db
  }

  function MakeRoom(db: Db, victim: Addr): Db {
    if |db.entries| >= db.maxAddresses then Evict(db, victim) else db
  }

  /** The entry a first advertisement is stored under. */
  function FirstEntry(a: NetAddr, services: bv64, now: nat): Entry {
    var e := NewEntry(a, services, now);
    if !WithinHorizon(a.time, now) && a.time != 0 && a.time <= now then e.(firstSeen := a.time, lastSeen := a.time) else e
  }

  function AddAddress(db: Db, a: NetAddr, services: bv64, now: nat, victim: Addr): Db {
    var s := ToSocket(a);
    if s in db.entries then
      if !WithinHorizon(a.time, now) then db
      else
        PlaceSocket(db.(entries := db.entries[s := Readvertised(db.entries[s], a.time, services, now)]), s, now)
    else
      var room := MakeRoom(db, victim);
      PlaceSocket(room.(entries := room.entries[s := FirstEntry(a, services, now)]), s, now)
  }

  /** Seen again through a DNS seed: the limited flag is cleared so the next handshake classifies the peer afresh. */
  function Reseeded(e: Entry, now: nat): Entry {
    Seen(e.(services := e.services & !NODE_NETWORK_LIMITED), now)
  }

  /** Advertised again within the horizon: services are merged only when the caller knows any. */
  function Readvertised(e: Entry, time: nat, services: bv64, now: nat): Entry {
    var seen := Seen(e.(addr := e.addr.(time := time)), now);
    if services != 0 then seen.(services := seen.services | services) else seen
  }

  function AddFromDnsSeed(db: Db, a: NetAddr, now: nat, victim: Addr): Db {
    var s := ToSocket(a);
    if s in db.entries then
      PlaceSocket(db.(entries := db.entries[s := Reseeded(db.entries[s], now)]), s, now)
    else
      var room := MakeRoom(db, victim);
      PlaceSocket(room.(entries := room.entries[s := NewEntry(a, 0, now)]), s, now)
  }

  function Promote(db: Db, a: Addr, now: nat): Db {
    var noted := db.(table := NoteAttempt(db.table, a, true));
    noted.(table := RememberAnchor(PromoteTried(noted.table, a, x => Replaceable(noted, now, x)), a, now))
  }

  /** Expiry forgets the entries and leaves their bucket rows behind. */
  function RemoveExpired(db: Db, now: nat): Db {
    db.(entries := map a | a in db.entries && IsFresh(db.entries[a], db.expiration, now) :: db.entries[a])
  }

  function RemoveAddress(db: Db, a: NetAddr): Db {
    db.(entries := db.entries - {ToSocket(a)}, table := Remove(db.table, ToSocket(a)))
  }

  /** All other entries stay as they were, except an evicted oldest one. */
  ghost predicate OthersKept(db: Db, r: Db, s: Addr, victim: Addr) {
    && (forall x :: x in r.entries && x != s ==> x in db.entries && r.entries[x] == db.entries[x])
    && (forall x :: x in db.entries && x != s && x !in r.entries ==>
          x == victim && |db.entries| >= db.maxAddresses && s !in db.entries)
  }

  predicate HasFlags(all: bv64, some: bv64) {
    all & some == some
  }

  lemma ReadvertisedEntry(e: Entry, time: nat, services: bv64, now: nat)
    ensures var r := Readvertised(e, time, services, now);
            && HasFlags(r.services, e.services) && HasFlags(r.services, services)
            && r.lastSeen == now && r.addr.time == time && r.firstSeen == e.firstSeen
  {
  }

  /** A known address: outside the horizon nothing changes, inside its time is renewed and flags are only added. */
  lemma KnownAddressOutcome(db: Db, a: NetAddr, services: bv64, now: nat, victim: Addr)
    requires ToSocket(a) in db.entries
    ensures var s := ToSocket(a);
            var r := AddAddress(db, a, services, now, victim);
            && r.entries.Keys == db.entries.Keys && OthersKept(db, r, s, victim)
            && (!WithinHorizon(a.time, now) ==> r == db)
            && (WithinHorizon(a.time, now) ==>
                  && r.entries[s].lastSeen == now && r.entries[s].addr.time == a.time
                  && HasFlags(r.entries[s].services, db.entries[s].services) && HasFlags(r.entries[s].services, services))
  {
    ReadvertisedEntry(db.entries[ToSocket(a)], a.time, services, now);
  }

  /** A new address is always stored, possibly for an evicted one, and an old advertisement is not taken for a sighting. */
  lemma NewAddressOutcome(db: Db, a: NetAddr, services: bv64, now: nat, victim: Addr)
    requires ToSocket(a) !in db.entries
    ensures var s := ToSocket(a);
            var r := AddAddress(db, a, services, now, victim);
            && s in r.entries && OthersKept(db, r, s, victim) && r.entries[s].services == services
            && r.entries[s].lastSeen ==
               if a.time != 0 && a.time <= now && !WithinHorizon(a.time, now) then a.time else now
  {
  }

  /** A DNS seed always stores the address and clears exactly the limited flag of a known one. */
  lemma DnsSeedOutcome(db: Db, a: NetAddr, now: nat, victim: Addr)
    ensures var s := ToSocket(a);
            var r := AddFromDnsSeed(db, a, now, victim);
            && s in r.entries && OthersKept(db, r, s, victim) && r.entries[s].lastSeen == now
            && r.entries[s].services & NODE_NETWORK_LIMITED == 0
            && (s in db.entries ==> r.entries[s].services | NODE_NETWORK_LIMITED == db.entries[s].services | NODE_NETWORK_LIMITED)
  {
  }

  // ---------------------------------------------------------------------------
  // Outbound selection
  // ---------------------------------------------------------------------------

  /** Full-history peers first, then unknown ones, then pruned ones. */
  function Rank(services: bv64): nat {
    if services == 0 then 1 else if services & NODE_NETWORK != 0 then 0 else 2
  }

  predicate Usable(db: Db, now: nat, a: Addr) {
    !SocketIsTerrible(db, a, now)
  }

  function AnyUsable(db: Db, side: Side, now: nat): bool {
    exists a :: a in Addrs(BucketsOf(db.table, side)) && Usable(db, now, a)
  }

  function RankOf(db: Db, a: Addr): nat {
    if a in db.entries then Rank(db.entries[a].services) else 3
  }

  function SeenAt(db: Db, a: Addr): nat {
    if a in db.entries then db.entries[a].lastSeen else 0
  }

  predicate Newer(db: Db, a: Addr, b: Addr) {
    SeenAt(db, a) >= SeenAt(db, b)
  }

  /** The usable addresses of one side in one group, most recently seen first. */
  function Group(db: Db, side: Side, now: nat, rank: nat): seq<Addr> {
    Sort((a: Addr, b: Addr) => Newer(db, a, b),
         Filter(a => Usable(db, now, a) && RankOf(db, a) == rank, Addrs(BucketsOf(db.table, side))))
  }

  function SideFor(db: Db, pickTried: bool, now: nat): Option<Side> {
    ChooseSide(AnyUsable(db, New, now), AnyUsable(db, Tried, now), pickTried)
  }

  function SelectSockets(db: Db, count: nat, pickTried: bool, now: nat): seq<Addr> {
    var side := SideFor(db, pickTried, now);
    if side.None? then []
    else
      var all := AllGroups(db, side.value, now);
      if |all| <= count then all else all[..count]
  }

  ghost function UsableOn(db: Db, side: Side, now: nat): set<Addr> {
    set a | a in Addrs(BucketsOf(db.table, side)) && Usable(db, now, a)
  }

  /** Before or beside in the order of selection: better group, or same group and seen no earlier. */
  predicate Before(db: Db, a: Addr, b: Addr) {
    RankOf(db, a) < RankOf(db, b) || (RankOf(db, a) == RankOf(db, b) && Newer(db, a, b))
  }

  lemma GroupIsOrdered(db: Db, side: Side, now: nat, rank: nat)
    requires BucketsOk(side, BucketsOf(db.table, side))
    ensures var g := Group(db, side, now, rank);
            && Distinct(g) && Sorted((a: Addr, b: Addr) => Newer(db, a, b), g)
            && (forall a :: a in g <==> a in UsableOn(db, side, now) && RankOf(db, a) == rank)
  {
    var all := Addrs(BucketsOf(db.table, side));
    var keep := a => Usable(db, now, a) && RankOf(db, a) == rank;
    var le := (a: Addr, b: Addr) => Newer(db, a, b);
    AddrsDistinct(side, BucketsOf(db.table, side));
    FilterKeepsDistinct(keep, all);
    SortKeepsDistinct(le, Filter(keep, all));
    SortKeepsElements(le, Filter(keep, all));
    SortSorted(le, Filter(keep, all));
  }

  ghost predicate Ordered(db: Db, s: seq<Addr>) {
    forall i, j :: 0 <= i < j < |s| ==> Before(db, s[i], s[j])
  }

  function AllGroups(db: Db, side: Side, now: nat): seq<Addr> {
    Group(db, side, now, 0) + Group(db, side, now, 1) + Group(db, side, now, 2)
  }

  /** Rows of group `rank` in the order the selection wants. */
  ghost predicate InGroup(db: Db, g: seq<Addr>, rank: nat) {
    Distinct(g) && Ordered(db, g) && forall i :: 0 <= i < |g| ==> RankOf(db, g[i]) == rank
  }

  lemma GroupInOrder(db: Db, side: Side, now: nat, rank: nat)
    requires BucketsOk(side, BucketsOf(db.table, side))
    ensures InGroup(db, Group(db, side, now, rank), rank)
    ensures forall a :: a in Group(db, side, now, rank) <==> a in UsableOn(db, side, now) && RankOf(db, a) == rank
  {
    GroupIsOrdered(db, side, now, rank);
    var g := Group(db, side, now, rank);
    var le := (a: Addr, b: Addr) => Newer(db, a, b);
    forall i | 0 <= i < |g| ensures RankOf(db, g[i]) == rank {
      assert g[i] in g;
    }
    forall i, j | 0 <= i < j < |g| ensures Before(db, g[i], g[j]) {
      assert le(g[i], g[j]);
    }
  }

  /** A group of better rank in front keeps the order. */
  lemma ConcatInOrder(db: Db, a: seq<Addr>, b: seq<Addr>, rank: nat)
    requires Distinct(a) && Ordered(db, a) && InGroup(db, b, rank)
    requires forall i :: 0 <= i < |a| ==> RankOf(db, a[i]) < rank
    ensures Distinct(a + b) && Ordered(db, a + b)
    ensures forall i :: 0 <= i < |a + b| ==> RankOf(db, (a + b)[i]) <= rank
  {
    forall x | x in b ensures x !in a {
      var j :| 0 <= j < |b| && b[j] == x;
    }
    ConcatDistinct(a, b);
    var c := a + b;
    forall i, j | 0 <= i < j < |c| ensures Before(db, c[i], c[j]) {
      if i < |a| <= j {
        assert c[i] == a[i] && c[j] == b[j - |a|];
      } else if j < |a| {
        assert c[i] == a[i] && c[j] == a[j];
      } else {
        assert c[i] == b[i - |a|] && c[j] == b[j - |a|];
      }
    }
  }

  lemma AllGroupsInOrder(db: Db, side: Side, now: nat)
    requires BucketsOk(side, BucketsOf(db.table, side))
    ensures Enumerates(AllGroups(db, side, now), UsableOn(db, side, now)) && Ordered(db, AllGroups(db, side, now))
  {
    var a, b, c := Group(db, side, now, 0), Group(db, side, now, 1), Group(db, side, now, 2);
    GroupInOrder(db, side, now, 0);
    GroupInOrder(db, side, now, 1);
    GroupInOrder(db, side, now, 2);
    ConcatInOrder(db, a, b, 1);
    ConcatInOrder(db, a + b, c, 2);
    forall x ensures x in UsableOn(db, side, now) <==> x in a + b + c {
    }
  }

  /** What a selection returns: usable addresses of one side, as many as asked for or available, best first. */
  ghost predicate BestOf(db: Db, side: Side, now: nat, count: nat, r: seq<Addr>) {
    && Distinct(r) && Ordered(db, r) && |r| == Min(count, |UsableOn(db, side, now)|)
    && (forall i :: 0 <= i < |r| ==> r[i] in UsableOn(db, side, now) && r[i] in db.entries)
    && (forall x, i :: x in UsableOn(db, side, now) && x !in r && 0 <= i < |r| ==> Before(db, r[i], x))
  }

  lemma PrefixIsBest(db: Db, side: Side, now: nat, count: nat, all: seq<Addr>)
    requires Enumerates(all, UsableOn(db, side, now)) && Ordered(db, all)
    ensures BestOf(db, side, now, count, if |all| <= count then all else all[..count])
  {
    var r := if |all| <= count then all else all[..count];
    DistinctHasSetSize(all, UsableOn(db, side, now));
    assert forall i :: 0 <= i < |r| ==> r[i] == all[i];
    forall i | 0 <= i < |r| ensures r[i] in UsableOn(db, side, now) && r[i] in db.entries {
      assert all[i] in all;
    }
    forall x, i | x in UsableOn(db, side, now) && x !in r && 0 <= i < |r| ensures Before(db, r[i], x) {
      var j :| 0 <= j < |all| && all[j] == x;
      assert Before(db, all[i], all[j]);
    }
  }

  /** The outcome of `select_outbound` on any database whose buckets are in order, stale rows included. */
  lemma SelectionIsBestOfOneSide(db: Db, count: nat, pickTried: bool, now: nat)
    requires TableInv(db.table)
    ensures var r := SelectSockets(db, count, pickTried, now);
            var side := SideFor(db, pickTried, now);
            && (side.Some? ==> BestOf(db, side.value, now, count, r) && UsableOn(db, side.value, now) != {})
            && (side.None? ==> r == [] && UsableOn(db, New, now) == {} && UsableOn(db, Tried, now) == {})
            && (r == [] <==> count == 0 || (UsableOn(db, New, now) == {} && UsableOn(db, Tried, now) == {}))
  {
    var side := SideFor(db, pickTried, now);
    UsableIffAny(db, New, now);
    UsableIffAny(db, Tried, now);
    if side.Some? {
      AllGroupsInOrder(db, side.value, now);
      PrefixIsBest(db, side.value, now, count, AllGroups(db, side.value, now));
      var a :| a in UsableOn(db, side.value, now);
      assert |UsableOn(db, side.value, now)| > 0;
    }
  }

  lemma UsableIffAny(db: Db, side: Side, now: nat)
    ensures AnyUsable(db, side, now) <==> UsableOn(db, side, now) != {}
  {
    if UsableOn(db, side, now) != {} {
      var a :| a in UsableOn(db, side, now);
    }
    if AnyUsable(db, side, now) {
      var a :| a in Addrs(BucketsOf(db.table, side)) && Usable(db, now, a);
      assert a in UsableOn(db, side, now);
    }
  }

  // ---------------------------------------------------------------------------
  // Every reachable database
  // ---------------------------------------------------------------------------

  datatype Op =
    | Add(addr: NetAddr, services: bv64, now: nat, victim: Addr)
    | AddDns(addr: NetAddr, now: nat, victim: Addr)
    | Connected(socket: Addr, now: nat)
    | DialFailed(socket: Addr)
    | Expire(now: nat)
    | Forget(addr: NetAddr)
    | SetServices(socket: Addr, services: bv64)
    | ListAnchors(now: nat)

  function Apply(db: Db, op: Op): Db {
    match op
    case Add(a, services, now, victim) => AddAddress(db, a, services, now, victim)
    case AddDns(a, now, victim) => AddFromDnsSeed(db, a, now, victim)
    case Connected(s, now) => Promote(db, s, now)
    case DialFailed(s) => db.(table := NoteAttempt(db.table, s, false))
    case Expire(now) => RemoveExpired(db, now)
    case Forget(a) => RemoveAddress(db, a)
    case SetServices(s, services) =>
      if s in db.entries then db.(entries := db.entries[s := db.entries[s].(services := services)]) else db
    case ListAnchors(now) => db.(table := DropOldAnchors(db.table, now))
  }

  /** An eviction, when one is needed, hits an entry seen longest ago. */
  ghost predicate VictimOk(db: Db, op: Op) {
    && (op.Add? && ToSocket(op.addr) !in db.entries && db.entries != map[] ==> IsOldest(db, op.victim))
    && (op.AddDns? && ToSocket(op.addr) !in db.entries && db.entries != map[] ==> IsOldest(db, op.victim))
  }

  ghost predicate DbInv(db: Db) {
    TableInv(db.table) && |db.entries| <= Max(1, db.maxAddresses)
  }

  lemma MakeRoomKeeps(db: Db, victim: Addr)
    requires DbInv(db) && (db.entries != map[] ==> victim in db.entries)
    ensures TableInv(MakeRoom(db, victim).table) && |MakeRoom(db, victim).entries| < Max(1, db.maxAddresses)
  {
    RemoveKeepsInv(db.table, victim);
    if victim in db.entries {
      assert |db.entries - {victim}| == |db.entries| - 1 by {
        assert (db.entries - {victim}).Keys == db.entries.Keys - {victim};
        assert |db.entries - {victim}| == |(db.entries - {victim}).Keys|;
        assert |db.entries| == |db.entries.Keys|;
      }
    }
  }

  lemma StoreKeeps(db: Db, s: Addr, e: Entry, now: nat)
    requires TableInv(db.table) && (s in db.entries || |db.entries| < Max(1, db.maxAddresses))
    requires |db.entries| <= Max(1, db.maxAddresses)
    ensures DbInv(PlaceSocket(db.(entries := db.entries[s := e]), s, now))
  {
    var stored := db.(entries := db.entries[s := e]);
    PlaceNewKeepsInv(db.table, s, x => Replaceable(stored, now, x));
  }

  lemma ExpiryShrinks(db: Db, now: nat)
    ensures |RemoveExpired(db, now).entries| <= |db.entries|
  {
    var kept := RemoveExpired(db, now).entries;
    assert kept.Keys <= db.entries.Keys;
    SubsetSize(kept.Keys, db.entries.Keys);
    assert |kept| == |kept.Keys| && |db.entries| == |db.entries.Keys|;
  }

  lemma AddKeepsInv(db: Db, a: NetAddr, services: bv64, now: nat, victim: Addr)
    requires DbInv(db) && (ToSocket(a) !in db.entries && db.entries != map[] ==> victim in db.entries)
    ensures DbInv(AddAddress(db, a, services, now, victim)) && AddAddress(db, a, services, now, victim).maxAddresses == db.maxAddresses
  {
    var s := ToSocket(a);
    if s !in db.entries {
      MakeRoomKeeps(db, victim);
      StoreKeeps(MakeRoom(db, victim), s, FirstEntry(a, services, now), now);
    } else if WithinHorizon(a.time, now) {
      StoreKeeps(db, s, Readvertised(db.entries[s], a.time, services, now), now);
    }
  }

  lemma AddDnsKeepsInv(db: Db, a: NetAddr, now: nat, victim: Addr)
    requires DbInv(db) && (ToSocket(a) !in db.entries && db.entries != map[] ==> victim in db.entries)
    ensures DbInv(AddFromDnsSeed(db, a, now, victim)) && AddFromDnsSeed(db, a, now, victim).maxAddresses == db.maxAddresses
  {
    var s := ToSocket(a);
    if s !in db.entries {
      MakeRoomKeeps(db, victim);
      StoreKeeps(MakeRoom(db, victim), s, NewEntry(a, 0, now), now);
    } else {
      StoreKeeps(db, s, Reseeded(db.entries[s], now), now);
    }
  }

  lemma PromoteKeepsInv(db: Db, s: Addr, now: nat)
    requires DbInv(db)
    ensures DbInv(Promote(db, s, now))
  {
    var noted := db.(table := NoteAttempt(db.table, s, true));
    PromoteTriedKeepsInv(noted.table, s, x => Replaceable(noted, now, x));
    RememberAnchorOk(PromoteTried(noted.table, s, x => Replaceable(noted, now, x)), s, now);
  }

  lemma ForgetKeepsInv(db: Db, a: NetAddr)
    requires DbInv(db)
    ensures DbInv(RemoveAddress(db, a))
  {
    var left := db.entries - {ToSocket(a)};
    RemoveKeepsInv(db.table, ToSocket(a));
    SubsetSize(left.Keys, db.entries.Keys);
    assert |left| == |left.Keys| && |db.entries| == |db.entries.Keys|;
  }

  lemma ApplyKeepsInv(db: Db, op: Op)
    requires DbInv(db) && VictimOk(db, op)
    ensures DbInv(Apply(db, op)) && Apply(db, op).maxAddresses == db.maxAddresses
  {
    match op {
      case Add(a, services, now, victim) => AddKeepsInv(db, a, services, now, victim);
      case AddDns(a, now, victim) => AddDnsKeepsInv(db, a, now, victim);
      case Connected(s, now) => PromoteKeepsInv(db, s, now);
      case DialFailed(s) =>
      case Expire(now) => ExpiryShrinks(db, now);
      case Forget(a) => ForgetKeepsInv(db, a);
      case SetServices(s, services) =>
      case ListAnchors(now) => AnchorFilterOk((x: Anchor) => SatSub(now, x.seen) <= ANCHOR_KEEP_SECS, db.table.anchors);
    }
  }

  function RunDb(db: Db, ops: seq<Op>): Db
    decreases ops
  {
    if ops == [] then db else RunDb(Apply(db, ops[0]), ops[1..])
  }

  ghost predicate VictimsOk(db: Db, ops: seq<Op>)
    decreases ops
  {
    ops == [] || (VictimOk(db, ops[0]) && VictimsOk(Apply(db, ops[0]), ops[1..]))
  }

  /** Every reachable database keeps the table invariant and its size limit; expiry included. */
  lemma {:induction false} RunKeepsDbInv(db: Db, ops: seq<Op>)
    requires DbInv(db) && VictimsOk(db, ops)
    ensures DbInv(RunDb(db, ops)) && RunDb(db, ops).maxAddresses == db.maxAddresses
    decreases ops
  {
    if ops != [] {
      ApplyKeepsInv(db, ops[0]);
      RunKeepsDbInv(Apply(db, ops[0]), ops[1..]);
    }
  }

  /** So on every reachable database a selection is the best of one side. */
  lemma ReachableSelection(maxAddresses: nat, expiration: nat, ops: seq<Op>, count: nat, pickTried: bool, now: nat)
    requires VictimsOk(Db(map[], EmptyTable(), maxAddresses, expiration), ops)
    ensures var db := RunDb(Db(map[], EmptyTable(), maxAddresses, expiration), ops);
            var side := SideFor(db, pickTried, now);
            var r := SelectSockets(db, count, pickTried, now);
            && (side.Some? ==> BestOf(db, side.value, now, count, r))
            && (r == [] <==> count == 0 || (UsableOn(db, New, now) == {} && UsableOn(db, Tried, now) == {}))
  {
    EmptyTableInv();
    RunKeepsDbInv(Db(map[], EmptyTable(), maxAddresses, expiration), ops);
    SelectionIsBestOfOneSide(RunDb(Db(map[], EmptyTable(), maxAddresses, expiration), ops), count, pickTried, now);
  }

  // ---------------------------------------------------------------------------
  // Buckets blocked by expired rows
  // ---------------------------------------------------------------------------

  /** Bucket `i` of the new side is full of rows without an entry. */
  ghost predicate Blocked(db: Db, i: nat, rows: seq<Addr>) {
    && i < |db.table.untried| && db.table.untried[i] == rows && |rows| == BUCKET_SIZE
    && forall x :: x in rows ==> x !in db.entries
  }

  /** A placement does not get into such a bucket: rows without an entry are not replaceable. */
  lemma ExpiredRowsBlockTheirBucket(db: Db, a: Addr, now: nat, i: nat, rows: seq<Addr>)
    requires Blocked(db, i, rows) && a !in rows
    ensures var u := PlaceSocket(db, a, now).table.untried; i < |u| && u[i] == rows
    ensures BucketIndex(a, New) == i ==> PlaceSocket(db, a, now).table == db.table
  {
    var terrible := x => Replaceable(db, now, x);
    assert forall j :: 0 <= j < |rows| ==> rows[j] in rows && !terrible(rows[j]);
  }

  lemma {:induction false} WithoutAbsent(bucket: seq<Addr>, a: Addr)
    requires a !in bucket
    ensures Without(bucket, a) == bucket
  {
    if bucket != [] {
      WithoutAbsent(bucket[..|bucket| - 1], a);
    }
  }

  /** The operation does not store, promote or forget one of the rows. */
  predicate LeavesAlone(op: Op, rows: seq<Addr>) {
    match op
    case Add(a, _, _, _) => ToSocket(a) !in rows
    case AddDns(a, _, _) => ToSocket(a) !in rows
    case Connected(s, _) => s !in rows
    case Forget(a) => ToSocket(a) !in rows
    case _ => true
  }

  lemma StoreStaysBlocked(db: Db, s: Addr, e: Entry, now: nat, i: nat, rows: seq<Addr>)
    requires Blocked(db, i, rows) && s !in rows
    ensures Blocked(PlaceSocket(db.(entries := db.entries[s := e]), s, now), i, rows)
  {
    var stored := db.(entries := db.entries[s := e]);
    ExpiredRowsBlockTheirBucket(stored, s, now, i, rows);
  }

  lemma EvictStaysBlocked(db: Db, victim: Addr, i: nat, rows: seq<Addr>)
    requires Blocked(db, i, rows) && (db.entries != map[] ==> victim in db.entries)
    ensures Blocked(MakeRoom(db, victim), i, rows)
  {
    if victim in db.entries {
      WithoutAbsent(rows, victim);
    }
  }

  lemma StepStaysBlocked(db: Db, op: Op, i: nat, rows: seq<Addr>)
    requires Blocked(db, i, rows) && VictimOk(db, op) && LeavesAlone(op, rows)
    ensures Blocked(Apply(db, op), i, rows)
  {
    match op {
      case Add(a, services, now, victim) =>
        var s := ToSocket(a);
        if s !in db.entries {
          EvictStaysBlocked(db, victim, i, rows);
          StoreStaysBlocked(MakeRoom(db, victim), s, FirstEntry(a, services, now), now, i, rows);
        } else if WithinHorizon(a.time, now) {
          StoreStaysBlocked(db, s, Readvertised(db.entries[s], a.time, services, now), now, i, rows);
        }
      case AddDns(a, now, victim) =>
        var s := ToSocket(a);
        if s !in db.entries {
          EvictStaysBlocked(db, victim, i, rows);
          StoreStaysBlocked(MakeRoom(db, victim), s, NewEntry(a, 0, now), now, i, rows);
        } else {
          StoreStaysBlocked(db, s, Reseeded(db.entries[s], now), now, i, rows);
        }
      case Connected(s, _) => WithoutAbsent(rows, s);
      case Forget(a) => WithoutAbsent(rows, ToSocket(a));
      case _ =>
    }
  }

  /** Until one of its own rows is stored, promoted or forgotten again, a blocked bucket takes no address. */
  lemma {:induction false} BlockedUntilTouched(db: Db, ops: seq<Op>, i: nat, rows: seq<Addr>, a: Addr)
    requires DbInv(db) && VictimsOk(db, ops) && Blocked(db, i, rows)
    requires forall j :: 0 <= j < |ops| ==> LeavesAlone(ops[j], rows)
    requires BucketIndex(a, New) == i && a !in rows
    ensures Blocked(RunDb(db, ops), i, rows) && !Contains(RunDb(db, ops).table.untried, a)
    decreases ops
  {
    if ops == [] {
      ScanIsOneBucket(New, db.table.untried, a);
    } else {
      ApplyKeepsInv(db, ops[0]);
      StepStaysBlocked(db, ops[0], i, rows);
      BlockedUntilTouched(Apply(db, ops[0]), ops[1..], i, rows, a);
    }
  }
}
