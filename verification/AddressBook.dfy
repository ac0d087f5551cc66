/** The address database as the node runs it. */
module AddressBook {
  import opened Prelude
  import opened Sorting
  import opened AddressTable
  import opened AddressDatabase

  class Book {
    var entries: map<Addr, Entry>
    const table: AddressBuckets
    const maxAddresses: nat
    const expiration: nat

    ghost function View(): Db
      reads this, table
    {
      Db(entries, table.View(), maxAddresses, expiration)
    }

    ghost predicate Valid()
      reads this, table
    {
      DbInv(View())
    }

    constructor (maxAddresses: nat, expiration: nat)
      ensures Valid() && View() == Db(map[], EmptyTable(), maxAddresses, expiration) && fresh(table)
    {
      this.maxAddresses, this.expiration := maxAddresses, expiration;
      entries := map[];
      table := new AddressBuckets();
    }

    /** An entry seen longest ago; which one of several depends on the map's order. */
    method OldestEntry() returns (oldest: Addr)
      requires entries != map[]
      ensures IsOldest(View(), oldest)
    {
      var todo := entries.Keys;
      assert todo != {};
      oldest :| oldest in todo;
      todo := todo - {oldest};
      while todo != {}
        invariant todo <= entries.Keys && oldest in entries
        invariant forall x :: x in entries && x !in todo ==> entries[oldest].lastSeen <= entries[x].lastSeen
        decreases |todo|
      {
        var a :| a in todo;
        todo := todo - {a};
        if entries[a].lastSeen < entries[oldest].lastSeen {
          oldest := a;
        }
      }
    }

    /** Evicts when the database is full; without entries there is nothing to evict. */
    method EnsureRoom() returns (ghost victim: Addr)
      requires Valid()
      modifies this, table
      ensures View() == MakeRoom(old(View()), victim)
      ensures old(entries) != map[] ==> IsOldest(old(View()), victim)
      ensures TableInv(table.View())
    {
      RemoveKeepsInvForAll(table.View());
      if entries == map[] {
        victim := Addr([], 0);
        return;
      }
      var oldest := OldestEntry();
      victim := oldest;
      if |entries| >= maxAddresses {
        entries := entries - {oldest};
        table.RemoveAddr(oldest);
      }
    }

    method PlaceSocketNew(a: Addr, now: nat)
      requires TableInv(table.View())
      modifies table
      ensures View() == PlaceSocket(old(View()), a, now)
    {
      ghost var db := View();
      var known, counts := entries, table.attempts;
      var terrible := x => x in known
                           && var n := if x in counts then counts[x] else Attempt(0, 0);
                              IsTerribleRecord(known[x].lastSeen, known[x].addr.time, now, n.failures, n.successes);
      table.Place(a, terrible);
    }

    method AddNetAddress(a: NetAddr, services: bv64, now: nat) returns (ghost victim: Addr)
      requires Valid()
      modifies this, table
      ensures Valid()
      ensures View() == AddAddress(old(View()), a, services, now, victim)
      ensures VictimOk(old(View()), Add(a, services, now, victim))
    {
      ghost var db := View();
      var s := ToSocket(a);
      if s in entries {
        victim := s;
        AddKeepsInv(db, a, services, now, victim);
        if !WithinHorizon(a.time, now) {
          return;
        }
        entries := entries[s := Readvertised(entries[s], a.time, services, now)];
      } else {
        victim := EnsureRoom();
        AddKeepsInv(db, a, services, now, victim);
        entries := entries[s := FirstEntry(a, services, now)];
      }
      PlaceSocketNew(s, now);
    }

    method AddSeedAddress(a: NetAddr, now: nat) returns (ghost victim: Addr)
      requires Valid()
      modifies this, table
      ensures Valid()
      ensures View() == AddFromDnsSeed(old(View()), a, now, victim)
      ensures VictimOk(old(View()), AddDns(a, now, victim))
    {
      ghost var db := View();
      var s := ToSocket(a);
      if s in entries {
        victim := s;
        AddDnsKeepsInv(db, a, now, victim);
        entries := entries[s := Reseeded(entries[s], now)];
      } else {
        victim := EnsureRoom();
        AddDnsKeepsInv(db, a, now, victim);
        entries := entries[s := NewEntry(a, 0, now)];
      }
      PlaceSocketNew(s, now);
    }

    /** A completed connection: counted, moved to the tried side and remembered as an anchor. */
    method PromoteSocket(a: Addr, now: nat)
      requires Valid()
      modifies table
      ensures Valid() && View() == AddressDatabase.Promote(old(View()), a, now)
    {
      PromoteKeepsInv(View(), a, now);
      table.Note(a, true);
      ghost var noted := View();
      var known, counts := entries, table.attempts;
      var terrible := x => x in known
                           && var n := if x in counts then counts[x] else Attempt(0, 0);
                              IsTerribleRecord(known[x].lastSeen, known[x].addr.time, now, n.failures, n.successes);
      SamePromotion(noted, terrible, x => Replaceable(noted, now, x), a);
      table.Promote(a, terrible);
      table.Remember(a, now);
    }

    method NoteDialFailure(a: Addr)
      requires Valid()
      modifies table
      ensures Valid() && View() == Apply(old(View()), DialFailed(a))
    {
      table.Note(a, false);
    }

    method ForgetAddress(a: NetAddr)
      requires Valid()
      modifies this, table
      ensures Valid() && View() == RemoveAddress(old(View()), a)
    {
      ForgetKeepsInv(View(), a);
      entries := entries - {ToSocket(a)};
      table.RemoveAddr(ToSocket(a));
    }

    method RemoveExpiredEntries(now: nat) returns (removed: int)
      requires Valid()
      modifies this
      ensures Valid() && View() == RemoveExpired(old(View()), now)
      ensures removed == |old(entries)| - |entries|
    {
      ExpiryShrinks(View(), now);
      var before := |entries|;
      entries := map a | a in entries && IsFresh(entries[a], expiration, now) :: entries[a];
      removed := before - |entries|;
    }

    /** Skips terrible rows and rows without an entry, groups the rest and sorts each group. */
    method SelectOutbound(count: nat, pickTried: bool, now: nat) returns (picked: seq<NetAddr>)
      requires Valid()
      ensures var sockets := SelectSockets(View(), count, pickTried, now);
              |picked| == |sockets|
              && forall i :: 0 <= i < |picked| ==> sockets[i] in entries && picked[i] == entries[sockets[i]].addr
    {
      var db := Db(entries, Table(table.untried, table.tried, table.attempts, table.anchors), maxAddresses, expiration);
      SelectedAreStored(db, count, pickTried, now);
      var side := SideFor(db, pickTried, now);
      if side.None? {
        return [];
      }
      var all := table.AllOn(side.value);
      var chosen := Choose(db, side.value, all, count, now);
      assert chosen == SelectSockets(db, count, pickTried, now);
      picked := AddressesOf(db, chosen);
    }
  }

  lemma SelectedAreStored(db: Db, count: nat, pickTried: bool, now: nat)
    requires TableInv(db.table)
    ensures forall i :: 0 <= i < |SelectSockets(db, count, pickTried, now)| ==> SelectSockets(db, count, pickTried, now)[i] in db.entries
    ensures SideFor(db, pickTried, now).None? ==> SelectSockets(db, count, pickTried, now) == []
  {
    SelectionIsBestOfOneSide(db, count, pickTried, now);
    var r := SelectSockets(db, count, pickTried, now);
    forall i | 0 <= i < |r| ensures r[i] in db.entries {
      assert r[i] in r;
    }
  }

  function AddressesOf(db: Db, sockets: seq<Addr>): (r: seq<NetAddr>)
    requires forall i :: 0 <= i < |sockets| ==> sockets[i] in db.entries
    ensures |r| == |sockets| && forall i :: 0 <= i < |r| ==> r[i] == db.entries[sockets[i]].addr
  {
    if sockets == [] then [] else [db.entries[sockets[0]].addr] + AddressesOf(db, sockets[1..])
  }

  method Choose(db: Db, ghost side: Side, all: seq<Addr>, count: nat, now: nat) returns (chosen: seq<Addr>)
    requires all == Addrs(BucketsOf(db.table, side))
    ensures chosen == var groups := AllGroups(db, side, now); if |groups| <= count then groups else groups[..count]
  {
    var full, unknown, limited := PartitionUsable(db, all, now);
    var newest := (a: Addr, b: Addr) => Newer(db, a, b);
    chosen := Sort(newest, full) + Sort(newest, unknown) + Sort(newest, limited);
    if |chosen| > count {
      chosen := chosen[..count];
    }
  }

  method PartitionUsable(db: Db, all: seq<Addr>, now: nat) returns (full: seq<Addr>, unknown: seq<Addr>, limited: seq<Addr>)
    ensures full == Filter(a => Usable(db, now, a) && RankOf(db, a) == 0, all)
    ensures unknown == Filter(a => Usable(db, now, a) && RankOf(db, a) == 1, all)
    ensures limited == Filter(a => Usable(db, now, a) && RankOf(db, a) == 2, all)
  {
    full, unknown, limited := [], [], [];
    var i := 0;
    while i < |all|
      invariant 0 <= i <= |all|
      invariant full == Filter(a => Usable(db, now, a) && RankOf(db, a) == 0, all[..i])
      invariant unknown == Filter(a => Usable(db, now, a) && RankOf(db, a) == 1, all[..i])
      invariant limited == Filter(a => Usable(db, now, a) && RankOf(db, a) == 2, all[..i])
    {
      assert all[..i + 1][..i] == all[..i];
      var a := all[i];
      if !SocketIsTerrible(db, a, now) && a in db.entries {
        if db.entries[a].services == 0 {
          unknown := unknown + [a];
        } else if db.entries[a].services & NODE_NETWORK != 0 {
          full := full + [a];
        } else {
          limited := limited + [a];
        }
      }
      i := i + 1;
    }
    assert all[..i] == all;
  }

  lemma RemoveKeepsInvForAll(t: Table)
    requires TableInv(t)
    ensures forall a :: TableInv(Remove(t, a))
  {
    forall a ensures TableInv(Remove(t, a)) {
      RemoveKeepsInv(t, a);
    }
  }

  lemma SamePromotion(db: Db, p: Addr -> bool, q: Addr -> bool, a: Addr)
    requires forall x :: p(x) == q(x)
    ensures PromoteTried(db.table, a, p) == PromoteTried(db.table, a, q)
  {
  }
}
