/** The reconnection queue: bounded attempts, exponential backoff, and its periodic tick. */
module Reconnect {
  import opened Prelude
  import opened Sorting

  datatype Addr = Addr(ip: nat, port: nat)

  const MAX_ATTEMPTS := 10
  const MAX_BACKOFF := 60

  /** Attempts so far, time of the last one, and the peer's quality. */
  datatype Item = Item(attempts: nat, last: nat, quality: real)

  type Queue = map<Addr, Item>

  /** What one tick sees besides the queue. `now` is read again after stale entries are dropped. */
  datatype Tick = Tick(staleNow: nat, now: nat, staleSecs: nat, current: nat, maxPeers: nat,
                       persistent: set<Addr>, disconnected: set<Addr>, held: set<Addr>, bans: map<nat, nat>)

  datatype Dial = Dial(addr: Addr, at: nat, attempts: nat)

  function Pow2(n: nat): (r: nat)
    ensures r >= 1
  {
    if n == 0 then 1 else 2 * Pow2(n - 1)
  }

  function Backoff(attempts: nat): (r: nat)
    ensures 1 <= r <= MAX_BACKOFF
  {
    Min(Pow2(attempts), MAX_BACKOFF)
  }

  predicate PersistentOnly(t: Tick) {
    t.current >= Max(1, t.maxPeers / 2)
  }

  function DropStale(t: Tick, q: Queue): Queue {
    if PersistentOnly(t)
    then map a | a in q && (SatSub(t.staleNow, q[a].last) < t.staleSecs || a in t.persistent) :: q[a]
    else q
  }

  predicate Eligible(t: Tick, a: Addr) {
    !PersistentOnly(t) || a in t.disconnected || a !in t.persistent
  }

  /** Best quality first, then fewest attempts, then longest untried. */
  predicate DialOrder(q: Queue, a: Addr, b: Addr) {
    var x, y := ItemOf(q, a), ItemOf(q, b);
    || x.quality > y.quality
    || (x.quality == y.quality && (x.attempts < y.attempts || (x.attempts == y.attempts && x.last <= y.last)))
  }

  function ItemOf(q: Queue, a: Addr): Item {
    if a in q then q[a] else Item(0, 0, 0.0)
  }

  function Ordered(t: Tick, q: Queue, iteration: seq<Addr>): seq<Addr> {
    Sort((a: Addr, b: Addr) => DialOrder(q, a, b), Filter(a => a in q && Eligible(t, a), iteration))
  }

  /** The tick's own ban test; the permanent sentinel does not count. */
  predicate SkippedForBan(t: Tick, a: Addr) {
    a.ip in t.bans && t.bans[a.ip] != U64_MAX && t.now < t.bans[a.ip]
  }

  datatype Visit = Skipped | Removed | Stopped | Dialled(attempts: nat)

  /** What the tick does with one queued address. */
  function Decide(t: Tick, a: Addr, item: Item): Visit {
    if a in t.held || SkippedForBan(t, a) || SatSub(t.now, item.last) < Backoff(item.attempts) then Skipped
    else if item.attempts >= MAX_ATTEMPTS && a !in t.persistent then Removed
    else if t.current >= t.maxPeers && a !in t.persistent then Stopped
    else Dialled(if item.attempts >= MAX_ATTEMPTS then 1 else item.attempts + 1)
  }

  datatype Loop = Loop(queue: Queue, dials: seq<Dial>, stopped: bool)

  function VisitOne(t: Tick, s: Loop, a: Addr): Loop {
    if s.stopped || a !in s.queue then s
    else match Decide(t, a, s.queue[a])
      case Skipped => s
      case Removed => s.(queue := s.queue - {a})
      case Stopped => s.(stopped := true)
      case Dialled(n) => s.(queue := s.queue[a := s.queue[a].(attempts := n, last := t.now)], dials := s.dials + [Dial(a, t.now, n)])
  }

  /** The state after the first `n` addresses of the order. */
  function LoopAt(t: Tick, q: Queue, order: seq<Addr>, n: nat): Loop
    requires n <= |order|
  {
    if n == 0 then Loop(q, [], false) else VisitOne(t, LoopAt(t, q, order, n - 1), order[n - 1])
  }

  function TickResult(t: Tick, q: Queue, iteration: seq<Addr>): Loop {
    var kept := DropStale(t, q);
    var order := Ordered(t, kept, iteration);
    LoopAt(t, kept, order, |order|)
  }

  /** No entry is past ten attempts. */
  ghost predicate Bounded(q: Queue) {
    forall a :: a in q ==> q[a].attempts <= MAX_ATTEMPTS
  }

  class ReconnectionQueue {
    var queue: Queue

    /** `entry(addr).or_insert(..)`: an entry already queued is left alone. */
    method Enqueue(a: Addr, last: nat, quality: real)
      modifies this
      ensures queue == if a in old(queue) then old(queue) else old(queue)[a := Item(0, last, quality)]
    {
      if a !in queue {
        queue := queue[a := Item(0, last, quality)];
      }
    }

    /** One queued address; `attempts` is the count the tick copied before the loop. */
    method VisitAddress(t: Tick, a: Addr, attempts: nat) returns (visit: Visit)
      requires a in queue && attempts == queue[a].attempts <= MAX_ATTEMPTS
      modifies this
      ensures visit == Decide(t, a, old(queue)[a])
      ensures queue == match visit
                       case Removed => old(queue) - {a}
                       case Dialled(n) => old(queue)[a := old(queue)[a].(attempts := n, last := t.now)]
                       case _ => old(queue)
    {
      if a in t.held {
        return Skipped;
      }
      if a.ip in t.bans && t.bans[a.ip] != U64_MAX && t.now < t.bans[a.ip] {
        return Skipped;
      }
      if SatSub(t.now, queue[a].last) < Backoff(attempts) {
        return Skipped;
      }
      if attempts >= MAX_ATTEMPTS && a !in t.persistent {
        queue := queue - {a};
        return Removed;
      }
      if attempts >= MAX_ATTEMPTS {
        queue := queue[a := queue[a].(attempts := 0)];
      }
      if t.current >= t.maxPeers && a !in t.persistent {
        return Stopped;
      }
      queue := queue[a := queue[a].(attempts := queue[a].attempts + 1, last := t.now)];
      visit := Dialled(queue[a].attempts);
    }

    /** `iteration` is the order the map yields its keys in. */
    method RunTick(t: Tick, iteration: seq<Addr>) returns (dials: seq<Dial>)
      requires Bounded(queue) && Enumerates(iteration, DropStale(t, queue).Keys)
      modifies this
      ensures (queue, dials) == (TickResult(t, old(queue), iteration).queue, TickResult(t, old(queue), iteration).dials)
    {
      var kept := DropStale(t, queue);
      queue := kept;
      var order := Ordered(t, kept, iteration);
      OrderIsDistinct(t, kept, iteration);
      dials := [];
      var i := 0;
      while i < |order|
        invariant 0 <= i <= |order|
        invariant LoopAt(t, kept, order, i) == Loop(queue, dials, false)
      {
        var a := order[i];
        LoopLeavesRest(t, kept, order, i, i);
        var visit := VisitAddress(t, a, kept[a].attempts);
        i := i + 1;
        if visit == Stopped {
          StopsHere(t, kept, order, i);
          return;
        }
        if visit.Dialled? {
          dials := dials + [Dial(a, t.now, visit.attempts)];
        }
      }
    }
  }

  /** Entries later in the order are still as they were. */
  lemma {:induction false} LoopLeavesRest(t: Tick, q: Queue, order: seq<Addr>, n: nat, j: nat)
    requires n <= j < |order| && Distinct(order) && order[j] in q
    ensures order[j] in LoopAt(t, q, order, n).queue && LoopAt(t, q, order, n).queue[order[j]] == q[order[j]]
  {
    if n > 0 {
      LoopLeavesRest(t, q, order, n - 1, j);
      assert order[n - 1] != order[j];
    }
  }

  lemma OrderIsDistinct(t: Tick, q: Queue, iteration: seq<Addr>)
    requires Enumerates(iteration, q.Keys)
    ensures Distinct(Ordered(t, q, iteration))
    ensures forall i :: 0 <= i < |Ordered(t, q, iteration)| ==> Ordered(t, q, iteration)[i] in q
  {
    var keep := a => a in q && Eligible(t, a);
    var le := (a: Addr, b: Addr) => DialOrder(q, a, b);
    FilterKeepsDistinct(keep, iteration);
    SortKeepsDistinct(le, Filter(keep, iteration));
    SortKeepsElements(le, Filter(keep, iteration));
    var order := Ordered(t, q, iteration);
    forall i | 0 <= i < |order| ensures order[i] in q {
      assert order[i] in order;
    }
  }

  /** The tick visits every eligible entry, best quality first, then fewest attempts, then longest untried. */
  lemma OrderIsBestFirst(t: Tick, q: Queue, iteration: seq<Addr>)
    requires Enumerates(iteration, q.Keys)
    ensures var order := Ordered(t, q, iteration);
            && (forall a :: a in order <==> a in q && Eligible(t, a))
            && (forall i, j :: 0 <= i < j < |order| ==> DialOrder(q, order[i], order[j]))
  {
    var keep := a => a in q && Eligible(t, a);
    var le := (a: Addr, b: Addr) => DialOrder(q, a, b);
    SortKeepsElements(le, Filter(keep, iteration));
    SortSorted(le, Filter(keep, iteration));
    var order := Ordered(t, q, iteration);
    forall i, j | 0 <= i < j < |order| ensures DialOrder(q, order[i], order[j]) {
      assert le(order[i], order[j]);
    }
  }

  lemma {:induction false} StopsHere(t: Tick, q: Queue, order: seq<Addr>, n: nat)
    requires n <= |order| && LoopAt(t, q, order, n).stopped
    ensures LoopAt(t, q, order, |order|) == LoopAt(t, q, order, n)
    decreases |order| - n
  {
    if n < |order| {
      StopsHere(t, q, order, n + 1);
    }
  }

  // ---------------------------------------------------------------------------
  // Runs
  // ---------------------------------------------------------------------------

  datatype Op =
    | Queued(addr: Addr, last: nat, quality: real)
    | Reconnected(addr: Addr)
    | Ticked(tick: Tick, iteration: seq<Addr>)

  /** `history` lists the dials of each queued address since it was queued. */
  datatype Sys = Sys(queue: Queue, history: map<Addr, seq<Dial>>)

  function Remember(history: map<Addr, seq<Dial>>, dials: seq<Dial>): map<Addr, seq<Dial>> {
    if dials == [] then history
    else
      var front, d := Remember(history, dials[..|dials| - 1]), dials[|dials| - 1];
      front[d.addr := (if d.addr in front then front[d.addr] else []) + [d]]
  }

  function Apply(s: Sys, op: Op): Sys {
    match op
    case Queued(a, last, quality) =>
      if a in s.queue then s else Sys(s.queue[a := Item(0, last, quality)], s.history[a := []])
    case Reconnected(a) => s.(queue := s.queue - {a})
    case Ticked(t, iteration) =>
      var r := TickResult(t, s.queue, iteration);
      Sys(r.queue, Remember(s.history, r.dials))
  }

  function Run(s: Sys, ops: seq<Op>): Sys
    decreases ops
  {
    if ops == [] then s else Run(Apply(s, ops[0]), ops[1..])
  }

  /** Dial `i + 1` comes at least the backoff of dial `i` later. */
  predicate Spaced(h: seq<Dial>, i: nat)
    requires i + 1 < |h|
  {
    h[i + 1].at >= h[i].at + Backoff(h[i].attempts)
  }

  /** The entry agrees with its dial history, which keeps its distances. */
  ghost predicate ItemOk(item: Item, h: seq<Dial>) {
    && item.attempts <= MAX_ATTEMPTS
    && (h == [] ==> item.attempts == 0)
    && (h != [] ==> h[|h| - 1].at == item.last && h[|h| - 1].attempts == item.attempts)
    && (forall i :: 0 <= i < |h| - 1 ==> Spaced(h, i))
  }

  ghost predicate SysOk(s: Sys) {
    forall a :: a in s.queue ==> a in s.history && ItemOk(s.queue[a], s.history[a])
  }

  /** A dial keeps the entry in step with its history. */
  lemma DialKeepsItemOk(t: Tick, a: Addr, item: Item, h: seq<Dial>)
    requires ItemOk(item, h) && Decide(t, a, item).Dialled?
    ensures var n := Decide(t, a, item).attempts; ItemOk(item.(attempts := n, last := t.now), h + [Dial(a, t.now, n)])
  {
    var n := Decide(t, a, item).attempts;
    var more := h + [Dial(a, t.now, n)];
    forall i | 0 <= i < |more| - 1 ensures Spaced(more, i) {
      if i < |h| - 1 {
        assert Spaced(h, i);
      }
    }
  }

  function SysAt(history: map<Addr, seq<Dial>>, l: Loop): Sys {
    Sys(l.queue, Remember(history, l.dials))
  }

  lemma VisitKeepsSysOk(t: Tick, history: map<Addr, seq<Dial>>, l: Loop, a: Addr)
    requires SysOk(SysAt(history, l))
    ensures SysOk(SysAt(history, VisitOne(t, l, a)))
  {
    if a in l.queue && Decide(t, a, l.queue[a]).Dialled? {
      DialKeepsItemOk(t, a, l.queue[a], SysAt(history, l).history[a]);
    }
  }

  lemma {:induction false} LoopKeepsSysOk(t: Tick, s: Sys, order: seq<Addr>, n: nat)
    requires SysOk(s) && n <= |order|
    ensures SysOk(SysAt(s.history, LoopAt(t, s.queue, order, n)))
  {
    if n > 0 {
      LoopKeepsSysOk(t, s, order, n - 1);
      VisitKeepsSysOk(t, s.history, LoopAt(t, s.queue, order, n - 1), order[n - 1]);
    }
  }

  /** Over every run, attempts stay at most ten and dials of a queued entry keep their backoff distance. */
  lemma {:induction false} RunKeepsSysOk(s: Sys, ops: seq<Op>)
    requires SysOk(s)
    ensures SysOk(Run(s, ops)) && Bounded(Run(s, ops).queue)
    decreases ops
  {
    if ops != [] {
      match ops[0] {
        case Queued(_, _, _) =>
        case Reconnected(_) =>
        case Ticked(t, iteration) =>
          var kept := DropStale(t, s.queue);
          var order := Ordered(t, kept, iteration);
          LoopKeepsSysOk(t, Sys(kept, s.history), order, |order|);
      }
      RunKeepsSysOk(Apply(s, ops[0]), ops[1..]);
    }
  }

  /** So the 64-bit shift of the backoff never overflows. */
  lemma BackoffShiftFits(attempts: nat)
    requires attempts <= MAX_ATTEMPTS
    ensures Pow2(attempts) <= 1024
  {
    assert Pow2(10) == 2 * Pow2(9) && Pow2(9) == 2 * Pow2(8) && Pow2(8) == 2 * Pow2(7) && Pow2(7) == 2 * Pow2(6);
    assert Pow2(6) == 2 * Pow2(5) && Pow2(5) == 2 * Pow2(4) && Pow2(4) == 2 * Pow2(3) && Pow2(3) == 2 * Pow2(2);
    Pow2Grows(attempts, 10);
  }

  lemma {:induction false} Pow2Grows(a: nat, b: nat)
    requires a <= b
    ensures Pow2(a) <= Pow2(b)
  {
    if a < b {
      Pow2Grows(a, b - 1);
    }
  }

  // ---------------------------------------------------------------------------
  // An address that is never persistent
  // ---------------------------------------------------------------------------

  predicate NeverPersistent(ops: seq<Op>, a: Addr) {
    forall i :: 0 <= i < |ops| && ops[i].Ticked? ==> a !in ops[i].tick.persistent
  }

  /** Its attempts count its dials. */
  ghost predicate Counted(s: Sys, a: Addr) {
    a in s.queue ==> a in s.history && s.queue[a].attempts == |s.history[a]|
  }

  lemma {:induction false} LoopKeepsCounted(t: Tick, s: Sys, order: seq<Addr>, n: nat, a: Addr)
    requires n <= |order| && a !in t.persistent && Counted(s, a)
    ensures Counted(SysAt(s.history, LoopAt(t, s.queue, order, n)), a)
  {
    if n > 0 {
      LoopKeepsCounted(t, s, order, n - 1, a);
    }
  }

  lemma {:induction false} RunKeepsCounted(s: Sys, ops: seq<Op>, a: Addr)
    requires Counted(s, a) && NeverPersistent(ops, a)
    ensures Counted(Run(s, ops), a)
    decreases ops
  {
    if ops != [] {
      match ops[0] {
        case Queued(_, _, _) =>
        case Reconnected(_) =>
        case Ticked(t, iteration) =>
          var kept := DropStale(t, s.queue);
          var order := Ordered(t, kept, iteration);
          LoopKeepsCounted(t, Sys(kept, s.history), order, |order|, a);
      }
      RunKeepsCounted(Apply(s, ops[0]), ops[1..], a);
    }
  }

  /** Such an address is dialled at most ten times while it stays queued. */
  lemma AtMostTenDials(ops: seq<Op>, a: Addr)
    requires NeverPersistent(ops, a)
    ensures var s := Run(Sys(map[], map[]), ops); a in s.queue ==> a in s.history && |s.history[a]| <= MAX_ATTEMPTS
  {
    RunKeepsSysOk(Sys(map[], map[]), ops);
    RunKeepsCounted(Sys(map[], map[]), ops, a);
  }

  /** After the tenth dial the next visit past the backoff removes it, unless the tick skips it. */
  lemma EleventhVisitRemoves(t: Tick, a: Addr, item: Item)
    requires item.attempts == MAX_ATTEMPTS && a !in t.persistent
    ensures Decide(t, a, item) == if a in t.held || SkippedForBan(t, a) || SatSub(t.now, item.last) < MAX_BACKOFF then Skipped else Removed
  {
    assert Pow2(10) == 2 * Pow2(9) && Pow2(9) == 2 * Pow2(8) && Pow2(8) == 2 * Pow2(7) && Pow2(7) == 2 * Pow2(6);
    assert Pow2(6) == 64 by {
      assert Pow2(6) == 2 * Pow2(5) && Pow2(5) == 2 * Pow2(4) && Pow2(4) == 2 * Pow2(3) && Pow2(3) == 2 * Pow2(2);
    }
  }

  // ---------------------------------------------------------------------------
  // Where the tick departs from what one would expect
  // ---------------------------------------------------------------------------

  /** `AddressDatabase::is_banned`: the permanent sentinel counts. */
  predicate IsBanned(t: Tick, a: Addr) {
    a.ip in t.bans && (t.bans[a.ip] == U64_MAX || t.now < t.bans[a.ip])
  }

  /** The tick's ban test agrees with the database's exactly when the ban is not permanent. */
  lemma BanTestsAgreeIff(t: Tick, a: Addr)
    ensures (SkippedForBan(t, a) <==> IsBanned(t, a)) <==> !(a.ip in t.bans && t.bans[a.ip] == U64_MAX)
  {
  }

  /** The tick with every permanent ban lifted. */
  function WithoutPermanentBans(t: Tick): Tick {
    t.(bans := map ip | ip in t.bans && t.bans[ip] != U64_MAX :: t.bans[ip])
  }

  lemma {:induction false} LoopIgnoresPermanentBans(t: Tick, q: Queue, order: seq<Addr>, n: nat)
    requires n <= |order|
    ensures LoopAt(t, q, order, n) == LoopAt(WithoutPermanentBans(t), q, order, n)
  {
    if n > 0 {
      LoopIgnoresPermanentBans(t, q, order, n - 1);
    }
  }

  /** A permanent ban is as good as none: a tick visits, dials and keeps the same with all of them lifted. */
  lemma PermanentBansAreIgnored(t: Tick, q: Queue, iteration: seq<Addr>)
    ensures TickResult(t, q, iteration) == TickResult(WithoutPermanentBans(t), q, iteration)
  {
    var u := WithoutPermanentBans(t);
    var kept := DropStale(t, q);
    assert kept == DropStale(u, q);
    assert Ordered(t, kept, iteration) == Ordered(u, kept, iteration) by {
      FilterAgrees(a => a in kept && Eligible(t, a), a => a in kept && Eligible(u, a), iteration);
    }
    var order := Ordered(t, kept, iteration);
    LoopIgnoresPermanentBans(t, kept, order, |order|);
  }

  lemma {:induction false} FilterAgrees(p: Addr -> bool, q: Addr -> bool, s: seq<Addr>)
    requires forall a :: p(a) == q(a)
    ensures Filter(p, s) == Filter(q, s)
  {
    if s != [] {
      FilterAgrees(p, q, s[..|s| - 1]);
    }
  }

  /** So a permanently banned address is dialled whenever its backoff is over and there is room. */
  lemma PermanentlyBannedIsDialled(t: Tick, a: Addr, item: Item)
    requires a.ip in t.bans && t.bans[a.ip] == U64_MAX && a !in t.held
    requires SatSub(t.now, item.last) >= Backoff(item.attempts) && item.attempts < MAX_ATTEMPTS && t.current < t.maxPeers
    ensures IsBanned(t, a) && Decide(t, a, item) == Dialled(item.attempts + 1)
  {
  }

  /** A fresh entry queued with time zero is dropped before its first dial exactly when peers suffice, the clock passed the stale limit and it is not persistent. */
  lemma FreshEntryDroppedIff(t: Tick, q: Queue, a: Addr)
    requires a in q && q[a].attempts == 0 && q[a].last == 0
    ensures a !in DropStale(t, q) <==> PersistentOnly(t) && t.staleNow >= t.staleSecs && a !in t.persistent
  {
  }

  // ---------------------------------------------------------------------------
  // Evicting surplus outbound peers
  // ---------------------------------------------------------------------------

  function AnnouncedAt(last: seq<Option<nat>>, i: nat): nat {
    if i < |last| && last[i].Some? then last[i].value else 0
  }

  function Indices(n: nat): (r: seq<nat>)
    ensures |r| == n && forall i :: 0 <= i < n ==> r[i] == i
  {
    seq(n, i => i)
  }

  function SelectOutboundEvictions(last: seq<Option<nat>>, protect: nat): seq<nat> {
    if |last| <= protect then []
    else Sort((i: nat, j: nat) => AnnouncedAt(last, i) <= AnnouncedAt(last, j), Indices(|last|))[..|last| - protect]
  }

  /** Exactly the surplus goes, each peer once, and nobody who goes announced later than somebody who stays. */
  lemma EvictionsAreTheStalest(last: seq<Option<nat>>, protect: nat)
    ensures var out := SelectOutboundEvictions(last, protect);
            && |out| == SatSub(|last|, protect) && Distinct(out)
            && (forall i :: 0 <= i < |out| ==> out[i] < |last|)
            && (forall i, keep: nat :: 0 <= i < |out| && keep < |last| && keep !in out ==>
                  AnnouncedAt(last, out[i]) <= AnnouncedAt(last, keep))
  {
    if |last| > protect {
      var le := (i: nat, j: nat) => AnnouncedAt(last, i) <= AnnouncedAt(last, j);
      var all := Sort(le, Indices(|last|));
      SortKeepsDistinct(le, Indices(|last|));
      SortKeepsElements(le, Indices(|last|));
      SortSorted(le, Indices(|last|));
      var out := SelectOutboundEvictions(last, protect);
      forall i | 0 <= i < |out| ensures out[i] < |last| {
        assert all[i] in all;
      }
      forall i, keep: nat | 0 <= i < |out| && keep < |last| && keep !in out
        ensures AnnouncedAt(last, out[i]) <= AnnouncedAt(last, keep)
      {
        assert Indices(|last|)[keep] == keep;
        assert keep in all;
        var j :| 0 <= j < |all| && all[j] == keep;
        assert forall m :: 0 <= m < |out| ==> out[m] == all[m];
        assert le(all[i], all[j]);
      }
    }
  }
}
