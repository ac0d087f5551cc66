/**
 Dandelion stem and fluff phases (BIP 156).  Random draws, the coin and both clocks are
 inputs; times are milliseconds.
 */
module Dandelion {
  import opened Prelude
  import opened Sorting

  type Peer = nat
  type Tx = nat

  const PATH_EXPIRY := 600_000

  /** `hopCount` is an unsigned byte that wraps around. */
  datatype Path = Path(next: Peer, expiry: nat, hopCount: nat)

  datatype Stem = Stem(current: Peer, next: Option<Peer>, start: nat, deadline: nat, hops: nat, source: Peer)

  /** `timeout` is the base stem timeout, `maxHops` an unsigned byte. */
  datatype Params = Params(timeout: nat, maxHops: nat)

  datatype Relay = Relay(paths: map<Peer, Path>, txs: map<Tx, Stem>)

  /** One uniform draw from a nonempty list. */
  function Draw(c: seq<Peer>, draw: nat): (p: Peer)
    requires c != []
    ensures p in c
  {
    c[draw % |c|]
  }

  function InitPath(r: Relay, peer: Peer, available: seq<Peer>, draw: nat, now: nat): (Option<Peer>, Relay) {
    var c := Filter(p => p != peer, available);
    if c == [] then (None, r)
    else (Some(Draw(c, draw)), r.(paths := r.paths[peer := Path(Draw(c, draw), now + PATH_EXPIRY, 0)]))
  }

  /** Rotates the path to a different next peer, if there is one. */
  function UpdatePath(r: Relay, peer: Peer, available: seq<Peer>, draw: nat): Relay {
    if peer !in r.paths then r
    else
      var path := r.paths[peer];
      var c := Filter(p => p != peer && p != path.next, available);
      if c == [] then r
      else r.(paths := r.paths[peer := path.(next := Draw(c, draw), hopCount := Wrap(path.hopCount + 1, 255))])
  }

  /** The path's expiry is compared with the real clock, the rest with the injected one. */
  function NextFor(r: Relay, peer: Peer, available: seq<Peer>, draw: nat, now: nat, realNow: nat): (Option<Peer>, Relay) {
    if peer in r.paths && r.paths[peer].expiry > realNow then (Some(r.paths[peer].next), r)
    else InitPath(r, peer, available, draw, now)
  }

  function StartStem(par: Params, r: Relay, tx: Tx, peer: Peer, available: seq<Peer>, draw: nat, jitter: nat, now: nat, realNow: nat)
    : (Option<Peer>, Relay)
    requires par.timeout >= 2
  {
    var (next, r1) := NextFor(r, peer, available, draw, now, realNow);
    if next.None? then (None, r1)
    else (next, r1.(txs := r1.txs[tx := Stem(peer, next, now, par.timeout + jitter % (par.timeout / 2), 0, peer)]))
  }

  /** Past the transaction's own deadline, out of hops, or the coin says so. */
  predicate ShouldFluff(par: Params, r: Relay, tx: Tx, now: nat, coin: bool) {
    tx in r.txs && (SatSub(now, r.txs[tx].start) >= r.txs[tx].deadline || r.txs[tx].hops >= par.maxHops || coin)
  }

  function AdvanceStem(r: Relay, tx: Tx, available: seq<Peer>, draw: nat): (Option<Peer>, Relay) {
    if tx !in r.txs then (None, r)
    else
      var s := r.txs[tx];
      var hopped := s.(hops := s.hops + 1);
      var r1 := UpdatePath(r.(txs := r.txs[tx := hopped]), s.current, available, draw);
      if s.current in r1.paths then
        var next := r1.paths[s.current].next;
        (Some(next), r1.(txs := r1.txs[tx := hopped.(current := next, next := Some(next))]))
      else (None, r1)
  }

  function Cleanup(r: Relay, now: nat): Relay {
    Relay(map p | p in r.paths && r.paths[p].expiry > now :: r.paths[p],
          map t | t in r.txs && SatSub(now, r.txs[t].start) < r.txs[t].deadline * 2 :: r.txs[t])
  }

  class DandelionRelay {
    var paths: map<Peer, Path>
    var txs: map<Tx, Stem>
    const par: Params

    ghost function View(): Relay
      reads this
    {
      Relay(paths, txs)
    }

    method InitializeStemPath(peer: Peer, available: seq<Peer>, draw: nat, now: nat) returns (next: Option<Peer>)
      modifies `paths
      ensures (next, View()) == InitPath(old(View()), peer, available, draw, now)
    {
      var c := Filter(p => p != peer, available);
      if c == [] {
        return None;
      }
      next := Some(Draw(c, draw));
      paths := paths[peer := Path(next.value, now + PATH_EXPIRY, 0)];
    }

    method UpdateStemPath(peer: Peer, available: seq<Peer>, draw: nat)
      modifies `paths
      ensures View() == UpdatePath(old(View()), peer, available, draw)
    {
      if peer in paths {
        var path := paths[peer];
        var c := Filter(p => p != peer && p != path.next, available);
        if c != [] {
          paths := paths[peer := path.(next := Draw(c, draw), hopCount := Wrap(path.hopCount + 1, 255))];
        }
      }
    }

    method StartStemPhase(tx: Tx, peer: Peer, available: seq<Peer>, draw: nat, jitter: nat, now: nat, realNow: nat)
      returns (next: Option<Peer>)
      requires par.timeout >= 2
      modifies this
      ensures (next, View()) == StartStem(par, old(View()), tx, peer, available, draw, jitter, now, realNow)
    {
      if peer in paths && paths[peer].expiry > realNow {
        next := Some(paths[peer].next);
      } else {
        next := InitializeStemPath(peer, available, draw, now);
      }
      if next.Some? {
        txs := txs[tx := Stem(peer, next, now, par.timeout + jitter % (par.timeout / 2), 0, peer)];
      }
    }

    method Advance(tx: Tx, available: seq<Peer>, draw: nat) returns (next: Option<Peer>)
      modifies this
      ensures (next, View()) == AdvanceStem(old(View()), tx, available, draw)
    {
      if tx !in txs {
        return None;
      }
      txs := txs[tx := txs[tx].(hops := txs[tx].hops + 1)];
      var current := txs[tx].current;
      UpdateStemPath(current, available, draw);
      if current !in paths {
        return None;
      }
      next := Some(paths[current].next);
      txs := txs[tx := txs[tx].(current := next.value, next := next)];
    }

    /** Forgets exactly the expired paths and the transactions past twice their deadline; the rest stays as it is. */
    method CleanupExpired(now: nat)
      modifies this
      ensures forall p :: p in old(paths) ==> (p !in paths <==> old(paths)[p].expiry <= now)
      ensures forall t :: t in old(txs) ==> (t !in txs <==> old(txs)[t].start + 2 * old(txs)[t].deadline <= now || old(txs)[t].deadline == 0)
      ensures (forall p :: p in paths ==> p in old(paths) && paths[p] == old(paths)[p])
              && forall t :: t in txs ==> t in old(txs) && txs[t] == old(txs)[t]
      ensures View() == Cleanup(old(View()), now)
    {
      DropExpiredPaths(now);
      DropExpiredTxs(now);
    }

    method DropExpiredPaths(now: nat)
      modifies `paths
      ensures forall p :: p in paths <==> p in old(paths) && old(paths)[p].expiry > now
      ensures forall p :: p in paths ==> paths[p] == old(paths)[p]
    {
      var todo := paths.Keys;
      while todo != {}
        invariant todo <= paths.Keys <= old(paths).Keys
        invariant forall p :: p in paths ==> paths[p] == old(paths)[p]
        invariant forall p :: p in old(paths) && p !in todo ==> (p in paths <==> old(paths)[p].expiry > now)
        decreases |todo|
      {
        var p :| p in todo;
        todo := todo - {p};
        if paths[p].expiry <= now {
          paths := paths - {p};
        }
      }
    }

    method DropExpiredTxs(now: nat)
      modifies `txs
      ensures forall t :: t in txs <==> t in old(txs) && SatSub(now, old(txs)[t].start) < old(txs)[t].deadline * 2
      ensures forall t :: t in txs ==> txs[t] == old(txs)[t]
    {
      var todo := txs.Keys;
      while todo != {}
        invariant todo <= txs.Keys <= old(txs).Keys
        invariant forall t :: t in txs ==> txs[t] == old(txs)[t]
        invariant forall t :: t in old(txs) && t !in todo ==> (t in txs <==> SatSub(now, old(txs)[t].start) < old(txs)[t].deadline * 2)
        decreases |todo|
      {
        var t :| t in todo;
        todo := todo - {t};
        if SatSub(now, txs[t].start) >= txs[t].deadline * 2 {
          txs := txs - {t};
        }
      }
    }

    /** `mark_transaction_relayed`: leaves the stem phase if the transaction should fluff. */
    method MarkRelayed(tx: Tx, coin: bool, now: nat)
      requires par.timeout >= 2
      modifies `txs
      ensures View() == Apply(par, old(View()), Marked(tx, coin, now)).0
    {
      if tx in txs && (SatSub(now, txs[tx].start) >= txs[tx].deadline || txs[tx].hops >= par.maxHops || coin) {
        txs := txs - {tx};
      }
    }

    /** `relay_transaction_dandelion`: start, advance after a false fluff test at the same instant, or fluff. */
    method RelayTransaction(tx: Tx, peer: Peer, available: seq<Peer>, draw: nat, jitter: nat, coin: bool, now: nat, realNow: nat)
      returns (next: Option<Peer>)
      requires par.timeout >= 2
      modifies this
      ensures View() == Apply(par, old(View()), RelayTx(tx, peer, available, draw, jitter, coin, now, realNow)).0
      ensures next == SentTo(Apply(par, old(View()), RelayTx(tx, peer, available, draw, jitter, coin, now, realNow)).1)
    {
      if tx in txs && txs[tx].next.Some? {
        if SatSub(now, txs[tx].start) >= txs[tx].deadline || txs[tx].hops >= par.maxHops || coin {
          txs := txs - {tx};
          return None;
        }
        next := Advance(tx, available, draw);
      } else if available == [] {
        return None;
      } else {
        next := StartStemPhase(tx, peer, available, draw, jitter, now, realNow);
      }
    }
  }

  // ---------------------------------------------------------------------------
  // Runs and what they send
  // ---------------------------------------------------------------------------

  datatype Op =
    | RelayTx(tx: Tx, peer: Peer, available: seq<Peer>, draw: nat, jitter: nat, coin: bool, now: nat, realNow: nat)
    | Marked(tx: Tx, coin: bool, now: nat)
    | PathFor(peer: Peer, available: seq<Peer>, draw: nat, now: nat)
    | CleanupAt(now: nat)

  datatype Event = Started(tx: Tx, peer: Peer, next: Peer, at: nat)
                 | Advanced(tx: Tx, holder: Peer, nextHolder: Option<Peer>, at: nat)
                 | Fluffed(tx: Tx, at: nat)

  /** The one peer the events relay to, or none: a broadcast or nothing. */
  function SentTo(events: seq<Event>): Option<Peer> {
    if events == [] then None
    else match events[0] case Started(_, _, next, _) => Some(next) case Advanced(_, _, next, _) => next case Fluffed(_, _) => None
  }

  function Apply(par: Params, r: Relay, op: Op): (Relay, seq<Event>)
    requires par.timeout >= 2
  {
    match op
    case PathFor(peer, available, draw, now) => (InitPath(r, peer, available, draw, now).1, [])
    case CleanupAt(now) => (Cleanup(r, now), [])
    case Marked(tx, coin, now) =>
      if ShouldFluff(par, r, tx, now, coin) then (r.(txs := r.txs - {tx}), [Fluffed(tx, now)]) else (r, [])
    case RelayTx(tx, peer, available, draw, jitter, coin, now, realNow) =>
      if tx in r.txs && r.txs[tx].next.Some? then
        if ShouldFluff(par, r, tx, now, coin) then (r.(txs := r.txs - {tx}), [Fluffed(tx, now)])
        else
          var (next, r1) := AdvanceStem(r, tx, available, draw);
          (r1, [Advanced(tx, r.txs[tx].current, next, now)])
      else if available == [] then (r, [])
      else
        var (next, r1) := StartStem(par, r, tx, peer, available, draw, jitter, now, realNow);
        (r1, if next.Some? then [Started(tx, peer, next.value, now)] else [])
  }

  datatype Sys = Sys(relay: Relay, log: seq<Event>)

  function Step(par: Params, s: Sys, op: Op): Sys
    requires par.timeout >= 2
  {
    var out := Apply(par, s.relay, op);
    Sys(out.0, s.log + out.1)
  }

  function Run(par: Params, s: Sys, ops: seq<Op>): Sys
    requires par.timeout >= 2
    decreases ops
  {
    if ops == [] then s else Run(par, Step(par, s, ops[0]), ops[1..])
  }

  /** Hops taken since the transaction last entered the stem phase. */
  function HopsSinceStart(log: seq<Event>, tx: Tx): nat {
    if log == [] then 0
    else
      var last, front := log[|log| - 1], log[..|log| - 1];
      if last.Started? && last.tx == tx then 0
      else HopsSinceStart(front, tx) + if last.Advanced? && last.tx == tx then 1 else 0
  }

  /** When the transaction last entered the stem phase. */
  function StartedAt(log: seq<Event>, tx: Tx): Option<nat> {
    if log == [] then None
    else
      var last, front := log[|log| - 1], log[..|log| - 1];
      if last.Started? && last.tx == tx then Some(last.at) else StartedAt(front, tx)
  }

  /** A start or hop goes to a peer other than the holder, and a hop within one and a half timeouts of the start. */
  ghost predicate GoodHop(par: Params, log: seq<Event>, i: nat)
    requires i < |log|
  {
    && (log[i].Started? ==> log[i].next != log[i].peer)
    && (log[i].Advanced? ==>
      && log[i].nextHolder != Some(log[i].holder)
      && StartedAt(log[..i], log[i].tx).Some?
      && SatSub(log[i].at, StartedAt(log[..i], log[i].tx).value) < par.timeout + par.timeout / 2)
  }

  /** No path leads back to its own peer; deadlines lie in [timeout, 1.5 timeout). */
  ghost predicate RelayOk(par: Params, r: Relay) {
    && (forall p :: p in r.paths ==> r.paths[p].next != p)
    && (forall t :: t in r.txs ==>
          r.txs[t].next.Some? && par.timeout <= r.txs[t].deadline < par.timeout + par.timeout / 2)
  }

  ghost predicate TxLogged(s: Sys, t: Tx) {
    t in s.relay.txs ==>
      s.relay.txs[t].hops == HopsSinceStart(s.log, t) && StartedAt(s.log, t) == Some(s.relay.txs[t].start)
  }

  /** The log accounts for every hop and start of the transactions in stem. */
  ghost predicate LogOk(par: Params, s: Sys) {
    && (forall t :: HopsSinceStart(s.log, t) <= par.maxHops)
    && (forall t :: TxLogged(s, t))
    && (forall i :: 0 <= i < |s.log| ==> GoodHop(par, s.log, i))
  }

  ghost predicate SysOk(par: Params, s: Sys) {
    RelayOk(par, s.relay) && LogOk(par, s)
  }

  lemma AdvanceKeepsRelayOk(par: Params, r: Relay, tx: Tx, available: seq<Peer>, draw: nat)
    requires RelayOk(par, r) && tx in r.txs
    ensures var (next, r1) := AdvanceStem(r, tx, available, draw);
            && RelayOk(par, r1) && next != Some(r.txs[tx].current)
            && r1.txs.Keys == r.txs.Keys
            && r1.txs[tx].hops == r.txs[tx].hops + 1 && r1.txs[tx].start == r.txs[tx].start
            && (forall t :: t in r.txs && t != tx ==> r1.txs[t] == r.txs[t])
  {
  }

  lemma GoodHopsExtend(par: Params, log: seq<Event>, e: Event)
    requires forall i :: 0 <= i < |log| ==> GoodHop(par, log, i)
    requires GoodHop(par, log + [e], |log|)
    ensures forall i :: 0 <= i < |log + [e]| ==> GoodHop(par, log + [e], i)
  {
    forall i | 0 <= i < |log| ensures GoodHop(par, log + [e], i) {
      assert GoodHop(par, log, i);
      assert (log + [e])[..i] == log[..i];
    }
  }

  /** One more event keeps the accounts if it is a good hop and the transactions in stem match it. */
  lemma LogOkExtends(par: Params, s: Sys, r: Relay, e: Event)
    requires LogOk(par, s) && GoodHop(par, s.log + [e], |s.log|)
    requires e.Advanced? ==> HopsSinceStart(s.log, e.tx) < par.maxHops
    requires forall t :: t in r.txs && t != e.tx ==> t in s.relay.txs && r.txs[t].hops == s.relay.txs[t].hops && r.txs[t].start == s.relay.txs[t].start
    requires TxLogged(Sys(r, s.log + [e]), e.tx)
    ensures LogOk(par, Sys(r, s.log + [e]))
  {
    GoodHopsExtend(par, s.log, e);
    forall t ensures HopsSinceStart(s.log + [e], t) <= par.maxHops && TxLogged(Sys(r, s.log + [e]), t) {
      assert TxLogged(s, t);
    }
  }

  lemma StepKeepsSysOk(par: Params, s: Sys, op: Op)
    requires SysOk(par, s) && par.timeout >= 2
    ensures SysOk(par, Step(par, s, op))
  {
    var r := s.relay;
    match op {
      case PathFor(peer, available, draw, now) =>
        QuietKeepsLogOk(par, s, InitPath(r, peer, available, draw, now).1);
      case CleanupAt(now) => QuietKeepsLogOk(par, s, Cleanup(r, now));
      case Marked(tx, coin, now) =>
        if ShouldFluff(par, r, tx, now, coin) {
          FluffKeepsSysOk(par, s, tx, now);
        } else {
          assert s.log + [] == s.log;
        }
      case RelayTx(tx, peer, available, draw, jitter, coin, now, realNow) =>
        if tx in r.txs && r.txs[tx].next.Some? {
          if ShouldFluff(par, r, tx, now, coin) {
            FluffKeepsSysOk(par, s, tx, now);
          } else {
            HopKeepsSysOk(par, s, tx, available, draw, coin, now);
          }
        } else if available == [] {
          assert s.log + [] == s.log;
        } else {
          StartKeepsSysOk(par, s, tx, peer, available, draw, jitter, now, realNow);
        }
    }
  }

  lemma QuietKeepsLogOk(par: Params, s: Sys, r: Relay)
    requires LogOk(par, s) && forall t :: t in r.txs ==> t in s.relay.txs && r.txs[t] == s.relay.txs[t]
    ensures LogOk(par, Sys(r, s.log + []))
  {
    assert s.log + [] == s.log;
    forall t ensures TxLogged(Sys(r, s.log), t) {
      assert TxLogged(s, t);
    }
  }

  lemma FluffKeepsSysOk(par: Params, s: Sys, tx: Tx, now: nat)
    requires SysOk(par, s)
    ensures SysOk(par, Sys(s.relay.(txs := s.relay.txs - {tx}), s.log + [Fluffed(tx, now)]))
  {
    LogOkExtends(par, s, s.relay.(txs := s.relay.txs - {tx}), Fluffed(tx, now));
  }

  lemma HopKeepsSysOk(par: Params, s: Sys, tx: Tx, available: seq<Peer>, draw: nat, coin: bool, now: nat)
    requires SysOk(par, s) && tx in s.relay.txs && !ShouldFluff(par, s.relay, tx, now, coin)
    ensures var out := AdvanceStem(s.relay, tx, available, draw);
            SysOk(par, Sys(out.1, s.log + [Advanced(tx, s.relay.txs[tx].current, out.0, now)]))
  {
    var out := AdvanceStem(s.relay, tx, available, draw);
    var e := Advanced(tx, s.relay.txs[tx].current, out.0, now);
    AdvanceKeepsRelayOk(par, s.relay, tx, available, draw);
    assert TxLogged(s, tx);
    assert (s.log + [e])[..|s.log|] == s.log;
    LogOkExtends(par, s, out.1, e);
  }

  lemma StartKeepsSysOk(par: Params, s: Sys, tx: Tx, peer: Peer, available: seq<Peer>, draw: nat, jitter: nat, now: nat, realNow: nat)
    requires SysOk(par, s) && par.timeout >= 2
    ensures var out := StartStem(par, s.relay, tx, peer, available, draw, jitter, now, realNow);
            SysOk(par, Sys(out.1, s.log + if out.0.Some? then [Started(tx, peer, out.0.value, now)] else []))
  {
    var out := StartStem(par, s.relay, tx, peer, available, draw, jitter, now, realNow);
    if out.0.Some? {
      var e := Started(tx, peer, out.0.value, now);
      LogOkExtends(par, s, out.1, e);
    } else {
      QuietKeepsLogOk(par, s, out.1);
    }
  }

  /**
   In every run: a start names a peer other than the one that starts, and at most `maxHops`
   hops follow it, each to a peer other than the holder and less than one and a half timeouts
   after the start.
   */
  lemma {:induction false} EveryRunIsBounded(par: Params, s: Sys, ops: seq<Op>)
    requires SysOk(par, s) && par.timeout >= 2
    ensures SysOk(par, Run(par, s, ops))
    decreases ops
  {
    if ops != [] {
      StepKeepsSysOk(par, s, ops[0]);
      EveryRunIsBounded(par, Step(par, s, ops[0]), ops[1..]);
    }
  }

  /** From an empty relay, so an 8-bit hop counter never overflows. */
  lemma HopsFitInAByte(par: Params, ops: seq<Op>, tx: Tx)
    requires par.timeout >= 2 && par.maxHops <= 255
    ensures var r := Run(par, Sys(Relay(map[], map[]), []), ops).relay; tx in r.txs ==> r.txs[tx].hops <= par.maxHops <= 255
  {
    EveryRunIsBounded(par, Sys(Relay(map[], map[]), []), ops);
    assert TxLogged(Run(par, Sys(Relay(map[], map[]), []), ops), tx);
  }

  /** Whoever asks one and a half timeouts after the start, or after the last hop, gets a broadcast. */
  lemma LateOrFarMeansFluff(par: Params, s: Sys, tx: Tx, now: nat, coin: bool)
    requires SysOk(par, s) && tx in s.relay.txs
    requires SatSub(now, s.relay.txs[tx].start) >= par.timeout + par.timeout / 2 || HopsSinceStart(s.log, tx) == par.maxHops
    ensures ShouldFluff(par, s.relay, tx, now, coin)
  {
    assert TxLogged(s, tx);
  }

  /** Cleanup drops exactly the transactions past twice their deadline, all of which had to fluff anyway. */
  lemma CleanupDropsOnlyExpired(par: Params, r: Relay, now: nat, tx: Tx, coin: bool)
    requires RelayOk(par, r) && par.timeout >= 2 && tx in r.txs
    ensures tx !in Cleanup(r, now).txs <==> SatSub(now, r.txs[tx].start) >= 2 * r.txs[tx].deadline
    ensures tx !in Cleanup(r, now).txs ==> ShouldFluff(par, r, tx, now, coin)
    ensures forall p :: p in r.paths && p !in Cleanup(r, now).paths ==> r.paths[p].expiry <= now
  {
  }

  function UpdateMany(r: Relay, peer: Peer, available: seq<Peer>, n: nat): Relay {
    if n == 0 then r else UpdatePath(UpdateMany(r, peer, available, n - 1), peer, available, 0)
  }

  lemma UpdateCounts(r: Relay, peer: Peer, a: Peer, b: Peer)
    requires peer in r.paths && a != b && a != peer && b != peer
    ensures var r1 := UpdatePath(r, peer, [a, b], 0); peer in r1.paths && r1.paths[peer].hopCount == Wrap(r.paths[peer].hopCount + 1, 255)
  {
    var path := r.paths[peer];
    var other := if path.next == a then b else a;
    assert other in [a, b];
    assert other in Filter(p => p != peer && p != path.next, [a, b]);
  }

  /** The path's own hop counter has no such bound: with two other peers it is back where it was after 256 relays. */
  lemma {:induction false} PathCounterWraps(r: Relay, peer: Peer, a: Peer, b: Peer, n: nat)
    requires peer in r.paths && a != b && a != peer && b != peer && r.paths[peer].hopCount <= 255
    ensures var r1 := UpdateMany(r, peer, [a, b], n); peer in r1.paths && r1.paths[peer].hopCount == (r.paths[peer].hopCount + n) % 256
  {
    if n > 0 {
      PathCounterWraps(r, peer, a, b, n - 1);
      var before := UpdateMany(r, peer, [a, b], n - 1);
      UpdateCounts(before, peer, a, b);
    }
  }
}
