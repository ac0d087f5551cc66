/**
 Trackers of what each peer, IP address and subnet was served, the admission checks made on
 them, and what one tracker says about any hour or day.
 */
module Bandwidth {
  import opened Prelude
  import opened WindowBound

  datatype Service = Ibd | CompactBlocks | Filters | UtxoCommitments | UtxoSet | FilteredBlocks | PackageRelay
                   | TransactionRelay | ModuleServing

  datatype Limits = Limits(peerDay: nat, peerHour: nat, ipDay: nat, ipHour: nat, subnetDay: nat, subnetHour: nat,
                           maxRequests: Option<nat>)

  datatype Addr = Addr(ip: seq<nat>, port: nat)

  /** What a tracker counts for: one peer, one IP address, or one /24 (IPv4) or /64 (IPv6) subnet. */
  datatype Scope = Peer(addr: Addr) | Ip(ip: seq<nat>) | Subnet(prefix: seq<nat>)

  datatype Key = Key(scope: Scope, service: Service)

  datatype Tracker = Tracker(dailyBytes: nat, hourlyBytes: nat, dailyStart: nat, hourlyStart: nat,
                             requestCount: nat, lastRequest: Option<nat>)

  type Trackers = map<Key, Tracker>

  function SubnetOf(ip: seq<nat>): seq<nat> {
    var n := if |ip| == 4 then 3 else 8;
    if |ip| <= n then ip else ip[..n]
  }

  function PeerKey(s: Service, a: Addr): Key { Key(Peer(a), s) }
  function IpKey(s: Service, a: Addr): Key { Key(Ip(a.ip), s) }
  function SubnetKey(s: Service, a: Addr): Key { Key(Subnet(SubnetOf(a.ip)), s) }

  function NewTracker(now: nat): Tracker {
    Tracker(0, 0, now, now, 0, None)
  }

  /** The daily and the hourly window are cleared independently; the request count goes with the hour. */
  function CheckAndReset(t: Tracker, now: nat): Tracker {
    var day := if SatSub(now, t.dailyStart) >= 86400 then t.(dailyBytes := 0, dailyStart := now) else t;
    if SatSub(now, t.hourlyStart) >= 3600 then day.(hourlyBytes := 0, requestCount := 0, hourlyStart := now) else day
  }

  /** Byte counters are 64 bits wide and wrap around. */
  function RecordBytes(t: Tracker, now: nat, bytes: nat): Tracker {
    var r := CheckAndReset(t, now);
    r.(dailyBytes := Wrap(r.dailyBytes + bytes, U64_MAX), hourlyBytes := Wrap(r.hourlyBytes + bytes, U64_MAX))
  }

  /** The request counter is 32 bits wide and wraps around. */
  function RecordRequest(t: Tracker, now: nat): Tracker {
    var r := CheckAndReset(t, now);
    r.(requestCount := Wrap(r.requestCount + 1, U32_MAX), lastRequest := Some(now))
  }

  function OrNew(ts: Trackers, k: Key, now: nat): Tracker {
    if k in ts then ts[k] else NewTracker(now)
  }

  function Touch(ts: Trackers, k: Key, now: nat): Trackers {
    ts[k := CheckAndReset(OrNew(ts, k, now), now)]
  }

  predicate PeerUnder(t: Tracker, l: Limits) {
    t.dailyBytes < l.peerDay && t.hourlyBytes < l.peerHour && (l.maxRequests.Some? ==> t.requestCount < l.maxRequests.value)
  }

  predicate IpUnder(t: Tracker, l: Limits) {
    t.dailyBytes < l.ipDay && t.hourlyBytes < l.ipHour
  }

  predicate SubnetUnder(t: Tracker, l: Limits) {
    t.dailyBytes < l.subnetDay && t.hourlyBytes < l.subnetHour
  }

  /** The checks stop at the first scope over its limit; later scopes are then not even looked at. */
  function Check(ts: Trackers, l: Limits, s: Service, a: Addr, now: nat): (bool, Trackers) {
    var peer := Touch(ts, PeerKey(s, a), now);
    if !PeerUnder(peer[PeerKey(s, a)], l) then (false, peer)
    else
      var ip := Touch(peer, IpKey(s, a), now);
      if !IpUnder(ip[IpKey(s, a)], l) then (false, ip)
      else
        var subnet := Touch(ip, SubnetKey(s, a), now);
        (SubnetUnder(subnet[SubnetKey(s, a)], l), subnet)
  }

  function PutBytes(ts: Trackers, k: Key, now: nat, bytes: nat): Trackers {
    ts[k := RecordBytes(OrNew(ts, k, now), now, bytes)]
  }

  function PutRequest(ts: Trackers, k: Key, now: nat): Trackers {
    ts[k := RecordRequest(OrNew(ts, k, now), now)]
  }

  function RecordedBytes(ts: Trackers, s: Service, a: Addr, now: nat, bytes: nat): Trackers {
    PutBytes(PutBytes(PutBytes(ts, PeerKey(s, a), now, bytes), IpKey(s, a), now, bytes), SubnetKey(s, a), now, bytes)
  }

  /** Subnet trackers are not told about requests. */
  function NotedRequest(ts: Trackers, s: Service, a: Addr, now: nat): Trackers {
    PutRequest(PutRequest(ts, PeerKey(s, a), now), IpKey(s, a), now)
  }

  predicate Idle(t: Tracker, now: nat, maxIdle: nat) {
    t.lastRequest.None? || t.lastRequest.value < SatSub(now, maxIdle)
  }

  function Swept(ts: Trackers, now: nat, maxIdle: nat): Trackers {
    map k | k in ts && !Idle(ts[k], now, maxIdle) :: ts[k]
  }

  class Manager {
    var trackers: Trackers
    var limits: map<Service, Limits>

    method Look(k: Key, now: nat) returns (t: Tracker)
      modifies `trackers
      ensures trackers == Touch(old(trackers), k, now) && t == trackers[k]
    {
      if k !in trackers {
        trackers := trackers[k := NewTracker(now)];
      }
      t := CheckAndReset(trackers[k], now);
      trackers := trackers[k := t];
    }

    method CheckServiceRequest(s: Service, a: Addr, now: nat) returns (ok: bool)
      modifies `trackers
      ensures s !in limits ==> ok && trackers == old(trackers)
      ensures s in limits ==> (ok, trackers) == Check(old(trackers), limits[s], s, a, now)
    {
      if s !in limits {
        return true;
      }
      var l := limits[s];
      var t := Look(PeerKey(s, a), now);
      if t.dailyBytes >= l.peerDay || t.hourlyBytes >= l.peerHour {
        return false;
      }
      if l.maxRequests.Some? && t.requestCount >= l.maxRequests.value {
        return false;
      }
      t := Look(IpKey(s, a), now);
      if t.dailyBytes >= l.ipDay || t.hourlyBytes >= l.ipHour {
        return false;
      }
      t := Look(SubnetKey(s, a), now);
      ok := t.dailyBytes < l.subnetDay && t.hourlyBytes < l.subnetHour;
    }

    method RecordServiceBandwidth(s: Service, a: Addr, now: nat, bytes: nat)
      modifies `trackers
      ensures trackers == RecordedBytes(old(trackers), s, a, now, bytes)
    {
      trackers := trackers[PeerKey(s, a) := RecordBytes(OrNew(trackers, PeerKey(s, a), now), now, bytes)];
      trackers := trackers[IpKey(s, a) := RecordBytes(OrNew(trackers, IpKey(s, a), now), now, bytes)];
      trackers := trackers[SubnetKey(s, a) := RecordBytes(OrNew(trackers, SubnetKey(s, a), now), now, bytes)];
    }

    method RecordServiceRequest(s: Service, a: Addr, now: nat)
      modifies `trackers
      ensures trackers == NotedRequest(old(trackers), s, a, now)
    {
      trackers := trackers[PeerKey(s, a) := RecordRequest(OrNew(trackers, PeerKey(s, a), now), now)];
      trackers := trackers[IpKey(s, a) := RecordRequest(OrNew(trackers, IpKey(s, a), now), now)];
    }

    /** Keeps a tracker exactly if a request was noted for it at most `maxIdle` seconds ago, and keeps it as it is. */
    method EvictStaleEntries(now: nat, maxIdle: nat)
      modifies `trackers
      ensures forall k :: k in trackers <==>
                k in old(trackers) && exists at :: old(trackers)[k].lastRequest == Some(at) && now <= at + maxIdle
      ensures forall k :: k in trackers ==> trackers[k] == old(trackers)[k]
      ensures trackers == Swept(old(trackers), now, maxIdle)
    {
      var cutoff := SatSub(now, maxIdle);
      var before, todo := trackers, trackers.Keys;
      while todo != {}
        invariant todo <= trackers.Keys <= before.Keys
        invariant forall k :: k in trackers ==> trackers[k] == before[k]
        invariant forall k :: k in before && k !in todo ==> (k in trackers <==> !Idle(before[k], now, maxIdle))
        decreases |todo|
      {
        var k :| k in todo;
        todo := todo - {k};
        if trackers[k].lastRequest.None? || trackers[k].lastRequest.value < cutoff {
          trackers := trackers - {k};
        }
      }
    }
  }

  // ---------------------------------------------------------------------------
  // One tracker's windows
  // ---------------------------------------------------------------------------

  datatype Kind = HourBytes | DayBytes | HourRequests

  function Len(kind: Kind): nat {
    if kind == DayBytes then 86400 else 3600
  }

  function Win(kind: Kind, t: Tracker): Window {
    match kind
    case HourBytes => Window(t.hourlyBytes, t.hourlyStart)
    case DayBytes => Window(t.dailyBytes, t.dailyStart)
    case HourRequests => Window(t.requestCount, t.hourlyStart)
  }

  /** The largest value the counter can hold. */
  function Width(kind: Kind): nat {
    if kind == HourRequests then U32_MAX else U64_MAX
  }

  function WinOf(kind: Kind, t: Option<Tracker>): Option<Window> {
    if t.None? then None else Some(Win(kind, t.value))
  }

  function Get(ts: Trackers, k: Key): Option<Tracker> {
    if k in ts then Some(ts[k]) else None
  }

  function Fresh(t: Option<Tracker>, now: nat): Tracker {
    if t.None? then NewTracker(now) else t.value
  }

  lemma ResetRolls(kind: Kind, t: Option<Tracker>, now: nat)
    ensures Win(kind, CheckAndReset(Fresh(t, now), now)) == RollOrNew(WinOf(kind, t), Len(kind), now)
    ensures CheckAndReset(Fresh(t, now), now).lastRequest == if t.None? then None else t.value.lastRequest
  {
  }

  /** Everything still counted was recorded at most `d` seconds after the last request. */
  ghost predicate Recent(kind: Kind, d: nat, t: Tracker, log: seq<Entry>) {
    forall i :: 0 <= i < |log| ==>
      log[i].time + Len(kind) < Win(kind, t).start || (t.lastRequest.Some? && log[i].time <= t.lastRequest.value + d)
  }

  /** `d` bounds how long after its request a response is recorded; without it no sweep may happen. */
  ghost predicate KeyInv(kind: Kind, d: Option<nat>, cap: nat, t: Option<Tracker>, log: seq<Entry>, now: nat) {
    && Tracks(WinOf(kind, t), Len(kind), log, cap, now)
    && (t.Some? && t.value.lastRequest.Some? ==> t.value.lastRequest.value <= now)
    && (t.Some? && d.Some? ==> Recent(kind, d.value, t.value, log))
  }

  lemma TouchKeeps(kind: Kind, d: Option<nat>, cap: nat, t: Option<Tracker>, log: seq<Entry>, now: nat, later: nat)
    requires KeyInv(kind, d, cap, t, log, now) && now <= later
    ensures KeyInv(kind, d, cap, Some(CheckAndReset(Fresh(t, later), later)), log, later)
  {
    ResetRolls(kind, t, later);
    RollTracks(WinOf(kind, t), Len(kind), log, cap, now, later);
  }

  lemma WaitKeeps(kind: Kind, d: Option<nat>, cap: nat, t: Option<Tracker>, log: seq<Entry>, now: nat, later: nat)
    requires KeyInv(kind, d, cap, t, log, now) && now <= later
    ensures KeyInv(kind, d, cap, t, log, later)
  {
  }

  lemma RequestKeeps(kind: Kind, d: Option<nat>, cap: nat, t: Option<Tracker>, log: seq<Entry>, now: nat, later: nat)
    requires KeyInv(kind, d, cap, t, log, now) && now <= later && cap <= Width(kind)
    requires kind == HourRequests ==> Win(kind, CheckAndReset(Fresh(t, later), later)).sum < cap
    ensures KeyInv(kind, d, cap, Some(RecordRequest(Fresh(t, later), later)),
                   if kind == HourRequests then log + [Entry(later, 1)] else log, later)
  {
    TouchKeeps(kind, d, cap, t, log, now, later);
    var r := CheckAndReset(Fresh(t, later), later);
    if kind == HourRequests {
      AddTracks(Win(kind, r), Len(kind), log, cap, Entry(later, 1));
    }
  }

  lemma BytesKeep(kind: Kind, d: Option<nat>, cap: nat, t: Option<Tracker>, log: seq<Entry>, now: nat, later: nat, bytes: nat)
    requires KeyInv(kind, d, cap, t, log, now) && now <= later && cap <= Width(kind)
    requires kind != HourRequests ==> Win(kind, CheckAndReset(Fresh(t, later), later)).sum + bytes <= cap
    requires kind != HourRequests && d.Some? ==>
               t.Some? && t.value.lastRequest.Some? && later <= t.value.lastRequest.value + d.value
    ensures KeyInv(kind, d, cap, Some(RecordBytes(Fresh(t, later), later, bytes)),
                   if kind != HourRequests then log + [Entry(later, bytes)] else log, later)
  {
    TouchKeeps(kind, d, cap, t, log, now, later);
    var r := CheckAndReset(Fresh(t, later), later);
    if kind != HourRequests {
      AddTracks(Win(kind, r), Len(kind), log, cap, Entry(later, bytes));
    }
  }

  lemma DropKeeps(kind: Kind, d: nat, cap: nat, t: Tracker, log: seq<Entry>, now: nat, later: nat, maxIdle: nat)
    requires KeyInv(kind, Some(d), cap, Some(t), log, now) && now <= later
    requires Idle(t, later, maxIdle) && maxIdle >= Len(kind) + d
    ensures KeyInv(kind, Some(d), cap, None, log, later)
  {
  }
}
