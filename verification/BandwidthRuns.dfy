/** What is served in any interval, over whole runs of requests, refusals and sweeps. */
module BandwidthRuns {
  import opened Prelude
  import opened WindowBound
  import opened Bandwidth

  /** A request is checked, perhaps noted as a request, and its response recorded; a probe is only checked. */
  datatype Step =
    | Serve(service: Service, addr: Addr, checkAt: nat, requestAt: Option<nat>, recordAt: nat, bytes: nat)
    | Probe(service: Service, addr: Addr, at: nat)
    | Sweep(at: nat, maxIdle: nat)

  datatype Done = Done(service: Service, addr: Addr, requestAt: Option<nat>, recordAt: nat, bytes: nat)

  datatype Sys = Sys(trackers: Trackers, served: seq<Done>)

  predicate KeyOf(k: Key, s: Service, a: Addr) {
    k == PeerKey(s, a) || k == IpKey(s, a) || k == SubnetKey(s, a)
  }

  function AfterCheck(limits: map<Service, Limits>, ts: Trackers, s: Service, a: Addr, now: nat): (bool, Trackers) {
    if s in limits then Check(ts, limits[s], s, a, now) else (true, ts)
  }

  function Recorded(ts: Trackers, s: Service, a: Addr, requestAt: Option<nat>, recordAt: nat, bytes: nat): Trackers {
    RecordedBytes(if requestAt.Some? then NotedRequest(ts, s, a, requestAt.value) else ts, s, a, recordAt, bytes)
  }

  function Next(limits: map<Service, Limits>, sys: Sys, step: Step): Sys {
    match step
    case Probe(s, a, at) => sys.(trackers := AfterCheck(limits, sys.trackers, s, a, at).1)
    case Sweep(at, maxIdle) => sys.(trackers := Swept(sys.trackers, at, maxIdle))
    case Serve(s, a, checkAt, requestAt, recordAt, bytes) =>
      var checked := AfterCheck(limits, sys.trackers, s, a, checkAt);
      if !checked.0 then sys.(trackers := checked.1)
      else Sys(Recorded(checked.1, s, a, requestAt, recordAt, bytes), sys.served + [Done(s, a, requestAt, recordAt, bytes)])
  }

  function Run(limits: map<Service, Limits>, sys: Sys, steps: seq<Step>): Sys
    decreases steps
  {
    if steps == [] then sys else Run(limits, Next(limits, sys, steps[0]), steps[1..])
  }

  /** The limit a scope has for a kind of amount, if any. */
  function Limit(kind: Kind, l: Limits, scope: Scope): Option<nat> {
    match scope
    case Peer(_) => (match kind case HourBytes => Some(l.peerHour) case DayBytes => Some(l.peerDay) case HourRequests => l.maxRequests)
    case Ip(_) => (match kind case HourBytes => Some(l.ipHour) case DayBytes => Some(l.ipDay) case HourRequests => None)
    case Subnet(_) => (match kind case HourBytes => Some(l.subnetHour) case DayBytes => Some(l.subnetDay) case HourRequests => None)
  }

  /** The most a window can hold: one admitted amount, at most `b`, on top of just under the limit. */
  function Cap(limit: nat, kind: Kind, b: nat): nat {
    if limit == 0 then 0 else limit - 1 + if kind == HourRequests then 1 else b
  }

  /** The entries a served request adds under key `k`. */
  function EntriesOf(kind: Kind, k: Key, done: Done): seq<Entry> {
    if kind == HourRequests then
      if done.requestAt.Some? && (k == PeerKey(done.service, done.addr) || k == IpKey(done.service, done.addr))
      then [Entry(done.requestAt.value, 1)] else []
    else if KeyOf(k, done.service, done.addr) then [Entry(done.recordAt, done.bytes)] else []
  }

  /** Everything served under key `k`. */
  function KeyLog(kind: Kind, k: Key, served: seq<Done>): seq<Entry> {
    if served == [] then []
    else KeyLog(kind, k, served[..|served| - 1]) + EntriesOf(kind, k, served[|served| - 1])
  }

  lemma KeyLogSnoc(kind: Kind, k: Key, served: seq<Done>, done: Done)
    ensures KeyLog(kind, k, served + [done]) == KeyLog(kind, k, served) + EntriesOf(kind, k, done)
  {
    assert (served + [done])[..|served|] == served;
  }

  /**
   The clock never goes back and check-to-record pairs do not overlap; responses of the
   service under watch are at most `b` bytes.  Sweeps are allowed only with a delay bound
   `d`: every request is noted, recorded within `d` seconds, and a sweep spares trackers
   used within a window and `d` seconds.
   */
  ghost predicate Orderly(kind: Kind, k: Key, b: nat, d: Option<nat>, steps: seq<Step>, now: nat)
    decreases steps
  {
    steps == [] || (StepOk(kind, k, b, d, steps[0], now) && Orderly(kind, k, b, d, steps[1..], EndOf(steps[0])))
  }

  function EndOf(step: Step): nat {
    match step case Serve(_, _, _, _, recordAt, _) => recordAt case Probe(_, _, at) => at case Sweep(at, _) => at
  }

  ghost predicate StepOk(kind: Kind, k: Key, b: nat, d: Option<nat>, step: Step, now: nat) {
    match step
    case Probe(_, _, at) => now <= at
    case Sweep(at, maxIdle) => now <= at && d.Some? && maxIdle >= Len(kind) + d.value
    case Serve(s, a, checkAt, requestAt, recordAt, bytes) =>
      && now <= checkAt <= recordAt && (requestAt.Some? ==> checkAt <= requestAt.value <= recordAt)
      && (s == k.service ==> bytes <= b && (d.Some? ==> requestAt.Some? && recordAt <= requestAt.value + d.value))
  }

  // ---------------------------------------------------------------------------
  // One key through one step
  // ---------------------------------------------------------------------------

  /** A check looks at a key once or not at all; if it passes, every key of the peer was looked at and is under its limit. */
  lemma CheckEffect(kind: Kind, ts: Trackers, l: Limits, s: Service, a: Addr, now: nat, k: Key)
    ensures var after := Check(ts, l, s, a, now);
            var looked := Some(CheckAndReset(Fresh(Get(ts, k), now), now));
            && (Get(after.1, k) == Get(ts, k) || Get(after.1, k) == looked)
            && (after.0 && KeyOf(k, s, a) ==>
                  Get(after.1, k) == looked
                  && (Limit(kind, l, k.scope).Some? ==> Win(kind, looked.value).sum < Limit(kind, l, k.scope).value))
  {
  }

  lemma RequestEffect(ts: Trackers, s: Service, a: Addr, now: nat, k: Key)
    ensures Get(NotedRequest(ts, s, a, now), k) ==
            if k == PeerKey(s, a) || k == IpKey(s, a) then Some(RecordRequest(Fresh(Get(ts, k), now), now)) else Get(ts, k)
  {
  }

  lemma BandwidthEffect(ts: Trackers, s: Service, a: Addr, now: nat, bytes: nat, k: Key)
    ensures Get(RecordedBytes(ts, s, a, now, bytes), k) ==
            if KeyOf(k, s, a) then Some(RecordBytes(Fresh(Get(ts, k), now), now, bytes)) else Get(ts, k)
  {
  }

  /** The key has a limit for that kind, and its counter is wide enough; sweeps spare no subnet. */
  ghost predicate Watched(kind: Kind, k: Key, limits: map<Service, Limits>, b: nat, d: Option<nat>) {
    && k.service in limits && Limit(kind, limits[k.service], k.scope).Some? && (d.Some? ==> !k.scope.Subnet?)
    && CapOf(kind, k, limits, b) <= Width(kind)
  }

  ghost function CapOf(kind: Kind, k: Key, limits: map<Service, Limits>, b: nat): nat
    requires k.service in limits && Limit(kind, limits[k.service], k.scope).Some?
  {
    Cap(Limit(kind, limits[k.service], k.scope).value, kind, b)
  }

  /** The records of an admitted request keep the key's invariant. */
  lemma RecordingKeeps(kind: Kind, k: Key, limit: nat, b: nat, d: Option<nat>, t: Tracker, log: seq<Entry>, step: Step)
    requires step.Serve? && k.service == step.service && KeyOf(k, step.service, step.addr) && (d.Some? ==> !k.scope.Subnet?)
    requires kind == HourRequests ==> k.scope.Peer?
    requires StepOk(kind, k, b, d, step, step.checkAt)
    requires KeyInv(kind, d, Cap(limit, kind, b), Some(t), log, step.checkAt) && Win(kind, t).sum < limit
    requires Cap(limit, kind, b) <= Width(kind)
    ensures var noted := if step.requestAt.Some? && !k.scope.Subnet? then RecordRequest(t, step.requestAt.value) else t;
            KeyInv(kind, d, Cap(limit, kind, b), Some(RecordBytes(noted, step.recordAt, step.bytes)),
                   log + EntriesOf(kind, k, Done(step.service, step.addr, step.requestAt, step.recordAt, step.bytes)), step.recordAt)
  {
    var cap := Cap(limit, kind, b);
    var t1, log1, now1 := t, log, step.checkAt;
    if step.requestAt.Some? && !k.scope.Subnet? {
      var at := step.requestAt.value;
      RequestKeeps(kind, d, cap, Some(t), log, step.checkAt, at);
      t1, now1 := RecordRequest(t, at), at;
      log1 := if kind == HourRequests then log + [Entry(at, 1)] else log;
    }
    BytesKeep(kind, d, cap, Some(t1), log1, now1, step.recordAt, step.bytes);
    assert log + [] == log;
  }

  /** The key's invariant over the whole system. */
  ghost predicate SysInv(kind: Kind, k: Key, cap: nat, d: Option<nat>, sys: Sys, now: nat) {
    KeyInv(kind, d, cap, Get(sys.trackers, k), KeyLog(kind, k, sys.served), now)
  }

  lemma CheckKeeps(kind: Kind, k: Key, cap: nat, d: Option<nat>, limits: map<Service, Limits>, sys: Sys,
                   s: Service, a: Addr, now: nat, later: nat)
    requires SysInv(kind, k, cap, d, sys, now) && now <= later
    ensures SysInv(kind, k, cap, d, sys.(trackers := AfterCheck(limits, sys.trackers, s, a, later).1), later)
  {
    var t, log := Get(sys.trackers, k), KeyLog(kind, k, sys.served);
    TouchKeeps(kind, d, cap, t, log, now, later);
    WaitKeeps(kind, d, cap, t, log, now, later);
    if s in limits {
      CheckEffect(kind, sys.trackers, limits[s], s, a, later, k);
    }
  }

  lemma RecordedEffect(ts: Trackers, s: Service, a: Addr, requestAt: Option<nat>, recordAt: nat, bytes: nat, k: Key)
    ensures var t := Get(ts, k);
            Get(Recorded(ts, s, a, requestAt, recordAt, bytes), k) ==
            if !KeyOf(k, s, a) then t
            else if requestAt.Some? && !k.scope.Subnet?
            then Some(RecordBytes(RecordRequest(Fresh(t, requestAt.value), requestAt.value), recordAt, bytes))
            else Some(RecordBytes(Fresh(t, recordAt), recordAt, bytes))
  {
    if requestAt.Some? {
      RequestEffect(ts, s, a, requestAt.value, k);
      BandwidthEffect(NotedRequest(ts, s, a, requestAt.value), s, a, recordAt, bytes, k);
    } else {
      BandwidthEffect(ts, s, a, recordAt, bytes, k);
    }
  }

  /** A request that does not count under the key leaves its log alone. */
  lemma OthersKeepLog(kind: Kind, k: Key, served: seq<Done>, done: Done)
    requires !KeyOf(k, done.service, done.addr)
    ensures KeyLog(kind, k, served + [done]) == KeyLog(kind, k, served)
  {
    KeyLogSnoc(kind, k, served, done);
    assert EntriesOf(kind, k, done) == [];
  }

  lemma ServeKeeps(kind: Kind, k: Key, limits: map<Service, Limits>, b: nat, d: Option<nat>, sys: Sys, step: Step, now: nat)
    requires Watched(kind, k, limits, b, d) && step.Serve? && StepOk(kind, k, b, d, step, now)
    requires SysInv(kind, k, CapOf(kind, k, limits, b), d, sys, now)
    ensures SysInv(kind, k, CapOf(kind, k, limits, b), d, Next(limits, sys, step), step.recordAt)
  {
    var Serve(s, a, checkAt, requestAt, recordAt, bytes) := step;
    var checked := AfterCheck(limits, sys.trackers, s, a, checkAt);
    var cap := CapOf(kind, k, limits, b);
    if checked.0 && KeyOf(k, s, a) {
      var log := KeyLog(kind, k, sys.served);
      CheckEffect(kind, sys.trackers, limits[s], s, a, checkAt, k);
      TouchKeeps(kind, d, cap, Get(sys.trackers, k), log, now, checkAt);
      RecordingKeeps(kind, k, Limit(kind, limits[s], k.scope).value, b, d, checked.1[k], log, step);
      RecordedEffect(checked.1, s, a, requestAt, recordAt, bytes, k);
      KeyLogSnoc(kind, k, sys.served, Done(s, a, requestAt, recordAt, bytes));
    } else {
      var mid := sys.(trackers := checked.1);
      assert SysInv(kind, k, cap, d, mid, recordAt) by {
        CheckKeeps(kind, k, cap, d, limits, sys, s, a, now, checkAt);
        WaitKeeps(kind, d, cap, Get(checked.1, k), KeyLog(kind, k, sys.served), checkAt, recordAt);
      }
      if checked.0 {
        RecordedEffect(checked.1, s, a, requestAt, recordAt, bytes, k);
        OthersKeepLog(kind, k, sys.served, Done(s, a, requestAt, recordAt, bytes));
      }
    }
  }

  lemma StepKeeps(kind: Kind, k: Key, limits: map<Service, Limits>, b: nat, d: Option<nat>, sys: Sys, step: Step, now: nat)
    requires Watched(kind, k, limits, b, d) && StepOk(kind, k, b, d, step, now)
    requires SysInv(kind, k, CapOf(kind, k, limits, b), d, sys, now)
    ensures SysInv(kind, k, CapOf(kind, k, limits, b), d, Next(limits, sys, step), EndOf(step))
  {
    var cap := CapOf(kind, k, limits, b);
    match step {
      case Probe(s, a, at) => CheckKeeps(kind, k, cap, d, limits, sys, s, a, now, at);
      case Serve(_, _, _, _, _, _) => ServeKeeps(kind, k, limits, b, d, sys, step, now);
      case Sweep(at, maxIdle) =>
        var log := KeyLog(kind, k, sys.served);
        WaitKeeps(kind, d, cap, Get(sys.trackers, k), log, now, at);
        if k in sys.trackers && Idle(sys.trackers[k], at, maxIdle) {
          DropKeeps(kind, d.value, cap, sys.trackers[k], log, now, at, maxIdle);
        }
    }
  }

  function RunEnd(steps: seq<Step>, now: nat): nat {
    if steps == [] then now else RunEnd(steps[1..], EndOf(steps[0]))
  }

  lemma {:induction false} RunKeeps(kind: Kind, k: Key, limits: map<Service, Limits>, b: nat, d: Option<nat>,
                                    sys: Sys, steps: seq<Step>, now: nat)
    requires Watched(kind, k, limits, b, d) && Orderly(kind, k, b, d, steps, now)
    requires SysInv(kind, k, CapOf(kind, k, limits, b), d, sys, now)
    ensures SysInv(kind, k, CapOf(kind, k, limits, b), d, Run(limits, sys, steps), RunEnd(steps, now))
    decreases steps
  {
    if steps != [] {
      StepKeeps(kind, k, limits, b, d, sys, steps[0], now);
      RunKeeps(kind, k, limits, b, d, Next(limits, sys, steps[0]), steps[1..], EndOf(steps[0]));
    }
  }

  /**
   For a peer, an IP or a subnet, in bytes per hour, bytes per day or requests per hour: what
   was served in any interval of that length is at most twice the cap, and the counter itself
   never exceeds the cap and equals what was served in its window.
   */
  lemma ServedInAnyInterval(kind: Kind, k: Key, limits: map<Service, Limits>, b: nat, d: Option<nat>, steps: seq<Step>, now: nat)
    requires Watched(kind, k, limits, b, d) && Orderly(kind, k, b, d, steps, now)
    ensures var end := Run(limits, Sys(map[], []), steps);
            && (forall a: int :: InInterval(KeyLog(kind, k, end.served), a, Len(kind)) <= 2 * CapOf(kind, k, limits, b))
            && (k in end.trackers ==>
                  Win(kind, end.trackers[k]).sum == InInterval(KeyLog(kind, k, end.served), Win(kind, end.trackers[k]).start, Len(kind))
                  && Win(kind, end.trackers[k]).sum <= CapOf(kind, k, limits, b))
  {
    RunKeeps(kind, k, limits, b, d, Sys(map[], []), steps, now);
  }

  // ---------------------------------------------------------------------------
  // Who is refused
  // ---------------------------------------------------------------------------

  /** The tracker as a look at `now` finds it. */
  function Looked(ts: Trackers, k: Key, now: nat): Tracker {
    CheckAndReset(Fresh(Get(ts, k), now), now)
  }

  /** It has not reached the limit, if there is one. */
  predicate Under(kind: Kind, t: Tracker, l: Limits, scope: Scope) {
    Limit(kind, l, scope).Some? ==> Win(kind, t).sum < Limit(kind, l, scope).value
  }

  predicate AllUnder(t: Tracker, l: Limits, scope: Scope) {
    Under(HourBytes, t, l, scope) && Under(DayBytes, t, l, scope) && Under(HourRequests, t, l, scope)
  }

  lemma ScopeVerdict(t: Tracker, l: Limits, scope: Scope)
    ensures AllUnder(t, l, scope) <==>
            match scope case Peer(_) => PeerUnder(t, l) case Ip(_) => IpUnder(t, l) case Subnet(_) => SubnetUnder(t, l)
  {
  }

  /** A request is admitted exactly when no limit of its peer, IP or subnet is reached. */
  lemma AdmittedIff(ts: Trackers, l: Limits, s: Service, a: Addr, now: nat)
    ensures Check(ts, l, s, a, now).0 <==> forall k :: KeyOf(k, s, a) ==> AllUnder(Looked(ts, k, now), l, k.scope)
  {
    var p, i, n := PeerKey(s, a), IpKey(s, a), SubnetKey(s, a);
    assert KeyOf(p, s, a) && KeyOf(i, s, a) && KeyOf(n, s, a);
    assert Check(ts, l, s, a, now).0 <==>
           PeerUnder(Looked(ts, p, now), l) && IpUnder(Looked(ts, i, now), l) && SubnetUnder(Looked(ts, n, now), l);
    ScopeVerdict(Looked(ts, p, now), l, p.scope);
    ScopeVerdict(Looked(ts, i, now), l, i.scope);
    ScopeVerdict(Looked(ts, n, now), l, n.scope);
  }

  /** The clock never goes back and check-to-record pairs do not overlap; nothing else is asked of the run. */
  ghost predicate Timely(steps: seq<Step>, now: nat)
    decreases steps
  {
    steps == [] || (TimelyStep(steps[0], now) && Timely(steps[1..], EndOf(steps[0])))
  }

  ghost predicate TimelyStep(step: Step, now: nat) {
    match step
    case Probe(_, _, at) => now <= at
    case Sweep(at, _) => now <= at
    case Serve(_, _, checkAt, requestAt, recordAt, _) =>
      now <= checkAt <= recordAt && (requestAt.Some? ==> checkAt <= requestAt.value <= recordAt)
  }

  /** The counter of the key shows no more than was served under it since the counter's start. */
  ghost predicate Honest(kind: Kind, k: Key, sys: Sys, now: nat) {
    AtMostLogged(WinOf(kind, Get(sys.trackers, k)), KeyLog(kind, k, sys.served), now)
  }

  lemma CheckKeepsHonest(kind: Kind, k: Key, limits: map<Service, Limits>, sys: Sys, s: Service, a: Addr, now: nat, later: nat)
    requires Honest(kind, k, sys, now) && now <= later
    ensures Honest(kind, k, sys.(trackers := AfterCheck(limits, sys.trackers, s, a, later).1), later)
  {
    var t := Get(sys.trackers, k);
    RollAtMost(WinOf(kind, t), Len(kind), KeyLog(kind, k, sys.served), now, later);
    ResetRolls(kind, t, later);
    if s in limits {
      CheckEffect(kind, sys.trackers, limits[s], s, a, later, k);
    }
  }

  /** Noting a request. */
  lemma RequestKeepsHonest(kind: Kind, t: Option<Tracker>, log: seq<Entry>, now: nat, at: nat)
    requires AtMostLogged(WinOf(kind, t), log, now) && now <= at
    ensures AtMostLogged(Some(Win(kind, RecordRequest(Fresh(t, at), at))), if kind == HourRequests then log + [Entry(at, 1)] else log, at)
  {
    RollAtMost(WinOf(kind, t), Len(kind), log, now, at);
    ResetRolls(kind, t, at);
  }

  lemma BytesInWindow(kind: Kind, t: Tracker, at: nat, bytes: nat)
    ensures var w := Win(kind, CheckAndReset(t, at));
            Win(kind, RecordBytes(t, at, bytes)) == if kind == HourRequests then w else Window(Wrap(w.sum + bytes, U64_MAX), w.start)
  {
  }

  /** Recording bytes, even where the counter wraps around. */
  lemma BytesKeepHonest(kind: Kind, t: Option<Tracker>, log: seq<Entry>, now: nat, at: nat, bytes: nat)
    requires AtMostLogged(WinOf(kind, t), log, now) && now <= at
    ensures AtMostLogged(Some(Win(kind, RecordBytes(Fresh(t, at), at, bytes))), if kind != HourRequests then log + [Entry(at, bytes)] else log, at)
  {
    RollAtMost(WinOf(kind, t), Len(kind), log, now, at);
    ResetRolls(kind, t, at);
    BytesInWindow(kind, Fresh(t, at), at, bytes);
  }

  lemma RecordingKeepsHonest(kind: Kind, k: Key, sys: Sys, step: Step)
    requires step.Serve? && TimelyStep(step, step.checkAt) && Honest(kind, k, sys, step.checkAt)
    ensures var Serve(s, a, _, requestAt, recordAt, bytes) := step;
            Honest(kind, k, Sys(Recorded(sys.trackers, s, a, requestAt, recordAt, bytes), sys.served + [Done(s, a, requestAt, recordAt, bytes)]), recordAt)
  {
    var Serve(s, a, checkAt, requestAt, recordAt, bytes) := step;
    var t, log := Get(sys.trackers, k), KeyLog(kind, k, sys.served);
    RecordedEffect(sys.trackers, s, a, requestAt, recordAt, bytes, k);
    KeyLogSnoc(kind, k, sys.served, Done(s, a, requestAt, recordAt, bytes));
    if !KeyOf(k, s, a) {
      OthersKeepLog(kind, k, sys.served, Done(s, a, requestAt, recordAt, bytes));
      RollAtMost(WinOf(kind, t), Len(kind), log, checkAt, recordAt);
    } else if requestAt.Some? && !k.scope.Subnet? {
      RequestKeepsHonest(kind, t, log, checkAt, requestAt.value);
      BytesKeepHonest(kind, Some(RecordRequest(Fresh(t, requestAt.value), requestAt.value)),
                      if kind == HourRequests then log + [Entry(requestAt.value, 1)] else log, requestAt.value, recordAt, bytes);
    } else {
      assert log + [] == log;
      BytesKeepHonest(kind, t, log, checkAt, recordAt, bytes);
    }
  }

  lemma StepKeepsHonest(kind: Kind, k: Key, limits: map<Service, Limits>, sys: Sys, step: Step, now: nat)
    requires TimelyStep(step, now) && Honest(kind, k, sys, now)
    ensures Honest(kind, k, Next(limits, sys, step), EndOf(step))
  {
    match step {
      case Probe(s, a, at) => CheckKeepsHonest(kind, k, limits, sys, s, a, now, at);
      case Sweep(at, maxIdle) => RollAtMost(WinOf(kind, Get(sys.trackers, k)), Len(kind), KeyLog(kind, k, sys.served), now, at);
      case Serve(s, a, checkAt, requestAt, recordAt, bytes) =>
        var mid := sys.(trackers := AfterCheck(limits, sys.trackers, s, a, checkAt).1);
        CheckKeepsHonest(kind, k, limits, sys, s, a, now, checkAt);
        RecordingKeepsHonest(kind, k, mid, step);
        RollAtMost(WinOf(kind, Get(mid.trackers, k)), Len(kind), KeyLog(kind, k, mid.served), checkAt, recordAt);
    }
  }

  lemma {:induction false} RunKeepsHonest(kind: Kind, k: Key, limits: map<Service, Limits>, sys: Sys, steps: seq<Step>, now: nat)
    requires Timely(steps, now) && Honest(kind, k, sys, now)
    ensures Honest(kind, k, Run(limits, sys, steps), RunEnd(steps, now))
    decreases steps
  {
    if steps != [] {
      StepKeepsHonest(kind, k, limits, sys, steps[0], now);
      RunKeepsHonest(kind, k, limits, Next(limits, sys, steps[0]), steps[1..], EndOf(steps[0]));
    }
  }

  /** What was served under `k` in the window length up to `at` reaches the limit. */
  ghost predicate Reached(kind: Kind, k: Key, l: Limits, served: seq<Done>, at: nat) {
    Limit(kind, l, k.scope).Some?
    && InInterval(KeyLog(kind, k, served), at + 1 - Len(kind), Len(kind)) >= Limit(kind, l, k.scope).value
  }

  lemma OverIsReached(kind: Kind, k: Key, l: Limits, sys: Sys, now: nat, at: nat)
    requires Honest(kind, k, sys, now) && now <= at && !Under(kind, Looked(sys.trackers, k, at), l, k.scope)
    ensures Reached(kind, k, l, sys.served, at)
  {
    var t, log := Get(sys.trackers, k), KeyLog(kind, k, sys.served);
    RollAtMost(WinOf(kind, t), Len(kind), log, now, at);
    ResetRolls(kind, t, at);
    CountIsRecent(RollOrNew(WinOf(kind, t), Len(kind), at), Len(kind), log, at);
  }

  /** In any run, sweeps and wrapped counters included, whoever is refused was served a whole limit in the hour or day before. */
  lemma RefusalIsEarned(limits: map<Service, Limits>, steps: seq<Step>, now: nat, s: Service, a: Addr, at: nat)
    requires s in limits && Timely(steps, now) && RunEnd(steps, now) <= at
    requires !AfterCheck(limits, Run(limits, Sys(map[], []), steps).trackers, s, a, at).0
    ensures exists kind, k :: KeyOf(k, s, a) && Reached(kind, k, limits[s], Run(limits, Sys(map[], []), steps).served, at)
  {
    var end := Run(limits, Sys(map[], []), steps);
    AdmittedIff(end.trackers, limits[s], s, a, at);
    var k :| KeyOf(k, s, a) && !AllUnder(Looked(end.trackers, k, at), limits[s], k.scope);
    var kind :| !Under(kind, Looked(end.trackers, k, at), limits[s], k.scope);
    RunKeepsHonest(kind, k, limits, Sys(map[], []), steps, now);
    OverIsReached(kind, k, limits[s], end, RunEnd(steps, now), at);
  }

  /** One more served request adds its bytes under each of its keys. */
  lemma LogSumSnoc(kind: Kind, k: Key, front: seq<Done>, done: Done, lo: int, hi: int)
    requires kind != HourRequests
    ensures SumIn(KeyLog(kind, k, front + [done]), lo, hi)
            == SumIn(KeyLog(kind, k, front), lo, hi) + if KeyOf(k, done.service, done.addr) && lo <= done.recordAt < hi then done.bytes else 0
  {
    var log := KeyLog(kind, k, front);
    KeyLogSnoc(kind, k, front, done);
    assert log + [] == log;
  }
}
