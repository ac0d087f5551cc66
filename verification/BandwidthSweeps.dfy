/**
 What a sweep does to the service limits: which sweeps nobody notices, and which ones let a
 peer past every bound.
 */
module BandwidthSweeps {
  import opened Prelude
  import opened WindowBound
  import opened Bandwidth
  import opened BandwidthRuns
  import opened BandwidthPeer

  // ---------------------------------------------------------------------------
  // One check after a sweep
  // ---------------------------------------------------------------------------

  /** Every counter of an idle tracker is zero or past its window. */
  ghost predicate IdleIsSpent(ts: Trackers, at: nat, maxIdle: nat) {
    forall k, kind :: k in ts && Idle(ts[k], at, maxIdle) ==> Spent(kind, ts[k], at)
  }

  predicate Spent(kind: Kind, t: Tracker, at: nat) {
    Win(kind, t).sum == 0 || Win(kind, t).start + Len(kind) <= at
  }

  /** A spent tracker and a new one look the same from then on. */
  lemma SpentLooksNew(t: Tracker, l: Limits, scope: Scope, at: nat, now: nat)
    requires Spent(HourBytes, t, at) && Spent(DayBytes, t, at) && Spent(HourRequests, t, at) && at <= now
    ensures AllUnder(CheckAndReset(t, now), l, scope) == AllUnder(CheckAndReset(NewTracker(now), now), l, scope)
  {
    assert forall kind :: Win(kind, CheckAndReset(t, now)).sum == 0 == Win(kind, CheckAndReset(NewTracker(now), now)).sum;
  }

  /** A sweep that drops only spent counters does not change the verdict of the next check, whenever that comes. */
  lemma SpentSweepIsUnnoticed(ts: Trackers, l: Limits, s: Service, a: Addr, at: nat, maxIdle: nat, now: nat)
    requires IdleIsSpent(ts, at, maxIdle) && at <= now
    ensures Check(Swept(ts, at, maxIdle), l, s, a, now).0 == Check(ts, l, s, a, now).0
  {
    var swept := Swept(ts, at, maxIdle);
    AdmittedIff(ts, l, s, a, now);
    AdmittedIff(swept, l, s, a, now);
    forall k ensures AllUnder(Looked(swept, k, now), l, k.scope) == AllUnder(Looked(ts, k, now), l, k.scope) {
      if k in ts && k !in swept {
        SpentLooksNew(ts[k], l, k.scope, at, now);
      }
    }
  }

  // ---------------------------------------------------------------------------
  // Whole runs after a sweep
  // ---------------------------------------------------------------------------

  /** Both windows of the tracker are over. */
  predicate Over(t: Tracker, at: nat) {
    t.dailyStart + 86400 <= at && t.hourlyStart + 3600 <= at
  }

  predicate SameWindows(t: Tracker, u: Tracker) {
    t.(lastRequest := None) == u.(lastRequest := None)
  }

  /** No request was noted from `cutoff` on. */
  predicate Quiet(t: Tracker, cutoff: nat) {
    t.lastRequest.None? || t.lastRequest.value < cutoff
  }

  /**
   A tracker `t` and what a sweep up to `cutoff` has made of it, `u`: gone, if its windows are
   over, or created anew since with the same windows.
   */
  predicate Twin(t: Option<Tracker>, u: Option<Tracker>, now: nat, cutoff: nat) {
    if u.None? then t.None? || (Over(t.value, now) && Quiet(t.value, cutoff))
    else t.Some? && SameWindows(t.value, u.value)
         && (t.value.lastRequest == u.value.lastRequest || (u.value.lastRequest.None? && Quiet(t.value, cutoff)))
  }

  ghost predicate Twins(ts: Trackers, us: Trackers, now: nat, cutoff: nat) {
    forall k :: Twin(Get(ts, k), Get(us, k), now, cutoff)
  }

  lemma PutTwins(ts: Trackers, us: Trackers, k: Key, t: Tracker, u: Tracker, now: nat, cutoff: nat)
    requires Twins(ts, us, now, cutoff) && Twin(Some(t), Some(u), now, cutoff)
    ensures Twins(ts[k := t], us[k := u], now, cutoff)
  {
    var ts1, us1 := ts[k := t], us[k := u];
    forall j ensures Twin(Get(ts1, j), Get(us1, j), now, cutoff) {
      assert Twin(Get(ts, j), Get(us, j), now, cutoff);
    }
  }

  lemma TouchTwins(ts: Trackers, us: Trackers, k: Key, now: nat, cutoff: nat)
    requires Twins(ts, us, now, cutoff)
    ensures Twins(Touch(ts, k, now), Touch(us, k, now), now, cutoff)
    ensures SameWindows(Touch(ts, k, now)[k], Touch(us, k, now)[k])
  {
    assert Twin(Get(ts, k), Get(us, k), now, cutoff);
    PutTwins(ts, us, k, Touch(ts, k, now)[k], Touch(us, k, now)[k], now, cutoff);
  }

  lemma CheckTwins(ts: Trackers, us: Trackers, l: Limits, s: Service, a: Addr, now: nat, cutoff: nat)
    requires Twins(ts, us, now, cutoff)
    ensures Check(ts, l, s, a, now).0 == Check(us, l, s, a, now).0
    ensures Twins(Check(ts, l, s, a, now).1, Check(us, l, s, a, now).1, now, cutoff)
  {
    var p, i, n := PeerKey(s, a), IpKey(s, a), SubnetKey(s, a);
    var tp, up := Touch(ts, p, now), Touch(us, p, now);
    TouchTwins(ts, us, p, now, cutoff);
    if PeerUnder(tp[p], l) {
      var ti, ui := Touch(tp, i, now), Touch(up, i, now);
      TouchTwins(tp, up, i, now, cutoff);
      if IpUnder(ti[i], l) {
        TouchTwins(ti, ui, n, now, cutoff);
      }
    }
  }

  lemma BytesTwins(ts: Trackers, us: Trackers, k: Key, now: nat, bytes: nat, cutoff: nat)
    requires Twins(ts, us, now, cutoff)
    ensures Twins(PutBytes(ts, k, now, bytes), PutBytes(us, k, now, bytes), now, cutoff)
  {
    assert Twin(Get(ts, k), Get(us, k), now, cutoff);
    PutTwins(ts, us, k, PutBytes(ts, k, now, bytes)[k], PutBytes(us, k, now, bytes)[k], now, cutoff);
  }

  lemma RequestTwins(ts: Trackers, us: Trackers, k: Key, now: nat, cutoff: nat)
    requires Twins(ts, us, now, cutoff)
    ensures Twins(PutRequest(ts, k, now), PutRequest(us, k, now), now, cutoff)
  {
    assert Twin(Get(ts, k), Get(us, k), now, cutoff);
    PutTwins(ts, us, k, PutRequest(ts, k, now)[k], PutRequest(us, k, now)[k], now, cutoff);
  }

  lemma RecordedTwins(ts: Trackers, us: Trackers, step: Step, cutoff: nat)
    requires step.Serve? && TimelyStep(step, step.checkAt) && Twins(ts, us, step.checkAt, cutoff)
    ensures var Serve(s, a, _, requestAt, recordAt, bytes) := step;
            Twins(Recorded(ts, s, a, requestAt, recordAt, bytes), Recorded(us, s, a, requestAt, recordAt, bytes), recordAt, cutoff)
  {
    var Serve(s, a, checkAt, requestAt, recordAt, bytes) := step;
    var p, i, n := PeerKey(s, a), IpKey(s, a), SubnetKey(s, a);
    var t1, u1, at1 := ts, us, checkAt;
    if requestAt.Some? {
      var at := requestAt.value;
      RequestTwins(ts, us, p, at, cutoff);
      RequestTwins(PutRequest(ts, p, at), PutRequest(us, p, at), i, at, cutoff);
      t1, u1, at1 := NotedRequest(ts, s, a, at), NotedRequest(us, s, a, at), at;
    }
    var t2, u2 := PutBytes(t1, p, recordAt, bytes), PutBytes(u1, p, recordAt, bytes);
    BytesTwins(t1, u1, p, recordAt, bytes, cutoff);
    BytesTwins(t2, u2, i, recordAt, bytes, cutoff);
    BytesTwins(PutBytes(t2, i, recordAt, bytes), PutBytes(u2, i, recordAt, bytes), n, recordAt, bytes, cutoff);
  }

  lemma SweptTwins(ts: Trackers, us: Trackers, at: nat, maxIdle: nat, cutoff: nat)
    requires Twins(ts, us, at, cutoff) && cutoff <= SatSub(at, maxIdle)
    ensures Twins(Swept(ts, at, maxIdle), Swept(us, at, maxIdle), at, cutoff)
  {
    forall k ensures Twin(Get(Swept(ts, at, maxIdle), k), Get(Swept(us, at, maxIdle), k), at, cutoff) {
      assert Twin(Get(ts, k), Get(us, k), at, cutoff);
    }
  }

  /** Both systems have served the same and have twin trackers. */
  ghost predicate Alike(x: Sys, y: Sys, now: nat, cutoff: nat) {
    x.served == y.served && Twins(x.trackers, y.trackers, now, cutoff)
  }

  /** Sweeps of the run have at most the idle time `maxIdle`. */
  predicate NoLonger(step: Step, maxIdle: nat) {
    step.Sweep? ==> step.maxIdle <= maxIdle
  }

  lemma StepAlike(limits: map<Service, Limits>, x: Sys, y: Sys, step: Step, now: nat, at: nat, maxIdle: nat)
    requires Alike(x, y, now, SatSub(at, maxIdle)) && TimelyStep(step, now) && at <= now && NoLonger(step, maxIdle)
    ensures Alike(Next(limits, x, step), Next(limits, y, step), EndOf(step), SatSub(at, maxIdle))
  {
    var cutoff := SatSub(at, maxIdle);
    match step {
      case Probe(s, a, t) =>
        if s in limits {
          CheckTwins(x.trackers, y.trackers, limits[s], s, a, t, cutoff);
        }
      case Sweep(t, m) =>
        SweptTwins(x.trackers, y.trackers, t, m, cutoff);
      case Serve(s, a, checkAt, requestAt, recordAt, bytes) =>
        if s in limits {
          CheckTwins(x.trackers, y.trackers, limits[s], s, a, checkAt, cutoff);
        }
        var xs, ys := AfterCheck(limits, x.trackers, s, a, checkAt), AfterCheck(limits, y.trackers, s, a, checkAt);
        RecordedTwins(xs.1, ys.1, step, cutoff);
    }
  }

  lemma {:induction false} RunAlike(limits: map<Service, Limits>, x: Sys, y: Sys, steps: seq<Step>, now: nat, at: nat, maxIdle: nat)
    requires Alike(x, y, now, SatSub(at, maxIdle)) && Timely(steps, now) && at <= now
    requires forall i :: 0 <= i < |steps| ==> NoLonger(steps[i], maxIdle)
    ensures Alike(Run(limits, x, steps), Run(limits, y, steps), RunEnd(steps, now), SatSub(at, maxIdle))
    decreases steps
  {
    if steps != [] {
      StepAlike(limits, x, y, steps[0], now, at, maxIdle);
      RunAlike(limits, Next(limits, x, steps[0]), Next(limits, y, steps[0]), steps[1..], EndOf(steps[0]), at, maxIdle);
    }
  }

  /**
   A sweep that drops only trackers whose windows are over is never noticed: whatever run
   follows, with sweeps that are no more lenient, the same requests are served, and the next
   check has the same verdict.
   */
  lemma OverSweepIsUnnoticed(limits: map<Service, Limits>, sys: Sys, at: nat, maxIdle: nat, steps: seq<Step>, s: Service, a: Addr, now: nat)
    requires forall k :: k in sys.trackers && Idle(sys.trackers[k], at, maxIdle) ==> Over(sys.trackers[k], at)
    requires Timely(steps, at) && RunEnd(steps, at) <= now
    requires forall i :: 0 <= i < |steps| ==> NoLonger(steps[i], maxIdle)
    ensures var kept, swept := Run(limits, sys, steps), Run(limits, Next(limits, sys, Sweep(at, maxIdle)), steps);
            && kept.served == swept.served
            && AfterCheck(limits, kept.trackers, s, a, now).0 == AfterCheck(limits, swept.trackers, s, a, now).0
  {
    var after := Next(limits, sys, Sweep(at, maxIdle));
    var cutoff := SatSub(at, maxIdle);
    forall k ensures Twin(Get(sys.trackers, k), Get(after.trackers, k), at, cutoff) {
    }
    RunAlike(limits, sys, after, steps, at, at, maxIdle);
    var kept, swept := Run(limits, sys, steps), Run(limits, after, steps);
    if s in limits {
      CheckTwins(kept.trackers, swept.trackers, limits[s], s, a, now, cutoff);
    }
  }

  // ---------------------------------------------------------------------------
  // Spent is not enough
  // ---------------------------------------------------------------------------

  predicate Positive(l: Limits) {
    l.peerDay > 0 && l.peerHour > 0 && l.ipDay > 0 && l.ipHour > 0 && l.subnetDay > 0 && l.subnetHour > 0
    && (l.maxRequests.Some? ==> l.maxRequests.value > 0)
  }

  /** A whole day leaves room for the response. */
  predicate FitsADay(l: Limits, bytes: nat) {
    bytes < l.peerDay && bytes < l.ipDay && bytes < l.subnetDay && bytes <= U64_MAX
  }

  /** Trackers as a lone check at 0 leaves them. */
  const JustLooked := Pair(NewTracker(0), NewTracker(0))

  lemma RefusedByOwn(l: Limits, s: Service, a: Addr, x: Pair, now: nat)
    requires x.Pair? && !PeerUnder(LookAt(x, now).own, l)
    ensures !Check(TrackersOf(s, a, x), l, s, a, now).0
  {
  }

  lemma AdmittedUnswept(limits: map<Service, Limits>, s: Service, a: Addr, bytes: nat)
    requires s in limits && Positive(limits[s]) && FitsADay(limits[s], bytes)
    ensures Check(Next(limits, Sys(TrackersOf(s, a, JustLooked), []), StepOf(s, a, Ask(3599, false, bytes))).trackers, limits[s], s, a, 3600).0
  {
    var ask := Ask(3599, false, bytes);
    StepRefines(limits, s, a, JustLooked, [], ask);
    CheckRefines(limits[s], s, a, ActOn(JustLooked, ask), 3600);
  }

  lemma RefusedOnceSwept(limits: map<Service, Limits>, s: Service, a: Addr, bytes: nat, maxIdle: nat)
    requires s in limits && Positive(limits[s]) && limits[s].peerHour <= bytes <= U64_MAX
    ensures var swept := Next(limits, Sys(TrackersOf(s, a, JustLooked), []), Sweep(3599, maxIdle));
            !Check(Next(limits, swept, StepOf(s, a, Ask(3599, false, bytes))).trackers, limits[s], s, a, 3600).0
  {
    var ask := Ask(3599, false, bytes);
    StepRefines(limits, s, a, JustLooked, [], Forget(3599, maxIdle));
    StepRefines(limits, s, a, Absent, [], ask);
    RefusedByOwn(limits[s], s, a, ActOn(Absent, ask), 3600);
  }

  /**
   An empty counter that is swept inside its window starts a new window with the next
   response, and a check that is admitted without the sweep is refused with it: for all limits
   and every response between the hourly and the daily ones.
   */
  lemma SpentSweepIsNoticedLater(limits: map<Service, Limits>, s: Service, a: Addr, bytes: nat, maxIdle: nat)
    requires s in limits && Positive(limits[s]) && limits[s].peerHour <= bytes && FitsADay(limits[s], bytes)
    ensures var sys := Sys(TrackersOf(s, a, JustLooked), []);
            var serve := StepOf(s, a, Ask(3599, false, bytes));
            && IdleIsSpent(sys.trackers, 3599, maxIdle)
            && Check(Next(limits, sys, serve).trackers, limits[s], s, a, 3600).0
            && !Check(Next(limits, Next(limits, sys, Sweep(3599, maxIdle)), serve).trackers, limits[s], s, a, 3600).0
  {
    AdmittedUnswept(limits, s, a, bytes);
    RefusedOnceSwept(limits, s, a, bytes, maxIdle);
  }

  // ---------------------------------------------------------------------------
  // Subnets
  // ---------------------------------------------------------------------------

  /** A subnet tracker never sees a request. */
  ghost predicate SubnetsUnrequested(ts: Trackers) {
    forall k :: k in ts && k.scope.Subnet? ==> ts[k].lastRequest.None?
  }

  lemma RecordedKeepsUnrequested(ts: Trackers, s: Service, a: Addr, requestAt: Option<nat>, recordAt: nat, bytes: nat)
    requires SubnetsUnrequested(ts)
    ensures SubnetsUnrequested(Recorded(ts, s, a, requestAt, recordAt, bytes))
  {
    var noted := if requestAt.Some? then NotedRequest(ts, s, a, requestAt.value) else ts;
    assert SubnetsUnrequested(noted);
  }

  lemma StepKeepsSubnetsUnrequested(limits: map<Service, Limits>, sys: Sys, step: Step)
    requires SubnetsUnrequested(sys.trackers)
    ensures SubnetsUnrequested(Next(limits, sys, step).trackers)
  {
    if step.Serve? {
      var checked := AfterCheck(limits, sys.trackers, step.service, step.addr, step.checkAt).1;
      RecordedKeepsUnrequested(checked, step.service, step.addr, step.requestAt, step.recordAt, step.bytes);
    }
  }

  lemma {:induction false} RunKeepsSubnetsUnrequested(limits: map<Service, Limits>, sys: Sys, steps: seq<Step>)
    requires SubnetsUnrequested(sys.trackers)
    ensures SubnetsUnrequested(Run(limits, sys, steps).trackers)
    decreases steps
  {
    if steps != [] {
      StepKeepsSubnetsUnrequested(limits, sys, steps[0]);
      RunKeepsSubnetsUnrequested(limits, Next(limits, sys, steps[0]), steps[1..]);
    }
  }

  /** So every sweep, however lenient, forgets every subnet. */
  lemma SweepForgetsSubnets(limits: map<Service, Limits>, steps: seq<Step>, at: nat, maxIdle: nat)
    ensures var end := Next(limits, Run(limits, Sys(map[], []), steps), Sweep(at, maxIdle));
            forall k :: k in end.trackers ==> !k.scope.Subnet?
  {
    RunKeepsSubnetsUnrequested(limits, Sys(map[], []), steps);
  }

  // ---------------------------------------------------------------------------
  // Where sweeps break the bound
  // ---------------------------------------------------------------------------

  /** `n` responses of `bytes` bytes in the same second, none noted as a request, with a sweep after each. */
  function SweptAsks(bytes: nat, maxIdle: nat, n: nat): seq<Act> {
    if n == 0 then [] else [Ask(0, false, bytes), Forget(0, maxIdle)] + SweptAsks(bytes, maxIdle, n - 1)
  }

  lemma {:induction false} SweptAsksAllowed(l: Limits, bytes: nat, maxIdle: nat, n: nat, hi: nat)
    requires Positive(l) && hi > 0
    ensures AllAllowed(l, Absent, SweptAsks(bytes, maxIdle, n)) && TotalIn(SweptAsks(bytes, maxIdle, n), 0, hi) == n * bytes
    decreases n
  {
    if n > 0 {
      var acts, rest := SweptAsks(bytes, maxIdle, n), SweptAsks(bytes, maxIdle, n - 1);
      SweptAsksAllowed(l, bytes, maxIdle, n - 1, hi);
      assert acts[1..] == [Forget(0, maxIdle)] + rest && acts[1..][1..] == rest;
      assert n * bytes == (n - 1) * bytes + bytes;
    }
  }

  /**
   Without noted requests every sweep forgets everything: any number of responses is admitted
   in one second, for the peer, its IP and its subnet, and counted by the hour or the day.
   */
  lemma SweepsLiftEveryBound(limits: map<Service, Limits>, s: Service, a: Addr, bytes: nat, maxIdle: nat, n: nat, kind: Kind, k: Key)
    requires s in limits && Positive(limits[s]) && kind != HourRequests && KeyOf(k, s, a)
    ensures var end := Run(limits, Sys(map[], []), StepsOf(s, a, SweptAsks(bytes, maxIdle, n)));
            InInterval(KeyLog(kind, k, end.served), 0, Len(kind)) == n * bytes
  {
    SweptAsksAllowed(limits[s], bytes, maxIdle, n, Len(kind));
    RunRefines(limits, s, a, Absent, [], SweptAsks(bytes, maxIdle, n));
    ServedSum(s, a, [], SweptAsks(bytes, maxIdle, n), kind, k, 0, Len(kind));
  }

  /**
   Noted requests do not help against a short idle time: a response at the end of one window,
   one at the start of the next and one after a sweep fall into the same hour.
   */
  function ShortIdleActs(b: nat, maxIdle: nat): seq<Act> {
    [Look(0), Ask(3599, true, b), Ask(3600, true, b), Forget(3601 + maxIdle, maxIdle), Ask(3601 + maxIdle, true, b)]
  }

  lemma ShortIdleAllowed(l: Limits, b: nat, maxIdle: nat)
    requires Positive(l) && FitsADay(l, b)
    ensures AllAllowed(l, Absent, ShortIdleActs(b, maxIdle))
  {
    var acts := ShortIdleActs(b, maxIdle);
    var x2 := ActOn(JustLooked, acts[1]);
    var x3 := ActOn(x2, acts[2]);
    assert AllAllowed(l, Absent, acts[4..]);
    assert acts[3..][1..] == acts[4..] && AllAllowed(l, x3, acts[3..]);
    assert acts[2..][1..] == acts[3..] && AllAllowed(l, x2, acts[2..]);
    assert acts[1..][1..] == acts[2..] && AllAllowed(l, JustLooked, acts[1..]);
  }

  lemma ShortIdleTotal(b: nat, maxIdle: nat)
    requires maxIdle <= 3597
    ensures TotalIn(ShortIdleActs(b, maxIdle), 3599, 7199) == 3 * b
  {
    var acts := ShortIdleActs(b, maxIdle);
    assert acts[4..][1..] == [] && TotalIn(acts[4..], 3599, 7199) == b;
    assert acts[3..][1..] == acts[4..] && acts[2..][1..] == acts[3..] && TotalIn(acts[2..], 3599, 7199) == 2 * b;
    assert acts[1..][1..] == acts[2..];
  }

  lemma ShortIdleIsTimely(s: Service, a: Addr, b: nat, maxIdle: nat)
    ensures Timely(StepsOf(s, a, ShortIdleActs(b, maxIdle)), 0)
  {
    var acts := ShortIdleActs(b, maxIdle);
    assert acts[1..][1..] == acts[2..] && acts[2..][1..] == acts[3..] && acts[3..][1..] == acts[4..] && acts[4..][1..] == [];
    assert Timely(StepsOf(s, a, acts[4..]), 3601 + maxIdle);
    assert Timely(StepsOf(s, a, acts[3..]), 3600);
    assert Timely(StepsOf(s, a, acts[2..]), 3599);
    assert Timely(StepsOf(s, a, acts[1..]), 0);
  }

  /** With idle times up to 3597 seconds, three short of a window, the hour can hold more than twice the cap of each key. */
  lemma ShortIdleBreaksTheBound(limits: map<Service, Limits>, s: Service, a: Addr, b: nat, maxIdle: nat, k: Key)
    requires s in limits && Positive(limits[s]) && FitsADay(limits[s], b) && maxIdle <= 3597 && KeyOf(k, s, a)
    requires b > 2 * (Limit(HourBytes, limits[s], k.scope).value - 1)
    ensures var steps := StepsOf(s, a, ShortIdleActs(b, maxIdle));
            Timely(steps, 0)
            && InInterval(KeyLog(HourBytes, k, Run(limits, Sys(map[], []), steps).served), 3599, 3600) > 2 * CapOf(HourBytes, k, limits, b)
  {
    ShortIdleIsTimely(s, a, b, maxIdle);
    ShortIdleAllowed(limits[s], b, maxIdle);
    ShortIdleTotal(b, maxIdle);
    RunRefines(limits, s, a, Absent, [], ShortIdleActs(b, maxIdle));
    ServedSum(s, a, [], ShortIdleActs(b, maxIdle), HourBytes, k, 3599, 7199);
  }
}
