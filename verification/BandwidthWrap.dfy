/**
 The width of the byte counters: the bound on served bytes holds exactly while one response
 on top of just under the least limit still fits into 64 bits.  Beyond that, responses can be
 sized so that the counters come round to zero, again and again.
 */
module BandwidthWrap {
  import opened Prelude
  import opened WindowBound
  import opened Bandwidth
  import opened BandwidthRuns
  import opened BandwidthPeer

  const TWO_TO_64 := U64_MAX + 1

  /** Every byte limit is above `v`, and requests are not refused outright. */
  predicate Above(l: Limits, v: nat) {
    && v < l.peerDay && v < l.peerHour && v < l.ipDay && v < l.ipHour && v < l.subnetDay && v < l.subnetHour
    && l.maxRequests != Some(0)
  }

  // ---------------------------------------------------------------------------
  // Responses in the same second, by size
  // ---------------------------------------------------------------------------

  function Asks(sizes: seq<nat>): (acts: seq<Act>) {
    if sizes == [] then [] else [Ask(0, false, sizes[0])] + Asks(sizes[1..])
  }

  /** All counters of the peer show `v` in windows that start at 0; no trackers at all are as good as zero. */
  predicate Shows(x: Pair, v: nat) {
    var t := Tracker(v, v, 0, 0, 0, None);
    x == Pair(t, t) || (v == 0 && x == Absent)
  }

  function Total(sizes: seq<nat>): nat {
    if sizes == [] then 0 else sizes[0] + Total(sizes[1..])
  }

  /** What the counters show after the responses. */
  function After(v: nat, sizes: seq<nat>): nat
    decreases sizes
  {
    if sizes == [] then v else After(Wrap(v + sizes[0], U64_MAX), sizes[1..])
  }

  /** The counters are below every limit before each response. */
  predicate Admitted(l: Limits, v: nat, sizes: seq<nat>)
    decreases sizes
  {
    sizes == [] || (Above(l, v) && Admitted(l, Wrap(v + sizes[0], U64_MAX), sizes[1..]))
  }

  lemma {:induction false} AdmittedIsAllowed(l: Limits, x: Pair, v: nat, sizes: seq<nat>)
    requires Admitted(l, v, sizes) && Shows(x, v)
    ensures AllAllowed(l, x, Asks(sizes)) && TotalIn(Asks(sizes), 0, 3600) == Total(sizes)
    decreases sizes
  {
    if sizes != [] {
      var acts := Asks(sizes);
      assert acts[1..] == Asks(sizes[1..]);
      AdmittedIsAllowed(l, ActOn(x, acts[0]), Wrap(v + sizes[0], U64_MAX), sizes[1..]);
    }
  }

  lemma {:induction false} AdmittedConcat(l: Limits, v: nat, x: seq<nat>, y: seq<nat>)
    requires Admitted(l, v, x) && Admitted(l, After(v, x), y)
    ensures Admitted(l, v, x + y) && After(v, x + y) == After(After(v, x), y) && Total(x + y) == Total(x) + Total(y)
    decreases x
  {
    if x == [] {
      assert x + y == y;
    } else {
      assert (x + y)[1..] == x[1..] + y;
      AdmittedConcat(l, Wrap(v + x[0], U64_MAX), x[1..], y);
    }
  }

  /** Sizes of at most `b` that add up to `r`. */
  function Portions(b: nat, r: nat): seq<nat>
    requires b > 0
  {
    if r <= b then [r] else [b] + Portions(b, r - b)
  }

  lemma {:induction false} PortionsFill(l: Limits, b: nat, v: nat, r: nat)
    requires b > 0 && v + r <= U64_MAX && Above(l, v + r)
    ensures Admitted(l, v, Portions(b, r)) && After(v, Portions(b, r)) == v + r && Total(Portions(b, r)) == r
    decreases r
  {
    if r > b {
      PortionsFill(l, b, v + b, r - b);
      assert Portions(b, r)[1..] == Portions(b, r - b);
    }
  }

  /** Once round the counter: portions fill it, and the last response takes it to zero. */
  function Round(b: nat): seq<nat>
    requires 0 < b <= U64_MAX
  {
    Portions(b, TWO_TO_64 - b) + [b]
  }

  lemma RoundReturns(l: Limits, b: nat)
    requires 0 < b <= U64_MAX && Above(l, TWO_TO_64 - b)
    ensures Admitted(l, 0, Round(b)) && After(0, Round(b)) == 0 && Total(Round(b)) == TWO_TO_64
  {
    PortionsFill(l, b, 0, TWO_TO_64 - b);
    AdmittedConcat(l, 0, Portions(b, TWO_TO_64 - b), [b]);
  }

  function Rounds(b: nat, n: nat): seq<nat>
    requires 0 < b <= U64_MAX
  {
    if n == 0 then [] else Round(b) + Rounds(b, n - 1)
  }

  lemma {:induction false} RoundsReturn(l: Limits, b: nat, n: nat)
    requires 0 < b <= U64_MAX && Above(l, TWO_TO_64 - b)
    ensures Admitted(l, 0, Rounds(b, n)) && Total(Rounds(b, n)) == n * TWO_TO_64
    decreases n
  {
    if n > 0 {
      RoundReturns(l, b);
      RoundsReturn(l, b, n - 1);
      AdmittedConcat(l, 0, Round(b), Rounds(b, n - 1));
    }
  }

  predicate AtMost(sizes: seq<nat>, b: nat) {
    forall i :: 0 <= i < |sizes| ==> sizes[i] <= b
  }

  lemma {:induction false} PortionsAreSmall(b: nat, r: nat)
    requires b > 0
    ensures AtMost(Portions(b, r), b)
    decreases r
  {
    if r > b {
      PortionsAreSmall(b, r - b);
    }
  }

  lemma {:induction false} RoundsAreSmall(b: nat, n: nat)
    requires 0 < b <= U64_MAX
    ensures AtMost(Rounds(b, n), b)
    decreases n
  {
    if n > 0 {
      PortionsAreSmall(b, TWO_TO_64 - b);
      RoundsAreSmall(b, n - 1);
    }
  }

  lemma {:induction false} AsksAreOrderly(kind: Kind, k: Key, s: Service, a: Addr, b: nat, sizes: seq<nat>)
    requires AtMost(sizes, b)
    ensures Orderly(kind, k, b, None, StepsOf(s, a, Asks(sizes)), 0)
    decreases sizes
  {
    if sizes != [] {
      AsksAreOrderly(kind, k, s, a, b, sizes[1..]);
      assert Asks(sizes)[1..] == Asks(sizes[1..]);
      assert StepsOf(s, a, Asks(sizes))[1..] == StepsOf(s, a, Asks(sizes[1..]));
    }
  }

  // ---------------------------------------------------------------------------
  // The bound and the width
  // ---------------------------------------------------------------------------

  /** No orderly run without sweeps serves the peer more than twice the cap in any hour. */
  ghost predicate HourBounded(limits: map<Service, Limits>, s: Service, a: Addr, b: nat)
    requires s in limits
  {
    forall steps, lo: int :: Orderly(HourBytes, PeerKey(s, a), b, None, steps, 0) ==>
      ServedFrom(limits, s, a, steps, lo) <= 2 * CapOf(HourBytes, PeerKey(s, a), limits, b)
  }

  ghost function ServedFrom(limits: map<Service, Limits>, s: Service, a: Addr, steps: seq<Step>, lo: int): nat {
    InInterval(KeyLog(HourBytes, PeerKey(s, a), Run(limits, Sys(map[], []), steps).served), lo, 3600)
  }

  /** Where the cap does not fit, any amount can be served in one second. */
  lemma WrapLiftsTheBound(limits: map<Service, Limits>, s: Service, a: Addr, b: nat, n: nat)
    requires s in limits && 0 < b <= U64_MAX && Above(limits[s], TWO_TO_64 - b)
    ensures var steps := StepsOf(s, a, Asks(Rounds(b, n)));
            Orderly(HourBytes, PeerKey(s, a), b, None, steps, 0) && ServedFrom(limits, s, a, steps, 0) == n * TWO_TO_64
  {
    RoundsAreSmall(b, n);
    AsksAreOrderly(HourBytes, PeerKey(s, a), s, a, b, Rounds(b, n));
    RoundsReturn(limits[s], b, n);
    AdmittedIsAllowed(limits[s], Absent, 0, Rounds(b, n));
    RunRefines(limits, s, a, Absent, [], Asks(Rounds(b, n)));
    ServedSum(s, a, [], Asks(Rounds(b, n)), HourBytes, PeerKey(s, a), 0, 3600);
  }

  /** The least of the six byte limits. */
  function Least(l: Limits): nat {
    Min(Min(Min(l.peerHour, l.peerDay), Min(l.ipHour, l.ipDay)), Min(l.subnetHour, l.subnetDay))
  }

  /** The counter that the least limit is for. */
  ghost predicate IsLeast(kind: Kind, k: Key, l: Limits, s: Service, a: Addr) {
    KeyOf(k, s, a) && kind != HourRequests && Limit(kind, l, k.scope) == Some(Least(l))
  }

  lemma LeastCounter(l: Limits, s: Service, a: Addr)
    ensures exists kind, k :: IsLeast(kind, k, l, s, a)
  {
    var m := Least(l);
    var p, i, n := PeerKey(s, a), IpKey(s, a), SubnetKey(s, a);
    assert m == l.peerHour ==> IsLeast(HourBytes, p, l, s, a);
    assert m == l.peerDay ==> IsLeast(DayBytes, p, l, s, a);
    assert m == l.ipHour ==> IsLeast(HourBytes, i, l, s, a);
    assert m == l.ipDay ==> IsLeast(DayBytes, i, l, s, a);
    assert m == l.subnetHour ==> IsLeast(HourBytes, n, l, s, a);
    assert m == l.subnetDay ==> IsLeast(DayBytes, n, l, s, a);
  }

  /** Whatever counts for a peer counts for its IP and subnet as well. */
  lemma {:induction false} PeerLogIsLeast(kind: Kind, k: Key, s: Service, a: Addr, served: seq<Done>, lo: int, hi: int)
    requires KeyOf(k, s, a) && kind != HourRequests
    ensures SumIn(KeyLog(HourBytes, PeerKey(s, a), served), lo, hi) <= SumIn(KeyLog(kind, k, served), lo, hi)
  {
    if served != [] {
      var front, done := served[..|served| - 1], served[|served| - 1];
      assert front + [done] == served;
      PeerLogIsLeast(kind, k, s, a, front, lo, hi);
      LogSumSnoc(HourBytes, PeerKey(s, a), front, done, lo, hi);
      LogSumSnoc(kind, k, front, done, lo, hi);
    }
  }

  lemma {:induction false} OrderlyForService(kind: Kind, k: Key, other: Kind, j: Key, b: nat, steps: seq<Step>, now: nat)
    requires Orderly(kind, k, b, None, steps, now) && j.service == k.service
    ensures Orderly(other, j, b, None, steps, now)
    decreases steps
  {
    if steps != [] {
      OrderlyForService(kind, k, other, j, b, steps[1..], EndOf(steps[0]));
    }
  }

  /** If the least cap fits, the counter with the least limit keeps every other one in bounds. */
  lemma FittingCapBounds(limits: map<Service, Limits>, s: Service, a: Addr, b: nat, steps: seq<Step>, lo: int)
    requires s in limits && Orderly(HourBytes, PeerKey(s, a), b, None, steps, 0)
    requires Cap(Least(limits[s]), HourBytes, b) <= U64_MAX
    ensures ServedFrom(limits, s, a, steps, lo) <= 2 * Cap(Least(limits[s]), HourBytes, b)
  {
    LeastCounter(limits[s], s, a);
    var kind, k :| IsLeast(kind, k, limits[s], s, a);
    var served := Run(limits, Sys(map[], []), steps).served;
    var log := KeyLog(kind, k, served);
    OrderlyForService(HourBytes, PeerKey(s, a), kind, k, b, steps, 0);
    assert Watched(kind, k, limits, b, None);
    ServedInAnyInterval(kind, k, limits, b, None, steps, 0);
    assert InInterval(log, lo, Len(kind)) <= 2 * CapOf(kind, k, limits, b);
    PeerLogIsLeast(kind, k, s, a, served, lo, lo + 3600);
    SumGrows(log, lo, lo + 3600, lo, lo + Len(kind));
  }

  lemma ManyRounds(n: nat)
    ensures n * TWO_TO_64 >= n
  {
  }

  lemma WideCapUnbounds(limits: map<Service, Limits>, s: Service, a: Addr, b: nat)
    requires s in limits && 0 < b <= U64_MAX && limits[s].maxRequests != Some(0)
    requires Cap(Least(limits[s]), HourBytes, b) > U64_MAX
    ensures !HourBounded(limits, s, a, b)
  {
    var n := 2 * CapOf(HourBytes, PeerKey(s, a), limits, b) + 1;
    assert Above(limits[s], TWO_TO_64 - b);
    WrapLiftsTheBound(limits, s, a, b, n);
    ManyRounds(n);
    assert ServedFrom(limits, s, a, StepsOf(s, a, Asks(Rounds(b, n))), 0) >= n;
  }

  /** A service that admits no request at all serves nothing. */
  lemma {:induction false} NothingIsServed(limits: map<Service, Limits>, s: Service, a: Addr, sys: Sys, steps: seq<Step>)
    requires s in limits && limits[s].maxRequests == Some(0) && KeyLog(HourBytes, PeerKey(s, a), sys.served) == []
    ensures KeyLog(HourBytes, PeerKey(s, a), Run(limits, sys, steps).served) == []
    decreases steps
  {
    if steps != [] {
      var step := steps[0];
      if step.Serve? && AfterCheck(limits, sys.trackers, step.service, step.addr, step.checkAt).0 {
        assert step.service != s;
        KeyLogSnoc(HourBytes, PeerKey(s, a), sys.served, Done(step.service, step.addr, step.requestAt, step.recordAt, step.bytes));
      }
      NothingIsServed(limits, s, a, Next(limits, sys, step), steps[1..]);
    }
  }

  /**
   For all limits: the hourly bound holds exactly if no request is admitted at all, or one
   largest response on top of just under the least of the byte limits fits into the counter.
   */
  lemma HourBoundedIff(limits: map<Service, Limits>, s: Service, a: Addr, b: nat)
    requires s in limits && 0 < b <= U64_MAX
    ensures HourBounded(limits, s, a, b) <==> limits[s].maxRequests == Some(0) || Cap(Least(limits[s]), HourBytes, b) <= U64_MAX
  {
    if limits[s].maxRequests == Some(0) || Cap(Least(limits[s]), HourBytes, b) <= U64_MAX {
      forall steps, lo: int | Orderly(HourBytes, PeerKey(s, a), b, None, steps, 0)
        ensures ServedFrom(limits, s, a, steps, lo) <= 2 * CapOf(HourBytes, PeerKey(s, a), limits, b)
      {
        if limits[s].maxRequests == Some(0) {
          NothingIsServed(limits, s, a, Sys(map[], []), steps);
        } else {
          FittingCapBounds(limits, s, a, b, steps, lo);
        }
      }
    } else {
      WideCapUnbounds(limits, s, a, b);
    }
  }
}
