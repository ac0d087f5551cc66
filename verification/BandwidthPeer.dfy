/**
 One peer and one service on their own: runs in which every request is admitted, followed on
 the peer's tracker and its subnet's instead of the whole map.
 */
module BandwidthPeer {
  import opened Prelude
  import opened WindowBound
  import opened Bandwidth
  import opened BandwidthRuns

  /** The tracker of the peer and of its IP, which go together here, and that of the subnet; or none of them. */
  datatype Pair = Absent | Pair(own: Tracker, subnet: Tracker)

  /** Served at once, and noted as a request or not; only checked; or a sweep that forgets all three. */
  datatype Act = Ask(at: nat, noted: bool, bytes: nat) | Look(at: nat) | Forget(at: nat, maxIdle: nat)

  function TrackersOf(s: Service, a: Addr, x: Pair): Trackers {
    match x
    case Absent => map[]
    case Pair(t, n) => map[PeerKey(s, a) := t, IpKey(s, a) := t, SubnetKey(s, a) := n]
  }

  function StepOf(s: Service, a: Addr, act: Act): Step {
    match act
    case Ask(at, noted, bytes) => Serve(s, a, at, if noted then Some(at) else None, at, bytes)
    case Look(at) => Probe(s, a, at)
    case Forget(at, maxIdle) => Sweep(at, maxIdle)
  }

  function StepsOf(s: Service, a: Addr, acts: seq<Act>): (steps: seq<Step>)
    ensures |steps| == |acts|
  {
    if acts == [] then [] else [StepOf(s, a, acts[0])] + StepsOf(s, a, acts[1..])
  }

  function LookAt(x: Pair, now: nat): Pair {
    if x.Absent? then Pair(NewTracker(now), NewTracker(now)) else Pair(CheckAndReset(x.own, now), CheckAndReset(x.subnet, now))
  }

  function ActOn(x: Pair, act: Act): Pair {
    match act
    case Ask(at, noted, bytes) =>
      var y := LookAt(x, at);
      if y.Absent? then y
      else Pair(RecordBytes(if noted then RecordRequest(y.own, at) else y.own, at, bytes), RecordBytes(y.subnet, at, bytes))
    case Look(at) => LookAt(x, at)
    case Forget(_, _) => Absent
  }

  function ActAll(x: Pair, acts: seq<Act>): Pair
    decreases acts
  {
    if acts == [] then x else ActAll(ActOn(x, acts[0]), acts[1..])
  }

  predicate Under3(l: Limits, x: Pair) {
    x.Pair? && PeerUnder(x.own, l) && IpUnder(x.own, l) && SubnetUnder(x.subnet, l)
  }

  /** The request is admitted; the sweep finds all three trackers idle. */
  predicate Allowed(l: Limits, x: Pair, act: Act) {
    match act
    case Ask(at, _, _) => Under3(l, LookAt(x, at))
    case Look(at) => Under3(l, LookAt(x, at))
    case Forget(at, maxIdle) => x.Absent? || (Idle(x.own, at, maxIdle) && Idle(x.subnet, at, maxIdle))
  }

  predicate AllAllowed(l: Limits, x: Pair, acts: seq<Act>)
    decreases acts
  {
    acts == [] || (Allowed(l, x, acts[0]) && AllAllowed(l, ActOn(x, acts[0]), acts[1..]))
  }

  lemma CheckRefines(l: Limits, s: Service, a: Addr, x: Pair, now: nat)
    requires Under3(l, LookAt(x, now))
    ensures Check(TrackersOf(s, a, x), l, s, a, now) == (true, TrackersOf(s, a, LookAt(x, now)))
  {
    var p, i, n := PeerKey(s, a), IpKey(s, a), SubnetKey(s, a);
    var t0 := TrackersOf(s, a, x);
    var t1 := Touch(t0, p, now);
    var t2 := Touch(t1, i, now);
    var y := LookAt(x, now);
    assert t1[p] == y.own && t2[i] == y.own && Touch(t2, n, now)[n] == y.subnet;
    assert Touch(t2, n, now) == TrackersOf(s, a, y);
  }

  lemma RecordRefines(s: Service, a: Addr, x: Pair, requestAt: Option<nat>, recordAt: nat, bytes: nat)
    requires x.Pair?
    ensures Recorded(TrackersOf(s, a, x), s, a, requestAt, recordAt, bytes)
            == TrackersOf(s, a, Pair(RecordBytes(if requestAt.Some? then RecordRequest(x.own, requestAt.value) else x.own, recordAt, bytes),
                                     RecordBytes(x.subnet, recordAt, bytes)))
  {
    var noted := if requestAt.Some? then RecordRequest(x.own, requestAt.value) else x.own;
    var ts := TrackersOf(s, a, x);
    if requestAt.Some? {
      assert NotedRequest(ts, s, a, requestAt.value) == TrackersOf(s, a, Pair(noted, x.subnet));
    }
  }

  function DoneOf(s: Service, a: Addr, act: Act): seq<Done> {
    if act.Ask? then [Done(s, a, if act.noted then Some(act.at) else None, act.at, act.bytes)] else []
  }

  lemma StepRefines(limits: map<Service, Limits>, s: Service, a: Addr, x: Pair, served: seq<Done>, act: Act)
    requires s in limits && Allowed(limits[s], x, act)
    ensures Next(limits, Sys(TrackersOf(s, a, x), served), StepOf(s, a, act)) == Sys(TrackersOf(s, a, ActOn(x, act)), served + DoneOf(s, a, act))
  {
    if act.Forget? {
      assert served + [] == served;
    } else {
      CheckRefines(limits[s], s, a, x, act.at);
      if act.Ask? {
        RecordRefines(s, a, LookAt(x, act.at), if act.noted then Some(act.at) else None, act.at, act.bytes);
      } else {
        assert served + [] == served;
      }
    }
  }

  /** Everything served after the acts. */
  function ServedAfter(s: Service, a: Addr, served: seq<Done>, acts: seq<Act>): seq<Done>
    decreases acts
  {
    if acts == [] then served else ServedAfter(s, a, served + DoneOf(s, a, acts[0]), acts[1..])
  }

  /** An allowed run does to the whole map what the acts do to the pair, and serves every request. */
  lemma {:induction false} RunRefines(limits: map<Service, Limits>, s: Service, a: Addr, x: Pair, served: seq<Done>, acts: seq<Act>)
    requires s in limits && AllAllowed(limits[s], x, acts)
    ensures Run(limits, Sys(TrackersOf(s, a, x), served), StepsOf(s, a, acts)) == Sys(TrackersOf(s, a, ActAll(x, acts)), ServedAfter(s, a, served, acts))
    decreases acts
  {
    if acts != [] {
      StepRefines(limits, s, a, x, served, acts[0]);
      RunRefines(limits, s, a, ActOn(x, acts[0]), served + DoneOf(s, a, acts[0]), acts[1..]);
      assert StepsOf(s, a, acts)[1..] == StepsOf(s, a, acts[1..]);
    }
  }

  /** The bytes asked for from `lo` to before `hi`. */
  function TotalIn(acts: seq<Act>, lo: int, hi: int): nat {
    if acts == [] then 0
    else (if acts[0].Ask? && lo <= acts[0].at < hi then acts[0].bytes else 0) + TotalIn(acts[1..], lo, hi)
  }

  /** What was asked for counts under each of the three keys. */
  lemma {:induction false} ServedSum(s: Service, a: Addr, served: seq<Done>, acts: seq<Act>, kind: Kind, k: Key, lo: int, hi: int)
    requires kind != HourRequests && KeyOf(k, s, a)
    ensures SumIn(KeyLog(kind, k, ServedAfter(s, a, served, acts)), lo, hi) == SumIn(KeyLog(kind, k, served), lo, hi) + TotalIn(acts, lo, hi)
    decreases acts
  {
    if acts != [] {
      var done := DoneOf(s, a, acts[0]);
      ServedSum(s, a, served + done, acts[1..], kind, k, lo, hi);
      if acts[0].Ask? {
        LogSumSnoc(kind, k, served, done[0], lo, hi);
      } else {
        assert served + done == served;
      }
    }
  }
}
