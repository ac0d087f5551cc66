/**
 A tumbling counter: the sum is cleared when a window is over and the next amount opens a
 new one.  Whatever the windows, at most two of them meet any interval of their length.
 */
module WindowBound {
  import opened Prelude

  datatype Window = Window(sum: nat, start: nat)

  datatype Entry = Entry(time: nat, amount: nat)

  /** Clears the window once `len` seconds have passed since its start. */
  function Roll(w: Window, len: nat, now: nat): (r: Window)
    ensures r.sum <= w.sum
  {
    if SatSub(now, w.start) >= len then Window(0, now) else w
  }

  /** A missing counter is created when it is first looked at. */
  function RollOrNew(w: Option<Window>, len: nat, now: nat): Window {
    if w.Some? then Roll(w.value, len, now) else Window(0, now)
  }

  /** Amount recorded at times in `lo` .. `hi`, the end excluded. */
  function SumIn(log: seq<Entry>, lo: int, hi: int): (r: nat) {
    if log == [] then 0
    else SumIn(log[..|log| - 1], lo, hi) + if lo <= log[|log| - 1].time < hi then log[|log| - 1].amount else 0
  }

  lemma {:induction false} SumSplits(log: seq<Entry>, lo: int, mid: int, hi: int)
    requires lo <= mid <= hi
    ensures SumIn(log, lo, hi) == SumIn(log, lo, mid) + SumIn(log, mid, hi)
  {
    if log != [] {
      SumSplits(log[..|log| - 1], lo, mid, hi);
    }
  }

  lemma {:induction false} SumGrows(log: seq<Entry>, lo: int, hi: int, lo': int, hi': int)
    requires lo' <= lo && hi <= hi'
    ensures SumIn(log, lo, hi) <= SumIn(log, lo', hi')
  {
    if log != [] {
      SumGrows(log[..|log| - 1], lo, hi, lo', hi');
    }
  }

  lemma {:induction false} SumOutside(log: seq<Entry>, lo: int, hi: int)
    requires forall i :: 0 <= i < |log| ==> !(lo <= log[i].time < hi)
    ensures SumIn(log, lo, hi) == 0
  {
    if log != [] {
      SumOutside(log[..|log| - 1], lo, hi);
    }
  }

  /** What was recorded in the `len` seconds from `a` on. */
  function InInterval(log: seq<Entry>, a: int, len: nat): nat {
    SumIn(log, a, a + len)
  }

  /** Everything recorded is more than a window old. */
  ghost predicate Stale(log: seq<Entry>, len: nat, now: nat) {
    forall i :: 0 <= i < |log| ==> log[i].time + len < now
  }

  /**
   The counter holds exactly what was recorded in its window, never more than `cap`; nothing
   was recorded past its window, and at most `cap` in the window length before its start.
   */
  ghost predicate Counts(w: Window, len: nat, log: seq<Entry>, cap: nat) {
    && (forall i :: 0 <= i < |log| ==> log[i].time < w.start + len)
    && w.sum == InInterval(log, w.start, len) <= cap
    && InInterval(log, w.start - len, len) <= cap
  }

  /** The state of a counter at `now`, and the bound on every interval of the window's length. */
  ghost predicate Tracks(w: Option<Window>, len: nat, log: seq<Entry>, cap: nat, now: nat) {
    && (forall a: int :: InInterval(log, a, len) <= 2 * cap)
    && if w.None? then Stale(log, len, now) || log == [] else w.value.start <= now && Counts(w.value, len, log, cap)
  }

  /** Looking at the counter, or creating it, keeps its meaning. */
  lemma RollTracks(w: Option<Window>, len: nat, log: seq<Entry>, cap: nat, now: nat, later: nat)
    requires Tracks(w, len, log, cap, now) && now <= later
    ensures Tracks(Some(RollOrNew(w, len, later)), len, log, cap, later)
  {
    var r := RollOrNew(w, len, later);
    if w.None? {
      SumOutside(log, later - len, later);
      SumOutside(log, later, later + len);
    } else if r != w.value {
      var start := w.value.start;
      SumOutside(log, later, later + len);
      SumOutside(log, start + len, later);
      if later - len <= start + len {
        SumSplits(log, later - len, start + len, later);
        SumGrows(log, later - len, start + len, start, start + len);
      } else {
        SumOutside(log, later - len, later);
      }
    }
  }

  /** An interval that meets the window adds at most one `cap` before it and one within it. */
  lemma IntervalInTwoWindows(w: Window, len: nat, log: seq<Entry>, cap: nat, a: int)
    requires Counts(w, len, log, cap)
    ensures InInterval(log, a, len) <= 2 * cap || a + len <= w.start
  {
    if a <= w.start < a + len {
      SumSplits(log, a, w.start, a + len);
      SumGrows(log, a, w.start, w.start - len, w.start);
      SumGrows(log, w.start, a + len, w.start, w.start + len);
    } else if w.start < a <= w.start + len {
      SumSplits(log, a, w.start + len, a + len);
      SumOutside(log, w.start + len, a + len);
      SumGrows(log, a, w.start + len, w.start, w.start + len);
    } else if w.start + len < a {
      SumOutside(log, a, a + len);
    }
  }

  /** Recording into a rolled counter that stays within `cap` keeps the bound on every interval. */
  lemma AddTracks(w: Window, len: nat, log: seq<Entry>, cap: nat, e: Entry)
    requires Tracks(Some(w), len, log, cap, e.time) && e.time < w.start + len && w.sum + e.amount <= cap
    ensures Tracks(Some(Window(w.sum + e.amount, w.start)), len, log + [e], cap, e.time)
  {
    var more, after := log + [e], Window(w.sum + e.amount, w.start);
    assert Counts(after, len, more, cap);
    forall a: int ensures InInterval(more, a, len) <= 2 * cap {
      assert InInterval(log, a, len) <= 2 * cap;
      IntervalInTwoWindows(after, len, more, cap, a);
    }
  }

  /** Nothing was recorded after `now`, and the counter shows no more than was recorded since its start. */
  ghost predicate AtMostLogged(w: Option<Window>, log: seq<Entry>, now: nat) {
    && (forall i :: 0 <= i < |log| ==> log[i].time <= now)
    && (w.Some? ==> w.value.start <= now && w.value.sum <= SumIn(log, w.value.start, now + 1))
  }

  lemma RollAtMost(w: Option<Window>, len: nat, log: seq<Entry>, now: nat, later: nat)
    requires AtMostLogged(w, log, now) && now <= later
    ensures AtMostLogged(w, log, later) && AtMostLogged(Some(RollOrNew(w, len, later)), log, later)
  {
    if w.Some? {
      SumGrows(log, w.value.start, now + 1, w.value.start, later + 1);
    }
  }

  /** A current window shows no more than was recorded in the window length up to now. */
  lemma CountIsRecent(w: Window, len: nat, log: seq<Entry>, now: nat)
    requires AtMostLogged(Some(w), log, now) && now < w.start + len
    ensures w.sum <= InInterval(log, now + 1 - len, len)
  {
    SumGrows(log, w.start, now + 1, now + 1 - len, now + 1);
  }
}
