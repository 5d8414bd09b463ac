/** How long an iteration blocks, and when a periodic watcher is next due, over the reals. */
module Waits {
  import opened TimerHeap

  const MIN_INTERVAL := 0.0001220703125
  const MAX_BLOCKTIME := 59.743

  lemma MinimumInterval()
    ensures MIN_INTERVAL * 8192.0 == 1.0
  {
  }

  // ---- Periodic watchers -----------------------------------------------------------------------

  /** A time the watcher is scheduled for: its offset and a whole number of intervals. */
  ghost predicate OnGrid(at: real, offset: real, interval: real) {
    exists n: int :: IsPoint(at, offset, interval, n)
  }

  predicate IsPoint(at: real, offset: real, interval: real, n: int) {
    at == offset + Times(interval, n)
  }

  /** A whole number of intervals. */
  function Times(interval: real, n: int): real {
    interval * (n as real)
  }

  lemma FloorIsBelow(x: real, step: real)
    requires step > 0.0
    ensures step * ((x / step).Floor as real) <= x
    ensures x < step * ((x / step).Floor as real) + step
  {
    var q := x / step;
    var n := q.Floor as real;
    assert step * q == x;
    assert n <= q && q < n + 1.0;
    ScaleOrder(n, q, step);
    ScaleOrder(q, n + 1.0, step);
    assert step * q < step * (n + 1.0);
    Distributes(step, n);
    assert step * q < step * n + step;
    assert x < step * n + step;
  }

  lemma Distributes(step: real, n: real)
    ensures step * (n + 1.0) == step * n + step
    ensures step * (n - 1.0) == step * n - step
  {
  }

  lemma ScaleOrder(a: real, b: real, step: real)
    requires step > 0.0
    ensures a <= b ==> step * a <= step * b
    ensures a < b ==> step * a < step * b
  {
    if a < b {
      assert step * (b - a) > 0.0;
    }
  }

  lemma PointsApart(n: int, m: int, interval: real)
    requires interval > 0.0 && n < m
    ensures Times(interval, m) >= Times(interval, n) + interval
  {
    var x, y := n as real, m as real;
    assert x + 1.0 <= y;
    ScaleOrder(x + 1.0, y, interval);
    Distributes(interval, x);
    assert interval * y >= interval * (x + 1.0);
    assert interval * y >= interval * x + interval;
  }

  /** There is at most one scheduled time within an interval from now. */
  lemma GridPointIsUnique(a: real, b: real, offset: real, interval: real, now: real)
    requires interval > 0.0 && OnGrid(a, offset, interval) && OnGrid(b, offset, interval)
    requires now < a <= now + interval && now < b <= now + interval
    ensures a == b
  {
    var n: int :| IsPoint(a, offset, interval, n);
    var m: int :| IsPoint(b, offset, interval, m);
    hide Times;
    if n < m {
      PointsApart(n, m, interval);
    } else if m < n {
      PointsApart(m, n, interval);
    }
  }

  /** The intervals that periodic_recalc counts in: never below the minimum. */
  function Step(interval: real): real {
    if interval > MIN_INTERVAL then interval else MIN_INTERVAL
  }

  /** Its first guess, which is not after now. */
  function Guess(offset: real, interval: real, now: real): real {
    offset + Step(interval) * ((now - offset) / Step(interval)).Floor as real
  }

  /** From there in whole intervals to the first time after now. */
  function Next(offset: real, interval: real, now: real): real
    requires interval > 0.0
  {
    var guess := Guess(offset, interval, now);
    guess + Times(interval, ((now - guess) / interval).Floor + 1)
  }

  lemma NextIsNext(offset: real, interval: real, now: real)
    requires interval > 0.0
    ensures now < Next(offset, interval, now) <= now + interval
    ensures OnGrid(Next(offset, interval, now), Guess(offset, interval, now), interval)
  {
    var guess := Guess(offset, interval, now);
    var n := ((now - guess) / interval).Floor;
    FloorIsBelow(now - guess, interval);
    Distributes(interval, n as real);
    assert Times(interval, n + 1) == interval * (n as real) + interval;
    assert IsPoint(Next(offset, interval, now), guess, interval, n + 1);
  }

  /** periodic_recalc. */
  method PeriodicRecalc(offset: real, interval: real, now: real) returns (at: real)
    requires interval > 0.0
    ensures at == Next(offset, interval, now) && now < at <= now + interval
  {
    var step := Step(interval);
    at := offset + step * ((now - offset) / step).Floor as real;
    ghost var guess, n := Guess(offset, interval, now), 0;
    assert at == guess;
    FloorIsBelow(now - offset, step);
    hide Guess, Next, Times, Step, OnGrid, IsPoint;
    AtPoint(at, interval);
    while at <= now
      invariant at <= now + interval && IsPoint(at, guess, interval, n)
      decreases if at <= now then ((now - at) / interval).Floor + 1 else 0
    {
      // Over the reals the sum is never equal to at, so the code's escape from that is left out.
      var next := at + interval;
      FloorSteps(now - at, interval);
      NextPoint(at, guess, interval, n);
      at, n := next, n + 1;
    }
    NextIsNext(offset, interval, now);
    PointOnGrid(at, guess, interval, n);
    GridPointIsUnique(at, Next(offset, interval, now), guess, interval, now);
  }

  lemma AtPoint(at: real, interval: real)
    ensures IsPoint(at, at, interval, 0)
  {
  }

  lemma NextPoint(at: real, offset: real, interval: real, n: int)
    requires IsPoint(at, offset, interval, n)
    ensures IsPoint(at + interval, offset, interval, n + 1)
  {
    Distributes(interval, n as real);
  }

  lemma PointOnGrid(at: real, offset: real, interval: real, n: int)
    requires IsPoint(at, offset, interval, n)
    ensures OnGrid(at, offset, interval)
  {
  }

  /** Two whole numbers of intervals are one. */
  lemma TimesAdd(interval: real, n: int, m: int)
    ensures Times(interval, n) + Times(interval, m) == Times(interval, n + m)
  {
  }

  lemma TimesTwice(interval: real, n: int, m: int)
    ensures Times(Times(interval, n), m) == Times(interval, n * m)
  {
    assert (n * m) as real == (n as real) * (m as real);
  }

  lemma OnGridFrom(at: real, guess: real, offset: real, interval: real)
    requires OnGrid(at, guess, interval)
    ensures OnGrid(at, offset, interval) <==> OnGrid(guess, offset, interval)
  {
    var n: int :| IsPoint(at, guess, interval, n);
    if OnGrid(guess, offset, interval) {
      var m: int :| IsPoint(guess, offset, interval, m);
      TimesAdd(interval, m, n);
      assert IsPoint(at, offset, interval, m + n);
    }
    if OnGrid(at, offset, interval) {
      var m: int :| IsPoint(at, offset, interval, m);
      TimesAdd(interval, m, -n);
      TimesAdd(interval, n, -n);
      assert IsPoint(guess, offset, interval, m - n);
    }
  }

  /** From the minimum interval on, the result is a scheduled time. */
  lemma LongIntervalsKeepSchedule(offset: real, interval: real, now: real)
    requires interval >= MIN_INTERVAL
    ensures OnGrid(Next(offset, interval, now), offset, interval)
  {
    var guess := Guess(offset, interval, now);
    assert IsPoint(guess, offset, interval, ((now - offset) / interval).Floor);
    NextIsNext(offset, interval, now);
    OnGridFrom(Next(offset, interval, now), guess, offset, interval);
  }

  /** The minimum interval is a whole number of these. */
  ghost predicate Divides(interval: real) {
    exists m: int :: MIN_INTERVAL == Times(interval, m)
  }

  lemma DividersKeepSchedule(offset: real, interval: real, now: real)
    requires 0.0 < interval < MIN_INTERVAL && Divides(interval)
    ensures OnGrid(Next(offset, interval, now), offset, interval)
  {
    var m: int :| MIN_INTERVAL == Times(interval, m);
    var guess, k := Guess(offset, interval, now), ((now - offset) / MIN_INTERVAL).Floor;
    assert guess == offset + Times(MIN_INTERVAL, k);
    TimesTwice(interval, m, k);
    assert IsPoint(guess, offset, interval, m * k);
    NextIsNext(offset, interval, now);
    OnGridFrom(Next(offset, interval, now), guess, offset, interval);
  }

  /** The result one minimum interval after the offset. */
  lemma OthersDrift(offset: real, interval: real)
    requires 0.0 < interval < MIN_INTERVAL
    ensures OnGrid(Next(offset, interval, offset + MIN_INTERVAL), offset, interval) ==> Divides(interval)
  {
    var now := offset + MIN_INTERVAL;
    var guess := Guess(offset, interval, now);
    assert (now - offset) / MIN_INTERVAL == 1.0;
    assert guess == offset + MIN_INTERVAL;
    NextIsNext(offset, interval, now);
    OnGridFrom(Next(offset, interval, now), guess, offset, interval);
    if OnGrid(guess, offset, interval) {
      var n: int :| IsPoint(guess, offset, interval, n);
      assert MIN_INTERVAL == Times(interval, n);
    }
  }

  /**
   * The schedule is kept at every time exactly if the interval is at least the minimum or the
   * minimum is a whole number of intervals.
   */
  lemma ScheduleKeptIff(offset: real, interval: real)
    requires interval > 0.0
    ensures (forall now: real :: OnGrid(Next(offset, interval, now), offset, interval))
      <==> interval >= MIN_INTERVAL || Divides(interval)
  {
    if interval >= MIN_INTERVAL || Divides(interval) {
      forall now: real ensures OnGrid(Next(offset, interval, now), offset, interval) {
        if interval >= MIN_INTERVAL {
          LongIntervalsKeepSchedule(offset, interval, now);
        } else {
          DividersKeepSchedule(offset, interval, now);
        }
      }
    } else {
      OthersDrift(offset, interval);
    }
  }

  lemma FloorSteps(x: real, step: real)
    requires step > 0.0 && x >= 0.0
    ensures (x / step).Floor >= 0
    ensures x >= step ==> ((x - step) / step).Floor == (x / step).Floor - 1
  {
    var q, r := x / step, (x - step) / step;
    assert step * q == x && step * r == x - step;
    assert step * (q - 1.0) == x - step;
    ScaleOrder(r, q - 1.0, step);
    ScaleOrder(q - 1.0, r, step);
    assert q >= 0.0 by { if q < 0.0 { ScaleOrder(q, 0.0, step); } }
  }

  /** Three quarters of the minimum are such an interval. */
  lemma ShortIntervalsDrift()
    ensures exists interval: real :: 0.0 < interval && Drifts(interval)
  {
    var interval := 0.75 * MIN_INTERVAL;
    forall m: int ensures MIN_INTERVAL != Times(interval, m) {
      assert MIN_INTERVAL == Times(interval, m) ==> 3 * m == 4;
    }
    OthersDrift(0.0, interval);
    assert Drifts(interval);
  }

  /** Some result is off the schedule. */
  ghost predicate Drifts(interval: real)
    requires interval > 0.0
  {
    exists now: real :: !OnGrid(Next(0.0, interval, now), 0.0, interval)
  }

  // ---- The time to wait ------------------------------------------------------------------------

  /** The time until the root of a heap is due, if that is sooner than wait. */
  method WaitForRoot(heap: array<Node>, n: nat, now: real, wait: real, ghost ws: set<Watcher>) returns (r: real)
    requires HeapValid(heap, n, ws)
    ensures r <= wait && (forall w | w in ws :: r <= w.at - now)
    ensures r == wait || exists w | w in ws :: r == w.at - now
  {
    r := wait;
    if n > 0 {
      RootIsEarliest(heap[..], n, ws);
      var to := heap[HEAP0].at - now;
      if r > to { r := to; }
    } else {
      PlacedCount(heap[..], n, ws);
    }
  }

  /** The clocks of a loop and the limits on its blocking. */
  datatype Blocking = Blocking(mnNow: real, rtNow: real, prevMnNow: real, timeout: real, io: real, minimum: real)

  /** Nobody has to wait longer: limit is at least the configured times, or the time left to each watcher. */
  ghost predicate Bound(limit: real, b: Blocking, timers: set<Watcher>, periodics: set<Watcher>)
    reads timers`at, periodics`at
  {
    || limit <= b.minimum || limit <= b.timeout
    || (limit <= MAX_BLOCKTIME
        && (forall w | w in timers :: limit <= w.at - b.mnNow)
        && (forall w | w in periodics :: limit <= w.at - b.rtNow))
  }

  /** Nobody is woken early for nothing: the limit lasts until somebody is due, or is the longest wait there is. */
  ghost predicate Reaches(limit: real, b: Blocking, timers: set<Watcher>, periodics: set<Watcher>)
    reads timers`at, periodics`at
  {
    || limit >= MAX_BLOCKTIME
    || (exists w | w in timers :: limit >= w.at - b.mnNow) || (exists w | w in periodics :: limit >= w.at - b.rtNow)
  }

  /**
   * The wait computation of ev_run: first sleep, then wait in the backend. Together they are no
   * longer than the larger of the backend's minimum, the timeout granularity and the time left to
   * any active timer or periodic, and no shorter than the time left to the first; and a loop that
   * must not wait does neither. It sleeps as long as it is to collect events, or all but the
   * backend's minimum; and with nothing to wait for, it blocks for close to a minute.
   */
  method WaitTimes(mayWait: bool, b: Blocking, timers: array<Node>, timercnt: nat, periodics: array<Node>,
                   periodiccnt: nat, ghost ts: set<Watcher>, ghost ps: set<Watcher>)
    returns (slept: real, waittime: real)
    requires HeapValid(timers, timercnt, ts) && HeapValid(periodics, periodiccnt, ps)
    requires b.minimum >= 0.0 && b.timeout >= 0.0
    ensures slept >= 0.0 && waittime >= 0.0
    ensures !mayWait ==> slept + waittime == 0.0
    ensures mayWait ==> Bound(slept + waittime, b, ts, ps) && Reaches(slept + waittime, b, ts, ps)
    ensures mayWait ==> waittime >= b.minimum && slept + waittime >= b.timeout
    ensures slept > 0.0 ==> b.io != 0.0 && slept <= b.io - (b.mnNow - b.prevMnNow)
    ensures mayWait && b.io != 0.0 ==> slept >= b.io - (b.mnNow - b.prevMnNow) || waittime == b.minimum
    ensures mayWait && ts == ps == {} && b.timeout <= 59.743 && b.minimum <= 59.743 ==> slept + waittime == 59.743
  {
    waittime, slept := 0.0, 0.0;
    if mayWait {
      waittime := MAX_BLOCKTIME;
      waittime := WaitForRoot(timers, timercnt, b.mnNow, waittime, ts);
      waittime := WaitForRoot(periodics, periodiccnt, b.rtNow, waittime, ps);
      if waittime < b.timeout {
        waittime := b.timeout;
      }
      if waittime < b.minimum {
        waittime := b.minimum;
      }
      if b.io != 0.0 {
        var sleeptime := b.io - (b.mnNow - b.prevMnNow);
        if sleeptime > waittime - b.minimum {
          sleeptime := waittime - b.minimum;
        }
        if sleeptime > 0.0 {
          slept := sleeptime;
          waittime := waittime - sleeptime;
        }
      }
    }
  }
}
