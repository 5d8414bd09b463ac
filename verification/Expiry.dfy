/**
 * Expired timers as a list: what timers_reify makes of their expiry times, and the order in which
 * the events it feeds are answered.
 */
module Expiry {
  import opened TimerHeap
  import opened EventLog
  import opened PendingQueues

  const EV_TIMER := Mask(0x100)

  predicate IsPrefix(before: seq<Event>, now: seq<Event>) {
    before <= now
  }

  /** The next expiry of a timer: unchanged, at its interval but not before now, or relative again once stopped. */
  function NextAt(at: real, repeats: real, now: real): real {
    if at >= now then at
    else if repeats == 0.0 then at - now
    else if at + repeats < now then now
    else at + repeats
  }

  ghost predicate Distinct(order: seq<Watcher>) {
    forall i, j | 0 <= i < j < |order| :: order[i] != order[j]
  }

  /** The history of feeding a list backwards. */
  ghost function Fires(order: seq<Watcher>, revents: Mask): seq<Event>
    reads order`priority
  {
    if order == [] then [] else Fires(order[1..], revents) + [Event.Fed(order[0], revents, order[0].priority)]
  }

  /** The history of stopping the one-shot timers of a list. */
  ghost function Stops(order: seq<Watcher>): seq<Event>
    reads order`repeats
  {
    if order == [] then []
    else
      var w := order[|order| - 1];
      Stops(order[..|order| - 1]) + if w.repeats == 0.0 then [Cleared(w)] else []
  }

  ghost function Times(ws: set<Watcher>): map<Watcher, real>
    reads ws`at
  {
    map w | w in ws :: w.at
  }

  ghost function Repeats(ws: set<Watcher>): map<Watcher, real>
    reads ws`repeats
  {
    map w | w in ws :: w.repeats
  }

  lemma TimesOf(ws: set<Watcher>)
    ensures Times(ws).Keys == ws && Repeats(ws).Keys == ws
    ensures forall w | w in ws :: Times(ws)[w] == w.at && Repeats(ws)[w] == w.repeats
  {
  }

  lemma StopsMore(order: seq<Watcher>, w: Watcher)
    ensures Stops(order + [w]) == Stops(order) + if w.repeats == 0.0 then [Cleared(w)] else []
  {
    assert (order + [w])[..|order|] == order;
  }

  lemma TimesChange(ws: set<Watcher>, at1: map<Watcher, real>, w: Watcher)
    requires w in ws && at1.Keys == ws && forall v | v in ws && v != w :: v.at == at1[v]
    ensures Times(ws) == at1[w := w.at]
  {
  }

  /**
   * Between expiry times at0 and at1, the timers of order have been reified: those to expire
   * first, in that order, each once; active says which of all of them still are.
   */
  ghost predicate Reified(order: seq<Watcher>, at0: map<Watcher, real>, at1: map<Watcher, real>,
                          active: set<Watcher>, repeats: map<Watcher, real>, now: real) {
    && at1.Keys == at0.Keys && repeats.Keys == at0.Keys && active <= at0.Keys
    && Distinct(order)
    && (forall w | w in order :: w in at0 && at0[w] < now)
    && (forall i, j | 0 <= i < j < |order| && order[i] in at0 && order[j] in at0 :: at0[order[i]] <= at0[order[j]])
    && (forall r, v | r in order && r in at0 && v in at0 && v !in order :: at0[r] <= at0[v])
    && (forall w | w in at0 && w in repeats :: w in active <==> !(w in order && repeats[w] == 0.0))
    && (forall w | w in at0 && w in at1 && w in repeats ::
          at1[w] == if w in order then NextAt(at0[w], repeats[w], now) else at0[w])
  }

  /** Only timers that were active have been reified, and all that had expired if none active has now. */
  lemma ReifiedAll(order: seq<Watcher>, at0: map<Watcher, real>, at1: map<Watcher, real>,
                   active: set<Watcher>, repeats: map<Watcher, real>, now: real)
    requires Reified(order, at0, at1, active, repeats, now)
    ensures forall w | w in order :: w in at0
    ensures (forall w | w in active && w in at1 :: at1[w] >= now) ==> forall w | w in at0 && at0[w] < now :: w in order
  {
  }

  /**
   * What becomes of the timers ws that were to expire at the times at0, in terms of their fields:
   * one that has expired by now and repeats is due one interval after its expiry, or now if that
   * is past; one that does not repeat has what was left of its time, and is no longer active.
   */
  ghost predicate Rescheduled(ws: set<Watcher>, at0: map<Watcher, real>, active: set<Watcher>, now: real)
    reads ws`at, ws`repeats
  {
    at0.Keys == ws && forall w | w in ws ::
      && (w in active <==> at0[w] >= now || w.repeats != 0.0)
      && (at0[w] >= now ==> w.at == at0[w])
      && (at0[w] < now && w.repeats == 0.0 ==> w.at == at0[w] - now)
      && (at0[w] < now && w.repeats > 0.0 && at0[w] + w.repeats >= now ==> w.at == at0[w] + w.repeats)
      && (at0[w] < now && w.repeats > 0.0 && at0[w] + w.repeats < now ==> w.at == now)
  }

  lemma ReifiedTimes(ws: set<Watcher>, order: seq<Watcher>, at0: map<Watcher, real>, active: set<Watcher>, now: real)
    requires Reified(order, at0, Times(ws), active, Repeats(ws), now)
    requires forall w | w in active :: w.at >= now
    ensures at0.Keys == ws && active <= ws && Rescheduled(ws, at0, active, now)
    ensures forall w | w in ws && at0[w] < now :: w in order
    ensures forall w | w in order :: w in ws
  {
    TimesOf(ws);
    assert at0.Keys == ws;
  }

  // ---- The schedule of a repeating timer -----------------------------------------------------

  /** When a timer is due next after it has been reified at these moments, one after the other. */
  function AtAfter(at: real, repeats: real, nows: seq<real>): real {
    if nows == [] then at
    else NextAt(AtAfter(at, repeats, nows[..|nows| - 1]), repeats, nows[|nows| - 1])
  }

  /** How often it has expired by then. */
  function Expiries(at: real, repeats: real, nows: seq<real>): nat {
    if nows == [] then 0
    else
      var n := |nows| - 1;
      Expiries(at, repeats, nows[..n]) + if AtAfter(at, repeats, nows[..n]) < nows[n] then 1 else 0
  }

  /** At none of these moments had a whole interval passed since the timer was due. */
  ghost predicate NoneMissed(at: real, repeats: real, nows: seq<real>) {
    forall i | 0 <= i < |nows| :: AtAfter(at, repeats, nows[..i]) + repeats >= nows[i]
  }

  /** The n-th interval after the first expiry. */
  function Scheduled(at: real, repeats: real, n: nat): (r: real)
    ensures r == at + n as real * repeats
  {
    if n == 0 then at else Scheduled(at, repeats, n - 1) + repeats
  }

  /**
   * A repeating timer keeps its schedule, a whole number of intervals from its first expiry, exactly
   * as long as it is never late by more than an interval; after that it runs behind for good.
   */
  lemma {:induction false} KeepsScheduleIff(at: real, repeats: real, nows: seq<real>)
    requires repeats > 0.0
    ensures AtAfter(at, repeats, nows) >= Scheduled(at, repeats, Expiries(at, repeats, nows))
    ensures AtAfter(at, repeats, nows) == Scheduled(at, repeats, Expiries(at, repeats, nows))
      <==> NoneMissed(at, repeats, nows)
  {
    if nows != [] {
      var init, now := nows[..|nows| - 1], nows[|nows| - 1];
      KeepsScheduleIff(at, repeats, init);
      MissedMore(at, repeats, init, now);
      assert init + [now] == nows;
      NextOnSchedule(AtAfter(at, repeats, init), Scheduled(at, repeats, Expiries(at, repeats, init)), repeats, now);
      hide NoneMissed, NextAt;
    }
  }

  lemma MissedMore(at: real, repeats: real, init: seq<real>, now: real)
    ensures NoneMissed(at, repeats, init + [now])
      <==> NoneMissed(at, repeats, init) && AtAfter(at, repeats, init) + repeats >= now
  {
    hide AtAfter;
    var nows := init + [now];
    assert forall i | 0 <= i <= |init| :: nows[..i] == init[..i];
    assert init[..|init|] == init;
    if NoneMissed(at, repeats, nows) {
      assert AtAfter(at, repeats, nows[..|init|]) + repeats >= nows[|init|];
      forall i | 0 <= i < |init| ensures AtAfter(at, repeats, init[..i]) + repeats >= init[i] {
        assert AtAfter(at, repeats, nows[..i]) + repeats >= nows[i];
      }
    }
  }

  /** A timer that should be due at scheduled, and is not due before that. */
  lemma NextOnSchedule(at: real, scheduled: real, repeats: real, now: real)
    requires repeats > 0.0 && at >= scheduled
    ensures var next := if at < now then scheduled + repeats else scheduled;
      && NextAt(at, repeats, now) >= next
      && (NextAt(at, repeats, now) == next <==> at == scheduled && at + repeats >= now)
  {
  }

  /** Between the expiry times at0 and these, ws have been reified at these moments. */
  ghost predicate OnSchedule(ws: set<Watcher>, at0: map<Watcher, real>, active: set<Watcher>, nows: seq<real>)
    reads ws`at, ws`repeats
  {
    at0.Keys == ws && forall w | w in ws && w.repeats > 0.0 ::
      w in active && w.at == AtAfter(at0[w], w.repeats, nows)
  }

  lemma NoMoments(ws: set<Watcher>)
    ensures OnSchedule(ws, Times(ws), ws, [])
  {
  }

  /** One more reification, of the timers still active, after which the times at1 have become these. */
  lemma ScheduledNext(ws: set<Watcher>, at0: map<Watcher, real>, active: set<Watcher>, now: real, nows: seq<real>,
                      at1: map<Watcher, real>, active1: set<Watcher>)
    requires at0.Keys == ws && active1 <= ws
    requires forall w | w in ws && w.repeats > 0.0 ::
      w in active1 && w in at1 && at1[w] == AtAfter(at0[w], w.repeats, nows)
    requires Rescheduled(active1, at1, active, now)
    ensures OnSchedule(ws, at0, active, nows + [now])
  {
    assert (nows + [now])[..|nows|] == nows;
  }

  lemma NoneExpired(heap: array<Node>, n: nat, ws: set<Watcher>, now: real)
    requires HeapValid(heap, n, ws) && (n == 0 || heap[HEAP0].at >= now)
    ensures forall w | w in ws :: w.at >= now
  {
    if n > 0 {
      RootIsEarliest(heap[..], n, ws);
    } else {
      PlacedCount(heap[..], n, ws);
    }
  }

  lemma ReifiedNone(at0: map<Watcher, real>, repeats: map<Watcher, real>, now: real)
    requires repeats.Keys == at0.Keys
    ensures Reified([], at0, at0, at0.Keys, repeats, now)
  {
  }

  lemma ReifiedStep(order: seq<Watcher>, at0: map<Watcher, real>, at1: map<Watcher, real>,
                    active: set<Watcher>, repeats: map<Watcher, real>, now: real, w: Watcher)
    requires Reified(order, at0, at1, active, repeats, now)
    requires w in active && w in at1 && w in repeats && at1[w] < now
    requires forall v | v in active && v in at1 :: at1[w] <= at1[v]
    ensures w !in order
    ensures Reified(order + [w], at0, at1[w := NextAt(at1[w], repeats[w], now)],
      if repeats[w] == 0.0 then active - {w} else active, repeats, now)
  {
  }

  /** The entries of an expiry: timers stopped, then timers fed. */
  ghost predicate Expiring(es: seq<Event>) {
    exists n: nat :: StopsThenFeeds(es, n)
  }

  predicate StopsThenFeeds(es: seq<Event>, n: nat) {
    n <= |es|
    && (forall i | 0 <= i < n :: es[i].Cleared?)
    && (forall i | n <= i < |es| :: es[i].Fed? && es[i].mask.bits == 0x100)
  }

  lemma {:induction false} AllStops(order: seq<Watcher>)
    ensures forall i | 0 <= i < |Stops(order)| :: Stops(order)[i].Cleared?
    decreases |order|
  {
    if order != [] {
      AllStops(order[..|order| - 1]);
    }
  }

  lemma {:induction false} AllFires(order: seq<Watcher>)
    ensures |Fires(order, EV_TIMER)| == |order|
    ensures forall i | 0 <= i < |order| :: Fires(order, EV_TIMER)[i].Fed? && Fires(order, EV_TIMER)[i].mask == EV_TIMER
    decreases |order|
  {
    if order != [] {
      AllFires(order[1..]);
    }
  }

  lemma StopsThenFires(order: seq<Watcher>)
    ensures Expiring(Stops(order) + Fires(order, EV_TIMER))
  {
    AllStops(order);
    AllFires(order);
    hide Stops, Fires;
    assert StopsThenFeeds(Stops(order) + Fires(order, EV_TIMER), |Stops(order)|);
  }

  // ---- The order of the answers --------------------------------------------------------------

  /** The timers that had expired, by their expiry times. */
  ghost predicate ExpiredIn(order: seq<Watcher>, at0: map<Watcher, real>, now: real) {
    && Distinct(order)
    && (forall w | w in order :: w in at0 && at0[w] < now)
    && (forall w | w in at0 && at0[w] < now :: w in order)
    && (forall i, j | 0 <= i < j < |order| && order[i] in at0 && order[j] in at0 :: at0[order[i]] <= at0[order[j]])
  }

  lemma AllExpired(order: seq<Watcher>, at0: map<Watcher, real>, at1: map<Watcher, real>,
                   active: set<Watcher>, repeats: map<Watcher, real>, now: real)
    requires Reified(order, at0, at1, active, repeats, now)
    requires forall w | w in active && w in at1 :: at1[w] >= now
    ensures ExpiredIn(order, at0, now) && Distinct(order) && forall w | w in order :: w in at0
  {
    ReifiedAll(order, at0, at1, active, repeats, now);
  }

  /** The entry that feeds the i-th timer of a list fed backwards after base entries. */
  function FiredAt(base: nat, order: seq<Watcher>, i: nat): nat
    requires i < |order|
  {
    base + |order| - 1 - i
  }

  ghost predicate IsFiring(log: seq<Event>, base: nat, order: seq<Watcher>, i: nat)
    requires base + |order| <= |log| && i < |order|
  {
    var e := log[FiredAt(base, order, i)];
    e.Fed? && e.w == order[i] && e.mask.bits == 0x100
  }

  /** If the event fed at late is delivered, then that at early, of the same priority, was answered before. */
  ghost predicate AnsweredFirst(log: seq<Event>, early: nat, late: nat) {
    early < |log| && late < |log| && log[early].Fed? && log[late].Fed? && log[early].pri == log[late].pri ==>
      forall t: nat | Answers(log, late, t) && log[t].Invoked? :: exists s: nat :: Answers(log, early, s) && s < t
  }

  /** Every timer of the list was fed, and of two of the same priority the first is answered first. */
  ghost predicate InExpiryOrder(log: seq<Event>, base: nat, order: seq<Watcher>) {
    && base + |order| <= |log|
    && (forall i: nat | i < |order| :: IsFiring(log, base, order, i))
    && (forall i: nat, j: nat | i < j < |order| :: AnsweredFirst(log, FiredAt(base, order, i), FiredAt(base, order, j)))
  }

  lemma {:induction false} FiresAt(order: seq<Watcher>, revents: Mask, i: nat)
    requires i < |order|
    ensures |Fires(order, revents)| == |order|
    ensures Fires(order, revents)[|order| - 1 - i] == Event.Fed(order[i], revents, order[i].priority)
    decreases |order|
  {
    if |order| > 1 {
      FiresAt(order[1..], revents, if i == 0 then 0 else i - 1);
    }
  }

  lemma StopsSplit(log: seq<Event>, order: seq<Watcher>)
    ensures order == [] ==> log + Stops(order) == log
    ensures order != [] ==>
      var w := order[|order| - 1];
      var some := log + Stops(order[..|order| - 1]);
      log + Stops(order) == if w.repeats == 0.0 then some + [Cleared(w)] else some
  {
    if order != [] {
      var w, init := order[|order| - 1], order[..|order| - 1];
      assert Stops(order) == if w.repeats == 0.0 then Stops(init) + [Cleared(w)] else Stops(init);
      assert log + (Stops(init) + [Cleared(w)]) == (log + Stops(init)) + [Cleared(w)];
    }
  }

  lemma {:induction false} StopsMakeNothingDue(log: seq<Event>, order: seq<Watcher>)
    ensures forall w | w in DueOf(log + Stops(order)) :: w in DueOf(log)
    decreases |order|
  {
    hide DueOf, Proper, Stops;
    StopsSplit(log, order);
    if order != [] {
      var init := order[..|order| - 1];
      StopsMakeNothingDue(log, init);
      Append(log + Stops(init), Cleared(order[|order| - 1]));
    }
  }

  /** Feeding some watchers makes due only these, beside what is due already. */
  lemma {:induction false} FiresMakeDue(log: seq<Event>, order: seq<Watcher>, revents: Mask)
    ensures forall w | w in DueOf(log + Fires(order, revents)) :: w in DueOf(log) || w in order
    decreases |order|
  {
    if order == [] {
      assert log + Fires(order, revents) == log;
    } else {
      var e := Event.Fed(order[0], revents, order[0].priority);
      FiresMakeDue(log, order[1..], revents);
      Append(log + Fires(order[1..], revents), e);
      assert log + Fires(order[1..], revents) + [e] == log + Fires(order, revents);
    }
  }

  lemma {:induction false} FiresSuffix(order: seq<Watcher>, revents: Mask, i: nat)
    requires i <= |order|
    ensures |Fires(order, revents)| == |order| && |Fires(order[i..], revents)| == |order| - i
    ensures Fires(order, revents)[..|order| - i] == Fires(order[i..], revents)
    decreases i
  {
    if i == 0 {
      assert order[0..] == order;
      if order != [] {
        FiresAt(order, revents, 0);
      }
    } else {
      assert order[1..][i - 1..] == order[i..];
      FiresSuffix(order[1..], revents, i - 1);
    }
  }

  lemma FiringIs(before: seq<Event>, order: seq<Watcher>, fired: seq<Event>, i: nat)
    requires i < |order| && |Fires(order, EV_TIMER)| == |order| && fired == before + Fires(order, EV_TIMER)
    ensures IsFiring(fired, |before|, order, i)
  {
    hide Fires;
    FiresAt(order, EV_TIMER, i);
    assert fired[|before| + (|order| - 1 - i)] == Fires(order, EV_TIMER)[|order| - 1 - i];
  }

  /** Each firing of distinct watchers that were not due puts its watcher on a queue. */
  lemma FiringQueues(before: seq<Event>, order: seq<Watcher>, fired: seq<Event>, i: nat)
    requires Distinct(order) && (forall w | w in order :: w !in DueOf(before)) && i < |order|
    requires |Fires(order, EV_TIMER)| == |order| && fired == before + Fires(order, EV_TIMER)
    ensures PutsOnQueue(fired, FiredAt(|before|, order, i))
  {
    hide Fires, DueOf, Distinct, PutsOnQueue;
    var rest := order[i + 1..];
    FiringIs(before, order, fired, i);
    NotInRest(order, i);
    FiresMakeDue(before, rest, EV_TIMER);
    FiredBefore(before, order, fired, i);
    PutsOnQueueIf(fired, FiredAt(|before|, order, i));
  }

  lemma FiredBefore(before: seq<Event>, order: seq<Watcher>, fired: seq<Event>, i: nat)
    requires |Fires(order, EV_TIMER)| == |order| && fired == before + Fires(order, EV_TIMER) && i < |order|
    ensures FiredAt(|before|, order, i) < |fired|
    ensures fired[..FiredAt(|before|, order, i)] == before + Fires(order[i + 1..], EV_TIMER)
  {
    hide Fires;
    var rest := order[i + 1..];
    FiresSuffix(order, EV_TIMER, i + 1);
    PrefixOfSum(before, Fires(order, EV_TIMER), |rest|);
  }

  lemma PutsOnQueueIf(log: seq<Event>, i: nat)
    requires i < |log| && log[i].Fed? && log[i].w !in DueOf(log[..i])
    ensures PutsOnQueue(log, i)
  {
  }

  lemma NotInRest(order: seq<Watcher>, i: nat)
    requires Distinct(order) && i < |order|
    ensures order[i] !in order[i + 1..]
  {
  }

  lemma PrefixOfSum(xs: seq<Event>, ys: seq<Event>, n: nat)
    requires n <= |ys|
    ensures (xs + ys)[..|xs| + n] == xs + ys[..n]
  {
  }

  /** Every timer of the list was put on its queue, last first. */
  ghost predicate AllFired(fired: seq<Event>, base: nat, order: seq<Watcher>) {
    && base + |order| <= |fired|
    && forall i: nat | i < |order| :: IsFiring(fired, base, order, i) && PutsOnQueue(fired, FiredAt(base, order, i))
  }

  lemma FiringsQueue(log0: seq<Event>, order: seq<Watcher>, fired: seq<Event>)
    requires Distinct(order) && forall w | w in order :: w !in DueOf(log0)
    requires fired == log0 + Stops(order) + Fires(order, EV_TIMER)
    ensures AllFired(fired, |log0 + Stops(order)|, order)
  {
    var before := log0 + Stops(order);
    StopsMakeNothingDue(log0, order);
    FiresSuffix(order, EV_TIMER, 0);
    hide Fires, Stops, DueOf, IsFiring, PutsOnQueue;
    forall i: nat | i < |order|
      ensures IsFiring(fired, |before|, order, i) && PutsOnQueue(fired, FiredAt(|before|, order, i))
    {
      FiringIs(before, order, fired, i);
      FiringQueues(before, order, fired, i);
    }
  }

  lemma PairInOrder(fired: seq<Event>, log: seq<Event>, base: nat, order: seq<Watcher>, i: nat, j: nat)
    requires Distinct(order) && AllFired(fired, base, order) && fired <= log && Proper(log) && i < j < |order|
    ensures AnsweredFirst(log, FiredAt(base, order, i), FiredAt(base, order, j))
  {
    var early, late := FiredAt(base, order, i), FiredAt(base, order, j);
    assert IsFiring(fired, base, order, i) && IsFiring(fired, base, order, j);
    assert log[..early] == fired[..early] && log[..late] == fired[..late];
    hide DueOf, Proper;
    if log[early].pri == log[late].pri {
      forall t: nat | Answers(log, late, t) && log[t].Invoked?
        ensures exists s: nat :: Answers(log, early, s) && s < t
      {
        AfterFiring(fired, log, base, order, t);
        LaterQueuedIsAnsweredFirst(log, late, early, t);
      }
    }
  }

  /** Timers fed backwards are answered forwards. */
  lemma InOrder(fired: seq<Event>, log: seq<Event>, base: nat, order: seq<Watcher>)
    requires Distinct(order) && AllFired(fired, base, order) && fired <= log && Proper(log)
    ensures InExpiryOrder(log, base, order)
  {
    hide AnsweredFirst, Distinct, PutsOnQueue, Proper;
    forall i: nat | i < |order| ensures IsFiring(log, base, order, i) {
      assert IsFiring(fired, base, order, i);
    }
    forall i: nat, j: nat | i < j < |order|
      ensures AnsweredFirst(log, FiredAt(base, order, i), FiredAt(base, order, j))
    {
      PairInOrder(fired, log, base, order, i, j);
    }
  }

  /** What is not a feeding comes before or after the firings. */
  lemma AfterFiring(fired: seq<Event>, log: seq<Event>, base: nat, order: seq<Watcher>, t: nat)
    requires AllFired(fired, base, order) && fired <= log
    requires base <= t < |log| && !log[t].Fed?
    ensures t >= base + |order|
  {
    var i := base + |order| - 1 - t;
    assert 0 <= i < |order| ==> IsFiring(fired, base, order, i);
  }
}
