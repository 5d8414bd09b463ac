/** The loop object: pending queues by priority, the timer heap, and the calls a callback may make. */
module EventLoop {
  import opened TimerHeap
  import opened EventLog
  import opened PendingQueues
  import opened Transcript
  import opened Expiry

  function Clamp(priority: int): (p: int)
    ensures InRange(p) && (InRange(priority) ==> p == priority)
  {
    if priority < MINPRI then MINPRI else if priority > MAXPRI then MAXPRI else priority
  }

  /** Of the five priorities, -2 to 2, a watcher gets the one nearest to what it asks for. */
  lemma ClampIsNearest(priority: int, p: int)
    requires -2 <= p <= 2
    ensures -2 <= Clamp(priority) <= 2
    ensures (p <= priority ==> p <= Clamp(priority)) && (priority <= p ==> Clamp(priority) <= p)
  {
  }

  /** A step of a run. */
  datatype Step =
    | Do(c: Call)
    | Expire
    | Tick(now: real)
    | Jump(adjust: real)
    | Dispatch(script: seq<seq<Call>>)
    | Set(w: Watcher, after: real, repeats: real)   // ev_timer_set
    | Prioritise(w: Watcher, priority: int)         // ev_set_priority
    | Enlist(w: Watcher)                            // ev_init: the watcher will be used with this loop

  class EventLoop {
    var pendings: seq<seq<Pending>>
    var pendingpri: nat
    const pendingW: Watcher
    var activecnt: int
    var timers: array<Node>
    var timercnt: nat
    var rfeeds: seq<Watcher>
    var mnNow: real

    ghost var known: set<Watcher>
    ghost var timerSet: set<Watcher>
    ghost var log: seq<Event>

    /** loop_init, as far as these fields go. */
    constructor (now: real)
      ensures Honest() && fresh(pendingW) && fresh(timers) && HeapValid(timers, timercnt, timerSet)
      ensures known == {} && timerSet == {} && log == [] && timercnt == 0 && activecnt == 0 && mnNow == now
      ensures rfeeds == [] && pendingpri == 0
    {
      var dummy := new Watcher(false, 0, 0.0, 0.0);
      pendingW := dummy;
      pendings, pendingpri := [[], [], [], [], []], 0;
      activecnt, timercnt, rfeeds, mnNow := 0, 0, [], now;
      timers := new Node[HEAP0](_ => Node(dummy, 0.0));
      known, timerSet, log := {}, {}, [];
    }

    // ---- Pending queues ----------------------------------------------------------------------

    ghost function SlotNumbers(): map<Watcher, nat>
      reads this`known, known`pending
    {
      map w | w in known :: w.pending
    }

    ghost function Priorities(): map<Watcher, int>
      reads this`known, known`priority
    {
      map w | w in known :: w.priority
    }

    /** The queues as a value. */
    ghost function Q(): Queues
      reads this`pendings, this`known, known`pending, known`priority
    {
      Queues(pendings, SlotNumbers(), Priorities(), pendingW)
    }

    /** w->pending = slot. */
    method SetPending(w: Watcher, slot: nat)
      requires w in known
      modifies w`pending
      ensures w.pending == slot && SlotNumbers() == old(SlotNumbers())[w := slot]
    {
      w.pending := slot;
    }

    ghost predicate Honest()
      reads this`pendings, this`known, known`pending, known`priority, this`log
    {
      Agrees(Q(), log)
    }

    method PushSlot(w: Watcher, events: Mask)
      requires Ok(Q()) && w in known && InRange(w.priority)
      modifies `pendings, w`pending
      ensures Q() == Push(old(Q()), w, events)
    {
      var pri := AbsPri(w.priority);
      assert |pendings| == NUMPRI && Q().slot[w] == w.pending && Q().pri[w] == w.priority;
      hide Ok, SlotNumbers, Priorities;
      SetPending(w, |pendings[pri]| + 1);
      pendings := pendings[pri := pendings[pri] + [Pending(w, events)]];
    }

    method SetSlotEvents(w: Watcher, events: Mask)
      requires Ok(Q()) && w in known && w.pending != 0
      modifies `pendings
      ensures Q() == SetEvents(old(Q()), w, events)
    {
      var pri := AbsPri(w.priority);
      assert |pendings| == NUMPRI && OnQueue(Q(), w) && Q().slot[w] == w.pending && Q().pri[w] == w.priority;
      hide Ok, SlotNumbers, Priorities;
      pendings := pendings[pri := pendings[pri][w.pending - 1 := Pending(w, events)]];
    }

    lemma QAt(w: Watcher)
      requires w in known
      ensures w in Q().slot && w in Q().pri && Q().slot[w] == w.pending && Q().pri[w] == w.priority
      ensures IsPending(Q(), w) == (w.pending != 0)
    {
    }

    method DropSlot(w: Watcher)
      requires Ok(Q()) && w in known && w.pending != 0
      modifies `pendings, w`pending
      ensures Q() == Drop(old(Q()), w) && w.pending == 0
    {
      hide Ok, Drop, SlotNumbers, Priorities, SlotOf, IsPending;
      var pri := AbsPri(w.priority);
      QAt(w);
      var slot := GetSlot(w);
      DropIs(Q(), w);
      pendings := pendings[pri := pendings[pri][w.pending - 1 := Pending(pendingW, slot.events)]];
      SetPending(w, 0);
    }

    method GetSlot(w: Watcher) returns (slot: Pending)
      requires Ok(Q()) && w in known && w.pending != 0
      ensures slot == SlotOf(Q(), w)
    {
      assert OnQueue(Q(), w);
      slot := pendings[AbsPri(w.priority)][w.pending - 1];
    }

    method FeedEvent(w: Watcher, revents: Mask)
      requires Honest() && w in known && InRange(w.priority)
      modifies `pendings, `pendingpri, `log, w`pending
      ensures Honest() && log == old(log) + [Event.Fed(w, revents, w.priority)]
      ensures pendingpri == NUMPRI - 1
    {
      hide Q, Ok, PendingQueues.Fed, Agrees;
      ghost var q := Q();
      QAt(w);
      FedAgrees(q, log, w, revents);
      FeedQueues(w, revents);
      pendingpri := NUMPRI - 1;
      log := log + [Event.Fed(w, revents, w.priority)];
    }

    method FeedQueues(w: Watcher, revents: Mask)
      requires Ok(Q()) && w in known && InRange(w.priority)
      modifies `pendings, w`pending
      ensures Q() == PendingQueues.Fed(old(Q()), w, revents)
    {
      hide Ok, SlotOf, Push, SetEvents, PendingQueues.Fed, Join, IsPending, Q;
      QAt(w);
      FedIs(Q(), w, revents);
      if w.pending != 0 {
        var slot := GetSlot(w);
        SetSlotEvents(w, Join(slot.events, revents));
      } else {
        PushSlot(w, revents);
      }
    }

    lemma FedIs(q: Queues, w: Watcher, revents: Mask)
      requires Ok(q) && w in q.slot && InRange(q.pri[w])
      ensures PendingQueues.Fed(q, w, revents)
        == if IsPending(q, w) then SetEvents(q, w, Join(SlotOf(q, w).events, revents)) else Push(q, w, revents)
    {
      hide SetEvents, Push, SlotOf, Join, Ok;
    }

    /** The pending flags of w, which it thereby loses. */
    method ClearPending(w: Watcher) returns (events: Mask)
      requires Honest() && w in known
      modifies `pendings, `log, w`pending
      ensures Honest() && log == old(log) + [Cleared(w)]
      ensures w.pending == 0 && SameLengths(old(pendings), pendings)
      ensures events == if w in old(DueOf(log)) then old(DueOf(log))[w].mask else NOTHING
    {
      hide Q, Ok, Unqueued, Agrees, DueOf, SlotOf;
      ghost var q := Q();
      QAt(w);
      UnqueuedAgrees(q, log, w);
      events := Unqueue(w);
      log := log + [Cleared(w)];
    }

    method Unqueue(w: Watcher) returns (events: Mask)
      requires Ok(Q()) && w in known
      modifies `pendings, w`pending
      ensures Q() == Unqueued(old(Q()), w) && w.pending == 0 && SameLengths(old(pendings), pendings)
      ensures events == if IsPending(old(Q()), w) then SlotOf(old(Q()), w).events else NOTHING
    {
      hide Ok, SlotOf, Drop, IsPending, Q;
      QAt(w);
      UnqueuedLengths(Q(), w);
      QIs();
      events := NOTHING;
      if w.pending != 0 {
        var slot := GetSlot(w);
        events := slot.events;
        DropSlot(w);
      }
      QIs();
    }

    // ---- Timers ------------------------------------------------------------------------------

    /** What verify_heap asserts, that the heap holds exactly the active timers, and that they are counted. */
    ghost predicate TimersOk()
      reads this`timers, this`timercnt, this`timerSet, this`activecnt, this`known, timers,
        known`active, known`at, known`repeats, known`priority
    {
      && timerSet <= known && activecnt == timercnt
      && HeapValid(timers, timercnt, timerSet)
      && (forall w | w in timerSet :: w.isTimer && w.repeats >= 0.0 && InRange(w.priority))
      && (forall w | w in known && w.isTimer :: w.active != 0 <==> w in timerSet)
    }

    /** array_needsize: room for cnt nodes, those there kept. */
    method NeedSize(cnt: nat)
      modifies `timers
      ensures timers == old(timers) || fresh(timers)
      ensures cnt <= timers.Length && old(timers.Length) <= timers.Length
      ensures timers[..old(timers.Length)] == old(timers[..])
    {
      if cnt > timers.Length {
        var ncur := 2 * (timers.Length + 1);
        while cnt > ncur
          invariant ncur > timers.Length
        {
          ncur := 2 * ncur;
        }
        var bigger := new Node[ncur](i requires 0 <= i < ncur reads this, timers =>
          if i < timers.Length then timers[i] else Node(pendingW, 0.0));
        assert bigger[..timers.Length] == timers[..];
        timers := bigger;
      }
    }

    /** Stores the node of w behind the others. */
    method Store(w: Watcher, ghost ws: set<Watcher>)
      requires HeapValid(timers, timercnt, ws) && w !in ws
      modifies `timers, timers, w`active
      ensures timers == old(timers) || fresh(timers)
      ensures w.active == timercnt + HEAP0
      ensures timercnt + 1 + HEAP0 <= timers.Length
      ensures PlacedBut(timers[..], timercnt + 1, ws + {w}, w.active)
      ensures MayRise(timers[..], timercnt + 1, w.active) && Cached(timers[..], timercnt + 1, ws + {w})
    {
      ghost var h := timers[..];
      w.active := timercnt + HEAP0;
      NeedSize(w.active + 1);
      timers[w.active] := Node(w, w.at);
      assert timers[..][..timercnt + HEAP0] == h[..timercnt + HEAP0];
      Extends(h, timers[..], timercnt, ws, w);
    }

    /** Puts an inactive timer on the heap. */
    method Insert(w: Watcher)
      requires HeapValid(timers, timercnt, timerSet) && w !in timerSet
      modifies `timers, `timercnt, `timerSet, timers, (timerSet + {w})`active
      ensures HeapValid(timers, timercnt, timerSet)
      ensures timerSet == old(timerSet) + {w} && timercnt == old(timercnt) + 1
      ensures timers == old(timers) || fresh(timers)
    {
      hide Placed, Ordered, Cached, MayRise, PlacedBut;
      ghost var ws := timerSet + {w};
      Store(w, timerSet);
      timercnt := timercnt + 1;
      UpHeap(timers, w.active, timercnt, timercnt, ws);
      timerSet := ws;
    }

    method SetNode(k: nat, node: Node)
      requires k < timers.Length
      modifies timers
      ensures timers[..] == old(timers[..])[k := node]
    {
      timers[k] := node;
    }

    /** Takes an active timer off the heap; the last node takes its place. */
    method Remove(w: Watcher)
      requires HeapValid(timers, timercnt, timerSet) && w in timerSet
      modifies `timercnt, `timerSet, timers, timerSet`active
      ensures HeapValid(timers, timercnt, timerSet)
      ensures timerSet == old(timerSet) - {w} && timercnt == old(timercnt) - 1
    {
      hide Placed, Ordered, Cached, PlacedBut, OrderedAround;
      ghost var ws := timerSet;
      var active := w.active;
      InPlace(timers[..], timercnt, ws, w);
      Shrinks(timers[..], timercnt - 1, ws, w);
      timercnt := timercnt - 1;
      timerSet := ws - {w};
      if active < timercnt + HEAP0 {
        SetNode(active, timers[timercnt + HEAP0]);
        AdjustHeap(timers, timercnt, active, timerSet);
      }
    }

    /** Copies the changed expiry time of an active timer to its node and moves the node. */
    method Rekey(w: Watcher)
      requires timercnt + HEAP0 <= timers.Length && w in timerSet
      requires Placed(timers[..], timercnt, timerSet) && Ordered(timers[..], timercnt)
      requires Cached(timers[..], timercnt, timerSet - {w})
      modifies timers, timerSet`active
      ensures HeapValid(timers, timercnt, timerSet)
    {
      Rekeyed(timers[..], timercnt, timerSet, w);
      hide Placed, Ordered, Cached, PlacedBut, OrderedAround;
      SetNode(w.active, timers[w.active].(at := w.at));
      AdjustHeap(timers, timercnt, w.active, timerSet);
    }

    // ---- The timer calls ---------------------------------------------------------------------

    ghost predicate Valid()
      reads this`pendings, this`known, this`log, this`timers, this`timercnt, this`timerSet, this`activecnt, timers,
        known`pending, known`priority, known`active, known`at, known`repeats
    {
      Honest() && TimersOk()
    }

    /** pri_adjust. */
    method PriAdjust(w: Watcher)
      requires Honest() && w in known
      modifies w`priority
      ensures Honest() && w.priority == Clamp(old(w.priority))
    {
      ghost var q := Q();
      if w.pending == 0 {
        PriorityAgrees(q, log, w, Clamp(w.priority));
      } else {
        assert OnQueue(q, w);
        assert q.pri[w := w.priority] == q.pri;
      }
      hide Agrees, Ok, SlotNumbers;
      w.priority := Clamp(w.priority);
      assert Q() == q.(pri := q.pri[w := w.priority]);
    }

    method TimerStart(w: Watcher)
      requires Valid() && w in known && w.isTimer && w.repeats >= 0.0
      modifies `timers, `timercnt, `timerSet, `activecnt, timers, (timerSet + {w})`active, w`at, w`priority
      ensures Valid() && (timers == old(timers) || fresh(timers))
      ensures timerSet == old(timerSet) + {w}
      ensures if old(w.active) != 0
        then w.at == old(w.at) && w.priority == old(w.priority) && activecnt == old(activecnt)
        else w.at == old(w.at) + mnNow && w.priority == Clamp(old(w.priority)) && activecnt == old(activecnt) + 1
      ensures InRange(old(w.priority)) ==> w.priority == old(w.priority)
    {
      hide HeapValid, Honest;
      if w.active != 0 {
        return;
      }
      w.at := w.at + mnNow;
      PriAdjust(w);
      activecnt := activecnt + 1;
      Insert(w);
      OnHeapIsActive(timers, timercnt, timerSet);
    }

    method TimerStop(w: Watcher)
      requires Valid() && w in known && w.isTimer
      modifies `pendings, `log, w`pending, `timercnt, `timerSet, `activecnt, timers, timerSet`active, w`at
      ensures Valid() && log == old(log) + [Cleared(w)] && w.pending == 0 && SameLengths(old(pendings), pendings)
      ensures timerSet == old(timerSet) - {w} && IsPrefix(old(log), log)
      ensures if old(w.active) == 0
        then w.at == old(w.at) && activecnt == old(activecnt)
        else w.at == old(w.at) - mnNow && activecnt == old(activecnt) - 1
    {
      hide HeapValid, Honest;
      var _ := ClearPending(w);
      if w.active == 0 {
        return;
      }
      Remove(w);
      OnHeapIsActive(timers, timercnt, timerSet);
      w.at := w.at - mnNow;
      activecnt := activecnt - 1;
      w.active := 0;
    }

    method TimerAgain(w: Watcher)
      requires Valid() && w in known && w.isTimer && w.repeats >= 0.0
      modifies `pendings, `log, w`pending, `timers, `timercnt, `timerSet, `activecnt, timers,
        (timerSet + {w})`active, w`at, w`priority
      ensures Valid() && (timers == old(timers) || fresh(timers)) && w.pending == 0
      ensures SameLengths(old(pendings), pendings) && IsPrefix(old(log), log)
      ensures log == old(log) +
        if old(w.active) != 0 && w.repeats == 0.0 then [Cleared(w), Cleared(w)] else [Cleared(w)]
      ensures if w.repeats == 0.0 then timerSet == old(timerSet) - {w}
        else timerSet == old(timerSet) + {w} && w.at == mnNow + w.repeats
      ensures InRange(old(w.priority)) ==> w.priority == old(w.priority)
    {
      hide Honest, Placed, Ordered;
      var _ := ClearPending(w);
      if w.active != 0 {
        if w.repeats != 0.0 {
          w.at := mnNow + w.repeats;
          Rekey(w);
          OnHeapIsActive(timers, timercnt, timerSet);
        } else {
          TimerStop(w);
        }
      } else if w.repeats != 0.0 {
        w.at := w.repeats;
        TimerStart(w);
      }
    }

    // ---- Expiry ------------------------------------------------------------------------------

    /** Every expiry time moves by the same amount, and its copy in the heap with it. */
    method TimersReschedule(adjust: real)
      requires Valid()
      modifies timers, timerSet`at
      ensures Valid() && forall w | w in timerSet :: w.at == old(w.at) + adjust
    {
      hide Honest, Placed, Ordered;
      ghost var h := timers[..];
      EachOnce(h, timercnt, timerSet);
      for i := 0 to timercnt
        invariant forall k | 0 <= k < timers.Length :: timers[k].w == h[k].w
        invariant forall k | HEAP0 <= k < timercnt + HEAP0 ::
          && timers[k].at == h[k].w.at
          && h[k].w.at == if k < i + HEAP0 then old(h[k].w.at) + adjust else old(h[k].w.at)
      {
        var k := i + HEAP0;
        timers[k].w.at := timers[k].w.at + adjust;
        timers[k] := timers[k].(at := timers[k].w.at);
      }
      Shifted(h, timers[..], timercnt, timerSet, adjust);
      AtPlaces(h, timercnt, timerSet);
    }

    /** The root's next expiry, if it repeats; else it is stopped. */
    method ReifyRoot() returns (w: Watcher)
      requires Valid() && timercnt > 0 && timers[HEAP0].at < mnNow
      modifies `pendings, `log, `timercnt, `timerSet, `activecnt, timers, timerSet`active, timerSet`at, timerSet`pending
      ensures Valid()
      ensures w in old(timerSet) && old(w.at) < mnNow && forall v | v in old(timerSet) :: old(w.at) <= old(v.at)
      ensures timerSet == if w.repeats == 0.0 then old(timerSet) - {w} else old(timerSet)
      ensures log == old(log) + if w.repeats == 0.0 then [Cleared(w)] else []
      ensures w.at == NextAt(old(w.at), w.repeats, mnNow)
      ensures forall v | v in known && v != w :: v.at == old(v.at)
    {
      hide Honest;
      w := timers[HEAP0].w;
      RootIsEarliest(timers[..], timercnt, timerSet);
      if w.repeats != 0.0 {
        RepeatRoot(w);
      } else {
        hide TimersOk;
        TimerStop(w);
      }
    }

    method RepeatRoot(w: Watcher)
      requires TimersOk() && timercnt > 0 && w in timerSet && timers[HEAP0].w == w && w.at < mnNow && w.repeats != 0.0
      modifies timers, timerSet`active, w`at
      ensures TimersOk() && w.at == NextAt(old(w.at), w.repeats, mnNow)
    {
      w.at := w.at + w.repeats;
      if w.at < mnNow {
        w.at := mnNow;
      }
      hide Placed, Ordered;
      SinkRoot(w);
      OnHeapIsActive(timers, timercnt, timerSet);
      hide HeapValid;
    }

    /** ANHE_at_cache and downheap for a root that now expires later. */
    method SinkRoot(w: Watcher)
      requires timercnt > 0 && timercnt + HEAP0 <= timers.Length && w in timerSet && timers[HEAP0].w == w
      requires Placed(timers[..], timercnt, timerSet) && Ordered(timers[..], timercnt)
      requires Cached(timers[..], timercnt, timerSet - {w})
      modifies timers, timerSet`active
      ensures HeapValid(timers, timercnt, timerSet)
    {
      Rekeyed(timers[..], timercnt, timerSet, w);
      RootMaySink(timers[..][HEAP0 := timers[HEAP0].(at := w.at)], timercnt);
      hide Placed, Ordered, Cached, PlacedBut, OrderedAround, MaySink;
      SetNode(HEAP0, timers[HEAP0].(at := w.at));
      DownHeap(timers, timercnt, HEAP0, timerSet);
    }

    /** feed_reverse_done: feeds what feed_reverse collected, last first. */
    method FeedReverseDone(revents: Mask)
      requires Honest() && rfeeds != []
      requires forall w | w in rfeeds :: w in known && InRange(w.priority)
      modifies `pendings, `pendingpri, `log, `rfeeds, rfeeds`pending
      ensures Honest() && rfeeds == [] && log == old(log) + Fires(old(rfeeds), revents)
    {
      hide Honest;
      ghost var order := rfeeds;
      assert order[|order|..] == [];
      while true
        invariant 0 < |rfeeds| <= |order| && rfeeds == order[..|rfeeds|]
        invariant Honest() && log == old(log) + Fires(order[|rfeeds|..], revents)
        decreases |rfeeds|
      {
        ghost var n := |rfeeds| - 1;
        var w := rfeeds[|rfeeds| - 1];
        rfeeds := rfeeds[..|rfeeds| - 1];
        assert order[n..][1..] == order[n + 1..] && order[n] == w;
        FeedEvent(w, revents);
        if rfeeds == [] {
          break;
        }
      }
    }

    /** Reschedules or stops the root, and collects it. */
    method ReifyNext(ghost ws: set<Watcher>, ghost at0: map<Watcher, real>, ghost base: seq<Event>)
      requires Valid() && timercnt > 0 && timers[HEAP0].at < mnNow && timerSet <= ws <= known
      requires Reified(rfeeds, at0, Times(ws), timerSet, Repeats(ws), mnNow) && log == base + Stops(rfeeds)
      modifies `pendings, `log, `rfeeds, `timercnt, `timerSet, `activecnt, timers,
        timerSet`active, timerSet`at, timerSet`pending
      ensures Valid() && timerSet <= old(timerSet)
      ensures Reified(rfeeds, at0, Times(ws), timerSet, Repeats(ws), mnNow) && log == base + Stops(rfeeds)
      ensures rfeeds != [] && rfeeds[..|rfeeds| - 1] == old(rfeeds)
      ensures rfeeds[|rfeeds| - 1] in old(timerSet) && rfeeds[|rfeeds| - 1] !in old(rfeeds)
    {
      hide Honest, HeapValid, Reified, Times, Repeats, NextAt, Stops;
      ghost var at1, active, order := Times(ws), timerSet, rfeeds;
      TimesOf(ws);
      var w := ReifyRoot();
      TimesOf(ws);
      TimesChange(ws, at1, w);
      ReifiedStep(order, at0, at1, active, Repeats(ws), mnNow, w);
      StopsMore(order, w);
      rfeeds := rfeeds + [w];
      assert rfeeds[..|order|] == order;
    }

    /** The loop of timers_reify: until the root is not expired. */
    method ReifyLoop()
      requires Valid() && rfeeds == [] && timercnt > 0 && timers[HEAP0].at < mnNow
      modifies `pendings, `log, `rfeeds, `timercnt, `timerSet, `activecnt, timers,
        timerSet`active, timerSet`at, timerSet`pending
      ensures Valid() && rfeeds != [] && log == old(log) + Stops(rfeeds)
      ensures Reified(rfeeds, old(Times(timerSet)), Times(old(timerSet)), timerSet, Repeats(old(timerSet)), mnNow)
      ensures Rescheduled(old(timerSet), old(Times(timerSet)), timerSet, mnNow) && timerSet <= old(timerSet)
      ensures forall w | w in timerSet :: w.at >= mnNow
      ensures forall w | w in old(timerSet) && old(w.at) < mnNow :: w in rfeeds
      ensures forall w | w in rfeeds :: w in old(timerSet)
    {
      hide Honest, Placed, Ordered, Cached, Reified, Times, Repeats;
      ghost var ws := timerSet;
      ghost var at0 := Times(ws);
      TimesOf(ws);
      ReifiedNone(at0, Repeats(ws), mnNow);
      ghost var left := ws;
      while true
        invariant Valid() && timercnt > 0 && timers[HEAP0].at < mnNow && timerSet <= ws
        invariant Reified(rfeeds, at0, Times(ws), timerSet, Repeats(ws), mnNow) && log == old(log) + Stops(rfeeds)
        invariant forall w | w in ws && w !in rfeeds :: w in left
        decreases left
      {
        ReifyNext(ws, at0, old(log));
        left := left - {rfeeds[|rfeeds| - 1]};
        if timercnt == 0 || timers[HEAP0].at >= mnNow {
          break;
        }
      }
      NoneExpired(timers, timercnt, timerSet, mnNow);
      ReifiedTimes(ws, rfeeds, at0, timerSet, mnNow);
    }

    /**
     * Feeds every timer that has expired, each once, and leaves none expired: the one-shot timers
     * stopped, the others due next at their interval or now. order lists them as they expired.
     */
    method TimersReify() returns (ghost order: seq<Watcher>)
      requires Valid() && rfeeds == []
      modifies `pendings, `pendingpri, `log, `rfeeds, `timercnt, `timerSet, `activecnt, timers,
        timerSet`active, timerSet`at, timerSet`pending
      ensures Valid() && rfeeds == [] && log == old(log) + Stops(order) + Fires(order, EV_TIMER)
      ensures Reified(order, old(Times(timerSet)), Times(old(timerSet)), timerSet, Repeats(old(timerSet)), mnNow)
      ensures Rescheduled(old(timerSet), old(Times(timerSet)), timerSet, mnNow) && timerSet <= old(timerSet)
      ensures forall w | w in timerSet :: w.at >= mnNow
      ensures forall w | w in old(timerSet) && old(w.at) < mnNow :: w in order
    {
      hide Honest, Placed, Ordered, Cached, Reified, Times, Repeats, Rescheduled;
      order := [];
      if timercnt > 0 && timers[HEAP0].at < mnNow {
        ReifyLoop();
        order := rfeeds;
        FeedReverseDone(EV_TIMER);
      } else {
        NothingToReify();
      }
    }

    lemma NothingToReify()
      requires HeapValid(timers, timercnt, timerSet) && (timercnt == 0 || timers[HEAP0].at >= mnNow)
      ensures Reified([], Times(timerSet), Times(timerSet), timerSet, Repeats(timerSet), mnNow)
      ensures Rescheduled(timerSet, Times(timerSet), timerSet, mnNow) && forall w | w in timerSet :: w.at >= mnNow
    {
      hide Reified;
      TimesOf(timerSet);
      NoneExpired(timers, timercnt, timerSet, mnNow);
      ReifiedNone(Times(timerSet), Repeats(timerSet), mnNow);
      ReifiedTimes(timerSet, [], Times(timerSet), timerSet, mnNow);
    }

    /**
     * The timers in iterations of ev_run whose callbacks leave them alone: the time is updated, and
     * what has expired is rescheduled or stopped.
     */
    method Iterate(nows: seq<real>)
      requires Valid() && rfeeds == []
      modifies `pendings, `pendingpri, `log, `rfeeds, `timercnt, `timerSet, `activecnt, `mnNow, timers,
        timerSet`active, timerSet`at, timerSet`pending
      ensures Valid() && rfeeds == []
      ensures forall w | w in old(timerSet) && w.repeats > 0.0 ::
        w in timerSet && w.at == AtAfter(old(w.at), w.repeats, nows)
    {
      hide Honest, TimersOk, AtAfter, Reified, Rescheduled, Times;
      ghost var ws, at0 := timerSet, Times(timerSet);
      TimesOf(ws);
      NoMoments(ws);
      assert nows[..0] == [];
      for i := 0 to |nows|
        invariant Valid() && rfeeds == [] && timerSet <= ws
        invariant OnSchedule(ws, at0, timerSet, nows[..i])
      {
        mnNow := nows[i];
        ghost var at1, active := Times(timerSet), timerSet;
        TimesOf(active);
        ghost var order := TimersReify();
        ScheduledNext(ws, at0, timerSet, mnNow, nows[..i], at1, active);
        assert nows[..i + 1] == nows[..i] + [nows[i]];
      }
      assert nows[..|nows|] == nows;
    }

    // ---- Dispatch ----------------------------------------------------------------------------

    /** What a call asks of its watcher. */
    ghost predicate Legal(c: Call)
      reads this`known, known`priority, known`repeats
    {
      && c.w in known && InRange(c.w.priority)
      && (c.StartTimer? || c.StopTimer? || c.Again? ==> c.w.isTimer && c.w.repeats >= 0.0)
    }

    lemma HonestLengths()
      requires Honest()
      ensures SameLengths(pendings, pendings) && Proper(log) && IsPrefix(log, log)
      ensures EmptyFrom(NUMPRI)
    {
    }

    /** The state after some of a callback's calls: begun with the given history and queues, it made these entries. */
    ghost predicate Served(log0: seq<Event>, made: seq<Event>, before: seq<seq<Pending>>, pri: nat)
      reads this, timers, known
    {
      Valid() && log == log0 + made && NothingNew(before, pri, pendings, pendingpri)
    }

    lemma ServedMore(log0: seq<Event>, made: seq<Event>, before: seq<seq<Pending>>, pri: nat,
                     log1: seq<Event>, es: seq<Event>, between: seq<seq<Pending>>, pri1: nat)
      requires log1 == log0 + made && NothingNew(before, pri, between, pri1)
      requires Served(log1, es, between, pri1)
      ensures Served(log0, made + es, before, pri)
    {
      hide Valid;
    }

    lemma ServedNone()
      requires Valid()
      ensures Served(log, [], pendings, pendingpri) && Made([], []) && Concat([]) == []
    {
      hide TimersOk;
      HonestLengths();
    }

    method Perform(c: Call) returns (ghost made: seq<Event>)
      requires Valid() && Legal(c)
      modifies `pendings, `pendingpri, `log, `timers, `timercnt, `timerSet, `activecnt, timers,
        known`pending, known`active, known`at, known`priority
      ensures Served(old(log), made, old(pendings), old(pendingpri)) && EntriesOf(c, made)
      ensures timers == old(timers) || fresh(timers)
      ensures forall w | w in known && InRange(old(w.priority)) :: w.priority == old(w.priority)
    {
      hide Honest, TimersOk;
      HonestLengths();
      match c
      case Feed(w, mask) =>
        FeedEvent(w, mask);
        made := [Event.Fed(w, mask, w.priority)];
      case Clear(w) =>
        var _ := ClearPending(w);
        made := [Cleared(w)];
      case _ => made := PerformTimer(c);
    }

    method PerformTimer(c: Call) returns (ghost made: seq<Event>)
      requires Valid() && Legal(c) && (c.StartTimer? || c.StopTimer? || c.Again?)
      modifies `pendings, `log, `timers, `timercnt, `timerSet, `activecnt, timers,
        c.w`pending, known`active, c.w`at, c.w`priority
      ensures Valid() && log == old(log) + made && EntriesOf(c, made) && SameLengths(old(pendings), pendings)
      ensures timers == old(timers) || fresh(timers)
      ensures c.w.priority == old(c.w.priority)
    {
      TimersAreKnown();
      HonestLengths();
      hide Honest, TimersOk, SameLengths;
      match c
      case StartTimer(w) =>
        TimerStart(w);
        made := [];
      case StopTimer(w) =>
        TimerStop(w);
        made := [Cleared(w)];
      case Again(w) =>
        made := if w.active != 0 && w.repeats == 0.0 then [Cleared(w), Cleared(w)] else [Cleared(w)];
        TimerAgain(w);
    }

    lemma TimersAreKnown()
      requires TimersOk()
      ensures timerSet <= known
    {
    }

    /** A callback: its calls, one after the other. */
    method Callback(calls: seq<Call>) returns (ghost parts: seq<seq<Event>>)
      requires Valid() && forall c | c in calls :: Legal(c)
      modifies `pendings, `pendingpri, `log, `timers, `timercnt, `timerSet, `activecnt, timers,
        known`pending, known`active, known`at, known`priority
      ensures Served(old(log), Concat(parts), old(pendings), old(pendingpri)) && Made(calls, parts)
      ensures timers == old(timers) || fresh(timers)
      ensures forall w | w in known && InRange(old(w.priority)) :: w.priority == old(w.priority)
    {
      ServedNone();
      hide Made, Concat, EntriesOf, Valid, NothingNew;
      parts := [];
      assert calls[..0] == [];
      for i := 0 to |calls|
        invariant Served(old(log), Concat(parts), old(pendings), old(pendingpri)) && Made(calls[..i], parts)
        invariant timers == old(timers) || fresh(timers)
        invariant forall w | w in known && InRange(old(w.priority)) :: w.priority == old(w.priority)
      {
        assert old(Legal(calls[i]));
        ghost var log1, between, pri1 := log, pendings, pendingpri;
        ghost var es := Perform(calls[i]);
        PartAdded(calls, i, parts, es);
        ServedMore(old(log), Concat(parts), old(pendings), old(pendingpri), log1, es, between, pri1);
        parts := parts + [es];
      }
      assert calls[..|calls|] == calls;
    }

    ghost predicate EmptyFrom(p: int)
      reads this`pendings
    {
      |pendings| == NUMPRI && forall r | p <= r < NUMPRI && 0 <= r :: pendings[r] == []
    }

    /** Takes the top slot off queue p and notes its invocation. */
    method TakeTop(p: nat) returns (top: Pending)
      requires Honest() && p < NUMPRI && EmptyFrom(p + 1) && pendings[p] != []
      modifies `pendings, `log, known`pending, pendingW`pending
      ensures Honest() && EmptyFrom(p + 1) && top == old(pendings[p][|pendings[p]| - 1])
      ensures pendings[p] == old(pendings[p])[..|old(pendings[p])| - 1]
      ensures log == old(log) + if top.w == pendingW then [] else [Invoked(top.w, top.events, top.w.priority)]
    {
      hide Q, Agrees, Ok, Pop, SlotNumbers, Priorities;
      ghost var q := Q();
      QIs();
      PopAgrees(q, log, p);
      PopIs(q, p);
      var n := |pendings[p]| - 1;
      top := pendings[p][n];
      if top.w != pendingW {
        QAt(top.w);
      }
      pendings := pendings[p := pendings[p][..n]];
      if top.w != pendingW {
        SetPending(top.w, 0);
      } else {
        top.w.pending := 0;
      }
      QIs();
      assert Q() == Pop(q, p);
      log := log + Invocation(q, top);
    }

    lemma QIs()
      ensures Q() == Queues(pendings, SlotNumbers(), Priorities(), pendingW)
      ensures Q().slot.Keys == known
    {
    }

    /** Priorities in range do not change. */
    ghost predicate Kept(pri0: map<Watcher, int>)
      reads pri0.Keys`priority
    {
      forall w | w in pri0 && InRange(pri0[w]) :: w.priority == pri0[w]
    }

    /** What a callback may assume: so many turns have been taken since the history was log0. */
    ghost predicate Underway(left: seq<seq<Call>>, script: seq<seq<Call>>, turns: seq<Turn>, log0: seq<Event>,
                             pri0: map<Watcher, int>)
      reads this`pendings, this`known, this`log, this`timers, this`timercnt, this`timerSet, this`activecnt,
        timers, known
    {
      && Valid() && pri0.Keys == known && Kept(pri0) && Told(left, script, turns, log0, log)
      && forall calls, c | calls in left && c in calls :: Legal(c)
    }

    /** Takes the top of queue p; the callback of a watcher makes the next calls of the script. */
    method InvokeTop(p: nat, left: seq<seq<Call>>, ghost script: seq<seq<Call>>, ghost turns: seq<Turn>,
                     ghost log0: seq<Event>, ghost pri0: map<Watcher, int>)
      returns (rest: seq<seq<Call>>, ghost more: seq<Turn>)
      requires Underway(left, script, turns, log0, pri0)
      requires p < NUMPRI && pendingpri == p && EmptyFrom(p + 1) && pendings[p] != []
      modifies `pendings, `pendingpri, `log, `timers, `timercnt, `timerSet, `activecnt, timers,
        known`pending, known`active, known`at, known`priority, pendingW`pending
      ensures Underway(rest, script, more, log0, pri0) && pendingpri < NUMPRI && EmptyFrom(pendingpri + 1)
      ensures timers == old(timers) || fresh(timers)
      ensures |rest| < |left| || (rest == left && pendingpri == p && |pendings[p]| < |old(pendings)[p]|)
    {
      hide Honest, TimersOk, CallsOf, Made, NothingNew, Concat, InRange, Told;
      rest, more := left, turns;
      ghost var log1 := log;
      var top := TakeTop(p);
      if top.w != pendingW {
        ghost var pri, made: seq<seq<Event>> := top.w.priority, [];
        NoTurns([]);
        if left != [] {
          assert left[0] in left;
          ghost var between := pendings;
          made := Callback(left[0]);
          rest := left[1..];
          HonestLengths();
          StillEmpty(p, between);
        }
        ghost var turn := Turn(Invoked(top.w, top.events, pri), made);
        assert log == log1 + [turn.invoked] + Concat(made);
        ToldMore(left, script, turns, log0, log1, turn);
        more := turns + [turn];
      } else {
        assert log == log1;
      }
    }

    lemma StillEmpty(p: nat, between: seq<seq<Pending>>)
      requires p < NUMPRI && |between| == NUMPRI && EmptyFrom(NUMPRI) && NothingNew(between, p, pendings, pendingpri)
      requires forall r | p < r < NUMPRI :: between[r] == []
      ensures pendingpri < NUMPRI && EmptyFrom(pendingpri + 1)
    {
    }

    /** The inner loop: down the queue at pendingpri, which a callback may raise. */
    method InvokeLevel(left: seq<seq<Call>>, ghost script: seq<seq<Call>>, ghost turns: seq<Turn>,
                       ghost log0: seq<Event>, ghost pri0: map<Watcher, int>)
      returns (rest: seq<seq<Call>>, ghost more: seq<Turn>)
      requires Underway(left, script, turns, log0, pri0) && pendingpri < NUMPRI && EmptyFrom(pendingpri + 1)
      modifies `pendings, `pendingpri, `log, `timers, `timercnt, `timerSet, `activecnt, timers,
        known`pending, known`active, known`at, known`priority, pendingW`pending
      ensures Underway(rest, script, more, log0, pri0) && pendingpri < NUMPRI && EmptyFrom(pendingpri)
      ensures timers == old(timers) || fresh(timers)
      ensures |rest| < |left| || (rest == left && pendingpri == old(pendingpri))
    {
      hide Underway;
      rest, more := left, turns;
      while pendings[pendingpri] != []
        invariant Underway(rest, script, more, log0, pri0) && pendingpri < NUMPRI && EmptyFrom(pendingpri + 1)
        invariant |rest| < |left| || (rest == left && pendingpri == old(pendingpri))
        invariant timers == old(timers) || fresh(timers)
        decreases |rest|, |pendings[pendingpri]|
      {
        rest, more := InvokeTop(pendingpri, rest, script, more, log0, pri0);
      }
    }

    /**
     * ev_invoke_pending. The callbacks, in the order of their invocation, make the calls of script,
     * and those after its end make none; nothing else goes into the history. Whatever they feed,
     * each invocation takes what is due to the watcher of highest priority at that moment, and on
     * return nothing is due.
     */
    method InvokePending(script: seq<seq<Call>>) returns (ghost turns: seq<Turn>)
      requires Valid() && forall calls, c | calls in script && c in calls :: Legal(c)
      modifies `pendings, `pendingpri, `log, `timers, `timercnt, `timerSet, `activecnt, timers,
        known`pending, known`active, known`at, known`priority, pendingW`pending
      ensures Valid() && Proper(log) && DueOf(log) == map[] && EmptyFrom(0)
      ensures log == old(log) + Flat(turns) && Follows(turns, script)
      ensures Kept(old(Priorities())) && (timers == old(timers) || fresh(timers))
    {
      hide Underway, EmptyFrom, Valid, Proper, DueOf, Kept, Priorities, Flat, Follows;
      StartsUnderway(script);
      ghost var log0, pri0 := log, Priorities();
      var left := script;
      turns := [];
      pendingpri := NUMPRI;
      while pendingpri != 0
        invariant Underway(left, script, turns, log0, pri0) && pendingpri <= NUMPRI && EmptyFrom(pendingpri)
        invariant timers == old(timers) || fresh(timers)
        decreases |left|, pendingpri
      {
        pendingpri := pendingpri - 1;
        left, turns := InvokeLevel(left, script, turns, log0, pri0);
      }
      UnderwayIs(left, script, turns, log0, pri0);
      AllDone();
    }

    lemma StartsUnderway(script: seq<seq<Call>>)
      requires Valid() && forall calls, c | calls in script && c in calls :: Legal(c)
      ensures Underway(script, script, [], log, Priorities()) && EmptyFrom(NUMPRI)
    {
      hide Agrees, TimersOk;
      HonestLengths();
      NoTurns(script);
    }

    lemma UnderwayIs(left: seq<seq<Call>>, script: seq<seq<Call>>, turns: seq<Turn>, log0: seq<Event>,
                     pri0: map<Watcher, int>)
      requires Underway(left, script, turns, log0, pri0)
      ensures Valid() && Honest() && Kept(pri0) && log == log0 + Flat(turns) && Follows(turns, script)
    {
    }

    lemma AllDone()
      requires Honest() && EmptyFrom(0)
      ensures Proper(log) && DueOf(log) == map[]
    {
      EmptyMeansNothingDue(Q(), log);
    }

    /**
     * The end of a loop iteration in which only timers are due: the expired timers are fed and all
     * that is pending is invoked. If no active timer was pending, then of two timers of the same
     * priority the one that expired first is answered first, whatever the callbacks do.
     */
    method RunTimers(script: seq<seq<Call>>)
      returns (ghost order: seq<Watcher>, ghost base: nat, ghost turns: seq<Turn>)
      requires Valid() && rfeeds == [] && forall calls, c | calls in script && c in calls :: Legal(c)
      requires forall w | w in timerSet :: w.pending == 0
      modifies `pendings, `pendingpri, `log, `rfeeds, `timers, `timercnt, `timerSet, `activecnt, timers,
        known`pending, known`active, known`at, known`priority, pendingW`pending
      ensures Valid() && Proper(log) && DueOf(log) == map[]
      ensures ExpiredIn(order, old(Times(timerSet)), mnNow) && InExpiryOrder(log, base, order)
      ensures base + |order| <= |log| && log[..base] == old(log) + Stops(order)
      ensures log[base + |order|..] == Flat(turns) && Follows(turns, script)
    {
      hide Stops, Fires, ExpiredIn, InExpiryOrder, Distinct, AllFired, Honest, TimersOk, Proper, DueOf, Follows,
           Flat, Legal;
      TimersAreKnown();
      ghost var log0 := log;
      order := ExpireTimers();
      base := |log0 + Stops(order)|;
      ghost var fired, stops, fires := log, log0 + Stops(order), Fires(order, EV_TIMER);
      turns := InvokePending(script);
      assert log0 + Stops(order) == stops;
      Pieces(stops, fires, Flat(turns), log);
      InOrder(fired, log, base, order);
    }

    /** The expired timers are fed; each is put on its queue. */
    method ExpireTimers() returns (ghost order: seq<Watcher>)
      requires Valid() && rfeeds == [] && forall w | w in timerSet :: w.pending == 0
      modifies `pendings, `pendingpri, `log, `rfeeds, `timercnt, `timerSet, `activecnt, timers,
        timerSet`active, timerSet`at, timerSet`pending
      ensures Valid() && rfeeds == [] && log == old(log) + Stops(order) + Fires(order, EV_TIMER)
      ensures ExpiredIn(order, old(Times(timerSet)), mnNow) && Distinct(order)
      ensures AllFired(log, |old(log) + Stops(order)|, order) && |Fires(order, EV_TIMER)| == |order|
    {
      hide Reified, Stops, Fires, ExpiredIn, Times, Repeats, Distinct, Agrees, HeapValid, AllFired, DueOf;
      ghost var log0, ws, at0 := log, timerSet, Times(timerSet);
      TimersAreKnown();
      TimesOf(ws);
      NotDue(ws);
      order := TimersReify();
      TimesOf(ws);
      AllExpired(order, at0, Times(ws), timerSet, Repeats(ws), mnNow);
      FiringsQueue(log0, order, log);
      AllFires(order);
    }

    lemma NotDue(ws: set<Watcher>)
      requires Honest() && ws <= known && forall w | w in ws :: w.pending == 0
      ensures forall w | w in ws :: w !in DueOf(log)
    {
      forall w | w in ws ensures w !in DueOf(log) {
        assert Shown(Q(), DueOf(log), w);
      }
    }

    // ---- Whole runs --------------------------------------------------------------------------

    /** A watcher that ev_init has prepared may be used with the loop. */
    ghost method Adopt(w: Watcher)
      requires Valid() && w !in known && w != pendingW && w.active == 0 && w.pending == 0
      modifies `known
      ensures Valid() && known == old(known) + {w}
    {
      ghost var q := Q();
      QIs();
      AdoptAgrees(q, log, w, w.priority);
      hide Agrees, HeapValid, Q;
      known := known + {w};
      QIs();
      assert SlotNumbers() == q.slot[w := 0];
      assert Priorities() == q.pri[w := w.priority];
    }

    /** ev_timer_set, which is allowed for a timer that is not active. */
    method SetTimer(w: Watcher, after: real, repeats: real)
      requires Valid() && w in known && w.isTimer && repeats >= 0.0
      modifies w`at, w`repeats
      ensures Valid()
      ensures if w.active == 0 then w.at == after && w.repeats == repeats
        else w.at == old(w.at) && w.repeats == old(w.repeats)
    {
      hide Honest;
      if w.active == 0 {
        w.at, w.repeats := after, repeats;
      }
    }

    /** ev_set_priority, which is allowed for a watcher that is neither active nor pending. */
    method SetPriority(w: Watcher, priority: int)
      requires Valid() && w in known && InRange(priority)
      modifies w`priority
      ensures Valid()
      ensures w.priority == if w.active == 0 && w.pending == 0 then priority else old(w.priority)
    {
      if w.active == 0 && w.pending == 0 {
        ghost var q := Q();
        PriorityAgrees(q, log, w, priority);
        hide Agrees, Ok, SlotNumbers, HeapValid;
        w.priority := priority;
        assert Q() == q.(pri := q.pri[w := w.priority]);
      }
    }

    /** The priorities are in range, and so are the intervals of timers. */
    ghost predicate Tame(ws: set<Watcher>)
      reads ws`priority, ws`repeats
    {
      forall w | w in ws :: InRange(w.priority) && (w.isTimer ==> w.repeats >= 0.0)
    }

    /** ev_init has prepared these, and nothing has been done with them. */
    ghost predicate Prepared(ws: set<Watcher>)
      reads ws`active, ws`pending
    {
      forall w | w in ws :: w != pendingW && w.active == 0 && w.pending == 0
    }

    lemma TameCall(c: Call)
      requires CallIn(c, known) && Tame(known)
      ensures Legal(c)
    {
    }

    method TakeStep(step: Step, ghost others: set<Watcher>) returns (ghost made: Part)
      requires Valid() && rfeeds == [] && StepIn(step, known) && Tame(known)
      requires others !! known && Tame(others) && Prepared(others)
      requires step.Enlist? ==> step.w in known || step.w in others
      modifies `pendings, `pendingpri, `log, `rfeeds, `timers, `timercnt, `timerSet, `activecnt, `mnNow, `known, timers,
        known`pending, known`active, known`at, known`priority, known`repeats, pendingW`pending
      ensures Valid() && rfeeds == [] && (timers == old(timers) || fresh(timers))
      ensures known == old(known) + EnlistedBy(step) && Tame(known) && Tame(others) && Prepared(others)
      ensures log == old(log) + EntriesIn(made) && StepMakes(step, made)
      ensures mnNow == if step.Tick? then step.now else old(mnNow)
    {
      hide Honest, TimersOk, Follows, StopsThenFeeds, EntriesOf;
      TimersAreKnown();
      made := Plain([]);
      match step
      case Do(c) =>
        TameCall(c);
        ghost var es := DoCall(c);
        made := Plain(es);
      case Expire =>
        ghost var es := ExpireStep();
        made := Plain(es);
      case Tick(now) => mnNow := now;
      case Jump(adjust) => TimersReschedule(adjust);
      case Dispatch(script) =>
        ghost var turns := DispatchStep(script);
        made := Turns(turns);
      case Set(w, after, repeats) => SetTimer(w, after, repeats);
      case Prioritise(w, priority) => SetPriority(w, priority);
      case Enlist(w) =>
        if w !in known {
          Adopt(w);
        }
    }

    method DispatchStep(script: seq<seq<Call>>) returns (ghost turns: seq<Turn>)
      requires Valid() && Tame(known) && forall calls, c | calls in script && c in calls :: CallIn(c, known)
      modifies `pendings, `pendingpri, `log, `timers, `timercnt, `timerSet, `activecnt, timers,
        known`pending, known`active, known`at, known`priority, pendingW`pending
      ensures Valid() && Tame(known) && (timers == old(timers) || fresh(timers))
      ensures log == old(log) + Flat(turns) && Follows(turns, script)
    {
      forall calls, c | calls in script && c in calls ensures Legal(c) {
        TameCall(c);
      }
      ghost var pri0 := Priorities();
      hide Honest, TimersOk, Follows;
      turns := InvokePending(script);
      KeptIsTame(pri0);
    }

    lemma KeptIsTame(pri0: map<Watcher, int>)
      requires pri0.Keys == known && Kept(pri0)
      requires forall w | w in known :: InRange(pri0[w]) && (w.isTimer ==> w.repeats >= 0.0)
      ensures Tame(known)
    {
    }

    method DoCall(c: Call) returns (ghost made: seq<Event>)
      requires Valid() && Legal(c)
      modifies `pendings, `pendingpri, `log, `timers, `timercnt, `timerSet, `activecnt, timers,
        known`pending, known`active, known`at, known`priority
      ensures Valid() && (timers == old(timers) || fresh(timers)) && Kept(old(Priorities()))
      ensures log == old(log) + made && EntriesOf(c, made)
    {
      hide Honest, TimersOk;
      made := Perform(c);
    }

    method ExpireStep() returns (ghost made: seq<Event>)
      requires Valid() && rfeeds == []
      modifies `pendings, `pendingpri, `log, `rfeeds, `timercnt, `timerSet, `activecnt, timers,
        timerSet`active, timerSet`at, timerSet`pending
      ensures Valid() && rfeeds == [] && log == old(log) + made && Expiring(made)
    {
      hide Honest, TimersOk, Reified;
      ghost var order := TimersReify();
      made := Stops(order) + Fires(order, EV_TIMER);
      StopsThenFires(order);
    }

    /**
     * Every run: after any sequence of timer calls, feedings, expiries, time changes, dispatches,
     * new watchers, and settings of inactive timers and priorities, the heap and the queues are as
     * verify_heap and verify_watcher assert, and the history is proper and consists of the entries
     * of the steps, in order.
     */
    method Run(steps: seq<Step>) returns (ghost trail: seq<Part>)
      requires Valid() && rfeeds == [] && LegalRun(steps, known)
      requires Tame(known + Enlisted(steps)) && Prepared(Enlisted(steps) - known)
      modifies `pendings, `pendingpri, `log, `rfeeds, `timers, `timercnt, `timerSet, `activecnt, `mnNow, `known, timers,
        (known + Enlisted(steps))`pending, (known + Enlisted(steps))`active, (known + Enlisted(steps))`at,
        (known + Enlisted(steps))`priority, (known + Enlisted(steps))`repeats, pendingW`pending
      ensures Valid() && rfeeds == [] && Proper(log) && known == old(known) + Enlisted(steps) && Tame(known)
      ensures log == old(log) + Whole(trail) && Trail(steps, trail) && activecnt == |timerSet|
    {
      hide Agrees, HeapValid, StepMakes, EntriesIn, StepIn, Tame, Prepared, Enlisted;
      trail := [];
      assert steps[..0] == [];
      EnlistedNone();
      StillTame(known, known, steps);
      for i := 0 to |steps|
        invariant Valid() && rfeeds == [] && (timers == old(timers) || fresh(timers))
        invariant known == old(known) + Enlisted(steps[..i]) && Tame(known)
        invariant Tame(Enlisted(steps) - known) && Prepared(Enlisted(steps) - known)
        invariant log == old(log) + Whole(trail) && Trail(steps[..i], trail)
      {
        hide Valid;
        LegalNext(steps, old(known), i);
        WillEnlist(steps, i);
        EnlistedPrefix(steps, i);
        ghost var toEnlist := Enlisted(steps) - known;
        ghost var made := TakeStep(steps[i], toEnlist);
        FewerToEnlist(toEnlist, Enlisted(steps) - known);
        StepAdded(steps, i, trail, made);
        trail := trail + [made];
      }
      assert steps[..|steps|] == steps;
      HonestLengths();
      ActiveAreCounted();
    }

    /** The count of active watchers, which keeps ev_run going, is that of the timers that are active. */
    lemma ActiveAreCounted()
      requires TimersOk()
      ensures activecnt == |timerSet|
    {
      PlacedCount(timers[..], timercnt, timerSet);
    }

    lemma StillTame(before: set<Watcher>, now: set<Watcher>, steps: seq<Step>)
      requires Tame(before + Enlisted(steps)) && now <= before + Enlisted(steps)
      ensures Tame(now) && Tame(Enlisted(steps) - now)
    {
    }

    lemma FewerToEnlist(before: set<Watcher>, now: set<Watcher>)
      requires now <= before && Tame(before) && Prepared(before)
      ensures Tame(now) && Prepared(now)
    {
    }
  }

  /** The call is about a known watcher, and about a timer where it must be. */
  predicate CallIn(c: Call, known: set<Watcher>) {
    c.w in known && (c.StartTimer? || c.StopTimer? || c.Again? ==> c.w.isTimer)
  }

  /** What the program and its callbacks may do in one step of a run. */
  ghost predicate StepIn(step: Step, known: set<Watcher>) {
    match step
    case Do(c) => CallIn(c, known)
    case Dispatch(script) => forall calls, c | calls in script && c in calls :: CallIn(c, known)
    case Set(w, _, repeats) => w in known && w.isTimer && repeats >= 0.0
    case Prioritise(w, priority) => w in known && InRange(priority)
    case _ => true
  }

  function EnlistedBy(step: Step): set<Watcher> {
    if step.Enlist? then {step.w} else {}
  }

  /** The watchers enlisted in the course of a run. */
  function Enlisted(steps: seq<Step>): set<Watcher> {
    if steps == [] then {} else Enlisted(steps[..|steps| - 1]) + EnlistedBy(steps[|steps| - 1])
  }

  /** Every step is about watchers that are known by then. */
  ghost predicate LegalRun(steps: seq<Step>, known: set<Watcher>) {
    forall i | 0 <= i < |steps| :: StepIn(steps[i], known + Enlisted(steps[..i]))
  }

  lemma EnlistedNone()
    ensures Enlisted([]) == {}
  {
  }

  lemma LegalNext(steps: seq<Step>, known: set<Watcher>, i: nat)
    requires LegalRun(steps, known) && i < |steps|
    ensures StepIn(steps[i], known + Enlisted(steps[..i]))
    ensures Enlisted(steps[..i + 1]) == Enlisted(steps[..i]) + EnlistedBy(steps[i])
  {
    assert steps[..i + 1][..i] == steps[..i];
  }

  lemma {:induction false} EnlistedPrefix(steps: seq<Step>, i: nat)
    requires i <= |steps|
    ensures Enlisted(steps[..i]) <= Enlisted(steps)
    decreases |steps|
  {
    if i < |steps| {
      EnlistedPrefix(steps[..|steps| - 1], i);
      assert steps[..|steps| - 1][..i] == steps[..i];
    } else {
      assert steps[..i] == steps;
    }
  }

  lemma {:induction false} WillEnlist(steps: seq<Step>, i: nat)
    requires i < |steps|
    ensures EnlistedBy(steps[i]) <= Enlisted(steps)
    decreases |steps|
  {
    if i < |steps| - 1 {
      WillEnlist(steps[..|steps| - 1], i);
    }
  }

  /** The turns taken so far follow the script, make up the history, and leave this of the script. */
  ghost predicate Told(left: seq<seq<Call>>, script: seq<seq<Call>>, turns: seq<Turn>, log0: seq<Event>,
                       log: seq<Event>) {
    log == log0 + Flat(turns) && Follows(turns, script) && left == Left(script, |turns|)
  }

  lemma ToldMore(left: seq<seq<Call>>, script: seq<seq<Call>>, turns: seq<Turn>, log0: seq<Event>, log: seq<Event>,
                 turn: Turn)
    requires Told(left, script, turns, log0, log) && turn.invoked.Invoked?
    requires Made(if left == [] then [] else left[0], turn.made)
    ensures Told(if left == [] then [] else left[1..], script, turns + [turn], log0,
                 log + [turn.invoked] + Concat(turn.made))
  {
    hide Follows, Flat, Left, CallsOf, Made;
    LeftNext(script, |turns|);
    TurnFollows(script, turns, turn);
    FlatMore(turns, turn);
  }

  lemma Pieces(a: seq<Event>, b: seq<Event>, c: seq<Event>, all: seq<Event>)
    requires all == a + b + c
    ensures all[..|a|] == a && all[|a| + |b|..] == c && a + b <= all
  {
  }

  /** Either something was fed, or no queue has grown. */
  predicate NothingNew(before: seq<seq<Pending>>, pri: nat, now: seq<seq<Pending>>, nowPri: nat) {
    nowPri == NUMPRI - 1 || (nowPri == pri && SameLengths(before, now))
  }

  /** What one step of a run makes. */
  ghost predicate StepMakes(step: Step, part: Part) {
    match step
    case Do(c) => part.Plain? && EntriesOf(c, part.es)
    case Expire => part.Plain? && Expiring(part.es)
    case Dispatch(script) => part.Turns? && Follows(part.turns, script)
    case _ => part == Plain([])
  }

  ghost predicate Trail(steps: seq<Step>, trail: seq<Part>) {
    |trail| == |steps| && forall i | 0 <= i < |steps| :: StepMakes(steps[i], trail[i])
  }

  lemma StepAdded(steps: seq<Step>, i: nat, trail: seq<Part>, part: Part)
    requires i < |steps| && Trail(steps[..i], trail) && StepMakes(steps[i], part)
    ensures Trail(steps[..i + 1], trail + [part]) && Whole(trail + [part]) == Whole(trail) + EntriesIn(part)
  {
    hide StepMakes;
    assert (trail + [part])[..|trail|] == trail;
    assert steps[..i + 1][..i] == steps[..i];
  }
}
