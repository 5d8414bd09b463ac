/** The pending queues as a value: their slots, and each watcher's slot number and priority. */
module PendingQueues {
  import opened TimerHeap
  import opened EventLog

  const MINPRI := -2
  const MAXPRI := 2
  const NUMPRI := MAXPRI - MINPRI + 1

  function AbsPri(priority: int): int { priority - MINPRI }

  predicate InRange(priority: int) { MINPRI <= priority <= MAXPRI }

  /** A slot of a pending queue. */
  datatype Pending = Pending(w: Watcher, events: Mask)

  /** slot gives each known watcher's pending field, pri its priority; dummy stands in cleared slots. */
  datatype Queues = Queues(
    slots: seq<seq<Pending>>, slot: map<Watcher, nat>, pri: map<Watcher, int>, dummy: Watcher)

  predicate SlotOk(q: Queues, w: Watcher, p: int, i: int) {
    w == q.dummy || (w in q.slot && w in q.pri && q.slot[w] == i + 1 && AbsPri(q.pri[w]) == p)
  }

  predicate OnQueue(q: Queues, w: Watcher)
    requires |q.slots| == NUMPRI && w in q.slot && w in q.pri && q.slot[w] > 0
  {
    && InRange(q.pri[w]) && q.slot[w] <= |q.slots[AbsPri(q.pri[w])]|
    && q.slots[AbsPri(q.pri[w])][q.slot[w] - 1].w == w
  }

  /** A watcher is pending exactly when its slot holds it; cleared slots hold the dummy watcher. */
  ghost predicate Ok(q: Queues) {
    && |q.slots| == NUMPRI && q.slot.Keys == q.pri.Keys && q.dummy !in q.slot
    && (forall p, i | 0 <= p < NUMPRI && 0 <= i < |q.slots[p]| :: SlotOk(q, q.slots[p][i].w, p, i))
    && (forall w | w in q.slot && q.slot[w] > 0 :: OnQueue(q, w))
  }

  predicate IsPending(q: Queues, w: Watcher) {
    w in q.slot && q.slot[w] > 0
  }

  function SlotOf(q: Queues, w: Watcher): (slot: Pending)
    requires Ok(q) && IsPending(q, w)
    ensures slot.w == w && InRange(q.pri[w]) && q.slot[w] <= |q.slots[AbsPri(q.pri[w])]|
  {
    assert OnQueue(q, w);
    q.slots[AbsPri(q.pri[w])][q.slot[w] - 1]
  }

  /** w is due exactly if it is pending, and then with the flags of its slot. */
  ghost predicate Shown(q: Queues, due: map<Watcher, Due>, w: Watcher)
    requires Ok(q)
  {
    if IsPending(q, w) then w in due && due[w].mask == SlotOf(q, w).events && due[w].pri == q.pri[w]
    else w !in due
  }

  /** What is due is what is pending. */
  ghost predicate Reflects(q: Queues, due: map<Watcher, Due>)
    requires Ok(q)
  {
    (forall w | w in due :: w in q.slot) && (forall w | w in q.slot :: Shown(q, due, w))
  }

  /** A queue is a stack: what was put there later is above. */
  ghost predicate Stacked(q: Queues, due: map<Watcher, Due>) {
    forall v, w | v in due && w in due && IsPending(q, v) && IsPending(q, w) && v in q.pri && w in q.pri
      && q.pri[v] == q.pri[w] && q.slot[v] < q.slot[w] :: due[v].since < due[w].since
  }

  function SetQueue(q: Queues, p: int, slots: seq<Pending>): Queues
    requires 0 <= p < |q.slots|
  {
    q.(slots := q.slots[p := slots])
  }

  // ---- The four changes ------------------------------------------------------------------------

  /** A watcher that is not pending goes on top of its queue. */
  function Push(q: Queues, w: Watcher, events: Mask): Queues
    requires Ok(q) && w in q.slot && InRange(q.pri[w])
  {
    var p := AbsPri(q.pri[w]);
    SetQueue(q, p, q.slots[p] + [Pending(w, events)]).(slot := q.slot[w := |q.slots[p]| + 1])
  }

  lemma PushOk(q: Queues, w: Watcher, events: Mask)
    requires Ok(q) && w in q.slot && InRange(q.pri[w]) && q.slot[w] == 0
    ensures Ok(Push(q, w, events)) && IsPending(Push(q, w, events), w)
  {
    var r := Push(q, w, events);
    forall p, i | 0 <= p < NUMPRI && 0 <= i < |r.slots[p]| ensures SlotOk(r, r.slots[p][i].w, p, i) {
      assert i < |q.slots[p]| ==> SlotOk(q, q.slots[p][i].w, p, i);
    }
  }

  /** The watchers already on the queues keep their slots, and w is on top. */
  lemma PushSlots(q: Queues, w: Watcher, events: Mask, v: Watcher)
    requires Ok(q) && w in q.slot && InRange(q.pri[w]) && q.slot[w] == 0
    requires v == w || IsPending(q, v)
    ensures Ok(Push(q, w, events)) && IsPending(Push(q, w, events), v)
    ensures SlotOf(Push(q, w, events), v) == if v == w then Pending(w, events) else SlotOf(q, v)
  {
    PushOk(q, w, events);
    if v != w {
      assert OnQueue(q, v);
    }
    hide Ok, SlotOk;
  }

  lemma PushReflects(q: Queues, w: Watcher, events: Mask, due: map<Watcher, Due>, n: nat)
    requires Ok(q) && w in q.slot && InRange(q.pri[w]) && q.slot[w] == 0 && Reflects(q, due)
    ensures w !in due && Ok(Push(q, w, events))
    ensures Reflects(Push(q, w, events), due[w := Due(events, q.pri[w], n)])
  {
    PushOk(q, w, events);
    assert Shown(q, due, w);
    forall v | v in q.slot
      ensures Shown(Push(q, w, events), due[w := Due(events, q.pri[w], n)], v)
    {
      assert Shown(q, due, v);
      hide Ok, SlotOf;
      if v == w || IsPending(q, v) {
        PushSlots(q, w, events, v);
      }
    }
    hide Ok, Shown;
  }

  lemma PushStacks(q: Queues, w: Watcher, events: Mask, due: map<Watcher, Due>, n: nat)
    requires Ok(q) && w in q.slot && InRange(q.pri[w]) && q.slot[w] == 0 && Stacked(q, due) && Past(due, n)
    ensures Stacked(Push(q, w, events), due[w := Due(events, q.pri[w], n)])
  {
    var p := AbsPri(q.pri[w]);
    forall v | v in q.slot && IsPending(q, v) && q.pri[v] == q.pri[w] ensures q.slot[v] <= |q.slots[p]| {
      assert OnQueue(q, v);
    }
    hide Ok, SlotOk, OnQueue;
  }

  /** A pending watcher's flags change. */
  function SetEvents(q: Queues, w: Watcher, events: Mask): Queues
    requires Ok(q) && IsPending(q, w)
  {
    var p := AbsPri(q.pri[w]);
    assert SlotOf(q, w).w == w;
    SetQueue(q, p, q.slots[p][q.slot[w] - 1 := Pending(w, events)])
  }

  lemma SetEventsOk(q: Queues, w: Watcher, events: Mask)
    requires Ok(q) && IsPending(q, w)
    ensures Ok(SetEvents(q, w, events))
  {
  }

  lemma SetEventsReflects(q: Queues, w: Watcher, events: Mask, due: map<Watcher, Due>)
    requires Ok(q) && IsPending(q, w) && Reflects(q, due)
    ensures Ok(SetEvents(q, w, events)) && w in due
    ensures Reflects(SetEvents(q, w, events), due[w := due[w].(mask := events)])
  {
    SetEventsOk(q, w, events);
    assert Shown(q, due, w);
    forall v | v in q.slot
      ensures Shown(SetEvents(q, w, events), due[w := due[w].(mask := events)], v)
    {
      assert Shown(q, due, v);
      assert IsPending(q, v) ==> SlotOf(q, v).w == v;
      hide Ok;
    }
    hide Ok, Shown;
  }

  lemma SetEventsStacks(q: Queues, w: Watcher, events: Mask, due: map<Watcher, Due>)
    requires Ok(q) && IsPending(q, w) && w in due && Stacked(q, due)
    ensures Stacked(SetEvents(q, w, events), due[w := due[w].(mask := events)])
  {
    hide Ok, SlotOk, OnQueue;
  }

  /** The dummy takes the place of a pending watcher. */
  function Drop(q: Queues, w: Watcher): Queues
    requires Ok(q) && IsPending(q, w)
  {
    var p := AbsPri(q.pri[w]);
    assert SlotOf(q, w).w == w;
    SetQueue(q, p, q.slots[p][q.slot[w] - 1 := Pending(q.dummy, SlotOf(q, w).events)]).(slot := q.slot[w := 0])
  }

  lemma DropIs(q: Queues, w: Watcher)
    requires Ok(q) && IsPending(q, w)
    ensures var p := AbsPri(q.pri[w]);
      && 0 <= p < |q.slots| && q.slot[w] <= |q.slots[p]|
      && Drop(q, w) == q.(slots := q.slots[p := q.slots[p][q.slot[w] - 1 := Pending(q.dummy, SlotOf(q, w).events)]],
                          slot := q.slot[w := 0])
  {
    assert SlotOf(q, w).w == w;
  }

  lemma DropOk(q: Queues, w: Watcher)
    requires Ok(q) && IsPending(q, w)
    ensures Ok(Drop(q, w))
  {
  }

  lemma DropReflects(q: Queues, w: Watcher, due: map<Watcher, Due>)
    requires Ok(q) && IsPending(q, w) && Reflects(q, due)
    ensures Ok(Drop(q, w)) && Reflects(Drop(q, w), due - {w})
  {
    DropOk(q, w);
    forall v | v in q.slot ensures Shown(Drop(q, w), due - {w}, v) {
      assert Shown(q, due, v);
      assert IsPending(q, v) ==> SlotOf(q, v).w == v;
      hide Ok;
    }
    hide Ok, Shown;
  }

  lemma DropStacks(q: Queues, w: Watcher, due: map<Watcher, Due>)
    requires Ok(q) && IsPending(q, w) && Stacked(q, due)
    ensures Stacked(Drop(q, w), due - {w})
  {
    hide Ok, SlotOk, OnQueue;
  }

  /** The top of a queue is taken off it. */
  function Pop(q: Queues, p: nat): Queues
    requires Ok(q) && p < NUMPRI && q.slots[p] != []
  {
    var top := q.slots[p][|q.slots[p]| - 1];
    var r := SetQueue(q, p, q.slots[p][..|q.slots[p]| - 1]);
    if top.w in q.slot then r.(slot := q.slot[top.w := 0]) else r
  }

  lemma PopIs(q: Queues, p: nat)
    requires Ok(q) && p < NUMPRI && q.slots[p] != []
    ensures var n := |q.slots[p]| - 1;
      var w := q.slots[p][n].w;
      && (w != q.dummy ==> w in q.slot)
      && (w == q.dummy ==> w !in q.slot)
      && Pop(q, p) ==
        q.(slots := q.slots[p := q.slots[p][..n]], slot := if w == q.dummy then q.slot else q.slot[w := 0])
  {
    assert SlotOk(q, q.slots[p][|q.slots[p]| - 1].w, p, |q.slots[p]| - 1);
  }

  lemma PopOk(q: Queues, p: nat)
    requires Ok(q) && p < NUMPRI && q.slots[p] != []
    ensures Ok(Pop(q, p))
  {
    assert SlotOk(q, q.slots[p][|q.slots[p]| - 1].w, p, |q.slots[p]| - 1);
  }

  /** The watchers left on the queues keep their slots. */
  lemma PopKeepsSlots(q: Queues, p: nat, v: Watcher)
    requires Ok(q) && p < NUMPRI && q.slots[p] != []
    requires IsPending(q, v) && v != q.slots[p][|q.slots[p]| - 1].w
    ensures Ok(Pop(q, p)) && IsPending(Pop(q, p), v) && SlotOf(Pop(q, p), v) == SlotOf(q, v)
  {
    PopOk(q, p);
    assert OnQueue(q, v) && SlotOf(q, v).w == v;
    assert q.pri[v] == p + MINPRI ==> q.slot[v] < |q.slots[p]|;
    hide Ok, SlotOk;
  }

  lemma PopReflects(q: Queues, p: nat, due: map<Watcher, Due>)
    requires Ok(q) && p < NUMPRI && q.slots[p] != [] && Reflects(q, due)
    ensures var top := q.slots[p][|q.slots[p]| - 1];
      Ok(Pop(q, p)) && Reflects(Pop(q, p), due - {top.w})
  {
    var top := q.slots[p][|q.slots[p]| - 1];
    PopOk(q, p);
    assert SlotOk(q, top.w, p, |q.slots[p]| - 1);
    forall v | v in q.slot ensures Shown(Pop(q, p), due - {top.w}, v) {
      assert Shown(q, due, v);
      hide Ok;
      if IsPending(q, v) && v != top.w {
        PopKeepsSlots(q, p, v);
      }
    }
    hide Ok, Shown;
  }

  lemma PopStacks(q: Queues, p: nat, due: map<Watcher, Due>)
    requires Ok(q) && p < NUMPRI && q.slots[p] != [] && Stacked(q, due)
    ensures Stacked(Pop(q, p), due - {q.slots[p][|q.slots[p]| - 1].w})
  {
    hide Ok, SlotOk, OnQueue;
  }

  /** The top of the highest queue that is not empty is what the history says must come next. */
  lemma TopIsRightful(q: Queues, p: nat, due: map<Watcher, Due>)
    requires Ok(q) && p < NUMPRI && q.slots[p] != [] && Reflects(q, due) && Stacked(q, due)
    requires forall r | p < r < NUMPRI :: q.slots[r] == []
    ensures var top := q.slots[p][|q.slots[p]| - 1];
      top.w != q.dummy ==> top.w in q.pri && Rightful(due, Invoked(top.w, top.events, q.pri[top.w]))
  {
    var n := |q.slots[p]|;
    var top := q.slots[p][n - 1];
    assert SlotOk(q, top.w, p, n - 1);
    if top.w != q.dummy {
      assert Shown(q, due, top.w);
      forall v | v in due
        ensures due[v].pri < q.pri[top.w] || (due[v].pri == q.pri[top.w] && due[v].since <= due[top.w].since)
      {
        assert Shown(q, due, v) && OnQueue(q, v);
        if q.pri[v] == q.pri[top.w] && q.slot[v] == n {
          assert v == top.w;
        }
      }
    }
  }

  // ---- Queues and history ----------------------------------------------------------------------

  /** The history so far is proper, and what it leaves due is what is on the queues, in that order. */
  ghost predicate Agrees(q: Queues, log: seq<Event>) {
    Ok(q) && Proper(log) && Reflects(q, DueOf(log)) && Stacked(q, DueOf(log))
  }

  /** What ev_feed_event does to the queues. */
  function Fed(q: Queues, w: Watcher, mask: Mask): Queues
    requires Ok(q) && w in q.slot && InRange(q.pri[w])
  {
    if IsPending(q, w) then SetEvents(q, w, Join(SlotOf(q, w).events, mask)) else Push(q, w, mask)
  }

  lemma FedAgrees(q: Queues, log: seq<Event>, w: Watcher, mask: Mask)
    requires Agrees(q, log) && w in q.slot && InRange(q.pri[w])
    ensures Ok(q) && Agrees(Fed(q, w, mask), log + [Event.Fed(w, mask, q.pri[w])])
  {
    var due := DueOf(log);
    Append(log, Event.Fed(w, mask, q.pri[w]));
    assert Shown(q, due, w);
    hide Join, Proper, DueOf, Stacked, Reflects, Ok;
    if IsPending(q, w) {
      var events := Join(SlotOf(q, w).events, mask);
      SetEventsReflects(q, w, events, due);
      SetEventsStacks(q, w, events, due);
    } else {
      DueIsPast(log);
      PushReflects(q, w, mask, due, |log|);
      PushStacks(q, w, mask, due, |log|);
    }
  }

  /** What clear_pending does to the queues. */
  function Unqueued(q: Queues, w: Watcher): Queues
    requires Ok(q)
  {
    if IsPending(q, w) then Drop(q, w) else q
  }

  predicate SameLengths(xs: seq<seq<Pending>>, ys: seq<seq<Pending>>) {
    |xs| == |ys| == NUMPRI && forall p | 0 <= p < NUMPRI :: |xs[p]| == |ys[p]|
  }

  lemma UnqueuedLengths(q: Queues, w: Watcher)
    requires Ok(q)
    ensures SameLengths(q.slots, Unqueued(q, w).slots)
  {
    if IsPending(q, w) {
      DropIs(q, w);
    }
  }

  lemma UnqueuedAgrees(q: Queues, log: seq<Event>, w: Watcher)
    requires Agrees(q, log) && w in q.slot
    ensures Ok(q) && Agrees(Unqueued(q, w), log + [Cleared(w)])
    ensures (if IsPending(q, w) then SlotOf(q, w).events else NOTHING)
      == if w in DueOf(log) then DueOf(log)[w].mask else NOTHING
  {
    var due := DueOf(log);
    Append(log, Cleared(w));
    assert Shown(q, due, w);
    hide Proper, DueOf, Stacked, Reflects, Ok;
    if IsPending(q, w) {
      DropReflects(q, w, due);
      DropStacks(q, w, due);
    } else {
      assert due - {w} == due;
    }
  }

  /** What the history gains when a slot is taken off: nothing for the dummy. */
  function Invocation(q: Queues, slot: Pending): seq<Event>
    requires slot.w == q.dummy || slot.w in q.pri
  {
    if slot.w == q.dummy then [] else [Invoked(slot.w, slot.events, q.pri[slot.w])]
  }

  lemma PopAgrees(q: Queues, log: seq<Event>, p: nat)
    requires Agrees(q, log) && p < NUMPRI && q.slots[p] != []
    requires forall r | p < r < NUMPRI :: q.slots[r] == []
    ensures var top := q.slots[p][|q.slots[p]| - 1];
      && Ok(q) && (top.w == q.dummy || top.w in q.pri)
      && Agrees(Pop(q, p), log + Invocation(q, top))
  {
    var due := DueOf(log);
    var top := q.slots[p][|q.slots[p]| - 1];
    TopIsRightful(q, p, due);
    PopReflects(q, p, due);
    PopStacks(q, p, due);
    if top.w == q.dummy {
      assert top.w !in due;
      assert due - {top.w} == due && log + [] == log;
    } else {
      Append(log, Invoked(top.w, top.events, q.pri[top.w]));
    }
    hide Proper, DueOf, Stacked, Reflects, Ok, Rightful;
  }

  /** A watcher new to the loop is not pending. */
  lemma AdoptAgrees(q: Queues, log: seq<Event>, w: Watcher, priority: int)
    requires Agrees(q, log) && w !in q.slot && w != q.dummy
    ensures Agrees(q.(slot := q.slot[w := 0], pri := q.pri[w := priority]), log)
  {
    hide DueOf, Proper;
    var r := q.(slot := q.slot[w := 0], pri := q.pri[w := priority]);
    assert w !in q.pri;
    AdoptOk(q, w, priority);
    forall v | v in r.slot ensures Shown(r, DueOf(log), v) {
      assert v != w ==> Shown(q, DueOf(log), v);
      hide Ok;
    }
    hide Ok, Shown;
  }

  lemma AdoptOk(q: Queues, w: Watcher, priority: int)
    requires Ok(q) && w !in q.slot && w != q.dummy
    ensures Ok(q.(slot := q.slot[w := 0], pri := q.pri[w := priority]))
  {
  }

  lemma PriorityOk(q: Queues, w: Watcher, priority: int)
    requires Ok(q) && w in q.slot && q.slot[w] == 0
    ensures Ok(q.(pri := q.pri[w := priority]))
  {
  }

  /** The priority of a watcher that is not pending may change. */
  lemma PriorityAgrees(q: Queues, log: seq<Event>, w: Watcher, priority: int)
    requires Agrees(q, log) && w in q.slot && q.slot[w] == 0
    ensures Agrees(q.(pri := q.pri[w := priority]), log)
  {
    hide DueOf, Proper;
    var r := q.(pri := q.pri[w := priority]);
    PriorityOk(q, w, priority);
    forall v | v in q.slot ensures Shown(r, DueOf(log), v) {
      assert Shown(q, DueOf(log), v);
      hide Ok;
    }
    hide Ok, Shown;
  }

  predicate AllEmpty(q: Queues) {
    forall p | 0 <= p < |q.slots| :: q.slots[p] == []
  }

  lemma PendingIsSomewhere(q: Queues, w: Watcher)
    requires Ok(q) && IsPending(q, w)
    ensures !AllEmpty(q)
  {
    assert OnQueue(q, w);
    assert q.slots[AbsPri(q.pri[w])] != [];
  }

  /** With every queue empty, nothing is due. */
  lemma EmptyMeansNothingDue(q: Queues, log: seq<Event>)
    requires Agrees(q, log)
    ensures AllEmpty(q) ==> DueOf(log) == map[]
  {
    forall w | w in q.slot ensures AllEmpty(q) ==> w !in DueOf(log) {
      assert Shown(q, DueOf(log), w);
      if IsPending(q, w) {
        PendingIsSomewhere(q, w);
      }
    }
  }
}
