/**
 * What each access to the shared state changes, item by item: what is watched, set, queued and owed,
 * and which senders are inside their call. Everything that an action is not about stays as it is.
 */
module Watching {
  import opened Wakeup

  predicate Once(xs: seq<nat>) {
    forall i, j | 0 <= i < j < |xs| :: xs[i] != xs[j]
  }

  /** Nothing is on a list twice, and what is about to be registered is not on its list yet. */
  predicate ListedOnce(s: State) {
    && Once(s.signals) && Once(s.asyncs)
    && (s.pc.Register? && s.pc.item.c.Asyncs? ==> s.pc.item.n !in s.asyncs)
  }

  /** The number is gone, the others are all still there, and none is there twice. */
  lemma Removed(xs: seq<nat>, w: nat, y: nat)
    requires Once(xs) && w in xs
    ensures y in SwapRemove(xs, w) <==> y in xs && y != w
    ensures Once(SwapRemove(xs, w))
  {
    var p, last, ys := Position(xs, w), xs[|xs| - 1], SwapRemove(xs, w);
    assert forall i | 0 <= i < |ys| :: ys[i] == if i == p then last else xs[i];
    if y in xs && y != w {
      var i :| 0 <= i < |xs| && xs[i] == y;
      assert ys[if i == |xs| - 1 then p else i] == y;
    }
  }

  lemma OnceMore(xs: seq<nat>, w: nat)
    requires Once(xs) && w !in xs
    ensures Once(xs + [w])
  {
  }

  // ---- The steps, by the parts of the state they touch ----------------------------------------

  /** A sender's step: the first sets its item, all others touch only the shared flags and the pipe. */
  predicate SenderStepped(s: State, t: State, sender: Sender) {
    var news := if sender.pc.SetSent? then {sender.item} else {};
    t == s.(sent := s.sent + news, owed := s.owed + news,
            senders := t.senders, flags := t.flags, skipped := t.skipped, pipe := t.pipe)
  }

  lemma SendSteps(s: State, id: nat)
    requires id in s.senders
    ensures SenderStepped(s, SenderStep(s, id), s.senders[id])
  {
    if s.senders[id].pc.SetSent? {
      var item := s.senders[id].item;
      assert SenderStep(s, id) == At(s.(sent := s.sent + {item}, owed := s.owed + {item}), id, ReadFlag);
    } else {
      assert s.sent + {} == s.sent && s.owed + {} == s.owed;
      SendStepsOn(s, id);
    }
  }

  lemma SendStepsOn(s: State, id: nat)
    requires id in s.senders && !s.senders[id].pc.SetSent?
    ensures var t := SenderStep(s, id);
      t == s.(senders := t.senders, flags := t.flags, skipped := t.skipped, pipe := t.pipe)
  {
    match s.senders[id].pc
    case ReadFlag =>
    case SetFlag =>
    case SetSkipped =>
    case ReadWanted =>
    case ClearSkipped =>
    case Write =>
  }

  /** The callback's step: one item is taken down, or queued; what is watched, owed and inside a call is left alone. */
  predicate CallbackStepped(s: State, t: State) {
    t == s.(sent := s.sent - TakenOf(s), queued := s.queued + HandOf(s),
            flags := t.flags, skipped := t.skipped, pipe := t.pipe, pc := t.pc)
    && !t.pc.Register?
  }

  function TakenOf(s: State): set<Item> {
    if s.pc.Take? && s.pc.i < |List(s, s.pc.c)| then {Item(s.pc.c, List(s, s.pc.c)[s.pc.i])} else {}
  }

  function HandOf(s: State): set<Item> {
    if s.pc.Feed? && s.pc.i < |List(s, s.pc.c)| then {Item(s.pc.c, List(s, s.pc.c)[s.pc.i])} else {}
  }

  lemma CallbackSteps(s: State)
    requires InCallback(s.pc)
    ensures CallbackStepped(s, CallbackStep(s))
  {
    if InScan(s.pc) {
      ScanSteps(s);
    } else {
      assert s.sent - TakenOf(s) == s.sent && s.queued + HandOf(s) == s.queued;
      hide TakenOf, HandOf;
    }
  }

  lemma ScanSteps(s: State)
    requires InScan(s.pc)
    ensures CallbackStepped(s, ScanStep(s))
  {
    assert s.sent - {} == s.sent && s.queued + {} == s.queued;
    hide List;
  }

  /** Around the poll, only the end of a start changes what is watched. */
  predicate PollStepped(s: State, t: State) {
    t == s.(open := t.open, wanted := t.wanted, pipeCustom := t.pipeCustom, pc := t.pc,
            asyncs := if s.pc.Register? && s.pc.item.c.Asyncs? then s.asyncs + [s.pc.item.n] else s.asyncs)
    && !t.pc.Register?
  }

  lemma PollSteps(s: State)
    ensures PollStepped(s, PollStep(s))
  {
    match s.pc
    case Register(_) =>
    case SetWanted =>
    case Sleeping =>
    case ClearWanted =>
    case CheckSkipped =>
    case _ =>
  }

  /** What each action touches. */
  predicate Stepped(s: State, a: Action, t: State) {
    match a
    case Call(_, _) => t == s.(senders := t.senders)
    case Send(id) => if id in s.senders then SenderStepped(s, t, s.senders[id]) else t == s
    case Advance => if InCallback(s.pc) then CallbackStepped(s, t) else PollStepped(s, t)
    case Start(item) => t == if s.pc == Dispatch && !Watched(s, item) then Started(s, item) else s
    case Stop(n) => t == if s.pc == Dispatch then Stopped(s, n) else s
    case Invoke(item) => InvokedStep(s, t, item)
    case _ => t == s.(pc := t.pc, pipeRead := t.pipeRead, pipeCustom := t.pipeCustom) && (t.pc.Register? ==> t == s)
  }

  predicate InvokedStep(s: State, t: State, item: Item) {
    t == if s.pc == Dispatch && item in s.queued then s.(queued := s.queued - {item}, owed := s.owed - {item}) else s
  }

  lemma Steps(s: State, a: Action)
    ensures Stepped(s, a, Apply(s, a))
  {
    hide SenderStep, CallbackStep, PollStep, Started, Stopped, SenderStepped, CallbackStepped, PollStepped;
    if a.Send? {
      if a.id in s.senders {
        SendSteps(s, a.id);
      }
    } else if a.Advance? {
      if InCallback(s.pc) {
        CallbackSteps(s);
      } else {
        PollSteps(s);
      }
    }
  }

  lemma ListedOnceStep(s: State, a: Action)
    requires ListedOnce(s)
    ensures ListedOnce(Apply(s, a))
  {
    hide Once, SwapRemove, Apply, TakenOf, HandOf;
    Steps(s, a);
    match a
    case Advance =>
      if s.pc.Register? && s.pc.item.c.Asyncs? {
        OnceMore(s.asyncs, s.pc.item.n);
      }
    case Start(item) =>
      if item.c.Signals? && item.n !in s.signals {
        OnceMore(s.signals, item.n);
      }
    case Stop(n) =>
      if n in s.asyncs {
        Removed(s.asyncs, n, n);
      }
    case _ =>
  }

  lemma {:induction false} ListedOnceRun(s: State, actions: seq<Action>)
    requires ListedOnce(s)
    ensures ListedOnce(Run(s, actions))
    decreases |actions|
  {
    hide ListedOnce, Apply;
    if actions != [] {
      ListedOnceStep(s, actions[0]);
      ListedOnceRun(Apply(s, actions[0]), actions[1..]);
    }
  }

  /** A callback stops the async watcher. */
  predicate Stops(s: State, a: Action, item: Item) {
    s.pc == Dispatch && a == Stop(item.n) && item.c == Asyncs
  }

  /** A callback starts the async watcher, which is not active. */
  predicate Starts(s: State, a: Action, item: Item) {
    s.pc == Dispatch && a == Start(item) && item.c == Asyncs && !Watched(s, item)
  }

  /**
   * Only three actions change what is watched: stopping an async watcher takes exactly that one off,
   * starting to watch a signal adds exactly that one, and so does the end of starting an async watcher.
   */
  lemma WatchedChanges(s: State, a: Action, item: Item)
    requires ListedOnce(s)
    ensures Watched(Apply(s, a), item) <==>
      || (Watched(s, item) && !Stops(s, a, item))
      || (s.pc == Dispatch && a == Start(item) && item.c == Signals)
      || (s.pc == Register(item) && a == Advance && item.c == Asyncs)
  {
    hide SwapRemove, Apply, Once;
    ListsChange(s, a);
    if a.Stop? && a.n in s.asyncs {
      Removed(s.asyncs, a.n, item.n);
    }
  }

  lemma ListsChange(s: State, a: Action)
    ensures Apply(s, a).signals ==
      if s.pc == Dispatch && a.Start? && a.item.c.Signals? && a.item.n !in s.signals then s.signals + [a.item.n]
      else s.signals
    ensures Apply(s, a).asyncs ==
      if s.pc == Dispatch && a.Stop? && a.n in s.asyncs then SwapRemove(s.asyncs, a.n)
      else if a.Advance? && s.pc.Register? && s.pc.item.c.Asyncs? then s.asyncs + [s.pc.item.n]
      else s.asyncs
  {
    hide SwapRemove, Apply, TakenOf, HandOf;
    Steps(s, a);
    match a
    case Call(_, _) =>
    case Send(_) =>
    case Advance =>
    case Start(_) =>
    case Stop(n) =>
    case Invoke(_) =>
    case _ =>
  }

  /** What the scan is about to take down, or has in its hand to feed. */
  predicate Taking(s: State, item: Item) {
    s.pc.Take? && s.pc.c == item.c && s.pc.i < |List(s, item.c)| && List(s, item.c)[s.pc.i] == item.n
  }

  /** A sender's first step sets its item; the scan and the start of an async watcher take it down. */
  lemma SentChanges(s: State, a: Action, item: Item)
    ensures item in Apply(s, a).sent <==>
      || (item in s.sent && !Starts(s, a, item) && !(a == Advance && Taking(s, item)))
      || (a.Send? && a.id in s.senders && s.senders[a.id] == Sender(item, SetSent))
  {
    hide SwapRemove, Apply, HandOf;
    Steps(s, a);
    match a
    case Call(_, _) =>
    case Send(_) =>
    case Advance =>
    case Start(_) =>
    case Stop(_) =>
    case Invoke(_) =>
    case _ =>
  }

  /** The scan queues what it has in its hand; invoking an item or stopping its watcher takes it off. */
  lemma QueuedChanges(s: State, a: Action, item: Item)
    ensures item in Apply(s, a).queued <==>
      || (item in s.queued && !Stops(s, a, item) && !(s.pc == Dispatch && a == Invoke(item)))
      || (a == Advance && InHand(s, item))
  {
    hide SwapRemove, Apply, TakenOf;
    Steps(s, a);
    match a
    case Call(_, _) =>
    case Send(_) =>
    case Advance =>
    case Start(_) =>
    case Stop(_) =>
    case Invoke(_) =>
    case _ =>
  }

  /** A send is owed a callback until one begins, or its watcher is started or stopped. */
  lemma OwedChanges(s: State, a: Action, item: Item)
    ensures item in Apply(s, a).owed <==>
      || (item in s.owed && !Stops(s, a, item) && !Starts(s, a, item)
          && !(s.pc == Dispatch && a == Invoke(item) && item in s.queued))
      || (a.Send? && a.id in s.senders && s.senders[a.id] == Sender(item, SetSent))
  {
    hide SwapRemove, Apply, TakenOf, HandOf, List;
    Steps(s, a);
    match a
    case Call(_, _) =>
    case Send(_) =>
    case Advance =>
    case Start(_) =>
    case Stop(_) =>
    case Invoke(_) =>
    case _ =>
  }

  /** Its call returns: the flag was up, the loop is not in its poll, or the byte is written. */
  predicate Returns(s: State, id: nat)
    requires id in s.senders
  {
    match s.senders[id].pc
    case ReadFlag => s.senders[id].item.c in s.flags
    case ReadWanted => !s.wanted
    case Write => true
    case _ => false
  }

  /**
   * Any thread may call for any async watcher, or for a signal attached to the loop. It stays in its
   * call until it returns, and only its own steps move it.
   */
  lemma SendersChange(s: State, a: Action, id: nat)
    ensures id in Apply(s, a).senders <==>
      || (id in s.senders && !(a == Send(id) && Returns(s, id)))
      || (a.Call? && a.id == id && (a.item.c == Asyncs || a.item.n in s.signals))
    ensures id in s.senders && id in Apply(s, a).senders ==>
      Apply(s, a).senders[id] ==
        if a == Send(id) then Sender(s.senders[id].item, NextPc(s.senders[id].pc)) else s.senders[id]
    ensures id !in s.senders && id in Apply(s, a).senders ==>
      a.Call? && Apply(s, a).senders[id] == Sender(a.item, SetSent)
  {
    if a.Call? {
      hide SenderStep, LoopStep, Started, Stopped;
    } else if a.Send? && a.id in s.senders {
      hide SenderStep, LoopStep, Started, Stopped;
      SendMoves(s, a.id);
    } else {
      hide Apply, SenderStepped, SwapRemove;
      Steps(s, a);
    }
  }

  /** The order of the steps in ev_async_send, or ev_feed_signal, and evpipe_write. */
  function NextPc(pc: SenderPc): SenderPc {
    match pc
    case SetSent => ReadFlag
    case ReadFlag => SetFlag
    case SetFlag => SetSkipped
    case SetSkipped => ReadWanted
    case ReadWanted => ClearSkipped
    case _ => Write
  }

  /** A step in a call: it returns, or goes on with the same item; no other sender moves. */
  predicate SendMoved(s: State, t: State, id: nat)
    requires id in s.senders
  {
    t.senders == if Returns(s, id) then s.senders - {id}
      else s.senders[id := Sender(s.senders[id].item, NextPc(s.senders[id].pc))]
  }

  lemma SendMoves(s: State, id: nat)
    requires id in s.senders
    ensures SendMoved(s, SenderStep(s, id), id)
  {
    match s.senders[id].pc
    case SetSent =>
    case ReadFlag =>
    case SetFlag =>
    case SetSkipped =>
    case ReadWanted =>
    case ClearSkipped =>
    case Write =>
  }

  // ---- The shared flags and the pipe ----------------------------------------------------------

  /** A sender takes this step. */
  predicate Sends(s: State, a: Action, pc: SenderPc) {
    a.Send? && a.id in s.senders && s.senders[a.id].pc == pc
  }

  /** A channel's flag goes up in a sender's call for that channel, and down when the callback has read it. */
  lemma FlagsChange(s: State, a: Action, c: Channel)
    ensures c in Apply(s, a).flags <==>
      || (c in s.flags && !(a == Advance && s.pc == CbClearFlag(c)))
      || (Sends(s, a, SetFlag) && s.senders[a.id].item.c == c)
  {
    if a.Send? && a.id in s.senders {
      hide LoopStep, Started, Stopped;
      SendShares(s, a.id);
      hide SenderStep;
    } else if a.Advance? && InCallback(s.pc) {
      CallbackShares(s);
      hide SenderStep, CallbackStep;
    } else {
      hide Apply, SwapRemove;
      Steps(s, a);
    }
  }

  /** A skipped write is noted by a sender, which takes the note back to write itself, and dropped by the callback. */
  lemma SkippedChanges(s: State, a: Action)
    ensures Apply(s, a).skipped <==>
      || Sends(s, a, SetSkipped)
      || (s.skipped && !Sends(s, a, ClearSkipped) && !(a == Advance && s.pc == CbClearSkipped))
  {
    if a.Send? && a.id in s.senders {
      hide LoopStep, Started, Stopped;
      SendShares(s, a.id);
      hide SenderStep;
    } else if a.Advance? && InCallback(s.pc) {
      CallbackShares(s);
      hide SenderStep, CallbackStep;
    } else {
      hide Apply, SwapRemove;
      Steps(s, a);
    }
  }

  /** A sender writes one byte if there is a pipe and room in it; the callback takes up to four. */
  lemma PipeChanges(s: State, a: Action)
    ensures Apply(s, a).pipe ==
      if Sends(s, a, Write) && s.open && s.pipe < s.capacity then s.pipe + 1
      else if a == Advance && s.pc == CbRead(true) then (if s.pipe < 4 then 0 else s.pipe - 4)
      else s.pipe
  {
    if a.Send? && a.id in s.senders {
      hide LoopStep, Started, Stopped;
      SendShares(s, a.id);
      hide SenderStep;
    } else if a.Advance? && InCallback(s.pc) {
      CallbackShares(s);
      hide SenderStep, CallbackStep;
    } else {
      hide Apply, SwapRemove;
      Steps(s, a);
    }
  }

  predicate SendShared(s: State, t: State, sender: Sender) {
    && t.flags == s.flags + (if sender.pc.SetFlag? then {sender.item.c} else {})
    && t.skipped == (sender.pc.SetSkipped? || (s.skipped && !sender.pc.ClearSkipped?))
    && t.pipe == s.pipe + if sender.pc.Write? && s.open && s.pipe < s.capacity then 1 else 0
  }

  lemma SendShares(s: State, id: nat)
    requires id in s.senders
    ensures SendShared(s, SenderStep(s, id), s.senders[id])
  {
    match s.senders[id].pc
    case SetSent =>
    case ReadFlag =>
    case SetFlag =>
    case SetSkipped =>
    case ReadWanted =>
    case ClearSkipped =>
    case Write =>
  }

  predicate CallbackShared(s: State, t: State) {
    && t.flags == s.flags - (if s.pc.CbClearFlag? then {s.pc.c} else {})
    && t.skipped == (s.skipped && s.pc != CbClearSkipped)
    && t.pipe == if s.pc != CbRead(true) then s.pipe else if s.pipe < 4 then 0 else s.pipe - 4
  }

  lemma CallbackShares(s: State)
    requires InCallback(s.pc)
    ensures CallbackShared(s, CallbackStep(s))
  {
    if InScan(s.pc) {
      ScanShares(s);
    } else {
      match s.pc
      case CbRead(_) =>
      case CbClearSkipped =>
      case CbReadFlag(_) =>
      case CbClearFlag(_) =>
    }
  }

  lemma ScanShares(s: State)
    requires InScan(s.pc)
    ensures CallbackShared(s, ScanStep(s))
  {
    hide List;
  }

  // ---- A send ends a sleep --------------------------------------------------------------------

  function Calls(id: nat, n: nat): seq<Action> {
    if n == 0 then [] else [Send(id)] + Calls(id, n - 1)
  }

  function StepsLeftIn(pc: SenderPc): nat {
    match pc
    case SetSent => 7 case ReadFlag => 6 case SetFlag => 5 case SetSkipped => 4
    case ReadWanted => 3 case ClearSkipped => 2 case Write => 1
  }

  /** The call of id is over; nothing else has come or gone, and its item is set if it was yet to be. */
  predicate Over(s: State, t: State, id: nat)
    requires id in s.senders
  {
    && t.senders.Keys == s.senders.Keys - {id} && t.pc == s.pc && t.asyncs == s.asyncs && t.signals == s.signals
    && s.sent <= t.sent && (s.senders[id].pc.SetSent? ==> s.senders[id].item in t.sent)
  }

  lemma SendOver(s: State, t: State, u: State, id: nat)
    requires id in s.senders && id in t.senders && SenderStepped(s, t, s.senders[id])
    requires t.senders == s.senders[id := Sender(s.senders[id].item, NextPc(s.senders[id].pc))] && Over(t, u, id)
    ensures Over(s, u, id)
  {
    assert t.senders.Keys == s.senders.Keys;
  }

  /** A sender left to itself returns within seven steps. */
  lemma {:induction false} CallReturns(s: State, id: nat) returns (n: nat)
    requires id in s.senders
    ensures Disciplined(s, Calls(id, n)) && Over(s, Run(s, Calls(id, n)), id)
    decreases StepsLeftIn(s.senders[id].pc)
  {
    var t := SenderStep(s, id);
    SendSteps(s, id);
    SendMoves(s, id);
    hide SenderStep, Run, Disciplined;
    if Returns(s, id) {
      n := 1;
      CallsOnce(s, id, 0);
      assert t.senders.Keys == s.senders.Keys - {id};
    } else {
      n := CallReturns(t, id);
      SendOver(s, t, Run(t, Calls(id, n)), id);
      CallsOnce(s, id, n);
      n := n + 1;
    }
  }

  lemma CallsOnce(s: State, id: nat, n: nat)
    requires id in s.senders
    ensures Run(s, Calls(id, n + 1)) == Run(SenderStep(s, id), Calls(id, n))
    ensures Disciplined(s, Calls(id, n + 1)) == Disciplined(SenderStep(s, id), Calls(id, n))
    ensures Run(s, Calls(id, 0)) == s && Disciplined(s, Calls(id, 0))
    ensures n == 0 ==> Run(s, Calls(id, 1)) == SenderStep(s, id) && Disciplined(s, Calls(id, 1))
  {
    hide SenderStep;
    assert Calls(id, n + 1)[1..] == Calls(id, n);
    assert Apply(s, Send(id)) == SenderStep(s, id);
    hide Apply;
  }

  /**
   * Whatever is watched, a sleeping loop can be woken for it: once one more thread has called for
   * it and returned, there is a byte in the pipe.
   */
  lemma SendEndsSleep(s: State, item: Item) returns (actions: seq<Action>)
    requires Inv(s) && s.open && s.pc.Blocked? && s.senders == map[] && Watched(s, item)
    ensures Disciplined(s, actions) && Waiting(Run(s, actions)) && Run(s, actions).pipe > 0
  {
    var t := s.(senders := map[0 := Sender(item, SetSent)]);
    assert Apply(s, Call(0, item)) == t;
    hide Apply, Inv, Run, Disciplined;
    var n := CallReturns(t, 0);
    actions := [Call(0, item)] + Calls(0, n);
    CallFirst(s, Call(0, item), Calls(0, n));
    InvRun(s, actions);
    assert Watched(Run(s, actions), item);
    WaitingHasByte(Run(s, actions));
  }

  lemma CallFirst(s: State, a: Action, rest: seq<Action>)
    ensures Run(s, [a] + rest) == Run(Apply(s, a), rest)
    ensures Disciplined(s, [a] + rest) <==> (a.Call? ==> s.open) && Disciplined(Apply(s, a), rest)
  {
    hide Apply;
    assert ([a] + rest)[1..] == rest;
  }
}
