/**
 * Waking the loop from other threads and from signal handlers: ev_async_send, ev_feed_signal,
 * evpipe_write, pipecb and the part of ev_run around the poll. Each read or write of a shared
 * variable is one step; any number of senders may be anywhere in their call while the loop is
 * anywhere in its iteration.
 */
module Wakeup {

  /** sig_pending or async_pending: which flag a sender raises. */
  datatype Channel = Signals | Asyncs

  /** What is sent: a signal, or a wake-up of an async watcher. */
  datatype Item = Item(c: Channel, n: nat)

  /** What a sender inside its call does next. */
  datatype SenderPc = SetSent | ReadFlag | SetFlag | SetSkipped | ReadWanted | ClearSkipped | Write

  datatype Sender = Sender(item: Item, pc: SenderPc)

  /** What the loop's thread does next. Take and Feed are the two halves of the scan's loop body. */
  datatype LoopPc =
    | Dispatch
    | Register(item: Item)
    | SetWanted | Decide | Sleeping | Blocked | PollNow | ClearWanted | CheckSkipped
    | CbRead(readable: bool) | CbClearSkipped | CbReadFlag(c: Channel) | CbClearFlag(c: Channel)
    | Scan(c: Channel, i: nat) | Take(c: Channel, i: nat) | Feed(c: Channel, i: nat)

  /**
   * sent holds the signals that are pending and the async watchers whose flag is set; flags the
   * channels whose flag is up; pipe counts the bytes in the pipe and capacity bounds them; open says
   * that the pipe exists and is watched; signals are the signals attached to this loop and asyncs its
   * active async watchers; pipeRead and pipeCustom are the pending events of the pipe's watcher;
   * queued what is fed and not yet invoked. owed is bookkeeping of the model: what was sent since its
   * callback last began.
   */
  datatype State = State(
    sent: set<Item>, flags: set<Channel>, skipped: bool, wanted: bool,
    pipe: nat, capacity: nat, open: bool,
    senders: map<nat, Sender>,
    pc: LoopPc, signals: seq<nat>, asyncs: seq<nat>,
    pipeRead: bool, pipeCustom: bool, queued: set<Item>,
    owed: set<Item>)

  /** The numbers that the scan for a channel goes through. */
  function List(s: State, c: Channel): seq<nat> {
    if c.Signals? then s.signals else s.asyncs
  }

  predicate Watched(s: State, item: Item) {
    item.n in List(s, item.c)
  }

  datatype Action =
    | Call(id: nat, item: Item)  // a thread enters ev_async_send or ev_feed_signal
    | Send(id: nat)              // that thread's next step
    | Advance                    // the loop's next step, where there is only one
    | Wait(mayWait: bool)        // the loop decides whether to wait
    | Return(readable: bool)     // the poll returns
    | Start(item: Item)          // a callback calls ev_async_start or ev_signal_start
    | Stop(n: nat)               // a callback calls ev_async_stop
    | Invoke(item: Item)         // the loop invokes what is pending for the item
    | InvokePipe                 // the loop invokes the pipe's watcher
    | Iterate                    // nothing is pending: the next iteration

  /** A new loop. */
  function Initial(capacity: nat): State {
    State({}, {}, false, false, 0, capacity, false, map[], Dispatch, [], [], false, false, {}, {})
  }

  function SenderStep(s: State, id: nat): State
    requires id in s.senders
  {
    var item := s.senders[id].item;
    var done := s.(senders := s.senders - {id});
    match s.senders[id].pc
    case SetSent => At(s.(sent := s.sent + {item}, owed := s.owed + {item}), id, ReadFlag)
    case ReadFlag => if item.c in s.flags then done else At(s, id, SetFlag)
    case SetFlag => At(s.(flags := s.flags + {item.c}), id, SetSkipped)
    case SetSkipped => At(s.(skipped := true), id, ReadWanted)
    case ReadWanted => if s.wanted then At(s, id, ClearSkipped) else done
    case ClearSkipped => At(s.(skipped := false), id, Write)
    case Write => if s.open && s.pipe < s.capacity then done.(pipe := s.pipe + 1) else done
  }

  function At(s: State, id: nat, pc: SenderPc): State
    requires id in s.senders
  {
    s.(senders := s.senders[id := s.senders[id].(pc := pc)])
  }

  /** The loop's next step: in the pipe's callback, or around the poll. */
  function LoopStep(s: State): State {
    if InCallback(s.pc) then CallbackStep(s) else PollStep(s)
  }

  predicate InScan(pc: LoopPc) {
    pc.Scan? || pc.Take? || pc.Feed?
  }

  predicate InCallback(pc: LoopPc) {
    pc.CbRead? || pc.CbClearSkipped? || pc.CbReadFlag? || pc.CbClearFlag? || InScan(pc)
  }

  function PollStep(s: State): State {
    match s.pc
    case Register(item) =>
      var t := s.(open := true, pc := Dispatch);
      if item.c.Asyncs? then t.(asyncs := s.asyncs + [item.n]) else t
    case SetWanted => s.(wanted := true, pc := Decide)
    case Sleeping => s.(pc := Blocked)
    case ClearWanted => s.(wanted := false, pc := CheckSkipped)
    case CheckSkipped => s.(pipeCustom := s.pipeCustom || s.skipped, pc := Dispatch)
    case _ => s
  }

  function CallbackStep(s: State): State {
    match s.pc
    case CbRead(readable) => s.(pipe := if !readable then s.pipe else if s.pipe < 4 then 0 else s.pipe - 4,
                                pc := CbClearSkipped)
    case CbClearSkipped => s.(skipped := false, pc := CbReadFlag(Signals))
    case CbReadFlag(c) => s.(pc := if c in s.flags then CbClearFlag(c) else NextChannel(c))
    case CbClearFlag(c) => s.(flags := s.flags - {c}, pc := Scan(c, |List(s, c)|))
    case _ => ScanStep(s)
  }

  /** Signals first, then async watchers. */
  function NextChannel(c: Channel): LoopPc {
    if c.Signals? then CbReadFlag(Asyncs) else Dispatch
  }

  /** Downwards over the list: look at the next one, or take its flag down, or feed it. */
  function ScanStep(s: State): State {
    match s.pc
    case Scan(c, i) =>
      if i == 0 || i > |List(s, c)| then s.(pc := NextChannel(c))
      else s.(pc := if Item(c, List(s, c)[i - 1]) in s.sent then Take(c, i - 1) else Scan(c, i - 1))
    case Take(c, i) =>
      if i < |List(s, c)| then s.(sent := s.sent - {Item(c, List(s, c)[i])}, pc := Feed(c, i)) else s
    case Feed(c, i) =>
      if i < |List(s, c)| then s.(queued := s.queued + {Item(c, List(s, c)[i])}, pc := Scan(c, i)) else s
    case _ => s
  }

  function Position(xs: seq<nat>, w: nat): (i: nat)
    requires w in xs
    ensures i < |xs| && xs[i] == w
  {
    if xs[0] == w then 0 else 1 + Position(xs[1..], w)
  }

  /** Its place is taken by the last one. */
  function SwapRemove(xs: seq<nat>, w: nat): (ys: seq<nat>)
    requires w in xs
    ensures forall y | y in ys :: y in xs
  {
    xs[Position(xs, w) := xs[|xs| - 1]][..|xs| - 1]
  }

  predicate NothingPending(s: State) {
    !s.pipeRead && !s.pipeCustom && s.queued == {}
  }

  /** ev_async_start first lowers the watcher's flag; ev_signal_start first attaches the signal to the loop. */
  function Started(s: State, item: Item): State {
    if item.c.Asyncs? then s.(sent := s.sent - {item}, owed := s.owed - {item}, pc := Register(item))
    else s.(signals := s.signals + [item.n], pc := Register(item))
  }

  function Stopped(s: State, n: nat): State {
    var t := s.(queued := s.queued - {Item(Asyncs, n)}, owed := s.owed - {Item(Asyncs, n)});
    if n in s.asyncs then t.(asyncs := SwapRemove(s.asyncs, n)) else t
  }

  /** Feeding a signal that is attached to no loop returns at once. */
  predicate MayCall(s: State, id: nat, item: Item) {
    id !in s.senders && (item.c.Signals? ==> item.n in s.signals)
  }

  /** The state after an action; an action that is not possible in s changes nothing. */
  function Apply(s: State, a: Action): State {
    match a
    case Call(id, item) => if MayCall(s, id, item) then s.(senders := s.senders[id := Sender(item, SetSent)]) else s
    case Send(id) => if id in s.senders then SenderStep(s, id) else s
    case Advance => LoopStep(s)
    case Wait(mayWait) =>
      if s.pc.Decide? then s.(pc := if mayWait && !s.skipped then Sleeping else PollNow) else s
    case Return(readable) =>
      if (s.pc.Blocked? || s.pc.PollNow?) && (readable ==> s.open && s.pipe > 0)
      then s.(pipeRead := s.pipeRead || readable, pc := ClearWanted) else s
    case Start(item) => if s.pc.Dispatch? && !Watched(s, item) then Started(s, item) else s
    case Stop(n) => if s.pc.Dispatch? then Stopped(s, n) else s
    case Invoke(item) =>
      if s.pc.Dispatch? && item in s.queued then s.(queued := s.queued - {item}, owed := s.owed - {item}) else s
    case InvokePipe =>
      if s.pc.Dispatch? && (s.pipeRead || s.pipeCustom)
      then s.(pipeRead := false, pipeCustom := false, pc := CbRead(s.pipeRead)) else s
    case Iterate => if s.pc.Dispatch? && NothingPending(s) then s.(pc := SetWanted) else s
  }

  function Run(s: State, actions: seq<Action>): State
    decreases |actions|
  {
    if actions == [] then s else Run(Apply(s, actions[0]), actions[1..])
  }

  /** No thread sends before the first start has made the pipe. */
  predicate Disciplined(s: State, actions: seq<Action>)
    decreases |actions|
  {
    actions == [] || ((actions[0].Call? ==> s.open) && Disciplined(Apply(s, actions[0]), actions[1..]))
  }

  /** The loop sleeps in the poll, every send has returned, and something that is watched is still set. */
  predicate Waiting(s: State) {
    s.pc.Blocked? && s.senders == map[] && exists item | item in s.sent :: Watched(s, item)
  }

  // ---- The invariant -------------------------------------------------------------------------

  ghost predicate SenderAt(s: State, pc: SenderPc) {
    exists id | id in s.senders :: s.senders[id].pc == pc
  }

  ghost predicate Flagging(s: State, item: Item) {
    exists id | id in s.senders ::
      s.senders[id].item == item && (s.senders[id].pc.ReadFlag? || s.senders[id].pc.SetFlag?)
  }

  /** The scan for the channel has yet to look at position j. */
  predicate Ahead(pc: LoopPc, c: Channel, j: nat) {
    match pc
    case Scan(d, i) => c == d && j < i
    case Take(d, i) => c == d && j <= i
    case Feed(d, i) => c == d && j < i
    case _ => false
  }

  /** The callback has yet to read the channel's flag. */
  predicate FlagAhead(pc: LoopPc, c: Channel) {
    match pc
    case CbRead(_) => true
    case CbClearSkipped => true
    case CbReadFlag(d) => c == d || c.Asyncs?
    case CbClearFlag(d) => c == d || c.Asyncs?
    case Scan(d, _) => d.Signals? && c.Asyncs?
    case Take(d, _) => d.Signals? && c.Asyncs?
    case Feed(d, _) => d.Signals? && c.Asyncs?
    case _ => false
  }

  /** The loop is bound to read the channel's flag before it can wait again. */
  predicate Committed(s: State, c: Channel) {
    s.pipeRead || s.pipeCustom || FlagAhead(s.pc, c)
  }

  /** Everything set will be found: the flag is up, will be put up, or the scan is still to come to it. */
  ghost predicate SentIsFlagged(s: State) {
    && ListIsFlagged(s, Signals, s.signals) && ListIsFlagged(s, Asyncs, s.asyncs)
    && (s.pc.Register? && s.pc.item in s.sent ==> s.pc.item.c in s.flags || Flagging(s, s.pc.item))
  }

  ghost predicate ListIsFlagged(s: State, c: Channel, list: seq<nat>) {
    forall j | 0 <= j < |list| ::
      Item(c, list[j]) in s.sent ==> c in s.flags || Flagging(s, Item(c, list[j])) || Ahead(s.pc, c, j)
  }

  /** When a flag is up, something will make the loop look at it. */
  ghost predicate FlagIsHeard(s: State) {
    forall c | c in s.flags ::
      || s.skipped || s.pipe > 0 || Committed(s, c)
      || SenderAt(s, SetSkipped) || SenderAt(s, ClearSkipped) || SenderAt(s, Write)
  }

  ghost predicate PollIsGuarded(s: State) {
    && (s.pc.Decide? || s.pc.Sleeping? || s.pc.Blocked? || s.pc.PollNow? || s.pc.ClearWanted? ==> s.wanted)
    && (s.pc.SetWanted? || s.pc.Decide? || s.pc.Sleeping? || s.pc.Blocked? || s.pc.PollNow? ==> NothingPending(s))
    && (s.pc.Sleeping? || s.pc.Blocked? ==> s.skipped ==> SenderAt(s, ReadWanted) || SenderAt(s, ClearSkipped))
  }

  /** A send not yet answered by a callback is set, in the scan's hand, or queued. */
  predicate OwedIsHeld(s: State) {
    forall item {:trigger item in s.owed} | item in s.owed && (Watched(s, item) || s.pc == Register(item)) ::
      item in s.sent || item in s.queued || InHand(s, item)
  }

  predicate InHand(s: State, item: Item) {
    s.pc.Feed? && s.pc.i < |List(s, s.pc.c)| && Item(s.pc.c, List(s, s.pc.c)[s.pc.i]) == item
  }

  predicate ScanInRange(s: State) {
    match s.pc
    case Scan(c, i) => i <= |List(s, c)|
    case Take(c, i) => i < |List(s, c)|
    case Feed(c, i) => i < |List(s, c)|
    case _ => true
  }

  /** Only signals attached to the loop are sent to it. */
  predicate Attached(s: State) {
    && (forall item | item in s.sent && item.c.Signals? :: item.n in s.signals)
    && (forall item {:trigger item in s.owed} | item in s.owed && item.c.Signals? :: item.n in s.signals)
    && (forall id | id in s.senders :: s.senders[id].item.c.Signals? ==> s.senders[id].item.n in s.signals)
  }

  /** Its part of the flag is done. */
  predicate Late(pc: SenderPc) {
    pc.SetSkipped? || pc.ReadWanted? || pc.ClearSkipped? || pc.Write?
  }

  predicate AllLate(s: State) {
    forall id | id in s.senders :: Late(s.senders[id].pc)
  }

  predicate AllWrite(s: State) {
    forall id | id in s.senders :: s.senders[id].pc.Write?
  }

  /** While there is no pipe: nobody is about to put a flag up, and what is up will be heard without a byte. */
  predicate Dormant(s: State) {
    && s.pipe == 0 && AllLate(s)
    && forall c | c in s.flags :: (s.skipped && AllWrite(s)) || Committed(s, c)
  }

  ghost predicate Inv(s: State) {
    && s.capacity >= 1
    && ScanInRange(s)
    && Attached(s)
    && SentIsFlagged(s)
    && FlagIsHeard(s)
    && PollIsGuarded(s)
    && OwedIsHeld(s)
    && (!s.open ==> Dormant(s))
  }

  lemma CallKeeps(s: State, id: nat, item: Item)
    requires Inv(s) && s.open
    ensures Inv(Apply(s, Call(id, item)))
  {
    if MayCall(s, id, item) {
      OthersRemain(s, Apply(s, Call(id, item)), id);
    }
  }

  /** Senders other than id, and what they are about to do, are the same in s and t. */
  lemma OthersRemain(s: State, t: State, id: nat)
    requires forall k | k in s.senders && k != id :: k in t.senders && t.senders[k] == s.senders[k]
    ensures forall pc | SenderAt(s, pc) :: SenderAt(t, pc) || (id in s.senders && s.senders[id].pc == pc)
    ensures forall item | Flagging(s, item) ::
      || Flagging(t, item)
      || (id in s.senders && s.senders[id].item == item && (s.senders[id].pc.ReadFlag? || s.senders[id].pc.SetFlag?))
  {
  }

  lemma Present(t: State, id: nat)
    requires id in t.senders
    ensures SenderAt(t, t.senders[id].pc)
    ensures t.senders[id].pc.ReadFlag? || t.senders[id].pc.SetFlag? ==> Flagging(t, t.senders[id].item)
  {
  }

  lemma SetSentKeeps(s: State, id: nat)
    requires Inv(s) && id in s.senders && s.senders[id].pc.SetSent?
    ensures Inv(SenderStep(s, id))
  {
    hide SenderAt, Flagging, Ahead, FlagAhead;
    var t := SenderStep(s, id);
    OthersRemain(s, t, id);
    Present(t, id);
    assert SentIsFlagged(t);
  }

  /** All but the first of a sender's steps leave alone what is set and what is owed. */
  lemma SameLoop(s: State, t: State)
    requires t == s.(senders := t.senders, flags := t.flags, skipped := t.skipped, pipe := t.pipe)
    ensures OwedIsHeld(s) == OwedIsHeld(t) && ScanInRange(s) == ScanInRange(t)
  {
  }

  /** The steps that raise the shared flags: the channel's, then skipped. */
  lemma RaisingKeeps(s: State, id: nat)
    requires Inv(s) && id in s.senders && (s.senders[id].pc.SetFlag? || s.senders[id].pc.SetSkipped?)
    ensures Inv(SenderStep(s, id))
  {
    var t := SenderStep(s, id);
    SameLoop(s, t);
    hide SenderAt, Flagging, Ahead, FlagAhead, OwedIsHeld, ScanInRange;
    OthersRemain(s, t, id);
    Present(t, id);
    assert FlagIsHeard(t);
  }

  lemma ReadFlagKeeps(s: State, id: nat)
    requires Inv(s) && id in s.senders && s.senders[id].pc.ReadFlag?
    ensures Inv(SenderStep(s, id))
  {
    if s.senders[id].item.c in s.flags {
      FlagSeenKeeps(s, id);
    } else {
      FlagMissedKeeps(s, id);
    }
  }

  lemma FlagSeenKeeps(s: State, id: nat)
    requires Inv(s) && id in s.senders && s.senders[id].pc.ReadFlag? && s.senders[id].item.c in s.flags
    ensures Inv(SenderStep(s, id))
  {
    var t := s.(senders := s.senders - {id});
    assert SenderStep(s, id) == t;
    SameLoop(s, t);
    hide SenderAt, Flagging, Ahead, FlagAhead, OwedIsHeld, ScanInRange, SenderStep;
    OthersRemain(s, t, id);
  }

  lemma FlagMissedKeeps(s: State, id: nat)
    requires Inv(s) && id in s.senders && s.senders[id].pc.ReadFlag? && s.senders[id].item.c !in s.flags
    ensures Inv(SenderStep(s, id))
  {
    var t := At(s, id, SetFlag);
    assert SenderStep(s, id) == t;
    SameLoop(s, t);
    hide SenderAt, Flagging, Ahead, FlagAhead, OwedIsHeld, ScanInRange, SenderStep;
    OthersRemain(s, t, id);
    Present(t, id);
  }

  lemma ReadWantedKeeps(s: State, id: nat)
    requires Inv(s) && id in s.senders && s.senders[id].pc.ReadWanted?
    ensures Inv(SenderStep(s, id))
  {
    if s.wanted {
      WantedKeeps(s, id);
    } else {
      UnwantedKeeps(s, id);
    }
  }

  lemma WantedKeeps(s: State, id: nat)
    requires Inv(s) && id in s.senders && s.senders[id].pc.ReadWanted? && s.wanted
    ensures Inv(SenderStep(s, id))
  {
    var t := At(s, id, ClearSkipped);
    assert SenderStep(s, id) == t;
    SameLoop(s, t);
    hide SenderAt, Flagging, Ahead, FlagAhead, OwedIsHeld, ScanInRange, SenderStep;
    OthersRemain(s, t, id);
    Present(t, id);
  }

  lemma UnwantedKeeps(s: State, id: nat)
    requires Inv(s) && id in s.senders && s.senders[id].pc.ReadWanted? && !s.wanted
    ensures Inv(SenderStep(s, id))
  {
    var t := s.(senders := s.senders - {id});
    assert SenderStep(s, id) == t;
    SameLoop(s, t);
    hide SenderAt, Flagging, Ahead, FlagAhead, OwedIsHeld, ScanInRange, SenderStep;
    OthersRemain(s, t, id);
  }

  lemma ClearSkippedKeeps(s: State, id: nat)
    requires Inv(s) && id in s.senders && s.senders[id].pc.ClearSkipped?
    ensures Inv(SenderStep(s, id))
  {
    var t := At(s.(skipped := false), id, Write);
    assert SenderStep(s, id) == t;
    SameLoop(s, t);
    hide SenderAt, Flagging, Ahead, FlagAhead, OwedIsHeld, ScanInRange, SenderStep;
    OthersRemain(s, t, id);
    Present(t, id);
  }

  lemma WriteKeeps(s: State, id: nat)
    requires Inv(s) && id in s.senders && s.senders[id].pc.Write?
    ensures Inv(SenderStep(s, id))
  {
    if s.open && s.pipe < s.capacity {
      WrittenKeeps(s, id);
    } else {
      UnwrittenKeeps(s, id);
    }
  }

  lemma WrittenKeeps(s: State, id: nat)
    requires Inv(s) && id in s.senders && s.senders[id].pc.Write? && s.open && s.pipe < s.capacity
    ensures Inv(SenderStep(s, id))
  {
    var t := s.(senders := s.senders - {id}, pipe := s.pipe + 1);
    assert SenderStep(s, id) == t;
    SameLoop(s, t);
    hide SenderAt, Flagging, Ahead, FlagAhead, OwedIsHeld, ScanInRange, SenderStep, Dormant;
    OthersRemain(s, t, id);
  }

  /** A full pipe needs no other byte; and without a pipe, nothing depended on this one. */
  lemma UnwrittenKeeps(s: State, id: nat)
    requires Inv(s) && id in s.senders && s.senders[id].pc.Write? && !(s.open && s.pipe < s.capacity)
    ensures Inv(SenderStep(s, id))
  {
    var t := s.(senders := s.senders - {id});
    assert SenderStep(s, id) == t;
    SameLoop(s, t);
    hide SenderAt, Flagging, Ahead, FlagAhead, OwedIsHeld, ScanInRange, SenderStep;
    OthersRemain(s, t, id);
  }

  lemma SendKeeps(s: State, id: nat)
    requires Inv(s) && id in s.senders
    ensures Inv(SenderStep(s, id))
  {
    hide *;
    match s.senders[id].pc
    case SetSent => SetSentKeeps(s, id);
    case ReadFlag => ReadFlagKeeps(s, id);
    case SetFlag => RaisingKeeps(s, id);
    case SetSkipped => RaisingKeeps(s, id);
    case ReadWanted => ReadWantedKeeps(s, id);
    case ClearSkipped => ClearSkippedKeeps(s, id);
    case Write => WriteKeeps(s, id);
  }

  /** The same senders, in a state that differs only in the loop's own part. */
  lemma SameSenders(s: State, t: State)
    requires s.senders == t.senders
    ensures forall pc :: SenderAt(s, pc) == SenderAt(t, pc)
    ensures forall item :: Flagging(s, item) == Flagging(t, item)
  {
  }

  lemma PollingKeeps(s: State)
    requires Inv(s)
    requires s.pc.SetWanted? || s.pc.Sleeping? || s.pc.ClearWanted? || s.pc.CheckSkipped?
    ensures Inv(LoopStep(s))
  {
    hide SenderAt, Flagging;
    SameSenders(s, LoopStep(s));
  }

  lemma CallbackKeeps(s: State)
    requires Inv(s) && (s.pc.CbRead? || s.pc.CbClearSkipped?)
    ensures Inv(LoopStep(s))
  {
    hide SenderAt, Flagging;
    SameSenders(s, LoopStep(s));
  }

  lemma ReadChannelKeeps(s: State)
    requires Inv(s) && s.pc.CbReadFlag?
    ensures Inv(LoopStep(s))
  {
    hide SenderAt, Flagging;
    SameSenders(s, LoopStep(s));
  }

  lemma ClearChannelKeeps(s: State)
    requires Inv(s) && s.pc.CbClearFlag?
    ensures Inv(LoopStep(s))
  {
    hide SenderAt, Flagging;
    SameSenders(s, LoopStep(s));
  }

  lemma ScanNext(s: State)
    requires s.pc.Scan? && s.pc.i <= |List(s, s.pc.c)|
    ensures s.pc.i == 0 ==> LoopStep(s) == s.(pc := NextChannel(s.pc.c))
    ensures s.pc.i > 0 && Item(s.pc.c, List(s, s.pc.c)[s.pc.i - 1]) in s.sent ==>
      LoopStep(s) == s.(pc := Take(s.pc.c, s.pc.i - 1))
    ensures s.pc.i > 0 && Item(s.pc.c, List(s, s.pc.c)[s.pc.i - 1]) !in s.sent ==>
      LoopStep(s) == s.(pc := LoopPc.Scan(s.pc.c, s.pc.i - 1))
  {
  }

  /** The scan may move on past what is not set. */
  lemma ScanMoves(s: State, pc: LoopPc)
    requires Inv(s) && s.pc.Scan?
    requires pc == NextChannel(s.pc.c) || ((pc.Scan? || pc.Take?) && pc.c == s.pc.c)
    requires ScanInRange(s.(pc := pc))
    requires forall j | 0 <= j < |List(s, s.pc.c)| && Ahead(s.pc, s.pc.c, j) && !Ahead(pc, s.pc.c, j) ::
      Item(s.pc.c, List(s, s.pc.c)[j]) !in s.sent
    ensures Inv(s.(pc := pc))
  {
    hide SenderAt, Flagging;
    SameSenders(s, s.(pc := pc));
  }

  lemma ScanKeeps(s: State)
    requires Inv(s) && s.pc.Scan?
    ensures Inv(LoopStep(s))
  {
    hide SentIsFlagged, FlagIsHeard, PollIsGuarded, OwedIsHeld, Attached, Dormant, LoopStep;
    ScanNext(s);
    ScanMoves(s, LoopStep(s).pc);
  }

  lemma TakeKeeps(s: State)
    requires Inv(s) && s.pc.Take?
    ensures Inv(LoopStep(s))
  {
    hide SenderAt, Flagging;
    SameSenders(s, LoopStep(s));
  }

  lemma FeedKeeps(s: State)
    requires Inv(s) && s.pc.Feed?
    ensures Inv(LoopStep(s))
  {
    hide SenderAt, Flagging;
    SameSenders(s, LoopStep(s));
  }

  lemma RegisterKeeps(s: State)
    requires Inv(s) && s.pc.Register?
    ensures Inv(LoopStep(s))
  {
    if s.pc.item.c.Asyncs? {
      RegisterAsyncKeeps(s, s.pc.item.n);
    } else {
      RegisterSignalKeeps(s);
    }
  }

  lemma RegisterAsyncKeeps(s: State, n: nat)
    requires Inv(s) && s.pc == Register(Item(Asyncs, n))
    ensures Inv(LoopStep(s))
  {
    var t := s.(open := true, pc := Dispatch, asyncs := s.asyncs + [n]);
    assert LoopStep(s) == t;
    assert OwedIsHeld(t);
    hide SenderAt, Flagging, LoopStep, Dormant, OwedIsHeld, Ahead, FlagAhead;
    SameSenders(s, t);
  }

  lemma RegisterSignalKeeps(s: State)
    requires Inv(s) && s.pc.Register? && s.pc.item.c.Signals?
    ensures Inv(LoopStep(s))
  {
    var t := s.(open := true, pc := Dispatch);
    assert LoopStep(s) == t;
    hide SenderAt, Flagging, LoopStep, Dormant, Ahead, FlagAhead;
    SameSenders(s, t);
  }

  lemma AdvanceKeeps(s: State)
    requires Inv(s)
    ensures Inv(LoopStep(s))
  {
    hide Inv;
    match s.pc
    case Register(_) => RegisterKeeps(s);
    case SetWanted => PollingKeeps(s);
    case Sleeping => PollingKeeps(s);
    case ClearWanted => PollingKeeps(s);
    case CheckSkipped => PollingKeeps(s);
    case CbRead(_) => CallbackKeeps(s);
    case CbClearSkipped => CallbackKeeps(s);
    case CbReadFlag(_) => ReadChannelKeeps(s);
    case CbClearFlag(_) => ClearChannelKeeps(s);
    case Scan(_, _) => ScanKeeps(s);
    case Take(_, _) => TakeKeeps(s);
    case Feed(_, _) => FeedKeeps(s);
    case _ =>
  }

  /** A step of the loop that touches neither what is watched nor what senders write. */
  lemma PollChoiceKeeps(s: State, a: Action)
    requires Inv(s) && (a.Wait? || a.Return? || a.InvokePipe? || a.Iterate?)
    ensures Inv(Apply(s, a))
  {
    hide SenderAt, Flagging;
    SameSenders(s, Apply(s, a));
  }

  lemma StartKeeps(s: State, item: Item)
    requires Inv(s) && s.pc.Dispatch? && !Watched(s, item)
    ensures Inv(Started(s, item))
  {
    if item.c.Asyncs? {
      StartAsyncKeeps(s, item);
    } else {
      StartSignalKeeps(s, item);
    }
  }

  lemma StartAsyncKeeps(s: State, item: Item)
    requires Inv(s) && s.pc.Dispatch? && item.c.Asyncs?
    ensures Inv(Started(s, item))
  {
    var t := s.(sent := s.sent - {item}, owed := s.owed - {item}, pc := Register(item));
    assert Started(s, item) == t;
    hide SenderAt, Flagging, Started;
    SameSenders(s, t);
  }

  lemma StartSignalKeeps(s: State, item: Item)
    requires Inv(s) && s.pc.Dispatch? && item.c.Signals? && !Watched(s, item)
    ensures Inv(Started(s, item))
  {
    var t := s.(signals := s.signals + [item.n], pc := Register(item));
    assert Started(s, item) == t;
    assert item !in s.sent && item !in s.owed;
    assert List(t, Signals) == t.signals && List(t, Asyncs) == t.asyncs;
    hide SenderAt, Flagging, Started;
    SameSenders(s, t);
  }

  lemma StopKeeps(s: State, n: nat)
    requires Inv(s) && s.pc.Dispatch?
    ensures Inv(Stopped(s, n))
  {
    var t := s.(queued := s.queued - {Item(Asyncs, n)}, owed := s.owed - {Item(Asyncs, n)});
    ForgetKeeps(s, Item(Asyncs, n));
    if n in s.asyncs {
      DropKeeps(t, SwapRemove(s.asyncs, n));
    }
  }

  /** Forgetting what a watcher is owed. */
  lemma ForgetKeeps(s: State, item: Item)
    requires Inv(s) && s.pc.Dispatch?
    ensures Inv(s.(queued := s.queued - {item}, owed := s.owed - {item}))
  {
    hide SenderAt, Flagging;
    SameSenders(s, s.(queued := s.queued - {item}, owed := s.owed - {item}));
  }

  /** Dropping watchers from the list. */
  lemma DropKeeps(s: State, asyncs: seq<nat>)
    requires Inv(s) && s.pc.Dispatch? && forall n | n in asyncs :: n in s.asyncs
    ensures Inv(s.(asyncs := asyncs))
  {
    var t := s.(asyncs := asyncs);
    assert forall j | 0 <= j < |asyncs| :: asyncs[j] in s.asyncs;
    hide SenderAt, Flagging;
    SameSenders(s, t);
  }

  lemma InvokeKeeps(s: State, item: Item)
    requires Inv(s) && s.pc.Dispatch?
    ensures Inv(Apply(s, Invoke(item)))
  {
    hide SenderAt, Flagging;
    SameSenders(s, Apply(s, Invoke(item)));
  }

  lemma InvStep(s: State, a: Action)
    requires Inv(s) && (a.Call? ==> s.open)
    ensures Inv(Apply(s, a))
  {
    hide Inv;
    match a
    case Call(id, item) => CallKeeps(s, id, item);
    case Send(id) => if id in s.senders { SendKeeps(s, id); }
    case Advance => AdvanceKeeps(s);
    case Wait(_) => PollChoiceKeeps(s, a);
    case Return(_) => PollChoiceKeeps(s, a);
    case InvokePipe => PollChoiceKeeps(s, a);
    case Iterate => PollChoiceKeeps(s, a);
    case Start(item) => if s.pc.Dispatch? && !Watched(s, item) { StartKeeps(s, item); }
    case Stop(n) => if s.pc.Dispatch? { StopKeeps(s, n); }
    case Invoke(item) => if s.pc.Dispatch? { InvokeKeeps(s, item); }
  }

  // ---- Every run -----------------------------------------------------------------------------

  lemma {:induction false} InvRun(s: State, actions: seq<Action>)
    requires Inv(s) && Disciplined(s, actions)
    ensures Inv(Run(s, actions))
    decreases |actions|
  {
    hide Inv, Apply;
    if actions != [] {
      InvStep(s, actions[0]);
      InvRun(Apply(s, actions[0]), actions[1..]);
    }
  }

  lemma InvAtStart(capacity: nat)
    requires capacity >= 1
    ensures Inv(Initial(capacity))
  {
  }

  lemma WaitingHasByte(s: State)
    requires Inv(s) && Waiting(s)
    ensures s.pipe > 0
  {
    var item :| item in s.sent && Watched(s, item);
    var j :| 0 <= j < |List(s, item.c)| && List(s, item.c)[j] == item.n;
    assert item == Item(item.c, List(s, item.c)[j]);
    assert item.c in s.flags;
  }

  /**
   * No lost wake-up: however senders, signals and the loop interleave, when the loop sleeps in the
   * poll, no sender is inside its call and something watched is set, the pipe has a byte that ends
   * the sleep.
   */
  lemma NoLostWakeup(capacity: nat, actions: seq<Action>)
    requires capacity >= 1 && Disciplined(Initial(capacity), actions)
    ensures var s := Run(Initial(capacity), actions);
      Waiting(s) ==> s.pipe > 0
  {
    InvAtStart(capacity);
    InvRun(Initial(capacity), actions);
    var s := Run(Initial(capacity), actions);
    if Waiting(s) {
      WaitingHasByte(s);
    }
  }

  /**
   * No lost event: when the loop sleeps in the poll on an empty pipe and no sender is inside its
   * call, every send to something watched has been answered by a callback that began after it.
   */
  lemma NothingOwedInSleep(capacity: nat, actions: seq<Action>, item: Item)
    requires capacity >= 1 && Disciplined(Initial(capacity), actions)
    ensures var s := Run(Initial(capacity), actions);
      s.pc.Blocked? && s.senders == map[] && s.pipe == 0 && Watched(s, item) ==> item !in s.owed
  {
    InvAtStart(capacity);
    InvRun(Initial(capacity), actions);
    var s := Run(Initial(capacity), actions);
    if s.pc.Blocked? && s.senders == map[] && s.pipe == 0 && Watched(s, item) && item in s.owed {
      assert Waiting(s);
      WaitingHasByte(s);
    }
  }

  // ---- The loop answers ----------------------------------------------------------------------

  /** How many steps the pipe's callback may still take, with n signals and m async watchers. */
  function StepsLeft(pc: LoopPc, n: nat, m: nat): nat {
    match pc
    case CbRead(_) => 3 * n + 3 * m + 8
    case CbClearSkipped => 3 * n + 3 * m + 7
    case CbReadFlag(c) => if c.Signals? then 3 * n + 3 * m + 6 else 3 * m + 3
    case CbClearFlag(c) => if c.Signals? then 3 * n + 3 * m + 5 else 3 * m + 2
    case Scan(c, i) => 3 * i + 1 + if c.Signals? then 3 * m + 3 else 0
    case Take(c, i) => 3 * i + 3 + if c.Signals? then 3 * m + 3 else 0
    case Feed(c, i) => 3 * i + 2 + if c.Signals? then 3 * m + 3 else 0
    case _ => 0
  }

  function Left(s: State): nat {
    StepsLeft(s.pc, |s.signals|, |s.asyncs|)
  }

  function Advances(n: nat): seq<Action> {
    if n == 0 then [] else [Advance] + Advances(n - 1)
  }

  /** What the callback leaves alone. */
  predicate SameRest(s: State, t: State) {
    && t == s.(sent := t.sent, flags := t.flags, skipped := t.skipped, pipe := t.pipe, pc := t.pc, queued := t.queued)
    && (s.signals == [] && s.asyncs == [] ==> t.sent == s.sent && t.queued == s.queued)
    && (s.pipe == 0 ==> t.pipe == 0)
  }

  /** After n steps of its own the loop is back to dispatching, with the flags down. */
  predicate Settles(s: State, n: nat) {
    var t := Run(s, Advances(n));
    t.pc == Dispatch && t.flags == {} && !t.skipped && SameRest(s, t)
  }

  lemma OneMore(s: State, n: nat)
    ensures Run(s, Advances(n + 1)) == Run(LoopStep(s), Advances(n))
    ensures Run(s, Advances(0)) == s
  {
    assert Advances(n + 1)[1..] == Advances(n);
  }

  /** The flags that the callback has already taken down are down, as they stay while no sender moves. */
  predicate Lowered(s: State) {
    match s.pc
    case CbRead(_) => true
    case CbClearSkipped => true
    case CbReadFlag(c) => !s.skipped && (c.Asyncs? ==> Signals !in s.flags)
    case CbClearFlag(c) => !s.skipped && (c.Asyncs? ==> Signals !in s.flags)
    case Scan(c, _) => !s.skipped && Signals !in s.flags && (c.Asyncs? ==> Asyncs !in s.flags)
    case Take(c, _) => !s.skipped && Signals !in s.flags && (c.Asyncs? ==> Asyncs !in s.flags)
    case Feed(c, _) => !s.skipped && Signals !in s.flags && (c.Asyncs? ==> Asyncs !in s.flags)
    case _ => !s.skipped && Signals !in s.flags && Asyncs !in s.flags
  }

  ghost predicate Progress(s: State, t: State) {
    && SameRest(s, t) && ScanInRange(t) && Lowered(t)
    && (if InCallback(t.pc) then Left(t) < Left(s) else t.pc == Dispatch)
  }

  lemma ScanProgress(s: State)
    requires s.pc.Scan? && ScanInRange(s) && Lowered(s)
    ensures Progress(s, LoopStep(s))
  {
    hide LoopStep;
    ScanNext(s);
  }

  lemma FoundProgress(s: State)
    requires (s.pc.Take? || s.pc.Feed?) && ScanInRange(s) && Lowered(s)
    ensures Progress(s, LoopStep(s))
  {
    var c, i := s.pc.c, s.pc.i;
    if s.pc.Take? {
      assert LoopStep(s) == s.(sent := s.sent - {Item(c, List(s, c)[i])}, pc := Feed(c, i));
    } else {
      assert LoopStep(s) == s.(queued := s.queued + {Item(c, List(s, c)[i])}, pc := Scan(c, i));
    }
    hide LoopStep;
  }

  lemma FlagProgress(s: State)
    requires InCallback(s.pc) && !InScan(s.pc) && ScanInRange(s) && Lowered(s)
    ensures Progress(s, LoopStep(s))
  {
    if s.pc.CbReadFlag? || s.pc.CbClearFlag? {
      hide LoopStep;
      ChannelProgress(s);
    }
  }

  lemma ChannelProgress(s: State)
    requires (s.pc.CbReadFlag? || s.pc.CbClearFlag?) && Lowered(s)
    ensures Progress(s, LoopStep(s))
  {
    var c := s.pc.c;
    if s.pc.CbClearFlag? {
      assert LoopStep(s) == s.(flags := s.flags - {c}, pc := Scan(c, |List(s, c)|));
    } else {
      assert LoopStep(s) == s.(pc := if c in s.flags then CbClearFlag(c) else NextChannel(c));
    }
    hide LoopStep;
  }

  lemma CallbackProgress(s: State)
    requires InCallback(s.pc) && ScanInRange(s) && Lowered(s)
    ensures Progress(s, LoopStep(s))
  {
    hide Progress, LoopStep, ScanInRange, Lowered;
    if s.pc.Scan? {
      ScanProgress(s);
    } else if s.pc.Take? || s.pc.Feed? {
      FoundProgress(s);
    } else {
      FlagProgress(s);
    }
  }

  lemma NoFlags(flags: set<Channel>)
    ensures Signals !in flags && Asyncs !in flags ==> flags == {}
  {
    forall c | c in flags ensures c.Signals? || c.Asyncs? {
    }
  }

  lemma SameRestTwice(s: State, t: State, u: State)
    requires SameRest(s, t) && SameRest(t, u)
    ensures SameRest(s, u)
  {
  }

  /** Left alone, the pipe's callback returns with the flags down. */
  lemma {:induction false} CallbackReturns(s: State)
    requires InCallback(s.pc) && ScanInRange(s) && Lowered(s)
    ensures exists n: nat :: Settles(s, n)
    decreases Left(s)
  {
    var s' := LoopStep(s);
    CallbackProgress(s);
    hide Run, Advances, LoopStep, SameRest, ScanInRange;
    if InCallback(s'.pc) {
      CallbackReturns(s');
      var n: nat :| Settles(s', n);
      OneMore(s, n);
      SameRestTwice(s, s', Run(s', Advances(n)));
      assert Settles(s, n + 1);
    } else {
      OneMore(s, 0);
      OneMore(s', 0);
      NoFlags(s'.flags);
      assert Settles(s, 1);
    }
  }

  lemma {:induction false} AdvancesAreDisciplined(s: State, n: nat)
    ensures Disciplined(s, Advances(n))
    decreases n
  {
    hide LoopStep;
    if n > 0 {
      AdvancesAreDisciplined(LoopStep(s), n - 1);
      assert Advances(n)[1..] == Advances(n - 1);
    }
  }

  /** The loop's steps from the poll's return to the start of the pipe's callback. */
  function WakeSteps(s: State): State {
    var cleared := LoopStep(LoopStep(Apply(s, Return(true))));
    Apply(cleared, InvokePipe)
  }

  /** Whatever was owed to something watched in s is queued for it in t. */
  predicate AllQueued(s: State, t: State) {
    && t.asyncs == s.asyncs && t.signals == s.signals
    && forall item | item in s.owed && Watched(s, item) :: item in t.queued
  }

  /**
   * Delivery: woken by the byte and left alone, the loop goes through its callback to a state in
   * which everything watched that is owed a callback is queued for one.
   */
  lemma LoopDelivers(s: State)
    requires Inv(s) && s.pc.Blocked? && s.senders == map[] && s.pipe > 0
    ensures exists n: nat :: Settles(WakeSteps(s), n) && AllQueued(s, Run(WakeSteps(s), Advances(n)))
  {
    var u := WakeSteps(s);
    assert u.pc == CbRead(true) && u.senders == map[];
    assert u.asyncs == s.asyncs && u.signals == s.signals && u.owed == s.owed;
    assert Inv(u) by {
      hide Inv, LoopStep;
      InvStep(s, Return(true));
      InvStep(Apply(s, Return(true)), Advance);
      InvStep(LoopStep(Apply(s, Return(true))), Advance);
      InvStep(LoopStep(LoopStep(Apply(s, Return(true)))), InvokePipe);
    }
    hide LoopStep, Run, Disciplined, WakeSteps;
    CallbackReturns(u);
    var n: nat :| Settles(u, n);
    AdvancesAreDisciplined(u, n);
    InvRun(u, Advances(n));
    SettledMeansQueued(Run(u, Advances(n)));
  }

  /** With the flags down, no sender inside its call and no scan going on, whatever is owed is queued. */
  lemma SettledMeansQueued(t: State)
    requires SentIsFlagged(t) && OwedIsHeld(t) && t.pc == Dispatch && t.flags == {} && t.senders == map[]
    ensures forall item | item in t.owed && Watched(t, item) :: item in t.queued
  {
    forall item | item in t.owed && Watched(t, item) ensures item in t.queued {
      var j :| 0 <= j < |List(t, item.c)| && List(t, item.c)[j] == item.n;
      assert item == Item(item.c, List(t, item.c)[j]);
    }
  }
}
