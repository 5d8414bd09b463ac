/**
 * Sends before the first start has made the pipe, and sends still in progress at that moment: which
 * states of the loop they may leave behind, and from which of them wake-ups can be lost.
 */
module EarlySends {
  import opened Wakeup

  // ---- No send before the first start ---------------------------------------------------------

  predicate UnopenedIsQuiet(s: State) {
    !s.open ==> !s.skipped && s.senders == map[]
  }

  lemma UnopenedPoll(s: State)
    requires UnopenedIsQuiet(s)
    ensures UnopenedIsQuiet(PollStep(s))
  {
  }

  lemma UnopenedCallback(s: State)
    requires UnopenedIsQuiet(s)
    ensures UnopenedIsQuiet(CallbackStep(s))
  {
    hide ScanStep, List;
    UnopenedScan(s);
  }

  lemma UnopenedScan(s: State)
    requires UnopenedIsQuiet(s)
    ensures UnopenedIsQuiet(ScanStep(s))
  {
  }

  lemma UnopenedSend(s: State, id: nat)
    requires UnopenedIsQuiet(s)
    ensures UnopenedIsQuiet(Apply(s, Send(id)))
  {
    if s.open && id in s.senders {
      assert SenderStep(s, id).open;
    }
  }

  lemma UnopenedStep(s: State, a: Action)
    requires UnopenedIsQuiet(s) && (a.Call? ==> s.open)
    ensures UnopenedIsQuiet(Apply(s, a))
  {
    if a.Advance? {
      hide PollStep, CallbackStep;
      UnopenedPoll(s);
      UnopenedCallback(s);
    } else if a.Send? {
      hide Apply;
      UnopenedSend(s, a.id);
    }
  }

  lemma {:induction false} UnopenedStaysQuiet(s: State, actions: seq<Action>)
    requires UnopenedIsQuiet(s) && Disciplined(s, actions)
    ensures UnopenedIsQuiet(Run(s, actions))
    decreases |actions|
  {
    hide Apply, UnopenedIsQuiet;
    if actions != [] {
      UnopenedStep(s, actions[0]);
      UnopenedStaysQuiet(Apply(s, actions[0]), actions[1..]);
    }
  }

  /** The assertion in ev_run: a skipped write is only ever seen with the pipe's watcher active. */
  lemma SkippedOnlyWhenOpen(capacity: nat, actions: seq<Action>)
    requires Disciplined(Initial(capacity), actions)
    ensures var s := Run(Initial(capacity), actions);
      s.pc.CheckSkipped? && s.skipped ==> s.open
  {
    UnopenedStaysQuiet(Initial(capacity), actions);
  }

  // ---- Runs in pieces ------------------------------------------------------------------------

  lemma {:induction false} RunAppend(s: State, first: seq<Action>, rest: seq<Action>)
    ensures Run(s, first + rest) == Run(Run(s, first), rest)
    ensures Disciplined(s, first + rest) <==> Disciplined(s, first) && Disciplined(Run(s, first), rest)
    decreases |first|
  {
    hide Apply;
    if first == [] {
      assert first + rest == rest;
    } else {
      assert (first + rest)[1..] == first[1..] + rest;
      RunAppend(Apply(s, first[0]), first[1..], rest);
    }
  }

  lemma RunOne(s: State, a: Action)
    ensures Run(s, [a]) == Apply(s, a)
    ensures Disciplined(s, [a]) <==> (a.Call? ==> s.open)
  {
    hide Apply;
    assert [a][1..] == [];
    assert Run(Apply(s, a), []) == Apply(s, a);
  }

  lemma RunTwo(s: State, a: Action, b: Action)
    requires !a.Call? && !b.Call?
    ensures Run(s, [a, b]) == Apply(Apply(s, a), b) && Disciplined(s, [a, b])
  {
    hide Apply, Run, Disciplined;
    assert [a, b] == [a] + [b];
    RunOne(s, a);
    RunOne(Apply(s, a), b);
    RunAppend(s, [a], [b]);
  }

  lemma RunThree(s: State, a: Action, b: Action, c: Action)
    requires !a.Call? && !b.Call? && !c.Call?
    ensures Run(s, [a, b, c]) == Apply(Apply(Apply(s, a), b), c) && Disciplined(s, [a, b, c])
  {
    hide Apply, Run, Disciplined;
    assert [a, b, c] == [a, b] + [c];
    RunTwo(s, a, b);
    RunOne(Apply(Apply(s, a), b), c);
    RunAppend(s, [a, b], [c]);
  }

  lemma ApplyIterate(s: State)
    requires s.pc == Dispatch && NothingPending(s)
    ensures Apply(s, Iterate) == s.(pc := SetWanted)
  {
  }

  lemma ApplyWanted(s: State)
    requires s.pc == SetWanted
    ensures Apply(s, Advance) == s.(pc := Decide, wanted := true)
  {
  }

  lemma ApplyWait(s: State, mayWait: bool)
    requires s.pc == Decide
    ensures Apply(s, Wait(mayWait)) == s.(pc := if mayWait && !s.skipped then Sleeping else PollNow)
  {
  }

  lemma ApplyReturn(s: State)
    requires s.pc == PollNow
    ensures Apply(Apply(s, Return(false)), Advance) == s.(pc := CheckSkipped, wanted := false)
  {
    var t := s.(pc := ClearWanted);
    assert Apply(s, Return(false)) == t;
    assert Apply(t, Advance) == s.(pc := CheckSkipped, wanted := false);
  }

  /** An iteration up to the poll, without waiting or to sleep in it. */
  lemma EntersPoll(s: State)
    requires s.pc == Dispatch && NothingPending(s)
    ensures Disciplined(s, [Iterate, Advance, Wait(false)])
    ensures Run(s, [Iterate, Advance, Wait(false)]) == s.(pc := PollNow, wanted := true)
  {
    hide Apply, Run, Disciplined;
    ApplyIterate(s);
    ApplyWanted(s.(pc := SetWanted));
    ApplyWait(s.(pc := Decide, wanted := true), false);
    RunThree(s, Iterate, Advance, Wait(false));
  }

  lemma GoesToSleep(s: State)
    requires s.pc == Dispatch && NothingPending(s) && !s.skipped
    ensures Disciplined(s, [Iterate, Advance, Wait(true)] + [Advance])
    ensures Run(s, [Iterate, Advance, Wait(true)] + [Advance]) == s.(pc := Blocked, wanted := true)
  {
    var t := s.(pc := Sleeping, wanted := true);
    assert Apply(t, Advance) == s.(pc := Blocked, wanted := true);
    hide Apply, Run, Disciplined;
    ApplyIterate(s);
    ApplyWanted(s.(pc := SetWanted));
    ApplyWait(s.(pc := Decide, wanted := true), true);
    RunThree(s, Iterate, Advance, Wait(true));
    RunOne(t, Advance);
    RunAppend(s, [Iterate, Advance, Wait(true)], [Advance]);
  }

  /** The poll returns for some other reason, up to the look at the skipped write. */
  lemma ReturnsFromPoll(s: State)
    requires s.pc == PollNow
    ensures Disciplined(s, [Return(false), Advance])
    ensures Run(s, [Return(false), Advance]) == s.(pc := CheckSkipped, wanted := false)
  {
    hide Apply, Run, Disciplined;
    ApplyReturn(s);
    RunTwo(s, Return(false), Advance);
  }

  /** And back to the callbacks. */
  lemma LeavesPoll(s: State)
    requires s.pc == PollNow
    ensures Disciplined(s, [Return(false), Advance] + [Advance])
    ensures Run(s, [Return(false), Advance] + [Advance])
      == s.(pc := Dispatch, wanted := false, pipeCustom := s.pipeCustom || s.skipped)
  {
    ReturnsFromPoll(s);
    var t := s.(pc := CheckSkipped, wanted := false);
    assert Apply(t, Advance) == s.(pc := Dispatch, wanted := false, pipeCustom := s.pipeCustom || s.skipped);
    hide Apply, Run, Disciplined;
    RunOne(t, Advance);
    RunAppend(s, [Return(false), Advance], [Advance]);
  }

  // ---- A sender finishes without a pipe ---------------------------------------------------------

  /** A flag is up, and nothing will make the loop look at it. */
  predicate Stuck(s: State) {
    s.flags != {} && !s.skipped
  }

  /** Once the sender has gone on to its end, with the loop in the poll and no pipe, a flag is stuck. */
  predicate Stirs(s: State, sender: Sender) {
    match sender.pc
    case SetSent => sender.item.c !in s.flags || Stuck(s)
    case ReadFlag => sender.item.c !in s.flags || Stuck(s)
    case SetFlag => true
    case SetSkipped => s.flags != {}
    case ReadWanted => s.flags != {}
    case ClearSkipped => s.flags != {}
    case Write => Stuck(s)
  }

  function StepsToGo(pc: SenderPc): nat {
    match pc
    case SetSent => 7 case ReadFlag => 6 case SetFlag => 5 case SetSkipped => 4
    case ReadWanted => 3 case ClearSkipped => 2 case Write => 1
  }

  /** The loop is in the poll and there is no pipe. */
  predicate Deaf(s: State) {
    s.pc == PollNow && s.wanted && !s.open
  }

  /** What senders change while the loop is there. */
  predicate OnlySent(s: State, t: State) {
    t == s.(sent := t.sent, owed := t.owed, flags := t.flags, skipped := t.skipped, senders := t.senders)
      && (Attached(s) ==> Attached(t))
  }

  /** The sender has made a step. */
  predicate GoesOn(s: State, t: State, id: nat)
    requires id in s.senders
  {
    && OnlySent(s, t) && t.senders - {id} == s.senders - {id}
    && (id in t.senders ==> StepsToGo(t.senders[id].pc) < StepsToGo(s.senders[id].pc))
    && (Stirs(s, s.senders[id]) ==> if id in t.senders then Stirs(t, t.senders[id]) else Stuck(t))
  }

  lemma SenderGoesOn(s: State, id: nat)
    requires Deaf(s) && id in s.senders
    ensures GoesOn(s, SenderStep(s, id), id)
  {
    var pc := s.senders[id].pc;
    if pc.SetSent? || pc.ReadFlag? || pc.SetFlag? {
      hide SenderStep;
      FlagHalf(s, id);
    } else {
      hide SenderStep;
      WakeHalf(s, id);
    }
  }

  lemma FlagHalf(s: State, id: nat)
    requires Deaf(s) && id in s.senders
    requires s.senders[id].pc.SetSent? || s.senders[id].pc.ReadFlag? || s.senders[id].pc.SetFlag?
    ensures GoesOn(s, SenderStep(s, id), id)
  {
    match s.senders[id].pc
    case SetSent =>
    case ReadFlag =>
    case SetFlag =>
  }

  lemma WakeHalf(s: State, id: nat)
    requires Deaf(s) && id in s.senders
    requires !s.senders[id].pc.SetSent? && !s.senders[id].pc.ReadFlag? && !s.senders[id].pc.SetFlag?
    ensures GoesOn(s, SenderStep(s, id), id)
  {
    match s.senders[id].pc
    case SetSkipped =>
    case ReadWanted =>
    case ClearSkipped =>
    case Write =>
  }

  lemma OnlySentTwice(s: State, t: State, u: State)
    requires OnlySent(s, t) && OnlySent(t, u)
    ensures OnlySent(s, u)
  {
  }

  /** One sender runs to its end. */
  lemma {:induction false} SenderEnds(s: State, id: nat) returns (actions: seq<Action>)
    requires Deaf(s) && id in s.senders
    ensures Disciplined(s, actions)
    ensures var t := Run(s, actions);
      && OnlySent(s, t) && t.senders == s.senders - {id} && (Stirs(s, s.senders[id]) ==> Stuck(t))
    decreases StepsToGo(s.senders[id].pc)
  {
    var t := SenderStep(s, id);
    assert Apply(s, Send(id)) == t;
    SenderGoesOn(s, id);
    hide Run, Disciplined, OnlySent, Stirs, Stuck, Apply, SenderStep;
    RunOne(s, Send(id));
    if id in t.senders {
      assert Deaf(t) by { StillDeaf(s, t); }
      var rest := SenderEnds(t, id);
      RunAppend(s, [Send(id)], rest);
      OnlySentTwice(s, t, Run(t, rest));
      actions := [Send(id)] + rest;
    } else {
      assert t.senders == s.senders - {id};
      actions := [Send(id)];
    }
  }

  lemma StillDeaf(s: State, t: State)
    requires Deaf(s) && OnlySent(s, t)
    ensures Deaf(t)
  {
  }

  lemma StuckStirs(s: State, sender: Sender)
    requires Stuck(s)
    ensures Stirs(s, sender)
  {
  }

  /** With a flag stuck, all senders run to their ends and leave it so. */
  lemma {:induction false} AllEnd(s: State) returns (actions: seq<Action>)
    requires Deaf(s) && Stuck(s)
    ensures Disciplined(s, actions)
    ensures var t := Run(s, actions); OnlySent(s, t) && t.senders == map[] && Stuck(t)
    decreases |s.senders.Keys|
  {
    if s.senders == map[] {
      actions := [];
    } else {
      var id :| id in s.senders;
      StuckStirs(s, s.senders[id]);
      hide Run, Disciplined, OnlySent, Stirs, Stuck;
      var first := SenderEnds(s, id);
      var t := Run(s, first);
      StillDeaf(s, t);
      assert t.senders.Keys == s.senders.Keys - {id};
      var rest := AllEnd(t);
      RunAppend(s, first, rest);
      OnlySentTwice(s, t, Run(t, rest));
      actions := first + rest;
    }
  }

  // ---- The first start -----------------------------------------------------------------------

  /** What is so wherever the loop and the senders are before the first start: nothing is watched, and there is no
      pipe. The loop may have noticed a skipped write. */
  predicate BeforeStart(s: State) {
    && s.signals == [] && s.asyncs == [] && !s.open && s.pipe == 0 && s.capacity >= 1
    && Attached(s) && !s.pipeRead && s.queued == {} && !s.pc.Register?
  }

  /** The first start may come: the loop is between callbacks; senders may be anywhere in their calls. */
  predicate Unstarted(s: State) {
    BeforeStart(s) && s.pc == Dispatch
  }

  predicate NoStart(actions: seq<Action>) {
    forall a | a in actions :: !a.Start?
  }

  lemma BeforeStartPoll(s: State)
    requires BeforeStart(s)
    ensures BeforeStart(PollStep(s))
  {
  }

  lemma BeforeStartCallback(s: State)
    requires BeforeStart(s)
    ensures BeforeStart(CallbackStep(s))
  {
    if InScan(s.pc) {
      BeforeStartScan(s);
    }
  }

  lemma BeforeStartScan(s: State)
    requires BeforeStart(s)
    ensures BeforeStart(ScanStep(s))
  {
  }

  lemma BeforeStartSend(s: State, id: nat)
    requires BeforeStart(s) && id in s.senders
    ensures BeforeStart(SenderStep(s, id))
  {
    match s.senders[id].pc
    case SetSent =>
    case ReadFlag =>
    case SetFlag =>
    case SetSkipped =>
    case ReadWanted =>
    case ClearSkipped =>
    case Write =>
  }

  lemma BeforeStartStep(s: State, a: Action)
    requires BeforeStart(s) && !a.Start?
    ensures BeforeStart(Apply(s, a))
  {
    if a.Advance? {
      hide PollStep, CallbackStep;
      BeforeStartPoll(s);
      BeforeStartCallback(s);
    } else if a.Send? {
      hide SenderStep;
      if a.id in s.senders {
        BeforeStartSend(s, a.id);
      }
    }
  }

  lemma {:induction false} BeforeStartRun(s: State, actions: seq<Action>)
    requires BeforeStart(s) && NoStart(actions)
    ensures BeforeStart(Run(s, actions))
    decreases |actions|
  {
    hide Apply, BeforeStart;
    if actions != [] {
      BeforeStartStep(s, actions[0]);
      BeforeStartRun(Apply(s, actions[0]), actions[1..]);
    }
  }

  /** Nobody is about to put a flag up; and if one is up, then the loop has noticed a skipped write, or one is noted
      and nobody will take that back. */
  predicate Calm(s: State) {
    AllLate(s) && (s.flags != {} ==> s.pipeCustom || (s.skipped && AllWrite(s)))
  }

  /** The run that loses a wake-up when a flag is up and nothing will lower it. */
  lemma StuckLoses(s: State) returns (actions: seq<Action>)
    requires Unstarted(s) && !s.pipeCustom && s.senders == map[] && Stuck(s)
    ensures Disciplined(s, actions) && Waiting(Run(s, actions)) && Run(s, actions).pipe == 0
  {
    var c :| c in s.flags;
    var item := Item(c, 0);
    var first, sleep, send := [Start(item), Advance], [Iterate, Advance, Wait(true)] + [Advance], SendSeesFlagRun(item);
    var s1 := Apply(Apply(s, Start(item)), Advance);
    assert FirstStarted(s, s1, item);
    hide Run, Disciplined, Apply;
    RunTwo(s, Start(item), Advance);
    GoesToSleep(s1);
    var s2 := s1.(pc := Blocked, wanted := true);
    SendSeesFlag(s2, item);
    RunAppend(s1, sleep, send);
    RunAppend(s, first, sleep + send);
    actions := first + (sleep + send);
  }

  /** The first start has made the pipe, and the item is watched. */
  predicate FirstStarted(s: State, t: State, item: Item) {
    && t.pc == Dispatch && NothingPending(t) && t.open && t.pipe == s.pipe && t.senders == s.senders
    && t.flags == s.flags && t.skipped == s.skipped && Watched(t, item)
  }

  function SendSeesFlagRun(item: Item): seq<Action> {
    [Call(0, item)] + [Send(0), Send(0)]
  }

  /** A send that finds the flag up sets its item and returns. */
  lemma SendSeesFlag(s: State, item: Item)
    requires item.c in s.flags && s.open && s.senders == map[] && Watched(s, item)
    ensures Disciplined(s, SendSeesFlagRun(item))
    ensures Run(s, SendSeesFlagRun(item)) == s.(sent := s.sent + {item}, owed := s.owed + {item})
  {
    var s1 := Apply(s, Call(0, item));
    assert s1 == s.(senders := map[0 := Sender(item, SetSent)]);
    var s2 := Apply(s1, Send(0));
    assert s2 == s.(sent := s.sent + {item}, owed := s.owed + {item}, senders := map[0 := Sender(item, ReadFlag)]);
    assert Apply(s2, Send(0)) == s.(sent := s.sent + {item}, owed := s.owed + {item});
    hide Run, Disciplined, Apply;
    RunOne(s, Call(0, item));
    RunTwo(s1, Send(0), Send(0));
    RunAppend(s, [Call(0, item)], [Send(0), Send(0)]);
  }

  /** With somebody to stir, or a flag stuck, an iteration in which all senders finish leaves a flag stuck. */
  lemma StirredSticks(s: State) returns (actions: seq<Action>)
    requires s.pc == Dispatch && NothingPending(s) && !s.open
    requires Stuck(s) || exists id | id in s.senders :: Stirs(s, s.senders[id])
    ensures Disciplined(s, actions)
    ensures var t := Run(s, actions);
      && Stuck(t) && t.senders == map[] && (Attached(s) ==> Attached(t))
      && t == s.(sent := t.sent, owed := t.owed, flags := t.flags, skipped := t.skipped, senders := map[],
                 wanted := false)
  {
    var enter, leave := [Iterate, Advance, Wait(false)], [Return(false), Advance] + [Advance];
    EntersPoll(s);
    var s1 := s.(pc := PollNow, wanted := true);
    hide Run, Disciplined;
    var send := Stirring(s1);
    var s2 := Run(s1, send);
    LeavesPoll(s2);
    RunAppend(s1, send, leave);
    RunAppend(s, enter, send + leave);
    actions := enter + (send + leave);
  }

  lemma Stirring(s: State) returns (actions: seq<Action>)
    requires Deaf(s) && (Stuck(s) || exists id | id in s.senders :: Stirs(s, s.senders[id]))
    ensures Disciplined(s, actions)
    ensures var t := Run(s, actions); OnlySent(s, t) && t.senders == map[] && Stuck(t)
  {
    hide Run, Disciplined, OnlySent, Stirs, Stuck;
    if Stuck(s) {
      actions := AllEnd(s);
    } else {
      var id :| id in s.senders && Stirs(s, s.senders[id]);
      var first := SenderEnds(s, id);
      var t := Run(s, first);
      StillDeaf(s, t);
      var rest := AllEnd(t);
      RunAppend(s, first, rest);
      OnlySentTwice(s, t, Run(t, rest));
      actions := first + rest;
    }
  }

  lemma SkippedCallback(s: State) returns (n: nat)
    requires s.pc == Dispatch && s.pipeCustom && !s.pipeRead && s.signals == [] && s.asyncs == []
    requires s.pipe == 0
    ensures Disciplined(s, [InvokePipe] + Advances(n))
    ensures Run(s, [InvokePipe] + Advances(n)) == s.(flags := {}, skipped := false, pipeCustom := false)
  {
    var t := s.(pipeCustom := false, pc := CbRead(false));
    assert Apply(s, InvokePipe) == t;
    hide Run, Disciplined, Apply;
    RunOne(s, InvokePipe);
    CallbackReturns(t);
    n :| Settles(t, n);
    AdvancesAreDisciplined(t, n);
    RunAppend(s, [InvokePipe], Advances(n));
  }

  /** The loop sees the skipped write, and its callback takes the flags down. */
  lemma SkippedIsHeard(s: State) returns (actions: seq<Action>)
    requires Unstarted(s) && !s.pipeCustom && s.skipped
    ensures Disciplined(s, actions)
    ensures Run(s, actions) == s.(flags := {}, skipped := false, wanted := false)
  {
    var enter, leave := [Iterate, Advance, Wait(false)], [Return(false), Advance] + [Advance];
    EntersPoll(s);
    var s1 := s.(pc := PollNow, wanted := true);
    LeavesPoll(s1);
    var s2 := s.(wanted := false, pipeCustom := true);
    hide Run, Disciplined, Apply;
    var n := SkippedCallback(s2);
    RunAppend(s1, leave, [InvokePipe] + Advances(n));
    RunAppend(s, enter, leave + ([InvokePipe] + Advances(n)));
    actions := enter + (leave + ([InvokePipe] + Advances(n)));
  }

  /** From a state that is not calm, some run loses a wake-up. */
  lemma UncalmLoses(s: State) returns (actions: seq<Action>)
    requires Unstarted(s) && !Calm(s)
    ensures Disciplined(s, actions) && Waiting(Run(s, actions)) && Run(s, actions).pipe == 0
  {
    if s.pipeCustom {
      actions := NoticedLoses(s);
    } else if Stuck(s) || exists id | id in s.senders :: Stirs(s, s.senders[id]) {
      actions := StirredLoses(s);
    } else {
      var id := Unstirred(s);
      var first := SkippedIsHeard(s);
      var t := s.(flags := {}, skipped := false, wanted := false);
      assert Stirs(t, t.senders[id]);
      hide Run, Disciplined;
      var rest := StirredLoses(t);
      RunAppend(s, first, rest);
      actions := first + rest;
    }
  }

  /** Though the loop has noticed a skipped write: its callback comes before the sender's flag. */
  lemma NoticedLoses(s: State) returns (actions: seq<Action>)
    requires Unstarted(s) && s.pipeCustom && !AllLate(s)
    ensures Disciplined(s, actions) && Waiting(Run(s, actions)) && Run(s, actions).pipe == 0
  {
    var id :| id in s.senders && !Late(s.senders[id].pc);
    var n := SkippedCallback(s);
    var first, t := [InvokePipe] + Advances(n), s.(flags := {}, skipped := false, pipeCustom := false);
    assert Stirs(t, t.senders[id]);
    hide Run, Disciplined;
    var rest := StirredLoses(t);
    RunAppend(s, first, rest);
    actions := first + rest;
  }

  /** If a state is not calm though nobody stirs, then the skipped write is noted and somebody is yet to read its
      flag. */
  lemma Unstirred(s: State) returns (id: nat)
    requires !Calm(s) && !Stuck(s) && !exists id | id in s.senders :: Stirs(s, s.senders[id])
    ensures s.skipped && id in s.senders && (s.senders[id].pc.SetSent? || s.senders[id].pc.ReadFlag?)
  {
    LateIsCalm(s);
    id :| id in s.senders && !Late(s.senders[id].pc);
    assert !Stirs(s, s.senders[id]);
  }

  lemma LateIsCalm(s: State)
    requires !Stuck(s) && !exists id | id in s.senders :: Stirs(s, s.senders[id])
    ensures AllLate(s) ==> Calm(s)
  {
    forall id | id in s.senders && s.flags != {} && AllLate(s) ensures s.senders[id].pc.Write? {
      assert !Stirs(s, s.senders[id]);
    }
  }

  lemma StirredLoses(s: State) returns (actions: seq<Action>)
    requires Unstarted(s) && !s.pipeCustom && (Stuck(s) || exists id | id in s.senders :: Stirs(s, s.senders[id]))
    ensures Disciplined(s, actions) && Waiting(Run(s, actions)) && Run(s, actions).pipe == 0
  {
    hide Run, Disciplined;
    var first := StirredSticks(s);
    var rest := StuckLoses(Run(s, first));
    RunAppend(s, first, rest);
    actions := first + rest;
  }

  /**
   * The first start, exactly: whatever senders are doing when it comes, every later run, with no new
   * send before it, is free of lost wake-ups if and only if the state is calm.
   */
  lemma SafeIffCalm(s: State)
    requires Unstarted(s)
    ensures (forall actions | Disciplined(s, actions) :: Waiting(Run(s, actions)) ==> Run(s, actions).pipe > 0)
      <==> Calm(s)
  {
    if Calm(s) {
      assert Inv(s);
      forall actions | Disciplined(s, actions)
        ensures Waiting(Run(s, actions)) ==> Run(s, actions).pipe > 0
      {
        InvRun(s, actions);
        if Waiting(Run(s, actions)) {
          WaitingHasByte(Run(s, actions));
        }
      }
    } else {
      var actions := UncalmLoses(s);
    }
  }

  /** Whatever a program has done before its first start, that start comes in a state to which this applies. */
  lemma FirstStart(capacity: nat, before: seq<Action>)
    requires capacity >= 1 && NoStart(before)
    ensures var s := Run(Initial(capacity), before);
      s.pc == Dispatch ==>
        ((forall actions | Disciplined(s, actions) :: Waiting(Run(s, actions)) ==> Run(s, actions).pipe > 0)
         <==> Calm(s))
  {
    assert BeforeStart(Initial(capacity));
    BeforeStartRun(Initial(capacity), before);
    var s := Run(Initial(capacity), before);
    hide Run, Disciplined, Waiting, Calm, BeforeStart;
    if s.pc == Dispatch {
      SafeIffCalm(s);
    }
  }

  // ---- Where early sends lead ----------------------------------------------------------------

  const WATCHER := Item(Asyncs, 0)

  /** An early send in progress, in a new loop: two actions lead to a state that is not calm. */
  lemma EarlySendUncalm(capacity: nat)
    requires capacity >= 1
    ensures var s := Run(Initial(capacity), [Call(0, WATCHER)] + [Send(0)]);
      Unstarted(s) && !Calm(s) && s.flags == {}
  {
    var s0 := Initial(capacity);
    var s1 := s0.(senders := map[0 := Sender(WATCHER, SetSent)]);
    assert Apply(s0, Call(0, WATCHER)) == s1;
    hide Run, Disciplined;
    RunOne(s0, Call(0, WATCHER));
    RunOne(s1, Send(0));
    RunAppend(s0, [Call(0, WATCHER)], [Send(0)]);
    assert Apply(s1, Send(0)).senders == map[0 := Sender(WATCHER, ReadFlag)];
    assert !Late(Apply(s1, Send(0)).senders[0].pc);
  }

  /** An early send that has returned can leave the flag up, with nothing that will lower it. */
  lemma EarlySendSticks(capacity: nat) returns (actions: seq<Action>)
    requires capacity >= 1
    ensures var s := Run(Initial(capacity), actions);
      Unstarted(s) && s.senders == map[] && Stuck(s) && !s.pipeCustom && !Calm(s)
  {
    var s0 := Initial(capacity);
    var s1 := s0.(senders := map[0 := Sender(WATCHER, SetSent)]);
    assert Apply(s0, Call(0, WATCHER)) == s1;
    assert Stirs(s1, s1.senders[0]);
    hide Run, Disciplined;
    RunOne(s0, Call(0, WATCHER));
    var rest := StirredSticks(s1);
    RunAppend(s0, [Call(0, WATCHER)], rest);
    actions := [Call(0, WATCHER)] + rest;
  }

  /** The state with one sender, at this step. */
  function Alone(s: State, pc: SenderPc): State {
    s.(senders := map[0 := Sender(WATCHER, pc)])
  }

  lemma AloneAt(s: State, pc: SenderPc, next: SenderPc)
    ensures At(Alone(s, pc), 0, next) == Alone(s, next)
  {
  }

  /** The first half of an early send: its item is set, a flag is up, and a skipped write is noted. */
  lemma FirstHalf(s: State)
    requires s.flags == {}
    ensures Run(Alone(s, SetSent), [Send(0), Send(0)] + [Send(0), Send(0)])
      == Alone(s.(sent := s.sent + {WATCHER}, owed := s.owed + {WATCHER}, flags := {Asyncs}, skipped := true),
               ReadWanted)
  {
    hide Run, Disciplined;
    var t := s.(sent := s.sent + {WATCHER}, owed := s.owed + {WATCHER});
    assert Apply(Alone(s, SetSent), Send(0)) == Alone(t, ReadFlag) by { AloneAt(t, SetSent, ReadFlag); }
    assert Apply(Alone(t, ReadFlag), Send(0)) == Alone(t, SetFlag) by { AloneAt(t, ReadFlag, SetFlag); }
    hide Alone;
    SecondQuarter(t);
    hide Apply;
    RunTwo(Alone(s, SetSent), Send(0), Send(0));
    RunAppend(Alone(s, SetSent), [Send(0), Send(0)], [Send(0), Send(0)]);
  }

  lemma SecondQuarter(s: State)
    requires s.flags == {}
    ensures Run(Alone(s, SetFlag), [Send(0), Send(0)]) == Alone(s.(flags := {Asyncs}, skipped := true), ReadWanted)
  {
    hide Run, Disciplined;
    var t, u := s.(flags := {Asyncs}), s.(flags := {Asyncs}, skipped := true);
    assert Apply(Alone(s, SetFlag), Send(0)) == Alone(t, SetSkipped) by { AloneAt(t, SetFlag, SetSkipped); }
    assert Apply(Alone(t, SetSkipped), Send(0)) == Alone(u, ReadWanted) by { AloneAt(u, SetSkipped, ReadWanted); }
    hide Alone, Apply;
    RunTwo(Alone(s, SetFlag), Send(0), Send(0));
  }

  /** An early send halfway through, in a new loop that is in its first poll. */
  function HalfSend(): seq<Action> {
    [Iterate, Advance, Wait(false)] + ([Call(0, WATCHER)] + ([Send(0), Send(0)] + [Send(0), Send(0)]))
  }

  function HalfSent(capacity: nat): State {
    Alone(Initial(capacity).(pc := PollNow, wanted := true, sent := {WATCHER}, owed := {WATCHER}, flags := {Asyncs},
                             skipped := true), ReadWanted)
  }

  lemma HalfSendRuns(capacity: nat)
    ensures Run(Initial(capacity), HalfSend()) == HalfSent(capacity) && NoStart(HalfSend())
  {
    var s0 := Initial(capacity);
    var s1 := s0.(pc := PollNow, wanted := true);
    EntersPoll(s0);
    assert Apply(s1, Call(0, WATCHER)) == Alone(s1, SetSent);
    FirstHalf(s1);
    hide Run, Disciplined, Apply;
    RunOne(s1, Call(0, WATCHER));
    var a := [Send(0), Send(0)] + [Send(0), Send(0)];
    RunAppend(s1, [Call(0, WATCHER)], a);
    RunAppend(s0, [Iterate, Advance, Wait(false)], [Call(0, WATCHER)] + a);
  }

  /** It can have the loop see a skipped write without a pipe: the assertion in ev_run fails. */
  lemma EarlySendTripsAssertion(capacity: nat)
    ensures exists actions ::
      var s := Run(Initial(capacity), actions);
      s.pc.CheckSkipped? && s.skipped && !s.open
  {
    HalfSendRuns(capacity);
    ReturnsFromPoll(HalfSent(capacity));
    hide Run, Disciplined, HalfSend;
    RunAppend(Initial(capacity), HalfSend(), [Return(false), Advance]);
    assert Run(Initial(capacity), HalfSend() + [Return(false), Advance]).skipped;
  }

  /** The first start may come when the loop has noticed a skipped write, with a flag up and a sender in its call. */
  predicate Noticed(s: State) {
    Unstarted(s) && s.pipeCustom && s.flags != {} && s.senders != map[]
  }

  lemma NoticedAfterHalf(capacity: nat, s: State)
    requires capacity >= 1 && s == HalfSent(capacity).(pc := Dispatch, wanted := false, pipeCustom := true)
    ensures Noticed(s) && Calm(s)
  {
    assert s.senders == map[0 := Sender(WATCHER, ReadWanted)];
    assert s.sent == {WATCHER} && s.owed == {WATCHER} && s.flags == {Asyncs};
    assert Asyncs in s.flags && 0 in s.senders;
    assert Attached(s);
    assert BeforeStart(s);
  }

  /** That does happen, and the state is calm then, since the callback is bound to come. */
  lemma NoticedIsCalm(capacity: nat) returns (actions: seq<Action>)
    requires capacity >= 1
    ensures NoStart(actions) && Noticed(Run(Initial(capacity), actions)) && Calm(Run(Initial(capacity), actions))
  {
    var half := HalfSent(capacity);
    var s := half.(pc := Dispatch, wanted := false, pipeCustom := true);
    var leave := [Return(false), Advance] + [Advance];
    NoticedAfterHalf(capacity, s);
    assert half.skipped && half.pc == PollNow;
    hide Run, Disciplined, HalfSend, HalfSent, Alone, Noticed, Calm;
    HalfSendRuns(capacity);
    LeavesPoll(half);
    RunAppend(Initial(capacity), HalfSend(), leave);
    actions := HalfSend() + leave;
    assert Run(Initial(capacity), actions) == s;
  }
}
