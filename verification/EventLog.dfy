/** What has been fed, cleared and invoked, and what is due at any moment of that history. */
module EventLog {
  import opened TimerHeap

  /** A set of event flags: the C int of a revents argument. */
  datatype Mask = Mask(bits: bv32)

  const NOTHING := Mask(0)

  /** pri is the priority field of the watcher at that moment. */
  datatype Event =
    | Fed(w: Watcher, mask: Mask, pri: int)
    | Cleared(w: Watcher)
    | Invoked(w: Watcher, mask: Mask, pri: int)

  /** The flags of both. */
  function Join(m: Mask, n: Mask): Mask {
    Mask(m.bits | n.bits)
  }

  /** Every flag of part is set in m. */
  predicate Includes(m: Mask, part: Mask) {
    m.bits & part.bits == part.bits
  }

  /** A pending event: its flags, its watcher's priority, and the entry that put it on a queue. */
  datatype Due = Due(mask: Mask, pri: int, since: nat)

  /** What is due after entry n: flags accumulate until they are cleared or delivered. */
  ghost function After(due: map<Watcher, Due>, e: Event, n: nat): map<Watcher, Due> {
    match e
    case Fed(w, mask, pri) => due[w := if w in due then due[w].(mask := Join(due[w].mask, mask)) else Due(mask, pri, n)]
    case Cleared(w) => due - {w}
    case Invoked(w, _, _) => due - {w}
  }

  ghost function DueOf(log: seq<Event>): map<Watcher, Due> {
    if log == [] then map[] else After(DueOf(log[..|log| - 1]), log[|log| - 1], |log| - 1)
  }

  /** An invocation takes exactly what is due to the watcher of highest priority, the last queued of those. */
  ghost predicate Rightful(due: map<Watcher, Due>, e: Event) {
    e.Invoked? ==>
      && e.w in due && due[e.w].mask == e.mask && due[e.w].pri == e.pri
      && forall v | v in due :: due[v].pri < e.pri || (due[v].pri == e.pri && due[v].since <= due[e.w].since)
  }

  ghost predicate Proper(log: seq<Event>) {
    forall i | 0 <= i < |log| :: Rightful(DueOf(log[..i]), log[i])
  }

  lemma Append(log: seq<Event>, e: Event)
    ensures DueOf(log + [e]) == After(DueOf(log), e, |log|)
    ensures Proper(log) && Rightful(DueOf(log), e) ==> Proper(log + [e])
  {
    var log' := log + [e];
    assert log'[..|log|] == log;
    if Proper(log) && Rightful(DueOf(log), e) {
      forall i | 0 <= i < |log'| ensures Rightful(DueOf(log'[..i]), log'[i]) {
        assert i < |log| ==> log'[..i] == log[..i];
      }
    }
  }

  ghost predicate Past(due: map<Watcher, Due>, n: nat) {
    forall w | w in due :: due[w].since < n
  }

  lemma {:induction false} DueIsPast(log: seq<Event>)
    ensures Past(DueOf(log), |log|)
  {
    if log != [] {
      DueIsPast(log[..|log| - 1]);
    }
  }

  /** Entries i to j - 1 are not answers to w. */
  ghost predicate Unanswered(log: seq<Event>, w: Watcher, i: nat, j: nat)
    requires j <= |log|
  {
    forall k | i <= k < j :: log[k].Fed? || log[k].w != w
  }

  lemma {:induction false} FedStaysDue(log: seq<Event>, i: nat, j: nat)
    requires i < j <= |log| && log[i].Fed? && Unanswered(log, log[i].w, i, j)
    ensures log[i].w in DueOf(log[..j])
    ensures Includes(DueOf(log[..j])[log[i].w].mask, log[i].mask)
    ensures log[i].w !in DueOf(log[..i]) ==>
      DueOf(log[..j])[log[i].w].since == i && DueOf(log[..j])[log[i].w].pri == log[i].pri
    decreases j
  {
    hide Join, Includes;
    var prev := log[..j - 1];
    assert log[..j][..j - 1] == prev && log[..j][j - 1] == log[j - 1];
    if j - 1 > i {
      FedStaysDue(log, i, j - 1);
      if log[j - 1].w == log[i].w {
        JoinGrows(DueOf(prev)[log[i].w].mask, log[j - 1].mask, log[i].mask);
      }
    } else {
      JoinIncludes(if log[i].w in DueOf(prev) then DueOf(prev)[log[i].w].mask else NOTHING, log[i].mask);
    }
  }

  lemma JoinGrows(m: Mask, n: Mask, part: Mask)
    ensures Includes(m, part) ==> Includes(Join(m, n), part)
  {
  }

  lemma JoinIncludes(m: Mask, part: Mask)
    ensures Includes(Join(m, part), part) && Includes(part, part)
  {
  }

  /** The answer to the event fed at i: the first clearing or invocation of its watcher after it. */
  ghost predicate Answers(log: seq<Event>, i: nat, j: nat)
    requires i < |log| && log[i].Fed?
  {
    i < j < |log| && log[j].w == log[i].w && !log[j].Fed? && Unanswered(log, log[i].w, i, j)
  }

  /**
   * Conservation: in a proper history after which nothing is due, every event fed is answered by
   * exactly one entry, and if that is an invocation then its mask has all the flags that were fed.
   */
  lemma EveryFedIsAnswered(log: seq<Event>, i: nat)
    requires Proper(log) && DueOf(log) == map[] && i < |log| && log[i].Fed?
    ensures exists j: nat :: Answers(log, i, j)
    ensures forall j: nat, k: nat | Answers(log, i, j) && Answers(log, i, k) :: j == k
    ensures forall j: nat | Answers(log, i, j) && log[j].Invoked? :: Includes(log[j].mask, log[i].mask)
  {
    var w := log[i].w;
    if Unanswered(log, w, i, |log|) {
      assert log[..|log|] == log;
      FedStaysDue(log, i, |log|);
    } else {
      FirstAnswer(log, i, |log|);
    }
    forall j: nat | Answers(log, i, j) && log[j].Invoked?
      ensures Includes(log[j].mask, log[i].mask)
    {
      FedStaysDue(log, i, j);
      assert Rightful(DueOf(log[..j]), log[j]);
    }
  }

  lemma {:induction false} FirstAnswer(log: seq<Event>, i: nat, n: nat)
    requires i < n <= |log| && log[i].Fed? && !Unanswered(log, log[i].w, i, n)
    ensures exists j: nat :: Answers(log, i, j) && j < n
    decreases n
  {
    if Unanswered(log, log[i].w, i, n - 1) {
      assert Answers(log, i, n - 1);
    } else {
      FirstAnswer(log, i, n - 1);
    }
  }

  /** Entry i put its watcher on a queue, rather than adding flags to a pending one. */
  ghost predicate PutsOnQueue(log: seq<Event>, i: nat) {
    i < |log| && log[i].Fed? && log[i].w !in DueOf(log[..i])
  }

  /**
   * Last in, first out: of two watchers put on the same queue, the one put there later is answered
   * before the other is invoked, whatever callbacks do in between.
   */
  lemma LaterQueuedIsAnsweredFirst(log: seq<Event>, early: nat, late: nat, j: nat)
    requires Proper(log) && PutsOnQueue(log, early) && PutsOnQueue(log, late) && early < late
    requires log[early].pri == log[late].pri && log[early].w != log[late].w
    requires Answers(log, early, j) && log[j].Invoked? && late < j
    ensures exists i: nat :: Answers(log, late, i) && i < j
  {
    assert Rightful(DueOf(log[..j]), log[j]);
    if Unanswered(log, log[late].w, late, j) {
      FedStaysDue(log, early, j);
      FedStaysDue(log, late, j);
    } else {
      FirstAnswer(log, late, j);
    }
  }

  predicate Has(mask: Mask, flag: Mask) {
    mask.bits & flag.bits != 0
  }

  /** Entry i fed w the flag, and w has not been answered since. */
  ghost predicate FedBy(log: seq<Event>, w: Watcher, flag: Mask, i: nat) {
    i < |log| && log[i].Fed? && log[i].w == w && Has(log[i].mask, flag) && Unanswered(log, w, i, |log|)
  }

  lemma FlagsSplit(m: Mask, n: Mask, flag: Mask)
    ensures Has(Join(m, n), flag) ==> Has(m, flag) || Has(n, flag)
  {
  }

  /** Nothing is made up: a flag that is due was fed since the watcher was last answered. */
  lemma {:induction false} DueWasFed(log: seq<Event>, w: Watcher, flag: Mask)
    requires w in DueOf(log) && Has(DueOf(log)[w].mask, flag)
    ensures exists i: nat :: FedBy(log, w, flag, i)
  {
    hide Has, Join;
    var prev := log[..|log| - 1];
    var e := log[|log| - 1];
    if e.Fed? && e.w == w && Has(e.mask, flag) {
      assert FedBy(log, w, flag, |log| - 1);
    } else {
      if e.Fed? && e.w == w && w in DueOf(prev) {
        FlagsSplit(DueOf(prev)[w].mask, e.mask, flag);
      }
      DueWasFed(prev, w, flag);
      var i: nat :| FedBy(prev, w, flag, i);
      assert forall k | i <= k < |prev| :: log[k] == prev[k];
      assert FedBy(log, w, flag, i);
    }
  }
}
