/**
 * Watched file descriptors: the list of watchers each one has, the descriptors whose state is to
 * be made known to the kernel, and the poll backend's array of descriptors with its index.
 */
module Descriptors {

  /** The EV_READ and EV_WRITE bits of an event mask. */
  datatype Events = Events(read: bool, write: bool)

  const NONE := Events(false, false)

  function Or(a: Events, b: Events): Events {
    Events(a.read || b.read, a.write || b.write)
  }

  /** struct ev_io. fdSet is the EV__IOFDSET bit of its events, which ev_io_set raises. */
  class Io {
    var active: bool
    var fd: nat
    var events: Events
    var fdSet: bool

    constructor (fd: nat, events: Events)
      ensures !active && this.fd == fd && this.events == events && fdSet
    {
      active, this.fd, this.events, fdSet := false, fd, events, true;
    }
  }

  /** The EV_ANFD_REIFY and EV__IOFDSET bits of a descriptor's reify field. */
  datatype Reify = Reify(changed: bool, fdSet: bool)

  const CLEAN := Reify(false, false)

  /** ANFD: the watchers of a descriptor, and what was last told to the backend. */
  datatype Anfd = Anfd(head: seq<Io>, events: Events, reify: Reify)

  /** struct pollfd. */
  datatype PollFd = PollFd(fd: nat, pollin: bool, pollout: bool)

  /** What any of these watchers waits for. */
  ghost function Union(ws: seq<Io>): Events
    reads ws`events
  {
    if ws == [] then NONE else Or(Union(ws[..|ws| - 1]), ws[|ws| - 1].events)
  }

  lemma {:induction false} UnionIs(ws: seq<Io>)
    ensures Union(ws).read <==> exists w | w in ws :: w.events.read
    ensures Union(ws).write <==> exists w | w in ws :: w.events.write
    decreases |ws|
  {
    if ws != [] {
      var last := ws[|ws| - 1];
      UnionIs(ws[..|ws| - 1]);
      assert forall w :: w in ws <==> w in ws[..|ws| - 1] || w == last;
    }
  }

  /** Every descriptor in polls has its place there in pollidxs, and the other way round. */
  ghost predicate Indexed(polls: seq<PollFd>, pollidxs: seq<int>) {
    && (forall i | 0 <= i < |polls| :: polls[i].fd < |pollidxs| && pollidxs[polls[i].fd] == i)
    && (forall fd | 0 <= fd < |pollidxs| ::
          pollidxs[fd] == -1 || (0 <= pollidxs[fd] < |polls| && polls[pollidxs[fd]].fd == fd))
  }

  /** What the kernel is asked about a descriptor. */
  function Asked(polls: seq<PollFd>, pollidxs: seq<int>, fd: nat): Events {
    if fd < |pollidxs| && 0 <= pollidxs[fd] < |polls|
    then Events(polls[pollidxs[fd]].pollin, polls[pollidxs[fd]].pollout)
    else NONE
  }

  class Poll {
    var polls: seq<PollFd>
    var pollidxs: seq<int>

    constructor ()
      ensures Valid() && forall fd: nat :: Asked(polls, pollidxs, fd) == NONE
    {
      polls, pollidxs := [], [];
    }

    /** The index is exact, and no entry asks for nothing. */
    ghost predicate Valid()
      reads this
    {
      Indexed(polls, pollidxs) && forall i | 0 <= i < |polls| :: polls[i].pollin || polls[i].pollout
    }

    /** poll_modify: the entry of fd is made, changed or taken out. */
    method Modify(fd: nat, oev: Events, nev: Events)
      requires Valid() && Asked(polls, pollidxs, fd) == oev
      modifies this
      ensures Valid() && Asked(polls, pollidxs, fd) == nev
      ensures forall f: nat | f != fd :: Asked(polls, pollidxs, f) == old(Asked(polls, pollidxs, f))
    {
      if oev == nev {
        return;
      }
      NeedSize(fd + 1);
      var idx := pollidxs[fd];
      if idx < 0 {
        idx := |polls|;
        pollidxs := pollidxs[fd := idx];
        polls := polls + [PollFd(fd, false, false)];
      }
      if nev != NONE {
        polls := polls[idx := PollFd(fd, nev.read, nev.write)];
      } else {
        TakeOut(fd, idx);
      }
    }

    /** Takes entry idx, that of fd, out of polls; the last entry fills its place. */
    method TakeOut(fd: nat, idx: nat)
      requires Valid() && fd < |pollidxs| && pollidxs[fd] == idx
      modifies this
      ensures Valid() && Asked(polls, pollidxs, fd) == NONE
      ensures forall f: nat | f != fd :: Asked(polls, pollidxs, f) == old(Asked(polls, pollidxs, f))
    {
      pollidxs := pollidxs[fd := -1];
      var last := |polls| - 1;
      if idx < last {
        polls := polls[idx := polls[last]][..last];
        pollidxs := pollidxs[polls[idx].fd := idx];
      } else {
        polls := polls[..last];
      }
    }

    /** array_needsize with pollidx_init: new entries are -1. */
    method NeedSize(cnt: nat)
      requires Valid()
      modifies `pollidxs
      ensures Valid() && |pollidxs| >= cnt
      ensures forall f: nat :: Asked(polls, pollidxs, f) == old(Asked(polls, pollidxs, f))
    {
      while |pollidxs| < cnt
        invariant Valid()
        invariant forall f: nat :: Asked(polls, pollidxs, f) == old(Asked(polls, pollidxs, f))
      {
        pollidxs := pollidxs + [-1];
      }
    }
  }

  predicate Distinct<T(==)>(xs: seq<T>) {
    forall i, j | 0 <= i < j < |xs| :: xs[i] != xs[j]
  }

  /** The descriptors with a reify flag are those on the list of changes, each there once. */
  ghost predicate Listed(anfds: seq<Anfd>, fdchanges: seq<nat>) {
    && Distinct(fdchanges)
    && forall fd: nat :: fd in fdchanges <==> fd < |anfds| && anfds[fd].reify != CLEAN
  }

  /** The watchers in the lists are those of ws, each once, in the list of its descriptor. */
  ghost predicate Linked(anfds: seq<Anfd>, ws: set<Io>)
    reads ws`fd, ws`active
  {
    && (forall fd | 0 <= fd < |anfds| ::
          Distinct(anfds[fd].head) && forall w | w in anfds[fd].head :: w in ws && w.fd == fd)
    && (forall w | w in ws :: w.active && w.fd < |anfds| && w in anfds[w.fd].head)
  }

  function Told(anfds: seq<Anfd>, fd: nat): Events {
    if fd < |anfds| then anfds[fd].events else NONE
  }

  function Watchers(anfds: seq<Anfd>, fd: nat): seq<Io> {
    if fd < |anfds| then anfds[fd].head else []
  }

  /** What the watchers of a descriptor, all of them in ws, wait for. */
  ghost function Wanted(anfds: seq<Anfd>, ws: set<Io>, fd: nat): Events
    reads ws`events
  {
    if forall w | w in Watchers(anfds, fd) :: w in ws then Union(Watchers(anfds, fd)) else NONE
  }

  /** A descriptor not marked for reifying has been told what its watchers wait for. */
  ghost predicate Current(anfds: seq<Anfd>, ws: set<Io>)
    reads ws`events
  {
    forall fd: nat | fd < |anfds| && anfds[fd].reify == CLEAN :: anfds[fd].events == Wanted(anfds, ws, fd)
  }

  /** The kernel is asked about each descriptor what was last told to the backend. */
  ghost predicate Synced(anfds: seq<Anfd>, poll: Poll)
    reads poll
  {
    poll.Valid() && forall fd: nat :: Asked(poll.polls, poll.pollidxs, fd) == Told(anfds, fd)
  }

  // ---- What a change of one descriptor keeps ---------------------------------------------------

  lemma GrowKeeps(anfds: seq<Anfd>, fdchanges: seq<nat>, ws: set<Io>, poll: Poll)
    requires Listed(anfds, fdchanges) && Linked(anfds, ws) && Current(anfds, ws) && Synced(anfds, poll)
    ensures var g := anfds + [Anfd([], NONE, CLEAN)];
      Listed(g, fdchanges) && Linked(g, ws) && Current(g, ws) && Synced(g, poll)
  {
    var g := anfds + [Anfd([], NONE, CLEAN)];
    forall fd: nat | fd < |g| && g[fd].reify == CLEAN ensures g[fd].events == Wanted(g, ws, fd) {
      if fd < |anfds| {
        assert Watchers(g, fd) == Watchers(anfds, fd);
      }
    }
  }

  lemma AddKeeps(anfds: seq<Anfd>, ws: set<Io>, w: Io, r: Reify)
    requires Linked(anfds, ws) && Current(anfds, ws) && w !in ws && w.active && w.fd < |anfds| && r != CLEAN
    ensures var g := anfds[w.fd := Anfd([w] + anfds[w.fd].head, anfds[w.fd].events, r)];
      Linked(g, ws + {w}) && Current(g, ws + {w}) && Watchers(g, w.fd) == [w] + Watchers(anfds, w.fd)
  {
    var g := anfds[w.fd := Anfd([w] + anfds[w.fd].head, anfds[w.fd].events, r)];
    forall fd: nat | fd < |g| && g[fd].reify == CLEAN ensures g[fd].events == Wanted(g, ws + {w}, fd) {
      assert Watchers(g, fd) == Watchers(anfds, fd);
      assert g[fd].events == Wanted(anfds, ws, fd);
    }
  }

  /** The list without the first w. */
  function Without(ws: seq<Io>, w: Io): (r: seq<Io>)
    ensures (forall v | v in r :: v in ws) && (forall v | v in ws && v != w :: v in r)
  {
    if ws == [] then []
    else if ws[0] == w then ws[1..]
    else [ws[0]] + Without(ws[1..], w)
  }

  lemma {:induction false} WithoutIsDistinct(ws: seq<Io>, w: Io)
    requires Distinct(ws)
    ensures Distinct(Without(ws, w)) && w !in Without(ws, w)
  {
    if ws != [] && ws[0] != w {
      WithoutIsDistinct(ws[1..], w);
      var r := Without(ws[1..], w);
      assert ws[0] !in r;
      assert forall i | 0 < i < |r| + 1 :: ([ws[0]] + r)[i] == r[i - 1];
    }
  }

  lemma {:induction false} WithoutIs(ws: seq<Io>, w: Io, i: nat)
    requires i <= |ws| && w !in ws[..i] && (i < |ws| ==> ws[i] == w)
    ensures Without(ws, w) == if i < |ws| then ws[..i] + ws[i + 1..] else ws
    decreases i
  {
    if i > 0 {
      assert ws[1..][..i - 1] == ws[..i][1..];
      WithoutIs(ws[1..], w, i - 1);
      assert ws[0] == ws[..i][0];
    }
  }

  /** wlist_del: down the list to w, which is then linked out. */
  method WlistDel(ws: seq<Io>, w: Io) returns (rest: seq<Io>)
    ensures rest == Without(ws, w)
  {
    rest := ws;
    var i := 0;
    while i < |ws|
      invariant i <= |ws| && w !in ws[..i]
    {
      if ws[i] == w {
        rest := ws[..i] + ws[i + 1..];
        break;
      }
      i := i + 1;
    }
    WithoutIs(ws, w, i);
  }

  lemma InLists(anfds: seq<Anfd>, ws: set<Io>, w: Io)
    requires Linked(anfds, ws) && w in ws
    ensures w.fd < |anfds| && Distinct(anfds[w.fd].head)
  {
  }

  lemma RemoveKeeps(anfds: seq<Anfd>, ws: set<Io>, w: Io, fd: nat, r: Reify)
    requires Linked(anfds, ws) && Current(anfds, ws) && w in ws && w.fd == fd && r != CLEAN
    ensures fd < |anfds|
    ensures var g := anfds[fd := Anfd(Without(anfds[fd].head, w), anfds[fd].events, r)];
      Linked(g, ws - {w}) && Current(g, ws - {w})
  {
    var g := anfds[fd := Anfd(Without(anfds[fd].head, w), anfds[fd].events, r)];
    WithoutIsDistinct(anfds[fd].head, w);
    forall f: nat | f < |g| && g[f].reify == CLEAN ensures g[f].events == Wanted(g, ws - {w}, f) {
      assert Watchers(g, f) == Watchers(anfds, f);
      assert g[f].events == Wanted(anfds, ws, f);
    }
  }

  /** Changing only the watchers and the mark of a descriptor. */
  lemma RelinkKeeps(anfds: seq<Anfd>, poll: Poll, fd: nat, head: seq<Io>, r: Reify)
    requires fd < |anfds| && Synced(anfds, poll)
    ensures var g := anfds[fd := Anfd(head, anfds[fd].events, r)];
      Synced(g, poll) && forall f: nat | f != fd :: Watchers(g, f) == Watchers(anfds, f)
  {
  }

  /** A descriptor's mark goes once its events are those of its watchers. */
  lemma CleanKeeps(anfds: seq<Anfd>, ws: set<Io>, fd: nat, events: Events)
    requires fd < |anfds| && Linked(anfds, ws) && Current(anfds, ws) && events == Union(anfds[fd].head)
    ensures var g := anfds[fd := Anfd(anfds[fd].head, events, CLEAN)];
      Linked(g, ws) && Current(g, ws)
  {
    hide Union;
    var g := anfds[fd := Anfd(anfds[fd].head, events, CLEAN)];
    forall f: nat | f < |g| && g[f].reify == CLEAN ensures g[f].events == Wanted(g, ws, f) {
      assert Watchers(g, f) == Watchers(anfds, f);
      assert f != fd ==> g[f].events == Wanted(anfds, ws, f);
    }
  }

  lemma AllClean(anfds: seq<Anfd>, ws: set<Io>, poll: Poll)
    requires Current(anfds, ws) && Synced(anfds, poll)
    requires forall fd | 0 <= fd < |anfds| :: anfds[fd].reify == CLEAN
    ensures Listed(anfds, [])
    ensures forall fd: nat :: Asked(poll.polls, poll.pollidxs, fd) == Wanted(anfds, ws, fd)
  {
  }

  /** The part of the loop that knows about descriptors. */
  class Loop {
    var anfds: seq<Anfd>
    var fdchanges: seq<nat>
    const poll: Poll
    var activecnt: int
    ghost var started: set<Io>

    constructor ()
      ensures Valid() && Counted() && started == {} && fresh(poll) && activecnt == 0
    {
      poll := new Poll();
      anfds, fdchanges, activecnt, started := [], [], 0, {};
    }

    ghost predicate Valid()
      reads this`anfds, this`fdchanges, this`started, poll, started`fd, started`active, started`events
    {
      && Listed(anfds, fdchanges) && Linked(anfds, started) && Current(anfds, started) && Synced(anfds, poll)
    }

    /** The count of active watchers, which keeps ev_run going. */
    ghost predicate Counted()
      reads this`activecnt, this`started
    {
      activecnt == |started|
    }

    /** The descriptor will be reified, and has the flags that it had before and those it has got. */
    ghost predicate Marked(fd: nat, before: Reify, flags: Reify)
      reads this`anfds, this`fdchanges
    {
      && fd < |anfds| && fd in fdchanges && anfds[fd].reify.changed
      && (anfds[fd].reify.fdSet <==> before.fdSet || flags.fdSet)
    }

    ghost function MarkOf(fd: nat): Reify
      reads this`anfds
    {
      if fd < |anfds| then anfds[fd].reify else CLEAN
    }

    /** fd_change: marks the descriptor, and lists it if it was not marked. */
    method FdChange(fd: nat, flags: Reify)
      requires Listed(anfds, fdchanges) && fd < |anfds| && flags.changed
      modifies `anfds, `fdchanges
      ensures Listed(anfds, fdchanges) && |anfds| == |old(anfds)| && Marked(fd, old(anfds[fd].reify), flags)
      ensures anfds == old(anfds)[fd := old(anfds)[fd].(reify := anfds[fd].reify)]
    {
      var reify := anfds[fd].reify;
      anfds := anfds[fd := anfds[fd].(reify := Reify(reify.changed || flags.changed, reify.fdSet || flags.fdSet))];
      if reify == CLEAN {
        fdchanges := fdchanges + [fd];
      }
    }

    /** array_needsize with zeroed entries. */
    method NeedSize(cnt: nat)
      requires Valid()
      modifies `anfds
      ensures Valid() && |anfds| >= cnt && old(anfds) <= anfds
      ensures forall fd: nat :: MarkOf(fd) == old(MarkOf(fd))
      ensures forall fd: nat :: Watchers(anfds, fd) == old(Watchers(anfds, fd))
    {
      hide Listed, Linked, Current, Synced;
      while |anfds| < cnt
        invariant Valid() && old(anfds) <= anfds && forall fd: nat :: MarkOf(fd) == old(MarkOf(fd))
        invariant forall fd: nat :: Watchers(anfds, fd) == old(Watchers(anfds, fd))
      {
        GrowKeeps(anfds, fdchanges, started, poll);
        anfds := anfds + [Anfd([], NONE, CLEAN)];
      }
    }

    method IoStart(w: Io)
      requires Valid() && Counted() && (w.active <==> w in started)
      modifies `anfds, `fdchanges, `activecnt, `started, w`active, w`fdSet
      ensures Valid() && Counted() && started == old(started) + {w} && w.active
      ensures if old(w.active) then anfds == old(anfds) && w.fdSet == old(w.fdSet) && activecnt == old(activecnt)
        else !w.fdSet && activecnt == old(activecnt) + 1 && Marked(w.fd, old(MarkOf(w.fd)), Reify(true, old(w.fdSet)))
      ensures Watchers(anfds, w.fd) ==
        if old(w.active) then old(Watchers(anfds, w.fd)) else [w] + old(Watchers(anfds, w.fd))
      ensures forall fd: nat | fd != w.fd :: Watchers(anfds, fd) == old(Watchers(anfds, fd))
    {
      hide Valid, Watchers;
      if w.active {
        assert started == started + {w};
        return;
      }
      activecnt := activecnt + 1;
      NeedSize(w.fd + 1);
      assert anfds[w.fd].reify == MarkOf(w.fd) == old(MarkOf(w.fd));
      Link(w);
      w.fdSet := false;
    }

    /** wlist_add and fd_change for a watcher that becomes active. */
    method Link(w: Io)
      requires Valid() && !w.active && w !in started && w.fd < |anfds|
      modifies `anfds, `fdchanges, `started, w`active
      ensures Valid() && started == old(started) + {w} && w.active
      ensures Marked(w.fd, old(anfds[w.fd].reify), Reify(true, w.fdSet))
      ensures Watchers(anfds, w.fd) == [w] + old(Watchers(anfds, w.fd))
      ensures forall fd: nat | fd != w.fd :: Watchers(anfds, fd) == old(Watchers(anfds, fd))
    {
      hide Linked, Current, Synced, Watchers;
      ghost var before := anfds;
      var fd := w.fd;
      w.active := true;
      Relink(fd, [w] + anfds[fd].head, Reify(true, w.fdSet));
      AddKeeps(before, started, w, anfds[fd].reify);
      RelinkKeeps(before, poll, fd, [w] + before[fd].head, anfds[fd].reify);
      started := started + {w};
    }

    /** Gives a descriptor another list of watchers and marks it. */
    method Relink(fd: nat, head: seq<Io>, flags: Reify)
      requires Listed(anfds, fdchanges) && fd < |anfds| && flags.changed
      modifies `anfds, `fdchanges
      ensures Listed(anfds, fdchanges) && |anfds| == |old(anfds)| && Marked(fd, old(anfds[fd].reify), flags)
      ensures anfds == old(anfds)[fd := Anfd(head, old(anfds)[fd].events, anfds[fd].reify)]
    {
      anfds := anfds[fd := anfds[fd].(head := head)];
      FdChange(fd, flags);
    }

    /** The descriptor part of ev_io_stop; its clear_pending is that of the pending queues. */
    method IoStop(w: Io)
      requires Valid() && Counted() && (w.active <==> w in started)
      modifies `anfds, `fdchanges, `activecnt, `started, w`active
      ensures Valid() && Counted() && started == old(started) - {w} && !w.active
      ensures activecnt == old(activecnt) - if old(w.active) then 1 else 0
      ensures old(w.active) ==> Marked(w.fd, old(MarkOf(w.fd)), Reify(true, false))
      ensures Watchers(anfds, w.fd) ==
        if old(w.active) then Without(old(Watchers(anfds, w.fd)), w) else old(Watchers(anfds, w.fd))
      ensures forall fd: nat | fd != w.fd :: Watchers(anfds, fd) == old(Watchers(anfds, fd))
    {
      if !w.active {
        return;
      }
      hide Valid;
      Unlink(w);
      activecnt := activecnt - 1;
    }

    /** wlist_del and fd_change for a watcher that becomes inactive. */
    method Unlink(w: Io)
      requires Valid() && w in started
      modifies `anfds, `fdchanges, `started, w`active
      ensures Valid() && started == old(started) - {w} && !w.active
      ensures w.fd < |old(anfds)| && Marked(w.fd, old(anfds)[w.fd].reify, Reify(true, false))
      ensures forall fd: nat | fd != w.fd :: Watchers(anfds, fd) == old(Watchers(anfds, fd))
      ensures Watchers(anfds, w.fd) == Without(old(Watchers(anfds, w.fd)), w)
    {
      hide Linked, Current, Synced, Without;
      ghost var before := anfds;
      var fd := w.fd;
      InLists(anfds, started, w);
      var rest := WlistDel(anfds[fd].head, w);
      Relink(fd, rest, Reify(true, false));
      RemoveKeeps(before, started, w, fd, anfds[fd].reify);
      RelinkKeeps(before, poll, fd, rest, anfds[fd].reify);
      started := started - {w};
      w.active := false;
    }

    /** After fd_reify: nothing is marked, and the kernel is asked exactly what the watchers wait for. */
    ghost predicate KernelAgrees()
      reads this`anfds, this`fdchanges, this`started, poll, started`events
    {
      && fdchanges == [] && (forall fd | 0 <= fd < |anfds| :: anfds[fd].reify == CLEAN)
      && forall fd: nat :: Asked(poll.polls, poll.pollidxs, fd) == Wanted(anfds, started, fd)
    }

    method FdReify()
      requires Valid()
      modifies `anfds, `fdchanges, poll
      ensures Valid() && KernelAgrees()
      ensures forall fd: nat :: Watchers(anfds, fd) == old(Watchers(anfds, fd))
    {
      hide Linked, Current, Synced;
      for i := 0 to |fdchanges|
        invariant fdchanges == old(fdchanges) && forall fd | fd in fdchanges :: fd < |anfds|
        invariant Linked(anfds, started) && Current(anfds, started) && Synced(anfds, poll)
        invariant |anfds| == |old(anfds)|
        invariant forall fd: nat | fd < |anfds| :: anfds[fd].head == old(anfds)[fd].head
        invariant forall fd: nat | fd < |anfds| && anfds[fd].reify != CLEAN :: fd in fdchanges[i..]
      {
        assert fdchanges[i] in fdchanges;
        ReifyOne(fdchanges[i]);
      }
      assert fdchanges[|fdchanges|..] == [];
      fdchanges := [];
      AllClean(anfds, started, poll);
    }

    /** One descriptor: its mark goes, its events are those of its watchers, and the backend is told of a change. */
    method ReifyOne(fd: nat)
      requires fd < |anfds| && Linked(anfds, started) && Current(anfds, started) && Synced(anfds, poll)
      modifies `anfds, poll
      ensures Linked(anfds, started) && Current(anfds, started) && Synced(anfds, poll)
      ensures |anfds| == |old(anfds)| && anfds[fd].reify == CLEAN
      ensures forall f: nat | f < |anfds| && f != fd :: anfds[f] == old(anfds)[f]
      ensures anfds[fd].head == old(anfds)[fd].head
    {
      var oEvents, oReify := anfds[fd].events, anfds[fd].reify;
      var events := NONE;
      var head := anfds[fd].head;
      for j := 0 to |head|
        invariant events == Union(head[..j])
      {
        events := Or(events, head[j].events);
        assert head[..j + 1][..j] == head[..j];
      }
      assert head[..|head|] == head;
      CleanKeeps(anfds, started, fd, events);
      hide Linked, Current, Union;
      anfds := anfds[fd := Anfd(head, events, CLEAN)];
      if oEvents != events {
        oReify := oReify.(fdSet := true);
      }
      if oReify.fdSet {
        poll.Modify(fd, oEvents, events);
      }
    }

    /**
     * When the kernel agrees, the poll array holds a descriptor exactly if an active watcher of it
     * waits for something, holds it once, and asks what those watchers wait for.
     */
    lemma PollsExactly(fd: nat)
      requires Valid() && KernelAgrees()
      ensures (exists i | 0 <= i < |poll.polls| :: poll.polls[i].fd == fd)
        <==> exists w | w in Watchers(anfds, fd) :: w.events.read || w.events.write
      ensures forall i, j | 0 <= i < |poll.polls| && 0 <= j < |poll.polls| ::
        poll.polls[i].fd == poll.polls[j].fd == fd ==> i == j
      ensures forall i | 0 <= i < |poll.polls| && poll.polls[i].fd == fd ::
        && (poll.polls[i].pollin <==> exists w | w in Watchers(anfds, fd) :: w.events.read)
        && (poll.polls[i].pollout <==> exists w | w in Watchers(anfds, fd) :: w.events.write)
    {
      var ws := Watchers(anfds, fd);
      assert Wanted(anfds, started, fd) == Union(ws);
      UnionIs(ws);
      var asked := Asked(poll.polls, poll.pollidxs, fd);
      assert asked == Union(ws);
      hide Linked, Current, Synced, Listed, Union, Wanted, Watchers, KernelAgrees;
      if asked != NONE {
        assert poll.polls[poll.pollidxs[fd]].fd == fd;
      }
    }
  }
}
