/** Watchers, and the 4-ary heap of timers with back-indices and cached expiry times. */
module TimerHeap {

  /** The fields of struct ev_watcher and of ev_timer that the loop reads or writes. */
  class Watcher {
    const isTimer: bool
    var active: nat
    var pending: nat
    var priority: int
    var at: real
    var repeats: real

    /** ev_init and ev_timer_set. */
    constructor (isTimer: bool, priority: int, after: real, repeats: real)
      ensures this.isTimer == isTimer && this.priority == priority
      ensures active == 0 && pending == 0 && at == after && this.repeats == repeats
    {
      this.isTimer, this.priority, this.at, this.repeats := isTimer, priority, after, repeats;
      active, pending := 0, 0;
    }
  }

  /** A heap node: the watcher and a copy of its expiry time. */
  datatype Node = Node(w: Watcher, at: real)

  const DHEAP := 4
  const HEAP0 := DHEAP - 1

  /** Division as C does it, toward zero. */
  function Quotient(a: int, b: int): int
    requires b > 0
  {
    if a >= 0 then a / b else -((-a) / b)
  }

  function Parent(k: nat): (p: int)
    requires k >= HEAP0
    ensures HEAP0 <= p <= k
    ensures p == k <==> k == HEAP0
  {
    Quotient(k - HEAP0 - 1, DHEAP) + HEAP0
  }

  lemma ChildRange(k: nat, j: nat)
    requires k >= HEAP0 && j > HEAP0
    ensures Parent(j) == k <==> 4 * k - 8 <= j < 4 * k - 4
  {
  }

  /** No node expires before its parent, among the first n nodes. */
  ghost predicate Ordered(h: seq<Node>, n: nat)
    requires n + HEAP0 <= |h|
  {
    forall j | HEAP0 < j < n + HEAP0 :: h[Parent(j)].at <= h[j].at
  }

  /** Every watcher of ws is in its place, and nothing else is. */
  ghost predicate Placed(h: seq<Node>, n: nat, ws: set<Watcher>)
    requires n + HEAP0 <= |h|
    reads ws`active
  {
    && (forall i | HEAP0 <= i < n + HEAP0 :: h[i].w in ws && h[i].w.active == i)
    && (forall w | w in ws :: HEAP0 <= w.active < n + HEAP0 && h[w.active].w == w)
  }

  ghost predicate Cached(h: seq<Node>, n: nat, ws: set<Watcher>)
    requires n + HEAP0 <= |h|
    reads ws`at
  {
    forall i | HEAP0 <= i < n + HEAP0 && h[i].w in ws :: h[i].at == h[i].w.at
  }

  /** As Placed, except that the watcher of node k may carry any index. */
  ghost predicate PlacedBut(h: seq<Node>, n: nat, ws: set<Watcher>, k: nat)
    requires n + HEAP0 <= |h| && HEAP0 <= k < n + HEAP0
    reads ws`active
  {
    && h[k].w in ws
    && (forall i | HEAP0 <= i < n + HEAP0 && i != k :: h[i].w in ws && h[i].w.active == i && h[i].w != h[k].w)
    && (forall w | w in ws && w != h[k].w :: HEAP0 <= w.active < n + HEAP0 && w.active != k && h[w.active].w == w)
  }

  /** Ordered except between k and its children, which are not before k's parent. */
  ghost predicate MaySink(h: seq<Node>, n: nat, k: nat)
    requires n + HEAP0 <= |h| && HEAP0 <= k < n + HEAP0
  {
    && (forall j | HEAP0 < j < n + HEAP0 && Parent(j) != k :: h[Parent(j)].at <= h[j].at)
    && (k > HEAP0 ==> forall j | HEAP0 < j < n + HEAP0 && Parent(j) == k :: h[Parent(k)].at <= h[j].at)
  }

  /** Ordered except between k and its parent, which is not after k's children. */
  ghost predicate MayRise(h: seq<Node>, n: nat, k: nat)
    requires n + HEAP0 <= |h| && HEAP0 <= k < n + HEAP0
  {
    && (forall j | HEAP0 < j < n + HEAP0 && j != k :: h[Parent(j)].at <= h[j].at)
    && (k > HEAP0 ==> forall j | HEAP0 < j < n + HEAP0 && Parent(j) == k :: h[Parent(k)].at <= h[j].at)
  }

  function Swap(h: seq<Node>, i: nat, j: nat): seq<Node>
    requires i < |h| && j < |h|
  {
    h[i := h[j]][j := h[i]]
  }

  /** The child c of k that expires first. */
  ghost predicate FirstChild(h: seq<Node>, n: nat, k: nat, c: nat)
    requires n + HEAP0 <= |h| && HEAP0 <= k < n + HEAP0
  {
    && HEAP0 < c < n + HEAP0 && Parent(c) == k
    && forall j | HEAP0 < j < n + HEAP0 && Parent(j) == k :: h[c].at <= h[j].at
  }

  lemma SinkStep(h: seq<Node>, n: nat, k: nat, c: nat)
    requires n + HEAP0 <= |h| && HEAP0 <= k < n + HEAP0
    requires MaySink(h, n, k) && FirstChild(h, n, k, c) && h[c].at < h[k].at
    ensures MaySink(Swap(h, k, c), n, c)
  {
    hide Quotient;
    var g := Swap(h, k, c);
    forall j | HEAP0 < j < n + HEAP0 && Parent(j) != c
      ensures g[Parent(j)].at <= g[j].at
    {
    }
    forall j | HEAP0 < j < n + HEAP0 && Parent(j) == c
      ensures g[Parent(c)].at <= g[j].at
    {
      assert h[Parent(j)].at <= h[j].at;
    }
  }

  lemma RiseStep(h: seq<Node>, n: nat, k: nat)
    requires n + HEAP0 <= |h| && HEAP0 < k < n + HEAP0
    requires MayRise(h, n, k) && h[k].at < h[Parent(k)].at
    ensures MayRise(Swap(h, k, Parent(k)), n, Parent(k))
  {
    hide Quotient;
    var p := Parent(k);
    var g := Swap(h, k, p);
    forall j | HEAP0 < j < n + HEAP0 && j != p
      ensures g[Parent(j)].at <= g[j].at
    {
    }
    if p > HEAP0 {
      forall j | HEAP0 < j < n + HEAP0 && Parent(j) == p
        ensures g[Parent(p)].at <= g[j].at
      {
        assert h[Parent(p)].at <= h[p].at;
      }
    }
  }

  lemma NoChildren(h: seq<Node>, n: nat, k: nat)
    requires n + HEAP0 <= |h| && HEAP0 <= k < n + HEAP0
    requires DHEAP * (k - HEAP0) + HEAP0 + 1 >= n + HEAP0
    requires MaySink(h, n, k)
    ensures Ordered(h, n)
  {
    forall j | HEAP0 < j < n + HEAP0 ensures h[Parent(j)].at <= h[j].at {
      ChildRange(k, j);
    }
  }

  /** The array holds h, but for the node in hand, which belongs at k. */
  ghost predicate Holds(heap: array<Node>, h: seq<Node>, k: nat)
    reads heap
  {
    && |h| == heap.Length && k < |h|
    && forall i | 0 <= i < heap.Length && i != k :: heap[i] == h[i]
  }

  /** The child to compare with: of all four where there are four, else of those before the end, three at most. */
  method MinChild(heap: array<Node>, n: nat, k: nat, ghost h: seq<Node>) returns (c: nat)
    requires n + HEAP0 <= heap.Length && HEAP0 <= k < n + HEAP0
    requires Holds(heap, h, k)
    requires DHEAP * (k - HEAP0) + HEAP0 + 1 < n + HEAP0
    ensures FirstChild(h, n, k, c) && k < c && heap[c] == h[c]
  {
    var pos := DHEAP * (k - HEAP0) + HEAP0 + 1;
    var e := n + HEAP0;
    c := pos;
    if pos + DHEAP - 1 < e {
      if heap[pos + 1].at < heap[c].at { c := pos + 1; }
      if heap[pos + 2].at < heap[c].at { c := pos + 2; }
      if heap[pos + 3].at < heap[c].at { c := pos + 3; }
    } else {
      if pos + 1 < e && heap[pos + 1].at < heap[c].at { c := pos + 1; }
      if pos + 2 < e && heap[pos + 2].at < heap[c].at { c := pos + 2; }
    }
    ChildRange(k, c);
    forall j | HEAP0 < j < n + HEAP0 && Parent(j) == k
      ensures h[c].at <= h[j].at
    {
      ChildRange(k, j);
    }
  }

  /** Fills place k with the node at c, which leaves c to be filled. */
  method MoveNode(heap: array<Node>, k: nat, c: nat, ghost h: seq<Node>, ghost n: nat, ghost ws: set<Watcher>)
    requires n + HEAP0 <= heap.Length && HEAP0 <= k < n + HEAP0 && HEAP0 <= c < n + HEAP0 && c != k
    requires Holds(heap, h, k) && PlacedBut(h, n, ws, k)
    modifies heap, h[c].w`active
    ensures Holds(heap, Swap(h, k, c), c) && PlacedBut(Swap(h, k, c), n, ws, c)
  {
    heap[k] := heap[c];
    heap[k].w.active := k;
  }

  /** Fills place k with the node in hand. */
  method PutNode(heap: array<Node>, k: nat, he: Node, ghost h: seq<Node>, ghost n: nat, ghost ws: set<Watcher>)
    requires n + HEAP0 <= heap.Length && HEAP0 <= k < n + HEAP0
    requires Holds(heap, h, k) && h[k] == he && PlacedBut(h, n, ws, k)
    modifies heap, he.w`active
    ensures heap[..] == h && Placed(heap[..], n, ws)
  {
    heap[k] := he;
    he.w.active := k;
    assert heap[..] == h;
  }

  lemma SwapKeepsCache(h: seq<Node>, n: nat, ws: set<Watcher>, k: nat, c: nat)
    requires n + HEAP0 <= |h| && HEAP0 <= k < n + HEAP0 && HEAP0 <= c < n + HEAP0
    requires Cached(h, n, ws)
    ensures Cached(Swap(h, k, c), n, ws)
  {
  }

  /** Away from the root: the node at k sinks to where no child expires before it. */
  method DownHeap(heap: array<Node>, n: nat, k0: nat, ghost ws: set<Watcher>)
    requires n + HEAP0 <= heap.Length && HEAP0 <= k0 < n + HEAP0
    requires PlacedBut(heap[..], n, ws, k0) && MaySink(heap[..], n, k0) && Cached(heap[..], n, ws)
    modifies heap, ws`active
    ensures Placed(heap[..], n, ws) && Ordered(heap[..], n) && Cached(heap[..], n, ws)
  {
    hide MaySink, Ordered, Cached, Swap, FirstChild;
    var k := k0;
    var he := heap[k];
    ghost var h := heap[..];
    while true
      invariant HEAP0 <= k < n + HEAP0 && Holds(heap, h, k) && h[k] == he
      invariant PlacedBut(h, n, ws, k) && MaySink(h, n, k) && Cached(h, n, ws)
      decreases n + HEAP0 - k
    {
      if DHEAP * (k - HEAP0) + HEAP0 + 1 >= n + HEAP0 {
        NoChildren(h, n, k);
        break;
      }
      var c := MinChild(heap, n, k, h);
      if he.at <= heap[c].at {
        SinkDone(h, n, k, c);
        break;
      }
      SinkStep(h, n, k, c);
      SwapKeepsCache(h, n, ws, k, c);
      SwapAt(h, k, c);
      MoveNode(heap, k, c, h, n, ws);
      h := Swap(h, k, c);
      k := c;
    }
    PutNode(heap, k, he, h, n, ws);
  }

  lemma SwapAt(h: seq<Node>, i: nat, j: nat)
    requires i < |h| && j < |h|
    ensures |Swap(h, i, j)| == |h| && Swap(h, i, j)[j] == h[i]
  {
  }

  lemma SinkDone(h: seq<Node>, n: nat, k: nat, c: nat)
    requires n + HEAP0 <= |h| && HEAP0 <= k < n + HEAP0
    requires MaySink(h, n, k) && FirstChild(h, n, k, c) && h[k].at <= h[c].at
    ensures Ordered(h, n)
  {
  }

  lemma RiseDone(h: seq<Node>, n: nat, k: nat)
    requires n + HEAP0 <= |h| && HEAP0 <= k < n + HEAP0
    requires MayRise(h, n, k) && (k == HEAP0 || h[Parent(k)].at <= h[k].at)
    ensures Ordered(h, n)
  {
  }

  /** Towards the root: the node at k rises until its parent does not expire after it. */
  method UpHeap(heap: array<Node>, k0: nat, ghost m: nat, ghost n: nat, ghost ws: set<Watcher>)
    requires n + HEAP0 <= heap.Length && m <= n && HEAP0 <= k0 < m + HEAP0
    requires PlacedBut(heap[..], n, ws, k0) && MayRise(heap[..], m, k0) && Cached(heap[..], n, ws)
    modifies heap, ws`active
    ensures Placed(heap[..], n, ws) && Ordered(heap[..], m) && Cached(heap[..], n, ws)
  {
    hide MayRise, Ordered, Cached, Swap, Quotient;
    var k := k0;
    var he := heap[k];
    ghost var h := heap[..];
    while true
      invariant HEAP0 <= k < m + HEAP0 && Holds(heap, h, k) && h[k] == he
      invariant PlacedBut(h, n, ws, k) && MayRise(h, m, k) && Cached(h, n, ws)
      decreases k
    {
      var p := Parent(k);
      if p == k || heap[p].at <= he.at {
        RiseDone(h, m, k);
        break;
      }
      RiseStep(h, m, k);
      SwapKeepsCache(h, n, ws, k, p);
      SwapAt(h, k, p);
      MoveNode(heap, k, p, h, n, ws);
      h := Swap(h, k, p);
      k := p;
    }
    PutNode(heap, k, he, h, n, ws);
  }

  /** Ordered but for the node at k, whose children are not before its parent. */
  ghost predicate OrderedAround(h: seq<Node>, n: nat, k: nat)
    requires n + HEAP0 <= |h| && HEAP0 <= k < n + HEAP0
  {
    && (forall j | HEAP0 < j < n + HEAP0 && j != k && Parent(j) != k :: h[Parent(j)].at <= h[j].at)
    && (k > HEAP0 ==> forall j | HEAP0 < j < n + HEAP0 && Parent(j) == k :: h[Parent(k)].at <= h[j].at)
  }

  lemma RisesOrSinks(h: seq<Node>, n: nat, k: nat)
    requires n + HEAP0 <= |h| && HEAP0 <= k < n + HEAP0 && OrderedAround(h, n, k)
    ensures if k > HEAP0 && h[k].at <= h[Parent(k)].at then MayRise(h, n, k) else MaySink(h, n, k)
  {
  }

  /** An ordered heap stays ordered around the one node that changes. */
  lemma ChangeOne(h: seq<Node>, n: nat, k: nat, he: Node)
    requires n + HEAP0 <= |h| && HEAP0 <= k < n + HEAP0 && Ordered(h, n)
    ensures OrderedAround(h[k := he], n, k)
  {
    hide Quotient;
    var g := h[k := he];
    if k > HEAP0 {
      forall j | HEAP0 < j < n + HEAP0 && Parent(j) == k ensures g[Parent(k)].at <= g[j].at {
        assert h[Parent(k)].at <= h[k].at <= h[j].at;
      }
    }
  }

  /** Moves the node at k to where it belongs. */
  method AdjustHeap(heap: array<Node>, n: nat, k: nat, ghost ws: set<Watcher>)
    requires n + HEAP0 <= heap.Length && HEAP0 <= k < n + HEAP0
    requires PlacedBut(heap[..], n, ws, k) && OrderedAround(heap[..], n, k) && Cached(heap[..], n, ws)
    modifies heap, ws`active
    ensures Placed(heap[..], n, ws) && Ordered(heap[..], n) && Cached(heap[..], n, ws)
  {
    hide OrderedAround, MayRise, MaySink, Ordered, Cached, Quotient, PlacedBut, Placed;
    RisesOrSinks(heap[..], n, k);
    if k > HEAP0 && heap[k].at <= heap[Parent(k)].at {
      UpHeap(heap, k, n, n, ws);
    } else {
      DownHeap(heap, n, k, ws);
    }
  }

  lemma LastMayRise(h: seq<Node>, n: nat)
    requires n + 1 + HEAP0 <= |h| && Ordered(h, n)
    ensures MayRise(h, n + 1, n + HEAP0)
  {
  }

  lemma PlacedIsPlacedBut(h: seq<Node>, n: nat, ws: set<Watcher>, k: nat)
    requires n + HEAP0 <= |h| && HEAP0 <= k < n + HEAP0 && Placed(h, n, ws)
    ensures PlacedBut(h, n, ws, k)
  {
  }

  /** Rebuilds the order from nothing, one node after the other. */
  method Reheap(heap: array<Node>, n: nat, ghost ws: set<Watcher>)
    requires n + HEAP0 <= heap.Length
    requires Placed(heap[..], n, ws) && Cached(heap[..], n, ws)
    modifies heap, ws`active
    ensures Placed(heap[..], n, ws) && Ordered(heap[..], n) && Cached(heap[..], n, ws)
  {
    hide MayRise, Cached, PlacedBut, Placed;
    for i := 0 to n
      invariant Placed(heap[..], n, ws) && Ordered(heap[..], i) && Cached(heap[..], n, ws)
    {
      LastMayRise(heap[..], i);
      PlacedIsPlacedBut(heap[..], n, ws, i + HEAP0);
      UpHeap(heap, i + HEAP0, i + 1, n, ws);
    }
  }

  /** The root expires first. */
  lemma {:induction false} RootIsFirst(h: seq<Node>, n: nat, k: nat)
    requires n + HEAP0 <= |h| && HEAP0 <= k < n + HEAP0 && Ordered(h, n)
    ensures h[HEAP0].at <= h[k].at
    decreases k
  {
    if k > HEAP0 {
      RootIsFirst(h, n, Parent(k));
    }
  }

  /** What verify_heap asserts of a heap holding exactly the watchers ws. */
  ghost predicate HeapValid(heap: array<Node>, n: nat, ws: set<Watcher>)
    reads heap, ws`active, ws`at
  {
    && n + HEAP0 <= heap.Length
    && Placed(heap[..], n, ws) && Ordered(heap[..], n) && Cached(heap[..], n, ws)
  }

  lemma OnHeapIsActive(heap: array<Node>, n: nat, ws: set<Watcher>)
    requires HeapValid(heap, n, ws)
    ensures forall w | w in ws :: w.active >= HEAP0
  {
  }

  /** The watchers in the first n nodes are ws, each once. */
  lemma {:induction false} PlacedCount(h: seq<Node>, n: nat, ws: set<Watcher>)
    requires n + HEAP0 <= |h| && Placed(h, n, ws)
    ensures |ws| == n
    decreases n
  {
    if n == 0 {
      assert ws == {};
    } else {
      var last := h[n - 1 + HEAP0].w;
      assert Placed(h, n - 1, ws - {last});
      PlacedCount(h, n - 1, ws - {last});
    }
  }

  // ---- What a change of one node, or of all, leaves -----------------------------------------

  lemma RootMaySink(h: seq<Node>, n: nat)
    requires 0 < n && n + HEAP0 <= |h| && OrderedAround(h, n, HEAP0)
    ensures MaySink(h, n, HEAP0)
  {
  }

  lemma RootIsEarliest(h: seq<Node>, n: nat, ws: set<Watcher>)
    requires 0 < n && n + HEAP0 <= |h| && Placed(h, n, ws) && Ordered(h, n) && Cached(h, n, ws)
    ensures h[HEAP0].w in ws && h[HEAP0].w.active == HEAP0 && h[HEAP0].w.at == h[HEAP0].at
    ensures forall v | v in ws :: h[HEAP0].at <= v.at
  {
    forall v | v in ws ensures h[HEAP0].at <= v.at {
      RootIsFirst(h, n, v.active);
    }
  }

  lemma EachOnce(h: seq<Node>, n: nat, ws: set<Watcher>)
    requires n + HEAP0 <= |h| && Placed(h, n, ws)
    ensures forall i | HEAP0 <= i < n + HEAP0 :: h[i].w in ws
    ensures forall i, j | HEAP0 <= i < j < n + HEAP0 :: h[i].w != h[j].w
  {
  }

  lemma AtPlaces(h: seq<Node>, n: nat, ws: set<Watcher>)
    requires n + HEAP0 <= |h| && Placed(h, n, ws)
    ensures forall w | w in ws :: HEAP0 <= w.active < n + HEAP0 && h[w.active].w == w
  {
  }

  lemma Shifted(h: seq<Node>, g: seq<Node>, n: nat, ws: set<Watcher>, adjust: real)
    requires n + HEAP0 <= |h| && |g| == |h| && Placed(h, n, ws) && Ordered(h, n)
    requires forall k | HEAP0 <= k < n + HEAP0 :: g[k].w == h[k].w && g[k].at == h[k].at + adjust
    ensures Placed(g, n, ws) && Ordered(g, n)
  {
  }

  lemma Extends(h: seq<Node>, g: seq<Node>, n: nat, ws: set<Watcher>, w: Watcher)
    requires n + HEAP0 <= |h| && n + 1 + HEAP0 <= |g| && g[..n + HEAP0] == h[..n + HEAP0]
    requires Placed(h, n, ws) && Ordered(h, n) && Cached(h, n, ws) && w !in ws
    requires g[n + HEAP0] == Node(w, w.at)
    ensures PlacedBut(g, n + 1, ws + {w}, n + HEAP0) && MayRise(g, n + 1, n + HEAP0) && Cached(g, n + 1, ws + {w})
  {
    assert forall i | 0 <= i < n + HEAP0 :: g[i] == g[..n + HEAP0][i] == h[i];
    assert Ordered(g, n);
    LastMayRise(g, n);
  }

  lemma InPlace(h: seq<Node>, n: nat, ws: set<Watcher>, w: Watcher)
    requires n + HEAP0 <= |h| && Placed(h, n, ws) && w in ws
    ensures HEAP0 <= w.active < n + HEAP0 && h[w.active].w == w
  {
  }

  lemma Shrinks(h: seq<Node>, n: nat, ws: set<Watcher>, w: Watcher)
    requires n + 1 + HEAP0 <= |h| && w in ws
    requires Placed(h, n + 1, ws) && Ordered(h, n + 1) && Cached(h, n + 1, ws)
    ensures Ordered(h, n) && Cached(h, n, ws - {w})
    ensures w.active == n + HEAP0 ==> Placed(h, n, ws - {w})
    ensures w.active < n + HEAP0 ==>
      var g := h[w.active := h[n + HEAP0]];
      PlacedBut(g, n, ws - {w}, w.active) && OrderedAround(g, n, w.active) && Cached(g, n, ws - {w})
  {
    assert Ordered(h, n);
    if w.active < n + HEAP0 {
      ChangeOne(h, n, w.active, h[n + HEAP0]);
    }
  }

  lemma Rekeyed(h: seq<Node>, n: nat, ws: set<Watcher>, w: Watcher)
    requires n + HEAP0 <= |h| && w in ws
    requires Placed(h, n, ws) && Ordered(h, n) && Cached(h, n, ws - {w})
    ensures HEAP0 <= w.active < n + HEAP0
    ensures var g := h[w.active := h[w.active].(at := w.at)];
      PlacedBut(g, n, ws, w.active) && OrderedAround(g, n, w.active) && Cached(g, n, ws)
  {
    ChangeOne(h, n, w.active, h[w.active].(at := w.at));
  }
}
