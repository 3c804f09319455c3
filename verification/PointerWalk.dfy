/** Executor._walk of nodefusion/model/exec.py: a breadth-first walk over a graph of guest pointers. */
module PointerWalk {
  import opened Wrappers

  /** How a node was reached from its parent: by position, or by the key of a keyed container. */
  datatype Label = Index(i: nat) | Key(k: string)

  datatype Node = Node(addr: int, trail: seq<Label>)

  /** One item of a container of children; an address may come with a key. */
  datatype Item = Address(key: Option<string>, value: int) | Absent | Unreadable | Other

  /** What the reader gives at a node: no children to be had, something that is no list, or a list. */
  datatype Kids = Unavailable | NotAList | List(items: seq<Item>)

  predicate Plausible(addr: int) {
    0x1000 <= addr < 0xFFFF_FFFF_FFFF_F000
  }

  /** The memory as a graph; without an edge offset nothing is followed. */
  datatype Graph = Graph(read: int -> Kids, off: Option<int>)
  {
    /** The readable plausible edges out of an address, with their labels, in order. */
    function Edges(addr: int): seq<(Label, int)> {
      if off.None? || !read(addr + off.value).List? then []
      else EdgesOf(read(addr + off.value).items, 0)
    }
  }

  function EdgeOf(item: Item, i: nat): seq<(Label, int)> {
    if item.Address? && Plausible(item.value) then
      [(if item.key.Some? then Key(item.key.value) else Index(i), item.value)]
    else []
  }

  function EdgesOf(items: seq<Item>, i: nat): seq<(Label, int)>
    requires i <= |items|
    decreases |items| - i
  {
    if i == |items| then [] else EdgeOf(items[i], i) + EdgesOf(items, i + 1)
  }

  function StepTo(x: Node, e: (Label, int)): Node {
    Node(e.1, x.trail + [e.0])
  }

  function StepsTo(x: Node, es: seq<(Label, int)>): (ns: seq<Node>)
    ensures |ns| == |es|
    ensures forall i :: 0 <= i < |es| ==> ns[i] == StepTo(x, es[i])
  {
    if es == [] then [] else [StepTo(x, es[0])] + StepsTo(x, es[1..])
  }

  // ------------------------------------------------------------------ reachability

  /** `n` is reached from a root over exactly `k` edges, and its trail is the root's followed by the
      labels of those edges. */
  ghost predicate Trail(g: Graph, roots: seq<Node>, n: Node, k: nat)
    decreases k
  {
    if k == 0 then n in roots
    else exists m, e :: Trail(g, roots, m, k - 1) && e in g.Edges(m.addr) && n == StepTo(m, e)
  }

  ghost predicate Reachable(g: Graph, roots: seq<Node>, addr: int, k: nat) {
    exists n :: Trail(g, roots, n, k) && n.addr == addr
  }

  /** Some listed node has this address and depth at most `d`. */
  ghost predicate Listed(ns: seq<Node>, depths: seq<nat>, addr: int, d: nat)
    requires |ns| == |depths|
  {
    exists i :: 0 <= i < |ns| && ns[i].addr == addr && depths[i] <= d
  }

  ghost predicate Ascending(ds: seq<nat>) {
    forall i, j :: 0 <= i < j < |ds| ==> ds[i] <= ds[j]
  }

  function FollowedBy(g: Graph, ns: seq<Node>): nat {
    if ns == [] then 0 else FollowedBy(g, ns[..|ns| - 1]) + |g.Edges(ns[|ns| - 1].addr)|
  }

  predicate Odd(item: Item) {
    item.Unreadable? || item.Other?
  }

  function OddItems(items: seq<Item>): nat {
    if items == [] then 0 else OddItems(items[..|items| - 1]) + if Odd(items[|items| - 1]) then 1 else 0
  }

  /** What following a node reports: that there are no children to be had, or each item of theirs that
      cannot be read or is no address. */
  function TroublesAt(g: Graph, addr: int): nat {
    if g.off.None? then 0
    else
      match g.read(addr + g.off.value)
      case Unavailable => 1
      case NotAList => 0
      case List(items) => OddItems(items)
  }

  function Troubles(g: Graph, ns: seq<Node>): nat {
    if ns == [] then 0 else Troubles(g, ns[..|ns| - 1]) + TroublesAt(g, ns[|ns| - 1].addr)
  }

  // ------------------------------------------------------------------ the walk

  lemma OddNext(items: seq<Item>, i: nat)
    requires i < |items|
    ensures OddItems(items[..i + 1]) == OddItems(items[..i]) + if Odd(items[i]) then 1 else 0
  {
    assert items[..i + 1][..i] == items[..i];
  }

  lemma NothingOdd(items: seq<Item>)
    ensures OddItems(items[..0]) == 0
  {
  }

  lemma StepsNext(x: Node, done: seq<(Label, int)>, e: seq<(Label, int)>, rest: seq<(Label, int)>)
    ensures StepsTo(x, done + e) == StepsTo(x, done) + StepsTo(x, e)
    ensures done + (e + rest) == (done + e) + rest
  {
  }

  lemma StepsToNone(x: Node)
    ensures StepsTo(x, []) == []
  {
  }

  /** The children of one node, appended to the queue in order; unreadable and odd items are problems. */
  method Follow(x: Node, items: seq<Item>) returns (nodes: seq<Node>, problems: nat)
    ensures nodes == StepsTo(x, EdgesOf(items, 0)) && problems == OddItems(items)
  {
    hide OddItems;
    hide StepsTo;
    nodes, problems := [], 0;
    ghost var done: seq<(Label, int)> := [];
    StepsToNone(x);
    NothingOdd(items);
    for i := 0 to |items|
      invariant nodes == StepsTo(x, done) && EdgesOf(items, 0) == done + EdgesOf(items, i)
      invariant problems == OddItems(items[..i])
    {
      var item := items[i];
      ghost var e := EdgeOf(item, i);
      OddNext(items, i);
      StepsNext(x, done, e, EdgesOf(items, i + 1));
      if item.Address? {
        if Plausible(item.value) {
          nodes := nodes + [Node(item.value, x.trail + [if item.key.Some? then Key(item.key.value) else Index(i)])];
        }
      } else if item.Unreadable? || item.Other? {
        problems := problems + 1;
      }
      done := done + e;
    }
    assert done + [] == done && items[..|items|] == items;
  }

  /** The walk so far: the listed nodes and the queue, with their depths. */
  datatype Stage = Stage(out: seq<Node>, depths: seq<nat>, queue: seq<Node>, waiting: seq<nat>)
  {
    ghost predicate Sized() {
      |out| == |depths| && |queue| == |waiting|
    }

    /** Listed or queued at depth at most `d`. */
    ghost predicate Found(addr: int, d: nat)
      requires Sized()
    {
      Listed(out, depths, addr, d) || Listed(queue, waiting, addr, d)
    }

    /** The depths ascend, and the queue goes on from there by at most one level. */
    ghost predicate Levels() {
      && Ascending(depths) && Ascending(waiting)
      && (waiting != [] ==> waiting[|waiting| - 1] <= waiting[0] + 1)
      && (depths != [] && waiting != [] ==>
            depths[|depths| - 1] <= waiting[0] && waiting[|waiting| - 1] <= depths[|depths| - 1] + 1)
    }

    ghost predicate Trails(g: Graph, roots: seq<Node>)
      requires Sized()
    {
      && (forall i :: 0 <= i < |out| ==> Trail(g, roots, out[i], depths[i]))
      && (forall i :: 0 <= i < |queue| ==> Trail(g, roots, queue[i], waiting[i]))
    }

    /** The roots are found, and so is every neighbour of a listed node, one level deeper at most. */
    ghost predicate Closed(g: Graph, roots: seq<Node>)
      requires Sized()
    {
      && (forall r :: r in roots ==> Found(r.addr, 0))
      && (forall i, e :: 0 <= i < |out| && e in g.Edges(out[i].addr) ==> Found(e.1, depths[i] + 1))
    }

    ghost predicate Distinct() {
      forall i, j :: 0 <= i < j < |out| ==> out[i].addr != out[j].addr
    }

    ghost predicate Ok(g: Graph, roots: seq<Node>) {
      Sized() && Levels() && Trails(g, roots) && Closed(g, roots) && Distinct()
    }

    /** Pop a node that is listed already. */
    ghost function Skip(): Stage
      requires Sized() && queue != []
    {
      this.(queue := queue[1..], waiting := waiting[1..])
    }

    /** Pop a new node, list it and queue its children. */
    ghost function Take(g: Graph): Stage
      requires Sized() && queue != []
    {
      var es := g.Edges(queue[0].addr);
      Stage(out + [queue[0]], depths + [waiting[0]],
            queue[1..] + StepsTo(queue[0], es), waiting[1..] + seq(|es|, _ => waiting[0] + 1))
    }
  }

  lemma ListedLater(ns: seq<Node>, depths: seq<nat>, n: Node, d: nat, addr: int, limit: nat)
    requires |ns| == |depths|
    ensures Listed(ns + [n], depths + [d], addr, limit) <==>
              Listed(ns, depths, addr, limit) || (n.addr == addr && d <= limit)
  {
    var ms, ds := ns + [n], depths + [d];
    if Listed(ns, depths, addr, limit) {
      var i :| 0 <= i < |ns| && ns[i].addr == addr && depths[i] <= limit;
      assert ms[i] == ns[i] && ds[i] == depths[i];
    }
    if n.addr == addr && d <= limit {
      assert ms[|ns|] == n && ds[|ns|] == d;
    }
  }

  /** Popping a node that is listed already loses nothing: it was listed at no greater depth. */
  lemma SkipFinds(s: Stage, addr: int, d: nat)
    requires s.Sized() && s.Levels() && s.queue != [] && s.Found(addr, d)
    requires exists i :: 0 <= i < |s.out| && s.out[i].addr == s.queue[0].addr
    ensures s.Skip().Found(addr, d)
  {
    if Listed(s.queue, s.waiting, addr, d) {
      var j :| 0 <= j < |s.queue| && s.queue[j].addr == addr && s.waiting[j] <= d;
      if j == 0 {
        var i :| 0 <= i < |s.out| && s.out[i].addr == s.queue[0].addr;
        assert s.depths[i] <= s.depths[|s.depths| - 1] <= s.waiting[0];
        assert Listed(s.out, s.depths, addr, d);
      } else {
        assert s.queue[1..][j - 1] == s.queue[j] && s.waiting[1..][j - 1] == s.waiting[j];
      }
    }
  }

  lemma SkipOk(g: Graph, roots: seq<Node>, s: Stage)
    requires s.Ok(g, roots) && s.queue != []
    requires exists i :: 0 <= i < |s.out| && s.out[i].addr == s.queue[0].addr
    ensures s.Skip().Ok(g, roots)
  {
    hide Stage.Found;
    hide Trail;
    hide Graph.Edges;
    forall addr, d: nat | s.Found(addr, d)
      ensures s.Skip().Found(addr, d)
    {
      SkipFinds(s, addr, d);
    }
    SkipLevels(s);
    hide Stage.Levels;
  }

  lemma SkipLevels(s: Stage)
    requires s.Sized() && s.queue != [] && s.Levels()
    ensures s.Skip().Levels()
  {
  }

  /** Listing a node and queueing its children loses nothing either. */
  lemma TakeFinds(g: Graph, s: Stage, addr: int, d: nat)
    requires s.Sized() && s.queue != [] && s.Found(addr, d)
    ensures s.Take(g).Found(addr, d)
  {
    var t := s.Take(g);
    ListedLater(s.out, s.depths, s.queue[0], s.waiting[0], addr, d);
    if Listed(s.queue, s.waiting, addr, d) {
      var j :| 0 <= j < |s.queue| && s.queue[j].addr == addr && s.waiting[j] <= d;
      if j > 0 {
        assert t.queue[j - 1] == s.queue[j] && t.waiting[j - 1] == s.waiting[j];
        assert Listed(t.queue, t.waiting, addr, d);
      }
    }
  }

  /** The children of the node just listed are in the queue. */
  lemma TakeFindsKids(g: Graph, s: Stage, e: (Label, int))
    requires s.Sized() && s.queue != [] && e in g.Edges(s.queue[0].addr)
    ensures s.Take(g).Found(e.1, s.waiting[0] + 1)
  {
    var t, es := s.Take(g), g.Edges(s.queue[0].addr);
    var j :| 0 <= j < |es| && es[j] == e;
    var at := |s.queue| - 1 + j;
    assert t.queue[at] == StepTo(s.queue[0], e) && t.waiting[at] == s.waiting[0] + 1;
    assert Listed(t.queue, t.waiting, e.1, s.waiting[0] + 1);
  }

  lemma TrailOn(g: Graph, roots: seq<Node>, m: Node, k: nat, e: (Label, int))
    requires Trail(g, roots, m, k) && e in g.Edges(m.addr)
    ensures Trail(g, roots, StepTo(m, e), k + 1)
  {
    hide Graph.Edges;
  }

  lemma TakeTrails(g: Graph, roots: seq<Node>, s: Stage)
    requires s.Sized() && s.queue != [] && s.Trails(g, roots)
    ensures s.Take(g).Trails(g, roots)
  {
    hide Trail;
    hide Graph.Edges;
    var t, es := s.Take(g), g.Edges(s.queue[0].addr);
    forall i | |s.queue| - 1 <= i < |t.queue|
      ensures Trail(g, roots, t.queue[i], t.waiting[i])
    {
      var e := es[i - (|s.queue| - 1)];
      assert e in es && t.queue[i] == StepTo(s.queue[0], e) && t.waiting[i] == s.waiting[0] + 1;
      TrailOn(g, roots, s.queue[0], s.waiting[0], e);
    }
  }

  lemma TakeOk(g: Graph, roots: seq<Node>, s: Stage)
    requires s.Ok(g, roots) && s.queue != []
    requires forall i :: 0 <= i < |s.out| ==> s.out[i].addr != s.queue[0].addr
    ensures s.Take(g).Ok(g, roots)
  {
    hide Stage.Trails;
    hide Stage.Levels;
    hide Stage.Found;
    hide Graph.Edges;
    var t := s.Take(g);
    TakeTrails(g, roots, s);
    TakeLevels(g, s);
    forall addr, d: nat | s.Found(addr, d)
      ensures t.Found(addr, d)
    {
      TakeFinds(g, s, addr, d);
    }
    forall e | e in g.Edges(s.queue[0].addr)
      ensures t.Found(e.1, s.waiting[0] + 1)
    {
      TakeFindsKids(g, s, e);
    }
  }

  lemma AscendingPlus(a: seq<nat>, b: seq<nat>)
    requires Ascending(a) && Ascending(b) && (a != [] && b != [] ==> a[|a| - 1] <= b[0])
    ensures Ascending(a + b)
  {
    forall i, j | 0 <= i < j < |a + b|
      ensures (a + b)[i] <= (a + b)[j]
    {
      if i < |a| <= j {
        assert a[i] <= a[|a| - 1] <= b[0] <= b[j - |a|];
      }
    }
  }

  lemma AscendingTail(a: seq<nat>)
    requires Ascending(a) && a != []
    ensures Ascending(a[1..]) && Ascending([a[0]])
    ensures |a| > 1 ==> a[0] <= a[1..][0] && a[1..][|a| - 2] == a[|a| - 1]
  {
  }

  lemma TakeLevels(g: Graph, s: Stage)
    requires s.Sized() && s.queue != [] && s.Levels()
    ensures s.Take(g).Levels()
  {
    var es := g.Edges(s.queue[0].addr);
    var kids := seq(|es|, _ => s.waiting[0] + 1);
    assert Ascending(kids);
    AscendingTail(s.waiting);
    hide Graph.Edges;
    hide Ascending;
    AscendingPlus(s.depths, [s.waiting[0]]);
    AscendingPlus(s.waiting[1..], kids);
  }

  ghost predicate Near(s: Stage, k: nat)
    requires s.Sized()
  {
    s.queue != [] && s.waiting[0] <= k
  }

  lemma FoundIsNear(s: Stage, addr: int, k: nat)
    requires s.Sized() && s.Levels() && s.Found(addr, k)
    ensures Listed(s.out, s.depths, addr, k) || Near(s, k)
  {
  }

  /** At every moment, everything reachable over k edges is listed at depth at most k, as long as the queue
      has nothing of depth k or less; with the queue empty, that is everything reachable. */
  lemma {:induction false} AllListed(g: Graph, roots: seq<Node>, s: Stage, n: Node, k: nat)
    requires s.Sized() && s.Levels() && s.Closed(g, roots) && Trail(g, roots, n, k) && !Near(s, k)
    ensures Listed(s.out, s.depths, n.addr, k)
    decreases k
  {
    hide Graph.Edges;
    hide Stage.Levels;
    hide Stage.Found;
    if k == 0 {
      assert s.Found(n.addr, 0);
      FoundIsNear(s, n.addr, 0);
    } else {
      var m, e :| Trail(g, roots, m, k - 1) && e in g.Edges(m.addr) && n == StepTo(m, e);
      AllListed(g, roots, s, m, k - 1);
      hide Trail;
      var i :| 0 <= i < |s.out| && s.out[i].addr == m.addr && s.depths[i] <= k - 1;
      assert s.Found(e.1, s.depths[i] + 1);
      FoundIsNear(s, e.1, s.depths[i] + 1);
    }
  }

  lemma AllReached(g: Graph, roots: seq<Node>, s: Stage)
    requires s.Ok(g, roots)
    ensures s.Sized()
    ensures forall addr, k: nat :: Reachable(g, roots, addr, k) && !Near(s, k) ==> Listed(s.out, s.depths, addr, k)
  {
    hide Stage.Levels;
    hide Stage.Trails;
    hide Stage.Closed;
    hide Stage.Distinct;
    hide Trail;
    forall addr, k: nat | Reachable(g, roots, addr, k) && !Near(s, k)
      ensures Listed(s.out, s.depths, addr, k)
    {
      var n :| Trail(g, roots, n, k) && n.addr == addr;
      AllListed(g, roots, s, n, k);
    }
  }

  /** Whatever is listed has been reached at the least possible depth, even if the walk stops here. */
  lemma LeastDepth(g: Graph, roots: seq<Node>, s: Stage, i: nat, k: nat)
    requires s.Ok(g, roots) && i < |s.out| && Reachable(g, roots, s.out[i].addr, k)
    ensures s.depths[i] <= k
  {
    hide Stage.Trails;
    hide Stage.Closed;
    hide Reachable;
    if Near(s, k) {
      assert s.depths[i] <= s.depths[|s.depths| - 1] <= s.waiting[0];
    } else {
      AllReached(g, roots, s);
      assert Listed(s.out, s.depths, s.out[i].addr, k);
    }
  }

  /** A trail is one root's trail and one label for each edge. */
  lemma {:induction false} TrailLength(g: Graph, roots: seq<Node>, n: Node, k: nat) returns (root: Node)
    requires Trail(g, roots, n, k)
    ensures root in roots && root.trail <= n.trail && |n.trail| == |root.trail| + k
    decreases k
  {
    hide Graph.Edges;
    if k == 0 {
      root := n;
    } else {
      var m, e :| Trail(g, roots, m, k - 1) && e in g.Edges(m.addr) && n == StepTo(m, e);
      root := TrailLength(g, roots, m, k - 1);
    }
  }

  /** The walk before it pops the next node. */
  ghost predicate Going(g: Graph, roots: seq<Node>, s: Stage, seen: set<int>, cycles: nat, problems: nat) {
    && s.Ok(g, roots) && seen == Addresses(s.out)
    && |roots| + FollowedBy(g, s.out) == |s.out| + cycles + |s.queue|
    && problems == Troubles(g, s.out)
  }

  lemma GoingStart(g: Graph, roots: seq<Node>)
    ensures Going(g, roots, Stage([], [], roots, seq(|roots|, _ => 0)), {}, 0, 0)
  {
    hide Stage.Ok;
    hide Addresses;
    StartOk(g, roots);
    SeenIsNothing();
  }

  lemma GoingSkip(g: Graph, roots: seq<Node>, s: Stage, seen: set<int>, cycles: nat, problems: nat)
    requires Going(g, roots, s, seen, cycles, problems) && s.queue != [] && s.queue[0].addr in seen
    ensures Going(g, roots, s.Skip(), seen, cycles + 1, problems)
  {
    hide Stage.Levels;
    hide Stage.Trails;
    hide Stage.Closed;
    hide Stage.Distinct;
    hide Addresses;
    hide FollowedBy;
    hide Troubles;
    SeenIsListed(s.out, s.queue[0].addr);
    SkipOk(g, roots, s);
  }

  lemma TakeCounts(g: Graph, s: Stage)
    requires s.Sized() && s.queue != []
    ensures |s.Take(g).queue| == |s.queue| - 1 + |g.Edges(s.queue[0].addr)|
    ensures FollowedBy(g, s.Take(g).out) == FollowedBy(g, s.out) + |g.Edges(s.queue[0].addr)|
    ensures Troubles(g, s.Take(g).out) == Troubles(g, s.out) + TroublesAt(g, s.queue[0].addr)
  {
    hide Graph.Edges;
    hide TroublesAt;
    assert (s.out + [s.queue[0]])[..|s.out|] == s.out;
  }

  lemma GoingTake(g: Graph, roots: seq<Node>, s: Stage, seen: set<int>, cycles: nat, problems: nat)
    requires Going(g, roots, s, seen, cycles, problems) && s.queue != [] && s.queue[0].addr !in seen
    ensures Going(g, roots, s.Take(g), seen + {s.queue[0].addr}, cycles, problems + TroublesAt(g, s.queue[0].addr))
  {
    hide Stage.Levels;
    hide Stage.Trails;
    hide Stage.Closed;
    hide Stage.Distinct;
    hide Addresses;
    hide Graph.Edges;
    hide TroublesAt;
    hide FollowedBy;
    hide Troubles;
    TakeCounts(g, s);
    SeenIsListed(s.out, s.queue[0].addr);
    SeenGrows(s.out, s.queue[0]);
    TakeOk(g, roots, s);
  }

  lemma GoingSeen(g: Graph, roots: seq<Node>, s: Stage, seen: set<int>, cycles: nat, problems: nat, a: int)
    requires Going(g, roots, s, seen, cycles, problems)
    ensures a in seen <==> exists i :: 0 <= i < |s.out| && s.out[i].addr == a
  {
    hide Stage.Ok;
    hide Addresses;
    SeenIsListed(s.out, a);
  }

  lemma GoingQueue(g: Graph, roots: seq<Node>, s: Stage, seen: set<int>, cycles: nat, problems: nat)
    requires Going(g, roots, s, seen, cycles, problems)
    ensures s.Sized()
  {
  }

  // ------------------------------------------------------------------ the list, in order

  /** The nodes that the edges of these nodes lead to, in order: a trail gets the label of the edge. */
  function KidsOf(g: Graph, ns: seq<Node>): seq<Node> {
    if ns == [] then []
    else
      var x := ns[|ns| - 1];
      var es := g.Edges(x.addr);
      KidsOf(g, ns[..|ns| - 1]) + seq(|es|, i requires 0 <= i < |es| => Node(es[i].1, x.trail + [es[i].0]))
  }

  /** Of nodes with the same address the first one. */
  function FirstOnes(ns: seq<Node>): seq<Node> {
    if ns == [] then []
    else
      var r, x := FirstOnes(ns[..|ns| - 1]), ns[|ns| - 1];
      if exists i :: 0 <= i < |r| && r[i].addr == x.addr then r else r + [x]
  }

  /** The walk so far: of the roots and the nodes behind the edges of what is listed, in this order, some are
      done with, which are listed unless their address is already, and the others are queued. */
  ghost predicate Listing(g: Graph, roots: seq<Node>, done: seq<Node>, queue: seq<Node>, out: seq<Node>) {
    roots + KidsOf(g, out) == done + queue && FirstOnes(done) == out
  }

  lemma ListingStart(g: Graph, roots: seq<Node>)
    ensures Listing(g, roots, [], roots, [])
  {
    assert roots + [] == [] + roots;
  }

  lemma FirstOnesNext(done: seq<Node>, x: Node)
    ensures var r := FirstOnes(done);
            FirstOnes(done + [x]) == if exists i :: 0 <= i < |r| && r[i].addr == x.addr then r else r + [x]
  {
    assert (done + [x])[..|done|] == done;
  }

  lemma ListingSkip(g: Graph, roots: seq<Node>, done: seq<Node>, queue: seq<Node>, out: seq<Node>)
    requires Listing(g, roots, done, queue, out) && queue != []
    requires exists i :: 0 <= i < |out| && out[i].addr == queue[0].addr
    ensures Listing(g, roots, done + [queue[0]], queue[1..], out)
  {
    hide KidsOf;
    FirstOnesNext(done, queue[0]);
    assert done + queue == (done + [queue[0]]) + queue[1..];
  }

  lemma ListingTake(g: Graph, roots: seq<Node>, done: seq<Node>, queue: seq<Node>, out: seq<Node>)
    requires Listing(g, roots, done, queue, out) && queue != []
    requires forall i :: 0 <= i < |out| ==> out[i].addr != queue[0].addr
    ensures Listing(g, roots, done + [queue[0]], queue[1..] + StepsTo(queue[0], g.Edges(queue[0].addr)),
                    out + [queue[0]])
  {
    hide Graph.Edges;
    hide FirstOnes;
    hide StepsTo;
    var x := queue[0];
    var kids := StepsTo(x, g.Edges(x.addr));
    FirstOnesNext(done, x);
    KidsNext(g, out, x);
    hide KidsOf;
    Regrouped(roots, KidsOf(g, out), done, queue, kids);
  }

  lemma Regrouped(roots: seq<Node>, below: seq<Node>, done: seq<Node>, queue: seq<Node>, more: seq<Node>)
    requires roots + below == done + queue && queue != []
    ensures roots + (below + more) == (done + [queue[0]]) + (queue[1..] + more)
  {
    assert roots + (below + more) == (roots + below) + more;
    assert (done + queue) + more == (done + [queue[0]]) + (queue[1..] + more);
  }

  lemma KidsNext(g: Graph, out: seq<Node>, x: Node)
    ensures KidsOf(g, out + [x]) == KidsOf(g, out) + StepsTo(x, g.Edges(x.addr))
  {
    hide Graph.Edges;
    var es := g.Edges(x.addr);
    assert (out + [x])[..|out|] == out;
    assert StepsTo(x, es) == seq(|es|, i requires 0 <= i < |es| => Node(es[i].1, x.trail + [es[i].0]));
  }

  /** What is listed wherever the walk stops: the first ones of the roots and the nodes behind the edges of
      what is listed, all of them if the walk was not cut short. */
  ghost predicate InOrder(g: Graph, roots: seq<Node>, out: seq<Node>, cut: bool, cycles: nat) {
    if cut then exists done :: done <= roots + KidsOf(g, out) && FirstOnes(done) == out && |done| == |out| + cycles
    else FirstOnes(roots + KidsOf(g, out)) == out && |roots + KidsOf(g, out)| == |out| + cycles
  }

  lemma ListingStops(g: Graph, roots: seq<Node>, done: seq<Node>, queue: seq<Node>, out: seq<Node>, cycles: nat)
    requires Listing(g, roots, done, queue, out) && |done| == |out| + cycles
    ensures InOrder(g, roots, out, true, cycles)
    ensures queue == [] ==> InOrder(g, roots, out, false, cycles)
  {
    hide KidsOf;
    hide FirstOnes;
    assert done <= roots + KidsOf(g, out);
    assert done + [] == done;
  }

  // ------------------------------------------------------------------ the edges, in numbers

  /** An item leads on if it is an address from the second page on and below the last one; its label is its
      key, or else its place. */
  lemma {:induction false} EdgesNext(items: seq<Item>, x: Item, i: nat)
    requires i <= |items|
    ensures EdgesOf(items + [x], i) == EdgesOf(items, i) +
              if x.Address? && 4096 <= x.value < 0x1_0000_0000_0000_0000 - 4096
              then [(if x.key.Some? then Key(x.key.value) else Index(|items|), x.value)] else []
    decreases |items| - i
  {
    if i < |items| {
      EdgesNext(items, x, i + 1);
      assert (items + [x])[i] == items[i];
    } else {
      assert EdgesOf(items + [x], |items| + 1) == [];
    }
  }

  lemma EdgesAt(g: Graph, addr: int)
    ensures g.Edges(addr) == if g.off == None then [] else
              if g.read(addr + g.off.value).List? then EdgesOf(g.read(addr + g.off.value).items, 0) else []
    ensures EdgesOf([], 0) == []
  {
  }

  /** A problem is a node whose children cannot be read, or one of them that cannot be read or is no address. */
  lemma {:induction false} ProblemsNext(g: Graph, ns: seq<Node>, n: Node)
    ensures Troubles(g, []) == 0
    ensures g.off == None ==> Troubles(g, ns + [n]) == Troubles(g, ns)
    ensures g.off.Some? ==>
              var kids := g.read(n.addr + g.off.value);
              Troubles(g, ns + [n]) == Troubles(g, ns) +
                if kids.Unavailable? then 1
                else if kids.List? then
                  |set i | 0 <= i < |kids.items| && (kids.items[i].Unreadable? || kids.items[i].Other?)|
                else 0
  {
    assert (ns + [n])[..|ns|] == ns;
    if g.off.Some? && g.read(n.addr + g.off.value).List? {
      OddCounted(g.read(n.addr + g.off.value).items);
    }
  }

  lemma {:induction false} OddCounted(items: seq<Item>)
    ensures OddItems(items) == |set i | 0 <= i < |items| && (items[i].Unreadable? || items[i].Other?)|
  {
    var odd := set i | 0 <= i < |items| && (items[i].Unreadable? || items[i].Other?);
    if items == [] {
      assert odd == {};
    } else {
      var n := |items| - 1;
      var less := items[..n];
      OddCounted(less);
      var before := set i | 0 <= i < |less| && (less[i].Unreadable? || less[i].Other?);
      assert odd == before + if items[n].Unreadable? || items[n].Other? then {n} else {};
    }
  }

  /** What holds of the listed nodes wherever the walk stops. */
  ghost predicate Explored(g: Graph, roots: seq<Node>, out: seq<Node>, depths: seq<nat>) {
    && |out| == |depths| && Ascending(depths)
    && (forall i :: 0 <= i < |out| ==> Trail(g, roots, out[i], depths[i]))
    && (forall i, j :: 0 <= i < j < |out| ==> out[i].addr != out[j].addr)
    && (forall i, k: nat :: 0 <= i < |out| && Reachable(g, roots, out[i].addr, k) ==> depths[i] <= k)
    && (forall addr, k: nat :: Reachable(g, roots, addr, k) && depths != [] && k < depths[|depths| - 1] ==>
          Listed(out, depths, addr, k))
  }

  /** Executor._walk. Every listed node comes with a true trail, of the least number of edges; no address
      comes twice, the depths ascend, and whatever can be reached with fewer edges than the last node is
      listed. Unless the limit was reached, an address is listed exactly if it is reachable, and roots and
      followed edges add up to listed nodes and cycles. The problems are those of the followed nodes, all
      but the one that reaches the limit. The walk ends on every graph. */
  method Walk(g: Graph, roots: seq<Node>, maxItems: int)
    returns (out: seq<Node>, truncated: bool, cycles: nat, problems: nat, ghost depths: seq<nat>)
    ensures truncated <==> out != [] && |out| >= maxItems
    ensures |out| <= if maxItems > 1 then maxItems else 1
    ensures Explored(g, roots, out, depths)
    ensures !truncated ==> forall addr, k: nat :: Reachable(g, roots, addr, k) ==> Listed(out, depths, addr, k)
    ensures problems == Troubles(g, if truncated then out[..|out| - 1] else out)
    ensures !truncated ==> |roots| + FollowedBy(g, out) == |out| + cycles
    ensures InOrder(g, roots, out, truncated, cycles)
  {
    hide Listing;
    hide InOrder;
    hide Going;
    hide Explored;
    hide Reachable;
    hide Listed;
    hide Graph.Edges;
    hide TroublesAt;
    out, truncated, cycles, problems := [], false, 0, 0;
    var seen: set<int> := {};
    var queue := roots;
    ghost var s := Stage([], [], roots, seq(|roots|, _ => 0));
    ghost var done: seq<Node> := [];
    ListingStart(g, roots);
    GoingStart(g, roots);
    while queue != []
      invariant Going(g, roots, s, seen, cycles, problems) && s.out == out && s.queue == queue
      invariant Listing(g, roots, done, queue, out) && |done| == |out| + cycles
      invariant out == [] || |out| < maxItems
      decreases (if maxItems > 1 then maxItems else 1) - |out|, |queue|
    {
      GoingQueue(g, roots, s, seen, cycles, problems);
      var x := queue[0];
      GoingSeen(g, roots, s, seen, cycles, problems, x.addr);
      if x.addr in seen {
        ListingSkip(g, roots, done, queue, out);
        done := done + [x];
        GoingSkip(g, roots, s, seen, cycles, problems);
        s, queue, cycles := s.Skip(), queue[1..], cycles + 1;
        continue;
      }
      GoingTake(g, roots, s, seen, cycles, problems);
      s := s.Take(g);
      ListingTake(g, roots, done, queue, out);
      done := done + [x];
      seen := seen + {x.addr};
      out := out + [x];
      if |out| >= maxItems {
        StoppedAtTheLimit(g, roots, s, seen, cycles, problems);
        ListingStops(g, roots, done, queue[1..] + StepsTo(x, g.Edges(x.addr)), out, cycles);
        return out, true, cycles, problems, s.depths;
      }
      var nodes, bad := Children(g, x);
      queue, problems := queue[1..] + nodes, problems + bad;
    }
    StoppedAtTheEnd(g, roots, s, seen, cycles, problems);
    ListingStops(g, roots, done, queue, out, cycles);
    depths := s.depths;
  }

  lemma Stopped(g: Graph, roots: seq<Node>, s: Stage)
    requires s.Ok(g, roots)
    ensures Explored(g, roots, s.out, s.depths)
  {
    hide Stage.Ok;
    hide Reachable;
    hide Listed;
    hide Trail;
    hide Near;
    LevelsAscend(g, roots, s);
    forall i, k: nat | 0 <= i < |s.out| && Reachable(g, roots, s.out[i].addr, k)
      ensures s.depths[i] <= k
    {
      LeastDepth(g, roots, s, i, k);
    }
    AllReached(g, roots, s);
    LastIsNear(g, roots, s);
    hide Ascending;
  }

  lemma LastIsNear(g: Graph, roots: seq<Node>, s: Stage)
    requires s.Ok(g, roots)
    ensures s.Sized() && forall k: nat :: s.depths != [] && k < s.depths[|s.depths| - 1] ==> !Near(s, k)
  {
    hide Stage.Trails;
    hide Stage.Closed;
    hide Stage.Distinct;
  }

  lemma StoppedAtTheLimit(g: Graph, roots: seq<Node>, s: Stage, seen: set<int>, cycles: nat, problems: nat)
    requires s.out != [] && Going(g, roots, s, seen, cycles, problems + TroublesAt(g, s.out[|s.out| - 1].addr))
    ensures Explored(g, roots, s.out, s.depths) && problems == Troubles(g, s.out[..|s.out| - 1])
  {
    hide Stage.Ok;
    hide Explored;
    hide TroublesAt;
    Stopped(g, roots, s);
  }

  lemma StoppedAtTheEnd(g: Graph, roots: seq<Node>, s: Stage, seen: set<int>, cycles: nat, problems: nat)
    requires Going(g, roots, s, seen, cycles, problems) && s.queue == []
    ensures Explored(g, roots, s.out, s.depths) && problems == Troubles(g, s.out)
    ensures forall addr, k: nat :: Reachable(g, roots, addr, k) ==> Listed(s.out, s.depths, addr, k)
    ensures |roots| + FollowedBy(g, s.out) == |s.out| + cycles
  {
    hide Stage.Ok;
    hide Reachable;
    hide Listed;
    hide Trail;
    Stopped(g, roots, s);
    AllReached(g, roots, s);
  }

  function Addresses(ns: seq<Node>): set<int> {
    set n | n in ns :: n.addr
  }

  lemma SeenIsListed(ns: seq<Node>, a: int)
    ensures a in Addresses(ns) <==> exists i :: 0 <= i < |ns| && ns[i].addr == a
  {
    if a in Addresses(ns) {
      var n :| n in ns && n.addr == a;
      var i :| 0 <= i < |ns| && ns[i] == n;
      assert ns[i].addr == a;
    }
  }

  lemma SeenIsNothing()
    ensures Addresses([]) == {}
  {
  }

  lemma SeenGrows(ns: seq<Node>, x: Node)
    ensures Addresses(ns + [x]) == Addresses(ns) + {x.addr}
    ensures (ns + [x])[..|ns|] == ns
  {
    assert x in ns + [x];
    assert forall n :: n in ns ==> n in ns + [x];
  }

  lemma LevelsAscend(g: Graph, roots: seq<Node>, s: Stage)
    requires s.Ok(g, roots)
    ensures |s.out| == |s.depths| && Ascending(s.depths)
    ensures forall i :: 0 <= i < |s.out| ==> Trail(g, roots, s.out[i], s.depths[i])
    ensures forall i, j :: 0 <= i < j < |s.out| ==> s.out[i].addr != s.out[j].addr
  {
    hide Trail;
  }

  /** What the walk does at a node it has listed: nothing without an edge offset, a problem if the
      children cannot be read, otherwise one queue entry for each edge. */
  method Children(g: Graph, x: Node) returns (nodes: seq<Node>, problems: nat)
    ensures nodes == StepsTo(x, g.Edges(x.addr)) && problems == TroublesAt(g, x.addr)
  {
    if g.off.None? {
      return [], 0;
    }
    var kids := g.read(x.addr + g.off.value);
    if kids.Unavailable? {
      return [], 1;
    }
    if kids.NotAList? {
      return [], 0;
    }
    nodes, problems := Follow(x, kids.items);
  }

  lemma StartOk(g: Graph, roots: seq<Node>)
    ensures Stage([], [], roots, seq(|roots|, _ => 0)).Ok(g, roots)
  {
    var s := Stage([], [], roots, seq(|roots|, _ => 0));
    forall r | r in roots
      ensures s.Found(r.addr, 0)
    {
      var i :| 0 <= i < |roots| && roots[i] == r;
      assert s.waiting[i] == 0;
      assert Listed(roots, s.waiting, r.addr, 0);
    }
  }
}
