/** The BTreeMap reader as a whole: which maps it returns, and what its markers and refusals say of memory. */
module BTreeRead {
  import opened Wrappers
  import opened BTreeMap

  // ------------------------------------------------------------------ why a visit stops

  /** Where following these edges from a node leads, if each can be read and is not null. */
  ghost function Follow(mem: Memory, l: Layout, at: nat, path: seq<nat>): Option<nat> {
    if path == [] then Some(at)
    else
      var i := path[|path| - 1];
      var before := Follow(mem, l, at, path[..|path| - 1]);
      if before.None? || l.edges.None? then None
      else
        var edge := mem.ptr(before.value + l.edges.value + i * l.ptrSize);
        if edge == Some(0) then None else edge
  }

  ghost predicate Leads(mem: Memory, l: Layout, root: nat, path: seq<nat>, at: nat) {
    Follow(mem, l, root, path) == Some(at)
  }

  ghost predicate Reached(mem: Memory, l: Layout, root: nat, at: nat) {
    exists path :: Leads(mem, l, root, path, at)
  }

  /** An entry's place: a node reached from the root, and an index within its length. */
  ghost predicate Stored(mem: Memory, l: Layout, root: nat, s: Slot) {
    Reached(mem, l, root, s.0) && mem.u16(s.0 + l.len).Some? && s.1 < mem.u16(s.0 + l.len).value <= 11
  }

  /** What a marker says of a visit is so. A cycle is a node reached along two different paths. */
  ghost predicate IsTrue(mem: Memory, l: Layout, root: nat, m: Marker) {
    match m
    case Cycle(at) => exists p, q :: p != q && Leads(mem, l, root, p, at) && Leads(mem, l, root, q, at)
    case TooManyNodes(at) => Reached(mem, l, root, at)
    case TooManyItems(at, slot) => Stored(mem, l, root, (at, slot))
    case BadLen(at) => Reached(mem, l, root, at) && (mem.u16(at + l.len).None? || mem.u16(at + l.len).value > 11)
    case NoEdges(at) => Reached(mem, l, root, at) && l.edges.None?
    case BadEdge(at, i) =>
      && Reached(mem, l, root, at) && l.edges.Some?
      && mem.u16(at + l.len).Some? && i <= mem.u16(at + l.len).value <= 11
      && (mem.ptr(at + l.edges.value + i * l.ptrSize) == None || mem.ptr(at + l.edges.value + i * l.ptrSize) == Some(0))
    case LengthMismatch(_, _) => false
  }

  /** Every node seen before is reached along a path that does not go on from this one. */
  ghost predicate SeenBefore(mem: Memory, l: Layout, root: nat, seen: set<nat>, path: seq<nat>) {
    forall n :: n in seen ==> exists q :: Leads(mem, l, root, q, n) && !(path <= q)
  }

  ghost predicate SeenBelow(mem: Memory, l: Layout, root: nat, seen: set<nat>, path: seq<nat>) {
    forall n :: n in seen ==> exists q :: Leads(mem, l, root, q, n) && path <= q
  }

  /** The outcome of a visit of the node at the end of `path`, or of what is left of it. */
  ghost predicate Tells(mem: Memory, l: Layout, root: nat, path: seq<nat>, b: Budget, r: Outcome) {
    && SeenBelow(mem, l, root, r.left.seen - b.seen, path)
    && (forall s :: s in r.slots ==> Stored(mem, l, root, s))
    && (r.stop.Some? ==> IsTrue(mem, l, root, r.stop.value))
    && (r.stop.Some? && r.stop.value.TooManyItems? ==> r.left.items == 0)
    && (r.stop.Some? && r.stop.value.TooManyNodes? ==> r.left.nodes == 0)
  }

  lemma {:induction false} EmitTells(mem: Memory, l: Layout, root: nat, path: seq<nat>, at: nat, lo: nat, hi: nat,
                                     b: Budget)
    requires Leads(mem, l, root, path, at)
    requires mem.u16(at + l.len).Some? && hi <= mem.u16(at + l.len).value <= 11
    ensures Tells(mem, l, root, path, b, Emitted(at, lo, hi, b)) && Emitted(at, lo, hi, b).left.seen == b.seen
    decreases hi - lo
  {
    hide Follow;
    assert Reached(mem, l, root, at);
    if lo < hi && b.items > 0 {
      EmitTells(mem, l, root, path, at, lo + 1, hi, b.(items := b.items - 1));
    }
  }

  /** Every node seen so far is reached along a path that goes on from this one, if at all, over an edge
      before number `i`. */
  ghost predicate SeenUpTo(mem: Memory, l: Layout, root: nat, seen: set<nat>, path: seq<nat>, i: nat) {
    forall n :: n in seen ==> exists q :: Leads(mem, l, root, q, n) && NotFrom(q, path, i)
  }

  ghost predicate NotFrom(q: seq<nat>, path: seq<nat>, i: nat) {
    path <= q && |q| > |path| ==> q[|path|] < i
  }

  lemma Extended(q: seq<nat>, path: seq<nat>, i: nat)
    ensures path + [i] <= q <==> path <= q && |q| > |path| && q[|path|] == i
    ensures NotFrom(q, path, i) ==> !(path + [i] <= q)
  {
    if path <= q && |q| > |path| && q[|path|] == i {
      assert q[..|path| + 1] == path + [i];
    }
    if path + [i] <= q {
      assert path == (path + [i])[..|path|] == q[..|path|];
      assert (path + [i])[|path|] == i;
    }
  }

  lemma SeenStart(mem: Memory, l: Layout, root: nat, seen: set<nat>, path: seq<nat>, at: nat)
    requires Leads(mem, l, root, path, at) && SeenBefore(mem, l, root, seen, path)
    ensures SeenUpTo(mem, l, root, seen + {at}, path, 0)
  {
    hide Leads;
    forall n | n in seen + {at}
      ensures exists q :: Leads(mem, l, root, q, n) && NotFrom(q, path, 0)
    {
      if n in seen {
        var q :| Leads(mem, l, root, q, n) && !(path <= q);
        assert NotFrom(q, path, 0);
      } else {
        assert NotFrom(path, path, 0);
      }
    }
  }

  lemma SeenNext(mem: Memory, l: Layout, root: nat, seen: set<nat>, after: set<nat>, path: seq<nat>, i: nat)
    requires SeenUpTo(mem, l, root, seen, path, i) && SeenBelow(mem, l, root, after - seen, path + [i])
    ensures SeenUpTo(mem, l, root, after, path, i + 1)
  {
    hide Leads;
    forall n | n in after
      ensures exists q :: Leads(mem, l, root, q, n) && NotFrom(q, path, i + 1)
    {
      if n in seen {
        var q :| Leads(mem, l, root, q, n) && NotFrom(q, path, i);
        assert NotFrom(q, path, i + 1);
      } else {
        assert n in after - seen;
        var q :| Leads(mem, l, root, q, n) && path + [i] <= q;
        Extended(q, path, i);
        assert NotFrom(q, path, i + 1);
      }
    }
  }

  lemma SeenForKid(mem: Memory, l: Layout, root: nat, seen: set<nat>, path: seq<nat>, i: nat)
    requires SeenUpTo(mem, l, root, seen, path, i)
    ensures SeenBefore(mem, l, root, seen, path + [i])
  {
    hide Leads;
    forall n | n in seen
      ensures exists q :: Leads(mem, l, root, q, n) && !(path + [i] <= q)
    {
      var q :| Leads(mem, l, root, q, n) && NotFrom(q, path, i);
      Extended(q, path, i);
    }
  }

  lemma SeenAbove(mem: Memory, l: Layout, root: nat, seen: set<nat>, path: seq<nat>, i: nat)
    requires SeenBelow(mem, l, root, seen, path + [i])
    ensures SeenBelow(mem, l, root, seen, path)
  {
    hide Leads;
    forall n | n in seen
      ensures exists q :: Leads(mem, l, root, q, n) && path <= q
    {
      var q :| Leads(mem, l, root, q, n) && path + [i] <= q;
      Extended(q, path, i);
    }
  }

  lemma LeadsOn(mem: Memory, l: Layout, root: nat, path: seq<nat>, at: nat, i: nat)
    requires Leads(mem, l, root, path, at) && l.edges.Some?
    requires EdgeAt(mem, l, at, i).Some? && EdgeAt(mem, l, at, i).value != 0
    ensures Leads(mem, l, root, path + [i], EdgeAt(mem, l, at, i).value)
  {
    assert (path + [i])[..|path + [i]| - 1] == path;
  }

  lemma TellsChain(mem: Memory, l: Layout, root: nat, path: seq<nat>, b: Budget, r: Outcome, q: Outcome)
    requires Tells(mem, l, root, path, b, r) && Tells(mem, l, root, path, r.left, q)
    ensures Tells(mem, l, root, path, b, q.(slots := r.slots + q.slots))
  {
    hide Leads;
    hide Stored;
    hide IsTrue;
    assert forall n :: n in q.left.seen - b.seen ==> n in r.left.seen - b.seen || n in q.left.seen - r.left.seen;
  }

  /** The node itself is met. */
  lemma TellsNode(mem: Memory, l: Layout, root: nat, path: seq<nat>, at: nat, b: Budget, nodes: nat, q: Outcome)
    requires Leads(mem, l, root, path, at)
    requires Tells(mem, l, root, path, Budget(b.seen + {at}, b.items, nodes), q)
    ensures Tells(mem, l, root, path, b, q)
  {
    hide Leads;
    hide Stored;
    hide IsTrue;
    assert path <= path;
    assert forall n :: n in q.left.seen - b.seen ==> n == at || n in q.left.seen - (b.seen + {at});
  }

  lemma TellsKid(mem: Memory, l: Layout, root: nat, path: seq<nat>, i: nat, b: Budget, r: Outcome)
    requires Tells(mem, l, root, path + [i], b, r)
    ensures Tells(mem, l, root, path, b, r)
  {
    hide Leads;
    hide Stored;
    hide IsTrue;
    SeenAbove(mem, l, root, r.left.seen - b.seen, path, i);
  }

  /** Why a visit stops: the marker says what is so, and every entry is stored in a node reached. */
  lemma {:induction false} VisitTells(mem: Memory, l: Layout, root: nat, path: seq<nat>, at: nat, height: nat,
                                      b: Budget)
    requires Leads(mem, l, root, path, at) && SeenBefore(mem, l, root, b.seen, path)
    ensures Tells(mem, l, root, path, b, Visited(mem, l, at, height, b))
    decreases height, CAPACITY + 2
  {
    hide Follow;
    hide Emitted;
    hide EdgesVisited;
    hide SeenUpTo;
    assert Reached(mem, l, root, at);
    if at !in b.seen && b.nodes > 0 {
      var b' := Budget(b.seen + {at}, b.items, b.nodes - 1);
      SeenStart(mem, l, root, b.seen, path, at);
      var n := mem.u16(at + l.len);
      var r := Visited(mem, l, at, height, b);
      if n.Some? && n.value <= CAPACITY {
        if height == 0 {
          EmitTells(mem, l, root, path, at, 0, n.value, b');
        } else if l.edges.Some? {
          EdgesTell(mem, l, root, path, at, height, n.value, 0, b');
        }
      }
      assert Tells(mem, l, root, path, b', r);
      TellsNode(mem, l, root, path, at, b, b.nodes - 1, r);
    }
  }

  lemma {:induction false} EdgesTell(mem: Memory, l: Layout, root: nat, path: seq<nat>, at: nat, height: nat, n: nat,
                                     i: nat, b: Budget)
    requires height > 0 && l.edges.Some? && n <= CAPACITY && i <= n + 1
    requires Leads(mem, l, root, path, at) && mem.u16(at + l.len) == Some(n)
    requires SeenUpTo(mem, l, root, b.seen, path, i)
    ensures Tells(mem, l, root, path, b, EdgesVisited(mem, l, at, height, n, i, b))
    decreases height, n + 1 - i
  {
    hide Follow;
    hide Emitted;
    hide Visited;
    assert Reached(mem, l, root, at);
    if i <= n {
      var edge := EdgeAt(mem, l, at, i);
      if edge.Some? && edge.value != 0 {
        LeadsOn(mem, l, root, path, at, i);
        SeenForKid(mem, l, root, b.seen, path, i);
        VisitTells(mem, l, root, path + [i], edge.value, height - 1, b);
        var kid := Visited(mem, l, edge.value, height - 1, b);
        TellsKid(mem, l, root, path, i, b, kid);
        SeenNext(mem, l, root, b.seen, kid.left.seen, path, i);
        if kid.stop.None? {
          var own := Emitted(at, i, if i < n then i + 1 else i, kid.left);
          EmitTells(mem, l, root, path, at, i, if i < n then i + 1 else i, kid.left);
          TellsChain(mem, l, root, path, b, kid, own);
          if own.stop.None? {
            var rest := EdgesVisited(mem, l, at, height, n, i + 1, own.left);
            EdgesTell(mem, l, root, path, at, height, n, i + 1, own.left);
            TellsChain(mem, l, root, path, kid.left, own, rest);
            TellsChain(mem, l, root, path, b, kid, rest.(slots := own.slots + rest.slots));
          }
        }
      }
    }
  }

  // ------------------------------------------------------------------ the reader

  /** What a call says is unavailable, and when. */
  ghost predicate Refused(mem: Memory, addr: nat, rootOff: Option<nat>, lenOff: Option<nat>, node: Option<Layout>,
                          why: Reason) {
    if rootOff.None? || lenOff.None? then why == NoFieldOffset
    else if mem.ptr(addr + lenOff.value) == None then why == NoLength
    else if node.None? then mem.ptr(addr + lenOff.value) != Some(0) && why == NoNodeLayout
    else if mem.ptr(addr + rootOff.value + node.value.node) == None then why == NoRoot
    else if mem.ptr(addr + rootOff.value + node.value.node) == Some(0) then
      mem.ptr(addr + lenOff.value) != Some(0) && why == RootNullButLength
    else if mem.ptr(addr + rootOff.value + node.value.height) == None then why == NoHeight
    else mem.ptr(addr + rootOff.value + node.value.height).value > 32 && why == TooHigh
  }

  /** Key and value of each of these slots, in order. */
  ghost predicate ReadAt<K, V>(l: Layout, key: int -> K, value: int -> V, slots: seq<Slot>, es: seq<(K, V)>) {
    && |es| == |slots|
    && forall i :: 0 <= i < |slots| ==>
         var (at, k) := slots[i];
         es[i] == (key(at + l.keys + k * l.keySize), value(at + l.vals + k * l.valSize))
  }

  /** Memory holds a map with exactly these entries: their number in the length field, and either a null root
      and none, or a root and a height of at most 32 and under them a whole tree with these entries. */
  ghost predicate IsMap<K, V>(mem: Memory, addr: nat, rootOff: nat, lenOff: nat, l: Layout, key: int -> K,
                              value: int -> V, max: nat, es: seq<(K, V)>) {
    && mem.ptr(addr + lenOff) == Some(|es|)
    && var root := mem.ptr(addr + rootOff + l.node);
       && root.Some?
       && if root.value == 0 then es == []
          else
            var height := mem.ptr(addr + rootOff + l.height);
            && height.Some? && height.value <= 32
            && exists t ::
                 && WholeTree(mem, l, root.value, height.value, |es|, max, t)
                 && ReadAt(l, key, value, InOrder(t), es)
  }

  /** Different nodes, as many as the limit allows, all reached from the root. */
  ghost predicate ManyNodes(mem: Memory, l: Layout, root: nat, max: nat, nodes: set<nat>) {
    |nodes| == max && forall n :: n in nodes ==> Reached(mem, l, root, n)
  }

  /** What a marker after the entries says is so, and each entry is one stored in a node under the root. */
  ghost predicate Marked<K, V>(mem: Memory, addr: nat, rootOff: nat, lenOff: nat, l: Layout, key: int -> K,
                               value: int -> V, max: nat, es: seq<(K, V)>, m: Marker) {
    var root := mem.ptr(addr + rootOff + l.node);
    && root.Some? && root.value != 0
    && (if m.LengthMismatch? then m.found == |es| && mem.ptr(addr + lenOff) == Some(m.length) && m.found != m.length
        else IsTrue(mem, l, root.value, m))
    && (m.TooManyItems? ==> |es| == max)
    && (m.TooManyNodes? ==> exists nodes :: ManyNodes(mem, l, root.value, max, nodes))
    && exists slots :: ReadAt(l, key, value, slots, es) && forall s :: s in slots ==> Stored(mem, l, root.value, s)
  }

  lemma {:induction false} EntriesReadAt<K, V>(l: Layout, key: int -> K, value: int -> V, slots: seq<Slot>)
    ensures ReadAt(l, key, value, slots, Entries(l, key, value, slots))
  {
    if slots != [] {
      EntriesReadAt(l, key, value, slots[1..]);
      var es, rest := Entries(l, key, value, slots), Entries(l, key, value, slots[1..]);
      forall i | 0 <= i < |slots|
        ensures es[i] == EntryAt(l, key, value, slots[i])
      {
        if i > 0 {
          assert es[i] == rest[i - 1] && slots[1..][i - 1] == slots[i];
        }
      }
    }
  }

  lemma HeadRefuses(mem: Memory, addr: nat, rootOff: Option<nat>, lenOff: Option<nat>, node: Option<Layout>,
                    why: Reason)
    ensures ReadHead(mem, addr, rootOff, lenOff, node) == Fail(why) <==> Refused(mem, addr, rootOff, lenOff, node, why)
  {
  }

  /** The head of a map and the tree under it make the map. */
  lemma RootIsMap<K, V>(mem: Memory, addr: nat, rootOff: nat, lenOff: nat, l: Layout, key: int -> K,
                        value: int -> V, max: nat, es: seq<(K, V)>)
    requires ReadHead(mem, addr, Some(rootOff), Some(lenOff), Some(l)).Root?
    ensures var h := ReadHead(mem, addr, Some(rootOff), Some(lenOff), Some(l));
            var (slots, marker) := ReadNodes(mem, l, h.at, h.height, h.length, max);
            IsMap(mem, addr, rootOff, lenOff, l, key, value, max, es) <==>
            marker == None && es == Entries(l, key, value, slots)
  {
    hide InOrder;
    var h := ReadHead(mem, addr, Some(rootOff), Some(lenOff), Some(l));
    var (slots, marker) := ReadNodes(mem, l, h.at, h.height, h.length, max);
    ReadIsWholeTree(mem, l, h.at, h.height, h.length, max);
    EntriesReadAt(l, key, value, slots);
  }

  lemma StopSays(mem: Memory, l: Layout, root: nat, max: nat, r: Outcome)
    requires Tells(mem, l, root, [], Budget({}, max, max), r) && Paid(Budget({}, max, max), r)
    ensures r.stop.Some? ==> !r.stop.value.LengthMismatch?
    ensures r.stop.Some? && r.stop.value.TooManyNodes? ==> exists nodes :: ManyNodes(mem, l, root, max, nodes)
  {
    hide Leads;
    hide Stored;
    assert r.left.seen - {} == r.left.seen;
    assert r.left.nodes == 0 ==> ManyNodes(mem, l, root, max, r.left.seen);
  }

  lemma RootIsMarked<K, V>(mem: Memory, addr: nat, rootOff: nat, lenOff: nat, l: Layout, key: int -> K,
                           value: int -> V, max: nat)
    requires ReadHead(mem, addr, Some(rootOff), Some(lenOff), Some(l)).Root?
    ensures var h := ReadHead(mem, addr, Some(rootOff), Some(lenOff), Some(l));
            var (slots, marker) := ReadNodes(mem, l, h.at, h.height, h.length, max);
            marker.Some? ==>
              Marked(mem, addr, rootOff, lenOff, l, key, value, max, Entries(l, key, value, slots), marker.value)
  {
    hide Stored;
    hide IsTrue;
    hide Visited;
    var h := ReadHead(mem, addr, Some(rootOff), Some(lenOff), Some(l));
    var root, height, b := h.at, h.height, Budget({}, max, max);
    var (slots, marker) := ReadNodes(mem, l, root, height, h.length, max);
    var r := Visited(mem, l, root, height, b);
    assert Leads(mem, l, root, [], root);
    VisitTells(mem, l, root, [], root, height, b);
    VisitPaid(mem, l, root, height, b);
    EntriesReadAt(l, key, value, slots);
    StopSays(mem, l, root, max, r);
  }

  /** What a call gives, by what its head and the nodes under it are. */
  function Given<K, V>(mem: Memory, addr: nat, rootOff: Option<nat>, lenOff: Option<nat>, node: Option<Layout>,
                       key: int -> K, value: int -> V, max: nat): Value<K, V> {
    match ReadHead(mem, addr, rootOff, lenOff, node)
    case Fail(why) => Unavailable(why)
    case NoEntries => Items([], None)
    case Root(at, height, length) =>
      var (slots, marker) := ReadNodes(mem, node.value, at, height, length, max);
      Items(Entries(node.value, key, value, slots), marker)
  }

  lemma ReadMeans<K, V>(mem: Memory, addr: nat, rootOff: Option<nat>, lenOff: Option<nat>, node: Option<Layout>,
                        key: int -> K, value: int -> V, max: nat)
    ensures var r := Given(mem, addr, rootOff, lenOff, node, key, value, max);
            && (forall why :: r == Unavailable(why) <==> Refused(mem, addr, rootOff, lenOff, node, why))
            && (r.Items? && node.None? ==> r == Items([], None))
            && (rootOff.Some? && lenOff.Some? && node.Some? ==>
                  forall es :: r == Items(es, None) <==>
                               IsMap(mem, addr, rootOff.value, lenOff.value, node.value, key, value, max, es))
            && (r.Items? && r.marker.Some? ==>
                  && rootOff.Some? && lenOff.Some? && node.Some?
                  && Marked(mem, addr, rootOff.value, lenOff.value, node.value, key, value, max, r.entries,
                            r.marker.value))
  {
    hide ReadNodes;
    hide Marked;
    var h := ReadHead(mem, addr, rootOff, lenOff, node);
    forall why
      ensures h == Fail(why) <==> Refused(mem, addr, rootOff, lenOff, node, why)
    {
      HeadRefuses(mem, addr, rootOff, lenOff, node, why);
    }
    if h.Root? {
      RootIsMarked(mem, addr, rootOff.value, lenOff.value, node.value, key, value, max);
      forall es: seq<(K, V)>
        ensures IsMap(mem, addr, rootOff.value, lenOff.value, node.value, key, value, max, es) <==>
                Given(mem, addr, rootOff, lenOff, node, key, value, max) == Items(es, None)
      {
        RootIsMap(mem, addr, rootOff.value, lenOff.value, node.value, key, value, max, es);
      }
    }
  }

  /** btreemap.__call__, with the budget it computes. */
  method ReadValue<K, V>(mem: Memory, addr: nat, rootOff: Option<nat>, lenOff: Option<nat>, node: Option<Layout>,
                         key: int -> K, value: int -> V, budget: nat) returns (r: Value<K, V>)
    ensures r == Given(mem, addr, rootOff, lenOff, node, key, value, budget)
  {
    var head := ReadHead(mem, addr, rootOff, lenOff, node);
    if head.Fail? {
      return Unavailable(head.why);
    }
    if head.NoEntries? {
      return Items([], None);
    }
    var t := new Traversal<K, V>(mem, node.value, key, value, budget);
    var stop := t.Visit(head.at, head.height);
    if stop.Some? {
      return Items(t.out, stop);
    }
    if |t.out| != head.length {
      return Items(t.out, Some(LengthMismatch(|t.out|, head.length)));
    }
    r := Items(t.out, None);
  }

  /** btreemap.__call__ */
  method Read<K, V>(mem: Memory, addr: nat, rootOff: Option<nat>, lenOff: Option<nat>, node: Option<Layout>,
                    key: int -> K, value: int -> V, maxItems: int) returns (r: Value<K, V>)
    ensures r == Given(mem, addr, rootOff, lenOff, node, key, value, if maxItems > 0 then maxItems else 0)
    ensures forall why :: r == Unavailable(why) <==> Refused(mem, addr, rootOff, lenOff, node, why)
    ensures r.Items? && node.None? ==> r == Items([], None)
    ensures rootOff.Some? && lenOff.Some? && node.Some? ==>
              forall es :: r == Items(es, None) <==>
                           IsMap(mem, addr, rootOff.value, lenOff.value, node.value, key, value,
                                 if maxItems > 0 then maxItems else 0, es)
    ensures r.Items? && r.marker.Some? ==>
              && rootOff.Some? && lenOff.Some? && node.Some?
              && Marked(mem, addr, rootOff.value, lenOff.value, node.value, key, value,
                        if maxItems > 0 then maxItems else 0, r.entries, r.marker.value)
  {
    hide IsMap;
    hide Marked;
    hide Refused;
    r := ReadValue(mem, addr, rootOff, lenOff, node, key, value, if maxItems > 0 then maxItems else 0);
    hide ReadHead;
    hide ReadNodes;
    ReadMeans(mem, addr, rootOff, lenOff, node, key, value, if maxItems > 0 then maxItems else 0);
    hide Given;
  }
}
