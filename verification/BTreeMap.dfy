/** The BTreeMap reader of nodefusion/model/readers/containers.py: an in-order traversal of nodes in
    raw guest memory, which may be corrupt, with a visited set, budgets and explicit markers for
    everything that was not read. */
module BTreeMap {
  import opened Wrappers

  const CAPACITY := 11
  const MAX_HEIGHT := 32

  /** Memory as the reader uses it; None is an address that cannot be read. */
  datatype Memory = Memory(u16: int -> Option<nat>, ptr: int -> Option<nat>)

  /** BTreeNodeLayout: field offsets and entry strides. */
  datatype Layout = Layout(height: nat, node: nat, len: nat, keys: nat, vals: nat, keySize: nat, valSize: nat,
                           edges: Option<nat>, ptrSize: nat)

  datatype Marker =
    | Cycle(at: nat)
    | TooManyNodes(at: nat)
    | TooManyItems(at: nat, slot: nat)
    | BadLen(at: nat)
    | NoEdges(at: nat)
    | BadEdge(at: nat, edge: nat)
    | LengthMismatch(found: nat, length: nat)
  {
    predicate Truncated() {
      TooManyNodes? || TooManyItems?
    }
  }

  /** An entry's place: its node and its index there. */
  type Slot = (nat, nat)

  // ------------------------------------------------------------------ trees in memory

  datatype Tree = Tree(at: nat, len: nat, kids: seq<Tree>)

  /** `t` is what the memory holds at `at`, a node of this height: its length is readable and within
      capacity, and an inner node has one child more than entries, each behind a non-null edge. */
  ghost predicate Represents(mem: Memory, l: Layout, at: nat, height: nat, t: Tree)
    decreases height, CAPACITY + 2
  {
    && t.at == at && mem.u16(at + l.len) == Some(t.len) && t.len <= 11
    && if height == 0 then t.kids == []
       else l.edges.Some? && |t.kids| == t.len + 1 && KidsRepresent(mem, l, at, height, 0, t.kids)
  }

  /** `kids` are the children behind the edges from number `i` on. */
  ghost predicate KidsRepresent(mem: Memory, l: Layout, at: nat, height: nat, i: nat, kids: seq<Tree>)
    requires height > 0 && l.edges.Some?
    decreases height, |kids|
  {
    kids != [] ==>
      var edge := mem.ptr(at + l.edges.value + i * l.ptrSize);
      && edge.Some? && edge.value != 0
      && Represents(mem, l, edge.value, height - 1, kids[0])
      && KidsRepresent(mem, l, at, height, i + 1, kids[1..])
  }

  function EdgeAt(mem: Memory, l: Layout, at: nat, i: nat): Option<nat>
    requires l.edges.Some?
  {
    mem.ptr(at + l.edges.value + i * l.ptrSize)
  }

  /** The node's own slots lo, ..., hi - 1. */
  function Own(at: nat, lo: nat, hi: nat): (s: seq<Slot>)
    ensures |s| == if lo <= hi then hi - lo else 0
    decreases hi - lo
  {
    if lo >= hi then [] else [(at, lo)] + Own(at, lo + 1, hi)
  }

  /** The entries of a tree in key order: child 0, entry 0, child 1, ..., the last child. */
  function InOrder(t: Tree): seq<Slot>
    decreases t
  {
    if t.kids == [] then Own(t.at, 0, t.len) else Interleave(t.at, t.len, 0, t.kids)
  }

  function Interleave(at: nat, len: nat, i: nat, kids: seq<Tree>): seq<Slot>
    decreases kids
  {
    if kids == [] then []
    else InOrder(kids[0]) + (Own(at, i, if i < len then i + 1 else i) + Interleave(at, len, i + 1, kids[1..]))
  }

  /** The nodes of a tree, parents first. */
  function Nodes(t: Tree): seq<nat> {
    [t.at] + NodesOf(t.kids)
  }

  function NodesOf(kids: seq<Tree>): seq<nat> {
    if kids == [] then [] else Nodes(kids[0]) + NodesOf(kids[1..])
  }

  // ------------------------------------------------------------------ the traversal

  datatype Budget = Budget(seen: set<nat>, items: nat, nodes: nat)

  /** The slots emitted, what is left of the budget, and why the traversal stopped early if it did. */
  datatype Outcome = Outcome(slots: seq<Slot>, left: Budget, stop: Option<Marker>)

  function Emitted(at: nat, lo: nat, hi: nat, b: Budget): Outcome
    decreases hi - lo
  {
    if lo >= hi then Outcome([], b, None)
    else if b.items == 0 then Outcome([], b, Some(TooManyItems(at, lo)))
    else
      var r := Emitted(at, lo + 1, hi, b.(items := b.items - 1));
      r.(slots := [(at, lo)] + r.slots)
  }

  function Visited(mem: Memory, l: Layout, at: nat, height: nat, b: Budget): Outcome
    decreases height, CAPACITY + 2
  {
    if at in b.seen then Outcome([], b, Some(Cycle(at)))
    else if b.nodes == 0 then Outcome([], b, Some(TooManyNodes(at)))
    else
      var b' := Budget(b.seen + {at}, b.items, b.nodes - 1);
      match mem.u16(at + l.len)
      case None => Outcome([], b', Some(BadLen(at)))
      case Some(n) =>
        if n > CAPACITY then Outcome([], b', Some(BadLen(at)))
        else if height == 0 then Emitted(at, 0, n, b')
        else if l.edges.None? then Outcome([], b', Some(NoEdges(at)))
        else EdgesVisited(mem, l, at, height, n, 0, b')
  }

  function EdgesVisited(mem: Memory, l: Layout, at: nat, height: nat, n: nat, i: nat, b: Budget): Outcome
    requires height > 0 && l.edges.Some? && n <= CAPACITY && i <= n + 1
    decreases height, n + 1 - i
  {
    if i == n + 1 then Outcome([], b, None)
    else
      var edge := EdgeAt(mem, l, at, i);
      if edge.None? || edge.value == 0 then Outcome([], b, Some(BadEdge(at, i)))
      else
        var kid := Visited(mem, l, edge.value, height - 1, b);
        if kid.stop.Some? then kid
        else
          var own := Emitted(at, i, if i < n then i + 1 else i, kid.left);
          if own.stop.Some? then own.(slots := kid.slots + own.slots)
          else
            var rest := EdgesVisited(mem, l, at, height, n, i + 1, own.left);
            rest.(slots := kid.slots + (own.slots + rest.slots))
  }

  // ------------------------------------------------------------------ what a complete visit means

  ghost predicate Distinct(ns: seq<nat>) {
    forall i, j :: 0 <= i < j < |ns| ==> ns[i] != ns[j]
  }

  /** The nodes and entries fit the budget, and no node is met twice. */
  ghost predicate Room(b: Budget, ns: seq<nat>, ss: seq<Slot>) {
    && |ns| <= b.nodes && |ss| <= b.items
    && Distinct(ns) && forall a :: a in ns ==> a !in b.seen
  }

  ghost function Spent(b: Budget, ns: seq<nat>, ss: seq<Slot>): Budget
    requires Room(b, ns, ss)
  {
    Budget(b.seen + (set a | a in ns), b.items - |ss|, b.nodes - |ns|)
  }

  lemma RoomSplit(b: Budget, ns: seq<nat>, ms: seq<nat>, ss: seq<Slot>, ts: seq<Slot>)
    ensures Room(b, ns + ms, ss + ts) <==> Room(b, ns, ss) && Room(Spent(b, ns, ss), ms, ts)
    ensures Room(b, ns + ms, ss + ts) ==> Spent(b, ns + ms, ss + ts) == Spent(Spent(b, ns, ss), ms, ts)
  {
    var all := ns + ms;
    assert (set a | a in all) == (set a | a in ns) + (set a | a in ms);
    assert forall i :: 0 <= i < |ns| ==> all[i] == ns[i];
    assert forall j :: 0 <= j < |ms| ==> all[|ns| + j] == ms[j];
    if Room(b, all, ss + ts) {
      assert forall a :: a in ns || a in ms ==> a in all;
    } else if Room(b, ns, ss) && Room(Spent(b, ns, ss), ms, ts) {
      forall i, j | 0 <= i < j < |all|
        ensures all[i] != all[j]
      {
        assert i < |ns| <= j ==> all[i] in ns && all[j] in ms;
      }
      assert false;
    }
  }

  lemma {:induction false} EmitAll(at: nat, lo: nat, hi: nat, b: Budget)
    ensures var r := Emitted(at, lo, hi, b);
            r.stop.None? <==> Room(b, [], Own(at, lo, hi))
    ensures var r := Emitted(at, lo, hi, b);
            r.stop.None? ==> r.slots == Own(at, lo, hi) && r.left == Spent(b, [], Own(at, lo, hi))
    decreases hi - lo
  {
    if lo < hi && b.items > 0 {
      EmitAll(at, lo + 1, hi, b.(items := b.items - 1));
    }
  }

  /** A tree of distinct unvisited nodes that fits the budget is returned whole and in order. */
  lemma {:induction false} VisitComplete(mem: Memory, l: Layout, at: nat, height: nat, b: Budget, t: Tree)
    requires Represents(mem, l, at, height, t) && Room(b, Nodes(t), InOrder(t))
    ensures Visited(mem, l, at, height, b) == Outcome(InOrder(t), Spent(b, Nodes(t), InOrder(t)), None)
    decreases height, CAPACITY + 2
  {
    RoomSplit(b, [at], NodesOf(t.kids), [], InOrder(t));
    assert [] + InOrder(t) == InOrder(t);
    var b' := Spent(b, [at], []);
    assert at in [at];
    assert b' == Budget(b.seen + {at}, b.items, b.nodes - 1);
    if height == 0 {
      EmitAll(at, 0, t.len, b');
    } else {
      EdgesComplete(mem, l, at, height, t.len, 0, b', t.kids);
    }
  }

  lemma {:induction false} EdgesComplete(mem: Memory, l: Layout, at: nat, height: nat, n: nat, i: nat, b: Budget,
                                         kids: seq<Tree>)
    requires height > 0 && l.edges.Some? && n <= CAPACITY && i <= n + 1 && |kids| == n + 1 - i
    requires KidsRepresent(mem, l, at, height, i, kids)
    requires Room(b, NodesOf(kids), Interleave(at, n, i, kids))
    ensures EdgesVisited(mem, l, at, height, n, i, b)
            == Outcome(Interleave(at, n, i, kids), Spent(b, NodesOf(kids), Interleave(at, n, i, kids)), None)
    decreases height, n + 1 - i
  {
    if kids != [] {
      var own, rest := Own(at, i, if i < n then i + 1 else i), Interleave(at, n, i + 1, kids[1..]);
      RoomSplit(b, Nodes(kids[0]), NodesOf(kids[1..]), InOrder(kids[0]), own + rest);
      VisitComplete(mem, l, EdgeAt(mem, l, at, i).value, height - 1, b, kids[0]);
      var b1 := Spent(b, Nodes(kids[0]), InOrder(kids[0]));
      RoomSplit(b1, [], NodesOf(kids[1..]), own, rest);
      assert [] + NodesOf(kids[1..]) == NodesOf(kids[1..]);
      EmitAll(at, i, if i < n then i + 1 else i, b1);
      EdgesComplete(mem, l, at, height, n, i + 1, Spent(b1, [], own), kids[1..]);
    }
  }

  /** A visit that does not stop has gone over a tree of distinct unvisited nodes within the budget. */
  lemma {:induction false} VisitSound(mem: Memory, l: Layout, at: nat, height: nat, b: Budget) returns (t: Tree)
    requires Visited(mem, l, at, height, b).stop.None?
    ensures Represents(mem, l, at, height, t) && Room(b, Nodes(t), InOrder(t))
    decreases height, CAPACITY + 2
  {
    var n := mem.u16(at + l.len).value;
    var b' := Spent(b, [at], []);
    assert b' == Budget(b.seen + {at}, b.items, b.nodes - 1);
    if height == 0 {
      t := Tree(at, n, []);
      EmitAll(at, 0, n, b');
    } else {
      var kids := EdgesSound(mem, l, at, height, n, 0, b');
      t := Tree(at, n, kids);
    }
    RoomSplit(b, [at], NodesOf(t.kids), [], InOrder(t));
    assert [] + InOrder(t) == InOrder(t);
  }

  lemma {:induction false} EdgesSound(mem: Memory, l: Layout, at: nat, height: nat, n: nat, i: nat, b: Budget)
    returns (kids: seq<Tree>)
    requires height > 0 && l.edges.Some? && n <= CAPACITY && i <= n + 1
    requires EdgesVisited(mem, l, at, height, n, i, b).stop.None?
    ensures |kids| == n + 1 - i && KidsRepresent(mem, l, at, height, i, kids)
    ensures Room(b, NodesOf(kids), Interleave(at, n, i, kids))
    decreases height, n + 1 - i
  {
    if i == n + 1 {
      kids := [];
    } else {
      var kid := VisitSound(mem, l, EdgeAt(mem, l, at, i).value, height - 1, b);
      VisitComplete(mem, l, EdgeAt(mem, l, at, i).value, height - 1, b, kid);
      var own := Own(at, i, if i < n then i + 1 else i);
      var b1 := Spent(b, Nodes(kid), InOrder(kid));
      EmitAll(at, i, if i < n then i + 1 else i, b1);
      var more := EdgesSound(mem, l, at, height, n, i + 1, Spent(b1, [], own));
      kids := [kid] + more;
      var rest := Interleave(at, n, i + 1, more);
      RoomSplit(b1, [], NodesOf(more), own, rest);
      assert [] + NodesOf(more) == NodesOf(more);
      RoomSplit(b, Nodes(kid), NodesOf(more), InOrder(kid), own + rest);
    }
  }

  // ------------------------------------------------------------------ budgets

  /** Every node visited and every entry emitted is paid for. */
  ghost predicate Paid(b: Budget, r: Outcome) {
    && b.seen <= r.left.seen
    && |r.left.seen - b.seen| + r.left.nodes == b.nodes
    && |r.slots| + r.left.items == b.items
  }

  lemma {:induction false} EmitPaid(at: nat, lo: nat, hi: nat, b: Budget)
    ensures Paid(b, Emitted(at, lo, hi, b)) && Emitted(at, lo, hi, b).left.seen == b.seen
    decreases hi - lo
  {
    assert b.seen - b.seen == {};
    if lo < hi && b.items > 0 {
      EmitPaid(at, lo + 1, hi, b.(items := b.items - 1));
    }
  }

  lemma PaidChain(b: Budget, r: Outcome, q: Outcome)
    requires Paid(b, r) && Paid(r.left, q)
    ensures Paid(b, q.(slots := r.slots + q.slots))
  {
    assert q.left.seen - b.seen == (q.left.seen - r.left.seen) + (r.left.seen - b.seen);
  }

  /** Whatever the memory, cyclic or corrupt, no more nodes are visited and no more entries emitted
      than the budget allows. */
  lemma {:induction false} VisitPaid(mem: Memory, l: Layout, at: nat, height: nat, b: Budget)
    ensures Paid(b, Visited(mem, l, at, height, b))
    decreases height, CAPACITY + 2
  {
    assert b.seen - b.seen == {};
    if at !in b.seen && b.nodes > 0 {
      var b' := Budget(b.seen + {at}, b.items, b.nodes - 1);
      assert b'.seen - b.seen == {at} && b'.seen - b'.seen == {};
      var n := mem.u16(at + l.len);
      var r := Visited(mem, l, at, height, b);
      if n.Some? && n.value <= CAPACITY {
        if height == 0 {
          EmitPaid(at, 0, n.value, b');
        } else if l.edges.Some? {
          EdgesPaid(mem, l, at, height, n.value, 0, b');
        }
      }
      assert Paid(b', r);
      PaidChain(b, Outcome([], b', None), r);
      assert [] + r.slots == r.slots;
    }
  }

  lemma {:induction false} EdgesPaid(mem: Memory, l: Layout, at: nat, height: nat, n: nat, i: nat, b: Budget)
    requires height > 0 && l.edges.Some? && n <= CAPACITY && i <= n + 1
    ensures Paid(b, EdgesVisited(mem, l, at, height, n, i, b))
    decreases height, n + 1 - i
  {
    assert b.seen - b.seen == {};
    if i <= n {
      var edge := EdgeAt(mem, l, at, i);
      if edge.Some? && edge.value != 0 {
        VisitPaid(mem, l, edge.value, height - 1, b);
        var kid := Visited(mem, l, edge.value, height - 1, b);
        var own := Emitted(at, i, if i < n then i + 1 else i, kid.left);
        EmitPaid(at, i, if i < n then i + 1 else i, kid.left);
        PaidChain(b, kid, own);
        if kid.stop.None? && own.stop.None? {
          var rest := EdgesVisited(mem, l, at, height, n, i + 1, own.left);
          EdgesPaid(mem, l, at, height, n, i + 1, own.left);
          PaidChain(kid.left, own, rest);
          PaidChain(b, kid, rest.(slots := own.slots + rest.slots));
        }
      }
    }
  }

  /** What a larger budget changes: nothing, unless the smaller one ran out, and then only what comes
      after. */
  ghost predicate Extends(r: Outcome, q: Outcome, items: nat, nodes: nat) {
    if r.stop.Some? && r.stop.value.Truncated() then r.slots <= q.slots
    else q == Outcome(r.slots, Budget(r.left.seen, r.left.items + items, r.left.nodes + nodes), r.stop)
  }

  function More(b: Budget, items: nat, nodes: nat): Budget {
    Budget(b.seen, b.items + items, b.nodes + nodes)
  }

  lemma {:induction false} EmitExtends(at: nat, lo: nat, hi: nat, b: Budget, items: nat, nodes: nat)
    ensures Extends(Emitted(at, lo, hi, b), Emitted(at, lo, hi, More(b, items, nodes)), items, nodes)
    decreases hi - lo
  {
    if lo < hi && b.items > 0 {
      EmitExtends(at, lo + 1, hi, b.(items := b.items - 1), items, nodes);
    }
  }

  /** The entries emitted under a smaller budget are a prefix of those emitted under a larger one,
      and a visit that did not run out of budget is the same under any larger one. */
  lemma {:induction false} VisitExtends(mem: Memory, l: Layout, at: nat, height: nat, b: Budget, items: nat, nodes: nat)
    ensures Extends(Visited(mem, l, at, height, b), Visited(mem, l, at, height, More(b, items, nodes)), items, nodes)
    decreases height, CAPACITY + 2
  {
    hide EdgesVisited;
    hide Emitted;
    if at !in b.seen && b.nodes > 0 {
      var b' := Budget(b.seen + {at}, b.items, b.nodes - 1);
      var n := mem.u16(at + l.len);
      if n.Some? && n.value <= CAPACITY {
        if height == 0 {
          EmitExtends(at, 0, n.value, b', items, nodes);
        } else if l.edges.Some? {
          EdgesExtend(mem, l, at, height, n.value, 0, b', items, nodes);
        }
      }
    }
  }

  lemma {:induction false} EdgesExtend(mem: Memory, l: Layout, at: nat, height: nat, n: nat, i: nat, b: Budget,
                                       items: nat, nodes: nat)
    requires height > 0 && l.edges.Some? && n <= CAPACITY && i <= n + 1
    ensures Extends(EdgesVisited(mem, l, at, height, n, i, b),
                    EdgesVisited(mem, l, at, height, n, i, More(b, items, nodes)), items, nodes)
    decreases height, n + 1 - i
  {
    hide Visited;
    hide Emitted;
    hide EdgeAt;
    if i <= n {
      var edge := EdgeAt(mem, l, at, i);
      if edge.Some? && edge.value != 0 {
        VisitExtends(mem, l, edge.value, height - 1, b, items, nodes);
        var kid := Visited(mem, l, edge.value, height - 1, b);
        if kid.stop.None? {
          EmitExtends(at, i, if i < n then i + 1 else i, kid.left, items, nodes);
          var own := Emitted(at, i, if i < n then i + 1 else i, kid.left);
          if own.stop.None? {
            EdgesExtend(mem, l, at, height, n, i + 1, own.left, items, nodes);
          }
        }
      }
    }
  }

  // ------------------------------------------------------------------ the reader

  datatype Reason = NoFieldOffset | NoLength | NoNodeLayout | NoRoot | RootNullButLength | NoHeight | TooHigh

  /** What a call gives: nothing to read, or the entries with the marker appended after them if any. */
  datatype Value<+K, +V> = Unavailable(why: Reason) | Items(entries: seq<(K, V)>, marker: Option<Marker>)

  function EntryAt<K, V>(l: Layout, key: int -> K, value: int -> V, s: Slot): (K, V) {
    (key(s.0 + l.keys + s.1 * l.keySize), value(s.0 + l.vals + s.1 * l.valSize))
  }

  /** The key/value pairs read at these slots. */
  function Entries<K, V>(l: Layout, key: int -> K, value: int -> V, slots: seq<Slot>): (es: seq<(K, V)>)
    ensures |es| == |slots|
  {
    if slots == [] then [] else [EntryAt(l, key, value, slots[0])] + Entries(l, key, value, slots[1..])
  }

  lemma {:induction false} EntriesAppend<K, V>(l: Layout, key: int -> K, value: int -> V, a: seq<Slot>, b: seq<Slot>)
    ensures Entries(l, key, value, a + b) == Entries(l, key, value, a) + Entries(l, key, value, b)
  {
    if a == [] {
      assert a + b == b;
    } else {
      assert (a + b)[1..] == a[1..] + b;
      calc {
        Entries(l, key, value, a + b);
        [EntryAt(l, key, value, a[0])] + Entries(l, key, value, a[1..] + b);
        { EntriesAppend(l, key, value, a[1..], b); }
        [EntryAt(l, key, value, a[0])] + (Entries(l, key, value, a[1..]) + Entries(l, key, value, b));
        Entries(l, key, value, a) + Entries(l, key, value, b);
      }
    }
  }

  /** `whole` is what was emitted so far followed by the outcome of the rest. */
  ghost predicate Resumes(whole: Outcome, done: seq<Slot>, rest: Outcome) {
    whole == rest.(slots := done + rest.slots)
  }

  lemma ResumeOn(whole: Outcome, done: seq<Slot>, rest: Outcome, more: seq<Slot>, after: Outcome)
    requires Resumes(whole, done, rest) && Resumes(rest, more, after)
    ensures Resumes(whole, done + more, after)
  {
    assert done + (more + after.slots) == (done + more) + after.slots;
  }

  lemma ResumeStart(whole: Outcome)
    ensures Resumes(whole, [], whole)
  {
    assert [] + whole.slots == whole.slots;
  }

  lemma ResumeHead(whole: Outcome, s: Slot, rest: Outcome)
    requires whole == rest.(slots := [s] + rest.slots)
    ensures Resumes(whole, [s], rest)
  {
  }

  lemma ResumeEnd(whole: Outcome, done: seq<Slot>, rest: Outcome)
    requires Resumes(whole, done, rest) && rest.slots == []
    ensures whole == rest.(slots := done)
  {
    assert done + [] == done;
  }

  lemma ResumeFinish(whole: Outcome, done: seq<Slot>, rest: Outcome)
    requires Resumes(whole, done, rest)
    ensures whole == rest.(slots := done + rest.slots)
  {
  }

  /** One edge of an inner node: its child, and the entry after it if there is one. */
  function EdgeOutcome(mem: Memory, l: Layout, at: nat, height: nat, n: nat, i: nat, b: Budget): Outcome
    requires height > 0 && l.edges.Some? && n <= CAPACITY && i <= n
    requires EdgeAt(mem, l, at, i).Some?
  {
    var kid := Visited(mem, l, EdgeAt(mem, l, at, i).value, height - 1, b);
    if kid.stop.Some? || i == n then kid
    else
      var own := Emitted(at, i, i + 1, kid.left);
      own.(slots := kid.slots + own.slots)
  }

  lemma EdgeStep(mem: Memory, l: Layout, at: nat, height: nat, n: nat, i: nat, b: Budget)
    requires height > 0 && l.edges.Some? && n <= CAPACITY && i <= n
    requires EdgeAt(mem, l, at, i).Some? && EdgeAt(mem, l, at, i).value != 0
    ensures var r, whole := EdgeOutcome(mem, l, at, height, n, i, b), EdgesVisited(mem, l, at, height, n, i, b);
            if r.stop.Some? then whole == r
            else Resumes(whole, r.slots, EdgesVisited(mem, l, at, height, n, i + 1, r.left))
  {
    hide Visited;
    var r := EdgeOutcome(mem, l, at, height, n, i, b);
    var kid := Visited(mem, l, EdgeAt(mem, l, at, i).value, height - 1, b);
    if r.stop.None? {
      var rest := EdgesVisited(mem, l, at, height, n, i + 1, r.left);
      if i < n {
        var own := Emitted(at, i, i + 1, kid.left);
        assert kid.slots + (own.slots + rest.slots) == r.slots + rest.slots;
      } else {
        assert Emitted(at, i, i, kid.left) == Outcome([], kid.left, None);
        assert kid.slots + ([] + rest.slots) == r.slots + rest.slots;
      }
    }
  }

  /** `now` is `before` with the entries at these slots appended. */
  ghost predicate Wrote<K, V>(l: Layout, key: int -> K, value: int -> V, before: seq<(K, V)>, now: seq<(K, V)>,
                              slots: seq<Slot>) {
    now == before + Entries(l, key, value, slots)
  }

  lemma WroteMore<K, V>(l: Layout, key: int -> K, value: int -> V, before: seq<(K, V)>, mid: seq<(K, V)>,
                        now: seq<(K, V)>,
                        a: seq<Slot>, b: seq<Slot>)
    requires Wrote(l, key, value, before, mid, a) && Wrote(l, key, value, mid, now, b)
    ensures Wrote(l, key, value, before, now, a + b)
  {
    EntriesAppend(l, key, value, a, b);
    var es, fs := Entries(l, key, value, a), Entries(l, key, value, b);
    assert (before + es) + fs == before + (es + fs);
  }

  lemma WroteNothing<K, V>(l: Layout, key: int -> K, value: int -> V, out: seq<(K, V)>)
    ensures Wrote(l, key, value, out, out, [])
  {
    assert out + [] == out;
  }

  lemma WroteOne<K, V>(l: Layout, key: int -> K, value: int -> V, out: seq<(K, V)>, s: Slot)
    ensures Wrote(l, key, value, out, out + [EntryAt(l, key, value, s)], [s])
  {
    assert Entries(l, key, value, [s]) == [EntryAt(l, key, value, s)];
  }

  class Traversal<K, V> {
    const mem: Memory
    const layout: Layout
    const key: int -> K
    const value: int -> V
    var out: seq<(K, V)>
    var seen: set<nat>
    var items: nat
    var nodes: nat

    constructor (mem: Memory, layout: Layout, key: int -> K, value: int -> V, budget: nat)
      ensures this.mem == mem && this.layout == layout && this.key == key && this.value == value
      ensures out == [] && Left() == Budget({}, budget, budget)
    {
      this.mem, this.layout, this.key, this.value := mem, layout, key, value;
      out, seen, items, nodes := [], {}, budget, budget;
    }

    ghost function Left(): Budget
      reads this
    {
      Budget(seen, items, nodes)
    }

    ghost predicate Added(before: seq<(K, V)>, slots: seq<Slot>)
      reads this`out
    {
      Wrote(layout, key, value, before, out, slots)
    }

    /** _emit */
    method Emit(at: nat, lo: nat, hi: nat) returns (stop: Option<Marker>)
      requires lo <= hi
      modifies this`out, this`items
      ensures var r := Emitted(at, lo, hi, old(Left()));
              Added(old(out), r.slots) && Left() == r.left && stop == r.stop
    {
      hide Resumes;
      hide Wrote;
      ghost var done: seq<Slot> := [];
      ghost var whole := Emitted(at, lo, hi, Left());
      ResumeStart(whole);
      WroteNothing(layout, key, value, out);
      for i := lo to hi
        invariant Added(old(out), done)
        invariant seen == old(seen) && nodes == old(nodes)
        invariant Resumes(whole, done, Emitted(at, i, hi, Left()))
      {
        ghost var rest, before := Emitted(at, i, hi, Left()), out;
        if items == 0 {
          ResumeEnd(whole, done, rest);
          return Some(TooManyItems(at, i));
        }
        items := items - 1;
        out := out + [(key(at + layout.keys + i * layout.keySize), value(at + layout.vals + i * layout.valSize))];
        WroteOne(layout, key, value, before, (at, i));
        WroteMore(layout, key, value, old(out), before, out, done, [(at, i)]);
        ResumeHead(rest, (at, i), Emitted(at, i + 1, hi, Left()));
        ResumeOn(whole, done, rest, [(at, i)], Emitted(at, i + 1, hi, Left()));
        done := done + [(at, i)];
      }
      ResumeEnd(whole, done, Emitted(at, hi, hi, Left()));
      return None;
    }

    /** _visit */
    method Visit(at: nat, height: nat) returns (stop: Option<Marker>)
      modifies this
      ensures var r := Visited(mem, layout, at, height, old(Left()));
              Added(old(out), r.slots) && Left() == r.left && stop == r.stop
      decreases height
    {
      WroteNothing(layout, key, value, out);
      hide Wrote;
      if at in seen {
        return Some(Cycle(at));
      }
      if nodes == 0 {
        return Some(TooManyNodes(at));
      }
      seen := seen + {at};
      nodes := nodes - 1;
      var len := mem.u16(at + layout.len);
      if len.None? || len.value > CAPACITY {
        return Some(BadLen(at));
      }
      var n := len.value;
      if height == 0 {
        stop := Emit(at, 0, n);
        return;
      }
      if layout.edges.None? {
        return Some(NoEdges(at));
      }
      stop := VisitAllEdges(at, height, n);
    }

    /** The loop of _visit over the edges of an inner node. */
    method VisitAllEdges(at: nat, height: nat, n: nat) returns (stop: Option<Marker>)
      requires height > 0 && layout.edges.Some? && n <= CAPACITY
      modifies this
      ensures var r := EdgesVisited(mem, layout, at, height, n, 0, old(Left()));
              Added(old(out), r.slots) && Left() == r.left && stop == r.stop
      decreases height, 0, 1
    {
      hide Resumes;
      hide Wrote;
      hide EdgeOutcome;
      hide Visited;
      ghost var done: seq<Slot> := [];
      ghost var whole := EdgesVisited(mem, layout, at, height, n, 0, Left());
      ResumeStart(whole);
      WroteNothing(layout, key, value, out);
      for i := 0 to n + 1
        invariant Added(old(out), done)
        invariant Resumes(whole, done, EdgesVisited(mem, layout, at, height, n, i, Left()))
      {
        ghost var rest, before, left := EdgesVisited(mem, layout, at, height, n, i, Left()), out, Left();
        var edge := EdgeAt(mem, layout, at, i);
        if edge.None? || edge.value == 0 {
          ResumeEnd(whole, done, rest);
          return Some(BadEdge(at, i));
        }
        stop := VisitEdge(at, height, n, i, edge.value);
        ghost var own := EdgeOutcome(mem, layout, at, height, n, i, left);
        WroteMore(layout, key, value, old(out), before, out, done, own.slots);
        EdgeStep(mem, layout, at, height, n, i, left);
        if stop.Some? {
          ResumeFinish(whole, done, rest);
          return;
        }
        ResumeOn(whole, done, rest, own.slots, EdgesVisited(mem, layout, at, height, n, i + 1, Left()));
        done := done + own.slots;
      }
      ResumeEnd(whole, done, EdgesVisited(mem, layout, at, height, n, n + 1, Left()));
      return None;
    }

    /** One round of that loop: the child, and the entry after it if there is one. */
    method VisitEdge(at: nat, height: nat, n: nat, i: nat, child: nat) returns (stop: Option<Marker>)
      requires height > 0 && layout.edges.Some? && i <= n <= CAPACITY
      requires EdgeAt(mem, layout, at, i) == Some(child) && child != 0
      modifies this
      ensures var r := EdgeOutcome(mem, layout, at, height, n, i, old(Left()));
              Added(old(out), r.slots) && Left() == r.left && stop == r.stop
      decreases height, 0, 0
    {
      hide Wrote;
      hide Visited;
      hide Emitted;
      ghost var kid := Visited(mem, layout, child, height - 1, Left());
      stop := Visit(child, height - 1);
      if stop.Some? {
        return;
      }
      if i < n {
        ghost var mid, left := out, Left();
        stop := Emit(at, i, i + 1);
        WroteMore(layout, key, value, old(out), mid, out, kid.slots, Emitted(at, i, i + 1, left).slots);
      }
    }
  }

  // ------------------------------------------------------------------ a whole map

  /** What a BTreeMap's own fields say, before any node is visited. */
  datatype Head = Fail(why: Reason) | NoEntries | Root(at: nat, height: nat, length: nat)

  function ReadHead(mem: Memory, addr: nat, rootOff: Option<nat>, lenOff: Option<nat>, node: Option<Layout>): (h: Head)
    ensures h.Root? ==> node.Some? && h.height <= MAX_HEIGHT && h.at != 0
  {
    if rootOff.None? || lenOff.None? then Fail(NoFieldOffset)
    else
      match mem.ptr(addr + lenOff.value)
      case None => Fail(NoLength)
      case Some(length) =>
        if node.None? then if length == 0 then NoEntries else Fail(NoNodeLayout)
        else
          match mem.ptr(addr + rootOff.value + node.value.node)
          case None => Fail(NoRoot)
          case Some(root) =>
            if root == 0 then if length != 0 then Fail(RootNullButLength) else NoEntries
            else
              match mem.ptr(addr + rootOff.value + node.value.height)
              case None => Fail(NoHeight)
              case Some(height) => if height > MAX_HEIGHT then Fail(TooHigh) else Root(root, height, length)
  }

  /** The slots read from a root, and the marker left after them. */
  function ReadNodes(mem: Memory, l: Layout, root: nat, height: nat, length: nat, max: nat)
    : (seq<Slot>, Option<Marker>)
  {
    var r := Visited(mem, l, root, height, Budget({}, max, max));
    if r.stop.Some? then (r.slots, r.stop)
    else if |r.slots| != length then (r.slots, Some(LengthMismatch(|r.slots|, length)))
    else (r.slots, None)
  }

  /** A tree the reader accepts: found in memory under this root, made of distinct nodes, with as many
      entries as the map's length field says, and within the budget. */
  ghost predicate WholeTree(mem: Memory, l: Layout, root: nat, height: nat, length: nat, max: nat, t: Tree) {
    && Represents(mem, l, root, height, t)
    && Distinct(Nodes(t)) && |Nodes(t)| <= max
    && |InOrder(t)| == length <= max
  }

  /** For every memory: a read ends without a marker if and only if the memory holds such a tree, and
      then what was read is exactly its entries in order. */
  lemma ReadIsWholeTree(mem: Memory, l: Layout, root: nat, height: nat, length: nat, max: nat)
    ensures ReadNodes(mem, l, root, height, length, max).1.None?
            <==> exists t :: WholeTree(mem, l, root, height, length, max, t)
    ensures forall t :: WholeTree(mem, l, root, height, length, max, t)
              ==> ReadNodes(mem, l, root, height, length, max) == (InOrder(t), None)
  {
    var b := Budget({}, max, max);
    forall t | WholeTree(mem, l, root, height, length, max, t)
      ensures ReadNodes(mem, l, root, height, length, max) == (InOrder(t), None)
    {
      VisitComplete(mem, l, root, height, b, t);
    }
    if ReadNodes(mem, l, root, height, length, max).1.None? {
      var t := VisitSound(mem, l, root, height, b);
      VisitComplete(mem, l, root, height, b, t);
      assert WholeTree(mem, l, root, height, length, max, t);
    }
  }

  /** Reading with a larger limit never changes what a smaller one returned, it only adds to it; and
      no limit is ever exceeded, whatever the memory. */
  lemma ReadsGrow(mem: Memory, l: Layout, root: nat, height: nat, length: nat, max: nat, more: nat)
    ensures ReadNodes(mem, l, root, height, length, max).0 <= ReadNodes(mem, l, root, height, length, max + more).0
    ensures |ReadNodes(mem, l, root, height, length, max).0| <= max
    ensures |Visited(mem, l, root, height, Budget({}, max, max)).left.seen| <= max
  {
    var b := Budget({}, max, max);
    VisitExtends(mem, l, root, height, b, more, more);
    VisitPaid(mem, l, root, height, b);
    assert Visited(mem, l, root, height, b).left.seen - {} == Visited(mem, l, root, height, b).left.seen;
  }
}
