/** When the merge of CallStack keeps the entries and returns of one CPU in their own order, for streams that
    need not be in time order. */
module CallStackMerge {
  import opened Wrappers
  import opened CallStack

  // ------------------------------------------------------------------ orders of entries and returns

  /** Entry number `a` of the items comes before their return number `b`. */
  predicate Before(items: seq<Item>, a: nat, b: nat)
    decreases items
  {
    items != [] &&
    match items[0]
    case E(_) => a == 0 || Before(items[1..], a - 1, b)
    case R(_) => b > 0 && Before(items[1..], a, b - 1)
  }

  lemma EntryFirst(e: Entry, rest: seq<Item>)
    ensures EntriesOf([E(e)] + rest) == [e] + EntriesOf(rest) && ReturnsOf([E(e)] + rest) == ReturnsOf(rest)
    ensures forall a: nat, b: nat :: Before([E(e)] + rest, a, b) == (a == 0 || Before(rest, a - 1, b))
  {
    assert ([E(e)] + rest)[1..] == rest;
    assert [] + ReturnsOf(rest) == ReturnsOf(rest);
  }

  lemma ReturnFirst(r: Return, rest: seq<Item>)
    ensures EntriesOf([R(r)] + rest) == EntriesOf(rest) && ReturnsOf([R(r)] + rest) == [r] + ReturnsOf(rest)
    ensures forall a: nat, b: nat :: Before([R(r)] + rest, a, b) == (b > 0 && Before(rest, a, b - 1))
  {
    assert ([R(r)] + rest)[1..] == rest;
    assert [] + EntriesOf(rest) == EntriesOf(rest);
  }

  /** The parts of the items and their order. */
  lemma Split(items: seq<Item>)
    requires items != []
    ensures items[0].E? ==>
              && EntriesOf(items) == [items[0].entry] + EntriesOf(items[1..])
              && ReturnsOf(items) == ReturnsOf(items[1..])
              && forall a: nat, b: nat :: Before(items, a, b) == (a == 0 || Before(items[1..], a - 1, b))
    ensures items[0].R? ==>
              && EntriesOf(items) == EntriesOf(items[1..])
              && ReturnsOf(items) == [items[0].ret] + ReturnsOf(items[1..])
              && forall a: nat, b: nat :: Before(items, a, b) == (b > 0 && Before(items[1..], a, b - 1))
  {
    assert items == [items[0]] + items[1..];
    match items[0]
    case E(e) => EntryFirst(e, items[1..]);
    case R(r) => ReturnFirst(r, items[1..]);
  }

  ghost predicate SameBefore(x: seq<Item>, y: seq<Item>) {
    forall a, b :: 0 <= a < |EntriesOf(x)| && 0 <= b < |ReturnsOf(x)| ==> Before(x, a, b) == Before(y, a, b)
  }

  /** The same entries and returns in the same order are the same items. */
  lemma {:induction false} SameItems(x: seq<Item>, y: seq<Item>)
    requires EntriesOf(x) == EntriesOf(y) && ReturnsOf(x) == ReturnsOf(y) && SameBefore(x, y)
    ensures x == y
    decreases x
  {
    hide EntriesOf;
    hide ReturnsOf;
    hide Before;
    NoItems();
    if x == [] {
      if y != [] {
        Split(y);
      }
    } else if y == [] {
      Split(x);
    } else {
      Split(x);
      Split(y);
      SameKind(x, y);
      SameTails(x, y);
      if x[0].E? {
        Cancel(x[0].entry, EntriesOf(x[1..]), y[0].entry, EntriesOf(y[1..]));
      } else {
        Cancel(x[0].ret, ReturnsOf(x[1..]), y[0].ret, ReturnsOf(y[1..]));
      }
      SameItems(x[1..], y[1..]);
      assert x == [x[0]] + x[1..] && y == [y[0]] + y[1..];
    }
  }

  lemma SameKind(x: seq<Item>, y: seq<Item>)
    requires x != [] && y != []
    requires EntriesOf(x) == EntriesOf(y) && ReturnsOf(x) == ReturnsOf(y) && SameBefore(x, y)
    ensures x[0].E? == y[0].E?
  {
    HeadKind(x);
    HeadKind(y);
    hide EntriesOf;
    hide ReturnsOf;
    hide Before;
    assert EntriesOf(x) != [] && ReturnsOf(x) != [] ==> Before(x, 0, 0) == Before(y, 0, 0);
  }

  lemma HeadKind(x: seq<Item>)
    requires x != []
    ensures EntriesOf(x) == [] ==> x[0].R?
    ensures ReturnsOf(x) == [] ==> x[0].E?
    ensures x[0].E? == Before(x, 0, 0)
  {
  }

  lemma Cancel<T>(a: T, x: seq<T>, b: T, y: seq<T>)
    requires [a] + x == [b] + y
    ensures a == b && x == y
  {
    assert ([a] + x)[0] == a && ([b] + y)[0] == b;
    assert ([a] + x)[1..] == x && ([b] + y)[1..] == y;
  }

  lemma NoItems()
    ensures EntriesOf([]) == [] && ReturnsOf([]) == []
  {
  }

  lemma SameTails(x: seq<Item>, y: seq<Item>)
    requires x != [] && y != [] && x[0].E? == y[0].E? && SameBefore(x, y)
    ensures SameBefore(x[1..], y[1..])
  {
    hide EntriesOf;
    hide ReturnsOf;
    hide Before;
    Split(x);
    Split(y);
    forall a, b | 0 <= a < |EntriesOf(x[1..])| && 0 <= b < |ReturnsOf(x[1..])|
      ensures Before(x[1..], a, b) == Before(y[1..], a, b)
    {
      if x[0].E? {
        assert Before(x, a + 1, b) == Before(y, a + 1, b);
      } else {
        assert Before(x, a, b + 1) == Before(y, a, b + 1);
      }
    }
  }

  // ------------------------------------------------------------------ what decides the order in a merge

  function Max(a: nat, b: nat): nat {
    if a < b then b else a
  }

  /** The largest count among the first `a + 1` entries. */
  function EntryPeak(es: seq<Entry>, a: nat): (p: nat)
    requires a < |es|
    ensures p >= es[0].insn
  {
    if a == 0 then es[0].insn else Max(es[0].insn, EntryPeak(es[1..], a - 1))
  }

  function ReturnPeak(rs: seq<Return>, b: nat): (p: nat)
    requires b < |rs|
    ensures p >= rs[0].insn
  {
    if b == 0 then rs[0].insn else Max(rs[0].insn, ReturnPeak(rs[1..], b - 1))
  }

  /** In a merge an entry comes before a return if and only if no count up to the entry is above all counts
      up to the return. */
  lemma {:induction false} MergeOrder(es: seq<Entry>, rs: seq<Return>, a: nat, b: nat)
    requires a < |es| && b < |rs|
    ensures Before(Merge(es, rs), a, b) <==> EntryPeak(es, a) <= ReturnPeak(rs, b)
    decreases |es| + |rs|
  {
    hide Merge;
    hide Before;
    MergeHeads(es, rs);
    if es[0].insn <= rs[0].insn {
      EntryFirst(es[0], Merge(es[1..], rs));
      if a > 0 {
        MergeOrder(es[1..], rs, a - 1, b);
      }
    } else {
      ReturnFirst(rs[0], Merge(es, rs[1..]));
      if b > 0 {
        MergeOrder(es, rs[1..], a, b - 1);
      }
    }
  }

  lemma {:induction false} MergeParts(es: seq<Entry>, rs: seq<Return>)
    ensures EntriesOf(Merge(es, rs)) == es && ReturnsOf(Merge(es, rs)) == rs
    decreases |es| + |rs|
  {
    hide EntriesOf;
    hide ReturnsOf;
    MergeHeads(es, rs);
    if es == [] && rs == [] {
      NoItems();
    } else if rs == [] || (es != [] && es[0].insn <= rs[0].insn) {
      MergeParts(es[1..], rs);
      EntryFirst(es[0], Merge(es[1..], rs));
    } else {
      MergeParts(es, rs[1..]);
      ReturnFirst(rs[0], Merge(es, rs[1..]));
    }
  }

  // ------------------------------------------------------------------ one CPU's part

  /** Where the CPU's entry number `a` stands in the stream. */
  function EntryAt(es: seq<Entry>, cpu: nat, a: nat): (i: nat)
    requires a < |EntriesOn(es, cpu)|
    ensures i < |es|
  {
    if es[0].cpu == cpu then if a == 0 then 0 else 1 + EntryAt(es[1..], cpu, a - 1)
    else 1 + EntryAt(es[1..], cpu, a)
  }

  function ReturnAt(rs: seq<Return>, cpu: nat, b: nat): (j: nat)
    requires b < |ReturnsOn(rs, cpu)|
    ensures j < |rs|
  {
    if rs[0].cpu == cpu then if b == 0 then 0 else 1 + ReturnAt(rs[1..], cpu, b - 1)
    else 1 + ReturnAt(rs[1..], cpu, b)
  }

  lemma EntryOn(e: Entry, es: seq<Entry>, cpu: nat, a: nat)
    ensures EntriesOn([e] + es, cpu) == if e.cpu == cpu then [e] + EntriesOn(es, cpu) else EntriesOn(es, cpu)
    ensures a < |EntriesOn([e] + es, cpu)| ==>
              EntryAt([e] + es, cpu, a)
              == if e.cpu == cpu then if a == 0 then 0 else 1 + EntryAt(es, cpu, a - 1) else 1 + EntryAt(es, cpu, a)
  {
    assert ([e] + es)[1..] == es;
  }

  lemma ReturnOn(r: Return, rs: seq<Return>, cpu: nat, b: nat)
    ensures ReturnsOn([r] + rs, cpu) == if r.cpu == cpu then [r] + ReturnsOn(rs, cpu) else ReturnsOn(rs, cpu)
    ensures b < |ReturnsOn([r] + rs, cpu)| ==>
              ReturnAt([r] + rs, cpu, b)
              == if r.cpu == cpu then if b == 0 then 0 else 1 + ReturnAt(rs, cpu, b - 1) else 1 + ReturnAt(rs, cpu, b)
  {
    assert ([r] + rs)[1..] == rs;
  }

  lemma {:induction false} PartsOn(items: seq<Item>, cpu: nat)
    ensures EntriesOf(ItemsOf(items, cpu)) == EntriesOn(EntriesOf(items), cpu)
    ensures ReturnsOf(ItemsOf(items, cpu)) == ReturnsOn(ReturnsOf(items), cpu)
    decreases items
  {
    hide EntriesOf;
    hide ReturnsOf;
    NoItems();
    if items != [] {
      PartsOn(items[1..], cpu);
      Split(items);
      assert items == [items[0]] + items[1..];
      ItemsOfNext(items[0], items[1..], cpu);
      match items[0]
      case E(e) =>
        EntryOn(e, EntriesOf(items[1..]), cpu, 0);
        EntryFirst(e, ItemsOf(items[1..], cpu));
      case R(r) =>
        ReturnOn(r, ReturnsOf(items[1..]), cpu, 0);
        ReturnFirst(r, ItemsOf(items[1..], cpu));
    }
  }

  /** A CPU's items keep the order they have in the whole. */
  lemma {:induction false} OrderOn(items: seq<Item>, cpu: nat, a: nat, b: nat)
    requires a < |EntriesOn(EntriesOf(items), cpu)| && b < |ReturnsOn(ReturnsOf(items), cpu)|
    ensures Before(ItemsOf(items, cpu), a, b)
            == Before(items, EntryAt(EntriesOf(items), cpu, a), ReturnAt(ReturnsOf(items), cpu, b))
    decreases items
  {
    hide EntriesOf;
    hide ReturnsOf;
    hide EntriesOn;
    hide ReturnsOn;
    hide EntryAt;
    hide ReturnAt;
    hide Before;
    hide ItemsOf;
    NoItems();
    if items == [] {
      NothingOn(cpu);
    } else {
      Split(items);
      assert items == [items[0]] + items[1..];
      ItemsOfNext(items[0], items[1..], cpu);
      match items[0]
      case E(e) =>
        EntryOn(e, EntriesOf(items[1..]), cpu, a);
        EntryFirst(e, ItemsOf(items[1..], cpu));
        if e.cpu != cpu {
          OrderOn(items[1..], cpu, a, b);
        } else if a > 0 {
          OrderOn(items[1..], cpu, a - 1, b);
        }
      case R(r) =>
        ReturnOn(r, ReturnsOf(items[1..]), cpu, b);
        ReturnFirst(r, ItemsOf(items[1..], cpu));
        if r.cpu != cpu {
          OrderOn(items[1..], cpu, a, b);
        } else if b > 0 {
          OrderOn(items[1..], cpu, a, b - 1);
        }
    }
  }

  lemma NothingOn(cpu: nat)
    ensures EntriesOn([], cpu) == [] && ReturnsOn([], cpu) == []
  {
  }

  /** For each entry and return of the CPU, the counts up to them decide the same in the whole streams as in
      the CPU's own. */
  ghost predicate DecideAlike(es: seq<Entry>, rs: seq<Return>, cpu: nat) {
    var es', rs' := EntriesOn(es, cpu), ReturnsOn(rs, cpu);
    forall a, b :: 0 <= a < |es'| && 0 <= b < |rs'| ==>
      ((EntryPeak(es, EntryAt(es, cpu, a)) <= ReturnPeak(rs, ReturnAt(rs, cpu, b)))
       <==> EntryPeak(es', a) <= ReturnPeak(rs', b))
  }

  /** A CPU's part of a merge is the merge of its parts if and only if the counts decide alike. */
  lemma MergeOnExactly(es: seq<Entry>, rs: seq<Return>, cpu: nat)
    ensures ItemsOf(Merge(es, rs), cpu) == Merge(EntriesOn(es, cpu), ReturnsOn(rs, cpu)) <==> DecideAlike(es, rs, cpu)
  {
    hide Before;
    hide ItemsOf;
    hide Merge;
    hide EntriesOf;
    hide ReturnsOf;
    hide EntriesOn;
    hide ReturnsOn;
    hide EntryAt;
    hide ReturnAt;
    hide EntryPeak;
    hide ReturnPeak;
    var es', rs' := EntriesOn(es, cpu), ReturnsOn(rs, cpu);
    var part, own := ItemsOf(Merge(es, rs), cpu), Merge(es', rs');
    MergeParts(es, rs);
    MergeParts(es', rs');
    PartsOn(Merge(es, rs), cpu);
    forall a, b | 0 <= a < |es'| && 0 <= b < |rs'|
      ensures Before(part, a, b) <==> EntryPeak(es, EntryAt(es, cpu, a)) <= ReturnPeak(rs, ReturnAt(rs, cpu, b))
      ensures Before(own, a, b) <==> EntryPeak(es', a) <= ReturnPeak(rs', b)
    {
      OrderOn(Merge(es, rs), cpu, a, b);
      MergeOrder(es, rs, EntryAt(es, cpu, a), ReturnAt(rs, cpu, b));
      MergeOrder(es', rs', a, b);
    }
    if DecideAlike(es, rs, cpu) {
      assert SameBefore(part, own);
      SameItems(part, own);
    }
  }

  /** Streams in time order are among them. */
  lemma InTimeOrderDecideAlike(es: seq<Entry>, rs: seq<Return>, cpu: nat)
    requires InTimeOrder(es, rs)
    ensures DecideAlike(es, rs, cpu)
  {
    hide DecideAlike;
    hide Merge;
    hide ItemsOf;
    MergeOn(es, rs, cpu);
    MergeOnExactly(es, rs, cpu);
  }

  /** If the counts decide alike and the CPU has a return whenever there is one at all, then what is reported
      for it, what its returns pop and what stays on its stack depend on its own events and returns only. */
  lemma CpusAreSeparateWherever(names: Names, kept: Option<set<nat>>, events: seq<Entry>, rets: seq<Return>, cpu: nat)
    requires DecideAlike(RelevantOf(events), rets, cpu) && (rets == [] || ReturnsOn(rets, cpu) != [])
    ensures SameOn(Observed(names, kept, events, rets),
                   Observed(names, kept, EntriesOn(events, cpu), ReturnsOn(rets, cpu)), cpu)
  {
    hide DecideAlike;
    hide Merge;
    hide ItemsOf;
    hide Run;
    hide EntriesOn;
    if rets != [] {
      RelevantOn(events, cpu);
      MergeOnExactly(RelevantOf(events), rets, cpu);
      CpusAreIndependent(names, kept, START, START, Merge(RelevantOf(events), rets), cpu);
    }
  }
}
