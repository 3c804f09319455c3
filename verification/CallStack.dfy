/** Call chains from function entries and returns (nodefusion/host/callstack.py): one stack of frames
    per CPU, driven by two streams merged by instruction count. */
module CallStack {
  import opened Wrappers
  import TraceFile

  const F_NO_REGS := TraceFile.F_NO_REGS
  const F_NO_CSR := TraceFile.F_NO_CSR
  const MAX_FRAMES := 64

  /** An event as the reconstruction sees it. */
  datatype Entry = Entry(id: nat, insn: nat, cpu: nat, functionEntry: bool, kind: string,
                         entryName: Option<string>, func: Option<string>, pc: Option<nat>,
                         returnAddress: Option<nat>, stackPointer: Option<nat>, addressSpace: Option<nat>)
  {
    /** Does the reconstruction look at this event at all? */
    predicate Relevant() {
      functionEntry || kind == "sched.switch" || "trap." <= kind || "interrupt." <= kind || "firmware." <= kind
    }

    /** A function entry with everything a frame needs. */
    predicate Framed() {
      functionEntry && returnAddress.Some? && stackPointer.Some? && addressSpace.Some?
    }
  }

  datatype Return = Return(insn: nat, cpu: nat, flags: nat, target: nat, sp: nat, satp: nat)
  {
    /** Neither flag is set. */
    predicate Readable() {
      flags / F_NO_REGS % 2 == 0 && flags / F_NO_CSR % 2 == 0
    }
  }

  datatype Item = E(entry: Entry) | R(ret: Return)
  {
    function Cpu(): nat {
      match this case E(e) => e.cpu case R(r) => r.cpu
    }

    function Insn(): nat {
      match this case E(e) => e.insn case R(r) => r.insn
    }
  }

  /** The symbol table: which function an address lies in, and how a raw name is displayed. */
  datatype Names = Names(resolve: nat -> Option<string>, display: string -> string)

  /** A chain reported for an entry, outermost frame first. */
  datatype Report = Report(entry: Entry, frames: seq<Entry>)

  /** A return together with the frame it popped. */
  datatype Pop = Pop(ret: Return, frame: Entry)

  datatype State = State(active: map<nat, seq<Entry>>, pops: seq<Pop>, reports: seq<Report>, nested: nat)
  {
    function Frames(cpu: nat): seq<Entry> {
      if cpu in active then active[cpu] else []
    }
  }

  const START := State(map[], [], [], 0)

  // ------------------------------------------------------------------ one event

  /** The return address of `e` lies in the function `parent` entered; its stack has not shrunk past
      the parent's, and the address space is the same. */
  predicate CalledFrom(names: Names, parent: Entry, e: Entry)
    requires e.Framed()
  {
    var caller := names.resolve(e.returnAddress.value);
    && caller.Some?
    && (parent.entryName == caller || parent.entryName == Some(names.display(caller.value)))
    && parent.addressSpace == e.addressSpace
    && parent.stackPointer.Some? && e.stackPointer.value <= parent.stackPointer.value
  }

  /** The chain of a new frame on top of `frames`. */
  function Push(names: Names, frames: seq<Entry>, e: Entry): (r: seq<Entry>)
    requires e.Framed()
    ensures r != [] && r[|r| - 1] == e
  {
    if frames == [] || !CalledFrom(names, frames[|frames| - 1], e) || |frames| >= MAX_FRAMES then [e]
    else frames + [e]
  }

  predicate Matches(frames: seq<Entry>, r: Return) {
    && frames != [] && r.Readable()
    && var top := frames[|frames| - 1];
       top.returnAddress == Some(r.target) && top.addressSpace == Some(r.satp) && top.stackPointer == Some(r.sp)
  }

  predicate Retained(kept: Option<set<nat>>, e: Entry) {
    kept.None? || e.id in kept.value
  }

  function Step(names: Names, kept: Option<set<nat>>, s: State, item: Item): State {
    match item
    case R(r) =>
      var frames := s.Frames(r.cpu);
      if Matches(frames, r) then
        s.(active := s.active[r.cpu := frames[..|frames| - 1]], pops := s.pops + [Pop(r, frames[|frames| - 1])])
      else s
    case E(e) =>
      if !e.Framed() then s.(active := s.active - {e.cpu})
      else
        var frames := Push(names, s.Frames(e.cpu), e);
        s.(active := s.active[e.cpu := frames],
           reports := if Retained(kept, e) then s.reports + [Report(e, frames)] else s.reports,
           nested := s.nested + if |frames| > 1 then 1 else 0)
  }

  function Run(names: Names, kept: Option<set<nat>>, s: State, items: seq<Item>): State
    decreases items
  {
    if items == [] then s else Run(names, kept, Step(names, kept, s, items[0]), items[1..])
  }

  lemma {:induction false} RunAppend(names: Names, kept: Option<set<nat>>, s: State, a: seq<Item>, b: seq<Item>)
    ensures Run(names, kept, s, a + b) == Run(names, kept, Run(names, kept, s, a), b)
    decreases a
  {
    if a == [] {
      assert a + b == b;
    } else {
      assert (a + b)[1..] == a[1..] + b;
      RunAppend(names, kept, Step(names, kept, s, a[0]), a[1..], b);
    }
  }

  /** heapq.merge of the two streams by (instruction, kind): entries go first on equal counts. */
  function Merge(es: seq<Entry>, rs: seq<Return>): seq<Item>
    decreases |es| + |rs|
  {
    if es == [] && rs == [] then []
    else if rs == [] || (es != [] && es[0].insn <= rs[0].insn) then [E(es[0])] + Merge(es[1..], rs)
    else [R(rs[0])] + Merge(es, rs[1..])
  }

  // ------------------------------------------------------------------ arbitrary traces

  /** What every chain has: at most 64 frames, one address space, stack pointers that do not grow
      inwards, and each frame returning into the function of the frame outside it. */
  ghost predicate ChainOk(names: Names, frames: seq<Entry>) {
    && |frames| <= MAX_FRAMES
    && (forall k :: 0 <= k < |frames| ==> frames[k].Framed() && frames[k].addressSpace == frames[0].addressSpace)
    && (forall j, k :: 0 <= j < k < |frames| ==> frames[k].stackPointer.value <= frames[j].stackPointer.value)
    && (forall k :: 0 < k < |frames| ==> CalledFrom(names, frames[k - 1], frames[k]))
  }

  ghost predicate AllOk(names: Names, s: State) {
    && (forall cpu :: cpu in s.active ==> ChainOk(names, s.active[cpu]))
    && (forall r :: r in s.reports ==>
          ChainOk(names, r.frames) && r.frames != [] && r.frames[|r.frames| - 1] == r.entry)
  }

  lemma PushOk(names: Names, frames: seq<Entry>, e: Entry)
    requires ChainOk(names, frames) && e.Framed()
    ensures ChainOk(names, Push(names, frames, e))
  {
    var r := Push(names, frames, e);
    if |r| > 1 {
      forall k | 0 < k < |r|
        ensures CalledFrom(names, r[k - 1], r[k])
      {
      }
    }
  }

  lemma StepOk(names: Names, kept: Option<set<nat>>, s: State, item: Item)
    requires AllOk(names, s)
    ensures AllOk(names, Step(names, kept, s, item))
  {
    hide CalledFrom;
    if item.E? && item.entry.Framed() {
      PushOk(names, s.Frames(item.entry.cpu), item.entry);
    }
  }

  /** Whatever the trace, every reported chain is a proper chain that ends in its own entry. */
  lemma {:induction false} ChainsAreProper(names: Names, kept: Option<set<nat>>, s: State, items: seq<Item>)
    requires AllOk(names, s)
    ensures AllOk(names, Run(names, kept, s, items))
    decreases items
  {
    if items != [] {
      StepOk(names, kept, s, items[0]);
      ChainsAreProper(names, kept, Step(names, kept, s, items[0]), items[1..]);
    }
  }

  // ------------------------------------------------------------------ one CPU at a time

  function ItemsOf(items: seq<Item>, cpu: nat): seq<Item> {
    if items == [] then []
    else (if items[0].Cpu() == cpu then [items[0]] else []) + ItemsOf(items[1..], cpu)
  }

  function ReportsOf(reports: seq<Report>, cpu: nat): seq<Report> {
    if reports == [] then []
    else
      var n := |reports| - 1;
      ReportsOf(reports[..n], cpu) + if reports[n].entry.cpu == cpu then [reports[n]] else []
  }

  function PopsOf(pops: seq<Pop>, cpu: nat): seq<Pop> {
    if pops == [] then []
    else
      var n := |pops| - 1;
      PopsOf(pops[..n], cpu) + if pops[n].ret.cpu == cpu then [pops[n]] else []
  }

  /** The two states agree in everything that concerns one CPU. */
  ghost predicate SameOn(a: State, b: State, cpu: nat) {
    && a.Frames(cpu) == b.Frames(cpu)
    && ReportsOf(a.reports, cpu) == ReportsOf(b.reports, cpu)
    && PopsOf(a.pops, cpu) == PopsOf(b.pops, cpu)
  }

  lemma {:induction false} ReportsAppend(reports: seq<Report>, r: Report, cpu: nat)
    ensures ReportsOf(reports + [r], cpu) == ReportsOf(reports, cpu) + if r.entry.cpu == cpu then [r] else []
  {
    assert (reports + [r])[..|reports|] == reports;
  }

  lemma {:induction false} PopsAppend(pops: seq<Pop>, p: Pop, cpu: nat)
    ensures PopsOf(pops + [p], cpu) == PopsOf(pops, cpu) + if p.ret.cpu == cpu then [p] else []
  {
    assert (pops + [p])[..|pops|] == pops;
  }

  /** What one step does to the reports and pops of a CPU. */
  lemma {:induction false} StepTallies(names: Names, kept: Option<set<nat>>, s: State, item: Item, cpu: nat)
    ensures var s' := Step(names, kept, s, item);
            match item
            case E(e) =>
              && s'.pops == s.pops
              && ReportsOf(s'.reports, cpu) == ReportsOf(s.reports, cpu) +
                 (if e.Framed() && Retained(kept, e) && e.cpu == cpu
                  then [Report(e, Push(names, s.Frames(e.cpu), e))] else [])
            case R(r) =>
              && s'.reports == s.reports
              && var frames := s.Frames(r.cpu);
                 PopsOf(s'.pops, cpu) == PopsOf(s.pops, cpu) +
                 (if Matches(frames, r) && r.cpu == cpu then [Pop(r, frames[|frames| - 1])] else [])
  {
    hide Push;
    match item
    case E(e) =>
      if e.Framed() {
        ReportsAppend(s.reports, Report(e, Push(names, s.Frames(e.cpu), e)), cpu);
      }
    case R(r) =>
      var frames := s.Frames(r.cpu);
      if Matches(frames, r) {
        PopsAppend(s.pops, Pop(r, frames[|frames| - 1]), cpu);
      }
  }

  lemma StepElsewhere(names: Names, kept: Option<set<nat>>, s: State, item: Item, cpu: nat)
    requires item.Cpu() != cpu
    ensures SameOn(Step(names, kept, s, item), s, cpu)
  {
    StepTallies(names, kept, s, item, cpu);
    hide Push;
    hide ReportsOf;
    hide PopsOf;
  }

  lemma StepHere(names: Names, kept: Option<set<nat>>, a: State, b: State, item: Item, cpu: nat)
    requires SameOn(a, b, cpu) && item.Cpu() == cpu
    ensures SameOn(Step(names, kept, a, item), Step(names, kept, b, item), cpu)
  {
    StepTallies(names, kept, a, item, cpu);
    StepTallies(names, kept, b, item, cpu);
    hide Push;
    hide ReportsOf;
    hide PopsOf;
  }

  /** What is reported for one CPU depends on that CPU's events only. */
  lemma {:induction false} CpusAreIndependent(names: Names, kept: Option<set<nat>>, a: State, b: State,
                                              items: seq<Item>, cpu: nat)
    requires SameOn(a, b, cpu)
    ensures SameOn(Run(names, kept, a, items), Run(names, kept, b, ItemsOf(items, cpu)), cpu)
    decreases items
  {
    if items != [] {
      var a' := Step(names, kept, a, items[0]);
      var rest := ItemsOf(items[1..], cpu);
      if items[0].Cpu() == cpu {
        assert ItemsOf(items, cpu)[0] == items[0] && ItemsOf(items, cpu)[1..] == rest;
        StepHere(names, kept, a, b, items[0], cpu);
        CpusAreIndependent(names, kept, a', Step(names, kept, b, items[0]), items[1..], cpu);
      } else {
        assert ItemsOf(items, cpu) == rest;
        StepElsewhere(names, kept, a, items[0], cpu);
        CpusAreIndependent(names, kept, a', b, items[1..], cpu);
      }
    }
  }

  function KeptReports(reports: seq<Report>, kept: set<nat>): seq<Report> {
    if reports == [] then []
    else
      var n := |reports| - 1;
      KeptReports(reports[..n], kept) + if reports[n].entry.id in kept then [reports[n]] else []
  }

  lemma StepRetains(names: Names, kept: set<nat>, s: State, t: State, item: Item)
    requires t == s.(reports := KeptReports(s.reports, kept))
    ensures var s' := Step(names, None, s, item);
            Step(names, Some(kept), t, item) == s'.(reports := KeptReports(s'.reports, kept))
  {
    hide Push;
    hide Matches;
    var s' := Step(names, None, s, item);
    assert s'.reports != s.reports ==> s'.reports[..|s.reports|] == s.reports;
  }

  /** Asking for some entries only restricts what is reported. */
  lemma {:induction false} RetentionOnlyRestricts(names: Names, kept: set<nat>, s: State, t: State, items: seq<Item>)
    requires t == s.(reports := KeptReports(s.reports, kept))
    ensures var all := Run(names, None, s, items);
            Run(names, Some(kept), t, items) == all.(reports := KeptReports(all.reports, kept))
    decreases items
  {
    if items != [] {
      StepRetains(names, kept, s, t, items[0]);
      hide Step;
      RetentionOnlyRestricts(names, kept, Step(names, None, s, items[0]), Step(names, Some(kept), t, items[0]),
                             items[1..]);
    }
  }

  // ------------------------------------------------------------------ well-nested traces

  /** A call: its entry, the calls made inside it, and its return. */
  datatype Call = Call(entry: Entry, kids: seq<Call>, ret: Return)

  function TraceOf(c: Call): seq<Item>
    decreases c
  {
    [E(c.entry)] + (TraceAll(c.kids) + [R(c.ret)])
  }

  function TraceAll(cs: seq<Call>): seq<Item>
    decreases cs
  {
    if cs == [] then [] else TraceOf(cs[0]) + TraceAll(cs[1..])
  }

  /** A call made with the frames `outer` on the stack: its caller resolves, its SP and address space
      fit, its return is its own, and the stack stays within 64 frames. */
  ghost predicate WellNested(names: Names, cpu: nat, outer: seq<Entry>, c: Call)
    decreases c
  {
    && c.entry.Framed() && c.entry.cpu == cpu && c.ret.cpu == cpu
    && |outer| < MAX_FRAMES
    && (outer != [] ==> CalledFrom(names, outer[|outer| - 1], c.entry))
    && Matches([c.entry], c.ret)
    && AllNested(names, cpu, outer + [c.entry], c.kids)
  }

  ghost predicate AllNested(names: Names, cpu: nat, outer: seq<Entry>, cs: seq<Call>)
    decreases cs
  {
    cs != [] ==> WellNested(names, cpu, outer, cs[0]) && AllNested(names, cpu, outer, cs[1..])
  }

  /** The true call chain of every retained entry, in the order of entry. */
  function TrueChains(kept: Option<set<nat>>, outer: seq<Entry>, c: Call): seq<Report>
    decreases c
  {
    (if Retained(kept, c.entry) then [Report(c.entry, outer + [c.entry])] else [])
    + AllTrueChains(kept, outer + [c.entry], c.kids)
  }

  function AllTrueChains(kept: Option<set<nat>>, outer: seq<Entry>, cs: seq<Call>): seq<Report>
    decreases cs
  {
    if cs == [] then [] else TrueChains(kept, outer, cs[0]) + AllTrueChains(kept, outer, cs[1..])
  }

  /** Every return with the entry of its own call, in the order of return. */
  function TruePops(c: Call): seq<Pop>
    decreases c
  {
    AllTruePops(c.kids) + [Pop(c.ret, c.entry)]
  }

  function AllTruePops(cs: seq<Call>): seq<Pop>
    decreases cs
  {
    if cs == [] then [] else TruePops(cs[0]) + AllTruePops(cs[1..])
  }

  /** `s'` is `s` with these reports and pops added and the same frames on this CPU. */
  ghost predicate Went(s: State, s': State, cpu: nat, reports: seq<Report>, pops: seq<Pop>) {
    && s'.Frames(cpu) == s.Frames(cpu)
    && s'.reports == s.reports + reports
    && s'.pops == s.pops + pops
  }

  lemma WentOn(s: State, t: State, u: State, cpu: nat, r1: seq<Report>, p1: seq<Pop>, r2: seq<Report>, p2: seq<Pop>)
    requires Went(s, t, cpu, r1, p1) && Went(t, u, cpu, r2, p2)
    ensures Went(s, u, cpu, r1 + r2, p1 + p2)
  {
    assert (s.reports + r1) + r2 == s.reports + (r1 + r2);
    assert (s.pops + p1) + p2 == s.pops + (p1 + p2);
  }

  /** On a well-nested trace each entry is reported with its true call chain, every return pops its
      own entry, and the stack is left as it was. */
  lemma {:induction false} CallRuns(names: Names, kept: Option<set<nat>>, s: State, cpu: nat, c: Call)
    requires WellNested(names, cpu, s.Frames(cpu), c)
    ensures Went(s, Run(names, kept, s, TraceOf(c)), cpu, TrueChains(kept, s.Frames(cpu), c), TruePops(c))
    decreases c
  {
    hide Step;
    hide Matches;
    hide CalledFrom;
    var outer := s.Frames(cpu);
    var inner := Step(names, kept, s, E(c.entry));
    var head := if Retained(kept, c.entry) then [Report(c.entry, outer + [c.entry])] else [];
    FirstEntry(names, kept, s, cpu, c.entry);
    CallsRun(names, kept, inner, cpu, c.kids);
    var after := Run(names, kept, inner, TraceAll(c.kids));
    RunAppend(names, kept, inner, TraceAll(c.kids), [R(c.ret)]);
    EntryThenRest(names, kept, s, c);
    LastReturn(names, kept, after, c.ret, outer, c.entry);
    hide Run;
    var rest, pops, last := AllTrueChains(kept, outer + [c.entry], c.kids), AllTruePops(c.kids), [Pop(c.ret, c.entry)];
    assert (s.reports + head) + rest == s.reports + (head + rest);
    assert (s.pops + pops) + last == s.pops + (pops + last);
  }

  lemma FirstEntry(names: Names, kept: Option<set<nat>>, s: State, cpu: nat, e: Entry)
    requires e.Framed() && e.cpu == cpu && |s.Frames(cpu)| < MAX_FRAMES
    requires s.Frames(cpu) != [] ==> CalledFrom(names, s.Frames(cpu)[|s.Frames(cpu)| - 1], e)
    ensures var outer, t := s.Frames(cpu), Step(names, kept, s, E(e));
            && t.Frames(cpu) == outer + [e] && t.pops == s.pops
            && t.reports == s.reports + if Retained(kept, e) then [Report(e, outer + [e])] else []
  {
    hide CalledFrom;
  }

  lemma EntryThenRest(names: Names, kept: Option<set<nat>>, s: State, c: Call)
    ensures Run(names, kept, s, TraceOf(c))
            == Run(names, kept, Step(names, kept, s, E(c.entry)), TraceAll(c.kids) + [R(c.ret)])
  {
    hide Step;
    assert TraceOf(c)[1..] == TraceAll(c.kids) + [R(c.ret)];
  }

  lemma LastReturn(names: Names, kept: Option<set<nat>>, s: State, r: Return, outer: seq<Entry>, e: Entry)
    requires s.Frames(r.cpu) == outer + [e] && Matches([e], r)
    ensures var s' := Run(names, kept, s, [R(r)]);
            s'.Frames(r.cpu) == outer && s'.reports == s.reports && s'.pops == s.pops + [Pop(r, e)]
  {
    assert (outer + [e])[..|outer|] == outer;
    assert Run(names, kept, s, [R(r)]) == Run(names, kept, Step(names, kept, s, R(r)), []);
  }

  lemma {:induction false} CallsRun(names: Names, kept: Option<set<nat>>, s: State, cpu: nat, cs: seq<Call>)
    requires AllNested(names, cpu, s.Frames(cpu), cs)
    ensures Went(s, Run(names, kept, s, TraceAll(cs)), cpu, AllTrueChains(kept, s.Frames(cpu), cs), AllTruePops(cs))
    decreases cs
  {
    if cs == [] {
      assert s.reports + [] == s.reports && s.pops + [] == s.pops;
    } else {
      CallRuns(names, kept, s, cpu, cs[0]);
      var t := Run(names, kept, s, TraceOf(cs[0]));
      CallsRun(names, kept, t, cpu, cs[1..]);
      RunAppend(names, kept, s, TraceOf(cs[0]), TraceAll(cs[1..]));
      WentOn(s, t, Run(names, kept, s, TraceAll(cs)), cpu,
             TrueChains(kept, s.Frames(cpu), cs[0]), TruePops(cs[0]),
             AllTrueChains(kept, s.Frames(cpu), cs[1..]), AllTruePops(cs[1..]));
    }
  }

  function ReturnsOf(items: seq<Item>): seq<Return>
    decreases items
  {
    if items == [] then []
    else (if items[0].R? then [items[0].ret] else []) + ReturnsOf(items[1..])
  }

  function EntriesOf(items: seq<Item>): seq<Entry>
    decreases items
  {
    if items == [] then []
    else (if items[0].E? then [items[0].entry] else []) + EntriesOf(items[1..])
  }

  lemma {:induction false} ReturnsAppend(a: seq<Item>, b: seq<Item>)
    ensures |ReturnsOf(a + b)| == |ReturnsOf(a)| + |ReturnsOf(b)|
    decreases a
  {
    if a == [] {
      assert a + b == b;
    } else {
      assert (a + b)[1..] == a[1..] + b;
      ReturnsAppend(a[1..], b);
    }
  }

  /** So `matched` is the number of returns in the trace. */
  lemma {:induction false} EveryReturnMatches(cs: seq<Call>)
    ensures |AllTruePops(cs)| == |ReturnsOf(TraceAll(cs))|
    decreases cs
  {
    if cs != [] {
      var c := cs[0];
      EveryReturnMatches(c.kids);
      EveryReturnMatches(cs[1..]);
      ReturnsAppend(TraceOf(c), TraceAll(cs[1..]));
      ReturnsAppend([E(c.entry)], TraceAll(c.kids) + [R(c.ret)]);
      ReturnsAppend(TraceAll(c.kids), [R(c.ret)]);
      assert ReturnsOf([E(c.entry)]) == [] && ReturnsOf([R(c.ret)]) == [c.ret];
    }
  }

  // ------------------------------------------------------------------ from two streams

  /** In time order, entries before returns where the counts are equal. */
  ghost predicate Ordered(items: seq<Item>) {
    forall i, j :: 0 <= i < j < |items| ==>
      && items[i].Insn() <= items[j].Insn()
      && (items[i].R? && items[j].E? ==> items[i].Insn() < items[j].Insn())
  }

  lemma {:induction false} FirstEntryLater(items: seq<Item>)
    ensures EntriesOf(items) != [] ==> exists j :: 0 <= j < |items| && items[j] == E(EntriesOf(items)[0])
    ensures ReturnsOf(items) != [] ==> exists j :: 0 <= j < |items| && items[j] == R(ReturnsOf(items)[0])
    decreases items
  {
    if items != [] {
      FirstEntryLater(items[1..]);
      assert forall j :: 0 <= j < |items[1..]| ==> items[1..][j] == items[j + 1];
    }
  }

  lemma MergeHeads(es: seq<Entry>, rs: seq<Return>)
    ensures es != [] && (rs == [] || es[0].insn <= rs[0].insn) ==> Merge(es, rs) == [E(es[0])] + Merge(es[1..], rs)
    ensures rs != [] && (es == [] || rs[0].insn < es[0].insn) ==> Merge(es, rs) == [R(rs[0])] + Merge(es, rs[1..])
  {
  }

  /** Merging the two streams of an ordered trace gives the trace back. */
  lemma {:induction false} MergeRestores(items: seq<Item>)
    requires Ordered(items)
    ensures Merge(EntriesOf(items), ReturnsOf(items)) == items
    decreases items
  {
    if items != [] {
      HeadFirst(items);
      MergeRestores(items[1..]);
      hide Ordered;
      hide Merge;
      var es, rs := EntriesOf(items[1..]), ReturnsOf(items[1..]);
      MergeHeads(EntriesOf(items), ReturnsOf(items));
      if items[0].E? {
        assert EntriesOf(items) == [items[0].entry] + es && ReturnsOf(items) == rs;
        assert EntriesOf(items)[1..] == es;
      } else {
        assert EntriesOf(items) == es && ReturnsOf(items) == [items[0].ret] + rs;
        assert ReturnsOf(items)[1..] == rs;
      }
    }
  }

  lemma HeadFirst(items: seq<Item>)
    requires Ordered(items) && items != []
    ensures Ordered(items[1..])
    ensures items[0].E? && ReturnsOf(items[1..]) != [] ==> items[0].entry.insn <= ReturnsOf(items[1..])[0].insn
    ensures items[0].R? && EntriesOf(items[1..]) != [] ==> items[0].ret.insn < EntriesOf(items[1..])[0].insn
  {
    FirstEntryLater(items[1..]);
    assert forall j :: 0 <= j < |items[1..]| ==> items[1..][j] == items[j + 1];
  }

  function RelevantOf(events: seq<Entry>): seq<Entry> {
    if events == [] then []
    else (if events[0].Relevant() then [events[0]] else []) + RelevantOf(events[1..])
  }

  /** What is reconstructed from an event list and a return list; without returns, nothing. */
  function Observed(names: Names, kept: Option<set<nat>>, events: seq<Entry>, rets: seq<Return>): State {
    if rets == [] then START else Run(names, kept, START, Merge(RelevantOf(events), rets))
  }

  lemma {:induction false} TrueChainsHere(names: Names, kept: Option<set<nat>>, cpu: nat, outer: seq<Entry>,
                                          cs: seq<Call>)
    requires AllNested(names, cpu, outer, cs)
    ensures forall r :: r in AllTrueChains(kept, outer, cs) ==> r.entry.cpu == cpu
    ensures forall p :: p in AllTruePops(cs) ==> p.ret.cpu == cpu
    decreases cs
  {
    if cs != [] {
      TrueChainsHere(names, kept, cpu, outer + [cs[0].entry], cs[0].kids);
      TrueChainsHere(names, kept, cpu, outer, cs[1..]);
    }
  }

  lemma {:induction false} OnlyReportsHere(reports: seq<Report>, cpu: nat)
    requires forall r :: r in reports ==> r.entry.cpu == cpu
    ensures ReportsOf(reports, cpu) == reports
  {
    if reports != [] {
      OnlyReportsHere(reports[..|reports| - 1], cpu);
    }
  }

  lemma {:induction false} OnlyPopsHere(pops: seq<Pop>, cpu: nat)
    requires forall p :: p in pops ==> p.ret.cpu == cpu
    ensures PopsOf(pops, cpu) == pops
  {
    if pops != [] {
      OnlyPopsHere(pops[..|pops| - 1], cpu);
    }
  }

  // ------------------------------------------------------------------ one CPU among others

  function EntriesOn(es: seq<Entry>, cpu: nat): (r: seq<Entry>)
    ensures forall e :: e in r ==> e in es
  {
    if es == [] then []
    else if es[0].cpu == cpu then [es[0]] + EntriesOn(es[1..], cpu)
    else EntriesOn(es[1..], cpu)
  }

  function ReturnsOn(rs: seq<Return>, cpu: nat): (r: seq<Return>)
    ensures forall x :: x in r ==> x in rs
  {
    if rs == [] then []
    else if rs[0].cpu == cpu then [rs[0]] + ReturnsOn(rs[1..], cpu)
    else ReturnsOn(rs[1..], cpu)
  }

  /** Both streams were recorded in the order of their instruction counts. */
  ghost predicate InTimeOrder(es: seq<Entry>, rs: seq<Return>) {
    && (forall i, j :: 0 <= i < j < |es| ==> es[i].insn <= es[j].insn)
    && (forall i, j :: 0 <= i < j < |rs| ==> rs[i].insn <= rs[j].insn)
  }

  lemma InTimeOrderTail(es: seq<Entry>, rs: seq<Return>)
    requires InTimeOrder(es, rs)
    ensures es != [] ==> InTimeOrder(es[1..], rs) && forall e :: e in es ==> es[0].insn <= e.insn
    ensures rs != [] ==> InTimeOrder(es, rs[1..]) && forall r :: r in rs ==> rs[0].insn <= r.insn
  {
  }

  lemma ItemsOfNext(item: Item, rest: seq<Item>, cpu: nat)
    ensures ItemsOf([item] + rest, cpu) == if item.Cpu() == cpu then [item] + ItemsOf(rest, cpu) else ItemsOf(rest, cpu)
  {
    assert ([item] + rest)[1..] == rest;
    assert [] + ItemsOf(rest, cpu) == ItemsOf(rest, cpu);
  }

  lemma MergeOnEntry(es: seq<Entry>, rs: seq<Return>, cpu: nat)
    requires es != [] && (forall r :: r in rs ==> es[0].insn <= r.insn)
    requires ItemsOf(Merge(es[1..], rs), cpu) == Merge(EntriesOn(es[1..], cpu), ReturnsOn(rs, cpu))
    ensures ItemsOf(Merge(es, rs), cpu) == Merge(EntriesOn(es, cpu), ReturnsOn(rs, cpu))
  {
    hide Merge;
    hide ItemsOf;
    hide ReturnsOn;
    MergeHeads(es, rs);
    ItemsOfNext(E(es[0]), Merge(es[1..], rs), cpu);
    assert E(es[0]).Cpu() == es[0].cpu;
    if es[0].cpu == cpu {
      var own, rs' := [es[0]] + EntriesOn(es[1..], cpu), ReturnsOn(rs, cpu);
      assert forall r :: r in rs' ==> es[0].insn <= r.insn;
      assert own[1..] == EntriesOn(es[1..], cpu);
      MergeHeads(own, rs');
    }
  }

  lemma MergeOnReturn(es: seq<Entry>, rs: seq<Return>, cpu: nat)
    requires rs != [] && (forall e :: e in es ==> rs[0].insn < e.insn)
    requires ItemsOf(Merge(es, rs[1..]), cpu) == Merge(EntriesOn(es, cpu), ReturnsOn(rs[1..], cpu))
    ensures ItemsOf(Merge(es, rs), cpu) == Merge(EntriesOn(es, cpu), ReturnsOn(rs, cpu))
  {
    hide Merge;
    hide ItemsOf;
    hide EntriesOn;
    MergeHeads(es, rs);
    ItemsOfNext(R(rs[0]), Merge(es, rs[1..]), cpu);
    assert R(rs[0]).Cpu() == rs[0].cpu;
    if rs[0].cpu == cpu {
      var es', own := EntriesOn(es, cpu), [rs[0]] + ReturnsOn(rs[1..], cpu);
      assert forall e :: e in es' ==> rs[0].insn < e.insn;
      assert own[1..] == ReturnsOn(rs[1..], cpu);
      MergeHeads(es', own);
    }
  }

  /** If both streams are in time order, a CPU's part of the merge is the merge of its parts. */
  lemma {:induction false} MergeOn(es: seq<Entry>, rs: seq<Return>, cpu: nat)
    requires InTimeOrder(es, rs)
    ensures ItemsOf(Merge(es, rs), cpu) == Merge(EntriesOn(es, cpu), ReturnsOn(rs, cpu))
    decreases |es| + |rs|
  {
    InTimeOrderTail(es, rs);
    hide InTimeOrder;
    hide Merge;
    hide ItemsOf;
    hide EntriesOn;
    hide ReturnsOn;
    if es == [] && rs == [] {
      NothingToMerge(cpu);
    } else if rs == [] || (es != [] && es[0].insn <= rs[0].insn) {
      MergeOn(es[1..], rs, cpu);
      MergeOnEntry(es, rs, cpu);
    } else {
      MergeOn(es, rs[1..], cpu);
      MergeOnReturn(es, rs, cpu);
    }
  }

  lemma NothingToMerge(cpu: nat)
    ensures ItemsOf(Merge([], []), cpu) == [] == Merge(EntriesOn([], cpu), ReturnsOn([], cpu))
  {
  }

  lemma {:induction false} RelevantOn(events: seq<Entry>, cpu: nat)
    ensures RelevantOf(EntriesOn(events, cpu)) == EntriesOn(RelevantOf(events), cpu)
  {
    if events != [] {
      var e, rest := events[0], events[1..];
      RelevantOn(rest, cpu);
      assert ([e] + EntriesOn(rest, cpu))[1..] == EntriesOn(rest, cpu);
      assert ([e] + RelevantOf(rest))[1..] == RelevantOf(rest);
      assert EntriesOn(events, cpu) == if e.cpu == cpu then [e] + EntriesOn(rest, cpu) else EntriesOn(rest, cpu);
      assert RelevantOf(events) == if e.Relevant() then [e] + RelevantOf(rest) else RelevantOf(rest);
    }
  }

  /** If both streams are in time order and the CPU has a return whenever there is one at all, then what
      is reported for it, what its returns pop and what stays on its stack depend on its own events and
      returns only. */
  lemma CpusAreSeparate(names: Names, kept: Option<set<nat>>, events: seq<Entry>, rets: seq<Return>, cpu: nat)
    requires InTimeOrder(RelevantOf(events), rets) && (rets == [] || ReturnsOn(rets, cpu) != [])
    ensures SameOn(Observed(names, kept, events, rets),
                   Observed(names, kept, EntriesOn(events, cpu), ReturnsOn(rets, cpu)), cpu)
  {
    if rets != [] {
      var es, rs := RelevantOf(events), ReturnsOn(rets, cpu);
      RelevantOn(events, cpu);
      MergeOn(es, rets, cpu);
      CpusAreIndependent(names, kept, START, START, Merge(es, rets), cpu);
    }
  }

  /** A function entry that fits the return below. */
  function Called(insn: nat, cpu: nat): Entry {
    Entry(0, insn, cpu, true, "call", None, None, None, Some(8), Some(16), Some(1))
  }

  const BACK := Return(5, 1, 0, 8, 16, 1)

  lemma RunOne(names: Names, kept: Option<set<nat>>, s: State, a: Item)
    ensures Run(names, kept, s, [a]) == Step(names, kept, s, a)
  {
    hide Step;
    assert [a][1..] == [];
    assert Run(names, kept, Step(names, kept, s, a), []) == Step(names, kept, s, a);
  }

  lemma RunShort(names: Names, kept: Option<set<nat>>, s: State, a: Item, b: Item, c: Item)
    ensures Run(names, kept, s, [a, b]) == Step(names, kept, Step(names, kept, s, a), b)
    ensures Run(names, kept, s, [a, b, c]) == Step(names, kept, Step(names, kept, Step(names, kept, s, a), b), c)
  {
    hide Step;
    hide Run;
    RunOne(names, kept, s, a);
    RunOne(names, kept, Step(names, kept, s, a), b);
    RunOne(names, kept, Step(names, kept, Step(names, kept, s, a), b), c);
    RunAppend(names, kept, s, [a], [b]);
    RunAppend(names, kept, s, [a, b], [c]);
    assert [a, b] == [a] + [b] && [a, b, c] == [a, b] + [c];
  }

  lemma MergeLate(e0: Entry, e1: Entry, r: Return)
    requires e1.insn <= r.insn < e0.insn
    ensures Merge([e0, e1], [r]) == [R(r), E(e0), E(e1)] && Merge([e1], [r]) == [E(e1), R(r)]
  {
    assert [e0, e1][1..] == [e1] && [e1][1..] == [] && [r][1..] == [];
    assert Merge([], []) == [];
    assert Merge([e1], []) == [E(e1)] && Merge([], [r]) == [R(r)];
    assert Merge([e0, e1], []) == [E(e0), E(e1)];
  }

  lemma OnlyThis(e0: Entry, e1: Entry, r: Return)
    requires e0.Relevant() && e1.Relevant() && e0.cpu != r.cpu == e1.cpu
    ensures RelevantOf([e0, e1]) == [e0, e1] && RelevantOf([e1]) == [e1]
    ensures EntriesOn([e0, e1], r.cpu) == [e1] && ReturnsOn([r], r.cpu) == [r]
  {
    assert [e0, e1][1..] == [e1] && [e1][1..] == [] && [r][1..] == [];
    assert RelevantOf([]) == [] && EntriesOn([], r.cpu) == [] && ReturnsOn([], r.cpu) == [];
    assert EntriesOn([e1], r.cpu) == [e1];
  }

  /** A return without an entry before it pops nothing, nor do entries. */
  lemma ReturnThenEntries(names: Names, kept: Option<set<nat>>, r: Return, e0: Entry, e1: Entry)
    ensures Step(names, kept, Step(names, kept, Step(names, kept, START, R(r)), E(e0)), E(e1)).pops == []
  {
    var s := Step(names, kept, START, R(r));
    assert s == START;
    hide Step;
    StepTallies(names, kept, s, E(e0), 0);
    StepTallies(names, kept, Step(names, kept, s, E(e0)), E(e1), 0);
  }

  /** A return after the entry that it fits pops that. */
  lemma EntryThenReturn(names: Names, kept: Option<set<nat>>, e: Entry, r: Return)
    requires e.Framed() && e.cpu == r.cpu && Matches([e], r)
    ensures PopsOf(Step(names, kept, Step(names, kept, START, E(e)), R(r)).pops, r.cpu) == [Pop(r, e)]
  {
    var s := Step(names, kept, START, E(e));
    assert s.Frames(e.cpu) == [e] && s.pops == [];
    hide Step;
    StepTallies(names, kept, s, R(r), r.cpu);
    assert [] + [Pop(r, e)] == [Pop(r, e)];
  }

  /** Time order matters: here CPU 0 has been recorded ahead of CPU 1. Its entry at count 10 holds up the
      merge, so that CPU 1's return at count 5 comes before CPU 1's entry at count 1 and pops nothing; on
      its own it pops that entry. */
  lemma OutOfOrderPopsNothing(names: Names, kept: Option<set<nat>>)
    ensures PopsOf(Observed(names, kept, [Called(10, 0), Called(1, 1)], [BACK]).pops, 1) == []
    ensures PopsOf(Observed(names, kept, EntriesOn([Called(10, 0), Called(1, 1)], 1), ReturnsOn([BACK], 1)).pops, 1)
            == [Pop(BACK, Called(1, 1))]
  {
    var e0, e1 := Called(10, 0), Called(1, 1);
    OnlyThis(e0, e1, BACK);
    MergeLate(e0, e1, BACK);
    RunShort(names, kept, START, R(BACK), E(e0), E(e1));
    RunShort(names, kept, START, E(e1), R(BACK), R(BACK));
    ReturnThenEntries(names, kept, BACK, e0, e1);
    EntryThenReturn(names, kept, e1, BACK);
    hide Merge;
    hide Run;
    hide Step;
    hide RelevantOf;
    hide EntriesOn;
    hide ReturnsOn;
  }

  lemma MergeTwo(e: Entry, r: Return)
    requires e.Relevant() && e.insn <= r.insn && e.cpu != r.cpu
    ensures RelevantOf([e]) == [e] && ReturnsOn([r], e.cpu) == [] && Merge([e], [r]) == [E(e), R(r)]
  {
    assert [e][1..] == [] && [r][1..] == [];
    assert Merge([], []) == [];
    assert Merge([], [r]) == [R(r)];
  }

  /** So do returns: a CPU without any is reported only if another one has some. */
  lemma NoReturnsNoReports(names: Names)
    ensures ReportsOf(Observed(names, None, [Called(1, 0)], [BACK]).reports, 0)
            == [Report(Called(1, 0), [Called(1, 0)])]
    ensures ReportsOf(Observed(names, None, EntriesOn([Called(1, 0)], 0), ReturnsOn([BACK], 0)).reports, 0) == []
  {
    var e := Called(1, 0);
    MergeTwo(e, BACK);
    RunShort(names, None, START, E(e), R(BACK), R(BACK));
    hide Merge;
    hide Run;
    hide RelevantOf;
    hide EntriesOn;
    hide ReturnsOn;
    hide CalledFrom;
    ReportsAppend([], Report(e, [e]), 0);
    assert [] + [Report(e, [e])] == [Report(e, [e])];
  }

  /** If the merged events of a CPU are a well-nested trace, whatever the other CPUs do, each of its
      entries gets its true call chain and each of its returns pops its own entry. */
  lemma WellNestedIsObserved(names: Names, kept: Option<set<nat>>, events: seq<Entry>, rets: seq<Return>, cpu: nat,
                             cs: seq<Call>)
    requires rets != [] && AllNested(names, cpu, [], cs)
    requires ItemsOf(Merge(RelevantOf(events), rets), cpu) == TraceAll(cs)
    ensures var s := Observed(names, kept, events, rets);
            && ReportsOf(s.reports, cpu) == AllTrueChains(kept, [], cs)
            && PopsOf(s.pops, cpu) == AllTruePops(cs)
            && s.Frames(cpu) == []
  {
    TrueChainsHere(names, kept, cpu, [], cs);
    OnlyReportsHere(AllTrueChains(kept, [], cs), cpu);
    OnlyPopsHere(AllTruePops(cs), cpu);
    CpusAreIndependent(names, kept, START, START, Merge(RelevantOf(events), rets), cpu);
    CallsRun(names, kept, START, cpu, cs);
    assert [] + AllTrueChains(kept, [], cs) == AllTrueChains(kept, [], cs);
    assert [] + AllTruePops(cs) == AllTruePops(cs);
  }

  /** Streams in time order, from any number of CPUs: a CPU whose own entries and returns are those of an
      ordered well-nested trace gets the true chain of each entry, and each return pops its own entry. */
  lemma WellNestedAmongOthers(names: Names, kept: Option<set<nat>>, events: seq<Entry>, rets: seq<Return>, cpu: nat,
                              cs: seq<Call>)
    requires InTimeOrder(RelevantOf(events), rets)
    requires cs != [] && AllNested(names, cpu, [], cs) && Ordered(TraceAll(cs))
    requires EntriesOn(RelevantOf(events), cpu) == EntriesOf(TraceAll(cs))
             && ReturnsOn(rets, cpu) == ReturnsOf(TraceAll(cs))
    ensures var s := Observed(names, kept, events, rets);
            && ReportsOf(s.reports, cpu) == AllTrueChains(kept, [], cs)
            && PopsOf(s.pops, cpu) == AllTruePops(cs)
            && s.Frames(cpu) == []
  {
    hide InTimeOrder;
    hide Ordered;
    MergeOn(RelevantOf(events), rets, cpu);
    MergeRestores(TraceAll(cs));
    EveryReturnMatches(cs);
    assert |AllTruePops(cs)| >= |TruePops(cs[0])| >= 1;
    WellNestedIsObserved(names, kept, events, rets, cpu, cs);
  }

  /** The single-CPU case, from the two recorded streams: an ordered well-nested trace gives exactly
      the true chains, and as many matches as returns. */
  lemma WellNestedOnOneCpu(names: Names, kept: Option<set<nat>>, cpu: nat, cs: seq<Call>)
    requires cs != [] && AllNested(names, cpu, [], cs) && Ordered(TraceAll(cs))
    ensures var s := Observed(names, kept, EntriesOf(TraceAll(cs)), ReturnsOf(TraceAll(cs)));
            && s.reports == AllTrueChains(kept, [], cs)
            && s.pops == AllTruePops(cs) && |s.pops| == |ReturnsOf(TraceAll(cs))|
  {
    MergeRestores(TraceAll(cs));
    AllRelevant(names, cpu, [], cs);
    CallsRun(names, kept, START, cpu, cs);
    EveryReturnMatches(cs);
    assert |AllTruePops(cs)| >= |TruePops(cs[0])| >= 1;
    assert [] + AllTrueChains(kept, [], cs) == AllTrueChains(kept, [], cs);
    assert [] + AllTruePops(cs) == AllTruePops(cs);
  }

  lemma {:induction false} RelevantAppend(a: seq<Item>, b: seq<Item>)
    ensures EntriesOf(a + b) == EntriesOf(a) + EntriesOf(b)
    ensures RelevantOf(EntriesOf(a)) == EntriesOf(a) && RelevantOf(EntriesOf(b)) == EntriesOf(b)
            ==> RelevantOf(EntriesOf(a + b)) == EntriesOf(a + b)
    decreases a
  {
    EntriesAppend(a, b);
    KeepAll(EntriesOf(a), EntriesOf(b));
  }

  lemma {:induction false} EntriesAppend(a: seq<Item>, b: seq<Item>)
    ensures EntriesOf(a + b) == EntriesOf(a) + EntriesOf(b)
    decreases a
  {
    if a == [] {
      assert a + b == b;
    } else {
      assert (a + b)[1..] == a[1..] + b;
      var head := if a[0].E? then [a[0].entry] else [];
      calc {
        EntriesOf(a + b);
        head + EntriesOf(a[1..] + b);
        { EntriesAppend(a[1..], b); }
        head + (EntriesOf(a[1..]) + EntriesOf(b));
        (head + EntriesOf(a[1..])) + EntriesOf(b);
      }
    }
  }

  lemma {:induction false} KeepAll(a: seq<Entry>, b: seq<Entry>)
    ensures RelevantOf(a + b) == RelevantOf(a) + RelevantOf(b)
    decreases a
  {
    if a == [] {
      assert a + b == b;
    } else {
      assert (a + b)[1..] == a[1..] + b;
      var head := if a[0].Relevant() then [a[0]] else [];
      calc {
        RelevantOf(a + b);
        head + RelevantOf(a[1..] + b);
        { KeepAll(a[1..], b); }
        head + (RelevantOf(a[1..]) + RelevantOf(b));
        (head + RelevantOf(a[1..])) + RelevantOf(b);
      }
    }
  }

  lemma OneItem(e: Entry, r: Return)
    ensures EntriesOf([E(e)]) == [e] && EntriesOf([R(r)]) == []
  {
    assert [E(e)][1..] == [] && [R(r)][1..] == [];
    assert EntriesOf([]) == [];
  }

  lemma {:induction false} AllRelevant(names: Names, cpu: nat, outer: seq<Entry>, cs: seq<Call>)
    requires AllNested(names, cpu, outer, cs)
    ensures RelevantOf(EntriesOf(TraceAll(cs))) == EntriesOf(TraceAll(cs))
    decreases cs
  {
    if cs != [] {
      var c := cs[0];
      AllRelevant(names, cpu, outer + [c.entry], c.kids);
      AllRelevant(names, cpu, outer, cs[1..]);
      OneItem(c.entry, c.ret);
      RelevantAppend(TraceAll(c.kids), [R(c.ret)]);
      RelevantAppend([E(c.entry)], TraceAll(c.kids) + [R(c.ret)]);
      RelevantAppend(TraceOf(c), TraceAll(cs[1..]));
    }
  }

  // ------------------------------------------------------------------ observed_stacks

  /** A frame's name: its entry name, or else its function, or else its kind; empty names do not count. */
  function RawName(e: Entry): string {
    if e.entryName.Some? && e.entryName.value != "" then e.entryName.value
    else if e.func.Some? && e.func.value != "" then e.func.value
    else e.kind
  }

  function PathOf(names: Names, raw: bool, frames: seq<Entry>): (p: seq<string>)
    ensures |p| == |frames|
  {
    if frames == [] then []
    else [if raw then RawName(frames[0]) else names.display(RawName(frames[0]))] + PathOf(names, raw, frames[1..])
  }

  /** Where each frame stands: a parent at its suspended call site, the innermost at its entry. */
  function PcsOf(frames: seq<Entry>): (p: seq<nat>)
    ensures |p| == |frames|
  {
    if frames == [] then []
    else if |frames| == 1 then [if frames[0].pc.Some? then frames[0].pc.value else 0]
    else
      var ra := if frames[1].returnAddress.Some? then frames[1].returnAddress.value else 0;
      [if ra >= 1 then ra - 1 else 0] + PcsOf(frames[1..])
  }

  /** The dictionary of paths: a later report of an id replaces an earlier one. */
  function Paths(names: Names, raw: bool, reports: seq<Report>): map<nat, seq<string>> {
    if reports == [] then map[]
    else
      var n := |reports| - 1;
      Paths(names, raw, reports[..n])[reports[n].entry.id := PathOf(names, raw, reports[n].frames)]
  }

  function FramePcs(reports: seq<Report>): map<nat, seq<nat>>
  {
    if reports == [] then map[]
    else
      var n := |reports| - 1;
      FramePcs(reports[..n])[reports[n].entry.id := PcsOf(reports[n].frames)]
  }

  /** The caller of an address, remembered once looked up. */
  method CallerOf(names: Names, cache: map<nat, Option<string>>, addr: nat)
    returns (caller: Option<string>, cache': map<nat, Option<string>>)
    requires forall a :: a in cache ==> cache[a] == names.resolve(a)
    ensures caller == names.resolve(addr)
    ensures forall a :: a in cache' ==> cache'[a] == names.resolve(a)
  {
    cache' := cache;
    if addr !in cache' {
      cache' := cache'[addr := names.resolve(addr)];
    }
    caller := cache'[addr];
  }

  /** What the loop does to the frames of a CPU for a function entry. */
  method PushFrame(names: Names, cache: map<nat, Option<string>>, before: seq<Entry>, e: Entry)
    returns (frames: seq<Entry>, cache': map<nat, Option<string>>)
    requires e.Framed() && forall k :: 0 <= k < |before| ==> before[k].Framed()
    requires forall a :: a in cache ==> cache[a] == names.resolve(a)
    ensures frames == Push(names, before, e)
    ensures forall a :: a in cache' ==> cache'[a] == names.resolve(a)
  {
    frames := before;
    var caller;
    caller, cache' := CallerOf(names, cache, e.returnAddress.value);
    if frames != [] {
      var parent := frames[|frames| - 1];
      assert parent.Framed();
      var callerMatches := caller.Some? &&
        (parent.entryName == caller || parent.entryName == Some(names.display(caller.value)));
      if !callerMatches || parent.addressSpace != e.addressSpace || e.stackPointer.value > parent.stackPointer.value {
        frames := [];
      }
    }
    if |frames| >= MAX_FRAMES {
      frames := [];
    }
    frames := frames + [e];
  }

  /** What the loop has built so far is the state's own reports, as dictionaries. */
  ghost predicate Built(names: Names, raw: bool, s: State, active: map<nat, seq<Entry>>,
                        paths: map<nat, seq<string>>, framePcs: map<nat, seq<nat>>, matched: nat, nested: nat) {
    && AllOk(names, s) && active == s.active && matched == |s.pops| && nested == s.nested
    && paths == Paths(names, raw, s.reports) && framePcs == FramePcs(s.reports)
  }

  method TakeEntry(names: Names, kept: Option<set<nat>>, raw: bool, e: Entry, ghost s: State,
                   active: map<nat, seq<Entry>>, callers: map<nat, Option<string>>,
                   paths: map<nat, seq<string>>, framePcs: map<nat, seq<nat>>, ghost matched: nat, nested: nat)
    returns (active': map<nat, seq<Entry>>, callers': map<nat, Option<string>>,
             paths': map<nat, seq<string>>, framePcs': map<nat, seq<nat>>, nested': nat)
    requires Built(names, raw, s, active, paths, framePcs, matched, nested)
    requires forall a :: a in callers ==> callers[a] == names.resolve(a)
    ensures Built(names, raw, Step(names, kept, s, E(e)), active', paths', framePcs', matched, nested')
    ensures forall a :: a in callers' ==> callers'[a] == names.resolve(a)
  {
    active', callers', paths', framePcs', nested' := active, callers, paths, framePcs, nested;
    if !e.Framed() {
      active' := active - {e.cpu};
      hide AllOk;
      StepOk(names, kept, s, E(e));
      return;
    }
    var frames := if e.cpu in active then active[e.cpu] else [];
    BuiltFramed(names, raw, s, active, paths, framePcs, matched, nested, e.cpu);
    BuiltEntry(names, kept, raw, s, active, paths, framePcs, matched, nested, e);
    hide Built;
    hide Push;
    hide Step;
    frames, callers' := PushFrame(names, callers, frames, e);
    active' := active[e.cpu := frames];
    if Retained(kept, e) {
      paths' := paths[e.id := PathOf(names, raw, frames)];
      framePcs' := framePcs[e.id := PcsOf(frames)];
    }
    if |frames| > 1 {
      nested' := nested + 1;
    }
  }

  lemma BuiltFramed(names: Names, raw: bool, s: State, active: map<nat, seq<Entry>>,
                    paths: map<nat, seq<string>>, framePcs: map<nat, seq<nat>>, matched: nat, nested: nat, cpu: nat)
    requires Built(names, raw, s, active, paths, framePcs, matched, nested)
    ensures active == s.active
    ensures forall k :: 0 <= k < |s.Frames(cpu)| ==> s.Frames(cpu)[k].Framed()
  {
  }

  lemma BuiltEntry(names: Names, kept: Option<set<nat>>, raw: bool, s: State, active: map<nat, seq<Entry>>,
                   paths: map<nat, seq<string>>, framePcs: map<nat, seq<nat>>, matched: nat, nested: nat, e: Entry)
    requires Built(names, raw, s, active, paths, framePcs, matched, nested) && e.Framed()
    ensures var frames := Push(names, s.Frames(e.cpu), e);
            Built(names, raw, Step(names, kept, s, E(e)), active[e.cpu := frames],
                     if Retained(kept, e) then paths[e.id := PathOf(names, raw, frames)] else paths,
                     if Retained(kept, e) then framePcs[e.id := PcsOf(frames)] else framePcs,
                     matched, nested + if |frames| > 1 then 1 else 0)
  {
    hide AllOk;
    hide Push;
    hide PathOf;
    hide PcsOf;
    hide Paths;
    hide FramePcs;
    var frames := Push(names, s.Frames(e.cpu), e);
    StepOk(names, kept, s, E(e));
    DictionariesNext(names, raw, s.reports, Report(e, frames));
  }

  lemma DictionariesNext(names: Names, raw: bool, reports: seq<Report>, r: Report)
    ensures Paths(names, raw, reports + [r]) == Paths(names, raw, reports)[r.entry.id := PathOf(names, raw, r.frames)]
    ensures FramePcs(reports + [r]) == FramePcs(reports)[r.entry.id := PcsOf(r.frames)]
  {
    hide PathOf;
    hide PcsOf;
    assert (reports + [r])[..|reports|] == reports;
  }

  method TakeReturn(names: Names, kept: Option<set<nat>>, raw: bool, r: Return, ghost s: State,
                    active: map<nat, seq<Entry>>,
                    ghost paths: map<nat, seq<string>>, ghost framePcs: map<nat, seq<nat>>,
                    matched: nat, ghost nested: nat)
    returns (active': map<nat, seq<Entry>>, matched': nat)
    requires Built(names, raw, s, active, paths, framePcs, matched, nested)
    ensures Built(names, raw, Step(names, kept, s, R(r)), active', paths, framePcs, matched', nested)
  {
    active', matched' := active, matched;
    StepOk(names, kept, s, R(r));
    hide CalledFrom;
    var frames := if r.cpu in active then active[r.cpu] else [];
    if frames != [] && r.Readable() {
      var top := frames[|frames| - 1];
      if top.returnAddress == Some(r.target) && top.addressSpace == Some(r.satp) && top.stackPointer == Some(r.sp) {
        active' := active[r.cpu := frames[..|frames| - 1]];
        matched' := matched + 1;
      }
    }
  }

  lemma RunHead(names: Names, kept: Option<set<nat>>, s: State, item: Item, rest: seq<Item>)
    ensures Run(names, kept, s, [item] + rest) == Run(names, kept, Step(names, kept, s, item), rest)
  {
    hide Step;
    assert ([item] + rest)[1..] == rest;
  }

  /** The head of what is left of the two streams. */
  lemma NextItem(names: Names, kept: Option<set<nat>>, s: State, es: seq<Entry>, rs: seq<Return>, i: nat, j: nat)
    requires i <= |es| && j <= |rs| && (i < |es| || j < |rs|)
    ensures Run(names, kept, s, Merge(es[i..], rs[j..]))
            == if j == |rs| || (i < |es| && es[i].insn <= rs[j].insn)
               then Run(names, kept, Step(names, kept, s, E(es[i])), Merge(es[i + 1..], rs[j..]))
               else Run(names, kept, Step(names, kept, s, R(rs[j])), Merge(es[i..], rs[j + 1..]))
  {
    hide Step;
    hide Run;
    hide Merge;
    MergeHeads(es[i..], rs[j..]);
    if j == |rs| || (i < |es| && es[i].insn <= rs[j].insn) {
      assert es[i..][1..] == es[i + 1..];
      RunHead(names, kept, s, E(es[i]), Merge(es[i + 1..], rs[j..]));
    } else {
      assert rs[j..][1..] == rs[j + 1..];
      RunHead(names, kept, s, R(rs[j]), Merge(es[i..], rs[j + 1..]));
    }
  }

  lemma RunDone(names: Names, kept: Option<set<nat>>, s: State)
    ensures Run(names, kept, s, Merge([], [])) == s
  {
  }

  lemma BuiltState(names: Names, raw: bool, s: State, active: map<nat, seq<Entry>>,
                   paths: map<nat, seq<string>>, framePcs: map<nat, seq<nat>>, matched: nat, nested: nat)
    requires Built(names, raw, s, active, paths, framePcs, matched, nested)
    ensures AllOk(names, s) && matched == |s.pops| && nested == s.nested
    ensures paths == Paths(names, raw, s.reports) && framePcs == FramePcs(s.reports)
  {
  }

  /** observed_stacks: merge the two streams and build the paths, call-site addresses and counts. */
  method ObservedStacks(names: Names, kept: Option<set<nat>>, events: seq<Entry>, rets: seq<Return>, raw: bool)
    returns (paths: map<nat, seq<string>>, framePcs: map<nat, seq<nat>>, matched: nat, nested: nat)
    ensures var s := Observed(names, kept, events, rets);
            && AllOk(names, s)
            && paths == Paths(names, raw, s.reports)
            && framePcs == FramePcs(s.reports)
            && matched == |s.pops| && nested == s.nested
  {
    hide AllOk;
    hide Step;
    hide Run;
    hide Merge;
    hide RelevantOf;
    hide Built;
    hide Paths;
    hide FramePcs;
    paths, framePcs, matched, nested := map[], map[], 0, 0;
    BuiltStart(names, raw);
    if rets == [] {
      BuiltState(names, raw, START, map[], paths, framePcs, matched, nested);
      return;
    }
    var es := RelevantOf(events);
    var active: map<nat, seq<Entry>> := map[];
    var callers: map<nat, Option<string>> := map[];
    ghost var s := START;
    var i, j := 0, 0;
    assert es[0..] == es && rets[0..] == rets;
    while i < |es| || j < |rets|
      invariant 0 <= i <= |es| && 0 <= j <= |rets|
      invariant forall a :: a in callers ==> callers[a] == names.resolve(a)
      invariant Built(names, raw, s, active, paths, framePcs, matched, nested)
      invariant Run(names, kept, s, Merge(es[i..], rets[j..])) == Run(names, kept, START, Merge(es, rets))
      decreases |es| - i + |rets| - j
    {
      NextItem(names, kept, s, es, rets, i, j);
      if j == |rets| || (i < |es| && es[i].insn <= rets[j].insn) {
        active, callers, paths, framePcs, nested :=
          TakeEntry(names, kept, raw, es[i], s, active, callers, paths, framePcs, matched, nested);
        s, i := Step(names, kept, s, E(es[i])), i + 1;
      } else {
        active, matched := TakeReturn(names, kept, raw, rets[j], s, active, paths, framePcs, matched, nested);
        s, j := Step(names, kept, s, R(rets[j])), j + 1;
      }
    }
    assert es[i..] == [] && rets[j..] == [];
    RunDone(names, kept, s);
    BuiltState(names, raw, s, active, paths, framePcs, matched, nested);
  }

  lemma BuiltStart(names: Names, raw: bool)
    ensures Built(names, raw, START, map[], map[], map[], 0, 0)
  {
  }
}
