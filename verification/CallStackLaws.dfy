/** What a reported call chain says of the merged stream, event by event, and what cuts a chain. */
module CallStackLaws {
  import opened Wrappers
  import opened CallStack

  // ------------------------------------------------------------------ in the stream's own terms

  /** A function entry whose return address, stack pointer and address space were all recorded. */
  predicate HasFrame(e: Entry) {
    e.functionEntry && e.returnAddress.Some? && e.stackPointer.Some? && e.addressSpace.Some?
  }

  /** A return with registers and CSRs (flag bits 0 and 1 clear) that goes where the entry was called from, in
      the same address space and with the same stack pointer. */
  predicate Fits(e: Entry, r: Return) {
    && r.flags % 4 == 0
    && e.returnAddress == Some(r.target) && e.stackPointer == Some(r.sp) && e.addressSpace == Some(r.satp)
  }

  /** The entry returns into the function of the parent, by its raw or its displayed name, in the same address
      space, and its stack pointer is not above the parent's. */
  predicate Calls(names: Names, parent: Entry, e: Entry) {
    && e.returnAddress.Some? && names.resolve(e.returnAddress.value).Some?
    && parent.entryName.Some?
    && parent.entryName.value in {names.resolve(e.returnAddress.value).value,
                                  names.display(names.resolve(e.returnAddress.value).value)}
    && parent.addressSpace == e.addressSpace
    && parent.stackPointer.Some? && e.stackPointer.Some? && e.stackPointer.value <= parent.stackPointer.value
  }

  ghost predicate Increasing(ix: seq<nat>, n: nat) {
    && (forall k :: 0 <= k < |ix| ==> ix[k] < n)
    && (forall j, k :: 0 <= j < k < |ix| ==> ix[j] < ix[k])
  }

  /** A return that fits the entry at `j` comes on its CPU before `n`. */
  ghost predicate Closed(items: seq<Item>, cpu: nat, j: nat, n: nat)
    requires j < n <= |items| && items[j].E?
  {
    exists m :: j < m < n && items[m].R? && items[m].ret.cpu == cpu && Fits(items[j].entry, items[m].ret)
  }

  /** The events of the CPU from the outermost frame on, up to `n`, are entries with a frame; each is in the
      chain or has had its return. */
  ghost predicate Unbroken(items: seq<Item>, cpu: nat, ix: seq<nat>, n: nat)
    requires n <= |items|
  {
    ix != [] ==>
      forall j :: ix[0] <= j < n && items[j].E? && items[j].entry.cpu == cpu ==>
        HasFrame(items[j].entry) && (j in ix || Closed(items, cpu, j, n))
  }

  /** The frames are entries of the CPU at these places of the stream, each called by the one before it, with
      nothing between them that breaks the chain; and there are at most 64. */
  ghost predicate Chained(names: Names, items: seq<Item>, cpu: nat, frames: seq<Entry>, ix: seq<nat>, n: nat) {
    && n <= |items| && |ix| == |frames| <= 64
    && Increasing(ix, n)
    && (forall k :: 0 <= k < |ix| ==> items[ix[k]] == E(frames[k]) && frames[k].cpu == cpu)
    && (forall k :: 0 < k < |frames| ==> Calls(names, frames[k - 1], frames[k]))
    && Unbroken(items, cpu, ix, n)
  }

  ghost predicate Open(names: Names, items: seq<Item>, cpu: nat, frames: seq<Entry>) {
    exists ix :: Chained(names, items, cpu, frames, ix, |items|)
  }

  /** The chain reported for an entry: it ends with that entry, at its place. */
  ghost predicate Reported(names: Names, items: seq<Item>, r: Report) {
    exists n, ix ::
      && 0 <= n < |items| && items[n] == E(r.entry)
      && Chained(names, items, r.entry.cpu, r.frames, ix, n + 1) && ix != [] && ix[|ix| - 1] == n
  }

  ghost predicate Told(names: Names, items: seq<Item>, s: State) {
    && (forall cpu: nat :: Open(names, items, cpu, s.Frames(cpu)))
    && (forall r :: r in s.reports ==> Reported(names, items, r))
  }

  // ------------------------------------------------------------------ one event more

  lemma SameCalls(names: Names, parent: Entry, e: Entry)
    requires e.Framed()
    ensures HasFrame(e) && (CalledFrom(names, parent, e) <==> Calls(names, parent, e))
  {
  }

  lemma TwoBits(f: nat)
    ensures f % 4 == 0 <==> f / 1 % 2 == 0 && f / 2 % 2 == 0
  {
    var q, r := f / 4, f % 4;
    assert f == 2 * (2 * q) + r;
    assert f / 2 == 2 * q + r / 2;
  }

  lemma SameFits(frames: seq<Entry>, r: Return)
    ensures Matches(frames, r) <==> frames != [] && Fits(frames[|frames| - 1], r)
  {
    TwoBits(r.flags);
  }

  /** A chain found in the stream is there in a longer one. */
  lemma ChainedLonger(names: Names, items: seq<Item>, more: seq<Item>, cpu: nat, frames: seq<Entry>, ix: seq<nat>,
                      n: nat)
    requires Chained(names, items, cpu, frames, ix, n)
    ensures Chained(names, items + more, cpu, frames, ix, n)
  {
    hide Calls;
    hide HasFrame;
    hide Fits;
    var all := items + more;
    assert forall j :: 0 <= j < n ==> all[j] == items[j];
    forall j | ix != [] && ix[0] <= j < n && all[j].E? && all[j].entry.cpu == cpu && j !in ix
      ensures Closed(all, cpu, j, n)
    {
      assert Closed(items, cpu, j, n);
      var m :| j < m < n && items[m].R? && items[m].ret.cpu == cpu && Fits(items[j].entry, items[m].ret);
      assert all[m] == items[m];
    }
  }

  /** An event that is no entry of the CPU: the chain stays. */
  lemma ChainedPast(names: Names, items: seq<Item>, cpu: nat, frames: seq<Entry>, ix: seq<nat>, n: nat)
    requires Chained(names, items, cpu, frames, ix, n) && n < |items|
    requires items[n].E? ==> items[n].entry.cpu != cpu
    ensures Chained(names, items, cpu, frames, ix, n + 1)
  {
    hide Calls;
    hide HasFrame;
    hide Fits;
    assert forall j :: 0 <= j < n && items[j].E? && Closed(items, cpu, j, n) ==> Closed(items, cpu, j, n + 1);
  }

  lemma ClosedLater(items: seq<Item>, cpu: nat, j: nat, n: nat)
    requires j < n < |items| && items[j].E? && Closed(items, cpu, j, n)
    ensures Closed(items, cpu, j, n + 1)
  {
    hide Fits;
    var m :| j < m < n && items[m].R? && items[m].ret.cpu == cpu && Fits(items[j].entry, items[m].ret);
  }

  /** A return that fits the innermost frame closes it. */
  lemma UnbrokenReturn(items: seq<Item>, cpu: nat, less: seq<nat>, last: nat, n: nat)
    requires Increasing(less + [last], n) && last < n < |items| && Unbroken(items, cpu, less + [last], n)
    requires items[last].E? && items[n].R? && items[n].ret.cpu == cpu && Fits(items[last].entry, items[n].ret)
    ensures Unbroken(items, cpu, less, n + 1)
  {
    hide HasFrame;
    hide Fits;
    hide Closed;
    if less != [] {
      assert (less + [last])[0] == less[0];
      forall j | less[0] <= j < n + 1 && items[j].E? && items[j].entry.cpu == cpu
        ensures HasFrame(items[j].entry) && (j in less || Closed(items, cpu, j, n + 1))
      {
        if j == last {
          ClosedBy(items, cpu, j, n);
        } else if j !in less {
          ClosedLater(items, cpu, j, n);
        }
      }
    }
  }

  lemma ClosedBy(items: seq<Item>, cpu: nat, j: nat, n: nat)
    requires j < n < |items| && items[j].E? && items[n].R? && items[n].ret.cpu == cpu
    requires Fits(items[j].entry, items[n].ret)
    ensures Closed(items, cpu, j, n + 1)
  {
  }

  lemma ChainedReturn(names: Names, items: seq<Item>, cpu: nat, frames: seq<Entry>, ix: seq<nat>, n: nat)
    requires Chained(names, items, cpu, frames, ix, n) && n < |items| && frames != []
    requires items[n].R? && items[n].ret.cpu == cpu && Fits(frames[|frames| - 1], items[n].ret)
    ensures Chained(names, items, cpu, frames[..|frames| - 1], ix[..|ix| - 1], n + 1)
  {
    hide Calls;
    hide Fits;
    hide Unbroken;
    var less, last := ix[..|ix| - 1], ix[|ix| - 1];
    assert ix == less + [last];
    UnbrokenReturn(items, cpu, less, last, n);
  }

  lemma ChainedNothing(names: Names, items: seq<Item>, cpu: nat, n: nat)
    requires n <= |items|
    ensures Chained(names, items, cpu, [], [], n)
  {
  }

  lemma ChainedAlone(names: Names, items: seq<Item>, n: nat)
    requires n < |items| && items[n].E? && HasFrame(items[n].entry)
    ensures Chained(names, items, items[n].entry.cpu, [items[n].entry], [n], n + 1)
  {
  }

  lemma ChainedEntry(names: Names, items: seq<Item>, cpu: nat, frames: seq<Entry>, ix: seq<nat>, n: nat)
    requires Chained(names, items, cpu, frames, ix, n) && n < |items| && frames != [] && |frames| < 64
    requires items[n].E? && items[n].entry.cpu == cpu && HasFrame(items[n].entry)
    requires Calls(names, frames[|frames| - 1], items[n].entry)
    ensures Chained(names, items, cpu, frames + [items[n].entry], ix + [n], n + 1)
  {
    hide Calls;
    hide HasFrame;
    hide Fits;
    hide Unbroken;
    UnbrokenEntry(items, cpu, ix, n);
    assert Increasing(ix + [n], n + 1);
  }

  lemma UnbrokenEntry(items: seq<Item>, cpu: nat, ix: seq<nat>, n: nat)
    requires ix != [] && n < |items| && Unbroken(items, cpu, ix, n)
    requires items[n].E? && HasFrame(items[n].entry)
    ensures Unbroken(items, cpu, ix + [n], n + 1)
  {
    hide HasFrame;
    hide Closed;
    var longer := ix + [n];
    assert longer[0] == ix[0] && longer[|ix|] == n;
    forall j | longer[0] <= j < n + 1 && items[j].E? && items[j].entry.cpu == cpu
      ensures HasFrame(items[j].entry) && (j in longer || Closed(items, cpu, j, n + 1))
    {
      if j < n && j !in ix {
        ClosedLater(items, cpu, j, n);
      }
    }
  }

  /** The frames of a CPU after one event more. */
  lemma OpenNext(names: Names, kept: Option<set<nat>>, items: seq<Item>, s: State, x: Item, cpu: nat)
    requires Open(names, items, cpu, s.Frames(cpu))
    ensures Open(names, items + [x], cpu, Step(names, kept, s, x).Frames(cpu))
  {
    hide CalledFrom;
    hide Chained;
    var frames, n, all := s.Frames(cpu), |items|, items + [x];
    var ix :| Chained(names, items, cpu, frames, ix, n);
    ChainedLonger(names, items, [x], cpu, frames, ix, n);
    SameLength(names, all, cpu, frames, ix, n);
    assert all[n] == x;
    if x.Cpu() != cpu {
      ChainedPast(names, all, cpu, frames, ix, n);
    } else if x.R? {
      SameFits(frames, x.ret);
      if Matches(frames, x.ret) {
        ChainedReturn(names, all, cpu, frames, ix, n);
      } else {
        ChainedPast(names, all, cpu, frames, ix, n);
      }
    } else if !x.entry.Framed() {
      ChainedNothing(names, all, cpu, n + 1);
    } else {
      ChainedAlone(names, all, n);
      if frames != [] {
        SameCalls(names, frames[|frames| - 1], x.entry);
        if Calls(names, frames[|frames| - 1], x.entry) && |frames| < 64 {
          ChainedEntry(names, all, cpu, frames, ix, n);
        }
      }
    }
  }

  lemma SameLength(names: Names, items: seq<Item>, cpu: nat, frames: seq<Entry>, ix: seq<nat>, n: nat)
    requires Chained(names, items, cpu, frames, ix, n)
    ensures |ix| == |frames|
  {
  }

  lemma ReportedLonger(names: Names, items: seq<Item>, more: seq<Item>, r: Report)
    requires Reported(names, items, r)
    ensures Reported(names, items + more, r)
  {
    hide Chained;
    var n, ix :|
      && 0 <= n < |items| && items[n] == E(r.entry)
      && Chained(names, items, r.entry.cpu, r.frames, ix, n + 1) && ix != [] && ix[|ix| - 1] == n;
    ChainedLonger(names, items, more, r.entry.cpu, r.frames, ix, n + 1);
    assert (items + more)[n] == E(r.entry);
  }

  lemma ReportedBy(names: Names, items: seq<Item>, r: Report, n: nat, ix: seq<nat>)
    requires n < |items| && items[n] == E(r.entry)
    requires Chained(names, items, r.entry.cpu, r.frames, ix, n + 1) && ix != [] && ix[|ix| - 1] == n
    ensures Reported(names, items, r)
  {
  }

  /** The chain that an entry closes is told of. */
  lemma ReportedNext(names: Names, items: seq<Item>, e: Entry, frames: seq<Entry>)
    requires HasFrame(e) && Open(names, items, e.cpu, frames)
    ensures Reported(names, items + [E(e)], Report(e, Push(names, frames, e)))
  {
    hide CalledFrom;
    hide Chained;
    var n, all, cpu := |items|, items + [E(e)], e.cpu;
    var ix :| Chained(names, items, cpu, frames, ix, n);
    ChainedLonger(names, items, [E(e)], cpu, frames, ix, n);
    SameLength(names, all, cpu, frames, ix, n);
    assert all[n] == E(e);
    ChainedAlone(names, all, n);
    if frames != [] && Calls(names, frames[|frames| - 1], e) && |frames| < 64 {
      SameCalls(names, frames[|frames| - 1], e);
      ChainedEntry(names, all, cpu, frames, ix, n);
      ReportedBy(names, all, Report(e, frames + [e]), n, ix + [n]);
    } else {
      ReportedBy(names, all, Report(e, [e]), n, [n]);
      if frames != [] {
        SameCalls(names, frames[|frames| - 1], e);
      }
    }
  }

  lemma ToldNext(names: Names, kept: Option<set<nat>>, items: seq<Item>, s: State, x: Item)
    requires Told(names, items, s)
    ensures Told(names, items + [x], Step(names, kept, s, x))
  {
    hide Open;
    hide Reported;
    hide Push;
    hide Matches;
    var t := Step(names, kept, s, x);
    forall cpu: nat
      ensures Open(names, items + [x], cpu, t.Frames(cpu))
    {
      OpenNext(names, kept, items, s, x, cpu);
    }
    forall r | r in t.reports
      ensures Reported(names, items + [x], r)
    {
      if r in s.reports {
        ReportedLonger(names, items, [x], r);
      } else {
        ReportedNext(names, items, x.entry, s.Frames(x.entry.cpu));
      }
    }
  }

  /** Whatever the stream, the chain reported for an entry consists of entries of its CPU, in order, each called
      by the one before it; between the outermost of them and the entry itself the CPU has no trap, no switch
      and no entry without a frame, and every other entry there has had its return. */
  lemma {:induction false} ChainsAreTold(names: Names, kept: Option<set<nat>>, items: seq<Item>)
    ensures Told(names, items, Run(names, kept, START, items))
    decreases |items|
  {
    hide Chained;
    hide Step;
    hide Run;
    if items == [] {
      RunNothing(names, kept);
      assert forall cpu: nat :: START.Frames(cpu) == [];
      forall cpu: nat
        ensures Open(names, items, cpu, [])
      {
        ChainedNothing(names, items, cpu, 0);
      }
    } else {
      var before, x := items[..|items| - 1], items[|items| - 1];
      assert items == before + [x];
      ChainsAreTold(names, kept, before);
      RunAppend(names, kept, START, before, [x]);
      RunOne(names, kept, Run(names, kept, START, before), x);
      ToldNext(names, kept, before, Run(names, kept, START, before), x);
    }
  }

  lemma RunNothing(names: Names, kept: Option<set<nat>>)
    ensures Run(names, kept, START, []) == START
  {
  }

  // ------------------------------------------------------------------ what is on the stack, and what is cut

  /** Everything about a state but the frames of one CPU. */
  ghost predicate SameBut(s: State, t: State, cpu: nat) {
    forall other: nat :: other != cpu ==> t.Frames(other) == s.Frames(other)
  }

  /** An entry with a frame goes on the stack of its CPU if the innermost frame there called it and fewer than
      64 are there; else it is alone. It is reported with the stack if it is asked for. */
  lemma EntryLaw(names: Names, kept: Option<set<nat>>, items: seq<Item>, e: Entry)
    requires HasFrame(e)
    ensures var s, t := Run(names, kept, START, items), Run(names, kept, START, items + [E(e)]);
            var frames := s.Frames(e.cpu);
            var joined := frames != [] && |frames| < 64 && Calls(names, frames[|frames| - 1], e);
            && t.Frames(e.cpu) == (if joined then frames + [e] else [e])
            && SameBut(s, t, e.cpu) && t.pops == s.pops
            && t.nested == s.nested + (if joined then 1 else 0)
            && t.reports == s.reports + if kept.None? || e.id in kept.value then [Report(e, t.Frames(e.cpu))] else []
  {
    hide Run;
    hide CalledFrom;
    var s := Run(names, kept, START, items);
    RunAppend(names, kept, START, items, [E(e)]);
    RunOne(names, kept, s, E(e));
    var frames := s.Frames(e.cpu);
    if frames != [] {
      SameCalls(names, frames[|frames| - 1], e);
    }
  }

  /** A trap, a switch, or an entry without a frame empties the stack of its CPU. */
  lemma BreakLaw(names: Names, kept: Option<set<nat>>, items: seq<Item>, e: Entry)
    requires !HasFrame(e)
    ensures var s, t := Run(names, kept, START, items), Run(names, kept, START, items + [E(e)]);
            t.Frames(e.cpu) == [] && SameBut(s, t, e.cpu)
            && t.pops == s.pops && t.reports == s.reports && t.nested == s.nested
  {
    hide Run;
    RunAppend(names, kept, START, items, [E(e)]);
    RunOne(names, kept, Run(names, kept, START, items), E(e));
  }

  /** A return takes the innermost frame of its CPU away if it fits it; else it changes nothing. */
  lemma ReturnLaw(names: Names, kept: Option<set<nat>>, items: seq<Item>, r: Return)
    ensures var s, t := Run(names, kept, START, items), Run(names, kept, START, items + [R(r)]);
            var frames := s.Frames(r.cpu);
            var fits := frames != [] && Fits(frames[|frames| - 1], r);
            && t.Frames(r.cpu) == (if fits then frames[..|frames| - 1] else frames) && SameBut(s, t, r.cpu)
            && t.pops == s.pops + (if fits then [Pop(r, frames[|frames| - 1])] else [])
            && t.reports == s.reports && t.nested == s.nested
  {
    hide Run;
    hide Fits;
    hide Matches;
    var s := Run(names, kept, START, items);
    RunAppend(names, kept, START, items, [R(r)]);
    RunOne(names, kept, s, R(r));
    SameFits(s.Frames(r.cpu), r);
    assert s.pops + [] == s.pops;
  }

  /** After a break a CPU's stack stays empty until its next entry with a frame. */
  lemma {:induction false} StaysEmpty(names: Names, kept: Option<set<nat>>, items: seq<Item>, between: seq<Item>,
                                      cpu: nat)
    requires Run(names, kept, START, items).Frames(cpu) == []
    requires forall k :: 0 <= k < |between| && between[k].E? && between[k].entry.cpu == cpu ==>
               !HasFrame(between[k].entry)
    ensures Run(names, kept, START, items + between).Frames(cpu) == []
    decreases |between|
  {
    hide Run;
    hide Fits;
    hide HasFrame;
    if between == [] {
      assert items + between == items;
    } else {
      var n := |between| - 1;
      var x := between[n];
      assert items + between == items + between[..n] + [x];
      StaysEmpty(names, kept, items, between[..n], cpu);
      if x.R? {
        ReturnLaw(names, kept, items + between[..n], x.ret);
      } else if HasFrame(x.entry) {
        EntryLaw(names, kept, items + between[..n], x.entry);
      } else {
        BreakLaw(names, kept, items + between[..n], x.entry);
      }
    }
  }

  /** The first entry with a frame after a trap, a switch, or an entry without a frame is reported alone. */
  lemma BreakStartsOver(names: Names, kept: Option<set<nat>>, before: seq<Item>, x: Entry, between: seq<Item>, e: Entry)
    requires !HasFrame(x) && HasFrame(e) && x.cpu == e.cpu
    requires forall k :: 0 <= k < |between| && between[k].E? && between[k].entry.cpu == e.cpu ==>
               !HasFrame(between[k].entry)
    ensures var items := before + [E(x)] + between;
            Run(names, kept, START, items + [E(e)]).reports
            == Run(names, kept, START, items).reports
               + if kept.None? || e.id in kept.value then [Report(e, [e])] else []
  {
    hide Run;
    hide HasFrame;
    BreakLaw(names, kept, before, x);
    StaysEmpty(names, kept, before + [E(x)], between, e.cpu);
    EntryLaw(names, kept, before + [E(x)] + between, e);
  }

  // ------------------------------------------------------------------ what is looked at, and what is shown

  /** Of the events, the function entries, the scheduler's switches, and the traps, interrupts and firmware calls
      go into the stream, in their order. */
  lemma RelevantKinds(events: seq<Entry>, e: Entry)
    ensures var k := e.kind;
            RelevantOf(events + [e]) == RelevantOf(events) +
              if || e.functionEntry || k == "sched.switch" || (|k| >= 5 && k[..5] == "trap.")
                 || (|k| >= 10 && k[..10] == "interrupt.") || (|k| >= 9 && k[..9] == "firmware.")
              then [e] else []
  {
    KeepAll(events, [e]);
    assert RelevantOf([e]) == if e.Relevant() then [e] else [];
  }

  /** A frame is shown by the first of its entry name, its function and its kind that is there and not empty. */
  predicate ShownAs(e: Entry, name: string) {
    if e.entryName.Some? && |e.entryName.value| > 0 then name == e.entryName.value
    else if e.func.Some? && |e.func.value| > 0 then name == e.func.value
    else name == e.kind
  }

  /** The path of a chain names its frames in order; all but the innermost stand one byte before the return
      address of the next, that one at its entry. */
  lemma {:induction false} FrameShown(names: Names, raw: bool, frames: seq<Entry>, k: nat)
    requires k < |frames| && (k + 1 < |frames| ==> frames[k + 1].returnAddress.Some?)
    ensures exists name :: ShownAs(frames[k], name)
                           && PathOf(names, raw, frames)[k] == if raw then name else names.display(name)
    ensures k + 1 < |frames| ==>
              var ra := frames[k + 1].returnAddress.value;
              PcsOf(frames)[k] == if ra == 0 then 0 else ra - 1
    ensures k + 1 == |frames| ==> PcsOf(frames)[k] == if frames[k].pc.Some? then frames[k].pc.value else 0
  {
    if k == 0 {
      assert ShownAs(frames[0], RawName(frames[0]));
    } else {
      FrameShown(names, raw, frames[1..], k - 1);
    }
  }

  /** The last report of an id, if there is one. */
  ghost predicate LastOf(reports: seq<Report>, id: nat, k: nat) {
    && k < |reports| && reports[k].entry.id == id
    && forall j :: k < j < |reports| ==> reports[j].entry.id != id
  }

  lemma LastOfNext(less: seq<Report>, r: Report, id: nat, k: nat)
    ensures LastOf(less + [r], id, k) <==> if r.entry.id == id then k == |less| else LastOf(less, id, k)
  {
    var reports := less + [r];
    if k == |less| {
      assert reports[k] == r;
    } else if k < |less| {
      assert reports[k] == less[k] && reports[|less|] == r;
      assert forall j :: k < j < |less| ==> reports[j] == less[j];
    }
  }

  /** The dictionaries have an id exactly if it was reported, and then what its last report shows. */
  lemma {:induction false} DictionariesSay(names: Names, raw: bool, reports: seq<Report>, id: nat)
    ensures id in Paths(names, raw, reports) <==> exists k: nat :: LastOf(reports, id, k)
    ensures id in FramePcs(reports) <==> exists k: nat :: LastOf(reports, id, k)
    ensures forall k: nat :: LastOf(reports, id, k) ==>
              && Paths(names, raw, reports)[id] == PathOf(names, raw, reports[k].frames)
              && FramePcs(reports)[id] == PcsOf(reports[k].frames)
  {
    hide PathOf;
    hide PcsOf;
    if reports != [] {
      var n := |reports| - 1;
      var less := reports[..n];
      DictionariesSay(names, raw, less, id);
      hide LastOf;
      forall k: nat
        ensures LastOf(reports, id, k) <==> if reports[n].entry.id == id then k == n else LastOf(less, id, k)
      {
        LastOfNext(less, reports[n], id, k);
        assert less + [reports[n]] == reports;
      }
      assert reports[n].entry.id == id ==> LastOf(reports, id, n);
    }
  }

  /** How many entries were nested: of all that have a frame, those whose chain has another one. */
  function Nested(reports: seq<Report>): nat {
    if reports == [] then 0
    else Nested(reports[..|reports| - 1]) + if |reports[|reports| - 1].frames| >= 2 then 1 else 0
  }

  lemma NestedNext(reports: seq<Report>, r: Report)
    ensures Nested(reports + [r]) == Nested(reports) + if |r.frames| >= 2 then 1 else 0
  {
    assert (reports + [r])[..|reports|] == reports;
  }

  lemma {:induction false} NestedCounted(names: Names, items: seq<Item>)
    ensures var s := Run(names, None, START, items); s.nested == Nested(s.reports)
    decreases |items|
  {
    hide Run;
    hide HasFrame;
    hide Calls;
    hide Fits;
    if items == [] {
      RunNothing(names, None);
    } else {
      var before, x := items[..|items| - 1], items[|items| - 1];
      assert items == before + [x];
      NestedCounted(names, before);
      hide Nested;
      hide SameBut;
      var s, t := Run(names, None, START, before), Run(names, None, START, items);
      if x.R? {
        ReturnLaw(names, None, before, x.ret);
      } else if HasFrame(x.entry) {
        EntryLaw(names, None, before, x.entry);
        NestedNext(s.reports, Report(x.entry, t.Frames(x.entry.cpu)));
      } else {
        BreakLaw(names, None, before, x.entry);
      }
    }
  }
}
