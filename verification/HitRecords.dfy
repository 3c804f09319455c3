/** The records of watch hits: what the throttle lets through, under any interleaving of the vCPUs, is what
    the log holds, as long as the output is open. */
module HitRecords {
  import opened Wrappers
  import opened LittleEndian
  import opened TraceFile
  import opened HostReplay
  import opened Recorder
  import opened RecorderLaws
  import opened Recording
  import A = Arithmetic
  import T = WatchThrottle

  /** A WATCHPC record starts with the number of its watch. */
  predicate IsHitOf(r: Rec, wid: nat) {
    r.rtype == WATCHPC && |r.payload| >= 4 && Unpack(r.payload[..4]) == wid
  }

  /** The hits of a watch in a log. */
  function Watched(log: seq<Rec>, wid: nat): nat {
    if log == [] then 0 else Watched(log[..|log| - 1], wid) + One(IsHitOf(log[|log| - 1], wid))
  }

  lemma WatchedNext(log: seq<Rec>, r: Rec, wid: nat)
    ensures Watched(log + [r], wid) == Watched(log, wid) + One(IsHitOf(r, wid))
  {
    assert (log + [r])[..|log|] == log;
  }

  ghost predicate NoHits(more: seq<Rec>) {
    forall r :: r in more ==> r.rtype != WATCHPC
  }

  lemma LastIsNoHit(more: seq<Rec>, wid: nat)
    requires NoHits(more) && more != []
    ensures NoHits(more[..|more| - 1]) && !IsHitOf(more[|more| - 1], wid)
  {
  }

  lemma {:induction false} WatchedAside(log: seq<Rec>, more: seq<Rec>, wid: nat)
    requires NoHits(more)
    ensures Watched(log + more, wid) == Watched(log, wid)
  {
    hide NoHits;
    hide Watched;
    hide IsHitOf;
    if more == [] {
      assert log + more == log;
    } else {
      var n := |more| - 1;
      LastIsNoHit(more, wid);
      WatchedAside(log, more[..n], wid);
      WatchedNext(log + more[..n], more[n], wid);
      assert log + more == log + more[..n] + [more[n]];
    }
  }

  lemma {:induction false} PagesAreNoHits(c: Setup, have: Holding, g: Guest, vcpu: nat, insn: nat, upTo: nat)
    ensures NoHits(PageRecs(c, have, g, vcpu, insn, upTo))
  {
    hide Packed;
    hide Differs;
    if upTo > 0 {
      PagesAreNoHits(c, have, g, vcpu, insn, upTo - 1);
    }
  }

  lemma {:induction false} NotesAreNoHits(n: nat)
    ensures NoHits(Notes(n))
  {
    if n > 0 {
      NotesAreNoHits(n - 1);
    }
  }

  lemma MarkAndWarnings(c: Setup, s: State, vcpu: nat, insn: nat, g: Guest, upTo: nat, seekOk: bool)
    ensures NoHits([Mark(c, s, vcpu, insn, g, upTo, seekOk)])
    ensures NoHits(Warnings(insn, upTo < |s.have|, !NoneUnreadable(g, 0, upTo)))
  {
    hide PackFields;
    hide PageRecs;
    hide NoneUnreadable;
  }

  lemma NoHitsTogether(a: seq<Rec>, b: seq<Rec>, c: seq<Rec>)
    requires NoHits(a) && NoHits(b) && NoHits(c)
    ensures NoHits(a + b + c)
  {
  }

  lemma SnapshotNoHits(c: Setup, s: State, vcpu: nat, insn: nat, g: Guest, seekOk: bool, wid: nat)
    ensures var t := AfterSnapshot(c, s, vcpu, insn, g, seekOk);
            Watched(t.log, wid) == Watched(s.log, wid) && t.watchDrops == s.watchDrops
  {
    hide Reach;
    hide Held;
    hide Total;
    hide PageRecs;
    hide Mark;
    hide Warnings;
    hide NoHits;
    hide Watched;
    if s.live {
      var upTo := Reach(c, s.have, g, s.ramBytes);
      var mark := Mark(c, s, vcpu, insn, g, upTo, seekOk);
      var pages := PageRecs(c, s.have, g, vcpu, insn, upTo);
      var notes := Warnings(insn, upTo < |s.have|, !NoneUnreadable(g, 0, upTo));
      MarkAndWarnings(c, s, vcpu, insn, g, upTo, seekOk);
      PagesAreNoHits(c, s.have, g, vcpu, insn, upTo);
      NoHitsTogether([mark], pages, notes);
      WatchedAside(s.log, [mark] + pages + notes, wid);
      assert s.log + [mark] + pages + notes == s.log + ([mark] + pages + notes);
    }
  }

  lemma FinishNoHits(s: State, total: nat, wid: nat)
    ensures Watched(AfterFinish(s, total).log, wid) == Watched(s.log, wid)
  {
    hide Notes;
    hide PackFields;
    NotesAreNoHits(4);
    var end := EndRec(total, s.counts, s.ramBytes, s.truncated, s.watchDrops);
    WatchedAside(s.log, Notes(4) + [end], wid);
    assert s.log + Notes(4) + [end] == s.log + (Notes(4) + [end]);
  }

  predicate HitOfWatch(cb: Callback, wid: nat) {
    cb.Hit? && |cb.hit| >= 4 && Unpack(cb.hit[..4]) == wid
  }

  lemma RecordWatched(s: State, r: Rec, wid: nat)
    ensures var t := AfterRecord(s, r);
            && Watched(t.log, wid) == Watched(s.log, wid) + One(s.outOpen && IsHitOf(r, wid))
            && t.watchDrops == s.watchDrops && t.outOpen == s.outOpen && t.events == s.events
  {
    hide Recorder.Counted;
    hide IsHitOf;
    WatchedNext(s.log, r, wid);
    hide Watched;
  }

  lemma HitWatched(c: Setup, s: State, cb: Callback, wid: nat)
    requires cb.Hit?
    ensures var t := After(c, s, cb);
            && Watched(t.log, wid) == Watched(s.log, wid) + One(s.outOpen && HitOfWatch(cb, wid))
            && t.watchDrops == s.watchDrops
  {
    hide AfterSnapshot;
    hide AfterRecord;
    hide Shoots;
    hide Watched;
    hide Unpack;
    var r1 := Rec(WATCHPC, cb.vcpu % 256, cb.flags, cb.insn, cb.hit);
    var s1 := AfterRecord(s, r1);
    RecordWatched(s, r1, wid);
    var s2 := s1;
    if cb.nftrace.Some? {
      var r2 := Rec(NFTRACE, cb.vcpu % 256, 0, cb.insn, cb.nftrace.value);
      s2 := AfterRecord(s1, r2);
      RecordWatched(s1, r2, wid);
    }
    var s3 := if cb.throttle then s2.(events := Scheduler.EventThrottle(s.events.taken + 1, cb.insn)) else s2;
    SnapshotNoHits(c, s3, cb.vcpu, cb.insn, cb.g, cb.seekOk, wid);
  }

  lemma LockedWatched(c: Setup, s: State, cb: Callback, wid: nat)
    requires cb.LockedBlock?
    ensures var t := After(c, s, cb);
            Watched(t.log, wid) == Watched(s.log, wid) && t.watchDrops == s.watchDrops
  {
    hide Watched;
    hide AfterSnapshot;
    var tick := Scheduler.LockedCheck(c.config, s.timer, cb.insn);
    hide Scheduler.LockedCheck;
    var r := Rec(SAMPLE, cb.vcpu % 256, cb.flags, cb.insn, cb.sample);
    WatchedNext(s.log, r, wid);
    var s1 := if tick.sampled then AfterRecord(s, r) else s;
    SnapshotNoHits(c, s1.(timer := tick.timer), cb.vcpu, cb.insn, cb.g, cb.seekOk, wid);
  }

  lemma ExitWatched(c: Setup, s: State, cb: Callback, wid: nat)
    requires cb.VcpuExit?
    ensures var t := After(c, s, cb);
            Watched(t.log, wid) == Watched(s.log, wid) && t.watchDrops == s.watchDrops
  {
    hide Watched;
    hide AfterSnapshot;
    SnapshotNoHits(c, s.(finalSnapDone := true), cb.vcpu, cb.insn, cb.g, cb.seekOk, wid);
    var s1 := if c.config.snapEvery != 0 && !s.finalSnapDone
              then AfterSnapshot(c, s.(finalSnapDone := true), cb.vcpu, cb.insn, cb.g, cb.seekOk) else s;
    WatchedNext(s1.log, Rec(VCPU, cb.vcpu % 256, 0, cb.insn, Pack(0, 4)), wid);
  }

  /** A callback adds a hit record of a watch if and only if it is a hit of it and the output is open. */
  lemma AfterWatched(c: Setup, s: State, cb: Callback, wid: nat)
    requires Sane(cb)
    ensures var t := After(c, s, cb);
            && Watched(t.log, wid) == Watched(s.log, wid) + One(s.outOpen && HitOfWatch(cb, wid))
            && t.watchDrops == s.watchDrops + One(cb.Dropped?)
  {
    hide AfterSnapshot;
    hide Watched;
    match cb
    case BlockStart(vcpu, insn, total, flags, sample, g, seekOk) =>
      FinishNoHits(s, total, wid);
      LockedWatched(c, s, LockedBlock(vcpu, insn, flags, sample, g, seekOk), wid);
    case LockedBlock(_, _, _, _, _, _) => LockedWatched(c, s, cb, wid);
    case Hit(_, _, _, _, _, _, _, _, _) => HitWatched(c, s, cb, wid);
    case Dropped =>
    case Other(rec) => WatchedNext(s.log, rec, wid);
    case VcpuExit(_, _, _, _) => ExitWatched(c, s, cb, wid);
    case AtExit(total) => FinishNoHits(s, total, wid);
  }

  // ------------------------------------------------------------------ whole runs

  /** The hits of a watch among callbacks. */
  function Hits(cbs: seq<Callback>, wid: nat): nat {
    if cbs == [] then 0 else Hits(cbs[..|cbs| - 1], wid) + One(HitOfWatch(cbs[|cbs| - 1], wid))
  }

  function Drops(cbs: seq<Callback>): nat {
    if cbs == [] then 0 else Drops(cbs[..|cbs| - 1]) + One(cbs[|cbs| - 1].Dropped?)
  }

  /** A run with the output open to its end writes one record for every hit; every drop counts, open or
      not. */
  lemma {:induction false} RunWatched(c: Setup, s: State, cbs: seq<Callback>, wid: nat)
    requires forall cb :: cb in cbs ==> Sane(cb)
    ensures var t := Run(c, s, cbs);
            && t.watchDrops == s.watchDrops + Drops(cbs)
            && Watched(s.log, wid) <= Watched(t.log, wid) <= Watched(s.log, wid) + Hits(cbs, wid)
            && (t.outOpen ==> s.outOpen && Watched(t.log, wid) == Watched(s.log, wid) + Hits(cbs, wid))
  {
    hide After;
    hide Sane;
    hide Watched;
    hide HitOfWatch;
    hide Snaps;
    if cbs != [] {
      var n := |cbs| - 1;
      RunWatched(c, s, cbs[..n], wid);
      AfterWatched(c, Run(c, s, cbs[..n]), cbs[n], wid);
      AfterMoves(c, Run(c, s, cbs[..n]), cbs[n]);
    }
  }

  /** What a step is to the hit counters. */
  function Counted(step: Step): seq<T.Step> {
    match step
    case Arrive(wid) => [T.Arrive(wid)]
    case Settle(k, _, _, _, _, _, _, _) => [T.Settle(k)]
    case Do(_) => []
  }

  function Counting(steps: seq<Step>): seq<T.Step> {
    if steps == [] then [] else Counting(steps[..|steps| - 1]) + Counted(steps[|steps| - 1])
  }

  lemma RunNext(ws: seq<T.Watch>, steps: seq<T.Step>, step: T.Step)
    ensures T.Run(ws, steps + [step])
            == var s := T.Run(ws, steps); if T.Enabled(ws, s, step) then T.Next(ws, s, step) else s
  {
    assert (steps + [step])[..|steps|] == steps;
  }

  lemma CountingNext(ws: seq<T.Watch>, steps: seq<T.Step>, step: Step)
    ensures T.Run(ws, steps + Counted(step))
            == var s := T.Run(ws, steps); if Enabled(ws, s, step) then NextThrottle(ws, s, step) else s
  {
    hide T.Next;
    hide T.Run;
    match step
    case Arrive(wid) => RunNext(ws, steps, T.Arrive(wid));
    case Settle(k, _, _, _, _, _, _, _) => RunNext(ws, steps, T.Settle(k));
    case Do(_) => assert steps + [] == steps;
  }

  /** The hit counters see only the arrivals and what becomes of them. */
  lemma {:induction false} UnfoldCounts(ws: seq<T.Watch>, steps: seq<Step>)
    ensures Unfold(ws, steps).th == T.Run(ws, Counting(steps))
  {
    hide T.Run;
    hide Acts;
    hide NextThrottle;
    hide Enabled;
    hide Counted;
    if steps == [] {
      NothingRun(ws);
    } else {
      var n := |steps| - 1;
      UnfoldCounts(ws, steps[..n]);
      CountingNext(ws, Counting(steps[..n]), steps[n]);
    }
  }

  lemma NothingRun(ws: seq<T.Watch>)
    ensures T.Run(ws, []) == T.Init(|ws|)
  {
  }

  lemma HitNamesItsWatch(w: T.Watch, p: nat, step: Step, wid: nat)
    requires step.Settle? && p < 0x1_0000_0000
    ensures HitOfWatch(HitOf(w, p, step), wid) == (p == wid)
  {
    assert Pow256(4) == 0x1_0000_0000;
    PackUnpack(p, 4);
    hide Pack;
    hide Unpack;
    assert (Pack(p, 4) + step.regs)[..4] == Pack(p, 4);
  }

  lemma HitsNext(cbs: seq<Callback>, cb: Callback, wid: nat)
    ensures Hits(cbs + [cb], wid) == Hits(cbs, wid) + One(HitOfWatch(cb, wid))
    ensures Drops(cbs + [cb]) == Drops(cbs) + One(cb.Dropped?)
  {
    hide HitOfWatch;
    assert (cbs + [cb])[..|cbs|] == cbs;
  }

  lemma NoHitsYet(wid: nat)
    ensures Hits([], wid) == 0 && Drops([]) == 0
  {
  }

  /** A settled hit is either recorded or dropped, on both sides. */
  lemma SettleHits(ws: seq<T.Watch>, w: World, step: Step, wid: nat)
    requires |ws| <= 0x1_0000_0000 && wid < |ws| && step.Settle? && T.Sized(ws, w.th) && step.which < |w.th.pending|
    requires Hits(w.cbs, wid) == w.th.recorded[wid] && Drops(w.cbs) == w.th.drops
    ensures var cbs, th := w.cbs + Acts(ws, w.th, step), NextThrottle(ws, w.th, step);
            Hits(cbs, wid) == th.recorded[wid] && Drops(cbs) == th.drops
  {
    hide HitOfWatch;
    hide Hits;
    hide Drops;
    var p := w.th.pending[step.which];
    HitsNext(w.cbs, Acts(ws, w.th, step)[0], wid);
    if p.drop {
      DroppedIsNoHit(wid);
    } else {
      HitNamesItsWatch(ws[p.wid], p.wid, step, wid);
    }
  }

  lemma DroppedIsNoHit(wid: nat)
    ensures !HitOfWatch(Dropped, wid)
  {
  }

  /** The hits of a watch among the callbacks are those that settled without being dropped. */
  lemma {:induction false} UnfoldHits(ws: seq<T.Watch>, steps: seq<Step>, wid: nat)
    requires |ws| <= 0x1_0000_0000 && wid < |ws| && forall step :: step in steps ==> Proper(step)
    ensures var w := Unfold(ws, steps);
            Hits(w.cbs, wid) == w.th.recorded[wid] && Drops(w.cbs) == w.th.drops
  {
    hide HitOf;
    hide Hits;
    hide Drops;
    if steps == [] {
      NoHitsYet(wid);
    } else {
      var n := |steps| - 1;
      UnfoldHits(ws, steps[..n], wid);
      var w := Unfold(ws, steps[..n]);
      assert Proper(steps[n]);
      match steps[n]
      case Arrive(_) => assert w.cbs + [] == w.cbs;
      case Do(cb) => HitsNext(w.cbs, cb, wid);
      case Settle(k, _, _, _, _, _, _, _) =>
        if k < |w.th.pending| {
          SettleHits(ws, w, steps[n], wid);
        }
    }
  }

  /** The records that a watch hit `n` times is to give, once no hit of it is under way. */
  function Due(w: T.Watch, n: nat): nat {
    if w.Throttled() then T.Passed(n, w.rate) else n
  }

  /** While the output is open, the log holds of each watch exactly the hits that its rate lets through,
      but for those still under way: ceil(n / r) of n hits if a rate r applies, and all of them otherwise;
      and the drop counter has counted the others. After the end it holds no more than that. */
  lemma RecordsOfAWatch(c: Setup, ws: seq<T.Watch>, steps: seq<Step>, wid: nat)
    requires |ws| <= 0x1_0000_0000 && wid < |ws| && forall step :: step in steps ==> Proper(step)
    ensures var w := Unfold(ws, steps);
            var t, n := Run(c, Initial(c), w.cbs), w.th.arrived[wid];
            && Watched(t.log, wid) + T.Waiting(w.th.pending, T.Pending(wid, false)) <= Due(ws[wid], n)
            && (t.outOpen ==> Watched(t.log, wid) + T.Waiting(w.th.pending, T.Pending(wid, false)) == Due(ws[wid], n))
            && w.th.dropped[wid] + T.Waiting(w.th.pending, T.Pending(wid, true)) == n - Due(ws[wid], n)
            && t.watchDrops == A.Sum(w.th.dropped)
  {
    var w := Unfold(ws, steps);
    UnfoldSane(ws, steps);
    UnfoldHits(ws, steps, wid);
    UnfoldCounts(ws, steps);
    hide Unfold;
    hide Hits;
    hide Sane;
    hide Proper;
    T.RunTallied(ws, Counting(steps));
    assert T.Tallied(ws, w.th, wid);
    RunWatched(c, Initial(c), w.cbs, wid);
  }

  /** With no hit under way and the output open, the log has exactly the records due. */
  lemma RecordsWhenQuiet(c: Setup, ws: seq<T.Watch>, steps: seq<Step>, wid: nat)
    requires |ws| <= 0x1_0000_0000 && wid < |ws| && forall step :: step in steps ==> Proper(step)
    requires Unfold(ws, steps).th.pending == []
    ensures var w := Unfold(ws, steps);
            var t, n := Run(c, Initial(c), w.cbs), w.th.arrived[wid];
            && (t.outOpen ==> Watched(t.log, wid) == Due(ws[wid], n))
            && w.th.dropped[wid] == n - Due(ws[wid], n)
  {
    RecordsOfAWatch(c, ws, steps, wid);
    assert T.Waiting([], T.Pending(wid, false)) == 0 && T.Waiting([], T.Pending(wid, true)) == 0;
    hide Unfold;
    hide Run;
  }

  /** Once the output is closed, the log holds the hits that settled before the callback that closed it. */
  lemma RecordsUntilClosed(c: Setup, s: State, cbs: seq<Callback>, wid: nat) returns (k: nat)
    requires s.outOpen && !Run(c, s, cbs).outOpen
    requires AllAllowed(c, s, cbs) && forall cb :: cb in cbs ==> Sane(cb)
    ensures k < |cbs| && Closes(c, cbs[k])
    ensures Watched(Run(c, s, cbs).log, wid) == Watched(s.log, wid) + Hits(cbs[..k], wid)
  {
    hide Run;
    hide AllAllowed;
    hide Sane;
    hide Watched;
    hide Hits;
    hide Notes;
    hide EndRec;
    k := ClosedByOne(c, s, cbs);
    var t := Run(c, s, cbs[..k]);
    RunWatched(c, s, cbs[..k], wid);
    NotesAreNoHits(4);
    var end := EndRec(ClosingTotal(cbs[k]), t.counts, t.ramBytes, t.truncated, t.watchDrops);
    EndIsNoHit(ClosingTotal(cbs[k]), t.counts, t.ramBytes, t.truncated, t.watchDrops);
    WatchedAside(t.log, Notes(4) + [end], wid);
    assert t.log + Notes(4) + [end] == t.log + (Notes(4) + [end]);
  }

  lemma EndIsNoHit(total: nat, n: Counts, ramBytes: nat, truncated: bool, drops: nat)
    ensures EndRec(total, n, ramBytes, truncated, drops).rtype != WATCHPC
  {
  }

  const EVERY := T.Watch(1, false, false, false)

  /** A hit that settles when the output has been closed. */
  function LateHit(total: nat, settle: Step): seq<Step> {
    [Do(AtExit(total)), Arrive(0), settle]
  }

  /** Its record is due, and never written. */
  lemma LateHitIsLost(c: Setup, total: nat, insn: nat, regs: seq<byte>, g: Guest)
    ensures var w := Unfold([EVERY], LateHit(total, Settle(0, 0, insn, 0, regs, None, g, true)));
            && w.th.pending == [] && w.th.arrived == [1] && Due(EVERY, 1) == 1
            && Watched(Run(c, Initial(c), w.cbs).log, 0) == 0
  {
    var settle := Settle(0, 0, insn, 0, regs, None, g, true);
    LateSteps(total, settle);
    LateLog(c, total, HitOf(EVERY, 0, settle));
    hide Unfold;
    hide Run;
    hide HitOf;
  }

  lemma OneHit(settle: Step)
    requires settle.Settle? && settle.which == 0
    ensures var th := NextThrottle([EVERY], T.Init(1), Arrive(0));
            && th.pending == [T.Pending(0, false)] && th.arrived == [1]
            && Acts([EVERY], th, settle) == [HitOf(EVERY, 0, settle)]
            && NextThrottle([EVERY], th, settle).pending == [] && NextThrottle([EVERY], th, settle).arrived == [1]
  {
    hide HitOf;
  }

  lemma LateSteps(total: nat, settle: Step)
    requires settle.Settle? && settle.which == 0
    ensures var w := Unfold([EVERY], LateHit(total, settle));
            w.th.pending == [] && w.th.arrived == [1] && w.cbs == [AtExit(total), HitOf(EVERY, 0, settle)]
  {
    OneHit(settle);
    ThreeSteps([EVERY], AtExit(total), settle);
    hide Unfold;
    hide NextThrottle;
    hide HitOf;
    hide T.Init;
  }

  lemma ThreeSteps(ws: seq<T.Watch>, first: Callback, settle: Step)
    requires |ws| == 1 && settle.Settle?
    requires var th := NextThrottle(ws, T.Init(1), Arrive(0)); settle.which < |th.pending|
    ensures var th := NextThrottle(ws, T.Init(1), Arrive(0));
            Unfold(ws, [Do(first), Arrive(0), settle])
            == World(NextThrottle(ws, th, settle), [first] + Acts(ws, th, settle))
  {
    hide T.Init;
    hide T.Next;
    hide HitOf;
    var steps := [Do(first), Arrive(0), settle];
    assert steps[..0] == [] && steps[..3] == steps;
    UnfoldStep(ws, steps, 0);
    UnfoldStep(ws, steps, 1);
    UnfoldStep(ws, steps, 2);
  }

  lemma RunTwo(c: Setup, s: State, a: Callback, b: Callback)
    ensures Run(c, s, [a, b]) == After(c, After(c, s, a), b)
  {
    hide After;
    assert [a, b][..1] == [a] && [a][..0] == [];
    assert Run(c, s, []) == s;
    assert Run(c, s, [a]) == After(c, s, a);
  }

  lemma NothingYet(c: Setup, total: nat)
    ensures var s := After(c, Initial(c), AtExit(total)); !s.outOpen && Watched(s.log, 0) == 0
  {
    FinishNoHits(Initial(c), total, 0);
    hide Notes;
    hide EndRec;
  }

  lemma LateLog(c: Setup, total: nat, hit: Callback)
    requires hit.Hit?
    ensures Watched(Run(c, Initial(c), [AtExit(total), hit]).log, 0) == 0
  {
    hide After;
    hide Run;
    hide HitOfWatch;
    hide Watched;
    NothingYet(c, total);
    HitWatched(c, After(c, Initial(c), AtExit(total)), hit, 0);
    RunTwo(c, Initial(c), AtExit(total), hit);
  }
}
