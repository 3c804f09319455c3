/** Whole recordings: any interleaving of what the vCPUs do, the plugin that follows it, and what the host
    then makes of the file. */
module Recording {
  import opened Arithmetic
  import opened Wrappers
  import opened LittleEndian
  import opened TraceFile
  import opened RamImage
  import opened HostReplay
  import opened Recorder
  import opened RecorderLaws
  import Plugin
  import T = WatchThrottle

  /** What happens next: a vCPU comes upon a watched address and counts the hit, without the lock; the hit
      takes effect, a drop or a record under the lock; or some other callback gets the lock. */
  datatype Step =
    | Arrive(wid: nat)
    | Settle(which: nat, vcpu: nat, insn: nat, flags: nat, regs: seq<byte>, nftrace: Option<seq<byte>>, g: Guest,
             seekOk: bool)
    | Do(cb: Callback)

  /** The machine's values fit their C types; hits come only from steps that settle. */
  ghost predicate Proper(step: Step) {
    match step
    case Arrive(_) => true
    case Settle(_, _, insn, flags, regs, nftrace, g, _) =>
      && insn < U64 && flags < 0x1_0000_0000 && |regs| == 100 && g.WholePages()
      && (nftrace.Some? ==> |nftrace.value| == 40)
    case Do(cb) => Sane(cb) && !cb.Hit? && !cb.Dropped?
  }

  predicate Enabled(ws: seq<T.Watch>, th: T.State, step: Step) {
    match step
    case Arrive(wid) => wid < |ws|
    case Settle(k, _, _, _, _, _, _, _) => k < |th.pending|
    case Do(_) => true
  }

  /** The record of a hit starts with the number of its watch; what follows from it is up to the watch. */
  function HitOf(w: T.Watch, wid: nat, step: Step): Callback
    requires step.Settle?
  {
    Hit(step.vcpu, step.insn, step.flags, Pack(wid, 4) + step.regs, if w.nftrace then step.nftrace else None,
        w.snap, w.throttle, step.g, step.seekOk)
  }

  /** The callbacks a step amounts to: one, or none for a hit that is only counted. */
  function Acts(ws: seq<T.Watch>, th: T.State, step: Step): seq<Callback>
    requires T.Sized(ws, th) && Enabled(ws, th, step)
  {
    match step
    case Arrive(_) => []
    case Settle(k, _, _, _, _, _, _, _) =>
      var p := th.pending[k];
      if p.drop then [Dropped] else [HitOf(ws[p.wid], p.wid, step)]
    case Do(cb) => [cb]
  }

  function NextThrottle(ws: seq<T.Watch>, th: T.State, step: Step): (r: T.State)
    requires T.Sized(ws, th) && Enabled(ws, th, step)
    ensures T.Sized(ws, r)
  {
    match step
    case Arrive(wid) => T.Next(ws, th, T.Arrive(wid))
    case Settle(k, _, _, _, _, _, _, _) => T.Next(ws, th, T.Settle(k))
    case Do(_) => th
  }

  /** The hit counters with the hits under way, and the callbacks so far. */
  datatype World = World(th: T.State, cbs: seq<Callback>)

  /** One step, if it is enabled. */
  function Onwards(ws: seq<T.Watch>, w: World, step: Step): (r: World)
    requires T.Sized(ws, w.th)
    ensures T.Sized(ws, r.th)
  {
    if Enabled(ws, w.th, step) then World(NextThrottle(ws, w.th, step), w.cbs + Acts(ws, w.th, step)) else w
  }

  /** The steps that are enabled when their turn comes. */
  function Unfold(ws: seq<T.Watch>, steps: seq<Step>): (w: World)
    ensures T.Sized(ws, w.th)
  {
    if steps == [] then World(T.Init(|ws|), [])
    else Onwards(ws, Unfold(ws, steps[..|steps| - 1]), steps[|steps| - 1])
  }

  /** What a step does. An arrival is counted if its watch has a rate, takes no snapshots and reads no event of
      the guest's; it is to be dropped unless the count is a multiple of the rate. A hit that settles becomes one
      more drop, or a record with the number of the watch and the registers, and with the watch's own settings. */
  lemma StepSays(ws: seq<T.Watch>, w: World, step: Step)
    requires T.Sized(ws, w.th)
    ensures var r := Onwards(ws, w, step);
            match step
            case Arrive(wid) =>
              if wid < |ws| then
                var counted := ws[wid].rate > 1 && !ws[wid].snap && !ws[wid].nftrace;
                && r.cbs == w.cbs
                && r.th.pending == w.th.pending + [T.Pending(wid, counted && w.th.hits[wid] % ws[wid].rate > 0)]
                && r.th.hits == w.th.hits[wid := w.th.hits[wid] + if counted then 1 else 0]
              else r == w
            case Settle(k, vcpu, insn, flags, regs, nftrace, g, seekOk) =>
              if k < |w.th.pending| then
                var p := w.th.pending[k];
                && r.th.hits == w.th.hits
                && r.th.pending == w.th.pending[..k] + w.th.pending[k + 1..]
                && r.cbs == w.cbs +
                   [if p.drop then Dropped
                    else Hit(vcpu, insn, flags, Pack(p.wid, 4) + regs, if ws[p.wid].nftrace then nftrace else None,
                             ws[p.wid].snap, ws[p.wid].throttle, g, seekOk)]
              else r == w
            case Do(cb) => r.th == w.th && r.cbs == w.cbs + [cb]
  {
    hide Pack;
  }

  lemma {:induction false} UnfoldSane(ws: seq<T.Watch>, steps: seq<Step>)
    requires forall s :: s in steps ==> Proper(s)
    ensures forall cb :: cb in Unfold(ws, steps).cbs ==> Sane(cb)
  {
    if steps != [] {
      var n := |steps| - 1;
      UnfoldSane(ws, steps[..n]);
      var w := Unfold(ws, steps[..n]);
      assert Proper(steps[n]);
      if Enabled(ws, w.th, steps[n]) {
        ActsSane(ws, w.th, steps[n]);
      }
      hide Sane;
      hide Acts;
      hide Proper;
    }
  }

  lemma ActsSane(ws: seq<T.Watch>, th: T.State, step: Step)
    requires T.Sized(ws, th) && Enabled(ws, th, step) && Proper(step)
    ensures |Acts(ws, th, step)| <= 1 && forall cb :: cb in Acts(ws, th, step) ==> Sane(cb)
  {
    hide Pack;
  }

  // ------------------------------------------------------------------ driving the plugin

  method Dispatch(p: Plugin.Plugin, cb: Callback)
    requires p.Mirrors() && (p.shadowPages != null ==> !p.truncated) && Sane(cb) && Allowed(p.c, p.Now(), cb)
    modifies p, p.shadowPages, p.shadowValid
    ensures p.Mirrors() && p.Now() == After(p.c, old(p.Now()), cb)
    ensures p.shadowPages == null || (p.shadowPages == old(p.shadowPages) && p.shadowValid == old(p.shadowValid))
  {
    hide p.Mirrors;
    hide AfterLocked;
    hide AfterBlock;
    hide AfterHit;
    hide AfterExit;
    hide AfterFinish;
    hide AfterRecord;
    hide Snaps;
    match cb
    case BlockStart(vcpu, insn, total, flags, sample, g, seekOk) =>
      p.TbCheck(vcpu, insn, total, flags, sample, g, seekOk);
    case LockedBlock(vcpu, insn, flags, sample, g, seekOk) =>
      p.LockedCheck(vcpu, insn, flags, sample, g, seekOk);
    case Hit(vcpu, insn, flags, hit, nftrace, snap, throttle, g, seekOk) =>
      p.WatchHit(vcpu, insn, flags, hit, nftrace, snap, throttle, g, seekOk);
    case Dropped => p.Drop();
    case Other(rec) => p.Record(rec);
    case VcpuExit(vcpu, insn, g, seekOk) => p.VcpuDown(vcpu, insn, g, seekOk);
    case AtExit(total) => p.Finish(total);
  }

  /** The plugin has followed the callbacks since it was in state `s`. */
  ghost predicate Follows(p: Plugin.Plugin, s: State, cbs: seq<Callback>)
    reads p, p.shadowPages, p.shadowValid
  {
    && p.Mirrors() && (p.shadowPages == null <==> p.shadowValid == null) && (p.shadowPages != null ==> !p.truncated)
    && AllAllowed(p.c, s, cbs) && p.Now() == Run(p.c, s, cbs) && Inv(p.c, p.Now()) && Continues(s, p.Now())
  }

  lemma FollowsNone(p: Plugin.Plugin)
    requires p.Mirrors() && Inv(p.c, p.Now())
    ensures Follows(p, p.Now(), [])
  {
    p.NoShadow();
    LiveIsNotCut(p.c, p.Now());
    StartsHere(p.c, p.Now());
    hide p.Mirrors;
    hide Inv;
    hide Continues;
    hide Run;
    hide AllAllowed;
  }

  /** The callbacks of one step, unless one of them is not allowed. */
  method Take(p: Plugin.Plugin, act: seq<Callback>, ghost s: State, ghost cbs: seq<Callback>) returns (ok: bool)
    requires Follows(p, s, cbs) && |act| <= 1 && forall cb :: cb in act ==> Sane(cb)
    modifies p, p.shadowPages, p.shadowValid
    ensures Follows(p, s, if ok then cbs + act else cbs)
    ensures !ok ==> exists cb :: cb in act && !Allowed(p.c, p.Now(), cb)
    ensures if p.shadowPages == null then p.shadowValid == null
            else p.shadowPages == old(p.shadowPages) && p.shadowValid == old(p.shadowValid)
  {
    hide p.Mirrors;
    hide Inv;
    hide Continues;
    hide Run;
    hide AllAllowed;
    hide Allowed;
    hide After;
    hide Sane;
    if act == [] {
      assert cbs + act == cbs;
      return true;
    }
    assert act == [act[0]] && act[0] in act;
    ok := p.May(act[0]);
    if ok {
      RunOn(p.c, s, cbs, act[0]);
      Dispatch(p, act[0]);
      LiveIsNotCut(p.c, p.Now());
      p.NoShadow();
    }
  }

  /** One step, from world to world, unless a callback of it is not allowed. */
  method TakeStep(p: Plugin.Plugin, ws: seq<T.Watch>, th: T.State, step: Step, ghost s: State, ghost cbs: seq<Callback>)
    returns (ok: bool, th': T.State, ghost cbs': seq<Callback>)
    requires Follows(p, s, cbs) && T.Sized(ws, th) && Proper(step)
    modifies p, p.shadowPages, p.shadowValid
    ensures T.Sized(ws, th') && Follows(p, s, cbs')
    ensures if ok then World(th', cbs') == Onwards(ws, World(th, cbs), step)
            else cbs' == cbs && Stuck(p.c, p.Now(), ws, th, step)
    ensures if p.shadowPages == null then p.shadowValid == null
            else p.shadowPages == old(p.shadowPages) && p.shadowValid == old(p.shadowValid)
  {
    ShadowsTogether(p, s, cbs);
    hide Follows;
    hide NextThrottle;
    hide Enabled;
    hide Acts;
    hide Sane;
    hide Proper;
    ok, th', cbs' := true, th, cbs;
    if Enabled(ws, th, step) {
      ActsSane(ws, th, step);
      ok := Take(p, Acts(ws, th, step), s, cbs);
      if ok {
        th', cbs' := NextThrottle(ws, th, step), cbs + Acts(ws, th, step);
      }
    }
  }

  /** The steps in turn, until one is not allowed. */
  method Follow(p: Plugin.Plugin, ws: seq<T.Watch>, steps: seq<Step>, ghost s: State) returns (done: nat)
    requires Follows(p, s, []) && forall step :: step in steps ==> Proper(step)
    modifies p, p.shadowPages, p.shadowValid
    ensures done <= |steps| && Follows(p, s, Unfold(ws, steps[..done]).cbs)
    ensures done < |steps| ==> Stuck(p.c, p.Now(), ws, Unfold(ws, steps[..done]).th, steps[done])
  {
    ShadowsTogether(p, s, []);
    NothingUnfolded(ws, steps);
    hide Follows;
    hide Unfold;
    hide Onwards;
    hide T.Init;
    hide Stuck;
    hide Proper;
    var th := T.Init(|ws|);
    done := 0;
    ghost var cbs: seq<Callback> := [];
    while done < |steps|
      invariant done <= |steps| && T.Sized(ws, th)
      invariant Unfold(ws, steps[..done]) == World(th, cbs) && Follows(p, s, cbs)
      invariant if p.shadowPages == null then p.shadowValid == null
                else p.shadowPages == old(p.shadowPages) && p.shadowValid == old(p.shadowValid)
    {
      UnfoldStep(ws, steps, done);
      var ok;
      ok, th, cbs := TakeStep(p, ws, th, steps[done], s, cbs);
      if !ok {
        break;
      }
      done := done + 1;
    }
  }

  lemma ShadowsTogether(p: Plugin.Plugin, s: State, cbs: seq<Callback>)
    requires Follows(p, s, cbs)
    ensures p.shadowPages == null <==> p.shadowValid == null
  {
  }

  /** The step is enabled, but would take a snapshot of a closed output. */
  ghost predicate Stuck(c: Setup, s: State, ws: seq<T.Watch>, th: T.State, step: Step)
    requires T.Sized(ws, th)
  {
    Enabled(ws, th, step) && exists cb :: cb in Acts(ws, th, step) && !Allowed(c, s, cb)
  }

  lemma NothingUnfolded(ws: seq<T.Watch>, steps: seq<Step>)
    ensures Unfold(ws, steps[..0]) == World(T.Init(|ws|), [])
  {
  }

  lemma UnfoldStep(ws: seq<T.Watch>, steps: seq<Step>, n: nat)
    requires n < |steps|
    ensures Unfold(ws, steps[..n + 1]) == Onwards(ws, Unfold(ws, steps[..n]), steps[n])
  {
    assert steps[..n + 1][..n] == steps[..n];
  }

  lemma {:induction false} UnfoldGrows(ws: seq<T.Watch>, steps: seq<Step>, n: nat)
    requires n <= |steps|
    ensures Unfold(ws, steps[..n]).cbs <= Unfold(ws, steps).cbs
    decreases |steps| - n
  {
    hide Acts;
    hide NextThrottle;
    hide Enabled;
    if n == |steps| {
      assert steps[..n] == steps;
    } else {
      UnfoldStep(ws, steps, n);
      UnfoldGrows(ws, steps, n + 1);
    }
  }

  /** A step that is stuck stands for a callback that is not allowed. */
  lemma StuckIsNotAllowed(c: Setup, s: State, ws: seq<T.Watch>, steps: seq<Step>, n: nat)
    requires n < |steps|
    requires var w := Unfold(ws, steps[..n]); Stuck(c, Run(c, s, w.cbs), ws, w.th, steps[n])
    ensures !AllAllowed(c, s, Unfold(ws, steps).cbs)
  {
    hide Allowed;
    hide Run;
    hide NextThrottle;
    hide Enabled;
    hide HitOf;
    hide Unfold;
    var w, cbs := Unfold(ws, steps[..n]), Unfold(ws, steps).cbs;
    UnfoldStep(ws, steps, n);
    UnfoldGrows(ws, steps, n + 1);
    assert cbs[..|w.cbs|] == w.cbs && cbs[|w.cbs|] in Acts(ws, w.th, steps[n]);
  }

  /** A recording, step by step. The plugin's state is that of the run of the callbacks its steps amount
      to; it goes on until a callback would take a snapshot of a closed output, and to the end if and only
      if none would. The file then loads and
      replays, and the host holds of every page the bytes that the last snapshot to read it saw, and of a
      page that none has read since the start what it had. */
  method Drive(p: Plugin.Plugin, ws: seq<T.Watch>, steps: seq<Step>) returns (done: nat)
    requires p.Mirrors() && Inv(p.c, p.Now())
    requires forall step :: step in steps ==> Proper(step)
    modifies p, p.shadowPages, p.shadowValid
    ensures done <= |steps| && Follows(p, old(p.Now()), Unfold(ws, steps[..done]).cbs)
    ensures done == |steps| <==> AllAllowed(p.c, old(p.Now()), Unfold(ws, steps).cbs)
    ensures done < |steps| ==> Stuck(p.c, p.Now(), ws, Unfold(ws, steps[..done]).th, steps[done])
    ensures Delivers(p.c, p.Now())
    ensures forall i :: 0 <= i < p.c.PageCount() ==>
              Remembers(p.c, old(p.Now()), Unfold(ws, steps[..done]).cbs, i, p.Now().have)
  {
    hide Follows;
    hide Delivers;
    hide Remembers;
    ghost var s := p.Now();
    FollowsNone(p);
    done := Follow(p, ws, steps, s);
    ghost var cbs := Unfold(ws, steps[..done]).cbs;
    FollowsRun(p, s, cbs);
    if done < |steps| {
      StuckIsNotAllowed(p.c, s, ws, steps, done);
    } else {
      assert steps[..done] == steps;
    }
    HostSees(p.c, p.Now());
    forall i | 0 <= i < p.c.PageCount()
      ensures Remembers(p.c, s, cbs, i, p.Now().have)
    {
      RunRemembers(p.c, s, cbs, i);
    }
  }

  /** A whole recording, from the installation of the plugin on. */
  method Record(setup: Setup, ws: seq<T.Watch>, steps: seq<Step>) returns (p: Plugin.Plugin, done: nat)
    requires setup.Ok() && forall step :: step in steps ==> Proper(step)
    ensures p.c == setup && done <= |steps| && Follows(p, Initial(setup), Unfold(ws, steps[..done]).cbs)
    ensures done == |steps| <==> AllAllowed(setup, Initial(setup), Unfold(ws, steps).cbs)
    ensures Delivers(setup, p.Now())
    ensures forall i :: 0 <= i < setup.PageCount() ==>
              Remembers(setup, Initial(setup), Unfold(ws, steps[..done]).cbs, i, p.Now().have)
  {
    hide Follows;
    hide Delivers;
    hide Remembers;
    hide Unfold;
    hide Inv;
    hide AllAllowed;
    p := new Plugin.Plugin(setup);
    p.NoShadow();
    InitialInv(setup);
    done := Drive(p, ws, steps);
  }

  lemma FollowsRun(p: Plugin.Plugin, s: State, cbs: seq<Callback>)
    requires Follows(p, s, cbs)
    ensures p.Now() == Run(p.c, s, cbs) && AllAllowed(p.c, s, cbs)
    ensures Inv(p.c, p.Now()) && |p.have| == p.c.PageCount() == |s.have|
  {
    hide Run;
    hide AllAllowed;
    hide Continues;
    RunHoldsPages(p.c, s, cbs);
    LiveIsNotCut(p.c, p.Now());
  }

  /** What page `i` is after a run that began at `s`. */
  ghost predicate Remembers(c: Setup, s: State, cbs: seq<Callback>, i: nat, have: Holding) {
    && i < |have| == |s.have|
    && (forall k :: 0 <= k < |cbs| && LastRead(c, s, cbs, k, i) ==> have[i] == Some(cbs[k].g.page(i)))
    && ((forall k :: 0 <= k < |cbs| ==> !Reads(c, s, cbs, k, i)) ==> have[i] == s.have[i])
  }

  /** Callback `k` takes the last snapshot of the run that reads page `i`. */
  ghost predicate LastRead(c: Setup, s: State, cbs: seq<Callback>, k: nat, i: nat)
    requires k < |cbs|
  {
    Reads(c, s, cbs, k, i) && forall j :: k < j < |cbs| ==> !Reads(c, s, cbs, j, i)
  }

  lemma RunRemembers(c: Setup, s: State, cbs: seq<Callback>, i: nat)
    requires i < |s.have|
    ensures Remembers(c, s, cbs, i, Run(c, s, cbs).have)
  {
    hide Run;
    hide Reach;
    RunHoldsPages(c, s, cbs);
    assert cbs[..|cbs|] == cbs;
    forall k | 0 <= k < |cbs| && LastRead(c, s, cbs, k, i)
      ensures Run(c, s, cbs).have[i] == Some(cbs[k].g.page(i))
    {
      LastReadWins(c, s, cbs, k, |cbs|, i);
    }
    if forall k :: 0 <= k < |cbs| ==> !Reads(c, s, cbs, k, i) {
      NeverRead(c, s, cbs, |cbs|, i);
    }
  }

  lemma StartsHere(c: Setup, s: State)
    ensures Run(c, s, []) == s && AllAllowed(c, s, []) && Continues(s, s)
  {
  }

  lemma LiveIsNotCut(c: Setup, s: State)
    requires Inv(c, s)
    ensures |s.have| == c.PageCount() && (s.live ==> !s.truncated)
  {
    hide Hosted;
    hide WithinBudget;
    hide Balanced;
    hide Closed;
  }

  /** One more callback. */
  lemma RunOn(c: Setup, s: State, cbs: seq<Callback>, cb: Callback)
    requires AllAllowed(c, s, cbs) && Inv(c, Run(c, s, cbs)) && Continues(s, Run(c, s, cbs))
    requires Sane(cb) && Allowed(c, Run(c, s, cbs), cb)
    ensures var t := After(c, Run(c, s, cbs), cb);
            && Run(c, s, cbs + [cb]) == t && AllAllowed(c, s, cbs + [cb]) && Inv(c, t) && Continues(s, t)
  {
    hide Inv;
    hide After;
    hide Continues;
    hide Allowed;
    hide Sane;
    var n, more := |cbs|, cbs + [cb];
    assert more[..n] == cbs;
    assert forall k :: 0 <= k < n ==> more[..k] == cbs[..k] && more[k] == cbs[k];
    AfterInv(c, Run(c, s, cbs), cb);
    AfterContinues(c, Run(c, s, cbs), cb);
    ContinuesOn(s, Run(c, s, cbs), After(c, Run(c, s, cbs), cb));
  }

  // ------------------------------------------------------------------ the file and the host

  /** The file of the log loads, without truncation, and replays to just what the plugin takes the host to
      hold. */
  ghost predicate Delivers(c: Setup, s: State) {
    var trace := LoadFile(FileOf(s.log), false, c.codec);
    && trace.Ok? && !trace.value.truncatedAtEof
    && var image := Replay(Fresh(c.ramBase, c.ramSize), trace.value.trace.snaps);
       image.Some? && ReadsBack(c, image.value, s.have)
  }

  ghost predicate ReadsBack(c: Setup, image: Ram, have: Holding) {
    && |have| == c.PageCount()
    && image.Valid() && forall i :: 0 <= i < |have| ==> image.Blob(c.ramBase + i * PGSIZE, PGSIZE) == have[i]
  }

  lemma HostSees(c: Setup, s: State)
    requires Inv(c, s)
    ensures Delivers(c, s)
  {
    hide LogTrace;
    hide LoadFile;
    hide Replay;
    hide Balanced;
    hide Closed;
    LoadOfFile(s.log, c.codec);
    var image := HostView(s.log, c.codec, c.ramBase, c.ramSize).value;
    forall i | 0 <= i < |s.have|
      ensures image.Blob(c.ramBase + i * PGSIZE, PGSIZE) == s.have[i]
    {
      BlobOfPage(image, i);
    }
  }

  /** What the loader's last row says about a log closed by an END record: it is that record, the only one,
      and its fields are the total, the truncation flag and the drops it was written with, and the numbers
      of snapshot marks, traps, samples and watch hits and the page bytes before it. */
  lemma EndRowCounts(before: seq<Rec>, total: nat, n: Counts, truncated: bool, drops: nat, codec: Codec)
    requires Balanced(before, n)
             && LogTrace(before + [EndRec(total, n, BodyBytes(before) % U64, truncated, drops)], codec).Ok?
    requires Fit(END_FIELDS, EndFields(total, n, BodyBytes(before) % U64, truncated, drops))
    ensures var log := before + [EndRec(total, n, BodyBytes(before) % U64, truncated, drops)];
            var rows := LogTrace(log, codec).value.rows;
            && Count(log, END) == 1
            && rows != [] && rows[|rows| - 1].rtype == END
            && rows[|rows| - 1].fields
               == [total, Count(before, SNAPMARK), Count(before, DISCON), Count(before, SAMPLE), Count(before, WATCHPC),
                   BodyBytes(before) % U64, One(truncated), 0, drops]
  {
    hide LoadStep;
    hide LogTrace;
    hide PackFields;
    hide Fit;
    var end := EndRec(total, n, BodyBytes(before) % U64, truncated, drops);
    FrontLoads(before, end, codec);
    LogTraceAppend(before, end, codec);
    TalliesAppend(before, end);
    EndRowDecodes(LogTrace(before, codec).value, end, EndFields(total, n, BodyBytes(before) % U64, truncated, drops),
                  codec);
  }

  lemma EndRowDecodes(t: Trace, end: Rec, fields: seq<nat>, codec: Codec)
    requires end.rtype == END && |fields| == |END_FIELDS| && end.payload == PackFields(END_FIELDS, fields)
    requires Fit(END_FIELDS, fields)
    ensures var t' := LoadStep(t, Located(end, 0), false, codec);
            && t'.Ok? && |t'.value.rows| == |t.rows| + 1
            && t'.value.rows[|t.rows|].rtype == END && t'.value.rows[|t.rows|].fields == fields
  {
    hide Quads;
    hide Size;
    hide Fit;
    hide Fields;
    hide PackFields;
    LayoutSizes();
    FieldsOfPacked(END_FIELDS, fields, []);
    assert end.payload + [] == end.payload;
  }
}
