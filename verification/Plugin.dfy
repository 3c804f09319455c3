/** The recording plugin (nodefusion/plugin/nf_plugin.c) as it works: one object whose callbacks update
    its fields, the shadow copy and the log in place. */
module Plugin {
  import opened Arithmetic
  import opened Wrappers
  import opened LittleEndian
  import opened TraceFile
  import opened RamImage
  import opened HostReplay
  import opened Recorder
  import Scheduler

  predicate IsZero(page: seq<byte>) {
    forall b :: b in page ==> b == 0
  }

  /** How the shadow copy stores a page: the zero page is a null pointer. */
  function Shadow(page: seq<byte>): Option<seq<byte>> {
    if IsZero(page) then None else Some(page)
  }

  lemma ShadowInjective(p: seq<byte>, q: seq<byte>)
    requires |p| == |q|
    ensures Shadow(p) == Shadow(q) <==> p == q
  {
    if IsZero(p) && IsZero(q) {
      assert forall i :: 0 <= i < |p| ==> p[i] in p && q[i] in q;
      assert p == q;
    }
  }

  /** The shadow copy holds what the host holds. */
  ghost predicate Shadows(pages: seq<Option<seq<byte>>>, valid: seq<bool>, have: Holding) {
    && |pages| == |valid| == |have|
    && forall i :: 0 <= i < |have| ==>
         && valid[i] == have[i].Some?
         && (valid[i] ==> pages[i] == Shadow(have[i].value))
  }

  ghost predicate Whole(have: Holding) {
    forall i :: 0 <= i < |have| ==> have[i].Some? ==> |have[i].value| == PGSIZE
  }

  lemma ShadowStep(pages: seq<Option<seq<byte>>>, valid: seq<bool>, have: Holding, idx: nat, page: seq<byte>)
    requires Shadows(pages, valid, have) && Whole(have) && idx < |valid| && |page| == PGSIZE
    ensures Shadows(pages[idx := Shadow(page)], valid[idx := true], have[idx := Some(page)])
    ensures Whole(have[idx := Some(page)])
  {
  }

  /** The comparison of nf_snapshot_page: is this the page the host has? */
  lemma SameAsShadow(pages: seq<Option<seq<byte>>>, valid: seq<bool>, have: Holding, idx: nat, page: seq<byte>)
    requires Shadows(pages, valid, have) && Whole(have) && idx < |valid| && |page| == PGSIZE
    ensures valid[idx] && ((IsZero(page) && pages[idx].None?) || (!IsZero(page) && pages[idx] == Some(page)))
            <==> have[idx] == Some(page)
  {
    if have[idx].Some? {
      ShadowInjective(page, have[idx].value);
    }
  }

  class Plugin {
    const c: Setup

    var outOpen: bool
    var log: seq<Rec>

    var shadowPages: array?<Option<seq<byte>>>
    var shadowValid: array?<bool>
    var ramBytes: nat
    var truncated: bool

    var nSamples: nat
    var nDiscons: nat
    var nWatchHits: nat
    var nWatchDrops: nat
    var nReturns: nat
    var nSnapshots: nat

    var timer: Scheduler.Timer
    var events: Scheduler.EventThrottle
    var finalSnapDone: bool

    /** What the host holds once the log so far has been loaded and replayed. */
    ghost var have: Holding

    ghost function Now(): State
      reads this
    {
      State(log, outOpen, shadowPages != null, truncated, have, ramBytes,
            Counts(nSnapshots, nSamples, nDiscons, nWatchHits, nReturns), nWatchDrops, timer, events, finalSnapDone)
    }

    /** The shadow copy, while there is one, holds what the host holds. */
    ghost predicate Mirrors()
      reads this`shadowPages, this`shadowValid, this`have, shadowPages, shadowValid
    {
      && |have| == c.PageCount() && Whole(have)
      && (shadowPages == null <==> shadowValid == null)
      && (shadowPages != null ==> Shadows(shadowPages[..], shadowValid[..], have))
    }

    /** qemu_plugin_install, after the file header and without its META records. */
    constructor (setup: Setup)
      ensures c == setup && Mirrors() && Now() == Initial(setup)
      ensures shadowPages != null ==> fresh(shadowPages) && fresh(shadowValid)
    {
      c := setup;
      outOpen, log := true, [];
      ramBytes, truncated := 0, false;
      nSamples, nDiscons, nWatchHits, nWatchDrops, nReturns, nSnapshots := 0, 0, 0, 0, 0, 0;
      timer, events, finalSnapDone := Scheduler.InitialTimer(setup.config), Scheduler.EventThrottle(0, 0), false;
      have := seq(setup.PageCount(), _ => None);
      if setup.config.snapEvery != 0 {
        shadowPages := new Option<seq<byte>>[setup.PageCount()](_ => None);
        shadowValid := new bool[setup.PageCount()](_ => false);
      } else {
        shadowPages, shadowValid := null, null;
      }
    }

    /** nf_write_rec. */
    method WriteRec(r: Rec)
      modifies this`log
      ensures log == if outOpen then old(log) + [r] else old(log)
    {
      if outOpen {
        log := log + [r];
      }
    }

    /** nf_snapshot_page. A page the host has already is passed over. Another one is stored, compressed if
        that is shorter, exactly if the budget admits it; then the host has it. If not, nothing but a
        warning is written, and all snapshots are over. */
    method SnapshotPage(vcpu: nat, insn: nat, idx: nat, page: seq<byte>) returns (ok: bool, changed: bool)
      requires Mirrors() && outOpen && shadowPages != null && !truncated
      requires idx < |have| && |page| == PGSIZE
      modifies this`log, this`ramBytes, this`truncated, this`have, shadowPages, shadowValid
      ensures Mirrors() && truncated == !ok
      ensures var s, differs := Packed(c.codec, page), old(have)[idx] != Some(page);
              && ok == (differs ==> Admits(c.maxRamBytes, old(ramBytes), |s.body|))
              && changed == (differs && ok)
              && have == (if changed then old(have)[idx := Some(page)] else old(have))
              && ramBytes == (if changed then (old(ramBytes) + |s.body|) % U64 else old(ramBytes))
              && log == old(log) + if changed then [PageRec(vcpu % 256, insn, idx, s.flags, s.body)]
                                   else if ok then [] else [Warning(insn)]
    {
      SameAsShadow(shadowPages[..], shadowValid[..], have, idx, page);
      ShadowStep(shadowPages[..], shadowValid[..], have, idx, page);
      var zero := IsZero(page);
      var shadowPage := shadowPages[idx];
      if shadowValid[idx] &&
         ((zero && shadowPage.None?) || (!zero && shadowPage.Some? && shadowPage.value == page)) {
        return true, false;
      }
      hide IsZero;
      var z := c.codec.compress(page);
      var body, flags := page, 0;
      if z.Some? && |z.value| < PGSIZE {
        body, flags := z.value, F_ZLIB;
      }
      if (ramBytes + |body|) % U64 > c.maxRamBytes {
        truncated := true;
        WriteRec(Warning(insn));
        return false, false;
      }
      WriteRec(PageRec(vcpu % 256, insn, idx, flags, body));
      shadowPages[idx] := if zero then None else Some(page);
      shadowValid[idx] := true;
      ramBytes := (ramBytes + |body|) % U64;
      have := have[idx := Some(page)];
      assert shadowPages[..] == old(shadowPages[..])[idx := Shadow(page)];
      assert shadowValid[..] == old(shadowValid[..])[idx := true];
      return true, true;
    }

    /** The pages below `upTo` have been dealt with; `s` is the state when the snapshot began to read, and
        its log ends in the mark. */
    ghost predicate Sweeping(s: State, vcpu: nat, insn: nat, g: Guest, upTo: nat)
      reads this`log, this`have, this`ramBytes, this`outOpen, this`truncated
    {
      outOpen && Swept(c, s, vcpu, insn, g, upTo, log, have, ramBytes, truncated)
    }

    /** One page of either loop: an ok step moves on, a failed one ends the sweep. */
    method SweepPage(vcpu: nat, insn: nat, g: Guest, i: nat, ghost s: State) returns (ok: bool, changed: bool)
      requires Mirrors() && Sweeping(s, vcpu, insn, g, i) && shadowPages != null && !truncated
      requires i < |s.have| && g.WholePages() && g.Readable(i)
      modifies this`log, this`ramBytes, this`truncated, this`have, shadowPages, shadowValid
      ensures Mirrors() && ok == !truncated
      ensures Sweeping(s, vcpu, insn, g, if ok then i + 1 else i)
      ensures changed ==> ok
      ensures ok ==> |PageRecs(c, s.have, g, vcpu, insn, i + 1)|
                     == |PageRecs(c, s.have, g, vcpu, insn, i)| + if changed then 1 else 0
    {
      SweptHave(c, s, vcpu, insn, g, i, log, have, ramBytes);
      SweptNext(c, s, vcpu, insn, g, i, log, have, ramBytes);
      hide Shadows;
      hide Whole;
      hide Packed;
      hide Swept;
      hide Admits;
      hide Held;
      hide Total;
      hide Differs;
      hide Warning;
      ok, changed := SnapshotPage(vcpu, insn, i, g.page(i));
    }

    /** The pages of a chunk that was read whole. */
    method SweepChunk(vcpu: nat, insn: nat, g: Guest, base: nat, changed0: nat, ghost s: State)
      returns (changed: nat, ghost upTo: nat)
      requires Mirrors() && Sweeping(s, vcpu, insn, g, base) && shadowPages != null && !truncated
      requires base < |s.have| == c.PageCount() && base % CHUNK_PAGES == 0 && g.WholePages()
               && g.chunkOk(base / CHUNK_PAGES)
      requires changed0 == |PageRecs(c, s.have, g, vcpu, insn, base)|
      modifies this`log, this`ramBytes, this`truncated, this`have, shadowPages, shadowValid
      ensures Mirrors() && Sweeping(s, vcpu, insn, g, upTo) && base <= upTo
      ensures !truncated ==> upTo == Min(base + CHUNK_PAGES, |s.have|)
      ensures changed == |PageRecs(c, s.have, g, vcpu, insn, upTo)|
      ensures NoneUnreadable(g, base, upTo)
    {
      hide Mirrors;
      hide Sweeping;
      hide PageRecs;
      changed, upTo := changed0, base;
      var pages := Min(CHUNK_PAGES, c.PageCount() - base);
      var j := 0;
      while j < pages && !truncated
        invariant j <= pages && upTo == base + j
        invariant Mirrors() && Sweeping(s, vcpu, insn, g, upTo) && !truncated
        invariant changed == |PageRecs(c, s.have, g, vcpu, insn, upTo)|
        invariant NoneUnreadable(g, base, upTo)
      {
        assert (base + j) / CHUNK_PAGES == base / CHUNK_PAGES;
        var ok, one := SweepPage(vcpu, insn, g, base + j, s);
        if !ok {
          break;
        }
        changed := changed + if one then 1 else 0;
        j, upTo := j + 1, upTo + 1;
      }
    }

    /** The pages of a chunk whose read failed, one at a time. */
    method SweepSingly(vcpu: nat, insn: nat, g: Guest, base: nat, changed0: nat, ghost s: State)
      returns (changed: nat, readFail: nat, ghost upTo: nat)
      requires Mirrors() && Sweeping(s, vcpu, insn, g, base) && shadowPages != null && !truncated
      requires base < |s.have| == c.PageCount() && base % CHUNK_PAGES == 0 && g.WholePages()
               && !g.chunkOk(base / CHUNK_PAGES)
      requires changed0 == |PageRecs(c, s.have, g, vcpu, insn, base)|
      modifies this`log, this`ramBytes, this`truncated, this`have, shadowPages, shadowValid
      ensures Mirrors() && Sweeping(s, vcpu, insn, g, upTo) && base <= upTo
      ensures !truncated ==> upTo == Min(base + CHUNK_PAGES, |s.have|)
      ensures changed == |PageRecs(c, s.have, g, vcpu, insn, upTo)|
      ensures readFail == 0 <==> NoneUnreadable(g, base, upTo)
    {
      hide Mirrors;
      hide Sweeping;
      hide PageRecs;
      changed, readFail, upTo := changed0, 0, base;
      var pages := Min(CHUNK_PAGES, c.PageCount() - base);
      var j := 0;
      while j < pages && !truncated
        invariant j <= pages && (!truncated ==> upTo == base + j)
        invariant base <= upTo
        invariant Mirrors() && Sweeping(s, vcpu, insn, g, upTo)
        invariant changed == |PageRecs(c, s.have, g, vcpu, insn, upTo)|
        invariant readFail == 0 <==> NoneUnreadable(g, base, upTo)
      {
        var i := base + j;
        assert i / CHUNK_PAGES == base / CHUNK_PAGES;
        if !g.pageOk(i) {
          readFail := readFail + 1;
          assert !g.Readable(i);
          SweepPast(vcpu, insn, g, i, s);
          upTo := upTo + 1;
        } else {
          var ok, one := SweepPage(vcpu, insn, g, i, s);
          changed := changed + if one then 1 else 0;
          upTo := if ok then upTo + 1 else upTo;
        }
        j := j + 1;
      }
    }

    /** Nothing changes for a page that cannot be read. */
    lemma SweepPast(vcpu: nat, insn: nat, g: Guest, i: nat, s: State)
      requires Sweeping(s, vcpu, insn, g, i) && !truncated && i < |s.have| && !g.Readable(i)
      ensures Sweeping(s, vcpu, insn, g, i + 1)
      ensures PageRecs(c, s.have, g, vcpu, insn, i + 1) == PageRecs(c, s.have, g, vcpu, insn, i)
    {
      assert Held(s.have, g, i + 1) == Held(s.have, g, i);
      NextPage(c, s, vcpu, insn, g, i);
      hide Held;
      hide PageRecs;
      hide Total;
      hide Overruns;
      hide Packed;
    }

    /** The chunk loop of nf_snapshot. */
    method Sweep(vcpu: nat, insn: nat, g: Guest, ghost s: State) returns (changed: nat, readFail: nat, ghost upTo: nat)
      requires Mirrors() && Sweeping(s, vcpu, insn, g, 0) && shadowPages != null && !truncated
      requires |s.have| == c.PageCount() && g.WholePages()
      modifies this`log, this`ramBytes, this`truncated, this`have, shadowPages, shadowValid
      ensures Mirrors() && Sweeping(s, vcpu, insn, g, upTo)
      ensures truncated || upTo == |s.have|
      ensures changed == |PageRecs(c, s.have, g, vcpu, insn, upTo)|
      ensures readFail == 0 <==> NoneUnreadable(g, 0, upTo)
    {
      hide Mirrors;
      hide Sweeping;
      hide PageRecs;
      hide Held;
      hide Total;
      changed, readFail, upTo := 0, 0, 0;
      NothingRead(c, s.have, g, 0, vcpu, insn);
      var base := 0;
      while base < c.PageCount() && !truncated
        invariant base % CHUNK_PAGES == 0
        invariant !truncated ==> upTo == Min(base, c.PageCount())
        invariant Mirrors() && Sweeping(s, vcpu, insn, g, upTo)
        invariant changed == |PageRecs(c, s.have, g, vcpu, insn, upTo)|
        invariant readFail == 0 <==> NoneUnreadable(g, 0, upTo)
      {
        if g.chunkOk(base / CHUNK_PAGES) {
          changed, upTo := SweepChunk(vcpu, insn, g, base, changed, s);
        } else {
          var failed;
          changed, failed, upTo := SweepSingly(vcpu, insn, g, base, changed, s);
          readFail := readFail + failed;
        }
        base := base + CHUNK_PAGES;
      }
    }

    /** nf_snapshot between taking its sequence number and releasing the shadow copy. */
    method WriteSnapshot(vcpu: nat, insn: nat, g: Guest, seekOk: bool, snapSeq: nat)
      requires Mirrors() && outOpen && shadowPages != null && !truncated && g.WholePages()
      requires snapSeq + 1 == nSnapshots
      modifies this`log, this`ramBytes, this`truncated, this`have, shadowPages, shadowValid
      ensures Mirrors()
      ensures var s := old(Now()).(counts := old(Now()).counts.(snapshots := snapSeq));
              var t := AfterSnapshot(c, s, vcpu, insn, g, seekOk);
              log == t.log && ramBytes == t.ramBytes && truncated == t.truncated && have == t.have
    {
      hide Shadows;
      hide Whole;
      hide Held;
      hide Total;
      hide PageRecs;
      hide MarkRec;
      hide Overruns;
      hide Reach;
      ghost var s0 := Now().(counts := Now().counts.(snapshots := snapSeq));
      var markPos := |log|;
      var first := MarkRec(vcpu, insn, 0, snapSeq, c.ramBase, 0, c.PageCount());
      WriteRec(first);
      ghost var s := Now();
      NothingRead(c, have, g, ramBytes, vcpu, insn);
      var changed, readFail;
      ghost var upTo;
      changed, readFail, upTo := Sweep(vcpu, insn, g, s);
      ReachIs(c, s.have, g, s.ramBytes, upTo, truncated);
      ghost var pages := PageRecs(c, s.have, g, vcpu, insn, upTo);
      if readFail > 0 {
        WriteRec(Warning(insn));
      }
      var mark := first;
      if seekOk {
        mark := MarkRec(vcpu, insn, MarkFlags(truncated, readFail > 0), snapSeq, c.ramBase, changed, c.PageCount());
        log := log[markPos := mark];
      }
      MarkInPlace(s0.log, first, mark, pages, if truncated then [Warning(insn)] else [],
                  if readFail > 0 then [Warning(insn)] else []);
    }

    /** nf_snapshot. */
    method Snapshot(vcpu: nat, insn: nat, g: Guest, seekOk: bool)
      requires Mirrors() && (shadowPages != null ==> outOpen && !truncated) && g.WholePages()
      modifies this, shadowPages, shadowValid
      ensures Mirrors() && Now() == AfterSnapshot(c, old(Now()), vcpu, insn, g, seekOk)
      ensures shadowPages == null || (shadowPages == old(shadowPages) && shadowValid == old(shadowValid))
    {
      hide Shadows;
      hide Whole;
      hide Held;
      hide Total;
      hide PageRecs;
      hide Mark;
      hide Warnings;
      hide Overruns;
      if shadowPages == null {
        return;
      }
      var snapSeq := nSnapshots;
      nSnapshots := nSnapshots + 1;
      WriteSnapshot(vcpu, insn, g, seekOk, snapSeq);
      if truncated {
        shadowPages, shadowValid := null, null;
      }
    }

    // ---------------------------------------------------------------- the other callbacks

    /** A callback's record, and the counter that goes with its kind. */
    method Record(r: Rec)
      modifies this`log, this`nSamples, this`nDiscons, this`nWatchHits, this`nReturns
      ensures Now() == AfterRecord(old(Now()), r)
    {
      WriteRec(r);
      nSamples, nDiscons, nWatchHits, nReturns :=
        nSamples + One(r.rtype == SAMPLE), nDiscons + One(r.rtype == DISCON),
        nWatchHits + One(r.rtype == WATCHPC), nReturns + One(r.rtype == RETURN);
    }

    /** nf_finish: four META records, the END record, and the output is closed for good. */
    method Finish(total: nat)
      modifies this`log, this`outOpen
      ensures Now() == AfterFinish(old(Now()), total)
    {
      if !outOpen {
        return;
      }
      var end := EndRec(total, Counts(nSnapshots, nSamples, nDiscons, nWatchHits, nReturns), ramBytes, truncated,
                        nWatchDrops);
      var k := 0;
      assert log == old(log) + Notes(0);
      while k < 4
        invariant k <= 4 && outOpen && log == old(log) + Notes(k)
      {
        WriteRec(Rec(META, 0, 0, 0, TEXT));
        assert old(log) + Notes(k + 1) == old(log) + Notes(k) + [Rec(META, 0, 0, 0, TEXT)];
        k := k + 1;
      }
      WriteRec(end);
      outOpen := false;
    }

    /** The sampling half of nf_tb_check under the lock. */
    method Sampling(vcpu: nat, insn: nat, flags: nat, sample: seq<byte>)
      modifies this`log, this`nSamples, this`nDiscons, this`nWatchHits, this`nReturns, this`timer
      ensures Now() == AfterSampling(c, old(Now()), vcpu, insn, flags, sample)
    {
      hide Counted;
      if c.config.sampleEvery != 0 && insn >= timer.nextSample {
        Record(Rec(SAMPLE, vcpu % 256, flags, insn, sample));
        timer := timer.(nextSample := (insn + c.config.sampleEvery) % U64);
      }
    }

    /** The snapshot half. */
    method TimerSnapshot(vcpu: nat, insn: nat, g: Guest, seekOk: bool)
      requires Mirrors() && (shadowPages != null ==> !truncated) && g.WholePages() && c.config.snapEvery != 0
      requires shadowPages != null && (Crosses(insn) || insn >= timer.nextSnap) ==> outOpen
      modifies this, shadowPages, shadowValid
      ensures Mirrors() && Now() == AfterTimer(c, old(Now()), vcpu, insn, g, seekOk)
      ensures shadowPages == null || (shadowPages == old(shadowPages) && shadowValid == old(shadowValid))
    {
      hide Shadows;
      hide Whole;
      hide AfterSnapshot;
      var crossedStart := Crosses(insn);
      if crossedStart || insn >= timer.nextSnap {
        var iv := if insn >= c.config.snapStart then c.config.snapEvery else c.config.bootSnapEvery;
        if iv == 0 {
          iv := c.config.snapEvery;
        }
        timer := timer.(nextSnap := (insn + iv) % U64);
        if crossedStart {
          timer := timer.(startSnapDone := true);
        }
        Snapshot(vcpu, insn, g, seekOk);
      }
    }

    predicate Crosses(insn: nat)
      reads this`timer
    {
      !timer.startSnapDone && c.config.snapStart != 0 && insn >= c.config.snapStart
    }

    /** The part of nf_tb_check under the lock: sample and snapshot as the schedule says. */
    method LockedCheck(vcpu: nat, insn: nat, flags: nat, sample: seq<byte>, g: Guest, seekOk: bool)
      requires Mirrors() && (shadowPages != null ==> !truncated) && g.WholePages()
      requires Allowed(c, Now(), LockedBlock(vcpu, insn, flags, sample, g, seekOk))
      modifies this, shadowPages, shadowValid
      ensures Mirrors() && Now() == AfterLocked(c, old(Now()), vcpu, insn, flags, sample, g, seekOk)
      ensures shadowPages == null || (shadowPages == old(shadowPages) && shadowValid == old(shadowValid))
    {
      hide Shadows;
      hide Whole;
      hide AfterSnapshot;
      hide AfterRecord;
      hide AfterLocked;
      hide Counted;
      LockedHalves(c, Now(), vcpu, insn, flags, sample, g, seekOk);
      Sampling(vcpu, insn, flags, sample);
      if c.config.snapEvery != 0 {
        TimerSnapshot(vcpu, insn, g, seekOk);
      }
    }

    /** nf_tb_check: end the run at the instruction limit; otherwise, unless it is too early, take the lock. */
    method TbCheck(vcpu: nat, insn: nat, total: nat, flags: nat, sample: seq<byte>, g: Guest, seekOk: bool)
      requires Mirrors() && (shadowPages != null ==> !truncated) && g.WholePages()
      requires Allowed(c, Now(), BlockStart(vcpu, insn, total, flags, sample, g, seekOk))
      modifies this, shadowPages, shadowValid
      ensures Mirrors() && Now() == AfterBlock(c, old(Now()), vcpu, insn, total, flags, sample, g, seekOk)
      ensures shadowPages == null || (shadowPages == old(shadowPages) && shadowValid == old(shadowValid))
    {
      hide Shadows;
      hide Whole;
      hide AfterLocked;
      hide AfterFinish;
      hide Scheduler.LockedCheck;
      if c.maxInsn != 0 && insn >= c.maxInsn {
        Finish(total);
        return;
      }
      if insn < timer.nextSample && insn < timer.nextSnap {
        return;
      }
      LockedCheck(vcpu, insn, flags, sample, g, seekOk);
    }

    /** The event snapshot of a hit, if its watch takes them and the throttle allows it. */
    method EventShot(vcpu: nat, insn: nat, snap: bool, throttle: bool, g: Guest, seekOk: bool)
      requires Mirrors() && (shadowPages != null ==> !truncated) && g.WholePages()
      requires shadowPages != null && Shoots(c, Now(), insn, snap, throttle) ==> outOpen
      modifies this, shadowPages, shadowValid
      ensures Mirrors() && Now() == AfterEvent(c, old(Now()), vcpu, insn, snap, throttle, g, seekOk)
      ensures shadowPages == null || (shadowPages == old(shadowPages) && shadowValid == old(shadowValid))
    {
      hide Shadows;
      hide Whole;
      hide AfterSnapshot;
      if snap && c.config.snapEvery != 0 {
        var go := true;
        if throttle {
          if events.taken >= c.evSnapMax {
            go := false;
          } else if events.last != 0 && (insn - events.last) % U64 < c.evSnapMin {
            go := false;
          }
          if go {
            events := Scheduler.EventThrottle(events.taken + 1, insn);
          }
        }
        if go {
          Snapshot(vcpu, insn, g, seekOk);
        }
      }
    }

    /** nf_watch_hit from taking the lock on: the hit, the guest's own record if it asks for one, and an
        event snapshot if the watch takes them and the throttle allows it. */
    method WatchHit(vcpu: nat, insn: nat, flags: nat, hit: seq<byte>, nftrace: Option<seq<byte>>,
                    snap: bool, throttle: bool, g: Guest, seekOk: bool)
      requires Mirrors() && (shadowPages != null ==> !truncated) && g.WholePages()
      requires Allowed(c, Now(), Hit(vcpu, insn, flags, hit, nftrace, snap, throttle, g, seekOk))
      modifies this, shadowPages, shadowValid
      ensures Mirrors() && Now() == AfterHit(c, old(Now()), vcpu, insn, flags, hit, nftrace, snap, throttle, g, seekOk)
      ensures shadowPages == null || (shadowPages == old(shadowPages) && shadowValid == old(shadowValid))
    {
      hide Shadows;
      hide Whole;
      hide AfterEvent;
      hide Counted;
      Record(Rec(WATCHPC, vcpu % 256, flags, insn, hit));
      if nftrace.Some? {
        Record(Rec(NFTRACE, vcpu % 256, 0, insn, nftrace.value));
      }
      EventShot(vcpu, insn, snap, throttle, g, seekOk);
    }

    /** The other end of nf_watch_hit: a hit that is held back only counts, atomically. */
    method Drop()
      modifies this`nWatchDrops
      ensures Now() == old(Now()).(watchDrops := old(Now()).watchDrops + 1)
    {
      nWatchDrops := nWatchDrops + 1;
    }

    lemma NoShadow()
      requires Mirrors()
      ensures shadowPages == null <==> shadowValid == null
    {
    }

    /** Whether a callback may go ahead does not depend on what the host holds. */
    method May(cb: Callback) returns (ok: bool)
      ensures ok == Allowed(c, Now(), cb)
    {
      ok := Allowed(c, State(log, outOpen, shadowPages != null, truncated, [], ramBytes,
                             Counts(nSnapshots, nSamples, nDiscons, nWatchHits, nReturns), nWatchDrops, timer, events,
                             finalSnapDone), cb);
    }

    /** nf_vcpu_exit: a last snapshot, once, and a record that the vCPU is down. */
    method VcpuDown(vcpu: nat, insn: nat, g: Guest, seekOk: bool)
      requires Mirrors() && (shadowPages != null ==> !truncated) && g.WholePages()
      requires Allowed(c, Now(), VcpuExit(vcpu, insn, g, seekOk))
      modifies this, shadowPages, shadowValid
      ensures Mirrors() && Now() == AfterExit(c, old(Now()), vcpu, insn, g, seekOk)
      ensures shadowPages == null || (shadowPages == old(shadowPages) && shadowValid == old(shadowValid))
    {
      hide Shadows;
      hide Whole;
      hide AfterSnapshot;
      hide Counted;
      if c.config.snapEvery != 0 && !finalSnapDone {
        finalSnapDone := true;
        Snapshot(vcpu, insn, g, seekOk);
      }
      Record(Rec(VCPU, vcpu % 256, 0, insn, Pack(0, 4)));
    }
  }

  lemma HeldOnce(have: Holding, g: Guest, i: nat)
    requires i < |have| && g.Readable(i)
    ensures Held(have, g, i)[i] == have[i]
    ensures Held(have, g, i + 1)
            == if Differs(have, g, i) then Held(have, g, i)[i := Some(g.page(i))] else Held(have, g, i)
  {
  }

  /** A sweep that began in `s` has dealt with the pages below `upTo`, and if it was cut short, it was by
      page `upTo`. */
  ghost predicate Swept(c: Setup, s: State, vcpu: nat, insn: nat, g: Guest, upTo: nat,
                        log: seq<Rec>, have: Holding, ramBytes: nat, truncated: bool) {
    && upTo <= |s.have|
    && have == Held(s.have, g, upTo) && ramBytes == Total(c, s.have, g, s.ramBytes, upTo)
    && log == s.log + PageRecs(c, s.have, g, vcpu, insn, upTo) + (if truncated then [Warning(insn)] else [])
    && (forall k :: 0 <= k < upTo ==> !Overruns(c, s.have, g, s.ramBytes, k))
    && (truncated ==> upTo < |s.have| && Overruns(c, s.have, g, s.ramBytes, upTo))
  }

  lemma SweptHave(c: Setup, s: State, vcpu: nat, insn: nat, g: Guest, i: nat,
                  log: seq<Rec>, have: Holding, ramBytes: nat)
    requires Swept(c, s, vcpu, insn, g, i, log, have, ramBytes, false) && i < |s.have|
    ensures |have| == |s.have|
  {
  }

  /** What the next page adds to the records and to the byte counter. */
  lemma NextPage(c: Setup, s: State, vcpu: nat, insn: nat, g: Guest, i: nat)
    ensures var p, before := Packed(c.codec, g.page(i)), Total(c, s.have, g, s.ramBytes, i);
            if Differs(s.have, g, i) then
              && s.log + PageRecs(c, s.have, g, vcpu, insn, i + 1)
                 == s.log + PageRecs(c, s.have, g, vcpu, insn, i) + [PageRec(vcpu % 256, insn, i, p.flags, p.body)]
              && Total(c, s.have, g, s.ramBytes, i + 1) == (before + |p.body|) % U64
              && (Admits(c.maxRamBytes, before, |p.body|) <==> !Overruns(c, s.have, g, s.ramBytes, i))
            else
              && PageRecs(c, s.have, g, vcpu, insn, i + 1) == PageRecs(c, s.have, g, vcpu, insn, i)
              && Total(c, s.have, g, s.ramBytes, i + 1) == before
              && !Overruns(c, s.have, g, s.ramBytes, i)
  {
    hide Packed;
    hide Admits;
    hide Differs;
  }

  lemma SweptPast(c: Setup, s: State, vcpu: nat, insn: nat, g: Guest, i: nat,
                  log: seq<Rec>, have: Holding, ramBytes: nat)
    requires Swept(c, s, vcpu, insn, g, i, log, have, ramBytes, false) && i < |s.have| && g.Readable(i)
    requires !Differs(s.have, g, i)
    ensures Swept(c, s, vcpu, insn, g, i + 1, log, have, ramBytes, false)
  {
    hide Differs;
    hide Held;
    hide PageRecs;
    hide Total;
    hide Overruns;
    HeldOnce(s.have, g, i);
    NextPage(c, s, vcpu, insn, g, i);
  }

  lemma SweptStored(c: Setup, s: State, vcpu: nat, insn: nat, g: Guest, i: nat,
                    log: seq<Rec>, have: Holding, ramBytes: nat)
    requires Swept(c, s, vcpu, insn, g, i, log, have, ramBytes, false) && i < |s.have| && g.Readable(i)
    requires Differs(s.have, g, i) && Admits(c.maxRamBytes, ramBytes, |Packed(c.codec, g.page(i)).body|)
    ensures var p := Packed(c.codec, g.page(i));
            Swept(c, s, vcpu, insn, g, i + 1, log + [PageRec(vcpu % 256, insn, i, p.flags, p.body)],
                  have[i := Some(g.page(i))], (ramBytes + |p.body|) % U64, false)
  {
    hide Packed;
    hide Admits;
    hide Differs;
    hide Held;
    hide PageRecs;
    hide Total;
    hide Overruns;
    hide PageRec;
    HeldOnce(s.have, g, i);
    NextPage(c, s, vcpu, insn, g, i);
  }

  lemma SweptOver(c: Setup, s: State, vcpu: nat, insn: nat, g: Guest, i: nat,
                  log: seq<Rec>, have: Holding, ramBytes: nat)
    requires Swept(c, s, vcpu, insn, g, i, log, have, ramBytes, false) && i < |s.have| && g.Readable(i)
    requires Differs(s.have, g, i) && !Admits(c.maxRamBytes, ramBytes, |Packed(c.codec, g.page(i)).body|)
    ensures Swept(c, s, vcpu, insn, g, i, log + [Warning(insn)], have, ramBytes, true)
  {
    hide Packed;
    hide Admits;
    hide Differs;
    hide Held;
    hide Total;
    hide PageRecs;
    hide Warning;
  }

  /** What becomes of a sweep at the next page: it is passed over, stored, or the end of the sweep. */
  lemma SweptNext(c: Setup, s: State, vcpu: nat, insn: nat, g: Guest, i: nat,
                  log: seq<Rec>, have: Holding, ramBytes: nat)
    requires Swept(c, s, vcpu, insn, g, i, log, have, ramBytes, false) && i < |s.have| && g.Readable(i)
    ensures var p, differs := Packed(c.codec, g.page(i)), i < |have| && have[i] != Some(g.page(i));
            var fits := Admits(c.maxRamBytes, ramBytes, |p.body|);
            if !differs then Swept(c, s, vcpu, insn, g, i + 1, log + [], have, ramBytes, false)
            else if fits then
              Swept(c, s, vcpu, insn, g, i + 1, log + [PageRec(vcpu % 256, insn, i, p.flags, p.body)],
                    have[i := Some(g.page(i))], (ramBytes + |p.body|) % U64, false)
            else Swept(c, s, vcpu, insn, g, i, log + [Warning(insn)], have, ramBytes, true)
    ensures |PageRecs(c, s.have, g, vcpu, insn, i + 1)|
            == |PageRecs(c, s.have, g, vcpu, insn, i)| + if i < |have| && have[i] != Some(g.page(i)) then 1 else 0
  {
    SweptDiffers(c, s, vcpu, insn, g, i, log, have, ramBytes);
    hide Packed;
    hide Admits;
    hide Swept;
    hide Differs;
    hide Warning;
    assert log + [] == log;
    if !Differs(s.have, g, i) {
      SweptPast(c, s, vcpu, insn, g, i, log, have, ramBytes);
    } else if Admits(c.maxRamBytes, ramBytes, |Packed(c.codec, g.page(i)).body|) {
      SweptStored(c, s, vcpu, insn, g, i, log, have, ramBytes);
    } else {
      SweptOver(c, s, vcpu, insn, g, i, log, have, ramBytes);
    }
  }

  lemma SweptDiffers(c: Setup, s: State, vcpu: nat, insn: nat, g: Guest, i: nat,
                     log: seq<Rec>, have: Holding, ramBytes: nat)
    requires Swept(c, s, vcpu, insn, g, i, log, have, ramBytes, false) && i < |s.have| && g.Readable(i)
    ensures i < |have| && (Differs(s.have, g, i) <==> have[i] != Some(g.page(i)))
  {
    HeldOnce(s.have, g, i);
    hide PageRecs;
    hide Total;
    hide Overruns;
  }

  lemma NothingRead(c: Setup, have: Holding, g: Guest, total: nat, vcpu: nat, insn: nat)
    ensures Held(have, g, 0) == have && Total(c, have, g, total, 0) == total
    ensures PageRecs(c, have, g, vcpu, insn, 0) == []
  {
  }

  /** Completing the mark in place. */
  lemma MarkInPlace(start: seq<Rec>, first: Rec, mark: Rec, pages: seq<Rec>, w1: seq<Rec>, w2: seq<Rec>)
    ensures (start + [first] + pages + w1 + w2)[|start| := mark] == start + [mark] + pages + (w1 + w2)
    ensures start + [first] + pages + w1 + w2 == start + [first] + pages + (w1 + w2)
  {
  }

  /** The sweep stopped where the specification says. */
  lemma ReachIs(c: Setup, have: Holding, g: Guest, total: nat, upTo: nat, truncated: bool)
    requires upTo <= |have| && forall k :: 0 <= k < upTo ==> !Overruns(c, have, g, total, k)
    requires if truncated then upTo < |have| && Overruns(c, have, g, total, upTo) else upTo == |have|
    ensures Reach(c, have, g, total) == upTo
  {
    hide Overruns;
  }
}
