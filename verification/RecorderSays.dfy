/** What the recording writes, callback by callback and in the numbers of the format. */
module RecorderSays {
  import opened Wrappers
  import opened LittleEndian
  import opened TraceFile
  import opened HostReplay
  import opened Recorder
  import Scheduler

  // ------------------------------------------------------------------ the records of a snapshot

  /** Page `i` is read, with its chunk of 64 pages or by itself, and is not what the host has. */
  ghost predicate Changed(have: Holding, g: Guest, i: nat) {
    i < |have| && (g.chunkOk(i / 64) || g.pageOk(i)) && have[i] != Some(g.page(i))
  }

  /** The pages below `upTo` that have changed, in order. */
  ghost predicate ChangedBelow(have: Holding, g: Guest, upTo: nat, ps: seq<nat>) {
    && (forall j, k :: 0 <= j < k < |ps| ==> ps[j] < ps[k])
    && (forall i: nat :: i in ps <==> i < upTo && Changed(have, g, i))
  }

  /** A page record (6): the page's number and size, and its bytes, deflated (flag 8) if that makes them fewer. */
  ghost predicate IsPageRec(codec: Codec, r: Rec, vcpu: nat, insn: nat, i: nat, page: seq<byte>) {
    && r.rtype == 6 && r.cpu == vcpu % 256 && r.insn == insn
    && r.payload == PackFields([4, 4], [i, 4096]) + Body(codec, page)
    && r.flags == if Deflates(codec, page) then 8 else 0
  }

  ghost predicate Deflates(codec: Codec, page: seq<byte>) {
    codec.compress(page).Some? && |codec.compress(page).value| < 4096
  }

  ghost function Body(codec: Codec, page: seq<byte>): seq<byte> {
    if Deflates(codec, page) then codec.compress(page).value else page
  }

  /** Some page below `upTo` could not be read. */
  ghost predicate Misses(g: Guest, upTo: nat) {
    exists i :: 0 <= i < upTo && !Reads(g, i)
  }

  ghost predicate Reads(g: Guest, i: nat) {
    g.chunkOk(i / 64) || g.pageOk(i)
  }

  /** A snapshot mark (5): its number, where memory starts, the size of a page, how many pages changed and
      how many there are. If the file can be sought, the mark is completed: flag 4 says that the budget ran
      out, flag 16 that some page could not be read. */
  ghost predicate IsMarkRec(c: Setup, have: Holding, number: nat, r: Rec, vcpu: nat, insn: nat, g: Guest, upTo: nat,
                            changed: nat, sought: bool) {
    && r.rtype == 5 && r.cpu == vcpu % 256 && r.insn == insn
    && r.payload == PackFields([8, 8, 4, 4, 4, 4],
                               [number, c.ramBase, 4096, if sought then changed else 0, |have|, 0])
    && r.flags == if sought then (if upTo < |have| then 4 else 0) + (if Misses(g, upTo) then 16 else 0) else 0
  }

  ghost predicate AreWarnings(rs: seq<Rec>, insn: nat, n: nat) {
    |rs| == n && forall k :: 0 <= k < n ==> rs[k].rtype == 9 && rs[k].insn == insn
  }

  /** A snapshot that gets to page `upTo`: the mark, a record for each page below that changed, in order, and
      a warning for each of the two ways in which it may be incomplete. */
  ghost predicate SnapshotWrites(c: Setup, have: Holding, number: nat, vcpu: nat, insn: nat, g: Guest, sought: bool,
                                 upTo: nat, recs: seq<Rec>) {
    exists ps: seq<nat>, warnings: seq<Rec> ::
      && ChangedBelow(have, g, upTo, ps)
      && AreWarnings(warnings, insn, (if upTo < |have| then 1 else 0) + if Misses(g, upTo) then 1 else 0)
      && |recs| == 1 + |ps| + |warnings|
      && IsMarkRec(c, have, number, recs[0], vcpu, insn, g, upTo, |ps|, sought)
      && (forall k :: 0 <= k < |ps| ==> IsPageRec(c.codec, recs[1 + k], vcpu, insn, ps[k], g.page(ps[k])))
      && recs[1 + |ps|..] == warnings
  }

  /** What else a snapshot does: each page read holds its bytes now, and the shadow copy is kept exactly if
      every page was dealt with. */
  ghost predicate SnapshotLeaves(s: State, t: State, g: Guest, upTo: nat) {
    && upTo <= |s.have| == |t.have|
    && (forall i :: 0 <= i < |t.have| ==>
          t.have[i] == if i < upTo && (g.chunkOk(i / 64) || g.pageOk(i)) then Some(g.page(i)) else s.have[i])
    && t.truncated == (upTo < |s.have|) && t.live == (upTo == |s.have|)
    && t.counts == s.counts.(snapshots := s.counts.snapshots + 1)
  }

  function ChangedPages(have: Holding, g: Guest, upTo: nat): seq<nat> {
    if upTo == 0 then []
    else ChangedPages(have, g, upTo - 1) + if Differs(have, g, upTo - 1) then [upTo - 1] else []
  }

  lemma DiffersIs(have: Holding, g: Guest, i: nat)
    ensures Differs(have, g, i) <==> Changed(have, g, i)
    ensures g.Readable(i) <==> g.chunkOk(i / 64) || g.pageOk(i)
  {
  }

  lemma {:induction false} ChangedPagesAre(have: Holding, g: Guest, upTo: nat)
    ensures ChangedBelow(have, g, upTo, ChangedPages(have, g, upTo))
  {
    hide ChangedBelow;
    hide Changed;
    hide Differs;
    if upTo == 0 {
      NothingChanged(have, g);
    } else {
      var before := ChangedPages(have, g, upTo - 1);
      ChangedPagesAre(have, g, upTo - 1);
      DiffersIs(have, g, upTo - 1);
      ChangedNext(have, g, upTo - 1, before);
      assert before + [] == before;
    }
  }

  lemma NothingChanged(have: Holding, g: Guest)
    ensures ChangedBelow(have, g, 0, [])
  {
    hide Changed;
  }

  lemma ChangedNext(have: Holding, g: Guest, i: nat, ps: seq<nat>)
    requires ChangedBelow(have, g, i, ps)
    ensures ChangedBelow(have, g, i + 1, if Changed(have, g, i) then ps + [i] else ps)
  {
    hide Changed;
    if Changed(have, g, i) {
      var more := ps + [i];
      forall j, k | 0 <= j < k < |more|
        ensures more[j] < more[k]
      {
        assert ps[j] in ps;
      }
      assert forall x: nat :: x in more <==> x in ps || x == i;
    }
  }

  lemma OnePageIs(c: Setup, have: Holding, g: Guest, vcpu: nat, insn: nat, i: nat)
    requires Differs(have, g, i)
    ensures |OnePage(c, have, g, vcpu, insn, i)| == 1
    ensures IsPageRec(c.codec, OnePage(c, have, g, vcpu, insn, i)[0], vcpu, insn, i, g.page(i))
  {
    hide PackFields;
  }

  lemma {:induction false} PageRecsAre(c: Setup, have: Holding, g: Guest, vcpu: nat, insn: nat, upTo: nat)
    ensures var ps, rs := ChangedPages(have, g, upTo), PageRecs(c, have, g, vcpu, insn, upTo);
            |rs| == |ps| && forall k :: 0 <= k < |ps| ==> IsPageRec(c.codec, rs[k], vcpu, insn, ps[k], g.page(ps[k]))
  {
    hide IsPageRec;
    hide Differs;
    if upTo > 0 {
      PageRecsAre(c, have, g, vcpu, insn, upTo - 1);
      if Differs(have, g, upTo - 1) {
        OnePageIs(c, have, g, vcpu, insn, upTo - 1);
      } else {
        NoPage(c, have, g, vcpu, insn, upTo - 1);
      }
      hide OnePage;
    }
  }

  lemma NoPage(c: Setup, have: Holding, g: Guest, vcpu: nat, insn: nat, i: nat)
    requires !Differs(have, g, i)
    ensures OnePage(c, have, g, vcpu, insn, i) == []
  {
  }

  lemma MissesIs(g: Guest, upTo: nat)
    ensures Misses(g, upTo) <==> !NoneUnreadable(g, 0, upTo)
  {
    if !NoneUnreadable(g, 0, upTo) {
      var i :| 0 <= i < upTo && !g.Readable(i);
      assert !Reads(g, i);
    } else {
      forall i | 0 <= i < upTo
        ensures Reads(g, i)
      {
        assert g.Readable(i);
      }
    }
  }

  lemma MarkIs(c: Setup, s: State, vcpu: nat, insn: nat, g: Guest, upTo: nat, sought: bool)
    ensures IsMarkRec(c, s.have, s.counts.snapshots, Mark(c, s, vcpu, insn, g, upTo, sought), vcpu, insn, g, upTo,
                      |PageRecs(c, s.have, g, vcpu, insn, upTo)|, sought)
  {
    hide PackFields;
    hide PageRecs;
    hide Misses;
    MissesIs(g, upTo);
    hide NoneUnreadable;
  }

  lemma SnapshotLog(c: Setup, s: State, vcpu: nat, insn: nat, g: Guest, sought: bool)
    requires s.live
    ensures var t, upTo := AfterSnapshot(c, s, vcpu, insn, g, sought), Reach(c, s.have, g, s.ramBytes);
            && SnapshotLeaves(s, t, g, upTo)
            && t.log == s.log + [Mark(c, s, vcpu, insn, g, upTo, sought)] + PageRecs(c, s.have, g, vcpu, insn, upTo)
                        + Warnings(insn, upTo < |s.have|, !NoneUnreadable(g, 0, upTo))
  {
    hide PageRecs;
    hide NoneUnreadable;
    hide Mark;
    hide Reach;
    hide Total;
    hide Warnings;
  }

  lemma WarningsAre(insn: nat, truncated: bool, incomplete: bool)
    ensures AreWarnings(Warnings(insn, truncated, incomplete), insn,
                        (if truncated then 1 else 0) + if incomplete then 1 else 0)
  {
  }

  lemma SnapshotParts(c: Setup, have: Holding, number: nat, vcpu: nat, insn: nat, g: Guest, sought: bool, upTo: nat,
                      mark: Rec, ps: seq<nat>, pages: seq<Rec>, warnings: seq<Rec>)
    requires ChangedBelow(have, g, upTo, ps) && |pages| == |ps|
    requires forall k :: 0 <= k < |ps| ==> IsPageRec(c.codec, pages[k], vcpu, insn, ps[k], g.page(ps[k]))
    requires IsMarkRec(c, have, number, mark, vcpu, insn, g, upTo, |ps|, sought)
    requires AreWarnings(warnings, insn, (if upTo < |have| then 1 else 0) + if Misses(g, upTo) then 1 else 0)
    ensures SnapshotWrites(c, have, number, vcpu, insn, g, sought, upTo, [mark] + pages + warnings)
  {
    hide ChangedBelow;
    hide IsPageRec;
    hide IsMarkRec;
    hide AreWarnings;
    hide Misses;
    var recs := [mark] + pages + warnings;
    assert recs[1 + |ps|..] == warnings && recs[0] == mark;
    assert forall k :: 0 <= k < |ps| ==> recs[1 + k] == pages[k];
  }

  /** A live snapshot writes what it should, and stops at the page the budget allows. */
  lemma SnapshotSays(c: Setup, s: State, vcpu: nat, insn: nat, g: Guest, sought: bool) returns (recs: seq<Rec>)
    requires s.live
    ensures var t, upTo := AfterSnapshot(c, s, vcpu, insn, g, sought), Reach(c, s.have, g, s.ramBytes);
            && t.log == s.log + recs
            && SnapshotWrites(c, s.have, s.counts.snapshots, vcpu, insn, g, sought, upTo, recs)
            && SnapshotLeaves(s, t, g, upTo)
  {
    hide AfterSnapshot;
    hide SnapshotWrites;
    hide SnapshotLeaves;
    hide ChangedBelow;
    hide IsPageRec;
    hide IsMarkRec;
    hide AreWarnings;
    hide PageRecs;
    hide ChangedPages;
    hide Misses;
    hide NoneUnreadable;
    hide Mark;
    hide Reach;
    hide Warnings;
    var upTo := Reach(c, s.have, g, s.ramBytes);
    var ps, pages := ChangedPages(s.have, g, upTo), PageRecs(c, s.have, g, vcpu, insn, upTo);
    var mark := Mark(c, s, vcpu, insn, g, upTo, sought);
    var warnings := Warnings(insn, upTo < |s.have|, !NoneUnreadable(g, 0, upTo));
    SnapshotLog(c, s, vcpu, insn, g, sought);
    ChangedPagesAre(s.have, g, upTo);
    PageRecsAre(c, s.have, g, vcpu, insn, upTo);
    MissesIs(g, upTo);
    MarkIs(c, s, vcpu, insn, g, upTo, sought);
    WarningsAre(insn, upTo < |s.have|, !NoneUnreadable(g, 0, upTo));
    SnapshotParts(c, s.have, s.counts.snapshots, vcpu, insn, g, sought, upTo, mark, ps, pages, warnings);
    recs := [mark] + pages + warnings;
    assert s.log + [mark] + pages + warnings == s.log + recs;
  }

  // ------------------------------------------------------------------ how far a snapshot gets

  /** The bytes that the changed pages below `upTo` take in the file. */
  ghost function BytesBelow(c: Setup, have: Holding, g: Guest, upTo: nat): nat {
    if upTo == 0 then 0
    else
      BytesBelow(c, have, g, upTo - 1) + if Changed(have, g, upTo - 1) then |Body(c.codec, g.page(upTo - 1))| else 0
  }

  lemma {:induction false} BytesAreCost(c: Setup, have: Holding, g: Guest, upTo: nat)
    ensures BytesBelow(c, have, g, upTo) == CostBelow(c, have, g, upTo)
  {
    hide Changed;
    hide Differs;
    if upTo > 0 {
      BytesAreCost(c, have, g, upTo - 1);
      DiffersIs(have, g, upTo - 1);
    }
  }

  /** With a budget more than a page below 2^64, a snapshot gets over all pages if the changed ones fit into what is
      left of it, and else to the first that does not; the bytes it stores are added to those stored before. */
  lemma SnapshotStops(c: Setup, s: State, vcpu: nat, insn: nat, g: Guest, sought: bool)
    requires s.live && s.ramBytes <= c.maxRamBytes && c.maxRamBytes + 4096 < 0x1_0000_0000_0000_0000 && g.WholePages()
    ensures var upTo := Reach(c, s.have, g, s.ramBytes);
            && upTo <= |s.have|
            && (upTo < |s.have| ==>
                  && Changed(s.have, g, upTo)
                  && s.ramBytes + BytesBelow(c, s.have, g, upTo + 1) > c.maxRamBytes)
            && AfterSnapshot(c, s, vcpu, insn, g, sought).ramBytes
               == s.ramBytes + BytesBelow(c, s.have, g, upTo) <= c.maxRamBytes
  {
    hide Changed;
    hide Differs;
    hide BytesBelow;
    hide CostBelow;
    var upTo := Reach(c, s.have, g, s.ramBytes);
    StopsAtTheBudget(c, s.have, g, s.ramBytes);
    TotalIsSum(c, s.have, g, s.ramBytes, upTo);
    BytesAreCost(c, s.have, g, upTo);
    BytesAreCost(c, s.have, g, upTo + 1);
    DiffersIs(s.have, g, upTo);
    SnapshotMoves(c, s, vcpu, insn, g, sought);
    hide AfterSnapshot;
    hide Total;
    hide Admits;
    hide Held;
  }

  // ------------------------------------------------------------------ every callback

  /** Is a sample due, by the count and the schedule? */
  predicate SampleDue(c: Setup, s: State, insn: nat) {
    c.config.sampleEvery > 0 && insn >= s.timer.nextSample
  }

  /** Is a snapshot due: by the schedule, or because the boot phase ends here? */
  predicate SnapshotDue(c: Setup, s: State, insn: nat) {
    c.config.snapEvery > 0 &&
    (insn >= s.timer.nextSnap || (c.config.snapStart > 0 && insn >= c.config.snapStart && !s.timer.startSnapDone))
  }

  predicate LimitReached(c: Setup, insn: nat) {
    c.maxInsn > 0 && insn >= c.maxInsn
  }

  /** The end: four texts, and an END record (10) with the instructions run, the snapshots, traps, samples and
      watch hits, the page bytes stored, whether the budget ran out, and the hits dropped. */
  ghost predicate EndWrites(s: State, total: nat, recs: seq<Rec>) {
    && |recs| == 5 && (forall k :: 0 <= k < 4 ==> recs[k].rtype == 1)
    && recs[4].rtype == 10 && recs[4].insn == total && recs[4].flags == (if s.truncated then 4 else 0)
    && recs[4].payload == PackFields([8, 8, 8, 8, 8, 8, 4, 4, 8],
                                     [total, s.counts.snapshots, s.counts.discons, s.counts.samples, s.counts.watchHits,
                                      s.ramBytes, if s.truncated then 1 else 0, 0, s.watchDrops])
  }

  /** Records in front of a snapshot, or behind it. */
  ghost predicate AndSnapshot(c: Setup, s: State, due: bool, vcpu: nat, insn: nat, g: Guest, sought: bool,
                              first: seq<Rec>, last: seq<Rec>, recs: seq<Rec>) {
    if due && s.live then
      exists middle ::
        && recs == first + middle + last
        && SnapshotWrites(c, s.have, s.counts.snapshots, vcpu, insn, g, sought, Reach(c, s.have, g, s.ramBytes), middle)
    else recs == first + last
  }

  /** What a callback writes while the output is open. A block writes the end if the limit is reached, else what
      is due: a sample (2), then a snapshot. A watch hit (4) is followed by the guest's own event (11) if there
      is one, and by a snapshot if the watch asks for one and the throttle lets it through. A vCPU that goes down
      is the last occasion for a snapshot, and recorded (8) after it. */
  ghost predicate Writes(c: Setup, s: State, cb: Callback, recs: seq<Rec>) {
    match cb
    case BlockStart(vcpu, insn, total, flags, sample, g, sought) =>
      if LimitReached(c, insn) then EndWrites(s, total, recs)
      else if insn < s.timer.nextSample && insn < s.timer.nextSnap then recs == []
      else
        AndSnapshot(c, s, SnapshotDue(c, s, insn), vcpu, insn, g, sought,
                    if SampleDue(c, s, insn) then [Rec(2, vcpu % 256, flags, insn, sample)] else [], [], recs)
    case LockedBlock(vcpu, insn, flags, sample, g, sought) =>
      AndSnapshot(c, s, SnapshotDue(c, s, insn), vcpu, insn, g, sought,
                  if SampleDue(c, s, insn) then [Rec(2, vcpu % 256, flags, insn, sample)] else [], [], recs)
    case Hit(vcpu, insn, flags, hit, nftrace, snap, throttle, g, sought) =>
      AndSnapshot(c, s, EventDue(c, s, insn, snap, throttle), vcpu, insn, g, sought,
                  [Rec(4, vcpu % 256, flags, insn, hit)]
                  + (if nftrace.Some? then [Rec(11, vcpu % 256, 0, insn, nftrace.value)] else []), [], recs)
    case Dropped => recs == []
    case Other(rec) => recs == [rec]
    case VcpuExit(vcpu, insn, g, sought) =>
      AndSnapshot(c, s, c.config.snapEvery > 0 && !s.finalSnapDone, vcpu, insn, g, sought, [],
                  [Rec(8, vcpu % 256, 0, insn, [0, 0, 0, 0])], recs)
    case AtExit(total) => EndWrites(s, total, recs)
  }

  /** A watch asks for a snapshot, and the throttle, if the watch has one, lets it through: it has taken fewer
      than its maximum, and the last one, if there was one, is far enough back, by the 64-bit difference. */
  predicate EventDue(c: Setup, s: State, insn: nat, snap: bool, throttle: bool) {
    && snap && c.config.snapEvery > 0
    && (throttle ==>
          && s.events.taken < c.evSnapMax
          && (s.events.last == 0 || (insn - s.events.last) % 0x1_0000_0000_0000_0000 >= c.evSnapMin))
  }

  /** What is written in front of a snapshot, with the snapshot. */
  lemma WithSnapshot(c: Setup, s: State, s': State, vcpu: nat, insn: nat, g: Guest, sought: bool, first: seq<Rec>,
                     due: bool)
    returns (recs: seq<Rec>)
    requires s'.have == s.have && s'.counts.snapshots == s.counts.snapshots && s'.ramBytes == s.ramBytes
    requires s'.live == s.live && s'.log == s.log + first
    ensures AndSnapshot(c, s, due, vcpu, insn, g, sought, first, [], recs)
    ensures (if due then AfterSnapshot(c, s', vcpu, insn, g, sought) else s').log == s.log + recs
  {
    hide SnapshotWrites;
    hide Reach;
    if due && s.live {
      var middle := SnapshotSays(c, s', vcpu, insn, g, sought);
      recs := first + middle + [];
      assert recs == first + middle;
      assert (s.log + first) + middle == s.log + (first + middle);
    } else {
      hide AfterSnapshot;
      NotLive(c, s', vcpu, insn, g, sought);
      recs := first + [];
      assert recs == first;
    }
  }

  lemma NotLive(c: Setup, s: State, vcpu: nat, insn: nat, g: Guest, sought: bool)
    ensures !s.live ==> AfterSnapshot(c, s, vcpu, insn, g, sought) == s
  {
  }

  lemma RecordAdds(s: State, r: Rec)
    ensures var t := AfterRecord(s, r);
            && t.log == (if s.outOpen then s.log + [r] else s.log)
            && t.have == s.have && t.counts.snapshots == s.counts.snapshots && t.ramBytes == s.ramBytes
            && t.live == s.live && t.outOpen == s.outOpen && t.timer == s.timer && t.events == s.events
  {
  }

  lemma LockedWrites(c: Setup, s: State, cb: Callback) returns (recs: seq<Rec>)
    requires cb.LockedBlock? && s.outOpen
    ensures Writes(c, s, cb, recs) && After(c, s, cb).log == s.log + recs
  {
    hide AfterSnapshot;
    hide AfterRecord;
    hide AndSnapshot;
    hide Scheduler.Interval;
    var r := Rec(2, cb.vcpu % 256, cb.flags, cb.insn, cb.sample);
    RecordAdds(s, r);
    var tick := Scheduler.LockedCheck(c.config, s.timer, cb.insn);
    var s1 := if tick.sampled then AfterRecord(s, r) else s;
    var first := if SampleDue(c, s, cb.insn) then [r] else [];
    assert s.log + [] == s.log;
    recs := WithSnapshot(c, s, s1.(timer := tick.timer), cb.vcpu, cb.insn, cb.g, cb.seekOk, first,
                         SnapshotDue(c, s, cb.insn));
  }

  lemma HitWrites(c: Setup, s: State, cb: Callback) returns (recs: seq<Rec>)
    requires cb.Hit? && s.outOpen
    ensures Writes(c, s, cb, recs) && After(c, s, cb).log == s.log + recs
  {
    hide AfterSnapshot;
    hide AfterRecord;
    hide AndSnapshot;
    var r1 := Rec(4, cb.vcpu % 256, cb.flags, cb.insn, cb.hit);
    RecordAdds(s, r1);
    var s1 := AfterRecord(s, r1);
    var s2, first := s1, [r1] + [];
    if cb.nftrace.Some? {
      var r2 := Rec(11, cb.vcpu % 256, 0, cb.insn, cb.nftrace.value);
      RecordAdds(s1, r2);
      s2, first := AfterRecord(s1, r2), [r1] + [r2];
      assert (s.log + [r1]) + [r2] == s.log + ([r1] + [r2]);
    }
    var due := EventDue(c, s, cb.insn, cb.snap, cb.throttle);
    var s3 := if due && cb.throttle then s2.(events := Scheduler.EventThrottle(s.events.taken + 1, cb.insn)) else s2;
    recs := WithSnapshot(c, s, s3, cb.vcpu, cb.insn, cb.g, cb.seekOk, first, due);
  }

  lemma ExitWrites(c: Setup, s: State, cb: Callback) returns (recs: seq<Rec>)
    requires cb.VcpuExit? && s.outOpen
    ensures Writes(c, s, cb, recs) && After(c, s, cb).log == s.log + recs
  {
    hide AfterSnapshot;
    hide AfterRecord;
    hide SnapshotWrites;
    hide Reach;
    var due := c.config.snapEvery > 0 && !s.finalSnapDone;
    var r := Rec(8, cb.vcpu % 256, 0, cb.insn, [0, 0, 0, 0]);
    assert Pack(0, 4) == [0, 0, 0, 0];
    var s0 := s.(finalSnapDone := true);
    var s1 := if due then AfterSnapshot(c, s0, cb.vcpu, cb.insn, cb.g, cb.seekOk) else s;
    StaysOpen(c, s0, cb.vcpu, cb.insn, cb.g, cb.seekOk);
    RecordAdds(s1, r);
    assert s.log + [] == s.log;
    if due && s.live {
      var middle := SnapshotSays(c, s0, cb.vcpu, cb.insn, cb.g, cb.seekOk);
      recs := [] + middle + [r];
      assert [] + middle == middle && (s.log + middle) + [r] == s.log + (middle + [r]);
    } else {
      NotLive(c, s0, cb.vcpu, cb.insn, cb.g, cb.seekOk);
      recs := [] + [r];
      assert recs == [r];
    }
  }

  lemma StaysOpen(c: Setup, s: State, vcpu: nat, insn: nat, g: Guest, sought: bool)
    ensures AfterSnapshot(c, s, vcpu, insn, g, sought).outOpen == s.outOpen
  {
    SnapshotMoves(c, s, vcpu, insn, g, sought);
  }

  lemma FourNotes()
    ensures |Notes(4)| == 4 && forall k :: 0 <= k < 4 ==> Notes(4)[k].rtype == 1
  {
    assert Notes(1) == Notes(0) + [Rec(META, 0, 0, 0, TEXT)];
    assert Notes(2) == Notes(1) + [Rec(META, 0, 0, 0, TEXT)];
    assert Notes(3) == Notes(2) + [Rec(META, 0, 0, 0, TEXT)];
  }

  lemma EndLayout()
    ensures END_FIELDS == [8, 8, 8, 8, 8, 8, 4, 4, 8]
  {
    assert Quads(1) == [8] && Quads(2) == [8, 8] && Quads(3) == [8, 8, 8];
    assert Quads(4) == [8, 8, 8, 8] && Quads(5) == [8, 8, 8, 8, 8] && Quads(6) == [8, 8, 8, 8, 8, 8];
  }

  lemma FinishWrites(c: Setup, s: State, total: nat) returns (recs: seq<Rec>)
    requires s.outOpen
    ensures EndWrites(s, total, recs) && AfterFinish(s, total).log == s.log + recs
  {
    hide Notes;
    hide PackFields;
    FourNotes();
    EndLayout();
    var end := EndRec(total, s.counts, s.ramBytes, s.truncated, s.watchDrops);
    recs := Notes(4) + [end];
    assert s.log + Notes(4) + [end] == s.log + (Notes(4) + [end]);
  }

  /** What every callback writes while the output is open; once it is closed, nothing. */
  lemma CallbackWrites(c: Setup, s: State, cb: Callback) returns (recs: seq<Rec>)
    requires Allowed(c, s, cb)
    ensures After(c, s, cb).log == s.log + recs
    ensures if s.outOpen then Writes(c, s, cb, recs) else recs == []
  {
    hide AfterSnapshot;
    hide AndSnapshot;
    if !s.outOpen {
      recs := [];
      ClosedWritesNothing(c, s, cb);
      assert s.log + [] == s.log;
    } else {
      match cb
      case BlockStart(vcpu, insn, total, flags, sample, g, sought) =>
        if LimitReached(c, insn) {
          recs := FinishWrites(c, s, total);
        } else if insn < s.timer.nextSample && insn < s.timer.nextSnap {
          recs := [];
          assert s.log + [] == s.log;
        } else {
          recs := LockedWrites(c, s, LockedBlock(vcpu, insn, flags, sample, g, sought));
        }
      case LockedBlock(_, _, _, _, _, _) => recs := LockedWrites(c, s, cb);
      case Hit(_, _, _, _, _, _, _, _, _) => recs := HitWrites(c, s, cb);
      case Dropped =>
        recs := [];
        assert s.log + [] == s.log;
      case Other(rec) =>
        RecordAdds(s, rec);
        recs := [rec];
      case VcpuExit(_, _, _, _) => recs := ExitWrites(c, s, cb);
      case AtExit(total) => recs := FinishWrites(c, s, total);
    }
  }

  lemma ClosedWritesNothing(c: Setup, s: State, cb: Callback)
    requires !s.outOpen && Allowed(c, s, cb)
    ensures After(c, s, cb).log == s.log
  {
    hide AfterSnapshot;
    hide Counted;
    var insn := if cb.BlockStart? || cb.LockedBlock? || cb.Hit? || cb.VcpuExit? then cb.insn else 0;
    forall t: State, vcpu: nat, g: Guest, sought: bool | !t.live
      ensures AfterSnapshot(c, t, vcpu, insn, g, sought) == t
    {
      NotLive(c, t, vcpu, insn, g, sought);
    }
  }

  /** The next sample is due a sampling interval after the count seen; the next snapshot a snapshot interval,
      which during the boot phase is that of the boot phase, if one is set. */
  ghost predicate Scheduled(c: Setup, s: State, t: State, insn: nat) {
    && t.timer.nextSample == (if SampleDue(c, s, insn) then (insn + c.config.sampleEvery) % 0x1_0000_0000_0000_0000
                              else s.timer.nextSample)
    && t.timer.nextSnap
       == (if SnapshotDue(c, s, insn) then
             (insn + if insn < c.config.snapStart && c.config.bootSnapEvery > 0 then c.config.bootSnapEvery
                     else c.config.snapEvery) % 0x1_0000_0000_0000_0000
           else s.timer.nextSnap)
    && (t.timer.startSnapDone <==>
          s.timer.startSnapDone || (c.config.snapEvery > 0 && c.config.snapStart > 0 && insn >= c.config.snapStart))
  }

  ghost predicate SameSchedule(s: State, t: State) {
    t.timer == s.timer && t.events == s.events && t.finalSnapDone == s.finalSnapDone && t.watchDrops == s.watchDrops
  }

  /** What a callback does to the schedule, the throttle and the other marks. */
  ghost predicate Schedules(c: Setup, s: State, t: State, cb: Callback) {
    match cb
    case BlockStart(_, insn, _, _, _, _, _) =>
      if LimitReached(c, insn) || (insn < s.timer.nextSample && insn < s.timer.nextSnap) then SameSchedule(s, t)
      else Scheduled(c, s, t, insn) && SameSchedule(s, t.(timer := s.timer))
    case LockedBlock(_, insn, _, _, _, _) => Scheduled(c, s, t, insn) && SameSchedule(s, t.(timer := s.timer))
    case Hit(_, insn, _, _, _, snap, throttle, _, _) =>
      && SameSchedule(s, t.(events := s.events))
      && t.events == if EventDue(c, s, insn, snap, throttle) && throttle
                     then Scheduler.EventThrottle(s.events.taken + 1, insn) else s.events
    case Dropped => SameSchedule(s, t.(watchDrops := s.watchDrops)) && t.watchDrops == s.watchDrops + 1
    case Other(_) => SameSchedule(s, t)
    case VcpuExit(_, _, _, _) =>
      && SameSchedule(s, t.(finalSnapDone := s.finalSnapDone))
      && (t.finalSnapDone <==> s.finalSnapDone || c.config.snapEvery > 0)
    case AtExit(_) => SameSchedule(s, t)
  }

  lemma SnapshotAside(c: Setup, s: State, vcpu: nat, insn: nat, g: Guest, sought: bool)
    ensures SameSchedule(s, AfterSnapshot(c, s, vcpu, insn, g, sought))
  {
    hide Total;
    hide Reach;
    hide Held;
    hide PageRecs;
    hide Mark;
    hide Warnings;
  }

  lemma RecordAside(s: State, r: Rec)
    ensures SameSchedule(s, AfterRecord(s, r))
  {
    hide Counted;
  }

  lemma TimerSays(c: Setup, s: State, t: State, insn: nat)
    requires t.timer == Scheduler.LockedCheck(c.config, s.timer, insn).timer
    ensures Scheduled(c, s, t, insn)
  {
  }

  lemma LockedSchedules(c: Setup, s: State, cb: Callback)
    requires cb.LockedBlock?
    ensures Schedules(c, s, After(c, s, cb), cb)
  {
    hide AfterSnapshot;
    hide AfterRecord;
    hide Scheduled;
    var r := Rec(SAMPLE, cb.vcpu % 256, cb.flags, cb.insn, cb.sample);
    RecordAside(s, r);
    var tick := Scheduler.LockedCheck(c.config, s.timer, cb.insn);
    hide Scheduler.LockedCheck;
    var s1 := if tick.sampled then AfterRecord(s, r) else s;
    SnapshotAside(c, s1.(timer := tick.timer), cb.vcpu, cb.insn, cb.g, cb.seekOk);
    TimerSays(c, s, After(c, s, cb), cb.insn);
  }

  /** Every callback schedules what comes next as it should. */
  lemma CallbackSchedules(c: Setup, s: State, cb: Callback)
    ensures Schedules(c, s, After(c, s, cb), cb)
  {
    hide AfterSnapshot;
    hide AfterRecord;
    hide EndRec;
    hide Notes;
    hide Scheduled;
    match cb
    case BlockStart(vcpu, insn, _, flags, sample, g, sought) =>
      LockedSchedules(c, s, LockedBlock(vcpu, insn, flags, sample, g, sought));
    case LockedBlock(_, _, _, _, _, _) => LockedSchedules(c, s, cb);
    case Hit(vcpu, insn, flags, hit, nftrace, _, throttle, g, sought) =>
      var r1 := Rec(WATCHPC, vcpu % 256, flags, insn, hit);
      RecordAside(s, r1);
      var s1 := AfterRecord(s, r1);
      var r2 := Rec(NFTRACE, vcpu % 256, 0, insn, if nftrace.Some? then nftrace.value else []);
      RecordAside(s1, r2);
      var s2 := if nftrace.Some? then AfterRecord(s1, r2) else s1;
      SnapshotAside(c, if throttle then s2.(events := Scheduler.EventThrottle(s2.events.taken + 1, insn)) else s2,
                    vcpu, insn, g, sought);
    case Dropped =>
    case Other(rec) => RecordAside(s, rec);
    case VcpuExit(vcpu, insn, g, sought) =>
      var s0 := s.(finalSnapDone := true);
      SnapshotAside(c, s0, vcpu, insn, g, sought);
      RecordAside(AfterSnapshot(c, s0, vcpu, insn, g, sought), Rec(VCPU, vcpu % 256, 0, insn, Pack(0, 4)));
      RecordAside(s, Rec(VCPU, vcpu % 256, 0, insn, Pack(0, 4)));
    case AtExit(_) =>
  }

  /** Before anything is run: nothing is written, nothing held; the first sample is due after a sampling interval,
      the first snapshot after one of the boot phase, if that is set. */
  lemma InitialSays(c: Setup)
    ensures var s := Initial(c);
            && s.log == [] && s.outOpen && !s.truncated && s.ramBytes == 0 && (s.live <==> c.config.snapEvery > 0)
            && |s.have| == c.ramSize / 4096 % 0x1_0000_0000 && (forall i :: 0 <= i < |s.have| ==> s.have[i] == None)
            && s.counts.snapshots == 0 && s.watchDrops == 0 && s.events.taken == 0 && s.events.last == 0
            && !s.finalSnapDone && !s.timer.startSnapDone
            && (c.config.sampleEvery > 0 ==> s.timer.nextSample == c.config.sampleEvery)
            && (c.config.snapEvery > 0 ==>
                  s.timer.nextSnap == if c.config.bootSnapEvery > 0 then c.config.bootSnapEvery else c.config.snapEvery)
            && (c.config.sampleEvery == 0 ==> s.timer.nextSample == 0xFFFF_FFFF_FFFF_FFFF)
            && (c.config.snapEvery == 0 ==> s.timer.nextSnap == 0xFFFF_FFFF_FFFF_FFFF)
  {
  }

  // ------------------------------------------------------------------ whole runs

  function Concat(parts: seq<seq<Rec>>): seq<Rec> {
    if parts == [] then [] else Concat(parts[..|parts| - 1]) + parts[|parts| - 1]
  }

  /** What each callback of a run writes. */
  ghost predicate RunWrites(c: Setup, s: State, cbs: seq<Callback>, parts: seq<seq<Rec>>) {
    && |parts| == |cbs|
    && forall k :: 0 <= k < |cbs| ==> CallWrites(c, Run(c, s, cbs[..k]), cbs[k], parts[k])
  }

  ghost predicate CallWrites(c: Setup, s: State, cb: Callback, recs: seq<Rec>) {
    if s.outOpen then Writes(c, s, cb, recs) else recs == []
  }

  lemma OneCallWrites(c: Setup, s: State, cb: Callback) returns (recs: seq<Rec>)
    requires Allowed(c, s, cb)
    ensures After(c, s, cb).log == s.log + recs && CallWrites(c, s, cb, recs)
  {
    hide After;
    hide Writes;
    recs := CallbackWrites(c, s, cb);
  }

  lemma ConcatNext(parts: seq<seq<Rec>>, last: seq<Rec>)
    ensures Concat(parts + [last]) == Concat(parts) + last
  {
    assert (parts + [last])[..|parts|] == parts;
  }

  lemma NextWrites(c: Setup, s: State, cbs: seq<Callback>, cb: Callback, parts: seq<seq<Rec>>, last: seq<Rec>)
    requires RunWrites(c, s, cbs, parts) && CallWrites(c, Run(c, s, cbs), cb, last)
    ensures RunWrites(c, s, cbs + [cb], parts + [last])
  {
    hide CallWrites;
    hide Run;
    var n, more, all := |cbs|, cbs + [cb], parts + [last];
    assert more[..n] == cbs;
    forall k | 0 <= k < n + 1
      ensures CallWrites(c, Run(c, s, more[..k]), more[k], all[k])
    {
      if k < n {
        assert more[..k] == cbs[..k] && more[k] == cbs[k] && all[k] == parts[k];
      }
    }
  }

  lemma AllowedBefore(c: Setup, s: State, cbs: seq<Callback>, cb: Callback)
    requires AllAllowed(c, s, cbs + [cb])
    ensures AllAllowed(c, s, cbs) && Allowed(c, Run(c, s, cbs), cb)
  {
    hide Allowed;
    hide Run;
    var n, more := |cbs|, cbs + [cb];
    assert more[..n] == cbs && more[n] == cb;
    forall k | 0 <= k < n
      ensures Allowed(c, Run(c, s, cbs[..k]), cbs[k])
    {
      assert more[..k] == cbs[..k] && more[k] == cbs[k];
    }
  }

  lemma NothingRun(c: Setup, s: State)
    ensures RunWrites(c, s, [], []) && Run(c, s, []).log == s.log + Concat([])
  {
    assert s.log + [] == s.log;
  }

  /** The log of a run in which every callback is allowed is what its callbacks write, one after another. */
  lemma {:induction false} LogOfRun(c: Setup, s: State, cbs: seq<Callback>) returns (parts: seq<seq<Rec>>)
    requires AllAllowed(c, s, cbs)
    ensures RunWrites(c, s, cbs, parts) && Run(c, s, cbs).log == s.log + Concat(parts)
    decreases |cbs|
  {
    hide After;
    hide CallWrites;
    hide Allowed;
    hide Run;
    hide RunWrites;
    hide AllAllowed;
    hide Concat;
    if cbs == [] {
      parts := [];
      NothingRun(c, s);
    } else {
      var n := |cbs| - 1;
      var before, cb := cbs[..n], cbs[n];
      assert cbs == before + [cb] && cbs[..n + 1] == cbs;
      AllowedBefore(c, s, before, cb);
      var first := LogOfRun(c, s, before);
      var last := OneCallWrites(c, Run(c, s, before), cb);
      parts := first + [last];
      NextWrites(c, s, before, cb, first, last);
      RunStep(c, s, cbs, n);
      ConcatNext(first, last);
      assert (s.log + Concat(first)) + last == s.log + (Concat(first) + last);
    }
  }
}
