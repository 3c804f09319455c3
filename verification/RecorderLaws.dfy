/** What every run of the recording plugin keeps: the host can follow it, the budget holds, the counters
    count, and nothing follows the END record. */
module RecorderLaws {
  import opened Arithmetic
  import opened Wrappers
  import opened LittleEndian
  import opened TraceFile
  import opened RamImage
  import opened HostReplay
  import opened Recorder
  import Scheduler

  // ------------------------------------------------------------------ tallies of a log

  function Count(log: seq<Rec>, rtype: nat): nat {
    if log == [] then 0
    else Count(log[..|log| - 1], rtype) + if log[|log| - 1].rtype == rtype then 1 else 0
  }

  function BodyOf(r: Rec): nat {
    if r.rtype == RAMPAGE && |r.payload| >= RAMPAGE_SIZE then |r.payload| - RAMPAGE_SIZE else 0
  }

  /** The page bytes stored in the log. */
  function BodyBytes(log: seq<Rec>): nat {
    if log == [] then 0
    else BodyBytes(log[..|log| - 1]) + BodyOf(log[|log| - 1])
  }

  lemma TalliesAppend(log: seq<Rec>, r: Rec)
    ensures forall rtype :: Count(log + [r], rtype) == Count(log, rtype) + if r.rtype == rtype then 1 else 0
    ensures BodyBytes(log + [r]) == BodyBytes(log) + BodyOf(r)
  {
    assert (log + [r])[..|log|] == log;
  }

  /** No END record yet, and each counter counts its records. */
  ghost predicate Balanced(log: seq<Rec>, n: Counts) {
    && Count(log, END) == 0
    && n.snapshots == Count(log, SNAPMARK)
    && n.samples == Count(log, SAMPLE)
    && n.discons == Count(log, DISCON)
    && n.watchHits == Count(log, WATCHPC)
    && n.returned == Count(log, RETURN)
  }

  lemma BalancedAppend(log: seq<Rec>, r: Rec, n: Counts)
    requires Balanced(log, n) && r.rtype != SNAPMARK && r.rtype != END
    ensures Balanced(log + [r], Counted(n, r))
  {
    TalliesAppend(log, r);
  }

  lemma BalancedAside(log: seq<Rec>, r: Rec, n: Counts)
    requires Balanced(log, n) && (r.rtype == WARN || r.rtype == META || r.rtype == RAMPAGE)
    ensures Balanced(log + [r], n)
  {
    TalliesAppend(log, r);
  }

  /** This END record counts the records of the log before it. */
  ghost predicate Ends(before: seq<Rec>, end: Rec, total: nat, n: Counts, truncated: bool, drops: nat) {
    Balanced(before, n) && end == EndRec(total, n, BodyBytes(before) % U64, truncated, drops)
  }

  /** The log ends in its only END record, and that record counts the records before it. */
  ghost predicate Closed(log: seq<Rec>) {
    log != [] && IsEnd(log[..|log| - 1], log[|log| - 1])
  }

  ghost predicate IsEnd(before: seq<Rec>, end: Rec) {
    exists total: nat, n: Counts, truncated: bool, drops: nat :: Ends(before, end, total, n, truncated, drops)
  }

  // ------------------------------------------------------------------ the host's view

  /** The image is what the plugin takes the host to hold. */
  ghost predicate Shows(image: Ram, have: Holding) {
    && image.Valid() && |have| <= |image.seen|
    && forall i :: 0 <= i < |have| ==> have[i] == if image.seen[i] then Some(image.PageAt(i)) else None
  }

  /** Loading and replaying the log gives the host exactly that. */
  ghost predicate Hosted(c: Setup, log: seq<Rec>, have: Holding) {
    && HostView(log, c.codec, c.ramBase, c.ramSize).Some?
    && Shows(HostView(log, c.codec, c.ramBase, c.ramSize).value, have)
  }

  /** Records fit their headers; the byte counter counts the stored page bytes and, unless the limit is
      within one page of 2^64, keeps them within the limit. */
  ghost predicate WithinBudget(c: Setup, log: seq<Rec>, ramBytes: nat) {
    && AllFit(log)
    && ramBytes == BodyBytes(log) % U64
    && (c.maxRamBytes + PGSIZE < U64 ==> BodyBytes(log) <= c.maxRamBytes)
  }

  /** The open snapshot has no page from `below` on yet. */
  ghost predicate SnapOpen(log: seq<Rec>, codec: Codec, below: nat) {
    && LogTrace(log, codec).Ok?
    && var snaps := LogTrace(log, codec).value.snaps;
       snaps != [] && PagesBelow(snaps[|snaps| - 1].pages, below)
  }

  lemma SnapOpenWeaker(log: seq<Rec>, codec: Codec, below: nat)
    requires SnapOpen(log, codec, below)
    ensures SnapOpen(log, codec, below + 1)
  {
    hide LogTrace;
  }

  lemma FitsIntro(r: Rec)
    requires r.rtype < 256 && r.cpu < 256 && |r.payload| < 65536 && r.flags < 0x1_0000_0000 && r.insn < U64
    ensures Fits(r)
  {
    assert Pow256(1) == 256 && Pow256(2) == 65536 && Pow256(4) == 0x1_0000_0000;
    assert Pow256(8) == U64;
  }

  /** A record that is neither a page nor a mark changes nothing on the host. */
  lemma PlainKept(c: Setup, log: seq<Rec>, have: Holding, ramBytes: nat, r: Rec)
    requires Hosted(c, log, have) && WithinBudget(c, log, ramBytes) && Plain(r) && Fits(r)
    ensures Hosted(c, log + [r], have) && WithinBudget(c, log + [r], ramBytes)
  {
    hide Fits;
    hide LogTrace;
    hide Shows;
    PlainAppend(log, r, c.codec);
    TalliesAppend(log, r);
  }

  /** `after` is `before` with page `idx` observed as `page`. */
  ghost predicate Absorbed(before: Ram, after: Ram, idx: nat, page: seq<byte>) {
    && before.Valid() && after.Valid() && idx < |before.seen|
    && after.base == before.base && after.size == before.size
    && after.seen == before.seen[idx := true]
    && after.PageAt(idx) == page
    && forall j :: 0 <= j < |before.seen| && j != idx ==> after.PageAt(j) == before.PageAt(j)
  }

  /** A stored page brings the host's image up to date. */
  lemma StorePage(log: seq<Rec>, cpu: nat, insn: nat, idx: nat, flags: nat, body: seq<byte>, page: seq<byte>,
                  codec: Codec, image: Ram)
    requires image.Valid() && HostView(log, codec, image.base, image.size) == Some(image)
    requires codec.Lossless() && Stores(flags, body, page, codec) && SnapOpen(log, codec, idx)
    requires cpu < 256 && insn < U64 && idx < |image.seen| && idx < 0x1_0000_0000
    requires |page| == PGSIZE && |body| <= PGSIZE
    ensures var r, after := PageRec(cpu, insn, idx, flags, body), image.ApplyPage(idx, page).0;
            && Fits(r) && BodyOf(r) == |body|
            && HostView(log + [r], codec, image.base, image.size) == Some(after)
            && SnapOpen(log + [r], codec, idx + 1)
            && Absorbed(image, after, idx, page)
  {
    var r := PageRec(cpu, insn, idx, flags, body);
    PageRecDecodes(cpu, insn, idx, flags, body, page, codec);
    hide PackFields;
    hide Fields;
    FitsIntro(r);
    PageAppend(log, cpu, insn, idx, flags, body, page, codec);
    hide LogTrace;
    var snaps := LogTrace(log, codec).value.snaps;
    ReplayAddPage(Fresh(image.base, image.size), snaps, idx, page);
    UpsertFresh(snaps[|snaps| - 1].pages, idx, Bytes(page));
    ApplyWholePage(image, idx, page);
  }

  lemma WrapAdd(x: nat, y: nat)
    ensures (x % U64 + y) % U64 == (x + y) % U64
  {
    var q := x / U64;
    assert x + y == (x % U64 + y) + q * U64;
  }

  lemma BudgetStep(c: Setup, log: seq<Rec>, ramBytes: nat, r: Rec)
    requires WithinBudget(c, log, ramBytes) && Fits(r) && BodyOf(r) <= PGSIZE
    requires Admits(c.maxRamBytes, ramBytes, BodyOf(r)) && c.maxRamBytes < U64
    ensures WithinBudget(c, log + [r], (ramBytes + BodyOf(r)) % U64)
  {
    hide Fits;
    TalliesAppend(log, r);
    WrapAdd(BodyBytes(log), BodyOf(r));
  }

  lemma ShowsStep(before: Ram, after: Ram, have: Holding, idx: nat, page: seq<byte>)
    requires Shows(before, have) && Absorbed(before, after, idx, page) && idx < |have|
    ensures Shows(after, have[idx := Some(page)])
  {
  }

  /** One page of a snapshot. */
  lemma PageKept(c: Setup, log: seq<Rec>, have: Holding, ramBytes: nat, vcpu: nat, insn: nat, i: nat, page: seq<byte>)
    requires c.Ok() && Hosted(c, log, have) && WithinBudget(c, log, ramBytes) && SnapOpen(log, c.codec, i)
    requires i < |have| == c.PageCount() && insn < U64 && |page| == PGSIZE
    requires Admits(c.maxRamBytes, ramBytes, |Packed(c.codec, page).body|)
    ensures var s := Packed(c.codec, page);
            var log' := log + [PageRec(vcpu % 256, insn, i, s.flags, s.body)];
            && Hosted(c, log', have[i := Some(page)])
            && WithinBudget(c, log', (ramBytes + |s.body|) % U64) && SnapOpen(log', c.codec, i + 1)
  {
    hide LogTrace;
    hide Fits;
    hide SnapOpen;
    hide HostView;
    hide PagesBelow;
    hide AllFit;
    var s := Packed(c.codec, page);
    var image := HostView(log, c.codec, c.ramBase, c.ramSize).value;
    StorePage(log, vcpu % 256, insn, i, s.flags, s.body, page, c.codec, image);
    BudgetStep(c, log, ramBytes, PageRec(vcpu % 256, insn, i, s.flags, s.body));
    ShowsStep(image, image.ApplyPage(i, page).0, have, i, page);
  }

  /** The host follows the log, which has an open snapshot without pages from `below` on. */
  ghost predicate Followed(c: Setup, log: seq<Rec>, have: Holding, ramBytes: nat, n: Counts, below: nat) {
    Hosted(c, log, have) && WithinBudget(c, log, ramBytes) && SnapOpen(log, c.codec, below) && Balanced(log, n)
  }

  /** One more page of the sweep. */
  lemma NextPageKept(c: Setup, start: seq<Rec>, have: Holding, total: nat, n: Counts,
                     vcpu: nat, insn: nat, g: Guest, i: nat)
    requires c.Ok() && i < |have| == c.PageCount() && insn < U64 && g.WholePages() && !Overruns(c, have, g, total, i)
    requires Followed(c, start + PageRecs(c, have, g, vcpu, insn, i), Held(have, g, i),
                      Total(c, have, g, total, i), n, i)
    ensures Followed(c, start + PageRecs(c, have, g, vcpu, insn, i + 1), Held(have, g, i + 1),
                    Total(c, have, g, total, i + 1), n, i + 1)
  {
    hide Hosted;
    hide WithinBudget;
    hide SnapOpen;
    hide Balanced;
    hide Packed;
    hide Held;
    var log := start + PageRecs(c, have, g, vcpu, insn, i);
    HeldNext(have, g, i);
    if Differs(have, g, i) {
      PageKept(c, log, Held(have, g, i), Total(c, have, g, total, i), vcpu, insn, i, g.page(i));
      var s := Packed(c.codec, g.page(i));
      var r := PageRec(vcpu % 256, insn, i, s.flags, s.body);
      BalancedAside(log, r, n);
      assert start + PageRecs(c, have, g, vcpu, insn, i + 1) == log + [r];
    } else {
      SnapOpenWeaker(log, c.codec, i);
      assert start + PageRecs(c, have, g, vcpu, insn, i + 1) == log;
    }
  }

  lemma NothingRead(c: Setup, start: seq<Rec>, have: Holding, g: Guest, total: nat, vcpu: nat, insn: nat)
    ensures Held(have, g, 0) == have && Total(c, have, g, total, 0) == total
    ensures start + PageRecs(c, have, g, vcpu, insn, 0) == start
  {
  }

  /** The pages of a snapshot, up to any point it gets to. */
  lemma {:induction false} PagesKept(c: Setup, start: seq<Rec>, have: Holding, total: nat, n: Counts,
                                     vcpu: nat, insn: nat, g: Guest, upTo: nat)
    requires c.Ok() && |have| == c.PageCount() && insn < U64 && g.WholePages() && Followed(c, start, have, total, n, 0)
    requires upTo <= |have| && forall k :: 0 <= k < upTo ==> !Overruns(c, have, g, total, k)
    ensures Followed(c, start + PageRecs(c, have, g, vcpu, insn, upTo), Held(have, g, upTo),
                     Total(c, have, g, total, upTo), n, upTo)
  {
    hide Followed;
    hide Overruns;
    hide Held;
    hide Total;
    hide PageRecs;
    if upTo == 0 {
      NothingRead(c, start, have, g, total, vcpu, insn);
    } else {
      PagesKept(c, start, have, total, n, vcpu, insn, g, upTo - 1);
      NextPageKept(c, start, have, total, n, vcpu, insn, g, upTo - 1);
    }
  }

  lemma HeldNext(have: Holding, g: Guest, i: nat)
    requires i < |have|
    ensures Held(have, g, i + 1)
            == if Differs(have, g, i) then Held(have, g, i)[i := Some(g.page(i))] else Held(have, g, i)
  {
  }

  // ------------------------------------------------------------------ the invariant

  ghost predicate Inv(c: Setup, s: State) {
    && c.Ok() && |s.have| == c.PageCount()
    && (s.truncated ==> !s.live)
    && Hosted(c, s.log, s.have) && WithinBudget(c, s.log, s.ramBytes)
    && (if s.outOpen then Balanced(s.log, s.counts) else Closed(s.log))
    && s.events.taken <= c.evSnapMax
  }

  lemma MarkKept(c: Setup, s: State, mark: Rec)
    requires Hosted(c, s.log, s.have) && WithinBudget(c, s.log, s.ramBytes) && Balanced(s.log, s.counts)
    requires mark.rtype == SNAPMARK && Size(SNAPMARK_FIELDS) <= |mark.payload| && Fits(mark)
    ensures var log := s.log + [mark];
            && Hosted(c, log, s.have) && WithinBudget(c, log, s.ramBytes) && SnapOpen(log, c.codec, 0)
            && Balanced(log, s.counts.(snapshots := s.counts.snapshots + 1))
  {
    hide Fits;
    hide Shows;
    MarkAppend(s.log, mark, c.codec, c.ramBase, c.ramSize);
    hide LogTrace;
    hide HostView;
    TalliesAppend(s.log, mark);
  }

  lemma WarningKept(c: Setup, log: seq<Rec>, have: Holding, ramBytes: nat, n: Counts, insn: nat)
    requires Hosted(c, log, have) && WithinBudget(c, log, ramBytes) && Balanced(log, n) && insn < U64
    ensures var log' := log + [Warning(insn)];
            Hosted(c, log', have) && WithinBudget(c, log', ramBytes) && Balanced(log', n)
  {
    hide Hosted;
    hide WithinBudget;
    hide Balanced;
    FitsIntro(Warning(insn));
    PlainKept(c, log, have, ramBytes, Warning(insn));
    BalancedAside(log, Warning(insn), n);
  }

  lemma WarningsKept(c: Setup, log: seq<Rec>, have: Holding, ramBytes: nat, n: Counts, insn: nat, truncated: bool,
                     incomplete: bool)
    requires Hosted(c, log, have) && WithinBudget(c, log, ramBytes) && Balanced(log, n) && insn < U64
    ensures var log' := log + Warnings(insn, truncated, incomplete);
            Hosted(c, log', have) && WithinBudget(c, log', ramBytes) && Balanced(log', n)
  {
    hide Hosted;
    hide WithinBudget;
    hide Balanced;
    hide Warning;
    var mid := log;
    if truncated {
      WarningKept(c, log, have, ramBytes, n, insn);
      mid := log + [Warning(insn)];
    }
    if incomplete {
      WarningKept(c, mid, have, ramBytes, n, insn);
      assert log + Warnings(insn, truncated, incomplete) == mid + [Warning(insn)];
    } else {
      assert log + Warnings(insn, truncated, incomplete) == mid;
    }
  }

  lemma MarkFits(c: Setup, s: State, vcpu: nat, insn: nat, g: Guest, upTo: nat, sought: bool)
    requires insn < U64
    ensures var mark := Mark(c, s, vcpu, insn, g, upTo, sought);
            mark.rtype == SNAPMARK && |mark.payload| == Size(SNAPMARK_FIELDS) && Fits(mark)
  {
    LayoutSizes();
    hide PackFields;
    hide Size;
    hide PageRecs;
    FitsIntro(Mark(c, s, vcpu, insn, g, upTo, sought));
  }

  lemma SnapshotInv(c: Setup, s: State, vcpu: nat, insn: nat, g: Guest, seekOk: bool)
    requires Inv(c, s) && insn < U64 && g.WholePages() && (s.live ==> s.outOpen)
    ensures Inv(c, AfterSnapshot(c, s, vcpu, insn, g, seekOk))
  {
    hide Hosted;
    hide WithinBudget;
    hide Balanced;
    hide Closed;
    hide SnapOpen;
    hide Mark;
    hide PageRecs;
    hide Warnings;
    hide Total;
    if s.live {
      var upTo := Reach(c, s.have, g, s.ramBytes);
      hide Reach;
      var mark := Mark(c, s, vcpu, insn, g, upTo, seekOk);
      var n := s.counts.(snapshots := s.counts.snapshots + 1);
      MarkFits(c, s, vcpu, insn, g, upTo, seekOk);
      MarkKept(c, s, mark);
      PagesKept(c, s.log + [mark], s.have, s.ramBytes, n, vcpu, insn, g, upTo);
      WarningsKept(c, s.log + [mark] + PageRecs(c, s.have, g, vcpu, insn, upTo), Held(s.have, g, upTo),
                   Total(c, s.have, g, s.ramBytes, upTo), n, insn, upTo < |s.have|, !NoneUnreadable(g, 0, upTo));
    }
  }

  lemma RecordableIsPlain(r: Rec)
    requires Recordable(r)
    ensures Plain(r) && Fits(r) && r.rtype != SNAPMARK && r.rtype != RAMPAGE && r.rtype != END
  {
    LayoutSizes();
    hide Size;
    FitsIntro(r);
    hide Fits;
  }

  lemma RecordInv(c: Setup, s: State, r: Rec)
    requires Inv(c, s) && Recordable(r)
    ensures Inv(c, AfterRecord(s, r))
  {
    RecordableIsPlain(r);
    hide Hosted;
    hide WithinBudget;
    hide Balanced;
    hide Closed;
    hide Recordable;
    hide Plain;
    hide Fits;
    hide Counted;
    if s.outOpen {
      PlainKept(c, s.log, s.have, s.ramBytes, r);
      BalancedAppend(s.log, r, s.counts);
    }
  }

  lemma EndIsPlain(total: nat, n: Counts, ramBytes: nat, truncated: bool, drops: nat)
    requires total < U64
    ensures var r := EndRec(total, n, ramBytes, truncated, drops);
            Plain(r) && Fits(r) && r.rtype == END && |r.payload| == Size(END_FIELDS)
  {
    LayoutSizes();
    hide Size;
    hide EndFields;
    hide PackFields;
    FitsIntro(EndRec(total, n, ramBytes, truncated, drops));
    hide Fits;
  }

  lemma {:induction false} NotesKept(c: Setup, log: seq<Rec>, have: Holding, ramBytes: nat, n: Counts, k: nat)
    requires Hosted(c, log, have) && WithinBudget(c, log, ramBytes) && Balanced(log, n)
    ensures var log' := log + Notes(k);
            Hosted(c, log', have) && WithinBudget(c, log', ramBytes) && Balanced(log', n)
  {
    hide Hosted;
    hide WithinBudget;
    hide Balanced;
    hide Fits;
    hide Plain;
    if k == 0 {
      assert log + [] == log;
    } else {
      var note := Rec(META, 0, 0, 0, TEXT);
      NotesKept(c, log, have, ramBytes, n, k - 1);
      NoteIsPlain();
      PlainKept(c, log + Notes(k - 1), have, ramBytes, note);
      BalancedAside(log + Notes(k - 1), note, n);
      assert log + Notes(k) == log + Notes(k - 1) + [note];
    }
  }

  lemma NoteIsPlain()
    ensures Plain(Rec(META, 0, 0, 0, TEXT)) && Fits(Rec(META, 0, 0, 0, TEXT))
  {
    FitsIntro(Rec(META, 0, 0, 0, TEXT));
  }

  lemma FinishInv(c: Setup, s: State, total: nat)
    requires Inv(c, s) && total < U64
    ensures Inv(c, AfterFinish(s, total))
  {
    hide Hosted;
    hide WithinBudget;
    hide Balanced;
    hide Notes;
    hide EndRec;
    hide Plain;
    hide Fits;
    if s.outOpen {
      var before := s.log + Notes(4);
      var end := EndRec(total, s.counts, s.ramBytes, s.truncated, s.watchDrops);
      NotesKept(c, s.log, s.have, s.ramBytes, s.counts, 4);
      EndIsPlain(total, s.counts, s.ramBytes, s.truncated, s.watchDrops);
      PlainKept(c, before, s.have, s.ramBytes, end);
      assert (before + [end])[..|before|] == before;
      CountsBytes(c, before, s.ramBytes);
      assert Ends(before, end, total, s.counts, s.truncated, s.watchDrops);
    }
  }

  lemma CountsBytes(c: Setup, log: seq<Rec>, ramBytes: nat)
    requires WithinBudget(c, log, ramBytes)
    ensures ramBytes == BodyBytes(log) % U64
  {
  }

  /** Nothing of the schedule matters to the host. */
  lemma ScheduleAside(c: Setup, s: State, timer: Scheduler.Timer, finalSnapDone: bool)
    requires Inv(c, s)
    ensures Inv(c, s.(timer := timer, finalSnapDone := finalSnapDone))
  {
    hide Hosted;
    hide WithinBudget;
    hide Balanced;
    hide Closed;
  }

  lemma LockedInv(c: Setup, s: State, cb: Callback)
    requires Inv(c, s) && cb.LockedBlock? && Sane(cb) && Allowed(c, s, cb)
    ensures Inv(c, After(c, s, cb))
  {
    hide Inv;
    hide AfterSnapshot;
    var tick := Scheduler.LockedCheck(c.config, s.timer, cb.insn);
    hide Scheduler.LockedCheck;
    var r := Rec(SAMPLE, cb.vcpu % 256, cb.flags, cb.insn, cb.sample);
    RecordInv(c, s, r);
    var s1 := if tick.sampled then AfterRecord(s, r) else s;
    ScheduleAside(c, s1, tick.timer, s1.finalSnapDone);
    if tick.snapped {
      SnapshotInv(c, s1.(timer := tick.timer), cb.vcpu, cb.insn, cb.g, cb.seekOk);
    }
  }

  lemma EventAside(c: Setup, s: State, insn: nat)
    requires Inv(c, s) && s.events.taken < c.evSnapMax
    ensures Inv(c, s.(events := Scheduler.EventThrottle(s.events.taken + 1, insn)))
  {
    hide Hosted;
    hide WithinBudget;
    hide Balanced;
    hide Closed;
  }

  lemma HitInv(c: Setup, s: State, cb: Callback)
    requires Inv(c, s) && cb.Hit? && Sane(cb) && Allowed(c, s, cb)
    ensures Inv(c, After(c, s, cb))
  {
    hide Inv;
    hide AfterSnapshot;
    var r1 := Rec(WATCHPC, cb.vcpu % 256, cb.flags, cb.insn, cb.hit);
    RecordInv(c, s, r1);
    var s1 := AfterRecord(s, r1);
    var s2 := s1;
    if cb.nftrace.Some? {
      var r2 := Rec(NFTRACE, cb.vcpu % 256, 0, cb.insn, cb.nftrace.value);
      RecordInv(c, s1, r2);
      s2 := AfterRecord(s1, r2);
    }
    if Shoots(c, s, cb.insn, cb.snap, cb.throttle) {
      var s3 := s2;
      if cb.throttle {
        EventAside(c, s2, cb.insn);
        s3 := s2.(events := Scheduler.EventThrottle(s.events.taken + 1, cb.insn));
      }
      SnapshotInv(c, s3, cb.vcpu, cb.insn, cb.g, cb.seekOk);
    }
  }

  lemma ExitInv(c: Setup, s: State, cb: Callback)
    requires Inv(c, s) && cb.VcpuExit? && Sane(cb) && Allowed(c, s, cb)
    ensures Inv(c, After(c, s, cb))
  {
    hide Inv;
    hide AfterSnapshot;
    var s1 := s;
    if c.config.snapEvery != 0 && !s.finalSnapDone {
      ScheduleAside(c, s, s.timer, true);
      SnapshotInv(c, s.(finalSnapDone := true), cb.vcpu, cb.insn, cb.g, cb.seekOk);
      s1 := AfterSnapshot(c, s.(finalSnapDone := true), cb.vcpu, cb.insn, cb.g, cb.seekOk);
    }
    RecordInv(c, s1, Rec(VCPU, cb.vcpu % 256, 0, cb.insn, Pack(0, 4)));
  }

  /** Every callback keeps the invariant. */
  lemma AfterInv(c: Setup, s: State, cb: Callback)
    requires Inv(c, s) && Sane(cb) && Allowed(c, s, cb)
    ensures Inv(c, After(c, s, cb))
  {
    match cb
    case BlockStart(vcpu, insn, total, flags, sample, g, seekOk) =>
      FinishInv(c, s, total);
      if !(c.maxInsn != 0 && insn >= c.maxInsn) && !Scheduler.TooEarly(s.timer, insn) {
        LockedInv(c, s, LockedBlock(vcpu, insn, flags, sample, g, seekOk));
      }
      hide Inv;
    case LockedBlock(_, _, _, _, _, _) => LockedInv(c, s, cb);
    case Hit(_, _, _, _, _, _, _, _, _) => HitInv(c, s, cb);
    case Dropped => DropInv(c, s);
    case Other(rec) => RecordInv(c, s, rec);
    case VcpuExit(_, _, _, _) => ExitInv(c, s, cb);
    case AtExit(total) => FinishInv(c, s, total);
  }

  lemma DropInv(c: Setup, s: State)
    requires Inv(c, s)
    ensures Inv(c, s.(watchDrops := s.watchDrops + 1))
  {
    hide Hosted;
    hide WithinBudget;
    hide Balanced;
    hide Closed;
  }

  lemma InitialInv(c: Setup)
    requires c.Ok()
    ensures Inv(c, Initial(c))
  {
    assert LogTrace([], c.codec).Ok?;
    assert HostView([], c.codec, c.ramBase, c.ramSize) == Some(Fresh(c.ramBase, c.ramSize));
  }

  /** Whatever the callbacks and their order. */
  lemma {:induction false} RunInv(c: Setup, s: State, cbs: seq<Callback>)
    requires Inv(c, s) && AllAllowed(c, s, cbs) && forall cb :: cb in cbs ==> Sane(cb)
    ensures Inv(c, Run(c, s, cbs))
  {
    hide Inv;
    hide After;
    hide Allowed;
    hide Sane;
    if cbs != [] {
      var n := |cbs| - 1;
      assert forall k :: 0 <= k < n ==> cbs[..n][..k] == cbs[..k];
      RunInv(c, s, cbs[..n]);
      assert Allowed(c, Run(c, s, cbs[..n]), cbs[n]);
      AfterInv(c, Run(c, s, cbs[..n]), cbs[n]);
    }
  }

  // ------------------------------------------------------------------ how a run goes on

  ghost predicate NoMorePages(log0: seq<Rec>, log: seq<Rec>) {
    Count(log, SNAPMARK) == Count(log0, SNAPMARK) && Count(log, RAMPAGE) == Count(log0, RAMPAGE)
  }

  /** The log is only appended to, a truncation ends all snapshots for good, and nothing follows the end
      of the output. */
  ghost predicate Continues(a: State, b: State) {
    && a.log <= b.log
    && (!a.live ==> !b.live && b.truncated == a.truncated && b.have == a.have && NoMorePages(a.log, b.log))
    && (!a.outOpen ==> !b.outOpen && b.log == a.log)
  }

  lemma RecordContinues(s: State, r: Rec)
    requires r.rtype != SNAPMARK && r.rtype != RAMPAGE
    ensures Continues(s, AfterRecord(s, r))
  {
    TalliesAppend(s.log, r);
  }

  lemma NoteIsNoPage(log: seq<Rec>)
    ensures NoMorePages(log, log + [Rec(META, 0, 0, 0, TEXT)])
  {
    TalliesAppend(log, Rec(META, 0, 0, 0, TEXT));
    hide Count;
  }

  lemma {:induction false} NotesContinue(log: seq<Rec>, n: nat)
    ensures NoMorePages(log, log + Notes(n))
  {
    hide Count;
    if n == 0 {
      assert log + [] == log;
    } else {
      NotesContinue(log, n - 1);
      NoteIsNoPage(log + Notes(n - 1));
      assert log + Notes(n) == log + Notes(n - 1) + [Rec(META, 0, 0, 0, TEXT)];
    }
  }

  lemma FinishContinues(s: State, total: nat)
    ensures Continues(s, AfterFinish(s, total))
  {
    hide Notes;
    hide EndFields;
    hide PackFields;
    NotesContinue(s.log, 4);
    TalliesAppend(s.log + Notes(4), EndRec(total, s.counts, s.ramBytes, s.truncated, s.watchDrops));
  }

  lemma SnapshotContinues(c: Setup, s: State, vcpu: nat, insn: nat, g: Guest, seekOk: bool)
    requires s.live ==> s.outOpen
    ensures Continues(s, AfterSnapshot(c, s, vcpu, insn, g, seekOk))
  {
    hide Reach;
    hide Held;
    hide Total;
    hide PageRecs;
    hide Mark;
    hide Warnings;
  }

  lemma ContinuesOn(a: State, b: State, c: State)
    requires Continues(a, b) && Continues(b, c)
    ensures Continues(a, c)
  {
  }

  lemma AfterContinues(c: Setup, s: State, cb: Callback)
    requires Sane(cb) && Allowed(c, s, cb)
    ensures Continues(s, After(c, s, cb))
  {
    hide AfterSnapshot;
    hide NoMorePages;
    match cb
    case BlockStart(vcpu, insn, total, flags, sample, g, seekOk) =>
      FinishContinues(s, total);
      StaysPut(s);
      if !(c.maxInsn != 0 && insn >= c.maxInsn) && !Scheduler.TooEarly(s.timer, insn) {
        LockedContinues(c, s, LockedBlock(vcpu, insn, flags, sample, g, seekOk));
      }
    case LockedBlock(_, _, _, _, _, _) => LockedContinues(c, s, cb);
    case Hit(_, _, _, _, _, _, _, _, _) => HitContinues(c, s, cb);
    case Dropped => StaysPut(s);
    case Other(rec) => RecordableIsPlain(rec); RecordContinues(s, rec);
    case VcpuExit(_, _, _, _) => ExitContinues(c, s, cb);
    case AtExit(total) => FinishContinues(s, total);
  }

  lemma StaysPut(s: State)
    ensures NoMorePages(s.log, s.log)
  {
  }

  lemma LockedContinues(c: Setup, s: State, cb: Callback)
    requires cb.LockedBlock? && Sane(cb) && Allowed(c, s, cb)
    ensures Continues(s, After(c, s, cb))
  {
    hide AfterSnapshot;
    hide NoMorePages;
    StaysPut(s);
    var tick := Scheduler.LockedCheck(c.config, s.timer, cb.insn);
    hide Scheduler.LockedCheck;
    var r := Rec(SAMPLE, cb.vcpu % 256, cb.flags, cb.insn, cb.sample);
    RecordContinues(s, r);
    var s1 := if tick.sampled then AfterRecord(s, r) else s;
    var s2 := s1.(timer := tick.timer);
    if tick.snapped {
      SnapshotContinues(c, s2, cb.vcpu, cb.insn, cb.g, cb.seekOk);
      ContinuesOn(s, s2, AfterSnapshot(c, s2, cb.vcpu, cb.insn, cb.g, cb.seekOk));
    }
  }

  lemma HitContinues(c: Setup, s: State, cb: Callback)
    requires cb.Hit? && Sane(cb) && Allowed(c, s, cb)
    ensures Continues(s, After(c, s, cb))
  {
    hide AfterSnapshot;
    hide NoMorePages;
    var r1 := Rec(WATCHPC, cb.vcpu % 256, cb.flags, cb.insn, cb.hit);
    RecordContinues(s, r1);
    var s1 := AfterRecord(s, r1);
    var s2 := s1;
    if cb.nftrace.Some? {
      var r2 := Rec(NFTRACE, cb.vcpu % 256, 0, cb.insn, cb.nftrace.value);
      RecordContinues(s1, r2);
      s2 := AfterRecord(s1, r2);
      ContinuesOn(s, s1, s2);
    }
    if Shoots(c, s, cb.insn, cb.snap, cb.throttle) {
      var s3 := if cb.throttle then s2.(events := Scheduler.EventThrottle(s.events.taken + 1, cb.insn)) else s2;
      SnapshotContinues(c, s3, cb.vcpu, cb.insn, cb.g, cb.seekOk);
      ContinuesOn(s, s3, AfterSnapshot(c, s3, cb.vcpu, cb.insn, cb.g, cb.seekOk));
    }
  }

  lemma ExitContinues(c: Setup, s: State, cb: Callback)
    requires cb.VcpuExit? && Sane(cb) && Allowed(c, s, cb)
    ensures Continues(s, After(c, s, cb))
  {
    hide AfterSnapshot;
    hide NoMorePages;
    StaysPut(s);
    var s1 := s;
    if c.config.snapEvery != 0 && !s.finalSnapDone {
      SnapshotContinues(c, s.(finalSnapDone := true), cb.vcpu, cb.insn, cb.g, cb.seekOk);
      s1 := AfterSnapshot(c, s.(finalSnapDone := true), cb.vcpu, cb.insn, cb.g, cb.seekOk);
    }
    RecordContinues(s1, Rec(VCPU, cb.vcpu % 256, 0, cb.insn, Pack(0, 4)));
    ContinuesOn(s, s1, AfterRecord(s1, Rec(VCPU, cb.vcpu % 256, 0, cb.insn, Pack(0, 4))));
  }

  /** Along a run, from any point on. */
  lemma {:induction false} RunContinues(c: Setup, s: State, cbs: seq<Callback>, k: nat, n: nat)
    requires k <= n <= |cbs| && AllAllowed(c, s, cbs) && forall cb :: cb in cbs ==> Sane(cb)
    ensures Continues(Run(c, s, cbs[..k]), Run(c, s, cbs[..n]))
    decreases n
  {
    hide After;
    hide Allowed;
    hide Sane;
    hide Run;
    if k == n {
      StaysPut(Run(c, s, cbs[..n]));
    } else {
      RunContinues(c, s, cbs, k, n - 1);
      RunStep(c, s, cbs, n - 1);
      AfterContinues(c, Run(c, s, cbs[..n - 1]), cbs[n - 1]);
      ContinuesOn(Run(c, s, cbs[..k]), Run(c, s, cbs[..n - 1]), Run(c, s, cbs[..n]));
    }
  }

  /** The total that a callback which closes the output puts into the END record. */
  function ClosingTotal(cb: Callback): nat {
    if cb.AtExit? || cb.BlockStart? then cb.total else 0
  }

  /** A closed output was closed by one callback, whose END record carries the total it read and the
      counters, the bytes, the truncation and the drops as they were then; and nothing came after it. */
  lemma {:induction false} ClosedByOne(c: Setup, s: State, cbs: seq<Callback>) returns (k: nat)
    requires s.outOpen && !Run(c, s, cbs).outOpen
    requires AllAllowed(c, s, cbs) && forall cb :: cb in cbs ==> Sane(cb)
    ensures k < |cbs| && Closes(c, cbs[k])
    ensures var t := Run(c, s, cbs[..k]);
            && t.outOpen
            && Run(c, s, cbs).log
               == t.log + Notes(4) + [EndRec(ClosingTotal(cbs[k]), t.counts, t.ramBytes, t.truncated, t.watchDrops)]
  {
    hide After;
    hide Allowed;
    hide Sane;
    hide Notes;
    hide EndRec;
    var n := |cbs| - 1;
    var front := cbs[..n];
    var t := Run(c, s, front);
    assert forall j :: 0 <= j < n ==> front[..j] == cbs[..j];
    assert Allowed(c, t, cbs[n]);
    AfterMoves(c, t, cbs[n]);
    AfterContinues(c, t, cbs[n]);
    if t.outOpen {
      k := n;
      ClosesWith(c, t, cbs[n]);
    } else {
      k := ClosedByOne(c, s, front);
    }
  }

  lemma ClosesWith(c: Setup, s: State, cb: Callback)
    requires s.outOpen && Closes(c, cb)
    ensures After(c, s, cb).log
            == s.log + Notes(4) + [EndRec(ClosingTotal(cb), s.counts, s.ramBytes, s.truncated, s.watchDrops)]
  {
    hide Notes;
    hide EndRec;
  }
}
