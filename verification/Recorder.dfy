/** What the callbacks of the recording plugin (nodefusion/plugin/nf_plugin.c) do, as functions on its
    state: the log of records, what the host holds of guest memory, the budget, the schedule and the
    counters. Register values, texts and guest memory are parameters. */
module Recorder {
  import opened Arithmetic
  import opened Wrappers
  import opened LittleEndian
  import opened TraceFile
  import opened RamImage
  import opened HostReplay
  import Scheduler

  const U64 := Scheduler.U64
  const CHUNK_PAGES := 64

  /** What reads of guest memory give during one snapshot: whether the read of a 64-page chunk
      succeeds, whether the read of a single page does, and the bytes a successful read gives. */
  datatype Guest = Guest(chunkOk: nat -> bool, pageOk: nat -> bool, page: nat -> seq<byte>)
  {
    ghost predicate WholePages() {
      forall i :: |page(i)| == PGSIZE
    }

    predicate Readable(i: nat) {
      chunkOk(i / CHUNK_PAGES) || pageOk(i)
    }
  }

  /** What is fixed when the plugin is installed. */
  datatype Setup = Setup(codec: Codec, ramBase: nat, ramSize: nat, maxRamBytes: nat, config: Scheduler.Config,
                         maxInsn: nat, evSnapMin: nat, evSnapMax: nat)
  {
    /** The C field has 32 bits. */
    function PageCount(): nat {
      ramSize / PGSIZE % 0x1_0000_0000
    }

    ghost predicate Ok() {
      codec.Lossless() && ramSize < U64 && maxRamBytes < U64
    }
  }

  /** What the host holds of each page: its bytes, or nothing if no snapshot has read it yet. */
  type Holding = seq<Option<seq<byte>>>

  datatype Counts = Counts(snapshots: nat, samples: nat, discons: nat, watchHits: nat, returned: nat)

  /** `live` is whether there still is a shadow copy. */
  datatype State = State(log: seq<Rec>, outOpen: bool, live: bool, truncated: bool, have: Holding, ramBytes: nat,
                         counts: Counts, watchDrops: nat, timer: Scheduler.Timer, events: Scheduler.EventThrottle,
                         finalSnapDone: bool)

  // ------------------------------------------------------------------ one snapshot

  datatype Stored = Stored(body: seq<byte>, flags: nat)

  /** A page is stored compressed if that is shorter. */
  function Packed(codec: Codec, page: seq<byte>): (s: Stored)
    ensures |page| == PGSIZE ==> |s.body| <= PGSIZE
  {
    var z := codec.compress(page);
    if z.Some? && |z.value| < PGSIZE then Stored(z.value, F_ZLIB) else Stored(page, 0)
  }

  /** A page that can be read, and is not what the host has. */
  predicate Differs(have: Holding, g: Guest, i: nat) {
    i < |have| && g.Readable(i) && have[i] != Some(g.page(i))
  }

  function Cost(c: Setup, g: Guest, i: nat): nat {
    |Packed(c.codec, g.page(i)).body|
  }

  /** The budget check of nf_snapshot_page, with C's wrapping addition. */
  predicate Admits(max: nat, total: nat, body: nat) {
    (total + body) % U64 <= max
  }

  /** The byte counter once the pages below `upTo` have been stored. */
  function Total(c: Setup, have: Holding, g: Guest, total: nat, upTo: nat): nat {
    if upTo == 0 then total
    else
      var before := Total(c, have, g, total, upTo - 1);
      if Differs(have, g, upTo - 1) then (before + Cost(c, g, upTo - 1)) % U64 else before
  }

  /** The page at which the budget runs out, if the pages before it did fit. */
  predicate Overruns(c: Setup, have: Holding, g: Guest, total: nat, i: nat) {
    Differs(have, g, i) && !Admits(c.maxRamBytes, Total(c, have, g, total, i), Cost(c, g, i))
  }

  function ReachFrom(c: Setup, have: Holding, g: Guest, total: nat, i: nat): (r: nat)
    requires i <= |have|
    ensures i <= r <= |have|
    ensures forall k :: i <= k < r ==> !Overruns(c, have, g, total, k)
    ensures r < |have| ==> Overruns(c, have, g, total, r)
    decreases |have| - i
  {
    if i == |have| || Overruns(c, have, g, total, i) then i else ReachFrom(c, have, g, total, i + 1)
  }

  /** How far a snapshot gets: to the first page that overruns the budget, or over all of them. */
  function Reach(c: Setup, have: Holding, g: Guest, total: nat): (r: nat)
    ensures r <= |have|
    ensures forall k :: 0 <= k < r ==> !Overruns(c, have, g, total, k)
    ensures r < |have| ==> Overruns(c, have, g, total, r)
  {
    ReachFrom(c, have, g, total, 0)
  }

  /** The records of the pages below `upTo` that differ. */
  function PageRecs(c: Setup, have: Holding, g: Guest, vcpu: nat, insn: nat, upTo: nat): seq<Rec> {
    if upTo == 0 then []
    else PageRecs(c, have, g, vcpu, insn, upTo - 1) + OnePage(c, have, g, vcpu, insn, upTo - 1)
  }

  function OnePage(c: Setup, have: Holding, g: Guest, vcpu: nat, insn: nat, i: nat): seq<Rec> {
    if Differs(have, g, i) then
      var s := Packed(c.codec, g.page(i));
      [PageRec(vcpu % 256, insn, i, s.flags, s.body)]
    else []
  }

  /** What the host has after the readable pages below `upTo` have been read. */
  function Held(have: Holding, g: Guest, upTo: nat): (h: Holding)
    ensures |h| == |have|
    ensures forall i :: 0 <= i < |h| ==> h[i] == if i < upTo && g.Readable(i) then Some(g.page(i)) else have[i]
  {
    seq(|have|, i requires 0 <= i < |have| => if i < upTo && g.Readable(i) then Some(g.page(i)) else have[i])
  }

  predicate NoneUnreadable(g: Guest, from: nat, upTo: nat) {
    forall i :: from <= i < upTo ==> g.Readable(i)
  }

  // Texts of warnings and META records are reduced to one byte.
  const TEXT: seq<byte> := [0]

  function Warning(insn: nat): Rec {
    Rec(WARN, 0, 0, insn, TEXT)
  }

  function MarkRec(vcpu: nat, insn: nat, flags: nat, snapSeq: nat, base: nat, changed: nat, total: nat): Rec {
    Rec(SNAPMARK, vcpu % 256, flags, insn, PackFields(SNAPMARK_FIELDS, [snapSeq, base, PGSIZE, changed, total, 0]))
  }

  function MarkFlags(truncated: bool, incomplete: bool): nat {
    (if truncated then F_TRUNCATED else 0) + if incomplete then F_INCOMPLETE else 0
  }

  /** The mark, as written first and as completed at the end if the file can be sought. */
  function Mark(c: Setup, s: State, vcpu: nat, insn: nat, g: Guest, upTo: nat, sought: bool): Rec {
    if sought then
      MarkRec(vcpu, insn, MarkFlags(upTo < |s.have|, !NoneUnreadable(g, 0, upTo)), s.counts.snapshots, c.ramBase,
              |PageRecs(c, s.have, g, vcpu, insn, upTo)|, |s.have|)
    else MarkRec(vcpu, insn, 0, s.counts.snapshots, c.ramBase, 0, |s.have|)
  }

  /** A warning for the budget, and one for pages that could not be read. */
  function Warnings(insn: nat, truncated: bool, incomplete: bool): seq<Rec> {
    (if truncated then [Warning(insn)] else []) + if incomplete then [Warning(insn)] else []
  }

  /** nf_snapshot. */
  function AfterSnapshot(c: Setup, s: State, vcpu: nat, insn: nat, g: Guest, seekOk: bool): State {
    if !s.live then s
    else
      var upTo := Reach(c, s.have, g, s.ramBytes);
      s.(log := s.log + [Mark(c, s, vcpu, insn, g, upTo, seekOk)] + PageRecs(c, s.have, g, vcpu, insn, upTo)
                + Warnings(insn, upTo < |s.have|, !NoneUnreadable(g, 0, upTo)),
         counts := s.counts.(snapshots := s.counts.snapshots + 1),
         have := Held(s.have, g, upTo),
         ramBytes := Total(c, s.have, g, s.ramBytes, upTo),
         truncated := upTo < |s.have|,
         live := upTo == |s.have|)
  }

  // ------------------------------------------------------------------ the other callbacks

  function One(b: bool): nat { if b then 1 else 0 }

  function Counted(n: Counts, r: Rec): Counts {
    n.(samples := n.samples + One(r.rtype == SAMPLE), discons := n.discons + One(r.rtype == DISCON),
       watchHits := n.watchHits + One(r.rtype == WATCHPC), returned := n.returned + One(r.rtype == RETURN))
  }

  /** nf_write_rec is silent once the output is closed, but the callbacks go on counting. */
  function AfterRecord(s: State, r: Rec): State {
    s.(log := if s.outOpen then s.log + [r] else s.log, counts := Counted(s.counts, r))
  }

  /** The fields of the END record written after `before`. */
  function EndFields(insn: nat, n: Counts, ramBytes: nat, truncated: bool, drops: nat): (vs: seq<nat>)
    ensures |vs| == |END_FIELDS|
  {
    [insn, n.snapshots, n.discons, n.samples, n.watchHits, ramBytes, One(truncated), 0, drops]
  }

  function EndRec(insn: nat, n: Counts, ramBytes: nat, truncated: bool, drops: nat): Rec {
    Rec(END, 0, if truncated then F_TRUNCATED else 0, insn,
        PackFields(END_FIELDS, EndFields(insn, n, ramBytes, truncated, drops)))
  }

  function Notes(n: nat): seq<Rec> {
    if n == 0 then [] else Notes(n - 1) + [Rec(META, 0, 0, 0, TEXT)]
  }

  /** nf_finish. */
  function AfterFinish(s: State, total: nat): State {
    if !s.outOpen then s
    else
      s.(log := s.log + Notes(4) + [EndRec(total, s.counts, s.ramBytes, s.truncated, s.watchDrops)], outOpen := false)
  }

  /** The part of nf_tb_check under the lock. */
  function AfterLocked(c: Setup, s: State, vcpu: nat, insn: nat, flags: nat, sample: seq<byte>, g: Guest,
                       seekOk: bool): State {
    var tick := Scheduler.LockedCheck(c.config, s.timer, insn);
    var s1 := if tick.sampled then AfterRecord(s, Rec(SAMPLE, vcpu % 256, flags, insn, sample)) else s;
    var s2 := s1.(timer := tick.timer);
    if tick.snapped then AfterSnapshot(c, s2, vcpu, insn, g, seekOk) else s2
  }

  /** Its two halves. */
  function AfterSampling(c: Setup, s: State, vcpu: nat, insn: nat, flags: nat, sample: seq<byte>): State {
    if c.config.sampleEvery != 0 && insn >= s.timer.nextSample then
      AfterRecord(s, Rec(SAMPLE, vcpu % 256, flags, insn, sample)).(
        timer := s.timer.(nextSample := (insn + c.config.sampleEvery) % U64))
    else s
  }

  function AfterTimer(c: Setup, s: State, vcpu: nat, insn: nat, g: Guest, seekOk: bool): State {
    var crossed := c.config.snapEvery != 0 && !s.timer.startSnapDone && c.config.snapStart != 0
      && insn >= c.config.snapStart;
    if crossed || (c.config.snapEvery != 0 && insn >= s.timer.nextSnap) then
      var timer := Scheduler.Timer(s.timer.nextSample, (insn + Scheduler.Interval(c.config, insn)) % U64,
                                   s.timer.startSnapDone || crossed);
      AfterSnapshot(c, s.(timer := timer), vcpu, insn, g, seekOk)
    else s
  }

  lemma SamplingKeepsTimer(s: State, r: Rec)
    ensures AfterRecord(s, r).timer == s.timer
  {
  }

  lemma LockedHalves(c: Setup, s: State, vcpu: nat, insn: nat, flags: nat, sample: seq<byte>, g: Guest, seekOk: bool)
    ensures AfterLocked(c, s, vcpu, insn, flags, sample, g, seekOk)
            == AfterTimer(c, AfterSampling(c, s, vcpu, insn, flags, sample), vcpu, insn, g, seekOk)
  {
    hide AfterSnapshot;
    hide AfterRecord;
    hide Scheduler.Interval;
    SamplingKeepsTimer(s, Rec(SAMPLE, vcpu % 256, flags, insn, sample));
  }

  /** nf_tb_check. */
  function AfterBlock(c: Setup, s: State, vcpu: nat, insn: nat, total: nat, flags: nat, sample: seq<byte>, g: Guest,
                      seekOk: bool): State {
    if c.maxInsn != 0 && insn >= c.maxInsn then AfterFinish(s, total)
    else if Scheduler.TooEarly(s.timer, insn) then s
    else AfterLocked(c, s, vcpu, insn, flags, sample, g, seekOk)
  }

  predicate Shoots(c: Setup, s: State, insn: nat, snap: bool, throttle: bool) {
    snap && c.config.snapEvery != 0 && (throttle ==> Scheduler.MayShoot(s.events, insn, c.evSnapMin, c.evSnapMax))
  }

  function AfterEvent(c: Setup, s: State, vcpu: nat, insn: nat, snap: bool, throttle: bool, g: Guest,
                      seekOk: bool): State {
    if Shoots(c, s, insn, snap, throttle) then
      var counted := if throttle then s.(events := Scheduler.EventThrottle(s.events.taken + 1, insn)) else s;
      AfterSnapshot(c, counted, vcpu, insn, g, seekOk)
    else s
  }

  /** nf_watch_hit from taking the lock on. */
  function AfterHit(c: Setup, s: State, vcpu: nat, insn: nat, flags: nat, hit: seq<byte>, nftrace: Option<seq<byte>>,
                    snap: bool, throttle: bool, g: Guest, seekOk: bool): State {
    var s1 := AfterRecord(s, Rec(WATCHPC, vcpu % 256, flags, insn, hit));
    var s2 := if nftrace.Some? then AfterRecord(s1, Rec(NFTRACE, vcpu % 256, 0, insn, nftrace.value)) else s1;
    AfterEvent(c, s2, vcpu, insn, snap, throttle, g, seekOk)
  }

  /** nf_vcpu_exit. */
  function AfterExit(c: Setup, s: State, vcpu: nat, insn: nat, g: Guest, seekOk: bool): State {
    var s1 := if c.config.snapEvery != 0 && !s.finalSnapDone
              then AfterSnapshot(c, s.(finalSnapDone := true), vcpu, insn, g, seekOk) else s;
    AfterRecord(s1, Rec(VCPU, vcpu % 256, 0, insn, Pack(0, 4)))
  }

  /** One callback, with everything it reads from the machine. A LockedBlock is the locked part of an
      nf_tb_check whose first look at the schedule, without the lock, lies further back. */
  datatype Callback =
    | BlockStart(vcpu: nat, insn: nat, total: nat, flags: nat, sample: seq<byte>, g: Guest, seekOk: bool)
    | LockedBlock(vcpu: nat, insn: nat, flags: nat, sample: seq<byte>, g: Guest, seekOk: bool)
    | Hit(vcpu: nat, insn: nat, flags: nat, hit: seq<byte>, nftrace: Option<seq<byte>>,
          snap: bool, throttle: bool, g: Guest, seekOk: bool)
    | Dropped
    | Other(rec: Rec)
    | VcpuExit(vcpu: nat, insn: nat, g: Guest, seekOk: bool)
    | AtExit(total: nat)

  function After(c: Setup, s: State, cb: Callback): State {
    match cb
    case BlockStart(vcpu, insn, total, flags, sample, g, seekOk) =>
      AfterBlock(c, s, vcpu, insn, total, flags, sample, g, seekOk)
    case LockedBlock(vcpu, insn, flags, sample, g, seekOk) => AfterLocked(c, s, vcpu, insn, flags, sample, g, seekOk)
    case Hit(vcpu, insn, flags, hit, nftrace, snap, throttle, g, seekOk) =>
      AfterHit(c, s, vcpu, insn, flags, hit, nftrace, snap, throttle, g, seekOk)
    case Dropped => s.(watchDrops := s.watchDrops + 1)
    case Other(rec) => AfterRecord(s, rec)
    case VcpuExit(vcpu, insn, g, seekOk) => AfterExit(c, s, vcpu, insn, g, seekOk)
    case AtExit(total) => AfterFinish(s, total)
  }

  /** Does this callback call nf_snapshot? */
  predicate Snaps(c: Setup, s: State, cb: Callback) {
    match cb
    case BlockStart(_, insn, _, _, _, _, _) =>
      !(c.maxInsn != 0 && insn >= c.maxInsn) && Scheduler.Check(c.config, s.timer, insn).snapped
    case LockedBlock(_, insn, _, _, _, _) => Scheduler.LockedCheck(c.config, s.timer, insn).snapped
    case Hit(_, insn, _, _, _, snap, throttle, _, _) => Shoots(c, s, insn, snap, throttle)
    case VcpuExit(_, _, _, _) => c.config.snapEvery != 0 && !s.finalSnapDone
    case _ => false
  }

  /** nf_snapshot needs the output to be open. */
  predicate Allowed(c: Setup, s: State, cb: Callback) {
    s.live && Snaps(c, s, cb) ==> s.outOpen
  }

  /** The records that other callbacks write, with their C payload sizes; texts are at most 512 bytes. */
  predicate Recordable(r: Rec) {
    && r.cpu < 256 && r.flags < 0x1_0000_0000 && r.insn < U64
    && (if r.rtype == SAMPLE then |r.payload| == 32
        else if r.rtype == DISCON then |r.payload| == 160
        else if r.rtype == WATCHPC then |r.payload| == 104
        else if r.rtype == RETURN || r.rtype == NFTRACE then |r.payload| == 40
        else if r.rtype == IDLE || r.rtype == VCPU then |r.payload| == 4
        else (r.rtype == META || r.rtype == WARN) && |r.payload| <= 512)
  }

  /** The machine's values fit their C types and guest pages are whole. */
  ghost predicate Sane(cb: Callback) {
    match cb
    case BlockStart(_, insn, total, flags, sample, g, _) =>
      insn < U64 && total < U64 && flags < 0x1_0000_0000 && |sample| == 32 && g.WholePages()
    case LockedBlock(_, insn, flags, sample, g, _) =>
      insn < U64 && flags < 0x1_0000_0000 && |sample| == 32 && g.WholePages()
    case Hit(_, insn, flags, hit, nftrace, _, _, g, _) =>
      insn < U64 && flags < 0x1_0000_0000 && |hit| == 104 && (nftrace.Some? ==> |nftrace.value| == 40) && g.WholePages()
    case Dropped => true
    case Other(rec) => Recordable(rec) && rec.rtype != SAMPLE && rec.rtype != WATCHPC && rec.rtype != NFTRACE
    case VcpuExit(_, insn, g, _) => insn < U64 && g.WholePages()
    case AtExit(total) => total < U64
  }

  // ------------------------------------------------------------------ runs

  /** qemu_plugin_install, after the file header and without its META records. */
  function Initial(c: Setup): State {
    State([], true, c.config.snapEvery != 0, false, seq(c.PageCount(), _ => None), 0, Counts(0, 0, 0, 0, 0), 0,
          Scheduler.InitialTimer(c.config), Scheduler.EventThrottle(0, 0), false)
  }

  /** The callbacks in the order in which they got the lock. */
  function Run(c: Setup, s: State, cbs: seq<Callback>): State {
    if cbs == [] then s else After(c, Run(c, s, cbs[..|cbs| - 1]), cbs[|cbs| - 1])
  }

  predicate AllAllowed(c: Setup, s: State, cbs: seq<Callback>) {
    forall k :: 0 <= k < |cbs| ==> Allowed(c, Run(c, s, cbs[..k]), cbs[k])
  }

  /** Does this callback take a snapshot that reads page `i`? */
  predicate ReadsNow(c: Setup, s: State, cb: Callback, i: nat) {
    s.live && Snaps(c, s, cb) && i < Reach(c, s.have, cb.g, s.ramBytes) && cb.g.Readable(i)
  }

  /** Callback `k` of the run takes a snapshot that reads page `i`. */
  predicate Reads(c: Setup, s: State, cbs: seq<Callback>, k: nat, i: nat)
    requires k < |cbs|
  {
    ReadsNow(c, Run(c, s, cbs[..k]), cbs[k], i)
  }

  /** How the pages, the budget and the shadow copy move from `s` to `t`: by a snapshot of `g`, or not. */
  ghost predicate Moves(c: Setup, s: State, t: State, snaps: bool, g: Guest) {
    if s.live && snaps then
      var upTo := Reach(c, s.have, g, s.ramBytes);
      && t.have == Held(s.have, g, upTo) && t.ramBytes == Total(c, s.have, g, s.ramBytes, upTo)
      && t.truncated == (upTo < |s.have|) && t.live == (upTo == |s.have|)
    else Rests(s, t)
  }

  ghost predicate Rests(s: State, t: State) {
    t.have == s.have && t.ramBytes == s.ramBytes && t.truncated == s.truncated && t.live == s.live
  }

  lemma SnapshotMoves(c: Setup, s: State, vcpu: nat, insn: nat, g: Guest, seekOk: bool)
    ensures Moves(c, s, AfterSnapshot(c, s, vcpu, insn, g, seekOk), true, g)
    ensures AfterSnapshot(c, s, vcpu, insn, g, seekOk).outOpen == s.outOpen
  {
    hide Reach;
    hide Held;
    hide Total;
    hide PageRecs;
    hide Mark;
    hide Warnings;
  }

  lemma LockedMoves(c: Setup, s: State, cb: Callback)
    requires cb.LockedBlock?
    ensures Moves(c, s, After(c, s, cb), Snaps(c, s, cb), cb.g) && After(c, s, cb).outOpen == s.outOpen
  {
    hide AfterSnapshot;
    hide Reach;
    hide Held;
    hide Total;
    var tick := Scheduler.LockedCheck(c.config, s.timer, cb.insn);
    var s1 := if tick.sampled then AfterRecord(s, Rec(SAMPLE, cb.vcpu % 256, cb.flags, cb.insn, cb.sample)) else s;
    SnapshotMoves(c, s1.(timer := tick.timer), cb.vcpu, cb.insn, cb.g, cb.seekOk);
  }

  lemma RecordRests(s: State, r: Rec)
    ensures var t := AfterRecord(s, r); Rests(s, t) && t.outOpen == s.outOpen && t.events == s.events
  {
    hide Counted;
  }

  lemma MovesFrom(c: Setup, s: State, s': State, t: State, snaps: bool, g: Guest)
    requires Rests(s, s') && Moves(c, s', t, snaps, g)
    ensures Moves(c, s, t, snaps, g)
  {
    hide Reach;
    hide Held;
    hide Total;
  }

  lemma HitMoves(c: Setup, s: State, cb: Callback)
    requires cb.Hit?
    ensures Moves(c, s, After(c, s, cb), Snaps(c, s, cb), cb.g) && After(c, s, cb).outOpen == s.outOpen
  {
    hide AfterSnapshot;
    hide AfterRecord;
    hide Moves;
    hide Scheduler.MayShoot;
    var r1 := Rec(WATCHPC, cb.vcpu % 256, cb.flags, cb.insn, cb.hit);
    RecordRests(s, r1);
    var s1 := AfterRecord(s, r1);
    var s2 := s1;
    if cb.nftrace.Some? {
      var r2 := Rec(NFTRACE, cb.vcpu % 256, 0, cb.insn, cb.nftrace.value);
      RecordRests(s1, r2);
      s2 := AfterRecord(s1, r2);
    }
    var s3 := if cb.throttle then s2.(events := Scheduler.EventThrottle(s.events.taken + 1, cb.insn)) else s2;
    SnapshotMoves(c, s3, cb.vcpu, cb.insn, cb.g, cb.seekOk);
    MovesFrom(c, s, s3, AfterSnapshot(c, s3, cb.vcpu, cb.insn, cb.g, cb.seekOk), true, cb.g);
    StayMoves(c, s, s2, cb.g);
  }

  lemma StayMoves(c: Setup, s: State, t: State, g: Guest)
    requires Rests(s, t)
    ensures Moves(c, s, t, false, g)
  {
  }

  lemma ExitMoves(c: Setup, s: State, cb: Callback)
    requires cb.VcpuExit?
    ensures Moves(c, s, After(c, s, cb), Snaps(c, s, cb), cb.g) && After(c, s, cb).outOpen == s.outOpen
  {
    hide AfterSnapshot;
    hide Reach;
    hide Held;
    hide Total;
    SnapshotMoves(c, s.(finalSnapDone := true), cb.vcpu, cb.insn, cb.g, cb.seekOk);
  }

  /** The callback closes the output, if it is open. */
  predicate Closes(c: Setup, cb: Callback) {
    cb.AtExit? || (cb.BlockStart? && c.maxInsn != 0 && cb.insn >= c.maxInsn)
  }

  /** What a callback leaves of the pages, the budget and the shadow copy. */
  lemma AfterMoves(c: Setup, s: State, cb: Callback)
    ensures if Snaps(c, s, cb) then Moves(c, s, After(c, s, cb), true, cb.g) else Rests(s, After(c, s, cb))
    ensures After(c, s, cb).outOpen == (s.outOpen && !Closes(c, cb))
  {
    hide Moves;
    hide Shoots;
    hide AfterLocked;
    hide AfterHit;
    hide AfterExit;
    match cb
    case BlockStart(vcpu, insn, total, flags, sample, g, seekOk) =>
      var locked := LockedBlock(vcpu, insn, flags, sample, g, seekOk);
      LockedMoves(c, s, locked);
      MovesNot(c, s, After(c, s, locked), g);
    case LockedBlock(_, _, _, _, g, _) =>
      LockedMoves(c, s, cb);
      MovesNot(c, s, After(c, s, cb), g);
    case Hit(_, _, _, _, _, _, _, g, _) =>
      HitMoves(c, s, cb);
      MovesNot(c, s, After(c, s, cb), g);
    case VcpuExit(_, _, g, _) =>
      ExitMoves(c, s, cb);
      MovesNot(c, s, After(c, s, cb), g);
    case _ =>
  }

  lemma MovesNot(c: Setup, s: State, t: State, g: Guest)
    ensures Moves(c, s, t, false, g) ==> Rests(s, t)
  {
  }

  /** What the host has of page `i` after a callback. */
  lemma AfterHas(c: Setup, s: State, cb: Callback, i: nat)
    requires i < |s.have|
    ensures var t := After(c, s, cb);
            |t.have| == |s.have| && t.have[i] == if ReadsNow(c, s, cb, i) then Some(cb.g.page(i)) else s.have[i]
  {
    AfterMoves(c, s, cb);
    hide After;
    hide Snaps;
    hide Total;
    hide Reach;
  }

  lemma RunStep(c: Setup, s: State, cbs: seq<Callback>, k: nat)
    requires k < |cbs|
    ensures Run(c, s, cbs[..k + 1]) == After(c, Run(c, s, cbs[..k]), cbs[k])
  {
    assert cbs[..k + 1][..k] == cbs[..k];
  }

  lemma {:induction false} RunHoldsPages(c: Setup, s: State, cbs: seq<Callback>)
    ensures |Run(c, s, cbs).have| == |s.have|
  {
    hide After;
    hide Moves;
    if cbs != [] {
      var t := Run(c, s, cbs[..|cbs| - 1]);
      RunHoldsPages(c, s, cbs[..|cbs| - 1]);
      SameLength(c, t, cbs[|cbs| - 1]);
    }
  }

  lemma SameLength(c: Setup, s: State, cb: Callback)
    ensures |After(c, s, cb).have| == |s.have|
  {
    AfterMoves(c, s, cb);
    hide After;
    hide Total;
    hide Reach;
    hide Snaps;
  }

  /** The host holds of each page what the last snapshot that read it saw. */
  lemma {:induction false} LastReadWins(c: Setup, s: State, cbs: seq<Callback>, k: nat, n: nat, i: nat)
    requires k < n <= |cbs| && i < |s.have|
    requires Reads(c, s, cbs, k, i) && forall j :: k < j < n ==> !Reads(c, s, cbs, j, i)
    ensures var have := Run(c, s, cbs[..n]).have;
            |have| == |s.have| && have[i] == Some(cbs[k].g.page(i))
    decreases n
  {
    hide After;
    hide ReadsNow;
    hide Run;
    RunStep(c, s, cbs, n - 1);
    RunHoldsPages(c, s, cbs[..n - 1]);
    AfterHas(c, Run(c, s, cbs[..n - 1]), cbs[n - 1], i);
    assert Reads(c, s, cbs, n - 1, i) == ReadsNow(c, Run(c, s, cbs[..n - 1]), cbs[n - 1], i);
    if k < n - 1 {
      LastReadWins(c, s, cbs, k, n - 1, i);
    }
  }

  /** A page no snapshot has read is as it was. */
  lemma {:induction false} NeverRead(c: Setup, s: State, cbs: seq<Callback>, n: nat, i: nat)
    requires n <= |cbs| && i < |s.have|
    requires forall j :: 0 <= j < n ==> !Reads(c, s, cbs, j, i)
    ensures var have := Run(c, s, cbs[..n]).have;
            |have| == |s.have| && have[i] == s.have[i]
    decreases n
  {
    hide After;
    hide ReadsNow;
    if n == 0 {
      assert cbs[..0] == [];
    } else {
      RunStep(c, s, cbs, n - 1);
      RunHoldsPages(c, s, cbs[..n - 1]);
      AfterHas(c, Run(c, s, cbs[..n - 1]), cbs[n - 1], i);
      assert !Reads(c, s, cbs, n - 1, i);
      NeverRead(c, s, cbs, n - 1, i);
    }
  }

  // ------------------------------------------------------------------ when a snapshot is cut short

  /** The bytes it would take to store the pages below `upTo` that differ. */
  function CostBelow(c: Setup, have: Holding, g: Guest, upTo: nat): nat {
    if upTo == 0 then 0
    else CostBelow(c, have, g, upTo - 1) + if Differs(have, g, upTo - 1) then Cost(c, g, upTo - 1) else 0
  }

  lemma {:induction false} CostGrows(c: Setup, have: Holding, g: Guest, a: nat, b: nat)
    requires a <= b
    ensures CostBelow(c, have, g, a) <= CostBelow(c, have, g, b)
    decreases b - a
  {
    if a < b {
      CostGrows(c, have, g, a, b - 1);
    }
  }

  /** As long as no page overran, the counter is the plain sum. */
  lemma {:induction false} TotalIsSum(c: Setup, have: Holding, g: Guest, total: nat, upTo: nat)
    requires total <= c.maxRamBytes && c.maxRamBytes + PGSIZE < U64 && g.WholePages()
    requires forall k :: 0 <= k < upTo ==> !Overruns(c, have, g, total, k)
    ensures Total(c, have, g, total, upTo) == total + CostBelow(c, have, g, upTo) <= c.maxRamBytes
  {
    if upTo > 0 {
      TotalIsSum(c, have, g, total, upTo - 1);
      assert !Overruns(c, have, g, total, upTo - 1);
    }
  }

  /** With a limit a page below 2^64, a snapshot goes over all pages if and only if storing the ones that
      differ fits the budget; and if not, it stops at the first of them that does not. */
  lemma StopsAtTheBudget(c: Setup, have: Holding, g: Guest, total: nat)
    requires total <= c.maxRamBytes && c.maxRamBytes + PGSIZE < U64 && g.WholePages()
    ensures var upTo := Reach(c, have, g, total);
            && (upTo == |have| <==> total + CostBelow(c, have, g, |have|) <= c.maxRamBytes)
            && total + CostBelow(c, have, g, upTo) <= c.maxRamBytes
            && (upTo < |have| ==> total + CostBelow(c, have, g, upTo + 1) > c.maxRamBytes)
  {
    var upTo := Reach(c, have, g, total);
    hide Reach;
    hide CostBelow;
    hide Overruns;
    TotalIsSum(c, have, g, total, upTo);
    if upTo < |have| {
      OverrunCosts(c, have, g, total, upTo);
      CostGrows(c, have, g, upTo + 1, |have|);
    }
  }

  lemma OverrunCosts(c: Setup, have: Holding, g: Guest, total: nat, i: nat)
    requires Total(c, have, g, total, i) == total + CostBelow(c, have, g, i) <= c.maxRamBytes
    requires c.maxRamBytes + PGSIZE < U64 && g.WholePages() && Overruns(c, have, g, total, i)
    ensures total + CostBelow(c, have, g, i + 1) > c.maxRamBytes
  {
    hide Packed;
    hide Total;
  }

  /** The budget check keeps the total within `max` for every total
      and every body size if and only if `max` leaves room for one page below 2^64. */
  lemma BudgetGuard(max: nat)
    requires max < U64
    ensures (forall total: nat, body: nat ::
               total <= max && body <= PGSIZE && Admits(max, total, body) ==> total + body <= max)
            <==> max + PGSIZE < U64
  {
    if max + PGSIZE >= U64 {
      BudgetHole(max);
    }
  }

  /** With a limit within a page of 2^64, a page that overruns it is admitted. */
  lemma BudgetHole(max: nat)
    requires max < U64 <= max + PGSIZE
    ensures Admits(max, max, PGSIZE) && max + PGSIZE > max
  {
  }

  // ------------------------------------------------------------------ when every callback is allowed

  /** The output is open as long as no callback has closed it. */
  lemma {:induction false} OpenUntilClosed(c: Setup, s: State, cbs: seq<Callback>, n: nat)
    requires n <= |cbs| && s.outOpen
    ensures Run(c, s, cbs[..n]).outOpen <==> forall k :: 0 <= k < n ==> !Closes(c, cbs[k])
    decreases n
  {
    hide After;
    hide Moves;
    hide Rests;
    hide Snaps;
    hide Closes;
    if n == 0 {
      assert cbs[..0] == [];
    } else {
      RunStep(c, s, cbs, n - 1);
      OpenUntilClosed(c, s, cbs, n - 1);
      AfterMoves(c, Run(c, s, cbs[..n - 1]), cbs[n - 1]);
    }
  }

  /** Callback `k` takes a snapshot, some callback before it having closed the output. */
  ghost predicate TooLate(c: Setup, cbs: seq<Callback>, k: nat)
    requires k < |cbs|
  {
    var s := Run(c, Initial(c), cbs[..k]);
    s.live && Snaps(c, s, cbs[k]) && exists j :: 0 <= j < k && Closes(c, cbs[j])
  }

  /** A run is fine if and only if no snapshot comes too late in it. */
  lemma AllowedUnlessTooLate(c: Setup, cbs: seq<Callback>)
    ensures AllAllowed(c, Initial(c), cbs) <==> forall k :: 0 <= k < |cbs| ==> !TooLate(c, cbs, k)
  {
    hide Run;
    hide Snaps;
    hide Closes;
    forall k | 0 <= k < |cbs|
      ensures Allowed(c, Run(c, Initial(c), cbs[..k]), cbs[k]) <==> !TooLate(c, cbs, k)
    {
      OpenUntilClosed(c, Initial(c), cbs, k);
    }
  }

  /** Nothing comes after the end of the process. */
  predicate EndsAtExit(cbs: seq<Callback>) {
    forall k :: 0 <= k < |cbs| - 1 ==> !cbs[k].AtExit?
  }

  ghost predicate SaneRun(cbs: seq<Callback>) {
    EndsAtExit(cbs) && forall cb :: cb in cbs ==> Sane(cb)
  }

  /** Without snapshots, or if the output is closed by the last callback or not at all, every callback
      is allowed. */
  lemma EveryoneAllowed(c: Setup, cbs: seq<Callback>)
    requires || c.config.snapEvery == 0
             || forall k :: 0 <= k < |cbs| - 1 ==> !Closes(c, cbs[k])
    ensures AllAllowed(c, Initial(c), cbs)
  {
    hide Run;
    hide Snaps;
    forall k | 0 <= k < |cbs|
      ensures Allowed(c, Run(c, Initial(c), cbs[..k]), cbs[k])
    {
      if c.config.snapEvery == 0 {
        NeverLive(c, Initial(c), cbs[..k]);
      } else {
        OpenUntilClosed(c, Initial(c), cbs, k);
      }
    }
  }

  const BLANK := Guest(_ => false, _ => false, _ => seq(PGSIZE, _ => 0))

  /** The recording reaches its instruction limit, and then the vCPU goes down. */
  function LimitThenExit(c: Setup): seq<Callback> {
    [BlockStart(0, c.maxInsn, c.maxInsn, 0, seq(32, _ => 0), BLANK, true), VcpuExit(0, c.maxInsn, BLANK, true)]
  }

  /** With both, there is such a run: the last snapshot comes when the limit has closed the output. */
  lemma LimitThenExitIsTooLate(c: Setup)
    requires c.config.snapEvery != 0 && 0 < c.maxInsn < U64
    ensures SaneRun(LimitThenExit(c)) && !AllAllowed(c, Initial(c), LimitThenExit(c))
  {
    hide Notes;
    hide EndRec;
    var cbs := LimitThenExit(c);
    RunStep(c, Initial(c), cbs, 0);
    assert cbs[..0] == [];
    var s := Run(c, Initial(c), cbs[..1]);
    assert s == AfterFinish(Initial(c), c.maxInsn);
    assert !Allowed(c, s, cbs[1]);
  }

  /** So a setup keeps its snapshots within the output, whatever the run, if and only if it takes none or has
      no instruction limit. */
  lemma LateSnapshots(c: Setup)
    requires c.maxInsn < U64
    ensures (forall cbs :: SaneRun(cbs) ==> AllAllowed(c, Initial(c), cbs))
            <==> c.config.snapEvery == 0 || c.maxInsn == 0
  {
    hide AllAllowed;
    hide Initial;
    hide Sane;
    if c.config.snapEvery == 0 || c.maxInsn == 0 {
      forall cbs | SaneRun(cbs)
        ensures AllAllowed(c, Initial(c), cbs)
      {
        EveryoneAllowed(c, cbs);
      }
    } else {
      LimitThenExitIsTooLate(c);
    }
  }

  lemma {:induction false} NeverLive(c: Setup, s: State, cbs: seq<Callback>)
    requires !s.live
    ensures !Run(c, s, cbs).live
  {
    hide After;
    hide Snaps;
    if cbs != [] {
      NeverLive(c, s, cbs[..|cbs| - 1]);
      AfterMoves(c, Run(c, s, cbs[..|cbs| - 1]), cbs[|cbs| - 1]);
    }
  }
}
