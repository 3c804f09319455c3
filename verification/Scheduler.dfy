/** When the plugin samples and snapshots: the timer of nf_tb_check and the throttle on event
    snapshots in nf_watch_hit. Counters are 64-bit and wrap. */
module Scheduler {

  const U64 := 0x1_0000_0000_0000_0000

  datatype Config = Config(sampleEvery: nat, snapEvery: nat, bootSnapEvery: nat, snapStart: nat)

  datatype Timer = Timer(nextSample: nat, nextSnap: nat, startSnapDone: bool)

  /** qemu_plugin_install. */
  function InitialTimer(c: Config): Timer {
    Timer(if c.sampleEvery != 0 then c.sampleEvery else U64 - 1,
          if c.snapEvery == 0 then U64 - 1
          else if c.bootSnapEvery != 0 then c.bootSnapEvery else c.snapEvery,
          false)
  }

  /** The interval chosen for the snapshot after one taken at `insn`. */
  function Interval(c: Config, insn: nat): nat {
    if insn >= c.snapStart then c.snapEvery
    else if c.bootSnapEvery != 0 then c.bootSnapEvery else c.snapEvery
  }

  /** What one call did: the timer it left, whether it sampled, whether it took a snapshot, and
      whether that snapshot was the one that marks the end of the boot phase. */
  datatype Tick = Tick(timer: Timer, sampled: bool, snapped: bool, crossed: bool)

  /** What is done under the lock. */
  function LockedCheck(c: Config, t: Timer, insn: nat): Tick {
    var sampled := c.sampleEvery != 0 && insn >= t.nextSample;
    var nextSample := if sampled then (insn + c.sampleEvery) % U64 else t.nextSample;
    var crossed := c.snapEvery != 0 && !t.startSnapDone && c.snapStart != 0 && insn >= c.snapStart;
    var snapped := crossed || (c.snapEvery != 0 && insn >= t.nextSnap);
    var nextSnap := if snapped then (insn + Interval(c, insn)) % U64 else t.nextSnap;
    Tick(Timer(nextSample, nextSnap, t.startSnapDone || crossed), sampled, snapped, crossed)
  }

  /** Is it too early to take the lock at all? */
  predicate TooEarly(t: Timer, insn: nat) {
    insn < t.nextSample && insn < t.nextSnap
  }

  function Check(c: Config, t: Timer, insn: nat): Tick {
    if TooEarly(t, insn) then Tick(t, false, false, false) else LockedCheck(c, t, insn)
  }

  // ------------------------------------------------------------------ runs of one vCPU

  /** A timer snapshot: when it was taken, when the one before it was, and the interval chosen then.
      The start of the run counts as a snapshot at 0. */
  datatype Shot = Shot(at: nat, previous: nat, interval: nat, crossed: bool)

  datatype Run = Run(timer: Timer, now: nat, lastShot: nat, interval: nat, lastSample: nat, shots: seq<Shot>)

  function StartRun(c: Config): Run {
    Run(InitialTimer(c), 0, 0, InitialTimer(c).nextSnap, 0, [])
  }

  function StepRun(c: Config, r: Run, insn: nat): Run {
    var k := Check(c, r.timer, insn);
    Run(k.timer, insn,
        if k.snapped then insn else r.lastShot,
        if k.snapped then Interval(c, insn) else r.interval,
        if k.sampled then insn else r.lastSample,
        if k.snapped then r.shots + [Shot(insn, r.lastShot, r.interval, k.crossed)] else r.shots)
  }

  function RunOf(c: Config, insns: seq<nat>): Run {
    if insns == [] then StartRun(c)
    else StepRun(c, RunOf(c, insns[..|insns| - 1]), insns[|insns| - 1])
  }

  /** One vCPU whose translation blocks have at most `block` instructions: each call sees a count at
      most `block` above the previous one, and no deadline passes 2^64. */
  ghost predicate Paced(c: Config, insns: seq<nat>, block: nat) {
    && c.snapEvery > 0
    && (insns != [] ==> insns[0] <= block)
    && (forall i :: 0 < i < |insns| ==> insns[i - 1] <= insns[i] <= insns[i - 1] + block)
    && (forall i :: 0 <= i < |insns| ==>
          insns[i] + c.sampleEvery < U64 && insns[i] + c.snapEvery < U64 && insns[i] + c.bootSnapEvery < U64)
  }

  ghost predicate ShotFits(c: Config, s: Shot, block: nat) {
    && s.at < s.previous + s.interval + block
    && (!s.crossed ==> s.previous + s.interval <= s.at)
    && (s.crossed ==> c.snapStart <= s.at)
    && (s.crossed && c.sampleEvery > 0 ==> s.at < c.snapStart + c.sampleEvery + block)
    && (s.crossed ==> s.previous < s.at)
  }

  /** When the snapshot before the i-th was taken. */
  function Before(shots: seq<Shot>, i: nat): nat
    requires i <= |shots|
  {
    if i == 0 then 0 else shots[i - 1].at
  }

  ghost predicate Chained(shots: seq<Shot>, last: nat) {
    && (forall i :: 0 <= i < |shots| ==> shots[i].previous == Before(shots, i))
    && last == Before(shots, |shots|)
  }

  ghost predicate ShotsOk(c: Config, shots: seq<Shot>, last: nat, crossed: bool, block: nat) {
    && (forall i :: 0 <= i < |shots| ==> ShotFits(c, shots[i], block))
    && (forall i :: 0 <= i < |shots| ==> shots[i].crossed ==> crossed)
    && (forall i, j :: 0 <= i < j < |shots| ==> !(shots[i].crossed && shots[j].crossed))
    && Chained(shots, last)
  }

  ghost predicate RunOk(c: Config, r: Run, block: nat) {
    && r.timer.nextSnap == r.lastShot + r.interval
    && r.lastShot <= r.now && r.lastSample <= r.now
    && r.now < r.timer.nextSnap
    && (c.sampleEvery > 0 ==> r.timer.nextSample == r.lastSample + c.sampleEvery && r.now < r.timer.nextSample)
    && (!r.timer.startSnapDone && c.snapStart > 0 ==>
          && r.lastShot < c.snapStart
          && (c.sampleEvery > 0 ==> r.lastSample < c.snapStart))
    && ShotsOk(c, r.shots, r.lastShot, r.timer.startSnapDone, block)
  }

  lemma ShotsGrow(c: Config, shots: seq<Shot>, s: Shot, crossed: bool, block: nat)
    requires ShotsOk(c, shots, s.previous, crossed, block) && ShotFits(c, s, block)
    requires s.crossed ==> !crossed
    ensures ShotsOk(c, shots + [s], s.at, crossed || s.crossed, block)
  {
    ChainGrows(shots, s);
    var more := shots + [s];
    assert forall i :: 0 <= i < |shots| ==> more[i] == shots[i];
  }

  lemma ChainGrows(shots: seq<Shot>, s: Shot)
    requires Chained(shots, s.previous)
    ensures Chained(shots + [s], s.at)
  {
    var more := shots + [s];
    forall i | 0 <= i < |more|
      ensures more[i].previous == Before(more, i)
    {
      assert Before(more, i) == Before(shots, i);
    }
  }

  lemma StepRunOk(c: Config, r: Run, insn: nat, block: nat)
    requires RunOk(c, r, block) && c.snapEvery > 0
    requires r.now <= insn <= r.now + block
    requires insn + c.sampleEvery < U64 && insn + c.snapEvery < U64 && insn + c.bootSnapEvery < U64
    ensures RunOk(c, StepRun(c, r, insn), block)
  {
    hide ShotsOk;
    var tick := Check(c, r.timer, insn);
    if tick.snapped {
      ShotsGrow(c, r.shots, Shot(insn, r.lastShot, r.interval, tick.crossed), r.timer.startSnapDone, block);
    }
  }

  /** Along every paced run: a snapshot comes less than its chosen interval plus one block after the
      previous one, and not before the interval is over unless it is the phase-crossing one; the
      phase-crossing snapshot happens at most once and, with sampling on, less than one sampling
      period plus one block after snapStart; and once the count is past that bound it has happened. */
  lemma {:induction false} TimerKeepsPace(c: Config, insns: seq<nat>, block: nat)
    requires Paced(c, insns, block)
    ensures var r := RunOf(c, insns);
            && RunOk(c, r, block)
            && (insns != [] ==> r.now == insns[|insns| - 1])
            && (insns == [] ==> r.now == 0)
            && (c.sampleEvery > 0 && c.snapStart > 0 && r.now >= c.snapStart + c.sampleEvery + block
                ==> r.timer.startSnapDone)
  {
    if insns != [] {
      var n := |insns| - 1;
      TimerKeepsPace(c, insns[..n], block);
      StepRunOk(c, RunOf(c, insns[..n]), insns[n], block);
    }
  }

  // ------------------------------------------------------------------ event snapshots

  datatype EventThrottle = EventThrottle(taken: nat, last: nat)

  /** May a throttled watch take a snapshot now? `last == 0` means none was taken yet; the distance
      is an unsigned 64-bit difference. */
  predicate MayShoot(e: EventThrottle, insn: nat, min: nat, max: nat) {
    && e.taken < max
    && !(e.last != 0 && (insn - e.last) % U64 < min)
  }

  function EventsTaken(insns: seq<nat>, min: nat, max: nat): (r: (EventThrottle, seq<nat>)) {
    if insns == [] then (EventThrottle(0, 0), [])
    else
      var n := |insns| - 1;
      var (e, taken) := EventsTaken(insns[..n], min, max);
      if MayShoot(e, insns[n], min, max) then (EventThrottle(e.taken + 1, insns[n]), taken + [insns[n]])
      else (e, taken)
  }

  /** However often throttled watches fire, and in whatever order their counts come, at most `max`
      event snapshots are taken. */
  lemma {:induction false} EventsBounded(insns: seq<nat>, min: nat, max: nat)
    ensures var (e, taken) := EventsTaken(insns, min, max);
            && |taken| == e.taken <= max
            && (taken != [] ==> e.last == taken[|taken| - 1])
            && (taken == [] ==> e.last == 0)
            && (forall i :: 0 <= i < |taken| ==> taken[i] in insns)
  {
    if insns != [] {
      EventsBounded(insns[..|insns| - 1], min, max);
    }
  }

  /** With counts that start above zero and never decrease, event snapshots are at least `min`
      instructions apart. */
  lemma {:induction false} EventsSpaced(insns: seq<nat>, min: nat, max: nat)
    requires forall i :: 0 <= i < |insns| ==> 0 < insns[i] < U64
    requires forall i, j :: 0 <= i < j < |insns| ==> insns[i] <= insns[j]
    ensures var taken := EventsTaken(insns, min, max).1;
            forall i :: 0 < i < |taken| ==> taken[i] >= taken[i - 1] + min
  {
    if insns != [] {
      var n := |insns| - 1;
      EventsSpaced(insns[..n], min, max);
      EventsBounded(insns[..n], min, max);
      var (e, taken) := EventsTaken(insns[..n], min, max);
      if taken != [] {
        assert taken[|taken| - 1] in insns[..n];
        assert 0 < e.last <= insns[n];
      }
    }
  }
}
