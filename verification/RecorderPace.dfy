/** The timing laws of Scheduler, carried to whole runs of the recording plugin. */
module RecorderPace {
  import opened Recorder
  import S = Scheduler

  /** A callback of nf_tb_check that does not end the recording. */
  predicate Ticks(c: Setup, cb: Callback) {
    cb.BlockStart? && !(c.maxInsn != 0 && cb.insn >= c.maxInsn)
  }

  /** A hit of a watch that takes throttled snapshots, with snapshots on. */
  predicate Fires(c: Setup, cb: Callback) {
    cb.Hit? && cb.snap && cb.throttle && c.config.snapEvery != 0
  }

  /** What a callback leaves of the two schedules. */
  lemma AfterSchedules(c: Setup, s: State, cb: Callback)
    ensures var t := After(c, s, cb);
            && (!cb.LockedBlock? ==>
                  t.timer == if Ticks(c, cb) then S.Check(c.config, s.timer, cb.insn).timer else s.timer)
            && t.events == if Fires(c, cb) && S.MayShoot(s.events, cb.insn, c.evSnapMin, c.evSnapMax)
                           then S.EventThrottle(s.events.taken + 1, cb.insn) else s.events
  {
    hide AfterSnapshot;
    hide AfterRecord;
    hide Notes;
    hide EndRec;
    hide S.LockedCheck;
    hide S.TooEarly;
    hide S.MayShoot;
    SnapshotsAside(c);
    RecordsAside();
  }

  lemma SnapshotsAside(c: Setup)
    ensures forall s, vcpu, insn, g, seekOk :: var t := AfterSnapshot(c, s, vcpu, insn, g, seekOk);
              t.timer == s.timer && t.events == s.events
  {
    hide Reach;
    hide Held;
    hide Total;
    hide PageRecs;
    hide Mark;
    hide Warnings;
  }

  lemma RecordsAside()
    ensures forall s, r :: var t := AfterRecord(s, r); t.timer == s.timer && t.events == s.events
  {
    hide Counted;
  }

  // ------------------------------------------------------------------ the timer

  /** The counts that the timer sees in a run. */
  function TickCounts(c: Setup, cbs: seq<Callback>): seq<nat> {
    if cbs == [] then []
    else
      var n := |cbs| - 1;
      TickCounts(c, cbs[..n]) + if Ticks(c, cbs[n]) then [cbs[n].insn] else []
  }

  /** The counts at which nf_tb_check takes the snapshots of a run. */
  function TimerShots(c: Setup, cbs: seq<Callback>): seq<nat> {
    if cbs == [] then []
    else
      var n := |cbs| - 1;
      TimerShots(c, cbs[..n]) +
      if cbs[n].BlockStart? && Snaps(c, Run(c, Initial(c), cbs[..n]), cbs[n]) then [cbs[n].insn] else []
  }

  function Ats(shots: seq<S.Shot>): (r: seq<nat>)
    ensures |r| == |shots| && forall i :: 0 <= i < |r| ==> r[i] == shots[i].at
  {
    if shots == [] then [] else Ats(shots[..|shots| - 1]) + [shots[|shots| - 1].at]
  }

  lemma RunOfNext(config: S.Config, insns: seq<nat>, insn: nat)
    ensures S.RunOf(config, insns + [insn]) == S.StepRun(config, S.RunOf(config, insns), insn)
  {
    assert (insns + [insn])[..|insns|] == insns;
  }

  lemma AtsNext(shots: seq<S.Shot>, s: S.Shot)
    ensures Ats(shots + [s]) == Ats(shots) + [s.at]
  {
    assert (shots + [s])[..|shots|] == shots;
  }

  /** On one vCPU the timer of a run is that of the counts it sees, and so are its snapshots. */
  lemma {:induction false} RunTimer(c: Setup, cbs: seq<Callback>)
    requires forall cb :: cb in cbs ==> !cb.LockedBlock?
    ensures var r := S.RunOf(c.config, TickCounts(c, cbs));
            Run(c, Initial(c), cbs).timer == r.timer && TimerShots(c, cbs) == Ats(r.shots)
  {
    hide After;
    hide S.Check;
    hide S.RunOf;
    hide Ats;
    if cbs == [] {
      NothingTimed(c);
    } else {
      var n := |cbs| - 1;
      RunTimer(c, cbs[..n]);
      AfterSchedules(c, Run(c, Initial(c), cbs[..n]), cbs[n]);
      if Ticks(c, cbs[n]) {
        var r := S.RunOf(c.config, TickCounts(c, cbs[..n]));
        RunOfNext(c.config, TickCounts(c, cbs[..n]), cbs[n].insn);
        var k := S.Check(c.config, r.timer, cbs[n].insn);
        AtsNext(r.shots, S.Shot(cbs[n].insn, r.lastShot, r.interval, k.crossed));
      } else {
        assert TickCounts(c, cbs) == TickCounts(c, cbs[..n]);
      }
    }
  }

  lemma NothingTimed(c: Setup)
    ensures S.RunOf(c.config, []) == S.StartRun(c.config) && Ats([]) == []
  {
  }

  /** The timer snapshots of a run on one vCPU: between one and the next, or the start, less than the
      interval chosen at the first and one block, and no less than that interval but for at most one, the
      one that crosses into the phase, which with sampling on comes less than a period and a block late. */
  lemma SnapshotsKeepPace(c: Setup, cbs: seq<Callback>, block: nat)
    requires forall cb :: cb in cbs ==> !cb.LockedBlock?
    requires S.Paced(c.config, TickCounts(c, cbs), block)
    ensures var r := S.RunOf(c.config, TickCounts(c, cbs));
            && TimerShots(c, cbs) == Ats(r.shots)
            && S.ShotsOk(c.config, r.shots, r.lastShot, r.timer.startSnapDone, block)
  {
    RunTimer(c, cbs);
    S.TimerKeepsPace(c.config, TickCounts(c, cbs), block);
    hide S.RunOf;
    hide S.ShotsOk;
  }

  // ------------------------------------------------------------------ event snapshots

  /** The counts that the event throttle sees in a run. */
  function FireCounts(c: Setup, cbs: seq<Callback>): seq<nat> {
    if cbs == [] then []
    else
      var n := |cbs| - 1;
      FireCounts(c, cbs[..n]) + if Fires(c, cbs[n]) then [cbs[n].insn] else []
  }

  /** The counts at which throttled watches take the snapshots of a run. */
  function EventShots(c: Setup, cbs: seq<Callback>): seq<nat> {
    if cbs == [] then []
    else
      var n := |cbs| - 1;
      EventShots(c, cbs[..n]) +
      if Fires(c, cbs[n]) && Snaps(c, Run(c, Initial(c), cbs[..n]), cbs[n]) then [cbs[n].insn] else []
  }

  lemma EventsNext(insns: seq<nat>, insn: nat, min: nat, max: nat)
    ensures var (e, taken) := S.EventsTaken(insns, min, max);
            S.EventsTaken(insns + [insn], min, max)
            == if S.MayShoot(e, insn, min, max) then (S.EventThrottle(e.taken + 1, insn), taken + [insn])
               else (e, taken)
  {
    assert (insns + [insn])[..|insns|] == insns;
  }

  /** The throttle of a run is that of the counts it sees, and so are the event snapshots. */
  lemma {:induction false} RunEvents(c: Setup, cbs: seq<Callback>)
    ensures (Run(c, Initial(c), cbs).events, EventShots(c, cbs))
            == S.EventsTaken(FireCounts(c, cbs), c.evSnapMin, c.evSnapMax)
  {
    hide After;
    hide S.MayShoot;
    if cbs != [] {
      var n := |cbs| - 1;
      RunEvents(c, cbs[..n]);
      AfterSchedules(c, Run(c, Initial(c), cbs[..n]), cbs[n]);
      if Fires(c, cbs[n]) {
        EventsNext(FireCounts(c, cbs[..n]), cbs[n].insn, c.evSnapMin, c.evSnapMax);
        var shoots := S.MayShoot(Run(c, Initial(c), cbs[..n]).events, cbs[n].insn, c.evSnapMin, c.evSnapMax);
        assert Snaps(c, Run(c, Initial(c), cbs[..n]), cbs[n]) == shoots;
        assert EventShots(c, cbs) == EventShots(c, cbs[..n]) + if shoots then [cbs[n].insn] else [];
        assert EventShots(c, cbs[..n]) + [] == EventShots(c, cbs[..n]);
      } else {
        assert FireCounts(c, cbs) == FireCounts(c, cbs[..n]) && EventShots(c, cbs) == EventShots(c, cbs[..n]);
      }
    }
  }

  /** The event snapshots of a run: never more than the maximum and, for counts above zero that never
      decrease, at least the minimum apart. */
  lemma EventSnapshotsSpaced(c: Setup, cbs: seq<Callback>)
    ensures |EventShots(c, cbs)| <= c.evSnapMax
    ensures (forall i :: 0 <= i < |FireCounts(c, cbs)| ==> 0 < FireCounts(c, cbs)[i] < U64) &&
            (forall i, j :: 0 <= i < j < |FireCounts(c, cbs)| ==> FireCounts(c, cbs)[i] <= FireCounts(c, cbs)[j]) ==>
              forall i :: 0 < i < |EventShots(c, cbs)| ==>
                EventShots(c, cbs)[i] >= EventShots(c, cbs)[i - 1] + c.evSnapMin
  {
    RunEvents(c, cbs);
    hide Run;
    hide FireCounts;
    hide EventShots;
    var insns := FireCounts(c, cbs);
    S.EventsBounded(insns, c.evSnapMin, c.evSnapMax);
    if (forall i :: 0 <= i < |insns| ==> 0 < insns[i] < U64) &&
       (forall i, j :: 0 <= i < j < |insns| ==> insns[i] <= insns[j]) {
      S.EventsSpaced(insns, c.evSnapMin, c.evSnapMax);
    }
  }
}
