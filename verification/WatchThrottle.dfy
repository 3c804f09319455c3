/** The rate throttle of nf_watch_hit under concurrent vCPUs. The hit counter is an atomic
    fetch-and-add outside the lock; what follows from it, a drop or a record, happens later and in
    any order, so a state holds the hits still on their way. */
module WatchThrottle {
  import opened Arithmetic

  datatype Watch = Watch(rate: nat, snap: bool, nftrace: bool, throttle: bool)
  {
    predicate Throttled() {
      rate > 1 && !snap && !nftrace
    }
  }

  /** What a vCPU has decided to do about its hit but not done yet. */
  datatype Pending = Pending(wid: nat, drop: bool)

  /** `hits` are the per-watch atomic counters, `arrived` all hits of each watch, `recorded` and
      `dropped` what became of them, `drops` the plugin's one drop counter. */
  datatype State = State(hits: seq<nat>, arrived: seq<nat>, recorded: seq<nat>, dropped: seq<nat>,
                         drops: nat, pending: seq<Pending>)

  datatype Step = Arrive(wid: nat) | Settle(which: nat)

  function Init(n: nat): State {
    State(seq(n, _ => 0), seq(n, _ => 0), seq(n, _ => 0), seq(n, _ => 0), 0, [])
  }

  predicate Enabled(ws: seq<Watch>, s: State, step: Step) {
    match step
    case Arrive(wid) => wid < |ws|
    case Settle(k) => k < |s.pending|
  }

  function Bump(counts: seq<nat>, i: nat): (r: seq<nat>)
    requires i < |counts|
    ensures |r| == |counts|
  {
    counts[i := counts[i] + 1]
  }

  predicate Sized(ws: seq<Watch>, s: State) {
    && |s.hits| == |s.arrived| == |s.recorded| == |s.dropped| == |ws|
    && forall k :: 0 <= k < |s.pending| ==> s.pending[k].wid < |ws|
  }

  /** One step: the atomic increment with its decision, or the later effect of one pending hit. */
  function Next(ws: seq<Watch>, s: State, step: Step): (r: State)
    requires Sized(ws, s) && Enabled(ws, s, step)
    ensures Sized(ws, r)
  {
    match step
    case Arrive(wid) =>
      var n := s.hits[wid];
      if ws[wid].Throttled() then
        s.(hits := Bump(s.hits, wid), arrived := Bump(s.arrived, wid),
           pending := s.pending + [Pending(wid, n % ws[wid].rate != 0)])
      else
        s.(arrived := Bump(s.arrived, wid), pending := s.pending + [Pending(wid, false)])
    case Settle(k) =>
      var p := s.pending[k];
      var rest := s.pending[..k] + s.pending[k + 1..];
      if p.drop then s.(drops := s.drops + 1, dropped := Bump(s.dropped, p.wid), pending := rest)
      else s.(recorded := Bump(s.recorded, p.wid), pending := rest)
  }

  /** Run the steps that are enabled when their turn comes. */
  function Run(ws: seq<Watch>, steps: seq<Step>): (s: State)
    ensures Sized(ws, s)
  {
    if steps == [] then Init(|ws|)
    else
      var s := Run(ws, steps[..|steps| - 1]);
      if Enabled(ws, s, steps[|steps| - 1]) then Next(ws, s, steps[|steps| - 1]) else s
  }

  // ------------------------------------------------------------------ counting

  function Waiting(pending: seq<Pending>, p: Pending): nat {
    if pending == [] then 0
    else (if pending[0] == p then 1 else 0) + Waiting(pending[1..], p)
  }

  lemma {:induction false} WaitingAppend(a: seq<Pending>, b: seq<Pending>, p: Pending)
    ensures Waiting(a + b, p) == Waiting(a, p) + Waiting(b, p)
  {
    if a == [] {
      assert a + b == b;
    } else {
      WaitingAppend(a[1..], b, p);
      assert (a + b)[1..] == a[1..] + b;
    }
  }

  lemma WaitingRemove(pending: seq<Pending>, k: nat, p: Pending)
    requires k < |pending|
    ensures Waiting(pending[..k] + pending[k + 1..], p) + (if pending[k] == p then 1 else 0) == Waiting(pending, p)
  {
    assert pending == pending[..k] + ([pending[k]] + pending[k + 1..]);
    WaitingAppend(pending[..k], [pending[k]] + pending[k + 1..], p);
    WaitingAppend([pending[k]], pending[k + 1..], p);
    WaitingAppend(pending[..k], pending[k + 1..], p);
  }

  lemma {:induction false} SumBump(counts: seq<nat>, i: nat)
    requires i < |counts|
    ensures Sum(Bump(counts, i)) == Sum(counts) + 1
  {
    if i > 0 {
      SumBump(counts[1..], i - 1);
      assert Bump(counts, i)[1..] == Bump(counts[1..], i - 1);
    }
  }

  lemma {:induction false} SumZeros(n: nat)
    ensures Sum(seq(n, _ => 0)) == 0
  {
    if n > 0 {
      SumZeros(n - 1);
      assert seq(n, _ => 0)[1..] == seq(n - 1, _ => 0);
    }
  }

  /** How many of `n` consecutive hits a rate `r` lets through: the first of every `r`. */
  function Passed(n: nat, r: nat): nat
    requires r > 0
  {
    (n + r - 1) / r
  }

  lemma PassedForm(q: nat, m: nat, r: nat)
    requires m < r
    ensures Passed(q * r + m, r) == q + if m > 0 then 1 else 0
  {
    if m == 0 {
      DivRest(q, r, r - 1);
    } else {
      assert q * r + m + r - 1 == (q + 1) * r + (m - 1);
      DivRest(q + 1, r, m - 1);
    }
  }

  lemma PassedNext(n: nat, r: nat)
    requires r > 0
    ensures Passed(n + 1, r) == Passed(n, r) + if n % r == 0 then 1 else 0
  {
    var q, m := n / r, n % r;
    assert n == q * r + m;
    PassedForm(q, m, r);
    if m + 1 < r {
      PassedForm(q, m + 1, r);
    } else {
      assert n + 1 == (q + 1) * r + 0;
      PassedForm(q + 1, 0, r);
    }
  }

  // ------------------------------------------------------------------ every reachable state

  /** For each watch: what was let through is recorded or about to be, what was held back is dropped
      or about to be, and nothing else happened. */
  ghost predicate Tallied(ws: seq<Watch>, s: State, w: nat)
    requires Sized(ws, s) && w < |ws|
  {
    var through := if ws[w].Throttled() then Passed(s.arrived[w], ws[w].rate) else s.arrived[w];
    && (ws[w].Throttled() ==> s.hits[w] == s.arrived[w])
    && s.recorded[w] + Waiting(s.pending, Pending(w, false)) == through
    && s.dropped[w] + Waiting(s.pending, Pending(w, true)) + through == s.arrived[w]
  }

  lemma ArriveTallied(ws: seq<Watch>, s: State, wid: nat, w: nat)
    requires Sized(ws, s) && wid < |ws| && w < |ws| && Tallied(ws, s, w)
    ensures Tallied(ws, Next(ws, s, Arrive(wid)), w)
  {
    hide Waiting;
    hide Passed;
    var p := Next(ws, s, Arrive(wid)).pending[|s.pending|];
    WaitingAppend(s.pending, [p], Pending(w, false));
    WaitingAppend(s.pending, [p], Pending(w, true));
    WaitingOne(p, Pending(w, false));
    WaitingOne(p, Pending(w, true));
    if ws[w].Throttled() {
      PassedNext(s.arrived[w], ws[w].rate);
    }
  }

  lemma WaitingOne(p: Pending, q: Pending)
    ensures Waiting([p], q) == if p == q then 1 else 0
  {
    assert [p][1..] == [] && Waiting([], q) == 0;
  }

  lemma NextTallied(ws: seq<Watch>, s: State, step: Step, w: nat)
    requires Sized(ws, s) && Enabled(ws, s, step) && w < |ws| && Tallied(ws, s, w)
    ensures Tallied(ws, Next(ws, s, step), w)
  {
    hide Waiting;
    hide Passed;
    match step
    case Arrive(wid) => ArriveTallied(ws, s, wid, w);
    case Settle(k) =>
      WaitingRemove(s.pending, k, Pending(w, false));
      WaitingRemove(s.pending, k, Pending(w, true));
  }

  /** In every state any interleaving reaches, each watch is tallied and the global counter is the
      sum of the drops of all watches. */
  lemma {:induction false} RunTallied(ws: seq<Watch>, steps: seq<Step>)
    ensures var s := Run(ws, steps);
            && (forall w :: 0 <= w < |ws| ==> Tallied(ws, s, w))
            && s.drops == Sum(s.dropped)
  {
    if steps == [] {
      SumZeros(|ws|);
    } else {
      var before, last := Run(ws, steps[..|steps| - 1]), steps[|steps| - 1];
      RunTallied(ws, steps[..|steps| - 1]);
      if Enabled(ws, before, last) {
        forall w | 0 <= w < |ws|
          ensures Tallied(ws, Next(ws, before, last), w)
        {
          NextTallied(ws, before, last, w);
        }
        if last.Settle? && before.pending[last.which].drop {
          SumBump(before.dropped, before.pending[last.which].wid);
        }
      }
    }
  }

  /** Once no hit is on its way, a watch of rate r hit n times has given exactly ceil(n / r) records
      and n - ceil(n / r) drops; one that is not throttled has given a record for every hit. */
  lemma QuiescentTotals(ws: seq<Watch>, steps: seq<Step>)
    requires Run(ws, steps).pending == []
    ensures var s := Run(ws, steps);
            && (forall w :: 0 <= w < |ws| ==>
                  var n := s.arrived[w];
                  if ws[w].Throttled() then
                    s.recorded[w] == Passed(n, ws[w].rate) && s.dropped[w] + Passed(n, ws[w].rate) == n
                  else s.recorded[w] == n && s.dropped[w] == 0)
            && s.drops == Sum(s.dropped)
  {
    RunTallied(ws, steps);
    forall w | 0 <= w < |ws|
      ensures var n, s := Run(ws, steps).arrived[w], Run(ws, steps);
              if ws[w].Throttled() then
                s.recorded[w] == Passed(n, ws[w].rate) && s.dropped[w] + Passed(n, ws[w].rate) == n
              else s.recorded[w] == n && s.dropped[w] == 0
    {
      assert Tallied(ws, Run(ws, steps), w);
      assert Waiting([], Pending(w, false)) == 0 && Waiting([], Pending(w, true)) == 0;
    }
  }
}
