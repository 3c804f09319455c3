/** The event sampler of nodefusion/host/bundle.py: a budget split over event kinds, and a systematic
    sample of each kind. */
module EventSampler {
  import opened Arithmetic

  const MAX_EVENTS := 150000
  const MIN_SPARE_EVENTS := 25000
  const MIN_KIND_EVENTS := 64

  // ------------------------------------------------------------------ splitting a budget

  function Floors(counts: seq<nat>, floor: nat): (r: seq<nat>)
    ensures |r| == |counts|
    ensures forall i :: 0 <= i < |r| ==> r[i] == Min(counts[i], floor)
  {
    if counts == [] then [] else [Min(counts[0], floor)] + Floors(counts[1..], floor)
  }

  /** The part of `remaining` that falls to a residual when the running total of residuals is scaled
      down to it. */
  function Share(cumulative: nat, residual: nat, remaining: int, total: nat): int
    requires total > 0
  {
    (cumulative + residual) * remaining / total - cumulative * remaining / total
  }

  /** What each kind gets beyond its floor. */
  function Extras(counts: seq<nat>, floor: nat, cumulative: nat, remaining: int, total: nat): (r: seq<int>)
    requires total > 0
    ensures |r| == |counts|
  {
    if counts == [] then []
    else
      var residual := counts[0] - Min(counts[0], floor);
      [Share(cumulative, residual, remaining, total)]
      + Extras(counts[1..], floor, cumulative + residual, remaining, total)
  }

  function OneEach(n: nat, budget: nat): (r: seq<nat>)
    ensures |r| == n
    ensures forall i :: 0 <= i < n ==> r[i] == if i < budget then 1 else 0
  {
    if n == 0 then [] else OneEach(n - 1, budget) + [if n - 1 < budget then 1 else 0]
  }

  function FloorOf(counts: seq<nat>, budget: nat): nat
    requires counts != []
  {
    Min(MIN_KIND_EVENTS, budget / |counts|)
  }

  /** The quotas of _kind_budgets, in the order of the counts. */
  function Quotas(counts: seq<nat>, budget: nat): (r: seq<int>)
    ensures |r| == |counts|
  {
    if counts == [] then []
    else
      var floor := FloorOf(counts, budget);
      if floor == 0 then OneEach(|counts|, budget)
      else
        var floors := Floors(counts, floor);
        FloorsFit(counts, floor);
        var total := Sum(counts) - Sum(floors);
        if total == 0 then floors
        else Plus(floors, Extras(counts, floor, 0, budget - Sum(floors), total))
  }

  function Plus(a: seq<nat>, b: seq<int>): (r: seq<int>)
    requires |a| == |b|
    ensures |r| == |a|
    ensures forall i :: 0 <= i < |a| ==> r[i] == a[i] + b[i]
  {
    if a == [] then [] else [a[0] + b[0]] + Plus(a[1..], b[1..])
  }

  function SumInt(s: seq<int>): int {
    if s == [] then 0 else s[0] + SumInt(s[1..])
  }

  lemma {:induction false} SumOfPlus(a: seq<nat>, b: seq<int>)
    requires |a| == |b|
    ensures SumInt(Plus(a, b)) == Sum(a) + SumInt(b)
  {
    if a != [] {
      SumOfPlus(a[1..], b[1..]);
    }
  }

  lemma {:induction false} FloorsFit(counts: seq<nat>, floor: nat)
    ensures Sum(Floors(counts, floor)) <= Sum(counts)
  {
    if counts != [] {
      FloorsFit(counts[1..], floor);
    }
  }

  lemma {:induction false} FloorsSmall(counts: seq<nat>, floor: nat)
    ensures Sum(Floors(counts, floor)) <= floor * |counts|
  {
    if counts != [] {
      FloorsSmall(counts[1..], floor);
      assert floor * |counts| == floor + floor * |counts[1..]|;
    }
  }

  /** Scaling by remaining/total, no more than 1, is monotone and moves no faster than its argument. */
  lemma ScaleStep(x: nat, r: nat, remaining: nat, total: nat)
    requires total > 0 && remaining <= total
    ensures 0 <= (x + r) * remaining / total - x * remaining / total <= r
  {
    var a, b := x * remaining, (x + r) * remaining;
    assert b == a + r * remaining;
    assert 0 <= r * remaining <= r * total by {
      MulMono(remaining, total, r);
    }
    var q := a / total;
    assert q * total <= a < (q + 1) * total;
    assert (q + r + 1) * total == (q + 1) * total + r * total;
    DivBetween(b, q, q + r, total);
  }

  lemma DivBetween(x: int, lo: int, hi: int, d: int)
    requires d > 0 && lo * d <= x < (hi + 1) * d
    ensures lo <= x / d <= hi
  {
    var k := x / d;
    assert k * d <= x < (k + 1) * d;
    MulMono(k + 1, lo, d);
    MulMono(hi + 1, k, d);
  }

  /** The extras telescope: together they are exactly what remains, and none exceeds its residual. */
  lemma {:induction false} ExtrasTelescope(counts: seq<nat>, floor: nat, cumulative: nat, remaining: nat, total: nat)
    requires total > 0 && remaining <= total
    ensures var extras := Extras(counts, floor, cumulative, remaining, total);
            && (forall i :: 0 <= i < |counts| ==> 0 <= extras[i] <= counts[i] - Min(counts[i], floor))
            && SumInt(extras) == (cumulative + Sum(counts) - Sum(Floors(counts, floor))) * remaining / total
                                 - cumulative * remaining / total
  {
    if counts != [] {
      var residual := counts[0] - Min(counts[0], floor);
      ScaleStep(cumulative, residual, remaining, total);
      ExtrasTelescope(counts[1..], floor, cumulative + residual, remaining, total);
    }
  }

  lemma {:induction false} SumOneEach(n: nat, budget: nat)
    ensures SumInt(OneEach(n, budget)) == Min(n, budget)
  {
    if n > 0 {
      SumOneEach(n - 1, budget);
      SumAppend(OneEach(n - 1, budget), if n - 1 < budget then 1 else 0);
    }
  }

  lemma {:induction false} SumAppend(s: seq<int>, x: int)
    ensures SumInt(s + [x]) == SumInt(s) + x
  {
    if s == [] {
      assert [] + [x] == [x] && SumInt([x]) == x + SumInt([]);
    } else {
      assert (s + [x])[1..] == s[1..] + [x];
      SumAppend(s[1..], x);
    }
  }

  lemma {:induction false} SumIntOfNats(s: seq<nat>)
    ensures SumInt(s) == Sum(s)
  {
    if s != [] {
      SumIntOfNats(s[1..]);
    }
  }

  lemma FloorsWithinBudget(counts: seq<nat>, budget: nat)
    requires counts != []
    ensures Sum(Floors(counts, FloorOf(counts, budget))) <= budget
    ensures FloorOf(counts, budget) == 0 <==> budget < |counts|
  {
    var n := |counts|;
    PerKind(budget, n);
    FloorsSmall(counts, FloorOf(counts, budget));
    MulMono(FloorOf(counts, budget), budget / n, n);
  }

  lemma PerKind(budget: nat, n: nat)
    requires n > 0
    ensures 0 <= budget / n * n <= budget
    ensures budget / n == 0 <==> budget < n
  {
    var per := budget / n;
    assert per * n <= budget < per * n + n;
    MulMono(1, per, n);
  }

  lemma AllOfIt(total: nat, remaining: nat)
    requires total > 0
    ensures total * remaining / total - 0 * remaining / total == remaining
  {
    DivRest(remaining, total, 0);
    assert total * remaining == remaining * total;
    assert 0 * remaining == 0;
  }

  lemma ShareFits(counts: seq<nat>, floor: nat, budget: nat)
    requires Sum(Floors(counts, floor)) <= budget <= Sum(counts) && Sum(Floors(counts, floor)) < Sum(counts)
    ensures var floors := Floors(counts, floor);
            Fits(counts, budget, floor,
                 Plus(floors, Extras(counts, floor, 0, budget - Sum(floors), Sum(counts) - Sum(floors))))
  {
    hide Extras;
    hide Plus;
    hide Floors;
    hide Sum;
    hide SumInt;
    var floors := Floors(counts, floor);
    var remaining, total := budget - Sum(floors), Sum(counts) - Sum(floors);
    ExtrasTelescope(counts, floor, 0, remaining, total);
    SumOfPlus(floors, Extras(counts, floor, 0, remaining, total));
    AllOfIt(total, remaining);
  }

  /** The quotas use up the budget, and each lies between the lesser of count and floor and the count. */
  ghost predicate Fits(counts: seq<nat>, budget: nat, floor: nat, quotas: seq<int>) {
    && |quotas| == |counts| && SumInt(quotas) == budget
    && forall i :: 0 <= i < |counts| ==> Min(counts[i], floor) <= quotas[i] <= counts[i]
  }

  lemma FitsOneEach(counts: seq<nat>, budget: nat)
    requires budget < |counts| && forall i :: 0 <= i < |counts| ==> counts[i] > 0
    ensures Fits(counts, budget, 0, OneEach(|counts|, budget))
  {
    hide SumInt;
    SumOneEach(|counts|, budget);
  }

  lemma FitsFloors(counts: seq<nat>, budget: nat, floor: nat)
    requires Sum(Floors(counts, floor)) == budget
    ensures Fits(counts, budget, floor, Floors(counts, floor))
  {
    hide SumInt;
    SumIntOfNats(Floors(counts, floor));
  }

  lemma NoQuotas(budget: nat)
    ensures Quotas([], budget) == [] && Sum([]) == 0
  {
  }

  lemma QuotasCases(counts: seq<nat>, budget: nat)
    requires counts != []
    ensures var floor := FloorOf(counts, budget);
            var floors := Floors(counts, floor);
            && Sum(floors) <= Sum(counts)
            && (floor == 0 ==> Quotas(counts, budget) == OneEach(|counts|, budget))
            && (floor != 0 && Sum(floors) == Sum(counts) ==> Quotas(counts, budget) == floors)
            && (floor != 0 && Sum(floors) < Sum(counts) ==>
                 Quotas(counts, budget)
                 == Plus(floors, Extras(counts, floor, 0, budget - Sum(floors), Sum(counts) - Sum(floors))))
  {
    hide FloorOf;
    hide Extras;
    hide Plus;
    hide OneEach;
    hide Floors;
    hide Sum;
    FloorsFit(counts, FloorOf(counts, budget));
  }

  /** A budget no larger than the events is used up exactly; no kind gets more than it has, and each
      gets at least its count or the floor, whichever is less. */
  lemma QuotasFit(counts: seq<nat>, budget: nat)
    requires budget <= Sum(counts) && forall i :: 0 <= i < |counts| ==> counts[i] > 0
    ensures counts != [] ==> Fits(counts, budget, FloorOf(counts, budget), Quotas(counts, budget))
    ensures counts == [] ==> Quotas(counts, budget) == [] && budget == 0
  {
    hide FloorOf;
    hide Fits;
    hide Extras;
    hide Plus;
    hide OneEach;
    hide Floors;
    hide Sum;
    hide Quotas;
    if counts == [] {
      NoQuotas(budget);
    } else {
      QuotasCases(counts, budget);
      var floor := FloorOf(counts, budget);
      FloorsWithinBudget(counts, budget);
      if floor == 0 {
        FitsOneEach(counts, budget);
      } else if Sum(Floors(counts, floor)) < Sum(counts) {
        ShareFits(counts, floor, budget);
      } else {
        FitsFloors(counts, budget, floor);
      }
    }
  }

  // ------------------------------------------------------------------ sampling one kind

  /** Is the event that comes after `seen` others of its kind kept, for a kind of `total` events with
      this quota? */
  predicate Kept(seen: nat, quota: int, total: nat)
    requires seen < total
  {
    if seen == 0 then quota > 0
    else quota > 1 && seen * (quota - 1) / (total - 1) > (seen - 1) * (quota - 1) / (total - 1)
  }

  function KeptBelow(n: nat, quota: int, total: nat): nat
    requires n <= total
  {
    if n == 0 then 0 else KeptBelow(n - 1, quota, total) + if Kept(n - 1, quota, total) then 1 else 0
  }

  lemma ScaleOne(x: nat, m: nat, d: nat)
    requires d > 0 && m <= d
    ensures x * m / d <= (x + 1) * m / d <= x * m / d + 1
  {
    ScaleStep(x, 1, m, d);
  }

  /** The number kept so far, in closed form. */
  lemma {:induction false} KeptSoFar(n: nat, quota: nat, total: nat)
    requires 0 < n <= total && quota <= total
    ensures KeptBelow(n, quota, total) ==
            if quota <= 1 || total <= 1 then quota else 1 + (n - 1) * (quota - 1) / (total - 1)
  {
    if n == 1 {
      assert KeptBelow(1, quota, total) == KeptBelow(0, quota, total) + if Kept(0, quota, total) then 1 else 0;
      if quota > 1 {
        DivRest(0, total - 1, 0);
      }
    } else {
      KeptSoFar(n - 1, quota, total);
      if quota > 1 {
        KeptNext(n - 1, quota, total);
      }
    }
  }

  lemma KeptNext(n: nat, quota: nat, total: nat)
    requires 0 < n < total && 1 < quota <= total
    ensures n * (quota - 1) / (total - 1)
            == (n - 1) * (quota - 1) / (total - 1) + if Kept(n, quota, total) then 1 else 0
  {
    ScaleOne(n - 1, quota - 1, total - 1);
  }

  /** Over all its events, a kind keeps exactly its quota. */
  lemma QuotaIsKept(quota: nat, total: nat)
    requires quota <= total
    ensures KeptBelow(total, quota, total) == quota
  {
    if total > 0 {
      KeptSoFar(total, quota, total);
      if quota > 1 {
        DivRest(quota - 1, total - 1, 0);
        assert (total - 1) * (quota - 1) == (quota - 1) * (total - 1) + 0;
      }
    }
  }

  /** Where the j-th kept event of a kind lies: ceil(j * (total - 1) / (quota - 1)). */
  function Position(j: nat, quota: nat, total: nat): int
    requires quota >= 2
  {
    (j * (total - 1) + quota - 2) / (quota - 1)
  }

  /** `p` is ceil(a / m) exactly if a lies in ((p - 1) * m, p * m]. */
  lemma CeilIs(a: int, m: int, p: int)
    requires m > 0 && (p - 1) * m < a <= p * m
    ensures (a + m - 1) / m == p
  {
    assert (p + 1) * m == p * m + m && (p - 1) * m == p * m - m;
    DivUnique(a + m - 1, p, m);
  }

  /** An event is kept only at the position its rank among the kept ones determines. */
  lemma KeptAtPosition(p: nat, quota: nat, total: nat)
    requires 2 <= quota <= total && p < total && Kept(p, quota, total)
    ensures KeptBelow(p, quota, total) < quota
    ensures p == Position(KeptBelow(p, quota, total), quota, total)
  {
    var m, d := quota - 1, total - 1;
    if p == 0 {
      CeilIs(0, m, 0);
    } else {
      KeptSoFar(p, quota, total);
      ScaleOne(p - 1, m, d);
      var j := KeptBelow(p, quota, total);
      assert j == p * m / d;
      BracketedBy(p, m, d, j);
      CeilIs(j * d, m, p);
      assert j <= m by {
        MulMono(p, d, m);
        DivBetween(p * m, 0, m, d);
      }
    }
  }

  lemma BracketedBy(p: nat, m: nat, d: nat, j: nat)
    requires p > 0 && d > 0 && j == p * m / d && j == (p - 1) * m / d + 1
    ensures (p - 1) * m < j * d <= p * m
  {
    var x, y := p * m, (p - 1) * m;
    assert x / d * d <= x;
    assert y < (y / d + 1) * d;
  }

  /** The first and the last event of a kind are kept, and the gaps between kept ones differ by at
      most one. */
  lemma EvenlySpread(j: nat, quota: nat, total: nat)
    requires 2 <= quota <= total && j + 1 < quota
    ensures Position(0, quota, total) == 0 && Position(quota - 1, quota, total) == total - 1
    ensures var gap := Position(j + 1, quota, total) - Position(j, quota, total);
            (total - 1) / (quota - 1) <= gap <= (total - 1) / (quota - 1) + 1
  {
    var m, d := quota - 1, total - 1;
    CeilIs(0, m, 0);
    assert m * d == d * m;
    CeilIs(m * d, m, d);
    var x := j * d + m - 1;
    assert (j + 1) * d + m - 1 == x + d by {
      assert (j + 1) * d == j * d + d;
    }
    DivOfSum(x, d, m);
  }

  lemma Distributes(q: int, f: int, m: int)
    ensures (q + f) * m == q * m + f * m
  {
  }

  lemma DivOfSum(x: nat, y: nat, m: nat)
    requires m > 0
    ensures x / m + y / m <= (x + y) / m <= x / m + y / m + 1
  {
    var q, f := x / m, y / m;
    var r, s := x % m, y % m;
    assert x == q * m + r && y == f * m + s;
    Distributes(q, f, m);
    assert x + y == (q + f) * m + (r + s);
    if r + s < m {
      DivRest(q + f, m, r + s);
    } else {
      Distributes(q + f, 1, m);
      DivRest(q + f + 1, m, r + s - m);
    }
  }

  // ------------------------------------------------------------------ a whole event stream

  datatype Event = Event(kind: string, id: nat)

  /** Diagnostic kinds are those that start with "func."; all others are semantic. */
  predicate IsSemantic(kind: string) {
    !("func." <= kind)
  }

  function CountKind(events: seq<Event>, kind: string): nat {
    if events == [] then 0
    else CountKind(events[..|events| - 1], kind) + if events[|events| - 1].kind == kind then 1 else 0
  }

  /** The kinds in order of first appearance, as a Counter lists them. */
  function Kinds(events: seq<Event>): seq<string> {
    if events == [] then []
    else
      var before, k := Kinds(events[..|events| - 1]), events[|events| - 1].kind;
      if k in before then before else before + [k]
  }

  function Select(kinds: seq<string>, semantic: bool): (r: seq<string>)
    ensures forall k :: k in r <==> k in kinds && IsSemantic(k) == semantic
  {
    if kinds == [] then []
    else Select(kinds[..|kinds| - 1], semantic) +
         if IsSemantic(kinds[|kinds| - 1]) == semantic then [kinds[|kinds| - 1]] else []
  }

  function CountsOf(kinds: seq<string>, events: seq<Event>): (r: seq<nat>)
    ensures |r| == |kinds|
    ensures forall i :: 0 <= i < |r| ==> r[i] == CountKind(events, kinds[i])
  {
    if kinds == [] then [] else [CountKind(events, kinds[0])] + CountsOf(kinds[1..], events)
  }

  ghost predicate Distinct(kinds: seq<string>) {
    forall i, j :: 0 <= i < j < |kinds| ==> kinds[i] != kinds[j]
  }

  lemma {:induction false} KindsAreKinds(events: seq<Event>)
    ensures Distinct(Kinds(events))
    ensures forall k :: k in Kinds(events) <==> CountKind(events, k) > 0
    ensures forall e :: e in events ==> e.kind in Kinds(events)
  {
    if events != [] {
      KindsAreKinds(events[..|events| - 1]);
      assert events == events[..|events| - 1] + [events[|events| - 1]];
    }
  }

  lemma {:induction false} SelectDistinct(kinds: seq<string>, semantic: bool)
    requires Distinct(kinds)
    ensures Distinct(Select(kinds, semantic))
  {
    if kinds != [] {
      var before, k := kinds[..|kinds| - 1], kinds[|kinds| - 1];
      SelectDistinct(before, semantic);
      assert k !in before;
    }
  }

  /** Counting by kind counts everything, if no kind is missed or named twice. */
  lemma {:induction false} CountedByKind(kinds: seq<string>, events: seq<Event>)
    requires Distinct(kinds) && forall e :: e in events ==> e.kind in kinds
    ensures Sum(CountsOf(kinds, events)) == |events|
    decreases |events|
  {
    hide CountsOf;
    hide CountKind;
    hide Sum;
    hide Distinct;
    if events == [] {
      NothingCounted(kinds);
    } else {
      var before, e := events[..|events| - 1], events[|events| - 1];
      assert forall x :: x in before ==> x in events;
      CountedByKind(kinds, before);
      assert e in events;
      OneMoreCounted(kinds, before, e);
      assert before + [e] == events;
    }
  }

  lemma {:induction false} NothingCounted(kinds: seq<string>)
    ensures Sum(CountsOf(kinds, [])) == 0
  {
    if kinds != [] {
      NothingCounted(kinds[1..]);
    }
  }

  lemma {:induction false} OneMoreCounted(kinds: seq<string>, events: seq<Event>, e: Event)
    requires Distinct(kinds)
    ensures Sum(CountsOf(kinds, events + [e])) == Sum(CountsOf(kinds, events)) + if e.kind in kinds then 1 else 0
  {
    assert (events + [e])[..|events|] == events;
    if kinds != [] {
      OneMoreCounted(kinds[1..], events, e);
      assert kinds[0] !in kinds[1..];
    }
  }

  lemma {:induction false} SumSplits(kinds: seq<string>, events: seq<Event>)
    ensures Sum(CountsOf(Select(kinds, true), events)) + Sum(CountsOf(Select(kinds, false), events))
            == Sum(CountsOf(kinds, events))
  {
    hide IsSemantic;
    hide CountsOf;
    hide Sum;
    hide CountKind;
    if kinds != [] {
      var before, k := kinds[..|kinds| - 1], kinds[|kinds| - 1];
      SumSplits(before, events);
      assert before + [k] == kinds;
      CountsAppend(before, k, events);
      if IsSemantic(k) {
        assert Select(kinds, true) == Select(before, true) + [k];
        assert Select(kinds, false) == Select(before, false);
        CountsAppend(Select(before, true), k, events);
      } else {
        assert Select(kinds, true) == Select(before, true);
        assert Select(kinds, false) == Select(before, false) + [k];
        CountsAppend(Select(before, false), k, events);
      }
    } else {
      assert Select([], true) == [] && Select([], false) == [];
      NothingSummed(events);
    }
  }

  lemma NothingSummed(events: seq<Event>)
    ensures Sum(CountsOf([], events)) == 0
  {
  }

  lemma {:induction false} CountsAppend(kinds: seq<string>, k: string, events: seq<Event>)
    ensures Sum(CountsOf(kinds + [k], events)) == Sum(CountsOf(kinds, events)) + CountKind(events, k)
  {
    if kinds == [] {
      assert [] + [k] == [k];
      assert CountsOf([k], events) == [CountKind(events, k)] + CountsOf([], events);
    } else {
      assert (kinds + [k])[1..] == kinds[1..] + [k];
      CountsAppend(kinds[1..], k, events);
    }
  }

  function PriorityRaw(events: seq<Event>): nat {
    Sum(CountsOf(Select(Kinds(events), true), events))
  }

  /** How many semantic events are kept of a stream that is too long: all of them, unless that would
      leave less than the reserve for diagnostic ones. */
  function PriorityBudget(priorityRaw: nat, spareRaw: nat): (b: nat)
    ensures b <= MAX_EVENTS && b <= priorityRaw
  {
    Min(priorityRaw, MAX_EVENTS - Min(Min(MIN_SPARE_EVENTS, spareRaw), MAX_EVENTS))
  }

  function SpareBudget(priorityRaw: nat, spareRaw: nat): nat {
    Min(MAX_EVENTS - PriorityBudget(priorityRaw, spareRaw), spareRaw)
  }

  function MapOf(kinds: seq<string>, quotas: seq<int>): (m: map<string, int>)
    requires |kinds| == |quotas|
    ensures forall k :: k in m <==> k in kinds
  {
    if kinds == [] then map[]
    else MapOf(kinds[..|kinds| - 1], quotas[..|kinds| - 1])[kinds[|kinds| - 1] := quotas[|kinds| - 1]]
  }

  lemma {:induction false} MapOfAt(kinds: seq<string>, quotas: seq<int>, i: nat)
    requires |kinds| == |quotas| && Distinct(kinds) && i < |kinds|
    ensures MapOf(kinds, quotas)[kinds[i]] == quotas[i]
  {
    if i < |kinds| - 1 {
      MapOfAt(kinds[..|kinds| - 1], quotas[..|kinds| - 1], i);
    }
  }

  /** How many events of one of the two groups are kept of a stream that is too long. */
  function GroupBudget(events: seq<Event>, semantic: bool): nat {
    var priorityRaw := PriorityRaw(events);
    var spareRaw := if priorityRaw <= |events| then |events| - priorityRaw else 0;
    if semantic then PriorityBudget(priorityRaw, spareRaw) else SpareBudget(priorityRaw, spareRaw)
  }

  function GroupPlan(kinds: seq<string>, events: seq<Event>, budget: nat): (m: map<string, int>)
    ensures forall k :: k in m <==> k in kinds
  {
    MapOf(kinds, Quotas(CountsOf(kinds, events), budget))
  }

  /** The number of events every kind of a group may keep at least. */
  function GroupFloor(kinds: seq<string>, budget: nat): nat {
    if kinds == [] then 0 else Min(MIN_KIND_EVENTS, budget / |kinds|)
  }

  /** The quota of every kind of a stream that is too long. */
  function PlanOf(events: seq<Event>): (m: map<string, int>)
    ensures forall k :: k in Kinds(events) ==> k in m
  {
    GroupPlan(Select(Kinds(events), true), events, GroupBudget(events, true))
    + GroupPlan(Select(Kinds(events), false), events, GroupBudget(events, false))
  }

  lemma {:induction false} CountInPrefix(events: seq<Event>, i: nat, kind: string)
    requires i <= |events|
    ensures CountKind(events[..i], kind) <= CountKind(events, kind)
    ensures i < |events| && events[i].kind == kind ==> CountKind(events[..i], kind) < CountKind(events, kind)
    decreases |events| - i
  {
    if i == |events| {
      assert events[..i] == events;
    } else {
      CountInPrefix(events, i + 1, kind);
      assert events[..i + 1][..i] == events[..i];
    }
  }

  /** Is event `i` kept? */
  predicate Keeps(events: seq<Event>, i: nat, quotas: map<string, int>)
    requires i < |events| && events[i].kind in quotas
  {
    var k := events[i].kind;
    CountInPrefix(events, i, k);
    Kept(CountKind(events[..i], k), quotas[k], CountKind(events, k))
  }

  ghost predicate Covers(quotas: map<string, int>, events: seq<Event>) {
    forall i :: 0 <= i < |events| ==> events[i].kind in quotas
  }

  /** The indices of the events kept among the first `n`, in order. */
  ghost function Picks(events: seq<Event>, n: nat, quotas: map<string, int>): (r: seq<nat>)
    requires n <= |events| && Covers(quotas, events)
    ensures forall i :: 0 <= i < |r| ==> r[i] < n
    ensures forall i, j :: 0 <= i < j < |r| ==> r[i] < r[j]
  {
    if n == 0 then [] else Picks(events, n - 1, quotas) + if Keeps(events, n - 1, quotas) then [n - 1] else []
  }

  function At(events: seq<Event>, picks: seq<nat>): (r: seq<Event>)
    requires forall i :: 0 <= i < |picks| ==> picks[i] < |events|
    ensures |r| == |picks| && forall i :: 0 <= i < |r| ==> r[i] == events[picks[i]]
  {
    if picks == [] then [] else At(events, picks[..|picks| - 1]) + [events[picks[|picks| - 1]]]
  }

  ghost function Chosen(events: seq<Event>, n: nat, quotas: map<string, int>): seq<Event>
    requires n <= |events| && Covers(quotas, events)
  {
    At(events, Picks(events, n, quotas))
  }

  lemma ChosenNext(events: seq<Event>, n: nat, quotas: map<string, int>)
    requires n < |events| && Covers(quotas, events)
    ensures Chosen(events, n + 1, quotas)
            == Chosen(events, n, quotas) + if Keeps(events, n, quotas) then [events[n]] else []
  {
    var before, now := Picks(events, n, quotas), Picks(events, n + 1, quotas);
    if Keeps(events, n, quotas) {
      assert now == before + [n] && now[..|now| - 1] == before;
    } else {
      assert now == before;
    }
  }

  /** Of the events of a kind among the first `n`, as many are chosen as the sampling rule keeps. */
  lemma {:induction false} ChosenOfKind(events: seq<Event>, n: nat, quotas: map<string, int>, k: string)
    requires n <= |events| && Covers(quotas, events) && k in quotas
    ensures CountKind(events[..n], k) <= CountKind(events, k)
    ensures CountKind(Chosen(events, n, quotas), k)
            == KeptBelow(CountKind(events[..n], k), quotas[k], CountKind(events, k))
    decreases n
  {
    hide Kept;
    hide CountKind;
    hide Chosen;
    CountInPrefix(events, n, k);
    if n == 0 {
      NoneKept(events, quotas);
      CountNone(k);
    } else {
      var e, before := events[n - 1], Chosen(events, n - 1, quotas);
      ChosenOfKind(events, n - 1, quotas, k);
      ChosenNext(events, n - 1, quotas);
      CountInPrefix(events, n - 1, k);
      assert events[..n] == events[..n - 1] + [e];
      CountAppend(events[..n - 1], e, k);
      CountAppend(before, e, k);
      assert before + [] == before;
    }
  }

  lemma CountNone(k: string)
    ensures CountKind([], k) == 0
  {
  }

  lemma CountAppend(events: seq<Event>, e: Event, k: string)
    ensures CountKind(events + [e], k) == CountKind(events, k) + if e.kind == k then 1 else 0
  {
    assert (events + [e])[..|events|] == events;
  }

  /** The quotas of one group of kinds are used up and fit its counts. */
  ghost predicate GroupFits(kinds: seq<string>, events: seq<Event>, budget: nat, quotas: map<string, int>) {
    && SumInt(Quotas(CountsOf(kinds, events), budget)) == budget
    && forall i :: 0 <= i < |kinds| ==>
         && kinds[i] in quotas
         && quotas[kinds[i]] == Quotas(CountsOf(kinds, events), budget)[i]
         && Min(CountKind(events, kinds[i]), FloorOf(CountsOf(kinds, events), budget))
            <= quotas[kinds[i]] <= CountKind(events, kinds[i])
  }

  lemma GroupFitsIntro(kinds: seq<string>, events: seq<Event>, budget: nat, quotas: map<string, int>)
    requires budget <= Sum(CountsOf(kinds, events))
    requires forall k :: k in kinds ==> CountKind(events, k) > 0
    requires forall i :: 0 <= i < |kinds| ==>
               kinds[i] in quotas && quotas[kinds[i]] == Quotas(CountsOf(kinds, events), budget)[i]
    ensures GroupFits(kinds, events, budget, quotas)
  {
    hide Quotas;
    hide FloorOf;
    hide CountKind;
    QuotasFit(CountsOf(kinds, events), budget);
  }

  /** The two groups share the limit, and neither is given more than it has. */
  lemma BudgetsAddUp(events: seq<Event>)
    requires |events| > MAX_EVENTS
    ensures GroupBudget(events, true) + GroupBudget(events, false) == MAX_EVENTS
    ensures forall semantic ::
              GroupBudget(events, semantic) <= Sum(CountsOf(Select(Kinds(events), semantic), events))
  {
    RawSplits(events);
    hide CountsOf;
    hide Kinds;
    hide Sum;
    hide Select;
  }

  /** Semantic and diagnostic events together are all events. */
  lemma RawSplits(events: seq<Event>)
    ensures PriorityRaw(events) + Sum(CountsOf(Select(Kinds(events), false), events)) == |events|
  {
    hide CountsOf;
    hide Kinds;
    hide Sum;
    KindsAreKinds(events);
    CountedByKind(Kinds(events), events);
    SumSplits(Kinds(events), events);
  }

  /** The plan for a stream that is too long fits each of the two groups. */
  lemma PlanFits(events: seq<Event>, semantic: bool)
    requires |events| > MAX_EVENTS
    ensures GroupFits(Select(Kinds(events), semantic), events, GroupBudget(events, semantic), PlanOf(events))
  {
    hide PlanOf;
    hide Kinds;
    hide CountKind;
    hide CountsOf;
    hide Quotas;
    hide GroupBudget;
    hide Sum;
    hide IsSemantic;
    hide GroupFits;
    KindsAreKinds(events);
    BudgetsAddUp(events);
    var kinds := Select(Kinds(events), semantic);
    forall i | 0 <= i < |kinds|
      ensures kinds[i] in PlanOf(events)
      ensures PlanOf(events)[kinds[i]] == Quotas(CountsOf(kinds, events), GroupBudget(events, semantic))[i]
    {
      PlanAt(events, semantic, i);
    }
    GroupFitsIntro(kinds, events, GroupBudget(events, semantic), PlanOf(events));
  }

  /** What the plan says of the i-th kind of a group. */
  lemma PlanAt(events: seq<Event>, semantic: bool, i: nat)
    requires i < |Select(Kinds(events), semantic)|
    ensures var kinds := Select(Kinds(events), semantic);
            && kinds[i] in PlanOf(events)
            && PlanOf(events)[kinds[i]] == Quotas(CountsOf(kinds, events), GroupBudget(events, semantic))[i]
  {
    hide Quotas;
    hide CountKind;
    hide CountsOf;
    hide Kinds;
    hide IsSemantic;
    hide GroupBudget;
    hide MapOf;
    hide Select;
    var kinds, other := Select(Kinds(events), semantic), Select(Kinds(events), !semantic);
    KindsAreKinds(events);
    SelectDistinct(Kinds(events), semantic);
    MapOfAt(kinds, Quotas(CountsOf(kinds, events), GroupBudget(events, semantic)), i);
    assert kinds[i] in kinds && kinds[i] !in other;
  }

  /** A stream that is too long is cut to exactly the limit, in its own order, and every kind keeps
      exactly its quota. */
  lemma SampleIsExact(events: seq<Event>)
    requires |events| > MAX_EVENTS
    ensures var quotas := PlanOf(events);
            && Covers(quotas, events)
            && |Picks(events, |events|, quotas)| == MAX_EVENTS
            && forall k :: k in Kinds(events) ==>
                 && k in quotas && 0 <= quotas[k] <= CountKind(events, k)
                 && CountKind(Chosen(events, |events|, quotas), k) == quotas[k]
  {
    hide PlanOf;
    hide GroupBudget;
    hide GroupFits;
    hide CountKind;
    hide CountsOf;
    hide Kinds;
    hide Sum;
    var quotas, kinds := PlanOf(events), Kinds(events);
    PlanCovers(events);
    PlanFits(events, true);
    PlanFits(events, false);
    BudgetsAddUp(events);
    var chosen := Chosen(events, |events|, quotas);
    GroupKept(events, Select(kinds, true), GroupBudget(events, true), quotas);
    GroupKept(events, Select(kinds, false), GroupBudget(events, false), quotas);
    forall k | k in kinds
      ensures k in quotas && 0 <= quotas[k] <= CountKind(events, k) && CountKind(chosen, k) == quotas[k]
    {
      assert k in Select(kinds, true) || k in Select(kinds, false);
    }
    KindsAreKinds(events);
    CountedByKind(kinds, chosen);
    SumSplits(kinds, chosen);
  }

  /** Among the events of its kind, the j-th one kept (from zero) is the one at ceil(j * (t - 1) / (q - 1)),
      where the kind has t events and quota q >= 2. */
  lemma ChosenAtPosition(events: seq<Event>, i: nat)
    requires |events| > MAX_EVENTS && i < |events|
    ensures var quotas, k := PlanOf(events), events[i].kind;
            && Covers(quotas, events)
            && (Keeps(events, i, quotas) && quotas[k] >= 2 ==>
                 CountKind(events[..i], k)
                 == Position(CountKind(Chosen(events, i, quotas), k), quotas[k], CountKind(events, k)))
  {
    hide PlanOf;
    hide Chosen;
    hide CountKind;
    hide Kept;
    hide Position;
    hide Kinds;
    var quotas, k := PlanOf(events), events[i].kind;
    SampleIsExact(events);
    KindsAreKinds(events);
    CountInPrefix(events, i, k);
    ChosenOfKind(events, i, quotas, k);
    if Keeps(events, i, quotas) && quotas[k] >= 2 {
      KeptAtPosition(CountKind(events[..i], k), quotas[k], CountKind(events, k));
    }
  }

  lemma PlanCovers(events: seq<Event>)
    ensures Covers(PlanOf(events), events)
  {
    KindsAreKinds(events);
  }

  lemma GroupKept(events: seq<Event>, kinds: seq<string>, budget: nat, quotas: map<string, int>)
    requires Covers(quotas, events) && GroupFits(kinds, events, budget, quotas)
    ensures var chosen := Chosen(events, |events|, quotas);
            && Sum(CountsOf(kinds, chosen)) == budget
            && forall k :: k in kinds ==>
                 k in quotas && 0 <= quotas[k] <= CountKind(events, k) && CountKind(chosen, k) == quotas[k]
  {
    hide FloorOf;
    hide Quotas;
    var chosen := Chosen(events, |events|, quotas);
    assert events[..|events|] == events;
    forall i | 0 <= i < |kinds|
      ensures kinds[i] in quotas && 0 <= quotas[kinds[i]] <= CountKind(events, kinds[i])
      ensures CountKind(chosen, kinds[i]) == quotas[kinds[i]]
    {
      ChosenOfKind(events, |events|, quotas, kinds[i]);
      QuotaIsKept(quotas[kinds[i]], CountKind(events, kinds[i]));
    }
    hide Chosen;
    var counts, shares := CountsOf(kinds, chosen), Quotas(CountsOf(kinds, events), budget);
    assert forall i :: 0 <= i < |kinds| ==> counts[i] == shares[i];
    SumSame(counts, shares);
  }

  lemma {:induction false} SumSame(a: seq<nat>, b: seq<int>)
    requires |a| == |b| && forall i :: 0 <= i < |a| ==> a[i] == b[i]
    ensures Sum(a) == SumInt(b)
  {
    if a != [] {
      SumSame(a[1..], b[1..]);
    }
  }

  // ------------------------------------------------------------------ the loops

  /** A dictionary from kinds to how often they occur among the events; kinds that do not are absent. */
  ghost predicate Tallies(m: map<string, nat>, events: seq<Event>) {
    forall k ::
      && (k in m <==> CountKind(events, k) > 0)
      && (k in m ==> m[k] == CountKind(events, k))
  }

  function Bump(m: map<string, nat>, k: string): map<string, nat> {
    m[k := (if k in m then m[k] else 0) + 1]
  }

  lemma TallyNext(m: map<string, nat>, events: seq<Event>, e: Event)
    requires Tallies(m, events)
    ensures Tallies(Bump(m, e.kind), events + [e])
  {
    hide CountKind;
    var now := Bump(m, e.kind);
    forall k
      ensures k in now <==> CountKind(events + [e], k) > 0
      ensures k in now ==> now[k] == CountKind(events + [e], k)
    {
      CountAppend(events, e, k);
    }
  }

  lemma TallyEmpty()
    ensures Tallies(map[], [])
  {
  }

  function Lookup(kinds: seq<string>, counts: map<string, nat>): (r: seq<nat>)
    ensures |r| == |kinds|
    ensures forall i :: 0 <= i < |r| ==> r[i] == if kinds[i] in counts then counts[kinds[i]] else 0
  {
    if kinds == [] then []
    else [if kinds[0] in counts then counts[kinds[0]] else 0] + Lookup(kinds[1..], counts)
  }

  lemma LookupTally(kinds: seq<string>, counts: map<string, nat>, events: seq<Event>)
    requires Tallies(counts, events)
    ensures Lookup(kinds, counts) == CountsOf(kinds, events)
  {
  }

  lemma SumNext(s: seq<nat>, n: nat)
    requires n < |s|
    ensures Sum(s[..n + 1]) == Sum(s[..n]) + s[n]
  {
    SumIntOfNats(s[..n + 1]);
    SumIntOfNats(s[..n]);
    assert s[..n + 1] == s[..n] + [s[n]];
    SumAppend(s[..n], s[n]);
  }

  /** The values a dictionary has for some kinds, added up. */
  method Total(kinds: seq<string>, counts: map<string, nat>) returns (sum: nat)
    ensures sum == Sum(Lookup(kinds, counts))
  {
    ghost var values := Lookup(kinds, counts);
    sum := 0;
    for i := 0 to |kinds|
      invariant sum == Sum(values[..i])
    {
      SumNext(values, i);
      sum := sum + if kinds[i] in counts then counts[kinds[i]] else 0;
    }
    assert values[..|kinds|] == values;
  }

  /** Counts the events of each kind, and lists the kinds in order of first appearance. */
  method Tally(events: seq<Event>) returns (kinds: seq<string>, counts: map<string, nat>)
    ensures kinds == Kinds(events)
    ensures Tallies(counts, events)
  {
    kinds, counts := [], map[];
    TallyEmpty();
    for n := 0 to |events|
      invariant kinds == Kinds(events[..n])
      invariant Tallies(counts, events[..n])
    {
      var e := events[n];
      assert events[..n + 1] == events[..n] + [e];
      TallyNext(counts, events[..n], e);
      KindsAreKinds(events[..n]);
      KindsNext(events[..n], e);
      if e.kind !in counts {
        kinds := kinds + [e.kind];
      }
      counts := Bump(counts, e.kind);
    }
    assert events[..|events|] == events;
  }

  lemma KindsNext(events: seq<Event>, e: Event)
    ensures Kinds(events + [e]) == if e.kind in Kinds(events) then Kinds(events) else Kinds(events) + [e.kind]
  {
    assert (events + [e])[..|events|] == events;
  }

  /** The kinds of one group, in order. */
  method Group(kinds: seq<string>, semantic: bool) returns (group: seq<string>)
    ensures group == Select(kinds, semantic)
  {
    group := [];
    for i := 0 to |kinds|
      invariant group == Select(kinds[..i], semantic)
    {
      assert kinds[..i + 1][..i] == kinds[..i];
      if IsSemantic(kinds[i]) == semantic {
        group := group + [kinds[i]];
      }
    }
    assert kinds[..|kinds|] == kinds;
  }

  ghost predicate IsMapOf(m: map<string, int>, kinds: seq<string>, values: seq<int>) {
    && |kinds| == |values|
    && (forall k :: k in m <==> k in kinds)
    && forall i :: 0 <= i < |kinds| ==> m[kinds[i]] == values[i]
  }

  lemma MapOfIs(m: map<string, int>, kinds: seq<string>, values: seq<int>)
    requires IsMapOf(m, kinds, values) && Distinct(kinds)
    ensures m == MapOf(kinds, values)
  {
    forall k | k in m
      ensures m[k] == MapOf(kinds, values)[k]
    {
      var i :| 0 <= i < |kinds| && kinds[i] == k;
      MapOfAt(kinds, values, i);
    }
  }

  lemma NoneSummed(s: seq<nat>)
    ensures Sum(s[..0]) == 0
  {
  }

  /** The floors of all kinds, and their sum. */
  method GiveFloors(kinds: seq<string>, counts: map<string, nat>, floor: nat)
    returns (quotas: map<string, int>, given: nat)
    requires Distinct(kinds)
    ensures IsMapOf(quotas, kinds, Floors(Lookup(kinds, counts), floor))
    ensures given == Sum(Floors(Lookup(kinds, counts), floor))
  {
    hide Sum;
    hide Lookup;
    hide Floors;
    ghost var floors := Floors(Lookup(kinds, counts), floor);
    NoneSummed(floors);
    quotas, given := map[], 0;
    for i := 0 to |kinds|
      invariant given == Sum(floors[..i])
      invariant forall k :: k in quotas <==> k in kinds[..i]
      invariant forall j :: 0 <= j < i ==> quotas[kinds[j]] == floors[j]
    {
      SumNext(floors, i);
      var quota := Min(if kinds[i] in counts then counts[kinds[i]] else 0, floor);
      quotas := quotas[kinds[i] := quota];
      given := given + quota;
    }
    assert kinds[..|kinds|] == kinds && floors[..|kinds|] == floors;
  }

  lemma ExtrasNext(counts: seq<nat>, extras: seq<int>, i: nat, floor: nat, cumulative: nat, remaining: int, total: nat)
    requires total > 0 && |counts| == |extras| && i < |counts|
    requires extras[i..] == Extras(counts[i..], floor, cumulative, remaining, total)
    ensures var residual := counts[i] - Min(counts[i], floor);
            && extras[i] == Share(cumulative, residual, remaining, total)
            && extras[i + 1..] == Extras(counts[i + 1..], floor, cumulative + residual, remaining, total)
  {
    assert counts[i..][1..] == counts[i + 1..] && extras[i..][1..] == extras[i + 1..];
    assert extras[i] == extras[i..][0] && counts[i] == counts[i..][0];
  }

  /** Adds the extras to the floors, in place, keeping a running total of the residuals. */
  method AddExtras(kinds: seq<string>, counts: map<string, nat>, floor: nat, floors: map<string, int>, remaining: int,
                   total: nat)
    returns (quotas: map<string, int>)
    requires Distinct(kinds) && total > 0
    requires IsMapOf(floors, kinds, Floors(Lookup(kinds, counts), floor))
    ensures IsMapOf(quotas, kinds,
                    Plus(Floors(Lookup(kinds, counts), floor),
                         Extras(Lookup(kinds, counts), floor, 0, remaining, total)))
  {
    hide Extras;
    hide Plus;
    hide Floors;
    hide Lookup;
    hide Share;
    hide Sum;
    ghost var values := Lookup(kinds, counts);
    ghost var given := Floors(values, floor);
    ghost var extras := Extras(values, floor, 0, remaining, total);
    quotas := floors;
    var cumulative: nat := 0;
    for i := 0 to |kinds|
      invariant forall k :: k in quotas <==> k in kinds
      invariant forall j :: 0 <= j < i ==> quotas[kinds[j]] == given[j] + extras[j]
      invariant forall j :: i <= j < |kinds| ==> quotas[kinds[j]] == given[j]
      invariant extras[i..] == Extras(values[i..], floor, cumulative, remaining, total)
    {
      var k := kinds[i];
      var residual := (if k in counts then counts[k] else 0) - quotas[k];
      ExtrasNext(values, extras, i, floor, cumulative, remaining, total);
      quotas := quotas[k := quotas[k] + Share(cumulative, residual, remaining, total)];
      cumulative := cumulative + residual;
    }
  }

  /** With less budget than kinds, the first kinds get one event each. */
  method GiveOnes(kinds: seq<string>, budget: nat) returns (quotas: map<string, int>)
    requires Distinct(kinds)
    ensures IsMapOf(quotas, kinds, OneEach(|kinds|, budget))
  {
    hide OneEach;
    quotas := map[];
    for i := 0 to |kinds|
      invariant forall k :: k in quotas <==> k in kinds[..i]
      invariant forall j :: 0 <= j < i ==> quotas[kinds[j]] == if j < budget then 1 else 0
    {
      quotas := quotas[kinds[i] := if i < budget then 1 else 0];
    }
    assert kinds[..|kinds|] == kinds;
  }

  lemma QuotasOfOnes(counts: seq<nat>, budget: nat)
    requires counts != [] && FloorOf(counts, budget) == 0
    ensures Quotas(counts, budget) == OneEach(|counts|, budget)
  {
  }

  /** Every kind gets the floor, and then its share of what remains. */
  method GiveShares(kinds: seq<string>, counts: map<string, nat>, budget: nat, floor: nat)
    returns (quotas: map<string, int>)
    requires Distinct(kinds) && kinds != [] && floor > 0 && floor == FloorOf(Lookup(kinds, counts), budget)
    ensures IsMapOf(quotas, kinds, Quotas(Lookup(kinds, counts), budget))
  {
    hide Extras;
    hide Plus;
    hide Floors;
    hide Lookup;
    hide Sum;
    hide OneEach;
    var given;
    quotas, given := GiveFloors(kinds, counts, floor);
    var all := Total(kinds, counts);
    FloorsFit(Lookup(kinds, counts), floor);
    var remaining, residualTotal := budget - given, all - given;
    if residualTotal != 0 {
      quotas := AddExtras(kinds, counts, floor, quotas, remaining, residualTotal);
    }
  }

  /** Splits a budget over kinds; also returns the floor. */
  method KindBudgets(kinds: seq<string>, counts: map<string, nat>, budget: nat)
    returns (quotas: map<string, int>, floor: nat)
    requires Distinct(kinds)
    ensures quotas == MapOf(kinds, Quotas(Lookup(kinds, counts), budget))
    ensures floor == GroupFloor(kinds, budget)
  {
    hide IsMapOf;
    hide Lookup;
    hide MapOf;
    hide OneEach;
    hide Quotas;
    ghost var values := Lookup(kinds, counts);
    if kinds == [] {
      NoKinds(counts, budget);
      return map[], 0;
    }
    floor := Min(MIN_KIND_EVENTS, budget / |kinds|);
    if floor == 0 {
      quotas := GiveOnes(kinds, budget);
      QuotasOfOnes(values, budget);
    } else {
      quotas := GiveShares(kinds, counts, budget, floor);
    }
    MapOfIs(quotas, kinds, Quotas(values, budget));
  }

  lemma NoKinds(counts: map<string, nat>, budget: nat)
    ensures MapOf([], Quotas(Lookup([], counts), budget)) == map[]
  {
  }

  /** The events not kept among the first `n`, in order. */
  ghost function Dropped(events: seq<Event>, n: nat, quotas: map<string, int>): seq<Event>
    requires n <= |events| && Covers(quotas, events)
  {
    if n == 0 then []
    else Dropped(events, n - 1, quotas) + if Keeps(events, n - 1, quotas) then [] else [events[n - 1]]
  }

  lemma DroppedNext(events: seq<Event>, n: nat, quotas: map<string, int>)
    requires n < |events| && Covers(quotas, events)
    ensures Dropped(events, n + 1, quotas)
            == Dropped(events, n, quotas) + if Keeps(events, n, quotas) then [] else [events[n]]
  {
  }

  lemma NoneKept(events: seq<Event>, quotas: map<string, int>)
    requires Covers(quotas, events)
    ensures Chosen(events, 0, quotas) == [] && Dropped(events, 0, quotas) == [] && events[..0] == []
  {
  }

  /** What was kept and what was dropped of a kind is what there was of it. */
  lemma {:induction false} KeptOrDropped(events: seq<Event>, n: nat, quotas: map<string, int>, k: string)
    requires n <= |events| && Covers(quotas, events)
    ensures CountKind(Chosen(events, n, quotas), k) + CountKind(Dropped(events, n, quotas), k)
            == CountKind(events[..n], k)
  {
    hide CountKind;
    hide Keeps;
    hide Chosen;
    hide Dropped;
    if n == 0 {
      NoneKept(events, quotas);
      CountNone(k);
    } else {
      var e, chosen, dropped := events[n - 1], Chosen(events, n - 1, quotas), Dropped(events, n - 1, quotas);
      KeptOrDropped(events, n - 1, quotas, k);
      ChosenNext(events, n - 1, quotas);
      DroppedNext(events, n - 1, quotas);
      assert events[..n] == events[..n - 1] + [e];
      CountAppend(events[..n - 1], e, k);
      CountAppend(chosen, e, k);
      CountAppend(dropped, e, k);
      assert chosen + [] == chosen && dropped + [] == dropped;
    }
  }

  datatype Report = Report(applied: bool, raw: nat, retained: nat, dropped: int, priorityRaw: nat, spareRaw: int,
                           semanticBudget: nat, spareBudget: nat, semanticRetained: int,
                           semanticBudgets: map<string, int>, semanticFloor: nat,
                           diagnosticBudgets: map<string, int>, diagnosticFloor: nat,
                           retainedKinds: map<string, nat>, droppedKinds: map<string, nat>)
  {
    /** The quotas and floors that the report gives for the kinds of both groups. */
    ghost predicate Budgets(events: seq<Event>) {
      var semantic, diagnostic := Select(Kinds(events), true), Select(Kinds(events), false);
      && semanticBudgets == GroupPlan(semantic, events, GroupBudget(events, true))
      && diagnosticBudgets == GroupPlan(diagnostic, events, GroupBudget(events, false))
      && semanticFloor == GroupFloor(semantic, GroupBudget(events, true))
      && diagnosticFloor == GroupFloor(diagnostic, GroupBudget(events, false))
    }
  }

  /** The quotas of one group of kinds. */
  method GroupQuotas(ghost events: seq<Event>, kinds: seq<string>, counts: map<string, nat>, semantic: bool,
                     budget: nat)
    returns (quotas: map<string, int>, floor: nat)
    requires kinds == Kinds(events) && Tallies(counts, events)
    ensures quotas == GroupPlan(Select(kinds, semantic), events, budget)
    ensures floor == GroupFloor(Select(kinds, semantic), budget)
  {
    hide Quotas;
    hide CountsOf;
    hide Lookup;
    hide Kinds;
    hide Select;
    hide MapOf;
    hide Tallies;
    hide GroupFloor;
    KindsAreKinds(events);
    var group := Group(kinds, semantic);
    SelectDistinct(kinds, semantic);
    LookupTally(group, counts, events);
    quotas, floor := KindBudgets(group, counts, budget);
  }

  /** The quotas of all kinds, from the counts of one pass over the events. */
  method Plan(events: seq<Event>, kinds: seq<string>, counts: map<string, nat>, priorityRaw: nat)
    returns (quotas: map<string, int>, semanticBudget: nat, room: nat,
             semanticQuotas: map<string, int>, floor: nat, diagnosticQuotas: map<string, int>, diagnosticFloor: nat)
    requires kinds == Kinds(events) && Tallies(counts, events) && priorityRaw == PriorityRaw(events)
    requires |events| > MAX_EVENTS
    ensures quotas == PlanOf(events)
    ensures semanticQuotas == GroupPlan(Select(kinds, true), events, GroupBudget(events, true))
    ensures diagnosticQuotas == GroupPlan(Select(kinds, false), events, GroupBudget(events, false))
    ensures floor == GroupFloor(Select(kinds, true), GroupBudget(events, true))
    ensures diagnosticFloor == GroupFloor(Select(kinds, false), GroupBudget(events, false))
    ensures semanticBudget == GroupBudget(events, true) && room == MAX_EVENTS - semanticBudget
  {
    hide Kinds;
    hide PriorityRaw;
    hide Select;
    hide GroupPlan;
    hide GroupFloor;
    hide Sum;
    hide CountsOf;
    hide Tallies;
    RawSplits(events);
    var spareRaw := |events| - priorityRaw;
    var reservedSpare := Min(Min(MIN_SPARE_EVENTS, spareRaw), MAX_EVENTS);
    semanticBudget := Min(priorityRaw, MAX_EVENTS - reservedSpare);
    semanticQuotas, floor := GroupQuotas(events, kinds, counts, true, semanticBudget);
    room := MAX_EVENTS - semanticBudget;
    diagnosticQuotas, diagnosticFloor := GroupQuotas(events, kinds, counts, false, Min(room, spareRaw));
    quotas := semanticQuotas + diagnosticQuotas;
  }

  /** What the pass over the events knows after `n` of them. */
  ghost predicate Passed(events: seq<Event>, n: nat, quotas: map<string, int>,
                         seen: map<string, nat>, kept: map<string, nat>, dropped: map<string, nat>)
    requires n <= |events| && Covers(quotas, events)
  {
    && Tallies(seen, events[..n])
    && Tallies(kept, Chosen(events, n, quotas))
    && Tallies(dropped, Dropped(events, n, quotas))
  }

  lemma PassedNext(events: seq<Event>, n: nat, quotas: map<string, int>,
                   seen: map<string, nat>, kept: map<string, nat>, dropped: map<string, nat>)
    requires n < |events| && Covers(quotas, events) && Passed(events, n, quotas, seen, kept, dropped)
    ensures var e := events[n];
            Passed(events, n + 1, quotas, Bump(seen, e.kind),
                   if Keeps(events, n, quotas) then Bump(kept, e.kind) else kept,
                   if Keeps(events, n, quotas) then dropped else Bump(dropped, e.kind))
  {
    hide Tallies;
    hide Bump;
    hide Chosen;
    hide Dropped;
    hide Keeps;
    var e := events[n];
    assert events[..n + 1] == events[..n] + [e];
    ChosenNext(events, n, quotas);
    DroppedNext(events, n, quotas);
    TallyNext(seen, events[..n], e);
    TallyNext(kept, Chosen(events, n, quotas), e);
    TallyNext(dropped, Dropped(events, n, quotas), e);
    assert Chosen(events, n, quotas) + [] == Chosen(events, n, quotas);
    assert Dropped(events, n, quotas) + [] == Dropped(events, n, quotas);
  }

  /** The pass over the events: each is kept or dropped by how many of its kind came before it. */
  method Sample(events: seq<Event>, counts: map<string, nat>, quotas: map<string, int>, materialize: bool)
    returns (chosen: seq<Event>, retainedKinds: map<string, nat>, droppedKinds: map<string, nat>)
    requires Tallies(counts, events) && Covers(quotas, events)
    ensures chosen == if materialize then Chosen(events, |events|, quotas) else []
    ensures Tallies(retainedKinds, Chosen(events, |events|, quotas))
    ensures Tallies(droppedKinds, Dropped(events, |events|, quotas))
  {
    hide Chosen;
    hide Dropped;
    hide CountKind;
    chosen, retainedKinds, droppedKinds := [], map[], map[];
    var seenByKind := map[];
    NoneKept(events, quotas);
    TallyEmpty();
    for n := 0 to |events|
      invariant chosen == if materialize then Chosen(events, n, quotas) else []
      invariant Passed(events, n, quotas, seenByKind, retainedKinds, droppedKinds)
    {
      var k := events[n].kind;
      ChosenNext(events, n, quotas);
      CountInPrefix(events, n, k);
      PassedNext(events, n, quotas, seenByKind, retainedKinds, droppedKinds);
      var seen := if k in seenByKind then seenByKind[k] else 0;
      seenByKind := Bump(seenByKind, k);
      var quota, total := quotas[k], counts[k];
      var retain;
      if seen == 0 {
        retain := quota > 0;
      } else {
        retain := quota > 1 && seen * (quota - 1) / (total - 1) > (seen - 1) * (quota - 1) / (total - 1);
      }
      assert retain == Keeps(events, n, quotas);
      if retain {
        retainedKinds := Bump(retainedKinds, k);
        if materialize {
          chosen := chosen + [events[n]];
        }
      } else {
        droppedKinds := Bump(droppedKinds, k);
      }
    }
    assert events[..|events|] == events;
  }

  /** Bounds the event stream. One that fits is kept whole; of a longer one exactly MAX_EVENTS are kept,
      the semantic kinds together exactly their budget, and the report says what became of each kind. */
  method EventSelection(events: seq<Event>, materialize: bool) returns (chosen: seq<Event>, report: Report)
    ensures report.applied == (|events| > MAX_EVENTS)
    ensures report.raw == |events| && report.priorityRaw + report.spareRaw == |events|
    ensures report.priorityRaw == PriorityRaw(events)
    ensures report.retained == (if |events| > MAX_EVENTS then MAX_EVENTS else |events|)
    ensures report.retained + report.dropped == |events|
    ensures |events| <= MAX_EVENTS ==>
            && chosen == (if materialize then events else [])
              && Tallies(report.retainedKinds, events) && report.droppedKinds == map[]
    ensures |events| > MAX_EVENTS ==>
            && Covers(PlanOf(events), events)
              && chosen == (if materialize then Chosen(events, |events|, PlanOf(events)) else [])
              && Tallies(report.retainedKinds, Chosen(events, |events|, PlanOf(events)))
              && Tallies(report.droppedKinds, Dropped(events, |events|, PlanOf(events)))
              && report.semanticRetained == report.semanticBudget == GroupBudget(events, true)
              && report.spareBudget == GroupBudget(events, false)
              && report.Budgets(events)
  {
    hide PlanOf;
    hide GroupPlan;
    hide GroupFloor;
    hide GroupBudget;
    hide Chosen;
    hide Dropped;
    hide Tallies;
    hide CountsOf;
    hide Lookup;
    hide Kinds;
    hide Select;
    hide Sum;
    var kinds, counts := Tally(events);
    RawSplits(events);
    var semantic := Group(kinds, true);
    LookupTally(semantic, counts, events);
    var priorityRaw := Total(semantic, counts);
    var spareRaw := |events| - priorityRaw;
    if |events| <= MAX_EVENTS {
      chosen := if materialize then events else [];
      report := Report(false, |events|, |events|, 0, priorityRaw, spareRaw, 0, 0, 0, map[], 0, map[], 0, counts, map[]);
      return;
    }
    var quotas, semanticBudget, room, semanticQuotas, floor, diagnosticQuotas, diagnosticFloor :=
      Plan(events, kinds, counts, priorityRaw);
    PlanCovers(events);
    var retainedKinds, droppedKinds;
    chosen, retainedKinds, droppedKinds := Sample(events, counts, quotas, materialize);
    var retained := Total(kinds, retainedKinds);
    var semanticDropped := Total(semantic, droppedKinds);
    Reported(events, retainedKinds, droppedKinds);
    BudgetsAddUp(events);
    report := Report(true, |events|, retained, |events| - retained, priorityRaw, spareRaw, semanticBudget, room,
                     priorityRaw - semanticDropped, semanticQuotas, floor, diagnosticQuotas, diagnosticFloor,
                     retainedKinds, droppedKinds);
  }

  lemma {:induction false} CountsMinus(kinds: seq<string>, events: seq<Event>, kept: seq<Event>, dropped: seq<Event>)
    requires forall k :: k in kinds ==> CountKind(kept, k) + CountKind(dropped, k) == CountKind(events, k)
    ensures Sum(CountsOf(kinds, kept)) + Sum(CountsOf(kinds, dropped)) == Sum(CountsOf(kinds, events))
  {
    if kinds != [] {
      CountsMinus(kinds[1..], events, kept, dropped);
    }
  }

  /** The sums the report is made of. */
  lemma Reported(events: seq<Event>, retainedKinds: map<string, nat>, droppedKinds: map<string, nat>)
    requires |events| > MAX_EVENTS && Covers(PlanOf(events), events)
    requires Tallies(retainedKinds, Chosen(events, |events|, PlanOf(events)))
    requires Tallies(droppedKinds, Dropped(events, |events|, PlanOf(events)))
    ensures Sum(Lookup(Kinds(events), retainedKinds)) == MAX_EVENTS
    ensures Sum(Lookup(Select(Kinds(events), true), droppedKinds)) == PriorityRaw(events) - GroupBudget(events, true)
  {
    hide PlanOf;
    hide GroupBudget;
    hide GroupFits;
    hide Tallies;
    hide CountsOf;
    hide CountKind;
    hide Lookup;
    hide Kinds;
    hide Select;
    hide Sum;
    hide Dropped;
    hide IsSemantic;
    var quotas, kinds := PlanOf(events), Kinds(events);
    var semantic, n := Select(kinds, true), |events|;
    var chosen, dropped := Chosen(events, n, quotas), Dropped(events, n, quotas);
    LookupTally(kinds, retainedKinds, chosen);
    LookupTally(semantic, droppedKinds, dropped);
    SampleIsExact(events);
    KindsAreKinds(events);
    CountedByKind(kinds, chosen);
    PlanFits(events, true);
    GroupKept(events, semantic, GroupBudget(events, true), quotas);
    assert events[..n] == events;
    forall k | k in semantic
      ensures CountKind(chosen, k) + CountKind(dropped, k) == CountKind(events, k)
    {
      KeptOrDropped(events, n, quotas, k);
    }
    CountsMinus(semantic, events, chosen, dropped);
  }
}
