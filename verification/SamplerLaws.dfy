/** What the event sampler keeps, said of the events themselves: how many of each group and kind, and which. */
module SamplerLaws {
  import opened Arithmetic
  import opened EventSampler

  // ------------------------------------------------------------------ counting events

  /** A diagnostic kind begins with "func.". */
  predicate Diagnostic(kind: string) {
    |kind| >= 5 && kind[0] == 'f' && kind[1] == 'u' && kind[2] == 'n' && kind[3] == 'c' && kind[4] == '.'
  }

  /** How many of the events are of diagnostic kinds, or of the others. */
  function HowMany(events: seq<Event>, diagnostic: bool): nat {
    if events == [] then 0
    else
      var n := |events| - 1;
      HowMany(events[..n], diagnostic) + if Diagnostic(events[n].kind) == diagnostic then 1 else 0
  }

  /** The kinds of that group that occur. */
  function KindsOf(events: seq<Event>, diagnostic: bool): set<string> {
    set e | e in events && Diagnostic(e.kind) == diagnostic :: e.kind
  }

  lemma KindIs(kind: string)
    ensures IsSemantic(kind) <==> !Diagnostic(kind)
  {
    if |kind| >= 5 {
      assert "func." <= kind <==> kind[..5] == "func.";
    }
  }

  lemma SelectHas(kinds: seq<string>, diagnostic: bool, k: string)
    ensures k in Select(kinds, !diagnostic) <==> k in kinds && Diagnostic(k) == diagnostic
  {
    KindIs(k);
  }

  /** Counting a group kind by kind counts its events. */
  lemma {:induction false} GroupCounted(kinds: seq<string>, events: seq<Event>, diagnostic: bool)
    requires Distinct(kinds) && forall e :: e in events ==> e.kind in kinds
    ensures Sum(CountsOf(Select(kinds, !diagnostic), events)) == HowMany(events, diagnostic)
    decreases |events|
  {
    hide CountsOf;
    hide CountKind;
    hide Sum;
    hide Distinct;
    hide Select;
    var group := Select(kinds, !diagnostic);
    if events == [] {
      NothingCounted(group);
    } else {
      var n := |events| - 1;
      var before, e := events[..n], events[n];
      assert events == before + [e];
      assert forall x :: x in before ==> x in events;
      assert e in events;
      GroupCounted(kinds, before, diagnostic);
      SelectDistinct(kinds, !diagnostic);
      OneMoreCounted(group, before, e);
      SelectHas(kinds, diagnostic, e.kind);
    }
  }

  lemma {:induction false} DistinctSize(kinds: seq<string>, all: set<string>)
    requires Distinct(kinds) && forall k :: k in kinds <==> k in all
    ensures |kinds| == |all|
    decreases |kinds|
  {
    if kinds == [] {
      assert all == {};
    } else {
      var n := |kinds| - 1;
      assert kinds[n] in all;
      assert forall k :: k in kinds[..n] <==> k in all - {kinds[n]} by {
        assert kinds == kinds[..n] + [kinds[n]];
      }
      DistinctSize(kinds[..n], all - {kinds[n]});
    }
  }

  /** The group's kinds, as the sampler lists them. */
  lemma GroupKinds(events: seq<Event>, diagnostic: bool)
    ensures |Select(Kinds(events), !diagnostic)| == |KindsOf(events, diagnostic)|
    ensures forall k :: k in Select(Kinds(events), !diagnostic) <==> k in KindsOf(events, diagnostic)
  {
    hide Kinds;
    hide Distinct;
    hide Diagnostic;
    KindsAreKinds(events);
    var group, all := Select(Kinds(events), !diagnostic), KindsOf(events, diagnostic);
    hide Select;
    forall k
      ensures k in group <==> k in all
    {
      SelectHas(Kinds(events), diagnostic, k);
      KindOccurs(events, k);
    }
    SelectDistinct(Kinds(events), !diagnostic);
    DistinctSize(group, all);
  }

  lemma {:induction false} KindOccurs(events: seq<Event>, k: string)
    ensures k in Kinds(events) <==> exists e :: e in events && e.kind == k
  {
    if events != [] {
      var n := |events| - 1;
      KindOccurs(events[..n], k);
      assert events == events[..n] + [events[n]];
    }
  }

  /** The first event of this kind is number `p`. */
  ghost predicate FirstAt(events: seq<Event>, kind: string, p: nat) {
    p < |events| && events[p].kind == kind && forall q :: 0 <= q < p ==> events[q].kind != kind
  }

  /** The kinds are listed in the order in which they first occur. */
  lemma {:induction false} KindsInOrder(events: seq<Event>, i: nat, j: nat) returns (p: nat, q: nat)
    requires i < j < |Kinds(events)|
    ensures p < q && FirstAt(events, Kinds(events)[i], p) && FirstAt(events, Kinds(events)[j], q)
    decreases |events|
  {
    var n := |events| - 1;
    var before := events[..n];
    if j < |Kinds(before)| {
      p, q := KindsInOrder(before, i, j);
    } else {
      p := FirstOf(before, Kinds(before)[i]);
      q := n;
      KindOccurs(before, events[n].kind);
      forall r | 0 <= r < n
        ensures events[r].kind != events[n].kind
      {
        assert before[r] in before;
      }
    }
  }

  lemma {:induction false} FirstOf(events: seq<Event>, kind: string) returns (p: nat)
    requires kind in Kinds(events)
    ensures FirstAt(events, kind, p)
  {
    var n := |events| - 1;
    if kind in Kinds(events[..n]) {
      p := FirstOf(events[..n], kind);
    } else {
      KindOccurs(events[..n], kind);
      p := n;
      forall r | 0 <= r < n
        ensures events[r].kind != kind
      {
        assert events[..n][r] in events[..n];
      }
    }
  }

  /** Each group keeps that order. */
  lemma SelectNext(kinds: seq<string>, k: string, diagnostic: bool)
    ensures Select(kinds + [k], !diagnostic)
            == Select(kinds, !diagnostic) + if Diagnostic(k) == diagnostic then [k] else []
    ensures Select([], diagnostic) == []
  {
    assert (kinds + [k])[..|kinds|] == kinds;
    KindIs(k);
  }

  // ------------------------------------------------------------------ how many of each group

  /** Of a stream that is too long, this many events of a group are kept: of the diagnostic ones what is left,
      of the others all, unless fewer than 25000 diagnostic ones, or fewer than there are, would be left. */
  function Room(events: seq<Event>, diagnostic: bool): int {
    var others, diagnostics := HowMany(events, false), HowMany(events, true);
    var reserve := if diagnostics < 25000 then diagnostics else 25000;
    var kept := if others < 150000 - reserve then others else 150000 - reserve;
    if diagnostic then 150000 - kept else kept
  }

  lemma BothGroups(events: seq<Event>)
    ensures PriorityRaw(events) == HowMany(events, false)
    ensures |events| == HowMany(events, false) + HowMany(events, true)
  {
    hide Kinds;
    hide Sum;
    hide CountsOf;
    hide Select;
    hide Distinct;
    KindsAreKinds(events);
    GroupCounted(Kinds(events), events, false);
    GroupCounted(Kinds(events), events, true);
    RawSplits(events);
  }

  lemma BudgetIsRoom(events: seq<Event>, diagnostic: bool)
    requires |events| > 150000
    ensures GroupBudget(events, !diagnostic) == Room(events, diagnostic)
  {
    hide PriorityRaw;
    hide HowMany;
    BothGroups(events);
  }

  /** Of a stream of more than 150000 events that many are kept, of each group as many as there is room for:
      all that are not diagnostic exactly if they are 125000 at most, all diagnostic ones exactly if they are
      25000 at most. */
  lemma GroupsKept(events: seq<Event>, diagnostic: bool)
    requires |events| > 150000
    ensures Covers(PlanOf(events), events)
    ensures var chosen := Chosen(events, |events|, PlanOf(events));
            |chosen| == 150000 && HowMany(chosen, diagnostic) == Room(events, diagnostic)
    ensures Room(events, false) == HowMany(events, false) <==> HowMany(events, false) <= 125000
    ensures Room(events, true) == HowMany(events, true) <==> HowMany(events, true) <= 25000
  {
    hide PlanOf;
    hide Kinds;
    hide Sum;
    hide CountsOf;
    hide Select;
    hide HowMany;
    hide GroupBudget;
    hide GroupFits;
    hide Distinct;
    hide CountKind;
    SampleIsExact(events);
    var quotas := PlanOf(events);
    var chosen := Chosen(events, |events|, quotas);
    PlanFits(events, !diagnostic);
    GroupKept(events, Select(Kinds(events), !diagnostic), GroupBudget(events, !diagnostic), quotas);
    KindsAreKinds(events);
    ChosenAreEvents(events, quotas);
    GroupCounted(Kinds(events), chosen, diagnostic);
    BudgetIsRoom(events, diagnostic);
    BothGroups(events);
  }

  lemma ChosenAreEvents(events: seq<Event>, quotas: map<string, int>)
    requires Covers(quotas, events)
    ensures forall e :: e in Chosen(events, |events|, quotas) ==> e in events
  {
    var picks := Picks(events, |events|, quotas);
    var chosen := Chosen(events, |events|, quotas);
    forall e | e in chosen
      ensures e in events
    {
      var j :| 0 <= j < |chosen| && chosen[j] == e;
      assert e == events[picks[j]];
    }
  }

  // ------------------------------------------------------------------ how many of each kind

  /** A kind keeps no more events than it has, and at least 64 of them, or its even share of the group's room,
      or all, whichever is least. */
  lemma KindsKept(events: seq<Event>, kind: string, diagnostic: bool)
    requires |events| > 150000 && kind in KindsOf(events, diagnostic)
    ensures Covers(PlanOf(events), events)
    ensures var kept := CountKind(Chosen(events, |events|, PlanOf(events)), kind);
            var all, share := CountKind(events, kind), Room(events, diagnostic) / |KindsOf(events, diagnostic)|;
            && kept <= all
            && (kept >= all || kept >= 64 || kept >= share)
            && (all <= 64 && all <= share ==> kept == all)
  {
    hide PlanOf;
    hide Kinds;
    hide Sum;
    hide CountsOf;
    hide Select;
    hide HowMany;
    hide GroupBudget;
    hide CountKind;
    hide Quotas;
    hide Room;
    GroupKinds(events, diagnostic);
    var group, quotas := Select(Kinds(events), !diagnostic), PlanOf(events);
    assert kind in group;
    var i :| 0 <= i < |group| && group[i] == kind;
    SampleIsExact(events);
    SelectHas(Kinds(events), diagnostic, kind);
    PlanFits(events, !diagnostic);
    BudgetIsRoom(events, diagnostic);
    hide KindsOf;
    assert CountsOf(group, events) != [] by {
      assert |CountsOf(group, events)| == |group|;
    }
  }

  /** What the kinds of a group have in excess of a floor, up to the `j`-th of them. */
  function Excess(counts: seq<nat>, floor: nat, j: nat): nat
    requires j <= |counts|
  {
    if j == 0 then 0
    else Excess(counts, floor, j - 1) + if counts[j - 1] > floor then counts[j - 1] - floor else 0
  }

  function FloorSum(counts: seq<nat>, floor: nat, j: nat): nat
    requires j <= |counts|
  {
    if j == 0 then 0
    else FloorSum(counts, floor, j - 1) + if counts[j - 1] > floor then floor else counts[j - 1]
  }

  lemma {:induction false} SumUpTo(counts: seq<nat>, floor: nat, j: nat)
    requires j <= |counts|
    ensures Sum(Floors(counts[..j], floor)) == FloorSum(counts, floor, j)
    ensures Sum(counts[..j]) == FloorSum(counts, floor, j) + Excess(counts, floor, j)
  {
    hide Sum;
    hide Floors;
    if j == 0 {
      assert counts[..j] == [];
      SumsOfNone(floor);
    } else {
      SumUpTo(counts, floor, j - 1);
      assert counts[..j] == counts[..j - 1] + [counts[j - 1]];
      SumSnoc(counts[..j - 1], counts[j - 1]);
      FloorsSnoc(counts[..j - 1], counts[j - 1], floor);
    }
  }

  lemma SumsOfNone(floor: nat)
    ensures Sum([]) == 0 && Sum(Floors([], floor)) == 0
  {
  }

  lemma {:induction false} SumSnoc(a: seq<nat>, x: nat)
    ensures Sum(a + [x]) == Sum(a) + x
  {
    if a == [] {
      assert [] + [x] == [x];
      assert Sum([x]) == x + Sum([]);
    } else {
      assert (a + [x])[1..] == a[1..] + [x];
      SumSnoc(a[1..], x);
    }
  }

  lemma FloorsSnoc(a: seq<nat>, x: nat, floor: nat)
    ensures Sum(Floors(a + [x], floor)) == Sum(Floors(a, floor)) + Min(x, floor)
  {
    hide Sum;
    assert Floors(a + [x], floor) == Floors(a, floor) + [Min(x, floor)];
    SumSnoc(Floors(a, floor), Min(x, floor));
  }

  /** The quota of the j-th kind of a group beyond its floor: the excess of the kinds up to it, scaled down to
      what the floors leave of the budget and rounded down, less the same for the kinds before it. */
  lemma {:induction false} QuotaIsShare(counts: seq<nat>, budget: nat, j: nat)
    requires j < |counts| && counts != []
    ensures |Quotas(counts, budget)| == |counts|
    ensures var floor := if budget / |counts| < 64 then budget / |counts| else 64;
            var left := budget - FloorSum(counts, floor, |counts|);
            var all := Excess(counts, floor, |counts|);
            var own := if counts[j] > floor then floor else counts[j];
            Quotas(counts, budget)[j]
            == if floor == 0 then if j < budget then 1 else 0
               else if all == 0 then own
               else own + (Excess(counts, floor, j + 1) * left / all - Excess(counts, floor, j) * left / all)
  {
    hide Excess;
    hide FloorSum;
    hide Sum;
    hide Extras;
    var floor := FloorOf(counts, budget);
    QuotasCases(counts, budget);
    SumUpTo(counts, floor, |counts|);
    assert counts[..|counts|] == counts;
    if floor != 0 && Excess(counts, floor, |counts|) > 0 {
      var left, all := budget - FloorSum(counts, floor, |counts|), Excess(counts, floor, |counts|);
      ExtraAt(counts, floor, 0, left, all, j);
      ExcessOf(counts, floor, j);
    }
  }

  lemma {:induction false} ExtraAt(counts: seq<nat>, floor: nat, cumulative: nat, remaining: int, total: nat, j: nat)
    requires total > 0 && j < |counts|
    ensures Extras(counts, floor, cumulative, remaining, total)[j]
            == (cumulative + Excess(counts, floor, j + 1)) * remaining / total
               - (cumulative + Excess(counts, floor, j)) * remaining / total
  {
    var residual := counts[0] - Min(counts[0], floor);
    ExcessHead(counts, floor, j + 1);
    ExcessHead(counts, floor, j);
    if j > 0 {
      ExtraAt(counts[1..], floor, cumulative + residual, remaining, total, j - 1);
    }
  }

  lemma {:induction false} ExcessHead(counts: seq<nat>, floor: nat, j: nat)
    requires counts != [] && j <= |counts|
    ensures Excess(counts, floor, j)
            == if j == 0 then 0 else counts[0] - Min(counts[0], floor) + Excess(counts[1..], floor, j - 1)
  {
    if j > 1 {
      ExcessHead(counts, floor, j - 1);
    }
  }

  lemma ExcessOf(counts: seq<nat>, floor: nat, j: nat)
    requires j < |counts|
    ensures Excess(counts, floor, j + 1)
            == Excess(counts, floor, j) + if counts[j] > floor then counts[j] - floor else 0
  {
  }

  // ------------------------------------------------------------------ which of a kind

  /** Of a kind with t events that keeps q of them, event number n (from zero) is kept: for q = 1 if it is the
      first, for more if the multiples n * (q - 1) / (t - 1) of whole numbers go up at it, or it is the first. */
  lemma KeptExactly(n: nat, q: nat, t: nat)
    requires n < t && q <= t
    ensures q == 0 ==> !Kept(n, q, t)
    ensures q == 1 ==> (Kept(n, q, t) <==> n == 0)
    ensures q >= 2 ==> (Kept(n, q, t) <==> n == 0 || n * (q - 1) / (t - 1) == (n - 1) * (q - 1) / (t - 1) + 1)
  {
    if q >= 2 && n > 0 {
      ScaleOne(n - 1, q - 1, t - 1);
    }
  }
}
