/** When the demangler runs out of stack however much of it there is: exactly when some path is read in the
    course of reading itself. For all other names the length of the name bounds the stack they need. */
module RustV0Stack {
  import opened Arithmetic
  import opened Paths
  import opened Wrappers
  import opened RustV0

  // ------------------------------------------------------------------ reading composes

  /** With fuel `h` or more, reading the path at `j` reads the one at `k`, or is it. */
  ghost predicate On(s: string, j: nat, k: nat, h: nat, fl: Flags) {
    k == j || (j <= |s| && forall n: nat :: n >= h ==> PathReads(s, j, k, n, fl))
  }

  lemma BelowOn(s: string, m: nat, j: nat, k: nat, g: nat, h: nat, n: nat, fl: Flags)
    requires m <= |s| && g > 0 && Below(s, m, j, g, fl) && On(s, j, k, h, fl) && n >= g + h
    ensures Below(s, m, k, n, fl)
    decreases g - 1, 0, 1
  {
    hide PathReads;
    if j != m {
      PathReadsOn(s, m, j, k, g - 1, h, n - 1, fl);
    }
  }

  /** What reads a path reads all that this one reads; more fuel changes nothing. */
  lemma {:induction false} PathReadsOn(s: string, i: nat, j: nat, k: nat, g: nat, h: nat, n: nat, fl: Flags)
    requires i <= |s| && PathReads(s, i, j, g, fl) && On(s, j, k, h, fl) && n >= g + h
    ensures PathReads(s, i, k, n, fl)
    decreases g, 0, 0
  {
    hide Name;
    hide Base62;
    hide Disambiguator;
    hide Below;
    hide On;
    hide ImplReads;
    hide ListReads;
    hide ParsePath;
    if s[i] == 'N' {
      BelowOn(s, i + 2, j, k, g, h, n, fl);
    } else if s[i] == 'B' {
      BelowOn(s, Base62(s, i + 1).value.0, j, k, g, h, n, fl);
    } else if s[i] == 'I' {
      if Below(s, i + 1, j, g, fl) {
        BelowOn(s, i + 1, j, k, g, h, n, fl);
      } else {
        PathStable(s, i + 1, g - 1, n - 1, fl);
        ListReadsOn(s, ParsePath(s, i + 1, g - 1, fl).next, j, k, g - 1, h, n - 1, fl, true);
      }
    } else {
      ImplReadsOn(s, Disambiguator(s, i + 1).value, j, k, g, h, n, fl, s[i] == 'X');
    }
  }

  lemma {:induction false} ImplReadsOn(s: string, m: nat, j: nat, k: nat, g: nat, h: nat, n: nat, fl: Flags,
                                       ofTrait: bool)
    requires m <= |s| && g > 0 && ImplReads(s, m, j, g, fl, ofTrait) && On(s, j, k, h, fl) && n >= g + h
    ensures ImplReads(s, m, k, n, fl, ofTrait)
    decreases g - 1, 0, 2
  {
    hide ParsePath;
    hide Below;
    hide On;
    if Below(s, m, j, g, fl) {
      BelowOn(s, m, j, k, g, h, n, fl);
    } else {
      PathStable(s, m, g - 1, n - 1, fl);
      var self := ParsePath(s, m, g - 1, fl).next;
      if Below(s, self, j, g, fl) {
        BelowOn(s, self, j, k, g, h, n, fl);
      } else {
        PathStable(s, self, g - 1, n - 1, fl);
        BelowOn(s, ParsePath(s, self, g - 1, fl).next, j, k, g, h, n, fl);
      }
    }
  }

  lemma ItemStable(s: string, i: nat, f: nat, g: nat, fl: Flags, args: bool)
    requires i < |s| && f <= g && !ParseItem(s, i, f, fl, args).Deep?
    ensures ParseItem(s, i, g, fl, args) == ParseItem(s, i, f, fl, args)
  {
    hide ParseType;
    hide ParseConst;
    hide Base62;
    if args && s[i] == 'K' {
      ConstStable(s, i + 1, f, g, fl);
    } else if !(args && s[i] == 'L') {
      TypeStable(s, i, f, g, fl);
    }
  }

  lemma {:induction false} ListReadsOn(s: string, i: nat, j: nat, k: nat, g: nat, h: nat, n: nat, fl: Flags, args: bool)
    requires i <= |s| && ListReads(s, i, j, g, fl, args) && On(s, j, k, h, fl) && n >= g + h
    ensures ListReads(s, i, k, n, fl, args)
    decreases g, 1, |s| - i
  {
    hide On;
    hide TypeReads;
    hide ConstReads;
    hide ParseItem;
    if args && s[i] == 'K' && ConstReads(s, i + 1, j, g, fl) {
      ConstReadsOn(s, i + 1, j, k, g, h, n, fl);
    } else if !(args && (s[i] == 'K' || s[i] == 'L')) && TypeReads(s, i, j, g, fl) {
      TypeReadsOn(s, i, j, k, g, h, n, fl);
    } else {
      ItemStable(s, i, g, n, fl, args);
      ListReadsOn(s, ParseItem(s, i, g, fl, args).next, j, k, g, h, n, fl, args);
    }
  }

  lemma {:induction false} TypeReadsOn(s: string, i: nat, j: nat, k: nat, g: nat, h: nat, n: nat, fl: Flags)
    requires i <= |s| && TypeReads(s, i, j, g, fl) && On(s, j, k, h, fl) && n >= g + h
    ensures TypeReads(s, i, k, n, fl)
    decreases g, 0, 0
  {
    hide On;
    hide Base62;
    hide Below;
    hide ParsePath;
    hide ParseType;
    hide ConstReads;
    hide ListReads;
    if StartsPath(s[i]) {
      BelowOn(s, i, j, k, g, h, n, fl);
    } else if s[i] == 'A' {
      if TypeReads(s, i + 1, j, g - 1, fl) {
        TypeReadsOn(s, i + 1, j, k, g - 1, h, n - 1, fl);
      } else {
        TypeStable(s, i + 1, g - 1, n - 1, fl);
        ConstReadsOn(s, ParseType(s, i + 1, g - 1, fl).next, j, k, g - 1, h, n - 1, fl);
      }
    } else if s[i] == 'T' {
      ListReadsOn(s, i + 1, j, k, g - 1, h, n - 1, fl, false);
    } else {
      TypeReadsOn(s, if StartsWrap(s[i]) then i + 1 else Lifetime(s, i + 1).value, j, k, g - 1, h, n - 1, fl);
    }
  }

  lemma {:induction false} ConstReadsOn(s: string, i: nat, j: nat, k: nat, g: nat, h: nat, n: nat, fl: Flags)
    requires i <= |s| && ConstReads(s, i, j, g, fl) && On(s, j, k, h, fl) && n >= g + h
    ensures ConstReads(s, i, k, n, fl)
    decreases g, 0, 0
  {
    hide On;
    hide TypeReads;
    TypeReadsOn(s, i, j, k, g - 1, h, n - 1, fl);
  }

  /** Reading the path at `i` comes upon the path at `j`. */
  ghost predicate ComesUpon(s: string, i: nat, j: nat, fl: Flags)
    requires i <= |s|
  {
    exists g: nat :: PathReads(s, i, j, g, fl)
  }

  lemma ComesUponOn(s: string, i: nat, j: nat, k: nat, fl: Flags)
    requires i <= |s| && j <= |s| && ComesUpon(s, i, j, fl) && ComesUpon(s, j, k, fl)
    ensures ComesUpon(s, i, k, fl)
  {
    hide PathReads;
    var g: nat :| PathReads(s, i, j, g, fl);
    var h: nat :| PathReads(s, j, k, h, fl);
    forall n: nat | n >= h
      ensures PathReads(s, j, k, n, fl)
    {
      PathReadsOn(s, j, k, k, h, 0, n, fl);
    }
    PathReadsOn(s, i, j, k, g, h, g + h, fl);
  }

  // ------------------------------------------------------------------ what exhausts the stack

  lemma StillDeep(s: string, j: nat, f: nat, lo: nat, fl: Flags)
    requires j <= |s| && lo <= f && ParsePath(s, j, f, fl).Deep?
    ensures ParsePath(s, j, lo, fl).Deep?
  {
    hide ParsePath;
    if !ParsePath(s, j, lo, fl).Deep? {
      PathStable(s, j, lo, f, fl);
    }
  }

  /** The calls that reading a type at `i` may take before it reads a path. */
  function Room(s: string, i: nat): nat
    requires i <= |s|
  {
    2 * (|s| - i) + 2
  }

  /** A type that exhausts the stack reads a path that does, with little less. */
  lemma {:induction false} TypeDeep(s: string, i: nat, f: nat, lo: nat, fl: Flags) returns (j: nat)
    requires i <= |s| && ParseType(s, i, f, fl).Deep? && f >= lo + Room(s, i)
    ensures j <= |s| && TypeReads(s, i, j, f, fl) && ParsePath(s, j, lo, fl).Deep?
    decreases f, 0, 0
  {
    hide Base62;
    hide ParsePath;
    hide ParseConst;
    hide ParseList;
    hide ConstReads;
    hide ListReads;
    if StartsPath(s[i]) {
      j := i;
      StillDeep(s, i, f - 1, lo, fl);
    } else if s[i] == 'A' {
      var t := ParseType(s, i + 1, f - 1, fl);
      if t.Deep? {
        j := TypeDeep(s, i + 1, f - 1, lo, fl);
      } else {
        j := ConstDeep(s, t.next, f - 1, lo, fl);
      }
    } else if s[i] == 'T' {
      j := ListDeep(s, i + 1, f - 1, lo, fl, false);
    } else {
      j := TypeDeep(s, if StartsWrap(s[i]) then i + 1 else Lifetime(s, i + 1).value, f - 1, lo, fl);
    }
  }

  lemma {:induction false} ConstDeep(s: string, i: nat, f: nat, lo: nat, fl: Flags) returns (j: nat)
    requires i <= |s| && ParseConst(s, i, f, fl).Deep? && f >= lo + Room(s, i) + 1
    ensures j <= |s| && ConstReads(s, i, j, f, fl) && ParsePath(s, j, lo, fl).Deep?
    decreases f, 0, 0
  {
    hide Base62;
    hide ParsePath;
    hide ParseType;
    hide TypeReads;
    j := TypeDeep(s, i, f - 1, lo, fl);
  }

  lemma {:induction false} ListDeep(s: string, i: nat, f: nat, lo: nat, fl: Flags, args: bool) returns (j: nat)
    requires i <= |s| && ParseList(s, i, f, fl, args).Deep? && f >= lo + Room(s, i)
    ensures j <= |s| && ListReads(s, i, j, f, fl, args) && ParsePath(s, j, lo, fl).Deep?
    decreases f, 1, |s| - i
  {
    hide Base62;
    hide ParsePath;
    hide ParseType;
    hide ParseConst;
    hide TypeReads;
    hide ConstReads;
    var item := ParseItem(s, i, f, fl, args);
    if item.Got? {
      j := ListDeep(s, item.next, f, lo, fl, args);
    } else if args && s[i] == 'K' {
      j := ConstDeep(s, i + 1, f, lo, fl);
    } else {
      j := TypeDeep(s, i, f, lo, fl);
    }
  }

  /** The stack that may be used up between one path and the next. */
  function Gap(s: string): nat {
    2 * |s| + 3
  }

  /** So does a path. */
  lemma PathDeep(s: string, i: nat, f: nat, lo: nat, fl: Flags) returns (j: nat)
    requires i <= |s| && ParsePath(s, i, f, fl).Deep? && f >= lo + Gap(s)
    ensures j <= |s| && PathReads(s, i, j, f, fl) && ParsePath(s, j, lo, fl).Deep?
  {
    hide Name;
    hide Base62;
    hide Disambiguator;
    hide ParseList;
    hide ParseImpl;
    hide ListReads;
    hide ImplReads;
    if s[i] == 'I' {
      var p := ParsePath(s, i + 1, f - 1, fl);
      if p.Deep? {
        j := i + 1;
        StillDeep(s, j, f - 1, lo, fl);
      } else {
        j := ListDeep(s, p.next, f - 1, lo, fl, true);
      }
    } else if s[i] == 'M' || s[i] == 'X' {
      j := ImplDeep(s, Disambiguator(s, i + 1).value, f, lo, fl, s[i] == 'X');
    } else {
      j := if s[i] == 'N' then i + 2 else Base62(s, i + 1).value.0;
      StillDeep(s, j, f - 1, lo, fl);
    }
  }

  lemma ImplDeep(s: string, k: nat, f: nat, lo: nat, fl: Flags, ofTrait: bool) returns (j: nat)
    requires k <= |s| && f > lo && ParseImpl(s, k, f - 1, fl, ofTrait).Deep?
    ensures j <= |s| && ImplReads(s, k, j, f, fl, ofTrait) && ParsePath(s, j, lo, fl).Deep?
  {
    hide ParsePath;
    hide PathReads;
    j := k;
    var place := ParsePath(s, k, f - 1, fl);
    if place.Got? {
      j := place.next;
      var self := ParsePath(s, j, f - 1, fl);
      if self.Got? {
        j := self.next;
      }
    }
    StillDeep(s, j, f - 1, lo, fl);
  }

  // ------------------------------------------------------------------ names that come back to themselves

  /** Reading the path at `i` comes upon one that comes upon itself, or it is one. */
  ghost predicate Circular(s: string, i: nat, fl: Flags)
    requires i <= |s|
  {
    exists j :: 0 <= j <= |s| && (j == i || ComesUpon(s, i, j, fl)) && ComesUpon(s, j, j, fl)
  }

  /** A path that comes upon itself exhausts every stack. */
  lemma {:induction false} InsideItselfIsDeep(s: string, i: nat, g: nat, f: nat, fl: Flags)
    requires i <= |s| && PathReads(s, i, i, g, fl)
    ensures ParsePath(s, i, f, fl).Deep?
  {
    hide ParsePath;
    hide PathReads;
    if !ParsePath(s, i, f, fl).Deep? {
      ReadSucceeds(s, i, i, g, f, fl, false);
      InsideItselfIsDeep(s, i, g, f - 1, fl);
    }
  }

  lemma CircularIsDeep(s: string, i: nat, f: nat, fl: Flags)
    requires i <= |s| && Circular(s, i, fl)
    ensures ParsePath(s, i, f, fl).Deep?
  {
    hide ParsePath;
    hide PathReads;
    var j :| 0 <= j <= |s| && (j == i || ComesUpon(s, i, j, fl)) && ComesUpon(s, j, j, fl);
    var h: nat :| PathReads(s, j, j, h, fl);
    if j == i {
      InsideItselfIsDeep(s, i, h, f, fl);
    } else if !ParsePath(s, i, f, fl).Deep? {
      var g: nat :| PathReads(s, i, j, g, fl);
      ReadSucceeds(s, i, j, g, f, fl, false);
      InsideItselfIsDeep(s, j, h, f - 1, fl);
    }
  }

  /** The positions at which a path may be read. */
  function Positions(n: nat): (p: set<nat>)
    ensures forall k: nat :: k in p <==> k <= n
    ensures |p| == n + 1
  {
    if n == 0 then {0} else Positions(n - 1) + {n}
  }

  /** The stack for so many paths, each read by the one before. */
  function Rounds(s: string, n: nat): nat {
    n * Gap(s)
  }

  lemma RoundsNext(s: string, n: nat)
    requires n > 0
    ensures Rounds(s, n) == Rounds(s, n - 1) + Gap(s)
  {
    assert n * Gap(s) == (n - 1) * Gap(s) + Gap(s);
  }

  /** The stack that is enough for every name of this length that does not come back to itself. */
  function Enough(s: string): nat {
    Rounds(s, |s| + 2)
  }

  lemma SeenLess(n: nat, seen: set<nat>, i: nat)
    requires seen <= Positions(n) && i <= n && i !in seen
    ensures seen + {i} <= Positions(n) && |seen + {i}| == |seen| + 1 <= n + 1
  {
    var rest := Positions(n) - (seen + {i});
    assert Positions(n) == (seen + {i}) + rest;
    assert |Positions(n)| == |seen + {i}| + |rest|;
  }

  lemma SeenAgain(s: string, i: nat, fl: Flags)
    requires i <= |s| && ComesUpon(s, i, i, fl)
    ensures Circular(s, i, fl)
  {
    hide ComesUpon;
  }

  /** The next path that exhausts the stack. */
  lemma NextDeep(s: string, i: nat, f: nat, lo: nat, fl: Flags) returns (j: nat)
    requires i <= |s| && ParsePath(s, i, f, fl).Deep? && f >= lo + Gap(s)
    ensures j <= |s| && ComesUpon(s, i, j, fl) && ParsePath(s, j, lo, fl).Deep?
  {
    hide ParsePath;
    hide PathReads;
    j := PathDeep(s, i, f, lo, fl);
  }

  /** A path that exhausts a large stack, with the paths at `seen` having come upon it, comes upon one that has
      been seen: there are not enough positions for as many new ones as the stack has room for. */
  lemma {:induction false} DeepIsCircular(s: string, i: nat, rounds: nat, seen: set<nat>, fl: Flags)
    requires i <= |s| && ParsePath(s, i, Rounds(s, rounds), fl).Deep?
    requires seen <= Positions(|s|) && forall x :: x in seen ==> ComesUpon(s, x, i, fl)
    requires rounds + |seen| == |s| + 2
    ensures Circular(s, i, fl)
    decreases rounds
  {
    hide ParsePath;
    hide ComesUpon;
    hide Circular;
    hide Rounds;
    hide Gap;
    if i in seen {
      SeenAgain(s, i, fl);
    } else {
      SeenLess(|s|, seen, i);
      RoundsNext(s, rounds);
      var j := NextDeep(s, i, Rounds(s, rounds), Rounds(s, rounds - 1), fl);
      forall x | x in seen + {i}
        ensures ComesUpon(s, x, j, fl)
      {
        if x != i {
          ComesUponOn(s, x, i, j, fl);
        }
      }
      DeepIsCircular(s, j, rounds - 1, seen + {i}, fl);
      CircularAbove(s, i, j, fl);
    }
  }

  lemma CircularAbove(s: string, i: nat, j: nat, fl: Flags)
    requires i <= |s| && j <= |s| && ComesUpon(s, i, j, fl) && Circular(s, j, fl)
    ensures Circular(s, i, fl)
  {
    hide ComesUpon;
    var k :| 0 <= k <= |s| && (k == j || ComesUpon(s, j, k, fl)) && ComesUpon(s, k, k, fl);
    if k != j {
      ComesUponOn(s, i, j, k, fl);
    }
  }

  predicate Exhausts(s: string, i: nat, f: nat, fl: Flags)
    requires i <= |s|
  {
    ParsePath(s, i, f, fl).Deep?
  }

  /** A path exhausts every stack if and only if it comes upon one that comes upon itself; and it does so if
      and only if it exhausts a stack that is proportional to the square of the name's length. */
  lemma DeepForEveryStack(s: string, i: nat, fl: Flags)
    requires i <= |s|
    ensures (forall f: nat :: Exhausts(s, i, f, fl)) <==> Circular(s, i, fl)
    ensures Exhausts(s, i, Enough(s), fl) <==> Circular(s, i, fl)
  {
    hide ParsePath;
    hide PathReads;
    hide Circular;
    hide Rounds;
    if Circular(s, i, fl) {
      forall f: nat
        ensures Exhausts(s, i, f, fl)
      {
        CircularIsDeep(s, i, f, fl);
      }
    } else if Exhausts(s, i, Enough(s), fl) {
      DeepIsCircular(s, i, |s| + 2, {}, fl);
    }
  }

  // ------------------------------------------------------------------ whole symbols

  /** The demangler runs out of stack, in the path of a symbol or in its instantiating crate. */
  predicate RunsOut(sym: string, fl: Flags, fuel: nat) {
    "_R" <= sym &&
    var body := sym[2..];
    !(body != "" && Is(body[0], Digit)) &&
    var p := ParsePath(body, 0, fuel, fl);
    p.Deep? || (p.Got? && fl.generics && p.next < |body| && ParsePath(body, p.next, fuel, fl).Deep?)
  }

  /** The symbol's path comes back to itself, or the path ends and its instantiating crate does. */
  ghost predicate ComesBack(sym: string, fl: Flags) {
    "_R" <= sym &&
    var body := sym[2..];
    !(body != "" && Is(body[0], Digit)) &&
    (Circular(body, 0, fl) ||
     var p := ParsePath(body, 0, Enough(body), fl);
     p.Got? && fl.generics && p.next < |body| && Circular(body, p.next, fl))
  }

  /** A symbol runs out of every stack if and only if it comes back to itself. */
  lemma RunsOutForEveryStack(sym: string, fl: Flags)
    ensures (forall fuel: nat :: RunsOut(sym, fl, fuel)) <==> ComesBack(sym, fl)
  {
    hide ParsePath;
    hide Circular;
    if "_R" <= sym {
      var body := sym[2..];
      var p := ParsePath(body, 0, Enough(body), fl);
      DeepForEveryStack(body, 0, fl);
      if p.Got? {
        DeepForEveryStack(body, p.next, fl);
      }
      if ComesBack(sym, fl) {
        forall fuel: nat
          ensures RunsOut(sym, fl, fuel)
        {
          if Circular(body, 0, fl) {
            CircularIsDeep(body, 0, fuel, fl);
          } else {
            CircularIsDeep(body, p.next, fuel, fl);
            if !ParsePath(body, 0, fuel, fl).Deep? {
              SamePath(body, 0, fuel, Enough(body), fl);
            }
          }
        }
      } else {
        assert !RunsOut(sym, fl, Enough(body));
      }
    } else {
      assert !RunsOut(sym, fl, 0);
    }
  }

  /** All other symbols have their result with a stack proportional to the square of their length, and no
      larger one changes it. */
  lemma ResultSettles(sym: string, fl: Flags, fuel: nat)
    requires fuel >= Enough(sym)
    ensures Demangle(sym, fl, fuel) == Demangle(sym, fl, Enough(sym))
    ensures !ComesBack(sym, fl) ==> !RunsOut(sym, fl, fuel)
  {
    hide ParsePath;
    hide Circular;
    if "_R" <= sym {
      var body := sym[2..];
      var enough := Enough(sym);
      Longer(body, sym);
      Settled(body, 0, fl, enough);
      Settled(body, 0, fl, fuel);
      var p := ParsePath(body, 0, Enough(body), fl);
      if p.Got? {
        Settled(body, p.next, fl, enough);
        Settled(body, p.next, fl, fuel);
      }
    }
  }

  lemma Longer(a: string, b: string)
    requires |a| <= |b|
    ensures Enough(a) <= Enough(b)
  {
    MulMono(|a| + 2, |b| + 2, Gap(a));
    MulMono(Gap(a), Gap(b), |b| + 2);
  }

  lemma Settled(s: string, i: nat, fl: Flags, f: nat)
    requires i <= |s| && f >= Enough(s)
    ensures ParsePath(s, i, f, fl) == ParsePath(s, i, Enough(s), fl)
    ensures ParsePath(s, i, f, fl).Deep? <==> Circular(s, i, fl)
  {
    hide ParsePath;
    hide Circular;
    DeepForEveryStack(s, i, fl);
    assert Exhausts(s, i, Enough(s), fl) == ParsePath(s, i, Enough(s), fl).Deep?;
    if Circular(s, i, fl) {
      assert Exhausts(s, i, f, fl);
    } else {
      PathStable(s, i, Enough(s), f, fl);
    }
  }

  /** The symbol of six characters after its prefix does. */
  lemma AroundComesBack(fl: Flags)
    requires fl.impls || fl.generics
    ensures ComesBack("_R" + AROUND, fl)
  {
    var body := ("_R" + AROUND)[2..];
    assert body == AROUND && "_R" <= "_R" + AROUND && !Is('N', Digit);
    AroundRefersBack();
    assert Below(AROUND, 0, 0, 1, fl) && PathReads(AROUND, 2, 0, 1, fl);
    assert Below(AROUND, 2, 0, 2, fl) && PathReads(AROUND, 0, 0, 2, fl);
    assert ComesUpon(AROUND, 0, 0, fl);
    SeenAgain(AROUND, 0, fl);
    hide Circular;
    hide ParsePath;
  }
}
