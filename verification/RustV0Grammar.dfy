/** The part of the RFC 2603 grammar that the demangler understands, printing, and the round trips. */
module RustV0Grammar {
  import opened Paths
  import opened RustV0
  import opened Wrappers

  // ------------------------------------------------------------------ the grammar

  /** A path. A disambiguator is what stands between its s and its underscore. */
  datatype Path =
    | Crate(dis: Option<string>, name: string)
    | Nested(ns: char, parent: Path, dis: Option<string>, name: string)
    | Inherent(dis: Option<string>, place: Path, self: Path)
    | TraitImpl(dis: Option<string>, place: Path, self: Path, of: Path)
    | Generic(path: Path, args: seq<Arg>)

  datatype Arg = Life(digits: string) | TypeArg(ty: Type) | ConstArg(value: Const)

  datatype Type =
    | Basic(c: char)
    | Named(path: Path)
    | Array(elem: Type, len: Const)
    | Wrap(c: char, elem: Type)
    | Ref(c: char, life: Option<string>, elem: Type)
    | Tuple(elems: seq<Arg>)

  datatype Const = Hole | Value(ty: Type, negative: bool, hex: string)

  function Segs(p: Path): (r: seq<string>)
    ensures r != []
  {
    match p
    case Crate(_, name) => [name]
    case Nested(_, parent, _, name) => Segs(parent) + [name]
    case Inherent(_, _, self) => Segs(self)
    case TraitImpl(_, _, self, _) => Segs(self)
    case Generic(path, _) => Segs(path)
  }

  ghost predicate OkDis(dis: Option<string>) {
    dis.Some? ==> AllOf(dis.value, Alnum)
  }

  /** What may be printed for a parser with these flags. */
  ghost predicate OkPath(p: Path, fl: Flags) {
    match p
    case Crate(dis, _) => OkDis(dis)
    case Nested(ns, parent, dis, _) => (ns == 't' || ns == 'v') && OkPath(parent, fl) && OkDis(dis)
    case Inherent(dis, place, self) => fl.impls && OkDis(dis) && OkPath(place, fl) && OkPath(self, fl)
    case TraitImpl(dis, place, self, of) =>
      fl.generics && OkDis(dis) && OkPath(place, fl) && OkPath(self, fl) && OkPath(of, fl)
    case Generic(path, args) => fl.generics && OkPath(path, fl) && OkArgs(args, fl, true)
  }

  /** A tuple holds types only. */
  ghost predicate OkArgs(args: seq<Arg>, fl: Flags, generic: bool) {
    args != [] ==> OkArg(args[0], fl, generic) && OkArgs(args[1..], fl, generic)
  }

  ghost predicate OkArg(a: Arg, fl: Flags, generic: bool) {
    match a
    case Life(digits) => generic && AllOf(digits, Alnum)
    case TypeArg(ty) => OkType(ty, fl)
    case ConstArg(value) => generic && OkConst(value, fl)
  }

  ghost predicate OkType(t: Type, fl: Flags) {
    match t
    case Basic(c) => IsBasic(c)
    case Named(path) => OkPath(path, fl)
    case Array(elem, len) => OkType(elem, fl) && OkConst(len, fl)
    case Wrap(c, elem) => StartsWrap(c) && OkType(elem, fl)
    case Ref(c, life, elem) => StartsRef(c) && OkDis(life) && OkType(elem, fl)
    case Tuple(elems) => OkArgs(elems, fl, false)
  }

  /** A constant of the type p would read as a placeholder. */
  ghost predicate OkConst(c: Const, fl: Flags) {
    match c
    case Hole => true
    case Value(ty, _, hex) => OkType(ty, fl) && ty != Basic('p') && AllOf(hex, Hex)
  }

  // ------------------------------------------------------------------ printing

  function Dec(n: nat): string {
    if n < 10 then ['0' + n as char] else Dec(n / 10) + ['0' + (n % 10) as char]
  }

  /** Where the printer puts a separator. RFC 2603 asks for it before a digit or an underscore only; it is
      allowed before any name, and this reader needs it after the length of an empty one too, see
      EmptyNameMisread. */
  predicate NeedsBar(name: string) {
    name == "" || name[0] == '_' || Is(name[0], Digit)
  }

  function ShowIdent(name: string): string {
    Dec(|name|) + ((if NeedsBar(name) then "_" else "") + name)
  }

  function Tagged(tag: char, digits: Option<string>): string {
    if digits.Some? then [tag] + (digits.value + "_") else ""
  }

  function ShowName(dis: Option<string>, name: string): string {
    Tagged('s', dis) + ShowIdent(name)
  }

  function Show(p: Path): (t: string)
    ensures t != "" && StartsPath(t[0]) && t[0] != 'B'
  {
    match p
    case Crate(dis, name) => "C" + ShowName(dis, name)
    case Nested(ns, parent, dis, name) => ['N', ns] + (Show(parent) + ShowName(dis, name))
    case Inherent(dis, place, self) => "M" + (Tagged('s', dis) + (Show(place) + Show(self)))
    case TraitImpl(dis, place, self, of) => "X" + (Tagged('s', dis) + (Show(place) + (Show(self) + Show(of))))
    case Generic(path, args) => "I" + (Show(path) + ShowArgs(args))
  }

  function ShowArgs(args: seq<Arg>): (r: string)
    ensures r != ""
  {
    if args == [] then "E" else ShowArg(args[0]) + ShowArgs(args[1..])
  }

  function ShowArg(a: Arg): (r: string)
    ensures r != ""
  {
    match a
    case Life(digits) => "L" + (digits + "_")
    case TypeArg(ty) => ShowType(ty)
    case ConstArg(value) => "K" + ShowConst(value)
  }

  function ShowType(t: Type): (r: string)
    ensures r != ""
  {
    match t
    case Basic(c) => [c]
    case Named(path) => Show(path)
    case Array(elem, len) => "A" + (ShowType(elem) + ShowConst(len))
    case Wrap(c, elem) => [c] + ShowType(elem)
    case Ref(c, life, elem) => [c] + (Tagged('L', life) + ShowType(elem))
    case Tuple(elems) => "T" + ShowArgs(elems)
  }

  function ShowConst(c: Const): (r: string)
    ensures r != ""
  {
    match c
    case Hole => "p"
    case Value(ty, negative, hex) => ShowType(ty) + ((if negative then "n" else "") + (hex + "_"))
  }

  // ------------------------------------------------------------------ how deep the parser must call

  predicate Fits(p: Path, f: nat) {
    f > 0 &&
    match p
    case Crate(_, _) => true
    case Nested(_, parent, _, _) => Fits(parent, f - 1)
    case Inherent(_, place, self) => Fits(place, f - 1) && Fits(self, f - 1)
    case TraitImpl(_, place, self, of) => Fits(place, f - 1) && Fits(self, f - 1) && Fits(of, f - 1)
    case Generic(path, args) => Fits(path, f - 1) && ArgsFit(args, f - 1)
  }

  predicate ArgsFit(args: seq<Arg>, f: nat) {
    args != [] ==> ArgFits(args[0], f) && ArgsFit(args[1..], f)
  }

  predicate ArgFits(a: Arg, f: nat) {
    match a
    case Life(_) => true
    case TypeArg(ty) => TypeFits(ty, f)
    case ConstArg(value) => ConstFits(value, f)
  }

  predicate TypeFits(t: Type, f: nat) {
    f > 0 &&
    match t
    case Basic(_) => true
    case Named(path) => Fits(path, f - 1)
    case Array(elem, len) => TypeFits(elem, f - 1) && ConstFits(len, f - 1)
    case Wrap(_, elem) => TypeFits(elem, f - 1)
    case Ref(_, _, elem) => TypeFits(elem, f - 1)
    case Tuple(elems) => ArgsFit(elems, f - 1)
  }

  predicate ConstFits(c: Const, f: nat) {
    f > 0 && (c.Value? ==> TypeFits(c.ty, f - 1))
  }

  // ------------------------------------------------------------------ what stands where

  /** The text `t` stands at `i`. */
  ghost predicate At(s: string, i: nat, t: string) {
    i + |t| <= |s| && s[i..i + |t|] == t
  }

  lemma AtSplit(s: string, i: nat, a: string, b: string)
    requires At(s, i, a + b)
    ensures At(s, i, a) && At(s, i + |a|, b)
  {
    assert s[i..i + |a|] == (a + b)[..|a|];
    assert s[i + |a|..i + |a| + |b|] == (a + b)[|a|..];
  }

  lemma AtFirst(s: string, i: nat, t: string)
    requires At(s, i, t) && t != ""
    ensures i < |s| && s[i] == t[0]
  {
    assert s[i..i + |t|][0] == t[0];
  }

  lemma AtPair(s: string, i: nat, a: char, b: char)
    requires At(s, i, [a, b])
    ensures i + 1 < |s| && s[i] == a && s[i + 1] == b
  {
    assert s[i..i + 2][0] == a && s[i..i + 2][1] == b;
  }

  /** What stands somewhere ends within the text. */
  lemma AtEnds(s: string, i: nat, t: string)
    requires At(s, i, t)
    ensures i + |t| <= |s|
  {
  }

  lemma SkipsTo(s: string, i: nat, digits: string, class_: Class)
    requires At(s, i, digits + "_") && AllOf(digits, class_)
    ensures Skip(s, i, class_) == i + |digits| && s[i + |digits|] == '_' && s[i..i + |digits|] == digits
  {
    AtSplit(s, i, digits, "_");
    AtFirst(s, i + |digits|, "_");
    forall k | i <= k < i + |digits|
      ensures Is(s[k], class_)
    {
      assert s[k] == s[i..i + |digits|][k - i];
    }
    SkipIs(s, i, i + |digits|, class_);
  }

  lemma DisAt(s: string, i: nat, dis: Option<string>)
    requires OkDis(dis) && At(s, i, Tagged('s', dis))
    requires dis.None? ==> i < |s| && s[i] != 's'
    ensures Disambiguator(s, i) == Some(i + |Tagged('s', dis)|)
  {
    if dis.Some? {
      AtFirst(s, i, Tagged('s', dis));
      AtSplit(s, i, "s", dis.value + "_");
      SkipsTo(s, i + 1, dis.value, Alnum);
    }
  }

  lemma DisThen(s: string, i: nat, dis: Option<string>, t: string)
    requires OkDis(dis) && At(s, i, Tagged('s', dis) + t) && t != "" && t[0] != 's'
    ensures var j := i + |Tagged('s', dis)|;
            Disambiguator(s, i) == Some(j) && At(s, j, t)
  {
    var j := i + |Tagged('s', dis)|;
    AtSplit(s, i, Tagged('s', dis), t);
    AtFirst(s, j, t);
    DisAt(s, i, dis);
  }

  lemma Base62At(s: string, i: nat, digits: string)
    requires At(s, i, digits + "_") && AllOf(digits, Alnum)
    ensures Base62(s, i) == Some((if digits == "" then 0 else Number62(digits) + 1, i + |digits| + 1))
  {
    hide At;
    hide Skip;
    hide Number62;
    AtEnds(s, i, digits + "_");
    SkipsTo(s, i, digits, Alnum);
  }

  function Char62(d: nat): char
    requires d < 62
  {
    if d < 10 then '0' + d as char else if d < 36 then 'a' + (d - 10) as char else 'A' + (d - 36) as char
  }

  function Digits62(n: nat): string {
    if n < 62 then [Char62(n)] else Digits62(n / 62) + [Char62(n % 62)]
  }

  /** A base-62 number of the grammar: nothing stands for zero, and digits for one more than they say. */
  function Show62(n: nat): string {
    (if n == 0 then "" else Digits62(n - 1)) + "_"
  }

  lemma {:induction false} Digits62Read(n: nat)
    ensures Digits62(n) != "" && AllOf(Digits62(n), Alnum) && Number62(Digits62(n)) == n
  {
    if n < 62 {
      assert Number62(Digits62(n)[..0]) == 0;
    } else {
      Digits62Read(n / 62);
      assert Digits62(n)[..|Digits62(n)| - 1] == Digits62(n / 62);
    }
  }

  /** Wherever it stands, a printed number is read back. */
  lemma Base62RoundTrip(s: string, i: nat, n: nat)
    requires At(s, i, Show62(n))
    ensures Base62(s, i) == Some((n, i + |Show62(n)|))
  {
    if n == 0 {
      Base62At(s, i, "");
    } else {
      Digits62Read(n - 1);
      Base62At(s, i, Digits62(n - 1));
    }
  }

  lemma LifeAt(s: string, i: nat, life: Option<string>)
    requires OkDis(life) && At(s, i, Tagged('L', life))
    requires life.None? ==> i < |s| && s[i] != 'L'
    ensures Lifetime(s, i) == Some(i + |Tagged('L', life)|)
  {
    if life.Some? {
      AtFirst(s, i, Tagged('L', life));
      AtSplit(s, i, "L", life.value + "_");
      Base62At(s, i + 1, life.value);
    }
  }

  lemma LifeThen(s: string, i: nat, life: Option<string>, t: string)
    requires OkDis(life) && At(s, i, Tagged('L', life) + t) && t != "" && t[0] != 'L'
    ensures var j := i + |Tagged('L', life)|;
            Lifetime(s, i) == Some(j) && At(s, j, t)
  {
    var j := i + |Tagged('L', life)|;
    AtSplit(s, i, Tagged('L', life), t);
    AtFirst(s, j, t);
    LifeAt(s, i, life);
  }

  lemma {:induction false} DecReads(n: nat)
    ensures Dec(n) != "" && AllOf(Dec(n), Digit) && Decimal(Dec(n)) == n
  {
    if n < 10 {
      assert Decimal(Dec(n)[..0]) == 0;
    } else {
      DecReads(n / 10);
      assert Dec(n)[..|Dec(n)| - 1] == Dec(n / 10);
    }
  }

  lemma {:induction false} DecimalGrows(t: string, n: nat)
    requires AllOf(t, Digit) && n <= |t|
    ensures Decimal(t[..n]) <= Decimal(t)
  {
    if n == |t| {
      assert t[..n] == t;
    } else {
      var shorter := t[..|t| - 1];
      assert shorter[..n] == t[..n];
      DecimalGrows(shorter, n);
    }
  }

  /** If the digits go on after the length, more is taken for the identifier than should be. */
  lemma LongerRun(s: string, n: nat)
    requires n < |s| && Run(s, 0, n, Digit) && Is(s[n], Digit)
    ensures Ident(s, 0).Some? ==> Ident(s, 0).value.1 > n + Decimal(s[..n])
  {
    var j := Skip(s, 0, Digit);
    assert j < |s| ==> !Is(s[j], Digit);
    assert j > n;
    assert s[0..j] == s[..j] && s[..j][..n] == s[..n];
    DecimalGrows(s[..j], n);
    assert Is(s[0], Digit) && !Is('u', Digit);
  }

  /** What is read where a length of `n` digits is followed by a separator or something else. */
  lemma IdentAfter(s: string, n: nat)
    requires 0 < n <= |s| && Run(s, 0, n, Digit) && (n < |s| ==> !Is(s[n], Digit))
    ensures var start := if n < |s| && s[n] == '_' then n + 1 else n;
            var size := Decimal(s[..n]);
            Ident(s, 0) == if start + size <= |s| then Some((s[start..start + size], start + size)) else None
  {
    SkipIs(s, 0, n, Digit);
    assert s[0..n] == s[..n];
    assert Is(s[0], Digit) && !Is('u', Digit);
  }

  /** An identifier, printed with or without a separator, reads back exactly if the separator is there,
      or the first character after the length is neither a digit nor a separator itself. */
  lemma IdentRoundTrip(name: string, bar: bool, rest: string)
    ensures var printed := Dec(|name|) + ((if bar then "_" else "") + name);
            var after := name + rest;
            Ident(printed + rest, 0) == Some((name, |printed|))
            <==> bar || after == "" || !(Is(after[0], Digit) || after[0] == '_')
  {
    hide Ident;
    hide Dec;
    hide Decimal;
    var dec, middle, after := Dec(|name|), if bar then "_" else "", name + rest;
    var s := dec + (middle + name) + rest;
    DecReads(|name|);
    var n := |dec|;
    assert s == dec + (middle + after);
    assert s[..n] == dec && s[n..] == middle + after;
    assert forall k :: 0 <= k < n ==> s[k] == dec[k];
    if !bar && after != "" && Is(after[0], Digit) {
      LongerRun(s, n);
    } else {
      IdentAfter(s, n);
      assert bar ==> s[n + 1..n + 1 + |name|] == name;
      assert !bar ==> s[n..n + |name|] == name;
    }
  }


  lemma SmallDecimals()
    ensures Decimal("0") == 0 && Decimal("1") == 1 && Decimal("01") == 1
  {
    assert "0"[..0] == "" && "1"[..0] == "" && "01"[..1] == "0";
    assert Decimal("") == 0;
  }

  lemma NamesWithout(s: string)
    requires s == "NvC01a"
    ensures Name(s, 3) == Some(("a", 6)) && Name(s, 6) == None
  {
    hide Decimal;
    SmallDecimals();
    SkipIs(s, 3, 5, Digit);
    SkipIs(s, 6, 6, Digit);
    assert s[3..5] == "01" && s[5..6] == "a";
  }

  lemma NamesWith(s: string)
    requires s == "NvC0_1a"
    ensures Name(s, 3) == Some(("", 5)) && Name(s, 5) == Some(("a", 7))
  {
    hide Decimal;
    SmallDecimals();
    SkipIs(s, 3, 4, Digit);
    SkipIs(s, 5, 6, Digit);
    assert s[3..4] == "0" && s[5..6] == "1" && s[5..5] == "" && s[6..7] == "a";
  }

  lemma CrateThenName(s: string, fuel: nat, fl: Flags)
    requires |s| > 3 && s[0] == 'N' && s[1] == 'v' && s[2] == 'C' && Name(s, 3).Some?
    ensures var (crateName, j) := Name(s, 3).value;
            ParsePath(s, 0, fuel, fl)
            == if fuel < 2 then Deep
               else
                 match Name(s, j)
                 case Some((name, k)) => Got([crateName, name], k)
                 case None => Bail
  {
    hide Name;
    var (crateName, j) := Name(s, 3).value;
    if fuel >= 1 {
      assert ParsePath(s, 2, fuel - 1, fl) == if fuel < 2 then Deep else Got([crateName], j);
      assert forall name: string :: [crateName] + [name] == [crateName, name];
    }
  }

  /** A path a in a crate without name: printed without a separator, as RFC 2603 has it, its length is
      misread as 01 and it never demangles; with one it does. */
  lemma EmptyNameMisread(fuel: nat, fl: Flags)
    ensures Demangle("_R" + "NvC01a", fl, fuel) == None
    ensures fuel >= 2 ==> Demangle("_R" + "NvC0_1a", fl, fuel) == Some("::a")
  {
    hide Name;
    hide ParsePath;
    NamesWithout("NvC01a");
    NamesWith("NvC0_1a");
    CrateThenName("NvC01a", fuel, fl);
    CrateThenName("NvC0_1a", fuel, fl);
    Unprefixed("NvC01a");
    Unprefixed("NvC0_1a");
    assert Join(["", "a"]) == "::a" by {
      assert ["", "a"] == [""] + ["a"] && "" + "::" == "::" && "::" + "a" == "::a";
      JoinAppend([""], ["a"]);
    }
  }

  lemma Unprefixed(body: string)
    ensures "_R" <= "_R" + body && ("_R" + body)[2..] == body
  {
  }

  /** Wherever it stands, a printed identifier is read back. */
  lemma IdentAt(s: string, i: nat, name: string)
    requires At(s, i, ShowIdent(name))
    ensures Ident(s, i) == Some((name, i + |ShowIdent(name)|))
    ensures i < |s| && Is(s[i], Digit)
  {
    hide Dec;
    hide Decimal;
    var dec, middle := Dec(|name|), if NeedsBar(name) then "_" else "";
    DecReads(|name|);
    var n := i + |dec|;
    AtSplit(s, i, dec, middle + name);
    AtSplit(s, n, middle, name);
    AtFirst(s, i, dec);
    forall k | i <= k < n
      ensures Is(s[k], Digit)
    {
      assert s[k] == s[i..n][k - i];
    }
    if NeedsBar(name) {
      AtFirst(s, n, middle);
    } else {
      AtFirst(s, n, name);
    }
    SkipIs(s, i, n, Digit);
  }

  lemma NameAt(s: string, i: nat, dis: Option<string>, name: string)
    requires OkDis(dis) && At(s, i, ShowName(dis, name))
    ensures Name(s, i) == Some((name, i + |ShowName(dis, name)|))
  {
    hide Ident;
    hide ShowIdent;
    hide Disambiguator;
    AtSplit(s, i, Tagged('s', dis), ShowIdent(name));
    IdentAt(s, i + |Tagged('s', dis)|, name);
    DisAt(s, i, dis);
  }

  // ------------------------------------------------------------------ printing and reading back

  /** What the parser ought to return for a path that ends at `next`. */
  function Reading(p: Path, f: nat, next: nat): Parse<seq<string>> {
    if Fits(p, f) then Got(Segs(p), next) else Deep
  }

  lemma NestedCase(s: string, i: nat, p: Path, f: nat, fl: Flags, j: nat, k: nat)
    requires p.Nested? && i + 1 < |s| && s[i] == 'N' && s[i + 1] == p.ns && (p.ns == 't' || p.ns == 'v') && f > 0
    requires i + 2 <= j <= |s| && ParsePath(s, i + 2, f - 1, fl) == Reading(p.parent, f - 1, j)
    requires Name(s, j) == Some((p.name, k))
    ensures ParsePath(s, i, f, fl) == Reading(p, f, k)
  {
    hide Name;
  }

  lemma InherentCase(s: string, i: nat, p: Path, f: nat, fl: Flags, j: nat, k: nat, l: nat)
    requires p.Inherent? && i < |s| && s[i] == 'M' && fl.impls && f > 0
    requires Disambiguator(s, i + 1) == Some(j) && j <= k <= |s|
    requires ParsePath(s, j, f - 1, fl) == Reading(p.place, f - 1, k)
    requires ParsePath(s, k, f - 1, fl) == Reading(p.self, f - 1, l)
    ensures ParsePath(s, i, f, fl) == Reading(p, f, l)
  {
    hide Disambiguator;
  }

  lemma TraitImplCase(s: string, i: nat, p: Path, f: nat, fl: Flags, j: nat, k: nat, l: nat, m: nat)
    requires p.TraitImpl? && i < |s| && s[i] == 'X' && fl.generics && f > 0
    requires Disambiguator(s, i + 1) == Some(j) && j <= k <= l <= |s|
    requires ParsePath(s, j, f - 1, fl) == Reading(p.place, f - 1, k)
    requires ParsePath(s, k, f - 1, fl) == Reading(p.self, f - 1, l)
    requires ParsePath(s, l, f - 1, fl) == Reading(p.of, f - 1, m)
    ensures ParsePath(s, i, f, fl) == Reading(p, f, m)
  {
    hide Disambiguator;
  }

  lemma GenericCase(s: string, i: nat, p: Path, f: nat, fl: Flags, j: nat, k: nat)
    requires p.Generic? && i < |s| && s[i] == 'I' && fl.generics && f > 0
    requires i + 1 <= j <= |s| && ParsePath(s, i + 1, f - 1, fl) == Reading(p.path, f - 1, j)
    requires ParseList(s, j, f - 1, fl, true) == if ArgsFit(p.args, f - 1) then Got((), k) else Deep
    ensures ParsePath(s, i, f, fl) == Reading(p, f, k)
  {
    hide ParseList;
    hide ArgsFit;
  }

  lemma NoStack(s: string, i: nat, p: Path, fl: Flags)
    requires i <= |s|
    ensures ParsePath(s, i, 0, fl) == Reading(p, 0, i + |Show(p)|)
  {
  }

  lemma CrateRoundTrip(s: string, i: nat, p: Path, f: nat, fl: Flags)
    requires p.Crate? && OkPath(p, fl) && At(s, i, Show(p)) && f > 0
    ensures ParsePath(s, i, f, fl) == Reading(p, f, i + |Show(p)|)
  {
    hide Name;
    hide ShowName;
    hide At;
    AtFirst(s, i, Show(p));
    AtEnds(s, i, Show(p));
    AtSplit(s, i, "C", ShowName(p.dis, p.name));
    NameAt(s, i + 1, p.dis, p.name);
  }

  lemma {:induction false} GenericRoundTrip(s: string, i: nat, p: Path, f: nat, fl: Flags)
    requires p.Generic? && OkPath(p, fl) && At(s, i, Show(p)) && f > 0
    ensures ParsePath(s, i, f, fl) == Reading(p, f, i + |Show(p)|)
    decreases p, 0
  {
    hide At;
    hide OkArgs;
    hide ShowArgs;
    hide ArgsFit;
    hide ParsePath;
    hide ParseList;
    hide Reading;
    var path, args := Show(p.path), ShowArgs(p.args);
    AtFirst(s, i, Show(p));
    AtSplit(s, i, "I", path + args);
    AtSplit(s, i + 1, path, args);
    var j := i + 1 + |path|;
    PathRoundTrip(s, i + 1, p.path, f - 1, fl);
    ArgsRoundTrip(s, j, p.args, f - 1, fl, true);
    GenericCase(s, i, p, f, fl, j, j + |args|);
  }

  /** Where a path is printed, the parser reads its segments and stops at its end, if the stack has room
      for the depth of the path. Only then. */
  lemma {:induction false} PathRoundTrip(s: string, i: nat, p: Path, f: nat, fl: Flags)
    requires OkPath(p, fl) && At(s, i, Show(p))
    ensures i + |Show(p)| <= |s|
    ensures ParsePath(s, i, f, fl) == Reading(p, f, i + |Show(p)|)
    decreases p
  {
    hide At;
    hide Show;
    hide OkPath;
    hide ParsePath;
    hide Reading;
    AtEnds(s, i, Show(p));
    if f == 0 {
      NoStack(s, i, p, fl);
    } else {
      match p
      case Crate(_, _) => CrateRoundTrip(s, i, p, f, fl);
      case Nested(_, _, _, _) => NestedRoundTrip(s, i, p, f, fl);
      case Inherent(_, _, _) => InherentRoundTrip(s, i, p, f, fl);
      case TraitImpl(_, _, _, _) => TraitImplRoundTrip(s, i, p, f, fl);
      case Generic(_, _) => GenericRoundTrip(s, i, p, f, fl);
    }
  }

  lemma {:induction false} NestedRoundTrip(s: string, i: nat, p: Path, f: nat, fl: Flags)
    requires p.Nested? && OkPath(p, fl) && At(s, i, Show(p)) && f > 0
    ensures ParsePath(s, i, f, fl) == Reading(p, f, i + |Show(p)|)
    decreases p, 0
  {
    hide Name;
    hide ShowName;
    hide At;
    hide ParsePath;
    hide Reading;
    var parent, name := Show(p.parent), ShowName(p.dis, p.name);
    AtSplit(s, i, ['N', p.ns], parent + name);
    AtSplit(s, i + 2, parent, name);
    AtPair(s, i, 'N', p.ns);
    PathRoundTrip(s, i + 2, p.parent, f - 1, fl);
    NameAt(s, i + 2 + |parent|, p.dis, p.name);
    NestedCase(s, i, p, f, fl, i + 2 + |parent|, i + 2 + |parent| + |name|);
  }

  lemma {:induction false} InherentRoundTrip(s: string, i: nat, p: Path, f: nat, fl: Flags)
    requires p.Inherent? && OkPath(p, fl) && At(s, i, Show(p)) && f > 0
    ensures ParsePath(s, i, f, fl) == Reading(p, f, i + |Show(p)|)
    decreases p, 0
  {
    hide Disambiguator;
    hide Tagged;
    hide At;
    hide ParsePath;
    hide Reading;
    hide OkDis;
    var tag, place, self := Tagged('s', p.dis), Show(p.place), Show(p.self);
    AtFirst(s, i, Show(p));
    AtSplit(s, i, "M", tag + (place + self));
    DisThen(s, i + 1, p.dis, place + self);
    var j := i + 1 + |tag|;
    AtSplit(s, j, place, self);
    PathRoundTrip(s, j, p.place, f - 1, fl);
    PathRoundTrip(s, j + |place|, p.self, f - 1, fl);
    InherentCase(s, i, p, f, fl, j, j + |place|, j + |place| + |self|);
  }

  /** Where the parts of a path through a trait implementation stand. */
  lemma TraitImplSpots(s: string, i: nat, p: Path, fl: Flags) returns (j: nat, k: nat, l: nat)
    requires p.TraitImpl? && OkPath(p, fl) && At(s, i, Show(p))
    ensures i < |s| && s[i] == 'X' && i + 1 <= j && Disambiguator(s, i + 1) == Some(j)
    ensures At(s, j, Show(p.place)) && k == j + |Show(p.place)|
    ensures At(s, k, Show(p.self)) && l == k + |Show(p.self)|
    ensures At(s, l, Show(p.of)) && i + |Show(p)| == l + |Show(p.of)|
  {
    hide Disambiguator;
    hide Tagged;
    hide At;
    hide OkDis;
    var tag, place, self, of := Tagged('s', p.dis), Show(p.place), Show(p.self), Show(p.of);
    AtFirst(s, i, Show(p));
    AtSplit(s, i, "X", tag + (place + (self + of)));
    DisThen(s, i + 1, p.dis, place + (self + of));
    j, k, l := i + 1 + |tag|, i + 1 + |tag| + |place|, i + 1 + |tag| + |place| + |self|;
    AtSplit(s, j, place, self + of);
    AtSplit(s, k, self, of);
  }

  lemma {:induction false} TraitImplRoundTrip(s: string, i: nat, p: Path, f: nat, fl: Flags)
    requires p.TraitImpl? && OkPath(p, fl) && At(s, i, Show(p)) && f > 0
    ensures ParsePath(s, i, f, fl) == Reading(p, f, i + |Show(p)|)
    decreases p, 0
  {
    hide Disambiguator;
    hide Show;
    hide At;
    hide ParsePath;
    hide Reading;
    var j, k, l := TraitImplSpots(s, i, p, fl);
    PathRoundTrip(s, j, p.place, f - 1, fl);
    PathRoundTrip(s, k, p.self, f - 1, fl);
    PathRoundTrip(s, l, p.of, f - 1, fl);
    TraitImplCase(s, i, p, f, fl, j, k, l, l + |Show(p.of)|);
  }

  lemma {:induction false} ArgsRoundTrip(s: string, i: nat, args: seq<Arg>, f: nat, fl: Flags, generic: bool)
    requires OkArgs(args, fl, generic) && At(s, i, ShowArgs(args))
    ensures ParseList(s, i, f, fl, generic) == if ArgsFit(args, f) then Got((), i + |ShowArgs(args)|) else Deep
    decreases args
  {
    hide At;
    hide ParseItem;
    hide OkArg;
    hide ShowArg;
    hide ArgFits;
    AtFirst(s, i, ShowArgs(args));
    AtEnds(s, i, ShowArgs(args));
    if args != [] {
      var a := args[0];
      AtSplit(s, i, ShowArg(a), ShowArgs(args[1..]));
      ArgRoundTrip(s, i, a, f, fl, generic);
      ArgsRoundTrip(s, i + |ShowArg(a)|, args[1..], f, fl, generic);
    }
  }

  lemma {:induction false} ArgRoundTrip(s: string, i: nat, a: Arg, f: nat, fl: Flags, generic: bool)
    requires OkArg(a, fl, generic) && At(s, i, ShowArg(a))
    ensures i < |s| && s[i] != 'E'
    ensures ParseItem(s, i, f, fl, generic) == if ArgFits(a, f) then Got((), i + |ShowArg(a)|) else Deep
    decreases a
  {
    hide At;
    hide Base62;
    hide ParseType;
    hide ParseConst;
    hide OkType;
    hide OkConst;
    hide ShowType;
    hide ShowConst;
    hide TypeFits;
    hide ConstFits;
    AtFirst(s, i, ShowArg(a));
    AtEnds(s, i, ShowArg(a));
    match a
    case Life(digits) =>
      AtSplit(s, i, "L", digits + "_");
      Base62At(s, i + 1, digits);
    case TypeArg(ty) =>
      TypeFirst(s, i, ty, fl);
      TypeRoundTrip(s, i, ty, f, fl);
    case ConstArg(value) =>
      AtSplit(s, i, "K", ShowConst(value));
      ConstRoundTrip(s, i + 1, value, f, fl);
  }

  /** What a printed type starts with tells which kind it is. */
  lemma TypeStarts(t: Type, fl: Flags)
    requires OkType(t, fl)
    ensures var c := ShowType(t)[0];
            && c != 'E' && c != 'K' && c != 'L' && c != 'B' && (c == 'p' ==> t == Basic('p'))
            && (IsBasic(c) <==> t.Basic?) && (StartsPath(c) <==> t.Named?) && (c == 'A' <==> t.Array?)
            && (StartsWrap(c) <==> t.Wrap?) && (StartsRef(c) <==> t.Ref?) && (c == 'T' <==> t.Tuple?)
  {
    hide OkPath;
    hide OkConst;
    hide OkArgs;
    hide Show;
    hide ShowArgs;
    hide ShowConst;
  }

  function TypeReading(t: Type, f: nat, next: nat): Parse<()> {
    if TypeFits(t, f) then Got((), next) else Deep
  }

  lemma ArrayCase(s: string, i: nat, t: Type, f: nat, fl: Flags, j: nat, k: nat)
    requires t.Array? && i < |s| && s[i] == 'A' && f > 0
    requires i + 1 <= j <= |s| && ParseType(s, i + 1, f - 1, fl) == TypeReading(t.elem, f - 1, j)
    requires ParseConst(s, j, f - 1, fl) == if ConstFits(t.len, f - 1) then Got((), k) else Deep
    ensures ParseType(s, i, f, fl) == TypeReading(t, f, k)
  {
    hide ParseConst;
    hide ConstFits;
  }

  lemma RefCase(s: string, i: nat, t: Type, f: nat, fl: Flags, j: nat, k: nat)
    requires t.Ref? && i < |s| && StartsRef(s[i]) && f > 0
    requires Lifetime(s, i + 1) == Some(j) && j <= |s| && ParseType(s, j, f - 1, fl) == TypeReading(t.elem, f - 1, k)
    ensures ParseType(s, i, f, fl) == TypeReading(t, f, k)
  {
    hide Lifetime;
  }

  lemma TypeFirst(s: string, i: nat, t: Type, fl: Flags)
    requires OkType(t, fl) && At(s, i, ShowType(t))
    ensures i < |s| && s[i] != 'E' && s[i] != 'K' && s[i] != 'L' && s[i] != 'B' && (s[i] == 'p' ==> t == Basic('p'))
    ensures s[i] == ShowType(t)[0] && i + |ShowType(t)| <= |s|
  {
    hide At;
    hide IsBasic;
    hide ShowType;
    TypeStarts(t, fl);
    AtFirst(s, i, ShowType(t));
    AtEnds(s, i, ShowType(t));
  }

  lemma {:induction false} TypeRoundTrip(s: string, i: nat, t: Type, f: nat, fl: Flags)
    requires OkType(t, fl) && At(s, i, ShowType(t))
    ensures i + |ShowType(t)| <= |s|
    ensures ParseType(s, i, f, fl) == TypeReading(t, f, i + |ShowType(t)|)
    decreases t
  {
    hide At;
    hide OkType;
    hide ShowType;
    TypeFirst(s, i, t, fl);
    if f > 0 {
      match t
      case Basic(_) => BasicRoundTrip(s, i, t, f, fl);
      case Named(_) => NamedRoundTrip(s, i, t, f, fl);
      case Array(_, _) => ArrayRoundTrip(s, i, t, f, fl);
      case Wrap(_, _) => WrapRoundTrip(s, i, t, f, fl);
      case Ref(_, _, _) => RefRoundTrip(s, i, t, f, fl);
      case Tuple(_) => TupleRoundTrip(s, i, t, f, fl);
    }
  }

  lemma BasicRoundTrip(s: string, i: nat, t: Type, f: nat, fl: Flags)
    requires t.Basic? && OkType(t, fl) && At(s, i, ShowType(t)) && f > 0
    ensures ParseType(s, i, f, fl) == TypeReading(t, f, i + |ShowType(t)|)
  {
    AtFirst(s, i, ShowType(t));
  }

  lemma {:induction false} NamedRoundTrip(s: string, i: nat, t: Type, f: nat, fl: Flags)
    requires t.Named? && OkType(t, fl) && At(s, i, ShowType(t)) && f > 0
    ensures ParseType(s, i, f, fl) == TypeReading(t, f, i + |ShowType(t)|)
    decreases t, 0
  {
    hide At;
    hide ParsePath;
    hide Show;
    hide Fits;
    hide OkPath;
    AtFirst(s, i, ShowType(t));
    PathRoundTrip(s, i, t.path, f - 1, fl);
  }

  lemma {:induction false} WrapRoundTrip(s: string, i: nat, t: Type, f: nat, fl: Flags)
    requires t.Wrap? && OkType(t, fl) && At(s, i, ShowType(t)) && f > 0
    ensures ParseType(s, i, f, fl) == TypeReading(t, f, i + |ShowType(t)|)
    decreases t, 0
  {
    hide At;
    hide ParsePath;
    hide ParseConst;
    hide ParseList;
    hide Lifetime;
    hide Fits;
    hide ConstFits;
    hide ArgsFit;
    hide OkPath;
    hide OkConst;
    hide OkArgs;
    AtFirst(s, i, ShowType(t));
    AtSplit(s, i, [t.c], ShowType(t.elem));
    TypeRoundTrip(s, i + 1, t.elem, f - 1, fl);
  }

  lemma {:induction false} TupleRoundTrip(s: string, i: nat, t: Type, f: nat, fl: Flags)
    requires t.Tuple? && OkType(t, fl) && At(s, i, ShowType(t)) && f > 0
    ensures ParseType(s, i, f, fl) == TypeReading(t, f, i + |ShowType(t)|)
    decreases t, 0
  {
    hide At;
    hide ParseList;
    hide ShowArgs;
    hide ArgsFit;
    hide OkArgs;
    AtFirst(s, i, ShowType(t));
    AtSplit(s, i, "T", ShowArgs(t.elems));
    ArgsRoundTrip(s, i + 1, t.elems, f - 1, fl, false);
  }

  lemma {:induction false} ArrayRoundTrip(s: string, i: nat, t: Type, f: nat, fl: Flags)
    requires t.Array? && OkType(t, fl) && At(s, i, ShowType(t)) && f > 0
    ensures ParseType(s, i, f, fl) == TypeReading(t, f, i + |ShowType(t)|)
    decreases t, 0
  {
    hide At;
    hide ParseType;
    hide TypeReading;
    hide OkConst;
    hide ConstFits;
    hide ParseConst;
    hide ShowConst;
    hide TypeFits;
    var elem, len := ShowType(t.elem), ShowConst(t.len);
    AtFirst(s, i, ShowType(t));
    AtSplit(s, i, "A", elem + len);
    AtSplit(s, i + 1, elem, len);
    TypeRoundTrip(s, i + 1, t.elem, f - 1, fl);
    ConstRoundTrip(s, i + 1 + |elem|, t.len, f - 1, fl);
    ArrayCase(s, i, t, f, fl, i + 1 + |elem|, i + 1 + |elem| + |len|);
  }

  lemma {:induction false} RefRoundTrip(s: string, i: nat, t: Type, f: nat, fl: Flags)
    requires t.Ref? && OkType(t, fl) && At(s, i, ShowType(t)) && f > 0
    ensures ParseType(s, i, f, fl) == TypeReading(t, f, i + |ShowType(t)|)
    decreases t, 0
  {
    hide At;
    hide ParseType;
    hide TypeReading;
    hide Tagged;
    hide Lifetime;
    var life, elem := Tagged('L', t.life), ShowType(t.elem);
    TypeStarts(t.elem, fl);
    AtFirst(s, i, ShowType(t));
    AtSplit(s, i, [t.c], life + elem);
    LifeThen(s, i + 1, t.life, elem);
    TypeRoundTrip(s, i + 1 + |life|, t.elem, f - 1, fl);
    RefCase(s, i, t, f, fl, i + 1 + |life|, i + 1 + |life| + |elem|);
  }

  lemma ConstCase(s: string, i: nat, c: Const, f: nat, fl: Flags, j: nat, k: nat)
    requires c.Value? && i < |s| && s[i] != 'B' && s[i] != 'p' && f > 0 && j <= |s|
    requires ParseType(s, i, f - 1, fl) == TypeReading(c.ty, f - 1, j)
    requires (j < |s| && s[j] == 'n') == c.negative && k + 1 <= |s|
    requires (if c.negative then j + 1 else j) <= |s|
    requires Skip(s, if c.negative then j + 1 else j, Hex) == k && s[k] == '_'
    ensures ParseConst(s, i, f, fl) == if ConstFits(c, f) then Got((), k + 1) else Deep
  {
    hide ParseType;
    hide TypeFits;
    hide Skip;
  }

  lemma {:induction false} ConstRoundTrip(s: string, i: nat, c: Const, f: nat, fl: Flags)
    requires OkConst(c, fl) && At(s, i, ShowConst(c))
    ensures ParseConst(s, i, f, fl) == if ConstFits(c, f) then Got((), i + |ShowConst(c)|) else Deep
    decreases c
  {
    hide At;
    hide OkType;
    hide ShowType;
    hide TypeFits;
    hide ParseType;
    hide TypeReading;
    hide Base62;
    hide Skip;
    AtFirst(s, i, ShowConst(c));
    AtEnds(s, i, ShowConst(c));
    if f > 0 && c.Value? {
      var sign := if c.negative then "n" else "";
      AtSplit(s, i, ShowType(c.ty), sign + (c.hex + "_"));
      var j := i + |ShowType(c.ty)|;
      TypeRoundTrip(s, i, c.ty, f - 1, fl);
      TypeFirst(s, i, c.ty, fl);
      HexAt(s, j, c.negative, c.hex);
      ConstCase(s, i, c, f, fl, j, j + |sign| + |c.hex|);
    }
  }

  lemma HexAt(s: string, j: nat, negative: bool, hex: string)
    requires At(s, j, (if negative then "n" else "") + (hex + "_")) && AllOf(hex, Hex)
    ensures var k := if j < |s| && s[j] == 'n' then j + 1 else j;
            var end := j + (if negative then 1 else 0) + |hex|;
            && end < |s| && k <= |s| && Skip(s, k, Hex) == end && s[end] == '_'
            && j < |s| && (s[j] == 'n') == negative
  {
    var sign := if negative then "n" else "";
    AtSplit(s, j, sign, hex + "_");
    AtFirst(s, j, sign + (hex + "_"));
    SkipsTo(s, j + |sign|, hex, Hex);
  }

  // ------------------------------------------------------------------ whole symbols

  /** A symbol: the prefix, a path, and for generic functions the crate that instantiates it. */
  function Symbol(p: Path, inst: Option<Path>): string {
    "_R" + (Show(p) + if inst.Some? then Show(inst.value) else "")
  }

  /** A printed symbol demangles to the segments of its path, if the stack has room for it; otherwise it
      does not demangle. */
  lemma SymbolRoundTrip(p: Path, inst: Option<Path>, fl: Flags, f: nat)
    requires OkPath(p, fl) && (inst.Some? ==> fl.generics && OkPath(inst.value, fl))
    ensures Demangle(Symbol(p, inst), fl, f)
            == if Fits(p, f) && (inst.Some? ==> Fits(inst.value, f)) then Some(Join(Segs(p))) else None
  {
    hide ParsePath;
    hide Show;
    hide OkPath;
    hide Fits;
    hide Join;
    var last := if inst.Some? then Show(inst.value) else "";
    var body := Show(p) + last;
    assert Symbol(p, inst)[2..] == body && "_R" <= Symbol(p, inst);
    assert body[0] == Show(p)[0];
    WholeAt(Show(p), last);
    PathRoundTrip(body, 0, p, f, fl);
    if inst.Some? {
      PathRoundTrip(body, |Show(p)|, inst.value, f, fl);
    }
  }

  lemma WholeAt(a: string, b: string)
    ensures At(a + b, 0, a) && At(a + b, |a|, b)
  {
  }

  // ------------------------------------------------------------------ names without back references

  /** What a path that was read consists of. */
  lemma Parts(s: string, i: nat, f: nat, fl: Flags)
    requires i <= |s| && ParsePath(s, i, f, fl).Got?
    ensures i < |s| && f > 0
    ensures s[i] == 'C' || s[i] == 'N' || s[i] == 'B' || s[i] == 'M' || s[i] == 'X' || s[i] == 'I'
    ensures s[i] == 'C' ==> Name(s, i + 1).Some?
    ensures s[i] == 'N' ==> i + 2 <= |s| && (s[i + 1] == 't' || s[i + 1] == 'v')
    ensures s[i] == 'N' ==> ParsePath(s, i + 2, f - 1, fl).Got? && Name(s, ParsePath(s, i + 2, f - 1, fl).next).Some?
    ensures s[i] == 'B' ==> Base62(s, i + 1).Some? && Base62(s, i + 1).value.0 < i
    ensures s[i] == 'B' ==> ParsePath(s, Base62(s, i + 1).value.0, f - 1, fl).Got?
    ensures s[i] == 'M' || s[i] == 'X' ==>
              Disambiguator(s, i + 1).Some? && ParseImpl(s, Disambiguator(s, i + 1).value, f - 1, fl, s[i] == 'X').Got?
    ensures s[i] == 'I' ==> ParsePath(s, i + 1, f - 1, fl).Got?
    ensures s[i] == 'I' ==> ParseList(s, ParsePath(s, i + 1, f - 1, fl).next, f - 1, fl, true).Got?
    ensures s[i] == 'M' ==> fl.impls
    ensures s[i] == 'X' || s[i] == 'I' ==> fl.generics
  {
    hide Name;
    hide Base62;
    hide Disambiguator;
    hide ParseList;
  }

  /** The path read at `i`, with every back reference replaced by what it refers to. A back reference to a
      constant is never looked up; a placeholder takes its place. */
  function Uncompressed(s: string, i: nat, f: nat, fl: Flags): Path
    requires i <= |s| && ParsePath(s, i, f, fl).Got?
    decreases f, 0, 0
  {
    if s[i] == 'C' then
      Crate(DisText(s, i + 1), Name(s, i + 1).value.0)
    else if s[i] == 'N' then NestedOf(s, s[i + 1], i + 2, f - 1, fl)
    else if s[i] == 'B' then Uncompressed(s, Base62(s, i + 1).value.0, f - 1, fl)
    else if s[i] == 'I' then GenericOf(s, i + 1, f - 1, fl)
    else ImplOf(s, DisText(s, i + 1), Disambiguator(s, i + 1).value, f - 1, fl, s[i] == 'X')
  }

  function NestedOf(s: string, ns: char, i: nat, f: nat, fl: Flags): Path
    requires i <= |s| && ParsePath(s, i, f, fl).Got? && Name(s, ParsePath(s, i, f, fl).next).Some?
    decreases f, 1, 0
  {
    var j := ParsePath(s, i, f, fl).next;
    Nested(ns, Uncompressed(s, i, f, fl), DisText(s, j), Name(s, j).value.0)
  }

  function GenericOf(s: string, i: nat, f: nat, fl: Flags): Path
    requires i <= |s| && ParsePath(s, i, f, fl).Got? && ParseList(s, ParsePath(s, i, f, fl).next, f, fl, true).Got?
    decreases f, 1, |s| + 1
  {
    Generic(Uncompressed(s, i, f, fl), ArgsOf(s, ParsePath(s, i, f, fl).next, f, fl, true))
  }

  function ImplOf(s: string, dis: Option<string>, i: nat, f: nat, fl: Flags, ofTrait: bool): Path
    requires i <= |s| && ParseImpl(s, i, f, fl, ofTrait).Got?
    decreases f, 1, 0
  {
    var j := ParsePath(s, i, f, fl).next;
    var place, self := Uncompressed(s, i, f, fl), Uncompressed(s, j, f, fl);
    if ofTrait then TraitImpl(dis, place, self, Uncompressed(s, ParsePath(s, j, f, fl).next, f, fl))
    else Inherent(dis, place, self)
  }

  function DisText(s: string, i: nat): Option<string>
    requires i <= |s|
  {
    if i < |s| && s[i] == 's' then Some(s[i + 1..Skip(s, i + 1, Alnum)]) else None
  }

  function LifeText(s: string, i: nat): Option<string>
    requires i <= |s|
  {
    if i < |s| && s[i] == 'L' then Some(s[i + 1..Skip(s, i + 1, Alnum)]) else None
  }

  function ArgsOf(s: string, i: nat, f: nat, fl: Flags, generic: bool): seq<Arg>
    requires i <= |s| && ParseList(s, i, f, fl, generic).Got?
    decreases f, 1, |s| - i
  {
    if s[i] == 'E' then []
    else [ArgOf(s, i, f, fl, generic)] + ArgsOf(s, ParseItem(s, i, f, fl, generic).next, f, fl, generic)
  }

  function ArgOf(s: string, i: nat, f: nat, fl: Flags, generic: bool): Arg
    requires i < |s| && ParseItem(s, i, f, fl, generic).Got?
    decreases f, 1, 0
  {
    if generic && s[i] == 'K' then ConstArg(ConstOf(s, i + 1, f, fl))
    else if generic && s[i] == 'L' then Life(s[i + 1..Skip(s, i + 1, Alnum)])
    else TypeArg(TypeOf(s, i, f, fl))
  }

  function TypeOf(s: string, i: nat, f: nat, fl: Flags): Type
    requires i <= |s| && ParseType(s, i, f, fl).Got?
    decreases f, 0, 0
  {
    if IsBasic(s[i]) then Basic(s[i])
    else if StartsPath(s[i]) then Named(Uncompressed(s, i, f - 1, fl))
    else if s[i] == 'A' then
      Array(TypeOf(s, i + 1, f - 1, fl), ConstOf(s, ParseType(s, i + 1, f - 1, fl).next, f - 1, fl))
    else if StartsWrap(s[i]) then Wrap(s[i], TypeOf(s, i + 1, f - 1, fl))
    else if StartsRef(s[i]) then
      Ref(s[i], LifeText(s, i + 1), TypeOf(s, Lifetime(s, i + 1).value, f - 1, fl))
    else Tuple(ArgsOf(s, i + 1, f - 1, fl, false))
  }

  function ConstOf(s: string, i: nat, f: nat, fl: Flags): Const
    requires i <= |s| && ParseConst(s, i, f, fl).Got?
    decreases f, 0, 0
  {
    if s[i] == 'B' || s[i] == 'p' then Hole
    else
      var j := ParseType(s, i, f - 1, fl).next;
      var negative := j < |s| && s[j] == 'n';
      var k := if negative then j + 1 else j;
      Value(TypeOf(s, i, f - 1, fl), negative, s[k..Skip(s, k, Hex)])
  }

  /** The path at `j` was read, with these segments. */
  ghost predicate Has(s: string, j: nat, f: nat, fl: Flags, segs: seq<string>)
    requires j <= |s|
  {
    ParsePath(s, j, f, fl).Got? && ParsePath(s, j, f, fl).value == segs
  }

  /** A path and a name were read, with these segments. */
  ghost predicate HasNested(s: string, j: nat, f: nat, fl: Flags, segs: seq<string>)
    requires j <= |s|
  {
    && ParsePath(s, j, f, fl).Got?
    && Name(s, ParsePath(s, j, f, fl).next).Some?
    && segs == ParsePath(s, j, f, fl).value + [Name(s, ParsePath(s, j, f, fl).next).value.0]
  }

  ghost predicate HasImpl(s: string, j: nat, f: nat, fl: Flags, ofTrait: bool, segs: seq<string>)
    requires j <= |s|
  {
    ParseImpl(s, j, f, fl, ofTrait).Got? && ParseImpl(s, j, f, fl, ofTrait).value == segs
  }

  /** What the segments of a path that was read are made of. */
  lemma PartSegs(s: string, i: nat, f: nat, fl: Flags, segs: seq<string>)
    requires i <= |s| && Has(s, i, f, fl, segs)
    ensures i < |s| && f > 0
    ensures s[i] == 'C' && Name(s, i + 1).Some? ==> segs == [Name(s, i + 1).value.0]
    ensures s[i] == 'N' && i + 2 <= |s| ==> HasNested(s, i + 2, f - 1, fl, segs)
    ensures s[i] == 'B' && Base62(s, i + 1).Some? && Base62(s, i + 1).value.0 < i ==>
              Has(s, Base62(s, i + 1).value.0, f - 1, fl, segs)
    ensures (s[i] == 'M' || s[i] == 'X') && Disambiguator(s, i + 1).Some? ==>
              HasImpl(s, Disambiguator(s, i + 1).value, f - 1, fl, s[i] == 'X', segs)
    ensures s[i] == 'I' ==> Has(s, i + 1, f - 1, fl, segs)
  {
    hide Name;
    hide Base62;
    hide Disambiguator;
    hide ParseList;
  }

  ghost predicate Faithful(p: Path, f: nat, fl: Flags, segs: seq<string>) {
    OkPath(p, fl) && Fits(p, f) && Segs(p) == segs
  }

  /** The uncompressed path may be printed, is no deeper than the stack, and has the same segments. */
  lemma {:induction false} UncompressedOk(s: string, i: nat, f: nat, fl: Flags)
    requires i <= |s| && ParsePath(s, i, f, fl).Got?
    ensures Faithful(Uncompressed(s, i, f, fl), f, fl, ParsePath(s, i, f, fl).value)
    decreases f, 0, 0
  {
    hide ParsePath;
    hide Name;
    hide Base62;
    hide Disambiguator;
    hide OkDis;
    hide DisText;
    hide OkArgs;
    hide ArgsFit;
    hide ArgsOf;
    hide ParseList;
    Parts(s, i, f, fl);
    PartSegs(s, i, f, fl, ParsePath(s, i, f, fl).value);
    DisTextOk(s, i + 1);
    if s[i] == 'N' {
      UncompressedOk(s, i + 2, f - 1, fl);
      DisTextOk(s, ParsePath(s, i + 2, f - 1, fl).next);
    } else if s[i] == 'B' {
      var val := Base62(s, i + 1).value.0;
      UncompressedOk(s, val, f - 1, fl);
      Deeper(Uncompressed(s, val, f - 1, fl), f - 1);
    } else if s[i] == 'M' || s[i] == 'X' {
      ImplOfOk(s, DisText(s, i + 1), Disambiguator(s, i + 1).value, f - 1, fl, s[i] == 'X');
    } else if s[i] == 'I' {
      UncompressedOk(s, i + 1, f - 1, fl);
      ArgsOfOk(s, ParsePath(s, i + 1, f - 1, fl).next, f - 1, fl, true);
    }
  }

  lemma {:induction false} ImplOfOk(s: string, dis: Option<string>, i: nat, f: nat, fl: Flags, ofTrait: bool)
    requires i <= |s| && ParseImpl(s, i, f, fl, ofTrait).Got? && OkDis(dis)
    requires if ofTrait then fl.generics else fl.impls
    ensures Faithful(ImplOf(s, dis, i, f, fl, ofTrait), f + 1, fl, ParseImpl(s, i, f, fl, ofTrait).value)
    decreases f, 1, 0
  {
    hide ParsePath;
    hide Uncompressed;
    hide OkDis;
    var j := ParsePath(s, i, f, fl).next;
    UncompressedOk(s, i, f, fl);
    UncompressedOk(s, j, f, fl);
    if ofTrait {
      UncompressedOk(s, ParsePath(s, j, f, fl).next, f, fl);
    }
  }

  lemma DisTextOk(s: string, i: nat)
    requires i <= |s|
    ensures OkDis(DisText(s, i))
  {
  }

  lemma LifeTextOk(s: string, i: nat)
    requires i <= |s|
    ensures OkDis(LifeText(s, i))
  {
  }

  lemma {:induction false} ArgsOfOk(s: string, i: nat, f: nat, fl: Flags, generic: bool)
    requires i <= |s| && ParseList(s, i, f, fl, generic).Got?
    ensures OkArgs(ArgsOf(s, i, f, fl, generic), fl, generic) && ArgsFit(ArgsOf(s, i, f, fl, generic), f)
    decreases f, 1, |s| - i
  {
    hide OkArg;
    hide ArgFits;
    if s[i] != 'E' {
      ArgOfOk(s, i, f, fl, generic);
      ArgsOfOk(s, ParseItem(s, i, f, fl, generic).next, f, fl, generic);
    }
  }

  lemma {:induction false} ArgOfOk(s: string, i: nat, f: nat, fl: Flags, generic: bool)
    requires i < |s| && ParseItem(s, i, f, fl, generic).Got?
    ensures OkArg(ArgOf(s, i, f, fl, generic), fl, generic) && ArgFits(ArgOf(s, i, f, fl, generic), f)
    decreases f, 1, 0
  {
    if generic && s[i] == 'K' {
      ConstOfOk(s, i + 1, f, fl);
    } else if !(generic && s[i] == 'L') {
      TypeOfOk(s, i, f, fl);
    }
  }

  lemma {:induction false} TypeOfOk(s: string, i: nat, f: nat, fl: Flags)
    requires i <= |s| && ParseType(s, i, f, fl).Got?
    ensures OkType(TypeOf(s, i, f, fl), fl) && TypeFits(TypeOf(s, i, f, fl), f)
    ensures TypeOf(s, i, f, fl) == Basic('p') ==> s[i] == 'p'
    decreases f, 0, 0
  {
    hide OkPath;
    hide OkArgs;
    hide OkConst;
    hide OkDis;
    hide LifeText;
    if StartsPath(s[i]) {
      UncompressedOk(s, i, f - 1, fl);
    } else if s[i] == 'A' {
      TypeOfOk(s, i + 1, f - 1, fl);
      ConstOfOk(s, ParseType(s, i + 1, f - 1, fl).next, f - 1, fl);
    } else if StartsWrap(s[i]) {
      TypeOfOk(s, i + 1, f - 1, fl);
    } else if StartsRef(s[i]) {
      LifeTextOk(s, i + 1);
      TypeOfOk(s, Lifetime(s, i + 1).value, f - 1, fl);
    } else if s[i] == 'T' {
      ArgsOfOk(s, i + 1, f - 1, fl, false);
    }
  }

  lemma {:induction false} ConstOfOk(s: string, i: nat, f: nat, fl: Flags)
    requires i <= |s| && ParseConst(s, i, f, fl).Got?
    ensures OkConst(ConstOf(s, i, f, fl), fl) && ConstFits(ConstOf(s, i, f, fl), f)
    decreases f, 0, 0
  {
    if s[i] != 'B' && s[i] != 'p' {
      TypeOfOk(s, i, f - 1, fl);
    }
  }

  // ------------------------------------------------------------------ what fits fits a larger stack

  lemma {:induction false} Deeper(p: Path, f: nat)
    requires Fits(p, f)
    ensures Fits(p, f + 1)
    decreases p
  {
    match p
    case Crate(_, _) =>
    case Nested(_, parent, _, _) => Deeper(parent, f - 1);
    case Inherent(_, place, self) =>
      Deeper(place, f - 1);
      Deeper(self, f - 1);
    case TraitImpl(_, place, self, of) =>
      Deeper(place, f - 1);
      Deeper(self, f - 1);
      Deeper(of, f - 1);
    case Generic(path, args) =>
      Deeper(path, f - 1);
      ArgsDeeper(args, f - 1);
  }

  lemma {:induction false} ArgsDeeper(args: seq<Arg>, f: nat)
    requires ArgsFit(args, f)
    ensures ArgsFit(args, f + 1)
    decreases args
  {
    if args != [] {
      ArgDeeper(args[0], f);
      ArgsDeeper(args[1..], f);
    }
  }

  lemma {:induction false} ArgDeeper(a: Arg, f: nat)
    requires ArgFits(a, f)
    ensures ArgFits(a, f + 1)
    decreases a
  {
    match a
    case Life(_) =>
    case TypeArg(ty) => TypeDeeper(ty, f);
    case ConstArg(value) => ConstDeeper(value, f);
  }

  lemma {:induction false} TypeDeeper(t: Type, f: nat)
    requires TypeFits(t, f)
    ensures TypeFits(t, f + 1)
    decreases t
  {
    match t
    case Basic(_) =>
    case Named(path) => Deeper(path, f - 1);
    case Array(elem, len) =>
      TypeDeeper(elem, f - 1);
      ConstDeeper(len, f - 1);
    case Wrap(_, elem) => TypeDeeper(elem, f - 1);
    case Ref(_, _, elem) => TypeDeeper(elem, f - 1);
    case Tuple(elems) => ArgsDeeper(elems, f - 1);
  }

  lemma {:induction false} ConstDeeper(c: Const, f: nat)
    requires ConstFits(c, f)
    ensures ConstFits(c, f + 1)
    decreases c
  {
    if c.Value? {
      TypeDeeper(c.ty, f - 1);
    }
  }

  /** The symbol without back references that says the same as `sym`. */
  function UncompressedSymbol(sym: string, fl: Flags, f: nat): string
    requires Demangle(sym, fl, f).Some?
  {
    var body := sym[2..];
    var j := ParsePath(body, 0, f, fl).next;
    Symbol(Uncompressed(body, 0, f, fl),
           if fl.generics && j < |body| then Some(Uncompressed(body, j, f, fl)) else None)
  }

  /** A name with back references that demangles says the same as the name written out in full, which
      demangles with the same stack. */
  lemma CompressionIsMeaningless(sym: string, fl: Flags, f: nat)
    requires Demangle(sym, fl, f).Some?
    ensures Demangle(UncompressedSymbol(sym, fl, f), fl, f) == Demangle(sym, fl, f)
  {
    hide ParsePath;
    hide Uncompressed;
    hide OkPath;
    hide Fits;
    hide Join;
    hide Symbol;
    var body := sym[2..];
    var j := ParsePath(body, 0, f, fl).next;
    UncompressedOk(body, 0, f, fl);
    var p := Uncompressed(body, 0, f, fl);
    if fl.generics && j < |body| {
      UncompressedOk(body, j, f, fl);
      SymbolRoundTrip(p, Some(Uncompressed(body, j, f, fl)), fl, f);
    } else {
      SymbolRoundTrip(p, None, fl, f);
    }
  }
}
