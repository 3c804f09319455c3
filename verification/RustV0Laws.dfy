/** What the demangler makes of a symbol, said without the parser: which text it gives, and which letters it knows. */
module RustV0Laws {
  import opened Paths
  import opened RustV0
  import opened RustV0Grammar
  import opened Segments
  import opened Wrappers

  // ------------------------------------------------------------------ the text, segment by segment

  /** The demangled text of a printed symbol: a crate's is its name, a nested name is put after its parent's,
      an implementation has that of its type, and generic arguments leave no trace. */
  lemma NamesInOrder(p: Path, inst: Option<Path>, fl: Flags, f: nat)
    requires OkPath(p, fl) && (inst.Some? ==> fl.generics && OkPath(inst.value, fl))
    requires Demangle(Symbol(p, inst), fl, f).Some?
    ensures var text := Demangle(Symbol(p, inst), fl, f);
            && (p.Crate? ==> text == Some(p.name))
            && (p.Nested? ==>
                  var above := Demangle(Symbol(p.parent, inst), fl, f);
                  above.Some? && text == Some(above.value + "::" + p.name))
            && (p.Inherent? || p.TraitImpl? ==> text == Demangle(Symbol(p.self, inst), fl, f))
            && (p.Generic? ==> text == Demangle(Symbol(p.path, inst), fl, f))
  {
    hide Demangle;
    hide Symbol;
    hide Join;
    SymbolRoundTrip(p, inst, fl, f);
    match p
    case Crate(_, name) => JoinOne(name);
    case Nested(_, parent, _, name) =>
      Deeper(parent, f - 1);
      SymbolRoundTrip(parent, inst, fl, f);
      JoinAppend(Segs(parent), [name]);
      JoinOne(name);
    case Inherent(_, _, self) =>
      Deeper(self, f - 1);
      SymbolRoundTrip(self, inst, fl, f);
    case TraitImpl(_, _, self, _) =>
      Deeper(self, f - 1);
      SymbolRoundTrip(self, inst, fl, f);
    case Generic(path, _) =>
      Deeper(path, f - 1);
      SymbolRoundTrip(path, inst, fl, f);
  }

  /** The segments of the path, in their order, can be read off the demangled text, if none has a colon in it. */
  lemma SegmentsRecovered(p: Path, inst: Option<Path>, fl: Flags, f: nat)
    requires OkPath(p, fl) && (inst.Some? ==> fl.generics && OkPath(inst.value, fl))
    requires Demangle(Symbol(p, inst), fl, f).Some?
    requires forall k :: 0 <= k < |Segs(p)| ==> ':' !in Segs(p)[k]
    ensures Split(Demangle(Symbol(p, inst), fl, f).value) == Segs(p)
  {
    hide Demangle;
    hide Symbol;
    hide Join;
    hide Split;
    hide Segs;
    SymbolRoundTrip(p, inst, fl, f);
    SplitJoin(Segs(p));
  }

  /** A path elsewhere in the text, referred to by its position, reads as that path; the reading goes on after
      the reference. The position must lie before the reference. */
  lemma BackReference(s: string, i: nat, k: nat, p: Path, f: nat, fl: Flags)
    requires OkPath(p, fl) && (fl.impls || fl.generics) && At(s, k, Show(p)) && At(s, i, "B" + Show62(k))
    ensures i + 1 + |Show62(k)| <= |s|
    ensures ParsePath(s, i, f, fl)
            == if f == 0 then Deep
               else if k >= i then Bail
               else if Fits(p, f - 1) then Got(Segs(p), i + 1 + |Show62(k)|)
               else Deep
  {
    hide At;
    hide Show;
    hide Show62;
    hide OkPath;
    hide Fits;
    hide Segs;
    hide Base62;
    AtEnds(s, i, "B" + Show62(k));
    AtFirst(s, i, "B" + Show62(k));
    AtSplit(s, i, "B", Show62(k));
    Base62RoundTrip(s, i + 1, k);
    if f > 0 && k < i {
      PathRoundTrip(s, k, p, f - 1, fl);
      PathFrom(s, i, f, fl);
    }
  }

  lemma PathFrom(s: string, i: nat, f: nat, fl: Flags)
    requires i < |s| && s[i] == 'B' && (fl.impls || fl.generics) && f > 0
    requires Base62(s, i + 1).Some? && Base62(s, i + 1).value.0 < i
    ensures var (val, j) := Base62(s, i + 1).value;
            ParsePath(s, i, f, fl)
            == if ParsePath(s, val, f - 1, fl).Got? then Got(ParsePath(s, val, f - 1, fl).value, j)
               else ParsePath(s, val, f - 1, fl)
  {
    hide Base62;
  }

  // ------------------------------------------------------------------ which symbols there are

  /** What a symbol that demangles begins with. */
  lemma FirstLetters(sym: string, fl: Flags, f: nat)
    requires Demangle(sym, fl, f).Some?
    ensures |sym| > 3 && sym[0] == '_' && sym[1] == 'R'
    ensures || sym[2] == 'C'
            || (sym[2] == 'N' && (sym[3] == 't' || sym[3] == 'v'))
            || (sym[2] == 'M' && fl.impls)
            || ((sym[2] == 'X' || sym[2] == 'I') && fl.generics)
  {
    var body := sym[2..];
    Parts(body, 0, f, fl);
    assert "_R"[0] == sym[0] && "_R"[1] == sym[1] && body[0] == sym[2];
    assert ParsePath(body, 0, f, fl).next > 0;
  }

  /** A text that goes on after its path, and not just with the crate that instantiates it, is no symbol. */
  lemma NotTheEnd(body: string, fl: Flags, f: nat)
    requires var p := ParsePath(body, 0, f, fl);
             p.Got? ==>
               && p.next < |body|
               && (fl.generics ==>
                     !(ParsePath(body, p.next, f, fl).Got? && ParsePath(body, p.next, f, fl).next == |body|))
    ensures Demangle("_R" + body, fl, f) == None
  {
    hide ParsePath;
    hide Join;
    Unprefixed(body);
  }

  /** Nothing may follow a symbol, unless it is the crate that instantiates it. */
  lemma NothingFollows(p: Path, inst: Option<Path>, rest: string, fl: Flags, f: nat)
    requires OkPath(p, fl) && (inst.Some? ==> fl.generics && OkPath(inst.value, fl))
    requires rest != "" && (inst.None? ==> !fl.generics || !StartsPath(rest[0]))
    ensures Demangle(Symbol(p, inst) + rest, fl, f) == None
  {
    hide ParsePath;
    hide Show;
    hide OkPath;
    hide Fits;
    hide Join;
    hide Segs;
    hide StartsPath;
    var last := if inst.Some? then Show(inst.value) else "";
    var body := Show(p) + (last + rest);
    hide Demangle;
    assert Symbol(p, inst) + rest == "_R" + body;
    WholeAt(Show(p), last + rest);
    PathRoundTrip(body, 0, p, f, fl);
    if inst.Some? {
      AtSplit(body, |Show(p)|, last, rest);
      PathRoundTrip(body, |Show(p)|, inst.value, f, fl);
    } else if fl.generics {
      assert last + rest == rest && body[|Show(p)|] == rest[0];
      NoPathAt(body, |Show(p)|, f, fl);
    }
    NotTheEnd(body, fl, f);
  }

  lemma NoPathAt(s: string, i: nat, f: nat, fl: Flags)
    requires i < |s| && !StartsPath(s[i])
    ensures !ParsePath(s, i, f, fl).Got?
  {
  }

  // ------------------------------------------------------------------ which letters there are

  const BASIC_TAGS := "abcdefhijlmnopstuvxyz"

  lemma NameOfOne(s: string, i: nat)
    requires i + 2 <= |s| && s[i] == '1' && s[i + 1] == 'a'
    ensures Ident(s, i) == Some(("a", i + 2)) && Name(s, i) == Some(("a", i + 2))
  {
    hide Decimal;
    SmallDecimals();
    SkipIs(s, i, i + 1, Digit);
    assert s[i..i + 1] == "1" && s[i + 1..i + 2] == "a";
  }

  /** Does a path in the crate a, with arguments from 4 on, take up the whole text? */
  ghost predicate WholeWithArgs(s: string, fl: Flags, f: nat)
    requires |s| > 4 && f >= 1
  {
    var args := ParseList(s, 4, f - 1, fl, true);
    args.Got? &&
    (args.next == |s| || (ParsePath(s, args.next, f, fl).Got? && ParsePath(s, args.next, f, fl).next == |s|))
  }

  lemma ArgsOfCrateA(args: string, fl: Flags, f: nat)
    requires fl.generics && f >= 2 && args != ""
    ensures Demangle("_R" + ("IC1a" + args), fl, f) == if WholeWithArgs("IC1a" + args, fl, f) then Some("a") else None
  {
    hide Name;
    hide ParseList;
    var s := "IC1a" + args;
    Unprefixed(s);
    NameOfOne(s, 2);
    assert s[1] == 'C' && s[0] == 'I';
    assert ParsePath(s, 1, f - 1, fl) == Got(["a"], 4);
  }

  /** No part of a name starts with an E. */
  lemma NothingAtE(s: string, i: nat, f: nat, fl: Flags)
    requires i < |s| && s[i] == 'E'
    ensures !ParsePath(s, i, f, fl).Got? && !ParseType(s, i, f, fl).Got? && !ParseConst(s, i, f, fl).Got?
    ensures Name(s, i) == None && (i + 1 == |s| ==> Base62(s, i) == None)
  {
    if i + 1 == |s| {
      SkipIs(s, i, |s|, Alnum);
    }
  }

  lemma NoPathOfOne(s: string, i: nat, f: nat, fl: Flags)
    requires i + 2 == |s| && s[i + 1] == 'E'
    ensures !ParsePath(s, i, f, fl).Got?
  {
    hide Name;
    hide Base62;
    if f >= 1 {
      NothingAtE(s, i + 1, f - 1, fl);
    }
  }

  lemma NoListAtEnd(s: string, f: nat, fl: Flags, args: bool)
    ensures ParseList(s, |s|, f, fl, args) == Bail
  {
  }

  lemma ListStep(s: string, i: nat, f: nat, fl: Flags)
    requires i < |s| && s[i] != 'E'
    ensures var item := ParseItem(s, i, f, fl, true);
            ParseList(s, i, f, fl, true) == if item.Got? then ParseList(s, item.next, f, fl, true) else item
  {
  }

  lemma LastLetter(s: string, i: nat, f: nat, fl: Flags)
    requires i + 2 == |s| && s[i] != 'E' && s[i + 1] == 'E' && f >= 1
    ensures ParseType(s, i, f, fl).Got? <==> IsBasic(s[i]) || s[i] == 'T'
    ensures ParseType(s, i, f, fl).Got? ==> ParseType(s, i, f, fl).next == if IsBasic(s[i]) then i + 1 else |s|
  {
    hide Name;
    hide Base62;
    hide ParsePath;
    hide ParseConst;
    NothingAtE(s, i + 1, f - 1, fl);
    NoPathOfOne(s, i, f - 1, fl);
  }

  /** One generic argument of one letter: the basic types are these. */
  lemma BasicTags(c: char, fl: Flags, f: nat)
    requires fl.generics && f >= 2
    ensures Demangle("_R" + ("IC1a" + [c, 'E']), fl, f) == if c in BASIC_TAGS then Some("a") else None
  {
    hide Demangle;
    hide ParsePath;
    hide ParseType;
    hide ParseConst;
    hide Base62;
    var s := "IC1a" + [c, 'E'];
    ArgsOfCrateA([c, 'E'], fl, f);
    assert s[4] == c && s[5] == 'E' && |s| == 6;
    NothingAtE(s, 5, f, fl);
    NothingAtE(s, 5, f - 1, fl);
    Letters(c);
    var args := ParseList(s, 4, f - 1, fl, true);
    if c == 'E' {
      assert args == Got((), 5);
    } else {
      LastLetter(s, 4, f - 1, fl);
      NoListAtEnd(s, f - 1, fl, true);
      ListStep(s, 4, f - 1, fl);
      assert ParseList(s, 5, f - 1, fl, true) == Got((), 6);
    }
  }

  lemma Letters(c: char)
    ensures IsBasic(c) <==> c in BASIC_TAGS
  {
  }

  const PREFIX_TAGS := "SPORQ"

  /** No path, no constant and no number starts with a u that an E follows. */
  lemma NothingAtU(s: string, i: nat, f: nat, fl: Flags)
    requires i + 2 == |s| && s[i] == 'u' && s[i + 1] == 'E'
    ensures !ParsePath(s, i, f, fl).Got? && !ParseConst(s, i, f, fl).Got?
    ensures Name(s, i) == None && Base62(s, i) == None
  {
    SkipIs(s, i, |s|, Alnum);
    SkipIs(s, i + 1, i + 1, Hex);
    assert f >= 2 ==> ParseType(s, i, f - 1, fl) == Got((), i + 1);
  }

  lemma NoPathBeforeU(s: string, i: nat, f: nat, fl: Flags)
    requires i + 3 == |s| && s[i + 1] == 'u' && s[i + 2] == 'E'
    ensures !ParsePath(s, i, f, fl).Got?
  {
    hide Name;
    hide Base62;
    if f >= 1 {
      NothingAtU(s, i + 1, f - 1, fl);
    }
  }

  lemma LetterBeforeU(s: string, i: nat, f: nat, fl: Flags)
    requires i + 3 == |s| && s[i] != 'E' && s[i + 1] == 'u' && s[i + 2] == 'E' && f >= 2
    ensures var r := ParseType(s, i, f, fl);
            && (r.Got? <==> IsBasic(s[i]) || s[i] in PREFIX_TAGS || s[i] == 'T')
            && (r.Got? ==> r.next == if IsBasic(s[i]) then i + 1 else if s[i] == 'T' then |s| else i + 2)
  {
    hide Name;
    hide Base62;
    hide ParsePath;
    hide ParseConst;
    NothingAtE(s, i + 2, f - 1, fl);
    NothingAtU(s, i + 1, f - 1, fl);
    NoPathBeforeU(s, i, f - 1, fl);
    assert ParseType(s, i + 1, f - 1, fl) == Got((), i + 2);
    assert ParseList(s, i + 1, f - 1, fl, false) == Got((), i + 3);
  }

  /** One generic argument of a letter and a type, or of two types: slices, pointers and references are these. */
  lemma PrefixTags(c: char, fl: Flags, f: nat)
    requires fl.generics && f >= 3
    ensures Demangle("_R" + ("IC1a" + [c, 'u', 'E']), fl, f)
            == if c in BASIC_TAGS || c in PREFIX_TAGS then Some("a") else None
  {
    hide Demangle;
    hide ParsePath;
    hide ParseType;
    hide ParseConst;
    hide Base62;
    hide Name;
    var s := "IC1a" + [c, 'u', 'E'];
    ArgsOfCrateA([c, 'u', 'E'], fl, f);
    assert s[4] == c && s[5] == 'u' && s[6] == 'E' && |s| == 7;
    NothingAtU(s, 5, f, fl);
    NothingAtU(s, 5, f - 1, fl);
    NoListAtEnd(s, f - 1, fl, true);
    Letters(c);
    if c == 'E' {
      assert ParseList(s, 4, f - 1, fl, true) == Got((), 5);
    } else {
      LetterBeforeU(s, 4, f - 1, fl);
      ListStep(s, 4, f - 1, fl);
      ListStep(s, 5, f - 1, fl);
      assert ParseList(s, 6, f - 1, fl, true) == Got((), 7);
      TypeU(s, 5, f - 1, fl);
    }
  }

  lemma TypeU(s: string, i: nat, f: nat, fl: Flags)
    requires i < |s| && s[i] == 'u' && f >= 1
    ensures ParseType(s, i, f, fl) == Got((), i + 1)
  {
  }

  /** No list of arguments starts with an underscore. */
  lemma NoListAtBar(s: string, i: nat, f: nat, fl: Flags)
    requires i < |s| && s[i] == '_'
    ensures !ParseList(s, i, f, fl, true).Got?
  {
    hide ParsePath;
    ListStep(s, i, f, fl);
  }

  lemma ConstOfJ(s: string, i: nat, f: nat, fl: Flags)
    requires i + 4 == |s| && s[i] == 'j' && s[i + 2] == '_' && f >= 2
    ensures var c := s[i + 1];
            ParseConst(s, i, f, fl)
            == if c == '_' then Got((), i + 2) else if Is(c, Hex) || c == 'n' then Got((), i + 3) else Bail
  {
    TypeJ(s, i, f - 1, fl);
    SkipIs(s, i + 2, i + 2, Hex);
    if Is(s[i + 1], Hex) {
      SkipIs(s, i + 1, i + 2, Hex);
    } else {
      SkipIs(s, i + 1, i + 1, Hex);
    }
  }

  /** The digits a constant is written in, after its type; an n says that it is negative. */
  lemma HexDigits(c: char, fl: Flags, f: nat)
    requires fl.generics && f >= 3
    ensures Demangle("_R" + ("IC1a" + ['K', 'j', c, '_', 'E']), fl, f)
            == if c in "0123456789abcdefn" then Some("a") else None
  {
    hide Demangle;
    hide ParsePath;
    hide ParseType;
    hide ParseConst;
    var args := ['K', 'j', c, '_', 'E'];
    var s := "IC1a" + args;
    ArgsOfCrateA(args, fl, f);
    assert s[4] == 'K' && s[5] == 'j' && s[6] == c && s[7] == '_' && s[8] == 'E' && |s| == 9;
    ListStep(s, 4, f - 1, fl);
    ConstOfJ(s, 5, f - 1, fl);
    NoListAtBar(s, 7, f - 1, fl);
    assert ParseList(s, 8, f - 1, fl, true) == Got((), 9);
  }

  lemma TypeJ(s: string, i: nat, f: nat, fl: Flags)
    requires i < |s| && s[i] == 'j' && f >= 1
    ensures ParseType(s, i, f, fl) == Got((), i + 1)
  {
  }

  const DIGITS := "0123456789"
  const LOWER := "abcdefghijklmnopqrstuvwxyz"
  const UPPER := "ABCDEFGHIJKLMNOPQRSTUVWXYZ"

  lemma InDigits(c: char)
    ensures c in DIGITS <==> '0' <= c <= '9'
  {
    if '0' <= c <= '9' {
      assert DIGITS[(c - '0') as int] == c;
    }
  }

  lemma InLower(c: char)
    ensures c in LOWER <==> 'a' <= c <= 'z'
  {
    if 'a' <= c <= 'z' {
      assert LOWER[(c - 'a') as int] == c;
    }
  }

  lemma InUpper(c: char)
    ensures c in UPPER <==> 'A' <= c <= 'Z'
  {
    if 'A' <= c <= 'Z' {
      assert UPPER[(c - 'A') as int] == c;
    }
  }

  /** The digits of disambiguators, lifetimes and back references. */
  lemma AlnumDigits(c: char, fl: Flags, f: nat)
    requires f >= 1
    ensures Demangle("_R" + ("Cs" + [c, '_', '1', 'a']), fl, f)
            == if c in DIGITS || c in LOWER || c in UPPER then Some("a") else None
  {
    hide Decimal;
    hide Ident;
    var s := "Cs" + [c, '_', '1', 'a'];
    Unprefixed(s);
    assert s[0] == 'C' && s[1] == 's' && s[2] == c && s[3] == '_' && s[4] == '1' && s[5] == 'a' && |s| == 6;
    InDigits(c);
    InLower(c);
    InUpper(c);
    NameOfOne(s, 4);
    if Is(c, Alnum) {
      SkipIs(s, 2, 3, Alnum);
    } else {
      SkipIs(s, 2, 2, Alnum);
      NoIdentAtBar(s, 3);
    }
    JoinOne("a");
  }

  lemma NoIdentAtBar(s: string, i: nat)
    requires i < |s| && s[i] == '_'
    ensures Ident(s, i) == None
  {
    SkipIs(s, i, i, Digit);
  }
}