/** The demangler for Rust's v0 symbol names (RFC 2603) of nodefusion/model/symbols.py. */
module RustV0 {
  import opened Paths
  import opened Wrappers

  // ------------------------------------------------------------------ characters and numbers

  datatype Class = Digit | Alnum | Hex

  predicate Is(c: char, class_: Class) {
    match class_
    case Digit => '0' <= c <= '9'
    case Alnum => '0' <= c <= '9' || 'a' <= c <= 'z' || 'A' <= c <= 'Z'
    case Hex => '0' <= c <= '9' || 'a' <= c <= 'f'
  }

  predicate AllOf(t: string, class_: Class) {
    forall k :: 0 <= k < |t| ==> Is(t[k], class_)
  }

  predicate Run(s: string, i: nat, j: nat, class_: Class)
    requires i <= j <= |s|
  {
    forall k :: i <= k < j ==> Is(s[k], class_)
  }

  /** The first index from `i` on whose character is not of the class, or the end. */
  function Skip(s: string, i: nat, class_: Class): (j: nat)
    requires i <= |s|
    ensures i <= j <= |s| && Run(s, i, j, class_) && (j < |s| ==> !Is(s[j], class_))
    decreases |s| - i
  {
    if i < |s| && Is(s[i], class_) then Skip(s, i + 1, class_) else i
  }

  lemma {:induction false} SkipIs(s: string, i: nat, j: nat, class_: Class)
    requires i <= j <= |s| && Run(s, i, j, class_) && (j < |s| ==> !Is(s[j], class_))
    ensures Skip(s, i, class_) == j
    decreases j - i
  {
    if i < j {
      SkipIs(s, i + 1, j, class_);
    }
  }

  function Decimal(t: string): nat
    requires AllOf(t, Digit)
  {
    if t == "" then 0 else 10 * Decimal(t[..|t| - 1]) + (t[|t| - 1] - '0') as nat
  }

  function Digit62(c: char): nat
    requires Is(c, Alnum)
  {
    if '0' <= c <= '9' then (c - '0') as nat
    else if 'a' <= c <= 'z' then (c - 'a') as nat + 10
    else (c - 'A') as nat + 36
  }

  function Number62(t: string): nat
    requires AllOf(t, Alnum)
  {
    if t == "" then 0 else 62 * Number62(t[..|t| - 1]) + Digit62(t[|t| - 1])
  }

  // ------------------------------------------------------------------ the small parts of a name

  function Disambiguator(s: string, i: nat): (r: Option<nat>)
    requires i <= |s|
    ensures r.Some? ==> i <= r.value <= |s|
  {
    if i < |s| && s[i] == 's' then
      var j := Skip(s, i + 1, Alnum);
      if j < |s| && s[j] == '_' then Some(j + 1) else None
    else Some(i)
  }

  /** An identifier: its length, an optional separator, its characters. Punycode is given up on. */
  function Ident(s: string, i: nat): (r: Option<(string, nat)>)
    requires i <= |s|
    ensures r.Some? ==> i < r.value.1 <= |s|
  {
    if i < |s| && s[i] == 'u' then None
    else
      var j := Skip(s, i, Digit);
      if j == i then None
      else
        var n := Decimal(s[i..j]);
        var start := if j < |s| && s[j] == '_' then j + 1 else j;
        if start + n <= |s| then Some((s[start..start + n], start + n)) else None
  }

  function Base62(s: string, i: nat): (r: Option<(nat, nat)>)
    requires i <= |s|
    ensures r.Some? ==> i < r.value.1 <= |s|
  {
    var j := Skip(s, i, Alnum);
    if j < |s| && s[j] == '_' then Some((if j == i then 0 else Number62(s[i..j]) + 1, j + 1)) else None
  }

  function Lifetime(s: string, i: nat): (r: Option<nat>)
    requires i <= |s|
    ensures r.Some? ==> i <= r.value <= |s|
  {
    if i < |s| && s[i] == 'L' then
      match Base62(s, i + 1)
      case Some((_, j)) => Some(j)
      case None => None
    else Some(i)
  }

  function Name(s: string, i: nat): (r: Option<(string, nat)>)
    requires i <= |s|
    ensures r.Some? ==> i < r.value.1 <= |s|
  {
    match Disambiguator(s, i)
    case Some(j) => Ident(s, j)
    case None => None
  }

  method ReadIdent(s: string, i: nat) returns (r: Option<(string, nat)>)
    requires i <= |s|
    ensures r == Ident(s, i)
  {
    if i < |s| && s[i] == 'u' {
      return None;
    }
    var j: nat := i;
    while j < |s| && Is(s[j], Digit)
      invariant i <= j <= |s| && Run(s, i, j, Digit)
    {
      j := j + 1;
    }
    SkipIs(s, i, j, Digit);
    if j == i {
      return None;
    }
    var n: nat := Decimal(s[i..j]);
    if j < |s| && s[j] == '_' {
      j := j + 1;
    }
    if j + n > |s| {
      return None;
    }
    var next: nat := j + n;
    r := Some((s[j..next], next));
  }

  method ReadBase62(s: string, i: nat) returns (r: Option<(nat, nat)>)
    requires i <= |s|
    ensures r == Base62(s, i)
  {
    var j: nat := i;
    while j < |s| && Is(s[j], Alnum)
      invariant i <= j <= |s| && Run(s, i, j, Alnum)
    {
      j := j + 1;
    }
    SkipIs(s, i, j, Alnum);
    if j >= |s| || s[j] != '_' {
      return None;
    }
    var digits := s[i..j];
    if digits == "" {
      return Some((0, j + 1));
    }
    var v: nat := 0;
    for k := 0 to |digits|
      invariant v == Number62(digits[..k])
    {
      var ch := digits[k];
      assert digits[..k + 1][..k] == digits[..k];
      v := v * 62 + Digit62(ch);
    }
    assert digits[..|digits|] == digits;
    var next: nat := j + 1;
    r := Some((v + 1, next));
  }

  // ------------------------------------------------------------------ the recursive parser

  datatype Flags = Flags(impls: bool, generics: bool)

  /** Bail is the parser giving up, Deep the interpreter running out of stack. */
  datatype Parse<T> = Got(value: T, next: nat) | Bail | Deep

  function Fail<T, U>(r: Parse<T>): Parse<U>
    requires !r.Got?
  {
    if r.Bail? then Bail else Deep
  }

  /** The tags of the basic types: the lower-case letters but g, k, q, r and w. */
  predicate IsBasic(c: char) {
    'a' <= c <= 'z' && c != 'g' && c != 'k' && c != 'q' && c != 'r' && c != 'w'
  }

  /** The tags a type hands on to the path parser, Y among them, which that gives up on. */
  predicate StartsPath(c: char) {
    c == 'C' || c == 'N' || c == 'M' || c == 'X' || c == 'Y' || c == 'I' || c == 'B'
  }

  /** Slices and raw pointers. */
  predicate StartsWrap(c: char) {
    c == 'S' || c == 'P' || c == 'O'
  }

  predicate StartsRef(c: char) {
    c == 'R' || c == 'Q'
  }

  /** Reads a path: its segments, and where it ends. `fuel` is how many more calls the stack has room for. */
  function ParsePath(s: string, i: nat, fuel: nat, fl: Flags): (r: Parse<seq<string>>)
    requires i <= |s|
    ensures r.Got? ==> i < r.next <= |s|
    decreases fuel, 0, 0
  {
    if fuel == 0 then Deep
    else if i == |s| then Bail
    else if s[i] == 'C' then
      match Name(s, i + 1)
      case Some((name, j)) => Got([name], j)
      case None => Bail
    else if s[i] == 'N' then
      if i + 1 < |s| && (s[i + 1] == 't' || s[i + 1] == 'v') then
        var p := ParsePath(s, i + 2, fuel - 1, fl);
        if p.Got? then
          match Name(s, p.next)
          case Some((name, j)) => Got(p.value + [name], j)
          case None => Bail
        else p
      else Bail
    else if s[i] == 'B' && (fl.impls || fl.generics) then
      match Base62(s, i + 1)
      case Some((val, j)) =>
        if val >= i then Bail
        else
          var p := ParsePath(s, val, fuel - 1, fl);
          if p.Got? then Got(p.value, j) else p
      case None => Bail
    else if (s[i] == 'M' && fl.impls) || (s[i] == 'X' && fl.generics) then
      match Disambiguator(s, i + 1)
      case Some(j) => ParseImpl(s, j, fuel - 1, fl, s[i] == 'X')
      case None => Bail
    else if s[i] == 'I' && fl.generics then
      var p := ParsePath(s, i + 1, fuel - 1, fl);
      if p.Got? then
        var args := ParseList(s, p.next, fuel - 1, fl, true);
        if args.Got? then Got(p.value, args.next) else Fail(args)
      else p
    else Bail
  }

  /** Reads the rest of a path through an implementation: where it stands, the type, and of which trait.
      The segments are those of the type, which has to be a path. */
  function ParseImpl(s: string, i: nat, fuel: nat, fl: Flags, ofTrait: bool): (r: Parse<seq<string>>)
    requires i <= |s|
    ensures r.Got? ==> i < r.next <= |s|
    decreases fuel, 1, 0
  {
    var place := ParsePath(s, i, fuel, fl);
    if place.Got? then
      var self := ParsePath(s, place.next, fuel, fl);
      if self.Got? && ofTrait then
        var tr := ParsePath(s, self.next, fuel, fl);
        if tr.Got? then Got(self.value, tr.next) else tr
      else self
    else place
  }

  /** Reads what stands up to an E: generic arguments, or the types of a tuple. */
  function ParseList(s: string, i: nat, fuel: nat, fl: Flags, args: bool): (r: Parse<()>)
    requires i <= |s|
    ensures r.Got? ==> i < r.next <= |s|
    decreases fuel, 1, |s| - i
  {
    if i == |s| then Bail
    else if s[i] == 'E' then Got((), i + 1)
    else
      var item := ParseItem(s, i, fuel, fl, args);
      if item.Got? then ParseList(s, item.next, fuel, fl, args) else item
  }

  function ParseItem(s: string, i: nat, fuel: nat, fl: Flags, args: bool): (r: Parse<()>)
    requires i < |s|
    ensures r.Got? ==> i < r.next <= |s|
    decreases fuel, 1, 0
  {
    if args && s[i] == 'K' then ParseConst(s, i + 1, fuel, fl)
    else if args && s[i] == 'L' then
      match Base62(s, i + 1)
      case Some((_, j)) => Got((), j)
      case None => Bail
    else ParseType(s, i, fuel, fl)
  }

  function ParseType(s: string, i: nat, fuel: nat, fl: Flags): (r: Parse<()>)
    requires i <= |s|
    ensures r.Got? ==> i < r.next <= |s|
    decreases fuel, 0, 0
  {
    if fuel == 0 then Deep
    else if i == |s| then Bail
    else if IsBasic(s[i]) then Got((), i + 1)
    else if StartsPath(s[i]) then
      var p := ParsePath(s, i, fuel - 1, fl);
      if p.Got? then Got((), p.next) else Fail(p)
    else if s[i] == 'A' then
      var t := ParseType(s, i + 1, fuel - 1, fl);
      if t.Got? then ParseConst(s, t.next, fuel - 1, fl) else t
    else if StartsWrap(s[i]) then ParseType(s, i + 1, fuel - 1, fl)
    else if StartsRef(s[i]) then
      match Lifetime(s, i + 1)
      case Some(j) => ParseType(s, j, fuel - 1, fl)
      case None => Bail
    else if s[i] == 'T' then ParseList(s, i + 1, fuel - 1, fl, false)
    else Bail
  }

  /** A back reference to a constant is passed over unread. */
  function ParseConst(s: string, i: nat, fuel: nat, fl: Flags): (r: Parse<()>)
    requires i <= |s|
    ensures r.Got? ==> i < r.next <= |s|
    decreases fuel, 0, 0
  {
    if fuel == 0 then Deep
    else if i == |s| then Bail
    else if s[i] == 'B' then
      match Base62(s, i + 1)
      case Some((val, j)) => if val >= i then Bail else Got((), j)
      case None => Bail
    else if s[i] == 'p' then Got((), i + 1)
    else
      var t := ParseType(s, i, fuel - 1, fl);
      if t.Got? then
        var k := if t.next < |s| && s[t.next] == 'n' then t.next + 1 else t.next;
        var j := Skip(s, k, Hex);
        if j < |s| && s[j] == '_' then Got((), j + 1) else Bail
      else t
  }

  /** The demangled name, or nothing, of a symbol without compiler suffix. */
  function Demangle(sym: string, fl: Flags, fuel: nat): Option<string> {
    if !("_R" <= sym) then None
    else
      var body := sym[2..];
      if body != "" && Is(body[0], Digit) then None
      else
        var p := ParsePath(body, 0, fuel, fl);
        if !p.Got? then None
        else if fl.generics && p.next < |body| then
          var inst := ParsePath(body, p.next, fuel, fl);
          if inst.Got? && inst.next == |body| && p.value != [] then Some(Join(p.value)) else None
        else if p.next == |body| && p.value != [] then Some(Join(p.value)) else None
  }

  /** The loops over generic arguments and tuple types, which _v0_path and _v0_type hold inside. */
  method ReadList(s: string, i: nat, fuel: nat, fl: Flags, args: bool) returns (r: Parse<()>)
    requires i <= |s|
    ensures r == ParseList(s, i, fuel, fl, args)
  {
    var j: nat := i;
    while j < |s| && s[j] != 'E'
      invariant i <= j <= |s|
      invariant ParseList(s, j, fuel, fl, args) == ParseList(s, i, fuel, fl, args)
    {
      var item := ParseItem(s, j, fuel, fl, args);
      if !item.Got? {
        return item;
      }
      j := item.next;
    }
    r := if j >= |s| then Bail else Got((), j + 1);
  }

  // ------------------------------------------------------------------ more stack changes nothing

  /** Unless the stack was exhausted, more of it gives the same result. */
  lemma {:induction false} PathStable(s: string, i: nat, f: nat, g: nat, fl: Flags)
    requires i <= |s| && f <= g && !ParsePath(s, i, f, fl).Deep?
    ensures ParsePath(s, i, g, fl) == ParsePath(s, i, f, fl)
    decreases f, 0, 0
  {
    hide Name;
    hide Base62;
    hide Disambiguator;
    if i < |s| {
      if s[i] == 'N' {
        if i + 1 < |s| && (s[i + 1] == 't' || s[i + 1] == 'v') {
          PathStable(s, i + 2, f - 1, g - 1, fl);
        }
      } else if s[i] == 'B' {
        if (fl.impls || fl.generics) && Base62(s, i + 1).Some? && Base62(s, i + 1).value.0 < i {
          PathStable(s, Base62(s, i + 1).value.0, f - 1, g - 1, fl);
        }
      } else if (s[i] == 'M' && fl.impls) || (s[i] == 'X' && fl.generics) {
        if Disambiguator(s, i + 1).Some? {
          ImplStable(s, Disambiguator(s, i + 1).value, f - 1, g - 1, fl, s[i] == 'X');
        }
      } else if s[i] == 'I' && fl.generics {
        var p := ParsePath(s, i + 1, f - 1, fl);
        PathStable(s, i + 1, f - 1, g - 1, fl);
        if p.Got? {
          ListStable(s, p.next, f - 1, g - 1, fl, true);
        }
      }
    }
  }

  lemma {:induction false} ImplStable(s: string, i: nat, f: nat, g: nat, fl: Flags, ofTrait: bool)
    requires i <= |s| && f <= g && !ParseImpl(s, i, f, fl, ofTrait).Deep?
    ensures ParseImpl(s, i, g, fl, ofTrait) == ParseImpl(s, i, f, fl, ofTrait)
    decreases f, 1, 0
  {
    hide ParsePath;
    var place := ParsePath(s, i, f, fl);
    PathStable(s, i, f, g, fl);
    if place.Got? {
      var self := ParsePath(s, place.next, f, fl);
      PathStable(s, place.next, f, g, fl);
      if self.Got? && ofTrait {
        PathStable(s, self.next, f, g, fl);
      }
    }
  }

  lemma {:induction false} ListStable(s: string, i: nat, f: nat, g: nat, fl: Flags, args: bool)
    requires i <= |s| && f <= g && !ParseList(s, i, f, fl, args).Deep?
    ensures ParseList(s, i, g, fl, args) == ParseList(s, i, f, fl, args)
    decreases f, 1, |s| - i
  {
    if i < |s| && s[i] != 'E' {
      if args && s[i] == 'K' {
        ConstStable(s, i + 1, f, g, fl);
      } else if !(args && s[i] == 'L') {
        TypeStable(s, i, f, g, fl);
      }
      var item := ParseItem(s, i, f, fl, args);
      if item.Got? {
        ListStable(s, item.next, f, g, fl, args);
      }
    }
  }

  lemma {:induction false} TypeStable(s: string, i: nat, f: nat, g: nat, fl: Flags)
    requires i <= |s| && f <= g && !ParseType(s, i, f, fl).Deep?
    ensures ParseType(s, i, g, fl) == ParseType(s, i, f, fl)
    decreases f, 0, 0
  {
    hide Base62;
    if i < |s| && !IsBasic(s[i]) {
      if StartsPath(s[i]) {
        PathStable(s, i, f - 1, g - 1, fl);
      } else if s[i] == 'A' {
        var t := ParseType(s, i + 1, f - 1, fl);
        TypeStable(s, i + 1, f - 1, g - 1, fl);
        if t.Got? {
          ConstStable(s, t.next, f - 1, g - 1, fl);
        }
      } else if StartsWrap(s[i]) {
        TypeStable(s, i + 1, f - 1, g - 1, fl);
      } else if StartsRef(s[i]) && Lifetime(s, i + 1).Some? {
        TypeStable(s, Lifetime(s, i + 1).value, f - 1, g - 1, fl);
      } else if s[i] == 'T' {
        ListStable(s, i + 1, f - 1, g - 1, fl, false);
      }
    }
  }

  lemma {:induction false} ConstStable(s: string, i: nat, f: nat, g: nat, fl: Flags)
    requires i <= |s| && f <= g && !ParseConst(s, i, f, fl).Deep?
    ensures ParseConst(s, i, g, fl) == ParseConst(s, i, f, fl)
    decreases f, 0, 0
  {
    hide Base62;
    if i < |s| && s[i] != 'B' && s[i] != 'p' {
      TypeStable(s, i, f - 1, g - 1, fl);
    }
  }

  /** A name that demangles does so the same with more stack. */
  lemma DemangleStable(sym: string, fl: Flags, f: nat, g: nat)
    requires f <= g && Demangle(sym, fl, f).Some?
    ensures Demangle(sym, fl, g) == Demangle(sym, fl, f)
  {
    hide ParsePath;
    var body := sym[2..];
    PathStable(body, 0, f, g, fl);
    var p := ParsePath(body, 0, f, fl);
    if fl.generics && p.next < |body| {
      PathStable(body, p.next, f, g, fl);
    }
  }

  // ------------------------------------------------------------------ back references into what is being read

  /** Is a path at `j` read in the course of reading the path at `i`, within `f` nested calls? Whether
      the reading ever comes to an end does not matter. */
  ghost predicate PathReads(s: string, i: nat, j: nat, f: nat, fl: Flags)
    requires i <= |s|
    decreases f, 0, 0
  {
    f > 0 && i < |s| &&
    if s[i] == 'N' then
      i + 1 < |s| && (s[i + 1] == 't' || s[i + 1] == 'v') && Below(s, i + 2, j, f, fl)
    else if s[i] == 'B' && (fl.impls || fl.generics) then
      var back := Base62(s, i + 1);
      back.Some? && back.value.0 < i && Below(s, back.value.0, j, f, fl)
    else if (s[i] == 'M' && fl.impls) || (s[i] == 'X' && fl.generics) then
      Disambiguator(s, i + 1).Some? && ImplReads(s, Disambiguator(s, i + 1).value, j, f, fl, s[i] == 'X')
    else if s[i] == 'I' && fl.generics then
      Below(s, i + 1, j, f, fl) ||
      var p := ParsePath(s, i + 1, f - 1, fl);
      p.Got? && ListReads(s, p.next, j, f - 1, fl, true)
    else false
  }

  ghost predicate ImplReads(s: string, k: nat, j: nat, f: nat, fl: Flags, ofTrait: bool)
    requires k <= |s| && f > 0
    decreases f - 1, 0, 2
  {
    || Below(s, k, j, f, fl)
    || (ParsePath(s, k, f - 1, fl).Got? &&
        var self := ParsePath(s, k, f - 1, fl).next;
        || Below(s, self, j, f, fl)
        || (ofTrait && ParsePath(s, self, f - 1, fl).Got? && Below(s, ParsePath(s, self, f - 1, fl).next, j, f, fl)))
  }

  ghost predicate Below(s: string, k: nat, j: nat, f: nat, fl: Flags)
    requires k <= |s| && f > 0
    decreases f - 1, 0, 1
  {
    j == k || PathReads(s, k, j, f - 1, fl)
  }

  ghost predicate ListReads(s: string, i: nat, j: nat, f: nat, fl: Flags, args: bool)
    requires i <= |s|
    decreases f, 1, |s| - i
  {
    i < |s| && s[i] != 'E' &&
    ((if args && s[i] == 'K' then ConstReads(s, i + 1, j, f, fl)
      else !(args && s[i] == 'L') && TypeReads(s, i, j, f, fl)) ||
     var item := ParseItem(s, i, f, fl, args);
     item.Got? && ListReads(s, item.next, j, f, fl, args))
  }

  ghost predicate TypeReads(s: string, i: nat, j: nat, f: nat, fl: Flags)
    requires i <= |s|
    decreases f, 0, 0
  {
    f > 0 && i < |s| && !IsBasic(s[i]) &&
    if StartsPath(s[i]) then Below(s, i, j, f, fl)
    else if s[i] == 'A' then
      TypeReads(s, i + 1, j, f - 1, fl) ||
      var t := ParseType(s, i + 1, f - 1, fl);
      t.Got? && ConstReads(s, t.next, j, f - 1, fl)
    else if StartsWrap(s[i]) then TypeReads(s, i + 1, j, f - 1, fl)
    else if StartsRef(s[i]) then
      var k := Lifetime(s, i + 1);
      k.Some? && TypeReads(s, k.value, j, f - 1, fl)
    else s[i] == 'T' && ListReads(s, i + 1, j, f - 1, fl, false)
  }

  ghost predicate ConstReads(s: string, i: nat, j: nat, f: nat, fl: Flags)
    requires i <= |s|
    decreases f, 0, 0
  {
    f > 0 && i < |s| && s[i] != 'B' && s[i] != 'p' && TypeReads(s, i, j, f - 1, fl)
  }

  /** A success, or at least no exhausted stack. */
  ghost predicate Fine<T>(r: Parse<T>, got: bool) {
    if got then r.Got? else !r.Deep?
  }

  ghost predicate PathFine(s: string, j: nat, f: int, fl: Flags, got: bool) {
    f >= 0 && j <= |s| && Fine(ParsePath(s, j, f, fl), got)
  }

  lemma BelowSucceeds(s: string, k: nat, j: nat, g: nat, f: nat, fl: Flags, got: bool)
    requires k <= |s| && g > 0 && f > 0 && Below(s, k, j, g, fl) && Fine(ParsePath(s, k, f - 1, fl), got)
    ensures PathFine(s, j, f - 1, fl, got)
    decreases g - 1, 0, 1
  {
    hide ParsePath;
    hide PathReads;
    if j != k {
      ReadSucceeds(s, k, j, g - 1, f - 1, fl, got);
      PathStable(s, j, f - 2, f - 1, fl);
    }
  }

  lemma SamePath(s: string, i: nat, f: nat, g: nat, fl: Flags)
    requires i <= |s| && !ParsePath(s, i, f, fl).Deep? && !ParsePath(s, i, g, fl).Deep?
    ensures ParsePath(s, i, f, fl) == ParsePath(s, i, g, fl)
  {
    if f <= g {
      PathStable(s, i, f, g, fl);
    } else {
      PathStable(s, i, g, f, fl);
    }
  }

  /** A path that is read successfully, or at least without exhausting the stack, has had every path below it
      read just so, with less stack. */
  lemma {:induction false} ReadSucceeds(s: string, i: nat, j: nat, g: nat, f: nat, fl: Flags, got: bool)
    requires i <= |s| && PathReads(s, i, j, g, fl) && Fine(ParsePath(s, i, f, fl), got)
    ensures f > 0 && PathFine(s, j, f - 1, fl, got)
    decreases g, 0, 0
  {
    hide Name;
    hide Base62;
    hide Disambiguator;
    hide Below;
    hide PathFine;
    if s[i] == 'N' {
      BelowSucceeds(s, i + 2, j, g, f, fl, got);
    } else if s[i] == 'B' {
      BelowSucceeds(s, Base62(s, i + 1).value.0, j, g, f, fl, got);
    } else if s[i] == 'I' {
      if Below(s, i + 1, j, g, fl) {
        BelowSucceeds(s, i + 1, j, g, f, fl, got);
      } else {
        SamePath(s, i + 1, f - 1, g - 1, fl);
        ListSucceeds(s, ParsePath(s, i + 1, g - 1, fl).next, j, g - 1, f - 1, fl, true, got);
        LessStack(s, j, f - 2, fl, got);
      }
    } else {
      ImplSucceeds(s, Disambiguator(s, i + 1).value, j, g, f, fl, s[i] == 'X', got);
    }
  }

  lemma {:induction false} ImplSucceeds(s: string, k: nat, j: nat, g: nat, f: nat, fl: Flags, ofTrait: bool, got: bool)
    requires k <= |s| && g > 0 && f > 0 && ImplReads(s, k, j, g, fl, ofTrait)
             && Fine(ParseImpl(s, k, f - 1, fl, ofTrait), got)
    ensures PathFine(s, j, f - 1, fl, got)
    decreases g - 1, 0, 2
  {
    hide ParsePath;
    hide Below;
    hide PathFine;
    if Below(s, k, j, g, fl) {
      BelowSucceeds(s, k, j, g, f, fl, got);
    } else {
      SamePath(s, k, f - 1, g - 1, fl);
      var self := ParsePath(s, k, g - 1, fl).next;
      if Below(s, self, j, g, fl) {
        BelowSucceeds(s, self, j, g, f, fl, got);
      } else {
        SamePath(s, self, f - 1, g - 1, fl);
        BelowSucceeds(s, ParsePath(s, self, g - 1, fl).next, j, g, f, fl, got);
      }
    }
  }

  lemma LessStack(s: string, j: nat, f: int, fl: Flags, got: bool)
    requires PathFine(s, j, f, fl, got)
    ensures PathFine(s, j, f + 1, fl, got)
  {
    hide ParsePath;
    PathStable(s, j, f, f + 1, fl);
  }

  lemma {:induction false} ListSucceeds(s: string, i: nat, j: nat, g: nat, f: nat, fl: Flags, args: bool, got: bool)
    requires i <= |s| && ListReads(s, i, j, g, fl, args) && Fine(ParseList(s, i, f, fl, args), got)
    ensures PathFine(s, j, f - 1, fl, got)
    decreases g, 1, |s| - i
  {
    hide Base62;
    hide PathFine;
    if args && s[i] == 'K' {
      if ConstReads(s, i + 1, j, g, fl) {
        ConstSucceeds(s, i + 1, j, g, f, fl, got);
        return;
      }
      SameConst(s, i + 1, f, g, fl);
    } else if !(args && s[i] == 'L') {
      if TypeReads(s, i, j, g, fl) {
        TypeSucceeds(s, i, j, g, f, fl, got);
        return;
      }
      SameType(s, i, f, g, fl);
    }
    hide TypeReads;
    hide ConstReads;
    hide ParseType;
    hide ParseConst;
    ListSucceeds(s, ParseItem(s, i, g, fl, args).next, j, g, f, fl, args, got);
  }

  lemma SameType(s: string, i: nat, f: nat, g: nat, fl: Flags)
    requires i <= |s|
    ensures !ParseType(s, i, f, fl).Deep? && !ParseType(s, i, g, fl).Deep? ==>
              ParseType(s, i, f, fl) == ParseType(s, i, g, fl)
  {
    if !ParseType(s, i, f, fl).Deep? && !ParseType(s, i, g, fl).Deep? {
      if f <= g {
        TypeStable(s, i, f, g, fl);
      } else {
        TypeStable(s, i, g, f, fl);
      }
    }
  }

  lemma SameConst(s: string, i: nat, f: nat, g: nat, fl: Flags)
    requires i <= |s|
    ensures !ParseConst(s, i, f, fl).Deep? && !ParseConst(s, i, g, fl).Deep? ==>
              ParseConst(s, i, f, fl) == ParseConst(s, i, g, fl)
  {
    if !ParseConst(s, i, f, fl).Deep? && !ParseConst(s, i, g, fl).Deep? {
      if f <= g {
        ConstStable(s, i, f, g, fl);
      } else {
        ConstStable(s, i, g, f, fl);
      }
    }
  }

  lemma {:induction false} TypeSucceeds(s: string, i: nat, j: nat, g: nat, f: nat, fl: Flags, got: bool)
    requires i <= |s| && TypeReads(s, i, j, g, fl) && Fine(ParseType(s, i, f, fl), got)
    ensures PathFine(s, j, f - 1, fl, got)
    decreases g, 0, 0
  {
    hide Base62;
    hide Below;
    hide PathFine;
    hide ParsePath;
    hide ParseConst;
    hide ParseList;
    hide ConstReads;
    hide ListReads;
    if StartsPath(s[i]) {
      BelowSucceeds(s, i, j, g, f, fl, got);
    } else if s[i] == 'A' {
      ArraySucceeds(s, i + 1, j, g - 1, f - 1, fl, got);
      LessStack(s, j, f - 2, fl, got);
    } else if s[i] == 'T' {
      ListSucceeds(s, i + 1, j, g - 1, f - 1, fl, false, got);
      LessStack(s, j, f - 2, fl, got);
    } else {
      TypeSucceeds(s, if StartsWrap(s[i]) then i + 1 else Lifetime(s, i + 1).value, j, g - 1, f - 1, fl, got);
      LessStack(s, j, f - 2, fl, got);
    }
  }

  lemma {:induction false} ArraySucceeds(s: string, i: nat, j: nat, g: nat, f: nat, fl: Flags, got: bool)
    requires i <= |s| && Fine(ParseType(s, i, f, fl), got)
    requires ParseType(s, i, f, fl).Got? ==> Fine(ParseConst(s, ParseType(s, i, f, fl).next, f, fl), got)
    requires TypeReads(s, i, j, g, fl) ||
             (ParseType(s, i, g, fl).Got? && ConstReads(s, ParseType(s, i, g, fl).next, j, g, fl))
    ensures PathFine(s, j, f - 1, fl, got)
    decreases g, 0, 1
  {
    hide PathFine;
    hide ParseType;
    hide ParseConst;
    hide TypeReads;
    hide ConstReads;
    if TypeReads(s, i, j, g, fl) {
      TypeSucceeds(s, i, j, g, f, fl, got);
    } else {
      SameType(s, i, f, g, fl);
      ConstSucceeds(s, ParseType(s, i, g, fl).next, j, g, f, fl, got);
    }
  }

  lemma {:induction false} ConstSucceeds(s: string, i: nat, j: nat, g: nat, f: nat, fl: Flags, got: bool)
    requires i <= |s| && ConstReads(s, i, j, g, fl) && Fine(ParseConst(s, i, f, fl), got)
    ensures PathFine(s, j, f - 1, fl, got)
    decreases g, 0, 0
  {
    hide PathFine;
    TypeSucceeds(s, i, j, g - 1, f - 1, fl, got);
    LessStack(s, j, f - 2, fl, got);
  }

  /** A path that is read again while it is being read is never read to the end, however large the stack. */
  lemma {:induction false} NeverInsideItself(s: string, i: nat, g: nat, f: nat, fl: Flags)
    requires i <= |s| && PathReads(s, i, i, g, fl)
    ensures !ParsePath(s, i, f, fl).Got?
  {
    hide ParsePath;
    hide PathReads;
    if ParsePath(s, i, f, fl).Got? {
      ReadSucceeds(s, i, i, g, f, fl, true);
      NeverInsideItself(s, i, g, f - 1, fl);
    }
  }

  /** A back reference to a path that encloses it: the path at `i` has a path at `j` read, which refers
      back to `i`. No stack is large enough for it, although `i` lies before `j`. */
  lemma {:induction false} SelfEnclosing(s: string, i: nat, j: nat, g: nat, f: nat, fl: Flags)
    requires i < j < |s| && PathReads(s, i, j, g, fl)
    requires s[j] == 'B' && (fl.impls || fl.generics)
    requires Base62(s, j + 1).Some? && Base62(s, j + 1).value.0 == i
    ensures !ParsePath(s, i, f, fl).Got?
  {
    hide Base62;
    if ParsePath(s, i, f, fl).Got? {
      ReadSucceeds(s, i, j, g, f, fl, true);
      assert ParsePath(s, i, f - 2, fl).Got?;
      SelfEnclosing(s, i, j, g, f - 2, fl);
    }
  }

  const AROUND := "NvB_1a"

  /** Such a symbol, of six characters: the outer path's prefix refers back to the outer path. */
  lemma {:induction false} AroundExhausts(f: nat, fl: Flags)
    requires fl.impls || fl.generics
    ensures ParsePath(AROUND, 0, f, fl) == Deep
  {
    AroundRefersBack();
    if f >= 2 {
      AroundExhausts(f - 2, fl);
      assert ParsePath(AROUND, 2, f - 1, fl) == Deep;
    }
  }

  lemma AroundRefersBack()
    ensures Base62(AROUND, 3) == Some((0, 4))
  {
    SkipIs(AROUND, 3, 3, Alnum);
  }

  lemma AroundIsNoName(f: nat, fl: Flags)
    requires fl.impls || fl.generics
    ensures Demangle("_R" + AROUND, fl, f) == None && SelfEnclosed(AROUND, 0, 2, fl)
  {
    assert ("_R" + AROUND)[2..] == AROUND && "_R" <= "_R" + AROUND;
    AroundExhausts(f, fl);
    AroundRefersBack();
    assert PathReads(AROUND, 0, 2, 1, fl);
  }

  /** What SelfEnclosing is about. */
  ghost predicate SelfEnclosed(s: string, i: nat, j: nat, fl: Flags)
    requires i < j < |s|
  {
    && s[j] == 'B' && Base62(s, j + 1).Some? && Base62(s, j + 1).value.0 == i
    && exists g: nat :: PathReads(s, i, j, g, fl)
  }
}
