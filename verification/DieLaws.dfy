/** What a unit of debugging information teaches the parser, entry by entry and in the numbers of DWARF. */
module DieLaws {
  import Leb128
  import opened DieTree
  import opened LittleEndian
  import opened Paths
  import opened Segments
  import opened Wrappers

  // ------------------------------------------------------------------ the entries, in numbers

  /** The entry has this name, and it is not empty. */
  ghost predicate Called(die: Die, name: string) {
    die.attrs.name == Some(name) && |name| > 0
  }

  /** A class (2), structure (0x13) or union (0x17) with a name that is no mere declaration. */
  ghost predicate SaysStruct(die: Die, name: string) {
    die.tag in {0x02, 0x13, 0x17} && Called(die, name) && !die.attrs.declaration
  }

  /** Where a member lies: a constant, or the operator 0x23 with a number of up to nineteen bytes. */
  ghost predicate LiesAt(location: Location, offset: int) {
    match location
    case Absent => false
    case Constant(c) => offset == c
    case Block(bytes) => exists n: nat :: CodedIn(bytes, n, offset)
  }

  ghost predicate CodedIn(bytes: seq<byte>, n: nat, offset: int) {
    && 1 <= n <= 19 && n + 1 <= |bytes| && bytes[0] == 0x23
    && bytes[n] < 128 && (forall i :: 1 <= i < n ==> bytes[i] >= 128)
    && offset == Leb128.Unsigned(bytes[1..n + 1])
  }

  ghost predicate SaysMember(die: Die, name: string, offset: int) {
    die.tag == 0x0D && Called(die, name) && LiesAt(die.attrs.location, offset)
  }

  ghost predicate SaysEnumerator(die: Die, name: string, value: int) {
    die.tag == 0x28 && Called(die, name) && die.attrs.constValue == Some(value)
  }

  /** A subrange with a count, or else an upper bound that the indices go up to. */
  ghost predicate SaysLength(die: Die, n: int) {
    die.tag == 0x21 && if die.attrs.count.Some? then n == die.attrs.count.value else die.attrs.upper == Some(n - 1)
  }

  /** The path of a name inside these namespaces. */
  ghost predicate IsPath(names: seq<string>, name: string, path: string) {
    path == if names == [] then name else Join(names) + "::" + name
  }

  lemma PathIs(die: Die, ns: seq<string>)
    requires Named(die)
    ensures IsPath(ns, die.attrs.name.value, PathOf(die, ns))
    ensures (forall k :: 0 <= k < |ns| ==> ':' !in ns[k]) && ':' !in die.attrs.name.value ==>
              Split(PathOf(die, ns)) == ns + [die.attrs.name.value]
  {
    hide Join;
    hide Split;
    var name := die.attrs.name.value;
    JoinOne(name);
    if ns == [] {
      assert [] + [name] == [name];
    } else {
      JoinAppend(ns, [name]);
    }
    if (forall k :: 0 <= k < |ns| ==> ':' !in ns[k]) && ':' !in name {
      SplitJoin(ns + [name]);
    }
  }

  lemma OffsetIs(location: Location, offset: int)
    ensures LiesAt(location, offset) <==> MemberOffset(location) == Some(offset)
  {
    if location.Block? {
      var bytes := location.bytes;
      if |bytes| >= 2 && bytes[0] == 0x23 {
        FrontCoded(bytes, offset);
      } else {
        NothingCoded(bytes, offset);
      }
    }
  }

  lemma NothingCoded(bytes: seq<byte>, offset: int)
    requires |bytes| < 2 || bytes[0] != 0x23
    ensures forall n: nat :: !CodedIn(bytes, n, offset)
  {
  }

  lemma FrontCoded(bytes: seq<byte>, offset: int)
    requires |bytes| >= 2 && bytes[0] == 0x23
    ensures (exists n: nat :: CodedIn(bytes, n, offset)) <==>
            var f := Leb128.Front(bytes[1..], 19);
            f.Some? && offset == Leb128.Unsigned(bytes[1..][..f.value])
  {
    hide Leb128.Front;
    hide Leb128.Unsigned;
    var b := bytes[1..];
    var f := Leb128.Front(b, 19);
    if f.Some? {
      FrontShape(b, 19);
      var n := f.value;
      assert b[..n] == bytes[1..n + 1];
      assert bytes[n] == b[n - 1] && forall i :: 1 <= i < n ==> bytes[i] == b[i - 1];
      if offset == Leb128.Unsigned(b[..n]) {
        assert CodedIn(bytes, n, offset);
      }
    }
    forall n: nat | CodedIn(bytes, n, offset)
      ensures f == Some(n) && offset == Leb128.Unsigned(b[..n])
    {
      assert b[n - 1] == bytes[n] && forall i :: 0 <= i < n - 1 ==> b[i] == bytes[i + 1];
      Leb128.FrontIs(b, 19, n);
      assert b[..n] == bytes[1..n + 1];
    }
  }

  lemma {:induction false} FrontShape(b: seq<byte>, limit: nat)
    requires Leb128.Front(b, limit).Some?
    ensures var n := Leb128.Front(b, limit).value;
            b[n - 1] < 128 && forall i :: 0 <= i < n - 1 ==> b[i] >= 128
  {
    if b[0] >= 128 {
      FrontShape(b[1..], limit - 1);
      var n := Leb128.Front(b[1..], limit - 1).value;
      assert forall i :: 0 < i < n ==> b[i] == b[1..][i - 1];
      assert b[n] == b[1..][n - 1];
    }
  }

  lemma Kinds(die: Die)
    ensures forall name :: SaysStruct(die, name) <==> IsStruct(die) && die.attrs.name == Some(name)
    ensures forall name, v :: SaysEnumerator(die, name, v) <==>
              IsEnumerator(die) && die.attrs.name == Some(name) && die.attrs.constValue == Some(v)
    ensures forall n :: SaysLength(die, n) <==> IsExtent(die) && Extent(die) == Some(n)
  {
  }

  lemma MemberKind(die: Die, name: string, offset: int)
    ensures SaysMember(die, name, offset) <==>
            IsMember(die) && die.attrs.name == Some(name) && MemberOffset(die.attrs.location) == Some(offset)
  {
    OffsetIs(die.attrs.location, offset);
    hide MemberOffset;
    hide LiesAt;
  }

  // ------------------------------------------------------------------ the layout of a struct

  /** The entries directly below one that says it has some. */
  function Own(t: Tree): seq<Tree> {
    if t.die.hasChildren then t.kids else []
  }

  ghost predicate HasField(die: Die, name: string) {
    exists offset :: SaysMember(die, name, offset)
  }

  /** The last member of this name. */
  ghost predicate LastField(ts: seq<Tree>, name: string, offset: int, k: nat) {
    && k < |ts| && SaysMember(ts[k].die, name, offset)
    && forall j :: k < j < |ts| ==> !HasField(ts[j].die, name)
  }

  ghost predicate HasType(die: Die, name: string) {
    HasField(die, name) && die.attrs.typeRef.Some?
  }

  /** The last member of this name that has a type. */
  ghost predicate LastType(ts: seq<Tree>, name: string, ty: int, k: nat) {
    && k < |ts| && HasField(ts[k].die, name) && ts[k].die.attrs.typeRef == Some(ty)
    && forall j :: k < j < |ts| ==> !HasType(ts[j].die, name)
  }

  ghost predicate Binds(m: map<string, int>, name: string, v: int) {
    name in m && m[name] == v
  }

  ghost predicate FieldsOf(ts: seq<Tree>, fields: map<string, int>) {
    forall name, v :: Binds(fields, name, v) <==> exists k: nat :: LastField(ts, name, v, k)
  }

  ghost predicate TypesOf(ts: seq<Tree>, types: map<string, int>) {
    forall name, v :: Binds(types, name, v) <==> exists k: nat :: LastType(ts, name, v, k)
  }

  /** The layout of a struct entry inside these namespaces: its name, size and path, and of its own children
      the members, the last one where a name comes twice. */
  ghost predicate IsLayout(t: Tree, names: seq<string>, l: Layout) {
    && Called(t.die, l.name) && l.size == t.die.attrs.byteSize && IsPath(names, l.name, l.path)
    && FieldsOf(Own(t), l.fields) && TypesOf(Own(t), l.fieldTypes)
  }

  lemma {:induction false} MembersSnoc(l: Layout, ts: seq<Tree>, t: Tree)
    ensures var before := Members(l, ts);
            Members(l, ts + [t]) == if IsMember(t.die) then WithMember(before, t.die) else before
    decreases |ts|
  {
    hide IsMember;
    hide WithMember;
    if ts == [] {
      assert [] + [t] == [t] && [t][1..] == [];
    } else {
      assert (ts + [t])[1..] == ts[1..] + [t];
      MembersSnoc(if IsMember(ts[0].die) then WithMember(l, ts[0].die) else l, ts[1..], t);
    }
  }

  lemma LastFieldNext(ts: seq<Tree>, t: Tree, name: string, v: int)
    ensures (exists k: nat :: LastField(ts + [t], name, v, k)) <==>
            if HasField(t.die, name) then SaysMember(t.die, name, v) else exists k: nat :: LastField(ts, name, v, k)
  {
    hide SaysMember;
    hide HasField;
    var all := ts + [t];
    assert all[|ts|] == t && forall i :: 0 <= i < |ts| ==> all[i] == ts[i];
    if HasField(t.die, name) {
      FieldHas(t.die, name, v);
      assert HasField(all[|ts|].die, name);
      assert forall k: nat :: LastField(all, name, v, k) ==> k == |ts|;
      if SaysMember(t.die, name, v) {
        assert LastField(all, name, v, |ts|);
      }
    } else {
      FieldHas(t.die, name, v);
      forall k: nat
        ensures LastField(all, name, v, k) <==> LastField(ts, name, v, k)
      {
        if LastField(all, name, v, k) {
          assert k != |ts|;
          forall j | k < j < |ts|
            ensures !HasField(ts[j].die, name)
          {
            assert all[j] == ts[j];
          }
        }
      }
    }
  }

  lemma FieldHas(die: Die, name: string, v: int)
    ensures SaysMember(die, name, v) ==> HasField(die, name)
  {
  }

  lemma LastTypeNext(ts: seq<Tree>, t: Tree, name: string, v: int)
    ensures (exists k: nat :: LastType(ts + [t], name, v, k)) <==>
            if HasType(t.die, name) then t.die.attrs.typeRef == Some(v) else exists k: nat :: LastType(ts, name, v, k)
  {
    hide HasField;
    var all := ts + [t];
    assert all[|ts|] == t && forall i :: 0 <= i < |ts| ==> all[i] == ts[i];
    if HasType(t.die, name) {
      assert HasType(all[|ts|].die, name);
      assert forall k: nat :: LastType(all, name, v, k) ==> k == |ts|;
      if t.die.attrs.typeRef == Some(v) {
        assert LastType(all, name, v, |ts|);
      }
    } else {
      forall k: nat
        ensures LastType(all, name, v, k) <==> LastType(ts, name, v, k)
      {
        if LastType(all, name, v, k) {
          assert k != |ts|;
          forall j | k < j < |ts|
            ensures !HasType(ts[j].die, name)
          {
            assert all[j] == ts[j];
          }
        }
      }
    }
  }

  lemma FieldIs(die: Die, name: string)
    ensures HasField(die, name) <==> IsMember(die) && die.attrs.name == Some(name)
    ensures forall v :: SaysMember(die, name, v) <==>
              IsMember(die) && die.attrs.name == Some(name) && MemberOffset(die.attrs.location) == Some(v)
  {
    hide SaysMember;
    hide MemberOffset;
    forall v
      ensures SaysMember(die, name, v) <==>
              IsMember(die) && die.attrs.name == Some(name) && MemberOffset(die.attrs.location) == Some(v)
    {
      MemberKind(die, name, v);
    }
    MemberHasOffset(die);
    if IsMember(die) && die.attrs.name == Some(name) {
      assert SaysMember(die, name, MemberOffset(die.attrs.location).value);
    }
  }

  lemma MemberHasOffset(die: Die)
    ensures IsMember(die) ==> MemberOffset(die.attrs.location).Some?
  {
  }

  /** What one entry more does to the fields. */
  lemma MemberBinds(l: Layout, die: Die, name: string, v: int)
    ensures var r := if IsMember(die) then WithMember(l, die) else l;
            && r.name == l.name && r.size == l.size && r.path == l.path
            && (Binds(r.fields, name, v) <==>
                  if HasField(die, name) then SaysMember(die, name, v) else Binds(l.fields, name, v))
            && (Binds(r.fieldTypes, name, v) <==>
                  if HasType(die, name) then die.attrs.typeRef == Some(v) else Binds(l.fieldTypes, name, v))
  {
    hide SaysMember;
    hide HasField;
    hide MemberOffset;
    FieldIs(die, name);
  }

  lemma {:induction false} MembersSay(l: Layout, ts: seq<Tree>)
    requires l.fields == map[] && l.fieldTypes == map[]
    ensures var r := Members(l, ts);
            && r.name == l.name && r.size == l.size && r.path == l.path
            && FieldsOf(ts, r.fields) && TypesOf(ts, r.fieldTypes)
    decreases |ts|
  {
    hide SaysMember;
    hide HasField;
    hide HasType;
    hide Binds;
    hide LastField;
    hide LastType;
    hide IsMember;
    hide WithMember;
    if ts == [] {
      NoFields();
    } else {
      var before, t := ts[..|ts| - 1], ts[|ts| - 1];
      assert ts == before + [t];
      MembersSay(l, before);
      MembersSnoc(l, before, t);
      hide Members;
      MemberBinds(Members(l, before), t.die, "", 0);
      forall name, v: int
        ensures Binds(Members(l, ts).fields, name, v) <==> exists k: nat :: LastField(ts, name, v, k)
        ensures Binds(Members(l, ts).fieldTypes, name, v) <==> exists k: nat :: LastType(ts, name, v, k)
      {
        LastFieldNext(before, t, name, v);
        LastTypeNext(before, t, name, v);
        MemberBinds(Members(l, before), t.die, name, v);
      }
    }
  }

  lemma NoFields()
    ensures FieldsOf([], map[]) && TypesOf([], map[])
  {
  }

  /** What is committed for a struct entry is its layout, and nothing else is. */
  lemma LayoutSays(t: Tree, names: seq<string>)
    requires Named(t.die)
    ensures IsLayout(t, names, LayoutOf(t, names))
    ensures forall l :: IsLayout(t, names, l) ==> l == LayoutOf(t, names)
  {
    hide Members;
    hide FieldsOf;
    hide TypesOf;
    PathIs(t.die, names);
    MembersSay(EmptyLayout(t.die, names), Own(t));
    forall l | IsLayout(t, names, l)
      ensures l == LayoutOf(t, names)
    {
      SameMaps(Own(t), l, LayoutOf(t, names));
    }
  }

  lemma SameMaps(ts: seq<Tree>, a: Layout, b: Layout)
    requires FieldsOf(ts, a.fields) && FieldsOf(ts, b.fields) && TypesOf(ts, a.fieldTypes) && TypesOf(ts, b.fieldTypes)
    ensures a.fields == b.fields && a.fieldTypes == b.fieldTypes
  {
    hide LastField;
    hide LastType;
    forall name
      ensures name in a.fields <==> name in b.fields
      ensures name in a.fields ==> a.fields[name] == b.fields[name]
      ensures name in a.fieldTypes <==> name in b.fieldTypes
      ensures name in a.fieldTypes ==> a.fieldTypes[name] == b.fieldTypes[name]
    {
      assert name in a.fields ==> Binds(a.fields, name, a.fields[name]) && Binds(b.fields, name, a.fields[name]);
      assert name in b.fields ==> Binds(b.fields, name, b.fields[name]) && Binds(a.fields, name, b.fields[name]);
      assert name in a.fieldTypes ==>
          Binds(a.fieldTypes, name, a.fieldTypes[name]) && Binds(b.fieldTypes, name, a.fieldTypes[name]);
      assert name in b.fieldTypes ==>
          Binds(b.fieldTypes, name, b.fieldTypes[name]) && Binds(a.fieldTypes, name, b.fieldTypes[name]);
    }
  }

  // ------------------------------------------------------------------ enumerations and arrays

  ghost predicate HasValue(die: Die, name: string) {
    exists v :: SaysEnumerator(die, name, v)
  }

  /** The last enumerator of this name. */
  ghost predicate LastValue(ts: seq<Tree>, name: string, v: int, k: nat) {
    && k < |ts| && SaysEnumerator(ts[k].die, name, v)
    && forall j :: k < j < |ts| ==> !HasValue(ts[j].die, name)
  }

  ghost predicate ValuesOf(ts: seq<Tree>, values: map<string, int>) {
    forall name, v :: Binds(values, name, v) <==> exists k: nat :: LastValue(ts, name, v, k)
  }

  /** An enumeration (4) with a name: the enumerators among its own children. It is registered if it has one,
      or if it says that it has no children. */
  ghost predicate IsEnumeration(t: Tree, names: seq<string>, e: Enumeration) {
    && t.die.tag == 0x04 && t.die.attrs.name.Some? && t.die.attrs.name.value != ""
    && IsPath(names, t.die.attrs.name.value, e.path) && ValuesOf(Own(t), e.values)
    && (t.die.hasChildren ==> e.values != map[])
  }

  ghost predicate HasLength(die: Die) {
    exists n :: SaysLength(die, n)
  }

  /** An array (1): its element type, and the length that the last of its own subranges gives, if any does. */
  ghost predicate IsArray(t: Tree, a: ArrayType) {
    && t.die.tag == 0x01 && a.element == t.die.attrs.typeRef
    && if a.length.Some? then exists k: nat :: LastLength(Own(t), a.length.value, k)
       else forall k :: 0 <= k < |Own(t)| ==> !HasLength(Own(t)[k].die)
  }

  ghost predicate LastLength(ts: seq<Tree>, n: int, k: nat) {
    && k < |ts| && SaysLength(ts[k].die, n)
    && forall j :: k < j < |ts| ==> !HasLength(ts[j].die)
  }

  lemma {:induction false} ValuesSnoc(e: map<string, int>, ts: seq<Tree>, t: Tree)
    ensures var before, d := Values(e, ts), t.die;
            Values(e, ts + [t])
            == if IsEnumerator(d) then before[d.attrs.name.value := d.attrs.constValue.value] else before
    decreases |ts|
  {
    if ts == [] {
      assert [] + [t] == [t] && [t][1..] == [];
    } else {
      var d := ts[0].die;
      assert (ts + [t])[1..] == ts[1..] + [t];
      ValuesSnoc(if IsEnumerator(d) then e[d.attrs.name.value := d.attrs.constValue.value] else e, ts[1..], t);
    }
  }

  lemma LastValueNext(ts: seq<Tree>, t: Tree, name: string, v: int)
    ensures (exists k: nat :: LastValue(ts + [t], name, v, k)) <==>
            if HasValue(t.die, name) then SaysEnumerator(t.die, name, v)
            else exists k: nat :: LastValue(ts, name, v, k)
  {
    hide SaysEnumerator;
    hide HasValue;
    var all := ts + [t];
    assert all[|ts|] == t && forall i :: 0 <= i < |ts| ==> all[i] == ts[i];
    ValueHas(t.die, name, v);
    if HasValue(t.die, name) {
      assert HasValue(all[|ts|].die, name);
      assert forall k: nat :: LastValue(all, name, v, k) ==> k == |ts|;
      if SaysEnumerator(t.die, name, v) {
        assert LastValue(all, name, v, |ts|);
      }
    } else {
      forall k: nat
        ensures LastValue(all, name, v, k) <==> LastValue(ts, name, v, k)
      {
        if LastValue(all, name, v, k) {
          assert k != |ts|;
          forall j | k < j < |ts|
            ensures !HasValue(ts[j].die, name)
          {
            assert all[j] == ts[j];
          }
        }
      }
    }
  }

  lemma ValueHas(die: Die, name: string, v: int)
    ensures SaysEnumerator(die, name, v) ==> HasValue(die, name)
  {
  }

  lemma EnumeratorBinds(m: map<string, int>, die: Die, name: string, v: int)
    ensures var r := if IsEnumerator(die) then m[die.attrs.name.value := die.attrs.constValue.value] else m;
            Binds(r, name, v) <==> if HasValue(die, name) then SaysEnumerator(die, name, v) else Binds(m, name, v)
  {
    if IsEnumerator(die) && die.attrs.name == Some(name) {
      assert SaysEnumerator(die, name, die.attrs.constValue.value);
    }
  }

  lemma {:induction false} ValuesSay(ts: seq<Tree>)
    ensures ValuesOf(ts, Values(map[], ts))
    decreases |ts|
  {
    hide SaysEnumerator;
    hide HasValue;
    hide LastValue;
    hide Binds;
    hide IsEnumerator;
    if ts == [] {
      NoValues();
    } else {
      var before, t := ts[..|ts| - 1], ts[|ts| - 1];
      assert ts == before + [t];
      ValuesSay(before);
      ValuesSnoc(map[], before, t);
      hide Values;
      forall name, v: int
        ensures Binds(Values(map[], ts), name, v) <==> exists k: nat :: LastValue(ts, name, v, k)
      {
        LastValueNext(before, t, name, v);
        EnumeratorBinds(Values(map[], before), t.die, name, v);
      }
    }
  }

  lemma NoValues()
    ensures ValuesOf([], map[])
  {
  }

  lemma SameValues(ts: seq<Tree>, a: map<string, int>, b: map<string, int>)
    requires ValuesOf(ts, a) && ValuesOf(ts, b)
    ensures a == b
  {
    hide LastValue;
    forall name
      ensures name in a <==> name in b
      ensures name in a ==> a[name] == b[name]
    {
      assert name in a ==> Binds(a, name, a[name]) && Binds(b, name, a[name]);
      assert name in b ==> Binds(b, name, b[name]) && Binds(a, name, b[name]);
    }
  }

  lemma {:induction false} LengthSnoc(n: Option<int>, ts: seq<Tree>, t: Tree)
    ensures Length(n, ts + [t]) == if IsExtent(t.die) then Extent(t.die) else Length(n, ts)
    decreases |ts|
  {
    if ts == [] {
      assert [] + [t] == [t] && [t][1..] == [];
    } else {
      assert (ts + [t])[1..] == ts[1..] + [t];
      LengthSnoc(if IsExtent(ts[0].die) then Extent(ts[0].die) else n, ts[1..], t);
    }
  }

  lemma {:induction false} LengthSays(ts: seq<Tree>)
    ensures var n := Length(None, ts);
            if n.Some? then exists k: nat :: LastLength(ts, n.value, k)
            else forall k :: 0 <= k < |ts| ==> !HasLength(ts[k].die)
    decreases |ts|
  {
    if ts != [] {
      var last := |ts| - 1;
      var before, t := ts[..last], ts[last];
      assert ts == before + [t];
      LengthSays(before);
      LengthSnoc(None, before, t);
      Kinds(t.die);
      hide SaysLength;
      hide IsExtent;
      hide Extent;
      hide Length;
      if IsExtent(t.die) {
        assert LastLength(ts, Extent(t.die).value, last) by {
          ExtentGiven(t.die);
        }
        ExtentGiven(t.die);
      } else {
        assert !HasLength(t.die);
        var n := Length(None, before);
        if n.Some? {
          var k: nat :| LastLength(before, n.value, k);
          assert LastLength(ts, n.value, k);
        }
      }
    }
  }

  lemma ExtentGiven(die: Die)
    requires IsExtent(die)
    ensures Extent(die).Some? && SaysLength(die, Extent(die).value)
  {
  }

  lemma OneLength(ts: seq<Tree>, a: int, b: int, j: nat, k: nat)
    requires LastLength(ts, a, j) && LastLength(ts, b, k)
    ensures a == b
  {
    assert HasLength(ts[j].die) && HasLength(ts[k].die);
  }

  // ------------------------------------------------------------------ where entries stand

  /** The namespaces around what is below an entry: one more if it is a named namespace (0x39). */
  function Within(die: Die, names: seq<string>): seq<string> {
    if die.tag == 0x39 && die.attrs.name.Some? && die.attrs.name.value != "" then names + [die.attrs.name.value]
    else names
  }

  /** The entry stands somewhere in the forest, inside these namespaces, the outermost first. */
  ghost predicate Stands(ts: seq<Tree>, outer: seq<string>, t: Tree, names: seq<string>)
    decreases ts
  {
    ts != [] &&
    (|| (ts[0] == t && names == outer)
     || (ts[0].die.hasChildren && Stands(ts[0].kids, Within(ts[0].die, outer), t, names))
     || Stands(ts[1..], outer, t, names))
  }

  ghost predicate StructAt(t: Tree, names: seq<string>, l: Layout) {
    SaysStruct(t.die, l.name) && IsLayout(t, names, l)
  }

  lemma OneStructAt(t: Tree, names: seq<string>, l: Layout)
    ensures StructAt(t, names, l) <==> IsStruct(t.die) && l == LayoutOf(t, names)
  {
    hide LayoutOf;
    hide FieldsOf;
    hide TypesOf;
    hide IsPath;
    Kinds(t.die);
    if Named(t.die) {
      LayoutSays(t, names);
    }
  }

  /** The structs of a forest are those that stand in it, each with the layout of its entry. */
  lemma {:induction false} StructsStand(ts: seq<Tree>, outer: seq<string>, l: Layout)
    ensures l in Structs(ts, outer) <==> exists t, names :: Stands(ts, outer, t, names) && StructAt(t, names, l)
    decreases ts
  {
    hide LayoutOf;
    hide StructAt;
    if ts != [] {
      var t, rest := ts[0], ts[1..];
      var below := if t.die.hasChildren then Structs(t.kids, Within(t.die, outer)) else [];
      var own := if IsStruct(t.die) then [LayoutOf(t, outer)] else [];
      assert Structs(ts, outer) == below + own + Structs(rest, outer);
      if t.die.hasChildren {
        StructsStand(t.kids, Within(t.die, outer), l);
      }
      StructsStand(rest, outer, l);
      OneStructAt(t, outer, l);
      hide Structs;
      if l in below {
        var u, names :| Stands(t.kids, Within(t.die, outer), u, names) && StructAt(u, names, l);
        assert Stands(ts, outer, u, names);
      } else if l in own {
        assert Stands(ts, outer, t, outer);
      } else if l in Structs(rest, outer) {
        var u, names :| Stands(rest, outer, u, names) && StructAt(u, names, l);
        assert Stands(ts, outer, u, names);
      }
    }
  }

  lemma OneEnumerationAt(t: Tree, names: seq<string>, e: Enumeration)
    ensures IsEnumeration(t, names, e) <==>
            var values := if t.die.hasChildren then Values(map[], t.kids) else map[];
            IsEnum(t.die) && (t.die.hasChildren ==> values != map[]) && e == Enumeration(PathOf(t.die, names), values)
  {
    hide PathOf;
    hide ValuesOf;
    hide Values;
    if Named(t.die) {
      PathIs(t.die, names);
      ValuesSay(Own(t));
      if IsEnumeration(t, names, e) {
        SameValues(Own(t), e.values, Values(map[], Own(t)));
      }
      assert Values(map[], []) == map[] by {
        NoneValued();
      }
    }
  }

  lemma NoneValued()
    ensures Values(map[], []) == map[]
  {
  }

  /** The enumerations of a forest are those that stand in it. */
  lemma {:induction false} EnumsStand(ts: seq<Tree>, outer: seq<string>, e: Enumeration)
    ensures e in Enums(ts, outer) <==> exists t, names :: Stands(ts, outer, t, names) && IsEnumeration(t, names, e)
    decreases ts
  {
    hide PathOf;
    hide IsEnumeration;
    hide Values;
    if ts != [] {
      var t, rest := ts[0], ts[1..];
      var values := if t.die.hasChildren then Values(map[], t.kids) else map[];
      var below := if t.die.hasChildren then Enums(t.kids, Within(t.die, outer)) else [];
      var own := if IsEnum(t.die) && (t.die.hasChildren ==> values != map[])
                 then [Enumeration(PathOf(t.die, outer), values)] else [];
      assert Enums(ts, outer) == below + own + Enums(rest, outer);
      if t.die.hasChildren {
        EnumsStand(t.kids, Within(t.die, outer), e);
      }
      EnumsStand(rest, outer, e);
      OneEnumerationAt(t, outer, e);
      hide Enums;
      if e in below {
        var u, names :| Stands(t.kids, Within(t.die, outer), u, names) && IsEnumeration(u, names, e);
        assert Stands(ts, outer, u, names);
      } else if e in own {
        assert Stands(ts, outer, t, outer);
      } else if e in Enums(rest, outer) {
        var u, names :| Stands(rest, outer, u, names) && IsEnumeration(u, names, e);
        assert Stands(ts, outer, u, names);
      }
    }
  }

  /** Every array and every struct that stands in a forest of entries at different offsets is there at its own. */
  lemma {:induction false} BuiltStand(ts: seq<Tree>, outer: seq<string>, t: Tree, names: seq<string>)
    requires Distinct(ts) && Stands(ts, outer, t, names)
    ensures t.die.off in Offs(ts)
    ensures IsStruct(t.die) ==> t.die.off in Layouts(ts, outer) && Layouts(ts, outer)[t.die.off] == LayoutOf(t, names)
    ensures t.die.tag == 0x01 ==>
              t.die.off in Arrays(ts) && Arrays(ts)[t.die.off] == ArrayType(t.die.attrs.typeRef, Length(None, Own(t)))
    decreases ts
  {
    hide LayoutOf;
    hide Length;
    var u, rest := ts[0], ts[1..];
    if u == t && names == outer {
    } else if u.die.hasChildren && Stands(u.kids, Within(u.die, outer), t, names) {
      BuiltStand(u.kids, Within(u.die, outer), t, names);
    } else {
      BuiltStand(rest, outer, t, names);
    }
  }

  // ------------------------------------------------------------------ a whole unit

  /** Enumeration `i` is the last one of this path that has an enumerator of this name, with this value. */
  ghost predicate LastNamed(es: seq<Enumeration>, path: string, name: string, v: int, i: nat) {
    && i < |es| && es[i].path == path && Binds(es[i].values, name, v)
    && forall j :: i < j < |es| && es[j].path == path ==> name !in es[j].values
  }

  ghost predicate Registered(enums: map<string, map<string, int>>, path: string, name: string, v: int) {
    path in enums && Binds(enums[path], name, v)
  }

  /** The enumerations of a path are merged: a later value of a name replaces an earlier one. */
  lemma {:induction false} EnumsMerge(es: seq<Enumeration>, path: string, name: string, v: int)
    ensures path in AddAll(map[], es) <==> exists i :: 0 <= i < |es| && es[i].path == path
    ensures Registered(AddAll(map[], es), path, name, v) <==> exists i: nat :: LastNamed(es, path, name, v, i)
    decreases |es|
  {
    if es != [] {
      var n := |es| - 1;
      var before, e := es[..n], es[n];
      EnumsMerge(before, path, name, v);
      MergedNext(AddAll(map[], before), e, path, name, v);
      LastNamedNext(before, e, path, name, v);
      assert es == before + [e] && AddAll(map[], es) == AddValues(AddAll(map[], before), e);
      hide AddAll;
      hide AddValues;
      hide LastNamed;
      hide Registered;
      assert forall i :: 0 <= i < n ==> es[i] == before[i];
    }
  }

  lemma MergedNext(enums: map<string, map<string, int>>, e: Enumeration, path: string, name: string, v: int)
    ensures path in AddValues(enums, e) <==> path in enums || path == e.path
    ensures Registered(AddValues(enums, e), path, name, v) <==>
            if path == e.path && name in e.values then e.values[name] == v else Registered(enums, path, name, v)
  {
  }

  lemma LastNamedNext(es: seq<Enumeration>, e: Enumeration, path: string, name: string, v: int)
    ensures (exists i: nat :: LastNamed(es + [e], path, name, v, i)) <==>
            if path == e.path && name in e.values then e.values[name] == v
            else exists i: nat :: LastNamed(es, path, name, v, i)
  {
    hide Binds;
    var all, n := es + [e], |es|;
    assert all[n] == e && forall i :: 0 <= i < n ==> all[i] == es[i];
    assert Binds(e.values, name, v) <==> name in e.values && e.values[name] == v by {
      BindsSay(e.values, name, v);
    }
    if path == e.path && name in e.values {
      assert forall i: nat :: LastNamed(all, path, name, v, i) ==> i == n;
      if e.values[name] == v {
        assert LastNamed(all, path, name, v, n);
      }
    } else {
      forall i: nat
        ensures LastNamed(all, path, name, v, i) <==> LastNamed(es, path, name, v, i)
      {
        if LastNamed(all, path, name, v, i) {
          assert i != n;
          forall j | i < j < n && es[j].path == path
            ensures name !in es[j].values
          {
            assert all[j] == es[j];
          }
        }
      }
    }
  }

  lemma BindsSay(m: map<string, int>, name: string, v: int)
    ensures Binds(m, name, v) <==> name in m && m[name] == v
  {
  }

  /** The last entry at this offset that has a name or a size. */
  ghost predicate LastKnown(items: seq<Item>, p: nat, i: nat) {
    Tells(items, p, i) && forall j :: i < j < |items| ==> !Tells(items, p, j)
  }

  ghost predicate Tells(items: seq<Item>, p: nat, i: nat) {
    && i < |items| && items[i].Entry? && items[i].die.off == p
    && (items[i].die.attrs.name.Some? || items[i].die.attrs.byteSize.Some?)
  }

  function KnownAs(die: Die): Seen {
    Seen(die.tag, die.attrs.name, die.attrs.byteSize)
  }

  lemma OpenDies(info: Info, die: Die, ns: seq<string>, owner: Owner)
    ensures Open(info, die, ns, owner).dies
            == if die.attrs.name.Some? || die.attrs.byteSize.Some?
               then info.dies[die.off := KnownAs(die)] else info.dies
  {
    hide WithMember;
    hide EmptyLayout;
    hide Extent;
    hide IsMember;
    hide IsStruct;
    hide IsExtent;
  }

  lemma StepDies(s: State, item: Item)
    ensures Step(s, item).info.dies
            == if item.Entry? && (item.die.attrs.name.Some? || item.die.attrs.byteSize.Some?)
               then s.info.dies[item.die.off := KnownAs(item.die)] else s.info.dies
  {
    hide Commit;
    hide AddValues;
    hide Open;
    hide FrameOf;
    hide GrowTop;
    hide IsStruct;
    hide IsEnum;
    hide PathOf;
    if item.Entry? {
      OpenDies(s.info, item.die, s.ns, Top(s.stack));
    }
  }

  lemma {:induction false} DrainDies(s: State)
    ensures Drain(s).info.dies == s.info.dies
    decreases |s.stack|
  {
    if s.stack != [] {
      DrainDies(Pop(s));
    }
  }

  /** Tag, name and size of an entry are known by its offset, whatever the entry is, if it has a name or a size. */
  lemma {:induction false} DiesSay(s: State, items: seq<Item>, p: nat, i: nat)
    ensures LastKnown(items, p, i) ==>
              p in Unit(s, items).dies && Unit(s, items).dies[p] == KnownAs(items[i].die)
    ensures (forall j :: 0 <= j < |items| ==> !Tells(items, p, j)) ==> SameAt(Unit(s, items).dies, s.info.dies, p)
    decreases |items|
  {
    hide Step;
    hide Drain;
    if items == [] {
      DrainDies(s);
    } else {
      var rest := items[1..];
      assert forall j :: 0 <= j < |rest| ==> rest[j] == items[j + 1];
      assert forall j: nat :: Tells(rest, p, j) <==> Tells(items, p, j + 1);
      StepDies(s, items[0]);
      DiesSay(Step(s, items[0]), rest, p, if i > 0 then i - 1 else 0);
      hide Unit;
      if forall j :: 0 <= j < |items| ==> !Tells(items, p, j) {
        assert !Tells(items, p, 0);
        forall j | 0 <= j < |rest|
          ensures !Tells(rest, p, j)
        {
          assert !Tells(items, p, j + 1);
        }
      }
      if LastKnown(items, p, i) {
        if i > 0 {
          assert LastKnown(rest, p, i - 1);
        } else {
          forall j | 0 <= j < |rest|
            ensures !Tells(rest, p, j)
          {
            assert !Tells(items, p, j + 1);
          }
        }
      }
    }
  }

  /** What a fresh parser has learnt from a unit whose entries stand one after another: a path has a layout
      exactly if a struct of this path stands in the unit, and then that of one of them. */
  lemma StructsOfUnit(items: seq<Item>, path: string)
    requires GoesUp(items)
    ensures var after := Unit(State(Info(EMPTY_BOOK, map[], map[], map[], map[]), [], []), items);
            && (path in after.book.structs <==>
                  exists t, names, l :: Stands(Forest(items), [], t, names) && StructAt(t, names, l) && l.path == path)
            && (path in after.book.structs ==>
                  exists t, names :: Stands(Forest(items), [], t, names)
                                     && StructAt(t, names, after.book.structs[path])
                                     && after.book.structs[path].path == path)
  {
    hide Unit;
    hide Forest;
    hide Stands;
    hide StructAt;
    hide CommitAll;
    hide Winner;
    var ts := Forest(items);
    var ls := Structs(ts, []);
    UnitBuilds(Info(EMPTY_BOOK, map[], map[], map[], map[]), items, 0);
    ConflictIff(ls, path);
    WinnerIsKept(ls, path);
    forall l
      ensures l in ls <==> exists t, names :: Stands(ts, [], t, names) && StructAt(t, names, l)
    {
      StructsStand(ts, [], l);
    }
    hide Structs;
    if path in CommitAll(EMPTY_BOOK, ls).structs {
      WinnerWins(ls, path);
      var k := Winner(ls, path).value;
      assert ls[k] in ls;
    }
    if t, names, l :| Stands(ts, [], t, names) && StructAt(t, names, l) && l.path == path {
      assert l in ls;
    }
  }

  /** Every struct of the unit is to be found at its offset, with its layout, and every array with its element
      type and length. */
  lemma EntriesOfUnit(info: Info, items: seq<Item>, t: Tree, names: seq<string>)
    requires GoesUp(items) && Stands(Forest(items), [], t, names)
    ensures var after, p := Unit(State(info, [], []), items), t.die.off;
            && (forall name :: SaysStruct(t.die, name) ==>
                  p in after.structByDie && StructAt(t, names, after.structByDie[p]))
            && (t.die.tag == 1 ==> p in after.arrays && IsArray(t, after.arrays[p]))
  {
    hide Unit;
    hide Forest;
    hide Layouts;
    hide Arrays;
    hide CommitAll;
    hide AddAll;
    hide Structs;
    hide Enums;
    hide StructAt;
    hide LayoutOf;
    UnitBuilds(info, items, t.die.off);
    ForestDistinct(items);
    BuiltStand(Forest(items), [], t, names);
    Kinds(t.die);
    if IsStruct(t.die) {
      OneStructAt(t, names, LayoutOf(t, names));
    }
    if t.die.tag == 1 {
      LengthSays(Own(t));
    }
  }

  /** The enumerations of the unit are registered, and nothing else is. */
  lemma EnumsOfUnit(items: seq<Item>, path: string)
    requires GoesUp(items)
    ensures var after := Unit(State(Info(EMPTY_BOOK, map[], map[], map[], map[]), [], []), items);
            path in after.enums <==>
            exists t, names, e :: Stands(Forest(items), [], t, names) && IsEnumeration(t, names, e) && e.path == path
  {
    hide Unit;
    hide Forest;
    hide Stands;
    hide IsEnumeration;
    hide AddAll;
    var ts := Forest(items);
    var es := Enums(ts, []);
    UnitBuilds(Info(EMPTY_BOOK, map[], map[], map[], map[]), items, 0);
    EnumsMerge(es, path, "", 0);
    forall e
      ensures e in es <==> exists t, names :: Stands(ts, [], t, names) && IsEnumeration(t, names, e)
    {
      EnumsStand(ts, [], e);
    }
    hide Enums;
    if path in AddAll(map[], es) {
      var i :| 0 <= i < |es| && es[i].path == path;
      assert es[i] in es;
    }
    if t, names, e :| Stands(ts, [], t, names) && IsEnumeration(t, names, e) && e.path == path {
      assert e in es;
    }
  }
}
