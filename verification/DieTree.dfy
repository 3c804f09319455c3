/** The debugging information entries of one compilation unit, as nodefusion/host/dwarf.py walks them with
    an explicit stack, against structural recursion over the tree they serialise (DWARF 5, section 2.3). */
module DieTree {
  import Leb128
  import opened LittleEndian
  import opened Paths
  import opened Wrappers

  const TAG_ARRAY := 0x01
  const TAG_CLASS := 0x02
  const TAG_ENUMERATION := 0x04
  const TAG_MEMBER := 0x0D
  const TAG_STRUCTURE := 0x13
  const TAG_UNION := 0x17
  const TAG_SUBRANGE := 0x21
  const TAG_ENUMERATOR := 0x28
  const TAG_NAMESPACE := 0x39
  const OP_PLUS_UCONST: byte := 0x23

  datatype Location = Absent | Constant(offset: int) | Block(bytes: seq<byte>)

  /** The attributes the parser looks at, where an entry has them. */
  datatype Attrs = Attrs(name: Option<string>, byteSize: Option<int>, location: Location, declaration: bool,
                         typeRef: Option<int>, constValue: Option<int>, count: Option<int>, upper: Option<int>)

  datatype Die = Die(off: nat, tag: nat, hasChildren: bool, attrs: Attrs)

  /** What one pass of the reading loop decodes: a null entry, or an entry. */
  datatype Item = Null | Entry(die: Die)

  datatype Layout = Layout(name: string, size: Option<int>, path: string,
                           fields: map<string, int>, fieldTypes: map<string, int>)
  datatype ArrayType = ArrayType(element: Option<int>, length: Option<int>)
  datatype Seen = Seen(tag: nat, name: Option<string>, size: Option<int>)
  datatype Enumeration = Enumeration(path: string, values: map<string, int>)

  predicate Named(die: Die) {
    die.attrs.name.Some? && die.attrs.name.value != ""
  }

  predicate IsStruct(die: Die) {
    die.tag in {TAG_STRUCTURE, TAG_UNION, TAG_CLASS} && Named(die) && !die.attrs.declaration
  }

  predicate IsEnum(die: Die) {
    die.tag == TAG_ENUMERATION && Named(die)
  }

  predicate IsNamespace(die: Die) {
    die.tag == TAG_NAMESPACE && Named(die)
  }

  function MemberOffset(location: Location): Option<int> {
    match location
    case Constant(offset) => Some(offset)
    case Absent => None
    case Block(bytes) =>
      if |bytes| >= 2 && bytes[0] == OP_PLUS_UCONST then
        match Leb128.Front(bytes[1..], Leb128.MAX_BYTES)
        case Some(n) => Some(Leb128.Unsigned(bytes[1..][..n]))
        case None => None
      else None
  }

  predicate IsMember(die: Die) {
    die.tag == TAG_MEMBER && Named(die) && MemberOffset(die.attrs.location).Some?
  }

  predicate IsEnumerator(die: Die) {
    die.tag == TAG_ENUMERATOR && Named(die) && die.attrs.constValue.Some?
  }

  function Extent(die: Die): Option<int> {
    if die.attrs.count.Some? then die.attrs.count
    else if die.attrs.upper.Some? then Some(die.attrs.upper.value + 1)
    else None
  }

  predicate IsExtent(die: Die) {
    die.tag == TAG_SUBRANGE && Extent(die).Some?
  }

  function PathOf(die: Die, ns: seq<string>): string
    requires Named(die)
  {
    Join(ns + [die.attrs.name.value])
  }

  function EmptyLayout(die: Die, ns: seq<string>): Layout
    requires Named(die)
  {
    Layout(die.attrs.name.value, die.attrs.byteSize, PathOf(die, ns), map[], map[])
  }

  function WithMember(l: Layout, die: Die): Layout
    requires IsMember(die)
  {
    var name := die.attrs.name.value;
    l.(fields := l.fields[name := MemberOffset(die.attrs.location).value],
       fieldTypes := if die.attrs.typeRef.Some? then l.fieldTypes[name := die.attrs.typeRef.value] else l.fieldTypes)
  }

  // ------------------------------------------------------------------ what the parser knows

  /** The dictionaries of a DwarfInfo. Struct layouts are filled in place, so the one an offset leads to is
      the layout being built until its entry is closed. */
  datatype Info = Info(book: Book, enums: map<string, map<string, int>>, arrays: map<nat, ArrayType>,
                       dies: map<nat, Seen>, structByDie: map<nat, Layout>)

  /** The layouts committed so far, by path, and the paths with contradictory layouts. */
  datatype Book = Book(structs: map<string, Layout>, conflicts: set<string>)

  /** Whether a second layout for a path says the same, says more, says less, or contradicts the first. */
  function Commit(book: Book, s: Layout): Book {
    if s.path !in book.structs then book.(structs := book.structs[s.path := s])
    else
      var known := book.structs[s.path];
      if known.fields == s.fields && known.size == s.size then book
      else if known.fields == map[] && s.fields != map[] then book.(structs := book.structs[s.path := s])
      else if known.fields != map[] && s.fields == map[] then book
      else book.(conflicts := book.conflicts + {s.path})
  }

  function AddValues(enums: map<string, map<string, int>>, e: Enumeration): map<string, map<string, int>> {
    enums[e.path := (if e.path in enums then enums[e.path] else map[]) + e.values]
  }

  /** The entry a child belongs to: the innermost open one, and no other. */
  datatype Owner = Owner(made: Option<nat>, host: Option<nat>)

  const NOBODY := Owner(None, None)

  function Remember(info: Info, die: Die): Info {
    if die.attrs.name.Some? || die.attrs.byteSize.Some?
    then info.(dies := info.dies[die.off := Seen(die.tag, die.attrs.name, die.attrs.byteSize)])
    else info
  }

  /** What an entry changes where it stands, before its children are read. */
  function Open(info: Info, die: Die, ns: seq<string>, owner: Owner): Info {
    var i := Remember(info, die);
    if die.tag == TAG_ARRAY then i.(arrays := i.arrays[die.off := ArrayType(die.attrs.typeRef, None)])
    else if IsExtent(die) && owner.host.Some? then
      var host := owner.host.value;
      var element := if host in i.arrays then i.arrays[host].element else None;
      i.(arrays := i.arrays[host := ArrayType(element, Extent(die))])
    else if IsMember(die) && owner.made.Some? && owner.made.value in i.structByDie then
      var host := owner.made.value;
      i.(structByDie := i.structByDie[host := WithMember(i.structByDie[host], die)])
    else if IsStruct(die) then
      i.(structByDie := i.structByDie[die.off := EmptyLayout(die, ns)])
    else i
  }

  /** What is owed when an entry ends: its struct is committed, its enumerators are registered. */
  datatype Frame = Frame(pushedNs: bool, made: Option<nat>, en: Option<Enumeration>, arrayAt: Option<nat>)

  function FrameOf(die: Die, ns: seq<string>): Frame {
    Frame(IsNamespace(die),
          if IsStruct(die) then Some(die.off) else None,
          if IsEnum(die) then Some(Enumeration(PathOf(die, ns), map[])) else None,
          if die.tag == TAG_ARRAY then Some(die.off) else None)
  }

  function OwnerOf(f: Frame): Owner {
    Owner(f.made, f.arrayAt)
  }

  function WithEnumerator(f: Frame, die: Die): Frame {
    if IsEnumerator(die) && f.en.Some?
    then f.(en := Some(f.en.value.(values := f.en.value.values[die.attrs.name.value := die.attrs.constValue.value])))
    else f
  }

  function Close(info: Info, f: Frame): Info {
    var book := if f.made.Some? && f.made.value in info.structByDie
                then Commit(info.book, info.structByDie[f.made.value])
                else info.book;
    var enums := if f.en.Some? && f.en.value.values != map[] then AddValues(info.enums, f.en.value) else info.enums;
    info.(book := book, enums := enums)
  }

  /** An entry without children ends at once; an enumeration is registered even if empty. */
  function Leaf(info: Info, die: Die, ns: seq<string>): Info {
    if IsStruct(die) && die.off in info.structByDie then info.(book := Commit(info.book, info.structByDie[die.off]))
    else if IsEnum(die) then info.(enums := AddValues(info.enums, Enumeration(PathOf(die, ns), map[])))
    else info
  }

  function Inside(die: Die, ns: seq<string>): seq<string> {
    if IsNamespace(die) then ns + [die.attrs.name.value] else ns
  }

  // ------------------------------------------------------------------ the stack machine

  datatype State = State(info: Info, ns: seq<string>, stack: seq<Frame>)

  function Pop(s: State): State
    requires s.stack != []
  {
    var f := s.stack[|s.stack| - 1];
    State(Close(s.info, f), if f.pushedNs && s.ns != [] then s.ns[..|s.ns| - 1] else s.ns, s.stack[..|s.stack| - 1])
  }

  function Top(stack: seq<Frame>): Owner {
    if stack == [] then NOBODY else OwnerOf(stack[|stack| - 1])
  }

  function GrowTop(stack: seq<Frame>, die: Die): seq<Frame> {
    if stack == [] then [] else stack[..|stack| - 1] + [WithEnumerator(stack[|stack| - 1], die)]
  }

  function Step(s: State, item: Item): State {
    match item
    case Null => if s.stack == [] then s else Pop(s)
    case Entry(die) =>
      var info, stack := Open(s.info, die, s.ns, Top(s.stack)), GrowTop(s.stack, die);
      if die.hasChildren then State(info, Inside(die, s.ns), stack + [FrameOf(die, s.ns)])
      else State(Leaf(info, die, s.ns), s.ns, stack)
  }

  function Drain(s: State): State
    decreases |s.stack|
  {
    if s.stack == [] then s else Drain(Pop(s))
  }

  /** What the parser knows after a unit: all its items, then whatever is still open is closed. */
  function Unit(s: State, items: seq<Item>): Info
    decreases |items|
  {
    if items == [] then Drain(s).info else Unit(Step(s, items[0]), items[1..])
  }

  // ------------------------------------------------------------------ the loop

  function Pushed(stack: seq<Frame>): nat {
    if stack == [] then 0 else Pushed(stack[..|stack| - 1]) + if stack[|stack| - 1].pushedNs then 1 else 0
  }

  lemma PushedNext(stack: seq<Frame>, f: Frame)
    ensures Pushed(stack + [f]) == Pushed(stack) + if f.pushedNs then 1 else 0
  {
    assert (stack + [f])[..|stack|] == stack;
  }

  /** The dictionaries a DwarfInfo fills in place, unit by unit. */
  class DwarfInfo {
    var structs: map<string, Layout>
    var conflicts: set<string>
    var enums: map<string, map<string, int>>
    var arrays: map<nat, ArrayType>
    var dies: map<nat, Seen>
    var structByDie: map<nat, Layout>

    ghost function Known(): Info
      reads this
    {
      Info(Book(structs, conflicts), enums, arrays, dies, structByDie)
    }

    constructor ()
      ensures Known() == Info(Book(map[], {}), map[], map[], map[], map[])
    {
      structs, conflicts, enums, arrays, dies, structByDie := map[], {}, map[], map[], map[], map[];
    }

    method CommitLayout(s: Layout)
      modifies this`structs, this`conflicts
      ensures Book(structs, conflicts) == Commit(old(Book(structs, conflicts)), s)
    {
      if s.path !in structs {
        structs := structs[s.path := s];
        return;
      }
      var known := structs[s.path];
      if known.fields == s.fields && known.size == s.size {
        return;
      }
      if known.fields == map[] && s.fields != map[] {
        structs := structs[s.path := s];
        return;
      }
      if known.fields != map[] && s.fields == map[] {
        return;
      }
      conflicts := conflicts + {s.path};
    }

    /** Closes the innermost open entry. */
    method PopFrame(ns: seq<string>, stack: seq<Frame>) returns (names: seq<string>, rest: seq<Frame>)
      requires stack != [] && |ns| == Pushed(stack)
      modifies this
      ensures State(Known(), names, rest) == Pop(State(old(Known()), ns, stack))
      ensures |names| == Pushed(rest)
    {
      var f := stack[|stack| - 1];
      rest := stack[..|stack| - 1];
      names := if f.pushedNs then ns[..|ns| - 1] else ns;
      if f.made.Some? && f.made.value in structByDie {
        CommitLayout(structByDie[f.made.value]);
      }
      if f.en.Some? && f.en.value.values != map[] {
        var e := f.en.value;
        enums := enums[e.path := (if e.path in enums then enums[e.path] else map[]) + e.values];
      }
    }

    /** By its tag, an entry is looked up in the innermost open one or starts something. */
    method Place(die: Die, ns: seq<string>, stack: seq<Frame>)
      returns (made: Option<nat>, madeEnum: Option<Enumeration>, madeArray: Option<nat>, grown: seq<Frame>)
      modifies this
      ensures grown == GrowTop(stack, die)
      ensures madeEnum == FrameOf(die, ns).en
      ensures die.hasChildren ==> Frame(IsNamespace(die), made, madeEnum, madeArray) == FrameOf(die, ns)
      ensures var i := Open(old(Known()), die, ns, Top(stack));
              Known() == if IsStruct(die) && !die.hasChildren then Leaf(i, die, ns) else i
    {
      hide MemberOffset;
      hide Extent;
      hide PathOf;
      hide Commit;
      var top := |stack| - 1;
      grown, made, madeEnum, madeArray := stack, None, None, None;
      if die.attrs.name.Some? || die.attrs.byteSize.Some? {
        dies := dies[die.off := Seen(die.tag, die.attrs.name, die.attrs.byteSize)];
      }
      if die.tag == TAG_ARRAY {
        arrays := arrays[die.off := ArrayType(die.attrs.typeRef, None)];
        madeArray := Some(die.off);
      } else if die.tag == TAG_SUBRANGE {
        if stack != [] && stack[top].arrayAt.Some? && Extent(die).Some? {
          var host := stack[top].arrayAt.value;
          arrays := arrays[host := ArrayType(if host in arrays then arrays[host].element else None, Extent(die))];
        }
      } else if die.tag == TAG_ENUMERATOR {
        if stack != [] && stack[top].en.Some? && Named(die) && die.attrs.constValue.Some? {
          var e := stack[top].en.value;
          var slot := e.values[die.attrs.name.value := die.attrs.constValue.value];
          grown := stack[..top] + [stack[top].(en := Some(e.(values := slot)))];
        }
      } else if die.tag == TAG_ENUMERATION && Named(die) {
        madeEnum := Some(Enumeration(PathOf(die, ns), map[]));
      } else if die.tag == TAG_MEMBER {
        if stack != [] && stack[top].made.Some? && IsMember(die) && stack[top].made.value in structByDie {
          var host := stack[top].made.value;
          structByDie := structByDie[host := WithMember(structByDie[host], die)];
        }
      } else if IsStruct(die) {
        structByDie := structByDie[die.off := EmptyLayout(die, ns)];
        if die.hasChildren {
          made := Some(die.off);
        } else {
          CommitLayout(structByDie[die.off]);
        }
      }
    }

    /** Takes in an entry, and opens it if it has children. */
    method ReadEntry(die: Die, ns: seq<string>, stack: seq<Frame>) returns (names: seq<string>, grown: seq<Frame>)
      requires |ns| == Pushed(stack)
      modifies this
      ensures State(Known(), names, grown) == Step(State(old(Known()), ns, stack), Entry(die))
      ensures |names| == Pushed(grown)
    {
      hide Open;
      hide PathOf;
      hide Commit;
      hide GrowTop;
      var made, madeEnum, madeArray;
      names := ns;
      made, madeEnum, madeArray, grown := Place(die, ns, stack);
      GrowTopPushes(stack, die);
      if die.hasChildren {
        var pushedNs := die.tag == TAG_NAMESPACE && Named(die);
        if pushedNs {
          names := ns + [die.attrs.name.value];
        }
        PushedNext(grown, Frame(pushedNs, made, madeEnum, madeArray));
        grown := grown + [Frame(pushedNs, made, madeEnum, madeArray)];
      } else if madeEnum.Some? {
        var e := madeEnum.value;
        var known := if e.path in enums then enums[e.path] else map[];
        assert known + map[] == known;
        enums := enums[e.path := known];
      }
    }

    /** Reads the items of a unit and closes what its end leaves open. */
    method ParseUnit(items: seq<Item>)
      modifies this
      ensures Known() == Unit(State(old(Known()), [], []), items)
      ensures Known() == VisitAll(old(Known()), Forest(items), [], NOBODY)
    {
      LoopIsRecursion(Known(), items);
      hide Pop;
      hide Step;
      var ns, stack := [], [];
      for i := 0 to |items|
        invariant |ns| == Pushed(stack)
        invariant Unit(State(Known(), ns, stack), items[i..]) == Unit(State(old(Known()), [], []), items)
      {
        assert items[i..][0] == items[i] && items[i..][1..] == items[i + 1..];
        NullStep(State(Known(), ns, stack));
        match items[i]
        case Null =>
          if stack != [] {
            ns, stack := PopFrame(ns, stack);
          }
        case Entry(die) =>
          ns, stack := ReadEntry(die, ns, stack);
      }
      while stack != []
        invariant |ns| == Pushed(stack)
        invariant Drain(State(Known(), ns, stack)).info == Unit(State(old(Known()), [], []), items)
        decreases |stack|
      {
        PopPops(State(Known(), ns, stack));
        ns, stack := PopFrame(ns, stack);
      }
    }
  }

  lemma NullStep(s: State)
    ensures Step(s, Null) == if s.stack == [] then s else Pop(s)
  {
  }

  lemma PopPops(s: State)
    requires s.stack != []
    ensures |Pop(s).stack| < |s.stack|
  {
  }

  lemma GrowTopPushes(stack: seq<Frame>, die: Die)
    ensures Pushed(GrowTop(stack, die)) == Pushed(stack)
  {
    if stack != [] {
      PushedNext(stack[..|stack| - 1], WithEnumerator(stack[|stack| - 1], die));
    }
  }

  // ------------------------------------------------------------------ structural recursion

  datatype Tree = Tree(die: Die, kids: seq<Tree>)

  function Values(e: map<string, int>, kids: seq<Tree>): map<string, int>
    decreases |kids|
  {
    if kids == [] then e
    else
      var d := kids[0].die;
      Values(if IsEnumerator(d) then e[d.attrs.name.value := d.attrs.constValue.value] else e, kids[1..])
  }

  /** The frame of an entry once its children have been read. */
  function Filled(f: Frame, kids: seq<Tree>): Frame {
    if f.en.Some? then f.(en := Some(f.en.value.(values := Values(f.en.value.values, kids)))) else f
  }

  /** What the parser knows after an entry with all that is below it, in these namespaces. */
  function Visit(info: Info, t: Tree, ns: seq<string>, owner: Owner): Info
    decreases t
  {
    var i := Open(info, t.die, ns, owner);
    if t.die.hasChildren then
      var f := FrameOf(t.die, ns);
      Close(VisitAll(i, t.kids, Inside(t.die, ns), OwnerOf(f)), Filled(f, t.kids))
    else Leaf(i, t.die, ns)
  }

  function VisitAll(info: Info, ts: seq<Tree>, ns: seq<string>, owner: Owner): Info
    decreases ts
  {
    if ts == [] then info
    else VisitAll(Visit(info, ts[0], ns, owner), ts[1..], ns, owner)
  }

  /** The children at the front of a stream, up to their null entry or the end, and what comes after. */
  function Children(items: seq<Item>): (r: (seq<Tree>, seq<Item>))
    ensures |r.1| <= |items| && (items != [] ==> |r.1| < |items|)
    decreases |items|
  {
    if items == [] then ([], [])
    else match items[0]
      case Null => ([], items[1..])
      case Entry(die) =>
        var (kids, rest) := if die.hasChildren then Children(items[1..]) else ([], items[1..]);
        var (siblings, after) := Children(rest);
        ([Tree(die, kids)] + siblings, after)
  }

  /** The trees a whole unit serialises. A null entry between them means nothing. */
  function Forest(items: seq<Item>): seq<Tree>
    decreases |items|
  {
    if items == [] then []
    else match items[0]
      case Null => Forest(items[1..])
      case Entry(die) =>
        var (kids, rest) := if die.hasChildren then Children(items[1..]) else ([], items[1..]);
        [Tree(die, kids)] + Forest(rest)
  }

  lemma GrowFilled(f: Frame, t: Tree, ts: seq<Tree>)
    ensures Filled(f, [t] + ts) == Filled(WithEnumerator(f, t.die), ts)
    ensures OwnerOf(WithEnumerator(f, t.die)) == OwnerOf(f)
    ensures WithEnumerator(f, t.die).pushedNs == f.pushedNs
  {
    assert ([t] + ts)[1..] == ts;
  }

  /** The state in which an open entry is closed after its children have been read. */
  function Closed(s: State, kids: seq<Tree>): State
    requires s.stack != []
  {
    var n := |s.stack| - 1;
    Pop(State(VisitAll(s.info, kids, s.ns, OwnerOf(s.stack[n])), s.ns, s.stack[..n] + [Filled(s.stack[n], kids)]))
  }

  /** Reading on from inside an open entry amounts to visiting its remaining children, closing it, and
      reading on after it. */
  lemma {:induction false} Descend(s: State, items: seq<Item>)
    requires s.stack != []
    ensures var (kids, rest) := Children(items);
            Unit(s, items) == Unit(Closed(s, kids), rest)
    decreases |items|, 0
  {
    hide Open;
    hide Close;
    hide Leaf;
    hide FrameOf;
    hide WithEnumerator;
    hide Filled;
    hide OwnerOf;
    var n := |s.stack| - 1;
    var f := s.stack[n];
    FilledByNone(f);
    assert s.stack[..n] + [f] == s.stack;
    if items == [] {
      assert Unit(s, []) == Drain(Pop(s)).info;
    } else if items[0].Entry? {
      var die := items[0].die;
      var (kids, rest) := if die.hasChildren then Children(items[1..]) else ([], items[1..]);
      var t := Tree(die, kids);
      OneEntry(s, die, items[1..]);
      var (siblings, after) := Children(rest);
      var g := WithEnumerator(f, die);
      var next := State(Visit(s.info, t, s.ns, OwnerOf(f)), s.ns, s.stack[..n] + [g]);
      Descend(next, rest);
      GrowFilled(f, t, siblings);
      assert next.stack[..n] == s.stack[..n];
      assert ([t] + siblings)[1..] == siblings;
    }
  }

  lemma FilledByNone(f: Frame)
    ensures Filled(f, []) == f
  {
  }

  /** Reading on from an entry amounts to visiting it with all that is below it, and reading on after it. */
  lemma {:induction false} OneEntry(s: State, die: Die, items: seq<Item>)
    ensures var (kids, rest) := if die.hasChildren then Children(items) else ([], items);
            Unit(Step(s, Entry(die)), items)
            == Unit(State(Visit(s.info, Tree(die, kids), s.ns, Top(s.stack)), s.ns, GrowTop(s.stack, die)), rest)
    decreases |items|, 1
  {
    hide Open;
    hide Close;
    hide Leaf;
    hide WithEnumerator;
    hide Filled;
    hide OwnerOf;
    hide Unit;
    if die.hasChildren {
      var (kids, rest) := Children(items);
      var next := Step(s, Entry(die));
      var stack, f := GrowTop(s.stack, die), FrameOf(die, s.ns);
      assert next.stack == stack + [f] && next.stack[..|stack|] == stack && next.stack[|stack|] == f;
      Descend(next, items);
      FilledKeeps(f, kids);
      assert (stack + [Filled(f, kids)])[..|stack|] == stack;
      assert IsNamespace(die) ==> Inside(die, s.ns)[..|s.ns|] == s.ns;
    }
  }

  lemma FilledKeeps(f: Frame, kids: seq<Tree>)
    ensures Filled(f, kids).pushedNs == f.pushedNs
  {
  }

  /** The loop is structural recursion: from any stream whatever, balanced or not, the parser learns what
      a recursive visit of the trees the stream serialises learns. */
  lemma {:induction false} LoopIsRecursion(info: Info, items: seq<Item>)
    ensures Unit(State(info, [], []), items) == VisitAll(info, Forest(items), [], NOBODY)
    decreases |items|
  {
    hide Open;
    hide Close;
    hide Leaf;
    hide Visit;
    if items != [] {
      if items[0].Entry? {
        var die := items[0].die;
        var (kids, rest) := if die.hasChildren then Children(items[1..]) else ([], items[1..]);
        var t := Tree(die, kids);
        OneEntry(State(info, [], []), die, items[1..]);
        LoopIsRecursion(Visit(info, t, [], NOBODY), rest);
        assert ([t] + Forest(rest))[1..] == Forest(rest);
      } else {
        LoopIsRecursion(info, items[1..]);
      }
    }
  }

  // ------------------------------------------------------------------ the serialisation

  /** The entries in preorder, a null entry after the children of each entry that may have some. */
  function Preorder(ts: seq<Tree>): seq<Item> {
    if ts == [] then []
    else
      [Entry(ts[0].die)] + (if ts[0].die.hasChildren then Preorder(ts[0].kids) + [Null] else []) + Preorder(ts[1..])
  }

  /** Only entries that say so have children. */
  ghost predicate WellFormed(ts: seq<Tree>) {
    ts != [] ==> (!ts[0].die.hasChildren ==> ts[0].kids == []) && WellFormed(ts[0].kids) && WellFormed(ts[1..])
  }

  lemma Associate<T>(a: seq<T>, b: seq<T>, c: seq<T>)
    ensures a + b + c == a + (b + c)
  {
  }

  /** What follows the first entry of a serialised forest. */
  lemma AfterFirst(ts: seq<Tree>, tail: seq<Item>)
    requires ts != []
    ensures var items, after := Preorder(ts) + tail, Preorder(ts[1..]) + tail;
            && items != [] && items[0] == Entry(ts[0].die)
            && items[1..] == if ts[0].die.hasChildren then Preorder(ts[0].kids) + ([Null] + after) else after
  {
    var e, r := [Entry(ts[0].die)], Preorder(ts[1..]);
    var k := if ts[0].die.hasChildren then Preorder(ts[0].kids) + [Null] else [];
    assert Preorder(ts) == e + k + r;
    hide Preorder;
    calc {
      Preorder(ts) + tail;
      (e + k + r) + tail;
      { Associate(e, k, r); Associate(e, k + r, tail); Associate(k, r, tail); }
      e + (k + (r + tail));
    }
    if ts[0].die.hasChildren {
      Associate(Preorder(ts[0].kids), [Null], r + tail);
    } else {
      assert k + (r + tail) == r + tail;
    }
    assert (e + (k + (r + tail)))[1..] == k + (r + tail);
  }

  lemma {:induction false} ChildrenOfPreorder(ts: seq<Tree>, rest: seq<Item>)
    requires WellFormed(ts)
    ensures Children(Preorder(ts) + ([Null] + rest)) == (ts, rest)
  {
    if ts == [] {
      assert Preorder(ts) + ([Null] + rest) == [Null] + rest && ([Null] + rest)[1..] == rest;
    } else {
      AfterFirst(ts, [Null] + rest);
      ChildrenOfPreorder(ts[1..], rest);
      if ts[0].die.hasChildren {
        ChildrenOfPreorder(ts[0].kids, Preorder(ts[1..]) + ([Null] + rest));
      }
      hide Preorder;
      assert [Tree(ts[0].die, ts[0].kids)] + ts[1..] == ts;
    }
  }

  /** Reading a serialised forest gives the forest back. */
  lemma {:induction false} ForestOfPreorder(ts: seq<Tree>)
    requires WellFormed(ts)
    ensures Forest(Preorder(ts)) == ts
  {
    if ts != [] {
      assert Preorder(ts) + [] == Preorder(ts) && Preorder(ts[1..]) + [] == Preorder(ts[1..]);
      AfterFirst(ts, []);
      ForestOfPreorder(ts[1..]);
      if ts[0].die.hasChildren {
        ChildrenOfPreorder(ts[0].kids, Preorder(ts[1..]));
      }
      hide Preorder;
      assert [Tree(ts[0].die, ts[0].kids)] + ts[1..] == ts;
    }
  }

  lemma {:induction false} ChildrenThenNull(items: seq<Item>)
    ensures var (ts, rest) := Children(items);
            || Children(items + [Null]) == (ts, rest + [Null])
            || (rest == [] && Children(items + [Null]) == (ts, []))
    decreases |items|
  {
    var more := items + [Null];
    if items == [] {
      assert more == [Null] && more[1..] == [];
    } else {
      assert more[0] == items[0] && more[1..] == items[1..] + [Null];
      if items[0].Entry? {
        var die := items[0].die;
        var (kids, rest) := if die.hasChildren then Children(items[1..]) else ([], items[1..]);
        ChildrenThenNull(items[1..]);
        ChildrenThenNull(rest);
      }
    }
  }

  /** Null entries missing at the end of a unit change nothing. */
  lemma {:induction false} MissingNull(items: seq<Item>)
    ensures Forest(items + [Null]) == Forest(items)
    decreases |items|
  {
    var more := items + [Null];
    if items == [] {
      assert more == [Null] && more[1..] == [];
    } else {
      assert more[0] == items[0] && more[1..] == items[1..] + [Null];
      if items[0].Entry? {
        var die := items[0].die;
        var (kids, rest) := if die.hasChildren then Children(items[1..]) else ([], items[1..]);
        ChildrenThenNull(items[1..]);
        MissingNull(rest);
      } else {
        MissingNull(items[1..]);
      }
    }
  }

  function Nulls(k: nat): seq<Item> {
    if k == 0 then [] else Nulls(k - 1) + [Null]
  }

  /** The unit of a serialised forest, even with null entries missing at its end, teaches the parser what
      visiting the forest does. */
  lemma {:induction false} UnitOfPreorder(info: Info, ts: seq<Tree>, items: seq<Item>, missing: nat)
    requires WellFormed(ts) && items + Nulls(missing) == Preorder(ts)
    ensures Unit(State(info, [], []), items) == VisitAll(info, ts, [], NOBODY)
  {
    hide Unit;
    hide VisitAll;
    ForestOfPreorder(ts);
    MissingNulls(items, missing);
    LoopIsRecursion(info, items);
  }

  lemma {:induction false} MissingNulls(items: seq<Item>, k: nat)
    ensures Forest(items + Nulls(k)) == Forest(items)
  {
    if k == 0 {
      assert items + [] == items;
    } else {
      MissingNulls(items, k - 1);
      MissingNull(items + Nulls(k - 1));
      assert items + Nulls(k) == items + Nulls(k - 1) + [Null];
    }
  }

  // ------------------------------------------------------------------ who owns what

  function Offs(ts: seq<Tree>): set<nat> {
    if ts == [] then {} else {ts[0].die.off} + Offs(ts[0].kids) + Offs(ts[1..])
  }

  /** No two entries stand at the same offset. */
  ghost predicate Distinct(ts: seq<Tree>) {
    ts != [] ==>
      && ts[0].die.off !in Offs(ts[0].kids)
      && ({ts[0].die.off} + Offs(ts[0].kids)) !! Offs(ts[1..])
      && Distinct(ts[0].kids) && Distinct(ts[1..])
  }

  ghost predicate SameAt<V>(a: map<nat, V>, b: map<nat, V>, p: nat) {
    (p in a <==> p in b) && (p in a ==> a[p] == b[p])
  }

  /** Below an entry, nothing is written at an offset that stands neither below it nor at its owner. */
  lemma {:induction false} Untouched(info: Info, ts: seq<Tree>, ns: seq<string>, owner: Owner, p: nat)
    requires p !in Offs(ts)
    ensures owner.made != Some(p) ==> SameAt(VisitAll(info, ts, ns, owner).structByDie, info.structByDie, p)
    ensures owner.host != Some(p) ==> SameAt(VisitAll(info, ts, ns, owner).arrays, info.arrays, p)
    decreases ts
  {
    if ts != [] {
      var t := ts[0];
      var i := Open(info, t.die, ns, owner);
      var f := FrameOf(t.die, ns);
      OpenElsewhere(info, t.die, ns, owner, p);
      if t.die.hasChildren {
        Untouched(i, t.kids, Inside(t.die, ns), OwnerOf(f), p);
      }
      hide Open;
      hide Commit;
      Untouched(Visit(info, t, ns, owner), ts[1..], ns, owner, p);
    }
  }

  lemma OpenElsewhere(info: Info, die: Die, ns: seq<string>, owner: Owner, p: nat)
    requires p != die.off
    ensures owner.made != Some(p) ==> SameAt(Open(info, die, ns, owner).structByDie, info.structByDie, p)
    ensures owner.host != Some(p) ==> SameAt(Open(info, die, ns, owner).arrays, info.arrays, p)
    ensures Open(info, die, ns, owner).book == info.book && Open(info, die, ns, owner).enums == info.enums
  {
  }

  /** A layout with the members among these entries added, in order. */
  function Members(l: Layout, ts: seq<Tree>): Layout
    decreases |ts|
  {
    if ts == [] then l else Members(if IsMember(ts[0].die) then WithMember(l, ts[0].die) else l, ts[1..])
  }

  /** The last extent given by a subrange among these entries. */
  function Length(n: Option<int>, ts: seq<Tree>): Option<int>
    decreases |ts|
  {
    if ts == [] then n else Length(if IsExtent(ts[0].die) then Extent(ts[0].die) else n, ts[1..])
  }

  lemma OpenAtOwner(info: Info, die: Die, ns: seq<string>, owner: Owner, p: nat)
    requires p != die.off
    ensures owner.made == Some(p) && p in info.structByDie ==>
              var after := Open(info, die, ns, owner).structByDie;
              && p in after
              && after[p] == if IsMember(die) then WithMember(info.structByDie[p], die) else info.structByDie[p]
    ensures owner.host == Some(p) && p in info.arrays ==>
              var after := Open(info, die, ns, owner).arrays;
              p in after && after[p] == if IsExtent(die) then info.arrays[p].(length := Extent(die)) else info.arrays[p]
  {
    hide WithMember;
    hide Extent;
    hide MemberOffset;
  }

  /** A struct gets the members among its own children, and an array the extent of its own subranges:
      nothing further down. */
  lemma {:induction false} OwnChildren(info: Info, ts: seq<Tree>, ns: seq<string>, owner: Owner, p: nat)
    requires p !in Offs(ts)
    ensures owner.made == Some(p) && p in info.structByDie ==>
              var after := VisitAll(info, ts, ns, owner).structByDie;
              p in after && after[p] == Members(info.structByDie[p], ts)
    ensures owner.host == Some(p) && p in info.arrays ==>
              var after := VisitAll(info, ts, ns, owner).arrays;
              p in after && after[p] == info.arrays[p].(length := Length(info.arrays[p].length, ts))
    decreases ts
  {
    if ts != [] {
      var t := ts[0];
      var i, f := Open(info, t.die, ns, owner), FrameOf(t.die, ns);
      OpenAtOwner(info, t.die, ns, owner, p);
      if t.die.hasChildren {
        Untouched(i, t.kids, Inside(t.die, ns), OwnerOf(f), p);
      }
      hide Open;
      hide Commit;
      hide WithMember;
      hide Extent;
      hide IsMember;
      hide IsExtent;
      OwnChildren(Visit(info, t, ns, owner), ts[1..], ns, owner, p);
    }
  }

  // ------------------------------------------------------------------ what is committed, in order

  /** The whole layout of a struct entry in these namespaces: its own members, whatever lies deeper. */
  function LayoutOf(t: Tree, ns: seq<string>): Layout
    requires Named(t.die)
  {
    Members(EmptyLayout(t.die, ns), if t.die.hasChildren then t.kids else [])
  }

  /** The structs of a forest, inner ones before the one around them. */
  function Structs(ts: seq<Tree>, ns: seq<string>): seq<Layout> {
    if ts == [] then []
    else
      var t := ts[0];
      (if t.die.hasChildren then Structs(t.kids, Inside(t.die, ns)) else [])
      + (if IsStruct(t.die) then [LayoutOf(t, ns)] else [])
      + Structs(ts[1..], ns)
  }

  /** The enumerations of a forest that are registered: one with children only if it has enumerators. */
  function Enums(ts: seq<Tree>, ns: seq<string>): seq<Enumeration> {
    if ts == [] then []
    else
      var t := ts[0];
      var values := if t.die.hasChildren then Values(map[], t.kids) else map[];
      (if t.die.hasChildren then Enums(t.kids, Inside(t.die, ns)) else [])
      + (if IsEnum(t.die) && (t.die.hasChildren ==> values != map[])
         then [Enumeration(PathOf(t.die, ns), values)] else [])
      + Enums(ts[1..], ns)
  }

  function CommitAll(book: Book, ls: seq<Layout>): Book {
    if ls == [] then book else Commit(CommitAll(book, ls[..|ls| - 1]), ls[|ls| - 1])
  }

  function AddAll(enums: map<string, map<string, int>>, es: seq<Enumeration>): map<string, map<string, int>> {
    if es == [] then enums else AddValues(AddAll(enums, es[..|es| - 1]), es[|es| - 1])
  }

  lemma {:induction false} CommitAppend(book: Book, a: seq<Layout>, b: seq<Layout>)
    ensures CommitAll(book, a + b) == CommitAll(CommitAll(book, a), b)
  {
    hide Commit;
    if b == [] {
      assert a + b == a;
    } else {
      assert (a + b)[..|a + b| - 1] == a + b[..|b| - 1];
      CommitAppend(book, a, b[..|b| - 1]);
    }
  }

  lemma {:induction false} AddAppend(enums: map<string, map<string, int>>, a: seq<Enumeration>, b: seq<Enumeration>)
    ensures AddAll(enums, a + b) == AddAll(AddAll(enums, a), b)
  {
    hide AddValues;
    if b == [] {
      assert a + b == a;
    } else {
      assert (a + b)[..|a + b| - 1] == a + b[..|b| - 1];
      AddAppend(enums, a, b[..|b| - 1]);
    }
  }

  lemma CommitOne(book: Book, l: Layout)
    ensures CommitAll(book, [l]) == Commit(book, l)
  {
    assert [l][..0] == [];
  }

  lemma AddOne(enums: map<string, map<string, int>>, e: Enumeration)
    ensures AddAll(enums, [e]) == AddValues(enums, e)
  {
    assert [e][..0] == [];
  }

  /** Visiting a forest commits exactly its structs, each with its own members and under the path its
      namespaces give it, and registers exactly its enumerations. */
  lemma {:induction false} VisitCommits(info: Info, ts: seq<Tree>, ns: seq<string>, owner: Owner)
    requires Distinct(ts)
    ensures VisitAll(info, ts, ns, owner).book == CommitAll(info.book, Structs(ts, ns))
    ensures VisitAll(info, ts, ns, owner).enums == AddAll(info.enums, Enums(ts, ns))
    decreases ts, 1
  {
    hide Visit;
    hide CommitAll;
    hide AddAll;
    hide Structs;
    hide Enums;
    if ts != [] {
      var t := ts[0];
      var i := Visit(info, t, ns, owner);
      assert ts[..1] == [t];
      VisitCommitsOne(info, t, ns, owner);
      VisitCommits(i, ts[1..], ns, owner);
      CommitAppend(info.book, Structs([t], ns), Structs(ts[1..], ns));
      AddAppend(info.enums, Enums([t], ns), Enums(ts[1..], ns));
      FirstAndRest(ts, ns);
    } else {
      NothingToCommit(info, ns);
    }
  }

  lemma NothingToCommit(info: Info, ns: seq<string>)
    ensures CommitAll(info.book, Structs([], ns)) == info.book && AddAll(info.enums, Enums([], ns)) == info.enums
  {
  }

  lemma FirstAndRest(ts: seq<Tree>, ns: seq<string>)
    requires ts != []
    ensures Structs(ts, ns) == Structs(ts[..1], ns) + Structs(ts[1..], ns)
    ensures Enums(ts, ns) == Enums(ts[..1], ns) + Enums(ts[1..], ns)
  {
    hide LayoutOf;
    hide PathOf;
    assert ts[..1][1..] == [];
  }

  lemma {:induction false} VisitCommitsOne(info: Info, t: Tree, ns: seq<string>, owner: Owner)
    requires t.die.off !in Offs(t.kids) && Distinct(t.kids)
    ensures Visit(info, t, ns, owner).book == CommitAll(info.book, Structs([t], ns))
    ensures Visit(info, t, ns, owner).enums == AddAll(info.enums, Enums([t], ns))
    decreases t
  {
    hide Commit;
    hide AddValues;
    hide CommitAll;
    hide AddAll;
    hide WithMember;
    hide PathOf;
    var die, f := t.die, FrameOf(t.die, ns);
    var i := Open(info, die, ns, owner);
    OpenElsewhere(info, die, ns, owner, die.off + 1);
    OpenOwn(info, die, ns, owner);
    hide Open;
    var inner := Inside(die, ns);
    if die.hasChildren {
      VisitCommits(i, t.kids, inner, OwnerOf(f));
      OwnChildren(i, t.kids, inner, OwnerOf(f), die.off);
    }
    OneStruct(info.book, t, ns);
    OneEnum(info.enums, t, ns);
  }

  lemma OpenOwn(info: Info, die: Die, ns: seq<string>, owner: Owner)
    ensures IsStruct(die) ==> var made := Open(info, die, ns, owner).structByDie;
              die.off in made && made[die.off] == EmptyLayout(die, ns)
    ensures die.tag == TAG_ARRAY ==> var arrays := Open(info, die, ns, owner).arrays;
              die.off in arrays && arrays[die.off] == ArrayType(die.attrs.typeRef, None)
  {
    hide EmptyLayout;
  }

  lemma OneStruct(book: Book, t: Tree, ns: seq<string>)
    ensures var below := if t.die.hasChildren then CommitAll(book, Structs(t.kids, Inside(t.die, ns))) else book;
            CommitAll(book, Structs([t], ns)) == if IsStruct(t.die) then Commit(below, LayoutOf(t, ns)) else below
  {
    hide LayoutOf;
    hide Commit;
    var a := if t.die.hasChildren then Structs(t.kids, Inside(t.die, ns)) else [];
    var b := if IsStruct(t.die) then [LayoutOf(t, ns)] else [];
    assert [t][1..] == [];
    assert Structs([t], ns) == a + b + [] == a + b;
    CommitAppend(book, a, b);
    if IsStruct(t.die) {
      CommitOne(CommitAll(book, a), LayoutOf(t, ns));
    }
  }

  lemma OneEnum(enums: map<string, map<string, int>>, t: Tree, ns: seq<string>)
    ensures var below := if t.die.hasChildren then AddAll(enums, Enums(t.kids, Inside(t.die, ns))) else enums;
            var values := if t.die.hasChildren then Values(map[], t.kids) else map[];
            AddAll(enums, Enums([t], ns))
            == if IsEnum(t.die) && (t.die.hasChildren ==> values != map[])
               then AddValues(below, Enumeration(PathOf(t.die, ns), values)) else below
  {
    hide PathOf;
    hide AddValues;
    hide Values;
    var a := if t.die.hasChildren then Enums(t.kids, Inside(t.die, ns)) else [];
    var values := if t.die.hasChildren then Values(map[], t.kids) else map[];
    var b := if IsEnum(t.die) && (t.die.hasChildren ==> values != map[])
             then [Enumeration(PathOf(t.die, ns), values)] else [];
    assert [t][1..] == [];
    assert Enums([t], ns) == a + b + [] == a + b;
    AddAppend(enums, a, b);
    if b != [] {
      AddOne(AddAll(enums, a), b[0]);
    }
  }

  /** The arrays of a forest: the element type an entry names, the last extent its own subranges give. */
  function Arrays(ts: seq<Tree>): (m: map<nat, ArrayType>)
    ensures m.Keys <= Offs(ts)
  {
    if ts == [] then map[]
    else
      var t := ts[0];
      var kids := if t.die.hasChildren then t.kids else [];
      (if t.die.hasChildren then Arrays(t.kids) else map[])
      + (if t.die.tag == TAG_ARRAY then map[t.die.off := ArrayType(t.die.attrs.typeRef, Length(None, kids))] else map[])
      + Arrays(ts[1..])
  }

  /** The structs of a forest by offset. */
  function Layouts(ts: seq<Tree>, ns: seq<string>): (m: map<nat, Layout>)
    ensures m.Keys <= Offs(ts)
  {
    if ts == [] then map[]
    else
      var t := ts[0];
      (if t.die.hasChildren then Layouts(t.kids, Inside(t.die, ns)) else map[])
      + (if IsStruct(t.die) then map[t.die.off := LayoutOf(t, ns)] else map[])
      + Layouts(ts[1..], ns)
  }

  /** Where a map has an entry at `p`, another has the same. */
  ghost predicate HasAt<V>(all: map<nat, V>, some: map<nat, V>, p: nat) {
    p in some ==> p in all && all[p] == some[p]
  }

  /** Visiting a forest leaves every array and every struct in it at its offset, complete. */
  lemma {:induction false} VisitBuilds(info: Info, ts: seq<Tree>, ns: seq<string>, owner: Owner, p: nat)
    requires Distinct(ts)
    requires owner.made.Some? ==> owner.made.value !in Offs(ts)
    requires owner.host.Some? ==> owner.host.value !in Offs(ts)
    ensures HasAt(VisitAll(info, ts, ns, owner).arrays, Arrays(ts), p)
    ensures HasAt(VisitAll(info, ts, ns, owner).structByDie, Layouts(ts, ns), p)
    decreases ts, 1
  {
    hide Visit;
    hide Arrays;
    hide Layouts;
    if ts != [] {
      var t := ts[0];
      var i := Visit(info, t, ns, owner);
      FirstAndRestBuilt(ts, ns);
      if p in Offs(ts[1..]) {
        VisitBuilds(i, ts[1..], ns, owner, p);
        assert p !in Offs([t]) by {
          assert [t][1..] == [];
        }
      } else if p in Offs(ts) {
        VisitBuildsOne(info, t, ns, owner, p);
        Untouched(i, ts[1..], ns, owner, p);
      }
    }
  }

  lemma FirstAndRestBuilt(ts: seq<Tree>, ns: seq<string>)
    requires ts != []
    ensures Arrays(ts) == Arrays([ts[0]]) + Arrays(ts[1..])
    ensures Layouts(ts, ns) == Layouts([ts[0]], ns) + Layouts(ts[1..], ns)
  {
    hide LayoutOf;
    hide Length;
    assert [ts[0]][1..] == [];
  }

  /** What a single tree leaves at `p`: its own, or what its children leave there. */
  lemma OneBuilt(t: Tree, ns: seq<string>, p: nat)
    requires t.die.off !in Offs(t.kids)
    ensures p in Arrays([t]) ==>
              if p == t.die.off
              then (t.die.tag == TAG_ARRAY
                    && Arrays([t])[p]
                         == ArrayType(t.die.attrs.typeRef, Length(None, if t.die.hasChildren then t.kids else [])))
              else (t.die.hasChildren && p in Arrays(t.kids) && Arrays([t])[p] == Arrays(t.kids)[p])
    ensures p in Layouts([t], ns) ==>
              if p == t.die.off
              then (IsStruct(t.die) && Layouts([t], ns)[p] == LayoutOf(t, ns))
              else (t.die.hasChildren && p in Layouts(t.kids, Inside(t.die, ns))
                    && Layouts([t], ns)[p] == Layouts(t.kids, Inside(t.die, ns))[p])
  {
    hide LayoutOf;
    hide Length;
    assert [t][1..] == [];
  }

  lemma {:induction false} VisitBuildsOne(info: Info, t: Tree, ns: seq<string>, owner: Owner, p: nat)
    requires t.die.off !in Offs(t.kids) && Distinct(t.kids)
    ensures HasAt(Visit(info, t, ns, owner).arrays, Arrays([t]), p)
    ensures HasAt(Visit(info, t, ns, owner).structByDie, Layouts([t], ns), p)
    decreases t
  {
    hide Commit;
    hide AddValues;
    hide PathOf;
    hide Arrays;
    hide Layouts;
    hide VisitAll;
    var die, f := t.die, FrameOf(t.die, ns);
    var i := Open(info, die, ns, owner);
    OpenOwn(info, die, ns, owner);
    hide Open;
    hide EmptyLayout;
    OneBuilt(t, ns, p);
    if die.hasChildren {
      VisitBuilds(i, t.kids, Inside(die, ns), OwnerOf(f), p);
      OwnChildren(i, t.kids, Inside(die, ns), OwnerOf(f), die.off);
    }
  }

  // ------------------------------------------------------------------ streams whose offsets go up

  /** The entries of a unit stand one after another. */
  ghost predicate GoesUp(items: seq<Item>) {
    forall i, j :: 0 <= i < j < |items| && items[i].Entry? && items[j].Entry? ==> items[i].die.off < items[j].die.off
  }

  ghost predicate Occurs(items: seq<Item>, p: nat) {
    exists i :: 0 <= i < |items| && items[i].Entry? && items[i].die.off == p
  }

  lemma TailGoesUp(items: seq<Item>)
    requires GoesUp(items) && items != []
    ensures GoesUp(items[1..])
    ensures forall q :: Occurs(items[1..], q) ==> Occurs(items, q) && (items[0].Entry? ==> items[0].die.off < q)
    ensures items[0].Entry? ==> Occurs(items, items[0].die.off)
  {
    var tail := items[1..];
    forall q | Occurs(tail, q)
      ensures Occurs(items, q) && (items[0].Entry? ==> items[0].die.off < q)
    {
      var i :| 0 <= i < |tail| && tail[i].Entry? && tail[i].die.off == q;
      assert items[i + 1] == tail[i];
    }
  }

  lemma {:induction false} ChildrenDistinct(items: seq<Item>)
    requires GoesUp(items)
    ensures var (ts, rest) := Children(items);
            && Distinct(ts) && GoesUp(rest)
            && (forall p :: p in Offs(ts) ==> Occurs(items, p))
            && (forall q :: Occurs(rest, q) ==> Occurs(items, q))
            && forall p: nat, q: nat :: p in Offs(ts) && Occurs(rest, q) ==> p < q
    decreases |items|
  {
    hide GoesUp;
    hide Occurs;
    if items != [] {
      TailGoesUp(items);
      if items[0].Entry? {
        var die, tail := items[0].die, items[1..];
        var (kids, rest) := if die.hasChildren then Children(tail) else ([], tail);
        var (siblings, after) := Children(rest);
        ChildrenDistinct(tail);
        ChildrenDistinct(rest);
        assert ([Tree(die, kids)] + siblings)[1..] == siblings;
      }
    }
  }

  lemma {:induction false} ForestDistinct(items: seq<Item>)
    requires GoesUp(items)
    ensures Distinct(Forest(items))
    ensures forall p :: p in Offs(Forest(items)) ==> Occurs(items, p)
    decreases |items|
  {
    if items != [] {
      TailGoesUp(items);
      if items[0].Entry? {
        var die, tail := items[0].die, items[1..];
        var (kids, rest) := if die.hasChildren then Children(tail) else ([], tail);
        ChildrenDistinct(tail);
        ForestDistinct(rest);
        hide GoesUp;
        hide Occurs;
        assert ([Tree(die, kids)] + Forest(rest))[1..] == Forest(rest);
      } else {
        ForestDistinct(items[1..]);
      }
    }
  }

  /** From the items of a unit, in the order in which they stand, the parser commits exactly the structs
      of the forest they serialise, innermost first, and registers exactly its enumerations; and every
      array and every struct is then to be found at its offset, complete. */
  lemma UnitBuilds(info: Info, items: seq<Item>, p: nat)
    requires GoesUp(items)
    ensures var after := Unit(State(info, [], []), items);
            && after.book == CommitAll(info.book, Structs(Forest(items), []))
            && after.enums == AddAll(info.enums, Enums(Forest(items), []))
            && HasAt(after.arrays, Arrays(Forest(items)), p)
            && HasAt(after.structByDie, Layouts(Forest(items), []), p)
  {
    hide Unit;
    hide VisitAll;
    hide Forest;
    LoopIsRecursion(info, items);
    ForestDistinct(items);
    VisitCommits(info, Forest(items), [], NOBODY);
    VisitBuilds(info, Forest(items), [], NOBODY, p);
  }

  // ------------------------------------------------------------------ which layout wins

  predicate Agree(a: Layout, b: Layout) {
    a.fields == b.fields && a.size == b.size
  }

  predicate IsEmpty(l: Layout) {
    l.fields == map[]
  }

  /** No layout for a path among the first `n` has fields. */
  ghost predicate AllEmpty(ls: seq<Layout>, n: nat, path: string)
    requires n <= |ls|
  {
    forall m :: 0 <= m < n && ls[m].path == path ==> IsEmpty(ls[m])
  }

  /** Two layouts for a path contradict each other: both have fields, or neither has and no layout with
      fields came before them. */
  ghost predicate Clash(ls: seq<Layout>, path: string) {
    exists i, j :: 0 <= i < j < |ls| && Contradict(ls, i, j, path)
  }

  ghost predicate Contradict(ls: seq<Layout>, i: nat, j: nat, path: string)
    requires i < j < |ls|
  {
    && ls[i].path == path && ls[j].path == path && !Agree(ls[i], ls[j])
    && ((!IsEmpty(ls[i]) && !IsEmpty(ls[j])) || (IsEmpty(ls[i]) && IsEmpty(ls[j]) && AllEmpty(ls, j, path)))
  }

  /** The layout kept for a path: the first that has fields, or the first if none has. */
  ghost predicate Wins(ls: seq<Layout>, k: nat, path: string)
    requires k < |ls|
  {
    && ls[k].path == path
    && if IsEmpty(ls[k]) then AllEmpty(ls, |ls|, path) && forall m :: 0 <= m < k ==> ls[m].path != path
       else AllEmpty(ls, k, path)
  }

  const EMPTY_BOOK := Book(map[], {})

  /** The index of the layout kept. */
  function Winner(ls: seq<Layout>, path: string): (w: Option<nat>)
    ensures w.Some? ==> w.value < |ls|
  {
    if ls == [] then None
    else
      var n := |ls| - 1;
      var w := Winner(ls[..n], path);
      if ls[n].path == path && (w.None? || (IsEmpty(ls[w.value]) && !IsEmpty(ls[n]))) then Some(n) else w
  }

  lemma {:induction false} WinnerWins(ls: seq<Layout>, path: string)
    ensures match Winner(ls, path)
            case Some(k) => Wins(ls, k, path)
            case None => forall i :: 0 <= i < |ls| ==> ls[i].path != path
  {
    if ls != [] {
      var before := ls[..|ls| - 1];
      WinnerWins(before, path);
      assert forall i :: 0 <= i < |before| ==> before[i] == ls[i];
    }
  }

  lemma {:induction false} WinnerIsKept(ls: seq<Layout>, path: string)
    ensures var structs := CommitAll(EMPTY_BOOK, ls).structs;
            && (path in structs <==> Winner(ls, path).Some?)
            && (path in structs ==> structs[path] == ls[Winner(ls, path).value])
  {
    if ls != [] {
      var n := |ls| - 1;
      WinnerIsKept(ls[..n], path);
      assert path in CommitAll(EMPTY_BOOK, ls[..n]).structs ==>
        ls[..n][Winner(ls[..n], path).value] == ls[Winner(ls[..n], path).value];
    }
  }

  /** A clash is new with the last layout exactly if that contradicts the one kept so far. */
  lemma ClashNext(ls: seq<Layout>, path: string)
    requires ls != []
    ensures var n := |ls| - 1;
            var w := Winner(ls[..n], path);
            Clash(ls, path) <==>
              || Clash(ls[..n], path)
              || (ls[n].path == path && w.Some? && !Agree(ls[w.value], ls[n]) && IsEmpty(ls[w.value]) == IsEmpty(ls[n]))
  {
    hide Agree;
    hide Winner;
    var n := |ls| - 1;
    var before := ls[..n];
    var w := Winner(before, path);
    WinnerWins(before, path);
    forall i, j | 0 <= i < j < n
      ensures Contradict(before, i, j, path) <==> Contradict(ls, i, j, path)
    {
    }
    if ls[n].path == path && w.Some? && !Agree(ls[w.value], ls[n]) && IsEmpty(ls[w.value]) == IsEmpty(ls[n]) {
      assert Contradict(ls, w.value, n, path);
    }
    forall i | 0 <= i < n && Contradict(ls, i, n, path)
      ensures w.Some?
      ensures Agree(ls[w.value], ls[n]) ==> Clash(before, path)
      ensures IsEmpty(ls[w.value]) == IsEmpty(ls[n])
    {
      LastContradicts(ls, i, path);
    }
  }

  lemma LastContradicts(ls: seq<Layout>, i: nat, path: string)
    requires i < |ls| - 1 && Contradict(ls, i, |ls| - 1, path)
    ensures var n := |ls| - 1;
            var w := Winner(ls[..n], path);
            && w.Some? && IsEmpty(ls[w.value]) == IsEmpty(ls[n])
            && (Agree(ls[w.value], ls[n]) ==> Clash(ls[..n], path))
  {
    hide Winner;
    var n := |ls| - 1;
    var before := ls[..n];
    WinnerWins(before, path);
    assert before[i] == ls[i];
    var w := Winner(before, path).value;
    assert before[w] == ls[w];
    if Agree(ls[w], ls[n]) {
      assert w < i;
      assert Contradict(before, w, i, path);
    }
  }

  lemma {:induction false} ConflictMeansClash(ls: seq<Layout>, path: string)
    ensures path in CommitAll(EMPTY_BOOK, ls).conflicts <==> Clash(ls, path)
  {
    if ls != [] {
      var n := |ls| - 1;
      var w := Winner(ls[..n], path);
      ConflictMeansClash(ls[..n], path);
      ClashNext(ls, path);
      WinnerIsKept(ls[..n], path);
      assert w.Some? ==> ls[..n][w.value] == ls[w.value];
    }
  }

  /** After any layouts have been committed, a path has the first of its layouts with fields, or the first
      of them if none has any; and it is in conflict exactly if two of its layouts contradict each other. */
  lemma ConflictIff(ls: seq<Layout>, path: string)
    ensures var book := CommitAll(EMPTY_BOOK, ls);
            && (path in book.structs <==> exists i :: 0 <= i < |ls| && ls[i].path == path)
            && (forall k :: 0 <= k < |ls| && Wins(ls, k, path) ==> path in book.structs && book.structs[path] == ls[k])
            && (path in book.conflicts <==> Clash(ls, path))
  {
    hide CommitAll;
    hide Winner;
    WinnerWins(ls, path);
    WinnerIsKept(ls, path);
    ConflictMeansClash(ls, path);
  }
}
