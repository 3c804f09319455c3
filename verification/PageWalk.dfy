/** walk_pagetable as a whole: what it lists, said in the numbers of the Sv39 format. */
module PageWalk {
  import opened Wrappers
  import opened Arithmetic
  import opened LittleEndian
  import opened RamImage
  import opened PageTable

  // ------------------------------------------------------------------ the format of the tables, in numbers

  /** An entry made of ten flag bits, a page number of 44 bits, and what stands above. */
  function Composed(above: nat, page: nat, flags: nat): nat {
    above * 0x40_0000_0000_0000 + page * 0x400 + flags
  }

  lemma EntryParts(above: nat, page: nat, flags: nat)
    requires page < 0x1000_0000_0000 && flags < 1024
    ensures Target(Composed(above, page, flags)) == page * 4096
    ensures Composed(above, page, flags) % 1024 == flags
    ensures IsValid(Composed(above, page, flags)) <==> flags % 2 == 1
    ensures IsLeaf(Composed(above, page, flags)) <==> flags / 2 % 8 != 0
  {
    var pte, high := Composed(above, page, flags), above * 0x1000_0000_0000 + page;
    assert pte == high * 1024 + flags;
    DivRest(high, 1024, flags);
    DivRest(above, 0x1000_0000_0000, page);
    LowFlags(high, flags);
    hide Composed;
  }

  lemma LowFlags(high: nat, flags: nat)
    ensures (high * 1024 + flags) % 2 == flags % 2 && (high * 1024 + flags) / 2 % 8 == flags / 2 % 8
  {
    var q, r := flags / 2, flags % 2;
    DivRest(high * 512 + q, 2, r);
    assert (high * 512 + q) * 2 + r == high * 1024 + flags;
    var p, s := q / 8, q % 8;
    DivRest(high * 64 + p, 8, s);
    assert (high * 64 + p) * 8 + s == high * 512 + q;
  }

  lemma EntryMadeOf(pte: nat)
    ensures pte == Composed(pte / 0x40_0000_0000_0000, pte / 1024 % 0x1000_0000_0000, pte % 1024)
  {
    var high := pte / 1024;
    assert high / 0x1000_0000_0000 == pte / 0x40_0000_0000_0000;
    assert high == high / 0x1000_0000_0000 * 0x1000_0000_0000 + high % 0x1000_0000_0000;
  }

  /** Entry `i` of the table at `table` holds this page number and these flags. */
  ghost predicate Holds(ram: Ram, table: nat, i: nat, page: nat, flags: nat)
    requires ram.Valid()
  {
    && i < 512 && page < 0x1000_0000_0000 && flags < 1024
    && exists above: nat :: ram.U64(table + i * 8) == Some(Composed(above, page, flags))
  }

  /** It is valid, with none of R, W and X: it points to the next table. */
  ghost predicate PointsTo(ram: Ram, table: nat, i: nat, page: nat)
    requires ram.Valid()
  {
    exists flags: nat :: flags % 16 == 1 && Holds(ram, table, i, page, flags)
  }

  /** It is valid, with one of R, W and X at least: it maps a page. */
  ghost predicate MapsPage(ram: Ram, table: nat, i: nat, pa: nat, flags: nat)
    requires ram.Valid()
  {
    pa % 4096 == 0 && flags % 2 == 1 && flags % 16 != 1 && Holds(ram, table, i, pa / 4096, flags)
  }

  /** A mapping of the tables under a root: 1 GiB by an entry of the root, 2 MiB or 4 KiB by one of a table
      one or two pointers away. Bits 30, 21 and 12 of the address and the eight bits above each select the entry. */
  ghost predicate Listed(ram: Ram, root: nat, m: Mapping)
    requires ram.Valid()
  {
    var i2, i1, i0 := m.va / 0x4000_0000, m.va / 0x20_0000 % 512, m.va / 0x1000 % 512;
    || (m.level == 2 && m.va % 0x4000_0000 == 0 && MapsPage(ram, root, i2, m.pa, m.flags))
    || (m.level == 1 && m.va % 0x20_0000 == 0 &&
        exists p1: nat :: PointsTo(ram, root, i2, p1) && MapsPage(ram, p1 * 4096, i1, m.pa, m.flags))
    || (m.level == 0 && m.va % 0x1000 == 0 &&
        exists p1: nat, p0: nat :: PointsTo(ram, root, i2, p1) && PointsTo(ram, p1 * 4096, i1, p0)
                                   && MapsPage(ram, p0 * 4096, i0, m.pa, m.flags))
  }

  /** The root and the tables one and two pointers away from it. */
  ghost predicate UnderRoot(ram: Ram, root: nat, t: nat)
    requires ram.Valid()
  {
    || t == root
    || (exists i2: nat, p1: nat :: PointsTo(ram, root, i2, p1) && t == p1 * 4096)
    || (exists i2: nat, p1: nat, i1: nat, p0: nat ::
          PointsTo(ram, root, i2, p1) && PointsTo(ram, p1 * 4096, i1, p0) && t == p0 * 4096)
  }

  lemma Spans()
    ensures Span(0) == 0x1000 && Span(1) == 0x20_0000 && Span(2) == 0x4000_0000 && Span(3) == 0x80_0000_0000
  {
  }

  /** What an entry says, if it can be read. */
  lemma Reads(ram: Ram, table: nat, i: nat)
    requires ram.Valid() && i < 512
    ensures var word := ram.U64(table + i * 8);
            && (forall page: nat, flags: nat :: Holds(ram, table, i, page, flags) ==>
                  word.Some? && Target(word.value) == page * 4096 && flags == word.value % 1024)
            && (word.Some? ==> Holds(ram, table, i, Target(word.value) / 4096, word.value % 1024))
            && (word.Some? ==> Target(word.value) % 4096 == 0)
  {
    var word := ram.U64(table + i * 8);
    forall page: nat, flags: nat | Holds(ram, table, i, page, flags)
      ensures word.Some? && Target(word.value) == page * 4096 && flags == word.value % 1024
    {
      var above: nat :| ram.U64(table + i * 8) == Some(Composed(above, page, flags));
      EntryParts(above, page, flags);
    }
    if word.Some? {
      var pte := word.value;
      EntryMadeOf(pte);
      EntryParts(pte / 0x40_0000_0000_0000, pte / 1024 % 0x1000_0000_0000, pte % 1024);
    }
  }

  lemma FlagBits(pte: nat)
    ensures IsValid(pte) <==> pte % 1024 % 2 == 1
    ensures IsValid(pte) && !IsLeaf(pte) <==> pte % 1024 % 16 == 1
  {
    var f := pte % 1024;
    assert pte == 2 * (512 * (pte / 1024)) + f;
    assert pte / 2 == 8 * (64 * (pte / 1024)) + f / 2;
  }

  /** The same for the two kinds of entries that lead on. */
  lemma Leads(ram: Ram, table: nat, i: nat)
    requires ram.Valid() && i < 512
    ensures var word := ram.U64(table + i * 8);
            && (forall page: nat :: PointsTo(ram, table, i, page) <==>
                  word.Some? && IsValid(word.value) && !IsLeaf(word.value) && Target(word.value) == page * 4096)
            && (forall pa: nat, flags: nat :: MapsPage(ram, table, i, pa, flags) <==>
                  word.Some? && IsValid(word.value) && IsLeaf(word.value)
                  && Target(word.value) == pa && word.value % 1024 == flags)
  {
    hide Target;
    hide IsLeaf;
    hide IsValid;
    hide Holds;
    Reads(ram, table, i);
    var word := ram.U64(table + i * 8);
    if word.Some? {
      FlagBits(word.value);
    }
  }

  lemma Indices(va: nat)
    requires va < 0x80_0000_0000
    ensures Vpn(va, 2) == va / 0x4000_0000 && Vpn(va, 1) == va / 0x20_0000 % 512 && Vpn(va, 0) == va / 0x1000 % 512
  {
    Spans();
    hide Span;
  }

  /** Resolving unrolled once. */
  lemma ResolveStep(ram: Ram, table: nat, level: nat, va: nat, m: Mapping)
    requires ram.Valid()
    ensures Resolve(ram, table, level, va) == Some(m) <==>
            || (MapsPage(ram, table, Vpn(va, level), m.pa, m.flags) && m.level == level
                && m.va == va - va % Span(level))
            || (level > 0 && exists p: nat :: PointsTo(ram, table, Vpn(va, level), p)
                                              && Resolve(ram, p * 4096, level - 1, va) == Some(m))
  {
    hide Span;
    hide Vpn;
    hide PointsTo;
    hide MapsPage;
    hide Target;
    hide IsValid;
    hide IsLeaf;
    Leads(ram, table, Vpn(va, level));
    var word := ram.U64(table + Vpn(va, level) * 8);
    if level > 0 && word.Some? && IsValid(word.value) && !IsLeaf(word.value) {
      PageOf(word.value);
      assert PointsTo(ram, table, Vpn(va, level), Target(word.value) / 4096);
    }
  }

  lemma PageOf(pte: nat)
    ensures Target(pte) == Target(pte) / 4096 * 4096
  {
  }

  lemma Level0(ram: Ram, table: nat, m: Mapping)
    requires ram.Valid() && m.va < 0x80_0000_0000
    ensures Resolve(ram, table, 0, m.va) == Some(m) <==>
            m.level == 0 && m.va % 0x1000 == 0 && MapsPage(ram, table, m.va / 0x1000 % 512, m.pa, m.flags)
  {
    ResolveStep(ram, table, 0, m.va, m);
    Indices(m.va);
    Spans();
    hide Span;
    hide Vpn;
    hide MapsPage;
    hide Resolve;
  }

  lemma Level1(ram: Ram, table: nat, m: Mapping)
    requires ram.Valid() && m.va < 0x80_0000_0000
    ensures Resolve(ram, table, 1, m.va) == Some(m) <==>
            || (m.level == 1 && m.va % 0x20_0000 == 0 && MapsPage(ram, table, m.va / 0x20_0000 % 512, m.pa, m.flags))
            || (m.level == 0 && m.va % 0x1000 == 0 &&
                exists p0: nat :: PointsTo(ram, table, m.va / 0x20_0000 % 512, p0)
                                  && MapsPage(ram, p0 * 4096, m.va / 0x1000 % 512, m.pa, m.flags))
  {
    hide Span;
    hide Vpn;
    hide MapsPage;
    hide PointsTo;
    hide Resolve;
    ResolveStep(ram, table, 1, m.va, m);
    Indices(m.va);
    Spans();
    forall p0: nat
      ensures Resolve(ram, p0 * 4096, 0, m.va) == Some(m) <==>
              m.level == 0 && m.va % 0x1000 == 0
              && MapsPage(ram, p0 * 4096, m.va / 0x1000 % 512, m.pa, m.flags)
    {
      Level0(ram, p0 * 4096, m);
    }
  }

  /** What the enumerator's rule finds at the first address of a mapping is that mapping exactly if the
      tables hold it as the format says. */
  lemma ListedIsResolved(ram: Ram, root: nat, m: Mapping)
    requires ram.Valid() && m.va < 0x80_0000_0000
    ensures Listed(ram, root, m) <==> Resolve(ram, root, 2, m.va) == Some(m)
  {
    hide Span;
    hide Vpn;
    hide MapsPage;
    hide PointsTo;
    hide Resolve;
    ResolveStep(ram, root, 2, m.va, m);
    Indices(m.va);
    Spans();
    forall p1: nat
      ensures Resolve(ram, p1 * 4096, 1, m.va) == Some(m) <==>
            || (m.level == 1 && m.va % 0x20_0000 == 0
                && MapsPage(ram, p1 * 4096, m.va / 0x20_0000 % 512, m.pa, m.flags))
            || (m.level == 0 && m.va % 0x1000 == 0 &&
                exists p0: nat :: PointsTo(ram, p1 * 4096, m.va / 0x20_0000 % 512, p0)
                                  && MapsPage(ram, p0 * 4096, m.va / 0x1000 % 512, m.pa, m.flags))
    {
      Level1(ram, p1 * 4096, m);
    }
  }

  lemma MetStep(ram: Ram, table: nat, level: nat, va: nat, t: nat)
    requires ram.Valid()
    ensures Met(ram, table, level, true, va, t) <==>
            || t == table
            || (level > 0 && exists p: nat :: PointsTo(ram, table, Vpn(va, level), p)
                                              && Met(ram, p * 4096, level - 1, true, va, t))
  {
    hide Span;
    hide Vpn;
    hide PointsTo;
    hide MapsPage;
    hide Target;
    hide IsValid;
    hide IsLeaf;
    Leads(ram, table, Vpn(va, level));
    var word := ram.U64(table + Vpn(va, level) * 8);
    if level > 0 && word.Some? && IsValid(word.value) && !IsLeaf(word.value) {
      PageOf(word.value);
      assert PointsTo(ram, table, Vpn(va, level), Target(word.value) / 4096);
      assert TablesFrom(ram, table, level, va) == [table] + TablesFrom(ram, Target(word.value), level - 1, va);
    } else {
      assert TablesFrom(ram, table, level, va) == [table];
    }
  }

  lemma Met1(ram: Ram, table: nat, va: nat, t: nat)
    requires ram.Valid() && va < 0x80_0000_0000
    ensures Met(ram, table, 1, true, va, t) <==>
            t == table || exists p: nat :: PointsTo(ram, table, va / 0x20_0000 % 512, p) && t == p * 4096
  {
    hide Vpn;
    hide PointsTo;
    hide Met;
    Indices(va);
    MetStep(ram, table, 1, va, t);
    forall p: nat
      ensures Met(ram, p * 4096, 0, true, va, t) <==> t == p * 4096
    {
      MetStep(ram, p * 4096, 0, va, t);
    }
  }

  lemma Met2(ram: Ram, root: nat, va: nat, t: nat)
    requires ram.Valid() && va < 0x80_0000_0000
    ensures Met(ram, root, 2, true, va, t) <==>
            || t == root
            || exists p1: nat :: PointsTo(ram, root, va / 0x4000_0000, p1) && Met(ram, p1 * 4096, 1, true, va, t)
  {
    hide Vpn;
    hide PointsTo;
    hide Met;
    Indices(va);
    MetStep(ram, root, 2, va, t);
  }

  lemma EntryPointing(ram: Ram, table: nat, i: nat, page: nat)
    requires ram.Valid() && PointsTo(ram, table, i, page)
    ensures i < 512
  {
  }

  /** The tables met on the way to some address of the 39-bit space are those under the root. */
  lemma UnderRootIsMet(ram: Ram, root: nat, t: nat)
    requires ram.Valid()
    ensures UnderRoot(ram, root, t) <==> MetWithin(ram, root, 2, true, 0, 0x80_0000_0000, t)
  {
    hide Vpn;
    hide PointsTo;
    hide Met;
    if MetWithin(ram, root, 2, true, 0, 0x80_0000_0000, t) {
      var va: nat :| va < 0x80_0000_0000 && Met(ram, root, 2, true, va, t);
      Met2(ram, root, va, t);
      if t != root {
        var p1: nat :| PointsTo(ram, root, va / 0x4000_0000, p1) && Met(ram, p1 * 4096, 1, true, va, t);
        Met1(ram, p1 * 4096, va, t);
      }
    }
    if UnderRoot(ram, root, t) {
      if t == root {
        Met2(ram, root, 0, t);
      } else if i2: nat, p1: nat :| PointsTo(ram, root, i2, p1) && t == p1 * 4096 {
        EntryPointing(ram, root, i2, p1);
        var va := i2 * 0x4000_0000;
        Met2(ram, root, va, t);
        Met1(ram, p1 * 4096, va, t);
      } else {
        var i2: nat, p1: nat, i1: nat, p0: nat :|
          PointsTo(ram, root, i2, p1) && PointsTo(ram, p1 * 4096, i1, p0) && t == p0 * 4096;
        EntryPointing(ram, root, i2, p1);
        EntryPointing(ram, p1 * 4096, i1, p0);
        var va := i2 * 0x4000_0000 + i1 * 0x20_0000;
        assert va / 0x4000_0000 == i2 && va / 0x20_0000 % 512 == i1;
        Met2(ram, root, va, t);
        Met1(ram, p1 * 4096, va, t);
      }
    }
  }

  function Limit(ram: Ram, maxPages: Option<nat>): nat {
    match maxPages
    case Some(n) => n
    case None => Max(20000, ram.size / PGSIZE * 4)
  }

  /** An error has its reason: there were more mappings, or more tables, than allowed, or there is a table
      under the root that was not observed. */
  ghost predicate Explained(ram: Ram, root: nat, limit: nat, maps: seq<Mapping>, ptpages: seq<nat>,
                            err: Option<Error>)
    requires ram.Valid()
  {
    match err
    case None => true
    case Some(TooManyMappings) => |maps| > limit
    case Some(TooManyTables) => |ptpages| > limit
    case Some(Unobserved(t)) => UnderRoot(ram, root, t) && !Observed(ram, t)
    case _ => false
  }

  lemma WalkedIsListed(ram: Ram, root: nat, limit: nat, maps: seq<Mapping>, ptpages: seq<nat>, err: Option<Error>)
    requires ram.Valid()
    requires Walked(ram, limit, root, 2, 0, Span(3), Progress([], [], None), Progress(maps, ptpages, err))
    ensures forall m :: m in maps ==> m.va < 0x80_0000_0000 && Listed(ram, root, m)
    ensures err == None ==> forall m: Mapping :: m.va < 0x80_0000_0000 && Listed(ram, root, m) ==> m in maps
  {
    hide Span;
    hide Listed;
    hide Resolve;
    Spans();
    assert maps[0..] == maps;
    forall m | m in maps
      ensures m.va < 0x80_0000_0000 && Listed(ram, root, m)
    {
      assert Resolve(ram, root, 2, m.va) == Some(m);
      ListedIsResolved(ram, root, m);
    }
    forall m: Mapping | err == None && m.va < 0x80_0000_0000 && Listed(ram, root, m)
      ensures m in maps
    {
      ListedIsResolved(ram, root, m);
    }
  }

  lemma TabledIsExplained(ram: Ram, root: nat, limit: nat, maps: seq<Mapping>, ptpages: seq<nat>, err: Option<Error>)
    requires ram.Valid()
    requires Tabled(ram, limit, root, 2, true, 0, Span(3), Progress([], [], None), Progress(maps, ptpages, err))
    ensures forall t :: t in ptpages ==> UnderRoot(ram, root, t) && Observed(ram, t)
    ensures err == None ==> forall t: nat :: UnderRoot(ram, root, t) ==> t in ptpages
    ensures Explained(ram, root, limit, maps, ptpages, err)
  {
    hide Span;
    hide UnderRoot;
    hide Met;
    hide Observed;
    Spans();
    assert ptpages[0..] == ptpages;
    forall t: nat
      ensures UnderRoot(ram, root, t) <==> MetWithin(ram, root, 2, true, 0, 0x80_0000_0000, t)
    {
      UnderRootIsMet(ram, root, t);
    }
  }

  /** walk_pagetable. Whatever the memory holds, each mapping listed is one that the tables hold in the
      format of Sv39, and each address of it translates to it; without an error all of them are listed,
      from every table there is; mappings ascend and do not overlap; the tables gone through are observed
      tables under the root; an error has its reason; and even a self-referencing table stays within the limits. */
  method WalkPagetable(ram: Ram, rootPa: nat, machine: nat, maxPages: Option<nat>)
    returns (maps: seq<Mapping>, ptpages: seq<nat>, err: Option<Error>)
    requires ram.Valid()
    ensures machine != 243 ==> maps == [] && ptpages == [] && err == Some(NotRiscv)
    ensures machine == 243 && rootPa == 0 ==> maps == [] && ptpages == [] && err == Some(NullRoot)
    ensures forall m :: m in maps ==> m.va < 0x80_0000_0000 && Listed(ram, rootPa, m)
    ensures err == None ==> forall m: Mapping :: m.va < 0x80_0000_0000 && Listed(ram, rootPa, m) ==> m in maps
    ensures forall t :: t in ptpages ==> UnderRoot(ram, rootPa, t) && Observed(ram, t)
    ensures err == None ==> forall t: nat :: UnderRoot(ram, rootPa, t) ==> t in ptpages
    ensures machine == 243 && rootPa != 0 ==>
              Explained(ram, rootPa, if maxPages.Some? then maxPages.value
                                     else if ram.size / 4096 * 4 > 20000 then ram.size / 4096 * 4
                                     else 20000, maps, ptpages, err)
    ensures forall m, va :: m in maps && m.va <= va < m.va + Span(m.level) ==> Resolve(ram, rootPa, 2, va) == Some(m)
    ensures err == None ==>
              forall va :: 0 <= va < Span(3) && Resolve(ram, rootPa, 2, va).Some? ==>
                Resolve(ram, rootPa, 2, va).value in maps
    ensures forall i, j :: 0 <= i < j < |maps| ==> maps[i].va + Span(maps[i].level) <= maps[j].va
    ensures forall m :: m in maps ==> m.va + Span(m.level) <= Span(3) && m.level <= 2
    ensures |ptpages| <= Limit(ram, maxPages) + 1
    ensures |maps| <= Limit(ram, maxPages) + 3 * ENTRIES
  {
    hide Resolve;
    hide Span;
    hide Listed;
    hide UnderRoot;
    hide Observed;
    if machine != EM_RISCV {
      return [], [], Some(NotRiscv);
    }
    var limit := Limit(ram, maxPages);
    if rootPa == 0 {
      return [], [], Some(NullRoot);
    }
    var w := new Walker(ram, limit);
    assert 0 % Span(3) == 0;
    w.Rec(rootPa, 2, 0);
    maps, ptpages, err := w.maps, w.ptpages, w.err;
    assert maps[0..] == maps && ptpages[0..] == ptpages;
    WalkedIsListed(ram, rootPa, limit, maps, ptpages, err);
    TabledIsExplained(ram, rootPa, limit, maps, ptpages, err);
  }

  // ------------------------------------------------------------------ reserved encodings, in numbers

  lemma Commuted(a: nat, b: nat, c: nat)
    ensures a * b * c == b * (a * c)
  {
  }

  lemma BitBelow(high: nat, flags: nat, power: nat, half: nat)
    requires power > 0 && half * power == 512
    ensures Bit(high * 1024 + flags, power) <==> flags / power % 2 == 1
  {
    var q, r := flags / power, flags % power;
    var x := half * high;
    Commuted(half, high, power);
    assert x * power == high * 512;
    assert (2 * x + q) * power + r == high * 1024 + flags by {
      assert q * power + r == flags;
      assert (2 * x + q) * power == 2 * (x * power) + q * power;
    }
    DivRest(2 * x + q, power, r);
  }

  lemma PagesOver(page: nat, n: nat)
    requires n > 0
    ensures page * 4096 % (n * 4096) == page % n * 4096
  {
    var q, r := page / n, page % n;
    Commuted(q, n, 4096);
    Commuted(n, q, 4096);
    assert page == q * n + r;
    assert page * 4096 == q * (n * 4096) + r * 4096;
    DivRest(q, n * 4096, r * 4096);
  }

  lemma LargeAligned(page: nat, level: nat)
    requires level <= 2
    ensures page * 4096 % Span(level) != 0 <==>
            (level == 1 && page % 512 > 0) || (level == 2 && page % 262144 > 0)
  {
    Spans();
    hide Span;
    PagesOver(page, 1);
    PagesOver(page, 512);
    PagesOver(page, 262144);
  }

  /** Which entries are reserved, by their parts: bits 1, 2 and 3 of the flags are R, W and X, bits 4, 6 and 7 U, A
      and D; a page of 2 MiB or 1 GiB starts at a multiple of 512 or 512 * 512 pages. */
  lemma ReservedIs(above: nat, page: nat, flags: nat, level: nat)
    requires page < 0x1000_0000_0000 && flags < 1024 && level <= 2
    ensures Reserved(Composed(above, page, flags), level) <==>
            var r, w, x := flags / 2 % 2 == 1, flags / 4 % 2 == 1, flags / 8 % 2 == 1;
            || (w && !r)
            || above > 0
            || (!r && !x && (flags / 16 % 2 == 1 || flags / 64 % 2 == 1 || flags / 128 % 2 == 1))
            || ((r || x) && ((level == 1 && page % 512 > 0) || (level == 2 && page % 262144 > 0)))
  {
    hide Bit;
    hide Target;
    hide Span;
    var pte, high := Composed(above, page, flags), above * 0x1000_0000_0000 + page;
    assert pte == high * 1024 + flags;
    BitBelow(high, flags, 2, 256);
    BitBelow(high, flags, 4, 128);
    BitBelow(high, flags, 8, 64);
    BitBelow(high, flags, 16, 32);
    BitBelow(high, flags, 64, 8);
    BitBelow(high, flags, 128, 4);
    EntryParts(above, page, flags);
    DivRest(above, 0x40_0000_0000_0000, page * 1024 + flags);
    LargeAligned(page, level);
    hide Composed;
  }
}
