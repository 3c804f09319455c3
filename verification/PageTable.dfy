/** walk_pagetable of nodefusion/host/guest.py: the depth-first enumeration of an Sv39 page table,
    against address-by-address translation. */
module PageTable {
  import opened Wrappers
  import opened Arithmetic
  import opened LittleEndian
  import opened RamImage

  const EM_RISCV := 243
  const ENTRIES := 512

  /** The bytes one entry of a table at this level maps: 4 KiB, 2 MiB, 1 GiB; Span(3) is the whole
      39-bit address space. */
  function Span(level: nat): (s: nat)
    ensures s > 0
  {
    if level == 0 then PGSIZE else ENTRIES * Span(level - 1)
  }

  // Page-table entries (Privileged Architecture, section 4.4): V is bit 0, R, W and X are bits 1 to
  // 3, the flags are the low 10 bits, the page number is bits 10 to 53.
  predicate IsValid(pte: nat) { pte % 2 == 1 }

  predicate IsLeaf(pte: nat) { pte / 2 % 8 != 0 }

  function Target(pte: nat): nat { pte / 1024 % 0x1000_0000_0000 * PGSIZE }

  datatype Mapping = Mapping(va: nat, pa: nat, flags: nat, level: nat)

  /** The index of the entry for `va` in a table at this level. */
  function Vpn(va: nat, level: nat): (i: nat)
    ensures i < ENTRIES
  {
    va / Span(level) % ENTRIES
  }

  /** Translate one address from a table on, taking every entry with R, W or X set for a leaf: the
      mapping the address belongs to, or None where the translation ends without one. */
  function Resolve(ram: Ram, table: nat, level: nat, va: nat): Option<Mapping>
    requires ram.Valid()
    decreases level
  {
    match ram.U64(table + Vpn(va, level) * 8)
    case None => None
    case Some(pte) =>
      if !IsValid(pte) then None
      else if IsLeaf(pte) then Some(Mapping(va - va % Span(level), Target(pte), pte % 1024, level))
      else if level == 0 then None
      else Resolve(ram, Target(pte), level - 1, va)
  }

  datatype Error = NotRiscv | NullRoot | TooManyMappings | TooManyTables | Unobserved(pa: nat) | NeverSeen(pa: nat)

  // ------------------------------------------------------------------ address arithmetic

  lemma InEntry(level: nat, vaBase: nat, i: nat, va: nat)
    requires vaBase % Span(level + 1) == 0 && i < ENTRIES
    requires vaBase + i * Span(level) <= va < vaBase + (i + 1) * Span(level)
    ensures Vpn(va, level) == i
    ensures va - va % Span(level) == vaBase + i * Span(level)
  {
    var s := Span(level);
    var q := vaBase / Span(level + 1);
    assert vaBase == q * ENTRIES * s;
    var r := va - vaBase - i * s;
    assert (i + 1) * s == i * s + s;
    assert va == (q * ENTRIES + i) * s + r by {
      assert (q * ENTRIES + i) * s == q * ENTRIES * s + i * s;
    }
    DivRest(q * ENTRIES + i, s, r);
    DivRest(q, ENTRIES, i);
  }

  lemma EntryAligned(level: nat, vaBase: nat, i: nat)
    requires vaBase % Span(level + 1) == 0 && i <= ENTRIES
    ensures (vaBase + i * Span(level)) % Span(level) == 0
    ensures i < ENTRIES ==> vaBase + i * Span(level) + Span(level) <= vaBase + Span(level + 1)
    ensures vaBase + ENTRIES * Span(level) == vaBase + Span(level + 1)
  {
    var s := Span(level);
    var q := vaBase / Span(level + 1);
    assert vaBase == q * ENTRIES * s;
    assert vaBase + i * s == (q * ENTRIES + i) * s + 0 by {
      assert (q * ENTRIES + i) * s == q * ENTRIES * s + i * s;
    }
    DivRest(q * ENTRIES + i, s, 0);
    if i < ENTRIES {
      MulMono(i + 1, ENTRIES, s);
      assert (i + 1) * s == i * s + s;
    }
  }

  /** Some entry covers each address of the table. */
  lemma EntryOf(level: nat, vaBase: nat, va: nat) returns (k: nat)
    requires vaBase % Span(level + 1) == 0 && vaBase <= va < vaBase + Span(level + 1)
    ensures k < ENTRIES && vaBase + k * Span(level) <= va < vaBase + (k + 1) * Span(level)
  {
    EntryAligned(level, vaBase, ENTRIES);
    k := Quotient(va - vaBase, Span(level), ENTRIES);
    hide Span;
  }

  lemma Quotient(x: nat, s: nat, n: nat) returns (k: nat)
    requires s > 0 && x < n * s
    ensures k < n && k * s <= x < (k + 1) * s
  {
    k := x / s;
    assert (k + 1) * s == k * s + s;
    if k >= n {
      MulMono(n, k, s);
    }
  }

  /** The addresses of entry `i` of a table that maps from `vaBase` on are those of the table's that select
      it. */
  lemma EntryRange(level: nat, vaBase: nat, i: nat, va: nat)
    requires vaBase % Span(level + 1) == 0 && i < ENTRIES && vaBase <= va < vaBase + Span(level + 1)
    ensures Vpn(va, level) == i <==> vaBase + i * Span(level) <= va < vaBase + (i + 1) * Span(level)
    ensures Vpn(va, level) == i ==> va - va % Span(level) == vaBase + i * Span(level)
  {
    var k := EntryOf(level, vaBase, va);
    InEntry(level, vaBase, k, va);
    if vaBase + i * Span(level) <= va < vaBase + (i + 1) * Span(level) {
      InEntry(level, vaBase, i, va);
    }
    hide Span;
    hide Vpn;
  }

  /** Every word of an observed page can be read. */
  lemma WordsReadable(ram: Ram, pa: nat, i: nat)
    requires ram.Valid() && ram.Blob(pa, PGSIZE).Some? && i < ENTRIES
    ensures ram.U64(pa + i * 8).Some?
    ensures ram.PageSeen(FloorDiv(pa - ram.base, PGSIZE))
  {
    var off := pa - ram.base;
    forall idx | FloorDiv(off + i * 8, PGSIZE) <= idx <= FloorDiv(off + i * 8 + 7, PGSIZE)
      ensures ram.PageSeen(idx)
    {
      assert FloorDiv(off, PGSIZE) <= idx <= FloorDiv(off + PGSIZE - 1, PGSIZE);
    }
  }

  // ------------------------------------------------------------------ what a stretch of mappings means

  /** The mappings are sound for the table, lie in [from, to), and ascend without overlap. */
  ghost predicate Sound(ram: Ram, table: nat, level: nat, from: nat, to: nat, ms: seq<Mapping>)
    requires ram.Valid()
  {
    && from <= to
    && (forall m :: m in ms ==>
         from <= m.va && m.va + Span(m.level) <= to && m.va % Span(m.level) == 0 && m.level <= level)
    && (forall m, va :: m in ms && m.va <= va < m.va + Span(m.level) ==> Resolve(ram, table, level, va) == Some(m))
    && (forall i, j :: 0 <= i < j < |ms| ==> ms[i].va + Span(ms[i].level) <= ms[j].va)
  }

  /** Every address of [from, to) that translates at all belongs to one of the mappings. */
  ghost predicate Complete(ram: Ram, table: nat, level: nat, from: nat, to: nat, ms: seq<Mapping>)
    requires ram.Valid()
  {
    forall va :: from <= va < to && Resolve(ram, table, level, va).Some? ==> Resolve(ram, table, level, va).value in ms
  }

  lemma Join(ram: Ram, table: nat, level: nat, from: nat, mid: nat, to: nat, a: seq<Mapping>, b: seq<Mapping>)
    requires ram.Valid() && Sound(ram, table, level, from, mid, a) && Sound(ram, table, level, mid, to, b)
    ensures Sound(ram, table, level, from, to, a + b)
    ensures Complete(ram, table, level, from, mid, a) && Complete(ram, table, level, mid, to, b)
            ==> Complete(ram, table, level, from, to, a + b)
  {
    hide Resolve;
    hide Span;
    var ms := a + b;
    forall i, j | 0 <= i < j < |ms|
      ensures ms[i].va + Span(ms[i].level) <= ms[j].va
    {
      if i < |a| <= j {
        assert a[i] in a && b[j - |a|] in b;
      }
    }
  }

  /** Below a pointer entry, translation continues in the table it points to. */
  lemma Below(ram: Ram, table: nat, level: nat, from: nat, to: nat, pte: nat, i: nat, ms: seq<Mapping>)
    requires ram.Valid() && level > 0
    requires ram.U64(table + i * 8) == Some(pte) && IsValid(pte) && !IsLeaf(pte)
    requires forall va :: from <= va < to ==> Vpn(va, level) == i
    requires Sound(ram, Target(pte), level - 1, from, to, ms)
    ensures Sound(ram, table, level, from, to, ms)
    ensures Complete(ram, Target(pte), level - 1, from, to, ms) ==> Complete(ram, table, level, from, to, ms)
  {
    forall va | from <= va < to
      ensures Resolve(ram, table, level, va) == Resolve(ram, Target(pte), level - 1, va)
    {
    }
    hide Resolve;
    hide Span;
    forall m, va | m in ms && m.va <= va < m.va + Span(m.level)
      ensures Resolve(ram, table, level, va) == Some(m)
    {
      assert from <= va < to;
    }
  }

  /** The one mapping of a leaf entry. */
  lemma LeafEntry(ram: Ram, table: nat, level: nat, vaBase: nat, i: nat, pte: nat)
    requires ram.Valid() && i < ENTRIES && vaBase % Span(level + 1) == 0
    requires ram.U64(table + i * 8) == Some(pte) && IsValid(pte) && IsLeaf(pte)
    ensures var from := vaBase + i * Span(level);
            var m := Mapping(from, Target(pte), pte % 1024, level);
            && Sound(ram, table, level, from, from + Span(level), [m])
            && Complete(ram, table, level, from, from + Span(level), [m])
  {
    var from := vaBase + i * Span(level);
    var m := Mapping(from, Target(pte), pte % 1024, level);
    EntryAligned(level, vaBase, i);
    hide Span;
    forall va | from <= va < from + Span(level)
      ensures Resolve(ram, table, level, va) == Some(m)
    {
      assert (i + 1) * Span(level) == i * Span(level) + Span(level);
      InEntry(level, vaBase, i, va);
      LeafResolves(ram, table, level, i, pte, va);
    }
    hide Resolve;
  }

  lemma LeafResolves(ram: Ram, table: nat, level: nat, i: nat, pte: nat, va: nat)
    requires ram.Valid() && Vpn(va, level) == i
    requires ram.U64(table + i * 8) == Some(pte) && IsValid(pte) && IsLeaf(pte)
    ensures Resolve(ram, table, level, va) == Some(Mapping(va - va % Span(level), Target(pte), pte % 1024, level))
  {
    hide Vpn;
    hide Span;
    hide IsValid;
    hide IsLeaf;
    hide Target;
  }

  /** Nothing below an entry that is not valid, or that points further at the last level. */
  lemma DeadEntry(ram: Ram, table: nat, level: nat, vaBase: nat, i: nat)
    requires ram.Valid() && i < ENTRIES && vaBase % Span(level + 1) == 0
    requires ram.U64(table + i * 8).Some?
    requires var pte := ram.U64(table + i * 8).value; !IsValid(pte) || (!IsLeaf(pte) && level == 0)
    ensures var from := vaBase + i * Span(level);
            && Sound(ram, table, level, from, from + Span(level), [])
            && Complete(ram, table, level, from, from + Span(level), [])
  {
    var from := vaBase + i * Span(level);
    forall va | from <= va < from + Span(level)
      ensures Resolve(ram, table, level, va) == None
    {
      assert (i + 1) * Span(level) == i * Span(level) + Span(level);
      InEntry(level, vaBase, i, va);
    }
  }

  // ------------------------------------------------------------------ the walk

  datatype Node = Node(pa: nat, level: nat, vaBase: nat)

  /** Every visited table at this level or below maps a range that ends by `at`. */
  ghost predicate VisitedBefore(seen: set<Node>, level: nat, at: nat) {
    forall n :: n in seen && n.level <= level ==> n.vaBase + Span(n.level + 1) <= at
  }

  /** The tables visited in between are below this level and map parts of [from, to). */
  ghost predicate VisitedWithin(before: set<Node>, after: set<Node>, level: nat, from: nat, to: nat) {
    && before <= after
    && forall n :: n in after && n !in before ==>
         n.level <= level && from <= n.vaBase && n.vaBase + Span(n.level + 1) <= to
  }

  lemma VisitedChain(a: set<Node>, b: set<Node>, c: set<Node>, level: nat, from: nat, mid: nat, to: nat)
    requires VisitedWithin(a, b, level, from, mid) && VisitedWithin(b, c, level, mid, to) && from <= mid <= to
    ensures VisitedWithin(a, c, level, from, to)
  {
    hide Span;
  }

  /** After the entries up to `at`, the tables below this level visited so far all end by `at`. */
  lemma VisitedUpTo(before: set<Node>, after: set<Node>, key: Node, from: nat, at: nat)
    requires VisitedBefore(before, key.level, from) && from <= at && key.level > 0
    requires VisitedWithin(before + {key}, after, key.level, from, at)
    ensures VisitedBefore(after, key.level - 1, at)
  {
    hide Span;
  }

  /** What the walk has collected. */
  datatype Progress = Progress(maps: seq<Mapping>, ptpages: seq<nat>, err: Option<Error>)

  /** What a stretch of the walk over the addresses [from, to) of a table adds. */
  ghost predicate Walked(ram: Ram, maxPages: nat, table: nat, level: nat, from: nat, to: nat, p: Progress, q: Progress)
    requires ram.Valid()
  {
    && p.maps <= q.maps && p.ptpages <= q.ptpages
    && Sound(ram, table, level, from, to, q.maps[|p.maps|..])
    && (q.err == None ==> p.err == None && Complete(ram, table, level, from, to, q.maps[|p.maps|..]))
    && |q.ptpages| <= Max(|p.ptpages|, maxPages + 1)
  }

  lemma WalkedChain(ram: Ram, maxPages: nat, table: nat, level: nat, from: nat, mid: nat, to: nat,
                    p: Progress, q: Progress, r: Progress)
    requires ram.Valid()
    requires Walked(ram, maxPages, table, level, from, mid, p, q) && Walked(ram, maxPages, table, level, mid, to, q, r)
    ensures Walked(ram, maxPages, table, level, from, to, p, r)
  {
    var a, b := q.maps[|p.maps|..], r.maps[|q.maps|..];
    assert r.maps[|p.maps|..] == a + b;
    Join(ram, table, level, from, mid, to, a, b);
    hide Sound;
    hide Complete;
  }

  /** The tables met on the way to an address, from `table` on. */
  ghost function TablesFrom(ram: Ram, table: nat, level: nat, va: nat): seq<nat>
    requires ram.Valid()
    decreases level
  {
    match ram.U64(table + Vpn(va, level) * 8)
    case None => [table]
    case Some(pte) =>
      if IsValid(pte) && !IsLeaf(pte) && level > 0 then [table] + TablesFrom(ram, Target(pte), level - 1, va)
      else [table]
  }

  /** Is `t` a table met on the way to an address, `table` itself (if `own`) or one below it? */
  ghost predicate Met(ram: Ram, table: nat, level: nat, own: bool, va: nat, t: nat)
    requires ram.Valid()
  {
    t in if own then TablesFrom(ram, table, level, va) else TablesFrom(ram, table, level, va)[1..]
  }

  ghost predicate MetWithin(ram: Ram, table: nat, level: nat, own: bool, from: nat, to: nat, t: nat)
    requires ram.Valid()
  {
    exists va: nat :: from <= va < to && Met(ram, table, level, own, va, t)
  }

  predicate Observed(ram: Ram, t: nat)
    requires ram.Valid()
  {
    ram.Blob(t, 4096).Some?
  }

  /** What the error says is so. */
  ghost predicate Reason(ram: Ram, maxPages: nat, table: nat, level: nat, own: bool, from: nat, to: nat, q: Progress)
    requires ram.Valid()
  {
    match q.err
    case Some(TooManyMappings) => |q.maps| > maxPages
    case Some(TooManyTables) => |q.ptpages| > maxPages
    case Some(Unobserved(t)) => MetWithin(ram, table, level, own, from, to, t) && !Observed(ram, t)
    case _ => false
  }

  /** Which tables a stretch of the walk over [from, to) visits, and why it goes wrong if it does. */
  ghost predicate Tabled(ram: Ram, maxPages: nat, table: nat, level: nat, own: bool, from: nat, to: nat,
                         p: Progress, q: Progress)
    requires ram.Valid()
  {
    && from <= to && p.ptpages <= q.ptpages && |p.maps| <= |q.maps|
    && (forall t :: t in q.ptpages[|p.ptpages|..] ==>
         MetWithin(ram, table, level, own, from, to, t) && Observed(ram, t))
    && (q.err == None ==>
          && p.err == None
          && forall va: nat, t :: from <= va < to && Met(ram, table, level, own, va, t) ==>
               t in q.ptpages[|p.ptpages|..])
    && (q.err != p.err ==> Reason(ram, maxPages, table, level, own, from, to, q))
  }

  lemma TabledChain(ram: Ram, maxPages: nat, table: nat, level: nat, own: bool, from: nat, mid: nat, to: nat,
                    p: Progress, q: Progress, r: Progress)
    requires ram.Valid()
    requires Tabled(ram, maxPages, table, level, own, from, mid, p, q)
    requires Tabled(ram, maxPages, table, level, own, mid, to, q, r)
    ensures Tabled(ram, maxPages, table, level, own, from, to, p, r)
  {
    hide Met;
    assert r.ptpages[|p.ptpages|..] == q.ptpages[|p.ptpages|..] + r.ptpages[|q.ptpages|..];
  }

  lemma TabledNothing(ram: Ram, maxPages: nat, table: nat, level: nat, from: nat, p: Progress)
    requires ram.Valid()
    ensures Tabled(ram, maxPages, table, level, false, from, from, p, p)
  {
    assert p.ptpages[|p.ptpages|..] == [];
  }

  /** An entry that leads to no table. */
  lemma TabledEnd(ram: Ram, maxPages: nat, table: nat, level: nat, vaBase: nat, i: nat, p: Progress, q: Progress)
    requires ram.Valid() && i < ENTRIES && vaBase % Span(level + 1) == 0
    requires ram.U64(table + i * 8).Some?
    requires var pte := ram.U64(table + i * 8).value; !IsValid(pte) || IsLeaf(pte) || level == 0
    requires p.ptpages == q.ptpages && p.err == q.err && |p.maps| <= |q.maps|
    ensures var from := vaBase + i * Span(level);
            Tabled(ram, maxPages, table, level, false, from, from + Span(level), p, q)
  {
    hide Span;
    var from := vaBase + i * Span(level);
    forall va: nat, t | from <= va < from + Span(level) && Met(ram, table, level, false, va, t)
      ensures false
    {
      assert (i + 1) * Span(level) == i * Span(level) + Span(level);
      InEntry(level, vaBase, i, va);
    }
    assert q.ptpages[|p.ptpages|..] == [];
  }

  lemma MetBelow(ram: Ram, table: nat, level: nat, va: nat, pte: nat, t: nat)
    requires ram.Valid() && level > 0
    requires ram.U64(table + Vpn(va, level) * 8) == Some(pte) && IsValid(pte) && !IsLeaf(pte)
    ensures Met(ram, table, level, false, va, t) == Met(ram, Target(pte), level - 1, true, va, t)
  {
    var below := TablesFrom(ram, Target(pte), level - 1, va);
    assert TablesFrom(ram, table, level, va) == [table] + below;
    assert ([table] + below)[1..] == below;
  }

  /** An entry that points to another table. */
  lemma TabledBelow(ram: Ram, maxPages: nat, table: nat, level: nat, vaBase: nat, i: nat, pte: nat, p: Progress,
                    q: Progress)
    requires ram.Valid() && i < ENTRIES && vaBase % Span(level + 1) == 0 && level > 0
    requires ram.U64(table + i * 8) == Some(pte) && IsValid(pte) && !IsLeaf(pte)
    requires var from := vaBase + i * Span(level);
             Tabled(ram, maxPages, Target(pte), level - 1, true, from, from + Span(level), p, q)
    ensures var from := vaBase + i * Span(level);
            Tabled(ram, maxPages, table, level, false, from, from + Span(level), p, q)
  {
    hide Span;
    hide Met;
    hide IsValid;
    hide IsLeaf;
    hide Target;
    var from := vaBase + i * Span(level);
    forall va: nat, t | from <= va < from + Span(level)
      ensures Met(ram, table, level, false, va, t) == Met(ram, Target(pte), level - 1, true, va, t)
    {
      assert (i + 1) * Span(level) == i * Span(level) + Span(level);
      InEntry(level, vaBase, i, va);
      MetBelow(ram, table, level, va, pte, t);
    }
    var to := from + Span(level);
    forall t | MetWithin(ram, Target(pte), level - 1, true, from, to, t)
      ensures MetWithin(ram, table, level, false, from, to, t)
    {
      var va: nat :| from <= va < to && Met(ram, Target(pte), level - 1, true, va, t);
      assert Met(ram, table, level, false, va, t);
    }
    hide MetWithin;
  }

  /** Of two ways to meet a table from another on: it is that table, or one below it. */
  lemma MetHead(ram: Ram, table: nat, level: nat, va: nat, t: nat)
    requires ram.Valid()
    ensures Met(ram, table, level, true, va, t) <==> t == table || Met(ram, table, level, false, va, t)
  {
    var ts := TablesFrom(ram, table, level, va);
    assert ts[0] == table && ts == [table] + ts[1..];
  }

  /** A table with those below it. */
  lemma TabledOwn(ram: Ram, maxPages: nat, table: nat, level: nat, from: nat, to: nat, p: Progress, q: Progress)
    requires ram.Valid() && from < to && Observed(ram, table)
    requires Tabled(ram, maxPages, table, level, false, from, to, p.(ptpages := p.ptpages + [table]), q)
    ensures Tabled(ram, maxPages, table, level, true, from, to, p, q)
  {
    forall va: nat, t
      ensures Met(ram, table, level, true, va, t) <==> t == table || Met(ram, table, level, false, va, t)
    {
      MetHead(ram, table, level, va, t);
    }
    hide Met;
    assert Met(ram, table, level, true, from, table);
    assert q.ptpages[|p.ptpages|..] == [table] + q.ptpages[|p.ptpages| + 1..];
  }

  /** A table that is not gone through, and the reason. */
  lemma TabledError(ram: Ram, maxPages: nat, table: nat, level: nat, from: nat, to: nat, p: Progress, q: Progress)
    requires ram.Valid() && from < to && q == p.(err := q.err)
    requires || (q.err == Some(TooManyMappings) && |q.maps| > maxPages)
             || (q.err == Some(TooManyTables) && |q.ptpages| > maxPages)
             || (q.err == Some(Unobserved(table)) && !Observed(ram, table))
    ensures Tabled(ram, maxPages, table, level, true, from, to, p, q)
  {
    MetHead(ram, table, level, from, table);
    hide Met;
    assert q.ptpages[|p.ptpages|..] == [];
  }

  lemma WalkedNothing(ram: Ram, maxPages: nat, table: nat, level: nat, from: nat, to: nat, p: Progress, q: Progress)
    requires ram.Valid() && from <= to && p.maps == q.maps && p.ptpages == q.ptpages
    requires q.err != None || (p.err == None && Complete(ram, table, level, from, to, []))
    ensures Walked(ram, maxPages, table, level, from, to, p, q)
  {
    assert q.maps[|p.maps|..] == [];
    hide Resolve;
  }

  lemma WalkedLeaf(ram: Ram, maxPages: nat, table: nat, level: nat, vaBase: nat, i: nat, pte: nat, p: Progress)
    requires ram.Valid() && i < ENTRIES && vaBase % Span(level + 1) == 0
    requires ram.U64(table + i * 8) == Some(pte) && IsValid(pte) && IsLeaf(pte)
    ensures var from := vaBase + i * Span(level);
            var q := p.(maps := p.maps + [Mapping(from, Target(pte), pte % 1024, level)]);
            Walked(ram, maxPages, table, level, from, from + Span(level), p, q)
  {
    var m := Mapping(vaBase + i * Span(level), Target(pte), pte % 1024, level);
    LeafEntry(ram, table, level, vaBase, i, pte);
    hide Sound;
    hide Complete;
    assert (p.maps + [m])[|p.maps|..] == [m];
  }

  lemma WalkedDead(ram: Ram, maxPages: nat, table: nat, level: nat, vaBase: nat, i: nat, p: Progress)
    requires ram.Valid() && i < ENTRIES && vaBase % Span(level + 1) == 0
    requires ram.U64(table + i * 8).Some?
    requires var pte := ram.U64(table + i * 8).value; !IsValid(pte) || (!IsLeaf(pte) && level == 0)
    ensures var from := vaBase + i * Span(level);
            Walked(ram, maxPages, table, level, from, from + Span(level), p, p)
  {
    DeadEntry(ram, table, level, vaBase, i);
    hide Sound;
    hide Complete;
    assert p.maps[|p.maps|..] == [];
  }

  lemma WalkedBelow(ram: Ram, maxPages: nat, table: nat, level: nat, vaBase: nat, i: nat, pte: nat, p: Progress,
                    q: Progress)
    requires ram.Valid() && i < ENTRIES && vaBase % Span(level + 1) == 0 && level > 0
    requires ram.U64(table + i * 8) == Some(pte) && IsValid(pte) && !IsLeaf(pte)
    requires var from := vaBase + i * Span(level);
             Walked(ram, maxPages, Target(pte), level - 1, from, from + Span(level), p, q)
    ensures var from := vaBase + i * Span(level);
            Walked(ram, maxPages, table, level, from, from + Span(level), p, q)
  {
    hide Span;
    hide Sound;
    hide Complete;
    var from := vaBase + i * Span(level);
    forall a | from <= a < from + Span(level)
      ensures Vpn(a, level) == i
    {
      assert (i + 1) * Span(level) == i * Span(level) + Span(level);
      InEntry(level, vaBase, i, a);
    }
    Below(ram, table, level, from, from + Span(level), pte, i, q.maps[|p.maps|..]);
  }

  class Walker {
    const ram: Ram
    const maxPages: nat
    var maps: seq<Mapping>
    var ptpages: seq<nat>
    var err: Option<Error>
    var seenNodes: set<Node>

    constructor (ram: Ram, maxPages: nat)
      ensures this.ram == ram && this.maxPages == maxPages
      ensures maps == [] && ptpages == [] && err == None && seenNodes == {}
    {
      this.ram, this.maxPages := ram, maxPages;
      maps, ptpages, err, seenNodes := [], [], None, {};
    }

    ghost function Now(): Progress
      reads this
    {
      Progress(maps, ptpages, err)
    }

    /** The recursive step of walk_pagetable, on the table at `pa`. A visited table never comes up
        again, and an observed table's words can all be read, so those checks never fire. */
    method Rec(pa: nat, level: nat, vaBase: nat)
      requires ram.Valid() && vaBase % Span(level + 1) == 0
      requires VisitedBefore(seenNodes, level, vaBase)
      modifies this
      ensures Walked(ram, maxPages, pa, level, vaBase, vaBase + Span(level + 1), old(Now()), Now())
      ensures Tabled(ram, maxPages, pa, level, true, vaBase, vaBase + Span(level + 1), old(Now()), Now())
      ensures VisitedWithin(old(seenNodes), seenNodes, level, vaBase, vaBase + Span(level + 1))
      ensures |maps| <= Max(|old(maps)|, maxPages + ENTRIES * (level + 1))
      decreases level, 2
    {
      hide Complete;
      hide Resolve;
      hide Tabled;
      if |maps| > maxPages {
        err := Some(TooManyMappings);
        WalkedNothing(ram, maxPages, pa, level, vaBase, vaBase + Span(level + 1), old(Now()), Now());
        TabledError(ram, maxPages, pa, level, vaBase, vaBase + Span(level + 1), old(Now()), Now());
        return;
      }
      if |ptpages| > maxPages {
        err := Some(TooManyTables);
        WalkedNothing(ram, maxPages, pa, level, vaBase, vaBase + Span(level + 1), old(Now()), Now());
        TabledError(ram, maxPages, pa, level, vaBase, vaBase + Span(level + 1), old(Now()), Now());
        return;
      }
      var key := Node(pa, level, vaBase);
      if key in seenNodes {
        assert false;
      }
      seenNodes := seenNodes + {key};
      if ram.Blob(pa, PGSIZE) == None {
        err := Some(Unobserved(pa));
        WalkedNothing(ram, maxPages, pa, level, vaBase, vaBase + Span(level + 1), old(Now()), Now());
        TabledError(ram, maxPages, pa, level, vaBase, vaBase + Span(level + 1), old(Now()), Now());
        return;
      }
      WordsReadable(ram, pa, 0);
      if !ram.PageSeen(FloorDiv(pa - ram.base, PGSIZE)) {
        assert false;
      }
      ptpages := ptpages + [pa];
      ScanEntries(pa, level, vaBase, key, old(seenNodes));
      TabledOwn(ram, maxPages, pa, level, vaBase, vaBase + Span(level + 1), old(Now()), Now());
      assert VisitedWithin(old(seenNodes), seenNodes, level, vaBase, vaBase + Span(level + 1));
    }

    /** The loop over the entries of one table. */
    method ScanEntries(pa: nat, level: nat, vaBase: nat, ghost key: Node, ghost before: set<Node>)
      requires ram.Valid() && vaBase % Span(level + 1) == 0 && ram.Blob(pa, PGSIZE).Some?
      requires |maps| <= maxPages && |ptpages| <= maxPages + 1
      requires key == Node(pa, level, vaBase) && seenNodes == before + {key} && VisitedBefore(before, level, vaBase)
      modifies this
      ensures Walked(ram, maxPages, pa, level, vaBase, vaBase + Span(level + 1), old(Now()), Now())
      ensures Tabled(ram, maxPages, pa, level, false, vaBase, vaBase + Span(level + 1), old(Now()), Now())
      ensures VisitedWithin(old(seenNodes), seenNodes, level, vaBase, vaBase + Span(level + 1))
      ensures |maps| <= maxPages + ENTRIES * (level + 1)
      decreases level, 1
    {
      hide Sound;
      hide Resolve;
      hide Span;
      hide Tabled;
      assert vaBase + 0 * Span(level) == vaBase;
      WalkedNothing(ram, maxPages, pa, level, vaBase, vaBase, old(Now()), Now());
      TabledNothing(ram, maxPages, pa, level, vaBase, Now());
      for i := 0 to ENTRIES
        invariant Walked(ram, maxPages, pa, level, vaBase, vaBase + i * Span(level), old(Now()), Now())
        invariant Tabled(ram, maxPages, pa, level, false, vaBase, vaBase + i * Span(level), old(Now()), Now())
        invariant VisitedWithin(old(seenNodes), seenNodes, level, vaBase, vaBase + i * Span(level))
        invariant |maps| <= maxPages + ENTRIES * level + i
      {
        var at := vaBase + i * Span(level);
        ghost var mid, seen := Now(), seenNodes;
        if level > 0 {
          VisitedUpTo(before, seenNodes, key, vaBase, at);
        }
        Entry(pa, level, vaBase, i);
        assert at + Span(level) == vaBase + (i + 1) * Span(level);
        WalkedChain(ram, maxPages, pa, level, vaBase, at, at + Span(level), old(Now()), mid, Now());
        TabledChain(ram, maxPages, pa, level, false, vaBase, at, at + Span(level), old(Now()), mid, Now());
        VisitedChain(old(seenNodes), seen, seenNodes, level, vaBase, at, at + Span(level));
      }
      EntryAligned(level, vaBase, ENTRIES);
    }

    /** One entry of a table. */
    method Entry(pa: nat, level: nat, vaBase: nat, i: nat)
      requires ram.Valid() && vaBase % Span(level + 1) == 0 && i < ENTRIES
      requires ram.Blob(pa, PGSIZE).Some?
      requires level > 0 ==> VisitedBefore(seenNodes, level - 1, vaBase + i * Span(level))
      modifies this
      ensures var at := vaBase + i * Span(level);
              && Walked(ram, maxPages, pa, level, at, at + Span(level), old(Now()), Now())
              && Tabled(ram, maxPages, pa, level, false, at, at + Span(level), old(Now()), Now())
              && VisitedWithin(old(seenNodes), seenNodes, level, at, at + Span(level))
      ensures |maps| <= Max(|old(maps)| + 1, maxPages + ENTRIES * level)
      decreases level, 0
    {
      hide Walked;
      hide Tabled;
      hide Span;
      WordsReadable(ram, pa, i);
      var word := ram.U64(pa + i * 8);
      if word.None? {
        assert false;
      }
      var pte, va := word.value, vaBase + i * Span(level);
      EntryAligned(level, vaBase, i);
      if !IsValid(pte) {
        WalkedDead(ram, maxPages, pa, level, vaBase, i, Now());
        TabledEnd(ram, maxPages, pa, level, vaBase, i, Now(), Now());
        return;
      }
      if IsLeaf(pte) {
        maps := maps + [Mapping(va, Target(pte), pte % 1024, level)];
        WalkedLeaf(ram, maxPages, pa, level, vaBase, i, pte, old(Now()));
        TabledEnd(ram, maxPages, pa, level, vaBase, i, old(Now()), Now());
      } else if level > 0 {
        Rec(Target(pte), level - 1, va);
        WalkedBelow(ram, maxPages, pa, level, vaBase, i, pte, old(Now()), Now());
        TabledBelow(ram, maxPages, pa, level, vaBase, i, pte, old(Now()), Now());
      } else {
        WalkedDead(ram, maxPages, pa, level, vaBase, i, Now());
        TabledEnd(ram, maxPages, pa, level, vaBase, i, Now(), Now());
      }
    }
  }

  // ------------------------------------------------------------------ the standard's own rule

  predicate Bit(pte: nat, power: nat)
    requires power > 0
  {
    pte / power % 2 == 1
  }

  // Bits R, W, X, U, A, D by value.
  const R := 2
  const W := 4
  const X := 8
  const U := 16
  const A := 64
  const D := 128

  /** Encodings section 4.3.2 makes a page fault: W without R, a set bit above the page number, a
      pointer entry with U, A or D set, and a superpage whose target is not aligned to its size. */
  predicate Reserved(pte: nat, level: nat) {
    || (Bit(pte, W) && !Bit(pte, R))
    || pte / 0x40_0000_0000_0000 != 0
    || (!Bit(pte, R) && !Bit(pte, X) && (Bit(pte, U) || Bit(pte, A) || Bit(pte, D)))
    || ((Bit(pte, R) || Bit(pte, X)) && Target(pte) % Span(level) != 0)
  }

  /** Section 4.3.2, the translation steps without permissions: a physical address or a page fault. */
  function Translate(ram: Ram, table: nat, level: nat, va: nat): Option<nat>
    requires ram.Valid()
    decreases level
  {
    match ram.U64(table + Vpn(va, level) * 8)
    case None => None
    case Some(pte) =>
      if !Bit(pte, 1) || (!Bit(pte, R) && Bit(pte, W)) || Reserved(pte, level) then None
      else if Bit(pte, R) || Bit(pte, X) then Some(Target(pte) - Target(pte) % Span(level) + va % Span(level))
      else if level == 0 then None
      else Translate(ram, Target(pte), level - 1, va)
  }

  /** No entry the walk follows for `va` uses a reserved encoding. */
  predicate CleanPath(ram: Ram, table: nat, level: nat, va: nat)
    requires ram.Valid()
    decreases level
  {
    match ram.U64(table + Vpn(va, level) * 8)
    case None => true
    case Some(pte) =>
      IsValid(pte) ==>
        && !Reserved(pte, level)
        && (!IsLeaf(pte) && level > 0 ==> CleanPath(ram, Target(pte), level - 1, va))
  }

  /** Exactly when the enumerator's rule is the standard's: an address translates by the standard if
      and only if the enumerator's rule finds a mapping for it and the path uses no reserved encoding,
      and then to the same physical address. */
  lemma {:induction false} StandardAgrees(ram: Ram, table: nat, level: nat, va: nat)
    requires ram.Valid()
    ensures Translate(ram, table, level, va) ==
            match Resolve(ram, table, level, va)
            case Some(m) => if CleanPath(ram, table, level, va) then Some(m.pa + (va - m.va)) else None
            case None => None
    decreases level
  {
    hide Target;
    hide Span;
    hide Vpn;
    match ram.U64(table + Vpn(va, level) * 8)
    case None =>
    case Some(pte) =>
      LeafBits(pte);
      if IsValid(pte) && !IsLeaf(pte) && level > 0 {
        StandardAgrees(ram, Target(pte), level - 1, va);
      }
  }

  lemma Halves(n: nat)
    ensures n / 4 == n / 2 / 2 && n / 8 == n / 2 / 2 / 2 && n / 16 == n / 2 / 2 / 2 / 2
  {
  }

  lemma LowBits(a: nat)
    ensures a % 8 == 4 * (a / 2 / 2 % 2) + 2 * (a / 2 % 2) + a % 2
  {
    var b := a / 2;
    var d := b / 2;
    assert a == 2 * b + a % 2 && b == 2 * d + b % 2 && d == 2 * (d / 2) + d % 2;
  }

  lemma LeafBits(pte: nat)
    ensures IsLeaf(pte) <==> Bit(pte, R) || Bit(pte, W) || Bit(pte, X)
    ensures IsValid(pte) <==> Bit(pte, 1)
  {
    Halves(pte);
    LowBits(pte / 2);
  }

  lemma {:induction false} UnpackZeros(b: seq<byte>)
    requires forall i :: 0 <= i < |b| ==> b[i] == 0
    ensures Unpack(b) == 0
  {
    if b != [] {
      UnpackZeros(b[1..]);
    }
  }

  /** A page of memory with one entry that is valid and writable but not readable. */
  const ODD := Ram(0, PGSIZE, [5] + seq(PGSIZE - 1, _ => 0), [true])

  /** As a root table, the enumerator lists a mapping of it where the standard has a page fault. */
  lemma WriteOnlyIsListed()
    ensures ODD.Valid() && Resolve(ODD, 0, 2, 0) == Some(Mapping(0, 0, 5, 2)) && Translate(ODD, 0, 2, 0) == None
  {
    hide Span;
    FirstWord();
    assert 0 / Span(2) == 0 && 0 % Span(2) == 0;
    assert Vpn(0, 2) == 0 && Target(5) == 0;
  }

  lemma FirstWord()
    ensures ODD.Valid() && ODD.U64(0) == Some(5)
  {
    UnpackZeros(ODD.data[0..8][1..]);
    assert ODD.Off(0, 8) == Some(0) by {
      assert FloorDiv(0, PGSIZE) == 0 && FloorDiv(7, PGSIZE) == 0 && ODD.PageSeen(0);
    }
  }
}
