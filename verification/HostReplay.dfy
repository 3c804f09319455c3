/** What the host reconstructs from a log of records: the loader's snapshots applied in order to a
    fresh memory image. */
module HostReplay {
  import opened Wrappers
  import opened LittleEndian
  import opened TraceFile
  import opened RamImage

  /** The page contents of an eagerly loaded snapshot, in dictionary order. */
  function Contents(pages: seq<(nat, Page)>): (cs: seq<(nat, seq<byte>)>)
    ensures |cs| == |pages|
    ensures forall i :: 0 <= i < |pages| ==> cs[i].0 == pages[i].0
  {
    if pages == [] then []
    else [(pages[0].0, if pages[0].1.Bytes? then pages[0].1.data else [])] + Contents(pages[1..])
  }

  /** Apply every snapshot in order; None once `apply` has raised. */
  function Replay(ram: Ram, snaps: seq<Snap>): (r: Option<Ram>)
    requires ram.Valid()
    ensures r.Some? ==> r.value.Valid() && r.value.base == ram.base && r.value.size == ram.size
  {
    if snaps == [] then Some(ram)
    else
      var n := |snaps| - 1;
      match Replay(ram, snaps[..n])
      case None => None
      case Some(before) =>
        var (after, raised) := before.Apply(Contents(snaps[n].pages));
        if raised then None else Some(after)
  }

  /** The host's loop over the snapshots of a trace. */
  method ReplayInto(image: RamImage, snaps: seq<Snap>) returns (raised: bool)
    requires image.Valid()
    modifies image.data, image.seen
    ensures !raised ==> Replay(old(image.Value()), snaps) == Some(image.Value())
    ensures raised ==> Replay(old(image.Value()), snaps) == None
  {
    raised := false;
    var k := 0;
    assert snaps[..0] == [];
    while k < |snaps|
      invariant 0 <= k <= |snaps|
      invariant Replay(old(image.Value()), snaps[..k]) == Some(image.Value())
    {
      raised := image.Apply(Contents(snaps[k].pages));
      assert snaps[..k + 1][..k] == snaps[..k];
      k := k + 1;
      if raised {
        ReplayStaysRaised(old(image.Value()), snaps, k);
        return;
      }
    }
    assert snaps[..k] == snaps;
  }

  lemma {:induction false} ReplayStaysRaised(ram: Ram, snaps: seq<Snap>, k: nat)
    requires ram.Valid() && k <= |snaps| && Replay(ram, snaps[..k]) == None
    ensures Replay(ram, snaps) == None
    decreases |snaps|
  {
    if k == |snaps| {
      assert snaps[..k] == snaps;
    } else {
      var front := snaps[..|snaps| - 1];
      assert front[..k] == snaps[..k];
      ReplayStaysRaised(ram, front, k);
    }
  }

  // ------------------------------------------------------------------ growing a log

  /** The host's memory image after loading and replaying `log`. */
  function HostView(log: seq<Rec>, codec: Codec, base: nat, size: nat): (r: Option<Ram>)
    ensures r.Some? ==> r.value.Valid() && r.value.base == base && r.value.size == size
  {
    match LogTrace(log, codec)
    case Err(_) => None
    case Ok(t) => Replay(Fresh(base, size), t.snaps)
  }

  /** The loader can decode this record whatever came before it. */
  predicate Plain(r: Rec) {
    && r.rtype != SNAPMARK && r.rtype != RAMPAGE
    && (RowLayout(r.rtype, |r.payload|).Some? ==> Size(RowLayout(r.rtype, |r.payload|).value) <= |r.payload|)
  }

  lemma PlainAppend(log: seq<Rec>, r: Rec, codec: Codec)
    requires LogTrace(log, codec).Ok? && Plain(r)
    ensures LogTrace(log + [r], codec).Ok?
    ensures LogTrace(log + [r], codec).value.snaps == LogTrace(log, codec).value.snaps
  {
    LogTraceAppend(log, r, codec);
    hide Fields;
  }

  lemma MarkStep(t: Trace, r: Rec, codec: Codec)
    requires r.rtype == SNAPMARK && Size(SNAPMARK_FIELDS) <= |r.payload|
    ensures LoadStep(t, Located(r, 0), false, codec)
            == Ok(t.(snaps := t.snaps + [Snap(r.insn, r.cpu, r.flags, Fields(SNAPMARK_FIELDS, r.payload), [])]))
  {
    hide Fields;
  }

  lemma ReplayEmpty(ram: Ram, snaps: seq<Snap>, last: Snap)
    requires ram.Valid() && last.pages == []
    ensures Replay(ram, snaps + [last]) == Replay(ram, snaps)
  {
    assert (snaps + [last])[..|snaps|] == snaps;
  }

  /** A mark opens an empty snapshot, which changes nothing on the host. */
  lemma MarkAppend(log: seq<Rec>, r: Rec, codec: Codec, base: nat, size: nat)
    requires HostView(log, codec, base, size).Some?
    requires r.rtype == SNAPMARK && Size(SNAPMARK_FIELDS) <= |r.payload|
    ensures HostView(log + [r], codec, base, size) == HostView(log, codec, base, size)
    ensures LogTrace(log + [r], codec).Ok?
    ensures var snaps := LogTrace(log + [r], codec).value.snaps;
            snaps != [] && snaps[|snaps| - 1].pages == []
  {
    hide LogTrace;
    hide LoadStep;
    hide Fields;
    hide Replay;
    LogTraceAppend(log, r, codec);
    MarkStep(LogTrace(log, codec).value, r, codec);
    ReplayEmpty(Fresh(base, size), LogTrace(log, codec).value.snaps,
                Snap(r.insn, r.cpu, r.flags, Fields(SNAPMARK_FIELDS, r.payload), []));
  }

  /** A page as nf_snapshot_page writes it: stored whole, or compressed when that is shorter. */
  function PageRec(cpu: nat, insn: nat, idx: nat, flags: nat, body: seq<byte>): Rec {
    Rec(RAMPAGE, cpu, flags, insn, PackFields(RAMPAGE_FIELDS, [idx, PGSIZE]) + body)
  }

  ghost predicate Stores(flags: nat, body: seq<byte>, page: seq<byte>, codec: Codec) {
    || (flags == 0 && body == page)
    || (flags == F_ZLIB && codec.compress(page) == Some(body))
  }

  lemma PageRecDecodes(cpu: nat, insn: nat, idx: nat, flags: nat, body: seq<byte>, page: seq<byte>, codec: Codec)
    requires codec.Lossless() && Stores(flags, body, page, codec) && |page| == PGSIZE
    requires idx < 0x1_0000_0000
    ensures var r := PageRec(cpu, insn, idx, flags, body);
            && |r.payload| == RAMPAGE_SIZE + |body|
            && Fields(RAMPAGE_FIELDS, r.payload) == [idx, PGSIZE]
            && PageOf(Located(r, 0), idx, PGSIZE, false, codec) == Ok(Bytes(page))
  {
    var r := PageRec(cpu, insn, idx, flags, body);
    assert Pow256(4) == 0x1_0000_0000;
    FieldsOfPacked(RAMPAGE_FIELDS, [idx, PGSIZE], body);
    assert Size(RAMPAGE_FIELDS) == RAMPAGE_SIZE;
    assert r.payload[RAMPAGE_SIZE..] == body;
  }

  lemma PageAppend(log: seq<Rec>, cpu: nat, insn: nat, idx: nat, flags: nat, body: seq<byte>, page: seq<byte>,
                   codec: Codec)
    requires LogTrace(log, codec).Ok? && LogTrace(log, codec).value.snaps != []
    requires codec.Lossless() && Stores(flags, body, page, codec) && |page| == PGSIZE
    requires idx < 0x1_0000_0000
    ensures var t' := LogTrace(log + [PageRec(cpu, insn, idx, flags, body)], codec);
            t'.Ok? && t'.value.snaps == AddPage(LogTrace(log, codec).value.snaps, idx, Bytes(page))
  {
    LogTraceAppend(log, PageRec(cpu, insn, idx, flags, body), codec);
    PageRecDecodes(cpu, insn, idx, flags, body, page, codec);
    hide Fields;
    hide PackFields;
    hide PageOf;
  }

  // ------------------------------------------------------------------ one more page

  predicate PagesBelow(pages: seq<(nat, Page)>, k: nat) {
    forall i :: 0 <= i < |pages| ==> pages[i].0 < k
  }

  lemma {:induction false} UpsertFresh(pages: seq<(nat, Page)>, idx: nat, p: Page)
    requires PagesBelow(pages, idx)
    ensures Upsert(pages, idx, p) == pages + [(idx, p)]
    ensures Contents(pages + [(idx, p)]) == Contents(pages) + [(idx, if p.Bytes? then p.data else [])]
    decreases pages
  {
    if pages != [] {
      UpsertFresh(pages[1..], idx, p);
      assert (pages + [(idx, p)])[1..] == pages[1..] + [(idx, p)];
    }
  }

  lemma {:induction false} ApplyAppend(ram: Ram, pages: seq<(nat, seq<byte>)>, p: (nat, seq<byte>))
    requires ram.Valid() && !ram.Apply(pages).1
    ensures ram.Apply(pages + [p]) == ram.Apply(pages).0.ApplyPage(p.0, p.1)
    decreases pages
  {
    if pages == [] {
      assert pages + [p] == [p];
      var (next, raised) := ram.ApplyPage(p.0, p.1);
      assert !raised ==> next.Apply([]) == (next, false);
    } else {
      assert (pages + [p])[1..] == pages[1..] + [p];
      ApplyAppend(ram.ApplyPage(pages[0].0, pages[0].1).0, pages[1..], p);
    }
  }

  /** A page added to the open snapshot, with an index not used there yet, is one more page applied. */
  lemma ReplayAddPage(ram: Ram, snaps: seq<Snap>, idx: nat, page: seq<byte>)
    requires ram.Valid() && snaps != [] && Replay(ram, snaps).Some?
    requires PagesBelow(snaps[|snaps| - 1].pages, idx)
    ensures var (after, raised) := Replay(ram, snaps).value.ApplyPage(idx, page);
            Replay(ram, AddPage(snaps, idx, Bytes(page))) == if raised then None else Some(after)
  {
    var n := |snaps| - 1;
    var pages := snaps[n].pages;
    UpsertFresh(pages, idx, Bytes(page));
    assert AddPage(snaps, idx, Bytes(page))[..n] == snaps[..n];
    ApplyAppend(Replay(ram, snaps[..n]).value, Contents(pages), (idx, page));
  }

  // ------------------------------------------------------------------ rewriting a mark in place

  /** The two snapshot lists differ at most in the header of the last one. */
  ghost predicate SamePagesSeen(a: seq<Snap>, b: seq<Snap>) {
    && |a| == |b| > 0
    && a[..|a| - 1] == b[..|b| - 1]
    && a[|a| - 1].pages == b[|b| - 1].pages
  }

  lemma StepKeepsSwap(t: Trace, u: Trace, l: Located, codec: Codec)
    requires SamePagesSeen(t.snaps, u.snaps) && l.rec.rtype != SNAPMARK
    requires LoadStep(t, l, false, codec).Ok?
    ensures LoadStep(u, l, false, codec).Ok?
    ensures SamePagesSeen(LoadStep(t, l, false, codec).value.snaps, LoadStep(u, l, false, codec).value.snaps)
  {
    hide Fields;
    hide PageOf;
  }

  /** Seeking back and rewriting the header of the last mark changes no page the loader sees. */
  lemma {:induction false} MarkRewrite(log: seq<Rec>, at: nat, mark: Rec, codec: Codec)
    requires LogTrace(log, codec).Ok? && at < |log|
    requires log[at].rtype == SNAPMARK == mark.rtype && Size(SNAPMARK_FIELDS) <= |mark.payload|
    requires forall i :: at < i < |log| ==> log[i].rtype != SNAPMARK
    ensures LogTrace(log[at := mark], codec).Ok?
    ensures SamePagesSeen(LogTrace(log, codec).value.snaps, LogTrace(log[at := mark], codec).value.snaps)
    decreases |log|
  {
    var n := |log| - 1;
    var front, last := log[..n], log[n];
    assert log == front + [last];
    FrontLoads(front, last, codec);
    LogTraceAppend(front, last, codec);
    if at == n {
      assert log[at := mark] == front + [mark];
      LogTraceAppend(front, mark, codec);
      hide Fields;
    } else {
      MarkRewrite(front, at, mark, codec);
      assert log[at := mark] == front[at := mark] + [last];
      LogTraceAppend(front[at := mark], last, codec);
      StepKeepsSwap(LogTrace(front, codec).value, LogTrace(front[at := mark], codec).value, Located(last, 0), codec);
    }
  }

  lemma FrontLoads(front: seq<Rec>, last: Rec, codec: Codec)
    requires LogTrace(front + [last], codec).Ok?
    ensures LogTrace(front, codec).Ok?
  {
    LocateAppend(front, last, HEADER_SIZE);
    LoadAppend(EMPTY, Locate(front, HEADER_SIZE), Located(last, HEADER_SIZE + |Stream(front)| + HEADER_SIZE),
               false, codec);
  }
}
