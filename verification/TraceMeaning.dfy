/** What a trace file says, record by record and in the numbers of its format: which rows, texts and snapshots
    the loader makes of it, and for which files it fails. */
module TraceMeaning {
  import opened Wrappers
  import opened Arithmetic
  import opened LittleEndian
  import opened TraceFile

  // ------------------------------------------------------------------ the records, in numbers

  /** Samples (2), traps (3), watch hits (4), idle (7), vCPU (8) and end (10) records, guest events (11) and
      returns (12) become rows; metadata (1) and warnings (9) texts; snapshot marks (5) snapshots. */
  const ROWS := {2, 3, 4, 7, 8, 10, 11, 12}
  const TEXTS := {1, 9}
  const MARKS := {5}

  /** How wide the fields of a row's payload are. A long trap record has three more, a long end record one. */
  function Widths(rtype: nat, len: nat): seq<nat> {
    if rtype == 2 then [8, 8, 8, 4, 4]
    else if rtype == 3 then
      [4, 4, 8, 8, 8, 8, 8, 8, 8, 8, 8, 8, 8, 8, 8, 8, 8, 8] + if len >= 160 then [8, 8, 8] else []
    else if rtype == 4 then [4, 4, 8, 8, 8, 8, 8, 8, 8, 8, 8, 8, 8, 8]
    else if rtype == 7 || rtype == 8 then [4]
    else if rtype == 10 then [8, 8, 8, 8, 8, 8, 4, 4] + if len >= 64 then [8] else []
    else if rtype == 11 then [8, 8, 8, 8, 8]
    else [8, 8, 8, 8, 4, 4]
  }

  /** The least number of bytes the loader needs of a payload. */
  function Least(rtype: nat): nat {
    if rtype == 2 || rtype == 5 then 32
    else if rtype == 3 then 136
    else if rtype == 4 then 104
    else if rtype == 7 || rtype == 8 then 4
    else if rtype == 10 then 56
    else if rtype == 11 || rtype == 12 then 40
    else 8
  }

  /** The 32-bit word at offset `i`. */
  function Word(b: seq<byte>, i: nat): nat
    requires i + 4 <= |b|
  {
    b[i] as nat + 0x100 * b[i + 1] as nat + 0x1_0000 * b[i + 2] as nat + 0x100_0000 * b[i + 3] as nat
  }

  /** The payload begins with these values, packed in fields of these widths. */
  ghost predicate Packed(ws: seq<nat>, vs: seq<nat>, payload: seq<byte>) {
    Fit(ws, vs) && PackFields(ws, vs) <= payload
  }

  ghost predicate IsRow(r: Rec, row: Row) {
    && row.rtype == r.rtype && row.insn == r.insn && row.cpu == r.cpu && row.flags == r.flags
    && Packed(Widths(r.rtype, |r.payload|), row.fields, r.payload)
  }

  ghost predicate IsText(r: Rec, text: (nat, nat, seq<byte>)) {
    text == (r.rtype, r.insn, r.payload)
  }

  ghost predicate IsMark(r: Rec, snap: Snap) {
    && snap.insn == r.insn && snap.cpu == r.cpu && snap.flags == r.flags
    && Packed([8, 8, 4, 4, 4, 4], snap.mark, r.payload)
  }

  /** The contents of a page record: what follows its index and length, inflated if flag bit 3 says so. */
  function Contents(r: Rec, codec: Codec): Option<seq<byte>>
    requires |r.payload| >= 8
  {
    if r.flags / 8 % 2 == 1 then codec.decompress(r.payload[8..]) else Some(r.payload[8..])
  }

  /** A page as the loader keeps it: the contents, or where in the file to find them. */
  ghost predicate IsPage(l: Located, p: Page, indexed: bool, codec: Codec) {
    && |l.rec.payload| >= 8
    && if indexed then p == Place(l.body + 8, |l.rec.payload| - 8, l.rec.flags, Word(l.rec.payload, 4))
       else Contents(l.rec, codec).Some? && p == Bytes(Contents(l.rec, codec).value)
  }

  // ------------------------------------------------------------------ what a list of records means

  function Of(ls: seq<Located>, kinds: set<nat>): seq<Rec> {
    if ls == [] then []
    else
      var n := |ls| - 1;
      Of(ls[..n], kinds) + if ls[n].rec.rtype in kinds then [ls[n].rec] else []
  }

  /** Why the loader cannot take a record after these, if it cannot. A page before any snapshot mark is not
      even looked at. */
  function Trouble(before: seq<Located>, l: Located, indexed: bool, codec: Codec): Option<Error> {
    var r := l.rec;
    if r.rtype in ROWS + MARKS then
      if |r.payload| < Least(r.rtype) then Some(if r.rtype == 12 then ShortReturn else ShortPayload) else None
    else if r.rtype == 6 && Of(before, MARKS) != [] then
      if |r.payload| < 8 then Some(ShortPayload)
      else if !indexed && (Contents(r, codec).None? || |Contents(r, codec).value| != Word(r.payload, 4)) then
        Some(BadPage(Word(r.payload, 0)))
      else None
    else None
  }

  /** Record `i` is a page of this index, and after the mark of snapshot `k` and before the next one. */
  ghost predicate InSnap(ls: seq<Located>, k: nat, idx: nat, i: nat) {
    && i < |ls| && ls[i].rec.rtype == 6 && |Of(ls[..i], MARKS)| == k + 1
    && |ls[i].rec.payload| >= 8 && Word(ls[i].rec.payload, 0) == idx
  }

  ghost predicate LastInSnap(ls: seq<Located>, k: nat, idx: nat, i: nat) {
    InSnap(ls, k, idx, i) && forall j :: i < j < |ls| ==> !InSnap(ls, k, idx, j)
  }

  /** The pages of snapshot `k`: of each index the last one recorded. */
  ghost predicate PagesMean(ls: seq<Located>, k: nat, pages: seq<(nat, Page)>, indexed: bool, codec: Codec) {
    && (forall a, b :: 0 <= a < b < |pages| ==> pages[a].0 != pages[b].0)
    && (forall idx: nat, p :: (idx, p) in pages <==>
          exists i: nat :: LastInSnap(ls, k, idx, i) && IsPage(ls[i], p, indexed, codec))
  }

  ghost predicate RowsMean(rs: seq<Rec>, rows: seq<Row>) {
    |rows| == |rs| && forall k :: 0 <= k < |rows| ==> IsRow(rs[k], rows[k])
  }

  ghost predicate TextsMean(rs: seq<Rec>, texts: seq<(nat, nat, seq<byte>)>) {
    |texts| == |rs| && forall k :: 0 <= k < |texts| ==> IsText(rs[k], texts[k])
  }

  ghost predicate MarksMean(rs: seq<Rec>, snaps: seq<Snap>) {
    |snaps| == |rs| && forall k :: 0 <= k < |snaps| ==> IsMark(rs[k], snaps[k])
  }

  /** The rows, texts and snapshots are those of the records, in their order, one for each record of their kinds. */
  ghost predicate Means(ls: seq<Located>, t: Trace, indexed: bool, codec: Codec) {
    && RowsMean(Of(ls, ROWS), t.rows)
    && TextsMean(Of(ls, TEXTS), t.texts)
    && MarksMean(Of(ls, MARKS), t.snaps)
    && forall k :: 0 <= k < |t.snaps| ==> PagesMean(ls, k, t.snaps[k].pages, indexed, codec)
  }

  // ------------------------------------------------------------------ fields

  lemma {:induction false} PackOfUnpack(b: seq<byte>)
    ensures Pack(Unpack(b), |b|) == b
  {
    if b != [] {
      var low, high := b[0] as nat, Unpack(b[1..]);
      PackOfUnpack(b[1..]);
      DivRest(high, 256, low);
      hide Unpack;
      hide Pack;
      assert Unpack(b) == high * 256 + low by {
        UnpackHead(b);
      }
      PackHead(Unpack(b), |b|);
      assert b == [b[0]] + b[1..];
    }
  }

  lemma UnpackHead(b: seq<byte>)
    requires b != []
    ensures Unpack(b) == b[0] as nat + 256 * Unpack(b[1..])
  {
  }

  lemma PackHead(n: nat, w: nat)
    requires w > 0
    ensures Pack(n, w) == [(n % 256) as byte] + Pack(n / 256, w - 1)
  {
  }

  lemma {:induction false} PackOfFields(ws: seq<nat>, b: seq<byte>)
    requires Size(ws) <= |b|
    ensures Packed(ws, Fields(ws, b), b)
  {
    hide Pow256;
    FieldsFit(ws, b);
    hide Fit;
    if ws != [] {
      var w := ws[0];
      PackOfUnpack(b[..w]);
      PackOfFields(ws[1..], b[w..]);
      assert b == b[..w] + b[w..];
    }
  }

  lemma TwoFields(b: seq<byte>)
    requires |b| >= 8
    ensures Fields([4, 4], b) == [Unpack(b[..4]), Unpack(b[4..8])]
  {
    hide Unpack;
    assert b[4..][..4] == b[4..8];
    assert Fields([4], b[4..]) == [Unpack(b[4..8])] + Fields([], b[4..][4..]);
  }

  lemma WordIsUnpack(b: seq<byte>)
    requires |b| >= 8
    ensures Fields([4, 4], b) == [Word(b, 0), Word(b, 4)]
  {
    hide Fields;
    hide Unpack;
    TwoFields(b);
    Words(b[..4]);
    Words(b[4..8]);
  }

  lemma QuadsAre(n: nat)
    ensures forall k :: 0 <= k < n ==> Quads(n)[k] == 8
  {
  }

  lemma ShortLayouts()
    ensures SAMPLE_FIELDS == [8, 8, 8, 4, 4] && RETURN_FIELDS == [8, 8, 8, 8, 4, 4] && NFTRACE_FIELDS == [8, 8, 8, 8, 8]
    ensures SNAPMARK_FIELDS == [8, 8, 4, 4, 4, 4] && WORD_FIELDS == [4]
  {
    QuadsAre(3);
    QuadsAre(4);
    QuadsAre(5);
    hide Quads;
  }

  lemma LongLayouts()
    ensures WATCHPC_FIELDS == [4, 4, 8, 8, 8, 8, 8, 8, 8, 8, 8, 8, 8, 8]
    ensures END_V1_FIELDS == [8, 8, 8, 8, 8, 8, 4, 4] && END_FIELDS == END_V1_FIELDS + [8]
  {
    QuadsAre(1);
    QuadsAre(6);
    QuadsAre(12);
    hide Quads;
    assert Quads(1) == [8];
  }

  lemma TrapLayouts()
    ensures DISCON_V1_FIELDS == [4, 4, 8, 8, 8, 8, 8, 8, 8, 8, 8, 8, 8, 8, 8, 8, 8, 8]
    ensures DISCON_V2_FIELDS == DISCON_V1_FIELDS + [8, 8, 8]
  {
    QuadsAre(16);
    QuadsAre(19);
    hide Quads;
    assert Quads(19) == Quads(16) + [8, 8, 8];
  }

  lemma LayoutIs(rtype: nat, len: nat)
    ensures rtype in ROWS <==> RowLayout(rtype, len).Some?
    ensures rtype in ROWS ==> RowLayout(rtype, len).value == Widths(rtype, len)
    ensures rtype in ROWS ==> (len < Least(rtype) <==> len < Size(Widths(rtype, len)))
  {
    hide Quads;
    hide Size;
    ShortLayouts();
    LongLayouts();
    TrapLayouts();
    LayoutSizes();
  }

  // ------------------------------------------------------------------ one record more

  lemma OfNext(ls: seq<Located>, l: Located, kinds: set<nat>)
    ensures Of(ls + [l], kinds) == Of(ls, kinds) + if l.rec.rtype in kinds then [l.rec] else []
  {
    assert (ls + [l])[..|ls|] == ls;
  }

  lemma {:induction false} OfGrows(ls: seq<Located>, i: nat, kinds: set<nat>)
    requires i <= |ls|
    ensures |Of(ls[..i], kinds)| <= |Of(ls, kinds)|
    decreases |ls|
  {
    if i == |ls| {
      assert ls[..i] == ls;
    } else {
      var n := |ls| - 1;
      assert ls[..n][..i] == ls[..i];
      OfGrows(ls[..n], i, kinds);
    }
  }

  lemma InSnapNext(ls: seq<Located>, l: Located, k: nat, idx: nat, i: nat)
    ensures InSnap(ls + [l], k, idx, i) <==>
            if i < |ls| then InSnap(ls, k, idx, i)
            else i == |ls| && l.rec.rtype == 6 && |Of(ls, MARKS)| == k + 1
                 && |l.rec.payload| >= 8 && Word(l.rec.payload, 0) == idx
  {
    hide Of;
    if i <= |ls| {
      assert (ls + [l])[..i] == ls[..i];
      assert i == |ls| ==> ls[..i] == ls;
    }
  }

  /** Does the record put a page of this index into snapshot `k`? */
  ghost predicate Puts(ls: seq<Located>, l: Located, k: nat, idx: nat) {
    && l.rec.rtype == 6 && |Of(ls, MARKS)| == k + 1
    && |l.rec.payload| >= 8 && Word(l.rec.payload, 0) == idx
  }

  lemma LastNext(ls: seq<Located>, l: Located, k: nat, idx: nat, i: nat)
    ensures LastInSnap(ls + [l], k, idx, i) <==>
            if Puts(ls, l, k, idx) then i == |ls| else LastInSnap(ls, k, idx, i)
  {
    hide Of;
    hide InSnap;
    var n := |ls|;
    forall j: nat
      ensures InSnap(ls + [l], k, idx, j) <==> if j < n then InSnap(ls, k, idx, j) else j == n && Puts(ls, l, k, idx)
    {
      InSnapNext(ls, l, k, idx, j);
    }
    InSnapHere(ls, k, idx, i);
    assert InSnap(ls + [l], k, idx, n) <==> Puts(ls, l, k, idx);
    if LastInSnap(ls + [l], k, idx, i) && i < n {
      forall j | i < j < n
        ensures !InSnap(ls, k, idx, j)
      {
        assert !InSnap(ls + [l], k, idx, j);
      }
    }
  }

  lemma InSnapHere(ls: seq<Located>, k: nat, idx: nat, i: nat)
    ensures InSnap(ls, k, idx, i) ==> i < |ls|
  {
  }

  lemma LastHere(ls: seq<Located>, k: nat, idx: nat, i: nat)
    ensures LastInSnap(ls, k, idx, i) ==> i < |ls|
  {
    hide Of;
  }

  /** The last of these records is a page of snapshot `k` with this index and value. */
  ghost predicate Kept(ls: seq<Located>, k: nat, idx: nat, p: Page, indexed: bool, codec: Codec) {
    exists i: nat :: LastInSnap(ls, k, idx, i) && IsPage(ls[i], p, indexed, codec)
  }

  lemma KeptNext(ls: seq<Located>, l: Located, k: nat, idx: nat, p: Page, indexed: bool, codec: Codec)
    ensures Kept(ls + [l], k, idx, p, indexed, codec) <==>
            if Puts(ls, l, k, idx) then IsPage(l, p, indexed, codec) else Kept(ls, k, idx, p, indexed, codec)
  {
    hide LastInSnap;
    hide IsPage;
    hide Puts;
    forall i: nat
      ensures LastInSnap(ls + [l], k, idx, i) <==>
              if Puts(ls, l, k, idx) then i == |ls| else LastInSnap(ls, k, idx, i)
      ensures LastInSnap(ls, k, idx, i) ==> i < |ls|
    {
      LastNext(ls, l, k, idx, i);
      LastHere(ls, k, idx, i);
    }
    if Puts(ls, l, k, idx) {
      assert LastInSnap(ls + [l], k, idx, |ls|);
    }
  }

  lemma PagesAreKept(ls: seq<Located>, k: nat, pages: seq<(nat, Page)>, indexed: bool, codec: Codec)
    ensures PagesMean(ls, k, pages, indexed, codec) <==>
            && (forall a, b :: 0 <= a < b < |pages| ==> pages[a].0 != pages[b].0)
            && (forall idx: nat, p :: (idx, p) in pages <==> Kept(ls, k, idx, p, indexed, codec))
  {
    hide LastInSnap;
    hide IsPage;
  }

  /** A record that puts no page into a snapshot leaves its pages. */
  lemma PagesStay(ls: seq<Located>, l: Located, k: nat, pages: seq<(nat, Page)>, indexed: bool, codec: Codec)
    requires PagesMean(ls, k, pages, indexed, codec) && forall idx: nat :: !Puts(ls, l, k, idx)
    ensures PagesMean(ls + [l], k, pages, indexed, codec)
  {
    PagesAreKept(ls, k, pages, indexed, codec);
    PagesAreKept(ls + [l], k, pages, indexed, codec);
    hide PagesMean;
    hide Kept;
    hide Puts;
    forall idx: nat, p
      ensures Kept(ls + [l], k, idx, p, indexed, codec) <==> Kept(ls, k, idx, p, indexed, codec)
    {
      KeptNext(ls, l, k, idx, p, indexed, codec);
    }
  }

  lemma {:induction false} UpsertSays(pages: seq<(nat, Page)>, idx: nat, p: Page)
    requires forall a, b :: 0 <= a < b < |pages| ==> pages[a].0 != pages[b].0
    ensures var r := Upsert(pages, idx, p);
            && (forall a, b :: 0 <= a < b < |r| ==> r[a].0 != r[b].0)
            && (forall j: nat, q :: (j, q) in r <==> if j == idx then q == p else (j, q) in pages)
  {
    if pages != [] && pages[0].0 != idx {
      var tail := pages[1..];
      UpsertSays(tail, idx, p);
      var r := Upsert(tail, idx, p);
      assert pages == [pages[0]] + tail;
      forall b | 0 <= b < |r|
        ensures r[b].0 != pages[0].0
      {
        assert (r[b].0, r[b].1) == r[b] && r[b] in r;
        if r[b].0 != idx {
          assert r[b] in tail;
        }
      }
    } else if pages != [] {
      assert pages == [pages[0]] + pages[1..];
      assert forall j: nat, q :: (j, q) in pages[1..] ==> j != idx;
    }
  }

  /** A page record puts its page into the snapshot that is open, in the place of an earlier one. */
  lemma PagesPut(ls: seq<Located>, l: Located, k: nat, pages: seq<(nat, Page)>, p: Page, indexed: bool, codec: Codec)
    requires PagesMean(ls, k, pages, indexed, codec) && IsPage(l, p, indexed, codec)
    requires Puts(ls, l, k, Word(l.rec.payload, 0))
    ensures PagesMean(ls + [l], k, Upsert(pages, Word(l.rec.payload, 0), p), indexed, codec)
  {
    var here := Word(l.rec.payload, 0);
    PagesAreKept(ls, k, pages, indexed, codec);
    PagesAreKept(ls + [l], k, Upsert(pages, here, p), indexed, codec);
    UpsertSays(pages, here, p);
    hide PagesMean;
    hide Kept;
    hide Upsert;
    hide Word;
    hide IsPage;
    forall idx: nat, q
      ensures Kept(ls + [l], k, idx, q, indexed, codec) <==>
              if idx == here then q == p else Kept(ls, k, idx, q, indexed, codec)
    {
      KeptNext(ls, l, k, idx, q, indexed, codec);
      OnlyPage(l, p, q, indexed, codec);
    }
  }

  lemma OnlyPage(l: Located, p: Page, q: Page, indexed: bool, codec: Codec)
    requires IsPage(l, p, indexed, codec)
    ensures IsPage(l, q, indexed, codec) <==> q == p
  {
  }

  lemma PagesNone(ls: seq<Located>, l: Located, indexed: bool, codec: Codec)
    requires l.rec.rtype == 5
    ensures PagesMean(ls + [l], |Of(ls, MARKS)|, [], indexed, codec)
  {
    hide Of;
    hide IsPage;
    var k := |Of(ls, MARKS)|;
    forall idx: nat, i: nat
      ensures !InSnap(ls + [l], k, idx, i)
    {
      InSnapNext(ls, l, k, idx, i);
      if i <= |ls| {
        OfGrows(ls, i, MARKS);
      }
    }
  }

  ghost predicate AllPages(ls: seq<Located>, snaps: seq<Snap>, indexed: bool, codec: Codec) {
    forall k :: 0 <= k < |snaps| ==> PagesMean(ls, k, snaps[k].pages, indexed, codec)
  }

  lemma MeaningParts(ls: seq<Located>, t: Trace, indexed: bool, codec: Codec)
    ensures Means(ls, t, indexed, codec) <==>
            && RowsMean(Of(ls, ROWS), t.rows) && TextsMean(Of(ls, TEXTS), t.texts)
            && MarksMean(Of(ls, MARKS), t.snaps) && AllPages(ls, t.snaps, indexed, codec)
  {
  }

  lemma AllStay(ls: seq<Located>, l: Located, snaps: seq<Snap>, indexed: bool, codec: Codec)
    requires AllPages(ls, snaps, indexed, codec) && l.rec.rtype != 6
    ensures AllPages(ls + [l], snaps, indexed, codec)
  {
    forall k | 0 <= k < |snaps|
      ensures PagesMean(ls + [l], k, snaps[k].pages, indexed, codec)
    {
      PagesStay(ls, l, k, snaps[k].pages, indexed, codec);
    }
  }

  /** A record whose type is of no kind that rows, texts and snapshots are made of. */
  lemma OthersStay(ls: seq<Located>, l: Located, kinds: set<nat>)
    requires l.rec.rtype !in kinds
    ensures Of(ls + [l], kinds) == Of(ls, kinds)
  {
    OfNext(ls, l, kinds);
    assert Of(ls, kinds) + [] == Of(ls, kinds);
  }

  lemma RowStep(ls: seq<Located>, t: Trace, l: Located, indexed: bool, codec: Codec)
    requires Means(ls, t, indexed, codec) && l.rec.rtype in ROWS && |l.rec.payload| >= Least(l.rec.rtype)
    ensures LoadStep(t, l, indexed, codec).Ok?
    ensures Means(ls + [l], LoadStep(t, l, indexed, codec).value, indexed, codec)
  {
    hide PagesMean;
    hide Of;
    hide Fields;
    hide IsText;
    hide IsMark;
    hide Quads;
    hide Size;
    hide Packed;
    var r := l.rec;
    LayoutIs(r.rtype, |r.payload|);
    PackOfFields(Widths(r.rtype, |r.payload|), r.payload);
    OfNext(ls, l, ROWS);
    OthersStay(ls, l, TEXTS);
    OthersStay(ls, l, MARKS);
    MeaningParts(ls, t, indexed, codec);
    AllStay(ls, l, t.snaps, indexed, codec);
  }

  lemma TextStep(ls: seq<Located>, t: Trace, l: Located, indexed: bool, codec: Codec)
    requires Means(ls, t, indexed, codec) && l.rec.rtype in TEXTS
    ensures LoadStep(t, l, indexed, codec).Ok?
    ensures Means(ls + [l], LoadStep(t, l, indexed, codec).value, indexed, codec)
  {
    hide PagesMean;
    hide Of;
    hide IsRow;
    hide IsMark;
    OthersStay(ls, l, ROWS);
    OfNext(ls, l, TEXTS);
    OthersStay(ls, l, MARKS);
    MeaningParts(ls, t, indexed, codec);
    AllStay(ls, l, t.snaps, indexed, codec);
  }

  lemma MarkStep(ls: seq<Located>, t: Trace, l: Located, indexed: bool, codec: Codec)
    requires Means(ls, t, indexed, codec) && l.rec.rtype == 5 && |l.rec.payload| >= 32
    ensures LoadStep(t, l, indexed, codec).Ok?
    ensures Means(ls + [l], LoadStep(t, l, indexed, codec).value, indexed, codec)
  {
    hide PagesMean;
    hide Of;
    hide IsRow;
    hide IsText;
    hide Fields;
    hide Quads;
    hide Size;
    hide Packed;
    LayoutSizes();
    PackOfFields(SNAPMARK_FIELDS, l.rec.payload);
    OthersStay(ls, l, ROWS);
    OthersStay(ls, l, TEXTS);
    OfNext(ls, l, MARKS);
    MeaningParts(ls, t, indexed, codec);
    AllStay(ls, l, t.snaps, indexed, codec);
    PagesNone(ls, l, indexed, codec);
    MeaningParts(ls + [l], LoadStep(t, l, indexed, codec).value, indexed, codec);
  }

  /** A page that is not looked at, and a record of an unknown type. */
  lemma SkipStep(ls: seq<Located>, t: Trace, l: Located, indexed: bool, codec: Codec)
    requires Means(ls, t, indexed, codec)
    requires l.rec.rtype !in ROWS + TEXTS + MARKS && (l.rec.rtype == 6 ==> Of(ls, MARKS) == [])
    ensures LoadStep(t, l, indexed, codec) == Ok(t) && Means(ls + [l], t, indexed, codec)
  {
    hide PagesMean;
    hide Of;
    hide IsRow;
    hide IsText;
    hide IsMark;
    LayoutIs(l.rec.rtype, |l.rec.payload|);
    OthersStay(ls, l, ROWS);
    OthersStay(ls, l, TEXTS);
    OthersStay(ls, l, MARKS);
    MeaningParts(ls, t, indexed, codec);
    if l.rec.rtype != 6 {
      AllStay(ls, l, t.snaps, indexed, codec);
    }
    MeaningParts(ls + [l], t, indexed, codec);
  }

  lemma PageLoads(t: Trace, l: Located, indexed: bool, codec: Codec)
    requires l.rec.rtype == 6 && t.snaps != []
    ensures |l.rec.payload| < 8 ==> LoadStep(t, l, indexed, codec) == Err(ShortPayload)
    ensures |l.rec.payload| >= 8 && !indexed
            && (Contents(l.rec, codec).None? || |Contents(l.rec, codec).value| != Word(l.rec.payload, 4)) ==>
              LoadStep(t, l, indexed, codec) == Err(BadPage(Word(l.rec.payload, 0)))
    ensures |l.rec.payload| >= 8
            && (indexed || (Contents(l.rec, codec).Some? && |Contents(l.rec, codec).value| == Word(l.rec.payload, 4)))
            ==>
              && PageOf(l, Word(l.rec.payload, 0), Word(l.rec.payload, 4), indexed, codec).Ok?
              && var p := PageOf(l, Word(l.rec.payload, 0), Word(l.rec.payload, 4), indexed, codec).value;
                 && IsPage(l, p, indexed, codec)
                 && LoadStep(t, l, indexed, codec) == Ok(t.(snaps := AddPage(t.snaps, Word(l.rec.payload, 0), p)))
  {
    hide Fields;
    hide AddPage;
    if |l.rec.payload| >= 8 {
      WordIsUnpack(l.rec.payload);
    }
  }

  lemma PageStep(ls: seq<Located>, t: Trace, l: Located, indexed: bool, codec: Codec)
    requires Means(ls, t, indexed, codec) && l.rec.rtype == 6 && Of(ls, MARKS) != []
    requires Trouble(ls, l, indexed, codec) == None
    ensures LoadStep(t, l, indexed, codec).Ok?
    ensures Means(ls + [l], LoadStep(t, l, indexed, codec).value, indexed, codec)
  {
    hide PagesMean;
    hide Of;
    hide IsRow;
    hide IsText;
    hide IsMark;
    hide Upsert;
    hide IsPage;
    hide LoadStep;
    hide Word;
    OthersStay(ls, l, ROWS);
    OthersStay(ls, l, TEXTS);
    OthersStay(ls, l, MARKS);
    MeaningParts(ls, t, indexed, codec);
    PageLoads(t, l, indexed, codec);
    var idx := Word(l.rec.payload, 0);
    var p := PageOf(l, idx, Word(l.rec.payload, 4), indexed, codec).value;
    var snaps := AddPage(t.snaps, idx, p);
    forall k | 0 <= k < |snaps|
      ensures PagesMean(ls + [l], k, snaps[k].pages, indexed, codec)
    {
      if k == |snaps| - 1 {
        PagesPut(ls, l, k, t.snaps[k].pages, p, indexed, codec);
      } else {
        PagesStay(ls, l, k, t.snaps[k].pages, indexed, codec);
      }
    }
    SameMarks(Of(ls, MARKS), t.snaps, idx, p);
    MeaningParts(ls + [l], t.(snaps := snaps), indexed, codec);
  }

  lemma SameMarks(rs: seq<Rec>, snaps: seq<Snap>, idx: nat, p: Page)
    requires MarksMean(rs, snaps) && snaps != []
    ensures MarksMean(rs, AddPage(snaps, idx, p))
  {
  }

  lemma ShortFails(t: Trace, l: Located, indexed: bool, codec: Codec)
    requires l.rec.rtype in ROWS + MARKS && |l.rec.payload| < Least(l.rec.rtype)
    ensures LoadStep(t, l, indexed, codec) == Err(if l.rec.rtype == 12 then ShortReturn else ShortPayload)
  {
    hide Fields;
    hide Quads;
    hide Size;
    LayoutIs(l.rec.rtype, |l.rec.payload|);
    LayoutSizes();
  }

  lemma TroubleFails(ls: seq<Located>, t: Trace, l: Located, indexed: bool, codec: Codec)
    requires MarksMean(Of(ls, MARKS), t.snaps) && Trouble(ls, l, indexed, codec).Some?
    ensures LoadStep(t, l, indexed, codec) == Err(Trouble(ls, l, indexed, codec).value)
  {
    hide LoadStep;
    hide Of;
    hide IsMark;
    hide Word;
    hide Contents;
    hide Least;
    if l.rec.rtype in ROWS + MARKS {
      ShortFails(t, l, indexed, codec);
    } else {
      PageLoads(t, l, indexed, codec);
    }
  }

  /** The loader takes a record exactly if there is no trouble with it, and then what it has means one more. */
  lemma StepMeans(ls: seq<Located>, t: Trace, l: Located, indexed: bool, codec: Codec)
    requires Means(ls, t, indexed, codec)
    ensures var step := LoadStep(t, l, indexed, codec);
            if Trouble(ls, l, indexed, codec).Some? then step == Err(Trouble(ls, l, indexed, codec).value)
            else step.Ok? && Means(ls + [l], step.value, indexed, codec)
  {
    hide LoadStep;
    hide Means;
    hide Of;
    hide Word;
    hide Contents;
    MeaningParts(ls, t, indexed, codec);
    hide MarksMean;
    var r := l.rec;
    if Trouble(ls, l, indexed, codec).Some? {
      TroubleFails(ls, t, l, indexed, codec);
    } else if r.rtype in ROWS {
      RowStep(ls, t, l, indexed, codec);
    } else if r.rtype in TEXTS {
      TextStep(ls, t, l, indexed, codec);
    } else if r.rtype in MARKS {
      MarkStep(ls, t, l, indexed, codec);
    } else if r.rtype == 6 && Of(ls, MARKS) != [] {
      PageStep(ls, t, l, indexed, codec);
    } else {
      SkipStep(ls, t, l, indexed, codec);
    }
  }

  lemma NothingMeans(indexed: bool, codec: Codec)
    ensures Means([], EMPTY, indexed, codec)
  {
  }

  /** The first record there is trouble with, after the records before it. */
  ghost predicate FirstTrouble(ls: seq<Located>, i: nat, indexed: bool, codec: Codec, e: Error) {
    && i < |ls| && Trouble(ls[..i], ls[i], indexed, codec) == Some(e)
    && forall j :: 0 <= j < i ==> Trouble(ls[..j], ls[j], indexed, codec) == None
  }

  /** The loader fails exactly for the first record there is trouble with; without any, it makes of the records
      what they mean. */
  lemma {:induction false} LoadMeans(ls: seq<Located>, indexed: bool, codec: Codec)
    ensures var r := LoadAll(EMPTY, ls, indexed, codec);
            && (r.Ok? ==>
                  && Means(ls, r.value, indexed, codec)
                  && forall j :: 0 <= j < |ls| ==> Trouble(ls[..j], ls[j], indexed, codec) == None)
            && (r.Err? ==> exists i: nat :: FirstTrouble(ls, i, indexed, codec, r.error))
    decreases |ls|
  {
    hide LoadStep;
    hide Means;
    hide Trouble;
    if ls == [] {
      NothingMeans(indexed, codec);
    } else {
      var n := |ls| - 1;
      var before, l := ls[..n], ls[n];
      assert ls == before + [l];
      LoadMeans(before, indexed, codec);
      LoadAppend(EMPTY, before, l, indexed, codec);
      hide LoadAll;
      assert forall j :: 0 <= j < n ==> before[..j] == ls[..j] && before[j] == ls[j];
      var r := LoadAll(EMPTY, before, indexed, codec);
      if r.Ok? {
        StepMeans(before, r.value, l, indexed, codec);
        if Trouble(before, l, indexed, codec).Some? {
          assert FirstTrouble(ls, n, indexed, codec, Trouble(before, l, indexed, codec).value);
        }
      } else {
        var i: nat :| FirstTrouble(before, i, indexed, codec, r.error);
        assert FirstTrouble(ls, i, indexed, codec, r.error);
      }
    }
  }

  // ------------------------------------------------------------------ whole files

  /** A record's header is its type and CPU in a byte each, the length of its payload in two, its flags in four
      and its instruction count in eight; the payload follows. */
  lemma FrameBytes(r: Rec)
    ensures Frame(r) == PackFields([1, 1, 2, 4, 8], [r.rtype, r.cpu, |r.payload|, r.flags, r.insn]) + r.payload
    ensures |Frame(r)| == 16 + |r.payload|
  {
  }

  /** A file begins with NFTRACE and a byte 1, the version 2 and the header's length 16, as 32-bit words. */
  lemma FileBytes()
    ensures FileHeader() == [78, 70, 84, 82, 65, 67, 69, 1, 2, 0, 0, 0, 16, 0, 0, 0]
  {
    assert Pack(2, 4) == [2, 0, 0, 0] && Pack(16, 4) == [16, 0, 0, 0];
    assert PackFields([4], [16]) == [16, 0, 0, 0] + PackFields([], []);
  }

  lemma HeaderChecked(file: seq<byte>)
    ensures CheckFileHeader(file) ==
            if |file| < 16 || file[..8] != [78, 70, 84, 82, 65, 67, 69, 1] then Err(BadMagic)
            else if Word(file, 8) != 1 && Word(file, 8) != 2 then Err(BadVersion(Word(file, 8)))
            else if Word(file, 12) != 16 then Err(BadHeaderSize(Word(file, 12)))
            else Ok(())
  {
    hide Fields;
    if |file| >= 16 {
      WordIsUnpack(file[8..]);
      assert Word(file[8..], 0) == Word(file, 8) && Word(file[8..], 4) == Word(file, 12);
    }
  }

  /** What the loader gives for these records: what they mean, or the error of the first there is trouble with. */
  ghost predicate Accounts(ls: seq<Located>, truncated: bool, indexed: bool, codec: Codec, r: Result<Loaded, Error>) {
    if r.Ok? then
      && r.value.truncatedAtEof == truncated
      && Means(ls, r.value.trace, indexed, codec)
      && forall j :: 0 <= j < |ls| ==> Trouble(ls[..j], ls[j], indexed, codec) == None
    else exists i: nat :: FirstTrouble(ls, i, indexed, codec, r.error)
  }

  lemma FinishAccounts(ls: seq<Located>, truncated: bool, indexed: bool, codec: Codec)
    ensures Accounts(ls, truncated, indexed, codec, Finish(LoadAll(EMPTY, ls, indexed, codec), truncated))
  {
    hide LoadAll;
    hide Means;
    hide Trouble;
    LoadMeans(ls, indexed, codec);
  }

  /** Which files are refused for their first sixteen bytes, and why; what is made of the others. */
  lemma HeaderDecides(file: seq<byte>, indexed: bool, codec: Codec)
    ensures var r := LoadFile(file, indexed, codec);
            if |file| < 16 || file[..8] != [78, 70, 84, 82, 65, 67, 69, 1] then r == Err(BadMagic)
            else if Word(file, 8) != 1 && Word(file, 8) != 2 then r == Err(BadVersion(Word(file, 8)))
            else if Word(file, 12) != 16 then r == Err(BadHeaderSize(Word(file, 12)))
            else Accounts(ScanFrom(file, 16).recs, ScanFrom(file, 16).truncatedAtEof, indexed, codec, r)
  {
    hide LoadAll;
    hide ScanFrom;
    hide Accounts;
    hide CheckFileHeader;
    hide Word;
    HeaderChecked(file);
    FinishAccounts(ScanFrom(file, 16).recs, ScanFrom(file, 16).truncatedAtEof, indexed, codec);
  }

  /** Whatever is logged, the finished file loads into what its records mean, or fails for the first of them
      there is trouble with. */
  lemma LogMeans(log: seq<Rec>, codec: Codec)
    requires AllFit(log)
    ensures Accounts(Locate(log, 16), false, false, codec, LoadFile(FileOf(log), false, codec))
    ensures forall j :: 0 <= j < |log| ==> Locate(log, 16)[j].rec == log[j]
  {
    hide LoadAll;
    hide LoadFile;
    hide Accounts;
    LoadOfFile(log, codec);
    FinishAccounts(Locate(log, 16), false, false, codec);
  }

  /** Fields packed into a payload come back: a sample's five, for instance. */
  lemma FieldsComeBack(r: Rec, row: Row, vs: seq<nat>, tail: seq<byte>)
    requires IsRow(r, row) && Fit(Widths(r.rtype, |r.payload|), vs)
    requires r.payload == PackFields(Widths(r.rtype, |r.payload|), vs) + tail
    ensures row.fields == vs
  {
    hide PackFields;
    hide Pow256;
    hide Widths;
    var ws := Widths(r.rtype, |r.payload|);
    var rest := r.payload[|PackFields(ws, row.fields)|..];
    assert r.payload == PackFields(ws, row.fields) + rest;
    FieldsOfPacked(ws, row.fields, rest);
    FieldsOfPacked(ws, vs, tail);
  }

  // ------------------------------------------------------------------ any bytes

  function Plain(ls: seq<Located>): (rs: seq<Rec>)
    ensures |rs| == |ls|
  {
    if ls == [] then [] else [ls[0].rec] + Plain(ls[1..])
  }

  /** What is left when no whole record is: nothing, or less than the record that it begins. */
  predicate Rest(tail: seq<byte>, truncated: bool) {
    if !truncated then tail == []
    else 0 < |tail| < 16 || (|tail| >= 16 && |tail| < 16 + tail[2] as nat + 0x100 * tail[3] as nat)
  }

  lemma HeaderLength(b: seq<byte>)
    requires |b| >= 16
    ensures Size(HEADER) == 16 && Fields(HEADER, b)[2] == b[2] as nat + 0x100 * b[3] as nat
  {
    hide Unpack;
    Words(b[2..4]);
    assert Size([4, 8]) == 12 && Size([2, 4, 8]) == 14;
    assert HEADER[1..] == [1, 2, 4, 8] && HEADER[1..][1..] == [2, 4, 8];
    assert Fields(HEADER, b)[2] == Fields([1, 2, 4, 8], b[1..])[1] == Fields([2, 4, 8], b[1..][1..])[0];
    assert b[1..][1..][..2] == b[2..4];
  }

  lemma HeaderIsFrame(b: seq<byte>, n: nat)
    requires |b| >= 16 && n == Fields(HEADER, b)[2] && 16 + n <= |b|
    ensures var h := Fields(HEADER, b);
            var r := Rec(h[0], h[1], h[3], h[4], b[16..16 + n]);
            Fits(r) && b[..16 + n] == Frame(r)
  {
    hide Fields;
    hide PackFields;
    hide Pow256;
    hide Size;
    hide Unpack;
    HeaderLength(b);
    PackOfFields(HEADER, b);
    var h := Fields(HEADER, b);
    assert h == [h[0], h[1], n, h[3], h[4]];
    assert PackFields(HEADER, h) == b[..16];
    assert b[..16 + n] == b[..16] + b[16..16 + n];
  }

  /** Any bytes at all, scanned from some place on, are the records found there, one after another, and a rest
      that is nothing, or too short for the record it begins; and the latter is reported. */
  lemma {:induction false} ScanTiles(file: seq<byte>, pos: nat) returns (tail: seq<byte>)
    requires pos <= |file|
    ensures var scan := ScanFrom(file, pos);
            var rs := Plain(scan.recs);
            && AllFit(rs) && scan.recs == Locate(rs, pos)
            && file[pos..] == Stream(rs) + tail && Rest(tail, scan.truncatedAtEof)
    decreases |file| - pos
  {
    hide Frame;
    hide Fields;
    hide Fits;
    var b := file[pos..];
    if b == [] || |b| < 16 {
      tail := b;
      assert Stream([]) + tail == tail;
    } else {
      HeaderLength(b);
      var n := HeaderAt(file, pos)[2];
      if 16 + n > |b| {
        tail := b;
        assert Stream([]) + tail == tail;
      } else {
        HeaderIsFrame(b, n);
        var next := pos + 16 + n;
        assert file[pos + 16..next] == b[16..16 + n];
        tail := ScanTiles(file, next);
        var first, rest := ScanFrom(file, pos).recs[0], ScanFrom(file, next).recs;
        assert ScanFrom(file, pos).recs == [first] + rest;
        assert ([first] + rest)[1..] == rest;
        assert Plain([first] + rest) == [first.rec] + Plain(rest);
        assert file[pos..] == b[..16 + n] + file[next..];
        assert Frame(first.rec) + (Stream(Plain(rest)) + tail) == (Frame(first.rec) + Stream(Plain(rest))) + tail;
        TilesNext(first.rec, Plain(rest), pos, rest);
      }
    }
  }

  lemma TilesNext(r: Rec, rs: seq<Rec>, pos: nat, ls: seq<Located>)
    requires Fits(r) && AllFit(rs) && ls == Locate(rs, pos + 16 + |r.payload|)
    ensures AllFit([r] + rs) && Locate([r] + rs, pos) == [Located(r, pos + 16)] + ls
    ensures Stream([r] + rs) == Frame(r) + Stream(rs)
  {
    hide Frame;
    hide Fits;
    hide Stream;
    hide Locate;
    assert ([r] + rs)[0] == r && ([r] + rs)[1..] == rs;
    LocateNext([r] + rs, pos);
    StreamNext([r] + rs);
    assert forall x :: x in [r] + rs ==> x == r || x in rs;
  }

  lemma StreamNext(rs: seq<Rec>)
    requires rs != []
    ensures Stream(rs) == Frame(rs[0]) + Stream(rs[1..])
  {
    hide Frame;
  }

  // ------------------------------------------------------------------ packed rows

  /** Rows of three kinds: the packed returns, the packed watch hits, and the rest. */
  ghost predicate Parted(rows: seq<Row>, rest: seq<Row>, rets: seq<Row>, hits: seq<Row>, compact: bool) {
    && multiset(rows) == multiset(rest) + multiset(rets) + multiset(hits)
    && (forall x :: x in rest ==> x.rtype != 12 && (compact ==> x.rtype != 4))
    && (forall x :: x in rets ==> x.rtype == 12)
    && (forall x :: x in hits ==> compact && x.rtype == 4)
  }

  lemma PartedNext(rows: seq<Row>, rest: seq<Row>, rets: seq<Row>, hits: seq<Row>, compact: bool, x: Row)
    requires Parted(rows, rest, rets, hits, compact)
    ensures x.rtype == 12 ==> Parted(rows + [x], rest, rets + [x], hits, compact)
    ensures compact && x.rtype == 4 ==> Parted(rows + [x], rest, rets, hits + [x], compact)
    ensures x.rtype != 12 && (compact ==> x.rtype != 4) ==> Parted(rows + [x], rest + [x], rets, hits, compact)
  {
  }

  /** Returns are kept packed, watch hits if that is asked for, and every other row is not; none is lost. */
  lemma {:induction false} RowsSplit(rows: seq<Row>, compact: bool)
    ensures Parted(rows, Loose(rows, compact), RowsOf(rows, 12), if compact then RowsOf(rows, 4) else [], compact)
    decreases |rows|
  {
    if rows != [] {
      var n := |rows| - 1;
      var before, x := rows[..n], rows[n];
      RowsSplit(before, compact);
      assert rows == before + [x];
      RowsNext(before, x, compact);
      PartedNext(before, Loose(before, compact), RowsOf(before, 12), if compact then RowsOf(before, 4) else [],
                 compact, x);
      hide Parted;
      hide Loose;
      hide RowsOf;
      assert forall a: seq<Row> :: a + [] == a;
    }
  }
}
