/** The trace file: record framing (nf_write_rec) and the loader (nftrace.load).
    zlib is a pair of functions, and the file is a sequence of bytes. */
module TraceFile {
  import opened Wrappers
  import opened LittleEndian
  import opened Arithmetic

  const META := 1
  const SAMPLE := 2
  const DISCON := 3
  const WATCHPC := 4
  const SNAPMARK := 5
  const RAMPAGE := 6
  const IDLE := 7
  const VCPU := 8
  const WARN := 9
  const END := 10
  const NFTRACE := 11
  const RETURN := 12

  const F_NO_REGS := 1
  const F_NO_CSR := 2
  const F_TRUNCATED := 4
  const F_ZLIB := 8
  const F_INCOMPLETE := 16

  // ------------------------------------------------------------------ framing

  datatype Rec = Rec(rtype: nat, cpu: nat, flags: nat, insn: nat, payload: seq<byte>)

  /** type, cpu, len, flags, insn. */
  const HEADER: seq<nat> := [1, 1, 2, 4, 8]
  const HEADER_SIZE := 16

  /** What the C types of a record header can hold. */
  ghost predicate Fits(r: Rec) {
    && Fit(HEADER, [r.rtype, r.cpu, |r.payload|, r.flags, r.insn])
  }

  ghost predicate AllFit(recs: seq<Rec>) {
    forall r :: r in recs ==> Fits(r)
  }

  /** nf_write_rec: the header fields are cut to their C width, the payload follows whole. */
  function Frame(r: Rec): (b: seq<byte>)
    ensures |b| == HEADER_SIZE + |r.payload|
  {
    PackFields(HEADER, [r.rtype, r.cpu, |r.payload|, r.flags, r.insn]) + r.payload
  }

  function Stream(recs: seq<Rec>): seq<byte> {
    if recs == [] then [] else Frame(recs[0]) + Stream(recs[1..])
  }

  const MAGIC: seq<byte> := [78, 70, 84, 82, 65, 67, 69, 1]
  const FORMAT_VERSION := 2

  function FileHeader(): (b: seq<byte>)
    ensures |b| == HEADER_SIZE
  {
    MAGIC + PackFields([4, 4], [FORMAT_VERSION, HEADER_SIZE])
  }

  function FileOf(recs: seq<Rec>): seq<byte> {
    FileHeader() + Stream(recs)
  }

  lemma {:induction false} StreamAppend(a: seq<Rec>, b: seq<Rec>)
    ensures Stream(a + b) == Stream(a) + Stream(b)
  {
    if a == [] {
      assert a + b == b;
    } else {
      assert (a + b)[1..] == a[1..] + b;
      calc {
        Stream(a + b);
        Frame(a[0]) + Stream(a[1..] + b);
        { StreamAppend(a[1..], b); }
        Frame(a[0]) + (Stream(a[1..]) + Stream(b));
        (Frame(a[0]) + Stream(a[1..])) + Stream(b);
        Stream(a) + Stream(b);
      }
    }
  }

  /** Seeking back and writing a record of the same size over record `at` gives the file of the log
      with that record replaced: every other byte keeps its place. */
  lemma RewriteInPlace(recs: seq<Rec>, at: nat, r: Rec)
    requires at < |recs| && |r.payload| == |recs[at].payload|
    ensures var off := |Stream(recs[..at])|;
            && off + |Frame(r)| <= |Stream(recs)|
            && Stream(recs[at := r]) == Stream(recs)[..off] + Frame(r) + Stream(recs)[off + |Frame(r)|..]
  {
    hide Frame;
    hide Stream;
    StreamAround(recs, at);
    StreamAround(recs[at := r], at);
    assert recs[at := r][..at] == recs[..at] && recs[at := r][at + 1..] == recs[at + 1..];
    Spliced(Stream(recs[..at]), Frame(recs[at]), Stream(recs[at + 1..]));
  }

  lemma Spliced(a: seq<byte>, b: seq<byte>, c: seq<byte>)
    ensures (a + b + c)[..|a|] == a && (a + b + c)[|a| + |b|..] == c
  {
  }

  lemma StreamAround(recs: seq<Rec>, at: nat)
    requires at < |recs|
    ensures Stream(recs) == Stream(recs[..at]) + Frame(recs[at]) + Stream(recs[at + 1..])
  {
    hide Frame;
    assert recs == recs[..at] + recs[at..];
    StreamAppend(recs[..at], recs[at..]);
    assert recs[at..][1..] == recs[at + 1..];
    var a, b, c := Stream(recs[..at]), Frame(recs[at]), Stream(recs[at + 1..]);
    assert a + (b + c) == (a + b) + c;
  }

  lemma PrefixShorter(recs: seq<Rec>, i: nat)
    requires i <= |recs|
    ensures |Stream(recs[..i])| <= |Stream(recs)|
  {
    hide Frame;
    assert recs[..i] + recs[i..] == recs;
    StreamAppend(recs[..i], recs[i..]);
  }

  // ------------------------------------------------------------------ scanning

  /** A record together with the file offset of its payload. */
  datatype Located = Located(rec: Rec, body: nat)

  datatype Scan = Scan(recs: seq<Located>, truncatedAtEof: bool)

  /** The records found from file offset `pos` on. */
  function ScanFrom(file: seq<byte>, pos: nat): Scan
    decreases |file| - pos
  {
    if pos >= |file| then Scan([], false)
    else if pos + HEADER_SIZE > |file| then Scan([], true)
    else
      var h := HeaderAt(file, pos);
      var body := pos + HEADER_SIZE;
      if body + h[2] > |file| then Scan([], true)
      else
        var rest := ScanFrom(file, body + h[2]);
        rest.(recs := [Located(Rec(h[0], h[1], h[3], h[4], file[body..body + h[2]]), body)] + rest.recs)
  }

  function HeaderAt(file: seq<byte>, pos: nat): (h: seq<nat>)
    requires pos + HEADER_SIZE <= |file|
    ensures |h| == 5
  {
    Fields(HEADER, file[pos..])
  }

  lemma HeaderOfFrame(file: seq<byte>, pos: nat, r: Rec)
    requires Fits(r) && pos + HEADER_SIZE <= |file|
    requires file[pos..pos + HEADER_SIZE] == Frame(r)[..HEADER_SIZE]
    ensures HeaderAt(file, pos) == [r.rtype, r.cpu, |r.payload|, r.flags, r.insn]
  {
    var vs := [r.rtype, r.cpu, |r.payload|, r.flags, r.insn];
    var packed := PackFields(HEADER, vs);
    assert Frame(r)[..HEADER_SIZE] == packed;
    assert file[pos..] == packed + file[pos + HEADER_SIZE..];
    FieldsOfPacked(HEADER, vs, file[pos + HEADER_SIZE..]);
  }

  /** The scan stops, reporting a truncation, on less than one whole record. */
  lemma ScanShort(file: seq<byte>, pos: nat, r: Rec)
    requires Fits(r)
    requires pos < |file| && file[pos..] <= Frame(r) && |file| - pos < |Frame(r)|
    ensures ScanFrom(file, pos) == Scan([], true)
  {
    if pos + HEADER_SIZE <= |file| {
      assert file[pos..pos + HEADER_SIZE] == file[pos..][..HEADER_SIZE] == Frame(r)[..HEADER_SIZE];
      HeaderOfFrame(file, pos, r);
    }
  }

  /** The scan takes a whole record. */
  lemma ScanWhole(file: seq<byte>, pos: nat, next: nat, r: Rec)
    requires Fits(r)
    requires pos <= next <= |file| && file[pos..next] == Frame(r)
    ensures var rest := ScanFrom(file, next);
            ScanFrom(file, pos) == rest.(recs := [Located(r, pos + HEADER_SIZE)] + rest.recs)
  {
    hide HeaderAt;
    hide PackFields;
    var body := pos + HEADER_SIZE;
    assert file[pos..body] == Frame(r)[..HEADER_SIZE] by {
      assert file[pos..body] == file[pos..next][..HEADER_SIZE];
    }
    HeaderOfFrame(file, pos, r);
    assert file[body..next] == r.payload by {
      assert file[body..next] == file[pos..next][HEADER_SIZE..];
    }
  }

  /** Where the loader finds each record of a stream that starts at file offset `pos`. */
  function Locate(recs: seq<Rec>, pos: nat): (ls: seq<Located>)
    ensures |ls| == |recs|
    ensures forall i :: 0 <= i < |recs| ==> ls[i].rec == recs[i]
  {
    if recs == [] then []
    else [Located(recs[0], pos + HEADER_SIZE)] + Locate(recs[1..], pos + HEADER_SIZE + |recs[0].payload|)
  }

  lemma FirstFrame(file: seq<byte>, pos: nat, stop: nat, recs: seq<Rec>)
    requires recs != [] && pos <= stop <= |file| && file[pos..stop] == Stream(recs)
    ensures var next := pos + |Frame(recs[0])|;
            next <= stop && file[pos..next] == Frame(recs[0]) && file[next..stop] == Stream(recs[1..])
  {
    hide Frame;
    var next := pos + |Frame(recs[0])|;
    assert file[pos..next] == file[pos..stop][..next - pos];
    assert file[next..stop] == file[pos..stop][next - pos..];
  }

  lemma LocateNext(log: seq<Rec>, pos: nat)
    requires log != []
    ensures Locate(log, pos)
            == [Located(log[0], pos + HEADER_SIZE)] + Locate(log[1..], pos + HEADER_SIZE + |log[0].payload|)
  {
  }

  lemma NothingLocated(pos: nat, rest: seq<Located>)
    ensures Locate([], pos) + rest == rest && Stream([]) == []
  {
  }

  /** Whole records are taken one after another, whatever follows them. */
  lemma {:induction false} ScanOfStream(file: seq<byte>, pos: nat, stop: nat, recs: seq<Rec>)
    requires AllFit(recs)
    requires pos <= stop <= |file| && file[pos..stop] == Stream(recs)
    ensures var rest := ScanFrom(file, stop);
            ScanFrom(file, pos) == rest.(recs := Locate(recs, pos) + rest.recs)
    decreases recs
  {
    hide Frame;
    hide Stream;
    hide Locate;
    hide ScanFrom;
    hide Fits;
    if recs == [] {
      NothingLocated(pos, ScanFrom(file, stop).recs);
    } else {
      var next := pos + |Frame(recs[0])|;
      FirstFrame(file, pos, stop, recs);
      ScanWhole(file, pos, next, recs[0]);
      ScanOfStream(file, next, stop, recs[1..]);
      LocateNext(recs, pos);
      var here, there := [Located(recs[0], pos + HEADER_SIZE)], Locate(recs[1..], next);
      assert here + (there + ScanFrom(file, stop).recs) == (here + there) + ScanFrom(file, stop).recs;
    }
  }

  /** The first `k` bytes of the stream hold exactly `m` whole records. */
  ghost predicate CutsAfter(recs: seq<Rec>, k: nat, m: nat) {
    && m <= |recs|
    && |Stream(recs[..m])| <= k
    && (m < |recs| ==> k < |Stream(recs[..m + 1])|)
  }

  /** Any cut of a written stream falls after some number of whole records, inside the next one or
      at its start. */
  lemma {:induction false} CutPoint(recs: seq<Rec>, k: nat) returns (m: nat, tail: seq<byte>)
    requires k <= |Stream(recs)|
    ensures CutsAfter(recs, k, m) && Stream(recs)[..k] == Stream(recs[..m]) + tail
    ensures tail != [] ==> m < |recs| && tail < Frame(recs[m])
  {
    hide Frame;
    if recs == [] || k < |Frame(recs[0])| {
      m, tail := 0, Stream(recs)[..k];
      assert recs[..0] == [];
      if recs != [] {
        assert recs[..1] == [recs[0]] && Stream([recs[0]]) == Frame(recs[0]) + Stream([]);
      }
    } else {
      var f, rest := Frame(recs[0]), Stream(recs[1..]);
      var m', tail' := CutPoint(recs[1..], k - |f|);
      m, tail := m' + 1, tail';
      StreamHead(recs, m);
      if m < |recs| {
        StreamHead(recs, m + 1);
      }
      calc {
        Stream(recs)[..k];
        f + rest[..k - |f|];
        f + (Stream(recs[1..][..m']) + tail);
        (f + Stream(recs[1..][..m'])) + tail;
      }
    }
  }

  lemma StreamHead(recs: seq<Rec>, i: nat)
    requires 0 < i <= |recs|
    ensures Stream(recs[..i]) == Frame(recs[0]) + Stream(recs[1..][..i - 1])
  {
    hide Frame;
    assert recs[..i][1..] == recs[1..][..i - 1];
  }

  /** Reading back the first `k` record bytes of a written file, for every `k`: exactly the records
      wholly inside the cut come back, each at its own place in the file, and a truncation is
      reported if and only if the cut is strictly inside a record. */
  lemma ScanOfCut(recs: seq<Rec>, k: nat) returns (m: nat)
    requires AllFit(recs) && k <= |Stream(recs)|
    ensures CutsAfter(recs, k, m)
    ensures ScanFrom(FileOf(recs)[..HEADER_SIZE + k], HEADER_SIZE)
            == Scan(Locate(recs[..m], HEADER_SIZE), |Stream(recs[..m])| < k)
  {
    hide Frame;
    var tail;
    m, tail := CutPoint(recs, k);
    var whole, file := Stream(recs[..m]), FileOf(recs)[..HEADER_SIZE + k];
    var stop := HEADER_SIZE + |whole|;
    assert file[HEADER_SIZE..] == whole + tail by {
      assert file[HEADER_SIZE..] == Stream(recs)[..k];
    }
    assert file[HEADER_SIZE..stop] == whole by {
      assert file[HEADER_SIZE..stop] == file[HEADER_SIZE..][..|whole|];
    }
    ScanOfStream(file, HEADER_SIZE, stop, recs[..m]);
    if tail != [] {
      assert file[stop..] == tail by {
        assert file[stop..] == file[HEADER_SIZE..][|whole|..];
      }
      ScanShort(file, stop, recs[m]);
    }
  }

  // ------------------------------------------------------------------ loading

  datatype Error =
    | BadMagic
    | BadVersion(version: nat)
    | BadHeaderSize(size: nat)
    | ShortPayload
    | ShortReturn
    | BadPage(index: nat)

  /** A record of fixed layout, decoded. */
  datatype Row = Row(rtype: nat, insn: nat, cpu: nat, flags: nat, fields: seq<nat>)

  /** A page as the dictionary holds it: its contents when loaded eagerly, its place in the file
      when indexed. */
  datatype Page =
    | Bytes(data: seq<byte>)
    | Place(offset: nat, size: nat, flags: nat, rawLen: nat)

  /** A snapshot as the loader builds it; `pages` is an insertion-ordered dictionary. */
  datatype Snap = Snap(insn: nat, cpu: nat, flags: nat, mark: seq<nat>, pages: seq<(nat, Page)>)

  datatype Trace = Trace(rows: seq<Row>, texts: seq<(nat, nat, seq<byte>)>, snaps: seq<Snap>)

  /** `n` 64-bit fields. */
  function Quads(n: nat): (ws: seq<nat>)
    ensures |ws| == n && Size(ws) == 8 * n
  {
    if n == 0 then [] else [8] + Quads(n - 1)
  }

  const WORD_FIELDS: seq<nat> := [4]
  const TWO_WORDS: seq<nat> := [4, 4]
  const SAMPLE_FIELDS := Quads(3) + TWO_WORDS
  const WATCHPC_FIELDS := TWO_WORDS + Quads(12)
  const RETURN_FIELDS := Quads(4) + TWO_WORDS
  const SNAPMARK_FIELDS: seq<nat> := [8, 8, 4, 4, 4, 4]
  const RAMPAGE_FIELDS: seq<nat> := [4, 4]
  const RAMPAGE_SIZE := 8
  const DISCON_V1_FIELDS := TWO_WORDS + Quads(16)
  const DISCON_V2_FIELDS := TWO_WORDS + Quads(19)
  const NFTRACE_FIELDS := Quads(5)
  const END_V1_FIELDS := Quads(6) + TWO_WORDS
  const END_FIELDS := Quads(6) + TWO_WORDS + Quads(1)

  /** The field widths of a record of fixed layout; the optional tails of DISCON and END are there
      when the payload is long enough. */
  function RowLayout(rtype: nat, len: nat): Option<seq<nat>> {
    if rtype == SAMPLE then Some(SAMPLE_FIELDS)
    else if rtype == DISCON then
      Some(if len >= 160 then DISCON_V2_FIELDS else DISCON_V1_FIELDS)
    else if rtype == WATCHPC then Some(WATCHPC_FIELDS)
    else if rtype == RETURN then Some(RETURN_FIELDS)
    else if rtype == IDLE || rtype == VCPU then Some(WORD_FIELDS)
    else if rtype == NFTRACE then Some(NFTRACE_FIELDS)
    else if rtype == END then Some(if len >= 64 then END_FIELDS else END_V1_FIELDS)
    else None
  }

  lemma LayoutSizes()
    ensures Size(SAMPLE_FIELDS) == 32 && Size(NFTRACE_FIELDS) == 40 && Size(WORD_FIELDS) == 4
    ensures Size(WATCHPC_FIELDS) == 104 && Size(RETURN_FIELDS) == 40 && Size(SNAPMARK_FIELDS) == 32
    ensures Size(DISCON_V1_FIELDS) == 136 && Size(DISCON_V2_FIELDS) == 160
    ensures Size(END_V1_FIELDS) == 56 && Size(END_FIELDS) == 64
  {
    assert Size(TWO_WORDS) == 8 && Size(WORD_FIELDS) == 4 && Size(SNAPMARK_FIELDS) == 32;
    hide Quads;
    hide Size;
    SizeAppend(Quads(3), TWO_WORDS);
    SizeAppend(TWO_WORDS, Quads(12));
    SizeAppend(Quads(4), TWO_WORDS);
    SizeAppend(TWO_WORDS, Quads(16));
    SizeAppend(TWO_WORDS, Quads(19));
    SizeAppend(Quads(6), TWO_WORDS);
    SizeAppend(Quads(6) + TWO_WORDS, Quads(1));
  }

  datatype Codec = Codec(compress: seq<byte> -> Option<seq<byte>>, decompress: seq<byte> -> Option<seq<byte>>)
  {
    /** What zlib promises: decompressing a compressed page gives the page back. */
    ghost predicate Lossless() {
      forall p :: compress(p).Some? ==> decompress(compress(p).value) == Some(p)
    }
  }

  /** A dictionary assignment: an existing key keeps its place. */
  function Upsert(pages: seq<(nat, Page)>, idx: nat, p: Page): seq<(nat, Page)> {
    if pages == [] then [(idx, p)]
    else if pages[0].0 == idx then [(idx, p)] + pages[1..]
    else [pages[0]] + Upsert(pages[1..], idx, p)
  }

  /** The stored body of a page, inflated if its flag says so, and checked against its declared length. */
  function DecodeBody(idx: nat, flags: nat, rawLen: nat, stored: seq<byte>, codec: Codec): Result<seq<byte>, Error> {
    var blob := if (flags / F_ZLIB) % 2 == 1 then codec.decompress(stored) else Some(stored);
    if blob.None? || |blob.value| != rawLen then Err(BadPage(idx)) else Ok(blob.value)
  }

  /** The dictionary value of a page record: decoded at once, or its place in the file. */
  function PageOf(l: Located, idx: nat, rawLen: nat, indexed: bool, codec: Codec): Result<Page, Error>
    requires RAMPAGE_SIZE <= |l.rec.payload|
  {
    if indexed then
      Ok(Place(l.body + RAMPAGE_SIZE, |l.rec.payload| - RAMPAGE_SIZE, l.rec.flags, rawLen))
    else
      match DecodeBody(idx, l.rec.flags, rawLen, l.rec.payload[RAMPAGE_SIZE..], codec)
      case Err(e) => Err(e)
      case Ok(data) => Ok(Bytes(data))
  }

  /** IndexedPages._read: go back to the file for a page. */
  function ReadPage(file: seq<byte>, idx: nat, p: Page, codec: Codec): Result<seq<byte>, Error> {
    match p
    case Bytes(data) => Ok(data)
    case Place(offset, size, flags, rawLen) =>
      if offset + size > |file| then Err(BadPage(idx))
      else DecodeBody(idx, flags, rawLen, file[offset..offset + size], codec)
  }

  /** cur_snap.pages[idx] = p, where cur_snap is the last snapshot appended. */
  function AddPage(snaps: seq<Snap>, idx: nat, p: Page): (r: seq<Snap>)
    requires snaps != []
    ensures |r| == |snaps|
  {
    var last := snaps[|snaps| - 1];
    snaps[|snaps| - 1 := last.(pages := Upsert(last.pages, idx, p))]
  }

  /** One record of the load loop. Unknown record types are skipped; a page before any snapshot
      mark is dropped. */
  function LoadStep(t: Trace, l: Located, indexed: bool, codec: Codec): Result<Trace, Error> {
    var r := l.rec;
    if r.rtype == META || r.rtype == WARN then
      Ok(t.(texts := t.texts + [(r.rtype, r.insn, r.payload)]))
    else if r.rtype == SNAPMARK then
      if |r.payload| < Size(SNAPMARK_FIELDS) then Err(ShortPayload)
      else Ok(t.(snaps := t.snaps + [Snap(r.insn, r.cpu, r.flags, Fields(SNAPMARK_FIELDS, r.payload), [])]))
    else if r.rtype == RAMPAGE then
      if t.snaps == [] then Ok(t)
      else if |r.payload| < RAMPAGE_SIZE then Err(ShortPayload)
      else
        var h := Fields(RAMPAGE_FIELDS, r.payload);
        match PageOf(l, h[0], h[1], indexed, codec)
        case Err(e) => Err(e)
        case Ok(p) => Ok(t.(snaps := AddPage(t.snaps, h[0], p)))
    else
      match RowLayout(r.rtype, |r.payload|)
      case None => Ok(t)
      case Some(widths) =>
        if |r.payload| < Size(widths) then Err(if r.rtype == RETURN then ShortReturn else ShortPayload)
        else Ok(t.(rows := t.rows + [Row(r.rtype, r.insn, r.cpu, r.flags, Fields(widths, r.payload))]))
  }

  function LoadAll(t: Trace, ls: seq<Located>, indexed: bool, codec: Codec): Result<Trace, Error>
    decreases ls
  {
    if ls == [] then Ok(t)
    else
      match LoadStep(t, ls[0], indexed, codec)
      case Err(e) => Err(e)
      case Ok(t') => LoadAll(t', ls[1..], indexed, codec)
  }

  const SUPPORTED_VERSIONS := {1, 2}

  function CheckFileHeader(file: seq<byte>): Result<(), Error> {
    if |file| < 16 || file[..8] != MAGIC then Err(BadMagic)
    else
      var h := Fields([4, 4], file[8..]);
      if h[0] !in SUPPORTED_VERSIONS then Err(BadVersion(h[0]))
      else if h[1] != HEADER_SIZE then Err(BadHeaderSize(h[1]))
      else Ok(())
  }

  const EMPTY := Trace([], [], [])

  datatype Loaded = Loaded(trace: Trace, truncatedAtEof: bool)

  function LoadFile(file: seq<byte>, indexed: bool, codec: Codec): Result<Loaded, Error> {
    match CheckFileHeader(file)
    case Err(e) => Err(e)
    case Ok(_) =>
      var scan := ScanFrom(file, HEADER_SIZE);
      match LoadAll(EMPTY, scan.recs, indexed, codec)
      case Err(e) => Err(e)
      case Ok(t) => Ok(Loaded(t, scan.truncatedAtEof))
  }

  function Finish(t: Result<Trace, Error>, truncated: bool): Result<Loaded, Error> {
    match t
    case Err(e) => Err(e)
    case Ok(trace) => Ok(Loaded(trace, truncated))
  }

  // ------------------------------------------------------------------ a whole written file

  /** What a log of records means to the eager loader. */
  function LogTrace(log: seq<Rec>, codec: Codec): Result<Trace, Error> {
    LoadAll(EMPTY, Locate(log, HEADER_SIZE), false, codec)
  }

  lemma FileHeaderAccepted(rest: seq<byte>)
    ensures CheckFileHeader(FileHeader() + rest) == Ok(())
  {
    var file, tail := FileHeader() + rest, PackFields([4, 4], [FORMAT_VERSION, HEADER_SIZE]);
    assert FileHeader() == MAGIC + tail;
    assert file[..8] == MAGIC && file[8..] == tail + rest;
    assert Pow256(4) > 65536;
    FieldsOfPacked([4, 4], [FORMAT_VERSION, HEADER_SIZE], rest);
    hide PackFields;
    hide Fields;
  }

  /** Loading the first `k` record bytes of a written file, for every `k`, gives what the `m` records
      wholly inside the cut mean, and a truncation report exactly when the cut splits a record. */
  lemma LoadOfCut(log: seq<Rec>, k: nat, codec: Codec) returns (m: nat)
    requires AllFit(log) && k <= |Stream(log)|
    ensures CutsAfter(log, k, m)
    ensures LoadFile(FileOf(log)[..HEADER_SIZE + k], false, codec)
            == Finish(LogTrace(log[..m], codec), |Stream(log[..m])| < k)
  {
    hide Frame;
    hide LoadAll;
    hide ScanFrom;
    hide Locate;
    FileHeaderAccepted(Stream(log)[..k]);
    hide CheckFileHeader;
    hide FileHeader;
    m := ScanOfCut(log, k);
    assert FileOf(log)[..HEADER_SIZE + k] == FileHeader() + Stream(log)[..k];
  }

  /** A finished file loads as its log, with no truncation. */
  lemma LoadOfFile(log: seq<Rec>, codec: Codec)
    requires AllFit(log)
    ensures LoadFile(FileOf(log), false, codec) == Finish(LogTrace(log, codec), false)
  {
    hide Frame;
    hide LoadFile;
    hide LogTrace;
    var m := LoadOfCut(log, |Stream(log)|, codec);
    assert FileOf(log)[..HEADER_SIZE + |Stream(log)|] == FileOf(log);
    if m < |log| {
      PrefixShorter(log, m + 1);
    }
    assert log[..m] == log;
  }

  lemma StreamSize(log: seq<Rec>)
    ensures |Stream(log)| == if log == [] then 0 else HEADER_SIZE + |log[0].payload| + |Stream(log[1..])|
  {
  }

  lemma LocateOne(r: Rec, pos: nat)
    ensures Locate([r], pos) == [Located(r, pos + HEADER_SIZE)] && Locate([], pos) == []
  {
    assert [r][1..] == [];
  }

  lemma {:induction false} LocateAppend(log: seq<Rec>, r: Rec, pos: nat)
    ensures Locate(log + [r], pos) == Locate(log, pos) + [Located(r, pos + |Stream(log)| + HEADER_SIZE)]
    decreases log
  {
    hide Stream;
    hide Locate;
    StreamSize(log);
    if log == [] {
      assert log + [r] == [r];
      LocateOne(r, pos);
    } else {
      var next := pos + HEADER_SIZE + |log[0].payload|;
      assert (log + [r])[0] == log[0] && (log + [r])[1..] == log[1..] + [r];
      LocateNext(log, pos);
      LocateNext(log + [r], pos);
      LocateAppend(log[1..], r, next);
    }
  }

  lemma {:induction false} LoadAppend(t: Trace, ls: seq<Located>, l: Located, indexed: bool, codec: Codec)
    ensures LoadAll(t, ls + [l], indexed, codec) ==
            match LoadAll(t, ls, indexed, codec)
            case Err(e) => Err(e)
            case Ok(t') => LoadStep(t', l, indexed, codec)
    decreases ls
  {
    if ls == [] {
      assert ls + [l] == [l];
      assert LoadAll(t, [l], indexed, codec) ==
             match LoadStep(t, l, indexed, codec) case Err(e) => Err(e) case Ok(t') => LoadAll(t', [], indexed, codec);
    } else {
      assert (ls + [l])[1..] == ls[1..] + [l];
      var first := LoadStep(t, ls[0], indexed, codec);
      if first.Ok? {
        LoadAppend(first.value, ls[1..], l, indexed, codec);
      }
    }
  }

  lemma EagerIgnoresPlace(t: Trace, r: Rec, body: nat, codec: Codec)
    ensures LoadStep(t, Located(r, body), false, codec) == LoadStep(t, Located(r, 0), false, codec)
  {
  }

  /** Writing one more record is one more step of the load loop. */
  lemma LogTraceAppend(log: seq<Rec>, r: Rec, codec: Codec)
    requires LogTrace(log, codec).Ok?
    ensures LogTrace(log + [r], codec) == LoadStep(LogTrace(log, codec).value, Located(r, 0), false, codec)
  {
    LocateAppend(log, r, HEADER_SIZE);
    EagerIgnoresPlace(LogTrace(log, codec).value, r, HEADER_SIZE + |Stream(log)| + HEADER_SIZE, codec);
    hide LoadStep;
    LoadAppend(EMPTY, Locate(log, HEADER_SIZE), Located(r, HEADER_SIZE + |Stream(log)| + HEADER_SIZE), false, codec);
  }

  // ------------------------------------------------------------------ indexed pages

  /** The payload really is at its recorded place. */
  ghost predicate InFile(file: seq<byte>, l: Located) {
    && l.body + |l.rec.payload| <= |file|
    && file[l.body..l.body + |l.rec.payload|] == l.rec.payload
  }

  lemma {:induction false} ScanInFile(file: seq<byte>, pos: nat)
    ensures forall l :: l in ScanFrom(file, pos).recs ==> InFile(file, l)
    decreases |file| - pos
  {
    hide HeaderAt;
    if pos + HEADER_SIZE <= |file| {
      var next := pos + HEADER_SIZE + HeaderAt(file, pos)[2];
      if next <= |file| {
        ScanInFile(file, next);
      }
    }
  }

  /** Page by page, the indexed dictionary reads back what the eager one holds, in the same order. */
  ghost predicate SamePages(file: seq<byte>, eager: seq<(nat, Page)>, indexed: seq<(nat, Page)>, codec: Codec) {
    && |eager| == |indexed|
    && forall i :: 0 <= i < |eager| ==>
         && eager[i].0 == indexed[i].0
         && eager[i].1.Bytes?
         && ReadPage(file, indexed[i].0, indexed[i].1, codec) == Ok(eager[i].1.data)
  }

  ghost predicate SameSnap(file: seq<byte>, eager: Snap, indexed: Snap, codec: Codec) {
    && indexed.(pages := eager.pages) == eager
    && SamePages(file, eager.pages, indexed.pages, codec)
  }

  ghost predicate SameTrace(file: seq<byte>, eager: Trace, indexed: Trace, codec: Codec) {
    && eager.rows == indexed.rows && eager.texts == indexed.texts
    && |eager.snaps| == |indexed.snaps|
    && forall i :: 0 <= i < |eager.snaps| ==> SameSnap(file, eager.snaps[i], indexed.snaps[i], codec)
  }

  lemma {:induction false} UpsertSame(file: seq<byte>, eager: seq<(nat, Page)>, indexed: seq<(nat, Page)>,
                                      idx: nat, p: Page, q: Page, codec: Codec)
    requires SamePages(file, eager, indexed, codec)
    requires p.Bytes? && ReadPage(file, idx, q, codec) == Ok(p.data)
    ensures SamePages(file, Upsert(eager, idx, p), Upsert(indexed, idx, q), codec)
    decreases eager
  {
    if eager != [] && eager[0].0 != idx {
      UpsertSame(file, eager[1..], indexed[1..], idx, p, q, codec);
    }
  }

  /** A page record's place in the file reads back as its eager decoding, errors included. */
  lemma PlaceReadsBack(file: seq<byte>, l: Located, idx: nat, rawLen: nat, codec: Codec)
    requires InFile(file, l) && RAMPAGE_SIZE <= |l.rec.payload|
    ensures var q := PageOf(l, idx, rawLen, true, codec);
            q.Ok? &&
            ReadPage(file, idx, q.value, codec) ==
            match PageOf(l, idx, rawLen, false, codec) case Ok(p) => Ok(p.data) case Err(e) => Err(e)
  {
    var from, n := l.body + RAMPAGE_SIZE, |l.rec.payload|;
    assert file[from..l.body + n] == file[l.body..l.body + n][RAMPAGE_SIZE..];
  }

  lemma StepSame(file: seq<byte>, eager: Trace, indexed: Trace, l: Located, codec: Codec)
    requires SameTrace(file, eager, indexed, codec) && InFile(file, l)
    requires LoadStep(eager, l, false, codec).Ok?
    ensures LoadStep(indexed, l, true, codec).Ok?
    ensures SameTrace(file, LoadStep(eager, l, false, codec).value, LoadStep(indexed, l, true, codec).value, codec)
  {
    hide Fields;
    hide DecodeBody;
    if l.rec.rtype == RAMPAGE && eager.snaps != [] {
      var h := Fields(RAMPAGE_FIELDS, l.rec.payload);
      PlaceReadsBack(file, l, h[0], h[1], codec);
      var n := |eager.snaps| - 1;
      assert SameSnap(file, eager.snaps[n], indexed.snaps[n], codec);
      UpsertSame(file, eager.snaps[n].pages, indexed.snaps[n].pages, h[0],
                 PageOf(l, h[0], h[1], false, codec).value, PageOf(l, h[0], h[1], true, codec).value, codec);
    }
  }

  lemma {:induction false} LoadAllSame(file: seq<byte>, eager: Trace, indexed: Trace, ls: seq<Located>, codec: Codec)
    requires SameTrace(file, eager, indexed, codec)
    requires forall l :: l in ls ==> InFile(file, l)
    requires LoadAll(eager, ls, false, codec).Ok?
    ensures LoadAll(indexed, ls, true, codec).Ok?
    ensures SameTrace(file, LoadAll(eager, ls, false, codec).value, LoadAll(indexed, ls, true, codec).value, codec)
    decreases ls
  {
    hide LoadStep;
    if ls != [] {
      StepSame(file, eager, indexed, ls[0], codec);
      LoadAllSame(file, LoadStep(eager, ls[0], false, codec).value, LoadStep(indexed, ls[0], true, codec).value,
                  ls[1..], codec);
    }
  }

  /** Whatever the file, if it loads eagerly it loads indexed, with the same rows and snapshots, and
      every page read back later is the page the eager loader holds. */
  lemma IndexedLoadSame(file: seq<byte>, codec: Codec)
    requires LoadFile(file, false, codec).Ok?
    ensures LoadFile(file, true, codec).Ok?
    ensures var e, x := LoadFile(file, false, codec).value, LoadFile(file, true, codec).value;
            e.truncatedAtEof == x.truncatedAtEof && SameTrace(file, e.trace, x.trace, codec)
  {
    ScanInFile(file, HEADER_SIZE);
    LoadAllSame(file, EMPTY, EMPTY, ScanFrom(file, HEADER_SIZE).recs, codec);
  }

  // ------------------------------------------------------------------ packed rows

  const ROW_PREFIX: seq<nat> := [8, 1, 4]
  const ROW_PREFIX_SIZE := 13

  function RowSize(widths: seq<nat>): (n: nat)
    ensures n > 0
  {
    ROW_PREFIX_SIZE + Size(widths)
  }

  predicate RowInside(data: seq<byte>, widths: seq<nat>, i: nat) {
    i * RowSize(widths) + RowSize(widths) <= |data|
  }

  /** The fields unpacked from the buffer at row `i`. */
  function RowFields(data: seq<byte>, widths: seq<nat>, i: nat): (vs: seq<nat>)
    requires RowInside(data, widths, i)
    ensures |vs| == 3 + |widths|
  {
    SizeAppend(ROW_PREFIX, widths);
    Fields(ROW_PREFIX + widths, data[i * RowSize(widths)..])
  }

  lemma {:induction false} RowBefore(i: nat, count: nat, n: nat)
    requires i < count
    ensures i * n + n <= count * n
    decreases count
  {
    assert count * n == (count - 1) * n + n;
    if i + 1 < count {
      RowBefore(i, count - 1, n);
    }
  }

  lemma RowKept(before: seq<byte>, row: seq<byte>, widths: seq<nat>, count: nat, i: nat)
    requires |before| == count * RowSize(widths) && i < count
    ensures RowInside(before, widths, i) && RowInside(before + row, widths, i)
    ensures RowFields(before + row, widths, i) == RowFields(before, widths, i)
  {
    var n, data := RowSize(widths), before + row;
    RowBefore(i, count, n);
    var at := i * n;
    SizeAppend(ROW_PREFIX, widths);
    hide Size;
    hide Fields;
    assert data[at..][..n] == before[at..][..n];
    FieldsPrefix(ROW_PREFIX + widths, data[at..], n);
    FieldsPrefix(ROW_PREFIX + widths, before[at..], n);
  }

  /** Appending a row disturbs none of the `count` rows before it. */
  lemma RowsKept(before: seq<byte>, row: seq<byte>, widths: seq<nat>, count: nat)
    requires |before| == count * RowSize(widths) && |row| == RowSize(widths)
    ensures |before + row| == (count + 1) * RowSize(widths)
    ensures RowInside(before + row, widths, count)
            && RowFields(before + row, widths, count)
                 == (SizeAppend(ROW_PREFIX, widths); Fields(ROW_PREFIX + widths, row))
    ensures forall i :: 0 <= i < count ==>
            && RowInside(before, widths, i) && RowInside(before + row, widths, i)
              && RowFields(before + row, widths, i) == RowFields(before, widths, i)
  {
    hide Size;
    hide Fields;
    SizeAppend(ROW_PREFIX, widths);
    assert (before + row)[count * RowSize(widths)..] == row;
    forall i | 0 <= i < count
      ensures RowInside(before, widths, i) && RowInside(before + row, widths, i)
      ensures RowFields(before + row, widths, i) == RowFields(before, widths, i)
    {
      RowKept(before, row, widths, count, i);
    }
    hide RowFields;
  }

  /** PackedWatchHits and PackedFunctionReturns: fixed-width rows in one growing byte buffer. `rows`
      is what the rows would be if each had been decoded when it arrived. */
  class PackedRows {
    const rtype: nat
    const widths: seq<nat>
    var data: seq<byte>
    ghost var rows: seq<Row>

    ghost predicate Valid()
      reads this
    {
      && |data| == |rows| * RowSize(widths)
      && forall i :: 0 <= i < |rows| ==>
           && RowInside(data, widths, i)
           && rows[i].rtype == rtype
           && RowFields(data, widths, i) == [rows[i].insn, rows[i].cpu, rows[i].flags] + rows[i].fields
    }

    constructor (rtype: nat, widths: seq<nat>)
      ensures Valid() && rows == [] && this.rtype == rtype && this.widths == widths
    {
      this.rtype := rtype;
      this.widths := widths;
      data := [];
      rows := [];
    }

    /** Appending never disturbs an earlier row, and the new row is the eager decoding of its payload. */
    method AppendRecord(insn: nat, cpu: nat, flags: nat, payload: seq<byte>)
      requires Valid() && |payload| == Size(widths)
      requires Fit(ROW_PREFIX, [insn, cpu, flags])
      modifies this
      ensures Valid()
      ensures rows == old(rows) + [Row(rtype, insn, cpu, flags, Fields(widths, payload))]
    {
      var row := PackFields(ROW_PREFIX, [insn, cpu, flags]) + payload;
      ghost var before := data;
      data := data + row;
      rows := rows + [Row(rtype, insn, cpu, flags, Fields(widths, payload))];
      PackedRowDecodes(insn, cpu, flags, payload, widths);
      RowsKept(before, row, widths, |old(rows)|);
    }

    /** __getitem__ with an integer: negative indices count from the end, others out of range raise. */
    method Get(index: int) returns (r: Option<Row>)
      requires Valid()
      ensures var i := if index < 0 then index + |rows| else index;
              r == if 0 <= i < |rows| then Some(rows[i]) else None
    {
      hide RowFields;
      hide RowInside;
      hide RowSize;
      var n := RowSize(widths);
      var len := |data| / n;
      DivUnique(|data|, |rows|, n);
      var i := if index < 0 then index + len else index;
      if i < 0 || len <= i {
        return None;
      }
      assert RowInside(data, widths, i);
      var v := RowFields(data, widths, i);
      assert v[3..] == rows[i].fields;
      r := Some(Row(rtype, v[0], v[1], v[2], v[3..]));
    }
  }

  /** Decoding a packed row gives the prefix values and the payload's own fields. */
  lemma PackedRowDecodes(insn: nat, cpu: nat, flags: nat, payload: seq<byte>, widths: seq<nat>)
    requires |payload| == Size(widths) && Fit(ROW_PREFIX, [insn, cpu, flags])
    ensures Size(ROW_PREFIX + widths) == ROW_PREFIX_SIZE + Size(widths)
    ensures Fields(ROW_PREFIX + widths, PackFields(ROW_PREFIX, [insn, cpu, flags]) + payload)
            == [insn, cpu, flags] + Fields(widths, payload)
  {
    var prefix := PackFields(ROW_PREFIX, [insn, cpu, flags]);
    SizeAppend(ROW_PREFIX, widths);
    FieldsAppend(ROW_PREFIX, widths, prefix, payload);
    FieldsOfPacked(ROW_PREFIX, [insn, cpu, flags], []);
    assert prefix + [] == prefix;
  }

  // ------------------------------------------------------------------ the loader

  /** Which rows are packed: returns always, watch hits if that is asked for. */
  predicate IsPacked(rtype: nat, compact: bool) {
    rtype == RETURN || (compact && rtype == WATCHPC)
  }

  function RowsOf(rows: seq<Row>, rtype: nat): seq<Row> {
    if rows == [] then []
    else
      var n := |rows| - 1;
      RowsOf(rows[..n], rtype) + if rows[n].rtype == rtype then [rows[n]] else []
  }

  /** The rows that are decoded at once. */
  function Loose(rows: seq<Row>, compact: bool): seq<Row> {
    if rows == [] then []
    else
      var n := |rows| - 1;
      Loose(rows[..n], compact) + if IsPacked(rows[n].rtype, compact) then [] else [rows[n]]
  }

  lemma RowsNext(rows: seq<Row>, row: Row, compact: bool)
    ensures forall rtype ::
              RowsOf(rows + [row], rtype) == RowsOf(rows, rtype) + if row.rtype == rtype then [row] else []
    ensures Loose(rows + [row], compact) == Loose(rows, compact) + if IsPacked(row.rtype, compact) then [] else [row]
  {
    assert (rows + [row])[..|rows|] == rows;
  }

  /** The packed rows of a trace, and the trace without them. */
  ghost predicate Holds(t: Trace, loose: Trace, rets: PackedRows, hits: PackedRows, compact: bool)
    reads rets, hits
  {
    && rets != hits && rets.Valid() && hits.Valid()
    && rets.rtype == RETURN && rets.widths == RETURN_FIELDS && hits.rtype == WATCHPC && hits.widths == WATCHPC_FIELDS
    && loose == t.(rows := Loose(t.rows, compact))
    && rets.rows == RowsOf(t.rows, RETURN)
    && hits.rows == if compact then RowsOf(t.rows, WATCHPC) else []
  }

  /** A record that is not packed: one step of the load loop on what is loose. */
  lemma LooseStep(t: Trace, loose: Trace, l: Located, indexed: bool, compact: bool, codec: Codec)
    requires loose == t.(rows := Loose(t.rows, compact)) && !IsPacked(l.rec.rtype, compact)
    ensures var step := LoadStep(t, l, indexed, codec);
            if step.Err? then LoadStep(loose, l, indexed, codec) == step
            else
              var after := step.value;
              && LoadStep(loose, l, indexed, codec) == Ok(after.(rows := Loose(after.rows, compact)))
              && RowsOf(after.rows, RETURN) == RowsOf(t.rows, RETURN)
              && (compact ==> RowsOf(after.rows, WATCHPC) == RowsOf(t.rows, WATCHPC))
  {
    hide Fields;
    hide DecodeBody;
    hide Quads;
    hide Size;
    hide RowsOf;
    hide Loose;
    var step := LoadStep(t, l, indexed, codec);
    if step.Ok? && step.value.rows != t.rows {
      RowsNext(t.rows, step.value.rows[|t.rows|], compact);
    }
  }

  /** A record that is packed: its row, or the error of a short payload. */
  lemma PackedStep(t: Trace, l: Located, indexed: bool, compact: bool, codec: Codec, widths: seq<nat>)
    requires IsPacked(l.rec.rtype, compact) && widths == if l.rec.rtype == RETURN then RETURN_FIELDS else WATCHPC_FIELDS
    ensures LoadStep(t, l, indexed, codec)
            == if |l.rec.payload| < Size(widths) then Err(if l.rec.rtype == RETURN then ShortReturn else ShortPayload)
               else Ok(t.(rows := t.rows + [RowOf(l.rec, widths)]))
  {
    hide Quads;
    hide Fields;
    hide Size;
    if Size(widths) <= |l.rec.payload| {
      FieldsPrefix(widths, l.rec.payload, Size(widths));
    }
  }

  function RowOf(r: Rec, widths: seq<nat>): Row
    requires Size(widths) <= |r.payload|
  {
    Row(r.rtype, r.insn, r.cpu, r.flags, Fields(widths, r.payload[..Size(widths)]))
  }

  /** One record of the load loop. */
  method TakeRecord(ghost t: Trace, loose: Trace, l: Located, rets: PackedRows, hits: PackedRows,
                    indexed: bool, compact: bool, codec: Codec)
    returns (r: Result<Trace, Error>)
    requires Holds(t, loose, rets, hits, compact) && Fit(ROW_PREFIX, [l.rec.insn, l.rec.cpu, l.rec.flags])
    modifies rets, hits
    ensures r.Ok? == LoadStep(t, l, indexed, codec).Ok?
    ensures r.Err? ==> r.error == LoadStep(t, l, indexed, codec).error
    ensures r.Ok? ==> Holds(LoadStep(t, l, indexed, codec).value, r.value, rets, hits, compact)
  {
    hide LoadStep;
    hide Fields;
    hide Quads;
    hide Size;
    hide RowsOf;
    hide Loose;
    hide Fit;
    hide PackedRows.Valid;
    var rec := l.rec;
    if rec.rtype == RETURN {
      PackedStep(t, l, indexed, compact, codec, RETURN_FIELDS);
      if |rec.payload| < Size(RETURN_FIELDS) {
        return Err(ShortReturn);
      }
      RowsNext(t.rows, RowOf(rec, RETURN_FIELDS), compact);
      rets.AppendRecord(rec.insn, rec.cpu, rec.flags, rec.payload[..Size(RETURN_FIELDS)]);
      r := Ok(loose);
    } else if compact && rec.rtype == WATCHPC {
      PackedStep(t, l, indexed, compact, codec, WATCHPC_FIELDS);
      if |rec.payload| < Size(WATCHPC_FIELDS) {
        return Err(ShortPayload);
      }
      RowsNext(t.rows, RowOf(rec, WATCHPC_FIELDS), compact);
      hits.AppendRecord(rec.insn, rec.cpu, rec.flags, rec.payload[..Size(WATCHPC_FIELDS)]);
      r := Ok(loose);
    } else {
      LooseStep(t, loose, l, indexed, compact, codec);
      r := LoadStep(loose, l, indexed, codec);
    }
  }

  /** nftrace.load: records are interpreted while the file is being scanned. Returns, and watch hits if
      that is asked for, go into packed rows; those are the rows that eager loading has. */
  method Load(file: seq<byte>, indexed: bool, compact: bool, codec: Codec)
    returns (r: Result<Loaded, Error>, rets: PackedRows, hits: PackedRows)
    ensures r.Ok? == LoadFile(file, indexed, codec).Ok?
    ensures r.Err? ==> r.error == LoadFile(file, indexed, codec).error
    ensures r.Ok? ==> r.value.truncatedAtEof == LoadFile(file, indexed, codec).value.truncatedAtEof
    ensures r.Ok? ==> Holds(LoadFile(file, indexed, codec).value.trace, r.value.trace, rets, hits, compact)
  {
    hide LoadStep;
    hide HeaderAt;
    hide Holds;
    rets := new PackedRows(RETURN, RETURN_FIELDS);
    hits := new PackedRows(WATCHPC, WATCHPC_FIELDS);
    var header := CheckFileHeader(file);
    if header.Err? {
      return Err(header.error), rets, hits;
    }
    var loose, pos, truncated := EMPTY, HEADER_SIZE, false;
    ghost var t := EMPTY;
    HoldsNothing(rets, hits, compact);
    while pos < |file|
      invariant HEADER_SIZE <= pos <= |file| && !truncated && fresh(rets) && fresh(hits)
      invariant Holds(t, loose, rets, hits, compact)
      invariant LoadFile(file, indexed, codec) == LoadRest(t, file, pos, indexed, codec)
    {
      RestAt(t, file, pos, indexed, codec);
      if pos + HEADER_SIZE > |file| {
        truncated := true;
        break;
      }
      var h, body := HeaderAt(file, pos), pos + HEADER_SIZE;
      if body + h[2] > |file| {
        truncated := true;
        break;
      }
      var l := Located(Rec(h[0], h[1], h[3], h[4], file[body..body + h[2]]), body);
      HeaderFits(file, pos);
      var step := TakeRecord(t, loose, l, rets, hits, indexed, compact, codec);
      if step.Err? {
        return Err(step.error), rets, hits;
      }
      t := LoadStep(t, l, indexed, codec).value;
      loose, pos := step.value, body + h[2];
    }
    if !truncated {
      RestAtEnd(t, file, pos, indexed, codec);
    }
    r := Ok(Loaded(loose, truncated));
  }

  /** What is left to load from `pos` on. */
  function LoadRest(t: Trace, file: seq<byte>, pos: nat, indexed: bool, codec: Codec): Result<Loaded, Error> {
    Finish(LoadAll(t, ScanFrom(file, pos).recs, indexed, codec), ScanFrom(file, pos).truncatedAtEof)
  }

  lemma RestAtEnd(t: Trace, file: seq<byte>, pos: nat, indexed: bool, codec: Codec)
    requires pos >= |file|
    ensures LoadRest(t, file, pos, indexed, codec) == Ok(Loaded(t, false))
  {
  }

  lemma RestAt(t: Trace, file: seq<byte>, pos: nat, indexed: bool, codec: Codec)
    requires pos < |file|
    ensures LoadRest(t, file, pos, indexed, codec) ==
            if pos + HEADER_SIZE > |file| || pos + HEADER_SIZE + HeaderAt(file, pos)[2] > |file|
            then Ok(Loaded(t, true))
            else
              var h, body := HeaderAt(file, pos), pos + HEADER_SIZE;
              var l := Located(Rec(h[0], h[1], h[3], h[4], file[body..body + h[2]]), body);
              match LoadStep(t, l, indexed, codec)
              case Err(e) => Err(e)
              case Ok(t') => LoadRest(t', file, body + h[2], indexed, codec)
  {
    hide LoadStep;
    hide HeaderAt;
    if pos + HEADER_SIZE <= |file| && pos + HEADER_SIZE + HeaderAt(file, pos)[2] <= |file| {
      assert ScanFrom(file, pos).recs[1..] == ScanFrom(file, pos + HEADER_SIZE + HeaderAt(file, pos)[2]).recs;
    }
  }

  lemma HeaderFits(file: seq<byte>, pos: nat)
    requires pos + HEADER_SIZE <= |file|
    ensures var h := HeaderAt(file, pos); Fit(ROW_PREFIX, [h[4], h[1], h[3]])
  {
    FieldsFit(HEADER, file[pos..]);
    hide Fields;
    hide Pow256;
  }

  lemma HoldsNothing(rets: PackedRows, hits: PackedRows, compact: bool)
    requires rets != hits && rets.Valid() && hits.Valid() && rets.rows == [] && hits.rows == []
    requires rets.rtype == RETURN && rets.widths == RETURN_FIELDS && hits.rtype == WATCHPC
             && hits.widths == WATCHPC_FIELDS
    ensures Holds(EMPTY, EMPTY, rets, hits, compact)
  {
  }
}
