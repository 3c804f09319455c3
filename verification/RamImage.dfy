/** The host's copy of guest memory (nodefusion/host/guest.py). `Ram` is its value, `RamImage` the
    object whose buffers `apply` overwrites. */
module RamImage {
  import opened Wrappers
  import opened LittleEndian

  const PGSIZE := 4096

  /** Python's // on a possibly negative dividend: the floor. */
  function FloorDiv(a: int, d: nat): int
    requires d > 0
  {
    a / d
  }

  datatype Ram = Ram(base: nat, size: nat, data: seq<byte>, seen: seq<bool>)
  {
    ghost predicate Valid() {
      |data| == size && |seen| == size / PGSIZE
    }

    /** One page of a dictionary: data first, then the seen flag. A page that does not fit is
        skipped; an index past the flags raises after the data was written. */
    function ApplyPage(idx: nat, blob: seq<byte>): (r: (Ram, bool))
      requires Valid()
      ensures r.0.Valid() && r.0.base == base && r.0.size == size
    {
      var off := idx * PGSIZE;
      if off + |blob| > size then (this, false)
      else
        var written := data[..off] + blob + data[off + |blob|..];
        if idx >= |seen| then (this.(data := written), true)
        else (this.(data := written, seen := seen[idx := true]), false)
    }

    /** apply: the pages of one dictionary in its order, up to the first exception. */
    function Apply(pages: seq<(nat, seq<byte>)>): (r: (Ram, bool))
      requires Valid()
      ensures r.0.Valid() && r.0.base == base && r.0.size == size
      decreases pages
    {
      if pages == [] then (this, false)
      else
        var (next, raised) := ApplyPage(pages[0].0, pages[0].1);
        if raised then (next, true) else next.Apply(pages[1..])
    }

    predicate PageSeen(idx: int) {
      0 <= idx < |seen| && seen[idx]
    }

    /** _off: the buffer offset of `n` bytes at `pa`, if all of them lie in observed pages. */
    function Off(pa: int, n: nat): (r: Option<nat>)
      ensures r.Some? ==> r.value == pa - base && r.value + n <= size
    {
      var off := pa - base;
      if off < 0 || off + n > size then None
      else if forall idx :: FloorDiv(off, PGSIZE) <= idx <= FloorDiv(off + n - 1, PGSIZE) ==> PageSeen(idx)
           then Some(off)
      else None
    }

    function Blob(pa: int, n: nat): (r: Option<seq<byte>>)
      requires Valid()
      ensures r.Some? ==> |r.value| == n
    {
      match Off(pa, n)
      case None => None
      case Some(o) => Some(data[o..o + n])
    }

    function U64(pa: int): Option<nat>
      requires Valid()
    {
      match Off(pa, 8)
      case None => None
      case Some(o) => Some(Unpack(data[o..o + 8]))
    }

    function PageAt(i: nat): seq<byte>
      requires Valid() && i < |seen|
    {
      data[i * PGSIZE..(i + 1) * PGSIZE]
    }
  }

  /** RamImage.__init__: all zero, nothing seen. */
  function Fresh(base: nat, size: nat): (r: Ram)
    ensures r.Valid()
    ensures forall i :: 0 <= i < |r.seen| ==> !r.seen[i]
  {
    Ram(base, size, seq(size, _ => 0), seq(size / PGSIZE, _ => false))
  }

  /** A whole page inside the image replaces that page and touches no other. */
  lemma ApplyWholePage(ram: Ram, idx: nat, blob: seq<byte>)
    requires ram.Valid() && idx < |ram.seen| && |blob| == PGSIZE
    ensures var (r, raised) := ram.ApplyPage(idx, blob);
            && !raised
            && r.seen == ram.seen[idx := true]
            && r.PageAt(idx) == blob
            && forall j :: 0 <= j < |ram.seen| && j != idx ==> r.PageAt(j) == ram.PageAt(j)
  {
    var off := idx * PGSIZE;
    var r := ram.ApplyPage(idx, blob).0;
    assert r.data == ram.data[..off] + blob + ram.data[off + PGSIZE..];
    assert r.PageAt(idx) == blob;
    forall j | 0 <= j < |ram.seen| && j != idx
      ensures r.PageAt(j) == ram.PageAt(j)
    {
      if j < idx {
        assert (j + 1) * PGSIZE <= off;
      } else {
        assert off + PGSIZE <= j * PGSIZE;
      }
    }
  }

  /** What a reader of one whole page sees: its bytes once the page was observed, nothing before. */
  lemma BlobOfPage(ram: Ram, i: nat)
    requires ram.Valid() && i < |ram.seen|
    ensures ram.Blob(ram.base + i * PGSIZE, PGSIZE)
            == if ram.seen[i] then Some(ram.PageAt(i)) else None
  {
    var off := i * PGSIZE;
    assert FloorDiv(off, PGSIZE) == i && FloorDiv(off + PGSIZE - 1, PGSIZE) == i;
    assert ram.PageSeen(i) <==> ram.seen[i];
  }

  /** Eight bytes of memory, all in pages seen, make a word whose first byte is the lowest. */
  lemma WordAt(ram: Ram, pa: int)
    requires ram.Valid()
    ensures var o := pa - ram.base;
            ram.U64(pa).Some? <==>
            && 0 <= o && o + 8 <= ram.size
            && o / 4096 < |ram.seen| && ram.seen[o / 4096]
            && (o + 7) / 4096 < |ram.seen| && ram.seen[(o + 7) / 4096]
    ensures ram.U64(pa).Some? ==>
              var w := ram.data[pa - ram.base..pa - ram.base + 8];
              ram.U64(pa).value
              == w[0] as nat + 0x100 * w[1] as nat + 0x1_0000 * w[2] as nat + 0x100_0000 * w[3] as nat
                 + 0x1_0000_0000
                   * (w[4] as nat + 0x100 * w[5] as nat + 0x1_0000 * w[6] as nat + 0x100_0000 * w[7] as nat)
  {
    hide Unpack;
    var o := pa - ram.base;
    if 0 <= o && o + 8 <= ram.size {
      assert FloorDiv(o, PGSIZE) == o / 4096 && FloorDiv(o + 7, PGSIZE) == (o + 7) / 4096;
      assert o / 4096 <= (o + 7) / 4096 <= o / 4096 + 1;
      LongWord(ram.data[o..o + 8]);
      if ram.Off(pa, 8).Some? {
        assert ram.PageSeen(o / 4096) && ram.PageSeen((o + 7) / 4096);
      }
    }
  }

  class RamImage {
    const base: nat
    const size: nat
    var data: array<byte>
    var seen: array<bool>

    ghost predicate Valid()
      reads this
    {
      data.Length == size && seen.Length == size / PGSIZE
    }

    ghost function Value(): (r: Ram)
      requires Valid()
      reads this, data, seen
      ensures r.Valid()
    {
      Ram(base, size, data[..], seen[..])
    }

    constructor (base: nat, size: nat)
      ensures Valid() && fresh(data) && fresh(seen)
      ensures Value() == Fresh(base, size)
    {
      this.base := base;
      this.size := size;
      data := new byte[size](_ => 0);
      seen := new bool[size / PGSIZE](_ => false);
    }

    method ApplyPage(idx: nat, blob: seq<byte>) returns (raised: bool)
      requires Valid()
      modifies data, seen
      ensures (Value(), raised) == old(Value()).ApplyPage(idx, blob)
    {
      var off := idx * PGSIZE;
      if off + |blob| > size {
        return false;
      }
      forall j | 0 <= j < |blob| {
        data[off + j] := blob[j];
      }
      assert data[..] == old(data[..])[..off] + blob + old(data[..])[off + |blob|..];
      raised := idx >= seen.Length;
      if !raised {
        seen[idx] := true;
        assert seen[..] == old(seen[..])[idx := true];
      } else {
        assert seen[..] == old(seen[..]);
      }
    }

    method Apply(pages: seq<(nat, seq<byte>)>) returns (raised: bool)
      requires Valid()
      modifies data, seen
      ensures (Value(), raised) == old(Value()).Apply(pages)
    {
      raised := false;
      var i := 0;
      while i < |pages|
        invariant 0 <= i <= |pages| && !raised
        invariant Value().Apply(pages[i..]) == old(Value()).Apply(pages)
      {
        raised := ApplyPage(pages[i].0, pages[i].1);
        if raised {
          return;
        }
        assert pages[i..][1..] == pages[i + 1..];
        i := i + 1;
      }
    }

    /** _off, with its loop over the pages touched. */
    method Off(pa: int, n: nat) returns (r: Option<nat>)
      requires Valid()
      ensures r == Value().Off(pa, n)
    {
      var off := pa - base;
      if off < 0 || off + n > size {
        return None;
      }
      var idx, last := FloorDiv(off, PGSIZE), FloorDiv(off + n - 1, PGSIZE);
      while idx <= last
        invariant forall k :: FloorDiv(off, PGSIZE) <= k < idx ==> Value().PageSeen(k)
      {
        if !(0 <= idx < seen.Length && seen[idx]) {
          assert !Value().PageSeen(idx);
          return None;
        }
        idx := idx + 1;
      }
      r := Some(off);
    }
  }
}
