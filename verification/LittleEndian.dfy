/** Fixed-width little-endian fields, as C's packed structs write them and Python's "<" formats read them. */
module LittleEndian {

  newtype byte = b: int | 0 <= b < 256

  function Pow256(w: nat): (p: nat)
    ensures p > 0
  {
    if w == 0 then 1 else 256 * Pow256(w - 1)
  }

  /** The low `w` bytes of `n`, least significant first. */
  function Pack(n: nat, w: nat): (b: seq<byte>)
    ensures |b| == w
  {
    if w == 0 then [] else [(n % 256) as byte] + Pack(n / 256, w - 1)
  }

  function Unpack(b: seq<byte>): nat {
    if b == [] then 0 else b[0] as nat + 256 * Unpack(b[1..])
  }

  lemma {:induction false} UnpackBound(b: seq<byte>)
    ensures Unpack(b) < Pow256(|b|)
  {
    if b != [] {
      UnpackBound(b[1..]);
    }
  }

  lemma {:induction false} PackUnpack(n: nat, w: nat)
    requires n < Pow256(w)
    ensures Unpack(Pack(n, w)) == n
  {
    if w > 0 {
      PackUnpack(n / 256, w - 1);
      assert Pack(n, w)[1..] == Pack(n / 256, w - 1);
    }
  }

  /** The words of the formats and of memory, byte by byte: the first byte is the lowest. */
  lemma Words(b: seq<byte>)
    ensures |b| == 1 ==> Unpack(b) == b[0] as nat
    ensures |b| == 2 ==> Unpack(b) == b[0] as nat + 0x100 * b[1] as nat
    ensures |b| == 4 ==>
              Unpack(b) == b[0] as nat + 0x100 * b[1] as nat + 0x1_0000 * b[2] as nat + 0x100_0000 * b[3] as nat
    ensures |b| == 8 ==> Unpack(b) == Unpack(b[..4]) + 0x1_0000_0000 * Unpack(b[4..])
  {
    if |b| == 8 {
      UnpackAppend(b[..4], b[4..]);
      assert b[..4] + b[4..] == b;
      Powers();
    } else if |b| == 1 || |b| == 2 {
      UnpackShort(b);
    } else if |b| == 4 {
      assert b == b[..2] + b[2..];
      UnpackAppend(b[..2], b[2..]);
      UnpackShort(b[..2]);
      UnpackShort(b[2..]);
      Powers();
    }
  }

  lemma LongWord(b: seq<byte>)
    requires |b| == 8
    ensures Unpack(b)
            == b[0] as nat + 0x100 * b[1] as nat + 0x1_0000 * b[2] as nat + 0x100_0000 * b[3] as nat
               + 0x1_0000_0000
                 * (b[4] as nat + 0x100 * b[5] as nat + 0x1_0000 * b[6] as nat + 0x100_0000 * b[7] as nat)
  {
    hide Unpack;
    Words(b);
    Words(b[..4]);
    Words(b[4..]);
  }

  lemma UnpackShort(b: seq<byte>)
    requires |b| == 1 || |b| == 2
    ensures Unpack(b) == b[0] as nat + if |b| == 2 then 0x100 * b[1] as nat else 0
  {
    if |b| == 2 {
      assert Unpack(b[1..]) == b[1] as nat + 256 * Unpack(b[1..][1..]);
    }
  }

  lemma {:induction false} UnpackAppend(a: seq<byte>, b: seq<byte>)
    ensures Unpack(a + b) == Unpack(a) + Pow256(|a|) * Unpack(b)
  {
    if a == [] {
      assert a + b == b;
    } else {
      UnpackAppend(a[1..], b);
      assert (a + b)[1..] == a[1..] + b;
      Rescale(Pow256(|a| - 1), Unpack(b));
    }
  }

  lemma Rescale(p: nat, x: nat)
    ensures 256 * (p * x) == (256 * p) * x
  {
  }

  lemma Powers()
    ensures Pow256(1) == 0x100 && Pow256(2) == 0x1_0000 && Pow256(4) == 0x1_0000_0000
    ensures Pow256(8) == 0x1_0000_0000_0000_0000
  {
    assert Pow256(3) == 0x100_0000;
    assert Pow256(5) == 0x100_0000_0000;
    assert Pow256(7) == 0x100_0000_0000_0000;
  }

  function Size(widths: seq<nat>): nat {
    if widths == [] then 0 else widths[0] + Size(widths[1..])
  }

  /** struct.unpack_from: the fields at the front of `b`. */
  function Fields(widths: seq<nat>, b: seq<byte>): (vs: seq<nat>)
    requires Size(widths) <= |b|
    ensures |vs| == |widths|
  {
    if widths == [] then []
    else [Unpack(b[..widths[0]])] + Fields(widths[1..], b[widths[0]..])
  }

  /** struct.pack, and the bytes of a packed C struct. */
  function PackFields(widths: seq<nat>, vs: seq<nat>): (b: seq<byte>)
    requires |widths| == |vs|
    ensures |b| == Size(widths)
  {
    if widths == [] then []
    else Pack(vs[0], widths[0]) + PackFields(widths[1..], vs[1..])
  }

  ghost predicate Fit(widths: seq<nat>, vs: seq<nat>) {
    |widths| == |vs| && forall i :: 0 <= i < |vs| ==> vs[i] < Pow256(widths[i])
  }

  lemma SplitAt(head: seq<byte>, tail: seq<byte>, rest: seq<byte>)
    ensures (head + tail + rest)[..|head|] == head && (head + tail + rest)[|head|..] == tail + rest
  {
  }

  lemma {:induction false} FieldsOfPacked(widths: seq<nat>, vs: seq<nat>, rest: seq<byte>)
    requires Fit(widths, vs)
    ensures Fields(widths, PackFields(widths, vs) + rest) == vs
  {
    hide Pack;
    hide Unpack;
    hide Pow256;
    if widths != [] {
      var w := widths[0];
      var head, tail := Pack(vs[0], w), PackFields(widths[1..], vs[1..]);
      SplitAt(head, tail, rest);
      PackUnpack(vs[0], w);
      FieldsOfPacked(widths[1..], vs[1..], rest);
    }
  }

  lemma {:induction false} SizeAppend(ws: seq<nat>, xs: seq<nat>)
    ensures Size(ws + xs) == Size(ws) + Size(xs)
  {
    if ws == [] {
      assert ws + xs == xs;
    } else {
      SizeAppend(ws[1..], xs);
      assert (ws + xs)[1..] == ws[1..] + xs;
    }
  }

  /** Two structs laid end to end decode as their fields laid end to end. */
  lemma {:induction false} FieldsAppend(ws: seq<nat>, xs: seq<nat>, b: seq<byte>, c: seq<byte>)
    requires Size(ws) == |b| && Size(xs) <= |c|
    ensures Size(ws + xs) <= |b + c|
    ensures Fields(ws + xs, b + c) == Fields(ws, b) + Fields(xs, c)
  {
    hide Unpack;
    SizeAppend(ws, xs);
    if ws == [] {
      assert ws + xs == xs && b + c == c;
    } else {
      var w := ws[0];
      assert (b + c)[..w] == b[..w];
      assert (b + c)[w..] == b[w..] + c;
      assert (ws + xs)[1..] == ws[1..] + xs;
      FieldsAppend(ws[1..], xs, b[w..], c);
    }
  }

  /** Decoding looks at no byte beyond the struct's own size. */
  lemma {:induction false} FieldsPrefix(widths: seq<nat>, b: seq<byte>, n: nat)
    requires Size(widths) <= n <= |b|
    ensures Fields(widths, b[..n]) == Fields(widths, b)
  {
    if widths != [] {
      var w := widths[0];
      assert b[..n][..w] == b[..w];
      assert b[..n][w..] == b[w..][..n - w];
      FieldsPrefix(widths[1..], b[w..], n - w);
    }
  }

  /** Whatever is read fits the fields it is read from. */
  lemma {:induction false} FieldsFit(widths: seq<nat>, b: seq<byte>)
    requires Size(widths) <= |b|
    ensures Fit(widths, Fields(widths, b))
  {
    hide Unpack;
    hide Pow256;
    if widths != [] {
      UnpackBound(b[..widths[0]]);
      FieldsFit(widths[1..], b[widths[0]..]);
    }
  }
}
