/** The variable-length integers of DWARF 5, section 7.6, as nodefusion/host/dwarf.py reads them. */
module Leb128 {
  import opened LittleEndian
  import opened Wrappers

  datatype Fault = OutOfBounds | TooLong

  /** The reader gives up on a number that has not ended after this many bytes. */
  const MAX_BYTES := 19

  function Pow2(n: nat): (p: nat)
    ensures p > 0
  {
    if n == 0 then 1 else 2 * Pow2(n - 1)
  }

  function Pow128(k: nat): (p: nat)
    ensures p > 0
  {
    if k == 0 then 1 else 128 * Pow128(k - 1)
  }

  lemma {:induction false} SevenBits(k: nat)
    ensures Pow2(7 * k) == Pow128(k)
  {
    if k > 0 {
      SevenBits(k - 1);
      var n := 7 * (k - 1);
      assert Pow2(n + 1) == 2 * Pow2(n) && Pow2(n + 2) == 2 * Pow2(n + 1) && Pow2(n + 3) == 2 * Pow2(n + 2);
      assert Pow2(n + 4) == 2 * Pow2(n + 3) && Pow2(n + 5) == 2 * Pow2(n + 4) && Pow2(n + 6) == 2 * Pow2(n + 5);
    }
  }

  // ------------------------------------------------------------------ what the bytes mean

  /** How many bytes the number at the front of `b` has: up to the first byte without the continuation
      bit, if that is among the first `limit`. */
  function Front(b: seq<byte>, limit: nat): (n: Option<nat>)
    ensures n.Some? ==> 0 < n.value <= limit && n.value <= |b|
  {
    if b == [] || limit == 0 then None
    else if b[0] < 128 then Some(1)
    else
      var rest := Front(b[1..], limit - 1);
      if rest.Some? then Some(rest.value + 1) else None
  }

  /** The seven-bit groups, least significant first. */
  function Unsigned(b: seq<byte>): nat {
    if b == [] then 0 else b[0] as nat % 128 + 128 * Unsigned(b[1..])
  }

  /** The same in two's complement of 7 * |b| bits. */
  function Signed(b: seq<byte>): int
    requires b != []
  {
    Unsigned(b) - if b[|b| - 1] as nat % 128 >= 64 then Pow128(|b|) else 0
  }

  lemma {:induction false} UnsignedNext(b: seq<byte>, x: byte)
    ensures Unsigned(b + [x]) == Unsigned(b) + x as nat % 128 * Pow128(|b|)
  {
    if b == [] {
      assert [] + [x] == [x] && Unsigned([x]) == x as nat % 128 + 128 * Unsigned([]);
    } else {
      var low, d, p := b[0] as nat % 128, x as nat % 128, Pow128(|b| - 1);
      UnsignedNext(b[1..], x);
      assert (b + [x])[1..] == b[1..] + [x];
      assert 128 * (d * p) == d * (128 * p);
    }
  }

  /** A group shifted to its place. */
  function Shifted(group: nat, shift: nat): nat {
    group * Pow2(shift)
  }

  /** One more group. */
  lemma GroupNext(b: seq<byte>, i: nat)
    requires i < |b|
    ensures Unsigned(b[..i + 1]) == Unsigned(b[..i]) + Shifted(b[i] as nat % 128, 7 * i)
    ensures Signed(b[..i + 1]) == Unsigned(b[..i + 1]) - if b[i] as nat % 128 >= 64 then Pow2(7 * (i + 1)) else 0
  {
    hide Pow2;
    hide Pow128;
    hide Unsigned;
    SevenBits(i);
    SevenBits(i + 1);
    UnsignedNext(b[..i], b[i]);
    assert b[..i + 1] == b[..i] + [b[i]];
  }

  lemma NoBytes(b: seq<byte>)
    ensures Unsigned(b[..0]) == 0
  {
  }

  /** The limit only matters to a number that has not ended within it. */
  lemma {:induction false} FrontIs(b: seq<byte>, limit: nat, n: nat)
    requires 0 < n <= limit && n <= |b|
    requires b[n - 1] < 128 && forall i :: 0 <= i < n - 1 ==> b[i] >= 128
    ensures Front(b, limit) == Some(n)
  {
    if n > 1 {
      FrontIs(b[1..], limit - 1, n - 1);
    }
  }

  lemma {:induction false} NoFront(b: seq<byte>, limit: nat)
    requires forall i :: 0 <= i < limit && i < |b| ==> b[i] >= 128
    ensures Front(b, limit) == None
  {
    if b != [] && limit > 0 {
      NoFront(b[1..], limit - 1);
    }
  }

  // ------------------------------------------------------------------ the reader

  class Reader {
    const d: seq<byte>
    var p: nat

    constructor (data: seq<byte>, pos: nat)
      ensures d == data && p == pos
    {
      d, p := data, pos;
    }

    ghost function Ahead(): seq<byte>
      reads this
    {
      if p <= |d| then d[p..] else []
    }

    method U8() returns (r: Result<byte, Fault>)
      modifies this`p
      ensures Ahead() == if old(Ahead()) == [] then [] else old(Ahead())[1..]
      ensures r == if old(Ahead()) == [] then Err(OutOfBounds) else Ok(old(Ahead())[0])
      ensures p == if old(Ahead()) == [] then old(p) else old(p) + 1
    {
      if p + 1 > |d| {
        return Err(OutOfBounds);
      }
      r := Ok(d[p]);
      p := p + 1;
    }

    /** Reads an unsigned number, or says why there is none. */
    method Uleb() returns (r: Result<nat, Fault>)
      modifies this`p
      ensures var b := old(Ahead());
              match Front(b, MAX_BYTES)
              case Some(n) => r == Ok(Unsigned(b[..n])) && p == old(p) + n
              case None => r == Err(if |b| < MAX_BYTES then OutOfBounds else TooLong)
    {
      hide Front;
      hide Unsigned;
      hide Pow2;
      hide Pow128;
      hide Shifted;
      ghost var b := Ahead();
      var out, shift := 0, 0;
      ghost var i := 0;
      NoBytes(b);
      while true
        invariant i <= |b| && i < MAX_BYTES && Ahead() == b[i..] && p == old(p) + i
        invariant shift == 7 * i && out == Unsigned(b[..i])
        invariant forall j :: 0 <= j < i ==> b[j] >= 128
        decreases MAX_BYTES - i
      {
        var u := U8();
        if u.Err? {
          NoFront(b, MAX_BYTES);
          return Err(u.error);
        }
        var x := u.value;
        GroupNext(b, i);
        out := out + Shifted(x as nat % 128, shift);
        if x < 128 {
          FrontIs(b, MAX_BYTES, i + 1);
          return Ok(out);
        }
        shift := shift + 7;
        if shift > 128 {
          assert i + 1 == MAX_BYTES && forall j :: 0 <= j < i + 1 ==> b[j] >= 128;
          NoFront(b, MAX_BYTES);
          return Err(TooLong);
        }
        i := i + 1;
      }
    }

    /** Reads a signed number, or says why there is none. */
    method Sleb() returns (r: Result<int, Fault>)
      modifies this`p
      ensures var b := old(Ahead());
              match Front(b, MAX_BYTES)
              case Some(n) => r == Ok(Signed(b[..n])) && p == old(p) + n
              case None => r == Err(if |b| < MAX_BYTES then OutOfBounds else TooLong)
    {
      hide Front;
      hide Unsigned;
      hide Signed;
      hide Pow2;
      hide Pow128;
      hide Shifted;
      ghost var b := Ahead();
      var out, shift := 0, 0;
      ghost var i := 0;
      NoBytes(b);
      while true
        invariant i <= |b| && i < MAX_BYTES && Ahead() == b[i..] && p == old(p) + i
        invariant shift == 7 * i && out == Unsigned(b[..i])
        invariant forall j :: 0 <= j < i ==> b[j] >= 128
        decreases MAX_BYTES - i
      {
        var u := U8();
        if u.Err? {
          NoFront(b, MAX_BYTES);
          return Err(u.error);
        }
        var x := u.value;
        GroupNext(b, i);
        out := out + Shifted(x as nat % 128, shift);
        shift := shift + 7;
        if x < 128 {
          FrontIs(b, MAX_BYTES, i + 1);
          return Ok(out - if x >= 64 then Pow2(shift) else 0);
        }
        if shift > 128 {
          assert i + 1 == MAX_BYTES && forall j :: 0 <= j < i + 1 ==> b[j] >= 128;
          NoFront(b, MAX_BYTES);
          return Err(TooLong);
        }
        i := i + 1;
      }
    }
  }

  // ------------------------------------------------------------------ the encodings of section 7.6

  function EncodeUnsigned(n: nat): (b: seq<byte>)
    ensures b != []
  {
    if n < 128 then [n as byte]
    else [(n % 128 + 128) as byte] + EncodeUnsigned(n / 128)
  }

  function EncodeSigned(v: int): (b: seq<byte>)
    ensures b != []
    decreases if v < 0 then -v else v
  {
    if -64 <= v < 64 then [(v % 128) as byte]
    else [(v % 128 + 128) as byte] + EncodeSigned(v / 128)
  }

  /** A number takes at most k bytes exactly if it fits in 7k bits. */
  lemma {:induction false} UnsignedLength(n: nat, k: nat)
    requires k > 0
    ensures |EncodeUnsigned(n)| <= k <==> n < Pow128(k)
  {
    assert Pow128(k) == 128 * Pow128(k - 1);
    if n >= 128 {
      if k == 1 {
        assert Pow128(0) == 1;
      } else {
        UnsignedLength(n / 128, k - 1);
      }
    }
  }

  lemma {:induction false} SignedLength(v: int, k: nat)
    requires k > 0
    ensures |EncodeSigned(v)| <= k <==> -64 * Pow128(k - 1) <= v < 64 * Pow128(k - 1)
    decreases k
  {
    if k == 1 {
      assert Pow128(0) == 1;
    } else {
      assert Pow128(k - 1) == 128 * Pow128(k - 2);
      if !(-64 <= v < 64) {
        SignedLength(v / 128, k - 1);
      }
    }
  }

  /** The encoding is one number, and all of it. */
  lemma {:induction false} UnsignedShape(n: nat)
    ensures var b := EncodeUnsigned(n);
            && b[|b| - 1] < 128
            && (forall i :: 0 <= i < |b| - 1 ==> b[i] >= 128)
            && Unsigned(b) == n
  {
    if n < 128 {
      assert Unsigned([n as byte]) == n + 128 * Unsigned([]);
    } else {
      UnsignedShape(n / 128);
    }
  }

  lemma SignedCons(x: byte, tail: seq<byte>)
    ensures Signed([x]) == x as nat % 128 - if x as nat % 128 >= 64 then 128 else 0
    ensures tail != [] ==> Signed([x] + tail) == x as nat % 128 + 128 * Signed(tail)
  {
    var b := [x] + tail;
    assert Unsigned([x]) == x as nat % 128 + 128 * Unsigned([x][1..]);
    assert Unsigned(b) == x as nat % 128 + 128 * Unsigned(tail);
    assert b[1..] == tail && [x][1..] == [] && Pow128(1) == 128 * Pow128(0);
    assert Pow128(|b|) == 128 * Pow128(|tail|);
  }

  lemma {:induction false} SignedShape(v: int)
    ensures var b := EncodeSigned(v);
            && b[|b| - 1] < 128
            && (forall i :: 0 <= i < |b| - 1 ==> b[i] >= 128)
            && Signed(b) == v
    decreases if v < 0 then -v else v
  {
    hide Signed;
    if -64 <= v < 64 {
      SignedCons((v % 128) as byte, []);
    } else {
      SignedShape(v / 128);
      SignedCons((v % 128 + 128) as byte, EncodeSigned(v / 128));
    }
  }

  lemma FrontOfEncoded(b: seq<byte>, rest: seq<byte>)
    requires b != [] && b[|b| - 1] < 128 && forall i :: 0 <= i < |b| - 1 ==> b[i] >= 128
    ensures (b + rest)[..|b|] == b
    ensures Front(b + rest, MAX_BYTES) == if |b| <= MAX_BYTES then Some(|b|) else None
  {
    if |b| <= MAX_BYTES {
      FrontIs(b + rest, MAX_BYTES, |b|);
    } else {
      NoFront(b + rest, MAX_BYTES);
    }
  }

  /** The reader gets an encoded number back, whatever follows it, exactly if the number is below 2^133. */
  lemma UnsignedRoundTrip(n: nat, rest: seq<byte>)
    ensures var b := EncodeUnsigned(n);
            if n < Pow2(133) then Front(b + rest, MAX_BYTES) == Some(|b|) && Unsigned((b + rest)[..|b|]) == n
            else Front(b + rest, MAX_BYTES) == None
  {
    hide Pow2;
    hide Pow128;
    hide Front;
    hide Unsigned;
    hide EncodeUnsigned;
    var b := EncodeUnsigned(n);
    UnsignedShape(n);
    UnsignedLength(n, MAX_BYTES);
    SevenBits(MAX_BYTES);
    FrontOfEncoded(b, rest);
  }

  /** The same for signed numbers, which must fit in 133 bits in two's complement. */
  lemma SignedRoundTrip(v: int, rest: seq<byte>)
    ensures var b := EncodeSigned(v);
            if 0 - Pow2(132) <= v < Pow2(132) then Front(b + rest, MAX_BYTES) == Some(|b|)
              && Signed((b + rest)[..|b|]) == v
            else Front(b + rest, MAX_BYTES) == None
  {
    hide Pow2;
    hide Pow128;
    hide Front;
    hide Unsigned;
    hide EncodeSigned;
    hide Signed;
    var b := EncodeSigned(v);
    SignedShape(v);
    SignedLength(v, MAX_BYTES);
    SevenBits(MAX_BYTES - 1);
    Sixtyfour(126);
    FrontOfEncoded(b, rest);
  }

  lemma Sixtyfour(n: nat)
    ensures Pow2(n + 6) == 64 * Pow2(n)
  {
    assert Pow2(n + 1) == 2 * Pow2(n) && Pow2(n + 2) == 2 * Pow2(n + 1) && Pow2(n + 3) == 2 * Pow2(n + 2);
    assert Pow2(n + 4) == 2 * Pow2(n + 3) && Pow2(n + 5) == 2 * Pow2(n + 4) && Pow2(n + 6) == 2 * Pow2(n + 5);
  }

  lemma {:induction false} UnsignedBound(b: seq<byte>)
    ensures Unsigned(b) < Pow128(|b|)
  {
    if b != [] {
      UnsignedBound(b[1..]);
    }
  }

  /** Of all encodings the reader accepts for a number, the standard one is the shortest. */
  lemma ShortestEncoding(b: seq<byte>)
    requires b != []
    ensures |EncodeUnsigned(Unsigned(b))| <= |b|
  {
    UnsignedBound(b);
    UnsignedLength(Unsigned(b), |b|);
  }
}
