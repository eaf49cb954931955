/**
 * Byte order of stored samples. Section 5.2 of the FITS Standard (version
 * 4.0) stores every integer sample most-significant byte first, signed
 * widths in two's complement; the viewer swaps bytes on every read so the
 * value it sees is the big-endian reading of the stored bytes.
 */
module BigEndian {

  newtype byte = x: int | 0 <= x < 256

  /** 256^n: the number of distinct values of an n-byte sample. */
  function Pow256(n: nat): (r: nat)
    ensures r >= 1
  {
    if n == 0 then 1 else 256 * Pow256(n - 1)
  }

  /** Half of the n-byte range: the bound of the signed values. */
  function Half(n: nat): int
  {
    if n == 0 then 0 else 128 * Pow256(n - 1)
  }

  /** Unsigned big-endian reading of `bs` (first byte most significant). */
  function Unsigned(bs: seq<byte>): (r: nat)
    ensures r < Pow256(|bs|)
  {
    if |bs| == 0 then 0
    else
      var p := Pow256(|bs| - 1);
      var rest := Unsigned(bs[1..]);
      assert (bs[0] as nat) * p <= 255 * p by {
        MulLeft(bs[0] as nat, 255, p);
      }
      (bs[0] as nat) * p + rest
  }

  /** Two's-complement big-endian reading of `bs`. */
  function Signed(bs: seq<byte>): (r: int)
    requires |bs| > 0
    ensures -Half(|bs|) <= r < Half(|bs|)
  {
    SignBit(bs);
    if bs[0] >= 128 then Unsigned(bs) - Pow256(|bs|) else Unsigned(bs)
  }

  /** The n bytes whose unsigned big-endian reading is `v`. */
  function EncodeUnsigned(v: nat, n: nat): (bs: seq<byte>)
    requires v < Pow256(n)
    ensures |bs| == n
  {
    if n == 0 then []
    else
      var p := Pow256(n - 1);
      DivBound(v, p, 256);
      [(v / p) as byte] + EncodeUnsigned(v % p, n - 1)
  }

  /** The n bytes whose two's-complement big-endian reading is `v`. */
  function EncodeSigned(v: int, n: nat): (bs: seq<byte>)
    requires n > 0
    requires -Half(n) <= v < Half(n)
    ensures |bs| == n
  {
    EncodeUnsigned(if v < 0 then v + Pow256(n) else v, n)
  }

  lemma MulLeft(a: nat, b: nat, p: nat)
    requires a <= b
    ensures a * p <= b * p
  {
  }

  /** v < k*p implies v/p < k. */
  lemma DivBound(v: nat, p: nat, k: nat)
    requires p > 0
    requires v < k * p
    ensures v / p < k
  {
    var q := v / p;
    assert v == q * p + v % p;
    if q >= k {
      MulLeft(k, q, p);
    }
  }

  /** The first byte's top bit decides the upper half of the unsigned range. */
  lemma SignBit(bs: seq<byte>)
    requires |bs| > 0
    ensures Half(|bs|) == 128 * Pow256(|bs| - 1)
    ensures bs[0] >= 128 <==> Unsigned(bs) >= Half(|bs|)
  {
    var p := Pow256(|bs| - 1);
    var rest := Unsigned(bs[1..]);
    assert Unsigned(bs) == (bs[0] as nat) * p + rest && rest < p;
    TopDigit(bs[0] as nat, p, rest);
  }

  /** A leading digit of at least 128 is what puts top*p + rest at 128*p or above. */
  lemma TopDigit(top: nat, p: nat, rest: nat)
    requires rest < p
    ensures top >= 128 <==> top * p + rest >= 128 * p
  {
    if top >= 128 {
      MulLeft(128, top, p);
    } else {
      MulLeft(top, 127, p);
    }
  }

  /** Reading back an encoded unsigned value gives the value. */
  lemma {:induction false} UnsignedRoundTrip(v: nat, n: nat)
    requires v < Pow256(n)
    ensures Unsigned(EncodeUnsigned(v, n)) == v
  {
    if n > 0 {
      var p := Pow256(n - 1);
      assert v < 256 * p;
      DivBound(v, p, 256);
      DivMod(v, p);
      var bs := EncodeUnsigned(v, n);
      var q, r := v / p, v % p;
      assert bs == [q as byte] + EncodeUnsigned(r, n - 1);
      assert bs[0] as nat == q;
      assert bs[1..] == EncodeUnsigned(r, n - 1);
      UnsignedRoundTrip(r, n - 1);
      assert Unsigned(bs) == q * p + r;
    }
  }

  /** Encoding the reading of a byte string gives the byte string back. */
  lemma {:induction false} EncodeUnsignedRoundTrip(bs: seq<byte>)
    ensures EncodeUnsigned(Unsigned(bs), |bs|) == bs
  {
    if |bs| > 0 {
      var n := |bs|;
      var p := Pow256(n - 1);
      var rest := Unsigned(bs[1..]);
      var v := Unsigned(bs);
      assert v == (bs[0] as nat) * p + rest;
      assert v / p == bs[0] as nat && v % p == rest by {
        DivModUnique(v, p, bs[0] as nat, rest);
      }
      EncodeUnsignedRoundTrip(bs[1..]);
    }
  }

  lemma DivMod(v: nat, p: nat)
    requires p > 0
    ensures v == (v / p) * p + v % p && v % p < p
  {
  }

  lemma DivModUnique(v: nat, p: nat, q: nat, r: nat)
    requires p > 0 && r < p && v == q * p + r
    ensures v / p == q && v % p == r
  {
    var q', r' := v / p, v % p;
    assert v == q' * p + r';
    if q < q' {
      MulLeft(q + 1, q', p);
    } else if q' < q {
      MulLeft(q' + 1, q, p);
    }
    assert q == q';
  }

  /** Reading back an encoded signed value gives the value. */
  lemma SignedRoundTrip(v: int, n: nat)
    requires n > 0
    requires -Half(n) <= v < Half(n)
    ensures Signed(EncodeSigned(v, n)) == v
  {
    var u := if v < 0 then v + Pow256(n) else v;
    var bs := EncodeSigned(v, n);
    UnsignedRoundTrip(u, n);
    SignBit(bs);
  }

  /** Encoding the signed reading of a byte string gives the byte string back. */
  lemma SignedEncodeRoundTrip(bs: seq<byte>)
    requires |bs| > 0
    ensures EncodeSigned(Signed(bs), |bs|) == bs
  {
    SignBit(bs);
    EncodeUnsignedRoundTrip(bs);
  }
}
