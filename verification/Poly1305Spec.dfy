/** Poly1305 as section 2.5 of RFC 8439 defines it, over the natural numbers. */
module Poly1305Spec {
  import opened Bytes
  import opened Limbs

  /** 2^130 - 5 */
  const P: nat := 0x3_FFFFFFFF_FFFFFFFF_FFFFFFFF_FFFFFFFB

  function Power(r: nat, e: nat): nat {
    if e == 0 then 1 else r * Power(r, e - 1)
  }

  function Blocks(n: nat): nat {
    (n + 15) / 16
  }

  function BlockLen(n: nat): (k: nat)
    ensures k <= n && k <= 16
    ensures n > 0 ==> k > 0
  {
    if n < 16 then n else 16
  }

  /** A block read as a little-endian number with one 0x01 byte appended. */
  function BlockValue(b: seq<byte>): nat {
    LeNat(b) + Pow256(|b|)
  }

  /** c_1 * r^q + c_2 * r^(q-1) + ... + c_q * r, for the q blocks c_i of m. */
  function Polynomial(m: seq<byte>, r: nat): nat {
    if m == [] then 0
    else
      var k := BlockLen(|m|);
      BlockValue(m[..k]) * Power(r, Blocks(|m|)) + Polynomial(m[k..], r)
  }

  /** Bytes 3, 7, 11, 15 lose their top four bits and bytes 4, 8, 12 their bottom two. */
  predicate TopMasked(i: nat) {
    i == 3 || i == 7 || i == 11 || i == 15
  }

  predicate BottomMasked(i: nat) {
    i == 4 || i == 8 || i == 12
  }

  function ClampedByte(i: nat, b: byte): byte {
    if TopMasked(i) then Byte8(Nat8(b) % 16)
    else if BottomMasked(i) then Byte8(Nat8(b) - Nat8(b) % 4)
    else b
  }

  function Clamp(k: seq<byte>): (r: seq<byte>)
    ensures |r| == |k|
  {
    seq(|k|, i requires 0 <= i < |k| => ClampedByte(i, k[i]))
  }

  /** The 16-byte tag of message m under the 32-byte one-time key k. */
  function Tag(m: seq<byte>, k: seq<byte>): (t: seq<byte>)
    requires |k| == 32
    ensures |t| == 16
  {
    LeBytes((Polynomial(m, LeNat(Clamp(k[..16]))) % P + LeNat(k[16..])) % TWO128, 16)
  }

  /** The block-at-a-time evaluation of the same polynomial. */
  function Horner(m: seq<byte>, r: nat, a: nat): nat
    decreases |m|
  {
    if m == [] then a
    else
      var k := BlockLen(|m|);
      Horner(m[k..], r, ((a + BlockValue(m[..k])) * r) % P)
  }

  lemma SameRemainder(a: int, b: int, k: int)
    requires a == b + k * P
    ensures a % P == b % P
  {
  }

  lemma ModMul(a: int, c: int)
    ensures ((a % P) * c) % P == (a * c) % P
  {
    var q := a / P;
    assert a == P * q + a % P;
    assert a * c == (P * q + a % P) * c == (a % P) * c + (q * c) * P;
    SameRemainder(a * c, (a % P) * c, q * c);
  }

  lemma ModAdd(a: int, b: int)
    ensures (a % P + b) % P == (a + b) % P
  {
    assert a == P * (a / P) + a % P;
    SameRemainder(a + b, a % P + b, a / P);
  }

  /** Horner evaluation computes the RFC polynomial modulo P. */
  lemma {:induction false} HornerIsPolynomial(m: seq<byte>, r: nat, a: nat)
    ensures Horner(m, r, a) % P == (a * Power(r, Blocks(|m|)) + Polynomial(m, r)) % P
    decreases |m|
  {
    hide BlockValue;
    if m == [] {
      assert a * Power(r, 0) == a;
    } else {
      var k := BlockLen(|m|);
      var c := BlockValue(m[..k]);
      var rest := m[k..];
      var q := Blocks(|rest|);
      assert Blocks(|m|) == q + 1;
      var p := Power(r, q);
      var tail := Polynomial(rest, r);
      HornerIsPolynomial(rest, r, ((a + c) * r) % P);
      HornerStep(a, c, r, p, tail);
    }
  }

  lemma HornerStep(a: int, c: int, r: int, p: int, tail: int)
    ensures (((a + c) * r) % P * p + tail) % P == (a * (r * p) + (c * (r * p) + tail)) % P
  {
    var x := (a + c) * r;
    calc {
      (x % P * p + tail) % P;
      { ModAdd(x % P * p, tail); }
      ((x % P * p) % P + tail) % P;
      { ModMul(x, p); }
      ((x * p) % P + tail) % P;
      { ModAdd(x * p, tail); }
      (x * p + tail) % P;
      { Expand(a, c, r, p); }
      (a * (r * p) + c * (r * p) + tail) % P;
    }
  }

  lemma Expand(a: int, c: int, r: int, p: int)
    ensures (a + c) * r * p == a * (r * p) + c * (r * p)
  {
    assert (a + c) * r * p == (a + c) * (r * p);
  }

  lemma {:induction false} HornerReduced(m: seq<byte>, r: nat, a: nat)
    requires a < P
    ensures Horner(m, r, a) < P
    decreases |m|
  {
    if m != [] {
      var k := BlockLen(|m|);
      HornerReduced(m[k..], r, ((a + BlockValue(m[..k])) * r) % P);
    }
  }

  lemma OwnRemainder(h: int, zero: int, p: int)
    requires 0 <= h < P && zero == 0 && h % P == (zero + p) % P
    ensures h == p % P
  {
  }

  lemma HornerFromZero(m: seq<byte>, r: nat)
    ensures Horner(m, r, 0) == Polynomial(m, r) % P
  {
    hide Horner, Polynomial, Power, Blocks;
    HornerReduced(m, r, 0);
    HornerIsPolynomial(m, r, 0);
    OwnRemainder(Horner(m, r, 0), 0 * Power(r, Blocks(|m|)), Polynomial(m, r));
  }
}
