/** The 17-limb evaluation of Poly1305: lazy carries, the 320-fold and the masked final subtraction. */
module Poly1305 {
  import opened Bytes
  import opened Limbs
  import opened Poly1305Spec

  /** Every value the multiplication can leave in a limb is at most this. */
  const LIMB_MAX: int := 0x2000_0000

  // ---------------------------------------------------------------- addition

  /** After j digits of a sum: the digits done and the carry make up the j low limbs of both summands. */
  ghost predicate Summed(h: seq<int>, a: seq<int>, c: seq<int>, j: nat, u: int) {
    && |h| == |a| == |c| == 17 && j <= 17
    && h[j..] == a[j..]
    && Digits(h[..j])
    && Value(h[..j]) + u * Pow256(j) == Value(a[..j]) + Value(c[..j])
  }

  method Add1305(h: array<uint32>, c: seq<uint32>)
    requires h.Length == 17 && |c| == 17
    requires forall j :: 0 <= j < 17 ==> h[j] <= LIMB_MAX && c[j] <= LIMB_MAX
    modifies h
    ensures Digits(h[..])
    ensures Value(h[..]) == (Value(old(h[..])) + Value(c)) % TWO136
  {
    var u: uint32 := 0;
    ghost var before: seq<uint32> := h[..];
    NothingSummed(h[..], c);
    hide Summed, Value, Digits;
    for j := 0 to 17
      invariant u <= 0x80_0000 && Summed(h[..], before, c, j, u)
    {
      u := AddDigit(h, c, j, u, before);
    }
    AllSummed(h[..], before, c, u);
  }

  lemma NothingSummed(a: seq<int>, c: seq<int>)
    requires |a| == |c| == 17
    ensures Summed(a, a, c, 0, 0)
  {
    assert a[..0] == [] && c[..0] == [];
  }

  lemma AllSummed(h: seq<int>, a: seq<int>, c: seq<int>, u: int)
    requires Summed(h, a, c, 17, u)
    ensures Digits(h) && Value(h) == (Value(a) + Value(c)) % TWO136
  {
    hide Value, Pow256;
    assert h[..17] == h && a[..17] == a && c[..17] == c;
    SumDone(h, u, Value(a) + Value(c));
  }

  /** One round of the addition loop. */
  method AddDigit(h: array<uint32>, c: seq<uint32>, j: nat, u: uint32, ghost before: seq<uint32>) returns (u': uint32)
    requires h.Length == |c| == |before| == 17 && j < 17 && u <= 0x80_0000
    requires before[j] <= LIMB_MAX && c[j] <= LIMB_MAX
    requires Summed(h[..], before, c, j, u)
    modifies h
    ensures u' <= 0x80_0000 && Summed(h[..], before, c, j + 1, u')
  {
    hide Value, Pow256;
    ghost var h0 := h[..];
    assert h[j] == h0[j..][0] == before[j..][0] == before[j];
    u' := PutDigit(h, j, u + (h[j] + c[j]));
    SummedStep(h0, h[..], before, c, j, u, u');
  }

  lemma SummedStep(h: seq<int>, h': seq<int>, a: seq<int>, c: seq<int>, j: nat, u: int, u': int)
    requires Summed(h, a, c, j, u) && j < 17 && |h'| == 17
    requires h'[..j] == h[..j] && h'[j + 1..] == h[j + 1..]
    requires 0 <= h'[j] < 256 && u + (a[j] + c[j]) == h'[j] + 256 * u'
    ensures Summed(h', a, c, j + 1, u')
  {
    hide Value, Pow256;
    assert h'[..j + 1] == h[..j] + [h'[j]];
    assert a[..j + 1] == a[..j] + [a[j]];
    assert c[..j + 1] == c[..j] + [c[j]];
    assert h[j + 1..] == h[j..][1..] && a[j + 1..] == a[j..][1..];
    SumStep(h[..j], a[..j], c[..j], u, a[j], c[j], h'[j], u');
  }

  /** Leaves the low byte of u as digit j and returns the rest as the next carry. */
  method PutDigit(h: array<uint32>, j: nat, u: uint32) returns (u': uint32)
    requires j < h.Length
    modifies h
    ensures h[j] < 256 && h[j] + 256 * u' == u
    ensures forall i :: 0 <= i < h.Length && i != j ==> h[i] == old(h[i])
    ensures h[..j] == old(h[..j]) && h[j + 1..] == old(h[j + 1..])
    ensures h[..j + 1] == old(h[..j]) + [h[j]]
  {
    h[j] := u % 256;
    u' := u / 256;
  }

  lemma SumStep(done: seq<int>, a: seq<int>, b: seq<int>, u: int, x: int, y: int, digit: int, carry: int)
    requires |done| == |a| == |b|
    requires Value(done) + u * Pow256(|a|) == Value(a) + Value(b)
    requires u + (x + y) == digit + 256 * carry
    ensures Value(done + [digit]) + carry * Pow256(|a| + 1) == Value(a + [x]) + Value(b + [y])
  {
    ValueSnoc(done, digit);
    ValueSnoc(a, x);
    ValueSnoc(b, y);
    SumAlgebra(Pow256(|a|), u, x, y, digit, carry);
  }

  lemma SumAlgebra(p: int, u: int, x: int, y: int, digit: int, carry: int)
    requires u + (x + y) == digit + 256 * carry
    ensures u * p + x * p + y * p == digit * p + carry * (256 * p)
  {
    CarryStep(p, u, x + y, digit, carry);
    assert (x + y) * p == x * p + y * p;
  }

  lemma SumDone(h: seq<int>, u: int, s: int)
    requires |h| == 17 && Digits(h)
    requires Value(h) + u * Pow256(17) == s
    ensures Value(h) == s % TWO136
  {
    DigitsBound(h);
    PowerValues();
    WrapUnique(Value(h), u, s, TWO136);
  }

  lemma WrapUnique(v: int, u: int, s: int, m: int)
    requires 0 <= v < m && v + u * m == s
    ensures v == s % m
  {
    var q := s / m;
    var rest := s - q * m;
    assert (q - u) * m == q * m - u * m == v - rest;
    NoMultipleBetween(q - u, m);
  }

  lemma NoMultipleBetween(d: int, m: int)
    requires -m < d * m < m
    ensures d == 0
  {
  }

  // ------------------------------------------------------------ multiplication

  /** The factor of h[j] in limb i of the product, with 2^136 folded to 320. */
  function Factor(r: seq<int>, i: nat, j: nat): int
    requires |r| == 17 && i < 17 && j < 17
  {
    if j <= i then r[i - j] else 320 * r[i + 17 - j]
  }

  /** The first n terms of limb i of the folded product of h and r. */
  function Row(h: seq<int>, r: seq<int>, i: nat, n: nat): int
    requires |h| == |r| == 17 && i < 17 && n <= 17
  {
    if n == 0 then 0 else Row(h, r, i, n - 1) + h[n - 1] * Factor(r, i, n - 1)
  }

  /** r multiplied by 256^j, with everything above limb 16 folded back. */
  function Column(r: seq<int>, j: nat): (c: seq<int>)
    requires |r| == 17 && j < 17
    ensures |c| == 17
  {
    seq(17, i requires 0 <= i < 17 => Factor(r, i, j))
  }

  function Rows(h: seq<int>, r: seq<int>, n: nat): (c: seq<int>)
    requires |h| == |r| == 17 && n <= 17
    ensures |c| == 17
  {
    seq(17, i requires 0 <= i < 17 => Row(h, r, i, n))
  }

  /** How many multiples of 64 * P the folding has removed from 256^j * r. */
  function Folded(r: seq<int>, j: nat): int
    requires |r| == 17 && j < 17
  {
    if j == 0 then 0 else 256 * Folded(r, j - 1) + Column(r, j - 1)[16]
  }

  lemma {:induction false} ColumnValue(r: seq<int>, j: nat)
    requires |r| == 17 && j < 17
    ensures Value(Column(r, j)) + Folded(r, j) * (64 * P) == Pow256(j) * Value(r)
  {
    if j == 0 {
      assert Column(r, 0) == r;
    } else {
      ColumnValue(r, j - 1);
      var c := Column(r, j - 1);
      assert Column(r, j) == [320 * c[16]] + c[..16];
      RotateValue(c);
      ColumnAlgebra(Value(c), Value(Column(r, j)), c[16], Folded(r, j - 1), Pow256(j - 1), Value(r), 64 * P);
    }
  }

  /** Moving every limb up one place and folding the top one multiplies by 256 modulo P. */
  lemma RotateValue(c: seq<int>)
    requires |c| == 17
    ensures Value([320 * c[16]] + c[..16]) + c[16] * (64 * P) == 256 * Value(c)
  {
    assert c == c[..16] + [c[16]];
    ValueSnoc(c[..16], c[16]);
    PowerValues();
    assert ([320 * c[16]] + c[..16])[1..] == c[..16];
  }

  lemma ColumnAlgebra(v: int, v': int, top: int, folded: int, p: int, r: int, m: int)
    requires v' + top * m == 256 * v
    requires v + folded * m == p * r
    ensures v' + (256 * folded + top) * m == (256 * p) * r
  {
  }

  /** How many multiples of 64 * P the first n terms of every row have lost. */
  function Dropped(h: seq<int>, r: seq<int>, n: nat): int
    requires |h| == |r| == 17 && n <= 17
  {
    if n == 0 then 0 else Dropped(h, r, n - 1) + h[n - 1] * Folded(r, n - 1)
  }

  lemma RowsStep(h: seq<int>, r: seq<int>, n: nat)
    requires |h| == |r| == 17 && 0 < n <= 17
    ensures forall i :: 0 <= i < 17 ==> Rows(h, r, n)[i] == Rows(h, r, n - 1)[i] + h[n - 1] * Column(r, n - 1)[i]
  {
  }

  lemma {:induction false} RowsValue(h: seq<int>, r: seq<int>, n: nat)
    requires |h| == |r| == 17 && n <= 17
    ensures Value(Rows(h, r, n)) + Dropped(h, r, n) * (64 * P) == Value(h[..n]) * Value(r)
  {
    if n == 0 {
      ValueZero(Rows(h, r, 0));
    } else {
      RowsValue(h, r, n - 1);
      var x := h[n - 1];
      RowsStep(h, r, n);
      assert Dropped(h, r, n) == Dropped(h, r, n - 1) + x * Folded(r, n - 1);
      hide Rows, Column, Row, Value, Folded, Dropped, P, Pow256;
      ValueScaledSum(Rows(h, r, n - 1), Column(r, n - 1), Rows(h, r, n), x);
      ColumnValue(r, n - 1);
      assert h[..n] == h[..n - 1] + [x];
      ValueSnoc(h[..n - 1], x);
      RowAlgebra(Value(Rows(h, r, n - 1)), Dropped(h, r, n - 1), Value(h[..n - 1]), x,
                 Value(Column(r, n - 1)), Folded(r, n - 1), Pow256(n - 1), Value(r), 64 * P,
                 Value(Rows(h, r, n)), Dropped(h, r, n), Value(h[..n]));
    }
  }

  lemma RowAlgebra(rows: int, dropped: int, v: int, x: int, col: int, folded: int, p: int, r: int, m: int,
                   rows': int, dropped': int, v': int)
    requires rows + dropped * m == v * r
    requires col + folded * m == p * r
    requires rows' == rows + x * col && dropped' == dropped + x * folded && v' == v + x * p
    ensures rows' + dropped' * m == v' * r
  {
    calc {
      rows' + dropped' * m;
      rows + x * col + (dropped + x * folded) * m;
      rows + dropped * m + (x * col + x * folded * m);
      { assert x * (folded * m) == x * folded * m; }
      v * r + x * (col + folded * m);
      v * r + x * (p * r);
      { assert x * (p * r) == x * p * r; }
      (v + x * p) * r;
    }
  }

  lemma {:induction false} RowBound(h: seq<int>, r: seq<int>, i: nat, n: nat)
    requires |h| == |r| == 17 && i < 17 && n <= 17
    requires Digits(h) && Digits(r)
    ensures 0 <= Row(h, r, i, n) <= 20_808_000 * n
  {
    if n > 0 {
      RowBound(h, r, i, n - 1);
      TermBound(h[n - 1], Factor(r, i, n - 1));
    }
  }

  lemma TermBound(x: int, f: int)
    requires 0 <= x < 256 && 0 <= f <= 81_600
    ensures 0 <= x * f <= 20_808_000
  {
    assert x * f <= 255 * f;
  }

  /** The inner product loop: one limb, no 32-bit sum or product wrapping. */
  method Limb(h: array<uint32>, r: seq<uint32>, i: nat) returns (x: uint32)
    requires h.Length == 17 && |r| == 17 && i < 17
    requires Digits(h[..]) && Digits(r)
    ensures x == Row(h[..], r, i, 17)
    ensures x <= 353_736_000
  {
    hide Row, Digits;
    x := 0;
    RowStart(h[..], r, i);
    for j := 0 to 17
      invariant x == Row(h[..], r, i, j)
    {
      RowStep(h[..], r, i, j);
      var f: uint32 := if j <= i then r[i - j] else 320 * r[i + 17 - j];
      x := x + h[j] * f;
    }
    RowBound(h[..], r, i, 17);
  }

  lemma RowStart(h: seq<int>, r: seq<int>, i: nat)
    requires |h| == |r| == 17 && i < 17
    ensures Row(h, r, i, 0) == 0
  {
  }

  lemma RowStep(h: seq<int>, r: seq<int>, i: nat, j: nat)
    requires |h| == |r| == 17 && i < 17 && j < 17
    requires Digits(h) && Digits(r)
    ensures 0 <= Factor(r, i, j) <= 81_600
    ensures Row(h, r, i, j + 1) == Row(h, r, i, j) + h[j] * Factor(r, i, j)
    ensures 0 <= Row(h, r, i, j + 1) <= 353_736_000
  {
    RowBound(h, r, i, j + 1);
  }

  /** The product: h becomes the folded product of h and r. */
  method Multiply(h: array<uint32>, r: seq<uint32>)
    requires h.Length == 17 && |r| == 17
    requires Digits(h[..]) && Digits(r)
    modifies h
    ensures forall i :: 0 <= i < 17 ==> h[i] <= 353_736_000
    ensures Value(h[..]) % P == (Value(old(h[..])) * Value(r)) % P
  {
    var x := new uint32[17];
    ghost var h0 := h[..];
    for i := 0 to 17
      invariant h[..] == h0
      invariant forall k :: 0 <= k < i ==> x[k] == Row(h0, r, k, 17) && x[k] <= 353_736_000
    {
      x[i] := Limb(h, r, i);
    }
    for i := 0 to 17
      invariant forall k :: 0 <= k < i ==> h[k] == x[k]
      invariant forall k :: 0 <= k < 17 ==> x[k] == Row(h0, r, k, 17) && x[k] <= 353_736_000
    {
      h[i] := x[i];
    }
    assert h[..] == Rows(h0, r, 17);
    RowsCongruent(h0, r);
  }

  lemma RowsCongruent(h: seq<int>, r: seq<int>)
    requires |h| == |r| == 17
    ensures Value(Rows(h, r, 17)) % P == (Value(h) * Value(r)) % P
  {
    RowsValue(h, r, 17);
    assert h[..17] == h;
    SameRemainder(Value(h) * Value(r), Value(Rows(h, r, 17)), 64 * Dropped(h, r, 17));
  }

  // ------------------------------------------------------------------- carries

  /** One carry pass over the sixteen low limbs, starting from carry u0. */
  method CarryLow(h: array<uint32>, u0: uint32) returns (u: uint32)
    requires h.Length == 17 && u0 <= LIMB_MAX
    requires forall j :: 0 <= j < 16 ==> h[j] <= LIMB_MAX
    modifies h
    ensures Digits(h[..16]) && h[16] == old(h[16])
    ensures u <= 0x40_0000
    ensures Value(h[..16]) + u * TWO128 == Value(old(h[..16])) + u0
  {
    u := u0;
    ghost var before := h[..];
    assert h[..0] == [] && before[..0] == [];
    for j := 0 to 16
      invariant u <= LIMB_MAX && (j > 0 ==> u <= 0x40_0000)
      invariant forall i :: j <= i < 17 ==> h[i] == before[i]
      invariant forall i :: 0 <= i < j ==> h[i] < 256
      invariant Value(h[..j]) + u * Pow256(j) == Value(before[..j]) + u0
    {
      ghost var u1, done := u, h[..j];
      u := PutDigit(h, j, u + h[j]);
      assert before[..j + 1] == before[..j] + [before[j]];
      LowStep(done, before[..j], u0, u1, before[j], h[j], u);
    }
    PowerValues();
  }

  lemma LowStep(done: seq<int>, a: seq<int>, u0: int, u: int, x: int, digit: int, carry: int)
    requires |done| == |a|
    requires Value(done) + u * Pow256(|a|) == Value(a) + u0
    requires u + x == digit + 256 * carry
    ensures Value(done + [digit]) + carry * Pow256(|a| + 1) == Value(a + [x]) + u0
  {
    ValueSnoc(done, digit);
    ValueSnoc(a, x);
    CarryStep(Pow256(|a|), u, x, digit, carry);
  }

  /** What every block iteration leaves: sixteen full digits, a top limb of at most 4, and less than 2 * P. */
  ghost predicate Reduced(h: seq<int>) {
    && |h| == 17 && Digits(h)
    && h[16] <= 4
    && Value(h) < 2 * P
  }

  /** First pass: carry, keep two bits of the top limb, and hand back five times the rest. */
  method FoldTop(h: array<uint32>) returns (u: uint32, ghost q: nat)
    requires h.Length == 17
    requires forall i :: 0 <= i < 17 ==> h[i] <= 353_736_000
    modifies h
    ensures Digits(h[..16]) && h[16] <= 3
    ensures u == 5 * q && q <= 90_000_000
    ensures Value(old(h[..])) == Value(h[..16]) + (4 * q + h[16]) * TWO128
  {
    TopLimb(h[..]);
    ghost var top := h[16];
    u := CarryLow(h, 0);
    ghost var low, carry := h[..16], u;
    u := u + h[16];
    h[16] := u % 4;
    q := u / 4;
    u := 5 * (u / 4);
    assert h[..16] == low;
    FoldAlgebra(Value(old(h[..])), Value(old(h[..16])), Value(low), carry, top, q, h[16], TWO128);
  }

  lemma FoldAlgebra(v: int, before: int, low: int, carry: int, top: int, q: int, rest: int, p: int)
    requires v == before + top * p
    requires low + carry * p == before
    requires carry + top == 4 * q + rest
    ensures v == low + (4 * q + rest) * p
  {
    assert (carry + top) * p == carry * p + top * p;
  }

  /** The two carry passes around the 2^130 = 5 fold. */
  method Squeeze(h: array<uint32>)
    requires h.Length == 17
    requires forall i :: 0 <= i < 17 ==> h[i] <= 353_736_000
    modifies h
    ensures Reduced(h[..])
    ensures Value(h[..]) % P == Value(old(h[..])) % P
  {
    ghost var v := Value(h[..]);
    var u; ghost var q;
    u, q := FoldTop(h);
    ghost var mid, top := h[..16], h[16];
    u := CarryLow(h, u);
    ghost var low, carry := h[..16], u;
    SqueezeAlgebra(v, mid, q, top, low, carry);
    u := u + h[16];
    h[16] := u;
    assert h[..16] == low;
    TopLimb(h[..]);
    SameRemainder(v, Value(h[..]), q);
  }

  lemma TopLimb(h: seq<int>)
    requires |h| == 17
    ensures Value(h) == Value(h[..16]) + h[16] * TWO128
  {
    assert h == h[..16] + [h[16]];
    ValueSnoc(h[..16], h[16]);
    PowerValues();
  }

  lemma SqueezeAlgebra(v: int, mid: seq<int>, q: int, top: int, low: seq<int>, carry: int)
    requires |mid| == |low| == 16 && Digits(mid) && Digits(low)
    requires 0 <= top <= 3 && 0 <= q <= 90_000_000 && carry >= 0
    requires v == Value(mid) + (4 * q + top) * TWO128
    requires Value(low) + carry * TWO128 == Value(mid) + 5 * q
    ensures carry <= 1
    ensures v == Value(low) + (top + carry) * TWO128 + q * P
    ensures Value(low) + (top + carry) * TWO128 < 2 * P
  {
    DigitsBound(mid);
    DigitsBound(low);
    PowerValues();
  }

  // ------------------------------------------------------------ clamping, blocks

  /** Keeps the low four bits of a limb. */
  method And15(r: array<uint32>, i: nat)
    requires i < r.Length && r[i] < 256
    modifies r
    ensures r[..] == old(r[..])[i := old(r[i]) % 16]
  {
    LowMask(Byte8(r[i]));
    r[i] := Nat8(Byte8(r[i]) & 15);
  }

  /** Clears the low two bits of a limb. */
  method And252(r: array<uint32>, i: nat)
    requires i < r.Length && r[i] < 256
    modifies r
    ensures r[..] == old(r[..])[i := old(r[i]) - old(r[i]) % 4]
  {
    HighMask(Byte8(r[i]));
    r[i] := Nat8(Byte8(r[i]) & 252);
  }

  lemma LowMask(b: byte)
    ensures Nat8(b & 15) == Nat8(b) % 16
  {
  }

  lemma HighMask(b: byte)
    ensures Nat8(b & 252) == Nat8(b) - Nat8(b) % 4
  {
  }

  /** The limbs of r: the first sixteen key bytes with the masked ones replaced. */
  method LoadR(k: seq<byte>) returns (r: array<uint32>)
    requires |k| == 32
    ensures fresh(r) && r.Length == 17
    ensures Digits(r[..])
    ensures Value(r[..]) == LeNat(Clamp(k[..16]))
  {
    r := new uint32[17];
    r[16] := 0;
    for j := 0 to 16
      invariant r[16] == 0
      invariant forall i :: 0 <= i < j ==> r[i] == Nat8(k[i])
    {
      r[j] := Nat8(k[j]);
    }
    ClampLimbs(r);
    ClampedLimbs(r[..], k[..16]);
  }

  method ClampLimbs(r: array<uint32>)
    requires r.Length == 17 && Digits(r[..])
    modifies r
    ensures r[16] == old(r[16])
    ensures forall i :: 0 <= i < 16 ==> r[i] == ClampedNat(i, old(r[i]))
  {
    And15(r, 3);
    And252(r, 4);
    And15(r, 7);
    And252(r, 8);
    And15(r, 11);
    And252(r, 12);
    And15(r, 15);
  }

  function ClampedNat(i: nat, n: nat): nat {
    if TopMasked(i) then n % 16 else if BottomMasked(i) then n - n % 4 else n
  }

  lemma ClampedLimbs(r: seq<int>, k: seq<byte>)
    requires |r| == 17 && |k| == 16 && r[16] == 0
    requires forall i :: 0 <= i < 16 ==> r[i] == ClampedNat(i, Nat8(k[i]))
    ensures Digits(r)
    ensures Value(r) == LeNat(Clamp(k))
  {
    hide Value, LeNat;
    forall i | 0 <= i < 16 ensures 0 <= r[i] < 256 && r[i] == Nat8(Clamp(k)[i]) {
      ClampedDigit(i, k[i]);
    }
    ValueOfBytes(r[..16], Clamp(k));
    TopLimb(r);
  }

  lemma ClampedDigit(i: nat, b: byte)
    ensures ClampedNat(i, Nat8(b)) == Nat8(ClampedByte(i, b))
  {
    hide Nat8, Byte8;
  }

  /** The limbs c of the next block of m, with its 0x01 marker, and its length j. */
  method LoadBlock(m: seq<byte>) returns (c: seq<uint32>, j: nat)
    requires m != []
    ensures j == BlockLen(|m|)
    ensures |c| == 17 && Digits(c)
    ensures Value(c) == BlockValue(m[..j])
  {
    var limbs := new uint32[17](_ => 0);
    j := 0;
    while j < 16 && j < |m|
      invariant j <= 16 && j <= |m|
      invariant forall t :: 0 <= t < j ==> limbs[t] == Nat8(m[t])
      invariant forall t :: j <= t < 17 ==> limbs[t] == 0
    {
      limbs[j] := Nat8(m[j]);
      j := j + 1;
    }
    limbs[j] := 1;
    c := limbs[..];
    BlockLimbs(c, m[..j]);
  }

  lemma BlockLimbs(c: seq<int>, b: seq<byte>)
    requires |c| == 17 && |b| <= 16
    requires forall t :: 0 <= t < |b| ==> c[t] == Nat8(b[t])
    requires c[|b|] == 1
    requires forall t :: |b| < t < 17 ==> c[t] == 0
    ensures Value(c) == BlockValue(b)
  {
    hide Value;
    var n := |b|;
    assert c == c[..n] + c[n..];
    ValueConcat(c[..n], c[n..]);
    ValueOfBytes(c[..n], b);
    OneThenZeros(c[n..]);
  }

  lemma OneThenZeros(c: seq<int>)
    requires c != [] && c[0] == 1 && forall t :: 0 < t < |c| ==> c[t] == 0
    ensures Value(c) == 1
  {
    ValueZero(c[1..]);
  }

  // ------------------------------------------------------- the final reduction

  /** The two's complement of P in 136 bits. */
  const MINUS_P: seq<uint32> := seq(17, i => if i == 0 then 5 else if i == 16 then 252 else 0)

  lemma MinusPValue()
    ensures Value(MINUS_P) == TWO136 - P
  {
    var low := MINUS_P[..16];
    ValueZero(low[1..]);
    assert Value(low) == 5;
    TopLimb(MINUS_P);
  }

  method LoadMinusP() returns (c: seq<uint32>)
    ensures |c| == 17 && Digits(c)
    ensures Value(c) == TWO136 - P
  {
    MinusPValue();
    c := MINUS_P;
  }

  /** The limb the mask s selects: g when s is all ones, h when it is zero. */
  method Select(s: bv32, g: uint32, h: uint32) returns (x: uint32)
    requires g < 256 && h < 256
    requires s == 0 || s == 0xFFFF_FFFF
    ensures x == if s == 0 then h else g
  {
    var hb, gb := Byte8(h), Byte8(g);
    MaskLaw(s, gb, hb);
    x := Nat8(((hb as bv32) ^ (s & ((gb as bv32) ^ (hb as bv32)))) as byte);
  }

  lemma MaskLaw(s: bv32, g: byte, h: byte)
    requires s == 0 || s == 0xFFFF_FFFF
    ensures (h as bv32) ^ (s & ((g as bv32) ^ (h as bv32))) < 256
    ensures ((h as bv32) ^ (s & ((g as bv32) ^ (h as bv32)))) as byte == if s == 0 then h else g
  {
  }

  /** All ones if the top limb has its sign bit set, else zero. */
  method Mask(top: uint32) returns (s: bv32)
    requires top < 256
    ensures s == if top < 128 then 0 else 0xFFFF_FFFF
  {
    SignBit(Byte8(top));
    s := 0 - ((Byte8(top) as bv32) >> 7);
  }

  lemma SignBit(b: byte)
    ensures (b as bv32) >> 7 == if Nat8(b) < 128 then 0 else 1
  {
  }

  /** Selects every limb by the mask. */
  method SelectAll(s: bv32, g: seq<uint32>, h: array<uint32>)
    requires h.Length == |g| == 17 && Digits(g) && Digits(h[..])
    requires s == 0 || s == 0xFFFF_FFFF
    modifies h
    ensures h[..] == if s == 0 then old(h[..]) else g
  {
    ghost var h0 := h[..];
    for j := 0 to 17
      invariant forall i :: 0 <= i < j ==> h[i] == if s == 0 then h0[i] else g[i]
      invariant forall i :: j <= i < 17 ==> h[i] == h0[i]
    {
      h[j] := Select(s, g[j], h[j]);
    }
  }

  /** The masked subtraction reduces completely. */
  method Freeze(h: array<uint32>)
    requires h.Length == 17 && Reduced(h[..])
    modifies h
    ensures Digits(h[..])
    ensures Value(h[..]) == Value(old(h[..])) % P
  {
    var g := h[..];
    var c := LoadMinusP();
    Add1305(h, c);
    FreezeChoice(g, h[..]);
    var s := Mask(h[16]);
    SelectAll(s, g, h);
  }

  lemma FreezeChoice(h: seq<int>, h': seq<int>)
    requires Reduced(h) && |h'| == 17 && Digits(h')
    requires Value(h') == (Value(h) + (TWO136 - P)) % TWO136
    ensures (if h'[16] < 128 then Value(h') else Value(h)) == Value(h) % P
  {
    PowerValues();
    DigitsBound(h);
    TopLimb(h');
    DigitsBound(h'[..16]);
    FreezeNumber(Value(h), Value(h'), h'[16], Value(h'[..16]));
  }

  lemma FreezeNumber(v: int, v': int, top: int, low: int)
    requires 0 <= v < 2 * P
    requires v' == (v + (TWO136 - P)) % TWO136
    requires 0 <= low < TWO128 && v' == low + top * TWO128
    ensures (if top < 128 then v' else v) == v % P
  {
    if v >= P {
      WrapUnique(v - P, 1, v + (TWO136 - P), TWO136);
      WrapUnique(v - P, 1, v, P);
    } else {
      WrapUnique(v + (TWO136 - P), 0,
                 v + (TWO136 - P), TWO136);
      WrapUnique(v, 0, v, P);
    }
  }

  // --------------------------------------------------------------- the message

  lemma BlockBound(b: seq<byte>)
    requires |b| <= 16
    ensures BlockValue(b) < 2 * TWO128
  {
    LeNatBound(b);
    PowerMonotone(|b|, 16);
    PowerValues();
  }

  lemma {:induction false} PowerMonotone(a: nat, b: nat)
    requires a <= b
    ensures Pow256(a) <= Pow256(b)
  {
    if a < b {
      PowerMonotone(a, b - 1);
    }
  }

  /** Adding a block loses no carry. */
  method AddBlock(h: array<uint32>, c: seq<uint32>, ghost b: seq<byte>)
    requires h.Length == |c| == 17 && Reduced(h[..]) && Digits(c)
    requires |b| <= 16 && Value(c) == BlockValue(b)
    modifies h
    ensures Digits(h[..])
    ensures Value(h[..]) == Value(old(h[..])) + BlockValue(b)
  {
    hide Value, BlockValue, TWO136, TWO128, P;
    SumFits(h[..], b);
    Add1305(h, c);
  }

  lemma SumFits(h: seq<int>, b: seq<byte>)
    requires Reduced(h) && |b| <= 16
    ensures (Value(h) + BlockValue(b)) % TWO136 == Value(h) + BlockValue(b)
  {
    hide Value, BlockValue;
    BlockBound(b);
    DigitsBound(h);
    ghost var sum := Value(h) + BlockValue(b);
    WrapUnique(sum, 0, sum, TWO136);
  }

  /** One iteration of the block loop. */
  method Absorb(h: array<uint32>, r: seq<uint32>, c: seq<uint32>, ghost b: seq<byte>)
    requires h.Length == |r| == |c| == 17
    requires Reduced(h[..]) && Digits(r) && Digits(c)
    requires |b| <= 16 && Value(c) == BlockValue(b)
    modifies h
    ensures Reduced(h[..])
    ensures Value(h[..]) % P == ((Value(old(h[..])) % P + BlockValue(b)) * Value(r)) % P
  {
    hide Value, BlockValue, Reduced, Digits;
    AbsorbMod(Value(h[..]), BlockValue(b), Value(r), P);
    AddBlock(h, c, b);
    Multiply(h, r);
    Squeeze(h);
  }

  lemma AbsorbMod(v: int, c: int, r: int, m: int)
    requires m > 0
    ensures ((v + c) * r) % m == ((v % m + c) * r) % m
  {
    var q, x := v / m, (v % m + c) * r;
    assert v == q * m + v % m;
    assert (v + c) * r == x + q * m * r == x + (q * r) * m;
    assert x == x % m + (x / m) * m;
    assert (v + c) * r == x % m + (x / m + q * r) * m;
    WrapUnique(x % m, x / m + q * r, (v + c) * r, m);
  }

  /** Evaluates the message polynomial at r, block by block. */
  method Evaluate(m: seq<byte>, r: seq<uint32>) returns (h: array<uint32>)
    requires |r| == 17 && Digits(r) && Value(r) >= 0
    ensures fresh(h) && h.Length == 17 && Reduced(h[..])
    ensures Value(h[..]) % P == Polynomial(m, Value(r)) % P
  {
    h := new uint32[17](_ => 0);
    ValueZero(h[..]);
    ghost var point, a := Value(r), 0;
    var rest := m;
    while rest != []
      invariant Reduced(h[..]) && a == Value(h[..]) % P
      invariant Horner(rest, point, a) == Horner(m, point, 0)
      decreases |rest|
    {
      var c, j := LoadBlock(rest);
      Absorb(h, r, c, rest[..j]);
      rest, a := rest[j..], Value(h[..]) % P;
    }
    HornerFromZero(m, point);
  }

  /** out[0..16) becomes the RFC 8439 tag of m under the one-time key k. */
  method Authenticate(out: array<byte>, m: seq<byte>, k: seq<byte>)
    requires out.Length >= 16 && |k| == 32
    modifies out
    ensures out[..16] == Tag(m, k)
    ensures out[16..] == old(out[16..])
  {
    var r := LoadR(k);
    var h := Evaluate(m, r[..]);
    Freeze(h);
    var c := LoadS(k);
    Add1305(h, c);
    StoreTag(out, h[..]);
    TagBytes(out[..16], h[..], m, k);
  }

  method StoreTag(out: array<byte>, h: seq<uint32>)
    requires out.Length >= 16 && |h| == 17 && Digits(h)
    modifies out
    ensures forall i :: 0 <= i < 16 ==> Nat8(out[i]) == h[i]
    ensures out[16..] == old(out[16..])
  {
    for j := 0 to 16
      invariant forall i :: 0 <= i < j ==> Nat8(out[i]) == h[i]
      invariant out[16..] == old(out[16..])
    {
      out[j] := Byte8(h[j]);
    }
  }

  method LoadS(k: seq<byte>) returns (c: seq<uint32>)
    requires |k| == 32
    ensures |c| == 17 && Digits(c)
    ensures Value(c) == LeNat(k[16..])
  {
    c := seq(17, i requires 0 <= i < 17 => if i < 16 then Nat8(k[i + 16]) else 0);
    ValueOfBytes(c[..16], k[16..]);
    TopLimb(c);
  }

  /** Of a sum below 2^136, the sixteen low limbs hold the sum modulo 2^128. */
  lemma LowLimbs(h: seq<int>, sum: int)
    requires |h| == 17 && Digits(h) && 0 <= sum < TWO136 && Value(h) == sum % TWO136
    ensures Value(h[..16]) == sum % TWO128
  {
    hide Value;
    WrapUnique(sum, 0, sum, TWO136);
    TopLimb(h);
    DigitsBound(h[..16]);
    PowerValues();
    WrapUnique(Value(h[..16]), h[16], sum, TWO128);
  }

  lemma TagBytes(out: seq<byte>, h: seq<int>, m: seq<byte>, k: seq<byte>)
    requires |out| == 16 && |h| == 17 && |k| == 32 && Digits(h)
    requires forall i :: 0 <= i < 16 ==> Nat8(out[i]) == h[i]
    requires Value(h) == (Polynomial(m, LeNat(Clamp(k[..16]))) % P + LeNat(k[16..])) % TWO136
    ensures out == Tag(m, k)
  {
    hide Value, Polynomial, Clamp, LeNat, LeBytes, Pow256;
    LeNatBound(k[16..]);
    PowerValues();
    LowLimbs(h, Polynomial(m, LeNat(Clamp(k[..16]))) % P + LeNat(k[16..]));
    ValueOfBytes(h[..16], out);
    LeBytesOfLeNat(out);
  }
}
