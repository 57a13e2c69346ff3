/** Little-endian base-256 vectors of unnormalised digits, as the 17-limb arithmetic uses them. */
module Limbs {
  import opened Bytes

  type uint32 = x: int | 0 <= x < 0x1_0000_0000

  /** The number a vector of (possibly oversized) digits stands for. */
  function Value(a: seq<int>): int {
    if a == [] then 0 else a[0] + 256 * Value(a[1..])
  }

  ghost predicate Digits(a: seq<int>) {
    forall i :: 0 <= i < |a| ==> 0 <= a[i] < 256
  }

  lemma {:induction false} ValueSnoc(a: seq<int>, x: int)
    ensures Value(a + [x]) == Value(a) + x * Pow256(|a|)
  {
    if a != [] {
      ValueSnoc(a[1..], x);
      assert (a + [x])[1..] == a[1..] + [x];
      Distribute(256, Value(a[1..]), x, Pow256(|a| - 1));
    } else {
      assert (a + [x])[1..] == [];
    }
  }

  lemma Distribute(k: int, v: int, x: int, p: int)
    ensures k * (v + x * p) == k * v + x * (k * p)
  {
  }

  lemma {:induction false} ValueScaledSum(a: seq<int>, b: seq<int>, c: seq<int>, k: int)
    requires |a| == |b| == |c|
    requires forall i :: 0 <= i < |a| ==> c[i] == a[i] + k * b[i]
    ensures Value(c) == Value(a) + k * Value(b)
  {
    if a != [] {
      ValueScaledSum(a[1..], b[1..], c[1..], k);
      assert c[0] == a[0] + k * b[0];
      Distribute(256, Value(a[1..]), k, Value(b[1..]));
      assert k * (b[0] + 256 * Value(b[1..])) == k * b[0] + k * (256 * Value(b[1..]));
    }
  }

  lemma {:induction false} DigitsBound(a: seq<int>)
    requires Digits(a)
    ensures 0 <= Value(a) < Pow256(|a|)
  {
    if a != [] {
      DigitsBound(a[1..]);
    }
  }

  /** Digit vectors whose elements are the bytes of s denote LeNat(s). */
  lemma {:induction false} ValueOfBytes(a: seq<int>, s: seq<byte>)
    requires |a| == |s|
    requires forall i :: 0 <= i < |s| ==> a[i] == Nat8(s[i])
    ensures Value(a) == LeNat(s)
  {
    if a != [] {
      ValueOfBytes(a[1..], s[1..]);
    }
  }

  lemma {:induction false} ValueZero(a: seq<int>)
    requires forall i :: 0 <= i < |a| ==> a[i] == 0
    ensures Value(a) == 0
  {
    if a != [] {
      ValueZero(a[1..]);
    }
  }

  lemma {:induction false} ValueConcat(a: seq<int>, b: seq<int>)
    ensures Value(a + b) == Value(a) + Pow256(|a|) * Value(b)
  {
    if a == [] {
      assert a + b == b;
    } else {
      ValueConcat(a[1..], b);
      assert (a + b)[1..] == a[1..] + b;
      Distribute(256, Value(a[1..]), Value(b), Pow256(|a| - 1));
    }
  }

  /** 2^64, 2^128 and 2^136 */
  const TWO64: nat := 0x1_00000000_00000000
  const TWO128: nat := 0x1_00000000_00000000_00000000_00000000
  const TWO136: nat := 0x100_00000000_00000000_00000000_00000000

  lemma PowerValues()
    ensures Pow256(8) == TWO64
    ensures Pow256(16) == TWO128
    ensures Pow256(17) == TWO136
  {
    assert Pow256(4) == 0x1_00000000;
    assert Pow256(8) == 0x1_00000000_00000000;
    assert Pow256(12) == 0x1_00000000_00000000_00000000;
    assert Pow256(16) == 0x1_00000000_00000000_00000000_00000000;
  }

  lemma CarryStep(p: int, u: int, x: int, digit: int, carry: int)
    requires u + x == digit + 256 * carry
    ensures u * p + x * p == digit * p + carry * (256 * p)
  {
    assert (u + x) * p == (digit + 256 * carry) * p;
  }
}
