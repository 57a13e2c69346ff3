/** Salsa20 and XSalsa20 in counter mode (sections 9 and 10 of the Salsa20 specification). */
module Stream {
  import opened Bytes
  import opened Salsa20Spec
  import Salsa20

  function Xor8(a: byte, b: byte): byte { a ^ b }

  /** The block input: the 8-byte nonce, then the block number as a 64-bit little-endian counter. */
  function CounterBlock(n: seq<byte>, block: nat): (s: seq<byte>)
    requires |n| == 8
    ensures |s| == 16
  {
    n + LeBytes(block, 8)
  }

  /** Byte i of the keystream: byte i mod 64 of the Salsa20 block with counter i / 64. */
  function KeyByte(k: seq<byte>, n: seq<byte>, i: nat): byte
    requires |k| == 32 && |n| == 8
  {
    Block(k, CounterBlock(n, i / 64), Salsa20.SIGMA)[i % 64]
  }

  function Keystream(k: seq<byte>, n: seq<byte>, len: nat): (s: seq<byte>)
    requires |k| == 32 && |n| == 8
    ensures |s| == len
  {
    seq(len, i requires 0 <= i < len => KeyByte(k, n, i))
  }

  function XorBytes(a: seq<byte>, b: seq<byte>): (s: seq<byte>)
    requires |a| == |b|
    ensures |s| == |a|
  {
    seq(|a|, i requires 0 <= i < |a| => Xor8(a[i], b[i]))
  }

  /** The message byte at i; a null message is all zeros. */
  function MessageByte(m: Option<seq<byte>>, i: nat): byte
    requires m.Some? ==> i < |m.value|
  {
    if m.Some? then m.value[i] else 0
  }

  /** Before digit i: carry u, a the digits still to be added to, b what they have to become. */
  ghost predicate Carrying(z: seq<byte>, i: nat, u: nat, a: nat, b: nat, goal: seq<byte>) {
    && |z| == 16 && 8 <= i <= 16
    && u <= 1 && b == a + u
    && z[i..] == LeBytes(a, 16 - i)
    && z[8..i] + LeBytes(b, 16 - i) == goal
  }

  lemma CarryingStart(z: seq<byte>, block: nat)
    requires |z| == 16 && z[8..] == LeBytes(block, 8)
    ensures Carrying(z, 8, 1, block, block + 1, LeBytes(block + 1, 8))
  {
    hide LeBytes;
    assert z[8..8] == [];
  }

  lemma CarryingEnd(z: seq<byte>, u: nat, a: nat, b: nat, goal: seq<byte>)
    requires Carrying(z, 16, u, a, b, goal)
    ensures z[8..] == goal
  {
    assert z[8..16] == z[8..];
    assert LeBytes(b, 0) == [];
  }

  /** The byte-wise carry loop over z[8..16): +1 modulo 2^64. */
  method Increment(z: array<byte>, ghost block: nat)
    requires z.Length == 16 && z[8..] == LeBytes(block, 8)
    modifies z
    ensures z[..8] == old(z[..8])
    ensures z[8..] == LeBytes(block + 1, 8)
  {
    hide LeBytes, Carrying;
    ghost var a: nat, b: nat := block, block + 1;
    var u: nat := 1;
    CarryingStart(z[..], block);
    for i := 8 to 16
      invariant z[..8] == old(z[..8])
      invariant Carrying(z[..], i, u, a, b, LeBytes(block + 1, 8))
    {
      u := AddCarry(z, i, u, a, b, LeBytes(block + 1, 8));
      a, b := a / 256, b / 256;
    }
    CarryingEnd(z[..], u, a, b, LeBytes(block + 1, 8));
  }

  /** One digit of the carry chain. */
  method AddCarry(z: array<byte>, i: nat, u: nat, ghost a: nat, ghost b: nat, ghost goal: seq<byte>)
    returns (u': nat)
    requires z.Length == 16 && i < 16 && Carrying(z[..], i, u, a, b, goal)
    modifies z
    ensures z[..8] == old(z[..8])
    ensures Carrying(z[..], i + 1, u', a / 256, b / 256, goal)
  {
    assert i >= 8;
    hide Byte8, Nat8, Carrying, LeBytes;
    ghost var z0 := z[..];
    var s := u + Nat8(z[i]);
    z[i] := Byte8(s % 256);
    u' := s / 256;
    assert z[..] == z0[i := z[i]];
    CarryingStep(z0, z[..], i, u, a, b, goal);
  }

  lemma CarryingStep(z: seq<byte>, z': seq<byte>, i: nat, u: nat, a: nat, b: nat, goal: seq<byte>)
    requires i < 16 && Carrying(z, i, u, a, b, goal)
    requires |z'| == 16 && z'[..i] == z[..i] && z'[i + 1..] == z[i + 1..]
    requires Nat8(z'[i]) == (u + Nat8(z[i])) % 256
    ensures Carrying(z', i + 1, (u + Nat8(z[i])) / 256, a / 256, b / 256, goal)
  {
    hide Byte8, Nat8, LeBytes;
    assert z[i..] == [z[i]] + z[i + 1..];
    IncrementStep(a, b, 16 - i, z[i], z[i + 1..], z[8..i], z'[i]);
    assert z'[8..i] == z'[..i][8..] == z[..i][8..] == z[8..i];
    assert z'[8..i + 1] == z[8..i] + [z'[i]];
  }

  lemma LeBytesHead(n: nat, k: nat)
    requires k > 0
    ensures LeBytes(n, k)[0] == Byte8(n % 256) && LeBytes(n, k)[1..] == LeBytes(n / 256, k - 1)
  {
    hide Byte8;
  }

  lemma IncrementStep(a: nat, b: nat, k: nat, digit: byte, rest: seq<byte>, done: seq<byte>, digit': byte)
    requires a <= b <= a + 1 && k > 0
    requires [digit] + rest == LeBytes(a, k)
    requires Nat8(digit') == (b - a + Nat8(digit)) % 256
    ensures rest == LeBytes(a / 256, k - 1)
    ensures (b - a + Nat8(digit)) / 256 == b / 256 - a / 256
    ensures (done + [digit']) + LeBytes(b / 256, k - 1) == done + LeBytes(b, k)
  {
    hide Byte8, Nat8, LeBytes;
    LeBytesHead(a, k);
    LeBytesHead(b, k);
    assert digit == LeBytes(a, k)[0] && rest == LeBytes(a, k)[1..];
    CarryDigit(a, b);
    ByteOfNat(digit');
    assert [digit'] + LeBytes(b / 256, k - 1) == LeBytes(b, k);
  }

  lemma CarryDigit(a: nat, b: nat)
    requires a <= b <= a + 1
    ensures var s := (b - a) + a % 256; s % 256 == b % 256 && s / 256 == b / 256 - a / 256
  {
  }

  /** Xors the first count bytes of one keystream block over the message at off. */
  method XorBlock(c: array<byte>, m: Option<seq<byte>>, off: nat, count: nat, x: seq<byte>)
    requires |x| == 64 && count <= 64 && off + count <= c.Length
    requires m.Some? ==> off + count <= |m.value|
    modifies c
    ensures forall i :: off <= i < off + count ==> c[i] == Xor8(MessageByte(m, i), x[i - off])
    ensures forall i :: 0 <= i < c.Length && !(off <= i < off + count) ==> c[i] == old(c[i])
  {
    for i := 0 to count
      invariant forall t :: off <= t < off + i ==> c[t] == Xor8(MessageByte(m, t), x[t - off])
      invariant forall t :: 0 <= t < c.Length && !(off <= t < off + i) ==> c[t] == old(c[t])
    {
      c[off + i] := Xor8(MessageByte(m, off + i), x[i]);
    }
  }

  /** Every byte of the output is the message byte xored with the keystream byte of the same position. */
  ghost predicate Streamed(c: seq<byte>, m: Option<seq<byte>>, len: nat, n: seq<byte>, k: seq<byte>)
    requires |k| == 32 && |n| == 8 && len <= |c|
    requires m.Some? ==> len <= |m.value|
  {
    forall i :: 0 <= i < len ==> c[i] == Xor8(MessageByte(m, i), KeyByte(k, n, i))
  }

  method StreamXor(c: array<byte>, m: Option<seq<byte>>, len: nat, n: seq<byte>, k: seq<byte>)
    requires |k| == 32 && |n| == 8 && len <= c.Length
    requires m.Some? ==> |m.value| == len
    modifies c
    ensures Streamed(c[..], m, len, n, k)
    ensures c[len..] == old(c[len..])
  {
    hide KeyByte, LeBytes, Xor8;
    var z := new byte[16](i requires 0 <= i < 16 => if i < 8 then n[i] else 0);
    var x := new byte[64];
    ghost var block := 0;
    ZeroCounter(z[8..]);
    assert z[..8] == n;
    var off := 0;
    while len - off >= 64
      invariant off <= len && off == 64 * block
      invariant z[..8] == n && z[8..] == LeBytes(block, 8)
      invariant Streamed(c[..], m, off, n, k)
      invariant c[len..] == old(c[len..])
    {
      NextBlock(c, m, off, 64, z, x, n, k, block);
      Increment(z, block);
      off, block := off + 64, block + 1;
    }
    if off < len {
      NextBlock(c, m, off, len - off, z, x, n, k, block);
    }
  }

  /** Computes one keystream block and xors count bytes of it in. */
  method NextBlock(c: array<byte>, m: Option<seq<byte>>, off: nat, count: nat, z: array<byte>, x: array<byte>,
                   n: seq<byte>, k: seq<byte>, ghost block: nat)
    requires |k| == 32 && |n| == 8 && off == 64 * block && count <= 64 && off + count <= c.Length
    requires m.Some? ==> off + count <= |m.value|
    requires z.Length == 16 && x.Length == 64 && c != z && c != x && x != z
    requires z[..8] == n && z[8..] == LeBytes(block, 8)
    requires Streamed(c[..], m, off, n, k)
    modifies c, x
    ensures Streamed(c[..], m, off + count, n, k)
    ensures c[off + count..] == old(c[off + count..])
  {
    hide Block, LeBytes;
    assert z[..] == CounterBlock(n, block);
    Salsa20.CoreSalsa20(x, z[..], k);
    assert x[..64] == x[..];
    ghost var before := c[..];
    XorBlock(c, m, off, count, x[..]);
    StreamedExtend(before, c[..], m, block, count, n, k, x[..]);
  }

  lemma StreamedExtend(before: seq<byte>, c: seq<byte>, m: Option<seq<byte>>, block: nat, count: nat,
                       n: seq<byte>, k: seq<byte>, x: seq<byte>)
    requires |k| == 32 && |n| == 8 && count <= 64 && 64 * block + count <= |c| == |before|
    requires m.Some? ==> 64 * block + count <= |m.value|
    requires x == Block(k, CounterBlock(n, block), Salsa20.SIGMA)
    requires Streamed(before, m, 64 * block, n, k)
    requires c[..64 * block] == before[..64 * block]
    requires forall i :: 64 * block <= i < 64 * block + count ==> c[i] == Xor8(MessageByte(m, i), x[i - 64 * block])
    ensures Streamed(c, m, 64 * block + count, n, k)
  {
    hide Block;
    forall i | 0 <= i < 64 * block + count
      ensures c[i] == Xor8(MessageByte(m, i), KeyByte(k, n, i))
    {
      if i < 64 * block {
        assert c[i] == c[..64 * block][i] == before[i];
      } else {
        assert i / 64 == block && i % 64 == i - 64 * block;
      }
    }
  }

  lemma {:induction false} ZeroBytes(k: nat)
    ensures forall i :: 0 <= i < k ==> LeBytes(0, k)[i] == Byte8(0)
  {
    if k > 0 {
      ZeroBytes(k - 1);
    }
  }

  lemma ZeroCounter(s: seq<byte>)
    requires |s| == 8 && forall i :: 0 <= i < 8 ==> s[i] == 0
    ensures s == LeBytes(0, 8)
  {
    ZeroBytes(8);
    assert Byte8(0) == 0;
  }
}
