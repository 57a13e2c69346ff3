/** Bytes, machine words and their little-endian encodings. */
module Bytes {

  type byte = bv8

  datatype Option<+T> = None | Some(value: T)

  /** The number a byte stands for. */
  function Nat8(b: byte): (n: nat)
    ensures n < 256
  {
    b as nat
  }

  lemma ShiftIn(b: byte, low: byte)
    requires Nat8(b) < 128 && low <= 1
    ensures Nat8((b << 1) | low) == 2 * Nat8(b) + if low == 1 then 1 else 0
  {
  }

  /** The byte that stands for a number below 256, bit by bit. */
  function Byte8(n: nat): (b: byte)
    requires n < 256
    ensures Nat8(b) == n
  {
    if n == 0 then 0
    else
      var low: byte := if n % 2 == 1 then 1 else 0;
      ShiftIn(Byte8(n / 2), low);
      (Byte8(n / 2) << 1) | low
  }

  lemma Nat8Injective(a: byte, b: byte)
    requires Nat8(a) == Nat8(b)
    ensures a == b
  {
  }

  lemma ByteOfNat(b: byte)
    ensures Byte8(Nat8(b)) == b
  {
    Nat8Injective(Byte8(Nat8(b)), b);
  }

  function Pow256(k: nat): (p: nat)
    ensures p > 0
  {
    if k == 0 then 1 else 256 * Pow256(k - 1)
  }

  /** The number written in base 256, least significant byte first. */
  function LeNat(s: seq<byte>): nat {
    if s == [] then 0 else Nat8(s[0]) + 256 * LeNat(s[1..])
  }

  /** The k low-order base-256 digits of n, least significant first. */
  function LeBytes(n: nat, k: nat): (s: seq<byte>)
    ensures |s| == k
  {
    if k == 0 then [] else [Byte8(n % 256)] + LeBytes(n / 256, k - 1)
  }

  lemma {:induction false} LeNatBound(s: seq<byte>)
    ensures LeNat(s) < Pow256(|s|)
  {
    if s != [] {
      LeNatBound(s[1..]);
    }
  }

  lemma DivMod256(low: nat, high: nat)
    requires low < 256
    ensures (low + 256 * high) % 256 == low && (low + 256 * high) / 256 == high
  {
  }

  lemma {:induction false} LeBytesOfLeNat(s: seq<byte>)
    ensures LeBytes(LeNat(s), |s|) == s
  {
    hide Byte8, Nat8;
    if s != [] {
      LeBytesOfLeNat(s[1..]);
      DivMod256(Nat8(s[0]), LeNat(s[1..]));
      ByteOfNat(s[0]);
      assert s == [s[0]] + s[1..];
    }
  }

  lemma {:induction false} LeNatOfLeBytes(n: nat, k: nat)
    requires n < Pow256(k)
    ensures LeNat(LeBytes(n, k)) == n
  {
    if k > 0 {
      assert n / 256 < Pow256(k - 1);
      LeNatOfLeBytes(n / 256, k - 1);
      assert LeBytes(n, k)[1..] == LeBytes(n / 256, k - 1);
    }
  }

  /** sys_put_le16 */
  function Put16(w: bv16): (s: seq<byte>)
    ensures |s| == 2
  {
    [(w & 0xFF) as byte, (w >> 8) as byte]
  }

  /** sys_get_le16 */
  function Get16(s: seq<byte>): bv16
    requires |s| >= 2
  {
    (s[0] as bv16) | ((s[1] as bv16) << 8)
  }

  /** sys_put_le32 */
  function Put32(w: bv32): (s: seq<byte>)
    ensures |s| == 4
  {
    [(w & 0xFF) as byte, ((w >> 8) & 0xFF) as byte, ((w >> 16) & 0xFF) as byte, (w >> 24) as byte]
  }

  /** sys_get_le32 */
  function Get32(s: seq<byte>): bv32
    requires |s| >= 4
  {
    Word32(s[0], s[1], s[2], s[3])
  }

  function Word32(a: byte, b: byte, c: byte, d: byte): bv32 {
    (a as bv32) | ((b as bv32) << 8) | ((c as bv32) << 16) | ((d as bv32) << 24)
  }

  lemma Word16RoundTrip(w: bv16)
    ensures Get16(Put16(w)) == w
  {
  }

  lemma Split16(a: byte, b: byte)
    ensures var w := (a as bv16) | ((b as bv16) << 8); (w & 0xFF) as byte == a && (w >> 8) as byte == b
  {
  }

  lemma Bytes16RoundTrip(s: seq<byte>)
    requires |s| == 2
    ensures Put16(Get16(s)) == s
  {
    Split16(s[0], s[1]);
  }

  lemma Word32RoundTrip(w: bv32)
    ensures Get32(Put32(w)) == w
  {
  }

  lemma Split32(a: byte, b: byte, c: byte, d: byte)
    ensures var w := Word32(a, b, c, d);
            && (w & 0xFF) as byte == a && ((w >> 8) & 0xFF) as byte == b
            && ((w >> 16) & 0xFF) as byte == c && (w >> 24) as byte == d
  {
  }

  lemma Bytes32RoundTrip(s: seq<byte>)
    requires |s| == 4
    ensures Put32(Get32(s)) == s
  {
    Split32(s[0], s[1], s[2], s[3]);
  }
}
