/** CRC-16 with generator x^16 + x^12 + x^5 + 1 and start value 0xFFFF: the register, byte-wise and bit-serial. */
module Crc16 {
  import opened Bytes

  predicate Top(c: bv16) { c & 0x8000 != 0 }
  function Double(c: bv16): bv16 { c << 1 }
  function Xor(a: bv16, b: bv16): bv16 { a ^ b }
  /** x^12 + x^5 + 1, the generator without its leading term. */
  const GENERATOR: bv16 := 0x1021

  /** The register after one message bit. */
  function Step(c: bv16, b: bool): bv16 {
    if Top(c) != b then Xor(Double(c), GENERATOR) else Double(c)
  }

  /** The register after n zero bits. */
  function Shifts(c: bv16, n: nat): bv16
    decreases n
  {
    if n == 0 then c else Shifts(Step(c, false), n - 1)
  }

  function TopByte(b: byte): bv16 { (b as bv16) << 8 }

  /** The byte-wise register: xor the byte into the top, then eight shifts. */
  function Register(c: bv16, data: seq<byte>): bv16
    decreases |data|
  {
    if data == [] then c else Register(Shifts(Xor(c, TopByte(data[0])), 8), data[1..])
  }

  function Crc(data: seq<byte>): bv16 {
    Register(0xFFFF, data)
  }

  /** nuki_crc16 */
  method Compute(data: seq<byte>) returns (crc: bv16)
    ensures crc == Crc(data)
  {
    hide Xor, TopByte;
    crc := 0xFFFF;
    for i := 0 to |data|
      invariant Register(crc, data[i..]) == Crc(data)
    {
      ghost var rest := data[i..];
      assert rest[0] == data[i] && rest[1..] == data[i + 1..];
      crc := EightShifts(Xor(crc, TopByte(data[i])));
    }
  }

  method EightShifts(c: bv16) returns (crc: bv16)
    ensures crc == Shifts(c, 8)
  {
    crc := c;
    for j := 0 to 8
      invariant Shifts(crc, 8 - j) == Shifts(c, 8)
    {
      if crc & 0x8000 != 0 {
        crc := (crc << 1) ^ 0x1021;
      } else {
        crc := crc << 1;
      }
    }
  }

  // ------------------------------------------------------------------------ bits

  type bits = seq<bool>

  /** The n leading bits of a word, most significant first. */
  function WordBits(c: bv16, n: nat): (s: bits)
    ensures |s| == n
    decreases n
  {
    if n == 0 then [] else [Top(c)] + WordBits(Double(c), n - 1)
  }

  /** The eight bits of a byte, most significant first. */
  function ByteBits(b: byte): (s: bits)
    ensures |s| == 8
  {
    WordBits(TopByte(b), 8)
  }

  /** The bits of a byte string, most significant bit of each byte first. */
  function Bits(data: seq<byte>): (s: bits)
    ensures |s| == 8 * |data|
  {
    if data == [] then [] else ByteBits(data[0]) + Bits(data[1..])
  }

  /** The register after a run of message bits. */
  function Feed(c: bv16, m: bits): bv16
    decreases |m|
  {
    if m == [] then c else Feed(Step(c, m[0]), m[1..])
  }

  lemma {:induction false} FeedConcat(c: bv16, a: bits, b: bits)
    ensures Feed(c, a + b) == Feed(Feed(c, a), b)
    decreases |a|
  {
    hide Step;
    if a == [] {
      assert a + b == b;
    } else {
      assert (a + b)[1..] == a[1..] + b;
      FeedConcat(Step(c, a[0]), a[1..], b);
    }
  }

  // ----------------------------------------------------------- word-level algebra

  lemma TopXor(a: bv16, b: bv16)
    ensures Top(Xor(a, b)) == (Top(a) != Top(b))
  {
  }

  lemma DoubleXor(a: bv16, b: bv16)
    ensures Double(Xor(a, b)) == Xor(Double(a), Double(b))
  {
  }

  lemma XorAssoc(a: bv16, b: bv16, c: bv16)
    ensures Xor(Xor(a, b), c) == Xor(a, Xor(b, c))
    ensures Xor(a, b) == Xor(b, a)
  {
  }

  lemma XorCancel(a: bv16, b: bv16)
    ensures Xor(Xor(a, b), b) == a
    ensures Xor(a, a) == 0
    ensures Xor(a, 0) == a
  {
  }

  lemma XorRearrange(p: bv16, q: bv16, g: bv16)
    ensures Xor(Xor(p, g), Xor(q, g)) == Xor(p, q)
    ensures Xor(Xor(p, g), q) == Xor(Xor(p, q), g)
    ensures Xor(p, Xor(q, g)) == Xor(Xor(p, q), g)
  {
    hide Xor;
    XorAssoc(p, g, Xor(q, g));
    XorAssoc(g, Xor(q, g), 0);
    XorCancel(q, g);
    XorAssoc(p, g, q);
    XorAssoc(p, q, g);
    XorAssoc(g, q, 0);
  }

  /** The register step is linear over xor in the register and the message bit together. */
  lemma StepLinear(a: bv16, b: bv16, x: bool, y: bool)
    ensures Step(Xor(a, b), x != y) == Xor(Step(a, x), Step(b, y))
  {
    hide Top, Double, Xor;
    TopXor(a, b);
    DoubleXor(a, b);
    XorRearrange(Double(a), Double(b), GENERATOR);
  }

  /** Feeding the leading bit of w is xoring w in and shifting, up to the rest of w. */
  lemma StepAbsorb(c: bv16, w: bv16)
    ensures Xor(Step(c, Top(w)), Double(w)) == Step(Xor(c, w), false)
  {
    hide Top, Double, Xor;
    TopXor(c, w);
    DoubleXor(c, w);
    XorRearrange(Double(c), Double(w), GENERATOR);
  }

  /** w shifted left by n. */
  function Drop(w: bv16, n: nat): bv16
    decreases n
  {
    if n == 0 then w else Drop(Double(w), n - 1)
  }

  /** Feeding n leading bits of w one by one is xoring w in at once and then shifting n times. */
  lemma {:induction false} FeedWord(c: bv16, w: bv16, n: nat)
    ensures Xor(Feed(c, WordBits(w, n)), Drop(w, n)) == Shifts(Xor(c, w), n)
    decreases n
  {
    hide Step, Xor, Top, Double;
    if n > 0 {
      var s := WordBits(w, n);
      assert s[0] == Top(w) && s[1..] == WordBits(Double(w), n - 1);
      FeedWord(Step(c, Top(w)), Double(w), n - 1);
      StepAbsorb(c, w);
    }
  }

  lemma {:induction false} DropAdd(w: bv16, a: nat, b: nat)
    ensures Drop(w, a + b) == Drop(Drop(w, a), b)
    decreases a
  {
    hide Double;
    if a > 0 {
      DropAdd(Double(w), a - 1, b);
    }
  }

  lemma Drop4(w: bv16)
    ensures Drop(w, 4) == w << 4
  {
    assert Double(w << 1) == w << 2;
    assert Double(w << 2) == w << 3;
    assert Double(w << 3) == w << 4;
  }

  lemma Drop8(w: bv16)
    ensures Drop(w, 8) == w << 8
  {
    Drop4(w);
    Drop4(w << 4);
    DropAdd(w, 4, 4);
    assert (w << 4) << 4 == w << 8;
  }

  lemma Drop16(w: bv16)
    ensures Drop(w, 16) == 0
  {
    Drop8(w);
    Drop8(w << 8);
    DropAdd(w, 8, 8);
    assert (w << 8) << 8 == 0;
  }

  lemma ByteDrop(b: byte)
    ensures Drop(TopByte(b), 8) == 0
  {
    Drop8(TopByte(b));
    assert ((b as bv16) << 8) << 8 == 0;
  }

  /** The byte-wise register computes the bit-serial one. */
  lemma {:induction false} RegisterIsFeed(c: bv16, data: seq<byte>)
    ensures Register(c, data) == Feed(c, Bits(data))
    decreases |data|
  {
    hide Xor, TopByte, Step;
    if data != [] {
      var w := TopByte(data[0]);
      FeedWord(c, w, 8);
      ByteDrop(data[0]);
      XorCancel(Feed(c, WordBits(w, 8)), 0);
      FeedConcat(c, ByteBits(data[0]), Bits(data[1..]));
      RegisterIsFeed(Shifts(Xor(c, w), 8), data[1..]);
    }
  }
}
