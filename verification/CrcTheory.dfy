/** What the CRC is (a polynomial remainder) and what it detects (bursts of 16 bits, odd numbers of flips). */
module CrcTheory {
  import opened Bytes
  import opened Crc16

  function Zeros(n: nat): (s: bits)
    ensures |s| == n
  {
    seq(n, _ => false)
  }

  function XorBits(a: bits, b: bits): (s: bits)
    requires |a| == |b|
    ensures |s| == |a|
  {
    seq(|a|, i requires 0 <= i < |a| => a[i] != b[i])
  }

  function Word(c: bv16): (s: bits)
    ensures |s| == 16
  {
    WordBits(c, 16)
  }

  // ------------------------------------------------------------- bits of a word

  lemma XorCons(x: bool, a: bits, y: bool, b: bits)
    requires |a| == |b|
    ensures XorBits([x] + a, [y] + b) == [x != y] + XorBits(a, b)
  {
  }

  lemma {:induction false} WordBitsXor(a: bv16, b: bv16, n: nat)
    ensures WordBits(Xor(a, b), n) == XorBits(WordBits(a, n), WordBits(b, n))
    decreases n
  {
    hide Xor, Top, Double, XorBits;
    if n == 0 {
      assert XorBits([], []) == [];
    } else {
      TopXor(a, b);
      DoubleXor(a, b);
      WordBitsXor(Double(a), Double(b), n - 1);
      XorCons(Top(a), WordBits(Double(a), n - 1), Top(b), WordBits(Double(b), n - 1));
    }
  }

  lemma {:induction false} WordBitsSplit(c: bv16, m: nat, n: nat)
    ensures WordBits(c, m + n) == WordBits(c, m) + WordBits(Drop(c, m), n)
    decreases m
  {
    hide Top, Double;
    if m > 0 {
      WordBitsSplit(Double(c), m - 1, n);
    }
  }

  lemma {:induction false} ZeroWordBits(n: nat)
    ensures WordBits(0, n) == Zeros(n)
    decreases n
  {
    if n > 0 {
      ZeroWordBits(n - 1);
      assert Double(0) == 0 && !Top(0);
    }
  }

  lemma WordBitsTail(c: bv16, n: nat)
    ensures WordBits(c, n + 1)[1..] == WordBits(Double(c), n)
  {
    hide Top, Double;
  }

  /** Shifting a word left drops its leading bit and appends a zero. */
  lemma DoubleBits(c: bv16)
    ensures Word(Double(c)) == Word(c)[1..] + [false]
  {
    hide Top, Double, Drop, WordBits;
    WordBitsSplit(c, 16, 1);
    Drop16(c);
    ZeroWordBits(1);
    WordBitsTail(c, 16);
    assert Zeros(1) == [false];
  }

  lemma FourBits(c: bv16)
    ensures WordBits(c, 4) == [Top(c), Top(c << 1), Top(c << 2), Top(c << 3)]
  {
    assert Double(c) == c << 1 && Double(c << 1) == c << 2 && Double(c << 2) == c << 3;
    hide Top, Double;
    assert WordBits(c << 3, 1) == [Top(c << 3)];
    assert WordBits(c << 2, 2) == [Top(c << 2)] + WordBits(c << 3, 1);
    assert WordBits(c << 1, 3) == [Top(c << 1)] + WordBits(c << 2, 2);
  }

  lemma EightBits(c: bv16)
    ensures WordBits(c, 8) == [Top(c), Top(c << 1), Top(c << 2), Top(c << 3)]
                              + [Top(c << 4), Top(c << 4 << 1), Top(c << 4 << 2), Top(c << 4 << 3)]
  {
    hide Top, Double, WordBits, Drop;
    WordBitsSplit(c, 4, 4);
    Drop4(c);
    FourBits(c);
    FourBits(c << 4);
  }

  const HIGH_TERMS: bits := [false, false, false, true] + [false, false, false, false]
  const LOW_TERMS: bits := [false, false, true, false] + [false, false, false, true]

  /** The coefficients of x^12 + x^5 + 1. */
  lemma GeneratorBits()
    ensures Word(GENERATOR) == HIGH_TERMS + LOW_TERMS
  {
    hide WordBits, Drop;
    WordBitsSplit(0x1021, 8, 8);
    Drop8(0x1021);
    EightBits(0x1021);
    EightBits(0x2100);
  }

  // ------------------------------------------------------------ polynomial remainder

  /** Xors g into the first bits of s. */
  function XorPrefix(s: bits, g: bits): (r: bits)
    requires |g| <= |s|
    ensures |r| == |s|
  {
    XorBits(s[..|g|], g) + s[|g|..]
  }

  /** Schoolbook division by x^16 + x^12 + x^5 + 1: while more than sixteen coefficients are left, a leading one is
      cancelled by subtracting the generator under it. */
  function Remainder(s: bits): (r: bits)
    requires |s| >= 16
    ensures |r| == 16
    decreases |s|
  {
    if |s| == 16 then s
    else if s[0] then Remainder(XorPrefix(s[1..], Word(GENERATOR)))
    else Remainder(s[1..])
  }

  /** The register c xored over the front of the message m extended by sixteen zeros. */
  function Dividend(c: bv16, m: bits): (s: bits)
    ensures |s| == |m| + 16
  {
    XorBits(Word(c) + Zeros(|m|), m + Zeros(16))
  }

  lemma DividendStep(c: bv16, m: bits)
    requires m != []
    ensures Dividend(c, m)[0] == (Top(c) != m[0])
    ensures Dividend(Double(c), m[1..]) == Dividend(c, m)[1..]
  {
    hide Top, Double;
    DoubleBits(c);
    var s, t := Dividend(c, m), Dividend(Double(c), m[1..]);
    forall i | 0 <= i < |t| ensures t[i] == s[i + 1] {
      if i < 15 {
        assert Word(Double(c))[i] == Word(c)[i + 1];
      }
    }
  }

  lemma DividendXor(c: bv16, g: bv16, m: bits)
    ensures Dividend(Xor(c, g), m) == XorPrefix(Dividend(c, m), Word(g))
  {
    hide Xor, WordBits;
    WordBitsXor(c, g, 16);
  }

  /** The register after the message is the remainder of the dividend. */
  lemma {:induction false} FeedIsRemainder(c: bv16, m: bits)
    ensures Word(Feed(c, m)) == Remainder(Dividend(c, m))
    decreases |m|
  {
    hide Top, Double, Xor, WordBits, Dividend, XorPrefix;
    if m == [] {
      assert Dividend(c, m) == Word(c) by {
        EmptyDividend(c);
      }
    } else {
      DividendStep(c, m);
      if Top(c) != m[0] {
        DividendXor(Double(c), GENERATOR, m[1..]);
      }
      FeedIsRemainder(Step(c, m[0]), m[1..]);
    }
  }

  lemma EmptyDividend(c: bv16)
    ensures Dividend(c, []) == Word(c)
  {
  }

  /** The CRC is what long division leaves of the message times x^16, with the first sixteen coefficients inverted. */
  lemma CrcByLongDivision(data: seq<byte>)
    ensures Word(Crc(data)) == Remainder(Dividend(0xFFFF, Bits(data)))
  {
    hide Step, Remainder, Dividend;
    RegisterIsFeed(0xFFFF, data);
    FeedIsRemainder(0xFFFF, Bits(data));
  }

  /** The difference of two registers depends only on the differences of the starts and of the messages. */
  lemma {:induction false} FeedLinear(c: bv16, d: bv16, a: bits, b: bits)
    requires |a| == |b|
    ensures Xor(Feed(c, a), Feed(d, b)) == Feed(Xor(c, d), XorBits(a, b))
    decreases |a|
  {
    hide Step, Xor;
    if a != [] {
      StepLinear(c, d, a[0], b[0]);
      FeedLinear(Step(c, a[0]), Step(d, b[0]), a[1..], b[1..]);
      assert XorBits(a, b)[1..] == XorBits(a[1..], b[1..]);
    }
  }

  /** The CRC is affine over xor: the start value cancels from the difference of two CRCs. */
  lemma CrcAffine(a: seq<byte>, b: seq<byte>)
    requires |a| == |b|
    ensures Xor(Crc(a), Crc(b)) == Feed(0, XorBits(Bits(a), Bits(b)))
  {
    RegisterIsFeed(0xFFFF, a);
    RegisterIsFeed(0xFFFF, b);
    FeedLinear(0xFFFF, 0xFFFF, Bits(a), Bits(b));
  }

  // ---------------------------------------------------------------------- bursts

  predicate Odd(c: bv16) { c & 1 == 1 }

  lemma OddStep(c: bv16)
    ensures !Odd(Double(c))
    ensures Odd(Xor(Double(c), GENERATOR))
  {
    assert (c << 1) & 1 == 0;
    assert ((c << 1) ^ 0x1021) & 1 == 1;
  }

  lemma DoubleInjective(a: bv16, b: bv16)
    requires Double(a) == Double(b) && Top(a) == Top(b)
    ensures a == b
  {
  }

  /** A shift of the register loses nothing. */
  lemma StepInjective(a: bv16, b: bv16, x: bool)
    requires Step(a, x) == Step(b, x)
    ensures a == b
  {
    hide Top, Double, Xor, Odd;
    OddStep(a);
    OddStep(b);
    XorCancel(Double(a), GENERATOR);
    XorCancel(Double(b), GENERATOR);
    DoubleInjective(a, b);
  }

  lemma {:induction false} FeedInjective(a: bv16, b: bv16, m: bits)
    requires Feed(a, m) == Feed(b, m)
    ensures a == b
    decreases |m|
  {
    hide Step;
    if m != [] {
      FeedInjective(Step(a, m[0]), Step(b, m[0]), m[1..]);
      StepInjective(a, b, m[0]);
    }
  }

  lemma {:induction false} ShiftsInjective(a: bv16, b: bv16, n: nat)
    requires Shifts(a, n) == Shifts(b, n)
    ensures a == b
    decreases n
  {
    hide Step;
    if n > 0 {
      ShiftsInjective(Step(a, false), Step(b, false), n - 1);
      StepInjective(a, b, false);
    }
  }

  /** The word whose bits are the last sixteen of Word(c) + w. */
  function Pack(c: bv16, w: bits): bv16
    decreases |w|
  {
    if w == [] then c else Pack(Xor(Double(c), if w[0] then 1 else 0), w[1..])
  }

  lemma OneWordBits()
    ensures Word(1) == Zeros(15) + [true]
  {
    WordBitsSplit(1, 15, 1);
    Drop8(1);
    Drop4(0x100);
    DropAdd(1, 8, 4);
    assert Drop(0x1000, 3) == 0x8000;
    DropAdd(1, 12, 3);
    assert Top(0x8000);
    LeadingZeros();
  }

  lemma LeadingZeros()
    ensures WordBits(1, 15) == Zeros(15)
  {
    WordBitsSplit(1, 8, 7);
    Drop8(1);
    assert WordBits(1, 8) == Zeros(8);
    assert WordBits(0x100, 7) == Zeros(7);
  }

  /** Shifting a bit into a word. */
  lemma ShiftInBits(c: bv16, b: bool)
    ensures Word(Xor(Double(c), if b then 1 else 0)) == Word(c)[1..] + [b]
  {
    hide Xor, Double, WordBits;
    DoubleBits(c);
    WordBitsXor(Double(c), if b then 1 else 0, 16);
    OneWordBits();
    ZeroWordBits(16);
  }

  lemma SlideWindow(v: bits, w: bits)
    requires |v| == 16 && w != []
    ensures ((v[1..] + [w[0]]) + w[1..])[|w| - 1..] == (v + w)[|w|..]
  {
  }

  lemma {:induction false} PackBits(c: bv16, w: bits)
    ensures Word(Pack(c, w)) == (Word(c) + w)[|w|..]
    decreases |w|
  {
    hide Xor, Double, Word;
    if w == [] {
      assert Word(c) + w == Word(c);
    } else {
      ShiftInBits(c, w[0]);
      PackBits(Xor(Double(c), if w[0] then 1 else 0), w[1..]);
      SlideWindow(Word(c), w);
    }
  }

  /** Two different windows of exactly sixteen bits never leave the same register. */
  lemma WindowInjective(c: bv16, v: bits, w: bits)
    requires |v| == |w| == 16
    requires Feed(c, v) == Feed(c, w)
    ensures v == w
  {
    hide Xor, WordBits, Feed, Shifts, Drop, Pack;
    var p, q := Pack(0, v), Pack(0, w);
    PackBits(0, v);
    PackBits(0, w);
    assert Word(p) == v && Word(q) == w;
    FeedWord(c, p, 16);
    FeedWord(c, q, 16);
    Drop16(p);
    Drop16(q);
    ShiftsInjective(Xor(c, p), Xor(c, q), 16);
    XorCancel(p, c);
    XorCancel(q, c);
    XorAssoc(p, c, 0);
    XorAssoc(q, c, 0);
  }

  /** a and b agree outside the sixteen positions from p on. */
  ghost predicate Burst(a: bits, b: bits, p: nat) {
    |a| == |b| && forall i :: 0 <= i < |a| && !(p <= i < p + 16) ==> a[i] == b[i]
  }

  lemma FeedThree(c: bv16, pre: bits, v: bits, post: bits)
    ensures Feed(c, pre + (v + post)) == Feed(Feed(Feed(c, pre), v), post)
  {
    hide Feed;
    FeedConcat(c, pre, v + post);
    FeedConcat(Feed(c, pre), v, post);
  }

  lemma BurstParts(a: bits, b: bits, p: nat)
    requires Burst(a, b, p) && p + 16 <= |a|
    ensures a == a[..p] + (a[p..p + 16] + a[p + 16..])
    ensures b == a[..p] + (b[p..p + 16] + a[p + 16..])
  {
  }

  lemma BitBurstDetected(c: bv16, a: bits, b: bits, p: nat)
    requires Burst(a, b, p) && p + 16 <= |a|
    requires Feed(c, a) == Feed(c, b)
    ensures a == b
  {
    assert |a| == |b|;
    hide Feed, Burst;
    var pre, v, w, post := a[..p], a[p..p + 16], b[p..p + 16], a[p + 16..];
    BurstParts(a, b, p);
    FeedThree(c, pre, v, post);
    FeedThree(c, pre, w, post);
    var d := Feed(c, pre);
    FeedInjective(Feed(d, v), Feed(d, w), post);
    WindowInjective(d, v, w);
  }

  /** Sixteen equal bits behind two messages make room for a window at the end. */
  lemma BurstPadded(a: bits, b: bits, p: nat) returns (q: nat)
    requires Burst(a, b, p)
    ensures q + 16 <= |a + Zeros(16)| && Burst(a + Zeros(16), b + Zeros(16), q)
  {
    q := if p < |a| then p else |a|;
  }

  lemma PaddedInjective(a: bits, b: bits)
    requires |a| == |b| && a + Zeros(16) == b + Zeros(16)
    ensures a == b
  {
    assert a == (a + Zeros(16))[..|a|];
    assert b == (b + Zeros(16))[..|b|];
  }

  /** No burst of up to sixteen bits goes unnoticed, in a message of any length. */
  lemma BurstDetected(a: seq<byte>, b: seq<byte>, p: nat)
    requires |a| == |b| && a != b
    requires Burst(Bits(a), Bits(b), p)
    ensures Crc(a) != Crc(b)
  {
    hide Feed, Bits, Burst, Register;
    RegisterIsFeed(0xFFFF, a);
    RegisterIsFeed(0xFFFF, b);
    if Crc(a) == Crc(b) {
      FeedConcat(0xFFFF, Bits(a), Zeros(16));
      FeedConcat(0xFFFF, Bits(b), Zeros(16));
      var q := BurstPadded(Bits(a), Bits(b), p);
      BitBurstDetected(0xFFFF, Bits(a) + Zeros(16), Bits(b) + Zeros(16), q);
      PaddedInjective(Bits(a), Bits(b));
      BitsInjective(a, b);
    }
  }

  lemma {:induction false} BitsInjective(a: seq<byte>, b: seq<byte>)
    requires |a| == |b| && Bits(a) == Bits(b)
    ensures a == b
  {
    hide ByteBits;
    if a != [] {
      assert ByteBits(a[0]) == Bits(a)[..8] && Bits(a[1..]) == Bits(a)[8..];
      assert ByteBits(b[0]) == Bits(b)[..8] && Bits(b[1..]) == Bits(b)[8..];
      ByteBitsInjective(a[0], b[0]);
      BitsInjective(a[1..], b[1..]);
    }
  }

  lemma ByteBitsInjective(x: byte, y: byte)
    requires ByteBits(x) == ByteBits(y)
    ensures x == y
  {
    hide Xor, WordBits, Shifts, Feed, TopByte;
    FeedWord(0, TopByte(x), 8);
    FeedWord(0, TopByte(y), 8);
    ByteDrop(x);
    ByteDrop(y);
    ShiftsInjective(Xor(0, TopByte(x)), Xor(0, TopByte(y)), 8);
    XorAssoc(0, TopByte(x), 0);
    XorAssoc(0, TopByte(y), 0);
    XorCancel(TopByte(x), 0);
    XorCancel(TopByte(y), 0);
    TopByteInjective(x, y);
  }

  lemma TopByteInjective(x: byte, y: byte)
    requires TopByte(x) == TopByte(y)
    ensures x == y
  {
  }
}
