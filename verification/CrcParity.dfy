/** The generator has an even number of terms, so the CRC carries the parity of the message. */
module CrcParity {
  import opened Bytes
  import opened Crc16
  import opened CrcTheory

  /** The number of one bits. */
  function Ones(s: bits): nat {
    if s == [] then 0 else Bit(s[0]) + Ones(s[1..])
  }

  function Bit(b: bool): nat {
    if b then 1 else 0
  }

  predicate Parity(s: bits) {
    Ones(s) % 2 == 1
  }

  lemma {:induction false} OnesConcat(a: bits, b: bits)
    ensures Ones(a + b) == Ones(a) + Ones(b)
  {
    if a == [] {
      assert a + b == b;
    } else {
      assert (a + b)[1..] == a[1..] + b;
      OnesConcat(a[1..], b);
    }
  }

  lemma ParityConcat(a: bits, b: bits)
    ensures Parity(a + b) == (Parity(a) != Parity(b))
  {
    OnesConcat(a, b);
  }

  lemma {:induction false} ParityXor(a: bits, b: bits)
    requires |a| == |b|
    ensures Parity(XorBits(a, b)) == (Parity(a) != Parity(b))
  {
    if a != [] {
      ParityXor(a[1..], b[1..]);
      assert XorBits(a, b)[1..] == XorBits(a[1..], b[1..]);
    }
  }

  lemma FourOnes(s: bits)
    requires |s| == 4
    ensures Ones(s) == Bit(s[0]) + Bit(s[1]) + Bit(s[2]) + Bit(s[3])
  {
    hide Bit;
    assert Ones(s[1..]) == Bit(s[1]) + Ones(s[1..][1..]);
    assert s[1..][1..] == s[2..] && s[2..][1..] == s[3..] && s[3..][1..] == [];
    assert Ones(s[2..]) == Bit(s[2]) + Ones(s[3..]);
  }

  lemma EightOnes(s: bits)
    requires |s| == 8
    ensures Ones(s) == Bit(s[0]) + Bit(s[1]) + Bit(s[2]) + Bit(s[3]) + Bit(s[4]) + Bit(s[5]) + Bit(s[6]) + Bit(s[7])
  {
    hide Bit, Ones;
    FourOnes(s[..4]);
    FourOnes(s[4..]);
    OnesConcat(s[..4], s[4..]);
    assert s == s[..4] + s[4..];
  }

  lemma GeneratorParity()
    ensures Parity(Word(GENERATOR))
  {
    hide WordBits, Ones;
    GeneratorBits();
    EightOnes(HIGH_TERMS);
    EightOnes(LOW_TERMS);
    OnesConcat(HIGH_TERMS, LOW_TERMS);
  }

  lemma StartParity()
    ensures !Parity(Word(0xFFFF))
  {
    hide WordBits, Ones, Drop;
    WordBitsSplit(0xFFFF, 8, 8);
    Drop8(0xFFFF);
    EightBits(0xFFFF);
    EightBits(0xFF00);
    EightOnes(WordBits(0xFFFF, 8));
    EightOnes(WordBits(0xFF00, 8));
    OnesConcat(WordBits(0xFFFF, 8), WordBits(0xFF00, 8));
  }

  lemma DoubleParity(c: bv16)
    ensures Parity(Word(Double(c))) == (Parity(Word(c)) != Top(c))
  {
    hide Top, Double, Word;
    DoubleBits(c);
    assert Word(c)[0] == Top(c) by {
      WordHead(c);
    }
    assert Word(c) == [Word(c)[0]] + Word(c)[1..];
    ParityConcat(Word(c)[1..], [false]);
    ParityConcat([Word(c)[0]], Word(c)[1..]);
  }

  lemma WordHead(c: bv16)
    ensures Word(c)[0] == Top(c)
  {
  }

  lemma StepParity(c: bv16, b: bool)
    ensures Parity(Word(Step(c, b))) == (Parity(Word(c)) != b)
  {
    hide Top, Double, Xor, WordBits, Parity;
    DoubleParity(c);
    WordBitsXor(Double(c), GENERATOR, 16);
    ParityXor(Word(Double(c)), Word(GENERATOR));
    GeneratorParity();
  }

  lemma {:induction false} FeedParity(c: bv16, m: bits)
    ensures Parity(Word(Feed(c, m))) == (Parity(Word(c)) != Parity(m))
    decreases |m|
  {
    hide Step, WordBits;
    if m != [] {
      StepParity(c, m[0]);
      FeedParity(Step(c, m[0]), m[1..]);
    }
  }

  lemma CrcParity(data: seq<byte>)
    ensures Parity(Word(Crc(data))) == Parity(Bits(data))
  {
    RegisterIsFeed(0xFFFF, data);
    FeedParity(0xFFFF, Bits(data));
    StartParity();
  }

  // ------------------------------------------------------------- the stored CRC

  lemma SplitWord(c: bv16)
    ensures c == Xor(TopByte((c >> 8) as byte), c & 0xFF)
    ensures c << 8 == TopByte((c & 0xFF) as byte)
  {
  }

  lemma {:induction false} LowByteBits(c: bv16)
    ensures WordBits(c & 0xFF, 8) == Zeros(8)
  {
    var b := (c & 0xFF) as byte;
    assert c & 0xFF == b as bv16;
    ByteTops(b);
  }

  lemma ByteTops(b: byte)
    ensures WordBits(b as bv16, 8) == Zeros(8)
  {
    assert !Top(b as bv16);
    assert !Top((b as bv16) << 1) && Double(b as bv16) == (b as bv16) << 1;
    assert !Top((b as bv16) << 2) && Double((b as bv16) << 1) == (b as bv16) << 2;
    assert !Top((b as bv16) << 3) && Double((b as bv16) << 2) == (b as bv16) << 3;
    assert !Top((b as bv16) << 4) && Double((b as bv16) << 3) == (b as bv16) << 4;
    assert !Top((b as bv16) << 5) && Double((b as bv16) << 4) == (b as bv16) << 5;
    assert !Top((b as bv16) << 6) && Double((b as bv16) << 5) == (b as bv16) << 6;
    assert !Top((b as bv16) << 7) && Double((b as bv16) << 6) == (b as bv16) << 7;
    hide Top, Double;
    assert WordBits((b as bv16) << 7, 1) == [false];
    assert WordBits((b as bv16) << 4, 4) == [false, false, false, false];
    assert WordBits(b as bv16, 8) == [false, false, false, false] + WordBits((b as bv16) << 4, 4);
  }

  lemma WordIsBytes(c: bv16)
    ensures Word(c) == ByteBits((c >> 8) as byte) + ByteBits((c & 0xFF) as byte)
  {
    hide Top, Double, Xor, WordBits, TopByte;
    SplitWord(c);
    WordBitsSplit(c, 8, 8);
    Drop8(c);
    WordBitsXor(TopByte((c >> 8) as byte), c & 0xFF, 8);
    LowByteBits(c);
    assert WordBits(c, 8) == ByteBits((c >> 8) as byte);
  }

  lemma TwoByteBits(a: byte, b: byte)
    ensures Bits([a, b]) == ByteBits(a) + ByteBits(b)
  {
    hide ByteBits;
    assert [a, b][1..] == [b];
    assert Bits([b]) == ByteBits(b) + Bits([]);
  }

  /** Storing the CRC low byte first keeps its parity. */
  lemma StoredParity(c: bv16)
    ensures Parity(Bits(Put16(c))) == Parity(Word(c))
  {
    hide Word, ByteBits, Parity, Bits;
    var high, low := (c >> 8) as byte, (c & 0xFF) as byte;
    WordIsBytes(c);
    TwoByteBits(low, high);
    ParityConcat(ByteBits(high), ByteBits(low));
    ParityConcat(ByteBits(low), ByteBits(high));
  }

  lemma {:induction false} BitsConcat(a: seq<byte>, b: seq<byte>)
    ensures Bits(a + b) == Bits(a) + Bits(b)
  {
    hide ByteBits;
    if a == [] {
      assert a + b == b;
    } else {
      assert (a + b)[1..] == a[1..] + b;
      BitsConcat(a[1..], b);
    }
  }

  /** A body followed by its stored CRC has an even number of one bits. */
  lemma FrameParityEven(body: seq<byte>)
    ensures !Parity(Bits(body + Put16(Crc(body))))
  {
    hide Parity, Put16;
    BitsConcat(body, Put16(Crc(body)));
    ParityConcat(Bits(body), Bits(Put16(Crc(body))));
    StoredParity(Crc(body));
    CrcParity(body);
  }
}
