/** The Salsa20 hash and expansion of the Salsa20 specification, and HSalsa20, over 4-by-4 word matrices. */
module Salsa20Spec {
  import opened Bytes

  type word = bv32

  datatype Quad = Quad(a: word, b: word, c: word, d: word)

  /** Words 0-3, 4-7, 8-11 and 12-15 of the state. */
  datatype Matrix = Matrix(r0: Quad, r1: Quad, r2: Quad, r3: Quad)

  function Xor(x: word, y: word): word { x ^ y }

  function Rot(x: word, c: nat): word
    requires c < 32
  {
    x.RotateLeft(c)
  }

  /** The sum of p and q rotated left by 7, 9, 13 or 18. */
  function Sum7(p: word, q: word): word { Rot(p + q, 7) }
  function Sum9(p: word, q: word): word { Rot(p + q, 9) }
  function Sum13(p: word, q: word): word { Rot(p + q, 13) }
  function Sum18(p: word, q: word): word { Rot(p + q, 18) }

  /** Section 3: the quarterround function. */
  function QuarterRound(y: Quad): Quad {
    var z1 := Xor(y.b, Sum7(y.a, y.d));
    var z2 := Xor(y.c, Sum9(z1, y.a));
    var z3 := Xor(y.d, Sum13(z2, z1));
    var z0 := Xor(y.a, Sum18(z3, z2));
    Quad(z0, z1, z2, z3)
  }

  /** Section 4: the rowround function. */
  function RowRound(y: Matrix): Matrix {
    var q0 := QuarterRound(y.r0);
    var q1 := QuarterRound(Quad(y.r1.b, y.r1.c, y.r1.d, y.r1.a));
    var q2 := QuarterRound(Quad(y.r2.c, y.r2.d, y.r2.a, y.r2.b));
    var q3 := QuarterRound(Quad(y.r3.d, y.r3.a, y.r3.b, y.r3.c));
    Matrix(q0, Quad(q1.d, q1.a, q1.b, q1.c), Quad(q2.c, q2.d, q2.a, q2.b), Quad(q3.b, q3.c, q3.d, q3.a))
  }

  /** Section 5: the columnround function. */
  function ColumnRound(x: Matrix): Matrix {
    var q0 := QuarterRound(Quad(x.r0.a, x.r1.a, x.r2.a, x.r3.a));
    var q1 := QuarterRound(Quad(x.r1.b, x.r2.b, x.r3.b, x.r0.b));
    var q2 := QuarterRound(Quad(x.r2.c, x.r3.c, x.r0.c, x.r1.c));
    var q3 := QuarterRound(Quad(x.r3.d, x.r0.d, x.r1.d, x.r2.d));
    Matrix(Quad(q0.a, q1.d, q2.c, q3.b), Quad(q0.b, q1.a, q2.d, q3.c),
           Quad(q0.c, q1.b, q2.a, q3.d), Quad(q0.d, q1.c, q2.b, q3.a))
  }

  /** Section 6: a columnround followed by a rowround. */
  function DoubleRound(x: Matrix): Matrix {
    RowRound(ColumnRound(x))
  }

  function Iterate<T>(f: T -> T, n: nat, x: T): T {
    if n == 0 then x else f(Iterate(f, n - 1, x))
  }

  /** Ten doublerounds make the twenty rounds. */
  const ROUNDS: nat := 10

  function DoubleRounds(n: nat, x: Matrix): Matrix {
    Iterate(DoubleRound, n, x)
  }

  function Transpose(x: Matrix): Matrix {
    Matrix(Quad(x.r0.a, x.r1.a, x.r2.a, x.r3.a), Quad(x.r0.b, x.r1.b, x.r2.b, x.r3.b),
           Quad(x.r0.c, x.r1.c, x.r2.c, x.r3.c), Quad(x.r0.d, x.r1.d, x.r2.d, x.r3.d))
  }

  function Plus(x: word, y: word): word { x + y }

  function AddQuad(x: Quad, y: Quad): Quad {
    Quad(Plus(x.a, y.a), Plus(x.b, y.b), Plus(x.c, y.c), Plus(x.d, y.d))
  }

  function AddMatrix(x: Matrix, y: Matrix): Matrix {
    Matrix(AddQuad(x.r0, y.r0), AddQuad(x.r1, y.r1), AddQuad(x.r2, y.r2), AddQuad(x.r3, y.r3))
  }

  function QuadWords(q: Quad): (s: seq<word>)
    ensures |s| == 4
  {
    [q.a, q.b, q.c, q.d]
  }

  function Words(x: Matrix): (s: seq<word>)
    ensures |s| == 16
  {
    QuadWords(x.r0) + QuadWords(x.r1) + QuadWords(x.r2) + QuadWords(x.r3)
  }

  /** Words as little-endian bytes. */
  function Serialize(ws: seq<word>): (s: seq<byte>)
    ensures |s| == 4 * |ws|
  {
    if ws == [] then [] else Serialize(ws[..|ws| - 1]) + Put32(ws[|ws| - 1])
  }

  /** The i-th little-endian word of a byte string. */
  function WordAt(s: seq<byte>, i: nat): word
    requires 4 * i + 4 <= |s|
  {
    Get32(s[4 * i..4 * i + 4])
  }

  /** Section 9: the layout of constants c, key k and input n. */
  function Layout(k: seq<byte>, n: seq<byte>, c: seq<byte>): Matrix
    requires |k| == 32 && |n| == 16 && |c| == 16
  {
    Matrix(Quad(WordAt(c, 0), WordAt(k, 0), WordAt(k, 1), WordAt(k, 2)),
           Quad(WordAt(k, 3), WordAt(c, 1), WordAt(n, 0), WordAt(n, 1)),
           Quad(WordAt(n, 2), WordAt(n, 3), WordAt(c, 2), WordAt(k, 4)),
           Quad(WordAt(k, 5), WordAt(k, 6), WordAt(k, 7), WordAt(c, 3)))
  }

  /** Section 8: ten doublerounds of x, plus x. */
  function Salsa20Hash(x: Matrix): Matrix {
    AddMatrix(DoubleRounds(ROUNDS, x), x)
  }

  /** Section 9: the 64-byte block of key k and 16-byte input n. */
  function Block(k: seq<byte>, n: seq<byte>, c: seq<byte>): (s: seq<byte>)
    requires |k| == 32 && |n| == 16 && |c| == 16
    ensures |s| == 64
  {
    Serialize(Words(Salsa20Hash(Layout(k, n, c))))
  }

  /** Section 2 of "Extending the Salsa20 nonce": the diagonal and the input words of the rounds, not fed forward. */
  function HBlock(k: seq<byte>, n: seq<byte>, c: seq<byte>): (s: seq<byte>)
    requires |k| == 32 && |n| == 16 && |c| == 16
    ensures |s| == 32
  {
    Serialize(PublicWords(DoubleRounds(ROUNDS, Layout(k, n, c))))
  }

  /** The diagonal and the input words: the positions an attacker knows on input. */
  function PublicWords(z: Matrix): (s: seq<word>)
    ensures |s| == 8
  {
    [z.r0.a, z.r1.b, z.r2.c, z.r3.d] + [z.r1.c, z.r1.d, z.r2.a, z.r2.b]
  }

  // --------------------------------------------- round-then-transpose equivalence

  /** One loop iteration of the implementation: a columnround, transposed. */
  function Turn(x: Matrix): Matrix {
    Transpose(ColumnRound(x))
  }

  lemma RowRoundIsTurn(x: Matrix)
    ensures RowRound(x) == Turn(Transpose(x))
  {
  }

  /** Two turns are one doubleround. */
  lemma TwoTurns(x: Matrix)
    ensures Turn(Turn(x)) == DoubleRound(x)
  {
    RowRoundIsTurn(ColumnRound(x));
    assert Transpose(Transpose(ColumnRound(x))) == ColumnRound(x);
  }

  lemma {:induction false} IterateTwice<T(!new)>(f: T -> T, g: T -> T, n: nat, x: T)
    requires forall y :: f(f(y)) == g(y)
    ensures Iterate(f, 2 * n, x) == Iterate(g, n, x)
  {
    if n > 0 {
      IterateTwice(f, g, n - 1, x);
      var y := Iterate(f, 2 * n - 2, x);
      assert Iterate(f, 2 * n, x) == f(Iterate(f, 2 * n - 1, x)) == f(f(y));
    }
  }

  /** Twice n round-and-transpose iterations are n doublerounds. */
  lemma TurnsAreDoubleRounds(n: nat, x: Matrix)
    ensures Iterate(Turn, 2 * n, x) == DoubleRounds(n, x)
  {
    hide Turn, DoubleRound, Iterate;
    forall y ensures Turn(Turn(y)) == DoubleRound(y) {
      TwoTurns(y);
    }
    IterateTwice(Turn, DoubleRound, n, x);
  }

  // ------------------------------------------------------------------ bijection

  function UnQuarterRound(z: Quad): Quad {
    var y0 := Xor(z.a, Sum18(z.d, z.c));
    var y3 := Xor(z.d, Sum13(z.c, z.b));
    var y2 := Xor(z.c, Sum9(z.b, y0));
    var y1 := Xor(z.b, Sum7(y0, y3));
    Quad(y0, y1, y2, y3)
  }

  lemma XorTwice(x: word, y: word)
    ensures Xor(Xor(x, y), y) == x
  {
  }

  lemma QuarterRoundLeft(y: Quad)
    ensures UnQuarterRound(QuarterRound(y)) == y
  {
    var z := QuarterRound(y);
    XorTwice(y.a, Sum18(z.d, z.c));
    XorTwice(y.d, Sum13(z.c, z.b));
    XorTwice(y.c, Sum9(z.b, y.a));
    XorTwice(y.b, Sum7(y.a, y.d));
  }

  lemma QuarterRoundRight(z: Quad)
    ensures QuarterRound(UnQuarterRound(z)) == z
  {
    var y := UnQuarterRound(z);
    XorTwice(z.b, Sum7(y.a, y.d));
    XorTwice(z.c, Sum9(z.b, y.a));
    XorTwice(z.d, Sum13(z.c, z.b));
    XorTwice(z.a, Sum18(z.d, z.c));
  }

  function UnColumnRound(y: Matrix): Matrix {
    var q0 := UnQuarterRound(Quad(y.r0.a, y.r1.a, y.r2.a, y.r3.a));
    var q1 := UnQuarterRound(Quad(y.r1.b, y.r2.b, y.r3.b, y.r0.b));
    var q2 := UnQuarterRound(Quad(y.r2.c, y.r3.c, y.r0.c, y.r1.c));
    var q3 := UnQuarterRound(Quad(y.r3.d, y.r0.d, y.r1.d, y.r2.d));
    Matrix(Quad(q0.a, q1.d, q2.c, q3.b), Quad(q0.b, q1.a, q2.d, q3.c),
           Quad(q0.c, q1.b, q2.a, q3.d), Quad(q0.d, q1.c, q2.b, q3.a))
  }

  lemma ColumnRoundLeft(x: Matrix)
    ensures UnColumnRound(ColumnRound(x)) == x
  {
    QuarterRoundLeft(Quad(x.r0.a, x.r1.a, x.r2.a, x.r3.a));
    QuarterRoundLeft(Quad(x.r1.b, x.r2.b, x.r3.b, x.r0.b));
    QuarterRoundLeft(Quad(x.r2.c, x.r3.c, x.r0.c, x.r1.c));
    QuarterRoundLeft(Quad(x.r3.d, x.r0.d, x.r1.d, x.r2.d));
  }

  lemma ColumnRoundRight(y: Matrix)
    ensures ColumnRound(UnColumnRound(y)) == y
  {
    QuarterRoundRight(Quad(y.r0.a, y.r1.a, y.r2.a, y.r3.a));
    QuarterRoundRight(Quad(y.r1.b, y.r2.b, y.r3.b, y.r0.b));
    QuarterRoundRight(Quad(y.r2.c, y.r3.c, y.r0.c, y.r1.c));
    QuarterRoundRight(Quad(y.r3.d, y.r0.d, y.r1.d, y.r2.d));
  }

  function UnTurn(y: Matrix): Matrix {
    UnColumnRound(Transpose(y))
  }

  lemma TurnLeft(x: Matrix)
    ensures UnTurn(Turn(x)) == x
  {
    ColumnRoundLeft(x);
    assert Transpose(Turn(x)) == ColumnRound(x);
  }

  lemma TurnRight(y: Matrix)
    ensures Turn(UnTurn(y)) == y
  {
    ColumnRoundRight(Transpose(y));
    assert Transpose(Transpose(y)) == y;
  }

  lemma {:induction false} IterateShift<T>(f: T -> T, n: nat, x: T)
    ensures Iterate(f, n + 1, x) == Iterate(f, n, f(x))
  {
    if n > 0 {
      IterateShift(f, n - 1, x);
    }
  }

  lemma {:induction false} IterateInverse<T(!new)>(f: T -> T, g: T -> T, n: nat, x: T)
    requires forall y :: g(f(y)) == y
    ensures Iterate(g, n, Iterate(f, n, x)) == x
  {
    if n > 0 {
      var y := Iterate(f, n - 1, x);
      IterateShift(g, n - 1, f(y));
      assert g(f(y)) == y;
      IterateInverse(f, g, n - 1, x);
    }
  }

  /** The twenty rounds are a bijection on states: every state has exactly one preimage. */
  lemma RoundsBijective(x: Matrix, y: Matrix)
    ensures DoubleRounds(ROUNDS, x) == y <==> x == Iterate(UnTurn, 2 * ROUNDS, y)
  {
    hide Turn, UnTurn, DoubleRound, Iterate;
    forall z ensures UnTurn(Turn(z)) == z && Turn(UnTurn(z)) == z {
      TurnLeft(z);
      TurnRight(z);
    }
    TurnsAreDoubleRounds(ROUNDS, x);
    IterateInverse(Turn, UnTurn, 2 * ROUNDS, x);
    IterateInverse(UnTurn, Turn, 2 * ROUNDS, y);
  }
}
