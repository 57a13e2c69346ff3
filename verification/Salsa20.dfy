/** The Salsa20 / HSalsa20 core in its round-then-transpose form. */
module Salsa20 {
  import opened Bytes
  import opened Salsa20Spec

  /** "expand 32-byte k" */
  const SIGMA: seq<byte> := [101, 120, 112, 97, 110, 100, 32, 51, 50, 45, 98, 121, 116, 101, 32, 107]

  lemma SigmaText()
    ensures |SIGMA| == 16 && forall i :: 0 <= i < 16 ==> Nat8(SIGMA[i]) == "expand 32-byte k"[i] as nat
  {
    hide Nat8;
    SigmaBegins();
    SigmaEnds();
  }

  lemma SigmaBegins()
    ensures forall i :: 0 <= i < 8 ==> Nat8(SIGMA[i]) == "expand 32-byte k"[i] as nat
  {
  }

  lemma SigmaEnds()
    ensures forall i :: 8 <= i < 16 ==> Nat8(SIGMA[i]) == "expand 32-byte k"[i] as nat
  {
  }

  /** The matrix held by a 16-word array. */
  function Mat(x: seq<word>): Matrix
    requires |x| == 16
  {
    Matrix(Quad(x[0], x[1], x[2], x[3]), Quad(x[4], x[5], x[6], x[7]),
           Quad(x[8], x[9], x[10], x[11]), Quad(x[12], x[13], x[14], x[15]))
  }

  method Rotl32(x: word, c: nat) returns (r: word)
    requires 0 < c < 32
    ensures r == Rot(x, c)
  {
    r := (x << c) | (x >> (32 - c));
  }

  /** Rotations of sums, by the four amounts the rounds use. */
  method RotatedSum(p: word, q: word, c: nat) returns (r: word)
    requires c == 7 || c == 9 || c == 13 || c == 18
    ensures r == if c == 7 then Sum7(p, q) else if c == 9 then Sum9(p, q)
                 else if c == 13 then Sum13(p, q) else Sum18(p, q)
  {
    r := Rotl32(p + q, c);
  }

  method QuarterInPlace(t: array<word>)
    requires t.Length == 4
    modifies t
    ensures Quad(t[0], t[1], t[2], t[3]) == QuarterRound(old(Quad(t[0], t[1], t[2], t[3])))
  {
    hide Xor, Sum7, Sum9, Sum13, Sum18;
    var r := RotatedSum(t[0], t[3], 7);
    t[1] := Xor(t[1], r);
    r := RotatedSum(t[1], t[0], 9);
    t[2] := Xor(t[2], r);
    r := RotatedSum(t[2], t[1], 13);
    t[3] := Xor(t[3], r);
    r := RotatedSum(t[3], t[2], 18);
    t[0] := Xor(t[0], r);
  }

  /** Column j, starting on the diagonal. */
  function Column(x: seq<word>, j: nat): Quad
    requires |x| == 16 && j < 4
  {
    if j == 0 then Quad(x[0], x[4], x[8], x[12])
    else if j == 1 then Quad(x[5], x[9], x[13], x[1])
    else if j == 2 then Quad(x[10], x[14], x[2], x[6])
    else Quad(x[15], x[3], x[7], x[11])
  }

  /** Row j, starting on the diagonal. */
  function Row(w: seq<word>, j: nat): Quad
    requires |w| == 16 && j < 4
  {
    if j == 0 then Quad(w[0], w[1], w[2], w[3])
    else if j == 1 then Quad(w[5], w[6], w[7], w[4])
    else if j == 2 then Quad(w[10], w[11], w[8], w[9])
    else Quad(w[15], w[12], w[13], w[14])
  }

  method Gather(x: array<word>, j: nat) returns (t: array<word>)
    requires x.Length == 16 && j < 4
    ensures fresh(t) && t.Length == 4
    ensures Quad(t[0], t[1], t[2], t[3]) == Column(x[..], j)
  {
    t := new word[4];
    for m := 0 to 4
      invariant forall i :: 0 <= i < m ==> t[i] == x[(5 * j + 4 * i) % 16]
    {
      t[m] := x[(5 * j + 4 * m) % 16];
    }
    ColumnIndices(x[..], t[..], j);
  }

  lemma ColumnIndices(x: seq<word>, t: seq<word>, j: nat)
    requires |x| == 16 && |t| == 4 && j < 4
    requires forall i :: 0 <= i < 4 ==> t[i] == x[(5 * j + 4 * i) % 16]
    ensures Quad(t[0], t[1], t[2], t[3]) == Column(x, j)
  {
    assert t[0] == x[5 * j % 16];
    assert t[1] == x[(5 * j + 4) % 16];
    assert t[2] == x[(5 * j + 8) % 16];
    assert t[3] == x[(5 * j + 12) % 16];
  }

  method Scatter(w: array<word>, t: array<word>, j: nat)
    requires w.Length == 16 && t.Length == 4 && w != t && j < 4
    modifies w
    ensures Row(w[..], j) == Quad(t[0], t[1], t[2], t[3])
    ensures forall i :: 0 <= i < 4 && i != j ==> Row(w[..], i) == old(Row(w[..], i))
  {
    ghost var w0 := w[..];
    for m := 0 to 4
      invariant forall i :: 0 <= i < m ==> w[4 * j + (j + i) % 4] == t[i]
      invariant forall i :: 0 <= i < 16 && !(4 * j <= i < 4 * j + 4) ==> w[i] == old(w[i])
    {
      w[4 * j + (j + m) % 4] := t[m];
    }
    RowIndices(w[..], t[..], j);
    hide Row;
    forall i | 0 <= i < 4 && i != j ensures Row(w[..], i) == Row(w0, i) {
      RowKept(w0, w[..], i, j);
    }
  }

  lemma RowIndices(w: seq<word>, t: seq<word>, j: nat)
    requires |w| == 16 && |t| == 4 && j < 4
    requires forall i :: 0 <= i < 4 ==> w[4 * j + (j + i) % 4] == t[i]
    ensures Row(w, j) == Quad(t[0], t[1], t[2], t[3])
  {
    assert t[0] == w[4 * j + j % 4];
    assert t[1] == w[4 * j + (j + 1) % 4];
    assert t[2] == w[4 * j + (j + 2) % 4];
    assert t[3] == w[4 * j + (j + 3) % 4];
  }

  lemma RowKept(w: seq<word>, w': seq<word>, i: nat, j: nat)
    requires |w| == |w'| == 16 && i < 4 && j < 4 && i != j
    requires forall n :: 0 <= n < 16 && !(4 * j <= n < 4 * j + 4) ==> w'[n] == w[n]
    ensures Row(w', i) == Row(w, i)
  {
  }

  /** The four quarters of one iteration, into w. */
  method Quarters(x: array<word>) returns (w: array<word>)
    requires x.Length == 16
    ensures fresh(w) && w.Length == 16
    ensures forall i :: 0 <= i < 4 ==> Row(w[..], i) == QuarterRound(Column(x[..], i))
  {
    w := new word[16];
    ghost var x0 := x[..];
    for j := 0 to 4
      invariant x[..] == x0
      invariant forall i :: 0 <= i < j ==> Row(w[..], i) == QuarterRound(Column(x0, i))
    {
      var t := Gather(x, j);
      QuarterInPlace(t);
      Scatter(w, t, j);
    }
  }

  /** One iteration of the twenty: four quarters, then the copy back. */
  method Round(x: array<word>)
    requires x.Length == 16
    modifies x
    ensures Mat(x[..]) == Turn(Mat(old(x[..])))
  {
    var w := Quarters(x);
    TurnByRows(x[..], w[..]);
    CopyBack(x, w[..]);
  }

  method CopyBack(x: array<word>, w: seq<word>)
    requires x.Length == |w| == 16
    modifies x
    ensures x[..] == w
  {
    for m := 0 to 16
      invariant forall i :: 0 <= i < m ==> x[i] == w[i]
    {
      x[m] := w[m];
    }
  }

  lemma TurnByRows(x: seq<word>, w: seq<word>)
    requires |x| == |w| == 16
    requires forall i :: 0 <= i < 4 ==> Row(w, i) == QuarterRound(Column(x, i))
    ensures Mat(w) == Turn(Mat(x))
  {
    assert Row(w, 0) == QuarterRound(Column(x, 0));
    assert Row(w, 1) == QuarterRound(Column(x, 1));
    assert Row(w, 2) == QuarterRound(Column(x, 2));
    assert Row(w, 3) == QuarterRound(Column(x, 3));
  }

  // --------------------------------------------------------- loading and storing

  method LoadLe32(s: seq<byte>, i: nat) returns (u: word)
    requires 4 * i + 4 <= |s|
    ensures u == WordAt(s, i)
  {
    u := ShiftIn(s[4 * i], s[4 * i + 1], s[4 * i + 2], s[4 * i + 3]);
  }

  method ShiftIn(a: byte, b: byte, c: byte, d: byte) returns (u: word)
    ensures u == Word32(a, b, c, d)
  {
    u := d as word;
    u := (u << 8) | (c as word);
    u := (u << 8) | (b as word);
    u := (u << 8) | (a as word);
  }

  method LoadWords(s: seq<byte>, n: nat) returns (ws: seq<word>)
    requires |s| == 4 * n
    ensures |ws| == n
    ensures forall i :: 0 <= i < n ==> ws[i] == WordAt(s, i)
  {
    ws := [];
    for i := 0 to n
      invariant |ws| == i
      invariant forall t :: 0 <= t < i ==> ws[t] == WordAt(s, t)
    {
      var u := LoadLe32(s, i);
      ws := ws + [u];
    }
  }

  /** The four positions the i-th loading step fills. */
  function Slots(x: seq<word>, i: nat): Quad
    requires |x| == 16 && i < 4
  {
    if i == 0 then Quad(x[0], x[1], x[6], x[11])
    else if i == 1 then Quad(x[5], x[2], x[7], x[12])
    else if i == 2 then Quad(x[10], x[3], x[8], x[13])
    else Quad(x[15], x[4], x[9], x[14])
  }

  method PlaceAt(x: array<word>, i: nat, q: Quad)
    requires x.Length == 16 && i < 4
    modifies x
    ensures Slots(x[..], i) == q
    ensures forall t :: 0 <= t < 4 && t != i ==> Slots(x[..], t) == old(Slots(x[..], t))
  {
    ghost var x0 := x[..];
    x[5 * i] := q.a;
    x[1 + i] := q.b;
    x[6 + i] := q.c;
    x[11 + i] := q.d;
    assert x[..] == x0[5 * i := q.a][1 + i := q.b][6 + i := q.c][11 + i := q.d];
    if i == 0 {
    } else if i == 1 {
    } else if i == 2 {
    }
  }

  /** The loading loop: constants on the diagonal, key halves and input between. */
  method Place(c: seq<word>, k: seq<word>, n: seq<word>) returns (x: array<word>)
    requires |c| == 4 && |k| == 8 && |n| == 4
    ensures fresh(x) && x.Length == 16
    ensures Mat(x[..]) == Matrix(Quad(c[0], k[0], k[1], k[2]), Quad(k[3], c[1], n[0], n[1]),
                                 Quad(n[2], n[3], c[2], k[4]), Quad(k[5], k[6], k[7], c[3]))
  {
    x := new word[16];
    for i := 0 to 4
      invariant forall t :: 0 <= t < i ==> Slots(x[..], t) == Quad(c[t], k[t], n[t], k[4 + t])
    {
      PlaceAt(x, i, Quad(c[i], k[i], n[i], k[4 + i]));
    }
    assert Slots(x[..], 0) == Quad(c[0], k[0], n[0], k[4]);
    assert Slots(x[..], 1) == Quad(c[1], k[1], n[1], k[5]);
    assert Slots(x[..], 2) == Quad(c[2], k[2], n[2], k[6]);
    assert Slots(x[..], 3) == Quad(c[3], k[3], n[3], k[7]);
  }

  method LoadState(n: seq<byte>, k: seq<byte>, c: seq<byte>) returns (x: array<word>)
    requires |k| == 32 && |n| == 16 && |c| == 16
    ensures fresh(x) && x.Length == 16
    ensures Mat(x[..]) == Layout(k, n, c)
  {
    var cw := LoadWords(c, 4);
    var kw := LoadWords(k, 8);
    var nw := LoadWords(n, 4);
    x := Place(cw, kw, nw);
  }

  /** Writes words to out from its start, little-endian. */
  method StoreWords(out: array<byte>, ws: seq<word>)
    requires out.Length >= 4 * |ws|
    modifies out
    ensures out[..4 * |ws|] == Serialize(ws)
    ensures out[4 * |ws|..] == old(out[4 * |ws|..])
  {
    for i := 0 to |ws|
      invariant out[..4 * i] == Serialize(ws[..i])
      invariant out[4 * |ws|..] == old(out[4 * |ws|..])
    {
      ghost var done := out[..4 * i];
      StoreLe32(out, 4 * i, ws[i]);
      assert out[..4 * i] == done;
      assert out[..4 * (i + 1)] == out[..4 * i] + out[4 * i..4 * i + 4];
      assert ws[..i + 1][..i] == ws[..i];
    }
    assert ws[..|ws|] == ws;
  }

  method StoreLe32(out: array<byte>, off: nat, w: word)
    requires off + 4 <= out.Length
    modifies out
    ensures out[off..off + 4] == Put32(w)
    ensures forall i :: 0 <= i < out.Length && !(off <= i < off + 4) ==> out[i] == old(out[i])
  {
    var s := Shift4(w);
    out[off] := s[0];
    out[off + 1] := s[1];
    out[off + 2] := s[2];
    out[off + 3] := s[3];
  }

  /** Four times: take the low byte, shift right by eight. */
  method Shift4(w: word) returns (s: seq<byte>)
    ensures s == Put32(w)
  {
    var u := w;
    var b0 := (u & 0xFF) as byte;
    u := u >> 8;
    var b1 := (u & 0xFF) as byte;
    u := u >> 8;
    var b2 := (u & 0xFF) as byte;
    u := u >> 8;
    var b3 := (u & 0xFF) as byte;
    ShiftLaw(w);
    s := [b0, b1, b2, b3];
  }

  lemma ShiftLaw(w: word)
    ensures (w >> 8) >> 8 == w >> 16
    ensures ((w >> 8) >> 8) >> 8 == w >> 24
    ensures ((w >> 24) & 0xFF) as byte == (w >> 24) as byte
  {
  }

  // ------------------------------------------------------------------- the core

  method TwentyRounds(x: array<word>)
    requires x.Length == 16
    modifies x
    ensures Mat(x[..]) == DoubleRounds(ROUNDS, Mat(old(x[..])))
  {
    hide Turn, DoubleRound;
    ghost var start := Mat(x[..]);
    for i := 0 to 20
      invariant Mat(x[..]) == Iterate(Turn, i, start)
    {
      Round(x);
    }
    TurnsAreDoubleRounds(ROUNDS, start);
  }

  /** Adds the start state word by word. */
  method FeedForward(x: array<word>, y: seq<word>)
    requires x.Length == |y| == 16
    modifies x
    ensures x[..] == Words(AddMatrix(Mat(old(x[..])), Mat(y)))
  {
    hide Plus;
    ghost var x0 := x[..];
    for i := 0 to 16
      invariant forall t :: 0 <= t < i ==> x[t] == Plus(x0[t], y[t])
      invariant forall t :: i <= t < 16 ==> x[t] == x0[t]
    {
      x[i] := Plus(x[i], y[i]);
    }
    SumWords(x[..], x0, y);
  }

  /** Four words from i on. */
  function QuadAt(x: seq<word>, i: nat): Quad
    requires i + 4 <= |x|
  {
    Quad(x[i], x[i + 1], x[i + 2], x[i + 3])
  }

  lemma MatRows(x: seq<word>)
    requires |x| == 16
    ensures Mat(x) == Matrix(QuadAt(x, 0), QuadAt(x, 4), QuadAt(x, 8), QuadAt(x, 12))
    ensures x == QuadWords(QuadAt(x, 0)) + QuadWords(QuadAt(x, 4)) + QuadWords(QuadAt(x, 8)) + QuadWords(QuadAt(x, 12))
  {
  }

  lemma SumWords(x: seq<word>, x0: seq<word>, y: seq<word>)
    requires |x| == |x0| == |y| == 16
    requires forall t :: 0 <= t < 16 ==> x[t] == Plus(x0[t], y[t])
    ensures x == Words(AddMatrix(Mat(x0), Mat(y)))
  {
    hide Plus, AddQuad, QuadWords, QuadAt, Mat;
    MatRows(x);
    MatRows(x0);
    MatRows(y);
    QuadSum(x, x0, y, 0);
    QuadSum(x, x0, y, 4);
    QuadSum(x, x0, y, 8);
    QuadSum(x, x0, y, 12);
  }

  lemma QuadSum(x: seq<word>, x0: seq<word>, y: seq<word>, i: nat)
    requires |x| == |x0| == |y| == 16 && i <= 12
    requires forall t :: 0 <= t < 16 ==> x[t] == Plus(x0[t], y[t])
    ensures QuadAt(x, i) == AddQuad(QuadAt(x0, i), QuadAt(y, i))
  {
    hide Plus;
  }

  function Minus(x: word, y: word): word { x - y }

  lemma PlusMinus(z: word, y: word)
    ensures Minus(z + y, y) == z
  {
  }

  /** x minus y, where x is known to be a sum with y. */
  method Take(x: word, y: word, ghost z: word) returns (r: word)
    requires x == Plus(z, y)
    ensures r == z
  {
    PlusMinus(z, y);
    r := Minus(x, y);
  }

  /** The h = 1 tail: subtracting the public input words again undoes the feed-forward on the words that are output. */
  method PublicTail(x: seq<word>, c: seq<word>, n: seq<word>, ghost z: Matrix) returns (ws: seq<word>)
    requires |x| == 16 && |c| == |n| == 4
    requires x[0] == Plus(z.r0.a, c[0]) && x[5] == Plus(z.r1.b, c[1])
    requires x[10] == Plus(z.r2.c, c[2]) && x[15] == Plus(z.r3.d, c[3])
    requires x[6] == Plus(z.r1.c, n[0]) && x[7] == Plus(z.r1.d, n[1])
    requires x[8] == Plus(z.r2.a, n[2]) && x[9] == Plus(z.r2.b, n[3])
    ensures ws == PublicWords(z)
  {
    var w0 := Take(x[0], c[0], z.r0.a);
    var w1 := Take(x[5], c[1], z.r1.b);
    var w2 := Take(x[10], c[2], z.r2.c);
    var w3 := Take(x[15], c[3], z.r3.d);
    var w4 := Take(x[6], n[0], z.r1.c);
    var w5 := Take(x[7], n[1], z.r1.d);
    var w6 := Take(x[8], n[2], z.r2.a);
    var w7 := Take(x[9], n[3], z.r2.b);
    ws := [w0, w1, w2, w3] + [w4, w5, w6, w7];
  }

  /** The rounds with feed-forward: x, the start state and the permuted state. */
  method Permute(n: seq<byte>, k: seq<byte>, c: seq<byte>) returns (x: seq<word>, y: seq<word>, ghost z: Matrix)
    requires |k| == 32 && |n| == 16 && |c| == 16
    ensures |x| == |y| == 16 && Mat(y) == Layout(k, n, c)
    ensures z == DoubleRounds(ROUNDS, Mat(y))
    ensures x == Words(AddMatrix(z, Mat(y)))
  {
    hide Plus, WordAt, Iterate;
    var a := LoadState(n, k, c);
    y := a[..];
    TwentyRounds(a);
    z := Mat(a[..]);
    FeedForward(a, y);
    x := a[..];
  }

  method SalsaCore(out: array<byte>, n: seq<byte>, k: seq<byte>, c: seq<byte>, h: bool)
    requires |k| == 32 && |n| == 16 && |c| == 16
    requires out.Length >= if h then 32 else 64
    modifies out
    ensures h ==> out[..32] == HBlock(k, n, c) && out[32..] == old(out[32..])
    ensures !h ==> out[..64] == Block(k, n, c) && out[64..] == old(out[64..])
  {
    hide Plus, WordAt, Iterate, Serialize;
    var x, y; ghost var z;
    x, y, z := Permute(n, k, c);
    if h {
      var ws := HTail(x, y, n, k, c, z);
      StoreWords(out, ws);
    } else {
      StoreWords(out, x);
    }
  }

  method HTail(x: seq<word>, y: seq<word>, n: seq<byte>, ghost k: seq<byte>, c: seq<byte>, ghost z: Matrix)
    returns (ws: seq<word>)
    requires |k| == 32 && |n| == 16 && |c| == 16
    requires |y| == 16 && Mat(y) == Layout(k, n, c)
    requires x == Words(AddMatrix(z, Mat(y)))
    ensures ws == PublicWords(z)
  {
    hide Plus, WordAt;
    var cw := LoadWords(c, 4);
    var nw := LoadWords(n, 4);
    ws := PublicTail(x, cw, nw, z);
  }

  method CoreSalsa20(out: array<byte>, n: seq<byte>, k: seq<byte>)
    requires |k| == 32 && |n| == 16 && out.Length >= 64
    modifies out
    ensures out[..64] == Block(k, n, SIGMA) && out[64..] == old(out[64..])
  {
    SalsaCore(out, n, k, SIGMA, false);
  }

  method CoreHSalsa20(out: array<byte>, n: seq<byte>, k: seq<byte>)
    requires |k| == 32 && |n| == 16 && out.Length >= 32
    modifies out
    ensures out[..32] == HBlock(k, n, SIGMA) && out[32..] == old(out[32..])
  {
    SalsaCore(out, n, k, SIGMA, true);
  }
}
