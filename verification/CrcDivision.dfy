/** Polynomials over two elements, and the CRC as the remainder of a division of such polynomials. */
module CrcDivision {
  import opened Bytes
  import opened Crc16
  import opened CrcTheory

  /** x^16 + x^12 + x^5 + 1: seventeen coefficients, highest first. */
  const G: bits := [true] + Word(GENERATOR)

  lemma GeneratorTerms()
    ensures |G| == 17 && forall i :: 0 <= i < 17 ==> (G[i] <==> 16 - i in {16, 12, 5, 0})
  {
    hide WordBits;
    GeneratorBits();
  }

  // ------------------------------------------------------------- multiplication

  /** The contribution of q[i] to coefficient k of the product of q and g. */
  predicate Term(q: bits, g: bits, k: nat, i: nat)
    requires i < |q|
  {
    i <= k < i + |g| && q[i] && g[k - i]
  }

  /** The sum of the first n contributions to coefficient k. */
  predicate Coefficient(q: bits, g: bits, k: nat, n: nat)
    requires n <= |q|
  {
    if n == 0 then false else Coefficient(q, g, k, n - 1) != Term(q, g, k, n - 1)
  }

  /** The product of two polynomials, coefficient by coefficient. */
  function Times(q: bits, g: bits): (s: bits)
    requires g != []
    ensures |s| == |q| + |g| - 1
  {
    seq(|q| + |g| - 1, k requires 0 <= k < |q| + |g| - 1 => Coefficient(q, g, k, |q|))
  }

  lemma {:induction false} CoefficientHead(q: bits, g: bits, k: nat, n: nat)
    requires 0 < n <= |q|
    ensures Coefficient(q, g, k, n)
            == (Term(q, g, k, 0) != (k > 0 && Coefficient(q[1..], g, k - 1, n - 1)))
  {
    if n > 1 {
      CoefficientHead(q, g, k, n - 1);
    } else {
      assert Coefficient(q, g, k, 0) == false;
    }
  }

  /** Multiplying by b * x^n + rest adds g under the leading coefficient if b is one. */
  lemma TimesHead(q: bits, g: bits)
    requires q != [] && g != []
    ensures Times(q, g) == XorBits((if q[0] then g else Zeros(|g|)) + Zeros(|q| - 1), [false] + Times(q[1..], g))
  {
    hide Coefficient;
    var sum := XorBits((if q[0] then g else Zeros(|g|)) + Zeros(|q| - 1), [false] + Times(q[1..], g));
    forall k | 0 <= k < |sum| ensures Times(q, g)[k] == sum[k] {
      CoefficientHead(q, g, k, |q|);
    }
  }

  // -------------------------------------------------------------------- division

  /** q * G + r */
  function Combine(q: bits, r: bits): (s: bits)
    requires |r| == 16
    ensures |s| == |q| + 16
  {
    XorBits(Times(q, G), Zeros(|q|) + r)
  }

  /** What long division has left after its first coefficient. */
  function Reduce(s: bits): (t: bits)
    requires |s| > 16
    ensures |t| == |s| - 1
  {
    if s[0] then XorPrefix(s[1..], Word(GENERATOR)) else s[1..]
  }

  /** The leading coefficients long division cancels. */
  function Quotient(s: bits): (q: bits)
    requires |s| >= 16
    ensures |q| == |s| - 16
    decreases |s|
  {
    if |s| == 16 then [] else [s[0]] + Quotient(Reduce(s))
  }

  lemma ReduceXor(s: bits)
    requires |s| > 16
    ensures s == XorBits((if s[0] then G else Zeros(17)) + Zeros(|s| - 17), [false] + Reduce(s))
  {
    hide Word;
  }

  lemma CombineHead(q: bits, r: bits)
    requires q != [] && |r| == 16
    ensures Combine(q, r) == XorBits((if q[0] then G else Zeros(17)) + Zeros(|q| - 1), [false] + Combine(q[1..], r))
  {
    hide Times, Word;
    TimesHead(q, G);
  }

  lemma CombineNothing(r: bits)
    requires |r| == 16
    ensures Combine([], r) == r
  {
  }

  lemma XorBitsCancel(a: bits, b: bits, c: bits)
    requires |a| == |b| == |c| && XorBits(a, b) == XorBits(a, c)
    ensures b == c
  {
    forall i | 0 <= i < |a| ensures b[i] == c[i] {
      assert XorBits(a, b)[i] == XorBits(a, c)[i];
    }
  }

  /** Two polynomials are equal exactly when their leading coefficients and what division leaves of them are. */
  lemma CombineReduces(s: bits, q: bits, r: bits)
    requires |r| == 16 && |q| > 0 && |s| == |q| + 16
    ensures s == Combine(q, r) <==> q[0] == s[0] && Combine(q[1..], r) == Reduce(s)
  {
    hide Combine, Reduce;
    CombineHead(q, r);
    ReduceXor(s);
    assert (if q[0] then G else Zeros(17))[0] == q[0];
    if s == Combine(q, r) {
      assert q[0] == s[0];
      XorBitsCancel((if s[0] then G else Zeros(17)) + Zeros(|s| - 17), [false] + Reduce(s),
                    [false] + Combine(q[1..], r));
      assert ([false] + Reduce(s))[1..] == Reduce(s);
      assert ([false] + Combine(q[1..], r))[1..] == Combine(q[1..], r);
    }
  }

  /** Division: a polynomial is q * G + r with r of degree below sixteen for exactly one q and one r, those of long
      division. */
  lemma {:induction false} DivisionUnique(s: bits, q: bits, r: bits)
    requires |s| == |q| + 16 && |r| == 16
    ensures s == Combine(q, r) <==> q == Quotient(s) && r == Remainder(s)
    decreases |q|
  {
    hide Combine, Reduce;
    if q == [] {
      CombineNothing(r);
    } else {
      CombineReduces(s, q, r);
      DivisionUnique(Reduce(s), q[1..], r);
      assert Remainder(s) == Remainder(Reduce(s)) by {
        RemainderReduces(s);
      }
      assert q == [q[0]] + q[1..];
      assert Quotient(s)[1..] == Quotient(Reduce(s));
    }
  }

  lemma RemainderReduces(s: bits)
    requires |s| > 16
    ensures Remainder(s) == Remainder(Reduce(s))
  {
  }

  /** The CRC is the remainder by x^16 + x^12 + x^5 + 1 of the message times x^16, its first sixteen coefficients inverted:
      the only sixteen coefficients that make up that polynomial together with a multiple of the generator. */
  lemma CrcIsRemainder(data: seq<byte>, q: bits, r: bits)
    requires |q| == 8 * |data| && |r| == 16
    ensures var s := Dividend(0xFFFF, Bits(data)); s == Combine(q, r) <==> q == Quotient(s) && r == Word(Crc(data))
  {
    hide Combine, Quotient, Remainder, Dividend, Crc, Word;
    CrcByLongDivision(data);
    DivisionUnique(Dividend(0xFFFF, Bits(data)), q, r);
  }
}
