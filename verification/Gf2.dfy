/** Polynomials over GF(2), written as natural numbers: bit i is the coefficient of x^i. */
module Gf2 {

  function Pow2(k: nat): (r: nat)
    ensures r >= 1
  {
    if k == 0 then 1 else 2 * Pow2(k - 1)
  }

  lemma {:induction false} Pow2Adds(j: nat, k: nat)
    ensures Pow2(j + k) == Pow2(j) * Pow2(k)
  {
    if j > 0 {
      Pow2Adds(j - 1, k);
      DoubleProduct(Pow2(j - 1), Pow2(k));
    }
  }

  lemma DoubleProduct(p: nat, q: nat)
    ensures 2 * p * q == 2 * (p * q)
  {
  }

  /** Bitwise exclusive or, which is polynomial addition. */
  function Xor(a: nat, b: nat): nat
    decreases a + b
  {
    if a == 0 && b == 0 then 0 else 2 * Xor(a / 2, b / 2) + (a + b) % 2
  }

  /** Polynomial (carry-less) product. */
  function Mul(q: nat, p: nat): nat {
    if q == 0 then 0 else Xor(2 * Mul(q / 2, p), if q % 2 == 1 then p else 0)
  }

  /** f and g differ by a multiple of p. */
  ghost predicate Congruent(f: nat, g: nat, p: nat) {
    exists q: nat :: Xor(f, g) == Mul(q, p)
  }

  /** p has degree d. */
  predicate HasDegree(p: nat, d: nat) {
    Pow2(d) <= p < Pow2(d + 1)
  }

  /** r is the remainder of f after division by p, whose leading term is top. */
  ghost predicate IsRemainder(r: nat, f: nat, p: nat, top: nat) {
    r < top && Congruent(f, r, p)
  }

  /** Long division, one bit of f at a time. */
  function Mod(f: nat, p: nat, top: nat): nat {
    if f == 0 then 0 else
      var s := 2 * Mod(f / 2, p, top) + f % 2;
      if s >= top then Xor(s, p) else s
  }

  // ---------- Xor is an abelian group operation of exponent two ----------

  lemma {:induction false} XorCommutes(a: nat, b: nat)
    ensures Xor(a, b) == Xor(b, a)
    decreases a + b
  {
    if a != 0 || b != 0 {
      XorCommutes(a / 2, b / 2);
    }
  }

  lemma {:induction false} XorAssociates(a: nat, b: nat, c: nat)
    ensures Xor(Xor(a, b), c) == Xor(a, Xor(b, c))
    decreases a + b + c
  {
    if a != 0 || b != 0 || c != 0 {
      XorAssociates(a / 2, b / 2, c / 2);
      var ab, bc := Xor(a, b), Xor(b, c);
      XorHalves(a, b);
      XorHalves(b, c);
      XorHalves(ab, c);
      XorHalves(a, bc);
      ParityAdds(a, b, c, ab, bc);
      SameHalves(Xor(ab, c), Xor(a, bc));
    }
  }

  lemma ParityAdds(a: nat, b: nat, c: nat, ab: nat, bc: nat)
    requires ab % 2 == (a + b) % 2 && bc % 2 == (b + c) % 2
    ensures (ab + c) % 2 == (a + bc) % 2
  {
  }

  lemma SameHalves(x: nat, y: nat)
    requires x / 2 == y / 2 && x % 2 == y % 2
    ensures x == y
  {
  }

  lemma XorHalves(a: nat, b: nat)
    ensures Xor(a, b) / 2 == Xor(a / 2, b / 2) && Xor(a, b) % 2 == (a + b) % 2
  {
  }

  lemma {:induction false} XorZero(a: nat)
    ensures Xor(a, 0) == a && Xor(0, a) == a
  {
    if a != 0 {
      XorZero(a / 2);
    }
  }

  lemma {:induction false} XorSelf(a: nat)
    ensures Xor(a, a) == 0
  {
    if a != 0 {
      XorSelf(a / 2);
    }
  }

  lemma XorSwapMiddle(a: nat, b: nat, c: nat, d: nat)
    ensures Xor(Xor(a, b), Xor(c, d)) == Xor(Xor(a, c), Xor(b, d))
  {
    XorAssociates(a, b, Xor(c, d));
    XorAssociates(b, c, d);
    XorCommutes(b, c);
    XorAssociates(c, b, d);
    XorAssociates(a, c, Xor(b, d));
  }

  lemma XorDouble(a: nat, b: nat)
    ensures Xor(2 * a, 2 * b) == 2 * Xor(a, b)
  {
    var x, y := 2 * a, 2 * b;
    assert x / 2 == a && y / 2 == b && (x + y) % 2 == 0;
    XorHalves(x, y);
  }

  lemma {:induction false} XorScale(a: nat, b: nat, k: nat)
    ensures Xor(a * Pow2(k), b * Pow2(k)) == Xor(a, b) * Pow2(k)
  {
    hide Xor;
    if k > 0 {
      XorScale(a, b, k - 1);
      XorDouble(a * Pow2(k - 1), b * Pow2(k - 1));
      ScaleDoubles(a, k);
      ScaleDoubles(b, k);
      ScaleDoubles(Xor(a, b), k);
    }
  }

  lemma ScaleDoubles(a: nat, k: nat)
    requires k > 0
    ensures a * Pow2(k) == 2 * (a * Pow2(k - 1))
  {
  }

  /** Adding bits below position k to a multiple of x^k is plain addition. */
  lemma {:induction false} XorDisjoint(a: nat, b: nat, k: nat)
    requires b < Pow2(k)
    ensures Xor(a * Pow2(k), b) == a * Pow2(k) + b
    decreases k
  {
    if k == 0 {
      XorZero(a);
    } else {
      var h := a * Pow2(k - 1);
      ScaleDoubles(a, k);
      XorDisjoint(a, b / 2, k - 1);
      XorHalves(2 * h, b);
      SameHalves(Xor(2 * h, b), 2 * h + b);
    }
  }

  lemma XorCancels(a: nat, b: nat, k: nat)
    requires b < Pow2(k)
    ensures Xor(a * Pow2(k), a * Pow2(k) + b) == b
  {
    hide *;
    XorDisjoint(a, b, k);
    var h := a * Pow2(k);
    XorAssociates(h, h, b);
    XorSelf(h);
    XorZero(b);
  }

  // ---------- degrees ----------

  lemma {:induction false} XorBelow(a: nat, b: nat, k: nat)
    requires a < Pow2(k) && b < Pow2(k)
    ensures Xor(a, b) < Pow2(k)
  {
    if k > 0 && (a != 0 || b != 0) {
      XorBelow(a / 2, b / 2, k - 1);
    }
  }

  lemma {:induction false} XorDropsTop(a: nat, b: nat, k: nat)
    requires HasDegree(a, k) && HasDegree(b, k)
    ensures Xor(a, b) < Pow2(k)
  {
    if k > 0 {
      XorDropsTop(a / 2, b / 2, k - 1);
    } else {
      assert Pow2(1) == 2 * Pow2(0);
      assert Xor(1, 1) == 2 * Xor(0, 0);
    }
  }

  lemma {:induction false} XorKeepsTop(a: nat, b: nat, k: nat)
    requires a >= Pow2(k) > b
    ensures Xor(a, b) >= Pow2(k)
  {
    if k > 0 {
      XorKeepsTop(a / 2, b / 2, k - 1);
    } else {
      XorZero(a);
    }
  }

  /** A nonzero multiple of p has at least the degree of p. */
  lemma {:induction false} MultiplesAreLarge(q: nat, p: nat, d: nat)
    requires HasDegree(p, d) && q != 0
    ensures Mul(q, p) >= Pow2(d)
  {
    if q == 1 {
      assert Mul(0, p) == 0;
      XorZero(p);
    } else {
      MultiplesAreLarge(q / 2, p, d);
      var m := 2 * Mul(q / 2, p);
      assert m >= Pow2(d + 1);
      if q % 2 == 1 {
        XorKeepsTop(m, p, d + 1);
      } else {
        XorZero(m);
      }
    }
  }

  // ---------- congruence ----------

  function Low(q: nat, p: nat): nat {
    if q % 2 == 1 then p else 0
  }

  lemma MulUnfolds(q: nat, p: nat)
    ensures Mul(q, p) == Xor(2 * Mul(q / 2, p), Low(q, p))
  {
    if q == 0 {
      XorZero(0);
    }
  }

  lemma ParityCases(q: nat, r: nat)
    ensures (q + r) % 2 == 1 <==> (q % 2 == 1) != (r % 2 == 1)
  {
  }

  lemma LowDistributes(q: nat, r: nat, p: nat)
    ensures Xor(Low(q, p), Low(r, p)) == Low(Xor(q, r), p)
  {
    XorHalves(q, r);
    ParityCases(q, r);
    XorZero(Low(q, p));
    XorZero(Low(r, p));
    if q % 2 == 1 && r % 2 == 1 {
      XorSelf(p);
    }
  }

  lemma {:induction false} MulDistributes(q: nat, r: nat, p: nat)
    ensures Xor(Mul(q, p), Mul(r, p)) == Mul(Xor(q, r), p)
    decreases q + r
  {
    if q == 0 && r == 0 {
      XorZero(0);
    } else {
      MulDistributes(q / 2, r / 2, p);
      var a, c := Mul(q / 2, p), Mul(r / 2, p);
      MulUnfolds(q, p);
      MulUnfolds(r, p);
      MulUnfolds(Xor(q, r), p);
      XorSwapMiddle(2 * a, Low(q, p), 2 * c, Low(r, p));
      XorDouble(a, c);
      XorHalves(q, r);
      LowDistributes(q, r, p);
    }
  }

  lemma CongruentReflexive(f: nat, p: nat)
    ensures Congruent(f, f, p)
  {
    XorSelf(f);
    assert Xor(f, f) == Mul(0, p);
  }

  lemma CongruentSymmetric(f: nat, g: nat, p: nat)
    requires Congruent(f, g, p)
    ensures Congruent(g, f, p)
  {
    XorCommutes(f, g);
  }

  lemma CongruentTransitive(f: nat, g: nat, h: nat, p: nat)
    requires Congruent(f, g, p) && Congruent(g, h, p)
    ensures Congruent(f, h, p)
  {
    var q: nat :| Xor(f, g) == Mul(q, p);
    var r: nat :| Xor(g, h) == Mul(r, p);
    MulDistributes(q, r, p);
    XorSwapMiddle(f, g, g, h);
    XorAssociates(f, g, Xor(g, h));
    XorAssociates(g, g, h);
    XorSelf(g);
    XorZero(h);
  }

  lemma CongruentXor(f: nat, g: nat, h: nat, k: nat, p: nat)
    requires Congruent(f, g, p) && Congruent(h, k, p)
    ensures Congruent(Xor(f, h), Xor(g, k), p)
  {
    var q: nat :| Xor(f, g) == Mul(q, p);
    var r: nat :| Xor(h, k) == Mul(r, p);
    MulDistributes(q, r, p);
    XorSwapMiddle(f, h, g, k);
  }

  lemma CongruentDouble(f: nat, g: nat, p: nat)
    requires Congruent(f, g, p)
    ensures Congruent(2 * f, 2 * g, p)
  {
    var q: nat :| Xor(f, g) == Mul(q, p);
    XorDouble(f, g);
    XorZero(2 * Mul(q, p));
    assert Mul(2 * q, p) == 2 * Mul(q, p);
  }

  lemma {:induction false} CongruentScale(f: nat, g: nat, k: nat, p: nat)
    requires Congruent(f, g, p)
    ensures Congruent(f * Pow2(k), g * Pow2(k), p)
  {
    if k > 0 {
      CongruentScale(f, g, k - 1, p);
      CongruentDouble(f * Pow2(k - 1), g * Pow2(k - 1), p);
      ScaleDoubles(f, k);
      ScaleDoubles(g, k);
    }
  }

  /** Subtracting p itself does not change the class. */
  lemma CongruentReduce(s: nat, p: nat)
    ensures Congruent(s, Xor(s, p), p)
  {
    XorAssociates(s, s, p);
    XorSelf(s);
    XorZero(p);
    assert Mul(0, p) == 0;
    assert Mul(1, p) == Xor(2 * Mul(0, p), p);
    assert Xor(s, Xor(s, p)) == Mul(1, p);
  }

  // ---------- remainders ----------

  lemma RemainderUnique(r: nat, s: nat, f: nat, p: nat, top: nat, d: nat)
    requires HasDegree(p, d) && Pow2(d) == top
    requires IsRemainder(r, f, p, top) && IsRemainder(s, f, p, top)
    ensures r == s
  {
    CongruentSymmetric(f, r, p);
    CongruentTransitive(r, f, s, p);
    var q: nat :| Xor(r, s) == Mul(q, p);
    XorBelow(r, s, d);
    if q != 0 {
      MultiplesAreLarge(q, p, d);
    }
    XorAssociates(r, s, s);
    XorSelf(s);
    XorZero(r);
    XorZero(s);
  }

  lemma XorBit(f: nat, bit: nat)
    requires bit < 2
    ensures Xor(2 * f, bit) == 2 * f + bit
  {
    XorHalves(2 * f, bit);
    XorZero(f);
    SameHalves(Xor(2 * f, bit), 2 * f + bit);
  }

  /** One shift-and-reduce step multiplies by x. */
  lemma ReduceStep(f: nat, x: nat, bit: nat, p: nat, top: nat, d: nat)
    requires HasDegree(p, d) && Pow2(d) == top && bit < 2 && IsRemainder(x, f, p, top)
    ensures var s := 2 * x + bit;
            IsRemainder(if s >= top then Xor(s, p) else s, 2 * f + bit, p, top)
  {
    hide Xor, Mul;
    var s := 2 * x + bit;
    CongruentDouble(f, x, p);
    CongruentReflexive(bit, p);
    CongruentXor(2 * f, 2 * x, bit, bit, p);
    XorBit(f, bit);
    XorBit(x, bit);
    if s >= top {
      CongruentReduce(s, p);
      CongruentTransitive(2 * f + bit, s, Xor(s, p), p);
      assert Pow2(d + 1) == 2 * Pow2(d);
      XorDropsTop(s, p, d);
    }
  }

  /** Long division computes the remainder. */
  lemma {:induction false} ModIsRemainder(f: nat, p: nat, top: nat, d: nat)
    requires HasDegree(p, d) && Pow2(d) == top
    ensures IsRemainder(Mod(f, p, top), f, p, top)
  {
    if f == 0 {
      CongruentReflexive(0, p);
    } else {
      ModIsRemainder(f / 2, p, top, d);
      ReduceStep(f / 2, Mod(f / 2, p, top), f % 2, p, top, d);
    }
  }
}
