/**
  Checksums of odd-length data.  get_crc pads after the last byte, but check_crc writes the
  checksum straight after it, so the two disagree about the layout.  A message of odd length
  passes its own check only for two values of the checksum.
 */
module CrcOdd {
  import opened Gf2
  import opened Words
  import opened Crc
  import opened CrcTheorems

  /** y(x) * (x^k + 1) */
  function Step(y: Poly, k: nat): Poly {
    Add(y, Shl(y, k))
  }

  /** POLY is (x + 1) REDUCED_POLY(x), and REDUCED_POLY(1) = 1. */
  const REDUCED_POLY: Poly := 0x69B3

  /** x^16 + x^8 + 1 */
  const TRINOMIAL: Poly := 0x10101

  // ------------------------------------------------------- the factor x + 1

  lemma StepTwice(y: Poly, k: nat)
    ensures Step(Step(y, k), k) == Step(y, 2 * k)
  {
    hide Add, Shl;
    var z := Shl(y, k);
    AddShl(y, z, k);
    ShlShl(y, k, k);
    AddAssoc(y, z, Add(z, Shl(z, k))); AddAssoc(z, z, Shl(z, k)); AddSelf(z); AddZero(Shl(z, k));
  }

  lemma StepAdd(a: Poly, b: Poly, k: nat)
    ensures Step(Add(a, b), k) == Add(Step(a, k), Step(b, k))
  {
    hide Add, Shl;
    AddShl(a, b, k);
    AddSwap(a, b, Shl(a, k), Shl(b, k));
  }

  lemma MulStep(q: Poly, p: Poly, k: nat)
    ensures Mul(q, Step(p, k)) == Step(Mul(q, p), k) == Mul(Step(q, k), p)
  {
    hide Add, Shl, Mul;
    MulDistrib(q, Shl(q, k), p); MulShlLeft(q, p, k);
    MulAddRight(q, p, Shl(p, k)); MulShlRight(q, p, k);
  }

  lemma StepInjective(a: Poly, b: Poly)
    requires Step(a, 1) == Step(b, 1)
    ensures a == b
  {
    hide Add, Shl;
    var e := Add(a, b);
    StepAdd(a, b, 1); AddSelf(Step(b, 1));
    AddIsZero(e, Shl(e, 1)); AddIsZero(a, b);
    LenShl(e, 1);
  }

  /** Division by x + 1; the remainder is the parity. */
  function Halve(a: Poly): Poly {
    if a == 0 then 0 else 2 * Halve(a / 2) + (if Parity(a / 2) then 1 else 0)
  }

  lemma {:induction false} HalveStep(a: Poly)
    ensures Add(Step(Halve(a), 1), if Parity(a) then 1 else 0) == a
  {
    if a == 0 {
      ShlOne(0); AddZero(0);
    } else {
      hide Add, Halve, Parity, Shl;
      var h, b := a / 2, a % 2;
      var m, p := Halve(h), if Parity(h) then 1 else 0;
      HalveStep(h);
      HalveUnfold(a);
      ShlOne(m); ShlOne(Halve(a));
      HalveBit(m, p, b);
      assert (p + b) % 2 == if Parity(a) then 1 else 0;
    }
  }

  lemma HalveUnfold(a: Poly)
    requires a != 0
    ensures Halve(a) == 2 * Halve(a / 2) + (if Parity(a / 2) then 1 else 0)
    ensures Parity(a) == ((a % 2 == 1) != Parity(a / 2))
  {}

  lemma HalveBit(m: Poly, p: nat, b: nat)
    requires p < 2 && b < 2
    ensures var n := 2 * m + p;
      Add(Add(n, 2 * n), (p + b) % 2) == 2 * Add(Add(m, 2 * m), p) + b
  {
    hide Add;
    var n, t := 2 * m + p, Add(m, 2 * m);
    LowDigit(m, p);
    AddUnfold(n, 2 * n); AddAssoc(m, 2 * m, p);
    var s := Add(n, 2 * n);
    assert s == 2 * Add(t, p) + p;
    AddUnfold(s, (p + b) % 2); AddZero(Add(t, p));
  }

  lemma LowDigit(m: Poly, p: nat)
    requires p < 2
    ensures 2 * m + p == Add(2 * m, p)
  {
    AddZero(m); AddZero(2 * m);
    if p == 1 { assert Add(2 * m, 1) == 1 + 2 * Add(m, 0); }
  }

  lemma DividesStepBoth(p: Poly, y: Poly)
    ensures Divides(Step(p, 1), Step(y, 1)) <==> Divides(p, y)
  {
    hide Add, Shl, Mul, Step;
    if Divides(p, y) {
      var q: Poly :| Mul(q, p) == y;
      MulStep(q, p, 1); assert Mul(q, Step(p, 1)) == Step(y, 1);
    }
    if Divides(Step(p, 1), Step(y, 1)) {
      var q: Poly :| Mul(q, Step(p, 1)) == Step(y, 1);
      MulStep(q, p, 1); StepInjective(Mul(q, p), y);
    }
  }

  /** A polynomial with an odd number of terms is coprime to x + 1. */
  lemma DividesStep(p: Poly, y: Poly)
    requires Parity(p)
    ensures Divides(p, Step(y, 1)) <==> Divides(p, y)
  {
    hide Add, Shl, Mul, Step, Halve;
    if Divides(p, y) {
      var q: Poly :| Mul(q, p) == y;
      MulStep(q, p, 1); assert Mul(Step(q, 1), p) == Step(y, 1);
    }
    if Divides(p, Step(y, 1)) {
      var q: Poly :| Mul(q, p) == Step(y, 1);
      ParityMul(q, p); StepParity(y);
      HalveStep(q); AddZero(Step(Halve(q), 1));
      MulStep(Halve(q), p, 1); StepInjective(Mul(Halve(q), p), y);
    }
  }

  lemma StepParity(y: Poly)
    ensures !Parity(Step(y, 1))
  {
    ParityAdd(y, Shl(y, 1));
    assert Shl(y, 1) == 2 * Shl(y, 0) && Parity(2 * y) == Parity(y);
  }

  lemma LenOfOne()
    ensures Len(1) == 1 && Parity(1)
  {
    assert Len(0) == 0 && !Parity(0);
  }

  lemma Factorisation()
    ensures POLY == Step(REDUCED_POLY, 1) && Parity(REDUCED_POLY) && Len(REDUCED_POLY) == 15
  {
    hide Add, Step, Len, Parity;
    LenOfOne();
    PushBit(1, 1); PushBit(3, 0); PushBit(6, 1); PushBit(0xD, 0); PushBit(0x1A, 0); PushBit(0x34, 1);
    PushBit(0x69, 1); PushBit(0xD3, 0); PushBit(0x1A6, 1); PushBit(0x34D, 1); PushBit(0x69B, 0);
    PushBit(0xD36, 0); PushBit(0x1A6C, 1); PushBit(0x34D9, 1);
    XorOfQ();
  }

  // --------------------------------------------- arithmetic on concrete polynomials

  function XorBit(a: nat, b: nat): nat {
    if a % 2 == b % 2 then 0 else 1
  }

  lemma AddHalf(n: nat, m: nat)
    ensures Add(n, m) == XorBit(n, m) + 2 * Add(n / 2, m / 2)
  {}

  lemma Halves(n: nat)
    ensures n / 2 / 2 == n / 4 && n / 4 / 2 == n / 8 && n / 8 / 2 == n / 16
  {}

  /** Adds the lowest hexadecimal digits, without recursion. */
  lemma AddHex(n: nat, m: nat)
    ensures Add(n, m) == XorBit(n, m) + 2 * XorBit(n / 2, m / 2) + 4 * XorBit(n / 4, m / 4) + 8 * XorBit(n / 8, m / 8)
                         + 16 * Add(n / 16, m / 16)
  {
    hide Add, XorBit;
    AddHalf(n, m); AddHalf(n / 2, m / 2); AddHalf(n / 4, m / 4); AddHalf(n / 8, m / 8);
    Halves(n); Halves(m);
  }

  lemma XorOfQ()
    ensures Step(REDUCED_POLY, 1) == POLY
  {
    hide Add;
    ShlOne(REDUCED_POLY); AddZero(0);
    AddHex(0x69B3, 0xD366); AddHex(0x69B, 0xD36); AddHex(0x69, 0xD3); AddHex(0x6, 0xD);
  }

  /** x^8 + 1 is a power of x + 1, so only one factor of it meets P. */
  lemma DividesPower(y: Poly)
    ensures Divides(POLY, Step(y, 8)) <==> Divides(REDUCED_POLY, y)
  {
    hide Add, Shl, Mul, Step, Divides, Parity;
    Factorisation();
    StepTwice(y, 1); var y2 := Step(y, 2);
    StepTwice(y, 2); var y4 := Step(y, 4); StepTwice(y2, 1);
    StepTwice(y, 4);
    StepTwice(y4, 1); StepTwice(y4, 2); StepTwice(Step(y4, 2), 1);
    var z := Step(Step(y4, 2), 1);
    assert Step(y, 8) == Step(z, 1);
    DividesStepBoth(REDUCED_POLY, z);
    DividesStep(REDUCED_POLY, Step(y4, 2));
    DividesStep(REDUCED_POLY, Step(y4, 1)); DividesStep(REDUCED_POLY, y4);
    DividesStep(REDUCED_POLY, Step(y2, 1)); DividesStep(REDUCED_POLY, y2);
    DividesStep(REDUCED_POLY, Step(y, 1)); DividesStep(REDUCED_POLY, y);
  }

  // ------------------------------------------------- the solutions of h + l * s = 0

  lemma DividesMul(p: Poly, y: Poly, k: Poly)
    requires Divides(p, y)
    ensures Divides(p, Mul(k, y))
  {
    hide Mul, Add;
    var q: Poly :| Mul(q, p) == y;
    MulAssoc(k, q, p);
    assert Mul(Mul(k, q), p) == Mul(k, y);
  }

  /** The pair (h, l) solves h + l s = 0 modulo q. */
  ghost predicate Solves(q: Poly, s: Poly, h: Poly, l: Poly) {
    Divides(q, Add(h, Mul(l, s)))
  }

  function Cross(h: Poly, l: Poly, hi: Poly, lo: Poly): Poly {
    Add(Mul(l, hi), Mul(lo, h))
  }

  /** The determinant of two solutions is a multiple of the modulus. */
  lemma CrossDivides(q: Poly, s: Poly, h: Poly, l: Poly, hi: Poly, lo: Poly)
    requires Solves(q, s, h, l) && Solves(q, s, hi, lo)
    ensures Divides(q, Cross(h, l, hi, lo))
  {
    hide Add, Mul, Divides;
    var t := Mul(l, Mul(lo, s));
    MulAddRight(l, hi, Mul(lo, s)); MulAddRight(lo, h, Mul(l, s)); MulSwap(lo, l, s);
    DividesMul(q, Add(hi, Mul(lo, s)), l); DividesMul(q, Add(h, Mul(l, s)), lo);
    DividesSum(q, Add(Mul(l, hi), t), Add(Mul(lo, h), t));
    AddSwap(Mul(l, hi), t, Mul(lo, h), t); AddSelf(t); AddZero(Cross(h, l, hi, lo));
  }

  /** Cramer's rule. */
  lemma Cramer(h1: Poly, l1: Poly, h2: Poly, l2: Poly, hi: Poly, lo: Poly)
    ensures Mul(lo, Cross(h1, l1, h2, l2)) == Add(Mul(l2, Cross(h1, l1, hi, lo)), Mul(l1, Cross(h2, l2, hi, lo)))
  {
    hide Add, Mul;
    var t := Mul(l1, Mul(l2, hi));
    var u, v := Mul(lo, Mul(l2, h1)), Mul(lo, Mul(l1, h2));
    MulAddRight(l2, Mul(l1, hi), Mul(lo, h1)); MulSwap(l2, l1, hi); MulSwap(l2, lo, h1);
    MulAddRight(l1, Mul(l2, hi), Mul(lo, h2)); MulSwap(l1, lo, h2);
    AddSwap(t, u, t, v); AddSelf(t); AddZero(Add(u, v));
    MulAddRight(lo, Mul(l1, h2), Mul(l2, h1)); AddComm(u, v);
  }

  lemma CrossComm(h: Poly, l: Poly, hi: Poly, lo: Poly)
    ensures Cross(h, l, hi, lo) == Cross(l, h, lo, hi)
  {
    hide Add, Mul;
    MulComm(l, hi); MulComm(lo, h); AddComm(Mul(l, hi), Mul(lo, h));
  }

  lemma MultipleOfEqualLen(q: Poly, d: Poly)
    requires q != 0 && Divides(q, d) && Len(d) <= Len(q)
    ensures d == 0 || d == q
  {
    hide Mul, Add;
    if d != 0 {
      var k: Poly :| Mul(k, q) == d;
      MulZero(q);
      LenMul(k, q); LenOne(k); MulOne(q);
    }
  }

  lemma MulCancel(a: Poly, b: Poly, q: Poly)
    requires q != 0 && Mul(a, q) == Mul(b, q)
    ensures a == b
  {
    hide Add, Mul;
    MulDistrib(a, b, q); AddSelf(Mul(b, q)); AddIsZero(a, b);
    if Add(a, b) != 0 { LenMul(Add(a, b), q); assert false; }
  }

  /** If the determinant of two solutions is the modulus itself, small solutions are few. */
  lemma SmallSolutions(q: Poly, s: Poly, h1: Poly, l1: Poly, h2: Poly, l2: Poly, hi: Poly, lo: Poly)
    requires q != 0 && q == Cross(h1, l1, h2, l2)
    requires Solves(q, s, h1, l1) && Solves(q, s, h2, l2) && Solves(q, s, hi, lo)
    requires Len(Cross(h1, l1, hi, lo)) <= Len(q) && Len(Cross(h2, l2, hi, lo)) <= Len(q)
    ensures (hi == 0 && lo == 0) || (hi == h1 && lo == l1) || (hi == h2 && lo == l2)
         || (hi == Add(h1, h2) && lo == Add(l1, l2))
  {
    hide Add, Mul, Divides, Cross, Solves, Len;
    var d1, d2 := Cross(h1, l1, hi, lo), Cross(h2, l2, hi, lo);
    CrossDivides(q, s, h1, l1, hi, lo); MultipleOfEqualLen(q, d1);
    CrossDivides(q, s, h2, l2, hi, lo); MultipleOfEqualLen(q, d2);
    Cramer(h1, l1, h2, l2, hi, lo);
    CrossComm(h1, l1, h2, l2); CrossComm(h1, l1, hi, lo); CrossComm(h2, l2, hi, lo);
    Cramer(l1, h1, l2, h2, lo, hi);
    Combination(q, l1, l2, lo, d1, d2);
    Combination(q, h1, h2, hi, d1, d2);
  }

  lemma Combination(q: Poly, a1: Poly, a2: Poly, a: Poly, d1: Poly, d2: Poly)
    requires q != 0 && (d1 == 0 || d1 == q) && (d2 == 0 || d2 == q)
    requires Mul(a, q) == Add(Mul(a2, d1), Mul(a1, d2))
    ensures a == Add(if d2 == 0 then 0 else a1, if d1 == 0 then 0 else a2)
    ensures d2 == 0 ==> a == if d1 == 0 then 0 else a2
    ensures d1 == 0 ==> a == if d2 == 0 then 0 else a1
  {
    hide Add, Mul;
    var b1, b2 := if d2 == 0 then 0 else a1, if d1 == 0 then 0 else a2;
    MulZero(a1); MulZero(a2); MulZero(q);
    MulDistrib(b2, b1, q);
    MulCancel(a, Add(b2, b1), q);
    AddComm(b1, b2); AddZero(b1); AddZero(b2);
  }

  // ----------------------------------------------------------- the two solutions

  lemma MulFive(y: Poly)
    ensures Mul(5, y) == Add(y, 4 * y) == Step(y, 2)
  {
    hide Add, Mul;
    MulUnfold(5, y); MulUnfold(2, y); MulOne(y); AddZero(2 * y);
    ShlOne(y); ShlOne(2 * y); ShlShl(y, 1, 1);
  }

  lemma MulHex92(y: Poly)
    ensures Mul(0x92, y) == 2 * Add(y, 8 * Add(y, 8 * y))
  {
    hide Add, Mul;
    MulDouble(0x49, y); MulUnfold(0x49, y); MulDouble(18, y); MulDouble(9, y);
    MulUnfold(9, y); MulDouble(2, y); MulDouble(1, y); MulOne(y);
  }

  lemma FirstProduct()
    ensures Mul(5, 0x51) == 0x115
  {
    hide Add, Mul;
    MulFive(0x51); AddZero(0);
    AddHex(0x51, 0x144); AddHex(0x5, 0x14); AddHex(0, 1);
  }

  lemma SecondProduct()
    ensures Mul(0x92, 0xCB) == 0x68A6
  {
    hide Add, Mul;
    MulHex92(0xCB);
    FirstSum(); SecondSum();
  }

  lemma FirstSum()
    ensures Add(0xCB, 0x658) == 0x693
  {
    hide Add;
    AddZero(0);
    AddHex(0xCB, 0x658); AddHex(0xC, 0x65); AddHex(0, 6);
  }

  lemma SecondSum()
    ensures Add(0xCB, 0x3498) == 0x3453
  {
    hide Add;
    AddZero(0);
    AddHex(0xCB, 0x3498); AddHex(0xC, 0x349); AddHex(0, 0x34); AddHex(0, 3);
  }

  lemma DeterminantIsQ()
    ensures Cross(0xCB, 5, 0x51, 0x92) == REDUCED_POLY
  {
    hide Add, Mul;
    FirstProduct(); SecondProduct(); AddZero(0);
    AddHex(0x115, 0x68A6); AddHex(0x11, 0x68A); AddHex(0x1, 0x68); AddHex(0, 6);
  }

  lemma DividesShlUp(p: Poly, y: Poly, k: nat)
    requires Divides(p, y)
    ensures Divides(p, Shl(y, k))
  {
    hide Add, Mul, Shl;
    var q: Poly :| Mul(q, p) == y;
    MulShlLeft(q, p, k);
    assert Mul(Shl(q, k), p) == Shl(y, k);
  }

  lemma FiveS()
    ensures Mul(5, TRINOMIAL) == 0x50505
  {
    hide Add, Mul;
    MulFive(TRINOMIAL); AddZero(0);
    AddHex(0x10101, 0x40404); AddHex(0x1010, 0x4040); AddHex(0x101, 0x404); AddHex(0x10, 0x40); AddHex(1, 4);
  }

  lemma FirstSolutionValue()
    ensures Add(0xCB, Mul(5, TRINOMIAL)) == 0x505CE
  {
    hide Add, Mul;
    FiveS();
    AddHex(0xCB, 0x50505); AddHex(0xC, 0x5050); AddZero(0x505);
  }

  lemma FirstSolutionFactor()
    ensures Add(Shl(REDUCED_POLY, 1), Shl(POLY, 3)) == 0x505CE
  {
    hide Add;
    ShlOne(REDUCED_POLY); ShlThree(POLY); AddZero(0);
    AddHex(0xD366, 0x5D6A8); AddHex(0xD36, 0x5D6A); AddHex(0xD3, 0x5D6); AddHex(0xD, 0x5D); AddHex(0, 5);
  }

  lemma FirstSolution()
    ensures Solves(REDUCED_POLY, TRINOMIAL, 0xCB, 5)
  {
    hide Add, Mul, Divides, Shl;
    FirstSolutionValue(); FirstSolutionFactor();
    QDividesPoly(); DividesZero(REDUCED_POLY);
    DividesShlUp(REDUCED_POLY, REDUCED_POLY, 1); DividesShlUp(REDUCED_POLY, POLY, 3);
    DividesSum(REDUCED_POLY, Shl(REDUCED_POLY, 1), Shl(POLY, 3));
  }

  lemma ShlThree(a: Poly)
    ensures Shl(a, 3) == 8 * a
  {
    ShlOne(a);
    assert Shl(a, 2) == 2 * Shl(a, 1) && Shl(a, 3) == 2 * Shl(a, 2);
  }

  lemma QDividesPoly()
    ensures Divides(REDUCED_POLY, POLY)
  {
    hide Add, Mul, Divides;
    XorOfQ(); DividesZero(REDUCED_POLY); DividesShlUp(REDUCED_POLY, REDUCED_POLY, 1);
    DividesSum(REDUCED_POLY, REDUCED_POLY, Shl(REDUCED_POLY, 1));
  }

  lemma SecondSolution()
    ensures Solves(REDUCED_POLY, TRINOMIAL, 0x51, 0x92)
  {
    hide Add, Mul, Divides, Step;
    var y1, y2 := Add(0xCB, Mul(5, TRINOMIAL)), Add(0x51, Mul(0x92, TRINOMIAL));
    var u, v, t := Mul(5, 0x51), Mul(0x92, 0xCB), Mul(5, Mul(0x92, TRINOMIAL));
    FirstSolution(); Factorisation(); DeterminantIsQ();
    MulAddRight(5, 0x51, Mul(0x92, TRINOMIAL)); MulAddRight(0x92, 0xCB, Mul(5, TRINOMIAL)); MulSwap(0x92, 5, TRINOMIAL);
    DividesMul(REDUCED_POLY, y1, 0x92);
    AddSwap(u, t, v, t); AddSelf(t); AddZero(REDUCED_POLY);
    DividesZero(REDUCED_POLY);
    AddComm(Add(u, t), Add(v, t)); DividesAdd(REDUCED_POLY, Add(v, t), Add(u, t));
    MulFive(y2); StepTwice(y2, 1);
    DividesStep(REDUCED_POLY, Step(y2, 1)); DividesStep(REDUCED_POLY, y2);
  }

  lemma LenMulBound(a: Poly, b: Poly, m: nat, n: nat)
    requires Len(a) <= m && Len(b) <= n && m + n >= 1
    ensures Len(Mul(a, b)) <= m + n - 1
  {
    hide Mul;
    MulZero(a); MulZero(b);
    if a != 0 && b != 0 { LenMul(a, b); }
  }

  lemma CrossLen(h: U8, l: U8, hi: U8, lo: U8)
    ensures Len(Cross(h, l, hi, lo)) <= 15
  {
    hide Mul, Add, Len;
    LenByte(h); LenByte(l); LenByte(hi); LenByte(lo);
    LenMulBound(l, hi, 8, 8); LenMulBound(lo, h, 8, 8);
    LenAdd(Mul(l, hi), Mul(lo, h));
  }

  /** Among bytes, with lo even, only one solution is not trivial. */
  lemma ByteSolutions(hi: U8, lo: U8)
    requires lo % 2 == 0
    ensures Solves(REDUCED_POLY, TRINOMIAL, hi, lo) <==> (hi == 0 && lo == 0) || (hi == 0x51 && lo == 0x92)
  {
    hide Mul, Add, Len, Divides, Cross;
    SecondSolution(); FirstSolution(); DeterminantIsQ(); Factorisation();
    AddZero(0); AddHex(5, 0x92); AddHex(0, 9); MulZero(TRINOMIAL); DividesZero(REDUCED_POLY);
    if Solves(REDUCED_POLY, TRINOMIAL, hi, lo) {
      CrossLen(0xCB, 5, hi, lo); CrossLen(0x51, 0x92, hi, lo);
      SmallSolutions(REDUCED_POLY, TRINOMIAL, 0xCB, 5, 0x51, 0x92, hi, lo);
    }
  }

  // --------------------------------------------------------------- the odd layout

  lemma MulS(lo: Poly)
    ensures Mul(lo, TRINOMIAL) == Add(Add(Shl(lo, 16), Shl(lo, 8)), lo)
  {
    hide Add, Mul, Shl;
    var one: Poly := 1;
    Shl8(1); Shl8(0x101); Shl16(1);
    assert Len(one) <= 8 by { LenByte(1); }
    JoinIsAdd(1, 1, 8); JoinIsAdd(0x101, 1, 8);
    AddShl(Shl(1, 8), 1, 8); ShlShl(1, 8, 8);
    MulAddRight(lo, Add(Shl(1, 16), Shl(1, 8)), 1); MulAddRight(lo, Shl(1, 16), Shl(1, 8));
    MulShlRight(lo, 1, 16); MulShlRight(lo, 1, 8); MulOneRight(lo);
  }

  lemma StepMulS(lo: Poly)
    ensures Step(Mul(lo, TRINOMIAL), 8) == Add(Shl(lo, 24), lo)
  {
    hide Add, Mul, Shl;
    var a, b, c := Shl(lo, 24), Shl(lo, 16), Shl(lo, 8);
    MulS(lo);
    AddShl(Add(b, c), lo, 8); AddShl(b, c, 8); ShlShl(lo, 16, 8); ShlShl(lo, 8, 8);
    // (b + c + lo) + (a + b + c) telescopes
    AddComm(Add(Add(b, c), lo), Add(Add(a, b), c));
    AddAssoc(a, b, c);
    AddSwap(a, Add(b, c), lo, Add(b, c)); AddComm(Add(b, c), lo);
    AddSelf(Add(b, c)); AddZero(Add(a, lo));
  }

  /** By how much the two layouts disagree, as a polynomial in the checksum bytes. */
  lemma DefectIsStep(hi: U8, lo: U8)
    ensures Add(LittleEndian(lo, hi), Add(Shl(lo, 24), hi)) == Step(Add(hi, Mul(lo, TRINOMIAL)), 8)
  {
    hide Add, Mul, Shl;
    LenByte(lo); Shl8(hi); JoinIsAdd(hi, lo, 8);
    StepAdd(hi, Mul(lo, TRINOMIAL), 8); StepMulS(lo);
    AddComm(hi, Shl(hi, 8));
    AddSwap(Shl(hi, 8), lo, hi, Shl(lo, 24)); AddComm(hi, Shl(lo, 24)); AddComm(lo, Shl(lo, 24));
  }

  lemma OddBlocks(data: seq<U8>, c: U16)
    requires |data| % 2 == 1
    ensures var n := |data| / 2; var d := data[|data| - 1]; var b := Blocks(data)[..n];
      Blocks(data) == b + [d] &&
      Blocks(data + [LowByte(c), HighByte(c)]) == b + [LittleEndian(d, LowByte(c))] + [HighByte(c)]
  {}

  lemma OddFramePoly(data: seq<U8>, c: U16)
    requires |data| % 2 == 1
    ensures MessagePoly(data + [LowByte(c), HighByte(c)])
         == Add(Shl(MessagePoly(data), 16), Add(Shl(LowByte(c), 24), HighByte(c)))
  {
    hide Add, Shl, BlocksPoly, Len, Blocks, ByteAt;
    var n, d, lo, hi := |data| / 2, data[|data| - 1], LowByte(c), HighByte(c);
    var b := Blocks(data)[..n];
    var w := LittleEndian(d, lo);
    OddBlocks(data, c);
    var m, x := MessagePoly(data), BlocksPoly(b + [w]);
    BlocksPolySnoc(b, d); BlocksPolySnoc(b, w); BlocksPolySnoc(b + [w], hi);
    LenByte(d); Shl8(lo); JoinIsAdd(lo, d, 8); AddComm(Shl(lo, 8), d);
    AddAssoc(Shl(BlocksPoly(b), 16), d, Shl(lo, 8));
    assert x == Add(m, Shl(lo, 8));
    AddShl(m, Shl(lo, 8), 16); ShlShl(lo, 8, 16);
    AddAssoc(Shl(m, 16), Shl(lo, 24), hi);
  }

  /** Data of odd length passes its own check exactly when its checksum is 0 or 0x5192. */
  lemma OddLengthCheck(data: seq<U8>, c: U16)
    requires |data| % 2 == 1 && IsCrc(POLY, data, c)
    ensures CheckPasses(POLY, data, c) <==> c == 0 || c == 0x5192
  {
    hide *;
    ConfiguredPoly();
    CrcIsEven(data, c);
    OddCheckDivides(data, c);
    SplitBytes(c);
    DefectIsStep(HighByte(c), LowByte(c));
    DividesPower(Add(HighByte(c), Mul(LowByte(c), TRINOMIAL)));
    SolvesDef(HighByte(c), LowByte(c));
    ByteSolutions(HighByte(c), LowByte(c));
  }

  lemma SplitBytes(c: U16)
    ensures LittleEndian(LowByte(c), HighByte(c)) == c && LowByte(c) % 2 == c % 2
    ensures LowByte(c) == 0 && HighByte(c) == 0 <==> c == 0
    ensures LowByte(c) == 0x92 && HighByte(c) == 0x51 <==> c == 0x5192
  {
    hide *;
    SplitNumber(c, LowByte(c), HighByte(c));
    BytesDef(c);
  }

  lemma BytesDef(c: U16)
    ensures LowByte(c) + 256 * HighByte(c) == c == LittleEndian(LowByte(c), HighByte(c))
  {}

  lemma SplitNumber(c: nat, lo: U8, hi: nat)
    ensures c == lo + 256 * hi ==> lo % 2 == c % 2
  {
    SameParity(lo, 128 * hi);
  }

  lemma SameParity(x: nat, k: nat)
    ensures (x + 2 * k) % 2 == x % 2
  {}

  lemma SolvesDef(hi: Poly, lo: Poly)
    ensures Solves(REDUCED_POLY, TRINOMIAL, hi, lo) <==> Divides(REDUCED_POLY, Add(hi, Mul(lo, TRINOMIAL)))
  {
    hide Divides, Add, Mul;
  }

  lemma OddCheckDivides(data: seq<U8>, c: U16)
    requires |data| % 2 == 1 && IsCrc(POLY, data, c)
    ensures CheckPasses(POLY, data, c) <==> Divides(POLY, Add(c, Add(Shl(LowByte(c), 24), HighByte(c))))
  {
    hide Add, Mul, Shl, Len, MessagePoly, Divides, IsCrc;
    ZeroCrc(POLY, data + [LowByte(c), HighByte(c)]);
    OddFramePoly(data, c);
    CrcDivides(POLY, data, c);
    SameClass(POLY, Shl(MessagePoly(data), 16), c, Add(Shl(LowByte(c), 24), HighByte(c)));
  }

  /** The one-byte message 01 is rejected although the checksum is its own. */
  lemma OddLengthCounterexample()
    ensures IsCrc(POLY, [1], 0x75AA) && !CheckPasses(POLY, [1], 0x75AA)
  {
    hide Add, Mul, Shl, Len, CheckPasses, Divides, MessagePoly, Generator, Aligned, Parity;
    OneBytePoly(); Shl16(1); CounterexampleSum();
    ConfiguredPoly(); GeneratorShl(POLY); ShlOne(POLY);
    DividesZero(Generator(POLY));
    LenWord(0x75AA);
    OddLengthCheck([1], 0x75AA);
  }

  lemma CounterexampleSum()
    ensures Add(0x10000, 0x75AA) == 2 * POLY
  {
    hide Add;
    AddHex(0x10000, 0x75AA); AddHex(0x1000, 0x75A); AddHex(0x100, 0x75); AddHex(0x10, 7); AddHex(1, 0); AddZero(0);
  }

  lemma OneBytePoly()
    ensures MessagePoly([1]) == 1
  {
    var b: seq<U16> := [];
    assert Blocks([1]) == b + [1];
    BlocksPolySnoc(b, 1); AddZero(1); LenShl(0, 16);
  }
}
