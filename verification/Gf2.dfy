/**
  Polynomials over GF(2).  A polynomial is the natural number whose bit k is the
  coefficient of x^k, so that equality of polynomials is equality of numbers.
  This is the independent reference theory that the CRC engine is compared with.
 */
module Gf2 {

  type Poly = nat

  /** Sum of two polynomials: coefficientwise exclusive or. */
  function Add(a: Poly, b: Poly): Poly
    decreases a + b
  {
    if a == 0 && b == 0 then 0
    else (if a % 2 == b % 2 then 0 else 1) + 2 * Add(a / 2, b / 2)
  }

  /** Product of two polynomials. */
  function Mul(a: Poly, b: Poly): Poly {
    if a == 0 then 0
    else Add(Term(a, b), 2 * Mul(a / 2, b))
  }

  /** a(x) * x^k */
  function Shl(a: Poly, k: nat): Poly {
    if k == 0 then a else 2 * Shl(a, k - 1)
  }

  /** One more than the degree; 0 for the zero polynomial. */
  function Len(a: Poly): nat {
    if a == 0 then 0 else 1 + Len(a / 2)
  }

  /** The value a(1): whether the number of non-zero coefficients is odd. */
  function Parity(a: Poly): bool {
    if a == 0 then false else (a % 2 == 1) != Parity(a / 2)
  }

  ghost predicate Divides(p: Poly, y: Poly) {
    exists q: Poly :: Mul(q, p) == y
  }

  /** r is the remainder of y modulo g. */
  ghost predicate IsRemainder(y: Poly, g: Poly, r: Poly) {
    Len(r) < Len(g) && Divides(g, Add(y, r))
  }

  // ---------------------------------------------------------------- addition

  lemma {:induction false} AddComm(a: Poly, b: Poly)
    ensures Add(a, b) == Add(b, a)
    decreases a + b
  {
    if a != 0 || b != 0 { AddComm(a / 2, b / 2); }
  }

  lemma {:induction false} AddAssoc(a: Poly, b: Poly, c: Poly)
    ensures Add(Add(a, b), c) == Add(a, Add(b, c))
    decreases a + b + c
  {
    if a != 0 || b != 0 || c != 0 { AddAssoc(a / 2, b / 2, c / 2); }
  }

  lemma {:induction false} AddZero(a: Poly)
    ensures Add(a, 0) == a && Add(0, a) == a
  {
    if a != 0 { AddZero(a / 2); }
  }

  lemma {:induction false} AddSelf(a: Poly)
    ensures Add(a, a) == 0
  {
    if a != 0 { AddSelf(a / 2); }
  }

  lemma AddCancel(a: Poly, b: Poly)
    ensures Add(Add(a, b), b) == a
    ensures Add(a, Add(a, b)) == b
  {
    AddAssoc(a, b, b); AddSelf(b); AddZero(a);
    AddAssoc(a, a, b); AddSelf(a); AddZero(b);
  }

  lemma AddIsZero(a: Poly, b: Poly)
    ensures Add(a, b) == 0 <==> a == b
  {
    AddCancel(a, b); AddZero(b); AddZero(a); AddSelf(a);
  }

  lemma AddRightComm(a: Poly, b: Poly, c: Poly)
    ensures Add(Add(a, b), c) == Add(Add(a, c), b)
  {
    AddAssoc(a, b, c); AddComm(b, c); AddAssoc(a, c, b);
  }

  /** Exchanges the two middle terms of a sum of four. */
  lemma AddSwap(a: Poly, b: Poly, c: Poly, d: Poly)
    ensures Add(Add(a, b), Add(c, d)) == Add(Add(a, c), Add(b, d))
  {
    AddAssoc(a, b, Add(c, d)); AddAssoc(b, c, d); AddComm(b, c); AddAssoc(c, b, d); AddAssoc(a, c, Add(b, d));
  }

  lemma {:induction false} AddShl(a: Poly, b: Poly, k: nat)
    ensures Add(Shl(a, k), Shl(b, k)) == Shl(Add(a, b), k)
  {
    if k != 0 {
      hide Add;
      AddShl(a, b, k - 1);
      AddDouble(Shl(a, k - 1), Shl(b, k - 1));
    }
  }

  lemma {:induction false} LenAdd(a: Poly, b: Poly)
    ensures Len(Add(a, b)) <= if Len(a) < Len(b) then Len(b) else Len(a)
    ensures Len(a) != Len(b) ==> Len(Add(a, b)) == if Len(a) < Len(b) then Len(b) else Len(a)
    decreases a + b
  {
    if a != 0 || b != 0 { LenAdd(a / 2, b / 2); }
  }

  lemma {:induction false} ParityAdd(a: Poly, b: Poly)
    ensures Parity(Add(a, b)) == (Parity(a) != Parity(b))
    decreases a + b
  {
    if a != 0 || b != 0 { ParityAdd(a / 2, b / 2); }
  }

  // ------------------------------------------------------------------- shift

  lemma {:induction false} ShlShl(a: Poly, j: nat, k: nat)
    ensures Shl(Shl(a, j), k) == Shl(a, j + k)
  {
    if k != 0 { ShlShl(a, j, k - 1); }
  }

  lemma {:induction false} LenShl(a: Poly, k: nat)
    ensures Shl(a, k) == 0 <==> a == 0
    ensures Len(Shl(a, k)) == if a == 0 then 0 else Len(a) + k
  {
    if k != 0 { LenShl(a, k - 1); }
  }

  // ----------------------------------------------------------------- product

  lemma {:induction false} MulZero(a: Poly)
    ensures Mul(a, 0) == 0 && Mul(0, a) == 0
  {
    if a != 0 { MulZero(a / 2); }
  }

  lemma MulOne(b: Poly)
    ensures Mul(1, b) == b
  {
    AddZero(b);
  }

  lemma AddHalves(a: Poly, b: Poly)
    ensures Add(a, b) / 2 == Add(a / 2, b / 2) && Add(a, b) % 2 == if a % 2 == b % 2 then 0 else 1
  {}

  lemma MulAny(a: Poly, c: Poly)
    ensures Mul(a, c) == Add(Term(a, c), 2 * Mul(a / 2, c))
  {
    if a == 0 { AddZero(0); }
  }

  lemma TermAdd(a: Poly, b: Poly, c: Poly)
    ensures Term(Add(a, b), c) == Add(Term(a, c), Term(b, c))
  {
    hide Add;
    AddHalves(a, b);
    AddSelf(c); AddZero(c); AddZero(0);
  }

  lemma {:induction false} MulDistrib(a: Poly, b: Poly, c: Poly)
    ensures Mul(Add(a, b), c) == Add(Mul(a, c), Mul(b, c))
    decreases a + b
  {
    if a == 0 { AddZero(b); AddZero(Mul(b, c)); }
    else if b == 0 { AddZero(a); AddZero(Mul(a, c)); }
    else {
      hide Add, Mul, Term;
      MulDistrib(a / 2, b / 2, c);
      var x, y, s := Mul(a / 2, c), Mul(b / 2, c), Add(a, b);
      AddHalves(a, b);
      MulAny(a, c); MulAny(b, c); MulAny(s, c);
      TermAdd(a, b, c);
      AddDouble(x, y);
      AddSwap(Term(a, c), Term(b, c), 2 * x, 2 * y);
    }
  }

  /** The contribution of the constant term of a to a(x) * c(x). */
  function Term(a: Poly, c: Poly): Poly {
    if a % 2 == 1 then c else 0
  }

  lemma {:induction false} MulShlRight(a: Poly, b: Poly, k: nat)
    ensures Mul(a, Shl(b, k)) == Shl(Mul(a, b), k)
  {
    if a == 0 { LenShl(0, k); }
    else {
      MulShlRight(a / 2, b, k);
      var u: Poly := if a % 2 == 1 then b else 0;
      AddShl(u, 2 * Mul(a / 2, b), k);
      ShlDouble(Mul(a / 2, b), k);
      LenShl(0, k);
    }
  }

  lemma {:induction false} ShlDouble(a: Poly, k: nat)
    ensures Shl(2 * a, k) == 2 * Shl(a, k)
  {
    if k != 0 { ShlDouble(a, k - 1); }
  }

  lemma {:induction false} MulShlLeft(a: Poly, b: Poly, k: nat)
    ensures Mul(Shl(a, k), b) == Shl(Mul(a, b), k)
  {
    if k != 0 {
      MulShlLeft(a, b, k - 1);
      AddZero(2 * Mul(Shl(a, k - 1), b));
    }
  }

  lemma {:induction false} LenMul(a: Poly, b: Poly)
    requires a != 0 && b != 0
    ensures Mul(a, b) != 0 && Len(Mul(a, b)) == Len(a) + Len(b) - 1
  {
    if a == 1 { MulOne(b); }
    else {
      LenMul(a / 2, b);
      var m := Mul(a / 2, b);
      assert Len(2 * m) == 1 + Len(m);
      LenAdd(if a % 2 == 1 then b else 0, 2 * m);
    }
  }

  lemma {:induction false} ParityMul(a: Poly, b: Poly)
    ensures Parity(Mul(a, b)) == (Parity(a) && Parity(b))
  {
    if a != 0 {
      ParityMul(a / 2, b);
      ParityAdd(if a % 2 == 1 then b else 0, 2 * Mul(a / 2, b));
      assert Parity(2 * Mul(a / 2, b)) == Parity(Mul(a / 2, b));
    }
  }

  lemma {:induction false} MulAddRight(q: Poly, a: Poly, b: Poly)
    ensures Mul(q, Add(a, b)) == Add(Mul(q, a), Mul(q, b))
  {
    hide Add;
    AddZero(0);
    if q != 0 {
      var x, y := Mul(q / 2, a), Mul(q / 2, b);
      MulAddRight(q / 2, a, b);
      AddDouble(x, y);
      AddSwap(Term(q, a), Term(q, b), 2 * x, 2 * y);
    }
  }

  lemma AddDouble(x: Poly, y: Poly)
    ensures Add(2 * x, 2 * y) == 2 * Add(x, y)
  {}

  lemma MulDouble(a: Poly, b: Poly)
    ensures Mul(2 * a, b) == 2 * Mul(a, b) == Mul(a, 2 * b)
  {
    hide Add, Mul;
    MulShlLeft(a, b, 1); MulShlRight(a, b, 1);
    ShlOne(a); ShlOne(b); ShlOne(Mul(a, b));
  }

  lemma ShlOne(a: Poly)
    ensures Shl(a, 1) == 2 * a
  {
    assert Shl(a, 0) == a;
  }

  lemma {:induction false} MulOneRight(a: Poly)
    ensures Mul(a, 1) == a
  {
    if a != 0 {
      MulOneRight(a / 2);
      AddZero(2 * (a / 2)); AddZero(a / 2);
    }
  }

  lemma {:induction false} MulComm(a: Poly, b: Poly)
    ensures Mul(a, b) == Mul(b, a)
  {
    if b == 0 { MulZero(a); }
    else {
      hide Add, Mul;
      var h := b / 2;
      MulComm(a, h);
      MulBySplit(a, b, h);
      MulUnfold(b, a);
    }
  }

  lemma MulUnfold(a: Poly, b: Poly)
    requires a != 0
    ensures Mul(a, b) == Add(Term(a, b), 2 * Mul(a / 2, b))
  {}

  lemma MulBySplit(a: Poly, b: Poly, h: Poly)
    requires h == b / 2
    ensures Mul(a, b) == Add(Term(b, a), 2 * Mul(a, h))
  {
    hide Add, Mul;
    AddZero(2 * h); AddZero(2 * Mul(a, h));
    MulDouble(a, h);
    if b % 2 == 1 {
      LowBit(h);
      MulAddRight(a, 1, 2 * h);
      MulOneRight(a);
    }
  }

  lemma LowBit(h: Poly)
    ensures Add(1, 2 * h) == 2 * h + 1
  {
    AddZero(h);
  }

  lemma {:induction false} MulAssoc(a: Poly, b: Poly, c: Poly)
    ensures Mul(Mul(a, b), c) == Mul(a, Mul(b, c))
  {
    MulZero(c);
    if a != 0 {
      hide Add, Mul;
      var m := Mul(a / 2, b);
      MulAssoc(a / 2, b, c);
      MulUnfold(a, b); MulUnfold(a, Mul(b, c));
      MulDistrib(Term(a, b), 2 * m, c);
      MulDouble(m, c);
    }
  }

  lemma MulSwap(a: Poly, b: Poly, c: Poly)
    ensures Mul(a, Mul(b, c)) == Mul(b, Mul(a, c))
  {
    hide Mul;
    MulAssoc(a, b, c); MulComm(a, b); MulAssoc(b, a, c);
  }

  // ------------------------------------------------------------ divisibility

  lemma DividesAdd(p: Poly, y: Poly, z: Poly)
    requires Divides(p, y)
    ensures Divides(p, Add(y, z)) <==> Divides(p, z)
  {
    var q: Poly :| Mul(q, p) == y;
    if Divides(p, z) {
      var r: Poly :| Mul(r, p) == z;
      MulDistrib(q, r, p);
      assert Mul(Add(q, r), p) == Add(y, z);
    }
    if Divides(p, Add(y, z)) {
      var r: Poly :| Mul(r, p) == Add(y, z);
      MulDistrib(q, r, p); AddCancel(y, z);
      assert Mul(Add(q, r), p) == z;
    }
  }

  lemma DividesZero(p: Poly)
    ensures Divides(p, 0) && Divides(p, p)
  {
    assert Mul(0, p) == 0;
    MulOne(p); assert Mul(1, p) == p;
  }

  /** Multiples of p are zero or at least as long as p. */
  lemma DividesLen(p: Poly, y: Poly)
    requires Divides(p, y) && Len(y) < Len(p)
    ensures y == 0
  {
    var q: Poly :| Mul(q, p) == y;
    if q != 0 && p != 0 { LenMul(q, p); }
    MulZero(q);
  }

  /** A common power of x can be cancelled on both sides. */
  lemma DividesShlBoth(p: Poly, y: Poly, k: nat)
    ensures Divides(Shl(p, k), Shl(y, k)) <==> Divides(p, y)
  {
    if Divides(p, y) {
      var q: Poly :| Mul(q, p) == y;
      MulShlRight(q, p, k); assert Mul(q, Shl(p, k)) == Shl(y, k);
    }
    if Divides(Shl(p, k), Shl(y, k)) {
      var q: Poly :| Mul(q, Shl(p, k)) == Shl(y, k);
      MulShlRight(q, p, k); ShlInjective(Mul(q, p), y, k);
    }
  }

  lemma {:induction false} ShlInjective(a: Poly, b: Poly, k: nat)
    requires Shl(a, k) == Shl(b, k)
    ensures a == b
  {
    if k != 0 { ShlInjective(a, b, k - 1); }
  }

  /** A polynomial with constant term 1 is coprime to x. */
  lemma DividesDouble(p: Poly, z: Poly)
    requires p % 2 == 1
    ensures Divides(p, 2 * z) <==> Divides(p, z)
  {
    hide Add, Mul;
    if Divides(p, z) {
      var q: Poly :| Mul(q, p) == z;
      MulDouble(q, p);
      assert Mul(2 * q, p) == 2 * z;
    }
    if Divides(p, 2 * z) {
      var q: Poly :| Mul(q, p) == 2 * z;
      MulConstantTerm(q, p);
      MulDouble(q / 2, p);
      assert Mul(q / 2, p) == z;
    }
  }

  /** A polynomial with constant term 1 is coprime to every power of x. */
  lemma {:induction false} DividesShl(p: Poly, y: Poly, k: nat)
    requires p % 2 == 1
    ensures Divides(p, Shl(y, k)) <==> Divides(p, y)
  {
    hide Divides;
    if k != 0 {
      DividesShl(p, y, k - 1);
      DividesDouble(p, Shl(y, k - 1));
    }
  }

  lemma MulConstantTerm(a: Poly, b: Poly)
    ensures Mul(a, b) % 2 == (a % 2) * (b % 2)
  {
    if a != 0 {
      AddZero(2 * Mul(a / 2, b));
    }
  }

  /** Remainders are unique, so IsRemainder defines a function of y. */
  lemma RemainderUnique(y: Poly, g: Poly, r: Poly, s: Poly)
    requires IsRemainder(y, g, r) && IsRemainder(y, g, s)
    ensures r == s
  {
    DividesAdd(g, Add(y, r), Add(y, s));
    AddSwap(y, r, y, s); AddSelf(y); AddZero(Add(r, s));
    var q: Poly :| Mul(q, g) == Add(y, s);
    assert Divides(g, Add(Add(y, r), Add(y, s))) by {
      var a: Poly :| Mul(a, g) == Add(y, r);
      MulDistrib(a, q, g);
      assert Mul(Add(a, q), g) == Add(Add(y, r), Add(y, s));
    }
    LenAdd(r, s);
    DividesLen(g, Add(r, s));
    AddIsZero(r, s);
  }

  // -------------------------------------------------- numbers seen as bit strings

  /** Coefficient k of a, which is bit k of the number. */
  predicate TestBit(a: Poly, k: nat) {
    if k == 0 then a % 2 == 1 else TestBit(a / 2, k - 1)
  }

  lemma {:induction false} TopBit(a: Poly, k: nat)
    requires Len(a) <= k + 1
    ensures TestBit(a, k) <==> Len(a) == k + 1
  {
    if k != 0 && a != 0 { TopBit(a / 2, k - 1); }
    else if k != 0 { TopBit(0, k - 1); }
  }

  /** Two polynomials of equal degree cancel at the top. */
  lemma {:induction false} LenAddCancel(a: Poly, b: Poly)
    requires Len(a) == Len(b) > 0
    ensures Len(Add(a, b)) < Len(a)
  {
    LenOne(a); LenOne(b);
    if Len(a) == 1 { AddSelf(a); } else {
      LenAddCancel(a / 2, b / 2);
      var s := Add(a, b);
      assert s / 2 == Add(a / 2, b / 2);
      if s != 0 { assert Len(s) == 1 + Len(s / 2); }
    }
  }

  lemma LenOne(a: Poly)
    ensures Len(a) == 1 <==> a == 1
  {
    if a > 1 { assert Len(a) == 1 + Len(a / 2) && Len(a / 2) >= 1; }
  }

  lemma {:induction false} LenBound(a: Poly, k: nat)
    ensures Len(a) <= k <==> a < Shl(1, k)
  {
    if k != 0 && a != 0 { LenBound(a / 2, k - 1); LenShl(1, k - 1); }
    else { LenShl(1, k); }
  }

  /** a(x) * x^k + u(x) when u has degree below k: the two parts do not overlap. */
  lemma {:induction false} LenJoin(a: Poly, u: Poly, k: nat)
    requires Len(u) <= k
    ensures Len(Shl(a, k) + u) == if a == 0 then Len(u) else Len(a) + k
  {
    if a == 0 { LenShl(0, k); }
    else if k != 0 {
      LenJoin(a, u / 2, k - 1);
      LenShl(a, k);
      assert (Shl(a, k) + u) / 2 == Shl(a, k - 1) + u / 2;
    }
  }

  lemma {:induction false} AddJoin(a: Poly, u: Poly, b: Poly, v: Poly, k: nat)
    requires Len(u) <= k && Len(v) <= k
    ensures Add(Shl(a, k) + u, Shl(b, k) + v) == Shl(Add(a, b), k) + Add(u, v)
  {
    hide Add, Len, Shl;
    if k == 0 {
      LenHalf(u); LenHalf(v); AddZero(0);
      ShlZero(a); ShlZero(b); ShlZero(Add(a, b));
    } else {
      LenHalf(u); LenHalf(v);
      AddJoin(a, u / 2, b, v / 2, k - 1);
      ShlLast(a, k); ShlLast(b, k); ShlLast(Add(a, b), k);
      AddJoinStep(Shl(a, k - 1), u, Shl(b, k - 1), v, Shl(Add(a, b), k - 1));
    }
  }

  lemma ShlZero(a: Poly)
    ensures Shl(a, 0) == a
  {}

  lemma ShlLast(a: Poly, k: nat)
    requires k > 0
    ensures Shl(a, k) == 2 * Shl(a, k - 1)
  {}

  lemma LenHalf(a: Poly)
    ensures Len(a / 2) == if a == 0 then 0 else Len(a) - 1
    ensures Len(a) == 0 <==> a == 0
  {}

  lemma AddJoinStep(x: Poly, u: Poly, y: Poly, v: Poly, z: Poly)
    requires Add(x + u / 2, y + v / 2) == z + Add(u / 2, v / 2)
    ensures Add(2 * x + u, 2 * y + v) == 2 * z + Add(u, v)
  {
    hide Add;
    var s, t := 2 * x + u, 2 * y + v;
    assert s / 2 == x + u / 2 && t / 2 == y + v / 2;
    assert s % 2 == u % 2 && t % 2 == v % 2;
    AddUnfold(s, t); AddUnfold(u, v);
  }

  lemma AddUnfold(a: Poly, b: Poly)
    ensures Add(a, b) == (if a % 2 == b % 2 then 0 else 1) + 2 * Add(a / 2, b / 2)
  {}

  lemma JoinIsAdd(a: Poly, u: Poly, k: nat)
    requires Len(u) <= k
    ensures Shl(a, k) + u == Add(Shl(a, k), u)
  {
    AddJoin(a, 0, 0, u, k); LenShl(0, k); AddZero(a); AddZero(u);
  }

  lemma Shl8(a: Poly)
    ensures Shl(a, 8) == 256 * a
  {
    Shl4(a); Shl4(16 * a); ShlShl(a, 4, 4);
  }

  lemma Shl16(a: Poly)
    ensures Shl(a, 16) == 65536 * a
  {
    Shl8(a); Shl8(256 * a); ShlShl(a, 8, 8);
  }

  lemma LenByte(a: Poly)
    ensures Len(a) <= 8 <==> a < 256
  {
    Shl8(1); LenBound(a, 8);
  }

  lemma LenWord(a: Poly)
    ensures Len(a) <= 16 <==> a < 65536
  {
    Shl16(1); LenBound(a, 16);
  }

  lemma Shl4(a: Poly)
    ensures Shl(a, 4) == 16 * a
  {
    assert Shl(a, 1) == 2 * Shl(a, 0);
    assert Shl(a, 2) == 2 * Shl(a, 1);
    assert Shl(a, 3) == 2 * Shl(a, 2);
  }
}
