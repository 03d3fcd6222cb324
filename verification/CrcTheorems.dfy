/**
  What the checksum means: it is the remainder of polynomial division, checking it is
  divisibility by the polynomial, and that decides exactly which errors go unnoticed.
 */
module CrcTheorems {
  import opened Gf2
  import opened Words
  import opened Crc

  // ---------------------------------------------------------- messages and errors

  /** The message with an error pattern of the same length added bit by bit. */
  function XorBytes(a: seq<U8>, b: seq<U8>): (c: seq<U8>)
    requires |a| == |b|
    ensures |c| == |a|
  {
    seq(|a|, i requires 0 <= i < |a| => XorByte(a[i], b[i]))
  }

  function XorWords(a: seq<U16>, b: seq<U16>): (c: seq<U16>)
    requires |a| == |b|
    ensures |c| == |a|
  {
    seq(|a|, i requires 0 <= i < |a| => XorWord(a[i], b[i]))
  }

  lemma LittleEndianXor(a: U8, b: U8, c: U8, d: U8)
    ensures LittleEndian(XorByte(a, c), XorByte(b, d)) == XorWord(LittleEndian(a, b), LittleEndian(c, d))
  {
    LenByte(a); LenByte(c); Shl8(b); Shl8(d); Shl8(Add(b, d));
    AddJoin(b, a, d, c, 8);
  }

  lemma ByteAtXor(a: seq<U8>, b: seq<U8>, i: nat)
    requires |a| == |b|
    ensures ByteAt(XorBytes(a, b), i) == XorByte(ByteAt(a, i), ByteAt(b, i))
  {
    hide Add;
    AddZero(0);
  }

  lemma BlocksXor(a: seq<U8>, b: seq<U8>)
    requires |a| == |b|
    ensures Blocks(XorBytes(a, b)) == XorWords(Blocks(a), Blocks(b))
  {
    hide LittleEndian, ByteAt, XorBytes, XorByte, XorWord;
    var s, t := Blocks(XorBytes(a, b)), XorWords(Blocks(a), Blocks(b));
    forall i: nat | i < |s|
      ensures s[i] == t[i]
    {
      ByteAtXor(a, b, 2 * i); ByteAtXor(a, b, 2 * i + 1);
      LittleEndianXor(ByteAt(a, 2 * i), ByteAt(a, 2 * i + 1), ByteAt(b, 2 * i), ByteAt(b, 2 * i + 1));
    }
  }

  lemma {:induction false} BlocksPolyXorWords(a: seq<U16>, b: seq<U16>)
    requires |a| == |b|
    ensures BlocksPoly(XorWords(a, b)) == Add(BlocksPoly(a), BlocksPoly(b))
  {
    if |a| != 0 {
      var n := |a| - 1;
      var x, y := a[..n], b[..n];
      BlocksPolyXorWords(x, y);
      SnocXor(a, b);
      assert a == x + [a[n]] && b == y + [b[n]];
      BlocksPolySnoc(x, a[n]); BlocksPolySnoc(y, b[n]); BlocksPolySnoc(XorWords(x, y), XorWord(a[n], b[n]));
      AddShl(BlocksPoly(x), BlocksPoly(y), 16);
      AddSwap(Shl(BlocksPoly(x), 16), a[n], Shl(BlocksPoly(y), 16), b[n]);
    }
  }

  lemma SnocXor(a: seq<U16>, b: seq<U16>)
    requires |a| == |b| > 0
    ensures var n := |a| - 1; XorWords(a, b) == XorWords(a[..n], b[..n]) + [XorWord(a[n], b[n])]
  {}

  lemma MessagePolyXor(a: seq<U8>, b: seq<U8>)
    requires |a| == |b|
    ensures MessagePoly(XorBytes(a, b)) == Add(MessagePoly(a), MessagePoly(b))
  {
    BlocksXor(a, b);
    BlocksPolyXorWords(Blocks(a), Blocks(b));
  }

  // ------------------------------------------------------------ what is computed

  /** A message has one checksum. */
  lemma CrcUnique(p: U16, data: seq<U8>, c: U16, c': U16)
    requires p != 0 && IsCrc(p, data, c) && IsCrc(p, data, c')
    ensures c == c'
  {
    RemainderUnique(Shl(MessagePoly(data), 16), Generator(p), c, c');
  }

  /** The checksum is linear: that of a sum of messages is the sum of their checksums. */
  lemma CrcLinear(p: U16, a: seq<U8>, b: seq<U8>, ca: U16, cb: U16)
    requires p != 0 && |a| == |b| && IsCrc(p, a, ca) && IsCrc(p, b, cb)
    ensures IsCrc(p, XorBytes(a, b), XorWord(ca, cb))
  {
    hide Add, Shl, Mul, Divides, MessagePoly, Generator;
    var x, y := Shl(MessagePoly(a), 16), Shl(MessagePoly(b), 16);
    MessagePolyXor(a, b);
    AddShl(MessagePoly(a), MessagePoly(b), 16);
    DividesSum(Generator(p), Add(x, ca), Add(y, cb));
    AddSwap(x, ca, y, cb);
    LenAdd(ca, cb);
  }

  lemma DividesSum(p: Poly, y: Poly, z: Poly)
    requires Divides(p, y) && Divides(p, z)
    ensures Divides(p, Add(y, z))
  {
    DividesAdd(p, y, z);
  }

  /** The generator in terms of the polynomial: x^(16-d) P(x), where Len is d + 1. */
  lemma GeneratorShl(p: U16)
    requires p != 0
    ensures Len(p) <= 16 && Generator(p) == Shl(p, 17 - Len(p)) && Len(Generator(p)) == 17
  {
    AlignedFits(p);
    LenShl(p, 17 - Len(p));
  }

  ghost predicate IsMultipleOfPower(c: Poly, k: nat) {
    exists t: Poly :: Shl(t, k) == c
  }

  /**
    Reducing by x^(16-d) P(x) leaves the lowest 16-d coefficients of every checksum zero,
    so the configured polynomial of degree 15 never produces an odd checksum.
   */
  lemma CrcLowBitsZero(p: U16, data: seq<U8>, c: U16)
    requires p != 0 && IsCrc(p, data, c)
    ensures Len(p) <= 16 && IsMultipleOfPower(c, 17 - Len(p))
  {
    GeneratorShl(p);
    LowBitsZero(MessagePoly(data), Len(p) - 1, p, 17 - Len(p), c);
  }

  lemma LowBitsZero(m: Poly, j: nat, p: Poly, k: nat, c: Poly)
    requires Divides(Shl(p, k), Add(Shl(m, j + k), c))
    ensures IsMultipleOfPower(c, k)
  {
    var x := Shl(m, j + k);
    var q: Poly :| Mul(q, Shl(p, k)) == Add(x, c);
    MulShlRight(q, p, k);
    ShlShl(m, j, k);
    AddShl(Shl(m, j), Mul(q, p), k);
    AddCancel(x, c);
    assert Shl(Add(Shl(m, j), Mul(q, p)), k) == c;
  }

  /** The configured polynomial has degree 15, constant term 1 and an even number of terms. */
  lemma ConfiguredPoly()
    ensures Len(POLY) == 16 && !Parity(POLY) && POLY % 2 == 1
  {
    PushBit(1, 0); PushBit(2, 1); PushBit(5, 1); PushBit(0xb, 1); PushBit(0x17, 0);
    PushBit(0x2e, 1); PushBit(0x5d, 0); PushBit(0xba, 1); PushBit(0x175, 1); PushBit(0x2eb, 0);
    PushBit(0x5d6, 1); PushBit(0xbad, 0); PushBit(0x175a, 1); PushBit(0x2eb5, 0); PushBit(0x5d6a, 1);
  }

  lemma PushBit(a: Poly, b: nat)
    requires a > 0 && b < 2
    ensures Len(2 * a + b) == Len(a) + 1
    ensures Parity(2 * a + b) == ((b == 1) != Parity(a))
  {
    assert (2 * a + b) / 2 == a;
  }

  lemma ShlOneIsEven(c: Poly)
    requires IsMultipleOfPower(c, 1)
    ensures c % 2 == 0
  {
    var t: Poly :| Shl(t, 1) == c;
    assert Shl(t, 1) == 2 * Shl(t, 0);
  }

  lemma CrcIsEven(data: seq<U8>, c: U16)
    requires IsCrc(POLY, data, c)
    ensures c % 2 == 0
  {
    ConfiguredPoly();
    CrcLowBitsZero(POLY, data, c);
    ShlOneIsEven(c);
  }

  // ------------------------------------------------------------- what is accepted

  /** check_crc accepts the checksum c for data. */
  ghost predicate CheckPasses(p: U16, data: seq<U8>, c: U16)
    requires p != 0
  {
    IsCrc(p, data + [LowByte(c), HighByte(c)], 0)
  }

  lemma MessagePolyAppend(data: seq<U8>, c: U16)
    requires |data| % 2 == 0
    ensures MessagePoly(data + [LowByte(c), HighByte(c)]) == Add(Shl(MessagePoly(data), 16), c)
  {
    assert Blocks(data + [LowByte(c), HighByte(c)]) == Blocks(data) + [c];
    BlocksPolySnoc(Blocks(data), c);
  }

  /** A zero checksum means divisibility by P itself: the extra powers of x cancel. */
  lemma ZeroCrc(p: U16, data: seq<U8>)
    requires p % 2 == 1
    ensures IsCrc(p, data, 0) <==> Divides(p, MessagePoly(data))
  {
    hide Add, Shl, Mul, Divides, MessagePoly, Generator;
    var m, k := MessagePoly(data), Len(p) - 1;
    GeneratorShl(p);
    AddZero(Shl(m, 16));
    ShlShl(m, k, 16 - k);
    DividesShlBoth(p, Shl(m, k), 16 - k);
    DividesShl(p, m, k);
  }

  /** For even lengths, check_crc decides whether P(x) divides M(x) x^16 + c(x). */
  lemma CheckIsDivisibility(p: U16, data: seq<U8>, c: U16)
    requires p % 2 == 1 && |data| % 2 == 0
    ensures CheckPasses(p, data, c) <==> Divides(p, Add(Shl(MessagePoly(data), 16), c))
  {
    MessagePolyAppend(data, c);
    ZeroCrc(p, data + [LowByte(c), HighByte(c)]);
  }

  /** The checksum differs from M(x) x^16 by a multiple of P. */
  lemma CrcDivides(p: U16, data: seq<U8>, c: U16)
    requires p != 0 && IsCrc(p, data, c)
    ensures Divides(p, Add(Shl(MessagePoly(data), 16), c))
  {
    GeneratorShl(p);
    var k := 17 - Len(p);
    var q: Poly :| Mul(q, Generator(p)) == Add(Shl(MessagePoly(data), 16), c);
    MulShlRight(q, p, k); MulShlLeft(q, p, k);
    assert Mul(Shl(q, k), p) == Add(Shl(MessagePoly(data), 16), c);
  }

  /** Of all 16-bit values, check_crc accepts the checksum and its sum with the polynomial. */
  lemma AcceptsExactlyTwo(p: U16, data: seq<U8>, c: U16, c': U16)
    requires p % 2 == 1 && Len(p) == 16 && |data| % 2 == 0 && IsCrc(p, data, c)
    ensures CheckPasses(p, data, c') <==> c' == c || c' == XorWord(c, p)
  {
    var x := Shl(MessagePoly(data), 16);
    CheckIsDivisibility(p, data, c');
    CrcDivides(p, data, c);
    SameClass(p, x, c, c');
    LenWord(c); LenWord(c'); LenAdd(c, c');
    AddIsZero(c, c'); AddCancel(c, c'); AddCancel(c, p);
    DividesZero(p);
    if Divides(p, Add(c, c')) && c != c' {
      var q: Poly :| Mul(q, p) == Add(c, c');
      MulZero(p);
      LenMul(q, p); LenOne(q); MulOne(p);
    }
  }

  /** If p divides x + c, it divides x + d exactly when it divides c + d. */
  lemma SameClass(p: Poly, x: Poly, c: Poly, d: Poly)
    requires Divides(p, Add(x, c))
    ensures Divides(p, Add(x, d)) <==> Divides(p, Add(c, d))
  {
    DividesAdd(p, Add(x, c), Add(x, d));
    AddComm(x, c); AddSwap(c, x, d, x); AddComm(d, x); AddSelf(x); AddZero(Add(c, d));
  }
}
