/**
  The checksum engine: in-place long division over GF(2) on 16-bit blocks, with the
  double-width divisor shifted right bit by bit and restored after each block.
 */
module Crc {
  import opened Gf2
  import opened Words

  /** The configured polynomial, binary 1011 1010 1101 0101. */
  const POLY: U16 := 0xBAD5

  /** The divisor moved up until its top coefficient is that of x^15. */
  function Aligned(p: U16): (g: U16)
    requires p != 0
    ensures Len(p) <= 16 && g == Shl(p, 16 - Len(p)) && Len(g) == 16
  {
    AlignedFits(p);
    Shl(p, 16 - Len(p))
  }

  lemma AlignedFits(p: U16)
    requires p != 0
    ensures Len(p) <= 16 && Shl(p, 16 - Len(p)) < 0x1_0000 && Len(Shl(p, 16 - Len(p))) == 16
  {
    LenWord(p); LenShl(p, 16 - Len(p)); LenWord(Shl(p, 16 - Len(p)));
  }

  /** What the code reduces by: x^(16-d) P(x), of degree 16. */
  function Generator(p: U16): Poly
    requires p != 0
  {
    2 * Aligned(p)
  }

  class Dpoly {
    var h: U16
    var l: U16

    constructor (h: U16, l: U16)
      ensures this.h == h && this.l == l
    {
      this.h, this.l := h, l;
    }

    ghost function Value(): (v: Poly)
      reads this
    {
      Words.DoubleWord(h, l)
    }

    /** The length of the divisor, that is one more than its degree. */
    method CalcPolyLen() returns (polyLen: nat)
      requires h != 0 || l != 0
      ensures polyLen == Len(Value())
    {
      var offset := 0;
      var val := h;
      if val == 0 {
        val := l;
      } else {
        offset := 16;
      }
      hide Len, Words.DoubleWord;
      ghost var w := val;
      LenWord(w); LastOne(w);
      DoubleWordLen(h, l);
      polyLen := 0;
      for i := 0 to 16
        invariant Len(val) == if Len(w) <= i then 0 else Len(w) - i
        invariant Len(w) <= i ==> polyLen == offset + Len(w)
      {
        LenHalf(val);
        LastOne(val);
        if val % 2 == 1 {
          polyLen := offset + i + 1;
        }
        val := val / 2;
      }
    }

    /** Shifts left; whatever leaves the double word is lost. */
    method Sl(n: nat)
      modifies this
      ensures Value() == Shl32(old(Value()), n)
    {
      hide Words.DoubleWord, HighBit, Doubled, OrLowBit;
      for i := 0 to n
        invariant Value() == Shl32(old(Value()), i)
      {
        ShiftedLeft(h, l);
        var carry := HighBit(l);
        l := Doubled(l);
        h := Doubled(h);
        h := OrLowBit(h, carry);
      }
    }

    /** Shifts right; the lowest bits are lost. */
    method Sr(n: nat)
      modifies this
      ensures Value() == Shr(old(Value()), n)
    {
      hide Words.DoubleWord, OrHighBit;
      for i := 0 to n
        invariant Value() == Shr(old(Value()), i)
      {
        ShiftedRight(h, l);
        var carry := h % 2;
        l := l / 2;
        h := h / 2;
        l := OrHighBit(l, carry);
      }
    }
  }

  lemma DoubleWordLen(h: U16, l: U16)
    ensures Len(DoubleWord(h, l)) == if h == 0 then Len(l) else 16 + Len(h)
  {
    LenWord(l); LenJoin(h, l, 16); LenShl(0, 16);
  }

  /** A polynomial of length one is 1, and the zero polynomial is the only one of length zero. */
  lemma LastOne(a: Poly)
    ensures Len(a) == 0 <==> a == 0
    ensures Len(a) == 1 ==> a % 2 == 1
  {}

  function HighBit(x: U16): (b: nat)
    ensures b < 2
  {
    x / 32768
  }

  /** A 16-bit word shifted left by one. */
  function Doubled(x: U16): U16 {
    2 * x % 65536
  }

  /** Bitwise or with the lowest bit. */
  function OrLowBit(x: U16, b: nat): U16
    requires b < 2
  {
    if x % 2 == 0 then x + b else x
  }

  /** Bitwise or with the highest bit. */
  function OrHighBit(x: U16, b: nat): U16
    requires b < 2
  {
    if x < 32768 then x + 32768 * b else x
  }

  lemma DoubleWordIs(h: U16, l: U16)
    ensures DoubleWord(h, l) == 65536 * h + l
  {
    Shl16(h);
  }

  lemma ShiftedLeft(h: U16, l: U16)
    ensures DoubleWord(OrLowBit(Doubled(h), HighBit(l)), Doubled(l)) == 2 * DoubleWord(h, l) % 0x1_0000_0000
  {
    hide DoubleWord;
    DoubleWordIs(h, l); DoubleWordIs(OrLowBit(Doubled(h), HighBit(l)), Doubled(l));
    var c, t := l / 32768, h / 32768;
    var lo, hi := 2 * l - 65536 * c, 2 * h - 65536 * t;
    assert lo == Doubled(l) && hi == Doubled(h);
    assert OrLowBit(hi, c) == hi + c;
    ModWord(2 * (65536 * h + l), t, 65536 * (hi + c) + lo);
  }

  lemma ShiftedRight(h: U16, l: U16)
    ensures DoubleWord(h / 2, OrHighBit(l / 2, h % 2)) == DoubleWord(h, l) / 2
  {
    hide DoubleWord;
    DoubleWordIs(h, l); DoubleWordIs(h / 2, OrHighBit(l / 2, h % 2));
  }

  lemma ModWord(a: int, t: int, r: int)
    requires a == 0x1_0000_0000 * t + r && 0 <= r < 0x1_0000_0000
    ensures a % 0x1_0000_0000 == r
  {}

  /** Left shift of a 32-bit double word. */
  function Shl32(v: Poly, n: nat): Poly {
    if n == 0 then v else 2 * Shl32(v, n - 1) % 0x1_0000_0000
  }

  lemma {:induction false} Shl32Exact(v: Poly, n: nat)
    requires Shl(v, n) < 0x1_0000_0000
    ensures Shl32(v, n) == Shl(v, n)
  {
    if n != 0 { Shl32Exact(v, n - 1); ModWord(Shl(v, n), 0, Shl(v, n)); }
  }

  function Shr(a: Poly, n: nat): Poly {
    if n == 0 then a else Shr(a, n - 1) / 2
  }

  lemma {:induction false} ShrShl(a: Poly, n: nat)
    ensures Shr(Shl(a, n), n) == a
  {
    if n != 0 {
      ShrHalf(Shl(a, n), n - 1);
      ShrShl(a, n - 1);
    }
  }

  lemma {:induction false} ShrHalf(a: Poly, n: nat)
    ensures Shr(a, n) / 2 == Shr(a / 2, n)
  {
    if n != 0 { ShrHalf(a, n - 1); }
  }

  /** The inner loop of calc_crc: clears block q, bit by bit, into block q + 1. */
  method ReduceBlock(dp: Dpoly, data: array<U16>, q: nat, ghost y: Poly, ghost g: Poly)
    requires q + 1 < data.Length
    requires Len(g) == 16 && dp.Value() == Shl(g, 16)
    requires Divides(2 * g, Add(y, BlocksPoly(data[..])))
    modifies dp, data
    ensures dp.Value() == g
    ensures data[q] == 0 && forall j :: 0 <= j < q ==> data[j] == old(data[j])
    ensures Divides(2 * g, Add(y, BlocksPoly(data[..])))
  {
    var i := 16;
    LenWord(data[q]);
    while i > 0
      invariant 0 <= i <= 16
      invariant dp.Value() == Shl(g, i)
      invariant Len(data[q]) <= i && forall j :: 0 <= j < q ==> data[j] == old(data[j])
      invariant Divides(2 * g, Add(y, BlocksPoly(data[..])))
    {
      TopBit(data[q], i - 1);
      if TestBit(data[q], i - 1) {
        ghost var ws := data[..];
        data[q + 1] := XorWord(data[q + 1], dp.l);
        data[q] := XorWord(data[q], dp.h);
        assert data[..] == XorPair(ws, q, dp.h, dp.l);
        Eliminate(y, ws, q, i, g, dp.h, dp.l);
      }
      dp.Sr(1);
      assert dp.Value() == Shl(g, i - 1);
      i := i - 1;
    }
  }

  /**
    In-place division.  One half of the double word must be zero, so that the aligned
    divisor fits one block and nothing is lost while it is shifted across the next.
   */
  method CalcCrc(h: U16, l: U16, data: array<U16>) returns (crc: U16)
    requires data.Length >= 1
    requires (h == 0) != (l == 0)
    modifies data
    ensures crc == data[data.Length - 1]
    ensures forall j :: 0 <= j < data.Length - 1 ==> data[j] == 0
    ensures IsRemainder(BlocksPoly(old(data[..])), Generator(h + l), crc)
  {
    hide Divides, BlocksPoly, Shl, Shl32, Len, Add, Words.DoubleWord;
    var dp := new Dpoly(h, l);
    ghost var p: U16, y := h + l, BlocksPoly(data[..]);
    ghost var g: Poly := Aligned(p);
    var polyLen := dp.CalcPolyLen();
    AlignDivisor(h, l);
    dp.Sl(32 - polyLen);
    SameRemainder(y, 2 * g);
    for q := 0 to data.Length - 1
      invariant fresh(dp) && dp.Value() == Shl(g, 16)
      invariant forall j :: 0 <= j < q ==> data[j] == 0
      invariant Divides(2 * g, Add(y, BlocksPoly(data[..])))
    {
      ReduceBlock(dp, data, q, y, g);
      assert forall j :: 0 <= j < q + 1 ==> data[j] == 0;
      ghost var after := data[..];
      DivisorRestored(g);
      dp.Sl(16);
      assert data[..] == after;
    }
    crc := data[data.Length - 1];
    BlocksPolyLeadingZeros(data[..]);
    ReducedIsRemainder(y, p, crc);
  }

  lemma SameRemainder(y: Poly, g: Poly)
    ensures Divides(g, Add(y, y))
  {
    AddSelf(y); DividesZero(g);
  }

  lemma ReducedIsRemainder(y: Poly, p: U16, crc: U16)
    requires p != 0 && Divides(Generator(p), Add(y, crc))
    ensures IsRemainder(y, Generator(p), crc)
  {
    LenWord(crc);
  }

  lemma AlignDivisor(h: U16, l: U16)
    requires (h == 0) != (l == 0)
    ensures var v := DoubleWord(h, l);
      Len(v) <= 32 && Shl32(v, 32 - Len(v)) == Shl(Aligned(h + l), 16)
  {
    var p: U16 := h + l;
    var v, n, g: Poly := DoubleWord(h, l), Len(p), Aligned(p);
    LenWord(p); LenShl(h, 16);
    if l == 0 { ShlShl(p, 16, 16 - n); }
    assert Shl(v, 32 - Len(v)) == Shl(g, 16) by { ShlShl(p, 16 - n, 16); }
    assert Shl(g, 16) < 0x1_0000_0000 by { Shl16(g); }
    Shl32Exact(v, 32 - Len(v));
  }

  lemma DivisorRestored(g: Poly)
    requires Len(g) == 16
    ensures Shl32(g, 16) == Shl(g, 16)
  {
    LenWord(g); Shl16(g); Shl32Exact(g, 16);
  }

  /** With the divisor at offset i, its upper word has exactly i significant bits. */
  lemma HighHalf(v: Poly, i: nat, h: U16, l: U16)
    requires Len(v) == 16 + i && v == DoubleWord(h, l)
    ensures Len(h) == i
  {
    LenWord(l);
    LenJoin(h, l, 16);
  }

  /** One elimination step of the long division. */
  lemma Eliminate(y: Poly, ws: seq<U16>, q: nat, i: nat, g: Poly, h: U16, l: U16)
    requires q + 1 < |ws| && i > 0 && Len(ws[q]) == i && Len(g) == 16
    requires DoubleWord(h, l) == Shl(g, i)
    requires Divides(2 * g, Add(y, BlocksPoly(ws)))
    ensures Len(XorWord(ws[q], h)) < i
    ensures Divides(2 * g, Add(y, BlocksPoly(XorPair(ws, q, h, l))))
  {
    LenShl(g, i);
    HighHalf(Shl(g, i), i, h, l);
    LenAddCancel(ws[q], h);
    BlocksPolyXor(ws, q, Shl(g, i), h, l);
    SubtractMultiple(y, BlocksPoly(ws), g, i, 16 * (|ws| - 2 - q));
  }

  /** Adding the divisor at a positive offset keeps the remainder class modulo 2 * g. */
  lemma SubtractMultiple(y: Poly, d: Poly, g: Poly, i: nat, k: nat)
    requires i > 0 && Divides(2 * g, Add(y, d))
    ensures Divides(2 * g, Add(y, Add(d, Shl(Shl(g, i), k))))
  {
    var m := Shl(g, i + k);
    ShlShl(g, i, k);
    ShlDouble(g, i + k - 1);
    MulOne(2 * g); MulShlLeft(1, 2 * g, i + k - 1);
    assert Mul(Shl(1, i + k - 1), 2 * g) == m;
    DividesAdd(2 * g, Add(y, d), m);
    AddAssoc(y, d, m);
  }

  // ---------------------------------------------------------- the checksum itself

  /** Byte i of data, zero past its end. */
  function ByteAt(data: seq<U8>, i: nat): U8 {
    if i < |data| then data[i] else 0
  }

  /** The message as blocks, the last one padded with a zero byte if need be. */
  function Blocks(data: seq<U8>): (ws: seq<U16>)
    ensures |ws| == (|data| + 1) / 2
  {
    seq((|data| + 1) / 2, i requires 0 <= i => LittleEndian(ByteAt(data, 2 * i), ByteAt(data, 2 * i + 1)))
  }

  /** The message M(x). */
  function MessagePoly(data: seq<U8>): Poly {
    BlocksPoly(Blocks(data))
  }

  /** c is the checksum of data: M(x) * x^16 reduced modulo x^(16-d) P(x). */
  ghost predicate IsCrc(p: U16, data: seq<U8>, c: U16)
    requires p != 0
  {
    IsRemainder(Shl(MessagePoly(data), 16), Generator(p), c)
  }

  function LowByte(c: U16): U8 { c % 256 }
  function HighByte(c: U16): U8 { c / 256 }

  method GetCrc(p: U16, data: seq<U8>) returns (crc: U16)
    requires p != 0
    ensures IsCrc(p, data, crc)
  {
    hide Divides, BlocksPoly, Shl, Add, LittleEndian, Aligned, Len;
    var nBlocks := (|data| + 1) / 2 + 1;
    var temp := new U16[nBlocks](i requires 0 <= i => LittleEndian(ByteAt(data, 2 * i), ByteAt(data, 2 * i + 1)));
    PaddedBlocks(data, temp[..]);
    crc := CalcCrc(p, 0, temp);
  }

  lemma PaddedBlocks(data: seq<U8>, ws: seq<U16>)
    requires |ws| == (|data| + 1) / 2 + 1
    requires forall i :: 0 <= i < |ws| ==> ws[i] == LittleEndian(ByteAt(data, 2 * i), ByteAt(data, 2 * i + 1))
    ensures BlocksPoly(ws) == Shl(MessagePoly(data), 16)
  {
    hide BlocksPoly, Shl, Add;
    assert ws == Blocks(data) + [0];
    BlocksPolySnoc(Blocks(data), 0);
    AddZero(Shl(MessagePoly(data), 16));
  }

  method CheckCrc(p: U16, data: seq<U8>, crc: U16) returns (ok: bool)
    requires p != 0
    ensures ok <==> IsCrc(p, data + [LowByte(crc), HighByte(crc)], 0)
  {
    var framed := data + [LowByte(crc), HighByte(crc)];
    var res := GetCrc(p, framed);
    ok := res == 0;
    if IsCrc(p, framed, 0) { RemainderUnique(Shl(MessagePoly(framed), 16), Generator(p), res, 0); }
  }
}
