/**
  Fixed-width unsigned words as numbers in range, and the polynomial that an array of
  16-bit blocks stands for.  Exclusive or of words is Gf2.Add.
 */
module Words {
  import opened Gf2

  datatype Option<+T> = None | Some(value: T)

  type U8 = n: nat | n < 0x100
  type U16 = n: nat | n < 0x1_0000
  type ByteString = seq<U8>

  /** A little-endian machine reads the bytes lo, hi (in this order) as this word. */
  function LittleEndian(lo: U8, hi: U8): U16 {
    lo + 256 * hi
  }

  lemma AddFits(a: Poly, b: Poly)
    ensures a < 0x1_0000 && b < 0x1_0000 ==> Add(a, b) < 0x1_0000
    ensures a < 0x100 && b < 0x100 ==> Add(a, b) < 0x100
  {
    LenWord(a); LenWord(b); LenByte(a); LenByte(b);
    LenAdd(a, b); LenWord(Add(a, b)); LenByte(Add(a, b));
  }

  function XorWord(a: U16, b: U16): U16 {
    AddFits(a, b);
    Add(a, b)
  }

  function XorByte(a: U8, b: U8): U8 {
    AddFits(a, b);
    Add(a, b)
  }

  /** h(x) * x^16 + l(x), the value of two adjacent words. */
  function DoubleWord(h: Poly, l: U16): Poly {
    Shl(h, 16) + l
  }

  /** The blocks as one polynomial, the first block holding the highest coefficients. */
  function BlocksPoly(ws: seq<U16>): Poly {
    if |ws| == 0 then 0 else DoubleWord(BlocksPoly(ws[..|ws| - 1]), ws[|ws| - 1])
  }

  lemma BlocksPolySnoc(ws: seq<U16>, w: U16)
    ensures BlocksPoly(ws + [w]) == Add(Shl(BlocksPoly(ws), 16), w)
  {
    assert (ws + [w])[..|ws|] == ws;
    LenWord(w);
    JoinIsAdd(BlocksPoly(ws), w, 16);
  }

  lemma {:induction false} BlocksPolyConcat(a: seq<U16>, b: seq<U16>)
    ensures BlocksPoly(a + b) == Add(Shl(BlocksPoly(a), 16 * |b|), BlocksPoly(b))
  {
    if |b| == 0 { assert a + b == a; AddZero(BlocksPoly(a)); }
    else {
      var n := |b| - 1;
      BlocksPolyConcat(a, b[..n]);
      assert a + b == (a + b[..n]) + [b[n]] && b == b[..n] + [b[n]];
      BlocksPolySnoc(a + b[..n], b[n]); BlocksPolySnoc(b[..n], b[n]);
      var x, y := Shl(BlocksPoly(a), 16 * n), BlocksPoly(b[..n]);
      AddShl(x, y, 16);
      AddAssoc(Shl(x, 16), Shl(y, 16), b[n]);
      ShlShl(BlocksPoly(a), 16 * n, 16);
    }
  }

  lemma BlocksPolyXorLast(xs: seq<U16>, a: U16, b: U16, h: U16, l: U16)
    ensures BlocksPoly(xs + [XorWord(a, h)] + [XorWord(b, l)]) == Add(BlocksPoly(xs + [a] + [b]), DoubleWord(h, l))
  {
    hide Add, Shl, Len, BlocksPoly;
    var x, y, y' := Shl(BlocksPoly(xs), 16), BlocksPoly(xs + [a]), BlocksPoly(xs + [XorWord(a, h)]);
    BlocksPolySnoc(xs, a); BlocksPolySnoc(xs, XorWord(a, h));
    AddAssoc(x, a, h);
    assert y' == Add(y, h);
    BlocksPolySnoc(xs + [a], b); BlocksPolySnoc(xs + [XorWord(a, h)], XorWord(b, l));
    AddShl(y, h, 16);
    AddSwap(Shl(y, 16), Shl(h, 16), b, l);
    LenWord(l); JoinIsAdd(h, l, 16);
  }

  lemma BlocksPolyXorFront(us: seq<U16>, ws: seq<U16>, d: Poly, w: U16)
    requires BlocksPoly(us) == Add(BlocksPoly(ws), d)
    ensures BlocksPoly(us + [w]) == Add(BlocksPoly(ws + [w]), Shl(d, 16))
  {
    BlocksPolySnoc(us, w); BlocksPolySnoc(ws, w);
    AddShl(BlocksPoly(ws), d, 16);
    AddRightComm(Shl(BlocksPoly(ws), 16), Shl(d, 16), w);
  }

  function XorPair(ws: seq<U16>, q: nat, h: U16, l: U16): (us: seq<U16>)
    requires q + 1 < |ws|
    ensures |us| == |ws|
  {
    ws[q := XorWord(ws[q], h)][q + 1 := XorWord(ws[q + 1], l)]
  }

  lemma SplitLastTwo<T>(ws: seq<T>, q: nat, a: T, b: T)
    requires q + 2 == |ws|
    ensures ws == ws[..q] + [ws[q]] + [ws[q + 1]]
    ensures ws[q := a][q + 1 := b] == ws[..q] + [a] + [b]
  {}

  lemma XorPairLast(ws: seq<U16>, q: nat, h: U16, l: U16)
    requires q + 2 == |ws|
    ensures BlocksPoly(XorPair(ws, q, h, l)) == Add(BlocksPoly(ws), DoubleWord(h, l))
  {
    SplitLastTwo(ws, q, XorWord(ws[q], h), XorWord(ws[q + 1], l));
    BlocksPolyXorLast(ws[..q], ws[q], ws[q + 1], h, l);
  }

  lemma XorPairFront(ws: seq<U16>, w: U16, q: nat, h: U16, l: U16)
    requires q + 1 < |ws|
    ensures XorPair(ws + [w], q, h, l) == XorPair(ws, q, h, l) + [w]
  {}

  /** Exclusive or of a double word into two neighbouring blocks adds its shifted polynomial. */
  lemma {:induction false} BlocksPolyXor(ws: seq<U16>, q: nat, v: Poly, h: U16, l: U16)
    requires q + 1 < |ws| && v == DoubleWord(h, l)
    ensures BlocksPoly(XorPair(ws, q, h, l)) == Add(BlocksPoly(ws), Shl(v, 16 * (|ws| - 2 - q)))
    decreases |ws|
  {
    var n := |ws| - 1;
    if q + 1 == n {
      XorPairLast(ws, q, h, l);
    } else {
      var front, w, k := ws[..n], ws[n], 16 * (n - 2 - q);
      assert ws == front + [w];
      BlocksPolyXor(front, q, v, h, l);
      XorPairFront(front, w, q, h, l);
      BlocksPolyXorFront(XorPair(front, q, h, l), front, Shl(v, k), w);
      ShlShl(v, k, 16);
    }
  }

  lemma {:induction false} BlocksPolyLeadingZeros(ws: seq<U16>)
    requires |ws| > 0 && forall j :: 0 <= j < |ws| - 1 ==> ws[j] == 0
    ensures BlocksPoly(ws) == ws[|ws| - 1]
  {
    if |ws| > 1 {
      BlocksPolyLeadingZeros(ws[..|ws| - 1]);
    }
    LenShl(0, 16);
  }
}
