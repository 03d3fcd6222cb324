/** Which transmission errors the checksum detects. */
module CrcErrors {
  import opened Gf2
  import opened Words
  import opened Crc
  import opened CrcTheorems

  /** An error pattern over the message and its checksum, as one polynomial. */
  function ErrorPoly(e: seq<U8>, ec: U16): Poly {
    Add(Shl(MessagePoly(e), 16), ec)
  }

  /**
    The exact law of detection, for even lengths: a corrupted message with a corrupted
    checksum is accepted if and only if P(x) divides the error pattern.
   */
  lemma UndetectedErrors(p: U16, data: seq<U8>, c: U16, e: seq<U8>, ec: U16)
    requires p % 2 == 1 && |data| % 2 == 0 && |e| == |data| && IsCrc(p, data, c)
    ensures CheckPasses(p, XorBytes(data, e), XorWord(c, ec)) <==> Divides(p, ErrorPoly(e, ec))
  {
    hide Add, Mul, Shl, Divides, MessagePoly, IsCrc, CheckPasses;
    var x, y := Shl(MessagePoly(data), 16), Shl(MessagePoly(e), 16);
    CheckIsDivisibility(p, XorBytes(data, e), XorWord(c, ec));
    MessagePolyXor(data, e);
    AddShl(MessagePoly(data), MessagePoly(e), 16);
    AddSwap(x, c, y, ec);
    CrcDivides(p, data, c);
    DividesAdd(p, Add(x, c), Add(y, ec));
  }

  lemma OwnCrcAccepted(p: U16, data: seq<U8>, c: U16)
    requires p % 2 == 1 && |data| % 2 == 0 && IsCrc(p, data, c)
    ensures CheckPasses(p, data, c)
  {
    hide *;
    CheckIsDivisibility(p, data, c);
    CrcDivides(p, data, c);
  }

  /**
    A burst of at most deg P bits is always detected; a single flipped bit is the burst
    of length 1.
   */
  lemma BurstDetected(p: U16, data: seq<U8>, c: U16, e: seq<U8>, ec: U16, b: Poly, k: nat)
    requires p % 2 == 1 && |data| % 2 == 0 && |e| == |data| && IsCrc(p, data, c)
    requires ErrorPoly(e, ec) == Shl(b, k) && 0 < Len(b) < Len(p)
    ensures !CheckPasses(p, XorBytes(data, e), XorWord(c, ec))
  {
    hide Add, Mul, Shl, Divides, MessagePoly, IsCrc, CheckPasses;
    UndetectedErrors(p, data, c, e, ec);
    DividesShl(p, b, k);
    if Divides(p, b) { DividesLen(p, b); assert false; }
  }

  /** How many bits of a number are set. */
  function BitCount(a: nat): nat {
    if a == 0 then 0 else a % 2 + BitCount(a / 2)
  }

  /** How many bits of some bytes are set. */
  function Flips(e: seq<U8>): nat {
    if e == [] then 0 else Flips(e[..|e| - 1]) + BitCount(e[|e| - 1])
  }

  predicate Odd(n: nat) {
    n % 2 == 1
  }

  lemma {:induction false} ParityOfBits(a: nat)
    ensures Parity(a) == Odd(BitCount(a))
  {
    if a != 0 { ParityOfBits(a / 2); }
  }

  lemma ParityOfBytes(lo: U8, hi: U8)
    ensures Parity(LittleEndian(lo, hi)) == Odd(BitCount(lo) + BitCount(hi))
  {
    hide Add, Shl, Parity, BitCount;
    LenByte(lo); Shl8(hi); JoinIsAdd(hi, lo, 8);
    ParityAdd(Shl(hi, 8), lo); ParityShl(hi, 8);
    ParityOfBits(lo); ParityOfBits(hi);
  }

  /** The polynomial of a message has as many terms, modulo 2, as the message has bits set. */
  lemma {:induction false} ParityOfMessage(e: seq<U8>)
    ensures Parity(MessagePoly(e)) == Odd(Flips(e))
  {
    hide Add, Shl, Parity, BitCount, BlocksPoly;
    if e == [] {
      ParityOfNothing();
    } else {
      var k := if |e| % 2 == 1 then |e| - 1 else |e| - 2;
      var w := LittleEndian(e[k], ByteAt(e, k + 1));
      ParityOfMessage(e[..k]);
      BlocksOfLast(e, k);
      BlocksPolySnoc(Blocks(e[..k]), w);
      ParityAdd(Shl(MessagePoly(e[..k]), 16), w); ParityShl(MessagePoly(e[..k]), 16);
      ParityOfBytes(e[k], ByteAt(e, k + 1));
      FlipsOfLast(e, k);
    }
  }

  lemma ParityOfNothing()
    ensures MessagePoly([]) == 0 && !Parity(0) && Flips([]) == 0
  {
    assert Blocks([]) == [];
  }

  lemma BlocksOfLast(e: seq<U8>, k: nat)
    requires k < |e| <= k + 2 && k % 2 == 0
    ensures Blocks(e) == Blocks(e[..k]) + [LittleEndian(e[k], ByteAt(e, k + 1))]
  {
    assert (|e| + 1) / 2 == k / 2 + 1;
    forall i: nat | i < k / 2 ensures Blocks(e)[i] == Blocks(e[..k])[i] {
      assert 2 * i + 1 < k;
    }
  }

  lemma FlipsOfLast(e: seq<U8>, k: nat)
    requires k < |e| <= k + 2
    ensures Flips(e) == Flips(e[..k]) + BitCount(e[k]) + BitCount(ByteAt(e, k + 1))
  {
    if |e| == k + 2 { assert e[..k + 1][..k] == e[..k]; }
  }

  /** So the parity of an error pattern is that of the number of flipped bits. */
  lemma ParityOfError(e: seq<U8>, ec: U16)
    ensures Parity(ErrorPoly(e, ec)) == Odd(Flips(e) + BitCount(ec))
  {
    hide Add, Shl, Parity, BitCount, MessagePoly, Flips;
    ParityAdd(Shl(MessagePoly(e), 16), ec); ParityShl(MessagePoly(e), 16);
    ParityOfMessage(e); ParityOfBits(ec);
  }

  /** Any odd number of flipped bits is detected, because x + 1 divides the configured P. */
  lemma OddErrorsDetected(data: seq<U8>, c: U16, e: seq<U8>, ec: U16)
    requires |data| % 2 == 0 && |e| == |data| && IsCrc(POLY, data, c)
    requires Odd(Flips(e) + BitCount(ec))
    ensures !CheckPasses(POLY, XorBytes(data, e), XorWord(c, ec))
  {
    hide Add, Mul, Shl, MessagePoly, IsCrc, CheckPasses, Flips, BitCount;
    ParityOfError(e, ec);
    ConfiguredPoly();
    UndetectedErrors(POLY, data, c, e, ec);
    if Divides(POLY, ErrorPoly(e, ec)) {
      var q: Poly :| Mul(q, POLY) == ErrorPoly(e, ec);
      ParityMul(q, POLY);
      assert false;
    }
  }

  // ---------------------------------------------------- flipping one bit of one byte

  /** The pattern that flips bit i of byte r, and nothing else. */
  function Flip(n: nat, r: nat, i: nat): (e: seq<U8>)
    requires r < n && i < 8
    ensures |e| == n
  {
    BitInByte(i);
    seq(n, j requires 0 <= j < n => if j == r then Shl(1, i) else 0)
  }

  lemma BitInByte(i: nat)
    requires i < 8
    ensures 0 < Shl(1, i) < 256 && Len(Shl(1, i)) == i + 1
  {
    LenShl(1, i); LenByte(Shl(1, i));
  }

  lemma {:induction false} BlocksPolyOneBlock(ws: seq<U16>, q: nat)
    requires q < |ws| && forall j :: 0 <= j < |ws| && j != q ==> ws[j] == 0
    ensures BlocksPoly(ws) == Shl(ws[q], 16 * (|ws| - 1 - q))
  {
    var n := |ws| - 1;
    if q == n { BlocksPolyLeadingZeros(ws); }
    else {
      BlocksPolyOneBlock(ws[..n], q);
      ShlShl(ws[q], 16 * (n - 1 - q), 16);
    }
  }

  lemma FlipBlocks(n: nat, r: nat, i: nat, ws: seq<U16>)
    requires r < n && i < 8 && ws == Blocks(Flip(n, r, i))
    ensures r / 2 < |ws|
    ensures ws[r / 2] == if r % 2 == 0 then Shl(1, i) else 256 * Shl(1, i)
    ensures forall j :: 0 <= j < |ws| && j != r / 2 ==> ws[j] == 0
  {
    hide Shl;
    var e := Flip(n, r, i);
    forall j: nat | j < |ws|
      ensures ws[j] == LittleEndian(ByteAt(e, 2 * j), ByteAt(e, 2 * j + 1))
    {}
  }

  /** A flipped bit of the message is one coefficient of the error polynomial. */
  lemma FlipIsMonomial(n: nat, r: nat, i: nat) returns (k: nat)
    requires r < n && i < 8
    ensures MessagePoly(Flip(n, r, i)) == Shl(1, k)
  {
    hide Add, Len, Shl, BlocksPoly, Blocks, Flip;
    var ws, q := Blocks(Flip(n, r, i)), r / 2;
    var m := if r % 2 == 0 then i else i + 8;
    FlipBlocks(n, r, i, ws);
    Shl8(Shl(1, i)); ShlShl(1, i, 8);
    BlocksPolyOneBlock(ws, q);
    ShlShl(1, m, 16 * (|ws| - 1 - q));
    k := m + 16 * (|ws| - 1 - q);
  }

  /** Flipping any one bit of the message makes the check fail. */
  lemma FlippedBitDetected(data: seq<U8>, c: U16, r: nat, i: nat)
    requires |data| % 2 == 0 && IsCrc(POLY, data, c) && r < |data| && i < 8
    ensures !CheckPasses(POLY, XorBytes(data, Flip(|data|, r, i)), c)
  {
    hide Add, Mul, Divides, MessagePoly, IsCrc, CheckPasses, Flip;
    ConfiguredPoly(); PushBit(1, 0);
    var e := Flip(|data|, r, i);
    var k := FlipIsMonomial(|data|, r, i);
    ShlShl(1, k, 16); AddZero(Shl(1, k + 16)); AddZero(c);
    BurstDetected(POLY, data, c, e, 0, 1, k + 16);
  }

  /** Flipping any one bit of the checksum makes the check fail. */
  lemma FlippedChecksumDetected(data: seq<U8>, c: U16, i: nat)
    requires |data| % 2 == 0 && IsCrc(POLY, data, c) && i < 16
    ensures Shl(1, i) < 0x1_0000 && !CheckPasses(POLY, data, XorWord(c, Shl(1, i)))
  {
    hide Add, Mul, Shl, MessagePoly, IsCrc, CheckPasses;
    ConfiguredPoly();
    var f := Shl(1, i);
    LenShl(1, i); LenWord(f); ParityShl(1, i);
    AcceptsExactlyTwo(POLY, data, c, XorWord(c, f));
    AddCancel(c, f); AddCancel(c, POLY); AddIsZero(c, c); AddZero(c);
  }

  lemma {:induction false} ParityShl(a: Poly, k: nat)
    ensures Parity(Shl(a, k)) == Parity(a)
  {
    if k != 0 { ParityShl(a, k - 1); }
  }
}
