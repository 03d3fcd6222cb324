/** The buffered, streaming SHA-256 of the application. */
module Sha256 {
  import opened Sha256Spec

  /** What final() appends: like the padding of the standard, but with a 32-bit length. */
  function CodePadding(n: nat): (s: seq<bv8>)
    ensures |s| == 1 + Filler(n) + 8
  {
    [0x80] + ZeroBytes(Filler(n)) + (ZeroBytes(4) + BigEndian(8 * n % WORD, 4))
  }

  /** The digest with that padding. */
  function CodeDigest(message: seq<bv8>): (s: seq<bv8>)
    ensures |s| == 32
  {
    FillerFits(|message|);
    Output(Compress(INITIAL_HASH, message + CodePadding(|message|)))
  }

  /** The bytes of m after its last whole block. */
  function Tail(m: seq<bv8>): seq<bv8> {
    m[|m| - |m| % BLOCK..]
  }

  /** The whole blocks of m. */
  function Whole(m: seq<bv8>): (s: seq<bv8>)
    ensures Blocked(s)
  {
    assert |m| - |m| % BLOCK == BLOCK * (|m| / BLOCK);
    m[..|m| - |m| % BLOCK]
  }

  /** What the object holds once the bytes m have been passed to it. */
  ghost predicate Streamed(m: seq<bv8>, len: nat, totLen: nat, buffer: seq<bv8>, hash: Registers) {
    && len == |m| % BLOCK
    && buffer == Tail(m)
    && totLen == (|m| - len) % WORD
    && hash == Compress(INITIAL_HASH, Whole(m))
  }

  /** Lengths are 32-bit numbers. */
  const WORD := 0x1_0000_0000

  /** So many blocks have offsets that fit a signed 32-bit number. */
  const MAX_BLOCKS := 0x200_0000

  lemma OffsetsFit(blockNb: nat)
    ensures (forall i: nat :: i < blockNb ==> 64 * i < 0x8000_0000) <==> blockNb <= MAX_BLOCKS
  {
    if blockNb > MAX_BLOCKS { assert !(64 * MAX_BLOCKS < 0x8000_0000); }
  }

  /**
    The piece d can be added to message m: after the buffered block come no more blocks than
    there are offsets for, or none at all because the sum of the lengths wraps around.
   */
  predicate Addressed(m: seq<bv8>, d: seq<bv8>) {
    var sum := |m| % BLOCK + |d|;
    |d| < WORD && (sum < BLOCK * (MAX_BLOCKS + 2) || sum >= WORD)
  }

  /**
    What becomes of message m when the piece d is added: it is appended, unless the length of d
    makes the sum with the buffered length wrap around; then the end of m gets lost instead.
   */
  function Fed(m: seq<bv8>, d: seq<bv8>): seq<bv8>
    requires Addressed(m, d)
  {
    if |m| % BLOCK + |d| < WORD then m + d else m[..|m| - (WORD - |d|)]
  }

  /** Update appends if and only if the piece ends within the offsets. */
  lemma FedIsAppended(m: seq<bv8>, d: seq<bv8>)
    requires Addressed(m, d)
    ensures Fed(m, d) == m + d <==> |m| % BLOCK + |d| < 0x8000_0080
  {
    if |m| % BLOCK + |d| >= WORD { assert |Fed(m, d)| < |m|; }
  }

  /** memcpy into an array. */
  method CopyInto(a: array<bv8>, offset: nat, s: seq<bv8>)
    requires offset + |s| <= a.Length
    modifies a
    ensures a[..offset + |s|] == old(a[..offset]) + s
    ensures a[offset + |s|..] == old(a[offset + |s|..])
  {
    forall i | 0 <= i < |s| {
      a[offset + i] := s[i];
    }
  }

  /** Fills the buffer from len to pmLen with the padding. */
  method PadBuffer(a: array<bv8>, len: nat, pmLen: nat, lengthBytes: seq<bv8>)
    requires len + 5 <= pmLen <= a.Length && |lengthBytes| == 4
    modifies a
    ensures a[..pmLen] == old(a[..len]) + [0x80] + ZeroBytes(pmLen - len - 5) + lengthBytes
  {
    ghost var tail := a[..len];
    CopyInto(a, len, ZeroBytes(pmLen - len));
    assert forall i :: len <= i < pmLen ==> a[len..pmLen][i - len] == a[i] == 0;
    a[len] := 0x80;
    assert a[..pmLen - 4] == tail + [0x80] + ZeroBytes(pmLen - len - 5);
    CopyInto(a, pmLen - 4, lengthBytes);
    assert a[..pmLen] == a[..pmLen - 4] + a[pmLen - 4..pmLen];
  }

  /** The message schedule of a block. */
  method ScheduleWords(block: seq<bv8>) returns (w: array<bv32>)
    requires |block| == BLOCK
    ensures fresh(w) && w.Length == 64 && forall t: nat :: t < 64 ==> w[t] == Schedule(block, t)
  {
    hide Rotr, SmallSigma0, SmallSigma1, Pack, Add32;
    w := new bv32[64];
    for j := 0 to 16
      invariant forall t: nat :: t < j ==> w[t] == Schedule(block, t)
    {
      w[j] := Pack(block[4 * j], block[4 * j + 1], block[4 * j + 2], block[4 * j + 3]);
    }
    for j := 16 to 64
      invariant forall t: nat :: t < j ==> w[t] == Schedule(block, t)
    {
      w[j] := Add32(Add32(Add32(SmallSigma1(w[j - 2]), w[j - 7]), SmallSigma0(w[j - 15])), w[j - 16]);
    }
  }

  ghost function Regs(a: array<bv32>): Registers
    reads a
    requires a.Length == 8
  {
    Registers(a[0], a[1], a[2], a[3], a[4], a[5], a[6], a[7])
  }

  /** The 64 rounds on the working variables. */
  method DoRounds(block: seq<bv8>, w: array<bv32>, wv: array<bv32>)
    requires |block| == BLOCK && w.Length == 64 && wv.Length == 8 && w != wv
    requires forall t: nat :: t < 64 ==> w[t] == Schedule(block, t)
    modifies wv
    ensures Regs(wv) == Rounds(old(Regs(wv)), block, 64)
  {
    hide Rotr, Ch, Maj, BigSigma0, BigSigma1, KAt, Schedule, Add32;
    ghost var r := Regs(wv);
    for j := 0 to 64
      invariant Regs(wv) == Rounds(r, block, j)
      invariant forall t: nat :: t < 64 ==> w[t] == Schedule(block, t)
    {
      var t1 := Add32(Add32(Add32(Add32(wv[7], BigSigma1(wv[4])), Ch(wv[4], wv[5], wv[6])), KAt(j)), w[j]);
      var t2 := Add32(BigSigma0(wv[0]), Maj(wv[0], wv[1], wv[2]));
      ghost var before := Regs(wv);
      wv[7] := wv[6];
      wv[6] := wv[5];
      wv[5] := wv[4];
      wv[4] := Add32(wv[3], t1);
      wv[3] := wv[2];
      wv[2] := wv[1];
      wv[1] := wv[0];
      wv[0] := Add32(t1, t2);
      assert Regs(wv) == Round(before, KAt(j), Schedule(block, j));
    }
  }

  /** Adds the working variables to the hash. */
  method AddRegisters(h: array<bv32>, wv: array<bv32>)
    requires h.Length == 8 && wv.Length == 8 && h != wv
    modifies h
    ensures Regs(h) == Plus(old(Regs(h)), Regs(wv))
  {
    hide Add32;
    for j := 0 to 8
      invariant forall k :: 0 <= k < j ==> h[k] == Add32(old(h[k]), wv[k])
      invariant forall k :: j <= k < 8 ==> h[k] == old(h[k])
    {
      h[j] := Add32(h[j], wv[j]);
    }
  }

  class Sha256 {
    const mH: array<bv32>
    const mBlock: array<bv8>
    var mLen: nat
    var mTotLen: nat
    ghost var message: seq<bv8>  // what the object stands for

    ghost function Hash(): Registers
      reads this, mH
      requires mH.Length == 8
    {
      Regs(mH)
    }

    ghost predicate Shape()
      reads this
    {
      mH.Length == 8 && mBlock.Length == 2 * BLOCK
    }

    ghost predicate Valid()
      reads this, mH, mBlock
    {
      && Shape()
      && mLen < BLOCK
      && Streamed(message, mLen, mTotLen, mBlock[..mLen], Hash())
    }

    constructor ()
      ensures Shape() && fresh(mH) && fresh(mBlock)
    {
      mH := new bv32[8];
      mBlock := new bv8[2 * BLOCK];
    }

    method Init()
      requires Shape()
      modifies this, mH
      ensures Valid() && message == [] && mLen == 0
    {
      hide Streamed;
      mH[0] := 0x6a09e667;
      mH[1] := 0xbb67ae85;
      mH[2] := 0x3c6ef372;
      mH[3] := 0xa54ff53a;
      mH[4] := 0x510e527f;
      mH[5] := 0x9b05688c;
      mH[6] := 0x1f83d9ab;
      mH[7] := 0x5be0cd19;
      mLen := 0;
      mTotLen := 0;
      message := [];
      StreamedNothing();
    }

    /** Compresses blockNb blocks into the hash; they are addressed by signed 32-bit offsets. */
    method Transform(data: seq<bv8>, blockNb: nat)
      requires Shape() && |data| >= BLOCK * blockNb && blockNb <= MAX_BLOCKS
      modifies mH
      ensures Blocked(data[..BLOCK * blockNb]) && Hash() == Compress(old(Hash()), data[..BLOCK * blockNb])
    {
      hide Compress, CompressBlock, Blocked;
      ghost var start := Hash();
      assert data[..BLOCK * 0] == [];
      CompressNothing(start);
      for i := 0 to blockNb
        invariant Blocked(data[..BLOCK * i]) && Hash() == Compress(start, data[..BLOCK * i])
      {
        var block := data[BLOCK * i..BLOCK * i + BLOCK];
        TransformBlock(block);
        CompressSnoc(start, data[..BLOCK * i], block);
        assert data[..BLOCK * i] + block == data[..BLOCK * (i + 1)];
      }
    }

    /** The body of the loop over the blocks. */
    method TransformBlock(block: seq<bv8>)
      requires Shape() && |block| == BLOCK
      modifies mH
      ensures Hash() == CompressBlock(old(Hash()), block)
    {
      hide Rounds, Schedule, Add32;
      var w := ScheduleWords(block);
      var wv := new bv32[8];
      for j := 0 to 8
        modifies wv
        invariant forall k :: 0 <= k < j ==> wv[k] == mH[k]
      {
        wv[j] := mH[j];
      }
      assert Regs(wv) == Hash();
      DoRounds(block, w, wv);
      AddRegisters(mH, wv);
    }

    /** Adds a piece of the message; its length is a 32-bit number, and so is its sum with the buffered length. */
    method Update(data: seq<bv8>)
      requires Valid() && Addressed(message, data)
      modifies this, mH, mBlock
      ensures Valid() && message == Fed(old(message), data)
    {
      hide Streamed, Compress, Blocked, Fed;
      StreamedLength(message, mLen, mTotLen, mBlock[..mLen], Hash());
      var tmpLen := BLOCK - mLen;
      var remLen := if |data| < tmpLen then |data| else tmpLen;
      ghost var was, len, tot, before, hash := message, mLen, mTotLen, mBlock[..mLen], Hash();
      CopyInto(mBlock, mLen, data[..remLen]);
      message := Fed(message, data);
      FedIsAppended(was, data);
      var sum := if mLen + |data| < WORD then mLen + |data| else mLen + |data| - WORD;
      if sum < BLOCK {
        EarlyPiece(was, len, tot, before, hash, data, sum);
        assert mBlock[..sum] == mBlock[..mLen + remLen][..sum];
        mLen := sum;
        return;
      }
      var rest := data[remLen..];
      CompressPiece(rest);
      LargePiece(was, len, tot, before, hash, data, |rest| / BLOCK);
    }

    /** The end of update: compresses the full buffer and the whole blocks of what follows, and buffers the rest. */
    method CompressPiece(shifted: seq<bv8>)
      requires Shape() && |shifted| / BLOCK <= MAX_BLOCKS
      modifies this`mLen, this`mTotLen, mH, mBlock
      ensures var blockNb := |shifted| / BLOCK; var blocks := shifted[..BLOCK * blockNb];
        && Blocked(old(mBlock[..BLOCK])) && Blocked(blocks)
        && Hash() == Compress(Compress(old(Hash()), old(mBlock[..BLOCK])), blocks)
        && mLen == |shifted| % BLOCK && mBlock[..mLen] == shifted[BLOCK * blockNb..]
        && mTotLen == (old(mTotLen) + (blockNb + 1) * BLOCK) % WORD
    {
      hide Compress, Blocked;
      var blockNb := |shifted| / BLOCK;
      Transform(mBlock[..], 1);
      assert mBlock[..][..BLOCK * 1] == mBlock[..BLOCK];
      Transform(shifted, blockNb);
      mLen := |shifted| % BLOCK;
      CopyInto(mBlock, 0, shifted[BLOCK * blockNb..]);
      mTotLen := (mTotLen + (blockNb + 1) * BLOCK) % WORD;
    }

    /** Pads what is left, compresses it and delivers the digest. */
    method Final() returns (digest: seq<bv8>)
      requires Valid()
      modifies mH, mBlock
      ensures |digest| == 32 && digest == CodeDigest(message)
    {
      hide Compress, Unpack, Streamed, Blocked, CodeDigest, BigEndian;
      var blockNb := if BLOCK - 9 < mLen % BLOCK then 2 else 1;
      var lenB := (mTotLen + mLen) % WORD * 8 % WORD;
      var pmLen := blockNb * BLOCK;
      ghost var tail, hash := mBlock[..mLen], Hash();
      PadBuffer(mBlock, mLen, pmLen, BigEndian(lenB, 4));
      assert mBlock[..][..BLOCK * blockNb] == LastBlocks(tail, blockNb, lenB);
      Transform(mBlock[..], blockNb);
      FinalBlocks(message, mLen, mTotLen, tail, hash, blockNb, lenB);
      digest := Unpack(mH[0]) + Unpack(mH[1]) + Unpack(mH[2]) + Unpack(mH[3])
              + Unpack(mH[4]) + Unpack(mH[5]) + Unpack(mH[6]) + Unpack(mH[7]);
    }
  }

  // -------------------------------------------------------------------- lemmas

  /** The position of the last block boundary. */
  lemma Boundary(n: nat, q: nat, m: nat)
    requires n == BLOCK * q + m && m < BLOCK
    ensures n % BLOCK == m
  {}

  lemma StreamedNothing()
    ensures Streamed([], 0, 0, [], INITIAL_HASH)
  {
    CompressNothing(INITIAL_HASH);
  }

  /** A piece that does not complete the buffered block. */
  lemma SmallPiece(was: seq<bv8>, len: nat, tot: nat, buffer: seq<bv8>, hash: Registers, data: seq<bv8>)
    requires Streamed(was, len, tot, buffer, hash) && len + |data| < BLOCK
    ensures Streamed(was + data, len + |data|, tot, buffer + data, hash)
  {
    hide Compress;
    Boundary(|was| + |data|, |was| / BLOCK, len + |data|);
    assert Whole(was + data) == Whole(was);
    assert Tail(was + data) == Tail(was) + data;
  }

  lemma StreamedLength(m: seq<bv8>, len: nat, tot: nat, buffer: seq<bv8>, hash: Registers)
    requires Streamed(m, len, tot, buffer, hash)
    ensures len == |m| % BLOCK
  {}

  /** A piece so long that the sum wraps around: only the number of buffered bytes changes. */
  lemma WrappedPiece(was: seq<bv8>, len: nat, tot: nat, buffer: seq<bv8>, hash: Registers, data: seq<bv8>)
    requires Streamed(was, len, tot, buffer, hash) && |data| < WORD <= len + |data| && Addressed(was, data)
    ensures var k := WORD - |data|;
      k <= len && |buffer| == len && Streamed(Fed(was, data), len - k, tot, buffer[..len - k], hash)
  {
    hide Compress;
    var k := WORD - |data|;
    var m := was[..|was| - k];
    assert Fed(was, data) == m;
    Boundary(|m|, |was| / BLOCK, len - k);
    assert Whole(m) == Whole(was);
    assert Tail(m) == Tail(was)[..len - k];
  }

  /** A piece after which nothing is compressed, because the 32-bit sum is less than a block. */
  lemma EarlyPiece(was: seq<bv8>, len: nat, tot: nat, buffer: seq<bv8>, hash: Registers, data: seq<bv8>, sum: nat)
    requires Streamed(was, len, tot, buffer, hash) && |buffer| == len < BLOCK && Addressed(was, data)
    requires sum == (if len + |data| < WORD then len + |data| else len + |data| - WORD) && sum < BLOCK
    ensures var rem := if |data| < BLOCK - len then |data| else BLOCK - len;
      sum <= len + rem && Streamed(Fed(was, data), sum, tot, (buffer + data[..rem])[..sum], hash)
  {
    hide Streamed, Compress, Fed;
    var rem := if |data| < BLOCK - len then |data| else BLOCK - len;
    if len + |data| < WORD {
      assert (buffer + data[..rem])[..sum] == buffer + data;
      SmallPiece(was, len, tot, buffer, hash, data);
      StreamedLength(was, len, tot, buffer, hash);
      FedIsAppended(was, data);
    } else {
      assert (buffer + data[..rem])[..sum] == buffer[..sum];
      WrappedPiece(was, len, tot, buffer, hash, data);
    }
  }

  /** A piece that completes the buffered block: that block, then nb whole blocks, then a new tail. */
  lemma LargePiece(was: seq<bv8>, len: nat, tot: nat, buffer: seq<bv8>, hash: Registers, data: seq<bv8>, nb: nat)
    requires Streamed(was, len, tot, buffer, hash)
    requires len < BLOCK <= len + |data| && nb == (len + |data| - BLOCK) / BLOCK
    ensures var rest := data[BLOCK - len..];
      var full, blocks := buffer + data[..BLOCK - len], rest[..BLOCK * nb];
      && Blocked(full) && Blocked(blocks)
      && Streamed(was + data, |rest| % BLOCK, (tot + (nb + 1) * BLOCK) % WORD, rest[BLOCK * nb..],
                  Compress(Compress(hash, full), blocks))
  {
    hide Compress;
    var rem := BLOCK - len;
    LargePieceSplit(was, data, rem, nb);
    var rest := data[rem..];
    assert rest[..BLOCK * nb] == data[rem..rem + BLOCK * nb] && rest[BLOCK * nb..] == data[rem + BLOCK * nb..];
    CompressThree(Whole(was), Tail(was) + data[..rem], data[rem..rem + BLOCK * nb]);
    assert |was| + |data| - |rest| % BLOCK == |was| - len + (nb + 1) * BLOCK;
    WrappingSum(|was| - len, (nb + 1) * BLOCK);
  }

  lemma WrappingSum(x: nat, y: nat)
    ensures (x % WORD + y) % WORD == (x + y) % WORD
  {
    var q, p := x / WORD, (x % WORD + y) / WORD;
    assert x + y == WORD * (q + p) + (x % WORD + y) % WORD;
  }

  /** The bit length survives the two 32-bit counters, modulo 2^32. */
  lemma LengthBits(n: nat, len: nat, tot: nat)
    requires len <= n && tot == (n - len) % WORD
    ensures (tot + len) % WORD * 8 % WORD == 8 * n % WORD
  {
    var q := (n - len) / WORD;
    var p, r := (tot + len) / WORD, (tot + len) % WORD;
    assert n - len == tot + WORD * q && tot + len == r + WORD * p;
    WordsVanish(8 * r, 8 * (q + p));
    assert 8 * n == 8 * r + WORD * (8 * (q + p));
  }

  lemma WordsVanish(x: nat, k: nat)
    ensures (x + WORD * k) % WORD == x % WORD
  {}

  /** The last one or two blocks complete the padded message. */
  lemma FinalBlocks(m: seq<bv8>, len: nat, tot: nat, tail: seq<bv8>, hash: Registers, nb: nat, lenB: nat)
    requires Streamed(m, len, tot, tail, hash)
    requires nb == (if BLOCK - 9 < len then 2 else 1) && |tail| == len
    requires lenB == (tot + len) % WORD * 8 % WORD
    ensures Blocked(LastBlocks(tail, nb, lenB)) && CodeDigest(m) == Output(Compress(hash, LastBlocks(tail, nb, lenB)))
  {
    hide Compress, Output, Blocked, LastBlocks, CodePadding;
    FillerFits(|m|);
    LengthBits(|m|, len, tot);
    LastBlocksArePadded(m, nb, lenB);
    var s := LastBlocks(tail, nb, lenB);
    CompressConcat(INITIAL_HASH, Whole(m), s);
    assert m == Whole(m) + Tail(m);
    assert m + CodePadding(|m|) == Whole(m) + s;
  }

  /** What the buffer holds when it is compressed for the last time. */
  function LastBlocks(tail: seq<bv8>, nb: nat, lenB: nat): seq<bv8>
    requires |tail| + 5 <= BLOCK * nb
  {
    tail + [0x80] + ZeroBytes(BLOCK * nb - |tail| - 5) + BigEndian(lenB, 4)
  }

  lemma LastBlocksArePadded(m: seq<bv8>, nb: nat, lenB: nat)
    requires nb == (if BLOCK - 9 < |m| % BLOCK then 2 else 1) && lenB == 8 * |m| % WORD
    ensures Blocked(LastBlocks(Tail(m), nb, lenB)) && LastBlocks(Tail(m), nb, lenB) == Tail(m) + CodePadding(|m|)
  {
    hide BigEndian, ZeroBytes, Filler;
    var z := Filler(|m|);
    assert z == BLOCK * nb - |Tail(m)| - 9 by {
      hide CodePadding, LastBlocks;
      FillerFits(|m|);
    }
    PaddingJoined(Tail(m), z, BigEndian(lenB, 4));
    Boundary(BLOCK * nb, nb, 0);
  }

  lemma PaddingJoined(tail: seq<bv8>, z: nat, length: seq<bv8>)
    ensures tail + [0x80] + ZeroBytes(z + 4) + length == tail + ([0x80] + ZeroBytes(z) + (ZeroBytes(4) + length))
  {
    assert ZeroBytes(z) + ZeroBytes(4) == ZeroBytes(z + 4);
  }

  lemma CompressThree(a: seq<bv8>, b: seq<bv8>, c: seq<bv8>)
    requires Blocked(a) && Blocked(b) && Blocked(c)
    ensures Blocked(a + (b + c)) &&
      Compress(INITIAL_HASH, a + (b + c)) == Compress(Compress(Compress(INITIAL_HASH, a), b), c)
  {
    hide Compress, Blocked;
    CompressConcat(Compress(INITIAL_HASH, a), b, c);
    CompressConcat(INITIAL_HASH, a, b + c);
  }

  lemma LargePieceSplit(was: seq<bv8>, data: seq<bv8>, rem: nat, nb: nat)
    requires rem <= |data| && |was| % BLOCK + rem == BLOCK && nb == (|data| - rem) / BLOCK
    ensures (|was| + |data|) % BLOCK == (|data| - rem) % BLOCK
    ensures |data| >= rem + BLOCK * nb && Tail(was + data) == data[rem + BLOCK * nb..]
    ensures Blocked(Tail(was) + data[..rem]) && Blocked(data[rem..rem + BLOCK * nb])
    ensures Whole(was + data) == Whole(was) + ((Tail(was) + data[..rem]) + data[rem..rem + BLOCK * nb])
  {
    var m := (|data| - rem) % BLOCK;
    Boundary(|was| + |data|, |was| / BLOCK + 1 + nb, m);
    Boundary(BLOCK * nb, nb, 0);
    assert |data| - rem == BLOCK * nb + m;
    assert Tail(was + data) == data[rem + BLOCK * nb..];
  }

  // ---------------------------------------------- agreement with the standard

  /** The four low-order bytes of v, most significant first. */
  function LowBytes(v: nat): (s: seq<bv8>)
    ensures |s| == 4
  {
    [LowByte(v / 0x100_0000), LowByte(v / 0x1_0000), LowByte(v / 0x100), LowByte(v)]
  }

  lemma BigEndianLow(v: nat, k: nat)
    ensures BigEndian(v, k + 4) == BigEndian(v / WORD, k) + LowBytes(v)
  {
    hide LowByte;
    assert BigEndian(v, k + 4) == BigEndian(v / 0x100, k + 3) + [LowByte(v)];
    assert v / 0x100 / 0x100 == v / 0x1_0000 && v / 0x1_0000 / 0x100 == v / 0x100_0000;
    assert BigEndian(v / 0x100, k + 3) == BigEndian(v / 0x1_0000, k + 2) + [LowByte(v / 0x100)];
    assert BigEndian(v / 0x1_0000, k + 2) == BigEndian(v / 0x100_0000, k + 1) + [LowByte(v / 0x1_0000)];
    assert v / 0x100_0000 / 0x100 == v / WORD;
    assert BigEndian(v / 0x100_0000, k + 1) == BigEndian(v / WORD, k) + [LowByte(v / 0x100_0000)];
  }

  lemma BigEndianNone(v: nat)
    ensures BigEndian(v, 0) == []
  {}

  lemma LowByteZero(v: nat)
    ensures LowByte(v) == 0 <==> v % 256 == 0
  {}

  lemma SameLowByte(v: nat, w: nat)
    requires v % 256 == w % 256
    ensures LowByte(v) == LowByte(w)
  {}

  /** Dropping the high half does not change a low byte. */
  lemma LowHalf(v: nat, d: nat, f: nat)
    requires d > 0 && d * (256 * f) == WORD
    ensures v / d % 256 == v % WORD / d % 256
  {
    var q, w := v / WORD, v % WORD;
    assert v == WORD * q + w;
    Regroup(d, f, q);
    ShiftedSum(d, 256 * (f * q), w);
    ModMultiple(f * q, w / d);
  }

  lemma Regroup(d: nat, f: nat, q: nat)
    ensures d * (256 * f) * q == d * (256 * (f * q))
  {
    assert (256 * f) * q == 256 * (f * q);
  }

  lemma ModMultiple(k: nat, x: nat)
    ensures (256 * k + x) % 256 == x % 256
  {}

  lemma ShiftedSum(d: nat, k: nat, w: nat)
    requires d > 0
    ensures (d * k + w) / d == k + w / d
  {
    assert d * (k + w / d) == d * k + d * (w / d);
    var gap: int := (d * k + w) / d - (k + w / d);
    assert d * gap == d * ((d * k + w) / d) - d * (k + w / d);
    MultipleGap(d, gap);
  }

  lemma MultipleGap(d: nat, k: int)
    ensures k >= 1 ==> d * k >= d
    ensures k <= -1 ==> d * k + d <= 0
  {}

  /** Eight bytes are two groups of four. */
  lemma BigEndianSplit(v: nat)
    ensures BigEndian(v, 8) == LowBytes(v / WORD) + LowBytes(v)
    ensures BigEndian(v % WORD, 4) == LowBytes(v)
  {
    hide LowByte, BigEndian;
    BigEndianLow(v, 4);
    BigEndianNone(v / WORD / WORD);
    BigEndianNone(0);
    BigEndianLow(v / WORD, 0);
    var w := v % WORD;
    BigEndianLow(w, 0);
    LowHalf(v, 1, 0x100_0000);
    LowHalf(v, 0x100, 0x1_0000);
    LowHalf(v, 0x1_0000, 0x100);
    LowHalf(v, 0x100_0000, 1);
    SameLowByte(v, w);
    SameLowByte(v / 0x100, w / 0x100);
    SameLowByte(v / 0x1_0000, w / 0x1_0000);
    SameLowByte(v / 0x100_0000, w / 0x100_0000);
  }

  /** A four-byte number is zero exactly when all its bytes are. */
  lemma LowBytesZero(v: nat)
    requires v < WORD
    ensures LowBytes(v) == ZeroBytes(4) <==> v == 0
  {
    hide LowByte;
    LowByteZero(v);
    LowByteZero(v / 0x100);
    LowByteZero(v / 0x1_0000);
    LowByteZero(v / 0x100_0000);
    assert LowBytes(v) == ZeroBytes(4) <==> LowBytes(v) == [0, 0, 0, 0];
  }

  /** The 32-bit length field agrees with the 64-bit one for messages below 2^29 bytes, and for no longer one. */
  lemma PaddingAgrees(n: nat)
    requires n < 0x2000_0000_0000_0000
    ensures CodePadding(n) == Padding(n) <==> n < 0x2000_0000
  {
    hide BigEndian, LowBytes;
    var v := 8 * n;
    BigEndianSplit(v);
    LowBytesZero(v / WORD);
    var front, high, low := [0x80] + ZeroBytes(Filler(n)), LowBytes(v / WORD), LowBytes(v);
    assert CodePadding(n) == front + ZeroBytes(4) + low;
    assert Padding(n) == front + high + low;
    assert (front + high + low)[|front|..|front| + 4] == high;
    assert (front + ZeroBytes(4) + low)[|front|..|front| + 4] == ZeroBytes(4);
  }

  /** Below 2^29 bytes the code delivers the digest of the standard. */
  lemma DigestAgrees(message: seq<bv8>)
    requires |message| < 0x2000_0000
    ensures CodeDigest(message) == Digest(message)
  {
    hide Compress, Output, CodePadding, Padding;
    PaddingAgrees(|message|);
    FillerFits(|message|);
  }

  // -------------------------------------------------------- sequences of calls

  function Concat(chunks: seq<seq<bv8>>): seq<bv8> {
    if chunks == [] then [] else Concat(chunks[..|chunks| - 1]) + chunks[|chunks| - 1]
  }

  /** What a sequence of updates makes of the empty message. */
  function FedAll(chunks: seq<seq<bv8>>): seq<bv8>
    requires AllAddressed(chunks)
    decreases |chunks|, 1
  {
    if chunks == [] then [] else Fed(FedAll(chunks[..|chunks| - 1]), chunks[|chunks| - 1])
  }

  /** Each chunk can be added to what the ones before it have made. */
  predicate AllAddressed(chunks: seq<seq<bv8>>)
    decreases |chunks|, 0
  {
    var n := |chunks| - 1;
    chunks == [] || (AllAddressed(chunks[..n]) && Addressed(FedAll(chunks[..n]), chunks[n]))
  }

  /** No chunk of a short enough sequence is too long. */
  lemma {:induction false} ChunkWithin(chunks: seq<seq<bv8>>, c: seq<bv8>)
    requires c in chunks
    ensures |c| <= |Concat(chunks)|
  {
    if c != chunks[|chunks| - 1] { ChunkWithin(chunks[..|chunks| - 1], c); }
  }

  /** Chunks up to this length can be added to anything, and are appended. */
  predicate Moderate(chunks: seq<seq<bv8>>) {
    forall c :: c in chunks ==> |c| <= 0x8000_0040
  }

  lemma {:induction false} FedAllIsConcat(chunks: seq<seq<bv8>>)
    requires Moderate(chunks)
    ensures AllAddressed(chunks) && FedAll(chunks) == Concat(chunks)
  {
    if chunks != [] {
      assert chunks[|chunks| - 1] in chunks;
      FedAllIsConcat(chunks[..|chunks| - 1]);
    }
  }

  /**
    init, then an update per chunk, then final.  Only the concatenation matters for chunks of
    moderate length, and below 2^29 bytes in all it is the standard's digest.
   */
  method DigestOfChunks(chunks: seq<seq<bv8>>) returns (digest: seq<bv8>)
    requires AllAddressed(chunks)
    ensures digest == CodeDigest(FedAll(chunks))
    ensures Moderate(chunks) ==> digest == CodeDigest(Concat(chunks))
    ensures |Concat(chunks)| < 0x2000_0000 ==> digest == Digest(Concat(chunks))
  {
    hide CodeDigest, Digest, Fed, Addressed;
    var ctx := new Sha256();
    ctx.Init();
    AddressedSoFar(chunks, |chunks|);
    assert chunks[..|chunks|] == chunks;
    for i := 0 to |chunks|
      invariant fresh(ctx) && fresh(ctx.mH) && fresh(ctx.mBlock)
      invariant AllAddressed(chunks[..i]) && ctx.Valid() && ctx.message == FedAll(chunks[..i])
    {
      AddressedSoFar(chunks, i + 1);
      assert chunks[..i + 1][..i] == chunks[..i];
      ctx.Update(chunks[i]);
    }
    digest := ctx.Final();
    ChunksAgree(chunks);
  }

  lemma {:induction false} AddressedSoFar(chunks: seq<seq<bv8>>, i: nat)
    requires AllAddressed(chunks) && i <= |chunks|
    ensures AllAddressed(chunks[..i])
  {
    hide Addressed;
    if i == |chunks| {
      assert chunks[..i] == chunks;
    } else {
      AddressedSoFar(chunks[..|chunks| - 1], i);
      assert chunks[..|chunks| - 1][..i] == chunks[..i];
    }
  }

  lemma ChunksAgree(chunks: seq<seq<bv8>>)
    requires AllAddressed(chunks)
    ensures Moderate(chunks) ==> FedAll(chunks) == Concat(chunks)
    ensures |Concat(chunks)| < 0x2000_0000 ==> CodeDigest(FedAll(chunks)) == Digest(Concat(chunks))
  {
    hide CodeDigest, Digest, Fed, FedAll, Concat, AllAddressed;
    if |Concat(chunks)| < 0x2000_0000 {
      forall c | c in chunks ensures |c| <= 0x8000_0040 { ChunkWithin(chunks, c); }
      DigestAgrees(Concat(chunks));
    }
    if Moderate(chunks) { FedAllIsConcat(chunks); }
  }

  // -------------------------------------------------------------- hexadecimal

  const DIGITS := "0123456789abcdef"

  function ByteValue(b: bv8): (v: nat)
    ensures v < 256
  {
    b as nat
  }

  lemma ByteValueInjective(a: bv8, b: bv8)
    requires ByteValue(a) == ByteValue(b)
    ensures a == b
  {
    assert ByteValue(a) as bv8 == a && ByteValue(b) as bv8 == b;
  }

  /** One byte as two lower-case digits. */
  function HexByte(b: bv8): (h: string)
    ensures |h| == 2
  {
    [DIGITS[ByteValue(b) / 16], DIGITS[ByteValue(b) % 16]]
  }

  lemma HexByteInjective(a: bv8, b: bv8)
    requires HexByte(a) == HexByte(b)
    ensures a == b
  {
    hide ByteValue;
    DigitsDistinct(ByteValue(a) / 16, ByteValue(b) / 16);
    DigitsDistinct(ByteValue(a) % 16, ByteValue(b) % 16);
    ByteValueInjective(a, b);
  }

  lemma DigitsDistinct(i: nat, j: nat)
    requires i < 16 && j < 16 && DIGITS[i] == DIGITS[j]
    ensures i == j
  {}

  function Hex(s: seq<bv8>): (h: string)
    ensures |h| == 2 * |s|
  {
    if s == [] then "" else Hex(s[..|s| - 1]) + HexByte(s[|s| - 1])
  }

  /** Different digests print differently. */
  lemma {:induction false} HexInjective(s: seq<bv8>, t: seq<bv8>)
    requires Hex(s) == Hex(t)
    ensures s == t
  {
    hide HexByte;
    assert |Hex(s)| == |Hex(t)|;
    if s != [] {
      var k := |s| - 1;
      assert Hex(s)[..2 * k] == Hex(s[..k]) && Hex(t)[..2 * k] == Hex(t[..k]);
      HexInjective(s[..k], t[..k]);
      assert Hex(s)[2 * k..] == HexByte(s[k]) && Hex(t)[2 * k..] == HexByte(t[k]);
      HexByteInjective(s[k], t[k]);
      assert s == s[..k] + [s[k]] && t == t[..k] + [t[k]];
    }
  }

  /** The value of a lower-case hexadecimal digit. */
  function DigitValue(c: char): (v: nat) {
    if '0' <= c <= '9' then c as nat - '0' as nat else if 'a' <= c <= 'f' then c as nat - 'a' as nat + 10 else 16
  }

  lemma DigitIsValue(i: nat)
    requires i < 16
    ensures DigitValue(DIGITS[i]) == i
  {}

  /** The digits of a digest are read back as its bytes, the higher digit first. */
  lemma {:induction false} HexReadBack(s: seq<bv8>, k: nat)
    requires k < |s|
    ensures DigitValue(Hex(s)[2 * k]) < 16 && DigitValue(Hex(s)[2 * k + 1]) < 16
    ensures DigitValue(Hex(s)[2 * k]) * 16 + DigitValue(Hex(s)[2 * k + 1]) == s[k] as nat
  {
    hide DigitValue;
    var n := |s| - 1;
    if k == n {
      DigitIsValue(ByteValue(s[k]) / 16); DigitIsValue(ByteValue(s[k]) % 16);
      assert Hex(s)[2 * n..] == HexByte(s[k]);
    } else {
      HexReadBack(s[..n], k);
      assert Hex(s)[..2 * n] == Hex(s[..n]);
    }
  }

  method PrintHex(digest: seq<bv8>) returns (h: string)
    ensures h == Hex(digest)
  {
    hide HexByte;
    h := "";
    for i := 0 to |digest|
      invariant h == Hex(digest[..i])
    {
      h := h + HexByte(digest[i]);
      assert digest[..i + 1][..i] == digest[..i];
    }
    assert digest[..|digest|] == digest;
  }

  /** The part of a string that is hashed: its length is passed on as 32 bits. */
  function Hashed(input: seq<bv8>): (s: seq<bv8>)
    ensures |s| == |input| % WORD
    ensures |input| < WORD ==> s == input
  {
    input[..|input| % WORD]
  }

  /** The digest of a string as the application uses it. */
  method Sha256Hex(input: seq<bv8>) returns (h: string)
    requires |input| % WORD < BLOCK * (MAX_BLOCKS + 2)
    ensures |h| == 64 && h == Hex(CodeDigest(Hashed(input)))
    ensures |input| < 0x2000_0000 ==> h == Hex(Digest(input))
  {
    hide CodeDigest, Digest, Hex, Hashed, Compress, Streamed, Fed;
    var ctx := new Sha256();
    ctx.Init();
    ctx.Update(Hashed(input));
    FedIsAppended([], Hashed(input));
    assert [] + Hashed(input) == Hashed(input);
    var digest := ctx.Final();
    h := PrintHex(digest);
    if |input| < 0x2000_0000 { DigestAgrees(input); }
  }
}
