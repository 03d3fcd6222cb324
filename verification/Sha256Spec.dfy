/** SHA-256 as the one-shot definition of sections 5.1.1 and 6.2.2 of FIPS 180-4. */
module Sha256Spec {

  const BLOCK := 64

  // ------------------------------------------------------- functions on words

  function Rotr(x: bv32, n: nat): bv32
    requires n <= 32
  {
    (x >> n) | (x << (32 - n))
  }

  /** Addition modulo 2^32. */
  function Add32(x: bv32, y: bv32): bv32 { x + y }

  function Ch(x: bv32, y: bv32, z: bv32): bv32 { (x & y) ^ (!x & z) }
  function Maj(x: bv32, y: bv32, z: bv32): bv32 { (x & y) ^ (x & z) ^ (y & z) }
  function BigSigma0(x: bv32): bv32 { Rotr(x, 2) ^ Rotr(x, 13) ^ Rotr(x, 22) }
  function BigSigma1(x: bv32): bv32 { Rotr(x, 6) ^ Rotr(x, 11) ^ Rotr(x, 25) }
  function SmallSigma0(x: bv32): bv32 { Rotr(x, 7) ^ Rotr(x, 18) ^ (x >> 3) }
  function SmallSigma1(x: bv32): bv32 { Rotr(x, 17) ^ Rotr(x, 19) ^ (x >> 10) }

  /** The round constants, four to a row. */
  const ROUND_CONSTANTS: seq<seq<bv32>> := [
    [0x428a2f98, 0x71374491, 0xb5c0fbcf, 0xe9b5dba5],
    [0x3956c25b, 0x59f111f1, 0x923f82a4, 0xab1c5ed5],
    [0xd807aa98, 0x12835b01, 0x243185be, 0x550c7dc3],
    [0x72be5d74, 0x80deb1fe, 0x9bdc06a7, 0xc19bf174],
    [0xe49b69c1, 0xefbe4786, 0x0fc19dc6, 0x240ca1cc],
    [0x2de92c6f, 0x4a7484aa, 0x5cb0a9dc, 0x76f988da],
    [0x983e5152, 0xa831c66d, 0xb00327c8, 0xbf597fc7],
    [0xc6e00bf3, 0xd5a79147, 0x06ca6351, 0x14292967],
    [0x27b70a85, 0x2e1b2138, 0x4d2c6dfc, 0x53380d13],
    [0x650a7354, 0x766a0abb, 0x81c2c92e, 0x92722c85],
    [0xa2bfe8a1, 0xa81a664b, 0xc24b8b70, 0xc76c51a3],
    [0xd192e819, 0xd6990624, 0xf40e3585, 0x106aa070],
    [0x19a4c116, 0x1e376c08, 0x2748774c, 0x34b0bcb5],
    [0x391c0cb3, 0x4ed8aa4a, 0x5b9cca4f, 0x682e6ff3],
    [0x748f82ee, 0x78a5636f, 0x84c87814, 0x8cc70208],
    [0x90befffa, 0xa4506ceb, 0xbef9a3f7, 0xc67178f2]
  ]

  function KAt(t: nat): bv32
    requires t < 64
  {
    ROUND_CONSTANTS[t / 4][t % 4]
  }

  // -------------------------------------------------------------- compression

  datatype Registers = Registers(a: bv32, b: bv32, c: bv32, d: bv32, e: bv32, f: bv32, g: bv32, h: bv32)

  const INITIAL_HASH := Registers(0x6a09e667, 0xbb67ae85, 0x3c6ef372, 0xa54ff53a,
                                  0x510e527f, 0x9b05688c, 0x1f83d9ab, 0x5be0cd19)

  /** Four bytes as a word, most significant first. */
  function Pack(b0: bv8, b1: bv8, b2: bv8, b3: bv8): bv32 {
    (b3 as bv32) | ((b2 as bv32) << 8) | ((b1 as bv32) << 16) | ((b0 as bv32) << 24)
  }

  /** Word t of the message schedule of a block. */
  function Schedule(block: seq<bv8>, t: nat): bv32
    requires |block| == BLOCK
  {
    if t < 16 then Pack(block[4 * t], block[4 * t + 1], block[4 * t + 2], block[4 * t + 3])
    else
      var x := Add32(SmallSigma1(Schedule(block, t - 2)), Schedule(block, t - 7));
      Add32(Add32(x, SmallSigma0(Schedule(block, t - 15))), Schedule(block, t - 16))
  }

  function Round(r: Registers, k: bv32, w: bv32): Registers {
    var t1 := Add32(Add32(Add32(Add32(r.h, BigSigma1(r.e)), Ch(r.e, r.f, r.g)), k), w);
    var t2 := Add32(BigSigma0(r.a), Maj(r.a, r.b, r.c));
    Registers(Add32(t1, t2), r.a, r.b, r.c, Add32(r.d, t1), r.e, r.f, r.g)
  }

  /** The first t rounds on a block. */
  function Rounds(r: Registers, block: seq<bv8>, t: nat): Registers
    requires |block| == BLOCK && t <= 64
  {
    if t == 0 then r else Round(Rounds(r, block, t - 1), KAt(t - 1), Schedule(block, t - 1))
  }

  function Plus(x: Registers, y: Registers): Registers {
    Registers(Add32(x.a, y.a), Add32(x.b, y.b), Add32(x.c, y.c), Add32(x.d, y.d),
              Add32(x.e, y.e), Add32(x.f, y.f), Add32(x.g, y.g), Add32(x.h, y.h))
  }

  function CompressBlock(r: Registers, block: seq<bv8>): Registers
    requires |block| == BLOCK
  {
    Plus(r, Rounds(r, block, 64))
  }

  /** A whole number of blocks. */
  predicate Blocked(s: seq<bv8>) {
    |s| % BLOCK == 0
  }

  lemma BlockedConcat(s: seq<bv8>, t: seq<bv8>)
    requires Blocked(s)
    ensures Blocked(s + t) <==> Blocked(t)
  {}

  lemma BlockedButLast(s: seq<bv8>)
    requires Blocked(s) && s != []
    ensures |s| >= BLOCK && Blocked(s[..|s| - BLOCK])
  {}

  /** Compresses whole blocks, in order. */
  function Compress(r: Registers, s: seq<bv8>): Registers
    requires Blocked(s)
    decreases |s|
  {
    if s == [] then r else BlockedButLast(s); CompressBlock(Compress(r, s[..|s| - BLOCK]), s[|s| - BLOCK..])
  }

  lemma CompressSnoc(r: Registers, s: seq<bv8>, block: seq<bv8>)
    requires Blocked(s) && |block| == BLOCK
    ensures Blocked(s + block) && Compress(r, s + block) == CompressBlock(Compress(r, s), block)
  {
    hide CompressBlock;
    BlockedConcat(s, block);
    var all := s + block;
    assert all[..|all| - BLOCK] == s && all[|all| - BLOCK..] == block;
  }

  lemma {:induction false} CompressConcat(r: Registers, s: seq<bv8>, t: seq<bv8>)
    requires Blocked(s) && Blocked(t)
    ensures Blocked(s + t) && Compress(r, s + t) == Compress(Compress(r, s), t)
    decreases |t|
  {
    hide Compress, CompressBlock, Blocked;
    BlockedConcat(s, t);
    if t == [] {
      assert s + t == s;
      CompressNothing(Compress(r, s));
    } else {
      BlockedButLast(t);
      var u, block := t[..|t| - BLOCK], t[|t| - BLOCK..];
      CompressConcat(r, s, u);
      CompressSnoc(r, s + u, block);
      CompressSnoc(Compress(r, s), u, block);
      assert t == u + block && s + t == (s + u) + block;
    }
  }

  lemma CompressNothing(r: Registers)
    ensures Blocked([]) && Compress(r, []) == r
  {}

  // ------------------------------------------------------------------ padding

  function LowByte(v: nat): bv8 { (v % 256) as bv8 }

  /** The k low-order bytes of v, most significant first. */
  function BigEndian(v: nat, k: nat): (s: seq<bv8>)
    ensures |s| == k
  {
    if k == 0 then [] else BigEndian(v / 256, k - 1) + [LowByte(v)]
  }

  function ZeroBytes(n: nat): (s: seq<bv8>)
    ensures |s| == n
  {
    seq(n, i => 0 as bv8)
  }

  /** How many zero bytes go between the marker byte and the length. */
  function Filler(n: nat): nat {
    (119 - n % BLOCK) % BLOCK
  }

  /** What is appended to a message of n bytes: a one bit, zeros, the length in bits as 64 bits. */
  function Padding(n: nat): (s: seq<bv8>)
    ensures |s| == 1 + Filler(n) + 8
  {
    [0x80] + ZeroBytes(Filler(n)) + BigEndian(8 * n, 8)
  }

  lemma FillerFits(n: nat)
    ensures (n + (1 + Filler(n) + 8)) % BLOCK == 0
    ensures Filler(n) == if n % BLOCK <= 55 then 55 - n % BLOCK else 119 - n % BLOCK
  {
    var q, m := n / BLOCK, n % BLOCK;
    assert n == BLOCK * q + m;
    if m <= 55 {
      assert n + (1 + Filler(n) + 8) == BLOCK * (q + 1);
    } else {
      assert n + (1 + Filler(n) + 8) == BLOCK * (q + 2);
    }
  }

  /** A word as four bytes, most significant first. */
  function Unpack(x: bv32): (s: seq<bv8>)
    ensures |s| == 4
  {
    [((x >> 24) & 0xFF) as bv8, ((x >> 16) & 0xFF) as bv8, ((x >> 8) & 0xFF) as bv8, (x & 0xFF) as bv8]
  }

  /** The first byte has the highest weight. */
  lemma PackIsBigEndian(b0: bv8, b1: bv8, b2: bv8, b3: bv8)
    ensures Pack(b0, b1, b2, b3)
         == (b0 as bv32) * 0x100_0000 + (b1 as bv32) * 0x1_0000 + (b2 as bv32) * 0x100 + (b3 as bv32)
  {}

  /** Words and bytes are read back from each other. */
  lemma PackUnpack(x: bv32)
    ensures var s := Unpack(x); Pack(s[0], s[1], s[2], s[3]) == x
  {}

  lemma UnpackPack(b0: bv8, b1: bv8, b2: bv8, b3: bv8)
    ensures Unpack(Pack(b0, b1, b2, b3)) == [b0, b1, b2, b3]
  {}

  function Output(r: Registers): (s: seq<bv8>)
    ensures |s| == 32
  {
    Unpack(r.a) + Unpack(r.b) + Unpack(r.c) + Unpack(r.d) + Unpack(r.e) + Unpack(r.f) + Unpack(r.g) + Unpack(r.h)
  }

  function Digest(message: seq<bv8>): (s: seq<bv8>)
    ensures |s| == 32
  {
    FillerFits(|message|);
    Output(Compress(INITIAL_HASH, message + Padding(|message|)))
  }
}
