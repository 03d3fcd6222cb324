/** Proof of work: a key whose digest, added to the seed, begins with enough zero bits. */
module HashCash {
  import opened Gf2
  import opened Words
  import opened Bytes
  import opened Chain

  const MAX_KEY := 16

  // -------------------------------------------------------- leading zero bits

  /** Bit j of a byte string, the highest bit of the first byte being bit 0. */
  predicate BitAt(s: ByteString, j: nat)
    requires j < 8 * |s|
  {
    TestBit(s[j / 8], 7 - j % 8)
  }

  ghost predicate StartsWithZeros(s: ByteString, d: nat) {
    d <= 8 * |s| && forall j: nat :: j < d ==> !BitAt(s, j)
  }

  function AtLeastOne(d: nat): nat {
    if d == 0 then 1 else d
  }

  /** Bitwise and. */
  function And(a: nat, b: nat): nat {
    if a == 0 || b == 0 then 0
    else (if a % 2 == 1 && b % 2 == 1 then 1 else 0) + 2 * And(a / 2, b / 2)
  }

  lemma {:induction false} AndOnes(a: nat, n: nat)
    requires a < Shl(1, n)
    ensures And(a, Shl(1, n) - 1) == a
  {
    if n != 0 && a != 0 {
      AndOnes(a / 2, n - 1);
      assert (Shl(1, n) - 1) / 2 == Shl(1, n - 1) - 1;
    }
  }

  /** Against the mask of the bits from i up to n, a number is zero when it has at most i bits. */
  lemma {:induction false} AndHighMask(a: nat, i: nat, n: nat)
    requires i <= n && a < Shl(1, n)
    ensures Shl(1, i) <= Shl(1, n)
    ensures And(a, Shl(1, n) - Shl(1, i)) == 0 <==> Len(a) <= i
  {
    if i == 0 { AndOnes(a, n); LenShl(1, n); }
    else {
      AndHighMask(a / 2, i - 1, n - 1);
      var m := Shl(1, n) - Shl(1, i);
      assert m / 2 == Shl(1, n - 1) - Shl(1, i - 1) && m % 2 == 0;
    }
  }

  lemma PowersOfTwo()
    ensures Shl(1, 0) == 1 && Shl(1, 1) == 2 && Shl(1, 2) == 4 && Shl(1, 3) == 8
    ensures Shl(1, 4) == 16 && Shl(1, 5) == 32 && Shl(1, 6) == 64 && Shl(1, 7) == 128 && Shl(1, 8) == 256
  {
    Shl4(1); Shl4(16); ShlShl(1, 4, 4);
  }

  /**
    Testing byte b against the mask -2^i of a signed char looks at bit i and everything
    above it; those higher bits are known to be zero, so it decides bit i.
   */
  lemma MaskDecidesBit(b: U8, i: nat, mask: int)
    requires i < 8 && Len(b) <= i + 1 && mask + Shl(1, i) == 0
    ensures And(b, mask % 256) == 0 <==> !TestBit(b, i)
    ensures !TestBit(b, i) ==> Len(b) <= i
  {
    hide And, Shl;
    PowersOfTwo();
    AndHighMask(b, i, 8);
    assert 0 < Shl(1, i) <= 256;
    assert i < 8 ==> mask % 256 == 256 - Shl(1, i);
    TopBit(b, i);
  }

  /** The test of the leading bits, with the sign-extending mask of the code. */
  method CountZeroes(hash: ByteString, difficulty: nat) returns (ok: bool)
    ensures ok <==> StartsWithZeros(hash, AtLeastOne(difficulty))
  {
    hide And, Shl, TestBit, Len;
    var mask: int := 0;
    var zeroes := 0;
    for j := 0 to |hash| * 8
      invariant zeroes == j
      invariant forall k: nat :: k < j ==> !BitAt(hash, k)
      invariant j > 0 ==> j < AtLeastOne(difficulty)
      invariant j % 8 != 0 ==> mask + Shl(1, 7 - j % 8) == 0 && Len(hash[j / 8]) <= 8 - j % 8
    {
      if j % 8 == 0 {
        mask := -0x80;
        PowersOfTwo(); LenByte(hash[j / 8]);
      }
      MaskDecidesBit(hash[j / 8], 7 - j % 8, mask);
      if And(hash[j / 8], mask % 256) == 0 {
        zeroes := zeroes + 1;
        if zeroes >= difficulty {
          return true;
        }
        if j % 8 != 7 { HalfMask(7 - j % 8, mask); }
        mask := mask / 2;  // arithmetic shift
      } else {
        assert BitAt(hash, j);
        return false;
      }
    }
    ok := false;
  }

  lemma HalfMask(i: nat, mask: int)
    requires i > 0 && mask + Shl(1, i) == 0
    ensures mask / 2 + Shl(1, i - 1) == 0
  {}

  // ------------------------------------------------------------------ the puzzle

  function ByteOrZero(s: ByteString, i: nat): U8 {
    if i < |s| then s[i] else 0
  }

  function XorStrings(s1: ByteString, s2: ByteString): (s: ByteString)
    ensures |s| == |s1|
  {
    seq(|s1|, i requires 0 <= i < |s1| => XorByte(s1[i], ByteOrZero(s2, i)))
  }

  method ComputeXorStrings(s1: ByteString, s2: ByteString) returns (s: ByteString)
    ensures s == XorStrings(s1, s2)
  {
    hide Add;
    s := s1;
    for j := 0 to |s|
      invariant |s| == |s1|
      invariant forall k :: 0 <= k < j ==> s[k] == XorByte(s1[k], ByteOrZero(s2, k))
      invariant forall k :: j <= k < |s| ==> s[k] == s1[k]
    {
      s := s[j := XorByte(s[j], ByteOrZero(s2, j))];
    }
  }

  ghost predicate Solution(sha: Digest, difficulty: nat, seed: ByteString, key: ByteString) {
    StartsWithZeros(XorStrings(sha(seed + key), seed), AtLeastOne(difficulty))
  }

  method CheckSolution(sha: Digest, difficulty: nat, seed: ByteString, key: ByteString) returns (ok: bool)
    ensures ok <==> Solution(sha, difficulty, seed, key)
  {
    var hash := ComputeXorStrings(sha(seed + key), seed);
    ok := CountZeroes(hash, difficulty);
  }

  // -------------------------------------------------------------- the odometer

  /** The last value tried with keys of n bytes: only the highest byte is 0xFF. */
  function LastValue(n: nat): nat
    requires n > 0
  {
    255 * Pow256(n - 1)
  }

  /** Keys are numbered by their length and their value as a little-endian number. */
  predicate IsKey(n: nat, v: nat) {
    1 <= n <= MAX_KEY && 1 <= v <= LastValue(n)
  }

  predicate Earlier(n: nat, v: nat, n': nat, v': nat) {
    n < n' || (n == n' && v < v')
  }

  lemma {:induction false} DecodeLast(s: ByteString)
    requires |s| > 0
    ensures Decode(s) == Decode(s[..|s| - 1]) + Pow256(|s| - 1) * s[|s| - 1]
    ensures Decode(s[..|s| - 1]) < Pow256(|s| - 1)
  {
    var n := |s| - 1;
    EncodeDecode(s[..n]);
    if n > 0 {
      DecodeLast(s[1..]);
      assert s[1..][..n - 1] == s[..n][1..];
      assert 256 * (Pow256(n - 1) * s[n]) == Pow256(n) * s[n];
    }
  }

  /** The highest byte is 0xFF exactly from LastValue on. */
  lemma LastByte(s: ByteString)
    requires |s| > 0
    ensures s[|s| - 1] == 0xFF <==> Decode(s) >= LastValue(|s|)
  {
    hide Decode, Pow256;
    DecodeLast(s);
    TopDigit(Decode(s[..|s| - 1]), Pow256(|s| - 1), s[|s| - 1]);
  }

  lemma TopDigit(low: nat, p: nat, b: U8)
    requires low < p
    ensures b == 0xFF <==> low + p * b >= 255 * p
  {
    if b < 0xFF { assert p * b <= p * 254; }
  }

  lemma {:induction false} DecodeZeros(s: ByteString)
    requires forall i :: 0 <= i < |s| ==> s[i] == 0
    ensures Decode(s) == 0
  {
    if |s| > 0 { DecodeZeros(s[1..]); }
  }

  /** Bytes of 0xFF below position j become 0 while byte j is incremented. */
  lemma {:induction false} DecodeIncrement(s: ByteString, t: ByteString, j: nat)
    requires |s| == |t| && j < |s| && s[j] < 0xFF && t[j] == s[j] + 1
    requires forall i :: 0 <= i < j ==> s[i] == 0xFF && t[i] == 0
    requires forall i :: j < i < |s| ==> t[i] == s[i]
    ensures Decode(t) == Decode(s) + 1
  {
    if j > 0 { DecodeIncrement(s[1..], t[1..], j - 1); }
    else { assert s[1..] == t[1..]; }
  }

  /** A key of the search: 1 to 16 bytes, not all zero, and with zeros only below a highest byte of 0xFF. */
  predicate InRange(k: ByteString) {
    && 1 <= |k| <= 16 && (exists i :: 0 <= i < |k| && k[i] != 0)
    && (k[|k| - 1] < 0xFF || forall i :: 0 <= i < |k| - 1 ==> k[i] == 0)
  }

  /** Shorter keys come first, then smaller ones. */
  predicate Before(k: ByteString, l: ByteString) {
    |k| < |l| || (|k| == |l| && Decode(k) < Decode(l))
  }

  /** The key the search delivers: the first that solves the puzzle, or else fifteen zero bytes and 0xFF. */
  ghost predicate FirstKey(sha: Digest, difficulty: nat, seed: ByteString, key: ByteString) {
    && InRange(key)
    && (forall k: ByteString :: InRange(k) && Before(k, key) ==> !Solution(sha, difficulty, seed, k))
    && (!Solution(sha, difficulty, seed, key) ==> key == ZeroBytes(15) + [0xFF])
  }

  lemma {:induction false} DecodeZeroIff(s: ByteString)
    ensures Decode(s) == 0 <==> forall i :: 0 <= i < |s| ==> s[i] == 0
  {
    if |s| > 0 {
      DecodeZeroIff(s[1..]);
      assert s == [s[0]] + s[1..];
      assert forall i :: 0 < i < |s| ==> s[i] == s[1..][i - 1];
    }
  }

  /** The greatest key of each length has zeros below its highest byte. */
  lemma RangeIsKeys(s: ByteString)
    requires 1 <= |s| <= 16
    ensures InRange(s) <==> 1 <= Decode(s) <= LastValue(|s|)
    ensures Decode(s) == LastValue(|s|) ==> s == ZeroBytes(|s| - 1) + [0xFF]
  {
    hide Decode, Pow256;
    var n := |s| - 1;
    DecodeZeroIff(s);
    LowerZeros(s);
    LastByte(s);
    DecodeLast(s);
    TopValue(Decode(s[..n]), Pow256(n));
    if Decode(s) == LastValue(|s|) { assert s == s[..n] + [s[n]]; }
  }

  /** The bytes below the highest one are all zero if and only if their value is. */
  lemma LowerZeros(s: ByteString)
    requires |s| > 0
    ensures Decode(s[..|s| - 1]) == 0 <==> forall i :: 0 <= i < |s| - 1 ==> s[i] == 0
    ensures Decode(s[..|s| - 1]) == 0 ==> s[..|s| - 1] == ZeroBytes(|s| - 1)
  {
    var front := s[..|s| - 1];
    DecodeZeroIff(front);
    assert forall i :: 0 <= i < |front| ==> front[i] == s[i];
  }

  lemma TopValue(low: nat, p: nat)
    ensures low + p * 255 <= 255 * p <==> low == 0
    ensures low + p * 255 >= 255 * p
  {}

  /** Increments the key with carry. */
  method Increment(key: ByteString) returns (next: ByteString)
    requires |key| > 0 && key[|key| - 1] != 0xFF
    ensures |next| == |key| && Decode(next) == Decode(key) + 1
  {
    hide Decode;
    next := key;
    var j := 0;
    while j < |next|
      invariant 0 <= j < |next| == |key|
      invariant forall i :: 0 <= i < j ==> key[i] == 0xFF && next[i] == 0
      invariant forall i :: j <= i < |key| ==> next[i] == key[i]
      decreases |next| - j
    {
      if next[j] == 0xFF {
        next := next[j := 0];
      } else {
        next := next[j := next[j] + 1];
        DecodeIncrement(key, next, j);
        break;
      }
      j := j + 1;
    }
  }

  /**
    Tries the keys in order of length and value until one solves the puzzle; the last key of
    16 bytes is returned when none does.
   */
  method SolveProblem(sha: Digest, difficulty: nat, seed: ByteString) returns (key: ByteString)
    ensures IsKey(|key|, Decode(key))
    ensures forall n: nat, v: nat :: IsKey(n, v) && Earlier(n, v, |key|, Decode(key)) ==>
      !Solution(sha, difficulty, seed, Encode(v, n))
    ensures Solution(sha, difficulty, seed, key) || (|key| == MAX_KEY && Decode(key) == LastValue(MAX_KEY))
    ensures FirstKey(sha, difficulty, seed, key)
  {
    hide Solution, Decode, Encode, Pow256, FirstKey;
    key := [0];
    DecodeZeros(key); PowPositive(1);
    while true
      invariant 1 <= |key| <= MAX_KEY && Decode(key) <= LastValue(|key|)
      invariant Decode(key) == 0 ==> |key| == 1
      invariant Failed(sha, difficulty, seed, |key|, Decode(key))
      decreases MAX_KEY - |key|, LastValue(|key|) - Decode(key)
    {
      ghost var before := key;
      LastByte(key);
      if key[|key| - 1] == 0xFF {
        PowPositive(|key|);
        if |key| == MAX_KEY {
          KeyIsFirst(sha, difficulty, seed, key);
          break;
        }
        key := key + [0];
        for j := 0 to |key|
          invariant |key| == |before| + 1
          invariant forall i :: 0 <= i < j ==> key[i] == 0
        {
          key := key[j := 0];
        }
        DecodeZeros(key); PowPositive(|key|);
        FailedGrow(sha, difficulty, seed, |before|);
        LastByte(key);
      }
      ghost var grown := key;
      key := Increment(key);
      FailedSame(sha, difficulty, seed, |key|, Decode(grown));
      EncodeDecode(key);
      var ok := CheckSolution(sha, difficulty, seed, key);
      if ok {
        KeyIsFirst(sha, difficulty, seed, key);
        return;
      }
      FailedOne(sha, difficulty, seed, |key|, Decode(key));
    }
  }

  /** In terms of the bytes of the keys. */
  lemma KeyIsFirst(sha: Digest, difficulty: nat, seed: ByteString, key: ByteString)
    requires IsKey(|key|, Decode(key))
    requires forall n: nat, v: nat :: IsKey(n, v) && Earlier(n, v, |key|, Decode(key)) ==>
      !Solution(sha, difficulty, seed, Encode(v, n))
    requires Solution(sha, difficulty, seed, key) || (|key| == MAX_KEY && Decode(key) == LastValue(MAX_KEY))
    ensures FirstKey(sha, difficulty, seed, key)
  {
    hide Solution, Decode, Encode, Pow256, LastValue;
    RangeIsKeys(key);
    forall k: ByteString | InRange(k) && Before(k, key) ensures !Solution(sha, difficulty, seed, k) {
      RangeIsKeys(k);
      EncodeDecode(k);
      assert IsKey(|k|, Decode(k)) && Earlier(|k|, Decode(k), |key|, Decode(key));
    }
  }

  lemma PowPositive(n: nat)
    requires n > 0
    ensures LastValue(n) > 0
  {}

  /** No key up to and including number (n, v) solves the puzzle. */
  ghost predicate Failed(sha: Digest, difficulty: nat, seed: ByteString, n: nat, v: nat) {
    forall n': nat, v': nat :: IsKey(n', v') && (Earlier(n', v', n, v) || (n' == n && v' == v))
      ==> !Solution(sha, difficulty, seed, Encode(v', n'))
  }

  lemma FailedGrow(sha: Digest, difficulty: nat, seed: ByteString, n: nat)
    requires n > 0 && Failed(sha, difficulty, seed, n, LastValue(n))
    ensures Failed(sha, difficulty, seed, n + 1, 0)
  {
    hide Solution, Encode, Pow256;
  }

  lemma FailedSame(sha: Digest, difficulty: nat, seed: ByteString, n: nat, v: nat)
    requires Failed(sha, difficulty, seed, n, v)
    ensures forall n': nat, v': nat :: IsKey(n', v') && Earlier(n', v', n, v + 1) ==>
      !Solution(sha, difficulty, seed, Encode(v', n'))
  {
    hide Solution, Encode, Pow256;
  }

  lemma FailedOne(sha: Digest, difficulty: nat, seed: ByteString, n: nat, v: nat)
    requires forall n': nat, v': nat :: IsKey(n', v') && Earlier(n', v', n, v) ==>
      !Solution(sha, difficulty, seed, Encode(v', n'))
    requires !Solution(sha, difficulty, seed, Encode(v, n))
    ensures Failed(sha, difficulty, seed, n, v)
  {
    hide Solution, Encode, Pow256;
  }

  /** Different numbers are different keys, so no key is tried twice. */
  lemma KeysDistinct(n: nat, v: nat, n': nat, v': nat)
    requires IsKey(n, v) && IsKey(n', v') && Encode(v, n) == Encode(v', n')
    ensures n == n' && v == v'
  {
    hide Encode, Decode;
    KeyFits(n, v); KeyFits(n', v');
    DecodeEncode(v, n); DecodeEncode(v', n');
  }

  lemma KeyFits(n: nat, v: nat)
    requires n > 0 && v <= LastValue(n)
    ensures v < Pow256(n)
  {}

  /** The search finds a solution if and only if some key in its range is one. */
  lemma SearchIsComplete(sha: Digest, difficulty: nat, seed: ByteString, key: ByteString)
    requires FirstKey(sha, difficulty, seed, key)
    ensures Solution(sha, difficulty, seed, key)
       <==> exists k: ByteString :: InRange(k) && Solution(sha, difficulty, seed, k)
  {
    hide Solution, Decode, Pow256, LastValue, InRange;
    if k: ByteString :| InRange(k) && Solution(sha, difficulty, seed, k) && !Solution(sha, difficulty, seed, key) {
      LastKey(k, key);
      if !Before(k, key) { SameBytes(k, key); }
    }
  }

  /** No key comes after that one. */
  lemma LastKey(k: ByteString, last: ByteString)
    requires InRange(k) && last == ZeroBytes(15) + [0xFF]
    ensures |k| < |last| || (|k| == |last| && Decode(k) <= Decode(last))
  {
    hide Decode, Pow256;
    RangeIsKeys(k);
    if |k| == 16 {
      LastByte(last);
    }
  }

  lemma SameBytes(k: ByteString, l: ByteString)
    requires |k| == |l| && Decode(k) == Decode(l)
    ensures k == l
  {
    hide Decode, Encode;
    EncodeDecode(k); EncodeDecode(l);
  }

  /** A key solves the puzzle when its digest agrees with the seed in the leading bits. */
  lemma SolutionAgrees(sha: Digest, difficulty: nat, seed: ByteString, key: ByteString)
    requires |sha(seed + key)| <= |seed|
    ensures var digest, d := sha(seed + key), AtLeastOne(difficulty);
      Solution(sha, difficulty, seed, key) <==>
      d <= 8 * |digest| && forall j: nat :: j < d ==> BitAt(digest, j) == BitAt(seed, j)
  {
    hide Add, TestBit;
    var digest := sha(seed + key);
    var s := XorStrings(digest, seed);
    forall j: nat | j < 8 * |digest|
      ensures BitAt(s, j) == (BitAt(digest, j) != BitAt(seed, j))
    {
      TestBitAdd(digest[j / 8], seed[j / 8], 7 - j % 8);
    }
  }

  lemma {:induction false} TestBitAdd(a: nat, b: nat, k: nat)
    ensures TestBit(Add(a, b), k) == (TestBit(a, k) != TestBit(b, k))
  {
    hide Add;
    AddUnfold(a, b);
    if k != 0 { TestBitAdd(a / 2, b / 2, k - 1); }
  }
}
