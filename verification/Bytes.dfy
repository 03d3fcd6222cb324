/** Little-endian encoding of unsigned integers of any width. */
module Bytes {
  import opened Words

  function Pow256(k: nat): (n: nat)
    ensures n > 0
  {
    if k == 0 then 1 else 256 * Pow256(k - 1)
  }

  /** The k low-order bytes of n, least significant first. */
  function Encode(n: nat, k: nat): (s: seq<U8>)
    ensures |s| == k
  {
    if k == 0 then [] else [n % 256] + Encode(n / 256, k - 1)
  }

  function Decode(s: seq<U8>): nat {
    if |s| == 0 then 0 else s[0] + 256 * Decode(s[1..])
  }

  /** What fits the width is read back. */
  lemma {:induction false} DecodeEncode(n: nat, k: nat)
    requires n < Pow256(k)
    ensures Decode(Encode(n, k)) == n
  {
    if k != 0 { DecodeEncode(n / 256, k - 1); }
  }

  lemma {:induction false} EncodeDecode(s: seq<U8>)
    ensures Decode(s) < Pow256(|s|) && Encode(Decode(s), |s|) == s
  {
    if |s| != 0 {
      EncodeDecode(s[1..]);
      assert Decode(s) / 256 == Decode(s[1..]);
    }
  }

  lemma Pow256Of8()
    ensures Pow256(4) == 0x1_0000_0000 && Pow256(8) == 0x1_0000_0000_0000_0000
  {
    assert Pow256(1) == 256 && Pow256(2) == 0x1_0000 && Pow256(3) == 0x100_0000;
    assert Pow256(5) == 0x100_0000_0000 && Pow256(6) == 0x1_0000_0000_0000 && Pow256(7) == 0x100_0000_0000_0000;
  }

  /** Byte i of the encoding has the weight 256^i. */
  lemma {:induction false} EncodeByte(n: nat, k: nat, i: nat)
    requires i < k
    ensures Encode(n, k)[i] == n / Pow256(i) % 256
  {
    if i > 0 {
      EncodeByte(n / 256, k - 1, i - 1);
      DivTwice(n, Pow256(i - 1));
    }
  }

  lemma DivTwice(n: nat, m: nat)
    requires m > 0
    ensures n / 256 / m == n / (256 * m)
  {
    var q := n / 256 / m;
    assert n == 256 * (n / 256) + n % 256 && n / 256 == m * q + n / 256 % m;
    assert n == (256 * m) * q + (256 * (n / 256 % m) + n % 256);
    assert 0 <= 256 * (n / 256 % m) + n % 256 < 256 * m;
    DivUnique(n, 256 * m, q);
  }

  lemma DivUnique(n: nat, m: nat, q: nat)
    requires m > 0 && m * q <= n < m * q + m
    ensures n / m == q
  {
    var p := n / m;
    assert m * p <= n < m * p + m;
    assert m * p < m * (q + 1) && m * q < m * (p + 1);
  }

  /** s with the bytes b written at offset i. */
  function Put(s: seq<U8>, i: nat, b: seq<U8>): (t: seq<U8>)
    requires i + |b| <= |s|
    ensures |t| == |s| && t[i..i + |b|] == b
    ensures forall j :: 0 <= j < |s| && !(i <= j < i + |b|) ==> t[j] == s[j]
  {
    s[..i] + b + s[i + |b|..]
  }

  function ZeroBytes(n: nat): (s: seq<U8>)
    ensures |s| == n && forall i :: 0 <= i < n ==> s[i] == 0
  {
    seq(n, i => 0)
  }
}
