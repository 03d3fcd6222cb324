/** Choosing among the accepted candidates: the one with the lexicographically least hash. */
module Selection {
  import opened Words
  import opened Chain

  /** Byte strings in dictionary order, a prefix coming first. */
  predicate LexLe(a: ByteString, b: ByteString) {
    a == [] || (b != [] && (a[0] < b[0] || (a[0] == b[0] && LexLe(a[1..], b[1..]))))
  }

  lemma {:induction false} LexTotal(a: ByteString, b: ByteString)
    ensures LexLe(a, b) || LexLe(b, a)
    ensures LexLe(a, a)
  {
    if a != [] {
      LexTotal(a[1..], if b == [] then [] else b[1..]);
    }
  }

  lemma {:induction false} LexAntisymmetric(a: ByteString, b: ByteString)
    requires LexLe(a, b) && LexLe(b, a)
    ensures a == b
  {
    if a != [] {
      LexAntisymmetric(a[1..], b[1..]);
      assert a == [a[0]] + a[1..] && b == [b[0]] + b[1..];
    }
  }

  lemma {:induction false} LexTransitive(a: ByteString, b: ByteString, c: ByteString)
    requires LexLe(a, b) && LexLe(b, c)
    ensures LexLe(a, c)
  {
    if a != [] && a[0] == b[0] && b[0] == c[0] { LexTransitive(a[1..], b[1..], c[1..]); }
  }

  /** Of two strings, the one with the smaller byte where they first differ is the smaller one. */
  lemma {:induction false} LexByFirstDifference(a: ByteString, b: ByteString, k: nat)
    requires k < |a| && k < |b| && a[..k] == b[..k] && a[k] != b[k]
    ensures LexLe(a, b) <==> a[k] < b[k]
  {
    if k > 0 {
      var c, d := a[1..], b[1..];
      assert a[0] == a[..k][0] && b[0] == b[..k][0];
      assert c[..k - 1] == a[..k][1..] && d[..k - 1] == b[..k][1..];
      LexByFirstDifference(c, d, k - 1);
    }
  }

  /** If they do not differ before one of them ends, the shorter one is. */
  lemma {:induction false} LexOfPrefix(a: ByteString, b: ByteString)
    requires a <= b
    ensures LexLe(a, b) && (LexLe(b, a) ==> a == b)
  {
    if a != [] {
      LexOfPrefix(a[1..], b[1..]);
    }
    if LexLe(b, a) { LexAntisymmetric(a, b); }
  }

  /** best is a candidate and no candidate has a smaller hash. */
  ghost predicate IsLeast(best: Block, candidates: seq<Block>) {
    best in candidates && forall c :: c in candidates ==> LexLe(best.hash, c.hash)
  }

  /** Place i holds the last of the candidates with the least hash. */
  ghost predicate LastLeast(candidates: seq<Block>, i: nat) {
    && i < |candidates|
    && (forall k :: 0 <= k < |candidates| ==> LexLe(candidates[i].hash, candidates[k].hash))
    && forall k :: i < k < |candidates| ==> !LexLe(candidates[k].hash, candidates[i].hash)
  }

  lemma LastLeastExtends(s: seq<Block>, i: nat, b: Block)
    requires LastLeast(s, i)
    ensures LastLeast(s + [b], if LexLe(b.hash, s[i].hash) then |s| else i)
  {
    LexTotal(b.hash, s[i].hash);
    if LexLe(b.hash, s[i].hash) {
      forall k | 0 <= k <= |s| ensures LexLe(b.hash, (s + [b])[k].hash) {
        if k < |s| { LexTransitive(b.hash, s[i].hash, s[k].hash); }
      }
    }
  }

  /** Keeps the last of the candidates with the least hash, and tells which one that was. */
  method SelectCandidate(candidates: seq<Block>) returns (best: Option<Block>, chosen: nat)
    ensures best == None <==> candidates == []
    ensures best.Some? ==> LastLeast(candidates, chosen) && candidates[chosen] == best.value
    ensures best.Some? ==> IsLeast(best.value, candidates)
  {
    hide LexLe;
    best, chosen := None, 0;
    if |candidates| > 0 {
      LexTotal(candidates[0].hash, candidates[0].hash);
      for it := 1 to |candidates|
        invariant LastLeast(candidates[..it], chosen)
      {
        LastLeastExtends(candidates[..it], chosen, candidates[it]);
        assert candidates[..it + 1] == candidates[..it] + [candidates[it]];
        if LexLe(candidates[it].hash, candidates[chosen].hash) {
          chosen := it;
        }
      }
      assert candidates[..|candidates|] == candidates;
      best := Some(candidates[chosen]);
    }
  }

  /** Blocks are identified by their hashes. */
  ghost predicate DistinctHashes(candidates: seq<Block>) {
    forall b, c :: b in candidates && c in candidates && b.hash == c.hash ==> b == c
  }

  /**
    Two peers with the same candidates, in whatever order and multiplicity, choose the same
    block; on equal chains they append equal blocks.
   */
  lemma SelectionAgrees(sha: Digest, chain: seq<Block>, xs: seq<Block>, ys: seq<Block>, b: Block, c: Block)
    requires chain != [] && (forall x :: x in xs <==> x in ys) && DistinctHashes(xs)
    requires IsLeast(b, xs) && IsLeast(c, ys)
    ensures b == c && Next(sha, chain, b.data) == Next(sha, chain, c.data)
  {
    LexAntisymmetric(b.hash, c.hash);
  }

  /** The block appended is the one voted on exactly when that one fits our chain. */
  lemma AppendedAsVotedOn(sha: Digest, chain: seq<Block>, b: Block)
    requires chain != []
    ensures Next(sha, chain, b.data) == b <==> Sealed(sha, b) && b.prevHash == TopHash(chain)
  {}
}
