/** The hash-linked chain of blocks. */
module Chain {
  import opened Words

  /** The digest is any function on byte strings; theorems name the properties they need of it. */
  type Digest = ByteString -> ByteString

  ghost predicate Injective(sha: Digest) {
    forall x, y :: sha(x) == sha(y) ==> x == y
  }

  ghost predicate NonEmpty(sha: Digest) {
    forall x :: sha(x) != []
  }

  datatype Block = Block(data: ByteString, hash: ByteString, prevHash: ByteString)

  /** The hash of a block: the digest of its data followed by the previous hash. */
  function BlockHash(sha: Digest, data: ByteString, prevHash: ByteString): ByteString {
    sha(data + prevHash)
  }

  /** A block whose hash is that of its own contents. */
  predicate Sealed(sha: Digest, b: Block) {
    b.hash == BlockHash(sha, b.data, b.prevHash)
  }

  /** The default-constructed block, whose data is all zero, with its hash filled in. */
  function Genesis(sha: Digest, size: nat): Block {
    var data := seq(size, i => 0 as U8);
    Block(data, BlockHash(sha, data, []), [])
  }

  lemma GenesisHash(sha: Digest, size: nat)
    ensures Genesis(sha, size) == Block(seq(size, i => 0), sha(seq(size, i => 0)), [])
  {
    var data := Genesis(sha, size).data;
    assert data == seq(size, i => 0) && data + [] == data;
  }

  function TopHash(chain: seq<Block>): ByteString
    requires chain != []
  {
    chain[|chain| - 1].hash
  }

  /** The block that the data would become on top of the chain. */
  function Next(sha: Digest, chain: seq<Block>, data: ByteString): Block
    requires chain != []
  {
    Block(data, BlockHash(sha, data, TopHash(chain)), TopHash(chain))
  }

  /** Hash-linked from the genesis block; every block holds data of the same size. */
  ghost predicate Linked(sha: Digest, size: nat, chain: seq<Block>) {
    && chain != [] && chain[0] == Genesis(sha, size)
    && (forall i :: 0 <= i < |chain| ==> Sealed(sha, chain[i]) && |chain[i].data| == size)
    && (forall i :: 0 < i < |chain| ==> chain[i].prevHash == chain[i - 1].hash)
  }

  class Blockchain {
    const sha: Digest
    const size: nat  // the size of the data of a block
    var blocks: seq<Block>

    ghost predicate Valid()
      reads this
    {
      Linked(sha, size, blocks)
    }

    constructor (sha: Digest, size: nat)
      ensures Valid() && blocks == [Genesis(sha, size)]
      ensures blocks == [Block(seq(size, i => 0), sha(seq(size, i => 0)), [])]
      ensures this.sha == sha && this.size == size
    {
      this.sha, this.size := sha, size;
      blocks := [Genesis(sha, size)];
      GenesisHash(sha, size);
    }

    method AddBlock(data: ByteString)
      requires Valid() && |data| == size
      modifies this
      ensures Valid()
      ensures blocks == old(blocks) + [Next(sha, old(blocks), data)]
      ensures var top := old(blocks)[|old(blocks)| - 1].hash;
        blocks == old(blocks) + [Block(data, sha(data + top), top)]
    {
      var prevHash := blocks[|blocks| - 1].hash;
      blocks := blocks + [Block(data, BlockHash(sha, data, prevHash), prevHash)];
    }

    method SneakPeekBlock(data: ByteString) returns (b: Block)
      requires Valid()
      ensures b == Next(sha, blocks, data)
      ensures var top := blocks[|blocks| - 1].hash; b == Block(data, sha(data + top), top)
    {
      var prevHash := blocks[|blocks| - 1].hash;
      b := Block(data, BlockHash(sha, data, prevHash), prevHash);
    }
  }

  // ---------------------------------------------------------------- the theorems

  lemma BlockHashInjective(sha: Digest, b: Block, c: Block)
    requires Injective(sha) && Sealed(sha, b) && Sealed(sha, c)
    requires |b.data| == |c.data| && b.hash == c.hash
    ensures b == c
  {
    var x, y := b.data + b.prevHash, c.data + c.prevHash;
    assert x == y;
    assert b.data == x[..|b.data|] && b.prevHash == x[|b.data|..];
  }

  /** The hash of the last block determines the whole chain. */
  lemma {:induction false} TopHashDetermines(sha: Digest, size: nat, c: seq<Block>, d: seq<Block>)
    requires Injective(sha) && NonEmpty(sha)
    requires Linked(sha, size, c) && Linked(sha, size, d) && TopHash(c) == TopHash(d)
    ensures c == d
    decreases |c|
  {
    var m, n := |c| - 1, |d| - 1;
    BlockHashInjective(sha, c[m], d[n]);
    assert c[0].prevHash == [] && d[0].prevHash == [];
    if m > 0 && n > 0 {
      assert c[m].prevHash == TopHash(c[..m]) && d[n].prevHash == TopHash(d[..n]);
      TopHashDetermines(sha, size, c[..m], d[..n]);
      assert c == c[..m] + [c[m]] && d == d[..n] + [d[n]];
    } else if m > 0 {
      HashNotEmpty(sha, c[m - 1]);
    } else if n > 0 {
      HashNotEmpty(sha, d[n - 1]);
    }
  }

  lemma HashNotEmpty(sha: Digest, b: Block)
    requires NonEmpty(sha) && Sealed(sha, b)
    ensures b.hash != []
  {
    assert b.hash == sha(b.data + b.prevHash);
  }

  /** A block that fits on top of a prefix of a chain occurs in that chain only there. */
  lemma FitsOnlyThere(sha: Digest, size: nat, chain: seq<Block>, k: nat, j: nat)
    requires Injective(sha) && NonEmpty(sha) && Linked(sha, size, chain)
    requires 0 < k <= |chain| && j < |chain| && chain[j].prevHash == TopHash(chain[..k])
    ensures j == k
  {
    HashNotEmpty(sha, chain[k - 1]);
    if j > 0 {
      assert chain[j].prevHash == TopHash(chain[..j]);
      TopHashDetermines(sha, size, chain[..k], chain[..j]);
      assert |chain[..k]| == k && |chain[..j]| == j;
    }
  }

  /** What the constructor followed by AddBlock on each element of datas produces. */
  function Build(sha: Digest, size: nat, datas: seq<ByteString>): (chain: seq<Block>)
    ensures |chain| == |datas| + 1
  {
    if datas == [] then [Genesis(sha, size)]
    else
      var c := Build(sha, size, datas[..|datas| - 1]);
      c + [Next(sha, c, datas[|datas| - 1])]
  }

  function Datas(chain: seq<Block>): (ds: seq<ByteString>)
    ensures |ds| == |chain|
  {
    seq(|chain|, i requires 0 <= i < |chain| => chain[i].data)
  }

  lemma {:induction false} LinkedIsReachable(sha: Digest, size: nat, chain: seq<Block>)
    requires Linked(sha, size, chain)
    ensures chain == Build(sha, size, Datas(chain)[1..])
  {
    var n := |chain| - 1;
    var ds := Datas(chain)[1..];
    if n == 0 {
      assert chain == [chain[0]];
    } else {
      var front := chain[..n];
      LinkedIsReachable(sha, size, front);
      assert Datas(front)[1..] == ds[..n - 1] && ds[n - 1] == chain[n].data;
      assert chain == front + [chain[n]] && chain[n] == Next(sha, front, chain[n].data);
    }
  }

  lemma {:induction false} ReachableIsLinked(sha: Digest, size: nat, datas: seq<ByteString>)
    requires forall d :: d in datas ==> |d| == size
    ensures Linked(sha, size, Build(sha, size, datas))
  {
    if datas != [] {
      ReachableIsLinked(sha, size, datas[..|datas| - 1]);
    }
  }

  /** Two reachable chains with the same top hash were built from the same data. */
  lemma ReachableChainsAgree(sha: Digest, size: nat, ds: seq<ByteString>, es: seq<ByteString>)
    requires Injective(sha) && NonEmpty(sha)
    requires forall d :: d in ds + es ==> |d| == size
    requires TopHash(Build(sha, size, ds)) == TopHash(Build(sha, size, es))
    ensures Build(sha, size, ds) == Build(sha, size, es) && ds == es
  {
    forall d | d in ds || d in es ensures |d| == size { assert d in ds + es; }
    ReachableIsLinked(sha, size, ds); ReachableIsLinked(sha, size, es);
    TopHashDetermines(sha, size, Build(sha, size, ds), Build(sha, size, es));
    DatasOfBuild(sha, size, ds); DatasOfBuild(sha, size, es);
  }

  lemma {:induction false} DatasOfBuild(sha: Digest, size: nat, ds: seq<ByteString>)
    ensures Datas(Build(sha, size, ds))[1..] == ds
  {
    if ds != [] {
      var n := |ds| - 1;
      DatasOfBuild(sha, size, ds[..n]);
      var c := Build(sha, size, ds[..n]);
      assert Datas(Build(sha, size, ds)) == Datas(c) + [ds[n]];
      assert ds == ds[..n] + [ds[n]];
    }
  }
}
