/**
  Synchronisation, seen as a function of the messages a peer handles: one round asks all
  peers for the next block, and rounds are repeated until the peers say there is none.
 */
module Sync {
  import opened Words
  import opened Chain
  import opened Messages
  import opened Majority

  /** What a round has gathered so far. */
  datatype Tally = Tally(seen: seq<PeerAddress>, noBlock: nat, entries: seq<Entry>)

  const START := Tally([], 0, [])

  /** Counts a reply naming block b; blocks are identified by their hash. */
  function CountBlock(es: seq<Entry>, b: Block): (r: seq<Entry>)
    ensures |r| > 0
  {
    if es == [] then [Entry(b, 1)]
    else if es[0].block.hash == b.hash then [Entry(es[0].block, es[0].count + 1)] + es[1..]
    else [es[0]] + CountBlock(es[1..], b)
  }

  /** A block that can be appended: its hash is right and it points at our last block. */
  predicate Fits(sha: Digest, top: ByteString, b: Block) {
    Sealed(sha, b) && b.prevHash == top
  }

  /** The effect of one message; size is the index of the block asked for. */
  function Step(sha: Digest, top: ByteString, size: nat, t: Tally, m: Message): Tally {
    if m.from in t.seen then t
    else match m
      case NoBlock(from, _) => t.(seen := t.seen + [from], noBlock := t.noBlock + 1)
      case BlockReply(from, _, b) =>
        t.(seen := t.seen + [from], entries := if Fits(sha, top, b) then CountBlock(t.entries, b) else t.entries)
      case RequestBlock(from, index) => if index == size then t.(seen := t.seen + [from]) else t
      case _ => t
  }

  function Fold(sha: Digest, top: ByteString, size: nat, s: seq<Message>): Tally {
    if s == [] then START else Step(sha, top, size, Fold(sha, top, size, s[..|s| - 1]), s[|s| - 1])
  }

  lemma FoldSnoc(sha: Digest, top: ByteString, size: nat, s: seq<Message>, m: Message)
    ensures Fold(sha, top, size, s + [m]) == Step(sha, top, size, Fold(sha, top, size, s), m)
  {
    assert (s + [m])[..|s|] == s;
  }

  /** Requests for blocks we do not have yet are kept for later. */
  predicate IsDeferred(size: nat, m: Message) {
    m.RequestBlock? && m.index > size
  }

  function DeferredOf(size: nat, s: seq<Message>): seq<Message> {
    if s == [] then []
    else DeferredOf(size, s[..|s| - 1]) + (if IsDeferred(size, s[|s| - 1]) then [s[|s| - 1]] else [])
  }

  lemma DeferredSnoc(size: nat, s: seq<Message>, m: Message)
    ensures DeferredOf(size, s + [m]) == DeferredOf(size, s) + (if IsDeferred(size, m) then [m] else [])
  {
    assert (s + [m])[..|s|] == s;
  }

  /** What the round reports after handling s, with n peers asked. */
  ghost function Outcome(sha: Digest, n: nat, chain: seq<Block>, s: seq<Message>): Option<Option<Block>>
    requires chain != []
  {
    var t := Fold(sha, TopHash(chain), |chain|, s);
    if n == 0 then Some(None)
    else if s == [] || |t.seen| > n then None
    else Verdict(|t.seen|, n, t.noBlock, t.entries)
  }

  lemma OutcomeOf(sha: Digest, n: nat, chain: seq<Block>, s: seq<Message>, t: Tally)
    requires chain != [] && n > 0 && t == Fold(sha, TopHash(chain), |chain|, s) && |t.seen| <= n
    ensures Outcome(sha, n, chain, s) == if s == [] then None else Verdict(|t.seen|, n, t.noBlock, t.entries)
  {}

  /** A block reported by a round was named in a reply handled by it. */
  lemma OutcomeWasReplied(sha: Digest, n: nat, chain: seq<Block>, s: seq<Message>)
    requires chain != []
    ensures match Outcome(sha, n, chain, s)
            case Some(Some(b)) => exists m :: m in s && m.BlockReply? && m.block == b
            case _ => true
  {
    hide Fold;
    EntriesWereReplied(sha, TopHash(chain), |chain|, s);
  }

  ghost predicate Replied(s: seq<Message>, b: Block) {
    exists m :: m in s && m.BlockReply? && m.block == b
  }

  lemma {:induction false} EntriesWereReplied(sha: Digest, top: ByteString, size: nat, s: seq<Message>)
    ensures forall e :: e in Fold(sha, top, size, s).entries ==> Replied(s, e.block)
  {
    if s != [] {
      var front, m := s[..|s| - 1], s[|s| - 1];
      EntriesWereReplied(sha, top, size, front);
      var t := Fold(sha, top, size, front);
      forall e | e in t.entries ensures Replied(s, e.block) {
        var x :| x in front && x.BlockReply? && x.block == e.block;
        assert x in s;
      }
      if m.BlockReply? {
        assert m in s && Replied(s, m.block);
        CountBlockEntries(t.entries, m.block);
      }
    }
  }

  lemma {:induction false} CountBlockEntries(es: seq<Entry>, b: Block)
    ensures forall e :: e in CountBlock(es, b) ==> e.block == b || exists f :: f in es && f.block == e.block
  {
    if es != [] && es[0].block.hash != b.hash { CountBlockEntries(es[1..], b); }
    assert es == [] || es[0] in es;
  }

  /** r is what a round reports after handling s, and no beginning of s gave a verdict earlier. */
  ghost predicate RoundResult(sha: Digest, n: nat, chain: seq<Block>, s: seq<Message>, r: Option<Option<Block>>)
    requires chain != []
  {
    && Outcome(sha, n, chain, s) == r
    && forall j :: 0 <= j < |s| ==> Outcome(sha, n, chain, s[..j]) == None
  }

  datatype Progress = Progress(chain: seq<Block>, done: bool)

  /** What a round that reported r leads to. */
  function After(sha: Digest, chain: seq<Block>, r: Option<Option<Block>>): (p: Progress)
    requires chain != []
    ensures chain <= p.chain
  {
    match r
    case None => Progress(chain, false)
    case Some(None) => Progress(chain, true)
    case Some(Some(b)) => Progress(chain + [Next(sha, chain, b.data)], false)
  }

  /** A run of rounds, each given by the messages handled in it. */
  ghost function Run(sha: Digest, n: nat, chain: seq<Block>, rounds: seq<seq<Message>>): (p: Progress)
    requires chain != []
    ensures chain <= p.chain
    decreases |rounds|
  {
    if rounds == [] then Progress(chain, false)
    else
      var p := After(sha, chain, Outcome(sha, n, chain, rounds[0]));
      if p.done then p else Run(sha, n, p.chain, rounds[1..])
  }

  /** Each round ended with the first verdict of its messages, as the rounds of the code do. */
  ghost predicate Made(sha: Digest, n: nat, chain: seq<Block>, rounds: seq<seq<Message>>)
    requires chain != []
    decreases |rounds|
  {
    rounds == [] || (
      && RoundResult(sha, n, chain, rounds[0], Outcome(sha, n, chain, rounds[0]))
      && Made(sha, n, After(sha, chain, Outcome(sha, n, chain, rounds[0])).chain, rounds[1..]))
  }

  /** One more round at the end of an unfinished run. */
  lemma {:induction false} RunSnoc(sha: Digest, n: nat, chain: seq<Block>, rounds: seq<seq<Message>>, s: seq<Message>)
    requires chain != [] && !Run(sha, n, chain, rounds).done
    ensures var c := Run(sha, n, chain, rounds).chain;
      && Run(sha, n, chain, rounds + [s]) == After(sha, c, Outcome(sha, n, c, s))
      && (Made(sha, n, chain, rounds) && RoundResult(sha, n, c, s, Outcome(sha, n, c, s)) ==>
           Made(sha, n, chain, rounds + [s]))
    decreases |rounds|
  {
    hide Outcome, After, RoundResult;
    if rounds == [] {
      assert (rounds + [s])[1..] == [];
    } else {
      assert (rounds + [s])[1..] == rounds[1..] + [s] && (rounds + [s])[0] == rounds[0];
      RunSnoc(sha, n, After(sha, chain, Outcome(sha, n, chain, rounds[0])).chain, rounds[1..], s);
    }
  }

  // ------------------------------------------------------------------- safety

  /** Everybody who replies with a block takes it from chain c, whatever its index. */
  ghost predicate FromChain(c: seq<Block>, s: seq<Message>) {
    forall m :: m in s && m.BlockReply? ==> m.block in c
  }

  /** Only the next block of c can be counted, so there is at most one entry. */
  lemma {:induction false} OnlyNextBlock(sha: Digest, size: nat, c: seq<Block>, k: nat, s: seq<Message>)
    requires Injective(sha) && NonEmpty(sha) && Linked(sha, size, c) && 0 < k <= |c|
    requires FromChain(c, s)
    ensures var es := Fold(sha, TopHash(c[..k]), k, s).entries;
      es == [] || (k < |c| && |es| == 1 && es[0].block == c[k])
  {
    if s != [] {
      var front, m := s[..|s| - 1], s[|s| - 1];
      assert FromChain(c, front) by { assert forall x :: x in front ==> x in s; }
      OnlyNextBlock(sha, size, c, k, front);
      if m.BlockReply? && Fits(sha, TopHash(c[..k]), m.block) {
        assert m in s;
        var j :| 0 <= j < |c| && c[j] == m.block;
        FitsOnlyThere(sha, size, c, k, j);
      }
    }
  }

  lemma NextOfPrefix(sha: Digest, size: nat, c: seq<Block>, k: nat)
    requires Linked(sha, size, c) && 0 < k < |c|
    ensures c[..k] + [Next(sha, c[..k], c[k].data)] == c[..k + 1]
  {
    assert c[k].prevHash == TopHash(c[..k]);
  }

  /** A round started on a prefix of c reports nothing, the end, or the next block of c. */
  lemma RoundSafe(sha: Digest, size: nat, n: nat, c: seq<Block>, k: nat, s: seq<Message>)
    requires Injective(sha) && NonEmpty(sha) && Linked(sha, size, c) && 0 < k <= |c|
    requires FromChain(c, s)
    ensures match Outcome(sha, n, c[..k], s)
            case Some(Some(b)) => k < |c| && b == c[k]
            case _ => true
  {
    hide Fold, Linked;
    OnlyNextBlock(sha, size, c, k, s);
  }

  /**
    When all repliers hold chain c, a chain that starts as a prefix of c stays one through
    every run, whatever replies are lost, stale or reordered.
   */
  lemma {:induction false} SyncSafe(sha: Digest, size: nat, n: nat, c: seq<Block>, chain: seq<Block>,
                                    rounds: seq<seq<Message>>)
    requires Injective(sha) && NonEmpty(sha) && Linked(sha, size, c)
    requires chain != [] && chain <= c
    requires forall s :: s in rounds ==> FromChain(c, s)
    ensures chain <= Run(sha, n, chain, rounds).chain <= c
    decreases |rounds|
  {
    hide Outcome, Linked, FromChain;
    if rounds != [] {
      var k := |chain|;
      assert chain == c[..k];
      assert rounds[0] in rounds;
      RoundSafe(sha, size, n, c, k, rounds[0]);
      if k < |c| { NextOfPrefix(sha, size, c, k); }
      var p := After(sha, chain, Outcome(sha, n, chain, rounds[0]));
      if !p.done { SyncSafe(sha, size, n, c, p.chain, rounds[1..]); }
    }
  }

  // ------------------------------------------------------ when a round reports

  /** How many replies named the next block. */
  function Named(t: Tally): nat {
    if t.entries == [] then 0 else t.entries[0].count
  }

  /**
    When all blocks replied come from chain c, a round on its first k blocks reports the end if
    and only if half of the peers are seen, and the next block has not been named or is beaten
    by "no block"; it reports the next block if and only if that leads by more than the peers
    not seen.
   */
  lemma RoundReportsExactly(sha: Digest, size: nat, n: nat, c: seq<Block>, k: nat, s: seq<Message>)
    requires Injective(sha) && NonEmpty(sha) && Linked(sha, size, c) && 0 < k <= |c| && FromChain(c, s)
    requires n > 0 && s != [] && |Fold(sha, TopHash(c[..k]), k, s).seen| <= n
    ensures var t := Fold(sha, TopHash(c[..k]), k, s); var open := n - |t.seen|;
      && (Outcome(sha, n, c[..k], s) == Some(None)
          <==> |t.seen| >= n / 2 && (t.entries == [] || t.noBlock > Named(t) + open))
      && (k < |c| ==> (Outcome(sha, n, c[..k], s) == Some(Some(c[k]))
          <==> |t.seen| >= n / 2 && t.entries != [] && Named(t) > t.noBlock + open))
  {
    hide Linked, Fold, FromChain, Injective, NonEmpty;
    OnlyNextBlock(sha, size, c, k, s);
    var t := Fold(sha, TopHash(c[..k]), k, s);
    if t.entries != [] { OneEntryVerdict(n, t); }
  }

  /** The verdict when a single block was named. */
  lemma OneEntryVerdict(n: nat, t: Tally)
    requires |t.seen| <= n && |t.entries| == 1
    ensures var open := n - |t.seen|; var a := t.entries[0].count;
      Verdict(|t.seen|, n, t.noBlock, t.entries) ==
        if |t.seen| < n / 2 then None
        else if t.noBlock > a + open then Some(None)
        else if a > t.noBlock + open then Some(Some(t.entries[0].block))
        else None
  {
    var v, open := Values(t.noBlock, t.entries), n - |t.seen|;
    assert Leads(v, 0, open) <==> v[0] > v[1] + open;
    assert Leads(v, 1, open) <==> v[1] > v[0] + open;
    if HasLeader(v, open) {
      var w := Leader(v, open);
      if w == 0 { assert Leads(v, 0, open); } else { assert Leads(v, 1, open); }
    }
  }
}
