/**
  Synchronisation when nothing is lost: all peers answer every request, in whatever order.  The
  answers that come after a round has ended are the first that the next round takes from the
  mailbox, and it counts their senders as heard.
 */
module LossFree {
  import opened Words
  import opened Chain
  import opened Messages
  import opened Majority
  import opened Sync
  import opened SyncProgress
  import Voting

  /** Each of these peers answers the request for block k once. */
  ghost predicate AllAnswer(peers: set<PeerAddress>, c: seq<Block>, k: nat, s: seq<Message>) {
    PromptReplies(c, k, s) && forall p :: p in peers <==> p in Senders(s)
  }

  /** What earlier rounds left in the mailbox. */
  ghost predicate Late(peers: set<PeerAddress>, c: seq<Block>, k: nat, late: seq<Message>) {
    StaleReplies(c, k, late) && forall m :: m in late ==> m.from in peers
  }

  /** Too few to end the round before the answers to it arrive. */
  predicate Clear(n: nat, late: seq<Message>) {
    late == [] || |late| < n / 2
  }

  function Rest(late: seq<Message>, batch: seq<Message>, s: seq<Message>): seq<Message> {
    var all := late + batch;
    if |s| <= |all| then all[|s|..] else []
  }

  // ------------------------------------------------------------------ one round

  /** Everybody newly heard after the late replies has answered rightly. */
  lemma {:induction false} LateHeard(c: seq<Block>, k: nat, late: seq<Message>, b: seq<Message>)
    requires StaleReplies(c, k, late) && k < |c| && forall m :: m in b ==> RightReply(c, k, m)
    ensures var h := Hear(c, k, late + b); |h.seen| == |late| + h.right && h.none == 0
  {
    hide Hear;
    if b == [] {
      assert late + b == late;
      DistinctHeard(c, k, late);
      StaleNaming(c, k, late);
      OnlyBlocksHeard(c, k, late);
    } else {
      var front, m := b[..|b| - 1], b[|b| - 1];
      assert m in b && late + b == late + front + [m] && forall x :: x in front ==> x in b;
      LateHeard(c, k, late, front);
      HearSnoc(c, k, late + front, m);
    }
  }

  /** All peers asked are heard in the end, and nobody else. */
  lemma HeardByAll(peers: set<PeerAddress>, c: seq<Block>, k: nat, late: seq<Message>, batch: seq<Message>, i: nat)
    requires AllAnswer(peers, c, k, batch) && Late(peers, c, k, late) && i <= |late| + |batch|
    ensures var a := |Hear(c, k, (late + batch)[..i]).seen|;
      a <= |peers| && (i > 0 ==> a > 0) && (i == |late| + |batch| ==> a == |peers|)
  {
    hide Hear, StaleReplies, PromptReplies;
    var all := late + batch;
    var x := all[..i];
    HeardAreRepliers(c, k, x);
    forall m | m in x ensures Counts(k, m) && m.from in peers { Answered(peers, c, k, late, batch, m); }
    Voting.SubsetSize(Repliers(k, x), peers);
    if i > 0 { assert x[0] in x && x[0].from in Repliers(k, x); }
    if i == |all| {
      assert x == all;
      forall p | p in peers ensures p in Repliers(k, x) {
        var j :| 0 <= j < |batch| && Senders(batch)[j] == p;
        assert all[|late| + j] == batch[j] && batch[j] in x;
      }
      assert Repliers(k, x) == peers;
    }
  }

  lemma Answered(peers: set<PeerAddress>, c: seq<Block>, k: nat, late: seq<Message>, batch: seq<Message>, m: Message)
    requires AllAnswer(peers, c, k, batch) && Late(peers, c, k, late) && m in late + batch
    ensures Counts(k, m) && m.from in peers
  {
    if m in batch {
      var j :| 0 <= j < |batch| && batch[j] == m;
      assert Senders(batch)[j] == m.from;
    }
  }

  /** How many peers answer. */
  lemma AnswersAreAll(peers: set<PeerAddress>, c: seq<Block>, k: nat, batch: seq<Message>)
    requires AllAnswer(peers, c, k, batch)
    ensures |batch| == |peers|
  {
    hide Hear;
    assert [] + batch == batch && batch[..|batch|] == batch;
    assert forall m :: m in batch ==> Counts(k, m);
    HeardByAll(peers, c, k, [], batch, |batch|);
    DistinctHeard(c, k, batch);
  }

  /** With few enough late replies a round never reports the end while a block is missing. */
  lemma ClearReport(peers: set<PeerAddress>, c: seq<Block>, k: nat, late: seq<Message>, batch: seq<Message>, i: nat)
    requires AllAnswer(peers, c, k, batch) && Late(peers, c, k, late) && i <= |late| + |batch|
    requires k < |c| && peers != {} && Clear(|peers|, late)
    ensures var r := Report(|peers|, c, k, (late + batch)[..i]);
      r != Some(false) && (r == Some(true) ==> i > |late|) && (i == |late| + |batch| ==> r == Some(true))
  {
    hide Hear;
    var x := (late + batch)[..i];
    HeardByAll(peers, c, k, late, batch, i);
    if i <= |late| {
      assert x == late[..i] && StaleReplies(c, k, x);
      DistinctHeard(c, k, x);
      StaleNaming(c, k, x);
      AnswersAreAll(peers, c, k, batch);
    } else {
      assert x == late + batch[..i - |late|];
      LateHeard(c, k, late, batch[..i - |late|]);
    }
  }

  /** When no block is missing every round ends with that. */
  lemma EndReport(peers: set<PeerAddress>, c: seq<Block>, k: nat, late: seq<Message>, batch: seq<Message>, i: nat)
    requires AllAnswer(peers, c, k, batch) && Late(peers, c, k, late) && i <= |late| + |batch|
    requires k == |c| && peers != {}
    ensures var r := Report(|peers|, c, k, (late + batch)[..i]);
      r != Some(true) && (i == |late| + |batch| ==> r == Some(false))
  {
    hide Hear;
    HeardByAll(peers, c, k, late, batch, i);
  }

  /** A round takes the messages in order, and gives up only when none is left. */
  ghost predicate Takes(sha: Digest, n: nat, c: seq<Block>, k: nat, late: seq<Message>, batch: seq<Message>,
                        s: seq<Message>)
    requires 0 < k <= |c|
  {
    s <= late + batch && (Outcome(sha, n, c[..k], s) == None ==> s == late + batch)
  }

  /** Whatever is in the mailbox, there is such a round: it ends with the first report. */
  lemma {:induction false} RoundHappens(sha: Digest, n: nat, c: seq<Block>, k: nat, late: seq<Message>,
                                        batch: seq<Message>, i: nat) returns (s: seq<Message>)
    requires 0 < k <= |c| && i <= |late| + |batch|
    requires i < |late| + |batch| ==> Outcome(sha, n, c[..k], (late + batch)[..i]) != None
    ensures Takes(sha, n, c, k, late, batch, s) && RoundResult(sha, n, c[..k], s, Outcome(sha, n, c[..k], s))
  {
    hide Outcome;
    var all := late + batch;
    s := all[..i];
    if j: nat :| j < i && Outcome(sha, n, c[..k], s[..j]) != None {
      assert s[..j] == all[..j];
      s := RoundHappens(sha, n, c, k, late, batch, j);
    }
  }

  lemma LateFromChain(peers: set<PeerAddress>, c: seq<Block>, k: nat, late: seq<Message>, batch: seq<Message>,
                      s: seq<Message>)
    requires AllAnswer(peers, c, k, batch) && Late(peers, c, k, late) && s <= late + batch
    ensures FromChain(c, s)
  {
    forall m | m in s && m.BlockReply? ensures m.block in c { assert m in late + batch; }
  }

  /** What a round reports when all answer: the next block, or the end if too many replies are late. */
  lemma LossFreeRound(sha: Digest, size: nat, peers: set<PeerAddress>, c: seq<Block>, k: nat, late: seq<Message>,
                      batch: seq<Message>, s: seq<Message>)
    requires Injective(sha) && NonEmpty(sha) && Linked(sha, size, c) && 0 < k <= |c| && peers != {}
    requires AllAnswer(peers, c, k, batch) && Late(peers, c, k, late) && Takes(sha, |peers|, c, k, late, batch, s)
    requires RoundResult(sha, |peers|, c[..k], s, Outcome(sha, |peers|, c[..k], s))
    ensures Outcome(sha, |peers|, c[..k], s) == Some(if k < |c| && Clear(|peers|, late) then Some(c[k]) else None)
    ensures k < |c| && Clear(|peers|, late) ==> |s| > |late|
  {
    hide Linked, Injective, NonEmpty, Report, Outcome, AllAnswer, Late, StaleReplies;
    var n := |peers|;
    LateFromChain(peers, c, k, late, batch, s);
    ChainUnmistakable(sha, size, c, k, s);
    RoundByCounting(sha, size, n, c, k, s);
    assert s == (late + batch)[..|s|];
    if k == |c| {
      EndReport(peers, c, k, late, batch, |s|);
    } else if Clear(n, late) {
      ClearReport(peers, c, k, late, batch, |s|);
    } else {
      CloggedRound(sha, size, peers, c, k, late, batch, s);
    }
  }

  lemma CloggedRound(sha: Digest, size: nat, peers: set<PeerAddress>, c: seq<Block>, k: nat, late: seq<Message>,
                     batch: seq<Message>, s: seq<Message>)
    requires Injective(sha) && NonEmpty(sha) && Linked(sha, size, c) && 0 < k < |c| && !Clear(|peers|, late)
    requires AllAnswer(peers, c, k, batch) && Late(peers, c, k, late) && Takes(sha, |peers|, c, k, late, batch, s)
    requires RoundResult(sha, |peers|, c[..k], s, Outcome(sha, |peers|, c[..k], s))
    ensures Outcome(sha, |peers|, c[..k], s) == Some(None)
  {
    hide Linked, Injective, NonEmpty, Fold, Verdict, AllAnswer, Hear;
    var n, all := |peers|, late + batch;
    var i := if n < 2 then 1 else n / 2;
    HeardByAll(peers, c, k, late, batch, |late|);
    assert all[..|late|] == late;
    DistinctHeard(c, k, late);
    StaleRepliesEndSync(sha, size, n, c, k, late[..i]);
    assert |s| >= i ==> s[..i] == late[..i];
    if |s| <= i {
      assert s == late[..|s|];
      if s != [] { StaleRepliesEndSync(sha, size, n, c, k, s); }
    }
  }

  // -------------------------------------------------------------------- runs

  /** All peers answer in every round, as long as the run goes on. */
  ghost predicate LossFreeRun(sha: Digest, peers: set<PeerAddress>, c: seq<Block>, k: nat, late: seq<Message>,
                              batches: seq<seq<Message>>, rounds: seq<seq<Message>>)
    requires 0 < k <= |c|
    decreases |rounds|
  {
    |batches| == |rounds| && (rounds != [] ==>
      && AllAnswer(peers, c, k, batches[0])
      && Takes(sha, |peers|, c, k, late, batches[0], rounds[0])
      && (k < |c| && Outcome(sha, |peers|, c[..k], rounds[0]) == Some(Some(c[k])) ==>
            LossFreeRun(sha, peers, c, k + 1, Rest(late, batches[0], rounds[0]), batches[1..], rounds[1..])))
  }

  /** The run has ended, or has had time to do so. */
  ghost predicate Finished(sha: Digest, n: nat, c: seq<Block>, k: nat, rounds: seq<seq<Message>>)
    requires 0 < k <= |c|
  {
    Run(sha, n, c[..k], rounds).done || |rounds| > |c| - k
  }

  /** While a block is missing, no round starts with too many late replies. */
  predicate NeverClogged(n: nat, c: seq<Block>, k: nat, late: seq<Message>, batches: seq<seq<Message>>,
                         rounds: seq<seq<Message>>)
    requires |batches| == |rounds|
    decreases |rounds|
  {
    rounds != [] && k < |c| ==>
      Clear(n, late) && NeverClogged(n, c, k + 1, Rest(late, batches[0], rounds[0]), batches[1..], rounds[1..])
  }

  /** What is left when a round has found its block is late in the next one. */
  lemma RestIsLate(sha: Digest, size: nat, peers: set<PeerAddress>, c: seq<Block>, k: nat, late: seq<Message>,
                   batch: seq<Message>, s: seq<Message>)
    requires Injective(sha) && NonEmpty(sha) && Linked(sha, size, c) && 0 < k < |c|
    requires AllAnswer(peers, c, k, batch) && |late| < |s| && s <= late + batch
    ensures Late(peers, c, k + 1, Rest(late, batch, s))
    ensures Rest(late, batch, s) == batch[|s| - |late|..]
  {
    hide Linked, Injective, NonEmpty;
    var rest := batch[|s| - |late|..];
    assert Rest(late, batch, s) == rest;
    forall m | m in rest ensures m.BlockReply? && m.block in c && !NamesNext(c, k + 1, m) && m.from in peers {
      var j :| 0 <= j < |batch| && batch[j] == m;
      assert Senders(batch)[j] == m.from && m in batch;
      if k + 1 < |c| { BlocksDiffer(sha, size, c, k, k + 1); }
    }
  }

  /**
    A loss-free run always ends, and it ends with the whole of c if and only if no round that
    still misses a block starts with late replies of half of the peers.
   */
  lemma {:induction false} LossFreeExactly(sha: Digest, size: nat, peers: set<PeerAddress>, c: seq<Block>, k: nat,
                                           late: seq<Message>, batches: seq<seq<Message>>, rounds: seq<seq<Message>>)
    requires Injective(sha) && NonEmpty(sha) && Linked(sha, size, c) && 0 < k <= |c| && peers != {}
    requires Late(peers, c, k, late) && LossFreeRun(sha, peers, c, k, late, batches, rounds)
    requires Made(sha, |peers|, c[..k], rounds) && Finished(sha, |peers|, c, k, rounds)
    ensures Run(sha, |peers|, c[..k], rounds).done
    ensures Run(sha, |peers|, c[..k], rounds).chain == c <==> NeverClogged(|peers|, c, k, late, batches, rounds)
    decreases |rounds|
  {
    hide Linked, Injective, NonEmpty, Outcome, AllAnswer, Late, RoundResult;
    var n, s := |peers|, rounds[0];
    LossFreeRound(sha, size, peers, c, k, late, batches[0], s);
    if k == |c| {
      assert c[..k] == c;
    } else if Clear(n, late) {
      NextOfPrefix(sha, size, c, k);
      RestIsLate(sha, size, peers, c, k, late, batches[0], s);
      LossFreeExactly(sha, size, peers, c, k + 1, Rest(late, batches[0], s), batches[1..], rounds[1..]);
    }
  }

  // -------------------------------------------------------- how many others there are

  /** How much a round with nothing late leaves to the next. */
  lemma FirstSurplus(sha: Digest, size: nat, peers: set<PeerAddress>, c: seq<Block>, k: nat, batch: seq<Message>,
                     s: seq<Message>)
    requires Injective(sha) && NonEmpty(sha) && Linked(sha, size, c) && 0 < k < |c| && peers != {}
    requires AllAnswer(peers, c, k, batch) && Takes(sha, |peers|, c, k, [], batch, s)
    requires RoundResult(sha, |peers|, c[..k], s, Outcome(sha, |peers|, c[..k], s))
    ensures Outcome(sha, |peers|, c[..k], s) == Some(Some(c[k])) && |s| == |peers| / 2 + 1
    ensures Rest([], batch, s) == batch[|s|..] && |Rest([], batch, s)| == |peers| - |peers| / 2 - 1
  {
    hide Linked, Injective, NonEmpty, Outcome, AllAnswer, PromptReplies, RoundResult;
    assert [] + batch == batch;
    NothingLate(peers, c, k);
    LossFreeRound(sha, size, peers, c, k, [], batch, s);
    AnswersAreAll(peers, c, k, batch);
    PromptBeginning(peers, c, k, batch, s);
    FreshRoundMade(sha, size, |peers|, c, k, s);
  }

  lemma PromptBeginning(peers: set<PeerAddress>, c: seq<Block>, k: nat, batch: seq<Message>, s: seq<Message>)
    requires AllAnswer(peers, c, k, batch) && s <= batch
    ensures PromptReplies(c, k, s)
  {
    hide RightReply;
    assert s == batch[..|s|];
    forall m | m in s ensures RightReply(c, k, m) { assert m in batch; }
  }

  /** With at most two others nothing is ever late. */
  lemma {:induction false} TwoNeverClogged(sha: Digest, size: nat, peers: set<PeerAddress>, c: seq<Block>, k: nat,
                                           batches: seq<seq<Message>>, rounds: seq<seq<Message>>)
    requires Injective(sha) && NonEmpty(sha) && Linked(sha, size, c) && 0 < k <= |c| && 0 < |peers| <= 2
    requires LossFreeRun(sha, peers, c, k, [], batches, rounds) && Made(sha, |peers|, c[..k], rounds)
    ensures NeverClogged(|peers|, c, k, [], batches, rounds)
    decreases |rounds|
  {
    hide Linked, Injective, NonEmpty, Outcome, AllAnswer, RoundResult;
    if rounds != [] && k < |c| {
      FirstSurplus(sha, size, peers, c, k, batches[0], rounds[0]);
      NextOfPrefix(sha, size, c, k);
      TwoNeverClogged(sha, size, peers, c, k + 1, batches[1..], rounds[1..]);
    }
  }

  /**
    Loss-free synchronisation reaches the whole of c with at most two others; with more it does
    if at most one block is missing, or at most two when the number of others is even.  When it
    is odd and more are missing, it ends after one block.
   */
  lemma LossFreeBySize(sha: Digest, size: nat, peers: set<PeerAddress>, c: seq<Block>, k: nat,
                       batches: seq<seq<Message>>, rounds: seq<seq<Message>>)
    requires Injective(sha) && NonEmpty(sha) && Linked(sha, size, c) && 0 < k <= |c| && peers != {}
    requires LossFreeRun(sha, peers, c, k, [], batches, rounds)
    requires Made(sha, |peers|, c[..k], rounds) && Finished(sha, |peers|, c, k, rounds)
    ensures var n := |peers|; var r := Run(sha, n, c[..k], rounds);
      && (n <= 2 || |c| - k <= 1 || (n % 2 == 0 && |c| - k == 2) ==> r == Progress(c, true))
      && (n % 2 == 1 && n >= 3 && |c| - k >= 2 ==> r == Progress(c[..k + 1], true))
  {
    hide Linked, Injective, NonEmpty, Outcome, AllAnswer, RoundResult;
    var n := |peers|;
    NothingLate(peers, c, k);
    LossFreeExactly(sha, size, peers, c, k, [], batches, rounds);
    if n <= 2 {
      TwoNeverClogged(sha, size, peers, c, k, batches, rounds);
    } else if k < |c| {
      var late := Rest([], batches[0], rounds[0]);
      FirstSurplus(sha, size, peers, c, k, batches[0], rounds[0]);
      NextOfPrefix(sha, size, c, k);
      RestIsLate(sha, size, peers, c, k, [], batches[0], rounds[0]);
      var bs, rs := batches[1..], rounds[1..];
      if k + 1 < |c| && n % 2 == 1 {
        LossFreeRound(sha, size, peers, c, k + 1, late, bs[0], rs[0]);
      } else if k + 2 == |c| {
        assert NeverClogged(n, c, k + 2, Rest(late, bs[0], rs[0]), bs[1..], rs[1..]);
      }
    }
  }

  lemma NothingLate(peers: set<PeerAddress>, c: seq<Block>, k: nat)
    ensures Late(peers, c, k, [])
  {}

  // ----------------------------------------------------- an even number of others

  /**
    With an even number of others it depends on the order of the answers.  If in the second
    round half of the peers answer before those that were late, synchronisation ends after two blocks.
   */
  lemma PromptPeersFirst(sha: Digest, size: nat, peers: set<PeerAddress>, c: seq<Block>, k: nat,
                         batches: seq<seq<Message>>, rounds: seq<seq<Message>>)
    requires Injective(sha) && NonEmpty(sha) && Linked(sha, size, c) && 0 < k && k + 2 < |c|
    requires |peers| >= 4 && |peers| % 2 == 0
    requires LossFreeRun(sha, peers, c, k, [], batches, rounds)
    requires Made(sha, |peers|, c[..k], rounds) && Finished(sha, |peers|, c, k, rounds)
    requires |rounds| >= 2
    requires var late := Rest([], batches[0], rounds[0]); var h := |peers| / 2;
      h <= |batches[1]| && forall m :: m in batches[1][..h] ==> m.from !in Senders(late)
    ensures Run(sha, |peers|, c[..k], rounds) == Progress(c[..k + 2], true)
  {
    hide Linked, Injective, NonEmpty, Outcome, AllAnswer, RoundResult, Late;
    var n := |peers|;
    FirstSurplus(sha, size, peers, c, k, batches[0], rounds[0]);
    NextOfPrefix(sha, size, c, k);
    RestIsLate(sha, size, peers, c, k, [], batches[0], rounds[0]) by { assert [] + batches[0] == batches[0]; }
    StopsAfterNext(sha, size, peers, c, k + 1, Rest([], batches[0], rounds[0]), batches[1..], rounds[1..]);
  }

  /** A round that leaves half of the answers to the next one gains the last block of the run. */
  lemma StopsAfterNext(sha: Digest, size: nat, peers: set<PeerAddress>, c: seq<Block>, k: nat, late: seq<Message>,
                       batches: seq<seq<Message>>, rounds: seq<seq<Message>>)
    requires Injective(sha) && NonEmpty(sha) && Linked(sha, size, c) && 0 < k && k + 1 < |c|
    requires |peers| >= 4 && |peers| % 2 == 0 && Late(peers, c, k, late) && |late| == |peers| / 2 - 1
    requires LossFreeRun(sha, peers, c, k, late, batches, rounds)
    requires Made(sha, |peers|, c[..k], rounds) && Finished(sha, |peers|, c, k, rounds)
    requires rounds != [] && |peers| / 2 <= |batches[0]|
    requires forall m :: m in batches[0][..|peers| / 2] ==> m.from !in Senders(late)
    ensures Run(sha, |peers|, c[..k], rounds) == Progress(c[..k + 1], true)
  {
    hide Linked, Injective, NonEmpty, Outcome, AllAnswer, RoundResult, Late;
    var s, rest := rounds[0], Rest(late, batches[0], rounds[0]);
    LossFreeRound(sha, size, peers, c, k, late, batches[0], s);
    NextOfPrefix(sha, size, c, k);
    PromptEnough(sha, size, peers, c, k, late, batches[0], s);
    RestIsLate(sha, size, peers, c, k, late, batches[0], s);
    AnswersAreAll(peers, c, k, batches[0]);
    assert Run(sha, |peers|, c[..k], rounds) == Run(sha, |peers|, c[..k + 1], rounds[1..]);
    assert LossFreeRun(sha, peers, c, k + 1, rest, batches[1..], rounds[1..]) && |rounds[1..]| > 0;
    LossFreeRound(sha, size, peers, c, k + 1, rest, batches[1..][0], rounds[1..][0]);
  }

  lemma PromptEnough(sha: Digest, size: nat, peers: set<PeerAddress>, c: seq<Block>, k: nat, late: seq<Message>,
                     batch: seq<Message>, s: seq<Message>)
    requires Injective(sha) && NonEmpty(sha) && Linked(sha, size, c) && 0 < k < |c| && |peers| >= 4
    requires AllAnswer(peers, c, k, batch) && Late(peers, c, k, late) && Takes(sha, |peers|, c, k, late, batch, s)
    requires RoundResult(sha, |peers|, c[..k], s, Outcome(sha, |peers|, c[..k], s))
    requires |peers| % 2 == 0 && |late| == |peers| / 2 - 1 && |late| < |s|
    requires |peers| / 2 <= |batch| && forall m :: m in batch[..|peers| / 2] ==> m.from !in Senders(late)
    ensures |s| <= |late| + |peers| / 2
  {
    hide Linked, Injective, NonEmpty, Outcome, Hear;
    var n := |peers|;
    var b := batch[..n / 2];
    var x := late + b;
    assert x == (late + batch)[..|x|];
    LateFromChain(peers, c, k, late, batch, x);
    ChainUnmistakable(sha, size, c, k, x);
    RoundByCounting(sha, size, n, c, k, x);
    LateHeard(c, k, late, b) by { forall m | m in b ensures RightReply(c, k, m) { assert m in batch; } }
    JoinedDistinct(late, b);
    forall m | m in x ensures Counts(k, m) { Answered(peers, c, k, late, batch, m); }
    DistinctHeard(c, k, x);
    assert Outcome(sha, n, c[..k], x) != None;
    assert |s| >= |x| ==> s[..|x|] == x;
  }

  /**
    If instead the peers that were late always answer first, which is as good as not at all,
    every round takes more than half of the answers, and synchronisation reaches the whole of c.
   */
  lemma {:induction false} LatePeersFirst(sha: Digest, size: nat, peers: set<PeerAddress>, c: seq<Block>, k: nat,
                                          late: seq<Message>, batches: seq<seq<Message>>, rounds: seq<seq<Message>>)
    requires Injective(sha) && NonEmpty(sha) && Linked(sha, size, c) && 0 < k <= |c|
    requires peers != {} && |peers| % 2 == 0 && Late(peers, c, k, late) && |late| < |peers| / 2
    requires LossFreeRun(sha, peers, c, k, late, batches, rounds) && Made(sha, |peers|, c[..k], rounds)
    requires LateFirst(c, k, late, batches, rounds)
    ensures NeverClogged(|peers|, c, k, late, batches, rounds)
    decreases |rounds|
  {
    hide Linked, Injective, NonEmpty, Outcome, AllAnswer, RoundResult, Late;
    if rounds != [] && k < |c| {
      var s := rounds[0];
      LossFreeRound(sha, size, peers, c, k, late, batches[0], s);
      NextOfPrefix(sha, size, c, k);
      RestIsLate(sha, size, peers, c, k, late, batches[0], s);
      AnswersAreAll(peers, c, k, batches[0]);
      LateFirstTakesMore(sha, size, peers, c, k, late, batches[0], s);
      LatePeersFirst(sha, size, peers, c, k + 1, Rest(late, batches[0], s), batches[1..], rounds[1..]);
    }
  }

  /** In every round the first to answer are the peers that were late. */
  predicate LateFirst(c: seq<Block>, k: nat, late: seq<Message>, batches: seq<seq<Message>>,
                      rounds: seq<seq<Message>>)
    requires |batches| == |rounds|
    decreases |rounds|
  {
    rounds != [] && k < |c| ==>
      && |late| <= |batches[0]|
      && (forall p :: p in Senders(late) ==> p in Senders(batches[0][..|late|]))
      && LateFirst(c, k + 1, Rest(late, batches[0], rounds[0]), batches[1..], rounds[1..])
  }

  lemma LateFirstTakesMore(sha: Digest, size: nat, peers: set<PeerAddress>, c: seq<Block>, k: nat,
                           late: seq<Message>, batch: seq<Message>, s: seq<Message>)
    requires Injective(sha) && NonEmpty(sha) && Linked(sha, size, c) && 0 < k < |c|
    requires peers != {} && |late| < |peers| / 2
    requires AllAnswer(peers, c, k, batch) && Late(peers, c, k, late) && |late| < |s| && s <= late + batch
    requires Outcome(sha, |peers|, c[..k], s) == Some(Some(c[k]))
    requires |late| <= |batch| && forall p :: p in Senders(late) ==> p in Senders(batch[..|late|])
    ensures |s| > |late| + |peers| / 2
  {
    hide Linked, Injective, NonEmpty, Outcome, Hear;
    var n, b := |peers|, s[|late|..];
    assert s == late + b && b == batch[..|b|];
    LateFromChain(peers, c, k, late, batch, s);
    ChainUnmistakable(sha, size, c, k, s);
    RoundByCounting(sha, size, n, c, k, s);
    LateHeard(c, k, late, b) by { forall m | m in b ensures RightReply(c, k, m) { assert m in batch; } }
    HeardOfFirst(peers, c, k, late, batch, |b|);
  }

  /** Peers heard before are not heard again. */
  lemma HeardOfFirst(peers: set<PeerAddress>, c: seq<Block>, k: nat, late: seq<Message>, batch: seq<Message>, j: nat)
    requires AllAnswer(peers, c, k, batch) && Late(peers, c, k, late) && j <= |batch| && |late| <= |batch|
    requires forall p :: p in Senders(late) ==> p in Senders(batch[..|late|])
    ensures |Hear(c, k, late + batch[..j]).seen| <= if j < |late| then |late| else j
  {
    hide Hear, Repliers, AllAnswer, Late, RightReply;
    var i := if j < |late| then |late| else j;
    var x, b := late + batch[..j], batch[..i];
    HeardAreRepliers(c, k, x); HeardAreRepliers(c, k, b);
    BeginningCounts(peers, c, k, batch, i);
    DistinctHeard(c, k, b);
    RepliersWithin(k, x, b) by {
      forall m | m in x ensures m.from in Senders(b) { EarlierSender(late, batch, j, m); }
    }
    Voting.SubsetSize(Repliers(k, x), Repliers(k, b));
  }

  lemma BeginningCounts(peers: set<PeerAddress>, c: seq<Block>, k: nat, batch: seq<Message>, i: nat)
    requires AllAnswer(peers, c, k, batch) && i <= |batch|
    ensures Distinct(batch[..i]) && forall m :: m in batch[..i] ==> Counts(k, m)
  {
    forall m | m in batch[..i] ensures Counts(k, m) { assert m in batch && RightReply(c, k, m); }
  }

  lemma EarlierSender(late: seq<Message>, batch: seq<Message>, j: nat, m: Message)
    requires j <= |batch| && |late| <= |batch| && m in late + batch[..j]
    requires forall p :: p in Senders(late) ==> p in Senders(batch[..|late|])
    ensures m.from in Senders(batch[..if j < |late| then |late| else j])
  {
    var b := batch[..if j < |late| then |late| else j];
    if m in late {
      var q :| 0 <= q < |late| && late[q] == m;
      assert Senders(late)[q] == m.from;
      var first := batch[..|late|];
      assert m.from in Senders(first);
      var r :| 0 <= r < |first| && Senders(first)[r] == m.from;
      assert first[r] == b[r] && Senders(b)[r] == m.from;
    } else {
      var q :| 0 <= q < j && batch[q] == m;
      assert Senders(b)[q] == m.from;
    }
  }

  lemma RepliersWithin(k: nat, x: seq<Message>, b: seq<Message>)
    requires forall m :: m in x ==> m.from in Senders(b)
    requires forall m :: m in b ==> Counts(k, m)
    ensures Repliers(k, x) <= Repliers(k, b)
  {
    forall m | m in x ensures m.from in Repliers(k, b) {
      var q :| 0 <= q < |b| && Senders(b)[q] == m.from;
      assert b[q] in b;
    }
  }

  lemma JoinedDistinct(a: seq<Message>, b: seq<Message>)
    requires Distinct(a) && Distinct(b) && forall m :: m in b ==> m.from !in Senders(a)
    ensures Distinct(a + b)
  {
    var s := a + b;
    forall i, j | 0 <= i < j < |s| ensures s[i].from != s[j].from {
      if i < |a| <= j { assert Senders(a)[i] == s[i].from && s[j] in b; }
    }
  }
}
