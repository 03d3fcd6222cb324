/**
  What synchronisation achieves, by counting alone: how many peers have been heard in a round,
  and how many of them named the next block, decide what the round reports.  No reply is assumed
  to be in time; replies to earlier requests are counted as the code counts them.
 */
module SyncProgress {
  import opened Words
  import opened Chain
  import opened Messages
  import opened Majority
  import opened Sync

  /** Whether the message makes its sender count as seen in a round for block k. */
  predicate Counts(k: nat, m: Message) {
    m.NoBlock? || m.BlockReply? || (m.RequestBlock? && m.index == k)
  }

  /** The message names the block asked for. */
  predicate NamesNext(c: seq<Block>, k: nat, m: Message) {
    k < |c| && m.BlockReply? && m.block == c[k]
  }

  /** The peers heard, and how many of them first named the next block, or said that there is none. */
  datatype Heard = Heard(seen: seq<PeerAddress>, right: nat, none: nat)

  function Listen(c: seq<Block>, k: nat, h: Heard, m: Message): Heard {
    if !Counts(k, m) || m.from in h.seen then h
    else Heard(h.seen + [m.from],
               h.right + (if NamesNext(c, k, m) then 1 else 0),
               h.none + (if m.NoBlock? then 1 else 0))
  }

  function Hear(c: seq<Block>, k: nat, s: seq<Message>): (h: Heard)
    ensures h.right + h.none <= |h.seen| && (k >= |c| ==> h.right == 0)
    ensures forall i, j :: 0 <= i < j < |h.seen| ==> h.seen[i] != h.seen[j]
  {
    if s == [] then Heard([], 0, 0) else Listen(c, k, Hear(c, k, s[..|s| - 1]), s[|s| - 1])
  }

  lemma HearSnoc(c: seq<Block>, k: nat, s: seq<Message>, m: Message)
    ensures Hear(c, k, s + [m]) == Listen(c, k, Hear(c, k, s), m)
  {
    assert (s + [m])[..|s|] == s;
  }

  /** No reply but the one with the next block of c can be appended. */
  ghost predicate Unmistakable(sha: Digest, c: seq<Block>, k: nat, s: seq<Message>)
    requires 0 < k <= |c|
  {
    forall m :: m in s && m.BlockReply? && Fits(sha, TopHash(c[..k]), m.block) ==> NamesNext(c, k, m)
  }

  lemma ChainUnmistakable(sha: Digest, size: nat, c: seq<Block>, k: nat, s: seq<Message>)
    requires Injective(sha) && NonEmpty(sha) && Linked(sha, size, c) && 0 < k <= |c| && FromChain(c, s)
    ensures Unmistakable(sha, c, k, s)
  {
    forall m | m in s && m.BlockReply? && Fits(sha, TopHash(c[..k]), m.block) ensures NamesNext(c, k, m) {
      var j :| 0 <= j < |c| && c[j] == m.block;
      FitsOnlyThere(sha, size, c, k, j);
    }
  }

  /** The tally of what was heard. */
  function Counted(c: seq<Block>, k: nat, h: Heard): Tally {
    Tally(h.seen, h.none, if k < |c| && h.right > 0 then [Entry(c[k], h.right)] else [])
  }

  lemma {:induction false} HeardIsTally(sha: Digest, size: nat, c: seq<Block>, k: nat, s: seq<Message>)
    requires Linked(sha, size, c) && 0 < k <= |c| && Unmistakable(sha, c, k, s)
    ensures Fold(sha, TopHash(c[..k]), k, s) == Counted(c, k, Hear(c, k, s))
  {
    if s != [] {
      var front, m := s[..|s| - 1], s[|s| - 1];
      assert m in s && forall x :: x in front ==> x in s;
      HeardIsTally(sha, size, c, k, front);
      ListenIsStep(sha, size, c, k, Hear(c, k, front), m);
    }
  }

  lemma ListenIsStep(sha: Digest, size: nat, c: seq<Block>, k: nat, h: Heard, m: Message)
    requires Linked(sha, size, c) && 0 < k <= |c| && (k >= |c| ==> h.right == 0)
    requires m.BlockReply? && Fits(sha, TopHash(c[..k]), m.block) ==> NamesNext(c, k, m)
    ensures Step(sha, TopHash(c[..k]), k, Counted(c, k, h), m) == Counted(c, k, Listen(c, k, h, m))
  {
    if NamesNext(c, k, m) { assert Fits(sha, TopHash(c[..k]), c[k]); }
  }

  // ------------------------------------------------------------------ one round

  /** What a round with n other peers reports: nothing yet, or whether it found the next block. */
  function Report(n: nat, c: seq<Block>, k: nat, s: seq<Message>): Option<bool> {
    var h := Hear(c, k, s);
    if n == 0 then Some(false)
    else if s == [] || |h.seen| > n || |h.seen| < n / 2 then None
    else if h.right == 0 || h.none + |h.seen| > h.right + n then Some(false)
    else if h.right + |h.seen| > h.none + n then Some(true)
    else None
  }

  /** That report in terms of the chain. */
  function Told(c: seq<Block>, k: nat, r: Option<bool>): Option<Option<Block>> {
    match r
    case None => None
    case Some(found) => Some(if found && k < |c| then Some(c[k]) else None)
  }

  /** What a round reports is decided by counting. */
  lemma RoundByCounting(sha: Digest, size: nat, n: nat, c: seq<Block>, k: nat, s: seq<Message>)
    requires Linked(sha, size, c) && 0 < k <= |c| && Unmistakable(sha, c, k, s)
    ensures Outcome(sha, n, c[..k], s) == Told(c, k, Report(n, c, k, s))
  {
    hide Linked, Unmistakable, Fold, Hear;
    HeardIsTally(sha, size, c, k, s);
    var t := Fold(sha, TopHash(c[..k]), k, s);
    if t.entries != [] && |t.seen| <= n { OneEntryVerdict(n, t); }
  }

  lemma BeginningUnmistakable(sha: Digest, c: seq<Block>, k: nat, s: seq<Message>, j: nat)
    requires 0 < k <= |c| && Unmistakable(sha, c, k, s) && j <= |s|
    ensures Unmistakable(sha, c, k, s[..j])
  {
    forall m | m in s[..j] ensures m in s {}
  }

  /** More than the peers not heard are ahead for the next block. */
  predicate Won(n: nat, h: Heard) {
    |h.seen| <= n < h.right + |h.seen|
  }

  /** Half of the peers have been heard and none of them named it. */
  predicate Stuck(n: nat, h: Heard) {
    h.right == 0 && n / 2 <= |h.seen| <= n
  }

  ghost predicate OnlyBlocks(s: seq<Message>) {
    forall m :: m in s ==> !m.NoBlock?
  }

  lemma {:induction false} OnlyBlocksHeard(c: seq<Block>, k: nat, s: seq<Message>)
    requires OnlyBlocks(s)
    ensures Hear(c, k, s).none == 0
  {
    if s != [] {
      assert s[|s| - 1] in s;
      OnlyBlocksHeard(c, k, s[..|s| - 1]);
    }
  }

  /** Where a round on these messages first reports r. */
  ghost predicate EndsAt(sha: Digest, n: nat, chain: seq<Block>, s: seq<Message>, j: nat, r: Option<Block>)
    requires chain != [] && j <= |s|
  {
    RoundResult(sha, n, chain, s[..j], Some(r))
  }

  /**
    Late replies allowed: a round gains the next block if and only if some beginning wins it
    before any beginning is stuck.
   */
  lemma GainedExactly(sha: Digest, size: nat, n: nat, c: seq<Block>, k: nat, s: seq<Message>)
    requires Injective(sha) && NonEmpty(sha) && Linked(sha, size, c) && 0 < k < |c| && FromChain(c, s)
    requires n > 0 && OnlyBlocks(s)
    ensures (exists j :: 0 <= j <= |s| && EndsAt(sha, n, c[..k], s, j, Some(c[k])))
       <==> exists j :: 0 < j <= |s| && Won(n, Hear(c, k, s[..j])) && NeverStuck(n, c, k, s[..j])
  {
    hide Linked, Injective, NonEmpty, FromChain, Outcome, Hear;
    ChainUnmistakable(sha, size, c, k, s);
    forall j | 0 <= j <= |s|
      ensures Outcome(sha, n, c[..k], s[..j]) ==
        if j > 0 && Stuck(n, Hear(c, k, s[..j])) then Some(None)
        else if j > 0 && Won(n, Hear(c, k, s[..j])) then Some(Some(c[k])) else None
    {
      OnlyBlocksReport(sha, size, n, c, k, s, j);
    }
    if j :| 0 <= j <= |s| && EndsAt(sha, n, c[..k], s, j, Some(c[k])) {
      BeginningOf(s, j);
      assert Outcome(sha, n, c[..k], s[..j]) == Some(Some(c[k]));
      forall i | 0 < i < j ensures !Stuck(n, Hear(c, k, s[..j][..i])) {
        assert s[..j][..i] == s[..i] && Outcome(sha, n, c[..k], s[..j][..i]) == None;
      }
    }
    if j :| 0 < j <= |s| && Won(n, Hear(c, k, s[..j])) && NeverStuck(n, c, k, s[..j]) {
      var i := FirstWon(n, c, k, s, j);
      forall x | 0 <= x < i ensures Outcome(sha, n, c[..k], s[..i][..x]) == None {
        assert s[..i][..x] == s[..x] == s[..j][..x];
      }
      assert EndsAt(sha, n, c[..k], s, i, Some(c[k]));
    }
  }

  ghost predicate NeverStuck(n: nat, c: seq<Block>, k: nat, s: seq<Message>) {
    forall i :: 0 < i < |s| ==> !Stuck(n, Hear(c, k, s[..i]))
  }

  lemma BeginningOf(s: seq<Message>, j: nat)
    requires j <= |s|
    ensures forall i :: 0 <= i <= j ==> s[..j][..i] == s[..i]
  {}

  lemma {:induction false} FirstWon(n: nat, c: seq<Block>, k: nat, s: seq<Message>, j: nat) returns (i: nat)
    requires 0 < j <= |s| && Won(n, Hear(c, k, s[..j]))
    ensures 0 < i <= j && Won(n, Hear(c, k, s[..i])) && forall x :: 0 < x < i ==> !Won(n, Hear(c, k, s[..x]))
  {
    hide Hear;
    i := j;
    if x :| 0 < x < j && Won(n, Hear(c, k, s[..x])) { i := FirstWon(n, c, k, s, x); }
  }

  lemma OnlyBlocksReport(sha: Digest, size: nat, n: nat, c: seq<Block>, k: nat, s: seq<Message>, j: nat)
    requires Linked(sha, size, c) && 0 < k < |c| && Unmistakable(sha, c, k, s) && n > 0 && OnlyBlocks(s) && j <= |s|
    ensures Outcome(sha, n, c[..k], s[..j]) ==
      if j > 0 && Stuck(n, Hear(c, k, s[..j])) then Some(None)
      else if j > 0 && Won(n, Hear(c, k, s[..j])) then Some(Some(c[k])) else None
  {
    hide Linked, Unmistakable, Hear, Outcome;
    BeginningUnmistakable(sha, c, k, s, j);
    RoundByCounting(sha, size, n, c, k, s[..j]);
    assert OnlyBlocks(s[..j]) by { forall m | m in s[..j] ensures m in s {} }
    OnlyBlocksHeard(c, k, s[..j]);
  }

  // ---------------------------------------------------- replies of different peers

  ghost predicate Distinct(s: seq<Message>) {
    forall i, j :: 0 <= i < j < |s| ==> s[i].from != s[j].from
  }

  /** How many messages name the next block. */
  function Naming(c: seq<Block>, k: nat, s: seq<Message>): (f: nat)
    ensures f <= |s|
  {
    if s == [] then 0
    else Naming(c, k, s[..|s| - 1]) + (if NamesNext(c, k, s[|s| - 1]) then 1 else 0)
  }

  lemma {:induction false} DistinctHeard(c: seq<Block>, k: nat, s: seq<Message>)
    requires Distinct(s) && forall m :: m in s ==> Counts(k, m)
    ensures Hear(c, k, s).seen == Senders(s) && Hear(c, k, s).right == Naming(c, k, s)
  {
    hide Counts, NamesNext, Senders;
    if s != [] {
      var n := |s| - 1;
      assert s[n] in s;
      DistinctHeard(c, k, s[..n]);
      NewSender(s);
    }
  }

  lemma NewSender(s: seq<Message>)
    requires Distinct(s) && s != []
    ensures var n := |s| - 1; Senders(s) == Senders(s[..n]) + [s[n].from] && s[n].from !in Senders(s[..n])
  {}

  ghost predicate BlocksOf(c: seq<Block>, s: seq<Message>) {
    forall m :: m in s ==> m.BlockReply? && m.block in c
  }

  /** What a round reports on block replies of different peers, f of them in time. */
  lemma MixedOutcome(sha: Digest, size: nat, n: nat, c: seq<Block>, k: nat, s: seq<Message>)
    requires Injective(sha) && NonEmpty(sha) && Linked(sha, size, c) && 0 < k < |c|
    requires BlocksOf(c, s) && Distinct(s) && s != [] && |s| <= n
    ensures var f := Naming(c, k, s);
      Outcome(sha, n, c[..k], s) ==
        if |s| < n / 2 then None
        else if f == 0 then Some(None)
        else if f + |s| > n then Some(Some(c[k]))
        else None
  {
    hide Linked, Injective, NonEmpty, Hear, Outcome, Naming;
    ChainUnmistakable(sha, size, c, k, s);
    RoundByCounting(sha, size, n, c, k, s);
    DistinctHeard(c, k, s);
    OnlyBlocksHeard(c, k, s);
  }

  /** Blocks of c, but not the one asked for, from different peers. */
  ghost predicate StaleReplies(c: seq<Block>, k: nat, s: seq<Message>) {
    Distinct(s) && BlocksOf(c, s) && forall m :: m in s ==> !NamesNext(c, k, m)
  }

  lemma {:induction false} StaleNaming(c: seq<Block>, k: nat, s: seq<Message>)
    requires forall m :: m in s ==> !NamesNext(c, k, m)
    ensures Naming(c, k, s) == 0
  {
    if s != [] {
      assert s[|s| - 1] in s;
      StaleNaming(c, k, s[..|s| - 1]);
    }
  }

  /** Outdated replies alone end synchronisation as soon as they come from half of the peers. */
  lemma StaleRepliesEndSync(sha: Digest, size: nat, n: nat, c: seq<Block>, k: nat, s: seq<Message>)
    requires Injective(sha) && NonEmpty(sha) && Linked(sha, size, c) && 0 < k <= |c|
    requires StaleReplies(c, k, s) && s != [] && |s| <= n
    ensures Outcome(sha, n, c[..k], s) == if |s| >= n / 2 then Some(None) else None
  {
    hide Linked, Injective, NonEmpty, Hear, Outcome, Naming;
    ChainUnmistakable(sha, size, c, k, s);
    RoundByCounting(sha, size, n, c, k, s);
    DistinctHeard(c, k, s);
    StaleNaming(c, k, s);
  }

  // ------------------------------------------------------------ right replies only

  ghost function Repliers(k: nat, s: seq<Message>): set<PeerAddress> {
    set m | m in s && Counts(k, m) :: m.from
  }

  /** What a peer that holds c replies to a request for its block k. */
  ghost predicate RightReply(c: seq<Block>, k: nat, m: Message) {
    if k < |c| then m.BlockReply? && m.block == c[k] else m.NoBlock?
  }

  /** All replies in s are right; there may be other messages, and repeated replies. */
  ghost predicate Fresh(c: seq<Block>, k: nat, s: seq<Message>) {
    forall m :: m in s && Counts(k, m) ==> RightReply(c, k, m)
  }

  /** Nobody is heard twice. */
  lemma {:induction false} HeardAreRepliers(c: seq<Block>, k: nat, s: seq<Message>)
    ensures |Hear(c, k, s).seen| == |Repliers(k, s)|
    ensures forall p :: p in Hear(c, k, s).seen <==> p in Repliers(k, s)
  {
    hide Counts, NamesNext, Repliers;
    if s == [] {
      NoRepliers(k);
    } else {
      var front, m := s[..|s| - 1], s[|s| - 1];
      assert s == front + [m];
      HeardAreRepliers(c, k, front);
      RepliersSnoc(k, front, m);
      if Counts(k, m) && m.from in Repliers(k, front) { assert Repliers(k, s) == Repliers(k, front); }
    }
  }

  lemma NoRepliers(k: nat)
    ensures Repliers(k, []) == {}
  {}

  lemma RepliersSnoc(k: nat, s: seq<Message>, m: Message)
    ensures Repliers(k, s + [m]) == Repliers(k, s) + (if Counts(k, m) then {m.from} else {})
  {}

  lemma {:induction false} FreshHeard(c: seq<Block>, k: nat, s: seq<Message>)
    requires Fresh(c, k, s)
    ensures var h := Hear(c, k, s);
      h.right == (if k < |c| then |h.seen| else 0) && h.none == |h.seen| - h.right
  {
    if s != [] {
      var front, m := s[..|s| - 1], s[|s| - 1];
      assert m in s && forall x :: x in front ==> x in s;
      FreshHeard(c, k, front);
    }
  }

  /**
    What a round with right replies only reports.  The exception is a round in which nobody has
    replied and nobody needs to: with one other peer any message ends it.
   */
  lemma FreshOutcome(sha: Digest, size: nat, n: nat, c: seq<Block>, k: nat, s: seq<Message>)
    requires Linked(sha, size, c) && 0 < k <= |c| && Fresh(c, k, s) && n > 0
    ensures var a := |Repliers(k, s)|;
      Outcome(sha, n, c[..k], s) ==
        if s == [] || a > n || a < n / 2 then None
        else if k == |c| || a == 0 then Some(None)
        else if 2 * a > n then Some(Some(c[k]))
        else None
  {
    hide Linked, Hear, Repliers, Outcome;
    RoundByCounting(sha, size, n, c, k, s);
    FreshHeard(c, k, s);
    HeardAreRepliers(c, k, s);
  }

  /** How many replies the code handles in a round when all of them are right. */
  function Needed(n: nat, c: seq<Block>, k: nat): nat {
    if k < |c| then n / 2 + 1 else if n < 2 then 1 else n / 2
  }

  /** Right replies of different peers. */
  ghost predicate PromptReplies(c: seq<Block>, k: nat, s: seq<Message>) {
    Distinct(s) && forall m :: m in s ==> RightReply(c, k, m)
  }

  /** Such rounds are really made: with right replies of different peers a round ends at exactly that number. */
  lemma FreshRoundMade(sha: Digest, size: nat, n: nat, c: seq<Block>, k: nat, s: seq<Message>)
    requires Linked(sha, size, c) && 0 < k <= |c| && n > 0 && PromptReplies(c, k, s) && |s| <= n
    ensures RoundResult(sha, n, c[..k], s, Some(if k < |c| then Some(c[k]) else None)) <==> |s| == Needed(n, c, k)
  {
    hide Linked, Outcome, PromptReplies;
    forall j | 0 <= j <= |s|
      ensures Outcome(sha, n, c[..k], s[..j]) ==
        if j < Needed(n, c, k) then None else Some(if k < |c| then Some(c[k]) else None)
    {
      PromptOutcome(sha, size, n, c, k, s, j);
    }
    assert s[..|s|] == s;
    if |s| > Needed(n, c, k) { assert Outcome(sha, n, c[..k], s[..Needed(n, c, k)]) != None; }
  }

  lemma PromptOutcome(sha: Digest, size: nat, n: nat, c: seq<Block>, k: nat, s: seq<Message>, j: nat)
    requires Linked(sha, size, c) && 0 < k <= |c| && n > 0 && PromptReplies(c, k, s) && j <= |s| <= n
    ensures Outcome(sha, n, c[..k], s[..j]) ==
      if j < Needed(n, c, k) then None else Some(if k < |c| then Some(c[k]) else None)
  {
    hide Linked, Outcome, Hear, Naming;
    var front := s[..j];
    assert Fresh(c, k, front) && forall m :: m in front ==> Counts(k, m) by {
      forall m | m in front ensures RightReply(c, k, m) { assert m in s; }
    }
    DistinctHeard(c, k, front);
    FreshHeard(c, k, front);
    RoundByCounting(sha, size, n, c, k, front);
  }

  /**
    The replies that come too late for a round, when all peers answer and n is odd, are just
    enough to end synchronisation in the next one.
   */
  lemma SurplusEndsSync(sha: Digest, size: nat, n: nat, c: seq<Block>, k: nat, s: seq<Message>)
    requires Injective(sha) && NonEmpty(sha) && Linked(sha, size, c) && 0 < k && k + 1 < |c|
    requires n % 2 == 1 && n >= 3 && PromptReplies(c, k, s) && |s| == n - Needed(n, c, k)
    ensures Outcome(sha, n, c[..k + 1], s) == Some(None) && !Fresh(c, k + 1, s)
  {
    hide Linked, Outcome, Injective, NonEmpty;
    BlocksDiffer(sha, size, c, k, k + 1);
    assert s[0] in s;
    StaleRepliesEndSync(sha, size, n, c, k + 1, s);
  }

  lemma BlocksDiffer(sha: Digest, size: nat, c: seq<Block>, i: nat, j: nat)
    requires Injective(sha) && NonEmpty(sha) && Linked(sha, size, c) && 0 < i < |c| && j < |c| && i != j
    ensures c[i] != c[j]
  {
    if c[i] == c[j] { FitsOnlyThere(sha, size, c, i, j); }
  }

  // -------------------------------------------------------------------- runs

  /** Some round of the run reports the end although blocks are missing. */
  predicate EndsEarly(n: nat, c: seq<Block>, k: nat, rounds: seq<seq<Message>>)
    decreases |rounds|
  {
    rounds != [] &&
      match Report(n, c, k, rounds[0])
      case None => EndsEarly(n, c, k, rounds[1..])
      case Some(found) => k < |c| && (found ==> EndsEarly(n, c, k + 1, rounds[1..]))
  }

  /** How many rounds find the next block, or rightly report the end, before the run ends. */
  function SettledRounds(n: nat, c: seq<Block>, k: nat, rounds: seq<seq<Message>>): nat
    decreases |rounds|
  {
    if rounds == [] then 0
    else
      match Report(n, c, k, rounds[0])
      case None => SettledRounds(n, c, k, rounds[1..])
      case Some(found) => if k >= |c| then 1 else if found then 1 + SettledRounds(n, c, k + 1, rounds[1..]) else 0
  }

  ghost predicate AllFromChain(c: seq<Block>, rounds: seq<seq<Message>>) {
    forall s :: s in rounds ==> FromChain(c, s)
  }

  /**
    What a run of rounds achieves, whatever is lost, late, repeated or reordered: each settled
    round brings the next block of c, and the run ends with the whole of c if and only if none
    ends early and more are settled than blocks are missing.
   */
  lemma {:induction false} ProgressExactly(sha: Digest, size: nat, n: nat, c: seq<Block>, k: nat,
                                           rounds: seq<seq<Message>>)
    requires Injective(sha) && NonEmpty(sha) && Linked(sha, size, c) && 0 < k <= |c| && AllFromChain(c, rounds)
    ensures var u := SettledRounds(n, c, k, rounds);
      if EndsEarly(n, c, k, rounds)
      then k + u < |c| && Run(sha, n, c[..k], rounds) == Progress(c[..k + u], true)
      else if u > |c| - k then Run(sha, n, c[..k], rounds) == Progress(c, true)
      else Run(sha, n, c[..k], rounds) == Progress(c[..k + u], false)
    decreases |rounds|
  {
    hide Outcome, Report, Linked, FromChain, Injective, NonEmpty;
    if k == |c| { assert c[..k] == c; }
    if rounds != [] {
      assert rounds[0] in rounds && forall s :: s in rounds[1..] ==> s in rounds;
      ChainUnmistakable(sha, size, c, k, rounds[0]);
      RoundByCounting(sha, size, n, c, k, rounds[0]);
      if k < |c| { NextOfPrefix(sha, size, c, k); }
      var r := Report(n, c, k, rounds[0]);
      if r == None {
        ProgressExactly(sha, size, n, c, k, rounds[1..]);
      } else if r == Some(true) && k < |c| {
        ProgressExactly(sha, size, n, c, k + 1, rounds[1..]);
      }
    }
  }

  /** Every round up to the end of the run finds the next block, or that there is none, as the case may be. */
  ghost predicate AllSettled(n: nat, c: seq<Block>, k: nat, rounds: seq<seq<Message>>)
    decreases |rounds|
  {
    rounds == [] || (
      && Report(n, c, k, rounds[0]) == Some(k < |c|)
      && (k < |c| ==> AllSettled(n, c, k + 1, rounds[1..])))
  }

  lemma {:induction false} AllSettledCount(n: nat, c: seq<Block>, k: nat, rounds: seq<seq<Message>>)
    requires k <= |c| && AllSettled(n, c, k, rounds)
    ensures SettledRounds(n, c, k, rounds) == if |rounds| > |c| - k then |c| - k + 1 else |rounds|
    ensures !EndsEarly(n, c, k, rounds)
    decreases |rounds|
  {
    hide Report;
    if rounds != [] && k < |c| { AllSettledCount(n, c, k + 1, rounds[1..]); }
  }

  /** When every round is settled, one round per missing block and one more reach the whole of c. */
  lemma SyncCompletes(sha: Digest, size: nat, n: nat, c: seq<Block>, k: nat, rounds: seq<seq<Message>>)
    requires Injective(sha) && NonEmpty(sha) && Linked(sha, size, c) && 0 < k <= |c| && AllFromChain(c, rounds)
    requires AllSettled(n, c, k, rounds) && |rounds| > |c| - k
    ensures Run(sha, n, c[..k], rounds) == Progress(c, true)
  {
    hide Run, Linked, AllSettled, EndsEarly, SettledRounds;
    ProgressExactly(sha, size, n, c, k, rounds);
    AllSettledCount(n, c, k, rounds);
  }
}
