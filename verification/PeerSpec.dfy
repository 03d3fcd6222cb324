/**
  What the protocol of one peer is to do: which messages it endorses and answers, how counts of
  votes are logged, and what becomes of the messages in its mailbox.
 */
module PeerSpec {
  import opened Words
  import opened Chain
  import opened Messages
  import opened HashCash
  import opened Selection
  import LossFree
  import Sync
  import SyncProgress
  import Voting

  datatype Outgoing = Broadcast(m: Message) | Respond(to: PeerAddress, m: Message)

  /** One finished count of votes. */
  datatype Record = Record(block: Block, phase: Voting.Phase)

  /** What a peer is and knows while it handles messages. */
  datatype Setting = Setting(own: PeerAddress, sha: Digest, difficulty: nat, others: nat, chain: seq<Block>)

  /** What changes about a peer while it handles messages. */
  datatype View = View(stream: seq<Message>, candidates: seq<Block>, history: seq<Record>, sent: seq<Outgoing>)

  // ------------------------------------------------------------------ requests

  /** The seed of the puzzle of a block. */
  function Seed(sha: Digest, b: Block): ByteString {
    sha(b.data + b.hash + b.prevHash)
  }

  /** The block can be appended as it is. */
  ghost predicate OnTop(w: Setting, b: Block) {
    w.chain != [] && Sync.Fits(w.sha, TopHash(w.chain), b)
  }

  /** The checks a peer makes before it votes in favour. */
  ghost predicate Endorses(w: Setting, m: Message) {
    && m.AddRequest? && m.index == |w.chain| && OnTop(w, m.block)
    && Solution(w.sha, w.difficulty, Seed(w.sha, m.block), m.pow)
  }

  /** An endorsed request whose block goes before b. */
  ghost predicate Overtakes(w: Setting, b: Block, m: Message) {
    Endorses(w, m) && LexLe(m.block.hash, b.hash)
  }

  /**
    An honest proposal is endorsed everywhere: sent to a peer with the same chain it is read
    back unchanged, and passes all four checks exactly when its key solves the puzzle.
   */
  lemma HonestProposalEndorsed(w: Setting, size: nat, from: PeerAddress, data: ByteString, pow: ByteString)
    requires w.chain != [] && |data| == size && ValidAddress(from) && |w.chain| < SIZE_MAX && |pow| < SIZE_MAX
    requires |TopHash(w.chain)| < SIZE_MAX && |Next(w.sha, w.chain, data).hash| < SIZE_MAX
    ensures var b := Next(w.sha, w.chain, data); var m := AddRequest(from, |w.chain|, pow, b);
      && Parse(Serialize(m), size) == Some(m)
      && (Endorses(w, m) <==> Solution(w.sha, w.difficulty, w.sha(data + b.hash + TopHash(w.chain)), pow))
  {
    hide Parse, Serialize, Solution;
    MessageRoundTrip(AddRequest(from, |w.chain|, pow, Next(w.sha, w.chain, data)), size);
  }

  // ---------------------------------------------------------- what is sent

  /** The answer to a request for a block. */
  function Answer(w: Setting, index: nat): Message {
    if index < |w.chain| then BlockReply(w.own, index, w.chain[index]) else NoBlock(w.own, index)
  }

  /** What is sent while a round of synchronisation handles s. */
  function Answers(w: Setting, s: seq<Message>): seq<Outgoing> {
    if s == [] then []
    else
      var m := s[|s| - 1];
      Answers(w, s[..|s| - 1]) +
      (if m.RequestBlock? && m.index < |w.chain| then [Respond(m.from, Answer(w, m.index))] else [])
  }

  /** Among what was sent since. */
  ghost predicate SentSince(before: seq<Outgoing>, after: seq<Outgoing>, o: Outgoing) {
    exists k :: |before| <= k < |after| && after[k] == o
  }

  /** The vote on a request. */
  function Ballot(w: Setting, m: Message, agree: bool): Outgoing
    requires m.AddRequest?
  {
    Broadcast(Vote(w.own, m.index, agree, m.block.hash))
  }

  /** A request to add the next block. */
  predicate Timely(w: Setting, m: Message) {
    m.AddRequest? && m.index == |w.chain|
  }

  /** The vote on a request met while the votes on b are counted: in favour only of a block that goes before b. */
  ghost predicate RivalVote(w: Setting, b: Block, m: Message)
    requires m.AddRequest?
  {
    LexLe(m.block.hash, b.hash) && Endorses(w, m)
  }

  /**
    While the votes on b are counted, a request for a block we have, or for the next one, is
    answered; a request to add the next one is voted on as it deserves.
   */
  ghost predicate ServedOne(w: Setting, b: Block, before: seq<Outgoing>, after: seq<Outgoing>, m: Message) {
    && (m.RequestBlock? && m.index <= |w.chain| ==> SentSince(before, after, Respond(m.from, Answer(w, m.index))))
    && (Timely(w, m) ==> SentSince(before, after, Ballot(w, m, RivalVote(w, b, m))))
  }

  ghost predicate Served(w: Setting, b: Block, before: seq<Outgoing>, after: seq<Outgoing>, s: seq<Message>) {
    forall m :: m in s ==> ServedOne(w, b, before, after, m)
  }

  // ------------------------------------------------------- the log of counts

  /** The accepted blocks of some counts, in order. */
  ghost function Accepted(h: seq<Record>): seq<Block> {
    if h == [] then []
    else Accepted(h[..|h| - 1]) +
         (if h[|h| - 1].phase.Done? && h[|h| - 1].phase.accepted then [h[|h| - 1].block] else [])
  }

  /** A count ended as it should, and was on a fitting block if we were in favour. */
  ghost predicate RightCount(w: Setting, r: Record) {
    Voting.Legitimate(w.others + 1, |w.chain|, r.block.hash, r.phase) && (r.phase.own ==> OnTop(w, r.block))
  }

  /** The counts finished since the start are right, and the candidates gained are the blocks they accepted. */
  ghost predicate Gained(w: Setting, start: View, now: View) {
    && start.history <= now.history
    && now.candidates == start.candidates + Accepted(now.history[|start.history|..])
    && forall k :: |start.history| <= k < |now.history| ==> RightCount(w, now.history[k])
  }

  /** A right count that heard messages of the mailbox only. */
  ghost predicate RecordOk(w: Setting, stream: seq<Message>, r: Record) {
    RightCount(w, r) && multiset(r.phase.handled) <= multiset(stream)
  }

  /** The same, and all messages heard came through the mailbox. */
  ghost predicate Logged(w: Setting, start: View, now: View) {
    && start.history <= now.history
    && now.candidates == start.candidates + Accepted(now.history[|start.history|..])
    && forall k :: |start.history| <= k < |now.history| ==> RecordOk(w, start.stream, now.history[k])
  }

  /** The last count was on block b with this own vote and verdict. */
  ghost predicate LastRecord(h: seq<Record>, b: Block, own: bool, accepted: bool) {
    && h != [] && var r := h[|h| - 1];
       r.block == b && r.phase.Done? && r.phase.own == own && r.phase.accepted == accepted
  }

  /** Among the counts since there is one on b with this own vote. */
  ghost predicate Judged(h0: seq<Record>, h: seq<Record>, b: Block, own: bool) {
    exists k :: |h0| <= k < |h| && h[k].block == b && h[k].phase.Done? && h[k].phase.own == own
  }

  // ------------------------------------------------------- deferred messages

  /** Messages that are of no use while the chain has this size, but may be later. */
  predicate Deferrable(size: nat, m: Message) {
    match m
    case Vote(_, index, _, _) => index > size
    case RequestBlock(_, index) => index > size
    case AddRequest(_, index, _, _) => index != size
    case _ => false
  }

  /** None of the counts finished since h0 was given up for a rival block. */
  ghost predicate NoneSuperseded(h0: seq<Record>, h: seq<Record>) {
    forall k :: |h0| <= k < |h| ==> h[k].phase.Done? && h[k].phase.ending != Voting.Superseded
  }

  /**
    Unless a count was superseded, every deferrable message of the mailbox is still there or
    among those to be put back, as often as before.
   */
  ghost predicate Preserved(w: Setting, start: View, read: seq<Message>, now: View) {
    && start.history <= now.history
    && (NoneSuperseded(start.history, now.history) ==>
          forall m :: Deferrable(|w.chain|, m) ==>
            multiset(read)[m] + multiset(now.stream)[m] == multiset(start.stream)[m])
  }

  // --------------------------------------------- the loops that handle messages

  /** handled was taken out of the mailbox, read is the part of it that is to be put back. */
  ghost predicate Accounted(handled: seq<Message>, read: seq<Message>, rest: seq<Message>, stream: seq<Message>) {
    multiset(handled) + multiset(rest) <= multiset(stream) && multiset(read) <= multiset(handled)
  }

  /** Message m was taken out of the mailbox. */
  ghost predicate TookOut(before: View, m: Message, taken: View) {
    before.stream == [m] + taken.stream && taken == before.(stream := taken.stream)
  }

  /** What handling a message taken out of the mailbox does to it and to the counts. */
  ghost predicate Handling(w: Setting, taken: View, after: View) {
    && multiset(after.stream) <= multiset(taken.stream)
    && Preserved(w, taken, [], after)
    && Logged(w, taken, after)
    && taken.sent <= after.sent
  }

  /** What such a loop keeps: handled was taken out since the start, and read of it is to be put back. */
  ghost predicate Ledger(w: Setting, start: View, handled: seq<Message>, read: seq<Message>, now: View) {
    && Accounted(handled, read, now.stream, start.stream)
    && Preserved(w, start, read, now)
    && Logged(w, start, now)
    && start.sent <= now.sent
  }

  ghost predicate NoneTimely(w: Setting, s: seq<Message>) {
    forall m :: m in s ==> !Timely(w, m)
  }

  /** Messages are handled in order; only handling a timely request may take more of them. */
  ghost predicate InOrder(w: Setting, start: seq<Message>, handled: seq<Message>, rest: seq<Message>) {
    && (forall j :: 0 <= j < |handled| && NoneTimely(w, handled[..j]) ==> handled[..j] + [handled[j]] <= start)
    && (NoneTimely(w, handled) ==> handled + rest == start)
  }

  /** What the loop over the votes keeps, apart from the count itself. */
  ghost predicate CountLedger(w: Setting, b: Block, start: View, handled: seq<Message>, read: seq<Message>, now: View) {
    && Ledger(w, start, handled, read, now)
    && Served(w, b, start.sent, now.sent, handled)
    && InOrder(w, start.stream, handled, now.stream)
  }

  /** A finished count handled messages in order, and one that timed out has left none if none was to arrive. */
  ghost predicate CountedInOrder(w: Setting, start: seq<Message>, p: Voting.Phase, nothingToArrive: bool)
    requires p.Done?
  {
    exists rest :: InOrder(w, start, p.handled, rest) && (p.ending == Voting.TimedOut && nothingToArrive ==> rest == [])
  }

  /** A count on b was given up exactly by the last message it handled, an endorsed rival. */
  ghost predicate GivenUpFor(w: Setting, b: Block, handled: seq<Message>, superseded: bool) {
    && (superseded ==> handled != [] && Overtakes(w, b, handled[|handled| - 1]))
    && forall j :: 0 <= j < |handled| - (if superseded then 1 else 0) ==> !Overtakes(w, b, handled[j])
  }

  /** The request was voted on as it deserves, and the votes on it were counted. */
  ghost predicate JudgedRight(w: Setting, start: View, now: View, m: Message)
    requires m.AddRequest?
  {
    && SentSince(start.sent, now.sent, Ballot(w, m, Endorses(w, m)))
    && Judged(start.history, now.history, m.block, Endorses(w, m))
  }

  ghost predicate AllJudged(w: Setting, start: View, now: View, s: seq<Message>) {
    forall m :: m in s && Timely(w, m) ==> JudgedRight(w, start, now, m)
  }

  /** What the loop over the requests keeps. */
  ghost predicate RequestsLedger(w: Setting, start: View, handled: seq<Message>, read: seq<Message>, now: View) {
    && NoneTimely(w, read)
    && Ledger(w, start, handled, read, now)
    && AllJudged(w, start, now, handled)
  }

  // --------------------------------------------------------------- proposals

  /** A proposal as it is sent: the request first, our verdict as a vote last. */
  ghost predicate Proposed(w: Setting, b: Block, pow: ByteString, before: seq<Outgoing>, after: seq<Outgoing>,
                           accepted: bool) {
    && before + [Broadcast(AddRequest(w.own, |w.chain|, pow, b))] <= after
    && after[|after| - 1] == Broadcast(Vote(w.own, |w.chain|, accepted, b.hash))
    && (Solution(w.sha, w.difficulty, w.sha(b.data + b.hash + b.prevHash), pow) || |pow| == 16)
  }

  /** Unless it comes too early, a request is voted on as it deserves, and the votes on it are counted. */
  ghost predicate Answered(w: Setting, request: Message, start: View, now: View)
    requires request.AddRequest?
  {
    request.index <= |w.chain| ==> JudgedRight(w, start, now, request)
  }

  /** Our own block is proposed with its key, counted with our own vote in favour, and the verdict is our ballot. */
  ghost predicate Submitted(w: Setting, b: Block, pow: ByteString, start: View, now: View) {
    && SentSince(start.sent, now.sent, Broadcast(AddRequest(w.own, |w.chain|, pow, b)))
    && (Solution(w.sha, w.difficulty, w.sha(b.data + b.hash + b.prevHash), pow) || |pow| == 16)
    && exists k :: |start.history| <= k < |now.history| && SubmittedAs(w, b, now.history[k], start.sent, now.sent)
  }

  ghost predicate SubmittedAs(w: Setting, b: Block, r: Record, before: seq<Outgoing>, after: seq<Outgoing>) {
    && r.block == b && r.phase.Done? && r.phase.own
    && SentSince(before, after, Broadcast(Vote(w.own, |w.chain|, r.phase.accepted, b.hash)))
  }

  /** best is the last of the least candidates, at place chosen. */
  ghost predicate ChosenFrom(best: Option<Block>, chosen: nat, considered: seq<Block>) {
    && (best == None <==> considered == [])
    && (best.Some? ==> LastLeast(considered, chosen) && considered[chosen] == best.value)
  }

  /** The chain with the chosen block linked to its top. */
  ghost function Extended(w: Setting, best: Option<Block>): seq<Block>
    requires w.chain != []
  {
    w.chain + (if best.Some? then [Next(w.sha, w.chain, best.value.data)] else [])
  }

  /** A block we voted for since the start is appended exactly as it was voted on. */
  ghost predicate AsVotedOn(w: Setting, best: Option<Block>, start: View, now: View)
    requires w.chain != []
  {
    best.Some? && Judged(start.history, now.history, best.value, true) ==> Extended(w, best) == w.chain + [best.value]
  }

  /**
    The end of a turn with requests: of the old candidates and the blocks accepted since, the
    best is appended, and none is left.
   */
  ghost predicate Appended(w: Setting, best: Option<Block>, chosen: nat, considered: seq<Block>,
                           start: View, now: View, chain: seq<Block>)
    requires w.chain != []
  {
    && now.candidates == [] && chain == Extended(w, best)
    && Gained(w, start, now.(candidates := considered))
    && ChosenFrom(best, chosen, considered)
    && AsVotedOn(w, best, start, now)
  }

  /** b, if it was accepted, is at place own. */
  ghost predicate OwnAmong(own: Option<nat>, b: Block, considered: seq<Block>) {
    own.Some? ==> own.value < |considered| && considered[own.value] == b
  }

  // ------------------------------------------------------------- the theorems

  /** An endorsed block is appended with the hash it was voted on: what a log of right counts promises. */
  lemma EndorsedAppendedAsIs(w: Setting, best: Option<Block>, start: View, now: View)
    requires w.chain != [] && Gained(w, start, now)
    ensures AsVotedOn(w, best, start, now)
  {
    hide Accepted;
    if best.Some? && Judged(start.history, now.history, best.value, true) {
      AppendedAsVotedOn(w.sha, w.chain, best.value);
    }
  }

  /**
    The count heard ballots really cast, and ended with them; our own vote does not contradict
    our ballot.  Who proposes a block casts its verdict as its ballot.
   */
  ghost predicate FairCount(w: Setting, ballots: map<PeerAddress, bool>, r: Record) {
    && r.phase.Done? && (r.phase.ending == Voting.ByMajority || r.phase.ending == Voting.AllSeen)
    && Voting.Authentic(|w.chain|, r.block.hash, ballots, w.own, r.phase.handled)
    && (r.phase.own && r.phase.accepted && w.own in ballots ==> ballots[w.own])
    && (!r.phase.own ==> w.own in ballots && !ballots[w.own])
  }

  /** All these counts were fair, on the ballots cast on each block. */
  ghost predicate FairCounts(w: Setting, ballots: ByteString -> map<PeerAddress, bool>, h: seq<Record>) {
    forall r :: r in h ==> FairCount(w, ballots(r.block.hash), r)
  }

  ghost predicate CountedIn(h: seq<Record>, b: Block) {
    exists r :: r in h && r.block == b
  }

  /** The counts finished since the start. */
  ghost function Since(start: View, now: View): seq<Record> {
    if start.history <= now.history then now.history[|start.history|..] else []
  }

  /** Two peers of the same network, at the same point of the chain. */
  ghost predicate Fellows(peers: set<PeerAddress>, w: Setting, w': Setting) {
    && w.own in peers && w'.own in peers && |peers| == w.others + 1 == w'.others + 1
    && w.sha == w'.sha && w.chain == w'.chain && w.chain != []
  }

  /** Fair counts of two peers on one block end alike. */
  lemma SameVerdict(w: Setting, w': Setting, peers: set<PeerAddress>, ballots: map<PeerAddress, bool>,
                    r: Record, r': Record)
    requires Fellows(peers, w, w') && ballots.Keys <= peers && r.block == r'.block
    requires RightCount(w, r) && FairCount(w, ballots, r) && RightCount(w', r') && FairCount(w', ballots, r')
    ensures r.phase.accepted == r'.phase.accepted
  {
    hide Voting.Legitimate, Voting.Authentic, OnTop;
    var n, i, h := w.others + 1, |w.chain|, r.block.hash;
    if r.phase.accepted && !r'.phase.accepted {
      Voting.NoConflict(n, i, h, peers, ballots, w.own, r.phase, w'.own, r'.phase);
    } else if r'.phase.accepted && !r.phase.accepted {
      Voting.NoConflict(n, i, h, peers, ballots, w'.own, r'.phase, w.own, r.phase);
    }
  }

  lemma {:induction false} AcceptedAre(h: seq<Record>, b: Block)
    ensures b in Accepted(h) <==> exists r :: r in h && r.phase.Done? && r.phase.accepted && r.block == b
  {
    if h != [] {
      var front, last := h[..|h| - 1], h[|h| - 1];
      AcceptedAre(front, b);
      assert last in h && forall r :: r in h <==> r in front || r == last;
    }
  }

  lemma RightSince(w: Setting, start: View, now: View)
    requires Gained(w, start, now)
    ensures forall r :: r in Since(start, now) ==> RightCount(w, r)
  {
    hide RightCount, Accepted;
    var h := Since(start, now);
    forall r | r in h ensures RightCount(w, r) {
      var i :| 0 <= i < |h| && h[i] == r;
      assert now.history[|start.history| + i] == r;
    }
  }

  /** What one of two such peers has accepted the other has, too. */
  lemma AcceptedAlike(w: Setting, w': Setting, peers: set<PeerAddress>, ballots: ByteString -> map<PeerAddress, bool>,
                      h: seq<Record>, h': seq<Record>, b: Block)
    requires Fellows(peers, w, w') && forall x :: ballots(x).Keys <= peers
    requires FairCounts(w, ballots, h) && forall r :: r in h ==> RightCount(w, r)
    requires FairCounts(w', ballots, h') && forall r :: r in h' ==> RightCount(w', r)
    requires CountedIn(h, b) ==> CountedIn(h', b)
    requires b in Accepted(h)
    ensures b in Accepted(h')
  {
    hide RightCount, Accepted, Fellows;
    AcceptedAre(h, b); AcceptedAre(h', b);
    var r :| r in h && r.phase.Done? && r.phase.accepted && r.block == b;
    var r' :| r' in h' && r'.block == b;
    SameVerdict(w, w', peers, ballots(b.hash), r, r');
  }

  /**
    Two peers on equal chains that count the votes on the same blocks, all to their ends, accept
    the same ones; so both choose the same candidate, and their chains are equal again.
   */
  lemma PeersAppendAlike(w: Setting, w': Setting, peers: set<PeerAddress>,
                         ballots: ByteString -> map<PeerAddress, bool>,
                         best: Option<Block>, chosen: nat, considered: seq<Block>, start: View, now: View,
                         chain: seq<Block>,
                         best': Option<Block>, chosen': nat, considered': seq<Block>, start': View, now': View,
                         chain': seq<Block>)
    requires Fellows(peers, w, w') && forall h :: ballots(h).Keys <= peers
    requires Appended(w, best, chosen, considered, start, now, chain)
    requires Appended(w', best', chosen', considered', start', now', chain')
    requires FairCounts(w, ballots, Since(start, now)) && FairCounts(w', ballots, Since(start', now'))
    requires forall b :: b in start.candidates <==> b in start'.candidates
    requires forall b :: CountedIn(Since(start, now), b) <==> CountedIn(Since(start', now'), b)
    requires DistinctHashes(considered)
    ensures forall b :: b in considered <==> b in considered'
    ensures best == best' && chain == chain'
  {
    hide RightCount, FairCounts, Accepted, AsVotedOn, LexLe, CountedIn;
    var h, h' := Since(start, now), Since(start', now');
    RightSince(w, start, now.(candidates := considered)); RightSince(w', start', now'.(candidates := considered'));
    forall b ensures b in considered <==> b in considered' {
      if b in Accepted(h) { AcceptedAlike(w, w', peers, ballots, h, h', b); }
      if b in Accepted(h') { AcceptedAlike(w', w, peers, ballots, h', h, b); }
    }
    assert best.Some? ==> best.value in considered;
    assert best'.Some? ==> best'.value in considered';
    if best.Some? && best'.Some? {
      SelectionAgrees(w.sha, w.chain, considered, considered', best.value, best'.value);
    }
  }

  /** The hash of a proposed block tells the chain it was proposed on. */
  lemma HashFixesChain(sha: Digest, size: nat, c: seq<Block>, d: seq<Block>, x: ByteString, y: ByteString)
    requires Injective(sha) && NonEmpty(sha) && Linked(sha, size, c) && Linked(sha, size, d) && |x| == |y|
    requires Next(sha, c, x).hash == Next(sha, d, y).hash
    ensures c == d && x == y
  {
    BlockHashInjective(sha, Next(sha, c, x), Next(sha, d, y));
    TopHashDetermines(sha, size, c, d);
  }

  /**
    Two peers that voted for blocks with the same hash hold the same chain, and appending that block
    takes both to the same chain again.
   */
  lemma EndorsersAppendAlike(w: Setting, w': Setting, size: nat, b: Block, b': Block,
                             start: View, now: View, start': View, now': View)
    requires Injective(w.sha) && NonEmpty(w.sha) && w.sha == w'.sha
    requires Linked(w.sha, size, w.chain) && Linked(w.sha, size, w'.chain)
    requires Gained(w, start, now) && Judged(start.history, now.history, b, true)
    requires Gained(w', start', now') && Judged(start'.history, now'.history, b', true)
    requires b.hash == b'.hash && |b.data| == |b'.data|
    ensures w.chain == w'.chain && b == b'
    ensures w.chain != [] && Extended(w, Some(b)) == Extended(w', Some(b')) == w.chain + [b]
  {
    hide Linked, Injective, NonEmpty, Accepted;
    assert OnTop(w, b) && OnTop(w', b');
    AppendedAsVotedOn(w.sha, w.chain, b);
    AppendedAsVotedOn(w.sha, w'.chain, b');
    HashFixesChain(w.sha, size, w.chain, w'.chain, b.data, b'.data);
  }

  /** The hash of a block put up for this index. */
  ghost predicate ProposalHash(sha: Digest, size: nat, index: nat, hash: ByteString) {
    exists c, x :: IsProposal(sha, size, index, hash, c, x)
  }

  ghost predicate IsProposal(sha: Digest, size: nat, index: nat, hash: ByteString, c: seq<Block>, x: ByteString) {
    Linked(sha, size, c) && |c| == index && |x| == size && hash == Next(sha, c, x).hash
  }

  /**
    A peer with a longer chain votes against an outdated request under the index of the request,
    but counts the votes for its own next index.  Votes on blocks put up for the index they name
    are then never counted, so such a count can only reject.
   */
  lemma OutdatedCountRejects(sha: Digest, size: nat, n: nat, chain: seq<Block>, older: seq<Block>, data: ByteString,
                             p: Voting.Phase)
    requires Injective(sha) && NonEmpty(sha) && Linked(sha, size, older)
    requires |data| == size && |older| < |chain| && p.Done?
    requires older != [] && Voting.Legitimate(n, |chain|, Next(sha, older, data).hash, p) && !p.own
    requires forall m :: m in p.handled && m.Vote? ==> ProposalHash(sha, size, m.index, m.hash)
    ensures !p.accepted
  {
    hide Voting.Legitimate, Linked, Injective, NonEmpty;
    var hash := Next(sha, older, data).hash;
    forall m | m in p.handled ensures !Voting.IsVoteFor(|chain|, hash, m) {
      if m.Vote? {
        var c, x :| IsProposal(sha, size, m.index, m.hash, c, x);
        if m.hash == hash { HashFixesChain(sha, size, older, c, data, x); }
      }
    }
    Voting.NoVotesNoAccept(n, |chain|, hash, p);
  }

  /** All messages handled in these rounds came through the mailbox. */
  ghost predicate Handled(rounds: seq<seq<Message>>, stream: seq<Message>) {
    forall s, m :: s in rounds && m in s ==> m in stream
  }

  /** What synchronisation makes of a chain, by the rounds it consists of. */
  ghost predicate Synchronised(w: Setting, rounds: seq<seq<Message>>, stream: seq<Message>, p: Sync.Progress)
    requires w.chain != []
  {
    && Sync.Run(w.sha, w.others, w.chain, rounds) == p
    && Sync.Made(w.sha, w.others, w.chain, rounds)
    && Handled(rounds, stream)
  }

  /**
    A peer synchronising with others that all hold chain c never leaves c: whatever of its
    mailbox the rounds handle, its chain only grows towards c.
   */
  lemma SynchronisedPrefix(w: Setting, size: nat, c: seq<Block>, rounds: seq<seq<Message>>, stream: seq<Message>,
                           p: Sync.Progress)
    requires Injective(w.sha) && NonEmpty(w.sha) && Linked(w.sha, size, c) && w.chain != [] && w.chain <= c
    requires Synchronised(w, rounds, stream, p) && Sync.FromChain(c, stream)
    ensures w.chain <= p.chain <= c
  {
    hide Sync.Run, Sync.Made, Linked;
    forall s | s in rounds ensures Sync.FromChain(c, s) {
      forall m | m in s && m.BlockReply? ensures m.block in c { assert m in stream; }
    }
    Sync.SyncSafe(w.sha, size, w.others, c, w.chain, rounds);
  }

  /**
    What the rounds of a synchronising peer achieve, decided by counting their replies: it ends
    with the whole of c if and only if none of them ends early and enough are settled.
   */
  lemma SynchronisedExactly(w: Setting, size: nat, c: seq<Block>, rounds: seq<seq<Message>>, stream: seq<Message>,
                            p: Sync.Progress)
    requires Injective(w.sha) && NonEmpty(w.sha) && Linked(w.sha, size, c) && w.chain != [] && w.chain <= c
    requires Synchronised(w, rounds, stream, p) && Sync.FromChain(c, stream)
    ensures var k := |w.chain|; var u := SyncProgress.SettledRounds(w.others, c, k, rounds);
      if SyncProgress.EndsEarly(w.others, c, k, rounds) then k + u < |c| && p == Sync.Progress(c[..k + u], true)
      else p == if u > |c| - k then Sync.Progress(c, true) else Sync.Progress(c[..k + u], false)
  {
    hide Sync.Run, Sync.Made, Linked, SyncProgress.EndsEarly, SyncProgress.SettledRounds;
    assert w.chain == c[..|w.chain|];
    forall s | s in rounds ensures Sync.FromChain(c, s) {
      forall m | m in s && m.BlockReply? ensures m.block in c { assert m in stream; }
    }
    SyncProgress.ProgressExactly(w.sha, size, w.others, c, |w.chain|, rounds);
  }

  /** When nothing is lost, how far synchronisation gets depends on how many others there are. */
  lemma SynchronisedLossFree(w: Setting, size: nat, c: seq<Block>, peers: set<PeerAddress>,
                             batches: seq<seq<Message>>, rounds: seq<seq<Message>>, stream: seq<Message>,
                             p: Sync.Progress)
    requires Injective(w.sha) && NonEmpty(w.sha) && Linked(w.sha, size, c) && w.chain != [] && w.chain <= c
    requires |peers| == w.others > 0 && Synchronised(w, rounds, stream, p) && p.done
    requires LossFree.LossFreeRun(w.sha, peers, c, |w.chain|, [], batches, rounds)
    ensures var n, k := w.others, |w.chain|;
      && (p.chain == c <==> LossFree.NeverClogged(n, c, k, [], batches, rounds))
      && (n <= 2 || |c| - k <= 1 || (n % 2 == 0 && |c| - k == 2) ==> p.chain == c)
      && (n % 2 == 1 && n >= 3 && |c| - k >= 2 ==> p.chain == c[..k + 1])
  {
    hide Sync.Run, Sync.Made, Linked, Injective, NonEmpty, LossFree.LossFreeRun, LossFree.Late;
    assert w.chain == c[..|w.chain|];
    LossFree.NothingLate(peers, c, |w.chain|);
    LossFree.LossFreeExactly(w.sha, size, peers, c, |w.chain|, [], batches, rounds);
    LossFree.LossFreeBySize(w.sha, size, peers, c, |w.chain|, batches, rounds);
  }

  // ------------------------------------------------------- pending transactions

  /** The chain and the pending transactions of a peer between its turns. */
  datatype Standing = Standing(chain: seq<Block>, pending: seq<ByteString>)

  /** The first transaction is done with: it has become the last block. */
  ghost predicate Fulfilled(before: seq<ByteString>, after: seq<ByteString>, chain: seq<Block>, chain': seq<Block>) {
    before != [] && after == before[1..] && |chain'| > |chain| && chain'[|chain'| - 1].data == before[0]
  }

  /** One turn: the chain grows, and at most the first transaction is done with. */
  ghost predicate TurnTaken(a: Standing, b: Standing) {
    a.chain <= b.chain && (b.pending == a.pending || Fulfilled(a.pending, b.pending, a.chain, b.chain))
  }

  ghost predicate Turns(log: seq<Standing>) {
    forall i :: 0 <= i < |log| - 1 ==> TurnTaken(log[i], log[i + 1])
  }

  lemma TurnsSnoc(log: seq<Standing>, b: Standing)
    requires log != [] && Turns(log) && TurnTaken(log[|log| - 1], b)
    ensures Turns(log + [b])
  {
    hide TurnTaken;
    var u := log + [b];
    forall i | 0 <= i < |u| - 1 ensures TurnTaken(u[i], u[i + 1]) {
      if i < |log| - 1 { assert u[i] == log[i] && u[i + 1] == log[i + 1]; }
    }
  }

  /** The data of the blocks added in a turn. */
  ghost function Added(a: Standing, b: Standing): seq<ByteString> {
    if a.chain <= b.chain then Datas(b.chain)[|a.chain|..] else []
  }

  /** Those of them that were not put up for the transaction done with: they came from other peers. */
  ghost function ForeignIn(a: Standing, b: Standing): seq<ByteString> {
    var added := Added(a, b);
    if b.pending == a.pending || added == [] then added else added[..|added| - 1]
  }

  /** The data of all blocks that came from other peers. */
  ghost function Foreign(log: seq<Standing>): seq<ByteString> {
    var n := |log| - 1;
    if n <= 0 then [] else Foreign(log[..n]) + ForeignIn(log[n - 1], log[n])
  }

  lemma TurnConserves(a: Standing, b: Standing)
    requires TurnTaken(a, b)
    ensures multiset(a.pending) + multiset(ForeignIn(a, b)) == multiset(b.pending) + multiset(Added(a, b))
  {
    hide Datas;
    var added := Added(a, b);
    if b.pending != a.pending {
      LastData(b.chain);
      assert added == added[..|added| - 1] + [a.pending[0]];
      assert a.pending == [a.pending[0]] + b.pending;
    }
  }

  lemma LastData(chain: seq<Block>)
    requires chain != []
    ensures Datas(chain)[|chain| - 1] == chain[|chain| - 1].data
  {}

  lemma NothingAdded(a: Standing)
    ensures Added(a, a) == []
  {}

  lemma AddedTogether(a: Standing, b: Standing, c: Standing)
    requires a.chain <= b.chain <= c.chain
    ensures Added(a, c) == Added(a, b) + Added(b, c)
  {}

  /**
    Over any number of turns, transactions and the blocks that came from others make up exactly
    what is still pending and the blocks added: nothing is lost, and nothing else is added.
   */
  lemma {:induction false} TurnsConserve(log: seq<Standing>)
    requires log != [] && Turns(log)
    ensures var a, b := log[0], log[|log| - 1];
      && a.chain <= b.chain
      && multiset(a.pending) + multiset(Foreign(log)) == multiset(b.pending) + multiset(Added(a, b))
  {
    hide TurnTaken, ForeignIn, Added;
    var n := |log| - 1;
    if n == 0 {
      NothingAdded(log[0]);
    } else {
      var front := log[..n];
      assert Turns(front) by {
        forall i | 0 <= i < |front| - 1 ensures TurnTaken(front[i], front[i + 1]) {
          assert front[i] == log[i] && front[i + 1] == log[i + 1];
        }
      }
      TurnsConserve(front);
      assert TurnTaken(log[n - 1], log[n - 1 + 1]);
      TurnConserves(log[n - 1], log[n]);
      ChainGrows(log[n - 1], log[n]);
      AddedTogether(log[0], log[n - 1], log[n]);
      Conserved(log[0].pending, Foreign(front), log[n - 1].pending, Added(log[0], log[n - 1]),
                ForeignIn(log[n - 1], log[n]), log[n].pending, Added(log[n - 1], log[n]));
    }
  }

  lemma Conserved(p: seq<ByteString>, f: seq<ByteString>, q: seq<ByteString>, d: seq<ByteString>,
                  g: seq<ByteString>, r: seq<ByteString>, e: seq<ByteString>)
    requires multiset(p) + multiset(f) == multiset(q) + multiset(d)
    requires multiset(q) + multiset(g) == multiset(r) + multiset(e)
    ensures multiset(p) + multiset(f + g) == multiset(r) + multiset(d + e)
  {
    var fg, de := multiset(f) + multiset(g), multiset(d) + multiset(e);
    assert multiset(f + g) == fg && multiset(d + e) == de;
    forall x ensures (multiset(p) + fg)[x] == (multiset(r) + de)[x] {
      assert (multiset(p) + multiset(f))[x] == (multiset(q) + multiset(d))[x];
      assert (multiset(q) + multiset(g))[x] == (multiset(r) + multiset(e))[x];
    }
    assert multiset(p) + fg == multiset(r) + de;
  }

  lemma ChainGrows(a: Standing, b: Standing)
    requires TurnTaken(a, b)
    ensures a.chain <= b.chain
  {}

  /** Data d is added exactly as often as a transaction with it is done with, if and only if no other peer added it. */
  lemma AddedOnceExactly(log: seq<Standing>, d: ByteString)
    requires log != [] && Turns(log)
    ensures var a, b := log[0], log[|log| - 1];
      multiset(Added(a, b))[d] + multiset(b.pending)[d] == multiset(a.pending)[d] <==> d !in Foreign(log)
  {
    hide Added, Foreign, Turns;
    TurnsConserve(log);
    var a, b, f := log[0], log[|log| - 1], multiset(Foreign(log));
    assert d in Foreign(log) <==> f[d] > 0;
    assert (multiset(a.pending) + f)[d] == (multiset(b.pending) + multiset(Added(a, b)))[d];
  }

  /**
    It can happen that others do: a block given up here is appended by the others, comes back
    with a synchronisation, and its transaction, which is still pending, is put up again.
   */
  lemma AddedTwice(sha: Digest, chain: seq<Block>, d: ByteString) returns (log: seq<Standing>)
    requires chain != []
    ensures |log| == 3 && Turns(log)
    ensures log[0] == Standing(chain, [d]) && log[1].chain == chain + [Next(sha, chain, d)] && log[1].pending == [d]
    ensures log[2].pending == [] && Added(log[0], log[2]) == [d, d] && Foreign(log) == [d]
  {
    hide Next, Added;
    var once := chain + [Next(sha, chain, d)];
    var twice := once + [Next(sha, once, d)];
    log := [Standing(chain, [d]), Standing(once, [d]), Standing(twice, [])];
    OneAdded(sha, d, log[0], log[1]);
    OneAdded(sha, d, log[1], log[2]);
    AddedTogether(log[0], log[1], log[2]);
    assert TurnTaken(log[0], log[1]) && TurnTaken(log[1], log[2]);
    assert log[..2] == [log[0], log[1]] && log[..2][..1] == [log[0]];
    assert Foreign(log[..2][..1]) == [];
    assert Foreign(log[..2]) == [d];
    assert ForeignIn(log[1], log[2]) == [];
  }

  lemma OneAdded(sha: Digest, d: ByteString, a: Standing, b: Standing)
    requires a.chain != [] && b.chain == a.chain + [Next(sha, a.chain, d)]
    ensures Added(a, b) == [d] && b.chain[|a.chain|].data == d
  {}
}
