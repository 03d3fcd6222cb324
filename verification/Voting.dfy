/** Counting the votes for one proposed block. */
module Voting {
  import opened Words
  import opened Messages

  datatype Tally = Tally(agrees: nat, disagrees: nat, seen: seq<PeerAddress>)

  function Start(own: bool): Tally {
    if own then Tally(1, 0, []) else Tally(0, 1, [])
  }

  /** A vote on the block with this hash, to be added at this index. */
  predicate IsVoteFor(index: nat, hash: ByteString, m: Message) {
    m.Vote? && m.index == index && m.hash == hash
  }

  function Step(index: nat, hash: ByteString, t: Tally, m: Message): Tally {
    if !IsVoteFor(index, hash, m) || m.from in t.seen then t
    else if m.agree then Tally(t.agrees + 1, t.disagrees, t.seen + [m.from])
    else Tally(t.agrees, t.disagrees + 1, t.seen + [m.from])
  }

  function Fold(index: nat, hash: ByteString, own: bool, s: seq<Message>): Tally {
    if s == [] then Start(own) else Step(index, hash, Fold(index, hash, own, s[..|s| - 1]), s[|s| - 1])
  }

  lemma FoldSnoc(index: nat, hash: ByteString, own: bool, s: seq<Message>, m: Message)
    ensures Fold(index, hash, own, s + [m]) == Step(index, hash, Fold(index, hash, own, s), m)
  {
    assert (s + [m])[..|s|] == s;
  }

  /** How a count ended: a majority, everybody heard, out of tries, or given up for a rival block. */
  datatype Ending = ByMajority | AllSeen | TimedOut | Superseded

  datatype Phase =
    | Idle
    | Counting(own: bool, handled: seq<Message>)
    | Done(own: bool, handled: seq<Message>, ending: Ending, accepted: bool)

  /** Where the count stands after handling s, among n voters. */
  function Settle(n: nat, index: nat, hash: ByteString, own: bool, s: seq<Message>): Phase {
    var t := Fold(index, hash, own, s);
    if s != [] && t.agrees > n / 2 then Done(own, s, ByMajority, true)
    else if s != [] && t.disagrees > n / 2 then Done(own, s, ByMajority, false)
    else if |t.seen| + 1 >= n then Done(own, s, AllSeen, t.agrees > t.disagrees + n - (|t.seen| + 1))
    else Counting(own, s)
  }

  /** No proper beginning of s settles the count. */
  ghost predicate Unsettled(n: nat, index: nat, hash: ByteString, own: bool, s: seq<Message>) {
    forall j :: 0 <= j < |s| ==> Settle(n, index, hash, own, s[..j]) == Counting(own, s[..j])
  }

  lemma UnsettledSnoc(n: nat, index: nat, hash: ByteString, own: bool, s: seq<Message>, m: Message)
    requires Unsettled(n, index, hash, own, s) && Settle(n, index, hash, own, s) == Counting(own, s)
    ensures Unsettled(n, index, hash, own, s + [m])
  {
    hide Settle;
    forall j | 0 <= j < |s + [m]| ensures Settle(n, index, hash, own, (s + [m])[..j]) == Counting(own, (s + [m])[..j]) {
      assert (s + [m])[..j] == s[..j];
      if j == |s| { assert s[..j] == s; }
    }
  }

  lemma UnsettledPrefix(n: nat, index: nat, hash: ByteString, own: bool, s: seq<Message>)
    requires s != [] && Unsettled(n, index, hash, own, s)
    ensures var k := |s| - 1;
      Unsettled(n, index, hash, own, s[..k]) && Settle(n, index, hash, own, s[..k]) == Counting(own, s[..k])
  {
    hide Settle;
    var front := s[..|s| - 1];
    forall j | 0 <= j < |front| ensures Settle(n, index, hash, own, front[..j]) == Counting(own, front[..j]) {
      assert front[..j] == s[..j];
    }
  }

  /** A finished count is one the code can end with: settled by its last message, or given up while still open. */
  ghost predicate Legitimate(n: nat, index: nat, hash: ByteString, p: Phase) {
    && p.Done?
    && Unsettled(n, index, hash, p.own, p.handled)
    && |Fold(index, hash, p.own, p.handled).seen| + 1 <= n
    && if p.ending == TimedOut || p.ending == Superseded
       then !p.accepted && Settle(n, index, hash, p.own, p.handled) == Counting(p.own, p.handled)
       else p == Settle(n, index, hash, p.own, p.handled)
  }

  lemma {:induction false} FoldCounts(index: nat, hash: ByteString, own: bool, s: seq<Message>)
    ensures var t := Fold(index, hash, own, s);
      t.agrees + t.disagrees == |t.seen| + 1
      && forall i, j :: 0 <= i < j < |t.seen| ==> t.seen[i] != t.seen[j]
  {
    if s != [] { FoldCounts(index, hash, own, s[..|s| - 1]); }
  }

  /** An accepted block has the votes of more than half of all voters, however the count ended. */
  lemma AcceptedByMajority(n: nat, index: nat, hash: ByteString, p: Phase)
    requires Legitimate(n, index, hash, p) && p.accepted
    ensures 2 * Fold(index, hash, p.own, p.handled).agrees > n
  {
    hide Fold;
    FoldCounts(index, hash, p.own, p.handled);
  }

  /** A block that lost, rather than being given up, has at least half of all votes against it. */
  lemma RejectedByHalf(n: nat, index: nat, hash: ByteString, p: Phase)
    requires Legitimate(n, index, hash, p) && !p.accepted && (p.ending == ByMajority || p.ending == AllSeen)
    ensures 2 * Fold(index, hash, p.own, p.handled).disagrees >= n
  {
    hide Fold;
    FoldCounts(index, hash, p.own, p.handled);
  }

  /** Without a vote of another peer on the block, a peer that is against it does not accept it. */
  lemma NoVotesNoAccept(n: nat, index: nat, hash: ByteString, p: Phase)
    requires Legitimate(n, index, hash, p) && !p.own
    requires forall m :: m in p.handled ==> !IsVoteFor(index, hash, m)
    ensures !p.accepted
  {
    hide Unsettled, IsVoteFor;
    NothingCounted(index, hash, p.own, p.handled);
  }

  lemma {:induction false} NothingCounted(index: nat, hash: ByteString, own: bool, s: seq<Message>)
    requires forall m :: m in s ==> !IsVoteFor(index, hash, m)
    ensures Fold(index, hash, own, s) == Start(own)
  {
    if s != [] {
      assert s[|s| - 1] in s;
      NothingCounted(index, hash, own, s[..|s| - 1]);
    }
  }

  /** A peer that voted against the block accepts it all the same when the others outvote it. */
  lemma OutvotedPeerAccepts(n: nat, index: nat, hash: ByteString, s: seq<Message>)
    requires 2 * |s| > n && |s| < n
    requires forall i :: 0 <= i < |s| ==> IsVoteFor(index, hash, s[i]) && s[i].agree
    requires forall i, j :: 0 <= i < j < |s| ==> s[i].from != s[j].from
    ensures Settle(n, index, hash, false, s) == Done(false, s, ByMajority, true)
  {
    hide Step;
    AllAgree(index, hash, s);
  }

  lemma {:induction false} AllAgree(index: nat, hash: ByteString, s: seq<Message>)
    requires forall i :: 0 <= i < |s| ==> IsVoteFor(index, hash, s[i]) && s[i].agree
    requires forall i, j :: 0 <= i < j < |s| ==> s[i].from != s[j].from
    ensures Fold(index, hash, false, s) == Tally(|s|, 1, Senders(s))
  {
    if s != [] {
      var n := |s| - 1;
      AllAgree(index, hash, s[..n]);
      assert Senders(s) == Senders(s[..n]) + [s[n].from];
      assert s[n].from !in Senders(s[..n]);
    }
  }

  // -------------------------------------------------------------------- quorums

  /** Every vote in s on this block is the ballot its sender really cast. */
  ghost predicate Authentic(index: nat, hash: ByteString, ballots: map<PeerAddress, bool>, self: PeerAddress,
                            s: seq<Message>) {
    forall m :: m in s && IsVoteFor(index, hash, m) ==>
      m.from != self && m.from in ballots && ballots[m.from] == m.agree
  }

  /** Who voted this way. */
  ghost function Voted(ballots: map<PeerAddress, bool>, v: bool): set<PeerAddress> {
    set q | q in ballots && ballots[q] == v
  }

  ghost function SeenVoting(ballots: map<PeerAddress, bool>, seen: seq<PeerAddress>, v: bool): set<PeerAddress> {
    set q | q in seen && q in ballots && ballots[q] == v
  }

  /** The counts are the numbers of distinct voters heard, plus our own vote. */
  lemma {:induction false} CountsAreVoters(index: nat, hash: ByteString, ballots: map<PeerAddress, bool>,
                                           self: PeerAddress, own: bool, s: seq<Message>)
    requires Authentic(index, hash, ballots, self, s)
    ensures var t := Fold(index, hash, own, s);
      t.agrees == |SeenVoting(ballots, t.seen, true)| + (if own then 1 else 0)
      && t.disagrees == |SeenVoting(ballots, t.seen, false)| + (if own then 0 else 1)
      && self !in t.seen && forall q :: q in t.seen ==> q in ballots
  {
    hide Step, IsVoteFor;
    if s == [] {
      assert SeenVoting(ballots, [], true) == {} && SeenVoting(ballots, [], false) == {};
    } else {
      var front, m := s[..|s| - 1], s[|s| - 1];
      assert m in s && forall x :: x in front ==> x in s;
      CountsAreVoters(index, hash, ballots, self, own, front);
      OneMoreVoter(index, hash, ballots, Fold(index, hash, own, front), m);
    }
  }

  lemma OneMoreVoter(index: nat, hash: ByteString, ballots: map<PeerAddress, bool>, t: Tally, m: Message)
    requires IsVoteFor(index, hash, m) ==> m.from in ballots && ballots[m.from] == m.agree
    ensures var u := Step(index, hash, t, m);
      u == t || (
        IsVoteFor(index, hash, m) && u.seen == t.seen + [m.from]
        && |SeenVoting(ballots, u.seen, true)| - |SeenVoting(ballots, t.seen, true)| == u.agrees - t.agrees
        && |SeenVoting(ballots, u.seen, false)| - |SeenVoting(ballots, t.seen, false)| == u.disagrees - t.disagrees)
  {
    var u := Step(index, hash, t, m);
    if u != t {
      assert SeenVoting(ballots, u.seen, m.agree) == SeenVoting(ballots, t.seen, m.agree) + {m.from};
      assert SeenVoting(ballots, u.seen, !m.agree) == SeenVoting(ballots, t.seen, !m.agree);
    }
  }

  /** The voters behind one side of a count, the counting peer included. */
  ghost function Side(ballots: map<PeerAddress, bool>, self: PeerAddress, own: bool, v: bool): set<PeerAddress> {
    Voted(ballots, v) + (if own == v then {self} else {})
  }

  lemma CountBound(index: nat, hash: ByteString, ballots: map<PeerAddress, bool>, self: PeerAddress, own: bool,
                   s: seq<Message>)
    requires Authentic(index, hash, ballots, self, s)
    ensures Fold(index, hash, own, s).agrees <= |Side(ballots, self, own, true)|
    ensures Fold(index, hash, own, s).disagrees <= |Side(ballots, self, own, false)|
  {
    hide Fold;
    CountsAreVoters(index, hash, ballots, self, own, s);
    var t := Fold(index, hash, own, s);
    forall v: bool
      ensures |SeenVoting(ballots, t.seen, v) + (if own == v then {self} else {})| <= |Side(ballots, self, own, v)|
    {
      SubsetSize(SeenVoting(ballots, t.seen, v) + (if own == v then {self} else {}), Side(ballots, self, own, v));
    }
    forall v: bool ensures |SeenVoting(ballots, t.seen, v) + (if own == v then {self} else {})|
                        == |SeenVoting(ballots, t.seen, v)| + (if own == v then 1 else 0) {
      assert self !in SeenVoting(ballots, t.seen, v);
    }
  }

  lemma {:induction false} SubsetSize<T>(a: set<T>, b: set<T>)
    requires a <= b
    ensures |a| <= |b|
  {
    if a != {} {
      var x :| x in a;
      SubsetSize(a - {x}, b - {x});
    }
  }

  /**
    Quorum intersection: no peer accepts a block that another peer sees voted down, provided
    the ballots they hear are authentic and each peer's own vote does not contradict its ballot.
   */
  lemma NoConflict(n: nat, index: nat, hash: ByteString, peers: set<PeerAddress>, ballots: map<PeerAddress, bool>,
                   q: PeerAddress, p: Phase, q': PeerAddress, p': Phase)
    requires |peers| == n && ballots.Keys <= peers && q in peers && q' in peers
    requires p.Done? && p'.Done? && Legitimate(n, index, hash, p) && Legitimate(n, index, hash, p')
    requires Authentic(index, hash, ballots, q, p.handled) && Authentic(index, hash, ballots, q', p'.handled)
    requires p.own && q in ballots ==> ballots[q]
    requires !p'.own ==> q' in ballots && !ballots[q']
    ensures !(p.accepted && !p'.accepted && (p'.ending == ByMajority || p'.ending == AllSeen))
  {
    hide Fold, Legitimate, Authentic, Side;
    if p.accepted && !p'.accepted && (p'.ending == ByMajority || p'.ending == AllSeen) {
      AcceptedByMajority(n, index, hash, p); RejectedByHalf(n, index, hash, p');
      CountBound(index, hash, ballots, q, p.own, p.handled);
      CountBound(index, hash, ballots, q', p'.own, p'.handled);
      SidesDisjoint(peers, ballots, q, p.own, q', p'.own);
      DisjointSides(n, peers, Side(ballots, q, p.own, true), Side(ballots, q', p'.own, false));
    }
  }

  /**
    Two counts of one peer on the same block, as when it proposes the block again: with the same
    own vote, and the same ballots heard in both, they do not end with opposite verdicts.
   */
  lemma AttemptsAgree(n: nat, index: nat, hash: ByteString, peers: set<PeerAddress>, ballots: map<PeerAddress, bool>,
                      q: PeerAddress, p: Phase, p': Phase)
    requires |peers| == n && ballots.Keys <= peers && q in peers
    requires Legitimate(n, index, hash, p) && Legitimate(n, index, hash, p') && p.own == p'.own
    requires Authentic(index, hash, ballots, q, p.handled) && Authentic(index, hash, ballots, q, p'.handled)
    ensures !(p.accepted && !p'.accepted && (p'.ending == ByMajority || p'.ending == AllSeen))
  {
    hide Fold, Unsettled, Settle;
    NoConflict(n, index, hash, peers, ballots[q := p.own], q, p, q, p');
  }

  lemma SidesDisjoint(peers: set<PeerAddress>, ballots: map<PeerAddress, bool>, q: PeerAddress, own: bool,
                      q': PeerAddress, own': bool)
    requires ballots.Keys <= peers && q in peers && q' in peers
    requires own && q in ballots ==> ballots[q]
    requires !own' ==> q' in ballots && !ballots[q']
    ensures Side(ballots, q, own, true) !! Side(ballots, q', own', false)
    ensures Side(ballots, q, own, true) + Side(ballots, q', own', false) <= peers
  {}

  lemma DisjointSides(n: nat, peers: set<PeerAddress>, a: set<PeerAddress>, d: set<PeerAddress>)
    requires |peers| == n && a + d <= peers && a !! d
    ensures |a| + |d| <= n
  {
    SubsetSize(a + d, peers);
    assert |a + d| == |a| + |d|;
  }
}
