/**
  One attempt to have a block voted on by a fixed set of peers: a state machine over the steps
  the peers can take, with votes delivered in any order, repeatedly, or never.  The block is
  proposed once, and every peer votes once.
 */
module Agreement {
  import opened Words
  import opened Messages
  import opened Voting

  datatype Config = Config(peers: set<PeerAddress>, proposer: PeerAddress, index: nat, hash: ByteString)

  /** Where every peer is, and the vote each has broadcast. */
  datatype World = World(phases: map<PeerAddress, Phase>, ballots: map<PeerAddress, bool>)

  ghost predicate Init(c: Config, w: World) {
    && c.proposer in c.peers
    && w.phases.Keys == c.peers && (forall q :: q in w.phases ==> w.phases[q] == Idle)
    && w.ballots == map[]
  }

  function Begin(c: Config, own: bool): Phase {
    Settle(|c.peers|, c.index, c.hash, own, [])
  }

  /** The proposer counts itself in favour, but casts no ballot yet. */
  ghost predicate Propose(c: Config, w: World, w': World) {
    && c.proposer in w.phases && w.phases[c.proposer] == Idle
    && w' == w.(phases := w.phases[c.proposer := Begin(c, true)])
  }

  /** Another peer receives the request, broadcasts its vote and starts to count. */
  ghost predicate Receive(c: Config, w: World, w': World, q: PeerAddress, v: bool) {
    && q in w.phases && q != c.proposer && w.phases[q] == Idle
    && w' == World(w.phases[q := Begin(c, v)], w.ballots[q := v])
  }

  /** A peer that prefers its own block votes against, and does not count. */
  ghost predicate Decline(c: Config, w: World, w': World, q: PeerAddress) {
    && q in w.phases && q != c.proposer && w.phases[q] == Idle
    && w' == World(w.phases[q := Done(false, [], Superseded, false)], w.ballots[q := false])
  }

  /** A counting peer handles a message: a ballot of another peer, or anything that is no vote on this block. */
  ghost predicate Deliver(c: Config, w: World, w': World, q: PeerAddress, m: Message) {
    && q in w.phases && w.phases[q].Counting?
    && (IsVoteFor(c.index, c.hash, m) ==> m.from != q && m.from in w.ballots && w.ballots[m.from] == m.agree)
    && var p := w.phases[q];
       w' == w.(phases := w.phases[q := Settle(|c.peers|, c.index, c.hash, p.own, p.handled + [m])])
  }

  /** A counting peer runs out of tries, or endorses a rival block instead of its own. */
  ghost predicate GiveUp(c: Config, w: World, w': World, q: PeerAddress, e: Ending) {
    && q in w.phases && w.phases[q].Counting? && (e == TimedOut || e == Superseded)
    && var p := w.phases[q];
       w' == w.(phases := w.phases[q := Done(p.own, p.handled, e, false)])
  }

  /** The proposer broadcasts its verdict as its ballot. */
  ghost predicate Announce(c: Config, w: World, w': World) {
    && c.proposer in w.phases && w.phases[c.proposer].Done? && c.proposer !in w.ballots
    && w' == w.(ballots := w.ballots[c.proposer := w.phases[c.proposer].accepted])
  }

  ghost predicate Next(c: Config, w: World, w': World) {
    || w' == w
    || Propose(c, w, w')
    || (exists q, v :: Receive(c, w, w', q, v))
    || (exists q :: Decline(c, w, w', q))
    || (exists q, m :: Deliver(c, w, w', q, m))
    || (exists q, e :: GiveUp(c, w, w', q, e))
    || Announce(c, w, w')
  }

  ghost predicate Behaviour(c: Config, t: seq<World>)
    ensures Behaviour(c, t) ==> t != []
  {
    && t != [] && Init(c, t[0])
    && forall i :: 0 <= i < |t| - 1 ==> Next(c, t[i], t[i + 1])
  }

  // ----------------------------------------------------------------- invariant

  /** A count that is going on has not been settled. */
  ghost predicate Open(c: Config, p: Phase)
    requires p.Counting?
  {
    && p == Settle(|c.peers|, c.index, c.hash, p.own, p.handled)
    && Unsettled(|c.peers|, c.index, c.hash, p.own, p.handled)
    && |Fold(c.index, c.hash, p.own, p.handled).seen| + 1 < |c.peers|
  }

  /** What holds of one peer. */
  ghost predicate PeerInv(c: Config, w: World, q: PeerAddress)
    requires q in w.phases
  {
    var p := w.phases[q];
    && (p == Idle ==> q !in w.ballots)
    && (p != Idle ==> Authentic(c.index, c.hash, w.ballots, q, p.handled))
    && (p != Idle && q != c.proposer ==> q in w.ballots && w.ballots[q] == p.own)
    && (p != Idle && q == c.proposer ==> p.own)
    && (p.Counting? ==> Open(c, p))
    && (p.Done? ==> Legitimate(|c.peers|, c.index, c.hash, p))
    && (q == c.proposer && q in w.ballots ==> p.Done? && w.ballots[q] == p.accepted)
  }

  ghost predicate Inv(c: Config, w: World) {
    && c.proposer in c.peers && w.phases.Keys == c.peers && w.ballots.Keys <= c.peers
    && forall q :: q in w.phases ==> PeerInv(c, w, q)
  }

  lemma BeginInv(c: Config, own: bool)
    requires c.peers != {}
    ensures var p := Begin(c, own);
      p != Idle && p.own == own && p.handled == []
      && (p.Counting? ==> Open(c, p))
      && (p.Done? ==> Legitimate(|c.peers|, c.index, c.hash, p))
  {}

  /** A new ballot never invalidates what other peers have handled. */
  lemma BallotKeepsPeer(c: Config, w: World, w': World, q: PeerAddress, r: PeerAddress, v: bool)
    requires q in w.phases && q in w'.phases && w'.phases[q] == w.phases[q]
    requires PeerInv(c, w, q) && q != r && r !in w.ballots && w'.ballots == w.ballots[r := v]
    ensures PeerInv(c, w', q)
  {
    hide Fold, Legitimate;
  }

  lemma SettleInv(c: Config, p: Phase, m: Message)
    requires p.Counting? && Open(c, p)
    ensures var p' := Settle(|c.peers|, c.index, c.hash, p.own, p.handled + [m]);
      p' != Idle && p'.own == p.own && p'.handled == p.handled + [m]
      && (p'.Counting? ==> Open(c, p'))
      && (p'.Done? ==> Legitimate(|c.peers|, c.index, c.hash, p'))
  {
    hide Fold, Unsettled;
    FoldSnoc(c.index, c.hash, p.own, p.handled, m);
    UnsettledSnoc(|c.peers|, c.index, c.hash, p.own, p.handled, m);
  }

  lemma ProposeInv(c: Config, w: World, w': World)
    requires Inv(c, w) && Propose(c, w, w')
    ensures Inv(c, w')
  {
    hide Fold, Legitimate, Settle, Open;
    assert c.peers != {};
    BeginInv(c, true);
  }

  lemma AnnounceInv(c: Config, w: World, w': World)
    requires Inv(c, w) && Announce(c, w, w')
    ensures Inv(c, w')
  {
    hide Fold, Legitimate, Settle, Open;
    forall q | q in w'.phases ensures PeerInv(c, w', q) {
      if q != c.proposer { BallotKeepsPeer(c, w, w', q, c.proposer, w.phases[c.proposer].accepted); }
    }
  }

  lemma ReceiveInv(c: Config, w: World, w': World, q: PeerAddress, v: bool)
    requires Inv(c, w) && Receive(c, w, w', q, v)
    ensures Inv(c, w')
  {
    hide Fold, Legitimate, Settle, Open;
    assert c.peers != {};
    BeginInv(c, v);
    forall r | r in w'.phases ensures PeerInv(c, w', r) {
      if r != q { BallotKeepsPeer(c, w, w', r, q, v); }
    }
  }

  lemma DeclineInv(c: Config, w: World, w': World, q: PeerAddress)
    requires Inv(c, w) && Decline(c, w, w', q)
    ensures Inv(c, w')
  {
    hide Fold, Legitimate, Settle, Open;
    assert w.phases.Keys == c.peers;
    TwoPeers(c.peers, q, c.proposer);
    DeclineLegitimate(c);
    forall r | r in w'.phases ensures PeerInv(c, w', r) {
      if r != q { BallotKeepsPeer(c, w, w', r, q, false); }
    }
  }

  lemma DeliverInv(c: Config, w: World, w': World, q: PeerAddress, m: Message)
    requires Inv(c, w) && Deliver(c, w, w', q, m)
    ensures Inv(c, w')
  {
    hide Fold, Legitimate, Settle, Open;
    SettleInv(c, w.phases[q], m);
  }

  lemma GiveUpInv(c: Config, w: World, w': World, q: PeerAddress, e: Ending)
    requires Inv(c, w) && GiveUp(c, w, w', q, e)
    ensures Inv(c, w')
  {
    hide Fold, Legitimate, Settle, Open;
    LegitimateGiveUp(c, w.phases[q], e);
  }

  /** Every step keeps the invariant. */
  lemma NextInv(c: Config, w: World, w': World)
    requires Inv(c, w) && Next(c, w, w')
    ensures Inv(c, w')
  {
    hide Inv, Propose, Receive, Decline, Deliver, GiveUp, Announce;
    if w' == w {
    } else if Propose(c, w, w') {
      ProposeInv(c, w, w');
    } else if Announce(c, w, w') {
      AnnounceInv(c, w, w');
    } else if q, v :| Receive(c, w, w', q, v) {
      ReceiveInv(c, w, w', q, v);
    } else if q :| Decline(c, w, w', q) {
      DeclineInv(c, w, w', q);
    } else if q, m :| Deliver(c, w, w', q, m) {
      DeliverInv(c, w, w', q, m);
    } else {
      var q, e :| GiveUp(c, w, w', q, e);
      GiveUpInv(c, w, w', q, e);
    }
  }

  lemma LegitimateGiveUp(c: Config, p: Phase, e: Ending)
    requires p.Counting? && Open(c, p) && (e == TimedOut || e == Superseded)
    ensures Legitimate(|c.peers|, c.index, c.hash, Done(p.own, p.handled, e, false))
  {}

  lemma DeclineLegitimate(c: Config)
    requires |c.peers| >= 2
    ensures Legitimate(|c.peers|, c.index, c.hash, Done(false, [], Superseded, false))
  {}

  lemma TwoPeers(s: set<PeerAddress>, a: PeerAddress, b: PeerAddress)
    requires a in s && b in s && a != b
    ensures |s| >= 2
  {
    SubsetSize({a, b}, s);
  }

  lemma {:induction false} BehaviourInv(c: Config, t: seq<World>, i: nat)
    requires Behaviour(c, t) && i < |t|
    ensures Inv(c, t[i])
    decreases i
  {
    if i > 0 {
      BehaviourInv(c, t, i - 1);
      assert Next(c, t[i - 1], t[i - 1 + 1]);
      NextInv(c, t[i - 1], t[i]);
    }
  }

  /**
    Safety over every run, with any loss, repetition and order of delivery: if one peer
    accepts the block then no peer ever finds it voted down.
   */
  lemma NoConflictingVerdicts(c: Config, t: seq<World>, i: nat, j: nat, q: PeerAddress, q': PeerAddress)
    requires Behaviour(c, t) && i < |t| && j < |t| && q in c.peers && q' in c.peers
    requires q in t[i].phases && t[i].phases[q].Done? && t[i].phases[q].accepted
    requires q' in t[j].phases && t[j].phases[q'].Done? && !t[j].phases[q'].accepted
    ensures t[j].phases[q'].ending == TimedOut || t[j].phases[q'].ending == Superseded
  {
    hide Next, Inv, Settle, Fold, Legitimate, Open;
    var k := if i < j then j else i;
    BehaviourInv(c, t, k); BehaviourInv(c, t, i); BehaviourInv(c, t, j);
    DoneStays(c, t, i, k, q); DoneStays(c, t, j, k, q');
    SameWorld(c, t[k], q, q');
  }

  lemma SameWorld(c: Config, w: World, q: PeerAddress, q': PeerAddress)
    requires Inv(c, w) && q in w.phases && q' in w.phases
    requires w.phases[q].Done? && w.phases[q].accepted && w.phases[q'].Done? && !w.phases[q'].accepted
    ensures w.phases[q'].ending == TimedOut || w.phases[q'].ending == Superseded
  {
    hide Settle, Fold, Legitimate;
    NoConflict(|c.peers|, c.index, c.hash, c.peers, w.ballots, q, w.phases[q], q', w.phases[q']);
  }

  /** Within the attempt a verdict is never revised. */
  lemma {:induction false} DoneStays(c: Config, t: seq<World>, i: nat, k: nat, q: PeerAddress)
    requires Behaviour(c, t) && i <= k < |t| && q in t[i].phases && t[i].phases[q].Done?
    ensures q in t[k].phases && t[k].phases[q] == t[i].phases[q]
    decreases k - i
  {
    hide Settle;
    if i < k {
      assert Next(c, t[i], t[i + 1]);
      DoneStays(c, t, i + 1, k, q);
    }
  }

  /**
    Giving up is the only way verdicts can differ, and it can happen: here the proposer
    accepts its block with one of two other votes while that voter runs out of tries.
   */
  lemma AcceptedAndTimedOut(c: Config, q: PeerAddress) returns (t: seq<World>)
    requires |c.peers| == 3 && c.proposer in c.peers && q in c.peers && q != c.proposer
    ensures Behaviour(c, t) && |t| == 5
    ensures c.proposer in t[4].phases && q in t[4].phases
    ensures t[4].phases[c.proposer] == Done(true, [Vote(q, c.index, true, c.hash)], ByMajority, true)
    ensures t[4].phases[q] == Done(true, [], TimedOut, false)
  {
    var m := Vote(q, c.index, true, c.hash);
    assert [m][..0] == [];
    var p0, p1 := Counting(true, []), Done(true, [m], ByMajority, true);
    assert Begin(c, true) == p0;
    assert Fold(c.index, c.hash, true, [m]) == Tally(2, 0, [q]);
    assert Settle(3, c.index, c.hash, true, [] + [m]) == p1;
    var w0 := World(map r | r in c.peers :: Idle, map[]);
    var w1 := w0.(phases := w0.phases[c.proposer := p0]);
    var w2 := World(w1.phases[q := p0], map[q := true]);
    var w3 := w2.(phases := w2.phases[c.proposer := p1]);
    var w4 := w3.(phases := w3.phases[q := Done(true, [], TimedOut, false)]);
    t := [w0, w1, w2, w3, w4];
    assert Propose(c, w0, w1);
    assert w1.ballots[q := true] == w2.ballots;
    assert Receive(c, w1, w2, q, true);
    assert Deliver(c, w2, w3, c.proposer, m);
    assert GiveUp(c, w3, w4, q, TimedOut);
  }

  // ------------------------------------------- what a peer does is such a run

  ghost function Last(t: seq<World>): World
    requires t != []
  {
    t[|t| - 1]
  }

  lemma Extend(c: Config, t: seq<World>, w: World)
    requires Behaviour(c, t) && Next(c, Last(t), w)
    ensures Behaviour(c, t + [w])
  {
    hide Next, Init;
    var u := t + [w];
    forall i | 0 <= i < |u| - 1 ensures Next(c, u[i], u[i + 1]) {
      if i < |t| - 1 { assert Next(c, t[i], t[i + 1]); }
    }
  }

  /** The messages of a count are votes really cast, or no votes on this block. */
  ghost predicate Deliverable(c: Config, ballots: map<PeerAddress, bool>, q: PeerAddress, s: seq<Message>) {
    forall m :: m in s && IsVoteFor(c.index, c.hash, m) ==>
      m.from != q && m.from in ballots && ballots[m.from] == m.agree
  }

  /** Delivering s one by one to a peer that has just begun to count. */
  lemma {:induction false} DeliverAll(c: Config, t: seq<World>, q: PeerAddress, own: bool, s: seq<Message>)
    returns (t': seq<World>)
    requires Behaviour(c, t) && q in Last(t).phases && Last(t).phases[q] == Begin(c, own)
    requires Unsettled(|c.peers|, c.index, c.hash, own, s) && Deliverable(c, Last(t).ballots, q, s)
    ensures Behaviour(c, t') && t <= t'
    ensures Last(t') == Last(t).(phases := Last(t).phases[q := Settle(|c.peers|, c.index, c.hash, own, s)])
    decreases |s|
  {
    hide Settle, Behaviour, Unsettled;
    if s == [] {
      t' := t;
      assert Last(t).phases[q := Begin(c, own)] == Last(t).phases;
    } else {
      var n := |s| - 1;
      var front, m := s[..n], s[n];
      assert m in s && s == front + [m] && forall x :: x in front ==> x in s;
      UnsettledPrefix(|c.peers|, c.index, c.hash, own, s);
      t' := DeliverAll(c, t, q, own, front);
      var w := Last(t').(phases := Last(t').phases[q := Settle(|c.peers|, c.index, c.hash, own, s)]);
      assert Deliver(c, Last(t'), w, q, m);
      Extend(c, t', w);
      t' := t' + [w];
      assert w.phases == Last(t).phases[q := Settle(|c.peers|, c.index, c.hash, own, s)];
    }
  }

  /**
    Every count that a peer can legitimately make on the votes of one attempt is a run of this
    machine: from its first state to the verdict, message by message.
   */
  lemma CountIsRun(c: Config, t: seq<World>, q: PeerAddress, p: Phase) returns (t': seq<World>)
    requires Behaviour(c, t) && p.Done? && Legitimate(|c.peers|, c.index, c.hash, p)
    requires q in Last(t).phases && Last(t).phases[q] == Begin(c, p.own)
    requires Deliverable(c, Last(t).ballots, q, p.handled)
    ensures Behaviour(c, t') && t <= t' && Last(t') == Last(t).(phases := Last(t).phases[q := p])
  {
    hide Settle, Behaviour, Unsettled, Deliverable;
    t' := DeliverAll(c, t, q, p.own, p.handled);
    if p.ending == TimedOut || p.ending == Superseded {
      var w := Last(t').(phases := Last(t').phases[q := p]);
      assert GiveUp(c, Last(t'), w, q, p.ending);
      Extend(c, t', w);
      t' := t' + [w];
      assert w.phases == Last(t).phases[q := p];
    }
  }

  // ------------------------------------------------- proposing the block again

  /** The proposer begins to count and two other peers vote. */
  lemma TwoVoted(c: Config, a: PeerAddress, va: bool, b: PeerAddress, vb: bool) returns (t: seq<World>)
    requires |c.peers| == 3 && c.proposer in c.peers && a in c.peers && b in c.peers
    requires a != c.proposer && b != c.proposer && a != b
    ensures Behaviour(c, t) && c.proposer in Last(t).phases && Last(t).phases[c.proposer] == Begin(c, true)
    ensures a in Last(t).phases && Last(t).phases[a] == Begin(c, va)
    ensures Last(t).ballots == map[a := va, b := vb]
  {
    hide Settle;
    var w0 := World(map r | r in c.peers :: Idle, map[]);
    var w1 := w0.(phases := w0.phases[c.proposer := Begin(c, true)]);
    var w2 := World(w1.phases[a := Begin(c, va)], map[a := va]);
    var w3 := World(w2.phases[b := Begin(c, vb)], map[a := va, b := vb]);
    assert Propose(c, w0, w1);
    assert w1.ballots[a := va] == w2.ballots && Receive(c, w1, w2, a, va);
    assert w2.ballots[b := vb] == w3.ballots && Receive(c, w2, w3, b, vb);
    t := [w0, w1, w2, w3];
  }

  /**
    The proposer, too, can run out of tries: the others accept its block while it does not, and
    its transaction stays pending.
   */
  lemma ProposerTimedOut(c: Config, a: PeerAddress, b: PeerAddress) returns (t: seq<World>)
    requires |c.peers| == 3 && c.proposer in c.peers && a in c.peers && b in c.peers
    requires a != c.proposer && b != c.proposer && a != b
    ensures Behaviour(c, t) && c.proposer in Last(t).phases && a in Last(t).phases
    ensures Last(t).phases[c.proposer] == Done(true, [], TimedOut, false)
    ensures Last(t).phases[a] == Done(true, [Vote(b, c.index, true, c.hash)], ByMajority, true)
  {
    hide Behaviour, Legitimate, Settle;
    ThreeVoters(c.index, c.hash, a, b);
    NobodyHeard(c.index, c.hash);
    t := TwoVoted(c, a, true, b, true);
    t := CountIsRun(c, t, a, Done(true, [Vote(b, c.index, true, c.hash)], ByMajority, true));
    t := CountIsRun(c, t, c.proposer, Done(true, [], TimedOut, false));
  }

  lemma NobodyHeard(index: nat, hash: ByteString)
    ensures Legitimate(3, index, hash, Done(true, [], TimedOut, false))
  {}

  /**
    That is the only way: once another peer has accepted the block, the proposer accepts it, and
    can be done with its transaction, if and only if its own count ends by votes.
   */
  lemma ProposerAcceptsToo(c: Config, t: seq<World>, i: nat, j: nat, q: PeerAddress)
    requires Behaviour(c, t) && i < |t| && j < |t| && q in c.peers
    requires q in t[i].phases && t[i].phases[q].Done? && t[i].phases[q].accepted
    requires c.proposer in t[j].phases && t[j].phases[c.proposer].Done?
    ensures var p := t[j].phases[c.proposer]; p.accepted <==> p.ending != TimedOut && p.ending != Superseded
  {
    hide Behaviour, Settle, Fold, Unsettled;
    BehaviourInv(c, t, j);
    assert PeerInv(c, t[j], c.proposer);
    if !t[j].phases[c.proposer].accepted { NoConflictingVerdicts(c, t, i, j, q, c.proposer); }
  }

  /** Among three voters two votes against settle a count, and so does one in favour of our own block. */
  lemma ThreeVoters(index: nat, hash: ByteString, a: PeerAddress, b: PeerAddress)
    requires a != b
    ensures Legitimate(3, index, hash,
                       Done(true, [Vote(a, index, false, hash), Vote(b, index, false, hash)], ByMajority, false))
    ensures Legitimate(3, index, hash, Done(true, [Vote(b, index, true, hash)], ByMajority, true))
  {
    var x, y, z := Vote(a, index, false, hash), Vote(b, index, false, hash), Vote(b, index, true, hash);
    assert [x, y][..0] == [] && [x, y][..1] == [x] && [x, y][..2] == [x, y] && [z][..0] == [] && [x][..0] == [];
    assert Fold(index, hash, true, [x]) == Tally(1, 1, [a]);
    assert Fold(index, hash, true, [x, y]) == Tally(1, 2, [a, b]);
    assert Fold(index, hash, true, [z]) == Tally(2, 0, [b]);
  }

  /**
    A block that was rejected may be proposed again, unchanged, and the peers vote again.  Each
    attempt is a run of its own, and the two can end differently: here both others vote against
    the block at first, and one of them in favour of it later.
   */
  lemma AttemptsDiffer(c: Config, a: PeerAddress, b: PeerAddress) returns (first: seq<World>, second: seq<World>)
    requires |c.peers| == 3 && c.proposer in c.peers && a in c.peers && b in c.peers
    requires a != c.proposer && b != c.proposer && a != b
    ensures Behaviour(c, first) && Behaviour(c, second)
    ensures c.proposer in Last(first).phases && c.proposer in Last(second).phases
    ensures Last(first).phases[c.proposer]
         == Done(true, [Vote(a, c.index, false, c.hash), Vote(b, c.index, false, c.hash)], ByMajority, false)
    ensures Last(second).phases[c.proposer] == Done(true, [Vote(b, c.index, true, c.hash)], ByMajority, true)
  {
    hide Behaviour, Legitimate, Settle;
    ThreeVoters(c.index, c.hash, a, b);
    first := TwoVoted(c, a, false, b, false);
    var against := [Vote(a, c.index, false, c.hash), Vote(b, c.index, false, c.hash)];
    first := CountIsRun(c, first, c.proposer, Done(true, against, ByMajority, false));
    second := TwoVoted(c, a, false, b, true);
    second := CountIsRun(c, second, c.proposer, Done(true, [Vote(b, c.index, true, c.hash)], ByMajority, true));
  }

  /** Ballots that do not change from one attempt to the other. */
  ghost predicate SameBallots(a: map<PeerAddress, bool>, b: map<PeerAddress, bool>) {
    forall r :: r in a && r in b ==> a[r] == b[r]
  }

  lemma AuthenticInBoth(c: Config, a: map<PeerAddress, bool>, b: map<PeerAddress, bool>,
                        q: PeerAddress, s: seq<Message>)
    requires SameBallots(a, b) && (Authentic(c.index, c.hash, a, q, s) || Authentic(c.index, c.hash, b, q, s))
    ensures Authentic(c.index, c.hash, a + b, q, s)
  {
    forall m | m in s && IsVoteFor(c.index, c.hash, m)
      ensures m.from != q && m.from in a + b && (a + b)[m.from] == m.agree
    {}
  }

  /**
    Verdicts of different attempts can contradict each other only if somebody changes a ballot: with
    the same ballots, the proposer's own included, no peer accepts in one attempt what another finds
    voted down in the other.
   */
  lemma NoConflictAcrossAttempts(c: Config, first: seq<World>, second: seq<World>, q: PeerAddress, q': PeerAddress)
    requires Behaviour(c, first) && Behaviour(c, second)
    requires var a, b := Last(first).ballots, Last(second).ballots;
      SameBallots(a, b) && c.proposer in a && c.proposer in b
    requires q in Last(first).phases && Last(first).phases[q].Done? && Last(first).phases[q].accepted
    requires q' in Last(second).phases && Last(second).phases[q'].Done? && !Last(second).phases[q'].accepted
    ensures Last(second).phases[q'].ending == TimedOut || Last(second).phases[q'].ending == Superseded
  {
    hide Behaviour, Settle, Fold, Legitimate, Authentic, Open;
    BehaviourInv(c, first, |first| - 1);
    BehaviourInv(c, second, |second| - 1);
    var w, w' := Last(first), Last(second);
    assert PeerInv(c, w, q) && PeerInv(c, w', q') && PeerInv(c, w, c.proposer);
    var p, p', ballots := w.phases[q], w'.phases[q'], w.ballots + w'.ballots;
    AuthenticInBoth(c, w.ballots, w'.ballots, q, p.handled);
    AuthenticInBoth(c, w.ballots, w'.ballots, q', p'.handled);
    NoConflict(|c.peers|, c.index, c.hash, c.peers, ballots, q, p, q', p');
  }
}
