/**
  A peer has no choice: its chain, its candidates, its pending transactions, and what is and
  arrives in its mailbox determine everything it does in a turn.
 */
module Determined {
  import opened Words
  import opened Bytes
  import opened Chain
  import opened Messages
  import opened HashCash
  import opened Mailbox
  import opened Selection
  import opened PeerSpec
  import opened Counts
  import opened Requests
  import Rounds

  // --------------------------------------------------------------- synchronisation

  lemma {:induction false} RoundsBegin(w: Setting, b: Box, looks: seq<nat>, j: nat)
    requires w.chain != [] && Rounds.RightRounds(w, b, looks) && j < |looks|
    ensures Rounds.RightRounds(w, b, looks[..j]) && !Rounds.Synced(w, b, looks[..j]).done
    decreases |looks|
  {
    hide Rounds.Lasts, Rounds.Synced;
    var n := |looks| - 1;
    if j < n {
      RoundsBegin(w, b, looks[..n], j);
      assert looks[..n][..j] == looks[..j];
    }
  }

  lemma SyncOnce(w: Setting, s: Scene, x: seq<nat>, y: seq<nat>, maxRounds: nat, d: bool, d': bool,
                 c: seq<Block>, c': seq<Block>, t: Scene, t': Scene)
    requires w.chain != [] && SyncDone(w, s, x, maxRounds, d, c, t) && SyncDone(w, s, y, maxRounds, d', c', t')
    ensures x == y && d == d' && c == c' && t == t'
  {
    hide Rounds.RightRounds, Rounds.Synced;
    if |x| < |y| {
      RoundsBegin(w, s.box, y, |x|);
      Rounds.RoundsOnce(w, s.box, x, y[..|x|]);
    } else if |y| < |x| {
      RoundsBegin(w, s.box, x, |y|);
      Rounds.RoundsOnce(w, s.box, x[..|y|], y);
    } else {
      Rounds.RoundsOnce(w, s.box, x, y);
    }
  }

  // ---------------------------------------------------------------------- requests

  lemma RequestOnce(w: Setting, s: Scene, m: Message, allow: bool, x: Option<Count>, y: Option<Count>,
                    t: Scene, t': Scene)
    requires m.AddRequest? && RequestDone(w, s, m, allow, x, t) && RequestDone(w, s, m, allow, y, t')
    ensures x == y && t == t'
  {
    hide CountRight, CountScene, Endorses;
    if m.index <= |w.chain| && allow {
      CountOnce(w, w.others + 1, s.(sent := s.sent + [Ballot(w, m, Endorses(w, m))]), x.value, y.value);
    }
  }

  lemma ServedOnce(w: Setting, s: Scene, x: Treated, y: Treated)
    requires ServedRight(w, s, x) && ServedRight(w, s, y)
    ensures x == y
  {
    hide RequestDone, ServedScene;
    if Timely(w, x.m) {
      RequestOnce(w, s.(box := Looked(s.box)), x.m, true, x.count, y.count, ServedScene(w, s, x), ServedScene(w, s, y));
    }
  }

  lemma {:induction false} ServedBegin(w: Setting, s: Scene, log: seq<Treated>, j: nat)
    requires AllServedRight(w, s, log) && j < |log|
    ensures AllServedRight(w, s, log[..j]) && Found(AllServedScene(w, s, log[..j]).box).Some?
    decreases |log|
  {
    hide AllServedScene, Found, RequestDone;
    var n := |log| - 1;
    if j < n {
      ServedBegin(w, s, log[..n], j);
      assert log[..n][..j] == log[..j];
    }
  }

  lemma {:induction false} AllServedOnce(w: Setting, s: Scene, x: seq<Treated>, y: seq<Treated>)
    requires AllServedRight(w, s, x) && AllServedRight(w, s, y) && |x| == |y|
    ensures x == y
    decreases |x|
  {
    hide ServedRight, ServedScene;
    if x != [] {
      var n := |x| - 1;
      AllServedOnce(w, s, x[..n], y[..n]);
      ServedOnce(w, AllServedScene(w, s, x[..n]), x[n], y[n]);
      assert x == x[..n] + [x[n]] && y == y[..n] + [y[n]];
    }
  }

  lemma CollectOnce(w: Setting, s: Scene, x: seq<Treated>, y: seq<Treated>)
    requires CollectRight(w, s, x) && CollectRight(w, s, y)
    ensures x == y
  {
    hide AllServedRight, AllServedScene, Found;
    if |x| < |y| {
      ServedBegin(w, s, y, |x|);
      AllServedOnce(w, s, x, y[..|x|]);
    } else if |y| < |x| {
      ServedBegin(w, s, x, |y|);
      AllServedOnce(w, s, x[..|y|], y);
    } else {
      AllServedOnce(w, s, x, y);
    }
  }

  lemma ChoiceOnce(c: seq<Block>, x: Choice, y: Choice)
    requires ChosenFrom(x.best, x.chosen, c) && ChosenFrom(y.best, y.chosen, c)
    ensures x.best == y.best && (x.best.Some? ==> x == y)
  {
    hide LexLe;
    if x.best.Some? { assert !(x.chosen < y.chosen) && !(y.chosen < x.chosen); }
  }

  lemma AppendOnce(w: Setting, s: Scene, x: seq<Treated>, y: seq<Treated>, p: Choice, q: Choice,
                   c: seq<Block>, c': seq<Block>, t: Scene, t': Scene)
    requires w.chain != [] && AppendDone(w, s, x, p, c, t) && AppendDone(w, s, y, q, c', t')
    ensures p.best == q.best && (p.best.Some? ==> p == q) && c == c' && t == t'
  {
    hide CollectRight, Collected, ChosenFrom;
    CollectOnce(w, s, x, y);
    ChoiceOnce(Collected(w, s, x).candidates, p, q);
  }

  // --------------------------------------------------------------------- proposals

  /** The search has one answer. */
  lemma FirstKeyOnce(sha: Digest, difficulty: nat, seed: ByteString, k: ByteString, l: ByteString)
    requires FirstKey(sha, difficulty, seed, k) && FirstKey(sha, difficulty, seed, l)
    ensures k == l
  {
    hide Solution, InRange, Decode;
    if Before(k, l) {
      LastKey(l, k);
    } else if Before(l, k) {
      LastKey(k, l);
    } else {
      SameBytes(k, l);
    }
  }

  lemma ProposalOnce(w: Setting, s: Scene, data: ByteString, k: ByteString, l: ByteString, c: Count, c': Count,
                     t: Scene, t': Scene)
    requires w.chain != [] && ProposalDone(w, s, data, k, c, t) && ProposalDone(w, s, data, l, c', t')
    ensures k == l && c == c' && t == t'
  {
    hide FirstKey, CountRight, CountScene, Next;
    var b := Next(w.sha, w.chain, data);
    FirstKeyOnce(w.sha, w.difficulty, Seed(w.sha, b), k, l);
    CountOnce(w, w.others + 1, ProposedScene(w, s, b, k), c, c');
  }

  // ------------------------------------------------------------------------- turns

  lemma JoinOnce(w: Setting, s: Scene, d: Deed, d': Deed, maxRounds: nat, done: bool, done': bool,
                 c: seq<Block>, c': seq<Block>, t: Scene, t': Scene)
    requires w.chain != [] && d.Join? && d'.Join? && d.m == d'.m && d.m.AddRequest?
    requires JoinDone(w, s, d, maxRounds, done, c, t) && JoinDone(w, s, d', maxRounds, done', c', t')
    ensures done == done' && c == c' && t == t'
  {
    hide SyncDone, RequestDone, AppendDone, Rounds.Synced;
    var p, p' := Rounds.Synced(w, s.box, d.looks), Rounds.Synced(w, s.box, d'.looks);
    SyncOnce(w, s, d.looks, d'.looks, maxRounds, done, done', p.chain, p'.chain,
             Afterwards(w, s, d.looks), Afterwards(w, s, d'.looks));
    if done {
      var v := w.(chain := p.chain);
      RequestOnce(v, Afterwards(w, s, d.looks), d.m, true, d.count, d'.count, d.mid, d'.mid);
      AppendOnce(v, d.mid, d.log, d'.log, d.choice, d'.choice, c, c', t, t');
    }
  }

  lemma ProposeOnce(w: Setting, s: Scene, data: ByteString, d: Deed, d': Deed, maxRounds: nat, done: bool, done': bool,
                    c: seq<Block>, c': seq<Block>, t: Scene, t': Scene)
    requires w.chain != [] && d.Propose? && d'.Propose?
    requires ProposeDone(w, s, data, d, maxRounds, done, c, t) && ProposeDone(w, s, data, d', maxRounds, done', c', t')
    ensures done == done' && c == c' && t == t' && OwnChosen(done, d) == OwnChosen(done', d')
  {
    hide SyncDone, ProposalDone, AppendDone, Rounds.Synced;
    var p, p' := Rounds.Synced(w, s.box, d.looks), Rounds.Synced(w, s.box, d'.looks);
    SyncOnce(w, s, d.looks, d'.looks, maxRounds, done, done', p.chain, p'.chain,
             Afterwards(w, s, d.looks), Afterwards(w, s, d'.looks));
    if done {
      var v := w.(chain := p.chain);
      ProposalOnce(v, Afterwards(w, s, d.looks), data, d.pow, d'.pow, d.own, d'.own, d.mid, d'.mid);
      AppendOnce(v, d.mid, d.log, d'.log, d.choice, d'.choice, c, c', t, t');
    }
  }

  /** Two turns that start alike end alike: what a turn does is a function of where it starts. */
  lemma TurnOnce(w: Setting, a: Moment, refresh: bool, maxRounds: nat, d: Deed, d': Deed, done: bool, done': bool,
                 b: Moment, b': Moment)
    requires w.chain != []
    requires TurnDone(w, a, refresh, maxRounds, d, done, b) && TurnDone(w, a, refresh, maxRounds, d', done', b')
    ensures done == done' && b == b'
  {
    hide SyncDone, JoinDone, ProposeDone, OwnChosen, Found, Looked;
    var taken, pending := a.scene.(box := Looked(a.scene.box)), a.standing.pending;
    var c, c' := b.standing.chain, b'.standing.chain;
    if refresh {
      SyncOnce(w, a.scene, d.looks, d'.looks, maxRounds, done, done', c, c', b.scene, b'.scene);
    } else if Found(a.scene.box) == None {
      if pending == [] {
        SyncOnce(w, taken, d.looks, d'.looks, maxRounds, done, done', c, c', b.scene, b'.scene);
      } else {
        ProposeOnce(w, taken, pending[0], d, d', maxRounds, done, done', c, c', b.scene, b'.scene);
      }
    } else if Found(a.scene.box).value.AddRequest? {
      JoinOnce(w, taken, d, d', maxRounds, done, done', c, c', b.scene, b'.scene);
    }
  }

  // ---------------------------------------------------------------- runs of turns

  lemma {:induction false} RunsAgree(w: Setting, refreshes: seq<bool>, maxRounds: nat, x: seq<Moment>, y: seq<Moment>,
                                     d: seq<Deed>, d': seq<Deed>, done: bool, done': bool, k: nat)
    requires RunDone(w, refreshes, maxRounds, x, d, done) && RunDone(w, refreshes, maxRounds, y, d', done')
    requires x[0] == y[0] && k < |x| && k < |y|
    ensures x[k] == y[k]
    ensures k > 0 ==> (done || k < |d|) == (done' || k < |d'|)
    decreases k
  {
    hide TurnDone;
    if k > 0 {
      RunsAgree(w, refreshes, maxRounds, x, y, d, d', done, done', k - 1);
      var i := k - 1;
      assert TurnLogged(w, refreshes, maxRounds, x, d, done, i) && TurnLogged(w, refreshes, maxRounds, y, d', done', i);
      TurnOnce(w.(chain := x[i].standing.chain), x[i], refreshes[i], maxRounds, d[i], d'[i],
               done || i < |d| - 1, done' || i < |d'| - 1, x[k], y[k]);
    }
  }

  /** So is every run of turns. */
  lemma RunOnce(w: Setting, refreshes: seq<bool>, maxRounds: nat, x: seq<Moment>, y: seq<Moment>,
                d: seq<Deed>, d': seq<Deed>, done: bool, done': bool)
    requires RunDone(w, refreshes, maxRounds, x, d, done) && RunDone(w, refreshes, maxRounds, y, d', done')
    requires x[0] == y[0]
    ensures x == y && done == done'
  {
    hide TurnLogged;
    var k := if |x| < |y| then |x| - 1 else |y| - 1;
    RunsAgree(w, refreshes, maxRounds, x, y, d, d', done, done', k);
    assert |x| == |y|;
    forall j | 0 <= j < |x| ensures x[j] == y[j] {
      RunsAgree(w, refreshes, maxRounds, x, y, d, d', done, done', j);
    }
  }
}
