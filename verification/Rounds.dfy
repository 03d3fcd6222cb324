/**
  The rounds of synchronisation, as they follow from the mailbox: when a round ends, what it
  reports, and how the mailbox is left.
 */
module Rounds {
  import opened Words
  import opened Chain
  import opened Messages
  import opened Mailbox
  import opened PeerSpec
  import Sync

  // ------------------------------------------------------------------- one round

  ghost function Tallied(w: Setting, s: seq<Message>): Sync.Tally
    requires w.chain != []
  {
    Sync.Fold(w.sha, TopHash(w.chain), |w.chain|, s)
  }

  ghost function Reported(w: Setting, s: seq<Message>): Option<Option<Block>>
    requires w.chain != []
  {
    Sync.Outcome(w.sha, w.others, w.chain, s)
  }

  /** After k looks at the mailbox there is a report, all peers are heard, or ten looks found nothing. */
  ghost predicate Over(w: Setting, b: Box, k: nat)
    requires w.chain != []
  {
    || Reported(w, Taken(b, k)).Some?
    || |Tallied(w, Taken(b, k)).seen| >= w.others
    || Misses(b, k) >= 10
  }

  /** A round from this mailbox makes exactly k looks. */
  ghost predicate Lasts(w: Setting, b: Box, k: nat)
    requires w.chain != []
  {
    Over(w, b, k) && forall j: nat :: j < k ==> !Over(w, b, j)
  }

  /** How the round leaves the mailbox. */
  ghost function RoundBox(w: Setting, b: Box, k: nat): Box {
    Back(After(b, k), Sync.DeferredOf(|w.chain|, Taken(b, k)))
  }

  /** What is sent in the round. */
  ghost function RoundSent(w: Setting, b: Box, k: nat): seq<Outgoing> {
    [Broadcast(RequestBlock(w.own, |w.chain|))] + Answers(w, Taken(b, k))
  }

  lemma LastsOnce(w: Setting, b: Box, j: nat, k: nat)
    requires w.chain != [] && Lasts(w, b, j) && Lasts(w, b, k)
    ensures j == k
  {}

  /** Peers once heard stay heard, and while no other is heard nothing changes. */
  lemma {:induction false} HeardGrows(w: Setting, x: seq<Message>, y: seq<Message>)
    requires w.chain != [] && x <= y
    ensures var t, u := Tallied(w, x), Tallied(w, y); |t.seen| <= |u.seen| && (|t.seen| == |u.seen| ==> t == u)
    decreases |y|
  {
    if |x| < |y| {
      var front := y[..|y| - 1];
      HeardGrows(w, x, front);
      StepGrows(w, Tallied(w, front), y[|y| - 1]);
    } else {
      assert x == y;
    }
  }

  lemma StepGrows(w: Setting, t: Sync.Tally, m: Message)
    requires w.chain != []
    ensures var u := Sync.Step(w.sha, TopHash(w.chain), |w.chain|, t, m); u == t || |u.seen| == |t.seen| + 1
  {}

  lemma ReportNeeds(w: Setting, s: seq<Message>)
    requires w.chain != [] && w.others > 0
    ensures Reported(w, s).Some? ==> s != [] && |Tallied(w, s).seen| <= w.others
  {}

  /** The report depends on the tally only. */
  lemma SameTally(w: Setting, r: seq<Message>, s: seq<Message>)
    requires w.chain != [] && w.others > 0 && Tallied(w, r) == Tallied(w, s) && |Tallied(w, r).seen| > 0
    ensures Reported(w, r) == Reported(w, s)
  {}

  /** A round with no report has heard all peers, or made exactly ten looks that found nothing. */
  lemma SilentRound(w: Setting, b: Box, k: nat)
    requires w.chain != [] && w.others > 0 && Lasts(w, b, k) && Reported(w, Taken(b, k)) == None
    ensures |Tallied(w, Taken(b, k)).seen| >= w.others || Misses(b, k) == 10
  {
    hide Sync.Fold, Sync.Outcome, Found, After;
    if k > 0 {
      assert !Over(w, b, k - 1);
      TakenGrows(b, k - 1, k);
    }
  }

  /**
    A round reports if and only if some number of looks, less than ten of which find nothing,
    takes out replies that give a verdict.
   */
  lemma ReportsExactly(w: Setting, b: Box, k: nat)
    requires w.chain != [] && w.others > 0 && Lasts(w, b, k)
    ensures Reported(w, Taken(b, k)).Some?
       <==> exists i: nat :: Misses(b, i) < 10 && Reported(w, Taken(b, i)).Some?
  {
    hide Sync.Fold, Sync.Outcome, Found, After;
    if Reported(w, Taken(b, k)).Some? {
      ReportNeeds(w, Taken(b, k));
      assert k > 0 && !Over(w, b, k - 1);
      TakenStep(b, k);
    }
    if i: nat :| Misses(b, i) < 10 && Reported(w, Taken(b, i)).Some? {
      assert Over(w, b, i);
      TakenGrows(b, k, i);
      HeardGrows(w, Taken(b, k), Taken(b, i));
      ReportNeeds(w, Taken(b, i));
      if Reported(w, Taken(b, k)) == None { SameTally(w, Taken(b, k), Taken(b, i)); }
    }
  }

  /** When some beginning of what the mailbox holds gives a verdict, the round reports one. */
  lemma LockedReports(w: Setting, b: Box, k: nat, i: nat)
    requires w.chain != [] && w.others > 0 && Lasts(w, b, k)
    requires i <= |Delivered(b).inbox| && Reported(w, Delivered(b).inbox[..i]).Some?
    ensures Reported(w, Taken(b, k)).Some?
  {
    hide Sync.Outcome, Misses;
    LockedTaken(b, i);
    ReportsExactly(w, b, k);
  }

  // ------------------------------------------------------------------- all rounds

  /** Where a number of rounds leads to. */
  datatype Course = Course(chain: seq<Block>, done: bool, box: Box, heard: seq<seq<Message>>, sent: seq<Outgoing>)

  /** Rounds from this mailbox, given by how many looks each makes. */
  ghost function Synced(w: Setting, b: Box, looks: seq<nat>): (p: Course)
    requires w.chain != []
    ensures w.chain <= p.chain && |p.heard| == |looks|
  {
    if looks == [] then Course(w.chain, false, b, [], [])
    else
      var n := |looks| - 1;
      var p, k := Synced(w, b, looks[..n]), looks[n];
      var v := w.(chain := p.chain);
      var next := Sync.After(w.sha, p.chain, Reported(v, Taken(p.box, k)));
      Course(next.chain, next.done, RoundBox(v, p.box, k), p.heard + [Taken(p.box, k)], p.sent + RoundSent(v, p.box, k))
  }

  /** The rounds are those the code makes: each ends when it is over, and only the last one ends the run. */
  ghost predicate RightRounds(w: Setting, b: Box, looks: seq<nat>)
    requires w.chain != []
  {
    looks == [] || (
      var n := |looks| - 1;
      var p := Synced(w, b, looks[..n]);
      RightRounds(w, b, looks[..n]) && !p.done && Lasts(w.(chain := p.chain), p.box, looks[n]))
  }

  lemma SyncedSnoc(w: Setting, b: Box, looks: seq<nat>, k: nat)
    requires w.chain != []
    ensures var p := Synced(w, b, looks); var v := w.(chain := p.chain);
      var next := Sync.After(w.sha, p.chain, Reported(v, Taken(p.box, k)));
      && Synced(w, b, looks + [k]) == Course(next.chain, next.done, RoundBox(v, p.box, k),
                                             p.heard + [Taken(p.box, k)], p.sent + RoundSent(v, p.box, k))
      && (RightRounds(w, b, looks) && !p.done && Lasts(v, p.box, k) ==> RightRounds(w, b, looks + [k]))
  {
    hide Sync.After, Sync.Outcome, Taken, RoundBox, RoundSent, Lasts;
    assert (looks + [k])[..|looks|] == looks;
  }

  /** From a given mailbox there is only one run of so many rounds. */
  lemma {:induction false} RoundsOnce(w: Setting, b: Box, x: seq<nat>, y: seq<nat>)
    requires w.chain != [] && RightRounds(w, b, x) && RightRounds(w, b, y) && |x| == |y|
    ensures x == y
    decreases |x|
  {
    hide Lasts, Sync.After, Sync.Outcome, Taken, RoundBox, RoundSent;
    if x != [] {
      var n := |x| - 1;
      RoundsOnce(w, b, x[..n], y[..n]);
      var p := Synced(w, b, x[..n]);
      LastsOnce(w.(chain := p.chain), p.box, x[n], y[n]);
      assert x == x[..n] + [x[n]] && y == y[..n] + [y[n]];
    }
  }

  /** p is where the run of rounds with so many looks leads to. */
  ghost predicate SyncedBy(w: Setting, b: Box, looks: seq<nat>, p: Course)
    requires w.chain != []
  {
    RightRounds(w, b, looks) && Synced(w, b, looks) == p
  }

  lemma SyncedNothing(w: Setting, b: Box)
    requires w.chain != []
    ensures SyncedBy(w, b, [], Course(w.chain, false, b, [], []))
  {}

  lemma SyncedStep(w: Setting, b: Box, looks: seq<nat>, p: Course, k: nat, q: Course)
    requires w.chain != [] && SyncedBy(w, b, looks, p) && !p.done && p.chain != []
    requires var v := w.(chain := p.chain); var next := Sync.After(w.sha, p.chain, Reported(v, Taken(p.box, k)));
      && Lasts(v, p.box, k)
      && q == Course(next.chain, next.done, RoundBox(v, p.box, k), p.heard + [Taken(p.box, k)],
                     p.sent + RoundSent(v, p.box, k))
    ensures SyncedBy(w, b, looks + [k], q)
  {
    hide Sync.After, Sync.Outcome, Taken, RoundBox, RoundSent, Lasts;
    SyncedSnoc(w, b, looks, k);
  }
}
