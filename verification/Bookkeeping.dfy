/** Step by step, what the loops of a peer keep: the lemmas its methods need. */
module Bookkeeping {
  import opened Words
  import opened Chain
  import opened Counts
  import opened Messages
  import opened HashCash
  import opened Mailbox
  import opened Majority
  import opened Selection
  import opened PeerSpec
  import opened Requests
  import opened Rounds
  import Gf2
  import Sync
  import Voting

  // ------------------------------------------------------ sizes of messages

  /** Blocks in messages hold data of the right size. */
  ghost predicate Sized(size: nat, s: seq<Message>) {
    forall m :: m in s && (m.BlockReply? || m.AddRequest?) ==> |m.block.data| == size
  }

  lemma SizedWithin(size: nat, a: seq<Message>, b: seq<Message>)
    requires multiset(a) <= multiset(b) && Sized(size, b)
    ensures Sized(size, a)
  {
    forall m | m in a ensures m in b { assert m in multiset(a) && m in multiset(b); }
  }

  lemma SizedPlus(size: nat, s: seq<Message>, m: Message, t: seq<Message>)
    requires Sized(size, s) && multiset(t) == multiset(s) + multiset([m])
    requires m.AddRequest? && |m.block.data| == size
    ensures Sized(size, t)
  {
    forall x | x in t && x != m ensures x in s { assert x in multiset(t); assert x in multiset(s); }
  }

  lemma TakenSized(size: nat, before: seq<Message>, m: Message, rest: seq<Message>)
    requires before == [m] + rest && Sized(size, before)
    ensures Sized(size, rest) && (m.AddRequest? ==> |m.block.data| == size)
  {
    assert m in before;
  }

  lemma SizeWithin(a: seq<Message>, b: seq<Message>)
    requires multiset(a) <= multiset(b)
    ensures |a| <= |b|
  {
    MultisetSize(multiset(a), multiset(b));
  }

  lemma {:induction false} MultisetSize<T>(a: multiset<T>, b: multiset<T>)
    requires a <= b
    ensures |a| <= |b|
  {
    assert b == a + (b - a);
    assert |a + (b - a)| == |a| + |b - a|;
  }

  // ------------------------------------------------------------ what was sent

  lemma AnswersSnoc(w: Setting, s: seq<Message>, m: Message)
    ensures Answers(w, s + [m]) ==
      Answers(w, s) + (if m.RequestBlock? && m.index < |w.chain| then [Respond(m.from, Answer(w, m.index))] else [])
  {
    assert (s + [m])[..|s|] == s;
  }

  lemma SentNow(before: seq<Outgoing>, mid: seq<Outgoing>, o: Outgoing, after: seq<Outgoing>)
    requires before <= mid && mid + [o] <= after
    ensures SentSince(before, after, o)
  {
    assert after[|mid|] == (mid + [o])[|mid|];
  }

  /** What was sent stays sent, also counted from an earlier moment. */
  lemma SentWider(sent0: seq<Outgoing>, sent1: seq<Outgoing>, sent2: seq<Outgoing>, sent3: seq<Outgoing>, o: Outgoing)
    requires sent0 <= sent1 <= sent2 <= sent3 && SentSince(sent1, sent2, o)
    ensures SentSince(sent0, sent3, o)
  {
    var k :| |sent1| <= k < |sent2| && sent2[k] == o;
    assert sent3[k] == o;
  }

  lemma JudgedNow(w: Setting, start: View, mid: View, now: View, m: Message)
    requires m.AddRequest? && start.sent <= mid.sent && start.history <= mid.history
    requires mid.sent + [Ballot(w, m, Endorses(w, m))] <= now.sent && |now.history| > |mid.history|
    requires || LastRecord(now.history, m.block, Endorses(w, m), true)
             || LastRecord(now.history, m.block, Endorses(w, m), false)
    ensures JudgedRight(w, start, now, m)
  {
    hide SentSince, Endorses, LastRecord, Judged;
    SentNow(start.sent, mid.sent, Ballot(w, m, Endorses(w, m)), now.sent);
    if LastRecord(now.history, m.block, Endorses(w, m), true) {
      LastIsJudged(start.history, now.history, now.history, m.block, Endorses(w, m), true);
    } else {
      LastIsJudged(start.history, now.history, now.history, m.block, Endorses(w, m), false);
    }
  }

  lemma JudgedStill(w: Setting, start: View, mid: View, now: View, m: Message)
    requires m.AddRequest? && JudgedRight(w, start, mid, m)
    requires start.sent <= mid.sent <= now.sent && mid.history <= now.history
    ensures JudgedRight(w, start, now, m)
  {
    hide SentSince, Endorses;
    SentWider(start.sent, start.sent, mid.sent, now.sent, Ballot(w, m, Endorses(w, m)));
    var k :| |start.history| <= k < |mid.history| && mid.history[k].block == m.block
             && mid.history[k].phase.Done? && mid.history[k].phase.own == Endorses(w, m);
    assert now.history[k] == mid.history[k];
  }

  lemma AllJudgedMore(w: Setting, start: View, mid: View, now: View, s: seq<Message>, m: Message)
    requires AllJudged(w, start, mid, s) && (Timely(w, m) ==> JudgedRight(w, start, now, m))
    requires start.sent <= mid.sent <= now.sent && mid.history <= now.history
    ensures AllJudged(w, start, now, s + [m])
  {
    hide JudgedRight;
    forall x | x in s + [m] && Timely(w, x) ensures JudgedRight(w, start, now, x) {
      if x in s { JudgedStill(w, start, mid, now, x); }
    }
  }

  lemma ServedVote(w: Setting, b: Block, sent: seq<Outgoing>, m: Message)
    requires m.Vote?
    ensures Served(w, b, sent, sent, [m])
  {}

  lemma ServedWider(w: Setting, b: Block, sent0: seq<Outgoing>, sent1: seq<Outgoing>, sent2: seq<Outgoing>,
                    sent3: seq<Outgoing>, m: Message)
    requires sent0 <= sent1 <= sent2 <= sent3 && ServedOne(w, b, sent1, sent2, m)
    ensures ServedOne(w, b, sent0, sent3, m)
  {
    hide SentSince, Answer, RivalVote;
    if m.RequestBlock? && m.index <= |w.chain| {
      SentWider(sent0, sent1, sent2, sent3, Respond(m.from, Answer(w, m.index)));
    } else if Timely(w, m) {
      SentWider(sent0, sent1, sent2, sent3, Ballot(w, m, RivalVote(w, b, m)));
    }
  }

  lemma ServedMore(w: Setting, b: Block, sent0: seq<Outgoing>, sent1: seq<Outgoing>, sent: seq<Outgoing>,
                   s: seq<Message>, m: Message)
    requires sent0 <= sent1 <= sent && Served(w, b, sent0, sent1, s) && Served(w, b, sent1, sent, [m])
    ensures Served(w, b, sent0, sent, s + [m])
  {
    hide ServedOne;
    forall x | x in s + [m] ensures ServedOne(w, b, sent0, sent, x) {
      if x in s { ServedWider(w, b, sent0, sent0, sent1, sent, x); }
      else { assert x in [m]; ServedWider(w, b, sent0, sent1, sent, sent, x); }
    }
  }

  // ------------------------------------------------------- the log of counts

  lemma AcceptedSnoc(h: seq<Record>, r: Record)
    ensures Accepted(h + [r]) == Accepted(h) + (if r.phase.Done? && r.phase.accepted then [r.block] else [])
  {
    assert (h + [r])[..|h|] == h;
  }

  lemma {:induction false} AcceptedConcat(g: seq<Record>, h: seq<Record>)
    ensures Accepted(g + h) == Accepted(g) + Accepted(h)
  {
    if h == [] { assert g + h == g; }
    else {
      var n := |h| - 1;
      AcceptedConcat(g, h[..n]);
      assert g + h == (g + h[..n]) + [h[n]] && h == h[..n] + [h[n]];
      AcceptedSnoc(g + h[..n], h[n]); AcceptedSnoc(h[..n], h[n]);
    }
  }

  lemma LoggedRefl(w: Setting, v: View)
    ensures Logged(w, v, v)
  {
    assert v.history[|v.history|..] == [];
  }

  lemma RecordWithin(w: Setting, a: seq<Message>, b: seq<Message>, r: Record)
    requires RecordOk(w, a, r) && multiset(a) <= multiset(b)
    ensures RecordOk(w, b, r)
  {
    hide Voting.Legitimate, OnTop;
  }

  lemma LoggedTrans(w: Setting, start: View, mid: View, now: View)
    requires Logged(w, start, mid) && Logged(w, mid, now) && multiset(mid.stream) <= multiset(start.stream)
    ensures Logged(w, start, now)
  {
    hide RecordOk, Accepted;
    var h, h1, h2 := start.history, mid.history, now.history;
    assert h2[|h|..] == h1[|h|..] + h2[|h1|..];
    AcceptedConcat(h1[|h|..], h2[|h1|..]);
    forall k | |h| <= k < |h2| ensures RecordOk(w, start.stream, h2[k]) {
      if k < |h1| { assert h2[k] == h1[k]; } else { RecordWithin(w, mid.stream, start.stream, h2[k]); }
    }
  }

  /** Messages and what was sent do not matter for the log, except those the counts heard. */
  lemma LoggedAnyway(w: Setting, start: View, now: View, now': View)
    requires Logged(w, start, now) && now'.candidates == now.candidates && now'.history == now.history
    ensures Logged(w, start, now')
  {}

  // ------------------------------------------------------- deferred messages

  lemma PreservedRefl(w: Setting, v: View)
    ensures Preserved(w, v, [], v)
  {}

  lemma PreservedTake(w: Setting, start: View, read: seq<Message>, before: View, m: Message, taken: View)
    requires Preserved(w, start, read, before) && TookOut(before, m, taken)
    ensures Preserved(w, start, read + [m], taken)
    ensures !Deferrable(|w.chain|, m) ==> Preserved(w, start, read, taken)
  {
    hide NoneSuperseded, Deferrable;
  }

  lemma ForNow(w: Setting, m: Message)
    requires (m.Vote? && m.index <= |w.chain|) || Timely(w, m)
    ensures !Deferrable(|w.chain|, m)
  {}

  lemma PreservedTrans(w: Setting, start: View, read: seq<Message>, mid: View, now: View)
    requires Preserved(w, start, read, mid) && Preserved(w, mid, [], now)
    ensures Preserved(w, start, read, now)
  {
    hide Deferrable;
    var h, h1, h2 := start.history, mid.history, now.history;
    if NoneSuperseded(h, h2) {
      forall k | |h| <= k < |h1| ensures h1[k] == h2[k] {}
      assert NoneSuperseded(h, h1) && NoneSuperseded(h1, h2);
    }
  }

  lemma PreservedBack(w: Setting, start: View, read: seq<Message>, now: View, after: View)
    requires Preserved(w, start, read, now) && after.history == now.history
    requires multiset(after.stream) == multiset(now.stream) + multiset(read)
    ensures Preserved(w, start, [], after)
  {
    hide NoneSuperseded, Deferrable;
  }

  // --------------------------------------------- the loops that handle messages

  lemma AccountedTake(handled: seq<Message>, read: seq<Message>, before: seq<Message>, stream: seq<Message>,
                      m: Message, rest: seq<Message>)
    requires Accounted(handled, read, before, stream) && before == [m] + rest
    ensures Accounted(handled + [m], read, rest, stream) && Accounted(handled + [m], read + [m], rest, stream)
    ensures |rest| < |before|
  {
    assert multiset(before) == multiset{m} + multiset(rest);
  }

  lemma AccountedShrink(handled: seq<Message>, read: seq<Message>, rest: seq<Message>, rest': seq<Message>,
                        stream: seq<Message>)
    requires Accounted(handled, read, rest, stream) && multiset(rest') <= multiset(rest)
    ensures Accounted(handled, read, rest', stream) && |rest'| <= |rest|
  {
    SizeWithin(rest', rest);
  }

  lemma HandlingRefl(w: Setting, v: View)
    ensures Handling(w, v, v)
  {
    hide Preserved, Logged;
    PreservedRefl(w, v);
    LoggedRefl(w, v);
  }

  /** Sending something is handling too. */
  lemma HandlingSent(w: Setting, v: View, sent: seq<Outgoing>)
    requires v.sent <= sent
    ensures Handling(w, v, v.(sent := sent))
  {
    hide Logged;
    LoggedRefl(w, v);
    LoggedAnyway(w, v, v, v.(sent := sent));
  }

  lemma HandlingTrans(w: Setting, a: View, b: View, c: View)
    requires Handling(w, a, b) && Handling(w, b, c)
    ensures Handling(w, a, c)
  {
    hide Preserved, Logged;
    PreservedTrans(w, a, [], b, c);
    LoggedTrans(w, a, b, c);
  }

  lemma LedgerBegin(w: Setting, start: View)
    ensures Ledger(w, start, [], [], start)
  {
    hide Preserved, Logged;
    PreservedRefl(w, start);
    LoggedRefl(w, start);
  }

  lemma LedgerTake(w: Setting, start: View, handled: seq<Message>, read: seq<Message>, before: View, m: Message,
                   taken: View)
    requires Ledger(w, start, handled, read, before) && TookOut(before, m, taken)
    ensures Ledger(w, start, handled + [m], read + [m], taken)
    ensures !Deferrable(|w.chain|, m) ==> Ledger(w, start, handled + [m], read, taken)
    ensures |taken.stream| < |before.stream|
  {
    hide Preserved, Logged, Accounted, Deferrable;
    AccountedTake(handled, read, before.stream, start.stream, m, taken.stream);
    PreservedTake(w, start, read, before, m, taken);
    LoggedAnyway(w, start, before, taken);
  }

  lemma LedgerHandle(w: Setting, start: View, handled: seq<Message>, read: seq<Message>, taken: View, after: View)
    requires Ledger(w, start, handled, read, taken) && Handling(w, taken, after)
    ensures Ledger(w, start, handled, read, after)
    ensures |after.stream| <= |taken.stream|
  {
    hide Preserved, Logged;
    LoggedTrans(w, start, taken, after);
    AccountedShrink(handled, read, taken.stream, after.stream, start.stream);
    PreservedTrans(w, start, read, taken, after);
  }

  /** Placing back what was read turns what a loop kept into the effect of the whole. */
  lemma LedgerBack(w: Setting, start: View, handled: seq<Message>, read: seq<Message>, now: View, after: View)
    requires Ledger(w, start, handled, read, now) && after == now.(stream := after.stream)
    requires multiset(after.stream) == multiset(now.stream) + multiset(read)
    ensures Handling(w, start, after)
  {
    hide Preserved, Logged;
    PreservedBack(w, start, read, now, after);
    LoggedAnyway(w, start, now, after);
  }

  lemma HandlingShrinks(w: Setting, start: View, now: View)
    requires Handling(w, start, now)
    ensures multiset(now.stream) <= multiset(start.stream)
  {}

  lemma InOrderBegin(w: Setting, start: seq<Message>)
    ensures InOrder(w, start, [], start)
  {}

  lemma InOrderStep(w: Setting, start: seq<Message>, handled: seq<Message>, before: seq<Message>, m: Message,
                    rest: seq<Message>, after: seq<Message>)
    requires InOrder(w, start, handled, before) && before == [m] + rest && (!Timely(w, m) ==> after == rest)
    ensures InOrder(w, start, handled + [m], after)
  {
    var all := handled + [m];
    forall j | 0 <= j < |all| && NoneTimely(w, all[..j]) ensures all[..j] + [all[j]] <= start {
      assert all[..j] == handled[..j];
      if j == |handled| { assert handled[..j] == handled && handled + before == (handled + [m]) + rest; }
    }
    if NoneTimely(w, all) {
      assert m in all && forall x :: x in handled ==> x in all;
      assert handled + before == all + rest;
    }
  }

  lemma CountLedgerBegin(w: Setting, b: Block, start: View)
    ensures CountLedger(w, b, start, [], [], start)
  {
    hide Ledger, InOrder;
    LedgerBegin(w, start);
    InOrderBegin(w, start.stream);
  }

  lemma CountLedgerStep(w: Setting, b: Block, start: View, handled: seq<Message>, read: seq<Message>,
                        before: View, m: Message, taken: View, read': seq<Message>, after: View)
    requires CountLedger(w, b, start, handled, read, before) && TookOut(before, m, taken)
    requires read' == read + (if Deferrable(|w.chain|, m) then [m] else [])
    requires Handling(w, taken, after) && Served(w, b, taken.sent, after.sent, [m])
    requires !Timely(w, m) ==> after.stream == taken.stream
    ensures CountLedger(w, b, start, handled + [m], read', after)
    ensures |after.stream| < |before.stream|
  {
    hide Preserved, Logged, Accounted, Served, Deferrable, InOrder, Timely;
    assert read + [] == read;
    LedgerTake(w, start, handled, read, before, m, taken);
    LedgerHandle(w, start, handled + [m], read', taken, after);
    ServedMore(w, b, start.sent, before.sent, after.sent, handled, m);
    InOrderStep(w, start.stream, handled, before.stream, m, taken.stream, after.stream);
  }

  lemma NeverGivenUp(w: Setting, b: Block)
    ensures GivenUpFor(w, b, [], false)
  {}

  lemma CountInOrder(w: Setting, b: Block, start: View, p: Voting.Phase, read: seq<Message>, now: View,
                     nothingToArrive: bool)
    requires p.Done? && CountLedger(w, b, start, p.handled, read, now)
    requires p.ending == Voting.TimedOut && nothingToArrive ==> now.stream == []
    ensures CountedInOrder(w, start.stream, p, nothingToArrive)
  {
    hide Ledger, Served, InOrder;
    assert InOrder(w, start.stream, p.handled, now.stream);
  }

  lemma NotGivenUp(w: Setting, b: Block, handled: seq<Message>, m: Message, superseded: bool)
    requires GivenUpFor(w, b, handled, false) && (superseded <==> Overtakes(w, b, m))
    ensures GivenUpFor(w, b, handled + [m], superseded)
  {
    hide Overtakes;
  }

  lemma RequestsBegin(w: Setting, start: View)
    ensures RequestsLedger(w, start, [], [], start)
  {
    hide Ledger;
    LedgerBegin(w, start);
  }

  lemma RequestsDeferred(w: Setting, start: View, handled: seq<Message>, read: seq<Message>, before: View, m: Message,
                         taken: View)
    requires RequestsLedger(w, start, handled, read, before) && TookOut(before, m, taken) && !Timely(w, m)
    ensures RequestsLedger(w, start, handled + [m], read + [m], taken)
    ensures |taken.stream| < |before.stream|
  {
    hide Ledger, SentSince, Judged, Endorses, Timely;
    LedgerTake(w, start, handled, read, before, m, taken);
  }

  lemma RequestsServed(w: Setting, start: View, handled: seq<Message>, read: seq<Message>,
                       before: View, m: Message, taken: View, after: View)
    requires RequestsLedger(w, start, handled, read, before) && TookOut(before, m, taken)
    requires Timely(w, m) && Handling(w, taken, after) && taken.sent + [Ballot(w, m, Endorses(w, m))] <= after.sent
    requires |after.history| > |taken.history|
    requires || LastRecord(after.history, m.block, Endorses(w, m), true)
             || LastRecord(after.history, m.block, Endorses(w, m), false)
    ensures RequestsLedger(w, start, handled + [m], read, after)
    ensures |after.stream| < |before.stream|
  {
    hide Preserved, Accounted, JudgedRight, AllJudged, NoneTimely, LastRecord, RecordOk, Accepted, Endorses;
    ForNow(w, m);
    LedgerTake(w, start, handled, read, before, m, taken);
    LedgerHandle(w, start, handled + [m], read, taken, after);
    JudgedNow(w, start, taken, after, m);
    AllJudgedMore(w, start, before, after, handled, m);
  }

  // ------------------------------------------------------- the state of a count

  /** The counters agree with the votes handled, and neither side has a majority yet. */
  ghost predicate CountState(n: nat, index: nat, hash: ByteString, own: bool, handled: seq<Message>, t: Voting.Tally) {
    && Voting.Fold(index, hash, own, handled) == t
    && Voting.Unsettled(n, index, hash, own, handled)
    && |t.seen| + 1 <= n
    && (n >= 2 ==> t.agrees <= n / 2 && t.disagrees <= n / 2)
    && (handled != [] ==> n >= 2)
  }

  lemma CountBegin(n: nat, index: nat, hash: ByteString, own: bool)
    requires n >= 1
    ensures CountState(n, index, hash, own, [], Voting.Tally(if own then 1 else 0, if own then 0 else 1, []))
  {}

  lemma NotCounted(index: nat, hash: ByteString, t: Voting.Tally, m: Message)
    requires !(m.Vote? && m.index == index)
    ensures Voting.Step(index, hash, t, m) == t
  {}

  /** After a message the count goes on, or has been settled the way the code settles it. */
  lemma CountStep(n: nat, index: nat, hash: ByteString, own: bool, s: seq<Message>, t: Voting.Tally, m: Message,
                  t': Voting.Tally)
    requires CountState(n, index, hash, own, s, t) && |t.seen| + 1 < n && t' == Voting.Step(index, hash, t, m)
    ensures t'.agrees <= n / 2 && t'.disagrees <= n / 2 ==> CountState(n, index, hash, own, s + [m], t')
    ensures t'.agrees > n / 2 ==> Voting.Legitimate(n, index, hash, Voting.Done(own, s + [m], Voting.ByMajority, true))
    ensures t'.agrees <= n / 2 && t'.disagrees > n / 2 ==>
      Voting.Legitimate(n, index, hash, Voting.Done(own, s + [m], Voting.ByMajority, false))
    ensures t' == t ==> Voting.Legitimate(n, index, hash, Voting.Done(own, s + [m], Voting.Superseded, false))
  {
    hide Voting.Fold, Voting.Unsettled;
    Voting.FoldSnoc(index, hash, own, s, m);
    Voting.UnsettledSnoc(n, index, hash, own, s, m);
  }

  lemma CountTimedOut(n: nat, index: nat, hash: ByteString, own: bool, s: seq<Message>, t: Voting.Tally)
    requires CountState(n, index, hash, own, s, t) && |t.seen| + 1 < n
    ensures Voting.Legitimate(n, index, hash, Voting.Done(own, s, Voting.TimedOut, false))
  {
    hide Voting.Fold;
  }

  lemma CountAllSeen(n: nat, index: nat, hash: ByteString, own: bool, s: seq<Message>, t: Voting.Tally)
    requires CountState(n, index, hash, own, s, t) && |t.seen| + 1 >= n
    ensures Voting.Legitimate(n, index, hash,
                              Voting.Done(own, s, Voting.AllSeen, t.agrees > t.disagrees + n - (|t.seen| + 1)))
  {
    hide Voting.Fold;
  }

  /** The variables of the loop over the votes. */
  datatype Tallying = Tallying(steps: seq<Step>, tally: Voting.Tally, tries: nat, read: seq<Message>, scene: Scene)

  /** The state of a count that has not ended. */
  ghost predicate CountGoesOn(w: Setting, n: nat, b: Block, own: bool, s: Scene, v: Tallying) {
    && StepsRight(w, b, s, v.steps) && v.scene == StepsScene(w, s, v.steps)
    && v.tries == Missed(v.steps) < 10 * n && v.read == Kept(|w.chain|, Heard(v.steps))
    && (forall j :: 0 <= j < |v.steps| ==> !CountOver(w, n, b, own, v.steps[..j]))
    && !GivenUp(v.steps)
    && CountState(n, |w.chain|, b.hash, own, Heard(v.steps), v.tally)
    && CountLedger(w, b, ViewOf(s), Heard(v.steps), v.read, ViewOf(v.scene))
    && GivenUpFor(w, b, Heard(v.steps), false)
  }

  /** The state of a count that has ended. */
  ghost predicate CountDone(w: Setting, n: nat, s: Scene, v: Tallying, c: Count) {
    && CountRight(w, n, s, c) && v.steps == c.steps
    && v.scene == StepsScene(w, s, c.steps) && v.read == Kept(|w.chain|, Heard(c.steps))
    && Voting.Legitimate(n, |w.chain|, c.block.hash, Noted(c).phase)
    && CountLedger(w, c.block, ViewOf(s), Heard(c.steps), v.read, ViewOf(v.scene))
    && GivenUpFor(w, c.block, Heard(c.steps), c.ending == Voting.Superseded)
    && (c.ending == Voting.TimedOut ==> v.scene.box.inbox == [])
  }

  /** A look that finds nothing. */
  ghost predicate MissDone(v: Tallying, v': Tallying) {
    && Found(v.scene.box) == None
    && v' == v.(steps := v.steps + [Miss], tries := v.tries + 1,
                scene := v.scene.(box := Looked(v.scene.box)))
  }

  /** A look that finds a message, and what is done about it. */
  ghost predicate MessageDone(w: Setting, b: Block, v: Tallying, st: Step, v': Tallying)
    requires !st.Miss?
  {
    var taken := v.scene.(box := Looked(v.scene.box));
    && Found(v.scene.box) == Some(st.m) && Dealt(w, b, taken, st, v'.scene)
    && Handling(w, ViewOf(taken), ViewOf(v'.scene)) && Served(w, b, taken.sent, v'.scene.sent, [st.m])
    && (!Timely(w, st.m) ==> StreamOf(v'.scene.box) == StreamOf(taken.box))
    && v'.steps == v.steps + [st] && v'.tries == v.tries
    && v'.tally == Voting.Step(|w.chain|, b.hash, v.tally, st.m)
    && v'.read == v.read + (if Deferrable(|w.chain|, st.m) then [st.m] else [])
  }

  /** What is done about a message that has been taken out. */
  ghost predicate Dealt(w: Setting, b: Block, taken: Scene, st: Step, after: Scene)
    requires !st.Miss?
  {
    && after == React(w, taken, st)
    && (st.Took? ==> !(Timely(w, st.m) && LexLe(st.m.block.hash, b.hash)))
    && (st.Rival? ==> RivalRight(w, b, taken, st))
  }

  lemma DealtRight(w: Setting, b: Block, s: Scene, st: Step, after: Scene)
    requires !st.Miss? && Found(s.box) == Some(st.m) && Dealt(w, b, s.(box := Looked(s.box)), st, after)
    ensures StepRight(w, b, s, st) && after == StepScene(w, s, st)
    ensures st.Rival? && st.count.own <==> Overtakes(w, b, st.m)
    ensures st.Rival? ==> RivalRight(w, b, s.(box := Looked(s.box)), st)
  {
    hide React, CountRight, OnTop, Solution, LexLe, Looked;
  }

  lemma NotOver(w: Setting, n: nat, b: Block, own: bool, s: Scene, v: Tallying)
    requires CountGoesOn(w, n, b, own, s, v) && |v.tally.seen| + 1 < n
    ensures !CountOver(w, n, b, own, v.steps)
  {
    hide Voting.Fold, Voting.Unsettled, StepsRight, StepsScene, CountLedger, GivenUpFor;
  }

  lemma CountGoesOnFirst(w: Setting, n: nat, b: Block, own: bool, s: Scene)
    requires n >= 1
    ensures CountGoesOn(w, n, b, own, s,
              Tallying([], Voting.Tally(if own then 1 else 0, if own then 0 else 1, []), 0, [], s))
  {
    hide CountLedger, CountState;
    CountBegin(n, |w.chain|, b.hash, own);
    CountLedgerBegin(w, b, ViewOf(s));
    NeverGivenUp(w, b);
  }

  lemma PrefixesNotOver(w: Setting, n: nat, b: Block, own: bool, steps: seq<Step>, st: Step)
    requires forall j :: 0 <= j < |steps| ==> !CountOver(w, n, b, own, steps[..j])
    requires !CountOver(w, n, b, own, steps)
    ensures forall j :: 0 <= j < |steps + [st]| ==> !CountOver(w, n, b, own, (steps + [st])[..j])
  {
    hide CountOver;
    forall j | 0 <= j < |steps + [st]| ensures !CountOver(w, n, b, own, (steps + [st])[..j]) {
      assert (steps + [st])[..j] == steps[..j];
      if j == |steps| { assert steps[..j] == steps; }
    }
  }

  lemma CountMissed(w: Setting, n: nat, b: Block, own: bool, s: Scene, v: Tallying, v': Tallying)
    requires CountGoesOn(w, n, b, own, s, v) && |v.tally.seen| + 1 < n && MissDone(v, v')
    ensures v'.tries < 10 * n ==> CountGoesOn(w, n, b, own, s, v')
    ensures v'.tries >= 10 * n ==> CountDone(w, n, s, v', Count(b, own, v'.steps, Voting.TimedOut, false))
  {
    hide StepsRight, StepsScene, CountOver, CountLedger, GivenUpFor, Voting.Fold, Voting.Unsettled, Found, Looked, Kept,
         EndsSo, GivenUp;
    NotOver(w, n, b, own, s, v);
    PrefixesNotOver(w, n, b, own, v.steps, Miss);
    StepsSnoc(w, b, s, v.steps, Miss);
    HeardSnoc(v.steps, Miss);
    LookedStream(v.scene.box);
    assert Heard(v'.steps) == Heard(v.steps);
    CountTimedOut(n, |w.chain|, b.hash, own, Heard(v.steps), v.tally);
    MissOver(w, n, b, own, v.steps);
    assert ViewOf(v'.scene) == ViewOf(v.scene);
  }

  /** A look that finds nothing does not bring the votes any further. */
  lemma MissOver(w: Setting, n: nat, b: Block, own: bool, steps: seq<Step>)
    requires !CountOver(w, n, b, own, steps)
    ensures Missed(steps + [Miss]) >= 10 * n ==>
      && CountOver(w, n, b, own, steps + [Miss])
      && EndsSo(w, n, Count(b, own, steps + [Miss], Voting.TimedOut, false))
    ensures !GivenUp(steps + [Miss])
  {
    hide Voting.Settle;
    HeardSnoc(steps, Miss);
    assert Heard(steps + [Miss]) == Heard(steps);
  }

  /** What holds of a count once a message has been dealt with, whether or not it ends with that. */
  ghost predicate Stands(w: Setting, n: nat, b: Block, own: bool, s: Scene, v: Tallying, superseded: bool) {
    && StepsRight(w, b, s, v.steps) && v.scene == StepsScene(w, s, v.steps)
    && v.tries == Missed(v.steps) < 10 * n && v.read == Kept(|w.chain|, Heard(v.steps))
    && (forall j :: 0 <= j < |v.steps| ==> !CountOver(w, n, b, own, v.steps[..j]))
    && CountLedger(w, b, ViewOf(s), Heard(v.steps), v.read, ViewOf(v.scene))
    && GivenUpFor(w, b, Heard(v.steps), superseded)
  }

  lemma TookStands(w: Setting, n: nat, b: Block, own: bool, s: Scene, v: Tallying, st: Step, v': Tallying)
    requires CountGoesOn(w, n, b, own, s, v) && |v.tally.seen| + 1 < n && !st.Miss? && MessageDone(w, b, v, st, v')
    ensures Stands(w, n, b, own, s, v', st.Rival? && st.count.own)
    ensures Heard(v'.steps) == Heard(v.steps) + [st.m]
  {
    hide StepsRight, StepsScene, StepScene, StepRight, CountOver, CountLedger, GivenUpFor, Voting.Fold,
         Voting.Unsettled, Voting.Step, Found, Looked, Kept, Deferrable, CountState, React, Overtakes, Dealt, Served,
         Handling, Timely;
    var m := st.m;
    var taken := v.scene.(box := Looked(v.scene.box));
    NotOver(w, n, b, own, s, v);
    PrefixesNotOver(w, n, b, own, v.steps, st);
    DealtRight(w, b, v.scene, st, v'.scene);
    StepsSnoc(w, b, s, v.steps, st);
    HeardSnoc(v.steps, st);
    KeptSnoc(|w.chain|, Heard(v.steps), m);
    LookedStream(v.scene.box);
    CountLedgerStep(w, b, ViewOf(s), Heard(v.steps), v.read, ViewOf(v.scene), m, ViewOf(taken), v'.read,
                    ViewOf(v'.scene));
    NotGivenUp(w, b, Heard(v.steps), m, st.Rival? && st.count.own);
  }

  lemma CountTook(w: Setting, n: nat, b: Block, own: bool, s: Scene, v: Tallying, st: Step, v': Tallying)
    requires CountGoesOn(w, n, b, own, s, v) && |v.tally.seen| + 1 < n && !st.Miss? && MessageDone(w, b, v, st, v')
    ensures var t := v'.tally;
      if st.Rival? && st.count.own then
        t == v.tally && CountDone(w, n, s, v', Count(b, own, v'.steps, Voting.Superseded, false))
      else if t.agrees > n / 2 then CountDone(w, n, s, v', Count(b, own, v'.steps, Voting.ByMajority, true))
      else if t.disagrees > n / 2 then CountDone(w, n, s, v', Count(b, own, v'.steps, Voting.ByMajority, false))
      else CountGoesOn(w, n, b, own, s, v')
  {
    hide StepsRight, StepsScene, CountOver, CountLedger, GivenUpFor, Voting.Fold, Voting.Unsettled, Voting.Step, Found,
         Looked, Kept, Deferrable, CountState, React, RivalRight, Served, Handling, Timely, LexLe, StreamOf;
    TookStands(w, n, b, own, s, v, st, v');
    CountStep(n, |w.chain|, b.hash, own, Heard(v.steps), v.tally, st.m, v'.tally);
    if st.Rival? { RivalNoVote(w, b, v.scene.(box := Looked(v.scene.box)), st, v.tally); }
    TookOver(w, n, b, own, v', st);
  }

  lemma RivalNoVote(w: Setting, b: Block, s: Scene, st: Step, t: Voting.Tally)
    requires st.Rival? && RivalRight(w, b, s, st)
    ensures Voting.Step(|w.chain|, b.hash, t, st.m) == t
  {
    hide CountRight;
  }

  /** Whether and how a count ends with a message. */
  lemma TookOver(w: Setting, n: nat, b: Block, own: bool, v: Tallying, st: Step)
    requires v.steps != [] && v.steps[|v.steps| - 1] == st && !st.Miss?
    ensures GivenUp(v.steps) <==> st.Rival? && st.count.own
    ensures GivenUp(v.steps) ==> CountOver(w, n, b, own, v.steps)
    ensures forall a: bool ::
      Voting.Legitimate(n, |w.chain|, b.hash, Voting.Done(own, Heard(v.steps), Voting.ByMajority, a)) ==>
      && CountOver(w, n, b, own, v.steps)
      && (!GivenUp(v.steps) ==> EndsSo(w, n, Count(b, own, v.steps, Voting.ByMajority, a)))
  {
    hide Voting.Settle, Voting.Unsettled, Voting.Fold;
  }

  lemma CountFacts(w: Setting, n: nat, s: Scene, v: Tallying, c: Count)
    requires CountDone(w, n, s, v, c)
    ensures CountRight(w, n, s, c) && v.scene == StepsScene(w, s, c.steps) && v.read == Kept(|w.chain|, Heard(c.steps))
    ensures Voting.Legitimate(n, |w.chain|, c.block.hash, Noted(c).phase)
    ensures CountLedger(w, c.block, ViewOf(s), Heard(c.steps), v.read, ViewOf(v.scene))
    ensures GivenUpFor(w, c.block, Heard(c.steps), c.ending == Voting.Superseded)
    ensures c.ending == Voting.TimedOut ==> v.scene.box.inbox == []
  {}

  /** A message taken out is gone from what may still arrive. */
  lemma StreamShrinks(w: Setting, b: Block, v: Tallying, st: Step, v': Tallying)
    requires !st.Miss? && MessageDone(w, b, v, st, v')
    ensures |StreamOf(v'.scene.box)| < |StreamOf(v.scene.box)|
  {
    hide Dealt, Served, Preserved, PeerSpec.Logged, Found, Looked;
    LookedStream(v.scene.box);
    SizeWithin(StreamOf(v'.scene.box), StreamOf(Looked(v.scene.box)));
  }

  lemma VoteDealt(w: Setting, b: Block, s: Scene, m: Message)
    requires m.Vote?
    ensures Dealt(w, b, s, Took(m), s)
  {
    assert s.sent + [] == s.sent;
  }

  lemma CountSettled(w: Setting, n: nat, b: Block, own: bool, s: Scene, v: Tallying)
    requires CountGoesOn(w, n, b, own, s, v) && |v.tally.seen| + 1 >= n
    ensures var t := v.tally;
      CountDone(w, n, s, v,
                Count(b, own, v.steps, Voting.AllSeen, t.agrees > t.disagrees + n - (|t.seen| + 1)))
  {
    hide StepsRight, StepsScene, CountLedger, GivenUpFor, Voting.Settle, Voting.Unsettled, Voting.Fold, Kept,
         CountState;
    CountAllSeen(n, |w.chain|, b.hash, own, Heard(v.steps), v.tally);
    assert v.steps[..|v.steps|] == v.steps;
  }

  /** What a finished count has done to the mailbox: a count that was given up loses what it handled. */
  ghost predicate CountEffect(w: Setting, b: Block, start: View, phase: Voting.Phase, now: View)
    requires phase.Done?
  {
    && Logged(w, start, now) && start.sent <= now.sent && Served(w, b, start.sent, now.sent, phase.handled)
    && multiset(phase.handled) <= multiset(start.stream) && multiset(now.stream) <= multiset(start.stream)
    && (phase.ending != Voting.Superseded ==> Preserved(w, start, [], now))
    && (phase.ending == Voting.Superseded ==> multiset(phase.handled) + multiset(now.stream) <= multiset(start.stream))
  }

  lemma CountGrows(w: Setting, b: Block, start: View, phase: Voting.Phase, now: View)
    requires phase.Done? && CountEffect(w, b, start, phase, now)
    ensures start.history <= now.history && multiset(now.stream) <= multiset(start.stream)
  {}

  lemma CountPlacedBack(w: Setting, b: Block, start: View, phase: Voting.Phase, read: seq<Message>, now: View,
                        after: View)
    requires phase.Done? && CountLedger(w, b, start, phase.handled, read, now) && after == now.(stream := after.stream)
    requires if phase.ending == Voting.Superseded then after == now
             else multiset(after.stream) == multiset(now.stream) + multiset(read)
    ensures CountEffect(w, b, start, phase, after)
  {
    hide Preserved, Logged, Served, InOrder;
    if phase.ending != Voting.Superseded { PreservedBack(w, start, read, now, after); }
    LoggedAnyway(w, start, now, after);
  }

  lemma LoggedSnoc(w: Setting, start: View, r: Record, now: View, after: View)
    requires Logged(w, start, now) && RecordOk(w, start.stream, r) && r.phase.Done?
    requires after.history == now.history + [r]
    requires after.candidates == now.candidates + (if r.phase.accepted then [r.block] else [])
    ensures Logged(w, start, after)
  {
    hide RecordOk;
    var h, h' := start.history, now.history;
    assert after.history[|h|..] == h'[|h|..] + [r];
    AcceptedSnoc(h'[|h|..], r);
  }

  lemma PreservedRecord(w: Setting, start: View, r: Record, now: View, after: View)
    requires start.history <= now.history && r.phase.Done?
    requires r.phase.ending != Voting.Superseded ==> Preserved(w, start, [], now)
    requires after.stream == now.stream && after.history == now.history + [r]
    ensures Preserved(w, start, [], after)
  {
    hide Deferrable;
    var h, h', h2 := start.history, now.history, after.history;
    if NoneSuperseded(h, h2) {
      assert h2[|h'|] == r;
      forall k | |h| <= k < |h'| ensures h2[k] == h'[k] {}
      assert NoneSuperseded(h, h');
    }
  }

  /** Logging a finished count, with its block as a candidate if it was accepted. */
  lemma CountLogged(w: Setting, start: View, r: Record, now: View, after: View)
    requires r.phase.Done? && CountEffect(w, r.block, start, r.phase, now)
    requires Voting.Legitimate(w.others + 1, |w.chain|, r.block.hash, r.phase) && (r.phase.own ==> OnTop(w, r.block))
    requires after.stream == now.stream && after.sent == now.sent && after.history == now.history + [r]
    requires after.candidates == now.candidates + (if r.phase.accepted then [r.block] else [])
    ensures Handling(w, start, after)
  {
    hide Voting.Legitimate, OnTop, Served, Preserved, Logged;
    HistoryGrows(w, start, now);
    LoggedSnoc(w, start, r, now, after);
    PreservedRecord(w, start, r, now, after);
  }

  lemma HistoryGrows(w: Setting, start: View, now: View)
    requires Logged(w, start, now)
    ensures start.history <= now.history && start.candidates <= now.candidates
  {}

  // --------------------------------------------------------------- proposals

  lemma LastIsJudged(h0: seq<Record>, h: seq<Record>, h': seq<Record>, b: Block, own: bool, accepted: bool)
    requires |h| > |h0| && LastRecord(h, b, own, accepted) && h <= h'
    ensures Judged(h0, h', b, own)
  {
    assert h'[|h| - 1] == h[|h| - 1];
  }

  lemma AnsweredStill(w: Setting, request: Message, start: View, mid: View, now: View)
    requires request.AddRequest? && mid.history <= now.history && start.sent <= mid.sent <= now.sent
    requires request.index <= |w.chain| ==> JudgedRight(w, start, mid, request)
    ensures Answered(w, request, start, now)
  {
    hide JudgedRight;
    if request.index <= |w.chain| { JudgedStill(w, start, mid, now, request); }
  }

  lemma SubmittedSo(w: Setting, b: Block, pow: ByteString, start: View, mid: View, now: View, accepted: bool)
    requires mid.history <= now.history && mid.sent <= now.sent && |mid.history| > |start.history|
    requires Proposed(w, b, pow, start.sent, mid.sent, accepted) && LastRecord(mid.history, b, true, accepted)
    ensures Submitted(w, b, pow, start, now)
  {
    hide Solution;
    var k := |mid.history| - 1;
    assert now.history[k] == mid.history[k];
    SentNow(start.sent, start.sent, Broadcast(AddRequest(w.own, |w.chain|, pow, b)), now.sent);
    assert now.sent[|mid.sent| - 1] == Broadcast(Vote(w.own, |w.chain|, accepted, b.hash));
    assert SubmittedAs(w, b, now.history[k], start.sent, now.sent);
  }

  lemma SubmittedWider(w: Setting, b: Block, pow: ByteString, start: View, mid: View, now: View)
    requires start.sent <= mid.sent && start.history == mid.history && Submitted(w, b, pow, mid, now)
    ensures Submitted(w, b, pow, start, now)
  {
    hide Solution;
    var k :| |mid.history| <= k < |now.history| && SubmittedAs(w, b, now.history[k], mid.sent, now.sent);
    assert SubmittedAs(w, b, now.history[k], start.sent, now.sent);
  }

  lemma LoggedGained(w: Setting, start: View, now: View)
    requires Logged(w, start, now)
    ensures Gained(w, start, now)
  {
    hide RightCount, Accepted;
    forall k | |start.history| <= k < |now.history| ensures RightCount(w, now.history[k]) {
      assert RecordOk(w, start.stream, now.history[k]);
    }
  }

  lemma GainedTrans(w: Setting, start: View, mid: View, now: View)
    requires Gained(w, start, mid) && Gained(w, mid, now)
    ensures Gained(w, start, now)
  {
    hide RightCount, Accepted;
    var h, h1, h2 := start.history, mid.history, now.history;
    assert h2[|h|..] == h1[|h|..] + h2[|h1|..];
    AcceptedConcat(h1[|h|..], h2[|h1|..]);
    forall k | |h| <= k < |h2| ensures RightCount(w, h2[k]) {
      if k < |h1| { assert h2[k] == h1[k]; }
    }
  }

  /** The selection of a candidate from a log kept since the start. */
  lemma AppendedSo(w: Setting, best: Option<Block>, chosen: nat, considered: seq<Block>, start: View, now: View,
                   chain: seq<Block>)
    requires w.chain != [] && Gained(w, start, now.(candidates := considered))
    requires now.candidates == [] && chain == Extended(w, best) && (best == None <==> considered == [])
    requires best.Some? ==> LastLeast(considered, chosen) && considered[chosen] == best.value
    ensures Appended(w, best, chosen, considered, start, now, chain)
  {
    hide OnTop, LastLeast, Extended, Accepted, Judged;
    EndorsedAppendedAsIs(w, best, start, now.(candidates := considered));
  }

  /** The same for a log that began earlier. */
  lemma GrownAfter(w: Setting, start: View, mid: View, best: Option<Block>, chosen: nat, considered: seq<Block>,
                   now: View, chain: seq<Block>)
    requires w.chain != [] && Gained(w, start, mid) && Gained(w, mid, now.(candidates := considered))
    requires Appended(w, best, chosen, considered, mid, now, chain)
    ensures Appended(w, best, chosen, considered, start, now, chain)
  {
    hide OnTop, LastLeast, Extended, Accepted, AsVotedOn, Gained;
    GainedTrans(w, start, mid, now.(candidates := considered));
    AppendedSo(w, best, chosen, considered, start, now, chain);
  }

  lemma GainedAnyway(w: Setting, start: View, synced: View, now: View)
    requires Gained(w, synced, now) && start.history == synced.history && start.candidates == synced.candidates
    ensures Gained(w, start, now)
  {}

  lemma GainedNothing(w: Setting, start: View, now: View)
    requires start.history == now.history && start.candidates == now.candidates
    ensures Gained(w, start, now)
  {
    assert now.history[|now.history|..] == [];
  }

  /** Synchronisation changes neither candidates nor counts. */
  lemma AppendedWider(w: Setting, best: Option<Block>, chosen: nat, considered: seq<Block>, start: View, synced: View,
                      now: View, chain: seq<Block>)
    requires w.chain != [] && Appended(w, best, chosen, considered, synced, now, chain)
    requires start.history == synced.history && start.candidates == synced.candidates
    ensures Appended(w, best, chosen, considered, start, now, chain)
  {
    hide LastLeast, Extended, Accepted;
  }

  lemma AppendedGrows(w: Setting, best: Option<Block>, chosen: nat, considered: seq<Block>, start: View, now: View,
                      chain: seq<Block>)
    requires w.chain != [] && Appended(w, best, chosen, considered, start, now, chain)
    ensures w.chain <= chain
  {
    hide ChosenFrom, AsVotedOn;
  }

  /** When the candidate chosen is our own, its data is that of the new last block. */
  lemma OwnBecomesBlock(w: Setting, best: Option<Block>, chosen: nat, considered: seq<Block>, start: View, now: View,
                        chain: seq<Block>, data: ByteString)
    requires w.chain != [] && Appended(w, best, chosen, considered, start, now, chain) && best.Some?
    requires OwnAmong(Some(chosen), Next(w.sha, w.chain, data), considered)
    ensures |chain| > |w.chain| && chain[|chain| - 1].data == data
  {
    hide LexLe, Accepted, AsVotedOn;
  }

  /** The same in terms of the deed: the transaction done with has become the last block. */
  lemma OwnIsLastBlock(w: Setting, d: Deed, done: bool, considered: seq<Block>, start: View, now: View,
                       chain: seq<Block>, data: ByteString)
    requires d.Propose? && OwnChosen(done, d) && w.chain != []
    requires Appended(w, d.choice.best, d.choice.chosen, considered, start, now, chain)
    requires OwnAmong(OwnPlace(d.mid, d.own), Next(w.sha, w.chain, data), considered)
    ensures |chain| > |w.chain| && chain[|chain| - 1].data == data
  {
    hide Appended, OwnAmong, Next, OwnPlace;
    OwnBecomesBlock(w, d.choice.best, d.choice.chosen, considered, start, now, chain, data);
  }

  lemma OwnChosenDone(done: bool, d: Deed)
    requires d.Propose? && OwnChosen(done, d)
    ensures done
  {}

  lemma AloneProposes(w: Setting, s: Scene, pending: seq<ByteString>, d: Deed, maxRounds: nat, done: bool,
                      chain: seq<Block>, after: Scene, pending': seq<ByteString>)
    requires w.chain != [] && pending != [] && d.Propose?
    requires ProposeDone(w, s, pending[0], d, maxRounds, done, chain, after)
    requires pending' == if OwnChosen(done, d) then pending[1..] else pending
    ensures AloneDone(w, s, pending, d, maxRounds, done, chain, after, pending')
  {
    hide ProposeDone, OwnChosen;
  }

  lemma AnsweredAnyway(w: Setting, request: Message, start: View, taken: View, now: View)
    requires request.AddRequest? && Answered(w, request, taken, now)
    requires taken.sent == start.sent && taken.history == start.history
    ensures Answered(w, request, start, now)
  {
    hide SentSince, Judged, Endorses;
  }

  // ------------------------------------------------------------ parts of a turn

  lemma SyncIsDone(w: Setting, s: Scene, looks: seq<nat>, maxRounds: nat, p: Course, after: Scene)
    requires w.chain != [] && SyncedBy(w, s.box, looks, p)
    requires |p.heard| <= maxRounds && (p.done || |p.heard| == maxRounds)
    requires after == s.(box := p.box, sent := s.sent + p.sent)
    ensures SyncDone(w, s, looks, maxRounds, p.done, p.chain, after)
    ensures after == Afterwards(w, s, looks) && Synced(w, s.box, looks).chain == p.chain
  {
    hide Synced, RightRounds;
  }

  /** A request that comes too early changes nothing but the mailbox. */
  lemma EarlyRequest(w: Setting, s: Scene, m: Message, allow: bool, count: Option<Count>, after: Scene)
    requires m.AddRequest? && RequestDone(w, s, m, allow, count, after) && m.index > |w.chain|
    ensures after == s.(box := after.box)
  {}

  lemma RequestServed(w: Setting, s: Scene, m: Message, count: Option<Count>, after: Scene)
    requires Found(s.box) == Some(m) && Timely(w, m)
    requires RequestDone(w, s.(box := Looked(s.box)), m, true, count, after)
    ensures count.Some? && ServedRight(w, s, Treated(m, count)) && after == ServedScene(w, s, Treated(m, count))
  {
    hide Found, Looked, CountRight, CountScene, Endorses;
  }

  lemma MessageLeft(w: Setting, s: Scene, m: Message)
    requires Found(s.box) == Some(m) && !Timely(w, m)
    ensures ServedRight(w, s, Treated(m, None)) && ServedScene(w, s, Treated(m, None)) == s.(box := Looked(s.box))
  {}

  lemma OwnIsLastGained(w: Setting, s: Scene, data: ByteString, pow: ByteString, c: Count, mid: Scene)
    requires w.chain != [] && ProposalDone(w, s, data, pow, c, mid) && Gained(w, ViewOf(s), ViewOf(mid))
    requires |mid.history| > |s.history|
    ensures OwnGained(s, mid, c)
  {
    hide FirstKey, CountRight, Checked, RightCount;
    AcceptedIsLast(w, s, data, pow, c, mid);
  }

  lemma OwnGainedAnyway(s: Scene, synced: Scene, mid: Scene, c: Count)
    requires OwnGained(synced, mid, c) && s.history == synced.history && s.candidates == synced.candidates
    ensures OwnGained(s, mid, c)
  {}

  lemma AcceptedIsLast(w: Setting, s: Scene, data: ByteString, pow: ByteString, c: Count, mid: Scene)
    requires w.chain != [] && ProposalDone(w, s, data, pow, c, mid)
    ensures c.accepted ==> mid.candidates != [] && mid.candidates[|mid.candidates| - 1] == Next(w.sha, w.chain, data)
  {
    hide FirstKey, CountRight, Checked;
  }

  // ------------------------------------------------------------------ runs of turns

  /** The log of the turns taken so far, from one moment to another. */
  ghost predicate RunSoFar(w: Setting, refreshes: seq<bool>, maxRounds: nat, start: Moment, log: seq<Moment>,
                           deeds: seq<Deed>, done: bool, now: Moment) {
    && |deeds| <= |refreshes| && RunDone(w, refreshes[..|deeds|], maxRounds, log, deeds, done)
    && Turns(Standings(log)) && log[0] == start && log[|log| - 1] == now
  }

  lemma RunBegins(w: Setting, refreshes: seq<bool>, maxRounds: nat, a: Moment)
    ensures RunSoFar(w, refreshes, maxRounds, a, [a], [], true, a)
  {
    hide TurnDone, TurnTaken;
  }

  lemma RunStep(w: Setting, refreshes: seq<bool>, maxRounds: nat, start: Moment, log: seq<Moment>, deeds: seq<Deed>,
                a: Moment, deed: Deed, done: bool, b: Moment)
    requires |deeds| < |refreshes| && RunSoFar(w, refreshes, maxRounds, start, log, deeds, true, a)
    requires a.standing.chain != []
    requires TurnDone(w.(chain := a.standing.chain), a, refreshes[|deeds|], maxRounds, deed, done, b)
    requires TurnTaken(a.standing, b.standing)
    ensures RunSoFar(w, refreshes, maxRounds, start, log + [b], deeds + [deed], done, b)
  {
    hide TurnDone, TurnTaken;
    var i := |deeds|;
    var rs, log', deeds' := refreshes[..i + 1], log + [b], deeds + [deed];
    assert rs[..i] == refreshes[..i];
    forall j: nat | j < |deeds'| ensures TurnLogged(w, rs, maxRounds, log', deeds', done, j) {
      if j < i { assert TurnLogged(w, refreshes[..i], maxRounds, log, deeds, true, j); }
    }
    TurnsSnoc(Standings(log), b.standing);
    assert Standings(log') == Standings(log) + [b.standing];
  }

  lemma RunFacts(w: Setting, refreshes: seq<bool>, maxRounds: nat, start: Moment, log: seq<Moment>, deeds: seq<Deed>,
                 done: bool, now: Moment)
    requires RunSoFar(w, refreshes, maxRounds, start, log, deeds, done, now)
    requires done ==> |deeds| == |refreshes|
    ensures RunDone(w, refreshes, maxRounds, log, deeds, done) && Turns(Standings(log))
    ensures log != [] && log[0] == start && log[|log| - 1] == now
    ensures start.standing.chain <= now.standing.chain
    ensures multiset(start.standing.pending) <=
      multiset(now.standing.pending) + multiset(Datas(now.standing.chain)[|start.standing.chain|..])
  {
    hide TurnDone, TurnTaken, Datas;
    forall j: nat | j < |deeds| ensures TurnLogged(w, refreshes, maxRounds, log, deeds, done, j) {
      assert TurnLogged(w, refreshes[..|deeds|], maxRounds, log, deeds, done, j);
    }
    TurnsConserve(Standings(log));
  }

  lemma ProposalOnTop(w: Setting, data: ByteString)
    requires w.chain != []
    ensures OnTop(w, Next(w.sha, w.chain, data))
  {}

  lemma ChainNotEmpty(sha: Digest, size: nat, chain: seq<Block>)
    requires Linked(sha, size, chain)
    ensures chain != []
  {}

  // ------------------------------------------------- what giving up a block loses

  lemma NotVotedYet(n: nat, index: nat, hash: ByteString, p: Voting.Phase)
    requires Voting.Legitimate(n, index, hash, p) && n >= 2
    requires forall m :: m in p.handled ==> !Voting.IsVoteFor(index, hash, m)
    ensures p.ending == Voting.TimedOut || p.ending == Voting.Superseded
  {
    hide Voting.Unsettled, Voting.IsVoteFor;
    Voting.NothingCounted(index, hash, p.own, p.handled);
  }

  /** With an early vote and then an endorsed rival in the mailbox, the count is given up after handling both. */
  lemma RivalGivesUp(w: Setting, b: Block, n: nat, early: Message, rival: Message, p: Voting.Phase)
    requires p.Done? && Voting.Legitimate(n, |w.chain|, b.hash, p) && n >= 2
    requires early.Vote? && early.index > |w.chain| && Overtakes(w, b, rival)
    requires GivenUpFor(w, b, p.handled, p.ending == Voting.Superseded)
    requires CountedInOrder(w, [early, rival], p, true)
    ensures p.ending == Voting.Superseded && p.handled == [early, rival] && !p.accepted
  {
    hide Voting.Legitimate, Voting.IsVoteFor, OnTop, Solution, LexLe;
    var s, all := p.handled, [early, rival];
    var rest :| InOrder(w, all, s, rest) && (p.ending == Voting.TimedOut ==> rest == []);
    if |s| >= 1 {
      assert s[..0] == [] && NoneTimely(w, s[..0]);
      assert (s[..0] + [s[0]])[0] == all[0];
    }
    if |s| >= 2 {
      assert s[..1] == [early] && NoneTimely(w, s[..1]);
      assert (s[..1] + [s[1]])[1] == all[1];
    }
    assert |s| <= 2;
    forall m | m in s ensures !Voting.IsVoteFor(|w.chain|, b.hash, m) { OtherThanVote(|w.chain|, b.hash, m); }
    if |s| <= 1 { assert NoneTimely(w, s) && s + rest == all && rest != []; }
    assert p.ending == Voting.Superseded ==> s[|s| - 1].AddRequest?;
    NotVotedYet(n, |w.chain|, b.hash, p);
    Rejected(n, |w.chain|, b.hash, p);
  }

  lemma OtherThanVote(index: nat, hash: ByteString, m: Message)
    requires m.Vote? ==> m.index != index
    ensures !Voting.IsVoteFor(index, hash, m)
  {}

  lemma Rejected(n: nat, index: nat, hash: ByteString, p: Voting.Phase)
    requires Voting.Legitimate(n, index, hash, p) && (p.ending == Voting.Superseded || p.ending == Voting.TimedOut)
    ensures !p.accepted
  {}

  lemma LostAll(stream: seq<Message>, handled: seq<Message>, rest: seq<Message>)
    requires handled == stream && multiset(handled) + multiset(rest) <= multiset(stream)
    ensures |rest| == 0
  {
    var h, r := multiset(handled), multiset(rest);
    assert h == multiset(stream);
    MultisetSize(h + r, h);
    assert |h + r| == |h| + |r| && |r| == |rest|;
  }

  /** When every digest is one zero byte, any key solves a puzzle of up to eight bits. */
  lemma ZeroKeySolves(w: Setting, b: Block, key: ByteString)
    requires (forall x :: w.sha(x) == [0]) && w.difficulty <= 8
    ensures Solution(w.sha, w.difficulty, Seed(w.sha, b), key)
  {
    hide Gf2.Add, Gf2.TestBit;
    var s := XorStrings(w.sha(Seed(w.sha, b) + key), Seed(w.sha, b));
    Gf2.AddZero(0);
    assert s == [0];
    forall j: nat | j < AtLeastOne(w.difficulty) ensures !BitAt(s, j) { NoBits(7 - j % 8); }
  }

  lemma {:induction false} NoBits(k: nat)
    ensures !Gf2.TestBit(0, k)
  {
    if k > 0 { NoBits(k - 1); }
  }

  // --------------------------------------------------- rounds of synchronisation

  /** The state of the loop of a round, before the majority test on it. */
  ghost predicate RoundState(w: Setting, sent0: seq<Outgoing>, s: seq<Message>, t: Sync.Tally, read: seq<Message>,
                             sent: seq<Outgoing>)
    requires w.chain != []
  {
    && t == Sync.Fold(w.sha, TopHash(w.chain), |w.chain|, s)
    && read == Sync.DeferredOf(|w.chain|, s)
    && sent == sent0 + Answers(w, s)
    && Sync.RoundResult(w.sha, w.others, w.chain, s, None)
  }

  lemma RoundBegin(w: Setting, sent0: seq<Outgoing>)
    requires w.chain != [] && w.others > 0
    ensures RoundState(w, sent0, [], Sync.START, [], sent0)
  {}

  lemma RoundEnd(w: Setting, sent0: seq<Outgoing>, s: seq<Message>, t: Sync.Tally, read: seq<Message>,
                 sent: seq<Outgoing>)
    requires w.chain != [] && RoundState(w, sent0, s, t, read, sent)
    ensures Sync.RoundResult(w.sha, w.others, w.chain, s, None)
    ensures read == Sync.DeferredOf(|w.chain|, s) && sent == sent0 + Answers(w, s)
  {}

  /** One more message: the state goes on, or the round reports. */
  lemma RoundStep(w: Setting, sent0: seq<Outgoing>, s: seq<Message>, t: Sync.Tally, read: seq<Message>,
                  sent: seq<Outgoing>,
                  m: Message, t': Sync.Tally, read': seq<Message>, sent': seq<Outgoing>, r: Option<Option<Block>>)
    requires w.chain != [] && w.others > 0 && |t'.seen| <= w.others
    requires RoundState(w, sent0, s, t, read, sent)
    requires t' == Sync.Step(w.sha, TopHash(w.chain), |w.chain|, t, m)
    requires read' == read + (if Sync.IsDeferred(|w.chain|, m) then [m] else [])
    requires sent' ==
      sent + (if m.RequestBlock? && m.index < |w.chain| then [Respond(m.from, Answer(w, m.index))] else [])
    requires r == Verdict(|t'.seen|, w.others, t'.noBlock, t'.entries)
    ensures Sync.RoundResult(w.sha, w.others, w.chain, s + [m], r)
    ensures r == None ==> RoundState(w, sent0, s + [m], t', read', sent')
    ensures read' == Sync.DeferredOf(|w.chain|, s + [m]) && sent' == sent0 + Answers(w, s + [m])
  {
    hide Sync.Fold, Sync.Step, Sync.DeferredOf, Sync.IsDeferred, Sync.Outcome, Answers, Verdict, Answer;
    Sync.FoldSnoc(w.sha, TopHash(w.chain), |w.chain|, s, m);
    Sync.DeferredSnoc(|w.chain|, s, m);
    AnswersSnoc(w, s, m);
    Sync.OutcomeOf(w.sha, w.others, w.chain, s + [m], t');
    forall j | 0 <= j <= |s| ensures Sync.Outcome(w.sha, w.others, w.chain, (s + [m])[..j]) == None {
      assert (s + [m])[..j] == s[..j];
      if j == |s| { assert s[..j] == s; }
    }
  }

  /** The variables of the loop of a round. */
  datatype Gathered = Gathered(handled: seq<Message>, tally: Sync.Tally, read: seq<Message>, sent: seq<Outgoing>,
                               tries: nat, box: Box)

  /** The state of a round after k looks at the mailbox, none of which has ended it. */
  ghost predicate Gathering(w: Setting, b: Box, sent0: seq<Outgoing>, k: nat, g: Gathered)
    requires w.chain != []
  {
    && g.handled == Taken(b, k) && g.box == After(b, k) && g.tries == Misses(b, k) < 10
    && (forall j: nat :: j < k ==> !Over(w, b, j))
    && RoundState(w, sent0, g.handled, g.tally, g.read, g.sent)
  }

  /** The state of a round that has ended after k looks, with what it reports. */
  ghost predicate RoundDone(w: Setting, b: Box, sent0: seq<Outgoing>, k: nat, g: Gathered, r: Option<Option<Block>>)
    requires w.chain != []
  {
    && g.handled == Taken(b, k) && g.box == After(b, k) && Lasts(w, b, k)
    && Sync.RoundResult(w.sha, w.others, w.chain, g.handled, r)
    && g.read == Sync.DeferredOf(|w.chain|, g.handled) && g.sent == sent0 + Answers(w, g.handled)
  }

  /** What one look does. */
  ghost predicate LookDone(w: Setting, g: Gathered, g': Gathered)
    requires w.chain != []
  {
    && g'.box == Looked(g.box)
    && match Found(g.box)
       case None => g' == g.(box := g'.box, tries := g.tries + 1)
       case Some(m) =>
         && g'.handled == g.handled + [m] && g'.tries == g.tries
         && g'.tally == Sync.Step(w.sha, TopHash(w.chain), |w.chain|, g.tally, m)
         && g'.read == g.read + (if Sync.IsDeferred(|w.chain|, m) then [m] else [])
         && g'.sent == g.sent +
              (if m.RequestBlock? && m.index < |w.chain| then [Respond(m.from, Answer(w, m.index))] else [])
  }

  lemma GatheringBegins(w: Setting, b: Box, sent0: seq<Outgoing>)
    requires w.chain != [] && w.others > 0
    ensures Gathering(w, b, sent0, 0, Gathered([], Sync.START, [], sent0, 0, b))
  {
    RoundBegin(w, sent0);
  }

  /** One look more: the round is over now, or goes on. */
  lemma GatheringStep(w: Setting, b: Box, sent0: seq<Outgoing>, k: nat, g: Gathered, g': Gathered,
                      r: Option<Option<Block>>)
    requires w.chain != [] && w.others > 0 && Gathering(w, b, sent0, k, g) && |g.tally.seen| < w.others
    requires LookDone(w, g, g') && |g'.tally.seen| <= w.others
    requires r == if Found(g.box) == None then None
                  else Verdict(|g'.tally.seen|, w.others, g'.tally.noBlock, g'.tally.entries)
    ensures r == None && g'.tries < 10 ==> Gathering(w, b, sent0, k + 1, g')
    ensures r.Some? || g'.tries >= 10 ==> RoundDone(w, b, sent0, k + 1, g', r)
  {
    hide Sync.Fold, Sync.Step, Sync.DeferredOf, Sync.IsDeferred, Sync.Outcome, Answers, Verdict, Answer, Found, Looked,
         RoundState;
    RoundSoFar(w, sent0, g.handled, g.tally, g.read, g.sent);
    match Found(g.box)
    case None =>
      RoundEnd(w, sent0, g.handled, g.tally, g.read, g.sent);
    case Some(m) =>
      RoundStep(w, sent0, g.handled, g.tally, g.read, g.sent, m, g'.tally, g'.read, g'.sent, r);
      RoundReported(w, g'.handled, r);
  }

  lemma GatheringEnds(w: Setting, b: Box, sent0: seq<Outgoing>, k: nat, g: Gathered)
    requires w.chain != [] && Gathering(w, b, sent0, k, g) && |g.tally.seen| >= w.others
    ensures RoundDone(w, b, sent0, k, g, None)
  {
    RoundSoFar(w, sent0, g.handled, g.tally, g.read, g.sent);
    RoundEnd(w, sent0, g.handled, g.tally, g.read, g.sent);
  }

  lemma RoundFacts(w: Setting, b: Box, sent0: seq<Outgoing>, k: nat, g: Gathered, r: Option<Option<Block>>)
    requires w.chain != [] && RoundDone(w, b, sent0, k, g, r)
    ensures g.handled == Taken(b, k) && g.box == After(b, k) && Lasts(w, b, k)
    ensures g.handled + StreamOf(g.box) == StreamOf(b)
    ensures Sync.RoundResult(w.sha, w.others, w.chain, g.handled, r)
    ensures g.read == Sync.DeferredOf(|w.chain|, g.handled) && g.sent == sent0 + Answers(w, g.handled)
  {
    TakenThenRest(b, k);
  }

  /** With nobody else to ask there is no look. */
  lemma NoLooks(w: Setting, b: Box)
    requires w.chain != []
    ensures w.others == 0 ==> Lasts(w, b, 0) && RoundBox(w, b, 0) == b
    ensures Taken(b, 0) == []
  {}

  lemma RoundSoFar(w: Setting, sent0: seq<Outgoing>, s: seq<Message>, t: Sync.Tally, read: seq<Message>,
                   sent: seq<Outgoing>)
    requires w.chain != [] && RoundState(w, sent0, s, t, read, sent)
    ensures t == Tallied(w, s) && Reported(w, s) == None
  {}

  lemma RoundReported(w: Setting, s: seq<Message>, r: Option<Option<Block>>)
    requires w.chain != [] && Sync.RoundResult(w.sha, w.others, w.chain, s, r)
    ensures Reported(w, s) == r
  {}

  lemma TakenOut(stream: seq<Message>, handled: seq<Message>, rest: seq<Message>)
    requires handled + rest == stream
    ensures handled <= stream && stream[|handled|..] == rest
  {}

  /** With nobody else to ask, a round handles nothing and reports the end. */
  lemma EmptyRound(w: Setting, stream: seq<Message>)
    requires w.chain != [] && w.others == 0
    ensures Sync.RoundResult(w.sha, w.others, w.chain, [], Some(None))
    ensures multiset(Sync.DeferredOf(|w.chain|, [])) == multiset{} && Answers(w, []) == []
    ensures stream[0..] == stream
  {}

  /** A round takes messages out and puts some of them back. */
  lemma RoundShrinks(size: nat, before: seq<Message>, handled: seq<Message>, after: seq<Message>)
    requires handled <= before
    requires multiset(after) == multiset(before[|handled|..]) + multiset(Sync.DeferredOf(size, handled))
    ensures multiset(after) <= multiset(before)
  {
    DeferredWithin(size, handled);
    assert before == handled + before[|handled|..];
  }

  lemma {:induction false} DeferredWithin(size: nat, s: seq<Message>)
    ensures multiset(Sync.DeferredOf(size, s)) <= multiset(s)
  {
    if s != [] {
      DeferredWithin(size, s[..|s| - 1]);
      assert s == s[..|s| - 1] + [s[|s| - 1]];
    }
  }

  lemma ReportedSized(w: Setting, handled: seq<Message>, before: seq<Message>, b: Block, size: nat)
    requires w.chain != [] && Sync.Outcome(w.sha, w.others, w.chain, handled) == Some(Some(b))
    requires handled <= before && Sized(size, before)
    ensures |b.data| == size
  {
    hide Sync.Outcome;
    Sync.OutcomeWasReplied(w.sha, w.others, w.chain, handled);
    var m :| m in handled && m.BlockReply? && m.block == b;
    assert m in before;
  }

  lemma SynchronisedBegin(w: Setting, stream: seq<Message>)
    requires w.chain != []
    ensures Synchronised(w, [], stream, Sync.Progress(w.chain, false))
  {}

  lemma SynchronisedStep(w: Setting, rounds: seq<seq<Message>>, stream: seq<Message>, chain: seq<Block>,
                         before: seq<Message>, handled: seq<Message>, p: Sync.Progress)
    requires w.chain != [] && chain != [] && Synchronised(w, rounds, stream, Sync.Progress(chain, false))
    requires handled <= before && multiset(before) <= multiset(stream)
    requires var r := Sync.Outcome(w.sha, w.others, chain, handled);
      Sync.RoundResult(w.sha, w.others, chain, handled, r) && p == Sync.After(w.sha, chain, r)
    ensures Synchronised(w, rounds + [handled], stream, p)
  {
    hide Sync.Run, Sync.Made, Sync.Outcome, Sync.After, Sync.RoundResult;
    forall m | m in handled ensures m in stream {
      assert m in before;
      assert m in multiset(before) && m in multiset(stream);
    }
    Sync.RunSnoc(w.sha, w.others, w.chain, rounds, handled);
  }
}
