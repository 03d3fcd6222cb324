/**
  Counts of votes, as they follow from the mailbox: every look at it, every message and what is
  done about it, the counts on rival blocks in between, and when the count ends.
 */
module Counts {
  import opened Words
  import opened Chain
  import opened Messages
  import opened Mailbox
  import opened Selection
  import opened PeerSpec
  import Voting

  /** What a look brings: nothing, a message that is dealt with at once, or a rival block with a count of its own. */
  datatype Step = Miss | Took(m: Message) | Rival(m: Message, count: Count)

  /** A count on a block, with our own vote. */
  datatype Count = Count(block: Block, own: bool, steps: seq<Step>, ending: Voting.Ending, accepted: bool)

  /** Everything about a peer that handling messages can change. */
  datatype Scene = Scene(box: Box, candidates: seq<Block>, history: seq<Record>, sent: seq<Outgoing>)

  function Heard(steps: seq<Step>): seq<Message> {
    if steps == [] then []
    else
      Heard(steps[..|steps| - 1]) +
      match steps[|steps| - 1]
      case Miss => []
      case Took(m) => [m]
      case Rival(m, _) => [m]
  }

  /** How many looks found nothing. */
  function Missed(steps: seq<Step>): nat {
    if steps == [] then 0
    else Missed(steps[..|steps| - 1]) + (if steps[|steps| - 1].Miss? then 1 else 0)
  }

  /** The messages that are put back in the end. */
  function Kept(size: nat, s: seq<Message>): seq<Message> {
    if s == [] then []
    else Kept(size, s[..|s| - 1]) + (if Deferrable(size, s[|s| - 1]) then [s[|s| - 1]] else [])
  }

  lemma KeptSnoc(size: nat, s: seq<Message>, m: Message)
    ensures Kept(size, s + [m]) == Kept(size, s) + (if Deferrable(size, m) then [m] else [])
  {
    assert (s + [m])[..|s|] == s;
  }

  /** The count as it is logged. */
  function Noted(c: Count): Record {
    Record(c.block, Voting.Done(c.own, Heard(c.steps), c.ending, c.accepted))
  }

  // ------------------------------------------------------------- what is done

  /** What is sent about a message that is dealt with at once; a rival that comes too late is voted against. */
  function Reply(w: Setting, m: Message): seq<Outgoing> {
    if m.RequestBlock? && m.index <= |w.chain| then [Respond(m.from, Answer(w, m.index))]
    else if Timely(w, m) then [Ballot(w, m, false)]
    else []
  }

  /** After the look: what the step does. */
  function React(w: Setting, s: Scene, st: Step): Scene
    decreases st, 0
  {
    match st
    case Miss => s
    case Took(m) => s.(sent := s.sent + Reply(w, m))
    case Rival(m, c) =>
      if m.AddRequest? then CountScene(w, s.(sent := s.sent + [Ballot(w, m, c.own)]), c) else s
  }

  function StepScene(w: Setting, s: Scene, st: Step): Scene
    decreases st, 1
  {
    React(w, s.(box := Looked(s.box)), st)
  }

  function StepsScene(w: Setting, s: Scene, steps: seq<Step>): Scene
    decreases steps
  {
    if steps == [] then s else StepScene(w, StepsScene(w, s, steps[..|steps| - 1]), steps[|steps| - 1])
  }

  /** The end of the loop: messages go back, unless the block was given up for a rival. */
  function Checked(w: Setting, s: Scene, c: Count): Scene
    decreases c, 0
  {
    var e := StepsScene(w, s, c.steps);
    if c.ending == Voting.Superseded then e else e.(box := Back(e.box, Kept(|w.chain|, Heard(c.steps))))
  }

  /** The whole count: it is logged, and an accepted block becomes a candidate. */
  function CountScene(w: Setting, s: Scene, c: Count): Scene
    decreases c, 1
  {
    var e := Checked(w, s, c);
    e.(history := e.history + [Noted(c)], candidates := e.candidates + (if c.accepted then [c.block] else []))
  }

  // -------------------------------------------------------------- what is right

  /** The last message was a rival that we endorse. */
  predicate GivenUp(steps: seq<Step>) {
    steps != [] && var last := steps[|steps| - 1]; last.Rival? && last.count.own
  }

  /** Where the votes handled so far leave the count, among n voters. */
  function ByVotes(w: Setting, n: nat, b: Block, own: bool, steps: seq<Step>): Voting.Phase {
    Voting.Settle(n, |w.chain|, b.hash, own, Heard(steps))
  }

  /** The count is over: given up, settled by the votes, or after ten looks for each voter that found nothing. */
  predicate CountOver(w: Setting, n: nat, b: Block, own: bool, steps: seq<Step>) {
    GivenUp(steps) || ByVotes(w, n, b, own, steps).Done? || Missed(steps) >= 10 * n
  }

  ghost predicate StepRight(w: Setting, b: Block, s: Scene, st: Step)
    decreases st, 1
  {
    match st
    case Miss => Found(s.box) == None
    case Took(m) => Found(s.box) == Some(m) && !(Timely(w, m) && LexLe(m.block.hash, b.hash))
    case Rival(m, _) => Found(s.box) == Some(m) && RivalRight(w, b, s.(box := Looked(s.box)), st)
  }

  /** The rival is voted on as it deserves, and its votes are counted. */
  ghost predicate RivalRight(w: Setting, b: Block, s: Scene, st: Step)
    requires st.Rival?
    decreases st, 0
  {
    var m, c := st.m, st.count;
    && Timely(w, m) && LexLe(m.block.hash, b.hash)
    && c.block == m.block && (c.own <==> Endorses(w, m))
    && CountRight(w, w.others + 1, s.(sent := s.sent + [Ballot(w, m, c.own)]), c)
  }

  ghost predicate StepsRight(w: Setting, b: Block, s: Scene, steps: seq<Step>)
    decreases steps
  {
    steps == [] || (
      var n := |steps| - 1;
      StepsRight(w, b, s, steps[..n]) && StepRight(w, b, StepsScene(w, s, steps[..n]), steps[n]))
  }

  /** A count among n voters, started on this scene, is the one the code makes. */
  ghost predicate CountRight(w: Setting, n: nat, s: Scene, c: Count)
    decreases c
  {
    && StepsRight(w, c.block, s, c.steps)
    && CountOver(w, n, c.block, c.own, c.steps)
    && (forall j :: 0 <= j < |c.steps| ==> !CountOver(w, n, c.block, c.own, c.steps[..j]))
    && EndsSo(w, n, c)
  }

  /** How it ends. */
  predicate EndsSo(w: Setting, n: nat, c: Count) {
    var p := ByVotes(w, n, c.block, c.own, c.steps);
    if GivenUp(c.steps) then c.ending == Voting.Superseded && !c.accepted
    else if p.Done? then c.ending == p.ending && c.accepted == p.accepted
    else c.ending == Voting.TimedOut && !c.accepted
  }

  ghost function ViewOf(s: Scene): View {
    View(StreamOf(s.box), s.candidates, s.history, s.sent)
  }

  /**
    What becomes of a request to add a block: it is put back if it comes too early; otherwise it
    is voted on as it deserves and, if we may agree at all, its votes are counted.
   */
  ghost predicate RequestDone(w: Setting, s: Scene, m: Message, allow: bool, count: Option<Count>, after: Scene)
    requires m.AddRequest?
  {
    if m.index > |w.chain| then count == None && after == s.(box := Back(s.box, [m]))
    else
      var agree := allow && Endorses(w, m);
      var voted := s.(sent := s.sent + [Ballot(w, m, agree)]);
      if !allow then count == None && after == voted
      else
        && count.Some? && count.value.block == m.block && count.value.own == agree
        && CountRight(w, w.others + 1, voted, count.value) && after == CountScene(w, voted, count.value)
  }

  // ------------------------------------------------------------------- one more step

  lemma StepsSnoc(w: Setting, b: Block, s: Scene, steps: seq<Step>, st: Step)
    ensures StepsScene(w, s, steps + [st]) == StepScene(w, StepsScene(w, s, steps), st)
    ensures StepsRight(w, b, s, steps) && StepRight(w, b, StepsScene(w, s, steps), st) ==>
      StepsRight(w, b, s, steps + [st])
  {
    hide StepScene, StepRight;
    assert (steps + [st])[..|steps|] == steps;
  }

  lemma HeardSnoc(steps: seq<Step>, st: Step)
    ensures Heard(steps + [st]) == Heard(steps) + (if st.Miss? then [] else [st.m])
    ensures Missed(steps + [st]) == Missed(steps) + (if st.Miss? then 1 else 0)
  {
    assert (steps + [st])[..|steps|] == steps;
  }

  // -------------------------------------------------------------------- theorems

  /** What makes a count end: the prefixes of a right count are not over. */
  lemma LastStep(w: Setting, n: nat, s: Scene, c: Count)
    requires CountRight(w, n, s, c) && c.steps != []
    ensures var front, st := c.steps[..|c.steps| - 1], c.steps[|c.steps| - 1];
      !CountOver(w, n, c.block, c.own, front) && c.steps == front + [st] && StepsRight(w, c.block, s, front)
      && StepRight(w, c.block, StepsScene(w, s, front), st)
  {
    hide CountOver, StepRight;
  }

  /** A count runs out of tries if and only if exactly ten looks for each voter have found nothing. */
  lemma TimedOutExactly(w: Setting, n: nat, s: Scene, c: Count)
    requires CountRight(w, n, s, c) && n > 0
    ensures c.ending == Voting.TimedOut <==> Missed(c.steps) == 10 * n
    ensures Missed(c.steps) <= 10 * n
  {
    hide StepRight, StepsRight, Voting.Settle;
    SettleEnding(n, |w.chain|, c.block.hash, c.own, Heard(c.steps));
    if c.steps != [] {
      LastStep(w, n, s, c);
      var front, st := c.steps[..|c.steps| - 1], c.steps[|c.steps| - 1];
      HeardSnoc(front, st);
      assert Missed(front) < 10 * n;
      if st.Miss? {
        assert Heard(c.steps) == Heard(front) + [] == Heard(front);
        assert !ByVotes(w, n, c.block, c.own, c.steps).Done?;
      }
    }
  }

  lemma SettleEnding(n: nat, index: nat, hash: ByteString, own: bool, s: seq<Message>)
    ensures var p := Voting.Settle(n, index, hash, own, s);
      p.Done? ==> p.ending == Voting.ByMajority || p.ending == Voting.AllSeen
  {}

  // ------------------------------------------------------------ one count only

  /** What a look brings is determined by the mailbox. */
  lemma StepOnce(w: Setting, b: Block, s: Scene, st: Step, st': Step)
    requires StepRight(w, b, s, st) && StepRight(w, b, s, st')
    ensures st == st'
    decreases st
  {
    hide Endorses, LexLe, CountRight;
    if st.Rival? && st'.Rival? {
      var taken := s.(box := Looked(s.box));
      assert RivalRight(w, b, taken, st) && RivalRight(w, b, taken, st');
      assert st.count.own == st'.count.own;
      CountOnce(w, w.others + 1, taken.(sent := taken.sent + [Ballot(w, st.m, st.count.own)]), st.count, st'.count);
    }
  }

  lemma {:induction false} StepsOnce(w: Setting, b: Block, s: Scene, steps: seq<Step>, steps': seq<Step>, j: nat)
    requires j <= |steps| && j <= |steps'|
    requires StepsRight(w, b, s, steps[..j]) && StepsRight(w, b, s, steps'[..j])
    ensures steps[..j] == steps'[..j]
    decreases steps, j
  {
    hide StepRight;
    if j > 0 {
      var x, y := steps[..j], steps'[..j];
      assert x[..j - 1] == steps[..j - 1] && y[..j - 1] == steps'[..j - 1];
      StepsOnce(w, b, s, steps, steps', j - 1);
      StepOnce(w, b, StepsScene(w, s, steps[..j - 1]), steps[j - 1], steps'[j - 1]);
      assert x == x[..j - 1] + [x[j - 1]] && y == y[..j - 1] + [y[j - 1]];
    }
  }

  lemma {:induction false} StepsBegin(w: Setting, b: Block, s: Scene, steps: seq<Step>, j: nat)
    requires StepsRight(w, b, s, steps) && j <= |steps|
    ensures StepsRight(w, b, s, steps[..j])
    decreases |steps|
  {
    hide StepRight;
    if j == |steps| {
      assert steps[..j] == steps;
    } else {
      StepsBegin(w, b, s, steps[..|steps| - 1], j);
      assert steps[..|steps| - 1][..j] == steps[..j];
    }
  }

  /** From a given mailbox there is exactly one way for a count to go. */
  lemma CountOnce(w: Setting, n: nat, s: Scene, c: Count, c': Count)
    requires CountRight(w, n, s, c) && CountRight(w, n, s, c') && c.block == c'.block && c.own == c'.own
    ensures c == c'
    decreases c
  {
    hide StepRight, StepsRight, CountOver, EndsSo;
    var k := if |c.steps| <= |c'.steps| then |c.steps| else |c'.steps|;
    StepsBegin(w, c.block, s, c.steps, k); StepsBegin(w, c.block, s, c'.steps, k);
    StepsOnce(w, c.block, s, c.steps, c'.steps, k);
    assert c.steps[..|c.steps|] == c.steps && c'.steps[..|c'.steps|] == c'.steps;
    SameEnd(w, n, c, c');
  }

  lemma SameEnd(w: Setting, n: nat, c: Count, c': Count)
    requires c.block == c'.block && c.own == c'.own && EndsSo(w, n, c) && EndsSo(w, n, c')
    ensures c.steps == c'.steps ==> c == c'
  {
    hide Voting.Settle;
  }

  // -------------------------------------------------------- votes that come in time

  lemma {:induction false} VotesGrow(index: nat, hash: ByteString, own: bool, x: seq<Message>, y: seq<Message>)
    requires x <= y
    ensures var t, u := Voting.Fold(index, hash, own, x), Voting.Fold(index, hash, own, y);
      && t.agrees <= u.agrees && t.disagrees <= u.disagrees && |t.seen| <= |u.seen|
      && (|t.seen| == |u.seen| ==> t == u)
    decreases |y|
  {
    if |x| < |y| {
      VotesGrow(index, hash, own, x, y[..|y| - 1]);
    } else {
      assert x == y;
    }
  }

  lemma RivalIsTimely(w: Setting, b: Block, s: Scene, st: Step)
    requires StepRight(w, b, s, st)
    ensures Found(s.box) == if st.Miss? then None else Some(st.m)
    ensures st.Rival? ==> Timely(w, st.m)
  {
    hide CountRight, Found;
  }

  lemma PlainStep(w: Setting, s: Scene, st: Step)
    requires !st.Rival?
    ensures StepScene(w, s, st).box == Looked(s.box)
  {}

  /** While no request for the next block comes, a count takes the messages as they come. */
  lemma {:induction false} TracksLooks(w: Setting, b: Block, s: Scene, steps: seq<Step>, k: nat)
    requires StepsRight(w, b, s, steps) && |steps| <= k && NoneTimely(w, Taken(s.box, k))
    ensures StepsScene(w, s, steps).box == After(s.box, |steps|)
    ensures Heard(steps) == Taken(s.box, |steps|) && Missed(steps) == Misses(s.box, |steps|) && !GivenUp(steps)
    decreases |steps|
  {
    hide Found, Looked, StepRight, Timely, CountScene;
    if steps != [] {
      var n := |steps| - 1;
      TracksLooks(w, b, s, steps[..n], k);
      TakenGrows(s.box, n + 1, k);
      var e, st := StepsScene(w, s, steps[..n]), steps[n];
      RivalIsTimely(w, b, e, st);
      if !st.Miss? { assert st.m in Taken(s.box, n + 1) && st.m in Taken(s.box, k); }
      PlainStep(w, e, st);
    }
  }

  /** When a majority in favour is there, the count accepts, and it cannot have ended otherwise before. */
  lemma MajoritySettles(n: nat, index: nat, hash: ByteString, own: bool, x: seq<Message>, y: seq<Message>)
    requires x <= y && n > 0
    requires var u := Voting.Fold(index, hash, own, y); u.agrees > n / 2 && |u.seen| + 1 <= n
    ensures var p := Voting.Settle(n, index, hash, own, x); p.Done? ==> p.accepted
    ensures x == y && (x != [] || n == 1) ==> Voting.Settle(n, index, hash, own, x).Done?
  {
    hide Voting.Fold;
    VotesGrow(index, hash, own, x, y);
    Voting.FoldCounts(index, hash, own, x); Voting.FoldCounts(index, hash, own, y);
  }

  /**
    Votes that come in time decide: if some number of looks, less than ten for each voter of which
    find nothing, takes out a majority of votes in favour and no request for the next block, then
    the block is accepted.
   */
  lemma MajorityInTime(w: Setting, n: nat, s: Scene, c: Count, k: nat)
    requires CountRight(w, n, s, c) && n > 0
    requires NoneTimely(w, Taken(s.box, k)) && Misses(s.box, k) < 10 * n
    requires var t := Voting.Fold(|w.chain|, c.block.hash, c.own, Taken(s.box, k));
      t.agrees > n / 2 && |t.seen| + 1 <= n
    ensures c.accepted
  {
    hide StepRight, StepsRight, Voting.Settle, Voting.Fold, Found, After, NoneTimely;
    var i, h, taken := |w.chain|, c.block.hash, Taken(s.box, k);
    var m := if |c.steps| <= k then |c.steps| else k;
    StepsBegin(w, c.block, s, c.steps, m);
    TracksLooks(w, c.block, s, c.steps[..m], k);
    TakenGrows(s.box, m, k);
    MajoritySettles(n, i, h, c.own, Taken(s.box, m), taken);
    NoMajorityYet(n, i, h, c.own);
    assert c.steps[..|c.steps|] == c.steps;
  }

  lemma NoMajorityYet(n: nat, index: nat, hash: ByteString, own: bool)
    ensures n > 1 ==> Voting.Fold(index, hash, own, []).agrees <= n / 2
  {}
}
