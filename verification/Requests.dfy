/**
  What a peer does in one turn, as it follows from its mailbox: requests to add a block and
  their counts, the choice among the candidates, synchronisation, and its own proposals.
 */
module Requests {
  import opened Words
  import opened Chain
  import opened Messages
  import opened HashCash
  import opened Mailbox
  import opened PeerSpec
  import opened Counts
  import Rounds
  import Voting
  import opened Selection

  // ------------------------------------------------------- requests in the mailbox

  /** A message taken while requests are handled, with its count if it is a request for the next block. */
  datatype Treated = Treated(m: Message, count: Option<Count>)

  function ServedScene(w: Setting, s: Scene, r: Treated): Scene {
    var taken := s.(box := Looked(s.box));
    if r.count.Some? && r.m.AddRequest?
    then CountScene(w, taken.(sent := taken.sent + [Ballot(w, r.m, r.count.value.own)]), r.count.value)
    else taken
  }

  function AllServedScene(w: Setting, s: Scene, log: seq<Treated>): Scene {
    if log == [] then s else ServedScene(w, AllServedScene(w, s, log[..|log| - 1]), log[|log| - 1])
  }

  /** Every request for the next block is voted on and counted; any other message is left. */
  ghost predicate ServedRight(w: Setting, s: Scene, r: Treated) {
    && Found(s.box) == Some(r.m)
    && if Timely(w, r.m)
       then RequestDone(w, s.(box := Looked(s.box)), r.m, true, r.count, ServedScene(w, s, r))
       else r.count == None
  }

  ghost predicate AllServedRight(w: Setting, s: Scene, log: seq<Treated>) {
    log == [] || (
      var n := |log| - 1;
      AllServedRight(w, s, log[..n]) && ServedRight(w, AllServedScene(w, s, log[..n]), log[n]))
  }

  function LeftIn(log: seq<Treated>): seq<Message> {
    if log == [] then []
    else LeftIn(log[..|log| - 1]) + (if log[|log| - 1].count == None then [log[|log| - 1].m] else [])
  }

  /** The loop goes on until a look finds nothing. */
  ghost predicate CollectRight(w: Setting, s: Scene, log: seq<Treated>) {
    AllServedRight(w, s, log) && Found(AllServedScene(w, s, log).box) == None
  }

  /** After the loop, with what was left placed back. */
  function Collected(w: Setting, s: Scene, log: seq<Treated>): Scene {
    var e := AllServedScene(w, s, log);
    e.(box := Back(Looked(e.box), LeftIn(log)))
  }

  lemma ServedSnoc(w: Setting, s: Scene, log: seq<Treated>, r: Treated)
    ensures AllServedScene(w, s, log + [r]) == ServedScene(w, AllServedScene(w, s, log), r)
    ensures LeftIn(log + [r]) == LeftIn(log) + (if r.count == None then [r.m] else [])
    ensures AllServedRight(w, s, log) && ServedRight(w, AllServedScene(w, s, log), r)
        ==> AllServedRight(w, s, log + [r])
  {
    hide ServedScene, ServedRight;
    assert (log + [r])[..|log|] == log;
  }

  // -------------------------------------------------------------- parts of a turn

  /** The candidate chosen, and its place. */
  datatype Choice = Choice(best: Option<Block>, chosen: nat)

  /** Requests are handled, the best of all candidates is appended, and none is left. */
  ghost predicate AppendDone(w: Setting, s: Scene, log: seq<Treated>, choice: Choice, chain: seq<Block>, after: Scene)
    requires w.chain != []
  {
    && CollectRight(w, s, log)
    && ChosenFrom(choice.best, choice.chosen, Collected(w, s, log).candidates)
    && chain == Extended(w, choice.best) && after == Collected(w, s, log).(candidates := [])
  }

  /** A run of rounds, which the environment cuts off after maxRounds. */
  ghost predicate SyncDone(w: Setting, s: Scene, looks: seq<nat>, maxRounds: nat,
                           done: bool, chain: seq<Block>, after: Scene)
    requires w.chain != []
  {
    var p := Rounds.Synced(w, s.box, looks);
    && Rounds.RightRounds(w, s.box, looks) && |looks| <= maxRounds && (p.done || |looks| == maxRounds)
    && done == p.done && chain == p.chain
    && after == s.(box := p.box, sent := s.sent + p.sent)
  }

  /** The scene once the rounds are over. */
  ghost function Afterwards(w: Setting, s: Scene, looks: seq<nat>): Scene
    requires w.chain != []
  {
    var p := Rounds.Synced(w, s.box, looks);
    s.(box := p.box, sent := s.sent + p.sent)
  }

  /** What a turn does. */
  datatype Deed =
    | Synchronise(looks: seq<nat>)
    | Dispatch(m: Message)
    | Join(m: Message, looks: seq<nat>, count: Option<Count>, mid: Scene, log: seq<Treated>, choice: Choice)
    | Propose(looks: seq<nat>, pow: ByteString, own: Count, mid: Scene, log: seq<Treated>, choice: Choice)

  /** A request is answered by synchronising, voting, counting, and appending the best candidate. */
  ghost predicate JoinDone(w: Setting, s: Scene, d: Deed, maxRounds: nat, done: bool, chain: seq<Block>, after: Scene)
    requires w.chain != [] && d.Join? && d.m.AddRequest?
  {
    var p := Rounds.Synced(w, s.box, d.looks);
    var v, synced := w.(chain := p.chain), Afterwards(w, s, d.looks);
    && SyncDone(w, s, d.looks, maxRounds, done, p.chain, synced)
    && if done then
         && RequestDone(v, synced, d.m, true, d.count, d.mid)
         && AppendDone(v, d.mid, d.log, d.choice, chain, after)
       else chain == p.chain && after == synced
  }

  /** A proposal as it goes out: the request with the key of the puzzle. */
  function ProposedScene(w: Setting, s: Scene, b: Block, pow: ByteString): Scene {
    s.(sent := s.sent + [Broadcast(AddRequest(w.own, |w.chain|, pow, b))])
  }

  /** The own block is proposed and counted, and the verdict is sent as a vote. */
  ghost predicate ProposalDone(w: Setting, s: Scene, data: ByteString, pow: ByteString, c: Count, after: Scene)
    requires w.chain != []
  {
    var b := Next(w.sha, w.chain, data);
    var asked := ProposedScene(w, s, b, pow);
    var e := CountScene(w, asked, c);
    && FirstKey(w.sha, w.difficulty, Seed(w.sha, b), pow)
    && c.block == b && c.own && CountRight(w, w.others + 1, asked, c)
    && after == e.(sent := e.sent + [Broadcast(Vote(w.own, |w.chain|, c.accepted, b.hash))])
  }

  /** The place of our block among the candidates when its count has accepted it: the last one then. */
  function OwnPlace(mid: Scene, c: Count): (place: Option<nat>)
    ensures place.Some? ==> place.value < |mid.candidates| && c.accepted
  {
    if c.accepted && mid.candidates != [] then Some(|mid.candidates| - 1) else None
  }

  /**
    That place in terms of the log: the blocks accepted since the start, up to and including ours,
    follow the candidates there were.
   */
  ghost predicate OwnGained(s: Scene, mid: Scene, c: Count) {
    && |s.history| < |mid.history| && mid.history[|mid.history| - 1] == Noted(c)
    && OwnPlace(mid, c) ==
         if c.accepted then Some(|s.candidates| + |Accepted(mid.history[|s.history|..])| - 1) else None
  }

  /** A transaction is dealt with by synchronising, proposing its block, and appending the best candidate. */
  ghost predicate ProposeDone(w: Setting, s: Scene, data: ByteString, d: Deed, maxRounds: nat,
                              done: bool, chain: seq<Block>, after: Scene)
    requires w.chain != [] && d.Propose?
  {
    var p := Rounds.Synced(w, s.box, d.looks);
    var v, synced := w.(chain := p.chain), Afterwards(w, s, d.looks);
    && SyncDone(w, s, d.looks, maxRounds, done, p.chain, synced)
    && if done then
         && ProposalDone(v, synced, data, d.pow, d.own, d.mid)
         && AppendDone(v, d.mid, d.log, d.choice, chain, after)
       else chain == p.chain && after == synced
  }

  /** The transaction is done with exactly if the block appended is the candidate put up for it. */
  predicate OwnChosen(done: bool, d: Deed)
    requires d.Propose?
  {
    done && d.choice.best.Some? && OwnPlace(d.mid, d.own) == Some(d.choice.chosen)
  }

  // ------------------------------------------------------------------ whole turns

  /** A peer between two turns. */
  datatype Moment = Moment(standing: Standing, scene: Scene)

  /** What is sent about a message that is no request to add a block. */
  function Response(w: Setting, m: Message): seq<Outgoing> {
    if m.RequestBlock? then [Respond(m.from, Answer(w, m.index))] else []
  }

  /** A message taken out of the mailbox is dealt with. */
  ghost predicate DispatchDone(w: Setting, s: Scene, m: Message, d: Deed, maxRounds: nat,
                               done: bool, chain: seq<Block>, after: Scene)
    requires w.chain != []
  {
    if m.AddRequest? then d.Join? && d.m == m && JoinDone(w, s, d, maxRounds, done, chain, after)
    else d == Dispatch(m) && done && chain == w.chain && after == s.(sent := s.sent + Response(w, m))
  }

  /** The mailbox is empty: one transaction is put up if there is any; otherwise the peer synchronises. */
  ghost predicate AloneDone(w: Setting, s: Scene, pending: seq<ByteString>, d: Deed, maxRounds: nat,
                            done: bool, chain: seq<Block>, after: Scene, pending': seq<ByteString>)
    requires w.chain != []
  {
    if pending == [] then
      pending' == [] && d.Synchronise? && SyncDone(w, s, d.looks, maxRounds, done, chain, after)
    else
      && d.Propose? && ProposeDone(w, s, pending[0], d, maxRounds, done, chain, after)
      && pending' == if OwnChosen(done, d) then pending[1..] else pending
  }

  /** One turn, by what a look at the mailbox finds. */
  ghost predicate TurnDone(w: Setting, a: Moment, refresh: bool, maxRounds: nat, d: Deed, done: bool, b: Moment)
    requires w.chain != []
  {
    var taken, pending := a.scene.(box := Looked(a.scene.box)), a.standing.pending;
    if refresh then
      && d.Synchronise? && SyncDone(w, a.scene, d.looks, maxRounds, done, b.standing.chain, b.scene)
      && b.standing.pending == pending
    else if Found(a.scene.box) == None then
      AloneDone(w, taken, pending, d, maxRounds, done, b.standing.chain, b.scene, b.standing.pending)
    else
      && DispatchDone(w, taken, Found(a.scene.box).value, d, maxRounds, done, b.standing.chain, b.scene)
      && b.standing.pending == pending
  }

  // ----------------------------------------------------------------- runs of turns

  function Standings(log: seq<Moment>): (r: seq<Standing>)
    ensures |r| == |log|
  {
    seq(|log|, i requires 0 <= i < |log| => log[i].standing)
  }

  /** Turn i of the log leads from one moment to the next; only the last one may be cut off. */
  ghost predicate TurnLogged(w: Setting, refreshes: seq<bool>, maxRounds: nat, log: seq<Moment>, deeds: seq<Deed>,
                             done: bool, i: nat)
    requires i < |deeds| <= |refreshes| && |log| == |deeds| + 1
  {
    && log[i].standing.chain != []
    && TurnDone(w.(chain := log[i].standing.chain), log[i], refreshes[i], maxRounds, deeds[i],
                done || i < |deeds| - 1, log[i + 1])
  }

  /** All turns are taken, unless a synchronisation is cut off in one. */
  ghost predicate RunDone(w: Setting, refreshes: seq<bool>, maxRounds: nat, log: seq<Moment>, deeds: seq<Deed>,
                          done: bool)
  {
    && |deeds| <= |refreshes| && |log| == |deeds| + 1
    && (if done then |deeds| == |refreshes| else deeds != [])
    && forall i :: 0 <= i < |deeds| ==> TurnLogged(w, refreshes, maxRounds, log, deeds, done, i)
  }

  // ------------------------------------------------------------------ a lone peer

  lemma {:induction false} LoneRounds(w: Setting, b: Box, looks: seq<nat>)
    requires w.chain != [] && w.others == 0 && Rounds.RightRounds(w, b, looks)
    requires looks != [] || Rounds.Synced(w, b, looks).done
    ensures var p := Rounds.Synced(w, b, looks);
      looks == [0] && p.done && p.chain == w.chain && StreamOf(p.box) == StreamOf(b)
  {
    assert looks != [];
    var n := |looks| - 1;
    if n > 0 {
      LoneRounds(w, b, looks[..n]);
    } else {
      assert looks[..n] == [];
      LoneRound(w, b, looks[n]);
      assert looks == [0];
    }
  }

  lemma LoneRound(w: Setting, b: Box, k: nat)
    requires w.chain != [] && w.others == 0 && Rounds.Lasts(w, b, k)
    ensures k == 0 && Rounds.Reported(w, Taken(b, k)) == Some(None) && StreamOf(Rounds.RoundBox(w, b, k)) == StreamOf(b)
  {
    assert Rounds.Over(w, b, 0);
  }

  lemma LoneCount(w: Setting, s: Scene, c: Count)
    requires w.others == 0 && CountRight(w, 1, s, c) && c.own
    ensures c.steps == [] && c.accepted && c.ending == Voting.AllSeen
  {
    hide StepsRight;
    assert c.steps[..0] == [];
    assert CountOver(w, 1, c.block, c.own, []);
  }

  lemma {:induction false} NothingServed(w: Setting, s: Scene, log: seq<Treated>)
    requires StreamOf(s.box) == [] && AllServedRight(w, s, log)
    ensures log == []
  {
    if log != [] {
      NothingServed(w, s, log[..|log| - 1]);
      LookedStream(s.box);
    }
  }

  /** With nobody else to ask and nothing in the mailbox, a turn adds the block of the first transaction. */
  lemma LonePeerSucceeds(w: Setting, s: Scene, pending: seq<ByteString>, d: Deed, maxRounds: nat,
                         done: bool, chain: seq<Block>, after: Scene, pending': seq<ByteString>)
    requires w.chain != [] && w.others == 0 && StreamOf(s.box) == [] && s.candidates == [] && pending != []
    requires maxRounds > 0 && AloneDone(w, s, pending, d, maxRounds, done, chain, after, pending')
    ensures done && pending' == pending[1..] && chain == w.chain + [Next(w.sha, w.chain, pending[0])]
  {
    hide SyncDone, Afterwards, ProposalDone, AppendDone, Rounds.Synced;
    LoneSync(w, s, d.looks, maxRounds, done, Rounds.Synced(w, s.box, d.looks).chain, Afterwards(w, s, d.looks));
    assert w.(chain := w.chain) == w;
    LoneProposal(w, Afterwards(w, s, d.looks), pending[0], d, chain, after);
  }

  lemma LoneSync(w: Setting, s: Scene, looks: seq<nat>, maxRounds: nat, done: bool, chain: seq<Block>, after: Scene)
    requires w.chain != [] && w.others == 0 && StreamOf(s.box) == [] && s.candidates == [] && maxRounds > 0
    requires SyncDone(w, s, looks, maxRounds, done, chain, after)
    ensures done && chain == w.chain && StreamOf(after.box) == [] && after.candidates == []
  {
    hide Rounds.RightRounds, StreamOf;
    LoneRounds(w, s.box, looks);
  }

  lemma LoneProposal(w: Setting, s: Scene, data: ByteString, d: Deed, chain: seq<Block>, after: Scene)
    requires w.chain != [] && w.others == 0 && StreamOf(s.box) == [] && s.candidates == [] && d.Propose?
    requires ProposalDone(w, s, data, d.pow, d.own, d.mid) && AppendDone(w, d.mid, d.log, d.choice, chain, after)
    ensures OwnChosen(true, d) && chain == w.chain + [Next(w.sha, w.chain, data)]
  {
    hide FirstKey, CountRight, AllServedRight, StreamOf, CountScene, ChosenFrom;
    var b := Next(w.sha, w.chain, data);
    var asked := ProposedScene(w, s, b, d.pow);
    LoneCount(w, asked, d.own);
    LoneScene(w, asked, d.own);
    NothingServed(w, d.mid, d.log);
    LoneChoice(w, d.mid, d.choice, b);
  }

  lemma LoneChoice(w: Setting, s: Scene, choice: Choice, b: Block)
    requires s.candidates == [b] && ChosenFrom(choice.best, choice.chosen, Collected(w, s, []).candidates)
    ensures choice == Choice(Some(b), 0)
  {
    hide LexLe;
  }

  lemma LoneScene(w: Setting, s: Scene, c: Count)
    requires c.steps == [] && c.accepted && c.ending == Voting.AllSeen && s.candidates == []
    ensures CountScene(w, s, c).candidates == [c.block] && StreamOf(CountScene(w, s, c).box) == StreamOf(s.box)
  {
    assert StepsScene(w, s, c.steps) == s && Kept(|w.chain|, Heard(c.steps)) == [];
    assert s.box.inbox + [] == s.box.inbox;
    assert Checked(w, s, c) == s;
  }
}
