/**
  The protocol of one peer.  The mailbox is filled by another thread: `net` holds what will
  still arrive, in batches, one of which is delivered each time the mailbox is locked.
 */
module Application {
  import opened Words
  import opened Bookkeeping
  import opened Chain
  import opened Counts
  import opened Messages
  import opened Majority
  import opened HashCash
  import opened Mailbox
  import opened PeerSpec
  import opened Requests
  import opened Rounds
  import opened Selection
  import Sync
  import Voting

  const N_TRIES := 10

  class Peer {
    const ownPa: PeerAddress
    const difficulty: nat
    const bc: Blockchain
    const nPeers: nat  // how many other peers a broadcast reaches
    var inbox: seq<Message>
    var net: seq<seq<Message>>
    var candidates: seq<Block>
    var transactions: seq<ByteString>
    var sent: seq<Outgoing>
    ghost var history: seq<Record>

    ghost function Mail(): Box
      reads this`inbox, this`net
    {
      Box(inbox, net)
    }

    /** Everything that is or will be in the mailbox, in order. */
    ghost function Stream(): seq<Message>
      reads this`inbox, this`net
    {
      StreamOf(Mail())
    }

    ghost function Scene(): Scene
      reads this`inbox, this`net, this`candidates, this`history, this`sent
    {
      Counts.Scene(Mail(), candidates, history, sent)
    }

    ghost function Around(): Setting
      reads this, bc
    {
      Setting(ownPa, bc.sha, difficulty, nPeers, bc.blocks)
    }

    ghost function Now(): View
      reads this`inbox, this`net, this`candidates, this`history, this`sent
    {
      View(Stream(), candidates, history, sent)
    }

    ghost predicate Valid()
      reads this, bc
    {
      && bc.Valid()
      && Sized(bc.size, Stream())
      && forall b :: b in candidates ==> |b.data| == bc.size
    }

    /** The transactions still to be added are of the size of a block's data. */
    ghost predicate Pending()
      reads this`transactions
    {
      forall d :: d in transactions ==> |d| == bc.size
    }

    constructor (ownPa: PeerAddress, difficulty: nat, bc: Blockchain, nPeers: nat, transactions: seq<ByteString>)
      requires bc.Valid() && forall d :: d in transactions ==> |d| == bc.size
      ensures Valid() && this.bc == bc && this.ownPa == ownPa && this.difficulty == difficulty && this.nPeers == nPeers
      ensures Pending() && this.transactions == transactions && net == [] && Now() == View([], [], [], [])
    {
      this.ownPa, this.difficulty, this.bc, this.nPeers, this.transactions :=
        ownPa, difficulty, bc, nPeers, transactions;
      inbox, net, candidates, sent, history := [], [], [], [], [];
    }

    /** Locks the mailbox and takes out the first message, if there is one. */
    method TakeMessage() returns (m: Option<Message>)
      modifies this`inbox, this`net
      ensures m.Some? ==> TookOut(old(Now()), m.value, Now())
      ensures m.None? ==> Now() == old(Now()) && inbox == []
      ensures m == Found(old(Mail())) && Mail() == Looked(old(Mail()))
      ensures |net| <= |old(net)|
    {
      LookedStream(Mail());
      if |net| > 0 {
        inbox, net := inbox + net[0], net[1..];
      }
      m := None;
      if |inbox| > 0 {
        m := Some(inbox[0]);
        inbox := inbox[1..];
      }
    }

    method PlaceBack(messages: seq<Message>)
      modifies this`inbox
      ensures Mail() == Back(old(Mail()), messages)
      ensures multiset(Stream()) == multiset(old(Stream())) + multiset(messages)
    {
      inbox := inbox + messages;
    }

    method ClientFound(pa: PeerAddress, clientsSeen: seq<PeerAddress>) returns (found: bool)
      ensures found <==> pa in clientsSeen
    {
      for it := 0 to |clientsSeen|
        invariant pa !in clientsSeen[..it]
      {
        if pa == clientsSeen[it] {
          return true;
        }
      }
      return false;
    }

    method SendBlockchain(to: PeerAddress, index: nat)
      modifies this`sent
      ensures sent == old(sent) + [Respond(to, Answer(Around(), index))]
    {
      if index < |bc.blocks| {
        sent := sent + [Respond(to, BlockReply(ownPa, index, bc.blocks[index]))];
      } else {
        sent := sent + [Respond(to, NoBlock(ownPa, index))];
      }
    }

    // --------------------------------------------------------- synchronisation

    /** The effect of one message on a round: the body of its loop. */
    method HandleReply(msg: Message, clientsSeen: seq<PeerAddress>, noBlock: nat, messages: seq<Entry>,
                       readMessages: seq<Message>)
      returns (clientsSeen': seq<PeerAddress>, noBlock': nat, messages': seq<Entry>, readMessages': seq<Message>)
      requires bc.blocks != []
      modifies this`sent
      ensures Sync.Tally(clientsSeen', noBlock', messages')
           == Sync.Step(bc.sha, TopHash(bc.blocks), |bc.blocks|, Sync.Tally(clientsSeen, noBlock, messages), msg)
      ensures readMessages' == readMessages + (if Sync.IsDeferred(|bc.blocks|, msg) then [msg] else [])
      ensures sent == old(sent) +
        (if msg.RequestBlock? && msg.index < |bc.blocks| then [Respond(msg.from, Answer(Around(), msg.index))] else [])
      ensures |clientsSeen'| <= |clientsSeen| + 1
    {
      clientsSeen', noBlock', messages', readMessages' := clientsSeen, noBlock, messages, readMessages;
      var found := ClientFound(msg.from, clientsSeen);
      match msg {
        case NoBlock(from, _) =>
          if !found {
            noBlock' := noBlock + 1;
            clientsSeen' := clientsSeen + [from];
          }
        case BlockReply(from, _, b) =>
          if !found {
            clientsSeen' := clientsSeen + [from];
            if BlockHash(bc.sha, b.data, b.prevHash) == b.hash && b.prevHash == bc.blocks[|bc.blocks| - 1].hash {
              messages' := Sync.CountBlock(messages, b);
            }
          }
        case RequestBlock(from, index) =>
          if index == |bc.blocks| {
            if !found {
              clientsSeen' := clientsSeen + [from];
            }
          } else if index < |bc.blocks| {
            SendBlockchain(from, index);
          } else {
            readMessages' := readMessages + [msg];
          }
        case _ =>
      }
    }

    /**
      The loop of a round: handles messages until there is a verdict, all peers have been
      heard, or the tries run out.
     */
    method CollectReplies()
      returns (success: bool, largestBlock: Option<Block>, readMessages: seq<Message>, ghost handled: seq<Message>,
               ghost looks: nat)
      requires bc.blocks != [] && nPeers > 0
      modifies this`inbox, this`net, this`sent
      ensures Lasts(Around(), old(Mail()), looks)
      ensures handled == Taken(old(Mail()), looks) && Mail() == After(old(Mail()), looks)
      ensures handled + Stream() == old(Stream())
      ensures Sync.RoundResult(bc.sha, nPeers, bc.blocks, handled, if success then Some(largestBlock) else None)
      ensures readMessages == Sync.DeferredOf(|bc.blocks|, handled)
      ensures sent == old(sent) + Answers(Around(), handled)
    {
      hide Sync.Step, Sync.IsDeferred, Answer, Verdict, Candidate, Gathering, RoundDone, Found, Looked, StreamOf;
      ghost var w, sent0, box := Around(), sent, Mail();
      var tries := 0;
      var clientsSeen: seq<PeerAddress> := [];
      var noBlock := 0;
      var messages: seq<Entry> := [];
      success, largestBlock, readMessages, handled, looks := false, None, [], [], 0;
      GatheringBegins(w, box, sent0);
      ghost var g := Gathered([], Sync.START, [], sent, 0, box);
      ghost var over := false;
      while |clientsSeen| < nPeers
        invariant Around() == w && !success && !over && |clientsSeen| <= nPeers
        invariant g == Gathered(handled, Sync.Tally(clientsSeen, noBlock, messages), readMessages, sent, tries, Mail())
        invariant Gathering(w, box, sent0, looks, g) && tries < N_TRIES
        decreases |Stream()|, N_TRIES - tries
      {
        ghost var r: Option<Option<Block>> := None;
        LookedStream(Mail());
        var item := TakeMessage();
        if item.Some? {
          clientsSeen, noBlock, messages, readMessages :=
            HandleReply(item.value, clientsSeen, noBlock, messages, readMessages);
          success, largestBlock := CheckMajority(|clientsSeen|, nPeers, noBlock, messages);
          handled := handled + [item.value];
          r := if success then Some(largestBlock) else None;
        } else {
          tries := tries + 1;
        }
        ghost var g0 := g;
        g := Gathered(handled, Sync.Tally(clientsSeen, noBlock, messages), readMessages, sent, tries, Mail());
        GatheringStep(w, box, sent0, looks, g0, g, r);
        looks := looks + 1;
        if success || tries >= N_TRIES {
          over := true;
          break;
        }
      }
      if !over { GatheringEnds(w, box, sent0, looks, g); }
      RoundFacts(w, box, sent0, looks, g, if success then Some(largestBlock) else None);
    }

    /**
      One round: asks for the next block and counts the replies.  `handled` is what was taken
      out of the mailbox; the verdict is the first one that any beginning of it gives.
     */
    method RequestBlockchainBlock()
      returns (success: bool, largestBlock: Option<Block>, ghost handled: seq<Message>, ghost looks: nat)
      requires bc.blocks != []
      modifies this`inbox, this`net, this`sent
      ensures Lasts(Around(), old(Mail()), looks) && handled == Taken(old(Mail()), looks)
      ensures Mail() == RoundBox(Around(), old(Mail()), looks)
      ensures (exists i :: 0 <= i <= |Delivered(old(Mail())).inbox|
                 && Reported(Around(), Delivered(old(Mail())).inbox[..i]).Some?) ==> success
      ensures handled <= old(Stream())
      ensures Sync.RoundResult(bc.sha, nPeers, bc.blocks, handled, if success then Some(largestBlock) else None)
      ensures multiset(Stream()) ==
        multiset(old(Stream())[|handled|..]) + multiset(Sync.DeferredOf(|bc.blocks|, handled))
      ensures sent == old(sent) + [Broadcast(RequestBlock(ownPa, |bc.blocks|))] + Answers(Around(), handled)
    {
      hide Sync.DeferredOf, Sync.RoundResult, Answers, StreamOf, Lasts, After, Taken, Delivered, Sync.Outcome;
      ghost var w, box := Around(), Mail();
      sent := sent + [Broadcast(RequestBlock(ownPa, |bc.blocks|))];
      if nPeers == 0 {
        EmptyRound(w, Stream());
        NoLooks(w, box);
        return true, None, [], 0;
      }
      ghost var stream := Stream();
      var readMessages;
      success, largestBlock, readMessages, handled, looks := CollectReplies();
      TakenOut(stream, handled, Stream());
      PlaceBack(readMessages);
      RoundReported(w, handled, if success then Some(largestBlock) else None);
      forall i | 0 <= i <= |Delivered(box).inbox| && Reported(w, Delivered(box).inbox[..i]).Some? ensures success {
        LockedReports(w, box, looks, i);
      }
    }

    /** A round together with what it leads to: one more block, the end, or another try. */
    method RequestNext() returns (done: bool, ghost handled: seq<Message>, ghost looks: nat)
      requires Valid()
      modifies this`inbox, this`net, this`sent, bc
      ensures Valid() && old(bc.blocks) <= bc.blocks
      ensures Lasts(old(Around()), old(Mail()), looks) && handled == Taken(old(Mail()), looks)
      ensures Mail() == RoundBox(old(Around()), old(Mail()), looks)
      ensures sent == old(sent) + RoundSent(old(Around()), old(Mail()), looks)
      ensures var r := Reported(old(Around()), handled);
        && Sync.RoundResult(bc.sha, nPeers, old(bc.blocks), handled, r)
        && Sync.Progress(bc.blocks, done) == Sync.After(bc.sha, old(bc.blocks), r)
      ensures handled <= old(Stream()) && multiset(Stream()) <= multiset(old(Stream()))
    {
      hide Sync.Outcome, Sync.DeferredOf, StreamOf, Answers, Linked, Sized, Next, Lasts, Taken, RoundBox, Delivered;
      ChainNotEmpty(bc.sha, bc.size, bc.blocks);
      ghost var w, before := Around(), Stream();
      var success, b;
      success, b, handled, looks := RequestBlockchainBlock();
      RoundShrinks(|w.chain|, before, handled, Stream());
      SizedWithin(bc.size, Stream(), before);
      done := success && b == None;
      if success && b.Some? {
        ReportedSized(w, handled, before, b.value, bc.size);
        bc.AddBlock(b.value.data);
      }
    }

    /**
      Repeats rounds until one reports that there is no further block; the environment cuts
      the run off after maxRounds rounds.  `looks` tells how many looks at the mailbox each makes.
     */
    method RequestBlockchain(maxRounds: nat)
      returns (done: bool, ghost rounds: seq<seq<Message>>, ghost looks: seq<nat>)
      requires Valid()
      modifies this`inbox, this`net, this`sent, bc
      ensures Valid() && old(bc.blocks) <= bc.blocks && old(sent) <= sent
      ensures SyncedBy(old(Around()), old(Mail()), looks, Course(bc.blocks, done, Mail(), rounds, sent[|old(sent)|..]))
      ensures Synchronised(old(Around()), rounds, old(Stream()), Sync.Progress(bc.blocks, done))
      ensures |rounds| <= maxRounds && (done || |rounds| == maxRounds)
      ensures multiset(Stream()) <= multiset(old(Stream()))
    {
      hide StreamOf, Linked, Sized, Synchronised, Sync.Outcome, Sync.After, Sync.RoundResult, Lasts, Taken, RoundBox,
           RoundSent, SyncedBy;
      ghost var w, stream, box := Around(), Stream(), Mail();
      ChainNotEmpty(bc.sha, bc.size, bc.blocks);
      SynchronisedBegin(w, stream);
      SyncedNothing(w, box);
      done, rounds, looks := false, [], [];
      var i := 0;
      assert sent[|old(sent)|..] == [];
      while !done && i < maxRounds
        invariant Valid() && w.chain <= bc.blocks && old(sent) <= sent && i == |rounds| <= maxRounds
        invariant w == Around().(chain := w.chain)
        invariant SyncedBy(w, box, looks, Course(bc.blocks, done, Mail(), rounds, sent[|old(sent)|..]))
        invariant Synchronised(w, rounds, stream, Sync.Progress(bc.blocks, done))
        invariant multiset(Stream()) <= multiset(stream)
      {
        ghost var v, before, handled, mail, k, sent0 := Around(), Stream(), [], Mail(), 0, sent;
        done, handled, k := RequestNext();
        SynchronisedStep(w, rounds, stream, v.chain, before, handled, Sync.Progress(bc.blocks, done));
        assert sent[|old(sent)|..] == sent0[|old(sent)|..] + RoundSent(v, mail, k);
        SyncedStep(w, box, looks, Course(v.chain, false, mail, rounds, sent0[|old(sent)|..]), k,
                   Course(bc.blocks, done, Mail(), rounds + [handled], sent[|old(sent)|..]));
        rounds, looks := rounds + [handled], looks + [k];
        i := i + 1;
      }
    }

    // ------------------------------------------------------------------ voting

    /** Counts one vote of another peer. */
    method CountVote(vote: Message, reqBlock: Block, nAgrees: nat, nDisagrees: nat, clientsSeen: seq<PeerAddress>)
      returns (nAgrees': nat, nDisagrees': nat, clientsSeen': seq<PeerAddress>)
      requires vote.Vote? && vote.index == |bc.blocks|
      ensures Voting.Tally(nAgrees', nDisagrees', clientsSeen')
           == Voting.Step(|bc.blocks|, reqBlock.hash, Voting.Tally(nAgrees, nDisagrees, clientsSeen), vote)
    {
      nAgrees', nDisagrees', clientsSeen' := nAgrees, nDisagrees, clientsSeen;
      var found := ClientFound(vote.from, clientsSeen);
      if !found {
        if vote.hash == reqBlock.hash {
          if vote.agree {
            nAgrees' := nAgrees + 1;
          } else {
            nDisagrees' := nDisagrees + 1;
          }
          clientsSeen' := clientsSeen + [vote.from];
        }
      }
    }

    /**
      Handles a message that is no countable vote while votes on reqBlock are awaited: answers
      or defers it, or votes on a rival block.  Endorsing a rival whose hash is not larger
      supersedes our own block.
     */
    method HandleOther(msg: Message, reqBlock: Block, readMessages: seq<Message>)
      returns (superseded: bool, readMessages': seq<Message>, ghost st: Step)
      requires Valid() && (msg.AddRequest? ==> |msg.block.data| == bc.size)
      requires msg.Vote? ==> msg.index > |bc.blocks|
      modifies this`inbox, this`net, this`sent, this`candidates, this`history
      ensures Valid() && Handling(Around(), old(Now()), Now()) && |net| <= |old(net)|
      ensures !st.Miss? && st.m == msg && Dealt(Around(), reqBlock, old(Scene()), st, Scene())
      ensures superseded <==> st.Rival? && st.count.own
      ensures readMessages' == readMessages + (if Deferrable(|bc.blocks|, msg) then [msg] else [])
      ensures superseded <==> Overtakes(Around(), reqBlock, msg)
      ensures Served(Around(), reqBlock, old(sent), sent, [msg])
      ensures !Timely(Around(), msg) ==> Stream() == old(Stream())
      decreases |Stream()|, 5
    {
      hide StreamOf, Handling, Linked, Sized, LexLe, Answer, OnTop, Solution, SentSince, Preserved, PeerSpec.Logged,
           CountRight, CountScene;
      ghost var w, start := Around(), Now();
      HandlingRefl(w, start);
      superseded, readMessages', st := false, readMessages, Took(msg);
      match msg {
        case Vote(_, _, _, _) =>
          readMessages' := readMessages + [msg];
        case RequestBlock(from, index) =>
          if index <= |bc.blocks| {
            SendBlockchain(from, index);
            SentNow(start.sent, start.sent, Respond(from, Answer(w, index)), sent);
            HandlingSent(w, start, sent);
          } else {
            readMessages' := readMessages + [msg];
          }
        case AddRequest(_, index, _, b) =>
          if index == |bc.blocks| {
            var rival := LexLe(b.hash, reqBlock.hash);
            var endorsed;
            ghost var count;
            endorsed, count := HandleBlockAdditionRequest(msg, rival);
            SentNow(start.sent, start.sent, Ballot(w, msg, endorsed), sent);
            superseded := rival && endorsed;
            if rival { st := Rival(msg, count.value); }
          } else {
            readMessages' := readMessages + [msg];
          }
        case _ =>
      }
    }

    /** The effect of one message on a count of votes: the body of its loop. */
    method HandleMessage(msg: Message, reqBlock: Block, nAgrees: nat, nDisagrees: nat, clientsSeen: seq<PeerAddress>,
                         readMessages: seq<Message>)
      returns (superseded: bool, nAgrees': nat, nDisagrees': nat, clientsSeen': seq<PeerAddress>,
               readMessages': seq<Message>, ghost st: Step)
      requires Valid() && (msg.AddRequest? ==> |msg.block.data| == bc.size)
      modifies this`inbox, this`net, this`sent, this`candidates, this`history
      ensures Valid() && Handling(Around(), old(Now()), Now()) && |net| <= |old(net)|
      ensures !st.Miss? && st.m == msg && Dealt(Around(), reqBlock, old(Scene()), st, Scene())
      ensures Voting.Tally(nAgrees', nDisagrees', clientsSeen')
           == Voting.Step(|bc.blocks|, reqBlock.hash, Voting.Tally(nAgrees, nDisagrees, clientsSeen), msg)
      ensures readMessages' == readMessages + (if Deferrable(|bc.blocks|, msg) then [msg] else [])
      ensures superseded <==> st.Rival? && st.count.own
      ensures superseded ==> (nAgrees', nDisagrees', clientsSeen') == (nAgrees, nDisagrees, clientsSeen)
      ensures Served(Around(), reqBlock, old(sent), sent, [msg])
      ensures !Timely(Around(), msg) ==> Stream() == old(Stream())
      decreases |Stream()|, 6
    {
      hide StreamOf, Handling, Linked, Sized, LexLe, Served, Deferrable, OnTop, Solution, Voting.Step, Dealt;
      ghost var w := Around();
      HandlingRefl(w, Now());
      superseded, nAgrees', nDisagrees', clientsSeen', readMessages' :=
        false, nAgrees, nDisagrees, clientsSeen, readMessages;
      if msg.Vote? && msg.index <= |bc.blocks| {
        ForNow(w, msg);
        ServedVote(w, reqBlock, sent, msg);
        st := Took(msg);
        VoteDealt(w, reqBlock, Scene(), msg);
        if msg.index == |bc.blocks| {
          nAgrees', nDisagrees', clientsSeen' := CountVote(msg, reqBlock, nAgrees, nDisagrees, clientsSeen);
        } else {
          NotCounted(|bc.blocks|, reqBlock.hash, Voting.Tally(nAgrees, nDisagrees, clientsSeen), msg);
        }
      } else {
        NotCounted(|bc.blocks|, reqBlock.hash, Voting.Tally(nAgrees, nDisagrees, clientsSeen), msg);
        superseded, readMessages', st := HandleOther(msg, reqBlock, readMessages);
      }
    }

    /**
      One look at the mailbox while votes on reqBlock are awaited.  The ghost parameter holds
      the variables of the loop, and the step tells what the look brought.
     */
    method LookForVote(reqBlock: Block, nAgrees: nat, nDisagrees: nat, clientsSeen: seq<PeerAddress>,
                       readMessages: seq<Message>, ghost v: Tallying)
      returns (found: bool, superseded: bool, nAgrees': nat, nDisagrees': nat, clientsSeen': seq<PeerAddress>,
               readMessages': seq<Message>, ghost st: Step)
      requires Valid() && v.scene == Scene() && v.read == readMessages
      requires v.tally == Voting.Tally(nAgrees, nDisagrees, clientsSeen)
      modifies this`inbox, this`net, this`sent, this`candidates, this`history
      ensures Valid() && |net| <= |old(net)|
      ensures superseded <==> st.Rival? && st.count.own
      ensures found <==> !st.Miss?
      ensures var tally := Voting.Tally(nAgrees', nDisagrees', clientsSeen');
        if found then
          && MessageDone(Around(), reqBlock, v, st, Tallying(v.steps + [st], tally, v.tries, readMessages', Scene()))
          && |Stream()| < |old(Stream())|
        else
          && MissDone(v, Tallying(v.steps + [st], tally, v.tries + 1, readMessages', Scene()))
          && Stream() == old(Stream())
      decreases |Stream()|, 0
    {
      hide Voting.Step, StreamOf, Handling, Served, Deferrable, Linked, Sized, Dealt, Timely, Found, Looked;
      ghost var w, before := Around(), Now();
      found, superseded, nAgrees', nDisagrees', clientsSeen', readMessages', st :=
        false, false, nAgrees, nDisagrees, clientsSeen, readMessages, Miss;
      LookedStream(Mail());
      var item := TakeMessage();
      if item.Some? {
        TakenSized(bc.size, before.stream, item.value, Stream());
        found := true;
        superseded, nAgrees', nDisagrees', clientsSeen', readMessages', st :=
          HandleMessage(item.value, reqBlock, nAgrees, nDisagrees, clientsSeen, readMessages);
        StreamShrinks(w, reqBlock, v, st, Tallying(v.steps + [st], Voting.Tally(nAgrees', nDisagrees', clientsSeen'),
                                                   v.tries, readMessages', Scene()));
      }
    }

    /**
      The loop that waits for the votes on reqBlock, among n voters.  `count` records every
      look at the mailbox and how the count ended; readMessages are to be put back.
     */
    method AwaitVotes(n: nat, reqBlock: Block, ownVote: bool)
      returns (accepted: bool, superseded: bool, readMessages: seq<Message>, ghost count: Count)
      requires Valid() && n >= 1
      modifies this`inbox, this`net, this`sent, this`candidates, this`history
      ensures Valid() && |net| <= |old(net)|
      ensures count.block == reqBlock && count.own == ownVote && count.accepted == accepted
      ensures superseded <==> count.ending == Voting.Superseded
      ensures CountRight(Around(), n, old(Scene()), count)
      ensures Scene() == StepsScene(Around(), old(Scene()), count.steps)
      ensures readMessages == Kept(|bc.blocks|, Heard(count.steps))
      ensures Voting.Legitimate(n, |bc.blocks|, reqBlock.hash, Noted(count).phase)
      ensures CountLedger(Around(), reqBlock, old(Now()), Heard(count.steps), readMessages, Now())
      ensures GivenUpFor(Around(), reqBlock, Heard(count.steps), superseded)
      ensures count.ending == Voting.TimedOut ==> inbox == []
      decreases |Stream()|, 1
    {
      hide StreamOf, Linked, Sized, CountGoesOn, CountDone, MessageDone, MissDone, CountRight, StepsScene, Kept, Heard,
           Voting.Legitimate, CountLedger, GivenUpFor;
      ghost var w, scene0 := Around(), Scene();
      var tries := 0;
      var nAgrees: nat, nDisagrees: nat := 0, 0;
      var clientsSeen: seq<PeerAddress> := [];
      if ownVote {
        nAgrees := nAgrees + 1;
      } else {
        nDisagrees := nDisagrees + 1;
      }
      accepted, superseded, readMessages := false, false, [];
      CountGoesOnFirst(w, n, reqBlock, ownVote, scene0);
      ghost var v := Tallying([], Voting.Tally(nAgrees, nDisagrees, clientsSeen), 0, [], scene0);
      var settled := false;
      ghost var ending := Voting.AllSeen;
      while |clientsSeen| + 1 < n
        invariant Valid() && Around() == w && !accepted && !superseded && !settled
        invariant v == Tallying(v.steps, Voting.Tally(nAgrees, nDisagrees, clientsSeen), tries, readMessages, Scene())
        invariant CountGoesOn(w, n, reqBlock, ownVote, scene0, v) && tries < n * N_TRIES && |net| <= |old(net)|
        decreases |Stream()|, n * N_TRIES - tries
      {
        ghost var v0, st := v, Miss;
        var found;
        found, superseded, nAgrees, nDisagrees, clientsSeen, readMessages, st :=
          LookForVote(reqBlock, nAgrees, nDisagrees, clientsSeen, readMessages, v0);
        if !found {
          tries := tries + 1;
        }
        v := Tallying(v0.steps + [st], Voting.Tally(nAgrees, nDisagrees, clientsSeen), tries, readMessages, Scene());
        if found {
          CountTook(w, n, reqBlock, ownVote, scene0, v0, st, v);
          if superseded {
            settled, ending := true, Voting.Superseded;
            break;
          }
          if nAgrees > n / 2 {
            accepted, settled, ending := true, true, Voting.ByMajority;
            break;
          } else if nDisagrees > n / 2 {
            settled, ending := true, Voting.ByMajority;
            break;
          }
        } else {
          CountMissed(w, n, reqBlock, ownVote, scene0, v0, v);
        }
        if tries >= n * N_TRIES {
          settled, ending := true, Voting.TimedOut;
          break;
        }
      }
      if !settled {
        CountSettled(w, n, reqBlock, ownVote, scene0, v);
        accepted, ending := nAgrees > nDisagrees + n - (|clientsSeen| + 1), Voting.AllSeen;
      }
      count := Count(reqBlock, ownVote, v.steps, ending, accepted);
      CountFacts(w, n, scene0, v, count);
    }

    /**
      Decides by the votes whether reqBlock is to be added.  Deferred messages go back to the
      mailbox, except when the block was superseded: then they are lost.
     */
    method CheckVotesForBlock(nOthers: nat, reqBlock: Block, ownVote: bool)
      returns (accepted: bool, ghost count: Count)
      requires Valid()
      modifies this`inbox, this`net, this`sent, this`candidates, this`history
      ensures Valid() && |net| <= |old(net)|
      ensures count.block == reqBlock && count.own == ownVote && count.accepted == accepted
      ensures CountRight(Around(), nOthers + 1, old(Scene()), count)
      ensures Scene() == Checked(Around(), old(Scene()), count)
      ensures Voting.Legitimate(nOthers + 1, |bc.blocks|, reqBlock.hash, Noted(count).phase)
      ensures CountEffect(Around(), reqBlock, old(Now()), Noted(count).phase, Now())
      ensures GivenUpFor(Around(), reqBlock, Heard(count.steps), count.ending == Voting.Superseded)
      ensures CountedInOrder(Around(), old(Stream()), Noted(count).phase, net == [])
      decreases |Stream()|, 2
    {
      hide Voting.Legitimate, StreamOf, CountEffect, CountLedger, Linked, Sized, Overtakes, CountedInOrder, CountRight,
           StepsScene, GivenUpFor;
      ghost var w, start := Around(), Now();
      var superseded, readMessages;
      accepted, superseded, readMessages, count := AwaitVotes(nOthers + 1, reqBlock, ownVote);
      ghost var now, phase := Now(), Noted(count).phase;
      if phase.ending == Voting.TimedOut && net == [] { NothingLeft(); }
      CountInOrder(w, reqBlock, start, phase, readMessages, now, net == []);
      if !superseded {
        PlaceBack(readMessages);
      }
      CountPlacedBack(w, reqBlock, start, phase, readMessages, now, Now());
      CountGrows(w, reqBlock, start, phase, Now());
      SizedWithin(bc.size, Stream(), start.stream);
    }

    lemma NothingLeft()
      requires inbox == [] && net == []
      ensures Stream() == []
    {}

    /** The vote on a request: the checks in the order of the code. */
    method DecideVote(request: Message, allowAgree: bool) returns (agree: bool)
      requires Valid() && request.AddRequest? && request.index <= |bc.blocks|
      ensures agree <==> allowAgree && Endorses(Around(), request)
    {
      hide Solution;
      var b := request.block;
      agree := allowAgree;
      var hash := Seed(bc.sha, b);
      if request.index < |bc.blocks| {
        agree := false;
      } else if b.prevHash != bc.blocks[|bc.blocks| - 1].hash {
        agree := false;
      } else if b.hash != BlockHash(bc.sha, b.data, b.prevHash) {
        agree := false;
      } else {
        var solved := CheckSolution(bc.sha, difficulty, hash, request.pow);
        if !solved {
          agree := false;
        }
      }
    }

    /** Awaits the verdict on a block, which becomes a candidate if it is accepted. */
    method AwaitVerdict(b: Block, own: bool) returns (accepted: bool, ghost count: Count)
      requires Valid() && |b.data| == bc.size && (own ==> OnTop(Around(), b))
      modifies this`inbox, this`net, this`sent, this`candidates, this`history
      ensures Valid() && Handling(Around(), old(Now()), Now()) && |net| <= |old(net)|
      ensures count.block == b && count.own == own && count.accepted == accepted
      ensures CountRight(Around(), nPeers + 1, old(Scene()), count)
      ensures Scene() == CountScene(Around(), old(Scene()), count)
      ensures |history| > |old(history)| && LastRecord(history, b, own, accepted)
      decreases |Stream()|, 3
    {
      hide Voting.Legitimate, Linked, StreamOf, Sized, CountEffect, OnTop, Handling, CountedInOrder, GivenUpFor,
           CountRight, Checked, Heard;
      ghost var w, start := Around(), Now();
      accepted, count := CheckVotesForBlock(nPeers, b, own);
      ghost var r, now := Noted(count), Now();
      CountGrows(w, b, start, r.phase, now);
      history := history + [r];
      if accepted {
        candidates := candidates + [b];
      }
      assert now.candidates + [] == now.candidates;
      CountLogged(w, start, r, now, Now());
    }

    /**
      Votes on a request to add a block and, if we may agree at all, waits for the others; the
      block becomes a candidate when a majority agrees, whatever our own vote was.
     */
    method HandleBlockAdditionRequest(request: Message, allowAgree: bool)
      returns (agree: bool, ghost count: Option<Count>)
      requires Valid() && request.AddRequest? && |request.block.data| == bc.size
      modifies this`inbox, this`net, this`sent, this`candidates, this`history
      ensures Valid() && |net| <= |old(net)|
      ensures RequestDone(Around(), old(Scene()), request, allowAgree, count, Scene())
      ensures agree <==> request.index <= |bc.blocks| && allowAgree && Endorses(Around(), request)
      ensures request.index <= |bc.blocks| ==>
        Handling(Around(), old(Now()), Now()) && old(sent) + [Ballot(Around(), request, agree)] <= sent
      ensures request.index <= |bc.blocks| && allowAgree ==>
        && |history| > |old(history)|
        && (LastRecord(history, request.block, agree, true) || LastRecord(history, request.block, agree, false))
      decreases |Stream()|, 4
    {
      hide OnTop, Linked, StreamOf, Sized, LastRecord, Solution, Preserved, PeerSpec.Logged, CountRight, CountScene;
      ghost var w, start := Around(), Now();
      count := None;
      if request.index > |bc.blocks| {
        PlaceBack([request]);
        SizedPlus(bc.size, start.stream, request, Stream());
        return false, None;
      }
      agree := DecideVote(request, allowAgree);
      sent := sent + [Broadcast(Vote(ownPa, request.index, agree, request.block.hash))];
      HandlingSent(w, start, sent);
      if allowAgree {
        ghost var mid, c := Now(), Count(request.block, agree, [], Voting.AllSeen, false);
        var accepted;
        accepted, c := AwaitVerdict(request.block, agree);
        count := Some(c);
        HandlingTrans(w, start, mid, Now());
      }
    }

    /**
      Proposes a block holding data: solves its puzzle, asks all peers, awaits their votes and
      announces the verdict as our own vote.
     */
    method AddBlockToBlockchain(data: ByteString)
      returns (newBlock: Option<Block>, ghost pow: ByteString, ghost count: Count)
      requires Valid() && |data| == bc.size
      modifies this`inbox, this`net, this`sent, this`candidates, this`history
      ensures Valid() && Handling(Around(), old(Now()), Now())
      ensures bc.blocks != [] && ProposalDone(Around(), old(Scene()), data, pow, count, Scene())
      ensures newBlock == if count.accepted then Some(count.block) else None
      ensures var b := Next(bc.sha, bc.blocks, data);
        && Proposed(Around(), b, pow, old(sent), sent, newBlock.Some?)
        && |history| > |old(history)| && LastRecord(history, b, true, newBlock.Some?)
    {
      hide Solution, Linked, StreamOf, Sized, LastRecord, Preserved, PeerSpec.Logged, IsKey, LastValue, Earlier,
           CountRight, CountScene, InRange;
      ChainNotEmpty(bc.sha, bc.size, bc.blocks);
      ghost var w, start := Around(), Now();
      var b := bc.SneakPeekBlock(data);
      ProposalOnTop(w, data);
      var key := SolveProblem(bc.sha, difficulty, Seed(bc.sha, b));
      pow := key;
      sent := sent + [Broadcast(AddRequest(ownPa, |bc.blocks|, key, b))];
      HandlingSent(w, start, sent);
      ghost var mid := Now();
      var accepted;
      accepted, count := AwaitVerdict(b, true);
      ghost var counted := Now();
      sent := sent + [Broadcast(Vote(ownPa, |bc.blocks|, accepted, b.hash))];
      HandlingTrans(w, start, mid, counted);
      HandlingSent(w, counted, sent);
      HandlingTrans(w, start, counted, Now());
      newBlock := if accepted then Some(b) else None;
    }

    /** Handles every request for the next index that is in the mailbox; the rest is to be put back. */
    method HandleRequests() returns (readMessages: seq<Message>, ghost handled: seq<Message>, ghost log: seq<Treated>)
      requires Valid()
      modifies this`inbox, this`net, this`sent, this`candidates, this`history
      ensures Valid() && inbox == []
      ensures CollectRight(Around(), old(Scene()), log) && readMessages == LeftIn(log)
      ensures var e := AllServedScene(Around(), old(Scene()), log); Scene() == e.(box := Looked(e.box))
      ensures RequestsLedger(Around(), old(Now()), handled, readMessages, Now())
    {
      hide Linked, StreamOf, Sized, LastRecord, RequestsLedger, Handling, OnTop, Solution, RequestDone, ServedRight,
           ServedScene, Found, Looked;
      ghost var w, start, scene0 := Around(), Now(), Scene();
      readMessages, handled, log := [], [], [];
      RequestsBegin(w, start);
      while true
        invariant Valid() && Around() == w
        invariant AllServedRight(w, scene0, log) && Scene() == AllServedScene(w, scene0, log)
        invariant readMessages == LeftIn(log)
        invariant RequestsLedger(w, start, handled, readMessages, Now())
        decreases |Stream()|
      {
        ghost var before, handled0, scene := Now(), handled, Scene();
        LookedStream(Mail());
        var item := TakeMessage();
        if item.None? {
          break;
        }
        var msg := item.value;
        ghost var taken, served := Now(), Treated(msg, None);
        TakenSized(bc.size, before.stream, msg, Stream());
        handled := handled + [msg];
        if msg.AddRequest? && msg.index == |bc.blocks| {
          var agree;
          ghost var count;
          agree, count := HandleBlockAdditionRequest(msg, true);
          served := Treated(msg, count);
          RequestServed(w, scene, msg, count, Scene());
          RequestsServed(w, start, handled0, readMessages, before, msg, taken, Now());
        } else {
          MessageLeft(w, scene, msg);
          RequestsDeferred(w, start, handled0, readMessages, before, msg, taken);
          readMessages := readMessages + [msg];
        }
        ServedSnoc(w, scene0, log, served);
        log := log + [served];
      }
    }

    /**
      Handles all requests for the next index, then picks the candidate with the least hash.
      `considered` are the candidates it was picked from.
     */
    method HandleAllBlockAdditionRequests()
      returns (best: Option<Block>, chosen: nat, ghost considered: seq<Block>, ghost log: seq<Treated>)
      requires Valid()
      modifies this`inbox, this`net, this`sent, this`candidates, this`history
      ensures Valid() && candidates == [] && NoneTimely(Around(), inbox)
      ensures CollectRight(Around(), old(Scene()), log)
      ensures var e := Collected(Around(), old(Scene()), log);
        considered == e.candidates && Scene() == e.(candidates := [])
      ensures best == None <==> considered == []
      ensures best.Some? ==>
        LastLeast(considered, chosen) && considered[chosen] == best.value && |best.value.data| == bc.size
      ensures Handling(Around(), old(Now()), Now().(candidates := considered))
    {
      hide Linked, StreamOf, Sized, LexLe, Ledger, Timely, Handling, CollectRight, AllServedScene, LeftIn, Looked;
      ghost var w, start, handled := Around(), Now(), [];
      var readMessages;
      readMessages, handled, log := HandleRequests();
      ghost var now := Now();
      considered := candidates;
      best, chosen := SelectCandidate(candidates);
      candidates := [];
      PlaceBack(readMessages);
      LedgerBack(w, start, handled, readMessages, now, Now().(candidates := considered));
      HandlingShrinks(w, start, Now().(candidates := considered));
      SizedWithin(bc.size, Stream(), start.stream);
    }

    /** Collects what the vote has brought and appends the best candidate, if there is one. */
    method AppendBest()
      returns (best: Option<Block>, chosen: nat, ghost considered: seq<Block>, ghost log: seq<Treated>)
      requires Valid()
      modifies this`inbox, this`net, this`sent, this`candidates, this`history, bc
      ensures Valid() && candidates == [] && old(bc.blocks) != []
      ensures AppendDone(old(Around()), old(Scene()), log, Choice(best, chosen), bc.blocks, Scene())
      ensures Appended(old(Around()), best, chosen, considered, old(Now()), Now(), bc.blocks)
      ensures Handling(old(Around()), old(Now()), Now().(candidates := considered))
    {
      hide Linked, StreamOf, Sized, LexLe, PeerSpec.Logged, Preserved, LastLeast, Timely, Appended, CollectRight,
           Collected;
      ChainNotEmpty(bc.sha, bc.size, bc.blocks);
      ghost var w, start := Around(), Now();
      best, chosen, considered, log := HandleAllBlockAdditionRequests();
      if best.Some? {
        bc.AddBlock(best.value.data);
      }
      LoggedGained(w, start, Now().(candidates := considered));
      AppendedSo(w, best, chosen, considered, start, Now(), bc.blocks);
    }

    /**
      What Run does with a request taken from the mailbox, after a synchronisation that ended
      with the chain reached; false when that was cut off.
     */
    method ProcessAddRequest(request: Message, maxRounds: nat)
      returns (done: bool, best: Option<Block>, chosen: nat, ghost reached: seq<Block>,
               ghost rounds: seq<seq<Message>>, ghost considered: seq<Block>, ghost deed: Deed)
      requires Valid() && request.AddRequest? && |request.block.data| == bc.size
      modifies this`inbox, this`net, this`sent, this`candidates, this`history, bc
      ensures Valid() && reached != [] && old(bc.blocks) <= reached <= bc.blocks && old(bc.blocks) != []
      ensures deed.Join? && deed.m == request && deed.choice == Choice(best, chosen)
      ensures JoinDone(old(Around()), old(Scene()), deed, maxRounds, done, bc.blocks, Scene())
      ensures Synchronised(old(Around()), rounds, old(Stream()), Sync.Progress(reached, done))
      ensures var w := old(Around()).(chain := reached);
        if done then Appended(w, best, chosen, considered, old(Now()), Now(), bc.blocks) &&
                     Answered(w, request, old(Now()), Now())
        else bc.blocks == reached
    {
      hide Linked, PeerSpec.Logged, Preserved, StreamOf, Sized, Synchronised, LastLeast, Endorses, LastRecord, Next,
           Appended, Answered, SentSince, Accepted, Ballot, SyncedBy, AppendDone, RequestDone, JudgedRight;
      ChainNotEmpty(bc.sha, bc.size, bc.blocks);
      ghost var start, w0, scene0, looks := Now(), Around(), Scene(), [];
      best, chosen, considered := None, 0, [];
      done, rounds, looks := RequestBlockchain(maxRounds);
      reached := bc.blocks;
      SyncIsDone(w0, scene0, looks, maxRounds, Course(reached, done, Mail(), rounds, sent[|scene0.sent|..]), Scene());
      deed := Join(request, looks, None, Scene(), [], Choice(best, chosen));
      if done {
        ghost var w, synced, count, log := Around(), Now(), None, [];
        var agree;
        agree, count := HandleBlockAdditionRequest(request, true);
        ghost var mid, scene := Now(), Scene();
        if request.index <= |reached| {
          LoggedGained(w, synced, mid);
          JudgedNow(w, start, synced, mid, request);
        } else {
          EarlyRequest(w, Afterwards(w0, scene0, looks), request, true, count, scene);
          GainedNothing(w, synced, mid);
        }
        GainedAnyway(w, start, synced, mid);
        best, chosen, considered, log := AppendBest();
        deed := Join(request, looks, count, scene, log, Choice(best, chosen));
        LoggedGained(w, mid, Now().(candidates := considered));
        GrownAfter(w, start, mid, best, chosen, considered, Now(), bc.blocks);
        AppendedGrows(w, best, chosen, considered, start, Now(), bc.blocks);
        AnsweredStill(w, request, start, mid, Now());
      }
    }

    /**
      Puts up a block holding data and appends the best candidate.  `own` is the place of our
      block among the candidates, if it was accepted, and `chosen` that of the block appended.
     */
    method ProposeAndAppend(data: ByteString)
      returns (best: Option<Block>, own: Option<nat>, chosen: nat, ghost considered: seq<Block>,
               ghost pow: ByteString, ghost count: Count, ghost mid: Scene, ghost log: seq<Treated>)
      requires Valid() && |data| == bc.size
      modifies this`inbox, this`net, this`sent, this`candidates, this`history, bc
      ensures Valid() && old(bc.blocks) != []
      ensures ProposalDone(old(Around()), old(Scene()), data, pow, count, mid)
      ensures AppendDone(old(Around()), mid, log, Choice(best, chosen), bc.blocks, Scene())
      ensures own == OwnPlace(mid, count) && OwnGained(old(Scene()), mid, count)
      ensures var w := old(Around()); var b := Next(w.sha, w.chain, data);
        && Appended(w, best, chosen, considered, old(Now()), Now(), bc.blocks)
        && OwnAmong(own, b, considered) && Submitted(w, b, pow, old(Now()), Now())
    {
      hide Linked, PeerSpec.Logged, Preserved, StreamOf, Sized, LastLeast, LastRecord, Proposed, Next, Submitted,
           Appended, Accepted, AppendDone, ProposalDone;
      ChainNotEmpty(bc.sha, bc.size, bc.blocks);
      ghost var w, start, scene := Around(), Now(), Scene();
      var newBlock;
      newBlock, pow, count := AddBlockToBlockchain(data);
      AcceptedIsLast(w, scene, data, pow, count, Scene());
      own := if newBlock.Some? then Some(|candidates| - 1) else None;
      mid := Scene();
      ghost var view := Now();
      LoggedGained(w, start, view);
      OwnIsLastGained(w, scene, data, pow, count, mid);
      best, chosen, considered, log := AppendBest();
      LoggedGained(w, view, Now().(candidates := considered));
      GrownAfter(w, start, view, best, chosen, considered, Now(), bc.blocks);
      SubmittedSo(w, Next(w.sha, w.chain, data), pow, start, view, Now(), newBlock.Some?);
    }

    /** Synchronises first, then puts up the block on the chain reached; false when that was cut off. */
    method ProposeInTurn(data: ByteString, maxRounds: nat)
      returns (done: bool, best: Option<Block>, own: Option<nat>, chosen: nat, ghost reached: seq<Block>,
               ghost rounds: seq<seq<Message>>, ghost considered: seq<Block>, ghost deed: Deed)
      requires Valid() && |data| == bc.size
      modifies this`inbox, this`net, this`sent, this`candidates, this`history, bc
      ensures Valid() && reached != [] && old(bc.blocks) <= reached <= bc.blocks && old(bc.blocks) != []
      ensures deed.Propose? && deed.choice == Choice(best, chosen)
      ensures ProposeDone(old(Around()), old(Scene()), data, deed, maxRounds, done, bc.blocks, Scene())
      ensures done ==> own == OwnPlace(deed.mid, deed.own) && OwnGained(old(Scene()), deed.mid, deed.own)
      ensures Synchronised(old(Around()), rounds, old(Stream()), Sync.Progress(reached, done))
      ensures !done ==> bc.blocks == reached
      ensures var w := old(Around()).(chain := reached); var b := Next(w.sha, reached, data);
        done ==> && Appended(w, best, chosen, considered, old(Now()), Now(), bc.blocks)
                 && OwnAmong(own, b, considered) && Submitted(w, b, deed.pow, old(Now()), Now())
    {
      hide Linked, StreamOf, Sized, Synchronised, LastLeast, OwnAmong, Next, Submitted, Appended, SyncedBy, AppendDone,
           ProposalDone, OwnGained, OwnPlace, SyncDone;
      ChainNotEmpty(bc.sha, bc.size, bc.blocks);
      ghost var start, w0, scene0, looks := Now(), Around(), Scene(), [];
      best, own, chosen, considered := None, None, 0, [];
      done, rounds, looks := RequestBlockchain(maxRounds);
      reached := bc.blocks;
      SyncIsDone(w0, scene0, looks, maxRounds, Course(reached, done, Mail(), rounds, sent[|scene0.sent|..]), Scene());
      ghost var pow, count, mid, log := [], Count(Block([], [], []), true, [], Voting.AllSeen, false), Scene(), [];
      if done {
        ghost var w, synced := Around(), Now();
        best, own, chosen, considered, pow, count, mid, log := ProposeAndAppend(data);
        OwnGainedAnyway(scene0, Afterwards(w0, scene0, looks), mid, count);
        AppendedWider(w, best, chosen, considered, start, synced, Now(), bc.blocks);
        AppendedGrows(w, best, chosen, considered, start, Now(), bc.blocks);
        SubmittedWider(w, Next(w.sha, reached, data), pow, start, synced, Now());
      }
      deed := Propose(looks, pow, count, mid, log, Choice(best, chosen));
    }

    /**
      What Run does with its own transactions when the mailbox is empty.  The transaction is
      done with exactly when the block appended is the candidate that was put up for it.
     */
    method ProcessTransaction(maxRounds: nat)
      returns (done: bool, ghost reached: seq<Block>, ghost rounds: seq<seq<Message>>, ghost considered: seq<Block>,
               ghost deed: Deed)
      requires Valid() && Pending() && transactions != []
      modifies this`inbox, this`net, this`sent, this`candidates, this`history, this`transactions, bc
      ensures Valid() && Pending() && reached != [] && old(bc.blocks) <= reached <= bc.blocks && old(bc.blocks) != []
      ensures deed.Propose?
      ensures ProposeDone(old(Around()), old(Scene()), old(transactions[0]), deed, maxRounds, done, bc.blocks, Scene())
      ensures transactions == if OwnChosen(done, deed) then old(transactions)[1..] else old(transactions)
      ensures done ==> OwnGained(old(Scene()), deed.mid, deed.own)
      ensures Synchronised(old(Around()), rounds, old(Stream()), Sync.Progress(reached, done))
      ensures !done ==> bc.blocks == reached
      ensures var w := old(Around()).(chain := reached); var b := Next(w.sha, reached, old(transactions[0]));
        done ==> && Appended(w, deed.choice.best, deed.choice.chosen, considered, old(Now()), Now(), bc.blocks)
                 && OwnAmong(OwnPlace(deed.mid, deed.own), b, considered)
                 && Submitted(w, b, deed.pow, old(Now()), Now())
    {
      hide Linked, StreamOf, Sized, Synchronised, OwnAmong, Next, Submitted, Appended, ProposeDone;
      ChainNotEmpty(bc.sha, bc.size, bc.blocks);
      var best, own, chosen;
      done, best, own, chosen, reached, rounds, considered, deed := ProposeInTurn(transactions[0], maxRounds);
      if done && best.Some? && own == Some(chosen) {
        transactions := transactions[1..];
      }
    }

    /** What Run does with a message taken from the mailbox. */
    method Dispatch(msg: Message, maxRounds: nat) returns (done: bool, ghost reached: seq<Block>, ghost deed: Deed)
      requires Valid() && (msg.AddRequest? ==> |msg.block.data| == bc.size)
      modifies this`inbox, this`net, this`sent, this`candidates, this`history, bc
      ensures Valid() && old(bc.blocks) <= reached <= bc.blocks && old(bc.blocks) != []
      ensures DispatchDone(old(Around()), old(Scene()), msg, deed, maxRounds, done, bc.blocks, Scene())
      ensures msg.AddRequest? && done ==> Answered(old(Around()).(chain := reached), msg, old(Now()), Now())
    {
      hide Linked, StreamOf, Sized, Synchronised, Appended, Answered, Answer, JoinDone;
      ChainNotEmpty(bc.sha, bc.size, bc.blocks);
      done, reached, deed := true, bc.blocks, Requests.Dispatch(msg);
      match msg {
        case RequestBlock(from, index) => SendBlockchain(from, index);
        case AddRequest(_, _, _, _) =>
          ghost var rounds, considered;
          var best, chosen;
          done, best, chosen, reached, rounds, considered, deed := ProcessAddRequest(msg, maxRounds);
        case _ =>
          assert sent + [] == sent;
      }
    }

    /** What Run does when the mailbox is empty: one transaction if there is any, or a synchronisation. */
    method WorkAlone(maxRounds: nat) returns (done: bool, ghost reached: seq<Block>, ghost deed: Deed)
      requires Valid() && Pending()
      modifies this`inbox, this`net, this`sent, this`candidates, this`history, this`transactions, bc
      ensures Valid() && Pending() && old(bc.blocks) <= reached <= bc.blocks && old(bc.blocks) != []
      ensures AloneDone(old(Around()), old(Scene()), old(transactions), deed, maxRounds, done, bc.blocks, Scene(),
                        transactions)
      ensures transactions == old(transactions) || Fulfilled(old(transactions), transactions, old(bc.blocks), bc.blocks)
    {
      hide Linked, StreamOf, Sized, Synchronised, Appended, OwnAmong, Submitted, Next, ProposeDone, SyncedBy, SyncDone,
           OwnChosen, OwnPlace, OwnGained;
      ChainNotEmpty(bc.sha, bc.size, bc.blocks);
      if transactions != [] {
        ghost var rounds, considered;
        ghost var w, scene, start, pending := Around(), Scene(), Now(), transactions;
        done, reached, rounds, considered, deed := ProcessTransaction(maxRounds);
        AloneProposes(w, scene, pending, deed, maxRounds, done, bc.blocks, Scene(), transactions);
        if OwnChosen(done, deed) {
          assert done by { OwnChosenDone(done, deed); }
          OwnIsLastBlock(w.(chain := reached), deed, done, considered, start, Now(), bc.blocks, pending[0]);
        }
      } else {
        done, reached, deed := Refresh(maxRounds);
      }
    }

    /** Nothing but a synchronisation. */
    method Refresh(maxRounds: nat) returns (done: bool, ghost reached: seq<Block>, ghost deed: Deed)
      requires Valid()
      modifies this`inbox, this`net, this`sent, bc
      ensures Valid() && old(bc.blocks) <= reached == bc.blocks && old(bc.blocks) != []
      ensures deed.Synchronise?
      ensures SyncDone(old(Around()), old(Scene()), deed.looks, maxRounds, done, bc.blocks, Scene())
    {
      hide Linked, StreamOf, Sized, Synchronised, SyncedBy, SyncDone;
      ChainNotEmpty(bc.sha, bc.size, bc.blocks);
      ghost var w0, scene0, rounds, looks := Around(), Scene(), [], [];
      done, rounds, looks := RequestBlockchain(maxRounds);
      reached := bc.blocks;
      SyncIsDone(w0, scene0, looks, maxRounds, Course(reached, done, Mail(), rounds, sent[|scene0.sent|..]), Scene());
      deed := Synchronise(looks);
    }

    ghost function Moment(): Moment
      reads this, bc
    {
      Requests.Moment(Standing(), Scene())
    }

    ghost function Standing(): Standing
      reads this`transactions, bc
    {
      PeerSpec.Standing(bc.blocks, transactions)
    }

    /**
      One turn of Run while the peer is online, with the chain that a synchronisation in it
      reached; false when that was cut off.  No transaction is lost: one that is no longer
      pending has become the last block.
     */
    method Turn(refresh: bool, maxRounds: nat) returns (done: bool, ghost reached: seq<Block>, ghost deed: Deed)
      requires Valid() && Pending()
      modifies this`inbox, this`net, this`sent, this`candidates, this`history, this`transactions, bc
      ensures Valid() && Pending() && old(bc.blocks) <= reached <= bc.blocks && old(bc.blocks) != []
      ensures TurnDone(old(Around()), old(Moment()), refresh, maxRounds, deed, done, Moment())
      ensures transactions == old(transactions) || Fulfilled(old(transactions), transactions, old(bc.blocks), bc.blocks)
      ensures !refresh && old(Delivered(Mail()).inbox) != [] ==>
        var m := old(Delivered(Mail()).inbox[0]);
        m.AddRequest? && done ==> Answered(old(Around()).(chain := reached), m, old(Now()), Now())
      ensures !refresh && nPeers == 0 && old(Stream()) == [] && old(candidates) == [] && old(transactions) != []
              && maxRounds > 0 ==>
        && done && transactions == old(transactions)[1..]
        && bc.blocks == old(bc.blocks) + [Next(bc.sha, old(bc.blocks), old(transactions[0]))]
    {
      hide Linked, StreamOf, Sized, Synchronised, Answered, Answer, Fulfilled, SyncDone, DispatchDone, AloneDone,
           Looked;
      ghost var start, w, a := Now(), Around(), Moment();
      if refresh {
        done, reached, deed := Refresh(maxRounds);
        return;
      }
      LookedStream(Mail());
      var item := TakeMessage();
      if item.Some? {
        ghost var taken := Now();
        TakenSized(bc.size, start.stream, item.value, Stream());
        done, reached, deed := Dispatch(item.value, maxRounds);
        if item.value.AddRequest? && done {
          AnsweredAnyway(Around().(chain := reached), item.value, start, taken, Now());
        }
      } else {
        done, reached, deed := WorkAlone(maxRounds);
        if w.others == 0 && start.stream == [] && start.candidates == [] && a.standing.pending != [] && maxRounds > 0 {
          NothingFound(a.scene.box);
          LonePeerSucceeds(w, a.scene.(box := Looked(a.scene.box)), a.standing.pending, deed, maxRounds, done,
                           bc.blocks, Scene(), transactions);
        }
      }
    }

    /**
      Any number of turns: what each does is logged, and a transaction leaves the pending ones
      only by becoming a block.
     */
    method Run(refreshes: seq<bool>, maxRounds: nat)
      returns (ghost log: seq<Moment>, ghost deeds: seq<Deed>, done: bool)
      requires Valid() && Pending()
      modifies this`inbox, this`net, this`sent, this`candidates, this`history, this`transactions, bc
      ensures Valid() && Pending() && old(bc.blocks) <= bc.blocks
      ensures log != [] && log[0] == old(Moment()) && log[|log| - 1] == Moment()
      ensures RunDone(old(Around()), refreshes, maxRounds, log, deeds, done) && Turns(Standings(log))
      ensures multiset(old(transactions)) <= multiset(transactions) + multiset(Datas(bc.blocks)[|old(bc.blocks)|..])
    {
      hide Linked, Sized, Datas, StreamOf, Answered, TurnDone, RunSoFar, Delivered;
      ghost var w := Around();
      log, deeds, done := [Moment()], [], true;
      RunBegins(w, refreshes, maxRounds, Moment());
      for i := 0 to |refreshes|
        invariant Valid() && Pending() && done && |deeds| == i && w == Around().(chain := w.chain)
        invariant RunSoFar(w, refreshes, maxRounds, old(Moment()), log, deeds, true, Moment())
      {
        ghost var reached, deed;
        ghost var a := Moment();
        done, reached, deed := Turn(refreshes[i], maxRounds);
        RunStep(w, refreshes, maxRounds, old(Moment()), log, deeds, a, deed, done, Moment());
        log, deeds := log + [Moment()], deeds + [deed];
        if !done {
          break;
        }
      }
      RunFacts(w, refreshes, maxRounds, old(Moment()), log, deeds, done, Moment());
    }

    // ------------------------------------------------- what giving up a block loses

    /**
      An early vote, for a block after the next, that is followed by an endorsed rival: the count
      is given up, and the early vote is neither counted nor placed back.
     */
    method EarlyVoteLost(early: Message, rival: Message, nOthers: nat, reqBlock: Block, ownVote: bool)
      returns (accepted: bool)
      requires Valid() && inbox == [early, rival] && net == [] && nOthers > 0
      requires early.Vote? && early.index > |bc.blocks| && Overtakes(Around(), reqBlock, rival)
      modifies this`inbox, this`net, this`sent, this`candidates, this`history
      ensures !accepted && Stream() == []
    {
      hide Voting.Legitimate, Linked, Sized, OnTop, Overtakes, GivenUpFor, CountedInOrder, Logged, Preserved, Served;
      ghost var w := Around();
      assert Stream() == [early, rival];
      ghost var count;
      accepted, count := CheckVotesForBlock(nOthers, reqBlock, ownVote);
      RivalGivesUp(w, reqBlock, nOthers + 1, early, rival, Noted(count).phase);
      LostAll([early, rival], Heard(count.steps), Stream());
    }
  }

  /** A peer that meets such a mailbox: all hashes are one zero byte, and so is the key. */
  method EarlyVoteLostExample(a: PeerAddress, b: PeerAddress) returns (p: Peer, accepted: bool)
    ensures !accepted && p.Stream() == []
  {
    var sha: Digest := x => [0];
    var bc := new Blockchain(sha, 0);
    p := new Peer(a, 1, bc, 1, []);
    var block := Block([], [0], [0]);
    var early, rival := Vote(b, 2, true, [0]), AddRequest(b, 1, [0], block);
    p.inbox := [early, rival];
    ZeroKeySolves(p.Around(), block, [0]);
    assert LexLe([0], [0]) && OnTop(p.Around(), block);
    assert p.Stream() == [early, rival] && p.Valid();
    accepted := p.EarlyVoteLost(early, rival, 1, block, true);
  }
}
