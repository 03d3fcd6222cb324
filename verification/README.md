# A model of the peer-to-peer blockchain

The system is a set of peers that keep a hash-linked chain of blocks.  A peer that wants to add a
block asks all others, everybody broadcasts a vote, and a block with a majority becomes a candidate;
the candidate with the least hash is appended.  Peers find each other through a tracker, all messages
travel in frames protected by a CRC, and the hashes are SHA-256.  This project models these parts and
proves what they are there for.

**Checksums and frames** (`Gf2`, `Words`, `Crc`, `CrcTheorems`, `CrcErrors`, `CrcOdd`, `Bytes`, `Frame`).
`Gf2` is an independent theory of polynomials over GF(2).  The in-place division of `calc_crc` is proved
to leave the remainder of the message modulo x^(16-d) P(x), for every divisor of degree d.  From this
follow the exact law of undetected errors for even lengths (the error pattern is a multiple of P), the two
accepted checksums, bursts, odd numbers of flipped bits and all single flips of a frame.  For odd lengths
the checksum is appended at an odd offset, so the round trip fails: the configured polynomial accepts its
own checksum of an odd-length message if and only if that checksum is 0 or 0x5192, and the message 01
is a concrete failure.

**The chain and its protocol** (`Chain`, `Messages`, `Majority`, `Sync`, `SyncProgress`, `LossFree`, `Voting`,
`Agreement`, `Selection`, `PeerSpec`, `Mailbox`, `Rounds`, `Counts`, `Requests`, `Determined`, `Bookkeeping`,
`Application`).  `Application.Peer` is the state of one peer; its methods are the protocol loops, with the mailbox
filled by an arbitrary environment; `Bookkeeping` holds the steps of their proofs.  They are proved against
specifications that are functions of the messages handled (`Sync`, `Voting`, `Majority`) and of the looks at the
mailbox (`Mailbox`, `Rounds`, `Counts`, `Requests`), and the theorems are about those:

- A peer has no choice: what a turn of its main loop does, and so every run of turns, is a function of its chain, its
  candidates, its pending transactions, and what is in its mailbox and still arrives there.
- A count of votes runs out of tries if and only if exactly ten looks for each voter found nothing.  A majority that is
  there before accepts, unless a request for the next block comes in between.
- A round of synchronisation reports if and only if some number of looks, less than ten of which find nothing, takes
  out replies that give a verdict.

- A synchronising peer never leaves the chain of the others.  How far it gets is decided by counting replies,
  late ones included: exactly which rounds bring the next block, which end synchronisation too early, and
  when it ends with the whole chain.
- When nothing is lost, and all others answer every request, this depends on how many others there are, because
  the answers left over by one round are counted in the next.  With at most two others a peer reaches the
  whole chain.  With an odd number of at least three it does so only if at most one block is missing, and
  otherwise stops after one block.  With an even number of at least four it does if at most two are missing, and
  otherwise it depends on the order of the answers; the exact condition is that no round which misses a block
  starts with left-over answers of half of the peers, rounded down.
- A winner reported once a block is named is final for every way to cast the outstanding votes.
- No peer accepts a block that another peer finds voted down, in any run of the state machine in `Agreement`.
  That machine is one attempt to add a block: it is proposed once, and each peer votes once.  Every count that
  the code makes within the attempt, under the index of the block, is such a run.  When a block is proposed
  again, verdicts of different attempts contradict each other only if somebody changes its ballot.
- A block that the peer voted for, and then appends, is appended with exactly the hash that was voted on; two peers
  that voted for the same hash hold the same chain before and after.
- Peers on equal chains that count the votes on the same blocks, to their ends, accept the same blocks and append
  the same one.
- No transaction of a peer is lost: it is pending until it has become a block.  Transactions and blocks that came
  from others make up exactly what is pending and what was added, so that data is added once per transaction done
  with if and only if no block of others holds it.

The hash function is abstract; theorems that need an injective hash with non-empty output say so.

**Hashing and proof of work** (`Sha256Spec`, `Sha256Constants`, `Sha256`, `HashCash`).  `Sha256Spec` is the one-shot
definition of sections 5.1.1 and 6.2.2 of FIPS 180-4; its constants are proved to be the roots they come from.  The
buffered class computes it for every way of cutting a message into pieces, as long as it is shorter than 2^29 bytes;
for longer messages the padding differs from the standard.  The search of the proof of work tries all keys of its
range in order, and so returns the first one that solves the puzzle.

**The tracker** (`Queue`, `Tracker`).  The ring buffer refines a bounded FIFO for every run.  The two threads
of the tracker are a state machine over their critical sections: in every interleaving at most one heartbeat
of an address waits, no guarded call fails, and a message is kept exactly when there is room and the last
heartbeat scanned up to it was no duplicate.

Where the code does not do what it seems meant to do, the model follows the code:

- `checkMajority` reports "no block" as soon as half of the peers have been heard and no block was named,
  even if later replies could outvote it (`Majority.EmptyVerdictFinal`, `Majority.EmptyVerdictIsPremature`).
- A reply with a block that does not fit still counts as the answer of its sender.  So when outdated replies
  are all that is heard, synchronisation ends early as soon as they come from half of the peers
  (`SyncProgress.StaleRepliesEndSync`), and `SyncProgress.MixedOutcome` says what happens when right replies are
  among them.  The answers that come too late for one round are enough for this when the number of
  others is odd and at least three (`SyncProgress.SurplusEndsSync`, `LossFree.LossFreeBySize`).  With a single other
  peer, half of the peers is none, so that any message ends a round (`SyncProgress.FreshOutcome`).
- A peer that voted against a block accepts it when the others outvote it (`Voting.OutvotedPeerAccepts`).
- When a block is given up for a rival, the messages deferred meanwhile are not placed back
  (`Application.Peer.CheckVotesForBlock`), so that an early vote is lost (`Application.Peer.EarlyVoteLost`).
- A rejected transaction stays pending, so that the same block can be proposed and voted on again, with
  another verdict (`Agreement.AttemptsDiffer`, `Agreement.NoConflictAcrossAttempts`).
- A peer votes on an outdated request under the index of the request, but counts the votes under its own next
  index; such a count can only reject (`PeerSpec.OutdatedCountRejects`).
- Peers can end with different verdicts when one of them runs out of tries (`Agreement.AcceptedAndTimedOut`).  When
  it is the proposer, the others append its block while its transaction stays pending, so that the same data can
  be added again (`Agreement.ProposerTimedOut`, `PeerSpec.AddedTwice`); `Agreement.ProposerAcceptsToo` and
  `PeerSpec.AddedOnceExactly` say when it is not.
- A candidate accepted against the own vote, because it does not fit the chain of the peer, is linked to that chain
  when it is appended, and so gets another hash than the one voted on (`Selection.AppendedAsVotedOn`).
- The `found` flag of the tracker is neither initialised nor reset for messages that are no heartbeats
  (`Tracker.KeptExactly`, `Tracker.StaleFlagDrops`).
- Two padding bytes of a frame header are not covered by any checksum (`Frame.SingleFlips`).
- The sum of buffered and new bytes in `update` has 32 bits; when it wraps around, the piece is dropped and
  buffered bytes with it (`Sha256.FedIsAppended`, `Sha256.WrappedPiece`).
- The offset of a block in `transform` is a signed 32-bit number, so that no more than 2^25 blocks can be read in
  one call (`Sha256.OffsetsFit`); longer pieces are outside of the model (`Sha256.Addressed`).
- The length field of the SHA-256 padding has 32 bits (`Sha256.PaddingAgrees`), and its header names
  FIPS 180-2; the definition is the same in FIPS 180-4.

## Model

| member | source | states |
|---|---|---|
| Gf2.RemainderUnique | application/p2p/crc.c:77-100 | a dividend has at most one remainder modulo a polynomial, so what the division returns is determined by it |
| Crc.Dpoly.CalcPolyLen | application/p2p/crc.c:24-49 | the length found is one more than the degree of the double-width divisor |
| Crc.Dpoly.Sl | application/p2p/crc.c:52-63 | the pair of words is multiplied by x^n, losing what leaves 32 bits |
| Crc.Dpoly.Sr | application/p2p/crc.c:66-75 | the pair of words is divided by x^n, losing the lowest coefficients |
| Crc.Shl32Exact | application/p2p/crc.c:79-80 | a left shift that fits 32 bits loses nothing |
| Crc.ShrShl | application/p2p/crc.c:92-96 | shifting left and then right by the same amount is lossless |
| Crc.DivisorRestored | application/p2p/crc.c:95-96 | after its sixteen single shifts the aligned divisor is restored exactly |
| Crc.ReduceBlock | application/p2p/crc.c:84-94 | the inner loop clears its block, leaves earlier blocks alone, shifts the divisor by 16 and keeps the remainder class of the data |
| Crc.CalcCrc | application/p2p/crc.c:78-100 | all leading blocks become zero and the last one is the remainder of the data modulo x^(16-d) P(x) |
| Crc.GetCrc | application/p2p/crc.c:102-122 | the checksum is M(x) x^16 modulo x^(16-d) P(x), an odd last byte being padded |
| Crc.CheckCrc | application/p2p/crc.c:124-138 | true exactly if the message followed by the two checksum bytes has checksum zero |
| CrcTheorems.CrcUnique | application/p2p/crc.c:102-122 | a message has exactly one checksum |
| CrcTheorems.CrcLinear | application/p2p/crc.c:102-122 | the checksum of the exclusive or of two messages is the exclusive or of their checksums |
| CrcTheorems.CrcLowBitsZero | application/p2p/crc.c:78-100 | for P of degree d every checksum is a multiple of x^(16-d) |
| CrcTheorems.CrcIsEven | application/p2p/crc.c:102-122 | with the configured polynomial the lowest bit of every checksum is 0 |
| CrcTheorems.ConfiguredPoly | application/config.h:5 | the configured polynomial has degree 15, constant term 1 and an even number of terms |
| CrcTheorems.ZeroCrc | application/p2p/crc.c:136-137 | a zero checksum means divisibility by P itself; the extra powers of x cancel |
| CrcTheorems.MessagePolyAppend | application/p2p/crc.c:126-130 | appending a checksum to a message of even length adds it as the lowest block |
| CrcTheorems.CheckIsDivisibility | application/p2p/crc.c:124-138 | for even lengths the check passes if and only if P divides M(x) x^16 + c(x) |
| CrcTheorems.CrcDivides | application/p2p/crc.c:102-122 | the checksum and M(x) x^16 differ by a multiple of P |
| CrcTheorems.AcceptsExactlyTwo | application/p2p/crc.c:124-138 | for even lengths exactly two checksums are accepted: the message's own, and its sum with P |
| CrcErrors.UndetectedErrors | application/p2p/crc.c:124-138 | for even lengths an error in message and checksum passes unnoticed if and only if P divides its pattern |
| CrcErrors.OwnCrcAccepted | application/p2p/crc.c:102-138 | for even lengths a message with its own checksum is accepted |
| CrcErrors.BurstDetected | application/p2p/crc.c:124-138 | every error burst of at most deg P bits over message and checksum is noticed |
| CrcErrors.ParityOfError | application/p2p/crc.c:106-111 | the error polynomial has an odd number of terms if and only if an odd number of bits is flipped, for messages of any length |
| CrcErrors.OddErrorsDetected | application/p2p/crc.c:124-138 | every odd number of flipped bits is noticed, because x + 1 divides the configured polynomial |
| CrcErrors.FlipIsMonomial | application/p2p/crc.c:106-111 | a flipped bit of the byte buffer is one coefficient of the message polynomial |
| CrcErrors.FlippedBitDetected | application/p2p/crc.c:124-138 | flipping any one bit of the message makes the check fail |
| CrcErrors.FlippedChecksumDetected | application/p2p/crc.c:124-138 | flipping any one bit of the checksum makes the check fail |
| CrcOdd.OddLengthCheck | application/p2p/crc.c:102-138 | for odd lengths a message with its own checksum is accepted if and only if that checksum is 0 or 0x5192 |
| CrcOdd.OddLengthCounterexample | application/p2p/crc.c:102-138 | the one-byte message 01 has checksum 0x75AA and is rejected with it |
| CrcOdd.OddFramePoly | application/p2p/crc.c:126-133 | the polynomial that the check divides when the checksum is placed at an odd offset |
| CrcOdd.DividesPower | application/p2p/crc.c:102-138 | P divides y (x^8 + 1) if and only if P / (x + 1) divides y |
| CrcOdd.ByteSolutions | application/p2p/crc.c:124-138 | the only checksums whose displaced bytes still satisfy the division are 0 and 0x5192 |
| Bytes.DecodeEncode | application/application.cc:22-32 | an integer that fits its field is read back from its little-endian bytes |
| Bytes.EncodeDecode | application/pow/hashcash.cc:78-86 | any byte string is the encoding of the number it stands for |
| Bytes.EncodeByte | application/application.cc:22-32 | byte i of an encoded integer has the weight 256^i, the lowest coming first |
| Frame.InitMessageHeader | application/p2p/common.c:7-15 | the header holds type, length and payload checksum, and the checksum of its covered bytes |
| Frame.InitNetworkInformation | application/p2p/common.c:49-66 | the frame is a 24-byte header of type 1 followed by the payload, with both checksums right |
| Frame.CheckMessageCrc | application/p2p/common.c:39-47 | decides whether both checksums are accepted and leaves the frame as it was |
| Frame.FlipRandomBit | application/p2p/common.c:131-139 | exactly the chosen bit of the chosen byte is flipped |
| Frame.BuiltFrameAccepted | application/p2p/common.c:39-66 | a frame built from a payload of even length is accepted |
| Frame.OddFrameAccepted | application/p2p/common.c:39-66 | a frame built from a payload of odd length is accepted if and only if its payload checksum is 0 or 0x5192 |
| Frame.PayloadFlip | application/p2p/common.c:42-44 | a flipped payload bit is noticed |
| Frame.HeaderFlip | application/p2p/common.c:41-43 | a flipped covered header bit outside the checksum field is noticed |
| Frame.ChecksumFlip | application/p2p/common.c:41-43 | a flipped bit of the header checksum is noticed |
| Frame.PaddingFlip | application/p2p/common.c:43-43 | a flipped bit of the two uncovered bytes is not noticed |
| Frame.SingleFlips | application/p2p/common.c:39-47 | of all single flipped bits of a frame, exactly those in bytes 22 and 23 get through |
| Chain.Blockchain.constructor | application/blockchain/blockchain.h:72-85 | the chain starts as the block of all-zero data without a predecessor, whose hash is the digest of that data |
| Chain.Blockchain.AddBlock | application/blockchain/blockchain.h:93-98 | appends the block that links the data to the top, its hash being the digest of data and top hash, and keeps the chain linked |
| Chain.Blockchain.SneakPeekBlock | application/blockchain/blockchain.h:87-91 | returns the block that AddBlock would append, with that hash, without appending it |
| Chain.BlockHashInjective | application/application.cc:88-99 | under an injective hash, two sealed blocks with data of one size and equal hashes are equal |
| Chain.TopHashDetermines | application/blockchain/blockchain.h:72-98 | under an injective, non-empty hash, linked chains with equal top hashes are equal in length and every block |
| Chain.FitsOnlyThere | application/blockchain/blockchain.h:93-98 | a block of a chain that points at the top of a prefix is the block following that prefix |
| Chain.LinkedIsReachable | application/blockchain/blockchain.h:72-98 | every linked chain is produced by the constructor and AddBlock |
| Chain.ReachableIsLinked | application/blockchain/blockchain.h:72-98 | every chain produced by the constructor and AddBlock is hash-linked from genesis |
| Chain.ReachableChainsAgree | application/blockchain/blockchain.h:72-98 | two reachable chains with equal top hashes are equal and were built from the same data |
| Messages.BlockRoundTrip | application/application.cc:7-54 | a block with hashes of any length is read back unchanged from its bytes, whatever follows them |
| Messages.AddressRoundTrip | application/p2p/common.c:20-26 | an address is read back from its eight bytes |
| Messages.HeaderRoundTrip | application/application.h:52-56 | type, sender and index are read back from the common header |
| Messages.BlockReplyRoundTrip | application/application.cc:463-502 | a block sent in reply is read back unchanged |
| Messages.VoteRoundTrip | application/application.cc:559-564 | a vote is read back with its verdict and hash |
| Messages.AddRequestRoundTrip | application/application.cc:758-775 | a request to add a block is read back with its key and block |
| Messages.MessageRoundTrip | application/application.h:43-76 | every message of the protocol is read back as it was sent |
| Messages.WireHeader | application/application.h:43-56 | where type, sender, padding and index lie in the first 24 bytes, and which type has which number |
| Messages.WireBody | application/application.h:58-76 | what follows the header of each message, byte by byte |
| Majority.TopTwoDecides | application/application.cc:232-265 | the two greatest values, with multiplicity, decide whether somebody leads by more than the outstanding votes |
| Majority.CheckMajority | application/application.cc:217-273 | the scan reports exactly the verdict: the leader among "no block" and all blocks, or nothing yet |
| Majority.SettledIffLeads | application/application.cc:258-265 | a lead by more than the outstanding votes is exactly what makes an outcome final for every way to cast them |
| Majority.VerdictIsFinal | application/application.cc:228-265 | once a block is named, a winner is reported if and only if it stays strictly first however the outstanding votes are cast |
| Majority.EmptyVerdictFinal | application/application.cc:266-270 | with no block named "no block" is reported at once, and is final if and only if it outnumbers the missing replies |
| Majority.EmptyVerdictIsPremature | application/application.cc:266-270 | a case where that report could still be overturned |
| Majority.VerdictInAnyOrder | application/application.cc:230-265 | the report does not depend on the order in which the blocks are looked at |
| Sync.OutcomeWasReplied | application/application.cc:344-363 | a block reported by a round was named in a reply it handled |
| Sync.OnlyNextBlock | application/application.cc:344-363 | if all blocks replied come from chain c, only the next block of c is ever counted |
| Sync.RoundSafe | application/application.cc:286-437 | a round on a prefix of c reports nothing, the end, or the next block of c, whatever is lost, stale or reordered |
| Sync.SyncSafe | application/application.cc:439-460 | a chain that starts as a prefix of c stays one through every run of rounds |
| Sync.RoundReportsExactly | application/application.cc:217-363 | a round reports the end if and only if half of the peers are seen and the next block is unnamed or beaten by "no block", and the next block if and only if it leads by more than the peers not seen |
| SyncProgress.RoundByCounting | application/application.cc:217-396 | what a round reports is a function of how many peers were heard, how many first named the next block, and how many said that there is none |
| SyncProgress.GainedExactly | application/application.cc:316-431 | with replies that name blocks of c, late ones allowed, a round gains the next block if and only if some beginning wins it before half of the peers are heard without naming it |
| SyncProgress.MixedOutcome | application/application.cc:217-396 | the report on block replies of different peers, for every number of them and of those in time |
| SyncProgress.FreshOutcome | application/application.cc:286-437 | with up-to-date replies, exactly what a round reports for every number of them: the next block from a majority on, the end from half of the peers on, nothing before; with a single other peer any message ends a round |
| SyncProgress.ProgressExactly | application/application.cc:439-460 | whatever is lost, late, repeated or reordered, a run gains one block of c per settled round, and ends with the whole of c if and only if no round ends early and more are settled than blocks are missing |
| SyncProgress.SyncCompletes | application/application.cc:439-460 | if every round is settled, synchronisation ends with the whole of c after one round per missing block and one more |
| SyncProgress.FreshRoundMade | application/application.cc:228-269 | up-to-date replies of different peers end a round at exactly n/2 + 1 of them, or at the greater of 1 and n/2 when no block is missing |
| SyncProgress.StaleRepliesEndSync | application/application.cc:345-363 | for every number of peers, a round that hears only outdated block replies of different peers ends synchronisation if and only if they are at least half of them |
| SyncProgress.SurplusEndsSync | application/application.cc:345-363 | with an odd number of at least three others, the answers left over by a round that all have answered end synchronisation in the next |
| LossFree.LossFreeRound | application/application.cc:286-437 | when all others answer, a round finds the next block, or ends synchronisation early exactly if left-over answers come from half of the peers |
| LossFree.RoundHappens | application/application.cc:316-431 | for every mailbox there is a round that takes its messages in order and ends with the first report, or with the last message |
| LossFree.LossFreeExactly | application/application.cc:439-460 | a loss-free run always ends, and with the whole of c if and only if no round that misses a block starts with that many left-over answers |
| LossFree.LossFreeBySize | application/application.cc:439-460 | a loss-free run reaches the whole of c with at most two others, with at most one block missing, or with at most two and an even number; with an odd number of at least three and more missing it stops after one block |
| LossFree.PromptPeersFirst | application/application.cc:439-460 | with an even number of at least four and three blocks missing, it stops after two blocks if half of the peers answer before those that were late |
| LossFree.LatePeersFirst | application/application.cc:439-460 | with an even number it reaches the whole of c if the peers that were late always answer first |
| Sync.RunSnoc | application/application.cc:447-459 | one more round extends a run by exactly what that round reports |
| Voting.FoldCounts | application/application.cc:621-633 | agrees and disagrees add up to the distinct voters heard plus one |
| Voting.AcceptedByMajority | application/application.cc:709-743 | however a count ends, an accepted block has the votes of more than half of all voters |
| Voting.RejectedByHalf | application/application.cc:709-743 | a block that lost, rather than being given up, has at least half of all votes against it |
| Voting.OutvotedPeerAccepts | application/application.cc:571-572 | a peer that voted against a block accepts it when more than half of all voters agree |
| Voting.CountsAreVoters | application/application.cc:621-633 | the counters are the numbers of distinct voters heard on each side, plus the own vote |
| Voting.CountBound | application/application.cc:582-633 | each counter is at most the number of peers that really voted this way |
| Voting.NoConflict | application/application.cc:582-744 | quorum intersection: no peer accepts a block that another finds voted down, if ballots are authentic for both counts |
| Voting.AttemptsAgree | application/application.cc:582-744 | two counts of one peer on one block, with the same own vote and ballots, do not contradict each other |
| Agreement.NextInv | application/application.cc:504-744 | every step of the voting state machine keeps its invariant |
| Agreement.BehaviourInv | application/application.cc:504-811 | the invariant holds in every state of every behaviour |
| Agreement.NoConflictingVerdicts | application/application.cc:504-811 | in every run of one attempt to add a block, under any loss, repetition and order of delivery, if one peer accepts then nobody rejects by votes |
| Agreement.DoneStays | application/application.cc:709-743 | within one attempt a verdict is never revised |
| Agreement.AcceptedAndTimedOut | application/application.cc:726-731 | a run in which the proposer accepts while another peer runs out of tries |
| Agreement.ProposerTimedOut | application/application.cc:726-731 | a run in which another peer accepts while the proposer runs out of tries |
| Agreement.ProposerAcceptsToo | application/application.cc:582-811 | once another peer has accepted, the proposer accepts if and only if its count was not given up |
| Agreement.CountIsRun | application/application.cc:582-744 | every legitimate count at the index of the block, on votes that are ballots of the attempt, is a run of that machine, delivered message by message |
| Agreement.AttemptsDiffer | application/application.cc:746-748 | a block proposed twice, unchanged: in one attempt the proposer finds it voted down, in the other it accepts |
| Agreement.NoConflictAcrossAttempts | application/application.cc:582-811 | if nobody changes its ballot between two attempts, no peer accepts in one what another finds voted down in the other |
| Selection.LexTotal | application/application.cc:852-852 | the order of the hashes is total |
| Selection.LexAntisymmetric | application/application.cc:852-852 | hashes that compare as equal are equal |
| Selection.LexTransitive | application/application.cc:852-852 | the order of the hashes is transitive |
| Selection.LexByFirstDifference | application/application.cc:852-852 | where two hashes first differ, the one with the smaller byte is the smaller one |
| Selection.LexOfPrefix | application/application.cc:852-852 | if they do not differ before one ends, the shorter one is |
| Selection.SelectCandidate | application/application.cc:844-860 | picks the last of the candidates with the least hash, and none exactly if there is no candidate |
| Selection.SelectionAgrees | application/application.cc:844-860 | peers with equal chains and the same candidates, in any order and multiplicity, append equal blocks |
| PeerSpec.EndorsedAppendedAsIs | application/application.cc:504-556 | by the log of counts, a block that this peer voted for, then chosen and appended on the same chain, has exactly the hash voted on |
| PeerSpec.EndorsersAppendAlike | application/application.cc:535-556 | under an injective hash, two peers that voted for blocks with the same hash hold the same chain, and appending that block takes them to the same chain again |
| PeerSpec.SameVerdict | application/application.cc:709-743 | two peers on equal chains whose counts on one block end by votes really cast have the same verdict |
| PeerSpec.PeersAppendAlike | application/application.cc:504-579 | if they count the votes on the same blocks, they have the same candidates, choose the same one, and their chains are equal again |
| PeerSpec.OutdatedCountRejects | application/application.cc:535-541 | a count on a block of a shorter chain, made at this peer's own index among votes on blocks that fit the index they name, never accepts |
| PeerSpec.HonestProposalEndorsed | application/application.cc:504-556 | a proposal reaches every peer with the same chain unchanged, and passes all checks if and only if its key solves the puzzle seeded with the digest of its data, hash and previous hash |
| Application.Peer.ClientFound | application/application.cc:275-284 | decides whether an address has been seen |
| Application.Peer.PlaceBack | application/application.cc:57-71 | the deferred messages are at the end of the mailbox again |
| Application.Peer.SendBlockchain | application/application.cc:463-502 | sends the block asked for, or that there is none |
| Application.Peer.HandleReply | application/application.cc:326-396 | one reply changes the tally of a round, the deferred messages and what is sent as specified |
| Application.Peer.CollectReplies | application/application.cc:316-431 | the loop of a round makes exactly the looks that it takes: to the first report, to the last peer, or to ten looks that find nothing; it reports the first verdict that any beginning gives, and answers earlier indices |
| Application.Peer.RequestBlockchainBlock | application/application.cc:286-437 | a round reports the specified outcome of what it handled, always does so if some beginning of the locked mailbox gives a verdict, and puts back exactly the deferred requests |
| Application.Peer.RequestBlockchain | application/application.cc:439-460 | the chain, the mailbox and what is sent end as the run of rounds that the mailbox determines; it stops at the end reported or when it is cut off |
| Application.Peer.RequestNext | application/application.cc:447-459 | one round and what it leads to: one block more, the end, or another try, exactly as its replies say |
| Rounds.ReportsExactly | application/application.cc:286-437 | a round reports if and only if some number of looks, less than ten of which find nothing, takes out replies that give a verdict |
| Rounds.SilentRound | application/application.cc:316-431 | a round with no report has heard all peers, or exactly ten of its looks found nothing |
| Rounds.LockedReports | application/application.cc:316-431 | if some beginning of what the locked mailbox holds gives a verdict, the round reports one |
| Rounds.RoundsOnce | application/application.cc:439-460 | the mailbox determines how many looks each round of a run makes |
| Mailbox.TakenThenRest | application/application.cc:316-334 | what was taken out, followed by what is still to come, is everything there was, in order |
| Mailbox.LockedTaken | application/application.cc:316-334 | the first looks take what the locked mailbox holds, in order, and none of them finds nothing |
| PeerSpec.SynchronisedPrefix | application/application.cc:439-460 | a peer whose mailbox holds only blocks of chain c stays on a prefix of c while it synchronises |
| PeerSpec.SynchronisedExactly | application/application.cc:439-460 | the rounds of `RequestBlockchain` end with the whole of c if and only if none ends early and enough are settled |
| PeerSpec.SynchronisedLossFree | application/application.cc:439-460 | when nothing is lost, `RequestBlockchain` gets as far as the number of others allows |
| Application.Peer.CountVote | application/application.cc:616-633 | one vote changes the counters as specified |
| Application.Peer.HandleOther | application/application.cc:638-707 | other messages are answered, deferred or voted on; the own block is given up exactly for an endorsed rival whose hash is not larger |
| Application.Peer.HandleMessage | application/application.cc:609-707 | one message is counted as a vote, answered, deferred or voted on, and changes the counters only in the first case |
| Application.Peer.LookForVote | application/application.cc:600-707 | one look: nothing, a message dealt with at once, or a rival that is voted on as it deserves and counted |
| Application.Peer.AwaitVotes | application/application.cc:600-743 | the count makes exactly the looks that it takes: to the first message that settles it or gives the block up, or to ten looks for each voter that find nothing; every look, and what is done about it, is recorded |
| Application.Peer.CheckVotesForBlock | application/application.cc:582-744 | the verdict is the one of the only count that the mailbox allows; messages that are useless for now stay in the mailbox unless the block was given up, when all handled ones are gone |
| Counts.TimedOutExactly | application/application.cc:726-731 | a count runs out of tries if and only if exactly ten looks for each voter found nothing |
| Counts.MajorityInTime | application/application.cc:600-743 | a majority in favour that comes before that many empty looks, and with no request for the next block, is accepted |
| Counts.CountOnce | application/application.cc:582-744 | from a given mailbox there is exactly one way for a count to go, the counts on rivals within it included |
| Application.Peer.EarlyVoteLost | application/application.cc:675-677 | an early vote followed by an endorsed rival is neither counted nor placed back |
| Application.EarlyVoteLostExample | application/application.cc:675-677 | a peer and a mailbox for which this happens |
| Application.Peer.DecideVote | application/application.cc:535-556 | the vote is in favour exactly if it may be and the request passes all four checks |
| Application.Peer.AwaitVerdict | application/application.cc:571-577 | the count that the mailbox determines is made and logged, and the block becomes a candidate exactly if that count accepts it |
| Application.Peer.HandleBlockAdditionRequest | application/application.cc:504-579 | an early request is put back; otherwise the right vote is broadcast, the votes are counted in the way the mailbox determines, and the mailbox never grows |
| Application.Peer.AddBlockToBlockchain | application/application.cc:746-811 | the request goes out with the first key that there is, its votes are counted with the own vote in favour, the verdict is sent as own vote, and the block is a candidate exactly if accepted |
| Application.Peer.HandleRequests | application/application.cc:819-842 | all messages of the mailbox are taken; every request for the next index is voted on as it deserves and its votes are counted, and all others are left to be put back |
| Application.Peer.HandleAllBlockAdditionRequests | application/application.cc:813-866 | returns the candidate with the least hash among the old ones and those that the counts on all requests accept, and puts the rest back |
| Application.Peer.AppendBest | application/application.cc:904-907 | requests are served and the best candidate is linked to the top of the chain, or nothing is if there is none; a candidate this peer voted for is appended as it was voted on |
| Application.Peer.ProcessAddRequest | application/application.cc:900-914 | after synchronising, the request is voted on as it deserves, its votes are counted, and the least accepted candidate is appended, with the hash voted on if this peer voted for it |
| Application.Peer.ProposeAndAppend | application/application.cc:934-937 | the own block is submitted and counted; its place among the candidates is noted exactly if that count accepts it, right behind all blocks accepted before; the least accepted candidate is appended |
| Application.Peer.ProposeInTurn | application/application.cc:932-937 | the same after synchronising, on the chain reached then |
| Application.Peer.ProcessTransaction | application/application.cc:928-951 | the transaction is removed if and only if the own block was accepted and its place among the candidates is that of the block appended |
| Application.Peer.Dispatch | application/application.cc:892-921 | a message taken from the mailbox is dealt with: a request for a block is answered with the block or its absence, a request to add one with vote and count on the chain reached by then, and others with nothing |
| Application.Peer.WorkAlone | application/application.cc:925-960 | with an empty mailbox the first transaction is proposed, or the peer synchronises if there is none; a transaction no longer pending is the last block |
| Application.Peer.Refresh | application/application.cc:873-879 | a turn after an absence is a synchronisation and nothing else |
| Requests.LonePeerSucceeds | application/application.cc:925-949 | with nobody else and an empty mailbox, a turn adds the block of the first transaction and removes that transaction |
| Application.Peer.Turn | application/application.cc:873-963 | the turn is the one that mailbox and pending transactions determine; the first message of the locked mailbox is dealt with, a transaction no longer pending is the last block, and a lone peer with an empty mailbox always gets its first transaction done |
| Application.Peer.Run | application/application.cc:868-969 | the log of any number of turns, each of them determined by where it starts: the chain only grows, and every transaction, with multiplicity, is pending or has become a block |
| Determined.TurnOnce | application/application.cc:868-969 | two turns that start alike end alike, in chain, mailbox, candidates, log, messages sent and pending transactions |
| Determined.RunOnce | application/application.cc:868-969 | so do two runs, turn by turn |
| PeerSpec.TurnsConserve | application/application.cc:928-951 | over any number of turns, pending transactions and the blocks of others make up exactly what is pending then and what was added |
| PeerSpec.AddedOnceExactly | application/application.cc:938-949 | data is added as often as transactions with it are done with if and only if no block of others holds it |
| PeerSpec.AddedTwice | application/application.cc:938-949 | a block given up here comes back with a synchronisation, and its data is added again |
| Sha256Spec.CompressConcat | application/sha256/sha256.cc:23-59 | compressing two runs of blocks one after the other compresses their concatenation |
| Sha256Spec.PackIsBigEndian | application/sha256/sha256.h:83-89 | the first of the four bytes of a word has the highest weight |
| Sha256Spec.PackUnpack | application/sha256/sha256.h:76-89 | a word is read back from its four bytes |
| Sha256Spec.UnpackPack | application/sha256/sha256.h:76-89 | so are four bytes from their word |
| Sha256Constants.RoundConstants | application/sha256/sha256.cc:5-21 | each of the 64 round constants is the first 32 bits of the fractional part of the cube root of its prime |
| Sha256Constants.InitialHash | application/sha256/sha256.cc:61-73 | the initial hash is the first 32 bits of the fractional parts of the square roots of the first eight primes |
| Sha256.ScheduleWords | application/sha256/sha256.cc:32-37 | the 64 words are the message schedule of the block |
| Sha256.DoRounds | application/sha256/sha256.cc:41-53 | the working variables go through the 64 rounds of the standard |
| Sha256.AddRegisters | application/sha256/sha256.cc:54-56 | the working variables are added to the hash |
| Sha256.Sha256.Init | application/sha256/sha256.cc:61-73 | the object represents the empty message |
| Sha256.Sha256.TransformBlock | application/sha256/sha256.cc:30-57 | the hash goes through the compression of one block |
| Sha256.OffsetsFit | application/sha256/sha256.cc:29-32 | up to 2^25 blocks, and no more, have offsets that fit a signed 32-bit number |
| Sha256.Sha256.Transform | application/sha256/sha256.cc:23-59 | the hash goes through the compression of that many blocks, in order, as long as their offsets fit |
| Sha256.Sha256.Update | application/sha256/sha256.cc:75-96 | the object represents the old message followed by the piece, wherever the block boundaries fall, or what a wrapped sum leaves; the piece has no more whole blocks than there are offsets |
| Sha256.FedIsAppended | application/sha256/sha256.cc:79-96 | of the pieces that can be read, exactly those with a sum of buffered and new bytes below 2^31 + 128 are appended |
| Sha256.WrappedPiece | application/sha256/sha256.cc:79-85 | if it wraps around, the piece is dropped and so are 2^32 minus its length of the buffered bytes |
| Sha256.Sha256.CompressPiece | application/sha256/sha256.cc:86-95 | the full buffer and then the whole blocks of the piece, at most 2^25, are compressed, and the rest is buffered |
| Sha256.SmallPiece | application/sha256/sha256.cc:79-85 | a piece that does not complete the buffered block only extends the tail |
| Sha256.LargePiece | application/sha256/sha256.cc:86-95 | a larger piece completes the buffered block, adds whole blocks and leaves the new tail |
| Sha256.PadBuffer | application/sha256/sha256.cc:107-110 | the buffer holds tail, marker, zeros and length |
| Sha256.FinalBlocks | application/sha256/sha256.cc:98-111 | one or two last blocks, depending on the tail, complete the padded message |
| Sha256.Sha256.Final | application/sha256/sha256.cc:98-115 | delivers the digest of everything passed to update, with the 32-bit length field |
| Sha256.PaddingAgrees | application/sha256/sha256.cc:103-110 | below 2^61 bytes that padding is the one of the standard if and only if the message is shorter than 2^29 bytes |
| Sha256.DigestAgrees | application/sha256/sha256.cc:98-115 | for messages shorter than 2^29 bytes the digest is the one of the standard |
| Sha256.DigestOfChunks | application/sha256/sha256.cc:61-115 | for every sequence of updates that can be read, the digest is that of the bytes they leave, which is the concatenation if no piece exceeds 2^31 + 64 bytes; below 2^29 bytes in all it is the digest of the standard |
| Sha256.HexInjective | application/sha256/sha256.cc:128-131 | different digests print differently |
| Sha256.HexReadBack | application/sha256/sha256.cc:128-131 | the two digits at each place are hexadecimal and read back as the byte there, the higher one first |
| Sha256.Sha256Hex | application/sha256/sha256.cc:117-132 | the 64 lower-case digits of the digest of the string, whose length is passed on as 32 bits and is such that it can be read |
| HashCash.MaskDecidesBit | application/pow/hashcash.cc:23-39 | the sign-extended mask covers all higher bits of the byte, which are known to be zero, so it decides one bit |
| HashCash.CountZeroes | application/pow/hashcash.cc:16-45 | true exactly if the string has enough bits and the leading ones are zero; difficulty 0 acts as 1 |
| HashCash.ComputeXorStrings | application/pow/hashcash.cc:47-53 | the first string with the second added bytewise |
| HashCash.CheckSolution | application/pow/hashcash.cc:101-106 | decides whether the key solves the puzzle |
| HashCash.SolutionAgrees | application/pow/hashcash.cc:101-106 | a key solves the puzzle if and only if its digest agrees with the seed in the leading bits |
| HashCash.LastByte | application/pow/hashcash.cc:63-71 | the length grows exactly when the key has reached 255 256^(n-1) |
| HashCash.Increment | application/pow/hashcash.cc:78-86 | the carry loop adds one to the little-endian value of the key |
| HashCash.SolveProblem | application/pow/hashcash.cc:55-99 | terminates with the first key of 1 to 16 bytes, by length and then little-endian value, that solves the puzzle, or with fifteen zero bytes and 0xFF if none does |
| HashCash.KeysDistinct | application/pow/hashcash.cc:55-99 | no key is tried twice |
| HashCash.SearchIsComplete | application/pow/hashcash.cc:55-99 | the key returned is a solution if and only if the range of keys contains one, and is the last key of the range otherwise |
| Determined.FirstKeyOnce | application/pow/hashcash.cc:55-99 | there is only one key that the search can return |
| Queue.IndexIsSlot | application/p2p/queue.c:62-62 | the unsigned 64-bit index is the right slot if and only if top - back + max fits 64 bits |
| Queue.HoldsAfterEnqueue | application/p2p/queue.c:35-40 | storing at top and advancing it appends to the sequence held |
| Queue.HoldsAfterDequeue | application/p2p/queue.c:61-64 | shrinking the size removes the oldest item of the sequence held, which is at the computed slot |
| Queue.QueueLock.constructor | application/p2p/queue.c:3-15 | the queue is empty and has the capacity asked for |
| Queue.QueueLock.IsFull | application/p2p/queue.c:22-24 | full exactly at capacity |
| Queue.QueueLock.IsEmpty | application/p2p/queue.c:26-28 | empty exactly if nothing is held |
| Queue.QueueLock.Enqueue | application/p2p/queue.c:30-54 | does what a bounded FIFO does, failing exactly when full |
| Queue.QueueLock.Dequeue | application/p2p/queue.c:56-78 | does what a bounded FIFO does, yielding nothing exactly when empty |
| Queue.Run | application/p2p/queue.c:3-78 | every run of operations, for every capacity, gives the replies and contents of a bounded FIFO |
| Queue.FifoConserves | application/p2p/queue.c:30-78 | what was accepted is what was delivered followed by what is held, in order, and the bound holds |
| Tracker.Scan | application/p2p/tracker.c:186-210 | found exactly if a heartbeat of the same address is waiting |
| Tracker.SameAddress | application/p2p/tracker.c:198-198 | addresses compare as equal exactly if family, port and number are |
| Tracker.HandleItem | application/p2p/tracker.c:183-225 | undisturbed, a message is admitted exactly if the flag is down and there is room |
| Tracker.TakeRequest | application/p2p/tracker.c:124-143 | takes the oldest item, or waits exactly if there is none |
| Tracker.BehaviourInv | application/p2p/tracker.c:120-225 | every state of every interleaving satisfies the invariant of the two threads |
| Tracker.Safety | application/p2p/tracker.c:120-225 | in every interleaving at most one heartbeat per address waits, no guarded call fails, and nothing is lost or reordered |
| Tracker.KeptExactly | application/p2p/tracker.c:161-225 | in every interleaving a message is kept if and only if there is room and the last heartbeat up to it was no duplicate |
| Tracker.UndisturbedIsAdmit | application/p2p/tracker.c:183-225 | the steps of the machine with no interleaving are what the sequential code does |
| Tracker.StaleFlagDrops | application/p2p/tracker.c:212-225 | a run in which an exit message is dropped although the queue is empty |

## Left out

- Sockets, `recvfrom` and `sendto`, sleeps and real time: arrivals are an arbitrary sequence of batches, waiting is a counter of tries, and what is sent is a log.
- Threads and locks as such: a critical section is one step, and the unlocked reads of the queue size are atomic steps.
- The peer database, the lists of known peers, and changing membership: the number of other peers is fixed for a peer, and so is the set of voters in `Agreement`.
- Dishonest voters: the agreement theorem assumes that a vote on the block is the ballot its sender really cast; it does allow loss, repetition and reordering.
- Agreement.NoConflictingVerdicts: is about one attempt, in which a block is proposed once and each peer votes once; for the same block proposed again, see `AttemptsDiffer` and `NoConflictAcrossAttempts`.
- Agreement.DoneStays: holds within one attempt only, for the same reason.
- Agreement.CountIsRun: covers counts under the index of the block; a count on an outdated request is made under another index, and `PeerSpec.OutdatedCountRejects` is about it.
- Collision resistance: theorems about chains assume an injective hash; `Sha256` works on bit vectors and is not substituted for the abstract hash.
- Application.Peer.RequestBlockchain: cut off after a number of rounds chosen by the environment, because the code repeats rounds for ever when no verdict is reached.
- Application.Peer.HandleReply: the body of the loop in `RequestBlockchainBlock` as a method of its own; `CollectReplies`, `RequestNext`, `HandleMessage`, `HandleOther`, `CountVote`, `LookForVote`, `AwaitVotes`, `AwaitVerdict`, `DecideVote`, `HandleRequests`, `ProposeAndAppend`, `ProposeInTurn`, `Dispatch`, `WorkAlone`, `Refresh` and `Sha256.Sha256.CompressPiece` are parts of their functions in the same way.
- Application.Peer.ProcessTransaction: blocks are values, so the comparison of pointers is one of places in the list of candidates; log entries are not modelled.
- Application.Peer.Run: covers finitely many turns, each online; which of them refresh is up to the environment, and a run ends where synchronisation was cut off.
- Messages that are shorter than the lengths they contain: the code would read outside of them; `Messages.Parse` answers that there is no message, and the protocol works on parsed messages.
- The map of replies is a sequence of entries, one per hash, in order of arrival; the verdict does not depend on their order (`Majority.VerdictInAnyOrder`).
- Crc.CalcCrc: requires that exactly one half of the divisor is non-zero, as in its only call; with both halves set the divisor does not fit one block.
- Crc.Dpoly.CalcPolyLen: a zero divisor, for which the code returns an uninitialised value, is excluded.
- HashCash.ComputeXorStrings: bytes past the end of the second string count as zero, which the C++ standard promises for the first of them only; digests of a seed of the same length never get there.
- Queue.QueueLock.constructor: the capacity is such that 8 bytes an item fit the address space, and failures of `malloc` are not modelled.
- Queue.Run: for those capacities; with more items the size passed to `malloc` would wrap around.
- Sha256.Sha256.Transform: more than 2^25 blocks in one call, for which the shift of the signed block index overflows, are excluded; so are, in `Update`, `CompressPiece`, `DigestOfChunks` and `Sha256Hex`, pieces with more whole blocks after the buffered one.
- LossFree.LossFreeExactly: answers of one round do not overtake those of an earlier one, and nothing but answers arrives; runs with other messages, losses and any order are the subject of `SyncProgress.ProgressExactly`.
- Tracker.HandleItem: starts after the two checksum tests, which are in `Frame`; the header looked at first is assumed to be the one of the message read afterwards.
- `PopBlock`, `GetHashAtIndex`, `GetHashFromBlock`, logging, printing, plotting, scripts, transaction files and memory management.
