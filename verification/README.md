# RNR node: a verified model

This project models the deterministic core of the RNR blockchain node, a Go program, in Dafny 4.11 and proves
properties of it: finality and accountability, fork choice and ancestry, block sync, the ledger and block rewards,
atomic state commits, the time-windowed caches of the network layer, and the algorithms the consensus code relies on.

`dafny verify dfyconfig.toml` checks everything.

## How the model is built

Each mutex-guarded object of the source is a class with the source's fields. Its methods follow the source branch by
branch and are proved equal to a step function on plain values; the theorems are about those functions, over whole runs
where the property is about runs.

| file | models |
|---|---|
| `Voting.dfy`, `VoteStore.dfy`, `VotingRuns.dfy` | vote sessions, the persistent vote index and its migrating loader, runs with restarts |
| `Slashing.dfy`, `Accountability.dfy` | the first-vote tracker; what two conflicting finalized blocks cost |
| `Blocks.dfy`, `Chain.dfy`, `Sync.dfy` | the hash-linked store and the catch-up protocol |
| `ForkChoice.dfy`, `Ancestry.dfy` | the reorganization rule, block lookup, chain work, the lowest common ancestor |
| `Ledger.dfy`, `Rewards.dfy`, `Finalization.dfy` | transactions, block rewards, the supply |
| `AtomicMachine.dfy`, `CommitRuns.dfy`, `CrashSafety.dfy` | staged updates, commits and crashes as single steps over shared account objects |
| `AtomicState.dfy` | the classes that run those steps |
| `RateLimiter.dfy`, `Gossip.dfy`, `IpReputation.dfy` | token buckets, the forgetting seen-set, the subnet counter index |
| `Merkle.dfy`, `Median.dfy`, `VrfSelection.dfy`, `Retarget.dfy`, `Signatures.dfy` | the algorithms |
| `Prelude.dfy`, `Sequences.dfy`, `MapSums.dfy`, `ByteCodec.dfy` | shared types and facts |

Conventions:

- Time is a parameter of every call that reads the clock, in nanoseconds. `uint64` is a bounded integer and its
  wrap-around is written out.
- SHA-256, `generateVoteID`, `ecdsa.Verify`, the square root for legacy keys, IP parsing and subnet masking are function
  parameters. Collision freedom is a hypothesis only where a statement says so; the Merkle theorem instead produces a
  collision.
- `int(float64(n) * 0.85)` is written `17 * n / 20` (equal for every validator count below three million). Scores,
  thresholds and test results are real numbers.
- LevelDB is a map. A write that may fail is a parameter of the call, so the error paths are modelled.
- Ranging over a Go map is a loop that picks any remaining key; results are proved independent of the picks.
- `state.go` is not part of the repository. An unknown address reads as balance 0 and nonce 0 in a new account object
  that is stored only by `UpdateAccount`; a known address yields the stored object itself. A restarted node holds every
  stored record in memory, each account in a new object.
- `AtomicState` methods report, as ghost results, the machine steps they took and the account objects in use, so that
  every theorem about runs of steps holds of runs of calls, stopped anywhere.

## Where the code does not do what it says

Each of these is a lemma with the exact condition or a concrete case.

- A vote signature is `r.Bytes()` followed by `s.Bytes()` without lengths, is refused under 32 bytes and is cut in the
  middle; a vote is put to `ecdsa.Verify` as it was signed exactly when the signature has 32 bytes and `s` is as long as
  `r` or one byte longer (`SignedVoteIsJudgedIff`).
- The migrating loader loses a vote when another vote has its ID, or when it deletes a record it has just moved because
  another record's legacy ID is that key and comes later (`LoadKeepsPairsIff`, `LateDeletionExample`). IDs hash the block
  hash and the validator ID without a separator (`SameIDIff`, `DifferentPairsShareID`, `OneLengthDoesNotClash`). What is
  lost to a deletion that comes too late can be voted again (`RecordedIsFinalIff`), and failed writes, which are ignored,
  lose more (`PairOnDiskIff`).
- A vote whose write failed is only logged; it can be accepted again after a restart (`AcceptedAgainIff`).
- With two validators each can finalize its own block unpunished (`TwoValidatorsCanSplit`).
- The height override of fork choice makes tips displace each other; nodes agree whatever the arrival order exactly when
  one tip is displaced by no other (`OverrideBreaksAgreement`, `TwoTipsAgreeIff`, `AllOrdersAgreeIff`).
- A block request with a batch size that wraps names an empty range and stalls the round (`RequestIsValidIff`).
- The proposer checks every transaction against one state but neither compares senders nor looks at the sign of an
  amount (`RepeatedSenderOverdraws`, `AmountSignIff`); blocks are safe in every order exactly when every account covers
  what is taken from it (`SafeInEveryOrderIff`).
- The block reward is converted through a signed integer: above 2^63 blocks it grows without bound (`RewardBoundedIff`).
- `ApplyTransactionAtomic` changes loaded account objects before the commit, so a failed commit is atomic on disk but not
  in memory (`FailedCommitIsCleanIff`, `TransferKeepsSyncIff`); memory and disk agree exactly when the moves that no
  commit saved cancel out (`InSyncIff`).
- Deleting idle rate-limit entries breaks the limit when a burst exceeds what the idle time refills (`LimitHoldsIff`). It
  also forgets violations, and later decisions on requests show it exactly when a deleted entry had any, with or without
  bans in between (`CleanupIsInvisibleIff`, `CleanupKeepsAnswersIff`, with the failing run in `ForgottenViolationsShow`);
  with byte traffic they always can (`CleanupIsInvisibleInTrafficIff`).
- The byte budget of a second can go through twice within a nanosecond, at the end of one second and after the reset
  that starts the next (`TwoBudgetsAtOnce`); never more, as long as the peer's entry stays (`ByteWindowBound`).
- A gossip message dated more than nine minutes ahead can be processed twice (`AcceptedTwiceIff`).
- A negative misbehaviour severity pushes a reputation score above 100 (`ScoreInRangeIff`).
- A Merkle root does not bind the number of leaves (`LengthIsNotBound`).
- A proposer range can belong to a validator that scores below one half, and then no proposer is valid for its values
  (`EveryValueHasProposerIff`).
- The range check is not sound for every list of scores. Somebody who owns nothing can pass exactly when the weights
  cancel out and the running weight passes zero at an eligible validator of one half (`OnlyOwnersPassIff`,
  `CancelledWeightPasses`), and two IDs can pass for one value exactly when two such validators' ranges overlap, which
  takes a negative score but not a weight of zero (`OnePassesPerValueIff`, `OverlapPassesTwo`).

## Model

| member | source | states |
|---|---|---|
| Voting.VotingManager.constructor | rnr/pkg/consensus/voting.go:49-64 | No sessions, and the index loaded in the iterator's order; with successful writes it is a restart on the disk |
| Voting.VotingManager.StartVotingSession | rnr/pkg/consensus/voting.go:70-97 | Opens a session with the supermajority quorum and the 15 s deadline, or refuses a second one for the block and changes nothing |
| Voting.VotingManager.CastVote | rnr/pkg/consensus/voting.go:99-201 | Every refusal in the source's order without a change; otherwise vote, index and disk record together, finalizing at the quorum |
| Voting.VotingManager.CheckFinality | rnr/pkg/consensus/voting.go:203-217 | Reports finality and vote count of an open session, an error otherwise |
| Voting.VotingManager.CleanupOldSessions | rnr/pkg/consensus/voting.go:240-254 | Exactly the sessions older than the age are gone; votes stay processed |
| Voting.VotingManager.LoadProcessedVotes | rnr/pkg/consensus/vote_replay_protection.go:95-150 | Database and index end as the migrating fold over the iterator's snapshot says, whichever of its writes fail |
| VoteStore.FailedWritesSpareIndex | rnr/pkg/consensus/vote_replay_protection.go:116-133 | The loaded index is the same whichever writes fail, and with none failing so is the database |
| VoteStore.PairOnDiskIff | rnr/pkg/consensus/vote_replay_protection.go:123-133 | Whichever writes fail, a pair is on disk after the load iff one of its records was touched by no write, or was moved to a key no later write touched |
| Voting.Quorum | rnr/pkg/consensus/voting.go:80-83 | The largest whole number not above 85% of the validators, raised to one; attainable from one validator on |
| VotingRuns.VoteIsAcceptedIff | rnr/pkg/consensus/voting.go:99-200 | Under any chain state a vote is accepted iff its session is open and not past its deadline, the pair is new, the validator is active, recorded and not suspended, and the curve accepts the two halves of its signature under the recorded key |
| VotingRuns.SignatureDecides | rnr/pkg/consensus/voting.go:172-183 | In an open session a new vote of a validator in good standing with a 64-byte key is accepted iff its signature has 32 bytes and the curve accepts it under the two coordinates |
| VotingRuns.HeldVotesAreJustified | rnr/pkg/consensus/voting.go:99-200 | Over every run each vote of each session was cast within 15 s of the start by a validator then active, recorded and not suspended, with a signature the curve accepts under its recorded key |
| VotingRuns.AcceptedVoteIsKept | rnr/pkg/consensus/voting.go:185-198 | An accepted vote is held as cast, marked processed, on disk exactly if the write succeeds, and dates the finality it completes |
| VotingRuns.SecondStartChangesNothing | rnr/pkg/consensus/voting.go:74-78 | Starting a session again keeps the first one with its votes |
| VotingRuns.CleanupEndsOldSessions | rnr/pkg/consensus/voting.go:240-254 | Exactly the sessions that started before the age are ended |
| VoteStore.LoadIsCanonical | rnr/pkg/consensus/vote_replay_protection.go:109-136 | After a load in any order every vote lies under its deterministic ID and carries it |
| VoteStore.LoadMarksAll | rnr/pkg/consensus/vote_replay_protection.go:116-121 | Every vote on disk is marked processed under its deterministic ID and nothing is unmarked |
| VoteStore.LoadAddsNoPair | rnr/pkg/consensus/vote_replay_protection.go:109-136 | The load invents no (block, validator) pair |
| VoteStore.LoadIsIdempotent | rnr/pkg/consensus/vote_replay_protection.go:123-136 | A second load leaves the database as the first left it |
| VoteStore.LoadKeepsPairsIff | rnr/pkg/consensus/vote_replay_protection.go:123-133 | The load keeps the set of voted pairs if and only if no two recorded pairs share an ID and no legacy key that is another vote's ID is visited after the last vote for that ID |
| VoteStore.LateDeletionExample | rnr/pkg/consensus/vote_replay_protection.go:124-133 | Two records and an order of the iterator in which the first vote is lost |
| VoteStore.SameIDIff | rnr/pkg/consensus/vote_replay_protection.go:16-21 | Two pairs share an ID iff the hashes of their concatenations are equal, so iff the concatenations are unless the hash collides on them |
| VoteStore.DifferentPairsShareID | rnr/pkg/consensus/vote_replay_protection.go:16-21 | Two different pairs with one ID, whatever the hash |
| VoteStore.OneLengthDoesNotClash | rnr/pkg/consensus/vote_replay_protection.go:16-21 | Recorded votes with block hashes of one length share no ID unless the hash collides on them |
| VotingRuns.FinalizedIffQuorum | rnr/pkg/consensus/voting.go:185-198 | In every reachable state a session is finalized iff it holds exactly its required votes, and never holds more |
| VotingRuns.AcceptedAtMostOnce | rnr/pkg/consensus/voting.go:120-130 | Over every run with cleanups and restarts and successful writes no (block, validator) pair is accepted twice |
| VotingRuns.AcceptedAtMostOnceFromDisk | rnr/pkg/consensus/vote_replay_protection.go:93-150 | The same from any disk with legacy records; no pair the load keeps is accepted again |
| VotingRuns.RecordedIsFinalIff | rnr/pkg/consensus/vote_replay_protection.go:93-150 | No pair recorded on a disk is accepted again in any run started on it iff the load deletes no record too late |
| VotingRuns.AcceptedAgainIff | rnr/pkg/consensus/voting.go:185-193 | After any accepted vote, under any chain state, some later run accepts the pair again if and only if the write failed |
| VotingRuns.AlwaysIndexed | rnr/pkg/consensus/vote_replay_protection.go:93-150 | In every run every vote on disk is canonical and marked processed |
| VotingRuns.OnlyActiveVoters | rnr/pkg/consensus/voting.go:141-156 | Over every run all votes of all sessions come from the active set they were checked against |
| Slashing.SlashingManager.DetectDoubleVoting | rnr/pkg/consensus/slashing.go:82-101 | Records a first vote, ignores a repeat, slashes a different hash with both hashes as evidence |
| Slashing.SlashingManager.SlashValidator | rnr/pkg/consensus/slashing.go:124-166 | Suspends a registered validator for 24 h, logs one event and stores it, reporting a failed write; an unknown one changes nothing |
| Slashing.TrackerHoldsFirst | rnr/pkg/consensus/slashing.go:86-98 | After any stream the tracker holds exactly the first hash per validator and height |
| Slashing.SlashedIffEquivocates | rnr/pkg/consensus/slashing.go:82-101 | After any stream a registered validator is slashed at a height iff the stream has two of its hashes there |
| Slashing.SuspendedIffSlashed | rnr/pkg/consensus/slashing.go:132-146 | It ends suspended iff it started suspended or was slashed at some height |
| Slashing.SecondHashCosts | rnr/pkg/consensus/slashing.go:90-166 | After any stream a second hash suspends a registered validator for 24 h and logs one event with both hashes, the first one first, stored if the write succeeds; anything else costs nothing |
| Accountability.QuorumOverlap | rnr/pkg/consensus/voting.go:80-83 | Two quorums of n overlap in at least one validator for n = 1 and n >= 3, in over a third from n = 4, possibly in none for n = 2 |
| Accountability.AccountableSafety | rnr/pkg/consensus/slashing.go:82-101 | If runs finalize two blocks at one height over the same n active validators, feeding both vote sets in any interleaving slashes and suspends at least 2q - n of them |
| Accountability.OnlyDoubleVotersAreSlashed | rnr/pkg/consensus/slashing.go:90-98 | If only those votes are fed, exactly the validators in both vote sets are slashed |
| Accountability.TwoValidatorsCanSplit | rnr/pkg/consensus/voting.go:80-83 | With two validators two runs each finalize a block with one vote, and feeding both votes in any stream slashes nobody |
| Signatures.EncodePublicKey | rnr/pkg/core/types.go:97-110 | Both coordinates end up right-aligned in 32-byte halves |
| Signatures.KeyRoundTrip | rnr/pkg/consensus/voting.go:281-291 | Decoding the encoding of any key below 2^256 gives the key back |
| Signatures.DecodeThenEncode | rnr/pkg/core/types.go:103-109 | Every 64-byte string is the encoding of the key it decodes to |
| Signatures.SplitRecoversIff | rnr/pkg/consensus/voting.go:256-274 | For positive r and s the midpoint cut recovers (r, s) iff s has as many bytes as r or one more |
| Signatures.SignedVoteIsJudgedIff | rnr/pkg/consensus/voting.go:256-274 | A vote signed with (r, s) is judged as signed on every curve iff the signature has 32 bytes and the lengths fit |
| Chain.NewBlockchain | rnr/pkg/blockchain/blockchain.go:24-49 | Resumes from the stored tip or stores the genesis block and starts from it; an unreadable tip or a failed write is an error |
| Chain.OpenedIsChainOk | rnr/pkg/blockchain/blockchain.go:24-49 | A fresh store is well linked, and a restart opens exactly the chain it left, whatever writes of the last block succeeded |
| Chain.Blockchain.AddBlock | rnr/pkg/blockchain/blockchain.go:77-97 | Index, stored tip and tip move together, or as far as the writes got |
| Chain.Blockchain.VerifyBlock | rnr/pkg/blockchain/blockchain.go:117-133 | Passes exactly the next height with the tip's hash |
| Chain.PassesIff | rnr/pkg/blockchain/blockchain.go:117-133 | A block passes iff it has the height after the tip's and names the tip's hash |
| Chain.Blockchain.GetBlockByHeight | rnr/pkg/blockchain/blockchain.go:99-115 | The indexed block, or not found |
| Chain.AddKeepsChainOk | rnr/pkg/blockchain/blockchain.go:77-133 | A verified block keeps the chain hash-linked with consecutive heights, whatever the writes do |
| Chain.AddedIsFound | rnr/pkg/blockchain/blockchain.go:77-115 | An added block is found at its height and is the tip; one whose writes fail leaves the tip alone |
| Blocks.SameHashIff | rnr/pkg/core/types.go:34-43 | With a collision-free digest two blocks share a hash iff they differ in nothing but the signature |
| Sync.SyncManager.StartSync | rnr/pkg/sync/sync_manager.go:73-93 | Reads the tip, then either synced or syncing towards the peer's height |
| Sync.StartLooksAtTheTip | rnr/pkg/sync/sync_manager.go:73-93 | A peer that is not higher leaves us synced; a higher one becomes the peer and its height the target |
| Sync.SyncManager.CreateBlockRequest | rnr/pkg/sync/sync_manager.go:95-110 | The next range of the batch size, cut at the target, with wrapping sums |
| Sync.SyncManager.HandleBlockRequest | rnr/pkg/sync/sync_manager.go:141-162 | Refuses an inverted range, else the stored blocks of the range up to the first gap |
| Sync.ServedIs | rnr/pkg/sync/sync_manager.go:141-162 | Refuses exactly an inverted range, gives nothing above the tip, and otherwise the stored blocks from the start up to the end or the first gap |
| Sync.SyncManager.ProcessBlockResponse | rnr/pkg/sync/sync_manager.go:112-139 | Appends until the first refused block; synced when the target is reached |
| Sync.SyncedIffReached | rnr/pkg/sync/sync_manager.go:131-136 | An accepted response leaves us synced iff the tip reached the target or we were; a refused one leaves the status |
| Sync.AppendsUpToRefusal | rnr/pkg/sync/sync_manager.go:118-129 | An accepted response is appended whole; of a refused one exactly the blocks before the first that does not fit or is not stored |
| Sync.RequestIsValidIff | rnr/pkg/sync/sync_manager.go:99-104 | A request is usable iff the batch is positive and its end does not wrap |
| Sync.ArbitraryResponseIsSafe | rnr/pkg/sync/sync_manager.go:112-139 | After any response, even one refused midway, the chain is linked, has all its old blocks, and currentHeight is the tip's |
| Sync.RoundAdvances | rnr/pkg/sync/sync_manager.go:95-162 | Against an honest peer one round advances by exactly min(batch, remaining) |
| Sync.WrappedRoundStalls | rnr/pkg/sync/sync_manager.go:142-144 | A round with an unusable request changes nothing |
| Sync.RoundsConverge | rnr/pkg/sync/sync_manager.go:73-162 | Rounds with any usable batch sizes end synced with our chain equal to the peer's prefix |
| Sync.StartCatchesUp | rnr/pkg/sync/sync_manager.go:73-93 | Starting against a higher honest peer sets up those rounds |
| ForkChoice.ReorgBothWaysIff | rnr/pkg/blockchain/fork_resolver.go:85-121 | Each of two tips displaces the other iff the height override contradicts the preference |
| ForkChoice.ReorgIsTotal | rnr/pkg/blockchain/fork_resolver.go:85-121 | Of two tips with different hashes one is always preferred |
| ForkChoice.BeatsTransitive | rnr/pkg/blockchain/fork_resolver.go:96-118 | The three-tier preference is transitive |
| ForkChoice.BeatsTotal | rnr/pkg/blockchain/fork_resolver.go:96-118 | Of two tips with different hashes exactly one beats the other |
| ForkChoice.MoreWorkDisplaces | rnr/pkg/blockchain/fork_resolver.go:96-98 | More work displaces less, whatever the rest |
| ForkChoice.LessWorkDisplacesIff | rnr/pkg/blockchain/fork_resolver.go:91-94 | Less work displaces more iff it is at least seven blocks higher |
| ForkChoice.SmallerPoHDisplaces | rnr/pkg/blockchain/fork_resolver.go:100-106 | With equal work the PoH bytes smaller at their first difference displace the others, and within six heights not the other way round |
| ForkChoice.SmallerHashDisplaces | rnr/pkg/blockchain/fork_resolver.go:108-116 | With equal PoH bytes the block hash smaller at its first difference does |
| ForkChoice.CloseTipsAreCoherent | rnr/pkg/blockchain/fork_resolver.go:91-94 | Tips at most six heights apart never meet the override |
| ForkChoice.AdoptFindsBest | rnr/pkg/blockchain/fork_resolver.go:85-121 | On coherent tips the survivor of any arrival order beats all the others |
| ForkChoice.ForkChoiceConverges | rnr/pkg/blockchain/fork_resolver.go:85-121 | Nodes that see the same coherent tips in any order end on the same tip |
| ForkChoice.TwoTipsAgreeIff | rnr/pkg/blockchain/fork_resolver.go:91-94 | Two nodes that see two tips in opposite orders agree iff the tips are coherent |
| ForkChoice.AllOrdersAgreeIff | rnr/pkg/blockchain/fork_resolver.go:85-121 | All arrival orders of any finite set of tips end on one tip iff some tip is displaced by no other |
| ForkChoice.OverrideBreaksAgreement | rnr/pkg/blockchain/fork_resolver.go:91-94 | A lighter tip seven blocks higher and a heavier lower one displace each other |
| ByteCodec.CompareAntisymmetric | rnr/pkg/blockchain/fork_resolver.go:104 | bytes.Compare is antisymmetric |
| ByteCodec.CompareTransitive | rnr/pkg/blockchain/fork_resolver.go:104-114 | bytes.Compare is transitive |
| ByteCodec.CompareZero | rnr/pkg/blockchain/fork_resolver.go:109 | bytes.Compare is zero exactly on equal strings |
| ByteCodec.FirstDifferenceDecides | rnr/pkg/blockchain/fork_resolver.go:104 | bytes.Compare is lexicographic: the first difference decides and a proper prefix comes first |
| Ancestry.ForkResolver.FindBlock | rnr/pkg/blockchain/fork_resolver.go:240-267 | Returns a known block with the hash, and fails only if there is none |
| Ancestry.ForkResolver.AlignHeights | rnr/pkg/blockchain/fork_resolver.go:160-178 | The first two loops bring both cursors to one height without losing a common ancestor |
| Ancestry.ForkResolver.FindCommonAncestor | rnr/pkg/blockchain/fork_resolver.go:159-198 | Terminates; a returned block is an ancestor of both tips and no common ancestor is higher; it fails only if there is none |
| Ancestry.ForkResolver.CalculateChainWork | rnr/pkg/blockchain/fork_resolver.go:298-321 | The work of the path from a block, stored or not, down to a height, modulo 2^64 |
| Ancestry.WorkSplits | rnr/pkg/blockchain/fork_resolver.go:288-321 | The work of a path is the work of its upper part plus the work of what lies below |
| Ancestry.WorkIsWeight | rnr/pkg/blockchain/fork_resolver.go:288-296 | The work of a path is the sum of its weights, a block without one counting one |
| Ledger.ChainState.ValidateTransaction | rnr/pkg/consensus/validator_service.go:427-471 | Valid iff the nonce fits, the balance covers amount and fee, and a signature, if any, verifies |
| Ledger.NonceAndBalanceDecide | rnr/pkg/consensus/validator_service.go:427-441 | A valid transaction has its sender's nonce and is covered with its fee; an unsigned one is valid exactly then |
| Ledger.SignatureDecides | rnr/pkg/consensus/validator_service.go:443-467 | An affordable transaction signed with (r, s) of fitting lengths, of a sender with the encoded key (x, y), is valid iff the curve accepts (r, s) on the digest of the unsigned transaction |
| Ledger.HalvesDecide | rnr/pkg/consensus/validator_service.go:443-467 | In general the verdict is the curve's on the two halves of the signature under the recorded key |
| Ledger.UnverifiableIsInvalid | rnr/pkg/consensus/validator_service.go:443-463 | A signed transaction of an unregistered sender, or with under 32 bytes, is never valid |
| Ledger.ReplayIsInvalid | rnr/pkg/consensus/validator_service.go:433-435 | What has been applied is not valid on the ledger it leaves |
| Ledger.ChainState.SelectTransactions | rnr/pkg/consensus/validator_service.go:411-425 | Exactly the valid transactions, each as often as it was offered, still highest fee first |
| Ledger.ChainState.ApplyTransaction | rnr/pkg/consensus/validator_service.go:473-504 | The two shared account objects end as the ledger function says, self-transfers included |
| Ledger.ChainState.Credit | rnr/pkg/consensus/validator_service.go:291-293 | One account is credited, created if needed |
| Ledger.PaymentMoves | rnr/pkg/consensus/validator_service.go:473-504 | A payment charges amount and fee to the sender, pays the amount to the recipient and moves nobody else |
| Ledger.BalanceAfter | rnr/pkg/consensus/validator_service.go:473-504 | After a block every balance has moved by the sum of what its transactions net it |
| Ledger.NonceAfter | rnr/pkg/consensus/validator_service.go:490-491 | And every nonce by the number of transactions sent |
| Ledger.AdvanceCounts | rnr/pkg/consensus/validator_service.go:490 | A nonce counts the transactions sent, modulo 2^64 |
| Ledger.OrderIsIrrelevant | rnr/pkg/consensus/validator_service.go:261-264 | The final ledger does not depend on the order of the transactions |
| Ledger.SafeInEveryOrderIff | rnr/pkg/consensus/validator_service.go:411-446 | No prefix of any order overdraws anyone iff every account covers what the block takes from it |
| Ledger.SnapshotValidationIsSound | rnr/pkg/consensus/validator_service.go:411-446 | With distinct senders and non-negative amounts, checking against the pre-block state makes every order safe, with one final ledger and each sender's nonce advanced by one |
| Ledger.RepeatedSenderOverdraws | rnr/pkg/consensus/validator_service.go:418-422 | Two different valid transactions of one sender with one nonce overdraw it together |
| Ledger.AmountSignIff | rnr/pkg/consensus/validator_service.go:437-440 | A valid transaction keeps every ledger non-negative iff its amount is not negative, or it pays its own sender without a fee |
| Ledger.ApplyBurnsFee | rnr/pkg/consensus/validator_service.go:477-498 | A transaction lowers the supply by exactly its fee: nobody is credited any of it |
| Ledger.ApplyAllBurnsFees | rnr/pkg/consensus/validator_service.go:261-264 | A block's transactions lower the supply by the sum of the fees |
| Rewards.RewardBoundedIff | rnr/pkg/consensus/validator_service.go:334-348 | The block reward lies in [1, 100] iff the height is below 2^63 |
| Rewards.RewardNonIncreasing | rnr/pkg/consensus/validator_service.go:334-348 | Below 2^63 it never grows with height |
| Rewards.RewardByMillions | rnr/pkg/consensus/validator_service.go:334-348 | 100 for the first million heights, constant inside each million, one less in each next one until it is 1 |
| Rewards.GroupValidatorsByNetwork | rnr/pkg/consensus/network_fairness.go:17-43 | In any map order the groups partition the validators into non-empty lists without repeats |
| Rewards.DistributePoBRewardFairly | rnr/pkg/consensus/network_fairness.go:75-100 | In any map order everyone is paid the same order-free amount |
| Rewards.EqualPay | rnr/pkg/consensus/network_fairness.go:89-96 | Validators of one group are paid alike |
| Rewards.SameNetworkIsPaidAlike | rnr/pkg/consensus/network_fairness.go:17-43 | Validators with one network number, or without one and with one address group, are paid alike |
| Rewards.GroupTotal | rnr/pkg/consensus/network_fairness.go:82-96 | A group's total is within its size minus one below its share of the pool |
| Rewards.SplitTotal | rnr/pkg/consensus/network_fairness.go:75-100 | The total paid is at most the pool and at least the pool minus one coin less than there are validators |
| Finalization.ValidatorService.DistributeBlockRewards | rnr/pkg/consensus/validator_service.go:282-332 | The proposer's share and every eligible validator's pay are credited, in any map order |
| Finalization.ProposerGains | rnr/pkg/consensus/validator_service.go:285-293 | A proposer that is no contributor gains the whole coins in 80% of the reward; whoever is neither gains nothing |
| Finalization.ContributorsGain | rnr/pkg/consensus/validator_service.go:308-326 | The contributors together gain at most 20% of the reward and less than one coin each below it |
| Finalization.SingleContributorGains | rnr/pkg/consensus/validator_service.go:308-326 | A single contributor gains exactly the whole coins in 20% |
| Finalization.OutsidersGainNothing | rnr/pkg/consensus/validator_service.go:298-306 | Whoever is not active, not recorded or suspended gains nothing unless it proposed the block |
| Finalization.NetworksShareEqually | rnr/pkg/consensus/network_fairness.go:75-100 | With known network numbers every contributor gains its network's equal part of the pool divided by the contributors of that network |
| Finalization.ValidatorService.EligibleInfos | rnr/pkg/consensus/validator_service.go:298-306 | Exactly the active validators with a record that are not suspended |
| Finalization.ValidatorService.PayContributors | rnr/pkg/consensus/validator_service.go:311-326 | Every positive reward reaches its account once |
| Finalization.ValidatorService.FinalizeBlock | rnr/pkg/consensus/validator_service.go:254-280 | Stores the block and applies it; if the store refuses, the ledger is untouched |
| Finalization.SupplyChange | rnr/pkg/consensus/validator_service.go:254-348 | Finalizing moves the supply by exactly what is minted minus all fees, and mints at most the block reward |
| AtomicMachine.ReplayIsOverlay | rnr/pkg/blockchain/atomic_state.go:34-80 | Replaying a batch with repeats equals overlaying the last value of every staged key |
| AtomicMachine.RunKeepsNodeOk | rnr/pkg/blockchain/atomic_state.go:34-106 | Over every run of steps the caches hold exactly what is staged, and what is being installed is already on disk |
| AtomicState.StateTransaction.UpdateAccountAtomic | rnr/pkg/blockchain/atomic_state.go:34-49 | One staging step: one put, the object cached, the caches still matching the batch |
| AtomicState.StateTransaction.UpdateValidatorAtomic | rnr/pkg/blockchain/atomic_state.go:52-67 | The same for a validator |
| AtomicState.StateTransaction.Commit | rnr/pkg/blockchain/atomic_state.go:71-95 | Takes the write and install steps of a commit: disk and memory take the whole batch or nothing, and agree on all staged accounts iff none changed since it was staged |
| CommitRuns.CommitRunEffect | rnr/pkg/blockchain/atomic_state.go:84-92 | In whatever order the two loops range over the caches, a commit ends at one node |
| AtomicState.StateTransaction.Rollback | rnr/pkg/blockchain/atomic_state.go:98-106 | Forgets everything staged and touches neither disk nor memory |
| AtomicState.State.BatchUpdateAccountsAtomic | rnr/pkg/blockchain/atomic_state.go:162-173 | One call of the machine: all accounts or none; on every staged address disk and memory agree on the last one |
| AtomicState.State.ApplyTransactionAtomic | rnr/pkg/blockchain/atomic_state.go:110-158 | One call of the machine: refused transfers change nothing, committed ones change disk and memory alike, a failed commit leaves the disk but moves loaded accounts |
| AtomicState.TransferIsCommittedIff | rnr/pkg/blockchain/atomic_state.go:120-155 | A transfer goes through iff the balance covers it, the nonce is the sender's and the write succeeds |
| AtomicState.ReplayIsRefusedIff | rnr/pkg/blockchain/atomic_state.go:125-127 | What went through is refused a second time iff it did not create its own sender |
| AtomicState.FailedCommitIsCleanIff | rnr/pkg/blockchain/atomic_state.go:135-155 | A failed commit leaves memory as it was iff the sender was not loaded and the recipient not loaded or paid nothing |
| AtomicState.TransferKeepsSyncIff | rnr/pkg/blockchain/atomic_state.go:135-155 | From memory and disk that agree a transfer leaves them agreeing iff its commit does not fail after charging a loaded sender or paying a loaded recipient |
| CrashSafety.CrashIsAllOrNothing | rnr/pkg/blockchain/atomic_state.go:71-95 | A crash after any step of a call reloads memory equal to the disk: as before the call until its write, from then on as the whole call leaves it |
| CrashSafety.DiskIsCommitted | rnr/pkg/blockchain/atomic_state.go:71-78 | At every moment of every run the disk is the old disk with the committed batches replayed whole |
| CrashSafety.InSyncIff | rnr/pkg/blockchain/atomic_state.go:71-155 | At every moment of every run outside a commit, memory and disk agree on an account iff the moves of its object that no commit saved cancel out, and on everything iff all do |
| RateLimiter.Limiter.AllowRequest | rnr/pkg/network/p2p_ratelimit.go:47-106 | Ban, refill, violation and token steps in the source's order |
| RateLimiter.WaitingRefills | rnr/pkg/network/p2p_ratelimit.go:74-105 | A drained peer that waits gets exactly the whole tokens its rate brings, up to the burst |
| RateLimiter.FifthRefusalBans | rnr/pkg/network/p2p_ratelimit.go:88-99 | The fifth refusal in a row, and not the fourth, bans for ten minutes |
| RateLimiter.Limiter.AllowBytes | rnr/pkg/network/p2p_ratelimit.go:110-145 | The per-second byte budget with its bans |
| RateLimiter.ByteWindowBound | rnr/pkg/network/p2p_ratelimit.go:110-145 | From any reachable state a window of at most one second lets at most two budgets of bytes through, and one more per deletion of the entry in it |
| RateLimiter.OneBudgetPerReset | rnr/pkg/network/p2p_ratelimit.go:122-126 | In the second after a reset at most one budget goes through |
| RateLimiter.SendGoesThroughIff | rnr/pkg/network/p2p_ratelimit.go:122-144 | Within a second of a peer's entry or reset a send goes through iff it fits the budget after what went through before |
| RateLimiter.FirstSendGoesThroughIff | rnr/pkg/network/p2p_ratelimit.go:122-128 | After a second's silence a send goes through iff it fits the whole budget |
| RateLimiter.TwoBudgetsAtOnce | rnr/pkg/network/p2p_ratelimit.go:122-126 | Two budgets can go through within a nanosecond |
| RateLimiter.ThirdOverrunBans | rnr/pkg/network/p2p_ratelimit.go:129-136 | The third send in a row that does not fit, and not the second, bans for five minutes |
| RateLimiter.Limiter.BanPeer | rnr/pkg/network/p2p_ratelimit.go:168-182 | Bans a peer, with an empty bucket if it is new |
| RateLimiter.BanHolds | rnr/pkg/network/p2p_ratelimit.go:168-182 | A banned peer is refused until the ban ends, and one that was new is served a whole burst then |
| RateLimiter.Limiter.CleanupOldLimits | rnr/pkg/network/p2p_ratelimit.go:185-196 | Exactly the entries idle for over ten minutes and not banned are gone |
| RateLimiter.CleanupDeletes | rnr/pkg/network/p2p_ratelimit.go:185-196 | A cleanup deletes an entry iff it has no ban and was last refilled over 600 s ago |
| RateLimiter.WindowBound | rnr/pkg/network/p2p_ratelimit.go:74-105 | From any reachable state a window of any length lets at most burst plus the rounded-up allowance through |
| RateLimiter.CleanupIsInvisibleIff | rnr/pkg/network/p2p_ratelimit.go:185-196 | If the idle time refills a burst, every later run of requests gets the same answers and tokens as without the cleanup iff no deleted entry had a violation or nobody is ever served |
| RateLimiter.ForgottenViolationsShow | rnr/pkg/network/p2p_ratelimit.go:88-99 | The failing run: after a burst and a few refusals the kept peer is banned, and a minute later only the forgotten one is served |
| RateLimiter.CleanupKeepsAnswersIff | rnr/pkg/network/p2p_ratelimit.go:47-196 | The same for the answers when bans and further cleanups come among the requests |
| RateLimiter.CleanupIsInvisibleInTrafficIff | rnr/pkg/network/p2p_ratelimit.go:110-145 | With byte traffic among the requests a cleanup stays invisible iff it deletes nothing or nobody is ever served |
| RateLimiter.LimitHoldsIff | rnr/pkg/network/p2p_ratelimit.go:74-105 | The bound holds over all runs and windows iff the idle time refills a whole burst |
| Gossip.GossipProtocol.ShouldProcess | rnr/pkg/network/gossip.go:58-76 | Refuses seen, expired and stale messages, otherwise remembers and accepts |
| Gossip.ProcessedIff | rnr/pkg/network/gossip.go:58-76 | A message is processed iff it is not in the cache, has a positive TTL and is at most 60 s old |
| Gossip.GossipProtocol.CleanupOldMessages | rnr/pkg/network/gossip.go:121-134 | Exactly the entries older than ten minutes are gone |
| Gossip.ForgottenIff | rnr/pkg/network/gossip.go:121-134 | A cleanup forgets exactly what was accepted over 600 s ago |
| Gossip.ForgettingIsInvisible | rnr/pkg/network/gossip.go:58-134 | Over every run the forgetting cache answers as one that never forgets, if accepted messages are dated at most nine minutes ahead |
| Gossip.AcceptedTwiceIff | rnr/pkg/network/gossip.go:70-131 | An accepted message can be accepted again in some run iff it was dated more than nine minutes ahead |
| Gossip.NineMinutesAhead | rnr/pkg/network/gossip.go:70-131 | The same with the lead written out: 540 s |
| IpReputation.IPReputationSystem.CheckIPAllowed | rnr/pkg/network/ip_reputation.go:72-104 | New addresses by subnet count, known ones by blacklist and score, an expired blacklisting lifted |
| IpReputation.NewAddressIsAdmittedIff | rnr/pkg/network/ip_reputation.go:79-86 | A new address is admitted iff fewer than three addresses of its subnet are tracked |
| IpReputation.IPReputationSystem.RecordMisbehavior | rnr/pkg/network/ip_reputation.go:108-149 | Penalty, floor at zero and both blacklistings |
| IpReputation.ScoreMoves | rnr/pkg/network/ip_reputation.go:125-165 | A score starts at 100, loses five points per degree of a misbehaviour down to 0, and gains one per success up to 100 |
| IpReputation.CriticalShutsOutSevenDays | rnr/pkg/network/ip_reputation.go:143-148 | From degree 8 on an address is refused for exactly seven days |
| IpReputation.LowScoreShutsOutOneDay | rnr/pkg/network/ip_reputation.go:91-141 | Below that one in good standing is refused for exactly a day if its score falls below 20, and otherwise not at all |
| IpReputation.MisbehaviourHoldsRecovery | rnr/pkg/network/ip_reputation.go:221-234 | A misbehaviour keeps an address from recovering for a day |
| IpReputation.IPReputationSystem.RecordSuccess | rnr/pkg/network/ip_reputation.go:152-165 | One point up, capped at 100 |
| IpReputation.IPReputationSystem.GetOrCreateReputation | rnr/pkg/network/ip_reputation.go:176-196 | A new address is entered and its subnet counted once |
| IpReputation.IPReputationSystem.RecoverReputations | rnr/pkg/network/ip_reputation.go:221-250 | Every address recovers exactly as its own record says, in any map order |
| IpReputation.RecoveryReturnsATenth | rnr/pkg/network/ip_reputation.go:221-250 | An hourly recovery returns a tenth of what is missing, rounded down but at least a point, unless a blacklisting runs or a misbehaviour is under a day old |
| IpReputation.IPReputationSystem.CleanupOldReputations | rnr/pkg/network/ip_reputation.go:258-280 | Exactly the removable addresses go, and decrementing ends at the cleanup step of the runs: the exact counters |
| IpReputation.CleanupRemovesIff | rnr/pkg/network/ip_reputation.go:258-280 | An address is removed iff it is not blacklisted, scores 90 and was last seen over thirty days ago |
| IpReputation.ActivityKeepsTracked | rnr/pkg/network/ip_reputation.go:108-165 | An address that was heard of stays tracked for thirty days |
| IpReputation.IndexIsExact | rnr/pkg/network/ip_reputation.go:108-280 | Over every run with non-negative severities each counter is the number of tracked addresses of its subnet and scores stay in [0, 100] |
| IpReputation.ScoreInRangeIff | rnr/pkg/network/ip_reputation.go:129-134 | Scores stay in range iff the severity is not negative |
| Merkle.NextLevel | rnr/pkg/blockchain/blockchain.go:222-230 | The pairing loop builds the level above |
| Merkle.ComputeMerkleRoot | rnr/pkg/blockchain/blockchain.go:214-232 | The recursive builder computes the root |
| Merkle.CalculateMerkleRootFromHashes | rnr/pkg/consensus/pob_speedtest.go:123-153 | The iterative builder computes the hex of the root of the decoded leaves |
| Merkle.BuildersAgree | rnr/pkg/consensus/concurrent_validation.go:112-133 | On every non-empty leaf list both builders give the same root, up to hex |
| Merkle.RootBinding | rnr/pkg/blockchain/blockchain.go:214-232 | Equally many 32-byte leaves with one root are equal, or two different inputs with one hash are produced |
| Merkle.LengthIsNotBound | rnr/pkg/blockchain/blockchain.go:222-231 | For any two positive lengths there are lists of 32-byte leaves of those lengths with one root |
| Merkle.RootSplits | rnr/pkg/blockchain/blockchain.go:214-232 | The root hashes the root of the left leaves and the root of the right ones |
| ByteCodec.HexRoundTrip | rnr/pkg/consensus/pob_speedtest.go:129-152 | Hex decoding undoes hex encoding |
| ByteCodec.HexOfByte | rnr/pkg/consensus/pob_speedtest.go:152 | Two lower-case digits a byte, the high one first |
| ByteCodec.MostSignificantFirst | rnr/pkg/consensus/voting.go:265-270 | A number's bytes have the most significant one first |
| Median.ExchangeSort | rnr/pkg/consensus/pob_speedtest.go:417-423 | The in-place exchange sort ends sorted and is a permutation |
| Median.CalculateMedian | rnr/pkg/consensus/pob_speedtest.go:403-430 | The result is the middle of the values in sorted order |
| Median.MedianIsUnique | rnr/pkg/consensus/pob_speedtest.go:403-430 | The median depends only on which values there are and how often |
| Median.MajorityBoundsMedian | rnr/pkg/consensus/pob_speedtest.go:268-299 | If a strict majority of the values lie in an interval so does the median, whatever the rest are |
| Median.MedianOfTwo | rnr/pkg/consensus/pob_speedtest.go:425-428 | The median of two values is their mean |
| Median.MedianMirrors | rnr/pkg/consensus/pob_speedtest.go:403-430 | Turning the sign of every value turns the sign of the median |
| Median.CollectUsable | rnr/pkg/consensus/pob_speedtest.go:269-289 | The three slices hold the metrics of exactly the usable results |
| Median.CountsIff | rnr/pkg/consensus/pob_speedtest.go:271-281 | A result counts iff it has no anomalies and a verified payload |
| Median.AggregateP2PResults | rnr/pkg/consensus/pob_speedtest.go:255-299 | Refuses fewer than two usable results; otherwise the three medians, the same in every map order |
| Median.TwoTestersAreAveraged | rnr/pkg/consensus/pob_speedtest.go:283-299 | With two usable results every metric of the aggregate is the mean of that metric |
| VrfSelection.VerifyVRFProposerSelection | rnr/pkg/consensus/vrf_verification.go:43-124 | Every error in the source's order, and acceptance iff the first record of the proposer scores one half and its first eligible range is not missed, for any records and any proof, with division by zero as floats do it |
| VrfSelection.HeaderOutputDecides | rnr/pkg/consensus/vrf_verification.go:80-86 | The first byte of the header's output over 256 is the value checked |
| VrfSelection.ProofDecides | rnr/pkg/consensus/vrf_verification.go:81-86 | Without one it is the first byte of the proof |
| VrfSelection.UnreadableOutputPanics | rnr/pkg/consensus/vrf_verification.go:80-86 | An empty header output, or a proof under 32 bytes without one, panics |
| VrfSelection.IneligibleNeverPasses | rnr/pkg/consensus/vrf_verification.go:93-96 | A proposer that is not active, or suspended, never passes |
| VrfSelection.RangesFollowScores | rnr/pkg/consensus/vrf_verification.go:88-107 | Two validators scoring 0.5 and 1.5 share the values one to three in the list's order |
| VrfSelection.AcceptsIff | rnr/pkg/consensus/vrf_verification.go:53-115 | With distinct IDs it accepts iff the proposer is eligible, scores one half and owns the value, or the weights cancel out and its own straddles zero |
| VrfSelection.OnlyOwnersPassIff | rnr/pkg/consensus/vrf_verification.go:53-115 | Whoever passes owns the value iff no eligible validator of one half straddles a cancelled weight |
| VrfSelection.OnePassesPerValueIff | rnr/pkg/consensus/vrf_verification.go:88-115 | At most one ID passes per value iff no two eligible validators of one half overlap inside [0, 1), or straddle when the weights cancel out |
| VrfSelection.SomeoneOwns | rnr/pkg/consensus/vrf_verification.go:88-107 | Every selection value in [0, 1) lies in some eligible validator's range |
| VrfSelection.OwnerIsUnique | rnr/pkg/consensus/vrf_verification.go:88-107 | And in one only |
| VrfSelection.ExactlyTheOwnerPasses | rnr/pkg/consensus/vrf_verification.go:43-124 | Without negative scores, for every output exactly one validator owns the value, and a block passes iff its proposer is that one and scores one half; none that is inactive or suspended ever does |
| VrfSelection.EveryValueHasProposerIff | rnr/pkg/consensus/vrf_verification.go:66-115 | Every value finds a valid proposer iff somebody has weight and everybody with weight scores one half |
| VrfSelection.CancelledWeightPasses | rnr/pkg/consensus/vrf_verification.go:98-115 | Two validators of which one passes for every value while nobody owns any |
| VrfSelection.OverlapPassesTwo | rnr/pkg/consensus/vrf_verification.go:98-115 | Three validators scoring 1, -1/2 and 1 of which the first and the third pass for the value 1/2 |
| Retarget.RetargetManager.RecordValidatorCount | rnr/pkg/consensus/pob_retarget.go:44-58 | The history is the last fifty counts |
| Retarget.RetargetManager.CalculateAverageValidatorCount | rnr/pkg/consensus/pob_retarget.go:61-72 | The rounded-down mean, 0 for an empty history |
| Retarget.RetargetManager.AdjustDifficulty | rnr/pkg/consensus/pob_retarget.go:80-150 | Moves the thresholds only at retarget heights, by the rolling mean, within the clamps |
| Retarget.FewValidatorsLoosen | rnr/pkg/consensus/pob_retarget.go:103-127 | At a positive multiple of 50 a mean of the last fifty recorded counts between 0 and 50 accepts all that was accepted, and more unless everything was at its loosest |
| Retarget.ManyValidatorsTighten | rnr/pkg/consensus/pob_retarget.go:108-127 | A mean above 500 accepts nothing that was refused, and less unless everything was at its tightest |
| Retarget.OtherwiseNothingChanges | rnr/pkg/consensus/pob_retarget.go:80-117 | Any other height or mean changes nothing |
| Retarget.AdjustmentIsAFifth | rnr/pkg/consensus/pob_retarget.go:125-147 | Every threshold moves by exactly a fifth or to its clamp |
| Retarget.FirstRetarget | rnr/pkg/consensus/pob_retarget.go:29-147 | Fifty counts of ten turn the initial thresholds into 5.6, 120 and 0.12, fifty of a thousand into 8.4, 80 and 0.08 |
| Retarget.RetargetManager.EvaluateWithCurrentThresholds | rnr/pkg/consensus/pob_retarget.go:183-196 | Accepts exactly what meets all three thresholds |
| Retarget.RunKeepsWindow | rnr/pkg/consensus/pob_retarget.go:44-147 | Over every run the history is the last fifty recorded counts and the thresholds stay in their clamps |
| Retarget.StepIsBounded | rnr/pkg/consensus/pob_retarget.go:119-147 | No adjustment moves a threshold by more than a fifth |
| Retarget.AcceptanceIsMonotone | rnr/pkg/consensus/pob_retarget.go:119-196 | Loosening only enlarges and tightening only shrinks the accepted set |
| Retarget.Saturates | rnr/pkg/consensus/pob_retarget.go:119-147 | Thirteen loosenings or eleven tightenings from anywhere reach the clamps and stay |
| Retarget.SaturationIsTight | rnr/pkg/consensus/pob_retarget.go:119-147 | One step less does not suffice from the other end |

## Left out

- AllowRequest: the refill is the exact floor; rounding of the float product is not modelled, and `ResetPeer`, which refills a bucket, is outside the runs.
- ArbitraryResponseIsSafe: needs the tip height plus the response length to stay below 2^64 - 1.
- FindCommonAncestor: assumes that hash links go down one height at a time, which `VerifyBlock` enforces for the main chain but nothing enforces for candidate tips, and a collision-free block hash.
- SnapshotValidationIsSound: a self-transfer must come from an account that exists; for one that does not, what is stored depends on `state.go`.
- SafeInEveryOrderIff: the same restriction on self-transfers.
- AmountSignIff: the same restriction on self-transfers.
- SupplyChange: the same restriction on self-transfers.
- ShouldReorg: heights so large that adding six wraps are excluded from the order theorems.
- VerifyVRFProposerSelection: scores are real numbers, so the rounding of sums and quotients is not modelled.
- InSyncIff: one transaction is open at a time; transactions that interleave are not modelled.
- AcceptedAtMostOnce: `CleanupOldVotes`, which forgets processed votes on purpose, is not a step of the runs.
- FinalizeBlock: the mempool removals, the finality mark and the retargeting calls around it, which touch neither chain nor ledger.
- AggregateP2PResults: the session lookup, the proof-of-bandwidth score and the `Passed` flag; the method takes the session's results.
- SelectTransactions: the sort by fee is a library call; the method takes the sorted list.
- Sessions and rate-limit entries are values inside the maps of their owner, so other holders of the same pointer are not modelled.
- The write phase of `reorganize` and the fork branch of `HandleCompetingBlock`: `getMainChainInfo` passes nil to `calculateChainWork`, which dereferences it, and `getChainBlocks` collects only blocks above the old tip.
- Reloading slashing events: the loader does not find the events that were stored.
- The invalid-block and downtime slashings, suspension expiry, and event cleanup.
- `TotalScore` of network groups and `GetTopPoBContributorsByGroup`: not used for payment.
- Extracting a subnet from an address string, the proof-of-bandwidth score and the zero-knowledge proof of an aggregate.
- Merkle hashing of transactions in goroutines, the parallel block validator, and committee selection.
- P2P streams, HTTP API, metrics, logging, wallets, genesis tool, mempool, governance, partition detection and Byzantine scores.
