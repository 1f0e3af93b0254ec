# Parlia consensus with fast finality, in Dafny

This project models the consensus core of a BNB Smart Chain node and proves what the core
is relied on for. It covers the vote journal and the votes a validator signs, the step from
votes to justified and finalized blocks, the snapshot state machine, the back-off schedule
with its Go-compatible random generator, the snapshot provider, the layout of the header
extra data, and the fork choice.

Code that updates state step by step is imperative here too: classes with fields
(`VoteDataLru`, `Journal`, `Producer`, `RngSource`, `SnapshotProvider`, `Engine`), loops with
invariants, arrays shuffled in place. Each such method is tied to a specification function,
and the properties are proved about those functions over all inputs and all runs.

`dafny verify dfyconfig.toml` checks everything.

## Main results

- **Finality is safe** (`Finality`). N journals, fewer than N/3 faulty validators that sign
  anything, and a block tree form a step system. In every state of every run a finalized
  block is an ancestor of every justified block of at least its height, so no two conflicting
  blocks are finalized.
- **Progress of finality, exactly** (`AssembledRuns`, `FinalityProgress`). Take any reachable
  state and let every further attestation come out of the assembler, from a pool of signed
  votes. If no block is justified on record, no continuation ever justifies one, forged votes
  and restarts included. If one is, honest votes and new blocks alone can finalize a block of
  any height from 2 on that is above all honest votes so far; it is higher than everything
  finalized before.
- **When votes become an attestation, exactly** (`ProducedVotes`). With a quorum of the
  producer's votes for the target in the pool, the assembler succeeds if and only if the
  parent's snapshot records a justified block and the votes start from that same block.
- **What the verifier accepts is what the runs allow** (`AcceptedBlocks`). The attestation
  verifier, with its walk over headers, its bit set and its keys, implies the abstract guard,
  also when it works on what the provider replays (`ReplayedRuns`).
- **Bounded memory is enough, exactly** (`JournalSafety`). A 512-entry cache answers as the
  full history does as long as targets stay within 255 of the highest one; at 256 it does not
  always. Reloading the file rebuilds the cache in every run. The two scanned windows protect a
  forward vote against every history of forward votes if and only if its span is at most 258
  and its lag at most 11 (or it starts at height 0); for such a vote the rules are exactly the
  slashing conditions.
- **Snapshot runs** (`SnapshotRuns`, `ProposerTurns`, `InTurn`). At most half of the validators
  are ever barred and the block of any other is accepted; the turn limit; one set switch per
  epoch; chains of in-turn blocks are accepted across epoch boundaries, with any set switch
  from Bohr on and with the same set announced again before it. Every snapshot the provider
  replays belongs to such a run (`ReplayedRuns`).
- **What a snapshot holds, from its history** (`SnapshotHistory`). Over whole runs and in numbers:
  the epoch length, the block interval, which attestation the recorded votes come from, and for
  how long the entry of a block stays.
- **What is announced takes effect** (`Announcements`). From the bytes a producer writes into a
  checkpoint to the validators, keys and turn length of the snapshot after the boundary.
- **Unique leader** (`GoRng`, `BoundedDraws`, `Shuffle`, `BackOff`). The ring buffer is the
  lagged Fibonacci recurrence, bounded draws are exactly uniform, picks and permutations
  correspond one to one, and in every slot exactly one eligible validator waits 0 ms while
  all others are at least 1000 ms apart; the set of all waits is given in milliseconds.
- **Rebuild equals replay** (`Provider`, `OtherBranches`), **the extra data reads back** (`ExtraData`), **what is
  assembled verifies** (`Attestations`) and **the head never gets worse** (`ForkChoice`).

Where a promise does not hold of the code on all inputs, the exact condition is proved:

- The first attestation is never assembled (`FirstAttestationFails`, `NothingFromGenesis`): for
  empty vote data the assembler expects the zero hash as the source, while the producer signs
  genesis. After Fermi the same error meets votes for an older target whose own snapshot knew
  an older justified block (`OlderSourceFails`). `ProducedVotesAssemble` has the condition.
- An assembled attestation passes verification if and only if some block has been justified
  before (`AssembledVerifies`); the other side takes votes from the zero hash, which no producer
  signs.
- At an epoch block the stateless length check passes exactly what parses, except that under
  Bohr it also passes one length in which the turn length is missing (`CheckIsExact`).
- The validator field reads back if and only if there are 1 to 255 validators
  (`LubanValidatorsReadBack`): the count is one byte.
- `WindowsAreExact` and `MemoryLagIsExact` give the exact reach of the voting rules.
- The fork-choice rule is not an order across the Plato fork: three heads that can occur can
  form a circle if and only if exactly one of them is past Plato, and Plato is at height 3 or
  later and after Luban (`CirclesAreExact`). Heads with at most one from before Plato, or all from before it,
  are ordered (`HeadIsBest`).
- Before Bohr, right after a switch to another set, the block in turn is accepted if and only
  if the history does not bar its proposer (`InTurnAfterSwitch`); `SwitchCanReject` is a case in
  which it does.
- Off the canonical chain the provider reads a checkpoint of another branch. A step of the
  rebuild equals the replay if and only if the block fails a check anyway, or the set does not
  switch, or both checkpoints have the same effect (`RebuildStepIsExact`); `TwoBranches` is a
  case with different announcements.

## Modelling choices

- Hashes are injective and signatures ideal: a signature names its signer and its message, and
  an aggregate is the multiset of its signatures. The attestation decoder is a parameter.
- Hashes, addresses and vote keys are big-endian numbers; 0 is the all-zero value. Block
  numbers stay below 2^63, so no `u64` sum of two of them wraps. The widths that matter are
  written out: 32-bit seeder arithmetic, 64-bit wrapping addition and subtraction, the one-byte
  counters, the one-byte validator count, and the bit index modulo 64.
- Fork activations are part of a chain description; Bohr, once active, stays active.
- Validator sets have no duplicates and no zero address; turn lengths are at least 1.
- The 607-word table of the generator is a parameter, so the results hold for every table.
- The rejection loop of a bounded draw ends exactly when some later draw is accepted; that is
  the precondition `Eventually`, and `Productive` is its form for a whole shuffle.
- A bounded cache that may evict is modelled as one that may drop any other entry.

## Model

| member | source | states |
|---|---|---|
| VoteJournal.VoteDataLru.Add | src/node/vote_journal.rs:31-41 | FIFO insertion: a new key evicts the oldest when full, a known key keeps its place |
| VoteJournal.VoteDataLru.Contains | src/node/vote_journal.rs:43-45 | answers whether the height is cached |
| VoteJournal.VoteDataLru.Get | src/node/vote_journal.rs:47-49 | the cached vote of the height, if any |
| VoteJournal.Journal.LoadFromDisk | src/node/vote_journal.rs:87-110 | the trimmed buffer replayed into a new cache gives exactly the cache of the last 512 readable lines |
| VoteJournal.Journal.constructor | src/node/vote_journal.rs:112-115 | a journal opened on a file starts with the reloaded cache |
| VoteJournal.Journal.CheckRules | src/node/vote_journal.rs:119-154 | the two window scans decide: target unused, no cached vote inside the span, no cached vote around it |
| VoteJournal.Journal.WriteVote | src/node/vote_journal.rs:157-173 | appends to the file and adds to the cache |
| JournalSafety.AddExtendsTail | src/node/vote_journal.rs:31-41 | an unused target added to the last 512 votes gives the last 512 votes of the longer history |
| JournalSafety.TailIsUnique | src/node/vote_journal.rs:20-52 | a history determines the whole cache, order included |
| JournalSafety.ReloadRebuildsCache | src/node/vote_journal.rs:87-110 | reloading the file rebuilds the very cache that was in memory |
| JournalSafety.RestartIsInvisible | src/node/vote_journal.rs:87-115 | in every run, whatever the targets, the cache is the tail of the history and a restart changes nothing |
| JournalSafety.LaterVoteBetween | src/node/vote_journal.rs:31-41 | pigeonhole: after an eviction the cache holds a vote between the evicted height and the queried one |
| JournalSafety.EvictedRejectionIsRemembered | src/node/vote_journal.rs:119-154 | if an evicted vote forbids a query then a cached vote forbids it too |
| JournalSafety.SameAnswer | src/node/vote_journal.rs:119-154 | one query: bounded cache and full history give the same answer |
| JournalSafety.BoundedMemoryLosesNothing | src/node/vote_journal.rs:119-154 | the same over every run of any votes, restarts included, with lag at most 255 |
| JournalSafety.MemoryLagIsExact | src/node/vote_journal.rs:12-52 | with lag 256 a run exists after which a second vote for the same height is allowed |
| JournalSafety.AllowedIsUnslashable | src/node/vote_journal.rs:119-154 | a forward vote the rules allow, whose windows reach far enough, shares no height with, surrounds and is surrounded by no earlier vote |
| JournalSafety.RulesAreTheConditions | src/node/vote_journal.rs:119-154 | for a forward vote that spans at most 258 and lags at most 11, the rules allow it if and only if it makes no slashable pair with any vote in the journal |
| JournalSafety.JournalIsExact | src/node/vote_journal.rs:119-173 | the same of the bounded cache in every run of offers and restarts |
| JournalSafety.RunIsUnslashable | src/node/vote_journal.rs:119-173 | in every run with restarts no slashable pair is written, if each vote spans at most 258 or starts no lower than the earlier ones, and lags at most 11, or at most 255 and starts no higher |
| JournalSafety.WindowsAreExact | src/node/vote_journal.rs:119-154 | the scanned windows protect a forward vote against all histories of forward votes if and only if its span is at most 258 and its lag at most 11 or its source 0 |
| VoteProducer.WarmupIsServed | src/node/vote_producer.rs:114-122 | over any calls the counter lets a head through exactly when enough heads passed since mining was disabled |
| VoteProducer.Producer.MaybeProduce | src/node/vote_producer.rs:60-217 | a vote comes out exactly when all gates and the rules allow it, it is the vote BallotFor names, and the journal makes exactly that one step |
| VoteProducer.Producer.CheckAndSign | src/node/vote_producer.rs:185-217 | source from the justified block or genesis, target the head, rules checked before the write |
| Finality.QuorumsMeet | src/consensus/parlia/consensus.rs:799-804 | two sets of ceil(2N/3) validators share an honest one |
| Finality.SupportedIsHonest | src/node/vote_producer.rs:185-217 | a quorum vote is the producer's vote for a block of the tree, from a justified ancestor |
| Finality.SupportedAreCompatible | src/node/vote_journal.rs:119-154 | two quorum votes are equal or break no slashing condition |
| Finality.JustifiedAreUnique | src/node/vote_journal.rs:119-154 | at most one block per height is justified |
| Finality.SupportedDescends | src/consensus/parlia/snapshot.rs:328-333 | once a quorum links a block to the height above it, every later quorum vote is for a descendant |
| Finality.JustifiedDescends | src/consensus/parlia/snapshot.rs:328-333 | every justified block at or above a finalized one is it or descends from it |
| Finality.SourcesAgree | src/node/evm/pre_execution.rs:575-592 | in every reachable tree the verifier insists on the source the producer writes |
| Finality.VerifiedIsSupported | src/node/evm/pre_execution.rs:302-501 | a verified attestation is a quorum vote for an ancestor, and gives the vote data of the new snapshot |
| Finality.ChildVotes | src/consensus/parlia/snapshot.rs:309-337 | the vote data after a block name a justified and a finalized ancestor and go down in neither number |
| Finality.StepKeepsInvariant | src/consensus/parlia/snapshot.rs:309-337 | blocks, honest votes, forged votes and restarts all keep the invariant |
| Finality.RunKeepsInvariant | src/consensus/parlia/snapshot.rs:309-337 | it holds in every state of every run |
| Finality.FinalityIsSafe | src/consensus/parlia/snapshot.rs:309-337 | a finalized block is an ancestor of every justified block of at least its height, in every run |
| Finality.NoConflictingFinality | src/consensus/parlia/snapshot.rs:309-337 | of two finalized blocks one is an ancestor of the other, in every run |
| Finality.FinalityIsMonotone | src/consensus/parlia/snapshot.rs:309-337 | finalized <= justified < block number, both on the block's path, neither decreasing along a chain |
| FinalityProgress.VoteGoesThrough | src/node/vote_journal.rs:119-154 | the rules allow an honest vote from the highest justified block to a height above all votes of the validator |
| FinalityProgress.AllVote | src/node/vote_producer.rs:185-217 | all honest validators can sign the same vote one after the other |
| FinalityProgress.QuorumVoteVerifies | src/node/evm/pre_execution.rs:302-501 | a quorum's votes for a block, put into its child, pass verification |
| FinalityProgress.HonestVotesAssemble | src/consensus/parlia/consensus.rs:700-848 | with the honest votes in the pool and a justified block on record the assembler attests the parent |
| FinalityProgress.Round | src/consensus/parlia/consensus.rs:700-848 | one round of honest votes and one assembled block justify the block voted for and leave a state ready for the next round |
| FinalityProgress.FinalityStaysPossible | src/consensus/parlia/snapshot.rs:309-337 | from every reachable state with a justified block on record, honest votes and assembled blocks can finalize a block of any height t from 2 on that is above all honest votes; it is higher than all finalized before |
| FinalityProgress.ProgressIsExact | src/consensus/parlia/consensus.rs:712-771 | a continuation with assembled attestations that finalizes height t exists if and only if a justified block is on record |
| FinalityProgress.NothingFromGenesis | src/consensus/parlia/consensus.rs:712-771 | from the first state on, assembled attestations never justify or finalize anything |
| FinalityProgress.OutsideHelpStarts | src/node/evm/pre_execution.rs:302-501 | the honest votes for block 1, put together by something else, would be accepted and would justify it |
| AssembledRuns.AssembledIsSigned | src/consensus/parlia/consensus.rs:760-829 | whatever the assembler returns names a quorum of validators that signed it, from the source on record |
| AssembledRuns.NothingAssembles | src/consensus/parlia/consensus.rs:712-771 | with nothing justified on record no pool of signed votes gives an attestation |
| AssembledRuns.NothingIsEverJustified | src/consensus/parlia/consensus.rs:712-771 | with nothing justified on record, no steps at all change that |
| ProducedVotes.AggregatesOwnData | src/consensus/parlia/consensus.rs:766-829 | equal votes are an error for any other data; for their own they are aggregated if and only if three times the voters are at least twice the validators, and skipped otherwise |
| ProducedVotes.OneStrayVoteStopsAll | src/consensus/parlia/consensus.rs:766-771 | one pooled vote for the target with other data is an error |
| ProducedVotes.ProducedVotesAssemble | src/consensus/parlia/consensus.rs:700-848 | the producer's votes are assembled if and only if Luban is active, the block is 3 or later, and the parent records the justified block the votes start from; otherwise skipped or an error, exactly as stated |
| ProducedVotes.ParentVotesAssemble | src/consensus/parlia/consensus.rs:700-848 | votes for the parent are assembled if and only if a justified block is on record |
| ProducedVotes.FirstAttestationFails | src/consensus/parlia/consensus.rs:712-771 | a concrete pool with everyone's vote from genesis that is an error |
| ProducedVotes.OlderSourceFails | src/consensus/parlia/consensus.rs:726-771 | a concrete pool after Fermi whose votes start from an older justified block |
| AcceptedBlocks.AncestorIsOnPath | src/node/evm/pre_execution.rs:335-376 | the ancestor the verifier walks to is on the parent's path and within the allowed depth |
| AcceptedBlocks.SignersAreAQuorum | src/node/evm/pre_execution.rs:409-447 | the bits of an accepted attestation name different validators, at least two thirds of the set, that all signed |
| AcceptedBlocks.AcceptedIsVerified | src/node/evm/pre_execution.rs:302-501 | what the verifier accepts satisfies the guard under which the step system adds a block |
| ReplayedRuns.ReplayIsRun | src/consensus/parlia/provider.rs:219-352 | every snapshot that replays is the last one of a run of the state machine along its branch |
| ReplayedRuns.ReplayedIsAlive | src/consensus/parlia/provider.rs:162-182 | on it at most half are barred, someone may propose, counters fit and the table is right |
| ReplayedRuns.ReplayedVotes | src/consensus/parlia/provider.rs:258-350 | it records the vote data that the headers' attestations give in the block tree |
| ReplayedRuns.ReplayedIsVerified | src/node/evm/pre_execution.rs:302-501 | on the replayed snapshot of the parent the verifier accepts only what the step system may add |
| Snapshots.NewSnapshot | src/consensus/parlia/snapshot.rs:76-132 | a new snapshot of a non-empty set divides by nothing that is zero, also for epoch length 0, which becomes 200 |
| Snapshots.BuildValidators | src/consensus/parlia/snapshot.rs:76-132 | the sorted list and the table with 1-based indices and paired keys |
| Snapshots.TableEntryIsOwn | src/consensus/parlia/snapshot.rs:76-132 | in the table each validator has its own key and the index of its place in the sorted list |
| Snapshots.PairKeys | src/consensus/parlia/snapshot.rs:258-299 | each validator gets the key at its own position |
| Snapshots.NumberValidators | src/consensus/parlia/snapshot.rs:258-299 | indices follow the sorted order |
| Snapshots.CountRecentProposers | src/consensus/parlia/snapshot.rs:391-406 | the one-byte counters hold the number of counted heights per proposer modulo 256, and only real proposers have one |
| Snapshots.SignRecentlyByCounts | src/consensus/parlia/snapshot.rs:409-427 | the test on the counters, which is the one on the history as long as fewer than 256 heights are counted |
| Snapshots.ProposedBefore | src/consensus/parlia/snapshot.rs:178-187 | the scan before Bohr finds any entry of the proposer |
| Snapshots.PruneTo | src/consensus/parlia/snapshot.rs:191-205 | removes exactly the entries up to the finalized block |
| Snapshots.ShrinkWindow | src/consensus/parlia/snapshot.rs:248-256 | the key-by-key removal drops exactly the heights between the two limits, heights below 0 wrapped around |
| Snapshots.ApplyBlock | src/consensus/parlia/snapshot.rs:136-307 | the step-by-step transition equals the specification, rejections included |
| Snapshots.RecordBlock | src/consensus/parlia/snapshot.rs:188-232 | attestation, proposer, pruning, interval and epoch length, in this order |
| Snapshots.SwitchSet | src/consensus/parlia/snapshot.rs:234-299 | the set switch with marker, shrink, table and turn length |
| SnapshotRuns.StepKeepsInv | src/consensus/parlia/snapshot.rs:136-307 | every accepted block keeps the shape of the history, the counts and the set |
| SnapshotRuns.RunKeepsInv | src/consensus/parlia/snapshot.rs:136-307 | the invariant holds in every snapshot of every run |
| SnapshotRuns.FewAreBarred | src/consensus/parlia/snapshot.rs:391-427 | at most floor(N/2) validators are barred |
| SnapshotRuns.SomeoneCanPropose | src/consensus/parlia/snapshot.rs:136-307 | in every snapshot of every run there is a validator whose every next block is accepted |
| SnapshotRuns.FreeIsAccepted | src/consensus/parlia/snapshot.rs:156-187 | a validator the parent snapshot does not bar passes the check on the advanced snapshot, before and after Bohr |
| SnapshotRuns.AcceptanceBeforeBohr | src/consensus/parlia/snapshot.rs:156-187 | before Bohr a block is accepted if and only if its proposer is a validator the parent snapshot does not bar |
| SnapshotRuns.AcceptanceFromBohr | src/consensus/parlia/snapshot.rs:156-187 | from Bohr on a block is accepted if and only if its proposer is a validator with fewer than the turn length of blocks among the last (N/2 + 1) * turn - 2 before it |
| SnapshotRuns.HistoryBeforeBohr | src/consensus/parlia/snapshot.rs:161-189 | before Bohr the history holds distinct proposers of the last floor(N/2) + 1 blocks, also after the set grew or shrank |
| SnapshotRuns.CountersNeverOverflow | src/consensus/parlia/snapshot.rs:391-406 | every count stays within the turn length and so within a byte, on the snapshot and on the advanced one, in every run |
| SnapshotRuns.EpochLengthsAlign | src/consensus/parlia/snapshot.rs:219-232 | the epoch length never shrinks and changes only right before a boundary of the new length |
| ProposerTurns.EntryStays | src/consensus/parlia/snapshot.rs:161-165 | the entry of a block is there for a whole window, under its proposer |
| SnapshotHistory.EntryIsThere | src/consensus/parlia/snapshot.rs:161-205 | with an unchanged set, the entry of a block is there, under its proposer, if and only if fewer than (N/2 + 1) * turn blocks followed and no block past Maxwell found it finalized |
| SnapshotHistory.EpochLengthIs | src/consensus/parlia/snapshot.rs:219-232 | over runs that start with 200: the epoch length is 200, 500 or 1000, exactly according to which blocks past Lorentz and Maxwell ended a stretch of 500 or 1000 |
| SnapshotHistory.IntervalIs | src/consensus/parlia/snapshot.rs:207-217 | over runs the block interval is 3000, 1500, 750 or 450 ms, by the forks active at the last block |
| SnapshotHistory.RecordedVotes | src/consensus/parlia/snapshot.rs:309-337 | over runs the justified block is the target of the last attestation taken, the finalized one the source of the last that links consecutive heights |
| SnapshotHistory.NoVotesRecorded | src/consensus/parlia/snapshot.rs:309-337 | as long as no attestation is taken the vote data stay empty |
| ProposerTurns.TurnLimit | src/consensus/parlia/snapshot.rs:156-189 | no more than the turn length in any miner_history_check_len() consecutive blocks |
| ProposerTurns.TurnLimitWithSeals | src/node/evm/pre_execution.rs:503-570 | one block more when the parent-snapshot check is imposed too |
| ProposerTurns.SwitchMarks | src/consensus/parlia/snapshot.rs:234-247 | after a switch under Bohr the history is the marker alone, at 2^64 - 1 less the epoch |
| ProposerTurns.MarkerStays | src/consensus/parlia/snapshot.rs:234-247 | an epoch marker outlives the sliding window and the pruning |
| ProposerTurns.OneSwitchPerEpoch | src/consensus/parlia/snapshot.rs:234-247 | two switches under Bohr with the same epoch length lie in different epochs |
| InTurn.EachGetsItsTurn | src/consensus/parlia/snapshot.rs:361-373 | any N * turn consecutive heights give each validator exactly turn slots |
| InTurn.InTurnIsNotOver | src/consensus/parlia/snapshot.rs:161-187 | after an in-turn history the validator in turn is not over-proposed |
| InTurn.InTurnBlockIsAccepted | src/consensus/parlia/snapshot.rs:136-307 | an in-turn block after an in-turn history is accepted and keeps the history in turn, also if it switches the set under Bohr or announces the same set before |
| InTurn.InTurnProgress | src/consensus/parlia/snapshot.rs:136-307 | from a new or freshly switched snapshot of a run every chain of in-turn blocks is accepted in full, epoch boundaries included |
| InTurn.InTurnAfterSwitch | src/consensus/parlia/snapshot.rs:136-307 | before Bohr, after a switch to any set, the block in turn is accepted if and only if its proposer is not barred |
| InTurn.SwitchCanReject | src/consensus/parlia/snapshot.rs:178-187 | a concrete switch after which the validator in turn is rejected |
| GoRng.SeedRand | src/consensus/parlia/go_rng.rs:622-634 | Schrage's step equals 48271 x mod 2^31 - 1, in range, with no 32-bit overflow on the way |
| GoRng.SeedRandIsInjective | src/consensus/parlia/go_rng.rs:622-634 | different states have different successors |
| GoRng.SeederClosedForm | src/consensus/parlia/go_rng.rs:661-677 | k steps multiply by 48271^k |
| GoRng.Normalize | src/consensus/parlia/go_rng.rs:655-661 | the truncating remainder made positive is the seed modulo 2^31 - 1, with 89482311 for 0 |
| GoRng.MixedBit | src/consensus/parlia/go_rng.rs:664-675 | bit k of a mixed word is the sum modulo 2 of bit k - 40 of the first state, k - 20 of the second, k of the third and k of the table word |
| GoRng.SeededBit | src/consensus/parlia/go_rng.rs:651-678 | every bit of the seeded register, in closed form from the seed |
| GoRng.MixedWord | src/consensus/parlia/go_rng.rs:664-675 | three seeder steps and one table word give the register word the closed form names |
| GoRng.FillRegister | src/consensus/parlia/go_rng.rs:661-677 | the seeding loop fills the register with the words its closed form names |
| GoRng.RngSource.Seed | src/consensus/parlia/go_rng.rs:651-678 | after seeding the register is the history of its own sequence |
| GoRng.RingReads | src/consensus/parlia/go_rng.rs:686-693 | the two registers read are y(n - 607) and y(n - 273) |
| GoRng.RingStep | src/consensus/parlia/go_rng.rs:686-693 | overwriting the feed slot keeps the last 607 words |
| GoRng.FeedLeadsTap | src/consensus/parlia/go_rng.rs:686-693 | feed minus tap is 334 modulo 607 after any number of calls |
| GoRng.RngSource.Uint64 | src/consensus/parlia/go_rng.rs:686-693 | every call returns y(n) = y(n - 607) + y(n - 273) mod 2^64, for any number of calls |
| GoRng.Recurrence | src/consensus/parlia/go_rng.rs:651-693 | the lags are 607 and 273, the modulus 2^64, and y(0), y(-1), .. are the seeded words from index 334 up |
| GoRng.RngSource.Uint32 | src/consensus/parlia/go_rng.rs:681-698 | bits 31 to 62 of that word |
| GoRng.DrawnBit | src/consensus/parlia/go_rng.rs:681-698 | bit k of a draw is bit k + 31 of its word |
| BoundedDraws.DrawsAreUniform | src/consensus/parlia/go_rng.rs:723-736 | for every bound n each r below n has exactly floor(2^32 / n) accepted draws |
| BoundedDraws.Int31n | src/consensus/parlia/go_rng.rs:723-736 | returns the scaled first accepted draw, below n, and has used exactly the draws up to it |
| BoundedDraws.Redraw | src/consensus/parlia/go_rng.rs:728-733 | the rejection loop stops at the first accepted draw |
| Shuffle.ShufflePermutes | src/consensus/parlia/go_rng.rs:746-770 | whatever the picks, the result is a permutation |
| Shuffle.PicksAreDetermined | src/consensus/parlia/go_rng.rs:746-770 | different picks give different permutations |
| Shuffle.EveryPermutationIsReached | src/consensus/parlia/go_rng.rs:746-770 | every permutation is reached by some picks |
| Shuffle.ShuffleRound | src/consensus/parlia/go_rng.rs:764-769 | position i is swapped with a position up to i, drawn uniformly with the bound i + 1 |
| Shuffle.ShuffleInPlace | src/consensus/parlia/go_rng.rs:746-770 | the in-place loop over the generator performs that shuffle |
| BackOff.WaitsAreApart | src/consensus/parlia/consensus.rs:413-553 | two eligible validators wait at least 1000 ms apart |
| BackOff.StepZeroLeads | src/consensus/parlia/consensus.rs:413-553 | with the validator in turn barred, the candidate dealt step 0 waits 0 |
| BackOff.UniqueLeader | src/consensus/parlia/consensus.rs:413-553 | in every snapshot of every run from Planck on exactly one eligible validator waits 0 and all waits are apart |
| BackOff.WaitsInNumbers | src/consensus/parlia/consensus.rs:413-553 | in every snapshot of every run from Planck on the set of waits, in milliseconds: with the validator in turn barred 0 and 2000, 3000, .. past Lorentz, or 0, 1000, .. before; otherwise 2000 or 1000 and up in steps of 1000 |
| BackOff.WaitsWhenBarred | src/consensus/parlia/consensus.rs:436-553 | one wait per candidate: 0, then 1000 * (k + 1) past Lorentz and 1000 * k before |
| BackOff.WaitsWhenFree | src/consensus/parlia/consensus.rs:436-553 | one wait per candidate out of turn, from Bohr on |
| BackOff.WaitsBeforeBohr | src/consensus/parlia/consensus.rs:436-553 | before Bohr the step dealt to the validator in turn is left out |
| BackOff.WaitsBeforePlanck | src/consensus/parlia/consensus.rs:413-553 | before Planck every validator out of turn, barred or not, waits for the step dealt to its own position |
| BackOff.SameTurnSameSteps | src/consensus/parlia/consensus.rs:472-520 | slots of one turn with equally many candidates are dealt the same steps |
| BackOff.Retain | src/consensus/parlia/consensus.rs:413-553 | the candidate list after dropping the barred and, from Bohr on, the validator in turn |
| BackOff.DealSteps | src/consensus/parlia/consensus.rs:472-520 | the seed is the number over the turn length from Bohr on and the parent number before; the steps are that shuffle of 0, 1, .. |
| BackOff.SeedAndShuffle | src/consensus/parlia/consensus.rs:413-553 | seeding and shuffling give the steps of the specification |
| BackOff.FindWait | src/consensus/parlia/consensus.rs:413-553 | the wait of the validator's position, 0 when it has none |
| BackOff.ComputeBackOff | src/consensus/parlia/consensus.rs:413-553 | the whole computation equals the back-off function of the slot |
| Provider.SoundStays | src/consensus/parlia/provider.rs:140-156 | a growing block tree does not spoil what is stored |
| Provider.FoundIsOwn | src/consensus/parlia/provider.rs:258-350 | on the canonical chain the checkpoint found by number is the block's own |
| Provider.CanonicalLookupsAgree | src/consensus/parlia/provider.rs:258-350 | so on the canonical chain all lookups agree |
| Provider.HarmlessIsExact | src/consensus/parlia/provider.rs:258-350 | a header applied with the checkpoint found and with its own gives the same if and only if a check fails, the set does not switch, or both read the same effect |
| Provider.RebuildStepIsExact | src/consensus/parlia/provider.rs:258-350 | on the replayed parent, a step of the rebuild with the checkpoint found by number is the replay if and only if that checkpoint is harmless |
| OtherBranches.OtherSetHarms | src/consensus/parlia/provider.rs:258-350 | a checkpoint of another branch written with other validators makes the rebuilt snapshot wrong whenever the block passes and switches |
| OtherBranches.TwoBranches | src/consensus/parlia/provider.rs:258-350 | two concrete block headers with different announcements and a rebuild that is wrong |
| Provider.FailurePropagates | src/consensus/parlia/provider.rs:219-352 | a block that cannot be replayed spoils every block above it on the walk |
| Provider.SnapshotProvider.Find | src/consensus/parlia/provider.rs:126-138 | cache, then database; whatever is found is the replay of that block |
| Provider.SnapshotProvider.Insert | src/consensus/parlia/provider.rs:140-156 | writes keep every stored snapshot a replay; only checkpoints reach the database |
| Provider.SnapshotProvider.InitGenesis | src/consensus/parlia/provider.rs:190-217 | the genesis snapshot is the replay of genesis |
| Provider.SnapshotProvider.FindBase | src/consensus/parlia/provider.rs:220-246 | the backward walk ends at a stored ancestor with all hashes in between |
| Provider.SnapshotProvider.ApplyWalk | src/consensus/parlia/provider.rs:258-350 | applying the walk gives the replay of the target |
| Provider.SnapshotProvider.TryRebuild | src/consensus/parlia/provider.rs:219-352 | the rebuilt snapshot is the replay of the block |
| Provider.SnapshotProvider.SnapshotByHash | src/consensus/parlia/provider.rs:162-182 | whatever was evicted, the answer is the replay from genesis, on any branch whose checkpoint lookups agree; with all headers known it is that in both directions |
| Announcements.AnnouncementTakesEffect | src/consensus/parlia/provider.rs:258-350 | end to end: after a boundary block that passes, the replay has the sorted validators the checkpoint was written with, each with the key at its own position, and its turn length if it was written under Bohr |
| Announcements.BoundaryInNumbers | src/consensus/parlia/provider.rs:258-308 | the boundary is (N/2 + 1) * turn - 1 blocks after a multiple of the epoch length, and reads the checkpoint at that multiple |
| Announcements.NothingBetween | src/consensus/parlia/provider.rs:258-350 | a block that is no boundary keeps validators, table and turn length |
| Announcements.GenesisTakesEffect | src/consensus/parlia/provider.rs:190-217 | the first snapshot has the validators written into genesis, epochs of 200, turns of 1 and an interval of 3000 ms |
| Announcements.ReadsWhole | src/consensus/parlia/consensus.rs:345-410 | validators, keys and turn length of a written checkpoint are read as written |
| ExtraData.AppendValidators | src/consensus/parlia/consensus.rs:598-650 | appends the sorted validator records of the fork era |
| ExtraData.ReadKeyed | src/consensus/parlia/consensus.rs:371-393 | reads fixed-width records of address and key |
| ExtraData.ReadPlain | src/consensus/parlia/consensus.rs:395-410 | reads fixed-width addresses |
| ExtraData.EpochLayout | src/node/miner/util.rs:79-152 | vanity, validators, turn length, attestation and seal tile the bytes of an epoch header exactly |
| ExtraData.ReadKeysAreOwn | src/consensus/parlia/consensus.rs:598-650 | each validator reads back next to its own key, zero keys at the Luban transition |
| ExtraData.ParsedIsUsable | src/consensus/parlia/consensus.rs:345-410 | a validator list that parses at an epoch block is not empty and its keys match it |
| ExtraData.LubanValidatorsReadBack | src/consensus/parlia/consensus.rs:345-393 | from Luban on the sorted validators and keys read back if and only if there are 1 to 255 |
| ExtraData.PlainValidatorsReadBack | src/consensus/parlia/consensus.rs:345-410 | before Luban they read back if and only if there is one at least |
| ExtraData.LubanFieldsReadBack | src/consensus/parlia/consensus.rs:124-199 | turn length and attestation of an epoch header read back, bytes that do not decode are an error, and the length checks pass |
| ExtraData.PlainBlockReadsBack | src/consensus/parlia/consensus.rs:153-199 | between epochs the attestation reads back or is an error as its bytes decode, none is read before Luban, and there are no validators |
| ExtraData.ShapeGivesFields | src/consensus/parlia/consensus.rs:290-343 | headers of this shape pass the stateless checks |
| ExtraData.CheckIsExact | src/consensus/parlia/consensus.rs:290-343 | vanity, then seal; between epochs 97 bytes pass; at an epoch block the check passes what parses, and under Bohr also the one length 98 + 68 * count, which does not parse |
| Attestations.TableStaysOk | src/consensus/parlia/snapshot.rs:258-299 | in every snapshot of every run the table numbers the validators 1 to N in list order |
| Attestations.BitsNameVoters | src/consensus/parlia/consensus.rs:815-829 | bit i is set exactly when validator i voted, and the popcount is the number of entries |
| Attestations.CountErrorIsCollision | src/consensus/parlia/consensus.rs:815-829 | for any number of validators the count error happens exactly when two voters share a bit |
| Attestations.UniqueVotesHold | src/consensus/parlia/consensus.rs:775-789 | a key survives deduplication exactly when a validator's vote in the pool carries it, with the signature of the first such vote |
| Attestations.AttestationIsSound | src/consensus/parlia/consensus.rs:775-829 | for up to 64 validators the bits name exactly the voters, three times as many as twice the set at least, and the count error is unreachable |
| Attestations.VerifierCounts | src/node/evm/pre_execution.rs:409-494 | genuine signatures of the validators the bits name are accepted if and only if there are no more bits than validators, three times the named are at least twice the set, and none of them has the zero key |
| Attestations.ExtraLengthIsExact | src/node/evm/pre_execution.rs:302-334 | before Plato everything passes; from it on the extra bytes of an attestation matter by their number only, and up to 256 are accepted |
| Attestations.SearchIsExact | src/consensus/parlia/consensus.rs:726-750 | the search finds the first block back, above the justified one and within the depth, with enough votes |
| Attestations.SearchReach | src/consensus/parlia/consensus.rs:726-750 | in numbers: the parent, and after Fermi also the two blocks before it |
| Attestations.AssembledGoesForward | src/consensus/parlia/consensus.rs:700-765 | the target is above the justified block, at most the parent, within the allowed depth |
| Attestations.AggregateVerifies | src/node/evm/pre_execution.rs:409-494 | the verifier reads exactly the keys the producer aggregated |
| Attestations.AssembledVerifies | src/consensus/parlia/consensus.rs:700-848 | whatever is assembled from genuine votes verifies if and only if a block was justified before |
| Attestations.FindTarget | src/consensus/parlia/consensus.rs:726-750 | the search loop equals the recursive search, errors included |
| Attestations.KeepFirstVotes | src/consensus/parlia/consensus.rs:775-789 | keeps the first signature of each validator key |
| Attestations.OrderVotes | src/consensus/parlia/consensus.rs:791-797 | orders the kept votes by validator |
| Attestations.SetBits | src/consensus/parlia/consensus.rs:815-829 | sets the bit of each entry and collects the signatures |
| Attestations.Aggregate | src/consensus/parlia/consensus.rs:767-834 | the checks and the aggregation in their order |
| Attestations.AssembleVoteAttestation | src/consensus/parlia/consensus.rs:700-848 | the whole assembly equals its specification |
| Attestations.MatchAncestor | src/node/evm/pre_execution.rs:335-376 | the verifier's walk finds the ancestor the target names, or none |
| Attestations.AncestorIsExact | src/node/evm/pre_execution.rs:335-376 | it finds one if and only if the target is the block k before, for some k below the depth |
| Attestations.VerifierReach | src/node/evm/pre_execution.rs:335-376 | in numbers: the parent, and after Fermi also the two blocks before it |
| ForkChoice.RuleFollowsRank | src/consensus/parlia/forkchoice_rule.rs:41-198 | the rule follows the rank of the era; between equals of one producer the lower hash wins, and the coin matters exactly between equals of different producers |
| ForkChoice.ErrorIsExact | src/consensus/parlia/forkchoice_rule.rs:41-198 | an unknown total difficulty is an error exactly when the justified numbers do not decide |
| ForkChoice.RuleIsAsymmetric | src/consensus/parlia/forkchoice_rule.rs:41-198 | without the coin the rule never prefers each of two heads to the other, in any era |
| ForkChoice.HeadIsBest | src/node/consensus.rs:394-432 | over any run with at most one header from before Plato, or only such, and all coins, the head is one of the headers seen and none ranks above it |
| ForkChoice.HeadHasLowestHash | src/node/consensus.rs:394-432 | where headers of the same rank come from one producer, the head has the lowest hash of its rank |
| ForkChoice.HeadNeverGetsWorse | src/node/consensus.rs:394-432 | the rank of the head never goes down |
| ForkChoice.NodesAgree | src/node/consensus.rs:394-432 | nodes that saw the same headers in any order agree when no two have the same rank |
| ForkChoice.NoOtherCircle | src/consensus/parlia/forkchoice_rule.rs:41-198 | heads of known difficulty form a circle only if exactly one is past Plato |
| ForkChoice.CirclesAreExact | src/consensus/parlia/forkchoice_rule.rs:41-198 | heads that can occur form a circle in given eras if and only if exactly one is past Plato, and Plato is at height 3 or later and after Luban |
| ForkChoice.CircleMovesTheHead | src/node/consensus.rs:394-432 | around a circle the head comes back to where it was, for all coins |
| ForkChoice.Engine.UpdateForkchoice | src/node/consensus.rs:394-432 | one update moves the head as the rule says; an unknown difficulty is an error that leaves it alone |

## Left out

- Cryptography and codecs: BLS, ECDSA, keccak, RLP and CBOR are ideal or parameters.
- Finality.FinalityIsSafe: assumes a fixed validator set, journal writes that succeed, that Luban and Plato are active, and of the honest votes what `RunIsUnslashable` assumes; `WindowsAreExact` shows why.
- AcceptedBlocks.AcceptedIsVerified: assumes that every snapshot lists the fixed validator set and that each validator has its own key.
- FinalityProgress.FinalityStaysPossible: that votes reach the pool is not guaranteed; the theorem says a continuation exists, and `OneStrayVoteStopsAll` shows what a single other vote in the pool does. At most 64 validators, as the bit set has.
- JournalSafety.RunIsUnslashable: votes that span more than 258 and start lower than an earlier one, or that lag more than 11 and start higher, are signed by the source too and not protected; `WindowsAreExact` has the condition.
- VoteJournal.Journal.WriteVote: write errors and memory-only mode are not modelled.
- VoteProducer.Producer.MaybeProduce: the wall clock, the downloader state, the signer and the membership of the local key are inputs; a failing signature or journal write is not modelled.
- Journal files: paths, environment variables, memory-only mode and write errors.
- Snapshots.ApplyBlock: requires that the one-byte counters fit, which `CountersNeverOverflow` shows in every run, and lists shorter than 2^63; `check_header_extra` takes its epoch length from the fork schedule and the model takes it as a parameter.
- BoundedDraws.Int31n: the draws are those of the generator; that a rejection loop ends is the precondition `Eventually`, which is exactly its termination.
- Shuffle.ShuffleInPlace: vectors of 2^31 elements or more and `int63n`, which they alone use.
- Provider.SnapshotProvider.SnapshotByHash: where a checkpoint of another branch does harm the answer is not the replay; `RebuildStepIsExact` has the condition. Headers with turn length 0 are excluded; database errors and the eviction order of the cache are not modelled.
- Attestations.AttestationIsSound: with more than 64 validators the bit index wraps and only `CountErrorIsCollision` applies; the vote pool and its pruning are a given map; the order in which the source iterates over its hash map is the list order here, which the multiset of signatures and the bit set do not depend on.
- InTurn.InTurnProgress: before Bohr only the current set may be announced again; `InTurnAfterSwitch` has the condition for any other.
- ForkChoice.Engine.UpdateForkchoice: the answer of the execution engine and its errors are not modelled.
- ForkChoice.HeadIsBest: total difficulty and justified number of a header are given; `header_td`, its cache, and the engine's answer are not modelled.
- Time: `prepare_timestamp`, `delay_for_mining` and the Ramanujan checks.
- Header fields and difficulty checks of `verify_seal` other than the recent-signer check.
- The rest of the node: RPC, MEV, EVM execution, system contracts, hardfork tables, networking, storage and command line are input, output and glue around this core.
