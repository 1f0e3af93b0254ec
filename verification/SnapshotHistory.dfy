/**
 What a snapshot records at the end of a run, read off the inputs of the run: the epoch
 length, the block interval, the votes, and which blocks are still in the history.
 */
module SnapshotHistory {
  import opened Types
  import opened Snapshots
  import opened SnapshotRuns
  import opened ProposerTurns
  import Arith

  predicate LorentzAt(spec: ChainSpec, h: Header) {
    spec.LorentzActive(h.number, h.timestamp)
  }

  predicate MaxwellAt(spec: ChainSpec, h: Header) {
    spec.MaxwellActive(h.number, h.timestamp)
  }

  predicate FermiAt(spec: ChainSpec, h: Header) {
    spec.FermiActive(h.number, h.timestamp)
  }

  // ---------------------------------------------------------------------------
  // The epoch length
  // ---------------------------------------------------------------------------

  lemma EpochStep(spec: ChainSpec, s: Snapshot, input: BlockInput, s': Snapshot)
    requires IsStep(spec, s, input, s') && spec.lorentz <= spec.maxwell && s.epochNum in {200, 500, 1000}
    ensures s'.epochNum in {200, 500, 1000}
    ensures s'.epochNum != 200 <==> s.epochNum != 200 || Ends500(spec, input)
    ensures s'.epochNum == 1000 <==> s.epochNum == 1000 || Ends1000(spec, input)
  {
    var n := input.header.number;
    assert s'.epochNum == NextEpochNum(s.epochNum, n, LorentzAt(spec, input.header), MaxwellAt(spec, input.header));
    ThousandIsTwice(n + 1);
  }

  lemma ThousandIsTwice(n: nat)
    ensures n % 1000 == 0 ==> n % 500 == 0
  {
    if n % 1000 == 0 {
      Arith.DivUnique(n, 500, 2 * (n / 1000), 0);
    }
  }

  /** The block is under Lorentz and the last before a multiple of 500. */
  predicate Ends500(spec: ChainSpec, input: BlockInput) {
    LorentzAt(spec, input.header) && (input.header.number + 1) % 500 == 0
  }

  predicate Ends1000(spec: ChainSpec, input: BlockInput) {
    MaxwellAt(spec, input.header) && (input.header.number + 1) % 1000 == 0
  }

  ghost predicate Reached500(spec: ChainSpec, inputs: seq<BlockInput>, j: nat)
    requires j <= |inputs|
  {
    exists i :: 0 <= i < j && Ends500(spec, inputs[i])
  }

  ghost predicate Reached1000(spec: ChainSpec, inputs: seq<BlockInput>, j: nat)
    requires j <= |inputs|
  {
    exists i :: 0 <= i < j && Ends1000(spec, inputs[i])
  }

  lemma ReachedStep(spec: ChainSpec, inputs: seq<BlockInput>, j: nat)
    requires 0 < j <= |inputs|
    ensures Reached500(spec, inputs, j) <==> Reached500(spec, inputs, j - 1) || Ends500(spec, inputs[j - 1])
    ensures Reached1000(spec, inputs, j) <==> Reached1000(spec, inputs, j - 1) || Ends1000(spec, inputs[j - 1])
  {
  }

  /**
   The epoch length of every snapshot of a run that starts with 200: it has left 200 if
   and only if some block under Lorentz came right before a multiple of 500, and it is
   1000 if and only if some block under Maxwell came right before a multiple of 1000.
   */
  lemma {:induction false} EpochLengthIs(spec: ChainSpec, states: seq<Snapshot>, inputs: seq<BlockInput>, j: nat)
    requires IsRun(spec, states, inputs) && j < |states| && spec.lorentz <= spec.maxwell && states[0].epochNum == 200
    ensures states[j].epochNum in {200, 500, 1000}
    ensures states[j].epochNum != 200 <==> Reached500(spec, inputs, j)
    ensures states[j].epochNum == 1000 <==> Reached1000(spec, inputs, j)
  {
    if j > 0 {
      EpochLengthIs(spec, states, inputs, j - 1);
      assert IsStep(spec, states[j - 1], inputs[j - 1], states[j]);
      EpochStep(spec, states[j - 1], inputs[j - 1], states[j]);
      ReachedStep(spec, inputs, j);
    }
  }

  // ---------------------------------------------------------------------------
  // The block interval
  // ---------------------------------------------------------------------------

  /** The forks come in their order, and time does not go back along the run. */
  ghost predicate ForksInOrder(spec: ChainSpec, inputs: seq<BlockInput>) {
    && spec.lorentz <= spec.maxwell <= spec.fermi
    && forall i, j :: 0 <= i <= j < |inputs| ==>
         inputs[i].header.timestamp <= inputs[j].header.timestamp && inputs[i].header.number <= inputs[j].header.number
  }

  /** The interval in milliseconds after every block of a run. */
  lemma {:induction false} IntervalIs(spec: ChainSpec, states: seq<Snapshot>, inputs: seq<BlockInput>, j: nat)
    requires IsRun(spec, states, inputs) && ForksInOrder(spec, inputs) && j < |inputs|
    ensures states[0].blockInterval == 3000
    ensures var h := inputs[j].header;
            states[j + 1].blockInterval ==
              if FermiAt(spec, h) then 450 else if MaxwellAt(spec, h) then 750 else if LorentzAt(spec, h) then 1500 else 3000
  {
    assert IsStep(spec, states[j], inputs[j], states[j + 1]);
    if j > 0 {
      IntervalIs(spec, states, inputs, j - 1);
      assert inputs[j - 1].header.timestamp <= inputs[j].header.timestamp;
    }
  }

  // ---------------------------------------------------------------------------
  // The votes
  // ---------------------------------------------------------------------------

  /** The attestation in block i is taken over: after Fermi any, before only one for the parent. */
  ghost predicate Taken(spec: ChainSpec, states: seq<Snapshot>, inputs: seq<BlockInput>, i: nat)
    requires i < |inputs| < |states|
  {
    && inputs[i].attestation.Some?
    && var d := inputs[i].attestation.value.data;
       FermiAt(spec, inputs[i].header) || (d.targetNumber == states[i].blockNumber && d.targetHash == states[i].blockHash)
  }

  /** Moreover its target is one above its source, so the source becomes final. */
  ghost predicate Finalizing(spec: ChainSpec, states: seq<Snapshot>, inputs: seq<BlockInput>, i: nat)
    requires i < |inputs| < |states|
  {
    && Taken(spec, states, inputs, i)
    && inputs[i].attestation.value.data.targetNumber == inputs[i].attestation.value.data.sourceNumber + 1
  }

  /** Each header names the block before it as its parent. */
  ghost predicate Linked(states: seq<Snapshot>, inputs: seq<BlockInput>) {
    |inputs| < |states| && forall i :: 0 <= i < |inputs| ==> inputs[i].header.parentHash == states[i].blockHash
  }

  function DataAt(inputs: seq<BlockInput>, i: nat): VoteData
    requires i < |inputs| && inputs[i].attestation.Some?
  {
    inputs[i].attestation.value.data
  }

  lemma VotesStep(spec: ChainSpec, states: seq<Snapshot>, inputs: seq<BlockInput>, j: nat)
    requires IsRun(spec, states, inputs) && Linked(states, inputs) && j < |inputs|
    ensures var before, after := states[j].voteData, states[j + 1].voteData;
            if Taken(spec, states, inputs, j) then
              && after.targetNumber == DataAt(inputs, j).targetNumber && after.targetHash == DataAt(inputs, j).targetHash
              && if Finalizing(spec, states, inputs, j)
                 then after.sourceNumber == DataAt(inputs, j).sourceNumber && after.sourceHash == DataAt(inputs, j).sourceHash
                 else after.sourceNumber == before.sourceNumber && after.sourceHash == before.sourceHash
            else after == before
  {
    assert IsStep(spec, states[j], inputs[j], states[j + 1]);
  }

  /** Block i is the last of the first j blocks whose attestation is taken over. */
  ghost predicate LastTaken(spec: ChainSpec, states: seq<Snapshot>, inputs: seq<BlockInput>, i: nat, j: nat)
    requires i < j <= |inputs| < |states|
  {
    Taken(spec, states, inputs, i) && forall k :: i < k < j ==> !Taken(spec, states, inputs, k)
  }

  ghost predicate LastFinalizing(spec: ChainSpec, states: seq<Snapshot>, inputs: seq<BlockInput>, i: nat, j: nat)
    requires i < j <= |inputs| < |states|
  {
    Finalizing(spec, states, inputs, i) && forall k :: i < k < j ==> !Finalizing(spec, states, inputs, k)
  }

  /**
   The votes on record after j blocks: the justified block is the target of the last
   attestation taken over, and the finalized one the source of the last that was
   finalizing; while there is none, both are as at the start.
   */
  lemma RecordedVotes(spec: ChainSpec, states: seq<Snapshot>, inputs: seq<BlockInput>, i: nat, j: nat)
    requires IsRun(spec, states, inputs) && Linked(states, inputs) && i < j <= |inputs|
    ensures LastTaken(spec, states, inputs, i, j) ==>
              && states[j].voteData.targetNumber == DataAt(inputs, i).targetNumber
              && states[j].voteData.targetHash == DataAt(inputs, i).targetHash
    ensures LastFinalizing(spec, states, inputs, i, j) ==>
              && states[j].voteData.sourceNumber == DataAt(inputs, i).sourceNumber
              && states[j].voteData.sourceHash == DataAt(inputs, i).sourceHash
  {
    if LastTaken(spec, states, inputs, i, j) {
      RecordedTarget(spec, states, inputs, i, j);
    }
    if LastFinalizing(spec, states, inputs, i, j) {
      RecordedSource(spec, states, inputs, i, j);
    }
  }

  lemma {:induction false} RecordedTarget(spec: ChainSpec, states: seq<Snapshot>, inputs: seq<BlockInput>, i: nat, j: nat)
    requires IsRun(spec, states, inputs) && Linked(states, inputs) && i < j <= |inputs|
    requires LastTaken(spec, states, inputs, i, j)
    ensures states[j].voteData.targetNumber == DataAt(inputs, i).targetNumber
    ensures states[j].voteData.targetHash == DataAt(inputs, i).targetHash
    decreases j
  {
    VotesStep(spec, states, inputs, j - 1);
    if i < j - 1 {
      RecordedTarget(spec, states, inputs, i, j - 1);
    }
  }

  lemma {:induction false} RecordedSource(spec: ChainSpec, states: seq<Snapshot>, inputs: seq<BlockInput>, i: nat, j: nat)
    requires IsRun(spec, states, inputs) && Linked(states, inputs) && i < j <= |inputs|
    requires LastFinalizing(spec, states, inputs, i, j)
    ensures states[j].voteData.sourceNumber == DataAt(inputs, i).sourceNumber
    ensures states[j].voteData.sourceHash == DataAt(inputs, i).sourceHash
    decreases j
  {
    VotesStep(spec, states, inputs, j - 1);
    if i < j - 1 {
      RecordedSource(spec, states, inputs, i, j - 1);
    }
  }

  lemma {:induction false} NoVotesRecorded(spec: ChainSpec, states: seq<Snapshot>, inputs: seq<BlockInput>, j: nat)
    requires IsRun(spec, states, inputs) && Linked(states, inputs) && j <= |inputs|
    requires forall k :: 0 <= k < j ==> !Taken(spec, states, inputs, k)
    ensures states[j].voteData == NO_VOTES
  {
    if j > 0 {
      NoVotesRecorded(spec, states, inputs, j - 1);
      VotesStep(spec, states, inputs, j - 1);
    }
  }

  // ---------------------------------------------------------------------------
  // The proposer history, pruning included
  // ---------------------------------------------------------------------------

  /** From snapshot i to snapshot j the set never changes. */
  ghost predicate Steady(spec: ChainSpec, states: seq<Snapshot>, inputs: seq<BlockInput>, i: nat, j: nat)
    requires IsRun(spec, states, inputs) && i <= j < |states|
  {
    forall x :: i <= x < j ==> states[x].WellFormed() && !ChangesSet(spec, states[x], inputs[x])
  }

  /** The finalized block reached height k, under Maxwell, at some block after x and up to y. */
  ghost predicate Finalized(spec: ChainSpec, states: seq<Snapshot>, inputs: seq<BlockInput>, x: nat, y: nat, k: nat)
    requires x <= y <= |inputs| < |states|
  {
    exists i :: x <= i < y && MaxwellAt(spec, inputs[i].header) && states[i + 1].voteData.sourceNumber >= k
  }

  /** How long the history is: (N/2 + 1) turns. */
  function Window(s: Snapshot): nat {
    (|s.validators| / 2 + 1) * s.Turn()
  }

  lemma SteadyStep(spec: ChainSpec, s: Snapshot, input: BlockInput, s': Snapshot, k: nat)
    requires IsStep(spec, s, input, s') && !ChangesSet(spec, s, input)
    ensures s'.validators == s.validators && s'.Turn() == s.Turn() && s'.blockNumber == s.blockNumber + 1
    ensures k in s'.recentProposers <==>
              && (k == s'.blockNumber || (k in s.recentProposers && k + Window(s) != s'.blockNumber))
              && (MaxwellAt(spec, input.header) ==> k > s'.voteData.sourceNumber)
    ensures k in s'.recentProposers ==>
              s'.recentProposers[k] == if k == s'.blockNumber then input.proposer else s.recentProposers[k]
  {
    assert s.MinerHistoryCheckLen() + 1 == Window(s);
  }

  lemma {:induction false} SteadyKeepsSet(spec: ChainSpec, states: seq<Snapshot>, inputs: seq<BlockInput>, i: nat, j: nat)
    requires IsRun(spec, states, inputs) && i <= j < |states| && Steady(spec, states, inputs, i, j)
    ensures Window(states[j]) == Window(states[i])
  {
    if i < j {
      SteadyKeepsSet(spec, states, inputs, i, j - 1);
      assert IsStep(spec, states[j - 1], inputs[j - 1], states[j]);
      SteadyStep(spec, states[j - 1], inputs[j - 1], states[j], 0);
    }
  }

  /** The entry of height k, proposed by v, is in s exactly when it should be. */
  ghost predicate EntryRight(s: Snapshot, k: nat, v: Address, there: bool) {
    (k in s.recentProposers <==> there) && (k in s.recentProposers ==> s.recentProposers[k] == v)
  }

  /** One block on: the entry is new, or stays unless its window ends here or the finalized block reached it. */
  lemma EntryStep(spec: ChainSpec, s: Snapshot, input: BlockInput, s': Snapshot, k: nat, v: Address, there: bool)
    requires IsStep(spec, s, input, s') && !ChangesSet(spec, s, input)
    requires if k == s'.blockNumber then input.proposer == v else EntryRight(s, k, v, there)
    ensures EntryRight(s', k, v,
              && (k == s'.blockNumber || (there && k + Window(s) != s'.blockNumber))
              && !(MaxwellAt(spec, input.header) && s'.voteData.sourceNumber >= k))
  {
    SteadyStep(spec, s, input, s', k);
  }

  /**
   Exactly how long a block stays in the history: between set switches, the entry of block
   x is in snapshot y if and only if no more than (N/2 + 1) turns have passed and the
   finalized block has not reached it under Maxwell.
   */
  lemma {:induction false} EntryIsThere(spec: ChainSpec, states: seq<Snapshot>, inputs: seq<BlockInput>, x: nat, y: nat)
    requires IsRun(spec, states, inputs) && x < y < |states| && Steady(spec, states, inputs, x, y)
    ensures var k := states[0].blockNumber + x + 1;
            EntryRight(states[y], k, inputs[x].proposer,
              y - x <= (|states[x].validators| / 2 + 1) * states[x].Turn() && !Finalized(spec, states, inputs, x, y, k))
    decreases y
  {
    var k, v := states[0].blockNumber + x + 1, inputs[x].proposer;
    RunNumbers(spec, states, inputs, y);
    WindowStays(spec, states, inputs, x, y - 1);
    assert IsStep(spec, states[y - 1], inputs[y - 1], states[y]);
    var there := y > x + 1 && y - 1 - x <= Window(states[x]) && !Finalized(spec, states, inputs, x, y - 1, k);
    if y > x + 1 {
      EntryIsThere(spec, states, inputs, x, y - 1);
    }
    EntryStep(spec, states[y - 1], inputs[y - 1], states[y], k, v, there);
    FinalizedStep(spec, states, inputs, x, y, k);
  }

  lemma WindowStays(spec: ChainSpec, states: seq<Snapshot>, inputs: seq<BlockInput>, x: nat, y: nat)
    requires IsRun(spec, states, inputs) && x <= y < |states| && Steady(spec, states, inputs, x, y)
    ensures Window(states[y]) == Window(states[x]) >= 1
  {
    SteadyKeepsSet(spec, states, inputs, x, y);
    WindowIsPositive(spec, states, inputs, x);
  }

  lemma WindowIsPositive(spec: ChainSpec, states: seq<Snapshot>, inputs: seq<BlockInput>, x: nat)
    requires IsRun(spec, states, inputs) && x < |states|
    ensures Window(states[x]) >= 1
  {
    RunNumbers(spec, states, inputs, x);
    assert states[x].MinerHistoryCheckLen() + 1 == Window(states[x]);
  }

  lemma FinalizedStep(spec: ChainSpec, states: seq<Snapshot>, inputs: seq<BlockInput>, x: nat, y: nat, k: nat)
    requires x < y <= |inputs| < |states|
    ensures Finalized(spec, states, inputs, x, y, k) <==>
              Finalized(spec, states, inputs, x, y - 1, k)
              || (MaxwellAt(spec, inputs[y - 1].header) && states[y].voteData.sourceNumber >= k)
  {
  }
}
