/**
 Who proposes what over a run: how long an entry of the proposer history lasts, the
 turn limit, and the one set switch per epoch.
 */
module ProposerTurns {
  import opened Types
  import opened Snapshots
  import opened SnapshotRuns
  import opened Counting
  import opened Arith

  /** The validator set changes when input is applied to s. */
  ghost predicate ChangesSet(spec: ChainSpec, s: Snapshot, input: BlockInput)
    requires s.WellFormed()
  {
    Switches(Recorded(Advanced(s, input.header), input, spec), input, BohrAt(spec, input.header), s.epochNum)
  }

  lemma {:induction false} RunNumbers(spec: ChainSpec, states: seq<Snapshot>, inputs: seq<BlockInput>, i: nat)
    requires IsRun(spec, states, inputs) && i < |states|
    ensures states[i].WellFormed() && states[i].blockNumber == states[0].blockNumber + i
    ensures i < |inputs| ==> inputs[i].header.number == states[0].blockNumber + i + 1
  {
    if i > 0 {
      RunNumbers(spec, states, inputs, i - 1);
      assert IsStep(spec, states[i - 1], inputs[i - 1], states[i]);
    } else {
      StartIsOk(states[0]);
    }
    if i < |inputs| {
      assert IsStep(spec, states[i], inputs[i], states[i + 1]);
    }
  }

  // ---------------------------------------------------------------------------
  // The turn limit
  // ---------------------------------------------------------------------------

  /** From snapshot i to snapshot j the set never changes and nothing is pruned. */
  ghost predicate Quiet(spec: ChainSpec, states: seq<Snapshot>, inputs: seq<BlockInput>, i: nat, j: nat)
    requires IsRun(spec, states, inputs) && i <= j < |states|
  {
    forall x :: i <= x < j ==> QuietStep(spec, states[x], inputs[x])
  }

  ghost predicate QuietStep(spec: ChainSpec, s: Snapshot, input: BlockInput) {
    && s.WellFormed() && !ChangesSet(spec, s, input)
    && !spec.MaxwellActive(input.header.number, input.header.timestamp)
  }

  lemma QuietStepKeeps(spec: ChainSpec, s: Snapshot, input: BlockInput, s': Snapshot)
    requires IsStep(spec, s, input, s') && QuietStep(spec, s, input)
    ensures s'.validators == s.validators && s'.Turn() == s.Turn()
    ensures s'.blockNumber == s.blockNumber + 1
    ensures s'.recentProposers == Slid(s.recentProposers, s'.blockNumber, s.MinerHistoryCheckLen() + 1)
                                  [s'.blockNumber := input.proposer]
    ensures input.proposer in s.validators
  {
  }

  lemma {:induction false} QuietKeepsSet(spec: ChainSpec, states: seq<Snapshot>, inputs: seq<BlockInput>, i: nat, j: nat)
    requires IsRun(spec, states, inputs) && i <= j < |states| && Quiet(spec, states, inputs, i, j)
    ensures states[i].WellFormed() && states[j].WellFormed()
    ensures states[j].validators == states[i].validators && states[j].Turn() == states[i].Turn()
  {
    RunNumbers(spec, states, inputs, i);
    RunNumbers(spec, states, inputs, j);
    if i < j {
      QuietKeepsSet(spec, states, inputs, i, j - 1);
      assert IsStep(spec, states[j - 1], inputs[j - 1], states[j]);
      QuietStepKeeps(spec, states[j - 1], inputs[j - 1], states[j]);
    }
  }

  /** One quiet block keeps every entry that is not a whole window old. */
  lemma EntryKept(spec: ChainSpec, s: Snapshot, input: BlockInput, s': Snapshot, k: nat)
    requires IsStep(spec, s, input, s') && QuietStep(spec, s, input)
    requires k in s.recentProposers && k <= s.blockNumber && s.blockNumber < k + s.MinerHistoryCheckLen()
    ensures k in s'.recentProposers && s'.recentProposers[k] == s.recentProposers[k]
  {
    QuietStepKeeps(spec, s, input, s');
  }

  /** The entry of block x is still there when snapshot y is at most a window later. */
  lemma {:induction false} EntryStays(spec: ChainSpec, states: seq<Snapshot>, inputs: seq<BlockInput>, x: nat, y: nat)
    requires IsRun(spec, states, inputs) && x < y < |states| && Quiet(spec, states, inputs, x, y)
    requires states[x].WellFormed() && y - x <= states[x].MinerHistoryCheckLen() + 1
    ensures var k := states[0].blockNumber + x + 1;
            k in states[y].recentProposers && states[y].recentProposers[k] == inputs[x].proposer
  {
    if y == x + 1 {
      EntryWritten(spec, states, inputs, x);
    } else {
      EntryStays(spec, states, inputs, x, y - 1);
      QuietKeepsSet(spec, states, inputs, x, y - 1);
      RunNumbers(spec, states, inputs, y - 1);
      assert IsStep(spec, states[y - 1], inputs[y - 1], states[y]);
      EntryKept(spec, states[y - 1], inputs[y - 1], states[y], states[0].blockNumber + x + 1);
    }
  }

  lemma EntryWritten(spec: ChainSpec, states: seq<Snapshot>, inputs: seq<BlockInput>, x: nat)
    requires IsRun(spec, states, inputs) && x + 1 < |states| && Quiet(spec, states, inputs, x, x + 1)
    ensures var k := states[0].blockNumber + x + 1;
            k in states[x + 1].recentProposers && states[x + 1].recentProposers[k] == inputs[x].proposer
  {
    RunNumbers(spec, states, inputs, x);
    assert IsStep(spec, states[x], inputs[x], states[x + 1]);
    QuietStepKeeps(spec, states[x], inputs[x], states[x + 1]);
  }

  /** Who proposed height k; base is the height before the first input. */
  function ProposerOf(inputs: seq<BlockInput>, base: nat, k: nat): Address
    requires base < k <= base + |inputs|
  {
    inputs[k - base - 1].proposer
  }

  /** The heights above lo, up to hi, that v proposed. */
  ghost function Proposed(inputs: seq<BlockInput>, base: nat, lo: nat, hi: nat, v: Address): set<nat>
    requires base <= lo <= hi <= base + |inputs|
  {
    set k | lo < k <= hi && ProposerOf(inputs, base, k) == v
  }

  lemma ProposedBlockIsCounted(spec: ChainSpec, states: seq<Snapshot>, inputs: seq<BlockInput>, x: nat, j: nat)
    requires IsRun(spec, states, inputs) && x < j < |states| && Quiet(spec, states, inputs, x, j)
    requires states[x].WellFormed() && j - x <= states[x].MinerHistoryCheckLen()
    ensures states[j].WellFormed()
    ensures states[0].blockNumber + x + 1 in states[j].RecentBlocks(inputs[x].proposer)
  {
    RunNumbers(spec, states, inputs, j);
    QuietKeepsSet(spec, states, inputs, x, j);
    EntryStays(spec, states, inputs, x, j);
    RunKeepsInv(spec, states, inputs, x);
    assert IsStep(spec, states[x], inputs[x], states[x + 1]);
    assert inputs[x].proposer != DEFAULT_ADDRESS;
  }

  lemma ProposedIsCounted(spec: ChainSpec, states: seq<Snapshot>, inputs: seq<BlockInput>, i: nat, j: nat, v: Address)
    requires IsRun(spec, states, inputs) && i <= j < |states| && Quiet(spec, states, inputs, i, j)
    requires states[i].WellFormed() && j - i <= states[i].MinerHistoryCheckLen()
    ensures states[j].WellFormed()
    ensures var base := states[0].blockNumber;
            Proposed(inputs, base, base + i, base + j, v) <= states[j].RecentBlocks(v)
  {
    var base := states[0].blockNumber;
    RunNumbers(spec, states, inputs, j);
    forall k | k in Proposed(inputs, base, base + i, base + j, v)
      ensures k in states[j].RecentBlocks(v)
    {
      var x := k - base - 1;
      QuietKeepsSet(spec, states, inputs, i, x);
      ProposedBlockIsCounted(spec, states, inputs, x, j);
    }
  }

  /**
   Turn limit: between set switches and without pruning, no validator proposes more
   than its turn in any MinerHistoryCheckLen() consecutive blocks.
   */
  lemma TurnLimit(spec: ChainSpec, states: seq<Snapshot>, inputs: seq<BlockInput>, i: nat, j: nat, v: Address)
    requires IsRun(spec, states, inputs) && i <= j < |states| && Quiet(spec, states, inputs, i, j)
    requires states[i].WellFormed() && j - i <= states[i].MinerHistoryCheckLen()
    ensures var base := states[0].blockNumber;
            |Proposed(inputs, base, base + i, base + j, v)| <= states[i].Turn()
  {
    ProposedIsCounted(spec, states, inputs, i, j, v);
    QuietKeepsSet(spec, states, inputs, i, j);
    RunKeepsInv(spec, states, inputs, j);
    var base := states[0].blockNumber;
    SubsetIsSmaller(Proposed(inputs, base, base + i, base + j, v), states[j].RecentBlocks(v));
  }

  lemma ProposedGrows(inputs: seq<BlockInput>, base: nat, lo: nat, hi: nat, v: Address)
    requires base <= lo < hi <= base + |inputs|
    ensures |Proposed(inputs, base, lo, hi, v)| ==
            |Proposed(inputs, base, lo, hi - 1, v)| + if ProposerOf(inputs, base, hi) == v then 1 else 0
  {
    var before := Proposed(inputs, base, lo, hi - 1, v);
    if ProposerOf(inputs, base, hi) == v {
      assert Proposed(inputs, base, lo, hi, v) == before + {hi};
    } else {
      assert Proposed(inputs, base, lo, hi, v) == before;
    }
  }

  /** Every proposer from i to j also passed the check on the parent snapshot. */
  ghost predicate SealsVerified(states: seq<Snapshot>, inputs: seq<BlockInput>, i: nat, j: nat)
    requires i <= j <= |inputs| < |states|
  {
    forall x :: i <= x < j ==> SealOk(states[x], inputs[x])
  }

  /** The check verify_seal makes on the parent snapshot. */
  ghost predicate SealOk(s: Snapshot, input: BlockInput) {
    s.WellFormed() && !s.SignRecently(input.proposer)
  }

  /** A proposer that passes the seal check had not used up its turn before. */
  lemma SealLeavesRoom(spec: ChainSpec, states: seq<Snapshot>, inputs: seq<BlockInput>, i: nat, j: nat, v: Address)
    requires IsRun(spec, states, inputs) && i <= j < |states| && Quiet(spec, states, inputs, i, j)
    requires states[i].WellFormed() && j - i <= states[i].MinerHistoryCheckLen()
    requires j < |inputs| && SealOk(states[j], inputs[j]) && inputs[j].proposer == v
    ensures var base := states[0].blockNumber;
            |Proposed(inputs, base, base + i, base + j, v)| < states[i].Turn()
  {
    ProposedIsCounted(spec, states, inputs, i, j, v);
    QuietKeepsSet(spec, states, inputs, i, j);
    var base := states[0].blockNumber;
    SubsetIsSmaller(Proposed(inputs, base, base + i, base + j, v), states[j].RecentBlocks(v));
  }

  /** If v proposed height k, it had fewer than turn blocks since lo before. */
  ghost predicate RoomAt(inputs: seq<BlockInput>, base: nat, lo: nat, k: nat, v: Address, turn: nat)
    requires base <= lo < k <= base + |inputs|
  {
    ProposerOf(inputs, base, k) == v ==> |Proposed(inputs, base, lo, k - 1, v)| < turn
  }

  lemma {:induction false} RoomBoundsProposed(inputs: seq<BlockInput>, base: nat, lo: nat, hi: nat, v: Address, turn: nat)
    requires base <= lo <= hi <= base + |inputs|
    requires forall k :: lo < k <= hi ==> RoomAt(inputs, base, lo, k, v, turn)
    ensures |Proposed(inputs, base, lo, hi, v)| <= turn
    decreases hi
  {
    if lo == hi {
      assert Proposed(inputs, base, lo, hi, v) == {};
    } else {
      assert RoomAt(inputs, base, lo, hi, v, turn);
      ProposedGrows(inputs, base, lo, hi, v);
      RoomBoundsProposed(inputs, base, lo, hi - 1, v, turn);
    }
  }

  lemma RoomIsLeft(spec: ChainSpec, states: seq<Snapshot>, inputs: seq<BlockInput>, i: nat, j: nat, x: nat, v: Address)
    requires IsRun(spec, states, inputs) && i <= x < j < |states| && Quiet(spec, states, inputs, i, j)
    requires SealsVerified(states, inputs, i, j)
    requires states[i].WellFormed() && j - i <= states[i].MinerHistoryCheckLen() + 1
    ensures var base := states[0].blockNumber;
            RoomAt(inputs, base, base + i, base + x + 1, v, states[i].Turn())
  {
    if inputs[x].proposer == v {
      SealLeavesRoom(spec, states, inputs, i, x, v);
    }
  }

  /** With the seal check on the parent snapshot the limit covers one block more. */
  lemma TurnLimitWithSeals(spec: ChainSpec, states: seq<Snapshot>, inputs: seq<BlockInput>, i: nat, j: nat, v: Address)
    requires IsRun(spec, states, inputs) && i <= j < |states| && Quiet(spec, states, inputs, i, j)
    requires SealsVerified(states, inputs, i, j)
    requires states[i].WellFormed() && j - i <= states[i].MinerHistoryCheckLen() + 1
    ensures var base := states[0].blockNumber;
            |Proposed(inputs, base, base + i, base + j, v)| <= states[i].Turn()
  {
    var base, turn := states[0].blockNumber, states[i].Turn();
    var lo := base + i;
    forall k | lo < k <= base + j
      ensures RoomAt(inputs, base, lo, k, v, turn)
    {
      RoomIsLeft(spec, states, inputs, i, j, k - 1 - base, v);
    }
    RoomBoundsProposed(inputs, base, lo, base + j, v, turn);
  }

  // ---------------------------------------------------------------------------
  // One set switch per epoch
  // ---------------------------------------------------------------------------

  /** The history carries the marker of an epoch between those of lo and hi. */
  ghost predicate Marked(s: Snapshot, epochLength: nat, lo: nat, hi: nat)
    requires epochLength >= 1
  {
    exists n :: lo <= n <= hi && EpochKey(n, epochLength) in s.recentProposers
  }

  lemma SwitchMarks(spec: ChainSpec, s: Snapshot, input: BlockInput, s': Snapshot)
    requires IsStep(spec, s, input, s') && BohrAt(spec, input.header) && ChangesSet(spec, s, input)
    ensures EpochKey(s'.blockNumber, s.epochNum) in s'.recentProposers
    ensures s'.recentProposers.Keys == {0xFFFF_FFFF_FFFF_FFFF - s'.blockNumber / s.epochNum}
  {
    EpochKeyIsHigh(input.header.number, s.epochNum);
  }

  /** The marker survives the sliding window and the pruning. */
  lemma MarkerSurvives(spec: ChainSpec, s: Snapshot, input: BlockInput, s': Snapshot, key: nat)
    requires IsStep(spec, s, input, s') && !ChangesSet(spec, s, input)
    requires s'.voteData.sourceNumber < NUMBER_LIMIT <= key && key in s.recentProposers
    ensures key in s'.recentProposers
  {
  }

  /** What a run says about the step to snapshot j, once Bohr is active at block i. */
  lemma StepAfterBohr(spec: ChainSpec, states: seq<Snapshot>, inputs: seq<BlockInput>, i: nat, j: nat)
    requires IsRun(spec, states, inputs) && i < j < |states| && BohrAt(spec, inputs[i].header)
    ensures IsStep(spec, states[j - 1], inputs[j - 1], states[j]) && BohrAt(spec, inputs[j - 1].header)
    ensures states[j].blockNumber < NUMBER_LIMIT && states[j].voteData.sourceNumber < NUMBER_LIMIT
    ensures states[i + 1].blockNumber <= states[j].blockNumber
  {
    RunKeepsInv(spec, states, inputs, j);
    RunNumbers(spec, states, inputs, j);
    RunNumbers(spec, states, inputs, i + 1);
  }

  lemma {:induction false} MarkerStays(spec: ChainSpec, states: seq<Snapshot>, inputs: seq<BlockInput>, i: nat, j: nat)
    requires IsRun(spec, states, inputs) && i < j < |states|
    requires BohrAt(spec, inputs[i].header)
    requires states[i].WellFormed() && ChangesSet(spec, states[i], inputs[i])
    requires forall x :: i <= x < j ==> states[x].epochNum == states[i].epochNum
    ensures Marked(states[j], states[i].epochNum, states[i + 1].blockNumber, states[j].blockNumber)
  {
    StepAfterBohr(spec, states, inputs, i, j);
    if j > i + 1 {
      MarkerStays(spec, states, inputs, i, j - 1);
    }
    MarkStep(spec, states[j - 1], inputs[j - 1], states[j], states[i + 1].blockNumber);
  }

  /** One step: a switch writes a marker, any other block keeps the one there is. */
  lemma MarkStep(spec: ChainSpec, s: Snapshot, input: BlockInput, s': Snapshot, lo: nat)
    requires IsStep(spec, s, input, s') && BohrAt(spec, input.header)
    requires s'.blockNumber < NUMBER_LIMIT && s'.voteData.sourceNumber < NUMBER_LIMIT
    requires lo <= s'.blockNumber
    requires ChangesSet(spec, s, input) || Marked(s, s.epochNum, lo, s.blockNumber)
    ensures Marked(s', s.epochNum, lo, s'.blockNumber)
  {
    if ChangesSet(spec, s, input) {
      SwitchMarks(spec, s, input, s');
    } else {
      var n :| lo <= n <= s.blockNumber && EpochKey(n, s.epochNum) in s.recentProposers;
      EpochKeyIsHigh(n, s.epochNum);
      MarkerSurvives(spec, s, input, s', EpochKey(n, s.epochNum));
    }
  }

  /** A switch happens only in an epoch later than every marked one. */
  lemma MarkerBlocksSwitch(spec: ChainSpec, s: Snapshot, input: BlockInput, s': Snapshot, lo: nat)
    requires IsStep(spec, s, input, s') && BohrAt(spec, input.header) && ChangesSet(spec, s, input)
    requires Marked(s, s.epochNum, lo, s.blockNumber) && lo <= s.blockNumber
    requires s'.voteData.sourceNumber < NUMBER_LIMIT
    ensures lo / s.epochNum < input.header.number / s.epochNum
  {
    var e := s.epochNum;
    var n :| lo <= n <= s.blockNumber && EpochKey(n, e) in s.recentProposers;
    DivMonotone(lo, n, e);
    DivMonotone(n, input.header.number, e);
    EpochKeyIsHigh(n, e);
    EpochKeyIsHigh(input.header.number, e);
  }

  /**
   From Bohr on and while the epoch length stays the same, two set switches always
   belong to different epochs.
   */
  lemma OneSwitchPerEpoch(spec: ChainSpec, states: seq<Snapshot>, inputs: seq<BlockInput>, i: nat, j: nat)
    requires IsRun(spec, states, inputs) && i < j < |inputs|
    requires BohrAt(spec, inputs[i].header)
    requires states[i].WellFormed() && ChangesSet(spec, states[i], inputs[i])
    requires states[j].WellFormed() && ChangesSet(spec, states[j], inputs[j])
    requires forall x :: i <= x <= j ==> states[x].epochNum == states[i].epochNum
    ensures inputs[i].header.number / states[i].epochNum < inputs[j].header.number / states[i].epochNum
  {
    RunNumbers(spec, states, inputs, i);
    RunNumbers(spec, states, inputs, j);
    RunNumbers(spec, states, inputs, i + 1);
    MarkerStays(spec, states, inputs, i, j);
    RunKeepsInv(spec, states, inputs, j + 1);
    assert IsStep(spec, states[j], inputs[j], states[j + 1]);
    assert BohrAt(spec, inputs[j].header);
    MarkerBlocksSwitch(spec, states[j], inputs[j], states[j + 1], inputs[i].header.number);
  }
}
