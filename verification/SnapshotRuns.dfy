/**
 Invariants of the snapshot over every run of accepted blocks: the shape of the
 proposer history, the counters, who may still propose, and the epoch length.
 */
module SnapshotRuns {
  import opened Types
  import opened Sorting
  import opened Snapshots
  import opened Counting
  import opened Arith

  // ---------------------------------------------------------------------------
  // Runs
  // ---------------------------------------------------------------------------

  const MAX_TURN_LENGTH: nat := 255

  ghost predicate GoodSet(validators: seq<Address>) {
    Distinct(validators) && DEFAULT_ADDRESS !in validators
  }

  function BohrAt(spec: ChainSpec, h: Header): bool {
    spec.BohrActive(h.number, h.timestamp)
  }

  /**
   What the caller of the transition supplies: duplicate-free sets of real addresses,
   turn lengths only from Bohr on and fitting one byte, and heights below 2^63.
   */
  ghost predicate GoodInput(input: BlockInput, spec: ChainSpec) {
    && input.WellFormed()
    && GoodSet(input.newValidators)
    && (input.turnLength.Some? ==> BohrAt(spec, input.header) && input.turnLength.value <= MAX_TURN_LENGTH)
    && input.header.number < NUMBER_LIMIT
    && (input.attestation.Some? ==> input.attestation.value.data.sourceNumber < NUMBER_LIMIT)
  }

  /**
   A run of accepted blocks. The first snapshot is a new one; Bohr, once active, stays
   active.
   */
  ghost predicate IsRun(spec: ChainSpec, states: seq<Snapshot>, inputs: seq<BlockInput>) {
    && |states| == |inputs| + 1
    && IsStart(states[0])
    && (forall i :: 0 <= i < |inputs| ==> IsStep(spec, states[i], inputs[i], states[i + 1]))
    && (forall i, j :: 0 <= i <= j < |inputs| && BohrAt(spec, inputs[i].header) ==> BohrAt(spec, inputs[j].header))
  }

  ghost predicate IsStart(s: Snapshot) {
    exists validators, number: nat, hash, epochNum, keys ::
      && KeysMatch(validators, keys) && validators != [] && GoodSet(validators) && number < NUMBER_LIMIT
      && s == NewSnapshot(validators, number, hash, epochNum, keys)
  }

  ghost predicate IsStep(spec: ChainSpec, s: Snapshot, input: BlockInput, s': Snapshot) {
    s.WellFormed() && GoodInput(input, spec) && Apply(s, input, spec) == Some(s')
  }

  // ---------------------------------------------------------------------------
  // The invariant
  // ---------------------------------------------------------------------------

  /** A real proposer in the last MinerHistoryCheckLen() + 1 blocks, none of them block 0, or an epoch marker. */
  predicate EntryOk(s: Snapshot, bohr: bool, k: nat)
    requires s.WellFormed() && k in s.recentProposers
  {
    if k < NUMBER_LIMIT then
      s.recentProposers[k] != DEFAULT_ADDRESS && 0 < k <= s.blockNumber <= k + s.MinerHistoryCheckLen()
    else
      bohr && s.recentProposers[k] == DEFAULT_ADDRESS
  }

  ghost predicate DistinctProposers(recents: map<nat, Address>) {
    forall j, k :: j in recents && k in recents && j != k ==> recents[j] != recents[k]
  }

  /** No address has more than its turn in the counted window. */
  ghost predicate CountsOk(s: Snapshot)
    requires s.WellFormed()
  {
    forall v :: |s.RecentBlocks(v)| <= s.Turn()
  }

  ghost predicate Inv(s: Snapshot, bohr: bool) {
    && s.WellFormed()
    && GoodSet(s.validators)
    && s.Turn() <= MAX_TURN_LENGTH
    && s.blockNumber < NUMBER_LIMIT && s.voteData.sourceNumber < NUMBER_LIMIT
    && (forall k :: k in s.recentProposers ==> EntryOk(s, bohr, k))
    && CountsOk(s)
    && (!bohr ==> s.Turn() == 1 && DistinctProposers(s.recentProposers))
  }

  lemma StartIsOk(s: Snapshot)
    requires IsStart(s)
    ensures Inv(s, false)
  {
    var validators, number: nat, hash, epochNum, keys :|
      && KeysMatch(validators, keys) && validators != [] && GoodSet(validators) && number < NUMBER_LIMIT
      && s == NewSnapshot(validators, number, hash, epochNum, keys);
    SortedDistinct(validators);
    SortedMembers(validators, DEFAULT_ADDRESS);
    assert forall v :: s.RecentBlocks(v) == {};
  }

  lemma DistinctGivesCounts(s: Snapshot)
    requires s.WellFormed() && DistinctProposers(s.recentProposers)
    ensures CountsOk(s)
  {
    forall v
      ensures |s.RecentBlocks(v)| <= s.Turn()
    {
      var blocks := s.RecentBlocks(v);
      if blocks != {} {
        var k :| k in blocks;
        assert blocks == {k};
      }
    }
  }

  lemma AdvancedIsOk(s: Snapshot, h: Header, bohr: bool)
    requires Inv(s, bohr) && h.number == s.blockNumber + 1 < NUMBER_LIMIT
    ensures Inv(Advanced(s, h), bohr)
    ensures forall k :: k in Advanced(s, h).recentProposers ==> k != h.number
  {
    var a := Advanced(s, h);
    assert a.MinerHistoryCheckLen() == s.MinerHistoryCheckLen();
    forall k | k in a.recentProposers
      ensures EntryOk(a, bohr, k) && k != h.number
    {
      assert EntryOk(s, bohr, k);
    }
    forall v
      ensures |a.RecentBlocks(v)| <= a.Turn()
    {
      SubsetIsSmaller(a.RecentBlocks(v), s.RecentBlocks(v));
    }
  }

  lemma RecordedCounts(a: Snapshot, input: BlockInput, spec: ChainSpec, v: Address)
    requires a.WellFormed() && input.header.number == a.blockNumber
    requires |a.RecentBlocks(v)| <= a.Turn()
    requires v == input.proposer ==> |a.RecentBlocks(v)| < a.Turn()
    ensures |Recorded(a, input, spec).RecentBlocks(v)| <= a.Turn()
  {
    var r := Recorded(a, input, spec);
    assert r.MinerHistoryCheckLen() == a.MinerHistoryCheckLen();
    var extra := if v == input.proposer then {a.blockNumber} else {};
    assert r.RecentBlocks(v) <= a.RecentBlocks(v) + extra;
    SubsetIsSmaller(r.RecentBlocks(v), a.RecentBlocks(v) + extra);
  }

  lemma RecordedIsOk(a: Snapshot, input: BlockInput, spec: ChainSpec, wasBohr: bool)
    requires Inv(a, wasBohr) && GoodInput(input, spec) && input.header.number == a.blockNumber
    requires wasBohr ==> BohrAt(spec, input.header)
    requires a.blockNumber > 0 && a.blockNumber !in a.recentProposers
    requires input.proposer in a.validators && !OverProposed(a, input.proposer, BohrAt(spec, input.header))
    ensures Inv(Recorded(a, input, spec), BohrAt(spec, input.header))
  {
    var bohr := BohrAt(spec, input.header);
    var r := Recorded(a, input, spec);
    assert r.MinerHistoryCheckLen() == a.MinerHistoryCheckLen();
    forall k | k in r.recentProposers
      ensures EntryOk(r, bohr, k)
    {
      if k != a.blockNumber {
        assert EntryOk(a, wasBohr, k);
      }
    }
    if bohr {
      forall v
        ensures |r.RecentBlocks(v)| <= r.Turn()
      {
        RecordedCounts(a, input, spec, v);
      }
    } else {
      DistinctGivesCounts(r);
    }
  }

  lemma EpochKeyIsHigh(number: nat, epochLength: nat)
    requires number < NUMBER_LIMIT && epochLength >= 1
    ensures NUMBER_LIMIT <= EpochKey(number, epochLength) <= U64_MAX
  {
    assert number / epochLength <= number;
  }

  lemma SwitchedIsOk(r: Snapshot, input: BlockInput, spec: ChainSpec, epochLength: nat)
    requires Inv(r, BohrAt(spec, input.header)) && GoodInput(input, spec)
    requires input.header.number == r.blockNumber && input.newValidators != [] && epochLength >= 1
    ensures Inv(Switched(r, input, BohrAt(spec, input.header), epochLength), BohrAt(spec, input.header))
  {
    if BohrAt(spec, input.header) {
      SwitchedUnderBohr(r, input, spec, epochLength);
    } else {
      SwitchedBeforeBohr(r, input, spec, epochLength);
    }
  }

  lemma SwitchedUnderBohr(r: Snapshot, input: BlockInput, spec: ChainSpec, epochLength: nat)
    requires Inv(r, true) && GoodInput(input, spec) && BohrAt(spec, input.header)
    requires input.header.number == r.blockNumber && input.newValidators != [] && epochLength >= 1
    ensures Inv(Switched(r, input, true, epochLength), true)
  {
    var w := Switched(r, input, true, epochLength);
    SortedDistinct(input.newValidators);
    SortedMembers(input.newValidators, DEFAULT_ADDRESS);
    EpochKeyIsHigh(r.blockNumber, epochLength);
    assert forall v :: w.RecentBlocks(v) == {};
  }

  lemma SwitchedBeforeBohr(r: Snapshot, input: BlockInput, spec: ChainSpec, epochLength: nat)
    requires Inv(r, false) && GoodInput(input, spec) && !BohrAt(spec, input.header)
    requires input.header.number == r.blockNumber && input.newValidators != [] && epochLength >= 1
    ensures Inv(Switched(r, input, false, epochLength), false)
  {
    var w := Switched(r, input, false, epochLength);
    SortedDistinct(input.newValidators);
    SortedMembers(input.newValidators, DEFAULT_ADDRESS);
    assert w.MinerHistoryCheckLen() == |input.newValidators| / 2;
    assert r.MinerHistoryCheckLen() == |r.validators| / 2;
    forall k | k in w.recentProposers
      ensures EntryOk(w, false, k)
    {
      assert EntryOk(r, false, k);
    }
    DistinctGivesCounts(w);
  }

  lemma StepKeepsInv(spec: ChainSpec, s: Snapshot, input: BlockInput, s': Snapshot, wasBohr: bool)
    requires Inv(s, wasBohr) && IsStep(spec, s, input, s')
    requires wasBohr ==> BohrAt(spec, input.header)
    ensures Inv(s', BohrAt(spec, input.header))
  {
    var a := Advanced(s, input.header);
    AdvancedIsOk(s, input.header, wasBohr);
    RecordedIsOk(a, input, spec, wasBohr);
    var r := Recorded(a, input, spec);
    if Switches(r, input, BohrAt(spec, input.header), s.epochNum) {
      SwitchedIsOk(r, input, spec, s.epochNum);
    }
  }

  /** Whether Bohr was active at the block the i-th snapshot of a run describes. */
  ghost function BohrIn(spec: ChainSpec, inputs: seq<BlockInput>, i: nat): bool
    requires i <= |inputs|
  {
    i > 0 && BohrAt(spec, inputs[i - 1].header)
  }

  lemma {:induction false} RunKeepsInv(spec: ChainSpec, states: seq<Snapshot>, inputs: seq<BlockInput>, i: nat)
    requires IsRun(spec, states, inputs) && i < |states|
    ensures Inv(states[i], BohrIn(spec, inputs, i))
  {
    if i == 0 {
      StartIsOk(states[0]);
    } else {
      RunKeepsInv(spec, states, inputs, i - 1);
      assert IsStep(spec, states[i - 1], inputs[i - 1], states[i]);
      StepKeepsInv(spec, states[i - 1], inputs[i - 1], states[i], BohrIn(spec, inputs, i - 1));
    }
  }

  // ---------------------------------------------------------------------------
  // Never stuck
  // ---------------------------------------------------------------------------

  /** The counted heights at which some member of vs proposed. */
  ghost function BlocksOf(s: Snapshot, vs: set<Address>): set<nat>
    requires s.WellFormed()
  {
    set k | k in s.recentProposers && k > s.LeftBound() && s.recentProposers[k] in vs
            && s.recentProposers[k] != DEFAULT_ADDRESS
  }

  /** The blocks of one more proposer are none of the others' blocks. */
  lemma OneMoreUses(s: Snapshot, rest: set<Address>, v: Address)
    requires s.WellFormed() && v !in rest
    ensures |BlocksOf(s, rest + {v})| == |BlocksOf(s, rest)| + |s.RecentBlocks(v)|
  {
    assert BlocksOf(s, rest + {v}) == BlocksOf(s, rest) + s.RecentBlocks(v);
    assert BlocksOf(s, rest) !! s.RecentBlocks(v);
  }

  lemma {:induction false} BarredUseManyBlocks(s: Snapshot, vs: set<Address>)
    requires s.WellFormed()
    requires forall v :: v in vs ==> s.SignRecently(v)
    ensures |BlocksOf(s, vs)| >= |vs| * s.Turn()
  {
    if vs != {} {
      var v :| v in vs;
      var rest := vs - {v};
      assert vs == rest + {v};
      BarredUseManyBlocks(s, rest);
      OneMoreUses(s, rest, v);
      assert |vs| * s.Turn() == |rest| * s.Turn() + s.Turn();
    }
  }

  lemma WindowIsShort(s: Snapshot, bohr: bool, vs: set<Address>)
    requires Inv(s, bohr)
    ensures |BlocksOf(s, vs)| <= s.MinerHistoryCheckLen()
  {
    forall k | k in BlocksOf(s, vs)
      ensures s.LeftBound() + 1 <= k < s.LeftBound() + 1 + s.MinerHistoryCheckLen()
    {
      assert EntryOk(s, bohr, k);
    }
    IntervalBound(BlocksOf(s, vs), s.LeftBound() + 1, s.MinerHistoryCheckLen());
  }

  /** The validators that may not propose the next block. */
  ghost function Barred(s: Snapshot): set<Address>
    requires s.WellFormed()
  {
    set v | v in s.validators && s.SignRecently(v)
  }

  lemma FewAreBarred(s: Snapshot, bohr: bool)
    requires Inv(s, bohr)
    ensures |Barred(s)| <= |s.validators| / 2
  {
    BarredUseManyBlocks(s, Barred(s));
    WindowIsShort(s, bohr, Barred(s));
    if |Barred(s)| >= |s.validators| / 2 + 1 {
      MulMonotone(|s.validators| / 2 + 1, |Barred(s)|, s.Turn());
      assert false;
    }
  }

  /**
   Never stuck: in every snapshot of every run at most half of the validators, rounded
   down, are barred, and there is a validator whose next block is always accepted.
   */
  lemma SomeoneCanPropose(spec: ChainSpec, states: seq<Snapshot>, inputs: seq<BlockInput>, i: nat)
    returns (v: Address)
    requires IsRun(spec, states, inputs) && i < |states|
    ensures states[i].WellFormed()
    ensures |Barred(states[i])| <= |states[i].validators| / 2
    ensures v in states[i].validators && !states[i].SignRecently(v)
    ensures forall input :: NextInput(spec, inputs, states[i], i, input) && input.proposer == v ==>
              Apply(states[i], input, spec).Some?
  {
    RunKeepsInv(spec, states, inputs, i);
    v := FreeValidator(states[i], BohrIn(spec, inputs, i));
    forall input | NextInput(spec, inputs, states[i], i, input) && input.proposer == v
      ensures Apply(states[i], input, spec).Some?
    {
      FreeIsAccepted(spec, states[i], input, BohrIn(spec, inputs, i));
    }
  }

  /** An input that may follow snapshot s, the i-th of a run. */
  ghost predicate NextInput(spec: ChainSpec, inputs: seq<BlockInput>, s: Snapshot, i: nat, input: BlockInput)
    requires i <= |inputs|
  {
    && GoodInput(input, spec)
    && input.header.number == s.blockNumber + 1
    && (BohrIn(spec, inputs, i) ==> BohrAt(spec, input.header))
  }

  /** The transition accepts every validator that the snapshot before it does not bar. */
  lemma FreeIsAccepted(spec: ChainSpec, s: Snapshot, input: BlockInput, wasBohr: bool)
    requires Inv(s, wasBohr) && GoodInput(input, spec) && input.header.number == s.blockNumber + 1
    requires wasBohr ==> BohrAt(spec, input.header)
    requires input.proposer in s.validators && !s.SignRecently(input.proposer)
    ensures Apply(s, input, spec).Some?
  {
    var a, v := Advanced(s, input.header), input.proposer;
    assert a.MinerHistoryCheckLen() == s.MinerHistoryCheckLen();
    SubsetIsSmaller(a.RecentBlocks(v), s.RecentBlocks(v));
    forall k | k in a.recentProposers && a.recentProposers[k] == v
      ensures k in s.RecentBlocks(v)
    {
      assert EntryOk(s, wasBohr, k);
    }
    if !BohrAt(spec, input.header) {
      assert s.RecentBlocks(v) == {};
    }
  }

  lemma FreeValidator(s: Snapshot, bohr: bool) returns (v: Address)
    requires Inv(s, bohr)
    ensures |Barred(s)| <= |s.validators| / 2
    ensures v in s.validators && !s.SignRecently(v)
  {
    FewAreBarred(s, bohr);
    var all := set v | v in s.validators;
    DistinctCount(s.validators, all);
    if all <= Barred(s) {
      SubsetIsSmaller(all, Barred(s));
      assert false;
    }
    v :| v in all && v !in Barred(s);
  }

  /**
   Before Bohr the transition accepts exactly the validators that the snapshot before it
   does not bar, whatever the block announces.
   */
  lemma AcceptanceBeforeBohr(spec: ChainSpec, s: Snapshot, input: BlockInput)
    requires Inv(s, false) && GoodInput(input, spec) && input.header.number == s.blockNumber + 1
    requires !BohrAt(spec, input.header)
    ensures Apply(s, input, spec).Some? <==> input.proposer in s.validators && !s.SignRecently(input.proposer)
  {
    var a, v := Advanced(s, input.header), input.proposer;
    if v in s.validators && !s.SignRecently(v) {
      FreeIsAccepted(spec, s, input, false);
    } else if v in s.validators {
      var k :| k in s.RecentBlocks(v);
      assert EntryOk(s, false, k);
      assert k in a.recentProposers && a.recentProposers[k] == v;
    }
  }

  /** The heights of v that count against it when the block after s is applied under Bohr. */
  ghost function CountedAgainst(s: Snapshot, v: Address): set<nat> {
    set k | k in s.recentProposers && s.recentProposers[k] == v
            && k + (|s.validators| / 2 + 1) * s.Turn() > s.blockNumber + 2
  }

  /**
   From Bohr on the transition accepts exactly the validators with fewer than a turn of
   blocks among the last (N/2 + 1) turns less two.
   */
  lemma AcceptanceFromBohr(spec: ChainSpec, s: Snapshot, input: BlockInput, wasBohr: bool)
    requires Inv(s, wasBohr) && GoodInput(input, spec) && input.header.number == s.blockNumber + 1
    requires BohrAt(spec, input.header)
    ensures Apply(s, input, spec).Some? <==>
              input.proposer in s.validators && |CountedAgainst(s, input.proposer)| < s.Turn()
  {
    var a, v := Advanced(s, input.header), input.proposer;
    assert a.MinerHistoryCheckLen() == s.MinerHistoryCheckLen();
    if v in s.validators {
      forall k | k in s.recentProposers
        ensures k in a.RecentBlocks(v) <==> k in CountedAgainst(s, v)
      {
        assert EntryOk(s, wasBohr, k);
      }
      assert a.RecentBlocks(v) == CountedAgainst(s, v);
    }
  }

  // ---------------------------------------------------------------------------
  // The proposer history before Bohr
  // ---------------------------------------------------------------------------

  /**
   Before Bohr, in every run and whatever the sizes of the sets that took over, the
   history holds distinct validators of the last floor(N/2) + 1 blocks only.
   */
  lemma HistoryBeforeBohr(spec: ChainSpec, states: seq<Snapshot>, inputs: seq<BlockInput>, i: nat)
    requires IsRun(spec, states, inputs) && i < |states| && !BohrIn(spec, inputs, i)
    ensures DistinctProposers(states[i].recentProposers)
    ensures forall k :: k in states[i].recentProposers ==>
              k <= states[i].blockNumber < k + |states[i].validators| / 2 + 1
  {
    RunKeepsInv(spec, states, inputs, i);
    forall k | k in states[i].recentProposers
      ensures k <= states[i].blockNumber < k + |states[i].validators| / 2 + 1
    {
      assert EntryOk(states[i], false, k);
    }
  }

  /**
   In every run each one-byte counter stays within the turn length, both on a snapshot
   and on the advanced snapshot the transition counts on.
   */
  lemma CountersNeverOverflow(spec: ChainSpec, states: seq<Snapshot>, inputs: seq<BlockInput>, i: nat, h: Header)
    requires IsRun(spec, states, inputs) && i < |states|
    requires h.number == states[i].blockNumber + 1 < NUMBER_LIMIT
    ensures states[i].WellFormed()
    ensures forall v :: |states[i].RecentBlocks(v)| <= states[i].Turn() <= MAX_TURN_LENGTH
    ensures forall v :: |Advanced(states[i], h).RecentBlocks(v)| <= states[i].Turn()
    ensures CountersFit(states[i]) && CountersFit(Advanced(states[i], h))
  {
    RunKeepsInv(spec, states, inputs, i);
    AdvancedIsOk(states[i], h, BohrIn(spec, inputs, i));
  }

  // ---------------------------------------------------------------------------
  // The epoch length
  // ---------------------------------------------------------------------------

  /**
   Over every run the epoch length never shrinks, and the block after one that changes
   it is an epoch boundary of the new length.
   */
  lemma {:induction false} EpochLengthsAlign(spec: ChainSpec, states: seq<Snapshot>, inputs: seq<BlockInput>, i: nat, j: nat)
    requires IsRun(spec, states, inputs) && i <= j < |states|
    ensures states[i].epochNum <= states[j].epochNum
    ensures i < j && states[j].epochNum != states[j - 1].epochNum ==>
              && states[j].epochNum in {LORENTZ_EPOCH_LENGTH, MAXWELL_EPOCH_LENGTH}
              && (states[j].blockNumber + 1) % states[j].epochNum == 0
  {
    if i < j {
      EpochLengthsAlign(spec, states, inputs, i, j - 1);
      assert IsStep(spec, states[j - 1], inputs[j - 1], states[j]);
      EpochLengthStep(spec, states[j - 1], inputs[j - 1], states[j]);
    }
  }

  lemma EpochLengthStep(spec: ChainSpec, s: Snapshot, input: BlockInput, s': Snapshot)
    requires IsStep(spec, s, input, s')
    ensures s.epochNum <= s'.epochNum
    ensures s'.epochNum != s.epochNum ==>
              && s'.epochNum in {LORENTZ_EPOCH_LENGTH, MAXWELL_EPOCH_LENGTH}
              && (s'.blockNumber + 1) % s'.epochNum == 0
  {
    var n := input.header.number;
    var lorentz := spec.LorentzActive(n, input.header.timestamp);
    var maxwell := spec.MaxwellActive(n, input.header.timestamp);
    assert s'.blockNumber == n && s'.epochNum == NextEpochNum(s.epochNum, n, lorentz, maxwell);
  }
}
