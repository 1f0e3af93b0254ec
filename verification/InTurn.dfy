/**
 The round-robin schedule: how the in-turn slots are shared out, and that a chain in
 which every block is in turn is never rejected, set switches included.
 */
module InTurn {
  import opened Types
  import opened Sorting
  import opened Snapshots
  import opened SnapshotRuns
  import opened Counting
  import opened Arith

  // ---------------------------------------------------------------------------
  // Sharing out the slots
  // ---------------------------------------------------------------------------

  predicate IsSlot(k: nat, turn: nat, n: nat, index: nat)
    requires turn >= 1 && n >= 1
  {
    (k / turn) % n == index
  }

  /** The in-turn heights of the validator at index among the len heights from a. */
  ghost function Slots(turn: nat, n: nat, index: nat, a: nat, len: nat): set<nat>
    requires turn >= 1 && n >= 1
  {
    set k | a <= k < a + len && IsSlot(k, turn, n, index)
  }

  lemma SlotRepeats(k: nat, turn: nat, n: nat, index: nat)
    requires turn >= 1 && n >= 1
    ensures IsSlot(k, turn, n, index) == IsSlot(k + n * turn, turn, n, index)
  {
    var q := k / turn;
    assert (k + n * turn) / turn == q + n by {
      assert k + n * turn == (q + n) * turn + k % turn;
      DivUnique(k + n * turn, turn, q + n, k % turn);
    }
    assert (q + n) % n == q % n by {
      assert q + n == (q / n + 1) * n + q % n;
      DivUnique(q + n, n, q / n + 1, q % n);
    }
  }

  lemma SlotInFirstRound(k: nat, turn: nat, n: nat, index: nat)
    requires turn >= 1 && index < n && k < n * turn
    ensures IsSlot(k, turn, n, index) <==> index * turn <= k < index * turn + turn
  {
    var q := k / turn;
    DivBounds(k, turn);
    if q >= n {
      MulMonotone(n, q, turn);
      assert false;
    }
    DivUnique(q, n, 0, q);
    if q < index {
      MulMonotone(q + 1, index, turn);
    } else if q > index {
      MulMonotone(index + 1, q, turn);
      assert (index + 1) * turn == index * turn + turn;
    }
  }

  lemma SlotsOfFirstRound(turn: nat, n: nat, index: nat)
    requires turn >= 1 && index < n
    ensures |Slots(turn, n, index, 0, n * turn)| == turn
  {
    var slots := Slots(turn, n, index, 0, n * turn);
    var round := Interval(index * turn, turn);
    MulMonotone(index + 1, n, turn);
    assert (index + 1) * turn == index * turn + turn;
    forall k: int
      ensures k in slots <==> k in round
    {
      if 0 <= k < n * turn {
        SlotInFirstRound(k, turn, n, index);
      }
    }
    SubsetIsSmaller<int>(slots, round);
    SubsetIsSmaller<int>(round, slots);
  }

  /**
   Any N * turn consecutive heights give each of the N validators exactly turn slots.
   */
  lemma {:induction false} EachGetsItsTurn(turn: nat, n: nat, index: nat, a: nat)
    requires turn >= 1 && index < n
    ensures |Slots(turn, n, index, a, n * turn)| == turn
  {
    var len := n * turn;
    if a == 0 {
      SlotsOfFirstRound(turn, n, index);
    } else {
      EachGetsItsTurn(turn, n, index, a - 1);
      var before, after := Slots(turn, n, index, a - 1, len), Slots(turn, n, index, a, len);
      SlotRepeats(a - 1, turn, n, index);
      assert len >= 1 by { MulMonotone(1, n, turn); }
      if IsSlot(a - 1, turn, n, index) {
        assert after == (before - {a - 1}) + {a - 1 + len};
      } else {
        assert after == before;
      }
    }
  }

  // ---------------------------------------------------------------------------
  // In-turn chains
  // ---------------------------------------------------------------------------

  /** Every recorded proposer was in turn. */
  ghost predicate InTurnHistory(s: Snapshot)
    requires s.WellFormed()
  {
    forall k :: k in s.recentProposers && k < NUMBER_LIMIT ==> s.recentProposers[k] == s.InturnAt(k)
  }

  /** Heights up to hi, less than a round back, at which the validator in turn at hi is in turn. */
  lemma FewInTurnBefore(s: Snapshot, heights: set<nat>, hi: nat)
    requires s.WellFormed() && Distinct(s.validators)
    requires hi !in heights
    requires forall k :: k in heights ==>
               k < hi < k + |s.validators| * s.Turn() && s.InturnAt(k) == s.InturnAt(hi)
    ensures |heights| < s.Turn()
  {
    var turn, n := s.Turn(), |s.validators|;
    var index := (hi / turn) % n;
    var a := if hi + 1 >= n * turn then hi + 1 - n * turn else 0;
    var slots := Slots(turn, n, index, a, n * turn);
    forall k | k in heights + {hi}
      ensures k in slots
    {
      assert s.validators[(k / turn) % n] == s.validators[index];
    }
    SubsetIsSmaller(heights + {hi}, slots);
    EachGetsItsTurn(turn, n, index, a);
    assert |heights + {hi}| == |heights| + 1;
  }

  lemma CheckLenIsShort(s: Snapshot)
    requires s.WellFormed()
    ensures s.MinerHistoryCheckLen() < |s.validators| * s.Turn()
  {
    MulMonotone(|s.validators| / 2 + 1, |s.validators|, s.Turn());
  }

  /** The recorded heights of the validator in turn, once the window has slid. */
  ghost function InTurnHeights(s: Snapshot, h: Header): set<nat>
    requires s.WellFormed()
  {
    var a := Advanced(s, h);
    set k | k in a.recentProposers && a.recentProposers[k] == s.InturnValidator()
  }

  lemma InTurnHeightsAreFew(s: Snapshot, h: Header, wasBohr: bool)
    requires Inv(s, wasBohr) && InTurnHistory(s)
    requires h.number == s.blockNumber + 1 < NUMBER_LIMIT
    ensures |InTurnHeights(s, h)| < s.Turn()
  {
    var a := Advanced(s, h);
    AdvancedIsOk(s, h, wasBohr);
    CheckLenIsShort(s);
    assert a.MinerHistoryCheckLen() == s.MinerHistoryCheckLen();
    forall k | k in InTurnHeights(s, h)
      ensures k < h.number < k + |s.validators| * s.Turn() && s.InturnAt(k) == s.InturnAt(h.number)
    {
      assert EntryOk(a, wasBohr, k);
    }
    FewInTurnBefore(s, InTurnHeights(s, h), h.number);
  }

  /** The validator in turn is not over-proposed when the history is in turn. */
  lemma InTurnIsNotOver(s: Snapshot, h: Header, wasBohr: bool, bohr: bool)
    requires Inv(s, wasBohr) && InTurnHistory(s) && (wasBohr ==> bohr)
    requires h.number == s.blockNumber + 1 < NUMBER_LIMIT
    ensures !OverProposed(Advanced(s, h), s.InturnValidator(), bohr)
  {
    var a, v := Advanced(s, h), s.InturnValidator();
    InTurnHeightsAreFew(s, h, wasBohr);
    if bohr {
      SubsetIsSmaller(a.RecentBlocks(v), InTurnHeights(s, h));
    } else {
      assert InTurnHeights(s, h) == {};
      assert forall k :: k in a.recentProposers && a.recentProposers[k] == v ==> k in InTurnHeights(s, h);
    }
  }

  /**
   The next block of an in-turn chain. It may announce a validator set: from Bohr on any
   set, and before Bohr the current one again, in whatever order.
   */
  ghost predicate InTurnInput(s: Snapshot, input: BlockInput, spec: ChainSpec)
    requires s.WellFormed()
  {
    && GoodInput(input, spec)
    && input.header.number == s.blockNumber + 1
    && input.proposer == s.InturnValidator()
    && (input.newValidators != [] && !BohrAt(spec, input.header) ==> Sorted(input.newValidators) == s.validators)
  }

  lemma InTurnBlockIsAccepted(s: Snapshot, input: BlockInput, spec: ChainSpec, wasBohr: bool)
    requires Inv(s, wasBohr) && InTurnHistory(s)
    requires wasBohr ==> BohrAt(spec, input.header)
    requires InTurnInput(s, input, spec)
    ensures Apply(s, input, spec).Some?
    ensures var s' := Apply(s, input, spec).value;
            && Inv(s', BohrAt(spec, input.header)) && InTurnHistory(s')
            && s'.blockNumber == input.header.number
  {
    InTurnIsNotOver(s, input.header, wasBohr, BohrAt(spec, input.header));
    var s' := Apply(s, input, spec).value;
    StepKeepsInv(spec, s, input, s', wasBohr);
    InTurnHistoryStays(s, input, spec, wasBohr);
  }

  /** After the block the history is in turn again: a switch under Bohr clears it. */
  lemma InTurnHistoryStays(s: Snapshot, input: BlockInput, spec: ChainSpec, wasBohr: bool)
    requires Inv(s, wasBohr) && InTurnHistory(s) && InTurnInput(s, input, spec)
    requires Apply(s, input, spec).Some?
    ensures InTurnHistory(Apply(s, input, spec).value)
  {
    var s' := Apply(s, input, spec).value;
    var bohr := BohrAt(spec, input.header);
    var r := Recorded(Advanced(s, input.header), input, spec);
    RecordedInTurn(s, input, spec);
    if Switches(r, input, bohr, s.epochNum) {
      EpochKeyIsHigh(input.header.number, s.epochNum);
      if !bohr {
        InTurnCarries(r, s', input.header.number);
      }
    }
  }

  /** Recording an in-turn block keeps the history in turn. */
  lemma RecordedInTurn(s: Snapshot, input: BlockInput, spec: ChainSpec)
    requires s.WellFormed() && InTurnHistory(s)
    requires input.header.number == s.blockNumber + 1 && input.proposer == s.InturnValidator()
    ensures InTurnHistory(Recorded(Advanced(s, input.header), input, spec))
  {
    InTurnCarries(s, Recorded(Advanced(s, input.header), input, spec), input.header.number);
  }

  /** A history that gains at most the in-turn entry at n stays in turn under the same schedule. */
  lemma InTurnCarries(s: Snapshot, s': Snapshot, n: nat)
    requires s.WellFormed() && s'.WellFormed() && InTurnHistory(s)
    requires s'.validators == s.validators && s'.Turn() == s.Turn()
    requires forall k :: k in s'.recentProposers ==>
               if k == n then s'.recentProposers[k] == s.InturnAt(n)
               else k in s.recentProposers && s'.recentProposers[k] == s.recentProposers[k]
    ensures InTurnHistory(s')
  {
    forall k | k in s'.recentProposers && k < NUMBER_LIMIT
      ensures s'.recentProposers[k] == s'.InturnAt(k)
    {
      assert s'.InturnAt(k) == s.InturnAt(k);
    }
  }

  // ---------------------------------------------------------------------------
  // Whole chains
  // ---------------------------------------------------------------------------

  /** Applying a whole chain of blocks. */
  function ApplyAll(s: Snapshot, inputs: seq<BlockInput>, spec: ChainSpec): Option<Snapshot>
    requires s.WellFormed() && forall i :: 0 <= i < |inputs| ==> inputs[i].WellFormed()
    decreases |inputs|
  {
    if inputs == [] then Some(s)
    else
      match Apply(s, inputs[0], spec)
      case None => None
      case Some(t) => ApplyAll(t, inputs[1..], spec)
  }

  /** As far as the chain is accepted, each block is by the validator then in turn. */
  ghost predicate InTurnChain(s: Snapshot, inputs: seq<BlockInput>, spec: ChainSpec)
    requires s.WellFormed()
    decreases |inputs|
  {
    inputs != [] ==>
      && InTurnInput(s, inputs[0], spec)
      && (Apply(s, inputs[0], spec).Some? ==> InTurnChain(Apply(s, inputs[0], spec).value, inputs[1..], spec))
  }

  /** A snapshot with no proposer on record: a new one, or one right after a switch under Bohr. */
  predicate FreshHistory(s: Snapshot) {
    forall k :: k in s.recentProposers ==> k >= NUMBER_LIMIT
  }

  /** Bohr, once active, stays active along the inputs; wasBohr tells about the block before them. */
  ghost predicate BohrStays(spec: ChainSpec, inputs: seq<BlockInput>, wasBohr: bool) {
    && (forall i :: 0 <= i < |inputs| && wasBohr ==> BohrAt(spec, inputs[i].header))
    && (forall i, j :: 0 <= i <= j < |inputs| && BohrAt(spec, inputs[i].header) ==> BohrAt(spec, inputs[j].header))
  }

  lemma {:induction false} InTurnChainIsAccepted(s: Snapshot, inputs: seq<BlockInput>, spec: ChainSpec, wasBohr: bool)
    requires Inv(s, wasBohr) && InTurnHistory(s) && InTurnChain(s, inputs, spec) && BohrStays(spec, inputs, wasBohr)
    requires forall i :: 0 <= i < |inputs| ==> inputs[i].WellFormed()
    ensures ApplyAll(s, inputs, spec).Some?
    ensures ApplyAll(s, inputs, spec).value.blockNumber == s.blockNumber + |inputs|
    decreases |inputs|
  {
    if inputs != [] {
      InTurnBlockIsAccepted(s, inputs[0], spec, wasBohr);
      BohrStaysAfter(spec, inputs, wasBohr);
      InTurnChainIsAccepted(Apply(s, inputs[0], spec).value, inputs[1..], spec, BohrAt(spec, inputs[0].header));
    }
  }

  lemma BohrStaysAfter(spec: ChainSpec, inputs: seq<BlockInput>, wasBohr: bool)
    requires inputs != [] && BohrStays(spec, inputs, wasBohr)
    ensures BohrStays(spec, inputs[1..], BohrAt(spec, inputs[0].header))
  {
    var rest := inputs[1..];
    forall i | 0 <= i < |rest|
      ensures rest[i] == inputs[i + 1]
    {
    }
  }

  /**
   In-turn progress: from any snapshot of a run with no proposer on record, every chain
   of in-turn blocks is accepted in full, across epoch boundaries and set switches.
   */
  lemma InTurnProgress(spec: ChainSpec, states: seq<Snapshot>, inputs: seq<BlockInput>, i: nat,
                       chain: seq<BlockInput>)
    requires IsRun(spec, states, inputs) && i < |states|
    requires states[i].WellFormed() && FreshHistory(states[i]) && InTurnChain(states[i], chain, spec)
    requires BohrStays(spec, chain, BohrIn(spec, inputs, i))
    requires forall x :: 0 <= x < |chain| ==> chain[x].WellFormed()
    ensures ApplyAll(states[i], chain, spec).Some?
    ensures ApplyAll(states[i], chain, spec).value.blockNumber == states[i].blockNumber + |chain|
  {
    RunKeepsInv(spec, states, inputs, i);
    InTurnChainIsAccepted(states[i], chain, spec, BohrIn(spec, inputs, i));
  }

  // ---------------------------------------------------------------------------
  // A changed set before Bohr
  // ---------------------------------------------------------------------------

  /**
   Exactly when the block in turn is accepted before Bohr, also right after a switch to any
   other set: the new order must not put in turn a validator that the history bars.
   */
  lemma InTurnAfterSwitch(spec: ChainSpec, s: Snapshot, input: BlockInput, t: Snapshot, next: BlockInput)
    requires Inv(s, false) && IsStep(spec, s, input, t) && !BohrAt(spec, input.header)
    requires GoodInput(next, spec) && !BohrAt(spec, next.header)
    requires next.header.number == input.header.number + 1 && next.proposer == t.InturnValidator()
    ensures Apply(t, next, spec).Some? <==> !t.SignRecently(t.InturnValidator())
  {
    StepKeepsInv(spec, s, input, t, false);
    AcceptanceBeforeBohr(spec, t, next);
  }

  /** What a switch before Bohr leaves. */
  lemma SwitchOutcome(spec: ChainSpec, s: Snapshot, input: BlockInput, t: Snapshot)
    requires IsStep(spec, s, input, t) && !BohrAt(spec, input.header) && input.newValidators != []
    requires !spec.MaxwellActive(input.header.number, input.header.timestamp)
    requires |s.validators| < NUMBER_LIMIT
    ensures t.validators == Sorted(input.newValidators) && t.blockNumber == input.header.number
    ensures input.turnLength.None? ==> t.turnLength == s.turnLength
    ensures t.blockNumber in t.recentProposers && t.recentProposers[t.blockNumber] == input.proposer
  {
  }

  lemma SortedPair(a: Address, b: Address)
    requires a < b
    ensures Sorted([a, b]) == [a, b]
  {
    assert [a, b][..1] == [a] && [a][..0] == [];
    assert Sorted([a]) == [a];
    assert Position([a], b) == 1;
  }

  /** A new chain of validators 1, 2 and 3 at block 3. */
  ghost predicate ThreeAtBlock3(s: Snapshot) {
    && s.validators == [1, 2, 3] && s.blockNumber == 3 && s.recentProposers == map[]
    && s.turnLength == Some(1) && s.epochNum == 200 && s.voteData == NO_VOTES
  }

  /** A block by validator 2 that announces these validators. */
  ghost predicate ByTwo(input: BlockInput, number: nat, validators: seq<Address>) {
    && input.proposer == 2 && input.header.number == number && input.header.timestamp == 0
    && input.newValidators == validators
    && input.voteAddrs.None? && input.attestation.None? && input.turnLength.None?
  }

  lemma FirstIsAccepted(spec: ChainSpec, s: Snapshot, first: BlockInput)
    requires ThreeAtBlock3(s) && ByTwo(first, 4, [1, 2]) && !spec.BohrActive(4, 0)
    ensures Inv(s, false) && s.InturnValidator() == 2 && first.WellFormed() && Apply(s, first, spec).Some?
  {
    EmptyHistoryIsOk(s);
    AcceptanceBeforeBohr(spec, s, first);
  }

  lemma NextIsRejected(spec: ChainSpec, s: Snapshot, first: BlockInput, t: Snapshot, next: BlockInput)
    requires Inv(s, false) && IsStep(spec, s, first, t) && ByTwo(first, 4, [1, 2]) && ByTwo(next, 5, [])
    requires t.validators == [1, 2] && t.Turn() == 1 && t.blockNumber == 4
    requires 4 in t.recentProposers && t.recentProposers[4] == 2
    requires !spec.BohrActive(4, 0) && !spec.BohrActive(5, 0)
    ensures t.InturnValidator() == 2 && Apply(t, next, spec).None?
  {
    InTurnAfterSwitch(spec, s, first, t, next);
    OnlyEntryBars(t);
  }

  /**
   A concrete case. Of validators 1, 2 and 3, validator 2 is in turn for block 4 and
   announces the set 1 and 2. For block 5 it is in turn again, and its block is rejected.
   */
  lemma SwitchCanReject(spec: ChainSpec, s: Snapshot, first: BlockInput, next: BlockInput) returns (t: Snapshot)
    requires ThreeAtBlock3(s) && ByTwo(first, 4, [1, 2]) && ByTwo(next, 5, [])
    requires !spec.BohrActive(4, 0) && !spec.BohrActive(5, 0) && !spec.MaxwellActive(4, 0)
    ensures s.WellFormed() && s.InturnValidator() == first.proposer
    ensures first.WellFormed() && Apply(s, first, spec) == Some(t)
    ensures t.WellFormed() && t.InturnValidator() == next.proposer
    ensures next.WellFormed() && Apply(t, next, spec).None?
  {
    FirstIsAccepted(spec, s, first);
    t := Apply(s, first, spec).value;
    SwitchOutcome(spec, s, first, t);
    SortedPair(1, 2);
    NextIsRejected(spec, s, first, t, next);
  }

  lemma EmptyHistoryIsOk(s: Snapshot)
    requires s.WellFormed() && GoodSet(s.validators) && s.recentProposers == map[] && s.Turn() == 1
    requires s.blockNumber < NUMBER_LIMIT && s.voteData.sourceNumber < NUMBER_LIMIT
    ensures Inv(s, false)
    ensures forall v :: s.RecentBlocks(v) == {}
  {
  }

  /** With turn length 1 the proposer of the last block is barred, unless it is the only validator. */
  lemma OnlyEntryBars(t: Snapshot)
    requires t.WellFormed() && |t.validators| >= 2 && t.Turn() == 1 && t.blockNumber > 0
    requires t.blockNumber in t.recentProposers && t.recentProposers[t.blockNumber] != DEFAULT_ADDRESS
    ensures t.SignRecently(t.recentProposers[t.blockNumber])
  {
    assert t.MinerHistoryCheckLen() == |t.validators| / 2;
    assert t.blockNumber in t.RecentBlocks(t.recentProposers[t.blockNumber]);
  }
}
