/**
 What the provider replays is a run of the snapshot state machine, and it records the
 vote data of the block tree. So the results about runs cover every snapshot the
 provider returns.
 */
module ReplayedRuns {
  import opened Types
  import opened Snapshots
  import opened SnapshotRuns
  import opened ExtraData
  import opened Provider
  import A = Attestations
  import AcceptedBlocks
  import F = Finality

  // ---------------------------------------------------------------------------
  // A replay is a run
  // ---------------------------------------------------------------------------

  /**
   The headers announce duplicate-free sets of real addresses and attest real heights;
   Bohr, once active on a branch, stays active.
   */
  ghost predicate HeaderOk(tree: Tree, spec: ChainSpec, decode: Decoder, h: Hash)
    requires h in tree
  {
    && tree[h].number < NUMBER_LIMIT
    && (forall e: nat :: e >= 1 && ParseValidators(spec, tree[h], e).Ok? ==>
          GoodSet(ParseValidators(spec, tree[h], e).value.consensusAddrs))
    && (forall e: nat :: e >= 1 ==> SourceIsReal(GetVoteAttestation(spec, tree[h], e, decode)))
    && (tree[h].parentHash in tree && BohrAt(spec, tree[tree[h].parentHash]) ==> BohrAt(spec, tree[h]))
  }

  predicate SourceIsReal(r: Result<Option<VoteAttestation>>) {
    r.Ok? && r.value.Some? ==> r.value.value.data.sourceNumber < NUMBER_LIMIT
  }

  ghost predicate HeadersOk(tree: Tree, spec: ChainSpec, decode: Decoder) {
    TreeOk(tree, spec) && forall h :: h in tree ==> HeaderOk(tree, spec, decode, h)
  }

  lemma {:induction false} BohrStaysUp(tree: Tree, spec: ChainSpec, decode: Decoder, h: Hash, n: nat)
    requires HeadersOk(tree, spec, decode) && h in tree && n <= tree[h].number
    requires BohrAt(spec, AncestorAt(tree, spec, h, n))
    ensures BohrAt(spec, tree[h])
    decreases tree[h].number
  {
    if n < tree[h].number {
      assert ParentIn(tree, h) && HeaderOk(tree, spec, decode, h);
      BohrStaysUp(tree, spec, decode, tree[h].parentHash, n);
    }
  }

  /** The set change that block h brings on top of snapshot s. */
  function ChangeAt(tree: Tree, spec: ChainSpec, s: Snapshot, h: Hash): Option<SetChange>
    requires TreeOk(tree, spec) && h in tree && s.WellFormed()
  {
    if IsBoundary(s, tree[h].number) then ReadCheckpoint(spec, OwnCheckpoint(tree, spec, s, h).value, s.epochNum)
    else Some(NO_CHANGE)
  }

  /** The input with which the replay goes from s to the snapshot of h. */
  lemma ReplayInput(tree: Tree, spec: ChainSpec, decode: Decoder, h: Hash, s: Snapshot) returns (input: BlockInput)
    requires HeadersOk(tree, spec, decode) && h in tree && tree[h].number > 0
    requires ParentIn(tree, h) && Replay(tree, spec, decode, tree[h].parentHash) == Some(s)
    requires Replay(tree, spec, decode, h).Some?
    ensures input.header == tree[h] && IsStep(spec, s, input, Replay(tree, spec, decode, h).value)
    ensures Ok(input.attestation) == GetVoteAttestation(spec, tree[h], s.epochNum, decode)
  {
    var change := ChangeAt(tree, spec, s, h).value;
    var attestation := GetVoteAttestation(spec, tree[h], s.epochNum, decode).value;
    input := BlockInput(tree[h].beneficiary, tree[h], change.validators, change.keys, attestation, change.turnLength);
    InputIsUsable(spec, s, tree[h], OwnCheckpoint(tree, spec, s, h), change, attestation);
    ChangeIsGood(tree, spec, decode, h, s);
    assert HeaderOk(tree, spec, decode, h);
  }

  lemma ReadIsGood(spec: ChainSpec, checkpoint: Header, e: nat)
    requires e >= 1 && ReadCheckpoint(spec, checkpoint, e).Some?
    requires ParseValidators(spec, checkpoint, e).Ok? ==>
               GoodSet(ParseValidators(spec, checkpoint, e).value.consensusAddrs)
    ensures var change := ReadCheckpoint(spec, checkpoint, e).value;
            && GoodSet(change.validators)
            && (change.turnLength.Some? ==> BohrAt(spec, checkpoint) && change.turnLength.value <= MAX_TURN_LENGTH)
  {
  }

  /** The checkpoint of h is an ancestor of it in the tree. */
  lemma CheckpointIsAncestor(tree: Tree, spec: ChainSpec, h: Hash, s: Snapshot) returns (n: nat)
    requires TreeOk(tree, spec) && h in tree && s.WellFormed() && IsBoundary(s, tree[h].number)
    ensures n <= tree[h].number && OwnCheckpoint(tree, spec, s, h) == Some(AncestorAt(tree, spec, h, n))
    ensures AncestorAt(tree, spec, h, n).hash in tree
    ensures tree[AncestorAt(tree, spec, h, n).hash] == AncestorAt(tree, spec, h, n)
  {
    BoundaryIsHigh(s, tree[h].number);
    n := tree[h].number - s.MinerHistoryCheckLen();
    AncestorIsOk(tree, spec, h, n);
  }

  lemma ChangeIsGood(tree: Tree, spec: ChainSpec, decode: Decoder, h: Hash, s: Snapshot)
    requires HeadersOk(tree, spec, decode) && h in tree && s.WellFormed() && ChangeAt(tree, spec, s, h).Some?
    ensures var change := ChangeAt(tree, spec, s, h).value;
            && GoodSet(change.validators)
            && (change.turnLength.Some? ==> BohrAt(spec, tree[h]) && change.turnLength.value <= MAX_TURN_LENGTH)
  {
    if IsBoundary(s, tree[h].number) {
      var n := CheckpointIsAncestor(tree, spec, h, s);
      var checkpoint := AncestorAt(tree, spec, h, n);
      assert HeaderOk(tree, spec, decode, checkpoint.hash);
      ReadIsGood(spec, checkpoint, s.epochNum);
      if BohrAt(spec, checkpoint) {
        BohrStaysUp(tree, spec, decode, h, n);
      }
    }
  }

  lemma RunGrows(spec: ChainSpec, states: seq<Snapshot>, inputs: seq<BlockInput>, input: BlockInput, s': Snapshot)
    requires IsRun(spec, states, inputs) && IsStep(spec, states[|inputs|], input, s')
    requires inputs != [] && BohrAt(spec, inputs[|inputs| - 1].header) ==> BohrAt(spec, input.header)
    ensures IsRun(spec, states + [s'], inputs + [input])
  {
    var n := |inputs|;
    var states', inputs' := states + [s'], inputs + [input];
    forall i | 0 <= i < |inputs'|
      ensures IsStep(spec, states'[i], inputs'[i], states'[i + 1])
    {
      if i < n {
        assert IsStep(spec, states[i], inputs[i], states[i + 1]);
      }
    }
    forall i, j | 0 <= i <= j < |inputs'| && BohrAt(spec, inputs'[i].header)
      ensures BohrAt(spec, inputs'[j].header)
    {
      if i < n && j == n {
        assert BohrAt(spec, inputs[i].header);
        assert BohrAt(spec, inputs[n - 1].header);
      }
    }
  }

  /** Every snapshot that replays is the last one of a run along the block's own branch. */
  lemma {:induction false} ReplayIsRun(tree: Tree, spec: ChainSpec, decode: Decoder, h: Hash)
    returns (states: seq<Snapshot>, inputs: seq<BlockInput>)
    requires HeadersOk(tree, spec, decode) && h in tree && Replay(tree, spec, decode, h).Some?
    ensures IsRun(spec, states, inputs) && |inputs| == tree[h].number
    ensures states[|inputs|] == Replay(tree, spec, decode, h).value
    ensures inputs != [] ==> inputs[|inputs| - 1].header == tree[h]
    decreases tree[h].number
  {
    var last := Replay(tree, spec, decode, h).value;
    if tree[h].number == 0 {
      GenesisIsStart(tree, spec, decode, h);
      states, inputs := [last], [];
    } else {
      var p := tree[h].parentHash;
      assert ParentIn(tree, h);
      states, inputs := ReplayIsRun(tree, spec, decode, p);
      var input := ReplayInput(tree, spec, decode, h, states[|inputs|]);
      assert HeaderOk(tree, spec, decode, h);
      RunGrows(spec, states, inputs, input, last);
      states, inputs := states + [last], inputs + [input];
    }
  }

  lemma GenesisIsStart(tree: Tree, spec: ChainSpec, decode: Decoder, h: Hash)
    requires HeadersOk(tree, spec, decode) && h in tree && tree[h].number == 0
    requires Replay(tree, spec, decode, h).Some?
    ensures IsStart(Replay(tree, spec, decode, h).value)
  {
    var info := ParseValidators(spec, tree[h], ENGINE_EPOCH).value;
    ParsedIsUsable(spec, tree[h], ENGINE_EPOCH);
    assert HeaderOk(tree, spec, decode, h);
    assert Replay(tree, spec, decode, h).value
        == NewSnapshot(info.consensusAddrs, 0, tree[h].hash, ENGINE_EPOCH, info.voteAddrs);
  }

  /** On every snapshot the provider returns someone can propose, and no counter overflows. */
  lemma ReplayedIsAlive(tree: Tree, spec: ChainSpec, decode: Decoder, h: Hash) returns (v: Address)
    requires HeadersOk(tree, spec, decode) && h in tree && Replay(tree, spec, decode, h).Some?
    ensures var s := Replay(tree, spec, decode, h).value;
            && |Barred(s)| <= |s.validators| / 2
            && v in s.validators && !s.SignRecently(v)
            && CountersFit(s) && A.TableOk(s)
  {
    var states, inputs := ReplayIsRun(tree, spec, decode, h);
    v := SomeoneCanPropose(spec, states, inputs, |inputs|);
    RunKeepsInv(spec, states, inputs, |inputs|);
    A.TableStaysOk(spec, states, inputs, |inputs|);
  }

  // ---------------------------------------------------------------------------
  // A replay records the vote data of the tree
  // ---------------------------------------------------------------------------

  /** The vote data of block h in the step system come from the attestation in its header. */
  ghost predicate VotesFollow(tree: Tree, spec: ChainSpec, decode: Decoder, nodes: map<Hash, F.Node>, h: Hash)
    requires TreeOk(tree, spec) && h in tree
  {
    && h in nodes
    && if tree[h].number == 0 then nodes[h].votes == NO_VOTES
       else
         && ParentIn(tree, h) && tree[h].parentHash in nodes
         && var s := Replay(tree, spec, decode, tree[h].parentHash);
            s.Some? ==>
              var a := GetVoteAttestation(spec, tree[h], s.value.epochNum, decode);
              a.Ok? ==>
                nodes[h].votes == UpdatedVotes(nodes[tree[h].parentHash].votes,
                                               spec.FermiActive(tree[h].number, tree[h].timestamp),
                                               tree[h].number, tree[h].parentHash, a.value)
  }

  lemma {:induction false} ReplayedVotes(tree: Tree, spec: ChainSpec, decode: Decoder, nodes: map<Hash, F.Node>, h: Hash)
    requires HeadersOk(tree, spec, decode) && h in tree && Replay(tree, spec, decode, h).Some?
    requires forall x :: x in tree ==> VotesFollow(tree, spec, decode, nodes, x)
    ensures h in nodes && Replay(tree, spec, decode, h).value.voteData == nodes[h].votes
    decreases tree[h].number
  {
    assert VotesFollow(tree, spec, decode, nodes, h);
    if tree[h].number > 0 {
      var p := tree[h].parentHash;
      ReplayedVotes(tree, spec, decode, nodes, p);
      var s := Replay(tree, spec, decode, p).value;
      var input := ReplayInput(tree, spec, decode, h, s);
      StepUpdatesVotes(spec, s, input, Replay(tree, spec, decode, h).value);
    }
  }

  lemma StepUpdatesVotes(spec: ChainSpec, s: Snapshot, input: BlockInput, s': Snapshot)
    requires IsStep(spec, s, input, s')
    ensures var h := input.header;
            s'.voteData == UpdatedVotes(s.voteData, spec.FermiActive(h.number, h.timestamp), h.number, h.parentHash,
                                        input.attestation)
  {
  }

  /**
   The verifier, working on the snapshot the provider replays for the parent, accepts
   only what the step system may add.
   */
  lemma ReplayedIsVerified(spec: ChainSpec, cfg: F.Config, st: F.State, net: A.Lookups, genesis: Header,
                           tree: Tree, decode: Decoder, parent: Header, number: nat, timestamp: nat, a: VoteAttestation)
    returns (signers: set<VoteAddress>)
    requires AcceptedBlocks.Mirrors(cfg, st, net, genesis) && F.TreeOk(cfg, st.nodes) && AcceptedBlocks.InTree(st, parent)
    requires HeadersOk(tree, spec, decode) && parent.hash in tree && Replay(tree, spec, decode, parent.hash).Some?
    requires forall x :: x in tree ==> VotesFollow(tree, spec, decode, st.nodes, x)
    requires spec.PlatoActive(number) && AcceptedBlocks.Unforged(st, a)
    requires A.Verifies(spec, net, genesis, Replay(tree, spec, decode, parent.hash).value, parent, number, timestamp, a)
    ensures F.Verified(cfg, st, st.nodes[parent.hash], spec.FermiActive(number, timestamp), F.Attestation(a.data, signers))
  {
    ReplayedVotes(tree, spec, decode, st.nodes, parent.hash);
    signers := AcceptedBlocks.AcceptedIsVerified(spec, cfg, st, net, genesis, Replay(tree, spec, decode, parent.hash).value,
                                                 parent, number, timestamp, a);
  }
}
