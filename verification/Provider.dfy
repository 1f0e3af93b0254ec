/**
 The snapshot provider of src/consensus/parlia/provider.rs: a cache that may forget, a
 database of checkpoints, and the rebuild from the nearest known ancestor.
 */
module Provider {
  import opened Types
  import opened Sorting
  import opened Snapshots
  import opened ExtraData
  import Arith

  /** Epoch length the consensus engine is created with. */
  const ENGINE_EPOCH: nat := 200

  // ---------------------------------------------------------------------------
  // Replay from genesis
  // ---------------------------------------------------------------------------

  type Tree = map<Hash, Header>

  /**
   The block tree: hashes identify headers, every block above genesis has its parent
   one below, and genesis has none. Turn lengths in the headers are not zero.
   */
  ghost predicate TreeOk(tree: Tree, spec: ChainSpec) {
    && (forall h :: h in tree ==>
          tree[h].hash == h && if tree[h].number == 0 then tree[h].parentHash !in tree else ParentIn(tree, h))
    && (forall h :: h in tree ==> TurnOk(spec, tree[h]))
  }

  predicate ParentIn(tree: Tree, h: Hash)
    requires h in tree
  {
    tree[h].parentHash in tree && tree[tree[h].parentHash].number + 1 == tree[h].number
  }

  ghost predicate TurnOk(spec: ChainSpec, header: Header) {
    forall e: nat :: e >= 1 ==> GetTurnLength(spec, header, e) != Ok(Some(0))
  }

  /** The ancestor of h (or h itself) at height n. */
  function AncestorAt(tree: Tree, spec: ChainSpec, h: Hash, n: nat): Header
    requires TreeOk(tree, spec) && h in tree && n <= tree[h].number
    decreases tree[h].number
  {
    if n == tree[h].number then tree[h] else AncestorAt(tree, spec, tree[h].parentHash, n)
  }

  function GenesisSnapshot(spec: ChainSpec, header: Header): (r: Option<Snapshot>)
    requires header.number == 0
    ensures r.Some? ==> r.value.WellFormed()
  {
    match ParseValidators(spec, header, ENGINE_EPOCH)
    case Err(_) => None
    case Ok(info) =>
      ParsedIsUsable(spec, header, ENGINE_EPOCH);
      Some(NewSnapshot(info.consensusAddrs, 0, header.hash, ENGINE_EPOCH, info.voteAddrs))
  }

  /** The block at which a new validator set takes over. */
  predicate IsBoundary(s: Snapshot, number: nat)
    requires s.WellFormed()
  {
    number > 0 && number % s.epochNum == s.MinerHistoryCheckLen()
  }

  /** The checkpoint lies back by the length of the proposer history. */
  lemma BoundaryIsHigh(s: Snapshot, number: nat)
    requires s.WellFormed() && IsBoundary(s, number)
    ensures s.MinerHistoryCheckLen() <= number
    ensures (number - s.MinerHistoryCheckLen()) % s.epochNum == 0
  {
    Arith.RemainderBelow(number, s.epochNum, s.MinerHistoryCheckLen());
  }

  datatype SetChange = SetChange(validators: seq<Address>, keys: Option<seq<VoteAddress>>, turnLength: Option<nat>)

  /** The validator set and turn length the checkpoint header announces. */
  function ReadCheckpoint(spec: ChainSpec, checkpoint: Header, epochNum: nat): Option<SetChange>
    requires epochNum >= 1
  {
    var parsed := ParseValidators(spec, checkpoint, epochNum);
    var turn := GetTurnLength(spec, checkpoint, epochNum);
    if turn.Err? || parsed.Err? then None
    else
      var t: Option<nat> := if turn.value.None? then None else Some(turn.value.value);
      Some(SetChange(parsed.value.consensusAddrs, parsed.value.voteAddrs, t))
  }

  const NO_CHANGE := SetChange([], None, None)

  /** Applies a header, given the checkpoint header it may need. */
  function ApplyHeader(spec: ChainSpec, decode: Decoder, s: Snapshot, header: Header, checkpoint: Option<Header>):
    (r: Option<Snapshot>)
    requires s.WellFormed()
    requires IsBoundary(s, header.number) && checkpoint.Some? ==>
               checkpoint.value.number == header.number - s.MinerHistoryCheckLen()
               && TurnOk(spec, checkpoint.value)
    ensures r.Some? ==> r.value.WellFormed() && r.value.blockHash == header.hash && r.value.blockNumber == header.number
  {
    var change :=
      if !IsBoundary(s, header.number) then Some(NO_CHANGE)
      else if checkpoint.None? then None
      else ReadCheckpoint(spec, checkpoint.value, s.epochNum);
    if change.None? then None
    else
      match GetVoteAttestation(spec, header, s.epochNum, decode)
      case Err(_) => None
      case Ok(attestation) =>
        var input := BlockInput(header.beneficiary, header, change.value.validators, change.value.keys,
                                attestation, change.value.turnLength);
        InputIsUsable(spec, s, header, checkpoint, change.value, attestation);
        Apply(s, input, spec)
  }

  lemma InputIsUsable(spec: ChainSpec, s: Snapshot, header: Header, checkpoint: Option<Header>, change: SetChange,
                      attestation: Option<VoteAttestation>)
    requires s.WellFormed()
    requires IsBoundary(s, header.number) && checkpoint.Some? ==>
               checkpoint.value.number == header.number - s.MinerHistoryCheckLen()
               && TurnOk(spec, checkpoint.value)
    requires if IsBoundary(s, header.number)
             then checkpoint.Some? && ReadCheckpoint(spec, checkpoint.value, s.epochNum) == Some(change)
             else change == NO_CHANGE
    ensures BlockInput(header.beneficiary, header, change.validators, change.keys, attestation,
                       change.turnLength).WellFormed()
  {
    if IsBoundary(s, header.number) {
      BoundaryIsHigh(s, header.number);
      ParsedIsUsable(spec, checkpoint.value, s.epochNum);
      assert GetTurnLength(spec, checkpoint.value, s.epochNum) != Ok(Some(0));
    }
  }

  /** The checkpoint of h on its own branch. */
  function OwnCheckpoint(tree: Tree, spec: ChainSpec, s: Snapshot, h: Hash): (c: Option<Header>)
    requires TreeOk(tree, spec) && h in tree && s.WellFormed()
    ensures IsBoundary(s, tree[h].number) ==> c.Some?
    ensures c.Some? ==> TurnOk(spec, c.value) && c.value.number == tree[h].number - s.MinerHistoryCheckLen()
  {
    if IsBoundary(s, tree[h].number) then
      BoundaryIsHigh(s, tree[h].number);
      AncestorIsOk(tree, spec, h, tree[h].number - s.MinerHistoryCheckLen());
      Some(AncestorAt(tree, spec, h, tree[h].number - s.MinerHistoryCheckLen()))
    else None
  }

  lemma {:induction false} AncestorIsOk(tree: Tree, spec: ChainSpec, h: Hash, n: nat)
    requires TreeOk(tree, spec) && h in tree && n <= tree[h].number
    ensures AncestorAt(tree, spec, h, n).number == n
    ensures AncestorAt(tree, spec, h, n).hash in tree
    ensures tree[AncestorAt(tree, spec, h, n).hash] == AncestorAt(tree, spec, h, n)
    ensures TurnOk(spec, AncestorAt(tree, spec, h, n))
    decreases tree[h].number
  {
    if n < tree[h].number {
      assert ParentIn(tree, h);
      AncestorIsOk(tree, spec, tree[h].parentHash, n);
    }
  }

  /** The snapshot of h: every header from genesis to h applied in turn. */
  function Replay(tree: Tree, spec: ChainSpec, decode: Decoder, h: Hash): (r: Option<Snapshot>)
    requires TreeOk(tree, spec) && h in tree
    ensures r.Some? ==> r.value.WellFormed() && r.value.blockHash == h && r.value.blockNumber == tree[h].number
    decreases tree[h].number
  {
    if tree[h].number == 0 then GenesisSnapshot(spec, tree[h])
    else
      assert ParentIn(tree, h);
      match Replay(tree, spec, decode, tree[h].parentHash)
      case None => None
      case Some(s) => ApplyHeader(spec, decode, s, tree[h], OwnCheckpoint(tree, spec, s, h))
  }

  // ---------------------------------------------------------------------------
  // What a node can look up
  // ---------------------------------------------------------------------------

  /** The whole block tree, the headers a lookup by hash finds, and the canonical chain. */
  datatype Chain = Chain(tree: Tree, known: set<Hash>, canonical: map<nat, Header>) {
    ghost predicate Ok(spec: ChainSpec) {
      && TreeOk(tree, spec) && known <= tree.Keys
      && forall n :: n in canonical ==> canonical[n].number == n && TurnOk(spec, canonical[n])
    }

    function HeaderByHash(h: Hash): Option<Header>
      requires known <= tree.Keys
    {
      if h in known then Some(tree[h]) else None
    }

    function CanonicalHeader(n: nat): Option<Header> {
      if n in canonical then Some(canonical[n]) else None
    }
  }

  /** Where the canonical lookup answers for h or an ancestor of h, it answers with that block. */
  ghost predicate OnCanonicalChain(c: Chain, spec: ChainSpec, h: Hash) {
    && c.Ok(spec) && h in c.tree
    && forall n :: 0 <= n <= c.tree[h].number && n in c.canonical ==>
         c.canonical[n] == AncestorAt(c.tree, spec, h, n)
  }

  /** Every lookup about h and its ancestors succeeds. */
  ghost predicate AllKnown(c: Chain, spec: ChainSpec, h: Hash) {
    && c.Ok(spec) && h in c.tree
    && forall n :: 0 <= n <= c.tree[h].number ==>
         n in c.canonical && AncestorAt(c.tree, spec, h, n).hash in c.known
  }

  lemma ParentIsKnownToo(c: Chain, spec: ChainSpec, h: Hash)
    requires c.Ok(spec) && h in c.tree && c.tree[h].number > 0
    ensures ParentIn(c.tree, h)
    ensures OnCanonicalChain(c, spec, h) ==> OnCanonicalChain(c, spec, c.tree[h].parentHash)
    ensures AllKnown(c, spec, h) ==> AllKnown(c, spec, c.tree[h].parentHash)
  {
    var p := c.tree[h].parentHash;
    assert ParentIn(c.tree, h);
    forall n | 0 <= n <= c.tree[p].number
      ensures AncestorAt(c.tree, spec, h, n) == AncestorAt(c.tree, spec, p, n)
    {
    }
  }

  /** The checkpoint as the provider finds it: by number on the canonical chain. */
  function FoundCheckpoint(c: Chain, s: Snapshot, number: nat): Option<Header>
    requires s.WellFormed()
  {
    if IsBoundary(s, number) && s.MinerHistoryCheckLen() <= number
    then c.CanonicalHeader(number - s.MinerHistoryCheckLen()) else None
  }

  /** The turn length after a change. */
  function TurnAfter(s: Snapshot, change: SetChange): Option<nat> {
    if change.turnLength.Some? then change.turnLength else s.turnLength
  }

  /** Two changes that leave the same validators, keys and turn length. */
  predicate SameEffect(s: Snapshot, a: SetChange, b: SetChange) {
    && KeysMatch(a.validators, a.keys) && KeysMatch(b.validators, b.keys)
    && Sorted(a.validators) == Sorted(b.validators)
    && InfoMap(a.validators, a.keys) == InfoMap(b.validators, b.keys)
    && TurnAfter(s, a) == TurnAfter(s, b)
  }

  function InputWith(header: Header, attestation: Option<VoteAttestation>, change: SetChange): BlockInput {
    BlockInput(header.beneficiary, header, change.validators, change.keys, attestation, change.turnLength)
  }

  /** The header passes the checks of the transition, none of which looks at the announcement. */
  predicate Passes(spec: ChainSpec, s: Snapshot, header: Header)
    requires s.WellFormed()
  {
    && header.number == s.blockNumber + 1
    && header.beneficiary in s.validators
    && !OverProposed(Advanced(s, header), header.beneficiary, spec.BohrActive(header.number, header.timestamp))
  }

  /** Under Bohr the marker of the epoch is already there, so no set switches. */
  predicate Marked(spec: ChainSpec, s: Snapshot, header: Header, attestation: Option<VoteAttestation>)
    requires s.WellFormed()
  {
    && spec.BohrActive(header.number, header.timestamp)
    && EpochKey(header.number, s.epochNum)
       in Recorded(Advanced(s, header), InputWith(header, attestation, NO_CHANGE), spec).recentProposers
  }

  /** Reading a instead of b makes no difference to a header that brings this attestation. */
  predicate NoDifference(spec: ChainSpec, s: Snapshot, header: Header, attestation: Option<VoteAttestation>,
                         a: Option<SetChange>, b: Option<SetChange>)
    requires s.WellFormed()
  {
    || !Passes(spec, s, header)
    || (a.None? && b.None?)
    || (a.Some? && b.Some? && (Marked(spec, s, header, attestation) || SameEffect(s, a.value, b.value)))
  }

  /**
   What the checkpoint found by number may announce without doing harm: the header's own
   attestation does not decode, or it makes no difference.
   */
  predicate Harmless(spec: ChainSpec, decode: Decoder, s: Snapshot, header: Header, found: Header, own: Header)
    requires s.WellFormed()
  {
    var attestation := GetVoteAttestation(spec, header, s.epochNum, decode);
    attestation.Ok? ==>
      NoDifference(spec, s, header, attestation.value,
                   ReadCheckpoint(spec, found, s.epochNum), ReadCheckpoint(spec, own, s.epochNum))
  }

  lemma AppliedWith(spec: ChainSpec, s: Snapshot, header: Header, attestation: Option<VoteAttestation>, a: SetChange)
    requires s.WellFormed() && a.validators != [] && InputWith(header, attestation, a).WellFormed()
    ensures var x := InputWith(header, attestation, a);
            var r := Recorded(Advanced(s, header), InputWith(header, attestation, NO_CHANGE), spec);
            Apply(s, x, spec) ==
              if !Passes(spec, s, header) then None
              else if Marked(spec, s, header, attestation) then Some(r)
              else Some(Switched(r, x, spec.BohrActive(header.number, header.timestamp), s.epochNum))
  {
    assert Recorded(Advanced(s, header), InputWith(header, attestation, a), spec)
        == Recorded(Advanced(s, header), InputWith(header, attestation, NO_CHANGE), spec);
  }

  /** Two announcements lead to the same snapshot exactly when there is no difference. */
  lemma AnnouncementsMatter(spec: ChainSpec, s: Snapshot, header: Header, attestation: Option<VoteAttestation>,
                            a: SetChange, b: SetChange)
    requires s.WellFormed() && a.validators != [] && b.validators != []
    requires InputWith(header, attestation, a).WellFormed() && InputWith(header, attestation, b).WellFormed()
    ensures Apply(s, InputWith(header, attestation, a), spec) == Apply(s, InputWith(header, attestation, b), spec)
            <==> NoDifference(spec, s, header, attestation, Some(a), Some(b))
  {
    AppliedWith(spec, s, header, attestation, a);
    AppliedWith(spec, s, header, attestation, b);
    if Sorted(a.validators) == Sorted(b.validators) {
      assert |a.validators| == |b.validators|;
    }
  }

  lemma ReadableIsUsable(spec: ChainSpec, s: Snapshot, header: Header, checkpoint: Header, attestation: Option<VoteAttestation>)
    requires s.WellFormed() && IsBoundary(s, header.number)
    requires checkpoint.number == header.number - s.MinerHistoryCheckLen() && TurnOk(spec, checkpoint)
    requires ReadCheckpoint(spec, checkpoint, s.epochNum).Some?
    ensures var change := ReadCheckpoint(spec, checkpoint, s.epochNum).value;
            change.validators != [] && InputWith(header, attestation, change).WellFormed()
  {
    var change := ReadCheckpoint(spec, checkpoint, s.epochNum).value;
    InputIsUsable(spec, s, header, Some(checkpoint), change, attestation);
    BoundaryIsHigh(s, header.number);
    ParsedIsUsable(spec, checkpoint, s.epochNum);
  }

  /** At a boundary the header, applied with either checkpoint, gives the same exactly when found is harmless. */
  lemma HarmlessIsExact(spec: ChainSpec, decode: Decoder, s: Snapshot, header: Header, found: Header, own: Header)
    requires s.WellFormed() && IsBoundary(s, header.number)
    requires found.number == own.number == header.number - s.MinerHistoryCheckLen()
    requires TurnOk(spec, found) && TurnOk(spec, own)
    ensures ApplyHeader(spec, decode, s, header, Some(found)) == ApplyHeader(spec, decode, s, header, Some(own))
            <==> Harmless(spec, decode, s, header, found, own)
  {
    var f, o := ReadCheckpoint(spec, found, s.epochNum), ReadCheckpoint(spec, own, s.epochNum);
    var attestation := GetVoteAttestation(spec, header, s.epochNum, decode);
    if attestation.Ok? {
      if f.Some? {
        ReadableIsUsable(spec, s, header, found, attestation.value);
        AppliedWith(spec, s, header, attestation.value, f.value);
      }
      if o.Some? {
        ReadableIsUsable(spec, s, header, own, attestation.value);
        AppliedWith(spec, s, header, attestation.value, o.value);
      }
      if f.Some? && o.Some? {
        AnnouncementsMatter(spec, s, header, attestation.value, f.value, o.value);
      }
    }
  }

  /** The checkpoint found for h, if any, does no harm. */
  ghost predicate StepAgrees(c: Chain, spec: ChainSpec, decode: Decoder, s: Snapshot, h: Hash)
    requires c.Ok(spec) && h in c.tree && s.WellFormed()
  {
    FoundCheckpoint(c, s, c.tree[h].number).Some? ==>
      Harmless(spec, decode, s, c.tree[h], FoundCheckpoint(c, s, c.tree[h].number).value,
               OwnCheckpoint(c.tree, spec, s, h).value)
  }

  /** So it is for h and all its ancestors: the lookups by number lead nowhere else. */
  ghost predicate LookupsAgree(c: Chain, spec: ChainSpec, decode: Decoder, h: Hash)
    decreases if h in c.tree then c.tree[h].number else 0
  {
    && c.Ok(spec) && h in c.tree
    && (c.tree[h].number > 0 ==>
          && ParentIn(c.tree, h)
          && LookupsAgree(c, spec, decode, c.tree[h].parentHash)
          && var s := Replay(c.tree, spec, decode, c.tree[h].parentHash);
             s.Some? ==> StepAgrees(c, spec, decode, s.value, h))
  }

  /** On the canonical chain the lookup by number finds the block's own checkpoint, or nothing. */
  lemma FoundIsOwn(c: Chain, spec: ChainSpec, s: Snapshot, h: Hash)
    requires s.WellFormed() && OnCanonicalChain(c, spec, h)
    requires FoundCheckpoint(c, s, c.tree[h].number).Some? || !IsBoundary(s, c.tree[h].number)
    ensures FoundCheckpoint(c, s, c.tree[h].number) == OwnCheckpoint(c.tree, spec, s, h)
  {
    if IsBoundary(s, c.tree[h].number) {
      BoundaryIsHigh(s, c.tree[h].number);
    }
  }

  /** On the canonical chain the lookups always agree. */
  lemma {:induction false} CanonicalLookupsAgree(c: Chain, spec: ChainSpec, decode: Decoder, h: Hash)
    requires OnCanonicalChain(c, spec, h)
    ensures LookupsAgree(c, spec, decode, h)
    decreases c.tree[h].number
  {
    if c.tree[h].number > 0 {
      ParentIsKnownToo(c, spec, h);
      CanonicalLookupsAgree(c, spec, decode, c.tree[h].parentHash);
      var s := Replay(c.tree, spec, decode, c.tree[h].parentHash);
      if s.Some? && FoundCheckpoint(c, s.value, c.tree[h].number).Some? {
        FoundIsOwn(c, spec, s.value, h);
        OwnIsHarmless(spec, decode, s.value, c.tree[h], OwnCheckpoint(c.tree, spec, s.value, h).value);
      }
    }
  }

  lemma OwnIsHarmless(spec: ChainSpec, decode: Decoder, s: Snapshot, header: Header, own: Header)
    requires s.WellFormed() && IsBoundary(s, header.number)
    requires own.number == header.number - s.MinerHistoryCheckLen() && TurnOk(spec, own)
    ensures Harmless(spec, decode, s, header, own, own)
  {
    HarmlessIsExact(spec, decode, s, header, own, own);
  }

  /**
   Exactly when one step of the rebuild is right: on top of the replayed parent, and with
   a checkpoint found where one is needed, it gives the replay of h if and only if the
   checkpoint found is harmless.
   */
  lemma RebuildStepIsExact(c: Chain, spec: ChainSpec, decode: Decoder, s: Snapshot, h: Hash)
    requires c.Ok(spec) && h in c.tree && c.tree[h].number > 0 && ParentIn(c.tree, h)
    requires Replay(c.tree, spec, decode, c.tree[h].parentHash) == Some(s)
    requires FoundCheckpoint(c, s, c.tree[h].number).Some? || !IsBoundary(s, c.tree[h].number)
    ensures ApplyHeader(spec, decode, s, c.tree[h], FoundCheckpoint(c, s, c.tree[h].number))
            == Replay(c.tree, spec, decode, h)
            <==> StepAgrees(c, spec, decode, s, h)
  {
    if IsBoundary(s, c.tree[h].number) {
      BoundaryIsHigh(s, c.tree[h].number);
      HarmlessIsExact(spec, decode, s, c.tree[h], FoundCheckpoint(c, s, c.tree[h].number).value,
                      OwnCheckpoint(c.tree, spec, s, h).value);
    }
  }

  /** Replaying block h gives r. */
  ghost predicate Yields(tree: Tree, spec: ChainSpec, decode: Decoder, h: Hash, r: Option<Snapshot>) {
    TreeOk(tree, spec) && h in tree && Replay(tree, spec, decode, h) == r
  }

  /** Every stored snapshot is the replay of the block it is stored under. */
  ghost predicate Sound(tree: Tree, spec: ChainSpec, decode: Decoder, m: map<Hash, Snapshot>) {
    forall h :: h in m ==> Yields(tree, spec, decode, h, Some(m[h]))
  }

  // ---------------------------------------------------------------------------
  // The tree may grow
  // ---------------------------------------------------------------------------

  ghost predicate Extends(tree: Tree, bigger: Tree) {
    forall h :: h in tree ==> h in bigger && bigger[h] == tree[h]
  }

  lemma {:induction false} AncestorStays(tree: Tree, bigger: Tree, spec: ChainSpec, h: Hash, n: nat)
    requires TreeOk(tree, spec) && TreeOk(bigger, spec) && Extends(tree, bigger)
    requires h in tree && n <= tree[h].number
    ensures AncestorAt(bigger, spec, h, n) == AncestorAt(tree, spec, h, n)
    decreases tree[h].number
  {
    if n < tree[h].number {
      assert ParentIn(tree, h);
      AncestorStays(tree, bigger, spec, tree[h].parentHash, n);
    }
  }

  lemma {:induction false} ReplayStays(tree: Tree, bigger: Tree, spec: ChainSpec, decode: Decoder, h: Hash)
    requires TreeOk(tree, spec) && TreeOk(bigger, spec) && Extends(tree, bigger) && h in tree
    ensures Replay(bigger, spec, decode, h) == Replay(tree, spec, decode, h)
    decreases tree[h].number
  {
    if tree[h].number > 0 {
      assert ParentIn(tree, h);
      ReplayStays(tree, bigger, spec, decode, tree[h].parentHash);
      var r := Replay(tree, spec, decode, tree[h].parentHash);
      if r.Some? {
        CheckpointStays(tree, bigger, spec, r.value, h);
      }
    }
  }

  lemma CheckpointStays(tree: Tree, bigger: Tree, spec: ChainSpec, s: Snapshot, h: Hash)
    requires TreeOk(tree, spec) && TreeOk(bigger, spec) && Extends(tree, bigger) && h in tree && s.WellFormed()
    ensures OwnCheckpoint(bigger, spec, s, h) == OwnCheckpoint(tree, spec, s, h)
  {
    if IsBoundary(s, tree[h].number) {
      BoundaryIsHigh(s, tree[h].number);
      AncestorStays(tree, bigger, spec, h, tree[h].number - s.MinerHistoryCheckLen());
    }
  }

  /** New blocks do not spoil what is stored. */
  lemma SoundStays(tree: Tree, bigger: Tree, spec: ChainSpec, decode: Decoder, m: map<Hash, Snapshot>)
    requires TreeOk(tree, spec) && TreeOk(bigger, spec) && Extends(tree, bigger)
    requires Sound(tree, spec, decode, m)
    ensures Sound(bigger, spec, decode, m)
  {
    forall h | h in m
      ensures Yields(bigger, spec, decode, h, Some(m[h]))
    {
      assert Yields(tree, spec, decode, h, Some(m[h]));
      ReplayStays(tree, bigger, spec, decode, h);
    }
  }

  // ---------------------------------------------------------------------------
  // The provider
  // ---------------------------------------------------------------------------

  /** A walk from target towards genesis: each next hash is the parent of the one before. */
  ghost predicate IsWalk(c: Chain, spec: ChainSpec, decode: Decoder, target: Hash, walk: seq<Hash>) {
    && walk != [] && walk[0] == target
    && (forall i :: 0 <= i < |walk| ==> WalkAt(c, spec, decode, target, walk[i]))
    && (forall i :: 0 <= i < |walk| - 1 ==> c.tree[walk[i]].parentHash == walk[i + 1])
  }

  ghost predicate WalkAt(c: Chain, spec: ChainSpec, decode: Decoder, target: Hash, h: Hash) {
    && LookupsAgree(c, spec, decode, h) && c.tree[h].number > 0
    && (AllKnown(c, spec, target) ==> AllKnown(c, spec, h))
  }

  /** If a block cannot be replayed, neither can its child. */
  lemma ChildFails(c: Chain, spec: ChainSpec, decode: Decoder, h: Hash)
    requires LookupsAgree(c, spec, decode, h) && c.tree[h].number > 0
    requires Yields(c.tree, spec, decode, c.tree[h].parentHash, None)
    ensures Yields(c.tree, spec, decode, h, None)
  {
  }

  /** If a block on the walk cannot be replayed, neither can the target. */
  lemma {:induction false} FailurePropagates(c: Chain, spec: ChainSpec, decode: Decoder, target: Hash,
                                             walk: seq<Hash>, k: nat)
    requires IsWalk(c, spec, decode, target, walk) && k < |walk|
    requires Yields(c.tree, spec, decode, walk[k], None)
    ensures Yields(c.tree, spec, decode, target, None)
  {
    if k > 0 {
      assert WalkAt(c, spec, decode, target, walk[k - 1]);
      assert c.tree[walk[k - 1]].parentHash == walk[k];
      ChildFails(c, spec, decode, walk[k - 1]);
      FailurePropagates(c, spec, decode, target, walk, k - 1);
    }
  }

  /** The block before the walk. */
  function Next(c: Chain, walk: seq<Hash>): Hash
    requires walk != [] && walk[|walk| - 1] in c.tree
  {
    c.tree[walk[|walk| - 1]].parentHash
  }

  lemma WalkGoesOn(c: Chain, spec: ChainSpec, decode: Decoder, target: Hash, walk: seq<Hash>)
    requires IsWalk(c, spec, decode, target, walk)
    ensures walk[|walk| - 1] in c.tree
    ensures var p := Next(c, walk);
            && LookupsAgree(c, spec, decode, p)
            && (AllKnown(c, spec, target) ==> p in c.known)
            && c.tree[p].number + 1 == c.tree[walk[|walk| - 1]].number
            && (c.tree[p].number > 0 ==> IsWalk(c, spec, decode, target, walk + [p]))
  {
    var last := walk[|walk| - 1];
    assert WalkAt(c, spec, decode, target, last);
    var p := c.tree[last].parentHash;
    ParentIsKnownToo(c, spec, last);
    if AllKnown(c, spec, p) {
      assert AncestorAt(c.tree, spec, p, c.tree[p].number).hash in c.known;
    }
    if c.tree[p].number > 0 {
      assert WalkAt(c, spec, decode, target, p);
    }
  }

  /** What a failed search for a stored ancestor means. */
  lemma WalkFails(c: Chain, spec: ChainSpec, decode: Decoder, target: Hash, walk: seq<Hash>)
    requires IsWalk(c, spec, decode, target, walk) && walk[|walk| - 1] in c.tree
    requires Yields(c.tree, spec, decode, Next(c, walk), None)
    ensures Yields(c.tree, spec, decode, target, None)
  {
    var k := |walk| - 1;
    assert WalkAt(c, spec, decode, target, walk[k]);
    ChildFails(c, spec, decode, walk[k]);
    FailurePropagates(c, spec, decode, target, walk, k);
  }

  class SnapshotProvider {
    const spec: ChainSpec
    const decode: Decoder
    var cache: map<Hash, Snapshot>
    var db: map<Hash, Snapshot>

    /** Cache and database hold nothing but replays. */
    ghost predicate Valid(tree: Tree)
      reads this
    {
      Sound(tree, spec, decode, cache) && Sound(tree, spec, decode, db)
    }

    ghost predicate Replays(tree: Tree, h: Hash, r: Option<Snapshot>) {
      Yields(tree, spec, decode, h, r)
    }

    constructor (spec: ChainSpec, decode: Decoder, db: map<Hash, Snapshot>, ghost tree: Tree)
      requires Sound(tree, spec, decode, db)
      ensures this.spec == spec && this.decode == decode
      ensures Valid(tree) && this.cache == map[] && this.db == db
    {
      this.spec := spec;
      this.decode := decode;
      this.cache := map[];
      this.db := db;
    }

    /** Insertion into the bounded cache; the cache may drop any other entries. */
    method CacheInsert(h: Hash, s: Snapshot, ghost tree: Tree)
      requires Valid(tree) && Replays(tree, h, Some(s))
      modifies this`cache
      ensures Valid(tree)
      ensures h in cache && cache[h] == s
      ensures forall k :: k in cache && k != h ==> k in old(cache) && cache[k] == old(cache)[k]
    {
      var dropped: set<Hash> := *;
      cache := (cache - dropped)[h := s];
    }

    /** Lookup in the cache, then in the database, which refills the cache. */
    method Find(h: Hash, ghost tree: Tree) returns (r: Option<Snapshot>)
      requires Valid(tree)
      modifies this`cache
      ensures Valid(tree)
      ensures r.Some? <==> h in old(cache) || h in db
      ensures r.Some? ==> Replays(tree, h, r)
    {
      if h in cache {
        return Some(cache[h]);
      }
      if h !in db {
        return None;
      }
      r := Some(db[h]);
      CacheInsert(h, db[h], tree);
    }

    /** Stores a snapshot in the cache and, at a checkpoint, in the database. */
    method Insert(s: Snapshot, ghost tree: Tree)
      requires Valid(tree) && Replays(tree, s.blockHash, Some(s))
      modifies this
      ensures Valid(tree)
      ensures s.blockHash in cache
      ensures db == if s.blockNumber % 1024 == 0 then old(db)[s.blockHash := s] else old(db)
    {
      CacheInsert(s.blockHash, s, tree);
      if s.blockNumber % CHECKPOINT_INTERVAL == 0 {
        db := db[s.blockHash := s];
      }
    }

    method InitGenesis(h: Hash, header: Header, ghost tree: Tree) returns (r: Option<Snapshot>)
      requires Valid(tree) && TreeOk(tree, spec) && h in tree && header == tree[h] && header.number == 0
      modifies this
      ensures Valid(tree)
      ensures Replays(tree, h, r)
      ensures r.Some? ==> h in cache
      ensures r.None? ==> cache == old(cache) && db == old(db)
    {
      r := GenesisSnapshot(spec, header);
      if r.Some? {
        Insert(r.value, tree);
      }
    }

    /** Applies one header of the rebuild; the checkpoint is looked up by number. */
    method Advance(c: Chain, h: Hash, s: Snapshot) returns (r: Option<Snapshot>)
      requires Valid(c.tree) && LookupsAgree(c, spec, decode, h) && c.tree[h].number > 0
      requires Replays(c.tree, c.tree[h].parentHash, Some(s))
      modifies this
      ensures Valid(c.tree)
      ensures r.Some? || AllKnown(c, spec, h) ==> Replays(c.tree, h, r)
    {
      var found := c.HeaderByHash(h);
      if found.None? {
        assert AncestorAt(c.tree, spec, h, c.tree[h].number).hash == h;
        return None;
      }
      var header := found.value;
      var checkpoint := FoundCheckpoint(c, s, header.number);
      if IsBoundary(s, header.number) {
        BoundaryIsHigh(s, header.number);
        if checkpoint.None? {
          return None;
        }
      }
      RebuildStepIsExact(c, spec, decode, s, h);
      r := ApplyHeader(spec, decode, s, header, checkpoint);
      if r.Some? {
        CacheInsert(h, r.value, c.tree);
        if r.value.blockNumber % CHECKPOINT_INTERVAL == 0 {
          db := db[h := r.value];
        }
      }
    }

    /** Looks for a stored snapshot of a known block, creating that of genesis on the way. */
    method Probe(h: Hash, header: Header, ghost tree: Tree) returns (r: Option<Snapshot>)
      requires Valid(tree) && TreeOk(tree, spec) && h in tree && header == tree[h]
      modifies this
      ensures Valid(tree)
      ensures r.Some? || header.number == 0 ==> Replays(tree, h, r)
    {
      if header.number == 0 {
        var genesis := InitGenesis(h, header, tree);
      }
      r := Find(h, tree);
    }

    /** Walks back to the nearest stored snapshot, collecting the hashes on the way. */
    method FindBase(c: Chain, target: Hash) returns (base: Option<Snapshot>, walk: seq<Hash>)
      requires Valid(c.tree) && LookupsAgree(c, spec, decode, target) && c.tree[target].number > 0
      modifies this
      ensures Valid(c.tree)
      ensures IsWalk(c, spec, decode, target, walk)
      ensures base.Some? ==> Replays(c.tree, Next(c, walk), base)
      ensures base.None? && AllKnown(c, spec, target) ==> Replays(c.tree, target, None)
    {
      walk := [target];
      assert WalkAt(c, spec, decode, target, target);
      while true
        invariant Valid(c.tree)
        invariant IsWalk(c, spec, decode, target, walk)
        decreases c.tree[walk[|walk| - 1]].number
      {
        WalkGoesOn(c, spec, decode, target, walk);
        var parentHash := Next(c, walk);
        var parent := c.HeaderByHash(parentHash);
        if parent.None? {
          return None, walk;
        }
        base := Probe(parentHash, parent.value, c.tree);
        if base.Some? {
          return;
        }
        if parent.value.number == 0 {
          // The parent of genesis is unknown, so the next lookup of the walk fails.
          WalkFails(c, spec, decode, target, walk);
          return;
        }
        walk := walk + [parentHash];
      }
    }

    /** Applies the collected headers, the one nearest to genesis first. */
    method ApplyWalk(c: Chain, target: Hash, walk: seq<Hash>, base: Snapshot) returns (r: Option<Snapshot>)
      requires Valid(c.tree) && IsWalk(c, spec, decode, target, walk)
      requires Replays(c.tree, Next(c, walk), Some(base))
      modifies this
      ensures Valid(c.tree)
      ensures r.Some? || AllKnown(c, spec, target) ==> Replays(c.tree, target, r)
    {
      var working := base;
      var i := |walk|;
      while i > 0
        invariant 0 <= i <= |walk|
        invariant Valid(c.tree)
        invariant Replays(c.tree, if i == |walk| then Next(c, walk) else walk[i], Some(working))
      {
        i := i - 1;
        assert WalkAt(c, spec, decode, target, walk[i]);
        var next := Advance(c, walk[i], working);
        if next.None? {
          if AllKnown(c, spec, target) {
            FailurePropagates(c, spec, decode, target, walk, i);
          }
          return None;
        }
        working := next.value;
      }
      r := Some(working);
    }

    /** Rebuilds the snapshot of a block from the nearest stored ancestor. */
    method TryRebuild(c: Chain, target: Hash) returns (r: Option<Snapshot>)
      requires Valid(c.tree) && LookupsAgree(c, spec, decode, target) && c.tree[target].number > 0
      modifies this
      ensures Valid(c.tree)
      ensures r.Some? || AllKnown(c, spec, target) ==> Replays(c.tree, target, r)
    {
      var base, walk := FindBase(c, target);
      if base.None? {
        return None;
      }
      r := ApplyWalk(c, target, walk, base.value);
    }

    /** The snapshot of a block: stored, rebuilt, or not to be had. */
    method SnapshotByHash(c: Chain, h: Hash) returns (r: Option<Snapshot>)
      requires Valid(c.tree) && c.Ok(spec)
      requires h in c.tree ==> LookupsAgree(c, spec, decode, h)
      modifies this
      ensures Valid(c.tree)
      ensures r.Some? || AllKnown(c, spec, h) ==> Replays(c.tree, h, r)
    {
      r := Find(h, c.tree);
      if r.Some? {
        return;
      }
      var header := c.HeaderByHash(h);
      if header.None? {
        if h in c.tree {
          assert AncestorAt(c.tree, spec, h, c.tree[h].number).hash == h;
        }
        return None;
      }
      if header.value.number == 0 {
        r := InitGenesis(h, header.value, c.tree);
      } else {
        r := TryRebuild(c, h);
        if r.Some? {
          Insert(r.value, c.tree);
        }
      }
    }
  }
}
