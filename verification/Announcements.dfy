/**
 What an epoch block announces takes effect: from the draft the miner wrote, over the
 header, to the snapshot that every node replays at the boundary.
 */
module Announcements {
  import opened Types
  import opened Sorting
  import opened Snapshots
  import opened ExtraData
  import opened Provider
  import opened OtherBranches

  /** The key announced for validator j of the draft: none before Luban and at its first block. */
  function KeyWritten(spec: ChainSpec, h: Header, d: Draft, j: nat): VoteAddress
    requires d.validators.Some? && j < |d.validators.value.0|
  {
    var keys := d.validators.value.1;
    if !spec.LubanActive(h.number) || spec.LubanTransition(h.number) || j >= |keys| then ZERO_VOTE_ADDRESS
    else keys[j]
  }

  /** Everything a checkpoint announces reads back. */
  lemma ReadsWhole(spec: ChainSpec, e: nat, h: Header, d: Draft)
    requires WroteEpoch(spec, e, h, d) && Readable(spec, h, d)
    ensures ReadCheckpoint(spec, h, e).Some?
    ensures var change, info := ReadCheckpoint(spec, h, e).value, WantedInfo(spec, h.number, d);
            && change.validators == info.consensusAddrs && change.keys == info.voteAddrs
            && if spec.BohrActive(h.number, h.timestamp) && spec.LubanActive(h.number)
               then change.turnLength.Some? && change.turnLength.value == d.turnLength.value
               else change.turnLength.None?
  {
    if spec.LubanActive(h.number) {
      LubanValidatorsReadBack(spec, e, h, d);
      LubanFieldsReadBack(spec, e, h, d, _ => None);
    } else {
      PlainValidatorsReadBack(spec, e, h, d);
    }
  }

  /** The table lists every validator with its place in the list and the key written for it. */
  ghost predicate TableFrom(spec: ChainSpec, h: Header, d: Draft, s: Snapshot)
    requires d.validators.Some?
  {
    var vs := d.validators.value.0;
    && s.validators == Sorted(vs)
    && forall j :: 0 <= j < |vs| ==> EntryFrom(spec, h, d, s, j)
  }

  ghost predicate EntryFrom(spec: ChainSpec, h: Header, d: Draft, s: Snapshot, j: nat)
    requires d.validators.Some? && j < |d.validators.value.0|
  {
    var v := d.validators.value.0[j];
    && v in s.validatorsMap
    && 1 <= s.validatorsMap[v].index <= |s.validators| && s.validators[s.validatorsMap[v].index - 1] == v
    && s.validatorsMap[v].voteAddr == KeyWritten(spec, h, d, j)
  }

  /** The sorted position of validator j, and the key read back there. */
  lemma WantedAt(spec: ChainSpec, h: Header, d: Draft, j: nat) returns (i: nat)
    requires GoodDraft(d) && j < |d.validators.value.0|
    ensures var info := WantedInfo(spec, h.number, d);
            && i < |info.consensusAddrs| && info.consensusAddrs[i] == d.validators.value.0[j]
            && if spec.LubanActive(h.number)
               then info.voteAddrs.Some? && i < |info.voteAddrs.value| && info.voteAddrs.value[i] == KeyWritten(spec, h, d, j)
               else info.voteAddrs.None?
  {
    var vs := d.validators.value.0;
    SortedMembers(vs, vs[j]);
    i :| 0 <= i < |Sorted(vs)| && Sorted(vs)[i] == vs[j];
    if spec.LubanActive(h.number) {
      var k := ReadKeysAreOwn(spec, h.number, d, i);
      assert vs[k] == vs[j];
    }
  }

  lemma WantedKeysMatch(spec: ChainSpec, h: Header, d: Draft)
    requires GoodDraft(d)
    ensures var info := WantedInfo(spec, h.number, d);
            Distinct(info.consensusAddrs) && KeysMatch(info.consensusAddrs, info.voteAddrs)
  {
    SortedDistinct(d.validators.value.0);
  }

  /** A table built from what was read is the table of the draft. */
  lemma BuiltFromDraft(spec: ChainSpec, h: Header, d: Draft, s: Snapshot)
    requires GoodDraft(d)
    requires var info := WantedInfo(spec, h.number, d);
             && KeysMatch(info.consensusAddrs, info.voteAddrs)
             && s.validators == Sorted(info.consensusAddrs)
             && s.validatorsMap == InfoMap(info.consensusAddrs, info.voteAddrs)
    ensures TableFrom(spec, h, d, s)
  {
    var vs, info := d.validators.value.0, WantedInfo(spec, h.number, d);
    SortedTwice(vs);
    WantedKeysMatch(spec, h, d);
    forall j | 0 <= j < |vs|
      ensures EntryFrom(spec, h, d, s, j)
    {
      var i := WantedAt(spec, h, d, j);
      var k := TableEntryIsOwn(info.consensusAddrs, info.voteAddrs, i);
    }
  }

  /** The boundary at which an announcement takes effect. */
  predicate AtBoundary(s: Snapshot, number: nat) {
    s.epochNum >= 1 && number > 0 && number % s.epochNum == (|s.validators| / 2 + 1) * s.Turn() - 1
  }

  /** The ancestor of h that many blocks back. */
  ghost predicate Announces(tree: Tree, spec: ChainSpec, s: Snapshot, h: Hash, own: Header)
    requires TreeOk(tree, spec) && h in tree
  {
    var back := (|s.validators| / 2 + 1) * s.Turn() - 1;
    0 <= back <= tree[h].number && own == AncestorAt(tree, spec, h, tree[h].number - back)
  }

  /** The transition with a change that takes effect. */
  lemma SwitchedWith(spec: ChainSpec, s: Snapshot, header: Header, attestation: Option<VoteAttestation>, change: SetChange)
    requires s.WellFormed() && change.validators != [] && InputWith(header, attestation, change).WellFormed()
    requires Passes(spec, s, header) && !Marked(spec, s, header, attestation)
    ensures Apply(s, InputWith(header, attestation, change), spec).Some?
    ensures var r := Apply(s, InputWith(header, attestation, change), spec).value;
            && r.validators == Sorted(change.validators)
            && r.validatorsMap == InfoMap(change.validators, change.keys)
            && r.turnLength == if change.turnLength.Some? then change.turnLength else s.turnLength
  {
    AppliedWith(spec, s, header, attestation, change);
  }

  /**
   End to end: let block h be at a boundary and pass the checks, with no switch in this
   epoch yet, and let the checkpoint (N/2 + 1) turns less one before it be written from a
   draft. Then the snapshot of h has the draft's validators in order, each with the key
   written for it, and the draft's turn length if the checkpoint is under Bohr.
   */
  lemma AnnouncementTakesEffect(tree: Tree, spec: ChainSpec, decode: Decoder, h: Hash, s: Snapshot, own: Header, d: Draft)
    requires TreeOk(tree, spec) && h in tree && tree[h].number > 0 && ParentIn(tree, h)
    requires Replay(tree, spec, decode, tree[h].parentHash) == Some(s)
    requires AtBoundary(s, tree[h].number) && Announces(tree, spec, s, h, own)
    requires WroteEpoch(spec, s.epochNum, own, d) && Readable(spec, own, d)
    requires GetVoteAttestation(spec, tree[h], s.epochNum, decode).Ok? && Passes(spec, s, tree[h])
    requires !Marked(spec, s, tree[h], GetVoteAttestation(spec, tree[h], s.epochNum, decode).value)
    ensures Replay(tree, spec, decode, h).Some?
    ensures var r := Replay(tree, spec, decode, h).value;
            && TableFrom(spec, own, d, r)
            && if spec.BohrActive(own.number, own.timestamp) && spec.LubanActive(own.number)
               then r.turnLength.Some? && r.turnLength.value == d.turnLength.value
               else r.turnLength == s.turnLength
  {
    BoundaryInNumbers(tree, spec, s, h);
    TakesEffect(tree, spec, decode, h, s, own, d);
  }

  lemma TakesEffect(tree: Tree, spec: ChainSpec, decode: Decoder, h: Hash, s: Snapshot, own: Header, d: Draft)
    requires TreeOk(tree, spec) && h in tree && tree[h].number > 0 && ParentIn(tree, h)
    requires Replay(tree, spec, decode, tree[h].parentHash) == Some(s)
    requires IsBoundary(s, tree[h].number) && OwnCheckpoint(tree, spec, s, h) == Some(own)
    requires WroteEpoch(spec, s.epochNum, own, d) && Readable(spec, own, d)
    requires GetVoteAttestation(spec, tree[h], s.epochNum, decode).Ok? && Passes(spec, s, tree[h])
    requires !Marked(spec, s, tree[h], GetVoteAttestation(spec, tree[h], s.epochNum, decode).value)
    ensures Replay(tree, spec, decode, h).Some?
    ensures var r := Replay(tree, spec, decode, h).value;
            && TableFrom(spec, own, d, r)
            && if spec.BohrActive(own.number, own.timestamp) && spec.LubanActive(own.number)
               then r.turnLength.Some? && r.turnLength.value == d.turnLength.value
               else r.turnLength == s.turnLength
  {
    var attestation := GetVoteAttestation(spec, tree[h], s.epochNum, decode).value;
    ReadsWhole(spec, s.epochNum, own, d);
    var change := ReadCheckpoint(spec, own, s.epochNum).value;
    ReadableIsUsable(spec, s, tree[h], own, attestation);
    SwitchedWith(spec, s, tree[h], attestation, change);
    BuiltFromDraft(spec, own, d, Replay(tree, spec, decode, h).value);
  }

  /** The boundary is where the code puts it, and the checkpoint is that ancestor. */
  lemma BoundaryInNumbers(tree: Tree, spec: ChainSpec, s: Snapshot, h: Hash)
    requires TreeOk(tree, spec) && h in tree && s.WellFormed()
    ensures IsBoundary(s, tree[h].number) <==> AtBoundary(s, tree[h].number)
    ensures IsBoundary(s, tree[h].number) ==> Announces(tree, spec, s, h, OwnCheckpoint(tree, spec, s, h).value)
  {
    if IsBoundary(s, tree[h].number) {
      BoundaryIsHigh(s, tree[h].number);
    }
  }

  /** Between boundaries nothing is taken over. */
  lemma NothingBetween(tree: Tree, spec: ChainSpec, decode: Decoder, h: Hash, s: Snapshot)
    requires TreeOk(tree, spec) && h in tree && tree[h].number > 0 && ParentIn(tree, h)
    requires Replay(tree, spec, decode, tree[h].parentHash) == Some(s) && !AtBoundary(s, tree[h].number)
    requires Replay(tree, spec, decode, h).Some?
    ensures var r := Replay(tree, spec, decode, h).value;
            r.validators == s.validators && r.validatorsMap == s.validatorsMap && r.turnLength == s.turnLength
  {
    BoundaryInNumbers(tree, spec, s, h);
  }

  /** The first snapshot: the genesis validators, epochs of 200 blocks, turns of 1 block and 3 seconds a block. */
  lemma GenesisTakesEffect(tree: Tree, spec: ChainSpec, decode: Decoder, h: Hash, d: Draft)
    requires TreeOk(tree, spec) && h in tree && tree[h].number == 0
    requires WroteEpoch(spec, 200, tree[h], d) && Readable(spec, tree[h], d)
    ensures Replay(tree, spec, decode, h).Some?
    ensures var r := Replay(tree, spec, decode, h).value;
            && TableFrom(spec, tree[h], d, r)
            && r.epochNum == 200 && r.turnLength == Some(1) && r.blockInterval == 3000
            && r.recentProposers == map[] && r.voteData == NO_VOTES
  {
    if spec.LubanActive(0) {
      LubanValidatorsReadBack(spec, 200, tree[h], d);
    } else {
      PlainValidatorsReadBack(spec, 200, tree[h], d);
    }
    WantedKeysMatch(spec, tree[h], d);
    BuiltFromDraft(spec, tree[h], d, Replay(tree, spec, decode, h).value);
  }
}
