/**
 The Parlia snapshot of src/consensus/parlia/snapshot.rs: its fields, the queries on
 it, and the transition that applies the next block.
 */
module Snapshots {
  import opened Types
  import opened Sorting

  const CHECKPOINT_INTERVAL: nat := 1024

  const DEFAULT_EPOCH_LENGTH: nat := 200
  const LORENTZ_EPOCH_LENGTH: nat := 500
  const MAXWELL_EPOCH_LENGTH: nat := 1000

  const DEFAULT_TURN_LENGTH: nat := 1

  const DEFAULT_BLOCK_INTERVAL: nat := 3000
  const LORENTZ_BLOCK_INTERVAL: nat := 1500
  const MAXWELL_BLOCK_INTERVAL: nat := 750
  const FERMI_BLOCK_INTERVAL: nat := 450

  /** The 1-based position in the sorted validator list, and the vote key. */
  datatype ValidatorInfo = ValidatorInfo(index: nat, voteAddr: VoteAddress)

  datatype Snapshot = Snapshot(
    epochNum: nat,
    blockNumber: nat,
    blockHash: Hash,
    validators: seq<Address>,
    validatorsMap: map<Address, ValidatorInfo>,
    recentProposers: map<nat, Address>,
    voteData: VoteData,
    turnLength: Option<nat>,
    blockInterval: nat
  ) {
    function Turn(): nat {
      match turnLength
      case None => DEFAULT_TURN_LENGTH
      case Some(t) => t
    }

    /** No division by zero and no empty validator set. */
    predicate WellFormed() {
      validators != [] && Turn() >= 1 && epochNum >= 1
    }

    /** Blocks to look back when checking proposer history. */
    function MinerHistoryCheckLen(): nat
      requires WellFormed()
    {
      assert (|validators| / 2 + 1) * Turn() >= 1;
      (|validators| / 2 + 1) * Turn() - 1
    }

    /** The validator whose turn it is to propose block number. */
    function InturnAt(number: nat): (v: Address)
      requires WellFormed()
      ensures v in validators
    {
      validators[(number / Turn()) % |validators|]
    }

    function InturnValidator(): Address
      requires WellFormed()
    {
      InturnAt(blockNumber + 1)
    }

    /** Entries at or below this height are not counted. */
    function LeftBound(): nat
      requires WellFormed()
    {
      if blockNumber > MinerHistoryCheckLen() then blockNumber - MinerHistoryCheckLen() else 0
    }

    /** The counted heights at which v proposed. */
    function RecentBlocks(v: Address): set<nat>
      requires WellFormed()
    {
      set k | k in recentProposers && k > LeftBound() && recentProposers[k] == v && v != DEFAULT_ADDRESS
    }

    /** v has used up its turn in the counted window. */
    predicate SignRecently(v: Address)
      requires WellFormed()
    {
      |RecentBlocks(v)| >= Turn()
    }

    function FinalizedNumber(): nat {
      voteData.sourceNumber
    }
  }

  // ---------------------------------------------------------------------------
  // Validator tables
  // ---------------------------------------------------------------------------

  /** The 1-based position of each element; for a repeated one, the last position. */
  function IndexMap(s: seq<Address>): map<Address, nat> {
    if s == [] then map[] else IndexMap(s[..|s| - 1])[s[|s| - 1] := |s|]
  }

  /** The key paired with each validator; for a repeated one, the last key. */
  function KeyMap(s: seq<Address>, keys: seq<VoteAddress>): map<Address, VoteAddress>
    requires |s| == |keys|
  {
    if s == [] then map[]
    else KeyMap(s[..|s| - 1], keys[..|s| - 1])[s[|s| - 1] := keys[|s| - 1]]
  }

  predicate KeysMatch(validators: seq<Address>, keys: Option<seq<VoteAddress>>) {
    keys.Some? ==> |keys.value| == |validators|
  }

  function InfoOf(index: nat, v: Address, found: map<Address, VoteAddress>): ValidatorInfo {
    ValidatorInfo(index, if v in found then found[v] else ZERO_VOTE_ADDRESS)
  }

  function Infos(index: map<Address, nat>, found: map<Address, VoteAddress>): map<Address, ValidatorInfo> {
    map v | v in index :: InfoOf(index[v], v, found)
  }

  /** The table built next to the sorted validator list. */
  function InfoMap(validators: seq<Address>, keys: Option<seq<VoteAddress>>): map<Address, ValidatorInfo>
    requires KeysMatch(validators, keys)
  {
    Infos(IndexMap(Sorted(validators)), if keys.Some? then KeyMap(validators, keys.value) else map[])
  }

  lemma {:induction false} IndexMapHolds(s: seq<Address>, v: Address)
    requires v in IndexMap(s)
    ensures v in s
  {
    var n := |s| - 1;
    if v != s[n] {
      IndexMapHolds(s[..n], v);
    }
  }

  lemma {:induction false} IndexMapNumbers(s: seq<Address>, i: nat)
    requires Distinct(s) && i < |s|
    ensures s[i] in IndexMap(s) && IndexMap(s)[s[i]] == i + 1
  {
    var n := |s| - 1;
    if i < n {
      IndexMapNumbers(s[..n], i);
      assert s[..n][i] == s[i];
    }
  }

  /** In the key table every validator of a duplicate-free list has its own key. */
  lemma {:induction false} OwnKey(vs: seq<Address>, keys: seq<VoteAddress>, i: nat)
    requires |vs| == |keys| && i < |vs| && Distinct(vs)
    ensures vs[i] in KeyMap(vs, keys) && KeyMap(vs, keys)[vs[i]] == keys[i]
  {
    var n := |vs| - 1;
    if i < n {
      OwnKey(vs[..n], keys[..n], i);
      assert vs[..n][i] == vs[i] && keys[..n][i] == keys[i];
    }
  }

  lemma SortedIndex(validators: seq<Address>, j: nat) returns (i: nat)
    requires Distinct(validators) && j < |validators|
    ensures i < |validators| && Sorted(validators)[i] == validators[j]
    ensures validators[j] in IndexMap(Sorted(validators)) && IndexMap(Sorted(validators))[validators[j]] == i + 1
  {
    var sorted := Sorted(validators);
    SortedDistinct(validators);
    SortedMembers(validators, validators[j]);
    i :| 0 <= i < |sorted| && sorted[i] == validators[j];
    IndexMapNumbers(sorted, i);
  }

  lemma InfosAt(index: map<Address, nat>, found: map<Address, VoteAddress>, v: Address)
    requires v in index
    ensures v in Infos(index, found) && Infos(index, found)[v] == InfoOf(index[v], v, found)
  {
  }

  /** In the table each validator has its own key, and the index of its place in the sorted list. */
  lemma TableEntryIsOwn(validators: seq<Address>, keys: Option<seq<VoteAddress>>, j: nat) returns (i: nat)
    requires KeysMatch(validators, keys) && Distinct(validators) && j < |validators|
    ensures i < |validators| && Sorted(validators)[i] == validators[j]
    ensures validators[j] in InfoMap(validators, keys)
    ensures InfoMap(validators, keys)[validators[j]]
         == ValidatorInfo(i + 1, if keys.Some? then keys.value[j] else ZERO_VOTE_ADDRESS)
  {
    i := SortedIndex(validators, j);
    if keys.Some? {
      OwnKey(validators, keys.value, j);
      InfosAt(IndexMap(Sorted(validators)), KeyMap(validators, keys.value), validators[j]);
    } else {
      InfosAt(IndexMap(Sorted(validators)), map[], validators[j]);
    }
  }

  /** A new snapshot at an epoch boundary. */
  function NewSnapshot(validators: seq<Address>, number: nat, hash: Hash, epochNum: nat,
                       keys: Option<seq<VoteAddress>>): (s: Snapshot)
    requires KeysMatch(validators, keys)
    ensures validators != [] ==> s.WellFormed()
    ensures epochNum == 0 ==> s.epochNum == 200
  {
    Snapshot(
      if epochNum == 0 then DEFAULT_EPOCH_LENGTH else epochNum,
      number, hash, Sorted(validators), InfoMap(validators, keys),
      map[], NO_VOTES, Some(DEFAULT_TURN_LENGTH), DEFAULT_BLOCK_INTERVAL)
  }

  // ---------------------------------------------------------------------------
  // The transition
  // ---------------------------------------------------------------------------

  /** What accompanies the next header: the checkpoint data and the decoded attestation. */
  datatype BlockInput = BlockInput(
    proposer: Address,
    header: Header,
    newValidators: seq<Address>,
    voteAddrs: Option<seq<VoteAddress>>,
    attestation: Option<VoteAttestation>,
    turnLength: Option<nat>
  ) {
    /** The conditions under which the transition neither panics nor divides by zero later. */
    predicate WellFormed() {
      && (newValidators != [] ==> KeysMatch(newValidators, voteAddrs))
      && (turnLength.Some? ==> turnLength.value >= 1)
    }
  }

  /** The vote data after a block that carries an attestation of data. */
  function VotesAfter(votes: VoteData, fermi: bool, number: nat, parentHash: Hash, data: VoteData): VoteData {
    if !fermi && (data.targetNumber + 1 != number || data.targetHash != parentHash) then votes
    else if data.sourceNumber + 1 != data.targetNumber then
      votes.(targetNumber := data.targetNumber, targetHash := data.targetHash)
    else data
  }

  /** The vote data after a block that may carry an attestation. */
  function UpdatedVotes(votes: VoteData, fermi: bool, number: nat, parentHash: Hash,
                        attestation: Option<VoteAttestation>): VoteData
  {
    match attestation
    case None => votes
    case Some(a) => VotesAfter(votes, fermi, number, parentHash, a.data)
  }

  /** Drops the one entry that leaves the window when block number arrives. */
  function Slid(recents: map<nat, Address>, number: nat, limit: nat): map<nat, Address> {
    if number >= limit then recents - {number - limit} else recents
  }

  /** BEP-524: drops the entries up to the finalized block. */
  function Pruned(recents: map<nat, Address>, finalized: nat): map<nat, Address> {
    map k | k in recents && k > finalized :: recents[k]
  }

  function NextInterval(interval: nat, lorentz: bool, maxwell: bool, fermi: bool): nat {
    if fermi then FERMI_BLOCK_INTERVAL
    else if maxwell then MAXWELL_BLOCK_INTERVAL
    else if lorentz then LORENTZ_BLOCK_INTERVAL
    else interval
  }

  function NextEpochNum(epochNum: nat, number: nat, lorentz: bool, maxwell: bool): nat {
    var e := if epochNum == DEFAULT_EPOCH_LENGTH && lorentz && (number + 1) % LORENTZ_EPOCH_LENGTH == 0
             then LORENTZ_EPOCH_LENGTH else epochNum;
    if e == LORENTZ_EPOCH_LENGTH && maxwell && (number + 1) % MAXWELL_EPOCH_LENGTH == 0
    then MAXWELL_EPOCH_LENGTH else e
  }

  /** The marker key of the epoch that block number lies in. */
  function EpochKey(number: nat, epochLength: nat): int
    requires epochLength >= 1
  {
    U64_MAX - number / epochLength
  }

  /** Height k lies between the two limits; a height below 0 wraps around to a key near 2^64. */
  predicate Vacated(k: nat, number: nat, oldLimit: nat, newLimit: nat) {
    number - oldLimit < k <= number - newLimit || (k < TWO_64 && number - oldLimit < k - TWO_64 <= number - newLimit)
  }

  /** The proposer history right after a switch of the validator set. */
  function SwitchedRecents(recents: map<nat, Address>, bohr: bool, epochKey: int, number: nat,
                           oldCount: nat, newCount: nat): map<nat, Address>
  {
    if bohr then
      if epochKey >= 0 then map[epochKey as nat := DEFAULT_ADDRESS] else map[]
    else
      map k | k in recents && !Vacated(k, number, oldCount / 2 + 1, newCount / 2 + 1) :: recents[k]
  }

  /** The snapshot with the new block number and the slid window, before any check. */
  function Advanced(s: Snapshot, header: Header): (r: Snapshot)
    requires s.WellFormed()
    ensures r.WellFormed()
  {
    s.(blockHash := header.hash,
       blockNumber := header.number,
       recentProposers := Slid(s.recentProposers, header.number, s.MinerHistoryCheckLen() + 1))
  }

  predicate OverProposed(advanced: Snapshot, proposer: Address, bohr: bool)
    requires advanced.WellFormed()
  {
    if bohr then advanced.SignRecently(proposer)
    else exists k :: k in advanced.recentProposers && advanced.recentProposers[k] == proposer
  }

  /** The advanced snapshot once its proposer, its attestation and its forks are recorded. */
  function Recorded(advanced: Snapshot, input: BlockInput, spec: ChainSpec): (r: Snapshot)
    requires advanced.WellFormed()
    ensures r.WellFormed()
  {
    var h := input.header;
    var lorentz := spec.LorentzActive(h.number, h.timestamp);
    var maxwell := spec.MaxwellActive(h.number, h.timestamp);
    var fermi := spec.FermiActive(h.number, h.timestamp);
    var votes := UpdatedVotes(advanced.voteData, fermi, h.number, h.parentHash, input.attestation);
    var recents := advanced.recentProposers[h.number := input.proposer];
    advanced.(
      voteData := votes,
      recentProposers := if maxwell then Pruned(recents, votes.sourceNumber) else recents,
      blockInterval := NextInterval(advanced.blockInterval, lorentz, maxwell, fermi),
      epochNum := NextEpochNum(advanced.epochNum, h.number, lorentz, maxwell))
  }

  /** The validator set changes at this block. */
  predicate Switches(recorded: Snapshot, input: BlockInput, bohr: bool, epochLength: nat)
    requires epochLength >= 1
  {
    && input.newValidators != []
    && !(bohr && EpochKey(input.header.number, epochLength) in recorded.recentProposers)
  }

  function Switched(recorded: Snapshot, input: BlockInput, bohr: bool, epochLength: nat): (r: Snapshot)
    requires recorded.WellFormed() && input.WellFormed()
    requires input.newValidators != [] && epochLength >= 1
    ensures r.WellFormed()
  {
    recorded.(
      turnLength := if input.turnLength.Some? then input.turnLength else recorded.turnLength,
      recentProposers :=
        SwitchedRecents(recorded.recentProposers, bohr, EpochKey(input.header.number, epochLength),
                        input.header.number, |recorded.validators|, |input.newValidators|),
      validators := Sorted(input.newValidators),
      validatorsMap := InfoMap(input.newValidators, input.voteAddrs))
  }

  /** Applies the next block; None when the block is rejected. */
  function Apply(s: Snapshot, input: BlockInput, spec: ChainSpec): (r: Option<Snapshot>)
    requires s.WellFormed() && input.WellFormed()
    ensures r.Some? ==> r.value.WellFormed()
  {
    var h := input.header;
    var bohr := spec.BohrActive(h.number, h.timestamp);
    if s.blockNumber + 1 != h.number then None
    else
      var advanced := Advanced(s, h);
      if input.proposer !in advanced.validators then None
      else if OverProposed(advanced, input.proposer, bohr) then None
      else
        var recorded := Recorded(advanced, input, spec);
        if Switches(recorded, input, bohr, s.epochNum)
        then Some(Switched(recorded, input, bohr, s.epochNum))
        else Some(recorded)
  }

  // ---------------------------------------------------------------------------
  // The imperative form
  // ---------------------------------------------------------------------------

  /** The part of RecentBlocks(v) that lies in a set of keys already visited. */
  ghost function Visited(s: Snapshot, v: Address, keys: set<nat>): set<nat>
    requires s.WellFormed()
  {
    s.RecentBlocks(v) * keys
  }

  ghost predicate CountOver(s: Snapshot, counts: map<Address, Byte>, keys: set<nat>, v: Address)
    requires s.WellFormed()
  {
    && (v in counts <==> Visited(s, v, keys) != {})
    && (v in counts ==> counts[v] == |Visited(s, v, keys)| % 256)
  }

  ghost predicate CountsOver(s: Snapshot, counts: map<Address, Byte>, keys: set<nat>)
    requires s.WellFormed()
  {
    forall v :: CountOver(s, counts, keys, v)
  }

  /** The counters hold, modulo 256, how many counted blocks each proposer has. */
  ghost predicate IsCount(s: Snapshot, counts: map<Address, Byte>)
    requires s.WellFormed()
  {
    && (forall v :: v in counts <==> s.RecentBlocks(v) != {})
    && (forall v :: v in counts ==> counts[v] == |s.RecentBlocks(v)| % 256)
  }

  /** No counter overflows its byte. */
  ghost predicate CountersFit(s: Snapshot)
    requires s.WellFormed()
  {
    forall v :: |s.RecentBlocks(v)| < 256
  }

  /** The entry at k is counted, for its proposer. */
  predicate Counted(s: Snapshot, k: nat)
    requires s.WellFormed() && k in s.recentProposers
  {
    k > s.LeftBound() && s.recentProposers[k] != DEFAULT_ADDRESS
  }

  lemma VisitedGrows(s: Snapshot, v: Address, keys: set<nat>, k: nat)
    requires s.WellFormed() && k in s.recentProposers && k !in keys
    ensures Visited(s, v, keys + {k}) ==
            if Counted(s, k) && s.recentProposers[k] == v then Visited(s, v, keys) + {k} else Visited(s, v, keys)
    ensures k !in Visited(s, v, keys)
  {
  }

  /** One more block of v, in a one-byte counter. */
  function CountedIn(counts: map<Address, Byte>, v: Address): map<Address, Byte> {
    var before: nat := if v in counts then counts[v] else 0;
    counts[v := (before + 1) % 256]
  }

  lemma NextCounter(n: nat)
    ensures (n % 256 + 1) % 256 == (n + 1) % 256
  {
  }

  lemma VisitCounts(s: Snapshot, counts: map<Address, Byte>, keys: set<nat>, k: nat, v: Address)
    requires s.WellFormed() && CountOver(s, counts, keys, v)
    requires k in s.recentProposers && k !in keys
    ensures CountOver(s, if Counted(s, k) then CountedIn(counts, s.recentProposers[k]) else counts, keys + {k}, v)
  {
    VisitedGrows(s, v, keys, k);
    NextCounter(|Visited(s, v, keys)|);
    if Counted(s, k) && s.recentProposers[k] == v {
      assert k in Visited(s, v, keys + {k});
      assert |Visited(s, v, keys + {k})| == |Visited(s, v, keys)| + 1;
    }
  }

  /** Visiting one more of the remaining entries keeps the counts right. */
  lemma VisitKey(s: Snapshot, counts: map<Address, Byte>, rest: set<nat>, k: nat)
    requires s.WellFormed() && CountsOver(s, counts, s.recentProposers.Keys - rest)
    requires k in s.recentProposers && k in rest
    ensures CountsOver(s, if Counted(s, k) then CountedIn(counts, s.recentProposers[k]) else counts,
                       s.recentProposers.Keys - (rest - {k}))
  {
    var counts' := if Counted(s, k) then CountedIn(counts, s.recentProposers[k]) else counts;
    var keys := s.recentProposers.Keys - rest;
    var keys' := s.recentProposers.Keys - (rest - {k});
    assert keys' == keys + {k};
    forall v
      ensures CountOver(s, counts', keys', v)
    {
      assert CountOver(s, counts, keys, v);
      VisitCounts(s, counts, keys, k, v);
    }
  }

  lemma AllVisited(s: Snapshot, counts: map<Address, Byte>)
    requires s.WellFormed() && CountsOver(s, counts, s.recentProposers.Keys)
    ensures IsCount(s, counts)
  {
    forall v
      ensures Visited(s, v, s.recentProposers.Keys) == s.RecentBlocks(v)
      ensures CountOver(s, counts, s.recentProposers.Keys, v)
    {
    }
  }

  /** Counts, entry by entry, how often each address proposed in the counted window. */
  method CountRecentProposers(s: Snapshot) returns (counts: map<Address, Byte>)
    requires s.WellFormed()
    ensures IsCount(s, counts)
  {
    var leftBound :=
      if s.blockNumber > s.MinerHistoryCheckLen() then s.blockNumber - s.MinerHistoryCheckLen() else 0;
    counts := map[];
    var rest := s.recentProposers.Keys;
    while rest != {}
      invariant rest <= s.recentProposers.Keys
      invariant CountsOver(s, counts, s.recentProposers.Keys - rest)
      decreases |rest|
    {
      var block :| block in rest;
      var v := s.recentProposers[block];
      VisitKey(s, counts, rest, block);
      rest := rest - {block};
      if block <= leftBound || v == DEFAULT_ADDRESS {
        continue;
      }
      counts := CountedIn(counts, v);
    }
    assert s.recentProposers.Keys - rest == s.recentProposers.Keys;
    AllVisited(s, counts);
  }

  method SignRecentlyByCounts(s: Snapshot, v: Address, counts: map<Address, Byte>) returns (r: bool)
    requires s.WellFormed()
    requires IsCount(s, counts)
    ensures r <==> s.RecentBlocks(v) != {} && |s.RecentBlocks(v)| % 256 >= s.Turn()
    ensures |s.RecentBlocks(v)| < 256 ==> r == s.SignRecently(v)
  {
    r := v in counts && counts[v] >= s.Turn();
    assert v !in counts ==> s.RecentBlocks(v) == {};
  }

  /** Pairs keys with validators, sorts, then numbers the sorted validators. */
  method BuildValidators(validators: seq<Address>, keys: Option<seq<VoteAddress>>)
    returns (sorted: seq<Address>, infos: map<Address, ValidatorInfo>)
    requires KeysMatch(validators, keys)
    ensures sorted == Sorted(validators)
    ensures infos == InfoMap(validators, keys)
  {
    var found: map<Address, VoteAddress> := map[];
    if keys.Some? {
      found := PairKeys(validators, keys.value);
    }
    sorted := Sorted(validators);
    infos := NumberValidators(sorted, found);
  }

  method PairKeys(validators: seq<Address>, keys: seq<VoteAddress>) returns (found: map<Address, VoteAddress>)
    requires |validators| == |keys|
    ensures found == KeyMap(validators, keys)
  {
    found := map[];
    for i := 0 to |validators|
      invariant found == KeyMap(validators[..i], keys[..i])
    {
      assert validators[..i + 1][..i] == validators[..i];
      assert keys[..i + 1][..i] == keys[..i];
      found := found[validators[i] := keys[i]];
    }
    assert validators[..|validators|] == validators;
    assert keys[..|validators|] == keys;
  }

  method NumberValidators(sorted: seq<Address>, found: map<Address, VoteAddress>)
    returns (infos: map<Address, ValidatorInfo>)
    ensures infos == Infos(IndexMap(sorted), found)
  {
    infos := map[];
    for i := 0 to |sorted|
      invariant infos == Infos(IndexMap(sorted[..i]), found)
    {
      assert sorted[..i + 1][..i] == sorted[..i];
      infos := infos[sorted[i] := InfoOf(i + 1, sorted[i], found)];
    }
    assert sorted[..|sorted|] == sorted;
  }

  /** The scan of the proposer history before Bohr. */
  method ProposedBefore(recents: map<nat, Address>, v: Address) returns (r: bool)
    ensures r <==> exists k :: k in recents && recents[k] == v
  {
    var rest := recents.Keys;
    while rest != {}
      invariant rest <= recents.Keys
      invariant forall k :: k in recents && k !in rest ==> recents[k] != v
      decreases |rest|
    {
      var k :| k in rest;
      if recents[k] == v {
        return true;
      }
      rest := rest - {k};
    }
    return false;
  }

  /** The removal of every entry up to the finalized block. */
  method PruneTo(recents: map<nat, Address>, finalized: nat) returns (r: map<nat, Address>)
    ensures r == Pruned(recents, finalized)
  {
    var toRemove := set k | k in recents.Keys && k <= finalized;
    r := recents;
    while toRemove != {}
      invariant toRemove <= recents.Keys && forall k :: k in toRemove ==> k <= finalized
      invariant forall k :: k in r <==> k in recents && (k > finalized || k in toRemove)
      invariant forall k :: k in r ==> r[k] == recents[k]
      decreases |toRemove|
    {
      var k :| k in toRemove;
      r := r - {k};
      toRemove := toRemove - {k};
    }
  }

  /** A difference of two u64 values that wraps around. */
  function Wrapped(x: int): (r: nat)
    requires -TWO_64 <= x < TWO_64
    ensures r < TWO_64
  {
    if x < 0 then x + TWO_64 else x
  }

  /** The removal, key by key, when a smaller set takes over before Bohr. */
  method ShrinkWindow(recents: map<nat, Address>, number: nat, oldCount: nat, newCount: nat)
    returns (r: map<nat, Address>)
    requires number < NUMBER_LIMIT && oldCount < NUMBER_LIMIT
    ensures r == SwitchedRecents(recents, false, 0, number, oldCount, newCount)
  {
    var oldLimit, newLimit := oldCount / 2 + 1, newCount / 2 + 1;
    r := recents;
    if newLimit < oldLimit {
      for i := 0 to oldLimit - newLimit
        invariant forall k :: k in r <==> k in recents && !Vacated(k, number, newLimit + i, newLimit)
        invariant forall k :: k in r ==> r[k] == recents[k]
      {
        r := r - {Wrapped(number - newLimit - i)};
      }
    }
  }

  /** Applies the next block step by step on a copy of the snapshot. */
  method ApplyBlock(s: Snapshot, input: BlockInput, spec: ChainSpec) returns (r: Option<Snapshot>)
    requires s.WellFormed() && input.WellFormed()
    requires CountersFit(Advanced(s, input.header))
    requires input.header.number < NUMBER_LIMIT && |s.validators| < NUMBER_LIMIT
    ensures r == Apply(s, input, spec)
  {
    var h := input.header;
    var number := h.number;
    if s.blockNumber + 1 != number {
      return None;
    }
    var snap := s.(blockHash := h.hash, blockNumber := number);
    var limit := s.MinerHistoryCheckLen() + 1;
    if number >= limit {
      snap := snap.(recentProposers := snap.recentProposers - {number - limit});
    }
    assert snap == Advanced(s, h);
    if input.proposer !in snap.validators {
      return None;
    }
    var bohr := spec.BohrActive(number, h.timestamp);
    var over;
    if bohr {
      var counts := CountRecentProposers(snap);
      over := SignRecentlyByCounts(snap, input.proposer, counts);
    } else {
      over := ProposedBefore(snap.recentProposers, input.proposer);
    }
    assert over == OverProposed(snap, input.proposer, bohr);
    if over {
      return None;
    }
    var recorded := RecordBlock(snap, input, spec);
    r := SwitchSet(recorded, input, bohr, s.epochNum);
  }

  method RecordBlock(advanced: Snapshot, input: BlockInput, spec: ChainSpec) returns (r: Snapshot)
    requires advanced.WellFormed()
    ensures r == Recorded(advanced, input, spec)
  {
    var h := input.header;
    var number := h.number;
    var maxwell := spec.MaxwellActive(number, h.timestamp);
    var lorentz := spec.LorentzActive(number, h.timestamp);
    var fermi := spec.FermiActive(number, h.timestamp);
    r := advanced.(voteData := UpdatedVotes(advanced.voteData, fermi, number, h.parentHash, input.attestation));
    r := r.(recentProposers := r.recentProposers[number := input.proposer]);
    if maxwell {
      var pruned := PruneTo(r.recentProposers, r.FinalizedNumber());
      r := r.(recentProposers := pruned);
    }
    if fermi {
      r := r.(blockInterval := FERMI_BLOCK_INTERVAL);
    } else if maxwell {
      r := r.(blockInterval := MAXWELL_BLOCK_INTERVAL);
    } else if lorentz {
      r := r.(blockInterval := LORENTZ_BLOCK_INTERVAL);
    }
    var next := number + 1;
    if r.epochNum == DEFAULT_EPOCH_LENGTH && lorentz && next % LORENTZ_EPOCH_LENGTH == 0 {
      r := r.(epochNum := LORENTZ_EPOCH_LENGTH);
    }
    if r.epochNum == LORENTZ_EPOCH_LENGTH && maxwell && next % MAXWELL_EPOCH_LENGTH == 0 {
      r := r.(epochNum := MAXWELL_EPOCH_LENGTH);
    }
  }

  method SwitchSet(recorded: Snapshot, input: BlockInput, bohr: bool, epochLength: nat)
    returns (r: Option<Snapshot>)
    requires recorded.WellFormed() && input.WellFormed() && epochLength >= 1
    requires input.header.number < NUMBER_LIMIT && |recorded.validators| < NUMBER_LIMIT
    ensures r == Some(if Switches(recorded, input, bohr, epochLength)
                      then Switched(recorded, input, bohr, epochLength) else recorded)
  {
    var number := input.header.number;
    assert number / epochLength <= number;
    var epochKey: nat := U64_MAX - number / epochLength;
    if input.newValidators == [] || (bohr && epochKey in recorded.recentProposers) {
      return Some(recorded);
    }
    var snap := recorded;
    if input.turnLength.Some? {
      snap := snap.(turnLength := input.turnLength);
    }
    if bohr {
      snap := snap.(recentProposers := map[epochKey := DEFAULT_ADDRESS]);
    } else {
      var shrunk := ShrinkWindow(snap.recentProposers, number, |snap.validators|, |input.newValidators|);
      snap := snap.(recentProposers := shrunk);
    }
    var sorted, infos := BuildValidators(input.newValidators, input.voteAddrs);
    r := Some(snap.(validators := sorted, validatorsMap := infos));
  }
}
