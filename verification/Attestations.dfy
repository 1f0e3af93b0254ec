/**
 How a block producer assembles a vote attestation (src/consensus/parlia/consensus.rs)
 and how every node verifies it (src/node/evm/pre_execution.rs).
 */
module Attestations {
  import opened Types
  import opened Sorting
  import opened Snapshots
  import opened SnapshotRuns

  const MAX_ATTESTATION_EXTRA_LENGTH: nat := 256
  const BITSET_SIZE: nat := 64

  datatype VoteEnvelope = VoteEnvelope(voteAddress: VoteAddress, signature: Signature, data: VoteData)

  /** What a node can look up: headers and snapshots by hash, and the votes per target block. */
  datatype Lookups = Lookups(headers: map<Hash, Header>, snaps: map<Hash, Snapshot>, pool: map<Hash, seq<VoteEnvelope>>) {
    function VotesFor(h: Hash): seq<VoteEnvelope> {
      if h in pool then pool[h] else []
    }

    /** Hashes identify headers, and none of them is the zero hash. */
    ghost predicate Ok() {
      forall h :: h in headers ==> headers[h].hash == h && h != ZERO_HASH
    }
  }

  /** A known parent is one block below its child. */
  ghost predicate ParentsBelow(net: Lookups, child: Header) {
    && ParentBelow(net, child)
    && forall h :: h in net.headers ==> ParentBelow(net, net.headers[h])
  }

  predicate ParentBelow(net: Lookups, child: Header) {
    child.parentHash in net.headers ==> net.headers[child.parentHash].number + 1 == child.number
  }

  // ---------------------------------------------------------------------------
  // The validator table
  // ---------------------------------------------------------------------------

  /** The table lists exactly the validators, numbered from 1 in their order. */
  ghost predicate TableOk(s: Snapshot) {
    && Distinct(s.validators)
    && (forall i :: 0 <= i < |s.validators| ==>
          s.validators[i] in s.validatorsMap && s.validatorsMap[s.validators[i]].index == i + 1)
    && (forall v :: v in s.validatorsMap ==> v in s.validators)
  }

  lemma BuiltTableIsOk(s: Snapshot, validators: seq<Address>, keys: Option<seq<VoteAddress>>)
    requires Distinct(validators) && KeysMatch(validators, keys)
    requires s.validators == Sorted(validators) && s.validatorsMap == InfoMap(validators, keys)
    ensures TableOk(s)
  {
    SortedDistinct(validators);
    forall i | 0 <= i < |s.validators|
      ensures s.validators[i] in s.validatorsMap && s.validatorsMap[s.validators[i]].index == i + 1
    {
      IndexMapNumbers(s.validators, i);
    }
    forall v | v in s.validatorsMap
      ensures v in s.validators
    {
      IndexMapHolds(s.validators, v);
    }
  }

  /** In every snapshot of every run the table matches the validator list. */
  lemma {:induction false} TableStaysOk(spec: ChainSpec, states: seq<Snapshot>, inputs: seq<BlockInput>, i: nat)
    requires IsRun(spec, states, inputs) && i < |states|
    ensures TableOk(states[i])
  {
    if i == 0 {
      var validators, number: nat, hash, epochNum, keys :|
        && KeysMatch(validators, keys) && validators != [] && GoodSet(validators) && number < NUMBER_LIMIT
        && states[0] == NewSnapshot(validators, number, hash, epochNum, keys);
      BuiltTableIsOk(states[0], validators, keys);
    } else {
      TableStaysOk(spec, states, inputs, i - 1);
      assert IsStep(spec, states[i - 1], inputs[i - 1], states[i]);
      StepKeepsTable(spec, states[i - 1], inputs[i - 1], states[i]);
    }
  }

  lemma StepKeepsTable(spec: ChainSpec, s: Snapshot, input: BlockInput, s': Snapshot)
    requires TableOk(s) && IsStep(spec, s, input, s')
    ensures TableOk(s')
  {
    var r := Recorded(Advanced(s, input.header), input, spec);
    if Switches(r, input, BohrAt(spec, input.header), s.epochNum) {
      BuiltTableIsOk(s', input.newValidators, input.voteAddrs);
    }
  }

  // ---------------------------------------------------------------------------
  // Assembling
  // ---------------------------------------------------------------------------

  datatype AssembleError = SnapshotNotFound | HeaderNotFound | FetchVoteError | InvalidAttestationVoteCount

  datatype Outcome = Skipped | Failed(error: AssembleError) | Assembled(attestation: VoteAttestation)

  datatype Search = NotEnough | Broken(error: AssembleError) | Found(target: Header, snap: Snapshot)

  /** Looks for a target with enough votes, from a block back through at most times blocks. */
  function SearchTarget(net: Lookups, justified: nat, target: Header, times: nat): Search
    decreases times
  {
    if times == 0 then NotEnough
    else if target.parentHash !in net.snaps then Broken(SnapshotNotFound)
    else
      var snap := net.snaps[target.parentHash];
      if |net.VotesFor(target.hash)| >= Quorum(|snap.validators|) then Found(target, snap)
      else if target.parentHash !in net.headers then Broken(HeaderNotFound)
      else
        var next := net.headers[target.parentHash];
        if next.number <= justified then NotEnough else SearchTarget(net, justified, next, times - 1)
  }

  /** Some validator of the snapshot votes with this key. */
  predicate IsVoteKey(snap: Snapshot, key: VoteAddress) {
    exists v :: v in snap.validatorsMap && snap.validatorsMap[v].voteAddr == key
  }

  /** The first signature of each key that belongs to a validator. */
  function UniqueVotes(snap: Snapshot, votes: seq<VoteEnvelope>): map<VoteAddress, Signature> {
    if votes == [] then map[]
    else
      var m := UniqueVotes(snap, votes[..|votes| - 1]);
      var vote := votes[|votes| - 1];
      if IsVoteKey(snap, vote.voteAddress) && vote.voteAddress !in m then m[vote.voteAddress := vote.signature] else m
  }

  datatype Entry = Entry(index: nat, key: VoteAddress, signature: Signature)

  /** Validator i has a vote among the unique ones. */
  predicate Voted(snap: Snapshot, unique: map<VoteAddress, Signature>, i: nat)
    requires i < |snap.validators|
  {
    snap.validators[i] in snap.validatorsMap && snap.validatorsMap[snap.validators[i]].voteAddr in unique
  }

  /** The entries of the first k validators that voted. */
  function Ordered(snap: Snapshot, unique: map<VoteAddress, Signature>, k: nat): seq<Entry>
    requires k <= |snap.validators|
  {
    if k == 0 then []
    else if Voted(snap, unique, k - 1) then
      var info := snap.validatorsMap[snap.validators[k - 1]];
      Ordered(snap, unique, k - 1) + [Entry(info.index, info.voteAddr, unique[info.voteAddr])]
    else Ordered(snap, unique, k - 1)
  }

  function EmptySet(): seq<bool> {
    seq(BITSET_SIZE, _ => false)
  }

  /** The bit of an entry: its index less one, the shift taken modulo 64. */
  function BitAt(entry: Entry): (b: nat)
    ensures b < BITSET_SIZE
  {
    (entry.index - 1) % BITSET_SIZE
  }

  /** The participation set: the bits of all entries. */
  function BitsOf(entries: seq<Entry>): (bits: seq<bool>)
    ensures |bits| == BITSET_SIZE
  {
    if entries == [] then EmptySet()
    else BitsOf(entries[..|entries| - 1])[BitAt(entries[|entries| - 1]) := true]
  }

  function SignaturesOf(entries: seq<Entry>): multiset<Signature> {
    if entries == [] then multiset{}
    else SignaturesOf(entries[..|entries| - 1]) + multiset{entries[|entries| - 1].signature}
  }

  function CountOnes(bits: seq<bool>): nat {
    if bits == [] then 0 else CountOnes(bits[..|bits| - 1]) + if bits[|bits| - 1] then 1 else 0
  }

  function AggregateVotes(snap: Snapshot, votes: seq<VoteEnvelope>, data: VoteData): Outcome {
    if exists i :: 0 <= i < |votes| && votes[i].data != data then Failed(FetchVoteError)
    else
      var entries := Ordered(snap, UniqueVotes(snap, votes), |snap.validators|);
      if |entries| < Quorum(|snap.validators|) then Skipped
      else if CountOnes(BitsOf(entries)) != |entries| then Failed(InvalidAttestationVoteCount)
      else Assembled(VoteAttestation(BitsOf(entries), SignaturesOf(entries), data, 0))
  }

  /** The attestation a producer puts into the block at (number, timestamp) on top of parent. */
  function Assemble(spec: ChainSpec, net: Lookups, parentSnap: Snapshot, parent: Header, number: nat, timestamp: nat): Outcome {
    if !spec.LubanActive(number) || number < 3 then Skipped
    else
      var justified := parentSnap.voteData;
      match SearchTarget(net, justified.targetNumber, parent, Depth(spec.FermiActive(number, timestamp)))
      case NotEnough => Skipped
      case Broken(e) => Failed(e)
      case Found(target, snap) =>
        AggregateVotes(snap, net.VotesFor(target.hash),
          VoteData(justified.targetNumber, justified.targetHash, target.number, target.hash))
  }

  // ---------------------------------------------------------------------------
  // What an assembled attestation says
  // ---------------------------------------------------------------------------

  lemma {:induction false} SetBitCounts(bits: seq<bool>, k: nat)
    requires k < |bits| && !bits[k]
    ensures CountOnes(bits[k := true]) == CountOnes(bits) + 1
  {
    var n := |bits| - 1;
    if k < n {
      SetBitCounts(bits[..n], k);
      assert bits[k := true][..n] == bits[..n][k := true];
    } else {
      assert bits[k := true][..n] == bits[..n];
    }
  }

  lemma {:induction false} NoOnes(n: nat)
    ensures CountOnes(seq(n, _ => false)) == 0
  {
    if n > 0 {
      NoOnes(n - 1);
      assert seq(n, _ => false)[..n - 1] == seq(n - 1, _ => false);
    }
  }

  /** The bits after the first k validators: exactly those of the voters among them. */
  ghost predicate BitsUpTo(snap: Snapshot, unique: map<VoteAddress, Signature>, k: nat, bits: seq<bool>)
    requires k <= |snap.validators| <= BITSET_SIZE
  {
    && |bits| == BITSET_SIZE
    && (forall i :: 0 <= i < k ==> bits[i] == Voted(snap, unique, i))
    && (forall i :: k <= i < BITSET_SIZE ==> !bits[i])
  }

  lemma BitsGrow(snap: Snapshot, unique: map<VoteAddress, Signature>, k: nat, bits: seq<bool>)
    requires 1 <= k <= |snap.validators| <= BITSET_SIZE && BitsUpTo(snap, unique, k - 1, bits)
    ensures !bits[k - 1]
    ensures BitsUpTo(snap, unique, k, if Voted(snap, unique, k - 1) then bits[k - 1 := true] else bits)
  {
  }

  /** One more voter: its bit was clear, is set now, and nothing else changes. */
  lemma OneMoreBit(snap: Snapshot, unique: map<VoteAddress, Signature>, k: nat)
    requires TableOk(snap) && 1 <= k <= |snap.validators| <= BITSET_SIZE && Voted(snap, unique, k - 1)
    ensures BitsOf(Ordered(snap, unique, k)) == BitsOf(Ordered(snap, unique, k - 1))[k - 1 := true]
  {
    var entries := Ordered(snap, unique, k);
    assert entries[..|entries| - 1] == Ordered(snap, unique, k - 1);
    assert entries[|entries| - 1].index == k;
  }

  lemma NoBitsYet(snap: Snapshot, unique: map<VoteAddress, Signature>)
    requires |snap.validators| <= BITSET_SIZE
    ensures BitsUpTo(snap, unique, 0, EmptySet()) && CountOnes(EmptySet()) == 0
  {
    NoOnes(BITSET_SIZE);
  }

  lemma NextBits(snap: Snapshot, unique: map<VoteAddress, Signature>, k: nat)
    requires TableOk(snap) && 1 <= k <= |snap.validators| <= BITSET_SIZE
    requires BitsUpTo(snap, unique, k - 1, BitsOf(Ordered(snap, unique, k - 1)))
    requires CountOnes(BitsOf(Ordered(snap, unique, k - 1))) == |Ordered(snap, unique, k - 1)|
    ensures BitsUpTo(snap, unique, k, BitsOf(Ordered(snap, unique, k)))
    ensures CountOnes(BitsOf(Ordered(snap, unique, k))) == |Ordered(snap, unique, k)|
  {
    var bits := BitsOf(Ordered(snap, unique, k - 1));
    BitsGrow(snap, unique, k, bits);
    if Voted(snap, unique, k - 1) {
      OneMoreBit(snap, unique, k);
      SetBitCounts(bits, k - 1);
    }
  }

  /** With at most 64 validators, bit i is set exactly when validator i voted. */
  lemma {:induction false} BitsNameVoters(snap: Snapshot, unique: map<VoteAddress, Signature>, k: nat)
    requires TableOk(snap) && k <= |snap.validators| <= BITSET_SIZE
    ensures BitsUpTo(snap, unique, k, BitsOf(Ordered(snap, unique, k)))
    ensures CountOnes(BitsOf(Ordered(snap, unique, k))) == |Ordered(snap, unique, k)|
  {
    if k == 0 {
      NoBitsYet(snap, unique);
    } else {
      BitsNameVoters(snap, unique, k - 1);
      NextBits(snap, unique, k);
    }
  }

  /** Bit b is set exactly when some entry maps to it. */
  lemma {:induction false} BitIsSet(entries: seq<Entry>, b: nat)
    requires b < BITSET_SIZE
    ensures BitsOf(entries)[b] <==> exists i :: 0 <= i < |entries| && BitAt(entries[i]) == b
  {
    if entries != [] {
      var n := |entries| - 1;
      BitIsSet(entries[..n], b);
      assert forall i :: 0 <= i < n ==> entries[..n][i] == entries[i];
    }
  }

  ghost predicate NoSharedBits(entries: seq<Entry>) {
    forall i, j :: 0 <= i < j < |entries| ==> BitAt(entries[i]) != BitAt(entries[j])
  }

  /**
   For any number of validators the vote-count check fails exactly when two voters
   share a bit, which takes indices that are 64 apart or a multiple of that.
   */
  lemma {:induction false} CountErrorIsCollision(entries: seq<Entry>)
    ensures CountOnes(BitsOf(entries)) <= |entries|
    ensures CountOnes(BitsOf(entries)) == |entries| <==> NoSharedBits(entries)
  {
    if entries == [] {
      NoOnes(BITSET_SIZE);
    } else {
      var n := |entries| - 1;
      var init := entries[..n];
      var b := BitAt(entries[n]);
      CountErrorIsCollision(init);
      BitIsSet(init, b);
      assert forall i :: 0 <= i < n ==> init[i] == entries[i];
      if BitsOf(init)[b] {
        assert BitsOf(entries) == BitsOf(init);
      } else {
        SetBitCounts(BitsOf(init), b);
      }
    }
  }

  /**
   A key is among the unique votes exactly when a validator's vote in the pool carries it,
   and the signature kept is that of the first such vote.
   */
  lemma {:induction false} UniqueVotesHold(snap: Snapshot, votes: seq<VoteEnvelope>, key: VoteAddress)
    ensures key in UniqueVotes(snap, votes) <==>
              IsVoteKey(snap, key) && exists i :: 0 <= i < |votes| && votes[i].voteAddress == key
    ensures key in UniqueVotes(snap, votes) ==>
              exists i :: 0 <= i < |votes| && votes[i].voteAddress == key
                          && votes[i].signature == UniqueVotes(snap, votes)[key]
                          && (forall j :: 0 <= j < i ==> votes[j].voteAddress != key)
  {
    if votes != [] {
      var n := |votes| - 1;
      var init := votes[..n];
      UniqueVotesHold(snap, init, key);
      assert forall i :: 0 <= i < n ==> init[i] == votes[i];
      if key in UniqueVotes(snap, init) {
        var i :| 0 <= i < |init| && init[i].voteAddress == key && init[i].signature == UniqueVotes(snap, init)[key]
                 && (forall j :: 0 <= j < i ==> init[j].voteAddress != key);
        assert votes[i].voteAddress == key;
      }
    }
  }

  /** The vote key of validator i. */
  function KeyAt(snap: Snapshot, i: nat): VoteAddress
    requires i < |snap.validators| && snap.validators[i] in snap.validatorsMap
  {
    snap.validatorsMap[snap.validators[i]].voteAddr
  }

  /**
   Soundness of the participation set: for up to 64 validators the vote-count error
   never happens, bit i is set exactly when a vote of validator i for this data is in
   the pool, no bit beyond the validators is set, and at least two thirds of them are set.
   */
  lemma AttestationIsSound(snap: Snapshot, votes: seq<VoteEnvelope>, data: VoteData)
    requires TableOk(snap) && |snap.validators| <= 64
    ensures AggregateVotes(snap, votes, data) != Failed(InvalidAttestationVoteCount)
    ensures AggregateVotes(snap, votes, data).Assembled? ==>
              var a := AggregateVotes(snap, votes, data).attestation;
              && a.data == data && |a.voteAddressSet| == 64
              && (forall i :: 0 <= i < 64 ==>
                    (a.voteAddressSet[i] <==> i < |snap.validators| && HasVote(snap, votes, data, i)))
              && 3 * CountOnes(a.voteAddressSet) >= 2 * |snap.validators|
  {
    var unique := UniqueVotes(snap, votes);
    BitsNameVoters(snap, unique, |snap.validators|);
    if AggregateVotes(snap, votes, data).Assembled? {
      forall i | 0 <= i < |snap.validators|
        ensures Voted(snap, unique, i) <==> HasVote(snap, votes, data, i)
      {
        UniqueVotesHold(snap, votes, KeyAt(snap, i));
      }
    }
  }

  /** The pool holds a vote for data under the key of validator i. */
  ghost predicate HasVote(snap: Snapshot, votes: seq<VoteEnvelope>, data: VoteData, i: nat)
    requires i < |snap.validators|
  {
    && snap.validators[i] in snap.validatorsMap
    && exists j :: 0 <= j < |votes| && votes[j].voteAddress == KeyAt(snap, i) && votes[j].data == data
  }

  /** The block k before from, as the header cache leads to it. */
  function Back(net: Lookups, from: Header, k: nat): Option<Header> {
    if k == 0 then Some(from)
    else
      match Back(net, from, k - 1)
      case None => None
      case Some(h) => if h.parentHash in net.headers then Some(net.headers[h.parentHash]) else None
  }

  lemma {:induction false} BackFromParent(net: Lookups, from: Header, k: nat)
    requires from.parentHash in net.headers
    ensures Back(net, net.headers[from.parentHash], k) == Back(net, from, k + 1)
  {
    if k > 0 {
      BackFromParent(net, from, k - 1);
    }
  }

  /** The pool holds votes for h from at least two thirds as many as validate its parent's snapshot. */
  predicate Enough(net: Lookups, h: Header) {
    h.parentHash in net.snaps && 3 * |net.VotesFor(h.hash)| >= 2 * |net.snaps[h.parentHash].validators|
  }

  /** Nothing ends the search at the block k before from, and it goes on to the one before. */
  predicate GoesOn(net: Lookups, justified: nat, from: Header, k: nat) {
    && Back(net, from, k).Some? && Back(net, from, k + 1).Some?
    && Back(net, from, k).value.parentHash in net.snaps && !Enough(net, Back(net, from, k).value)
    && Back(net, from, k + 1).value.number > justified
  }

  /** The block k before from is the first on the way back that ends the search with success. */
  predicate FirstEnough(net: Lookups, justified: nat, from: Header, k: nat) {
    && Back(net, from, k).Some? && Enough(net, Back(net, from, k).value)
    && forall j :: 0 <= j < k ==> GoesOn(net, justified, from, j)
  }

  lemma FirstEnoughShifts(net: Lookups, justified: nat, from: Header, k: nat)
    requires GoesOn(net, justified, from, 0) && from.parentHash in net.headers
    ensures FirstEnough(net, justified, net.headers[from.parentHash], k) <==> FirstEnough(net, justified, from, k + 1)
  {
    var next := net.headers[from.parentHash];
    forall j: nat
      ensures Back(net, next, j) == Back(net, from, j + 1)
    {
      BackFromParent(net, from, j);
    }
    forall j: nat
      ensures GoesOn(net, justified, next, j) == GoesOn(net, justified, from, j + 1)
    {
    }
    if FirstEnough(net, justified, next, k) {
      forall j | 0 <= j < k + 1
        ensures GoesOn(net, justified, from, j)
      {
        if j > 0 {
          assert GoesOn(net, justified, next, j - 1);
        }
      }
    }
    if FirstEnough(net, justified, from, k + 1) {
      forall j | 0 <= j < k
        ensures GoesOn(net, justified, next, j)
      {
        assert GoesOn(net, justified, from, j + 1);
      }
    }
  }

  /** The search finds a target exactly when there is a first block with enough votes, and finds that one. */
  lemma {:induction false} SearchIsExact(net: Lookups, justified: nat, from: Header, times: nat)
    ensures SearchTarget(net, justified, from, times).Found? <==>
              exists k :: 0 <= k < times && FirstEnough(net, justified, from, k)
    ensures forall k :: 0 <= k < times && FirstEnough(net, justified, from, k) ==>
              SearchTarget(net, justified, from, times)
              == Found(Back(net, from, k).value, net.snaps[Back(net, from, k).value.parentHash])
    decreases times
  {
    if times > 0 {
      if Enough(net, from) {
        assert FirstEnough(net, justified, from, 0);
        forall k | 0 < k < times
          ensures !FirstEnough(net, justified, from, k)
        {
          assert !GoesOn(net, justified, from, 0);
        }
      } else if GoesOn(net, justified, from, 0) {
        var next := net.headers[from.parentHash];
        SearchIsExact(net, justified, next, times - 1);
        SearchStep(net, justified, from, times);
      } else {
        SearchEnds(net, justified, from, times);
        forall k | 0 <= k < times
          ensures !FirstEnough(net, justified, from, k)
        {
          assert k > 0 ==> !GoesOn(net, justified, from, 0);
        }
      }
    }
  }

  lemma SearchEnds(net: Lookups, justified: nat, from: Header, times: nat)
    requires times > 0 && !Enough(net, from) && !GoesOn(net, justified, from, 0)
    ensures !SearchTarget(net, justified, from, times).Found?
  {
    assert Back(net, from, 0) == Some(from);
  }

  lemma SearchStep(net: Lookups, justified: nat, from: Header, times: nat)
    requires times > 0 && GoesOn(net, justified, from, 0) && from.parentHash in net.headers
    requires var next := net.headers[from.parentHash];
             && (SearchTarget(net, justified, next, times - 1).Found? <==>
                   exists k :: 0 <= k < times - 1 && FirstEnough(net, justified, next, k))
             && (forall k :: 0 <= k < times - 1 && FirstEnough(net, justified, next, k) ==>
                   SearchTarget(net, justified, next, times - 1)
                   == Found(Back(net, next, k).value, net.snaps[Back(net, next, k).value.parentHash]))
    ensures SearchTarget(net, justified, from, times).Found? <==>
              exists k :: 0 <= k < times && FirstEnough(net, justified, from, k)
    ensures forall k :: 0 <= k < times && FirstEnough(net, justified, from, k) ==>
              SearchTarget(net, justified, from, times)
              == Found(Back(net, from, k).value, net.snaps[Back(net, from, k).value.parentHash])
  {
    var next := net.headers[from.parentHash];
    assert SearchTarget(net, justified, from, times) == SearchTarget(net, justified, next, times - 1);
    assert !FirstEnough(net, justified, from, 0);
    forall k | 0 <= k < times - 1
      ensures FirstEnough(net, justified, next, k) <==> FirstEnough(net, justified, from, k + 1)
    {
      FirstEnoughShifts(net, justified, from, k);
    }
    forall k | 0 <= k < times && FirstEnough(net, justified, from, k)
      ensures SearchTarget(net, justified, from, times)
              == Found(Back(net, from, k).value, net.snaps[Back(net, from, k).value.parentHash])
    {
      assert FirstEnough(net, justified, next, k - 1);
      BackFromParent(net, from, k - 1);
    }
    if SearchTarget(net, justified, next, times - 1).Found? {
      var k :| 0 <= k < times - 1 && FirstEnough(net, justified, next, k);
      assert FirstEnough(net, justified, from, k + 1);
    }
  }

  /** With numbers: the parent alone before Fermi, and the two blocks before it as well after. */
  lemma SearchReach(net: Lookups, justified: nat, from: Header, fermi: bool)
    ensures SearchTarget(net, justified, from, Depth(fermi)).Found? <==>
              || FirstEnough(net, justified, from, 0)
              || (fermi && (FirstEnough(net, justified, from, 1) || FirstEnough(net, justified, from, 2)))
  {
    SearchIsExact(net, justified, from, Depth(fermi));
  }

  /** The target found lies above the justified block and less than times blocks back. */
  lemma {:induction false} TargetIsInReach(net: Lookups, justified: nat, from: Header, times: nat)
    requires net.Ok() && ParentsBelow(net, from) && from.number > justified
    requires SearchTarget(net, justified, from, times).Found?
    ensures var target := SearchTarget(net, justified, from, times).target;
            justified < target.number <= from.number < target.number + times
    decreases times
  {
    if |net.VotesFor(from.hash)| < Quorum(|net.snaps[from.parentHash].validators|) {
      TargetIsInReach(net, justified, net.headers[from.parentHash], times - 1);
    }
  }

  /** An assembled attestation goes from the justified block to a block above it, in reach. */
  lemma AssembledGoesForward(spec: ChainSpec, net: Lookups, parentSnap: Snapshot, parent: Header, number: nat, timestamp: nat)
    requires net.Ok() && ParentsBelow(net, parent) && parent.number > parentSnap.voteData.targetNumber
    requires Assemble(spec, net, parentSnap, parent, number, timestamp).Assembled?
    ensures var d := Assemble(spec, net, parentSnap, parent, number, timestamp).attestation.data;
            && d.sourceNumber == parentSnap.voteData.targetNumber && d.sourceHash == parentSnap.voteData.targetHash
            && d.sourceNumber < d.targetNumber <= parent.number
            && parent.number < d.targetNumber + Depth(spec.FermiActive(number, timestamp))
  {
    TargetIsInReach(net, parentSnap.voteData.targetNumber, parent, Depth(spec.FermiActive(number, timestamp)));
  }

  // ---------------------------------------------------------------------------
  // Verifying
  // ---------------------------------------------------------------------------

  /** The first block, from a block back through at most depth blocks, that is the target. */
  function FindAncestor(net: Lookups, from: Header, data: VoteData, depth: nat): Option<Header>
    decreases depth
  {
    if depth == 0 then None
    else if from.number == data.targetNumber && from.hash == data.targetHash then Some(from)
    else if from.parentHash !in net.headers then None
    else FindAncestor(net, net.headers[from.parentHash], data, depth - 1)
  }

  /** The block k before from is the one the data name as target. */
  predicate TargetAt(net: Lookups, from: Header, data: VoteData, k: nat) {
    var h := Back(net, from, k);
    h.Some? && h.value.number == data.targetNumber && h.value.hash == data.targetHash
  }

  ghost predicate TargetWithin(net: Lookups, from: Header, data: VoteData, depth: nat) {
    exists k :: 0 <= k < depth && TargetAt(net, from, data, k)
  }

  lemma TargetShifts(net: Lookups, from: Header, data: VoteData, depth: nat)
    requires depth > 0 && from.parentHash in net.headers && !TargetAt(net, from, data, 0)
    ensures TargetWithin(net, from, data, depth) <==> TargetWithin(net, net.headers[from.parentHash], data, depth - 1)
  {
    var next := net.headers[from.parentHash];
    if TargetWithin(net, from, data, depth) {
      var k :| 0 <= k < depth && TargetAt(net, from, data, k);
      BackFromParent(net, from, k - 1);
      assert TargetAt(net, next, data, k - 1);
    }
    if TargetWithin(net, next, data, depth - 1) {
      var k :| 0 <= k < depth - 1 && TargetAt(net, next, data, k);
      BackFromParent(net, from, k);
      assert TargetAt(net, from, data, k + 1);
    }
  }

  /** The verifier finds the ancestor exactly when it is the block k before, for some k below the depth. */
  lemma {:induction false} AncestorIsExact(net: Lookups, from: Header, data: VoteData, depth: nat)
    ensures FindAncestor(net, from, data, depth).Some? <==> TargetWithin(net, from, data, depth)
    decreases depth
  {
    if depth == 0 {
    } else if TargetAt(net, from, data, 0) {
      assert TargetWithin(net, from, data, depth);
    } else if from.parentHash in net.headers {
      TargetShifts(net, from, data, depth);
      AncestorIsExact(net, net.headers[from.parentHash], data, depth - 1);
    } else if TargetWithin(net, from, data, depth) {
      var k :| 0 <= k < depth && TargetAt(net, from, data, k);
      NothingBehind(net, from, k);
    }
  }

  lemma {:induction false} NothingBehind(net: Lookups, from: Header, k: nat)
    requires k > 0 && from.parentHash !in net.headers
    ensures Back(net, from, k).None?
  {
    if k > 1 {
      NothingBehind(net, from, k - 1);
    }
  }

  /** With numbers: the parent before Fermi, and one of the last three blocks after. */
  lemma VerifierReach(net: Lookups, from: Header, data: VoteData, fermi: bool)
    ensures FindAncestor(net, from, data, Depth(fermi)).Some? <==>
              || TargetAt(net, from, data, 0)
              || (fermi && (TargetAt(net, from, data, 1) || TargetAt(net, from, data, 2)))
  {
    AncestorIsExact(net, from, data, Depth(fermi));
  }

  /** The justified header the source must match; genesis while nothing is justified. */
  function JustifiedHeader(net: Lookups, genesis: Header, votes: VoteData): Option<Header> {
    if votes.sourceHash == ZERO_HASH && votes.targetHash == ZERO_HASH then Some(genesis)
    else if votes.targetHash in net.headers then Some(net.headers[votes.targetHash])
    else None
  }

  predicate BitSet(bits: seq<bool>, i: nat) {
    i < |bits| && bits[i]
  }

  /** The keys of the first k validators named by the bits; None if one is not in the table. */
  function NamedKeys(snap: Snapshot, bits: seq<bool>, k: nat): Option<seq<VoteAddress>>
    requires k <= |snap.validators|
  {
    if k == 0 then Some([])
    else
      var before := NamedKeys(snap, bits, k - 1);
      if before.None? || !BitSet(bits, k - 1) then before
      else if snap.validators[k - 1] !in snap.validatorsMap then None
      else Some(before.value + [KeyAt(snap, k - 1)])
  }

  /** The ideal aggregate of the signatures of data under the given keys. */
  function AggregateOf(keys: seq<VoteAddress>, data: VoteData): multiset<Signature> {
    if keys == [] then multiset{}
    else AggregateOf(keys[..|keys| - 1], data) + multiset{Signature(keys[|keys| - 1], data)}
  }

  /** The quorum and signature checks against the snapshot before the target. */
  predicate VerifiesAgainst(snap: Snapshot, a: VoteAttestation) {
    && CountOnes(a.voteAddressSet) <= |snap.validators|
    && var keys := NamedKeys(snap, a.voteAddressSet, |snap.validators|);
       && keys.Some?
       && |keys.value| >= Quorum(|snap.validators|)
       && ZERO_VOTE_ADDRESS !in keys.value
       && a.aggSignature == AggregateOf(keys.value, a.data)
  }

  lemma {:induction false} NamedCount(snap: Snapshot, bits: seq<bool>, k: nat)
    requires TableOk(snap) && k <= |snap.validators| <= |bits|
    ensures NamedKeys(snap, bits, k).Some? && |NamedKeys(snap, bits, k).value| == CountOnes(bits[..k])
  {
    if k > 0 {
      NamedCount(snap, bits, k - 1);
      assert bits[..k][..k - 1] == bits[..k - 1];
    }
  }

  /**
   The verifier's threshold: genuine signatures of the validators the bits name are accepted
   if and only if there are no more bits than validators, at least two thirds are named, and
   none of those has the zero key.
   */
  lemma VerifierCounts(snap: Snapshot, a: VoteAttestation)
    requires TableOk(snap) && |snap.validators| <= |a.voteAddressSet|
    requires var keys := NamedKeys(snap, a.voteAddressSet, |snap.validators|);
             keys.Some? && a.aggSignature == AggregateOf(keys.value, a.data)
    ensures var n, bits := |snap.validators|, a.voteAddressSet;
            VerifiesAgainst(snap, a) <==>
              CountOnes(bits) <= n && 3 * CountOnes(bits[..n]) >= 2 * n && !ZeroNamed(snap, bits, n)
  {
    var n := |snap.validators|;
    NamedCount(snap, a.voteAddressSet, n);
    ZeroIsNamed(snap, a.voteAddressSet, n);
  }

  /** One of the first k validators is named and has the zero key. */
  ghost predicate ZeroNamed(snap: Snapshot, bits: seq<bool>, k: nat)
    requires k <= |snap.validators|
  {
    exists i :: 0 <= i < k && BitSet(bits, i) && snap.validators[i] in snap.validatorsMap && KeyAt(snap, i) == ZERO_VOTE_ADDRESS
  }

  lemma {:induction false} ZeroIsNamed(snap: Snapshot, bits: seq<bool>, k: nat)
    requires TableOk(snap) && k <= |snap.validators| && NamedKeys(snap, bits, k).Some?
    ensures ZERO_VOTE_ADDRESS in NamedKeys(snap, bits, k).value <==> ZeroNamed(snap, bits, k)
  {
    if k > 0 {
      ZeroIsNamed(snap, bits, k - 1);
    }
  }

  /** What verify_vote_attestation accepts for an attestation in the block at (number, timestamp). */
  predicate Verifies(spec: ChainSpec, net: Lookups, genesis: Header, parentSnap: Snapshot, parent: Header,
                     number: nat, timestamp: nat, a: VoteAttestation)
  {
    !spec.PlatoActive(number) ||
    (&& a.extraLen <= MAX_ATTESTATION_EXTRA_LENGTH
     && var ancestor := FindAncestor(net, parent, a.data, Depth(spec.FermiActive(number, timestamp)));
        var justified := JustifiedHeader(net, genesis, parentSnap.voteData);
        && ancestor.Some? && justified.Some?
        && a.data.sourceNumber == justified.value.number && a.data.sourceHash == justified.value.hash
        && ancestor.value.parentHash in net.snaps
        && VerifiesAgainst(net.snaps[ancestor.value.parentHash], a))
  }

  /**
   From Plato on the extra bytes of an attestation matter by their number only, and 256 are
   allowed. Before it everything passes.
   */
  lemma ExtraLengthIsExact(spec: ChainSpec, net: Lookups, genesis: Header, parentSnap: Snapshot, parent: Header,
                           number: nat, timestamp: nat, a: VoteAttestation, n: nat)
    ensures Verifies(spec, net, genesis, parentSnap, parent, number, timestamp, a.(extraLen := n)) <==>
              || !spec.PlatoActive(number)
              || (n <= 256 && Verifies(spec, net, genesis, parentSnap, parent, number, timestamp, a.(extraLen := 0)))
  {
  }

  // ---------------------------------------------------------------------------
  // Assembled attestations verify
  // ---------------------------------------------------------------------------

  /** Votes whose signatures are their own, under real keys. */
  ghost predicate Genuine(votes: seq<VoteEnvelope>) {
    forall i :: 0 <= i < |votes| ==>
      votes[i].signature == Signature(votes[i].voteAddress, votes[i].data) && votes[i].voteAddress != ZERO_VOTE_ADDRESS
  }

  lemma {:induction false} SearchedIsFound(net: Lookups, justified: nat, from: Header, times: nat, data: VoteData)
    requires net.Ok() && ParentsBelow(net, from) && from.number > justified
    requires SearchTarget(net, justified, from, times).Found?
    requires var t := SearchTarget(net, justified, from, times).target;
             data.targetNumber == t.number && data.targetHash == t.hash
    ensures var f := SearchTarget(net, justified, from, times);
            && FindAncestor(net, from, data, times) == Some(f.target)
            && f.target.parentHash in net.snaps && net.snaps[f.target.parentHash] == f.snap
    decreases times
  {
    if |net.VotesFor(from.hash)| < Quorum(|net.snaps[from.parentHash].validators|) {
      var next := net.headers[from.parentHash];
      TargetIsInReach(net, justified, next, times - 1);
      SearchedIsFound(net, justified, next, times - 1, data);
    }
  }

  /** The verifier reads the keys of exactly the entries the producer aggregated. */
  lemma {:induction false} SameKeysAndSignatures(snap: Snapshot, votes: seq<VoteEnvelope>, data: VoteData,
                                                 bits: seq<bool>, k: nat)
    requires TableOk(snap) && k <= |snap.validators| && Genuine(votes)
    requires forall i :: 0 <= i < |votes| ==> votes[i].data == data
    requires forall i :: 0 <= i < k ==> BitSet(bits, i) == Voted(snap, UniqueVotes(snap, votes), i)
    ensures var entries := Ordered(snap, UniqueVotes(snap, votes), k);
            var keys := NamedKeys(snap, bits, k);
            && keys.Some? && |keys.value| == |entries|
            && ZERO_VOTE_ADDRESS !in keys.value
            && SignaturesOf(entries) == AggregateOf(keys.value, data)
  {
    if k > 0 {
      var unique := UniqueVotes(snap, votes);
      SameKeysAndSignatures(snap, votes, data, bits, k - 1);
      if Voted(snap, unique, k - 1) {
        var key := KeyAt(snap, k - 1);
        UniqueVotesHold(snap, votes, key);
        var entries := Ordered(snap, unique, k);
        assert entries[..|entries| - 1] == Ordered(snap, unique, k - 1);
        var keys := NamedKeys(snap, bits, k).value;
        assert keys[..|keys| - 1] == NamedKeys(snap, bits, k - 1).value;
      }
    }
  }

  lemma AggregateVerifies(snap: Snapshot, votes: seq<VoteEnvelope>, data: VoteData)
    requires TableOk(snap) && |snap.validators| <= BITSET_SIZE && Genuine(votes)
    requires AggregateVotes(snap, votes, data).Assembled?
    ensures VerifiesAgainst(snap, AggregateVotes(snap, votes, data).attestation)
  {
    var n := |snap.validators|;
    var a := AggregateVotes(snap, votes, data).attestation;
    BitsNameVoters(snap, UniqueVotes(snap, votes), n);
    SameKeysAndSignatures(snap, votes, data, a.voteAddressSet, n);
    OrderedIsShort(snap, UniqueVotes(snap, votes), n);
  }

  lemma {:induction false} OrderedIsShort(snap: Snapshot, unique: map<VoteAddress, Signature>, k: nat)
    requires k <= |snap.validators|
    ensures |Ordered(snap, unique, k)| <= k
  {
    if k > 0 {
      OrderedIsShort(snap, unique, k - 1);
    }
  }

  /**
   With genuine votes in the pool, every node accepts what a producer assembles exactly
   when a block has been justified: for empty vote data the verifier expects genesis as
   the source, and the producer writes the zero hash.
   */
  lemma AssembledVerifies(spec: ChainSpec, net: Lookups, genesis: Header, parentSnap: Snapshot, parent: Header,
                          number: nat, timestamp: nat)
    requires net.Ok() && ParentsBelow(net, parent) && genesis.hash != ZERO_HASH
    requires forall h :: h in net.snaps ==> TableOk(net.snaps[h]) && |net.snaps[h].validators| <= BITSET_SIZE
    requires forall h :: h in net.pool ==> Genuine(net.pool[h])
    requires spec.PlatoActive(number)
    requires parent.number > parentSnap.voteData.targetNumber
    requires var v := parentSnap.voteData;
             v.targetHash != ZERO_HASH ==> v.targetHash in net.headers && net.headers[v.targetHash].number == v.targetNumber
    requires Assemble(spec, net, parentSnap, parent, number, timestamp).Assembled?
    ensures Verifies(spec, net, genesis, parentSnap, parent, number, timestamp,
                     Assemble(spec, net, parentSnap, parent, number, timestamp).attestation)
            <==> parentSnap.voteData.targetHash != ZERO_HASH
  {
    var depth := Depth(spec.FermiActive(number, timestamp));
    var f := SearchTarget(net, parentSnap.voteData.targetNumber, parent, depth);
    var a := Assemble(spec, net, parentSnap, parent, number, timestamp).attestation;
    SearchedIsFound(net, parentSnap.voteData.targetNumber, parent, depth, a.data);
    AggregateVerifies(f.snap, net.VotesFor(f.target.hash), a.data);
  }

  // ---------------------------------------------------------------------------
  // The loops
  // ---------------------------------------------------------------------------

  method FindTarget(net: Lookups, justified: nat, parent: Header, times: nat) returns (r: Search)
    ensures r == SearchTarget(net, justified, parent, times)
  {
    var target := parent;
    for i := 0 to times
      invariant SearchTarget(net, justified, target, times - i) == SearchTarget(net, justified, parent, times)
    {
      if target.parentHash !in net.snaps {
        return Broken(SnapshotNotFound);
      }
      var snap := net.snaps[target.parentHash];
      if |net.VotesFor(target.hash)| >= Quorum(|snap.validators|) {
        return Found(target, snap);
      }
      if target.parentHash !in net.headers {
        return Broken(HeaderNotFound);
      }
      target := net.headers[target.parentHash];
      if target.number <= justified {
        return NotEnough;
      }
    }
    return NotEnough;
  }

  method KeepFirstVotes(snap: Snapshot, votes: seq<VoteEnvelope>) returns (unique: map<VoteAddress, Signature>)
    ensures unique == UniqueVotes(snap, votes)
  {
    unique := map[];
    for i := 0 to |votes|
      invariant unique == UniqueVotes(snap, votes[..i])
    {
      assert votes[..i + 1][..i] == votes[..i];
      var known := exists v :: v in snap.validatorsMap && snap.validatorsMap[v].voteAddr == votes[i].voteAddress;
      if known && votes[i].voteAddress !in unique {
        unique := unique[votes[i].voteAddress := votes[i].signature];
      }
    }
    assert votes[..|votes|] == votes;
  }

  method OrderVotes(snap: Snapshot, unique: map<VoteAddress, Signature>) returns (entries: seq<Entry>)
    ensures entries == Ordered(snap, unique, |snap.validators|)
  {
    entries := [];
    for i := 0 to |snap.validators|
      invariant entries == Ordered(snap, unique, i)
    {
      var v := snap.validators[i];
      if v in snap.validatorsMap {
        var info := snap.validatorsMap[v];
        if info.voteAddr in unique {
          entries := entries + [Entry(info.index, info.voteAddr, unique[info.voteAddr])];
        }
      }
    }
  }

  method SetBits(entries: seq<Entry>) returns (bits: seq<bool>, signatures: multiset<Signature>)
    ensures bits == BitsOf(entries) && signatures == SignaturesOf(entries)
  {
    bits, signatures := EmptySet(), multiset{};
    for i := 0 to |entries|
      invariant bits == BitsOf(entries[..i]) && signatures == SignaturesOf(entries[..i])
    {
      assert entries[..i + 1][..i] == entries[..i];
      bits := bits[(entries[i].index - 1) % BITSET_SIZE := true];
      signatures := signatures + multiset{entries[i].signature};
    }
    assert entries[..|entries|] == entries;
  }

  method CountSet(bits: seq<bool>) returns (n: nat)
    ensures n == CountOnes(bits)
  {
    n := 0;
    for i := 0 to |bits|
      invariant n == CountOnes(bits[..i])
    {
      assert bits[..i + 1][..i] == bits[..i];
      if bits[i] {
        n := n + 1;
      }
    }
    assert bits[..|bits|] == bits;
  }

  method Aggregate(snap: Snapshot, votes: seq<VoteEnvelope>, data: VoteData) returns (r: Outcome)
    ensures r == AggregateVotes(snap, votes, data)
  {
    for i := 0 to |votes|
      invariant forall j :: 0 <= j < i ==> votes[j].data == data
    {
      if votes[i].data != data {
        return Failed(FetchVoteError);
      }
    }
    var unique := KeepFirstVotes(snap, votes);
    var entries := OrderVotes(snap, unique);
    if |entries| < Quorum(|snap.validators|) {
      return Skipped;
    }
    var bits, signatures := SetBits(entries);
    var ones := CountSet(bits);
    if ones != |entries| {
      return Failed(InvalidAttestationVoteCount);
    }
    return Assembled(VoteAttestation(bits, signatures, data, 0));
  }

  method AssembleVoteAttestation(spec: ChainSpec, net: Lookups, parentSnap: Snapshot, parent: Header,
                                 number: nat, timestamp: nat) returns (r: Outcome)
    ensures r == Assemble(spec, net, parentSnap, parent, number, timestamp)
  {
    if !spec.LubanActive(number) || number < 3 {
      return Skipped;
    }
    var justified := parentSnap.voteData;
    var times := 1;
    if spec.FermiActive(number, timestamp) {
      times := K_ANCESTOR_GENERATION_DEPTH;
    }
    var search := FindTarget(net, justified.targetNumber, parent, times);
    match search {
      case NotEnough => return Skipped;
      case Broken(e) => return Failed(e);
      case Found(target, snap) =>
        r := Aggregate(snap, net.VotesFor(target.hash),
          VoteData(justified.targetNumber, justified.targetHash, target.number, target.hash));
    }
  }

  /** The verifier's walk back from the parent. */
  method MatchAncestor(net: Lookups, parent: Header, data: VoteData, depth: nat) returns (r: Option<Header>)
    ensures r == FindAncestor(net, parent, data, depth)
  {
    var ancestor := parent;
    for i := 0 to depth
      invariant FindAncestor(net, ancestor, data, depth - i) == FindAncestor(net, parent, data, depth)
    {
      if ancestor.number == data.targetNumber && ancestor.hash == data.targetHash {
        return Some(ancestor);
      }
      if ancestor.parentHash !in net.headers {
        return None;
      }
      ancestor := net.headers[ancestor.parentHash];
    }
    return None;
  }
}
