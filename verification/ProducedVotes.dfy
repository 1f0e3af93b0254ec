/**
 What the assembler of src/consensus/parlia/consensus.rs makes of the votes that the
 producer of src/node/vote_producer.rs signs: exactly when they become an attestation.
 */
module ProducedVotes {
  import opened Types
  import opened Snapshots
  import opened Attestations
  import F = Finality

  /** The vote the producer signs for target, on the snapshot of target itself. */
  function VoteOf(cfg: F.Config, target: Header, snap: Snapshot): VoteData {
    F.BallotFor(cfg, target.hash, F.Node(target.number, target.parentHash, [], snap.voteData))
  }

  /** The positions of the validators with a vote for data among these. */
  ghost function VotersAt(snap: Snapshot, votes: seq<VoteEnvelope>, data: VoteData): set<nat> {
    set i | 0 <= i < |snap.validators| && HasVote(snap, votes, data, i)
  }

  ghost predicate AllFor(votes: seq<VoteEnvelope>, data: VoteData) {
    forall i :: 0 <= i < |votes| ==> votes[i].data == data
  }

  /** The positions, below k, of the validators whose key is among the unique votes. */
  ghost function VotedBelow(snap: Snapshot, unique: map<VoteAddress, Signature>, k: nat): set<nat>
    requires k <= |snap.validators|
  {
    set i | 0 <= i < k && Voted(snap, unique, i)
  }

  lemma {:induction false} OrderedCount(snap: Snapshot, unique: map<VoteAddress, Signature>, k: nat)
    requires k <= |snap.validators|
    ensures |Ordered(snap, unique, k)| == |VotedBelow(snap, unique, k)|
  {
    if k == 0 {
      assert VotedBelow(snap, unique, k) == {};
    } else {
      OrderedCount(snap, unique, k - 1);
      var before := VotedBelow(snap, unique, k - 1);
      assert VotedBelow(snap, unique, k) == if Voted(snap, unique, k - 1) then before + {k - 1} else before;
    }
  }

  /** The entries are those of the validators with a vote in the pool. */
  lemma VotersHaveEntries(snap: Snapshot, votes: seq<VoteEnvelope>, data: VoteData)
    requires AllFor(votes, data)
    ensures |Ordered(snap, UniqueVotes(snap, votes), |snap.validators|)| == |VotersAt(snap, votes, data)|
  {
    var n, unique := |snap.validators|, UniqueVotes(snap, votes);
    OrderedCount(snap, unique, n);
    forall i | 0 <= i < n && snap.validators[i] in snap.validatorsMap
      ensures Voted(snap, unique, i) <==> HasVote(snap, votes, data, i)
    {
      UniqueVotesHold(snap, votes, KeyAt(snap, i));
      assert IsVoteKey(snap, KeyAt(snap, i));
    }
    assert VotersAt(snap, votes, data) == VotedBelow(snap, unique, n);
  }

  /**
   Votes that all say the same are aggregated for exactly the data they sign, and exactly
   when at least two thirds of the validators are among the voters.
   */
  lemma AggregatesOwnData(snap: Snapshot, votes: seq<VoteEnvelope>, signed: VoteData, data: VoteData)
    requires TableOk(snap) && |snap.validators| <= BITSET_SIZE && AllFor(votes, signed) && votes != []
    ensures AggregateVotes(snap, votes, data).Assembled? <==>
              data == signed && 3 * |VotersAt(snap, votes, signed)| >= 2 * |snap.validators|
    ensures AggregateVotes(snap, votes, data) == Skipped <==>
              data == signed && 3 * |VotersAt(snap, votes, signed)| < 2 * |snap.validators|
    ensures AggregateVotes(snap, votes, data) == Failed(FetchVoteError) <==> data != signed
  {
    VotersHaveEntries(snap, votes, signed);
    AttestationIsSound(snap, votes, data);
    assert votes[0].data == signed;
  }

  /** A quorum of voters needs votes. */
  lemma QuorumNeedsVotes(snap: Snapshot, votes: seq<VoteEnvelope>, data: VoteData)
    requires |snap.validators| >= 1 && |VotersAt(snap, votes, data)| >= Quorum(|snap.validators|)
    ensures votes != []
  {
    assert VotersAt(snap, votes, data) != {};
    var i :| i in VotersAt(snap, votes, data);
    assert HasVote(snap, votes, data, i);
  }

  /** One vote with other data among those for the target stops the assembly. */
  lemma OneStrayVoteStopsAll(snap: Snapshot, votes: seq<VoteEnvelope>, data: VoteData, i: nat)
    requires i < |votes| && votes[i].data != data
    ensures AggregateVotes(snap, votes, data) == Failed(FetchVoteError)
  {
  }

  /** Both read the same justified block: the parent's snapshot records it, and the target's leads to it. */
  predicate SameJustified(cfg: F.Config, parentVotes: VoteData, targetVotes: VoteData) {
    && parentVotes.targetHash != ZERO_HASH
    && F.ProducerSource(cfg, targetVotes) == F.Target(parentVotes)
  }

  /** The search from parent finds target, and the pool holds a quorum of the producer's votes for it alone. */
  ghost predicate QuorumInPool(cfg: F.Config, net: Lookups, parentSnap: Snapshot, parent: Header, fermi: bool, target: Header) {
    && SearchTarget(net, parentSnap.voteData.targetNumber, parent, Depth(fermi)).Found?
    && SearchTarget(net, parentSnap.voteData.targetNumber, parent, Depth(fermi)).target == target
    && target.hash in net.snaps
    && var snap := SearchTarget(net, parentSnap.voteData.targetNumber, parent, Depth(fermi)).snap;
       var votes, data := net.VotesFor(target.hash), VoteOf(cfg, target, net.snaps[target.hash]);
       && TableOk(snap) && 1 <= |snap.validators| <= BITSET_SIZE
       && AllFor(votes, data)
       && |VotersAt(snap, votes, data)| >= Quorum(|snap.validators|)
  }

  /**
   Exactly when the producer's votes become an attestation. With a quorum of them in the
   pool, from Luban on and from block 3 on, the assembler succeeds if and only if the
   parent's snapshot records a justified block and the snapshot the votes were made on
   leads to the same one; otherwise it reports the votes as wrong.
   */
  lemma ProducedVotesAssemble(spec: ChainSpec, cfg: F.Config, net: Lookups, parentSnap: Snapshot, parent: Header,
                              number: nat, timestamp: nat, target: Header)
    requires cfg.genesis != ZERO_HASH
    requires QuorumInPool(cfg, net, parentSnap, parent, spec.FermiActive(number, timestamp), target)
    ensures var r := Assemble(spec, net, parentSnap, parent, number, timestamp);
            var same := SameJustified(cfg, parentSnap.voteData, net.snaps[target.hash].voteData);
            var open := spec.LubanActive(number) && number >= 3;
            && (r.Assembled? <==> open && same)
            && (r == Skipped <==> !open)
            && (r == Failed(FetchVoteError) <==> open && !same)
  {
    var d := parentSnap.voteData;
    var f := SearchTarget(net, d.targetNumber, parent, Depth(spec.FermiActive(number, timestamp)));
    var signed := VoteOf(cfg, target, net.snaps[target.hash]);
    var data := VoteData(d.targetNumber, d.targetHash, target.number, target.hash);
    QuorumNeedsVotes(f.snap, net.VotesFor(target.hash), signed);
    AggregatesOwnData(f.snap, net.VotesFor(target.hash), signed, data);
  }

  /** Before Fermi, and whenever the parent is the target, a recorded justified block is all it takes. */
  lemma ParentVotesAssemble(spec: ChainSpec, cfg: F.Config, net: Lookups, parentSnap: Snapshot, parent: Header,
                            number: nat, timestamp: nat)
    requires cfg.genesis != ZERO_HASH && spec.LubanActive(number) && number >= 3
    requires parent.hash in net.snaps && net.snaps[parent.hash] == parentSnap
    requires QuorumInPool(cfg, net, parentSnap, parent, spec.FermiActive(number, timestamp), parent)
    ensures Assemble(spec, net, parentSnap, parent, number, timestamp).Assembled? <==>
              parentSnap.voteData.targetHash != ZERO_HASH
  {
    ProducedVotesAssemble(spec, cfg, net, parentSnap, parent, number, timestamp, parent);
  }

  // ---------------------------------------------------------------------------
  // The two ways to fail, at concrete pools
  // ---------------------------------------------------------------------------

  /** A set of one validator, at address 7 with key 70. */
  function Alone(votes: VoteData): Snapshot {
    Snapshot(200, 1, 1, [7], map[7 := ValidatorInfo(1, 70)], map[], votes, Some(1), 3000)
  }

  function SignedVote(data: VoteData): VoteEnvelope {
    VoteEnvelope(70, Signature(70, data), data)
  }

  /** Nothing is justified: block 2 has the vote of everyone, from genesis, and block 3 gets no attestation. */
  lemma FirstAttestationFails(spec: ChainSpec, timestamp: nat)
    requires spec.LubanActive(3)
    ensures var genesis, block1, block2 := 10, 11, 12;
            var vote := VoteData(0, genesis, 2, block2);
            var net := Lookups(map[], map[block1 := Alone(NO_VOTES), block2 := Alone(NO_VOTES)],
                               map[block2 := [SignedVote(vote)]]);
            && vote == VoteOf(F.Config({70}, {}, genesis), Header(2, block2, block1, 7, 0, []), Alone(NO_VOTES))
            && Assemble(spec, net, Alone(NO_VOTES), Header(2, block2, block1, 7, 0, []), 3, timestamp)
               == Failed(FetchVoteError)
  {
    var votes := [SignedVote(VoteData(0, 10, 2, 12))];
    assert votes[0].data.sourceHash == 10;
  }

  /**
   After Fermi: everyone votes for block 3 from block 1, block 4 justifies block 2, and
   block 5 then finds the votes for block 3 but expects block 2 as their source.
   */
  lemma OlderSourceFails(spec: ChainSpec, timestamp: nat)
    requires spec.LubanActive(5) && spec.FermiActive(5, timestamp)
    ensures var older, newer := VoteData(0, 10, 1, 11), VoteData(1, 11, 2, 12);
            var block3, block4 := Header(3, 13, 12, 7, 0, []), Header(4, 14, 13, 7, 0, []);
            var vote := VoteOf(F.Config({70}, {}, 10), block3, Alone(older));
            var net := Lookups(map[13 := block3], map[12 := Alone(older), 13 := Alone(older), 14 := Alone(newer)],
                               map[13 := [SignedVote(vote)]]);
            Assemble(spec, net, Alone(newer), block4, 5, timestamp) == Failed(FetchVoteError)
  {
    var older, newer := VoteData(0, 10, 1, 11), VoteData(1, 11, 2, 12);
    var block3, block4 := Header(3, 13, 12, 7, 0, []), Header(4, 14, 13, 7, 0, []);
    var vote := VoteOf(F.Config({70}, {}, 10), block3, Alone(older));
    var net := Lookups(map[13 := block3], map[12 := Alone(older), 13 := Alone(older), 14 := Alone(newer)],
                       map[13 := [SignedVote(vote)]]);
    assert SearchTarget(net, 2, block3, 2) == Found(block3, Alone(older));
    assert SearchTarget(net, 2, block4, 3) == SearchTarget(net, 2, block3, 2);
    assert [SignedVote(vote)][0].data.sourceHash == 11;
  }
}
