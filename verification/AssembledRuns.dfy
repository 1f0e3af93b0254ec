/**
 Continuations of a finality run in which every new block carries only an attestation
 that its producer can assemble from signed votes, and what such an attestation is
 worth. While nothing is justified, nothing ever will be.
 */
module AssembledRuns {
  import opened Types
  import opened Counting
  import opened Finality
  import opened Snapshots
  import A = Attestations
  import opened AcceptedBlocks

  // ---------------------------------------------------------------------------
  // What a block producer sees
  // ---------------------------------------------------------------------------

  /** The fork schedule, and a snapshot with the fixed validator set. */
  datatype World = World(spec: ChainSpec, roster: Snapshot)

  ghost predicate WorldOk(cfg: Config, w: World) {
    && cfg.WellFormed() && ZERO_VOTE_ADDRESS !in cfg.validators
    && A.TableOk(w.roster) && Lists(cfg, w.roster) && |w.roster.validators| <= A.BITSET_SIZE
  }

  function HeaderOf(nodes: map<Hash, Node>, h: Hash): Header
    requires h in nodes
  {
    Header(nodes[h].number, h, nodes[h].parent, DEFAULT_ADDRESS, 0, [])
  }

  /** The snapshot of block h: the fixed set and the vote data of the tree. */
  function SnapOf(w: World, nodes: map<Hash, Node>, h: Hash): Snapshot
    requires h in nodes
  {
    w.roster.(blockNumber := nodes[h].number, blockHash := h, voteData := nodes[h].votes)
  }

  type Pool = map<Hash, seq<A.VoteEnvelope>>

  function NetOf(w: World, nodes: map<Hash, Node>, pool: Pool): A.Lookups {
    A.Lookups(map h | h in nodes :: HeaderOf(nodes, h), map h | h in nodes :: SnapOf(w, nodes, h), pool)
  }

  /** A genuine vote for block h that was really signed. */
  ghost predicate FromBallot(st: State, h: Hash, e: A.VoteEnvelope) {
    && e.voteAddress != ZERO_VOTE_ADDRESS && e.signature == Signature(e.voteAddress, e.data)
    && e.data.targetHash == h && Ballot(e.voteAddress, e.data) in st.signed
  }

  /** The pool holds some of the votes signed so far, each under its target. */
  ghost predicate PoolOk(st: State, pool: Pool) {
    forall h, i :: h in pool && 0 <= i < |pool[h]| ==> FromBallot(st, h, pool[h][i])
  }

  /** What the assembler returns for the block on top of p. */
  function AssembledOn(w: World, nodes: map<Hash, Node>, pool: Pool, p: Hash, timestamp: nat): A.Outcome
    requires p in nodes
  {
    A.Assemble(w.spec, NetOf(w, nodes, pool), SnapOf(w, nodes, p), HeaderOf(nodes, p), nodes[p].number + 1, timestamp)
  }

  /** The validators the bits of an attestation name. */
  ghost function Signers(w: World, a: VoteAttestation): set<VoteAddress> {
    var keys := A.NamedKeys(w.roster, a.voteAddressSet, |w.roster.validators|);
    if keys.None? then {} else set k | k in keys.value
  }

  /** The attestation, if there is one, is what the assembler makes of a pool of signed votes. */
  ghost predicate Produced(w: World, st: State, p: Hash, fermi: bool, a: Option<Attestation>) {
    a.Some? ==> p in st.nodes && exists pool, timestamp :: ProducedFrom(w, st, p, fermi, a.value, pool, timestamp)
  }

  ghost predicate ProducedFrom(w: World, st: State, p: Hash, fermi: bool, a: Attestation, pool: Pool, timestamp: nat)
    requires p in st.nodes
  {
    && PoolOk(st, pool)
    && fermi == w.spec.FermiActive(st.nodes[p].number + 1, timestamp)
    && var r := AssembledOn(w, st.nodes, pool, p, timestamp);
       r.Assembled? && a == Attestation(r.attestation.data, Signers(w, r.attestation))
  }

  // ---------------------------------------------------------------------------
  // Continuations of a run
  // ---------------------------------------------------------------------------

  /** A step of the system in which a new block carries only what its producer can assemble. */
  ghost predicate Allowed(cfg: Config, w: World, st: State, step: Step) {
    && Enabled(cfg, st, step)
    && (step.AddBlock? ==> Produced(w, st, step.parent, step.fermi, step.attestation))
  }

  /** The steps lead from st to st', each allowed in its turn. */
  ghost predicate Leads(cfg: Config, w: World, st: State, steps: seq<Step>, st': State)
    decreases |steps|
  {
    if steps == [] then st == st'
    else Allowed(cfg, w, st, steps[0]) && Leads(cfg, w, After(cfg, st, steps[0]), steps[1..], st')
  }

  /** Only new blocks and honest votes. */
  ghost predicate NoForging(steps: seq<Step>) {
    forall s :: s in steps ==> s.AddBlock? || s.Vote?
  }

  lemma {:induction false} LeadsJoin(cfg: Config, w: World, a: State, s: seq<Step>, b: State, t: seq<Step>, c: State)
    requires Leads(cfg, w, a, s, b) && Leads(cfg, w, b, t, c)
    ensures Leads(cfg, w, a, s + t, c)
    decreases |s|
  {
    if s == [] {
      assert s + t == t;
    } else {
      LeadsJoin(cfg, w, After(cfg, a, s[0]), s[1..], b, t, c);
      assert (s + t)[1..] == s[1..] + t;
    }
  }

  lemma StepLeads(cfg: Config, w: World, st: State, step: Step)
    requires Allowed(cfg, w, st, step)
    ensures Leads(cfg, w, st, [step], After(cfg, st, step))
  {
    assert [step][1..] == [];
  }

  // ---------------------------------------------------------------------------
  // What comes out of the assembler
  // ---------------------------------------------------------------------------

  /** A key the bits name belongs to a validator whose bit is set. */
  lemma {:induction false} NamedHasBit(s: Snapshot, bits: seq<bool>, k: nat, key: VoteAddress) returns (i: nat)
    requires k <= |s.validators| && A.NamedKeys(s, bits, k).Some? && key in A.NamedKeys(s, bits, k).value
    ensures i < k && A.BitSet(bits, i) && s.validators[i] in s.validatorsMap && A.KeyAt(s, i) == key
  {
    var before := A.NamedKeys(s, bits, k - 1);
    if key in before.value {
      i := NamedHasBit(s, bits, k - 1, key);
    } else {
      i := k - 1;
    }
  }

  /** The votes of an aggregate that was assembled are a quorum of signed votes of validators. */
  lemma AggregateIsSigned(cfg: Config, w: World, st: State, h: Hash, votes: seq<A.VoteEnvelope>, data: VoteData)
    requires WorldOk(cfg, w)
    requires forall i :: 0 <= i < |votes| ==> FromBallot(st, h, votes[i])
    requires A.AggregateVotes(w.roster, votes, data).Assembled?
    ensures var signers := Signers(w, A.AggregateVotes(w.roster, votes, data).attestation);
            && signers <= cfg.validators && |signers| >= Quorum(|cfg.validators|)
            && forall v :: v in signers ==> Ballot(v, data) in st.signed
  {
    var s, a := w.roster, A.AggregateVotes(w.roster, votes, data).attestation;
    var n := |s.validators|;
    A.AttestationIsSound(s, votes, data);
    A.AggregateVerifies(s, votes, data);
    NamedKeysAreKeys(s, a.voteAddressSet, n);
    var named := A.NamedKeys(s, a.voteAddressSet, n).value;
    DistinctCount(named, Signers(w, a));
    DistinctCount(Keys(s), cfg.validators);
    assert Keys(s)[..n] == Keys(s);
    forall v | v in Signers(w, a)
      ensures Ballot(v, data) in st.signed
    {
      var i := NamedHasBit(s, a.voteAddressSet, n, v);
      assert A.HasVote(s, votes, data, i);
      var j :| 0 <= j < |votes| && votes[j].voteAddress == A.KeyAt(s, i) && votes[j].data == data;
      assert FromBallot(st, h, votes[j]);
    }
  }

  /** The set does not depend on the vote data of the snapshot. */
  lemma SameRoster(w: World, nodes: map<Hash, Node>, h: Hash, votes: seq<A.VoteEnvelope>, data: VoteData)
    requires h in nodes
    ensures A.AggregateVotes(SnapOf(w, nodes, h), votes, data) == A.AggregateVotes(w.roster, votes, data)
  {
    SameUnique(w, nodes, h, votes);
    SameOrdered(w, nodes, h, A.UniqueVotes(w.roster, votes), |w.roster.validators|);
  }

  lemma {:induction false} SameUnique(w: World, nodes: map<Hash, Node>, h: Hash, votes: seq<A.VoteEnvelope>)
    requires h in nodes
    ensures A.UniqueVotes(SnapOf(w, nodes, h), votes) == A.UniqueVotes(w.roster, votes)
  {
    if votes != [] {
      SameUnique(w, nodes, h, votes[..|votes| - 1]);
    }
  }

  lemma {:induction false} SameOrdered(w: World, nodes: map<Hash, Node>, h: Hash, unique: map<VoteAddress, Signature>, k: nat)
    requires h in nodes && k <= |w.roster.validators|
    ensures A.Ordered(SnapOf(w, nodes, h), unique, k) == A.Ordered(w.roster, unique, k)
  {
    if k > 0 {
      SameOrdered(w, nodes, h, unique, k - 1);
    }
  }

  /** The snapshot the search returns is that of a block of the tree. */
  lemma {:induction false} SearchStaysInTree(w: World, nodes: map<Hash, Node>, pool: Pool, justified: nat, from: Header, times: nat)
    requires A.SearchTarget(NetOf(w, nodes, pool), justified, from, times).Found?
    ensures var f := A.SearchTarget(NetOf(w, nodes, pool), justified, from, times);
            f.target.parentHash in nodes && f.snap == SnapOf(w, nodes, f.target.parentHash)
    decreases times
  {
    var net := NetOf(w, nodes, pool);
    if |net.VotesFor(from.hash)| < Quorum(|net.snaps[from.parentHash].validators|) {
      SearchStaysInTree(w, nodes, pool, justified, net.headers[from.parentHash], times - 1);
    }
  }

  /** Whatever the assembler returns is backed by a quorum of signed votes, from the recorded source. */
  lemma AssembledIsSigned(cfg: Config, w: World, st: State, pool: Pool, p: Hash, timestamp: nat)
    requires WorldOk(cfg, w) && p in st.nodes && PoolOk(st, pool)
    requires AssembledOn(w, st.nodes, pool, p, timestamp).Assembled?
    ensures var a := AssembledOn(w, st.nodes, pool, p, timestamp).attestation;
            && Signers(w, a) <= cfg.validators && |Signers(w, a)| >= Quorum(|cfg.validators|)
            && (forall v :: v in Signers(w, a) ==> Ballot(v, a.data) in st.signed)
            && Source(a.data) == Target(st.nodes[p].votes)
  {
    var votes := st.nodes[p].votes;
    var net := NetOf(w, st.nodes, pool);
    var depth := Depth(w.spec.FermiActive(st.nodes[p].number + 1, timestamp));
    SearchStaysInTree(w, st.nodes, pool, votes.targetNumber, HeaderOf(st.nodes, p), depth);
    var f := A.SearchTarget(net, votes.targetNumber, HeaderOf(st.nodes, p), depth);
    var data := VoteData(votes.targetNumber, votes.targetHash, f.target.number, f.target.hash);
    SameRoster(w, st.nodes, f.target.parentHash, net.VotesFor(f.target.hash), data);
    AggregateIsSigned(cfg, w, st, f.target.hash, net.VotesFor(f.target.hash), data);
  }

  // ---------------------------------------------------------------------------
  // Nothing justified, nothing ever
  // ---------------------------------------------------------------------------

  /** No snapshot of the tree records a justified block. */
  ghost predicate NothingRecorded(nodes: map<Hash, Node>) {
    forall h :: h in nodes ==> nodes[h].votes == NO_VOTES
  }

  /** On a block with no justified block recorded the assembler returns nothing, whatever is in the pool. */
  lemma NothingAssembles(cfg: Config, w: World, st: State, pool: Pool, p: Hash, timestamp: nat)
    requires WorldOk(cfg, w) && Inv(cfg, st) && p in st.nodes && PoolOk(st, pool)
    requires st.nodes[p].votes == NO_VOTES
    ensures !AssembledOn(w, st.nodes, pool, p, timestamp).Assembled?
  {
    if AssembledOn(w, st.nodes, pool, p, timestamp).Assembled? {
      AssembledIsSigned(cfg, w, st, pool, p, timestamp);
      var a := AssembledOn(w, st.nodes, pool, p, timestamp).attestation;
      SubsetIsSmaller(Signers(w, a), Voters(cfg, st.signed, a.data));
      SupportedIsHonest(cfg, st, a.data);
      assert false;
    }
  }

  lemma NothingRecordedStays(cfg: Config, w: World, st: State, step: Step)
    requires WorldOk(cfg, w) && Inv(cfg, st) && NothingRecorded(st.nodes) && Allowed(cfg, w, st, step)
    ensures NothingRecorded(After(cfg, st, step).nodes)
  {
    if step.AddBlock? && step.attestation.Some? {
      var pool, timestamp :|
        ProducedFrom(w, st, step.parent, step.fermi, step.attestation.value, pool, timestamp);
      NothingAssembles(cfg, w, st, pool, step.parent, timestamp);
      assert false;
    }
  }

  /**
   As long as nothing is justified, nothing ever will be: not by honest votes, not by
   forged ones, and not after any restart, if attestations come from the assembler.
   */
  lemma {:induction false} NothingIsEverJustified(cfg: Config, w: World, st: State, more: seq<Step>, st': State)
    requires WorldOk(cfg, w) && Inv(cfg, st) && NothingRecorded(st.nodes) && Leads(cfg, w, st, more, st')
    ensures NothingRecorded(st'.nodes)
    decreases |more|
  {
    if more != [] {
      NothingRecordedStays(cfg, w, st, more[0]);
      StepKeepsInvariant(cfg, st, more[0]);
      NothingIsEverJustified(cfg, w, After(cfg, st, more[0]), more[1..], st');
    }
  }
}
