/**
 Progress of fast finality when attestations come out of the assembler: once a block is
 justified, the honest validators alone, voting through their journals, can always
 finalize a new one.
 */
module FinalityProgress {
  import opened Types
  import opened Counting
  import opened VoteJournal
  import opened Finality
  import opened AcceptedBlocks
  import opened AssembledRuns
  import A = Attestations
  import P = ProducedVotes
  import J = JournalSafety

  // ---------------------------------------------------------------------------
  // Fresh hashes and honest quorums
  // ---------------------------------------------------------------------------

  lemma FreshHash(used: set<Hash>) returns (h: Hash)
    ensures h !in used && h != ZERO_HASH
  {
    var candidates := Interval(1, |used| + 1);
    if candidates <= used {
      SubsetIsSmaller(candidates, used);
      assert false;
    }
    h :| h in candidates && h !in used;
  }

  ghost function HonestOnes(cfg: Config): set<Validator> {
    cfg.validators - cfg.faulty
  }

  lemma HonestAreAQuorum(cfg: Config)
    requires cfg.WellFormed()
    ensures |HonestOnes(cfg)| >= Quorum(|cfg.validators|)
  {
    assert cfg.validators == HonestOnes(cfg) + cfg.faulty;
  }

  // ---------------------------------------------------------------------------
  // A vote that goes through
  // ---------------------------------------------------------------------------

  /** No snapshot of the tree records a higher justified block than the one of b. */
  ghost predicate TopJustified(cfg: Config, nodes: map<Hash, Node>, b: Hash) {
    && b in nodes
    && forall h :: h in nodes ==>
         ProducerSource(cfg, nodes[h].votes).number <= ProducerSource(cfg, nodes[b].votes).number
  }

  ghost predicate VotedBelow(st: State, v: Validator, t: nat) {
    forall d :: Ballot(v, d) in st.signed ==> d.targetNumber < t
  }

  ghost predicate AllVotedBelow(cfg: Config, st: State, t: nat) {
    forall v :: cfg.Honest(v) ==> VotedBelow(st, v, t)
  }

  /** Block b is where the next votes can go. */
  ghost predicate Votable(cfg: Config, nodes: map<Hash, Node>, b: Hash) {
    && TopJustified(cfg, nodes, b)
    && 1 <= nodes[b].number
  }

  /** Moreover the assembler can attest b: a justified block is on record, and the next block is block 3 or later. */
  ghost predicate Ready(cfg: Config, nodes: map<Hash, Node>, b: Hash) {
    Votable(cfg, nodes, b) && nodes[b].votes.targetHash != ZERO_HASH && nodes[b].number >= 2
  }

  lemma CachedWasVoted(st: J.JournalState, x: nat)
    requires J.IsTail(st.cache, st.votes) && x in st.cache.entries
    ensures st.cache.entries[x] in st.votes && st.cache.entries[x].targetNumber == x
  {
    var tail := LastN(st.votes, MAX_RECENT_ENTRIES);
    var i := J.CachedPosition(st.cache, tail, x);
    assert tail[i] in st.votes;
  }

  /** A vote that starts no lower and ends higher than all earlier ones is allowed and protected. */
  lemma HighVotePasses(journal: J.JournalState, data: VoteData)
    requires J.IsTail(journal.cache, journal.votes)
    requires forall i :: 0 <= i < |journal.votes| ==>
               journal.votes[i].targetNumber < data.targetNumber && journal.votes[i].sourceNumber <= data.sourceNumber
    ensures J.Near(journal.votes, data.targetNumber, J.MEMORY_LAG) && J.Covered(journal.votes, data)
    ensures UnderRules(journal.cache.entries, data.sourceNumber, data.targetNumber)
  {
    forall x | x in journal.cache.entries
      ensures x < data.targetNumber && journal.cache.entries[x].sourceNumber <= data.sourceNumber
    {
      CachedWasVoted(journal, x);
    }
  }

  /** The earlier votes of an honest validator end below b and start no higher than b's source. */
  lemma VotesAreOlder(cfg: Config, st: State, v: Validator, b: Hash)
    requires Inv(cfg, st) && Votable(cfg, st.nodes, b) && cfg.Honest(v) && v in st.journals
    requires VotedBelow(st, v, st.nodes[b].number)
    ensures forall i :: 0 <= i < |st.journals[v].votes| ==>
              && st.journals[v].votes[i].targetNumber < st.nodes[b].number
              && st.journals[v].votes[i].sourceNumber <= ProducerSource(cfg, st.nodes[b].votes).number
  {
    var votes := st.journals[v].votes;
    forall i | 0 <= i < |votes|
      ensures votes[i].targetNumber < st.nodes[b].number
      ensures votes[i].sourceNumber <= ProducerSource(cfg, st.nodes[b].votes).number
    {
      var d := votes[i];
      assert d in votes && Ballot(v, d) in st.signed;
      assert d == BallotFor(cfg, d.targetHash, st.nodes[d.targetHash]);
    }
  }

  lemma VoteGoesThrough(cfg: Config, st: State, v: Validator, b: Hash)
    requires cfg.WellFormed() && Inv(cfg, st) && Votable(cfg, st.nodes, b)
    requires cfg.Honest(v) && VotedBelow(st, v, st.nodes[b].number)
    ensures Enabled(cfg, st, Vote(v, b))
    ensures After(cfg, st, Vote(v, b)).nodes == st.nodes
    ensures After(cfg, st, Vote(v, b)).signed == st.signed + {Ballot(v, BallotFor(cfg, b, st.nodes[b]))}
  {
    assert J.SafeInv(st.journals[v]);
    VotesAreOlder(cfg, st, v, b);
    HighVotePasses(st.journals[v], BallotFor(cfg, b, st.nodes[b]));
  }

  lemma OneVote(cfg: Config, w: World, st: State, v: Validator, b: Hash) returns (next: State)
    requires cfg.WellFormed() && Inv(cfg, st) && Votable(cfg, st.nodes, b)
    requires cfg.Honest(v) && VotedBelow(st, v, st.nodes[b].number)
    ensures Leads(cfg, w, st, [Vote(v, b)], next) && Inv(cfg, next) && next.nodes == st.nodes
    ensures next.signed == st.signed + {Ballot(v, BallotFor(cfg, b, st.nodes[b]))}
  {
    VoteGoesThrough(cfg, st, v, b);
    StepKeepsInvariant(cfg, st, Vote(v, b));
    StepLeads(cfg, w, st, Vote(v, b));
    next := After(cfg, st, Vote(v, b));
  }

  /** The others have still voted below b. */
  lemma OthersStillBelow(st: State, next: State, v: Validator, data: VoteData, u: Validator, t: nat)
    requires u != v && VotedBelow(st, u, t) && next.signed == st.signed + {Ballot(v, data)}
    ensures VotedBelow(next, u, t)
  {
    forall d | Ballot(u, d) in next.signed
      ensures d.targetNumber < t
    {
      assert Ballot(u, d) in st.signed;
    }
  }

  /** From st to st' only votes for data were signed, by all of these validators at least. */
  ghost predicate Signed(st: State, st': State, voters: set<Validator>, data: VoteData) {
    && st'.nodes == st.nodes
    && (forall v :: v in voters ==> Ballot(v, data) in st'.signed)
    && (forall w :: w in st'.signed ==> w in st.signed || w.data == data)
    && st.signed <= st'.signed
  }

  lemma SignedJoin(st: State, next: State, st': State, v: Validator, voters: set<Validator>, data: VoteData)
    requires next.nodes == st.nodes && next.signed == st.signed + {Ballot(v, data)}
    requires Signed(next, st', voters - {v}, data)
    ensures Signed(st, st', voters, data)
  {
  }

  /** The validators in rest vote for b, one after the other. */
  lemma {:induction false} AllVote(cfg: Config, w: World, st: State, b: Hash, rest: set<Validator>)
    returns (steps: seq<Step>, st': State)
    requires cfg.WellFormed() && Inv(cfg, st) && Votable(cfg, st.nodes, b)
    requires forall v :: v in rest ==> cfg.Honest(v) && VotedBelow(st, v, st.nodes[b].number)
    ensures Leads(cfg, w, st, steps, st') && NoForging(steps) && Inv(cfg, st')
    ensures Signed(st, st', rest, BallotFor(cfg, b, st.nodes[b]))
    decreases |rest|
  {
    if rest == {} {
      steps, st' := [], st;
    } else {
      var data := BallotFor(cfg, b, st.nodes[b]);
      var v :| v in rest;
      var next := OneVote(cfg, w, st, v, b);
      forall u | u in rest - {v}
        ensures VotedBelow(next, u, st.nodes[b].number)
      {
        OthersStillBelow(st, next, v, data, u, st.nodes[b].number);
      }
      var later;
      later, st' := AllVote(cfg, w, next, b, rest - {v});
      steps := [Vote(v, b)] + later;
      LeadsJoin(cfg, w, st, [Vote(v, b)], next, later, st');
      SignedJoin(st, next, st', v, rest, data);
    }
  }

  // ---------------------------------------------------------------------------
  // The honest votes in the pool
  // ---------------------------------------------------------------------------

  /** The votes of the honest validators among keys, in their order. */
  ghost function HonestVotes(cfg: Config, keys: seq<VoteAddress>, data: VoteData): seq<A.VoteEnvelope> {
    if keys == [] then []
    else
      var init, key := HonestVotes(cfg, keys[..|keys| - 1], data), keys[|keys| - 1];
      if cfg.Honest(key) then init + [A.VoteEnvelope(key, Signature(key, data), data)] else init
  }

  ghost function HonestAt(cfg: Config, keys: seq<VoteAddress>): set<nat> {
    set i | 0 <= i < |keys| && cfg.Honest(keys[i])
  }

  lemma {:induction false} HonestVotesHold(cfg: Config, keys: seq<VoteAddress>, data: VoteData)
    ensures |HonestVotes(cfg, keys, data)| == |HonestAt(cfg, keys)|
    ensures forall i :: 0 <= i < |HonestVotes(cfg, keys, data)| ==> IsHonestVote(cfg, HonestVotes(cfg, keys, data)[i], data)
    ensures forall i :: 0 <= i < |keys| && cfg.Honest(keys[i]) ==>
              A.VoteEnvelope(keys[i], Signature(keys[i], data), data) in HonestVotes(cfg, keys, data)
  {
    if keys == [] {
      assert HonestAt(cfg, keys) == {};
    } else {
      var n := |keys| - 1;
      var init := keys[..n];
      HonestVotesHold(cfg, init, data);
      assert forall i :: 0 <= i < n ==> init[i] == keys[i];
      assert HonestAt(cfg, keys) == if cfg.Honest(keys[n]) then HonestAt(cfg, init) + {n} else HonestAt(cfg, init);
    }
  }

  ghost predicate IsHonestVote(cfg: Config, e: A.VoteEnvelope, data: VoteData) {
    cfg.Honest(e.voteAddress) && e.signature == Signature(e.voteAddress, data) && e.data == data
  }

  /** The positions of the honest validators are a quorum of positions. */
  lemma HonestPositions(cfg: Config, keys: seq<VoteAddress>)
    requires cfg.WellFormed() && Distinct(keys) && cfg.validators == set k | k in keys
    ensures |keys| == |cfg.validators| && |HonestAt(cfg, keys)| >= Quorum(|keys|)
  {
    HonestAreAQuorum(cfg);
    DistinctCount(keys, cfg.validators);
    PositionsCoverHonest(cfg, keys, HonestOnes(cfg));
  }

  lemma {:induction false} PositionsCoverHonest(cfg: Config, keys: seq<VoteAddress>, some: set<Validator>)
    requires forall v :: v in some ==> cfg.Honest(v) && v in keys
    ensures |HonestAt(cfg, keys)| >= |some|
  {
    if keys == [] {
      assert some == {};
    } else {
      var n := |keys| - 1;
      var init := keys[..n];
      assert forall i :: 0 <= i < n ==> init[i] == keys[i];
      assert keys == init + [keys[n]];
      PositionsCoverHonest(cfg, init, some - {keys[n]});
      assert HonestAt(cfg, keys) == if cfg.Honest(keys[n]) then HonestAt(cfg, init) + {n} else HonestAt(cfg, init);
    }
  }

  /** Once all honest validators have signed, a pool with their votes is a pool of signed votes. */
  lemma HonestPoolIsOk(cfg: Config, st: State, keys: seq<VoteAddress>, b: Hash, data: VoteData)
    requires data.targetHash == b && ZERO_VOTE_ADDRESS !in cfg.validators
    requires forall v :: cfg.Honest(v) ==> Ballot(v, data) in st.signed
    ensures PoolOk(st, map[b := HonestVotes(cfg, keys, data)])
  {
    var votes := HonestVotes(cfg, keys, data);
    HonestVotesHold(cfg, keys, data);
    forall i | 0 <= i < |votes|
      ensures FromBallot(st, b, votes[i])
    {
      assert IsHonestVote(cfg, votes[i], data);
    }
  }

  /** With enough votes for b the search on top of b ends at once. */
  lemma SearchFindsParent(w: World, nodes: map<Hash, Node>, b: Hash, votes: seq<A.VoteEnvelope>, justified: nat, fermi: bool)
    requires b in nodes && nodes[b].parent in nodes && |votes| >= Quorum(|w.roster.validators|)
    ensures A.SearchTarget(NetOf(w, nodes, map[b := votes]), justified, HeaderOf(nodes, b), Depth(fermi))
         == A.Found(HeaderOf(nodes, b), SnapOf(w, nodes, nodes[b].parent))
  {
    var net := NetOf(w, nodes, map[b := votes]);
    assert net.VotesFor(b) == votes;
  }

  /** That pool holds a quorum of the producer's votes for b. */
  lemma HonestPoolHasQuorum(cfg: Config, w: World, nodes: map<Hash, Node>, b: Hash, fermi: bool, votes: seq<A.VoteEnvelope>)
    requires WorldOk(cfg, w) && b in nodes && nodes[b].parent in nodes
    requires votes == HonestVotes(cfg, Keys(w.roster), BallotFor(cfg, b, nodes[b]))
    ensures |votes| >= Quorum(|w.roster.validators|)
    ensures P.QuorumInPool(cfg, NetOf(w, nodes, map[b := votes]), SnapOf(w, nodes, b), HeaderOf(nodes, b), fermi,
                           HeaderOf(nodes, b))
  {
    var data := BallotFor(cfg, b, nodes[b]);
    var keys, p := Keys(w.roster), nodes[b].parent;
    HonestVotesHold(cfg, keys, data);
    HonestPositions(cfg, keys);
    QuorumVoted(cfg, w, nodes, p, votes, data);
    SearchFindsParent(w, nodes, b, votes, nodes[b].votes.targetNumber, fermi);
    assert P.VoteOf(cfg, HeaderOf(nodes, b), SnapOf(w, nodes, b)) == data;
    assert |w.roster.validators| == |keys| >= 1;
  }

  lemma QuorumVoted(cfg: Config, w: World, nodes: map<Hash, Node>, p: Hash, votes: seq<A.VoteEnvelope>, data: VoteData)
    requires WorldOk(cfg, w) && p in nodes
    requires votes == HonestVotes(cfg, Keys(w.roster), data)
    requires |HonestAt(cfg, Keys(w.roster))| >= Quorum(|w.roster.validators|)
    ensures |P.VotersAt(SnapOf(w, nodes, p), votes, data)| >= Quorum(|w.roster.validators|)
  {
    var snap, keys := SnapOf(w, nodes, p), Keys(w.roster);
    HonestVotesHold(cfg, keys, data);
    forall i | i in HonestAt(cfg, keys)
      ensures i in P.VotersAt(snap, votes, data)
    {
      var e := A.VoteEnvelope(keys[i], Signature(keys[i], data), data);
      assert e in votes;
      var j :| 0 <= j < |votes| && votes[j] == e;
      assert A.KeyAt(snap, i) == keys[i];
    }
    SubsetIsSmaller(HonestAt(cfg, keys), P.VotersAt(snap, votes, data));
  }

  // ---------------------------------------------------------------------------
  // A round: everyone votes for b, and a child of b carries the attestation
  // ---------------------------------------------------------------------------

  /** The votes of a child of b that attests b. */
  function Attested(cfg: Config, nodes: map<Hash, Node>, b: Hash): VoteData
    requires b in nodes
  {
    var data := BallotFor(cfg, b, nodes[b]);
    if data.sourceNumber + 1 == data.targetNumber then data
    else nodes[b].votes.(targetNumber := data.targetNumber, targetHash := data.targetHash)
  }

  /** With the honest votes in the pool the assembler attests b. */
  lemma PoolAssembles(cfg: Config, w: World, nodes: map<Hash, Node>, b: Hash, votes: seq<A.VoteEnvelope>, timestamp: nat)
    requires WorldOk(cfg, w) && b in nodes && nodes[b].parent in nodes
    requires nodes[b].votes.targetHash != ZERO_HASH && nodes[b].number >= 2 && w.spec.LubanActive(nodes[b].number + 1)
    requires votes == HonestVotes(cfg, Keys(w.roster), BallotFor(cfg, b, nodes[b]))
    ensures AssembledOn(w, nodes, map[b := votes], b, timestamp).Assembled?
    ensures AssembledOn(w, nodes, map[b := votes], b, timestamp).attestation.data == BallotFor(cfg, b, nodes[b])
  {
    var fermi := w.spec.FermiActive(nodes[b].number + 1, timestamp);
    var net := NetOf(w, nodes, map[b := votes]);
    HonestPoolHasQuorum(cfg, w, nodes, b, fermi, votes);
    P.ParentVotesAssemble(w.spec, cfg, net, SnapOf(w, nodes, b), HeaderOf(nodes, b), nodes[b].number + 1, timestamp);
    SearchFindsParent(w, nodes, b, votes, nodes[b].votes.targetNumber, fermi);
  }

  lemma HonestVotesAssemble(cfg: Config, w: World, st: State, b: Hash, timestamp: nat) returns (pool: Pool)
    requires WorldOk(cfg, w) && TreeOk(cfg, st.nodes) && b in st.nodes
    requires st.nodes[b].votes.targetHash != ZERO_HASH && st.nodes[b].number >= 2
    requires w.spec.LubanActive(st.nodes[b].number + 1)
    requires forall v :: cfg.Honest(v) ==> Ballot(v, BallotFor(cfg, b, st.nodes[b])) in st.signed
    ensures PoolOk(st, pool)
    ensures AssembledOn(w, st.nodes, pool, b, timestamp).Assembled?
    ensures AssembledOn(w, st.nodes, pool, b, timestamp).attestation.data == BallotFor(cfg, b, st.nodes[b])
  {
    var data := BallotFor(cfg, b, st.nodes[b]);
    var votes := HonestVotes(cfg, Keys(w.roster), data);
    pool := map[b := votes];
    HonestPoolIsOk(cfg, st, Keys(w.roster), b, data);
    assert NodeOk(cfg, st.nodes, b);
    PoolAssembles(cfg, w, st.nodes, b, votes, timestamp);
  }

  /** What the assembler returns for b passes verification in the next block. */
  lemma AssembledPasses(cfg: Config, w: World, st: State, pool: Pool, b: Hash, timestamp: nat)
    requires WorldOk(cfg, w) && Inv(cfg, st) && b in st.nodes && PoolOk(st, pool)
    requires AssembledOn(w, st.nodes, pool, b, timestamp).Assembled?
    requires AssembledOn(w, st.nodes, pool, b, timestamp).attestation.data == BallotFor(cfg, b, st.nodes[b])
    ensures var r := AssembledOn(w, st.nodes, pool, b, timestamp).attestation;
            Verified(cfg, st, st.nodes[b], w.spec.FermiActive(st.nodes[b].number + 1, timestamp),
                     Attestation(r.data, Signers(w, r)))
  {
    AssembledIsSigned(cfg, w, st, pool, b, timestamp);
    SourcesAgree(cfg, st, b);
    assert NodeOk(cfg, st.nodes, b);
  }

  lemma ChildIsAttested(cfg: Config, nodes: map<Hash, Node>, h: Hash, b: Hash, fermi: bool, signers: set<Validator>)
    requires b in nodes && b != ZERO_HASH
    requires nodes[b].votes.targetHash != ZERO_HASH
    ensures Child(nodes, h, b, fermi, Some(Attestation(BallotFor(cfg, b, nodes[b]), signers))).votes == Attested(cfg, nodes, b)
  {
  }

  /** A block that attests b enters the tree. */
  lemma AttestBlock(cfg: Config, w: World, st: State, b: Hash, timestamp: nat) returns (step: Step, h: Hash)
    requires WorldOk(cfg, w) && Inv(cfg, st) && b in st.nodes
    requires st.nodes[b].votes.targetHash != ZERO_HASH && st.nodes[b].number >= 2
    requires w.spec.LubanActive(st.nodes[b].number + 1)
    requires forall v :: cfg.Honest(v) ==> Ballot(v, BallotFor(cfg, b, st.nodes[b])) in st.signed
    ensures Allowed(cfg, w, st, step) && step.AddBlock? && After(cfg, st, step).signed == st.signed
    ensures h !in st.nodes && h in After(cfg, st, step).nodes
    ensures After(cfg, st, step).nodes == st.nodes[h := After(cfg, st, step).nodes[h]]
    ensures After(cfg, st, step).nodes[h].number == st.nodes[b].number + 1
    ensures After(cfg, st, step).nodes[h].votes == Attested(cfg, st.nodes, b)
  {
    h := FreshHash(st.nodes.Keys);
    var pool := HonestVotesAssemble(cfg, w, st, b, timestamp);
    AssembledPasses(cfg, w, st, pool, b, timestamp);
    var r := AssembledOn(w, st.nodes, pool, b, timestamp).attestation;
    var fermi := w.spec.FermiActive(st.nodes[b].number + 1, timestamp);
    var a := Attestation(r.data, Signers(w, r));
    step := AddBlock(h, b, fermi, Some(a));
    assert ProducedFrom(w, st, b, fermi, a, pool, timestamp);
    assert NodeOk(cfg, st.nodes, b);
    ChildIsAttested(cfg, st.nodes, h, b, fermi, a.signers);
  }

  /** Once b is attested, the attesting child is ready for the next votes. */
  lemma AttestedIsReady(cfg: Config, st: State, st': State, b: Hash, h: Hash)
    requires Ready(cfg, st.nodes, b) && b != ZERO_HASH
    requires ProducerSource(cfg, st.nodes[b].votes).number < st.nodes[b].number
    requires h !in st.nodes && h in st'.nodes && st'.nodes == st.nodes[h := st'.nodes[h]]
    requires st'.nodes[h].number == st.nodes[b].number + 1
    requires st'.nodes[h].votes == Attested(cfg, st.nodes, b)
    ensures Ready(cfg, st'.nodes, h)
    ensures ProducerSource(cfg, st'.nodes[h].votes) == Checkpoint(st.nodes[b].number, b)
  {
  }

  /** The block after the votes. */
  lemma AttestRound(cfg: Config, w: World, st: State, b: Hash, timestamp: nat) returns (step: Step, st': State, h: Hash)
    requires WorldOk(cfg, w) && Inv(cfg, st) && Ready(cfg, st.nodes, b) && w.spec.LubanActive(st.nodes[b].number + 1)
    requires forall v :: cfg.Honest(v) ==> Ballot(v, BallotFor(cfg, b, st.nodes[b])) in st.signed
    ensures Leads(cfg, w, st, [step], st') && step.AddBlock? && Inv(cfg, st') && st'.signed == st.signed
    ensures Ready(cfg, st'.nodes, h)
    ensures st'.nodes[h].number == st.nodes[b].number + 1
    ensures st'.nodes[h].votes == Attested(cfg, st.nodes, b)
    ensures ProducerSource(cfg, st'.nodes[h].votes) == Checkpoint(st.nodes[b].number, b)
  {
    step, h := AttestBlock(cfg, w, st, b, timestamp);
    st' := After(cfg, st, step);
    StepKeepsInvariant(cfg, st, step);
    StepLeads(cfg, w, st, step);
    assert VotesOk(cfg, st, b) && NodeOk(cfg, st.nodes, b);
    AttestedIsReady(cfg, st, st', b, h);
  }

  /** The honest votes of a round. */
  lemma VoteRound(cfg: Config, w: World, st: State, b: Hash) returns (votes: seq<Step>, voted: State)
    requires WorldOk(cfg, w) && Inv(cfg, st) && Votable(cfg, st.nodes, b)
    requires AllVotedBelow(cfg, st, st.nodes[b].number)
    ensures Leads(cfg, w, st, votes, voted) && NoForging(votes) && Inv(cfg, voted) && voted.nodes == st.nodes
    ensures forall v :: cfg.Honest(v) ==> Ballot(v, BallotFor(cfg, b, st.nodes[b])) in voted.signed
    ensures AllVotedBelow(cfg, voted, st.nodes[b].number + 1)
  {
    votes, voted := AllVote(cfg, w, st, b, HonestOnes(cfg));
    AfterRoundVotedBelow(cfg, st, voted, b);
  }

  /** A round in its two parts. */
  lemma CastAndAttest(cfg: Config, w: World, st: State, b: Hash, timestamp: nat)
    returns (votes: seq<Step>, voted: State, step: Step, st': State, h: Hash)
    requires WorldOk(cfg, w) && Inv(cfg, st) && Ready(cfg, st.nodes, b)
    requires AllVotedBelow(cfg, st, st.nodes[b].number) && w.spec.LubanActive(st.nodes[b].number + 1)
    ensures Leads(cfg, w, st, votes, voted) && NoForging(votes)
    ensures Leads(cfg, w, voted, [step], st') && step.AddBlock? && Inv(cfg, st')
    ensures Ready(cfg, st'.nodes, h) && AllVotedBelow(cfg, st', st.nodes[b].number + 1)
    ensures st'.nodes[h].number == st.nodes[b].number + 1
    ensures st'.nodes[h].votes == Attested(cfg, st.nodes, b)
    ensures ProducerSource(cfg, st'.nodes[h].votes) == Checkpoint(st.nodes[b].number, b)
  {
    votes, voted := VoteRound(cfg, w, st, b);
    step, st', h := AttestRound(cfg, w, voted, b, timestamp);
    BelowWithSameVotes(cfg, voted, st', st.nodes[b].number + 1);
  }

  lemma Round(cfg: Config, w: World, st: State, b: Hash, timestamp: nat)
    returns (steps: seq<Step>, st': State, h: Hash)
    requires WorldOk(cfg, w) && Inv(cfg, st) && Ready(cfg, st.nodes, b)
    requires AllVotedBelow(cfg, st, st.nodes[b].number) && w.spec.LubanActive(st.nodes[b].number + 1)
    ensures Leads(cfg, w, st, steps, st') && NoForging(steps) && Inv(cfg, st')
    ensures Ready(cfg, st'.nodes, h) && AllVotedBelow(cfg, st', st'.nodes[h].number)
    ensures st'.nodes[h].number == st.nodes[b].number + 1
    ensures st'.nodes[h].votes == Attested(cfg, st.nodes, b)
    ensures ProducerSource(cfg, st'.nodes[h].votes) == Checkpoint(st.nodes[b].number, b)
  {
    var votes, voted, step;
    votes, voted, step, st', h := CastAndAttest(cfg, w, st, b, timestamp);
    LeadsJoin(cfg, w, st, votes, voted, [step], st');
    steps := votes + [step];
  }

  lemma BelowWithSameVotes(cfg: Config, st: State, st': State, t: nat)
    requires AllVotedBelow(cfg, st, t) && st'.signed == st.signed
    ensures AllVotedBelow(cfg, st', t)
  {
    forall v | cfg.Honest(v)
      ensures VotedBelow(st', v, t)
    {
      assert VotedBelow(st, v, t);
    }
  }

  lemma AfterRoundVotedBelow(cfg: Config, st: State, st': State, b: Hash)
    requires b in st.nodes && AllVotedBelow(cfg, st, st.nodes[b].number)
    requires forall w :: w in st'.signed ==> w in st.signed || w.data == BallotFor(cfg, b, st.nodes[b])
    ensures AllVotedBelow(cfg, st', st.nodes[b].number + 1)
  {
    forall v, d | cfg.Honest(v) && Ballot(v, d) in st'.signed
      ensures d.targetNumber < st.nodes[b].number + 1
    {
      assert Ballot(v, d) in st.signed || d == BallotFor(cfg, b, st.nodes[b]);
      assert VotedBelow(st, v, st.nodes[b].number);
    }
  }

  // ---------------------------------------------------------------------------
  // From any reachable state
  // ---------------------------------------------------------------------------

  /** Empty blocks on top of b, up to height t. */
  lemma {:induction false} Extend(cfg: Config, w: World, st: State, b: Hash, t: nat)
    returns (steps: seq<Step>, st': State, h: Hash)
    requires cfg.WellFormed() && Inv(cfg, st) && TopJustified(cfg, st.nodes, b) && st.nodes[b].number <= t
    ensures Leads(cfg, w, st, steps, st') && NoForging(steps) && Inv(cfg, st')
    ensures TopJustified(cfg, st'.nodes, h) && st'.nodes[h].number == t
    ensures st'.nodes[h].votes == st.nodes[b].votes && st'.signed == st.signed
    decreases t - st.nodes[b].number
  {
    if st.nodes[b].number == t {
      steps, st', h := [], st, b;
    } else {
      var step, next, child := EmptyBlock(cfg, w, st, b);
      var later;
      later, st', h := Extend(cfg, w, next, child, t);
      LeadsJoin(cfg, w, st, [step], next, later, st');
      steps := [step] + later;
    }
  }

  lemma EmptyBlock(cfg: Config, w: World, st: State, b: Hash) returns (step: Step, next: State, child: Hash)
    requires cfg.WellFormed() && Inv(cfg, st) && TopJustified(cfg, st.nodes, b)
    ensures Leads(cfg, w, st, [step], next) && step.AddBlock? && Inv(cfg, next)
    ensures TopJustified(cfg, next.nodes, child) && next.nodes[child].number == st.nodes[b].number + 1
    ensures next.nodes[child].votes == st.nodes[b].votes && next.signed == st.signed
  {
    child := FreshHash(st.nodes.Keys);
    step := AddBlock(child, b, false, None);
    next := After(cfg, st, step);
    StepKeepsInvariant(cfg, st, step);
    StepLeads(cfg, w, st, step);
  }

  /** What is called finalized is at or below the highest justified block. */
  lemma FinalizedIsBelowTop(cfg: Config, st: State, b: Hash, g: Hash)
    requires cfg.WellFormed() && Inv(cfg, st) && TopJustified(cfg, st.nodes, b)
    requires g in st.nodes && FinalizedAt(st.nodes, g).Some?
    ensures FinalizedAt(st.nodes, g).value.number <= ProducerSource(cfg, st.nodes[b].votes).number
  {
    assert VotesOk(cfg, st, g);
  }

  /** Some snapshot calls a block of height t finalized. */
  ghost predicate FinalizesHeight(st: State, t: nat) {
    exists h :: h in st.nodes && FinalizedAt(st.nodes, h).Some? && FinalizedAt(st.nodes, h).value.number == t
  }

  /** Two rounds from a ready block finalize it. */
  lemma TwoRounds(cfg: Config, w: World, st: State, b: Hash, timestamp: nat) returns (more: seq<Step>, st': State)
    requires WorldOk(cfg, w) && Inv(cfg, st) && Ready(cfg, st.nodes, b)
    requires AllVotedBelow(cfg, st, st.nodes[b].number)
    requires w.spec.LubanActive(st.nodes[b].number + 1)
    ensures Leads(cfg, w, st, more, st') && NoForging(more) && FinalizesHeight(st', st.nodes[b].number)
  {
    var s1, st1, b1 := Round(cfg, w, st, b, timestamp);
    var s2, st2, b2 := Round(cfg, w, st1, b1, timestamp);
    LeadsJoin(cfg, w, st, s1, st1, s2, st2);
    more, st' := s1 + s2, st2;
    assert NodeOk(cfg, st.nodes, b);
    assert b2 in st2.nodes && FinalizedAt(st2.nodes, b2) == Some(Checkpoint(st.nodes[b].number, b));
  }

  /**
   Where a run can be taken up: b records the highest justified block, if any is
   recorded, and t is a height from b on that is above every honest vote so far.
   */
  ghost predicate TakenUp(cfg: Config, w: World, st: State, b: Hash, t: nat) {
    && TopJustified(cfg, st.nodes, b) && AllVotedBelow(cfg, st, t)
    && 2 <= t && st.nodes[b].number <= t
    && w.spec.LubanActive(t + 1)
  }

  /**
   Progress: in any reachable state with a justified block on record the run can go on,
   by honest votes and assembled blocks alone, until a block of height t is finalized,
   which is higher than anything finalized before.
   */
  lemma FinalityStaysPossible(cfg: Config, w: World, states: seq<State>, steps: seq<Step>, b: Hash, t: nat, timestamp: nat)
    returns (more: seq<Step>, st': State)
    requires WorldOk(cfg, w) && IsRun(cfg, states, steps)
    requires TakenUp(cfg, w, states[|steps|], b, t) && states[|steps|].nodes[b].votes.targetHash != ZERO_HASH
    ensures Leads(cfg, w, states[|steps|], more, st') && NoForging(more)
    ensures FinalizesHeight(st', t)
    ensures forall g :: g in states[|steps|].nodes && FinalizedAt(states[|steps|].nodes, g).Some? ==>
              FinalizedAt(states[|steps|].nodes, g).value.number < t
  {
    var st := states[|steps|];
    RunKeepsInvariant(cfg, states, steps, |steps|);
    var s0, st0, b0 := Extend(cfg, w, st, b, t);
    assert Ready(cfg, st0.nodes, b0);
    assert AllVotedBelow(cfg, st0, t);
    var s1, st1 := TwoRounds(cfg, w, st0, b0, timestamp);
    LeadsJoin(cfg, w, st, s0, st0, s1, st1);
    more, st' := s0 + s1, st1;
    NewHeightIsHigher(cfg, st, st0, b, b0, t);
  }

  /** The justified block, and with it everything finalized, is below the height the votes go to. */
  lemma NewHeightIsHigher(cfg: Config, st: State, st0: State, b: Hash, b0: Hash, t: nat)
    requires cfg.WellFormed() && Inv(cfg, st) && TopJustified(cfg, st.nodes, b)
    requires Inv(cfg, st0) && b0 in st0.nodes && st0.nodes[b0].number == t && t >= 1
    requires st0.nodes[b0].votes == st.nodes[b].votes
    ensures forall g :: g in st.nodes && FinalizedAt(st.nodes, g).Some? ==> FinalizedAt(st.nodes, g).value.number < t
  {
    assert VotesOk(cfg, st0, b0);
    forall g | g in st.nodes && FinalizedAt(st.nodes, g).Some?
      ensures FinalizedAt(st.nodes, g).value.number < t
    {
      FinalizedIsBelowTop(cfg, st, b, g);
    }
  }

  /** Some continuation with assembled attestations finalizes a block of height t. */
  ghost predicate CanFinalize(cfg: Config, w: World, st: State, t: nat) {
    exists more, st' :: Leads(cfg, w, st, more, st') && FinalizesHeight(st', t)
  }

  /**
   Exactly when there is progress: if b records a justified block whenever any block of
   the tree does, a block of height t can be finalized if and only if b records one.
   */
  lemma ProgressIsExact(cfg: Config, w: World, states: seq<State>, steps: seq<Step>, b: Hash, t: nat)
    requires WorldOk(cfg, w) && IsRun(cfg, states, steps) && TakenUp(cfg, w, states[|steps|], b, t)
    requires states[|steps|].nodes[b].votes.targetHash == ZERO_HASH ==> NothingRecorded(states[|steps|].nodes)
    ensures CanFinalize(cfg, w, states[|steps|], t) <==> states[|steps|].nodes[b].votes.targetHash != ZERO_HASH
  {
    var st := states[|steps|];
    RunKeepsInvariant(cfg, states, steps, |steps|);
    if st.nodes[b].votes.targetHash != ZERO_HASH {
      var more, st' := FinalityStaysPossible(cfg, w, states, steps, b, t, 0);
      assert Leads(cfg, w, st, more, st') && FinalizesHeight(st', t);
    } else if CanFinalize(cfg, w, st, t) {
      var more, st' :| Leads(cfg, w, st, more, st') && FinalizesHeight(st', t);
      NothingIsEverJustified(cfg, w, st, more, st');
      assert false;
    }
  }

  /** From the first state on, no run with assembled attestations ever justifies or finalizes anything. */
  lemma NothingFromGenesis(cfg: Config, w: World, more: seq<Step>, st': State)
    requires WorldOk(cfg, w) && Leads(cfg, w, Init(cfg), more, st')
    ensures forall h :: h in st'.nodes ==> st'.nodes[h].votes == NO_VOTES && FinalizedAt(st'.nodes, h).None?
  {
    InitIsOk(cfg);
    NothingIsEverJustified(cfg, w, Init(cfg), more, st');
  }

  lemma QuorumVoteVerifies(cfg: Config, st: State, b: Hash, signers: set<Validator>)
    requires cfg.WellFormed() && Inv(cfg, st) && b in st.nodes
    requires signers <= cfg.validators && |signers| >= Quorum(|cfg.validators|)
    requires forall v :: v in signers ==> Ballot(v, BallotFor(cfg, b, st.nodes[b])) in st.signed
    ensures Verified(cfg, st, st.nodes[b], false, Attestation(BallotFor(cfg, b, st.nodes[b]), signers))
  {
    SourcesAgree(cfg, st, b);
    assert NodeOk(cfg, st.nodes, b);
  }

  /** Block 1, with the votes of all honest validators. */
  lemma FirstVotes(cfg: Config, w: World) returns (more: seq<Step>, st: State, b: Hash)
    requires WorldOk(cfg, w)
    ensures Leads(cfg, w, Init(cfg), more, st) && NoForging(more) && Inv(cfg, st) && b in st.nodes
    ensures forall v :: cfg.Honest(v) ==> Ballot(v, BallotFor(cfg, b, st.nodes[b])) in st.signed
  {
    var st0 := Init(cfg);
    InitIsOk(cfg);
    var first, st1;
    first, st1, b := EmptyBlock(cfg, w, st0, cfg.genesis);
    var votes;
    votes, st := VoteRound(cfg, w, st1, b);
    LeadsJoin(cfg, w, st0, [first], st1, votes, st);
    more := [first] + votes;
  }

  /** A block with those votes would be added, whoever put them together. */
  lemma OutsideBlock(cfg: Config, st: State, b: Hash) returns (step: Step)
    requires cfg.WellFormed() && Inv(cfg, st) && b in st.nodes
    requires forall v :: cfg.Honest(v) ==> Ballot(v, BallotFor(cfg, b, st.nodes[b])) in st.signed
    ensures step.AddBlock? && Enabled(cfg, st, step) && !NothingRecorded(After(cfg, st, step).nodes)
  {
    HonestAreAQuorum(cfg);
    QuorumVoteVerifies(cfg, st, b, HonestOnes(cfg));
    var h := FreshHash(st.nodes.Keys);
    step := AddBlock(h, b, false, Some(Attestation(BallotFor(cfg, b, st.nodes[b]), HonestOnes(cfg))));
    assert NodeOk(cfg, st.nodes, b);
    assert After(cfg, st, step).nodes[h].votes.targetHash == b;
  }

  /**
   The votes are there and the verifier would take them: from the first state the honest
   validators can all vote for block 1, and a block with those votes, put together by
   something other than the assembler, would be added and would justify block 1.
   */
  lemma OutsideHelpStarts(cfg: Config, w: World) returns (more: seq<Step>, st: State, step: Step)
    requires WorldOk(cfg, w)
    ensures Leads(cfg, w, Init(cfg), more, st) && NoForging(more)
    ensures step.AddBlock? && Enabled(cfg, st, step) && !NothingRecorded(After(cfg, st, step).nodes)
  {
    var b;
    more, st, b := FirstVotes(cfg, w);
    step := OutsideBlock(cfg, st, b);
  }
}
