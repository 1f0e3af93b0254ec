/**
 Fast finality as a step system: a block tree that all nodes share, one vote journal
 per honest validator, and the set of all votes ever signed. Honest validators vote
 through the producer and the journal; faulty ones sign anything; a block enters the
 tree when its attestation passes verification.
 */
module Finality {
  import opened Types
  import opened VoteJournal
  import opened JournalSafety
  import opened Snapshots
  import opened Counting

  // ---------------------------------------------------------------------------
  // The system
  // ---------------------------------------------------------------------------

  type Validator = nat

  /** A fixed validator set of which fewer than a third are faulty. */
  datatype Config = Config(validators: set<Validator>, faulty: set<Validator>, genesis: Hash) {
    predicate WellFormed() {
      faulty <= validators && 3 * |faulty| < |validators| && genesis != ZERO_HASH
    }

    predicate Honest(v: Validator) {
      v in validators && v !in faulty
    }
  }

  /**
   A block: its height, its parent, the hashes of its ancestors by height (its own
   last), and the vote data of the snapshot after it.
   */
  datatype Node = Node(number: nat, parent: Hash, path: seq<Hash>, votes: VoteData)

  datatype Ballot = Ballot(validator: Validator, data: VoteData)

  datatype State = State(
    nodes: map<Hash, Node>,
    journals: map<Validator, JournalState>,
    signed: set<Ballot>
  )

  ghost function Init(cfg: Config): State {
    State(
      map[cfg.genesis := Node(0, ZERO_HASH, [cfg.genesis], NO_VOTES)],
      map v | v in cfg.validators && v !in cfg.faulty :: EMPTY_JOURNAL,
      {})
  }

  datatype Checkpoint = Checkpoint(number: nat, hash: Hash)

  /** The source the producer puts in a vote. */
  function ProducerSource(cfg: Config, votes: VoteData): Checkpoint {
    if votes.targetHash == ZERO_HASH then Checkpoint(0, cfg.genesis)
    else Checkpoint(votes.targetNumber, votes.targetHash)
  }

  /** The vote an honest validator makes for head. */
  function BallotFor(cfg: Config, head: Hash, node: Node): VoteData {
    var source := ProducerSource(cfg, node.votes);
    VoteData(source.number, source.hash, node.number, head)
  }

  /** The source the verifier insists on; it reads the number off the justified header. */
  function VerifierSource(cfg: Config, nodes: map<Hash, Node>, votes: VoteData): Option<Checkpoint> {
    if votes.sourceHash == ZERO_HASH && votes.targetHash == ZERO_HASH then Some(Checkpoint(0, cfg.genesis))
    else if votes.targetHash in nodes then Some(Checkpoint(nodes[votes.targetHash].number, votes.targetHash))
    else None
  }

  /** The target is the parent, or after Fermi one of the two blocks before it. */
  predicate TargetInReach(parent: Node, fermi: bool, data: VoteData) {
    && data.targetNumber <= parent.number < data.targetNumber + Depth(fermi)
    && data.targetNumber < |parent.path| && parent.path[data.targetNumber] == data.targetHash
  }

  ghost function Voters(cfg: Config, signed: set<Ballot>, data: VoteData): set<Validator> {
    set v | v in cfg.validators && Ballot(v, data) in signed
  }

  /** At least ceil(2N/3) validators signed data. */
  ghost predicate Supported(cfg: Config, signed: set<Ballot>, data: VoteData) {
    |Voters(cfg, signed, data)| >= Quorum(|cfg.validators|)
  }

  /** An attestation: the data and the validators its bit set names. */
  datatype Attestation = Attestation(data: VoteData, signers: set<Validator>)

  /** What verify_vote_attestation accepts, with ideal signatures. */
  ghost predicate Verified(cfg: Config, st: State, parent: Node, fermi: bool, a: Attestation) {
    && TargetInReach(parent, fermi, a.data)
    && VerifierSource(cfg, st.nodes, parent.votes) == Some(Checkpoint(a.data.sourceNumber, a.data.sourceHash))
    && a.signers <= cfg.validators
    && |a.signers| >= Quorum(|cfg.validators|)
    && forall v :: v in a.signers ==> Ballot(v, a.data) in st.signed
  }

  datatype Step =
    | AddBlock(hash: Hash, parent: Hash, fermi: bool, attestation: Option<Attestation>)
    | Vote(voter: Validator, head: Hash)
    | Forge(forger: Validator, data: VoteData)
    | Reboot(node: Validator)

  /**
   When a step may happen. A vote is only put to the rules while the journal's memory and
   windows reach far enough for it, in the sense of MEMORY_LAG and Covered.
   */
  ghost predicate Enabled(cfg: Config, st: State, step: Step) {
    match step
    case AddBlock(h, p, fermi, a) =>
      && h !in st.nodes && h != ZERO_HASH && p in st.nodes
      && (a.Some? ==> Verified(cfg, st, st.nodes[p], fermi, a.value))
    case Vote(v, head) =>
      && cfg.Honest(v) && v in st.journals && head in st.nodes
      && var data := BallotFor(cfg, head, st.nodes[head]);
         Near(st.journals[v].votes, data.targetNumber, MEMORY_LAG) && Covered(st.journals[v].votes, data)
    case Forge(v, _) => v in cfg.faulty
    case Reboot(v) => cfg.Honest(v) && v in st.journals
  }

  function Child(nodes: map<Hash, Node>, h: Hash, p: Hash, fermi: bool, a: Option<Attestation>): Node
    requires p in nodes
  {
    var parent := nodes[p];
    Node(parent.number + 1, p, parent.path + [h],
      if a.None? then parent.votes
      else VotesAfter(parent.votes, fermi, parent.number + 1, p, a.value.data))
  }

  ghost function After(cfg: Config, st: State, step: Step): State
    requires Enabled(cfg, st, step)
  {
    match step
    case AddBlock(h, p, fermi, a) => st.(nodes := st.nodes[h := Child(st.nodes, h, p, fermi, a)])
    case Vote(v, head) =>
      var data := BallotFor(cfg, head, st.nodes[head]);
      var allowed := UnderRules(st.journals[v].cache.entries, data.sourceNumber, data.targetNumber);
      st.(journals := st.journals[v := JournalSafety.Step(st.journals[v], Offer(data))],
          signed := if allowed then st.signed + {Ballot(v, data)} else st.signed)
    case Forge(v, data) => st.(signed := st.signed + {Ballot(v, data)})
    case Reboot(v) => st.(journals := st.journals[v := JournalSafety.Step(st.journals[v], Restart)])
  }

  /** A run: its first state is the initial one, and each state follows by an enabled step. */
  ghost predicate IsRun(cfg: Config, states: seq<State>, steps: seq<Step>) {
    && |states| == |steps| + 1
    && states[0] == Init(cfg)
    && forall i :: 0 <= i < |steps| ==>
         Enabled(cfg, states[i], steps[i]) && states[i + 1] == After(cfg, states[i], steps[i])
  }

  // ---------------------------------------------------------------------------
  // The tree
  // ---------------------------------------------------------------------------

  /** Block a is block b or an ancestor of it. */
  predicate OnPath(nodes: map<Hash, Node>, a: Checkpoint, b: Hash) {
    b in nodes && a.number < |nodes[b].path| && nodes[b].path[a.number] == a.hash
  }

  ghost predicate NodeOk(cfg: Config, nodes: map<Hash, Node>, h: Hash)
    requires h in nodes
  {
    var n := nodes[h];
    && h != ZERO_HASH
    && |n.path| == n.number + 1 && n.path[n.number] == h
    && (n.number == 0 ==> h == cfg.genesis)
    && (n.number > 0 ==>
          && n.parent in nodes && nodes[n.parent].number + 1 == n.number
          && n.path == nodes[n.parent].path + [h])
    && (forall k :: 0 <= k <= n.number ==> n.path[k] in nodes && nodes[n.path[k]].path == n.path[..k + 1])
  }

  ghost predicate TreeOk(cfg: Config, nodes: map<Hash, Node>) {
    && cfg.genesis in nodes && nodes[cfg.genesis] == Node(0, ZERO_HASH, [cfg.genesis], NO_VOTES)
    && forall h :: h in nodes ==> NodeOk(cfg, nodes, h)
  }

  lemma OnPathNumber(cfg: Config, nodes: map<Hash, Node>, a: Checkpoint, b: Hash)
    requires TreeOk(cfg, nodes) && OnPath(nodes, a, b)
    ensures a.hash in nodes && nodes[a.hash].number == a.number
    ensures a.number == 0 ==> a.hash == cfg.genesis
    ensures a.hash != ZERO_HASH
  {
    assert NodeOk(cfg, nodes, b);
    assert NodeOk(cfg, nodes, a.hash);
    assert |nodes[a.hash].path| == a.number + 1;
  }

  lemma OnPathTransitive(cfg: Config, nodes: map<Hash, Node>, a: Checkpoint, b: Checkpoint, c: Hash)
    requires TreeOk(cfg, nodes) && OnPath(nodes, a, b.hash) && OnPath(nodes, b, c)
    ensures OnPath(nodes, a, c)
  {
    OnPathNumber(cfg, nodes, b, c);
    assert NodeOk(cfg, nodes, c);
    assert NodeOk(cfg, nodes, b.hash);
    assert nodes[b.hash].path == nodes[c].path[..b.number + 1];
  }

  // ---------------------------------------------------------------------------
  // The invariant
  // ---------------------------------------------------------------------------

  /** The genesis block, or a block a quorum voted for. */
  ghost predicate Justified(cfg: Config, signed: set<Ballot>, c: Checkpoint) {
    c == Checkpoint(0, cfg.genesis) || exists d :: Justifies(cfg, signed, d, c)
  }

  ghost predicate Justifies(cfg: Config, signed: set<Ballot>, d: VoteData, c: Checkpoint) {
    Supported(cfg, signed, d) && d.targetNumber == c.number && d.targetHash == c.hash
  }

  /** A quorum voted from c to a block one height above it. */
  ghost predicate Finalizes(cfg: Config, signed: set<Ballot>, d: VoteData, c: Checkpoint) {
    && Supported(cfg, signed, d)
    && d.sourceNumber == c.number && d.sourceHash == c.hash && d.targetNumber == c.number + 1
  }

  function Source(d: VoteData): Checkpoint {
    Checkpoint(d.sourceNumber, d.sourceHash)
  }

  function Target(d: VoteData): Checkpoint {
    Checkpoint(d.targetNumber, d.targetHash)
  }

  /** The snapshot of block h records a justified block and a finalized block, both ancestors. */
  ghost predicate VotesOk(cfg: Config, st: State, h: Hash)
    requires h in st.nodes
  {
    var n := st.nodes[h];
    var justified := ProducerSource(cfg, n.votes);
    && OnPath(st.nodes, justified, h)
    && (n.number > 0 ==> justified.number < n.number)
    && Justified(cfg, st.signed, justified)
    && (n.votes.targetHash == ZERO_HASH ==> n.votes == NO_VOTES)
    && n.votes.sourceNumber <= n.votes.targetNumber
    && (n.votes.sourceHash != ZERO_HASH ==>
          && OnPath(st.nodes, Source(n.votes), h)
          && exists d :: Finalizes(cfg, st.signed, d, Source(n.votes)))
  }

  /** Along a chain neither the justified nor the finalized number goes down. */
  ghost predicate Monotone(nodes: map<Hash, Node>, h: Hash)
    requires h in nodes
  {
    var n := nodes[h];
    n.number > 0 && n.parent in nodes ==>
      && nodes[n.parent].votes.targetNumber <= n.votes.targetNumber
      && nodes[n.parent].votes.sourceNumber <= n.votes.sourceNumber
  }

  ghost predicate JournalsOk(cfg: Config, st: State) {
    forall v :: cfg.Honest(v) ==> v in st.journals && SafeInv(st.journals[v])
  }

  /** Honest validators signed exactly what their journals hold. */
  ghost predicate SignedOk(cfg: Config, st: State) {
    forall v, d :: cfg.Honest(v) && v in st.journals ==>
      (Ballot(v, d) in st.signed <==> d in st.journals[v].votes)
  }

  /** Every honest vote is the producer's vote for a block of the tree. */
  ghost predicate BallotsOk(cfg: Config, st: State) {
    forall v, d :: cfg.Honest(v) && Ballot(v, d) in st.signed ==>
      d.targetHash in st.nodes && d == BallotFor(cfg, d.targetHash, st.nodes[d.targetHash])
  }

  ghost predicate Inv(cfg: Config, st: State) {
    && TreeOk(cfg, st.nodes)
    && JournalsOk(cfg, st)
    && SignedOk(cfg, st)
    && BallotsOk(cfg, st)
    && forall h :: h in st.nodes ==> VotesOk(cfg, st, h) && Monotone(st.nodes, h)
  }

  // ---------------------------------------------------------------------------
  // Quorums
  // ---------------------------------------------------------------------------

  lemma QuorumsMeet(cfg: Config, a: set<Validator>, b: set<Validator>) returns (v: Validator)
    requires cfg.WellFormed()
    requires a <= cfg.validators && b <= cfg.validators
    requires |a| >= Quorum(|cfg.validators|) && |b| >= Quorum(|cfg.validators|)
    ensures v in a && v in b && cfg.Honest(v)
  {
    SubsetIsSmaller(a + b, cfg.validators);
    var common := a * b;
    assert |a + b| == |a| + |b| - |common|;
    if common <= cfg.faulty {
      SubsetIsSmaller(common, cfg.faulty);
      assert false;
    }
    v :| v in common && v !in cfg.faulty;
  }

  lemma SupportGrows(cfg: Config, signed: set<Ballot>, more: set<Ballot>, d: VoteData)
    requires signed <= more && Supported(cfg, signed, d)
    ensures Supported(cfg, more, d)
  {
    SubsetIsSmaller(Voters(cfg, signed, d), Voters(cfg, more, d));
  }

  lemma JustifiedGrows(cfg: Config, signed: set<Ballot>, more: set<Ballot>, c: Checkpoint)
    requires signed <= more && Justified(cfg, signed, c)
    ensures Justified(cfg, more, c)
  {
    if c != Checkpoint(0, cfg.genesis) {
      var d :| Justifies(cfg, signed, d, c);
      SupportGrows(cfg, signed, more, d);
      assert Justifies(cfg, more, d, c);
    }
  }

  /** What a quorum signed is an honest vote: its source is justified and on its target's path. */
  lemma SupportedIsHonest(cfg: Config, st: State, d: VoteData)
    requires cfg.WellFormed() && Inv(cfg, st) && Supported(cfg, st.signed, d)
    ensures d.targetHash in st.nodes && d == BallotFor(cfg, d.targetHash, st.nodes[d.targetHash])
    ensures OnPath(st.nodes, Source(d), d.targetHash) && Justified(cfg, st.signed, Source(d))
    ensures d.targetNumber > 0 ==> d.sourceNumber < d.targetNumber
    ensures OnPath(st.nodes, Target(d), d.targetHash)
  {
    var q := Voters(cfg, st.signed, d);
    var v := QuorumsMeet(cfg, q, q);
    assert Ballot(v, d) in st.signed;
    assert VotesOk(cfg, st, d.targetHash);
    assert NodeOk(cfg, st.nodes, d.targetHash);
  }

  /** Two quorum votes are the same vote or break no slashing condition. */
  lemma SupportedAreCompatible(cfg: Config, st: State, d: VoteData, e: VoteData)
    requires cfg.WellFormed() && Inv(cfg, st)
    requires Supported(cfg, st.signed, d) && Supported(cfg, st.signed, e)
    ensures d == e || !Slashable(d, e)
  {
    var v := QuorumsMeet(cfg, Voters(cfg, st.signed, d), Voters(cfg, st.signed, e));
    var votes := st.journals[v].votes;
    assert Ballot(v, d) in st.signed && Ballot(v, e) in st.signed;
    var i :| 0 <= i < |votes| && votes[i] == d;
    var j :| 0 <= j < |votes| && votes[j] == e;
    assert NoSlashablePair(votes);
    if i < j {
      assert !Slashable(votes[i], votes[j]);
    } else if j < i {
      assert !Slashable(votes[j], votes[i]);
    }
  }

  /** Two justified blocks of equal height are the same block. */
  lemma JustifiedAreUnique(cfg: Config, st: State, a: Checkpoint, b: Checkpoint)
    requires cfg.WellFormed() && Inv(cfg, st)
    requires Justified(cfg, st.signed, a) && Justified(cfg, st.signed, b) && a.number == b.number
    ensures a == b
  {
    if a != Checkpoint(0, cfg.genesis) && b != Checkpoint(0, cfg.genesis) {
      var d :| Justifies(cfg, st.signed, d, a);
      var e :| Justifies(cfg, st.signed, e, b);
      SupportedAreCompatible(cfg, st, d, e);
    } else {
      JustifiedAtZero(cfg, st, a);
      JustifiedAtZero(cfg, st, b);
    }
  }

  lemma JustifiedAtZero(cfg: Config, st: State, c: Checkpoint)
    requires cfg.WellFormed() && Inv(cfg, st)
    requires Justified(cfg, st.signed, c) && c.number == 0
    ensures c.hash == cfg.genesis
  {
    if c != Checkpoint(0, cfg.genesis) {
      var d :| Justifies(cfg, st.signed, d, c);
      SupportedIsHonest(cfg, st, d);
      OnPathNumber(cfg, st.nodes, Target(d), d.targetHash);
    }
  }

  // ---------------------------------------------------------------------------
  // Safety
  // ---------------------------------------------------------------------------

  /**
   The heart of the argument: once a quorum has voted from f to a block right above it,
   every block of larger height that a quorum votes for descends from f.
   */
  lemma {:induction false} SupportedDescends(cfg: Config, st: State, f: VoteData, d: VoteData)
    requires cfg.WellFormed() && Inv(cfg, st)
    requires Supported(cfg, st.signed, f) && f.targetNumber == f.sourceNumber + 1
    requires Supported(cfg, st.signed, d) && d.targetNumber > f.sourceNumber
    ensures OnPath(st.nodes, Source(f), d.targetHash)
    decreases d.targetNumber
  {
    SupportedIsHonest(cfg, st, f);
    SupportedIsHonest(cfg, st, d);
    SupportedAreCompatible(cfg, st, f, d);
    if d != f {
      // Neither vote surrounds the other, so the source of d is not below f.
      assert d.sourceNumber >= f.sourceNumber;
      if d.sourceNumber == f.sourceNumber {
        JustifiedAreUnique(cfg, st, Source(d), Source(f));
      } else {
        var e :| Justifies(cfg, st.signed, e, Source(d));
        SupportedDescends(cfg, st, f, e);
        OnPathTransitive(cfg, st.nodes, Source(f), Source(d), d.targetHash);
      }
    }
  }

  /** Every justified block at or above a finalized one is that block or descends from it. */
  lemma JustifiedDescends(cfg: Config, st: State, f: VoteData, c: Checkpoint)
    requires cfg.WellFormed() && Inv(cfg, st)
    requires Finalizes(cfg, st.signed, f, Source(f))
    requires Justified(cfg, st.signed, c) && c.number >= f.sourceNumber
    ensures OnPath(st.nodes, Source(f), c.hash)
  {
    SupportedIsHonest(cfg, st, f);
    if c.number == f.sourceNumber {
      JustifiedAreUnique(cfg, st, c, Source(f));
      OnPathNumber(cfg, st.nodes, Source(f), f.targetHash);
      assert NodeOk(cfg, st.nodes, c.hash);
    } else {
      var d :| Justifies(cfg, st.signed, d, c);
      SupportedDescends(cfg, st, f, d);
    }
  }

  // ---------------------------------------------------------------------------
  // Every step keeps the invariant
  // ---------------------------------------------------------------------------

  lemma InitIsOk(cfg: Config)
    requires cfg.WellFormed()
    ensures Inv(cfg, Init(cfg))
  {
    var st := Init(cfg);
    var n := st.nodes[cfg.genesis];
    assert n.path[..1] == n.path;
  }

  /** In the tree the producer and the verifier pick the same source. */
  lemma SourcesAgree(cfg: Config, st: State, h: Hash)
    requires cfg.WellFormed() && Inv(cfg, st) && h in st.nodes
    ensures VerifierSource(cfg, st.nodes, st.nodes[h].votes) == Some(ProducerSource(cfg, st.nodes[h].votes))
  {
    assert VotesOk(cfg, st, h);
    OnPathNumber(cfg, st.nodes, ProducerSource(cfg, st.nodes[h].votes), h);
  }

  lemma AddBlockKeepsTree(cfg: Config, st: State, h: Hash, p: Hash, n: Node)
    requires cfg.WellFormed() && TreeOk(cfg, st.nodes)
    requires h !in st.nodes && h != ZERO_HASH && p in st.nodes
    requires n.number == st.nodes[p].number + 1 && n.parent == p && n.path == st.nodes[p].path + [h]
    ensures TreeOk(cfg, st.nodes[h := n])
  {
    var nodes := st.nodes[h := n];
    forall x | x in nodes
      ensures NodeOk(cfg, nodes, x)
    {
      assert NodeOk(cfg, st.nodes, p);
      if x != h {
        assert NodeOk(cfg, st.nodes, x);
      } else {
        forall k | 0 <= k <= n.number
          ensures n.path[k] in nodes && nodes[n.path[k]].path == n.path[..k + 1]
        {
          if k < n.number {
            assert n.path[k] == st.nodes[p].path[k];
            assert n.path[..k + 1] == st.nodes[p].path[..k + 1];
          } else {
            assert n.path[..k + 1] == n.path;
          }
        }
      }
    }
  }

  /** A verified attestation is a quorum vote for an ancestor, from the justified block. */
  lemma VerifiedIsSupported(cfg: Config, st: State, p: Hash, fermi: bool, a: Attestation)
    requires cfg.WellFormed() && Inv(cfg, st) && p in st.nodes
    requires Verified(cfg, st, st.nodes[p], fermi, a)
    ensures Supported(cfg, st.signed, a.data)
    ensures Source(a.data) == ProducerSource(cfg, st.nodes[p].votes)
    ensures OnPath(st.nodes, Target(a.data), p)
    ensures a.data.targetHash != ZERO_HASH
    ensures !fermi ==> a.data.targetNumber == st.nodes[p].number && a.data.targetHash == p
    ensures VotesAfter(st.nodes[p].votes, fermi, st.nodes[p].number + 1, p, a.data) ==
            if a.data.sourceNumber + 1 == a.data.targetNumber then a.data
            else st.nodes[p].votes.(targetNumber := a.data.targetNumber, targetHash := a.data.targetHash)
  {
    SubsetIsSmaller(a.signers, Voters(cfg, st.signed, a.data));
    SourcesAgree(cfg, st, p);
    OnPathNumber(cfg, st.nodes, Target(a.data), p);
    assert NodeOk(cfg, st.nodes, p);
  }

  /** The vote data of a new block satisfies VotesOk, judged in the tree of its parent. */
  lemma ChildVotes(cfg: Config, st: State, p: Hash, fermi: bool, a: Option<Attestation>, votes: VoteData)
    requires cfg.WellFormed() && Inv(cfg, st) && p in st.nodes
    requires a.Some? ==> Verified(cfg, st, st.nodes[p], fermi, a.value)
    requires votes == if a.None? then st.nodes[p].votes
                      else VotesAfter(st.nodes[p].votes, fermi, st.nodes[p].number + 1, p, a.value.data)
    ensures OnPath(st.nodes, ProducerSource(cfg, votes), p)
    ensures Justified(cfg, st.signed, ProducerSource(cfg, votes))
    ensures votes.targetHash == ZERO_HASH ==> votes == NO_VOTES
    ensures votes.sourceNumber <= votes.targetNumber
    ensures votes.sourceHash != ZERO_HASH ==>
              && OnPath(st.nodes, Source(votes), p)
              && exists d :: Finalizes(cfg, st.signed, d, Source(votes))
    ensures st.nodes[p].votes.targetNumber <= votes.targetNumber
    ensures st.nodes[p].votes.sourceNumber <= votes.sourceNumber
  {
    assert VotesOk(cfg, st, p);
    if a.Some? {
      var d := a.value.data;
      VerifiedIsSupported(cfg, st, p, fermi, a.value);
      SupportedIsHonest(cfg, st, d);
      assert Justifies(cfg, st.signed, d, Target(d));
      assert d.sourceNumber <= d.targetNumber;
      if d.sourceNumber + 1 == d.targetNumber {
        assert Finalizes(cfg, st.signed, d, Source(d));
        OnPathTransitive(cfg, st.nodes, Source(d), Target(d), p);
      }
    }
  }

  /** An ancestor of the parent is an ancestor of the new block. */
  lemma ChildExtendsPath(cfg: Config, nodes: map<Hash, Node>, h: Hash, p: Hash, n: Node, c: Checkpoint)
    requires TreeOk(cfg, nodes) && p in nodes && OnPath(nodes, c, p)
    requires n.path == nodes[p].path + [h] && n.number == nodes[p].number + 1
    ensures OnPath(nodes[h := n], c, h) && c.number < n.number
  {
    assert NodeOk(cfg, nodes, p);
  }

  /** Adding a block leaves the paths of the others alone. */
  lemma NewBlockVotes(cfg: Config, st: State, h: Hash, p: Hash, n: Node)
    requires TreeOk(cfg, st.nodes) && p in st.nodes
    requires n.path == st.nodes[p].path + [h] && n.number == st.nodes[p].number + 1
    requires OnPath(st.nodes, ProducerSource(cfg, n.votes), p)
    requires Justified(cfg, st.signed, ProducerSource(cfg, n.votes))
    requires n.votes.targetHash == ZERO_HASH ==> n.votes == NO_VOTES
    requires n.votes.sourceNumber <= n.votes.targetNumber
    requires n.votes.sourceHash != ZERO_HASH ==>
               && OnPath(st.nodes, Source(n.votes), p)
               && exists d :: Finalizes(cfg, st.signed, d, Source(n.votes))
    ensures VotesOk(cfg, st.(nodes := st.nodes[h := n]), h)
  {
    ChildExtendsPath(cfg, st.nodes, h, p, n, ProducerSource(cfg, n.votes));
    if n.votes.sourceHash != ZERO_HASH {
      ChildExtendsPath(cfg, st.nodes, h, p, n, Source(n.votes));
    }
  }

  lemma AddBlockKeepsVotes(cfg: Config, st: State, h: Hash, p: Hash, fermi: bool, a: Option<Attestation>)
    requires cfg.WellFormed() && Inv(cfg, st)
    requires Enabled(cfg, st, AddBlock(h, p, fermi, a))
    ensures var n := Child(st.nodes, h, p, fermi, a);
            VotesOk(cfg, st.(nodes := st.nodes[h := n]), h) && Monotone(st.nodes[h := n], h)
  {
    var n := Child(st.nodes, h, p, fermi, a);
    ChildVotes(cfg, st, p, fermi, a, n.votes);
    NewBlockVotes(cfg, st, h, p, n);
  }

  /** What the snapshots of the other blocks record stays right. */
  lemma OldBlocksKeepVotes(cfg: Config, st: State, h: Hash, n: Node, x: Hash)
    requires TreeOk(cfg, st.nodes) && h !in st.nodes && x in st.nodes
    requires VotesOk(cfg, st, x) && Monotone(st.nodes, x)
    ensures VotesOk(cfg, st.(nodes := st.nodes[h := n]), x) && Monotone(st.nodes[h := n], x)
  {
    assert NodeOk(cfg, st.nodes, x);
  }

  lemma AddBlockKeepsInv(cfg: Config, st: State, h: Hash, p: Hash, fermi: bool, a: Option<Attestation>)
    requires cfg.WellFormed() && Inv(cfg, st)
    requires Enabled(cfg, st, AddBlock(h, p, fermi, a))
    ensures Inv(cfg, After(cfg, st, AddBlock(h, p, fermi, a)))
  {
    var st' := After(cfg, st, AddBlock(h, p, fermi, a));
    AddBlockKeepsTree(cfg, st, h, p, st'.nodes[h]);
    AddBlockKeepsVotes(cfg, st, h, p, fermi, a);
    forall x | x in st'.nodes
      ensures VotesOk(cfg, st', x) && Monotone(st'.nodes, x)
    {
      if x != h {
        OldBlocksKeepVotes(cfg, st, h, st'.nodes[h], x);
      }
    }
  }

  /** More signatures take nothing away. */
  lemma MoreSignaturesKeepVotes(cfg: Config, st: State, st': State, h: Hash)
    requires h in st.nodes && st'.nodes == st.nodes && st.signed <= st'.signed
    requires VotesOk(cfg, st, h)
    ensures VotesOk(cfg, st', h)
  {
    var votes := st.nodes[h].votes;
    JustifiedGrows(cfg, st.signed, st'.signed, ProducerSource(cfg, votes));
    if votes.sourceHash != ZERO_HASH {
      var d :| Finalizes(cfg, st.signed, d, Source(votes));
      SupportGrows(cfg, st.signed, st'.signed, d);
      assert Finalizes(cfg, st'.signed, d, Source(votes));
    }
  }

  /** A step that leaves the tree alone and only adds signatures keeps what the tree records. */
  lemma MoreSignaturesKeepTree(cfg: Config, st: State, st': State)
    requires Inv(cfg, st) && st'.nodes == st.nodes && st.signed <= st'.signed
    ensures forall h :: h in st'.nodes ==> VotesOk(cfg, st', h) && Monotone(st'.nodes, h)
  {
    forall h | h in st'.nodes
      ensures VotesOk(cfg, st', h) && Monotone(st'.nodes, h)
    {
      assert VotesOk(cfg, st, h) && Monotone(st.nodes, h);
      MoreSignaturesKeepVotes(cfg, st, st', h);
    }
  }

  lemma VoteKeepsSigned(cfg: Config, st: State, v: Validator, head: Hash)
    requires SignedOk(cfg, st) && Enabled(cfg, st, Vote(v, head))
    ensures SignedOk(cfg, After(cfg, st, Vote(v, head)))
  {
    var st' := After(cfg, st, Vote(v, head));
    forall u, d | cfg.Honest(u) && u in st'.journals
      ensures Ballot(u, d) in st'.signed <==> d in st'.journals[u].votes
    {
      assert Ballot(u, d) in st.signed <==> d in st.journals[u].votes;
    }
  }

  lemma VoteKeepsBallots(cfg: Config, st: State, v: Validator, head: Hash)
    requires BallotsOk(cfg, st) && Enabled(cfg, st, Vote(v, head))
    ensures BallotsOk(cfg, After(cfg, st, Vote(v, head)))
  {
  }

  /** The producer's votes link forward, so the journal stays safe. */
  lemma VoteKeepsJournal(cfg: Config, st: State, v: Validator, head: Hash)
    requires Inv(cfg, st) && Enabled(cfg, st, Vote(v, head))
    ensures SafeInv(JournalSafety.Step(st.journals[v], Offer(BallotFor(cfg, head, st.nodes[head]))))
  {
    assert VotesOk(cfg, st, head) && NodeOk(cfg, st.nodes, head);
    StepKeepsSafeInv(st.journals[v], Offer(BallotFor(cfg, head, st.nodes[head])));
  }

  lemma VoteKeepsInv(cfg: Config, st: State, v: Validator, head: Hash)
    requires cfg.WellFormed() && Inv(cfg, st) && Enabled(cfg, st, Vote(v, head))
    ensures Inv(cfg, After(cfg, st, Vote(v, head)))
  {
    var st' := After(cfg, st, Vote(v, head));
    VoteKeepsJournal(cfg, st, v, head);
    assert JournalsOk(cfg, st');
    VoteKeepsSigned(cfg, st, v, head);
    VoteKeepsBallots(cfg, st, v, head);
    MoreSignaturesKeepTree(cfg, st, st');
  }

  lemma RebootKeepsInv(cfg: Config, st: State, v: Validator)
    requires cfg.WellFormed() && Inv(cfg, st) && Enabled(cfg, st, Reboot(v))
    ensures Inv(cfg, After(cfg, st, Reboot(v)))
  {
    var st' := After(cfg, st, Reboot(v));
    StepKeepsSafeInv(st.journals[v], Restart);
    assert JournalsOk(cfg, st');
    assert st'.journals[v].votes == st.journals[v].votes;
    MoreSignaturesKeepTree(cfg, st, st');
  }

  lemma StepKeepsInvariant(cfg: Config, st: State, step: Step)
    requires cfg.WellFormed() && Inv(cfg, st) && Enabled(cfg, st, step)
    ensures Inv(cfg, After(cfg, st, step))
  {
    match step
    case AddBlock(h, p, fermi, a) => AddBlockKeepsInv(cfg, st, h, p, fermi, a);
    case Vote(v, head) => VoteKeepsInv(cfg, st, v, head);
    case Forge(v, data) => MoreSignaturesKeepTree(cfg, st, After(cfg, st, step));
    case Reboot(v) => RebootKeepsInv(cfg, st, v);
  }

  lemma {:induction false} RunKeepsInvariant(cfg: Config, states: seq<State>, steps: seq<Step>, i: nat)
    requires cfg.WellFormed() && IsRun(cfg, states, steps) && i < |states|
    ensures Inv(cfg, states[i])
  {
    if i == 0 {
      InitIsOk(cfg);
    } else {
      RunKeepsInvariant(cfg, states, steps, i - 1);
      assert states[i] == After(cfg, states[i - 1], steps[i - 1]);
      StepKeepsInvariant(cfg, states[i - 1], steps[i - 1]);
    }
  }

  // ---------------------------------------------------------------------------
  // What every run guarantees
  // ---------------------------------------------------------------------------

  /** The block the snapshot after h calls finalized, if any. */
  function FinalizedAt(nodes: map<Hash, Node>, h: Hash): Option<Checkpoint>
    requires h in nodes
  {
    if nodes[h].votes.sourceHash == ZERO_HASH then None else Some(Source(nodes[h].votes))
  }

  /**
   Finality safety: in every state of every run, a block that some snapshot calls
   finalized is an ancestor of every block of at least its height that any snapshot
   calls justified.
   */
  lemma FinalityIsSafe(cfg: Config, states: seq<State>, steps: seq<Step>, i: nat, a: Hash, b: Hash)
    requires cfg.WellFormed() && IsRun(cfg, states, steps) && i < |states|
    requires a in states[i].nodes && b in states[i].nodes
    requires FinalizedAt(states[i].nodes, a).Some?
    requires ProducerSource(cfg, states[i].nodes[b].votes).number >= states[i].nodes[a].votes.sourceNumber
    ensures OnPath(states[i].nodes, FinalizedAt(states[i].nodes, a).value,
                   ProducerSource(cfg, states[i].nodes[b].votes).hash)
  {
    RunKeepsInvariant(cfg, states, steps, i);
    var st := states[i];
    assert VotesOk(cfg, st, a) && VotesOk(cfg, st, b);
    var f :| Finalizes(cfg, st.signed, f, Source(st.nodes[a].votes));
    JustifiedDescends(cfg, st, f, ProducerSource(cfg, st.nodes[b].votes));
  }

  /** No two snapshots ever call conflicting blocks finalized. */
  lemma NoConflictingFinality(cfg: Config, states: seq<State>, steps: seq<Step>, i: nat, a: Hash, b: Hash)
    requires cfg.WellFormed() && IsRun(cfg, states, steps) && i < |states|
    requires a in states[i].nodes && b in states[i].nodes
    requires FinalizedAt(states[i].nodes, a).Some? && FinalizedAt(states[i].nodes, b).Some?
    ensures var fa, fb := FinalizedAt(states[i].nodes, a).value, FinalizedAt(states[i].nodes, b).value;
            OnPath(states[i].nodes, fa, fb.hash) || OnPath(states[i].nodes, fb, fa.hash)
  {
    RunKeepsInvariant(cfg, states, steps, i);
    var st := states[i];
    assert VotesOk(cfg, st, a) && VotesOk(cfg, st, b);
    var f :| Finalizes(cfg, st.signed, f, Source(st.nodes[a].votes));
    var g :| Finalizes(cfg, st.signed, g, Source(st.nodes[b].votes));
    SupportedIsHonest(cfg, st, f);
    SupportedIsHonest(cfg, st, g);
    if f.sourceNumber <= g.sourceNumber {
      JustifiedDescends(cfg, st, f, Source(g));
    } else {
      JustifiedDescends(cfg, st, g, Source(f));
    }
  }

  /**
   Along every chain of every run: finalized <= justified < block number from block 1
   on, both are ancestors of the block, and neither number ever decreases.
   */
  lemma FinalityIsMonotone(cfg: Config, states: seq<State>, steps: seq<Step>, i: nat, h: Hash)
    requires cfg.WellFormed() && IsRun(cfg, states, steps) && i < |states|
    requires h in states[i].nodes && states[i].nodes[h].number >= 1
    ensures var nodes := states[i].nodes;
            var n := nodes[h];
            && n.parent in nodes
            && n.votes.sourceNumber <= n.votes.targetNumber < n.number
            && nodes[n.parent].votes.sourceNumber <= n.votes.sourceNumber
            && nodes[n.parent].votes.targetNumber <= n.votes.targetNumber
            && OnPath(nodes, ProducerSource(cfg, n.votes), h)
            && (FinalizedAt(nodes, h).Some? ==> OnPath(nodes, FinalizedAt(nodes, h).value, h))
  {
    RunKeepsInvariant(cfg, states, steps, i);
    assert VotesOk(cfg, states[i], h) && Monotone(states[i].nodes, h);
    assert NodeOk(cfg, states[i].nodes, h);
  }
}
