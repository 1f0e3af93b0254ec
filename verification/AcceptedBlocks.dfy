/**
 The attestation verifier implies the guard of the step system: a block whose
 attestation the verifier accepts is a block the finality runs may add.
 */
module AcceptedBlocks {
  import opened Types
  import opened Counting
  import opened Snapshots
  import opened Attestations
  import F = Finality

  // ---------------------------------------------------------------------------
  // How headers, snapshots and signatures mirror a state of the step system
  // ---------------------------------------------------------------------------

  function Keys(s: Snapshot): seq<VoteAddress>
    requires forall i :: 0 <= i < |s.validators| ==> s.validators[i] in s.validatorsMap
  {
    seq(|s.validators|, i requires 0 <= i < |s.validators| => KeyAt(s, i))
  }

  /** Snapshot s lists exactly the configured validators, each under a key of its own. */
  ghost predicate Lists(cfg: F.Config, s: Snapshot) {
    && (forall i :: 0 <= i < |s.validators| ==> s.validators[i] in s.validatorsMap)
    && Distinct(Keys(s))
    && cfg.validators == set k | k in Keys(s)
  }

  /** Header h is a block of the tree, at the same height and with the same parent. */
  predicate InTree(st: F.State, h: Header) {
    && h.hash in st.nodes
    && st.nodes[h.hash].number == h.number
    && st.nodes[h.hash].parent == h.parentHash
  }

  ghost predicate Mirrors(cfg: F.Config, st: F.State, net: Lookups, genesis: Header) {
    && net.Ok()
    && genesis.hash == cfg.genesis && genesis.number == 0
    && (forall h :: h in net.headers ==> InTree(st, net.headers[h]))
    && (forall h :: h in net.snaps ==> Lists(cfg, net.snaps[h]))
  }

  /** Ideal signatures cannot be made up: each one in a was signed. */
  ghost predicate Unforged(st: F.State, a: VoteAttestation) {
    forall s :: s in a.aggSignature ==> F.Ballot(s.signer, s.message) in st.signed
  }

  // ---------------------------------------------------------------------------
  // Target, source and signers
  // ---------------------------------------------------------------------------

  /** The header cache leads from a block of the tree to its parent in the tree. */
  lemma ParentIsBelow(cfg: F.Config, st: F.State, net: Lookups, genesis: Header, from: Header, c: F.Checkpoint)
    requires Mirrors(cfg, st, net, genesis) && F.TreeOk(cfg, st.nodes) && InTree(st, from)
    requires from.parentHash in net.headers && F.OnPath(st.nodes, c, from.parentHash)
    ensures net.headers[from.parentHash].number + 1 == from.number
    ensures F.OnPath(st.nodes, c, from.hash)
  {
    assert F.NodeOk(cfg, st.nodes, from.hash);
    assert InTree(st, net.headers[from.parentHash]);
  }

  /** The ancestor the verifier walks to lies on the parent's path. */
  lemma {:induction false} AncestorIsOnPath(cfg: F.Config, st: F.State, net: Lookups, genesis: Header,
                                            from: Header, data: VoteData, depth: nat)
    requires Mirrors(cfg, st, net, genesis) && F.TreeOk(cfg, st.nodes) && InTree(st, from)
    requires FindAncestor(net, from, data, depth).Some?
    ensures F.OnPath(st.nodes, F.Target(data), from.hash)
    ensures data.targetNumber <= from.number < data.targetNumber + depth
    decreases depth
  {
    if from.number == data.targetNumber && from.hash == data.targetHash {
      assert F.NodeOk(cfg, st.nodes, from.hash);
    } else {
      var next := net.headers[from.parentHash];
      AncestorIsOnPath(cfg, st, net, genesis, next, data, depth - 1);
      ParentIsBelow(cfg, st, net, genesis, from, F.Target(data));
    }
  }

  lemma JustifiedAgrees(cfg: F.Config, st: F.State, net: Lookups, genesis: Header, votes: VoteData)
    requires Mirrors(cfg, st, net, genesis) && JustifiedHeader(net, genesis, votes).Some?
    ensures var j := JustifiedHeader(net, genesis, votes).value;
            F.VerifierSource(cfg, st.nodes, votes) == Some(F.Checkpoint(j.number, j.hash))
  {
  }

  /** The keys the bits name are different keys of the snapshot. */
  lemma {:induction false} NamedKeysAreKeys(s: Snapshot, bits: seq<bool>, k: nat)
    requires forall i :: 0 <= i < |s.validators| ==> s.validators[i] in s.validatorsMap
    requires k <= |s.validators| && Distinct(Keys(s))
    ensures NamedKeys(s, bits, k).Some?
    ensures Distinct(NamedKeys(s, bits, k).value)
    ensures forall x :: x in NamedKeys(s, bits, k).value ==> x in Keys(s)[..k]
  {
    if k > 0 {
      NamedKeysAreKeys(s, bits, k - 1);
      var before := NamedKeys(s, bits, k - 1).value;
      assert Keys(s)[..k] == Keys(s)[..k - 1] + [Keys(s)[k - 1]];
      assert Keys(s)[k - 1] !in Keys(s)[..k - 1];
    }
  }

  lemma {:induction false} AggregateHolds(keys: seq<VoteAddress>, data: VoteData, key: VoteAddress)
    requires key in keys
    ensures Signature(key, data) in AggregateOf(keys, data)
  {
    var n := |keys| - 1;
    if key != keys[n] {
      AggregateHolds(keys[..n], data, key);
    }
  }

  /** The signers are a quorum of the configured validators, and all of them signed. */
  lemma SignersAreAQuorum(cfg: F.Config, st: F.State, s: Snapshot, a: VoteAttestation) returns (signers: set<VoteAddress>)
    requires Lists(cfg, s) && VerifiesAgainst(s, a) && Unforged(st, a)
    ensures signers <= cfg.validators && |signers| >= Quorum(|cfg.validators|)
    ensures 3 * |signers| >= 2 * |cfg.validators|
    ensures forall v :: v in signers ==> F.Ballot(v, a.data) in st.signed
  {
    var named := NamedKeys(s, a.voteAddressSet, |s.validators|).value;
    NamedKeysAreKeys(s, a.voteAddressSet, |s.validators|);
    signers := set k | k in named;
    DistinctCount(named, signers);
    DistinctCount(Keys(s), cfg.validators);
    assert Keys(s)[..|s.validators|] == Keys(s);
    forall v | v in signers
      ensures F.Ballot(v, a.data) in st.signed
    {
      AggregateHolds(named, a.data, v);
    }
  }

  /**
   From Plato on, an attestation that the verifier accepts satisfies the guard under
   which the step system adds a block, so every result about its runs covers the block.
   */
  lemma AcceptedIsVerified(spec: ChainSpec, cfg: F.Config, st: F.State, net: Lookups, genesis: Header,
                           parentSnap: Snapshot, parent: Header, number: nat, timestamp: nat, a: VoteAttestation)
    returns (signers: set<VoteAddress>)
    requires Mirrors(cfg, st, net, genesis) && F.TreeOk(cfg, st.nodes) && InTree(st, parent)
    requires parentSnap.voteData == st.nodes[parent.hash].votes
    requires spec.PlatoActive(number) && Unforged(st, a)
    requires Verifies(spec, net, genesis, parentSnap, parent, number, timestamp, a)
    ensures F.Verified(cfg, st, st.nodes[parent.hash], spec.FermiActive(number, timestamp), F.Attestation(a.data, signers))
  {
    var depth := Depth(spec.FermiActive(number, timestamp));
    AncestorIsOnPath(cfg, st, net, genesis, parent, a.data, depth);
    JustifiedAgrees(cfg, st, net, genesis, parentSnap.voteData);
    var ancestor := FindAncestor(net, parent, a.data, depth).value;
    signers := SignersAreAQuorum(cfg, st, net.snaps[ancestor.parentHash], a);
  }
}
