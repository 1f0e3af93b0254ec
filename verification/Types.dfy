/** Values shared by the whole model: optional values, hashes, addresses and votes. */
module Types {

  datatype Option<+T> = None | Some(value: T)

  /** A 32-byte block hash read as a big-endian number; 0 is the all-zero hash. */
  type Hash = nat

  const ZERO_HASH: Hash := 0

  /** A 20-byte account address read as a big-endian number; 0 is the default address. */
  type Address = nat

  const DEFAULT_ADDRESS: Address := 0

  /** A 48-byte BLS public key read as a big-endian number; 0 is the unknown key. */
  type VoteAddress = nat

  const ZERO_VOTE_ADDRESS: VoteAddress := 0

  /** Block numbers stay below 2^63, so no u64 addition on them wraps. */
  const NUMBER_LIMIT: nat := 0x8000_0000_0000_0000

  const U64_MAX: nat := 0xFFFF_FFFF_FFFF_FFFF

  const TWO_64: int := 0x1_0000_0000_0000_0000

  /** A vote: the link from a justified source block to a target block. */
  datatype VoteData = VoteData(
    sourceNumber: nat,
    sourceHash: Hash,
    targetNumber: nat,
    targetHash: Hash
  )

  /** The vote data of a snapshot that has never seen an attestation. */
  const NO_VOTES := VoteData(0, ZERO_HASH, 0, ZERO_HASH)

  /** An ideal BLS signature: it names its signer and its message. */
  datatype Signature = Signature(signer: VoteAddress, message: VoteData)

  /**
   An aggregated vote. The 64-bit participation set is the sequence of its bits, lowest
   first; the ideal aggregate signature is the multiset of the signatures in it.
   */
  datatype VoteAttestation = VoteAttestation(
    voteAddressSet: seq<bool>,
    aggSignature: multiset<Signature>,
    data: VoteData,
    extraLen: nat
  )

  type Byte = b: nat | b < 256

  /** The header fields the consensus core reads. */
  datatype Header = Header(
    number: nat,
    hash: Hash,
    parentHash: Hash,
    beneficiary: Address,
    timestamp: nat,
    extra: seq<Byte>
  )

  /** Activation points: heights up to Plato, then timestamps, which also need London. */
  datatype ChainSpec = ChainSpec(
    london: nat,
    planck: nat,
    luban: nat,
    plato: nat,
    bohr: nat,
    lorentz: nat,
    maxwell: nat,
    fermi: nat
  ) {
    predicate PlanckActive(number: nat) { planck <= number }
    predicate LubanActive(number: nat) { luban <= number }
    predicate LubanTransition(number: nat) { luban == number }
    predicate PlatoActive(number: nat) { plato <= number }
    predicate BohrActive(number: nat, timestamp: nat) { london <= number && bohr <= timestamp }
    predicate LorentzActive(number: nat, timestamp: nat) { london <= number && lorentz <= timestamp }
    predicate MaxwellActive(number: nat, timestamp: nat) { london <= number && maxwell <= timestamp }
    predicate FermiActive(number: nat, timestamp: nat) { london <= number && fermi <= timestamp }
  }

  /** ceil(2n/3), the number of votes an attestation needs. */
  function Quorum(n: nat): (q: nat)
    ensures 2 * n <= 3 * q < 2 * n + 3
  {
    (2 * n + 2) / 3
  }

  /** How far back an attestation may reach for its target after Fermi. */
  const K_ANCESTOR_GENERATION_DEPTH: nat := 3

  function Depth(fermi: bool): nat {
    if fermi then K_ANCESTOR_GENERATION_DEPTH else 1
  }

  ghost predicate Distinct<T>(s: seq<T>) {
    forall i, j :: 0 <= i < j < |s| ==> s[i] != s[j]
  }
}
