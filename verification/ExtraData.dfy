/**
 The layout of the header extra data in src/consensus/parlia/consensus.rs: what the
 miner writes and what every node reads back.
 */
module ExtraData {
  import opened Types
  import opened Sorting
  import opened Arith
  import opened Snapshots

  const EXTRA_VANITY_LEN: nat := 32
  const EXTRA_SEAL_LEN: nat := 65
  const VALIDATOR_NUMBER_SIZE: nat := 1
  const TURN_LENGTH_SIZE: nat := 1
  const ADDRESS_LENGTH: nat := 20
  const VOTE_ADDRESS_LENGTH: nat := 48
  const VALIDATOR_BYTES_LEN_BEFORE_LUBAN: nat := 20
  const VALIDATOR_BYTES_LEN_AFTER_LUBAN: nat := 68

  datatype Error =
    | InvalidHeaderExtraLen
    | InvalidHeaderExtraValidatorBytesLen
    | ExtraInvalidTurnLength
    | ExtraInvalidAttestation
    | ExtraVanityMissing
    | ExtraSignatureMissing
    | TurnLengthNotFound

  datatype Result<+T> = Ok(value: T) | Err(error: Error)

  // ---------------------------------------------------------------------------
  // Fixed-width numbers
  // ---------------------------------------------------------------------------

  function Pow256(n: nat): nat {
    if n == 0 then 1 else 256 * Pow256(n - 1)
  }

  /** x as len big-endian bytes. */
  function ToBytes(len: nat, x: nat): (r: seq<Byte>)
    ensures |r| == len
  {
    if len == 0 then [] else ToBytes(len - 1, x / 256) + [x % 256]
  }

  function FromBytes(bs: seq<Byte>): nat {
    if bs == [] then 0 else 256 * FromBytes(bs[..|bs| - 1]) + bs[|bs| - 1]
  }

  /** x fits in len bytes. */
  predicate Fits(x: nat, len: nat) {
    x < Pow256(len)
  }

  lemma {:induction false} BytesRoundTrip(len: nat, x: nat)
    requires Fits(x, len)
    ensures FromBytes(ToBytes(len, x)) == x
    ensures len > 0 ==> ToBytes(len, x)[len - 1] == x % 256
  {
    if len > 0 {
      BytesRoundTrip(len - 1, x / 256);
      var bs := ToBytes(len, x);
      assert bs[..len - 1] == ToBytes(len - 1, x / 256);
    }
  }

  // ---------------------------------------------------------------------------
  // Sequences of chunks of equal width
  // ---------------------------------------------------------------------------

  ghost predicate AllWide(chunks: seq<seq<Byte>>, w: nat) {
    forall i :: 0 <= i < |chunks| ==> |chunks[i]| == w
  }

  function Join(chunks: seq<seq<Byte>>): seq<Byte> {
    if chunks == [] then [] else Join(chunks[..|chunks| - 1]) + chunks[|chunks| - 1]
  }

  lemma {:induction false} JoinLength(chunks: seq<seq<Byte>>, w: nat)
    requires AllWide(chunks, w)
    ensures |Join(chunks)| == |chunks| * w
  {
    if chunks != [] {
      JoinLength(chunks[..|chunks| - 1], w);
      assert |chunks| * w == (|chunks| - 1) * w + w;
    }
  }

  lemma {:induction false} JoinAt(chunks: seq<seq<Byte>>, w: nat, i: nat)
    requires AllWide(chunks, w) && i < |chunks|
    ensures 0 <= i * w <= i * w + w <= |Join(chunks)|
    ensures Join(chunks)[i * w..i * w + w] == chunks[i]
  {
    var n := |chunks| - 1;
    JoinLength(chunks, w);
    JoinLength(chunks[..n], w);
    assert (i + 1) * w == i * w + w;
    MulMonotone(i + 1, |chunks|, w);
    if i < n {
      MulMonotone(i + 1, n, w);
      JoinAt(chunks[..n], w, i);
      assert Join(chunks)[i * w..i * w + w] == Join(chunks[..n])[i * w..i * w + w];
    }
  }

  // ---------------------------------------------------------------------------
  // Writing
  // ---------------------------------------------------------------------------

  /** The key written next to each validator: zero at the Luban block or when none is given. */
  function WrittenKeys(spec: ChainSpec, number: nat, validators: seq<Address>, keys: seq<VoteAddress>): seq<VoteAddress> {
    seq(|validators|, i requires 0 <= i < |validators| =>
      if spec.LubanTransition(number) || i >= |keys| then ZERO_VOTE_ADDRESS else keys[i])
  }

  function PlainChunk(v: Address): (r: seq<Byte>)
    ensures |r| == VALIDATOR_BYTES_LEN_BEFORE_LUBAN
  {
    ToBytes(ADDRESS_LENGTH, v)
  }

  function KeyedChunk(v: Address, key: VoteAddress): (r: seq<Byte>)
    ensures |r| == VALIDATOR_BYTES_LEN_AFTER_LUBAN
  {
    ToBytes(ADDRESS_LENGTH, v) + ToBytes(VOTE_ADDRESS_LENGTH, key)
  }

  function PlainChunks(vs: seq<Address>): (r: seq<seq<Byte>>)
    ensures |r| == |vs| && AllWide(r, VALIDATOR_BYTES_LEN_BEFORE_LUBAN)
  {
    seq(|vs|, i requires 0 <= i < |vs| => PlainChunk(vs[i]))
  }

  function KeyOf(found: map<Address, VoteAddress>, v: Address): VoteAddress {
    if v in found then found[v] else ZERO_VOTE_ADDRESS
  }

  function KeyedChunks(vs: seq<Address>, found: map<Address, VoteAddress>): (r: seq<seq<Byte>>)
    ensures |r| == |vs| && AllWide(r, VALIDATOR_BYTES_LEN_AFTER_LUBAN)
  {
    seq(|vs|, i requires 0 <= i < |vs| => KeyedChunk(vs[i], KeyOf(found, vs[i])))
  }

  /** What prepare_validators appends at an epoch block. */
  function ValidatorField(spec: ChainSpec, number: nat, validators: seq<Address>, keys: seq<VoteAddress>): seq<Byte> {
    if !spec.LubanActive(number) then Join(PlainChunks(Sorted(validators)))
    else
      var found := KeyMap(validators, WrittenKeys(spec, number, validators, keys));
      [|validators| % 256] + Join(KeyedChunks(Sorted(validators), found))
  }

  /** What the miner has to write: the contract's validators, the cached turn length, and the vote. */
  datatype Draft = Draft(
    vanity: seq<Byte>,
    validators: Option<(seq<Address>, seq<VoteAddress>)>,
    turnLength: Option<Byte>,
    attestation: seq<Byte>,
    seal: seq<Byte>
  )

  function WithValidators(spec: ChainSpec, epochNum: nat, number: nat, extra: seq<Byte>,
                          validators: Option<(seq<Address>, seq<VoteAddress>)>): seq<Byte>
    requires epochNum >= 1
  {
    if number % epochNum != 0 || validators.None? then extra
    else extra + ValidatorField(spec, number, validators.value.0, validators.value.1)
  }

  function WithTurnLength(spec: ChainSpec, epochNum: nat, number: nat, timestamp: nat, extra: seq<Byte>,
                          turnLength: Option<Byte>): Result<seq<Byte>>
    requires epochNum >= 1
  {
    if number % epochNum != 0 || !spec.BohrActive(number, timestamp) then Ok(extra)
    else if turnLength.None? then Err(TurnLengthNotFound)
    else Ok(extra + [turnLength.value])
  }

  /** The extra data of the finished header: the fields in the order they are appended. */
  function Written(spec: ChainSpec, epochNum: nat, number: nat, timestamp: nat, d: Draft): Result<seq<Byte>>
    requires epochNum >= 1
  {
    match WithTurnLength(spec, epochNum, number, timestamp,
                         WithValidators(spec, epochNum, number, d.vanity, d.validators), d.turnLength)
    case Err(e) => Err(e)
    case Ok(extra) => Ok(extra + d.attestation + d.seal)
  }

  // ---------------------------------------------------------------------------
  // Reading
  // ---------------------------------------------------------------------------

  datatype ValidatorsInfo = ValidatorsInfo(consensusAddrs: seq<Address>, voteAddrs: Option<seq<VoteAddress>>)

  function GetValidatorBytes(spec: ChainSpec, h: Header, epochLength: nat): Option<seq<Byte>>
    requires epochLength >= 1
  {
    var len := |h.extra|;
    var isEpoch := h.number % epochLength == 0;
    if len <= EXTRA_VANITY_LEN + EXTRA_SEAL_LEN then None
    else if spec.LubanActive(h.number) then
      if !isEpoch then None
      else
        var count: nat := h.extra[EXTRA_VANITY_LEN];
        var start := EXTRA_VANITY_LEN + VALIDATOR_NUMBER_SIZE;
        var end := start + count * VALIDATOR_BYTES_LEN_AFTER_LUBAN;
        var minLen := end + EXTRA_SEAL_LEN
                      + if spec.BohrActive(h.number, h.timestamp) then TURN_LENGTH_SIZE else 0;
        if count == 0 || len < minLen then None else Some(h.extra[start..end])
    else if isEpoch && (len - EXTRA_VANITY_LEN - EXTRA_SEAL_LEN) % VALIDATOR_BYTES_LEN_BEFORE_LUBAN != 0 then None
    else Some(h.extra[EXTRA_VANITY_LEN..len - EXTRA_SEAL_LEN])
  }

  function PlainAt(bs: seq<Byte>, i: nat): Address
    requires (i + 1) * 20 <= |bs|
  {
    FromBytes(bs[i * 20..i * 20 + 20])
  }

  function KeyedAt(bs: seq<Byte>, i: nat): (Address, VoteAddress)
    requires (i + 1) * 68 <= |bs|
  {
    (FromBytes(bs[i * 68..i * 68 + 20]), FromBytes(bs[i * 68 + 20..i * 68 + 68]))
  }

  function ParsePlain(bs: seq<Byte>): ValidatorsInfo {
    ValidatorsInfo(seq(|bs| / 20, i requires 0 <= i < |bs| / 20 => PlainAt(bs, i)), None)
  }

  function ParseKeyed(bs: seq<Byte>): ValidatorsInfo {
    ValidatorsInfo(
      seq(|bs| / 68, i requires 0 <= i < |bs| / 68 => KeyedAt(bs, i).0),
      Some(seq(|bs| / 68, i requires 0 <= i < |bs| / 68 => KeyedAt(bs, i).1)))
  }

  function ParseValidators(spec: ChainSpec, h: Header, epochLength: nat): Result<ValidatorsInfo>
    requires epochLength >= 1
  {
    match GetValidatorBytes(spec, h, epochLength)
    case None => Err(InvalidHeaderExtraLen)
    case Some(bs) =>
      if bs == [] then Err(InvalidHeaderExtraValidatorBytesLen)
      else if spec.LubanActive(h.number) then Ok(ParseKeyed(bs))
      else Ok(ParsePlain(bs))
  }

  function GetTurnLength(spec: ChainSpec, h: Header, epochLength: nat): Result<Option<Byte>>
    requires epochLength >= 1
  {
    if h.number % epochLength != 0 || !spec.BohrActive(h.number, h.timestamp) then Ok(None)
    else if |h.extra| <= EXTRA_VANITY_LEN + EXTRA_SEAL_LEN then Err(InvalidHeaderExtraLen)
    else
      var count: nat := h.extra[EXTRA_VANITY_LEN];
      var pos := EXTRA_VANITY_LEN + 1 + count * VALIDATOR_BYTES_LEN_AFTER_LUBAN;
      if |h.extra| <= pos then Err(ExtraInvalidTurnLength) else Ok(Some(h.extra[pos]))
  }

  /** The bytes between the validators and the seal. */
  function AttestationBytes(spec: ChainSpec, h: Header, epochLength: nat): seq<Byte>
    requires epochLength >= 1 && |h.extra| > EXTRA_VANITY_LEN + EXTRA_SEAL_LEN
  {
    var end := |h.extra| - EXTRA_SEAL_LEN;
    if h.number % epochLength != 0 then h.extra[EXTRA_VANITY_LEN..end]
    else
      var count: nat := h.extra[EXTRA_VANITY_LEN];
      var start := EXTRA_VANITY_LEN + VALIDATOR_NUMBER_SIZE + count * VALIDATOR_BYTES_LEN_AFTER_LUBAN
                   + if spec.BohrActive(h.number, h.timestamp) then TURN_LENGTH_SIZE else 0;
      if end <= start then [] else h.extra[start..end]
  }

  /** The decoder of attestations is a parameter; None is a decoding error. */
  type Decoder = seq<Byte> -> Option<VoteAttestation>

  function GetVoteAttestation(spec: ChainSpec, h: Header, epochLength: nat, decode: Decoder):
    Result<Option<VoteAttestation>>
    requires epochLength >= 1
  {
    if |h.extra| <= EXTRA_VANITY_LEN + EXTRA_SEAL_LEN || !spec.LubanActive(h.number) then Ok(None)
    else
      var raw := AttestationBytes(spec, h, epochLength);
      if raw == [] then Ok(None)
      else if decode(raw).None? then Err(ExtraInvalidAttestation)
      else Ok(decode(raw))
  }

  /** The stateless length checks on a header. */
  function CheckHeaderExtra(spec: ChainSpec, h: Header, epochLength: nat): Result<()>
    requires epochLength >= 1
  {
    var len := |h.extra|;
    if len < EXTRA_VANITY_LEN then Err(ExtraVanityMissing)
    else if len < EXTRA_VANITY_LEN + EXTRA_SEAL_LEN then Err(ExtraSignatureMissing)
    else if h.number % epochLength != 0 then Ok(())
    else if spec.LubanActive(h.number) then
      var count: nat := h.extra[EXTRA_VANITY_LEN];
      if count == 0 || len < EXTRA_VANITY_LEN + VALIDATOR_NUMBER_SIZE + EXTRA_SEAL_LEN
                             + count * VALIDATOR_BYTES_LEN_AFTER_LUBAN
      then Err(InvalidHeaderExtraLen) else Ok(())
    else
      var bytes := len - EXTRA_VANITY_LEN - EXTRA_SEAL_LEN;
      if bytes / VALIDATOR_BYTES_LEN_BEFORE_LUBAN == 0 || bytes % VALIDATOR_BYTES_LEN_BEFORE_LUBAN != 0
      then Err(InvalidHeaderExtraLen) else Ok(())
  }

  // ---------------------------------------------------------------------------
  // The loops
  // ---------------------------------------------------------------------------

  /** Reads the validators one fixed-width record after the other. */
  method ReadKeyed(bs: seq<Byte>) returns (info: ValidatorsInfo)
    ensures info == ParseKeyed(bs)
  {
    var count := |bs| / VALIDATOR_BYTES_LEN_AFTER_LUBAN;
    var addrs: seq<Address>, keys: seq<VoteAddress> := [], [];
    for i := 0 to count
      invariant addrs == ParseKeyed(bs).consensusAddrs[..i]
      invariant keys == ParseKeyed(bs).voteAddrs.value[..i]
    {
      var start := i * VALIDATOR_BYTES_LEN_AFTER_LUBAN;
      addrs := addrs + [FromBytes(bs[start..start + ADDRESS_LENGTH])];
      keys := keys + [FromBytes(bs[start + ADDRESS_LENGTH..start + VALIDATOR_BYTES_LEN_AFTER_LUBAN])];
    }
    var parsed := ParseKeyed(bs);
    assert parsed.consensusAddrs[..count] == parsed.consensusAddrs;
    assert parsed.voteAddrs.value[..count] == parsed.voteAddrs.value;
    info := ValidatorsInfo(addrs, Some(keys));
  }

  method ReadPlain(bs: seq<Byte>) returns (info: ValidatorsInfo)
    ensures info == ParsePlain(bs)
  {
    var count := |bs| / VALIDATOR_BYTES_LEN_BEFORE_LUBAN;
    var addrs: seq<Address> := [];
    for i := 0 to count
      invariant addrs == ParsePlain(bs).consensusAddrs[..i]
    {
      var start := i * VALIDATOR_BYTES_LEN_BEFORE_LUBAN;
      addrs := addrs + [FromBytes(bs[start..start + VALIDATOR_BYTES_LEN_BEFORE_LUBAN])];
    }
    info := ValidatorsInfo(addrs, None);
  }

  /** Builds the key table, sorts, and appends one record per validator. */
  method AppendValidators(spec: ChainSpec, number: nat, extra: seq<Byte>,
                          validators: seq<Address>, keys: seq<VoteAddress>) returns (r: seq<Byte>)
    ensures r == extra + ValidatorField(spec, number, validators, keys)
  {
    var sorted := Sorted(validators);
    if !spec.LubanActive(number) {
      r := AppendPlain(extra, sorted);
    } else {
      var found := PairWrittenKeys(spec, number, validators, keys);
      var count: seq<Byte> := [|validators| % 256];
      r := AppendKeyed(extra + count, sorted, found);
      Associate(extra, count, Join(KeyedChunks(sorted, found)));
    }
  }

  lemma Associate(a: seq<Byte>, b: seq<Byte>, c: seq<Byte>)
    ensures (a + b) + c == a + (b + c)
  {
  }

  method AppendPlain(extra: seq<Byte>, vs: seq<Address>) returns (r: seq<Byte>)
    ensures r == extra + Join(PlainChunks(vs))
  {
    r := extra;
    for i := 0 to |vs|
      invariant r == extra + Join(PlainChunks(vs)[..i])
    {
      assert PlainChunks(vs)[..i + 1][..i] == PlainChunks(vs)[..i];
      r := r + ToBytes(ADDRESS_LENGTH, vs[i]);
    }
    assert PlainChunks(vs)[..|vs|] == PlainChunks(vs);
  }

  method AppendKeyed(extra: seq<Byte>, vs: seq<Address>, found: map<Address, VoteAddress>) returns (r: seq<Byte>)
    ensures r == extra + Join(KeyedChunks(vs, found))
  {
    r := extra;
    for i := 0 to |vs|
      invariant r == extra + Join(KeyedChunks(vs, found)[..i])
    {
      assert KeyedChunks(vs, found)[..i + 1][..i] == KeyedChunks(vs, found)[..i];
      r := r + ToBytes(ADDRESS_LENGTH, vs[i]);
      r := r + ToBytes(VOTE_ADDRESS_LENGTH, KeyOf(found, vs[i]));
    }
    assert KeyedChunks(vs, found)[..|vs|] == KeyedChunks(vs, found);
  }

  method PairWrittenKeys(spec: ChainSpec, number: nat, validators: seq<Address>, keys: seq<VoteAddress>)
    returns (found: map<Address, VoteAddress>)
    ensures found == KeyMap(validators, WrittenKeys(spec, number, validators, keys))
  {
    ghost var written := WrittenKeys(spec, number, validators, keys);
    found := map[];
    for i := 0 to |validators|
      invariant found == KeyMap(validators[..i], written[..i])
    {
      assert validators[..i + 1][..i] == validators[..i];
      assert written[..i + 1][..i] == written[..i];
      if spec.LubanTransition(number) {
        found := found[validators[i] := ZERO_VOTE_ADDRESS];
      } else if i < |keys| {
        found := found[validators[i] := keys[i]];
      } else {
        found := found[validators[i] := ZERO_VOTE_ADDRESS];
      }
    }
    assert validators[..|validators|] == validators && written[..|validators|] == written;
  }

  // ---------------------------------------------------------------------------
  // The round trip
  // ---------------------------------------------------------------------------

  predicate AddressFits(v: Address) {
    Fits(v, ADDRESS_LENGTH)
  }

  predicate KeyFits(key: VoteAddress) {
    Fits(key, VOTE_ADDRESS_LENGTH)
  }

  ghost predicate AddressesFit(vs: seq<Address>) {
    forall i :: 0 <= i < |vs| ==> AddressFits(vs[i])
  }

  ghost predicate KeysFit(vs: seq<Address>, found: map<Address, VoteAddress>) {
    forall i :: 0 <= i < |vs| ==> KeyFits(KeyOf(found, vs[i]))
  }

  lemma PlainRoundTrip(vs: seq<Address>)
    requires AddressesFit(vs)
    ensures ParsePlain(Join(PlainChunks(vs))) == ValidatorsInfo(vs, None)
  {
    var chunks := PlainChunks(vs);
    var bs := Join(chunks);
    JoinLength(chunks, 20);
    forall i | 0 <= i < |vs|
      ensures (i + 1) * 20 <= |bs| && PlainAt(bs, i) == vs[i]
    {
      assert AddressFits(vs[i]);
      JoinAt(chunks, 20, i);
      BytesRoundTrip(ADDRESS_LENGTH, vs[i]);
    }
  }

  lemma ChunkReadsBack(v: Address, key: VoteAddress)
    requires AddressFits(v) && KeyFits(key)
    ensures FromBytes(KeyedChunk(v, key)[..20]) == v
    ensures FromBytes(KeyedChunk(v, key)[20..]) == key
  {
    BytesRoundTrip(ADDRESS_LENGTH, v);
    BytesRoundTrip(VOTE_ADDRESS_LENGTH, key);
    assert KeyedChunk(v, key)[..20] == ToBytes(ADDRESS_LENGTH, v);
    assert KeyedChunk(v, key)[20..] == ToBytes(VOTE_ADDRESS_LENGTH, key);
  }

  lemma KeyedRecord(vs: seq<Address>, found: map<Address, VoteAddress>, i: nat)
    requires i < |vs| && AddressFits(vs[i]) && KeyFits(KeyOf(found, vs[i]))
    ensures (i + 1) * 68 <= |Join(KeyedChunks(vs, found))|
    ensures KeyedAt(Join(KeyedChunks(vs, found)), i) == (vs[i], KeyOf(found, vs[i]))
  {
    var chunks := KeyedChunks(vs, found);
    var bs := Join(chunks);
    JoinAt(chunks, 68, i);
    ChunkReadsBack(vs[i], KeyOf(found, vs[i]));
    var chunk := bs[i * 68..i * 68 + 68];
    assert chunk == KeyedChunk(vs[i], KeyOf(found, vs[i]));
    assert bs[i * 68..i * 68 + 20] == chunk[..20];
    assert bs[i * 68 + 20..i * 68 + 68] == chunk[20..];
  }

  /** The keys of the validators vs, in their order. */
  function KeysInOrder(vs: seq<Address>, found: map<Address, VoteAddress>): seq<VoteAddress> {
    seq(|vs|, i requires 0 <= i < |vs| => KeyOf(found, vs[i]))
  }

  lemma KeyedRoundTrip(vs: seq<Address>, found: map<Address, VoteAddress>)
    requires AddressesFit(vs) && KeysFit(vs, found)
    ensures |Join(KeyedChunks(vs, found))| == |vs| * 68
    ensures ParseKeyed(Join(KeyedChunks(vs, found))) == ValidatorsInfo(vs, Some(KeysInOrder(vs, found)))
  {
    var bs := Join(KeyedChunks(vs, found));
    JoinLength(KeyedChunks(vs, found), 68);
    forall i | 0 <= i < |vs|
      ensures (i + 1) * 68 <= |bs| && KeyedAt(bs, i) == (vs[i], KeyOf(found, vs[i]))
    {
      assert AddressFits(vs[i]) && KeyFits(KeyOf(found, vs[i]));
      KeyedRecord(vs, found, i);
    }
    assert |bs| / 68 == |vs|;
    assert ParseKeyed(bs).consensusAddrs == vs;
    assert ParseKeyed(bs).voteAddrs.value == KeysInOrder(vs, found);
  }

  /** A draft for an epoch block with field values that fit their widths. */
  ghost predicate GoodDraft(d: Draft) {
    && |d.vanity| == EXTRA_VANITY_LEN && |d.seal| == EXTRA_SEAL_LEN
    && d.validators.Some? && d.turnLength.Some?
    && Distinct(d.validators.value.0)
    && (forall v :: v in d.validators.value.0 ==> AddressFits(v))
    && (forall k :: k in d.validators.value.1 ==> KeyFits(k))
  }

  /** The key table of a draft. */
  ghost function DraftKeys(spec: ChainSpec, number: nat, d: Draft): map<Address, VoteAddress>
    requires d.validators.Some?
  {
    KeyMap(d.validators.value.0, WrittenKeys(spec, number, d.validators.value.0, d.validators.value.1))
  }

  lemma DraftKeysFit(spec: ChainSpec, number: nat, d: Draft)
    requires GoodDraft(d)
    ensures AddressesFit(Sorted(d.validators.value.0))
    ensures KeysFit(Sorted(d.validators.value.0), DraftKeys(spec, number, d))
  {
    var vs := d.validators.value.0;
    var written := WrittenKeys(spec, number, vs, d.validators.value.1);
    PowPositive(VOTE_ADDRESS_LENGTH);
    forall i | 0 <= i < |vs|
      ensures AddressFits(Sorted(vs)[i])
      ensures KeyFits(KeyOf(DraftKeys(spec, number, d), Sorted(vs)[i]))
    {
      SortedMembers(vs, Sorted(vs)[i]);
      var j :| 0 <= j < |vs| && vs[j] == Sorted(vs)[i];
      OwnKey(vs, written, j);
      assert written[j] == ZERO_VOTE_ADDRESS || written[j] in d.validators.value.1;
    }
  }

  lemma {:induction false} PowPositive(n: nat)
    ensures Pow256(n) > 0 && Fits(0, n)
  {
    if n > 0 {
      PowPositive(n - 1);
    }
  }

  /** The five fields of the extra data, in order. */
  lemma Tiles(a: seq<Byte>, b: seq<Byte>, c: seq<Byte>, d: seq<Byte>, e: seq<Byte>)
    ensures var x := a + b + c + d + e;
            && |x| == |a| + |b| + |c| + |d| + |e|
            && x[|a|..|a| + |b|] == b
            && x[|a| + |b|..|a| + |b| + |c|] == c
            && x[|a| + |b| + |c|..|x| - |e|] == d
            && x[|x| - |e|..] == e
  {
  }

  /** The turn-length field: one byte from Bohr on. */
  function TurnField(spec: ChainSpec, number: nat, timestamp: nat, d: Draft): seq<Byte>
    requires d.turnLength.Some?
  {
    if spec.BohrActive(number, timestamp) then [d.turnLength.value] else []
  }

  /** A header whose extra data was written from the draft at an epoch block. */
  ghost predicate WroteEpoch(spec: ChainSpec, epochNum: nat, h: Header, d: Draft) {
    && epochNum >= 1 && h.number % epochNum == 0 && GoodDraft(d)
    && Written(spec, epochNum, h.number, h.timestamp, d) == Ok(h.extra)
  }

  lemma EpochLayout(spec: ChainSpec, epochNum: nat, h: Header, d: Draft)
    requires WroteEpoch(spec, epochNum, h, d)
    ensures var field := ValidatorField(spec, h.number, d.validators.value.0, d.validators.value.1);
            var turn := TurnField(spec, h.number, h.timestamp, d);
            && |h.extra| == 32 + |field| + |turn| + |d.attestation| + 65
            && h.extra[32..32 + |field|] == field
            && h.extra[32 + |field|..32 + |field| + |turn|] == turn
            && h.extra[32 + |field| + |turn|..|h.extra| - 65] == d.attestation
  {
    var field := ValidatorField(spec, h.number, d.validators.value.0, d.validators.value.1);
    var turn := TurnField(spec, h.number, h.timestamp, d);
    Tiles(d.vanity, field, turn, d.attestation, d.seal);
    assert d.vanity + field + [] == d.vanity + field;
    assert h.extra == d.vanity + field + turn + d.attestation + d.seal;
  }

  /** The layout from Luban on: count byte, n records, turn length, attestation, seal. */
  ghost predicate LubanShape(spec: ChainSpec, h: Header, epochNum: nat, n: nat, records: seq<Byte>,
                             turn: seq<Byte>, attestation: seq<Byte>)
  {
    && epochNum >= 1 && h.number % epochNum == 0 && spec.LubanActive(h.number)
    && |records| == n * 68
    && |turn| == (if spec.BohrActive(h.number, h.timestamp) then 1 else 0)
    && |h.extra| == 33 + |records| + |turn| + |attestation| + 65
    && h.extra[32] == n % 256
    && h.extra[33..33 + |records|] == records
    && h.extra[33 + |records|..33 + |records| + |turn|] == turn
    && h.extra[33 + |records| + |turn|..|h.extra| - 65] == attestation
  }

  /** The records of a draft. */
  ghost function Records(spec: ChainSpec, number: nat, d: Draft): seq<Byte>
    requires d.validators.Some?
  {
    Join(KeyedChunks(Sorted(d.validators.value.0), DraftKeys(spec, number, d)))
  }

  lemma LubanLayout(spec: ChainSpec, epochNum: nat, h: Header, d: Draft)
    requires WroteEpoch(spec, epochNum, h, d) && spec.LubanActive(h.number)
    ensures LubanShape(spec, h, epochNum, |d.validators.value.0|, Records(spec, h.number, d),
                       TurnField(spec, h.number, h.timestamp, d), d.attestation)
  {
    var vs := d.validators.value.0;
    var records := Records(spec, h.number, d);
    var field := ValidatorField(spec, h.number, vs, d.validators.value.1);
    EpochLayout(spec, epochNum, h, d);
    JoinLength(KeyedChunks(Sorted(vs), DraftKeys(spec, h.number, d)), 68);
    assert field[0] == |vs| % 256 && field[1..] == records;
    assert h.extra[32] == h.extra[32..32 + |field|][0];
    assert h.extra[33..33 + |records|] == h.extra[32..32 + |field|][1..];
  }

  lemma ShapeGivesRecords(spec: ChainSpec, h: Header, epochNum: nat, n: nat, records: seq<Byte>,
                          turn: seq<Byte>, attestation: seq<Byte>)
    requires LubanShape(spec, h, epochNum, n, records, turn, attestation)
    ensures 1 <= n <= 255 ==> GetValidatorBytes(spec, h, epochNum) == Some(records)
    ensures GetValidatorBytes(spec, h, epochNum).Some? ==>
              |GetValidatorBytes(spec, h, epochNum).value| == (n % 256) * 68 > 0
  {
  }

  lemma ShapeGivesFields(spec: ChainSpec, h: Header, epochNum: nat, n: nat, records: seq<Byte>,
                         turn: seq<Byte>, attestation: seq<Byte>)
    requires LubanShape(spec, h, epochNum, n, records, turn, attestation) && 1 <= n <= 255
    ensures GetTurnLength(spec, h, epochNum) == Ok(if turn == [] then None else Some(turn[0]))
    ensures AttestationBytes(spec, h, epochNum) == attestation
    ensures CheckHeaderExtra(spec, h, epochNum) == Ok(())
  {
    if turn != [] {
      assert h.extra[33 + |records|] == h.extra[33 + |records|..33 + |records| + |turn|][0];
    }
  }

  /** What a reader is meant to get back for the validators. */
  ghost function WantedInfo(spec: ChainSpec, number: nat, d: Draft): ValidatorsInfo
    requires d.validators.Some?
  {
    var sorted := Sorted(d.validators.value.0);
    ValidatorsInfo(sorted, if spec.LubanActive(number) then Some(KeysInOrder(sorted, DraftKeys(spec, number, d))) else None)
  }

  /** Each validator reads back next to the key that was written for it. */
  lemma ReadKeysAreOwn(spec: ChainSpec, number: nat, d: Draft, i: nat) returns (j: nat)
    requires GoodDraft(d) && spec.LubanActive(number) && i < |d.validators.value.0|
    ensures var vs := d.validators.value.0;
            && j < |vs| && vs[j] == WantedInfo(spec, number, d).consensusAddrs[i]
            && WantedInfo(spec, number, d).voteAddrs.value[i]
               == WrittenKeys(spec, number, vs, d.validators.value.1)[j]
  {
    var vs := d.validators.value.0;
    SortedMembers(vs, Sorted(vs)[i]);
    j :| 0 <= j < |vs| && vs[j] == Sorted(vs)[i];
    OwnKey(vs, WrittenKeys(spec, number, vs, d.validators.value.1), j);
  }

  /** What parses as a validator list at an epoch block is not empty, and its keys match it. */
  lemma ParsedIsUsable(spec: ChainSpec, h: Header, epochLength: nat)
    requires epochLength >= 1 && h.number % epochLength == 0
    requires ParseValidators(spec, h, epochLength).Ok?
    ensures var info := ParseValidators(spec, h, epochLength).value;
            info.consensusAddrs != [] && KeysMatch(info.consensusAddrs, info.voteAddrs)
  {
  }

  /**
   From Luban on, the validators and their keys read back as written exactly when
   there are 1 to 255 of them: the count is one byte.
   */
  lemma LubanValidatorsReadBack(spec: ChainSpec, epochNum: nat, h: Header, d: Draft)
    requires WroteEpoch(spec, epochNum, h, d) && spec.LubanActive(h.number)
    ensures ParseValidators(spec, h, epochNum) == Ok(WantedInfo(spec, h.number, d))
            <==> 1 <= |d.validators.value.0| <= 255
  {
    var vs := d.validators.value.0;
    var records := Records(spec, h.number, d);
    LubanLayout(spec, epochNum, h, d);
    ShapeGivesRecords(spec, h, epochNum, |vs|, records, TurnField(spec, h.number, h.timestamp, d), d.attestation);
    DraftKeysFit(spec, h.number, d);
    KeyedRoundTrip(Sorted(vs), DraftKeys(spec, h.number, d));
    var bytes := GetValidatorBytes(spec, h, epochNum);
    if bytes.Some? {
      assert ParseValidators(spec, h, epochNum) == Ok(ParseKeyed(bytes.value));
      assert |ParseKeyed(bytes.value).consensusAddrs| == |vs| % 256;
    }
  }

  /** Before Luban the validators read back for every non-empty set. */
  lemma PlainValidatorsReadBack(spec: ChainSpec, epochNum: nat, h: Header, d: Draft)
    requires WroteEpoch(spec, epochNum, h, d) && !spec.LubanActive(h.number)
    requires !spec.BohrActive(h.number, h.timestamp) && d.attestation == []
    ensures ParseValidators(spec, h, epochNum) == Ok(WantedInfo(spec, h.number, d)) <==> d.validators.value.0 != []
    ensures d.validators.value.0 != [] ==> CheckHeaderExtra(spec, h, epochNum) == Ok(())
  {
    var sorted := Sorted(d.validators.value.0);
    var field := Join(PlainChunks(sorted));
    PlainLayout(spec, epochNum, h, d);
    DraftKeysFit(spec, h.number, d);
    PlainRoundTrip(sorted);
    PlainShape(spec, h, epochNum, |sorted|, field);
  }

  lemma PlainLayout(spec: ChainSpec, epochNum: nat, h: Header, d: Draft)
    requires WroteEpoch(spec, epochNum, h, d) && !spec.LubanActive(h.number)
    requires !spec.BohrActive(h.number, h.timestamp) && d.attestation == []
    ensures var field := Join(PlainChunks(Sorted(d.validators.value.0)));
            && |field| == |d.validators.value.0| * 20
            && |h.extra| == 32 + |field| + 65 && h.extra[32..|h.extra| - 65] == field
  {
    EpochLayout(spec, epochNum, h, d);
    JoinLength(PlainChunks(Sorted(d.validators.value.0)), 20);
  }

  lemma PlainShape(spec: ChainSpec, h: Header, epochNum: nat, n: nat, field: seq<Byte>)
    requires epochNum >= 1 && h.number % epochNum == 0 && !spec.LubanActive(h.number)
    requires |field| == n * 20 && |h.extra| == 32 + |field| + 65 && h.extra[32..|h.extra| - 65] == field
    ensures GetValidatorBytes(spec, h, epochNum) == if n == 0 then None else Some(field)
    ensures n > 0 ==> CheckHeaderExtra(spec, h, epochNum) == Ok(())
  {
  }

  /** What the attestation bytes of a draft are meant to be read as. */
  function Meant(raw: seq<Byte>, decode: Decoder): Result<Option<VoteAttestation>> {
    if raw == [] then Ok(None)
    else
      match decode(raw)
      case None => Err(ExtraInvalidAttestation)
      case Some(a) => Ok(Some(a))
  }

  /** The other fields of an epoch block from Luban on. */
  lemma LubanFieldsReadBack(spec: ChainSpec, epochNum: nat, h: Header, d: Draft, decode: Decoder)
    requires WroteEpoch(spec, epochNum, h, d) && spec.LubanActive(h.number)
    requires 1 <= |d.validators.value.0| <= 255
    ensures GetTurnLength(spec, h, epochNum)
         == Ok(if spec.BohrActive(h.number, h.timestamp) then d.turnLength else None)
    ensures GetVoteAttestation(spec, h, epochNum, decode) == Meant(d.attestation, decode)
    ensures CheckHeaderExtra(spec, h, epochNum) == Ok(())
  {
    LubanLayout(spec, epochNum, h, d);
    ShapeGivesFields(spec, h, epochNum, |d.validators.value.0|, Records(spec, h.number, d),
                     TurnField(spec, h.number, h.timestamp, d), d.attestation);
  }

  /** Between epochs the extra data is vanity, attestation and seal; before Luban no attestation is read. */
  lemma PlainBlockReadsBack(spec: ChainSpec, epochNum: nat, h: Header, d: Draft, decode: Decoder)
    requires epochNum >= 1 && h.number % epochNum != 0
    requires |d.vanity| == EXTRA_VANITY_LEN && |d.seal| == EXTRA_SEAL_LEN
    requires Written(spec, epochNum, h.number, h.timestamp, d) == Ok(h.extra)
    ensures GetVoteAttestation(spec, h, epochNum, decode)
         == if spec.LubanActive(h.number) then Meant(d.attestation, decode) else Ok(None)
    ensures spec.LubanActive(h.number) ==> ParseValidators(spec, h, epochNum) == Err(InvalidHeaderExtraLen)
    ensures GetTurnLength(spec, h, epochNum) == Ok(None)
    ensures CheckHeaderExtra(spec, h, epochNum) == Ok(())
  {
    assert h.extra == d.vanity + d.attestation + d.seal;
    assert h.extra[32..|h.extra| - 65] == d.attestation;
  }

  /**
   The stateless check, with numbers. Between epochs it asks for vanity and seal. At an
   epoch block it passes exactly what parses, and under Bohr one length more, in which the
   turn length is missing.
   */
  lemma CheckIsExact(spec: ChainSpec, h: Header, epochLength: nat)
    requires epochLength >= 1
    ensures |h.extra| < 32 ==> CheckHeaderExtra(spec, h, epochLength) == Err(ExtraVanityMissing)
    ensures 32 <= |h.extra| < 97 ==> CheckHeaderExtra(spec, h, epochLength) == Err(ExtraSignatureMissing)
    ensures h.number % epochLength != 0 ==> (CheckHeaderExtra(spec, h, epochLength).Ok? <==> |h.extra| >= 97)
    ensures h.number % epochLength == 0 ==>
              (CheckHeaderExtra(spec, h, epochLength).Ok? <==>
                 || ParseValidators(spec, h, epochLength).Ok?
                 || (&& spec.LubanActive(h.number) && spec.BohrActive(h.number, h.timestamp)
                     && |h.extra| > 98 && |h.extra| == 98 + 68 * (h.extra[32] as int)))
  {
    if |h.extra| >= 97 {
      var bytes := |h.extra| - 97;
      Arith.DivBounds(bytes, 20);
    }
  }
}
