/**
 What goes wrong off the canonical chain: two branches whose checkpoints announce
 different sets, and a rebuild that reads the wrong one.
 */
module OtherBranches {
  import opened Types
  import opened Sorting
  import opened Snapshots
  import opened ExtraData
  import opened Provider

  /** The draft is one whose validators read back. */
  ghost predicate Readable(spec: ChainSpec, h: Header, d: Draft)
    requires d.validators.Some?
  {
    if spec.LubanActive(h.number) then 1 <= |d.validators.value.0| <= 255
    else d.validators.value.0 != [] && !spec.BohrActive(h.number, h.timestamp) && d.attestation == []
  }

  /** A checkpoint announces the validators it was written with. */
  lemma ReadsItsSet(spec: ChainSpec, e: nat, h: Header, d: Draft)
    requires WroteEpoch(spec, e, h, d) && Readable(spec, h, d)
    ensures ReadCheckpoint(spec, h, e).Some?
    ensures ReadCheckpoint(spec, h, e).value.validators == Sorted(d.validators.value.0)
  {
    if spec.LubanActive(h.number) {
      LubanValidatorsReadBack(spec, e, h, d);
      LubanFieldsReadBack(spec, e, h, d, _ => None);
    } else {
      PlainValidatorsReadBack(spec, e, h, d);
    }
  }

  /** Different validators sort to different lists. */
  lemma DifferentSets(a: seq<Address>, b: seq<Address>)
    requires multiset(a) != multiset(b)
    ensures Sorted(Sorted(a)) != Sorted(Sorted(b))
  {
    SortedIsSorting(a);
    SortedIsSorting(b);
    SortedIsSorting(Sorted(a));
    SortedIsSorting(Sorted(b));
  }

  /**
   Whenever the checkpoint found on another branch was written with other validators, and
   the block passes the checks and switches the set, the rebuilt snapshot is wrong.
   */
  lemma OtherSetHarms(spec: ChainSpec, decode: Decoder, s: Snapshot, header: Header,
                      found: Header, other: Draft, own: Header, mine: Draft)
    requires s.WellFormed() && IsBoundary(s, header.number)
    requires found.number == own.number == header.number - s.MinerHistoryCheckLen()
    requires TurnOk(spec, found) && TurnOk(spec, own)
    requires WroteEpoch(spec, s.epochNum, found, other) && Readable(spec, found, other)
    requires WroteEpoch(spec, s.epochNum, own, mine) && Readable(spec, own, mine)
    requires multiset(other.validators.value.0) != multiset(mine.validators.value.0)
    requires GetVoteAttestation(spec, header, s.epochNum, decode).Ok? && Passes(spec, s, header)
    requires !Marked(spec, s, header, GetVoteAttestation(spec, header, s.epochNum, decode).value)
    ensures ApplyHeader(spec, decode, s, header, Some(found)) != ApplyHeader(spec, decode, s, header, Some(own))
  {
    ReadsItsSet(spec, s.epochNum, found, other);
    ReadsItsSet(spec, s.epochNum, own, mine);
    DifferentSets(other.validators.value.0, mine.validators.value.0);
    HarmlessIsExact(spec, decode, s, header, found, own);
  }

  // ---------------------------------------------------------------------------
  // A concrete case
  // ---------------------------------------------------------------------------

  function Zeros(n: nat): (r: seq<Byte>)
    ensures |r| == n
  {
    seq(n, _ => 0)
  }

  /** The draft that announces validator v alone. */
  function Announcing(v: Address): Draft {
    Draft(Zeros(32), Some(([v], [])), Some(1), [], Zeros(65))
  }

  lemma {:induction false} SmallFits(x: nat, n: nat)
    requires x < 256 && n >= 1
    ensures Fits(x, n)
  {
    if n > 1 {
      SmallFits(x, n - 1);
    }
  }

  lemma AnnouncingIsGood(v: Address)
    requires v < 256
    ensures GoodDraft(Announcing(v))
  {
    SmallFits(v, ADDRESS_LENGTH);
  }

  /**
   Before Luban, at block 400 of a chain of one validator with epochs of 200 blocks. The
   block hands over to validator 2; on the canonical branch block 400 keeps validator 1.
   The rebuild of the first block reads the second, and its snapshot is not the replay.
   */
  lemma TwoBranches(spec: ChainSpec, decode: Decoder, s: Snapshot, header: Header, canonical: Header)
    requires s.validators == [1] && s.turnLength == Some(1) && s.epochNum == 200
    requires s.blockNumber == 399 && s.recentProposers == map[]
    requires header.number == canonical.number == 400 && header.beneficiary == 1
    requires !spec.LubanActive(400) && !spec.BohrActive(400, header.timestamp) && !spec.BohrActive(400, canonical.timestamp)
    requires Written(spec, 200, 400, header.timestamp, Announcing(2)) == Ok(header.extra)
    requires Written(spec, 200, 400, canonical.timestamp, Announcing(1)) == Ok(canonical.extra)
    ensures IsBoundary(s, 400) && s.MinerHistoryCheckLen() == 0
    ensures TurnOk(spec, canonical) && TurnOk(spec, header)
    ensures ApplyHeader(spec, decode, s, header, Some(canonical)) != ApplyHeader(spec, decode, s, header, Some(header))
  {
    AnnouncingIsGood(1);
    AnnouncingIsGood(2);
    assert multiset([1]) != multiset([2]) by {
      assert 1 in multiset([1]) && 1 !in multiset([2]);
    }
    assert 400 % 200 == 0;
    OtherSetHarms(spec, decode, s, header, canonical, Announcing(1), header, Announcing(2));
  }
}
