/**
 The vote producer of src/node/vote_producer.rs: the gates before a vote, the choice of
 source and target, and the order check, sign, persist.
 */
module VoteProducer {
  import opened Types
  import opened VoteJournal
  import JournalSafety
  import opened Finality

  /** What the producer reads besides its own state. */
  datatype Situation = Situation(
    miningEnabled: bool,
    downloaderIdle: bool,
    lubanActive: bool,
    signerReady: bool,
    node: Option<Node>,
    keyInSet: bool,
    inTime: bool,
    genesisKnown: bool,
    warmup: nat
  )

  /** The producer's vote needs the genesis header only while nothing is justified. */
  predicate SourceKnown(sit: Situation, node: Node) {
    node.votes.targetHash == ZERO_HASH ==> sit.genesisKnown
  }

  // ---------------------------------------------------------------------------
  // The warm-up
  // ---------------------------------------------------------------------------

  /** How a call ends before or at the warm-up counter. */
  datatype Call = MiningDisabled | Gated | Counted

  function NextCount(count: nat, warmup: nat, call: Call): nat {
    match call
    case MiningDisabled => 0
    case Gated => count
    case Counted => if count + 1 <= warmup then count + 1 else warmup
  }

  /** The counter after these calls. */
  function CountAfter(warmup: nat, calls: seq<Call>): nat {
    if calls == [] then 0
    else NextCount(CountAfter(warmup, calls[..|calls| - 1]), warmup, calls[|calls| - 1])
  }

  /** The calls that reached the counter since mining was last disabled. */
  function CountedSince(calls: seq<Call>): nat {
    if calls == [] then 0
    else
      match calls[|calls| - 1]
      case MiningDisabled => 0
      case Gated => CountedSince(calls[..|calls| - 1])
      case Counted => CountedSince(calls[..|calls| - 1]) + 1
  }

  /**
   Warm-up over whole runs: the counter lets the next head through exactly when, since
   mining was last disabled, at least warmup heads reached it.
   */
  lemma {:induction false} WarmupIsServed(warmup: nat, calls: seq<Call>)
    ensures CountAfter(warmup, calls) == if CountedSince(calls) < warmup then CountedSince(calls) else warmup
    ensures CountAfter(warmup, calls) + 1 > warmup <==> CountedSince(calls) >= warmup
  {
    if calls != [] {
      WarmupIsServed(warmup, calls[..|calls| - 1]);
    }
  }

  // ---------------------------------------------------------------------------
  // The producer
  // ---------------------------------------------------------------------------

  class Producer {
    const cfg: Config
    const journal: Journal
    var blocksSinceMining: nat
    var producedTargets: set<Hash>

    ghost predicate Valid()
      reads this, journal, journal.lru
    {
      journal.Valid()
    }

    /** The journal as a state of the journal runs. */
    ghost function JournalNow(): JournalSafety.JournalState
      reads this, journal, journal.lru
    {
      JournalSafety.JournalState(Records(journal.file), journal.lru.Contents())
    }

    constructor (cfg: Config, journal: Journal)
      requires journal.Valid()
      ensures Valid() && this.cfg == cfg && this.journal == journal
      ensures blocksSinceMining == 0 && producedTargets == {}
    {
      this.cfg := cfg;
      this.journal := journal;
      blocksSinceMining := 0;
      producedTargets := {};
    }

    /** The gates that come before the warm-up counter. */
    predicate Admitted(head: Hash, sit: Situation)
      reads this
    {
      sit.miningEnabled && sit.downloaderIdle && sit.lubanActive && sit.signerReady && head !in producedTargets
    }

    function CallOf(head: Hash, sit: Situation): Call
      reads this
    {
      if !sit.miningEnabled then MiningDisabled else if Admitted(head, sit) then Counted else Gated
    }

    /** The gates after it, up to the rules. */
    predicate MayVote(sit: Situation) {
      sit.node.Some? && sit.keyInSet && sit.inTime && SourceKnown(sit, sit.node.value)
    }

    /**
     Produces the vote for head, if all gates are open and the rules allow it. The vote
     is the one BallotFor names, and the journal makes exactly the step of offering it.
     */
    method MaybeProduce(head: Hash, sit: Situation) returns (vote: Option<VoteData>)
      requires Valid()
      requires sit.node.Some? ==> sit.node.value.number < NUMBER_LIMIT && sit.node.value.votes.targetNumber < NUMBER_LIMIT
      modifies this, journal`file, journal.lru
      ensures Valid() && journal.lru == old(journal.lru)
      ensures vote.Some? <==>
                && old(Admitted(head, sit)) && old(blocksSinceMining) + 1 > sit.warmup && MayVote(sit)
                && var data := BallotFor(cfg, head, sit.node.value);
                   UnderRules(old(journal.lru.Contents()).entries, data.sourceNumber, data.targetNumber)
      ensures vote.Some? ==> vote.value == BallotFor(cfg, head, sit.node.value)
      ensures JournalNow() == if vote.Some? then JournalSafety.Step(old(JournalNow()), JournalSafety.Offer(vote.value))
                              else old(JournalNow())
      ensures blocksSinceMining == NextCount(old(blocksSinceMining), sit.warmup, old(CallOf(head, sit)))
      ensures if old(Admitted(head, sit)) then head in producedTargets && producedTargets <= old(producedTargets) + {head}
              else producedTargets == old(producedTargets)
    {
      if !sit.miningEnabled {
        blocksSinceMining := 0;
        return None;
      }
      if !sit.downloaderIdle || !sit.lubanActive || !sit.signerReady {
        return None;
      }
      if head in producedTargets {
        return None;
      }
      // The bounded cache may drop any older targets.
      var kept: set<Hash> := *;
      producedTargets := producedTargets * kept + {head};
      blocksSinceMining := blocksSinceMining + 1;
      if blocksSinceMining <= sit.warmup {
        return None;
      }
      blocksSinceMining := sit.warmup;
      if sit.node.None? || !sit.keyInSet || !sit.inTime {
        return None;
      }
      vote := CheckAndSign(head, sit);
    }

    /** Source and target, the rules, the signature, then the journal. */
    method CheckAndSign(head: Hash, sit: Situation) returns (vote: Option<VoteData>)
      requires Valid() && sit.node.Some?
      requires sit.node.value.number < NUMBER_LIMIT && sit.node.value.votes.targetNumber < NUMBER_LIMIT
      modifies journal`file, journal.lru
      ensures Valid() && journal.lru == old(journal.lru)
      ensures vote.Some? <==>
                && SourceKnown(sit, sit.node.value)
                && var data := BallotFor(cfg, head, sit.node.value);
                   UnderRules(old(journal.lru.Contents()).entries, data.sourceNumber, data.targetNumber)
      ensures vote.Some? ==> vote.value == BallotFor(cfg, head, sit.node.value)
      ensures JournalNow() == if vote.Some? then JournalSafety.Step(old(JournalNow()), JournalSafety.Offer(vote.value))
                              else old(JournalNow())
    {
      var node := sit.node.value;
      var sourceNumber, sourceHash := node.votes.targetNumber, node.votes.targetHash;
      if sourceHash == ZERO_HASH {
        if !sit.genesisKnown {
          return None;
        }
        sourceNumber, sourceHash := 0, cfg.genesis;
      }
      var allowed := journal.CheckRules(sourceNumber, node.number);
      if !allowed {
        return None;
      }
      var data := VoteData(sourceNumber, sourceHash, node.number, head);
      ghost var before := journal.file;
      journal.WriteVote(data);
      assert journal.file[..|journal.file| - 1] == before;
      return Some(data);
    }
  }
}
