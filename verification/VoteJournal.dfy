/**
 The vote journal of src/node/vote_journal.rs: a FIFO cache of the recent votes,
 the file behind it and the two voting rules.
 */
module VoteJournal {
  import opened Types

  /** Entries kept in memory and reloaded from disk. */
  const MAX_RECENT_ENTRIES: nat := 512

  /** How far below the target the backward rule looks. */
  const MALICIOUS_VOTE_SLASH_SCOPE: nat := 256

  /** How far above the target the forward rule looks. */
  const UPPER_LIMIT_OF_VOTE_BLOCK_NUMBER: nat := 11

  // ---------------------------------------------------------------------------
  // Specification of the cache
  // ---------------------------------------------------------------------------

  /** What the cache holds: the keys in insertion order and the vote of each key. */
  datatype Cache = Cache(order: seq<nat>, entries: map<nat, VoteData>)

  const EMPTY_CACHE := Cache([], map[])

  function Added(c: Cache, capacity: nat, key: nat, value: VoteData): Cache {
    if key in c.entries then
      c.(entries := c.entries[key := value])
    else
      var order := c.order + [key];
      if |order| > capacity then
        Cache(order[1..], (c.entries - {order[0]})[key := value])
      else
        Cache(order, c.entries[key := value])
  }

  function AddedAll(c: Cache, capacity: nat, votes: seq<VoteData>): Cache
    decreases |votes|
  {
    if votes == [] then c
    else
      var init := votes[..|votes| - 1];
      var v := votes[|votes| - 1];
      Added(AddedAll(c, capacity, init), capacity, v.targetNumber, v)
  }

  // ---------------------------------------------------------------------------
  // Specification of the file
  // ---------------------------------------------------------------------------

  /** A line of the journal file: a vote, or text that is blank or does not parse. */
  datatype Line = Unreadable | Record(data: VoteData)

  function Records(lines: seq<Line>): (votes: seq<VoteData>) {
    if lines == [] then []
    else
      var init := Records(lines[..|lines| - 1]);
      match lines[|lines| - 1]
      case Unreadable => init
      case Record(v) => init + [v]
  }

  /** The last n elements of s, or all of them. */
  function LastN<T>(s: seq<T>, n: nat): (r: seq<T>) {
    if |s| <= n then s else s[|s| - n..]
  }

  /** The cache a restarted node rebuilds from its file. */
  function Reloaded(lines: seq<Line>): Cache {
    AddedAll(EMPTY_CACHE, MAX_RECENT_ENTRIES, LastN(Records(lines), MAX_RECENT_ENTRIES))
  }

  // ---------------------------------------------------------------------------
  // Specification of the voting rules
  // ---------------------------------------------------------------------------

  /** First target height the backward rule inspects. */
  function BackwardStart(source: nat, target: nat): nat {
    if source + 1 + MALICIOUS_VOTE_SLASH_SCOPE < target
    then target - MALICIOUS_VOTE_SLASH_SCOPE
    else source + 1
  }

  predicate NoVoteInside(votes: map<nat, VoteData>, source: nat, lo: nat, hi: nat) {
    forall b :: lo <= b < hi && b in votes ==> votes[b].sourceNumber <= source
  }

  predicate NoVoteAround(votes: map<nat, VoteData>, source: nat, lo: nat, hi: nat) {
    forall b :: lo <= b < hi && b in votes ==> votes[b].sourceNumber >= source
  }

  /** Both voting rules, over any table of votes by target height. */
  predicate UnderRules(votes: map<nat, VoteData>, source: nat, target: nat) {
    && target !in votes
    && NoVoteInside(votes, source, BackwardStart(source, target), target)
    && NoVoteAround(votes, source, target + 1, target + UPPER_LIMIT_OF_VOTE_BLOCK_NUMBER + 1)
  }

  // ---------------------------------------------------------------------------
  // The classes
  // ---------------------------------------------------------------------------

  /** A cache keyed by target number with FIFO eviction. */
  class VoteDataLru {
    const capacity: nat
    var order: seq<nat>
    var entries: map<nat, VoteData>

    ghost function Contents(): Cache
      reads this
    {
      Cache(order, entries)
    }

    constructor (capacity: nat)
      ensures this.capacity == capacity
      ensures Contents() == EMPTY_CACHE
    {
      this.capacity := capacity;
      order := [];
      entries := map[];
    }

    method Add(key: nat, value: VoteData)
      modifies this
      ensures Contents() == Added(old(Contents()), capacity, key, value)
    {
      if key !in entries {
        order := order + [key];
        if |order| > capacity {
          var oldest := order[0];
          order := order[1..];
          entries := entries - {oldest};
        }
      }
      entries := entries[key := value];
    }

    method Contains(key: nat) returns (found: bool)
      ensures found <==> key in Contents().entries
    {
      found := key in entries;
    }

    method Get(key: nat) returns (r: Option<VoteData>)
      ensures r == if key in Contents().entries then Some(Contents().entries[key]) else None
    {
      r := if key in entries then Some(entries[key]) else None;
    }
  }

  /** The on-disk journal with its in-memory cache. */
  class Journal {
    var file: seq<Line>
    var lru: VoteDataLru

    ghost predicate Valid()
      reads this, lru
    {
      lru.capacity == MAX_RECENT_ENTRIES
    }

    /** Opens a journal file that may already hold votes. */
    constructor (file: seq<Line>)
      ensures Valid() && fresh(lru)
      ensures this.file == file
      ensures lru.Contents() == Reloaded(file)
    {
      var cache := LoadFromDisk(file);
      this.file := file;
      this.lru := cache;
    }

    /** Keeps a buffer of at most 512 votes while reading, then replays the buffer. */
    static method LoadFromDisk(file: seq<Line>) returns (lru: VoteDataLru)
      ensures fresh(lru) && lru.capacity == MAX_RECENT_ENTRIES
      ensures lru.Contents() == Reloaded(file)
    {
      lru := new VoteDataLru(MAX_RECENT_ENTRIES);
      var buf: seq<VoteData> := [];
      for i := 0 to |file|
        invariant buf == LastN(Records(file[..i]), MAX_RECENT_ENTRIES)
      {
        assert file[..i + 1][..i] == file[..i];
        if file[i].Record? {
          buf := buf + [file[i].data];
          if |buf| > MAX_RECENT_ENTRIES {
            buf := buf[1..];
          }
        }
      }
      assert file[..|file|] == file;
      for i := 0 to |buf|
        invariant fresh(lru)
        invariant lru.Contents() == AddedAll(EMPTY_CACHE, MAX_RECENT_ENTRIES, buf[..i])
      {
        assert buf[..i + 1][..i] == buf[..i];
        lru.Add(buf[i].targetNumber, buf[i]);
      }
      assert buf[..|buf|] == buf;
    }

    /** Scans the two windows height by height. */
    method CheckRules(source: nat, target: nat) returns (ok: bool)
      requires Valid()
      requires source < NUMBER_LIMIT && target < NUMBER_LIMIT
      ensures ok == UnderRules(lru.Contents().entries, source, target)
    {
      var duplicate := lru.Contains(target);
      if duplicate {
        return false;
      }
      var blockNumber := source + 1;
      if blockNumber + MALICIOUS_VOTE_SLASH_SCOPE < target {
        blockNumber := target - MALICIOUS_VOTE_SLASH_SCOPE;
      }
      ghost var start := blockNumber;
      while blockNumber < target
        invariant start <= blockNumber
        invariant NoVoteInside(lru.entries, source, start, blockNumber)
      {
        var vd := lru.Get(blockNumber);
        if vd.Some? && vd.value.sourceNumber > source {
          return false;
        }
        blockNumber := blockNumber + 1;
      }
      var bn := target + 1;
      var upper := target + UPPER_LIMIT_OF_VOTE_BLOCK_NUMBER;
      while bn <= upper
        invariant target + 1 <= bn <= upper + 1
        invariant NoVoteAround(lru.entries, source, target + 1, bn)
      {
        var vd := lru.Get(bn);
        if vd.Some? && vd.value.sourceNumber < source {
          return false;
        }
        bn := bn + 1;
      }
      return true;
    }

    /** Appends a vote to the file and then to the cache. */
    method WriteVote(v: VoteData)
      requires Valid()
      modifies this`file, lru
      ensures Valid() && lru == old(lru)
      ensures file == old(file) + [Record(v)]
      ensures lru.Contents() == Added(old(lru.Contents()), MAX_RECENT_ENTRIES, v.targetNumber, v)
    {
      file := file + [Record(v)];
      lru.Add(v.targetNumber, v);
    }
  }
}
