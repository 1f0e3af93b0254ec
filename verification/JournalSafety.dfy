/**
 What the vote journal guarantees over whole runs of check-then-write steps and
 restarts: the bounded cache answers as the full history would, a reload rebuilds
 the cache, and no slashable pair of votes is ever written.
 */
module JournalSafety {
  import opened Types
  import opened VoteJournal
  import opened Counting

  // ---------------------------------------------------------------------------
  // Runs
  // ---------------------------------------------------------------------------

  /** The votes written so far, oldest first, and the cache in memory. */
  datatype JournalState = JournalState(votes: seq<VoteData>, cache: Cache)

  const EMPTY_JOURNAL := JournalState([], EMPTY_CACHE)

  /** A vote put to the rules, and written when they allow it; or a restart of the node. */
  datatype Event = Offer(data: VoteData) | Restart

  function AsLines(votes: seq<VoteData>): seq<Line> {
    seq(|votes|, i requires 0 <= i < |votes| => Record(votes[i]))
  }

  function Step(st: JournalState, e: Event): JournalState {
    match e
    case Restart => st.(cache := Reloaded(AsLines(st.votes)))
    case Offer(v) =>
      if UnderRules(st.cache.entries, v.sourceNumber, v.targetNumber) then
        JournalState(st.votes + [v], Added(st.cache, MAX_RECENT_ENTRIES, v.targetNumber, v))
      else st
  }

  function Run(events: seq<Event>): JournalState {
    if events == [] then EMPTY_JOURNAL
    else Step(Run(events[..|events| - 1]), events[|events| - 1])
  }

  /** No vote so far has a target more than lag above t. */
  ghost predicate Near(votes: seq<VoteData>, t: nat, lag: nat) {
    forall i :: 0 <= i < |votes| ==> votes[i].targetNumber <= t + lag
  }

  /** Every vote ever put to the rules is within lag of the highest target written before it. */
  ghost predicate Paced(events: seq<Event>, lag: nat) {
    forall i :: 0 <= i < |events| && events[i].Offer? ==>
      Near(Run(events[..i]).votes, events[i].data.targetNumber, lag)
  }

  /** The source is below the target; at genesis both are 0. */
  predicate Forward(v: VoteData) {
    v.sourceNumber < v.targetNumber || v.sourceNumber == 0 == v.targetNumber
  }

  /** Every vote ever put to the rules links forward. */
  ghost predicate ForwardOffers(events: seq<Event>) {
    forall i :: 0 <= i < |events| && events[i].Offer? ==> Forward(events[i].data)
  }

  // ---------------------------------------------------------------------------
  // The full history as a table
  // ---------------------------------------------------------------------------

  /** The table an unbounded cache would hold: the latest vote of every target height. */
  function Table(votes: seq<VoteData>): map<nat, VoteData> {
    if votes == [] then map[]
    else
      var v := votes[|votes| - 1];
      Table(votes[..|votes| - 1])[v.targetNumber := v]
  }

  ghost predicate DistinctTargets(votes: seq<VoteData>) {
    forall i, j :: 0 <= i < j < |votes| ==> votes[i].targetNumber != votes[j].targetNumber
  }

  lemma {:induction false} TableHoldsOnlyVotes(votes: seq<VoteData>, b: nat)
    requires b in Table(votes)
    ensures Table(votes)[b] in votes && Table(votes)[b].targetNumber == b
  {
    var n := |votes| - 1;
    if votes[n].targetNumber != b {
      TableHoldsOnlyVotes(votes[..n], b);
    }
  }

  lemma {:induction false} TableHoldsEveryVote(votes: seq<VoteData>, i: nat)
    requires i < |votes| && DistinctTargets(votes)
    ensures votes[i].targetNumber in Table(votes) && Table(votes)[votes[i].targetNumber] == votes[i]
  {
    var n := |votes| - 1;
    if i < n {
      TableHoldsEveryVote(votes[..n], i);
      assert votes[..n][i] == votes[i];
    }
  }

  // ---------------------------------------------------------------------------
  // The cache is the tail of the history
  // ---------------------------------------------------------------------------

  /** The cache holds exactly these votes, in order, and their targets differ. */
  ghost predicate Holds(c: Cache, tail: seq<VoteData>) {
    && DistinctTargets(tail)
    && |c.order| == |tail|
    && (forall i :: 0 <= i < |tail| ==> HoldsAt(c, tail, i))
    && (forall b :: b in c.entries ==> b in c.order)
  }

  ghost predicate HoldsAt(c: Cache, tail: seq<VoteData>, i: nat)
    requires i < |tail| == |c.order|
  {
    var t := tail[i].targetNumber;
    c.order[i] == t && t in c.entries && c.entries[t] == tail[i]
  }

  /** The cache holds exactly the last 512 votes. */
  ghost predicate IsTail(c: Cache, votes: seq<VoteData>) {
    Holds(c, LastN(votes, MAX_RECENT_ENTRIES))
  }

  lemma AddGrows(c: Cache, tail: seq<VoteData>, v: VoteData)
    requires Holds(c, tail) && v.targetNumber !in c.entries && |tail| < MAX_RECENT_ENTRIES
    ensures Holds(Added(c, MAX_RECENT_ENTRIES, v.targetNumber, v), tail + [v])
  {
    var c' := Added(c, MAX_RECENT_ENTRIES, v.targetNumber, v);
    forall i | 0 <= i < |tail + [v]|
      ensures HoldsAt(c', tail + [v], i)
    {
      if i < |tail| {
        assert HoldsAt(c, tail, i);
      }
    }
    forall i | 0 <= i < |tail|
      ensures tail[i].targetNumber != v.targetNumber
    {
      assert HoldsAt(c, tail, i);
    }
  }

  lemma AddShifts(c: Cache, tail: seq<VoteData>, v: VoteData)
    requires Holds(c, tail) && v.targetNumber !in c.entries && |tail| == MAX_RECENT_ENTRIES
    ensures Holds(Added(c, MAX_RECENT_ENTRIES, v.targetNumber, v), tail[1..] + [v])
  {
    var c' := Added(c, MAX_RECENT_ENTRIES, v.targetNumber, v);
    var tail' := tail[1..] + [v];
    assert c'.order == c.order[1..] + [v.targetNumber];
    assert HoldsAt(c, tail, 0);
    forall i | 0 <= i < |tail|
      ensures tail[i].targetNumber != v.targetNumber
    {
      assert HoldsAt(c, tail, i);
    }
    forall i | 0 <= i < |tail'|
      ensures HoldsAt(c', tail', i)
    {
      if i < |tail'| - 1 {
        assert HoldsAt(c, tail, i + 1);
      }
    }
    forall b | b in c'.entries
      ensures b in c'.order
    {
      if b != v.targetNumber {
        var i :| 0 <= i < |c.order| && c.order[i] == b;
        assert i > 0;
        assert c'.order[i - 1] == b;
      }
    }
  }

  lemma AddExtendsTail(c: Cache, votes: seq<VoteData>, v: VoteData)
    requires IsTail(c, votes) && v.targetNumber !in c.entries
    ensures IsTail(Added(c, MAX_RECENT_ENTRIES, v.targetNumber, v), votes + [v])
  {
    var tail := LastN(votes, MAX_RECENT_ENTRIES);
    var tail' := LastN(votes + [v], MAX_RECENT_ENTRIES);
    if |votes| < MAX_RECENT_ENTRIES {
      AddGrows(c, tail, v);
      assert tail' == tail + [v];
    } else {
      AddShifts(c, tail, v);
      assert tail' == tail[1..] + [v];
    }
  }

  /** The cached vote at height b, as a position in the tail. */
  lemma CachedPosition(c: Cache, tail: seq<VoteData>, b: nat) returns (i: nat)
    requires Holds(c, tail) && b in c.entries
    ensures i < |tail| && tail[i].targetNumber == b && c.entries[b] == tail[i]
  {
    i :| 0 <= i < |c.order| && c.order[i] == b;
    assert HoldsAt(c, tail, i);
  }

  lemma TailIsUnique(c: Cache, d: Cache, votes: seq<VoteData>)
    requires IsTail(c, votes) && IsTail(d, votes)
    ensures c == d
  {
    var tail := LastN(votes, MAX_RECENT_ENTRIES);
    forall i | 0 <= i < |tail|
      ensures c.order[i] == d.order[i]
    {
      assert HoldsAt(c, tail, i) && HoldsAt(d, tail, i);
    }
    assert c.order == d.order;
    forall b | b in c.entries || b in d.entries
      ensures b in c.entries && b in d.entries && c.entries[b] == d.entries[b]
    {
      var i := CachedPosition(if b in c.entries then c else d, tail, b);
      assert HoldsAt(c, tail, i) && HoldsAt(d, tail, i);
    }
    assert c.entries == d.entries;
  }

  lemma {:induction false} RecordsOfLines(votes: seq<VoteData>)
    ensures Records(AsLines(votes)) == votes
  {
    if votes != [] {
      var n := |votes| - 1;
      RecordsOfLines(votes[..n]);
      assert AsLines(votes)[..n] == AsLines(votes[..n]);
      assert votes == votes[..n] + [votes[n]];
    }
  }

  lemma {:induction false} ReplayIsTail(votes: seq<VoteData>)
    requires |votes| <= MAX_RECENT_ENTRIES && DistinctTargets(votes)
    ensures IsTail(AddedAll(EMPTY_CACHE, MAX_RECENT_ENTRIES, votes), votes)
  {
    if votes != [] {
      var n := |votes| - 1;
      var init := votes[..n];
      ReplayIsTail(init);
      var c := AddedAll(EMPTY_CACHE, MAX_RECENT_ENTRIES, init);
      if votes[n].targetNumber in c.entries {
        var i := CachedPosition(c, init, votes[n].targetNumber);
        assert false;
      }
      AddExtendsTail(c, init, votes[n]);
      assert init + [votes[n]] == votes;
    }
  }

  /** Restarting loses nothing: the reload rebuilds the very cache that was in memory. */
  lemma ReloadRebuildsCache(st: JournalState)
    requires IsTail(st.cache, st.votes)
    ensures Reloaded(AsLines(st.votes)) == st.cache
  {
    RecordsOfLines(st.votes);
    var tail := LastN(st.votes, MAX_RECENT_ENTRIES);
    ReplayIsTail(tail);
    TailIsUnique(Reloaded(AsLines(st.votes)), st.cache, st.votes);
  }

  // ---------------------------------------------------------------------------
  // Votes dropped from memory no longer matter
  // ---------------------------------------------------------------------------

  ghost function Targets(votes: seq<VoteData>): set<int> {
    set i | 0 <= i < |votes| :: votes[i].targetNumber
  }

  lemma {:induction false} TargetsCount(votes: seq<VoteData>)
    requires DistinctTargets(votes)
    ensures |Targets(votes)| == |votes|
  {
    if votes != [] {
      var n := |votes| - 1;
      var init := votes[..n];
      TargetsCount(init);
      assert votes[n].targetNumber !in Targets(init);
      assert Targets(votes) == Targets(init) + {votes[n].targetNumber} by {
        forall i | 0 <= i < n ensures votes[i].targetNumber in Targets(init) {
          assert init[i] == votes[i];
        }
      }
    }
  }

  /** Each vote was within lag of all votes before it. */
  ghost predicate PacedVotes(votes: seq<VoteData>, lag: nat) {
    forall i, j :: 0 <= i < j < |votes| ==> votes[i].targetNumber <= votes[j].targetNumber + lag
  }

  ghost predicate ForwardVotes(votes: seq<VoteData>) {
    forall i :: 0 <= i < |votes| ==> Forward(votes[i])
  }

  /** The rules, put to v when the only earlier vote is u, find nothing against v. */
  predicate Allows(u: VoteData, v: VoteData) {
    UnderRules(map[u.targetNumber := u], v.sourceNumber, v.targetNumber)
  }

  /** Every written vote was allowed by each vote before it, remembered or not. */
  ghost predicate AllAllowed(votes: seq<VoteData>) {
    forall i, j :: 0 <= i < j < |votes| ==> Allows(votes[i], votes[j])
  }

  lemma AllowedGivesDistinct(votes: seq<VoteData>)
    requires AllAllowed(votes)
    ensures DistinctTargets(votes)
  {
    forall i, j | 0 <= i < j < |votes|
      ensures votes[i].targetNumber != votes[j].targetNumber
    {
      assert Allows(votes[i], votes[j]);
    }
  }

  /**
   The largest lag for which memory is enough. Between two heights within twice this
   lag of each other there is no room for 512 other targets.
   */
  const MEMORY_LAG: nat := 255

  /** What every run keeps. */
  ghost predicate Inv(st: JournalState, lag: nat) {
    && IsTail(st.cache, st.votes)
    && AllAllowed(st.votes)
    && PacedVotes(st.votes, lag)
  }

  lemma CacheAgreesWithTable(st: JournalState, b: nat)
    requires IsTail(st.cache, st.votes) && DistinctTargets(st.votes)
    ensures b in st.cache.entries ==> b in Table(st.votes) && Table(st.votes)[b] == st.cache.entries[b]
  {
    if b in st.cache.entries {
      var tail := LastN(st.votes, MAX_RECENT_ENTRIES);
      var i := CachedPosition(st.cache, tail, b);
      var k := |st.votes| - |tail|;
      assert tail[i] == st.votes[k + i];
      TableHoldsEveryVote(st.votes, k + i);
    }
  }

  lemma TailVoteIsCached(st: JournalState, i: nat)
    requires IsTail(st.cache, st.votes)
    requires i < |st.votes| <= i + MAX_RECENT_ENTRIES
    ensures st.votes[i].targetNumber in st.cache.entries
    ensures st.cache.entries[st.votes[i].targetNumber] == st.votes[i]
  {
    var tail := LastN(st.votes, MAX_RECENT_ENTRIES);
    var k := i - (|st.votes| - |tail|);
    assert tail[k] == st.votes[i];
    assert HoldsAt(st.cache, tail, k);
  }

  /** A vote of the history that is not in the cache, as an index. */
  lemma EvictedIndex(st: JournalState, b: nat) returns (i: nat)
    requires IsTail(st.cache, st.votes)
    requires b in Table(st.votes) && b !in st.cache.entries
    ensures i + MAX_RECENT_ENTRIES < |st.votes|
    ensures st.votes[i] == Table(st.votes)[b] && st.votes[i].targetNumber == b
  {
    TableHoldsOnlyVotes(st.votes, b);
    i :| 0 <= i < |st.votes| && st.votes[i] == Table(st.votes)[b];
    if i + MAX_RECENT_ENTRIES >= |st.votes| {
      TailVoteIsCached(st, i);
      assert false;
    }
  }

  /**
   After an evicted vote at height b, and for a query at height t, the cache holds t
   itself or a later vote strictly between b and t; in particular b is below t.
   */
  lemma LaterVoteBetween(votes: seq<VoteData>, i: nat, t: nat, lag: nat) returns (j: nat)
    requires lag <= MEMORY_LAG
    requires DistinctTargets(votes) && PacedVotes(votes, lag) && Near(votes, t, lag)
    requires i + MAX_RECENT_ENTRIES < |votes|
    ensures i < j < |votes| <= j + MAX_RECENT_ENTRIES
    ensures votes[i].targetNumber < votes[j].targetNumber <= t
  {
    var k := |votes| - MAX_RECENT_ENTRIES;
    var tail := votes[k..];
    var b := votes[i].targetNumber;
    if forall m :: k <= m < |votes| ==> !(b < votes[m].targetNumber <= t) {
      var top := if b < t then t else b;
      forall x | x in Targets(tail)
        ensures b - lag <= x < b - lag + lag || top + 1 <= x < top + 1 + lag
      {
        var m :| 0 <= m < |tail| && tail[m].targetNumber == x;
        assert tail[m] == votes[k + m];
      }
      TwoIntervalsBound(Targets(tail), b - lag, top + 1, lag);
      TargetsCount(tail);
      assert false;
    }
    j :| k <= j < |votes| && b < votes[j].targetNumber <= t;
  }

  /** If an evicted vote forbids (source, target) then a vote still in memory does too. */
  lemma EvictedRejectionIsRemembered(st: JournalState, b: nat, source: nat, target: nat, lag: nat)
    requires lag <= MEMORY_LAG
    requires Inv(st, lag) && Near(st.votes, target, lag)
    requires b in Table(st.votes) && b !in st.cache.entries
    requires BackwardStart(source, target) <= b < target && Table(st.votes)[b].sourceNumber > source
    ensures !UnderRules(st.cache.entries, source, target)
  {
    AllowedGivesDistinct(st.votes);
    var i := EvictedIndex(st, b);
    var j := LaterVoteBetween(st.votes, i, target, lag);
    TailVoteIsCached(st, j);
    assert Allows(st.votes[i], st.votes[j]);
    assert b in map[b := st.votes[i]];
  }

  /** One query: the 512-entry cache answers as the whole history does. */
  lemma SameAnswer(st: JournalState, source: nat, target: nat, lag: nat)
    requires lag <= MEMORY_LAG
    requires Inv(st, lag) && Near(st.votes, target, lag)
    ensures UnderRules(st.cache.entries, source, target) == UnderRules(Table(st.votes), source, target)
  {
    AllowedGivesDistinct(st.votes);
    forall b | b in st.cache.entries
      ensures b in Table(st.votes) && Table(st.votes)[b] == st.cache.entries[b]
    {
      CacheAgreesWithTable(st, b);
    }
    if UnderRules(st.cache.entries, source, target) {
      forall b | b in Table(st.votes) && b !in st.cache.entries
        ensures b < target
        ensures BackwardStart(source, target) <= b ==> Table(st.votes)[b].sourceNumber <= source
      {
        var i := EvictedIndex(st, b);
        var j := LaterVoteBetween(st.votes, i, target, lag);
        if BackwardStart(source, target) <= b && Table(st.votes)[b].sourceNumber > source {
          EvictedRejectionIsRemembered(st, b, source, target, lag);
          assert false;
        }
      }
    }
  }

  lemma AllowedByAll(votes: seq<VoteData>, v: VoteData)
    requires DistinctTargets(votes)
    requires UnderRules(Table(votes), v.sourceNumber, v.targetNumber)
    ensures forall i :: 0 <= i < |votes| ==> Allows(votes[i], v)
  {
    forall i | 0 <= i < |votes|
      ensures Allows(votes[i], v)
    {
      TableHoldsEveryVote(votes, i);
    }
  }

  lemma StepKeepsInv(st: JournalState, e: Event, lag: nat)
    requires lag <= MEMORY_LAG && Inv(st, lag)
    requires e.Offer? ==> Near(st.votes, e.data.targetNumber, lag)
    ensures Inv(Step(st, e), lag)
  {
    match e
    case Restart => ReloadRebuildsCache(st);
    case Offer(v) =>
      if UnderRules(st.cache.entries, v.sourceNumber, v.targetNumber) {
        SameAnswer(st, v.sourceNumber, v.targetNumber, lag);
        AddExtendsTail(st.cache, st.votes, v);
        AllowedGivesDistinct(st.votes);
        AllowedByAll(st.votes, v);
      }
  }

  lemma {:induction false} RunKeepsInv(events: seq<Event>, lag: nat)
    requires lag <= MEMORY_LAG && Paced(events, lag)
    ensures Inv(Run(events), lag)
  {
    if events != [] {
      var n := |events| - 1;
      PacedPrefix(events, lag);
      RunKeepsInv(events[..n], lag);
      StepKeepsInv(Run(events[..n]), events[n], lag);
    }
  }

  lemma PacedPrefix(events: seq<Event>, lag: nat)
    requires events != [] && Paced(events, lag)
    ensures Paced(events[..|events| - 1], lag)
  {
    var init := events[..|events| - 1];
    forall i | 0 <= i < |init| && init[i].Offer?
      ensures Near(Run(init[..i]).votes, init[i].data.targetNumber, lag)
    {
      assert init[..i] == events[..i];
    }
  }

  /**
   In every run whose targets stay within 255 of the highest written target, the
   512-entry cache gives the answer of the full history to every query.
   */
  lemma BoundedMemoryLosesNothing(events: seq<Event>, source: nat, target: nat)
    requires Paced(events, MEMORY_LAG)
    requires Near(Run(events).votes, target, MEMORY_LAG)
    ensures UnderRules(Run(events).cache.entries, source, target)
         == UnderRules(Table(Run(events).votes), source, target)
  {
    RunKeepsInv(events, MEMORY_LAG);
    SameAnswer(Run(events), source, target, MEMORY_LAG);
  }

  /** The votes offered one after the other. */
  function Offers(votes: seq<VoteData>): seq<Event> {
    seq(|votes|, i requires 0 <= i < |votes| => Offer(votes[i]))
  }

  lemma {:induction false} FreshTargetsAreAllWritten(votes: seq<VoteData>)
    requires DistinctTargets(votes)
    requires forall i :: 0 <= i < |votes| ==> votes[i].sourceNumber == 0
    ensures Run(Offers(votes)).votes == votes
    ensures IsTail(Run(Offers(votes)).cache, votes)
  {
    if votes != [] {
      var n := |votes| - 1;
      var init := votes[..n];
      FreshTargetsAreAllWritten(init);
      assert Offers(votes)[..n] == Offers(init);
      var st := Run(Offers(init));
      forall b | b in st.cache.entries
        ensures b != votes[n].targetNumber && st.cache.entries[b].sourceNumber == 0
      {
        CacheAgreesWithTable(st, b);
        TableHoldsOnlyVotes(init, b);
      }
      AddExtendsTail(st.cache, init, votes[n]);
      assert init + [votes[n]] == votes;
    }
  }

  /** Targets 256, then 0 to 255, then 257 to 512, all from source 0. */
  function Flood(): seq<VoteData> {
    seq(513, i requires 0 <= i < 513 => VoteData(0, 0, if i == 0 then 256 else if i <= 256 then i - 1 else i, 0))
  }

  lemma FloodIsPaced()
    ensures Paced(Offers(Flood()), MEMORY_LAG + 1)
    ensures Run(Offers(Flood())).votes == Flood()
  {
    var votes := Flood();
    var events := Offers(votes);
    forall i | 0 <= i < |events|
      ensures Near(Run(events[..i]).votes, events[i].data.targetNumber, MEMORY_LAG + 1)
    {
      assert events[..i] == Offers(votes[..i]);
      FreshTargetsAreAllWritten(votes[..i]);
    }
    FreshTargetsAreAllWritten(votes);
  }

  /**
   One block more of lag and memory is not enough: a run of forward votes, all within
   256 of the highest target, after which the rules allow a second vote for height 256.
   */
  lemma MemoryLagIsExact()
    ensures Paced(Offers(Flood()), MEMORY_LAG + 1) && ForwardOffers(Offers(Flood()))
    ensures Near(Run(Offers(Flood())).votes, 256, MEMORY_LAG + 1)
    ensures UnderRules(Run(Offers(Flood())).cache.entries, 0, 256)
    ensures !UnderRules(Table(Run(Offers(Flood())).votes), 0, 256)
  {
    FloodIsPaced();
    var votes := Flood();
    FreshTargetsAreAllWritten(votes);
    TableHoldsEveryVote(votes, 0);
    var cache := Run(Offers(votes)).cache;
    var tail := LastN(votes, MAX_RECENT_ENTRIES);
    forall b | b in cache.entries
      ensures b != 256 && cache.entries[b].sourceNumber == 0
    {
      var i := CachedPosition(cache, tail, b);
      assert tail[i] == votes[i + 1];
    }
  }

  /** A reload rebuilds the cache in every run, whatever the targets are. */
  lemma {:induction false} RestartIsInvisible(events: seq<Event>)
    ensures IsTail(Run(events).cache, Run(events).votes)
    ensures Step(Run(events), Restart) == Run(events)
  {
    if events != [] {
      var n := |events| - 1;
      var st := Run(events[..n]);
      RestartIsInvisible(events[..n]);
      if events[n].Offer? && UnderRules(st.cache.entries, events[n].data.sourceNumber, events[n].data.targetNumber) {
        AddExtendsTail(st.cache, st.votes, events[n].data);
      }
    }
    ReloadRebuildsCache(Run(events));
  }

  // ---------------------------------------------------------------------------
  // Slashing conditions
  // ---------------------------------------------------------------------------

  /** The span of outer strictly contains the span of inner. */
  predicate Surrounds(outer: VoteData, inner: VoteData) {
    outer.sourceNumber < inner.sourceNumber && inner.targetNumber < outer.targetNumber
  }

  /** Two different votes that break a slashing condition. */
  predicate Slashable(a: VoteData, b: VoteData) {
    a.targetNumber == b.targetNumber || Surrounds(a, b) || Surrounds(b, a)
  }

  ghost predicate NoSlashablePair(votes: seq<VoteData>) {
    forall i, j :: 0 <= i < j < |votes| ==> !Slashable(votes[i], votes[j])
  }

  /** The longest span the backward rule covers, and the largest lag the forward rule covers. */
  const SAFE_SPAN: nat := 258
  const SAFE_LAG: nat := 11

  /**
   The windows reach far enough for v: its span is covered or no earlier vote starts
   above its source, and its lag is covered or no earlier vote starts below its source.
   */
  ghost predicate Covered(votes: seq<VoteData>, v: VoteData) {
    && (v.targetNumber <= v.sourceNumber + SAFE_SPAN || forall i :: 0 <= i < |votes| ==> votes[i].sourceNumber <= v.sourceNumber)
    && (Near(votes, v.targetNumber, SAFE_LAG) || forall i :: 0 <= i < |votes| ==> votes[i].sourceNumber >= v.sourceNumber)
  }

  /** A vote the rules allow against the full history breaks no slashing condition with it. */
  lemma AllowedIsUnslashable(votes: seq<VoteData>, v: VoteData)
    requires DistinctTargets(votes) && ForwardVotes(votes) && Forward(v) && Covered(votes, v)
    requires UnderRules(Table(votes), v.sourceNumber, v.targetNumber)
    ensures forall i :: 0 <= i < |votes| ==> !Slashable(votes[i], v)
  {
    forall i | 0 <= i < |votes|
      ensures !Slashable(votes[i], v)
    {
      TableHoldsEveryVote(votes, i);
      assert Forward(votes[i]);
    }
  }

  /**
   Within the windows the rules are exactly the slashing conditions: they refuse a vote if
   and only if it makes a slashable pair with an earlier one.
   */
  lemma RulesAreTheConditions(votes: seq<VoteData>, v: VoteData)
    requires DistinctTargets(votes) && ForwardVotes(votes) && Forward(v)
    requires v.targetNumber <= v.sourceNumber + 258 && Near(votes, v.targetNumber, 11)
    ensures UnderRules(Table(votes), v.sourceNumber, v.targetNumber)
            <==> forall i :: 0 <= i < |votes| ==> !Slashable(votes[i], v)
  {
    if UnderRules(Table(votes), v.sourceNumber, v.targetNumber) {
      AllowedIsUnslashable(votes, v);
    }
    if forall i :: 0 <= i < |votes| ==> !Slashable(votes[i], v) {
      forall b | b in Table(votes)
        ensures b != v.targetNumber
        ensures v.sourceNumber < b < v.targetNumber ==> Table(votes)[b].sourceNumber <= v.sourceNumber
        ensures v.targetNumber < b ==> Table(votes)[b].sourceNumber >= v.sourceNumber
      {
        TableHoldsOnlyVotes(votes, b);
        var i :| 0 <= i < |votes| && votes[i] == Table(votes)[b];
        assert !Slashable(votes[i], v);
      }
    }
  }

  ghost predicate SafeInv(st: JournalState) {
    Inv(st, MEMORY_LAG) && ForwardVotes(st.votes) && NoSlashablePair(st.votes)
  }

  /** What a vote put to the rules has to satisfy for the rules to protect it. */
  ghost predicate Guarded(votes: seq<VoteData>, v: VoteData) {
    Forward(v) && Near(votes, v.targetNumber, MEMORY_LAG) && Covered(votes, v)
  }

  lemma StepKeepsSafeInv(st: JournalState, e: Event)
    requires SafeInv(st) && (e.Offer? ==> Guarded(st.votes, e.data))
    ensures SafeInv(Step(st, e))
  {
    StepKeepsInv(st, e, MEMORY_LAG);
    if e.Offer? && UnderRules(st.cache.entries, e.data.sourceNumber, e.data.targetNumber) {
      SameAnswer(st, e.data.sourceNumber, e.data.targetNumber, MEMORY_LAG);
      AllowedGivesDistinct(st.votes);
      AllowedIsUnslashable(st.votes, e.data);
    }
  }

  ghost predicate GuardedOffers(events: seq<Event>) {
    forall i :: 0 <= i < |events| && events[i].Offer? ==> Guarded(Run(events[..i]).votes, events[i].data)
  }

  lemma GuardedPrefix(events: seq<Event>)
    requires events != [] && GuardedOffers(events)
    ensures GuardedOffers(events[..|events| - 1])
  {
    var init := events[..|events| - 1];
    forall i | 0 <= i < |init| && init[i].Offer?
      ensures Guarded(Run(init[..i]).votes, init[i].data)
    {
      assert init[..i] == events[..i];
    }
  }

  /**
   Slashing safety over whole runs, restarts included. Let every vote put to the rules
   span at most 258 blocks or start no lower than the votes before it, and lie at most 11
   below the highest target or, up to 255, start no higher than the votes before it. Then
   no two written votes share a target height and no span strictly contains another.
   */
  lemma {:induction false} RunIsUnslashable(events: seq<Event>)
    requires GuardedOffers(events)
    ensures SafeInv(Run(events))
  {
    if events != [] {
      var n := |events| - 1;
      GuardedPrefix(events);
      RunIsUnslashable(events[..n]);
      StepKeepsSafeInv(Run(events[..n]), events[n]);
    }
  }

  /**
   In every such run the journal, with its bounded cache, allows a vote of span up to 258
   and lag up to 11 if and only if it makes no slashable pair with any vote ever written.
   */
  lemma JournalIsExact(events: seq<Event>, v: VoteData)
    requires GuardedOffers(events) && Forward(v)
    requires v.targetNumber <= v.sourceNumber + 258 && Near(Run(events).votes, v.targetNumber, 11)
    ensures UnderRules(Run(events).cache.entries, v.sourceNumber, v.targetNumber)
            <==> forall i :: 0 <= i < |Run(events).votes| ==> !Slashable(Run(events).votes[i], v)
  {
    RunIsUnslashable(events);
    SameAnswer(Run(events), v.sourceNumber, v.targetNumber, MEMORY_LAG);
    AllowedGivesDistinct(Run(events).votes);
    RulesAreTheConditions(Run(events).votes, v);
  }

  // ---------------------------------------------------------------------------
  // The bounds are exact
  // ---------------------------------------------------------------------------

  /**
   The rules allow v against votes, all forward and at most lag above v, and yet some
   vote makes a slashable pair with v.
   */
  ghost predicate Escapes(votes: seq<VoteData>, v: VoteData, lag: nat) {
    && DistinctTargets(votes) && ForwardVotes(votes)
    && Near(votes, v.targetNumber, lag)
    && UnderRules(Table(votes), v.sourceNumber, v.targetNumber)
    && exists i :: 0 <= i < |votes| && Slashable(votes[i], v)
  }

  /** The check that decides whether the two scanned windows are wide enough for v. */
  predicate WindowsSuffice(v: VoteData, lag: nat) {
    && v.targetNumber <= v.sourceNumber + 258
    && (lag <= 11 || v.sourceNumber == 0)
  }

  /** The rules protect v against every history of forward votes exactly when the two windows suffice. */
  lemma WindowsAreExact(v: VoteData, lag: nat)
    requires Forward(v)
    ensures (forall votes :: !Escapes(votes, v, lag)) <==> WindowsSuffice(v, lag)
  {
    if WindowsSuffice(v, lag) {
      forall votes | DistinctTargets(votes) && ForwardVotes(votes)
                     && Near(votes, v.targetNumber, lag)
                     && UnderRules(Table(votes), v.sourceNumber, v.targetNumber)
        ensures !Escapes(votes, v, lag)
      {
        AllowedIsUnslashable(votes, v);
      }
    } else {
      var s, t := v.sourceNumber, v.targetNumber;
      var w := if t > s + SAFE_SPAN then VoteData(s + 1, 0, s + 2, 0)
               else VoteData(s - 1, 0, t + SAFE_LAG + 1, 0);
      assert Table([w]) == map[w.targetNumber := w] by {
        assert [w][..0] == [];
      }
      assert Slashable([w][0], v);
      assert Escapes([w], v, lag);
    }
  }
}
