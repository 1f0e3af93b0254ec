/**
 The fork-choice rule of src/consensus/parlia/forkchoice_rule.rs and the head it keeps
 (src/node/consensus.rs).
 */
module ForkChoice {
  import opened Types

  /** A header with its total difficulty, if known, and its justified block number. */
  datatype Candidate = Candidate(header: Header, td: Option<nat>, justified: nat)

  datatype Verdict = Reorg | Keep | UnknownTotalDifficulty

  function VerdictOf(b: bool): Verdict {
    if b then Reorg else Keep
  }

  /** Decides by justified number when Plato is active at either header and the numbers differ. */
  function HeadChoiceWithFastFinality(spec: ChainSpec, incoming: Candidate, current: Candidate): Option<bool> {
    if !spec.PlatoActive(incoming.header.number) && !spec.PlatoActive(current.header.number) then None
    else if incoming.justified != current.justified then Some(incoming.justified > current.justified)
    else None
  }

  /** Decides by total difficulty, then number, then timestamp, then hash or coin. */
  function HeadChoiceWithTd(incoming: Candidate, current: Candidate, coin: bool): Verdict {
    if current.td.None? || incoming.td.None? then UnknownTotalDifficulty
    else if incoming.td.value != current.td.value then VerdictOf(incoming.td.value > current.td.value)
    else if incoming.header.number != current.header.number then
      VerdictOf(incoming.header.number < current.header.number)
    else if incoming.header.timestamp != current.header.timestamp then
      VerdictOf(incoming.header.timestamp < current.header.timestamp)
    else if incoming.header.beneficiary == current.header.beneficiary then
      VerdictOf(incoming.header.hash < current.header.hash)
    else VerdictOf(coin)
  }

  function IsNeedReorg(spec: ChainSpec, incoming: Candidate, current: Candidate, coin: bool): Verdict {
    match HeadChoiceWithFastFinality(spec, incoming, current)
    case Some(b) => VerdictOf(b)
    case None => HeadChoiceWithTd(incoming, current, coin)
  }

  // ---------------------------------------------------------------------------
  // The order behind the rule
  // ---------------------------------------------------------------------------

  predicate Known(c: Candidate) {
    c.td.Some?
  }

  predicate Active(spec: ChainSpec, c: Candidate) {
    spec.PlatoActive(c.header.number)
  }

  /**
   a ranks strictly above b: with fast finality more justified, then in any case
   heavier, then lower, then earlier.
   */
  predicate Above(fast: bool, a: Candidate, b: Candidate)
    requires Known(a) && Known(b)
  {
    (fast && a.justified > b.justified)
    || ((fast ==> a.justified == b.justified) && (a.td.value > b.td.value
    || (a.td.value == b.td.value && (a.header.number < b.header.number
    || (a.header.number == b.header.number && a.header.timestamp < b.header.timestamp)))))
  }

  predicate SameRank(fast: bool, a: Candidate, b: Candidate)
    requires Known(a) && Known(b)
  {
    !Above(fast, a, b) && !Above(fast, b, a)
  }

  /** The rule compares the two by this rank. */
  predicate Comparable(spec: ChainSpec, fast: bool, a: Candidate, b: Candidate) {
    && Known(a) && Known(b)
    && if fast then Active(spec, a) || Active(spec, b) || a == b else !Active(spec, a) && !Active(spec, b)
  }

  /** The rule follows the rank; the coin is tossed only between equals of different producers. */
  lemma RuleFollowsRank(spec: ChainSpec, fast: bool, incoming: Candidate, current: Candidate, coin: bool)
    requires Comparable(spec, fast, incoming, current)
    ensures Above(fast, incoming, current) ==> IsNeedReorg(spec, incoming, current, coin) == Reorg
    ensures Above(fast, current, incoming) ==> IsNeedReorg(spec, incoming, current, coin) == Keep
    ensures IsNeedReorg(spec, incoming, current, coin) != IsNeedReorg(spec, incoming, current, !coin) <==>
              SameRank(fast, incoming, current) && incoming.header.beneficiary != current.header.beneficiary
    ensures SameRank(fast, incoming, current) && incoming.header.beneficiary == current.header.beneficiary ==>
              (IsNeedReorg(spec, incoming, current, coin) == Reorg <==> incoming.header.hash < current.header.hash)
  {
  }

  /** A missing total difficulty is an error exactly when the justified numbers do not decide. */
  lemma ErrorIsExact(spec: ChainSpec, incoming: Candidate, current: Candidate, coin: bool)
    ensures IsNeedReorg(spec, incoming, current, coin) == UnknownTotalDifficulty <==>
              && !(Known(incoming) && Known(current))
              && (incoming.justified == current.justified || !(Active(spec, incoming) || Active(spec, current)))
  {
  }

  lemma AboveIsTransitive(fast: bool, a: Candidate, b: Candidate, c: Candidate)
    requires Known(a) && Known(b) && Known(c)
    requires !Above(fast, b, a) && !Above(fast, c, b)
    ensures !Above(fast, c, a)
  {
  }

  /** Without the coin the rule never prefers each of two heads to the other, in any era. */
  lemma RuleIsAsymmetric(spec: ChainSpec, a: Candidate, b: Candidate)
    requires Prefers(spec, a, b)
    ensures !Prefers(spec, b, a)
  {
  }

  // ---------------------------------------------------------------------------
  // Circles
  // ---------------------------------------------------------------------------

  /** The rule takes a over b, whatever the coin. */
  predicate Prefers(spec: ChainSpec, a: Candidate, b: Candidate) {
    IsNeedReorg(spec, a, b, true) == Reorg && IsNeedReorg(spec, a, b, false) == Reorg
  }

  predicate Circle(spec: ChainSpec, a: Candidate, b: Candidate, c: Candidate) {
    Prefers(spec, a, b) && Prefers(spec, b, c) && Prefers(spec, c, a)
  }

  predicate ExactlyOne(p: bool, q: bool, r: bool) {
    (p && !q && !r) || (!p && q && !r) || (!p && !q && r)
  }

  /**
   What a head can be. Each block above genesis adds 1 or 2 to the difficulty. A justified
   number other than 0 comes from an attestation in the block right above it, or after
   Fermi up to three above it; attestations, and the number itself, are read from Luban on.
   */
  predicate Possible(spec: ChainSpec, genesisTd: nat, c: Candidate) {
    && Known(c) && c.header.number <= c.td.value - genesisTd <= 2 * c.header.number
    && (c.justified > 0 ==>
          && c.justified < c.header.number && spec.LubanActive(c.header.number)
          && spec.LubanActive(c.justified + Depth(spec.FermiActive(c.header.number, c.header.timestamp))))
  }

  /** Heads of known difficulty go round in a circle only if exactly one of the three is past Plato. */
  lemma NoOtherCircle(spec: ChainSpec, a: Candidate, b: Candidate, c: Candidate)
    requires Known(a) && Known(b) && Known(c) && Circle(spec, a, b, c)
    ensures ExactlyOne(Active(spec, a), Active(spec, b), Active(spec, c))
    ensures a.justified > 0 || b.justified > 0 || c.justified > 0
    ensures exists x :: x in {a, b, c} && !Active(spec, x) && x.justified > 0
  {
    var x := if Active(spec, a) then c else if Active(spec, b) then a else b;
    assert x in {a, b, c};
  }

  function Plain(number: nat, td: nat, justified: nat): Candidate {
    Candidate(Header(number, number, 0, 0, 0, []), Some(td), justified)
  }

  lemma CircleAcrossPlato(spec: ChainSpec, genesisTd: nat)
    requires spec.plato >= 3 && spec.luban < spec.plato
    ensures var n := spec.plato;
            var a, b, c := Plain(n - 1, n - 1 + genesisTd, n - 2), Plain(n, 2 * n + genesisTd, 0), Plain(n - 1, n + genesisTd, 0);
            && Possible(spec, genesisTd, a) && Possible(spec, genesisTd, b) && Possible(spec, genesisTd, c)
            && !Active(spec, a) && Active(spec, b) && !Active(spec, c)
            && Circle(spec, a, b, c)
  {
  }

  /** There is a circle of possible heads in these eras. */
  ghost predicate CircleExists(spec: ChainSpec, genesisTd: nat, pa: bool, pb: bool, pc: bool) {
    exists a, b, c :: PossibleCircle(spec, genesisTd, a, b, c)
      && Active(spec, a) == pa && Active(spec, b) == pb && Active(spec, c) == pc
  }

  predicate PossibleCircle(spec: ChainSpec, genesisTd: nat, a: Candidate, b: Candidate, c: Candidate) {
    && Possible(spec, genesisTd, a) && Possible(spec, genesisTd, b) && Possible(spec, genesisTd, c)
    && Circle(spec, a, b, c)
  }

  /**
   Exactly when the rule is no order: three possible heads in given eras can form a
   circle if and only if one of them is past Plato and two are not, and Plato comes late
   enough, after Luban and at height 3 at least, for a head before it to have a justified
   block.
   */
  lemma CirclesAreExact(spec: ChainSpec, genesisTd: nat, pa: bool, pb: bool, pc: bool)
    ensures CircleExists(spec, genesisTd, pa, pb, pc) <==>
              ExactlyOne(pa, pb, pc) && spec.plato >= 3 && spec.luban < spec.plato
  {
    if CircleExists(spec, genesisTd, pa, pb, pc) {
      var a, b, c :| PossibleCircle(spec, genesisTd, a, b, c)
        && Active(spec, a) == pa && Active(spec, b) == pb && Active(spec, c) == pc;
      NoOtherCircle(spec, a, b, c);
    }
    if ExactlyOne(pa, pb, pc) && spec.plato >= 3 && spec.luban < spec.plato {
      EachCircleExists(spec, genesisTd, pa, pb, pc);
    }
  }

  lemma EachCircleExists(spec: ChainSpec, genesisTd: nat, pa: bool, pb: bool, pc: bool)
    requires ExactlyOne(pa, pb, pc) && spec.plato >= 3 && spec.luban < spec.plato
    ensures CircleExists(spec, genesisTd, pa, pb, pc)
  {
    CircleAcrossPlato(spec, genesisTd);
    var n := spec.plato;
    var a, b, c := Plain(n - 1, n - 1 + genesisTd, n - 2), Plain(n, 2 * n + genesisTd, 0), Plain(n - 1, n + genesisTd, 0);
    if pa {
      assert PossibleCircle(spec, genesisTd, b, c, a);
    } else if pb {
      assert PossibleCircle(spec, genesisTd, a, b, c);
    } else {
      assert PossibleCircle(spec, genesisTd, c, a, b);
    }
  }

  // ---------------------------------------------------------------------------
  // Runs of head updates
  // ---------------------------------------------------------------------------

  /** An incoming header and the coin that falls if one is needed. */
  datatype Offer = Offer(incoming: Candidate, coin: bool)

  function NextHead(spec: ChainSpec, head: Candidate, offer: Offer): Candidate {
    if IsNeedReorg(spec, offer.incoming, head, offer.coin) == Reorg then offer.incoming else head
  }

  function HeadAfter(spec: ChainSpec, head: Candidate, offers: seq<Offer>): Candidate {
    if offers == [] then head
    else NextHead(spec, HeadAfter(spec, head, offers[..|offers| - 1]), offers[|offers| - 1])
  }

  /** Around a circle the head comes back to where it was, each time by the rule and for all coins. */
  lemma CircleMovesTheHead(spec: ChainSpec, a: Candidate, b: Candidate, c: Candidate, x: bool, y: bool, z: bool)
    requires Circle(spec, a, b, c)
    ensures HeadAfter(spec, a, [Offer(c, x)]) == c
    ensures HeadAfter(spec, a, [Offer(c, x), Offer(b, y)]) == b
    ensures HeadAfter(spec, a, [Offer(c, x), Offer(b, y), Offer(a, z)]) == a
  {
    var three := [Offer(c, x), Offer(b, y), Offer(a, z)];
    assert three[..2] == [Offer(c, x), Offer(b, y)];
    assert three[..2][..1] == [Offer(c, x)];
    assert [Offer(c, x)][..0] == [];
    assert HeadAfter(spec, a, [Offer(c, x)]) == c;
    assert HeadAfter(spec, a, three[..2]) == b;
  }

  /** Everything a node has seen: its first head and the headers offered to it. */
  ghost function Seen(head: Candidate, offers: seq<Offer>): set<Candidate> {
    {head} + set i | 0 <= i < |offers| :: offers[i].incoming
  }

  /**
   What is seen has one order: with fast finality at most one header is from before
   Plato, and without it all are.
   */
  ghost predicate OneOrder(spec: ChainSpec, fast: bool, head: Candidate, offers: seq<Offer>) {
    forall c, d :: c in Seen(head, offers) && d in Seen(head, offers) ==> Comparable(spec, fast, c, d)
  }

  /** One more offer: the order among what was seen before is the same. */
  lemma OneOrderBefore(spec: ChainSpec, fast: bool, head: Candidate, offers: seq<Offer>)
    requires offers != [] && OneOrder(spec, fast, head, offers)
    ensures OneOrder(spec, fast, head, offers[..|offers| - 1])
    ensures Seen(head, offers) == Seen(head, offers[..|offers| - 1]) + {offers[|offers| - 1].incoming}
  {
    var n := |offers| - 1;
    var init := offers[..n];
    assert forall i :: 0 <= i < n ==> init[i] == offers[i];
    forall c | c in Seen(head, init)
      ensures c in Seen(head, offers)
    {
      if c != head {
        var i :| 0 <= i < |init| && init[i].incoming == c;
        assert offers[i].incoming == c;
      }
    }
    forall c | c in Seen(head, offers)
      ensures c in Seen(head, init) + {offers[n].incoming}
    {
      if c != head {
        var i :| 0 <= i < |offers| && offers[i].incoming == c;
        if i < n {
          assert init[i].incoming == c;
        }
      }
    }
  }

  /** h is one of the headers seen and none of them ranks above it. */
  ghost predicate IsBest(fast: bool, seen: set<Candidate>, h: Candidate) {
    Known(h) && h in seen && forall c :: c in seen ==> Known(c) && !Above(fast, c, h)
  }

  /**
   Over any run and for every outcome of the coins, the head is one of the headers seen
   and none of them ranks above it.
   */
  lemma {:induction false} HeadIsBest(spec: ChainSpec, fast: bool, head: Candidate, offers: seq<Offer>)
    requires OneOrder(spec, fast, head, offers)
    ensures IsBest(fast, Seen(head, offers), HeadAfter(spec, head, offers))
  {
    if offers != [] {
      var n := |offers| - 1;
      var init := offers[..n];
      OneOrderBefore(spec, fast, head, offers);
      HeadIsBest(spec, fast, head, init);
      var before, last := HeadAfter(spec, head, init), HeadAfter(spec, head, offers);
      RuleFollowsRank(spec, fast, offers[n].incoming, before, offers[n].coin);
      forall c | c in Seen(head, offers)
        ensures !Above(fast, c, last)
      {
        if c in Seen(head, init) {
          AboveIsTransitive(fast, last, before, c);
        }
      }
    }
  }

  /** Headers of the same rank come from one producer. */
  ghost predicate OneProducerPerRank(fast: bool, seen: set<Candidate>) {
    forall c, d :: c in seen && d in seen ==>
      Known(c) && Known(d) && (SameRank(fast, c, d) ==> c.header.beneficiary == d.header.beneficiary)
  }

  ghost predicate LowestHash(fast: bool, seen: set<Candidate>, h: Candidate) {
    Known(h) && forall c :: c in seen ==> Known(c) && (SameRank(fast, c, h) ==> h.header.hash <= c.header.hash)
  }

  /** Between headers of the same rank and producer the head is the one with the lowest hash. */
  lemma {:induction false} HeadHasLowestHash(spec: ChainSpec, fast: bool, head: Candidate, offers: seq<Offer>)
    requires OneOrder(spec, fast, head, offers) && OneProducerPerRank(fast, Seen(head, offers))
    ensures LowestHash(fast, Seen(head, offers), HeadAfter(spec, head, offers))
  {
    if offers != [] {
      var n := |offers| - 1;
      var init := offers[..n];
      OneOrderBefore(spec, fast, head, offers);
      HeadHasLowestHash(spec, fast, head, init);
      HeadIsBest(spec, fast, head, init);
      LowestHashStep(spec, fast, Seen(head, init), HeadAfter(spec, head, init), offers[n]);
    }
  }

  lemma LowestHashStep(spec: ChainSpec, fast: bool, seen: set<Candidate>, head: Candidate, offer: Offer)
    requires IsBest(fast, seen, head) && LowestHash(fast, seen, head)
    requires Comparable(spec, fast, offer.incoming, head) && OneProducerPerRank(fast, seen + {offer.incoming})
    ensures LowestHash(fast, seen + {offer.incoming}, NextHead(spec, head, offer))
  {
    RuleFollowsRank(spec, fast, offer.incoming, head, offer.coin);
    var last := NextHead(spec, head, offer);
    forall c | c in seen + {offer.incoming}
      ensures Known(c) && (SameRank(fast, c, last) ==> last.header.hash <= c.header.hash)
    {
      assert Known(c);
      assert c in seen ==> !Above(fast, c, head);
    }
  }

  /** The head never gets worse from one point of a run to a later one. */
  lemma HeadNeverGetsWorse(spec: ChainSpec, fast: bool, head: Candidate, offers: seq<Offer>, k: nat)
    requires OneOrder(spec, fast, head, offers) && k <= |offers|
    ensures var earlier, later := HeadAfter(spec, head, offers[..k]), HeadAfter(spec, head, offers);
            Known(earlier) && Known(later) && !Above(fast, earlier, later)
  {
    SeenGrows(spec, fast, head, offers, k);
    HeadIsBest(spec, fast, head, offers[..k]);
    HeadIsBest(spec, fast, head, offers);
  }

  lemma {:induction false} SeenGrows(spec: ChainSpec, fast: bool, head: Candidate, offers: seq<Offer>, k: nat)
    requires OneOrder(spec, fast, head, offers) && k <= |offers|
    ensures OneOrder(spec, fast, head, offers[..k]) && Seen(head, offers[..k]) <= Seen(head, offers)
    decreases |offers|
  {
    if k < |offers| {
      var init := offers[..|offers| - 1];
      OneOrderBefore(spec, fast, head, offers);
      SeenGrows(spec, fast, head, init, k);
      assert init[..k] == offers[..k];
    } else {
      assert offers[..k] == offers;
    }
  }

  /**
   Nodes that have seen the same headers, in whatever order and with whatever coins,
   agree on the head when no two of the headers have the same rank.
   */
  lemma NodesAgree(spec: ChainSpec, fast: bool, a: Candidate, x: seq<Offer>, b: Candidate, y: seq<Offer>)
    requires OneOrder(spec, fast, a, x) && Seen(a, x) == Seen(b, y)
    requires DistinctRanks(fast, Seen(a, x))
    ensures HeadAfter(spec, a, x) == HeadAfter(spec, b, y)
  {
    HeadIsBest(spec, fast, a, x);
    HeadIsBest(spec, fast, b, y);
    OnlyOneIsBest(fast, Seen(a, x), HeadAfter(spec, a, x), HeadAfter(spec, b, y));
  }

  ghost predicate DistinctRanks(fast: bool, seen: set<Candidate>) {
    forall c, d :: c in seen && d in seen && c != d ==> Known(c) && Known(d) && !SameRank(fast, c, d)
  }

  /** Of headers of different rank at most one is best. */
  lemma OnlyOneIsBest(fast: bool, seen: set<Candidate>, h: Candidate, g: Candidate)
    requires DistinctRanks(fast, seen) && IsBest(fast, seen, h) && IsBest(fast, seen, g)
    ensures h == g
  {
    assert h == g || !SameRank(fast, h, g);
  }

  // ---------------------------------------------------------------------------
  // The engine
  // ---------------------------------------------------------------------------

  /** The part of the fork-choice engine that selects the head. */
  class Engine {
    const spec: ChainSpec
    var head: Candidate

    constructor (spec: ChainSpec, head: Candidate)
      ensures this.spec == spec && this.head == head
    {
      this.spec := spec;
      this.head := head;
    }

    /** An unknown difficulty is an error and leaves the head alone. */
    method UpdateForkchoice(incoming: Candidate, coin: bool) returns (ok: bool)
      modifies this
      ensures head == NextHead(spec, old(head), Offer(incoming, coin))
      ensures ok <==> IsNeedReorg(spec, incoming, old(head), coin) != UnknownTotalDifficulty
    {
      var verdict := IsNeedReorg(spec, incoming, head, coin);
      if verdict == UnknownTotalDifficulty {
        return false;
      }
      if verdict == Reorg {
        head := incoming;
      }
      return true;
    }
  }
}
