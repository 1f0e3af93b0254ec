/**
 The back-off schedule of src/consensus/parlia/consensus.rs: how long each validator
 waits before it may seal the next block.
 */
module BackOff {
  import opened Types
  import opened Snapshots
  import opened SnapshotRuns
  import opened Counting
  import opened GoRng
  import opened Shuffle

  const BACKOFF_TIME_OF_INITIAL: nat := 1000
  const LORENTZ_BACKOFF_TIME_OF_INITIAL: nat := 2000
  const BACKOFF_TIME_OF_WIGGLE: nat := 1000

  /** A slot to be filled: the parent snapshot and header, and the number and time of the new block. */
  datatype Slot = Slot(snap: Snapshot, parent: Header, number: nat, timestamp: nat, spec: ChainSpec) {
    predicate WellFormed() {
      snap.WellFormed()
    }

    predicate Planck() { spec.PlanckActive(number) }
    predicate Bohr() { spec.BohrActive(number, timestamp) }
    predicate ParentLorentz() { spec.LorentzActive(parent.number, parent.timestamp) }

    /** v is neither over its turn nor, from Bohr on, the validator in turn. */
    predicate Keeps(v: Address)
      requires WellFormed()
    {
      !(snap.SignRecently(v) || (Bohr() && v == snap.InturnValidator()))
    }

    /** Base delay of the validators out of turn. */
    function Delay(): nat
      requires WellFormed()
    {
      if Planck() && snap.SignRecently(snap.InturnValidator()) then 0
      else if ParentLorentz() then LORENTZ_BACKOFF_TIME_OF_INITIAL
      else BACKOFF_TIME_OF_INITIAL
    }

    /** The seed of the shuffle, the same for every validator. */
    function Seed(): nat
      requires WellFormed()
    {
      if Bohr() then number / snap.Turn() else snap.blockNumber
    }
  }

  function Retained(slot: Slot, vs: seq<Address>): seq<Address>
    requires slot.WellFormed()
  {
    if vs == [] then []
    else
      var init := Retained(slot, vs[..|vs| - 1]);
      if slot.Keeps(vs[|vs| - 1]) then init + [vs[|vs| - 1]] else init
  }

  /** The validators among which the back-off steps are shuffled. */
  function Candidates(slot: Slot): seq<Address>
    requires slot.WellFormed()
  {
    if slot.Planck() then Retained(slot, slot.snap.validators) else slot.snap.validators
  }

  /** The wait that belongs to a step. */
  function StepDelay(delay: nat, lorentz: bool, step: nat): nat {
    if delay == 0 && lorentz then
      if step == 0 then 0 else LORENTZ_BACKOFF_TIME_OF_INITIAL + (step - 1) * BACKOFF_TIME_OF_WIGGLE
    else delay + step * BACKOFF_TIME_OF_WIGGLE
  }

  function IndexOf(vs: seq<Address>, v: Address): (i: nat)
    ensures i <= |vs|
    ensures v in vs <==> i < |vs|
    ensures i < |vs| ==> vs[i] == v
    ensures forall k :: 0 <= k < i ==> vs[k] != v
  {
    if vs == [] then 0 else if vs[0] == v then 0 else 1 + IndexOf(vs[1..], v)
  }

  /** The back-off of validator v when the candidates have been dealt these steps. */
  function BackOffTime(slot: Slot, v: Address, steps: seq<nat>): nat
    requires slot.WellFormed() && |steps| == |Candidates(slot)|
  {
    if v == slot.snap.InturnValidator() then 0
    else if slot.Planck() && slot.snap.SignRecently(v) then 0
    else
      var idx := IndexOf(Candidates(slot), v);
      if idx < |steps| then StepDelay(slot.Delay(), slot.ParentLorentz(), steps[idx]) else 0
  }

  // ---------------------------------------------------------------------------
  // Exactly one leader
  // ---------------------------------------------------------------------------

  /** The steps 0 to n - 1 in order. */
  function Iota(n: nat): (r: seq<nat>)
    ensures |r| == n
    ensures forall i :: 0 <= i < n ==> r[i] == i
  {
    seq(n, i requires 0 <= i < n => i)
  }

  /** Each step from 0 to n - 1 is dealt once. */
  ghost predicate IsDeal(steps: seq<nat>) {
    Distinct(steps) && forall k :: k in steps <==> 0 <= k < |steps|
  }

  /** Where step k went. */
  lemma StepHolder(steps: seq<nat>, k: nat) returns (i: nat)
    requires IsDeal(steps) && k < |steps|
    ensures i < |steps| && steps[i] == k
  {
    assert k in steps;
    i :| 0 <= i < |steps| && steps[i] == k;
  }

  lemma StepIsSmall(steps: seq<nat>, i: nat)
    requires IsDeal(steps) && i < |steps|
    ensures steps[i] < |steps|
  {
    assert steps[i] in steps;
  }

  lemma {:induction false} RetainedMembers(slot: Slot, vs: seq<Address>)
    requires slot.WellFormed() && Distinct(vs)
    ensures Distinct(Retained(slot, vs))
    ensures forall v :: v in Retained(slot, vs) <==> v in vs && slot.Keeps(v)
  {
    if vs != [] {
      var n := |vs| - 1;
      RetainedMembers(slot, vs[..n]);
      assert vs == vs[..n] + [vs[n]];
      assert vs[n] !in vs[..n];
    }
  }

  /** A validator that may propose. */
  predicate MayPropose(slot: Slot, v: Address)
    requires slot.WellFormed()
  {
    v in slot.snap.validators && !slot.snap.SignRecently(v)
  }

  lemma StepDelaysSpread(delay: nat, lorentz: bool, a: nat, b: nat)
    requires a < b
    ensures StepDelay(delay, lorentz, a) + BACKOFF_TIME_OF_WIGGLE <= StepDelay(delay, lorentz, b)
    ensures StepDelay(delay, lorentz, a) >= delay
    ensures StepDelay(delay, lorentz, a) == 0 <==> delay == 0 && a == 0
  {
  }

  /** The waits of two different validators are at least a wiggle apart. */
  predicate Apart(a: nat, b: nat) {
    a + BACKOFF_TIME_OF_WIGGLE <= b || b + BACKOFF_TIME_OF_WIGGLE <= a
  }

  /** What a validator out of turn that may propose waits. */
  lemma OutOfTurnWait(slot: Slot, v: Address, steps: seq<nat>)
    requires slot.WellFormed() && slot.Planck() && Distinct(slot.snap.validators)
    requires |steps| == |Candidates(slot)|
    requires MayPropose(slot, v) && v != slot.snap.InturnValidator()
    ensures v in Candidates(slot)
    ensures BackOffTime(slot, v, steps)
         == StepDelay(slot.Delay(), slot.ParentLorentz(), steps[IndexOf(Candidates(slot), v)])
  {
    RetainedMembers(slot, slot.snap.validators);
  }

  lemma WaitsAreApart(slot: Slot, v: Address, w: Address, steps: seq<nat>)
    requires slot.WellFormed() && slot.Planck() && Distinct(slot.snap.validators)
    requires |steps| == |Candidates(slot)| && IsDeal(steps)
    requires MayPropose(slot, v) && MayPropose(slot, w) && v != w
    ensures Apart(BackOffTime(slot, v, steps), BackOffTime(slot, w, steps))
  {
    var inturn := slot.snap.InturnValidator();
    var delay, lorentz := slot.Delay(), slot.ParentLorentz();
    if v != inturn {
      OutOfTurnWait(slot, v, steps);
    }
    if w != inturn {
      OutOfTurnWait(slot, w, steps);
    }
    if v != inturn && w != inturn {
      var a, b := steps[IndexOf(Candidates(slot), v)], steps[IndexOf(Candidates(slot), w)];
      assert a != b;
      if a < b {
        StepDelaysSpread(delay, lorentz, a, b);
      } else {
        StepDelaysSpread(delay, lorentz, b, a);
      }
    } else {
      // The validator in turn may propose, so everyone else waits at least a base delay.
      assert delay >= BACKOFF_TIME_OF_WIGGLE;
    }
  }

  /** When the validator in turn is barred, the candidate with step 0 leads. */
  lemma StepZeroLeads(slot: Slot, steps: seq<nat>, k: nat)
    requires slot.WellFormed() && slot.Planck() && Distinct(slot.snap.validators)
    requires slot.snap.SignRecently(slot.snap.InturnValidator())
    requires |steps| == |Candidates(slot)| && k < |steps| && steps[k] == 0
    ensures MayPropose(slot, Candidates(slot)[k]) && BackOffTime(slot, Candidates(slot)[k], steps) == 0
  {
    var leader := Candidates(slot)[k];
    RetainedMembers(slot, slot.snap.validators);
    assert slot.Keeps(leader);
    OutOfTurnWait(slot, leader, steps);
    assert IndexOf(Candidates(slot), leader) == k;
  }

  /** Someone that may propose waits not at all. */
  lemma SomeoneLeads(slot: Slot, bohr: bool, steps: seq<nat>) returns (leader: Address)
    requires Inv(slot.snap, bohr) && slot.Planck()
    requires |steps| == |Candidates(slot)| && IsDeal(steps)
    ensures MayPropose(slot, leader) && BackOffTime(slot, leader, steps) == 0
  {
    var free := FreeValidator(slot.snap, bohr);
    if slot.snap.SignRecently(slot.snap.InturnValidator()) {
      OutOfTurnWait(slot, free, steps);
      var k := StepHolder(steps, 0);
      StepZeroLeads(slot, steps, k);
      leader := Candidates(slot)[k];
    } else {
      leader := slot.snap.InturnValidator();
    }
  }

  // ---------------------------------------------------------------------------
  // The steps the generator deals
  // ---------------------------------------------------------------------------

  ghost function DealtSteps(slot: Slot, cooked: seq<Word>): (steps: seq<nat>)
    requires slot.WellFormed() && |cooked| == RNG_LEN
    requires CanShuffle(SeedWords(slot.Seed(), cooked), |Candidates(slot)|)
    ensures |steps| == |Candidates(slot)|
  {
    Shuffled(Iota(|Candidates(slot)|), SeedWords(slot.Seed(), cooked))
  }

  lemma {:induction false} PermutationIsDistinct(s: seq<nat>, t: seq<nat>)
    requires multiset(s) == multiset(t) && Distinct(s)
    ensures Distinct(t)
  {
    forall i, j | 0 <= i < j < |t|
      ensures t[i] != t[j]
    {
      if t[i] == t[j] {
        OccursTwice(t, i, j);
        OccursOnce(s, t[i]);
        assert false;
      }
    }
  }

  lemma OccursTwice(t: seq<nat>, i: nat, j: nat)
    requires i < j < |t| && t[i] == t[j]
    ensures multiset(t)[t[i]] >= 2
  {
    assert t == t[..j] + t[j..];
    assert t[i] in t[..j] by { assert t[..j][i] == t[i]; }
    assert t[j] in t[j..] by { assert t[j..][0] == t[j]; }
  }

  lemma {:induction false} OccursOnce(s: seq<nat>, x: nat)
    requires Distinct(s)
    ensures multiset(s)[x] <= 1
  {
    if s != [] {
      var n := |s| - 1;
      assert s == s[..n] + [s[n]];
      if x == s[n] {
        assert x !in s[..n];
      } else {
        OccursOnce(s[..n], x);
      }
    }
  }

  lemma PermutedIotaIsADeal(n: nat, steps: seq<nat>)
    requires |steps| == n && multiset(steps) == multiset(Iota(n))
    ensures IsDeal(steps)
  {
    PermutationIsDistinct(Iota(n), steps);
    forall k: nat
      ensures k in steps <==> 0 <= k < n
    {
      assert k in steps <==> k in multiset(steps);
      assert k in Iota(n) <==> k in multiset(Iota(n));
      if k < n {
        assert Iota(n)[k] == k;
      }
    }
  }

  lemma DealtStepsAreADeal(slot: Slot, cooked: seq<Word>)
    requires slot.WellFormed() && |cooked| == RNG_LEN
    requires CanShuffle(SeedWords(slot.Seed(), cooked), |Candidates(slot)|)
    ensures IsDeal(DealtSteps(slot, cooked))
  {
    var n := |Candidates(slot)|;
    ShuffledPermutes(Iota(n), SeedWords(slot.Seed(), cooked));
    PermutedIotaIsADeal(n, DealtSteps(slot, cooked));
  }

  /**
   Unique leader slot: in every snapshot of every run, from Planck on and whatever the
   generator deals, exactly one validator that may propose has back-off 0, and the
   back-offs of any two that may propose are at least 1000 ms apart.
   */
  lemma UniqueLeader(spec: ChainSpec, states: seq<Snapshot>, inputs: seq<BlockInput>, i: nat,
                     slot: Slot, cooked: seq<Word>) returns (leader: Address)
    requires IsRun(spec, states, inputs) && i < |states| && slot.snap == states[i]
    requires slot.WellFormed() && slot.Planck() && |cooked| == RNG_LEN
    requires CanShuffle(SeedWords(slot.Seed(), cooked), |Candidates(slot)|)
    ensures MayPropose(slot, leader)
    ensures forall v :: MayPropose(slot, v) ==>
              (BackOffTime(slot, v, DealtSteps(slot, cooked)) == 0 <==> v == leader)
    ensures forall v, w :: MayPropose(slot, v) && MayPropose(slot, w) && v != w ==>
              Apart(BackOffTime(slot, v, DealtSteps(slot, cooked)),
                    BackOffTime(slot, w, DealtSteps(slot, cooked)))
  {
    var steps := DealtSteps(slot, cooked);
    RunKeepsInv(spec, states, inputs, i);
    DealtStepsAreADeal(slot, cooked);
    leader := SomeoneLeads(slot, BohrIn(spec, inputs, i), steps);
    forall v, w | MayPropose(slot, v) && MayPropose(slot, w) && v != w
      ensures Apart(BackOffTime(slot, v, steps), BackOffTime(slot, w, steps))
    {
      WaitsAreApart(slot, v, w, steps);
    }
  }

  // ---------------------------------------------------------------------------
  // The waits in numbers
  // ---------------------------------------------------------------------------

  /** The validators that may propose. */
  ghost function Eligible(slot: Slot): set<Address>
    requires slot.WellFormed()
  {
    set v | v in slot.snap.validators && MayPropose(slot, v)
  }

  ghost function Waits(slot: Slot, steps: seq<nat>, vs: set<Address>): set<nat>
    requires slot.WellFormed() && |steps| == |Candidates(slot)|
  {
    set v | v in vs :: BackOffTime(slot, v, steps)
  }

  /** The k-th wait in milliseconds when the validator in turn is barred. */
  function BarredWait(lorentz: bool, k: nat): nat {
    if !lorentz then 1000 * k else if k == 0 then 0 else 1000 * (k + 1)
  }

  /** The k-th wait out of turn when the validator in turn may propose. */
  function FreeWait(lorentz: bool, k: nat): nat {
    if lorentz then 2000 + 1000 * k else 1000 + 1000 * k
  }

  /** The first n waits out of turn without the one at unused. */
  ghost function AllBut(lorentz: bool, n: nat, unused: nat): set<nat> {
    set k | 0 <= k < n && k != unused :: FreeWait(lorentz, k)
  }

  /** The k-th wait of a slot. */
  function SlotWait(slot: Slot, k: nat): nat
    requires slot.WellFormed()
  {
    if slot.snap.SignRecently(slot.snap.InturnValidator()) then BarredWait(slot.ParentLorentz(), k)
    else FreeWait(slot.ParentLorentz(), k)
  }

  lemma StepInNumbers(slot: Slot, k: nat)
    requires slot.WellFormed() && slot.Planck()
    ensures StepDelay(slot.Delay(), slot.ParentLorentz(), k) == SlotWait(slot, k)
  {
  }

  /** The candidates are those that may propose, from Bohr on without the validator in turn. */
  lemma CandidatesAre(slot: Slot)
    requires slot.WellFormed() && slot.Planck() && Distinct(slot.snap.validators)
    ensures var inturn := slot.snap.InturnValidator();
            var vs := if slot.Bohr() then Eligible(slot) - {inturn} else Eligible(slot);
            |Candidates(slot)| == |vs| && Distinct(Candidates(slot)) && forall v :: v in Candidates(slot) <==> v in vs
  {
    var inturn := slot.snap.InturnValidator();
    var vs := if slot.Bohr() then Eligible(slot) - {inturn} else Eligible(slot);
    RetainedMembers(slot, slot.snap.validators);
    DistinctCount(Candidates(slot), vs);
  }

  /** What the slot deals: every candidate out of turn one wait, and every wait to one candidate. */
  ghost predicate Dealt(slot: Slot, steps: seq<nat>) {
    && slot.WellFormed() && slot.Planck() && Distinct(slot.snap.validators)
    && |steps| == |Candidates(slot)| && IsDeal(steps)
  }

  /** The step of a validator out of turn, and its wait. */
  lemma StepOf(slot: Slot, steps: seq<nat>, v: Address) returns (k: nat)
    requires Dealt(slot, steps) && MayPropose(slot, v) && v != slot.snap.InturnValidator()
    ensures k < |steps| && v in Candidates(slot) && k == steps[IndexOf(Candidates(slot), v)]
    ensures BackOffTime(slot, v, steps) == SlotWait(slot, k)
  {
    OutOfTurnWait(slot, v, steps);
    k := steps[IndexOf(Candidates(slot), v)];
    StepIsSmall(steps, IndexOf(Candidates(slot), v));
    StepInNumbers(slot, k);
  }

  /** The candidate dealt step k, and its wait if it is out of turn. */
  lemma HolderOf(slot: Slot, steps: seq<nat>, k: nat) returns (v: Address)
    requires Dealt(slot, steps) && k < |steps|
    ensures v in Candidates(slot) && v in Eligible(slot) && steps[IndexOf(Candidates(slot), v)] == k
    ensures v != slot.snap.InturnValidator() ==> BackOffTime(slot, v, steps) == SlotWait(slot, k)
  {
    CandidatesAre(slot);
    var i := StepHolder(steps, k);
    v := Candidates(slot)[i];
    assert IndexOf(Candidates(slot), v) == i;
    if v != slot.snap.InturnValidator() {
      var k' := StepOf(slot, steps, v);
    }
  }

  /** If no candidate is in turn, the waits of the candidates are the first |steps| waits. */
  lemma WaitsOfCandidates(slot: Slot, steps: seq<nat>, vs: set<Address>)
    requires Dealt(slot, steps) && slot.snap.InturnValidator() !in vs
    requires forall v :: v in Candidates(slot) <==> v in vs
    ensures Waits(slot, steps, vs) == set k | 0 <= k < |steps| :: SlotWait(slot, k)
  {
    var waits := set k | 0 <= k < |steps| :: SlotWait(slot, k);
    CandidatesAre(slot);
    forall v | v in vs
      ensures BackOffTime(slot, v, steps) in waits
    {
      var k := StepOf(slot, steps, v);
    }
    forall k | 0 <= k < |steps|
      ensures SlotWait(slot, k) in Waits(slot, steps, vs)
    {
      var v := HolderOf(slot, steps, k);
    }
  }

  /** With the validator in turn barred: one wait for each that may propose. */
  lemma WaitsWhenBarred(slot: Slot, steps: seq<nat>)
    requires Dealt(slot, steps) && slot.snap.SignRecently(slot.snap.InturnValidator())
    ensures Waits(slot, steps, Eligible(slot)) == set k | 0 <= k < |Eligible(slot)| :: BarredWait(slot.ParentLorentz(), k)
  {
    CandidatesAre(slot);
    assert Eligible(slot) - {slot.snap.InturnValidator()} == Eligible(slot);
    WaitsOfCandidates(slot, steps, Eligible(slot));
    assert forall k: nat :: SlotWait(slot, k) == BarredWait(slot.ParentLorentz(), k);
  }

  /** With the validator in turn free, from Bohr on: one wait for each other that may propose. */
  lemma WaitsWhenFree(slot: Slot, steps: seq<nat>)
    requires Dealt(slot, steps) && slot.Bohr() && !slot.snap.SignRecently(slot.snap.InturnValidator())
    ensures var others := Eligible(slot) - {slot.snap.InturnValidator()};
            Waits(slot, steps, others) == set k | 0 <= k < |others| :: FreeWait(slot.ParentLorentz(), k)
  {
    CandidatesAre(slot);
    WaitsOfCandidates(slot, steps, Eligible(slot) - {slot.snap.InturnValidator()});
    assert forall k: nat :: SlotWait(slot, k) == FreeWait(slot.ParentLorentz(), k);
  }

  /** Before Bohr the validator in turn is dealt a step too, so one of the waits goes unused. */
  lemma WaitsBeforeBohr(slot: Slot, steps: seq<nat>) returns (unused: nat)
    requires Dealt(slot, steps) && !slot.Bohr() && !slot.snap.SignRecently(slot.snap.InturnValidator())
    ensures unused < |Eligible(slot)|
    ensures Waits(slot, steps, Eligible(slot) - {slot.snap.InturnValidator()})
         == AllBut(slot.ParentLorentz(), |Eligible(slot)|, unused)
  {
    var inturn := slot.snap.InturnValidator();
    var others := Eligible(slot) - {inturn};
    CandidatesAre(slot);
    var own := IndexOf(Candidates(slot), inturn);
    assert inturn in Candidates(slot);
    unused := steps[own];
    StepIsSmall(steps, own);
    var waits := AllBut(slot.ParentLorentz(), |Eligible(slot)|, unused);
    forall v | v in others
      ensures BackOffTime(slot, v, steps) in waits
    {
      var k := StepOf(slot, steps, v);
      assert IndexOf(Candidates(slot), v) != own;
      assert FreeWait(slot.ParentLorentz(), k) in waits;
    }
    forall k | 0 <= k < |Eligible(slot)| && k != unused
      ensures FreeWait(slot.ParentLorentz(), k) in Waits(slot, steps, others)
    {
      var v := HolderOf(slot, steps, k);
      assert v in others;
    }
  }

  /**
   The waits of a slot in every snapshot of every run, from Planck on and whatever the
   generator deals: with the validator in turn barred they are 0, 2000, 3000, .. past
   Lorentz and 0, 1000, 2000, .. before it, one for each that may propose; with it free it
   waits 0 and the others 2000, 3000, .. past Lorentz and 1000, 2000, .. before it, of
   which one goes unused before Bohr.
   */
  lemma WaitsInNumbers(spec: ChainSpec, states: seq<Snapshot>, inputs: seq<BlockInput>, i: nat, slot: Slot, cooked: seq<Word>)
    requires IsRun(spec, states, inputs) && i < |states| && slot.snap == states[i]
    requires slot.WellFormed() && slot.Planck() && |cooked| == RNG_LEN
    requires CanShuffle(SeedWords(slot.Seed(), cooked), |Candidates(slot)|)
    ensures var steps, inturn := DealtSteps(slot, cooked), slot.snap.InturnValidator();
            if slot.snap.SignRecently(inturn) then
              Waits(slot, steps, Eligible(slot)) == set k | 0 <= k < |Eligible(slot)| :: BarredWait(slot.ParentLorentz(), k)
            else
              && BackOffTime(slot, inturn, steps) == 0
              && var others := Eligible(slot) - {inturn};
                 if slot.Bohr()
                 then Waits(slot, steps, others) == set k | 0 <= k < |others| :: FreeWait(slot.ParentLorentz(), k)
                 else exists unused :: 0 <= unused < |Eligible(slot)|
                        && Waits(slot, steps, others) == AllBut(slot.ParentLorentz(), |Eligible(slot)|, unused)
  {
    var steps := DealtSteps(slot, cooked);
    RunKeepsInv(spec, states, inputs, i);
    DealtStepsAreADeal(slot, cooked);
    if slot.snap.SignRecently(slot.snap.InturnValidator()) {
      WaitsWhenBarred(slot, steps);
    } else if slot.Bohr() {
      WaitsWhenFree(slot, steps);
    } else {
      var unused := WaitsBeforeBohr(slot, steps);
    }
  }

  /** Before Planck nobody is left out: validator i waits for step i out of turn, barred or not. */
  lemma WaitsBeforePlanck(slot: Slot, steps: seq<nat>, i: nat)
    requires slot.WellFormed() && !slot.Planck() && Distinct(slot.snap.validators)
    requires |steps| == |slot.snap.validators| && i < |steps|
    ensures |steps| == |Candidates(slot)|
    ensures var v := slot.snap.validators[i];
            BackOffTime(slot, v, steps) ==
            if v == slot.snap.InturnValidator() then 0 else FreeWait(slot.ParentLorentz(), steps[i])
  {
    assert IndexOf(Candidates(slot), slot.snap.validators[i]) == i;
  }

  /** Within a turn, and before Bohr on the same parent, equally many candidates are dealt the same steps. */
  lemma SameTurnSameSteps(a: Slot, b: Slot, cooked: seq<Word>)
    requires a.WellFormed() && b.WellFormed() && |cooked| == RNG_LEN && |Candidates(a)| == |Candidates(b)|
    requires CanShuffle(SeedWords(a.Seed(), cooked), |Candidates(a)|)
    requires a.Bohr() == b.Bohr() && a.snap.Turn() == b.snap.Turn()
    requires if a.Bohr() then a.number / a.snap.Turn() == b.number / a.snap.Turn()
             else a.snap.blockNumber == b.snap.blockNumber
    ensures CanShuffle(SeedWords(b.Seed(), cooked), |Candidates(b)|)
    ensures DealtSteps(a, cooked) == DealtSteps(b, cooked)
  {
  }

  // ---------------------------------------------------------------------------
  // The imperative form
  // ---------------------------------------------------------------------------

  /** Drops from the list, in place of the source's retain, those that are not kept. */
  method Retain(slot: Slot, counts: map<Address, Byte>) returns (kept: seq<Address>)
    requires slot.WellFormed()
    requires IsCount(slot.snap, counts) && CountersFit(slot.snap)
    ensures kept == Retained(slot, slot.snap.validators)
  {
    var vs := slot.snap.validators;
    kept := [];
    for i := 0 to |vs|
      invariant kept == Retained(slot, vs[..i])
    {
      assert vs[..i + 1][..i] == vs[..i];
      var recent := SignRecentlyByCounts(slot.snap, vs[i], counts);
      if !(recent || (slot.Bohr() && vs[i] == slot.snap.InturnValidator())) {
        kept := kept + [vs[i]];
      }
    }
    assert vs[..|vs|] == vs;
  }

  /** Seeds the generator and shuffles the steps 0 to n - 1. */
  method SeedAndShuffle(seed: nat, n: nat, cooked: seq<Word>) returns (steps: seq<nat>)
    requires |cooked| == RNG_LEN && CanShuffle(SeedWords(seed, cooked), n)
    ensures steps == Shuffled(Iota(n), SeedWords(seed, cooked))
  {
    ghost var init := SeedWords(seed, cooked);
    var rng := new RngSource(seed, cooked);
    var a := new nat[n](i => i);
    assert a[..] == Iota(n);
    ShuffleInPlace(a, rng, init);
    steps := a[..];
  }

  /** The steps for this slot; the seed depends on whether Bohr is active. */
  method DealSteps(slot: Slot, n: nat, cooked: seq<Word>) returns (steps: seq<nat>)
    requires slot.WellFormed() && |cooked| == RNG_LEN && n == |Candidates(slot)|
    requires CanShuffle(SeedWords(slot.Seed(), cooked), n)
    ensures steps == DealtSteps(slot, cooked)
    ensures var seed := if slot.Bohr() then slot.number / slot.snap.Turn() else slot.snap.blockNumber;
            steps == Shuffled(Iota(n), SeedWords(seed, cooked))
  {
    var seed := if slot.Bohr() then slot.number / slot.snap.Turn() else slot.snap.blockNumber;
    steps := SeedAndShuffle(seed, n, cooked);
  }

  /** Looks the validator up among the candidates and reads off its step. */
  method FindWait(validators: seq<Address>, v: Address, steps: seq<nat>, delay: nat, lorentz: bool)
    returns (wait: nat)
    requires |steps| == |validators|
    ensures var idx := IndexOf(validators, v);
            wait == if idx < |steps| then StepDelay(delay, lorentz, steps[idx]) else 0
  {
    for idx := 0 to |validators|
      invariant forall k :: 0 <= k < idx ==> validators[k] != v
    {
      if validators[idx] == v {
        assert IndexOf(validators, v) == idx;
        if delay == 0 && lorentz {
          return if steps[idx] == 0 then 0
                 else LORENTZ_BACKOFF_TIME_OF_INITIAL + (steps[idx] - 1) * BACKOFF_TIME_OF_WIGGLE;
        }
        return delay + steps[idx] * BACKOFF_TIME_OF_WIGGLE;
      }
    }
    return 0;
  }

  /** The back-off of one validator for one slot. */
  method ComputeBackOff(slot: Slot, v: Address, cooked: seq<Word>) returns (wait: nat)
    requires slot.WellFormed() && CountersFit(slot.snap) && |cooked| == RNG_LEN
    requires CanShuffle(SeedWords(slot.Seed(), cooked), |Candidates(slot)|)
    ensures wait == BackOffTime(slot, v, DealtSteps(slot, cooked))
  {
    if slot.snap.InturnValidator() == v {
      return 0;
    }
    var delay := BACKOFF_TIME_OF_INITIAL;
    if slot.ParentLorentz() {
      delay := LORENTZ_BACKOFF_TIME_OF_INITIAL;
    }
    var validators := slot.snap.validators;
    if slot.Planck() {
      var counts := CountRecentProposers(slot.snap);
      var recent := SignRecentlyByCounts(slot.snap, v, counts);
      if recent {
        return 0;
      }
      var inturnRecent := SignRecentlyByCounts(slot.snap, slot.snap.InturnValidator(), counts);
      if inturnRecent {
        delay := 0;
      }
      validators := Retain(slot, counts);
    }
    var steps := DealSteps(slot, |validators|, cooked);
    wait := FindWait(validators, v, steps, delay, slot.ParentLorentz());
  }
}
