/**
 * A model of the generic genetic-algorithm engine: the roulette wheel used for
 * fitness-proportional selection, and the engine that owns a population of
 * bit-string chromosomes and breeds it generation by generation.
 *
 * Every draw of the random source is an explicit input. Chromosomes are arrays,
 * so that a parent picked for mating is changed in place, exactly as the lists
 * of the original are, and a chromosome picked twice is one object twice.
 */
module Genetic {

  // ---------------------------------------------------------------------------
  // Sums and maxima of fitness scores (exact arithmetic)
  // ---------------------------------------------------------------------------

  /** The sum of the scores, added from the left. */
  function Sum(s: seq<real>): (total: real)
  {
    if |s| == 0 then 0.0 else Sum(s[..|s| - 1]) + s[|s| - 1]
  }

  predicate NonNegative(s: seq<real>)
  {
    forall i :: 0 <= i < |s| ==> 0.0 <= s[i]
  }

  /** The largest score. */
  function Max(s: seq<real>): (m: real)
    requires |s| > 0
    ensures forall i :: 0 <= i < |s| ==> s[i] <= m
    ensures exists i :: 0 <= i < |s| && s[i] == m
  {
    if |s| == 1 then s[0]
    else
      var rest := Max(s[1..]);
      assert forall i :: 1 <= i < |s| ==> s[i] == s[1..][i - 1];
      if s[0] < rest then rest else s[0]
  }

  /** With non-negative scores, a longer prefix never has a smaller sum. */
  lemma {:induction false} PrefixSumsAscend(s: seq<real>, i: nat, j: nat)
    requires NonNegative(s) && i <= j <= |s|
    ensures Sum(s[..i]) <= Sum(s[..j])
  {
    if i < j {
      PrefixSumsAscend(s, i, j - 1);
      assert s[..j][..j - 1] == s[..j - 1];
    }
  }

  // ---------------------------------------------------------------------------
  // The roulette wheel
  // ---------------------------------------------------------------------------

  /** The scores would make the wheel divide by a zero total. */
  predicate DividesByZero(scores: seq<real>)
  {
    |scores| > 0 && Sum(scores) == 0.0
  }

  /** Entry i is the share of the total held by scores 0..i. */
  function CumulativeBounds(scores: seq<real>): (bounds: seq<real>)
    requires !DividesByZero(scores)
    ensures |bounds| == |scores|
  {
    seq(|scores|, i requires 0 <= i < |scores| => Sum(scores[..i + 1]) / Sum(scores))
  }

  lemma DivideMonotone(x: real, y: real, t: real)
    requires x <= y && 0.0 < t
    ensures x / t <= y / t
  {
    assert y / t - x / t == (y - x) / t;
  }

  lemma {:induction false} BoundsOrdered(scores: seq<real>, i: nat, j: nat)
    requires NonNegative(scores) && 0.0 < Sum(scores) && i <= j < |scores|
    ensures CumulativeBounds(scores)[i] <= CumulativeBounds(scores)[j]
  {
    PrefixSumsAscend(scores, i + 1, j + 1);
    DivideMonotone(Sum(scores[..i + 1]), Sum(scores[..j + 1]), Sum(scores));
  }

  lemma WholeShare(total: real)
    requires 0.0 < total
    ensures total / total == 1.0
  {
  }

  lemma ShareInUnit(part: real, total: real)
    requires 0.0 <= part <= total && 0.0 < total
    ensures 0.0 <= part / total <= 1.0
  {
    DivideMonotone(0.0, part, total);
    DivideMonotone(part, total, total);
  }

  lemma {:induction false} BoundInUnit(scores: seq<real>, i: nat)
    requires NonNegative(scores) && 0.0 < Sum(scores) && i < |scores|
    ensures 0.0 <= CumulativeBounds(scores)[i] <= 1.0
  {
    PrefixSumsAscend(scores, 0, i + 1);
    PrefixSumsAscend(scores, i + 1, |scores|);
    assert scores[..0] == [] && scores[..|scores|] == scores;
    ShareInUnit(Sum(scores[..i + 1]), Sum(scores));
  }

  /**
   * With non-negative scores and a positive total the bounds ascend, lie in
   * [0, 1], and the last one is exactly 1.
   */
  lemma BoundsAscendToOne(scores: seq<real>)
    requires NonNegative(scores) && 0.0 < Sum(scores)
    ensures |scores| > 0
    ensures Ascending(CumulativeBounds(scores))
    ensures forall i :: 0 <= i < |scores| ==> 0.0 <= CumulativeBounds(scores)[i] <= 1.0
    ensures CumulativeBounds(scores)[|scores| - 1] == 1.0
  {
    assert CumulativeBounds(scores)[|scores| - 1] == 1.0 by {
      assert scores[..|scores|] == scores;
      WholeShare(Sum(scores));
    }
    forall i | 0 <= i < |scores|
      ensures 0.0 <= CumulativeBounds(scores)[i] <= 1.0
    {
      BoundInUnit(scores, i);
    }
    CumulativeAscending(scores);
  }

  /** The first index whose bound exceeds the fate, or -1 when none does. */
  function FirstAbove(bounds: seq<real>, fate: real): (index: int)
    ensures -1 <= index < |bounds|
  {
    if |bounds| == 0 then -1
    else if fate < bounds[0] then 0
    else
      var rest := FirstAbove(bounds[1..], fate);
      if rest == -1 then -1 else rest + 1
  }

  /** The index found is the first whose bound exceeds the fate; -1 exactly when none does. */
  lemma {:induction false} FirstAboveFinds(bounds: seq<real>, fate: real)
    ensures FirstAbove(bounds, fate) == -1 <==> forall k :: 0 <= k < |bounds| ==> bounds[k] <= fate
    ensures 0 <= FirstAbove(bounds, fate) ==>
              fate < bounds[FirstAbove(bounds, fate)] &&
              forall k :: 0 <= k < FirstAbove(bounds, fate) ==> bounds[k] <= fate
  {
    if |bounds| > 0 && bounds[0] <= fate {
      FirstAboveFinds(bounds[1..], fate);
      assert forall k :: 1 <= k < |bounds| ==> bounds[k] == bounds[1..][k - 1];
    }
  }

  /** Python's reading of a list index: -1 is the last element. */
  function PyIndex(index: int, length: nat): (slot: nat)
    requires -(length as int) <= index < length
    ensures slot < length
    ensures 0 <= index ==> slot == index
  {
    if index < 0 then length + index else index
  }

  /**
   * Under exact arithmetic a fate drawn from [0, 1) always finds a bound, so
   * the -1 fallback is never taken and the slot read is the index itself.
   */
  lemma SpinNeverFallsBack(scores: seq<real>, fate: real)
    requires NonNegative(scores) && 0.0 < Sum(scores) && fate < 1.0
    ensures 0 <= FirstAbove(CumulativeBounds(scores), fate) < |scores|
  {
    BoundsAscendToOne(scores);
    FirstAboveFinds(CumulativeBounds(scores), fate);
  }

  predicate Ascending(bounds: seq<real>)
  {
    forall i, j :: 0 <= i <= j < |bounds| ==> bounds[i] <= bounds[j]
  }

  /** Non-negative scores with a positive total give ascending bounds. */
  lemma CumulativeAscending(scores: seq<real>)
    requires NonNegative(scores) && 0.0 < Sum(scores)
    ensures Ascending(CumulativeBounds(scores))
  {
    forall i, j | 0 <= i <= j < |scores|
      ensures CumulativeBounds(scores)[i] <= CumulativeBounds(scores)[j]
    {
      BoundsOrdered(scores, i, j);
    }
  }

  /** On ascending bounds, index i is chosen exactly by the fates in [bounds[i-1], bounds[i]). */
  lemma FirstAboveInterval(bounds: seq<real>, fate: real, i: nat)
    requires Ascending(bounds) && i < |bounds|
    ensures FirstAbove(bounds, fate) == i <==> (i == 0 || bounds[i - 1] <= fate) && fate < bounds[i]
  {
    var f := FirstAbove(bounds, fate);
    FirstAboveFinds(bounds, fate);
    if 0 < i && bounds[i - 1] <= fate < bounds[i] {
      assert f != -1;
    }
  }

  /** The share of scores 0..i exceeds the share of scores 0..i-1 by score i's share. */
  lemma {:induction false} ShareWidth(scores: seq<real>, i: nat)
    requires 0.0 < Sum(scores) && i < |scores|
    ensures Sum(scores[..i + 1]) / Sum(scores) - Sum(scores[..i]) / Sum(scores) == scores[i] / Sum(scores)
  {
    var total, before := Sum(scores), Sum(scores[..i]);
    assert scores[..i + 1][..i] == scores[..i];
    assert Sum(scores[..i + 1]) == before + scores[i];
    assert (before + scores[i]) / total - before / total == scores[i] / total;
  }

  /**
   * Fitness-proportional selection: the fates in [0, 1) that select index i
   * form the interval from the share of scores 0..i-1 to the share of scores
   * 0..i, whose width is score i's share of the total.
   */
  lemma SpinChoosesByShare(scores: seq<real>, fate: real, i: nat)
    requires NonNegative(scores) && 0.0 < Sum(scores) && 0.0 <= fate && i < |scores|
    ensures FirstAbove(CumulativeBounds(scores), fate) == i <==>
              Sum(scores[..i]) / Sum(scores) <= fate < Sum(scores[..i + 1]) / Sum(scores)
    ensures Sum(scores[..i + 1]) / Sum(scores) - Sum(scores[..i]) / Sum(scores) == scores[i] / Sum(scores)
  {
    var b := CumulativeBounds(scores);
    CumulativeAscending(scores);
    FirstAboveInterval(b, fate, i);
    ShareWidth(scores, i);
    if i == 0 {
      assert scores[..0] == [];
    } else {
      assert b[i - 1] == Sum(scores[..i]) / Sum(scores);
    }
  }

  class RouletteWheel {
    const scalar: real
    const upperbounds: seq<real>

    /**
     * Builds the table of cumulative normalised scores with a running sum. A
     * non-empty list with a zero total divides by zero, which callers avoid.
     */
    constructor (fitnessScores: seq<real>)
      requires !DividesByZero(fitnessScores)
      ensures scalar == Sum(fitnessScores)
      ensures upperbounds == CumulativeBounds(fitnessScores)
    {
      var total := Sum(fitnessScores);
      var runningSum := 0.0;
      var bounds: seq<real> := [];
      for i := 0 to |fitnessScores|
        invariant |bounds| == i
        invariant 0 < |fitnessScores| ==> runningSum == Sum(fitnessScores[..i]) / total
        invariant forall k :: 0 <= k < i ==> bounds[k] == Sum(fitnessScores[..k + 1]) / total
      {
        assert fitnessScores[..i + 1][..i] == fitnessScores[..i];
        runningSum := runningSum + fitnessScores[i] / total;
        bounds := bounds + [runningSum];
      }
      scalar := total;
      upperbounds := bounds;
    }

    /**
     * Scans the bounds for the first one above the fate; -1 (read by Python as
     * the last element) when no bound is above it.
     */
    method Spin(fate: real) returns (index: int)
      ensures index == FirstAbove(upperbounds, fate)
      ensures -1 <= index < |upperbounds|
      ensures 0 <= index ==> fate < upperbounds[index]
      ensures forall k :: 0 <= k < |upperbounds| && (index == -1 || k < index) ==> upperbounds[k] <= fate
    {
      for i := 0 to |upperbounds|
        invariant forall k :: 0 <= k < i ==> upperbounds[k] <= fate
      {
        if fate < upperbounds[i] {
          FirstAboveFinds(upperbounds, fate);
          return i;
        }
      }
      FirstAboveFinds(upperbounds, fate);
      return -1;
    }
  }

  // ---------------------------------------------------------------------------
  // Chromosome operators on values
  // ---------------------------------------------------------------------------

  /** The first child of a crossover at point k: p1's head, p2's tail. */
  function Crossed(p1: seq<bool>, p2: seq<bool>, k: nat): (child: seq<bool>)
    requires |p1| == |p2|
    ensures |child| == |p1|
    ensures k <= |p1| ==> child == p1[..k] + p2[k..]
  {
    seq(|p1|, i requires 0 <= i < |p1| => if i < k then p1[i] else p2[i])
  }

  /**
   * The two children of a crossover exchange the parents' tails: crossing
   * them again at k gives the parents back, and a chromosome crossed with
   * itself is unchanged.
   */
  lemma CrossoverExchangesTails(p1: seq<bool>, p2: seq<bool>, k: nat)
    requires |p1| == |p2| && k <= |p1|
    ensures Crossed(Crossed(p1, p2, k), Crossed(p2, p1, k), k) == p1
    ensures Crossed(Crossed(p2, p1, k), Crossed(p1, p2, k), k) == p2
    ensures Crossed(p1, p1, k) == p1
  {
    assert Crossed(p1, p2, k)[..k] == p1[..k];
    assert Crossed(p2, p1, k)[..k] == p2[..k];
  }

  /** Flips exactly the genes whose draw is below the rate. */
  function Mutated(genes: seq<bool>, draws: seq<real>, rate: real): (mutant: seq<bool>)
    requires |draws| == |genes|
    ensures |mutant| == |genes|
    ensures forall i :: 0 <= i < |genes| ==> (mutant[i] != genes[i] <==> draws[i] < rate)
  {
    seq(|genes|, i requires 0 <= i < |genes| => if draws[i] < rate then !genes[i] else genes[i])
  }

  function Complement(genes: seq<bool>): (flipped: seq<bool>)
  {
    seq(|genes|, i requires 0 <= i < |genes| => !genes[i])
  }

  /** A rate of 0 changes nothing, given draws in [0, 1). */
  lemma MutationRateZero(genes: seq<bool>, draws: seq<real>)
    requires |draws| == |genes| && forall i :: 0 <= i < |draws| ==> 0.0 <= draws[i]
    ensures Mutated(genes, draws, 0.0) == genes
  {
  }

  /** A rate of 1 flips every gene, given draws in [0, 1). */
  lemma MutationRateOne(genes: seq<bool>, draws: seq<real>)
    requires |draws| == |genes| && forall i :: 0 <= i < |draws| ==> draws[i] < 1.0
    ensures Mutated(genes, draws, 1.0) == Complement(genes)
  {
  }

  /** Mutating twice with the same draws restores the chromosome. */
  lemma MutationUndoes(genes: seq<bool>, draws: seq<real>, rate: real)
    requires |draws| == |genes|
    ensures Mutated(Mutated(genes, draws, rate), draws, rate) == genes
  {
  }

  // ---------------------------------------------------------------------------
  // Random draws
  // ---------------------------------------------------------------------------

  /**
   * The draws one mating takes from the random source, in order: two spins,
   * the crossover decision, the crossover location (drawn only when crossing
   * over), and one draw per gene for each baby's mutation.
   */
  datatype MatingDraws = MatingDraws(fate1: real, fate2: real, crossover: real, location: real,
                                     mutation1: seq<real>, mutation2: seq<real>)

  predicate DrawsFit(d: MatingDraws, chromosomeLen: nat)
  {
    0.0 <= d.location < 1.0 && |d.mutation1| == chromosomeLen && |d.mutation2| == chromosomeLen
  }

  lemma {:induction false} ScaledDraw(location: real, n: nat)
    requires 0.0 <= location < 1.0
    ensures 0.0 <= location * n as real <= n as real
    ensures 0 < n ==> location * n as real < n as real
  {
    if n > 0 {
      ScaledDraw(location, n - 1);
      assert location * n as real == location * (n - 1) as real + location;
    }
  }

  lemma FloorInRange(x: real, n: nat)
    requires 0.0 <= x <= n as real
    ensures 0 <= x.Floor <= n
    ensures x < n as real ==> x.Floor < n
  {
  }

  /** A draw in [0, 1) scaled to a length and truncated lands in range. */
  lemma CrossoverInRange(location: real, n: nat)
    requires 0.0 <= location < 1.0
    ensures 0 <= (location * n as real).Floor <= n
    ensures 0 < n ==> (location * n as real).Floor < n
  {
    ScaledDraw(location, n);
    FloorInRange(location * n as real, n);
  }

  /** The crossover point: a draw in [0, 1) scaled to the length and truncated. */
  function CrossoverPoint(location: real, chromosomeLen: nat): (randloc: nat)
    requires 0.0 <= location < 1.0
    ensures randloc <= chromosomeLen
    ensures 0 < chromosomeLen ==> randloc < chromosomeLen
  {
    CrossoverInRange(location, chromosomeLen);
    (location * chromosomeLen as real).Floor
  }

  /**
   * The two babies of one mating, from the parents' contents. When both
   * parents are the same chromosome the crossover swaps genes with
   * themselves, and that one chromosome is mutated twice, once per baby.
   */
  function MateContents(p1: seq<bool>, p2: seq<bool>, aliased: bool, d: MatingDraws,
                        crossoverRate: real, mutationRate: real): (babies: (seq<bool>, seq<bool>))
    requires |p1| == |p2| && DrawsFit(d, |p1|)
    ensures |babies.0| == |p1| && |babies.1| == |p1|
  {
    if aliased then
      var m := Mutated(Mutated(p1, d.mutation1, mutationRate), d.mutation2, mutationRate);
      (m, m)
    else if d.crossover < crossoverRate then
      var k := CrossoverPoint(d.location, |p1|);
      (Mutated(Crossed(p1, p2, k), d.mutation1, mutationRate),
       Mutated(Crossed(p2, p1, k), d.mutation2, mutationRate))
    else
      (Mutated(p1, d.mutation1, mutationRate), Mutated(p2, d.mutation2, mutationRate))
  }

  /**
   * With crossover on and no mutation (rate 0, draws in [0, 1)), the babies
   * are p1's head with p2's tail and p2's head with p1's tail; with
   * crossover off they are the parents.
   */
  lemma MateWithoutMutation(p1: seq<bool>, p2: seq<bool>, d: MatingDraws, crossoverRate: real)
    requires |p1| == |p2| && DrawsFit(d, |p1|)
    requires forall i :: 0 <= i < |p1| ==> 0.0 <= d.mutation1[i] && 0.0 <= d.mutation2[i]
    ensures var k := CrossoverPoint(d.location, |p1|);
            MateContents(p1, p2, false, d, crossoverRate, 0.0) ==
              if d.crossover < crossoverRate then (p1[..k] + p2[k..], p2[..k] + p1[k..]) else (p1, p2)
  {
    var k := CrossoverPoint(d.location, |p1|);
    CrossoverExchangesTails(p1, p2, k);
    MutationRateZero(Crossed(p1, p2, k), d.mutation1);
    MutationRateZero(Crossed(p2, p1, k), d.mutation2);
    MutationRateZero(p1, d.mutation1);
    MutationRateZero(p2, d.mutation2);
  }

  // ---------------------------------------------------------------------------
  // Populations of shared chromosomes, and their value model
  // ---------------------------------------------------------------------------

  /** The first position of the population that holds the chromosome. */
  function FirstIndex(population: seq<array<bool>>, chromosome: array<bool>): (k: nat)
    requires chromosome in population
    ensures k < |population| && population[k] == chromosome
  {
    if population[0] == chromosome then 0
    else
      var k := 1 + FirstIndex(population[1..], chromosome);
      assert population[k] == population[1..][k - 1];
      k
  }

  /** No earlier position holds the chromosome: the id is the first position. */
  lemma {:induction false} FirstIndexIsFirst(population: seq<array<bool>>, chromosome: array<bool>)
    requires chromosome in population
    ensures forall j :: 0 <= j < FirstIndex(population, chromosome) ==> population[j] != chromosome
  {
    if population[0] != chromosome {
      FirstIndexIsFirst(population[1..], chromosome);
      assert forall j :: 1 <= j < |population| ==> population[j] == population[1..][j - 1];
    }
  }

  /**
   * Names each position by the first position holding the same object: two
   * positions get one name exactly when they hold one chromosome.
   */
  function Ids(population: seq<array<bool>>): (ids: seq<nat>)
    ensures |ids| == |population|
    ensures forall j :: 0 <= j < |population| ==> ids[j] == FirstIndex(population, population[j])
  {
    seq(|population|, j requires 0 <= j < |population| => FirstIndex(population, population[j]))
  }

  /** Two positions share a name exactly when they hold the same chromosome. */
  lemma IdsNameObjects(population: seq<array<bool>>, i: nat, j: nat)
    requires i < |population| && j < |population|
    ensures Ids(population)[i] == Ids(population)[j] <==> population[i] == population[j]
  {
    var ids := Ids(population);
    if ids[i] == ids[j] {
      assert population[i] == population[ids[i]] == population[j];
    }
  }

  /** The genes of each position of the population. */
  function Contents(population: seq<array<bool>>): (store: seq<seq<bool>>)
    reads set c | c in population
    ensures |store| == |population|
    ensures forall j :: 0 <= j < |population| ==> store[j] == population[j][..]
  {
    seq(|population|, j reads set c | c in population requires 0 <= j < |population| => population[j][..])
  }

  /** Every chromosome of the store has the given length. */
  predicate Shaped(store: seq<seq<bool>>, chromosomeLen: nat)
  {
    forall id :: 0 <= id < |store| ==> |store[id]| == chromosomeLen
  }

  /** One mating on the store: both babies are written back to the parents' entries. */
  function MateInStore(store: seq<seq<bool>>, id1: nat, id2: nat, d: MatingDraws,
                       crossoverRate: real, mutationRate: real, chromosomeLen: nat): (after: seq<seq<bool>>)
    requires Shaped(store, chromosomeLen) && id1 < |store| && id2 < |store| && DrawsFit(d, chromosomeLen)
    ensures |after| == |store| && Shaped(after, chromosomeLen)
    ensures forall id :: 0 <= id < |store| && id != id1 && id != id2 ==> after[id] == store[id]
  {
    var babies := MateContents(store[id1], store[id2], id1 == id2, d, crossoverRate, mutationRate);
    store[id1 := babies.0][id2 := babies.1]
  }

  /** What a run of matings leaves: the contents of every chromosome, and the names picked, in order. */
  datatype Bred = Bred(store: seq<seq<bool>>, picks: seq<nat>)

  /**
   * The first `matings` matings of a generation on the value model: each one
   * spins twice, reads the population the Python way, and mates the picks in
   * place; the picks, two per mating, form the next population.
   */
  function Breed(store: seq<seq<bool>>, ids: seq<nat>, bounds: seq<real>, draws: seq<MatingDraws>,
                 matings: nat, crossoverRate: real, mutationRate: real, chromosomeLen: nat): (bred: Bred)
    requires Shaped(store, chromosomeLen)
    requires |bounds| == |ids| && forall j :: 0 <= j < |ids| ==> ids[j] < |store|
    requires matings <= |draws| && (0 < matings ==> 0 < |ids|)
    requires forall m :: 0 <= m < |draws| ==> DrawsFit(draws[m], chromosomeLen)
    ensures |bred.store| == |store| && Shaped(bred.store, chromosomeLen)
    ensures |bred.picks| == 2 * matings
    ensures forall k :: 0 <= k < |bred.picks| ==> bred.picks[k] < |store|
  {
    if matings == 0 then Bred(store, [])
    else
      var prev := Breed(store, ids, bounds, draws, matings - 1, crossoverRate, mutationRate, chromosomeLen);
      var d := draws[matings - 1];
      var id1 := ids[PyIndex(FirstAbove(bounds, d.fate1), |ids|)];
      var id2 := ids[PyIndex(FirstAbove(bounds, d.fate2), |ids|)];
      Bred(MateInStore(prev.store, id1, id2, d, crossoverRate, mutationRate, chromosomeLen),
           prev.picks + [id1, id2])
  }

  /** The number of matings a generation runs: children come in pairs. */
  function Matings(populationSize: nat): (matings: nat)
    ensures populationSize <= 2 * matings <= populationSize + 1
  {
    (populationSize + 1) / 2
  }

  /** A generation has the population size rounded up to even: odd sizes overshoot by one. */
  lemma MatingsRoundUp(populationSize: nat)
    ensures 2 * Matings(populationSize) == populationSize + populationSize % 2
  {
  }

  lemma MatingsRemain(matings: nat, populationSize: nat)
    requires 2 * matings < populationSize
    ensures matings < Matings(populationSize)
  {
  }

  /** Allocates one fresh chromosome per bit string, as the seeding loop does. */
  method Seed(seedBits: seq<seq<bool>>) returns (population: seq<array<bool>>)
    ensures |population| == |seedBits|
    ensures forall k :: 0 <= k < |population| ==> fresh(population[k]) && population[k][..] == seedBits[k]
    ensures forall i, j :: 0 <= i < j < |population| ==> population[i] != population[j]
  {
    population := [];
    for k := 0 to |seedBits|
      invariant |population| == k
      invariant forall i :: 0 <= i < k ==> fresh(population[i]) && population[i][..] == seedBits[i]
      invariant forall i, j :: 0 <= i < j < k ==> population[i] != population[j]
    {
      var bits := seedBits[k];
      var chromosome := new bool[|bits|](i requires 0 <= i < |bits| => bits[i]);
      population := population + [chromosome];
    }
  }

  /** Every chromosome of the population has the given length. */
  predicate Sized(population: seq<array<bool>>, chromosomeLen: nat)
  {
    forall j :: 0 <= j < |population| ==> population[j].Length == chromosomeLen
  }

  /** The chromosomes at the picked positions, in order of the picks. */
  function Select(population: seq<array<bool>>, picks: seq<nat>): (chosen: seq<array<bool>>)
    requires forall k :: 0 <= k < |picks| ==> picks[k] < |population|
    ensures |chosen| == |picks|
    ensures forall k :: 0 <= k < |picks| ==> chosen[k] == population[picks[k]]
    ensures forall c :: c in chosen ==> c in population
  {
    seq(|picks|, k requires 0 <= k < |picks| => population[picks[k]])
  }

  lemma SelectAppend(population: seq<array<bool>>, picks: seq<nat>, id1: nat, id2: nat)
    requires forall k :: 0 <= k < |picks| ==> picks[k] < |population|
    requires id1 < |population| && id2 < |population|
    ensures Select(population, picks + [id1, id2]) == Select(population, picks) + [population[id1], population[id2]]
  {
  }

  /** Some score is within epsilon of 1; false while no scores exist. */
  function Solved(scores: seq<real>, epsilon: real): (found: bool)
    ensures found <==> |scores| > 0 && exists j :: 0 <= j < |scores| && scores[j] >= 1.0 - epsilon
  {
    if |scores| > 0 then Max(scores) >= 1.0 - epsilon else false
  }

  /** Appending scores to a log whose every entry is unsolved keeps all but the new entry unsolved. */
  lemma UnsolvedLogGrows(log: seq<seq<real>>, scores: seq<real>, epsilon: real)
    requires |log| > 0 && !Solved(log[|log| - 1], epsilon)
    requires forall g :: 0 <= g < |log| - 1 ==> !Solved(log[g], epsilon)
    ensures forall g :: 0 <= g < |log| ==> !Solved((log + [scores])[g], epsilon)
  {
  }

  datatype Outcome = Completed | ZeroDivisionError

  /**
   * The next population `next` and the contents of the old population's
   * chromosomes are what `bred` says: the babies are the picked chromosomes
   * themselves, and every position holds the genes of its chromosome's id.
   */
  ghost predicate BredAs(pop: seq<array<bool>>, contents: seq<seq<bool>>, next: seq<array<bool>>, bred: Bred)
  {
    (forall k :: 0 <= k < |bred.picks| ==> bred.picks[k] < |pop|) &&
    next == Select(pop, bred.picks) &&
    |bred.store| == |pop| && |contents| == |pop| &&
    forall j :: 0 <= j < |pop| ==> contents[j] == bred.store[Ids(pop)[j]]
  }

  class Genetic {
    const fitness: seq<bool> -> real
    const chromosomeLen: nat
    const crossoverRate: real
    const populationSize: nat
    const mutationRate: real
    const epsilon: real
    var fitnessScores: seq<real>
    var population: seq<array<bool>>

    /** Every chromosome has chromosomeLen genes; the population is empty only when its size is 0. */
    predicate Valid()
      reads this
    {
      Sized(population, chromosomeLen) && (|population| == 0 ==> populationSize == 0)
    }

    /**
     * Stores the parameters, with no fitness scores yet. An empty (or
     * omitted) initial population is replaced by populationSize fresh
     * chromosomes spelled by the seeding bits; otherwise the given
     * chromosomes are used as they are, shared with the caller.
     */
    constructor (fitness: seq<bool> -> real, chromosomeLen: nat, populationSize: nat,
                 crossoverRate: real, mutationRate: real, initialPopulation: seq<array<bool>>,
                 epsilon: real, seedBits: seq<seq<bool>>)
      requires forall j :: 0 <= j < |initialPopulation| ==> initialPopulation[j].Length == chromosomeLen
      requires |initialPopulation| == 0 ==>
                 |seedBits| == populationSize && forall k :: 0 <= k < |seedBits| ==> |seedBits[k]| == chromosomeLen
      ensures Valid()
      ensures this.fitness == fitness && this.chromosomeLen == chromosomeLen
      ensures this.populationSize == populationSize && this.epsilon == epsilon
      ensures this.crossoverRate == crossoverRate && this.mutationRate == mutationRate
      ensures fitnessScores == []
      ensures |initialPopulation| > 0 ==> population == initialPopulation
      ensures |initialPopulation| == 0 ==>
                |population| == populationSize && Contents(population) == seedBits &&
                (forall k :: 0 <= k < |population| ==> fresh(population[k])) &&
                (forall i, j :: 0 <= i < j < |population| ==> population[i] != population[j])
    {
      this.fitness := fitness;
      this.chromosomeLen := chromosomeLen;
      this.crossoverRate := crossoverRate;
      this.populationSize := populationSize;
      this.mutationRate := mutationRate;
      fitnessScores := [];
      this.epsilon := epsilon;
      if |initialPopulation| == 0 {
        var seeded := Seed(seedBits);
        population := seeded;
      } else {
        population := initialPopulation;
      }
    }

    /** The current scores show a solution: some score is within epsilon of 1. */
    function SolFound(): (found: bool)
      reads this
      ensures found <==> |fitnessScores| > 0 &&
                         exists j :: 0 <= j < |fitnessScores| && fitnessScores[j] >= 1.0 - epsilon
    {
      Solved(fitnessScores, epsilon)
    }

    /** Replaces the scores with one fresh score per chromosome, in population order. */
    method AssignFitnessScores()
      modifies this`fitnessScores
      ensures |fitnessScores| == |population|
      ensures forall j :: 0 <= j < |population| ==> fitnessScores[j] == fitness(population[j][..])
    {
      fitnessScores := [];
      for j := 0 to |population|
        invariant |fitnessScores| == j
        invariant forall i :: 0 <= i < j ==> fitnessScores[i] == fitness(population[i][..])
      {
        fitnessScores := fitnessScores + [fitness(population[j][..])];
      }
    }

    /** Flips, in place, each gene whose draw is below the mutation rate. */
    method Mutate(baby: array<bool>, draws: seq<real>) returns (mutant: array<bool>)
      requires |draws| == baby.Length
      modifies baby
      ensures mutant == baby
      ensures baby[..] == Mutated(old(baby[..]), draws, mutationRate)
    {
      for i := 0 to baby.Length
        invariant forall k :: 0 <= k < i ==> baby[k] == (if draws[k] < mutationRate then !old(baby[k]) else old(baby[k]))
        invariant forall k :: i <= k < baby.Length ==> baby[k] == old(baby[k])
      {
        if draws[i] < mutationRate {
          baby[i] := !baby[i];
        }
      }
      return baby;
    }

    /**
     * The babies are the parents themselves: a crossover swaps their tails in
     * place, then each is mutated in place. The same parent twice is crossed
     * with itself (no change) and mutated twice.
     */
    method Mate(victim1: array<bool>, victim2: array<bool>, draws: MatingDraws)
      returns (baby1: array<bool>, baby2: array<bool>)
      requires victim1.Length == chromosomeLen && victim2.Length == chromosomeLen
      requires DrawsFit(draws, chromosomeLen)
      modifies victim1, victim2
      ensures baby1 == victim1 && baby2 == victim2
      ensures (victim1[..], victim2[..]) ==
                MateContents(old(victim1[..]), old(victim2[..]), victim1 == victim2, draws,
                             crossoverRate, mutationRate)
    {
      baby1 := victim1;
      baby2 := victim2;
      if draws.crossover < crossoverRate {
        var randloc := CrossoverPoint(draws.location, chromosomeLen);
        for i := randloc to chromosomeLen
          invariant baby1 == baby2 ==> baby1[..] == old(victim1[..])
          invariant baby1 != baby2 ==> forall k :: 0 <= k < chromosomeLen ==>
                      baby1[k] == (if randloc <= k < i then old(victim2[k]) else old(victim1[k])) &&
                      baby2[k] == (if randloc <= k < i then old(victim1[k]) else old(victim2[k]))
        {
          var temp := baby1[i];
          baby1[i] := baby2[i];
          baby2[i] := temp;
        }
        CrossoverExchangesTails(old(victim1[..]), old(victim2[..]), randloc);
        assert baby1 != baby2 ==> baby1[..] == Crossed(old(victim1[..]), old(victim2[..]), randloc);
        assert baby1 != baby2 ==> baby2[..] == Crossed(old(victim2[..]), old(victim1[..]), randloc);
      }
      baby1 := Mutate(baby1, draws.mutation1);
      baby2 := Mutate(baby2, draws.mutation2);
    }
  
    /**
     * One pass of the breeding loop: two spins, each read the Python way as a
     * population position, and a mating of the chromosomes found there.
     */
    method MateFromWheel(pop: seq<array<bool>>, roulette: RouletteWheel, d: MatingDraws,
                         ghost ids: seq<nat>, ghost store: seq<seq<bool>>)
      returns (baby1: array<bool>, baby2: array<bool>, ghost id1: nat, ghost id2: nat)
      requires Sized(pop, chromosomeLen) && 0 < |pop| && |roulette.upperbounds| == |pop|
      requires ids == Ids(pop) && DrawsFit(d, chromosomeLen)
      requires |store| == |pop| && Shaped(store, chromosomeLen)
      requires forall j :: 0 <= j < |pop| ==> pop[j][..] == store[ids[j]]
      modifies set c | c in pop
      ensures id1 == ids[PyIndex(FirstAbove(roulette.upperbounds, d.fate1), |pop|)]
      ensures id2 == ids[PyIndex(FirstAbove(roulette.upperbounds, d.fate2), |pop|)]
      ensures id1 < |pop| && id2 < |pop|
      ensures baby1 == pop[id1] && baby2 == pop[id2]
      ensures forall j :: 0 <= j < |pop| ==>
                pop[j][..] == MateInStore(store, id1, id2, d, crossoverRate, mutationRate, chromosomeLen)[ids[j]]
    {
      var spin1 := roulette.Spin(d.fate1);
      var spin2 := roulette.Spin(d.fate2);
      var slot1, slot2 := PyIndex(spin1, |pop|), PyIndex(spin2, |pop|);
      var victim1 := pop[slot1];
      var victim2 := pop[slot2];
      id1, id2 := ids[slot1], ids[slot2];
      label before:
      baby1, baby2 := Mate(victim1, victim2, d);
      ghost var after := MateInStore(store, id1, id2, d, crossoverRate, mutationRate, chromosomeLen);
      forall j | 0 <= j < |pop| ensures pop[j][..] == after[ids[j]] {
        if pop[j] != victim1 && pop[j] != victim2 {
          assert pop[j][..] == old@before(pop[j][..]);
        }
      }
    }

    /** One pass of the breeding loop, as a step of the value model. */
    method BreedStep(pop: seq<array<bool>>, roulette: RouletteWheel, draws: seq<MatingDraws>, m: nat,
                     ghost store0: seq<seq<bool>>, ghost bred: Bred, newPopulation: seq<array<bool>>)
      returns (grown: seq<array<bool>>, ghost bred': Bred)
      requires Sized(pop, chromosomeLen) && 0 < |pop| && |roulette.upperbounds| == |pop|
      requires m < |draws| && forall k :: 0 <= k < |draws| ==> DrawsFit(draws[k], chromosomeLen)
      requires |store0| == |pop| && Shaped(store0, chromosomeLen)
      requires bred == Breed(store0, Ids(pop), roulette.upperbounds, draws, m, crossoverRate, mutationRate, chromosomeLen)
      requires BredAs(pop, Contents(pop), newPopulation, bred)
      modifies set c | c in pop
      ensures bred' == Breed(store0, Ids(pop), roulette.upperbounds, draws, m + 1, crossoverRate, mutationRate, chromosomeLen)
      ensures BredAs(pop, Contents(pop), grown, bred')
    {
      var baby1, baby2, id1, id2 := MateFromWheel(pop, roulette, draws[m], Ids(pop), bred.store);
      SelectAppend(pop, bred.picks, id1, id2);
      grown := newPopulation + [baby1, baby2];
      bred' := Bred(MateInStore(bred.store, id1, id2, draws[m], crossoverRate, mutationRate, chromosomeLen),
                    bred.picks + [id1, id2]);
    }

    /**
     * The breeding loop: mates pairs drawn from the wheel and appends both
     * babies until the new population is at least populationSize long.
     */
    method BreedWith(pop: seq<array<bool>>, roulette: RouletteWheel, draws: seq<MatingDraws>)
      returns (newPopulation: seq<array<bool>>, ghost bred: Bred)
      requires Sized(pop, chromosomeLen) && (|pop| == 0 ==> populationSize == 0)
      requires |roulette.upperbounds| == |pop|
      requires Matings(populationSize) <= |draws|
      requires forall m :: 0 <= m < |draws| ==> DrawsFit(draws[m], chromosomeLen)
      modifies set c | c in pop
      ensures bred == Breed(old(Contents(pop)), Ids(pop), roulette.upperbounds, draws,
                            Matings(populationSize), crossoverRate, mutationRate, chromosomeLen)
      ensures BredAs(pop, Contents(pop), newPopulation, bred)
    {
      ghost var store0 := Contents(pop);
      bred := Bred(store0, []);
      var matings := 0;
      newPopulation := [];
      while |newPopulation| < populationSize
        invariant matings <= Matings(populationSize) && |newPopulation| == 2 * matings
        invariant bred == Breed(store0, Ids(pop), roulette.upperbounds, draws, matings,
                                crossoverRate, mutationRate, chromosomeLen)
        invariant BredAs(pop, Contents(pop), newPopulation, bred)
        decreases populationSize - |newPopulation|
      {
        MatingsRemain(matings, populationSize);
        newPopulation, bred := BreedStep(pop, roulette, draws, matings, store0, bred, newPopulation);
        matings := matings + 1;
      }
      MatingsRoundUp(populationSize);
      assert matings == Matings(populationSize);
      assert bred == Breed(store0, Ids(pop), roulette.upperbounds, draws, Matings(populationSize),
                           crossoverRate, mutationRate, chromosomeLen);
      assert store0 == old(Contents(pop));
    }

    /**
     * Builds the wheel from the current scores and breeds the next
     * population from it. A non-empty list of scores with a zero total is the
     * wheel's division by zero: nothing is bred.
     */
    method RegeneratePopulation(draws: seq<MatingDraws>) returns (outcome: Outcome, newPopulation: seq<array<bool>>)
      requires Valid() && |fitnessScores| == |population|
      requires Matings(populationSize) <= |draws|
      requires forall m :: 0 <= m < |draws| ==> DrawsFit(draws[m], chromosomeLen)
      modifies set c | c in population
      ensures outcome == (if DividesByZero(fitnessScores) then ZeroDivisionError else Completed)
      ensures outcome == ZeroDivisionError ==>
                newPopulation == [] && Contents(population) == old(Contents(population))
      ensures outcome == Completed ==>
                BredAs(population, Contents(population), newPopulation,
                       Breed(old(Contents(population)), Ids(population), CumulativeBounds(fitnessScores), draws,
                             Matings(populationSize), crossoverRate, mutationRate, chromosomeLen))
      ensures outcome == Completed ==> |newPopulation| == 2 * Matings(populationSize)
      ensures forall c :: c in newPopulation ==> c in population
      ensures outcome == Completed ==>
                Sized(newPopulation, chromosomeLen) && (|newPopulation| == 0 ==> populationSize == 0)
    {
      if DividesByZero(fitnessScores) {
        // raised by the wheel's constructor, before any mating
        return ZeroDivisionError, [];
      }
      outcome := Completed;
      var roulette := new RouletteWheel(fitnessScores);
      assert old(Contents(population)) == Contents(population);
      ghost var bred;
      newPopulation, bred := BreedWith(population, roulette, draws);
    }

    /**
     * One generation: fresh scores for the current population, then the bred
     * population replaces it. When the wheel divides by zero the scores are
     * already replaced and the population is left as it was.
     */
    method Generation(draws: seq<MatingDraws>) returns (outcome: Outcome, newPopulation: seq<array<bool>>)
      requires Valid()
      requires Matings(populationSize) <= |draws|
      requires forall m :: 0 <= m < |draws| ==> DrawsFit(draws[m], chromosomeLen)
      modifies this`fitnessScores, this`population, set c | c in population
      ensures Valid()
      ensures |fitnessScores| == |old(population)|
      ensures forall j :: 0 <= j < |old(population)| ==> fitnessScores[j] == fitness(old(population[j][..]))
      ensures outcome == (if DividesByZero(fitnessScores) then ZeroDivisionError else Completed)
      ensures outcome == ZeroDivisionError ==>
                population == old(population) && Contents(population) == old(Contents(population))
      ensures outcome == Completed ==>
                population == newPopulation && |population| == 2 * Matings(populationSize) &&
                BredAs(old(population), Contents(old(population)), population,
                       Breed(old(Contents(population)), Ids(old(population)), CumulativeBounds(fitnessScores), draws,
                             Matings(populationSize), crossoverRate, mutationRate, chromosomeLen))
      ensures forall c :: c in population ==> c in old(population)
    {
      ghost var pop0 := population;
      AssignFitnessScores();
      outcome, newPopulation := RegeneratePopulation(draws);
      label mid:
      if outcome == Completed {
        population := newPopulation;
        assert Contents(pop0) == old@mid(Contents(pop0));
      }
    }

    /**
     * Runs generations until the scores show a solution. The search is
     * unbounded in the original; here it is cut off after the generations
     * whose draws are given, and a division by zero ends it early.
     *
     * The ghost `log` holds the scores each test of the loop read, starting
     * with the scores on entry; every test that was followed by a generation
     * found no solution.
     */
    method FindSol(generations: seq<seq<MatingDraws>>) returns (outcome: Outcome, ran: nat, ghost log: seq<seq<real>>)
      requires Valid()
      requires forall g :: 0 <= g < |generations| ==>
                 Matings(populationSize) <= |generations[g]| &&
                 forall m :: 0 <= m < |generations[g]| ==> DrawsFit(generations[g][m], chromosomeLen)
      modifies this`fitnessScores, this`population, set c | c in population
      ensures Valid() && ran <= |generations|
      ensures outcome == Completed ==> SolFound() || ran == |generations|
      ensures outcome == ZeroDivisionError ==> ran < |generations| && DividesByZero(fitnessScores)
      ensures forall c :: c in population ==> c in old(population)
      ensures |log| == ran + 1 && log[0] == old(fitnessScores)
      ensures forall g :: 0 <= g < ran ==> !Solved(log[g], epsilon)
      ensures outcome == Completed ==> log[ran] == fitnessScores
      ensures outcome == ZeroDivisionError ==> !Solved(log[ran], epsilon)
      ensures old(SolFound()) ==> ran == 0 && outcome == Completed && fitnessScores == old(fitnessScores)
    {
      outcome, ran, log := Completed, 0, [fitnessScores];
      while !SolFound() && ran < |generations|
        invariant outcome == Completed && Valid() && ran <= |generations|
        invariant forall c :: c in population ==> c in old(population)
        invariant |log| == ran + 1 && log[0] == old(fitnessScores) && log[ran] == fitnessScores
        invariant forall g :: 0 <= g < ran ==> !Solved(log[g], epsilon)
        decreases |generations| - ran
      {
        ghost var tested := log;
        var next;
        outcome, next := Generation(generations[ran]);
        if outcome == ZeroDivisionError { return; }
        UnsolvedLogGrows(tested, fitnessScores, epsilon);
        ran, log := ran + 1, tested + [fitnessScores];
      }
    }
  }
}
