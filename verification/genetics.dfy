/**
 * Heritable traits of an animal (Genes), the crossover-with-mutation rule
 * that derives an offspring bundle from two parents (GeneticsUtility), and
 * the per-animal carrier of the active bundle (GeneticTraits).
 *
 * Every Random draw the game makes is an explicit input, so crossover and
 * mutation are deterministic functions here.
 */
module Genetics {

  /** The five traits. Unity floats are modelled as reals. */
  datatype Genes = Genes(
    movementSpeed: real,
    visionRange: real,
    maxSatiation: real,
    eatDistance: real,
    satiationFromFood: real)

  predicate InRange(v: real, lo: real, hi: real) {
    lo <= v <= hi
  }

  /**
   * The inspector ranges declared on each trait. They are editor hints
   * only: nothing in the game enforces them.
   */
  predicate WithinDeclaredRanges(g: Genes) {
    && InRange(g.movementSpeed, 1.0, 10.0)
    && InRange(g.visionRange, 5.0, 25.0)
    && InRange(g.maxSatiation, 50.0, 200.0)
    && InRange(g.eatDistance, 1.0, 5.0)
    && InRange(g.satiationFromFood, 5.0, 50.0)
  }

  /**
   * The three draws one inherited trait consumes: the parent coin
   * (Random.value), the mutation roll (Random.value) and the mutation delta
   * (Random.Range(-amount, amount), only used when the trait mutates).
   */
  datatype TraitDraws = TraitDraws(coin: real, roll: real, delta: real)

  /** The documented ranges of the draws: Random.value is in [0, 1]. */
  predicate DrawsInRange(d: TraitDraws, amount: real) {
    && 0.0 <= d.coin <= 1.0
    && 0.0 <= d.roll <= 1.0
    && -amount <= d.delta <= amount
  }

  /** One set of draws per trait that Combine assigns, each consumed independently. */
  datatype CombineDraws = CombineDraws(speed: TraitDraws, vision: TraitDraws, satiation: TraitDraws)

  predicate CombineDrawsInRange(d: CombineDraws, amount: real) {
    DrawsInRange(d.speed, amount) && DrawsInRange(d.vision, amount) && DrawsInRange(d.satiation, amount)
  }

  /** The value picked from the parents before any mutation. */
  function Pick(a: real, b: real, d: TraitDraws): real {
    if d.coin < 0.5 then a else b
  }

  /** Whether the mutation roll succeeds: Random.value < chance. */
  predicate Mutates(d: TraitDraws, chance: real) {
    d.roll < chance
  }

  /**
   * GeneticsUtility.InheritTrait: take parent A's value on a coin below 0.5,
   * else parent B's, then scale it by (1 + delta) when the roll is below the
   * mutation chance.
   */
  function InheritTrait(a: real, b: real, chance: real, amount: real, d: TraitDraws): (r: real)
    ensures !Mutates(d, chance) ==> (r == a || r == b)
    ensures Mutates(d, chance) ==> r == Pick(a, b, d) * (1.0 + d.delta)
  {
    var inherited := Pick(a, b, d);
    if Mutates(d, chance) then inherited * (1.0 + d.delta) else inherited
  }

  /**
   * GeneticsUtility.Combine. Only movementSpeed, visionRange and
   * maxSatiation are assigned; eatDistance and satiationFromFood keep the
   * C# default of 0.
   */
  function Combine(parentA: Genes, parentB: Genes, chance: real, amount: real, draws: CombineDraws): (child: Genes)
    ensures child.eatDistance == 0.0 && child.satiationFromFood == 0.0
  {
    Genes(
      InheritTrait(parentA.movementSpeed, parentB.movementSpeed, chance, amount, draws.speed),
      InheritTrait(parentA.visionRange, parentB.visionRange, chance, amount, draws.vision),
      InheritTrait(parentA.maxSatiation, parentB.maxSatiation, chance, amount, draws.satiation),
      0.0,
      0.0)
  }

  /** Serialized defaults of GeneticTraits. */
  const DefaultMutationChance: real := 0.05
  const DefaultMutationAmount: real := 0.1

  /** GeneticTraits: the active bundle plus the carrier's own mutation settings. */
  datatype GeneticTraits = GeneticTraits(genes: Genes, mutationChance: real, mutationAmount: real)

  /** The inspector ranges of the mutation settings: chance in [0, 1], amount in [0, 0.5]. */
  predicate SettingsWithinDeclaredRanges(t: GeneticTraits) {
    InRange(t.mutationChance, 0.0, 1.0) && InRange(t.mutationAmount, 0.0, 0.5)
  }

  /** A carrier as a prefab creates it: the given bundle and the default mutation settings. */
  function NewGeneticTraits(genes: Genes): (t: GeneticTraits)
    ensures SettingsWithinDeclaredRanges(t)
    ensures CurrentGenes(t) == genes
  {
    GeneticTraits(genes, DefaultMutationChance, DefaultMutationAmount)
  }

  /** GeneticTraits.CurrentGenes */
  function CurrentGenes(t: GeneticTraits): Genes {
    t.genes
  }

  /**
   * GeneticTraits.InheritGenes: the whole bundle is replaced by the
   * combination of the parents' bundles, mutated with the inheriting
   * carrier's own settings.
   */
  function InheritGenes(self: GeneticTraits, parentA: GeneticTraits, parentB: GeneticTraits, draws: CombineDraws): (r: GeneticTraits)
    ensures r.mutationChance == self.mutationChance && r.mutationAmount == self.mutationAmount
    ensures CurrentGenes(r) == Combine(CurrentGenes(parentA), CurrentGenes(parentB), self.mutationChance, self.mutationAmount, draws)
  {
    self.(genes := Combine(parentA.genes, parentB.genes, self.mutationChance, self.mutationAmount, draws))
  }

  // ----- Properties -----

  /** The coin alone decides the parent: below 0.5 parent A, otherwise parent B. */
  lemma CoinSelectsParent(a: real, b: real, chance: real, amount: real, d: TraitDraws)
    requires !Mutates(d, chance)
    ensures d.coin < 0.5 ==> InheritTrait(a, b, chance, amount, d) == a
    ensures d.coin >= 0.5 ==> InheritTrait(a, b, chance, amount, d) == b
  {
  }

  /** With chance 0 no roll in [0, 1] mutates, so every trait is exactly one parent's. */
  lemma ZeroChanceNeverMutates(a: real, b: real, amount: real, d: TraitDraws)
    requires DrawsInRange(d, amount)
    ensures !Mutates(d, 0.0)
    ensures InheritTrait(a, b, 0.0, amount, d) == Pick(a, b, d)
  {
  }

  /**
   * A mutated non-negative value v lies in [v(1 - amount), v(1 + amount)];
   * unmutated it is v itself.
   */
  lemma MutationWithinAmount(a: real, b: real, chance: real, amount: real, d: TraitDraws)
    requires DrawsInRange(d, amount)
    requires Pick(a, b, d) >= 0.0
    ensures var v := Pick(a, b, d);
      var r := InheritTrait(a, b, chance, amount, d);
      v * (1.0 - amount) <= r <= v * (1.0 + amount)
  {
    var v := Pick(a, b, d);
    if Mutates(d, chance) {
      var lo, hi, r := v * (1.0 - amount), v * (1.0 + amount), v * (1.0 + d.delta);
      assert r - lo == v * (d.delta + amount);
      assert hi - r == v * (amount - d.delta);
      ProductNonNegative(v, d.delta + amount);
      ProductNonNegative(v, amount - d.delta);
    } else {
      var lo, hi := v * (1.0 - amount), v * (1.0 + amount);
      assert v - lo == v * amount;
      assert hi - v == v * amount;
      ProductNonNegative(v, amount);
    }
  }

  lemma ProductNonNegative(x: real, y: real)
    requires x >= 0.0 && y >= 0.0
    ensures x * y >= 0.0
  {
  }

  /**
   * With the declared mutation settings the factor 1 + delta is at least 0.5,
   * so a positive trait stays positive (at least half its parent's value).
   */
  lemma DeclaredSettingsKeepTraitsPositive(a: real, b: real, t: GeneticTraits, d: TraitDraws)
    requires SettingsWithinDeclaredRanges(t)
    requires DrawsInRange(d, t.mutationAmount)
    requires Pick(a, b, d) > 0.0
    ensures InheritTrait(a, b, t.mutationChance, t.mutationAmount, d) >= Pick(a, b, d) / 2.0 > 0.0
  {
    var v := Pick(a, b, d);
    if Mutates(d, t.mutationChance) {
      var slack := 0.5 + d.delta;
      assert slack >= 0.0;
      var r := v * (1.0 + d.delta);
      assert r - v / 2.0 == v * slack;
      assert v * slack >= 0.0;
    }
  }

  /** Identical parents and chance 0: the three assigned traits are the parent's own. */
  lemma IdenticalParentsWithoutMutation(p: Genes, amount: real, draws: CombineDraws)
    requires CombineDrawsInRange(draws, amount)
    ensures var child := Combine(p, p, 0.0, amount, draws);
      && child.movementSpeed == p.movementSpeed
      && child.visionRange == p.visionRange
      && child.maxSatiation == p.maxSatiation
  {
  }

  /** Each assigned trait reads only its own draws: changing another trait's draws leaves it alone. */
  lemma TraitsUseIndependentDraws(pa: Genes, pb: Genes, chance: real, amount: real, d1: CombineDraws, d2: CombineDraws)
    ensures d1.speed == d2.speed ==>
      Combine(pa, pb, chance, amount, d1).movementSpeed == Combine(pa, pb, chance, amount, d2).movementSpeed
    ensures d1.vision == d2.vision ==>
      Combine(pa, pb, chance, amount, d1).visionRange == Combine(pa, pb, chance, amount, d2).visionRange
    ensures d1.satiation == d2.satiation ==>
      Combine(pa, pb, chance, amount, d1).maxSatiation == Combine(pa, pb, chance, amount, d2).maxSatiation
  {
  }

  /** Since eatDistance is left at 0, no offspring of Combine lies within the declared ranges. */
  lemma OffspringOutsideDeclaredRanges(pa: Genes, pb: Genes, chance: real, amount: real, draws: CombineDraws)
    ensures !WithinDeclaredRanges(Combine(pa, pb, chance, amount, draws))
  {
  }

  /** Inheritance depends on the parents' bundles only, never on their mutation settings. */
  lemma InheritIgnoresParentSettings(self: GeneticTraits, pa: GeneticTraits, pb: GeneticTraits,
                                     pa': GeneticTraits, pb': GeneticTraits, draws: CombineDraws)
    requires pa.genes == pa'.genes && pb.genes == pb'.genes
    ensures InheritGenes(self, pa, pb, draws) == InheritGenes(self, pa', pb', draws)
  {
  }
}
