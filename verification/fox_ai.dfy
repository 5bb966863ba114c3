/** FoxAI: an animal that hunts bunnies. It has no predator check, so it never cowers. */
module FoxAI {
  import opened Wrappers
  import opened Geometry
  import opened Worlds
  import opened Targeting
  import opened AnimalAI

  /** TryGetComponent<BunnyAI> */
  function IsBunny(k: Kind): bool {
    k == AnimalKind(Bunny)
  }

  /** FindClosestTarget<BunnyAI>(foodLayer): no predicate. */
  const FoodQuery: Query := Query(IsBunny, None)

  /**
   * FoxAI.LookForFood: chase the closest bunny, setting the destination to
   * where it is now, or wander hungrily when there is none.
   */
  function LookForFood(a: Animal, s: Senses, sample: Sampler): (r: (Animal, seq<NavCommand>))
    ensures r.0.state == Feeding || r.0.state == a.state
    ensures r.0.target.Some? ==>
      exists c :: c in s.foodScan && c.id == r.0.target.value && c.id != a.id && c.kind == AnimalKind(Bunny)
    ensures r.0.state == Feeding && a.state != Feeding ==> r.0.target.Some?
    ensures r.0.satiation == a.satiation && r.0.predator == a.predator
  {
    SeekFood(a, FoodQuery, s, sample)
  }

  /** The prey reference is live and strictly closer than the eat distance. */
  predicate InReach(a: Animal, w: World) {
    Live(w, a.target) && CloserThan(a.pos, w[a.target.value].pos, a.stats.eatDistance)
  }

  /**
   * FoxAI.Feed: with the bunny live and within eat distance, kill it, gain
   * exactly SatiationFromFood and drop the reference; otherwise nothing
   * changes.
   */
  function Feed(a: Animal, w: World): (r: (Animal, World))
    ensures InReach(a, w) ==>
      && r.0 == a.(satiation := a.satiation + a.stats.satiationFromFood, target := None)
      && r.1 == Die(w, a.target.value)
    ensures !InReach(a, w) ==> r == (a, w)
    ensures OnlyRemoved(w, r.1)
  {
    if InReach(a, w) then
      (a.(satiation := a.satiation + a.stats.satiationFromFood, target := None), Die(w, a.target.value))
    else
      (a, w)
  }

  /** A fox whose eat distance is zero or less (as Combine leaves it) can never eat. */
  lemma NonPositiveEatDistanceNeverFeeds(a: Animal, w: World)
    requires a.stats.eatDistance <= 0.0
    ensures Feed(a, w) == (a, w)
  {
  }
}
