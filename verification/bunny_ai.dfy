/**
 * BunnyAI: an animal that eats ripe carrots and cowers, pre-empting every
 * other state, whenever an animal is in sight on its predator layer.
 */
module BunnyAI {
  import opened Wrappers
  import opened Geometry
  import opened Worlds
  import opened Targeting
  import opened AnimalAI
  import Plants

  /** TryGetComponent<AnimalAI>: any animal. */
  function IsAnimal(k: Kind): bool {
    k.AnimalKind?
  }

  /** TryGetComponent<Carrot> */
  function IsCarrot(k: Kind): bool {
    k.CarrotKind?
  }

  /** The bunny's food predicate: the carrot is ready for harvest. */
  function IsReadyForHarvest(k: Kind): bool {
    k.CarrotKind? && k.plant == ReadyForHarvest
  }

  /** FindClosestTarget<AnimalAI>(predatorLayer): no predicate. */
  const PredatorQuery: Query := Query(IsAnimal, None)

  /** FindClosestTarget<Carrot>(foodLayer, carrot is ReadyForHarvest). */
  const FoodQuery: Query := Query(IsCarrot, Some(IsReadyForHarvest))

  /** The rule SetState falls back to when no predator is seen: Cowering reads as Wandering. */
  function CalmedDown(a: Animal): Animal {
    if a.state == Cowering then a.(state := Wandering) else a
  }

  /**
   * BunnyAI.SetState: look for the closest predator and remember it. If
   * there is one, cower whatever the satiation or feeding commitment, and
   * keep the food target. Otherwise fall back to the base rule.
   */
  function SetState(a: Animal, w: World, predatorScan: seq<Candidate>): (r: Animal)
    ensures var seen := FindClosestTarget(a.id, a.pos, PredatorQuery, predatorScan);
      && (seen.Some? ==> r.predator == Some(seen.value.id))
      && (seen.None? ==> r.predator.None?)
    ensures r.state == Cowering <==> r.predator.Some?
    ensures r.predator.Some? ==> r == a.(state := Cowering, predator := r.predator)
    ensures r.predator.None? ==>
      r == a.(predator := None, state := AnimalAI.SetState(CalmedDown(a), w).state)
  {
    var seen := FindClosestTarget(a.id, a.pos, PredatorQuery, predatorScan);
    if seen.Some? then
      a.(predator := Some(seen.value.id), state := Cowering)
    else
      AnimalAI.SetState(CalmedDown(a.(predator := None)), w)
  }

  /**
   * BunnyAI.LookForFood: head for the closest ripe carrot and commit to
   * feeding on it, or wander hungrily when there is none.
   */
  function LookForFood(a: Animal, s: Senses, sample: Sampler): (r: (Animal, seq<NavCommand>))
    ensures r.0.state == Feeding || r.0.state == a.state
    ensures r.0.target.Some? ==>
      exists c :: c in s.foodScan && c.id == r.0.target.value && c.id != a.id
                  && c.kind == CarrotKind(ReadyForHarvest)
    ensures r.0.state == Feeding && a.state != Feeding ==> r.0.target.Some?
    ensures r.0.satiation == a.satiation && r.0.predator == a.predator
  {
    SeekFood(a, FoodQuery, s, sample)
  }

  /** The food reference is live and strictly closer than the eat distance. */
  predicate InReach(a: Animal, w: World) {
    Live(w, a.target) && CloserThan(a.pos, w[a.target.value].pos, a.stats.eatDistance)
  }

  /**
   * BunnyAI.Feed: with the carrot live and within eat distance, harvest it,
   * gain exactly SatiationFromFood (no cap at MaxSatiation) and drop the
   * reference; otherwise nothing changes.
   */
  function Feed(a: Animal, w: World): (r: (Animal, World))
    ensures InReach(a, w) ==>
      && r.0 == a.(satiation := a.satiation + a.stats.satiationFromFood, target := None)
      && r.1 == Plants.Harvest(w, a.target.value)
    ensures !InReach(a, w) ==> r == (a, w)
    ensures OnlyRemoved(w, r.1)
  {
    if InReach(a, w) then
      (a.(satiation := a.satiation + a.stats.satiationFromFood, target := None), Plants.Harvest(w, a.target.value))
    else
      (a, w)
  }

  /** A predator in sight overrides a live feeding commitment and keeps the food target. */
  lemma PredatorPreemptsFeeding(a: Animal, w: World, predatorScan: seq<Candidate>)
    requires CommittedToFeeding(a, w)
    requires FindClosestTarget(a.id, a.pos, PredatorQuery, predatorScan).Some?
    ensures SetState(a, w, predatorScan).state == Cowering
    ensures SetState(a, w, predatorScan).target == a.target
  {
  }

  /** Satiation after feeding may exceed MaxSatiation: nothing caps it. */
  lemma FeedingIsUncapped(a: Animal, w: World)
    requires InReach(a, w)
    requires a.satiation == a.stats.maxSatiation && a.stats.satiationFromFood > 0.0
    ensures Feed(a, w).0.satiation > a.stats.maxSatiation
  {
  }
}
