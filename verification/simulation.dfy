/**
 * One frame of an animal: AnimalAI.Update (satiation decay, then the
 * species' UpdateStateLogic). The virtual SetState, LookForFood and Feed
 * hooks are resolved by matching on the species.
 */
module Simulation {
  import opened Wrappers
  import opened Geometry
  import opened Worlds
  import opened Targeting
  import opened AnimalAI
  import BunnyAI
  import FoxAI
  import Plants

  /** The animal after the frame, the world after any eating, and the navigation requests made. */
  datatype Outcome = Outcome(animal: Animal, world: World, commands: seq<NavCommand>)

  /** The SetState override in force for the species. */
  function SelectState(a: Animal, w: World, s: Senses): (r: Animal)
    ensures r == a.(state := r.state, predator := r.predator)
    ensures a.species == Fox ==> r.predator == a.predator
  {
    match a.species
    case Bunny => BunnyAI.SetState(a, w, s.predatorScan)
    case Fox => AnimalAI.SetState(a, w)
  }

  function LookForFood(a: Animal, s: Senses, sample: Sampler): (Animal, seq<NavCommand>) {
    match a.species
    case Bunny => BunnyAI.LookForFood(a, s, sample)
    case Fox => FoxAI.LookForFood(a, s, sample)
  }

  /** The species' Feed: nothing happens, or the live target is destroyed and its food value eaten. */
  function Feed(a: Animal, w: World): (r: (Animal, World))
    ensures || r == (a, w)
            || (&& Live(w, a.target)
                && r.0 == a.(satiation := a.satiation + a.stats.satiationFromFood, target := None)
                && r.1 == Destroy(w, a.target.value))
  {
    match a.species
    case Bunny => BunnyAI.Feed(a, w)
    case Fox => FoxAI.Feed(a, w)
  }

  /**
   * The switch of AnimalAI.UpdateStateLogic: Wandering wanders content,
   * LookingForFood searches, Feeding feeds, and Cowering has no base action.
   */
  function Dispatch(a: Animal, w: World, s: Senses, sample: Sampler): (o: Outcome)
    ensures a.state == Cowering ==> o == Outcome(a, w, [])
    ensures a.state != Feeding ==> o.world == w
    ensures a.state != Feeding ==> o.animal.satiation == a.satiation
    ensures o.animal.predator == a.predator
    ensures a.state == Feeding ==> (o.animal, o.world) == Feed(a, w) && o.commands == []
    ensures a.state == Wandering ==> (o.animal, o.commands) == Wander(a, false, s, sample)
    ensures a.state == LookingForFood ==> (o.animal, o.commands) == LookForFood(a, s, sample)
  {
    match a.state
    case Wandering =>
      var (a', cmds) := Wander(a, false, s, sample); Outcome(a', w, cmds)
    case LookingForFood =>
      var (a', cmds) := LookForFood(a, s, sample); Outcome(a', w, cmds)
    case Feeding =>
      var (a', w') := Feed(a, w); Outcome(a', w', [])
    case Cowering =>
      Outcome(a, w, [])
  }

  /**
   * UpdateStateLogic: choose the state, dispatch on it, and for a bunny
   * left Cowering, flee from the remembered predator.
   */
  function UpdateStateLogic(a: Animal, w: World, s: Senses, sample: Sampler): (r: Outcome)
    ensures var d := Dispatch(SelectState(a, w, s), w, s, sample);
      r.animal == d.animal && r.world == d.world
    ensures var d := Dispatch(SelectState(a, w, s), w, s, sample);
      r.commands == d.commands
        + (if a.species == Bunny && d.animal.state == Cowering then Flee(d.animal, d.animal.predator, s, sample) else [])
  {
    var o := Dispatch(SelectState(a, w, s), w, s, sample);
    if a.species == Bunny && o.animal.state == Cowering then
      o.(commands := o.commands + Flee(o.animal, o.animal.predator, s, sample))
    else
      o
  }

  /**
   * AnimalAI.Update: decay satiation first, then run the state logic.
   * Eating can only destroy the animal's own target; nothing is created
   * or changed in the world.
   */
  function Update(a: Animal, w: World, s: Senses, sample: Sampler): (r: Outcome)
    ensures OnlyRemoved(w, r.world)
    ensures r.world == w || (a.target.Some? && r.world == Destroy(w, a.target.value))
  {
    UpdateStateLogic(DecaySatiation(a, s.dt), w, s, sample)
  }

  // ----- Properties -----

  /**
   * Either nothing was eaten and satiation is only decayed, or the live
   * target was destroyed, exactly one food gain was added and the target
   * reference dropped.
   */
  lemma UpdateSatiation(a: Animal, w: World, s: Senses, sample: Sampler)
    ensures var o := Update(a, w, s, sample);
      var decayed := DecaySatiation(a, s.dt).satiation;
      || (o.world == w && o.animal.satiation == decayed)
      || (&& Live(w, a.target)
          && o.world == Destroy(w, a.target.value)
          && o.animal.satiation == decayed + a.stats.satiationFromFood
          && o.animal.target.None?)
  {
    var a0 := DecaySatiation(a, s.dt);
    var a1 := SelectState(a0, w, s);
    assert a1.satiation == a0.satiation && a1.target == a.target && a1.stats == a.stats;
    var d := Dispatch(a1, w, s, sample);
    DispatchSatiation(a1, w, s, sample);
    var o := Update(a, w, s, sample);
    assert o.animal == d.animal && o.world == d.world by {
      assert o == UpdateStateLogic(a0, w, s, sample);
    }
  }

  /** The dispatched action either leaves satiation and world alone or eats the live target. */
  lemma DispatchSatiation(a: Animal, w: World, s: Senses, sample: Sampler)
    ensures var o := Dispatch(a, w, s, sample);
      || (o.world == w && o.animal.satiation == a.satiation)
      || (&& Live(w, a.target)
          && o.world == Destroy(w, a.target.value)
          && o.animal.satiation == a.satiation + a.stats.satiationFromFood
          && o.animal.target.None?)
  {
    if a.state == Feeding {
      var f := Feed(a, w);
    }
  }

  /** A fox never cowers: its states stay among Wandering, LookingForFood and Feeding. */
  lemma FoxNeverCowers(a: Animal, w: World, s: Senses, sample: Sampler)
    requires a.species == Fox && a.state != Cowering
    ensures Update(a, w, s, sample).animal.state != Cowering
  {
  }

  /**
   * A bunny that sees a predator ends the frame Cowering, with its food
   * target untouched, its satiation only decayed, the world unchanged, and
   * its only request the flight from that predator.
   */
  lemma BunnyCowersFromPredator(a: Animal, w: World, s: Senses, sample: Sampler)
    requires a.species == Bunny
    requires FindClosestTarget(a.id, a.pos, BunnyAI.PredatorQuery, s.predatorScan).Some?
    ensures var o := Update(a, w, s, sample);
      && o.animal.state == Cowering
      && o.animal.predator.Some?
      && o.animal.target == a.target
      && o.world == w
      && o.commands == Flee(a, o.animal.predator, s, sample)
  {
  }

  /** A bunny ends a frame Cowering only with a remembered predator; with none it does not cower. */
  lemma CoweringHasPredator(a: Animal, w: World, s: Senses, sample: Sampler)
    requires a.species == Bunny
    ensures var o := Update(a, w, s, sample);
      (o.animal.state == Cowering <==> o.animal.predator.Some?)
      && (o.animal.predator.None? <==>
            FindClosestTarget(a.id, a.pos, BunnyAI.PredatorQuery, s.predatorScan).None?)
  {
  }

  /** The update keeps "waiting implies time left" when the wait window starts above zero. */
  lemma UpdatePreservesWaitInvariant(a: Animal, w: World, s: Senses, sample: Sampler)
    requires WaitInvariant(a)
    requires DrawsInRange(a, s) && a.settings.minWanderWaitTime > 0.0
    ensures WaitInvariant(Update(a, w, s, sample).animal)
  {
    var a1 := SelectState(DecaySatiation(a, s.dt), w, s);
    assert DrawsInRange(a1, s);
    match a1.state
    case Wandering => WanderPreservesWaitInvariant(a1, false, s, sample);
    case LookingForFood => WanderPreservesWaitInvariant(a1.(target := None), true, s, sample);
    case Feeding =>
    case Cowering =>
  }

  /**
   * A hungry bunny with one ripe carrot in sight and within reach, and no
   * predator around, commits to the carrot on the first frame and eats it
   * on the second: the carrot is gone, the gain is added and the target
   * cleared.
   */
  lemma BunnyFindsAndEatsCarrot(a: Animal, w: World, s1: Senses, s2: Senses, sample: Sampler, carrot: EntityId)
    requires a.species == Bunny && a.state != Feeding && a.state != Cowering
    requires s1.predatorScan == [] && s2.predatorScan == []
    requires carrot != a.id && carrot in w && w[carrot].kind == CarrotKind(ReadyForHarvest)
    requires s1.foodScan == [Candidate(carrot, w[carrot].pos, w[carrot].kind)]
    requires SqrDist(a.pos, w[carrot].pos) < FloatMaxValue
    requires CloserThan(a.pos, w[carrot].pos, a.stats.eatDistance)
    requires a.satiation - a.settings.satiationRegression * s1.dt <= a.settings.satiationWarningLevel
    ensures var o1 := Update(a, w, s1, sample);
      && o1.animal.state == Feeding
      && o1.animal.target == Some(carrot)
      && o1.world == w
      && o1.commands == [SetDestination(w[carrot].pos)]
      && var o2 := Update(o1.animal, o1.world, s2, sample);
         && o2.world == Plants.Harvest(w, carrot)
         && o2.animal.satiation == o1.animal.satiation - a.settings.satiationRegression * s2.dt + a.stats.satiationFromFood
         && o2.animal.target.None?
  {
    var q := BunnyAI.FoodQuery;
    var d := SqrDist(a.pos, w[carrot].pos);
    assert Qualifies(a.id, q, s1.foodScan[0]);
    assert ScanFrom(a.id, a.pos, q, s1.foodScan, 1, Some(0), d) == Some(0);
    assert ClosestIndex(a.id, a.pos, q, s1.foodScan) == Some(0);
  }
}
