/**
 * The behaviour shared by every animal (AnimalAI): stats taken from the
 * genes, satiation decay, the base state-selection rule, the wander
 * sub-machine with its wait timer, fleeing, and dying.
 *
 * The NavMeshAgent is an external collaborator: its path status is read as
 * NavStatus and the agent's requests to it are returned as NavCommands.
 * NavMesh.SamplePosition is an oracle parameter, and every Random draw is a
 * field of Senses.
 */
module AnimalAI {
  import opened Wrappers
  import opened Geometry
  import opened Worlds
  import opened Targeting
  import Genetics

  datatype AnimalState = Wandering | LookingForFood | Feeding | Cowering

  /** Inspector settings of an animal. */
  datatype Settings = Settings(
    satiationRegression: real,
    satiationWarningLevel: real,
    minWanderWaitTime: real,
    maxWanderWaitTime: real)

  /** Serialized defaults of the wander wait window, in seconds. */
  const DefaultMinWanderWaitTime: real := 1.0
  const DefaultMaxWanderWaitTime: real := 3.0

  /** How far ahead of the threat a fleeing animal aims. */
  const FleeDistance: real := 10.0

  /** The values Init copies out of the genes. */
  datatype Stats = Stats(
    speed: real,
    visionRange: real,
    maxSatiation: real,
    eatDistance: real,
    satiationFromFood: real)

  /**
   * One animal. `target` is the `_targetFood` component reference and
   * `predator` the bunny's `_predator`; both name entities that may since
   * have been destroyed.
   */
  datatype Animal = Animal(
    id: EntityId,
    species: Species,
    settings: Settings,
    stats: Stats,
    pos: Vec3,
    satiation: real,
    state: AnimalState,
    target: Option<EntityId>,
    wanderWaitTimer: real,
    waitingAtDestination: bool,
    predator: Option<EntityId>)

  /** What the NavMeshAgent reports about its current path. */
  datatype NavStatus = NavStatus(
    pathPending: bool,
    hasPath: bool,
    remainingDistance: real,
    stoppingDistance: real)

  /** Requests the animal makes of its NavMeshAgent. */
  datatype NavCommand = SetDestination(point: Vec3) | ResetPath

  /**
   * NavMesh.SamplePosition(point, maxDistance): the nearest navigable point
   * within maxDistance, or None when there is none.
   */
  type Sampler = (Vec3, real) -> Option<Vec3>

  /** Everything an animal reads from the engine during one frame. */
  datatype Senses = Senses(
    dt: real,                     // Time.deltaTime
    nav: NavStatus,               // the NavMeshAgent's path state
    predatorScan: seq<Candidate>, // Physics.OverlapSphere(position, VisionRange, predatorLayer)
    foodScan: seq<Candidate>,     // Physics.OverlapSphere(position, VisionRange, foodLayer)
    insideUnitSphere: Vec3,       // Random.insideUnitSphere
    waitDraw: real,               // Random.Range(minWanderWaitTime, maxWanderWaitTime)
    awayFromThreat: Vec3)         // (position - threat.position).normalized

  /** The documented ranges of the random draws. */
  predicate DrawsInRange(a: Animal, s: Senses) {
    && SqrMagnitude(s.insideUnitSphere) <= 1.0
    && a.settings.minWanderWaitTime <= s.waitDraw <= a.settings.maxWanderWaitTime
  }

  function StatsFromGenes(g: Genetics.Genes): Stats {
    Stats(g.movementSpeed, g.visionRange, g.maxSatiation, g.eatDistance, g.satiationFromFood)
  }

  /**
   * AnimalAI.Init: copy the stats out of the genes, start full, wandering,
   * with no target, not waiting and a zero timer.
   */
  function Init(id: EntityId, species: Species, settings: Settings, genes: Genetics.Genes, pos: Vec3): (a: Animal)
    ensures a.satiation == a.stats.maxSatiation == genes.maxSatiation
    ensures a.stats.speed == genes.movementSpeed && a.stats.visionRange == genes.visionRange
    ensures a.stats.eatDistance == genes.eatDistance && a.stats.satiationFromFood == genes.satiationFromFood
    ensures a.state == Wandering && a.target.None? && !a.waitingAtDestination && a.wanderWaitTimer == 0.0
    ensures WaitInvariant(a)
  {
    Animal(id, species, settings, StatsFromGenes(genes), pos,
           genes.maxSatiation, Wandering, None, 0.0, false, None)
  }

  /** The start of Update: satiation drops by regression × dt, with no clamp at zero. */
  function DecaySatiation(a: Animal, dt: real): (r: Animal)
    ensures r.satiation + a.settings.satiationRegression * dt == a.satiation
    ensures r == a.(satiation := r.satiation)
  {
    a.(satiation := a.satiation - a.settings.satiationRegression * dt)
  }

  /** A satiation at or below the warning level makes the animal hungry. */
  predicate Hungry(a: Animal) {
    a.satiation <= a.settings.satiationWarningLevel
  }

  /** Feeding is kept while the food reference is still live. */
  predicate CommittedToFeeding(a: Animal, w: World) {
    a.state == Feeding && Live(w, a.target)
  }

  /**
   * AnimalAI.SetState: keep Feeding while the target lives; otherwise
   * LookingForFood when hungry, else Wandering. Only the state changes.
   */
  function SetState(a: Animal, w: World): (r: Animal)
    ensures r == a.(state := r.state)
    ensures r.state == Feeding <==> CommittedToFeeding(a, w)
    ensures r.state == LookingForFood <==> !CommittedToFeeding(a, w) && Hungry(a)
    ensures r.state == Wandering <==> !CommittedToFeeding(a, w) && !Hungry(a)
  {
    if CommittedToFeeding(a, w) then a
    else if Hungry(a) then a.(state := LookingForFood)
    else a.(state := Wandering)
  }

  /** The NavMeshAgent has reached the end of its path. */
  predicate Arrived(nav: NavStatus) {
    !nav.pathPending && nav.hasPath && nav.remainingDistance <= nav.stoppingDistance
  }

  /** The point FindNewWanderDestination asks the navmesh about: a random point within vision range. */
  function WanderQuery(a: Animal, s: Senses): Vec3 {
    Add(Scale(s.insideUnitSphere, a.stats.visionRange), a.pos)
  }

  /**
   * AnimalAI.FindNewWanderDestination: set the destination to the navmesh
   * point the sampler finds near the query, or request nothing when it
   * finds none.
   */
  function FindNewWanderDestination(a: Animal, s: Senses, sample: Sampler): (cmds: seq<NavCommand>)
    ensures cmds == [] <==> sample(WanderQuery(a, s), a.stats.visionRange).None?
    ensures cmds != [] ==> cmds == [SetDestination(sample(WanderQuery(a, s), a.stats.visionRange).value)]
  {
    match sample(WanderQuery(a, s), a.stats.visionRange)
    case Some(hit) => [SetDestination(hit)]
    case None => []
  }

  /** Only the wander bookkeeping differs between the two animals. */
  predicate SameExceptWander(a: Animal, r: Animal) {
    r == a.(wanderWaitTimer := r.wanderWaitTimer, waitingAtDestination := r.waitingAtDestination)
  }

  /**
   * AnimalAI.Wander(isHungry). While waiting, the timer counts down by dt
   * and on reaching zero the wait ends with a new destination. On arrival a
   * hungry animal heads straight on; a content one stops, starts waiting and
   * draws a wait time. With no path at all, a new destination is requested.
   */
  function Wander(a: Animal, hungry: bool, s: Senses, sample: Sampler): (r: (Animal, seq<NavCommand>))
    ensures SameExceptWander(a, r.0)
    ensures a.waitingAtDestination ==>
      && r.0.wanderWaitTimer == a.wanderWaitTimer - s.dt
      && (r.0.waitingAtDestination <==> r.0.wanderWaitTimer > 0.0)
      && r.1 == (if r.0.waitingAtDestination then [] else FindNewWanderDestination(a, s, sample))
    ensures !a.waitingAtDestination && Arrived(s.nav) && hungry ==>
      r.0 == a && r.1 == FindNewWanderDestination(a, s, sample)
    ensures !a.waitingAtDestination && Arrived(s.nav) && !hungry ==>
      r.0.waitingAtDestination && r.0.wanderWaitTimer == s.waitDraw && r.1 == [ResetPath]
    ensures !a.waitingAtDestination && !Arrived(s.nav) ==>
      r.0 == a && r.1 == (if s.nav.hasPath then [] else FindNewWanderDestination(a, s, sample))
  {
    if a.waitingAtDestination then
      var timer := a.wanderWaitTimer - s.dt;
      if timer <= 0.0 then
        (a.(wanderWaitTimer := timer, waitingAtDestination := false), FindNewWanderDestination(a, s, sample))
      else
        (a.(wanderWaitTimer := timer), [])
    else if Arrived(s.nav) then
      if hungry then (a, FindNewWanderDestination(a, s, sample))
      else (a.(waitingAtDestination := true, wanderWaitTimer := s.waitDraw), [ResetPath])
    else if !s.nav.hasPath then
      (a, FindNewWanderDestination(a, s, sample))
    else
      (a, [])
  }

  /** The point Flee asks the navmesh about: FleeDistance straight away from the threat. */
  function FleeQuery(a: Animal, s: Senses): Vec3 {
    Add(a.pos, Scale(s.awayFromThreat, FleeDistance))
  }

  /**
   * AnimalAI.Flee(threat): nothing for a null threat; otherwise at most one
   * request, to the navmesh point the sampler finds near FleeQuery within
   * vision range.
   */
  function Flee(a: Animal, threat: Option<EntityId>, s: Senses, sample: Sampler): (cmds: seq<NavCommand>)
    ensures |cmds| <= 1
    ensures |cmds| == 1 <==> threat.Some? && sample(FleeQuery(a, s), a.stats.visionRange).Some?
    ensures forall i :: 0 <= i < |cmds| ==>
              cmds[i].SetDestination? && sample(FleeQuery(a, s), a.stats.visionRange) == Some(cmds[i].point)
  {
    if threat.None? then []
    else
      match sample(FleeQuery(a, s), a.stats.visionRange)
      case Some(hit) => [SetDestination(hit)]
      case None => []
  }

  /** With a unit direction, the flee query lies exactly FleeDistance from the animal. */
  lemma FleeQueryAtFleeDistance(a: Animal, s: Senses)
    requires SqrMagnitude(s.awayFromThreat) == 1.0
    ensures SqrDist(FleeQuery(a, s), a.pos) == FleeDistance * FleeDistance
  {
    assert Sub(FleeQuery(a, s), a.pos) == Scale(s.awayFromThreat, FleeDistance);
    SqrMagnitudeScale(s.awayFromThreat, FleeDistance);
  }

  /**
   * When the direction points from the threat to the animal (a positive
   * multiple of position - threat.position, as the normalised vector is),
   * the flee query is farther from the threat than the animal is.
   */
  lemma FleeQueryMovesAway(a: Animal, s: Senses, threatPos: Vec3, k: real)
    requires k > 0.0 && SqrDist(a.pos, threatPos) > 0.0
    requires s.awayFromThreat == Scale(Sub(a.pos, threatPos), k)
    ensures SqrDist(FleeQuery(a, s), threatPos) > SqrDist(a.pos, threatPos)
  {
    var c := 1.0 + FleeDistance * k;
    StepAway(a.pos, threatPos, k, FleeDistance);
    SqrMagnitudeScale(Sub(a.pos, threatPos), c);
    ScaledSquareGrows(c, SqrDist(a.pos, threatPos));
  }

  lemma ScaledSquareGrows(c: real, m: real)
    requires c > 1.0 && m > 0.0
    ensures c * c * m > m
  {
    var cc := c * c;
    assert cc > 1.0 by { assert c * c > 1.0 * c; }
    var ccm := cc * m;
    assert ccm - m == (cc - 1.0) * m;
    assert (cc - 1.0) * m > 0.0;
  }

  /** AnimalAI.Die: the animal is destroyed; nothing else in the world changes. */
  function Die(w: World, animal: EntityId): (r: World)
    ensures animal !in r && OnlyRemoved(w, r) && r.Keys == w.Keys - {animal}
  {
    Destroy(w, animal)
  }

  /**
   * The species hook LookForFood shares: pick the closest food the query
   * accepts. Found: Feeding, target set, and the destination is the food's
   * position. Not found: the target reference is cleared and the animal
   * wanders hungrily.
   */
  function SeekFood(a: Animal, food: Query, s: Senses, sample: Sampler): (r: (Animal, seq<NavCommand>))
    ensures var found := FindClosestTarget(a.id, a.pos, food, s.foodScan);
      && (found.Some? ==>
            r.0 == a.(state := Feeding, target := Some(found.value.id))
            && r.1 == [SetDestination(found.value.pos)])
      && (found.None? ==>
            r == Wander(a.(target := None), true, s, sample))
  {
    var found := FindClosestTarget(a.id, a.pos, food, s.foodScan);
    if found.Some? then
      (a.(state := Feeding, target := Some(found.value.id)), [SetDestination(found.value.pos)])
    else
      Wander(a.(target := None), true, s, sample)
  }

  /** The state the timer keeps: an animal waiting at a destination has time left to wait. */
  predicate WaitInvariant(a: Animal) {
    a.waitingAtDestination ==> a.wanderWaitTimer > 0.0
  }

  // ----- Properties -----

  /** An animal that starts full (max satiation above the warning level) first chooses to wander. */
  lemma FreshAnimalWanders(id: EntityId, species: Species, settings: Settings, genes: Genetics.Genes, pos: Vec3, w: World)
    requires genes.maxSatiation > settings.satiationWarningLevel
    ensures SetState(Init(id, species, settings, genes, pos), w).state == Wandering
  {
  }

  /** Satiation never rises by decay (for a non-negative rate and dt) and may fall below zero. */
  lemma DecayIsMonotoneAndUnclamped(a: Animal, dt: real)
    requires a.settings.satiationRegression >= 0.0 && dt >= 0.0
    ensures DecaySatiation(a, dt).satiation <= a.satiation
    ensures a.satiation < a.settings.satiationRegression * dt ==> DecaySatiation(a, dt).satiation < 0.0
  {
    var k := a.settings.satiationRegression * dt;
    assert k >= 0.0;
  }

  /** SetState is idempotent: a second evaluation in the same world changes nothing. */
  lemma SetStateIdempotent(a: Animal, w: World)
    ensures SetState(SetState(a, w), w) == SetState(a, w)
  {
  }

  /** Feeding is sticky: with a live target the state survives any satiation. */
  lemma FeedingIsSticky(a: Animal, w: World, satiation: real)
    requires CommittedToFeeding(a, w)
    ensures SetState(a.(satiation := satiation), w).state == Feeding
  {
  }

  /** Wander never touches state, satiation, target or predator. */
  lemma WanderKeepsCoreState(a: Animal, hungry: bool, s: Senses, sample: Sampler)
    ensures var r := Wander(a, hungry, s, sample).0;
      r.state == a.state && r.satiation == a.satiation && r.target == a.target && r.predator == a.predator
  {
  }

  /** The wander query lies within vision range of the animal. */
  lemma WanderQueryWithinVision(a: Animal, s: Senses)
    requires DrawsInRange(a, s)
    ensures SqrDist(WanderQuery(a, s), a.pos) <= a.stats.visionRange * a.stats.visionRange
  {
    ScaledUnitBallWithin(s.insideUnitSphere, a.stats.visionRange);
    assert Sub(WanderQuery(a, s), a.pos) == Scale(s.insideUnitSphere, a.stats.visionRange);
  }

  /** A wait, once started, lasts a drawn time within [min, max] wait time. */
  lemma WaitDrawnFromWindow(a: Animal, s: Senses, sample: Sampler)
    requires DrawsInRange(a, s)
    requires !a.waitingAtDestination && Arrived(s.nav)
    ensures var r := Wander(a, false, s, sample).0;
      r.waitingAtDestination
      && a.settings.minWanderWaitTime <= r.wanderWaitTimer <= a.settings.maxWanderWaitTime
  {
  }

  /**
   * Wander keeps "waiting implies time left" when the wait window starts
   * above zero, and every destination it requests comes from the sampler.
   */
  lemma WanderPreservesWaitInvariant(a: Animal, hungry: bool, s: Senses, sample: Sampler)
    requires WaitInvariant(a)
    requires DrawsInRange(a, s) && a.settings.minWanderWaitTime > 0.0
    ensures WaitInvariant(Wander(a, hungry, s, sample).0)
    ensures forall c :: c in Wander(a, hungry, s, sample).1 && c.SetDestination? ==>
      Some(c.point) == sample(WanderQuery(a, s), a.stats.visionRange)
  {
  }
}
