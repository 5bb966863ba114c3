/**
 * The shared scene the animals live in. A Unity object that has been
 * destroyed compares `== null`; here it is simply absent from the map.
 */
module Worlds {
  import opened Wrappers
  import opened Geometry

  type EntityId = nat

  datatype Species = Bunny | Fox

  /**
   * Harvest state of a plant. Only ReadyForHarvest is named by the carrot
   * code; every other member of the plant-state enumeration is represented
   * by NotReadyForHarvest.
   */
  datatype PlantState = ReadyForHarvest | NotReadyForHarvest

  /** Which script component an entity carries (what TryGetComponent<T> can find). */
  datatype Kind =
    | AnimalKind(species: Species)
    | CarrotKind(plant: PlantState)
    | OtherKind

  datatype Entity = Entity(kind: Kind, pos: Vec3)

  /** Live entities by identity. */
  type World = map<EntityId, Entity>

  /** A stored reference is non-null in Unity terms: it is set and its object still exists. */
  predicate Live(w: World, reference: Option<EntityId>) {
    reference.Some? && reference.value in w
  }

  /** Object.Destroy: the entity leaves the world; nothing else changes. */
  function Destroy(w: World, id: EntityId): (r: World)
    ensures id !in r
    ensures r.Keys == w.Keys - {id}
    ensures forall e :: e in r ==> r[e] == w[e]
  {
    w - {id}
  }

  /** Every entity of `after` was in `before` with the same kind and position. */
  predicate OnlyRemoved(before: World, after: World) {
    after.Keys <= before.Keys && forall e :: e in after ==> after[e] == before[e]
  }
}
