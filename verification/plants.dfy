/** The carrot: a plant that is ready for harvest and is removed from the world when harvested. */
module Plants {
  import opened Geometry
  import opened Worlds

  /** Carrot.Start: the only assignment of the (privately set) harvest state. */
  const StartState: PlantState := ReadyForHarvest

  /** A carrot entering play after Start has run. */
  function Plant(w: World, id: EntityId, pos: Vec3): (r: World)
    ensures id in r && r[id].kind == CarrotKind(ReadyForHarvest) && r[id].pos == pos
    ensures forall e :: e in w && e != id ==> e in r && r[e] == w[e]
  {
    w[id := Entity(CarrotKind(StartState), pos)]
  }

  /**
   * Carrot.Harvest: destroy this carrot. There is no check of its state,
   * and no other entity is touched.
   */
  function Harvest(w: World, carrot: EntityId): (r: World)
    ensures carrot !in r
    ensures r.Keys == w.Keys - {carrot}
    ensures forall e :: e in r ==> r[e] == w[e]
  {
    Destroy(w, carrot)
  }

  /** Harvest succeeds whatever state the carrot is in. */
  lemma HarvestIgnoresPlantState(w: World, carrot: EntityId, pos: Vec3, s1: PlantState, s2: PlantState)
    ensures Harvest(w[carrot := Entity(CarrotKind(s1), pos)], carrot)
         == Harvest(w[carrot := Entity(CarrotKind(s2), pos)], carrot)
  {
    var w1, w2 := w[carrot := Entity(CarrotKind(s1), pos)], w[carrot := Entity(CarrotKind(s2), pos)];
    assert Harvest(w1, carrot) == Harvest(w2, carrot) by {
      assert Harvest(w1, carrot).Keys == Harvest(w2, carrot).Keys;
    }
  }
}
