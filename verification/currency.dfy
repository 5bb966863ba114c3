/**
 * CurrencyManager: the player's Glimmer balance. Amounts are unbounded
 * integers here; the C# field is a 32-bit int.
 */
module Currency {

  /** The balance Start sets (the comment beside it says 0, the code says 1000). */
  const StartingGlimmers: int := 1000

  datatype Wallet = Wallet(glimmers: int)

  /** CurrencyManager.Start */
  function Start(): (w: Wallet)
    ensures CanAfford(w, StartingGlimmers) && !CanAfford(w, StartingGlimmers + 1)
  {
    Wallet(StartingGlimmers)
  }

  /** AddGlimmers: the balance grows by exactly the amount (a negative amount shrinks it). */
  function AddGlimmers(w: Wallet, amount: int): (r: Wallet)
    ensures r.glimmers - w.glimmers == amount
  {
    Wallet(w.glimmers + amount)
  }

  /**
   * CanAfford: the balance covers the cost. It changes nothing, and it holds
   * exactly when removing the cost would leave the balance non-negative.
   */
  function CanAfford(w: Wallet, cost: int): (b: bool)
    ensures b <==> RemoveGlimmers(w, cost).glimmers >= 0
  {
    w.glimmers >= cost
  }

  /** RemoveGlimmers: the balance drops by exactly the amount, with no affordability check. */
  function RemoveGlimmers(w: Wallet, amount: int): (r: Wallet)
    ensures w.glimmers - r.glimmers == amount
  {
    Wallet(w.glimmers - amount)
  }

  // ----- Properties -----

  /** Removing what was just added restores the balance, and the other way round. */
  lemma AddRemoveInverse(w: Wallet, amount: int)
    ensures RemoveGlimmers(AddGlimmers(w, amount), amount) == w
    ensures AddGlimmers(RemoveGlimmers(w, amount), amount) == w
  {
  }
}
