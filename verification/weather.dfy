/** WeatherSystem: a daily roll between sunny and rainy weather, broadcast to listeners. */
module Weather {
  import GameTime

  datatype WeatherType = Sunny | Rainy

  /** The weather before the first new day. */
  const InitialWeather: WeatherType := Sunny

  /** The new weather and the values OnWeatherChanged was invoked with, in order. */
  datatype NewDayResult = NewDayResult(weather: WeatherType, notified: seq<WeatherType>)

  /**
   * HandleNewDay: rainy exactly when the roll (Random.value) is below the
   * rain chance. The weather is overwritten and listeners are told once,
   * even when it did not change.
   */
  function HandleNewDay(current: WeatherType, roll: real, rainChance: real): (r: NewDayResult)
    ensures r.weather == Rainy <==> roll < rainChance
    ensures r.notified == [r.weather]
  {
    var w := if roll < rainChance then Rainy else Sunny;
    NewDayResult(w, [w])
  }

  /**
   * One frame of the clock with the weather system subscribed to its
   * new-day event: the weather is rolled exactly on the frames that start
   * a new day.
   */
  function Frame(c: GameTime.Clock, current: WeatherType, dt: real, dayLength: real,
                 roll: real, rainChance: real): (r: (GameTime.Clock, NewDayResult))
    ensures var t := GameTime.Tick(c, dt, dayLength);
      && r.0 == t.clock
      && (t.newDay ==> r.1 == HandleNewDay(current, roll, rainChance))
      && (!t.newDay ==> r.1 == NewDayResult(current, []))
  {
    var t := GameTime.Tick(c, dt, dayLength);
    if t.newDay then (t.clock, HandleNewDay(current, roll, rainChance))
    else (t.clock, NewDayResult(current, []))
  }

  // ----- Properties -----

  /** With no chance of rain every roll in [0, 1] gives Sunny. */
  lemma NoRainChanceMeansSunny(current: WeatherType, roll: real)
    requires 0.0 <= roll <= 1.0
    ensures HandleNewDay(current, roll, 0.0).weather == Sunny
  {
  }

  /** Listeners hear exactly one value per new day, equal to the weather that results. */
  lemma OneNotificationPerNewDay(c: GameTime.Clock, current: WeatherType, dt: real, dayLength: real,
                                 roll: real, rainChance: real)
    ensures var r := Frame(c, current, dt, dayLength, roll, rainChance);
      && |r.1.notified| == (if c.currentDayTime + dt >= dayLength then 1 else 0)
      && (forall v :: v in r.1.notified ==> v == r.1.weather)
  {
  }
}
