/**
 * GameTimeManager without the sun: the time into the current day and the
 * day counter, with the new-day event. The counter is a float in the
 * game; it only ever holds whole numbers and is a natural number here.
 */
module GameTime {

  datatype Clock = Clock(currentDayTime: real, dayCounter: nat)

  /** GameTimeManager.Start */
  const Start: Clock := Clock(0.0, 0)

  /** The clock after one Update, and whether OnNewDay fired. */
  datatype TickResult = TickResult(clock: Clock, newDay: bool)

  /**
   * The time part of GameTimeManager.Update: add dt; once the day time
   * reaches DayLength the new-day event fires once, the day time restarts
   * at 0 (any overshoot is dropped) and the counter goes up by one.
   */
  function Tick(c: Clock, dt: real, dayLength: real): (r: TickResult)
    ensures r.newDay <==> c.currentDayTime + dt >= dayLength
    ensures r.newDay ==> r.clock == Clock(0.0, c.dayCounter + 1)
    ensures !r.newDay ==> r.clock == Clock(c.currentDayTime + dt, c.dayCounter)
  {
    var t := c.currentDayTime + dt;
    if t >= dayLength then TickResult(Clock(0.0, c.dayCounter + 1), true)
    else TickResult(Clock(t, c.dayCounter), false)
  }

  /** The day time stays within [0, DayLength) for a positive day length and non-negative steps. */
  predicate WithinDay(c: Clock, dayLength: real) {
    0.0 <= c.currentDayTime < dayLength
  }

  // ----- Properties -----

  lemma TickKeepsWithinDay(c: Clock, dt: real, dayLength: real)
    requires dayLength > 0.0 && dt >= 0.0 && c.currentDayTime >= 0.0
    ensures WithinDay(Tick(c, dt, dayLength).clock, dayLength)
  {
  }

  /** The counter never decreases and gains at most one day per tick, however large dt is. */
  lemma AtMostOneDayPerTick(c: Clock, dt: real, dayLength: real)
    ensures c.dayCounter <= Tick(c, dt, dayLength).clock.dayCounter <= c.dayCounter + 1
  {
  }

  /** The clock after a sequence of frame times, with the number of new-day events fired. */
  function Run(c: Clock, dts: seq<real>, dayLength: real): (Clock, nat)
    decreases |dts|
  {
    if dts == [] then (c, 0)
    else
      var r := Tick(c, dts[0], dayLength);
      var (c', n) := Run(r.clock, dts[1..], dayLength);
      (c', n + if r.newDay then 1 else 0)
  }

  /** Over any run the counter advances by exactly the number of new-day events fired. */
  lemma {:induction false} CounterCountsNewDays(c: Clock, dts: seq<real>, dayLength: real)
    ensures Run(c, dts, dayLength).0.dayCounter == c.dayCounter + Run(c, dts, dayLength).1
    ensures Run(c, dts, dayLength).1 <= |dts|
    decreases |dts|
  {
    if dts != [] {
      CounterCountsNewDays(Tick(c, dts[0], dayLength).clock, dts[1..], dayLength);
    }
  }
}
