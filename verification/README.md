# The Gaffer's Garden — a Dafny model of the game's core

The Gaffer's Garden is a Unity garden simulation. Bunnies and foxes wander
a navmesh. A bunny eats ripe carrots and cowers from anything on its
predator layer. A fox hunts bunnies. Each animal's stats come from a
heritable gene bundle, and crossover with mutation derives offspring genes.

Around the ecosystem sit the player's systems:

- a day clock with a new-day event;
- a daily weather roll;
- a Glimmer balance (the in-game currency);
- a build mode that places buildings on an integer occupancy grid;
- the HUD text for the clock, day and balance;
- the CodeMonkey helpers the game relies on: hex and colour strings,
  integer parsing, and mouse drag / click-from-to actions.

The model is a set of pure functions over immutable datatypes. Unity floats
are `real`s. A destroyed object is removed from the world map. Engine
queries and random draws are explicit inputs:

- `Physics.OverlapSphere` is a candidate sequence in engine order;
- `NavMesh.SamplePosition` is a `Sampler` function;
- the NavMeshAgent's path status is a `NavStatus`;
- agent requests are returned as `NavCommand`s;
- every `Random` draw is a record field.

Module layout:

| module | file | models |
|---|---|---|
| `Wrappers`, `Geometry`, `Worlds` | wrappers.dfy, geometry.dfy, worlds.dfy | `Option`, `Vector3`, the scene as a map of live entities |
| `Genetics` | genetics.dfy | `Genes`, `GeneticsUtility`, `GeneticTraits` |
| `Plants` | plants.dfy | `Carrot` |
| `Targeting` | targeting.dfy | `AnimalAI.FindClosestTarget` |
| `AnimalAI`, `BunnyAI`, `FoxAI` | animal_ai.dfy, bunny_ai.dfy, fox_ai.dfy | the three AI classes |
| `Simulation` | simulation.dfy | `AnimalAI.Update` with the species overrides |
| `GridMap`, `Building` | grid.dfy, building.dfy | `Grid<T>`, `BuildManager` |
| `Currency`, `GameTime`, `Weather` | currency.dfy, game_time.dfy, weather.dfy | `CurrencyManager`, `GameTimeManager`, `WeatherSystem` |
| `Text`, `GameUI` | text.dfy, game_ui.dfy | decimal formatting, `GameUIManager` text |
| `Utils`, `MouseActions` | utils_class.dfy, mouse_actions.dfy | `UtilsClass` parsing, hex and colour helpers, and its mouse actions |

## Model

| member | source | states |
|---|---|---|
| Genetics.InheritTrait | Assets/Scripts/AI/Genetics/GeneticsUtility.cs:19-27 | An unmutated trait is one parent's value. A mutated trait is the coin-picked parent's value scaled by (1 + delta). |
| Genetics.CoinSelectsParent | Assets/Scripts/AI/Genetics/GeneticsUtility.cs:22 | Without mutation, a coin below 0.5 gives parent A's value and any other coin gives parent B's. |
| Genetics.ZeroChanceNeverMutates | Assets/Scripts/AI/Genetics/GeneticsUtility.cs:25 | With mutation chance 0, no roll in [0, 1] mutates, so the trait is exactly the picked parent's. |
| Genetics.MutationWithinAmount | Assets/Scripts/AI/Genetics/GeneticsUtility.cs:22-26 | A non-negative inherited value v ends within [v(1 - amount), v(1 + amount)]. |
| Genetics.DeclaredSettingsKeepTraitsPositive | Assets/Scripts/AI/Genetics/GeneticTraits.cs:14-18 | With the declared mutation ranges (chance in [0, 1], amount up to 0.5), a positive trait stays at least half the parent's value. |
| Genetics.Combine | Assets/Scripts/AI/Genetics/GeneticsUtility.cs:7-17 | Combine never assigns eatDistance or satiationFromFood, so both stay 0 in every offspring. |
| Genetics.IdenticalParentsWithoutMutation | Assets/Scripts/AI/Genetics/GeneticsUtility.cs:7-17 | Two identical parents and chance 0 reproduce speed, vision range and max satiation exactly. |
| Genetics.TraitsUseIndependentDraws | Assets/Scripts/AI/Genetics/GeneticsUtility.cs:11-13 | Each assigned trait depends only on its own three random draws. |
| Genetics.OffspringOutsideDeclaredRanges | Assets/Scripts/AI/Genetics/Genes.cs:6-25 | No offspring of Combine lies within the inspector ranges, because eatDistance 0 is below the range [1, 5]. |
| Genetics.NewGeneticTraits | Assets/Scripts/AI/Genetics/GeneticTraits.cs:8-18 | A fresh carrier exposes the bundle it was given, and its default mutation settings lie within their declared ranges. |
| Genetics.InheritGenes | Assets/Scripts/AI/Genetics/GeneticTraits.cs:20-23 | The bundle becomes Combine of the parents' bundles under the carrier's own mutation settings, which stay unchanged. |
| Genetics.InheritIgnoresParentSettings | Assets/Scripts/AI/Genetics/GeneticTraits.cs:20-23 | The parents' mutation settings never influence inheritance. |
| Plants.Plant | Assets/Scripts/Carrot.cs:10-13 | A carrot enters the world ready for harvest, and no other entity changes. |
| Plants.Harvest | Assets/Scripts/Carrot.cs:15-18 | Harvest removes exactly that carrot from the world. |
| Plants.HarvestIgnoresPlantState | Assets/Scripts/Carrot.cs:15-18 | The result of a harvest does not depend on the carrot's harvest state. |
| Geometry.CloserThanIsDistanceBelow | Assets/Scripts/AI/BunnyAI.cs:68 | The square-free reach test agrees with `Vector3.Distance(a, b) < limit` for the true distance. |
| Targeting.FindClosestTarget | Assets/Scripts/AI/AnimalAI.cs:186-214 | The result is an eligible candidate that is not the seeker. It is closest, and the first wins ties. None is returned exactly when no eligible candidate is nearer than float.MaxValue. |
| Targeting.ScanFromCorrect | Assets/Scripts/AI/AnimalAI.cs:195-211 | The nearest-so-far loop ends with the closest eligible index, or with none when none beats the bound. |
| Targeting.ClosestIndexCorrect | Assets/Scripts/AI/AnimalAI.cs:186-214 | The scan answers Some exactly when an eligible candidate exists, and then with the closest one. |
| Targeting.ClosestIsUnique | Assets/Scripts/AI/AnimalAI.cs:186-214 | At most one index satisfies the closest-candidate specification. |
| Targeting.FirstWinsTies | Assets/Scripts/AI/AnimalAI.cs:203-208 | Of two equally near eligible candidates, the later one is never chosen. |
| Targeting.NullPredicateAcceptsAll | Assets/Scripts/AI/AnimalAI.cs:201 | A null predicate selects the same target as an always-true predicate. |
| AnimalAI.Init | Assets/Scripts/AI/AnimalAI.cs:55-70 | Stats are copied from the genes. The animal starts at max satiation, Wandering, with no target, not waiting and a zero timer. |
| AnimalAI.FreshAnimalWanders | Assets/Scripts/AI/AnimalAI.cs:55-70 | A freshly initialised animal whose max satiation is above the warning level chooses Wandering. |
| AnimalAI.DecaySatiation | Assets/Scripts/AI/AnimalAI.cs:74 | Satiation falls by exactly regression × dt, and nothing else changes. |
| AnimalAI.DecayIsMonotoneAndUnclamped | Assets/Scripts/AI/AnimalAI.cs:74 | Decay never raises satiation, and it can drive satiation below zero. |
| AnimalAI.SetState | Assets/Scripts/AI/AnimalAI.cs:102-115 | The state is Feeding iff the animal is already Feeding with a live target. Otherwise it is LookingForFood iff hungry, else Wandering. Only the state changes. |
| AnimalAI.SetStateIdempotent | Assets/Scripts/AI/AnimalAI.cs:102-115 | Re-evaluating the state in the same world changes nothing. |
| AnimalAI.FeedingIsSticky | Assets/Scripts/AI/AnimalAI.cs:105 | Feeding on a live target survives any satiation value. |
| AnimalAI.FindNewWanderDestination | Assets/Scripts/AI/AnimalAI.cs:156-165 | A destination is requested iff the sampler finds a navmesh point near the random query, and it is that point. |
| AnimalAI.Wander | Assets/Scripts/AI/AnimalAI.cs:124-154 | Covers the wait countdown and its expiry into a new destination. On arrival, a hungry animal moves on, while a content one stops and draws its wait. With no path it asks for a destination. Only the wander fields change. |
| AnimalAI.WanderKeepsCoreState | Assets/Scripts/AI/AnimalAI.cs:124-154 | Wander never changes state, satiation, target or predator. |
| AnimalAI.WanderQueryWithinVision | Assets/Scripts/AI/AnimalAI.cs:158 | The wander query point lies within vision range of the animal. |
| AnimalAI.WaitDrawnFromWindow | Assets/Scripts/AI/AnimalAI.cs:142-148 | A wait, once started, lasts between the min and max wander wait times. |
| AnimalAI.WanderPreservesWaitInvariant | Assets/Scripts/AI/AnimalAI.cs:124-165 | "Waiting implies time left" is preserved. Every destination requested comes from the sampler. |
| AnimalAI.Flee | Assets/Scripts/AI/AnimalAI.cs:222-233 | At most one navigation request. There is one exactly when a threat exists and the navmesh sample within vision range of the flee query point succeeds, and it is a SetDestination to the sampled point. |
| AnimalAI.FleeQueryAtFleeDistance | Assets/Scripts/AI/AnimalAI.cs:226-227 | For a unit run direction, the flee query point is exactly 10 units from the animal. |
| AnimalAI.FleeQueryMovesAway | Assets/Scripts/AI/AnimalAI.cs:226-227 | When the run direction is a positive multiple of position minus threat position, the query point is strictly farther from the threat than the animal is. |
| AnimalAI.Die | Assets/Scripts/AI/AnimalAI.cs:216-220 | Exactly the animal leaves the world. |
| AnimalAI.SeekFood | Assets/Scripts/AI/AnimalAI.cs:186-214 | The closest qualifying food becomes the target, with state Feeding and a destination at the food. Without one, the target is cleared and the animal wanders hungrily. |
| BunnyAI.SetState | Assets/Scripts/AI/BunnyAI.cs:33-49 | The closest predator is remembered. The bunny cowers iff one is seen, otherwise the base rule applies with Cowering read as Wandering. |
| BunnyAI.PredatorPreemptsFeeding | Assets/Scripts/AI/BunnyAI.cs:33-49 | A seen predator overrides a live feeding commitment, and the food target is kept. |
| BunnyAI.LookForFood | Assets/Scripts/AI/BunnyAI.cs:51-64 | Any target chosen is a ripe carrot from the scan other than the bunny itself. Entering Feeding always sets a target. |
| BunnyAI.Feed | Assets/Scripts/AI/BunnyAI.cs:66-74 | With the carrot live and strictly within eat distance, it is harvested, exactly SatiationFromFood is gained and the reference is dropped. Otherwise nothing changes. |
| BunnyAI.FeedingIsUncapped | Assets/Scripts/AI/BunnyAI.cs:71 | Eating when full takes satiation above MaxSatiation. |
| FoxAI.LookForFood | Assets/Scripts/AI/FoxAI.cs:18-31 | Any target chosen is a bunny from the scan other than the fox itself. Entering Feeding always sets a target. |
| FoxAI.Feed | Assets/Scripts/AI/FoxAI.cs:33-41 | With the bunny live and strictly within eat distance, it dies, exactly SatiationFromFood is gained and the reference is dropped. Otherwise nothing changes. |
| FoxAI.NonPositiveEatDistanceNeverFeeds | Assets/Scripts/AI/FoxAI.cs:35 | A fox with eat distance at most 0, as Combine leaves it, can never eat. |
| Simulation.SelectState | Assets/Scripts/AI/BunnyAI.cs:23-31 | The species' SetState changes at most state and predator, and a fox's predator is untouched. |
| Simulation.Feed | Assets/Scripts/AI/AnimalAI.cs:84-100 | Either nothing happens, or the live target is destroyed and its food value is added. |
| Simulation.Dispatch | Assets/Scripts/AI/AnimalAI.cs:84-100 | Wandering runs Wander without hunger and LookingForFood runs the species' food search, taking their animal and requests. Feeding feeds and makes no request. Cowering does nothing in the base switch. Only Feeding changes the world or satiation. The predator is untouched. |
| Simulation.UpdateStateLogic | Assets/Scripts/AI/BunnyAI.cs:23-31 | The animal and world come from dispatching on the chosen state. The frame's requests are the dispatched requests followed by the flee from the remembered predator for a bunny left Cowering, and by nothing otherwise, so the flee only adds requests. |
| Simulation.Update | Assets/Scripts/AI/AnimalAI.cs:72-100 | A frame creates and changes nothing in the world. At most it removes the animal's own target. |
| Simulation.UpdateSatiation | Assets/Scripts/AI/AnimalAI.cs:72-100 | Either satiation is only decayed and the world is unchanged, or the live target was destroyed, one food value was added and the target was cleared. |
| Simulation.DispatchSatiation | Assets/Scripts/AI/AnimalAI.cs:84-100 | The same two outcomes as UpdateSatiation, at the level of the state switch. |
| Simulation.FoxNeverCowers | Assets/Scripts/AI/FoxAI.cs:8-42 | A fox never enters Cowering. |
| Simulation.BunnyCowersFromPredator | Assets/Scripts/AI/BunnyAI.cs:23-49 | A bunny that sees a predator ends the frame Cowering. Its target is kept, the world is unchanged, and its only request is the flight. |
| Simulation.CoweringHasPredator | Assets/Scripts/AI/BunnyAI.cs:23-49 | A bunny cowers iff it remembers a predator, and it remembers one iff the predator scan found one. |
| Simulation.UpdatePreservesWaitInvariant | Assets/Scripts/AI/AnimalAI.cs:72-165 | A whole frame keeps "waiting implies time left" when the minimum wait is positive. |
| Simulation.BunnyFindsAndEatsCarrot | Assets/Scripts/AI/BunnyAI.cs:51-74 | A hungry bunny with one reachable ripe carrot commits on the first frame. On the second frame it eats: the carrot is gone, the food value is added and the target is cleared. |
| GridMap.NewGrid | Assets/Scripts/GridMap/Scripts/Grid.cs:33-45 | Every in-bounds cell holds createGridObject(x, y). |
| GridMap.GetGridObject | Assets/Scripts/GridMap/Scripts/Grid.cs:133-139 | An out-of-bounds read yields default(T). |
| GridMap.SetGridObject | Assets/Scripts/GridMap/Scripts/Grid.cs:107-112 | An in-bounds write changes exactly that cell and fires one change event. An out-of-bounds write changes nothing and fires nothing. |
| GridMap.SetGridObjectAt | Assets/Scripts/GridMap/Scripts/Grid.cs:124-128 | The world-position write affects only the cell GetXY names, under the same bounds rule. |
| GridMap.GetGridObjectAt | Assets/Scripts/GridMap/Scripts/Grid.cs:144-148 | The world-position read is the read of the cell GetXY names. |
| GridMap.GetWorldPosition | Assets/Scripts/GridMap/Scripts/Grid.cs:92-102 | The corner lies at the origin's height, and GetXY recovers (x, y) from it for any non-zero cell size. |
| GridMap.GetXY | Assets/Scripts/GridMap/Scripts/Grid.cs:99-102 | For a positive cell size, the position lies within one cell size of the cell's corner on x and on z, measured from the origin, lower bound included. |
| GridMap.GetXYIsCellSquare | Assets/Scripts/GridMap/Scripts/Grid.cs:92-102 | For a positive cell size, a point maps to (x, y) iff it lies in the half-open square at GetWorldPosition(x, y). |
| GridMap.GetAfterSet | Assets/Scripts/GridMap/Scripts/Grid.cs:107-139 | Reading a cell right after an in-bounds write returns the value written. |
| Building.NewPlacementGrid | Assets/Scripts/Mechanics/Building/BuildManager.cs:48-54 | The placement grid starts with every cell, in bounds or not, reading 0 (free). |
| Building.HandleBuildModeToggle | Assets/Scripts/Mechanics/Building/BuildManager.cs:73-85 | Build mode flips iff B is pressed. The selection and rotation are kept. |
| Building.ToggleTwiceRestores | Assets/Scripts/Mechanics/Building/BuildManager.cs:76-79 | Two presses of B restore the build mode. |
| Building.SwitchTo | Assets/Scripts/Mechanics/Building/BuildManager.cs:179-201 | Switching selects the building, resets the rotation to Down and keeps build mode. |
| Building.ClampCell | Assets/Scripts/Mechanics/Building/BuildManager.cs:111-119 | Negative coordinates clamp to 0, and others are kept. There is no upper clamp. |
| Building.HandleBuildingPlacement | Assets/Scripts/Mechanics/Building/BuildManager.cs:141-177 | Placement happens iff the click is affordable and the anchor and every footprint cell are free. Then the in-bounds footprint cells become 1 and the cost is paid. Otherwise grid and balance are unchanged. |
| Building.Update | Assets/Scripts/Mechanics/Building/BuildManager.cs:64-71 | The toggle always runs. A building is placed iff, after the toggle, build mode is on, a building is selected and clicked, its cost is affordable, and the clamped mouse cell and every footprint cell are free. A placement occupies the footprint and charges exactly that cost. Otherwise grid and balance are unchanged. |
| Building.OffGridCellsReadFree | Assets/Scripts/Mechanics/Building/BuildManager.cs:147-160 | A footprint cell off the grid reads as free, so it never blocks a placement. |
| Currency.Start | Assets/Scripts/Mechanics/Currency/CurrencyManager.cs:30-33 | The starting balance affords exactly 1000 Glimmers and no more. |
| Currency.AddGlimmers | Assets/Scripts/Mechanics/Currency/CurrencyManager.cs:36-39 | The balance grows by exactly the amount. |
| Currency.RemoveGlimmers | Assets/Scripts/Mechanics/Currency/CurrencyManager.cs:49-52 | The balance drops by exactly the amount, with no affordability check. |
| Currency.AddRemoveInverse | Assets/Scripts/Mechanics/Currency/CurrencyManager.cs:36-52 | Adding and removing the same amount cancel, in either order. |
| Currency.CanAfford | Assets/Scripts/Mechanics/Currency/CurrencyManager.cs:42-52 | CanAfford holds iff removing the amount leaves the balance non-negative. |
| GameTime.Tick | Assets/Scripts/Mechanics/Time/GameTimeManager.cs:55-94 | A new day fires iff the advanced day time reaches the day length. It then restarts the day at 0 and adds one day. Otherwise only the time advances. |
| GameTime.TickKeepsWithinDay | Assets/Scripts/Mechanics/Time/GameTimeManager.cs:87-92 | With a positive day length and non-negative steps, the day time stays in [0, DayLength). |
| GameTime.AtMostOneDayPerTick | Assets/Scripts/Mechanics/Time/GameTimeManager.cs:87-92 | One frame adds at most one day, however long the frame. |
| GameTime.CounterCountsNewDays | Assets/Scripts/Mechanics/Time/GameTimeManager.cs:87-92 | Over any run, the counter advances by exactly the number of new-day events, which is at most the number of frames. |
| Weather.HandleNewDay | Assets/Scripts/Mechanics/Weather/WeatherSystem.cs:36-43 | The weather is Rainy iff the roll is below RainChance. Listeners are told the new weather exactly once. |
| Weather.Frame | Assets/Scripts/Mechanics/Weather/WeatherSystem.cs:24-27 | The weather is rolled on exactly the frames that start a new day, and is left alone otherwise. |
| Weather.NoRainChanceMeansSunny | Assets/Scripts/Mechanics/Weather/WeatherSystem.cs:39 | A zero rain chance always gives Sunny. |
| Weather.OneNotificationPerNewDay | Assets/Scripts/Mechanics/Weather/WeatherSystem.cs:36-43 | Exactly one notification per new day, carrying the resulting weather. |
| Text.NatStringValue | Assets/Scripts/Mechanics/UI/GameUIManager.cs:66 | The decimal text of a count reads back as that count. |
| GameUI.EffectiveDayLength | Assets/Scripts/Mechanics/UI/GameUIManager.cs:56 | A zero day length is replaced by 1, so the divisor is never 0. |
| GameUI.ZeroDayLengthReadsAsOne | Assets/Scripts/Mechanics/UI/GameUIManager.cs:56 | A zero day length displays the same clock as a day length of 1. |
| GameUI.Truncate | Assets/Scripts/Mechanics/UI/GameUIManager.cs:58 | The quotient of C#'s float % is rounded toward zero. |
| GameUI.FloatRemainder | Assets/Scripts/Mechanics/UI/GameUIManager.cs:58 | For a positive day length, C# float % of a non-negative time lies in [0, length), and of a negative time in (-length, 0], keeping the dividend's sign. |
| GameUI.RemainderWithinDay | Assets/Scripts/Mechanics/UI/GameUIManager.cs:58 | A time already within the day is its own remainder. |
| GameUI.ReadClock | Assets/Scripts/Mechanics/UI/GameUIManager.cs:56-61 | The hour is the floor of the 24-hour reading of the time within the day, and the minute is the floor of sixty times what is left of that hour. |
| GameUI.ClockInRange | Assets/Scripts/Mechanics/UI/GameUIManager.cs:56-61 | For non-negative inputs the hours are 0..23 and the minutes 0..59. |
| GameUI.Pad2ReadsBack | Assets/Scripts/Mechanics/UI/GameUIManager.cs:63 | "00" formatting of a value below 100 gives two digits that read back as the value. |
| GameUI.TimeText | Assets/Scripts/Mechanics/UI/GameUIManager.cs:63 | The time text has at least five characters. For a non-negative time and day length it is "HH:MM", and its fields read back as the clock's hours and minutes. |
| GameUI.DayLabel | Assets/Scripts/Mechanics/UI/GameUIManager.cs:66 | The day label starts with "Day:", and for a 32-bit counter the rest is text that int.TryParse reads back as the counter. |
| GameUI.DayLabelReadsBack | Assets/Scripts/Mechanics/UI/GameUIManager.cs:66 | The day label is "Day:" followed by text that Parse_Int reads back as the day counter. |
| GameUI.GlimmerLabel | Assets/Scripts/Mechanics/UI/GameUIManager.cs:72 | The Glimmer label starts with "Glimmers:", and for a 32-bit balance the rest is text that int.TryParse reads back as the balance. |
| GameUI.GlimmerLabelReadsBack | Assets/Scripts/Mechanics/UI/GameUIManager.cs:72 | The Glimmer label is "Glimmers:" followed by text that Parse_Int reads back as the balance. |
| Utils.DecToHex | Assets/CodeMonkey/_/Stuff/CodeMonkey/Utils/UtilsClass.cs:324-326 | "X2" formatting yields at least two digits. |
| Utils.HexDigitsAreUpperHex | Assets/CodeMonkey/_/Stuff/CodeMonkey/Utils/UtilsClass.cs:324-326 | "X2" output consists of upper-case hex digits only. |
| Utils.HexDigitsValue | Assets/CodeMonkey/_/Stuff/CodeMonkey/Utils/UtilsClass.cs:324-326 | The hex digits read back as the number they format. |
| Utils.HexToDec | Assets/CodeMonkey/_/Stuff/CodeMonkey/Utils/UtilsClass.cs:331-333 | Convert.ToInt32(s, 16) accepts one optional '+', an optional 0x or 0X prefix and hex digits of either case worth less than 2^32. Values of 2^31 and above wrap to negative, so any success is a 32-bit int. Anything else fails. |
| Utils.PlusSignIsSkipped | Assets/CodeMonkey/_/Stuff/CodeMonkey/Utils/UtilsClass.cs:331-333 | A single leading '+' is skipped: "+" + s reads exactly as s. |
| Utils.SignsRejected | Assets/CodeMonkey/_/Stuff/CodeMonkey/Utils/UtilsClass.cs:331-333 | A second '+', or a '-' with or without a '+' before it, always fails. |
| Utils.HexRoundTrip | Assets/CodeMonkey/_/Stuff/CodeMonkey/Utils/UtilsClass.cs:324-333 | Hex_to_Dec(Dec_to_Hex(v)) == v for every 32-bit int, negatives included. |
| Utils.ByteHexIsTwoDigits | Assets/CodeMonkey/_/Stuff/CodeMonkey/Utils/UtilsClass.cs:324-326 | A byte formats as exactly two hex digits. |
| Utils.ByteRoundTrip | Assets/CodeMonkey/_/Stuff/CodeMonkey/Utils/UtilsClass.cs:324-333 | A byte's two-digit hex reads back as the byte. |
| Utils.HexToDec01 | Assets/CodeMonkey/_/Stuff/CodeMonkey/Utils/UtilsClass.cs:345-347 | Hex_to_Dec01 fails exactly when Hex_to_Dec does. Its value times 255 is Hex_to_Dec's value, and a string of at most two characters gives a value in [0, 1]. |
| Utils.PairRoundTrip | Assets/CodeMonkey/_/Stuff/CodeMonkey/Utils/UtilsClass.cs:345-347 | Hex_to_Dec01 of a byte's hex is byte / 255. |
| Utils.GetStringFromColor | Assets/CodeMonkey/_/Stuff/CodeMonkey/Utils/UtilsClass.cs:352-357 | An RGB colour string is six characters long. |
| Utils.GetStringFromColorWithAlpha | Assets/CodeMonkey/_/Stuff/CodeMonkey/Utils/UtilsClass.cs:362-365 | An RGBA colour string is eight characters long. |
| Utils.ColorStringLayout | Assets/CodeMonkey/_/Stuff/CodeMonkey/Utils/UtilsClass.cs:352-365 | The colour strings are RRGGBB and RRGGBBAA, each pair being the channel's hex. |
| Utils.GetColorFromString | Assets/CodeMonkey/_/Stuff/CodeMonkey/Utils/UtilsClass.cs:398-408 | Strings shorter than six characters are rejected. Alpha is 1 unless an eighth character is present. |
| Utils.ReadThreePairs | Assets/CodeMonkey/_/Stuff/CodeMonkey/Utils/UtilsClass.cs:398-408 | Six characters read as three channel pairs, with alpha 1. |
| Utils.ReadAppendedAlpha | Assets/CodeMonkey/_/Stuff/CodeMonkey/Utils/UtilsClass.cs:403-406 | Two more characters after RRGGBB set only alpha. |
| Utils.ColorRoundTrip | Assets/CodeMonkey/_/Stuff/CodeMonkey/Utils/UtilsClass.cs:352-408 | Reading a colour's RRGGBB string gives each byte / 255, with alpha 1. |
| Utils.ColorWithAlphaRoundTrip | Assets/CodeMonkey/_/Stuff/CodeMonkey/Utils/UtilsClass.cs:362-408 | Reading a colour's RRGGBBAA string gives each byte / 255, alpha included. |
| Utils.ReadColorBytes | Assets/CodeMonkey/_/Stuff/CodeMonkey/Utils/UtilsClass.cs:398-408 | The four two-digit hex pairs of four bytes, concatenated, read back as those bytes / 255. |
| Utils.ReadFourPairs | Assets/CodeMonkey/_/Stuff/CodeMonkey/Utils/UtilsClass.cs:398-408 | Eight characters read as four channel pairs, the last one being alpha. |
| Utils.TryParseInt | Assets/CodeMonkey/_/Stuff/CodeMonkey/Utils/UtilsClass.cs:263 | int.TryParse succeeds only with a 32-bit value. |
| Utils.ParseInt | Assets/CodeMonkey/_/Stuff/CodeMonkey/Utils/UtilsClass.cs:261-267 | A failed parse gives the default. A successful one gives the parsed 32-bit value. |
| Utils.ParseIntOrMinusOne | Assets/CodeMonkey/_/Stuff/CodeMonkey/Utils/UtilsClass.cs:271-273 | The one-argument overload defaults to -1. |
| Utils.DecimalIsTrimmed | Assets/CodeMonkey/_/Stuff/CodeMonkey/Utils/UtilsClass.cs:263 | Decimal text carries no surrounding white space for TryParse to strip. |
| Utils.DecimalSign | Assets/CodeMonkey/_/Stuff/CodeMonkey/Utils/UtilsClass.cs:263 | The leading '-' is exactly the sign TryParse splits off. |
| Utils.ParseDecimalRoundTrip | Assets/CodeMonkey/_/Stuff/CodeMonkey/Utils/UtilsClass.cs:261-267 | Parse_Int of an int's decimal text is that int, for every 32-bit int. |
| MouseActions.DragStep | Assets/CodeMonkey/_/Stuff/CodeMonkey/Utils/UtilsClass.cs:487-501 | Release stops dragging and wins over press. Press starts dragging. Otherwise the flag is kept. The action fires with the mouse position iff dragging. |
| MouseActions.NoPressNoDrag | Assets/CodeMonkey/_/Stuff/CodeMonkey/Utils/UtilsClass.cs:487-501 | Without a press, the drag action never fires. |
| MouseActions.HeldButtonFiresEveryFrame | Assets/CodeMonkey/_/Stuff/CodeMonkey/Utils/UtilsClass.cs:487-501 | From a press until a release, the action fires on every frame with that frame's mouse position. |
| MouseActions.HeldRest | Assets/CodeMonkey/_/Stuff/CodeMonkey/Utils/UtilsClass.cs:490-498 | While already dragging and with no release, the action keeps firing on every frame with that frame's mouse position. |
| MouseActions.ClickFromToStep | Assets/CodeMonkey/_/Stuff/CodeMonkey/Utils/UtilsClass.cs:513-535 | A step of the click-from-to machine. Clicks over the UI are ignored, cancel drops a pending "from", and the second click completes the selection. |
| MouseActions.TwoClicksSelect | Assets/CodeMonkey/_/Stuff/CodeMonkey/Utils/UtilsClass.cs:513-535 | Two clicks off the UI report the selection from the first position to the second. |
| MouseActions.UIClicksAreIgnored | Assets/CodeMonkey/_/Stuff/CodeMonkey/Utils/UtilsClass.cs:524-532 | A click over the UI changes no state and reports no selection. |
| MouseActions.CancelThenClickRestarts | Assets/CodeMonkey/_/Stuff/CodeMonkey/Utils/UtilsClass.cs:513-535 | Cancelling and clicking in one frame restarts from the new position, with or without a waiting callback. No selection completes, and the only event is the waiting callback, when there is one. |

## Left out

- Rendering, audio and presentation are left out:
  - the sun's rotation in GameTimeManager.Update;
  - the camera raycast that turns the mouse into a world position (the model takes the mouse cell);
  - the preview prefab's activation, position and rotation;
  - weather effects;
  - the grid's debug text and lines;
  - all text meshes and popups.
- Avoidance steering in AnimalAI is not modelled. It only adjusts the agent's velocity and changes no state the model tracks.
- `Vector3.normalized` needs a square root, so Flee takes the unit vector away from the threat as an input. The constant flee distance of 10 is kept. AnimalAI.FleeQueryAtFleeDistance and AnimalAI.FleeQueryMovesAway state, as requirements, the two facts the model keeps of normalisation: unit length, and a positive multiple of position minus threat position. A zero run direction, which Unity normalises to the zero vector, is not covered by FleeQueryMovesAway.
- `NavMesh.SamplePosition`, `Physics.OverlapSphere` and the NavMeshAgent are engine services, so they are inputs. Randomness (`Random.value`, `Random.Range`, `Random.insideUnitSphere`) is also an input, supplied as draws with their documented ranges.
- Unity floats are exact reals. Rounding, NaN and infinity are not modelled. `Vector3.Distance < d` is stated as a squared comparison.
- A destroyed Unity object is removed from the world map. Destruction at end of frame, and stale references that still compare non-null within the frame, are not modelled.
- Carrot only ever sets and tests PlantStates.ReadyForHarvest (Assets/Scripts/Carrot.cs:10-18, Assets/Scripts/AI/BunnyAI.cs:51-64), so every other member of the enumeration is one value, NotReadyForHarvest.
- BunnyAI's safe distance field is declared but never read, so it is not modelled.
- BuildingSO's footprint and rotation helpers are not part of this model. The occupied cells are an input, and rotation changes are left out.
- GridMap.NewGrid: width and height are natural numbers, while C#'s are ints and a negative size throws at Assets/Scripts/GridMap/Scripts/Grid.cs:39. createGridObject receives only (x, y) and not the grid under construction (Grid.cs:33, 43), because a half-built grid has no value to pass.
- The Singleton `Awake` logic and `DontDestroyOnLoad` are not modelled.
- Dec01_to_Hex, and the colour-string overloads that take a Unity Color, round a channel in [0, 1] to a byte. The model's colour strings start from bytes. Channels outside [0, 1], which print longer strings (1.5 rounds to 382, "17E"; a negative channel prints eight digits), are not modelled. The out-parameter overload of GetStringFromColor and Parse_Float are not modelled.
- Hex_to_Dec: Convert.ToInt32 throws on bad input in C#, and the model returns None instead. Which exception type is thrown, and its message, are not modelled.
- Utils.TryParseInt: culture-specific signs and digits, and trailing null characters, are not modelled. Only the invariant culture's ASCII digits, signs and white space are.
- Currency: the balance is an unbounded integer, so 32-bit overflow of AddGlimmers and RemoveGlimmers is not modelled.
- GameTime: DayCounter is a float in the game and a natural number here. It only ever holds whole numbers. Loss of precision above 2^24 days is not modelled.
- GridMap.GetXY: a cell size of 0 divides by zero in C#. The model requires a non-zero cell size.
- GridMap.GetXY: Mathf.FloorToInt returns a 32-bit int, while the model's cell coordinates are unbounded integers. Cells beyond the Int32 range, where C# would overflow, are not modelled.
- GameUI.FloatRemainder: the sign bounds are stated for a positive divisor only. The clock divides by a positive length whenever the day length is not negative.
- GameUI.DayLabel, GameUI.GlimmerLabel, GameUI.DayLabelReadsBack and GameUI.GlimmerLabelReadsBack promise the read-back only for 32-bit values, because Parse_Int only reads those back. Float formatting of large day counts is not modelled.
- MouseActions.UIClicksAreIgnored requires no cancel press in the same frame, because a cancel still drops a pending "from" over the UI.
- MouseActions.HeldButtonFiresEveryFrame covers runs that start with a press. HeldRest covers runs that are already dragging.
