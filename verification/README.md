# ALICE, modelled in Dafny

ALICE is a voice copilot for a trading game: a desktop client and a FastAPI server. Most of it talks to
the network, a database, a joystick or a microphone. This project models the parts that hold state or do
arithmetic, and proves what they promise over every input, every run of requests and every interleaving:

- **Cargo packing.** The unbounded-knapsack table, the table of choices and the walk back through it, as
  methods over arrays, proved to give the greatest packable SCU and, of all fills that reach it, the one
  with the biggest boxes first.
- **The trade-run ledger.** A class with the two tables in its fields and one method per request.
  `LedgerTables` says which tables and which answer each request leaves; every method is proved equal to
  it. `LedgerHistory` says the same field by field: what sets each figure and time, what adds and removes
  rows, what each answer means. Over whole runs of requests by any pilots: the tables stay valid, a time once
  set never changes, a finalized run is frozen and so is its profit, and pilots are isolated from each other,
  answers included.
- **Travel time.** The two-stage quantum profile and the approach profile over exact reals, shown to be
  what integrating the ship's speed gives, and the trip builder that adds them up.
- **Guards and concurrent protocols.** The sliding-window limiter, the single re-login under a lock, the
  daily UEX budget, the five-way prefetch, and the LLM gateway's routing. The protocols are state machines
  whose events are the stretches of code between two awaits; results hold after any sequence of events, and
  the histories (`PilotHistory`, `PrefetchHistory`, `GatewayRuns`, `GatewayRouting`) say from the events alone
  what brought each request or task to where it is.
- **Conversation rewriting.** The history window, the pairing of tool calls with tool results, and the
  Claude message list made from it.
- **Smaller algorithms with a simple specification.** Worklist closure, reachability index and its fan-out
  search, one-pass best and runner-up, and two printers with their parsers.

`Options` and `Sorting` hold shared definitions, `DecimalText` holds Python's `str`, `int`, `split` and
`join`, and every other module models one source file, or one part of one.

## What the code does not promise

Some claims one might expect are false of the code. Each is given with an input that shows it and with the
exact condition under which it holds:

- The walk does not always take the fewest boxes: for 8, 24 and 32 in a hold of 48 it takes three where two
  would do (`FewestBoxes.WalkCanTakeMoreBoxes`). Whether it does for a list of sizes, at every hold, is
  decided by finitely many of its own results (`FewestBoxes.TakesFewestIffNoShortcut`); it does whenever the
  smaller of two sizes always divides the larger (`FewestBoxes.NestedIsFewestAt`), which is sufficient but
  not necessary. All of this is said of the mix returned, which has as many boxes as the walk
  (`FewestBoxes.MixHasWalksBoxes`).
- The server does not enforce milestone order (`LedgerTheorems.UnreachedPurchaseIsOutOfOrder`). A purchase or
  sale recorded on a leg in order keeps it in order if and only if the leg has been reached
  (`LedgerTheorems.RecordingKeepsOrderIffReached`). Over a whole run, all legs are in order at every moment if
  and only if every accepted recording found its leg reached, which is where the client's catch-up stops
  (`LedgerTheorems.InOrderThroughoutIffReached`); edits of the transfer type do no harm.
- `finalized_at` is not written once (`LedgerTheorems.FinalizedTwice`): it changes if and only if the owner
  finalizes the run again at another time (`LedgerTheorems.RestampedIffFinalizedAgain`). Everything else in a
  finalized run stays (`LedgerTheorems.FrozenStep`).
- The catch-up loop called on a leg whose transaction is already recorded runs on and finalizes the leg;
  called on one without, it stops at the transaction. Called with a copy that has been overtaken, it raises if
  and only if the server's leg is gone, stands at its transaction or is done
  (`LedgerClient.CatchUpBeforeTransaction`).
- The gateway's in-flight count can pass its limit by any amount, because the check and the send are not one
  step (`GatewayRuns.InflightHasNoBound`), and because an overflow that finds the day's budget spent is queued
  on top: with a daily cap that alone passes any bound, even when requests are sent one at a time
  (`GatewayRuns.SpentOverflowsPassAnyBound`). So the limit holds over all runs with at most k requests being
  sent at any moment if and only if k is one and there is no cap
  (`GatewayRuns.LimitHoldsIffOneAtATimeUncapped`). As long as no overflow finds the budget spent, the exact
  bound is the limit less one plus k (`GatewayRuns.InflightIsBounded`, `GatewayRuns.InflightBoundIsReached`).
- A prefetch round attempts a terminal twice when the cache lists it twice: at most once in every run if and
  only if it is due no more than once or the round starts with the rest of the day at the reserve
  (`RoutePrefetch.AttemptedOnceIffListedOnce`).
- The fan-out search finds what filtering every commodity's rows would if and only if it looks up every
  commodity that has a wanted row (`RouteSearch.FanOutFindsEverythingIff`), as it does when the index covers
  the tradeable rows.
- A joystick binding survives its text form if and only if its guid has no colon (`Hotas.ParseToText`,
  `Hotas.ColonInGuidIsLost`).
- A hop adds exactly its length to a trip unless its arrival radius is negative and below the distance
  (`TripBuilding.HopAddsItsLength`, `TripBuilding.NegativeRadiusAddsTooMuch`), and a trip is as long as its
  hops exactly when none is like that (`TripBuilding.TripDistance`).

## Model

| member | source | states |
|---|---|---|
| `CargoPacking.MaxPackableScu` | app/tools/cargo_packing.py:15-31 | the result is packable and, unless it is zero, no more than the capacity; and no multiset of the positive sizes within the capacity packs more |
| `CargoPacking.HoldIsCapacity` | app/tools/cargo_packing.py:20 | the greatest fill of the truncated capacity is the greatest fill of the capacity itself, fractional or negative ones included |
| `CargoPacking.FillEntry` | app/tools/cargo_packing.py:26-30 | one pass over the sizes leaves the entry at the best fill of that hold and touches no earlier entry |
| `CargoPacking.FillChoice` | app/tools/cargo_packing.py:46-53 | one pass over the ascending sizes leaves the hold's entry at the best fill and its choice at the largest size some best fill of it contains; no other choice changes |
| `CargoPacking.ChoiceTable` | app/tools/cargo_packing.py:43-53 | for every hold the table remembers the largest size that some best fill of it contains, or none when no size does |
| `CargoPacking.FollowChoices` | app/tools/cargo_packing.py:55-64 | the while loop terminates, takes exactly the boxes that following the table gives, and counts each in the mix |
| `CargoPacking.BestContainerMix` | app/tools/cargo_packing.py:34-64 | the mix counts a fill of the greatest total within the capacity whose boxes never increase in size and which, of all such fills, comes first when compared biggest box first |
| `CargoPacking.BestMixIsUnique` | app/tools/cargo_packing.py:34-64 | that description leaves only one mix to return |
| `CargoPacking.BestScuIsGreatest` | app/tools/cargo_packing.py:15-31 | the independent definition of the best total, as the largest packable one not above the hold, bounds every fill and is reached by one |
| `CargoPacking.CandidatesSuffice` | app/tools/cargo_packing.py:27-30 | the table's recurrence is complete: a value that covers the previous total and each size on top of the best rest is the best total |
| `CargoPacking.OneMoreBox` | app/tools/cargo_packing.py:28-30 | and sound: any size on top of the best fill of the rest is packable and no more than the best total |
| `CargoPacking.BestFillAttains` | app/tools/cargo_packing.py:45-53 | every box of any best fill can be taken first: what is left is a best fill of the smaller hold |
| `CargoPacking.WalkIsBestFill` | app/tools/cargo_packing.py:55-64 | whatever the walk takes out of a hold is a fill of exactly the best total |
| `CargoPacking.WalkNeverIncreases` | app/tools/cargo_packing.py:55-64 | the sizes the walk takes never increase |
| `CargoPacking.WalkIsBiggestFirst` | app/tools/cargo_packing.py:34-64 | against any other best fill, at the largest size where the two differ the walk's has more boxes |
| `FewestBoxes.TakesFewestIffNoShortcut` | app/tools/cargo_packing.py:34-64 | the mix returned has the fewest boxes at every hold if and only if, at the holds below the largest size times its successor, putting one box aside and walking the rest never saves a box |
| `FewestBoxes.MixHasWalksBoxes` | app/tools/cargo_packing.py:55-64 | whatever mix meets the description of the one returned counts exactly as many boxes as the walk takes |
| `FewestBoxes.NestedTakesFewest` | app/tools/cargo_packing.py:48-50 | with sizes of which the smaller always divides the larger, no best fill of any hold has fewer boxes than the walk |
| `FewestBoxes.NestedIsFewestAt` | app/tools/cargo_packing.py:34-64 | nor than the mix returned |
| `FewestBoxes.NestingIsNotNecessary` | app/tools/cargo_packing.py:48-50 | sizes 1, 2 and 3 do not divide each other and still never take a box too many |
| `FewestBoxes.WalkCanTakeMoreBoxes` | app/tools/cargo_packing.py:48-50 | with the sizes 8, 24 and 32 and a hold of 48 another best fill has fewer boxes than the mix returned |
| `FewestBoxes.UseLargest` | app/tools/cargo_packing.py:34-64 | a fill of at least the largest size squared can be rebuilt with a box of that size, the same total and no more boxes |
| `CargoPacking.FollowedIsWalk` | app/tools/cargo_packing.py:55-64 | following a correct table of choices is such a walk; passing over a hold happens only when nothing is left to pack |
| `CargoPacking.TallyTallies` | app/tools/cargo_packing.py:55-63 | the mix lists exactly the sizes taken, each with how often it was taken |
| `CargoPacking.UsableContainerSizes` | app/tools/cargo_packing.py:9-12 | strictly ascending, and exactly the sizes both terminals have |
| `CargoPacking.UsableContainerSizesIsUnique` | app/tools/cargo_packing.py:9-12 | no other strictly ascending list has those sizes |
| `CargoPacking.LoadCeiling` | app/tools/cargo_packing.py:77-85 | exactly the loads up to it fit both terminals' stock and a known, nonzero hold |
| `CargoPacking.ReachableScu` | app/tools/cargo_packing.py:77-89 | without common sizes the load ceiling itself, otherwise the greatest total those sizes pack within it |
| `ContainerSizes.FormatParseRoundTrip` | app/tools/cargo_packing.py:67-74 | parsing the formatted sizes gives back the same sizes in ascending order, for any list of integers |
| `ContainerSizes.SizesParseIff` | app/tools/cargo_packing.py:67-70 | comma-separated texts parse to given sizes if and only if those that are not empty spell them out in order |
| `ContainerSizes.PartsParseIff` | app/tools/cargo_packing.py:70 | the same of the parts, and any other part fails the whole |
| `ContainerSizes.FormatIsCommaSeparated` | app/tools/cargo_packing.py:73-74 | what is stored splits at its commas into the sorted sizes' texts |
| `DecimalText.ParseIntText` | app/tools/cargo_packing.py:67-74 | int(str(n)) is n for every integer, signs included |
| `DecimalText.ParseIntIff` | app/tools/cargo_packing.py:70 | int(text) is n if and only if text is space, a sign or none, digits with single underscores between them that make n, and space |
| `DecimalText.IntTextIsCanonical` | app/tools/cargo_packing.py:74 | str(n) is a minus sign exactly on the negative and digits without a leading zero |
| `DecimalText.SplitJoin` | app/hotas.py:40-60 | splitting a joined list on its separator gives the parts back, with or without a limit on the splits |
| `DecimalText.JoinSplit` | app/hotas.py:54 | joining a split gives the text back, and no part has the separator but a last one that was out of splits |
| `DecimalText.NatTextInjective` | app/server/tool_call_ids.py:27 | different numbers have different decimal texts |
| `Hotas.ParseToText` | app/hotas.py:40-60 | parse(to_string(b)) is b if and only if the guid has no colon; the name may have any |
| `Hotas.ColonInGuidIsLost` | app/hotas.py:40-60 | a guid of a:b does not come back |
| `Hotas.ReprintParses` | app/hotas.py:50-60 | any text that parses re-prints to a text that parses to the same binding, even when the two texts differ |
| `Hotas.ParseIff` | app/hotas.py:50-60 | a text parses to a binding if and only if it has that guid, numbers and name in their places, the name and its colon optional when empty |
| `Hotas.TextOf` | app/hotas.py:40-41 | the stored text, part by part |
| `TradeRunStore.FirstUnsetIsFirst` | app/db/trade_run_store.py:56-57 | the field found is unset and every field before it is set; none is found only when all are set |
| `TradeRunStore.NextUnsetFieldCases` | app/db/trade_run_store.py:22-57 | the next step of a leg by leg type and transfer type, for all three sequences |
| `LedgerTables.Round` | app/server/ledger_service.py:46-86 | Python's round: within a half, and a tie goes to the even integer |
| `LedgerService.Ledger.constructor` | app/server/ledger_service.py:46-86 | the empty tables are valid |
| `LedgerService.Ledger.CreateRunFromRoute` | app/server/ledger_service.py:46-86 | leaves the tables and answer specified: a run, a started acquisition leg and an unstarted sale leg of one owner, or a conflict and no change |
| `LedgerService.Ledger.AdvanceLeg` | app/server/ledger_service.py:112-139 | stamps the first unset milestone of the leg's current sequence, refuses at the transaction and when done, and on finalizing starts the other leg once |
| `LedgerTheorems.RecordedTransactionCounts` | app/server/ledger_service.py:142-215 | an accepted purchase becomes the run's investment and an accepted sale its revenue, at quantity times price, with the fee joining the run's fees |
| `LedgerService.StepKeepsPromises` | app/server/ledger_service.py:24-330 | what every method promises beside its answer: finalized runs are kept and other pilots' rows untouched |
| `LedgerService.Ledger.OtherLegs` | app/server/ledger_service.py:127-136 | the query for the leg's siblings finds exactly one |
| `LedgerService.Ledger.RecordPurchase` | app/server/ledger_service.py:160-192 | only an acquisition leg, only once; the bought quantity carries to a sale leg not yet sold |
| `LedgerService.Ledger.RecordSale` | app/server/ledger_service.py:195-215 | only a sale leg, only once; a cargo not yet transferred counts as transferred with the sale |
| `LedgerService.Ledger.UpdateTransaction` | app/server/ledger_service.py:218-256 | sets just the given figures, refuses negative ones and any edit of a finalized run, in the order the code checks; a done leg stays done and a pending one pending |
| `LedgerService.Ledger.FinalizeRun` | app/server/ledger_service.py:259-275 | refuses while any leg of the run has a step left, otherwise stamps the run |
| `LedgerService.Ledger.WriteOffRun` | app/server/ledger_service.py:278-321 | refuses without a purchase or with a sale, otherwise zeroes the sale, closes both legs without moving set milestones, and stamps the run |
| `LedgerService.Ledger.Close` | app/server/ledger_service.py:308-318 | fills the unset milestones and start of a leg and leaves set ones alone |
| `LedgerService.Ledger.DeleteRun` | app/server/ledger_service.py:324-330 | the owner's run goes with all its legs, nothing else does |
| `LedgerService.Ledger.Handle` | app/server/routes/ledger.py:68-75 | whichever of the requests comes in, the tables and the answer are the specified ones |
| `LedgerInvariants.AdvanceEffect` | app/server/ledger_service.py:112-139 | which rows an advance touches: its own leg, and the start of the one other leg when it finalizes |
| `LedgerInvariants.PurchaseEffect` | app/server/ledger_service.py:160-192 | which rows a purchase touches: its own leg, and the planned quantity of the one sale leg while unsold |
| `LedgerInvariants.WriteOffEffect` | app/server/ledger_service.py:278-321 | what a write-off leaves of the run and of exactly its two legs |
| `LedgerInvariants.CreateKeepsValid` | app/server/ledger_service.py:46-86 | a new run keeps the invariant |
| `LedgerInvariants.DeleteKeepsValid` | app/server/ledger_service.py:324-330 | a deletion leaves no leg without its run and no run without its legs |
| `LedgerInvariants.FinalizeKeepsValid` | app/server/ledger_service.py:259-275 | after finalizing, every leg of the finalized run is finalized |
| `LedgerInvariants.StepKeepsValid` | app/server/ledger_service.py:39-330 | every request by anyone keeps: a run has exactly one acquisition and one sale leg of its owner; a finalized run's legs are finalized; a finalized leg has every milestone; a sold leg has been transferred |
| `LedgerInvariants.AlwaysValid` | app/server/ledger_service.py:39-330 | so does any sequence of requests |
| `LedgerTheorems.FrozenStep` | app/server/ledger_service.py:112-321 | no request but the run's deletion changes anything in a finalized run but its finalization time, of which the next row says exactly when |
| `LedgerTheorems.RestampedIffFinalizedAgain` | app/server/ledger_service.py:259-275 | the finalization time of a finalized run changes if and only if its owner finalizes it again at another time |
| `LedgerTheorems.FinalizedTwice` | app/server/ledger_service.py:46-321 | a run created, bought, written off and finalized once more: its finalization time moves |
| `LedgerTheorems.FrozenRun` | app/server/ledger_service.py:112-321 | and no sequence of requests does |
| `LedgerTheorems.FrozenProfit` | app/db/trade_run_store.py:135-148 | a finalized run's profit never changes, in whatever order its legs are listed before and after |
| `LedgerTheorems.WrittenOffLoss` | app/server/ledger_service.py:278-321 | a written-off run's profit is minus its investment and fees for ever after, and the investment is what was bought |
| `LedgerHistory.WrittenOffForGood` | app/server/ledger_service.py:278-321 | after any later requests that do not delete the run: the sale stands at quantity, price and fee zero, the purchase's figures and every time set before are as they were, and the run has lost exactly the investment before the write-off and the purchase's own fee |
| `LedgerTheorems.EditKeepsDone` | app/server/ledger_service.py:218-256 | an edit leaves a done leg done and a pending leg pending, even when it switches the leg to another milestone sequence |
| `LedgerTheorems.AlwaysInOrder` | app/db/trade_run_store.py:48-57 | while transactions are only asked for on reached legs, each leg's set milestones stay a prefix of its sequence through any requests, edits of the transfer type included |
| `LedgerTheorems.OrderedStep` | app/server/ledger_service.py:112-321 | the same for one request |
| `LedgerTheorems.RecordingKeepsOrderIffReached` | app/server/ledger_service.py:160-215 | an accepted purchase or sale keeps its leg in order if and only if the leg was reached |
| `LedgerTheorems.StepInOrderIffReached` | app/server/ledger_service.py:112-321 | any one request leaves all legs in order if and only if it is no accepted recording on a leg not yet reached |
| `LedgerTheorems.InOrderThroughoutIffReached` | app/server/ledger_service.py:112-321 | all legs are in order after every prefix of a run of requests if and only if every accepted recording in it found its leg reached |
| `LedgerTheorems.ThroughoutIsEveryPrefix` | app/server/ledger_service.py:112-321 | being in order throughout a run is being in order after each of its prefixes |
| `LedgerTheorems.UnreachedPurchaseIsOutOfOrder` | app/server/ledger_service.py:46-192 | a purchase recorded right after creation is accepted and leaves its leg out of order |
| `LedgerIsolation.OthersUntouched` | app/server/ledger_service.py:24-139 | a request leaves every run and leg of every other pilot as it was, the writes to sibling legs included |
| `LedgerIsolation.OwnStepOnView` | app/server/ledger_service.py:24-43 | what a pilot's request does and answers depends on that pilot's rows alone |
| `LedgerIsolation.PilotsAreIsolated` | app/server/ledger_service.py:24-330 | after any interleaving of requests, a pilot's rows and all the pilot's answers are those of the pilot's own requests run alone |
| `LedgerClient.AdvanceLowersUnset` | app/ledger_client.py:65-73 | each advance sets exactly one more milestone |
| `LedgerClient.AdvanceOnce` | app/ledger_client.py:65-73 | away from the transaction step an advance of one's own leg is never refused and changes no run |
| `LedgerClient.AdvanceOnView` | app/ledger_client.py:58-62 | among the rows the pilot owns an advance does what it would do alone, is accepted exactly when the server's leg is there with a milestone to stamp before or after its transaction, and is otherwise refused with the reason and no change |
| `LedgerClient.OthersUntouchedByAll` | app/server/ledger_service.py:39-330 | no sequence of other pilots' requests changes anything the pilot owns |
| `LedgerHistory.LegStep` | app/server/ledger_service.py:112-321 | what any request by anyone leaves of a leg, field by field: each figure is what the request gives or what it was, each time is the request's own if that stamps it or what it was, and a refused request changes nothing |
| `LedgerHistory.RowsStep` | app/server/ledger_service.py:39-330 | accepted creations add a run and two legs, accepted deletions remove a run with its legs, and no request changes a run's row but for its finalization time |
| `LedgerHistory.AnswerMeans` | app/server/ledger_service.py:24-330 | each answer has one meaning: not found is a missing or foreign row, each refusal is given if and only if its reason holds and none before it, nothing changes unless accepted, and an accepted answer is the row as stored |
| `LedgerHistory.OtherRunsUntouched` | app/server/ledger_service.py:39-330 | a request changes no row of any run but the one it is about, the same pilot's other runs included |
| `LedgerHistory.WrittenOnce` | app/server/ledger_service.py:39-330 | over any requests that do not delete its run, no start or milestone of a leg that was set ever changes, nor does its owner, place or commodity |
| `LedgerHistory.CreatedPlan` | app/server/ledger_service.py:46-86 | a new run buys at the origin and sells at the destination at prices rounded to the nearest integer, with the transfer types of the two ends, its purchase started and its sale not; its profit is the plan's |
| `LedgerHistory.CreatedRow` | app/server/ledger_service.py:74-78 | the stored container sizes parse back to exactly those both terminals have |
| `LedgerHistory.StepSetsOff` | app/server/ledger_service.py:127-136 | every request keeps: purchases are started, and so is the other leg of a finalized one |
| `LedgerHistory.AlwaysSetOff` | app/server/ledger_service.py:127-136 | so does any sequence of requests |
| `LedgerClient.CatchUpBeforeTransaction` | app/ledger_client.py:65-73 | the copy it starts from may be out of date, and any requests of other pilots come between its own: it raises if and only if its copy has something to catch up and the server's leg is gone, at its transaction or done, and then changes nothing of the pilot's; otherwise, from a leg without a transaction it stops exactly at the transaction step and touches that leg alone, and from one with a transaction it ends with the leg finalized |
| `TravelTime.CoveredIntegratesSpeed` | app/tools/travel_time.py:80-118 | over any interval the distance lies between the rectangles of its end speeds, so the distance formula is the integral of the speed |
| `TravelTime.TripIntegratesSpeed` | app/tools/travel_time.py:80-118 | over any part of the whole trip, slowing down included, the distance is the integral of the speed: it lies within the time times any bounds on the speed |
| `TravelTime.TripEnds` | app/tools/travel_time.py:80-118 | the trip starts and ends at rest, never exceeds the top speed, and covers in the end what the profile says |
| `TravelTime.ProfileIsExact` | app/tools/travel_time.py:92-118 | flying the two-stage profile up and mirrored down for the returned time covers exactly the distance |
| `TravelTime.ProfileTimeIsUnique` | app/tools/travel_time.py:92-118 | and it is the only such time |
| `TravelTime.QtCruiseIsExact` | app/tools/travel_time.py:80-118 | the same for a ship, whose engage speed is capped at its top speed |
| `TravelTime.QtCruiseFliesTheDrive` | app/tools/travel_time.py:80-118 | on the ship's own data: accelerating at stage one's rate up to the engage speed or the top, at stage two's up to the top, and mirrored back, the speed integrated over the returned time is the distance; without the data it is flown at quantum speed |
| `TravelTime.QtCruiseIncreases` | app/tools/travel_time.py:80-118 | a longer distance takes strictly longer, across all the branches |
| `TravelTime.QtCruiseNotFasterThanTop` | app/tools/travel_time.py:80-118 | never less time than the distance at top speed |
| `TravelTime.QtCruiseIsContinuous` | app/tools/travel_time.py:80-118 | the time is continuous in the distance everywhere, so at both switch points |
| `TripBuilding.FlightIsExact` | app/tools/travel_time.py:121-154 | the trapezoid or triangle flight keeps to the ship's acceleration limits, never exceeds its maximum speed and covers exactly its distance |
| `TripBuilding.FlightIntegratesSpeed` | app/tools/travel_time.py:137-154 | over any part of an approach, braking included, the distance is the integral of the speed |
| `TripBuilding.FlightEnds` | app/tools/travel_time.py:137-154 | an approach begins and ends at rest and covers its distance |
| `TripBuilding.ApproachIsExact` | app/tools/travel_time.py:121-154 | on the ship's own data: the returned seconds are those of a flight with its ramp times and top speed over exactly the distance, and the burn is the main rate over the time speeding up and the retro rate over the time slowing down; without the curve, SCM speed and a burn unknown |
| `TripBuilding.FlightSwitch` | app/tools/travel_time.py:137-147 | where the triangle meets the trapezoid its peak is the maximum speed |
| `TripBuilding.HopAddsItsLength` | app/tools/travel_time.py:182-196 | however a hop is split, jump and approach add up to its length, if and only if the arrival radius is not both negative and below the distance; otherwise to more |
| `TripBuilding.NegativeRadiusAddsTooMuch` | app/tools/travel_time.py:182-196 | a hop of one metre with an arrival radius of minus one adds two |
| `TripBuilding.TripDistance` | app/tools/travel_time.py:157-222 | a trip's distance is at least the sum of its hops' lengths, and equal to it if and only if no hop overshoots |
| `TripBuilding.HydrogenUnknown` | app/tools/travel_time.py:173-196 | the trip's hydrogen is unknown if and only if some hop burns an unknown amount |
| `TripBuilding.TripBuilder.AddJump` | app/tools/travel_time.py:169-171 | adds the jump's length and, besides the spool, just the time in which the ship covers that length |
| `TripBuilding.TripBuilder.AddApproach` | app/tools/travel_time.py:173-180 | adds the approach's length, and the time and the burn of such a flight over it; the hydrogen stays known exactly while every burn is |
| `TripBuilding.TripBuilder.AddHop` | app/tools/travel_time.py:182-196 | a hop within its arrival radius is flown without a jump, any other spools one jump as far as the radius, and the rest is an approach; adds the hop's own length if and only if the hop does not overshoot; the hydrogen stays known exactly while no burn is unknown |
| `TripBuilding.TripBuilder.Build` | app/tools/travel_time.py:198-222 | totals are the sums of the parts; fuel and percentages are given exactly when the ship's data allow, in proportion |
| `Limits.RateLimiter.RetryAfterS` | app/server/limits.py:14-34 | for any limit and window: the key's deque is its history of allowed events less those that had left the window; allowed exactly when fewer than the limit are within it; other keys are untouched; and afterwards, for every key and every start, no half-open interval as long as the window holds more than the limit |
| `Limits.PoppedIsRecent` | app/server/limits.py:27-28 | popping old events from the front of the deque is filtering the whole of it |
| `Limits.RecentLater` | app/server/limits.py:27-28 | forgetting events early never changes a later answer |
| `Limits.AllowedKeepsSpacing` | app/server/limits.py:27-34 | the guard keeps any limit-plus-one successive allowed events at least a window apart |
| `Limits.AtMostPerWindow` | app/server/limits.py:14-34 | any half-open interval as long as the window, wherever it starts, holds at most the limit |
| `Limits.RetryDelayIsExact` | app/server/limits.py:29-32 | without other calls, a call is allowed if and only if it comes at least the returned delay later, and the delay is positive |
| `PilotLogin.ApplyKeepsInvariant` | app/auth/discord_identity.py:241-260 | every stretch of code keeps the lock, the cache and each request's progress consistent |
| `PilotLogin.InvariantHolds` | app/auth/session_auth.py:31-43 | after any interleaving of requests and outside logins |
| `PilotLogin.OneLoginPerRejection` | app/auth/discord_identity.py:241-260 | at most one re-login runs at a time, at most one succeeds per rejected token or absence of one, and a request is sent once or twice |
| `PilotLogin.LaterWaitersReuse` | app/auth/discord_identity.py:245-249 | once a rejected token was renewed, every later holder of the lock with it is sent again with a newer cached token, without a login |
| `PilotLogin.RenewedStays` | app/auth/discord_identity.py:241-260 | and that stays so in every later state |
| `PilotLogin.WaitersCanProceed` | app/auth/discord_identity.py:241-260 | no deadlock: a waiting request can take the lock, or its holder can move |
| `PilotHistory.RequestHistory` | app/auth/session_auth.py:31-43 | in any run a request is done if and only if it was answered with anything but a 401; it waits, holds the lock, logs in, was sent again or has failed if and only if it was answered with one, for the token cached when it was sent; what it is sent again with is another |
| `PilotHistory.RenewalHistory` | app/auth/discord_identity.py:241-260 | every renewal is of a token that some request, rejected before, was sent with, and there are as many as successful re-logins |
| `PilotHistory.LoginEnds` | app/auth/discord_identity.py:241-260 | a rejected request's own login can succeed with any fresh token, and then renews just what was rejected, or fail |
| `PilotHistory.LoginElsewhere` | app/auth/discord_identity.py:245-249 | or a login elsewhere comes first and its token is used without another |
| `PilotSessions.Sessions.constructor` | app/auth/discord_identity.py:64-68 | starts with the given cache, a free lock and no requests |
| `PilotSessions.Sessions.Send` | app/auth/session_auth.py:31-37 | a request goes out with the cached token; one login per rejection still holds |
| `PilotSessions.Sessions.Receive` | app/auth/session_auth.py:38-43 | a request answered with a 401 waits to renew the token it was sent with, any other answer ends the flow; nothing else changes |
| `PilotSessions.Sessions.TakeLock` | app/auth/discord_identity.py:245 | the lock goes to a request that waits for it, and no other is past it |
| `PilotSessions.Sessions.LookAtCache` | app/auth/discord_identity.py:247-249 | a cached token that differs from the rejected one is used as it is, and only then; in particular whenever the rejected one has been renewed |
| `PilotSessions.Sessions.FinishLogin` | app/auth/discord_identity.py:172-201 | a fresh token replaces the cached one and goes out with the request, for a rejection never renewed before |
| `PilotSessions.Sessions.AbandonLogin` | app/auth/discord_identity.py:241-260 | a failed login frees the lock and changes no token |
| `PilotSessions.Sessions.LogInOutside` | app/auth/discord_identity.py:172-201 | a login from elsewhere replaces the cached token at any time, and what was renewed stays renewed by a newer token |
| `UexBudget.Budget.Spend` | app/server/uex_budget.py:38-59 | accepted exactly when the day's total stays within limit less margin; the count is the sum of accepted calls; a refusal changes nothing, other days are untouched, and what remains falls by what was accepted |
| `UexBudget.Budget.RemainingOn` | app/server/uex_budget.py:34-35 | a spend of one or more calls fits that day if and only if it is no more than this |
| `RoutePrefetch.DueTerminals` | app/server/uex_route_prefetch.py:49-60 | the terminals not fetched recently enough, in the cache's order |
| `RoutePrefetch.DueCounts` | app/server/uex_route_prefetch.py:55-60 | each terminal never fetched, or fetched no later than the given time ago, as often as the cache lists it, and no other |
| `RoutePrefetch.DueInOrder` | app/server/uex_route_prefetch.py:55-60 | in the order of the cache |
| `RoutePrefetch.ApplyKeepsInvariant` | app/server/uex_route_prefetch.py:62-95 | every step keeps at most five tasks inside the semaphore, and those cleared to spend plus those that have spent late within five |
| `RoutePrefetch.RoundIsBounded` | app/server/uex_route_prefetch.py:62-95 | in any interleaving with any pilot calls, at most five calls are spent after the rest of the day has dropped to the reserve, each attempt spends at most one, and the day's count is the sum of all accepted calls |
| `RoutePrefetch.AttemptedAsListed` | app/server/uex_route_prefetch.py:49-86 | a round attempts only due terminals, and none more often than the cache lists it |
| `RoutePrefetch.AttemptedOnceIffListedOnce` | app/server/uex_route_prefetch.py:55-86 | every run attempts a terminal at most once if and only if it is due no more than once or the rest of the day is at the reserve from the start |
| `RoutePrefetch.NothingAtReserve` | app/server/uex_route_prefetch.py:66-73 | from a state at the reserve no run attempts anything more |
| `RoutePrefetch.FinishedRound` | app/server/uex_route_prefetch.py:62-95 | a finished round that was not stopped has attempted every due terminal, each as often as it is due, even when fetches fail before spending a call |
| `PrefetchHistory.RecordsTally` | app/server/uex_route_prefetch.py:62-95 | every record of a round is the tally of its events: fetches begun with more than the reserve left, calls counted within the cap, terminals refreshed, and stopped exactly by a reading at the reserve or a refused call without old rows |
| `PrefetchHistory.RoundTallied` | app/server/uex_route_prefetch.py:62-95 | said of the events alone: at most five calls are counted once the rest of the day is down to the reserve, and no task's twice |
| `PrefetchHistory.ReserveSpentExactly` | app/server/uex_route_prefetch.py:62-95 | of a reserve that the round started above, some run spends n calls if and only if n is at most five and at most the reserve, for any n up to the number of due terminals |
| `PrefetchHistory.NoneBeginsAfterStop` | app/server/uex_route_prefetch.py:67-69 | a task still waiting when the round stops never begins a fetch |
| `PrefetchHistory.TaskEnds` | app/server/uex_route_prefetch.py:70-86 | a finished task that read the reserve has stopped the round, one whose call was counted has ended its fetch, and one refused its call has looked for old rows or failed |
| `PrefetchHistory.RoundEnds` | app/server/uex_route_prefetch.py:62-95 | no deadlock and no endless round: at most four events for each due terminal, and some task can go on until all are done |
| `PrefetchHistory.RefusalHappens` | app/server/uex_route_prefetch.py:62-95 | in any round that starts above the reserve any task can still be refused its call, and find old rows, find none and stop the round, or fail |
| `LlmGateway.ApplyKeepsInvariant` | app/server/llm_gateway_service.py:187-298 | every step keeps the accounts below |
| `LlmGateway.GatewayAccounts` | app/server/llm_gateway_service.py:187-298 | in-flight is the number of heket answers still streaming; each finished answer attempts one usage row and no other does; a hosted call implies a fallback is configured, heket sent no bytes and the spend just read was under the cap |
| `GatewayRuns.HostedCallHistory` | app/server/llm_gateway_service.py:187-219 | in any run every hosted call was preceded by its reason, in the state of that moment (heket known down, an overflow that found budget, or heket's own failure), and after it by a reading of the day's spend below the cap |
| `GatewayRouting.ArrivalRouted` | app/server/llm_gateway_service.py:160-206 | for thirty seconds after heket's last failure, or until the probe finds it up, a request is not sent there and falls back for that very reason; at any other time it is sent below the in-flight limit |
| `GatewayRouting.BenchedIsNeverSent` | app/server/llm_gateway_service.py:160-219 | and whatever happens afterwards such a request stays off heket |
| `GatewayRouting.NoBackendHistory` | app/server/llm_gateway_service.py:208-216 | a request is left without a backend only if heket did not take it and either no provider is configured or the day's budget was then read used up |
| `GatewayRouting.RequestEnds` | app/server/llm_gateway_service.py:187-298 | no request is stuck: it can always go on and is over after at most five events of its own |
| `GatewayRouting.AnyReasonCanBePaid` | app/server/llm_gateway_service.py:187-219 | each of heket's three failures and each of the probe's verdicts can lead to a paid call for that reason |
| `GatewayRuns.SpentOverflowIsQueued` | app/server/llm_gateway_service.py:196-206 | in any run an overflow that found the budget spent is never paid for unless heket failed it afterwards |
| `GatewayRuns.InflightIsBounded` | app/server/llm_gateway_service.py:160-284 | with at most k requests on their way to heket at any point, and no overflow finding the budget spent, in-flight never exceeds the limit less one plus k |
| `GatewayRuns.InflightBoundIsReached` | app/server/llm_gateway_service.py:160-284 | that bound is reached, for every limit and every k |
| `GatewayRuns.SpentOverflowsPassAnyBound` | app/server/llm_gateway_service.py:196-206 | with a daily cap, overflows queued on a spent budget take in-flight to any number with never more than one request on its way |
| `GatewayRuns.LimitHoldsIffOneAtATimeUncapped` | app/server/llm_gateway_service.py:160-284 | the limit holds over all runs with at most k requests on their way if and only if k is one and there is no daily cap |
| `GatewayRuns.InflightHasNoBound` | app/server/llm_gateway_service.py:160-284 | without such a k, some run takes the in-flight count to any number |
| `HistoryWindow.HumanPositions` | app/graph.py:354-378 | the indices of the human messages, each in order |
| `HistoryWindow.StubFrom` | app/graph.py:354-378 | the suffix with tool results before the cut-off stubbed |
| `HistoryWindow.WindowedHistory` | app/graph.py:354-378 | the index loops compute the window defined by counting turns from the end |
| `HistoryWindow.WindowIsStubbedSuffix` | app/graph.py:354-378 | the window is a suffix, message for message, with only tool results of older turns stubbed; when it cuts it starts at a human message |
| `HistoryWindow.WindowExactly` | app/graph.py:354-378 | message by message: switched off it changes nothing; otherwise the messages from the first wanted turn on are as they were, but for the contents of tool results from before the last full turns, which keep their ids |
| `HistoryWindow.WindowTurns` | app/graph.py:354-378 | it has exactly as many turns as asked for, or all there are |
| `HistoryWindow.WindowKeepsPairs` | app/graph.py:354-378 | if each tool result follows its call within a turn, so it does in the window |
| `HistoryWindow.WindowsCompose` | app/graph.py:354-378 | a larger window and then a smaller one give the smaller one |
| `HistoryWindow.WindowIsIdempotent` | app/graph.py:354-378 | windowing twice is windowing once, for every setting |
| `ToolCallIds.NameCalls` | app/server/tool_call_ids.py:25-29 | missing ids are made from the message and call positions, given ones kept |
| `ToolCallIds.WithToolCallIds` | app/server/tool_call_ids.py:16-36 | the loop over a list of pending ids computes the pairing |
| `ToolCallIds.PairingKeepsMessages` | app/server/tool_call_ids.py:16-36 | pairing changes nothing but missing ids |
| `ToolCallIds.CallIdInjective` | app/server/tool_call_ids.py:27 | made-up ids of different positions differ |
| `ToolCallIds.FreshIdsAreDistinct` | app/server/tool_call_ids.py:16-36 | in an id-free history all calls get different ids |
| `ToolCallIds.PairingMatches` | app/server/tool_call_ids.py:16-36 | with each assistant message's k calls followed by k results, the j-th result gets the j-th call's id |
| `ToolCallIds.ResultsAnswerOldest` | app/server/tool_call_ids.py:30-35 | in any history, with ids present anywhere: a result without one gets the id of the oldest of the last calls that no result before it carries, or stays without |
| `ToolCallIds.CallIdParts` | app/server/tool_call_ids.py:27 | a made-up id is the word call, the message's position and the call's |
| `AnthropicFallback.AssistantBlocks` | app/server/anthropic_fallback.py:99-108 | text first, then one tool use per call |
| `AnthropicFallback.AddMessage` | app/server/anthropic_fallback.py:82-111 | a message joins the last turn of its role or opens a new one; system text is set aside |
| `AnthropicFallback.AnthropicMessages` | app/server/anthropic_fallback.py:65-111 | the message list and system parts of a whole history |
| `AnthropicFallback.RolesAlternate` | app/server/anthropic_fallback.py:82-88 | no two neighbouring turns have the same role, for any history |
| `AnthropicFallback.BlocksKept` | app/server/anthropic_fallback.py:82-111 | merging loses, adds and reorders no block and changes no block's role |
| `AnthropicFallback.RequestReadsBack` | app/server/anthropic_fallback.py:65-111 | read back, the turns say, call and answer exactly what the paired conversation does, in order and under the same roles, each call with its own id, name and arguments |
| `AnthropicFallback.SystemPartsCount` | app/server/anthropic_fallback.py:93-95 | the system prompt has each system message's text, unless empty, as often as it comes |
| `AnthropicFallback.SystemPartsInOrder` | app/server/anthropic_fallback.py:93-95 | in their order |
| `AnthropicFallback.MatchedIsAnswered` | app/server/anthropic_fallback.py:90-111 | when results carry their calls' ids, the results in each turn answer the uses of the turn before, all of them and in order |
| `AnthropicFallback.RequestIsWellFormed` | app/server/anthropic_fallback.py:65-111 | for an id-free history with every call answered: roles alternate, and each turn with tool uses is an assistant turn answered by the next, a user turn |
| `ThirdPartyNotices.ResolveInstalled` | packaging/third_party_notices.py:95-121 | terminates; on success gives exactly the packages reachable from the roots through installed ones along true markers, and fails only at a reachable name that must be installed and is not |
| `ThirdPartyNotices.PursuedChildren` | packaging/third_party_notices.py:116-120 | exactly the requirements whose marker holds or that have none |
| `ThirdPartyNotices.ChainHandled` | packaging/third_party_notices.py:101-121 | once the stack is empty, the end of every dependency chain from a root has been dealt with |
| `ThirdPartyNotices.OrderDoesNotMatter` | packaging/third_party_notices.py:95-121 | what is reachable, and what stops the build, does not depend on the order of roots or dependencies |
| `ThirdPartyNotices.ClosureIsLeast` | packaging/third_party_notices.py:95-121 | what is found is the least set that has every installed and shipped root and, with each member, every such dependency without a marker or with a true one |
| `ThirdPartyNotices.MissingIsNeeded` | packaging/third_party_notices.py:106-114 | the name that stops the build is not installed, not exempt, and asked for by a root or a member |
| `ThirdPartyNotices.NeededStopsBuild` | packaging/third_party_notices.py:106-114 | and every such name stops it |
| `UexLookup.Invert` | app/overlay/uex_lookup.py:73-86 | the reverse index is the exact inverse |
| `UexLookup.InverseOfInverse` | app/overlay/uex_lookup.py:73-86 | inverting twice gives the index back less its empty entries |
| `UexLookup.Union` | app/overlay/uex_lookup.py:106-110 | exactly what some of the keys lists |
| `UexLookup.Index.SetReachability` | app/overlay/uex_lookup.py:73-86 | all four indexes are replaced together, each pair inverse to each other |
| `UexLookup.Index.CommoditiesOfferedAt` | app/overlay/uex_lookup.py:113-117 | what any of the terminals offers, or unknown before the first load |
| `UexLookup.Index.CommoditiesAcceptedAt` | app/overlay/uex_lookup.py:120-121 | what any of the terminals accepts, or unknown before the first load |
| `UexLookup.Index.TerminalsSelling` | app/overlay/uex_lookup.py:124-125 | asked of the reverse index: the terminals that offer one of the commodities |
| `UexLookup.Index.TerminalsBuying` | app/overlay/uex_lookup.py:128-129 | and those that accept one |
| `RouteSearch.SearchSelects` | app/overlay/uex_lookup.py:421-511 | the chain of filters is one selection of the wanted rows, in order |
| `RouteSearch.SelectedServeBothEnds` | app/overlay/uex_lookup.py:421-511 | a row is selected if and only if both of its ends serve: a pinned end need only be that terminal and tradeable, an open one must also be in scope and have the wanted facilities |
| `RouteSearch.SameSelected` | app/overlay/uex_lookup.py:376-392 | two fan-outs that agree on the commodities with wanted rows find the same multiset of routes |
| `RouteSearch.FanOutFindsEverything` | app/overlay/uex_lookup.py:376-511 | when the index covers the tradeable rows, a search that fans out through it finds the same multiset of routes as filtering every commodity's rows |
| `RouteSearch.FanOutFindsEverythingIff` | app/overlay/uex_lookup.py:376-511 | for each query, the search finds that multiset if and only if every commodity with a wanted row is looked up, which a covering index ensures |
| `RouteSearch.MissedCommodity` | app/overlay/uex_lookup.py:376-511 | a commodity with a wanted row that is not looked up costs routes |
| `RouteSearch.CommodityIdsAtAny` | app/overlay/uex_lookup.py:376-392 | the commodities of the index, or of the requests made while there is none |
| `RouteSearch.SearchRoutes` | app/overlay/uex_lookup.py:421-511 | the whole search: the wanted rows of a given commodity; with only a side given, in whatever order the lookup's set is fetched, the same multiset of routes as filtering every commodity's rows, if and only if what the index or the fetches list reaches every commodity with a wanted row; nothing without either |
| `RouteRanking.FindBestRoute` | app/tools/route_ranking.py:227-302 | the one pass over the candidates returns the first and second of their ranking, figures and all |
| `RouteRanking.RankedIsStableSort` | app/tools/route_ranking.py:227-302 | that ranking is a permutation of the qualifying candidates in descending score, ties in their original order |
| `RouteRanking.RankedTopTwo` | app/tools/route_ranking.py:227-284 | among the candidates themselves: the best has the highest profit, or rate, of all that qualify and is the earliest with it, and the runner-up is that among the others |
| `RouteRanking.InsertLastTopTwo` | app/tools/route_ranking.py:277-284 | how one more candidate changes the best two: strictly better only, the old best moving down |
| `RouteRanking.SplitCached` | app/tools/route_ranking.py:77-84 | the cached origins' rows in order, and the origins that are not cached |
| `RouteRanking.RowsByOrigin` | app/tools/route_ranking.py:77-84 | rows come origin by origin, in the order of the origins |
| `RouteRanking.UncachedInOrder` | app/tools/route_ranking.py:77-84 | and so do the origins without rows |
| `RouteRanking.CollectLive` | app/tools/route_ranking.py:90-101 | rows of the calls that succeeded, how many did, and the ones that failed |
| `RouteRanking.ToFetch` | app/tools/route_ranking.py:86 | the first of the uncached origins, at most eight and all of them if there are fewer |
| `RouteRanking.RouteRowsFor` | app/tools/route_ranking.py:62-105 | rows of every cached origin and of the successful live fetches, and the number of origins they came from; a failure, the first, is reported only when there are no rows at all |

## Left out

Ledger:

- Database rows are values in map fields, not shared objects: each request loads its own copies and commits
  them in one atomic step, so races between two transactions on one row are not modelled.
- One time per request stands for the several clock readings of one; ids come from outside and one already
  taken answers a conflict; a leg's `created_at`, `ordered_legs`, `current_leg` and the listing queries
  would only add easy members.
- The 32-bit width of the integer columns, whose overflow the database rejects.
- Other requests of the same pilot between those of one catch-up; other pilots' are there.
- The branches of a write-off or an advance for a run without its legs, which the invariant excludes, are
  kept in the specification and not repeated in the methods.

Numbers and text:

- Reals replace floating point, and the square root is a parameter with its defining property; ship data
  are taken as positive where the code divides by them.
- `DecimalText.ParseIntText`: ASCII only, without Unicode digits and spaces and Python's limit on the
  length of an integer's text.
- The transfer-time and travel-time estimates that combine these profiles, and all spoken formatting.

Guards and protocols:

- The daily counter, which would only add easy members.
- The login protocol has no sign-out and no unreadable cache file, and every login issues a new token.
- A prefetch round lies within one UTC day, and a fetch spends one call.
- The prefetch and the gateway are step machines on values; the login is one with a class beside it.
- The gateway's payloads, roles, prices and streams' contents, the failure of a usage row and of closing a
  stream.

Conversations:

- The Claude request's other fields (options, tools, schemas) and the decoding of a call's arguments, which
  stay text.
- Messages' extra fields, which every rewriting copies unchanged.

Algorithms:

- Package names arrive in canonical form, and a marker's truth is an input.
- The rows' sold-out and full tests, the scopes and the fuzzy name matching are inputs to the route search.
- The estimates of a route's profit and rate, and which routes qualify, are inputs to the ranking.
- Panels, audio, hotkey listening, HTTP, SQL and prompts.
