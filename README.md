# API-backed elevator: a verified model

This project models the Level 9 elevator of the repository. It has two parts.

- The **store** is the in-memory part of `createApp` in `server/index.js`. It holds two ordered
  sequences, the pending pickup requests and the riders aboard. Its operations are list, append
  with `isValidPerson` validation, delete at an index (a `splice`), and clear.
- The **dispatch engine** is `ApiElevator` in `api/ApiElevator.js`. It keeps the current floor,
  the stop count and the floors traversed in fields. It mirrors the store's two sequences and
  re-reads the mirror (`syncFromApi`) before each decision. It changes the store only through
  the store's operations.

Each HTTP call becomes a direct method call on a `Store` object that the engine holds, and each
`await` becomes an ordinary sequential call.

The modules are:

- `Seqs` (seqs.dfy): splice, filter by position, and repeated splicing. `DeleteDescending`
  proves that splicing out a strictly descending list of valid positions, one call at a time,
  leaves the sequence with exactly those positions filtered out and the rest in order.
- `Passengers` (passengers.dfy): JavaScript numbers, request bodies, `isValidPerson`, and the
  stored record with its encoding.
- `Server` (server.dfy): the class `Store`, with one method per handler. A handler's HTTP status
  becomes the method's `Result`.
- `DispatchModel` (dispatch_model.dfy): the meaning of each engine method, written as a function
  on a `World`. A `World` is the car's floor and counters together with the store's contents.
  The properties of the engine are proved as lemmas and `ensures` clauses on these functions.
- `Engine` (engine.dfy): the class `ApiElevator`. `HasPickup`, `HasDropoff`, `HasStop`, `MoveUp`,
  `CountStop`, `Step`, `GoToFloor` and `Dispatch` are proved to change the car and the store
  exactly as the matching `DispatchModel` function says, and to leave the mirror equal to the
  store. `MoveDown` does the same above the ground floor; at the ground floor it changes neither
  the car nor the store nor the mirror. `AddRequest` re-syncs the mirror after an accepted body
  and changes nothing after a rejected one. `DeleteRequestsAt`, `DeleteRidersAt` and `PostRiders`
  are stated directly against the store: a sequence of deletions by position, or appends. The
  constructor starts with an empty mirror beside the given store.
- `Trips` (trips.dfy): one request dispatched on its own, for every start floor other than the
  request's origin, every origin, destination and pair of counters. The result is where the car
  ends, what is left in the store, how many stops are counted and how many floors are traversed.
- `Scenarios` (scenarios.dfy): the two cases of `tests/level9_api_test.mjs`, the order in which
  two riders board at one floor, and a request at the car's own floor.

Four behaviours of the code are worth stating on their own:

- **Rider order.** `pickups.sort(...)` (api/ApiElevator.js:40) sorts in place. So the posting
  loop at lines 44-46 appends the matches by descending position, which is the reverse of their
  order in the requests. `DispatchModel.Pickup` states this, and `Scenarios.PairBoardsReversed`
  shows it on two requests at floor 2.
- **Rider target.** The inner loop takes its target from the `rider` read at line 97. It keeps
  that target until the car reaches it or the riders run out, and reads `riders[0]` again only
  in the next round of the outer loop. `DispatchModel.Chase` and the engine's inner loop keep
  the same cached target.
- **Request at the start floor.** A request whose origin is the floor the car already stands
  at is not picked up when its turn comes. The first loop at lines 88-91 makes no move, so no
  check runs. With no rider aboard, nothing else happens either (`DispatchModel.NoMoveNoPickup`,
  `Scenarios.StartFloorRequestStays`). Any other lone request is served completely
  (`Trips.SingleRequest`).
- **Validation is loose.** `isValidPerson` accepts an empty name and negative or non-integer
  floors (`Passengers.AcceptsLooseRecords`).

## Model

| member | source | states |
|---|---|---|
| Passengers.IsValidPerson | server/index.js:4-11 | the validation itself: present, a string name, and two finite floor numbers; Passengers.Decode is stated against it |
| Passengers.Encode | api/ApiElevator.js:45 | `JSON.stringify` of a stored record, as addRider sends it, always passes validation |
| Passengers.Decode | server/index.js:4-11 | a body is accepted exactly when it is present, its name is a string and both floors are finite numbers; the accepted record carries those three fields |
| Passengers.DecodeEncode | api/ApiElevator.js:44-46 | a record handed out by the store passes validation again when it is sent back, and denotes itself |
| Passengers.EncodeDecode | server/index.js:43-48 | an accepted body is exactly the encoding of the record it denotes |
| Passengers.RejectsMalformed | server/index.js:4-11 | a missing body, a name that is not a string, and a NaN, infinite, string, null or undefined value in either floor field are rejected |
| Passengers.AcceptsLooseRecords | server/index.js:4-11 | an empty name, a negative floor and a non-integer floor are not rejected |
| Seqs.RemoveAt | server/index.js:58 | `splice(idx, 1)` on a valid index leaves a sequence one element shorter |
| Seqs.RemoveAtSpec | server/index.js:58 | `splice(idx, 1)` keeps the elements before idx in place, shifts the ones after it left by one, and removes one copy of the element at idx and nothing else |
| Seqs.DeleteDescending | api/ApiElevator.js:39-42 | deleting strictly descending valid positions one at a time equals filtering out exactly those positions, with the order of the rest kept |
| Seqs.WithoutRemoveAt | api/ApiElevator.js:39-42 | splicing out a position above every other dropped position is the same as dropping it too |
| Server.Store.constructor | server/index.js:27-28 | the store starts with no requests and no riders |
| Server.Store.State | server/index.js:34 | GET /state returns both sequences as they are and changes nothing |
| Server.Store.Reset | server/index.js:35-39 | POST /reset empties both sequences |
| Server.Store.ListRequests | server/index.js:42 | GET /requests returns the requests and changes nothing |
| Server.Store.PostRequest | server/index.js:43-48 | a valid body is appended to the requests and returned; an invalid one is rejected with 400 and changes nothing; riders are never touched |
| Server.Store.ClearRequests | server/index.js:49-52 | DELETE /requests empties the requests only |
| Server.Store.DeleteRequest | server/index.js:53-60 | an integer index in range removes and returns exactly that request; any other index is rejected with 404 and changes nothing; riders are never touched |
| Server.Store.ListRiders | server/index.js:63 | GET /riders returns the riders and changes nothing |
| Server.Store.PostRider | server/index.js:64-69 | a valid body is appended to the riders and returned; an invalid one is rejected with 400; requests are never touched |
| Server.Store.ClearRiders | server/index.js:70-73 | DELETE /riders empties the riders only |
| Server.Store.DeleteRider | server/index.js:74-81 | an integer index in range removes and returns exactly that rider; any other index is rejected with 404; requests are never touched |
| DispatchModel.Partition | api/ApiElevator.js:33-35 | the matched and the unmatched elements together are the whole sequence with the same multiplicities; with no match nothing is filtered out |
| DispatchModel.WithoutPositions | api/ApiElevator.js:33-35 | filtering out the matching positions is filtering out the matching elements |
| DispatchModel.Matches | api/ApiElevator.js:33-35 | the map/filter pairs each match with its position; the positions are strictly ascending, are exactly the matching positions, and point at their elements |
| DispatchModel.ByIndexDescending | api/ApiElevator.js:40 | sorting by descending position yields strictly descending positions, the same pairs, and the matched elements reversed |
| DispatchModel.DeleteMatches | api/ApiElevator.js:39-42 | the descending deletion loop hits only valid positions and leaves exactly the unmatched elements in their order |
| DispatchModel.Pickup | api/ApiElevator.js:31-49 | requests lose exactly those waiting at the floor, keeping the order of the rest; riders gain them at the end in descending position order; the result is true iff any request waits there; with none, nothing changes |
| DispatchModel.PickupConserves | api/ApiElevator.js:31-49 | a pickup neither loses nor duplicates a record across the two sequences |
| DispatchModel.PickupProgress | api/ApiElevator.js:31-49 | a pickup keeps every rider aboard, adds no record from nowhere, and does not increase the work left |
| DispatchModel.Dropoff | api/ApiElevator.js:51-64 | riders lose exactly those bound for the floor, keeping the order of the rest; requests are untouched; the result is true iff any rider is bound there; with none, nothing changes |
| DispatchModel.DropoffProgress | api/ApiElevator.js:51-64 | a dropoff keeps every rider bound elsewhere and strictly reduces the work left when someone leaves |
| DispatchModel.StopCheck | api/ApiElevator.js:66-71 | both checks in sequence, pickup first; they change neither the floor nor the counters |
| DispatchModel.StopCheckReports | api/ApiElevator.js:66-71 | both checks run, and a stop is reported iff a floor has been traversed and a request waits at the floor or a rider is bound for it |
| DispatchModel.StopCheckClears | api/ApiElevator.js:66-71 | after both checks no request waits at the floor and no rider is bound for it, including riders who just boarded |
| DispatchModel.StopCheckProgress | api/ApiElevator.js:66-71 | the checks add no record from nowhere, keep riders bound elsewhere, and strictly reduce the work left when a rider is bound for the floor |
| DispatchModel.CountStop | api/ApiElevator.js:76 | the checks, then one more stop if they report one: floor and floors traversed unchanged, stops up by 0 or 1 |
| DispatchModel.Arrive | api/ApiElevator.js:74-76 | the part of a move after the floor changes: the car is at the new floor, one more floor traversed, stops up by 0 or 1 |
| DispatchModel.ArriveCounts | api/ApiElevator.js:74-76 | on arrival the stop count goes up by one exactly when something is due at the new floor, and otherwise stays |
| DispatchModel.MoveUp | api/ApiElevator.js:73-77 | one floor up, one more floor traversed, stops up by 0 or 1 |
| DispatchModel.MoveUpStops | api/ApiElevator.js:73-77 | moving up counts a stop iff a request waits at the new floor or a rider is bound for it |
| DispatchModel.MoveUpSettles | api/ApiElevator.js:73-77 | after moving up nothing is left to do at the new floor, no record appears from nowhere, riders bound elsewhere stay aboard, and a rider bound there means strict progress |
| DispatchModel.MoveDown | api/ApiElevator.js:79-84 | at the ground floor nothing changes; above it, one floor down, one more floor traversed, stops up by 0 or 1 |
| DispatchModel.MoveDownStops | api/ApiElevator.js:79-84 | moving down counts a stop iff a request waits at the new floor or a rider is bound for it |
| DispatchModel.MoveDownSettles | api/ApiElevator.js:79-84 | after moving down nothing is left to do at the new floor, with the same guarantees as for moving up |
| DispatchModel.Toward | api/ApiElevator.js:89-90 | one loop iteration brings the car exactly one floor closer to the target and counts exactly one floor traversed |
| DispatchModel.TowardSettles | api/ApiElevator.js:89-90 | after that iteration nothing is due at the new floor, no record appears from nowhere, the work left does not grow, no counter goes back, every rider not bound for the new floor stays aboard, and when some rider is bound for it the work left strictly shrinks |
| DispatchModel.DriveTo | api/ApiElevator.js:88-91 | the first loop ends at the target after exactly as many traversed floors as lie between, adds no record from nowhere, does not increase the work left or lower a counter, and leaves the floor cleared if it moved |
| DispatchModel.Chase | api/ApiElevator.js:98-102 | the inner loop ends at the cached target or with no riders, adds no record from nowhere, and does not increase the work left or lower a counter |
| DispatchModel.ChaseDelivers | api/ApiElevator.js:95-104 | chasing a rider's destination always reaches it, and the rider leaves there, so the work left strictly shrinks |
| DispatchModel.ServeRiders | api/ApiElevator.js:93-104 | the outer rider loop ends with no rider aboard |
| DispatchModel.GoToFloor | api/ApiElevator.js:86-107 | goToFloorApi ends with no rider aboard, adds no record from nowhere, and does not lower a counter |
| DispatchModel.NoMoveNoPickup | api/ApiElevator.js:86-91 | when the car already stands at a request's origin and no one is aboard, its turn changes nothing |
| DispatchModel.DispatchFrom | api/ApiElevator.js:109-117 | the loop over the snapshot ends with no rider aboard if anything was pending, and changes nothing if the snapshot is empty |
| DispatchModel.Dispatch | api/ApiElevator.js:109-117 | dispatchApi adds no record from nowhere; with a request pending it ends with no rider aboard; with an empty store it makes no move and changes nothing |
| Engine.ApiElevator.constructor | api/ApiElevator.js:9-12 | the car starts at the ground floor with zero counters, an empty mirror and the given store |
| Engine.ApiElevator.SyncFromApi | api/ApiElevator.js:14-18 | the mirror becomes equal to the store |
| Engine.ApiElevator.AddRequest | api/ApiElevator.js:25-28 | a valid request is appended to the store and the mirror re-read; an invalid one changes neither store nor mirror |
| Engine.ApiElevator.DeleteRequestsAt | api/ApiElevator.js:40-42 | the deletion loop of a pickup leaves the requests as the positions' successive splices say, riders untouched |
| Engine.ApiElevator.PostRiders | api/ApiElevator.js:44-46 | the posting loop appends exactly the given records to the riders, in order |
| Engine.ApiElevator.DeleteRidersAt | api/ApiElevator.js:59-61 | the deletion loop of a dropoff leaves the riders as the successive splices say, requests untouched |
| Engine.ApiElevator.HasPickup | api/ApiElevator.js:31-49 | the store and the result are exactly as DispatchModel.Pickup says, and the mirror equals the store |
| Engine.ApiElevator.HasDropoff | api/ApiElevator.js:51-64 | the store and the result are exactly as DispatchModel.Dropoff says, and the mirror equals the store |
| Engine.ApiElevator.HasStop | api/ApiElevator.js:66-71 | the store and the result are exactly as both checks in sequence say |
| Engine.ApiElevator.MoveUp | api/ApiElevator.js:73-77 | car and store change exactly as DispatchModel.MoveUp says, and the mirror equals the store |
| Engine.ApiElevator.MoveDown | api/ApiElevator.js:79-84 | car and store change exactly as DispatchModel.MoveDown says; at the ground floor the mirror is untouched as well |
| Engine.ApiElevator.CountStop | api/ApiElevator.js:76 | the stop counter goes up exactly when the checks report a stop |
| Engine.ApiElevator.Step | api/ApiElevator.js:89-90 | one iteration of a driving loop changes the car and store as DispatchModel.Toward says |
| Engine.ApiElevator.GoToFloor | api/ApiElevator.js:86-107 | car and store end exactly as DispatchModel.GoToFloor says, so no rider is left aboard |
| Engine.ApiElevator.Dispatch | api/ApiElevator.js:109-117 | iterating the snapshot taken before the loop, car and store end exactly as DispatchModel.Dispatch says |
| Trips.DriveToOrigin | api/ApiElevator.js:88-91 | for a lone request and no rider, the first loop passes every other floor unchanged, boards the passenger at the origin with one stop, and counts exactly the floors between |
| Trips.ChaseToDestination | api/ApiElevator.js:98-102 | a lone rider is carried past every other floor and set down at the destination with one stop, after exactly the floors between |
| Trips.GoesAlone | api/ApiElevator.js:86-107 | goToFloorApi for a lone request from another floor ends at its destination with both sequences empty |
| Trips.SingleRequest | api/ApiElevator.js:109-117 | one request from a to b, with the car at another floor and no rider: dispatch ends at b with both sequences empty, two stops (one when a == b), and exactly the floors from the start to a and from a to b traversed |
| Scenarios.AnneRide | tests/level9_api_test.mjs:56-80 | Anne, 1 to 3, from the ground floor: the car ends at floor 3 with two stops, three floors traversed, and both sequences empty |
| Scenarios.AnneThroughTheApi | tests/level9_api_test.mjs:56-80 | through a fresh store and car: one request and no rider before dispatch; floor 3, two stops, three floors traversed and an empty store after |
| Scenarios.CrudRoundTrip | tests/level9_api_test.mjs:30-54 | create, list (one record, named Bob), delete index 0, list again (empty) |
| Scenarios.PairBoardsReversed | api/ApiElevator.js:31-49 | two requests waiting at floor 2 are both picked up, and the later one is appended first |
| Scenarios.StartFloorRequestStays | api/ApiElevator.js:86-91 | a request at the car's starting floor is still pending after dispatch, with no move made |

## Left out

- HTTP and Express: routing, JSON body parsing, CORS (server/index.js:17-24), `/health`, `startServer`
  and the direct-run check. Each handler is a method on `Store`.
- The module-level `requests`/`riders` of `createApp` are the fields of one `Store` object
  passed to the engine.
- Path parsing of `/:index`: `Number(req.params.index)` is not modelled. The delete methods take
  the JavaScript number the route yields.
- Extra body fields: the store keeps the posted object itself, with any extra fields. The model
  keeps only `name`, `currentFloor` and `dropOffFloor`, the three that validation and the engine read.
- Non-integer floors: every finite non-integer number is one value, `Fraction`. This is exact
  for validation, equality with a floor and `Number.isInteger`. The source's comparisons
  `person.currentFloor > this.currentFloor` (api/ApiElevator.js:89) and
  `rider.dropOffFloor > this.currentFloor` (line 99) do depend on which fraction it is. The engine's
  `Placed` requirement keeps every fraction out of those branches.
- api/elevatorApiClient.js (the `fetch` wrappers) is not part of this model. The engine calls the
  store directly. A rejected request makes `AddRequest` return the error instead of throwing.
- Number precision: JavaScript numbers are doubles, so from 2^53 on the `++` of floors and
  counters (api/ApiElevator.js:74-76, 81-83) stops changing, and validation accepts floors the car
  can then never reach. The model's integers, floors and counters are unbounded. Runs reaching
  values above 2^53 are not modelled, and the exact counts of DispatchModel.DriveTo and
  Trips.SingleRequest hold only for runs that stay below that.
- Asynchrony and concurrency: every `await` is a sequential call. A second client changing the
  store during a dispatch is not modelled.
- `resetApi` and the base class `Elevator` (elevator.js is not part of this model). Its constructor
  is taken to start at floor 0 with zero counters. `checkReturnToLoby` is taken to be false, as the
  test sets it, so `returnToLoby` never runs.
- Engine.ApiElevator.GoToFloor: requires an integer, non-negative origin and destination for the
  request and for every record, and no rider bound for the floor the car starts at. The
  termination proof needs these. Some excluded inputs do finish in the source, and those runs
  are not modelled. One example: a rider bound for the start floor when the car first moves
  away to a request's origin and later comes back. Another: a run that ends without ever
  reaching a pending request whose origin is 1.5.
- Engine.ApiElevator.Dispatch: requires the same of every stored record, for the same reason.
  Excluded inputs the source finishes are not modelled. An example is an empty request sequence
  with riders of any kind, where the source returns at once.
- DispatchModel.Dispatch: does not state which requests are still pending at the end. A request
  at the car's floor when its turn comes can remain, as `Scenarios.StartFloorRequestStays` shows.
- The visualizer (visualizer/ui.js) is not part of this model.
