# Live lane-signal status: a verified model

This project models the core of a small client for a traffic-signal live-data
service (intersection "SPaT boxes", each with lane groups, each lane group
with lanes):

- **Lane metadata** (`LaneMetadata`, lane_api.py `get_lane_properties` with
  the enums `LaneDirection`, `LaneType` and the dataclass `LaneProperties`).
  The static lane feature collection is loaded into an index from lane id to
  (directions, lane type) for one lane group.
- **Live-status stream** (`LiveStream`, lane_api.py
  `APIClient.get_live_status`).
  - The box id is the lane-group id up to its first `_`.
  - The loop over the server-sent events forwards element 0 of each
    `SignalizedLaneGroupState` event's data to a callback.
  - It consults and decrements an optional shared budget cell.
- **Terminal renderer** (`Console`, lane-data.py `console_cb`).
  - Events are sorted descending by the second `_`-segment of the lane id.
  - Events of unknown lanes are dropped, and the rest are grouped by lane type.
  - `time_left` is normalised and each row gets its direction text. The
    printed text is modelled as a list of (header, rows) sections.
- **Web server state** (`Server`, server.py).
  - The lease table `lane_group_status` maps a lane group to its shared
    budget cell.
  - The cache `lane_group_data` maps a lane group to its last batch.
  - Also modelled: `start_update_task`, `update_cb`, the request handler and
    one turn of a worker's loop.
  - Worker threads are recorded in a ghost map. Requests and worker turns
    interleave as atomic steps.

`Strings` models the Python string operations the code relies on:
- `in` on strings;
- `split("_")[0]` and `split("_")[1]`;
- `<` on `str`;
- `", ".join`.

`Wrappers` holds `Option` and `Result`. Python exceptions on the modelled
paths become explicit results:
- `LoadError` for the ValueError of `LaneType(...)`;
- `RenderError` for that, and for the IndexError of a lane id without `_`;
- `MissingPayload` / `PayloadMissing` for `json.loads(...)[0]` on an empty
  array.
- `Raised` / `CallbackFailed` for an exception from the callback, which ends
  the stream loop. The callback is given by the set of batches it raises
  on; `console_cb` raises on a failed load or a lane id without `_`.

Four behaviours of the code that a reader might not expect:
- **Unknown lane type.** An unknown `laneType` makes `LaneType(...)` raise,
  so the whole load fails rather than only that lane being skipped.
  See `LaneMetadata.LaneIndexFailsIffUnknownType`.
- **Sort key.** The key is the second `_`-segment compared as a string, not
  as a number: "10" sorts below "9". See `Console.SortDescendingCorrect`.
- **Exhausted leases.** Lease entries are never removed. After a worker has
  stopped, a request only resets the counter to 5 and starts no worker, so
  the new budget is never consumed. See `Server.RequestStoppedGroup`,
  `Server.RequestAfterExhaustion` and `Server.RequestAfterWorkerDied`.
- **When an exhausted worker stops.** It does not stop right after the 5th
  batch. It returns on the next matching event after that, and only when
  such an event arrives. See `LiveStream.RunWithBudget`.

## Model

| member | source | states |
|---|---|---|
| LaneMetadata.ParseLaneType | lane_api.py:118 | `LaneType(s)` yields the enum member whose value is `s`; it fails exactly when no member has value `s` |
| LaneMetadata.ManeuverDirectionSpec | lane_api.py:105-110 | a maneuver yields a direction only if that name occurs in it. The yielded name is the first of LEFT, RIGHT, STRAIGHT that occurs. It yields nothing iff none of the three occurs |
| LaneMetadata.ManeuverDirectionsMembers | lane_api.py:104-110 | scanning one connection's maneuvers appends at most one direction per maneuver. A direction is appended iff some maneuver yields it |
| LaneMetadata.NamedBySplit | lane_api.py:103-110 | a maneuver of the connections yields `d` iff one of all but the last connection does or one of the last does |
| LaneMetadata.ConnectionDirectionsMembers | lane_api.py:103-110 | the collected list has at most one entry per maneuver. It contains a direction iff some maneuver of some connection yields it |
| LaneMetadata.CollectDirections | lane_api.py:100-110 | the nested loops build exactly the scan-order list of yielded directions |
| LaneMetadata.RemoveDuplicates | lane_api.py:113 | `list(set(ds))` has no duplicates and the same members as `ds` |
| LaneMetadata.NoDuplicatesCardinality | lane_api.py:113 | a duplicate-free list is as long as its set of members |
| LaneMetadata.SingleDirection | lane_api.py:113 | a duplicate-free list whose only member is `d` is `[d]` |
| LaneMetadata.AllLeftManeuvers | lane_api.py:103-113 | when a lane has maneuvers and every one contains "LEFT", its collected directions are all LEFT and its de-duplicated list is exactly `[LEFT]` |
| LaneMetadata.LaneIndexAppend | lane_api.py:94-119 | one more feature is one more turn of the loop |
| LaneMetadata.LaneIndexFailsIffUnknownType | lane_api.py:118 | the load fails iff some feature of the requested group has an unknown lane type, even when other lanes are fine |
| LaneMetadata.LaneIndexFailurePersists | lane_api.py:118 | once a prefix of the features fails, the whole load fails with the same error |
| LaneMetadata.LaneIndexCoversGroup | lane_api.py:94-119 | in a successful load, every feature of the requested group has its lane id in the result |
| LaneMetadata.LaneIndexEntries | lane_api.py:94-119 | every entry of a successful load is described by a feature of the requested group: the last one with that lane id, giving its direction set and parsed type |
| LaneMetadata.LaneIndexIgnoresOtherGroups | lane_api.py:94-96 | the outcome, error included, equals the outcome on the requested group's features alone |
| LaneMetadata.GetLaneProperties | lane_api.py:87-121 | the loop's result is the index above up to the order of each lane's directions. Each entry is keyed by its own id and lists each direction once |
| Strings.ContainsOccurs | lane_api.py:105 | a substring found by Python's `in` occurs at some index |
| Strings.OccursContains | lane_api.py:105 | an occurrence at any index makes Python's `in` hold |
| Strings.ContainsIffOccurrence | lane_api.py:105 | Python's substring test holds iff the pattern occurs at some index |
| Strings.BeforeFirst | lane_api.py:194 | `s.split(c)[0]` is a prefix of `s` without `c`, followed in `s` by `c` when shorter |
| Strings.SecondSegment | lane-data.py:87 | `s.split(c)[1]` exists iff `c` occurs in `s`. It is the segment after the first `c` |
| Strings.LessIrreflexive | lane-data.py:87 | string `<` is irreflexive |
| Strings.LessAsymmetric | lane-data.py:87 | string `<` is asymmetric |
| Strings.LessTransitive | lane-data.py:87 | string `<` is transitive |
| Strings.LessTotal | lane-data.py:87 | any two distinct strings are ordered by `<` one way or the other |
| Strings.NotLessTransitive | lane-data.py:87 | the reversed order `>=` used by `reverse=True` is transitive |
| LiveStream.BoxId | lane_api.py:194 | the box id is the prefix of the lane-group id before the first `_`, or the whole id when it has none |
| LiveStream.Matching | lane_api.py:206-208 | the forwarded-type events are exactly the stream's events of type `SignalizedLaneGroupState` |
| LiveStream.FirstElements | lane_api.py:215 | one batch per event, and entry i is element 0 of event i's data |
| LiveStream.FirstRaising | lane_api.py:215 | the index of the first batch the callback raises on: every earlier batch is accepted, and the batch there raises. It is the length when none raises |
| LiveStream.StepSpec | lane_api.py:206-215 | a turn skips other event types and returns on a budget of 0. Otherwise it takes one from the budget, if any, and then either fails on empty data or calls the callback with element 0, which accepts or raises |
| LiveStream.Run | lane_api.py:206-215 | the loop calls the callback at most once per event, and keeps a budget cell iff it started with one |
| LiveStream.RunCallbackFailure | lane_api.py:215 | the callback raised at most once, on its last call, and the loop ended because it raised exactly when it did |
| LiveStream.RunIgnoresOtherEvents | lane_api.py:206-208 | other event types change neither the callback calls, the budget nor the way the loop ends |
| LiveStream.RunConsumesBudget | lane_api.py:210-215 | the budget never grows. It loses exactly one per callback call, raising or not, plus one when the data was empty. The loop returns on the budget only at 0 |
| LiveStream.BudgetedOutcomeAccepted | lane_api.py:210-215 | with a callback that accepts every batch, the budgeted run hands it the first min(n, k) batches. The loop returns on the budget iff there were more than n |
| LiveStream.UnbudgetedOutcomeAccepted | lane_api.py:206-215 | with a callback that accepts every batch, the run without a budget hands it all of them and ends with the stream |
| LiveStream.BudgetedOutcomeCons | lane_api.py:210-215 | after an accepted first batch, the budgeted run is one call followed by the run over the rest with one less |
| LiveStream.UnbudgetedOutcomeCons | lane_api.py:206-215 | after an accepted first batch, the run without a budget is one call followed by the run over the rest |
| LiveStream.RunForwardableCons | lane_api.py:206-215 | a forwarded event with data, met with a budget other than 0, gives one callback call. The loop ends there iff the callback raises |
| LiveStream.BudgetedOutcomeRaise | lane_api.py:215 | a first batch the callback raises on ends the budgeted run after that one call |
| LiveStream.UnbudgetedOutcomeRaise | lane_api.py:215 | a first batch the callback raises on ends the run without a budget after that one call |
| LiveStream.BudgetedOutcomeStep | lane_api.py:210-215 | one event more in front extends the budgeted outcome by one call, or ends it when that call raises |
| LiveStream.UnbudgetedOutcomeStep | lane_api.py:206-215 | one event more in front extends the outcome without a budget by one call, or ends it when that call raises |
| LiveStream.RunForwardableWithBudget | lane_api.py:210-215 | over forwardable events with budget n, the callback gets element 0 of the events in order until it raises, the budget is used up or the stream ends. Whichever comes first decides the remaining budget and the way the loop ends |
| LiveStream.RunForwardableWithoutBudget | lane_api.py:210-215 | without a budget, the callback gets element 0 of each forwardable event in order until it raises or the stream ends |
| LiveStream.RunWithBudget | lane_api.py:206-215 | with budget n, the callback gets element 0 of the matching events in order until it raises or the budget is used up. With an accepting callback that is min(n, matching) calls. The loop returns on the next matching event once the budget is 0, or when the callback raises, whichever comes first |
| LiveStream.RunWithoutBudget | lane_api.py:206-215 | with no budget, element 0 of every matching event is forwarded, in order, until the callback raises or the stream ends |
| LiveStream.RunRepeated | lane_api.py:206-215 | k copies of one event with budget n give min(n, k) calls to a callback that accepts the batch, and the loop returns on the budget iff k > n. A callback that raises on it is called at most once |
| LiveStream.GetLiveStatus | lane_api.py:190-215 | the loop's callback batches, final budget cell and end reason are those of the reference run from the initial budget. This includes ending on a raising callback |
| LiveStream.Budget.constructor | lane_api.py:210-213 | a budget cell holds its initial value |
| Console.FirstUnkeyed | lane-data.py:87 | the id that makes the sort key raise has no `_`. It is the first such id in the batch |
| Console.KeySegment | lane-data.py:87 | the sort key of a lane id with `_` is the segment between its first `_` and the next `_` or the end |
| Console.Decorate | lane-data.py:87 | each event is paired with its sort key, position by position |
| Console.Undecorate | lane-data.py:87 | undecorating gives back the events position by position |
| Console.Insert | lane-data.py:87 | inserting adds exactly one entry, as a permutation |
| Console.SortEntries | lane-data.py:87 | sorting is a permutation of the entries |
| Console.InsertMembers | lane-data.py:87 | insertion keeps the members plus the new one |
| Console.DescendingCons | lane-data.py:87 | an entry not below the head of a descending list extends it |
| Console.InsertDescending | lane-data.py:87 | insertion keeps a list descending |
| Console.InsertStable | lane-data.py:87 | the inserted entry comes first among the entries with its key, and every key's entries otherwise keep their order |
| Console.SortEntriesCorrect | lane-data.py:87 | the sorted entries are descending, and each key's entries keep their order |
| Console.UndecoratePermutation | lane-data.py:87 | undecorating preserves permutations |
| Console.SortEntriesEvents | lane-data.py:87 | the sorted events are a permutation of the input events |
| Console.WithKeyUndecorate | lane-data.py:87 | filtering by key commutes with undecorating |
| Console.SortDescending | lane-data.py:87 | `sorted(...)` returns a permutation of the batch |
| Console.WithKeyCons | lane-data.py:87 | filtering by key keeps the first entry exactly when it has that key |
| Console.UndecorateAppend | lane-data.py:87 | undecorating distributes over concatenation |
| Console.SortedKeysFaithful | lane-data.py:87 | sorted entries still carry their own events' keys |
| Console.SortDescendingOrdered | lane-data.py:87 | the sorted batch is in descending key order (string order) |
| Console.SortDescendingStable | lane-data.py:87 | events with key `k` keep their input order |
| Console.SortDescendingCorrect | lane-data.py:87 | the sorted batch is descending by key (string order), and events with equal keys keep their input order (stable) |
| Console.Types | lane-data.py:96-98 | the dictionary's key list, in insertion order |
| Console.AddToGroups | lane-data.py:96 | `setdefault(t, []).append(e)` adds at most one list |
| Console.AddToGroupsTypes | lane-data.py:96 | `setdefault(t, []).append(e)` adds `t` as the last key iff it is new and otherwise keeps the keys |
| Console.AddToGroupsAt | lane-data.py:96 | `append` extends the list of type `t` by `e` and leaves every other list unchanged |
| Console.AddToGroupsNew | lane-data.py:96 | a new type gets the list `[e]`, after all existing ones |
| Console.AddToGroupsKnown | lane-data.py:93-96 | only events of known lanes are appended |
| Console.AddToGroupsCount | lane-data.py:96 | each `append` adds exactly one event |
| Console.Grouped | lane-data.py:90-96 | every grouped event has a known lane |
| Console.FirstSeenMembers | lane-data.py:98 | first-seen order lists each type once, and exactly the types seen |
| Console.OfTypeMembers | lane-data.py:91-96 | an event is among the kept events of type `t` iff it is in the batch and its known lane has type `t` |
| Console.KeptTypesMembers | lane-data.py:91-96 | every kept event's type is among the kept types |
| Console.KeptTypesSnoc | lane-data.py:91-96 | one more event adds its type to the kept types iff its lane is known |
| Console.FirstSeenSnoc | lane-data.py:96-98 | one more type is added to the first-seen order iff it is new |
| Console.GroupedTypes | lane-data.py:90-98 | groups appear in the order their type first occurs among kept events |
| Console.AddToGroupsEvents | lane-data.py:96 | appending a kept event keeps every group equal to the kept events of its type |
| Console.GroupedEventsStep | lane-data.py:91-96 | one turn of the grouping loop keeps every group equal to the kept events of its type |
| Console.GroupedEvents | lane-data.py:90-96 | each group holds exactly the kept events of its type, in sorted order |
| Console.GroupedSpec | lane-data.py:90-100 | groups appear in the order their type first occurs among kept events. Each group holds exactly the kept events of its type, in sorted order |
| Console.GroupsCoverKept | lane-data.py:96 | every kept event lies in the group of its lane's type |
| Console.GroupsHoldOwnType | lane-data.py:96 | a group holds only kept events of its own type |
| Console.GroupsPartition | lane-data.py:96 | group types are distinct. Every kept event is in the group of its lane's type. A group holds only kept events of its own type |
| Console.GroupedCount | lane-data.py:91-96 | the groups hold as many events as were kept, so nothing is lost or duplicated |
| Console.KeptCount | lane-data.py:91-95 | at most all events are kept, and all of them iff every lane is known |
| Console.GroupByType | lane-data.py:90-96 | the grouping loop builds exactly the reference grouping |
| Console.NormalizeTimeLeft | lane-data.py:109-110 | values in [0, 200] are unchanged. Every other value becomes exactly -1 |
| Console.LeadingDirectionOf | lane-data.py:115 | a direction value at the start of a text is recognised |
| Console.ParseSingle | lane-data.py:115 | a single direction value reads back as that direction |
| Console.ParseCons | lane-data.py:115 | a value followed by `, ` reads back as that direction before the rest |
| Console.JoinValuesSingle | lane-data.py:115 | the column of one direction is its value |
| Console.JoinValuesCons | lane-data.py:115 | the column of several directions is the first value, `, `, then the rest |
| Console.DirectionListRoundTrip | lane-data.py:115 | the `", "`-joined values of a non-empty direction list read back as that list |
| Console.DirectionTextMeaning | lane-data.py:112-115 | the column is "N/A" iff the lane is a crosswalk. For any other type it spells out the lane's directions in order, or is empty when there are none |
| Console.RenderRow | lane-data.py:100-116 | a row keeps the lane id and signal state and shows the lane type. Its time left is kept in [0, 200] and becomes -1 otherwise. Its direction text is "N/A" exactly for a crosswalk |
| Console.SectionsOfCount | lane-data.py:98-116 | one row per grouped event |
| Console.RenderGroups | lane-data.py:98-116 | the output loops produce a header per group and, per event, a row with the normalised time left, the lane type, the signal state, the direction text and the lane id |
| Console.Render | lane-data.py:85-116 | rendering raises iff some lane id lacks `_`, naming the first such id |
| Console.RenderRowCount | lane-data.py:87-116 | a rendering has at most one row per event, and exactly one per event iff every lane is known |
| Console.ConsoleCallback | lane-data.py:76-119 | the callback raises iff the metadata load fails or a lane id has no `_`. A failed load raises first. Otherwise the result is the rendering of the batch under a load whose summaries are the index |
| Console.ConsoleLoopEndsOnUnkeyedLane | lane-data.py:87 | with `console_cb` as the stream callback, a batch with a lane id without `_` raises and ends the loop, so a later batch is never rendered |
| Server.LeaseTable.constructor | server.py:11-12 | both tables start empty and the invariant holds |
| Server.LeaseTable.StartUpdateTask | server.py:24-33 | an unknown group gets a fresh cell at 5 and exactly one worker. A known group has its cell set to 5 and no worker is started, even if its worker stopped. No other lease, counter or cache entry changes |
| Server.LeaseTable.GrantLease | server.py:31-33 | a fresh cell holding 5 is added for the group, with a running worker started once |
| Server.LeaseTable.ResetLease | server.py:27-29 | only the group's cell changes, and it becomes 5 |
| Server.LeaseTable.UpdateCb | server.py:15-16 | the group's cache entry becomes the batch. Every other entry and all leases are unchanged. Cache keys stay within lease keys iff the group is leased |
| Server.LeaseTable.Request | server.py:36-42 | the lease is (re)armed as by `start_update_task`. A new group gets a fresh cell, and every other group keeps its own. The answer is the cached batch, or `[]` when there is none |
| Server.LeaseTable.WorkerStep | server.py:20-21 | one turn of the group's worker does what the stream loop's step does on the group's own cell, with `update_cb`, which never raises, as the callback. The cache changes only on delivery. The worker stops when the loop returns or fails on empty data |
| Server.LeaseTable.ConsumeBudget | lane_api.py:213 | only the group's cell changes, and it drops by one |
| Server.LeaseTable.StopWorker | server.py:20-21 | the group's worker is recorded as stopped and its lease stays |
| Server.RequestStoppedGroup | server.py:24-42 | in any valid table, a request for a group whose worker has stopped starts no worker (`workers` unchanged) and resets only that group's cell to 5; every other cell, the lease map and the cache are unchanged, and the answer is the cached batch or `[]` |
| Server.RequestAfterWorkerDied | server.py:24-42 | after a worker died on an empty data array, a request starts no worker. It resets the counter to 5 and answers `[]`. The group stays leased with its worker stopped and nothing cached |
| Server.RequestAfterExhaustion | server.py:24-42 | a worker returns on the sixth event, after five deliveries, and stops. A later request starts no worker, resets the counter to 5 and answers the cached batch. The lease then sits at 5 with no worker to consume it |
| Server.ExhaustBudget | lane_api.py:210-215 | for any group whose worker runs and whose cell holds 5, six turns on a repeated event with data `[batch]` end with the sixth returning: the worker stops, the cell is 0 and the batch is cached; other groups' cells, workers and cache entries are unchanged |
| Server.DeliverBudget | lane_api.py:210-215 | for any group whose worker runs and whose cell holds 5, five turns on an event with non-empty data deliver its element 0 and bring the cell to 0, with the worker still running and nothing else changed |
| Server.DeliverTurn | lane_api.py:210-215 | one turn of a running worker with budget left on an event with non-empty data takes one from its cell and caches element 0; the worker keeps running and no other cell, worker or cache entry changes |

## Left out

- Token acquisition, `get_url`, and the boxes, trigger-line and lane-map requests in lane_api.py are left out. They are HTTP calls whose local logic is field extraction.
- The HTTP connection, SSE framing and `json.loads` are given as input: the stream is a finite sequence of already decoded events. A stream that never ends is not modelled.
- Reading `static/lanes.json` is left out. `get_lane_properties` receives the decoded feature list. Malformed JSON and missing keys (KeyError) are not modelled.
- `parse_timestamp` and `Box` are left out: they do library datetime parsing and float coordinates. The timestamp of a lane event is carried as an opaque string.
- Threads, `asyncio.run` and Flask routing are left out. A thread start is recorded in the ghost map `workers`. A worker's loop is modelled as a sequence of atomic `WorkerStep` turns interleaved with requests; `update_task` itself has no member of its own. Races between real threads are therefore not modelled. Under Flask's threaded server (server.py:45), two concurrent first requests for one group can both pass the membership test of `start_update_task` (server.py:25-31) and start two workers on two cells; the model's one-start-per-group invariant (`LeaseTable.Valid`) holds only because requests are atomic here. Lost updates on the unguarded shared counter are not modelled either.
- `print`, the terminal escape code, the `datetime.now()` header and the exact formatting of a printed line are left out. Rows are records. The `print(event_data)` in `update_cb` is left out too.
- The command-line dispatch, the GeoJSON export commands and the random sleeps of lane-data.py are left out.
- LaneMetadata.RemoveDuplicates: promises only the same members with no repeats, not an order, because Python's `set` iteration order is unspecified.
- Console.Key: an event whose lane id has no `_` gets the empty key. Such events are never sorted, because `Render` fails first.
- Server.LeaseTable.WorkerStep: models one turn of a worker. Connection errors of the stream are not modelled. `update_cb` only stores the batch, so its callback never raises.
- LiveStream.GetLiveStatus: the callback is given by the set of batches it raises on. Its other effects (printing, storing) are not part of the stream loop's model.
