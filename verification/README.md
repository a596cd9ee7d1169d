# Static timetable core of a GTFS tram and bus tracker

This project is a Dafny model of the static-timetable logic of a tracker for
a city's trams and buses. The logic lives in
`backend/services/static/gtfs_processing.py`. It has two feeds, one per
vehicle class. Each feed has a routes table, a trips table, a stop-times
table and a calendar of service ids. From those tables the code derives:

- **Schedule numbers.** Every block (one vehicle's duty for a service day) gets
  a rider-facing label `"<route>/<NN>"`. Buses and trams use different
  assigners. `create_df_with_schedule_numbers` threads one running
  "last labelled block" counter across all bus routes.
  `create_df_with_schedule_numbers_tram` gives every block one route and
  numbers the blocks per route.
- **The route picker's list** (`get_routes_list_with_labels`). Routes are
  grouped under fifteen headings by the band their line number falls in.
- **End times.** `adjust_end_time` turns a departure past midnight (`"25:10:00"`)
  into a clock time (`"01:10"`).
- **A stop's timetable** (`get_timetable_data`). Its pieces are:
  - the route number is resolved to a route id;
  - the route's blocks are collected;
  - the stop times are filtered by stop, block and service;
  - the structured trip id (`block_<k>_trip_<n>_service_<s>`) is taken apart;
  - a trip-number parity filter selects one direction.
- **Lookups and their errors.** These are `get_stops_list`'s route check,
  `get_block_ids_from_route_id`, `get_route_id_from_route_number`,
  `get_schedule_number_from_block_id`, and the numeric block order of
  `get_schedule_data`.

Tables are sequences of immutable rows in file order. Pandas' `drop_duplicates`,
`.values[0]` and stable `sorted` depend on that order. Every raise of the
Python code (`IndexError`, `ValueError`) becomes an `Err` value of
`Results.Result`, so each contract states both the success case and the
failure cases.

Modules, by file:

- `results.dfy`: `Result`, `Option`, `Error`, and `JoinAll` (a loop over the calendar's services).
- `text.dfy`: `str.split`, `str.join`, `int()` on digit strings, and two-digit padding.
- `ordering.dfy`: string order, and a stable sort as insertion sort.
- `collections.dfy`:
  - `drop_duplicates` (`Distinct`);
  - first match (`FindFirst`);
  - boolean-mask filtering (`FilterBy`);
  - counting (`CountIf`).
- `tables.dfy`: the row types, `sorted(key=int)`, and the `"<route>/<NN>"` label.
- `lookups.dfy`:
  - the route, block and schedule-number lookups with their error rules;
  - numeric block order.
- `bus_numbers.dfy`, `bus_table.dfy`: the bus assigner and its table.
- `tram_numbers.dfy`, `tram_table.dfy`: the tram assigner and its table.
- `schedule_tables.dfy`: facts shared by both tables. They cover joining per-service rows and looking a block up.
- `route_labels.dfy`: `get_routes_list_with_labels`.
- `end_time.dfy`: `adjust_end_time`.
- `timetable.dfy`: `get_timetable_data`.

The route number decides the vehicle class differently in two places:

- `get_stops_list` (line 108) reads the bus tables for a route number of exactly three characters.
- `get_timetable_data` (line 374) reads the bus tables for a route number of three characters or more.

The model keeps both rules: `Lookups.StopsRoute` and `Timetable.IsBusNumber`.

## Model

| member | source | states |
|---|---|---|
| Text.ParseNat | backend/services/static/gtfs_processing.py:249-250 | `int()` succeeds exactly on non-empty strings of ASCII decimal digits |
| Text.Pad2 | backend/services/static/gtfs_processing.py:255 | two-digit padding reads back as the same number; it has exactly two characters below 100 and at least two always |
| Text.Decimal | backend/services/static/gtfs_processing.py:226 | `str(n)` is a digit string that reads back as `n`, has no leading zero, and is one character long exactly for `n` below 10 |
| Text.Split | backend/services/static/gtfs_processing.py:248 | `split` never returns an empty list and no field contains the separator |
| Text.JoinSplit | backend/services/static/gtfs_processing.py:337 | joining the fields of a split with the same separator restores the string |
| Tables.Field | backend/services/static/gtfs_processing.py:210 | `text.split(sep)[i]` succeeds exactly when there are more than `i` fields; it returns that field, which has no separator, and otherwise gives the `IndexError` |
| Tables.SortNumerically | backend/services/static/gtfs_processing.py:205 | `sorted(key=int)` fails exactly when some string is not a number, naming the first such string in list order; otherwise it returns a permutation of the input in ascending numeric order |
| Tables.ScheduleLabelParts | backend/services/static/gtfs_processing.py:187 | a label `"<route>/<NN>"` splits at the slash back into the route and a number that reads as `NN` |
| Results.JoinAll | backend/services/static/gtfs_processing.py:201-228 | the per-service loop succeeds exactly when every service does; a failure is the first failing service's error; on success a row is in the table iff it is a row of some service |
| Results.JoinAllNoDuplicates | backend/services/static/gtfs_processing.py:201-228 | joining per-service rows that are distinct within and across services gives a table without repeated rows |
| Collections.FindFirst | backend/services/static/gtfs_processing.py:369 | `.values[0]` of a mask: the first position that satisfies the mask, or none exactly when no position does |
| Collections.Distinct | backend/services/static/gtfs_processing.py:170 | `drop_duplicates()` has the same values, none twice, in order of first appearance |
| Collections.FilterBy | backend/services/static/gtfs_processing.py:203 | a boolean mask keeps exactly the rows that satisfy it, and as many as the count of such rows |
| Collections.FilterByPermutation | backend/services/static/gtfs_processing.py:53-87 | filtering two permutations of one table gives permutations of each other |
| Collections.FilterBySorted | backend/services/static/gtfs_processing.py:53-87 | filtering a sorted table leaves it sorted |
| Collections.CountIfRanks | backend/services/static/gtfs_processing.py:180-188 | every rank from 1 to the count of matching elements is held by some matching element |
| Ordering.SortBy | backend/services/static/gtfs_processing.py:179 | `sorted` returns a permutation of its input ordered by the key |
| Ordering.LexLeTrans | backend/services/static/gtfs_processing.py:179 | Python's string comparison is transitive |
| Lookups.ShortNameOf | backend/services/static/gtfs_processing.py:185 | the short name is from the first routes row with the route id; the lookup fails exactly when no row has that id |
| Lookups.RouteIdOf | backend/services/static/gtfs_processing.py:367-370 | the route id is from the first routes row with the short name; the lookup fails exactly when no row has that name |
| Lookups.ResolveRoute | backend/services/static/gtfs_processing.py:99-107 | the route check succeeds exactly when one row has the number; no row gives the "no route" error and several rows give the "multiple routes" error |
| Lookups.StopsRoute | backend/services/static/gtfs_processing.py:98-110 | the number is resolved over bus rows followed by tram rows; the bus tables are read exactly for a three-character number |
| Lookups.DistinctRouteBlocks | backend/services/static/gtfs_processing.py:276 | the route's block ids are exactly those some trip of the route runs, each once |
| Lookups.BlockIdsOfRoute | backend/services/static/gtfs_processing.py:357-365 | the lookup fails exactly when no trip runs on the route; otherwise it gives the route's block ids, each once, in strictly ascending string order |
| Lookups.ScheduleNumberOf | backend/services/static/gtfs_processing.py:396-402 | the number is from the first row for the block and service; the lookup fails exactly when no row has that pair |
| Lookups.ScheduleNumberOfUniqueRow | backend/services/static/gtfs_processing.py:401 | a table whose (block, service) pairs are distinct answers each row's pair with that row's number |
| Lookups.BlockSuffix | backend/services/static/gtfs_processing.py:279 | `int(x.split('_')[1])` succeeds exactly when there is a second field and it is a number |
| Lookups.OrderBlocksNumerically | backend/services/static/gtfs_processing.py:279 | sorting by block suffix fails exactly when some suffix is not a number, with the error of the first such block in list order; otherwise it returns a permutation whose suffixes ascend |
| Lookups.ScheduleBlockOrder | backend/services/static/gtfs_processing.py:276-279 | the route's block ids are listed each once in ascending suffix order; a failure is the error of a block of the route whose suffix is not a number |
| Lookups.ScheduleBlockOrderFirstError | backend/services/static/gtfs_processing.py:276-279 | the failure is the error of the block of the route's first trip, in table order, whose suffix `int()` rejects |
| BusNumbers.WalkRoute | backend/services/static/gtfs_processing.py:221-228 | one outcome per block of the route; which blocks are labelled and with which NN is stated by `WalkRouteCounter` and `RouteChain` |
| BusNumbers.WalkRoutes | backend/services/static/gtfs_processing.py:218-228 | one outcome list per route, one outcome per block; the counter threaded across routes is stated by `WalkRoutesCounter`, `Chain` and `ChainLabelsBlocks` |
| BusNumbers.WalkRouteCounter | backend/services/static/gtfs_processing.py:221-228 | within a route, a block is labelled exactly when its number is one above the counter plus the labels given before it, and its NN is one plus the route's earlier labels |
| BusNumbers.WalkRoutesCounter | backend/services/static/gtfs_processing.py:219-228 | the counter a block meets is the seed plus every label given on earlier routes and on earlier blocks of its route, and NN restarts at 1 on each route |
| BusNumbers.RouteChain | backend/services/static/gtfs_processing.py:221-228 | one route's labelled block numbers continue the counter without a gap, its NNs run on from the first, and each label is a block of the route |
| BusNumbers.Chain | backend/services/static/gtfs_processing.py:218-228 | over all routes the labelled block numbers are seed+1, seed+2, … in the order the rows are appended |
| BusNumbers.Ordinals | backend/services/static/gtfs_processing.py:222-227 | with distinct route names, each row's NN is one plus the number of earlier rows of the same route |
| BusNumbers.RoutesInOrder | backend/services/static/gtfs_processing.py:205-228 | the rows come route by route in ascending numeric order of the short names |
| BusNumbers.LabelsFromRoutes | backend/services/static/gtfs_processing.py:219-226 | every label names a route of the list and one of that route's own block suffixes |
| BusNumbers.ChainLabels | backend/services/static/gtfs_processing.py:215-228 | the first row is the first route's smallest block as `<route>/01`, and the labelled numbers climb by one from it |
| BusNumbers.CollectMembers | backend/services/static/gtfs_processing.py:219-228 | the rows appended are exactly the labelled blocks, each with its route and NN |
| BusNumbers.ChainLabelsBlocks | backend/services/static/gtfs_processing.py:219-228 | block i of route r gets a row exactly when its number is the seed plus 1 plus the labels handed out before it, with NN 1 plus its route's earlier labels; no other row is written |
| BusNumbers.BlockIdSuffix | backend/services/static/gtfs_processing.py:226 | the emitted `block_<suffix>` keeps the suffix text: its parsed second field is the number the walk compared |
| BusNumbers.RouteServiceBlocks | backend/services/static/gtfs_processing.py:203-209 | the blocks listed for a route and service are exactly those of its trips in that service |
| BusNumbers.SecondFields | backend/services/static/gtfs_processing.py:210 | the list of second fields fails exactly when some block id has no second field; otherwise it holds each id's second field in order |
| BusNumbers.RouteSuffixes | backend/services/static/gtfs_processing.py:209-211 | every suffix in a route's list is a number |
| BusNumbers.RouteSuffixesSpec | backend/services/static/gtfs_processing.py:209-211 | a route's suffix list fails exactly when some block of the route in the service has no numeric second field; otherwise it holds exactly those fields |
| BusNumbers.RouteSuffixesSorted | backend/services/static/gtfs_processing.py:211 | the suffixes come in ascending numeric order |
| BusNumbers.RouteBlocksList | backend/services/static/gtfs_processing.py:207-213 | the routes list has one entry per name in order, each with its route's sorted suffixes; a failure comes from a name without a route id or without valid suffixes |
| BusNumbers.RouteBlocksListOutcome | backend/services/static/gtfs_processing.py:207-213 | the routes list is built exactly when no name lacks a route id or has a block without a numeric second field |
| BusNumbers.RouteBlocksListFirstError | backend/services/static/gtfs_processing.py:207-211 | the loop stops at the first failing name, with that name's lookup error or suffix error |
| BusNumbers.BusRouteBlocks | backend/services/static/gtfs_processing.py:197-213 | a non-numeric short name makes the service fail; a built list names every short name once, only short names, in ascending numeric order |
| BusNumbers.SortedNames | backend/services/static/gtfs_processing.py:197-205 | `sorted(drop_duplicates(...), key=int)` holds each short name once, in ascending numeric order |
| BusNumbers.BusRouteBlocksOutcome | backend/services/static/gtfs_processing.py:197-213 | the routes list is built exactly when every short name is a number and every route has a route id and only block ids with a numeric second field in the service |
| BusNumbers.BusRouteBlocksNameError | backend/services/static/gtfs_processing.py:197-205 | a non-numeric short name fails with `NotANumber` of the first such name in file order |
| BusNumbers.BusRouteBlocksRouteError | backend/services/static/gtfs_processing.py:205-211 | with numeric names, the failure is the error of the failing route with the smallest number |
| BusNumbers.ServiceLabels | backend/services/static/gtfs_processing.py:200-228 | a service fails on a bad routes list, fails on an empty routes table, and otherwise gives the seeded walk over its routes list |
| BusNumbers.SeededLabels | backend/services/static/gtfs_processing.py:215-228 | the seed fails exactly when there is no route or the first route has no block; otherwise the rows start at the first route's smallest block as `/01`, block numbers climb by one, NN is the rank within the route, and routes ascend |
| BusNumbers.SeededLabelsBlocks | backend/services/static/gtfs_processing.py:215-228 | on a routes list built without error, the rows are exactly the blocks that continue the chain from the seed |
| BusNumbers.RouteSuffixesNonEmpty | backend/services/static/gtfs_processing.py:209-211 | a built suffix list is empty exactly when no trip of the service runs on the route |
| BusNumbers.SortedNamesFirst | backend/services/static/gtfs_processing.py:205-216 | the first name of the numeric order is a short name whose number is the smallest |
| BusNumbers.ServiceLabelsOutcome | backend/services/static/gtfs_processing.py:200-216 | a service gets labels exactly when the routes list is built, the routes table is not empty, and a trip of the service runs on the first route in numeric order |
| BusNumbers.ServiceLabelsBlocks | backend/services/static/gtfs_processing.py:200-228 | a service's rows are exactly the blocks of its routes list that continue the chain from the seed |
| BusNumbers.ServiceLabelsFromTrips | backend/services/static/gtfs_processing.py:203-226 | every row's suffix is numeric and comes from a trip of the service on the route found for the row's short name |
| BusNumbers.ServiceEntries | backend/services/static/gtfs_processing.py:226 | each label becomes the row `block_<suffix>`, `<route>/<NN>`, service; a row's block id reads back as the labelled number, and no two rows share a block id |
| BusNumbers.BusScheduleNumbers | backend/services/static/gtfs_processing.py:196-231 | the bus table is built exactly when every calendar service is, and otherwise fails with the first failing service's error; its rows and lookups are stated by `BusTable.TableRows`, `TableBuilt`, `TableKeysDistinct` and the `Lookup*` rows |
| BusTable.TableRows | backend/services/static/gtfs_processing.py:196-231 | the bus table is built exactly when every service is; each row belongs to the service it names, and every row of every service is in the table |
| BusTable.TableBuilt | backend/services/static/gtfs_processing.py:196-231 | the bus table is built exactly when every calendar service meets the feed condition of `ServiceLabelsOutcome` |
| BusTable.TableKeysDistinct | backend/services/static/gtfs_processing.py:196-231 | with each service listed once, no two rows share a block id and a service id |
| BusTable.LookupLabelled | backend/services/static/gtfs_processing.py:396-402 | looking up a labelled block of a service gives back `<route>/<NN>` for that label |
| BusTable.LookupFinds | backend/services/static/gtfs_processing.py:396-402 | the lookup succeeds exactly when the service is listed and its walk labelled a block with that id |
| ScheduleTables.JoinedKeysDistinct | backend/services/static/gtfs_processing.py:201-228 | rows of distinct services with distinct blocks per service give a table with distinct (block, service) pairs |
| ScheduleTables.JoinedLookup | backend/services/static/gtfs_processing.py:401 | looking up any row's block and service in the joined table gives that row's number |
| ScheduleTables.JoinedLookupFinds | backend/services/static/gtfs_processing.py:401 | the lookup succeeds exactly when some service with that id lists the block |
| TramNumbers.ServiceBlocks | backend/services/static/gtfs_processing.py:170 | a service's block ids are exactly those of its trips, each once |
| TramNumbers.BlockRouteIds | backend/services/static/gtfs_processing.py:172 | a block's route ids are those of its trips in any service, one per trip in trip order, so first appearances follow the trips table |
| TramNumbers.BlockRoute | backend/services/static/gtfs_processing.py:172-176 | a block's route is one of its trips' routes, and the one whose first appearance comes latest |
| TramNumbers.LastDistinct | backend/services/static/gtfs_processing.py:172-176 | the last distinct value is in the list and appears first no earlier than any other value |
| TramNumbers.AssignmentLeIsTotalPreorder | backend/services/static/gtfs_processing.py:179 | comparing `(route_id, block_id)` keys is total and transitive |
| TramNumbers.ServiceAssignments | backend/services/static/gtfs_processing.py:170-179 | one assignment per distinct block of the service, none twice, each with its block's route, sorted by route id and then block id |
| TramNumbers.CountersCount | backend/services/static/gtfs_processing.py:180-188 | after any prefix of the loop a route's counter is 1 plus the assignments of that route handled so far |
| TramNumbers.CountersRank | backend/services/static/gtfs_processing.py:180-188 | each assignment is numbered 1 plus the number of earlier assignments of its route |
| TramNumbers.NumbersFollowOrder | backend/services/static/gtfs_processing.py:179-188 | routes come in string order of route id; within a route, blocks come in strictly ascending string order with strictly rising numbers |
| TramNumbers.NumbersHaveNoGaps | backend/services/static/gtfs_processing.py:180-188 | every number from 1 to a route's block count is given to some block of that route |
| TramNumbers.LabelAllOutcome | backend/services/static/gtfs_processing.py:185 | numbering fails exactly when some assigned route id has no routes row, and the error names such a route id |
| TramNumbers.LabelAllRows | backend/services/static/gtfs_processing.py:185-187 | each row carries its block, its route's short name with its counter, and the service |
| TramNumbers.NumberAssignments | backend/services/static/gtfs_processing.py:180-191 | the rows follow the sorted assignments, each numbered with its route's short name and its rank in the route; failure exactly on an unknown route id |
| TramNumbers.TramService | backend/services/static/gtfs_processing.py:168-191 | a service's rows carry its id and cover exactly the blocks of its trips, each once; it fails exactly when an assigned route id is unknown |
| TramNumbers.TramServiceRow | backend/services/static/gtfs_processing.py:179-188 | the `k`-th row of a service is the `k`-th assignment's block, numbered with its route's name and rank |
| TramNumbers.TramScheduleNumbers | backend/services/static/gtfs_processing.py:164-193 | the tram table is built exactly when every calendar service is, and otherwise fails with the first failing service's error; its rows and lookups are stated by `TramService`, `TramServiceRow` and the `TramTable` rows |
| TramTable.LookupFinds | backend/services/static/gtfs_processing.py:396-402 | a block has a number in a service exactly when the service is listed and a trip of that service runs on the block |
| TramTable.LookupNumbered | backend/services/static/gtfs_processing.py:396-402 | looking up a service's `k`-th block gives back its route's short name with the block's rank in the route |
| RouteLabels.RoutesWithLabels | backend/services/static/gtfs_processing.py:29-89 | a built list has the fifteen headings; when it is built and what each heading holds are stated by `RoutesWithLabelsOk`, `TramNameError`, `BusNameError`, `Headings`, `RouteGroup` and the `*GroupContents` rows |
| RouteLabels.BusGroup | backend/services/static/gtfs_processing.py:53-72 | a bus number is grouped exactly when it is below 1000; its heading is "miejskie" below 200 and one per hundred above |
| RouteLabels.TramGroup | backend/services/static/gtfs_processing.py:74-87 | a tram number is grouped exactly when it is below 90; its heading is "dzienne" below 40 and one per ten above |
| RouteLabels.SortedBusRoutes | backend/services/static/gtfs_processing.py:31 | the bus routes are permuted into string order of short names |
| RouteLabels.SortedTramRoutes | backend/services/static/gtfs_processing.py:34 | the tram routes are permuted into numeric order of line numbers |
| RouteLabels.Headings | backend/services/static/gtfs_processing.py:36-52 | the built list has the fifteen headings of the dictionary, in its order |
| RouteLabels.TramBand | backend/services/static/gtfs_processing.py:74-87 | a tram heading holds each tram route of its band as often as the input does, and nothing else |
| RouteLabels.TramBandOrder | backend/services/static/gtfs_processing.py:74-87 | filling a tram heading from the numerically sorted routes keeps them in line-number order |
| RouteLabels.BusBand | backend/services/static/gtfs_processing.py:53-72 | a bus heading holds each bus route of its band as often as the input does, and nothing else |
| RouteLabels.BusBandOrder | backend/services/static/gtfs_processing.py:53-72 | filling a bus heading from the sorted routes keeps them in string order of short names |
| RouteLabels.RoutesWithLabelsOk | backend/services/static/gtfs_processing.py:29-89 | the list is built exactly when every bus and tram short name is a number |
| RouteLabels.TramNameError | backend/services/static/gtfs_processing.py:34 | a non-numeric tram name makes the list fail on the first such name in file order |
| RouteLabels.BusNameError | backend/services/static/gtfs_processing.py:53-54 | with all tram names numeric, a non-numeric bus name makes the list fail on the least such name in string order |
| RouteLabels.TramGroupContents | backend/services/static/gtfs_processing.py:74-87 | a tram heading holds exactly the tram routes of its band, with their multiplicity, in ascending line-number order |
| RouteLabels.BusGroupContents | backend/services/static/gtfs_processing.py:53-72 | a bus heading holds exactly the bus routes of its band, with their multiplicity, in string order of short names |
| RouteLabels.RouteGroup | backend/services/static/gtfs_processing.py:53-87 | a route is under a heading iff it is of the heading's class and band; a tram route from 90 up and a bus route from 1000 up are nowhere |
| EndTime.AdjustEndTime | backend/services/static/gtfs_processing.py:247-255 | the result exists exactly when the hour and minute fields are numbers; it fails on a non-numeric hour first, then on a missing minute field, then on a non-numeric minute |
| EndTime.ClockTime | backend/services/static/gtfs_processing.py:255 | the clock text splits at its colon into the two padded numbers |
| EndTime.AdjustEndTimeReadsBack | backend/services/static/gtfs_processing.py:247-255 | the result reads back as the hour less 24 once when it was 24 or more and as the unchanged minute; each field has two digits when small enough |
| EndTime.SecondsDropped | backend/services/static/gtfs_processing.py:248-250 | anything after the minute field does not change the result |
| EndTime.AdjustEndTimeIdempotent | backend/services/static/gtfs_processing.py:247-255 | for an hour below 48, adjusting the result again changes nothing |
| EndTime.AdjustTwoFields | backend/services/static/gtfs_processing.py:247-255 | a numeric `HH:MM` is adjusted field by field |
| EndTime.HourFortyEight | backend/services/static/gtfs_processing.py:252-253 | the hour loses 24 only once: "48:00:00" becomes "24:00", which adjusts to "00:00" |
| Timetable.DecomposeTripId | backend/services/static/gtfs_processing.py:384-386 | the block is the first two fields rejoined, the trip number is the fourth field and the service is the sixth field onward rejoined; missing fields give empty text |
| Timetable.DecomposeFeedTripId | backend/services/static/gtfs_processing.py:384-388 | a trip id written as the feed writes it decomposes into the block, number and service it was written from |
| Timetable.Candidates | backend/services/static/gtfs_processing.py:382-388 | a row is a candidate exactly when it comes from a stop time at the stop, on one of the blocks, on the service |
| Timetable.FilterDirection | backend/services/static/gtfs_processing.py:389-392 | direction 0 or 1 fails exactly on a non-numeric trip number, naming the first; otherwise it keeps exactly the rows of the direction's parity, and any other direction keeps all |
| Timetable.TimetableRows | backend/services/static/gtfs_processing.py:382-394 | the timetable fails exactly when the direction filters parity and a candidate's trip number is not a number; otherwise it holds exactly the candidates of the direction |
| Timetable.TimetableData | backend/services/static/gtfs_processing.py:373-394 | an unknown route number fails with "no route", a route without trips of its class fails with "no trips", and a timetable exists only for a known number |
| Timetable.TimetableDataOutcome | backend/services/static/gtfs_processing.py:373-394 | the timetable is built exactly when the number names a route, trips of its class run it, and for direction 0 or 1 every departure of the route at the stop on the service has a numeric trip number |
| Timetable.TimetableTripNumberError | backend/services/static/gtfs_processing.py:389-392 | for direction 0 or 1 the timetable fails on the first departure, in stop-time order, whose trip number is not a number |
| Timetable.TimetableDataRows | backend/services/static/gtfs_processing.py:373-394 | a row is in the timetable exactly when it comes from a stop time of the route's class at the stop, on the service, on a block the route runs, in the direction |
| Timetable.DirectionsPartition | backend/services/static/gtfs_processing.py:389-392 | directions 0 and 1 split the unfiltered timetable: both exist together, no row is in both, and their union is the whole |

## Left out

- I/O is not modelled: reading the feed, writing the CSV files (`create_csv_with_schedule_numbers`), and the database and realtime lookups (`check_for_realtime_data`, the weekday test of `get_schedule_data`). The clock and the network have no pure meaning.
- `get_stops_list` is modelled only up to choosing the route and the vehicle class (lines 98-110). The stop-name join and the direction grouping are pandas merges with no rule of their own.
- `get_schedule_data` is modelled only for its block order (lines 276-279). The rest assembles a dictionary from lookups modelled here and from the I/O above.
- `get_schedule_route_short_name` is modelled only for its block-id rule (line 337, as `Text.JoinSplit` and `Timetable.DecomposeTripId`). `Counter.most_common` (line 342) breaks ties by insertion order, and this model has no counterpart for it.
- `get_route_short_name_from_route_id`, `get_block_id_list_for_route_short_name`, `get_schedule_from_block_id` and `get_routes_list_from_block_id` are thin pandas selections. The first is the same lookup as `Lookups.ShortNameOf`.
- `get_trips_data_from_vehicle_type` raises on a vehicle type other than bus or tram (line 333). The model's vehicle class has only those two values, so that error cannot arise.
- pandas index resets are not modelled. Those on lines 10-11 and 17-18 only turn the routes' index back into a column, and the one on line 272 acts on a filtered copy. The one on line 275 resets the class's shared stop-times frame in place. The loader indexed that frame by `trip_id`, so any later `get_timetable_data` for the same vehicle class would split an integer index on line 384 and raise. The model assumes freshly loaded stop-times frames indexed by trip id and does not model this change of state.
- Text.ParseNat: models `int()` on a non-empty run of ASCII digits only. Python also accepts a sign, surrounding whitespace, underscores between digits and non-ASCII Unicode decimal digits (such as full-width `"５２"`), and such text is rejected here.
- Ordering.SortBy: the contract states order and permutation but not stability. The order of keys that compare equal (`"5"` and `"05"` under `key=int`) is not stated. numpy's `argsort` (lines 31 and 34) is not stable in any case.
- RouteLabels.SortedTramRoutes: `astype(int)` on line 34 is modelled with the same digits-only parse.
- BusNumbers.BusRouteBlocksRouteError: when two failing short names have the same number (`"5"` and `"05"`), which of them is reported is not stated, because the sort's order of equal keys is not stated.
- The schedule-number lookups (`BusTable.LookupLabelled`, `BusTable.LookupFinds`, `TramTable.LookupFinds`, `TramTable.LookupNumbered`) read the table the assigner returns. The program writes it with `to_csv` (lines 156 and 158) and reads it back with `pd.read_csv`, which infers column types; the model assumes the written table reads back unchanged, which holds when block and service ids are not all-digit text.
- TramNumbers.LabelAllOutcome: a failure is stated to name some unknown route id, not the first one. The function itself stops at the first.
- Timetable.TimetableRows: states which rows the timetable holds, not their order or multiplicity. Both follow the stop-times table.
- Timetable.TimetableData: `direction` is an integer. A string direction from an HTTP query would compare unequal to 0 and 1, and would apply no filter.
- EndTime.AdjustEndTime: a negative hour such as `"-1:00"` fails in the model. Python's `int()` would accept it.
- The frontend, the HTTP wiring, protobuf decoding and the older duplicate `backend/services/gtfs_processing.py` are outside the static timetable core.
