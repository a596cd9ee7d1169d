/** The stop timetable of `get_timetable_data`: the departures at one stop of
    one route's blocks on one service day, optionally narrowed to one
    direction by the parity of the trip number. A trip id of the feed reads
    "block_<k>_trip_<n>_service_<s>", and the timetable takes it apart on
    its underscores. */
module Timetable {
  import opened Results
  import opened Text
  import opened Collections
  import opened Tables
  import opened Lookups

  /** The parts of a trip id the timetable reads. */
  datatype TripIdParts = TripIdParts(blockId: string, tripNumber: string, service: string)

  /** Lines 384-386: the block is the first two underscore fields joined
      again (the same rule as line 337), the trip number is the fourth field
      and the service is every field from the sixth on. Missing fields give
      empty text, as Python's slices do. */
  function DecomposeTripId(tripId: string): (p: TripIdParts)
    ensures |Split(tripId, '_')| == 1 ==> p.blockId == tripId
    ensures |Split(tripId, '_')| >= 2 ==> p.blockId == Split(tripId, '_')[0] + "_" + Split(tripId, '_')[1]
    ensures |Split(tripId, '_')| >= 4 ==> p.tripNumber == Split(tripId, '_')[3]
    ensures |Split(tripId, '_')| < 4 ==> p.tripNumber == ""
    ensures |Split(tripId, '_')| <= 5 ==> p.service == ""
    ensures |Split(tripId, '_')| >= 6 ==> p.service == Join(Split(tripId, '_')[5..], '_')
    ensures '_' !in p.tripNumber
  {
    var fields := Split(tripId, '_');
    SplitSingleField(tripId);
    JoinFirstTwo(fields);
    assert |fields| >= 6 ==> Slice(fields, 5, |fields|) == fields[5..];
    TripIdParts(Join(Slice(fields, 0, 2), '_'), Join(Slice(fields, 3, 4), '_'), Join(Slice(fields, 5, |fields|), '_'))
  }

  /** A string that splits into one field is that field. */
  lemma SplitSingleField(s: string)
    ensures |Split(s, '_')| == 1 ==> Split(s, '_')[0] == s
  {
    JoinSplit(s, '_');
  }

  lemma JoinFirstTwo(fields: seq<string>)
    ensures |fields| >= 2 ==> Join(Slice(fields, 0, 2), '_') == fields[0] + "_" + fields[1]
  {
    if |fields| >= 2 {
      assert Slice(fields, 0, 2)[1..] == [fields[1]];
    }
  }

  /** Round trip: the parts of a trip id written as the feed writes it are
      the block id, the trip number and the service suffix it was written
      from, so `"service_" + service` gives back the service id. */
  lemma DecomposeFeedTripId(block: string, number: string, service: string)
    requires '_' !in block && '_' !in number
    ensures DecomposeTripId("block_" + block + "_trip_" + number + "_service_" + service)
            == TripIdParts("block_" + block, number, service)
  {
    var tripId := "block_" + block + "_trip_" + number + "_service_" + service;
    var fields := ["block", block, "trip", number, "service"] + Split(service, '_');
    SplitFeedTripId(block, number, service);
    assert Slice(fields, 0, 2) == ["block", block];
    assert Slice(fields, 3, 4) == [number];
    assert Slice(fields, 5, |fields|) == Split(service, '_');
    JoinSplit(service, '_');
  }

  lemma SplitFeedTripId(block: string, number: string, service: string)
    requires '_' !in block && '_' !in number
    ensures Split("block_" + block + "_trip_" + number + "_service_" + service, '_')
            == ["block", block, "trip", number, "service"] + Split(service, '_')
  {
    var tail := "trip_" + number + "_service_" + service;
    assert "block_" + block + "_trip_" + number + "_service_" + service == "block" + "_" + (block + "_" + tail);
    SplitCons("block", '_', block + "_" + tail);
    SplitCons(block, '_', tail);
    SplitTripTail(number, service);
  }

  lemma SplitTripTail(number: string, service: string)
    requires '_' !in number
    ensures Split("trip_" + number + "_service_" + service, '_') == ["trip", number, "service"] + Split(service, '_')
  {
    var tail := "service_" + service;
    assert "trip_" + number + "_service_" + service == "trip" + "_" + (number + "_" + tail);
    SplitCons("trip", '_', number + "_" + tail);
    SplitCons(number, '_', tail);
    assert tail == "service" + "_" + service;
    SplitCons("service", '_', service);
  }

  /** One record of the result (lines 381-386): the departure, the stop and
      the three parts of the stop time's trip id. */
  datatype TimetableRow = TimetableRow(departureTime: string, stopId: string, blockId: string, tripNumber: string, service: string)

  function RowOf(st: StopTime): TimetableRow {
    var p := DecomposeTripId(st.tripId);
    TimetableRow(st.departureTime, st.stopId, p.blockId, p.tripNumber, p.service)
  }

  /** Lines 381 and 388: a stop time at the stop whose trip runs on one of
      the route's blocks on the requested service. */
  predicate Candidate(blockIds: seq<string>, stopId: string, serviceId: string, st: StopTime) {
    && st.stopId == stopId
    && RowOf(st).blockId in blockIds
    && "service_" + RowOf(st).service == serviceId
  }

  /** Lines 389-392: direction 0 keeps even trip numbers, direction 1 odd
      ones, and any other direction keeps every row. */
  predicate MatchesDirection(direction: int, row: TimetableRow) {
    if direction == 0 then NumericKey(row.tripNumber) % 2 == 0
    else if direction == 1 then NumericKey(row.tripNumber) % 2 == 1
    else true
  }

  predicate ParityFiltered(direction: int) { direction == 0 || direction == 1 }

  predicate BadTripNumber(row: TimetableRow) { !IsNumeral(row.tripNumber) }

  function CandidateOf(blockIds: seq<string>, stopId: string, serviceId: string): StopTime -> bool {
    (st: StopTime) => Candidate(blockIds, stopId, serviceId, st)
  }

  function InDirection(direction: int): TimetableRow -> bool {
    (row: TimetableRow) => MatchesDirection(direction, row)
  }

  /** Lines 381-388: the candidate rows, in stop-time order. */
  function Candidates(stopTimes: seq<StopTime>, blockIds: seq<string>, stopId: string, serviceId: string): (rows: seq<TimetableRow>)
    ensures forall row :: row in rows <==> exists st :: st in stopTimes && Candidate(blockIds, stopId, serviceId, st) && RowOf(st) == row
  {
    var kept := FilterBy(stopTimes, CandidateOf(blockIds, stopId, serviceId));
    var rows := seq(|kept|, i requires 0 <= i < |kept| => RowOf(kept[i]));
    assert forall row :: row in rows <==> exists st :: st in kept && RowOf(st) == row by {
      forall row | row in rows ensures exists st :: st in kept && RowOf(st) == row {
        var i :| 0 <= i < |rows| && rows[i] == row;
        assert kept[i] in kept;
      }
      forall st | st in kept ensures RowOf(st) in rows {
        var i :| 0 <= i < |kept| && kept[i] == st;
        assert rows[i] == RowOf(st);
      }
    }
    rows
  }

  /** Lines 389-392 on the candidate rows. For direction 0 or 1 every trip
      number is converted with `astype(int)`, which raises on the first one
      that is not a number. */
  function FilterDirection(rows: seq<TimetableRow>, direction: int): (r: Result<seq<TimetableRow>>)
    ensures r.Ok? <==> !ParityFiltered(direction) || forall i :: 0 <= i < |rows| ==> IsNumeral(rows[i].tripNumber)
    ensures r.Err? ==> exists i :: 0 <= i < |rows| && !IsNumeral(rows[i].tripNumber) && r.error == NotANumber(rows[i].tripNumber)
                                   && forall j :: 0 <= j < i ==> IsNumeral(rows[j].tripNumber)
    ensures r.Ok? ==> forall row :: row in r.value <==> row in rows && MatchesDirection(direction, row)
  {
    if !ParityFiltered(direction) then Ok(rows)
    else match FindFirst(rows, BadTripNumber)
      case Some(i) => Err(NotANumber(rows[i].tripNumber))
      case None => Ok(FilterBy(rows, InDirection(direction)))
  }

  /** The departures at a stop for a route's blocks on a service day, in
      one direction or both. */
  function TimetableRows(stopTimes: seq<StopTime>, blockIds: seq<string>, stopId: string, serviceId: string, direction: int): (r: Result<seq<TimetableRow>>)
    ensures r.Ok? <==> (!ParityFiltered(direction) ||
                        forall st :: st in stopTimes && Candidate(blockIds, stopId, serviceId, st) ==> IsNumeral(RowOf(st).tripNumber))
    ensures r.Err? ==> exists st :: && st in stopTimes && Candidate(blockIds, stopId, serviceId, st)
                                   && r.error == NotANumber(RowOf(st).tripNumber) && !IsNumeral(RowOf(st).tripNumber)
    ensures r.Ok? ==> forall row :: row in r.value <==>
              exists st :: st in stopTimes && Candidate(blockIds, stopId, serviceId, st) && RowOf(st) == row && MatchesDirection(direction, row)
  {
    var rows := Candidates(stopTimes, blockIds, stopId, serviceId);
    FilterCandidates(rows, stopTimes, blockIds, stopId, serviceId, direction);
    FilterDirection(rows, direction)
  }

  lemma FilterCandidates(rows: seq<TimetableRow>, stopTimes: seq<StopTime>, blockIds: seq<string>, stopId: string, serviceId: string, direction: int)
    requires forall row :: row in rows <==> exists st :: st in stopTimes && Candidate(blockIds, stopId, serviceId, st) && RowOf(st) == row
    ensures FilterDirection(rows, direction).Ok? <==> (!ParityFiltered(direction) ||
              forall st :: st in stopTimes && Candidate(blockIds, stopId, serviceId, st) ==> IsNumeral(RowOf(st).tripNumber))
    ensures FilterDirection(rows, direction).Err? ==>
              exists st :: && st in stopTimes && Candidate(blockIds, stopId, serviceId, st)
                           && FilterDirection(rows, direction).error == NotANumber(RowOf(st).tripNumber) && !IsNumeral(RowOf(st).tripNumber)
    ensures FilterDirection(rows, direction).Ok? ==> forall row :: row in FilterDirection(rows, direction).value <==>
              exists st :: st in stopTimes && Candidate(blockIds, stopId, serviceId, st) && RowOf(st) == row && MatchesDirection(direction, row)
  {
    var r := FilterDirection(rows, direction);
    CandidateNumbers(rows, stopTimes, blockIds, stopId, serviceId);
    if r.Err? {
      var i :| 0 <= i < |rows| && !IsNumeral(rows[i].tripNumber) && r.error == NotANumber(rows[i].tripNumber);
      assert rows[i] in rows;
    }
  }

  lemma CandidateNumbers(rows: seq<TimetableRow>, stopTimes: seq<StopTime>, blockIds: seq<string>, stopId: string, serviceId: string)
    requires forall row :: row in rows <==> exists st :: st in stopTimes && Candidate(blockIds, stopId, serviceId, st) && RowOf(st) == row
    ensures (forall i :: 0 <= i < |rows| ==> IsNumeral(rows[i].tripNumber)) <==>
            forall st :: st in stopTimes && Candidate(blockIds, stopId, serviceId, st) ==> IsNumeral(RowOf(st).tripNumber)
  {
    if forall i :: 0 <= i < |rows| ==> IsNumeral(rows[i].tripNumber) {
      forall st | st in stopTimes && Candidate(blockIds, stopId, serviceId, st) ensures IsNumeral(RowOf(st).tripNumber) {
        assert RowOf(st) in rows;
        var i :| 0 <= i < |rows| && rows[i] == RowOf(st);
      }
    }
    if forall st :: st in stopTimes && Candidate(blockIds, stopId, serviceId, st) ==> IsNumeral(RowOf(st).tripNumber) {
      forall i | 0 <= i < |rows| ensures IsNumeral(rows[i].tripNumber) {
        assert rows[i] in rows;
      }
    }
  }

  /** Lines 374-379: a route number of three characters or more is a bus
      line and reads the bus tables; a shorter one reads the tram tables. */
  predicate IsBusNumber(routeNumber: string) { |routeNumber| >= 3 }

  /** The trips of the route number's vehicle class. */
  function ClassTrips(routeNumber: string, busTrips: seq<Trip>, tramTrips: seq<Trip>): seq<Trip> {
    if IsBusNumber(routeNumber) then busTrips else tramTrips
  }

  /** The stop times of the route number's vehicle class. */
  function ClassStopTimes(routeNumber: string, busStopTimes: seq<StopTime>, tramStopTimes: seq<StopTime>): seq<StopTime> {
    if IsBusNumber(routeNumber) then busStopTimes else tramStopTimes
  }

  /** A departure of the route at the stop on the service: the stop time is
      at the stop, its trip id names the service, and some trip of the
      route runs the block its trip id names. */
  predicate Departs(trips: seq<Trip>, routeId: string, stopId: string, serviceId: string, st: StopTime) {
    && st.stopId == stopId
    && "service_" + RowOf(st).service == serviceId
    && exists t :: t in trips && t.routeId == routeId && t.blockId == RowOf(st).blockId
  }

  predicate BadStopTime(st: StopTime) { !IsNumeral(RowOf(st).tripNumber) }

  /** `get_timetable_data`, lines 373-394: the route number is resolved in
      the bus and tram routes together (lines 367-370), the route's blocks
      come from the trips of its vehicle class (lines 357-365), and the
      stop times of that class are filtered by stop, block, service and
      direction. */
  function TimetableData(busRoutes: seq<Route>, tramRoutes: seq<Route>, busTrips: seq<Trip>, tramTrips: seq<Trip>,
                         busStopTimes: seq<StopTime>, tramStopTimes: seq<StopTime>,
                         routeNumber: string, direction: int, stopId: string, serviceId: string): (r: Result<seq<TimetableRow>>)
    ensures (forall route :: route in busRoutes + tramRoutes ==> route.shortName != routeNumber) ==>
              r == Err(NoRouteForNumber(routeNumber))
    ensures RouteIdOf(busRoutes + tramRoutes, routeNumber).Ok? &&
            (forall t :: t in (if IsBusNumber(routeNumber) then busTrips else tramTrips) ==>
               t.routeId != RouteIdOf(busRoutes + tramRoutes, routeNumber).value) ==>
              r == Err(NoTripsForRoute(RouteIdOf(busRoutes + tramRoutes, routeNumber).value))
    ensures r.Ok? ==> exists i :: 0 <= i < |busRoutes + tramRoutes| && (busRoutes + tramRoutes)[i].shortName == routeNumber
  {
    var routeId :- RouteIdOf(busRoutes + tramRoutes, routeNumber);
    var trips := ClassTrips(routeNumber, busTrips, tramTrips);
    var stopTimes := ClassStopTimes(routeNumber, busStopTimes, tramStopTimes);
    var blockIds :- BlockIdsOfRoute(trips, routeId);
    TimetableRows(stopTimes, blockIds, stopId, serviceId, direction)
  }

  /** A row is in the timetable exactly when it comes from a stop time of
      the route's vehicle class at the stop, on the service, whose block
      some trip of the route runs, and whose trip number has the
      direction's parity. */
  lemma TimetableDataRows(busRoutes: seq<Route>, tramRoutes: seq<Route>, busTrips: seq<Trip>, tramTrips: seq<Trip>,
                          busStopTimes: seq<StopTime>, tramStopTimes: seq<StopTime>,
                          routeNumber: string, direction: int, stopId: string, serviceId: string, row: TimetableRow)
    requires TimetableData(busRoutes, tramRoutes, busTrips, tramTrips, busStopTimes, tramStopTimes, routeNumber, direction, stopId, serviceId).Ok?
    ensures RouteIdOf(busRoutes + tramRoutes, routeNumber).Ok?
    ensures row in TimetableData(busRoutes, tramRoutes, busTrips, tramTrips, busStopTimes, tramStopTimes, routeNumber, direction, stopId, serviceId).value
            <==> exists st :: && st in (if IsBusNumber(routeNumber) then busStopTimes else tramStopTimes)
                              && st.stopId == stopId
                              && "service_" + RowOf(st).service == serviceId
                              && (exists t :: && t in (if IsBusNumber(routeNumber) then busTrips else tramTrips)
                                              && t.routeId == RouteIdOf(busRoutes + tramRoutes, routeNumber).value
                                              && t.blockId == RowOf(st).blockId)
                              && MatchesDirection(direction, RowOf(st))
                              && RowOf(st) == row
  {
    var routeId := RouteIdOf(busRoutes + tramRoutes, routeNumber).value;
    var trips := if IsBusNumber(routeNumber) then busTrips else tramTrips;
    var stopTimes := if IsBusNumber(routeNumber) then busStopTimes else tramStopTimes;
    var blockIds := BlockIdsOfRoute(trips, routeId).value;
    assert TimetableData(busRoutes, tramRoutes, busTrips, tramTrips, busStopTimes, tramStopTimes, routeNumber, direction, stopId, serviceId)
           == TimetableRows(stopTimes, blockIds, stopId, serviceId, direction);
  }

  /** The timetable is built exactly when the route number names a route,
      some trip of its vehicle class runs that route, and, for direction 0
      or 1, every departure of the route at the stop on the service has a
      numeric trip number for `astype(int)` (lines 389-392). */
  lemma TimetableDataOutcome(busRoutes: seq<Route>, tramRoutes: seq<Route>, busTrips: seq<Trip>, tramTrips: seq<Trip>,
                             busStopTimes: seq<StopTime>, tramStopTimes: seq<StopTime>,
                             routeNumber: string, direction: int, stopId: string, serviceId: string)
    ensures TimetableData(busRoutes, tramRoutes, busTrips, tramTrips, busStopTimes, tramStopTimes, routeNumber, direction, stopId, serviceId).Ok?
            <==> && RouteIdOf(busRoutes + tramRoutes, routeNumber).Ok?
                 && (exists t :: t in ClassTrips(routeNumber, busTrips, tramTrips) && t.routeId == RouteIdOf(busRoutes + tramRoutes, routeNumber).value)
                 && (ParityFiltered(direction) ==>
                       forall st :: st in ClassStopTimes(routeNumber, busStopTimes, tramStopTimes)
                                    && Departs(ClassTrips(routeNumber, busTrips, tramTrips), RouteIdOf(busRoutes + tramRoutes, routeNumber).value, stopId, serviceId, st)
                                    ==> IsNumeral(RowOf(st).tripNumber))
  {
    var routes := busRoutes + tramRoutes;
    if RouteIdOf(routes, routeNumber).Ok? {
      var routeId := RouteIdOf(routes, routeNumber).value;
      var trips := ClassTrips(routeNumber, busTrips, tramTrips);
      if BlockIdsOfRoute(trips, routeId).Ok? {
        DepartsAreCandidates(trips, routeId, stopId, serviceId);
      }
    }
  }

  lemma DepartsAreCandidates(trips: seq<Trip>, routeId: string, stopId: string, serviceId: string)
    requires BlockIdsOfRoute(trips, routeId).Ok?
    ensures forall st :: Candidate(BlockIdsOfRoute(trips, routeId).value, stopId, serviceId, st) <==> Departs(trips, routeId, stopId, serviceId, st)
  {
  }

  /** `astype(int)` converts the trip numbers in stop-time order, so for
      direction 0 or 1 the timetable fails on the first departure (in the
      stop-time table's order) whose trip number is not a number. */
  lemma TimetableTripNumberError(busRoutes: seq<Route>, tramRoutes: seq<Route>, busTrips: seq<Trip>, tramTrips: seq<Trip>,
                                 busStopTimes: seq<StopTime>, tramStopTimes: seq<StopTime>,
                                 routeNumber: string, direction: int, stopId: string, serviceId: string, k: nat)
    requires RouteIdOf(busRoutes + tramRoutes, routeNumber).Ok? && ParityFiltered(direction)
    requires k < |ClassStopTimes(routeNumber, busStopTimes, tramStopTimes)|
    requires Departs(ClassTrips(routeNumber, busTrips, tramTrips), RouteIdOf(busRoutes + tramRoutes, routeNumber).value, stopId, serviceId,
                     ClassStopTimes(routeNumber, busStopTimes, tramStopTimes)[k])
    requires !IsNumeral(RowOf(ClassStopTimes(routeNumber, busStopTimes, tramStopTimes)[k]).tripNumber)
    requires forall j :: 0 <= j < k && Departs(ClassTrips(routeNumber, busTrips, tramTrips), RouteIdOf(busRoutes + tramRoutes, routeNumber).value,
                                               stopId, serviceId, ClassStopTimes(routeNumber, busStopTimes, tramStopTimes)[j])
                         ==> IsNumeral(RowOf(ClassStopTimes(routeNumber, busStopTimes, tramStopTimes)[j]).tripNumber)
    ensures TimetableData(busRoutes, tramRoutes, busTrips, tramTrips, busStopTimes, tramStopTimes, routeNumber, direction, stopId, serviceId)
            == Err(NotANumber(RowOf(ClassStopTimes(routeNumber, busStopTimes, tramStopTimes)[k]).tripNumber))
  {
    var routeId := RouteIdOf(busRoutes + tramRoutes, routeNumber).value;
    var trips := ClassTrips(routeNumber, busTrips, tramTrips);
    var stopTimes := ClassStopTimes(routeNumber, busStopTimes, tramStopTimes);
    assert BlockIdsOfRoute(trips, routeId).Ok?;
    var blockIds := BlockIdsOfRoute(trips, routeId).value;
    DepartsAreCandidates(trips, routeId, stopId, serviceId);
    var cand := CandidateOf(blockIds, stopId, serviceId);
    FilterByFirst(stopTimes, cand, BadStopTime, k);
    var kept := FilterBy(stopTimes, cand);
    var f := FindFirst(kept, BadStopTime).value;
    var rows := Candidates(stopTimes, blockIds, stopId, serviceId);
    assert rows == seq(|kept|, i requires 0 <= i < |kept| => RowOf(kept[i]));
    FindFirstIs(rows, BadTripNumber, f);
  }

  /** The two directions split the stop's departures: whenever one
      direction can be served both can, no row is in both, and together
      they hold exactly the rows of the unfiltered timetable. */
  lemma DirectionsPartition(stopTimes: seq<StopTime>, blockIds: seq<string>, stopId: string, serviceId: string, other: int)
    requires !ParityFiltered(other)
    requires TimetableRows(stopTimes, blockIds, stopId, serviceId, 0).Ok? || TimetableRows(stopTimes, blockIds, stopId, serviceId, 1).Ok?
    ensures TimetableRows(stopTimes, blockIds, stopId, serviceId, 0).Ok? && TimetableRows(stopTimes, blockIds, stopId, serviceId, 1).Ok?
    ensures TimetableRows(stopTimes, blockIds, stopId, serviceId, other).Ok?
    ensures forall row :: row in TimetableRows(stopTimes, blockIds, stopId, serviceId, other).value <==>
              row in TimetableRows(stopTimes, blockIds, stopId, serviceId, 0).value ||
              row in TimetableRows(stopTimes, blockIds, stopId, serviceId, 1).value
    ensures forall row :: !(row in TimetableRows(stopTimes, blockIds, stopId, serviceId, 0).value &&
                            row in TimetableRows(stopTimes, blockIds, stopId, serviceId, 1).value)
  {
  }
}
