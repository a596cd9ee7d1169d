/** The tram schedule-number table as a whole, and how
    `get_schedule_number_from_block_id` answers from it. */
module TramTable {
  import opened Results
  import opened Collections
  import opened Tables
  import opened Lookups
  import opened ScheduleTables
  import opened TramNumbers

  /** Once every service got its rows, each row carries its service's id
      and no service names a block twice. */
  lemma TramWellFormed(routes: seq<Route>, trips: seq<Trip>, services: seq<string>)
    requires TramScheduleNumbers(routes, trips, services).Ok?
    ensures WellFormed(PerService(routes, trips, services), services)
  {
  }

  /** A block has a number in a service exactly when a trip of that service
      runs on it; any other pair makes the lookup of line 401 raise. */
  lemma LookupFinds(routes: seq<Route>, trips: seq<Trip>, services: seq<string>, blockId: string, service: string)
    requires TramScheduleNumbers(routes, trips, services).Ok?
    ensures ScheduleNumberOf(TramScheduleNumbers(routes, trips, services).value, blockId, service).Ok? <==>
              service in services && exists t :: t in trips && t.serviceId == service && t.blockId == blockId
  {
    TramWellFormed(routes, trips, services);
    JoinedLookupFinds(PerService(routes, trips, services), services, blockId, service);
  }

  /** Round trip: looking up the `k`-th block of a listed service gives
      back the short name of the block's route with the block's rank in
      that route. Services are distinct because `service_id` is the key of
      calendar.txt. */
  lemma LookupNumbered(routes: seq<Route>, trips: seq<Trip>, services: seq<string>, service: string, k: nat)
    requires NoDuplicates(services)
    requires TramScheduleNumbers(routes, trips, services).Ok?
    requires service in services && k < |ServiceAssignments(trips, service)|
    ensures ShortNameOf(routes, ServiceAssignments(trips, service)[k].routeId).Ok?
    ensures ScheduleNumberOf(TramScheduleNumbers(routes, trips, services).value,
                             ServiceAssignments(trips, service)[k].blockId, service)
            == Ok(ScheduleLabel(ShortNameOf(routes, ServiceAssignments(trips, service)[k].routeId).value,
                                1 + CountIf(ServiceAssignments(trips, service)[..k],
                                            SameRoute(ServiceAssignments(trips, service)[k].routeId))))
  {
    var i :| 0 <= i < |services| && services[i] == service;
    var row := TramServiceRow(routes, trips, service, k);
    LookupRow(routes, trips, services, i, k);
  }

  lemma LookupRow(routes: seq<Route>, trips: seq<Trip>, services: seq<string>, i: nat, k: nat)
    requires NoDuplicates(services)
    requires TramScheduleNumbers(routes, trips, services).Ok?
    requires i < |services| && k < |TramService(routes, trips, services[i]).value|
    ensures ScheduleNumberOf(TramScheduleNumbers(routes, trips, services).value,
                             TramService(routes, trips, services[i]).value[k].blockId, services[i])
            == Ok(TramService(routes, trips, services[i]).value[k].scheduleNumber)
  {
    TramWellFormed(routes, trips, services);
    JoinedLookup(PerService(routes, trips, services), services, i, k);
  }
}
