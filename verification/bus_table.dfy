/** The bus schedule-number table as a whole, and how
    `get_schedule_number_from_block_id` answers from it. */
module BusTable {
  import opened Results
  import opened Collections
  import opened Tables
  import opened Lookups
  import opened ScheduleTables
  import opened BusNumbers

  /** Every row of the table belongs to the service it names, and every row
      of a listed service is in the table. */
  lemma TableRows(routes: seq<Route>, trips: seq<Trip>, services: seq<string>)
    ensures BusScheduleNumbers(routes, trips, services).Ok? <==>
              forall i :: 0 <= i < |services| ==> ServiceEntries(routes, trips, services[i]).Ok?
    ensures BusScheduleNumbers(routes, trips, services).Ok? ==>
              forall e :: e in BusScheduleNumbers(routes, trips, services).value ==>
                e.serviceId in services && ServiceEntries(routes, trips, e.serviceId).Ok?
                && e in ServiceEntries(routes, trips, e.serviceId).value
    ensures BusScheduleNumbers(routes, trips, services).Ok? ==>
              forall i, e :: 0 <= i < |services| && e in ServiceEntries(routes, trips, services[i]).value ==>
                e in BusScheduleNumbers(routes, trips, services).value
  {
    if BusScheduleNumbers(routes, trips, services).Ok? {
      RowsOfTable(routes, trips, services);
      TableHasRows(routes, trips, services);
    }
  }

  /** The bus table is built exactly when the feed gives every service of
      the calendar its labels. */
  lemma TableBuilt(routes: seq<Route>, trips: seq<Trip>, services: seq<string>)
    ensures BusScheduleNumbers(routes, trips, services).Ok? <==>
              forall i :: 0 <= i < |services| ==> ServiceBuilds(routes, trips, services[i])
  {
    TableRows(routes, trips, services);
    forall i | 0 <= i < |services|
      ensures ServiceEntries(routes, trips, services[i]).Ok? <==> ServiceBuilds(routes, trips, services[i])
    {
      ServiceLabelsOutcome(routes, trips, services[i]);
    }
  }

  lemma RowsOfTable(routes: seq<Route>, trips: seq<Trip>, services: seq<string>)
    requires BusScheduleNumbers(routes, trips, services).Ok?
    ensures forall e :: e in BusScheduleNumbers(routes, trips, services).value ==>
              e.serviceId in services && ServiceEntries(routes, trips, e.serviceId).Ok?
              && e in ServiceEntries(routes, trips, e.serviceId).value
  {
    var rs := PerService(routes, trips, services);
    forall e: Entry | e in JoinAll(rs).value
      ensures e.serviceId in services && ServiceEntries(routes, trips, e.serviceId).Ok?
              && e in ServiceEntries(routes, trips, e.serviceId).value
    {
      var i :| 0 <= i < |rs| && e in rs[i].value;
      ServiceRowsWellFormed(routes, trips, services[i]);
    }
  }

  lemma TableHasRows(routes: seq<Route>, trips: seq<Trip>, services: seq<string>)
    requires BusScheduleNumbers(routes, trips, services).Ok?
    ensures forall i, e :: 0 <= i < |services| && e in ServiceEntries(routes, trips, services[i]).value ==>
              e in BusScheduleNumbers(routes, trips, services).value
  {
    var rs := PerService(routes, trips, services);
    forall i, e | 0 <= i < |services| && e in ServiceEntries(routes, trips, services[i]).value
      ensures e in JoinAll(rs).value
    {
      assert e in rs[i].value;
    }
  }

  /** Once every service got its rows, each row carries its service's id
      and no service names a block twice. */
  lemma BusWellFormed(routes: seq<Route>, trips: seq<Trip>, services: seq<string>)
    requires BusScheduleNumbers(routes, trips, services).Ok?
    ensures WellFormed(PerService(routes, trips, services), services)
  {
    var rs := PerService(routes, trips, services);
    forall i | 0 <= i < |rs|
      ensures (forall e :: e in rs[i].value ==> e.serviceId == services[i]) && NoDuplicates(EntryBlocks(rs[i].value))
    {
      ServiceRowsWellFormed(routes, trips, services[i]);
    }
  }

  lemma ServiceRowsWellFormed(routes: seq<Route>, trips: seq<Trip>, service: string)
    requires ServiceEntries(routes, trips, service).Ok?
    ensures forall e :: e in ServiceEntries(routes, trips, service).value ==> e.serviceId == service
    ensures NoDuplicates(EntryBlocks(ServiceEntries(routes, trips, service).value))
  {
    var es := ServiceEntries(routes, trips, service).value;
    RowsWellFormed(es, service);
  }

  lemma RowsWellFormed(es: seq<Entry>, service: string)
    requires forall k :: 0 <= k < |es| ==> es[k].serviceId == service
    requires forall i, j :: 0 <= i < j < |es| ==> es[i].blockId != es[j].blockId
    ensures forall e :: e in es ==> e.serviceId == service
    ensures NoDuplicates(EntryBlocks(es))
  {
  }

  /** With each service listed once, no two rows share a block id and a
      service id. */
  lemma TableKeysDistinct(routes: seq<Route>, trips: seq<Trip>, services: seq<string>)
    requires NoDuplicates(services)
    requires BusScheduleNumbers(routes, trips, services).Ok?
    ensures forall p, q :: 0 <= p < q < |BusScheduleNumbers(routes, trips, services).value| ==>
              || BusScheduleNumbers(routes, trips, services).value[p].blockId != BusScheduleNumbers(routes, trips, services).value[q].blockId
              || BusScheduleNumbers(routes, trips, services).value[p].serviceId != BusScheduleNumbers(routes, trips, services).value[q].serviceId
  {
    BusWellFormed(routes, trips, services);
    JoinedKeysDistinct(PerService(routes, trips, services), services);
  }

  /** Round trip: looking up a labelled block of a service in the table
      (line 401) gives back `<route>/<NN>` for that block. Services are
      distinct because `service_id` is the key of calendar.txt. */
  lemma LookupLabelled(routes: seq<Route>, trips: seq<Trip>, services: seq<string>, i: nat, k: nat)
    requires NoDuplicates(services)
    requires BusScheduleNumbers(routes, trips, services).Ok?
    requires i < |services|
    requires ServiceLabels(routes, trips, services[i]).Ok? && k < |ServiceLabels(routes, trips, services[i]).value|
    ensures ScheduleNumberOf(BusScheduleNumbers(routes, trips, services).value,
                             "block_" + ServiceLabels(routes, trips, services[i]).value[k].suffix, services[i])
            == Ok(ScheduleLabel(ServiceLabels(routes, trips, services[i]).value[k].route,
                                ServiceLabels(routes, trips, services[i]).value[k].ordinal))
  {
    BusWellFormed(routes, trips, services);
    JoinedLookup(PerService(routes, trips, services), services, i, k);
  }

  /** The lookup finds a row exactly when the service is in the calendar
      and the walk labelled a block with that id in it; any other block id
      raises (line 401). */
  lemma LookupFinds(routes: seq<Route>, trips: seq<Trip>, services: seq<string>, blockId: string, service: string)
    requires BusScheduleNumbers(routes, trips, services).Ok?
    ensures ScheduleNumberOf(BusScheduleNumbers(routes, trips, services).value, blockId, service).Ok? <==>
              && service in services
              && ServiceLabels(routes, trips, service).Ok?
              && exists l :: l in ServiceLabels(routes, trips, service).value && "block_" + l.suffix == blockId
  {
    var rs := PerService(routes, trips, services);
    BusWellFormed(routes, trips, services);
    if service in services {
      var i :| 0 <= i < |services| && services[i] == service;
      assert rs[i] == ServiceEntries(routes, trips, service);
      BlocksAreLabels(routes, trips, service);
      JoinedLookupFindsIn(rs, services, blockId, service, ServiceEntries(routes, trips, service).value);
    } else {
      JoinedLookupFinds(rs, services, blockId, service);
    }
  }

  /** The block ids of a service's rows are the labelled suffixes. */
  lemma BlocksAreLabels(routes: seq<Route>, trips: seq<Trip>, service: string)
    requires ServiceEntries(routes, trips, service).Ok?
    ensures forall b :: b in EntryBlocks(ServiceEntries(routes, trips, service).value) <==>
              exists l :: l in ServiceLabels(routes, trips, service).value && "block_" + l.suffix == b
  {
    var es := ServiceEntries(routes, trips, service).value;
    var ls := ServiceLabels(routes, trips, service).value;
    BlocksOfLabels(es, ls);
  }

  lemma BlocksOfLabels(es: seq<Entry>, ls: seq<Label>)
    requires |es| == |ls| && forall k :: 0 <= k < |es| ==> es[k].blockId == "block_" + ls[k].suffix
    ensures forall b :: b in EntryBlocks(es) <==> exists l :: l in ls && "block_" + l.suffix == b
  {
  }
}
