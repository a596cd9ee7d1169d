/** Lookups and validation rules of the query side: which route a number
    names, which blocks a route runs, which schedule number a block carries,
    and the numeric order blocks are listed in. */
module Lookups {
  import opened Results
  import opened Text
  import opened Ordering
  import opened Collections
  import opened Tables

  datatype VehicleClass = Bus | Tram

  function HasShortName(name: string): Route -> bool {
    (r: Route) => r.shortName == name
  }

  function HasRouteId(routeId: string): Route -> bool {
    (r: Route) => r.routeId == routeId
  }

  function OnRoute(routeId: string): Trip -> bool {
    (t: Trip) => t.routeId == routeId
  }

  /** `routes[routes["route_id"] == route_id]["route_short_name"].values[0]`:
      the short name on the first row with this route id. */
  function ShortNameOf(routes: seq<Route>, routeId: string): (r: Result<string>)
    ensures r.Ok? ==> exists i :: 0 <= i < |routes| && routes[i] == Route(routeId, r.value)
                                   && forall j :: 0 <= j < i ==> routes[j].routeId != routeId
    ensures r.Err? <==> forall i :: 0 <= i < |routes| ==> routes[i].routeId != routeId
    ensures r.Err? ==> r.error == UnknownRouteId(routeId)
  {
    match FindFirst(routes, HasRouteId(routeId))
    case Some(i) => Ok(routes[i].shortName)
    case None => Err(UnknownRouteId(routeId))
  }

  /** `routes[routes["route_short_name"] == name]["route_id"].values[0]`:
      the route id on the first row with this short name. */
  function RouteIdOf(routes: seq<Route>, name: string): (r: Result<string>)
    ensures r.Ok? ==> exists i :: 0 <= i < |routes| && routes[i] == Route(r.value, name)
                                   && forall j :: 0 <= j < i ==> routes[j].shortName != name
    ensures r.Err? <==> forall i :: 0 <= i < |routes| ==> routes[i].shortName != name
    ensures r.Err? ==> r.error == NoRouteForNumber(name)
  {
    match FindFirst(routes, HasShortName(name))
    case Some(i) => Ok(routes[i].routeId)
    case None => Err(NoRouteForNumber(name))
  }

  /** The route check of `get_stops_list`: the route number must name exactly
      one row of the bus and tram route tables taken together. */
  function ResolveRoute(routes: seq<Route>, number: string): (r: Result<string>)
    ensures r.Ok? <==> CountIf(routes, HasShortName(number)) == 1
    ensures r.Ok? ==> Route(r.value, number) in routes
    ensures r == Err(NoRouteForNumber(number)) <==> CountIf(routes, HasShortName(number)) == 0
    ensures r == Err(MultipleRoutesForNumber(number)) <==> CountIf(routes, HasShortName(number)) > 1
  {
    var matching := FilterBy(routes, HasShortName(number));
    if |matching| == 0 then Err(NoRouteForNumber(number))
    else if |matching| > 1 then Err(MultipleRoutesForNumber(number))
    else
      assert matching[0] in matching;
      Ok(matching[0].routeId)
  }

  /** `get_stops_list` resolves the number over bus rows followed by tram
      rows, then reads the bus tables for three-character numbers and the
      tram tables otherwise. */
  function StopsRoute(busRoutes: seq<Route>, tramRoutes: seq<Route>, number: string): (r: Result<(string, VehicleClass)>)
    ensures r.Ok? ==> Route(r.value.0, number) in busRoutes + tramRoutes
    ensures r.Ok? ==> (r.value.1 == Bus <==> |number| == 3)
    ensures r.Ok? <==> CountIf(busRoutes + tramRoutes, HasShortName(number)) == 1
  {
    var routeId :- ResolveRoute(busRoutes + tramRoutes, number);
    Ok((routeId, if |number| == 3 then Bus else Tram))
  }

  /** Every block id of the trips on a route, in table order, repeats kept. */
  function BlocksOfTrips(trips: seq<Trip>): (r: seq<string>)
    ensures |r| == |trips|
    ensures forall i :: 0 <= i < |trips| ==> r[i] == trips[i].blockId
  {
    seq(|trips|, i requires 0 <= i < |trips| => trips[i].blockId)
  }

  lemma LexLeIsTotalPreorder()
    ensures TotalPreorder(LexLe)
  {
    forall a, b ensures LexLe(a, b) || LexLe(b, a) { LexLeTotal(a, b); }
    forall a, b, c | LexLe(a, b) && LexLe(b, c) ensures LexLe(a, c) { LexLeTrans(a, b, c); }
  }

  /** `trips[trips["route_id"] == route_id]["block_id"].drop_duplicates()`. */
  function DistinctRouteBlocks(trips: seq<Trip>, routeId: string): (r: seq<string>)
    ensures forall b :: b in r <==> exists t :: t in trips && t.routeId == routeId && t.blockId == b
    ensures NoDuplicates(r)
  {
    var onRoute := FilterBy(trips, OnRoute(routeId));
    var r := Distinct(BlocksOfTrips(onRoute));
    assert forall b :: b in r <==> exists t :: t in trips && t.routeId == routeId && t.blockId == b by {
      forall b ensures b in r <==> exists t :: t in trips && t.routeId == routeId && t.blockId == b {
        if b in r {
          var i :| 0 <= i < |onRoute| && BlocksOfTrips(onRoute)[i] == b;
          assert onRoute[i] in onRoute;
        }
        if exists t :: t in trips && t.routeId == routeId && t.blockId == b {
          var t :| t in trips && t.routeId == routeId && t.blockId == b;
          assert t in onRoute;
          var i :| 0 <= i < |onRoute| && onRoute[i] == t;
          assert BlocksOfTrips(onRoute)[i] == b;
        }
      }
    }
    r
  }

  /** `get_block_ids_from_route_id`: the distinct block ids of the route's
      trips in ascending string order; no trip on the route is an error. */
  function BlockIdsOfRoute(trips: seq<Trip>, routeId: string): (r: Result<seq<string>>)
    ensures r.Err? <==> forall t :: t in trips ==> t.routeId != routeId
    ensures r.Err? ==> r.error == NoTripsForRoute(routeId)
    ensures r.Ok? ==> forall b :: b in r.value <==> exists t :: t in trips && t.routeId == routeId && t.blockId == b
    ensures r.Ok? ==> forall i, j :: 0 <= i < j < |r.value| ==> LexLe(r.value[i], r.value[j]) && r.value[i] != r.value[j]
  {
    var onRoute := FilterBy(trips, OnRoute(routeId));
    if |onRoute| == 0 then Err(NoTripsForRoute(routeId))
    else
      assert onRoute[0] in onRoute;
      LexLeIsTotalPreorder();
      var distinct := DistinctRouteBlocks(trips, routeId);
      var sorted := SortBy(distinct, LexLe);
      NoDuplicatesPermutation(distinct, sorted);
      SameElements(distinct, sorted);
      Ok(sorted)
  }

  lemma SameElements<T>(xs: seq<T>, ys: seq<T>)
    requires multiset(xs) == multiset(ys)
    ensures forall x :: x in xs <==> x in ys
  {
    forall x ensures x in xs <==> x in ys {
      assert x in xs <==> x in multiset(xs);
      assert x in ys <==> x in multiset(ys);
    }
  }

  /** A rearrangement of a duplicate-free sequence is duplicate-free. */
  lemma NoDuplicatesPermutation<T>(xs: seq<T>, ys: seq<T>)
    requires NoDuplicates(xs) && multiset(xs) == multiset(ys)
    ensures NoDuplicates(ys)
  {
    forall i, j | 0 <= i < j < |ys| ensures ys[i] != ys[j] {
      if ys[i] == ys[j] {
        assert ys == ys[..j] + ys[j..];
        assert ys[i] in multiset(ys[..j]) && ys[j] in multiset(ys[j..]);
        assert multiset(ys)[ys[i]] >= 2;
        MultiplicityOfDistinct(xs, ys[i]);
      }
    }
  }

  lemma {:induction false} MultiplicityOfDistinct<T>(xs: seq<T>, x: T)
    requires NoDuplicates(xs)
    ensures multiset(xs)[x] <= 1
  {
    if |xs| > 0 {
      assert xs == [xs[0]] + xs[1..];
      MultiplicityOfDistinct(xs[1..], x);
      if xs[0] == x {
        assert x !in xs[1..];
      }
    }
  }

  function HasBlockAndService(blockId: string, serviceId: string): Entry -> bool {
    (e: Entry) => e.blockId == blockId && e.serviceId == serviceId
  }

  /** `get_schedule_number_from_block_id`: the schedule number of the first
      row for this (block, service) pair; no such row is an error. */
  function ScheduleNumberOf(entries: seq<Entry>, blockId: string, serviceId: string): (r: Result<string>)
    ensures r.Ok? ==> exists i :: 0 <= i < |entries| && entries[i] == Entry(blockId, r.value, serviceId)
                                   && forall j :: 0 <= j < i ==> !(entries[j].blockId == blockId && entries[j].serviceId == serviceId)
    ensures r.Err? <==> forall e :: e in entries ==> !(e.blockId == blockId && e.serviceId == serviceId)
    ensures r.Err? ==> r.error == NoScheduleNumber(blockId, serviceId)
  {
    match FindFirst(entries, HasBlockAndService(blockId, serviceId))
    case Some(i) => Ok(entries[i].scheduleNumber)
    case None => Err(NoScheduleNumber(blockId, serviceId))
  }

  /** A row for the pair is enough for the lookup to succeed. */
  lemma ScheduleNumberOfRow(entries: seq<Entry>, e: Entry)
    requires e in entries
    ensures ScheduleNumberOf(entries, e.blockId, e.serviceId).Ok?
  {
  }

  /** A schedule-number table whose (block, service) pairs are all distinct
      answers every lookup with the row's own number. */
  lemma {:induction false} ScheduleNumberOfUniqueRow(entries: seq<Entry>, k: nat)
    requires k < |entries|
    requires forall i, j :: 0 <= i < j < |entries| ==>
               entries[i].blockId != entries[j].blockId || entries[i].serviceId != entries[j].serviceId
    ensures ScheduleNumberOf(entries, entries[k].blockId, entries[k].serviceId) == Ok(entries[k].scheduleNumber)
  {
    var r := ScheduleNumberOf(entries, entries[k].blockId, entries[k].serviceId);
    assert entries[k] in entries;
    var i :| 0 <= i < |entries| && entries[i] == Entry(entries[k].blockId, r.value, entries[k].serviceId)
             && forall j :: 0 <= j < i ==> !(entries[j].blockId == entries[k].blockId && entries[j].serviceId == entries[k].serviceId);
    if i < k {
    } else if k < i {
    }
  }

  /** The numeric suffix of a block id: `int(block_id.split('_')[1])`. */
  function BlockSuffix(blockId: string): (r: Result<nat>)
    ensures r.Ok? <==> Field(blockId, '_', 1).Ok? && IsNumeral(Field(blockId, '_', 1).value)
    ensures r.Ok? ==> ParseNat(Split(blockId, '_')[1]) == Some(r.value)
  {
    var text :- Field(blockId, '_', 1);
    ParseNatOrFail(text)
  }

  function SuffixKey(blockId: string): nat {
    match BlockSuffix(blockId)
    case Ok(n) => n
    case Err(_) => 0
  }

  predicate SuffixLe(a: string, b: string) { SuffixKey(a) <= SuffixKey(b) }

  /** A block id whose suffix `int()` rejects. */
  predicate BadSuffix(blockId: string) { BlockSuffix(blockId).Err? }

  /** `sorted(block_ids, key=lambda x: int(x.split('_')[1]))`. */
  function OrderBlocksNumerically(blockIds: seq<string>): (r: Result<seq<string>>)
    ensures r.Ok? <==> forall i :: 0 <= i < |blockIds| ==> BlockSuffix(blockIds[i]).Ok?
    ensures r.Ok? ==> multiset(r.value) == multiset(blockIds)
    ensures r.Ok? ==> forall i :: 0 <= i < |r.value| ==> BlockSuffix(r.value[i]).Ok?
    ensures r.Ok? ==> forall i, j :: 0 <= i < j < |r.value| ==>
                        BlockSuffix(r.value[i]).value <= BlockSuffix(r.value[j]).value
    ensures r.Err? ==> exists i :: 0 <= i < |blockIds| && BlockSuffix(blockIds[i]).Err? && r.error == BlockSuffix(blockIds[i]).error
                                   && forall j :: 0 <= j < i ==> BlockSuffix(blockIds[j]).Ok?
  {
    match FindFirst(blockIds, BadSuffix)
    case Some(i) => Err(BlockSuffix(blockIds[i]).error)
    case None =>
      var sorted := SortBy(blockIds, SuffixLe);
      assert forall i :: 0 <= i < |sorted| ==> BlockSuffix(sorted[i]).Ok? by {
        forall i | 0 <= i < |sorted| ensures BlockSuffix(sorted[i]).Ok? {
          assert sorted[i] in multiset(blockIds);
        }
      }
      Ok(sorted)
  }

  /** Lines 276-279 of `get_schedule_data`: the route's distinct block ids in
      numeric order of their suffix. A route without trips lists nothing. */
  function ScheduleBlockOrder(trips: seq<Trip>, routeId: string): (r: Result<seq<string>>)
    ensures r.Ok? ==> forall b :: b in r.value <==> exists t :: t in trips && t.routeId == routeId && t.blockId == b
    ensures r.Ok? ==> NoDuplicates(r.value)
    ensures r.Ok? ==> forall i :: 0 <= i < |r.value| ==> BlockSuffix(r.value[i]).Ok?
    ensures r.Ok? ==> forall i, j :: 0 <= i < j < |r.value| ==>
                        BlockSuffix(r.value[i]).value <= BlockSuffix(r.value[j]).value
    ensures r.Err? ==> exists t :: t in trips && t.routeId == routeId && BlockSuffix(t.blockId).Err?
                                   && r.error == BlockSuffix(t.blockId).error
  {
    var distinct := DistinctRouteBlocks(trips, routeId);
    var ordered := OrderBlocksNumerically(distinct);
    if ordered.Err? then
      BadSuffixOnRoute(trips, routeId);
      ordered
    else
      NoDuplicatesPermutation(distinct, ordered.value);
      SameElements(distinct, ordered.value);
      ordered
  }

  lemma BadSuffixOnRoute(trips: seq<Trip>, routeId: string)
    requires OrderBlocksNumerically(DistinctRouteBlocks(trips, routeId)).Err?
    ensures exists t :: t in trips && t.routeId == routeId && BlockSuffix(t.blockId).Err?
                        && OrderBlocksNumerically(DistinctRouteBlocks(trips, routeId)).error == BlockSuffix(t.blockId).error
  {
    var distinct := DistinctRouteBlocks(trips, routeId);
    var i :| 0 <= i < |distinct| && BlockSuffix(distinct[i]).Err?
             && OrderBlocksNumerically(distinct).error == BlockSuffix(distinct[i]).error;
    assert distinct[i] in distinct;
  }

  /** `sorted` computes its keys in list order and the block list keeps the
      order in which the route's trips first name each block, so the error
      is the one raised by the block of the route's first trip (in table
      order) whose suffix `int()` rejects. */
  lemma ScheduleBlockOrderFirstError(trips: seq<Trip>, routeId: string, i: nat)
    requires i < |trips| && trips[i].routeId == routeId && BlockSuffix(trips[i].blockId).Err?
    requires forall j :: 0 <= j < i && trips[j].routeId == routeId ==> BlockSuffix(trips[j].blockId).Ok?
    ensures ScheduleBlockOrder(trips, routeId) == Err(BlockSuffix(trips[i].blockId).error)
  {
    var onRoute := FilterBy(trips, OnRoute(routeId));
    FilterByFirst(trips, OnRoute(routeId), TripBadSuffix, i);
    var k := FindFirst(onRoute, TripBadSuffix).value;
    var blocks := BlocksOfTrips(onRoute);
    FindFirstIs(blocks, BadSuffix, k);
    DistinctFirst(blocks, BadSuffix, k);
    var distinct := Distinct(blocks);
    assert DistinctRouteBlocks(trips, routeId) == distinct;
    var m := FindFirst(distinct, BadSuffix).value;
    assert distinct[m] == trips[i].blockId;
  }

  predicate TripBadSuffix(t: Trip) { BlockSuffix(t.blockId).Err? }
}
