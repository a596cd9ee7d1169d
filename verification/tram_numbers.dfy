/** Schedule numbers for the tram feed (`create_df_with_schedule_numbers_tram`).

    For one service every distinct block of the service's trips is given
    one route: the last of the distinct route ids that the block's trips
    carry in any service, in order of first appearance. The (block, route)
    pairs are sorted by route id and then block id, both as strings, and
    numbered per route id from 1 in that order; the schedule number is
    `"<short name>/<NN>"` with the short name of the first routes row with
    that route id. A route id with no routes row raises. */
module TramNumbers {
  import opened Results
  import opened Text
  import opened Ordering
  import opened Collections
  import opened Tables
  import opened Lookups

  /** A block of one service and the route it is numbered under: one of
      the dicts of line 177 before its schedule number is set. */
  datatype Assignment = Assignment(blockId: string, routeId: string)

  function InService(service: string): Trip -> bool {
    (t: Trip) => t.serviceId == service
  }

  function OnBlock(blockId: string): Trip -> bool {
    (t: Trip) => t.blockId == blockId
  }

  /** The distinct block ids of the service's trips, in trip order
      (line 170). */
  function ServiceBlocks(trips: seq<Trip>, service: string): (r: seq<string>)
    ensures forall b :: b in r <==> exists t :: t in trips && t.serviceId == service && t.blockId == b
    ensures NoDuplicates(r)
  {
    var inService := FilterBy(trips, InService(service));
    var r := Distinct(BlocksOfTrips(inService));
    assert forall b :: b in r <==> exists t :: t in trips && t.serviceId == service && t.blockId == b by {
      forall b ensures b in r <==> exists t :: t in trips && t.serviceId == service && t.blockId == b {
        if b in r {
          var i :| 0 <= i < |inService| && BlocksOfTrips(inService)[i] == b;
          assert inService[i] in inService;
        }
        if exists t :: t in trips && t.serviceId == service && t.blockId == b {
          var t :| t in trips && t.serviceId == service && t.blockId == b;
          assert t in inService;
          var i :| 0 <= i < |inService| && inService[i] == t;
          assert BlocksOfTrips(inService)[i] == b;
        }
      }
    }
    r
  }

  /** The route ids of the block's trips over all services, in trip order,
      repeats included (line 172 before `drop_duplicates`). */
  function BlockRouteIds(trips: seq<Trip>, blockId: string): (r: seq<string>)
    ensures forall x :: x in r <==> exists t :: t in trips && t.blockId == blockId && t.routeId == x
    ensures |r| == |FilterBy(trips, OnBlock(blockId))|
    ensures forall i :: 0 <= i < |r| ==> r[i] == FilterBy(trips, OnBlock(blockId))[i].routeId
  {
    var onBlock := FilterBy(trips, OnBlock(blockId));
    var r := seq(|onBlock|, i requires 0 <= i < |onBlock| => onBlock[i].routeId);
    assert forall x :: x in r <==> exists t :: t in trips && t.blockId == blockId && t.routeId == x by {
      forall x ensures x in r <==> exists t :: t in trips && t.blockId == blockId && t.routeId == x {
        if x in r {
          var i :| 0 <= i < |r| && r[i] == x;
          assert onBlock[i] in onBlock;
        }
        if exists t :: t in trips && t.blockId == blockId && t.routeId == x {
          var t :| t in trips && t.blockId == blockId && t.routeId == x;
          assert t in onBlock;
          var i :| 0 <= i < |onBlock| && onBlock[i] == t;
          assert r[i] == x;
        }
      }
    }
    r
  }

  /** Lines 172-176: the block's route is the last of its distinct route
      ids, so the one whose first appearance among the block's trips comes
      latest. Both branches of line 173 pick that element. */
  function BlockRoute(trips: seq<Trip>, blockId: string): (r: string)
    requires exists t :: t in trips && t.blockId == blockId
    ensures exists t :: t in trips && t.blockId == blockId && t.routeId == r
    ensures forall t :: t in trips && t.blockId == blockId ==>
              FirstIndex(BlockRouteIds(trips, blockId), t.routeId) <= FirstIndex(BlockRouteIds(trips, blockId), r)
  {
    var all := BlockRouteIds(trips, blockId);
    assert |all| > 0 by {
      var t0 :| t0 in trips && t0.blockId == blockId;
      assert t0.routeId in all;
    }
    LastDistinct(all)
  }

  /** The last of the distinct values: the one whose first appearance
      comes latest. */
  function LastDistinct<T(==,!new)>(xs: seq<T>): (r: T)
    requires |xs| > 0
    ensures r in xs
    ensures forall x :: x in xs ==> FirstIndex(xs, x) <= FirstIndex(xs, r)
  {
    var ids := Distinct(xs);
    assert xs[0] in ids;
    var r := ids[|ids| - 1];
    forall x | x in xs ensures FirstIndex(xs, x) <= FirstIndex(xs, r) {
      assert x in ids;
      var j :| 0 <= j < |ids| && ids[j] == x;
      if j < |ids| - 1 {
        assert FirstIndex(xs, ids[j]) < FirstIndex(xs, ids[|ids| - 1]);
      }
    }
    r
  }

  /** Python's comparison of the `(route_id, block_id)` keys of line 179. */
  predicate AssignmentLe(a: Assignment, b: Assignment) {
    if a.routeId == b.routeId then LexLe(a.blockId, b.blockId) else LexLe(a.routeId, b.routeId)
  }

  lemma AssignmentLeIsTotalPreorder()
    ensures TotalPreorder(AssignmentLe)
  {
    forall a, b ensures AssignmentLe(a, b) || AssignmentLe(b, a) {
      LexLeTotal(a.blockId, b.blockId);
      LexLeTotal(a.routeId, b.routeId);
    }
    forall a, b, c | AssignmentLe(a, b) && AssignmentLe(b, c) ensures AssignmentLe(a, c) {
      if a.routeId == b.routeId && b.routeId == c.routeId {
        LexLeTrans(a.blockId, b.blockId, c.blockId);
      } else if a.routeId != b.routeId && b.routeId != c.routeId && a.routeId == c.routeId {
        LexLeAntisym(a.routeId, b.routeId);
      } else if a.routeId != b.routeId && b.routeId != c.routeId {
        LexLeTrans(a.routeId, b.routeId, c.routeId);
      }
    }
  }

  /** The assignment is the one line 177 builds for its block. */
  ghost predicate RouteOfBlock(trips: seq<Trip>, a: Assignment) {
    && (exists t :: t in trips && t.blockId == a.blockId)
    && a.routeId == BlockRoute(trips, a.blockId)
  }

  function BlockIds(assignments: seq<Assignment>): (r: seq<string>)
    ensures |r| == |assignments| && forall i :: 0 <= i < |r| ==> r[i] == assignments[i].blockId
  {
    seq(|assignments|, i requires 0 <= i < |assignments| => assignments[i].blockId)
  }

  /** Lines 170-179: one assignment per distinct block of the service, each
      with its block's route, sorted by route id and then block id. */
  function ServiceAssignments(trips: seq<Trip>, service: string): (r: seq<Assignment>)
    ensures forall b :: b in BlockIds(r) <==> exists t :: t in trips && t.serviceId == service && t.blockId == b
    ensures NoDuplicates(BlockIds(r))
    ensures forall i :: 0 <= i < |r| ==> RouteOfBlock(trips, r[i])
    ensures SortedBy(r, AssignmentLe)
  {
    var blocks := ServiceBlocks(trips, service);
    var unsorted := BlockAssignments(trips, blocks);
    AssignmentLeIsTotalPreorder();
    var r := SortBy(unsorted, AssignmentLe);
    AssignmentsFacts(trips, service, blocks, unsorted, r);
    r
  }

  /** Line 177 for each block in turn. */
  function BlockAssignments(trips: seq<Trip>, blocks: seq<string>): (r: seq<Assignment>)
    requires forall b :: b in blocks ==> exists t :: t in trips && t.blockId == b
    ensures |r| == |blocks|
    ensures forall i :: 0 <= i < |blocks| ==> r[i].blockId == blocks[i] && RouteOfBlock(trips, r[i])
  {
    seq(|blocks|, i requires 0 <= i < |blocks| => assert blocks[i] in blocks; Assignment(blocks[i], BlockRoute(trips, blocks[i])))
  }

  lemma AssignmentsFacts(trips: seq<Trip>, service: string, blocks: seq<string>, unsorted: seq<Assignment>, r: seq<Assignment>)
    requires forall b :: b in blocks <==> exists t :: t in trips && t.serviceId == service && t.blockId == b
    requires NoDuplicates(blocks)
    requires |unsorted| == |blocks|
    requires forall i :: 0 <= i < |blocks| ==> unsorted[i].blockId == blocks[i] && RouteOfBlock(trips, unsorted[i])
    requires multiset(r) == multiset(unsorted)
    ensures forall b :: b in BlockIds(r) <==> exists t :: t in trips && t.serviceId == service && t.blockId == b
    ensures NoDuplicates(BlockIds(r))
    ensures forall i :: 0 <= i < |r| ==> RouteOfBlock(trips, r[i])
  {
    SameElements(unsorted, r);
    forall i | 0 <= i < |r| ensures RouteOfBlock(trips, r[i]) {
      assert r[i] in unsorted;
    }
    forall b ensures b in BlockIds(r) <==> exists t :: t in trips && t.serviceId == service && t.blockId == b {
      if b in BlockIds(r) {
        var i :| 0 <= i < |r| && BlockIds(r)[i] == b;
        assert r[i] in unsorted;
        var j :| 0 <= j < |unsorted| && unsorted[j] == r[i];
        assert blocks[j] == b;
      }
      if b in blocks {
        var j :| 0 <= j < |blocks| && blocks[j] == b;
        assert unsorted[j] in r;
        var i :| 0 <= i < |r| && r[i] == unsorted[j];
        assert BlockIds(r)[i] == b;
      }
    }
    NoDuplicatesPermutation(unsorted, r) by {
      forall i, j | 0 <= i < j < |unsorted| ensures unsorted[i] != unsorted[j] {
        assert unsorted[i].blockId == blocks[i] != blocks[j] == unsorted[j].blockId;
      }
    }
    forall i, j | 0 <= i < |r| && 0 <= j < |r| && r[i].blockId == r[j].blockId ensures r[i] == r[j] {
      assert RouteOfBlock(trips, r[i]) && RouteOfBlock(trips, r[j]);
    }
  }

  function SameRoute(routeId: string): Assignment -> bool {
    (a: Assignment) => a.routeId == routeId
  }

  /** The counter a route holds in `route_counters`: 1 when the route has
      no entry yet (line 183). */
  function Current(counters: map<string, nat>, routeId: string): nat {
    if routeId in counters then counters[routeId] else 1
  }

  /** `route_counters` after the loop of lines 181-186 has handled
      `assignments`: each step uses its route's counter and moves it on by
      one. */
  function CountersAfter(assignments: seq<Assignment>): map<string, nat>
  {
    if |assignments| == 0 then map[]
    else
      var counters := CountersAfter(assignments[..|assignments| - 1]);
      var routeId := assignments[|assignments| - 1].routeId;
      counters[routeId := Current(counters, routeId) + 1]
  }

  /** The NN each assignment receives: its route's counter when the loop
      reaches it (line 185). */
  function Counters(assignments: seq<Assignment>): (ns: seq<nat>)
    ensures |ns| == |assignments|
  {
    seq(|assignments|, i requires 0 <= i < |assignments| => Current(CountersAfter(assignments[..i]), assignments[i].routeId))
  }

  /** After any prefix of the loop a route's counter is 1 plus the number
      of assignments of that route handled so far. */
  lemma {:induction false} CountersCount(assignments: seq<Assignment>, routeId: string)
    ensures Current(CountersAfter(assignments), routeId) == 1 + CountIf(assignments, SameRoute(routeId))
  {
    if |assignments| > 0 {
      CountersCount(assignments[..|assignments| - 1], routeId);
    }
  }

  /** The counter loop numbers each assignment by its rank within its route:
      1 plus the number of earlier assignments with the same route id. */
  lemma CountersRank(assignments: seq<Assignment>)
    ensures forall i :: 0 <= i < |assignments| ==>
              Counters(assignments)[i] == 1 + CountIf(assignments[..i], SameRoute(assignments[i].routeId))
  {
    forall i | 0 <= i < |assignments|
      ensures Counters(assignments)[i] == 1 + CountIf(assignments[..i], SameRoute(assignments[i].routeId))
    {
      CountersCount(assignments[..i], assignments[i].routeId);
    }
  }

  /** The order of line 179: blocks are grouped by route id in string
      order, and within one route the block with the smaller id comes first
      and gets the smaller number. */
  lemma NumbersFollowOrder(trips: seq<Trip>, service: string, i: nat, j: nat)
    requires i < j < |ServiceAssignments(trips, service)|
    ensures ServiceAssignments(trips, service)[i].routeId != ServiceAssignments(trips, service)[j].routeId ==>
              LexLe(ServiceAssignments(trips, service)[i].routeId, ServiceAssignments(trips, service)[j].routeId)
    ensures ServiceAssignments(trips, service)[i].routeId == ServiceAssignments(trips, service)[j].routeId ==>
              && LexLe(ServiceAssignments(trips, service)[i].blockId, ServiceAssignments(trips, service)[j].blockId)
              && ServiceAssignments(trips, service)[i].blockId != ServiceAssignments(trips, service)[j].blockId
              && CountIf(ServiceAssignments(trips, service)[..i], SameRoute(ServiceAssignments(trips, service)[i].routeId))
                 < CountIf(ServiceAssignments(trips, service)[..j], SameRoute(ServiceAssignments(trips, service)[j].routeId))
  {
    var a := ServiceAssignments(trips, service);
    assert AssignmentLe(a[i], a[j]);
    assert BlockIds(a)[i] != BlockIds(a)[j];
    CountIfPrefixGrows(a, SameRoute(a[i].routeId), i, j);
  }

  /** No gaps: the numbers a route gets in one service are 1, 2, ... up to
      the number of its blocks. */
  lemma NumbersHaveNoGaps(trips: seq<Trip>, service: string, routeId: string, n: nat)
    requires 1 <= n <= CountIf(ServiceAssignments(trips, service), SameRoute(routeId))
    ensures exists i :: 0 <= i < |ServiceAssignments(trips, service)|
              && ServiceAssignments(trips, service)[i].routeId == routeId
              && 1 + CountIf(ServiceAssignments(trips, service)[..i], SameRoute(routeId)) == n
  {
    CountIfRanks(ServiceAssignments(trips, service), SameRoute(routeId), n);
  }

  /** Lines 184-186 for every assignment in order: the first route id
      without a routes row raises; otherwise the rows carry the block, the
      short name with its counter, and the service. */
  function LabelAll(routes: seq<Route>, assignments: seq<Assignment>, ns: seq<nat>, service: string): (r: Result<seq<Entry>>)
    requires |ns| == |assignments|
    ensures r.Ok? ==> |r.value| == |assignments|
  {
    if |assignments| == 0 then Ok([])
    else
      var name :- ShortNameOf(routes, assignments[0].routeId);
      var rest :- LabelAll(routes, assignments[1..], ns[1..], service);
      Ok([Entry(assignments[0].blockId, ScheduleLabel(name, ns[0]), service)] + rest)
  }

  /** The rows are the assignments in order; each carries its block, the
      service, and its route's short name with NN equal to 1 plus the
      number of earlier assignments of the same route id. */
  ghost predicate NumberedInOrder(routes: seq<Route>, assignments: seq<Assignment>, service: string, rows: seq<Entry>) {
    && |rows| == |assignments|
    && forall i :: 0 <= i < |rows| ==> NumberedAt(routes, assignments, service, rows, i)
  }

  ghost predicate NumberedAt(routes: seq<Route>, assignments: seq<Assignment>, service: string, rows: seq<Entry>, i: nat)
    requires i < |rows| == |assignments|
  {
    && rows[i].blockId == assignments[i].blockId
    && rows[i].serviceId == service
    && ShortNameOf(routes, assignments[i].routeId).Ok?
    && rows[i].scheduleNumber ==
         ScheduleLabel(ShortNameOf(routes, assignments[i].routeId).value,
                       1 + CountIf(assignments[..i], SameRoute(assignments[i].routeId)))
  }

  /** Lines 180-188 on sorted assignments: the rows are the assignments in
      order; each carries its block, the service, and its route's short name
      with NN equal to 1 plus the number of earlier assignments of the same
      route id. Numbering fails exactly when some assigned route id has no
      routes row. */
  function NumberAssignments(routes: seq<Route>, assignments: seq<Assignment>, service: string): (r: Result<seq<Entry>>)
    ensures r.Ok? <==> forall a :: a in assignments ==> ShortNameOf(routes, a.routeId).Ok?
    ensures r.Err? ==> exists a :: a in assignments && ShortNameOf(routes, a.routeId) == Err(r.error)
    ensures r.Ok? ==> NumberedInOrder(routes, assignments, service, r.value)
  {
    var r := LabelAll(routes, assignments, Counters(assignments), service);
    NumberingFacts(routes, assignments, service, r);
    r
  }

  lemma NumberingFacts(routes: seq<Route>, assignments: seq<Assignment>, service: string, r: Result<seq<Entry>>)
    requires r == LabelAll(routes, assignments, Counters(assignments), service)
    ensures r.Ok? <==> forall a :: a in assignments ==> ShortNameOf(routes, a.routeId).Ok?
    ensures r.Err? ==> exists a :: a in assignments && ShortNameOf(routes, a.routeId) == Err(r.error)
    ensures r.Ok? ==> NumberedInOrder(routes, assignments, service, r.value)
  {
    var ns := Counters(assignments);
    CountersRank(assignments);
    LabelAllOutcome(routes, assignments, ns, service, r);
    if r.Ok? {
      LabelAllRows(routes, assignments, ns, service, r);
      forall i | 0 <= i < |r.value| ensures NumberedAt(routes, assignments, service, r.value, i) {
        assert LabelledAs(routes, assignments[i], ns[i], service, r.value[i]);
      }
    }
  }

  /** The rows of one service (lines 168-188): one row per distinct block
      of the service's trips, each with the service id. */
  function TramService(routes: seq<Route>, trips: seq<Trip>, service: string): (r: Result<seq<Entry>>)
    ensures r.Ok? <==> forall a :: a in ServiceAssignments(trips, service) ==> ShortNameOf(routes, a.routeId).Ok?
    ensures r.Ok? ==> forall e :: e in r.value ==> e.serviceId == service
    ensures r.Ok? ==> forall b :: b in EntryBlocks(r.value) <==> exists t :: t in trips && t.serviceId == service && t.blockId == b
    ensures r.Ok? ==> NoDuplicates(EntryBlocks(r.value))
  {
    var assignments := ServiceAssignments(trips, service);
    var r := NumberAssignments(routes, assignments, service);
    if r.Ok? then
      TramServiceRows(routes, trips, service, assignments, r.value);
      r
    else r
  }

  /** The row of the `k`-th assignment of a service: its block, numbered
      with the short name of its route and its rank in that route. */
  lemma TramServiceRow(routes: seq<Route>, trips: seq<Trip>, service: string, k: nat) returns (row: Entry)
    requires TramService(routes, trips, service).Ok? && k < |ServiceAssignments(trips, service)|
    ensures k < |TramService(routes, trips, service).value| && row == TramService(routes, trips, service).value[k]
    ensures row.blockId == ServiceAssignments(trips, service)[k].blockId
    ensures ShortNameOf(routes, ServiceAssignments(trips, service)[k].routeId).Ok?
    ensures row.scheduleNumber ==
              ScheduleLabel(ShortNameOf(routes, ServiceAssignments(trips, service)[k].routeId).value,
                            1 + CountIf(ServiceAssignments(trips, service)[..k], SameRoute(ServiceAssignments(trips, service)[k].routeId)))
  {
    TramServiceUnfold(routes, trips, service);
    NumberedRow(routes, ServiceAssignments(trips, service), service, k);
    row := TramService(routes, trips, service).value[k];
  }

  lemma TramServiceUnfold(routes: seq<Route>, trips: seq<Trip>, service: string)
    ensures TramService(routes, trips, service) == NumberAssignments(routes, ServiceAssignments(trips, service), service)
  {
  }

  lemma NumberedRow(routes: seq<Route>, assignments: seq<Assignment>, service: string, k: nat)
    requires NumberAssignments(routes, assignments, service).Ok? && k < |assignments|
    ensures k < |NumberAssignments(routes, assignments, service).value|
    ensures NumberAssignments(routes, assignments, service).value[k].blockId == assignments[k].blockId
    ensures ShortNameOf(routes, assignments[k].routeId).Ok?
    ensures NumberAssignments(routes, assignments, service).value[k].scheduleNumber ==
              ScheduleLabel(ShortNameOf(routes, assignments[k].routeId).value,
                            1 + CountIf(assignments[..k], SameRoute(assignments[k].routeId)))
  {
    RowNumbered(routes, assignments, service, NumberAssignments(routes, assignments, service).value, k);
  }

  lemma RowNumbered(routes: seq<Route>, assignments: seq<Assignment>, service: string, rows: seq<Entry>, k: nat)
    requires NumberedInOrder(routes, assignments, service, rows) && k < |assignments|
    ensures k < |rows| && rows[k].blockId == assignments[k].blockId
    ensures ShortNameOf(routes, assignments[k].routeId).Ok?
    ensures rows[k].scheduleNumber ==
              ScheduleLabel(ShortNameOf(routes, assignments[k].routeId).value,
                            1 + CountIf(assignments[..k], SameRoute(assignments[k].routeId)))
  {
    assert NumberedAt(routes, assignments, service, rows, k);
  }

  lemma TramServiceRows(routes: seq<Route>, trips: seq<Trip>, service: string, assignments: seq<Assignment>, rows: seq<Entry>)
    requires NumberedInOrder(routes, assignments, service, rows)
    requires forall b :: b in BlockIds(assignments) <==> exists t :: t in trips && t.serviceId == service && t.blockId == b
    requires NoDuplicates(BlockIds(assignments))
    ensures forall e :: e in rows ==> e.serviceId == service
    ensures forall b :: b in EntryBlocks(rows) <==> exists t :: t in trips && t.serviceId == service && t.blockId == b
    ensures NoDuplicates(EntryBlocks(rows))
  {
    forall i | 0 <= i < |rows| ensures rows[i].blockId == assignments[i].blockId && rows[i].serviceId == service {
      assert NumberedAt(routes, assignments, service, rows, i);
    }
    assert EntryBlocks(rows) == BlockIds(assignments);
  }

  /** Lines 184-186 over the whole loop: labelling succeeds exactly when
      every route id has a routes row, and a failure names one that has
      none. */
  lemma {:induction false} LabelAllOutcome(routes: seq<Route>, assignments: seq<Assignment>, ns: seq<nat>, service: string, r: Result<seq<Entry>>)
    requires |ns| == |assignments| && r == LabelAll(routes, assignments, ns, service)
    ensures r.Ok? <==> forall a :: a in assignments ==> ShortNameOf(routes, a.routeId).Ok?
    ensures r.Err? ==> exists a :: a in assignments && ShortNameOf(routes, a.routeId) == Err(r.error)
  {
    if |assignments| > 0 {
      assert assignments == [assignments[0]] + assignments[1..];
      var name := ShortNameOf(routes, assignments[0].routeId);
      if name.Ok? {
        var rest := LabelAll(routes, assignments[1..], ns[1..], service);
        LabelAllOutcome(routes, assignments[1..], ns[1..], service, rest);
        if rest.Err? {
          assert r == Err(rest.error);
        }
      } else {
        assert r == Err(name.error);
      }
    }
  }

  /** The row of an assignment: its block, its route's short name with the
      given counter, and the service. */
  ghost predicate LabelledAs(routes: seq<Route>, a: Assignment, n: nat, service: string, e: Entry) {
    && ShortNameOf(routes, a.routeId).Ok?
    && e == Entry(a.blockId, ScheduleLabel(ShortNameOf(routes, a.routeId).value, n), service)
  }

  /** A successful labelling gives each assignment the row of its own
      route and counter, in order. */
  lemma {:induction false} LabelAllRows(routes: seq<Route>, assignments: seq<Assignment>, ns: seq<nat>, service: string, r: Result<seq<Entry>>)
    requires |ns| == |assignments| && r == LabelAll(routes, assignments, ns, service) && r.Ok?
    ensures forall i :: 0 <= i < |assignments| ==> LabelledAs(routes, assignments[i], ns[i], service, r.value[i])
  {
    if |assignments| > 0 {
      var rest := LabelAll(routes, assignments[1..], ns[1..], service);
      LabelAllCons(routes, assignments, ns, service);
      LabelAllRows(routes, assignments[1..], ns[1..], service, rest);
      forall i | 0 < i < |assignments| ensures LabelledAs(routes, assignments[i], ns[i], service, r.value[i]) {
        assert assignments[i] == assignments[1..][i - 1] && ns[i] == ns[1..][i - 1] && r.value[i] == rest.value[i - 1];
      }
    }
  }

  lemma LabelAllCons(routes: seq<Route>, assignments: seq<Assignment>, ns: seq<nat>, service: string)
    requires |ns| == |assignments| > 0 && LabelAll(routes, assignments, ns, service).Ok?
    ensures LabelAll(routes, assignments[1..], ns[1..], service).Ok?
    ensures LabelledAs(routes, assignments[0], ns[0], service, LabelAll(routes, assignments, ns, service).value[0])
    ensures LabelAll(routes, assignments, ns, service).value[1..] == LabelAll(routes, assignments[1..], ns[1..], service).value
  {
  }

  /** `create_df_with_schedule_numbers_tram` (lines 164-193): the rows of
      every service of the calendar, service after service. */
  function PerService(routes: seq<Route>, trips: seq<Trip>, services: seq<string>): (rs: seq<Result<seq<Entry>>>)
    ensures |rs| == |services| && forall i :: 0 <= i < |services| ==> rs[i] == TramService(routes, trips, services[i])
  {
    seq(|services|, i requires 0 <= i < |services| => TramService(routes, trips, services[i]))
  }

  /** The first service that fails stops the whole table. */
  function TramScheduleNumbers(routes: seq<Route>, trips: seq<Trip>, services: seq<string>): (r: Result<seq<Entry>>)
    ensures r.Ok? <==> forall i :: 0 <= i < |services| ==> TramService(routes, trips, services[i]).Ok?
    ensures r.Err? ==> exists i :: 0 <= i < |services| && TramService(routes, trips, services[i]) == Err(r.error)
                                   && forall j :: 0 <= j < i ==> TramService(routes, trips, services[j]).Ok?
  {
    JoinAll(PerService(routes, trips, services))
  }
}
