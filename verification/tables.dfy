/** The rows of one vehicle class's static timetable (routes.txt, trips.txt,
    stop_times.txt) and of the derived schedule-number table. A table is a
    sequence of rows in file order; pandas' `drop_duplicates` and `.values[0]`
    depend on that order. */
module Tables {
  import opened Results
  import opened Text
  import opened Ordering
  import opened Collections

  datatype Route = Route(routeId: string, shortName: string)

  /** A trips.txt row; `tripId` is the frame's index. */
  datatype Trip = Trip(tripId: string, routeId: string, serviceId: string, blockId: string, directionId: int)

  /** A stop_times.txt row; `tripId` is the frame's index. */
  datatype StopTime = StopTime(tripId: string, stopId: string, departureTime: string)

  /** A row of schedule_numbers_a.txt / schedule_numbers_t.txt. */
  datatype Entry = Entry(blockId: string, scheduleNumber: string, serviceId: string)

  /** `int(s)` where the caller has already checked that `s` is a number. */
  function NumericKey(s: string): (n: nat)
    ensures ParseNat(s).Some? ==> ParseNat(s) == Some(n)
  {
    match ParseNat(s)
    case Some(n) => n
    case None => 0
  }

  predicate IsNumeral(s: string) { ParseNat(s).Some? }

  /** `text.split(sep)[index]`, failing like Python's `IndexError`. */
  function Field(text: string, sep: char, index: nat): (r: Result<string>)
    ensures r.Ok? <==> index < |Split(text, sep)|
    ensures r.Ok? ==> r.value == Split(text, sep)[index] && sep !in r.value
    ensures r.Err? ==> r.error == MissingField(text, index)
  {
    var fields := Split(text, sep);
    if index < |fields| then Ok(fields[index]) else Err(MissingField(text, index))
  }

  /** The `block_id` column of a schedule-number table. */
  function EntryBlocks(rows: seq<Entry>): (bs: seq<string>)
    ensures |bs| == |rows| && forall i :: 0 <= i < |rows| ==> bs[i] == rows[i].blockId
  {
    if |rows| == 0 then [] else EntryBlocks(rows[..|rows| - 1]) + [rows[|rows| - 1].blockId]
  }

  /** `"{route}/{n:02}"`: the rider-facing schedule number of the `n`-th duty
      of a route. */
  function ScheduleLabel(route: string, n: nat): string
  {
    route + "/" + Pad2(n)
  }

  /** The label splits back into its route and a number reading as `n`,
      whenever the route name has no slash. */
  lemma {:induction false} ScheduleLabelParts(route: string, n: nat)
    requires '/' !in route
    ensures Split(ScheduleLabel(route, n), '/') == [route, Pad2(n)]
    ensures ParseNat(Split(ScheduleLabel(route, n), '/')[1]) == Some(n)
  {
    var p := Pad2(n);
    assert AllDigits(p);
    assert forall i :: 0 <= i < |p| ==> p[i] != '/';
    SplitCons(route, '/', p);
    SplitSingle(p, '/');
    assert ScheduleLabel(route, n) == route + ['/'] + p;
  }

  predicate NumLe(a: string, b: string) { NumericKey(a) <= NumericKey(b) }

  /** A string `int()` rejects. */
  predicate NotNumeral(x: string) { !IsNumeral(x) }

  /** `sorted(xs, key=int)`: fails on the first string that is not a number,
      otherwise the same strings in ascending numeric order. */
  function SortNumerically(xs: seq<string>): (r: Result<seq<string>>)
    ensures r.Ok? <==> forall i :: 0 <= i < |xs| ==> IsNumeral(xs[i])
    ensures r.Ok? ==> multiset(r.value) == multiset(xs)
    ensures r.Ok? ==> forall i :: 0 <= i < |r.value| ==> IsNumeral(r.value[i])
    ensures r.Ok? ==> forall i, j :: 0 <= i < j < |r.value| ==> NumericKey(r.value[i]) <= NumericKey(r.value[j])
    ensures r.Err? ==> exists i :: 0 <= i < |xs| && !IsNumeral(xs[i]) && r.error == NotANumber(xs[i])
                                   && forall j :: 0 <= j < i ==> IsNumeral(xs[j])
  {
    match FindFirst(xs, NotNumeral)
    case Some(i) => Err(NotANumber(xs[i]))
    case None =>
      var sorted := SortBy(xs, NumLe);
      assert forall i :: 0 <= i < |sorted| ==> IsNumeral(sorted[i]) by {
        forall i | 0 <= i < |sorted| ensures IsNumeral(sorted[i]) {
          assert sorted[i] in multiset(xs);
        }
      }
      Ok(sorted)
  }
}
