/** Failure-carrying values shared by every module of the model.

    The Python code signals failure by raising: `IndexError` when it indexes
    past the end of a list or an empty table column, `ValueError` when `int()`
    is given a string that is not a number or when a lookup finds no row.
    Each such raise becomes an `Error` value here, so callers see exactly
    which inputs fail and which do not. */
module Results {

  datatype Option<+T> = None | Some(value: T)

  /** Why an operation of the timetable core fails. */
  datatype Error =
    | NotANumber(text: string)                      // int(text) raises ValueError
    | MissingField(text: string, index: nat)        // text.split(sep)[index] raises IndexError
    | NoRoutes                                      // routes_list[0] on an empty list
    | NoBlocksForFirstRoute(route: string, service: string)
    | UnknownRouteId(routeId: string)               // no routes row with this route_id
    | NoRouteForNumber(routeNumber: string)         // no routes row with this short name
    | MultipleRoutesForNumber(routeNumber: string)  // several rows with this short name
    | NoTripsForRoute(routeId: string)
    | NoScheduleNumber(blockId: string, serviceId: string)

  datatype Result<+T> = Ok(value: T) | Err(error: Error) {
    predicate IsFailure() { Err? }

    function PropagateFailure<U>(): Result<U>
      requires Err?
    {
      Err(error)
    }

    function Extract(): T
      requires Ok?
    {
      value
    }
  }

  /** Results of a loop over the calendar's services joined in order: the
      rows of every service, or the first failure, which stops the loop. */
  function JoinAll<T(!new)>(rs: seq<Result<seq<T>>>): (r: Result<seq<T>>)
    ensures r.Ok? <==> forall i :: 0 <= i < |rs| ==> rs[i].Ok?
    ensures r.Err? ==> exists i :: 0 <= i < |rs| && rs[i] == Err(r.error) && forall j :: 0 <= j < i ==> rs[j].Ok?
    ensures r.Ok? ==> forall x :: x in r.value <==> exists i :: 0 <= i < |rs| && x in rs[i].value
  {
    if |rs| == 0 then Ok([])
    else
      var head :- rs[0];
      var rest :- JoinAll(rs[1..]);
      JoinAllStep(rs, head, rest);
      Ok(head + rest)
  }

  lemma JoinAllStep<T(!new)>(rs: seq<Result<seq<T>>>, head: seq<T>, rest: seq<T>)
    requires |rs| > 0 && rs[0] == Ok(head)
    requires forall i :: 0 <= i < |rs| ==> rs[i].Ok?
    requires forall x :: x in rest <==> exists i :: 0 <= i < |rs[1..]| && x in rs[1..][i].value
    ensures forall x :: x in head + rest <==> exists i :: 0 <= i < |rs| && x in rs[i].value
  {
    forall x ensures x in head + rest <==> exists i :: 0 <= i < |rs| && x in rs[i].value {
      if x in rest {
        var i :| 0 <= i < |rs[1..]| && x in rs[1..][i].value;
        assert rs[1..][i] == rs[i + 1];
      }
      if exists i :: 0 <= i < |rs| && x in rs[i].value {
        var i :| 0 <= i < |rs| && x in rs[i].value;
        if i > 0 {
          assert rs[1..][i - 1] == rs[i];
        }
      }
    }
  }

  /** Joining keeps rows distinct when every service's rows are distinct
      and no row belongs to two services. */
  lemma {:induction false} JoinAllNoDuplicates<T(!new)>(rs: seq<Result<seq<T>>>)
    requires forall i :: 0 <= i < |rs| ==> rs[i].Ok?
    requires forall i :: 0 <= i < |rs| ==> forall p, q :: 0 <= p < q < |rs[i].value| ==> rs[i].value[p] != rs[i].value[q]
    requires forall i, j, x :: 0 <= i < j < |rs| && x in rs[i].value ==> x !in rs[j].value
    ensures JoinAll(rs).Ok?
    ensures forall p, q :: 0 <= p < q < |JoinAll(rs).value| ==> JoinAll(rs).value[p] != JoinAll(rs).value[q]
  {
    if |rs| > 0 {
      JoinAllNoDuplicates(rs[1..]);
      var head := rs[0].value;
      var rest := JoinAll(rs[1..]).value;
      var all := JoinAll(rs).value;
      assert all == head + rest;
      forall p, q | 0 <= p < q < |all| ensures all[p] != all[q] {
        if q >= |head| && p < |head| {
          assert all[p] in rs[0].value;
          assert all[q] in rest;
          var j :| 0 <= j < |rs[1..]| && all[q] in rs[1..][j].value;
          assert rs[1..][j] == rs[j + 1];
        } else if p >= |head| {
          assert all[p] == rest[p - |head|] && all[q] == rest[q - |head|];
        }
      }
    }
  }
}
