/** Schedule numbers for the bus feed (`create_df_with_schedule_numbers`).

    For one service the routes are taken in ascending numeric order of their
    short names, and each route's block suffixes (`block_<n>` with `<n>`
    read by `int()`) in ascending numeric order. One counter, the last
    labelled block number, runs across all routes: it starts one below the
    smallest block of the first route, and a block is labelled only when its
    number is exactly one more than the counter, which then moves to it. A
    labelled block gets `"<route>/<NN>"`, where NN counts the labels of that
    route from 1. A block whose number is not the next one when the walk
    reaches it gets no schedule number. */
module BusNumbers {
  import opened Results
  import opened Text
  import opened Ordering
  import opened Collections
  import opened Tables
  import opened Lookups

  /** One entry of `routes_list`: a route's short name and the suffixes of
      its blocks in the service, in ascending numeric order. */
  datatype RouteBlocks = RouteBlocks(route: string, suffixes: seq<string>)

  /** What the walk did with one block of one route. */
  datatype Outcome = Skipped | Labelled(ordinal: nat)

  /** A label before it becomes a table row. */
  datatype Label = Label(route: string, suffix: string, ordinal: nat)

  function CountLabelled(os: seq<Outcome>): nat
  {
    if |os| == 0 then 0 else (if os[0].Labelled? then 1 else 0) + CountLabelled(os[1..])
  }

  function CountAll(ws: seq<seq<Outcome>>): nat
  {
    if |ws| == 0 then 0 else CountLabelled(ws[0]) + CountAll(ws[1..])
  }

  lemma {:induction false} CountLabelledAppend(a: seq<Outcome>, b: seq<Outcome>)
    ensures CountLabelled(a + b) == CountLabelled(a) + CountLabelled(b)
  {
    if |a| == 0 {
      assert a + b == b;
    } else {
      assert (a + b)[1..] == a[1..] + b;
      CountLabelledAppend(a[1..], b);
    }
  }

  /** The labels in each prefix of `[o] + rest`. */
  lemma CountLabelledCons(o: Outcome, rest: seq<Outcome>)
    ensures CountLabelled(([o] + rest)[..0]) == 0
    ensures forall i :: 0 < i <= |rest| + 1 ==>
              && ([o] + rest)[..i] == [o] + rest[..i - 1]
              && CountLabelled(([o] + rest)[..i]) == (if o.Labelled? then 1 else 0) + CountLabelled(rest[..i - 1])
  {
    var os := [o] + rest;
    assert os[..0] == [];
    forall i | 0 < i <= |os| ensures os[..i] == [o] + rest[..i - 1] && CountLabelled(os[..i]) == (if o.Labelled? then 1 else 0) + CountLabelled(rest[..i - 1]) {
      assert os[..i] == [o] + rest[..i - 1];
      assert os[..i][1..] == rest[..i - 1];
    }
  }

  /** The labels in each prefix of `[w] + rest`. */
  lemma CountAllCons(w: seq<Outcome>, rest: seq<seq<Outcome>>)
    ensures CountAll(([w] + rest)[..0]) == 0
    ensures forall r :: 0 < r <= |rest| + 1 ==> CountAll(([w] + rest)[..r]) == CountLabelled(w) + CountAll(rest[..r - 1])
  {
    var ws := [w] + rest;
    assert ws[..0] == [];
    forall r | 0 < r <= |ws| ensures CountAll(ws[..r]) == CountLabelled(w) + CountAll(rest[..r - 1]) {
      assert ws[..r][0] == w;
      assert ws[..r][1..] == rest[..r - 1];
    }
  }

  /** The inner loop over one route's blocks (lines 223-228). `last` is the
      counter when the walk reaches the route and `ordinal` the route's next
      NN. The counter when the walk reaches block `i` is `last` plus the
      labels given so far, and the block is labelled exactly when its number
      is one above that. */
  function WalkRoute(suffixes: seq<string>, last: int, ordinal: nat): (os: seq<Outcome>)
    ensures |os| == |suffixes|
  {
    if |suffixes| == 0 then []
    else
      var o := if NumericKey(suffixes[0]) == last + 1 then Labelled(ordinal) else Skipped;
      var step := if o.Labelled? then 1 else 0;
      [o] + WalkRoute(suffixes[1..], last + step, ordinal + step)
  }

  /** The walk over one route: block `i` is labelled exactly when its
      number is one above `last` plus the labels given before it, and it
      gets the route's next NN. */
  lemma {:induction false} WalkRouteCounter(suffixes: seq<string>, last: int, ordinal: nat)
    ensures forall i :: 0 <= i < |suffixes| ==>
              (WalkRoute(suffixes, last, ordinal)[i].Labelled? <==>
                 NumericKey(suffixes[i]) == last + 1 + CountLabelled(WalkRoute(suffixes, last, ordinal)[..i]))
    ensures forall i :: 0 <= i < |suffixes| && WalkRoute(suffixes, last, ordinal)[i].Labelled? ==>
              WalkRoute(suffixes, last, ordinal)[i].ordinal == ordinal + CountLabelled(WalkRoute(suffixes, last, ordinal)[..i])
  {
    if |suffixes| > 0 {
      var o := if NumericKey(suffixes[0]) == last + 1 then Labelled(ordinal) else Skipped;
      var step := if o.Labelled? then 1 else 0;
      var rest := WalkRoute(suffixes[1..], last + step, ordinal + step);
      var os: seq<Outcome> := WalkRoute(suffixes, last, ordinal);
      assert os == [o] + rest;
      WalkRouteCounter(suffixes[1..], last + step, ordinal + step);
      CountLabelledCons(o, rest);
      forall i: nat | i < |suffixes|
        ensures os[i].Labelled? <==> NumericKey(suffixes[i]) == last + 1 + CountLabelled(os[..i])
        ensures os[i].Labelled? ==> os[i].ordinal == ordinal + CountLabelled(os[..i])
      {
        if i > 0 {
          assert os[i] == rest[i - 1] && suffixes[i] == suffixes[1..][i - 1];
        }
      }
    }
  }

  /** The outer loop over routes (lines 219-228): the counter left by one
      route is where the next one starts, and NN restarts at 1 per route. */
  function WalkRoutes(rbs: seq<RouteBlocks>, last: int): (ws: seq<seq<Outcome>>)
    ensures |ws| == |rbs|
    ensures forall r :: 0 <= r < |rbs| ==> |ws[r]| == |rbs[r].suffixes|
  {
    if |rbs| == 0 then []
    else [WalkRoute(rbs[0].suffixes, last, 1)] + WalkRoutes(rbs[1..], last + CountLabelled(WalkRoute(rbs[0].suffixes, last, 1)))
  }

  /** The counter a block of route `r` meets is `last` plus the labels of
      all earlier routes and of the route's earlier blocks; NN restarts at
      1 on every route. */
  lemma {:induction false} WalkRoutesCounter(rbs: seq<RouteBlocks>, last: int)
    ensures forall r, i :: 0 <= r < |rbs| && 0 <= i < |rbs[r].suffixes| ==>
              (WalkRoutes(rbs, last)[r][i].Labelled? <==>
                 NumericKey(rbs[r].suffixes[i]) == last + 1 + CountAll(WalkRoutes(rbs, last)[..r]) + CountLabelled(WalkRoutes(rbs, last)[r][..i]))
    ensures forall r, i :: 0 <= r < |rbs| && 0 <= i < |rbs[r].suffixes| && WalkRoutes(rbs, last)[r][i].Labelled? ==>
              WalkRoutes(rbs, last)[r][i].ordinal == 1 + CountLabelled(WalkRoutes(rbs, last)[r][..i])
  {
    if |rbs| > 0 {
      var w := WalkRoute(rbs[0].suffixes, last, 1);
      var next := last + CountLabelled(w);
      var rest := WalkRoutes(rbs[1..], next);
      var ws: seq<seq<Outcome>> := WalkRoutes(rbs, last);
      assert ws == [w] + rest;
      WalkRoutesCounter(rbs[1..], next);
      WalkRouteCounter(rbs[0].suffixes, last, 1);
      CountAllCons(w, rest);
      forall r: nat, i: nat | r < |rbs| && i < |rbs[r].suffixes|
        ensures ws[r][i].Labelled? <==> NumericKey(rbs[r].suffixes[i]) == last + 1 + CountAll(ws[..r]) + CountLabelled(ws[r][..i])
        ensures ws[r][i].Labelled? ==> ws[r][i].ordinal == 1 + CountLabelled(ws[r][..i])
      {
        if r > 0 {
          assert ws[r] == rest[r - 1] && rbs[r] == rbs[1..][r - 1];
        }
      }
    }
  }

  /** The labels of one route, in block order. */
  function CollectRoute(route: string, suffixes: seq<string>, os: seq<Outcome>): seq<Label>
    requires |os| == |suffixes|
  {
    if |os| == 0 then []
    else
      (if os[0].Labelled? then [Label(route, suffixes[0], os[0].ordinal)] else [])
      + CollectRoute(route, suffixes[1..], os[1..])
  }

  predicate Shaped(rbs: seq<RouteBlocks>, ws: seq<seq<Outcome>>) {
    |ws| == |rbs| && forall r :: 0 <= r < |rbs| ==> |ws[r]| == |rbs[r].suffixes|
  }

  /** The labels of all routes, route by route: the rows the walk appends. */
  function Collect(rbs: seq<RouteBlocks>, ws: seq<seq<Outcome>>): seq<Label>
    requires Shaped(rbs, ws)
  {
    if |rbs| == 0 then []
    else CollectRoute(rbs[0].route, rbs[0].suffixes, ws[0]) + Collect(rbs[1..], ws[1..])
  }

  /** The labels one route's walk hands out. */
  function RouteLabels(route: string, suffixes: seq<string>, last: int, ordinal: nat): seq<Label> {
    CollectRoute(route, suffixes, WalkRoute(suffixes, last, ordinal))
  }

  /** The labels the walk over all routes hands out, seeded with `last`. */
  function WalkLabels(rbs: seq<RouteBlocks>, last: int): seq<Label> {
    Collect(rbs, WalkRoutes(rbs, last))
  }

  /** Within one route the labelled block numbers continue the counter
      without a gap, and NN runs on from the route's first ordinal. */
  lemma {:induction false} RouteChain(route: string, suffixes: seq<string>, last: int, ordinal: nat)
    ensures |RouteLabels(route, suffixes, last, ordinal)| == CountLabelled(WalkRoute(suffixes, last, ordinal))
    ensures forall k :: 0 <= k < |RouteLabels(route, suffixes, last, ordinal)| ==>
              && NumericKey(RouteLabels(route, suffixes, last, ordinal)[k].suffix) == last + 1 + k
              && RouteLabels(route, suffixes, last, ordinal)[k].ordinal == ordinal + k
              && RouteLabels(route, suffixes, last, ordinal)[k].route == route
              && RouteLabels(route, suffixes, last, ordinal)[k].suffix in suffixes
  {
    if |suffixes| > 0 {
      var os := WalkRoute(suffixes, last, ordinal);
      var o := os[0];
      var step := if o.Labelled? then 1 else 0;
      assert o.Labelled? <==> NumericKey(suffixes[0]) == last + 1 by { assert os[..0] == []; }
      assert os[1..] == WalkRoute(suffixes[1..], last + step, ordinal + step);
      RouteChain(route, suffixes[1..], last + step, ordinal + step);
      var rest := RouteLabels(route, suffixes[1..], last + step, ordinal + step);
      var ls := RouteLabels(route, suffixes, last, ordinal);
      assert CountLabelled(os) == step + CountLabelled(os[1..]);
      forall k | 0 <= k < |ls|
        ensures NumericKey(ls[k].suffix) == last + 1 + k && ls[k].ordinal == ordinal + k
        ensures ls[k].route == route && ls[k].suffix in suffixes
      {
        if o.Labelled? {
          assert ls == [Label(route, suffixes[0], ordinal)] + rest;
          if k > 0 {
            assert ls[k] == rest[k - 1];
            assert rest[k - 1].suffix in suffixes[1..];
          }
        } else {
          assert ls == rest;
          assert rest[k].suffix in suffixes[1..];
        }
      }
    }
  }

  /** Across routes the labelled block numbers are `last + 1`, `last + 2`,
      ... in the order the rows are appended. */
  lemma {:induction false} Chain(rbs: seq<RouteBlocks>, last: int)
    ensures |WalkLabels(rbs, last)| == CountAll(WalkRoutes(rbs, last))
    ensures forall k :: 0 <= k < |WalkLabels(rbs, last)| ==> NumericKey(WalkLabels(rbs, last)[k].suffix) == last + 1 + k
  {
    if |rbs| > 0 {
      var next := last + CountLabelled(WalkRoute(rbs[0].suffixes, last, 1));
      WalkLabelsUnfold(rbs, last);
      WalkCountUnfold(rbs, last);
      RouteChain(rbs[0].route, rbs[0].suffixes, last, 1);
      Chain(rbs[1..], next);
      ChainAppend(RouteLabels(rbs[0].route, rbs[0].suffixes, last, 1), WalkLabels(rbs[1..], next), last);
    }
  }

  /** The walk over all routes is the first route's walk followed by the
      walk over the rest, seeded with the counter the first one leaves. */
  lemma {:induction false} WalkLabelsUnfold(rbs: seq<RouteBlocks>, last: int)
    requires |rbs| > 0
    ensures WalkLabels(rbs, last) == RouteLabels(rbs[0].route, rbs[0].suffixes, last, 1)
              + WalkLabels(rbs[1..], last + CountLabelled(WalkRoute(rbs[0].suffixes, last, 1)))
  {
    var w := WalkRoute(rbs[0].suffixes, last, 1);
    var rest := WalkRoutes(rbs[1..], last + CountLabelled(w));
    CollectCons(rbs, w, rest);
  }

  lemma {:induction false} CollectCons(rbs: seq<RouteBlocks>, w: seq<Outcome>, rest: seq<seq<Outcome>>)
    requires |rbs| > 0 && Shaped(rbs, [w] + rest)
    ensures Shaped(rbs[1..], rest)
    ensures Collect(rbs, [w] + rest) == CollectRoute(rbs[0].route, rbs[0].suffixes, w) + Collect(rbs[1..], rest)
  {
    assert ([w] + rest)[1..] == rest;
    forall r | 0 <= r < |rbs[1..]| ensures |rest[r]| == |rbs[1..][r].suffixes| {
      assert ([w] + rest)[r + 1] == rest[r];
    }
  }

  lemma {:induction false} WalkCountUnfold(rbs: seq<RouteBlocks>, last: int)
    requires |rbs| > 0
    ensures CountAll(WalkRoutes(rbs, last)) == CountLabelled(WalkRoute(rbs[0].suffixes, last, 1))
              + CountAll(WalkRoutes(rbs[1..], last + CountLabelled(WalkRoute(rbs[0].suffixes, last, 1))))
  {
    var w := WalkRoute(rbs[0].suffixes, last, 1);
    var rest := WalkRoutes(rbs[1..], last + CountLabelled(w));
    assert WalkRoutes(rbs, last) == [w] + rest;
    assert ([w] + rest)[1..] == rest;
  }

  /** Two runs of consecutive block numbers, the second starting where the
      first stops, make one run. */
  lemma ChainAppend(head: seq<Label>, tail: seq<Label>, last: int)
    requires forall k :: 0 <= k < |head| ==> NumericKey(head[k].suffix) == last + 1 + k
    requires forall k :: 0 <= k < |tail| ==> NumericKey(tail[k].suffix) == last + |head| + 1 + k
    ensures forall k :: 0 <= k < |head + tail| ==> NumericKey((head + tail)[k].suffix) == last + 1 + k
  {
  }

  /** Each label names a block of its own route. */
  lemma {:induction false} LabelsFromRoutes(rbs: seq<RouteBlocks>, ws: seq<seq<Outcome>>)
    requires Shaped(rbs, ws)
    ensures forall l :: l in Collect(rbs, ws) ==>
              exists r :: 0 <= r < |rbs| && l.route == rbs[r].route && l.suffix in rbs[r].suffixes
  {
    if |rbs| > 0 {
      RouteLabelsFromRoute(rbs[0].route, rbs[0].suffixes, ws[0]);
      LabelsFromRoutes(rbs[1..], ws[1..]);
      var head := CollectRoute(rbs[0].route, rbs[0].suffixes, ws[0]);
      var tail := Collect(rbs[1..], ws[1..]);
      assert Collect(rbs, ws) == head + tail;
      forall l: Label | l in head + tail
        ensures exists r :: 0 <= r < |rbs| && l.route == rbs[r].route && l.suffix in rbs[r].suffixes
      {
        if l in head {
          assert l.route == rbs[0].route && l.suffix in rbs[0].suffixes;
        } else {
          assert l in tail;
          var r :| 0 <= r < |rbs[1..]| && l.route == rbs[1..][r].route && l.suffix in rbs[1..][r].suffixes;
          assert rbs[1..][r] == rbs[r + 1];
        }
      }
    }
  }

  lemma {:induction false} RouteLabelsFromRoute(route: string, suffixes: seq<string>, os: seq<Outcome>)
    requires |os| == |suffixes|
    ensures forall l :: l in CollectRoute(route, suffixes, os) ==> l.route == route && l.suffix in suffixes
  {
    if |os| > 0 {
      RouteLabelsFromRoute(route, suffixes[1..], os[1..]);
      assert forall x :: x in suffixes[1..] ==> x in suffixes;
    }
  }

  function OfRoute(route: string): Label -> bool {
    (l: Label) => l.route == route
  }

  predicate DistinctRoutes(rbs: seq<RouteBlocks>) {
    forall r1, r2 :: 0 <= r1 < r2 < |rbs| ==> rbs[r1].route != rbs[r2].route
  }

  /** Ordinals that count a route's earlier labels number that route's
      rows 1, 2, ... */
  lemma {:induction false} RouteOrdinals(route: string, suffixes: seq<string>, os: seq<Outcome>, start: int)
    requires |os| == |suffixes|
    requires forall i :: 0 <= i < |os| && os[i].Labelled? ==> os[i].ordinal == start + CountLabelled(os[..i])
    ensures forall k :: 0 <= k < |CollectRoute(route, suffixes, os)| ==> CollectRoute(route, suffixes, os)[k].ordinal == start + k
  {
    if |os| > 0 {
      var step := if os[0].Labelled? then 1 else 0;
      assert os[..0] == [];
      forall i | 0 <= i < |os[1..]| && os[1..][i].Labelled?
        ensures os[1..][i].ordinal == start + step + CountLabelled(os[1..][..i])
      {
        assert os[..i + 1] == [os[0]] + os[1..][..i];
        assert os[..i + 1][1..] == os[1..][..i];
      }
      RouteOrdinals(route, suffixes[1..], os[1..], start + step);
      var rest := CollectRoute(route, suffixes[1..], os[1..]);
      var ls := CollectRoute(route, suffixes, os);
      if os[0].Labelled? {
        assert ls == [Label(route, suffixes[0], os[0].ordinal)] + rest;
        forall k | 0 <= k < |ls| ensures ls[k].ordinal == start + k {
          if k > 0 { assert ls[k] == rest[k - 1]; }
        }
      } else {
        assert ls == rest;
      }
    }
  }

  /** NN is the label's rank among the labels of its route: 1 plus the
      number of earlier rows for the same route. So each route's numbers run
      1, 2, ..., N with no gap and no repeat. */
  lemma {:induction false} Ordinals(rbs: seq<RouteBlocks>, last: int)
    requires DistinctRoutes(rbs)
    ensures forall k :: 0 <= k < |WalkLabels(rbs, last)| ==>
              WalkLabels(rbs, last)[k].ordinal == 1 + CountIf(WalkLabels(rbs, last)[..k], OfRoute(WalkLabels(rbs, last)[k].route))
  {
    var ws := WalkRoutes(rbs, last);
    WalkRoutesCounter(rbs, last);
    OrdinalsByRoute(rbs, ws);
  }

  lemma {:induction false} OrdinalsByRoute(rbs: seq<RouteBlocks>, ws: seq<seq<Outcome>>)
    requires Shaped(rbs, ws) && DistinctRoutes(rbs)
    requires forall r, i :: 0 <= r < |rbs| && 0 <= i < |ws[r]| && ws[r][i].Labelled? ==>
               ws[r][i].ordinal == 1 + CountLabelled(ws[r][..i])
    ensures forall k :: 0 <= k < |Collect(rbs, ws)| ==>
              Collect(rbs, ws)[k].ordinal == 1 + CountIf(Collect(rbs, ws)[..k], OfRoute(Collect(rbs, ws)[k].route))
  {
    if |rbs| > 0 {
      RouteOrdinals(rbs[0].route, rbs[0].suffixes, ws[0], 1);
      RouteLabelsFromRoute(rbs[0].route, rbs[0].suffixes, ws[0]);
      OrdinalsByRoute(rbs[1..], ws[1..]);
      LabelsFromRoutes(rbs[1..], ws[1..]);
      var head := CollectRoute(rbs[0].route, rbs[0].suffixes, ws[0]);
      var tail := Collect(rbs[1..], ws[1..]);
      var ls := head + tail;
      assert Collect(rbs, ws) == ls;
      forall k | 0 <= k < |ls| ensures ls[k].ordinal == 1 + CountIf(ls[..k], OfRoute(ls[k].route)) {
        if k < |head| {
          OrdinalInHead(rbs[0].route, head, tail, k);
        } else {
          var j := k - |head|;
          assert tail[j].ordinal == 1 + CountIf(tail[..j], OfRoute(tail[j].route));
          OrdinalInTail(rbs, head, tail, j);
          assert ls[k] == tail[j] && ls[..k] == head + tail[..j];
        }
      }
    }
  }

  lemma OrdinalInHead(route: string, head: seq<Label>, tail: seq<Label>, k: nat)
    requires k < |head|
    requires forall l :: l in head ==> l.route == route
    requires forall i :: 0 <= i < |head| ==> head[i].ordinal == 1 + i
    ensures (head + tail)[k].ordinal == 1 + CountIf((head + tail)[..k], OfRoute((head + tail)[k].route))
  {
    var ls := head + tail;
    assert ls[k] == head[k] && ls[..k] == head[..k];
    assert head[k] in head;
    assert forall i :: 0 <= i < k ==> head[..k][i] in head;
    CountIfAll(head[..k], OfRoute(head[k].route));
  }

  lemma OrdinalInTail(rbs: seq<RouteBlocks>, head: seq<Label>, tail: seq<Label>, j: nat)
    requires |rbs| > 0 && DistinctRoutes(rbs) && j < |tail|
    requires forall l :: l in head ==> l.route == rbs[0].route
    requires forall l :: l in tail ==> exists r :: 0 <= r < |rbs[1..]| && l.route == rbs[1..][r].route && l.suffix in rbs[1..][r].suffixes
    requires tail[j].ordinal == 1 + CountIf(tail[..j], OfRoute(tail[j].route))
    ensures tail[j].ordinal == 1 + CountIf(head + tail[..j], OfRoute(tail[j].route))
  {
    var p := OfRoute(tail[j].route);
    assert tail[j] in tail;
    var r :| 0 <= r < |rbs[1..]| && tail[j].route == rbs[1..][r].route && tail[j].suffix in rbs[1..][r].suffixes;
    assert tail[j].route != rbs[0].route by { assert rbs[1..][r] == rbs[r + 1]; }
    assert forall i :: 0 <= i < |head| ==> head[i] in head;
    CountIfNone(head, p);
    CountIfAppend(head, tail[..j], p);
  }

  /** The seed: one below the smallest block of the numerically smallest
      route (lines 215-218). */
  function Seed(rbs: seq<RouteBlocks>): int
    requires |rbs| > 0 && |rbs[0].suffixes| > 0
  {
    NumericKey(rbs[0].suffixes[0]) - 1
  }

  /** The labels of one service: the walk seeded from the first route's
      smallest block. The first label is that block itself, as `<route>/01`,
      and the labelled numbers climb by one from there. */
  function ChainLabels(rbs: seq<RouteBlocks>): (ls: seq<Label>)
    requires |rbs| > 0 && |rbs[0].suffixes| > 0
    ensures |ls| > 0 && ls[0] == Label(rbs[0].route, rbs[0].suffixes[0], 1)
    ensures forall k :: 0 <= k < |ls| ==> NumericKey(ls[k].suffix) == NumericKey(rbs[0].suffixes[0]) + k
    ensures forall l :: l in ls ==> exists r :: 0 <= r < |rbs| && l.route == rbs[r].route && l.suffix in rbs[r].suffixes
  {
    var ws := WalkRoutes(rbs, Seed(rbs));
    Chain(rbs, Seed(rbs));
    LabelsFromRoutes(rbs, ws);
    assert ws[0][0].Labelled? && ws[0][0].ordinal == 1 by { assert ws[0][..0] == []; }
    var w := ws[0];
    var head := CollectRoute(rbs[0].route, rbs[0].suffixes, w);
    assert head[0] == Label(rbs[0].route, rbs[0].suffixes[0], 1);
    assert Collect(rbs, ws) == head + Collect(rbs[1..], ws[1..]);
    Collect(rbs, ws)
  }

  /** The labels one route hands out are exactly its labelled blocks, each
      with its NN. */
  lemma {:induction false} CollectRouteMembers(route: string, suffixes: seq<string>, os: seq<Outcome>)
    requires |os| == |suffixes|
    ensures forall l :: l in CollectRoute(route, suffixes, os) <==>
              exists i :: 0 <= i < |os| && os[i].Labelled? && l == Label(route, suffixes[i], os[i].ordinal)
  {
    if |os| > 0 {
      CollectRouteMembers(route, suffixes[1..], os[1..]);
      var head := if os[0].Labelled? then [Label(route, suffixes[0], os[0].ordinal)] else [];
      var rest := CollectRoute(route, suffixes[1..], os[1..]);
      assert CollectRoute(route, suffixes, os) == head + rest;
      forall l ensures l in head + rest <==> exists i :: 0 <= i < |os| && os[i].Labelled? && l == Label(route, suffixes[i], os[i].ordinal) {
        if l in rest {
          var i :| 0 <= i < |os[1..]| && os[1..][i].Labelled? && l == Label(route, suffixes[1..][i], os[1..][i].ordinal);
          assert os[i + 1] == os[1..][i] && suffixes[i + 1] == suffixes[1..][i];
        }
        if exists i :: 0 <= i < |os| && os[i].Labelled? && l == Label(route, suffixes[i], os[i].ordinal) {
          var i :| 0 <= i < |os| && os[i].Labelled? && l == Label(route, suffixes[i], os[i].ordinal);
          if i > 0 {
            assert os[1..][i - 1] == os[i] && suffixes[1..][i - 1] == suffixes[i];
          }
        }
      }
    }
  }

  /** The labels of all routes are exactly the labelled blocks of all
      routes, each with its route and NN. */
  lemma {:induction false} CollectMembers(rbs: seq<RouteBlocks>, ws: seq<seq<Outcome>>)
    requires Shaped(rbs, ws)
    ensures forall l :: l in Collect(rbs, ws) <==>
              exists r, i :: 0 <= r < |rbs| && 0 <= i < |ws[r]| && ws[r][i].Labelled?
                             && l == Label(rbs[r].route, rbs[r].suffixes[i], ws[r][i].ordinal)
  {
    if |rbs| > 0 {
      CollectRouteMembers(rbs[0].route, rbs[0].suffixes, ws[0]);
      CollectCons(rbs, ws[0], ws[1..]);
      assert [ws[0]] + ws[1..] == ws;
      CollectMembers(rbs[1..], ws[1..]);
      var head := CollectRoute(rbs[0].route, rbs[0].suffixes, ws[0]);
      var tail := Collect(rbs[1..], ws[1..]);
      forall l ensures l in head + tail <==>
                 exists r, i :: 0 <= r < |rbs| && 0 <= i < |ws[r]| && ws[r][i].Labelled?
                                && l == Label(rbs[r].route, rbs[r].suffixes[i], ws[r][i].ordinal) {
        if l in tail {
          var r, i :| 0 <= r < |rbs[1..]| && 0 <= i < |ws[1..][r]| && ws[1..][r][i].Labelled?
                      && l == Label(rbs[1..][r].route, rbs[1..][r].suffixes[i], ws[1..][r][i].ordinal);
          assert rbs[r + 1] == rbs[1..][r] && ws[r + 1] == ws[1..][r];
        }
        if exists r, i :: 0 <= r < |rbs| && 0 <= i < |ws[r]| && ws[r][i].Labelled?
                          && l == Label(rbs[r].route, rbs[r].suffixes[i], ws[r][i].ordinal) {
          var r, i :| 0 <= r < |rbs| && 0 <= i < |ws[r]| && ws[r][i].Labelled?
                      && l == Label(rbs[r].route, rbs[r].suffixes[i], ws[r][i].ordinal);
          if r > 0 {
            assert rbs[1..][r - 1] == rbs[r] && ws[1..][r - 1] == ws[r];
          }
        }
      }
    }
  }

  /** How many labels the walk seeded with `last` has handed out when it
      reaches block `i` of route `r`. */
  function LabelsBefore(rbs: seq<RouteBlocks>, last: int, r: nat, i: nat): nat
    requires r < |rbs| && i <= |rbs[r].suffixes|
  {
    CountAll(WalkRoutes(rbs, last)[..r]) + RouteLabelsBefore(rbs, last, r, i)
  }

  /** How many labels route `r` has received when the walk reaches its
      block `i`. */
  function RouteLabelsBefore(rbs: seq<RouteBlocks>, last: int, r: nat, i: nat): nat
    requires r < |rbs| && i <= |rbs[r].suffixes|
  {
    CountLabelled(WalkRoutes(rbs, last)[r][..i])
  }

  /** Which blocks get a schedule number (lines 219-228): `ls` holds block
      `i` of route `r` exactly when its number is one above the seed plus
      the labels handed out before it, with NN 1 plus the labels its route
      received before it, and holds nothing else. */
  ghost predicate ChainBlocks(rbs: seq<RouteBlocks>, ls: seq<Label>) {
    && |rbs| > 0 && |rbs[0].suffixes| > 0
    && forall l :: l in ls <==>
         exists r, i :: && 0 <= r < |rbs| && 0 <= i < |rbs[r].suffixes|
                        && NumericKey(rbs[r].suffixes[i]) == Seed(rbs) + 1 + LabelsBefore(rbs, Seed(rbs), r, i)
                        && l == Label(rbs[r].route, rbs[r].suffixes[i], 1 + RouteLabelsBefore(rbs, Seed(rbs), r, i))
  }

  /** The walk's labels are exactly the blocks that continue the chain. */
  lemma ChainLabelsBlocks(rbs: seq<RouteBlocks>)
    requires |rbs| > 0 && |rbs[0].suffixes| > 0
    ensures ChainBlocks(rbs, ChainLabels(rbs))
  {
    ChainIsWalk(rbs);
    WalkBlocks(rbs, ChainLabels(rbs));
  }

  lemma WalkBlocks(rbs: seq<RouteBlocks>, ls: seq<Label>)
    requires |rbs| > 0 && |rbs[0].suffixes| > 0
    requires ls == WalkLabels(rbs, Seed(rbs))
    ensures ChainBlocks(rbs, ls)
  {
    var ws := WalkRoutes(rbs, Seed(rbs));
    assert ls == Collect(rbs, ws);
    WalkRoutesCounter(rbs, Seed(rbs));
    CollectMembers(rbs, ws);
    MembersOfWalk(rbs, ws, Seed(rbs), ls);
  }

  /** The members of a walk's labels, restated through the counter each
      block meets. */
  lemma MembersOfWalk(rbs: seq<RouteBlocks>, ws: seq<seq<Outcome>>, seed: int, ls: seq<Label>)
    requires Shaped(rbs, ws)
    requires forall r, i :: 0 <= r < |rbs| && 0 <= i < |rbs[r].suffixes| ==>
               (ws[r][i].Labelled? <==> NumericKey(rbs[r].suffixes[i]) == seed + 1 + CountAll(ws[..r]) + CountLabelled(ws[r][..i]))
    requires forall r, i :: 0 <= r < |rbs| && 0 <= i < |rbs[r].suffixes| && ws[r][i].Labelled? ==>
               ws[r][i].ordinal == 1 + CountLabelled(ws[r][..i])
    requires forall l :: l in ls <==>
               exists r, i :: 0 <= r < |rbs| && 0 <= i < |ws[r]| && ws[r][i].Labelled?
                              && l == Label(rbs[r].route, rbs[r].suffixes[i], ws[r][i].ordinal)
    ensures forall l :: l in ls <==>
              exists r, i :: && 0 <= r < |rbs| && 0 <= i < |rbs[r].suffixes|
                             && NumericKey(rbs[r].suffixes[i]) == seed + 1 + CountAll(ws[..r]) + CountLabelled(ws[r][..i])
                             && l == Label(rbs[r].route, rbs[r].suffixes[i], 1 + CountLabelled(ws[r][..i]))
  {
    forall l ensures l in ls <==>
      exists r, i :: && 0 <= r < |rbs| && 0 <= i < |rbs[r].suffixes|
                     && NumericKey(rbs[r].suffixes[i]) == seed + 1 + CountAll(ws[..r]) + CountLabelled(ws[r][..i])
                     && l == Label(rbs[r].route, rbs[r].suffixes[i], 1 + CountLabelled(ws[r][..i]))
    {
      if l in ls {
        var r, i :| 0 <= r < |rbs| && 0 <= i < |ws[r]| && ws[r][i].Labelled?
                    && l == Label(rbs[r].route, rbs[r].suffixes[i], ws[r][i].ordinal);
      }
    }
  }

  /** The row written for a label: `block_<suffix>`, `<route>/<NN>` and the
      service (line 226). */
  function ToEntry(l: Label, service: string): Entry {
    Entry("block_" + l.suffix, ScheduleLabel(l.route, l.ordinal), service)
  }

  function ToEntries(ls: seq<Label>, service: string): (es: seq<Entry>)
    ensures |es| == |ls|
    ensures forall k :: 0 <= k < |ls| ==> es[k] == ToEntry(ls[k], service)
  {
    seq(|ls|, k requires 0 <= k < |ls| => ToEntry(ls[k], service))
  }

  /** The emitted block id keeps the suffix text: `int()` of its second
      `_`-field is the number the walk compared. */
  lemma BlockIdSuffix(suffix: string)
    requires IsNumeral(suffix)
    ensures BlockSuffix("block_" + suffix) == Ok(NumericKey(suffix))
  {
    assert forall i :: 0 <= i < |suffix| ==> IsDigit(suffix[i]);
    assert '_' !in suffix;
    SplitCons("block", '_', suffix);
    SplitSingle(suffix, '_');
    assert "block_" + suffix == "block" + ['_'] + suffix;
  }

  function OnRouteAndService(routeId: string, service: string): Trip -> bool {
    (t: Trip) => t.routeId == routeId && t.serviceId == service
  }

  /** The distinct block ids of a route's trips in one service, in trip
      order (lines 203 and 209). */
  function RouteServiceBlocks(trips: seq<Trip>, routeId: string, service: string): (r: seq<string>)
    ensures forall b :: b in r <==>
              exists t :: t in trips && t.routeId == routeId && t.serviceId == service && t.blockId == b
  {
    var selected := FilterBy(trips, OnRouteAndService(routeId, service));
    var r := Distinct(BlocksOfTrips(selected));
    assert forall b :: b in r <==> exists t :: t in trips && t.routeId == routeId && t.serviceId == service && t.blockId == b by {
      forall b ensures b in r <==> exists t :: t in trips && t.routeId == routeId && t.serviceId == service && t.blockId == b {
        if b in r {
          var i :| 0 <= i < |selected| && BlocksOfTrips(selected)[i] == b;
          assert selected[i] in selected;
        }
        if exists t :: t in trips && t.routeId == routeId && t.serviceId == service && t.blockId == b {
          var t :| t in trips && t.routeId == routeId && t.serviceId == service && t.blockId == b;
          assert t in selected;
          var i :| 0 <= i < |selected| && selected[i] == t;
          assert BlocksOfTrips(selected)[i] == b;
        }
      }
    }
    r
  }

  /** `[block.split('_')[1] for block in block_ids]` (line 210): fails on the
      first block id without a second field. */
  function SecondFields(blockIds: seq<string>): (r: Result<seq<string>>)
    ensures r.Ok? <==> forall i :: 0 <= i < |blockIds| ==> Field(blockIds[i], '_', 1).Ok?
    ensures r.Ok? ==> |r.value| == |blockIds|
    ensures r.Ok? ==> forall i :: 0 <= i < |blockIds| ==> Field(blockIds[i], '_', 1) == Ok(r.value[i])
  {
    if |blockIds| == 0 then Ok([])
    else
      var f :- Field(blockIds[0], '_', 1);
      var rest :- SecondFields(blockIds[1..]);
      Ok([f] + rest)
  }

  /** A route's block suffixes in one service, sorted with `key=int`
      (lines 209-211). */
  function RouteSuffixes(trips: seq<Trip>, routeId: string, service: string): (r: Result<seq<string>>)
    ensures r.Ok? ==> forall i :: 0 <= i < |r.value| ==> IsNumeral(r.value[i])
  {
    var blocks := RouteServiceBlocks(trips, routeId, service);
    var fields := SecondFields(blocks);
    if fields.Err? then Err(fields.error)
    else
      var sorted := SortNumerically(fields.value);
      if sorted.Ok? then
        SameElements(fields.value, sorted.value);
        sorted
      else sorted
  }

  /** The suffix list exists exactly when every block of the route in the
      service has a numeric second field, and it holds exactly those
      fields. */
  lemma RouteSuffixesSpec(trips: seq<Trip>, routeId: string, service: string)
    ensures RouteSuffixes(trips, routeId, service).Ok? <==>
              forall t :: t in trips && t.routeId == routeId && t.serviceId == service ==> BlockSuffix(t.blockId).Ok?
    ensures RouteSuffixes(trips, routeId, service).Ok? ==> forall x :: x in RouteSuffixes(trips, routeId, service).value <==>
              exists t :: t in trips && t.routeId == routeId && t.serviceId == service && Field(t.blockId, '_', 1) == Ok(x)
  {
    var fields := SecondFields(RouteServiceBlocks(trips, routeId, service));
    RouteSuffixesOutcome(trips, routeId, service);
    if fields.Ok? && SortNumerically(fields.value).Ok? {
      SameElements(fields.value, SortNumerically(fields.value).value);
    }
  }

  /** The suffixes come in ascending numeric order, as `sort(key=int)`
      leaves them (line 211). */
  lemma RouteSuffixesSorted(trips: seq<Trip>, routeId: string, service: string)
    ensures RouteSuffixes(trips, routeId, service).Ok? ==>
              forall i, j :: 0 <= i < j < |RouteSuffixes(trips, routeId, service).value| ==>
                NumericKey(RouteSuffixes(trips, routeId, service).value[i]) <= NumericKey(RouteSuffixes(trips, routeId, service).value[j])
  {
  }

  lemma RouteSuffixesOutcome(trips: seq<Trip>, routeId: string, service: string)
    ensures var blocks := RouteServiceBlocks(trips, routeId, service);
            var fields := SecondFields(blocks);
            && ((fields.Ok? && forall i :: 0 <= i < |fields.value| ==> IsNumeral(fields.value[i])) <==>
                 forall t :: t in trips && t.routeId == routeId && t.serviceId == service ==> BlockSuffix(t.blockId).Ok?)
            && (fields.Ok? ==> forall x :: x in fields.value <==>
                 exists t :: t in trips && t.routeId == routeId && t.serviceId == service && Field(t.blockId, '_', 1) == Ok(x))
  {
    var blocks := RouteServiceBlocks(trips, routeId, service);
    var fields := SecondFields(blocks);
    if fields.Ok? {
      forall x ensures x in fields.value <==>
        exists t :: t in trips && t.routeId == routeId && t.serviceId == service && Field(t.blockId, '_', 1) == Ok(x)
      {
        if x in fields.value {
          var i :| 0 <= i < |fields.value| && fields.value[i] == x;
          assert blocks[i] in blocks;
        }
        if exists t :: t in trips && t.routeId == routeId && t.serviceId == service && Field(t.blockId, '_', 1) == Ok(x) {
          var t :| t in trips && t.routeId == routeId && t.serviceId == service && Field(t.blockId, '_', 1) == Ok(x);
          assert t.blockId in blocks;
          var i :| 0 <= i < |blocks| && blocks[i] == t.blockId;
          assert fields.value[i] == x;
        }
      }
      if forall i :: 0 <= i < |fields.value| ==> IsNumeral(fields.value[i]) {
        forall t | t in trips && t.routeId == routeId && t.serviceId == service ensures BlockSuffix(t.blockId).Ok? {
          assert t.blockId in blocks;
          var i :| 0 <= i < |blocks| && blocks[i] == t.blockId;
          assert IsNumeral(fields.value[i]);
        }
      } else {
        var i :| 0 <= i < |fields.value| && !IsNumeral(fields.value[i]);
        assert blocks[i] in blocks;
      }
    } else {
      var i :| 0 <= i < |blocks| && Field(blocks[i], '_', 1).Err?;
      assert blocks[i] in blocks;
    }
  }

  /** The suffix list of a route as line 209-211 computes it. */
  ghost predicate SuffixesOf(routes: seq<Route>, trips: seq<Trip>, service: string, rb: RouteBlocks) {
    && RouteIdOf(routes, rb.route).Ok?
    && RouteSuffixes(trips, RouteIdOf(routes, rb.route).value, service) == Ok(rb.suffixes)
  }

  /** `routes_list` for the sorted names, route by route (lines 207-213). */
  function RouteBlocksList(routes: seq<Route>, trips: seq<Trip>, service: string, names: seq<string>): (r: Result<seq<RouteBlocks>>)
    ensures r.Ok? ==> |r.value| == |names|
    ensures r.Ok? ==> forall i :: 0 <= i < |names| ==> r.value[i].route == names[i] && SuffixesOf(routes, trips, service, r.value[i])
    ensures r.Err? ==> exists i :: 0 <= i < |names| && NameFails(routes, trips, service, names[i])
  {
    if |names| == 0 then Ok([])
    else
      var routeId :- RouteIdOf(routes, names[0]);
      var suffixes :- RouteSuffixes(trips, routeId, service);
      var rest := RouteBlocksList(routes, trips, service, names[1..]);
      if rest.Err? then
        LaterNameFails(routes, trips, service, names);
        Err(rest.error)
      else
        ConsRouteBlocks(routes, trips, service, names, RouteBlocks(names[0], suffixes), rest.value);
        Ok([RouteBlocks(names[0], suffixes)] + rest.value)
  }

  /** A name of the list without a route id or without blocks. */
  ghost predicate NameFails(routes: seq<Route>, trips: seq<Trip>, service: string, name: string) {
    RouteIdOf(routes, name).Err? || RouteSuffixes(trips, RouteIdOf(routes, name).value, service).Err?
  }

  lemma LaterNameFails(routes: seq<Route>, trips: seq<Trip>, service: string, names: seq<string>)
    requires |names| > 0
    requires exists i :: 0 <= i < |names[1..]| && NameFails(routes, trips, service, names[1..][i])
    ensures exists i :: 0 <= i < |names| && NameFails(routes, trips, service, names[i])
  {
    var i :| 0 <= i < |names[1..]| && NameFails(routes, trips, service, names[1..][i]);
    assert names[1..][i] == names[i + 1];
  }

  lemma ConsRouteBlocks(routes: seq<Route>, trips: seq<Trip>, service: string, names: seq<string>, head: RouteBlocks, rest: seq<RouteBlocks>)
    requires |names| > 0 && head.route == names[0] && SuffixesOf(routes, trips, service, head)
    requires |rest| == |names| - 1
    requires forall i :: 0 <= i < |rest| ==> rest[i].route == names[1..][i] && SuffixesOf(routes, trips, service, rest[i])
    ensures forall i :: 0 <= i < |names| ==> ([head] + rest)[i].route == names[i] && SuffixesOf(routes, trips, service, ([head] + rest)[i])
  {
    forall i | 0 <= i < |names| ensures ([head] + rest)[i].route == names[i] && SuffixesOf(routes, trips, service, ([head] + rest)[i]) {
      if i > 0 {
        assert ([head] + rest)[i] == rest[i - 1] && names[1..][i - 1] == names[i];
      }
    }
  }

  function ShortNames(routes: seq<Route>): (r: seq<string>)
    ensures |r| == |routes| && forall i :: 0 <= i < |routes| ==> r[i] == routes[i].shortName
  {
    seq(|routes|, i requires 0 <= i < |routes| => routes[i].shortName)
  }

  /** `routes_list` for one service (lines 197 and 203-213): one entry per
      distinct short name, in ascending numeric order, each with its own
      route's block suffixes in that service. */
  function BusRouteBlocks(routes: seq<Route>, trips: seq<Trip>, service: string): (r: Result<seq<RouteBlocks>>)
    ensures (exists i :: 0 <= i < |routes| && !IsNumeral(routes[i].shortName)) ==> r.Err?
    ensures r.Ok? ==> DistinctRoutes(r.value)
    ensures r.Ok? ==> forall i :: 0 <= i < |r.value| ==> IsShortName(routes, r.value[i].route)
    ensures r.Ok? ==> forall j :: 0 <= j < |routes| ==> Listed(r.value, routes[j].shortName)
    ensures r.Ok? ==> forall i, j :: 0 <= i < j < |r.value| ==> NumericKey(r.value[i].route) <= NumericKey(r.value[j].route)
  {
    var distinct := Distinct(ShortNames(routes));
    ShortNamesNumeric(routes);
    match SortNumerically(distinct)
    case Err(e) => Err(e)
    case Ok(names) =>
      var r := RouteBlocksList(routes, trips, service, names);
      if r.Ok? then
        RouteListFacts(routes, trips, service, names);
        r
      else r
  }

  /** The routes list built from the sorted distinct short names. */
  lemma RouteListFacts(routes: seq<Route>, trips: seq<Trip>, service: string, names: seq<string>)
    requires SortNumerically(Distinct(ShortNames(routes))) == Ok(names)
    requires RouteBlocksList(routes, trips, service, names).Ok?
    ensures DistinctRoutes(RouteBlocksList(routes, trips, service, names).value)
    ensures forall i :: 0 <= i < |RouteBlocksList(routes, trips, service, names).value| ==>
              IsShortName(routes, RouteBlocksList(routes, trips, service, names).value[i].route)
    ensures forall j :: 0 <= j < |routes| ==> Listed(RouteBlocksList(routes, trips, service, names).value, routes[j].shortName)
    ensures forall i, j :: 0 <= i < j < |RouteBlocksList(routes, trips, service, names).value| ==>
              NumericKey(RouteBlocksList(routes, trips, service, names).value[i].route)
              <= NumericKey(RouteBlocksList(routes, trips, service, names).value[j].route)
  {
    var distinct := Distinct(ShortNames(routes));
    ShortNamesNumeric(routes);
    NoDuplicatesPermutation(distinct, names);
    SameElements(distinct, names);
    RouteNamesCovered(routes, names, RouteBlocksList(routes, trips, service, names).value);
  }

  /** Each entry of the routes list holds the suffixes of its own route's
      blocks in the service, as lines 208-211 compute them. */
  lemma BusRouteBlocksSuffixes(routes: seq<Route>, trips: seq<Trip>, service: string)
    ensures BusRouteBlocks(routes, trips, service).Ok? ==>
              forall i :: 0 <= i < |BusRouteBlocks(routes, trips, service).value| ==>
                SuffixesOf(routes, trips, service, BusRouteBlocks(routes, trips, service).value[i])
  {
    var distinct := Distinct(ShortNames(routes));
    match SortNumerically(distinct)
    case Err(_) =>
    case Ok(names) =>
      assert BusRouteBlocks(routes, trips, service) == RouteBlocksList(routes, trips, service, names);
  }

  /** The error a failing name gives: the lookup's error when no route has
      the name (line 208), otherwise the error of its suffix list (lines
      210-211). */
  function NameError(routes: seq<Route>, trips: seq<Trip>, service: string, name: string): Error
    requires NameFails(routes, trips, service, name)
  {
    if RouteIdOf(routes, name).Err? then RouteIdOf(routes, name).error
    else RouteSuffixes(trips, RouteIdOf(routes, name).value, service).error
  }

  /** The routes list is built exactly when no name fails. */
  lemma RouteBlocksListOutcome(routes: seq<Route>, trips: seq<Trip>, service: string, names: seq<string>)
    ensures RouteBlocksList(routes, trips, service, names).Ok? <==>
              forall i :: 0 <= i < |names| ==> !NameFails(routes, trips, service, names[i])
  {
    var r := RouteBlocksList(routes, trips, service, names);
    if r.Ok? {
      forall i | 0 <= i < |names| ensures !NameFails(routes, trips, service, names[i]) {
        assert r.value[i].route == names[i] && SuffixesOf(routes, trips, service, r.value[i]);
      }
    }
  }

  /** The loop over the sorted names stops at the first name that fails,
      with that name's error. */
  lemma {:induction false} RouteBlocksListFirstError(routes: seq<Route>, trips: seq<Trip>, service: string, names: seq<string>, i: nat)
    requires i < |names| && NameFails(routes, trips, service, names[i])
    requires forall j :: 0 <= j < i ==> !NameFails(routes, trips, service, names[j])
    ensures RouteBlocksList(routes, trips, service, names) == Err(NameError(routes, trips, service, names[i]))
  {
    if i > 0 {
      TailNoneFail(routes, trips, service, names, i);
      RouteBlocksListFirstError(routes, trips, service, names[1..], i - 1);
      RouteBlocksListStep(routes, trips, service, names);
    } else {
      RouteBlocksListHead(routes, trips, service, names);
    }
  }

  lemma TailNoneFail(routes: seq<Route>, trips: seq<Trip>, service: string, names: seq<string>, i: nat)
    requires 0 < i < |names| && NameFails(routes, trips, service, names[i])
    requires forall j :: 0 <= j < i ==> !NameFails(routes, trips, service, names[j])
    ensures NameFails(routes, trips, service, names[1..][i - 1])
    ensures forall j :: 0 <= j < i - 1 ==> !NameFails(routes, trips, service, names[1..][j])
  {
    assert names[1..][i - 1] == names[i];
    forall j | 0 <= j < i - 1 ensures !NameFails(routes, trips, service, names[1..][j]) {
      assert names[1..][j] == names[j + 1];
    }
  }

  lemma RouteBlocksListHead(routes: seq<Route>, trips: seq<Trip>, service: string, names: seq<string>)
    requires |names| > 0 && NameFails(routes, trips, service, names[0])
    ensures RouteBlocksList(routes, trips, service, names) == Err(NameError(routes, trips, service, names[0]))
  {
  }

  lemma RouteBlocksListStep(routes: seq<Route>, trips: seq<Trip>, service: string, names: seq<string>)
    requires |names| > 0 && !NameFails(routes, trips, service, names[0])
    requires RouteBlocksList(routes, trips, service, names[1..]).Err?
    ensures RouteBlocksList(routes, trips, service, names) == Err(RouteBlocksList(routes, trips, service, names[1..]).error)
  {
  }

  /** All short names are numbers. */
  predicate NumericNames(routes: seq<Route>) {
    forall i :: 0 <= i < |routes| ==> IsNumeral(routes[i].shortName)
  }

  /** No short name lacks a route id or has a block without a numeric
      second field in the service. */
  ghost predicate NoNameFails(routes: seq<Route>, trips: seq<Trip>, service: string) {
    forall i :: 0 <= i < |routes| ==> !NameFails(routes, trips, service, routes[i].shortName)
  }

  /** The sorted distinct short names of line 205: each short name once,
      in ascending numeric order. */
  function SortedNames(routes: seq<Route>): (names: seq<string>)
    requires NumericNames(routes)
    ensures forall name :: name in names <==> IsShortName(routes, name)
    ensures NoDuplicates(names)
    ensures forall i, j :: 0 <= i < j < |names| ==> NumericKey(names[i]) <= NumericKey(names[j])
  {
    ShortNamesNumeric(routes);
    var distinct := Distinct(ShortNames(routes));
    var names := SortNumerically(distinct).value;
    SameElements(distinct, names);
    NoDuplicatesPermutation(distinct, names);
    names
  }

  lemma BusRouteBlocksIsList(routes: seq<Route>, trips: seq<Trip>, service: string)
    requires NumericNames(routes)
    ensures BusRouteBlocks(routes, trips, service) == RouteBlocksList(routes, trips, service, SortedNames(routes))
  {
    ShortNamesNumeric(routes);
  }

  /** A property holds of every sorted name exactly when it holds of every
      route's short name. */
  lemma SortedNamesAll(routes: seq<Route>, trips: seq<Trip>, service: string, names: seq<string>)
    requires forall name :: name in names <==> IsShortName(routes, name)
    ensures (forall i :: 0 <= i < |names| ==> !NameFails(routes, trips, service, names[i])) <==> NoNameFails(routes, trips, service)
  {
    if NoNameFails(routes, trips, service) {
      forall i | 0 <= i < |names| ensures !NameFails(routes, trips, service, names[i]) {
        assert names[i] in names;
        var j :| 0 <= j < |routes| && routes[j].shortName == names[i];
      }
    } else {
      var j :| 0 <= j < |routes| && NameFails(routes, trips, service, routes[j].shortName);
      assert IsShortName(routes, routes[j].shortName);
      var i :| 0 <= i < |names| && names[i] == routes[j].shortName;
    }
  }

  /** When the routes list of a service is built: every short name is a
      number (line 205) and every route has a route id and numeric block
      suffixes in the service (lines 208-211). */
  lemma BusRouteBlocksOutcome(routes: seq<Route>, trips: seq<Trip>, service: string)
    ensures BusRouteBlocks(routes, trips, service).Ok? <==> NumericNames(routes) && NoNameFails(routes, trips, service)
  {
    if NumericNames(routes) {
      var names := SortedNames(routes);
      BusRouteBlocksIsList(routes, trips, service);
      RouteBlocksListOutcome(routes, trips, service, names);
      SortedNamesAll(routes, trips, service, names);
    }
  }

  /** A non-numeric short name fails the service with `NotANumber` of the
      first such name in file order: `sorted(..., key=int)` (line 205) reads
      the names in the first-appearance order of line 197. */
  lemma BusRouteBlocksNameError(routes: seq<Route>, trips: seq<Trip>, service: string, k: nat)
    requires k < |routes| && !IsNumeral(routes[k].shortName)
    requires forall j :: 0 <= j < k ==> IsNumeral(routes[j].shortName)
    ensures BusRouteBlocks(routes, trips, service) == Err(NotANumber(routes[k].shortName))
  {
    var names := ShortNames(routes);
    DistinctFirst(names, NotNumeral, k);
  }

  /** With numeric short names, a failure names the failing route with the
      smallest number: the loop of lines 207-211 runs in ascending numeric
      order and stops at the first name that fails. */
  lemma BusRouteBlocksRouteError(routes: seq<Route>, trips: seq<Trip>, service: string, k: nat)
    requires NumericNames(routes)
    requires k < |routes| && NameFails(routes, trips, service, routes[k].shortName)
    requires forall j :: 0 <= j < |routes| && routes[j].shortName != routes[k].shortName
                         && NumericKey(routes[j].shortName) <= NumericKey(routes[k].shortName) ==>
                           !NameFails(routes, trips, service, routes[j].shortName)
    ensures BusRouteBlocks(routes, trips, service) == Err(NameError(routes, trips, service, routes[k].shortName))
  {
    var names := SortedNames(routes);
    var name := routes[k].shortName;
    assert IsShortName(routes, name);
    var p :| 0 <= p < |names| && names[p] == name;
    forall j | 0 <= j < p ensures !NameFails(routes, trips, service, names[j]) {
      assert names[j] in names;
      var m :| 0 <= m < |routes| && routes[m].shortName == names[j];
    }
    RouteBlocksListFirstError(routes, trips, service, names, p);
    BusRouteBlocksIsList(routes, trips, service);
  }

  /** Some route carries `name` as its short name. */
  ghost predicate IsShortName(routes: seq<Route>, name: string) {
    exists j :: 0 <= j < |routes| && routes[j].shortName == name
  }

  /** Some entry of the routes list is for `name`. */
  ghost predicate Listed(rbs: seq<RouteBlocks>, name: string) {
    exists i :: 0 <= i < |rbs| && rbs[i].route == name
  }

  lemma RouteNamesCovered(routes: seq<Route>, names: seq<string>, rbs: seq<RouteBlocks>)
    requires |rbs| == |names| && forall i :: 0 <= i < |names| ==> rbs[i].route == names[i]
    requires forall name :: name in names <==> IsShortName(routes, name)
    ensures forall i :: 0 <= i < |rbs| ==> IsShortName(routes, rbs[i].route)
    ensures forall j :: 0 <= j < |routes| ==> Listed(rbs, routes[j].shortName)
  {
    forall i | 0 <= i < |rbs| ensures IsShortName(routes, rbs[i].route) {
      assert names[i] in names;
    }
    forall j | 0 <= j < |routes| ensures Listed(rbs, routes[j].shortName) {
      assert IsShortName(routes, routes[j].shortName);
      var i :| 0 <= i < |names| && names[i] == routes[j].shortName;
      assert rbs[i].route == routes[j].shortName;
    }
  }

  lemma ShortNamesNumeric(routes: seq<Route>)
    ensures SortNumerically(Distinct(ShortNames(routes))).Ok? <==>
              forall i :: 0 <= i < |routes| ==> IsNumeral(routes[i].shortName)
    ensures forall name :: name in Distinct(ShortNames(routes)) <==> IsShortName(routes, name)
  {
    var distinct := Distinct(ShortNames(routes));
    forall name ensures name in distinct <==> IsShortName(routes, name) {
      if name in distinct {
        var i :| 0 <= i < |routes| && ShortNames(routes)[i] == name;
      }
      if IsShortName(routes, name) {
        var i :| 0 <= i < |routes| && routes[i].shortName == name;
        assert ShortNames(routes)[i] == name;
      }
    }
    if exists i :: 0 <= i < |routes| && !IsNumeral(routes[i].shortName) {
      var i :| 0 <= i < |routes| && !IsNumeral(routes[i].shortName);
      assert routes[i].shortName in distinct;
      var k :| 0 <= k < |distinct| && distinct[k] == routes[i].shortName;
      assert !IsNumeral(distinct[k]);
    } else {
      forall k | 0 <= k < |distinct| ensures IsNumeral(distinct[k]) {
        assert distinct[k] in distinct;
        var i :| 0 <= i < |routes| && ShortNames(routes)[i] == distinct[k];
      }
    }
  }

  /** The route order of the walk survives in its output: labels of a route
      come after those of every route before it in the list. */
  lemma {:induction false} RoutesInOrder(rbs: seq<RouteBlocks>, ws: seq<seq<Outcome>>)
    requires Shaped(rbs, ws)
    requires forall r1, r2 :: 0 <= r1 < r2 < |rbs| ==> NumericKey(rbs[r1].route) <= NumericKey(rbs[r2].route)
    ensures forall i, j :: 0 <= i < j < |Collect(rbs, ws)| ==>
              NumericKey(Collect(rbs, ws)[i].route) <= NumericKey(Collect(rbs, ws)[j].route)
  {
    if |rbs| > 0 {
      var head := CollectRoute(rbs[0].route, rbs[0].suffixes, ws[0]);
      var tail := Collect(rbs[1..], ws[1..]);
      RoutesInOrder(rbs[1..], ws[1..]);
      RouteLabelsFromRoute(rbs[0].route, rbs[0].suffixes, ws[0]);
      LabelsFromRoutes(rbs[1..], ws[1..]);
      var ls := Collect(rbs, ws);
      assert ls == head + tail;
      forall i, j | 0 <= i < j < |ls| ensures NumericKey(ls[i].route) <= NumericKey(ls[j].route) {
        if j < |head| {
          assert head[i] in head && head[j] in head;
        } else if i < |head| {
          assert head[i] in head;
          assert tail[j - |head|] in tail;
          var r :| 0 <= r < |rbs[1..]| && tail[j - |head|].route == rbs[1..][r].route && tail[j - |head|].suffix in rbs[1..][r].suffixes;
          assert rbs[1..][r] == rbs[r + 1];
        } else {
          assert ls[i] == tail[i - |head|] && ls[j] == tail[j - |head|];
        }
      }
    }
  }

  /** The label comes from the feed: a trip of the service runs on the
      route that `route_id` lookup finds for the short name, and the second
      `_`-field of its block id is the suffix. */
  ghost predicate FromTrip(routes: seq<Route>, trips: seq<Trip>, service: string, l: Label) {
    && RouteIdOf(routes, l.route).Ok?
    && exists t :: t in trips && t.routeId == RouteIdOf(routes, l.route).value && t.serviceId == service
                   && Field(t.blockId, '_', 1) == Ok(l.suffix)
  }

  /** The labels of one service (lines 200-228). Building the routes list
      can fail; an empty list, or a first route without blocks in the
      service, fails at the seed (lines 215-216). Otherwise the first row is
      the first route's smallest block as `<route>/01`, the labelled block
      numbers climb by exactly one from row to row, NN is 1 plus the count
      of the route's earlier rows, routes appear in ascending numeric order,
      and every row is a block of a trip of its route in the service. */
  function ServiceLabels(routes: seq<Route>, trips: seq<Trip>, service: string): (r: Result<seq<Label>>)
    ensures BusRouteBlocks(routes, trips, service).Err? ==> r == Err(BusRouteBlocks(routes, trips, service).error)
    ensures BusRouteBlocks(routes, trips, service).Ok? ==> (r == Err(NoRoutes) <==> |routes| == 0)
    ensures BusRouteBlocks(routes, trips, service).Ok? ==> r == SeededLabels(service, BusRouteBlocks(routes, trips, service).value)
  {
    var rbs :- BusRouteBlocks(routes, trips, service);
    RouteListSize(routes, rbs);
    SeededLabels(service, rbs)
  }

  /** Lines 215-228 on a routes list that was built without error. */
  function SeededLabels(service: string, rbs: seq<RouteBlocks>): (r: Result<seq<Label>>)
    requires DistinctRoutes(rbs)
    requires forall r1, r2 :: 0 <= r1 < r2 < |rbs| ==> NumericKey(rbs[r1].route) <= NumericKey(rbs[r2].route)
    ensures |rbs| == 0 ==> r == Err(NoRoutes)
    ensures |rbs| > 0 && |rbs[0].suffixes| == 0 ==> r == Err(NoBlocksForFirstRoute(rbs[0].route, service))
    ensures r.Ok? <==> |rbs| > 0 && |rbs[0].suffixes| > 0
    ensures r.Ok? ==> |r.value| > 0 && r.value[0] == Label(rbs[0].route, rbs[0].suffixes[0], 1)
    ensures r.Ok? ==> forall k :: 0 <= k < |r.value| ==> NumericKey(r.value[k].suffix) == NumericKey(r.value[0].suffix) + k
    ensures r.Ok? ==> forall k :: 0 <= k < |r.value| ==> r.value[k].ordinal == 1 + CountIf(r.value[..k], OfRoute(r.value[k].route))
    ensures r.Ok? ==> forall i, j :: 0 <= i < j < |r.value| ==> NumericKey(r.value[i].route) <= NumericKey(r.value[j].route)
  {
    if |rbs| == 0 then Err(NoRoutes)
    else if |rbs[0].suffixes| == 0 then Err(NoBlocksForFirstRoute(rbs[0].route, service))
    else
      ChainOrder(rbs);
      Ok(ChainLabels(rbs))
  }

  /** On a routes list built without error, the labelled blocks are those
      that continue the chain. */
  lemma SeededLabelsBlocks(service: string, rbs: seq<RouteBlocks>)
    requires DistinctRoutes(rbs)
    requires forall r1, r2 :: 0 <= r1 < r2 < |rbs| ==> NumericKey(rbs[r1].route) <= NumericKey(rbs[r2].route)
    requires SeededLabels(service, rbs).Ok?
    ensures ChainBlocks(rbs, SeededLabels(service, rbs).value)
  {
    ChainLabelsBlocks(rbs);
  }

  /** Which blocks of a service get a schedule number: on the service's
      routes list, exactly the blocks that continue the chain. */
  lemma ServiceLabelsBlocks(routes: seq<Route>, trips: seq<Trip>, service: string)
    ensures ServiceLabels(routes, trips, service).Ok? ==>
              && BusRouteBlocks(routes, trips, service).Ok?
              && ChainBlocks(BusRouteBlocks(routes, trips, service).value, ServiceLabels(routes, trips, service).value)
  {
    var rbs := BusRouteBlocks(routes, trips, service);
    if ServiceLabels(routes, trips, service).Ok? {
      assert ServiceLabels(routes, trips, service) == SeededLabels(service, rbs.value);
      SeededLabelsBlocks(service, rbs.value);
    }
  }

  /** Some trip of the service runs on the route. */
  ghost predicate RunsInService(trips: seq<Trip>, routeId: string, service: string) {
    exists t :: t in trips && t.routeId == routeId && t.serviceId == service
  }

  /** A built suffix list is empty exactly when no trip of the service runs
      on the route. */
  lemma RouteSuffixesNonEmpty(trips: seq<Trip>, routeId: string, service: string)
    requires RouteSuffixes(trips, routeId, service).Ok?
    ensures |RouteSuffixes(trips, routeId, service).value| > 0 <==> RunsInService(trips, routeId, service)
  {
    var sfx := RouteSuffixes(trips, routeId, service).value;
    RouteSuffixesSpec(trips, routeId, service);
    if |sfx| > 0 {
      assert sfx[0] in sfx;
    }
    if RunsInService(trips, routeId, service) {
      var t :| t in trips && t.routeId == routeId && t.serviceId == service;
      assert BlockSuffix(t.blockId).Ok?;
      assert Field(t.blockId, '_', 1).value in sfx;
    }
  }

  /** The numerically smallest short name comes first in the sorted names. */
  lemma SortedNamesFirst(routes: seq<Route>)
    requires NumericNames(routes) && |routes| > 0
    ensures |SortedNames(routes)| > 0 && IsShortName(routes, SortedNames(routes)[0])
    ensures forall j :: 0 <= j < |routes| ==> NumericKey(SortedNames(routes)[0]) <= NumericKey(routes[j].shortName)
  {
    var names := SortedNames(routes);
    assert IsShortName(routes, routes[0].shortName);
    assert routes[0].shortName in names;
    assert names[0] in names;
    forall j | 0 <= j < |routes| ensures NumericKey(names[0]) <= NumericKey(routes[j].shortName) {
      assert IsShortName(routes, routes[j].shortName);
      var i :| 0 <= i < |names| && names[i] == routes[j].shortName;
    }
  }

  /** The feed gives a service its labels (lines 200-216): the routes list
      is built, the routes table is not empty, and a trip of the service
      runs on the route that comes first in numeric order. */
  ghost predicate ServiceBuilds(routes: seq<Route>, trips: seq<Trip>, service: string) {
    && NumericNames(routes)
    && NoNameFails(routes, trips, service)
    && |SortedNames(routes)| > 0
    && RouteIdOf(routes, SortedNames(routes)[0]).Ok?
    && RunsInService(trips, RouteIdOf(routes, SortedNames(routes)[0]).value, service)
  }

  /** A service gets its labels exactly when the feed allows it; otherwise
      `routes_list[0]` or `routes_list[0][first_key][0]` (lines 215-216)
      or the routes list itself fails. */
  lemma ServiceLabelsOutcome(routes: seq<Route>, trips: seq<Trip>, service: string)
    ensures ServiceLabels(routes, trips, service).Ok? <==> ServiceBuilds(routes, trips, service)
  {
    BusRouteBlocksOutcome(routes, trips, service);
    if NumericNames(routes) && NoNameFails(routes, trips, service) {
      var names := SortedNames(routes);
      BusRouteBlocksIsList(routes, trips, service);
      var rbs := BusRouteBlocks(routes, trips, service).value;
      assert ServiceLabels(routes, trips, service) == SeededLabels(service, rbs);
      assert |rbs| == |names|;
      if |names| > 0 {
        assert rbs[0].route == names[0] && SuffixesOf(routes, trips, service, rbs[0]);
        RouteSuffixesNonEmpty(trips, RouteIdOf(routes, names[0]).value, service);
      }
    }
  }

  lemma RouteListSize(routes: seq<Route>, rbs: seq<RouteBlocks>)
    requires forall i :: 0 <= i < |rbs| ==> IsShortName(routes, rbs[i].route)
    requires forall j :: 0 <= j < |routes| ==> Listed(rbs, routes[j].shortName)
    ensures |rbs| == 0 <==> |routes| == 0
  {
    if |routes| > 0 {
      assert Listed(rbs, routes[0].shortName);
    }
    if |rbs| > 0 {
      assert IsShortName(routes, rbs[0].route);
    }
  }

  /** Every row of a service's labels is a numeric block suffix of a trip
      that runs, in that service, on the route found for the row's short
      name. */
  lemma ServiceLabelsFromTrips(routes: seq<Route>, trips: seq<Trip>, service: string)
    ensures ServiceLabels(routes, trips, service).Ok? ==>
              forall l :: l in ServiceLabels(routes, trips, service).value ==> IsNumeral(l.suffix) && FromTrip(routes, trips, service, l)
  {
    var rbs := BusRouteBlocks(routes, trips, service);
    BusRouteBlocksSuffixes(routes, trips, service);
    if ServiceLabels(routes, trips, service).Ok? {
      ChainFromTrips(routes, trips, service, rbs.value);
    }
  }

  lemma ChainOrder(rbs: seq<RouteBlocks>)
    requires |rbs| > 0 && |rbs[0].suffixes| > 0 && DistinctRoutes(rbs)
    requires forall r1, r2 :: 0 <= r1 < r2 < |rbs| ==> NumericKey(rbs[r1].route) <= NumericKey(rbs[r2].route)
    ensures forall k :: 0 <= k < |ChainLabels(rbs)| ==>
              ChainLabels(rbs)[k].ordinal == 1 + CountIf(ChainLabels(rbs)[..k], OfRoute(ChainLabels(rbs)[k].route))
    ensures forall i, j :: 0 <= i < j < |ChainLabels(rbs)| ==>
              NumericKey(ChainLabels(rbs)[i].route) <= NumericKey(ChainLabels(rbs)[j].route)
  {
    ChainIsWalk(rbs);
    Ordinals(rbs, Seed(rbs));
    RoutesInOrder(rbs, WalkRoutes(rbs, Seed(rbs)));
  }

  lemma ChainIsWalk(rbs: seq<RouteBlocks>)
    requires |rbs| > 0 && |rbs[0].suffixes| > 0
    ensures ChainLabels(rbs) == WalkLabels(rbs, Seed(rbs)) == Collect(rbs, WalkRoutes(rbs, Seed(rbs)))
  {
  }

  lemma ChainFromTrips(routes: seq<Route>, trips: seq<Trip>, service: string, rbs: seq<RouteBlocks>)
    requires |rbs| > 0 && |rbs[0].suffixes| > 0
    requires forall i :: 0 <= i < |rbs| ==> SuffixesOf(routes, trips, service, rbs[i])
    ensures forall l :: l in ChainLabels(rbs) ==> IsNumeral(l.suffix) && FromTrip(routes, trips, service, l)
  {
    forall l | l in ChainLabels(rbs) ensures IsNumeral(l.suffix) && FromTrip(routes, trips, service, l) {
      var r :| 0 <= r < |rbs| && l.route == rbs[r].route && l.suffix in rbs[r].suffixes;
      LabelFromTrip(routes, trips, service, rbs[r], l);
    }
  }

  lemma LabelFromTrip(routes: seq<Route>, trips: seq<Trip>, service: string, rb: RouteBlocks, l: Label)
    requires SuffixesOf(routes, trips, service, rb)
    requires l.route == rb.route && l.suffix in rb.suffixes
    ensures IsNumeral(l.suffix) && FromTrip(routes, trips, service, l)
  {
    var routeId := RouteIdOf(routes, rb.route).value;
    var sfx := RouteSuffixes(trips, routeId, service);
    assert sfx == Ok(rb.suffixes);
    RouteSuffixesSpec(trips, routeId, service);
    var i :| 0 <= i < |rb.suffixes| && rb.suffixes[i] == l.suffix;
    assert IsNumeral(sfx.value[i]);
  }

  /** The rows of one service (line 226): one per label, in label order,
      each carrying the service, a block id whose `int()` suffix is the
      labelled number, and `<route>/<NN>`. The block ids are distinct. */
  function ServiceEntries(routes: seq<Route>, trips: seq<Trip>, service: string): (r: Result<seq<Entry>>)
    ensures r.Err? <==> ServiceLabels(routes, trips, service).Err?
    ensures r.Err? ==> r.error == ServiceLabels(routes, trips, service).error
    ensures r.Ok? ==> |r.value| == |ServiceLabels(routes, trips, service).value|
    ensures r.Ok? ==> forall k :: 0 <= k < |r.value| ==>
              && r.value[k].serviceId == service
              && r.value[k].blockId == "block_" + ServiceLabels(routes, trips, service).value[k].suffix
              && r.value[k].scheduleNumber == ScheduleLabel(ServiceLabels(routes, trips, service).value[k].route,
                                                            ServiceLabels(routes, trips, service).value[k].ordinal)
    ensures r.Ok? ==> forall k :: 0 <= k < |r.value| ==>
              BlockSuffix(r.value[k].blockId) == Ok(NumericKey(ServiceLabels(routes, trips, service).value[k].suffix))
    ensures r.Ok? ==> forall i, j :: 0 <= i < j < |r.value| ==> r.value[i].blockId != r.value[j].blockId
  {
    var labels := ServiceLabels(routes, trips, service);
    if labels.Err? then Err(labels.error)
    else
      ServiceEntriesFacts(routes, trips, service);
      Ok(ToEntries(labels.value, service))
  }

  lemma ServiceEntriesFacts(routes: seq<Route>, trips: seq<Trip>, service: string)
    requires ServiceLabels(routes, trips, service).Ok?
    ensures forall k :: 0 <= k < |ServiceLabels(routes, trips, service).value| ==>
              && ToEntries(ServiceLabels(routes, trips, service).value, service)[k].serviceId == service
              && ToEntries(ServiceLabels(routes, trips, service).value, service)[k].blockId == "block_" + ServiceLabels(routes, trips, service).value[k].suffix
              && ToEntries(ServiceLabels(routes, trips, service).value, service)[k].scheduleNumber ==
                   ScheduleLabel(ServiceLabels(routes, trips, service).value[k].route, ServiceLabels(routes, trips, service).value[k].ordinal)
              && BlockSuffix(ToEntries(ServiceLabels(routes, trips, service).value, service)[k].blockId) ==
                   Ok(NumericKey(ServiceLabels(routes, trips, service).value[k].suffix))
    ensures forall i, j :: 0 <= i < j < |ServiceLabels(routes, trips, service).value| ==>
              ToEntries(ServiceLabels(routes, trips, service).value, service)[i].blockId
              != ToEntries(ServiceLabels(routes, trips, service).value, service)[j].blockId
  {
    var ls := ServiceLabels(routes, trips, service).value;
    ServiceLabelsConsecutive(routes, trips, service);
    EntrySuffixes(ls, service);
  }

  /** A service's labels carry numeric suffixes that climb by one. */
  lemma ServiceLabelsConsecutive(routes: seq<Route>, trips: seq<Trip>, service: string)
    requires ServiceLabels(routes, trips, service).Ok?
    ensures forall l :: l in ServiceLabels(routes, trips, service).value ==> IsNumeral(l.suffix)
    ensures forall k :: 0 <= k < |ServiceLabels(routes, trips, service).value| ==>
              NumericKey(ServiceLabels(routes, trips, service).value[k].suffix)
              == NumericKey(ServiceLabels(routes, trips, service).value[0].suffix) + k
  {
    ServiceLabelsFromTrips(routes, trips, service);
    var rbs := BusRouteBlocks(routes, trips, service).value;
    assert ServiceLabels(routes, trips, service) == SeededLabels(service, rbs);
  }

  /** Rows made from labels with numeric suffixes that climb by one carry
      block ids whose suffixes read back as those numbers, so no two rows
      share a block id. */
  lemma EntrySuffixes(ls: seq<Label>, service: string)
    requires forall l :: l in ls ==> IsNumeral(l.suffix)
    requires forall k :: 0 <= k < |ls| ==> NumericKey(ls[k].suffix) == NumericKey(ls[0].suffix) + k
    ensures forall k :: 0 <= k < |ls| ==>
              && ToEntries(ls, service)[k].serviceId == service
              && ToEntries(ls, service)[k].blockId == "block_" + ls[k].suffix
              && ToEntries(ls, service)[k].scheduleNumber == ScheduleLabel(ls[k].route, ls[k].ordinal)
    ensures forall k :: 0 <= k < |ls| ==> BlockSuffix(ToEntries(ls, service)[k].blockId) == Ok(NumericKey(ls[k].suffix))
    ensures forall i, j :: 0 <= i < j < |ls| ==> ToEntries(ls, service)[i].blockId != ToEntries(ls, service)[j].blockId
  {
    var es := ToEntries(ls, service);
    forall k | 0 <= k < |ls| ensures BlockSuffix(es[k].blockId) == Ok(NumericKey(ls[k].suffix)) {
      assert ls[k] in ls;
      BlockIdSuffix(ls[k].suffix);
    }
    forall i, j | 0 <= i < j < |ls| ensures es[i].blockId != es[j].blockId {
      assert BlockSuffix(es[i].blockId) != BlockSuffix(es[j].blockId);
    }
  }

  /** The result of every service of the calendar, in calendar order. */
  function PerService(routes: seq<Route>, trips: seq<Trip>, services: seq<string>): (rs: seq<Result<seq<Entry>>>)
    ensures |rs| == |services| && forall i :: 0 <= i < |services| ==> rs[i] == ServiceEntries(routes, trips, services[i])
  {
    seq(|services|, i requires 0 <= i < |services| => ServiceEntries(routes, trips, services[i]))
  }

  /** `create_df_with_schedule_numbers` (lines 196-231): the rows of every
      service of the calendar, service after service. The first service
      that fails stops the whole table. */
  function BusScheduleNumbers(routes: seq<Route>, trips: seq<Trip>, services: seq<string>): (r: Result<seq<Entry>>)
    ensures r.Ok? <==> forall i :: 0 <= i < |services| ==> ServiceEntries(routes, trips, services[i]).Ok?
    ensures r.Err? ==> exists i :: 0 <= i < |services| && ServiceEntries(routes, trips, services[i]) == Err(r.error)
                                   && forall j :: 0 <= j < i ==> ServiceEntries(routes, trips, services[j]).Ok?
  {
    JoinAll(PerService(routes, trips, services))
  }
}
