/** The route picker's list of lines (`get_routes_list_with_labels`): every
    bus and tram route of the feed, grouped under one of fifteen Polish
    headings by its line number. Tram lines are sorted by number, bus lines
    by their short name as a string; each group lists its routes in that
    order. */
module RouteLabels {
  import opened Results
  import opened Ordering
  import opened Collections
  import opened Tables

  /** The headings, in the order the dictionary literal lists them: six
      tram groups (0-5), then nine bus groups (6-14). */
  const GroupTitles: seq<string> := [
    "Linie tramwajowe dzienne",
    "Linie tramwajowe wspomagające",
    "Linie tramwajowe KST",
    "Linie tramwajowe nocne",
    "Linie tramwajowe zastępcze",
    "Linie tramwajowe cmentarne",
    "Linie autobusowe miejskie",
    "Linie autobusowe aglomeracyjne",
    "Linie autobusowe aglomeracyjne przyśpieszone",
    "Linie autobusowe miejskie wspomagające",
    "Linie autobusowe miejskie przyśpieszone",
    "Linie autobusowe miejskie nocne",
    "Linie autobusowe zastępcze",
    "Linie autobusowe cmentarne",
    "Linie autobusowe aglomeracyjne nocne"
  ]

  const GroupCount: nat := 15
  const TramGroupCount: nat := 6

  /** One heading with its routes; a route stands for the one-entry
      dictionary `{route_short_name: route_id}` the code appends. */
  datatype Group = Group(title: string, routes: seq<Route>)

  /** The bus bands of lines 54-71: below 200, then one band per hundred up
      to 999; a number from 1000 up is in no group. */
  function BusGroup(n: nat): (g: Option<nat>)
    ensures g.Some? <==> n < 1000
    ensures g.Some? ==> TramGroupCount <= g.value < GroupCount
    ensures g.Some? ==> g.value == (if n < 200 then 6 else 5 + n / 100)
  {
    if n < 200 then Some(6)
    else if n < 300 then Some(7)
    else if n < 400 then Some(8)
    else if n < 500 then Some(9)
    else if n < 600 then Some(10)
    else if n < 700 then Some(11)
    else if n < 800 then Some(12)
    else if n < 900 then Some(13)
    else if n < 1000 then Some(14)
    else None
  }

  /** The tram bands of lines 75-87: below 40, then one band per ten up to
      89; a number from 90 up is in no group. */
  function TramGroup(n: nat): (g: Option<nat>)
    ensures g.Some? <==> n < 90
    ensures g.Some? ==> g.value < TramGroupCount
    ensures g.Some? ==> g.value == (if n < 40 then 0 else n / 10 - 3)
  {
    if n < 40 then Some(0)
    else if n < 50 then Some(1)
    else if n < 60 then Some(2)
    else if n < 70 then Some(3)
    else if n < 80 then Some(4)
    else if n < 90 then Some(5)
    else None
  }

  /** The short name is not a number, so `int()` raises on it. */
  predicate Unnumbered(r: Route) { !IsNumeral(r.shortName) }

  /** Line 31: numpy compares the short names as strings. */
  predicate ShortNameLe(a: Route, b: Route) { LexLe(a.shortName, b.shortName) }

  /** Line 34: the short names compared as integers. */
  predicate LineNumberLe(a: Route, b: Route) { NumericKey(a.shortName) <= NumericKey(b.shortName) }

  lemma ShortNameLeIsTotalPreorder()
    ensures TotalPreorder(ShortNameLe)
  {
    forall a, b ensures ShortNameLe(a, b) || ShortNameLe(b, a) { LexLeTotal(a.shortName, b.shortName); }
    forall a, b, c | ShortNameLe(a, b) && ShortNameLe(b, c) ensures ShortNameLe(a, c) {
      LexLeTrans(a.shortName, b.shortName, c.shortName);
    }
  }

  function InBusGroup(g: nat): Route -> bool {
    (r: Route) => BusGroup(NumericKey(r.shortName)) == Some(g)
  }

  function InTramGroup(g: nat): Route -> bool {
    (r: Route) => TramGroup(NumericKey(r.shortName)) == Some(g)
  }

  /** Line 31: the bus routes ordered by short name. */
  function SortedBusRoutes(busRoutes: seq<Route>): (r: seq<Route>)
    ensures SortedBy(r, ShortNameLe) && multiset(r) == multiset(busRoutes)
  {
    ShortNameLeIsTotalPreorder();
    SortBy(busRoutes, ShortNameLe)
  }

  /** Line 34: the tram routes ordered by line number. */
  function SortedTramRoutes(tramRoutes: seq<Route>): (r: seq<Route>)
    ensures SortedBy(r, LineNumberLe) && multiset(r) == multiset(tramRoutes)
  {
    SortBy(tramRoutes, LineNumberLe)
  }

  /** Lines 36-87 once every name is a number: each heading with the routes
      of its band, taken in sorted order. */
  function Grouped(bus: seq<Route>, tram: seq<Route>): (gs: seq<Group>)
    ensures |gs| == GroupCount
  {
    seq(GroupCount, g requires 0 <= g < GroupCount =>
      Group(GroupTitles[g], if g < TramGroupCount then FilterBy(tram, InTramGroup(g)) else FilterBy(bus, InBusGroup(g))))
  }

  /** `get_routes_list_with_labels` (lines 29-89). Converting the tram names
      to integers (line 34) comes first and raises on the first name in
      file order that is not a number; the bus loop then raises on the
      first such name in its sorted order. Otherwise every heading gets the
      routes whose number falls in its band, in sorted order. */
  function RoutesWithLabels(busRoutes: seq<Route>, tramRoutes: seq<Route>): (r: Result<seq<Group>>)
    ensures r.Ok? ==> |r.value| == GroupCount
  {
    match FindFirst(tramRoutes, Unnumbered)
    case Some(i) => Err(NotANumber(tramRoutes[i].shortName))
    case None =>
      var bus := SortedBusRoutes(busRoutes);
      match FindFirst(bus, Unnumbered)
      case Some(i) => Err(NotANumber(bus[i].shortName))
      case None => Ok(Grouped(bus, SortedTramRoutes(tramRoutes)))
  }

  /** The headings come in the order the dictionary literal lists them. */
  lemma Headings(busRoutes: seq<Route>, tramRoutes: seq<Route>)
    ensures RoutesWithLabels(busRoutes, tramRoutes).Ok? ==>
              forall g :: 0 <= g < GroupCount ==> RoutesWithLabels(busRoutes, tramRoutes).value[g].title == GroupTitles[g]
  {
  }

  /** The list is built exactly when every bus and tram short name is a
      number. */
  lemma RoutesWithLabelsOk(busRoutes: seq<Route>, tramRoutes: seq<Route>)
    ensures RoutesWithLabels(busRoutes, tramRoutes).Ok? <==>
              && (forall i :: 0 <= i < |tramRoutes| ==> IsNumeral(tramRoutes[i].shortName))
              && (forall i :: 0 <= i < |busRoutes| ==> IsNumeral(busRoutes[i].shortName))
  {
    var bus := SortedBusRoutes(busRoutes);
    NumberedPermutation(bus, busRoutes);
    NumberedPermutation(busRoutes, bus);
  }

  lemma NumberedPermutation(xs: seq<Route>, ys: seq<Route>)
    requires multiset(xs) == multiset(ys)
    ensures (forall i :: 0 <= i < |xs| ==> IsNumeral(xs[i].shortName)) ==>
            (forall i :: 0 <= i < |ys| ==> IsNumeral(ys[i].shortName))
  {
    if forall i :: 0 <= i < |xs| ==> IsNumeral(xs[i].shortName) {
      forall i | 0 <= i < |ys| ensures IsNumeral(ys[i].shortName) {
        assert ys[i] in multiset(xs);
      }
    }
  }

  /** The first tram short name in file order that is not a number is the
      one line 34 raises on, before any bus route is looked at. */
  lemma TramNameError(busRoutes: seq<Route>, tramRoutes: seq<Route>, k: nat)
    requires k < |tramRoutes| && !IsNumeral(tramRoutes[k].shortName)
    requires forall j :: 0 <= j < k ==> IsNumeral(tramRoutes[j].shortName)
    ensures RoutesWithLabels(busRoutes, tramRoutes) == Err(NotANumber(tramRoutes[k].shortName))
  {
    assert Unnumbered(tramRoutes[k]);
  }

  /** With every tram name a number, the least bus short name in string
      order that is not a number is the one the bus loop (line 53) raises
      on. */
  lemma BusNameError(busRoutes: seq<Route>, tramRoutes: seq<Route>, k: nat)
    requires forall j :: 0 <= j < |tramRoutes| ==> IsNumeral(tramRoutes[j].shortName)
    requires k < |busRoutes| && !IsNumeral(busRoutes[k].shortName)
    requires forall j :: 0 <= j < |busRoutes| && !IsNumeral(busRoutes[j].shortName) ==>
               LexLe(busRoutes[k].shortName, busRoutes[j].shortName)
    ensures RoutesWithLabels(busRoutes, tramRoutes) == Err(NotANumber(busRoutes[k].shortName))
  {
    var bus := SortedBusRoutes(busRoutes);
    assert FindFirst(tramRoutes, Unnumbered).None?;
    assert busRoutes[k] in multiset(busRoutes);
    var m :| 0 <= m < |bus| && bus[m] == busRoutes[k];
    assert Unnumbered(bus[m]);
    var first := FindFirst(bus, Unnumbered).value;
    LeastUnnumbered(bus, busRoutes, first);
    var n :| 0 <= n < |busRoutes| && busRoutes[n] == bus[first];
    LexLeAntisym(bus[first].shortName, busRoutes[k].shortName);
  }

  /** In the string-sorted bus routes the first route whose name is not a
      number has the least such name of all the bus routes. */
  lemma LeastUnnumbered(bus: seq<Route>, busRoutes: seq<Route>, first: nat)
    requires multiset(bus) == multiset(busRoutes) && SortedBy(bus, ShortNameLe)
    requires first < |bus| && Unnumbered(bus[first])
    requires forall j :: 0 <= j < first ==> !Unnumbered(bus[j])
    ensures exists k :: 0 <= k < |busRoutes| && busRoutes[k] == bus[first]
    ensures forall j :: 0 <= j < |busRoutes| && !IsNumeral(busRoutes[j].shortName) ==>
              LexLe(bus[first].shortName, busRoutes[j].shortName)
  {
    assert bus[first] in multiset(busRoutes);
    forall j | 0 <= j < |busRoutes| && !IsNumeral(busRoutes[j].shortName)
      ensures LexLe(bus[first].shortName, busRoutes[j].shortName)
    {
      assert busRoutes[j] in multiset(busRoutes);
      var n :| 0 <= n < |bus| && bus[n] == busRoutes[j];
      if n == first {
        LexLeTotal(bus[n].shortName, bus[n].shortName);
      } else {
        assert first < n;
        assert ShortNameLe(bus[first], bus[n]);
      }
    }
  }

  /** Lines 74-87 on any ordering of the tram routes: a tram heading lists
      a route as often as the feed has it when the route's number is in the
      heading's band, and never otherwise. */
  lemma TramBand(bus: seq<Route>, tram: seq<Route>, tramRoutes: seq<Route>, g: nat, x: Route)
    requires multiset(tram) == multiset(tramRoutes) && g < TramGroupCount
    ensures multiset(Grouped(bus, tram)[g].routes)[x] ==
              if TramGroup(NumericKey(x.shortName)) == Some(g) then multiset(tramRoutes)[x] else 0
  {
    assert Grouped(bus, tram)[g].routes == FilterBy(tram, InTramGroup(g));
    FilterByMultiplicity(tram, InTramGroup(g), x);
  }

  /** A tram heading keeps the line-number order of line 34. */
  lemma TramBandOrder(bus: seq<Route>, tram: seq<Route>, g: nat)
    requires SortedBy(tram, LineNumberLe) && g < TramGroupCount
    ensures forall i, j :: 0 <= i < j < |Grouped(bus, tram)[g].routes| ==>
              NumericKey(Grouped(bus, tram)[g].routes[i].shortName) <= NumericKey(Grouped(bus, tram)[g].routes[j].shortName)
  {
    assert Grouped(bus, tram)[g].routes == FilterBy(tram, InTramGroup(g));
    FilterBySorted(tram, InTramGroup(g), LineNumberLe);
  }

  /** Lines 53-72 on any ordering of the bus routes: a bus heading lists a
      route as often as the feed has it when the route's number is in the
      heading's band, and never otherwise. */
  lemma BusBand(bus: seq<Route>, tram: seq<Route>, busRoutes: seq<Route>, g: nat, x: Route)
    requires multiset(bus) == multiset(busRoutes) && TramGroupCount <= g < GroupCount
    ensures multiset(Grouped(bus, tram)[g].routes)[x] ==
              if BusGroup(NumericKey(x.shortName)) == Some(g) then multiset(busRoutes)[x] else 0
  {
    assert Grouped(bus, tram)[g].routes == FilterBy(bus, InBusGroup(g));
    FilterByMultiplicity(bus, InBusGroup(g), x);
  }

  /** A bus heading keeps the string order of line 31. */
  lemma BusBandOrder(bus: seq<Route>, tram: seq<Route>, g: nat)
    requires SortedBy(bus, ShortNameLe) && TramGroupCount <= g < GroupCount
    ensures forall i, j :: 0 <= i < j < |Grouped(bus, tram)[g].routes| ==>
              LexLe(Grouped(bus, tram)[g].routes[i].shortName, Grouped(bus, tram)[g].routes[j].shortName)
  {
    assert Grouped(bus, tram)[g].routes == FilterBy(bus, InBusGroup(g));
    FilterBySorted(bus, InBusGroup(g), ShortNameLe);
  }

  /** A tram heading lists the tram routes of its band, each as often as
      the feed has it, in ascending line-number order. */
  lemma TramGroupContents(busRoutes: seq<Route>, tramRoutes: seq<Route>, g: nat)
    requires RoutesWithLabels(busRoutes, tramRoutes).Ok? && g < TramGroupCount
    ensures multiset(RoutesWithLabels(busRoutes, tramRoutes).value[g].routes) == multiset(FilterBy(tramRoutes, InTramGroup(g)))
    ensures forall i, j :: 0 <= i < j < |RoutesWithLabels(busRoutes, tramRoutes).value[g].routes| ==>
              NumericKey(RoutesWithLabels(busRoutes, tramRoutes).value[g].routes[i].shortName)
              <= NumericKey(RoutesWithLabels(busRoutes, tramRoutes).value[g].routes[j].shortName)
  {
    var bus, tram := SortedBusRoutes(busRoutes), SortedTramRoutes(tramRoutes);
    var routes := Grouped(bus, tram)[g].routes;
    forall x ensures multiset(routes)[x] == multiset(FilterBy(tramRoutes, InTramGroup(g)))[x] {
      TramBand(bus, tram, tramRoutes, g, x);
      FilterByMultiplicity(tramRoutes, InTramGroup(g), x);
    }
    assert multiset(routes) == multiset(FilterBy(tramRoutes, InTramGroup(g)));
    TramBandOrder(bus, tram, g);
  }

  /** A bus heading lists the bus routes of its band, each as often as the
      feed has it, in ascending string order of short names. */
  lemma BusGroupContents(busRoutes: seq<Route>, tramRoutes: seq<Route>, g: nat)
    requires RoutesWithLabels(busRoutes, tramRoutes).Ok? && TramGroupCount <= g < GroupCount
    ensures multiset(RoutesWithLabels(busRoutes, tramRoutes).value[g].routes) == multiset(FilterBy(busRoutes, InBusGroup(g)))
    ensures forall i, j :: 0 <= i < j < |RoutesWithLabels(busRoutes, tramRoutes).value[g].routes| ==>
              LexLe(RoutesWithLabels(busRoutes, tramRoutes).value[g].routes[i].shortName,
                    RoutesWithLabels(busRoutes, tramRoutes).value[g].routes[j].shortName)
  {
    var bus, tram := SortedBusRoutes(busRoutes), SortedTramRoutes(tramRoutes);
    var routes := Grouped(bus, tram)[g].routes;
    forall x ensures multiset(routes)[x] == multiset(FilterBy(busRoutes, InBusGroup(g)))[x] {
      BusBand(bus, tram, busRoutes, g, x);
      FilterByMultiplicity(busRoutes, InBusGroup(g), x);
    }
    assert multiset(routes) == multiset(FilterBy(busRoutes, InBusGroup(g)));
    BusBandOrder(bus, tram, g);
  }

  /** A route is listed under a heading exactly when it is a route of that
      heading's vehicle class whose number falls in the heading's band; so a
      tram route from 90 up and a bus route from 1000 up are listed nowhere,
      and every other route under exactly one heading. */
  lemma RouteGroup(busRoutes: seq<Route>, tramRoutes: seq<Route>, x: Route, g: nat)
    requires RoutesWithLabels(busRoutes, tramRoutes).Ok? && g < GroupCount
    ensures x in RoutesWithLabels(busRoutes, tramRoutes).value[g].routes <==>
              || (g < TramGroupCount && x in tramRoutes && TramGroup(NumericKey(x.shortName)) == Some(g))
              || (TramGroupCount <= g && x in busRoutes && BusGroup(NumericKey(x.shortName)) == Some(g))
  {
    var routes := RoutesWithLabels(busRoutes, tramRoutes).value[g].routes;
    assert x in routes <==> x in multiset(routes);
    if g < TramGroupCount {
      TramBand(SortedBusRoutes(busRoutes), SortedTramRoutes(tramRoutes), tramRoutes, g, x);
      assert x in tramRoutes <==> x in multiset(tramRoutes);
    } else {
      BusBand(SortedBusRoutes(busRoutes), SortedTramRoutes(tramRoutes), busRoutes, g, x);
      assert x in busRoutes <==> x in multiset(busRoutes);
    }
  }
}
