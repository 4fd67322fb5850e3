/** The overlay's route search, and why fanning out through the index finds what scanning everything would. */
module RouteSearch {
  import opened Options
  import opened UexLookup

  datatype Row = Row(
    id: int, origin: Terminal, destination: Terminal,
    statusOrigin: int, statusDestination: int, scuOrigin: real, scuDestination: real,
    onGroundOrigin: bool, onGroundDestination: bool
  )

  /** A pinned terminal beats a region's scope; a region is a set of terminals. */
  datatype Query = Query(
    commodity: Option<Commodity>, sourceTerminal: Option<Terminal>, destinationTerminal: Option<Terminal>,
    minSource: Option<int>, maxDestination: Option<int>, spaceOnly: bool, requireAutoload: bool, nqaOnly: bool,
    sourceScope: Option<set<Terminal>>, destinationScope: Option<set<Terminal>>
  )

  /** What other parts of the client know: which stock states cannot be traded, and each terminal's kiosk. */
  datatype World = World(
    rows: map<Commodity, seq<Row>>,
    soldOut: (int, real) -> bool, full: (int, real) -> bool,
    autoLoad: Terminal -> bool, nqa: Terminal -> bool
  ) {
    function RowsOf(c: Commodity): seq<Row> {
      if c in rows then rows[c] else []
    }
  }

  function SourceIds(q: Query): Option<set<Terminal>> {
    if q.sourceTerminal.Some? then Some({q.sourceTerminal.value}) else q.sourceScope
  }

  function DestinationIds(q: Query): Option<set<Terminal>> {
    if q.destinationTerminal.Some? then Some({q.destinationTerminal.value}) else q.destinationScope
  }

  // ----- The filters -----

  function FilterByOrigin(rows: seq<Row>, ids: Option<set<Terminal>>): seq<Row> {
    if rows == [] then []
    else (if ids.Some? ==> rows[0].origin in ids.value then [rows[0]] else []) + FilterByOrigin(rows[1..], ids)
  }

  function FilterByDestination(rows: seq<Row>, ids: Option<set<Terminal>>): seq<Row> {
    if rows == [] then []
    else (if ids.Some? ==> rows[0].destination in ids.value then [rows[0]] else []) + FilterByDestination(rows[1..], ids)
  }

  predicate Tradeable(w: World, r: Row) {
    !w.soldOut(r.statusOrigin, r.scuOrigin) && !w.full(r.statusDestination, r.scuDestination)
  }

  /** Space, autoload and NQA only constrain an end that is not pinned. */
  predicate Shown(w: World, q: Query, r: Row) {
    && Tradeable(w, r)
    && (q.minSource.Some? ==> r.statusOrigin >= q.minSource.value)
    && (q.maxDestination.Some? ==> r.statusDestination <= q.maxDestination.value)
    && (q.spaceOnly && q.sourceTerminal.None? ==> !r.onGroundOrigin)
    && (q.spaceOnly && q.destinationTerminal.None? ==> !r.onGroundDestination)
    && (q.requireAutoload && q.sourceTerminal.None? ==> w.autoLoad(r.origin))
    && (q.requireAutoload && q.destinationTerminal.None? ==> w.autoLoad(r.destination))
    && (q.nqaOnly && q.destinationTerminal.None? ==> w.nqa(r.destination))
  }

  function FilterShown(w: World, q: Query, rows: seq<Row>): seq<Row> {
    if rows == [] then []
    else (if Shown(w, q, rows[0]) then [rows[0]] else []) + FilterShown(w, q, rows[1..])
  }

  /** The rows of several commodities, one after the other. */
  function FanOut(w: World, commodities: seq<Commodity>): seq<Row> {
    if commodities == [] then [] else w.RowsOf(commodities[0]) + FanOut(w, commodities[1..])
  }

  /** order is the list in which the index's commodities happened to be fetched. */
  function Search(w: World, q: Query, order: seq<Commodity>): seq<Row> {
    var raw :=
      if q.commodity.Some? then
        FilterByDestination(FilterByOrigin(w.RowsOf(q.commodity.value), SourceIds(q)), DestinationIds(q))
      else if SourceIds(q).Some? then
        FilterByDestination(FilterByOrigin(FanOut(w, order), SourceIds(q)), DestinationIds(q))
      else if DestinationIds(q).Some? then
        FilterByDestination(FanOut(w, order), DestinationIds(q))
      else
        [];
    FilterShown(w, q, raw)
  }

  // ----- The reference: look at every row -----

  predicate Wanted(w: World, q: Query, r: Row) {
    && (SourceIds(q).Some? ==> r.origin in SourceIds(q).value)
    && (DestinationIds(q).Some? ==> r.destination in DestinationIds(q).value)
    && Shown(w, q, r)
  }

  function Select(w: World, q: Query, rows: seq<Row>): seq<Row> {
    if rows == [] then []
    else (if Wanted(w, q, rows[0]) then [rows[0]] else []) + Select(w, q, rows[1..])
  }

  /** Each commodity of the set once, in some order. */
  ghost predicate Enumerates(order: seq<Commodity>, commodities: set<Commodity>) {
    && (forall c :: c in order <==> c in commodities)
    && forall i, j :: 0 <= i < j < |order| ==> order[i] != order[j]
  }

  /** Every tradeable row's commodity is in the map for both of its terminals. */
  ghost predicate Covers(w: World, offers: map<Terminal, set<Commodity>>, accepts: map<Terminal, set<Commodity>>) {
    forall c, k :: c in w.rows && 0 <= k < |w.rows[c]| && Tradeable(w, w.rows[c][k]) ==>
      c in At(offers, w.rows[c][k].origin) && c in At(accepts, w.rows[c][k].destination)
  }

  /** The commodities the search looks up: those offered at the source side, else those accepted at the destination side. */
  ghost predicate LookedUp(q: Query, offers: map<Terminal, set<Commodity>>, accepts: map<Terminal, set<Commodity>>, c: Commodity) {
    if SourceIds(q).Some? then Lists(offers, SourceIds(q).value, c)
    else DestinationIds(q).Some? && Lists(accepts, DestinationIds(q).value, c)
  }

  // ----- One pass of filters is the reference selection -----

  lemma {:induction false} FiltersSelect(w: World, q: Query, rows: seq<Row>)
    ensures FilterShown(w, q, FilterByDestination(FilterByOrigin(rows, SourceIds(q)), DestinationIds(q))) == Select(w, q, rows)
  {
    if rows != [] {
      FiltersSelect(w, q, rows[1..]);
      var r, s, d := rows[0], SourceIds(q), DestinationIds(q);
      var rest := FilterByOrigin(rows[1..], s);
      if s.Some? ==> r.origin in s.value {
        assert FilterByOrigin(rows, s) == [r] + rest && ([r] + rest)[1..] == rest;
        var rest' := FilterByDestination(rest, d);
        if d.Some? ==> r.destination in d.value {
          assert FilterByDestination([r] + rest, d) == [r] + rest' && ([r] + rest')[1..] == rest';
        } else {
          assert FilterByDestination([r] + rest, d) == rest';
        }
      } else {
        assert FilterByOrigin(rows, s) == rest;
      }
    }
  }

  lemma {:induction false} NoOriginFilter(rows: seq<Row>)
    ensures FilterByOrigin(rows, None) == rows
  {
    if rows != [] {
      NoOriginFilter(rows[1..]);
    }
  }

  lemma SearchSelects(w: World, q: Query, order: seq<Commodity>)
    requires SourceIds(q).Some? || DestinationIds(q).Some? || q.commodity.Some?
    ensures Search(w, q, order) == Select(w, q, if q.commodity.Some? then w.RowsOf(q.commodity.value) else FanOut(w, order))
  {
    var rows := if q.commodity.Some? then w.RowsOf(q.commodity.value) else FanOut(w, order);
    FiltersSelect(w, q, rows);
    if SourceIds(q).None? {
      NoOriginFilter(rows);
    }
  }

  // ----- What a row must be like at either end -----

  /** A pinned source must be that terminal and sell the cargo; an open one must also be in scope and have the wanted facilities. */
  predicate SourceServes(w: World, q: Query, r: Row) {
    && !w.soldOut(r.statusOrigin, r.scuOrigin) && (q.minSource.None? || q.minSource.value <= r.statusOrigin)
    && match q.sourceTerminal
       case Some(pinned) => r.origin == pinned
       case None =>
         && (q.sourceScope.None? || r.origin in q.sourceScope.value)
         && !(q.spaceOnly && r.onGroundOrigin) && !(q.requireAutoload && !w.autoLoad(r.origin))
  }

  /** The same of the destination, where an open one must also ask no questions if that is wanted. */
  predicate DestinationServes(w: World, q: Query, r: Row) {
    && !w.full(r.statusDestination, r.scuDestination) && (q.maxDestination.None? || r.statusDestination <= q.maxDestination.value)
    && match q.destinationTerminal
       case Some(pinned) => r.destination == pinned
       case None =>
         && (q.destinationScope.None? || r.destination in q.destinationScope.value)
         && !(q.spaceOnly && r.onGroundDestination) && !(q.requireAutoload && !w.autoLoad(r.destination))
         && !(q.nqaOnly && !w.nqa(r.destination))
  }

  lemma WantedServesBothEnds(w: World, q: Query, r: Row)
    ensures Wanted(w, q, r) <==> SourceServes(w, q, r) && DestinationServes(w, q, r)
  {
  }

  /** A row is selected as often as it comes if and only if it serves at both ends, and otherwise never. */
  lemma {:induction false} SelectedServeBothEnds(w: World, q: Query, rows: seq<Row>, r: Row)
    ensures multiset(Select(w, q, rows))[r]
         == if SourceServes(w, q, r) && DestinationServes(w, q, r) then multiset(rows)[r] else 0
  {
    WantedServesBothEnds(w, q, r);
    if rows != [] {
      assert rows == [rows[0]] + rows[1..];
      SelectedServeBothEnds(w, q, rows[1..], r);
    }
  }

  // ----- Leaving out commodities without a wanted row changes nothing -----

  lemma {:induction false} SelectConcat(w: World, q: Query, a: seq<Row>, b: seq<Row>)
    ensures Select(w, q, a + b) == Select(w, q, a) + Select(w, q, b)
  {
    if a == [] {
      assert a + b == b;
    } else {
      assert (a + b)[1..] == a[1..] + b;
      SelectConcat(w, q, a[1..], b);
    }
  }

  function SelectedOf(w: World, q: Query, c: Commodity): seq<Row> {
    Select(w, q, w.RowsOf(c))
  }

  lemma {:induction false} FanOutConcat(w: World, a: seq<Commodity>, b: seq<Commodity>)
    ensures FanOut(w, a + b) == FanOut(w, a) + FanOut(w, b)
  {
    if a == [] {
      assert a + b == b;
    } else {
      assert (a + b)[1..] == a[1..] + b;
      FanOutConcat(w, a[1..], b);
    }
  }

  lemma FirstSelected(w: World, q: Query, order: seq<Commodity>)
    requires order != []
    ensures Select(w, q, FanOut(w, order)) == SelectedOf(w, q, order[0]) + Select(w, q, FanOut(w, order[1..]))
  {
    SelectConcat(w, q, w.RowsOf(order[0]), FanOut(w, order[1..]));
  }

  function Dropped(order: seq<Commodity>, j: nat): seq<Commodity>
    requires j < |order|
  {
    order[..j] + order[j + 1..]
  }

  /** Moving one commodity's rows to the front keeps the multiset of selected rows. */
  lemma PulledOut(w: World, q: Query, order: seq<Commodity>, j: nat)
    requires j < |order|
    ensures multiset(Select(w, q, FanOut(w, order)))
         == multiset(SelectedOf(w, q, order[j])) + multiset(Select(w, q, FanOut(w, Dropped(order, j))))
  {
    var a, b := order[..j], order[j + 1..];
    assert order == a + ([order[j]] + b);
    FanOutConcat(w, a, [order[j]] + b);
    FanOutConcat(w, [order[j]], b);
    FanOutConcat(w, a, b);
    SelectConcat(w, q, FanOut(w, a), FanOut(w, [order[j]] + b));
    SelectConcat(w, q, FanOut(w, [order[j]]), FanOut(w, b));
    SelectConcat(w, q, FanOut(w, a), FanOut(w, b));
    assert [order[j]][1..] == [];
    assert FanOut(w, [order[j]]) == w.RowsOf(order[j]);
  }

  ghost predicate NoRepeats(order: seq<Commodity>) {
    forall i, j :: 0 <= i < j < |order| ==> order[i] != order[j]
  }

  lemma {:induction false} NothingSelected(w: World, q: Query, order: seq<Commodity>)
    requires forall c :: c in order ==> SelectedOf(w, q, c) == []
    ensures Select(w, q, FanOut(w, order)) == []
  {
    if order != [] {
      FirstSelected(w, q, order);
      NothingSelected(w, q, order[1..]);
    }
  }

  /** Two fan-outs that agree on every commodity with a wanted row select the same rows. */
  lemma {:induction false} SameSelected(w: World, q: Query, a: seq<Commodity>, b: seq<Commodity>)
    requires NoRepeats(a) && NoRepeats(b)
    requires forall c :: SelectedOf(w, q, c) != [] ==> (c in a <==> c in b)
    ensures multiset(Select(w, q, FanOut(w, a))) == multiset(Select(w, q, FanOut(w, b)))
    decreases |a|
  {
    if a == [] {
      NothingSelected(w, q, b);
    } else {
      var c, a' := a[0], a[1..];
      FirstSelected(w, q, a);
      assert forall x :: x in a <==> x == c || x in a';
      assert c !in a';
      if SelectedOf(w, q, c) == [] {
        SameSelected(w, q, a', b);
      } else {
        var j :| 0 <= j < |b| && b[j] == c;
        PulledOut(w, q, b, j);
        DroppedElements(b, j);
        SameSelected(w, q, a', Dropped(b, j));
      }
    }
  }

  /** A fan-out that covers another's commodities with wanted rows selects no fewer rows. */
  lemma {:induction false} NoFewerSelected(w: World, q: Query, a: seq<Commodity>, b: seq<Commodity>)
    requires NoRepeats(a) && NoRepeats(b)
    requires forall c :: c in a && SelectedOf(w, q, c) != [] ==> c in b
    ensures |Select(w, q, FanOut(w, a))| <= |Select(w, q, FanOut(w, b))|
    decreases |a|
  {
    if a == [] {
      NothingSelected(w, q, a);
    } else {
      var c, a' := a[0], a[1..];
      FirstSelected(w, q, a);
      assert forall x :: x in a <==> x == c || x in a';
      assert c !in a';
      if SelectedOf(w, q, c) == [] {
        NoFewerSelected(w, q, a', b);
      } else {
        var j :| 0 <= j < |b| && b[j] == c;
        PulledOut(w, q, b, j);
        DroppedElements(b, j);
        NoFewerSelected(w, q, a', Dropped(b, j));
        SizeOfSum(Select(w, q, FanOut(w, b)), SelectedOf(w, q, c), Select(w, q, FanOut(w, Dropped(b, j))));
      }
    }
  }

  lemma SizeOfSum(whole: seq<Row>, a: seq<Row>, b: seq<Row>)
    requires multiset(whole) == multiset(a) + multiset(b)
    ensures |whole| == |a| + |b|
  {
    assert |multiset(whole)| == |whole| && |multiset(a)| == |a| && |multiset(b)| == |b|;
  }

  lemma DroppedElements(order: seq<Commodity>, j: nat)
    requires j < |order| && NoRepeats(order)
    ensures NoRepeats(Dropped(order, j))
    ensures forall c :: c in Dropped(order, j) <==> c in order && c != order[j]
  {
    var d := Dropped(order, j);
    forall k | 0 <= k < |d| ensures d[k] in order && d[k] != order[j] {
      assert d[k] == order[if k < j then k else k + 1];
    }
    forall c | c in order && c != order[j] ensures c in d {
      var k :| 0 <= k < |order| && order[k] == c;
      assert d[if k < j then k else k - 1] == c;
    }
  }

  lemma {:induction false} SelectedIsWanted(w: World, q: Query, rows: seq<Row>)
    ensures Select(w, q, rows) != [] ==> exists k :: 0 <= k < |rows| && Wanted(w, q, rows[k])
  {
    if rows != [] && !Wanted(w, q, rows[0]) {
      SelectedIsWanted(w, q, rows[1..]);
      if k :| 0 <= k < |rows[1..]| && Wanted(w, q, rows[1..][k]) {
        assert Wanted(w, q, rows[k + 1]);
      }
    }
  }

  /** A commodity with a wanted row is one the search looks up. */
  lemma WantedIsLookedUp(w: World, q: Query, offers: map<Terminal, set<Commodity>>, accepts: map<Terminal, set<Commodity>>, c: Commodity)
    requires Covers(w, offers, accepts) && (SourceIds(q).Some? || DestinationIds(q).Some?)
    requires SelectedOf(w, q, c) != []
    ensures c in w.rows && LookedUp(q, offers, accepts, c)
  {
    SelectedIsWanted(w, q, w.RowsOf(c));
    var k :| 0 <= k < |w.RowsOf(c)| && Wanted(w, q, w.RowsOf(c)[k]);
    assert Tradeable(w, w.rows[c][k]);
  }

  /** Every commodity with a wanted row is looked up. */
  ghost predicate WantedLookedUp(
    w: World, q: Query, offers: map<Terminal, set<Commodity>>, accepts: map<Terminal, set<Commodity>>
  ) {
    forall c :: SelectedOf(w, q, c) != [] ==> LookedUp(q, offers, accepts, c)
  }

  /** A commodity with wanted rows that is not looked up is missed: the fan-out finds fewer routes. */
  lemma MissedCommodity(w: World, q: Query, order: seq<Commodity>, all: seq<Commodity>, c: Commodity)
    requires NoRepeats(order) && c !in order && SelectedOf(w, q, c) != [] && Enumerates(all, w.rows.Keys)
    ensures |Select(w, q, FanOut(w, order))| < |Select(w, q, FanOut(w, all))|
  {
    var more := [c] + order;
    assert more[0] == c && more[1..] == order;
    FirstSelected(w, q, more);
    assert NoRepeats(more);
    forall d | d in more && SelectedOf(w, q, d) != [] ensures d in all {
      assert d in w.rows;
    }
    NoFewerSelected(w, q, more, all);
  }

  /**
   * For a query with no commodity given: the fan-out finds every wanted route if and only if every
   * commodity with a wanted row is looked up. A map that covers the tradeable rows always does that.
   */
  lemma FanOutFindsEverythingIff(
    w: World, q: Query, offers: map<Terminal, set<Commodity>>, accepts: map<Terminal, set<Commodity>>,
    order: seq<Commodity>, all: seq<Commodity>
  )
    requires q.commodity.None? && (SourceIds(q).Some? || DestinationIds(q).Some?)
    requires NoRepeats(order) && forall c :: c in order <==> LookedUp(q, offers, accepts, c)
    requires Enumerates(all, w.rows.Keys)
    ensures multiset(Search(w, q, order)) == multiset(Select(w, q, FanOut(w, all))) <==> WantedLookedUp(w, q, offers, accepts)
    ensures Covers(w, offers, accepts) ==> WantedLookedUp(w, q, offers, accepts)
  {
    SearchSelects(w, q, order);
    if WantedLookedUp(w, q, offers, accepts) {
      forall c | SelectedOf(w, q, c) != [] ensures c in order <==> c in all {
        assert c in w.rows;
      }
      SameSelected(w, q, order, all);
    } else {
      var c :| SelectedOf(w, q, c) != [] && !LookedUp(q, offers, accepts, c);
      MissedCommodity(w, q, order, all, c);
      SameSizes(Search(w, q, order), Select(w, q, FanOut(w, all)));
    }
    if Covers(w, offers, accepts) {
      forall c | SelectedOf(w, q, c) != [] ensures LookedUp(q, offers, accepts, c) {
        WantedIsLookedUp(w, q, offers, accepts, c);
      }
    }
  }

  lemma SameSizes(a: seq<Row>, b: seq<Row>)
    ensures multiset(a) == multiset(b) ==> |a| == |b|
  {
    assert |multiset(a)| == |a| && |multiset(b)| == |b|;
  }

  /**
   * With no commodity given, fanning out over the looked-up commodities, in whatever order, finds the
   * same multiset of routes as going through every commodity's rows.
   */
  lemma FanOutFindsEverything(
    w: World, q: Query, offers: map<Terminal, set<Commodity>>, accepts: map<Terminal, set<Commodity>>,
    order: seq<Commodity>, all: seq<Commodity>
  )
    requires Covers(w, offers, accepts) && q.commodity.None? && (SourceIds(q).Some? || DestinationIds(q).Some?)
    requires NoRepeats(order) && forall c :: c in order <==> LookedUp(q, offers, accepts, c)
    requires Enumerates(all, w.rows.Keys)
    ensures multiset(Search(w, q, order)) == multiset(Select(w, q, FanOut(w, all)))
  {
    FanOutFindsEverythingIff(w, q, offers, accepts, order, all);
  }

  // ----- The search through the index -----

  /** Where a search looks up commodities: the index, or what a request per terminal fetches while there is none. */
  ghost function Offers(index: Index, fetched: map<Terminal, set<Commodity>>): map<Terminal, set<Commodity>>
    reads index
  {
    if index.loaded then index.offers else fetched
  }

  ghost function Accepts(index: Index, fetched: map<Terminal, set<Commodity>>): map<Terminal, set<Commodity>>
    reads index
  {
    if index.loaded then index.accepts else fetched
  }

  method CommodityIdsAtAny(index: Index, terminals: set<Terminal>, buys: bool, fetched: map<Terminal, set<Commodity>>)
    returns (commodities: set<Commodity>)
    requires index.Valid()
    ensures forall c :: c in commodities <==>
              Lists(if buys then Offers(index, fetched) else Accepts(index, fetched), terminals, c)
  {
    var fromMap;
    if buys {
      fromMap := index.CommoditiesOfferedAt(terminals);
    } else {
      fromMap := index.CommoditiesAcceptedAt(terminals);
    }
    if fromMap.Some? {
      return fromMap.value;
    }
    commodities := Union(fetched, terminals);
  }

  lemma NotEmpty(commodities: set<Commodity>)
    requires commodities != {}
    ensures exists c :: c in commodities
  {
    assert (forall c :: c !in commodities) ==> commodities == {};
  }

  /** A set's elements, in whatever order. */
  method InSomeOrder(commodities: set<Commodity>) returns (order: seq<Commodity>)
    ensures Enumerates(order, commodities)
  {
    order := [];
    var left := commodities;
    while left != {}
      invariant left <= commodities
      invariant Enumerates(order, commodities - left)
      decreases |left|
    {
      NotEmpty(left);
      var c :| c in left;
      assert c !in order;
      left := left - {c};
      assert forall d :: d in order + [c] <==> d in order || d == c;
      order := order + [c];
    }
    assert commodities - left == commodities;
  }

  /**
   * The routes of a search. With a commodity given they are its wanted rows; with only a side given
   * they are, as a multiset, the wanted rows of all commodities, exactly when the lookup finds every
   * commodity that has one.
   */
  method SearchRoutes(
    index: Index, w: World, q: Query, fetchedOffers: map<Terminal, set<Commodity>>, fetchedAccepts: map<Terminal, set<Commodity>>
  ) returns (routes: seq<Row>)
    requires index.Valid()
    ensures q.commodity.Some? ==> routes == Select(w, q, w.RowsOf(q.commodity.value))
    ensures q.commodity.None? && SourceIds(q).None? && DestinationIds(q).None? ==> routes == []
    ensures q.commodity.None? && (SourceIds(q).Some? || DestinationIds(q).Some?) ==>
              forall all :: Enumerates(all, w.rows.Keys) ==>
                (multiset(routes) == multiset(Select(w, q, FanOut(w, all)))
                 <==> WantedLookedUp(w, q, Offers(index, fetchedOffers), Accepts(index, fetchedAccepts)))
  {
    var order := [];
    if q.commodity.None? {
      var commodities := {};
      if SourceIds(q).Some? {
        commodities := CommodityIdsAtAny(index, SourceIds(q).value, true, fetchedOffers);
      } else if DestinationIds(q).Some? {
        commodities := CommodityIdsAtAny(index, DestinationIds(q).value, false, fetchedAccepts);
      }
      order := InSomeOrder(commodities);
    } else {
      SearchSelects(w, q, order);
    }
    routes := Search(w, q, order);
    ghost var offers, accepts := Offers(index, fetchedOffers), Accepts(index, fetchedAccepts);
    if q.commodity.None? && (SourceIds(q).Some? || DestinationIds(q).Some?) {
      forall all | Enumerates(all, w.rows.Keys)
        ensures multiset(routes) == multiset(Select(w, q, FanOut(w, all))) <==> WantedLookedUp(w, q, offers, accepts)
      {
        FanOutFindsEverythingIff(w, q, offers, accepts, order, all);
      }
    }
  }
}
