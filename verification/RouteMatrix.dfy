/**
 The route matrix: the routes of the source manifest joined with the statuses recorded so
 far.  Refreshing it never loses or invents a status and settles at once.
 */
module RouteMatrix {
  import opened Sorting
  import opened Utf16
  import opened Wrappers

  const NUL: CodeUnit := 0
  const PENDING: Text := [0x70, 0x65, 0x6E, 0x64, 0x69, 0x6E, 0x67]

  /** A route of the manifest; `details` stands for the fields no rule here looks at. */
  datatype Route = Route(kind: Text, path: Text, fixtureId: Option<Text>, details: Text)

  /** A row of the matrix: a route, its status, and whatever else was recorded beside it. */
  datatype Row = Row(route: Route, status: Text, extra: map<Text, Text>)

  function RouteKey(route: Route): Text {
    route.kind + [NUL] + route.path
  }

  function Key(row: Row): Text {
    RouteKey(row.route)
  }

  predicate NotNul(c: CodeUnit) {
    c != NUL
  }

  lemma FirstNul(a: Text, b: Text, p: Text, q: Text)
    requires NUL !in a && NUL !in b && a + [NUL] + p == b + [NUL] + q
    ensures a == b && p == q
  {
    var t := a + [NUL] + p;
    SpanExact(NotNul, a, [NUL] + p);
    SpanExact(NotNul, b, [NUL] + q);
    assert t == a + ([NUL] + p) && t == b + ([NUL] + q);
    assert t[..|a|] == a && t[|a| + 1..] == p && t[..|b|] == b && t[|b| + 1..] == q;
  }

  /** Routes whose kind holds no NUL, as every kind of the manifest does, share a key only when kind and path agree. */
  lemma RouteKeyInjective(a: Route, b: Route)
    requires NUL !in a.kind && NUL !in b.kind
    ensures RouteKey(a) == RouteKey(b) <==> a.kind == b.kind && a.path == b.path
  {
    if RouteKey(a) == RouteKey(b) {
      FirstNul(a.kind, b.kind, a.path, b.path);
    }
  }

  /** A route whose key another route shares. */
  ghost predicate KeyShared(a: Route) {
    exists b: Route :: RouteKey(b) == RouteKey(a) && (b.kind != a.kind || b.path != a.path)
  }

  /** The other route with the key: the kind and the path split at another NUL. */
  lemma OtherSplit(a: Route, key: Text, n: nat)
    requires key == RouteKey(a) && n < |key| && key[n] == NUL && n != |a.kind|
    ensures KeyShared(a)
  {
    var b := Route(key[..n], key[n + 1..], None, []);
    assert RouteKey(b) == key;
    assert |b.kind| != |a.kind|;
  }

  /** The key determines the route's kind and path exactly when neither holds a NUL. */
  lemma KeySharedIff(a: Route)
    ensures KeyShared(a) <==> NUL in a.kind || NUL in a.path
  {
    var key := RouteKey(a);
    if NUL in a.kind {
      var n :| 0 <= n < |a.kind| && a.kind[n] == NUL;
      assert key[n] == NUL;
      OtherSplit(a, key, n);
    } else if NUL in a.path {
      var n :| 0 <= n < |a.path| && a.path[n] == NUL;
      assert key[|a.kind| + 1 + n] == NUL;
      OtherSplit(a, key, |a.kind| + 1 + n);
    } else if b: Route :| RouteKey(b) == key && (b.kind != a.kind || b.path != a.path) {
      NoNulInKind(a, b);
      RouteKeyInjective(a, b);
    }
  }

  /** A key with a single NUL was joined from a kind without one. */
  lemma NoNulInKind(a: Route, b: Route)
    requires NUL !in a.kind && NUL !in a.path && RouteKey(b) == RouteKey(a)
    ensures NUL !in b.kind
  {
    if n :| 0 <= n < |b.kind| && b.kind[n] == NUL {
      assert RouteKey(b)[n] == NUL && RouteKey(b)[|b.kind|] == NUL;
      OnlyNul(a, n);
      OnlyNul(a, |b.kind|);
    }
  }

  lemma OnlyNul(a: Route, n: nat)
    requires NUL !in a.kind && NUL !in a.path && n < |RouteKey(a)| && RouteKey(a)[n] == NUL
    ensures n == |a.kind|
  {
  }

  /** Two routes of different kinds that share a key. */
  lemma RouteKeyCollides()
    ensures var a, b := Route([0x61, NUL, 0x62], [0x63], None, []), Route([0x61], [0x62, NUL, 0x63], None, []);
      RouteKey(a) == RouteKey(b) && a.kind != b.kind
  {
    var a, b := Route([0x61, NUL, 0x62], [0x63], None, []), Route([0x61], [0x62, NUL, 0x63], None, []);
    assert RouteKey(a) == [0x61, NUL, 0x62, NUL, 0x63] == RouteKey(b);
    assert |a.kind| != |b.kind|;
  }

  // The manifest

  /** No two routes share a key. */
  ghost predicate Distinct(routes: seq<Route>) {
    forall i, j :: 0 <= i < j < |routes| ==> RouteKey(routes[i]) != RouteKey(routes[j])
  }

  predicate HasKey(routes: seq<Route>, key: Text) {
    exists r :: r in routes && RouteKey(r) == key
  }

  /** The routes offered, each key with its first offer. */
  function FirstOffers(offers: seq<Route>): seq<Route> {
    if offers == [] then [] else
    var before, last := FirstOffers(offers[..|offers| - 1]), offers[|offers| - 1];
    if HasKey(before, RouteKey(last)) then before else before + [last]
  }

  /** The insertion-ordered map of routes that `addRoute` fills. */
  class RouteTable {
    var routes: map<Text, Route>
    var order: seq<Route>

    ghost predicate Valid()
      reads this
    {
      && Distinct(order)
      && (forall r :: r in order ==> RouteKey(r) in routes && routes[RouteKey(r)] == r)
      && (forall k :: k in routes ==> exists r :: r in order && RouteKey(r) == k)
    }

    constructor ()
      ensures Valid() && order == []
    {
      routes, order := map[], [];
    }

    /** `addRoute`: a key already there keeps its route. */
    method AddRoute(route: Route)
      requires Valid()
      modifies this
      ensures Valid()
      ensures order == if HasKey(old(order), RouteKey(route)) then old(order) else old(order) + [route]
    {
      if RouteKey(route) !in routes {
        routes := routes[RouteKey(route) := route];
        order := order + [route];
      }
    }
  }

  /** Whether the offer at this position is the first of its key. */
  ghost predicate FirstOfKey(offers: seq<Route>, i: nat)
    requires i < |offers|
  {
    forall j :: 0 <= j < i ==> RouteKey(offers[j]) != RouteKey(offers[i])
  }

  /** The positions of the first offers of the keys, in ascending order. */
  ghost predicate FirstPositions(offers: seq<Route>, at: seq<nat>) {
    && (forall a, b :: 0 <= a < b < |at| ==> at[a] < at[b])
    && (forall a :: 0 <= a < |at| ==> at[a] < |offers| && FirstOfKey(offers, at[a]))
    && (forall i :: 0 <= i < |offers| && FirstOfKey(offers, i) ==> i in at)
  }

  /** The offers kept are those at the first positions, in that order. */
  ghost predicate Keeps(offers: seq<Route>, at: seq<nat>) {
    && FirstPositions(offers, at)
    && FirstOffers(offers) == Picked(offers, at)
  }

  function Picked(offers: seq<Route>, at: seq<nat>): (r: seq<Route>)
    requires forall a :: 0 <= a < |at| ==> at[a] < |offers|
    ensures |r| == |at| && forall a :: 0 <= a < |at| ==> r[a] == offers[at[a]]
  {
    seq(|at|, a requires 0 <= a < |at| => offers[at[a]])
  }

  lemma PickedNext(offers: seq<Route>, at: seq<nat>)
    requires offers != [] && forall a :: 0 <= a < |at| ==> at[a] < |offers| - 1
    ensures var n := |offers| - 1;
      Picked(offers, at) == Picked(offers[..n], at) && Picked(offers, at + [n]) == Picked(offers, at) + [offers[n]]
  {
  }

  ghost predicate Offered(offers: seq<Route>, key: Text) {
    exists i :: 0 <= i < |offers| && RouteKey(offers[i]) == key
  }

  /** The keys offered are the keys kept. */
  lemma {:induction false} KeysKept(offers: seq<Route>, key: Text)
    ensures Offered(offers, key) <==> HasKey(FirstOffers(offers), key)
  {
    if offers != [] {
      var init, last := offers[..|offers| - 1], offers[|offers| - 1];
      KeysKept(init, key);
      KeysKept(init, RouteKey(last));
      assert offers == init + [last];
      LastOffered(init, last, key);
    }
  }

  lemma LastOffered(init: seq<Route>, last: Route, key: Text)
    ensures Offered(init + [last], key) <==> Offered(init, key) || RouteKey(last) == key
    ensures HasKey(FirstOffers(init) + [last], key) <==> HasKey(FirstOffers(init), key) || RouteKey(last) == key
  {
    assert (init + [last])[|init|] == last;
    assert forall i :: 0 <= i < |init| ==> (init + [last])[i] == init[i];
    assert last in FirstOffers(init) + [last];
    assert forall r :: r in FirstOffers(init) ==> r in FirstOffers(init) + [last];
  }

  lemma LastIsFirstIff(offers: seq<Route>)
    requires offers != []
    ensures var n := |offers| - 1; FirstOfKey(offers, n) <==> !HasKey(FirstOffers(offers[..n]), RouteKey(offers[n]))
  {
    var n := |offers| - 1;
    KeysKept(offers[..n], RouteKey(offers[n]));
    assert forall j :: 0 <= j < n ==> offers[..n][j] == offers[j];
  }

  lemma PositionsNext(offers: seq<Route>, at: seq<nat>)
    requires offers != [] && FirstPositions(offers[..|offers| - 1], at)
    ensures var n := |offers| - 1; FirstPositions(offers, if FirstOfKey(offers, n) then at + [n] else at)
  {
    var n := |offers| - 1;
    forall i | 0 <= i < n ensures FirstOfKey(offers, i) <==> FirstOfKey(offers[..n], i) {
      assert forall j :: 0 <= j <= i ==> offers[..n][j] == offers[j];
    }
    if FirstOfKey(offers, n) {
      assert (at + [n])[|at|] == n;
      forall i | 0 <= i < |offers| && FirstOfKey(offers, i) ensures i in at + [n] { }
    }
  }

  /** What remains of the offers is the first one of every key, in the order of those first offers, and nothing else. */
  lemma {:induction false} OffersKept(offers: seq<Route>) returns (at: seq<nat>)
    ensures Keeps(offers, at)
  {
    if offers == [] {
      return [];
    }
    var n := |offers| - 1;
    at := OffersKept(offers[..n]);
    KeepsNext(offers, at);
    if FirstOfKey(offers, n) {
      at := at + [n];
    }
  }

  lemma KeepsNext(offers: seq<Route>, at: seq<nat>)
    requires offers != [] && Keeps(offers[..|offers| - 1], at)
    ensures var n := |offers| - 1; Keeps(offers, if FirstOfKey(offers, n) then at + [n] else at)
  {
    var n := |offers| - 1;
    PositionsNext(offers, at);
    LastIsFirstIff(offers);
    FirstOffersNext(offers);
    PickedNext(offers, at);
  }

  lemma FirstOffersNext(offers: seq<Route>)
    requires offers != []
    ensures var n := |offers| - 1;
      FirstOffers(offers) ==
        if HasKey(FirstOffers(offers[..n]), RouteKey(offers[n])) then FirstOffers(offers[..n])
        else FirstOffers(offers[..n]) + [offers[n]]
  {
  }

  lemma OfferNext(offers: seq<Route>, n: nat)
    requires n < |offers|
    ensures FirstOffers(offers[..n + 1]) ==
      if HasKey(FirstOffers(offers[..n]), RouteKey(offers[n])) then FirstOffers(offers[..n])
      else FirstOffers(offers[..n]) + [offers[n]]
  {
    assert offers[..n + 1][..n] == offers[..n];
    FirstOffersNext(offers[..n + 1]);
  }

  method CollectRoutes(offers: seq<Route>) returns (routes: seq<Route>)
    ensures routes == FirstOffers(offers) && Distinct(routes)
  {
    var table := new RouteTable();
    var n := 0;
    while n < |offers|
      invariant n <= |offers| && table.Valid() && fresh(table)
      invariant table.order == FirstOffers(offers[..n])
    {
      OfferNext(offers, n);
      table.AddRoute(offers[n]);
      n := n + 1;
    }
    assert offers[..n] == offers;
    return table.order;
  }

  // The refresh

  function FixtureText(route: Route): Text {
    if route.fixtureId.Some? then route.fixtureId.value else []
  }

  /** `compareRouteContract`: by kind, then path, then fixture. */
  predicate RowBefore(a: Row, b: Row) {
    || Before(a.route.kind, b.route.kind)
    || (a.route.kind == b.route.kind
        && (|| Before(a.route.path, b.route.path)
            || (a.route.path == b.route.path && Before(FixtureText(a.route), FixtureText(b.route)))))
  }

  ghost predicate DistinctRows(rows: seq<Row>) {
    forall i, j :: 0 <= i < j < |rows| ==> Key(rows[i]) != Key(rows[j])
  }

  /** The rows by key; the last one would win, but a duplicate is an error. */
  function ByKey(rows: seq<Row>): map<Text, Row> {
    if rows == [] then map[] else ByKey(rows[..|rows| - 1])[Key(rows[|rows| - 1]) := rows[|rows| - 1]]
  }

  /** A manifest route as a row: everything recorded is kept but the route's own fields. */
  function RefreshedRow(route: Route, recorded: map<Text, Row>): Row {
    if RouteKey(route) in recorded then recorded[RouteKey(route)].(route := route) else Row(route, PENDING, map[])
  }

  function RefreshedRows(routes: seq<Route>, recorded: map<Text, Row>): (r: seq<Row>)
    ensures |r| == |routes|
  {
    seq(|routes|, i requires 0 <= i < |routes| => RefreshedRow(routes[i], recorded))
  }

  function KeySet(routes: seq<Route>): set<Text> {
    set r | r in routes :: RouteKey(r)
  }

  /** The recorded rows the manifest no longer has. */
  function Preserved(rows: seq<Row>, keys: set<Text>): (r: seq<Row>)
    ensures forall row :: row in r <==> row in rows && Key(row) !in keys
  {
    if rows == [] then [] else
    var init, last := rows[..|rows| - 1], rows[|rows| - 1];
    assert rows == init + [last];
    Preserved(init, keys) + if Key(last) in keys then [] else [last]
  }

  function Joined(routes: seq<Route>, existing: seq<Row>): seq<Row> {
    RefreshedRows(routes, ByKey(existing)) + Preserved(existing, KeySet(routes))
  }

  /** What the refresh makes of a duplicate-free matrix. */
  function Refreshed(routes: seq<Route>, existing: seq<Row>): seq<Row> {
    Sort(RowBefore, Joined(routes, existing))
  }

  /** `buildRouteMatrix`: nothing stands for the error about a duplicated row. */
  method BuildRouteMatrix(routes: seq<Route>, existing: seq<Row>) returns (r: Option<seq<Row>>)
    ensures r.Some? <==> DistinctRows(existing)
    ensures r.Some? ==> r.value == Refreshed(routes, existing)
    ensures r.Some? ==> forall row :: row in r.value <==> BelongsTo(routes, existing, row)
    ensures r.Some? ==> forall route :: route in routes ==> exists row :: row in r.value && row.route == route
    ensures r.None? ==> exists i, j :: 0 <= i < j < |existing| && SameKey(existing[i].route, existing[j].route)
  {
    var recorded: map<Text, Row> := map[];
    var n := 0;
    while n < |existing|
      invariant n <= |existing| && recorded == ByKey(existing[..n]) && DistinctRows(existing[..n])
    {
      ByKeyKeys(existing[..n]);
      assert existing[..n + 1] == existing[..n] + [existing[n]] && existing[..n + 1][..n] == existing[..n];
      if Key(existing[n]) in recorded {
        var i :| 0 <= i < n && Key(existing[..n][i]) == Key(existing[n]);
        assert Key(existing[i]) == Key(existing[n]);
        assert SameKey(existing[i].route, existing[n].route);
        return None;
      }
      recorded := recorded[Key(existing[n]) := existing[n]];
      n := n + 1;
    }
    assert existing[..n] == existing;
    forall row ensures row in Refreshed(routes, existing) <==> BelongsTo(routes, existing, row) {
      RowsExactly(routes, existing, row);
    }
    forall route | route in routes ensures exists row :: row in Refreshed(routes, existing) && row.route == route {
      RouteCarried(routes, existing, route);
    }
    return Some(Sort(RowBefore, RefreshedRows(routes, recorded) + Preserved(existing, KeySet(routes))));
  }

  lemma {:induction false} ByKeyKeys(rows: seq<Row>)
    ensures forall k :: k in ByKey(rows) <==> exists i :: 0 <= i < |rows| && Key(rows[i]) == k
  {
    if rows != [] {
      var init := rows[..|rows| - 1];
      ByKeyKeys(init);
      forall k ensures k in ByKey(rows) <==> exists i :: 0 <= i < |rows| && Key(rows[i]) == k {
        if k in ByKey(init) {
          var i :| 0 <= i < |init| && Key(init[i]) == k;
          assert Key(rows[i]) == k;
        }
        if exists i :: 0 <= i < |rows| && Key(rows[i]) == k {
          var i :| 0 <= i < |rows| && Key(rows[i]) == k;
          assert i < |rows| - 1 ==> Key(init[i]) == k;
        }
      }
    }
  }

  lemma {:induction false} ByKeyFinds(rows: seq<Row>, row: Row)
    requires DistinctRows(rows) && row in rows
    ensures Key(row) in ByKey(rows) && ByKey(rows)[Key(row)] == row
  {
    var init, last := rows[..|rows| - 1], rows[|rows| - 1];
    assert rows == init + [last];
    if row != last {
      ByKeyFinds(init, row);
      var i :| 0 <= i < |init| && init[i] == row;
      assert Key(rows[i]) != Key(rows[|rows| - 1]);
    }
  }

  lemma {:induction false} ByKeySound(rows: seq<Row>, k: Text)
    requires k in ByKey(rows)
    ensures ByKey(rows)[k] in rows && Key(ByKey(rows)[k]) == k
  {
    var init, last := rows[..|rows| - 1], rows[|rows| - 1];
    assert rows == init + [last];
    if k != Key(last) {
      ByKeySound(init, k);
    }
  }

  // What the refresh keeps

  lemma JoinedMembers(routes: seq<Route>, existing: seq<Row>, row: Row)
    ensures row in Refreshed(routes, existing) <==>
      || (exists i :: 0 <= i < |routes| && row == RefreshedRow(routes[i], ByKey(existing)))
      || (row in existing && Key(row) !in KeySet(routes))
  {
    SameElements(Refreshed(routes, existing), Joined(routes, existing), row);
    var refreshed := RefreshedRows(routes, ByKey(existing));
    assert row in refreshed <==> exists i :: 0 <= i < |routes| && row == RefreshedRow(routes[i], ByKey(existing)) by {
      if row in refreshed {
        var i :| 0 <= i < |refreshed| && refreshed[i] == row;
        assert row == RefreshedRow(routes[i], ByKey(existing));
      }
      if exists i :: 0 <= i < |routes| && row == RefreshedRow(routes[i], ByKey(existing)) {
        var i :| 0 <= i < |routes| && row == RefreshedRow(routes[i], ByKey(existing));
        assert refreshed[i] == row;
      }
    }
  }

  /** The keys afterwards are those of the manifest and those recorded before. */
  lemma RefreshKeys(routes: seq<Route>, existing: seq<Row>, k: Text)
    ensures (exists row :: row in Refreshed(routes, existing) && Key(row) == k) <==>
      k in KeySet(routes) || (exists row :: row in existing && Key(row) == k)
  {
    if exists row :: row in Refreshed(routes, existing) && Key(row) == k {
      var row :| row in Refreshed(routes, existing) && Key(row) == k;
      JoinedMembers(routes, existing, row);
    }
    if k in KeySet(routes) {
      var r :| r in routes && RouteKey(r) == k;
      var i :| 0 <= i < |routes| && routes[i] == r;
      JoinedMembers(routes, existing, RefreshedRow(routes[i], ByKey(existing)));
    } else if exists row :: row in existing && Key(row) == k {
      var row :| row in existing && Key(row) == k;
      JoinedMembers(routes, existing, row);
    }
  }

  /** A row afterwards has the status its key had before, or is new and pending. */
  lemma StatusKept(routes: seq<Route>, existing: seq<Row>, row: Row)
    requires DistinctRows(existing) && row in Refreshed(routes, existing)
    ensures
      if exists before_ :: before_ in existing && Key(before_) == Key(row) then
        exists before_ :: before_ in existing && Key(before_) == Key(row) && before_.status == row.status &&
          before_.extra == row.extra
      else row.status == PENDING && row.extra == map[] && row.route in routes
  {
    JoinedMembers(routes, existing, row);
    if row in existing && Key(row) !in KeySet(routes) {
      assert row in existing && Key(row) == Key(row);
    } else {
      var i :| 0 <= i < |routes| && row == RefreshedRow(routes[i], ByKey(existing));
      if Key(row) in ByKey(existing) {
        ByKeySound(existing, Key(row));
      } else {
        ByKeyKeys(existing);
        forall other | other in existing ensures Key(other) != Key(row) {
          var j :| 0 <= j < |existing| && existing[j] == other;
          assert Key(existing[j]) in ByKey(existing);
        }
      }
    }
  }

  /** The same kind, a NUL and the same path. */
  ghost predicate SameKey(a: Route, b: Route) {
    a.kind + [0] + a.path == b.kind + [0] + b.path
  }

  ghost predicate RecordedAs(existing: seq<Row>, row: Row) {
    exists past :: past in existing && SameKey(past.route, row.route) && past.status == row.status
      && past.extra == row.extra
  }

  ghost predicate Unrecorded(existing: seq<Row>, route: Route) {
    forall past :: past in existing ==> !SameKey(past.route, route)
  }

  /** A route of the manifest with what was recorded under its key, or pending with nothing. */
  ghost predicate ManifestRow(routes: seq<Route>, existing: seq<Row>, row: Row) {
    && row.route in routes
    && (RecordedAs(existing, row)
        || (Unrecorded(existing, row.route) && row.status == Chars("pending") && row.extra == map[]))
  }

  /**
   A row of the refreshed matrix: a route of the manifest as the manifest has it now, with what was
   recorded under its key or else pending with nothing recorded; or an old row, unchanged, that the
   manifest has no route for.
   */
  ghost predicate BelongsTo(routes: seq<Route>, existing: seq<Row>, row: Row) {
    || ManifestRow(routes, existing, row)
    || (row in existing && forall route :: route in routes ==> !SameKey(route, row.route))
  }

  lemma RefreshedRowIs(routes: seq<Route>, existing: seq<Row>, route: Route, row: Row)
    requires DistinctRows(existing)
    ensures row == RefreshedRow(route, ByKey(existing)) <==>
      && row.route == route
      && (RecordedAs(existing, row)
          || (Unrecorded(existing, route) && row.status == Chars("pending") && row.extra == map[]))
  {
    assert PENDING == Chars("pending");
    var k := RouteKey(route);
    if k in ByKey(existing) {
      ByKeySound(existing, k);
      assert SameKey(ByKey(existing)[k].route, route);
      if row.route == route && RecordedAs(existing, row) {
        var other :| other in existing && SameKey(other.route, row.route) && other.status == row.status
          && other.extra == row.extra;
        ByKeyFinds(existing, other);
        assert Key(other) == k;
      }
    } else {
      forall past | past in existing ensures !SameKey(past.route, route) {
        ByKeyFinds(existing, past);
        assert Key(past) == past.route.kind + [0] + past.route.path;
      }
    }
  }

  lemma ManifestRowIff(routes: seq<Route>, existing: seq<Row>, row: Row)
    requires DistinctRows(existing)
    ensures ManifestRow(routes, existing, row) <==>
      exists i :: 0 <= i < |routes| && row == RefreshedRow(routes[i], ByKey(existing))
  {
    RefreshedRowIs(routes, existing, row.route, row);
    if ManifestRow(routes, existing, row) {
      var i :| 0 <= i < |routes| && routes[i] == row.route;
      assert row == RefreshedRow(routes[i], ByKey(existing));
    }
    if i :| 0 <= i < |routes| && row == RefreshedRow(routes[i], ByKey(existing)) {
      RefreshedRowIs(routes, existing, routes[i], row);
    }
  }

  lemma NoRouteIff(routes: seq<Route>, row: Row)
    ensures Key(row) !in KeySet(routes) <==> forall route :: route in routes ==> !SameKey(route, row.route)
  {
    if Key(row) in KeySet(routes) {
      var route :| route in routes && RouteKey(route) == Key(row);
      assert SameKey(route, row.route);
    } else {
      forall route | route in routes ensures !SameKey(route, row.route) {
        assert RouteKey(route) in KeySet(routes);
      }
    }
  }

  /** The refreshed matrix holds exactly the rows that belong to it. */
  lemma RowsExactly(routes: seq<Route>, existing: seq<Row>, row: Row)
    requires DistinctRows(existing)
    ensures row in Refreshed(routes, existing) <==> BelongsTo(routes, existing, row)
  {
    JoinedMembers(routes, existing, row);
    ManifestRowIff(routes, existing, row);
    NoRouteIff(routes, row);
  }

  /** For every route of the manifest there is a row that carries it. */
  lemma RouteCarried(routes: seq<Route>, existing: seq<Row>, route: Route)
    requires route in routes
    ensures exists row :: row in Refreshed(routes, existing) && row.route == route
  {
    var row := RefreshedRow(route, ByKey(existing));
    var i :| 0 <= i < |routes| && routes[i] == route;
    JoinedMembers(routes, existing, row);
  }

  // Order

  lemma RowBeforeIsStrict()
    ensures StrictOrder(RowBefore)
  {
    BeforeIsStrict();
  }

  lemma RowsComparable(a: Row, b: Row)
    requires Key(a) != Key(b)
    ensures RowBefore(a, b) || RowBefore(b, a)
  {
    BeforeTotal(a.route.kind, b.route.kind);
    BeforeTotal(a.route.path, b.route.path);
  }

  lemma JoinedDistinct(routes: seq<Route>, existing: seq<Row>)
    requires Distinct(routes) && DistinctRows(existing)
    ensures DistinctRows(Joined(routes, existing))
  {
    var refreshed, preserved := RefreshedRows(routes, ByKey(existing)), Preserved(existing, KeySet(routes));
    PreservedDistinct(existing, KeySet(routes));
    forall i, j | 0 <= i < |refreshed| && 0 <= j < |preserved| ensures Key(refreshed[i]) != Key(preserved[j]) {
      assert preserved[j] in preserved && routes[i] in routes;
      assert Key(refreshed[i]) == RouteKey(routes[i]) && RouteKey(routes[i]) in KeySet(routes);
    }
    forall i, j | 0 <= i < j < |refreshed| ensures Key(refreshed[i]) != Key(refreshed[j]) {
      assert RouteKey(routes[i]) != RouteKey(routes[j]);
    }
  }

  lemma {:induction false} PreservedDistinct(rows: seq<Row>, keys: set<Text>)
    requires DistinctRows(rows)
    ensures DistinctRows(Preserved(rows, keys))
  {
    if rows != [] {
      var init, last := rows[..|rows| - 1], rows[|rows| - 1];
      PreservedDistinct(init, keys);
      var kept := Preserved(init, keys);
      forall i | 0 <= i < |kept| ensures Key(kept[i]) != Key(last) {
        assert kept[i] in kept;
        var j :| 0 <= j < |init| && init[j] == kept[i];
        assert Key(rows[j]) != Key(rows[|rows| - 1]);
      }
    }
  }

  /** The rows come out in strictly ascending order, so there is only one way to write them. */
  lemma RefreshAscends(routes: seq<Route>, existing: seq<Row>)
    requires Distinct(routes) && DistinctRows(existing)
    ensures Ascending(RowBefore, Refreshed(routes, existing))
  {
    RowBeforeIsStrict();
    JoinedDistinct(routes, existing);
    var rows := Joined(routes, existing);
    forall i, j | 0 <= i < j < |rows| ensures RowBefore(rows[i], rows[j]) || RowBefore(rows[j], rows[i]) {
      RowsComparable(rows[i], rows[j]);
    }
    SortAscending(RowBefore, rows);
  }

  // Fixed point

  lemma RefreshDistinct(routes: seq<Route>, existing: seq<Row>)
    requires Distinct(routes) && DistinctRows(existing)
    ensures DistinctRows(Refreshed(routes, existing))
  {
    var rows, joined := Refreshed(routes, existing), Joined(routes, existing);
    JoinedDistinct(routes, existing);
    RefreshAscends(routes, existing);
    RowBeforeIsStrict();
    forall i, j | 0 <= i < j < |rows| ensures Key(rows[i]) != Key(rows[j]) {
      SameElements(rows, joined, rows[i]);
      SameElements(rows, joined, rows[j]);
      var a :| 0 <= a < |joined| && joined[a] == rows[i];
      var b :| 0 <= b < |joined| && joined[b] == rows[j];
      assert RowBefore(rows[i], rows[j]);
    }
  }

  /** By kind first, then by path. */
  lemma KindsThenPaths(routes: seq<Route>, existing: seq<Row>, i: nat, j: nat)
    requires Distinct(routes) && DistinctRows(existing) && i < j < |Refreshed(routes, existing)|
    ensures var a, b := Refreshed(routes, existing)[i].route, Refreshed(routes, existing)[j].route;
      Before(a.kind, b.kind) || (a.kind == b.kind && Before(a.path, b.path))
  {
    RefreshAscends(routes, existing);
    RefreshDistinct(routes, existing);
    var a, b := Refreshed(routes, existing)[i], Refreshed(routes, existing)[j];
    assert RowBefore(a, b) && Key(a) != Key(b);
  }

  /** A refreshed row is found again and refreshed to itself. */
  lemma RefreshedRowSettles(routes: seq<Route>, existing: seq<Row>, i: nat)
    requires Distinct(routes) && DistinctRows(existing) && i < |routes|
    ensures RefreshedRow(routes[i], ByKey(Refreshed(routes, existing))) == RefreshedRow(routes[i], ByKey(existing))
  {
    var row := RefreshedRow(routes[i], ByKey(existing));
    JoinedMembers(routes, existing, row);
    RefreshDistinct(routes, existing);
    ByKeyFinds(Refreshed(routes, existing), row);
  }

  lemma SameMembersAgain(routes: seq<Route>, existing: seq<Row>, row: Row)
    requires Distinct(routes) && DistinctRows(existing)
    ensures row in Refreshed(routes, Refreshed(routes, existing)) <==> row in Refreshed(routes, existing)
  {
    var once := Refreshed(routes, existing);
    JoinedMembers(routes, existing, row);
    JoinedMembers(routes, once, row);
    forall i | 0 <= i < |routes|
      ensures RefreshedRow(routes[i], ByKey(once)) == RefreshedRow(routes[i], ByKey(existing))
    {
      RefreshedRowSettles(routes, existing, i);
    }
  }

  /** Refreshing a refreshed matrix gives it back, row for row. */
  lemma RefreshIsFixedPoint(routes: seq<Route>, existing: seq<Row>)
    requires Distinct(routes) && DistinctRows(existing)
    ensures DistinctRows(Refreshed(routes, existing))
    ensures Refreshed(routes, Refreshed(routes, existing)) == Refreshed(routes, existing)
  {
    var once := Refreshed(routes, existing);
    RefreshDistinct(routes, existing);
    RefreshAscends(routes, existing);
    RefreshAscends(routes, once);
    RowBeforeIsStrict();
    forall row ensures row in Refreshed(routes, once) <==> row in once {
      SameMembersAgain(routes, existing, row);
    }
    AscendingUnique(RowBefore, Refreshed(routes, once), once);
  }
}
