/** `ZipCodeDatabase`: the public lookups, each a query (or two) through the
    connection manager followed by `format_result`.

    Every operation returns its Python outcome (a value or a raised error)
    together with the queries it handed to the connection manager, in order.
    The n-th query of an operation is attempted with the oracle's call n.
 */
module Lookup {
  import opened Wrappers
  import opened PyStr
  import opened Records
  import opened Store
  import opened Connection
  import opened Radius

  datatype Response<T> = Response(result: Result<T>, issued: seq<Query>)

  /** `format_result(self.conn_manager.query(...))` for the `call`-th query. */
  function Fetch(m: Manager, call: nat, q: Query): (r: Result<Option<seq<ZipCode>>>)
    ensures r.Err? <==> ConnectionFails(m, call)
    ensures r.Err? ==> r.error == CantConnect(m.location)
    ensures r.Ok? ==> (r.value.None? <==> forall row :: row in m.table ==> !Matches(q, m.like, row))
    ensures r.Ok? ==> forall z :: z in RecordsOf(r.value) <==> ToRow(z) in m.table && Matches(q, m.like, ToRow(z))
    ensures r.Ok? ==> forall z ::
      multiset(RecordsOf(r.value))[z] == (if Matches(q, m.like, ToRow(z)) then multiset(m.table)[ToRow(z)] else 0)
    ensures r.Ok? ==> r.value == FormatResult(Execute(m.table, m.like, q))
  {
    var rows :- RunQuery(m, call, q);
    assert forall z :: z in RecordsOf(FormatResult(rows)) <==> ToRow(z) in rows by {
      forall z {
        FormatResultMembers(rows, z);
      }
    }
    assert forall z :: multiset(RecordsOf(FormatResult(rows)))[z] == multiset(rows)[ToRow(z)] by {
      forall z {
        MaterializeMultiset(rows, z);
      }
    }
    Ok(FormatResult(rows))
  }

  // ----- get -----

  /** `get(zipcode)`: the exact-match query with the zip code as its only
      parameter; `None` when no row has that zip, otherwise every row with
      that zip, each as often as the table holds it. */
  function Get(m: Manager, zipcode: string): (r: Response<Option<seq<ZipCode>>>)
    ensures r.issued == [ZipQuery(zipcode)]
    ensures r.result.Err? <==> ConnectionFails(m, 0)
    ensures r.result.Err? ==> r.result.error == CantConnect(m.location)
    ensures r.result.Ok? ==> (r.result.value.None? <==> forall row :: row in m.table ==> row.0 != zipcode)
    ensures r.result.Ok? ==> forall z :: z in RecordsOf(r.result.value) <==> ToRow(z) in m.table && z.zip == zipcode
    ensures r.result.Ok? ==> forall z ::
      multiset(RecordsOf(r.result.value))[z] == (if z.zip == zipcode then multiset(m.table)[ToRow(z)] else 0)
  {
    Response(Fetch(m, 0, ZipQuery(zipcode)), [ZipQuery(zipcode)])
  }

  // ----- __getitem__ -----

  /** `db[key]`: `get(str(key))`, its first record, or `IndexError` when
      `get` yields `None`. */
  function GetItem(m: Manager, key: Key): (r: Response<ZipCode>)
    ensures r.issued == [ZipQuery(Str(key))]
    ensures ConnectionFails(m, 0) ==> r.result == Err(CantConnect(m.location))
    ensures !ConnectionFails(m, 0) ==>
      (r.result.Err? <==> forall row :: row in m.table ==> row.0 != Str(key))
    ensures !ConnectionFails(m, 0) && r.result.Err? ==> r.result.error == IndexError(Str(key))
    ensures r.result.Ok? ==> r.result.value.zip == Str(key)
    ensures r.result.Ok? ==>
      exists i :: FirstMatchAt(m.table, m.like, ZipQuery(Str(key)), i) && m.table[i] == ToRow(r.result.value)
  {
    var zipcode := Str(key);
    var data := Get(m, zipcode);
    match data.result
    case Err(e) => Response(Err(e), data.issued)
    case Ok(None) => Response(Err(IndexError(zipcode)), data.issued)
    case Ok(Some(zips)) =>
      ExecuteHead(m.table, m.like, ZipQuery(zipcode));
      Response(Ok(zips[0]), data.issued)
  }

  /** As written, an integer key is rendered by `str` without zero-fill, so
      a key below 10000 has fewer than five characters and finds no record
      in a table of five-character zip codes (01234 is unreachable as 1234). */
  lemma GetItemSmallIntMisses(m: Manager, n: int)
    requires 0 <= n < 10000
    requires forall row :: row in m.table ==> |row.0| == 5
    requires !ConnectionFails(m, 0)
    ensures GetItem(m, KInt(n)).result == Err(IndexError(IntToDecimal(n)))
  {
    SmallNatShort(n);
  }

  /** The key with a natural integer zero-filled to five digits,
      `str(key).zfill(5)`; any other key as `str` renders it. */
  function PaddedKey(key: Key): (s: string)
    ensures key.KInt? && 0 <= key.number < 100000 ==> |s| == 5 && AllDigits(s)
  {
    match key
    case KInt(n) =>
      if n >= 0 then
        FiveDigitDecimalShort(n);
        ZeroFill5(NatToDecimal(n))
      else IntToDecimal(n)
    case KStr(t) => t
  }

  /** Indexed access with integer keys zero-filled: `db[str(key).zfill(5)]`. */
  function GetItemPadded(m: Manager, key: Key): (r: Response<ZipCode>)
    ensures r.issued == [ZipQuery(PaddedKey(key))]
    ensures r.result.Ok? ==> r.result.value.zip == PaddedKey(key) && ToRow(r.result.value) in m.table
  {
    GetItem(m, KStr(PaddedKey(key)))
  }

  /** With zero-fill, every five-digit zip code in the table is reachable by
      its integer value. */
  lemma GetItemPaddedFindsEveryZip(m: Manager, row: Row)
    requires row in m.table
    requires |row.0| == 5 && AllDigits(row.0)
    requires !ConnectionFails(m, 0)
    ensures GetItemPadded(m, KInt(DecimalValue(row.0))).result.Ok?
    ensures GetItemPadded(m, KInt(DecimalValue(row.0))).result.value.zip == row.0
  {
    ZeroFillRoundTrip(row.0);
  }

  // ----- find_zip -----

  /** The pattern a `find_zip` filter becomes: `%` when omitted; otherwise a
      pattern that differs from the filter only in letter case and holds no
      lower-case letter (the filter upper-cased). */
  function Pattern(filter: Option<string>): (p: string)
    ensures filter.None? ==> p == Wildcard
    ensures filter.Some? ==> EqualIgnoringCase(p, filter.value)
    ensures filter.Some? ==> forall i :: 0 <= i < |p| ==> !IsLower(p[i])
  {
    match filter
    case None => Wildcard
    case Some(s) =>
      UpperEqualIff(Upper(s), s);
      UpperIdempotent(s);
      Upper(s)
  }

  /** `find_zip(city, state)`: one LIKE query on both normalised filters. */
  function FindZip(m: Manager, city: Option<string>, state: Option<string>): (r: Response<Option<seq<ZipCode>>>)
    ensures r.issued == [ZipFindQuery(Pattern(city), Pattern(state))]
    ensures city.None? ==> r.issued[0].city == Wildcard
    ensures city.Some? ==> EqualIgnoringCase(r.issued[0].city, city.value)
    ensures state.None? ==> r.issued[0].state == Wildcard
    ensures state.Some? ==> EqualIgnoringCase(r.issued[0].state, state.value)
    ensures r.result.Err? <==> ConnectionFails(m, 0)
    ensures r.result.Err? ==> r.result.error == CantConnect(m.location)
    ensures r.result.Ok? ==> (r.result.value.None? <==>
      forall row :: row in m.table ==> !(m.like(Pattern(city), row.1) && m.like(Pattern(state), row.2)))
    ensures r.result.Ok? ==> forall z :: z in RecordsOf(r.result.value) <==>
      ToRow(z) in m.table && m.like(Pattern(city), z.city) && m.like(Pattern(state), z.state)
    ensures r.result.Ok? ==> forall z ::
      multiset(RecordsOf(r.result.value))[z] ==
        (if m.like(Pattern(city), z.city) && m.like(Pattern(state), z.state) then multiset(m.table)[ToRow(z)] else 0)
  {
    var q := ZipFindQuery(Pattern(city), Pattern(state));
    Response(Fetch(m, 0, q), [q])
  }

  /** Two filters that are both omitted, or both given and equal up to letter case. */
  predicate SameFilter(a: Option<string>, b: Option<string>) {
    (a.None? && b.None?) || (a.Some? && b.Some? && EqualIgnoringCase(a.value, b.value))
  }

  /** Filters that differ only in letter case send identical query parameters
      and so get identical results. */
  lemma FindZipIgnoresCase(m: Manager, city1: Option<string>, state1: Option<string>,
                           city2: Option<string>, state2: Option<string>)
    requires SameFilter(city1, city2) && SameFilter(state1, state2)
    ensures FindZip(m, city1, state1).issued == FindZip(m, city2, state2).issued
    ensures FindZip(m, city1, state1) == FindZip(m, city2, state2)
  {
    if city1.Some? {
      UpperEqualIff(city1.value, city2.value);
    }
    if state1.Some? {
      UpperEqualIff(state1.value, state2.value);
    }
  }

  /** With no filters and a `LIKE` under which `%` matches everything,
      `find_zip` returns every record of the table, in table order (and
      `None` only for an empty table). */
  lemma FindZipNoFiltersIsEverything(m: Manager)
    requires WildcardMatchesAll(m.like)
    requires !ConnectionFails(m, 0)
    ensures FindZip(m, None, None).result == Ok(FormatResult(m.table))
  {
    ExecuteAll(m.table, m.like, ZipFindQuery(Wildcard, Wildcard));
  }

  // ----- get_zipcodes_around_radius -----

  /** The range query of a radius search around `anchor`, sent as the
      operation's second query: every record inside the anchor's box. */
  function BoxSearch(m: Manager, anchor: ZipCode, radius: real): (r: Result<Option<seq<ZipCode>>>)
    ensures r.Err? <==> ConnectionFails(m, 1)
    ensures r.Err? ==> r.error == CantConnect(m.location)
    ensures r.Ok? ==> (r.value.None? <==>
      forall row :: row in m.table ==> !InBox(SearchBox(anchor.longitude, anchor.latitude, radius), row.3, row.4))
    ensures r.Ok? ==> forall z :: z in RecordsOf(r.value) <==>
      ToRow(z) in m.table && InBox(SearchBox(anchor.longitude, anchor.latitude, radius), z.longitude, z.latitude)
    ensures r.Ok? ==> forall z ::
      multiset(RecordsOf(r.value))[z] ==
        (if InBox(SearchBox(anchor.longitude, anchor.latitude, radius), z.longitude, z.latitude)
         then multiset(m.table)[ToRow(z)] else 0)
  {
    var b := SearchBox(anchor.longitude, anchor.latitude, radius);
    var r := Fetch(m, 1, RangeQuery(b));
    assert forall row :: Matches(RangeQuery(b), m.like, row) <==> InBox(b, row.3, row.4);
    r
  }

  /** `get_zipcodes_around_radius(zipcode, radius)`: resolve the anchor with
      `get` (raising `ZipNotFoundException` when it yields `None`), then ask
      for every row in the first anchor record's search box. */
  function AroundRadius(m: Manager, zipcode: string, radius: real): (r: Response<Option<seq<ZipCode>>>)
    ensures 1 <= |r.issued| <= 2 && r.issued[0] == ZipQuery(zipcode)
    ensures var g := Get(m, zipcode).result;
      g.Err? ==> r.result == g && r.issued == [ZipQuery(zipcode)]
    ensures var g := Get(m, zipcode).result;
      g == Ok(None) ==> r.result == Err(ZipNotFound(zipcode, radius)) && r.issued == [ZipQuery(zipcode)]
    ensures var g := Get(m, zipcode).result;
      g.Ok? && g.value.Some? ==>
        var anchor := g.value.value[0];
        && r.issued == [ZipQuery(zipcode), RangeQuery(SearchBox(anchor.longitude, anchor.latitude, radius))]
        && r.result == BoxSearch(m, anchor, radius)
  {
    var zips := Get(m, zipcode);
    match zips.result
    case Err(e) => Response(Err(e), zips.issued)
    case Ok(None) => Response(Err(ZipNotFound(zipcode, radius)), zips.issued)
    case Ok(Some(found)) =>
      var anchor := found[0];
      var q := RangeQuery(SearchBox(anchor.longitude, anchor.latitude, radius));
      Response(BoxSearch(m, anchor, radius), zips.issued + [q])
  }

  /** For a non-negative radius, a radius search that succeeds returns the
      anchor record itself. */
  lemma AroundRadiusIncludesAnchor(m: Manager, zipcode: string, radius: real)
    requires radius >= 0.0
    ensures var g := Get(m, zipcode).result;
      var r := AroundRadius(m, zipcode, radius).result;
      g.Ok? && g.value.Some? && r.Ok? ==> r.value.Some? && g.value.value[0] in RecordsOf(r.value)
  {
    var g := Get(m, zipcode).result;
    if g.Ok? && g.value.Some? {
      var anchor := g.value.value[0];
      assert anchor in RecordsOf(g.value);
      AnchorInBox(anchor.longitude, anchor.latitude, radius);
    }
  }

  /** A negative radius inverts the box: a successful search finds nothing. */
  lemma AroundRadiusNegative(m: Manager, zipcode: string, radius: real)
    requires radius < 0.0
    ensures AroundRadius(m, zipcode, radius).result.Ok? ==>
      AroundRadius(m, zipcode, radius).result.value.None?
  {
  }

  /** Growing the radius around a fixed anchor never loses a record: each
      record is found at least as often. */
  lemma BoxSearchMonotone(m: Manager, anchor: ZipCode, r1: real, r2: real)
    requires r1 <= r2
    requires !ConnectionFails(m, 1)
    ensures multiset(RecordsOf(BoxSearch(m, anchor, r1).value)) <= multiset(RecordsOf(BoxSearch(m, anchor, r2).value))
    ensures |RecordsOf(BoxSearch(m, anchor, r1).value)| <= |RecordsOf(BoxSearch(m, anchor, r2).value)|
  {
    var q1 := RangeQuery(SearchBox(anchor.longitude, anchor.latitude, r1));
    var q2 := RangeQuery(SearchBox(anchor.longitude, anchor.latitude, r2));
    forall row | row in m.table && Matches(q1, m.like, row)
      ensures Matches(q2, m.like, row)
    {
      BoxGrows(anchor.longitude, anchor.latitude, r1, r2, row.3, row.4);
    }
    ExecuteMonotone(m.table, m.like, q1, q2);
    var rows1, rows2 := Execute(m.table, m.like, q1), Execute(m.table, m.like, q2);
    assert BoxSearch(m, anchor, r1).value == FormatResult(rows1);
    assert BoxSearch(m, anchor, r2).value == FormatResult(rows2);
    forall z
      ensures multiset(RecordsOf(FormatResult(rows1)))[z] <= multiset(RecordsOf(FormatResult(rows2)))[z]
    {
      MaterializeMultiset(rows1, z);
      MaterializeMultiset(rows2, z);
    }
  }

  /** The records found for a larger radius include those found for a smaller
      one, each at least as often, so the result never shrinks as the radius
      grows. */
  lemma AroundRadiusMonotone(m: Manager, zipcode: string, r1: real, r2: real)
    requires r1 <= r2
    ensures AroundRadius(m, zipcode, r1).result.Ok? <==> AroundRadius(m, zipcode, r2).result.Ok?
    ensures var a := AroundRadius(m, zipcode, r1).result;
      var b := AroundRadius(m, zipcode, r2).result;
      a.Ok? && b.Ok? ==>
        && multiset(RecordsOf(a.value)) <= multiset(RecordsOf(b.value))
        && |RecordsOf(a.value)| <= |RecordsOf(b.value)|
  {
    var g := Get(m, zipcode).result;
    if g.Ok? && g.value.Some? && !ConnectionFails(m, 1) {
      BoxSearchMonotone(m, g.value.value[0], r1, r2);
    }
  }
}
