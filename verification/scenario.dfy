/** A worked example on a small fixture table: the lookups the package's own
    tests make, and the integer-key behaviour recorded under Findings.

    The De Pere row carries the values the tests check; the coordinates of
    the other rows are illustrative fixture values. The fixture `LIKE` is
    case-insensitive equality, with `%` matching everything, which is what
    SQLite's `LIKE` does for patterns without other wildcards. Every connect
    attempt succeeds.
 */
module Scenario {
  import opened Wrappers
  import opened PyStr
  import opened Records
  import opened Store
  import opened Connection
  import opened Radius
  import opened Lookup

  const DePere: Row := ("54115", "De Pere", "WI", -88.07896, 44.42042, -6, 1)
  const GreenBay: Row := ("54304", "Green Bay", "WI", -88.0659, 44.4950, -6, 1)
  const Oshkosh: Row := ("54901", "Oshkosh", "WI", -88.5420, 44.0250, -6, 1)
  const Allston: Row := ("02134", "Allston", "MA", -71.1290, 42.3530, -5, 1)

  const Fixture: Table := [DePere, GreenBay, Oshkosh, Allston]

  function FixtureLike(pattern: string, value: string): bool {
    pattern == Wildcard || EqualIgnoringCase(pattern, value)
  }

  function Db(): (m: Manager)
    ensures !ConnectionFails(m, 0) && !ConnectionFails(m, 1)
    ensures WildcardMatchesAll(m.like)
  {
    var m := Manager("zipcodes.db", Fixture, FixtureLike, (call: nat, attempt: nat) => true);
    assert m.connect(0, 0) && m.connect(1, 0);
    m
  }

  /** `db["54115"]` gives the De Pere record. */
  lemma RetrievesZipCodeInformation()
    ensures GetItem(Db(), KStr("54115")).result == Ok(FromRow(DePere))
  {
    var m := Db();
    var r := GetItem(m, KStr("54115")).result;
    assert m.table[0] == DePere && DePere.0 == "54115";
    assert r.Ok?;
    var i :| FirstMatchAt(m.table, m.like, ZipQuery("54115"), i) && m.table[i] == ToRow(r.value);
    assert Matches(ZipQuery("54115"), m.like, m.table[0]);
    assert i == 0;
    ToRowRoundTrip(r.value);
  }

  /** `db[54115]` looks up the same string as `db["54115"]`. */
  lemma IntKeyRendersAsZip()
    ensures Str(KInt(54115)) == "54115"
  {
    assert NatToDecimal(54115) == "54115" by {
      assert NatToDecimal(5) == "5";
      assert NatToDecimal(54) == "54";
      assert NatToDecimal(541) == "541";
      assert NatToDecimal(5411) == "5411";
    }
  }

  /** The anchor of a search around 54115 is the De Pere record. */
  lemma AnchorIsDePere()
    ensures Get(Db(), "54115").result.Ok?
    ensures Get(Db(), "54115").result.value.Some?
    ensures Get(Db(), "54115").result.value.value[0] == FromRow(DePere)
  {
    var m := Db();
    var g := Get(m, "54115").result;
    assert FromRow(DePere) in RecordsOf(g.value);
    var anchor := g.value.value[0];
    assert ToRow(anchor) in m.table && anchor.zip == "54115";
  }

  /** A 30-mile search around 54115 returns 54304. */
  lemma RadiusFindsNeighbour()
    ensures AroundRadius(Db(), "54115", 30.0).result.Ok?
    ensures FromRow(GreenBay) in RecordsOf(AroundRadius(Db(), "54115", 30.0).result.value)
  {
    var m := Db();
    AnchorIsDePere();
    var r := BoxSearch(m, FromRow(DePere), 30.0);
    assert AroundRadius(m, "54115", 30.0).result == r;
    assert InBox(SearchBox(DePere.3, DePere.4, 30.0), GreenBay.3, GreenBay.4);
    assert GreenBay in m.table;
  }

  const DePereQuery: Query := ZipFindQuery("DE PERE", Wildcard)

  lemma OtherCitiesDoNotMatch()
    ensures Matches(DePereQuery, FixtureLike, DePere)
    ensures !Matches(DePereQuery, FixtureLike, GreenBay)
    ensures !Matches(DePereQuery, FixtureLike, Oshkosh)
    ensures !Matches(DePereQuery, FixtureLike, Allston)
  {
    assert EqualIgnoringCase("DE PERE", "De Pere");
    assert !SameLetter("DE PERE"[0], "Green Bay"[0]);
    assert !SameLetter("DE PERE"[0], "Oshkosh"[0]);
    assert !SameLetter("DE PERE"[0], "Allston"[0]);
  }

  lemma NoDePereAfterFirstRow()
    ensures Execute([GreenBay, Oshkosh, Allston], FixtureLike, DePereQuery) == []
  {
    OtherCitiesDoNotMatch();
    var t := [GreenBay, Oshkosh, Allston];
    assert t[1..] == [Oshkosh, Allston] && t[1..][1..] == [Allston] && t[1..][1..][1..] == [];
  }

  /** Only the De Pere row has the city DE PERE under the fixture `LIKE`. */
  lemma OnlyDePereMatches()
    ensures Execute(Fixture, FixtureLike, DePereQuery) == [DePere]
  {
    OtherCitiesDoNotMatch();
    NoDePereAfterFirstRow();
    assert Fixture[1..] == [GreenBay, Oshkosh, Allston];
  }

  /** `find_zip(city="De Pere")` returns exactly the one De Pere record. */
  lemma FindByCity()
    ensures FindZip(Db(), Some("De Pere"), None).result == Ok(Some([FromRow(DePere)]))
  {
    assert Pattern(Some("De Pere")) == "DE PERE";
    OnlyDePereMatches();
    assert FindZip(Db(), Some("De Pere"), None).issued == [DePereQuery];
    assert Materialize([DePere]) == [FromRow(DePere)];
  }

  /** `find_zip(state="WI")` returns both 54304 and 54901. */
  lemma FindByState()
    ensures FindZip(Db(), None, Some("WI")).result.Ok?
    ensures FromRow(GreenBay) in RecordsOf(FindZip(Db(), None, Some("WI")).result.value)
    ensures FromRow(Oshkosh) in RecordsOf(FindZip(Db(), None, Some("WI")).result.value)
  {
    var m := Db();
    assert Pattern(Some("WI")) == Upper("WI") == "WI";
    assert m.like(Wildcard, GreenBay.1) && m.like("WI", GreenBay.2);
    assert m.like(Wildcard, Oshkosh.1) && m.like("WI", Oshkosh.2);
    assert GreenBay in m.table && Oshkosh in m.table;
  }

  lemma RenderSmallKey()
    ensures IntToDecimal(2134) == "2134"
    ensures PaddedKey(KInt(2134)) == "02134"
  {
    assert NatToDecimal(2134) == "2134" by {
      assert NatToDecimal(2) == "2";
      assert NatToDecimal(21) == "21";
      assert NatToDecimal(213) == "213";
    }
  }

  /** As written, `db[2134]` misses the 02134 record. */
  lemma IntKeyLeadingZeroMisses()
    ensures GetItem(Db(), KInt(2134)).result == Err(IndexError("2134"))
  {
    RenderSmallKey();
    var m := Db();
    assert forall row :: row in m.table ==> |row.0| == 5;
    GetItemSmallIntMisses(m, 2134);
  }

  /** The first fixture row with zip 02134 is the Allston row. */
  lemma FirstRowOf02134(i: int)
    requires FirstMatchAt(Fixture, FixtureLike, ZipQuery("02134"), i)
    ensures i == 3
  {
    assert Fixture[0].0[0] == '5' && Fixture[1].0[0] == '5' && Fixture[2].0[0] == '5';
  }

  /** With the key zero-filled, `db[2134]` finds the 02134 record. */
  lemma IntKeyLeadingZeroPadded()
    ensures GetItemPadded(Db(), KInt(2134)).result == Ok(FromRow(Allston))
  {
    RenderSmallKey();
    var m := Db();
    assert m.table == Fixture;
    assert Fixture[3] == Allston && Allston.0 == "02134";
    var r := GetItemPadded(m, KInt(2134)).result;
    assert r == GetItem(m, KStr("02134")).result;
    assert r.Ok?;
    var i :| FirstMatchAt(Fixture, m.like, ZipQuery("02134"), i) && Fixture[i] == ToRow(r.value);
    FirstRowOf02134(i);
    ToRowRoundTrip(r.value);
  }
}
