/** The record model: one `ZipCodes` row and the `ZipCode` value built from it,
    and `format_result`, which turns a fetched row list into records or `None`.

    A row is positional, like the tuples the database cursor returns, with the
    column types of the `ZipCodes` table: zip, city, state, longitude, latitude,
    timezone, dst.
 */
module Records {
  import opened Wrappers

  type Row = (string, string, string, real, real, int, int)

  /** `ZipCode`: the named view of one row. */
  datatype ZipCode = ZipCode(
    zip: string,
    city: string,
    state: string,
    longitude: real,
    latitude: real,
    timezone: int,
    dst: int)

  /** The row a record was built from, column by column. */
  function ToRow(z: ZipCode): Row {
    (z.zip, z.city, z.state, z.longitude, z.latitude, z.timezone, z.dst)
  }

  /** `ZipCode(data)`: fields taken from positions 0..6 of the row. Nothing is
      lost, so the row can be recovered from the record. */
  function FromRow(row: Row): (z: ZipCode)
    ensures ToRow(z) == row
  {
    ZipCode(row.0, row.1, row.2, row.3, row.4, row.5, row.6)
  }

  lemma ToRowRoundTrip(z: ZipCode)
    ensures FromRow(ToRow(z)) == z
  {
  }

  /** `[ZipCode(zc) for zc in zips]`: one record per row, in row order. */
  function Materialize(rows: seq<Row>): (zs: seq<ZipCode>)
    ensures |zs| == |rows|
    ensures forall i :: 0 <= i < |rows| ==> ToRow(zs[i]) == rows[i]
  {
    if rows == [] then [] else [FromRow(rows[0])] + Materialize(rows[1..])
  }

  /** A record is in the materialized list exactly when its row was fetched. */
  lemma MaterializeMembers(rows: seq<Row>, z: ZipCode)
    ensures z in Materialize(rows) <==> ToRow(z) in rows
  {
    var zs := Materialize(rows);
    if z in zs {
      var i :| 0 <= i < |zs| && zs[i] == z;
      assert ToRow(z) == rows[i];
    }
    if ToRow(z) in rows {
      var i :| 0 <= i < |rows| && rows[i] == ToRow(z);
      assert ToRow(zs[i]) == ToRow(z);
      ToRowRoundTrip(zs[i]);
      ToRowRoundTrip(z);
    }
  }

  /** Each record occurs in the materialized list as often as its row was fetched. */
  lemma {:induction false} MaterializeMultiset(rows: seq<Row>, z: ZipCode)
    ensures multiset(Materialize(rows))[z] == multiset(rows)[ToRow(z)]
  {
    if rows != [] {
      var h, t := rows[0], rows[1..];
      MaterializeMultiset(t, z);
      assert rows == [h] + t;
      assert multiset(rows) == multiset{h} + multiset(t);
      assert multiset(Materialize(rows)) == multiset{FromRow(h)} + multiset(Materialize(t));
      ToRowRoundTrip(z);
      assert FromRow(h) == z <==> h == ToRow(z);
    }
  }

  /** The records of a `format_result` value; `None` contributes none. */
  function RecordsOf(r: Option<seq<ZipCode>>): seq<ZipCode> {
    r.GetOr([])
  }

  /** `format_result(zips)`: `None` for no rows, otherwise the rows as records,
      same length and order, record i built from row i. */
  function FormatResult(rows: seq<Row>): (r: Option<seq<ZipCode>>)
    ensures r.None? <==> |rows| == 0
    ensures r.Some? ==> |r.value| == |rows|
    ensures r.Some? ==> forall i :: 0 <= i < |rows| ==>
      && r.value[i].zip == rows[i].0
      && r.value[i].city == rows[i].1
      && r.value[i].state == rows[i].2
      && r.value[i].longitude == rows[i].3
      && r.value[i].latitude == rows[i].4
      && r.value[i].timezone == rows[i].5
      && r.value[i].dst == rows[i].6
  {
    if |rows| > 0 then Some(Materialize(rows)) else None
  }

  /** Whatever `format_result` returns, its records are exactly the rows. */
  lemma FormatResultMembers(rows: seq<Row>, z: ZipCode)
    ensures z in RecordsOf(FormatResult(rows)) <==> ToRow(z) in rows
  {
    MaterializeMembers(rows, z);
  }
}
