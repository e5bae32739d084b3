/** The bounding box of a radius search.

    A radius in miles becomes a half-width of `radius / 69` degrees of
    longitude and `radius / 49` degrees of latitude around the anchor, and the
    box includes its edges. Coordinates and radius are reals: floating-point
    rounding is not modelled.
 */
module Radius {
  import opened Records
  import opened Store

  /** The divisors that turn the radius into a half-width in degrees, one
      per axis. */
  const LonDivisor: real := 69.0
  const LatDivisor: real := 49.0

  datatype Box = Box(lonMin: real, lonMax: real, latMin: real, latMax: real)

  /** `long_range` and `lat_range` of `get_zipcodes_around_radius`: a box
      centred on the anchor, `2 * radius / 69` wide and `2 * radius / 49`
      high, so a negative radius gives lower bounds above upper bounds. */
  function SearchBox(longitude: real, latitude: real, radius: real): (b: Box)
    ensures b.lonMin + b.lonMax == 2.0 * longitude && b.latMin + b.latMax == 2.0 * latitude
    ensures b.lonMax - b.lonMin == 2.0 * radius / LonDivisor
    ensures b.latMax - b.latMin == 2.0 * radius / LatDivisor
    ensures b.lonMin <= b.lonMax <==> radius >= 0.0
    ensures b.latMin <= b.latMax <==> radius >= 0.0
  {
    Box(longitude - radius / LonDivisor, longitude + radius / LonDivisor,
        latitude - radius / LatDivisor, latitude + radius / LatDivisor)
  }

  /** The range query sent for a box: its four bounds, in placeholder order. */
  function RangeQuery(b: Box): (q: Query)
    ensures q.ZipRangeQuery?
  {
    ZipRangeQuery(b.lonMin, b.lonMax, b.latMin, b.latMax)
  }

  predicate InBox(b: Box, longitude: real, latitude: real) {
    b.lonMin <= longitude <= b.lonMax && b.latMin <= latitude <= b.latMax
  }

  function Abs(x: real): real {
    if x < 0.0 then -x else x
  }

  /** The box is centred on the anchor with half-widths radius/69 and
      radius/49, edges included: a point is in it exactly when it is that
      close to the anchor on each axis. */
  lemma InSearchBoxIff(longitude: real, latitude: real, radius: real, x: real, y: real)
    ensures InBox(SearchBox(longitude, latitude, radius), x, y) <==>
      Abs(x - longitude) <= radius / LonDivisor && Abs(y - latitude) <= radius / LatDivisor
  {
  }

  /** The range query accepts exactly the rows whose coordinates lie in the box. */
  lemma RangeQueryMatchesBox(b: Box, like: Like, row: Row)
    ensures Matches(RangeQuery(b), like, row) <==> InBox(b, row.3, row.4)
  {
  }

  /** For a non-negative radius the anchor lies in its own box. */
  lemma AnchorInBox(longitude: real, latitude: real, radius: real)
    requires radius >= 0.0
    ensures InBox(SearchBox(longitude, latitude, radius), longitude, latitude)
  {
  }

  /** A negative radius gives an inverted box that holds no point at all. */
  lemma NegativeRadiusEmpty(longitude: real, latitude: real, radius: real, x: real, y: real)
    requires radius < 0.0
    ensures !InBox(SearchBox(longitude, latitude, radius), x, y)
  {
  }

  /** The box for a larger radius contains the box for a smaller one. */
  lemma BoxGrows(longitude: real, latitude: real, r1: real, r2: real, x: real, y: real)
    requires r1 <= r2
    requires InBox(SearchBox(longitude, latitude, r1), x, y)
    ensures InBox(SearchBox(longitude, latitude, r2), x, y)
  {
  }
}
