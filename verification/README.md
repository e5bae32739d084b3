# pyzipcode lookup layer in Dafny

This project models the query layer of `pyzipcode`, a zip code lookup package
backed by one SQLite table, `ZipCodes`. That table has the columns zip, city,
state, longitude, latitude, timezone and dst. The model covers:

- the `ZipCode` record and `format_result`, which turns fetched rows into
  records and turns "no rows" into `None`;
- `ZipCodeDatabase.get` (exact match on zip), `__getitem__` (indexed access
  with `str(key)`, raising `IndexError`), `find_zip` (city/state search with
  the `%` wildcard and upper-casing), and `get_zipcodes_around_radius`
  (anchor lookup, then an inclusive bounding-box query);
- `ConnectionManager.query`, including its bounded retry loop.

The storage is abstracted away:

- The table is a `seq` of typed 7-tuples (`Records.Row`).
- Each of the three SQL constants is a `Store.Query` value.
- Running a query (`Store.Execute`) keeps the rows its WHERE clause accepts, in table order.
- `LIKE` is a parameter (`Store.Like`). Where a property needs it, the only assumption is that `%` matches every string.
- Whether opening the database succeeds is an oracle, `connect(call, attempt)`: call n of an operation is its n-th query.

Every public operation returns a `Lookup.Response`. It holds the Python outcome (a value, or a raised error as `Wrappers.Error`) and the list of queries the operation sent. So "sends no range query" is a statement about that list.

Modules:

- `Wrappers`: Option, Result, the error kinds.
- `PyStr`: `str.upper()` on ASCII, and `str()` of an integer.
- `Records`: the record model.
- `Store`: the table and its queries.
- `Radius`: the search box.
- `Connection`: the retry loop and `query`.
- `Lookup`: `ZipCodeDatabase`.
- `Scenario`: the package's own test cases, stated as lemmas over a four-row fixture table.

Behaviour of the code that a reader might not expect, and that the model follows:

- Neither `get` nor `__getitem__` zero-pads its key. `__getitem__` only applies `str()` (see Findings).
- `find_zip` upper-cases only the query pattern. Stored city and state values keep their case, so a mixed-case stored "De Pere" is matched only through `LIKE`'s own case-insensitivity. The model leaves that to the abstract `LIKE`.
- A missing key in indexed access raises `IndexError`. A failed connection raises `sqlite3.OperationalError` ("Can't connect"). The model calls these `IndexError` and `CantConnect`.
- No rows gives `None`, not an empty list.

The box divisors (`Radius.LonDivisor`, `Radius.LatDivisor`) divide the radius by 69 for longitude and by 49 for latitude, as the code does. Near 45° of latitude, a degree of latitude is about 69 miles and a degree of longitude about 49 miles. So the box is narrower east–west and taller north–south than a true radius. The model keeps the code's assignment.

## Model

| member | source | states |
|---|---|---|
| Records.FromRow | pyzipcode/__init__.py:74-81 | a record takes its seven fields from positions 0..6 of the row, and the row can be recovered from it unchanged |
| Records.Materialize | pyzipcode/__init__.py:90 | the list comprehension gives one record per row, the same length, record i built from row i |
| Records.MaterializeMembers | pyzipcode/__init__.py:90 | a record is in the list exactly when its row was fetched |
| Records.MaterializeMultiset | pyzipcode/__init__.py:90 | each record occurs as often as its row was fetched |
| Records.FormatResult | pyzipcode/__init__.py:84-92 | `None` exactly when there are no rows; otherwise a list of the same length and order whose element i has zip, city, state, longitude, latitude, timezone, dst from positions 0..6 of row i |
| Records.FormatResultMembers | pyzipcode/__init__.py:84-92 | the records of a `format_result` value are exactly the fetched rows, and `None` has none |
| Store.Matches | pyzipcode/__init__.py:58-66 | the WHERE clauses of the three queries; what they select is stated by `Store.Execute` and, for the range query, by `Radius.RangeQueryMatchesBox` |
| Store.Execute | pyzipcode/__init__.py:58-66 | a query returns only table rows that its WHERE clause accepts, and every accepted row, each as often as it occurs in the table |
| Store.ExecuteAll | pyzipcode/__init__.py:66 | a query that accepts every row returns the whole table in order |
| Store.ExecuteMonotone | pyzipcode/__init__.py:59-65 | a query that accepts more rows returns a super-multiset and at least as many rows |
| Store.ExecuteHead | pyzipcode/__init__.py:48-53 | the first row returned is the first row of the table the query accepts |
| Radius.SearchBox | pyzipcode/__init__.py:127-134 | the box is centred on the anchor, `2 * radius / 69` degrees wide and `2 * radius / 49` degrees high, and its bounds are in order exactly when the radius is not negative |
| Radius.InSearchBoxIff | pyzipcode/__init__.py:127-134 | a point is in the box exactly when it is within radius/69 degrees of longitude and radius/49 degrees of latitude of the anchor, edges included |
| Radius.RangeQueryMatchesBox | pyzipcode/__init__.py:59-65 | the range query with the box's four bounds accepts exactly the rows in the box (`>=` and `<=`) |
| Radius.AnchorInBox | pyzipcode/__init__.py:127-134 | for a radius >= 0 the anchor's own coordinates are in its box |
| Radius.NegativeRadiusEmpty | pyzipcode/__init__.py:127-134 | a negative radius gives a box that contains no point |
| Radius.BoxGrows | pyzipcode/__init__.py:127-134 | the box for a larger radius contains the box for a smaller one |
| Connection.AcquireFrom | pyzipcode/__init__.py:34-41 | from a given retry count the loop stops at the first attempt that connects, and gives up after attempt 10 when none of the rest does |
| Connection.Acquire | pyzipcode/__init__.py:32-41 | a connection is obtained exactly when one of attempts 0..10 succeeds, and it is the first successful attempt |
| Connection.ConnectWithRetry | pyzipcode/__init__.py:32-46 | at most 11 attempts, stopping at the first success; on exit either a connection exists or the retry count is 11, and the loop gives up exactly when all 11 attempts fail |
| Connection.RunQuery | pyzipcode/__init__.py:20-55 | the "can't connect" error, carrying the database location, is raised exactly when all 11 attempts fail; otherwise the result is the rows the query selects |
| Connection.Query | pyzipcode/__init__.py:32-55 | the loop followed by the `not conn and retry_count > 10` check raises exactly when the retries are exhausted, and otherwise returns the query's rows |
| Lookup.Fetch | pyzipcode/__init__.py:136-141 | `format_result` of a query gives `None` exactly when no table row matches, and otherwise exactly the matching rows as records, each as often as the table holds its row; the connection error carries the database location |
| Lookup.Get | pyzipcode/__init__.py:160-164 | sends only the exact-match query with the zip code as its one parameter; `None` exactly when no row has that zip; otherwise exactly the records with that zip, each as often as the table holds its row |
| Lookup.GetItem | pyzipcode/__init__.py:166-171 | looks up `str(key)`; raises `IndexError` exactly when no row has that zip; otherwise returns the first record, whose zip is `str(key)` |
| Lookup.GetItemSmallIntMisses | pyzipcode/__init__.py:166-169 | an integer key below 10000 finds nothing in a table of five-character zips and raises `IndexError` |
| Lookup.PaddedKey | pyzipcode/__init__.py:167 | a natural integer key below 100000, zero-filled, is five digits |
| Lookup.GetItemPadded | pyzipcode/__init__.py:166-171 | indexed access with a zero-filled key sends that key and returns only a record with that zip |
| Lookup.GetItemPaddedFindsEveryZip | pyzipcode/__init__.py:166-171 | with zero-fill, every five-digit zip in the table is found by its integer value |
| Lookup.Pattern | pyzipcode/__init__.py:148-156 | an omitted filter becomes `%`; a given filter becomes a pattern that differs from it only in letter case and has no lower-case letter |
| Lookup.FindZip | pyzipcode/__init__.py:143-158 | sends one LIKE query with the normalised city and state patterns; raises the connection error, carrying the location, exactly when every attempt fails; `None` exactly when no row's city and state are LIKE those patterns; otherwise exactly those records, each as often as the table holds its row |
| Lookup.FindZipIgnoresCase | pyzipcode/__init__.py:143-158 | calls whose filters differ only in letter case send identical parameters and get identical results |
| Lookup.FindZipNoFiltersIsEverything | pyzipcode/__init__.py:148-158 | with no filters, when `%` matches everything, the result is every record of the table in order |
| Lookup.BoxSearch | pyzipcode/__init__.py:125-141 | the range query around an anchor gives `None` exactly when no row lies in the anchor's box, otherwise exactly the records inside it, each as often as the table holds its row; or the connection error with the location |
| Lookup.AroundRadius | pyzipcode/__init__.py:113-141 | raises `ZipNotFoundException` when the anchor lookup yields `None`, and then sends no range query; otherwise sends the range query for the first anchor record's box |
| Lookup.AroundRadiusIncludesAnchor | pyzipcode/__init__.py:122-141 | for a radius >= 0, a successful search returns the anchor record |
| Lookup.AroundRadiusNegative | pyzipcode/__init__.py:125-141 | for a negative radius, a successful search returns `None` |
| Lookup.BoxSearchMonotone | pyzipcode/__init__.py:127-141 | for a fixed anchor, a larger radius finds every record a smaller one finds, at least as often |
| Lookup.AroundRadiusMonotone | pyzipcode/__init__.py:113-141 | radius search results never shrink as the radius grows |
| PyStr.Upper | pyzipcode/__init__.py:151 | upper-casing keeps the length and maps each character to its capital |
| PyStr.UpperEqualIff | pyzipcode/__init__.py:151 | two strings upper-case to the same string exactly when they differ only in letter case |
| PyStr.UpperIdempotent | pyzipcode/__init__.py:156 | an upper-cased string has no lower-case letter, and upper-casing it again changes nothing |
| PyStr.NatToDecimal | pyzipcode/__init__.py:167 | `str` of a natural number is a non-empty digit string without leading zeros |
| PyStr.DecimalRoundTrip | pyzipcode/__init__.py:167 | reading the decimal rendering of n back gives n |
| PyStr.IntToDecimal | pyzipcode/__init__.py:167 | `str` of an int is its digits, after a `-` exactly when it is negative, and the digits read back as its absolute value |
| PyStr.Str | pyzipcode/__init__.py:167 | `str(key)` leaves a string key unchanged and renders an integer key as decimal digits that read back as the key |
| PyStr.IntToDecimalInjective | pyzipcode/__init__.py:167 | different integers never render as the same key |
| PyStr.ZeroFill5 | pyzipcode/__init__.py:167 | `zfill(5)` of the corrected key: at least five characters, ending with the original string, and a digit string keeps its value |
| PyStr.ZeroFillRoundTrip | pyzipcode/__init__.py:167 | rendering the value of a five-digit string and zero-filling it gives the string back |
| Scenario.RetrievesZipCodeInformation | test_pyzipcode.py:6-10 | `db["54115"]` is the De Pere, WI record |
| Scenario.IntKeyRendersAsZip | test_pyzipcode.py:12-14 | `db[54115]` looks up the key "54115" |
| Scenario.AnchorIsDePere | test_pyzipcode.py:28-30 | the anchor of the search around 54115 is the De Pere record |
| Scenario.RadiusFindsNeighbour | test_pyzipcode.py:28-30 | the 30-mile search around 54115 includes 54304 |
| Scenario.FindByCity | test_pyzipcode.py:32-34 | `find_zip(city="De Pere")` returns exactly the 54115 record |
| Scenario.FindByState | test_pyzipcode.py:40-43 | `find_zip(state="WI")` includes 54304 and 54901 |
| Scenario.IntKeyLeadingZeroMisses | pyzipcode/__init__.py:166-169 | `db[2134]` raises `IndexError` although zip 02134 is in the table |
| Scenario.IntKeyLeadingZeroPadded | pyzipcode/__init__.py:166-171 | with zero-fill, `db[2134]` returns the 02134 record |

## Left out

- The SQLite driver: `sqlite3.connect`, cursors, `execute`, `fetchall`, `close`. These are I/O. Each query is a filter over the abstract table.
- The 1 ms `time.sleep` between connect attempts. It is timing only.
- Errors raised by `cursor.execute` once connected, such as a missing table. They come from the driver.
- `ConnectionManager.__init__` (one test connection with no retry) and `ZipCodeDatabase.__init__` (choosing a default manager). These are construction-time I/O. The model starts from a ready `Manager`.
- The SQL text of the three constants. Each is represented by the WHERE clause it encodes and by its parameter list, in placeholder order.
- Row order. Without `ORDER BY`, SQLite promises none. The model uses table order.
- `NULL` column values. The importer writes every column, so rows are typed tuples with no missing fields.
- Store.Like: exact `LIKE` semantics are not modelled. That covers ASCII case folding, `_`, and `%` inside a longer pattern. Only "`%` matches everything" is assumed, and only where stated.
- PyStr.Upper: changes ASCII letters only. Python's full Unicode case mapping, including mappings that change length, is not modelled.
- PyStr.Str: only `str` and `int` keys are modelled. Other key types go through Python's general `str()`, which is not modelled.
- Lookup.Get: the key is a string. A non-string key passed straight to `get` would rely on SQLite type affinity, which is not modelled.
- Lookup.AroundRadius: the radius is already a real. `float(radius)` on other Python values is not modelled.
- Floating-point rounding in the box bounds. Coordinates and radius are reals.
- The text of error messages. Errors carry the values their messages are formatted from.
- The connect oracle fixes, for each query of an operation, which attempts succeed. Behaviour that changes between operations is expressed by using different managers.
- The `len`/`keys`/`values`/`items` protocol that `test_pyzipcode.py:45-50` exercises. `ZipCodeDatabase` defines no `__len__`, `keys`, `values` or `items`.
- `pyzipcode/import_zipcodes.py`: a CSV-to-SQLite batch import, which is I/O plumbing. Only its table layout is used here.
- `pyzipcode/update_timezones.py`: glue over external timezone libraries, plus a file rewrite.
- `pyzipcode/settings.py` and `setup.py`: path constants and packaging, with no logic.

## Findings

| source | as written | input that shows it | evidently intended | confidence | as-written member | corrected member |
|---|---|---|---|---|---|---|
| pyzipcode/__init__.py:166-169 | `self.get(str(zipcode))`: an integer key is rendered without its leading zeros | `db[2134]` with a row for zip "02134" raises `IndexError` | integer keys name five-digit zips, `str(zipcode).zfill(5)`, so every zip is reachable by its integer value | medium, not executed | Lookup.GetItemSmallIntMisses | Lookup.GetItemPaddedFindsEveryZip |
