# Nearest points over a refreshed point table

A Dafny model of the sequential core of `main.go` in distance-by-two-coordinates. The
program keeps a table `tempMem` of 1000 geographic points keyed by identifiers
"P0001".."P1000". A background pass rewrites every point's coordinates every few
seconds, and a client loop asks for the five points nearest to a random location. It
computes a haversine distance to every point, sorts by distance and prints the first five.
When the run ends, `flush` empties the table.

The model has four modules:

- `Points` (`points.dfy`): the `point` record with its fields `namePoint`, `lat`, `long`
  and `dist`, a coordinate pair, and the `Result` type for the one runtime failure.
  Coordinates and distances are `real`s.
- `PointIds` (`point_ids.dfy`): the identifier format `fmt.Sprintf("P%04s", fmt.Sprint(i))`
  as string functions. It proves that the index can be read back from the identifier, so
  distinct indices give distinct identifiers, and that indices 1..9999 give "P" and four
  digits.
- `Ranking` (`ranking.dfy`): the `sort.Slice` call as an in-place sort of an `array`,
  proved sorted by `dist` and a permutation of its input, and the truncation `nearby[:5]`
  as a `Result` that fails on fewer than five points.
- `PointStore` (`point_store.dfy`): the table as a class `PointTable` with one field,
  `entries: map<string, Point>`. It has the methods `InitPoints`, `Refresh`, `Flush`,
  `Collect` and `ClosestPoints`. Each one that walks the table is a loop over its keys
  in an arbitrary order, because `sync.Map.Range` promises no order. The method returns
  that order as a ghost out-parameter. `Lifecycle` runs the main sequence: init, refresh,
  query, flush, query.

Two things are parameters instead of code. `randLatLngFromCenter` becomes a
`Generator`: the j-th call in a pass returns `gen(j)`. The haversine `distance` becomes a
`Distance` function, applied in the source's argument order
`distance(lat1, lat2, lon1, lon2)`. The properties proved hold whatever those two
functions return, because only the ordering of distances and the identity of keys matter.

The object invariant `PointTable.Valid()` says that every stored record is named by its
key and keeps `dist` at its zero value. The constructor establishes it, `Refresh` and
`Flush` establish it from any state, and `InitPoints` preserves it. `InitPoints` requires
it, so the table it runs on is one these operations produced.

## Model

| member | source | states |
|---|---|---|
| `PointIds.Decimal_Value` | main.go:41 | `fmt.Sprint(i)` writes only decimal digits, and they denote `i` |
| `PointIds.PointId_RoundTrip` | main.go:41 | the index `i` can be read back from the identifier `"P%04s"` builds, whatever its width |
| `PointIds.PointId_Injective` | main.go:41 | two indices give the same identifier exactly when they are equal |
| `PointIds.PointId_Shape` | main.go:41 | for 1 <= i <= 9999 the identifier is five characters: 'P' and four digits (zero padded) |
| `PointIds.PointId_Examples` | main.go:39-41 | the identifiers for 1, 42 and 1000 are "P0001", "P0042" and "P1000" |
| `PointStore.Seeded_Keys` | main.go:38-48 | the keys initPoints' loop stores are exactly `PointId(1)`..`PointId(n)` |
| `PointStore.Seeded_Fresh` | main.go:39-42 | the key of a later iteration is not yet in the table, so no store overwrites an earlier one |
| `PointStore.Seeded_Size` | main.go:38-48 | the loop creates exactly `n` entries |
| `PointStore.Seeded_Entries` | main.go:39-46 | entry `PointId(i)` holds draw `i - 1` of the generator, named by its key, with zero `dist` |
| `PointStore.Seeded_WellFormed` | main.go:42-46 | every record initPoints stores has `namePoint` equal to its key and a zero `dist` |
| `PointStore.Seeded_Union` | main.go:38-48 | on a well-formed table, the first `n` stores of initPoints keep it well formed and add exactly `PointId(1)`..`PointId(n)` to the key set; on an empty table they leave exactly `n` entries |
| `PointStore.IdsUpTo_Shape` | main.go:41 | every identifier of the initial table is 'P' and four digits |
| `PointStore.Collected_Copies` | main.go:80-91 | the scan has one element per table entry, contains the annotated copy of every entry, and contains nothing else |
| `PointStore.Collected_Distinct` | main.go:80-91 | on a table whose records are named by their keys, no two collected copies are equal |
| `PointStore.Selected_Copies` | main.go:80-101 | anything selected from the scan is an annotated copy of a table entry |
| `PointStore.PointTable.constructor` | main.go:36 | the zero-value `sync.Map` is an empty, valid table |
| `PointStore.PointTable.InitPoints` | main.go:38-48 | the new table is the old one overlaid with 1000 stores of `PointId(i)` and draw `i - 1`; the invariant holds; the key set grows by exactly P0001..P1000; from empty, 1000 entries |
| `PointStore.PointTable.Refresh` | main.go:56-64 | one pass visits every key once; the key set and the count are unchanged; the j-th visited key now holds draw j, named by the key, with zero `dist` |
| `PointStore.PointTable.Flush` | main.go:154-159 | the table is empty afterwards |
| `PointStore.PointTable.Collect` | main.go:76-91 | the scan visits every key exactly once and returns one annotated copy per entry, `dist` set to the distance from the query |
| `PointStore.PointTable.ClosestPoints` | main.go:75-105 | fails with the slice-bounds error exactly when fewer than five points are stored; otherwise reports five annotated copies of table entries, drawn from the scan, ascending by `dist`, and none of the unreported points is closer than any reported one |
| `Ranking.SortByDist` | main.go:93-95 | the array ends up non-decreasing in `dist` and is a permutation of what it held |
| `Ranking.Report` | main.go:101 | `nearby[:5]` succeeds exactly when at least five points were collected |
| `Ranking.Report_Nearest` | main.go:93-101 | on a sorted list the report is five of its points, ascending, and every point left out has a `dist` at least that of every point reported |
| `Ranking.Prefix_Nearest` | main.go:101 | the same, for any prefix of a sorted list |
| `PointStore.Lifecycle` | main.go:161-193 | after initPoints and a refresh pass a query reports five points, all named P0001..P1000; after flush, a query fails with the slice-bounds error |

## Left out

- Concurrency: goroutines, `sync.Map`'s thread safety, `sync.WaitGroup` and the
  sleep-based schedule (main.go:51-72, main.go:161-193). The table is single-threaded, so
  a query here sees one state of the table. In the source a query can overlap a refresh
  pass and mix refreshed and unrefreshed points, and a query that overlaps `flush` can see
  fewer than five points.
- The fixed-interval loops: the infinite refresh loop and the client loop. `Refresh` models
  one pass, `ClosestPoints` one call of getClosestPoint.
- Random point generation (randLatLngFromCenter, main.go:109-127), including the per-call
  reseeding and the metre/degree conversion. It is the `Generator` parameter. The center
  constants `latitude`, `longitude` and `centerRadius` only feed this generator.
- The haversine formula (main.go:131-151). It is the `Distance` parameter. Float64
  behaviour is not modelled: distances are `real`s, so a NaN from `math.Asin` on rounding
  error, which would break `sort.Slice`'s ordering, cannot arise in the model.
- Console output of getClosestPoint (main.go:98-104), including the km conversion
  `v.dist/1000` and the query point printout.
- The algorithm inside `sort.Slice`: it is a library call, not part of the source. The
  model sorts by insertion and promises only what `sort.Slice` does with that
  `less`: sorted by `dist` and a permutation. It is not stable and has no identifier
  tiebreak, so any order of equal distances is allowed.
- `PointStore.PointTable.ClosestPoints`: Go checks `nearby[:5]` against the slice's
  capacity, not its length. The model fails when fewer than five points were collected.
  Both agree for a slice grown by `append` from empty: while it holds at most four points
  it has capacity 4 or less.
- `PointIds.PointId`: the model reads `%04s` as padding with zeros, which gives
  "P0001".."P1000". Whether Go's `0` flag pads a string with zeros or is ignored for
  strings has differed between Go releases, and the model does not capture the
  space-padded form.
- Per-key `Upsert` and `Delete` as separate operations, and a snapshot type: the source
  has neither outside the loops modelled here.
