/** Records shared by the point table and the nearest-point ranking (main.go:29-34). */
module Points {

  /** A (latitude, longitude) pair, as returned by randLatLngFromCenter. */
  datatype Coord = Coord(lat: real, long: real)

  /** The `point` struct. `dist` is in metres and is only meaningful in a ranked copy;
      records kept in the table leave it at its zero value. */
  datatype Point = Point(namePoint: string, lat: real, long: real, dist: real)

  /** The coordinate generator: the j-th call of randLatLngFromCenter in one pass yields
      `gen(j)`. The random draw and its float arithmetic are not modelled. */
  type Generator = nat -> Coord

  /** The haversine function, kept abstract, with the source's argument order
      `distance(lat1, lat2, lon1, lon2)`. */
  type Distance = (real, real, real, real) -> real

  /** The only runtime failure of the core: `nearby[:5]` on fewer than five points. */
  datatype Error = SliceOutOfRange

  datatype Result<T> = Ok(value: T) | Err(error: Error)

  /** The record that initPoints and the refresh pass store under key `k`:
      `namePoint` is the key, `dist` keeps its zero value. */
  function Stored(k: string, c: Coord): Point
  {
    Point(k, c.lat, c.long, 0.0)
  }

  /** The copy of `p` that getClosestPoint appends to `nearby` (main.go:82-87). */
  function Ranked(p: Point, q: Coord, distance: Distance): Point
  {
    Point(p.namePoint, p.lat, p.long, distance(p.lat, q.lat, p.long, q.long))
  }
}
