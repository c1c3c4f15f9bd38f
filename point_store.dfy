/** The point table `tempMem` and the operations of main.go that touch it: initPoints,
    the refresh pass of pointsMover, flush, and the scan of getClosestPoint. The
    `sync.Map` is modelled as a single-threaded `map<string, Point>`. */
module PointStore {
  import opened Points
  import opened PointIds
  import opened Ranking

  /** How many points initPoints creates. */
  const PointCount: nat := 1000

  /** No key occurs twice. */
  predicate Distinct(s: seq<string>)
  {
    forall x, y :: 0 <= x < y < |s| ==> s[x] != s[y]
  }

  /** `order` visits every key of `keys` exactly once: one `Range` pass. */
  ghost predicate IsOrdering(order: seq<string>, keys: set<string>)
  {
    && Distinct(order)
    && |order| == |keys|
    && (forall k :: k in order <==> k in keys)
  }

  /** The table after the first `n` iterations of initPoints' loop, starting from an
      empty table: iteration `i` (from 1) stores draw `i - 1` under `PointId(i)`. */
  function Seeded(gen: Generator, n: nat): map<string, Point>
  {
    if n == 0 then map[] else Seeded(gen, n - 1)[PointId(n) := Stored(PointId(n), gen(n - 1))]
  }

  /** The identifiers "P0001" .. the `n`-th. */
  ghost function IdsUpTo(n: nat): set<string>
  {
    set i | 1 <= i <= n :: PointId(i)
  }

  /** The `nearby` list built by the scan when it visits the keys in `order`. */
  function Collected(m: map<string, Point>, order: seq<string>, q: Coord, distance: Distance): seq<Point>
    requires forall k :: k in order ==> k in m
  {
    seq(|order|, i requires 0 <= i < |order| => Ranked(m[order[i]], q, distance))
  }

  /** The keys initPoints stores are exactly the first `n` identifiers. */
  lemma {:induction false} Seeded_Keys(gen: Generator, n: nat)
    ensures Seeded(gen, n).Keys == IdsUpTo(n)
  {
    if n > 0 {
      Seeded_Keys(gen, n - 1);
      assert IdsUpTo(n) == IdsUpTo(n - 1) + {PointId(n)};
    }
  }

  /** initPoints creates `n` entries: no identifier is stored twice. */
  lemma {:induction false} Seeded_Size(gen: Generator, n: nat)
    ensures |Seeded(gen, n)| == n
  {
    if n > 0 {
      Seeded_Size(gen, n - 1);
      Seeded_Fresh(gen, n - 1, n);
    }
  }

  /** A later iteration's identifier is not yet in the table. */
  lemma {:induction false} Seeded_Fresh(gen: Generator, n: nat, i: nat)
    requires n < i
    ensures PointId(i) !in Seeded(gen, n)
  {
    if n > 0 {
      Seeded_Fresh(gen, n - 1, i);
      PointId_Injective(i, n);
    }
  }

  /** Entry `PointId(i)` holds draw `i - 1`. */
  lemma {:induction false} Seeded_Entries(gen: Generator, n: nat)
    ensures forall i :: 1 <= i <= n ==>
              PointId(i) in Seeded(gen, n) && Seeded(gen, n)[PointId(i)] == Stored(PointId(i), gen(i - 1))
  {
    if n > 0 {
      Seeded_Entries(gen, n - 1);
      forall i | 1 <= i <= n
        ensures PointId(i) in Seeded(gen, n) && Seeded(gen, n)[PointId(i)] == Stored(PointId(i), gen(i - 1))
      {
        PointId_Injective(i, n);
      }
    }
  }

  /** Every record initPoints stores is named by its key and has a zero `dist`. */
  lemma {:induction false} Seeded_WellFormed(gen: Generator, n: nat)
    ensures WellFormed(Seeded(gen, n))
  {
    if n > 0 {
      Seeded_WellFormed(gen, n - 1);
    }
  }

  /** Every identifier the initial table holds is "P" and four digits. */
  lemma IdsUpTo_Shape(n: nat)
    requires n < 10000
    ensures forall k :: k in IdsUpTo(n) ==> |k| == 5 && k[0] == 'P' && AllDigits(k[1..])
  {
    forall k | k in IdsUpTo(n) ensures |k| == 5 && k[0] == 'P' && AllDigits(k[1..]) {
      var i :| 1 <= i <= n && k == PointId(i);
      PointId_Shape(i);
    }
  }

  /** The scan yields one annotated copy per table entry and nothing else. */
  lemma Collected_Copies(m: map<string, Point>, order: seq<string>, q: Coord, distance: Distance)
    requires IsOrdering(order, m.Keys)
    ensures |Collected(m, order, q, distance)| == |m|
    ensures forall k :: k in m ==> Ranked(m[k], q, distance) in Collected(m, order, q, distance)
    ensures forall p :: p in Collected(m, order, q, distance) ==> exists k :: k in m && p == Ranked(m[k], q, distance)
  {
    var c := Collected(m, order, q, distance);
    assert |m| == |m.Keys|;
    forall k | k in m ensures Ranked(m[k], q, distance) in c {
      var i :| 0 <= i < |order| && order[i] == k;
      assert c[i] == Ranked(m[k], q, distance);
    }
  }

  /** Any selection from the scan consists of copies of table entries. */
  lemma Selected_Copies(m: map<string, Point>, order: seq<string>, q: Coord, distance: Distance, top: seq<Point>)
    requires IsOrdering(order, m.Keys)
    requires multiset(top) <= multiset(Collected(m, order, q, distance))
    ensures forall i :: 0 <= i < |top| ==> exists k :: k in m && top[i] == Ranked(m[k], q, distance)
  {
    var c := Collected(m, order, q, distance);
    forall i | 0 <= i < |top|
      ensures exists k :: k in m && top[i] == Ranked(m[k], q, distance)
    {
      assert top[i] in multiset(top);
      assert top[i] in multiset(c);
      var j :| 0 <= j < |c| && c[j] == top[i];
      assert order[j] in m && top[i] == Ranked(m[order[j]], q, distance);
    }
  }

  /** When every record is named by its key, the copies are pairwise different, so each
      entry is collected exactly once. */
  lemma Collected_Distinct(m: map<string, Point>, order: seq<string>, q: Coord, distance: Distance)
    requires IsOrdering(order, m.Keys)
    requires forall k :: k in m ==> m[k].namePoint == k
    ensures forall x, y :: 0 <= x < y < |order| ==>
              Collected(m, order, q, distance)[x] != Collected(m, order, q, distance)[y]
  {
  }

  /** Every record is named by its key and keeps the zero `dist`. */
  ghost predicate WellFormed(m: map<string, Point>)
  {
    forall k :: k in m ==> m[k].namePoint == k && m[k].dist == 0.0
  }

  /** What initPoints leaves behind when it runs on the table `m`. */
  lemma Seeded_Union(m: map<string, Point>, gen: Generator, n: nat)
    requires WellFormed(m)
    ensures WellFormed(m + Seeded(gen, n))
    ensures (m + Seeded(gen, n)).Keys == m.Keys + IdsUpTo(n)
    ensures m == map[] ==> |m + Seeded(gen, n)| == n
  {
    var s := Seeded(gen, n);
    Seeded_WellFormed(gen, n);
    forall k | k in m + s ensures (m + s)[k].namePoint == k && (m + s)[k].dist == 0.0 {
      if k in s {
        assert (m + s)[k] == s[k];
      } else {
        assert (m + s)[k] == m[k];
      }
    }
    Seeded_Keys(gen, n);
    if m == map[] {
      Seeded_Size(gen, n);
      assert m + s == s;
    }
  }

  /** Storing into a union is storing into its right operand. */
  lemma StoreAfterUnion(m: map<string, Point>, s: map<string, Point>, k: string, v: Point)
    ensures (m + s)[k := v] == m + s[k := v]
  {
  }

  class PointTable {
    /** The contents of `tempMem`. */
    var entries: map<string, Point>

    /** What initPoints and the refresh pass maintain: every record is named by its key
        and keeps the zero `dist`. */
    ghost predicate Valid()
      reads this
    {
      WellFormed(entries)
    }

    /** The zero value of the `sync.Map`: empty. */
    constructor ()
      ensures Valid() && entries == map[]
    {
      entries := map[];
    }

    /** initPoints (main.go:38-48): for i from 1 to 1000, store a fresh draw under
        `PointId(i)`; existing entries under other keys stay. */
    method InitPoints(gen: Generator)
      requires Valid()
      modifies this
      ensures Valid()
      ensures entries == old(entries) + Seeded(gen, PointCount)
      ensures entries.Keys == old(entries).Keys + IdsUpTo(PointCount)
      ensures old(entries) == map[] ==> |entries| == PointCount
    {
      var i := 1;
      while i <= PointCount
        invariant 1 <= i <= PointCount + 1
        invariant entries == old(entries) + Seeded(gen, i - 1)
      {
        var c := gen(i - 1);
        var np := PointId(i);
        StoreAfterUnion(old(entries), Seeded(gen, i - 1), np, Point(np, c.lat, c.long, 0.0));
        entries := entries[np := Point(np, c.lat, c.long, 0.0)];
        i := i + 1;
      }
      Seeded_Union(old(entries), gen, PointCount);
    }

    /** One refresh pass of pointsMover (main.go:56-64): `Range` visits every key once, in
        an unspecified order returned as `order`, and overwrites its record with the next
        draw, named by the key. Keys and count are unchanged. */
    method Refresh(gen: Generator) returns (ghost order: seq<string>)
      modifies this
      ensures Valid()
      ensures IsOrdering(order, old(entries).Keys)
      ensures entries.Keys == old(entries).Keys && |entries| == old(|entries|)
      ensures forall j :: 0 <= j < |order| ==> entries[order[j]] == Stored(order[j], gen(j))
    {
      var remaining := entries.Keys;
      var drawn := 0;
      order := [];
      while remaining != {}
        invariant drawn == |order|
        invariant entries.Keys == old(entries).Keys
        invariant remaining <= entries.Keys
        invariant forall k :: k in order ==> k in entries && k !in remaining
        invariant forall k :: k in entries && k !in remaining ==> k in order
        invariant Distinct(order)
        invariant |order| + |remaining| == |entries|
        invariant forall j :: 0 <= j < |order| ==> entries[order[j]] == Stored(order[j], gen(j))
        invariant forall k :: k in entries && k !in remaining ==> entries[k].namePoint == k && entries[k].dist == 0.0
        decreases remaining
      {
        var k :| k in remaining;
        var c := gen(drawn);
        entries := entries[k := Point(k, c.lat, c.long, 0.0)];
        order, drawn := order + [k], drawn + 1;
        remaining := remaining - {k};
      }
      assert |entries| == |entries.Keys|;
    }

    /** flush (main.go:154-159): `Range` deletes every key it visits. */
    method Flush()
      modifies this
      ensures Valid() && entries == map[]
    {
      while entries != map[]
        decreases |entries|
      {
        var k :| k in entries;
        entries := entries - {k};
      }
    }

    /** The scan of getClosestPoint (main.go:76-91): one `Range` pass, in an unspecified
        order returned as `order`, appending an annotated copy of each record. */
    method Collect(q: Coord, distance: Distance) returns (nearby: seq<Point>, ghost order: seq<string>)
      ensures IsOrdering(order, entries.Keys)
      ensures nearby == Collected(entries, order, q, distance)
      ensures |nearby| == |entries|
    {
      var remaining := entries.Keys;
      nearby, order := [], [];
      while remaining != {}
        invariant remaining <= entries.Keys
        invariant forall k :: k in order ==> k in entries && k !in remaining
        invariant forall k :: k in entries && k !in remaining ==> k in order
        invariant Distinct(order)
        invariant |order| + |remaining| == |entries|
        invariant nearby == Collected(entries, order, q, distance)
        decreases remaining
      {
        var k :| k in remaining;
        var val := entries[k];
        nearby := nearby + [Point(val.namePoint, val.lat, val.long, distance(val.lat, q.lat, val.long, q.long))];
        order := order + [k];
        remaining := remaining - {k};
      }
      assert |entries| == |entries.Keys|;
    }

    /** getClosestPoint (main.go:75-105) for the query point `q`: collect, sort by `dist`,
        take the first five. Fails exactly when fewer than five points are stored. The
        five reported are copies of table entries, ascending, and none of the collected
        points left out is closer than any reported. */
    method ClosestPoints(q: Coord, distance: Distance) returns (r: Result<seq<Point>>, ghost order: seq<string>)
      ensures IsOrdering(order, entries.Keys)
      ensures r.Err? <==> |entries| < ReportSize
      ensures r.Err? ==> r.error == SliceOutOfRange
      ensures r.Ok? ==> |r.value| == ReportSize && SortedByDist(r.value)
      ensures r.Ok? ==> multiset(r.value) <= multiset(Collected(entries, order, q, distance))
      ensures r.Ok? ==> forall i :: 0 <= i < ReportSize ==>
                          exists k :: k in entries && r.value[i] == Ranked(entries[k], q, distance)
      ensures r.Ok? ==> forall p, i ::
                          p in multiset(Collected(entries, order, q, distance)) - multiset(r.value) && 0 <= i < ReportSize
                          ==> r.value[i].dist <= p.dist
    {
      var nearby;
      nearby, order := Collect(q, distance);
      var a := new Point[|nearby|](i requires 0 <= i < |nearby| => nearby[i]);
      assert a[..] == nearby;
      SortByDist(a);
      r := Report(a[..]);
      if r.Ok? {
        Report_Nearest(a[..]);
        Selected_Copies(entries, order, q, distance, r.value);
      }
    }
  }

  /** The sequential life of the table in `main` (main.go:161-193): initPoints, a refresh
      pass, a query, flush, and a query after flush. The first query reports five points;
      the one after flush hits the slice-bounds failure. */
  method Lifecycle(initGen: Generator, moveGen: Generator, q1: Coord, q2: Coord, distance: Distance)
    returns (before: Result<seq<Point>>, after: Result<seq<Point>>)
    ensures before.Ok? && |before.value| == ReportSize
    ensures before.Ok? ==> forall i :: 0 <= i < ReportSize ==> before.value[i].namePoint in IdsUpTo(PointCount)
    ensures after == Err(SliceOutOfRange)
  {
    var t := new PointTable();
    t.InitPoints(initGen);
    ghost var moved := t.Refresh(moveGen);
    ghost var order;
    before, order := t.ClosestPoints(q1, distance);
    forall i | 0 <= i < ReportSize
      ensures before.value[i].namePoint in IdsUpTo(PointCount)
    {
      var k :| k in t.entries && before.value[i] == Ranked(t.entries[k], q1, distance);
    }
    t.Flush();
    after, order := t.ClosestPoints(q2, distance);
  }
}
