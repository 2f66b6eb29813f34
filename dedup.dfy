/** Vertex deduplication on a grid: of the points falling into the same
    `sampler`-sized cell, only the first is kept. */
module GridDedup {
  import opened Geometry
  import opened Sequences

  /** The grid cell of a point: both coordinates divided by the cell size and floored. */
  function Key(p: Point, sampler: real): (int, int)
    requires sampler != 0.0
  {
    ((p.x / sampler).Floor, (p.y / sampler).Floor)
  }

  /** The grid cells the points fall into. */
  function Keys(pts: seq<Point>, sampler: real): set<(int, int)>
    requires sampler != 0.0
  {
    if pts == [] then {} else Keys(pts[..|pts| - 1], sampler) + {Key(pts[|pts| - 1], sampler)}
  }

  /** The points in order, each dropped when an earlier kept point has its cell. */
  function Dedup(pts: seq<Point>, sampler: real): seq<Point>
    requires sampler != 0.0
  {
    if pts == [] then []
    else
      var kept := Dedup(pts[..|pts| - 1], sampler);
      if Key(pts[|pts| - 1], sampler) in Keys(kept, sampler) then kept else kept + [pts[|pts| - 1]]
  }

  /** No two of the points share a cell. */
  predicate DistinctCells(pts: seq<Point>, sampler: real)
    requires sampler != 0.0
  {
    forall a, b :: 0 <= a < b < |pts| ==> Key(pts[a], sampler) != Key(pts[b], sampler)
  }

  /** Position `i` holds the first point of its cell. */
  predicate FirstInCell(pts: seq<Point>, sampler: real, i: nat)
    requires sampler != 0.0 && i < |pts|
  {
    forall j :: 0 <= j < i ==> Key(pts[j], sampler) != Key(pts[i], sampler)
  }

  /** The positions, among the first `n`, that hold the first point of their cell. */
  function FirstPositions(pts: seq<Point>, sampler: real, n: nat): (r: seq<nat>)
    requires sampler != 0.0 && n <= |pts|
    ensures forall k :: 0 <= k < |r| ==> r[k] < n
  {
    if n == 0 then []
    else FirstPositions(pts, sampler, n - 1) + (if FirstInCell(pts, sampler, n - 1) then [n - 1] else [])
  }

  /** A key is in the key set exactly when some point has it. */
  lemma {:induction false} KeysMembership(pts: seq<Point>, sampler: real, key: (int, int))
    requires sampler != 0.0
    ensures key in Keys(pts, sampler) <==> exists i :: 0 <= i < |pts| && Key(pts[i], sampler) == key
  {
    if pts != [] {
      var front := pts[..|pts| - 1];
      KeysMembership(front, sampler, key);
      if key in Keys(front, sampler) {
        var i :| 0 <= i < |front| && Key(front[i], sampler) == key;
        assert pts[i] == front[i];
      }
      if exists i :: 0 <= i < |pts| && Key(pts[i], sampler) == key {
        var i :| 0 <= i < |pts| && Key(pts[i], sampler) == key;
        if i < |front| {
          assert front[i] == pts[i];
        }
      }
    }
  }

  lemma KeysSnoc(pts: seq<Point>, p: Point, sampler: real)
    requires sampler != 0.0
    ensures Keys(pts + [p], sampler) == Keys(pts, sampler) + {Key(p, sampler)}
  {
    assert (pts + [p])[..|pts|] == pts;
  }

  /** Dedup keeps every cell of the input: no cell is lost. */
  lemma {:induction false} DedupKeys(pts: seq<Point>, sampler: real)
    requires sampler != 0.0
    ensures Keys(Dedup(pts, sampler), sampler) == Keys(pts, sampler)
  {
    if pts != [] {
      var front := pts[..|pts| - 1];
      DedupKeys(front, sampler);
      var kept := Dedup(front, sampler);
      if Key(pts[|pts| - 1], sampler) !in Keys(kept, sampler) {
        KeysSnoc(kept, pts[|pts| - 1], sampler);
      }
    }
  }

  /** The kept points have pairwise distinct cells. */
  lemma {:induction false} DedupDistinctKeys(pts: seq<Point>, sampler: real)
    requires sampler != 0.0
    ensures DistinctCells(Dedup(pts, sampler), sampler)
  {
    if pts != [] {
      var front := pts[..|pts| - 1];
      DedupDistinctKeys(front, sampler);
      var kept := Dedup(front, sampler);
      var last := pts[|pts| - 1];
      if Key(last, sampler) !in Keys(kept, sampler) {
        var r := kept + [last];
        forall a, b | 0 <= a < b < |r| ensures Key(r[a], sampler) != Key(r[b], sampler) {
          if b == |kept| {
            KeysMembership(kept, sampler, Key(last, sampler));
            assert r[a] == kept[a] && r[b] == last;
            assert Key(kept[a], sampler) != Key(last, sampler);
          } else {
            assert r[a] == kept[a] && r[b] == kept[b];
          }
        }
      }
    }
  }

  /** One more point is kept exactly when it is the first of its cell. */
  lemma DedupStep(pts: seq<Point>, sampler: real, n: nat)
    requires sampler != 0.0 && 0 < n <= |pts|
    ensures Dedup(pts[..n], sampler) ==
      Dedup(pts[..n - 1], sampler) + (if FirstInCell(pts, sampler, n - 1) then [pts[n - 1]] else [])
  {
    var front := pts[..n - 1];
    assert pts[..n][..n - 1] == front;
    DedupKeys(front, sampler);
    FirstInCellIsNewKey(pts, sampler, n - 1);
  }

  /** The kept points are exactly the first point of each cell, in input order. */
  lemma {:induction false} DedupIsFirstPositions(pts: seq<Point>, sampler: real, n: nat)
    requires sampler != 0.0 && n <= |pts|
    ensures Dedup(pts[..n], sampler) == Select(pts, FirstPositions(pts, sampler, n))
  {
    if n > 0 {
      DedupIsFirstPositions(pts, sampler, n - 1);
      DedupStep(pts, sampler, n);
      if FirstInCell(pts, sampler, n - 1) {
        SelectSnoc(pts, FirstPositions(pts, sampler, n - 1), n - 1);
      }
    }
  }

  /** Position `i` holds the first point of its cell exactly when its cell is
      not among those of the points before it. */
  lemma FirstInCellIsNewKey(pts: seq<Point>, sampler: real, i: nat)
    requires sampler != 0.0 && i < |pts|
    ensures FirstInCell(pts, sampler, i) <==> Key(pts[i], sampler) !in Keys(pts[..i], sampler)
  {
    KeysMembership(pts[..i], sampler, Key(pts[i], sampler));
    assert forall j :: 0 <= j < i ==> pts[..i][j] == pts[j];
  }

  /** Position `i` is kept exactly when it holds the first point of its cell;
      the kept positions are listed once each, in increasing order. */
  lemma {:induction false} FirstPositionsExactly(pts: seq<Point>, sampler: real, n: nat)
    requires sampler != 0.0 && n <= |pts|
    ensures forall i: nat :: i in FirstPositions(pts, sampler, n) <==> i < n && FirstInCell(pts, sampler, i)
    ensures forall a, b :: 0 <= a < b < |FirstPositions(pts, sampler, n)| ==>
      FirstPositions(pts, sampler, n)[a] < FirstPositions(pts, sampler, n)[b]
  {
    if n > 0 {
      FirstPositionsExactly(pts, sampler, n - 1);
    }
  }

  /** A non-empty input keeps its first point, so the output is empty only for an empty input. */
  lemma DedupKeepsFirst(pts: seq<Point>, sampler: real)
    requires sampler != 0.0
    ensures Dedup(pts, sampler) == [] <==> pts == []
    ensures pts != [] ==> Dedup(pts, sampler)[0] == pts[0]
  {
    if pts != [] {
      DedupIsFirstPositions(pts, sampler, |pts|);
      FirstPositionsExactly(pts, sampler, |pts|);
      assert pts[..|pts|] == pts;
      assert 0 in FirstPositions(pts, sampler, |pts|);
    }
  }

  /** A list whose cells are already distinct is left unchanged ... */
  lemma {:induction false} DedupDistinctUnchanged(pts: seq<Point>, sampler: real)
    requires sampler != 0.0
    requires DistinctCells(pts, sampler)
    ensures Dedup(pts, sampler) == pts
  {
    if pts != [] {
      var front := pts[..|pts| - 1];
      DedupDistinctUnchanged(front, sampler);
      KeysMembership(front, sampler, Key(pts[|pts| - 1], sampler));
      assert pts == front + [pts[|pts| - 1]];
    }
  }

  /** ... so deduplicating twice is the same as once. */
  lemma DedupIdempotent(pts: seq<Point>, sampler: real)
    requires sampler != 0.0
    ensures Dedup(Dedup(pts, sampler), sampler) == Dedup(pts, sampler)
  {
    DedupDistinctKeys(pts, sampler);
    DedupDistinctUnchanged(Dedup(pts, sampler), sampler);
  }

  /** The dedup loop: scans the points once, remembering the cells seen so far. */
  method DedupPoints(points: seq<Point>, sampler: real) returns (kept: seq<Point>)
    requires sampler != 0.0
    ensures kept == Dedup(points, sampler)
  {
    var seen: set<(int, int)> := {};
    kept := [];
    var i := 0;
    while i < |points|
      invariant 0 <= i <= |points|
      invariant kept == Dedup(points[..i], sampler)
      invariant seen == Keys(kept, sampler)
    {
      var key := ((points[i].x / sampler).Floor, (points[i].y / sampler).Floor);
      assert points[..i + 1][..i] == points[..i];
      if key !in seen {
        KeysSnoc(kept, points[i], sampler);
        kept := kept + [points[i]];
        seen := seen + {key};
      }
      i := i + 1;
    }
    assert points[..i] == points;
  }
}
