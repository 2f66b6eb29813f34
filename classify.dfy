/** The contour classifier: each contour, in order of decreasing absolute area,
    becomes a hole of the nearest earlier contour that contains its first
    point and has the opposite winding, or else a root. */
module Classify {
  import opened Wrappers
  import opened Geometry
  import opened Sequences
  import opened Crossing
  import opened Polygons

  /** Contour `j` can hold contour `i` as a hole: it contains `i`'s first point
      and the product of their signed areas is negative. */
  predicate CanHold(cs: seq<Contour>, j: nat, i: nat)
    requires AllNonEmpty(cs) && j < |cs| && i < |cs|
  {
    Contains(cs[j].points, cs[i].points[0]) && cs[i].area * cs[j].area < 0.0
  }

  /** The scan `j - 1, j - 2, ..., 0` for a contour that can hold `i`: the first hit. */
  function Scan(cs: seq<Contour>, i: nat, j: nat): Option<nat>
    requires AllNonEmpty(cs) && i < |cs| && j <= |cs|
  {
    if j == 0 then None
    else if CanHold(cs, j - 1, i) then Some(j - 1)
    else Scan(cs, i, j - 1)
  }

  /** The scan finds the highest index below `j` that can hold `i`, or
      reports that none can. */
  lemma {:induction false} ScanFinds(cs: seq<Contour>, i: nat, j: nat)
    requires AllNonEmpty(cs) && i < |cs| && j <= |cs|
    ensures Scan(cs, i, j).Some? ==> Scan(cs, i, j).value < j && CanHold(cs, Scan(cs, i, j).value, i)
    ensures Scan(cs, i, j).Some? ==> forall k :: Scan(cs, i, j).value < k < j ==> !CanHold(cs, k, i)
    ensures Scan(cs, i, j).None? ==> forall k :: 0 <= k < j ==> !CanHold(cs, k, i)
  {
    if j > 0 && !CanHold(cs, j - 1, i) {
      ScanFinds(cs, i, j - 1);
    }
  }

  /** The parent of contour `i`: the largest index below `i` that can hold it. */
  function Parent(cs: seq<Contour>, i: nat): Option<nat>
    requires AllNonEmpty(cs) && i < |cs|
  {
    Scan(cs, i, i)
  }

  /** The root contours among the first `n`, in order. */
  function Roots(cs: seq<Contour>, n: nat): (r: seq<nat>)
    requires AllNonEmpty(cs) && n <= |cs|
    ensures forall k :: 0 <= k < |r| ==> r[k] < n
  {
    if n == 0 then [] else Roots(cs, n - 1) + (if Parent(cs, n - 1).None? then [n - 1] else [])
  }

  /** The holes of contour `j` among the first `n`, in order. */
  function Holes(cs: seq<Contour>, j: nat, n: nat): (r: seq<nat>)
    requires AllNonEmpty(cs) && n <= |cs|
    ensures forall k :: 0 <= k < |r| ==> r[k] < n
  {
    if n == 0 then [] else Holes(cs, j, n - 1) + (if Parent(cs, n - 1) == Some(j) then [n - 1] else [])
  }

  predicate Increasing(s: seq<nat>)
  {
    forall a, b :: 0 <= a < b < |s| ==> s[a] < s[b]
  }

  /** Contour `i` is a root exactly when no earlier contour can hold it; the
      roots are listed once each, in increasing order. */
  lemma {:induction false} RootsExactly(cs: seq<Contour>, n: nat)
    requires AllNonEmpty(cs) && n <= |cs|
    ensures forall i: nat :: i in Roots(cs, n) <==> i < n && Parent(cs, i).None?
    ensures Increasing(Roots(cs, n))
  {
    if n > 0 {
      RootsExactly(cs, n - 1);
      var r := Roots(cs, n - 1);
      assert Roots(cs, n) == r + (if Parent(cs, n - 1).None? then [n - 1] else []);
      forall i: nat ensures i in Roots(cs, n) <==> i < n && Parent(cs, i).None? {
        assert i in Roots(cs, n) <==> i in r || (i == n - 1 && Parent(cs, n - 1).None?);
      }
    }
  }

  /** Contour `i` is a hole of `j` exactly when `j` is its parent; the holes
      are listed once each, in increasing order. */
  lemma {:induction false} HolesExactly(cs: seq<Contour>, j: nat, n: nat)
    requires AllNonEmpty(cs) && n <= |cs|
    ensures forall i: nat :: i in Holes(cs, j, n) <==> i < n && Parent(cs, i) == Some(j)
    ensures Increasing(Holes(cs, j, n))
  {
    if n > 0 {
      HolesExactly(cs, j, n - 1);
      var r := Holes(cs, j, n - 1);
      assert Holes(cs, j, n) == r + (if Parent(cs, n - 1) == Some(j) then [n - 1] else []);
      forall i: nat ensures i in Holes(cs, j, n) <==> i < n && Parent(cs, i) == Some(j) {
        assert i in Holes(cs, j, n) <==> i in r || (i == n - 1 && Parent(cs, n - 1) == Some(j));
      }
    }
  }

  /** Every contour is placed exactly once: in the roots, or among the holes
      of exactly one contour. */
  lemma PlacedExactlyOnce(cs: seq<Contour>, i: nat)
    requires AllNonEmpty(cs) && i < |cs|
    ensures i in Roots(cs, |cs|) <==> forall j: nat :: i !in Holes(cs, j, |cs|)
    ensures forall j1: nat, j2: nat :: i in Holes(cs, j1, |cs|) && i in Holes(cs, j2, |cs|) ==> j1 == j2
  {
    RootsExactly(cs, |cs|);
    forall j: nat ensures i in Holes(cs, j, |cs|) <==> Parent(cs, i) == Some(j) {
      HolesExactly(cs, j, |cs|);
    }
    if Parent(cs, i).Some? {
      assert i in Holes(cs, Parent(cs, i).value, |cs|);
    }
  }

  /** A hole's parent comes earlier, has a strictly opposite winding, contains
      the hole's first point, and is the last such contour before it. */
  lemma HoleParent(cs: seq<Contour>, j: nat, i: nat)
    requires AllNonEmpty(cs)
    requires i in Holes(cs, j, |cs|)
    ensures j < i < |cs|
    ensures (cs[i].area < 0.0 < cs[j].area) || (cs[j].area < 0.0 < cs[i].area)
    ensures Contains(cs[j].points, cs[i].points[0])
    ensures forall k :: j < k < i ==> !CanHold(cs, k, i)
  {
    HolesExactly(cs, j, |cs|);
    ScanFinds(cs, i, i);
    OppositeSigns(cs[i].area, cs[j].area);
  }

  /** A root is held by no earlier contour. */
  lemma RootHasNoHolder(cs: seq<Contour>, i: nat)
    requires AllNonEmpty(cs)
    requires i in Roots(cs, |cs|)
    ensures i < |cs|
    ensures forall k :: 0 <= k < i ==> !CanHold(cs, k, i)
  {
    RootsExactly(cs, |cs|);
    ScanFinds(cs, i, i);
  }

  /** A negative product means strictly opposite signs. */
  lemma OppositeSigns(a: real, b: real)
    ensures a * b < 0.0 <==> (a < 0.0 < b) || (b < 0.0 < a)
  {
    if a < 0.0 && b < 0.0 {
      assert (-a) * (-b) > 0.0;
    } else if a > 0.0 && b > 0.0 {
      assert a * b > 0.0;
    } else if a < 0.0 && b > 0.0 {
      assert (-a) * b > 0.0;
    } else if a > 0.0 && b < 0.0 {
      assert a * (-b) > 0.0;
    }
  }

  /** The inner scan: walks `j = i - 1` down to 0 and stops at the first
      polygon that contains the first point of polygon `i` and has the
      opposite winding. */
  method FindParent(polys: seq<Polygon>, i: nat, ghost cs: seq<Contour>) returns (parent: Polygon?, ghost pj: nat)
    requires i < |polys| && |cs| == |polys| && AllNonEmpty(cs)
    requires forall k :: 0 <= k < |polys| ==> polys[k].Value() == cs[k]
    ensures parent == null <==> Parent(cs, i).None?
    ensures parent != null ==> Parent(cs, i) == Some(pj) && pj < i && parent == polys[pj]
  {
    parent, pj := null, 0;
    var j := i - 1;
    while j >= 0
      invariant -1 <= j < i
      invariant forall k :: j < k < i ==> !CanHold(cs, k, i)
    {
      var inside := polys[j].Inside(polys[i].points[0]);
      assert inside && polys[i].area * polys[j].area < 0.0 <==> CanHold(cs, j, i);
      if inside && polys[i].area * polys[j].area < 0.0 {
        parent, pj := polys[j], j;
        break;
      }
      j := j - 1;
    }
    if parent != null {
      NearestHolderScan(cs, i, pj, i);
    } else {
      NoHolderScan(cs, i, i);
    }
  }

  /** The scan stops at the nearest contour below `n` that can hold `i`. */
  lemma {:induction false} NearestHolderScan(cs: seq<Contour>, i: nat, j: nat, n: nat)
    requires AllNonEmpty(cs) && j < n <= i < |cs| && CanHold(cs, j, i)
    requires forall k :: j < k < n ==> !CanHold(cs, k, i)
    ensures Scan(cs, i, n) == Some(j)
  {
    if n - 1 != j {
      NearestHolderScan(cs, i, j, n - 1);
    }
  }

  /** The scan fails when nothing below `n` can hold `i`. */
  lemma {:induction false} NoHolderScan(cs: seq<Contour>, i: nat, n: nat)
    requires AllNonEmpty(cs) && n <= i < |cs|
    requires forall k :: 0 <= k < n ==> !CanHold(cs, k, i)
    ensures Scan(cs, i, n).None?
  {
    if n > 0 {
      NoHolderScan(cs, i, n - 1);
    }
  }

  /** Contour `i` joins the root list exactly when it has no parent. */
  lemma RootsGrow(cs: seq<Contour>, i: nat)
    requires AllNonEmpty(cs) && i < |cs|
    ensures Roots(cs, i + 1) == if Parent(cs, i).None? then Roots(cs, i) + [i] else Roots(cs, i)
  {
  }

  /** Contour `i` joins the hole list of its parent and no other. */
  lemma HolesGrow(cs: seq<Contour>, j: nat, i: nat)
    requires AllNonEmpty(cs) && i < |cs|
    ensures Holes(cs, j, i + 1) == if Parent(cs, i) == Some(j) then Holes(cs, j, i) + [i] else Holes(cs, j, i)
  {
  }

  /** A contour without a parent joins the roots; the hole lists stay. */
  lemma GrowRoot(cs: seq<Contour>, i: nat, roots: seq<nat>, holes: seq<seq<nat>>)
    requires AllNonEmpty(cs) && i < |cs| && |holes| == |cs| && Parent(cs, i).None?
    requires roots == Roots(cs, i)
    requires forall j :: 0 <= j < |cs| ==> holes[j] == Holes(cs, j, i)
    ensures roots + [i] == Roots(cs, i + 1)
    ensures forall j :: 0 <= j < |cs| ==> holes[j] == Holes(cs, j, i + 1)
  {
    RootsGrow(cs, i);
    forall j | 0 <= j < |cs| ensures holes[j] == Holes(cs, j, i + 1) {
      HolesGrow(cs, j, i);
    }
  }

  /** A contour with parent `pj` joins the holes of `pj` only; the roots stay. */
  lemma GrowHole(cs: seq<Contour>, i: nat, pj: nat, roots: seq<nat>, holes: seq<seq<nat>>, holes': seq<seq<nat>>)
    requires AllNonEmpty(cs) && pj < i < |cs| && |holes| == |cs| && Parent(cs, i) == Some(pj)
    requires roots == Roots(cs, i)
    requires forall j :: 0 <= j < |cs| ==> holes[j] == Holes(cs, j, i)
    requires |holes'| == |holes| && holes'[pj] == holes[pj] + [i]
    requires forall j :: 0 <= j < |holes| && j != pj ==> holes'[j] == holes[j]
    ensures roots == Roots(cs, i + 1)
    ensures forall j :: 0 <= j < |cs| ==> holes'[j] == Holes(cs, j, i + 1)
  {
    RootsGrow(cs, i);
    forall j | 0 <= j < |cs| ensures holes'[j] == Holes(cs, j, i + 1) {
      HolesGrow(cs, j, i);
    }
  }

  /** Every index in every list is below `n`. */
  predicate AllBelow(lists: seq<seq<nat>>, n: nat)
  {
    forall j, k :: 0 <= j < |lists| && 0 <= k < |lists[j]| ==> lists[j][k] < n
  }

  /** Polygon `i` becomes the last child of `parent`, the polygon at `pj`;
      no other polygon changes, and no polygon's points or area change. */
  method AttachHole(polys: seq<Polygon>, i: nat, parent: Polygon, ghost pj: nat, ghost holes: seq<seq<nat>>) returns (ghost holes': seq<seq<nat>>)
    requires Distinct(polys) && i < |polys| && pj < |polys| && parent == polys[pj] && |holes| == |polys|
    requires AllBelow(holes, |polys|)
    requires forall j :: 0 <= j < |polys| ==> polys[j].children == Select(polys, holes[j])
    modifies parent
    ensures forall k :: 0 <= k < |polys| ==> polys[k].Value() == old(polys[k].Value())
    ensures |holes'| == |holes| && holes'[pj] == holes[pj] + [i]
    ensures forall j :: 0 <= j < |holes| && j != pj ==> holes'[j] == holes[j]
    ensures AllBelow(holes', |polys|)
    ensures forall j :: 0 <= j < |polys| ==> polys[j].children == Select(polys, holes'[j])
  {
    parent.AddChild(polys[i]);
    SelectSnoc(polys, holes[pj], i);
    holes' := holes[pj := holes[pj] + [i]];
    forall j | 0 <= j < |polys| ensures polys[j].children == Select(polys, holes'[j]) {
      if j != pj {
        assert polys[j] != parent;
      }
    }
  }

  /** One step of the outer loop: polygon `i` becomes a hole of its parent or
      a root, and the ghost index lists follow. */
  method Place(polys: seq<Polygon>, i: nat, root: seq<Polygon>, ghost cs: seq<Contour>, ghost roots: seq<nat>, ghost holes: seq<seq<nat>>)
      returns (root': seq<Polygon>, ghost roots': seq<nat>, ghost holes': seq<seq<nat>>)
    requires Distinct(polys) && AllNonEmpty(cs) && |cs| == |polys| && i < |polys| && |holes| == |polys|
    requires forall k :: 0 <= k < |polys| ==> polys[k].Value() == cs[k]
    requires roots == Roots(cs, i)
    requires forall j :: 0 <= j < |polys| ==> holes[j] == Holes(cs, j, i)
    requires AllBelow(holes, |polys|)
    requires root == Select(polys, roots)
    requires forall j :: 0 <= j < |polys| ==> polys[j].children == Select(polys, holes[j])
    modifies polys
    ensures |holes'| == |polys|
    ensures forall k :: 0 <= k < |polys| ==> polys[k].Value() == cs[k]
    ensures roots' == Roots(cs, i + 1)
    ensures forall j :: 0 <= j < |polys| ==> holes'[j] == Holes(cs, j, i + 1)
    ensures AllBelow(holes', |polys|)
    ensures root' == Select(polys, roots')
    ensures forall j :: 0 <= j < |polys| ==> polys[j].children == Select(polys, holes'[j])
  {
    var parent, pj := FindParent(polys, i, cs);
    if parent != null {
      holes' := AttachHole(polys, i, parent, pj, holes);
      GrowHole(cs, i, pj, roots, holes, holes');
      root', roots' := root, roots;
    } else {
      GrowRoot(cs, i, roots, holes);
      SelectSnoc(polys, roots, i);
      root', roots', holes' := root + [polys[i]], roots + [i], holes;
    }
  }

  /** `n` empty index lists. */
  function NoHoles(n: nat): (r: seq<seq<nat>>)
    ensures |r| == n && forall j :: 0 <= j < n ==> r[j] == []
  {
    seq(n, _ => [])
  }

  /** Before the outer loop, every hole list is empty and matches the empty children. */
  lemma NoHolesYet(polys: seq<Polygon>, cs: seq<Contour>, holes: seq<seq<nat>>)
    requires AllNonEmpty(cs) && |cs| == |polys| && holes == NoHoles(|cs|)
    ensures forall j :: 0 <= j < |polys| ==> holes[j] == Holes(cs, j, 0)
    ensures AllBelow(holes, |polys|)
    ensures forall j :: 0 <= j < |polys| ==> Select(polys, holes[j]) == []
  {
  }

  /** Attaches each polygon, in list order, as a hole of its parent or as a root. */
  method ClassifyContours(polys: seq<Polygon>, ghost cs: seq<Contour>) returns (root: seq<Polygon>)
    requires Distinct(polys) && AllNonEmpty(cs) && |cs| == |polys|
    requires forall k :: 0 <= k < |polys| ==> polys[k].Value() == cs[k]
    requires forall k :: 0 <= k < |polys| ==> polys[k].children == []
    modifies polys
    ensures forall k :: 0 <= k < |polys| ==> polys[k].Value() == cs[k]
    ensures root == Select(polys, Roots(cs, |polys|))
    ensures forall j :: 0 <= j < |polys| ==> polys[j].children == Select(polys, Holes(cs, j, |polys|))
  {
    ghost var roots: seq<nat> := [];
    ghost var holes: seq<seq<nat>> := NoHoles(|cs|);
    NoHolesYet(polys, cs, holes);
    root := [];
    var i := 0;
    while i < |polys|
      invariant 0 <= i <= |polys| && |holes| == |polys|
      invariant forall k :: 0 <= k < |polys| ==> polys[k].Value() == cs[k]
      invariant roots == Roots(cs, i)
      invariant forall j :: 0 <= j < |polys| ==> holes[j] == Holes(cs, j, i)
      invariant AllBelow(holes, |polys|)
      invariant root == Select(polys, roots)
      invariant forall j :: 0 <= j < |polys| ==> polys[j].children == Select(polys, holes[j])
    {
      root, roots, holes := Place(polys, i, root, cs, roots, holes);
      i := i + 1;
    }
  }
}
