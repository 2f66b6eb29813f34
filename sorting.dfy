/** Ordering the contours by decreasing absolute area before classification.
    The runtime's sort is stable, and a stable sort by one key has exactly one
    result, so the order is computed here as a stable insertion sort of the
    positions `0 .. n-1` by the absolute value of each position's area. The
    order depends on the areas alone; the polygons are then taken in that
    order. */
module Sorting {
  function Abs(r: real): real
  {
    if r < 0.0 then -r else r
  }

  /** The positions in `ord` are valid for `n` items, each at most once. */
  predicate IsOrder(ord: seq<nat>, n: nat)
  {
    (forall k :: 0 <= k < |ord| ==> ord[k] < n) &&
    (forall a, b :: 0 <= a < b < |ord| ==> ord[a] != ord[b])
  }

  /** Larger absolute areas come first. */
  predicate ByDescendingArea(areas: seq<real>, ord: seq<nat>)
    requires forall k :: 0 <= k < |ord| ==> ord[k] < |areas|
  {
    forall a, b :: 0 <= a < b < |ord| ==> Abs(areas[ord[a]]) >= Abs(areas[ord[b]])
  }

  /** Positions of equal absolute area keep their input order. */
  predicate TiesInInputOrder(areas: seq<real>, ord: seq<nat>)
    requires forall k :: 0 <= k < |ord| ==> ord[k] < |areas|
  {
    forall a, b :: 0 <= a < b < |ord| && Abs(areas[ord[a]]) == Abs(areas[ord[b]]) ==> ord[a] < ord[b]
  }

  /** Inserts position `i` after every leading position whose absolute area is at least its own. */
  function Insert(areas: seq<real>, ord: seq<nat>, i: nat): (r: seq<nat>)
    requires i < |areas| && forall k :: 0 <= k < |ord| ==> ord[k] < |areas|
    ensures |r| == |ord| + 1
    ensures forall k :: 0 <= k < |r| ==> r[k] == i || r[k] in ord
    ensures i in r && forall x :: x in ord ==> x in r
  {
    if ord == [] then [i]
    else if Abs(areas[ord[0]]) >= Abs(areas[i]) then
      assert forall x :: x in ord ==> x == ord[0] || x in ord[1..];
      [ord[0]] + Insert(areas, ord[1..], i)
    else [i] + ord
  }

  /** The sorted order of the first `n` positions. */
  function OrderOf(areas: seq<real>, n: nat): (r: seq<nat>)
    requires n <= |areas|
    ensures |r| == n
    ensures forall k :: 0 <= k < |r| ==> r[k] < n
  {
    if n == 0 then [] else Insert(areas, OrderOf(areas, n - 1), n - 1)
  }

  /** The sorted order of all positions. */
  function Order(areas: seq<real>): (r: seq<nat>)
    ensures |r| == |areas|
    ensures forall k :: 0 <= k < |r| ==> r[k] < |areas|
  {
    OrderOf(areas, |areas|)
  }

  /** Inserting a new position keeps the positions distinct. */
  lemma {:induction false} InsertIsOrder(areas: seq<real>, ord: seq<nat>, i: nat, n: nat)
    requires i < |areas| && n <= |areas| && IsOrder(ord, n) && i !in ord && i < n
    ensures IsOrder(Insert(areas, ord, i), n)
  {
    if ord != [] && Abs(areas[ord[0]]) >= Abs(areas[i]) {
      var rest := ord[1..];
      assert IsOrder(rest, n);
      InsertIsOrder(areas, rest, i, n);
      var t := Insert(areas, rest, i);
      assert ord[0] !in rest;
      assert ord[0] !in t;
      assert Insert(areas, ord, i) == [ord[0]] + t;
    }
  }

  /** A position whose absolute area is at least every other's can lead a sorted order. */
  lemma ConsSorted(areas: seq<real>, x: nat, ord: seq<nat>)
    requires x < |areas| && forall k :: 0 <= k < |ord| ==> ord[k] < |areas|
    requires ByDescendingArea(areas, ord)
    requires forall k :: 0 <= k < |ord| ==> Abs(areas[x]) >= Abs(areas[ord[k]])
    ensures ByDescendingArea(areas, [x] + ord)
  {
    var r := [x] + ord;
    forall a, b | 0 <= a < b < |r| ensures Abs(areas[r[a]]) >= Abs(areas[r[b]]) {
      assert r[b] == ord[b - 1];
      if a > 0 {
        assert r[a] == ord[a - 1];
      }
    }
  }

  /** A position that precedes every other of equal absolute area can lead a stable order. */
  lemma ConsStable(areas: seq<real>, x: nat, ord: seq<nat>)
    requires x < |areas| && forall k :: 0 <= k < |ord| ==> ord[k] < |areas|
    requires TiesInInputOrder(areas, ord)
    requires forall k :: 0 <= k < |ord| && Abs(areas[x]) == Abs(areas[ord[k]]) ==> x < ord[k]
    ensures TiesInInputOrder(areas, [x] + ord)
  {
    var r := [x] + ord;
    forall a, b | 0 <= a < b < |r| && Abs(areas[r[a]]) == Abs(areas[r[b]]) ensures r[a] < r[b] {
      assert r[b] == ord[b - 1];
      if a > 0 {
        assert r[a] == ord[a - 1];
      }
    }
  }

  lemma {:induction false} InsertSorted(areas: seq<real>, ord: seq<nat>, i: nat)
    requires i < |areas| && forall k :: 0 <= k < |ord| ==> ord[k] < |areas|
    requires ByDescendingArea(areas, ord)
    ensures ByDescendingArea(areas, Insert(areas, ord, i))
  {
    if ord == [] {
    } else if Abs(areas[ord[0]]) >= Abs(areas[i]) {
      var rest := ord[1..];
      InsertSorted(areas, rest, i);
      var t := Insert(areas, rest, i);
      forall k | 0 <= k < |t| ensures Abs(areas[ord[0]]) >= Abs(areas[t[k]]) {
        assert t[k] == i || t[k] in rest;
      }
      ConsSorted(areas, ord[0], t);
    } else {
      ConsSorted(areas, i, ord);
    }
  }

  /** Inserting a position larger than every position already in a sorted,
      stable order keeps it stable. */
  lemma {:induction false} InsertStable(areas: seq<real>, ord: seq<nat>, i: nat)
    requires i < |areas| && forall k :: 0 <= k < |ord| ==> ord[k] < i
    requires ByDescendingArea(areas, ord) && TiesInInputOrder(areas, ord)
    ensures TiesInInputOrder(areas, Insert(areas, ord, i))
  {
    if ord == [] {
    } else if Abs(areas[ord[0]]) >= Abs(areas[i]) {
      var rest := ord[1..];
      InsertStable(areas, rest, i);
      var t := Insert(areas, rest, i);
      forall k | 0 <= k < |t| && Abs(areas[ord[0]]) == Abs(areas[t[k]]) ensures ord[0] < t[k] {
        assert t[k] == i || t[k] in rest;
      }
      ConsStable(areas, ord[0], t);
    } else {
      ConsStable(areas, i, ord);
    }
  }

  /** Every one of the first `n` positions occurs in `ord`. */
  predicate Covers(ord: seq<nat>, n: nat)
  {
    forall i :: 0 <= i < n ==> i in ord
  }

  /** The properties a sorted order of the first `n` positions has. */
  predicate SortedOrder(areas: seq<real>, ord: seq<nat>, n: nat)
    requires n <= |areas|
  {
    IsOrder(ord, n) &&
    Covers(ord, n) &&
    ByDescendingArea(areas, ord) &&
    TiesInInputOrder(areas, ord)
  }

  /** Inserting the next position into a sorted order of the positions
      before it lists every position once ... */
  lemma InsertNextIsOrder(areas: seq<real>, ord: seq<nat>, n: nat)
    requires 0 < n <= |areas| && SortedOrder(areas, ord, n - 1)
    ensures IsOrder(Insert(areas, ord, n - 1), n)
    ensures Covers(Insert(areas, ord, n - 1), n)
  {
    assert n - 1 !in ord;
    InsertIsOrder(areas, ord, n - 1, n);
  }

  /** ... keeping it sorted ... */
  lemma InsertNextSorted(areas: seq<real>, ord: seq<nat>, n: nat)
    requires 0 < n <= |areas| && SortedOrder(areas, ord, n - 1)
    ensures ByDescendingArea(areas, Insert(areas, ord, n - 1))
  {
    InsertSorted(areas, ord, n - 1);
  }

  /** ... and stable. */
  lemma InsertNextStable(areas: seq<real>, ord: seq<nat>, n: nat)
    requires 0 < n <= |areas| && SortedOrder(areas, ord, n - 1)
    ensures TiesInInputOrder(areas, Insert(areas, ord, n - 1))
  {
    InsertStable(areas, ord, n - 1);
  }

  /** Sorting lists each of the first `n` positions exactly once, in
      descending order of absolute area, and stably. */
  lemma {:induction false} OrderOfCorrect(areas: seq<real>, n: nat)
    requires n <= |areas|
    ensures SortedOrder(areas, OrderOf(areas, n), n)
  {
    if n > 0 {
      OrderOfCorrect(areas, n - 1);
      InsertNextIsOrder(areas, OrderOf(areas, n - 1), n);
      InsertNextSorted(areas, OrderOf(areas, n - 1), n);
      InsertNextStable(areas, OrderOf(areas, n - 1), n);
    }
  }

  /** The sorted order is a permutation of all positions, sorted and stable. */
  lemma OrderCorrect(areas: seq<real>)
    ensures |Order(areas)| == |areas| && IsOrder(Order(areas), |areas|)
    ensures Covers(Order(areas), |areas|)
    ensures ByDescendingArea(areas, Order(areas))
    ensures TiesInInputOrder(areas, Order(areas))
  {
    OrderOfCorrect(areas, |areas|);
  }
}
