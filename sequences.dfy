/** Sequence helpers: reversal, and selecting elements by position. */
module Sequences {
  /** The reverse of a sequence. */
  function Reverse<T>(s: seq<T>): (r: seq<T>)
    ensures |r| == |s|
    ensures forall k :: 0 <= k < |s| ==> r[k] == s[|s| - 1 - k]
  {
    if s == [] then [] else Reverse(s[1..]) + [s[0]]
  }

  /** Reversing a sequence with one more element at its end puts it in front. */
  lemma ReverseSnoc<T>(s: seq<T>, x: T)
    ensures Reverse(s + [x]) == [x] + Reverse(s)
  {
    var r, q := Reverse(s + [x]), [x] + Reverse(s);
    assert |r| == |q|;
    forall k | 0 <= k < |r| ensures r[k] == q[k] {
      if k > 0 { assert q[k] == Reverse(s)[k - 1]; }
    }
  }

  /** The elements of `s` at the positions `idx`, in the order of `idx`. */
  function Select<T>(s: seq<T>, idx: seq<nat>): (r: seq<T>)
    requires forall k :: 0 <= k < |idx| ==> idx[k] < |s|
    ensures |r| == |idx|
    ensures forall k :: 0 <= k < |idx| ==> r[k] == s[idx[k]]
  {
    seq(|idx|, k requires 0 <= k < |idx| => s[idx[k]])
  }

  /** Selecting one more position appends that element. */
  lemma SelectSnoc<T>(s: seq<T>, idx: seq<nat>, x: nat)
    requires forall k :: 0 <= k < |idx| ==> idx[k] < |s|
    requires x < |s|
    ensures Select(s, idx + [x]) == Select(s, idx) + [s[x]]
  {
    assert (idx + [x])[..|idx|] == idx;
  }
}
