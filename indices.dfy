/** Selecting the positions of a sequence of flags: the shape shared by the
    DDS neighbourhood, the variable filter and the timestamp alignment. */
module Indices {

  /** The positions `j` with `bits[j]`, in increasing order. */
  function Where(bits: seq<bool>): (r: seq<nat>)
    ensures forall k :: 0 <= k < |r| ==> r[k] < |bits| && bits[r[k]]
    ensures forall k, l :: 0 <= k < l < |r| ==> r[k] < r[l]
    ensures forall j :: 0 <= j < |bits| && bits[j] ==> j in r
    decreases |bits|
  {
    if bits == [] then []
    else
      var n := |bits| - 1;
      Where(bits[..n]) + (if bits[n] then [n] else [])
  }

  /** Appending one flag appends its position exactly when it is set. */
  lemma WhereSnoc(bits: seq<bool>, b: bool)
    ensures Where(bits + [b]) == Where(bits) + (if b then [|bits|] else [])
  {
    assert (bits + [b])[..|bits|] == bits;
  }
}
