/** Bit-by-bit reference functions on bitmaps seen as sequences of booleans. */
module BitScan {

  /** How many bits are set. */
  function Count(bits: seq<bool>): (c: nat)
    ensures c <= |bits|
    ensures c == 0 <==> forall i :: 0 <= i < |bits| ==> !bits[i]
    ensures c == |bits| <==> forall i :: 0 <= i < |bits| ==> bits[i]
  {
    if bits == [] then 0
    else
      var rest := Count(bits[1..]);
      assert forall i :: 0 <= i < |bits| ==> bits[i] == (if i == 0 then bits[0] else bits[1..][i - 1]);
      (if bits[0] then 1 else 0) + rest
  }

  lemma {:induction false} CountUpdate(bits: seq<bool>, b: nat, v: bool)
    requires b < |bits| && bits[b] != v
    ensures Count(bits[b := v]) == Count(bits) + (if v then 1 else -1)
  {
    if b == 0 {
      assert bits[b := v][1..] == bits[1..];
    } else {
      CountUpdate(bits[1..], b - 1, v);
      assert bits[b := v][1..] == bits[1..][b - 1 := v];
    }
  }

  /** Index of the first bit equal to `want`, looking one bit at a time from `from`; `|bits| + 1` if none. */
  function FindFrom(bits: seq<bool>, want: bool, from: nat): (r: nat)
    requires from <= |bits|
    decreases |bits| - from
    ensures r == |bits| + 1 || (from <= r < |bits| && bits[r] == want)
    ensures forall i :: from <= i < |bits| && i < r ==> bits[i] != want
  {
    if from == |bits| then |bits| + 1
    else if bits[from] == want then from
    else FindFrom(bits, want, from + 1)
  }

  function Find(bits: seq<bool>, want: bool): (r: nat)
    ensures r == |bits| + 1 || (r < |bits| && bits[r] == want)
    ensures forall i :: 0 <= i < |bits| && i < r ==> bits[i] != want
  {
    FindFrom(bits, want, 0)
  }
}
