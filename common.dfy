/**
 * Small building blocks shared by the model of the summarizer's control code:
 * an Option type for Python's "no result" cases, the index filter behind the
 * list comprehensions `[i for i in range(n) if cond(i)]`, and Python's `min`.
 */
module Common {

  datatype Option<+T> = None | Some(value: T)

  /** The indices `i` of `bits` with `bits[i]`, in increasing order. */
  function Where(bits: seq<bool>): seq<int> {
    if bits == [] then []
    else
      var rest := Where(bits[..|bits| - 1]);
      if bits[|bits| - 1] then rest + [|bits| - 1] else rest
  }

  /**
   * `Where(bits)` lists exactly the positions holding `true`, each once, in
   * strictly increasing order.
   */
  lemma {:induction false} WhereIndices(bits: seq<bool>)
    ensures forall i :: i in Where(bits) <==> 0 <= i < |bits| && bits[i]
    ensures forall k :: 0 <= k < |Where(bits)| ==> 0 <= Where(bits)[k] < |bits|
    ensures forall j, k :: 0 <= j < k < |Where(bits)| ==> Where(bits)[j] < Where(bits)[k]
  {
    if bits != [] {
      var init := bits[..|bits| - 1];
      WhereIndices(init);
      assert forall i :: 0 <= i < |init| ==> init[i] == bits[i];
    }
  }

  /** Python's `min` over a non-empty list. */
  function MinOf(xs: seq<int>): int
    requires |xs| > 0
  {
    if |xs| == 1 then xs[0]
    else
      var tail := MinOf(xs[1..]);
      if xs[0] <= tail then xs[0] else tail
  }

  /** `min` returns one of the elements, and none is smaller. */
  lemma {:induction false} MinOfIsMinimum(xs: seq<int>)
    requires |xs| > 0
    ensures MinOf(xs) in xs
    ensures forall k :: 0 <= k < |xs| ==> MinOf(xs) <= xs[k]
  {
    if |xs| > 1 {
      MinOfIsMinimum(xs[1..]);
      assert forall k :: 1 <= k < |xs| ==> xs[k] == xs[1..][k - 1];
    }
  }
}
