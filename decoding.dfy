/**
 * The per-sentence logic of `decode` and `decode_input` in nl_gen/execute.py:
 * which bucket an input of a given length is fed through, and how the greedy
 * (argmax) output ids are cut at the first end-of-sequence id. The model run
 * itself is outside this model: its argmax ids are an input.
 */
module Decoding {
  import opened Common
  import opened Bucketing

  /**
   * `min([b for b in range(len(_buckets)) if _buckets[b][0] > len(token_ids)]
   * + [len(_buckets) - 1])`. The appended fallback keeps the list non-empty,
   * so an empty bucket list yields -1 rather than an error.
   */
  function InferenceBucket(buckets: seq<Bucket>, inputLen: nat): int
  {
    MinOf(Where(seq(|buckets|, i requires 0 <= i < |buckets| => buckets[i].sourceSize > inputLen)) + [|buckets| - 1])
  }

  /**
   * The inference bucket is a valid index; it is the first bucket whose source
   * bound exceeds the input length, or the last bucket when there is none (an
   * over-long input is then fed through the last bucket all the same). With
   * no buckets at all the result is -1, the fallback entry.
   */
  lemma InferenceBucketIsFirstLarger(buckets: seq<Bucket>, inputLen: nat)
    ensures var b := InferenceBucket(buckets, inputLen);
      (|buckets| == 0 ==> b == -1) &&
      (|buckets| > 0 ==>
        0 <= b < |buckets| &&
        (forall j :: 0 <= j < b ==> buckets[j].sourceSize <= inputLen) &&
        (b < |buckets| - 1 ==> buckets[b].sourceSize > inputLen))
  {
    if |buckets| == 0 {
      assert Where([]) == [];
      return;
    }
    var bits := seq(|buckets|, i requires 0 <= i < |buckets| => buckets[i].sourceSize > inputLen);
    var candidates := Where(bits) + [|buckets| - 1];
    WhereIndices(bits);
    var b := MinOf(candidates);
    MinOfIsMinimum(candidates);
    assert b == InferenceBucket(buckets, inputLen);
    forall j | 0 <= j < |buckets| && buckets[j].sourceSize > inputLen
      ensures b <= j
    {
      assert bits[j];
      assert j in Where(bits);
      var idx :| 0 <= idx < |Where(bits)| && Where(bits)[idx] == j;
      assert candidates[idx] == j;
    }
    assert b in Where(bits) || b == |buckets| - 1;
    if b in Where(bits) {
      assert bits[b];
    }
  }

  /** With the default buckets, every input is fed through a valid bucket. */
  lemma DefaultInferenceBucket(inputLen: nat)
    ensures var b := InferenceBucket(DefaultBuckets, inputLen);
      (inputLen < 30 ==> b == 0) &&
      (30 <= inputLen < 40 ==> b == 2) &&
      (40 <= inputLen ==> b == 4)
  {
    var buckets := DefaultBuckets;
    assert buckets[0].sourceSize == 30 && buckets[2].sourceSize == 40 && buckets[4].sourceSize == 50;
    InferenceBucketIsFirstLarger(buckets, inputLen);
  }

  /** Python's `list.index`: the position of the first occurrence. */
  function IndexOf(xs: seq<int>, x: int): (i: nat)
    requires x in xs
    ensures i < |xs| && xs[i] == x
    ensures forall j :: 0 <= j < i ==> xs[j] != x
  {
    if xs[0] == x then 0 else 1 + IndexOf(xs[1..], x)
  }

  /** `outputs[:outputs.index(EOS_ID)]` when EOS occurs, else `outputs`. */
  function TruncateAtEos(outputs: seq<int>): seq<int> {
    if EOS in outputs then outputs[..IndexOf(outputs, EOS)] else outputs
  }

  /**
   * The emitted ids never contain EOS; they are a prefix of the argmax ids,
   * cut exactly at the first EOS, and all of them when EOS does not occur.
   */
  lemma TruncationCutsAtFirstEos(outputs: seq<int>)
    ensures var r := TruncateAtEos(outputs);
      EOS !in r &&
      r <= outputs &&
      (|r| < |outputs| ==> outputs[|r|] == EOS) &&
      (EOS !in outputs ==> r == outputs)
  {
    if EOS in outputs {
      var i := IndexOf(outputs, EOS);
      assert forall k :: 0 <= k < i ==> outputs[..i][k] == outputs[k];
    }
  }

  /** Cutting twice changes nothing. */
  lemma TruncationIdempotent(outputs: seq<int>)
    ensures TruncateAtEos(TruncateAtEos(outputs)) == TruncateAtEos(outputs)
  {
    TruncationCutsAtFirstEos(outputs);
  }
}
