/**
 * Reading a parallel corpus into buckets (`read_data` in nl_gen/execute.py).
 *
 * Each (source, target) line pair, already parsed into token ids, has EOS
 * appended to its target and is stored in the FIRST bucket whose source bound
 * and target bound both strictly exceed the two lengths; a pair that fits no
 * bucket is dropped. Nothing here assumes the bucket list is sorted: the
 * repository's own list is not sorted by target bound.
 */
module Bucketing {
  import opened Common

  /** Reserved token ids: PAD = 0, GO = 1, EOS = 2, UNK = 3. */
  const EOS: int := 2

  /** A size class: exclusive upper bounds on source and target length. */
  datatype Bucket = Bucket(sourceSize: nat, targetSize: nat)

  /** `_buckets`: note (30, 20) comes before (40, 10). */
  const DefaultBuckets: seq<Bucket> :=
    [Bucket(30, 10), Bucket(30, 20), Bucket(40, 10), Bucket(40, 20), Bucket(50, 20)]

  /** A stored pair; `target` already carries its trailing EOS. */
  datatype Example = Example(source: seq<int>, target: seq<int>)

  predicate Fits(bucket: Bucket, sourceLen: nat, targetLen: nat) {
    sourceLen < bucket.sourceSize && targetLen < bucket.targetSize
  }

  /** The index of the first bucket that fits, searching from `from` on. */
  function FirstFitFrom(buckets: seq<Bucket>, sourceLen: nat, targetLen: nat, from: nat): (r: Option<nat>)
    requires from <= |buckets|
    ensures r.Some? ==> from <= r.value < |buckets| && Fits(buckets[r.value], sourceLen, targetLen)
    ensures r.Some? ==> forall j :: from <= j < r.value ==> !Fits(buckets[j], sourceLen, targetLen)
    ensures r.None? ==> forall j :: from <= j < |buckets| ==> !Fits(buckets[j], sourceLen, targetLen)
    decreases |buckets| - from
  {
    if from == |buckets| then None
    else if Fits(buckets[from], sourceLen, targetLen) then Some(from)
    else FirstFitFrom(buckets, sourceLen, targetLen, from + 1)
  }

  /**
   * Where a parsed line pair goes: the first bucket that fits the source
   * length and the EOS-extended target length, or None when it is dropped.
   */
  function Assign(buckets: seq<Bucket>, source: seq<int>, target: seq<int>): Option<nat> {
    FirstFitFrom(buckets, |source|, |target| + 1, 0)
  }

  /** First fit, both ways: the assigned bucket is the least index that fits. */
  lemma AssignIsFirstFit(buckets: seq<Bucket>, source: seq<int>, target: seq<int>, b: nat)
    ensures Assign(buckets, source, target) == Some(b) <==>
      b < |buckets| && Fits(buckets[b], |source|, |target| + 1) &&
      forall j :: 0 <= j < b ==> !Fits(buckets[j], |source|, |target| + 1)
  {
    var r := Assign(buckets, source, target);
    if b < |buckets| && Fits(buckets[b], |source|, |target| + 1) {
      assert r.Some?;
    }
  }

  /** A pair is dropped exactly when no bucket fits it. */
  lemma DroppedIffNoBucketFits(buckets: seq<Bucket>, source: seq<int>, target: seq<int>)
    ensures Assign(buckets, source, target).None? <==>
      forall j :: 0 <= j < |buckets| ==> !Fits(buckets[j], |source|, |target| + 1)
  {
    var r := Assign(buckets, source, target);
    if r.Some? {
      assert Fits(buckets[r.value], |source|, |target| + 1);
    }
  }

  /** The stored form of line pair `i`: EOS appended to the target. */
  function Extended(sources: seq<seq<int>>, targets: seq<seq<int>>, i: nat): Example
    requires i < |sources| && i < |targets|
  {
    Example(sources[i], targets[i] + [EOS])
  }

  /** The contents of bucket `b` after the first `n` line pairs have been read. */
  function Stored(buckets: seq<Bucket>, sources: seq<seq<int>>, targets: seq<seq<int>>, n: nat, b: nat): seq<Example>
    requires n <= |sources| && n <= |targets|
  {
    if n == 0 then []
    else
      var earlier := Stored(buckets, sources, targets, n - 1, b);
      if Assign(buckets, sources[n - 1], targets[n - 1]) == Some(b)
      then earlier + [Extended(sources, targets, n - 1)]
      else earlier
  }

  /** `data_set` after the first `n` line pairs: one list per bucket. */
  function DataSet(buckets: seq<Bucket>, sources: seq<seq<int>>, targets: seq<seq<int>>, n: nat): (ds: seq<seq<Example>>)
    requires n <= |sources| && n <= |targets|
    ensures |ds| == |buckets|
  {
    seq(|buckets|, b requires 0 <= b < |buckets| => Stored(buckets, sources, targets, n, b))
  }

  /**
   * How many line pairs the loop consumes: it stops at the end of the shorter
   * file or after `maxSize` pairs; `maxSize == 0` (Python's falsy `None` or 0)
   * means no limit.
   */
  function LinesRead(sourceLines: nat, targetLines: nat, maxSize: nat): (n: nat)
    ensures n <= sourceLines && n <= targetLines
    ensures maxSize > 0 ==> n <= maxSize
    ensures n == sourceLines || n == targetLines || (maxSize > 0 && n == maxSize)
  {
    var shorter := if sourceLines <= targetLines then sourceLines else targetLines;
    if maxSize > 0 && maxSize < shorter then maxSize else shorter
  }

  /** Reading one more pair appends it to its assigned bucket and to no other. */
  lemma DataSetNext(buckets: seq<Bucket>, sources: seq<seq<int>>, targets: seq<seq<int>>, n: nat)
    requires n < |sources| && n < |targets|
    ensures DataSet(buckets, sources, targets, n + 1) ==
      match Assign(buckets, sources[n], targets[n])
      case None => DataSet(buckets, sources, targets, n)
      case Some(b) =>
        var ds := DataSet(buckets, sources, targets, n);
        ds[b := ds[b] + [Extended(sources, targets, n)]]
  {
  }

  /**
   * The bucket loop of `read_data` with its `break`: the example goes to the
   * first bucket whose bounds both exceed its lengths, or nowhere.
   */
  method Place(buckets: seq<Bucket>, dataSet: seq<seq<Example>>, sourceIds: seq<int>, targetIds: seq<int>)
    returns (placed: seq<seq<Example>>)
    requires |dataSet| == |buckets|
    ensures placed == match FirstFitFrom(buckets, |sourceIds|, |targetIds|, 0)
      case None => dataSet
      case Some(b) => dataSet[b := dataSet[b] + [Example(sourceIds, targetIds)]]
  {
    placed := dataSet;
    var bucketId := 0;
    while bucketId < |buckets|
      invariant bucketId <= |buckets|
      invariant FirstFitFrom(buckets, |sourceIds|, |targetIds|, 0) == FirstFitFrom(buckets, |sourceIds|, |targetIds|, bucketId)
    {
      if |sourceIds| < buckets[bucketId].sourceSize && |targetIds| < buckets[bucketId].targetSize {
        placed := dataSet[bucketId := dataSet[bucketId] + [Example(sourceIds, targetIds)]];
        return;
      }
      bucketId := bucketId + 1;
    }
  }

  /** `read_data`: the counter loop over the two files. */
  method ReadData(buckets: seq<Bucket>, sources: seq<seq<int>>, targets: seq<seq<int>>, maxSize: nat)
    returns (dataSet: seq<seq<Example>>)
    ensures |dataSet| == |buckets|
    ensures dataSet == DataSet(buckets, sources, targets, LinesRead(|sources|, |targets|, maxSize))
  {
    dataSet := seq(|buckets|, _ => []);
    var counter := 0;
    while counter < |sources| && counter < |targets| && (maxSize == 0 || counter < maxSize)
      invariant counter <= |sources| && counter <= |targets|
      invariant maxSize > 0 ==> counter <= maxSize
      invariant dataSet == DataSet(buckets, sources, targets, counter)
    {
      counter := counter + 1;
      var sourceIds := sources[counter - 1];
      var targetIds := targets[counter - 1] + [EOS];
      DataSetNext(buckets, sources, targets, counter - 1);
      dataSet := Place(buckets, dataSet, sourceIds, targetIds);
    }
  }

  /**
   * Every stored example came from some input line pair, with EOS appended to
   * its target (so it ends in EOS and is one longer than the parsed line), and
   * bucket `b` is the first bucket that fits it.
   */
  lemma {:induction false} StoredExamplesFirstFit(buckets: seq<Bucket>, sources: seq<seq<int>>, targets: seq<seq<int>>, n: nat, b: nat)
    requires n <= |sources| && n <= |targets|
    ensures forall ex :: ex in Stored(buckets, sources, targets, n, b) ==>
      (exists i :: 0 <= i < n && ex.source == sources[i] && ex.target == targets[i] + [EOS]) &&
      |ex.target| > 0 && ex.target[|ex.target| - 1] == EOS &&
      b < |buckets| && Fits(buckets[b], |ex.source|, |ex.target|) &&
      forall j :: 0 <= j < b ==> !Fits(buckets[j], |ex.source|, |ex.target|)
  {
    if n > 0 {
      StoredExamplesFirstFit(buckets, sources, targets, n - 1, b);
      if Assign(buckets, sources[n - 1], targets[n - 1]) == Some(b) {
        AssignIsFirstFit(buckets, sources[n - 1], targets[n - 1], b);
      }
    }
  }

  /** Whether line pair `i` went to bucket `b`, for every `i < n`. */
  function AssignedBits(buckets: seq<Bucket>, sources: seq<seq<int>>, targets: seq<seq<int>>, n: nat, b: nat): (bits: seq<bool>)
    requires n <= |sources| && n <= |targets|
    ensures |bits| == n
  {
    seq(n, i requires 0 <= i < n => Assign(buckets, sources[i], targets[i]) == Some(b))
  }

  /**
   * Input order is kept: bucket `b` holds exactly the line pairs assigned to
   * it, EOS-extended, listed by increasing line number.
   */
  lemma {:induction false} StoredInInputOrder(buckets: seq<Bucket>, sources: seq<seq<int>>, targets: seq<seq<int>>, n: nat, b: nat)
    requires n <= |sources| && n <= |targets|
    ensures var lines := Where(AssignedBits(buckets, sources, targets, n, b));
      var stored := Stored(buckets, sources, targets, n, b);
      |stored| == |lines| &&
      forall k :: 0 <= k < |lines| ==> 0 <= lines[k] < n && stored[k] == Extended(sources, targets, lines[k])
  {
    WhereIndices(AssignedBits(buckets, sources, targets, n, b));
    if n > 0 {
      StoredInInputOrder(buckets, sources, targets, n - 1, b);
      var bits := AssignedBits(buckets, sources, targets, n, b);
      assert bits[..n - 1] == AssignedBits(buckets, sources, targets, n - 1, b);
    }
  }

  /** The number of the first `n` line pairs that fit no bucket. */
  function Dropped(buckets: seq<Bucket>, sources: seq<seq<int>>, targets: seq<seq<int>>, n: nat): nat
    requires n <= |sources| && n <= |targets|
  {
    if n == 0 then 0
    else
      var dropped := if Assign(buckets, sources[n - 1], targets[n - 1]).None? then 1 else 0;
      Dropped(buckets, sources, targets, n - 1) + dropped
  }

  /** The number of examples held by buckets `0 .. k-1` after `n` line pairs. */
  function Kept(buckets: seq<Bucket>, sources: seq<seq<int>>, targets: seq<seq<int>>, n: nat, k: nat): nat
    requires n <= |sources| && n <= |targets|
  {
    if k == 0 then 0
    else Kept(buckets, sources, targets, n, k - 1) + |Stored(buckets, sources, targets, n, k - 1)|
  }

  lemma {:induction false} KeptInitially(buckets: seq<Bucket>, sources: seq<seq<int>>, targets: seq<seq<int>>, k: nat)
    ensures Kept(buckets, sources, targets, 0, k) == 0
  {
    if k > 0 {
      KeptInitially(buckets, sources, targets, k - 1);
    }
  }

  lemma {:induction false} KeptNext(buckets: seq<Bucket>, sources: seq<seq<int>>, targets: seq<seq<int>>, n: nat, k: nat)
    requires n < |sources| && n < |targets|
    ensures var a := Assign(buckets, sources[n], targets[n]);
      Kept(buckets, sources, targets, n + 1, k) ==
      Kept(buckets, sources, targets, n, k) + (if a.Some? && a.value < k then 1 else 0)
  {
    if k > 0 {
      KeptNext(buckets, sources, targets, n, k - 1);
    }
  }

  /**
   * Each line pair read is stored in exactly one bucket or dropped: the
   * buckets together hold as many examples as were read minus those dropped.
   */
  lemma {:induction false} KeptPlusDropped(buckets: seq<Bucket>, sources: seq<seq<int>>, targets: seq<seq<int>>, n: nat)
    requires n <= |sources| && n <= |targets|
    ensures Kept(buckets, sources, targets, n, |buckets|) + Dropped(buckets, sources, targets, n) == n
  {
    if n == 0 {
      KeptInitially(buckets, sources, targets, |buckets|);
    } else {
      KeptPlusDropped(buckets, sources, targets, n - 1);
      KeptNext(buckets, sources, targets, n - 1, |buckets|);
      var a := Assign(buckets, sources[n - 1], targets[n - 1]);
      assert a.Some? ==> a.value < |buckets|;
    }
  }
}
