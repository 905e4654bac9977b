/**
 * The bookkeeping of the training loop (`train` in nl_gen/execute.py).
 *
 * The loop runs until the process is killed; here it runs over a finite trace
 * of what the outside world supplies at each step: the uniform draw, the loss
 * returned by the model's training step and the elapsed wall-clock time. The
 * neural model, its batches and checkpoint files are not modelled. The
 * learning-rate decay op belongs to the unseen model class; it is taken to
 * multiply the rate by the configured decay factor.
 */
module Training {
  import opened Common
  import opened Bucketing
  import opened Sampling

  /** The configuration values the loop reads. */
  datatype Config = Config(stepsPerCheckpoint: nat, learningRate: real, decayFactor: real)

  /** The loop's variables, plus the model's learning rate. */
  datatype TrainState = TrainState(
    currentStep: nat,
    loss: real,
    stepTime: real,
    previousLosses: seq<real>,
    learningRate: real)

  /** The state before the first step. */
  function Fresh(cfg: Config): TrainState {
    TrainState(0, 0.0, 0.0, [], cfg.learningRate)
  }

  /** Python's `max` over a non-empty list. */
  function MaxOf(xs: seq<real>): real
    requires |xs| > 0
  {
    if |xs| == 1 then xs[0]
    else
      var tail := MaxOf(xs[1..]);
      if xs[0] >= tail then xs[0] else tail
  }

  /** `max` returns one of the elements, and none is larger. */
  lemma {:induction false} MaxOfIsMaximum(xs: seq<real>)
    requires |xs| > 0
    ensures MaxOf(xs) in xs
    ensures forall k :: 0 <= k < |xs| ==> xs[k] <= MaxOf(xs)
  {
    if |xs| > 1 {
      MaxOfIsMaximum(xs[1..]);
      assert forall k :: 1 <= k < |xs| ==> xs[k] == xs[1..][k - 1];
    }
  }

  /** `len(previous_losses) > 2 and loss > max(previous_losses[-3:])`. */
  predicate ShouldDecay(previousLosses: seq<real>, loss: real) {
    |previousLosses| > 2 && loss > MaxOf(previousLosses[|previousLosses| - 3..])
  }

  /**
   * The plateau test: decay exactly when at least three losses were recorded
   * before and the new one is worse than each of the last three.
   */
  lemma ShouldDecayIff(previousLosses: seq<real>, loss: real)
    ensures ShouldDecay(previousLosses, loss) <==>
      |previousLosses| >= 3 &&
      forall k :: |previousLosses| - 3 <= k < |previousLosses| ==> loss > previousLosses[k]
  {
    var n := |previousLosses|;
    if n >= 3 {
      var last := previousLosses[n - 3..];
      MaxOfIsMaximum(last);
      assert forall k :: n - 3 <= k < n ==> previousLosses[k] == last[k - (n - 3)];
    }
  }

  /**
   * One iteration of the loop: accumulate the mean loss and step time, count
   * the step and, every `stepsPerCheckpoint` steps, apply decay-on-plateau,
   * record the loss and reset the accumulators.
   */
  function Step(cfg: Config, st: TrainState, stepLoss: real, elapsed: real): TrainState
    requires cfg.stepsPerCheckpoint > 0
  {
    var perCheckpoint := cfg.stepsPerCheckpoint as real;
    var loss := st.loss + stepLoss / perCheckpoint;
    var stepTime := st.stepTime + elapsed / perCheckpoint;
    var currentStep := st.currentStep + 1;
    if currentStep % cfg.stepsPerCheckpoint != 0 then
      TrainState(currentStep, loss, stepTime, st.previousLosses, st.learningRate)
    else
      var learningRate :=
        if ShouldDecay(st.previousLosses, loss) then st.learningRate * cfg.decayFactor else st.learningRate;
      TrainState(currentStep, 0.0, 0.0, st.previousLosses + [loss], learningRate)
  }

  /** The state after the first `n` iterations from a fresh start. */
  function Run(cfg: Config, stepLosses: seq<real>, elapsed: seq<real>, n: nat): TrainState
    requires cfg.stepsPerCheckpoint > 0
    requires n <= |stepLosses| && n <= |elapsed|
  {
    if n == 0 then Fresh(cfg)
    else Step(cfg, Run(cfg, stepLosses, elapsed, n - 1), stepLosses[n - 1], elapsed[n - 1])
  }

  /**
   * What one iteration does at a checkpoint and between checkpoints: the step
   * counter grows by one; at a checkpoint the rate is decayed exactly when the
   * accumulated loss exceeds each of the last three recorded losses (with at
   * least three recorded), the loss is appended to the history and both
   * accumulators are reset; otherwise history and rate are untouched.
   */
  lemma CheckpointStep(cfg: Config, st: TrainState, stepLoss: real, elapsed: real)
    requires cfg.stepsPerCheckpoint > 0
    ensures var next := Step(cfg, st, stepLoss, elapsed);
      var loss := st.loss + stepLoss / cfg.stepsPerCheckpoint as real;
      var n := |st.previousLosses|;
      var plateau := n >= 3 && forall k :: n - 3 <= k < n ==> loss > st.previousLosses[k];
      next.currentStep == st.currentStep + 1 &&
      (next.currentStep % cfg.stepsPerCheckpoint == 0 ==>
        next.learningRate == (if plateau then st.learningRate * cfg.decayFactor else st.learningRate) &&
        next.previousLosses == st.previousLosses + [loss] &&
        next.loss == 0.0 && next.stepTime == 0.0) &&
      (next.currentStep % cfg.stepsPerCheckpoint != 0 ==>
        next.learningRate == st.learningRate &&
        next.previousLosses == st.previousLosses &&
        next.loss == loss)
  {
    ShouldDecayIff(st.previousLosses, st.loss + stepLoss / cfg.stepsPerCheckpoint as real);
  }

  /** The fields of one iteration other than the learning rate. */
  lemma StepFields(cfg: Config, st: TrainState, stepLoss: real, elapsed: real)
    requires cfg.stepsPerCheckpoint > 0
    ensures var next := Step(cfg, st, stepLoss, elapsed);
      var spc := cfg.stepsPerCheckpoint;
      var loss := st.loss + stepLoss / spc as real;
      var stepTime := st.stepTime + elapsed / spc as real;
      next.currentStep == st.currentStep + 1 &&
      (next.currentStep % spc != 0 ==>
        next.loss == loss && next.stepTime == stepTime && next.previousLosses == st.previousLosses) &&
      (next.currentStep % spc == 0 ==>
        next.loss == 0.0 && next.stepTime == 0.0 && next.previousLosses == st.previousLosses + [loss])
  {
  }

  lemma StepRate(cfg: Config, st: TrainState, stepLoss: real, elapsed: real)
    requires cfg.stepsPerCheckpoint > 0 && st.learningRate >= 0.0 && 0.0 <= cfg.decayFactor <= 1.0
    ensures 0.0 <= Step(cfg, st, stepLoss, elapsed).learningRate <= st.learningRate
  {
    var rate := Step(cfg, st, stepLoss, elapsed).learningRate;
    if rate != st.learningRate {
      assert rate == st.learningRate * cfg.decayFactor;
      DecayShrinks(st.learningRate, cfg.decayFactor);
      assert 0.0 <= st.learningRate * cfg.decayFactor;
      assert st.learningRate * cfg.decayFactor <= st.learningRate;
      assert rate <= st.learningRate;
    }
  }

  lemma DecayShrinks(learningRate: real, decayFactor: real)
    requires learningRate >= 0.0 && 0.0 <= decayFactor <= 1.0
    ensures 0.0 <= learningRate * decayFactor <= learningRate
  {
    assert learningRate - learningRate * decayFactor == learningRate * (1.0 - decayFactor);
  }

  /** With a decay factor in [0, 1] the learning rate never grows nor turns negative. */
  lemma {:induction false} LearningRateNonIncreasing(cfg: Config, stepLosses: seq<real>, elapsed: seq<real>, m: nat, n: nat)
    requires cfg.stepsPerCheckpoint > 0 && 0.0 <= cfg.decayFactor <= 1.0 && cfg.learningRate >= 0.0
    requires m <= n <= |stepLosses| && n <= |elapsed|
    ensures 0.0 <= Run(cfg, stepLosses, elapsed, n).learningRate <= Run(cfg, stepLosses, elapsed, m).learningRate
    ensures Run(cfg, stepLosses, elapsed, n).learningRate <= cfg.learningRate
  {
    if n > 0 {
      LearningRateNonIncreasing(cfg, stepLosses, elapsed, if m < n then m else 0, n - 1);
      StepRate(cfg, Run(cfg, stepLosses, elapsed, n - 1), stepLosses[n - 1], elapsed[n - 1]);
    }
  }

  /** Recorded losses are never rewritten: an earlier history is a prefix of a later one. */
  lemma {:induction false} HistoryOnlyGrows(cfg: Config, stepLosses: seq<real>, elapsed: seq<real>, m: nat, n: nat)
    requires cfg.stepsPerCheckpoint > 0
    requires m <= n <= |stepLosses| && n <= |elapsed|
    ensures Run(cfg, stepLosses, elapsed, m).previousLosses <= Run(cfg, stepLosses, elapsed, n).previousLosses
  {
    if m < n {
      HistoryOnlyGrows(cfg, stepLosses, elapsed, m, n - 1);
    }
  }

  /** `sum(xs[lo:hi]) / steps_per_checkpoint`, summed term by term as the loop does. */
  function MeanOver(xs: seq<real>, lo: nat, hi: nat, steps: nat): real
    requires lo <= hi <= |xs| && steps > 0
    decreases hi - lo
  {
    if lo == hi then 0.0 else MeanOver(xs, lo, hi - 1, steps) + xs[hi - 1] / steps as real
  }

  lemma DivisionUnique(x: nat, d: nat, q: nat, r: nat)
    requires d > 0 && r < d && x == q * d + r
    ensures x / d == q && x % d == r
  {
    var q', r' := x / d, x % d;
    assert x == q' * d + r';
    MultipleAtLeast(q - q', d);
    MultipleAtLeast(q' - q, d);
    assert (q - q') * d == q * d - q' * d;
    assert (q' - q) * d == q' * d - q * d;
  }

  lemma {:induction false} MultipleAtLeast(k: int, d: nat)
    ensures k >= 1 ==> k * d >= d
    decreases if k > 0 then k else 0
  {
    if k > 1 {
      MultipleAtLeast(k - 1, d);
      assert k * d == (k - 1) * d + d;
    }
  }

  /** Counting one more step moves the position within the checkpoint interval. */
  lemma StepPosition(n: nat, d: nat)
    requires d > 0
    ensures (n + 1) % d == (if n % d + 1 == d then 0 else n % d + 1)
    ensures (n + 1) / d == (if n % d + 1 == d then n / d + 1 else n / d)
  {
    var q, r := n / d, n % d;
    if r + 1 == d {
      assert n + 1 == (q + 1) * d + 0;
      DivisionUnique(n + 1, d, q + 1, 0);
    } else {
      assert n + 1 == q * d + (r + 1);
      DivisionUnique(n + 1, d, q, r + 1);
    }
  }

  /**
   * After `n` steps from a fresh start the step counter is `n` and one loss
   * was recorded per completed checkpoint interval.
   */
  lemma {:induction false} RunCounts(cfg: Config, stepLosses: seq<real>, elapsed: seq<real>, n: nat)
    requires cfg.stepsPerCheckpoint > 0
    requires n <= |stepLosses| && n <= |elapsed|
    ensures var st := Run(cfg, stepLosses, elapsed, n);
      st.currentStep == n && |st.previousLosses| == n / cfg.stepsPerCheckpoint
  {
    var spc := cfg.stepsPerCheckpoint;
    if n == 0 {
      assert 0 / spc == 0 by { DivisionUnique(0, spc, 0, 0); }
    } else {
      var prev := Run(cfg, stepLosses, elapsed, n - 1);
      assert Run(cfg, stepLosses, elapsed, n) == Step(cfg, prev, stepLosses[n - 1], elapsed[n - 1]);
      RunCounts(cfg, stepLosses, elapsed, n - 1);
      StepFields(cfg, prev, stepLosses[n - 1], elapsed[n - 1]);
      StepPosition(n - 1, spc);
    }
  }

  /**
   * After `n` steps the accumulators hold the mean step loss and step time
   * over the steps since the last checkpoint.
   */
  lemma {:induction false} RunAccumulators(cfg: Config, stepLosses: seq<real>, elapsed: seq<real>, n: nat)
    requires cfg.stepsPerCheckpoint > 0
    requires n <= |stepLosses| && n <= |elapsed|
    ensures var st := Run(cfg, stepLosses, elapsed, n);
      var start := n - n % cfg.stepsPerCheckpoint;
      st.loss == MeanOver(stepLosses, start, n, cfg.stepsPerCheckpoint) &&
      st.stepTime == MeanOver(elapsed, start, n, cfg.stepsPerCheckpoint)
  {
    var spc := cfg.stepsPerCheckpoint;
    if n == 0 {
      assert 0 % spc == 0 by { DivisionUnique(0, spc, 0, 0); }
    } else {
      var prev := Run(cfg, stepLosses, elapsed, n - 1);
      assert Run(cfg, stepLosses, elapsed, n) == Step(cfg, prev, stepLosses[n - 1], elapsed[n - 1]);
      RunAccumulators(cfg, stepLosses, elapsed, n - 1);
      RunCounts(cfg, stepLosses, elapsed, n - 1);
      StepFields(cfg, prev, stepLosses[n - 1], elapsed[n - 1]);
      StepPosition(n - 1, spc);
    }
  }

  /**
   * After `n` steps from a fresh start: the step counter is `n`; one loss was
   * recorded per completed checkpoint interval, and the latest recorded loss is
   * the mean step loss of the interval that just ended; the accumulators hold
   * the means over the steps since the last checkpoint.
   */
  lemma RunAccounting(cfg: Config, stepLosses: seq<real>, elapsed: seq<real>, n: nat)
    requires cfg.stepsPerCheckpoint > 0
    requires n <= |stepLosses| && n <= |elapsed|
    ensures var st := Run(cfg, stepLosses, elapsed, n);
      var spc := cfg.stepsPerCheckpoint;
      var start := n - n % spc;
      st.currentStep == n &&
      |st.previousLosses| == n / spc &&
      st.loss == MeanOver(stepLosses, start, n, spc) &&
      st.stepTime == MeanOver(elapsed, start, n, spc) &&
      (n >= spc && n % spc == 0 ==>
        st.previousLosses[|st.previousLosses| - 1] == MeanOver(stepLosses, n - spc, n, spc))
  {
    var spc := cfg.stepsPerCheckpoint;
    RunCounts(cfg, stepLosses, elapsed, n);
    RunAccumulators(cfg, stepLosses, elapsed, n);
    if n >= spc && n % spc == 0 {
      var prev := Run(cfg, stepLosses, elapsed, n - 1);
      assert Run(cfg, stepLosses, elapsed, n) == Step(cfg, prev, stepLosses[n - 1], elapsed[n - 1]);
      RunCounts(cfg, stepLosses, elapsed, n - 1);
      RunAccumulators(cfg, stepLosses, elapsed, n - 1);
      StepFields(cfg, prev, stepLosses[n - 1], elapsed[n - 1]);
      StepPosition(n - 1, spc);
      assert n - 1 - (n - 1) % spc == n - spc;
    }
  }

  /** `b` is the choice for draw `r` and a bucket holding training examples. */
  predicate Picked(trainSet: seq<seq<Example>>, scale: seq<real>, r: real, b: int) {
    ChooseBucket(scale, r) == Some(b) && 0 <= b < |trainSet| && |trainSet[b]| > 0
  }

  /**
   * `bucket_id = min([i for i in range(len(scale)) if scale[i] > r])` for a
   * draw `r` in [0, 1): the first bucket whose scale entry exceeds the draw,
   * and one that holds training examples.
   */
  method PickBucket(trainSet: seq<seq<Example>>, scale: seq<real>, r: real) returns (bucketId: int)
    requires Total(Sizes(trainSet)) > 0 && 0.0 <= r < 1.0
    requires Scale(Sizes(trainSet)) == Some(scale)
    ensures Picked(trainSet, scale, r, bucketId)
  {
    SampledBucketNonEmpty(trainSet, r);
    bucketId := ChooseBucket(scale, r).value;
  }

  /**
   * The bookkeeping half of one iteration, on the loop's variables: the step
   * loss and time are accumulated as running means, the step is counted and,
   * at a checkpoint, the plateau test may decay the rate, the loss is
   * recorded and the accumulators are reset.
   */
  method Account(cfg: Config, st: TrainState, stepLoss: real, elapsed: real) returns (next: TrainState)
    requires cfg.stepsPerCheckpoint > 0
    ensures next == Step(cfg, st, stepLoss, elapsed)
  {
    var perCheckpoint := cfg.stepsPerCheckpoint as real;
    var stepTime := st.stepTime + elapsed / perCheckpoint;
    var loss := st.loss + stepLoss / perCheckpoint;
    var currentStep := st.currentStep + 1;
    var previousLosses := st.previousLosses;
    var learningRate := st.learningRate;
    if currentStep % cfg.stepsPerCheckpoint == 0 {
      var decay := |previousLosses| > 2 && loss > MaxOf(previousLosses[|previousLosses| - 3..]);
      if decay {
        learningRate := learningRate * cfg.decayFactor;
      }
      previousLosses := previousLosses + [loss];
      stepTime, loss := 0.0, 0.0;
    }
    next := TrainState(currentStep, loss, stepTime, previousLosses, learningRate);
  }

  /**
   * The training loop over a finite trace: at each iteration the bucket is
   * chosen from the training set's scale with that iteration's draw, the model
   * step (outside this model) yields `stepLosses[i]` after `elapsed[i]`
   * seconds, and the bookkeeping is updated. Every chosen bucket is one with
   * training examples, so a batch can be drawn from it.
   */
  method Train(cfg: Config, trainSet: seq<seq<Example>>, draws: seq<real>, stepLosses: seq<real>, elapsed: seq<real>)
    returns (state: TrainState, chosen: seq<int>)
    requires cfg.stepsPerCheckpoint > 0
    requires Total(Sizes(trainSet)) > 0
    requires |stepLosses| == |draws| && |elapsed| == |draws|
    requires forall i :: 0 <= i < |draws| ==> 0.0 <= draws[i] < 1.0
    ensures state == Run(cfg, stepLosses, elapsed, |draws|)
    ensures |chosen| == |draws|
    ensures forall k :: 0 <= k < |chosen| ==> 0 <= chosen[k] < |trainSet| && |trainSet[chosen[k]]| > 0
    ensures forall k :: 0 <= k < |chosen| ==>
      ChooseBucket(Scale(Sizes(trainSet)).value, draws[k]) == Some(chosen[k])
  {
    var trainBucketSizes := Sizes(trainSet);
    var trainBucketsScale := Scale(trainBucketSizes).value;
    state := Fresh(cfg);
    chosen := [];
    var currentStep := 0;
    while currentStep < |draws|
      invariant currentStep <= |draws| && |chosen| == currentStep
      invariant state == Run(cfg, stepLosses, elapsed, currentStep)
      invariant forall k :: 0 <= k < currentStep ==> Picked(trainSet, trainBucketsScale, draws[k], chosen[k])
    {
      var randomNumber01 := draws[currentStep];
      var bucketId := PickBucket(trainSet, trainBucketsScale, randomNumber01);
      chosen := chosen + [bucketId];
      state := Account(cfg, state, stepLosses[currentStep], elapsed[currentStep]);
      currentStep := currentStep + 1;
    }
  }

  /**
   * The evaluation pass at each checkpoint: one forward-only step per dev
   * bucket, skipping the empty ones. Returns the buckets evaluated.
   */
  method DevEvalBuckets(devSet: seq<seq<Example>>) returns (evaluated: seq<int>)
    ensures forall b :: b in evaluated <==> 0 <= b < |devSet| && |devSet[b]| > 0
    ensures forall j, k :: 0 <= j < k < |evaluated| ==> evaluated[j] < evaluated[k]
  {
    evaluated := [];
    for bucketId := 0 to |devSet|
      invariant forall b :: b in evaluated <==> 0 <= b < bucketId && |devSet[b]| > 0
      invariant forall j, k :: 0 <= j < k < |evaluated| ==> evaluated[j] < evaluated[k]
      invariant forall k :: 0 <= k < |evaluated| ==> evaluated[k] < bucketId
    {
      if |devSet[bucketId]| == 0 {
        continue;
      }
      evaluated := evaluated + [bucketId];
    }
  }
}
