# Headline generator: bucketing, sampling, training bookkeeping, decoding and tokenizing

This project models the control logic of a sequence-to-sequence headline
generator, with the neural model, TensorFlow and all file and terminal I/O
abstracted away, and proves what that logic guarantees.

- `Bucketing` (`bucketing.dfy`) covers `read_data`. Parallel source/target lines,
  already parsed into token ids, are read up to the shorter input or `max_size`.
  Each target gets EOS appended. Each pair is stored in the first bucket whose
  two bounds strictly exceed its two lengths. A pair that fits nowhere is
  dropped. The proofs hold for any bucket list: the repository's own
  `_buckets` is not sorted in the target dimension, since `(30, 20)` comes
  before `(40, 10)`. The buckets are sometimes described as non-decreasing in
  both dimensions, but the code's list is not, and the model follows the code.
- `Sampling` (`sampling.dfy`) covers the training-bucket scale and the choice
  of a bucket for a uniform draw `r` in [0, 1).
- `Training` (`training.dfy`) covers the training loop's bookkeeping over a
  finite trace of draws, step losses and step times. This includes running
  means, the checkpoint, decay on a plateau, the loss history and the skip of
  empty dev buckets.
- `Decoding` (`decoding.dfy`) covers the choice of bucket at inference and the
  cut of the greedy output at the first EOS.
- `Tokenizer` (`tokenizer.dfy`) covers the evaluation tokenizer: `strip`,
  `split`, `re.split` around the punctuation class with a capturing group, and
  dropping empty pieces.
- `Common` (`common.dfy`) holds the shared pieces: `Option`, the index filter
  `[i for i in range(n) if ...]`, and `min`.

Imperative source code is modelled as methods whose loops are proved against
pure specification functions:

- `ReadData` and `Place` are proved against `DataSet` and `FirstFitFrom`.
- `Train`, `PickBucket` and `Account` are proved against `Run`, `Step` and
  `ChooseBucket`.
- `DevEvalBuckets` is proved directly.
- `Tokenize` is proved against `Tokens`.

The properties are lemmas about those functions.

## Model

| member | source | states |
|---|---|---|
| Common.WhereIndices | nl_gen/execute.py:105-106 | the index comprehension lists exactly the indices whose condition holds, each in range, strictly increasing |
| Common.MinOfIsMinimum | nl_gen/execute.py:105 | `min` of a non-empty list is an element of it and no element is smaller |
| Bucketing.FirstFitFrom | nl_gen/execute.py:48-51 | the bucket loop with `break` finds a fitting bucket with none fitting before it, or reports that none fits |
| Bucketing.AssignIsFirstFit | nl_gen/execute.py:48-51 | a pair is assigned to bucket b iff b fits its source length and EOS-extended target length and no earlier bucket does |
| Bucketing.DroppedIffNoBucketFits | nl_gen/execute.py:48-51 | a pair is dropped iff no bucket fits it |
| Bucketing.DataSet | nl_gen/execute.py:35 | the data set has one list per bucket |
| Bucketing.LinesRead | nl_gen/execute.py:40 | the loop reads no more pairs than either input has and no more than `max_size` when that is set; it stops at the shorter input or at `max_size` |
| Bucketing.DataSetNext | nl_gen/execute.py:48-51 | reading one more pair appends it to its assigned bucket only, or changes nothing when it is dropped |
| Bucketing.Place | nl_gen/execute.py:48-51 | the bucket loop appends the EOS-extended example to the first fitting bucket and to no other, or leaves the data set unchanged |
| Bucketing.ReadData | nl_gen/execute.py:40-52 | the reading loop returns the data set obtained from the first `LinesRead` pairs |
| Bucketing.StoredExamplesFirstFit | nl_gen/execute.py:45-51 | every stored example is an input pair with EOS appended to its target, so its target ends in EOS and is one longer, and it sits in the first bucket that fits it |
| Bucketing.StoredInInputOrder | nl_gen/execute.py:40-52 | a bucket holds exactly the pairs assigned to it, EOS-extended, in increasing line order |
| Bucketing.KeptPlusDropped | nl_gen/execute.py:48-51 | every pair read is stored in exactly one bucket or dropped: stored plus dropped equals pairs read |
| Sampling.Scale | nl_gen/execute.py:93-97 | the scale exists unless the bucket list is non-empty and all buckets are empty (the division by zero); it has one entry per bucket |
| Sampling.ScaleMonotone | nl_gen/execute.py:96-97 | scale entries never decrease |
| Sampling.ScaleBounded | nl_gen/execute.py:96-97 | each scale entry lies in [0, 1] and the last is exactly 1 |
| Sampling.ScaleIsCumulative | nl_gen/execute.py:93-97 | with some training example, the scale is non-empty, non-decreasing, within [0, 1] and ends at 1 |
| Sampling.ChooseBucketIsFirst | nl_gen/execute.py:104-106 | the chosen bucket is the smallest index whose scale entry exceeds the draw; there is no choice iff no entry exceeds it |
| Sampling.SliceWidth | nl_gen/execute.py:96-97 | the slice of [0, 1) that belongs to bucket b is exactly as wide as b's share of the examples |
| Sampling.ChosenIffInSlice | nl_gen/execute.py:104-106 | over a non-decreasing scale, bucket b is chosen iff the draw falls in [Lower(b), scale[b]) |
| Sampling.ChoiceIsProportional | nl_gen/execute.py:93-106 | b is chosen exactly for draws in a slice whose width is b's share of the training examples |
| Sampling.SampledBucketNonEmpty | nl_gen/execute.py:104-106 | for every draw in [0, 1), the candidate list is non-empty and the chosen bucket holds training examples |
| Training.MaxOfIsMaximum | nl_gen/execute.py:126 | `max` returns an element and none is larger |
| Training.ShouldDecayIff | nl_gen/execute.py:126 | the plateau test holds iff at least three losses are recorded and the new loss exceeds each of the last three |
| Training.StepFields | nl_gen/execute.py:114-132 | one step counts itself; between checkpoints it accumulates the means and keeps the history; at a checkpoint it appends the mean loss and resets both accumulators |
| Training.CheckpointStep | nl_gen/execute.py:114-132 | as StepFields, and at a checkpoint the rate is decayed iff the plateau test holds; otherwise the rate is unchanged |
| Training.StepRate | nl_gen/execute.py:126-127 | with a decay factor in [0, 1], one step never raises the rate nor makes it negative |
| Training.LearningRateNonIncreasing | nl_gen/execute.py:126-127 | over a run the learning rate never increases and stays within [0, initial rate] |
| Training.HistoryOnlyGrows | nl_gen/execute.py:128 | an earlier loss history is a prefix of every later one |
| Training.RunCounts | nl_gen/execute.py:116-128 | after n steps the counter is n and n / stepsPerCheckpoint losses are recorded |
| Training.RunAccumulators | nl_gen/execute.py:114-132 | after n steps the loss and time accumulators hold the means over the steps since the last checkpoint |
| Training.RunAccounting | nl_gen/execute.py:114-132 | combines RunCounts and RunAccumulators; at a checkpoint the latest recorded loss is the mean step loss of the interval that just ended |
| Training.PickBucket | nl_gen/execute.py:104-106 | the bucket picked for a draw in [0, 1) is the choice for that draw and holds training examples |
| Training.Account | nl_gen/execute.py:114-132 | the imperative bookkeeping of one iteration produces exactly `Step` |
| Training.Train | nl_gen/execute.py:100-132 | after the trace, the loop state is `Run` over it; every step picked the chosen bucket for its draw, and that bucket was non-empty |
| Training.DevEvalBuckets | nl_gen/execute.py:134-143 | exactly the non-empty dev buckets are evaluated, in increasing order |
| Decoding.InferenceBucketIsFirstLarger | nl_gen/execute.py:168 | the inference bucket (also at line 210) is a valid index: the first bucket whose source bound exceeds the input length, or the last bucket when none does; with no buckets it is -1, the fallback entry |
| Decoding.DefaultInferenceBucket | nl_gen/execute.py:168 | with the default buckets, inputs shorter than 30 use bucket 0, 30..39 use bucket 2, and longer ones use bucket 4 |
| Decoding.IndexOf | nl_gen/execute.py:177 | `list.index` gives the position of the first occurrence |
| Decoding.TruncationCutsAtFirstEos | nl_gen/execute.py:176-177 | the emitted ids (also at lines 217-218) contain no EOS and are a prefix of the argmax ids, cut exactly at the first EOS; unchanged when there is no EOS |
| Decoding.TruncationIdempotent | nl_gen/execute.py:176-177 | cutting a second time changes nothing |
| Tokenizer.LeadingSpace | nl_gen/evaluation.py:11 | `lstrip` removes a run of whitespace and stops at the first non-whitespace character |
| Tokenizer.TrailingSpace | nl_gen/evaluation.py:11 | `rstrip` removes a run of whitespace and stops at the last non-whitespace character |
| Tokenizer.Strip | nl_gen/evaluation.py:11 | a stripped sentence neither starts nor ends with whitespace |
| Tokenizer.WordLength | nl_gen/evaluation.py:11 | a word runs up to the first whitespace character |
| Tokenizer.SplitWords | nl_gen/evaluation.py:11 | every word `split` returns is non-empty and free of whitespace |
| Tokenizer.PunctIndex | nl_gen/evaluation.py:5 | finds the first character of the punctuation class, with none before it |
| Tokenizer.RegexSplitOdd | nl_gen/evaluation.py:12 | `re.split` with a capturing group returns an odd number of pieces |
| Tokenizer.RegexSplitAlternates | nl_gen/evaluation.py:12 | the pieces alternate: runs without punctuation at even positions, single punctuation characters at odd ones |
| Tokenizer.RegexSplitKeepsNoSpace | nl_gen/evaluation.py:12 | splitting a whitespace-free fragment yields whitespace-free pieces |
| Tokenizer.ConcatRegexSplit | nl_gen/evaluation.py:12 | the pieces of one fragment concatenate back to the fragment |
| Tokenizer.NonEmptyMembers | nl_gen/evaluation.py:13 | the filter keeps exactly the non-empty words |
| Tokenizer.NonEmptyKeepsOrder | nl_gen/evaluation.py:13 | the filter's k-th result is the k-th non-empty word, in input order with repeats kept |
| Tokenizer.NonEmptyAppend | nl_gen/evaluation.py:13 | filtering a concatenation filters each part in turn |
| Tokenizer.Tokenize | nl_gen/evaluation.py:8-13 | the loop with `extend` and the final filter return `Tokens(sentence)`; each token is non-empty, whitespace-free, and a single punctuation character or punctuation-free; the tokens concatenate to the sentence without its whitespace; punctuation tokens are as many as punctuation characters |
| Tokenizer.ConcatSplit | nl_gen/evaluation.py:11 | the words of `split` concatenate to the text without its whitespace |
| Tokenizer.RemoveSpacesStrip | nl_gen/evaluation.py:11 | stripping removes only whitespace |
| Tokenizer.TokensKeepAllCharacters | nl_gen/evaluation.py:11-13 | the tokens, concatenated in order, are the sentence with all whitespace removed |
| Tokenizer.TokensShaped | nl_gen/evaluation.py:11-13 | every token is non-empty, has no whitespace, and is a single punctuation character or contains none |
| Tokenizer.PunctuationTokenCount | nl_gen/evaluation.py:8-13 | every punctuation character of the sentence becomes a one-character token: their counts agree |
| Tokenizer.SplitOfStrip | nl_gen/evaluation.py:11 | `strip` before `split` does not change the words |
| Tokenizer.SurroundingWhitespaceIgnored | nl_gen/evaluation.py:11 | whitespace added before or after a sentence does not change its tokens |
| Tokenizer.BlankSentenceTokens | nl_gen/evaluation.py:11-13 | an empty or all-whitespace sentence has no tokens |
| Tokenizer.SplitJoin | nl_gen/evaluation.py:11 | text that starts with whitespace is split apart from what precedes it: the words of `x + y` are those of `x` followed by those of `y` |
| Tokenizer.SplitSeparated | nl_gen/evaluation.py:11 | `split` never joins across a whitespace character: the words of `a + c + b` are those of `a` followed by those of `b` |
| Tokenizer.RegexSplitAllAppend | nl_gen/evaluation.py:10-12 | splitting a list of fragments around punctuation splits each part in turn |
| Tokenizer.TokensOfWords | nl_gen/evaluation.py:11-13 | the tokens are the filtered punctuation splits of the `split` words, with or without the `strip` |
| Tokenizer.TokensSeparated | nl_gen/evaluation.py:8-13 | no token spans whitespace: the tokens of `a + c + b` for a whitespace `c` are the tokens of `a` followed by those of `b` |
| Tokenizer.TokensOfFragment | nl_gen/evaluation.py:8-13 | a non-empty whitespace-free fragment is one `split` word: its tokens are exactly the non-empty pieces of `re.split`, in order |
| Tokenizer.BlankSentenceHasNoTokens | nl_gen/evaluation.py:11-13 | a sentence has no tokens iff it is empty or all whitespace |

## Left out

- TensorFlow session, model construction, checkpoint restore and save (nl_gen/execute.py:56-71, 83-86, 130-131): these are foreign library calls.
- `model.get_batch` and `model.step`: the step loss, the step time and the argmax ids they produce are inputs to the model.
- `data_utils` is not part of this model. `EOS_ID` is taken to be 2, with PAD = 0, GO = 1 and UNK = 3. `sentence_to_token_ids` is replaced by the input length. Lines are taken as already parsed into ids, so `int()` failures are not modelled.
- File and terminal I/O, progress printing, `get_config`, and the `__main__` dispatch. Only the per-line and per-step logic is modelled.
- `np.random.random_sample` and `time.time`: draws and elapsed times are parameters.
- Floating point: losses, times, the scale and the learning rate are exact reals, so rounding is not modelled. `math.exp` perplexity with its 300 cut-off is only printed and is left out.
- The learning-rate decay op lives in the unseen model class. It is taken to multiply the rate by the configured decay factor.
- Training.Train: the `while True` loop is modelled over a finite trace of iterations.
- Training.Train: it requires a training set with at least one example and `stepsPerCheckpoint > 0`. An empty training set makes the source raise ZeroDivisionError when it builds the scale, which `Scale` models as None; `min([])` is modelled by `ChooseBucket` returning None. A `steps_per_checkpoint` of 0 raises ZeroDivisionError at the first division of the step time.
- Training.Config: a negative `steps_per_checkpoint` is not modelled, because the field is a natural number. The source would then run normally, with negated step-time and loss means and a checkpoint every |steps_per_checkpoint| steps.
- Bucketing.ReadData: `max_size` is a natural number, with 0 standing for Python's falsy `None`/0 ("no limit"). A negative `max_size` is not modelled.
- `getBLEUscore` and `main` in nl_gen/evaluation.py: these are nltk, pandas and file glue.
- abstractive/train.py: Keras, sklearn and pandas glue with no logic of its own.
