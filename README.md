# Route-prediction training utilities in Dafny

This project models the integer and sequence bookkeeping of
`route_prediction/utils/util.py` in the LaDe route-prediction code: the
pieces that decide when training stops and which samples take part in
training and evaluation. The model covers:

- **Early stopping.** `whether_stop` is modelled as a loop method, and the
  `EarlyStop` object as a class. The object keeps the score history, the stop
  flag, the best epoch (-1 before any score) and whether the last `append`
  moved the best epoch. Its `Valid()` invariant ties the flag and the best
  epoch to the history.
- **Pad filters.** `get_reinforce_samples`, `get_nonzeros_nrl` and
  `get_nonzeros_eta` keep the rows whose label row is not all padding, and
  slice every parallel field by the same rows. Tensors are sequences of rows.
  Log-probabilities and ETA values are type parameters.
- **Reward pre-filtering** in `calc_reinforce_rewards`. `filter_len` and the
  cleaning of every predicted route are modelled. The three metrics of
  `utils.eval` are function parameters.
- **`get_log_prob_mask`**, a two-dimensional array filled row by row.
- **`filter_data`** and **`dict_merge`**, pure functions over maps of
  sequences.
- **`timestamp2str`**. It splits a timestamp into the time of day at UTC+8
  and prints it as `h:m:s` without zero padding.

Module layout:

- `seqs.dfy` (`Seqs`): the shared vocabulary. `Where` gives the positions a
  test keeps, `Gather` selects rows by position, and `Filter` is Python's
  `filter`.
- `early_stop.dfy` (`EarlyStopping`)
- `batch_filter.dfy` (`BatchFilter`)
- `reward.dfy` (`Reward`)
- `dataset.dfy` (`Dataset`)
- `clock.dfy` (`Clock`)

The two tie-breaks of early stopping differ, as in the source. The stop test
keeps the LAST index of the optimum, because its scan updates on equality.
The best epoch is the FIRST index, because it comes from `list.index`. The
`mode` string has three cases (`Maximize`, `Minimize`, `OtherMode`):

- `whether_stop` negates the scores only for `'minimize'`.
- `append` looks for a maximum only for `'maximize'`.

So an unrecognised mode string stops by the maximum but reports the minimum.

Three behaviours of the code that a reader might not expect:

- The stop flag is not terminal. `append` recomputes it from the whole
  history every time, so with a patience of at least 1 a later score that
  ties or beats the best clears it again (`EarlyStopping.TieClearsStop`).
- The history keeps the scores as given in every mode. Only `whether_stop`
  negates them, on a copy, so `best_metric` returns the raw minimum in
  'minimize' mode.
- The reward pre-filter bounds the cleaned indices by the width of the first
  KEPT prediction row minus one, not by the batch's maximum label length.

## Model

| member | source | states |
|---|---|---|
| Seqs.WhereSpec | route_prediction/utils/util.py:271 | The positions an enumerate-comprehension keeps are exactly those whose element passes the test. They are increasing, and the list is empty exactly when no element passes. |
| Seqs.FilterCounts | route_prediction/utils/util.py:100 | `filter` keeps every passing element exactly as often as it occurs, and nothing else. |
| Seqs.FilterIsGatherWhere | route_prediction/utils/util.py:100 | `filter` output is the input's elements at the passing positions, in their original order. |
| Seqs.FilterIncreasing | route_prediction/utils/util.py:273 | Filtering an increasing index list leaves it increasing. |
| Seqs.IncreasingUnique | route_prediction/utils/util.py:273 | Two increasing index lists with the same members are equal. A membership test against `keep_idx` therefore gives the same rows as `keep_idx` itself. |
| EarlyStopping.MaxSpec | route_prediction/utils/util.py:36 | `max` returns an element of the list that no element exceeds. |
| EarlyStopping.MinSpec | route_prediction/utils/util.py:60 | `min` returns an element of the list that no element undercuts. |
| EarlyStopping.LastIndexOfSpec | route_prediction/utils/util.py:37-39 | The scan ends on the last position holding the value, and stays at 0 when no position holds it. |
| EarlyStopping.WhetherStop | route_prediction/utils/util.py:28-40 | The loop returns `Stop`: false on an empty list, otherwise whether the last index of the optimum lies before `len - n`. |
| EarlyStopping.StopMeansBestIsStale | route_prediction/utils/util.py:28-40 | Stopping holds exactly when some score strictly beats every score in the last `n`. A history of at most `n` scores never stops. |
| EarlyStopping.StopPersists | route_prediction/utils/util.py:28-40 | Once stopped, appending a score strictly worse than some earlier score keeps the stop. |
| EarlyStopping.TieClearsStop | route_prediction/utils/util.py:37-40 | With patience at least 1, appending a score that ties or beats every earlier score clears the stop. |
| EarlyStopping.IndexOfSpec | route_prediction/utils/util.py:60 | `list.index` returns the first position that holds the value. |
| EarlyStopping.BestEpochSpec | route_prediction/utils/util.py:60 | The best epoch holds an optimal score (max for 'maximize', min otherwise), and no earlier position does. |
| EarlyStopping.BestEpochScore | route_prediction/utils/util.py:60 | The score at the best epoch is the history's `max` in 'maximize' mode and its `min` otherwise. |
| EarlyStopping.FirstBestUnique | route_prediction/utils/util.py:60 | The first optimal position is unique. |
| EarlyStopping.BestEpochAfterAppend | route_prediction/utils/util.py:56-63 | After an append, the best epoch moves to the new entry exactly when the new score strictly beats every earlier one. Otherwise it stays where it was. |
| EarlyStopping.BestMoves | route_prediction/utils/util.py:60-66 | The best epoch differs from the previous one (-1 before any score) exactly when the history was empty or the new score strictly improves on all earlier ones. |
| EarlyStopping.EarlyStop.constructor | route_prediction/utils/util.py:47-53 | The object starts with an empty history, the stop flag false, best epoch -1 and no best change, and it satisfies `Valid()`. |
| EarlyStopping.EarlyStop.Append | route_prediction/utils/util.py:55-66 | The history gains `x` at the end. The stop flag becomes `whether_stop(history, patience, mode)` and the best epoch becomes the first index of the optimum. The result is true exactly when the history was empty or `x` strictly improves on every earlier score. A false result leaves the best epoch unchanged. `Valid()` is kept. |
| EarlyStopping.EarlyStop.BestMetric | route_prediction/utils/util.py:68-71 | Returns -1 on an empty history. Otherwise it returns the max of the history in 'maximize' mode and the min in any other mode. |
| EarlyStopping.PatienceTwoRun | route_prediction/utils/util.py:28-71 | With patience 2 and the scores 0.1, 0.5, 0.3, 0.2, the appends report true, true, false, false. The run ends stopped, with best epoch 1 and best metric 0.5. |
| BatchFilter.RowMin | route_prediction/utils/util.py:116 | `row.min()` is an element of the row that no element undercuts. |
| BatchFilter.KeptRowsSpec | route_prediction/utils/util.py:138-139 | Row `i` is kept exactly when `min(label_steps[i]) != pad_value`. Kept rows are in increasing order, and none is kept exactly when no label row passes. |
| BatchFilter.SelectedIsGather | route_prediction/utils/util.py:138-143 | Appending row by row yields exactly the field's rows at the kept positions, in order. |
| BatchFilter.KeptIffRealTask | route_prediction/utils/util.py:139 | An all-pad label row is dropped. When no entry exceeds the pad value, a row is kept exactly when it holds a real task. |
| BatchFilter.AllPadBatchKeepsNothing | route_prediction/utils/util.py:138-139 | A batch whose label rows are all padding keeps no row. |
| BatchFilter.GetNonzerosNrl | route_prediction/utils/util.py:133-145 | Each of the four outputs is its input field restricted to the kept rows, in order, so all outputs have equal length and entry `j` of each comes from the same original row. |
| BatchFilter.GetNonzerosEta | route_prediction/utils/util.py:358-377 | Each of the six outputs, including both ETA fields, is its input restricted to the same kept rows, in order. |
| BatchFilter.CollectReinforceSamples | route_prediction/utils/util.py:108-122 | Each of the six collected lists, log-probabilities included, is its input restricted to the same kept rows, in order. Every list is empty when no row is kept. |
| BatchFilter.GetReinforceSamples | route_prediction/utils/util.py:108-124 | Fails exactly when no row is kept, because of the stack of an empty list. Otherwise each of the six fields (predictions, greedy predictions, labels, lengths, log-probabilities, predicted lengths) is its input restricted to the same kept rows, in order. |
| BatchFilter.AllPadReinforceBatch | route_prediction/utils/util.py:121-124 | On one all-pad sample (pad 24), the function as written fails, while the intended outputs are all empty. |
| Reward.LenKeptSpec | route_prediction/utils/util.py:84-89 | Sample `i` survives `filter_len` exactly when `1 <= label_len[i] <= max_task_num`, and the survivors stay in order. |
| Reward.FilterLen | route_prediction/utils/util.py:83-93 | Predictions, labels and lengths are each restricted to the same surviving samples, in order. |
| Reward.Cleaned | route_prediction/utils/util.py:98-100 | A cleaned route holds each entry below `width - 1` exactly as often as the route does, and nothing else. |
| Reward.CleanedKeepsOrder | route_prediction/utils/util.py:98-100 | A cleaned route is the route's subsequence at the increasing positions whose entry lies below `width - 1`. |
| Reward.CleanedBySet | route_prediction/utils/util.py:99-100 | Filtering a route by membership in the set of its entries below `width - 1` gives the cleaned route. |
| Reward.CleanPredictions | route_prediction/utils/util.py:97-101 | Every route is replaced by its cleaned form, with the width taken from the first route. |
| Reward.Prefix | route_prediction/utils/util.py:104 | `lab[:lab_len]` is a prefix of the label, of length `lab_len` when that lies within the label, and the whole label when `lab_len` is at least its length. |
| Reward.CalcReinforceRewards | route_prediction/utils/util.py:74-106 | There is one reward triple per sample that `filter_len` keeps, in order. Each is the metric of the cleaned route, the label and the length, with the cleaning width taken from the first kept route. The accuracy uses the label prefix `[:lab_len]` and top 3. |
| Reward.SliceEnd | route_prediction/utils/util.py:130 | The end of the slice `[:v]` over a row of length `len` is `v` when `0 <= v <= len`, `len` when `v >= len`, `len + v` for a negative `v` down to `-len`, and 0 below that; it always lies within the row. |
| Reward.GetLogProbMask | route_prediction/utils/util.py:126-131 | The mask is `N x max_task_num` and fresh. `mask[i][j]` is 1 over `[:pred_len[i]]` and 0 elsewhere. For a non-negative length it is 1 exactly when `j < pred_len[i]`. |
| Dataset.KeepIdxSpec | route_prediction/utils/util.py:271 | Position `i` is kept exactly when its length lies in `[min_len, max_len]`, bounds inclusive, and kept positions are increasing. |
| Dataset.KeepAt | route_prediction/utils/util.py:273 | Keeping the entries whose index is in an increasing `keep` gives the entries at those indices of `keep` that exist, in order. |
| Dataset.FilterData | route_prediction/utils/util.py:266-274 | The key set is unchanged, and every list is restricted to the kept positions it has, in order. |
| Dataset.FilterDataAligned | route_prediction/utils/util.py:266-274 | When every list has one entry per sample, every list is restricted to exactly the kept positions. All outputs then have equal length, and every kept length lies in range. |
| Dataset.DictMerge | route_prediction/utils/util.py:155-160 | Folding the dictionaries left to right with `{**merged, **dic}` yields a dictionary holding every key of every input dictionary. |
| Dataset.DictMergeKeys | route_prediction/utils/util.py:155-160 | A key is in the merge exactly when some dictionary holds it. |
| Dataset.DictMergeLast | route_prediction/utils/util.py:155-160 | A key's merged value comes from the last dictionary that holds it. |
| Dataset.DictMergeConcat | route_prediction/utils/util.py:155-160 | Merging a concatenation equals merging the two merges, with the second winning. |
| Clock.ClockFields | route_prediction/utils/util.py:192-196 | The hour is below 24, and the minute and second are below 60. `hour*3600 + minute*60 + second` equals `(t + 28800) mod 86400`. |
| Clock.Decimal | route_prediction/utils/util.py:197 | `str(n)` is a non-empty digit string without a leading zero, one character below 10 and at most two below 100. |
| Clock.DecimalRoundTrip | route_prediction/utils/util.py:197 | Reading back the digits of `str(n)` gives `n`. |
| Clock.ClockStringRoundTrip | route_prediction/utils/util.py:197 | A valid time of day printed as `h:m:s` splits on `:` and parses back to itself. |
| Clock.Timestamp2Str | route_prediction/utils/util.py:191-198 | The string has 5 to 8 characters and parses back to the time of day of `t` at UTC+8. It splits on `:` into exactly three fields, none zero-padded (each is one digit or does not start with `0`), so together with the parse-back it is exactly `f'{hour}:{minute}:{second}'`. |

## Left out

- `train_val_test`, `run` and the running-average loss. They are
  orchestration over models, the optimiser, progress bars, checkpoint files
  and metric reporting, plus floating-point averaging.
- `kendall_rank_correlation`, `location_deviation` and `route_acc`. They
  live in `utils.eval`, which is not part of this model, so they are function
  parameters of `Reward.CalcReinforceRewards`.
- The `np.array` wrapping of the reward lists. The rewards are sequences of
  reals.
- Tensor device moves, `.cpu().numpy().tolist()` and `tensor2lst`, which are
  identities on sequences.
- `torch.LongTensor` of the filtered lists is also treated as an identity, so
  a non-integer ETA value is not truncated. ETA and log-probability values are
  type parameters.
- Clock.Timestamp2Str: takes the integer part of the timestamp as input, so
  `int(stamp)` on a float, which truncates towards zero, is not modelled.
- Scores are `real`, so NaN and floating-point rounding in comparisons are
  not modelled.
- The `mode` string is reduced to three cases, which is all the source
  distinguishes.
- Dataset.DictMerge: the insertion order of dictionary keys and the
  `isinstance` assertion are not modelled. The inputs are maps by type.
- Reward.GetLogProbMask: the float tensor type and the device of the mask
  are not modelled. The length is taken as an integer, so `.long()` on a
  float length is not modelled.
- BatchFilter.GetNonzerosNrl, BatchFilter.GetNonzerosEta,
  BatchFilter.CollectReinforceSamples, BatchFilter.GetReinforceSamples,
  Reward.FilterLen, Reward.CalcReinforceRewards, Dataset.FilterData and
  Reward.GetLogProbMask: inputs on which the source raises are excluded as
  caller errors rather than modelled as failures. These are an empty label
  row (`min()` of an empty tensor), fewer label rows than prediction rows or
  a parallel field shorter than a kept row index (`IndexError`), a
  `len_key` missing from the dictionary (`KeyError`), and a negative
  `max_task_num` (`torch.zeros` with a negative size).
- Filesystem helpers (`get_workspace`, `dir_check`, `batch_file_name`,
  `write_list_list`, `get_dataset_path`, the CSV part of `save2file_meta`),
  `multi_thread_work` (a process pool), `get_common_params` (argument
  parsing), `seed_it`, `get_model_function` (dynamic import), `to_device` and
  the environment-variable writes. These are I/O, concurrency or
  configuration.

## Findings

| source | as written | input that shows it | evidently intended | confidence | as-written member | corrected member |
|---|---|---|---|---|---|---|
| route_prediction/utils/util.py:121-124 | `get_reinforce_samples` stacks the collected log-probabilities with `torch.stack`, which refuses an empty list, so a batch with no real sample raises. | one sample whose label row is `[24, 24, 24]`, with pad value 24 | every output empty, as the other pad filters return for the same batch | not executed | BatchFilter.GetReinforceSamples (shown by BatchFilter.AllPadReinforceBatch) | BatchFilter.CollectReinforceSamples |
