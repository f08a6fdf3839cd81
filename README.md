# Vocabulary trainer core in Dafny

This project models the logic at the centre of a German–Korean vocabulary quiz and proves properties about it:

- **Index building** (`src/preprocessing.py`, `get_dicts_from_df`). A table of rows, each with a German cell and a Korean cell, is folded into two dictionaries:
  - German → Korean words;
  - Korean → German words.

  A row with a missing cell is skipped. Cells are whitespace-trimmed, and every translation list is kept free of duplicates.
- **Distractor choice** (`src/option_selection.py`, `_filter_similar_words` and `_find_plausible_distractors`). The candidate words are ranked by similarity to the answer. The top word is always kept, and the rest are sampled from a small window below it.
- **Question assembly** (`create_multiple_choice_question`). Steps:
  - pick the direction;
  - pick a random prompt and a random correct answer;
  - add the distractors;
  - shuffle the options.
- **Pool building** (`update_selection_algorithm`):
  - Every quiz record gets a weight: a correctness factor times a last-day factor times a last-week factor.
  - Weights are summed per asked word, separately for the keys of each dictionary.
  - Each sum is truncated to a number of copies, and every key never asked gets ten copies.
  - The pool is then shuffled.

Modules:

| file | module | models |
|---|---|---|
| `wrappers.dfy` | `Wrappers` | `Option` and `Result` (a raised exception is an `Err`) |
| `seqs.dfy` | `Seqs` | duplicate-freedom, `[x] * n`, `s[:n]`, `list(set(...))` |
| `strings.dfy` | `Strings` | Python's `str.strip()` with no argument |
| `py_random.dfy` | `PyRandom` | `random.choice`, `random.sample`, `random.shuffle` |
| `preprocessing.dfy` | `Preprocessing` | `get_dicts_from_df` |
| `distractors.dfy` | `Distractors` | `_filter_similar_words`, `_find_plausible_distractors` |
| `questions.dfy` | `Questions` | `create_multiple_choice_question` |
| `selection_weights.dfy` | `SelectionWeights` | `update_selection_algorithm` |

Modelling decisions:

- **Randomness.** Every `random.*` call is a nondeterministic choice (`:|`). Each property holds for every outcome the generator could produce.
- **Dictionary order.** The iteration order of a dictionary and the order of `list(set(...))` are also arbitrary choices, so nothing proved depends on them.
- **Similarity score.** Jaro–Winkler similarity is a parameter `sim: (string, string) -> real` of which nothing is assumed.
- **Weights.** Every record weight is a product of 1/2 or 2, 1/2 or 1, and 3/4 or 5/4. Such sums are dyadic rationals that floating point holds exactly, so weights are Dafny `real`s. `int(weight)` of a non-negative sum is its `Floor`.
- **Timestamps and now.** Timestamps are integer microseconds and `now` is a parameter. "Within the last day/week" is the strict comparison `timestamp > now - DAY` (or `- WEEK`), as in the code.
- **Direction flag.** The flag is `chosen_word in dicts[1]`. The prompt then comes from `dicts[0]` when the flag is true and from `dicts[1]` otherwise. `chosen_word` decides nothing else: the prompt is an independent random key.
- **Distractor window.** The non-top distractors are sampled from `similar[1 : num_distractors + 2]`. That window holds `num_distractors + 1` words: two more than the `num_distractors - 1` that are drawn.
- **Blank cells.** Only missing cells (`pd.isna`) are skipped. A blank or whitespace-only cell is kept and becomes the key `""` after trimming.
- **Words can leave the pool.** Truncation can give a key zero copies. A word asked once and answered correctly today weighs 0.1875, so `int` gives it no copy (`SelectionWeights.SoftPruning`). A word answered wrongly once today weighs 0.75 and also drops out (`SelectionWeights.RecentMistakeDropsOut`).

## Model

| member | source | states |
|---|---|---|
| Strings.Strip | src/preprocessing.py:13-14 | the result is a slice of the cell with only whitespace cut off at either end, and it neither starts nor ends with whitespace |
| Strings.StripIdempotent | src/preprocessing.py:13-14 | trimming a trimmed word changes nothing |
| Strings.StripUnique | src/preprocessing.py:13-14 | any slice of the cell with only whitespace outside it and no whitespace at its ends is the trimmed cell |
| Seqs.ListOfSet | src/preprocessing.py:18-20 | `list(set(xs))` holds each element of the set exactly once and nothing else |
| Seqs.Repeat | src/option_selection.py:120 | `[word] * n` holds `n` copies of `word` (none when `n <= 0`) and nothing else |
| Seqs.ExtendCount | src/option_selection.py:119-120 | `extend([word] * n)` raises the count of `word` by `n` and of no other word |
| Seqs.SliceTo | src/option_selection.py:46 | `s[:n]` is a prefix of `s`: all of `s` when `n >= len(s)`, `min(n, len(s))` elements when `n >= 0`, and `max(len(s) + n, 0)` elements when `n < 0` |
| Seqs.NoDupIffCountsAtMostOne | src/preprocessing.py:18-20 | a list is duplicate-free iff each element occurs at most once |
| Seqs.NoDupCardinality | src/preprocessing.py:18-20 | a duplicate-free list is as long as the set of its elements |
| PyRandom.Choice | src/option_selection.py:65-67 | `random.choice` returns an element of the list, and raises IndexError iff the list is empty |
| PyRandom.Sample | src/option_selection.py:45-47 | `random.sample(pop, k)` succeeds iff `0 <= k <= len(pop)`, and otherwise raises ValueError; it returns `k` elements of `pop`, distinct when `pop` is |
| PyRandom.Shuffle | src/option_selection.py:75 | shuffling in place keeps the multiset of the list |
| PyRandom.ShuffleList | src/option_selection.py:136 | the shuffled pool has the same length and multiset as before |
| Preprocessing.AppendDistinct | src/preprocessing.py:17-20 | `setdefault(key, []).append(v)` then `list(set(...))` leaves a duplicate-free list whose elements are the old ones plus `v`; other keys are untouched |
| Preprocessing.AddToGermanIndex | src/preprocessing.py:17-20 | updating the German key's list keeps the German→Korean dictionary an exact index of the accepted pairs so far |
| Preprocessing.AddToKoreanIndex | src/preprocessing.py:23-26 | updating the Korean key's list keeps the Korean→German dictionary an exact index of the accepted pairs so far |
| Preprocessing.GetDictsFromRows | src/preprocessing.py:4-27 | both dictionaries index exactly the trimmed pairs of the accepted rows: a key is present iff some pair has it, a word is in a key's list iff the pair exists, and every list is duplicate-free |
| Preprocessing.PairsAppend | src/preprocessing.py:8-14 | the pairs of concatenated tables are the pairs of each table, in order |
| Preprocessing.MissingRowAddsNothing | src/preprocessing.py:10-11 | inserting a row with a missing cell anywhere changes no accepted pair |
| Preprocessing.PairsFromRows | src/preprocessing.py:8-14 | `(g, k)` is an accepted pair iff some row with both cells present trims to `g` and `k` |
| Preprocessing.AcceptedRowIsIndexed | src/preprocessing.py:17-26 | for every accepted row, its trimmed German cell is a key whose list holds its trimmed Korean cell, and the other way round |
| Preprocessing.Symmetric | src/preprocessing.py:17-26 | `k` is in the list of `g` iff `g` is in the list of `k` |
| Preprocessing.ListsNonEmpty | src/preprocessing.py:17-23 | every key of either dictionary has a non-empty list |
| Preprocessing.KeysAreStrippedCells | src/preprocessing.py:13-23 | the German keys are exactly the trimmed German cells of accepted rows, and the Korean keys likewise |
| Preprocessing.StoredWordsAreStripped | src/preprocessing.py:13-14 | every stored key and list entry is unchanged by trimming |
| Preprocessing.SameRowsSamePairs | src/preprocessing.py:8-14 | tables with the same set of rows yield the same set of accepted pairs |
| Preprocessing.GermanIndexUnique | src/preprocessing.py:17-20 | two German indexes of the same pairs have the same keys and the same list elements |
| Preprocessing.KoreanIndexUnique | src/preprocessing.py:23-26 | two Korean indexes of the same pairs have the same keys and the same list elements |
| Preprocessing.SameRowsSameIndex | src/preprocessing.py:4-27 | row order and repeated rows change no key and no list's elements, only list order |
| Distractors.Candidates | src/option_selection.py:11-15 | the comprehension's keys are each distinct word other than the base, once each |
| Distractors.InsertDesc | src/option_selection.py:16-20 | inserting into a list sorted by decreasing score keeps it sorted and adds exactly that word |
| Distractors.SortDesc | src/option_selection.py:16-20 | `sorted(..., reverse=True)` is ordered by non-increasing score and a permutation of its input |
| Distractors.InsertDescStable | src/option_selection.py:16-20 | insertion puts a word in front of all words of equal score already in the list; the sort inserts from the back, so this keeps input order |
| Distractors.SortDescStable | src/option_selection.py:16-20 | sorting keeps words of equal score in their original order (Python's sort is stable) |
| Distractors.CandidatesKeepOrder | src/option_selection.py:11-15 | for a pool with no repeated word, the comprehension's keys are the pool's words other than the base, in pool order |
| Distractors.FilterSimilarWords | src/option_selection.py:8-21 | each distinct word other than the base appears exactly once, ordered by non-increasing similarity to the base |
| Distractors.FilterSimilarWordsStable | src/option_selection.py:11-20 | words of equal similarity keep their first-occurrence order from the input |
| Distractors.TopIsMostSimilar | src/option_selection.py:40 | the first ranked word is at least as similar as every other candidate |
| Distractors.TailSliceFacts | src/option_selection.py:42 | the ranked words after the top one are distinct and do not include it |
| Distractors.WindowIsSlice | src/option_selection.py:42-46 | with `n = num_distractors - 1`, `similar[1:][:n + 2]` is `similar[1 : min(num_distractors + 2, len(similar))]` |
| Distractors.ChosenAreCandidates | src/option_selection.py:48 | words drawn from the ranking are pool words other than the answer |
| Distractors.FindPlausibleDistractors | src/option_selection.py:24-50 | it succeeds iff `1 <= num_distractors <=` the number of distinct candidates; IndexError iff there is no candidate, otherwise ValueError; on success it returns `num_distractors` distinct pool words, none equal to the answer; the first is the top-ranked and most similar word, and the rest lie in `similar[1 : num_distractors + 2]` |
| Questions.CreateMultipleChoiceQuestion | src/option_selection.py:53-77 | the direction flag is `chosen_word in dicts[1]`; an empty prompt dictionary raises IndexError; success is certain when every list is non-empty and the answer dictionary has more than three keys; on success the prompt is a key whose list holds the answer, and there are four distinct options with the answer exactly once; the other options are answer-dictionary keys, one of them most similar to the answer |
| Questions.OptionsFacts | src/option_selection.py:74-75 | a shuffle of distinct distractors plus the answer has one more entry, no duplicates, the answer once, and otherwise only distractors |
| Questions.ShuffledOptions | src/option_selection.py:70-75 | the shuffled options hold four distinct words, the answer once; every other option is an answer-dictionary key, and one of them is most similar to the answer |
| Questions.CorrectAnswerIsAnswerKey | src/option_selection.py:64-67 | for dictionaries built from rows, the correct answer is itself a key of the answer dictionary |
| SelectionWeights.Weight | src/option_selection.py:97-102 | every record weight lies between 0.1875 and 2.5 |
| SelectionWeights.IncorrectOutweighsCorrect | src/option_selection.py:98-100 | any wrong answer weighs more than any right one, whatever their ages |
| SelectionWeights.OlderNeverWeighsLess | src/option_selection.py:99-100 | of two equally right (or wrong) records, the older never weighs less |
| SelectionWeights.TotalWeight | src/option_selection.py:105-110 | a word's summed weight is never negative |
| SelectionWeights.UnqueriedWeighsNothing | src/option_selection.py:105-110 | a word no record asks sums to zero |
| SelectionWeights.AppendRecord | src/option_selection.py:105-110 | one more record adds its weight to its own word's sum only, and makes exactly its word asked |
| SelectionWeights.TotalWeightConcat | src/option_selection.py:82 | the sum over historical plus current records is the sum over each |
| SelectionWeights.QueriedConcat | src/option_selection.py:82 | a word is asked in the combined log iff it is asked in one of the two parts |
| SelectionWeights.TotalWeightPermutation | src/option_selection.py:105-110 | the summed weight does not depend on record order |
| SelectionWeights.PoolCountPermutation | src/option_selection.py:104-133 | the number of copies of a word does not depend on record order |
| SelectionWeights.RecordRaisesWeight | src/option_selection.py:97-110 | one more record never lowers any sum, and raises its own word's sum by at least 0.1875 |
| SelectionWeights.SessionOrderIrrelevant | src/option_selection.py:82 | historical-then-current and current-then-historical give the same pool counts |
| SelectionWeights.MoreRecordsNeverFewerCopies | src/option_selection.py:119-124 | an already-asked word never loses copies when a record is added |
| SelectionWeights.ForeignRecordIgnored | src/option_selection.py:105-116 | a record whose query is a key of neither dictionary changes no word's count |
| SelectionWeights.NoRecordsAllDefault | src/option_selection.py:126-133 | with an empty log every key gets ten copies per dictionary it belongs to |
| SelectionWeights.SoftPruning | src/option_selection.py:119-133 | after one correct answer just now, that word has no copy, while every other key has ten copies per dictionary it belongs to |
| SelectionWeights.RecentMistakeDropsOut | src/option_selection.py:97-120 | after one wrong answer just now, that word also has no copy, whichever dictionaries it belongs to |
| SelectionWeights.SumWeightsByQuery | src/option_selection.py:105-116 | the grouped sums have exactly the asked keys, each mapped to its summed weight |
| SelectionWeights.ExtendByWeights | src/option_selection.py:119-124 | the pool gains `int(sum)` copies of each summed word and nothing else |
| SelectionWeights.AddCopies | src/option_selection.py:129 | one `extend` adds `n` copies of the word and nothing else |
| SelectionWeights.DefaultCopiesStep | src/option_selection.py:127-129 | visiting one more key adds only that key's default copies |
| SelectionWeights.ExtendByDefault | src/option_selection.py:127-133 | the pool gains ten copies of each key that is not summed (all keys when the log is empty) and nothing else |
| SelectionWeights.CountsAddUp | src/option_selection.py:104-133 | the copies added by the two summing loops and the two default loops add up to the word's pool count |
| SelectionWeights.UpdateSelectionAlgorithm | src/option_selection.py:80-137 | each word occurs exactly as often as its copies: `int(sum)` as a key of each dictionary where it was asked, ten where it was not; only dictionary keys occur |

## Left out

- User interface, sound and files: the widgets, audio playback and the JSON history are not part of this model. This includes `src/widget_entrypoint.py`, where a word is drawn from the pool with `random.choice` and the result record is stamped with the wall clock.
- Table parsing: pandas reading a spreadsheet is replaced by a sequence of rows whose cells are present strings or missing. Non-string cells are not modelled.
- Time: `pd.to_datetime` of ISO strings, time zones and `datetime.now()` are replaced by integer timestamps and a `now` parameter.
- Malformed records: results lacking a field, which make pandas raise, are not modelled.
- Jaro–Winkler similarity: its formula is not modelled. It is an arbitrary score function.
- Probabilities: the distributions of `random.choice`, `random.sample` and `random.shuffle` are not modelled, only which outcomes are possible.
- Order: dictionary insertion order is not modelled. Keys and grouped sums are visited in an arbitrary order, so the pool before the shuffle, and the order of options with equal score among candidates, are only specified up to that order.
- Floating point: the exactness of float sums of the weights is argued above (dyadic rationals) rather than modelled bit by bit.
- Questions.CreateMultipleChoiceQuestion: states a sufficient condition for success rather than an exact one. Whether the call fails also depends on which answer the random choice picks, and on whether fewer than three other answer-dictionary keys remain.
