# MMKU-Bench evaluation core, in Dafny

This project models the two scoring scripts of the MMKU-Bench evaluation
pipeline and proves properties about them.

- `evaluation/eval_acc_f1.py` scores each model prediction against the
  ground truth. It uses an accuracy scorer and a SQuAD-style token F1
  (`normalize_answer`, `get_tokens`, `get_f1_score`, `normalize_text`,
  `evaluate_vqa`). It annotates every prediction with `score`, `f1_score`,
  `gt_answer` and `type`, and averages the two scores.
- `evaluation/all_type_score.py` (`process_files`) joins the ground truth with
  the scored predictions on `question_id`. It routes each joined record to a
  Wiki list or a news list using the ground-truth item's `cnn_wiki_type`. For
  each list it reports the average scores (`calculate_average`) and one line
  per question type (`calculate_type_statistics`), with the largest group first.

Modules:

- `Normalize` (normalize.dfy) models answer normalisation and tokenisation as
  pure functions over ASCII strings, plus `normalize_text`.
- `F1` (f1.dfy) models the token F1, using multisets for `Counter`.
- `Records` (records.dfy) models JSON values, records as maps, the
  `question_id` dictionary comprehensions (the last record with an id wins),
  and sums and guarded means.
- `EvalVqa` (eval_vqa.dfy) models `evaluate_vqa`: the loop over predictions is
  the method `ScoreEach`, proved against a per-record function `Scored`.
- `TypeScore` (type_stats.dfy) models `calculate_average` and
  `calculate_type_statistics`. The grouping loop (the method `GroupByType`) and
  the report loop form the method `TypeStatistics`, proved equal to the
  function `TypeStats`. `TypeStats` is
  characterised by lemmas: it is a partition into groups, sorted by size,
  stable, with correct averages.
- `Aggregate` (aggregate.dfy) models `process_files`: the join and routing loop
  is a method, proved against the function `Routed`.

Behaviour of the code worth knowing:

- The Wiki/news routing reads `cnn_wiki_type` from the ground-truth item, not
  from the merged record. A prediction's own `cnn_wiki_type` therefore never
  changes which list a record lands in, although it does override the field
  in the merged record.
- Groups of equal size are not ordered by type name. `sorted` is stable, and
  the `defaultdict` keeps insertion order, so such groups appear in the order
  in which their type first occurs (`TypeScore.TiesKeepFirstAppearance`).
- Articles are removed before F1 is computed. An article present in only one
  answer therefore does not lower the score. For example, "The cat" against
  "cat" scores 1 (`F1.ArticleDoesNotCount`), and likewise "the blue sky"
  against "blue sky" scores 1.
- `normalize_text` removes apostrophes after stripping, so it is not
  idempotent. For example, `"' x"` becomes `" x"` and then `"x"`
  (`Normalize.NormalizeTextNotIdempotent`).

`normalize_answer` is idempotent and never yields an article token, on any
text (`Normalize.NormalizeIdempotent`, `Normalize.TokensWellFormed`). The
simple reading "lower-case, delete punctuation, split, drop the articles"
holds only for ordinary text (`IsTextChar`: printable ASCII plus white space),
and `Normalize.TokensAreFilteredWords` states it under that precondition. With
another control character the `\b` of the article pattern and `str.split`
disagree about where words end. In `"x\x01the"`, for example, `the` is removed
as a word but never split off as a token (`Normalize.ControlCharacterBoundary`).

## Model

| member | source | states |
|---|---|---|
| Normalize.LowerStr | evaluation/eval_acc_f1.py:23-24 | `lower`, defined character by character; `LowerStrChars` states its contract |
| Normalize.LowerStrChars | evaluation/eval_acc_f1.py:23-24 | `lower` keeps the length, leaves no upper-case letter, changes no other character, and keeps ordinary text ordinary |
| Normalize.IsPunct | evaluation/eval_acc_f1.py:20 | the characters of `set(string.punctuation)`, as four ASCII ranges; `PunctuationIsIsPunct` states the correspondence |
| Normalize.PunctuationIsIsPunct | evaluation/eval_acc_f1.py:20 | `IsPunct` holds exactly for the 32 characters of the literal `string.punctuation` |
| Normalize.RemovePunc | evaluation/eval_acc_f1.py:19-21 | `remove_punc`, defined as the in-order filter of non-punctuation characters; its contract is `RemovePuncMembers` |
| Normalize.RemovePuncMembers | evaluation/eval_acc_f1.py:19-21 | a character survives `remove_punc` exactly when it occurs in the input and is not punctuation |
| Normalize.RemoveArticlesFrom | evaluation/eval_acc_f1.py:12-14 | the regular-expression substitution of the whole words `a`, `an` and `the` by a space, as a left-to-right scan that tracks whether a word boundary precedes the current position; its properties are the lemmas below |
| Normalize.RemoveArticles | evaluation/eval_acc_f1.py:12-14 | `remove_articles`: the scan started at the beginning of the text, where a word boundary may precede the first word; `RemoveArticlesLeavesNone` states its contract |
| Normalize.RemoveArticlesLeavesNone | evaluation/eval_acc_f1.py:12-14 | the result of `remove_articles` has no article at any word boundary, on any input |
| Normalize.ScanLeavesNoArticle | evaluation/eval_acc_f1.py:12-14 | whatever the scan returns holds no article at a word boundary, on any input |
| Normalize.NoArticleId | evaluation/eval_acc_f1.py:12-14 | text with no article at a word boundary is returned unchanged by the scan |
| Normalize.Split | evaluation/eval_acc_f1.py:17 | `str.split()` with no separator, as the maximal runs of non-space characters; `SplitChars` and `SplitJoin` state its properties |
| Normalize.SplitChars | evaluation/eval_acc_f1.py:17 | every piece of `str.split()` is non-empty, holds no white space, and keeps any property every input character has |
| Normalize.Join | evaluation/eval_acc_f1.py:17 | `" ".join`, defined directly; `SplitJoin` is its round trip with `Split` |
| Normalize.WhiteSpaceFix | evaluation/eval_acc_f1.py:16-17 | `white_space_fix`, as `Join` of `Split`; `WhiteSpaceFixWords` states its contract |
| Normalize.WhiteSpaceFixWords | evaluation/eval_acc_f1.py:16-17 | `white_space_fix` keeps the words: splitting its result gives the words of its input |
| Normalize.NormalizeAnswer | evaluation/eval_acc_f1.py:11-26 | `normalize_answer` as the composition of the four helpers; `NormalizeIdempotent` and `TokensWellFormed` state its properties |
| Normalize.GetTokens | evaluation/eval_acc_f1.py:29-32 | `get_tokens`, with `[]` for the empty string; `GetTokensIsSplit`, `TokensWellFormed` and `TokensAreFilteredWords` state what it returns |
| Normalize.NormalizeText | evaluation/eval_acc_f1.py:50-53 | `normalize_text` of a string: strip, then delete apostrophes; `NormalizeTextNoApostrophe` and `NormalizeTextNotIdempotent` state its properties |
| Normalize.StripLeft | evaluation/eval_acc_f1.py:53 | the result is a suffix of the input; everything dropped is white space; the result does not start with white space |
| Normalize.StripRight | evaluation/eval_acc_f1.py:53 | the result is a prefix of the input; everything dropped is white space; the result does not end with white space |
| Normalize.Strip | evaluation/eval_acc_f1.py:53 | a non-empty stripped text neither starts nor ends with white space |
| Normalize.RemoveChar | evaluation/eval_acc_f1.py:53 | a character occurs in the result exactly when it occurs in the input and is not the removed one |
| Normalize.NormalizeTextNoApostrophe | evaluation/eval_acc_f1.py:50-53 | `normalize_text` leaves no apostrophe and keeps every other character of the stripped text |
| Normalize.NormalizeTextNotIdempotent | evaluation/eval_acc_f1.py:50-53 | applying `normalize_text` twice can differ from applying it once (`"' x"`) |
| Normalize.SplitJoin | evaluation/eval_acc_f1.py:16-17 | `str.split()` of tokens joined by single spaces gives the tokens back |
| Normalize.RemoveArticlesSplit | evaluation/eval_acc_f1.py:12-14 | over words and white space, removing `a`/`an`/`the` as whole words and then splitting equals splitting and dropping the article tokens |
| Normalize.GetTokensIsSplit | evaluation/eval_acc_f1.py:29-32 | the tokens of an answer are the white-space runs left after lower-casing, removing punctuation and removing articles (`white_space_fix` does not change them) |
| Normalize.TokensWellFormed | evaluation/eval_acc_f1.py:11-32 | on any text, every token is non-empty and holds no white space, no upper-case letter and no punctuation, and no token is an article |
| Normalize.TokensAreFilteredWords | evaluation/eval_acc_f1.py:11-32 | on ordinary text the tokens are the lower-cased, punctuation-free words minus the articles |
| Normalize.ControlCharacterBoundary | evaluation/eval_acc_f1.py:12-17 | outside ordinary text that reading fails: `"x\x01the"` gives the token `"x\x01"`, while splitting and dropping articles keeps `"x\x01the"` |
| Normalize.NormalizeIdempotent | evaluation/eval_acc_f1.py:11-26 | `normalize_answer` applied twice equals applying it once, on any text |
| Normalize.ArticlesOnlyAsWholeWords | evaluation/eval_acc_f1.py:12-14 | the word "The" is removed but the letter `a` inside "cat" is not |
| Normalize.RepeatedWordTokens | evaluation/eval_acc_f1.py:29-32 | repeated words stay repeated in the token list |
| F1.NumSame | evaluation/eval_acc_f1.py:38-39 | `sum((Counter(gold) & Counter(pred)).values())` as the size of a multiset intersection; `NumSameBounds` and `NumSameSymmetric` state its properties |
| F1.TokenF1 | evaluation/eval_acc_f1.py:38-47 | `get_f1_score` on two token lists, with the same branches; the F1 lemmas below state what it returns |
| F1.F1Score | evaluation/eval_acc_f1.py:35-37 | `get_f1_score` on two answers: `TokenF1` of their `get_tokens` |
| F1.EmptyCases | evaluation/eval_acc_f1.py:40-41 | two empty token lists score 1; exactly one empty list scores 0 |
| F1.ArticleOnlyAnswer | evaluation/eval_acc_f1.py:29-41 | an answer made only of an article has no tokens; it scores 1 against another empty answer and 0 against any answer with tokens |
| F1.NumSameSymmetric | evaluation/eval_acc_f1.py:38-39 | the common-token count does not depend on which list is gold |
| F1.NumSameBounds | evaluation/eval_acc_f1.py:38-39 | the common-token count is at most the length of each list |
| F1.HarmonicMean | evaluation/eval_acc_f1.py:44-46 | `2pr/(p+r)` with `p = n/|pred|` and `r = n/|gold|` equals `2n/(|pred|+|gold|)` |
| F1.Formula | evaluation/eval_acc_f1.py:42-46 | with both lists non-empty, the score is 0 when nothing is shared, and otherwise `2n/(|pred|+|gold|)`, which lies in (0, 1] |
| F1.InUnitRange | evaluation/eval_acc_f1.py:35-47 | every score lies between 0 and 1 |
| F1.Symmetric | evaluation/eval_acc_f1.py:35-47 | swapping prediction and gold does not change the score |
| F1.OneIffSameTokens | evaluation/eval_acc_f1.py:35-47 | the score is 1 exactly when both token lists hold the same tokens with the same multiplicities |
| F1.RepeatsCountOnce | evaluation/eval_acc_f1.py:38-46 | "cat cat" against "cat" scores 2/3: a repeated word is matched once |
| F1.ArticleDoesNotCount | evaluation/eval_acc_f1.py:35-47 | "The cat" against an answer whose tokens are just "cat" scores 1 |
| Records.IndexById | evaluation/all_type_score.py:20 | `{item['question_id']: item for item in data}`; `IndexByIdKeys` and `IndexByIdLastWins` state what it holds |
| Records.Project | evaluation/eval_acc_f1.py:63-64 | `{entry['question_id']: entry[f] for entry in entries}`; `ProjectIsIndex` relates it to `IndexById` |
| Records.Sum | evaluation/all_type_score.py:37-38 | `sum(item[f] for item in data_list)`; `SumAppend` states its additivity |
| Records.Mean | evaluation/all_type_score.py:34-39 | the guarded average (0 for no records), shared with evaluation/eval_acc_f1.py; `MeanUnitBounds` bounds it |
| Records.IndexByIdKeys | evaluation/all_type_score.py:20 | the id dictionary has exactly the ids of the records |
| Records.IndexByIdLastWins | evaluation/all_type_score.py:20 | among records sharing an id, the dictionary keeps the last one |
| Records.ProjectIsIndex | evaluation/eval_acc_f1.py:63-64 | the id-to-field dictionary has the same ids as the id-to-record dictionary and gives that record's field |
| Records.SumAppend | evaluation/all_type_score.py:37-38 | the sum of a field over a concatenation is the sum over the parts |
| Records.MeanUnitBounds | evaluation/all_type_score.py:34-39 | a guarded average of values between 0 and 1 lies between 0 and 1 |
| EvalVqa.Falsy | evaluation/eval_acc_f1.py:30 | Python's `not v` on a JSON value: `null`, `false`, `0`, `""`, `[]` and `{}` |
| EvalVqa.TextOk | evaluation/eval_acc_f1.py:29-32 | the prediction texts `get_tokens` accepts: a string or a falsy value (anything else fails at `lower()`) |
| EvalVqa.TextTokens | evaluation/eval_acc_f1.py:29-32 | `get_tokens` of the raw prediction value, with the `if not s` branch for falsy non-strings; `TextTokensOfString` states what it returns |
| EvalVqa.TextTokensOfString | evaluation/eval_acc_f1.py:29-32 | a string prediction gets the tokens of `get_tokens` on that string (the empty string included), any other accepted value gets none, and every token is non-empty, free of white space and not an article |
| EvalVqa.NormalizeValue | evaluation/eval_acc_f1.py:50-53 | `normalize_text` of any JSON value, `str()` being a parameter |
| EvalVqa.GoldAnswers | evaluation/eval_acc_f1.py:63 | `a_data`; `GoldLookup` states its keys and values |
| EvalVqa.GoldTypes | evaluation/eval_acc_f1.py:64 | `a_data_type`; `GoldLookup` states its keys and values |
| EvalVqa.Scored | evaluation/eval_acc_f1.py:71-82 | one pass of the loop body over a prediction; `ScoredFields` states the record it yields |
| EvalVqa.ScoredFields | evaluation/eval_acc_f1.py:71-82 | a scored prediction keeps its other fields and gains exactly `score`, `f1_score`, `gt_answer` and `type`; the gold answer and type default to `""` for an unknown id; `score` is the scorer's value; `f1_score` is the token F1 of prediction and gold, between 0 and 1 |
| EvalVqa.GoldLookup | evaluation/eval_acc_f1.py:63-64 | the answer and type dictionaries hold exactly the ground-truth ids, and give the normalised answer and the type of the last entry with the id |
| EvalVqa.ScoredAll | evaluation/eval_acc_f1.py:66-88 | every prediction scored by `Scored`, in order; the specification of the loop |
| EvalVqa.ScoreEach | evaluation/eval_acc_f1.py:66-88 | the loop over predictions returns exactly `ScoredAll`; every `score` is a number, every `f1_score` lies in [0, 1], and the two running totals are the sums of those fields |
| EvalVqa.EvaluateVqa | evaluation/eval_acc_f1.py:56-91 | one annotated record per prediction, in order, each equal to `Scored` of that prediction; the averages are the means of the two fields (0 without predictions); the F1 average lies in [0, 1] |
| TypeScore.CalculateAverage | evaluation/all_type_score.py:34-39 | `calculate_average`: the mean `score` and mean `f1_score`, both 0 for an empty list; `AverageInUnit` bounds them |
| TypeScore.Types | evaluation/all_type_score.py:45-47 | the keys of `type_stats` in insertion order; `TypesMembers` and `TypesFirstAppearance` state what they are |
| TypeScore.Group | evaluation/all_type_score.py:45-47 | `type_stats[t]`; `GroupMembers`, `GroupEmpty` and `GroupSizesTotal` state what it holds |
| TypeScore.SortBySize | evaluation/all_type_score.py:50 | `sorted(..., key=len, reverse=True)` as a stable insertion sort; `SortProperties` characterises it |
| TypeScore.StatOf | evaluation/all_type_score.py:51-52 | the report line of one group: its type, its record count and `calculate_average` of its records (formatting left out) |
| TypeScore.StatsOf | evaluation/all_type_score.py:50-52 | one report line per group, in the order of the groups; `StatsOfSum` and `StatsOfTies` state its properties |
| TypeScore.StatsOfSum | evaluation/all_type_score.py:50-52 | the counts on the report lines add up to the sizes of the groups |
| TypeScore.StatsOfTies | evaluation/all_type_score.py:50-52 | the types reported with count `n` are the keys of the groups of size `n`, in the groups' order |
| TypeScore.TypeStats | evaluation/all_type_score.py:44-52 | the report lines of `calculate_type_statistics`; `EveryTypeReported`, `StatsAreGroups`, `StatsNonIncreasing`, `CountsSumToLength` and `TiesKeepFirstAppearance` characterise them |
| TypeScore.AverageInUnit | evaluation/all_type_score.py:34-39 | scores between 0 and 1 give averages between 0 and 1 |
| TypeScore.TypesMembers | evaluation/all_type_score.py:45-47 | the dictionary keys are exactly the types that occur, each once |
| TypeScore.TypesFirstAppearance | evaluation/all_type_score.py:45-47 | the keys seen after any prefix of the records come first, in the same order (first-appearance order) |
| TypeScore.GroupMembers | evaluation/all_type_score.py:45-47 | a group holds exactly the records of its type |
| TypeScore.GroupEmpty | evaluation/all_type_score.py:45-47 | a group is empty exactly when its type does not occur |
| TypeScore.GroupSizesTotal | evaluation/all_type_score.py:45-47 | the group sizes add up to the number of records |
| TypeScore.SortProperties | evaluation/all_type_score.py:50 | the sort by group size, largest first, is non-increasing, is a permutation, and keeps equal-size groups in their order |
| TypeScore.EveryTypeReported | evaluation/all_type_score.py:44-52 | there is one report line per distinct type, and every type that occurs has a line |
| TypeScore.StatsAreGroups | evaluation/all_type_score.py:50-52 | each line names a type that occurs, its record count (at least 1) and `calculate_average` of exactly its records |
| TypeScore.StatsNonIncreasing | evaluation/all_type_score.py:50 | report lines come in non-increasing order of count |
| TypeScore.CountsSumToLength | evaluation/all_type_score.py:44-52 | the reported counts add up to the number of records |
| TypeScore.TiesKeepFirstAppearance | evaluation/all_type_score.py:45-50 | the types reported with a given count are the types with that many records, in the order in which they first occur |
| TypeScore.GroupByType | evaluation/all_type_score.py:45-47 | the grouping loop fills the dictionary with exactly the types that occur, in first-appearance order, each mapped to its group |
| TypeScore.TypeStatistics | evaluation/all_type_score.py:44-54 | the grouping loop (`GroupByType`) and the report loop produce exactly `TypeStats`, the lines characterised above |
| Aggregate.Merge | evaluation/all_type_score.py:28 | the merged record has the fields of both; the prediction's value wins where both have a field |
| Aggregate.Routed | evaluation/all_type_score.py:25-32 | the list the join loop builds for `'wiki'` or `'news'`; `RoutedMembers`, `RoutedAppend`, `RoutedAtMostOnce` and `JoinUsesLastPrediction` characterise it |
| Aggregate.RoutedAppend | evaluation/all_type_score.py:25-32 | routing a concatenation of ground-truth lists routes each part, in order |
| Aggregate.RoutedMembers | evaluation/all_type_score.py:25-32 | a record is in a list exactly when it is the merge of a ground-truth item that has a prediction and the matching `cnn_wiki_type` |
| Aggregate.RoutedAtMostOnce | evaluation/all_type_score.py:29-32 | the two lists together have at most one record per ground-truth item |
| Aggregate.JoinUsesLastPrediction | evaluation/all_type_score.py:20-32 | every routed record merges a ground-truth item with the last prediction carrying its id |
| Aggregate.LastWithId | evaluation/all_type_score.py:20 | the position of the last record with a given id |
| Aggregate.ProcessFiles | evaluation/all_type_score.py:15-57 | the report holds the averages and type statistics of exactly the routed Wiki and news lists |

## Left out

- File reading and writing, `json.loads`/`json.dumps`, `argparse`, `main`, and every `print` are left out: they are I/O. The model starts from the parsed records and returns the report values.
- The count of types that `calculate_type_statistics` prints is left out: it is printed and never returned. `TypeScore.EveryTypeReported` shows that it equals the number of report lines.
- The text layout of the output is left out: four-decimal rounding, the headings and the joining of report lines with newlines. `Aggregate.Report` and `TypeScore.TypeStat` hold the unformatted values.
- The module-level script at the end of evaluation/all_type_score.py (fixed file names, building the output path) is left out: it only handles file paths.
- inference.py is not part of this model.
- `VQAEval` (the accuracy scorer behind `eval_tool.evaluate`) is not part of this model. It is the parameter `EvalVqa.Scorer`, and nothing is assumed about its values, so no bound on the accuracy average is claimed.
- Python's `str()` of a non-string answer is the parameter `EvalVqa.Show`: it depends on Python's printing of numbers and objects.
- Floating point is modelled as exact reals: IEEE rounding in the sums, divisions and F1 formula is not modelled. The integer/float distinction (`int(gold == pred)`, an average of `0` vs `0.0`) is not modelled either.
- Character handling is ASCII only. Unicode case mapping, Unicode white space such as `\x85` and `\xa0`, and Unicode word characters for `\b` are not modelled.
- JSON booleans and numbers are distinct dictionary keys in the model, while Python treats `True` as the key `1` and `False` as the key `0`. Numbers such as `1` and `1.0` are both `Num(1.0)` and share a key, as in Python.
- Inputs that make the scripts raise are excluded by preconditions rather than modelled as errors. These are a missing field (`KeyError`), an unhashable `question_id` or `type` (`TypeError`), a non-string truthy prediction `text`, and a non-numeric `score` or `f1_score`. The scripts do not handle these cases; they stop.
- Records.Sum: requires every `score`/`f1_score` to be a JSON number (`Records.NumFields`), so a JSON boolean there is excluded too, although Python's `sum` adds `true` as 1 and `false` as 0 without raising. `evaluate_vqa` itself always writes numbers (`EvalVqa.ScoredFields`); only a hand-edited prediction file can carry a boolean score.
- The in-place update of each parsed prediction in `evaluate_vqa` is modelled as building a new record: no other reference to that dictionary exists.
- Aggregate.RoutedAtMostOnce: states a count bound rather than value-disjointness of the two lists. Equal merged records can appear in both lists when two ground-truth items share an id and all other fields except `cnn_wiki_type`, and the prediction overrides that field.
