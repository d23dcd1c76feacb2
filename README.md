# Submission evaluation and point awards of the coding-education bot

This project models two parts of the platform: how a submission is graded
and how points are awarded.

**Grading** (`check_code.py`). The reviewer's free-text reply is searched for
its outermost `{ … }` span. The span is decoded into the per-criterion review,
and a uniform grade-0 review is used instead when no span exists or the span
does not decode. The similarity score is mapped to an originality grade by the
fixed thresholds 0.95 and 0.8. The originality report is stored under its key
first. The review is merged over it with Python's `dict.update`. The mean is
taken over every entry of the merged report. The correctness grade is
returned beside the mean.

**Awards** (`bot.py`). `/start` registers a Telegram user once, with 0 points
and no solved tasks. The submit endpoint refuses a task the user has already
solved. Otherwise it adds the task's points to the user's total and appends
the task id to the user's solved list.

Modules:

- `Wrappers`, `Seqs` (`wrappers.dfy`):
  - `Option` and `Result`;
  - first and last occurrence in a sequence.
- `JsonDict` (`json_dict.dfy`):
  - decoded JSON values;
  - Python's insertion-ordered dict, as its keys in order plus a map.
  - `d[k] = v` keeps an existing key's position or appends the key, and
    `d.update(o)` assigns the pairs of `o` one by one.
- `ReviewParser` (`review_parser.dfy`): `parse_llm_review_json`.
  - `re.search(r"\{.*\}", …, re.DOTALL)` is `FindBraceSpan`. It matches from
    the first `{` to the last `}`, and only when that `{` comes first.
  - `json.loads` is a parameter `decode` of the functions that use it.
- `Originality` (`originality.dfy`): the thresholds, grades and comments of
  the originality report, as a function and as the step-by-step method the
  source runs.
- `Evaluation` (`evaluation.dfy`): `perform_comprehensive_evaluation` after
  both remote calls have answered.
  - The raised exceptions (`AttributeError`, `TypeError`, `KeyError`) become
    `EvalError` values.
  - The summing loop is a method proved against the function `GradeTotal`.
- `Platform` (`platform.dfy`): the award rules, in two forms.
  - On values: `Register`, `Award`, `Submission`, `Replay`.
  - On the objects whose fields the handlers update in place: the classes
    `User` and `Platform`. Their methods are proved to follow the value rules
    and to keep the ledger invariant: every solved task exists, none is
    solved twice, and the points are exactly what the solved tasks are worth.

Behaviour of the code worth noting (check_code.py:146-152):

- **Missing criteria.** The code does not fill in a missing criterion with
  grade 0. When the decoded review lacks `Правильность`, the final lookup
  raises (`MissingCorrectnessRaises`).
- **Denominator.** The mean is taken over all keys of the merged report, not
  over a fixed 4. Extra keys in the review change the denominator
  (`DenominatorCountsKeys`).
- **No pass flag.** The code returns only the mean and the correctness grade.
- **Grades are not checked.** Grades are neither range-checked nor required to
  be integers.
  - A grade that Python can add passes through: a number, or a boolean
    counted as 1 or 0.
  - Any other grade raises.

## Model

| member | source | states |
|---|---|---|
| Seqs.FirstIndexOf | check_code.py:93 | the position returned holds the character and no earlier position does; None exactly when it does not occur |
| Seqs.LastIndexOf | check_code.py:93 | the position returned holds the character and no later position does; None exactly when it does not occur |
| Seqs.FirstIndexIs | check_code.py:93 | an occurrence with none before it is the one the first-occurrence search returns |
| Seqs.LastIndexIs | check_code.py:93 | an occurrence with none after it is the one the last-occurrence search returns |
| JsonDict.Get | check_code.py:147 | `d.get(k)` is the stored value exactly when `k` has one, None otherwise; for a well-formed dict, exactly when `k` is listed |
| JsonDict.Entries | check_code.py:147 | `d.values()` lists one value per key, in key order |
| JsonDict.Set | check_code.py:127-140 | `d[k] = v` stores `v` under `k`, leaves every other key's value alone, keeps an existing key's position or appends a new key, and keeps the dict well formed |
| JsonDict.AssignAll | check_code.py:146 | assigning keys one by one keeps the dict well formed and never moves or drops an existing key |
| JsonDict.Update | check_code.py:146 | `d.update(o)` keeps the dict well formed, with the old keys first in their old order |
| JsonDict.AssignAllGet | check_code.py:146 | after the assignments a key holds the source's value if assigned, else its old value |
| JsonDict.UpdateGet | check_code.py:146 | after `d.update(o)` a key holds `o`'s value when `o` has the key, else `d`'s value |
| JsonDict.AssignAllAppends | check_code.py:146 | assigning distinct new keys appends them in order |
| JsonDict.UpdateAppends | check_code.py:146 | updating with a dict whose keys are all new appends its keys in its order |
| JsonDict.NewKeys | check_code.py:146 | the keys listed are exactly those of the first list missing from the second |
| JsonDict.AssignAllOrder | check_code.py:146 | assigning keys in order appends, in that order, the ones the dict lacks |
| JsonDict.UpdateOrder | check_code.py:146 | `d.update(o)` keeps `d`'s keys in place and appends `o`'s missing keys in `o`'s order |
| JsonDict.KeyCount | check_code.py:147-149 | `len(d)` is both the number of listed keys and the number of stored values |
| JsonDict.UpdateKeyCount | check_code.py:146-149 | the merged dict has one key per distinct key of the two dicts |
| ReviewParser.FindBraceSpan | check_code.py:93 | a span found opens with `{`, closes with `}`, has no `{` before it and no `}` after it; none is found exactly when no such span exists |
| ReviewParser.NoSpanWhenLastCloseFirst | check_code.py:93-98 | when the last `}` is not after the first `{`, no brace span exists |
| ReviewParser.MatchIsLeftmostLongest | check_code.py:93 | every matching span starts no earlier and ends no later than the span found |
| ReviewParser.FallbackEntry | check_code.py:102-104 | a fallback criterion is a dict with the keys grade and comment, in that order, holding 0 and the parse-error comment |
| ReviewParser.Fallback | check_code.py:101-105 | the fallback review holds exactly the three criteria in order, each with grade 0 and the parse-error comment |
| ReviewParser.ParseReview | check_code.py:89-105 | the parsed review is the fallback or what `decode` made of some brace span of the text |
| ReviewParser.UndecodableGivesFallback | check_code.py:94-105 | no span, or a span that does not decode, gives the fallback |
| ReviewParser.EmbeddedSpan | check_code.py:93-95 | for prose with no `{` before an object and no `}` after it, the span is exactly the object |
| ReviewParser.EmbeddedObjectIsExtracted | check_code.py:93-96 | such prose parses as the object alone would: its decoding, or the fallback |
| Originality.GradeFor | check_code.py:126-140 | the grade is 0 exactly when there is no score, and otherwise one of 1, 2 and 5 |
| Originality.CommentFor | check_code.py:121-140 | each grade comes with its own comment: not assessed, plagiarism, renaming or original |
| Originality.SimilarityText | check_code.py:124-127 | the similarity field is "N/A" without a score, and the formatted score otherwise |
| Originality.OriginalityEntry | check_code.py:121-140 | the originality report has the fields grade, comment and similarity, in that order, with the threshold grade and comment and the formatted score or "N/A" |
| Originality.ScoreOriginality | check_code.py:121-141 | building the report from the defaults and overwriting the fields gives exactly that report |
| Originality.GradeAntitone | check_code.py:128-140 | a more similar submission never gets a better grade |
| Originality.GradeBands | check_code.py:128-140 | above 0.95 gives 1, above 0.8 up to 0.95 gives 2, and at most 0.8 gives 5 |
| Evaluation.Addend | check_code.py:147 | only a number or a boolean can be added to the sum; a boolean counts as 1 or 0 |
| Evaluation.GradeOf | check_code.py:147 | `item.get("grade", 0)`: a value that is not an object raises, a missing grade counts 0, and a grade that cannot be added raises |
| Evaluation.GradeTotal | check_code.py:147 | the sum succeeds exactly when every value has an addable grade, and otherwise raises one of the summing errors |
| Evaluation.Summarize | check_code.py:147-152 | a failing sum raises before the lookup; a report without the correctness key, or whose correctness entry has no grade, raises `KeyError`; a sum that succeeds with a graded correctness entry gives a result; a result's mean is the sum over the number of keys and its correctness grade is the one stored in the report |
| Evaluation.ReviewEvaluation | check_code.py:146-152 | a review with any keys, every grade addable and a graded correctness entry, is evaluated successfully: the mean is the sum over the distinct keys of the originality entry and the review, and the correctness grade is the review's |
| Evaluation.OriginalityOnly | check_code.py:118-141 | before the merge the report holds the originality key alone |
| Evaluation.Report | check_code.py:141-146 | the merged report is well formed and its first key is always the originality key |
| Evaluation.PrefixFailureRaises | check_code.py:147 | once a prefix of the values fails to sum, the whole sum raises the same error |
| Evaluation.GradeTotalExtend | check_code.py:147 | each further value adds its grade to the running sum or raises |
| Evaluation.SumGrades | check_code.py:147-149 | the summing loop computes the left-to-right sum of the grades or the first error |
| Evaluation.Evaluate | check_code.py:118-152 | the evaluation returns the mean over the merged report and the correctness grade, or the error the source raises |
| Evaluation.MergeThreeKeys | check_code.py:146 | merging a review of exactly the three criteria gives the four keys, originality first |
| Evaluation.MergeThreeCriteria | check_code.py:146 | the four values of that report are the originality entry and the review's three entries |
| Evaluation.GradeTotalOfFour | check_code.py:147 | four addable grades sum to their total |
| Evaluation.MergedThreeCriteriaSummary | check_code.py:146-152 | merged with a three-criteria review, any one-entry report gives the mean of four grades and the review's correctness grade |
| Evaluation.OriginalityGrade | check_code.py:121-141 | the stored originality entry adds its threshold grade to the sum |
| Evaluation.ThreeCriteriaEvaluation | check_code.py:141-152 | a three-criteria review with addable grades gives the mean of the originality grade and the three grades over 4, and the review's correctness grade |
| Evaluation.FallbackEvaluation | check_code.py:145-152 | a fallback review gives four entries, a mean of the originality grade over 4, and correctness 0 |
| Evaluation.FallbackEntryGrade | check_code.py:102-104 | a fallback criterion has grade 0 and adds 0 to the sum |
| Evaluation.UnparseableReplyEvaluation | check_code.py:93-152 | a reply with no span, or with an undecodable one, is graded on originality alone over 4 entries, with correctness 0 |
| Evaluation.MissingCorrectnessRaises | check_code.py:152 | a review without the correctness key makes the evaluation raise |
| Evaluation.DenominatorCountsKeys | check_code.py:147-149 | the denominator is the number of distinct keys among the originality key and the review's keys |
| Evaluation.OneKeyMergeCount | check_code.py:141-149 | merging into a report that holds only the originality key gives that many keys |
| Evaluation.GradeTotalBounds | check_code.py:147 | a sum of n grades, each in [lo, hi], succeeds and lies between n·lo and n·hi |
| Evaluation.QuotientBounds | check_code.py:147-149 | such a sum divided by n lies in [lo, hi] |
| Evaluation.MeanIsAverage | check_code.py:147-149 | the mean is the sum of all grades over the number of keys |
| Evaluation.MeanWithinGradeRange | check_code.py:147-149 | when every grade lies in [lo, hi], so does the mean |
| Evaluation.SummedEntriesAreGraded | check_code.py:147 | a sum that succeeds added every value: each has an addable grade |
| Evaluation.MergedCorrectness | check_code.py:146-152 | for any report without its own correctness entry, the grade returned is the review's, and it is a number or a boolean |
| Evaluation.CorrectnessIsReviewGrade | check_code.py:146-152 | the correctness grade returned is the one the review gave, and it is a number or a boolean |
| Evaluation.OriginalityEntryKept | check_code.py:141-146 | the originality entry stays unless the review carries the same key, in which case the review's value replaces it |
| Platform.DisplayName | bot.py:85 | the stored name is the username when it is present and non-empty, else the first name |
| Platform.Greeting | bot.py:104-107 | the greeting starts with "Привет, " followed by the name |
| Platform.NewAccount | bot.py:89 | a new user has the given name, 0 points and no solved tasks |
| Platform.Register | bot.py:87-91 | an unknown id gains a new account, a known id is left unchanged, and no other account changes |
| Platform.Award | bot.py:192-213 | an already-solved task is refused with nothing changed; a missing task answers 500 with nothing changed; otherwise the points grow by the task's points, the id is appended, and the answer carries the points awarded, the new total and the old count + 1 |
| Platform.Submission | bot.py:176-227 | a bad signature answers 401; an unknown user or a non-integer task id answers 500; otherwise the award applies to that user alone |
| Platform.EarnedAppend | bot.py:201-202 | appending an existing task adds exactly its points to what the list is worth |
| Platform.NewAccountConsistent | bot.py:51-52 | a new account satisfies the ledger invariant |
| Platform.RegisterPreservesConsistency | bot.py:87-91 | registration keeps every account consistent |
| Platform.AwardPreservesConsistency | bot.py:192-202 | an award keeps the list free of duplicates and the points equal to what the solved tasks are worth |
| Platform.AwardTwiceCountsOnce | bot.py:192-202 | submitting a credited task again changes nothing and answers "already solved" |
| Platform.SubmissionIdempotent | bot.py:192-202 | a repeated identical request leaves every account as the first left it |
| Platform.SubmissionPreservesConsistency | bot.py:182-202 | every request keeps every account consistent |
| Platform.ReplayPreservesConsistency | bot.py:176-227 | after any sequence of requests every account is still consistent |
| Platform.ReplayOnlyExtends | bot.py:201-202 | over any sequence of requests a user's old solved list stays a prefix of the new one, and with non-negative task points the total never drops |
| Platform.User.constructor | bot.py:46-52 | a new user has the given id and name, 0 points and no solved tasks |
| Platform.Platform.constructor | bot.py:230-257 | the user table starts empty and valid over a fixed catalogue |
| Platform.Platform.Start | bot.py:82-107 | `/start` registers the user as `Register` does, keeps the table valid, and answers the greeting |
| Platform.Platform.Submit | bot.py:176-227 | the submit handler changes the stored users exactly as `Submission` says, answers as it says, and keeps the table valid |

## Left out

- The similarity request (check_code.py:17-32) is an input, `Option<real>`.
  None stands for every failure of that request.
- The reviewer request (check_code.py:35-86) is an input: the reply text,
  which is empty on failure.
- The JSON grammar is not modelled. `json.loads` is a parameter
  `decode: string -> Option<Dict>` returning a dict. A span that starts with
  `{` can only decode to an object; None is a `JSONDecodeError`.
- Duplicate keys inside the decoded text are left to `decode`.
- The four-decimal rendering `f"{similarity:.4f}"` is a parameter `format`.
- Floating point is not modelled: similarities and grades are exact reals.
  - The two thresholds are the exact values of the doubles 0.95 and 0.8, so
    the threshold comparisons decide as the float ones do.
  - Rounding in the sum and the division is not modelled.
  - NaN similarities are not modelled.
- Evaluation.GradeTotal: `OverflowError` is not modelled, here or in
  `Evaluation.Summarize` and `Evaluation.Evaluate`. An integer grade beyond
  the double range (309 digits or more, which `json.loads` accepts) makes the
  division by `len(final_report)`, or its addition to a float grade, raise
  `OverflowError` (check_code.py:147-149); the model adds it as a real and
  succeeds. The non-finite grades `NaN`, `Infinity` and `-Infinity` that
  `json.loads` also accepts are not modelled either; in Python they make the
  mean non-finite without raising.
- Integer and float grades are both `Num`. Python `int` arithmetic and
  `bool`-to-int promotion in the sum are modelled as real addition.
- `print` calls and the logging are left out, as are the `__main__` block and
  the `USE_MOCK_LLM` switch.
- The bot, web and database plumbing are outside the model: aiogram handlers
  and keyboards, aiohttp routing and middleware, SQLAlchemy sessions and
  commits, the webhook, and seeding the task table.
  - `Platform.tasks` is the catalogue, fixed for the table's lifetime.
  - A failing commit is not modelled.
  - The registration time (a clock reading) is not modelled.
- `check_webapp_signature` is a boolean input to the submit handler.
  `safe_parse_webapp_init_data` is assumed to succeed once the signature
  holds.
- `int(data.get("taskId"))` is an `Option<int>` input: None when the
  conversion raises. The rounding of a float task id by `int` is not modelled.
- ReviewParser.ParseReview: an input so deeply nested that `json.loads`
  raises `RecursionError` is not modelled. That error is not a `ValueError`,
  so the parser does not catch it and the whole evaluation raises. The model
  treats every `decode` failure as one that falls back.
- Platform.ReplayOnlyExtends: requests are handled one at a time, each to
  completion. The handlers run concurrently with a session each and no lock,
  yielding at `session.get` and `session.commit` (bot.py:191-203).
  - Two interleaved submits for one user can read the same points and list.
    The later commit then overwrites the earlier one, so one award is lost
    although both answers say passed.
  - That lost update, and the solved list shrinking with it, are not
    modelled. The same holds for `Replay`, `ReplayPreservesConsistency` and
    `Platform.Platform.Submit`.
- The dead `else` branch of the submit handler (bot.py:214-221) is left out,
  because `is_correct` is always `True`.
- The profile command, the get-user and task-list endpoints and `to_dict` are
  read-only views, so they are left out.
- Platform.Platform.Start: the greeting message is modelled, but the inline
  keyboard that carries the web-app URL is left out.
