# Interview practice session, modelled in Dafny

This project models the `InterviewPractice` class of the interview-practice
tool. The class is a practice session that holds three things:

- a question bank: an ordered list of records, each with an id, a question,
  a reference answer and a category;
- the id of the question selected last, if any;
- an attempt history: for each question id, the list of attempts made at it.

It has these operations:

- add a question, with a generated short id and a default category of
  `"general"`;
- list the questions, optionally those of one category;
- select a question, by position or at random, optionally within a category;
- grade an answer to the selected question and record the attempt. Grading
  is by exact comparison after stripping and lower-casing, by substring
  containment after lower-casing, or by semantic similarity;
- summarise the history as the number of attempts, the number correct and
  the accuracy;
- replace the whole bank (`load`, without the file).

Modules:

- `Errors`: `Option`, `Result` and the session's failure cases. Each
  exception the class raises becomes an `Error` value.
- `Text`: the string operations the comparisons use.
  - `Lower` folds ASCII upper case.
  - `Strip` trims the characters Python's `str.isspace` accepts. It is
    characterised by `StripsTo`/`IsStripOf`: the unique slice with
    whitespace outside it and non-whitespace at its two ends.
  - `Contains` is Python's `in` on strings, and `ContainsIff` ties it to an
    explicit occurrence offset.
- `Bank`: question records and the list operations on them.
  - `Filter` is the list comprehension of `list_questions`.
  - `FirstIndexOf` is the `next(...)` lookup of `check_answer`.
  - `SelectIndex` is Python list indexing, negative positions included.
- `Grading`: the three comparison methods, as `Grade`, and what "exact" and
  "substring" mean.
- `Scores`: attempt records and the history map.
  - `Record` is `setdefault(...).append(...)`.
  - `Tally` is the count over all keys that `summary` computes.
  - `TallyRemove` shows that the count does not depend on the order of the
    keys.
- `Practice`: the class `InterviewPractice`, with fields `questions`,
  `currentQid` and `scores`.
  - Its methods change those fields in place, under `modifies` frames that
    name exactly the field each one assigns.
  - A ghost field `asked` and the invariant `Valid()` record that attempts
    are only ever filed under a question that was selected.
- `Scenarios`: short sessions whose assertions follow from the method
  contracts alone:
  - answering before asking;
  - empty bank and empty category;
  - positive, negative and out-of-range positions;
  - semantic grading without a model;
  - a two-attempt summary.

The library and environment parts are parameters:

- The generated id is the `freshId` argument of `AddQuestion`. It must have
  the shape of `str(uuid.uuid4())[:8]`, which is 8 lower-case hexadecimal
  digits.
- `random.choice` is a nondeterministic choice among the candidates.
- Whether the embedding model loaded is the constructor's `modelLoaded`.
- The cosine similarity the model would compute is the `similarity` argument
  of `CheckAnswer`.

Where the Python raises, the model returns `Err`:

| Python | Model |
|---|---|
| `ValueError` for an empty bank | `EmptyBank` |
| `ValueError` for an empty category | `EmptyCategory` |
| `ValueError` for an invalid index | `InvalidIndex` |
| `IndexError` from `candidates[idx]` with `idx < -len` | `IndexOutOfRange` |
| `ValueError` when nothing was asked | `NoActiveQuestion` |
| `StopIteration` when the selected id is no longer in the bank | `QuestionNotFound` |
| `ImportError` for "semantic" without a model | `ModelUnavailable` |
| `ValueError` for an unknown method | `UnsupportedMethod` |

## Model

| member | source | states |
|---|---|---|
| Text.IsSpace | src/interview_practice.py:74 | the characters `str.strip()` removes with no argument: those `str.isspace()` accepts, namely tab to carriage return, the information separators 0x1C-0x1F, space, 0x85, 0xA0, 0x1680, 0x2000-0x200A, 0x2028, 0x2029, 0x202F, 0x205F and 0x3000 |
| Text.LowerChar | src/interview_practice.py:74 | one character of `lower()`: the result is never upper case, is whitespace exactly when the input is, and differs from the input only for an upper-case letter, by 32 |
| Text.Lower | src/interview_practice.py:74 | `lower()` keeps the length and lower-cases each character in place, so no upper-case character is left, non-letters are unchanged and whitespace stays where it was |
| Text.LeadCount | src/interview_practice.py:74 | the length of the leading whitespace run: every character before it is whitespace and the next one is not |
| Text.TrailCount | src/interview_practice.py:74 | the length of the trailing whitespace run: every character after it is whitespace and the one before is not |
| Text.Strip | src/interview_practice.py:74 | `strip()` never lengthens its input |
| Text.StripIsStrip | src/interview_practice.py:74 | `strip()` returns a slice with only whitespace outside it and non-whitespace at both ends (empty when the input is all whitespace) |
| Text.StripAt | src/interview_practice.py:74 | any slice bounded that way is what `strip()` returns |
| Text.StripUnique | src/interview_practice.py:74 | the stripped form is unique: any string that is a strip of `s` equals `Strip(s)` |
| Text.LeadCountLower | src/interview_practice.py:74 | lower-casing does not change the leading whitespace run |
| Text.TrailCountLower | src/interview_practice.py:74 | lower-casing does not change the trailing whitespace run |
| Text.LowerSlice | src/interview_practice.py:74 | lower-casing commutes with taking a slice |
| Text.StripLowerCommute | src/interview_practice.py:74 | `s.strip().lower() == s.lower().strip()` for every `s` |
| Text.StripPadded | src/interview_practice.py:74 | surrounding a string with whitespace on either side does not change its strip |
| Text.Contains | src/interview_practice.py:77 | Python's `needle in hay` on strings: `hay` starts with `needle`, or its tail after the first character contains it |
| Text.ContainsShorter | src/interview_practice.py:77 | a string only contains strings no longer than itself |
| Text.ContainsIff | src/interview_practice.py:77 | `needle in hay` holds exactly when `needle` occurs in `hay` at some offset |
| Bank.IsShortUuid | src/interview_practice.py:30 | the shape of `str(uuid.uuid4())[:8]`: eight characters, each a digit or a lower-case letter from a to f |
| Bank.CategoryOrDefault | src/interview_practice.py:35 | `category or "general"`: a non-empty category is kept; `None` and `""` both give `"general"`; the result is never empty |
| Bank.Filter | src/interview_practice.py:40 | the comprehension keeps exactly the records of the given category and never grows |
| Bank.FilterAppend | src/interview_practice.py:40 | filtering distributes over concatenation, so bank order is kept |
| Bank.FilterExtremes | src/interview_practice.py:38-41 | no record of the category gives `[]`; all records of the category gives the whole bank |
| Bank.FirstIndexOf | src/interview_practice.py:66 | `next(q for q in questions if q["id"] == qid)`: the position of the first record with that id, and none exactly when no record has it |
| Bank.SelectIndex | src/interview_practice.py:54-56 | selection by position succeeds exactly when `-len <= idx < len`, and then picks the element Python's `candidates[idx]` denotes: position `idx`, or `idx + len` counting from the end. `None` or `idx >= len` is "invalid index"; `idx < -len` is the index error |
| Grading.ExactMatch | src/interview_practice.py:74 | the "exact" comparison: the user answer and the reference are equal once each is stripped and lower-cased |
| Grading.SubstringMatch | src/interview_practice.py:77 | the "substring" comparison: after lower-casing, the reference occurs in the user answer or the user answer occurs in the reference |
| Grading.ExactMatchMeaning | src/interview_practice.py:74 | "exact" accepts exactly when the two stripped answers are equal up to ASCII case |
| Grading.ExactMatchIgnoresPadding | src/interview_practice.py:74 | whitespace added around the user answer never changes the "exact" verdict |
| Grading.ExactMatchLowerFirst | src/interview_practice.py:74 | lower-casing before or after stripping gives the same "exact" verdict |
| Grading.SubstringMatchProperties | src/interview_practice.py:77 | "substring" is symmetric in the two answers; an empty user answer always matches; answers equal up to case match |
| Grading.SubstringMatchMeaning | src/interview_practice.py:77 | "substring" accepts exactly when one lower-cased answer occurs inside the other at some offset |
| Grading.ExactImpliesSubstringWhenTrimmed | src/interview_practice.py:73-78 | for answers without surrounding whitespace an "exact" match is also a "substring" match |
| Grading.ExactDoesNotImplySubstring | src/interview_practice.py:73-78 | with surrounding whitespace it is not: `" c"` against `"c "` passes "exact" and fails "substring" for every visible `c` |
| Grading.HashMapAnswersDisjoint | src/interview_practice.py:77 | two answers whose lengths and a few characters disagree at every alignment are not "substring" matches |
| Grading.HashMapExample | src/interview_practice.py:73-78 | the hash-map question: the answer "A data structure mapping keys to values" fails "substring" against "A key-value store with O(1) average lookup", and the reference passes "exact" against itself |
| Grading.Grade | src/interview_practice.py:73-87 | "exact" and "substring" always succeed with score 1.0 on a match and 0.0 otherwise, their verdicts being `ExactMatch` and `SubstringMatch`. "semantic" fails without a model and otherwise scores the similarity, matching iff it reaches the threshold. Any other method fails |
| Scores.CorrectCount | src/interview_practice.py:105 | the number of correct attempts in one list is at most its length: 0 when none is correct, the length when all are |
| Scores.CorrectCountAppend | src/interview_practice.py:90 | appending an attempt adds one to the correct count exactly when the attempt is correct |
| Scores.Tally | src/interview_practice.py:104-105 | over the whole history, `correct <= total` |
| Scores.TallyRemove | src/interview_practice.py:104-105 | the tally is any one key's counts plus the tally of the rest, so it does not depend on the order of `scores.values()` |
| Scores.Record | src/interview_practice.py:90 | `setdefault(qid, []).append(attempt)`: the key set gains `qid`, `qid`'s list is its old list (or `[]`) plus the attempt, every other list is unchanged |
| Scores.RecordElsewhere | src/interview_practice.py:90 | recording leaves the history outside `qid` exactly as it was |
| Scores.TallyRecord | src/interview_practice.py:90 | recording one attempt adds 1 to the total, and adds 1 to the correct count exactly when the attempt is correct |
| Scores.TallySingle | src/interview_practice.py:104-105 | a history with one question counts that question's attempts, and its correct ones, and nothing else |
| Scores.TallyEmpty | src/interview_practice.py:104-105 | an empty history counts zero attempts and zero correct |
| Practice.Accuracy | src/interview_practice.py:106 | the accuracy is 0 when there are no attempts; otherwise it is the exact ratio of correct attempts to attempts, a value in [0, 1] that gives back `correct` when multiplied by `total` |
| Practice.InterviewPractice.constructor | src/interview_practice.py:15-27 | the bank is the given list (`None` or empty gives an empty bank); nothing is selected, no attempt is recorded, and the invariant holds |
| Practice.InterviewPractice.AddQuestion | src/interview_practice.py:29-36 | the bank grows by exactly one record at the end, with the fresh id and the defaulted category; only `questions` changes and the class invariant is kept; for every category the filtered list gains the new record exactly when its category matches |
| Practice.InterviewPractice.ListQuestions | src/interview_practice.py:38-41 | with a non-empty category, exactly the records of that category in bank order; with `None` or `""`, the whole bank; it reads the state and changes nothing |
| Practice.InterviewPractice.GetQuestion | src/interview_practice.py:43-60 | fails on an empty bank, then on an empty candidate list, then (not random) as `SelectIndex` says, leaving the selection unchanged on every failure. A random pick always succeeds. On success the selection is the chosen candidate's id and the result its text; the candidate is in the bank and has the requested category. The attempt history is never touched |
| Practice.InterviewPractice.CheckAnswer | src/interview_practice.py:62-100 | fails when nothing was selected, then when the selected id is not in the bank. Otherwise the verdict is `Grade` on the first record with that id. A failure leaves `scores` unchanged; a success records exactly one attempt under the selected id; bank and selection never change; the invariant is kept |
| Practice.InterviewPractice.Summary | src/interview_practice.py:102-108 | `total` and `correct` are the number of attempts and of correct attempts over all keys, `correct <= total`, and `accuracy` is `Accuracy(correct, total)` |
| Practice.InterviewPractice.Load | src/interview_practice.py:115-117 | the bank becomes the loaded list; selection and history are untouched and the class invariant is kept |
| Scenarios.TallyOfTwoAttempts | src/interview_practice.py:104-106 | one wrong and then one right attempt at the same question give two attempts, one of them correct |

## Left out

- The embedding model (`SentenceTransformer`, `util.cos_sim`): third-party
  machine learning. Whether it loaded is a constructor flag; its similarity
  score is a parameter of `CheckAnswer`.
- `model_name`: the constructor argument only names the embedding model.
- `display(Markdown(...))`: IPython presentation output, with no effect on
  the state or on return values.
- `save` and the file side of `load`: file I/O and JSON. `Load` only
  replaces the bank.
- `uuid.uuid4()`: the id is supplied by the caller. The source does not
  guarantee that ids are unique, and neither does the model.
- `random.choice`: a nondeterministic choice. The model does not say which
  candidate is chosen, only that the choice is a candidate.
- Default argument values. Dafny has no default arguments, so callers pass
  them explicitly. `DefaultThreshold` is the 0.6 default of `threshold`; the
  default method is "semantic".
- Text.LowerChar: folds only the ASCII capitals A to Z. Python's
  `str.lower()` also folds non-ASCII letters.
- Text.Lower: folds only ASCII upper case. Python's `str.lower()` also folds
  non-ASCII letters, and a few of those change length.
- Practice.Accuracy: the ratio is an exact real. Python's `correct / total`
  is rounded to a double, so `accuracy * total == correct` holds in the
  model but not always in the source (1/49 times 49 is 0.9999999999999999
  there).
- Grading.Grade: scores are exact reals, not IEEE doubles. In the source the
  semantic score is `float(cos_sim)`.
- Practice.InterviewPractice.ListQuestions: with no filter, Python returns
  the bank list itself, so a caller that mutates it mutates the bank. The
  model returns the value, so this aliasing is not captured.
- Practice.InterviewPractice.constructor: the same applies to the list passed
  to `__init__`, which Python stores without copying.
- Practice.InterviewPractice.CheckAnswer: its contract gives the new history
  as `Record` of the old one. The effect on the summary counts is proved
  separately, as `Scores.TallyRecord`.
- Practice.InterviewPractice.constructor: every question record in the
  model has an id. The docstring of `__init__` describes the records it takes
  as `{"question", "answer", "category"}`, with no `"id"`. The Python then
  fails where the model succeeds, in two ways:
  - On a bank of such records, `get_question` passes its three checks and
    then raises `KeyError` at `q["id"]` (line 58).
  - `check_answer`'s `next(...)` (line 66) raises `KeyError` when a record
    without an id comes before the selected one. For example, a record
    given to `__init__` followed by one from `add_question`.
- The other keys of the dictionary records: attempts and questions are
  datatypes, so a record lacking `"question"`, `"answer"` or `"category"`
  (a `KeyError` in the source) cannot arise.
- `setup.py`: packaging metadata only.
