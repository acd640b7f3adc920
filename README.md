# PHQ-9 screening: scoring, submission and dashboard listing

A Dafny model of the core of a small web application that gives the PHQ-9
depression-screening questionnaire to anonymous respondents, scores and
interprets their answers, stores the result, and lists stored responses to
administrators.

Modules:

- `Wrappers` (`wrappers.dfy`): `Option` and `Result`.
- `Models` (`models.dfy`): the `Respondent` and `Response` rows, and
  `InterpretPhq9`, the if/elif chain that maps a total score to one of five
  severity labels. It is proved equal to a reference definition: the band is
  the score divided by five, clamped to 0..4. This follows the published
  cut-points 5, 10, 15 and 20. Lemmas state that every integer score gets
  exactly one label, give the exact score range of each label (negative scores
  are "Minimal", scores above 27 are "Severe"), and show that the label never
  gets milder as the score rises.
- `Qna` (`qna.dfy`): the POST branch of the questionnaire route.
  - `Collect` is the pure specification of the answer loop. It reads the
    fields of questions 0..n-1 in order. It stops at the first field that is
    missing or not an integer ("Please answer all questions.") or that is an
    integer outside 0..3 ("Invalid answer detected.").
  - `Evaluate` is the outcome of a whole submission. `ReadAnswers` is the loop
    itself, proved equal to `Collect`.
  - The class `Database` models the database session. It holds committed rows,
    rows that were added and flushed but not committed, and the autoincrement
    counters. Its invariant says that every stored response is well formed:
    each answer is in 0..3, the score is their sum, the label is
    `InterpretPhq9(score)`, and the flag is set exactly when the last answer is
    above 0. The invariant also says that every stored response references a
    stored respondent.
  - `Database.Qna` stages the respondent before any answer is read. It commits
    only after every answer has validated.
  - `Database.HandleRequest` adds the end-of-request session teardown. A
    rejected submission then leaves the committed tables unchanged. A saved
    one adds exactly one respondent and one response, linked by id.
- `Dashboard` (`dashboard.dfy`): the admin listing. It is an inner join with
  the respondents, an optional severity-prefix filter, newest first, and at
  most 200 rows. It is written as functions over a sequence of responses.

The number of questions comes from a configuration file that is not part of
this model. It is a parameter `n >= 1` here; for PHQ-9 it is 9. With `n = 0`
the source's `answers[-1]` would fail. The form is a map from question index
to the submitted text of field `q{i}`. Python's `int()` is the parameter
`parse: string -> Option<int>`. The verdict of the respondent intake form
(`validate_on_submit`) is the boolean `formAccepted`.

Points where the code's behaviour is easy to misread:

- An aborted submission is expected to leave no respondent row. The route
  itself does not roll back: it returns without committing. The respondent stays flushed but uncommitted in the session
  until the request's session teardown rolls it back. `Database.Qna` ends with
  the respondent still pending. `Database.HandleRequest` adds the teardown.
- Callers only ever pass a score in 0..27, but the interpreter accepts any
  integer. Scores of 4 or less, negative ones included, are
  "Minimal or none (0-4)". Scores of 20 or more, including those above 27, are
  "Severe (20-27)".
- The dashboard is an inner join. A response whose respondent is missing or
  null is never listed.
- The severity filter matches by prefix. "Severe" selects exactly the scores
  of 20 or more. "Moderate" also selects "Moderately severe (15-19)" rows
  (`Dashboard.ModerateFilterSelectsTwoBands`).

## Model

| member | source | states |
|---|---|---|
| `Models.InterpretPhq9` | models/models.py:71-82 | the label of every integer score is the label of its PHQ-9 band, the score divided by five and clamped to 0..4 |
| `Models.LabelsDistinct` | models/models.py:73-82 | the five labels are pairwise different, so no two bands share a label |
| `Models.InterpretExactlyOne` | models/models.py:73-82 | the interpreter is total: every integer score gets one of the five labels and no label other than its own band's |
| `Models.InterpretBands` | models/models.py:73-82 | each label is given exactly on its range: at most 4 (negatives included), 5..9, 10..14, 15..19, 20 and above (beyond 27 included), both directions |
| `Models.InterpretMonotone` | models/models.py:73-82 | a higher score never gets a milder label |
| `Qna.Collect` | routes/routes.py:41-58 | the answers are collected exactly when all n fields are valid; they are then n values in question order, answer i being the parsed value of field i; otherwise the result is the rejection of the first invalid field, every earlier field being valid |
| `Qna.CollectErrPersists` | routes/routes.py:43-58 | once a field is rejected, examining further questions does not change the result (the loop returns at the first failure) |
| `Qna.ReadAnswers` | routes/routes.py:41-58 | the answer loop returns exactly the specification `Collect`: the answers in order, or the first rejection |
| `Qna.Message` | routes/routes.py:50-57 | "Please answer all questions." is the notice of exactly a missing or unparsable answer, "Invalid answer detected." of exactly an out-of-range one |
| `Qna.CheckAnswer` | routes/routes.py:44-58 | one field is accepted exactly when it is present, parses as an integer and is in 0..3, and then its value is the parsed one; it is rejected as invalid exactly when it parses to an integer outside 0..3, and as missing exactly when it is absent or does not parse |
| `Qna.Sum` | routes/routes.py:60 | `sum(answers)`, added left to right; for answers in 0..3 the total lies between 0 and 3 times the number of answers |
| `Qna.SumFirst` | routes/routes.py:60 | the same total is obtained taking the first answer plus the sum of the rest |
| `Qna.Evaluate` | routes/routes.py:31-74 | the form page is shown exactly when the respondent form is not accepted; the submission is aborted exactly when the answer loop rejects a field, with that field's reason; otherwise the saved response holds the collected answers, is well formed (score = sum, label = interpreter(score), flag iff last answer above 0) and references the staged respondent |
| `Qna.SavedResponseProperties` | routes/routes.py:43-70 | a saved response has exactly n answers, answer i is the parsed field i, all in 0..3; score is their sum and lies in 0..3n; the label is the interpreter's for that score; the flag is set iff the last answer is above 0; it references the staged respondent |
| `Qna.SavedIffAllValid` | routes/routes.py:31-72 | a submission is saved exactly when the respondent form and all n answers are valid |
| `Qna.AbortedIffFirstRejection` | routes/routes.py:43-58 | a submission is aborted with a reason exactly when some field is rejected for that reason and every earlier field is valid |
| `Qna.LaterFieldsIgnored` | routes/routes.py:43-58 | fields after the first rejected one are never examined: forms agreeing up to it end in the same outcome |
| `Qna.Database.StageRespondent` | routes/routes.py:32-39 | add and flush: the respondent gets the next id and is pending, not committed; nothing else changes |
| `Qna.Database.StageResponse` | routes/routes.py:64-71 | add: the response gets the next response id and is pending; nothing else changes |
| `Qna.Database.Commit` | routes/routes.py:72 | every pending row becomes committed at once, and the stored-response invariants are kept |
| `Qna.Database.Rollback` | routes/routes.py:49-58 | the uncommitted rows left by an early return are dropped; committed rows are untouched |
| `Qna.Database.Save` | routes/routes.py:60-72 | the response with score = sum, label = interpreter(score), flag = last answer above 0, referencing the staged respondent, is committed together with it |
| `Qna.Database.Qna` | routes/routes.py:27-74 | the outcome is `Evaluate` of the inputs; a rejected form changes nothing; an aborted submission commits nothing and leaves only the staged respondent pending; a saved one commits the respondent and the response together |
| `Qna.Database.HandleRequest` | routes/routes.py:31-74 | after teardown, a rejected submission leaves the committed tables as they were; a saved one adds exactly one respondent and one well-formed response with n answers, linked by the respondent's id |
| `Dashboard.Eligible` | routes/routes.py:128-132 | a row is kept iff it is in the table, its respondent exists, and the severity parameter is absent, empty, or a prefix of its interpretation; each kept row occurs exactly as often as in the table, so no row is repeated or lost |
| `Dashboard.Insert` | routes/routes.py:129 | inserting into a newest-first sequence keeps it newest first and adds exactly that row |
| `Dashboard.SortNewestFirst` | routes/routes.py:129 | the result is a permutation of the rows, ordered by submission time, newest first |
| `Dashboard.DashboardRows` | routes/routes.py:128-134 | at most 200 rows, newest first, each one from the table, joined to a respondent and matching the severity prefix |
| `Dashboard.Limit` | routes/routes.py:134 | `LIMIT 200`: a prefix of the ordered rows, at most 200 long |
| `Dashboard.LimitKeepsNewest` | routes/routes.py:134 | on a newest-first sequence the limit keeps min(200, n) rows, all of them when n is at most 200, and drops only rows no newer than every row kept |
| `Dashboard.DashboardComplete` | routes/routes.py:128-134 | the listing has min(200, matches) rows, all drawn from the matching rows, and holds every matching row when there are at most 200 |
| `Dashboard.DashboardKeepsNewest` | routes/routes.py:129-134 | every matching row left out of the listing is no newer than any row shown |
| `Dashboard.EmptySeverityIsNoFilter` | routes/routes.py:128-132 | an absent or empty severity parameter filters nothing: only the join narrows the rows |
| `Dashboard.SevereFilterSelectsSevereBand` | routes/routes.py:131-132 | the filter "Severe" selects exactly the responses scored 20 or more |
| `Dashboard.ModerateFilterSelectsTwoBands` | routes/routes.py:131-132 | the filter "Moderate" selects the scores 10..19, the moderate and the moderately severe bands together |

## Left out

- HTTP plumbing (routing, `render_template`, `flash`, `redirect`, `url_for`): the outcome of a request is the datatype `Qna.Outcome`, and `Qna.Message` gives the notice text of each rejection.
- The result page (`get_or_404` on a response id) and the landing page: pure lookup and rendering.
- Admin login and logout, `login_required`, the user loader, and password hashing: these are session state and cryptography of external libraries.
- The form validators of `models/forms.py` (required name and e-mail, e-mail syntax, lengths, age range, gender choices): their verdict is the input `formAccepted`.
- Application start-up and configuration (`app.py`).
- `setup.py`, which holds the questions and answer options, is not part of this model; the number of questions is the parameter `n`.
- Python's `int()` parsing rules (whitespace, signs, underscores, non-ASCII digits): abstracted as the parameter `parse`. The exception handler's `print` is left out.
- The field names `q{i}`: fields are keyed by question index.
- `created_at` and the `submitted_at` default: the clock is the parameter `now`, an integer timestamp.
- SQL details of the listing: the LIKE pattern is modelled as an exact prefix match. Wildcards `%` and `_` inside the parameter and case-insensitive collations are not modelled.
- Dashboard.SortNewestFirst: rows with equal `submitted_at` get one fixed order here, while SQL leaves their order unspecified.
- Qna.Database.StageResponse: the response id is assigned when the row is added. The database assigns it at the flush inside `commit()`; the value is the same next autoincrement id.
- Qna.ReadAnswers: the answer loop is a method of its own that returns the first rejection. In the route it is inline and returns from the route; `Database.Qna` turns a rejection into the same early exit.
- Concurrency between requests, and the storage of `answers` as a JSON column.
