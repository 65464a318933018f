# GPA calculator core in Dafny

A model of the core of a JavaFX GPA calculator, with proofs about it. Students enter courses
(name, code, credit, two teachers, a letter grade) against a target number of credits. The app
computes a credit-weighted GPA and keeps a history of saved results in SQLite.

The model covers four pieces:

- **The grade table and the weighted average** (`GpaCalculator`, `gpa_calculator.dfy`).
  `GradeToPoint` maps the twelve letter grades, trimmed as Java's `String.trim` trims, to exact
  quarter values. Anything else is worth 0. `CalculateGpa` is the loop of `calculateGpa` with its two
  running totals. It is proved against `QualityPoints(cs) / TotalCredits(cs)`, and 0 when there
  are no credits. Lemmas show that the GPA lies in [0, 4] when all credits are positive, and that
  it does not depend on the order of the courses.
- **The summary record** (`Summaries`, `gpa_summary.dfy`). `GpaSummary` is a class with the five
  fields, both constructors and one setter per field. Each setter changes its own field and
  nothing else.
- **The history service** (`Service`, `gpa_summary_service.dfy`, on top of `Storage`, `History`
  and `Sequences`). The single background worker becomes a FIFO `queue` of `Task`s and a
  `shutdown` flag.
  - Each public operation appends one task, or is refused after shutdown.
  - `Step` pops the oldest task and runs its storage call and its success or failure handler.
    Its effect on the database, the history list and the reported `Outcome` is given by the
    function `Run`.
  - Storage is a value `Db`: rows newest first, course rows per summary id, and the
    AUTOINCREMENT counter. It follows the DAOs' return conventions: -1 for a failed insert,
    `false` when delete or update affect no row, the rows read so far on a read error, and
    course-insert errors swallowed.
  - Every fault (an SQLException at some point, an unchecked exception, the clock) is a field of
    the `Env` parameter passed to `Step`.
  - Proved properties:
    - every task keeps the storage invariant, keeps the history's ids issued and keeps the
      history newest first with no repeated id;
    - each operation has an exact success/failure characterisation;
    - a task that fails leaves the history as it was;
    - without faults, the history stays a mirror of the stored rows;
    - courses saved with a summary are exactly what loading that summary's courses returns.
- **The entry screen** (`Entry`, `entry_controller.dfy`). `CheckCourse` runs `handleAdd`'s
  validation chain in the handler's order and yields the course or the first rejection.
  `EntryController` holds the target text, the course list and the two enable flags. Adding
  appends exactly one course. Delete and Edit remove the chosen row. Calculate follows
  `updateCalcButton`'s rule, which `CalcRuleMeaning` restates as "the target parses to some
  positive t and 0 < total credits <= t".

Java's `Double.parseDouble` is an abstract `Parser` (`string -> Option<real>`), and all numbers
are `real`. Strings are sequences of Unicode scalar values; surrogate pairs are not modelled.
`String.trim`, the regular expression `.*\d{4}$` under `String.matches`, and the decimal-point
count are written out in `JavaString` (`java_string.dfy`).

Three behaviours of the code are easy to miss, and the model follows the code in each:

- The schema at `DatabaseManager.java:64` declares `ON DELETE CASCADE`, and the comment at
  `CourseDao.java:83-84` expects it to fire. But no connection opened in `DatabaseManager.java`
  turns on SQLite's foreign keys, so deleting a summary leaves its course rows
  (`Storage.DeleteSummary`).
- A read that meets an SQLException returns the rows read so far, not necessarily an empty list
  (`Storage.FetchAll`, `Storage.FetchCourses`).
- When `loadAllSummaries` fails, its failure handler only logs the error and runs no callback
  (`GpaSummaryService.java:158-162`, `Outcome.Unreported`).

## Model

| member | source | states |
|---|---|---|
| JavaString.Trim | src/main/java/com/example/gpa/GpaCalculator.java:11 | the trimmed string is no longer than the input and neither starts nor ends with a character <= U+0020 |
| JavaString.TrimUnique | src/main/java/com/example/gpa/GpaCalculator.java:11 | a removable prefix, then r with non-removable ends, then a removable suffix trims to exactly r |
| JavaString.TrimAllBlank | src/main/java/com/example/gpa/controllers/EntryController.java:119-126 | a field of nothing but blanks trims to the empty string |
| JavaString.TrimFront | src/main/java/com/example/gpa/GpaCalculator.java:11 | leading blanks in front of a non-blank are dropped |
| JavaString.TrimBack | src/main/java/com/example/gpa/GpaCalculator.java:11 | trailing blanks behind a string with non-blank ends are dropped |
| JavaString.TrimParts | src/main/java/com/example/gpa/GpaCalculator.java:11 | every string is its trim framed by a removable prefix and suffix |
| JavaString.TrimIgnoresPadding | src/main/java/com/example/gpa/GpaCalculator.java:11 | padding with blank characters on either side does not change the trim |
| JavaString.TrimIdempotent | src/main/java/com/example/gpa/controllers/EntryController.java:119-123 | trimming an already trimmed field changes nothing |
| JavaString.CountChar | src/main/java/com/example/gpa/controllers/EntryController.java:145 | the count is exactly the number of occurrences of the character (its multiplicity in the string); 0 exactly when it does not occur |
| JavaString.MatchesFourDigitSuffix | src/main/java/com/example/gpa/controllers/EntryController.java:136 | `code.matches(".*\\d{4}$")` checked directly: the last four characters are ASCII digits and no line terminator precedes them; FourDigitSuffixIsPattern proves it equal to the pattern's language |
| JavaString.MatchesPattern | src/main/java/com/example/gpa/controllers/EntryController.java:136 | the pattern as a language: a prefix that `.` matches, four ASCII digits, then the end of the input |
| JavaString.FourDigitSuffixIsPattern | src/main/java/com/example/gpa/controllers/EntryController.java:136 | the direct check accepts a string exactly when the whole string matches the pattern, in both directions |
| JavaString.SuffixGivesPattern | src/main/java/com/example/gpa/controllers/EntryController.java:136 | a string passing the direct check splits into a matching prefix and four digits |
| JavaString.PatternGivesSuffix | src/main/java/com/example/gpa/controllers/EntryController.java:136 | any split into a matching prefix and four digits passes the direct check |
| GpaCalculator.PointsInRange | src/main/java/com/example/gpa/GpaCalculator.java:12-23 | every value in the grade table lies in [0, 4] |
| GpaCalculator.PointOf | src/main/java/com/example/gpa/GpaCalculator.java:11-25 | a switch result, a case label or the default, lies in [0, 4] |
| GpaCalculator.GradeToPoint | src/main/java/com/example/gpa/GpaCalculator.java:9-26 | a null grade gives 0, and every grade gives a value in [0, 4] |
| GpaCalculator.UnknownGradeIsZero | src/main/java/com/example/gpa/GpaCalculator.java:24 | a grade whose trim is not one of the twelve labels is worth 0 |
| GpaCalculator.KeyLooksUp | src/main/java/com/example/gpa/GpaCalculator.java:12-23 | each of the twelve labels is worth exactly its table value (A+ 4.0 down to F 0.0) |
| GpaCalculator.TrimIdempotentOnLabel | src/main/java/com/example/gpa/GpaCalculator.java:11-23 | no case label is changed by trim, so every label is reachable |
| GpaCalculator.GradeIgnoresPadding | src/main/java/com/example/gpa/GpaCalculator.java:11 | " A " is worth what "A" is worth, for any grade and any blank padding |
| GpaCalculator.CalculateGpa | src/main/java/com/example/gpa/GpaCalculator.java:28-38 | with zero total credit (an empty list included) the result is 0, otherwise it is exactly sum(point * credit) / sum(credit) |
| GpaCalculator.TotalsStep | src/main/java/com/example/gpa/GpaCalculator.java:31-35 | one more course adds its grade point times credit to the quality points and its credit to the credits |
| GpaCalculator.QualityPointBounded | src/main/java/com/example/gpa/GpaCalculator.java:32-33 | a course with non-negative credit earns between 0 and 4 points per credit |
| GpaCalculator.SumBounded | src/main/java/com/example/gpa/GpaCalculator.java:31-35 | per-course bounds of 0 to 4 points per credit carry over to the running totals |
| GpaCalculator.QualityPointsBounded | src/main/java/com/example/gpa/GpaCalculator.java:29-35 | with non-negative credits, the quality points lie between 0 and 4 times the credits |
| GpaCalculator.CreditsPositive | src/main/java/com/example/gpa/GpaCalculator.java:34 | a non-empty list of positive credits has a positive credit total |
| GpaCalculator.GpaBounded | src/main/java/com/example/gpa/GpaCalculator.java:28-37 | with all credits positive the GPA, a weighted average of table values, lies in [0, 4] |
| GpaCalculator.SumAppend | src/main/java/com/example/gpa/GpaCalculator.java:31-35 | the totals over a concatenation are the sums of the totals over the parts |
| GpaCalculator.SumPermutation | src/main/java/com/example/gpa/GpaCalculator.java:31-35 | two course lists with the same multiset of courses have the same totals |
| GpaCalculator.RemoveAt | src/main/java/com/example/gpa/GpaCalculator.java:31-35 | removing position k leaves the multiset of courses less exactly that course |
| GpaCalculator.SumRemoveAt | src/main/java/com/example/gpa/GpaCalculator.java:31-35 | removing one course from the list removes exactly its share from a total |
| GpaCalculator.SumSplit | src/main/java/com/example/gpa/GpaCalculator.java:31-35 | a course in the middle of a list contributes its share to the total |
| GpaCalculator.GpaOrderIndependent | src/main/java/com/example/gpa/GpaCalculator.java:28-37 | any reordering of the course list (same multiset of courses) gives the same GPA |
| Summaries.GpaSummary.New | src/main/java/com/example/gpa/model/GpaSummary.java:20-25 | a new summary has id 0 (not yet stored), the given gpa and credits, the clock's timestamp and no courses |
| Summaries.GpaSummary.Load | src/main/java/com/example/gpa/model/GpaSummary.java:28-34 | a loaded summary holds the four stored values unchanged and no courses |
| Summaries.GpaSummary.SetId | src/main/java/com/example/gpa/model/GpaSummary.java:58-60 | only the id changes |
| Summaries.GpaSummary.SetGpa | src/main/java/com/example/gpa/model/GpaSummary.java:62-64 | only the gpa changes |
| Summaries.GpaSummary.SetCredits | src/main/java/com/example/gpa/model/GpaSummary.java:66-68 | only the credits change |
| Summaries.GpaSummary.SetTimestamp | src/main/java/com/example/gpa/model/GpaSummary.java:70-72 | only the timestamp changes |
| Summaries.GpaSummary.SetCourses | src/main/java/com/example/gpa/model/GpaSummary.java:74-76 | the course list is replaced by the given one as a whole, and nothing else changes |
| Sequences.Filter | src/main/java/com/example/gpa/services/GpaSummaryService.java:198 | the survivors are elements of the input that pass the test, no element that passes is lost, and the result is no longer |
| Sequences.FilterAppend | src/main/java/com/example/gpa/services/GpaSummaryService.java:198 | filtering works piecewise over a concatenation, so survivors keep their order |
| Sequences.FilterKeepsAll | src/main/java/com/example/gpa/services/GpaSummaryService.java:198 | when every element passes, nothing changes |
| Sequences.FilterOrdered | src/main/java/com/example/gpa/database/GpaSummaryDao.java:89-96 | an order between earlier and later elements survives removal |
| Storage.InsertSummary | src/main/java/com/example/gpa/database/GpaSummaryDao.java:24-51 | an insert that fails before its row is written returns -1 and changes nothing; otherwise the counter's next id is returned, the row goes in front and the counter moves on; the id is positive exactly when the insert worked and was never used before |
| Storage.ReadCount | src/main/java/com/example/gpa/database/GpaSummaryDao.java:65-80 | a read yields at most the stored rows, and all of them when no SQLException occurs |
| Storage.FetchAll | src/main/java/com/example/gpa/database/GpaSummaryDao.java:57-83 | the result is a prefix of the rows, newest first, each as a summary with no courses; all rows without an error |
| Storage.RemoveRow | src/main/java/com/example/gpa/database/GpaSummaryDao.java:90-96 | the rows `DELETE ... WHERE id = ?` leaves: every row with another id, in order (properties from Sequences.Filter) |
| Storage.DeleteSummary | src/main/java/com/example/gpa/database/GpaSummaryDao.java:89-109 | true exactly when no exception occurs and a row has the id; then those rows go and the course rows stay; a failure (taken to happen before the write) changes nothing |
| Storage.DeleteKeepsValid | src/main/java/com/example/gpa/database/GpaSummaryDao.java:89-109 | deleting keeps the stored ids issued and strictly decreasing |
| Storage.UpdateRows | src/main/java/com/example/gpa/database/GpaSummaryDao.java:116-126 | each row with the summary's id takes its gpa, credits and timestamp; other rows and all ids are unchanged |
| Storage.UpdateSummary | src/main/java/com/example/gpa/database/GpaSummaryDao.java:115-139 | true exactly when no exception occurs and a row has the id; a failure (taken to happen before the write) changes nothing; the storage invariant holds afterwards |
| Storage.InsertCourses | src/main/java/com/example/gpa/database/CourseDao.java:18-43 | the batch is appended to that summary's course rows up to the point of an error, which is swallowed; other summaries and the summary rows are untouched |
| Storage.FetchCourses | src/main/java/com/example/gpa/database/CourseDao.java:48-79 | the stored courses of that summary in insertion order, cut at a read error |
| Storage.CoursesRoundTrip | src/main/java/com/example/gpa/database/CourseDao.java:18-79 | courses inserted under a newly inserted id are read back exactly |
| History.IndexOfId | src/main/java/com/example/gpa/services/GpaSummaryService.java:254-259 | the first position holding the id, or -1 when no entry holds it |
| History.IndexOfIdFound | src/main/java/com/example/gpa/services/GpaSummaryService.java:254-259 | the search finds a position exactly when some entry carries the id |
| History.RemoveId | src/main/java/com/example/gpa/services/GpaSummaryService.java:198 | `removeIf(summary -> summary.getId() == id)`: the entries with another id, in order; its properties are the RemoveId lemmas below |
| History.RemoveIdMembers | src/main/java/com/example/gpa/services/GpaSummaryService.java:198 | after removeIf no entry carries the id, every other entry survives and nothing new appears |
| History.RemoveIdAbsent | src/main/java/com/example/gpa/services/GpaSummaryService.java:198 | removing an id the list does not hold leaves it unchanged |
| History.RemoveIdAppend | src/main/java/com/example/gpa/services/GpaSummaryService.java:198 | removal works piecewise, so the survivors keep their order |
| History.ReplaceFirst | src/main/java/com/example/gpa/services/GpaSummaryService.java:254-259 | length and ids are kept; the first entry with the id becomes the summary and is the only entry that may change; with no match the list is unchanged |
| History.SetCoursesFirst | src/main/java/com/example/gpa/services/GpaSummaryService.java:388-393 | only the first entry with the id changes, and only its courses; with no match the list is unchanged |
| Service.FindId | src/main/java/com/example/gpa/services/GpaSummaryService.java:80-85 | the search finds a summary exactly when the fetched list holds the id, and the summary it finds is in the list and has that id |
| Service.Run | src/main/java/com/example/gpa/services/GpaSummaryService.java:67-411 | one task and its handlers as a transition of storage, history and outcome; Step is proved to apply it and the Outcome lemmas below state what it does |
| Service.NewestFirst | src/main/java/com/example/gpa/services/GpaSummaryService.java:97 | history ids strictly decrease, so saves show up newest first and no id appears twice |
| Service.GpaSummaryService.constructor | src/main/java/com/example/gpa/services/GpaSummaryService.java:37-46 | the service starts with an empty history, an empty queue and a worker that accepts tasks |
| Service.GpaSummaryService.Submit | src/main/java/com/example/gpa/services/GpaSummaryService.java:116 | the task joins the back of the queue unless the executor is shut down; nothing else changes; the service invariant is kept |
| Service.GpaSummaryService.SaveSummary | src/main/java/com/example/gpa/services/GpaSummaryService.java:67-117 | queues a save task with these arguments; history and storage are untouched until it runs; the service invariant is kept |
| Service.GpaSummaryService.SaveSummaryWithCourses | src/main/java/com/example/gpa/services/GpaSummaryService.java:301-353 | queues a save-with-courses task with these arguments; the service invariant is kept |
| Service.GpaSummaryService.LoadAllSummaries | src/main/java/com/example/gpa/services/GpaSummaryService.java:133-165 | queues a load-all task; the service invariant is kept |
| Service.GpaSummaryService.DeleteSummary | src/main/java/com/example/gpa/services/GpaSummaryService.java:182-222 | queues a delete task for the id; the service invariant is kept |
| Service.GpaSummaryService.UpdateSummary | src/main/java/com/example/gpa/services/GpaSummaryService.java:238-283 | queues an update task carrying the summary's current state; the service invariant is kept |
| Service.GpaSummaryService.LoadCoursesForSummary | src/main/java/com/example/gpa/services/GpaSummaryService.java:369-411 | queues a course-loading task for the id; the service invariant is kept |
| Service.GpaSummaryService.Shutdown | src/main/java/com/example/gpa/services/GpaSummaryService.java:417-420 | no task is accepted afterwards; queued tasks, history and storage stay; the service invariant is kept |
| Service.GpaSummaryService.FindSaved | src/main/java/com/example/gpa/services/GpaSummaryService.java:80-85 | the loop returns the first fetched summary with the id, or none |
| Service.GpaSummaryService.ReplaceInHistory | src/main/java/com/example/gpa/services/GpaSummaryService.java:254-259 | the loop with its break sets the first entry with the id to the summary and leaves the rest |
| Service.GpaSummaryService.SetCoursesInHistory | src/main/java/com/example/gpa/services/GpaSummaryService.java:388-393 | the loop with its break gives the first entry with the id the courses and leaves the rest |
| Service.GpaSummaryService.Step | src/main/java/com/example/gpa/services/GpaSummaryService.java:38-43 | tasks run one at a time in submission order: the oldest task is removed from the queue and applied as Run describes; an empty queue changes nothing; the storage invariant, issued history ids and the newest-first order of the history are preserved |
| Service.GpaSummaryService.RunSave | src/main/java/com/example/gpa/services/GpaSummaryService.java:71-114 | insert, refetch, search for the id, then prepend or fail |
| Service.GpaSummaryService.RunSaveWithCourses | src/main/java/com/example/gpa/services/GpaSummaryService.java:304-350 | insert, then the courses only after a positive id, refetch, then prepend the found row with the submitted courses or fail |
| Service.GpaSummaryService.RunLoadAll | src/main/java/com/example/gpa/services/GpaSummaryService.java:135-156 | the history becomes the fetched list |
| Service.GpaSummaryService.RunLoadCourses | src/main/java/com/example/gpa/services/GpaSummaryService.java:373-399 | the fetched courses go to the first matching entry and to the callback |
| Service.GpaSummaryService.RunDelete | src/main/java/com/example/gpa/services/GpaSummaryService.java:184-210 | a storage delete that reports true removes the id from the history, otherwise failure |
| Service.GpaSummaryService.RunUpdate | src/main/java/com/example/gpa/services/GpaSummaryService.java:240-271 | a storage update that reports true replaces the first matching entry, otherwise failure |
| Service.RunKeepsValid | src/main/java/com/example/gpa/services/GpaSummaryService.java:67-411 | every task, under any faults, keeps the storage invariant and keeps every history id one the counter has issued |
| Service.RunKeepsOrder | src/main/java/com/example/gpa/services/GpaSummaryService.java:67-411 | every task, under any faults, keeps the history newest first with no repeated id |
| Service.PrependKeepsOrder | src/main/java/com/example/gpa/services/GpaSummaryService.java:97 | a summary with the counter's newest id can go in front of a newest-first history |
| Service.SaveKeepsValid | src/main/java/com/example/gpa/services/GpaSummaryService.java:71-104 | the same for a save |
| Service.SaveWithCoursesKeepsValid | src/main/java/com/example/gpa/services/GpaSummaryService.java:304-341 | the same for a save with courses |
| Service.LoadAllKeepsValid | src/main/java/com/example/gpa/services/GpaSummaryService.java:143-156 | a loaded history holds only issued ids |
| Service.DeleteKeepsIssued | src/main/java/com/example/gpa/services/GpaSummaryService.java:192-210 | the same for a delete |
| Service.UpdateKeepsIssued | src/main/java/com/example/gpa/services/GpaSummaryService.java:248-271 | the same for an update |
| Service.LoadCoursesKeepsIssued | src/main/java/com/example/gpa/services/GpaSummaryService.java:381-399 | the same for loading courses |
| Service.FailureKeepsHistory | src/main/java/com/example/gpa/services/GpaSummaryService.java:106-114 | a task that reports failure, or no outcome, leaves the history unchanged |
| Service.SaveOutcome | src/main/java/com/example/gpa/services/GpaSummaryService.java:76-113 | a save succeeds exactly when the insert works and the refetch reaches the new row; then the history is the saved summary, with the inserted id, in front of the old history; otherwise failure and the same history |
| Service.SaveWithCoursesOutcome | src/main/java/com/example/gpa/services/GpaSummaryService.java:310-334 | success exactly when the insert works and the refetch reaches the new row, whatever happens to the courses; no course is stored when the parent insert fails; otherwise the summary row stays in front of the old rows and the courses are stored under the new id up to a swallowed error; a success prepends the summary carrying exactly the submitted courses; failure leaves the history; without faults it succeeds |
| Service.LoadAllOutcome | src/main/java/com/example/gpa/services/GpaSummaryService.java:143-162 | the history becomes exactly the fetched list; after an exception it is unchanged and no callback runs |
| Service.DeleteOutcome | src/main/java/com/example/gpa/services/GpaSummaryService.java:192-219 | success exactly when storage deleted a row; then every entry with the id is gone and the rest keep their order; otherwise failure and no change |
| Service.UpdateOutcome | src/main/java/com/example/gpa/services/GpaSummaryService.java:248-280 | success exactly when storage updated a row; the length is kept; on success the history is ReplaceFirst of the old one: the first matching entry becomes the summary, and with no matching entry success is still reported and the history is unchanged |
| Service.LoadCoursesOutcome | src/main/java/com/example/gpa/services/GpaSummaryService.java:373-407 | storage is never changed; without an unchecked exception the callback receives the fetched courses whether or not an entry matched, and only the first match receives them; with one, onFailure runs and the history is unchanged |
| Service.LoadAllMirrors | src/main/java/com/example/gpa/services/GpaSummaryService.java:147-149 | a fault-free load makes the history show exactly the stored rows in storage order |
| Service.MirrorKept | src/main/java/com/example/gpa/services/GpaSummaryService.java:67-411 | without faults, every task makes the same change to the history that it makes to the table, so a history in step with storage stays in step |
| Service.SaveMirrored | src/main/java/com/example/gpa/services/GpaSummaryService.java:76-97 | a fault-free save prepends to the history the row it prepends to the table |
| Service.SaveWithCoursesMirrored | src/main/java/com/example/gpa/services/GpaSummaryService.java:310-334 | the same for a fault-free save with courses |
| Service.RemoveMirrored | src/main/java/com/example/gpa/services/GpaSummaryService.java:198 | removeIf on the history and DELETE on the rows keep them in step |
| Service.ReplaceMirrored | src/main/java/com/example/gpa/services/GpaSummaryService.java:254-259 | replacing the first match in the history and UPDATE on the rows keep them in step |
| Service.SaveThenLoadCourses | src/main/java/com/example/gpa/services/GpaSummaryService.java:310-334 | after a fault-free save with courses, loading that summary's courses returns exactly those courses and leaves the history as it is |
| Service.SavedIdIsNewest | src/main/java/com/example/gpa/services/GpaSummaryService.java:76-97 | a newly saved entry carries an id above every older history entry |
| Entry.CheckCourse | src/main/java/com/example/gpa/controllers/EntryController.java:119-160 | rejected for a missing field exactly when a trimmed field is empty or no grade is chosen; for a space exactly when the fields are present and the code holds U+0020; accepted exactly when all checks pass, and then the course is built from the trimmed fields and the parsed credit |
| Entry.AcceptedCourseWellFormed | src/main/java/com/example/gpa/controllers/EntryController.java:119-160 | an accepted course has a non-empty trimmed name and code, a space-free code that the whole pattern `.*\\d{4}$` matches, a positive credit and a grade |
| Entry.LongerDigitRunPasses | src/main/java/com/example/gpa/controllers/EntryController.java:136-139 | "CSE12345" passes the four-digit check: longer digit runs are allowed |
| Entry.TabPassesCodeChecks | src/main/java/com/example/gpa/controllers/EntryController.java:132-139 | a tab inside the code passes both code checks: only U+0020 is looked for |
| Entry.LineBreakFailsSuffix | src/main/java/com/example/gpa/controllers/EntryController.java:136 | a line break before the digits fails the pattern |
| Entry.ParseTarget | src/main/java/com/example/gpa/controllers/EntryController.java:188-191 | parseTarget: the parsed trimmed target, or -1 when it does not parse; its meaning in CalcRuleMeaning |
| Entry.CalcRule | src/main/java/com/example/gpa/controllers/EntryController.java:167-177 | updateCalcButton's enabling rule, characterised by CalcRuleMeaning and NoCoursesNoCalc |
| Entry.CalcRuleMeaning | src/main/java/com/example/gpa/controllers/EntryController.java:167-191 | Calculate is enabled exactly when the target parses to a positive t and 0 < total credits <= t; a target that does not parse never enables it |
| Entry.NoCoursesNoCalc | src/main/java/com/example/gpa/controllers/EntryController.java:173-176 | with no courses Calculate is disabled |
| Entry.CalcAfterTargetChangeAsWritten | src/main/java/com/example/gpa/controllers/EntryController.java:83-105 | the button after a target change as written: the rule for an accepted target, the old state otherwise |
| Entry.StaleCalcButton | src/main/java/com/example/gpa/controllers/EntryController.java:83-105 | clearing a target of 20 with 3 credits entered leaves Calculate enabled though the rule disables it |
| Entry.EntryController.constructor | src/main/java/com/example/gpa/controllers/EntryController.java:73-77 | no courses, the form and Calculate disabled |
| Entry.EntryController.UpdateCalcButton | src/main/java/com/example/gpa/controllers/EntryController.java:167-186 | Calculate is set by the rule; nothing else changes |
| Entry.EntryController.OnTargetChanged | src/main/java/com/example/gpa/controllers/EntryController.java:83-105 | the form is enabled exactly for a non-blank target that parses to a positive value; Calculate follows the rule afterwards (corrected) |
| Entry.EntryController.HandleAdd | src/main/java/com/example/gpa/controllers/EntryController.java:118-165 | the result is the validation's; acceptance appends exactly that course at the end, rejection changes nothing; the invariant holds |
| Entry.EntryController.DeleteCourse | src/main/java/com/example/gpa/controllers/EntryController.java:59-64 | exactly the chosen row leaves the list, the rest keep their order, Calculate is re-evaluated |
| Entry.EntryController.EditCourse | src/main/java/com/example/gpa/controllers/EntryController.java:52-58 | the chosen course is returned for the form and leaves the list, Calculate is re-evaluated |
| Entry.EnteredGpaBounded | src/main/java/com/example/gpa/controllers/EntryController.java:198 | the course list of any controller in its invariant, which handleCalculate hands to the result screen, has a GPA in [0, 4] |

## Left out

- Threads, `Task`, `Platform.runLater` and the daemon worker: the worker is the FIFO queue and `Step`. Each handler runs within its task's step, so no other task can slip between a task and its UI-thread handler.
- The `Runnable`/`Consumer` callbacks: a task's `Outcome` records which callback would run.
- `executor.submit` after `shutdown` throws `RejectedExecutionException`. Here `Submit` returns `false` instead.
- Floating point: numbers are `real`, with no IEEE rounding, NaN or infinity, and no `%.1f` formatting.
- `Double.parseDouble`: an abstract `Parser`. The model does not know which texts it accepts (such as "3d", "0x1p1" or "NaN").
- `LocalDateTime.now()`: the formatted clock reading is the `now` string of `Env`.
- `ORDER BY timestamp DESC` is modelled as newest-insertion-first. An update that changes a timestamp does not reorder the rows. Second-resolution timestamp ties are not modelled.
- Storage.InsertSummary, Storage.DeleteSummary, Storage.UpdateSummary: a failure is modelled as happening before the write. With auto-commit, `executeUpdate` has already committed when a later step fails: `getGeneratedKeys().next()` returning false, or an exception while closing the statement or connection. The DAO then reports -1 or `false` although the row was written, deleted or updated. The model does not capture that case, where the task fails with storage changed.
- Java `int` width: ids and counts are unbounded integers.
- The `NOT NULL` and type constraints of the SQLite schema, and the JDBC driver itself. Storage is the `Db` value with the DAOs' return conventions.
- `GpaSummaryDao.getCount` and `CourseDao.deleteCoursesForSummary`: no operation of the core calls them.
- Service.GpaSummaryService.UpdateSummary: the task carries the summary's state at submission. In Java it reads the shared object when it runs, and the history then holds that same object (aliasing).
- Service.GpaSummaryService.SaveSummaryWithCourses: the saved summary holds a copy of the course list, not Java's shared `List` reference.
- Entry.EntryController.EditCourse: returns the course instead of filling the form fields through `String.valueOf(credit)`, which is not modelled.
- Entry.EntryController.DeleteCourse: removes by row index. Java's `remove(Object)` removes that same object, because `Course` has no `equals`.
- `showAlert`, status-label text, FXML loading, table cells, `clearForm`, `handleCalculate`'s scene switch, and `MainApp`, `HomeController`, `MasterController`, `ResultController`: presentation only.
- `loadPreviousSession`: MasterController.java calls it, but the entry controller shown here does not define it.
- Console logging and stack traces.

## Findings

| source | as written | input that shows it | evidently intended | confidence | as-written member | corrected member |
|---|---|---|---|---|---|---|
| src/main/java/com/example/gpa/controllers/EntryController.java:83-105 | onTargetChanged returns early for a blank, non-positive or unparsable target without calling updateCalcButton | target "20" with one 3-credit course (Calculate enabled), then the target field is cleared: Calculate stays enabled while the form is disabled | Calculate follows updateCalcButton's rule after every target change | medium, not executed | Entry.CalcAfterTargetChangeAsWritten, Entry.StaleCalcButton | Entry.EntryController.OnTargetChanged |
