# Delphi backend: submission pipeline and record operations, in Dafny

This project models the core of the Delphi backend, a Spring service where
students upload zipped programs. The uploads are queued, run in a sandbox
by a runner script, graded against test cases and optionally reviewed by a
language model. The project also proves properties of that model.

It covers:

- **The submission pipeline.**
  - The upload handler validates the request and saves a `Pending`
    submission (`FileUploadController`).
  - The execution queue accepts the submission (`SubmissionQueue`,
    `ExecutionQueueService`).
  - A single consumer takes it, resolves its assignment, saves it and hands
    it to the execution service (`SubmissionProcessor`).
  - The execution service runs the runner script. It moves the status to
    `Running` and then to `Completed` or `Failed`. It cuts the lint and
    execution sections out of the captured output at the `LINTING` and
    `EXECUTION` markers (`FileExecution`).
- **The test harness `uploads/test_runner.py`** (`TestRunner`):
  - it splits the test file into records and parses each record;
  - it grades by comparing stripped output;
  - it builds result and failure records of fixed shape;
  - it checks the command-line arguments.
- **The language-model configuration registry** (`AIConfigurationService`).
  Its mutators keep at most one configuration active.
- **The analysis service** (`AIAnalysisService`): the code-file filter, the
  prompt builder, the guard and error branches, and the reading of the
  model's reply.
- **The REST handlers** that list, filter, sort and update records:
  - `AssignmentController`: latest submissions, subset analysis, partial
    update, delete;
  - `SubmissionController`: listings, reviewer assignment;
  - `TestCaseController`: create, update, delete;
  - `GroupController`: delete, update, membership, a user's groups;
  - `GroupService`: archive and restore, active and archived listings.

## How the model is built

Each source class becomes a module. `Text` holds string helpers: search, the
Python and Java `split`, Python `strip`, lower-casing and decimal text.
`Entities` holds the records, UUID text and JSON values. `TimestampOrder`
holds `String.compareTo` and the newest-first sort.

Entities that the source updates in place are classes with `modifies`
clauses:

- the blocking queue;
- the consumer;
- the execution service;
- the configuration store;
- the assignment, submission, test-case and group stores;
- the upload controller.

Repositories are fields of these classes, either as sequences in storage
order or as maps from id to record. Each repository `save` or `delete`
becomes an update of the field.

Loops in the source are `while` loops with invariants, each proved against
a specification function:

- the output-accumulation and grading loops;
- the reviewer listing;
- the `removeIf` pass;
- the prompt builders;
- the update `forEach`;
- the membership removal;
- the sort, kept on an `array`.

The following are inputs to the model rather than modelled:

- processes, HTTP, the file system, the clock, generated ids and Base64
  decoding;
- `Timestamp.valueOf` (`isTimestamp`);
- the HTTP exchange with the language model (`llm`), which is made only
  once the request body is built;
- the message of an unexpected runtime exception (`faultMessage`).

An exception that escapes every `catch` is an explicit outcome:

- `Unhandled` in the upload handler;
- `Escaped` in the execution task;
- `Crashed` in the consumer;
- status 500 in handlers where Spring turns it into an error response.

### Behaviour of the code that the model keeps

- **Output parsing.** The execution service slices the runner's output only
  at the `LINTING` and `EXECUTION` markers. No test-case or metrics section
  is parsed, and no parse error fails the submission. When the slice bounds
  are wrong, `substring` throws a `StringIndexOutOfBoundsException`. The
  `catch` at `FileExecutionService.java:39` does not handle it, so the
  submission stays `Running` (`FileExecution.RunScriptAsync`, `end ==
  Escaped`).
- **`runScriptAsync` arity.** `SubmissionProcessor.java:47` calls it with
  four arguments, including the test cases. `FileExecutionService.java:21`
  declares three, and the runner is given only the archive name. The model
  records the four-argument hand-over as a `Dispatch`. The execution method
  does not use the test cases.
- **Queue capacity.** The queue is a `LinkedBlockingQueue` built without a
  capacity, so it holds `Integer.MAX_VALUE` elements. `offer` fails only at
  that size. The model keeps that bound exactly.
- **`gradeWeight`.** `AssignmentController.java:155` calls
  `setGradeWeight`, which `Assignment.java` does not declare. The model
  keeps a `gradeWeight` field, as the handler uses it.
- **Missing repository queries.** `findLatestSubmissionsPerUserForAssignment`
  and `findByOwner` / `findByOwnerAndArchived*` are not declared in the
  repository interfaces. The first is an input of the model. The others are
  filters with the meaning their names give them under Spring Data.

## Model

| member | source | states |
|---|---|---|
| FileExecution.Command | src/main/java/com/davidwilson/delphi/services/FileExecutionService.java:47-48 | The runner is started with the script path and the archive name as its one argument |
| FileExecution.RunScript | src/main/java/com/davidwilson/delphi/services/FileExecutionService.java:46-64 | The accumulation loop yields the lines read, each followed by a newline; a non-zero exit, an I/O error or an interrupt gives the exception's message instead |
| FileExecution.JoinLinesIsJoin | src/main/java/com/davidwilson/delphi/services/FileExecutionService.java:52-56 | The captured text is the lines joined by newlines with a final newline |
| FileExecution.CapturedLinesReadBack | src/main/java/com/davidwilson/delphi/services/FileExecutionService.java:52-56 | Splitting the captured text at newlines gives back exactly the lines read, then one empty piece |
| FileExecution.JoinLinesAppend | src/main/java/com/davidwilson/delphi/services/FileExecutionService.java:52-56 | The capture of two runs of lines is the two captures concatenated |
| FileExecution.SliceMarkers | src/main/java/com/davidwilson/delphi/services/FileExecutionService.java:29-32 | The slicing succeeds iff `EXECUTION` occurs at least 7 characters after the first `LINTING` (or at index 6 or later when it is missing) and at least 10 characters before the end. The lint section is `raw[li+7..ei]` and the output is `raw[ei+10..]` |
| FileExecution.SliceMarkersFails | src/main/java/com/davidwilson/delphi/services/FileExecutionService.java:29-32 | The slicing throws exactly when `EXECUTION` is missing, starts less than seven characters after `LINTING`, or has nothing after it |
| FileExecution.MissingLintingStartsAtSix | src/main/java/com/davidwilson/delphi/services/FileExecutionService.java:29-31 | Without `LINTING` the lint section silently starts at index 6 |
| FileExecution.RunnerTextSlices | src/main/java/com/davidwilson/delphi/services/FileExecutionService.java:29-32 | For text shaped `p LINTING\n l EXECUTION\n e` with no earlier markers, the lint section is `"\n" + l` (the newline ending the `LINTING` line stays in it) and the output is exactly `e`, empty included |
| FileExecution.RunnerLayoutSlices | src/main/java/com/davidwilson/delphi/services/FileExecutionService.java:29-56 | When the runner prints the marker lines, the lint section is a newline followed by the capture of the lint lines, and the output is the capture of the execution lines (empty when the program prints nothing) |
| FileExecution.RunScriptAsync | src/main/java/com/davidwilson/delphi/services/FileExecutionService.java:20-44 | Saves `Running`, then either `Completed` with both sections or `Failed` with the exception's message as output. Each save is a legal status step. A slicing exception escapes with only the `Running` save |
| FileExecution.NonZeroExitFails | src/main/java/com/davidwilson/delphi/services/FileExecutionService.java:58-62 | A non-zero exit fails with "Script execution failed with exit code " followed by the code's digits; the captured text is dropped |
| SubmissionQueue.BlockingQueue.constructor | src/main/java/com/davidwilson/delphi/services/ExecutionQueueService.java:16 | The queue starts empty with nothing offered or taken |
| SubmissionQueue.BlockingQueue.Offer | src/main/java/com/davidwilson/delphi/services/ExecutionQueueService.java:35 | Appends at the tail iff below capacity, keeping the FIFO invariant that taken plus waiting equals offered |
| SubmissionQueue.BlockingQueue.Take | src/main/java/com/davidwilson/delphi/services/SubmissionProcessor.java:37 | Removes and returns the head, keeping the FIFO invariant |
| ExecutionQueueService.Service.constructor | src/main/java/com/davidwilson/delphi/services/ExecutionQueueService.java:16-22 | A fresh empty queue and an executor with no tasks |
| ExecutionQueueService.Service.AddSubmission | src/main/java/com/davidwilson/delphi/services/ExecutionQueueService.java:34-39 | Appends at the tail, or raises "Queue is full. Submission could not be added." and leaves the queue unchanged |
| ExecutionQueueService.Service.StartProcessing | src/main/java/com/davidwilson/delphi/services/ExecutionQueueService.java:41-45 | Submits one consumer over this very queue; the single-thread executor's running consumer reads this queue and is not replaced by later submissions |
| SubmissionProcessor.Resolve | src/main/java/com/davidwilson/delphi/services/SubmissionProcessor.java:38-42 | Succeeds iff the assignment id is stored; only the assignment changes, to the stored record; otherwise "Invalid assignment ID" |
| SubmissionProcessor.TestCasesFor | src/main/java/com/davidwilson/delphi/services/SubmissionProcessor.java:45 | Exactly the test cases of that assignment |
| SubmissionProcessor.Processor.constructor | src/main/java/com/davidwilson/delphi/services/SubmissionProcessor.java:25-31 | A running consumer of the given queue that has saved and dispatched nothing |
| SubmissionProcessor.Processor.Step | src/main/java/com/davidwilson/delphi/services/SubmissionProcessor.java:33-53 | One pass of the loop. An interrupt sets the flag and stops without taking. Otherwise it takes the head and either saves and dispatches it once, with its file name and its assignment's test cases, or stops on an unknown assignment with nothing saved. The invariant keeps dispatches in take order |
| SubmissionProcessor.DispatchedTestCasesBelong | src/main/java/com/davidwilson/delphi/services/SubmissionProcessor.java:38-47 | The test cases dispatched are those of the resolved submission's own assignment |
| TestRunner.ParseRecord | uploads/test_runner.py:15-23 | A record yields a case iff it is non-empty after strip and `|||` cuts it into exactly two parts; both fields are stored stripped |
| TestRunner.ParseRecords | uploads/test_runner.py:14-23 | At most one case per record, all fields stripped |
| TestRunner.ParseTestCases | uploads/test_runner.py:13-23 | The parsing loop collects the cases of the `\n---\n` records in order |
| TestRunner.RecordRoundTrip | uploads/test_runner.py:20-23 | A record written from a well-formed case parses back to that case |
| TestRunner.EveryRecordParsed | uploads/test_runner.py:15-23 | When every record yields a case, the parse keeps one case per record, in record order |
| TestRunner.RecordsRoundTrip | uploads/test_runner.py:15-23 | Parsing the records of well-formed cases gives the cases back, in order |
| TestRunner.SerializeRoundTrip | uploads/test_runner.py:13-23 | Writing well-formed cases into a file and parsing the file gives the same cases |
| TestRunner.Grade | uploads/test_runner.py:66-106 | Status "Passed" iff the run finished and stripped output equals stripped expected output. Timeout and error records have their fixed actual/memory/runtime/error values. A case whose processing throws yields no record |
| TestRunner.PassedMeansSameOutput | uploads/test_runner.py:66-68 | For a parsed case, passing means the stripped output equals the stored expected output |
| TestRunner.ResultOrigins | uploads/test_runner.py:25-112 | The positions of the cases that were not dropped, strictly increasing, each not dropped, and every case not dropped listed |
| TestRunner.ResultsComeFromCases | uploads/test_runner.py:25-112 | There is exactly one result per case not dropped, and the k-th result is the record of the k-th such case, so results keep the case order |
| TestRunner.RunTests | uploads/test_runner.py:25-110 | The grading loop produces exactly the results of the cases in order |
| TestRunner.CheckArgs | uploads/test_runner.py:115-120 | Proceeds iff there are exactly two arguments after the script name; otherwise the usage line and exit status 1 |
| AIConfigurationService.ActiveIndex | src/main/java/com/davidwilson/delphi/services/AIConfigurationService.java:64-68 | The first active configuration in list order, or none |
| AIConfigurationService.WithoutIdKeepsAtMostOne | src/main/java/com/davidwilson/delphi/services/AIConfigurationService.java:120 | Removing configurations never makes two active |
| AIConfigurationService.ActiveIndexIs | src/main/java/com/davidwilson/delphi/services/AIConfigurationService.java:64-68 | The first active position is unique |
| AIConfigurationService.ActivateOnly | src/main/java/com/davidwilson/delphi/services/AIConfigurationService.java:136-138 | Clearing every flag and setting one leaves that one as the only active configuration |
| AIConfigurationService.AppendKeepsAtMostOne | src/main/java/com/davidwilson/delphi/services/AIConfigurationService.java:79-83 | Appending an active configuration after clearing leaves it the only active one; appending an inactive one keeps the invariant |
| AIConfigurationService.Store.GetActiveConfiguration | src/main/java/com/davidwilson/delphi/services/AIConfigurationService.java:64-68 | Present iff some configuration is active, and then it is the first active one |
| AIConfigurationService.Store.DeactivateAll | src/main/java/com/davidwilson/delphi/services/AIConfigurationService.java:80 | Every configuration's flag cleared, nothing else changed |
| AIConfigurationService.Store.CreateConfiguration | src/main/java/com/davidwilson/delphi/services/AIConfigurationService.java:70-86 | An id is generated only when missing, and a supplied one is kept. The new configuration is appended. When it is active the others are cleared first and it becomes the only active one; otherwise the others are untouched. One save |
| AIConfigurationService.Store.UpdateConfiguration | src/main/java/com/davidwilson/delphi/services/AIConfigurationService.java:88-116 | An unknown id changes and saves nothing. Otherwise it copies exactly model, prompts, temperature and token limit onto the first match and sets its flag; activation leaves it the only active one |
| AIConfigurationService.Store.DeleteConfiguration | src/main/java/com/davidwilson/delphi/services/AIConfigurationService.java:118-125 | Removes every configuration with the id, keeps the order of the rest, reports and saves only when something was removed |
| AIConfigurationService.Store.SetActiveConfiguration | src/main/java/com/davidwilson/delphi/services/AIConfigurationService.java:127-144 | A known id leaves exactly the first match active and saves; an unknown id changes nothing |
| AIConfigurationService.Store.FindId | src/main/java/com/davidwilson/delphi/services/AIConfigurationService.java:91-93 | The position of the first configuration with the id |
| AIAnalysisService.IsCodeFile | src/main/java/com/davidwilson/delphi/services/AIAnalysisService.java:134-143 | A path is a code file when its lower-cased form ends in one of the eight extensions; such a path holds a `.` and has at least three characters |
| AIAnalysisService.IsCodeFileIgnoresCase | src/main/java/com/davidwilson/delphi/services/AIAnalysisService.java:134-143 | Whether a path is a code file does not depend on letter case |
| AIAnalysisService.LowerIdempotent | src/main/java/com/davidwilson/delphi/services/AIAnalysisService.java:135 | Lower-casing twice is lower-casing once |
| AIAnalysisService.StemWithExtension | src/main/java/com/davidwilson/delphi/services/AIAnalysisService.java:134-143 | Any path ending in one of the eight extensions, in any case, is a code file |
| AIAnalysisService.CodeFiles | src/main/java/com/davidwilson/delphi/services/AIAnalysisService.java:116-128 | A file is collected iff it comes from a readable regular code file of the walk, with its relative path and text |
| AIAnalysisService.CodeFilesAppend | src/main/java/com/davidwilson/delphi/services/AIAnalysisService.java:116-128 | Files are collected in walk order: two runs of entries give the files of each in turn |
| AIAnalysisService.ReadProjectFiles | src/main/java/com/davidwilson/delphi/services/AIAnalysisService.java:102-132 | The walk loop collects exactly the code files, in walk order |
| AIAnalysisService.FileBlocksAppend | src/main/java/com/davidwilson/delphi/services/AIAnalysisService.java:154-157 | The file blocks of two runs of files are the blocks of each in turn |
| AIAnalysisService.BuildAnalysisPrompt | src/main/java/com/davidwilson/delphi/services/AIAnalysisService.java:146-160 | The analysis prompt, a blank line, then one "File:" block per file in order |
| AIAnalysisService.CallLLM | src/main/java/com/davidwilson/delphi/services/AIAnalysisService.java:162-199 | Without a system prompt the call fails with a null message and sends nothing; otherwise an exception of the exchange is its failure, and a response is read by `ExtractReply`; a reply needs a system prompt and a response body |
| AIAnalysisService.ExtractReply | src/main/java/com/davidwilson/delphi/services/AIAnalysisService.java:191-199 | No body, no `choices` or empty `choices` gives "Invalid API response". A reply is read only from a first choice holding a message object; its string `content` is the reply, a missing or `null` content gives `null`, and any other content throws |
| AIAnalysisService.ReplyText | src/main/java/com/davidwilson/delphi/services/AIAnalysisService.java:191-196 | A first choice whose message holds string content gives that text, whatever the other choices and keys hold |
| AIAnalysisService.EnabledIffSomeActive | src/main/java/com/davidwilson/delphi/services/AIAnalysisService.java:37-41 | Analysis is enabled iff some configuration is active |
| AIAnalysisService.AnalyzeCode | src/main/java/com/davidwilson/delphi/services/AIAnalysisService.java:35-83 | Disabled gives null with no model call. Otherwise it checks in order: a missing path, a non-directory, no code files, each with its fixed text and no call. Otherwise, when the active configuration has a system prompt, exactly one call with the built prompt; without one, building the request throws and nothing is sent. Every exception becomes "Error analyzing code: " and the message, "null" for the missing system prompt |
| AIAnalysisService.AnalyzeSubmissionText | src/main/java/com/davidwilson/delphi/services/AIAnalysisService.java:85-100 | Disabled gives null. A missing system prompt gives "Error analyzing submissions: null" without a request. Otherwise the reply, or "Error analyzing submissions: " followed by the exception's message |
| FileUploadController.FirstSubFragment | src/main/java/com/davidwilson/delphi/controllers/FileUploadController.java:112-113 | The first fragment that contains "sub", or none |
| FileUploadController.UserIdOfPayload | src/main/java/com/davidwilson/delphi/controllers/FileUploadController.java:111-117 | The result never contains a double quote. It is empty when no fragment contains "sub", and fails only when that fragment has no second field |
| FileUploadController.ExtractUserId | src/main/java/com/davidwilson/delphi/controllers/FileUploadController.java:108-118 | Fails when the token has no payload segment or the payload is not Base64; otherwise the payload's user id. The loop is proved equal to the token reading `ExtractUserIdSpec` that `UploadFile` is specified with |
| FileUploadController.AbsentCharNotFound | src/main/java/com/davidwilson/delphi/controllers/FileUploadController.java:111 | A separator that does not occur is not found |
| FileUploadController.SplitAtOneColon | src/main/java/com/davidwilson/delphi/controllers/FileUploadController.java:114 | A fragment with one colon splits into its two sides |
| FileUploadController.SubjectLastKeepsBrace | src/main/java/com/davidwilson/delphi/controllers/FileUploadController.java:111-115 | For every subject free of `:`, `,` and `"`, the payload `{"sub":"<subject>"}` yields the subject with the JSON object's closing brace attached |
| FileUploadController.Validate | src/main/java/com/davidwilson/delphi/controllers/FileUploadController.java:55-93 | The checks in handler order: a missing name throws; a wrong type is 400 "Bad file type"; an undecodable token is 400 "Invalid assignment ID."; an empty user id is 400 "User not found"; a malformed or unknown assignment id is 400 "Invalid assignment ID."; a request passing every check is accepted with its user id and assignment |
| FileUploadController.UploadController.constructor | src/main/java/com/davidwilson/delphi/controllers/FileUploadController.java:40-46 | Nothing saved or stored yet |
| FileUploadController.UploadController.UploadFile | src/main/java/com/davidwilson/delphi/controllers/FileUploadController.java:50-99 | A rejected request stores, saves and enqueues nothing. A failed file store is 500. Otherwise the `Pending` submission with the user, file name and assignment is saved and then enqueued once |
| TimestampOrder.CompareToAntisymmetric | src/main/java/com/davidwilson/delphi/controllers/SubmissionController.java:55 | Swapping the arguments of `compareTo` negates it |
| TimestampOrder.CompareToZero | src/main/java/com/davidwilson/delphi/controllers/SubmissionController.java:55 | `compareTo` is 0 iff the strings are equal |
| TimestampOrder.CompareToTransitive | src/main/java/com/davidwilson/delphi/controllers/SubmissionController.java:55 | `compareTo` is transitive |
| TimestampOrder.BeforeTotal | src/main/java/com/davidwilson/delphi/controllers/AssignmentController.java:66 | Any two submissions are ordered by the newest-first comparator |
| TimestampOrder.SortNewestFirst | src/main/java/com/davidwilson/delphi/controllers/AssignmentController.java:66 | The array becomes a permutation of itself, in non-increasing lexicographic timestamp order |
| TimestampOrder.InsertOne | src/main/java/com/davidwilson/delphi/controllers/SubmissionController.java:55 | One insertion step extends the sorted prefix by one element, keeping a permutation |
| TimestampOrder.SwapStep | src/main/java/com/davidwilson/delphi/controllers/SubmissionController.java:55 | Swapping a strictly newer element forward keeps the prefix ordered around it |
| TimestampOrder.InsertDone | src/main/java/com/davidwilson/delphi/controllers/SubmissionController.java:55 | An element no newer than its left neighbour completes the sorted prefix |
| AssignmentController.LatestSubmissionsPerUser | src/main/java/com/davidwilson/delphi/controllers/AssignmentController.java:58-68 | 204 iff the list is empty; otherwise 200 with the same submissions sorted newest first |
| AssignmentController.SubsetSize | src/main/java/com/davidwilson/delphi/controllers/AssignmentController.java:83 | The subset size is max(2, n/10), and it fits the list whenever there are at least two submissions |
| AssignmentController.SubmissionBlocksAppend | src/main/java/com/davidwilson/delphi/controllers/AssignmentController.java:105-108 | The blocks of two runs of submissions are the blocks of each in turn |
| AssignmentController.SubmissionBlockAt | src/main/java/com/davidwilson/delphi/controllers/AssignmentController.java:105-108 | Each submission's block sits between the blocks before and after it, so the prompt lists each once, in order |
| AssignmentController.BuildSubsetPrompt | src/main/java/com/davidwilson/delphi/controllers/AssignmentController.java:89-108 | The fixed header, then one "Submission from user" block per subset element, in order |
| AssignmentController.AnalyzeSubmissionsSubset | src/main/java/com/davidwilson/delphi/controllers/AssignmentController.java:70-114 | Fewer than two submissions gives 204 with no analysis. Otherwise the first max(2, n/10) submissions are analysed and answered with 200 |
| AssignmentController.GroupIdOf | src/main/java/com/davidwilson/delphi/controllers/AssignmentController.java:139 | A group reference succeeds only for an object whose `id` is UUID text |
| AssignmentController.ApplyEntry | src/main/java/com/davidwilson/delphi/controllers/AssignmentController.java:130-157 | An unrecognised key changes nothing; each recognised key sets only its own field to the cast value, and fails exactly when Java's cast or conversion throws |
| AssignmentController.UpdateTouchesOnlyPresentKeys | src/main/java/com/davidwilson/delphi/controllers/AssignmentController.java:129-158 | An update changes no field whose key the body lacks |
| AssignmentController.UpdateCarriesEveryEntry | src/main/java/com/davidwilson/delphi/controllers/AssignmentController.java:129-158 | After an update, every entry of the body is reflected in the result |
| AssignmentController.NoneStays | src/main/java/com/davidwilson/delphi/controllers/AssignmentController.java:129-158 | Once one entry throws, the whole update has thrown |
| AssignmentController.AssignmentStore.UpdateAssignment | src/main/java/com/davidwilson/delphi/controllers/AssignmentController.java:123-164 | An unknown id is 404 with no save. A throwing entry is 500 with no save. Otherwise the updated record is saved and returned with 200 |
| AssignmentController.AssignmentStore.DeleteAssignment | src/main/java/com/davidwilson/delphi/controllers/AssignmentController.java:166-173 | 204 and removed if present; 404 and unchanged otherwise |
| SubmissionController.HasReview | src/main/java/com/davidwilson/delphi/repositories/SubmissionReviewsRepository.java:10 | `existsBySubmissionId`, the test `getSubmissionsForUser` filters with and `assignSubmissionReviewer` refuses on, holds iff some stored review names the submission id |
| SubmissionController.ByUser | src/main/java/com/davidwilson/delphi/controllers/SubmissionController.java:45 | Exactly the user's submissions |
| SubmissionController.Reviewed | src/main/java/com/davidwilson/delphi/controllers/SubmissionController.java:50-52 | Exactly the submissions some review names |
| SubmissionController.ByReviewer | src/main/java/com/davidwilson/delphi/controllers/SubmissionController.java:97 | Exactly the reviewer's reviews |
| SubmissionController.FindById | src/main/java/com/davidwilson/delphi/controllers/SubmissionController.java:100 | A stored submission with the id, or none iff none is stored |
| SubmissionController.Lookup | src/main/java/com/davidwilson/delphi/controllers/SubmissionController.java:100-101 | Fails iff the review's submission id is not UUID text; otherwise the stored submission, if any |
| SubmissionController.ReviewedSubmissions | src/main/java/com/davidwilson/delphi/controllers/SubmissionController.java:97-104 | Succeeds iff every review's id parses; the listing is no longer than the reviews, and every element is stored |
| SubmissionController.AllFoundListsEveryReview | src/main/java/com/davidwilson/delphi/controllers/SubmissionController.java:99-102 | When every reviewed submission is stored, the listing has one entry per review |
| SubmissionController.SubmissionStore.constructor | src/main/java/com/davidwilson/delphi/controllers/SubmissionController.java:33-37 | The stored submission and review rows |
| SubmissionController.SubmissionStore.RemoveUnreviewed | src/main/java/com/davidwilson/delphi/controllers/SubmissionController.java:50-52 | The `removeIf` pass keeps exactly the reviewed submissions, in order |
| SubmissionController.SubmissionStore.GetSubmissionsForUser | src/main/java/com/davidwilson/delphi/controllers/SubmissionController.java:41-57 | 204 iff the user has no submission. Otherwise 200, even when filtering empties the list, with the user's submissions (only reviewed ones when asked) sorted newest first |
| SubmissionController.SubmissionStore.ListReviewed | src/main/java/com/davidwilson/delphi/controllers/SubmissionController.java:97-102 | The lookup loop over the reviewer's reviews yields exactly the reviewer listing, failing on the first id that is not UUID text |
| SubmissionController.SubmissionStore.GetSubmissionsForReviewer | src/main/java/com/davidwilson/delphi/controllers/SubmissionController.java:95-105 | 200 with the reviewed submissions in review order, skipping missing ones; 500 on a malformed id |
| SubmissionController.SubmissionStore.AssignSubmissionReviewer | src/main/java/com/davidwilson/delphi/controllers/SubmissionController.java:107-120 | An existing review gives 400 "Reviewer already assigned" and no save. Otherwise a `Pending` review of the submission by the reviewer is saved. At most one review per submission is preserved |
| TestCaseController.SetTextFields | src/main/java/com/davidwilson/delphi/controllers/TestCaseController.java:77-79 | Each present text key sets its field and each absent key leaves it. Fails iff a present value is not text |
| TestCaseController.NoTextKeysNoChange | src/main/java/com/davidwilson/delphi/controllers/TestCaseController.java:77-79 | A body without the text keys leaves the test case unchanged |
| TestCaseController.TestCaseStore.constructor | src/main/java/com/davidwilson/delphi/controllers/TestCaseController.java:20-24 | The stored test cases, each of a stored assignment |
| TestCaseController.TestCaseStore.CreateTestCase | src/main/java/com/davidwilson/delphi/controllers/TestCaseController.java:38-65 | A missing assignment id is 400 and an unknown one 404. A malformed id or non-text value is 500. Otherwise it is saved with 201. Nothing is saved on any failure |
| TestCaseController.TestCaseStore.UpdateTestCase | src/main/java/com/davidwilson/delphi/controllers/TestCaseController.java:67-96 | An unknown test case is 404. Absent keys leave fields unchanged. An unknown assignment is 404, and a cast or parse failure is 500. Nothing is saved on failure |
| TestCaseController.TestCaseStore.DeleteTestCase | src/main/java/com/davidwilson/delphi/controllers/TestCaseController.java:98-105 | 204 and removed if present; 404 and unchanged otherwise |
| GroupService.OwnedWithFlag | src/main/java/com/davidwilson/delphi/services/GroupService.java:18-24 | Exactly the owner's groups with that archived flag |
| GroupService.Owned | src/main/java/com/davidwilson/delphi/controllers/GroupController.java:102 | Exactly the owner's groups |
| GroupService.ListingsPartitionOwned | src/main/java/com/davidwilson/delphi/services/GroupService.java:18-24 | The active and archived listings split the owner's groups, with multiplicity |
| GroupService.WithArchived | src/main/java/com/davidwilson/delphi/services/GroupService.java:26-46 | Only the first group with the id gets the flag; every other row is unchanged |
| GroupService.WithArchivedKeepsIndex | src/main/java/com/davidwilson/delphi/services/GroupService.java:26-46 | Setting the flag keeps the group findable at the same place |
| GroupService.WithArchivedIdempotent | src/main/java/com/davidwilson/delphi/services/GroupService.java:26-46 | Archiving (or restoring) twice is doing it once |
| GroupService.ArchiveThenRestore | src/main/java/com/davidwilson/delphi/services/GroupService.java:26-46 | Archive then restore leaves the group not archived and the rest as before |
| GroupService.GroupArchive.constructor | src/main/java/com/davidwilson/delphi/services/GroupService.java:16 | The stored groups |
| GroupService.GroupArchive.GetActiveGroups | src/main/java/com/davidwilson/delphi/services/GroupService.java:18-20 | The owner's groups not archived |
| GroupService.GroupArchive.GetArchivedGroups | src/main/java/com/davidwilson/delphi/services/GroupService.java:22-24 | The owner's archived groups |
| GroupService.GroupArchive.ArchiveGroup | src/main/java/com/davidwilson/delphi/services/GroupService.java:26-35 | True and archived iff the group exists; otherwise false and nothing saved; the owner is not checked |
| GroupService.GroupArchive.RestoreGroup | src/main/java/com/davidwilson/delphi/services/GroupService.java:37-46 | True and restored iff the group exists; otherwise false and nothing saved; the owner is not checked |
| GroupController.MembershipsOf | src/main/java/com/davidwilson/delphi/controllers/GroupController.java:85 | Exactly the user's memberships |
| GroupController.FirstMembership | src/main/java/com/davidwilson/delphi/controllers/GroupController.java:86-87 | The first membership of the user in the group, or none |
| GroupController.RemoveAtCount | src/main/java/com/davidwilson/delphi/controllers/GroupController.java:88 | Deleting a membership removes exactly one membership of its user and group, and no other |
| GroupController.GroupsOf | src/main/java/com/davidwilson/delphi/controllers/GroupController.java:98-100 | One stored group per membership, in membership order |
| GroupController.SameIdsSameIndex | src/main/java/com/davidwilson/delphi/controllers/GroupController.java:59-60 | Replacing a row under the same id keeps every lookup in place |
| GroupController.GroupStore.constructor | src/main/java/com/davidwilson/delphi/controllers/GroupController.java:20-26 | The stored groups and memberships |
| GroupController.GroupStore.DeleteGroup | src/main/java/com/davidwilson/delphi/controllers/GroupController.java:38-46 | 200 and removed if present; 404 and unchanged otherwise |
| GroupController.GroupStore.UpdateGroup | src/main/java/com/davidwilson/delphi/controllers/GroupController.java:55-63 | An unknown id is 404. Otherwise the body is saved in that group's place under the path id, whatever id the body held |
| GroupController.GroupStore.AddUserToGroup | src/main/java/com/davidwilson/delphi/controllers/GroupController.java:65-76 | An unknown group is 404 with nothing saved. Otherwise the membership of the user in that group is saved, with the role defaulting to "member" when absent or empty |
| GroupController.GroupStore.RemoveUserFromGroup | src/main/java/com/davidwilson/delphi/controllers/GroupController.java:83-93 | Deletes only the first of the user's memberships in the group and answers 200; 404 and nothing deleted if there is none |
| GroupController.GroupStore.GetGroupsForUser | src/main/java/com/davidwilson/delphi/controllers/GroupController.java:95-106 | Member groups in membership order, then owned groups, keeping duplicates. A user id that is not UUID text is 500 |

## Left out

- Process spawning, stream reading, `@Async` executor pools, blocking
  `take()` and thread interruption are replaced by inputs. These are the
  runner's result, and a `Signal` per consumer step. One `Step` call is
  one pass of the `while (true)` loop, and an empty queue is `Blocked`.
- The runner script `Scripts/docker_runner_python.py` is not part of this
  model. Only the marker layout it prints is used, in
  `FileExecution.RunnerLayoutSlices`.
- In `uploads/test_runner.py`, the subprocess, the `time.time()` timings,
  the `ps` memory sample and the JSON printing are left out. Memory,
  runtime, stdout and stderr of a run are inputs.
- The HTTP call to the language model, the JSON file that persists
  configurations, `Files.walk` and `readString`, the upload file copy, and
  the download endpoint are left out. Replies, walks and the outcome of
  storing the file are inputs. The configuration list is in memory, and
  `saves` counts its writes.
- Base64 decoding, random UUIDs, `System.currentTimeMillis()` and
  `Timestamp.valueOf` are inputs (`decode`, `newId`/`freshId`, `now`,
  `isTimestamp`).
- AIConfigurationService.Store: `temperature` (a `Double`) is a `real`, and
  floating-point rounding is not modelled. The same holds for `timeLimit`
  (a `float`) in `AssignmentController.ApplyEntry`.
- AssignmentController.ApplyEntry: a `dueDate` is kept as the accepted
  text, not as a parsed `Timestamp`, because parsing is the `isTimestamp`
  input.
- Entities.ParseUuid: the canonical 8-4-4-4-12 layout is accepted, with
  hexadecimal digits in either case. Java's `UUID.fromString` also accepts
  shorter groups and a leading sign in a group.
- TimestampOrder.CompareTo: it orders strings by Unicode code point. Java
  compares UTF-16 units, which differs only between supplementary
  characters and U+E000–U+FFFF.
- TimestampOrder.SortNewestFirst: the result is stated as sorted and a
  permutation. The stability of Java's `List.sort` is not stated.
- SubmissionProcessor.Processor.Step: it requires the assignment map to
  store each assignment under its own id (`KeyedById`), as a JPA
  repository does.
- AssignmentController.AssignmentStore.DeleteAssignment and
  GroupController.GroupStore.DeleteGroup: cascades and foreign-key
  failures on dependent test cases, submissions and memberships are not
  modelled. `DeleteGroup` may therefore leave memberships pointing at a
  removed group.
- AIConfigurationService.Store: a configuration whose id is `null` makes
  the id comparison in `updateConfiguration` and `deleteConfiguration`
  throw `NullPointerException`. The store's `Valid()` requires every id to
  be present, so that exception is not modelled.
- AssignmentController.ApplyEntry: a `group` naming a group that does not
  exist makes the save fail on the foreign key. The model stores the id
  without checking it against the groups.
- GroupService: the `owner` argument of archive and restore is not
  consulted, as in the source. No ownership check is modelled.
- FileUploadController.UserIdOfPayload: the payload is scanned as text,
  exactly as the handler does. `SubjectLastKeepsBrace` shows that a
  trailing `}` stays in the id when `sub` is the last claim.
- The thin pass-through services and controllers are not part of this
  model: `AssignmentService`, `CommentService`, `CommentController`,
  `UserController`, `UserService`, `SecurityController`, `SecurityConfig`,
  and the configuration controller. The same holds for the getters that
  only forward a repository call.
