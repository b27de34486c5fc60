# sync-github-forks, modelled in Dafny

sync-github-forks keeps a GitHub user's forks in step with their parents. It
works in five stages:

1. It checks the command-line options.
2. It lists the user's repositories page by page and keeps the forks.
3. It fetches each fork's details: the parent and the default branch.
4. It synchronizes each fork with a fixed sequence of git commands:
   - clone, or reuse an existing clone;
   - rebind the `upstream` remote to the parent;
   - check out and pull the default branch, then push it to `origin`;
   - try the same for `master` (best effort);
   - fetch the upstream tags and push them.
5. All along, it keeps a log in memory. At the end it writes the log to a
   file, and the error entries to a second file when there are any.

This project models those parts and proves what they promise.

- **The git steps** (`Git`, for gitService.ts) are functions of an *executor*.
  An executor answers each git command with success or with the failure's
  text. A result is a `Run`: the commands issued, in order, and how the
  step's promise settles (`Resolved`, `Rejected` with a reason, or `Stuck`
  for a promise that never settles).
- **The tolerated failure texts** (`Patterns`) are what the source matches
  with JavaScript regular expressions. Literal patterns and
  `prefix(.*)suffix` patterns are matched by executable functions. These are
  proved equal to the regular-expression meaning: an unanchored match, where
  `.` matches any character except a line terminator.
- **The synchronization of one repository** (`Synchronizer`, for
  application.ts) is the nested `.then` chain, written as it appears in the
  source. It is checked against an independent reference, `SyncPlan`: a flat
  list of planned commands, each marked with the failure text it tolerates
  and whether it belongs to the best-effort block, plus a small interpreter.
  `SyncRepositoryFollowsPlan` proves that, for a fork with a parent, the
  chain behaves exactly like the interpreter on that list; a fork without a
  parent stops after the clone (`SyncRepositoryWithoutParent`). The
  consequences then follow from general facts about the interpreter:
  - when the run succeeds;
  - that it stops at the first failure that counts;
  - that no command is issued twice;
  - that the master step never decides the outcome.
- **The orchestration** (`Application`) has three parts:
  - the options gate of `main`;
  - the discovery loop, a method with a `while` loop over pages and a `for`
    loop over each page's entries;
  - the per-fork detail requests, a method with a `for` loop.

  The directory service is an oracle.
- **The log** (`Logging`) is a class whose `logs` and `errors` fields the
  methods extend. Its invariant: every error entry is also a log entry, in
  the same order. The file-name and entry formatting are pure functions,
  with lemmas about their shape.
- **The options** (`Settings`) are a datatype with the `isValid` predicate.

Where the code and its evident intent differ:

- A clone failure with an unexpected text leaves the promise unsettled, where
  the code evidently means to reject (see Findings). `CloneRepositoryAsWritten`
  models the handler as written and `CloneRepository` the corrected one. The
  synchronization lemmas are stated about `SyncRepository`, which uses the
  corrected handler. `SyncRepositoryAsWrittenAgrees` carries them over to the
  code as written whenever the clone passes, and `SyncRepositoryAsWrittenHangs`
  states what the code as written does otherwise.

Elsewhere the model follows the code:

- Every detail request is issued at once, whatever the concurrency option.
- The detail stage fails as a whole when any one request fails.

## Model

| member | source | states |
|---|---|---|
| Settings.IsValid | src/options.ts:18-25 | the options are valid exactly when user name, token and directory are all present and non-empty (the JavaScript `!!x` is `Truthy`: present and not the empty string) |
| Settings.IsValidIgnoresPackageFields | src/options.ts:13-25 | validity does not depend on the application name, version or homepage read from package.json |
| Application.CheckOptions | src/application.ts:17-23 | `main` starts the run exactly when the options are valid, and otherwise throws "Invalid options" |
| Application.MissingOptionStopsLaunch | src/application.ts:18-20 | a missing or empty user name, token or directory always makes `main` throw |
| Application.FilterForks | src/application.ts:47-51 | the accumulated entries are all forks and are no more than the page held |
| Application.FilterForksCount | src/application.ts:47-51 | each entry is kept exactly when it is a fork, as many times as it occurs |
| Application.FilterForksInOrder | src/application.ts:47-51 | the kept forks are a subsequence of the page, in page order |
| Application.FilterForksAppend | src/application.ts:47-52 | filtering page after page into one accumulator is the same as filtering the concatenated pages |
| Application.FilterForksMember | src/application.ts:47-51 | an entry is among the kept ones exactly when it is a fork listed on the page |
| Application.PushForks | src/application.ts:47-51 | the loop leaves the accumulator as it was, followed by exactly the page's forks in page order |
| Application.GetForkedRepositories | src/application.ts:38-54 | pages 1, 2, … are requested in order until the first empty or failed page, each exactly once; an empty page resolves with the forks of all earlier pages in order; a failed page rejects with its error |
| Application.ForksUpToMembers | src/application.ts:38-54 | an entry is among the discovered forks exactly when it is a fork listed on one of the pages read |
| Application.GetRepositoryDetails | src/application.ts:56-75 | one `getRepo(username, name)` per fork, in input order, all issued; success exactly when every request succeeds, with the answers in input order; otherwise the error of some failed request |
| Patterns.ContainsCorrect | src/gitService.ts:33 | the executable literal search finds the text exactly when it occurs somewhere |
| Patterns.ContainsWildcardCorrect | src/gitService.ts:65 | the executable search for `prefix(.*)suffix` succeeds exactly when the prefix occurs, followed later on the same line by the suffix |
| Patterns.MatchesCorrect | src/application.ts:131 | the matcher agrees with the regular-expression meaning of both pattern forms |
| Patterns.ShortTextDoesNotMatch | src/application.ts:131 | a text shorter than the pattern's literal parts never matches |
| Patterns.LiteralMatchesWhenPresent | src/gitService.ts:33 | any text containing "No such remote: upstream" (or any other literal) matches it |
| Patterns.WildcardMatchesWhenPresent | src/gitService.ts:65 | any text containing prefix, one line of anything, then suffix matches `prefix(.*)suffix` |
| Git.Settle | src/gitService.ts:13-19 | a bare `execa` promise resolves exactly when its command succeeds, and otherwise rejects with the failure text |
| Git.AndThen | src/application.ts:99-113 | after a resolved step, `.then` issues the next step's commands after the first's and settles as the next step does; after a rejected or pending step it changes nothing |
| Git.AndThenAssociative | src/application.ts:99-113 | `a.then(b).then(c)` issues the same commands and settles the same way as `a.then(b.then(c))`, so the source's flat chain equals the model's nested one |
| Git.Clone | src/gitService.ts:13-19 | one `git clone <url> <target>` without a working directory; it resolves exactly when that command succeeds |
| Git.SetUpstream | src/gitService.ts:21-52 | `remote remove upstream` first; `remote add upstream <url>` follows exactly when the removal succeeded or failed with "No such remote: upstream"; it resolves exactly when both pass; it never hangs |
| Git.SetUpstreamToleratesMissingRemote | src/gitService.ts:32-44 | a removal failing with "No such remote: upstream" still leads to the add, whose result is the step's |
| Git.PullUpstream | src/gitService.ts:54-84 | `checkout <branch>` first; `pull upstream <branch>` follows exactly when the checkout succeeded or failed with "A branch named '…' already exists"; it resolves exactly when both pass |
| Git.PullUpstreamToleratesExistingBranch | src/gitService.ts:64-76 | a checkout failing because the branch exists still leads to the pull, whose result is the step's |
| Git.PushOrigin | src/gitService.ts:86-97 | one `push -u origin <branch>`, whose result is the step's |
| Git.SyncTags | src/gitService.ts:99-125 | `fetch upstream --prune --tags`; `push --tags` follows exactly when the fetch succeeded; it resolves exactly when both succeed |
| SyncPlan.InterpretTraceInOrder | src/application.ts:96-121 | a run issues a subsequence of the planned commands, in plan order |
| SyncPlan.InterpretResolvedIff | src/application.ts:96-121 | a planned run never hangs, and it resolves exactly when every step outside the best-effort block passes |
| SyncPlan.InterpretAllPass | src/application.ts:96-121 | when every step passes, every planned command is issued in order and the run resolves |
| SyncPlan.InterpretRejectedAt | src/application.ts:96-121 | a rejected run stopped at a failing step outside the best-effort block; it carries that step's failure text, and that command was the last one issued |
| SyncPlan.InterpretAppend | src/application.ts:96-121 | running plan `a` and then plan `b` (`.then`) equals running their concatenation, provided `b` is empty, or `b` does not open with a best-effort step, or `a` has no best-effort step (a best-effort block is never split across the two) |
| SyncPlan.InterpretStopsAtFirstFailure | src/application.ts:96-121 | when no command is planned twice, a rejected run stopped at a failing step outside the best-effort block and issued no command of any later step |
| SyncPlan.BlockOutcome | src/application.ts:157-160 | a plan that starts with a best-effort block settles exactly as what follows the block does, whatever the block's commands answer |
| SyncPlan.OutcomeOnRequired | src/application.ts:157-160 | two executors that agree on every step outside the best-effort blocks lead to the same outcome |
| Synchronizer.CloneRepository | src/application.ts:123-140 | one clone command; it resolves exactly when the clone succeeds or reports that the target folder already exists; it rejects with the failure text otherwise |
| Synchronizer.CloneRepositoryAsWritten | src/application.ts:130-137 | as written: the same success cases, but any other failure leaves the promise unsettled |
| Synchronizer.TrySyncMasterBranch | src/application.ts:142-162 | always resolves; nothing is issued for a default branch named `master`; otherwise a prefix of checkout, pull, push `master` is issued, as far as the first failure |
| Synchronizer.SyncRepository | src/application.ts:96-121 | (corrected clone handler) the first command is the clone of the fork into `join(directoryPath, name)`; the synchronization always settles, which the code as written does only when the clone passes or is tolerated |
| Synchronizer.SyncRepositoryAsWritten | src/application.ts:96-121 | with the clone handler as written, the first command is still the clone |
| Synchronizer.PlanCommands | src/application.ts:96-121 | the planned commands: clone, remove/add upstream, checkout/pull/push the default branch, the three `master` commands unless the default branch is `master`, fetch tags, push tags |
| Synchronizer.SyncRepositoryFollowsPlan | src/application.ts:96-121 | the promise chain of `syncRepository` issues the same commands and settles the same way as the interpreter on the plan |
| Synchronizer.SyncPlanDistinct | src/application.ts:96-121 | no command is planned twice for one synchronization |
| Synchronizer.SyncRepositoryIssuesEachOnce | src/application.ts:96-137 | no command is issued twice by one synchronization, with the corrected clone handler and with the one as written |
| Synchronizer.AfterClone | src/application.ts:99-113 | the steps after the clone always settle; without a parent they issue nothing and reject; with one they start by removing the `upstream` remote in the repository's folder |
| Synchronizer.SyncRepositorySucceedsIff | src/application.ts:96-121 | the synchronization resolves exactly when the fork has a parent and each of clone, remote remove, remote add (parent's url), checkout, pull, push, fetch tags and push tags succeeds or fails only in its tolerated way |
| Synchronizer.SyncRepositoryIgnoresMasterStep | src/application.ts:142-162 | two executors that agree outside the `master` commands lead to the same outcome |
| Synchronizer.RequiredOutsideMaster | src/application.ts:96-121 | every step of the plan that is not best-effort issues a command outside the master-branch block |
| Synchronizer.SyncRepositoryCommandsInOrder | src/gitService.ts:13-102 | the commands issued follow plan order; the clone runs without a working directory and every other command in `join(directoryPath, name)` |
| Synchronizer.PlanInFolder | src/gitService.ts:13-102 | the plan starts with the clone, and all its other commands run in the repository's folder |
| Synchronizer.SyncRepositoryWithoutParent | src/application.ts:98-100 | with no parent, only the clone is issued; after a successful clone the run rejects |
| Synchronizer.SyncRepositoryStopsAtFirstFailure | src/application.ts:96-121 | a rejection comes from a failing required step; it carries that failure's text, and no command of a later step is issued |
| Synchronizer.SyncRepositoryAllPass | src/application.ts:96-121 | when every command passes, exactly the planned commands are issued in order and the run resolves |
| Synchronizer.CloneRepositoryToleratesExistingFolder | src/application.ts:130-134 | a clone failing with "destination path … already exists and is not an empty directory" counts as done under both handlers |
| Synchronizer.SyncRepositoryAsWrittenHangs | src/application.ts:130-137 | as written, an unexpected clone failure leaves the synchronization pending after the clone; the corrected handler rejects with that failure's text |
| Synchronizer.SyncRepositoryAsWrittenAgrees | src/application.ts:123-140 | when the clone passes, the handler as written and the corrected one give the same run |
| Synchronizer.CloneNotFoundNeverSettles | src/application.ts:131-137 | a clone failing with "fatal: repository not found" never settles as written, and rejects with that text when corrected |
| Logging.GetTime | src/logger.ts:64-66 | the time text is the first 10 characters of the ISO rendering, a space, then the first 8 of the local time rendering, at most 19 characters in all (`Prefix` is JavaScript's `substring(0, n)`, which returns a shorter text whole) |
| Logging.ReplaceAll | src/logger.ts:72-73 | replacing a character changes exactly its occurrences and keeps the length |
| Logging.TrimStart | src/logger.ts:74 | only leading white space is dropped, and the result does not start with white space |
| Logging.TrimEnd | src/logger.ts:74 | only trailing white space is dropped, and the result does not end with white space |
| Logging.TrimUnique | src/logger.ts:74 | whenever a text is white space, then a part that neither starts nor ends with white space, then white space again, trimming returns exactly that part; so `Trim` and `TrimCorrect` together pin the result down |
| Logging.Logger.constructor | src/logger.ts:10-16 | a new logger has empty buffers and keeps its start time |
| Logging.Logger.Log | src/logger.ts:18-26 | appends exactly one formatted entry to `logs` and leaves `errors` unchanged |
| Logging.Logger.Error | src/logger.ts:28-37 | appends the same formatted entry to both `logs` and `errors` |
| Logging.Logger.Flush | src/logger.ts:39-62 | logs "Flushing log" first; appends the whole log, joined by newlines, to the `log-<stamp>.txt` file; appends the errors to `errors-<stamp>.txt` only when there are any |
| Logging.FormatEntry | src/logger.ts:19-32 | a log or error entry is `[`, the time, `] `, the message, then ` [<fullname>]` exactly when the full name is present and non-empty |
| Logging.FormatEntryEmptyName | src/logger.ts:20-22 | an empty full name is treated like a missing one |
| Logging.ReplaceAllRemoves | src/logger.ts:72-73 | after the replacement the replaced character no longer occurs |
| Logging.Trim | src/logger.ts:74 | the result is no longer than the text and neither starts nor ends with white space |
| Logging.TrimCorrect | src/logger.ts:74 | the trimmed text is a contiguous part of the original; everything before it and everything after it is white space |
| Logging.Stamp | src/logger.ts:71-74 | the stamp in a file name contains no space and no colon, and does not start or end with white space |
| Logging.LogFilename | src/logger.ts:68-76 | a file name is the prefix, `-`, a stamp without spaces or colons, and `.txt` |
| Logging.LogFilenamesShareStamp | src/logger.ts:42-52 | the log file and the error file of one run differ only in their prefix |
| Logging.LogFilenameOfTypicalDate | src/logger.ts:64-76 | for a date such as 2024-01-31 and a clock reading starting 13:05:09, the file name is `<prefix>-2024-01-31-13-05-09.txt` |
| Logging.JoinSnoc | src/logger.ts:42 | joining one more entry adds a newline and the entry |
| Logging.Join | src/logger.ts:42 | the joined text of no entries is empty; otherwise it starts with the first entry and ends with the last |
| Logging.JoinAppend | src/logger.ts:42 | joining two non-empty lists of entries is joining each and putting one newline between them |
| Logging.JoinPrefix | src/logger.ts:42 | the joined text of the first entries opens the joined text of all of them |
| Logging.JoinKeepsEntry | src/logger.ts:42-52 | every entry appears unchanged in the text appended to the file |

## Left out

- HTTPS requests and JSON decoding (gitHubService.ts). The directory service is an oracle from (user name, page) to a page of entries or a failure text. Likewise from (user name, repository name) to details or a failure text.
- Running git through `execa`. The executor is a function from a command to success or a failure text. It is a function of the command alone, which is sound for one synchronization because no command is issued twice (`SyncRepositoryIssuesEachOnce`).
- `path.join`. It is a parameter `join`, and the model says nothing about how it normalizes paths.
- Error objects. A failure's text is opaque. The model does not track that gitService.ts wraps errors in `new Error(err)`, which prefixes "Error: " to the text.
- Concurrency limits and `Promise.map` (application.ts:72-74). Every detail request is created at once, so the model issues them in input order. The source does not say which failure would win.
- Application.GetRepositoryDetails: states only that the failure text is that of *some* failing request. The source picks by timing; the model's loop keeps the first one in input order.
- Application.GetForkedRepositories: requires that some page is empty or fails. Without such a page the source requests pages forever, and a Dafny loop must terminate.
- `syncRepositories` (application.ts:77-94), the fan-out over all forks. Each repository's run is `SyncRepository` with the corrected clone handler, or `SyncRepositoryAsWritten` for the code as written. The interleaving of different repositories' runs is not modelled.
- The `start` chain and its rethrow (application.ts:25-36). This is promise plumbing around the modelled stages, ending in an unhandled throw.
- Logger I/O: `console.log` and `console.error`, the file system, and the asynchronous callbacks that clear `logs` and `errors` after a successful write (logger.ts:42-61). `Flush` returns the appends it requests and leaves the buffers as they are after its synchronous part. Once one of those callbacks has cleared a buffer, `errors` need no longer be a subsequence of `logs`.
- `Date`. The clock and its time-zone-dependent renderings (`toISOString`, `toTimeString`) are passed in. The model starts from those two strings.
- The directory of the log files (`path.join(directoryPath, …)` in logger.ts:42, 52). `FileAppend` holds the file name only.
- Reading package.json in the `Options` constructor (options.ts:1, 13-15). The three fields are given values.
- The log messages that application.ts and gitService.ts write while they run. Their formatting is modelled once, in `Logging`.

## Findings

| source | as written | input that shows it | evidently intended | confidence | as-written member | corrected member |
|---|---|---|---|---|---|---|
| src/application.ts:131-137 | the clone failure handler calls `.length` on the result of `.match(...)`, which is `null` when the text does not match; the `TypeError` is thrown inside the `catch` handler, so neither `resolve` nor `reject` is called and the promise of `cloneRepository`, and hence of `syncRepository`, never settles | `git clone` failing with "fatal: repository not found" | reject with the clone's error, which is what the `else` branch was written to do | not executed | Synchronizer.CloneNotFoundNeverSettles | Synchronizer.CloneRepository |
