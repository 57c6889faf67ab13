# pyscreenshot lifecycle controller — a Dafny model

The service takes a screenshot every five seconds, uploads it to a remote
image store, and clears a local `media` directory every day at 23:42. Two
HTTP handlers switch this on and off: `start_screenshot` and
`stop_screenshot`. They share a process-wide `isrunning` flag and a
background scheduler holding two named jobs, `screenshot_job` and
`clear_media_job`. A third handler, `get_screenshots`, returns the URLs of the
image records the remote store's resource query answers with.

This project models:

- **Scheduler** (`scheduler.dfy`): the scheduler's job store as an immutable
  map from job id to job (trigger, callable, Active/Paused). It has the four
  calls the handlers make: `get_job`, `add_job`, `pause_job` and
  `resume_job`. As in the scheduler library, `add_job` on a taken id raises
  `ConflictingIdError`, and `pause_job`/`resume_job` on an unknown id raise
  `JobLookupError`. Both errors are modelled as `Result` failures.
- **Controller** (`controller.dfy`): the two handlers as pure transitions
  over `State(running, registry)`. A scheduler error inside a handler ends
  the call with a server error and keeps the changes made before it. There
  is no rollback, and the flag is only written as the last step. The module
  also defines the flag/registry sync invariant and the semantics of a
  sequence of commands. The invariant is proved to hold after any sequence,
  so no scheduler error can occur from the initial state.
- **Naming** (`naming.dfy`): the screenshot file name
  `"screenshot-" + ts' + ".png"`, where `ts'` is the timestamp text with
  every `':'` removed, and the temporary path `"./" + name`. The timestamp is
  an opaque input string.
- **Listing** (`listing.dfy`): the projection of the remote store's
  resource records to their `secure_url` fields. The remote query is an
  input. It may have raised, or its answer may lack a key; both are
  modelled as errors.
- **Wrappers** (`wrappers.dfy`): `Option` and `Result`.

Three facts about the code shape the model:

- The scheduler library's `pause_job` and `resume_job` raise
  `JobLookupError` for an unknown id, and `add_job` raises
  `ConflictingIdError` for a taken one. Pausing or resuming a missing job is
  therefore an error, not a no-op. The model includes that error and proves
  it cannot occur from the initial state.
- The two job ids are `screenshot_job` and `clear_media_job`.
- `take_screenshot` has no `try`/`finally`, so the temporary file is removed
  only when the upload returns. File-system effects are not modelled (see
  below), so the model promises nothing about that file.

## Model

| member | source | states |
|---|---|---|
| Scheduler.GetJob | pyscreenshot/main.py:66-71 | finds a job exactly when the id is stored, and then returns that stored job |
| Scheduler.AddJob | pyscreenshot/main.py:67-72 | a fresh id gains one Active job with the given trigger and callable, and every other job is unchanged; a taken id fails with ConflictingId and nothing is added |
| Scheduler.PauseJob | pyscreenshot/main.py:84-85 | succeeds exactly when the id is stored; then only that job's status changes, to Paused, and its trigger and callable stay; otherwise fails with JobLookup |
| Scheduler.ResumeJob | pyscreenshot/main.py:69-74 | succeeds exactly when the id is stored; then only that job's status changes, to Active, and its trigger and callable stay; otherwise fails with JobLookup |
| Scheduler.PauseThenResume | pyscreenshot/main.py:69-85 | resuming a job that was just paused from Active gives back the original store |
| Scheduler.PauseIdempotent | pyscreenshot/main.py:84-85 | pausing an already paused job changes nothing |
| Controller.CreateOrResume | pyscreenshot/main.py:66-74 | the get_job-guarded create-or-resume never raises; it adds the id if missing with the given trigger, otherwise only flips the existing job to Active; no other job changes |
| Controller.StartScreenshot | pyscreenshot/main.py:62-77 | always answers "Screenshot taking started" and leaves the flag set; a set flag leaves the state unchanged; otherwise both named jobs are present and Active, a missing screenshot_job is created every 5 seconds with the screenshot callable, a missing clear_media_job daily at 23:42 with the clear-media callable, existing jobs keep trigger and callable, and other jobs are untouched |
| Controller.StopScreenshot | pyscreenshot/main.py:80-87 | a clear flag leaves the state unchanged and answers "Screenshot taking stopped"; with the flag set it succeeds iff both jobs are stored, then pauses exactly those two and clears the flag; a failure is a JobLookup error naming the first missing job, leaves the flag set, and keeps the pause of screenshot_job already made when only clear_media_job is missing |
| Controller.InitialSatisfiesInv | pyscreenshot/main.py:34-37 | the start-up state (flag clear, no jobs) satisfies the sync invariant |
| Controller.InvFlagIff | pyscreenshot/main.py:37-86 | under the invariant the flag is set iff both jobs are stored and Active |
| Controller.StartFromInitial | pyscreenshot/main.py:65-76 | the first start yields exactly two Active jobs, screenshot_job every 5 seconds and clear_media_job daily at 23:42, and sets the flag |
| Controller.StartPreservesInv | pyscreenshot/main.py:65-76 | start keeps the sync invariant |
| Controller.StopNeverFails | pyscreenshot/main.py:83-86 | under the invariant stop never calls pause_job on a missing job and always answers the stopped message |
| Controller.StopPreservesInv | pyscreenshot/main.py:83-86 | stop keeps the sync invariant |
| Controller.StartIdempotent | pyscreenshot/main.py:65-77 | starting twice equals starting once, for any state |
| Controller.StopIdempotent | pyscreenshot/main.py:83-87 | stopping twice equals stopping once, for any state |
| Controller.StopThenStartRestores | pyscreenshot/main.py:66-86 | stop followed by start restores the running state exactly: jobs are resumed, not re-registered, and keep their triggers |
| Controller.RunPreservesInv | pyscreenshot/main.py:37-87 | every start/stop sequence from an invariant state ends in an invariant state |
| Controller.RunNeverFails | pyscreenshot/main.py:62-87 | every call of such a sequence answers its command's fixed message, so no scheduler error is raised |
| Controller.RunFlagIsLastCommand | pyscreenshot/main.py:76-86 | after a non-empty sequence the flag is set iff the last command was start |
| Controller.RunRegistryKeys | pyscreenshot/main.py:66-74 | from the initial state the store is empty until the first start and holds exactly the two named jobs afterwards |
| Controller.RunKeepsTriggers | pyscreenshot/main.py:67-72 | after any sequence a stored job still has the trigger it was created with |
| Naming.RemoveColons | pyscreenshot/main.py:41 | the result contains no colon and is no longer than the input |
| Naming.RemoveColonsCounts | pyscreenshot/main.py:41 | every non-colon character keeps its multiplicity, colons vanish, and the length drops by the number of colons |
| Naming.RemoveColonsKeepsOrder | pyscreenshot/main.py:41 | the result is a subsequence of the input, so the remaining characters keep their order |
| Naming.RemoveColonsUnique | pyscreenshot/main.py:41 | any colon-free subsequence of the input whose length is the input's length minus its colons equals the result |
| Naming.RemoveColonsAppend | pyscreenshot/main.py:41 | colon removal distributes over concatenation |
| Naming.RemoveColonsNoColon | pyscreenshot/main.py:41 | a colon-free string is left unchanged |
| Naming.ImageName | pyscreenshot/main.py:41 | the name starts with "screenshot-", ends with ".png", has no colon, and its length is the timestamp's length minus its colons plus 15 |
| Naming.TempPath | pyscreenshot/main.py:46 | the temp path is "./" followed by the image name |
| Naming.ImageNameRoundTrip | pyscreenshot/main.py:41 | stripping prefix and extension from the name gives back the colon-free timestamp |
| Naming.ImageNameCollision | pyscreenshot/main.py:41 | two timestamps give the same name iff they agree once colons are removed |
| Listing.PhotoUrls | pyscreenshot/main.py:94 | succeeds iff every record has "secure_url"; then one URL per record, in record order, each that record's secure_url; otherwise a KeyError on "secure_url" |
| Listing.GetScreenshots | pyscreenshot/main.py:91-95 | a failed remote query or an answer without "resources" is an error; otherwise the result is the projection of the answer's records; it succeeds iff the query answered with records that all carry secure_url, and then lists exactly those fields in order |
| Listing.PhotoUrlsAppend | pyscreenshot/main.py:94 | listing a concatenation concatenates the listings, and fails iff either part fails |
| Listing.PhotoUrlsSources | pyscreenshot/main.py:94 | every listed URL is the secure_url of some record |

## Left out

- The web framework, cross-origin middleware, environment and remote-store
  configuration, and server start-up (pyscreenshot/main.py:1-35, 98-101):
  framework and I/O plumbing.
- The scheduler's background thread, timer firing, next-run-time
  computation and catch-up behaviour: library code outside this
  repository. The scheduler is only its job store with get/add/pause/resume.
- Job removal: the registry never removes a job, because the handlers never
  call it.
- The screen grab, image save, upload call and remote resource query:
  external calls. The timestamp and the query's answer are inputs.
- The file-system effects of `take_screenshot` (save, upload, remove) and
  `clear_media` (remove and recreate `media`). These are I/O. The code
  removes the temp file only when the upload returns, and `rmtree` raises
  when `media` is missing. The model claims neither the cleanup nor the
  error.
- Concurrent requests: the code has no lock. Each handler call is one
  atomic step.
- Paging of the remote resource query: the handler makes one query and
  lists whatever records that one answer holds. Whether the store returns
  all uploads or only one page of them depends on the remote library and is
  not modelled; the answer is an input.
- The `BackgroundTasks` parameter of `start_screenshot`, which is never used.
- Naming.ImageName: the timestamp is an opaque string. The format of the
  current time's text form, and so whether two distinct instants can give
  the same name, is not modelled.
