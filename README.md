# Music Ripper: the download controller and the download table

Music Ripper is a browser extension with a small Flask server that turns a
YouTube video into an mp3. This project models its two stateful cores and
proves properties of them.

- The extension's background worker (`client/background.js`) keeps one record
  of the current download: id, progress text, file name, url, active flag.
  It handles cancel, start, status queries and the self-rescheduling poll
  loop, and it adopts an unfinished download on start-up. Module
  `Background` describes each handler as a pure step function on the record.
  The class `Background.Controller` holds the record in fields. Its methods
  are proved against those functions. A ghost log records the
  `chrome.downloads.download` calls.
- The server (`server/app.py`) keeps the dictionary `downloads` from id to
  entry. Class `App.DownloadTable` holds it as a map, together with the
  dictionary's insertion order. That order makes the iteration and the
  stable sort of `active_downloads` exact. The start route, the download
  thread's writes, the cleanup thread and the three read routes are modelled
  on this table. Class `App.ProgressHook` is the yt_dlp progress hook bound
  to one id.
- Module `Ansi` models `strip_ansi_codes`, a left-to-right scanner for the
  pattern `\x1B(?:[@-Z\\-_]|\[[0-?]*[ -/]*[@-~])`. Module `Text` models
  Python's `str.strip()`. Module `Common` models JavaScript's
  `String.prototype.includes`.
- Module `Protocol` turns each server reply into the response the client
  handler receives. It proves what a user sees end to end:
  - a completed download is fetched from the file route for its own id;
  - a cleaned-up download stops the poll loop with "Error: Download not found";
  - on start-up the client adopts the unfinished download that started last.

Two behaviours of the code are worth knowing before reading the model:

- The client does not re-check the record after an `await`. A start or poll
  response that arrives after a cancel or a new start is applied to whatever
  the record is by then. A successful start response writes only its id, so
  after a second start the new record polls the first job's id under the
  second request's file name and url
  (`Background.OverlappingStartsPollFirstJob`). A failed start response and
  every poll response overwrite the progress text, and a completion still
  downloads its file (`Background.LateProgressOverwritesCancel`,
  `Background.ArtifactsOnlyOnCompletion`).
- A download that fails on the server is reported with HTTP 200 and status
  "error". The client treats it like a running download: it shows the error
  text and polls again every 500 ms until the user cancels, starts
  another conversion (if the new start's reply comes back before the next
  tick, that loop goes on with the new job's id), or a poll request fails
  or is answered with an error status, such as the 404 of a server that
  restarted with an empty table (`Background.ApplyPollOutcome`)
  (`Protocol.FailedDownloadIsPolledAgain`). Nothing on the server deletes a
  failed entry.

Several functions model one expression of the source each and carry no
contract of their own; their rows are the lemmas about them:
`Common.Contains` (`includes`, by `Common.ContainsIff`), `Text.Strip`
(`str.strip()`, by `Text.StripIsTrimmedInfix` and the lemmas after it),
`App.ProgressLine` (the hook's progress text, by `App.PlainEventKeepsLine`)
and `App.Listing` (the list `active_downloads` sorts, by
`App.ListingHoldsListedOnly`, `App.ListingHoldsEveryListed` and
`App.ListingIsLatestFirst`).

Each request handler and each thread step is one atomic step. Ids (uuid4),
clock readings (`time.time()`), what yt_dlp reports, and what
`secure_filename` makes of a name are parameters.

## Model

| member | source | states |
|---|---|---|
| Common.ContainsIff | client/background.js:121-123 | `includes` finds a pattern exactly when it occurs at some position |
| Background.Cancel | client/background.js:74-87 | an active record becomes the canceled record with a success reply; an inactive one is kept and the reply is "No active download" |
| Background.BeginConversion | client/background.js:91-97 | a new start builds an active record with no id and "Starting conversion..." from the request alone; an absent or empty file name becomes "audio" |
| Background.RefusalMessage | client/background.js:119-128 | the reported message is the guidance text exactly when the server's error (or "Conversion failed") names a sign-in challenge, and otherwise that error unchanged |
| Background.AuthHelpIsChallenge | client/background.js:121-125 | the guidance text itself contains "authentication" |
| Background.ConversionFailedIsNoChallenge | client/background.js:119-123 | "Conversion failed" names no challenge |
| Background.RefusalWithoutError | client/background.js:119 | a refusal without an error text, or with an empty one, reports "Conversion failed" |
| Background.BotCheckIsRewritten | client/background.js:121-125 | an error mentioning the bot check is replaced by the guidance text |
| Background.FinishConversionOutcome | client/background.js:99-139 | the start succeeds exactly when the server said ok; success stores the id; failure deactivates the record with "Error: " and the reported message |
| Background.TickFetch | client/background.js:151 | a tick fetches exactly when the record is active with a non-empty id, and it fetches that id |
| Background.ApplyPollOutcome | client/background.js:153-182 | a poll response never activates the record and keeps its id, name and url; an ok response shows the server's progress text, a failed one shows "Error: " and the server's error or "Failed to get progress", a thrown one "Error: " and the exception's message, and exactly these two stop the loop with nothing scheduled; a file download starts exactly on a reported completion, which then schedules only the cooldown |
| Background.ResumeOutcome | client/background.js:185-201 | the first listed download is adopted as an active record and is polled when its id is non-empty; otherwise the record is unchanged |
| Background.UploadCookies | client/background.js:13-64 | the cookie upload succeeds exactly when extraction worked and the server said ok, with "YouTube cookies uploaded successfully"; an extraction error and a thrown upload are reported with their own message; a refused upload with the server's error, or "Failed to upload cookies" when it is missing or empty |
| Background.InactiveStaysInactive | client/background.js:74-183 | only a new start or an adopted download reactivates an inactive record, so no tick fetches anything until then |
| Background.CancelStopsPolling | client/background.js:74-87 | after a cancel, and until a new start or adoption, no tick fetches anything |
| Background.OverlappingStartsPollFirstJob | client/background.js:89-131 | a start response arriving after a second start writes only its id into the second record, which then polls the first job under the second request's name and url |
| Background.LateProgressOverwritesCancel | client/background.js:153-158 | a poll response arriving after a cancel replaces the canceled record's progress text |
| Background.ArtifactsOnlyOnCompletion | client/background.js:157-172 | the file downloads a run starts are exactly the files named by its completion responses, in order, whatever the record |
| Background.ConversionScenario | client/background.js:89-172 | id "42", a "50%" poll and a completion download "song.mp3", and the cooldown clears the flag |
| Background.Controller.constructor | client/background.js:66-72 | the worker starts with the idle record and no downloads |
| Background.Controller.CheckProgress | client/background.js:146-148 | the reply carries the record's progress text and active flag |
| Background.Controller.CancelDownload | client/background.js:74-87 | the new record and reply are those of `Cancel` |
| Background.Controller.HandleConversion | client/background.js:89-97 | the record becomes `BeginConversion(request)` |
| Background.Controller.ConversionResponse | client/background.js:99-139 | the record and reply are those of `FinishConversion`; a success polls at once |
| Background.Controller.PollProgress | client/background.js:150-151 | the guard fetches exactly for an active record with a non-empty id, and changes nothing |
| Background.Controller.ProgressResponse | client/background.js:153-182 | the record and the next step are those of `ApplyPoll`; the download log grows by exactly the completed file |
| Background.Controller.CooldownTimerFires | client/background.js:167-169 | the cooldown clears the active flag of whatever record is current |
| Background.Controller.CheckForActiveDownloads | client/background.js:185-205 | the record becomes `Resume(record, response)`; an adoption polls at once |
| Text.StripIsTrimmedInfix | server/app.py:72 | `strip()` keeps one contiguous run with no white space at its ends and drops only white space |
| Text.StripEmptyIff | server/app.py:72-73 | a name strips to empty exactly when it is all white space |
| Text.StripKeepsTrimmed | server/app.py:72 | a name without white space at its ends is kept |
| Text.StripIdempotent | server/app.py:72 | stripping twice is stripping once |
| Ansi.MatchLength | server/app.py:24 | a match at the front is at least two characters and starts with ESC |
| Ansi.StripAnsi | server/app.py:23-25 | removing escape codes never lengthens the text |
| Ansi.MatchIsEscapeSequence | server/app.py:24 | what the scanner removes is a string the pattern denotes |
| Ansi.MatchOfEscapeSequence | server/app.py:24 | every string of the pattern is matched in full, whatever follows it |
| Ansi.StripWithoutEscape | server/app.py:23-25 | text without ESC is unchanged |
| Ansi.StripKeepsPlainPrefix | server/app.py:23-25 | a prefix without ESC stays in front of what the rest becomes |
| Ansi.StripDropsEscapeSequence | server/app.py:23-25 | an escape sequence at the front is deleted |
| Ansi.StripNotIdempotent | server/app.py:23-25 | some text loses more in a second pass than in the first |
| App.PathJoin | server/app.py:97-99 | for a directory without a trailing slash: an absolute name replaces the directory, otherwise the two are joined with "/" |
| App.RequestedName | server/app.py:72 | the requested name fails to strip exactly when it is not a string |
| App.OutputFilename | server/app.py:70-74 | the file name fails exactly for a name that is not a string, and otherwise ends in ".mp3" |
| App.BlankNameUsesTitle | server/app.py:72-73 | a missing, empty or all-blank name falls back to the title |
| App.NamedFileIgnoresTitle | server/app.py:72-73 | a name with some non-blank character is used, stripped, in place of the title |
| App.RemoveKeepsDistinct | server/app.py:134 | deleting a key keeps the iteration order free of repeats |
| App.WithProgress | server/app.py:49 | a progress write changes only that entry's progress text, and nothing when the id is gone |
| App.HookProgress | server/app.py:32-51 | the hook writes for "downloading" and "finished" events only, "Processing audio..." for the latter, never longer than the built line |
| App.PlainEventKeepsLine | server/app.py:33-49 | without ESC in the event's members, the hook writes the formatted line as built |
| App.ColouredPercentIsCleaned | server/app.py:47 | colour codes around the percentage are removed and the rest of the line is kept |
| App.CheckProgress | server/app.py:142-158 | 404 exactly for a missing id; otherwise status and progress, with url and name exactly when complete; a 500 exactly for a complete entry without url |
| App.ProgressOfValidTable | server/app.py:154-156 | on a consistent table the progress route never fails, and a completed entry carries the file route url of its own id |
| App.GetFile | server/app.py:160-172 | the file is sent exactly for a complete entry, with its path and name; otherwise the 404 body is "Download not found or not complete" |
| App.CollectMembers | server/app.py:176-185 | the loop collects exactly the entries that are neither failed nor complete |
| App.InsertByStart | server/app.py:187 | insertion adds exactly one element |
| App.InsertKeepsOrder | server/app.py:187 | insertion keeps a latest-first list latest first |
| App.SortByStart | server/app.py:187 | the sort is a permutation |
| App.SortByStartIsOrdered | server/app.py:187 | the sorted list runs from the latest start to the earliest |
| App.SortByStartKeepsOrdered | server/app.py:187 | a list already latest first is unchanged, so ties keep their order |
| App.SortKeepsMembers | server/app.py:187 | sorting keeps exactly the elements it was given |
| App.ListingHoldsListedOnly | server/app.py:174-189 | every listed summary is that of an entry neither failed nor complete |
| App.ListingHoldsEveryListed | server/app.py:174-189 | every entry neither failed nor complete is listed |
| App.ListingIsLatestFirst | server/app.py:174-189 | the list runs from the latest start to the earliest |
| App.ListingIsDistinct | server/app.py:177-189 | each entry neither failed nor complete is listed only once, since the loop visits each key once |
| App.StoreKeepsValid | server/app.py:76-83 | storing a consistent entry keeps every key listed once in iteration order, appending a new id at the end |
| App.DownloadTable.constructor | server/app.py:14 | the server starts with an empty table |
| App.DownloadTable.DownloadWithProgress | server/app.py:54-93 | 400 without a url; 500 with the message on a metadata error or a file name that is not a string, table unchanged; otherwise the new id is replied and one "starting" entry with the chosen name is stored under it; the table stays consistent |
| App.DownloadTable.ProcessDownloadBegins | server/app.py:95-102 | the entry gets its /tmp path and status "downloading"; a missing id changes nothing |
| App.DownloadTable.SetProgress | server/app.py:49 | the table becomes `WithProgress` of it |
| App.DownloadTable.ProcessDownloadEnds | server/app.py:123-140 | success marks the entry complete with its file url; failure marks it "error" with "Error: " and the message; a missing id changes nothing |
| App.DownloadTable.CleanupAfterDelay | server/app.py:130-136 | the entry is deleted if present; afterwards the progress and file routes answer 404 for it |
| App.DownloadTable.ActiveDownloads | server/app.py:174-189 | the reply lists exactly the entries neither failed nor complete, each once, latest start first, and changes nothing |
| App.ProgressHook.constructor | server/app.py:27-30 | binding the hook sets its entry's progress to "Initializing download..." |
| App.ProgressHook.Call | server/app.py:32-51 | a call writes `HookProgress(event)` into its own entry only |
| Protocol.ListResponseOf | server/app.py:189 | the list reply reaches the client as an ok response with one element per summary, in order |
| Protocol.AcceptedStartIsPolled | client/background.js:131-151 | an accepted start stores the server's id and the next tick polls it |
| Protocol.RefusedStartStops | client/background.js:117-139 | a refused start deactivates the record and shows the server's error, rewritten only for a challenge |
| Protocol.CompletedDownloadIsFetched | client/background.js:157-172 | a completed entry's poll downloads the file route for its own id under its name, schedules the cooldown, and that route sends the file |
| Protocol.RunningDownloadIsPolledAgain | client/background.js:157-174 | a starting or downloading entry shows its progress and is polled again |
| Protocol.FailedDownloadIsPolledAgain | client/background.js:157-174 | a failed entry shows its error text and is polled again |
| Protocol.CleanedUpDownloadStopsPolling | client/background.js:175-178 | a deleted entry stops the poll loop with "Error: Download not found" |
| Protocol.ResumeAdoptsLatest | client/background.js:185-199 | on start-up the client adopts an unfinished download that started last, or keeps its record when there is none |

## Left out

- The popup (`client/popup.js`) and the message router (client/background.js:37-54) are not part of this model. Each handler is a member of `Background.Controller`, except the cookie upload, which changes no state and is the function `Background.UploadCookies`. `getActiveDownload` is the function `GetActiveDownload`, which returns the record.
- Network calls, timers and Chrome APIs are not modelled. Their results are parameters: the start, poll, list and upload responses, the cookie extraction outcome, and the 500 ms tick and 3000 ms cooldown as separate steps. The cookie upload during a start is only logged, so its outcome is ignored.
- Threads are not modelled. Each route and each write group of the download thread is one atomic step. The three writes at server/app.py:126-128 are one step, so the window in which a complete entry has no `download_url` (a 500 from the progress route) is modelled by `App.CheckProgress` but not reached by the steps.
- yt_dlp is not modelled. Metadata extraction is a parameter (a title or an error). The download itself is an `Outcome`. Hook events are parameters. The size in MiB, a rounded float, enters as its printed text.
- `secure_filename`, `uuid.uuid4()` and `time.time()` are parameters. Start times are integers.
- `os.remove`, `send_file` and the HTTP encoding of replies are not modelled. `App.GetFile` returns the path and name it would send.
- A start request body that is not a JSON object is not modelled: `data.get` raises before the route's `try` (server/app.py:56-57). A `url` member that is a non-empty value of another type than string is not modelled either: it passes the check at server/app.py:58 and reaches yt_dlp. A `filename` of any type is modelled.
- The server's `index` route is not part of this model. `server/app.py` has no `upload-cookies` route. The client's upload is modelled only through the response it gets back, which is a parameter of `Background.UploadCookies`.
