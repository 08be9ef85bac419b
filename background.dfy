/** The extension's background controller (client/background.js): one global
    download record, rewritten by the message handlers and by a
    self-rescheduling poll loop.

    Each asynchronous handler is cut at its `await`s into steps that run to
    completion one at a time. Network results, the cookie upload and timer
    firings enter as parameters or as separate steps. The pure functions
    below say what each step does to the record; the class `Controller`
    holds the record in fields and its methods are proved against them. */
module Background {
  import opened Common

  const CANCELED_BY_USER := "Canceled by user"
  const STARTING_CONVERSION := "Starting conversion..."
  const DEFAULT_FILENAME := "audio"
  const CONVERSION_FAILED := "Conversion failed"
  const PROGRESS_FAILED := "Failed to get progress"
  const NO_ACTIVE_DOWNLOAD := "No active download"
  const ERROR_PREFIX := "Error: "
  /** The `status` value the server uses for a finished download. */
  const COMPLETE := "complete"
  const BOT_CHECK := "Sign in to confirm you're not a bot"
  const COOKIES := "cookies"
  const AUTHENTICATION := "authentication"
  const AUTH_HELP := "YouTube requires " + AUTHENTICATION + ". Click the \"Authenticate with YouTube\" button while on YouTube.com."
  const COOKIES_UPLOADED := "YouTube cookies uploaded successfully"
  const COOKIE_UPLOAD_FAILED := "Failed to upload cookies"

  /** `currentDownloadInfo`. */
  datatype DownloadInfo = DownloadInfo(id: Option<string>, progress: string, filename: string, url: string, active: bool)

  /** The record when the background script loads. */
  const IDLE := DownloadInfo(None, "", "", "", false)
  /** The record a successful cancel leaves. */
  const CANCELED := DownloadInfo(None, CANCELED_BY_USER, "", "", false)

  /** JavaScript's `v || fallback` for a string member that may be missing:
      the fallback replaces a missing and an empty string alike. */
  function OrElse(v: Option<string>, fallback: string): (r: string)
  {
    if v.Some? && v.value != "" then v.value else fallback
  }

  /** `!currentDownloadInfo.id` is false: the id is present and not empty. */
  predicate HasId(id: Option<string>)
  {
    id.Some? && id.value != ""
  }

  // ---------------------------------------------------------------------------
  // Messages exchanged with the popup and the server

  /** The `startConversion` message. */
  datatype ConversionRequest = ConversionRequest(youtubeUrl: string, filename: Option<string>)

  /** What the `download-with-progress` request came back with: the status
      flag and the JSON members used, or an exception (network failure, a body
      that is not JSON). */
  datatype StartResponse =
    | StartResponded(ok: bool, downloadId: string, error: Option<string>)
    | StartThrew(message: string)

  datatype StartReply = StartSucceeded(downloadId: string) | StartFailed(error: string)

  datatype CancelReply = CancelSucceeded | CancelFailed(error: string)

  /** The reply to `checkProgress`. */
  datatype StatusReply = StatusReply(progress: string, active: bool)

  /** The JSON members of a `progress/<id>` response the poll loop reads. */
  datatype ProgressData = ProgressData(status: string, progress: string, downloadUrl: string, filename: string, error: Option<string>)

  datatype PollResponse = PollResponded(ok: bool, data: ProgressData) | PollThrew(message: string)

  /** What a poll response leaves scheduled: the next tick after 500 ms, the
      cooldown after 3000 ms, or nothing. */
  datatype PollNext = NextTick | Cooldown | Stopped

  /** A `chrome.downloads.download` call. */
  datatype Artifact = Artifact(url: string, filename: string)

  /** One element of the `downloads` list of `active-downloads`. */
  datatype ActiveEntry = ActiveEntry(id: string, progress: string, filename: string, url: string)

  /** The `active-downloads` response; a missing `downloads` member behaves
      as an empty list. */
  datatype ListResponse = ListResponded(ok: bool, downloads: seq<ActiveEntry>) | ListThrew(message: string)

  /** The `upload-cookies` response. */
  datatype UploadResponse = UploadResponded(ok: bool, error: Option<string>) | UploadThrew(message: string)

  datatype CookieReply = CookieSucceeded(message: string) | CookieFailed(error: string)

  // ---------------------------------------------------------------------------
  // Classifying a refused start request

  /** The error text names one of the sign-in challenges. */
  predicate IsAuthChallenge(msg: string)
  {
    Contains(msg, BOT_CHECK) || Contains(msg, COOKIES) || Contains(msg, AUTHENTICATION)
  }

  /** The guidance text is itself recognised as a challenge. */
  lemma AuthHelpIsChallenge()
    ensures IsAuthChallenge(AUTH_HELP)
  {
    var head := "YouTube requires ";
    var tail := ". Click the \"Authenticate with YouTube\" button while on YouTube.com.";
    assert AUTH_HELP == head + AUTHENTICATION + tail;
    assert AUTH_HELP[|head|..|head| + |AUTHENTICATION|] == AUTHENTICATION;
    ContainsAt(AUTH_HELP, AUTHENTICATION, |head|);
  }

  /** The message `handleConversion` reports when the server refuses the start
      request: the server's `error` (or "Conversion failed" when it has none),
      replaced by the fixed guidance text when it names a sign-in challenge. */
  function RefusalMessage(error: Option<string>): (msg: string)
    ensures msg == AUTH_HELP <==> IsAuthChallenge(OrElse(error, CONVERSION_FAILED))
    ensures msg != AUTH_HELP ==> msg == OrElse(error, CONVERSION_FAILED)
  {
    AuthHelpIsChallenge();
    var base := OrElse(error, CONVERSION_FAILED);
    if IsAuthChallenge(base) then AUTH_HELP else base
  }

  /** "Conversion failed" names no challenge. */
  lemma ConversionFailedIsNoChallenge()
    ensures !IsAuthChallenge(CONVERSION_FAILED)
  {
    NotContainsLonger(CONVERSION_FAILED, BOT_CHECK);
    ConversionFailedLacksCookies();
    ConversionFailedLacksAuthentication();
  }

  lemma ConversionFailedLacksCookies()
    ensures !Contains(CONVERSION_FAILED, COOKIES)
  {
    var s := CONVERSION_FAILED;
    assert s == "Conversion" + " failed";
    forall i | 0 <= i && i + |COOKIES| <= |s| ensures s[i] != COOKIES[0] {
      assert s[i] in "Conversion ";
    }
    MissingFirstCharacter(s, COOKIES);
  }

  lemma ConversionFailedLacksAuthentication()
    ensures !Contains(CONVERSION_FAILED, AUTHENTICATION)
  {
    var s := CONVERSION_FAILED;
    assert s == "Conv" + "ersion failed";
    forall i | 0 <= i && i + |AUTHENTICATION| <= |s| ensures s[i] != AUTHENTICATION[0] {
      assert s[i] in "Conv";
    }
    MissingFirstCharacter(s, AUTHENTICATION);
  }

  /** A refusal without an error text reports "Conversion failed". */
  lemma RefusalWithoutError(error: Option<string>)
    requires error == None || error == Some("")
    ensures RefusalMessage(error) == CONVERSION_FAILED
  {
    ConversionFailedIsNoChallenge();
  }

  /** A refusal that mentions the bot check is rewritten to the guidance text. */
  lemma BotCheckIsRewritten(error: string)
    requires Contains(error, BOT_CHECK)
    ensures RefusalMessage(Some(error)) == AUTH_HELP
  {
    assert |BOT_CHECK| <= |error|;
  }

  // ---------------------------------------------------------------------------
  // What each step does to the record

  /** `cancelDownload`: an active record is replaced by the canceled one; an
      inactive record is left as it is and the reply is an error. */
  function Cancel(info: DownloadInfo): (r: (DownloadInfo, CancelReply))
    ensures info.active ==> r == (CANCELED, CancelSucceeded)
    ensures !info.active ==> r == (info, CancelFailed(NO_ACTIVE_DOWNLOAD))
  {
    if info.active then (CANCELED, CancelSucceeded) else (info, CancelFailed(NO_ACTIVE_DOWNLOAD))
  }

  /** The first, synchronous step of `handleConversion`: the record is built
      from the request alone. */
  function BeginConversion(request: ConversionRequest): (info: DownloadInfo)
    ensures info.id == None && info.active && info.progress == STARTING_CONVERSION
    ensures info.url == request.youtubeUrl
    ensures info.filename == (if request.filename == None || request.filename == Some("") then DEFAULT_FILENAME else request.filename.value)
  {
    DownloadInfo(None, STARTING_CONVERSION, OrElse(request.filename, DEFAULT_FILENAME), request.youtubeUrl, true)
  }

  /** The rest of `handleConversion`, once the start request has come back. It
      applies to whatever the record is by then. */
  function FinishConversion(info: DownloadInfo, response: StartResponse): (r: (DownloadInfo, StartReply))
  {
    match response
    case StartResponded(true, downloadId, _) =>
      (info.(id := Some(downloadId)), StartSucceeded(downloadId))
    case StartResponded(false, _, error) =>
      var msg := RefusalMessage(error);
      (info.(progress := ERROR_PREFIX + msg, active := false), StartFailed(msg))
    case StartThrew(message) =>
      (info.(progress := ERROR_PREFIX + message, active := false), StartFailed(message))
  }

  /** The guard at the top of `pollProgress`: the id whose progress is fetched,
      or None when the tick does nothing. */
  function TickFetch(info: DownloadInfo): (fetch: Option<string>)
    ensures fetch.Some? <==> info.active && HasId(info.id)
    ensures fetch.Some? ==> info.id == fetch
  {
    if HasId(info.id) && info.active then info.id else None
  }

  /** The rest of `pollProgress`, once the progress request has come back: the
      new record, what is left scheduled, and the file download started. */
  function ApplyPoll(info: DownloadInfo, response: PollResponse): (r: (DownloadInfo, PollNext, Option<Artifact>))
  {
    match response
    case PollResponded(true, data) =>
      if data.status == COMPLETE then
        (info.(progress := data.progress), Cooldown, Some(Artifact(data.downloadUrl, data.filename)))
      else
        (info.(progress := data.progress), NextTick, None)
    case PollResponded(false, data) =>
      (info.(progress := ERROR_PREFIX + OrElse(data.error, PROGRESS_FAILED), active := false), Stopped, None)
    case PollThrew(message) =>
      (info.(progress := ERROR_PREFIX + message, active := false), Stopped, None)
  }

  /** The 3000 ms timer set on completion. */
  function CooldownFires(info: DownloadInfo): (r: DownloadInfo)
  {
    info.(active := false)
  }

  /** `checkForActiveDownloads`: the first listed download, if any, becomes the
      record. */
  function Resume(info: DownloadInfo, response: ListResponse): (r: DownloadInfo)
  {
    match response
    case ListResponded(true, downloads) =>
      if |downloads| > 0 then
        DownloadInfo(Some(downloads[0].id), downloads[0].progress, downloads[0].filename, downloads[0].url, true)
      else info
    case ListResponded(false, _) => info
    case ListThrew(_) => info
  }

  /** `uploadYouTubeCookies`: the cookies are read, then uploaded. */
  function UploadCookies(extraction: Outcome, upload: UploadResponse): (r: CookieReply)
    ensures r.CookieSucceeded? <==> extraction.Pass? && upload.UploadResponded? && upload.ok
    ensures r.CookieSucceeded? ==> r.message == COOKIES_UPLOADED
    ensures extraction.Fail? ==> r == CookieFailed(extraction.message)
    ensures extraction.Pass? && upload.UploadResponded? && !upload.ok ==>
              r == CookieFailed(if upload.error.Some? && upload.error.value != "" then upload.error.value else COOKIE_UPLOAD_FAILED)
    ensures extraction.Pass? && upload.UploadThrew? ==> r == CookieFailed(upload.message)
  {
    match extraction
    case Fail(message) => CookieFailed(message)
    case Pass =>
      match upload
      case UploadResponded(true, _) => CookieSucceeded(COOKIES_UPLOADED)
      case UploadResponded(false, error) => CookieFailed(OrElse(error, COOKIE_UPLOAD_FAILED))
      case UploadThrew(message) => CookieFailed(message)
  }

  // ---------------------------------------------------------------------------
  // Properties of the steps

  /** A start response succeeds exactly when the server said ok; success
      records the id and replies with it, failure deactivates the record with
      the reported message. */
  lemma FinishConversionOutcome(info: DownloadInfo, response: StartResponse)
    ensures var (after, reply) := FinishConversion(info, response);
      && (reply.StartSucceeded? <==> response.StartResponded? && response.ok)
      && (reply.StartSucceeded? ==> after == info.(id := Some(response.downloadId)) && reply.downloadId == response.downloadId)
      && (reply.StartFailed? ==> after == info.(progress := ERROR_PREFIX + reply.error, active := false))
      && (response.StartThrew? ==> reply == StartFailed(response.message))
      && (response.StartResponded? && !response.ok ==> reply == StartFailed(RefusalMessage(response.error)))
  {
  }

  /** A poll response never makes the record active, keeps its id, file name
      and url, and sets the progress text; it starts a file download exactly
      when the server reports completion, and then schedules only the cooldown. */
  lemma ApplyPollOutcome(info: DownloadInfo, response: PollResponse)
    ensures var (after, next, artifact) := ApplyPoll(info, response);
      && after.id == info.id && after.filename == info.filename && after.url == info.url
      && (after.active ==> info.active)
      && (artifact.Some? <==> response.PollResponded? && response.ok && response.data.status == COMPLETE)
      && (artifact.Some? ==> artifact.value == Artifact(response.data.downloadUrl, response.data.filename) && next == Cooldown && after.active == info.active)
      && (next == NextTick <==> response.PollResponded? && response.ok && response.data.status != COMPLETE)
      && (next == Stopped <==> !(response.PollResponded? && response.ok))
      && (next == NextTick ==> after == info.(progress := response.data.progress))
      && (next == Stopped ==> !after.active && after.progress[..|ERROR_PREFIX|] == ERROR_PREFIX)
      && (response.PollResponded? && response.ok ==> after.progress == response.data.progress)
      && (response.PollResponded? && !response.ok ==>
            after.progress == ERROR_PREFIX + (if response.data.error.Some? && response.data.error.value != "" then response.data.error.value else PROGRESS_FAILED))
      && (response.PollThrew? ==> after.progress == ERROR_PREFIX + response.message)
  {
  }

  /** Resuming adopts the first listed download as an active record, and
      otherwise leaves the record as it was. */
  lemma ResumeOutcome(info: DownloadInfo, response: ListResponse)
    ensures response.ListResponded? && response.ok && |response.downloads| > 0 ==>
      var first := response.downloads[0];
      && Resume(info, response) == DownloadInfo(Some(first.id), first.progress, first.filename, first.url, true)
      && (first.id != "" ==> TickFetch(Resume(info, response)) == Some(first.id))
    ensures !(response.ListResponded? && response.ok && |response.downloads| > 0) ==> Resume(info, response) == info
  {
  }

  // ---------------------------------------------------------------------------
  // Runs of steps

  /** One step of the controller, as the event loop delivers it. */
  datatype Event =
    | CancelRequested
    | ConversionRequested(request: ConversionRequest)
    | ConversionAnswered(startResponse: StartResponse)
    | ProgressAnswered(pollResponse: PollResponse)
    | CooldownElapsed
    | ActiveListAnswered(listResponse: ListResponse)

  /** The record after one event. */
  function Step(info: DownloadInfo, e: Event): DownloadInfo
  {
    match e
    case CancelRequested => Cancel(info).0
    case ConversionRequested(request) => BeginConversion(request)
    case ConversionAnswered(response) => FinishConversion(info, response).0
    case ProgressAnswered(response) => ApplyPoll(info, response).0
    case CooldownElapsed => CooldownFires(info)
    case ActiveListAnswered(response) => Resume(info, response)
  }

  /** The record after a run of events. */
  function Run(info: DownloadInfo, events: seq<Event>): DownloadInfo
    decreases |events|
  {
    if events == [] then info else Run(Step(info, events[0]), events[1..])
  }

  /** The file downloads a run of events starts. */
  function RunArtifacts(info: DownloadInfo, events: seq<Event>): seq<Artifact>
    decreases |events|
  {
    if events == [] then []
    else
      var here := if events[0].ProgressAnswered? then ApplyPoll(info, events[0].pollResponse).2 else None;
      (if here.Some? then [here.value] else []) + RunArtifacts(Step(info, events[0]), events[1..])
  }

  /** A new conversion, or a download adopted from the server's list. */
  predicate Reactivates(e: Event)
  {
    || e.ConversionRequested?
    || (e.ActiveListAnswered? && e.listResponse.ListResponded? && e.listResponse.ok && |e.listResponse.downloads| > 0)
  }

  /** Only a new conversion or an adopted download makes an inactive record
      active: every other event keeps it inactive, so no poll tick fetches
      anything. This holds although late responses still overwrite the
      progress text of the inactive record. */
  lemma {:induction false} InactiveStaysInactive(info: DownloadInfo, events: seq<Event>)
    requires !info.active
    requires forall k :: 0 <= k < |events| ==> !Reactivates(events[k])
    ensures !Run(info, events).active
    ensures TickFetch(Run(info, events)) == None
    decreases |events|
  {
    if events != [] {
      var next := Step(info, events[0]);
      assert !Reactivates(events[0]);
      match events[0] {
        case ProgressAnswered(r) => ApplyPollOutcome(info, r);
        case ConversionAnswered(r) => FinishConversionOutcome(info, r);
        case _ =>
      }
      assert !next.active;
      InactiveStaysInactive(next, events[1..]);
    }
  }

  /** Cancel is final until the user starts a conversion again (or a restart
      adopts a download): after it, no poll tick fetches anything. */
  lemma CancelStopsPolling(info: DownloadInfo, events: seq<Event>)
    requires forall k :: 0 <= k < |events| ==> !Reactivates(events[k])
    ensures !Run(Cancel(info).0, events).active
    ensures TickFetch(Run(Cancel(info).0, events)) == None
  {
    InactiveStaysInactive(Cancel(info).0, events);
  }

  /** A progress response that arrives after a cancel is not discarded: it
      overwrites the progress text of the canceled record (the code does not
      check the record again after its `await`). */
  lemma LateProgressOverwritesCancel(info: DownloadInfo, data: ProgressData)
    requires info.active
    ensures ApplyPoll(Cancel(info).0, PollResponded(true, data)).0 == CANCELED.(progress := data.progress)
  {
  }

  /** A start response that arrives after the user started a second
      conversion is applied to the second conversion's record: only its id is
      written, so the next tick polls the first conversion's job under the
      second one's file name and url. */
  lemma OverlappingStartsPollFirstJob(first: ConversionRequest, second: ConversionRequest,
                                      firstId: string, error: Option<string>)
    requires firstId != ""
    ensures var after := Run(BeginConversion(first), [ConversionRequested(second), ConversionAnswered(StartResponded(true, firstId, error))]);
      && after == BeginConversion(second).(id := Some(firstId))
      && after.progress == STARTING_CONVERSION && after.url == second.youtubeUrl
      && TickFetch(after) == Some(firstId)
  {
    var events := [ConversionRequested(second), ConversionAnswered(StartResponded(true, firstId, error))];
    var begun := BeginConversion(second);
    assert Run(BeginConversion(first), events) == Run(begun, events[1..]);
    assert events[1..][1..] == [];
    assert Run(begun, events[1..]) == Run(begun.(id := Some(firstId)), []);
  }

  /** A progress response that reports completion. */
  predicate IsCompletion(e: Event)
  {
    e.ProgressAnswered? && e.pollResponse.PollResponded? && e.pollResponse.ok && e.pollResponse.data.status == COMPLETE
  }

  /** The file each completion response names, in the order they arrive. */
  function CompletedArtifacts(events: seq<Event>): (r: seq<Artifact>)
    ensures |r| <= |events|
  {
    if events == [] then []
    else
      var here := if IsCompletion(events[0])
                  then [Artifact(events[0].pollResponse.data.downloadUrl, events[0].pollResponse.data.filename)]
                  else [];
      here + CompletedArtifacts(events[1..])
  }

  /** The file downloads a run starts are exactly the files named by its
      completion responses, in order, whatever the record was: a completion
      that arrives after a cancel or a new start still downloads its file. */
  lemma {:induction false} ArtifactsOnlyOnCompletion(info: DownloadInfo, events: seq<Event>)
    ensures RunArtifacts(info, events) == CompletedArtifacts(events)
    decreases |events|
  {
    if events != [] {
      ArtifactsOnlyOnCompletion(Step(info, events[0]), events[1..]);
      if events[0].ProgressAnswered? {
        ApplyPollOutcome(info, events[0].pollResponse);
      }
    }
  }

  /** The scenario of a conversion that the server answers with id "42",
      reports "50%" once and then completes. */
  lemma ConversionScenario(url: string, downloadUrl: string)
    ensures var started := Run(IDLE, [ConversionRequested(ConversionRequest(url, Some("song"))),
                                      ConversionAnswered(StartResponded(true, "42", None))]);
      && started == DownloadInfo(Some("42"), STARTING_CONVERSION, "song", url, true)
      && TickFetch(started) == Some("42")
      && var half := ApplyPoll(started, PollResponded(true, ProgressData("running", "50%", "", "", None)));
      && half == (started.(progress := "50%"), NextTick, None)
      && var done := ApplyPoll(half.0, PollResponded(true, ProgressData(COMPLETE, "Download complete!", downloadUrl, "song.mp3", None)));
      && done.1 == Cooldown && done.2 == Some(Artifact(downloadUrl, "song.mp3")) && done.0.active
      && !CooldownFires(done.0).active
  {
    var request := ConversionRequest(url, Some("song"));
    var answer := StartResponded(true, "42", None);
    var events := [ConversionRequested(request), ConversionAnswered(answer)];
    var begun := BeginConversion(request);
    assert begun == DownloadInfo(None, STARTING_CONVERSION, "song", url, true);
    var started := FinishConversion(begun, answer).0;
    assert started == DownloadInfo(Some("42"), STARTING_CONVERSION, "song", url, true);
    assert events[1..] == [ConversionAnswered(answer)];
    assert Run(begun, events[1..]) == Run(started, []);
    assert Run(IDLE, events) == Run(begun, events[1..]);
    assert "running" != COMPLETE by {
      assert "running"[0] != COMPLETE[0];
    }
  }

  // ---------------------------------------------------------------------------
  // The controller

  /** The background script's state: the record `currentDownloadInfo` and,
      as ghost state, the file downloads it has started. */
  class Controller {
    var id: Option<string>
    var progress: string
    var filename: string
    var url: string
    var active: bool
    /** `chrome.downloads.download` calls so far. */
    ghost var artifacts: seq<Artifact>

    /** `getActiveDownload`: the whole record. */
    function GetActiveDownload(): DownloadInfo
      reads this
    {
      DownloadInfo(id, progress, filename, url, active)
    }

    /** `checkProgress`: the progress text and the active flag of the record. */
    function CheckProgress(): (r: StatusReply)
      reads this
      ensures r.progress == GetActiveDownload().progress && r.active == GetActiveDownload().active
    {
      StatusReply(progress, active)
    }

    /** The script loads with the idle record. */
    constructor ()
      ensures GetActiveDownload() == IDLE && artifacts == []
    {
      id, progress, filename, url, active := None, "", "", "", false;
      artifacts := [];
    }

    /** `cancelDownload`. */
    method CancelDownload() returns (reply: CancelReply)
      modifies this
      ensures (GetActiveDownload(), reply) == Cancel(old(GetActiveDownload()))
      ensures artifacts == old(artifacts)
    {
      if active {
        id, progress, filename, url, active := None, CANCELED_BY_USER, "", "", false;
        reply := CancelSucceeded;
      } else {
        reply := CancelFailed(NO_ACTIVE_DOWNLOAD);
      }
    }

    /** `handleConversion` up to its first `await`: the record is replaced. */
    method HandleConversion(request: ConversionRequest)
      modifies this
      ensures GetActiveDownload() == BeginConversion(request)
      ensures artifacts == old(artifacts)
    {
      id, progress, url, active := None, STARTING_CONVERSION, request.youtubeUrl, true;
      filename := if request.filename.Some? && request.filename.value != "" then request.filename.value else DEFAULT_FILENAME;
    }

    /** `handleConversion` after the cookie upload (whose outcome is only
        logged) and the start request have come back; on success it calls
        `pollProgress`, whose guard decides whether a fetch goes out. */
    method ConversionResponse(cookieUpload: Outcome, response: StartResponse) returns (reply: StartReply, fetch: Option<string>)
      modifies this
      ensures (GetActiveDownload(), reply) == FinishConversion(old(GetActiveDownload()), response)
      ensures fetch == if reply.StartSucceeded? then TickFetch(GetActiveDownload()) else None
      ensures artifacts == old(artifacts)
    {
      match response
      case StartResponded(true, downloadId, _) =>
        id := Some(downloadId);
        reply := StartSucceeded(id.value);
        fetch := PollProgress();
      case StartResponded(false, _, error) =>
        var msg := RefusalMessage(error);
        progress, active := ERROR_PREFIX + msg, false;
        reply, fetch := StartFailed(msg), None;
      case StartThrew(message) =>
        progress, active := ERROR_PREFIX + message, false;
        reply, fetch := StartFailed(message), None;
    }

    /** A tick of `pollProgress` up to its `await`: the id whose progress is
        requested, or None when the guard returns early. It changes nothing. */
    method PollProgress() returns (fetch: Option<string>)
      ensures fetch.Some? <==> active && id.Some? && id.value != ""
      ensures fetch.Some? ==> fetch == id
    {
      if id.None? || id.value == "" || !active {
        return None;
      }
      fetch := id;
    }

    /** `pollProgress` after the progress request has come back: the result is
        applied to whatever the record is now. */
    method ProgressResponse(response: PollResponse) returns (next: PollNext)
      modifies this
      ensures (GetActiveDownload(), next) == (ApplyPoll(old(GetActiveDownload()), response).0, ApplyPoll(old(GetActiveDownload()), response).1)
      ensures var artifact := ApplyPoll(old(GetActiveDownload()), response).2;
        artifacts == old(artifacts) + (if artifact.Some? then [artifact.value] else [])
    {
      match response
      case PollResponded(true, data) =>
        progress := data.progress;
        if data.status == COMPLETE {
          artifacts := artifacts + [Artifact(data.downloadUrl, data.filename)];
          next := Cooldown;
        } else {
          next := NextTick;
        }
      case PollResponded(false, data) =>
        progress, active := ERROR_PREFIX + OrElse(data.error, PROGRESS_FAILED), false;
        next := Stopped;
      case PollThrew(message) =>
        progress, active := ERROR_PREFIX + message, false;
        next := Stopped;
    }

    /** The cooldown timer fires and clears the flag of whatever record is
        current. */
    method CooldownTimerFires()
      modifies this
      ensures GetActiveDownload() == CooldownFires(old(GetActiveDownload()))
      ensures artifacts == old(artifacts)
    {
      active := false;
    }

    /** `checkForActiveDownloads` once the list has come back; on adoption it
        calls `pollProgress`. */
    method CheckForActiveDownloads(response: ListResponse) returns (fetch: Option<string>)
      modifies this
      ensures GetActiveDownload() == Resume(old(GetActiveDownload()), response)
      ensures fetch == if response.ListResponded? && response.ok && |response.downloads| > 0
                       then TickFetch(GetActiveDownload()) else None
      ensures artifacts == old(artifacts)
    {
      fetch := None;
      if response.ListResponded? && response.ok && |response.downloads| > 0 {
        var latest := response.downloads[0];
        id, progress, filename, url, active := Some(latest.id), latest.progress, latest.filename, latest.url, true;
        fetch := PollProgress();
      }
    }
  }
}
