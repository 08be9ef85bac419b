/** How the server's replies look to the extension's background worker: each
    reply of server/app.py is turned into the response the client's handlers
    in client/background.js receive, and the two models are connected. */
module Protocol {
  import opened Common
  import App
  import Background

  /** The start reply as the client reads it: a 2xx status with `download_id`,
      or a 4xx/5xx status with `error`. */
  function StartResponseOf(reply: App.StartReply): Background.StartResponse
  {
    match reply
    case Started(downloadId) => Background.StartResponded(true, downloadId, None)
    case Refused(_, error) => Background.StartResponded(false, "", Some(error))
  }

  /** The progress reply as the client reads it. A 500 from the progress
      route is an HTML page, so `response.json()` throws `parseError`; members
      the reply does not carry are read as empty. */
  function PollResponseOf(reply: App.ProgressReply, parseError: string): Background.PollResponse
  {
    match reply
    case ProgressNotFound =>
      Background.PollResponded(false, Background.ProgressData("", "", "", "", Some(App.NOT_FOUND)))
    case ProgressFound(status, progress, completion) =>
      var url := if completion.Some? then completion.value.downloadUrl else "";
      var name := if completion.Some? then completion.value.filename else "";
      Background.PollResponded(true, Background.ProgressData(status.Wire(), progress, url, name, None))
    case ProgressFailed =>
      Background.PollThrew(parseError)
  }

  function EntryOf(s: App.Summary): Background.ActiveEntry
  {
    Background.ActiveEntry(s.id, s.progress, s.filename, s.url)
  }

  /** The `active-downloads` reply as the client reads it. */
  function ListResponseOf(active: seq<App.Summary>): (r: Background.ListResponse)
    ensures r.ListResponded? && r.ok && |r.downloads| == |active|
    ensures forall k :: 0 <= k < |active| ==> r.downloads[k] == EntryOf(active[k])
  {
    Background.ListResponded(true, seq(|active|, k requires 0 <= k < |active| => EntryOf(active[k])))
  }

  /** An accepted start request gives the client the id the server filed the
      entry under, and the next tick polls exactly that entry. */
  lemma AcceptedStartIsPolled(info: Background.DownloadInfo, downloadId: string)
    requires info.active && downloadId != ""
    ensures var (after, reply) := Background.FinishConversion(info, StartResponseOf(App.Started(downloadId)));
      && reply == Background.StartSucceeded(downloadId)
      && Background.TickFetch(after) == Some(downloadId)
  {
  }

  /** A refused start request deactivates the record and shows the server's
      error, rewritten only when it names a sign-in challenge. */
  lemma RefusedStartStops(info: Background.DownloadInfo, code: int, error: string)
    ensures var (after, reply) := Background.FinishConversion(info, StartResponseOf(App.Refused(code, error)));
      && reply == Background.StartFailed(Background.RefusalMessage(Some(error)))
      && !after.active
      && (error != "" && !Background.IsAuthChallenge(error) ==> reply == Background.StartFailed(error))
  {
  }

  /** Once the server has completed a download, the next poll starts the
      browser download of the file route for that same id under the entry's
      file name, schedules only the cooldown, and that route sends the file. */
  lemma CompletedDownloadIsFetched(downloads: map<string, App.Entry>, order: seq<string>, id: string,
                                   info: Background.DownloadInfo, parseError: string)
    requires App.TableValid(downloads, order)
    requires id in downloads && downloads[id].status == App.Complete
    ensures var (after, next, artifact) := Background.ApplyPoll(info, PollResponseOf(App.CheckProgress(downloads, id), parseError));
      && artifact == Some(Background.Artifact(App.FileUrl(id), downloads[id].filename))
      && next == Background.Cooldown
      && after.progress == downloads[id].progress
    ensures App.GetFile(downloads, id) == App.FileSent(downloads[id].filepath, downloads[id].filename)
  {
    App.ProgressOfValidTable(downloads, order, id);
  }

  /** A download that is still starting or downloading is polled again after
      the server's progress text is shown. */
  lemma RunningDownloadIsPolledAgain(downloads: map<string, App.Entry>, id: string,
                                     info: Background.DownloadInfo, parseError: string)
    requires id in downloads && (downloads[id].status == App.Starting || downloads[id].status == App.Downloading)
    ensures Background.ApplyPoll(info, PollResponseOf(App.CheckProgress(downloads, id), parseError))
            == (info.(progress := downloads[id].progress), Background.NextTick, None)
  {
    var wire := downloads[id].status.Wire();
    assert wire[0] != Background.COMPLETE[0];
  }

  /** A download that failed on the server is answered with status "error"
      and a 200, which the client does not tell apart from a running one: the
      error text is shown and the record stays active and keeps polling. The
      server never deletes a failed entry, so this goes on until the user
      cancels or starts another conversion, or a poll request fails or is
      answered with an error status. */
  lemma FailedDownloadIsPolledAgain(downloads: map<string, App.Entry>, id: string,
                                    info: Background.DownloadInfo, parseError: string)
    requires id in downloads && downloads[id].status == App.Error
    ensures Background.ApplyPoll(info, PollResponseOf(App.CheckProgress(downloads, id), parseError))
            == (info.(progress := downloads[id].progress), Background.NextTick, None)
  {
    assert App.Status.Error.Wire()[0] != Background.COMPLETE[0];
  }

  /** Once cleanup has deleted an entry, the next poll stops with
      "Error: Download not found". */
  lemma CleanedUpDownloadStopsPolling(downloads: map<string, App.Entry>, id: string,
                                      info: Background.DownloadInfo, parseError: string)
    requires id !in downloads
    ensures Background.ApplyPoll(info, PollResponseOf(App.CheckProgress(downloads, id), parseError))
            == (info.(progress := Background.ERROR_PREFIX + App.NOT_FOUND, active := false), Background.Stopped, None)
  {
  }

  /** On start-up the client adopts, of the server's unfinished downloads, one
      that started last, and leaves its record alone when there is none. */
  lemma ResumeAdoptsLatest(downloads: map<string, App.Entry>, order: seq<string>, info: Background.DownloadInfo)
    requires App.TableValid(downloads, order)
    ensures var after := Background.Resume(info, ListResponseOf(App.Listing(downloads, order)));
      && ((exists id :: id in downloads && App.IsListed(downloads[id])) ==>
            && after.active && after.id.Some?
            && after.id.value in downloads && App.IsListed(downloads[after.id.value])
            && after.progress == downloads[after.id.value].progress
            && after.filename == downloads[after.id.value].filename
            && after.url == downloads[after.id.value].url
            && forall id :: id in downloads && App.IsListed(downloads[id]) ==> downloads[id].startedAt <= downloads[after.id.value].startedAt)
      && ((forall id :: id in downloads ==> !App.IsListed(downloads[id])) ==> after == info)
  {
    var active := App.Listing(downloads, order);
    App.ListingHoldsListedOnly(downloads, order);
    App.ListingHoldsEveryListed(downloads, order);
    App.ListingIsLatestFirst(downloads, order);
    if exists id :: id in downloads && App.IsListed(downloads[id]) {
      var some :| some in downloads && App.IsListed(downloads[some]);
      assert App.Summarize(some, downloads[some]) in active;
      var first := active[0];
      forall id | id in downloads && App.IsListed(downloads[id])
        ensures downloads[id].startedAt <= downloads[first.id].startedAt
      {
        var k :| 0 <= k < |active| && active[k] == App.Summarize(id, downloads[id]);
        if k != 0 {
          assert downloads[active[0].id].startedAt >= downloads[active[k].id].startedAt;
        }
      }
    }
  }
}
