/** The server's download table (server/app.py): the global dictionary
    `downloads` from a download id to its entry, written by the start route,
    by the download thread and its progress hook, and by the cleanup thread,
    and read by the progress, file and active-list routes.

    Each request handler and each thread step runs as one atomic step. Ids,
    clock readings, what yt_dlp reports and what `secure_filename` makes of a
    name are parameters. */
module App {
  import opened Common
  import Text
  import Ansi

  const TMP_DIR := "/tmp"
  const MP3 := ".mp3"
  const FILE_URL_PREFIX := "https://music-ripper.onrender.com/get-file/"
  const PREPARING := "Preparing download..."
  const INITIALIZING := "Initializing download..."
  const PROCESSING := "Processing audio..."
  const DOWNLOAD_COMPLETE := "Download complete!"
  const ERROR_PREFIX := "Error: "
  const URL_REQUIRED := "YouTube URL is required"
  const PROCESSING_ERROR := "Error processing video: "
  const NOT_FOUND := "Download not found"
  const NOT_FOUND_OR_INCOMPLETE := "Download not found or not complete"
  const DEFAULT_TITLE := "video"

  /** The status vocabulary of an entry. */
  datatype Status = Starting | Downloading | Complete | Error
  {
    /** The string the server stores and sends. */
    function Wire(): (s: string)
    {
      match this
      case Starting => "starting"
      case Downloading => "downloading"
      case Complete => "complete"
      case Error => "error"
    }
  }

  /** One entry of `downloads`. `downloadUrl` is the `download_url` key, which
      only exists once the download completed. */
  datatype Entry = Entry(status: Status, progress: string, filename: string, filepath: Option<string>,
                         url: string, startedAt: int, downloadUrl: Option<string>)

  /** The `filename` member of the start request's JSON body: missing, a
      string, or a value of another JSON type, named by its Python type
      (`NoneType` for null, `int`, `float`, `bool`, `list`, `dict`). */
  datatype JsonField = Absent | Str(value: string) | NotString(typeName: string)

  /** The text of the `AttributeError` that `.strip()` raises on a value of
      another type than `str`. */
  function NoStrip(typeName: string): string
  {
    "'" + typeName + "' object has no attribute 'strip'"
  }

  /** What yt_dlp's metadata extraction gave: the `title` member if present,
      or the message of the exception it raised. */
  datatype Metadata = Extracted(title: Option<string>) | ExtractionFailed(message: string)

  datatype StartReply = Started(downloadId: string) | Refused(code: int, error: string)

  /** The reply of `check_progress`: 404, the entry's status and progress (with
      the file's url and name once complete), or a 500 from the `KeyError` that
      a complete entry without `download_url` would raise. */
  datatype ProgressReply =
    | ProgressNotFound
    | ProgressFound(status: Status, progress: string, completion: Option<Artifact>)
    | ProgressFailed

  /** The url and file name of a completed download. */
  datatype Artifact = Artifact(downloadUrl: string, filename: string)

  /** The reply of `get_file`: 404, or `send_file` of the entry's path under
      its file name. */
  datatype FileReply = FileNotFound(body: string) | FileSent(path: Option<string>, downloadName: string)

  /** One element of the list `active_downloads` returns. */
  datatype Summary = Summary(id: string, status: Status, progress: string, filename: string, url: string)

  /** The `d` argument of a progress hook call: a `downloading` event with its
      `_percent_str`, `_speed_str` and `_eta_str` members (None when absent)
      and the size in MiB as the hook prints it (None when the total is not
      positive), a `finished` event, or an event with any other status. */
  datatype HookEvent =
    | HookDownloading(percent: Option<string>, speed: Option<string>, eta: Option<string>, sizeMiB: Option<string>)
    | HookFinished
    | HookOther(status: string)

  /** `os.path.join(directory, name)` for a non-empty directory without a
      trailing slash: an absolute name replaces the directory. */
  function PathJoin(directory: string, name: string): (r: string)
    requires directory != [] && directory[|directory| - 1] != '/'
    ensures name != [] && name[0] == '/' ==> r == name
    ensures (name == [] || name[0] != '/') ==> r == directory + "/" + name
  {
    if name != [] && name[0] == '/' then name else directory + "/" + name
  }

  /** The path `process_download` gives the mp3. */
  function TempPath(id: string): string
  {
    PathJoin(TMP_DIR, id) + MP3
  }

  /** The url of the file route for `id`. */
  function FileUrl(id: string): string
  {
    FILE_URL_PREFIX + id
  }

  predicate EndsWithMp3(name: string)
  {
    |name| >= |MP3| && name[|name| - |MP3|..] == MP3
  }

  // ---------------------------------------------------------------------------
  // The start route's choice of file name

  /** `data.get('filename', '').strip()`: None when the member is not a
      string, whose `strip` raises. */
  function RequestedName(requested: JsonField): (r: Option<string>)
    ensures r.None? <==> requested.NotString?
  {
    match requested
    case Absent => Some("")
    case NotString(_) => None
    case Str(s) => Some(Text.Strip(s))
  }

  /** The file name of a new entry: the sanitised custom name when it is not
      empty after stripping, otherwise the sanitised title, with ".mp3"
      appended; None when the name is not a string. */
  function OutputFilename(requested: JsonField, title: string, secure: string -> string): (r: Option<string>)
    ensures r.None? <==> requested.NotString?
    ensures r.Some? ==> EndsWithMp3(r.value)
  {
    match RequestedName(requested)
    case None => None
    case Some(custom) =>
      var baseName := if custom != "" then secure(custom) else secure(title);
      Some(baseName + MP3)
  }

  /** A name of white space only, an empty name and a missing name all fall
      back to the title. */
  lemma BlankNameUsesTitle(requested: JsonField, title: string, secure: string -> string)
    requires requested.Absent? || (requested.Str? && forall k :: 0 <= k < |requested.value| ==> Text.IsSpace(requested.value[k]))
    ensures OutputFilename(requested, title, secure) == Some(secure(title) + MP3)
  {
    if requested.Str? {
      Text.StripEmptyIff(requested.value);
    }
  }

  /** A name with something other than white space is used, stripped, in
      place of the title. */
  lemma NamedFileIgnoresTitle(name: string, title: string, secure: string -> string)
    requires exists k :: 0 <= k < |name| && !Text.IsSpace(name[k])
    ensures OutputFilename(Str(name), title, secure) == Some(secure(Text.Strip(name)) + MP3)
  {
    Text.StripEmptyIff(name);
  }

  // ---------------------------------------------------------------------------
  // The table's invariant

  /** What every entry keeps from the moment it is inserted. */
  predicate Consistent(id: string, e: Entry)
  {
    && (e.status == Complete ==> e.downloadUrl == Some(FileUrl(id)))
    && (e.filepath.Some? ==> e.filepath == Some(TempPath(id)))
    && EndsWithMp3(e.filename)
  }

  /** `order` lists the keys of `downloads` once each, in insertion order
      (the order a dictionary iterates in), and every entry is consistent. */
  ghost predicate TableValid(downloads: map<string, Entry>, order: seq<string>)
  {
    && Distinct(order)
    && (forall k :: 0 <= k < |order| ==> order[k] in downloads)
    && (forall id :: id in downloads ==> id in order)
    && (forall id :: id in downloads ==> Consistent(id, downloads[id]))
  }

  /** No element of `s` occurs twice. */
  predicate Distinct(s: seq<string>)
  {
    forall i, j :: 0 <= i < j < |s| ==> s[i] != s[j]
  }

  /** `s` without `x`. */
  function Remove(s: seq<string>, x: string): (r: seq<string>)
    ensures forall y :: y in r <==> y in s && y != x
    ensures |r| <= |s|
  {
    if s == [] then []
    else if s[0] == x then Remove(s[1..], x)
    else [s[0]] + Remove(s[1..], x)
  }

  /** Removing an element keeps the others distinct. */
  lemma {:induction false} RemoveKeepsDistinct(s: seq<string>, x: string)
    requires Distinct(s)
    ensures Distinct(Remove(s, x))
    decreases |s|
  {
    if s != [] {
      assert Distinct(s[1..]) by {
        forall i, j | 0 <= i < j < |s[1..]| ensures s[1..][i] != s[1..][j] {
          assert s[1..][i] == s[i + 1] && s[1..][j] == s[j + 1];
        }
      }
      RemoveKeepsDistinct(s[1..], x);
      var t := Remove(s[1..], x);
      if s[0] != x {
        var r := [s[0]] + t;
        assert Remove(s, x) == r;
        assert s[0] !in s[1..] by {
          forall k | 0 <= k < |s[1..]| ensures s[1..][k] != s[0] {
            assert s[1..][k] == s[k + 1];
          }
        }
        assert s[0] !in t;
        forall i, j | 0 <= i < j < |r| ensures r[i] != r[j] {
          if i == 0 {
            assert r[j] == t[j - 1] && t[j - 1] in t;
          } else {
            assert r[i] == t[i - 1] && r[j] == t[j - 1];
          }
        }
      } else {
        assert Remove(s, x) == t;
      }
    }
  }

  /** A progress text written into an entry that exists; nothing else changes. */
  function WithProgress(downloads: map<string, Entry>, id: string, text: string): (r: map<string, Entry>)
    ensures r.Keys == downloads.Keys
    ensures forall k :: k in downloads && k != id ==> r[k] == downloads[k]
    ensures id in downloads ==> r[id] == downloads[id].(progress := text)
  {
    if id in downloads then downloads[id := downloads[id].(progress := text)] else downloads
  }

  function OrDefault(value: Option<string>, default: string): string
  {
    if value.Some? then value.value else default
  }

  /** The line the hook builds for a `downloading` event, before ANSI codes
      are removed. */
  function ProgressLine(percent: Option<string>, speed: Option<string>, eta: Option<string>, sizeMiB: Option<string>): string
  {
    var size := if sizeMiB.Some? then sizeMiB.value + " MiB" else "";
    Text.Strip(OrDefault(percent, "0%")) + ", " + size + " at " + Text.Strip(OrDefault(speed, "0 KiB/s"))
      + " ETA " + Text.Strip(OrDefault(eta, "unknown"))
  }

  /** What the progress hook writes for an event: the line with its ANSI codes
      removed while downloading, "Processing audio..." when finished, nothing
      otherwise. */
  function HookProgress(event: HookEvent): (text: Option<string>)
    ensures event.HookOther? <==> text.None?
    ensures event.HookFinished? ==> text == Some(PROCESSING)
    ensures event.HookDownloading? ==> |text.value| <= |ProgressLine(event.percent, event.speed, event.eta, event.sizeMiB)|
  {
    match event
    case HookDownloading(percent, speed, eta, sizeMiB) => Some(Ansi.StripAnsi(ProgressLine(percent, speed, eta, sizeMiB)))
    case HookFinished => Some(PROCESSING)
    case HookOther(_) => None
  }

  /** Text without ESC. */
  predicate Plain(s: string)
  {
    forall k :: 0 <= k < |s| ==> s[k] != Ansi.ESC
  }

  lemma PlainConcat(a: string, b: string)
    requires Plain(a) && Plain(b)
    ensures Plain(a + b)
  {
    forall k | 0 <= k < |a + b| ensures (a + b)[k] != Ansi.ESC {
      if k >= |a| {
        assert (a + b)[k] == b[k - |a|];
      }
    }
  }

  lemma StripKeepsPlain(s: string)
    requires Plain(s)
    ensures Plain(Text.Strip(s))
  {
    Text.StripIsTrimmedInfix(s);
  }

  /** The separators the hook puts between the members carry no ESC. */
  lemma PlainJoin(p: string, size: string, v: string, e: string)
    requires Plain(p) && Plain(size) && Plain(v) && Plain(e)
    ensures Plain(p + ", " + size + " at " + v + " ETA " + e)
  {
    PlainConcat(p, ", ");
    PlainConcat(p + ", ", size);
    PlainConcat(p + ", " + size, " at ");
    PlainConcat(p + ", " + size + " at ", v);
    PlainConcat(p + ", " + size + " at " + v, " ETA ");
    PlainConcat(p + ", " + size + " at " + v + " ETA ", e);
  }

  lemma PlainSize(sizeMiB: Option<string>)
    requires sizeMiB.Some? ==> Plain(sizeMiB.value)
    ensures Plain(if sizeMiB.Some? then sizeMiB.value + " MiB" else "")
  {
    if sizeMiB.Some? {
      PlainConcat(sizeMiB.value, " MiB");
    }
  }

  /** When no member of the event carries an ESC, the hook writes the line as
      built. */
  lemma PlainEventKeepsLine(percent: Option<string>, speed: Option<string>, eta: Option<string>, sizeMiB: Option<string>)
    requires Plain(OrDefault(percent, "0%")) && Plain(OrDefault(speed, "0 KiB/s")) && Plain(OrDefault(eta, "unknown"))
    requires sizeMiB.Some? ==> Plain(sizeMiB.value)
    ensures HookProgress(HookDownloading(percent, speed, eta, sizeMiB)) == Some(ProgressLine(percent, speed, eta, sizeMiB))
  {
    var p := Text.Strip(OrDefault(percent, "0%"));
    var v := Text.Strip(OrDefault(speed, "0 KiB/s"));
    var e := Text.Strip(OrDefault(eta, "unknown"));
    var size := if sizeMiB.Some? then sizeMiB.value + " MiB" else "";
    StripKeepsPlain(OrDefault(percent, "0%"));
    StripKeepsPlain(OrDefault(speed, "0 KiB/s"));
    StripKeepsPlain(OrDefault(eta, "unknown"));
    PlainSize(sizeMiB);
    PlainJoin(p, size, v, e);
    var line := ProgressLine(percent, speed, eta, sizeMiB);
    assert line == p + ", " + size + " at " + v + " ETA " + e;
    Ansi.StripWithoutEscape(line);
  }

  /** Colour codes around the percentage are removed and the rest of the line
      is kept: a percentage written as `code + p + reset` with both codes
      escape sequences and no ESC elsewhere shows as the plain line. */
  lemma ColouredPercentIsCleaned(code: string, p: string, reset: string, rest: string)
    requires Ansi.IsEscapeSequence(code) && Ansi.IsEscapeSequence(reset)
    requires Plain(p) && Plain(rest)
    ensures Ansi.StripAnsi(code + p + reset + rest) == p + rest
  {
    var tail := reset + rest;
    var mid := p + tail;
    calc {
      Ansi.StripAnsi(code + p + reset + rest);
      { RegroupFour(code, p, reset, rest); }
      Ansi.StripAnsi(code + mid);
      { Ansi.StripDropsEscapeSequence(code, mid); }
      Ansi.StripAnsi(mid);
      { Ansi.StripKeepsPlainPrefix(p, tail); }
      p + Ansi.StripAnsi(tail);
      { Ansi.StripDropsEscapeSequence(reset, rest); Ansi.StripWithoutEscape(rest); }
      p + rest;
    }
  }

  lemma RegroupFour(a: string, b: string, c: string, d: string)
    ensures a + b + c + d == a + (b + (c + d))
  {
    assert a + b + c == a + (b + c);
    assert (a + (b + c)) + d == a + ((b + c) + d);
    assert (b + c) + d == b + (c + d);
  }

  // ---------------------------------------------------------------------------
  // The read-only routes

  /** `check_progress(id)`. */
  function CheckProgress(downloads: map<string, Entry>, id: string): (r: ProgressReply)
    ensures r.ProgressNotFound? <==> id !in downloads
    ensures r.ProgressFound? ==> r.status == downloads[id].status && r.progress == downloads[id].progress
    ensures r.ProgressFound? ==> (r.completion.Some? <==> r.status == Complete)
    ensures r.ProgressFound? && r.completion.Some? ==>
              downloads[id].downloadUrl == Some(r.completion.value.downloadUrl) && r.completion.value.filename == downloads[id].filename
    ensures r.ProgressFailed? <==> id in downloads && downloads[id].status == Complete && downloads[id].downloadUrl.None?
  {
    if id !in downloads then ProgressNotFound
    else
      var e := downloads[id];
      if e.status == Complete then
        if e.downloadUrl.None? then ProgressFailed
        else ProgressFound(e.status, e.progress, Some(Artifact(e.downloadUrl.value, e.filename)))
      else ProgressFound(e.status, e.progress, None)
  }

  /** On a consistent table the progress route never fails, and a complete
      entry's reply carries the file route's url for its own id. */
  lemma ProgressOfValidTable(downloads: map<string, Entry>, order: seq<string>, id: string)
    requires TableValid(downloads, order)
    ensures !CheckProgress(downloads, id).ProgressFailed?
    ensures id in downloads && downloads[id].status == Complete ==>
              CheckProgress(downloads, id) == ProgressFound(Complete, downloads[id].progress, Some(Artifact(FileUrl(id), downloads[id].filename)))
  {
    if id in downloads {
      assert Consistent(id, downloads[id]);
    }
  }

  /** `get_file(id)`: the file is sent only for a complete entry; otherwise
      the 404 carries a plain-text body. */
  function GetFile(downloads: map<string, Entry>, id: string): (r: FileReply)
    ensures r.FileSent? <==> id in downloads && downloads[id].status == Complete
    ensures r.FileNotFound? ==> r.body == NOT_FOUND_OR_INCOMPLETE
    ensures r.FileSent? ==> r.path == downloads[id].filepath && r.downloadName == downloads[id].filename
  {
    if id !in downloads || downloads[id].status != Complete then FileNotFound(NOT_FOUND_OR_INCOMPLETE)
    else FileSent(downloads[id].filepath, downloads[id].filename)
  }

  // ---------------------------------------------------------------------------
  // The active list

  /** `active_downloads` lists the entries that are neither failed nor complete. */
  predicate IsListed(e: Entry)
  {
    e.status != Error && e.status != Complete
  }

  function Summarize(id: string, e: Entry): Summary
  {
    Summary(id, e.status, e.progress, e.filename, e.url)
  }

  /** A listed entry with its sort key. */
  datatype Ranked = Ranked(summary: Summary, startedAt: int)

  function RankedOf(downloads: map<string, Entry>, id: string): Ranked
    requires id in downloads
  {
    Ranked(Summarize(id, downloads[id]), downloads[id].startedAt)
  }

  /** The list the loop builds from the ids `ids`, in their order. */
  function Collect(downloads: map<string, Entry>, ids: seq<string>): seq<Ranked>
    requires forall k :: 0 <= k < |ids| ==> ids[k] in downloads
  {
    if ids == [] then []
    else
      var last := ids[|ids| - 1];
      Collect(downloads, ids[..|ids| - 1]) + (if IsListed(downloads[last]) then [RankedOf(downloads, last)] else [])
  }

  /** The collected list holds exactly the listed entries among `ids`. */
  lemma {:induction false} CollectMembers(downloads: map<string, Entry>, ids: seq<string>)
    requires forall k :: 0 <= k < |ids| ==> ids[k] in downloads
    ensures forall x :: x in Collect(downloads, ids) <==>
      x.summary.id in ids && x.summary.id in downloads && IsListed(downloads[x.summary.id]) && x == RankedOf(downloads, x.summary.id)
    decreases |ids|
  {
    if ids != [] {
      var init := ids[..|ids| - 1];
      CollectMembers(downloads, init);
      assert ids == init + [ids[|ids| - 1]];
      forall y ensures y in ids <==> y in init || y == ids[|ids| - 1] {
      }
    }
  }

  /** `xs` is ordered by start time, latest first. */
  predicate LatestFirst(xs: seq<Ranked>)
  {
    forall i, j :: 0 <= i < j < |xs| ==> xs[i].startedAt >= xs[j].startedAt
  }

  /** Inserts `x` before the first element that did not start later, so that
      among equal start times the earlier element stays first. */
  function InsertByStart(x: Ranked, xs: seq<Ranked>): (r: seq<Ranked>)
    ensures multiset(r) == multiset(xs) + multiset{x}
  {
    if xs == [] || x.startedAt >= xs[0].startedAt then [x] + xs
    else
      assert xs == [xs[0]] + xs[1..];
      [xs[0]] + InsertByStart(x, xs[1..])
  }

  /** An element that started no earlier than any of a latest-first list can
      go in front of it. */
  lemma PrependLatest(x: Ranked, xs: seq<Ranked>)
    requires LatestFirst(xs)
    requires forall k :: 0 <= k < |xs| ==> x.startedAt >= xs[k].startedAt
    ensures LatestFirst([x] + xs)
  {
    var r := [x] + xs;
    forall i, j | 0 <= i < j < |r| ensures r[i].startedAt >= r[j].startedAt {
      assert r[j] == xs[j - 1];
      if i > 0 {
        assert r[i] == xs[i - 1];
      }
    }
  }

  lemma {:induction false} InsertKeepsOrder(x: Ranked, xs: seq<Ranked>)
    requires LatestFirst(xs)
    ensures LatestFirst(InsertByStart(x, xs))
    decreases |xs|
  {
    if xs == [] || x.startedAt >= xs[0].startedAt {
      PrependLatest(x, xs);
    } else {
      var tail := xs[1..];
      assert LatestFirst(tail) by {
        forall i, j | 0 <= i < j < |tail| ensures tail[i].startedAt >= tail[j].startedAt {
          assert tail[i] == xs[i + 1] && tail[j] == xs[j + 1];
        }
      }
      InsertKeepsOrder(x, tail);
      var t := InsertByStart(x, tail);
      forall k | 0 <= k < |t| ensures xs[0].startedAt >= t[k].startedAt {
        var y := t[k];
        assert y in multiset(t);
        if y != x {
          assert y in multiset(tail);
          var i :| 0 <= i < |tail| && tail[i] == y;
          assert xs[i + 1] == y;
        }
      }
      PrependLatest(xs[0], t);
    }
  }

  /** `list.sort(key=started_at, reverse=True)`: a stable sort, latest first. */
  function SortByStart(xs: seq<Ranked>): (r: seq<Ranked>)
    ensures multiset(r) == multiset(xs)
  {
    if xs == [] then []
    else
      assert xs == [xs[0]] + xs[1..];
      InsertByStart(xs[0], SortByStart(xs[1..]))
  }

  lemma {:induction false} SortByStartIsOrdered(xs: seq<Ranked>)
    ensures LatestFirst(SortByStart(xs))
    decreases |xs|
  {
    if xs != [] {
      SortByStartIsOrdered(xs[1..]);
      InsertKeepsOrder(xs[0], SortByStart(xs[1..]));
    }
  }

  /** A list already ordered latest first is left as it is: among equal start
      times nothing is reordered. */
  lemma {:induction false} SortByStartKeepsOrdered(xs: seq<Ranked>)
    requires LatestFirst(xs)
    ensures SortByStart(xs) == xs
    decreases |xs|
  {
    if xs != [] {
      SortByStartKeepsOrdered(xs[1..]);
      assert xs == [xs[0]] + xs[1..];
    }
  }

  function Summaries(xs: seq<Ranked>): (r: seq<Summary>)
    ensures |r| == |xs| && forall k :: 0 <= k < |xs| ==> r[k] == xs[k].summary
  {
    seq(|xs|, k requires 0 <= k < |xs| => xs[k].summary)
  }

  /** The list `active_downloads` returns for a table whose keys iterate in
      the order `order`. */
  function Listing(downloads: map<string, Entry>, order: seq<string>): seq<Summary>
    requires forall k :: 0 <= k < |order| ==> order[k] in downloads
  {
    Summaries(SortByStart(Collect(downloads, order)))
  }

  /** Sorting keeps exactly the elements it was given. */
  lemma SortKeepsMembers(xs: seq<Ranked>)
    ensures forall x :: x in SortByStart(xs) <==> x in xs
  {
    var ys := SortByStart(xs);
    forall x ensures x in ys <==> x in xs {
      assert x in ys <==> x in multiset(ys);
    }
  }

  /** Every listed summary is the summary of a listed entry of the table, and
      carries that entry's start time. */
  lemma ListingHoldsListedOnly(downloads: map<string, Entry>, order: seq<string>)
    requires forall k :: 0 <= k < |order| ==> order[k] in downloads
    ensures var active := Listing(downloads, order);
      forall k :: 0 <= k < |active| ==>
        active[k].id in downloads && IsListed(downloads[active[k].id]) && active[k] == Summarize(active[k].id, downloads[active[k].id])
  {
    var sorted := SortByStart(Collect(downloads, order));
    CollectMembers(downloads, order);
    SortKeepsMembers(Collect(downloads, order));
    forall k | 0 <= k < |sorted|
      ensures sorted[k].summary.id in downloads && IsListed(downloads[sorted[k].summary.id])
      ensures sorted[k].summary == Summarize(sorted[k].summary.id, downloads[sorted[k].summary.id])
    {
      assert sorted[k] in sorted;
    }
  }

  /** Every entry that is neither failed nor complete is listed. */
  lemma ListingHoldsEveryListed(downloads: map<string, Entry>, order: seq<string>)
    requires TableValid(downloads, order)
    ensures forall id :: id in downloads && IsListed(downloads[id]) ==> Summarize(id, downloads[id]) in Listing(downloads, order)
  {
    var collected := Collect(downloads, order);
    var sorted := SortByStart(collected);
    CollectMembers(downloads, order);
    SortKeepsMembers(collected);
    forall id | id in downloads && IsListed(downloads[id]) ensures Summarize(id, downloads[id]) in Listing(downloads, order) {
      var x := RankedOf(downloads, id);
      assert x in collected;
      var k :| 0 <= k < |sorted| && sorted[k] == x;
      assert Listing(downloads, order)[k] == x.summary;
    }
  }

  /** The list runs from the latest start to the earliest. */
  lemma ListingIsLatestFirst(downloads: map<string, Entry>, order: seq<string>)
    requires forall k :: 0 <= k < |order| ==> order[k] in downloads
    ensures var active := Listing(downloads, order);
      forall i, j :: 0 <= i < j < |active| ==> active[i].id in downloads && active[j].id in downloads &&
                                                downloads[active[i].id].startedAt >= downloads[active[j].id].startedAt
  {
    var sorted := SortByStart(Collect(downloads, order));
    CollectMembers(downloads, order);
    SortKeepsMembers(Collect(downloads, order));
    SortByStartIsOrdered(Collect(downloads, order));
    forall k | 0 <= k < |sorted|
      ensures sorted[k].summary.id in downloads && sorted[k].startedAt == downloads[sorted[k].summary.id].startedAt
    {
      assert sorted[k] in sorted;
    }
  }

  // ---------------------------------------------------------------------------
  // The table

  /** No two elements of `xs` are about the same id. */
  predicate DistinctIds(xs: seq<Ranked>)
  {
    forall i, j :: 0 <= i < j < |xs| ==> xs[i].summary.id != xs[j].summary.id
  }

  /** Collecting over ids without repeats lists each id at most once. */
  lemma {:induction false} CollectDistinct(downloads: map<string, Entry>, ids: seq<string>)
    requires forall k :: 0 <= k < |ids| ==> ids[k] in downloads
    requires Distinct(ids)
    ensures DistinctIds(Collect(downloads, ids))
    decreases |ids|
  {
    if ids != [] {
      var init := ids[..|ids| - 1];
      var last := ids[|ids| - 1];
      CollectDistinct(downloads, init);
      CollectMembers(downloads, init);
      var c := Collect(downloads, init);
      forall k | 0 <= k < |c| ensures c[k].summary.id != last {
        assert c[k] in c;
        var m :| 0 <= m < |init| && init[m] == c[k].summary.id;
        assert ids[m] == init[m];
      }
    }
  }

  /** In a list without repeated ids each element occurs at most once. */
  lemma {:induction false} DistinctIdsCount(xs: seq<Ranked>, x: Ranked)
    requires DistinctIds(xs)
    ensures multiset(xs)[x] <= 1
    decreases |xs|
  {
    if xs != [] {
      assert xs == [xs[0]] + xs[1..];
      DistinctIdsCount(xs[1..], x);
      if x == xs[0] {
        assert x !in xs[1..] by {
          forall k | 0 <= k < |xs[1..]| ensures xs[1..][k] != x {
            assert xs[1..][k] == xs[k + 1];
          }
        }
      }
    }
  }

  /** An element at two positions occurs at least twice. */
  lemma RepeatCount(ys: seq<Ranked>, i: int, j: int)
    requires 0 <= i < j < |ys| && ys[i] == ys[j]
    ensures multiset(ys)[ys[i]] >= 2
  {
    assert ys == ys[..j] + [ys[j]] + ys[j + 1..];
    assert ys[..j][i] == ys[i];
  }

  /** A reordering of a list without repeated ids has none either. */
  lemma PermutationKeepsDistinctIds(xs: seq<Ranked>, ys: seq<Ranked>)
    requires multiset(xs) == multiset(ys) && DistinctIds(xs)
    ensures DistinctIds(ys)
  {
    forall i, j | 0 <= i < j < |ys| ensures ys[i].summary.id != ys[j].summary.id {
      if ys[i] == ys[j] {
        RepeatCount(ys, i, j);
        DistinctIdsCount(xs, ys[i]);
      } else {
        assert ys[i] in multiset(xs) && ys[j] in multiset(xs);
        var p :| 0 <= p < |xs| && xs[p] == ys[i];
        var q :| 0 <= q < |xs| && xs[q] == ys[j];
        assert p != q;
      }
    }
  }

  /** Each entry that is neither failed nor complete is listed only once. */
  lemma ListingIsDistinct(downloads: map<string, Entry>, order: seq<string>)
    requires TableValid(downloads, order)
    ensures var active := Listing(downloads, order);
      forall i, j :: 0 <= i < j < |active| ==> active[i].id != active[j].id
  {
    var collected := Collect(downloads, order);
    CollectDistinct(downloads, order);
    PermutationKeepsDistinctIds(collected, SortByStart(collected));
  }

  /** Storing a consistent entry keeps the table valid, with the id appended
      to the iteration order when it is new. */
  lemma StoreKeepsValid(downloads: map<string, Entry>, order: seq<string>, id: string, e: Entry)
    requires TableValid(downloads, order) && Consistent(id, e)
    ensures TableValid(downloads[id := e], if id in downloads then order else order + [id])
  {
    if id !in downloads {
      var order' := order + [id];
      assert id !in order;
      forall i, j | 0 <= i < j < |order'| ensures order'[i] != order'[j] {
        assert order'[i] == order[i];
        if j < |order| {
          assert order'[j] == order[j];
        }
      }
      forall k | 0 <= k < |order'| ensures order'[k] in downloads[id := e] {
        if k < |order| {
          assert order'[k] == order[k];
        }
      }
      forall k | k in downloads[id := e] ensures k in order' {
        if k != id {
          assert k in order;
        } else {
          assert order'[|order|] == id;
        }
      }
    }
  }

  class DownloadTable {
    /** `downloads`. */
    var downloads: map<string, Entry>
    /** The keys of `downloads` in the order the dictionary iterates them. */
    var order: seq<string>

    ghost predicate Valid()
      reads this
    {
      TableValid(downloads, order)
    }

    /** The empty table the server starts with. */
    constructor ()
      ensures Valid() && downloads == map[] && order == []
    {
      downloads, order := map[], [];
    }

    /** `download_with_progress`: validates the url, reads the title, picks the
        file name and inserts a new entry under `newId`. The `url` member is
        None when it is missing or JSON null. */
    method DownloadWithProgress(url: Option<string>, filename: JsonField, newId: string, metadata: Metadata,
                                secure: string -> string, now: int) returns (reply: StartReply)
      requires Valid()
      modifies this
      ensures Valid()
      ensures url.None? || url.value == "" ==>
                reply == Refused(400, URL_REQUIRED) && downloads == old(downloads) && order == old(order)
      ensures url.Some? && url.value != "" && metadata.ExtractionFailed? ==>
                reply == Refused(500, PROCESSING_ERROR + metadata.message) && downloads == old(downloads) && order == old(order)
      ensures url.Some? && url.value != "" && metadata.Extracted? && filename.NotString? ==>
                reply == Refused(500, PROCESSING_ERROR + NoStrip(filename.typeName)) && downloads == old(downloads) && order == old(order)
      ensures url.Some? && url.value != "" && metadata.Extracted? && !filename.NotString? ==>
                && reply == Started(newId)
                && (var name := OutputFilename(filename, if metadata.title.Some? then metadata.title.value else DEFAULT_TITLE, secure).value;
                    downloads == old(downloads)[newId := Entry(Starting, PREPARING, name, None, url.value, now, None)])
                && order == if newId in old(downloads) then old(order) else old(order) + [newId]
    {
      if url.None? || url.value == "" {
        return Refused(400, URL_REQUIRED);
      }
      if metadata.ExtractionFailed? {
        return Refused(500, PROCESSING_ERROR + metadata.message);
      }
      var title := if metadata.title.Some? then metadata.title.value else DEFAULT_TITLE;
      var name := OutputFilename(filename, title, secure);
      if name.None? {
        return Refused(500, PROCESSING_ERROR + NoStrip(filename.typeName));
      }
      var entry := Entry(Starting, PREPARING, name.value, None, url.value, now, None);
      StoreKeepsValid(downloads, order, newId, entry);
      if newId !in downloads {
        order := order + [newId];
      }
      downloads := downloads[newId := entry];
      reply := Started(newId);
    }

    /** The first writes of `process_download`: the path, then the status. */
    method ProcessDownloadBegins(id: string)
      requires Valid()
      modifies this
      ensures Valid() && order == old(order)
      ensures downloads == if id in old(downloads)
                           then old(downloads)[id := old(downloads)[id].(filepath := Some(TempPath(id)), status := Downloading)]
                           else old(downloads)
    {
      if id in downloads {
        downloads := downloads[id := downloads[id].(filepath := Some(TempPath(id)), status := Downloading)];
      }
    }

    /** `downloads[id]['progress'] = text`, skipped (as the `KeyError` would
        skip it) when the id is gone. */
    method SetProgress(id: string, text: string)
      requires Valid()
      modifies this
      ensures Valid() && order == old(order)
      ensures downloads == WithProgress(old(downloads), id, text)
    {
      downloads := WithProgress(downloads, id, text);
    }

    /** The end of `process_download` once yt_dlp returned or raised. */
    method ProcessDownloadEnds(id: string, download: Outcome)
      requires Valid()
      modifies this
      ensures Valid() && order == old(order)
      ensures download.Pass? ==> downloads == if id in old(downloads)
        then old(downloads)[id := old(downloads)[id].(status := Complete, progress := DOWNLOAD_COMPLETE, downloadUrl := Some(FileUrl(id)))]
        else old(downloads)
      ensures download.Fail? ==> downloads == if id in old(downloads)
        then old(downloads)[id := old(downloads)[id].(status := Error, progress := ERROR_PREFIX + download.message)]
        else old(downloads)
      ensures download.Pass? && id in old(downloads) ==>
        CheckProgress(downloads, id) == ProgressFound(Complete, DOWNLOAD_COMPLETE, Some(Artifact(FileUrl(id), downloads[id].filename)))
    {
      if id in downloads {
        match download
        case Pass =>
          downloads := downloads[id := downloads[id].(status := Complete, progress := DOWNLOAD_COMPLETE, downloadUrl := Some(FileUrl(id)))];
        case Fail(message) =>
          downloads := downloads[id := downloads[id].(status := Error, progress := ERROR_PREFIX + message)];
      }
    }

    /** `cleanup_after_delay` once its sleep is over: the entry is deleted if
        it is still there; afterwards both the progress and the file route
        answer 404 for it. */
    method CleanupAfterDelay(id: string)
      requires Valid()
      modifies this
      ensures Valid()
      ensures downloads == old(downloads) - {id}
      ensures id in old(downloads) ==> order == Remove(old(order), id)
      ensures id !in old(downloads) ==> order == old(order)
      ensures CheckProgress(downloads, id) == ProgressNotFound && GetFile(downloads, id) == FileNotFound(NOT_FOUND_OR_INCOMPLETE)
    {
      if id in downloads {
        RemoveKeepsDistinct(order, id);
        var rest := Remove(order, id);
        forall k | 0 <= k < |rest| ensures rest[k] in downloads - {id} {
          assert rest[k] in rest;
        }
        downloads := downloads - {id};
        order := rest;
      }
    }

    /** `active_downloads`: the listed entries, latest start first; the table
        is not changed. */
    method ActiveDownloads() returns (active: seq<Summary>)
      requires Valid()
      ensures active == Listing(downloads, order)
      ensures forall k :: 0 <= k < |active| ==>
                active[k].id in downloads && IsListed(downloads[active[k].id]) && active[k] == Summarize(active[k].id, downloads[active[k].id])
      ensures forall id :: id in downloads && IsListed(downloads[id]) ==> Summarize(id, downloads[id]) in active
      ensures forall i, j :: 0 <= i < j < |active| ==> downloads[active[i].id].startedAt >= downloads[active[j].id].startedAt
      ensures forall i, j :: 0 <= i < j < |active| ==> active[i].id != active[j].id
    {
      var collected: seq<Ranked> := [];
      var i := 0;
      while i < |order|
        invariant 0 <= i <= |order|
        invariant collected == Collect(downloads, order[..i])
      {
        var id := order[i];
        assert order[..i + 1] == order[..i] + [id];
        if IsListed(downloads[id]) {
          collected := collected + [RankedOf(downloads, id)];
        }
        i := i + 1;
      }
      assert order[..i] == order;
      active := Summaries(SortByStart(collected));
      ListingHoldsListedOnly(downloads, order);
      ListingHoldsEveryListed(downloads, order);
      ListingIsLatestFirst(downloads, order);
      ListingIsDistinct(downloads, order);
    }
  }

  /** `DownloadProgressHook`: bound to one id, it writes only that entry's
      progress. */
  class ProgressHook {
    const downloadId: string
    const table: DownloadTable

    /** Construction sets the entry's progress to "Initializing download...". */
    constructor (table: DownloadTable, downloadId: string)
      requires table.Valid()
      modifies table
      ensures this.table == table && this.downloadId == downloadId
      ensures table.Valid() && table.order == old(table.order)
      ensures table.downloads == WithProgress(old(table.downloads), downloadId, INITIALIZING)
    {
      this.downloadId := downloadId;
      this.table := table;
      new;
      table.SetProgress(downloadId, INITIALIZING);
    }

    /** `__call__(d)`: a downloading or finished event rewrites the progress
        of this hook's entry; any other event changes nothing. */
    method Call(event: HookEvent)
      requires table.Valid()
      modifies table
      ensures table.Valid() && table.order == old(table.order)
      ensures table.downloads == match HookProgress(event)
                                 case Some(text) => WithProgress(old(table.downloads), downloadId, text)
                                 case None => old(table.downloads)
    {
      match HookProgress(event)
      case Some(text) => table.SetProgress(downloadId, text);
      case None =>
    }
  }
}
