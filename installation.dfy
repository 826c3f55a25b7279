/** The install pipeline of electron/services/installation.service.js:
    download the archive into `<installPath>/Ether/<gameFolderName>/game.zip`,
    extract it next to itself, validate the directory, delete the archive.
    The network and the archive library are scripts given as inputs; the disk
    is a `Fs` value passed in and returned. */
module Installation {

  import opened Wrappers
  import opened FileSystem
  import opened Progress

  /** What `onProgress` receives. The MB and MB/s texts (`toFixed`) are not
      modelled; the download event keeps its percent and ETA text. */
  datatype Event = DownloadProgress(percent: int, eta: string) | ExtractProgress(percent: int)

  /** How the transfer behaves: the request fails before any byte arrives,
      or the body streams in through progress ticks and the file write then
      finishes or fails with an error. */
  datatype TransferScript =
    | RequestFailed(reason: string)
    | Streamed(ticks: seq<Tick>, writeError: Option<string>)

  /** How `extractAllToAsync` ends: every entry written, or an error after
      the entries with the top-level names `written` had already been written
      (nothing is rolled back). */
  datatype Extraction = Extracted | ExtractFailed(error: string, written: set<string>)

  /** How the archive library behaves: opening the archive throws, or it has
      `entryCount` entries whose top-level names are `names`, the polling timer
      fires `pollsBeforeDone` times before the extraction callback runs, and
      the callback reports how the extraction ended. */
  datatype ArchiveScript =
    | Unreadable(reason: string)
    | Archive(names: set<string>, entryCount: nat, pollsBeforeDone: nat, outcome: Extraction)

  /** `{ success: true, path: gamePath }` */
  datatype InstallResult = InstallResult(success: bool, path: Path)

  const ValidationFailed: string := "Installation validation failed"

  /** The archive library's error for a path that does not exist. */
  const InvalidFilename: string := "Invalid filename"

  /** `fs.mkdir` on a path that is a file. */
  function MkdirOnFile(p: Path): string
  {
    "EEXIST: file already exists, mkdir '" + Render(p) + "'"
  }

  /** `createWriteStream` on a path that is a directory. */
  function OpenDirectory(p: Path): string
  {
    "EISDIR: illegal operation on a directory, open '" + Render(p) + "'"
  }

  /** `readFileSync` in the archive library on a path that is a directory. */
  const ReadDirectory: string := "EISDIR: illegal operation on a directory, read"

  // ---------------------------------------------------------------------
  // Download

  /** The start time every tick of one transfer measures from: the one left
      over in `downloadStart`, else the first tick's clock. */
  function StartOf(start0: Option<int>, ticks: seq<Tick>): int
    requires start0.Some? || ticks != []
  {
    if start0.Some? then start0.value else ticks[0].now
  }

  /** The event one tick sends. */
  function TickEvent(t: Tick, start: int): (e: Event)
    ensures e.DownloadProgress? && e.percent == DownloadPercent(t.loaded, t.total)
    ensures e.eta == EtaText(TickEta(t, start))
  {
    DownloadProgress(DownloadPercent(t.loaded, t.total), EtaText(TickEta(t, start)))
  }

  /** `f` applied to each element, built from the front as the elements
      arrive. */
  function MapSeq<T, U>(f: T -> U, s: seq<T>): (r: seq<U>)
    ensures |r| == |s|
    ensures forall k :: 0 <= k < |s| ==> r[k] == f(s[k])
  {
    if s == [] then [] else MapSeq(f, s[..|s| - 1]) + [f(s[|s| - 1])]
  }

  /** The events of a run of ticks all measured from `start`. */
  function EventsFrom(start: int, ticks: seq<Tick>): seq<Event>
  {
    MapSeq((t: Tick) => TickEvent(t, start), ticks)
  }

  /** The events a run of ticks sends, one per tick. */
  function DownloadEvents(start0: Option<int>, ticks: seq<Tick>): (es: seq<Event>)
    ensures |es| == |ticks|
    ensures forall k :: 0 <= k < |ticks| ==> es[k] == TickEvent(ticks[k], StartOf(start0, ticks))
  {
    if ticks == [] then []
    else EventsFrom(StartOf(start0, ticks), ticks)
  }

  /** `fs.mkdir(dir, { recursive: true })` on a path that is not a file:
      an existing directory stays as it is. Ancestors are not modelled. */
  function EnsureDir(fs: Fs, p: Path): (fs': Fs)
    requires !(p in fs && fs[p].File?)
    ensures p in fs' && fs'[p].Dir?
    ensures p in fs ==> fs' == fs
    ensures forall q :: q != p ==> (q in fs' <==> q in fs) && (q in fs ==> fs'[q] == fs[q])
  {
    if p in fs then fs else fs[p := Dir(true)]
  }

  // ---------------------------------------------------------------------
  // Extraction

  /** How many times the polling timer fires before the extraction callback:
      it stops itself once the counter reaches the entry count (after one
      tick when there are no entries). */
  function PollsBeforeSettle(entryCount: nat, pollsBeforeDone: nat): (n: nat)
    ensures n <= pollsBeforeDone && (n <= entryCount || n == 1)
    ensures n == pollsBeforeDone || n == entryCount || (entryCount == 0 && n == 1)
    ensures entryCount == 0 && pollsBeforeDone > 0 ==> n == 1
  {
    var cap := if entryCount == 0 then 1 else entryCount;
    if pollsBeforeDone < cap then pollsBeforeDone else cap
  }

  /** The polled events of ticks `from + 1` up to `to`. */
  function PollEvents(from: nat, to: nat, entryCount: nat): (es: seq<Event>)
    requires from <= to
    ensures |es| == to - from
    ensures forall k :: 0 <= k < |es| ==> es[k] == ExtractProgress(PollPercent(from + k + 1, entryCount))
  {
    seq(to - from, k requires 0 <= k < to - from => ExtractProgress(PollPercent(from + k + 1, entryCount)))
  }

  /** What the extraction phase reports until its promise settles: the polls
      that fired first and, on success, the final 100. */
  function SettledExtractTrace(entryCount: nat, pollsBeforeDone: nat, ok: bool): (es: seq<Event>)
    ensures var n := PollsBeforeSettle(entryCount, pollsBeforeDone);
      && |es| == n + (if ok then 1 else 0)
      && (forall k :: 0 <= k < n ==> es[k] == ExtractProgress(PollPercent(k + 1, entryCount)))
      && (ok ==> es[n] == ExtractProgress(100))
  {
    PollEvents(0, PollsBeforeSettle(entryCount, pollsBeforeDone), entryCount)
      + (if ok then [ExtractProgress(100)] else [])
  }

  /** Every event the progress sink receives from one extraction, as written:
      the timer is cleared only by its own count, never by the completion
      callback, so the polls that had not fired yet arrive after the 100. */
  function AsWrittenExtractTrace(entryCount: nat, pollsBeforeDone: nat, ok: bool): (es: seq<Event>)
    ensures var settled := SettledExtractTrace(entryCount, pollsBeforeDone, ok);
      var extra := if ok then 1 else 0;
      && |es| == (if entryCount == 0 then 1 else entryCount) + extra
      && es[..|settled|] == settled
      && forall k :: |settled| <= k < |es| ==> es[k] == ExtractProgress(PollPercent(k - extra + 1, entryCount))
  {
    var cap := if entryCount == 0 then 1 else entryCount;
    var before := PollsBeforeSettle(entryCount, pollsBeforeDone);
    SettledExtractTrace(entryCount, pollsBeforeDone, ok) + PollEvents(before, cap, entryCount)
  }

  /** The settled trace is extraction events only, every poll is below 100,
      and a successful extraction ends on exactly 100. */
  lemma SettledTraceShape(entryCount: nat, pollsBeforeDone: nat, ok: bool)
    ensures var es := SettledExtractTrace(entryCount, pollsBeforeDone, ok);
      && (forall k :: 0 <= k < |es| ==> es[k].ExtractProgress?)
      && (ok <==> |es| > 0 && es[|es| - 1] == ExtractProgress(100))
      && (forall k :: 0 <= k < |es| && (!ok || k < |es| - 1) ==> 0 <= es[k].percent <= 99)
  {
  }

  /** The finding: with 10 entries and a callback after two polls, the sink
      sees 10, 20, then 100, then eight more polls, the last one at 99. */
  lemma TrailingPollsAfterCompletion()
    ensures var es := AsWrittenExtractTrace(10, 2, true);
      && |es| == 11
      && es[2] == ExtractProgress(100)
      && es[10] == ExtractProgress(99)
  {
  }

  /** `q` is `dir/<n>` for one of the names `n`. */
  predicate IsFileOf(q: Path, dir: Path, names: set<string>)
  {
    |q| == |dir| + 1 && q[..|dir|] == dir && q[|dir|] in names
  }

  /** `extractAllToAsync(extractPath, true, ...)`: every top-level name of the
      archive becomes a file in the game directory, overwriting what was there. */
  function AddFiles(fs: Fs, dir: Path, names: set<string>): (fs': Fs)
    ensures forall n :: n in names ==> dir + [n] in fs' && fs'[dir + [n]] == File
    ensures forall q :: q in fs && !IsFileOf(q, dir, names) ==> q in fs' && fs'[q] == fs[q]
    ensures forall q :: q in fs' ==> q in fs || IsFileOf(q, dir, names)
  {
    fs + map n | n in names :: dir + [n] := File
  }

  // ---------------------------------------------------------------------
  // Validation, cleanup, installed check, uninstall

  /** `validateInstallation`: true iff the path can be stat'ed, is a
      directory, and can be listed with at least one entry. */
  function ValidateInstallation(fs: Fs, gamePath: Path): (valid: bool)
    ensures valid <==> gamePath in fs && fs[gamePath] == Dir(true) && Entries(fs, gamePath) != {}
  {
    match Stat(fs, gamePath)
    case Err(_) => false
    case Ok(node) =>
      if !node.Dir? then false
      else
        match Readdir(fs, gamePath)
        case Err(_) => false
        case Ok(names) => |names| != 0
  }

  /** The archive is itself an entry of the game directory, so as long as it
      is still there validation can only fail on an unreadable directory. */
  lemma ArchiveMakesDirectoryNonEmpty(fs: Fs, gamePath: Path)
    requires gamePath in fs && fs[gamePath].Dir?
    requires ArchivePath(gamePath) in fs
    ensures ValidateInstallation(fs, gamePath) <==> fs[gamePath].readable
  {
    var q := ArchivePath(gamePath);
    assert Within(q, gamePath) && |q| > |gamePath| && q[|gamePath|] == ArchiveName;
    assert ArchiveName in Entries(fs, gamePath);
  }

  /** `cleanup`: unlink the archive; a failure is swallowed. */
  function Cleanup(fs: Fs, zipPath: Path): (fs': Fs)
    ensures zipPath in fs && fs[zipPath].File? ==> fs' == fs - {zipPath}
    ensures !(zipPath in fs && fs[zipPath].File?) ==> fs' == fs
  {
    match Unlink(fs, zipPath)
    case Some(after) => after
    case None => fs
  }

  /** Deleting the archive after an extraction keeps the game directory and
      every extracted name other than the archive's own. */
  lemma CleanupKeepsExtracted(fs: Fs, gamePath: Path, names: set<string>)
    requires gamePath in fs && fs[gamePath].Dir?
    requires ArchivePath(gamePath) in fs && fs[ArchivePath(gamePath)] == File
    ensures var after := Cleanup(AddFiles(fs, gamePath, names), ArchivePath(gamePath));
      && gamePath in after && after[gamePath] == fs[gamePath]
      && ArchivePath(gamePath) !in after
      && forall n :: n in names && n != ArchiveName ==> gamePath + [n] in after
  {
  }

  /** `isGameInstalled`: the game path stats as a directory. */
  function IsGameInstalled(fs: Fs, installPath: Path, gameFolderName: string): (installed: bool)
    ensures var p := GamePath(installPath, gameFolderName);
      installed <==> p in fs && fs[p].Dir?
  {
    var p := GamePath(installPath, gameFolderName);
    match Stat(fs, p)
    case Ok(node) => node.Dir?
    case Err(_) => false
  }

  /** `uninstallGame`: removes the game directory with everything in it and
      answers true, also when nothing was there. */
  function UninstallGame(fs: Fs, installPath: Path, gameFolderName: string): (r: (bool, Fs))
    ensures r.0
    ensures r.1 == RemoveTree(fs, GamePath(installPath, gameFolderName))
  {
    (true, RemoveTree(fs, GamePath(installPath, gameFolderName)))
  }

  /** After an uninstall the game is not installed, and nothing inside its
      directory is left. */
  lemma UninstallRemovesGame(fs: Fs, installPath: Path, gameFolderName: string)
    ensures var after := UninstallGame(fs, installPath, gameFolderName).1;
      && !IsGameInstalled(after, installPath, gameFolderName)
      && forall q :: q in after ==> !Within(q, GamePath(installPath, gameFolderName))
  {
  }

  /** Uninstalling twice leaves the disk as uninstalling once. */
  lemma UninstallIdempotent(fs: Fs, installPath: Path, gameFolderName: string)
    ensures var once := UninstallGame(fs, installPath, gameFolderName).1;
      UninstallGame(once, installPath, gameFolderName) == (true, once)
  {
    var p := GamePath(installPath, gameFolderName);
    var once := RemoveTree(fs, p);
    var twice := RemoveTree(once, p);
    assert twice.Keys == once.Keys;
    assert forall q :: q in twice ==> twice[q] == once[q];
    assert twice == once;
  }

  /** Uninstalling one game leaves every other game's directory as it was. */
  lemma UninstallKeepsOtherGames(fs: Fs, installPath: Path, a: string, b: string)
    requires a != b
    ensures var after := UninstallGame(fs, installPath, a).1;
      var pb := GamePath(installPath, b);
      forall q :: Within(q, pb) ==> (q in after <==> q in fs) && (q in fs ==> after[q] == fs[q])
  {
  }

  // ---------------------------------------------------------------------
  // The service object

  /** The phases after a download, as the source runs them: open the
      archive, extract it (the events are those sent until the extraction
      settles), validate the directory, delete the archive. */
  predicate FinishedAs(fs: Fs, gamePath: Path, archive: ArchiveScript,
                       r: Result<InstallResult>, events: seq<Event>, fs': Fs)
    requires gamePath in fs && fs[gamePath].Dir?
  {
    match archive
    case Unreadable(reason) => r == Err(reason) && events == [] && fs' == fs
    case Archive(names, entryCount, pollsBeforeDone, outcome) =>
      && events == SettledExtractTrace(entryCount, pollsBeforeDone, outcome.Extracted?)
      && match outcome
         case ExtractFailed(error, written) => r == Err(error) && fs' == AddFiles(fs, gamePath, written)
         case Extracted =>
           var extracted := AddFiles(fs, gamePath, names);
           if fs[gamePath].readable then
             r == Ok(InstallResult(true, gamePath)) && fs' == Cleanup(extracted, ArchivePath(gamePath))
           else
             r == Err(ValidationFailed) && fs' == extracted
  }

  /** The transfer streamed into a ready game directory: opening the archive
      path fails when it is a directory; otherwise the file is written while
      the ticks send their events, a failed write ends the install with its
      error, and a finished write goes on to the later phases and clears the
      transfer's start. */
  predicate StreamedAs(dirReady: Fs, gamePath: Path, ticks: seq<Tick>, writeError: Option<string>,
                       start0: Option<int>, archive: ArchiveScript,
                       r: Result<InstallResult>, events: seq<Event>, fs': Fs, start': Option<int>)
    requires gamePath in dirReady && dirReady[gamePath].Dir?
  {
    var zipPath := ArchivePath(gamePath);
    if zipPath in dirReady && dirReady[zipPath].Dir? then
      r == Err(OpenDirectory(zipPath)) && events == [] && fs' == dirReady && start' == start0
    else
      var downloaded := dirReady[zipPath := File];
      var sent := DownloadEvents(start0, ticks);
      if writeError.Some? then
        && r == Err(writeError.value) && events == sent && fs' == downloaded
        && start' == if ticks == [] then start0 else Some(StartOf(start0, ticks))
      else
        && start' == None
        && |sent| <= |events| && events[..|sent|] == sent
        && FinishedAs(downloaded, gamePath, archive, r, events[|sent|..], fs')
  }

  class InstallationService {

    /** `this.downloadStart`: the clock of the first tick of the current
        transfer, or none. Shared by every transfer the service runs. */
    var downloadStart: Option<int>

    constructor ()
      ensures downloadStart == None
    {
      downloadStart := None;
    }

    /** One `onDownloadProgress` call: the first tick of a transfer sets
        `downloadStart` when none is left over, and the event is measured
        from it. */
    method OnDownloadProgress(t: Tick) returns (e: Event)
      modifies this
      ensures downloadStart == Some(if old(downloadStart).Some? then old(downloadStart).value else t.now)
      ensures e == TickEvent(t, downloadStart.value)
    {
      if downloadStart.None? {
        downloadStart := Some(t.now);
      }
      e := TickEvent(t, downloadStart.value);
    }

    /** The callback over a run of ticks: every tick is measured from the
        same start, and `downloadStart` holds it afterwards. */
    method ReceiveTicks(ticks: seq<Tick>) returns (events: seq<Event>)
      modifies this
      ensures events == DownloadEvents(old(downloadStart), ticks)
      ensures downloadStart == if ticks == [] then old(downloadStart)
                               else Some(StartOf(old(downloadStart), ticks))
    {
      events := [];
      ghost var start0 := downloadStart;
      var i := 0;
      while i < |ticks|
        invariant 0 <= i <= |ticks|
        invariant i == 0 ==> downloadStart == start0
        invariant i > 0 ==> downloadStart == Some(StartOf(start0, ticks))
        invariant i == 0 ==> events == []
        invariant i > 0 ==> events == EventsFrom(StartOf(start0, ticks), ticks[..i])
      {
        var e := OnDownloadProgress(ticks[i]);
        assert ticks[..i + 1][..i] == ticks[..i];
        events := events + [e];
        i := i + 1;
      }
      assert ticks[..i] == ticks;
    }

    /** `downloadGame(zipUrl, destPath, onProgress)` with `destPath` the
        archive path of `gamePath`. */
    method DownloadGame(fs: Fs, gamePath: Path, script: TransferScript)
      returns (r: Result<Path>, events: seq<Event>, fs': Fs)
      modifies this
      ensures gamePath in fs && fs[gamePath].File? ==>
        r == Err(MkdirOnFile(gamePath)) && events == [] && fs' == fs && downloadStart == old(downloadStart)
      ensures !(gamePath in fs && fs[gamePath].File?) ==>
        match script
        case RequestFailed(reason) =>
          r == Err(reason) && events == [] && fs' == EnsureDir(fs, gamePath)
          && downloadStart == old(downloadStart)
        case Streamed(ticks, writeError) =>
          var zipPath := ArchivePath(gamePath);
          var dirReady := EnsureDir(fs, gamePath);
          if zipPath in dirReady && dirReady[zipPath].Dir? then
            && r == Err(OpenDirectory(zipPath)) && events == [] && fs' == dirReady
            && downloadStart == old(downloadStart)
          else
            && events == DownloadEvents(old(downloadStart), ticks)
            && fs' == dirReady[zipPath := File]
            && (writeError.None? ==> r == Ok(zipPath) && downloadStart == None)
            && (writeError.Some? ==>
                  && r == Err(writeError.value)
                  && downloadStart == if ticks == [] then old(downloadStart)
                                      else Some(StartOf(old(downloadStart), ticks)))
    {
      var zipPath := ArchivePath(gamePath);
      events := [];
      if gamePath in fs && fs[gamePath].File? {
        r, fs' := Err(MkdirOnFile(gamePath)), fs;
        return;
      }
      fs' := EnsureDir(fs, gamePath);
      match script
      case RequestFailed(reason) =>
        r := Err(reason);
      case Streamed(ticks, writeError) =>
        if zipPath in fs' && fs'[zipPath].Dir? {
          r := Err(OpenDirectory(zipPath));
          return;
        }
        fs' := fs'[zipPath := File];
        events := ReceiveTicks(ticks);
        if writeError.Some? {
          r := Err(writeError.value);
        } else {
          downloadStart := None;
          r := Ok(zipPath);
        }
    }

    /** `extractGame(zipPath, extractPath, onProgress)`, up to the moment its
        promise settles. The entry counter is local to the call. */
    method ExtractGame(fs: Fs, zipPath: Path, gamePath: Path, script: ArchiveScript)
      returns (r: Result<Path>, events: seq<Event>, fs': Fs)
      ensures zipPath !in fs ==> r == Err(InvalidFilename) && events == [] && fs' == fs
      ensures zipPath in fs && fs[zipPath].Dir? ==> r == Err(ReadDirectory) && events == [] && fs' == fs
      ensures zipPath in fs && fs[zipPath].File? ==>
        match script
        case Unreadable(reason) => r == Err(reason) && events == [] && fs' == fs
        case Archive(names, entryCount, pollsBeforeDone, outcome) =>
          && events == SettledExtractTrace(entryCount, pollsBeforeDone, outcome.Extracted?)
          && (outcome.Extracted? ==> r == Ok(gamePath) && fs' == AddFiles(fs, gamePath, names))
          && (outcome.ExtractFailed? ==> r == Err(outcome.error) && fs' == AddFiles(fs, gamePath, outcome.written))
    {
      events := [];
      fs' := fs;
      if zipPath !in fs {
        r := Err(InvalidFilename);
        return;
      }
      if fs[zipPath].Dir? {
        r := Err(ReadDirectory);
        return;
      }
      match script
      case Unreadable(reason) =>
        r := Err(reason);
      case Archive(names, entryCount, pollsBeforeDone, outcome) =>
        var extractedCount := 0;
        var cleared := false;
        while extractedCount < pollsBeforeDone && !cleared
          invariant extractedCount <= pollsBeforeDone
          invariant cleared <==> extractedCount >= 1 && extractedCount >= entryCount
          invariant !cleared ==> extractedCount <= PollsBeforeSettle(entryCount, pollsBeforeDone)
          invariant cleared ==> extractedCount == PollsBeforeSettle(entryCount, pollsBeforeDone)
          invariant events == PollEvents(0, extractedCount, entryCount)
        {
          extractedCount := extractedCount + 1;
          events := events + [ExtractProgress(PollPercent(extractedCount, entryCount))];
          if extractedCount >= entryCount {
            cleared := true;
          }
        }
        match outcome
        case ExtractFailed(error, written) =>
          fs' := AddFiles(fs, gamePath, written);
          r := Err(error);
        case Extracted =>
          events := events + [ExtractProgress(100)];
          fs' := AddFiles(fs, gamePath, names);
          r := Ok(gamePath);
    }

    /** `installGame(zipUrl, installPath, gameFolderName, onProgress)`:
        download, extract, validate, clean up, rethrowing the first error. */
    method InstallGame(fs: Fs, installPath: Path, gameFolderName: string,
                       transfer: TransferScript, archive: ArchiveScript)
      returns (r: Result<InstallResult>, events: seq<Event>, fs': Fs)
      modifies this
      ensures var gamePath := GamePath(installPath, gameFolderName);
        gamePath in fs && fs[gamePath].File? ==>
          r == Err(MkdirOnFile(gamePath)) && events == [] && fs' == fs && downloadStart == old(downloadStart)
      ensures var gamePath := GamePath(installPath, gameFolderName);
        !(gamePath in fs && fs[gamePath].File?) ==>
        match transfer
        case RequestFailed(reason) =>
          r == Err(reason) && events == [] && fs' == EnsureDir(fs, gamePath)
          && downloadStart == old(downloadStart)
        case Streamed(ticks, writeError) =>
          StreamedAs(EnsureDir(fs, gamePath), gamePath, ticks, writeError, old(downloadStart),
                     archive, r, events, fs', downloadStart)
      ensures var gamePath := GamePath(installPath, gameFolderName);
        r.Ok? <==>
          && !(gamePath in fs && fs[gamePath].File?)
          && (gamePath in fs ==> fs[gamePath].readable)
          && !(ArchivePath(gamePath) in fs && fs[ArchivePath(gamePath)].Dir?)
          && transfer.Streamed? && transfer.writeError.None?
          && archive.Archive? && archive.outcome.Extracted?
      ensures var gamePath := GamePath(installPath, gameFolderName);
        r.Ok? ==>
          && r.value == InstallResult(true, gamePath)
          && IsGameInstalled(fs', installPath, gameFolderName)
          && ArchivePath(gamePath) !in fs'
          && archive.Archive?
          && (forall n :: n in archive.names && n != ArchiveName ==> gamePath + [n] in fs')
          && |events| > 0 && events[|events| - 1] == ExtractProgress(100)
    {
      var gamePath := GamePath(installPath, gameFolderName);
      var downloaded, downloadEvents, fs1 := DownloadGame(fs, gamePath, transfer);
      events := downloadEvents;
      fs' := fs1;
      if downloaded.Err? {
        r := Err(downloaded.error);
        return;
      }
      var rest;
      r, rest, fs' := FinishInstall(fs1, gamePath, archive);
      events := events + rest;
      assert events[|downloadEvents|..] == rest;
    }

    /** The phases after a successful download: extract, validate, clean up. */
    method FinishInstall(fs: Fs, gamePath: Path, archive: ArchiveScript)
      returns (r: Result<InstallResult>, events: seq<Event>, fs': Fs)
      requires gamePath in fs && fs[gamePath].Dir?
      requires ArchivePath(gamePath) in fs && fs[ArchivePath(gamePath)] == File
      ensures FinishedAs(fs, gamePath, archive, r, events, fs')
      ensures r.Ok? <==> archive.Archive? && archive.outcome.Extracted? && fs[gamePath].readable
      ensures forall k :: 0 <= k < |events| ==> events[k].ExtractProgress?
      ensures r.Ok? ==> && r.value == InstallResult(true, gamePath)
                        && gamePath in fs' && fs'[gamePath].Dir?
                        && ArchivePath(gamePath) !in fs'
                        && (forall n :: n in archive.names && n != ArchiveName ==> gamePath + [n] in fs')
                        && |events| > 0 && events[|events| - 1] == ExtractProgress(100)
    {
      var zipPath := ArchivePath(gamePath);
      var extracted, fs2;
      extracted, events, fs2 := ExtractGame(fs, zipPath, gamePath, archive);
      if archive.Archive? {
        SettledTraceShape(archive.entryCount, archive.pollsBeforeDone, archive.outcome.Extracted?);
      }
      fs' := fs2;
      if extracted.Err? {
        r := Err(extracted.error);
        return;
      }
      assert gamePath in fs2 && fs2[gamePath] == fs[gamePath] && zipPath in fs2;
      ArchiveMakesDirectoryNonEmpty(fs2, gamePath);
      var valid := ValidateInstallation(fs2, gamePath);
      if !valid {
        r := Err(ValidationFailed);
        return;
      }
      CleanupKeepsExtracted(fs, gamePath, archive.names);
      fs' := Cleanup(fs2, zipPath);
      r := Ok(InstallResult(true, gamePath));
    }
  }
}
