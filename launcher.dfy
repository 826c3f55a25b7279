/** The game launcher of electron/services/launcher.service.js: one session
    per game id in `activeGames`, a window for HTML games and a detached
    process for executables. The disk is a `Fs` value; the manifest read, the
    window's `isDestroyed`, `loadFile`, the new window's and process's
    identities and `Date.now` are inputs. */
module Launcher {

  import opened Wrappers
  import opened Text
  import opened FileSystem

  /** The fields of `manifest.json` the launcher reads. `gameId` is taken as
      always present; the others may be missing. */
  datatype Manifest = Manifest(
    gameId: string,
    gameName: Option<string>,
    platform: Option<string>,
    entryPoint: Option<string>,
    mainFile: Option<string>,
    minWidth: Option<int>,
    minHeight: Option<int>)

  /** The size settings given to `new BrowserWindow`. */
  datatype WindowOptions = WindowOptions(width: int, height: int, minWidth: int, minHeight: int, title: string)

  /** What a session holds: a window (by identity, with the options it was
      created with) or a spawned process (by pid). */
  datatype Handle = Window(id: nat, options: WindowOptions) | Process(pid: nat)

  /** `{ window | process, manifest, startTime }` */
  datatype Session = Session(handle: Handle, manifest: Manifest, startTime: int)

  /** One line of `getActiveGames`. */
  datatype Summary = Summary(gameId: string, gameName: Option<string>, startTime: int, kind: string)

  /** The success answer of a launch; `gameId` is absent on a focus. */
  datatype LaunchReply = LaunchReply(success: bool, message: string, gameId: Option<string>)

  /** `{ success, message }` from `closeGame`. */
  datatype CloseReply = CloseReply(success: bool, message: string)

  /** What `closeGame` does to the running game. */
  datatype CloseAction = CloseWindow(id: nat) | Kill(pid: nat) | NoAction

  datatype LaunchMethod = Html | Exe | Unsupported

  const NotInstalled: string := "Le jeu n'est pas installé dans: "
  const ManifestUnreadable: string := "Impossible de lire le manifest.json: "
  const AlreadyRunning: string := "Jeu déjà lancé, focus restauré"
  const UnsupportedType: string := "Type de jeu non supporté: "
  const EntryMissing: string := "Fichier d'entrée introuvable: "
  const ExecutableMissing: string := "Exécutable introuvable: "
  const LaunchedSuffix: string := " lancé avec succès"
  const NotRunning: string := "Jeu non lancé"
  const Closed: string := "Jeu fermé"

  // ---------------------------------------------------------------------
  // JavaScript value helpers

  /** A possibly missing string inside a template literal. */
  function Show(o: Option<string>): (s: string)
    ensures o.Some? ==> s == o.value
    ensures o.None? ==> s == "undefined"
  {
    match o
    case Some(v) => v
    case None => "undefined"
  }

  /** `o || fallback` on a string: missing and empty are falsy. */
  function OrText(o: Option<string>, fallback: string): (s: string)
    ensures o.Some? && o.value != "" ==> s == o.value
    ensures o.None? || o.value == "" ==> s == fallback
  {
    if o.Some? && o.value != "" then o.value else fallback
  }

  /** `o || fallback` on a number: missing and zero are falsy. */
  function OrNumber(o: Option<int>, fallback: int): (n: int)
    ensures o.Some? && o.value != 0 ==> n == o.value
    ensures o.None? || o.value == 0 ==> n == fallback
  {
    if o.Some? && o.value != 0 then o.value else fallback
  }

  /** `o?.endsWith(suffix)` used as a condition. */
  predicate OptEndsWith(o: Option<string>, suffix: string)
  {
    o.Some? && EndsWith(o.value, suffix)
  }

  // ---------------------------------------------------------------------
  // Pure decisions

  /** The launch method: the HTML test comes first, then the executable test,
      else the game type is refused. */
  function SelectMethod(m: Manifest): (k: LaunchMethod)
    ensures k == Html <==>
      m.platform == Some("web") || m.platform == Some("html")
      || OptEndsWith(m.entryPoint, ".html") || OptEndsWith(m.mainFile, ".html")
    ensures k == Exe <==>
      && !(m.platform == Some("web") || m.platform == Some("html")
           || OptEndsWith(m.entryPoint, ".html") || OptEndsWith(m.mainFile, ".html"))
      && m.platform == Some("exe") && OptEndsWith(m.entryPoint, ".exe")
    ensures k == Exe ==> m.entryPoint.Some?
  {
    if m.platform == Some("web") || m.platform == Some("html")
       || OptEndsWith(m.entryPoint, ".html") || OptEndsWith(m.mainFile, ".html")
    then Html
    else if m.platform == Some("exe") && OptEndsWith(m.entryPoint, ".exe") then Exe
    else Unsupported
  }

  /** A manifest whose platform says `exe`, with an `.exe` entry point, but
      whose main file is an HTML page opens in a window: the HTML test wins. */
  lemma HtmlTestTakesPrecedence(m: Manifest)
    requires m.platform == Some("exe") && OptEndsWith(m.entryPoint, ".exe")
    requires OptEndsWith(m.mainFile, ".html")
    ensures SelectMethod(m) == Html
  {
  }

  /** Without an HTML page, a native game is recognised by platform `exe` and
      an `.exe` entry point together: under platform `exe` it is the suffix
      that decides, and under any platform other than `exe`, `web` or `html`
      the manifest is refused. */
  lemma ExecutableNeedsBoth(m: Manifest, other: Option<string>)
    requires !OptEndsWith(m.entryPoint, ".html") && !OptEndsWith(m.mainFile, ".html")
    requires other != Some("exe") && other != Some("web") && other != Some("html")
    ensures SelectMethod(m.(platform := Some("exe"))) == Exe <==> OptEndsWith(m.entryPoint, ".exe")
    ensures SelectMethod(m.(platform := Some("exe"))) != Exe ==> SelectMethod(m.(platform := Some("exe"))) == Unsupported
    ensures SelectMethod(m.(platform := other)) == Unsupported
  {
  }

  /** The page an HTML game opens: `entryPoint || mainFile || 'index.html'`,
      never empty. */
  function EntryFile(m: Manifest): (f: string)
    ensures f != ""
    ensures m.entryPoint.Some? && m.entryPoint.value != "" ==> f == m.entryPoint.value
    ensures (m.entryPoint.None? || m.entryPoint.value == "") && m.mainFile.Some? && m.mainFile.value != "" ==>
      f == m.mainFile.value
    ensures f in {"index.html"} + (if m.entryPoint.Some? then {m.entryPoint.value} else {})
                                + (if m.mainFile.Some? then {m.mainFile.value} else {})
  {
    OrText(m.entryPoint, OrText(m.mainFile, "index.html"))
  }

  /** The window a manifest asks for: its minimum size doubles as the initial
      size, with 1280x720 and 800x600 as the defaults. */
  function WindowOptionsFor(m: Manifest): (o: WindowOptions)
    ensures o.width == OrNumber(m.minWidth, 1280) && o.height == OrNumber(m.minHeight, 720)
    ensures o.minWidth == OrNumber(m.minWidth, 800) && o.minHeight == OrNumber(m.minHeight, 600)
    ensures o.title == OrText(m.gameName, m.gameId)
  {
    WindowOptions(
      OrNumber(m.minWidth, 1280), OrNumber(m.minHeight, 720),
      OrNumber(m.minWidth, 800), OrNumber(m.minHeight, 600),
      OrText(m.gameName, m.gameId))
  }

  /** The window is never created smaller than the minimum it is given, and
      without a manifest size it opens at 1280x720 with an 800x600 floor. */
  lemma WindowNotBelowMinimum(m: Manifest)
    ensures var o := WindowOptionsFor(m);
      && o.width >= o.minWidth && o.height >= o.minHeight
      && (m.minWidth.Some? && m.minWidth.value != 0 ==> o.width == o.minWidth == m.minWidth.value)
      && (m.minWidth == None ==> o.width == 1280 && o.minWidth == 800)
      && (m.minHeight == None ==> o.height == 720 && o.minHeight == 600)
  {
  }

  /** The success message of a fresh launch. */
  function Launched(m: Manifest): (r: LaunchReply)
    ensures r.success && r.gameId == Some(m.gameId)
    ensures r.message == Show(m.gameName) + LaunchedSuffix
  {
    LaunchReply(true, Show(m.gameName) + LaunchedSuffix, Some(m.gameId))
  }

  /** A session whose window is still open. */
  predicate LiveWindow(s: Session, destroyed: set<nat>)
  {
    s.handle.Window? && s.handle.id !in destroyed
  }

  /** The line `getActiveGames` reports for one session. */
  function SummaryOf(gameId: string, s: Session): (g: Summary)
    ensures g.gameId == gameId && g.gameName == s.manifest.gameName && g.startTime == s.startTime
    ensures g.kind == "window" <==> s.handle.Window?
    ensures g.kind == "process" <==> s.handle.Process?
  {
    Summary(gameId, s.manifest.gameName, s.startTime, if s.handle.Window? then "window" else "process")
  }

  /** What closing a session does: close a live window, kill a process, and
      nothing for a window that is already gone. */
  function CloseActionFor(s: Session, destroyed: set<nat>): (a: CloseAction)
    ensures a.CloseWindow? <==> LiveWindow(s, destroyed)
    ensures a.CloseWindow? ==> a.id == s.handle.id
    ensures a.Kill? <==> s.handle.Process?
    ensures a.Kill? ==> a.pid == s.handle.pid
  {
    match s.handle
    case Window(id, _) => if id in destroyed then NoAction else CloseWindow(id)
    case Process(pid) => Kill(pid)
  }

  // ---------------------------------------------------------------------
  // The session table: a JavaScript `Map`, which remembers insertion order

  datatype Table = Table(keys: seq<string>, entries: map<string, Session>)

  ghost predicate Distinct<T>(s: seq<T>)
  {
    forall i, j :: 0 <= i < j < |s| ==> s[i] != s[j]
  }

  /** The key order lists every key once. */
  ghost predicate TableValid(t: Table)
  {
    && Distinct(t.keys)
    && forall k :: k in t.entries <==> k in t.keys
  }

  const EmptyTable: Table := Table([], map[])

  /** `s` without `k`, the others in their order. */
  function Without<T(==)>(s: seq<T>, k: T): seq<T>
  {
    if s == [] then []
    else if s[0] == k then Without(s[1..], k)
    else [s[0]] + Without(s[1..], k)
  }

  /** Removing `k` leaves exactly the other elements, keeps them distinct,
      and changes nothing when `k` is absent. */
  lemma {:induction false} WithoutMembers<T(!new)>(s: seq<T>, k: T)
    ensures forall x :: x in Without(s, k) <==> x in s && x != k
    ensures Distinct(s) ==> Distinct(Without(s, k))
    ensures k !in s ==> Without(s, k) == s
  {
    if s != [] {
      var tail := s[1..];
      WithoutMembers(tail, k);
      assert s == [s[0]] + tail;
      if s[0] != k && Distinct(s) {
        assert s[0] !in tail by {
          forall j | 0 <= j < |tail| ensures tail[j] != s[0] { assert s[j + 1] == tail[j]; }
        }
        assert Distinct(tail) by {
          forall i, j | 0 <= i < j < |tail| ensures tail[i] != tail[j] { assert s[i + 1] != s[j + 1]; }
        }
      }
    }
  }

  /** The position of the first `k` in `s`. */
  function IndexOf<T(==)>(s: seq<T>, k: T): (i: nat)
    requires k in s
    ensures i < |s| && s[i] == k && k !in s[..i]
  {
    if s[0] == k then 0
    else
      assert s[1..][..IndexOf(s[1..], k)] == s[1..1 + IndexOf(s[1..], k)];
      1 + IndexOf(s[1..], k)
  }

  /** Removing a key from two lists joined is removing it from each. */
  lemma {:induction false} WithoutAppend<T(!new)>(a: seq<T>, b: seq<T>, k: T)
    ensures Without(a + b, k) == Without(a, k) + Without(b, k)
  {
    if a != [] {
      assert (a + b)[1..] == a[1..] + b;
      WithoutAppend(a[1..], b, k);
    } else {
      assert a + b == b;
    }
  }

  /** Removing a key that occurs once, at `i`, closes the gap: the keys
      before it and after it keep their order. */
  lemma WithoutSingle<T(!new)>(s: seq<T>, i: nat)
    requires i < |s| && s[i] !in s[..i] && s[i] !in s[i + 1..]
    ensures Without(s, s[i]) == s[..i] + s[i + 1..]
  {
    var k, before, after := s[i], s[..i], s[i + 1..];
    var rest := [k] + after;
    assert s[i..] == rest by {
      assert forall j :: 0 <= j < |rest| ==> rest[j] == s[i + j];
    }
    assert s == before + s[i..];
    WithoutAppend(before, rest, k);
    WithoutMembers(before, k);
    WithoutMembers(after, k);
    assert rest[0] == k && rest[1..] == after;
    assert Without(rest, k) == Without(after, k) == after;
  }

  /** In a list of distinct keys every key occurs once. */
  lemma WithoutKeepsOrder<T(!new)>(s: seq<T>, k: T)
    requires Distinct(s) && k in s
    ensures var i := IndexOf(s, k); Without(s, k) == s[..i] + s[i + 1..]
  {
    var i := IndexOf(s, k);
    assert k !in s[i + 1..] by {
      forall j | i + 1 <= j < |s| ensures s[j] != k { assert s[i] != s[j]; }
    }
    WithoutSingle(s, i);
  }

  /** `Map.prototype.delete`. */
  function Delete(t: Table, k: string): (t': Table)
    requires TableValid(t)
    ensures TableValid(t')
    ensures t'.entries == t.entries - {k}
    ensures t'.keys == Without(t.keys, k)
    ensures k in t.entries ==>
      var i := IndexOf(t.keys, k); t'.keys == t.keys[..i] + t.keys[i + 1..]
    ensures k !in t.entries ==> t' == t
  {
    var t' := Table(Without(t.keys, k), t.entries - {k});
    assert TableValid(t') by {
      WithoutMembers(t.keys, k);
    }
    assert k in t.entries ==> var i := IndexOf(t.keys, k); t'.keys == t.keys[..i] + t.keys[i + 1..] by {
      if k in t.entries {
        WithoutKeepsOrder(t.keys, k);
      }
    }
    assert k !in t.entries ==> t' == t by {
      WithoutMembers(t.keys, k);
    }
    t'
  }

  /** `Map.prototype.set`: a new key goes last, an existing key keeps its
      place. */
  function Set(t: Table, k: string, v: Session): (t': Table)
    requires TableValid(t)
    ensures TableValid(t')
    ensures t'.entries == t.entries[k := v]
    ensures k in t.entries ==> t'.keys == t.keys
    ensures k !in t.entries ==> t'.keys == t.keys + [k]
  {
    if k in t.entries then Table(t.keys, t.entries[k := v])
    else Table(t.keys + [k], t.entries[k := v])
  }

  /** Removing the key that was appended last gives back the sequence. */
  lemma {:induction false} WithoutAppended(s: seq<string>, k: string)
    requires k !in s
    ensures Without(s + [k], k) == s
  {
    if s != [] {
      assert (s + [k])[1..] == s[1..] + [k];
      WithoutAppended(s[1..], k);
    }
  }

  /** A session added under a new id and then deleted leaves the table as
      it was, order included. */
  lemma SetThenDelete(t: Table, k: string, v: Session)
    requires TableValid(t) && k !in t.entries
    ensures Delete(Set(t, k, v), k) == t
  {
    WithoutAppended(t.keys, k);
  }

  // ---------------------------------------------------------------------
  // The service object

  class LauncherService {

    /** `this.activeGames` */
    var activeGames: Table

    ghost predicate Valid()
      reads this
    {
      TableValid(activeGames)
    }

    constructor ()
      ensures Valid() && activeGames == EmptyTable
    {
      activeGames := EmptyTable;
    }

    /** The id has a session with a window that is still open. */
    predicate Running(gameId: string, destroyed: set<nat>)
      reads this
    {
      gameId in activeGames.entries && LiveWindow(activeGames.entries[gameId], destroyed)
    }

    /** `launchGame(installPath, gameFolderName)`: check the install, read the
        manifest, focus a live window of the same game or purge its stale
        session, then launch by the selected method. `focused` is the window
        given focus, if any. */
    method LaunchGame(fs: Fs, installPath: Path, gameFolderName: string, manifestRead: Result<Manifest>,
                      destroyed: set<nat>, loadError: Option<string>, windowId: nat, pid: nat, now: int)
      returns (r: Result<LaunchReply>, focused: Option<nat>)
      requires Valid()
      modifies this
      ensures Valid()
      ensures var gamePath := GamePath(installPath, gameFolderName);
        gamePath !in fs ==>
          r == Err(NotInstalled + Render(gamePath)) && focused == None && activeGames == old(activeGames)
      ensures GamePath(installPath, gameFolderName) in fs && manifestRead.Err? ==>
        && r == Err(ManifestUnreadable + manifestRead.error) && focused == None
        && activeGames == old(activeGames)
      ensures GamePath(installPath, gameFolderName) in fs && manifestRead.Ok?
              && old(Running(manifestRead.value.gameId, destroyed)) ==>
        && r == Ok(LaunchReply(true, AlreadyRunning, None))
        && focused == Some(old(activeGames).entries[manifestRead.value.gameId].handle.id)
        && activeGames == old(activeGames)
      ensures var gamePath := GamePath(installPath, gameFolderName);
        gamePath in fs && manifestRead.Ok? && !old(Running(manifestRead.value.gameId, destroyed)) ==>
          var m := manifestRead.value;
          var purged := Delete(old(activeGames), m.gameId);
          && focused == None
          && match SelectMethod(m)
             case Unsupported =>
               r == Err(UnsupportedType + Show(m.platform)) && activeGames == purged
             case Html =>
               if gamePath + [EntryFile(m)] !in fs then
                 r == Err(EntryMissing + EntryFile(m)) && activeGames == purged
               else if loadError.Some? then
                 r == Err(loadError.value) && activeGames == purged
               else
                 && r == Ok(Launched(m))
                 && activeGames == Set(purged, m.gameId, Session(Window(windowId, WindowOptionsFor(m)), m, now))
             case Exe =>
               if gamePath + [m.entryPoint.value] !in fs then
                 r == Err(ExecutableMissing + m.entryPoint.value) && activeGames == purged
               else
                 r == Ok(Launched(m)) && activeGames == Set(purged, m.gameId, Session(Process(pid), m, now))
    {
      var gamePath := GamePath(installPath, gameFolderName);
      focused := None;
      if gamePath !in fs {
        r := Err(NotInstalled + Render(gamePath));
        return;
      }
      if manifestRead.Err? {
        r := Err(ManifestUnreadable + manifestRead.error);
        return;
      }
      var m := manifestRead.value;
      if m.gameId in activeGames.entries {
        var active := activeGames.entries[m.gameId];
        if LiveWindow(active, destroyed) {
          focused := Some(active.handle.id);
          r := Ok(LaunchReply(true, AlreadyRunning, None));
          return;
        }
        activeGames := Delete(activeGames, m.gameId);
      }
      match SelectMethod(m)
      case Html =>
        r := LaunchHtmlGame(fs, gamePath, m, loadError, windowId, now);
      case Exe =>
        r := LaunchExecutable(fs, gamePath, m, pid, now);
      case Unsupported =>
        r := Err(UnsupportedType + Show(m.platform));
    }

    /** `launchHTMLGame`: the entry page must exist; the window is opened,
        loaded, and recorded under the game id. A failed load leaves the
        window open but untracked. */
    method LaunchHtmlGame(fs: Fs, gamePath: Path, m: Manifest, loadError: Option<string>, windowId: nat, now: int)
      returns (r: Result<LaunchReply>)
      requires Valid()
      modifies this
      ensures Valid()
      ensures gamePath + [EntryFile(m)] !in fs ==>
        r == Err(EntryMissing + EntryFile(m)) && activeGames == old(activeGames)
      ensures gamePath + [EntryFile(m)] in fs && loadError.Some? ==>
        r == Err(loadError.value) && activeGames == old(activeGames)
      ensures gamePath + [EntryFile(m)] in fs && loadError.None? ==>
        && r == Ok(Launched(m))
        && activeGames == Set(old(activeGames), m.gameId, Session(Window(windowId, WindowOptionsFor(m)), m, now))
    {
      var entryFile := EntryFile(m);
      if gamePath + [entryFile] !in fs {
        return Err(EntryMissing + entryFile);
      }
      var options := WindowOptionsFor(m);
      if loadError.Some? {
        return Err(loadError.value);
      }
      activeGames := Set(activeGames, m.gameId, Session(Window(windowId, options), m, now));
      r := Ok(Launched(m));
    }

    /** `launchExecutable`: the executable must exist; the process is
        spawned detached and recorded under the game id. */
    method LaunchExecutable(fs: Fs, gamePath: Path, m: Manifest, pid: nat, now: int)
      returns (r: Result<LaunchReply>)
      requires Valid()
      requires m.entryPoint.Some?
      modifies this
      ensures Valid()
      ensures gamePath + [m.entryPoint.value] !in fs ==>
        r == Err(ExecutableMissing + m.entryPoint.value) && activeGames == old(activeGames)
      ensures gamePath + [m.entryPoint.value] in fs ==>
        r == Ok(Launched(m)) && activeGames == Set(old(activeGames), m.gameId, Session(Process(pid), m, now))
    {
      if gamePath + [m.entryPoint.value] !in fs {
        return Err(ExecutableMissing + m.entryPoint.value);
      }
      activeGames := Set(activeGames, m.gameId, Session(Process(pid), m, now));
      r := Ok(Launched(m));
    }

    /** The window's `closed` listener and the process's `exit` listener:
        delete the id the launch was made under, whoever holds it now. */
    method OnSessionEnded(gameId: string)
      requires Valid()
      modifies this
      ensures Valid()
      ensures activeGames == Delete(old(activeGames), gameId)
      ensures gameId !in activeGames.entries
    {
      activeGames := Delete(activeGames, gameId);
    }

    /** `getActiveGames`: one summary per session, in insertion order. */
    method GetActiveGames() returns (games: seq<Summary>)
      requires Valid()
      ensures |games| == |activeGames.keys|
      ensures forall i :: 0 <= i < |games| ==>
        games[i] == SummaryOf(activeGames.keys[i], activeGames.entries[activeGames.keys[i]])
      ensures forall i :: 0 <= i < |games| ==> games[i].gameId in activeGames.entries
      ensures forall i, j :: 0 <= i < j < |games| ==> games[i].gameId != games[j].gameId
    {
      games := [];
      var i := 0;
      while i < |activeGames.keys|
        invariant 0 <= i <= |activeGames.keys|
        invariant |games| == i
        invariant forall k :: 0 <= k < i ==>
          games[k] == SummaryOf(activeGames.keys[k], activeGames.entries[activeGames.keys[k]])
      {
        var id := activeGames.keys[i];
        games := games + [SummaryOf(id, activeGames.entries[id])];
        i := i + 1;
      }
    }

    /** `closeGame`: refuse an unknown id; otherwise close the window or
        kill the process and delete the session. */
    method CloseGame(gameId: string, destroyed: set<nat>) returns (reply: CloseReply, action: CloseAction)
      requires Valid()
      modifies this
      ensures Valid()
      ensures gameId !in old(activeGames.entries) ==>
        reply == CloseReply(false, NotRunning) && action == NoAction && activeGames == old(activeGames)
      ensures gameId in old(activeGames.entries) ==>
        && reply == CloseReply(true, Closed)
        && action == CloseActionFor(old(activeGames).entries[gameId], destroyed)
        && activeGames == Delete(old(activeGames), gameId)
    {
      if gameId !in activeGames.entries {
        return CloseReply(false, NotRunning), NoAction;
      }
      action := CloseActionFor(activeGames.entries[gameId], destroyed);
      activeGames := Delete(activeGames, gameId);
      reply := CloseReply(true, Closed);
    }
  }

  // ---------------------------------------------------------------------
  // Scenarios

  const DemoInstall: Path := ["games"]
  const DemoFolder: string := "shooter"
  const DemoExe: Manifest := Manifest("g1", Some("Shooter"), Some("exe"), Some("shooter.exe"), None, None, None)
  const DemoHtml: Manifest := Manifest("g2", Some("Puzzle"), Some("web"), None, None, None, None)

  /** A disk with the demo game folder holding the given file names. */
  function DemoDisk(names: set<string>): (fs: Fs)
    ensures GamePath(DemoInstall, DemoFolder) in fs
    ensures forall n :: n in names ==> GamePath(DemoInstall, DemoFolder) + [n] in fs
  {
    var g := GamePath(DemoInstall, DemoFolder);
    (map n | n in names :: g + [n] := File)[g := Dir(true)]
  }

  /** A process session is never focused: a second launch of a running
      executable spawns a second process and replaces the session, and when
      the first process exits its listener deletes the second one's entry. */
  method ProcessRelaunchRace() returns (second: Result<LaunchReply>, trackedAfterFirstExit: bool, spawnedTwice: bool)
    ensures second == Ok(Launched(DemoExe))
    ensures spawnedTwice
    ensures !trackedAfterFirstExit
  {
    var fs := DemoDisk({"shooter.exe"});
    assert EndsWith("shooter.exe", ".exe") by {
      assert "shooter.exe"[7..] == ".exe";
    }
    assert !EndsWith("shooter.exe", ".html");
    assert SelectMethod(DemoExe) == Exe;
    var launcher := new LauncherService();
    var first, _ := launcher.LaunchGame(fs, DemoInstall, DemoFolder, Ok(DemoExe), {}, None, 0, 101, 1000);
    assert launcher.activeGames.entries[DemoExe.gameId].handle == Process(101);
    var focused;
    second, focused := launcher.LaunchGame(fs, DemoInstall, DemoFolder, Ok(DemoExe), {}, None, 0, 202, 2000);
    spawnedTwice := first.Ok? && focused.None? && launcher.activeGames.entries[DemoExe.gameId].handle == Process(202);
    launcher.OnSessionEnded(DemoExe.gameId);
    trackedAfterFirstExit := DemoExe.gameId in launcher.activeGames.entries;
  }

  /** A live window is focused instead of opened twice, and the table keeps
      its single session; once the window is destroyed, a launch opens a new
      one. */
  method WindowFocusedOnRelaunch() returns (again: Result<LaunchReply>, focused: Option<nat>, reopened: Result<LaunchReply>)
    ensures again == Ok(LaunchReply(true, AlreadyRunning, None))
    ensures focused == Some(7)
    ensures reopened == Ok(Launched(DemoHtml))
  {
    var fs := DemoDisk({"index.html"});
    var launcher := new LauncherService();
    var first, _ := launcher.LaunchGame(fs, DemoInstall, DemoFolder, Ok(DemoHtml), {}, None, 7, 0, 1000);
    again, focused := launcher.LaunchGame(fs, DemoInstall, DemoFolder, Ok(DemoHtml), {}, None, 8, 0, 2000);
    assert launcher.activeGames.keys == [DemoHtml.gameId];
    var refocused;
    reopened, refocused := launcher.LaunchGame(fs, DemoInstall, DemoFolder, Ok(DemoHtml), {7}, None, 9, 0, 3000);
  }
}
