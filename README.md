# Ether-Launcher game management, modelled in Dafny

This project models the local game-management logic of the Ether launcher, an Electron desktop application. The model has five parts:

- **Install pipeline** (`electron/services/installation.service.js`). An install downloads `game.zip` into `<installPath>/Ether/<gameFolderName>`, extracts it there, validates the directory and deletes the archive. It stops at the first error.
  - Progress is reported as a download percent with an ETA text, then as a polled extraction percent capped at 99, followed by a final 100.
  - The service's `downloadStart` field is shared by every transfer. It is set by a transfer's first tick and cleared only when the file write finishes.
- **Install registry** (`electron/main.js`). `activeInstallations` maps a game id to an `installing` record. `installation:start` refuses a duplicate id and returns at once. When the detached run completes or fails, it deletes its id. `installation:getStatus` answers `idle` for an absent id. `installation:cancel` deletes the record only, so the run goes on.
- **Launcher** (`electron/services/launcher.service.js`). A launch checks the install directory and reads `manifest.json`. It then focuses the game's window if that window is still open, or purges the old session. Finally it opens a window or spawns a process, chosen from the manifest's platform and file suffixes. `activeGames` is a JavaScript `Map`, so it keeps insertion order. Windows closing and processes exiting remove their entries. `getActiveGames` lists the entries and `closeGame` ends one.
- **Navigation guard** (`src/router/index.ts`). This covers the route table's `requiresAuth`/`requiresAdmin` flags and the `beforeEach` hook.
  - The hook sends signed-in users away from /login and /register.
  - When a token is stored but the user is not signed in, it fetches the profile. If the token is refused, the hook clears it.
  - It sends protected pages to /login and non-administrators on the admin page to /home.
- **Friends store** (`src/stores/friendsStore.ts`). `updateFriendStatus` mutates the first friend object with the given id in place. `togglePopup` and `selectFriend` set store fields.

The disk is a value `Fs`, a map from paths (lists of segments) to files and directories. Everything outside the process is an input of the operation that meets it:
- the network transfer
- the archive library
- the manifest read
- window liveness and `loadFile`
- new window and process identities
- the clock
- the profile request

Code that updates state in place is modelled as classes:
- `InstallationService`, `InstallRegistry` and `LauncherService`, with their fields
- the `Navigation` state of the guard
- `Friend` and `FriendsStore`, which keep object identity so that the list and the selection can share a friend

Modules: `Wrappers` (Option, Result), `Text` (decimal rendering and its inverse, `endsWith`), `FileSystem`, `Progress`, `Installation`, `InstallIpc`, `Launcher`, `Router`, `Friends`.

Behaviours of the code that the model keeps and states:
- **Stale start time.** A transfer that fails after its first tick leaves `downloadStart` set. The next transfer then measures its speed from that old time (`DownloadGame`).
- **Empty archives still install.** Validation runs while `game.zip` is still in the directory, so the directory is never empty at that point. An archive with no entries therefore installs "successfully" as an empty directory (`ArchiveMakesDirectoryNonEmpty`).
- **Negative ETA.** Without a `Content-Length`, the ETA is the elapsed time negated, and the text shows e.g. `-5s` (`UnknownTotalShowsNegativeEta`). For every negative ETA the text is the signed seconds alone (`EtaText`).
- **Registry race.** After a cancel and a restart, the first run's completion deletes the second run's record (`CancelRestartRace`).
- **Launcher race.** A running executable is never focused: launching it again spawns a second process. When the first process exits, it deletes the second one's session (`ProcessRelaunchRace`).

Two details of the code that the model follows exactly:
- `downloadStart` is cleared only in the write stream's `finish` handler (installation.service.js:78), never when a transfer starts.
- On relaunch, every entry without a live window is purged, process sessions included (launcher.service.js:45-51).

## Model

| member | source | states |
|---|---|---|
| Text.ShowInt | electron/services/installation.service.js:65 | A number in the ETA text is printed in decimal, with no leading zero and a '-' before a negative number. |
| Text.ParseShowNat | electron/services/installation.service.js:65 | Reading back a printed number gives the number, so the printed minutes and seconds are unambiguous. |
| Text.ShowNatCanonical | electron/services/installation.service.js:65 | A printed number is "0" or has no leading zero. |
| Text.ParseNatPositive | electron/services/installation.service.js:65 | Digits with a non-zero first digit read as a positive number. |
| Text.ShowParseNat | electron/services/installation.service.js:65 | Printing the number read from digits without a leading zero gives those digits back, so each number has exactly one printed form. |
| FileSystem.GamePath | electron/services/installation.service.js:195 | The game directory is the install path followed by `Ether` and the game folder name. |
| FileSystem.ArchivePath | electron/services/installation.service.js:196 | The archive is `game.zip` directly inside the game directory. |
| FileSystem.GamePathInjective | electron/services/installation.service.js:195 | Two installs share a directory only if both the install path and the folder name are equal. |
| FileSystem.Stat | electron/services/installation.service.js:153 | `stat` succeeds exactly on existing paths and returns their node. |
| FileSystem.Readdir | electron/services/installation.service.js:159 | `readdir` succeeds exactly on readable directories and lists the names directly inside. Otherwise it fails with ENOENT, ENOTDIR or EACCES. |
| FileSystem.Entries | electron/services/installation.service.js:159 | A name is listed iff some path inside the directory continues with it. |
| FileSystem.RemoveTree | electron/services/installation.service.js:250 | `rm -rf` removes exactly the paths at or inside the target and keeps every other node unchanged. A missing target is no error. |
| FileSystem.Unlink | electron/services/installation.service.js:178 | `unlink` succeeds exactly on files and removes only that path. |
| Progress.Round | electron/services/installation.service.js:38 | `Math.round` returns the integer within half a unit of its argument, rounding halves up. |
| Progress.Trunc | electron/services/installation.service.js:56 | Truncation goes toward zero, for both signs. |
| Progress.Rem60 | electron/services/installation.service.js:56 | JavaScript's `% 60` gives a remainder with the dividend's sign and a magnitude below 60, and the dividend minus the remainder is a whole multiple of 60. |
| Progress.DownloadPercent | electron/services/installation.service.js:36-38 | The download percent is 0 when no total was announced, and otherwise the nearest whole percent of loaded/total, halves rounded up. |
| Progress.Speed | electron/services/installation.service.js:46-47 | The speed times the elapsed seconds gives the bytes loaded. It is 0 until some time has passed and never negative. |
| Progress.Eta | electron/services/installation.service.js:48-49 | The ETA times the speed gives the bytes still to come (total minus loaded). It is 0 while the speed is 0. |
| Progress.TickEta | electron/services/installation.service.js:41-49 | Once time has passed and bytes have come in, ETA × loaded = (total − loaded) × elapsed seconds, i.e. the remaining bytes at the average speed so far. Otherwise the ETA is 0. |
| Progress.EtaMinutes | electron/services/installation.service.js:55 | The minutes m satisfy 60·m ≤ eta < 60·(m+1). |
| Progress.EtaSeconds | electron/services/installation.service.js:56 | The seconds are `Math.floor` of JavaScript's `eta % 60`: s ≤ Rem60(eta) < s + 1. For a non-negative ETA they are in 0..59 and 60·minutes + seconds equals the ETA's whole seconds. For a negative ETA they are in −60..0. |
| Progress.EtaText | electron/services/installation.service.js:55-65 | The text reads back, through an independent parser that accepts only texts written as the source writes them (`ParseEtaExact`), as exactly its two numbers: `Xm Ys` with X the minutes when the minutes are positive, else `Ys` alone, with Y the seconds, signed for a negative ETA. For a non-negative ETA these add up to its whole seconds. |
| Progress.EtaTextOf | electron/services/installation.service.js:65 | With positive minutes and seconds ≥ 0 the text reads back as minutes and seconds (`Xm Ys`). With minutes ≤ 0 it reads back as the seconds alone (`Ys`, a negative number keeps its sign), so the minutes are left out. |
| Progress.PollPercent | electron/services/installation.service.js:124 | A polled extraction percent is in 0..99, so never 100. It is 99 for an archive with no entries (the quotient is Infinity). Below 99 it is the nearest whole percent of count/entries, and 99 is reported only when that percent rounds to 99 or more (the cap of `Math.min`). |
| Progress.DownloadPercentInRange | electron/services/installation.service.js:36-38 | With no more bytes than announced, the download percent lies in 0..100. |
| Progress.UnknownTotalPercentZero | electron/services/installation.service.js:36-38 | A response without a size reports 0 percent however many bytes have come in. |
| Progress.DownloadPercentEnds | electron/services/installation.service.js:38 | All bytes give 100 and no bytes give 0. |
| Progress.DownloadPercentMonotone | electron/services/installation.service.js:38 | More bytes never lower the percent. |
| Progress.EtaNonNegative | electron/services/installation.service.js:46-49 | Speed and ETA never divide by zero, and with no more bytes than announced the ETA is never negative. |
| Progress.UnknownTotalEtaIsMinusElapsed | electron/services/installation.service.js:36-49 | With total 0 (no size announced), the ETA is minus the elapsed seconds. |
| Progress.UnknownTotalShowsNegativeEta | electron/services/installation.service.js:36-65 | For 1000 bytes after 5 s with an unknown total, the ETA text is `-5s`. |
| Progress.ZeroEtaText | electron/services/installation.service.js:46-65 | An ETA of 0, the ETA of every transfer's first tick, prints as `0s`. |
| Progress.ParseEtaExact | electron/services/installation.service.js:65 | Every text it reads is exactly the text printed for the parts it reads. So the round trip in `EtaText` and `EtaTextOf` fixes the text character for character. |
| Progress.NegativeTextExact | electron/services/installation.service.js:65 | A text read as a negative number of seconds is exactly `-${n}s`. |
| Progress.SecondsTextExact | electron/services/installation.service.js:65 | A text read as seconds alone is exactly `${s}s`. |
| Progress.MinutesTextExact | electron/services/installation.service.js:65 | A text read as minutes and seconds is exactly `${m}m ${s}s`. |
| Progress.SignedZeroRefused | electron/services/installation.service.js:65 | Zero prints without a sign: `0s` is read, `-0s` is refused. |
| Progress.LeadingZerosRefused | electron/services/installation.service.js:65 | Numbers with leading zeros, such as `05s` or `007m 5s`, are refused. |
| Progress.ZeroMinutesRefused | electron/services/installation.service.js:65 | Minutes are printed only when positive, so `0m 5s` is refused. |
| Progress.PollPercentSaturates | electron/services/installation.service.js:124 | Once the counter reaches the entry count, the poll reports 99. |
| Installation.TickEvent | electron/services/installation.service.js:59-66 | A tick reports the download percent of its bytes and the ETA text measured from the transfer's start time. |
| Installation.DownloadEvents | electron/services/installation.service.js:42-44 | Each tick sends one event. Every tick measures from the same start: the leftover `downloadStart` if one is set, else the first tick's clock. |
| Installation.EnsureDir | electron/services/installation.service.js:22-23 | `mkdir -p` makes the directory exist, keeps an existing one as it is and touches no other path. |
| Installation.PollsBeforeSettle | electron/services/installation.service.js:103-136 | The timer fires before the callback as often as it gets to, but never past its own stop: the smaller of the polls before completion and the entry count. With no entries it fires once (if the callback has not come first) and clears itself. |
| Installation.SettledExtractTrace | electron/services/installation.service.js:103-136 | Up to the moment the extraction settles the sink receives the polls that fired, the k-th reporting the clamped percent of k, then one 100 iff the extraction succeeded. |
| Installation.AsWrittenExtractTrace | electron/services/installation.service.js:103-136 | Everything the sink receives, as written: the settled trace, then the remaining polls up to the entry count, which keep counting after the 100. |
| Installation.PollEvents | electron/services/installation.service.js:122-131 | The k-th poll reports the clamped percent of a counter equal to k. |
| Installation.SettledTraceShape | electron/services/installation.service.js:103-136 | Until the extraction settles, it sends only extraction events, every poll is ≤ 99, and it ends on 100 exactly when the extraction succeeded. |
| Installation.TrailingPollsAfterCompletion | electron/services/installation.service.js:122-136 | With 10 entries and completion after 2 polls, event 3 is the 100 and eight more polls follow it. The last of them is 99. |
| Installation.AddFiles | electron/services/installation.service.js:103 | Extraction writes each top-level name as a file in the game directory, overwriting, and keeps every other node. |
| Installation.ValidateInstallation | electron/services/installation.service.js:150-170 | Validation is true iff the path exists, is a readable directory and has at least one entry. Any stat or readdir failure gives false. |
| Installation.ArchiveMakesDirectoryNonEmpty | electron/services/installation.service.js:159-162 | While `game.zip` is in the game directory, validation fails only on an unreadable directory. |
| Installation.Cleanup | electron/services/installation.service.js:176-183 | Cleanup removes the archive when it is a file. On failure the disk stays as it was and no error escapes. |
| Installation.CleanupKeepsExtracted | electron/services/installation.service.js:203-212 | Deleting the archive after extraction keeps the game directory and every extracted name other than `game.zip`. |
| Installation.IsGameInstalled | electron/services/installation.service.js:229-237 | A game is installed iff its game path exists and is a directory. |
| Installation.UninstallGame | electron/services/installation.service.js:245-256 | Uninstall always answers true and removes the game directory tree. |
| Installation.UninstallRemovesGame | electron/services/installation.service.js:245-251 | After uninstall the game is not installed and nothing inside its directory is left. |
| Installation.UninstallIdempotent | electron/services/installation.service.js:250 | Uninstalling twice equals uninstalling once. |
| Installation.UninstallKeepsOtherGames | electron/services/installation.service.js:247-250 | Uninstalling one game leaves every path of another game's directory as it was. |
| Installation.InstallationService.OnDownloadProgress | electron/services/installation.service.js:35-66 | The first tick of a transfer sets `downloadStart` from its clock and later ticks keep it. The event reports the tick measured from that start. |
| Installation.InstallationService.ReceiveTicks | electron/services/installation.service.js:35-66 | A run of ticks sends exactly one event per tick, in order, all measured from the same start (`DownloadEvents`), and leaves that start in `downloadStart`. |
| Installation.InstallationService.DownloadGame | electron/services/installation.service.js:18-83 | Download contract, case by case: A file at the game path fails mkdir with its EEXIST message, with no event. A failed request sends no event and fails with the request's error. A directory at the archive path fails with the EISDIR open message. Otherwise each tick sends its event and the archive file is written. `downloadStart` is set by the first tick and cleared only on a finished write. A write error keeps it. |
| Installation.InstallationService.ExtractGame | electron/services/installation.service.js:92-143 | Extraction contract, up to the moment the promise settles: A missing archive fails with `Invalid filename`, a directory there with the EISDIR read message, and an archive the library cannot open with its error; all three send no event and leave the disk alone. Otherwise the loop sends the settled trace's polls; on success it sends 100 and every top-level name is written into the game directory. On an extraction error the call fails with that error, and the entries written before it stay on disk (no rollback). |
| Installation.InstallationService.InstallGame | electron/services/installation.service.js:193-222 | Each phase's error is rethrown as the install's error, with the disk, the events and `downloadStart` exactly as that phase left them (DownloadGame's cases). After a finished download, `downloadStart` is cleared and the events are the download events followed by FinishInstall's events, with FinishInstall's result and disk. The install succeeds iff the game path is not a file and not an unreadable directory, the archive path is not a directory, the transfer streams without a write error and the archive extracts without an error. Success returns `{success:true, path:gamePath}`: the game is installed, its archive is deleted, the extracted names are present, and the events, which run up to the moment extraction settles, end on 100. |
| Installation.InstallationService.FinishInstall | electron/services/installation.service.js:202-217 | After a download: an archive that cannot be opened fails with its error and no change; an extraction error fails with that error, with the partial writes on disk; a completed extraction into an unreadable directory fails with `Installation validation failed`, keeping the files and the archive; otherwise it succeeds with `{success:true, path:gamePath}` and the disk is the extracted one minus `game.zip`. The events are the extraction trace up to the moment extraction settles. So it succeeds iff the extraction completes and the directory is readable. |
| InstallIpc.ForwardProgress | electron/main.js:123-130 | Every pipeline event reaches the renderer tagged with the run's game id and name. |
| InstallIpc.SettleNotification | electron/main.js:135-152 | A settled run notifies `complete` with the result's path iff the pipeline succeeded, else `error` with its message. Both carry the run's id and name. |
| InstallIpc.InstallRegistry.GetStatus | electron/main.js:163-165 | Status is the stored record, or `idle` for an absent id. |
| InstallIpc.InstallRegistry.Start | electron/main.js:110-160 | Start has two outcomes and never changes other ids: A present id gives `Installation already in progress for this game`, with the map unchanged and no run started. Otherwise `installing` is stored and a run is launched. The reply is `Installation started`. |
| InstallIpc.InstallRegistry.Cancel | electron/main.js:168-174 | A present id is deleted with `{success:true}`. An absent id gives `{success:false, error:'No active installation'}` and no change. Afterwards the id is idle and other ids are untouched. |
| InstallIpc.InstallRegistry.Settle | electron/main.js:133-152 | Completion or failure deletes the run's id, whoever holds it now, and sends the run's notification. Other ids are untouched. |
| InstallIpc.RestartAfterSettle | electron/main.js:115-145 | After a run settles, a new start for the same id is accepted. |
| InstallIpc.CancelRestartRace | electron/main.js:133-171 | After cancel, restart, then completion of the first run, the id reads `idle` while the second run goes on, and a third start is accepted. |
| Launcher.Show | electron/services/launcher.service.js:64 | A missing manifest field prints as `undefined` in a message. |
| Launcher.OrText | electron/services/launcher.service.js:76 | For strings, `a \|\| b` falls back on a missing or empty value. |
| Launcher.OrNumber | electron/services/launcher.service.js:88-91 | For numbers, `a \|\| b` falls back on a missing or zero value. |
| Launcher.SelectMethod | electron/services/launcher.service.js:55-65 | The window launch is chosen iff the platform is `web` or `html` or the entry point or main file ends in `.html`. Otherwise the process launch is chosen iff the platform is `exe` and the entry point ends in `.exe`. Anything else is unsupported. |
| Launcher.HtmlTestTakesPrecedence | electron/services/launcher.service.js:55-62 | Any manifest with platform `exe` and a `.exe` entry point whose main file ends in `.html` opens in a window: the HTML test wins. |
| Launcher.ExecutableNeedsBoth | electron/services/launcher.service.js:55-65 | For any manifest without an HTML entry point or main file: under platform `exe` it spawns a process iff the entry point ends in `.exe`, and is refused otherwise. Under any platform other than `exe`, `web` or `html` (or none), it is refused. |
| Launcher.EntryFile | electron/services/launcher.service.js:76 | The HTML entry is `entryPoint \|\| mainFile \|\| 'index.html'`, which is never empty and always one of these three. |
| Launcher.WindowOptionsFor | electron/services/launcher.service.js:87-92 | The window is sized by `minWidth \|\| 1280` and `minHeight \|\| 720`. Its minimums are `minWidth \|\| 800` and `minHeight \|\| 600`, and its title is `gameName \|\| gameId`. |
| Launcher.WindowNotBelowMinimum | electron/services/launcher.service.js:88-91 | The initial window size is never below its minimum size. Without manifest sizes it is 1280x720 with an 800x600 floor. |
| Launcher.Launched | electron/services/launcher.service.js:139-143 | A fresh launch answers success with `<gameName> lancé avec succès` and the game id. |
| Launcher.SummaryOf | electron/services/launcher.service.js:196-201 | A summary carries the id, name and start time, with type `window` iff a window is stored and `process` iff a process is. |
| Launcher.CloseActionFor | electron/services/launcher.service.js:216-220 | Closing closes a live window or kills a process, and does nothing for an already destroyed window. |
| Launcher.WithoutMembers | electron/services/launcher.service.js:50 | Deleting a key removes exactly that key from the order and keeps the others distinct. Deleting an absent key changes nothing. |
| Launcher.WithoutAppend | electron/services/launcher.service.js:50 | Removing a key from two key lists joined is removing it from each. |
| Launcher.WithoutSingle | electron/services/launcher.service.js:50 | Removing a key that occurs once gives the keys before it followed by the keys after it, in their order. |
| Launcher.WithoutKeepsOrder | electron/services/launcher.service.js:50 | In a table's key order, where every key occurs once, deleting a key closes the gap and keeps every other key in its place relative to the others. |
| Launcher.Delete | electron/services/launcher.service.js:50 | `Map.delete` removes the entry. The key leaves the order and the keys before and after it keep their order. An absent key leaves the table as it was. |
| Launcher.Set | electron/services/launcher.service.js:120-124 | `Map.set` stores the session. A new key goes last and an existing key keeps its place. |
| Launcher.SetThenDelete | electron/services/launcher.service.js:120-130 | A session added under a new id and then removed by its close listener leaves the table exactly as before, order included. |
| Launcher.LauncherService.LaunchGame | electron/services/launcher.service.js:19-70 | Each failure gives its message with the table unchanged: Missing game directory: `Le jeu n'est pas installé dans: <path>`. Manifest read or parse error: `Impossible de lire le manifest.json: <message>`. Unsupported platform: `Type de jeu non supporté: <platform>`, or `undefined`. The old session is still purged. A live window of the same game is focused, and the table stays the same. Any other old session is deleted first. The per-method outcomes are as for LaunchHtmlGame and LaunchExecutable. |
| Launcher.LauncherService.LaunchHtmlGame | electron/services/launcher.service.js:75-144 | A missing entry page gives `Fichier d'entrée introuvable: <entry>` and a failed load gives its error, both with no new session. Otherwise the window is recorded under the game id with the manifest's options. |
| Launcher.LauncherService.LaunchExecutable | electron/services/launcher.service.js:149-188 | A missing executable gives `Exécutable introuvable: <entry>`. Otherwise the spawned process is recorded under the game id. |
| Launcher.LauncherService.OnSessionEnded | electron/services/launcher.service.js:126-130 | The window's `closed` listener, and in the same way the process's `exit` listener (lines 177-180), delete the game id unconditionally. |
| Launcher.LauncherService.GetActiveGames | electron/services/launcher.service.js:193-204 | The loop returns one summary per session in insertion order, each id once. |
| Launcher.LauncherService.CloseGame | electron/services/launcher.service.js:209-224 | An unknown id gives `{success:false, message:'Jeu non lancé'}` with no change. Otherwise the window is closed or the process is killed, the entry is deleted, and the reply is `Jeu fermé`. |
| Launcher.ProcessRelaunchRace | electron/services/launcher.service.js:43-51 | Relaunching a running executable spawns a second process. When the first one exits, the game is no longer tracked although the second still runs. |
| Launcher.WindowFocusedOnRelaunch | electron/services/launcher.service.js:43-47 | A second launch focuses the open window and keeps one session. After the window is destroyed, a launch opens a new one. |
| Router.OnlyAdminRequiresAdmin | src/router/index.ts:76-81 | Only the `admin` record has `requiresAdmin`, and it also has `requiresAuth`. |
| Router.PublicRecords | src/router/index.ts:16-97 | The records without `requiresAuth` are login, register, terms, privacy, the `/` layout and its redirect. |
| Router.RootRedirectsHome | src/router/index.ts:26-39 | The empty child of `/` is the only redirect, and it goes to `/home`, which requires authentication. |
| Router.AfterFetch | src/stores/userStore.ts:13-31 | After the profile fetch the user is signed in with the returned user iff the profile had one. Otherwise the user is signed out. |
| Router.GuardState | src/router/index.ts:116-130 | The profile is fetched only with a stored token and no signed-in user, and a refused token is removed. |
| Router.Decision | src/router/index.ts:103-140 | On /login and /register the guard sends a signed-in user to /home and lets anyone else proceed. Elsewhere, against the store the guard leaves: a protected page without a signed-in user goes to /login (a refused token included), an admin page without an administrator goes to /home, and anything else proceeds. |
| Router.AuthPagesBounceSignedInUsers | src/router/index.ts:107-114 | On /login and /register a signed-in user goes to /home and anyone else proceeds. Nothing is fetched. |
| Router.RefusedTokenIsCleared | src/router/index.ts:117-130 | A token whose profile fetch throws is cleared, and a protected page then goes to /login. |
| Router.ProceedOnlyWhenAllowed | src/router/index.ts:132-139 | Outside login and register, a protected page proceeds only for a signed-in user and an admin page only for an administrator. |
| Router.RedirectsGoToLoginOrHome | src/router/index.ts:103-140 | The guard only proceeds or redirects to /login or /home. |
| Router.TableIsGuarded | src/router/index.ts:132-136 | Every protected page of the table sends a visitor without a token to /login, and the admin page sends a non-administrator home. |
| Router.Navigation.BeforeEach | src/router/index.ts:103-140 | Every navigation calls `next` exactly once with the guard's decision, and leaves the token and store in the guard's resulting state. |
| Friends.FriendsStore.FindFriend | src/stores/friendsStore.ts:105 | The loop returns the index of the first friend with the id, or none when no friend has it. |
| Friends.FriendsStore.UpdateFriendStatus | src/stores/friendsStore.ts:104-110 | The first friend with the id gets the new status and lobby, an absent lobby included. Every other friend object is unchanged, and with no match nothing changes. |
| Friends.FriendsStore.TogglePopup | src/stores/friendsStore.ts:112-114 | The popup flag is negated and nothing else changes. |
| Friends.FriendsStore.SelectFriend | src/stores/friendsStore.ts:116-118 | The selection becomes the argument, null included. |
| Friends.ToggleTwiceRestores | src/stores/friendsStore.ts:112-114 | Toggling twice restores the popup flag. |
| Friends.SelectionSeesUpdate | src/stores/friendsStore.ts:104-118 | An update of the selected friend shows through the selection, and an update without a lobby clears it. |
| Friends.OnlyFirstMatchUpdated | src/stores/friendsStore.ts:105-109 | Of two friends with the same id, only the first is updated. |

## Left out

- Installation.TickEvent: the `speed`, `downloaded` and `total` texts (MB with `toFixed(2)`) are not part of the event. Only the percent and the ETA text are modelled.
- JavaScript numbers are exact reals and integers, so there is no floating-point rounding. Byte counts are naturals, and a `loaded` the server leaves out is 0.
- Paths are lists of segments. `path.join` normalisation (`..`, separators, absolute segments) and creating ancestor directories are not modelled. `mkdir` only creates the game directory.
- The `activeDownloads` map of the installation service is created but never used, so it is not modelled.
- A read error on the response stream is not modelled. The write stream never finishes then, so the promise never settles.
- Installation.InstallationService.OnDownloadProgress: the source tests `!this.downloadStart` (installation.service.js:42), so a start clock of 0 would count as unset and the next tick would restart it. The model assumes the clock (`Date.now()`) never reads 0 and treats every recorded start as set.
- Installation.AddFiles: extraction is flattened. Every top-level name of the archive becomes a file node directly in the game directory. Directory entries are not created as directories, nested entries are not written at their full paths, and extracting over an existing directory of the same name replaces that node with a file while its children stay on disk. Nothing the model proves depends on the node kind of the extracted names.
- Installation.InstallationService.ExtractGame: the library's own messages for an archive it cannot open are not distinguished (they are the script's `reason`), and the top-level names written before an extraction error are given by the script rather than derived from the entry order.
- The window between `mkdir` (installation.service.js:23) and `createWriteStream` (installation.service.js:72) is not modelled, so the EISDIR check uses the disk as it is after `mkdir`. Permission and other errors of writing files are not modelled: extraction succeeds whenever the archive script says so. An error from `fs.rm` during uninstall (installation.service.js:250) is not modelled either: uninstall always answers true.
- Launcher.Manifest: `gameId` is a string that is always present. A manifest without it (an `undefined` map key) is not modelled.
- User-data injection by `executeJavaScript`, `shell.openExternal`, the window preload and `console` logging are not modelled. `mainWindow.webContents.send` becomes returned notifications.
- Concurrency is not modelled: each handler and each install runs to completion before the next one. The detached install run is represented by `Settle`, which is called when the run finishes.
- Router: matching a URL to a route record (parameters, nested paths) is not modelled. The guard receives the target's path and merged meta flags. Vue's `next` is modelled as the list of calls the hook makes.
- The asynchronous friend actions (`fetchFriends`, friend requests, `removeFriend`) talk to a server that is not part of this model.

## Findings

| source | as written | input that shows it | evidently intended | confidence | as-written member | corrected member |
|---|---|---|---|---|---|---|
| electron/services/installation.service.js:122-136 | The polling interval is cleared only when its own counter reaches the entry count. The completion callback (lines 103-119) neither clears it nor stops it. | An archive with 10 entries whose extraction completes after 2 polls sends 10, 20, then 100, and afterwards eight more polls up to 99. These reach the install's progress sink after it has already reported 100, possibly during validation. | The extraction phase ends on its final 100, so the completion callback should clear the interval. | not executed | Installation.TrailingPollsAfterCompletion | Installation.SettledTraceShape |
