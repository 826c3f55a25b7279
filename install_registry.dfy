/** The installation IPC handlers of electron/main.js: the `activeInstallations`
    map from game id to `{ status: 'installing', gameName }`, the handlers
    `installation:start`, `installation:getStatus` and `installation:cancel`,
    and the deletion that runs when a detached install settles. The install
    itself is the pipeline of module `Installation`; its outcome is an input
    of `Settle`, and `mainWindow.webContents.send` becomes a returned
    notification. */
module InstallIpc {

  import opened Wrappers
  import opened FileSystem
  import Installation

  /** `{ status: 'installing', gameName }` as stored, or `{ status: 'idle' }`
      as answered for an id with no entry. */
  datatype Status = Installing(gameName: string) | Idle

  /** `{ success, error }` from `installation:cancel`. */
  datatype CancelReply = CancelReply(success: bool, error: Option<string>)

  /** A detached install run, as its `then`/`catch` callbacks see it: they
      captured the game id and name of the `start` call that launched them. */
  datatype Run = Run(gameId: string, gameName: string)

  /** What the renderer receives on the `installation:*` channels. */
  datatype Notification =
    | Progress(gameId: string, gameName: string, event: Installation.Event)
    | Complete(gameId: string, gameName: string, path: Path)
    | Failed(gameId: string, gameName: string, error: string)

  const AlreadyInProgress: string := "Installation already in progress for this game"
  const InstallationStarted: string := "Installation started"
  const NoActiveInstallation: string := "No active installation"

  /** `onProgress`: every pipeline event is forwarded with the run's id and
      name spread in front of it. */
  function ForwardProgress(run: Run, e: Installation.Event): (n: Notification)
    ensures n.Progress? && n.gameId == run.gameId && n.gameName == run.gameName && n.event == e
  {
    Progress(run.gameId, run.gameName, e)
  }

  /** The notification a settled run sends: `installation:complete` with the
      result's path, or `installation:error` with the error's message. */
  function SettleNotification(run: Run, outcome: Result<Installation.InstallResult>): (n: Notification)
    ensures n.gameId == run.gameId && n.gameName == run.gameName
    ensures outcome.Ok? <==> n.Complete?
    ensures outcome.Ok? ==> n.path == outcome.value.path
    ensures outcome.Err? ==> n.Failed? && n.error == outcome.error
  {
    match outcome
    case Ok(result) => Complete(run.gameId, run.gameName, result.path)
    case Err(message) => Failed(run.gameId, run.gameName, message)
  }

  class InstallRegistry {

    /** `activeInstallations`, keyed by game id. */
    var activeInstallations: map<string, Status>

    /** Only `installing` records are ever stored. */
    ghost predicate Valid()
      reads this
    {
      forall id :: id in activeInstallations ==> activeInstallations[id].Installing?
    }

    constructor ()
      ensures Valid() && activeInstallations == map[]
    {
      activeInstallations := map[];
    }

    /** `installation:getStatus`: the stored record, else idle. */
    function GetStatus(gameId: string): (s: Status)
      reads this
      ensures gameId in activeInstallations ==> s == activeInstallations[gameId]
      ensures gameId !in activeInstallations ==> s == Idle
    {
      if gameId in activeInstallations then activeInstallations[gameId] else Idle
    }

    /** `installation:start`: a duplicate id is refused with an error and the
        map is left alone; otherwise the record is stored, the install is
        launched as a detached run, and the reply comes back at once. */
    method Start(gameId: string, gameName: string) returns (reply: Result<string>, run: Option<Run>)
      requires Valid()
      modifies this
      ensures Valid()
      ensures old(gameId in activeInstallations) ==>
        && reply == Err(AlreadyInProgress) && run == None
        && activeInstallations == old(activeInstallations)
      ensures old(gameId !in activeInstallations) ==>
        && reply == Ok(InstallationStarted) && run == Some(Run(gameId, gameName))
        && activeInstallations == old(activeInstallations)[gameId := Installing(gameName)]
        && GetStatus(gameId) == Installing(gameName)
      ensures forall id :: id != gameId ==> GetStatus(id) == old(GetStatus(id))
    {
      if gameId in activeInstallations {
        reply, run := Err(AlreadyInProgress), None;
        return;
      }
      activeInstallations := activeInstallations[gameId := Installing(gameName)];
      reply, run := Ok(InstallationStarted), Some(Run(gameId, gameName));
    }

    /** `installation:cancel`: drops the record only; the run goes on. */
    method Cancel(gameId: string) returns (reply: CancelReply)
      requires Valid()
      modifies this
      ensures Valid()
      ensures old(gameId in activeInstallations) ==>
        reply == CancelReply(true, None) && activeInstallations == old(activeInstallations) - {gameId}
      ensures old(gameId !in activeInstallations) ==>
        reply == CancelReply(false, Some(NoActiveInstallation)) && activeInstallations == old(activeInstallations)
      ensures GetStatus(gameId) == Idle
      ensures forall id :: id != gameId ==> GetStatus(id) == old(GetStatus(id))
    {
      if gameId in activeInstallations {
        activeInstallations := activeInstallations - {gameId};
        return CancelReply(true, None);
      }
      return CancelReply(false, Some(NoActiveInstallation));
    }

    /** The `then`/`catch` of a run: delete the run's id, whoever holds it
        now, and notify the renderer. */
    method Settle(run: Run, outcome: Result<Installation.InstallResult>) returns (n: Notification)
      requires Valid()
      modifies this
      ensures Valid()
      ensures activeInstallations == old(activeInstallations) - {run.gameId}
      ensures n == SettleNotification(run, outcome)
      ensures GetStatus(run.gameId) == Idle
      ensures forall id :: id != run.gameId ==> GetStatus(id) == old(GetStatus(id))
    {
      activeInstallations := activeInstallations - {run.gameId};
      n := SettleNotification(run, outcome);
    }
  }

  /** Once a run has settled its id can be started again. */
  method RestartAfterSettle(gameId: string, gameName: string, outcome: Result<Installation.InstallResult>)
    returns (first: Result<string>, second: Result<string>)
    ensures first == Ok(InstallationStarted) && second == Ok(InstallationStarted)
  {
    var registry := new InstallRegistry();
    var run;
    first, run := registry.Start(gameId, gameName);
    var _ := registry.Settle(run.value, outcome);
    var run2;
    second, run2 := registry.Start(gameId, gameName);
  }

  /** Cancel does not stop a run, and settling deletes by id alone: after a
      cancel and a restart, the first run's completion wipes the record of
      the second, which is still installing, so the id reads idle and a
      third start is accepted beside it. */
  method CancelRestartRace(gameId: string, gameName: string, outcome: Result<Installation.InstallResult>)
    returns (statusWhileSecondRuns: Status, third: Result<string>)
    ensures statusWhileSecondRuns == Idle
    ensures third == Ok(InstallationStarted)
  {
    var registry := new InstallRegistry();
    var _, run1 := registry.Start(gameId, gameName);
    var _ := registry.Cancel(gameId);
    var second, run2 := registry.Start(gameId, gameName);
    assert second.Ok? && run2.Some?;
    var _ := registry.Settle(run1.value, outcome);
    statusWhileSecondRuns := registry.GetStatus(gameId);
    var run3;
    third, run3 := registry.Start(gameId, gameName);
  }
}
