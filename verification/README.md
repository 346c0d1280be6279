# tsk: checkouts, taskspaces and records, verified

tsk gives every task a taskspace of compositor workspaces and one or more checkouts of a source repository.
This project models the part of `tsk-core` that moves files, changes registrations and keeps the session in
step with the compositor, and proves what that code promises. `dafny verify dfyconfig.toml` checks all of it.

## What is modelled

**Unlinking and re-linking checkouts** (`checkouts.dfy`, `relink.dfy`, `rediscovery.dfy`,
`reattach_all.dfy`). Archiving a task
unlinks its git worktrees or jj workspaces and keeps their files. Restoring moves the live tree, entry by entry,
into a hidden backup folder, has git or jj create the checkout anew, and lays the backup over the new tree. The
class `Relink.Workspace` is the task's workspace directory with the source repository's registrations and the jj
restore notes. Every file operation and every command is one step and may fail. The ghost field `history` holds
the state after every step, so a statement about all of `history` is a statement about every point where the
process may die. `faults` counts failed file operations, `denials` commands that failed without need.

Main results:

- Wherever the process dies, and whatever fails, every entry but the metadata (`.git` or `.jj`) is still in the
  checkout or in a backup with its content, and other folders are untouched (`Workspace.Reattach`).
- Recovery is idempotent, restores in full a checkout that was left empty, and moves nothing when both sides hold
  files; then the relink refuses (`Workspace.Relink`). So a backup that holds files is never removed.
- A detach and a reattach give the new tree overridden by every old entry except the metadata; the name is
  registered at this checkout. It works if nothing fails and git has not registered the name elsewhere. A failed add
  puts the old tree back. The same holds for all checkouts of a task at once
  (`ReattachAll.DetachThenReattachAll`).
- A second reattach moves nothing for a jj checkout. For a git one it finds the checkout linked exactly if the path
  has no white space, because the listing is read up to the first space (`Workspace.ReattachTwice`).
- After a crash, a reattach that nothing stops empties the backup of all but metadata exactly if the crash had left
  the checkout empty, or nothing else in the backup (`Workspace.ReattachAfterCrash`). A crash between the add and the
  overlay leaves a checkout that looks linked; the next reattach reports success and leaves the old files in the
  backup (`Workspace.CrashLeavesWork`).
- Detaching all checkouts of a task changes neither which checkouts it owns nor their names, whether or not each
  `jj workspace forget` worked, and wherever the loop stops (`Rediscovery.DetachAll`). The listing fails exactly when
  some forgotten jj checkout has no recorded name. After a crash in a jj relink that is so exactly if `.jj` had been
  moved into the backup; only a direct reattach reaches recovery from there (`Rediscovery.ListingBlocked`).
- `git worktree prune` inside a reattach drops every other detached checkout of the repository: each is found again
  exactly if it still had its `.git` file (`Rediscovery.FoundAfterPrune`). A loop over all checkouts of a task that
  stops after a first relink, or at a failed add, loses the ones it has not tried; a jj loop leaves them as they were
  (`ReattachAll.ReattachAll`). Within one git relink the checkout is registered as before until the prune, not at all
  until the add, and again from then on, so a process that dies in between, or a failed add, leaves it unregistered
  (`Workspace.Relink`).
- Git takes a checkout with a `.git` file for a linked one exactly if its path has no white space and it is registered
  or a registered path continues it with white space (`Workspace.LiveMeans`).
- jj takes a checkout with a `.jj` folder for a linked one exactly if its name is registered for it, or with no root; a
  name registered elsewhere is forgotten and the checkout relinked (`Workspace.UsableIsLive`,
  `Workspace.ReattachRegistered`).

Assumptions about the tools: `git worktree add` and `jj workspace add` fill and register an empty or missing
folder under a free name, or fail and leave folder and registrations alone; `jj workspace forget` may do nothing;
`git worktree prune` keeps a registered folder of this directory exactly if its `.git` file is there;
`jj workspace update-stale` moves no top-level entry.

**Taskspaces and the task lifecycle** (`workspaces.dfy`, `context_sync.dfy`, `service.dfy`, `task_service.dfy`,
`convergence.dfy`). Workspace names and their owners, the session that follows the compositor, the revert guard,
and create, switch, archive, restore and delete. `ContextSync.SessionState` and `TaskServices.TaskService` change
their fields as the code does and are proved equal to functions on a `Session` value; the lemmas are about those
functions, and say what they do without naming them. `Convergence` joins session, compositor and event queue into one
transition system.

Main results:

- Every run of operations keeps task mode together with a live current task, and windows and slot memory with the
  tasks that exist (`Service.RunKeeps`).
- An event is followed exactly if the compositor still stands by it, no monitor is being plugged in, and the guard
  does not hold its name, which it does for the names that were left and for two seconds (`Service.ExternalOutcome`,
  `Service.GuardExpires`). So no sequence of late events reverts a switch (`Convergence.SwitchIsNotReverted`).
- In every run without dropped events a drained queue means that session and compositor agree
  (`Convergence.Converges`).
- Archiving or deleting a task leaves the taskspace exactly if the task is current or on screen, and changes no other
  task and none of its records (`Service.ArchiveOutcome`, `Service.DeleteOutcome`); archive and restore undo each other
  but for times (`Service.ArchiveRestore`).

**Records and formats.** The HANDOFF.md metadata rewriter and reader (`handoff.dfy`), the state database saved by
differences (`registry.dfy`), short task ids (`task_ids.dfy`), the porcelain parser (`porcelain.dfy`), the jj
restore note (`sidecar.dfy`), greedy window matching (`browser_session.dfy`), the event stream
(`hyprland_events.dfy`, `utf8.dfy`) and the two quoting functions (`quoting.dfy`). `text.dfy` has Rust's `trim` and
`lines`; `models.dfy` the shared data.

Main results:

- Stamping a HANDOFF.md never changes its validation verdict, and reading it back gives what was stamped
  (`Handoff.VerdictKept`, `Handoff.ReadBack`); a document is valid exactly if its five headings stand in it and two
  sections have text (`Handoff.ValidMeans`). A second stamp equals one stamp exactly if no copied line ends in a
  carriage return (`Handoff.RewriteTwice`).
- What is printed, written, quoted or saved is read back as it was: worktree listings, notes, Lua and shell literals,
  database rows, UTF-8 (`Porcelain.PorcelainRoundTrip`, `Sidecar.NoteRoundTrip`, `Quoting.LuaRoundTrip`,
  `Quoting.ShellRoundTrip`, `Registry.Database.SaveState`, `Utf8.RoundTrip`).
- However the event stream is cut between characters, the same events are delivered
  (`HyprlandEvents.EventReader.ReadPieces`).

Where the code and a plain reading of its purpose part, the model follows the code, and an if-and-only-if says
when the purpose is met: `Relink.Workspace.ReattachAfterCrash`, `Relink.Workspace.ReattachTwice`,
`Relink.Workspace.AddedIsLive`, `Relink.Workspace.LiveMeans`, `Rediscovery.FoundAfterPrune`,
`Rediscovery.ListingBlocked`, `Handoff.RewriteTwice`, `Convergence.HandledAgrees`, `Service.CompleteArchiveKeeps`,
`HyprlandEvents.CutInTwo`, `Sidecar.SiblingNotes`, `Checkouts.BackupsCollide`, `Workspaces.SharedName`,
`TaskIds.ShortIdFinds`. Inputs on which it is not met: `Relink.Workspace.CrashLeavesWork`,
`Relink.Workspace.SpaceIsNeverLive`, `Relink.Workspace.ShadowExample`, `Rediscovery.OtherIsLost`,
`Rediscovery.ListingExamples`, `Handoff.RewriteTwiceExample`, `Convergence.LateFocusIsLost`.

## Model

| member | source | states |
|---|---|---|
| Checkouts.BackupsCollide | crates/tsk-core/src/vcs.rs:1026-1032 | two workspace names share a backup folder exactly when they are equal or one is the other plus `-git` |
| Checkouts.RelinkConserves | crates/tsk-core/src/vcs.rs:943-1024 | every state of a relink that began with an empty backup still holds each old entry but the metadata, in the checkout or the backup |
| Checkouts.RecoveryConserves | crates/tsk-core/src/vcs.rs:1061-1087 | every state of a recovery into an empty checkout still holds each entry |
| Checkouts.MergingDiscard | crates/tsk-core/src/vcs.rs:966-968 | removing a backup that holds at most the metadata, even half way, loses nothing else |
| Checkouts.RecoveredTwice | crates/tsk-core/src/vcs.rs:1058-1087 | recovery is idempotent, and afterwards no backup holds files beside an empty checkout |
| Checkouts.RecoveredFiles | crates/tsk-core/src/vcs.rs:1061-1087 | an empty or missing checkout gets exactly the first backup with files; otherwise checkout and non-empty backups stay, and other folders always do |
| Checkouts.CrashRecovery | crates/tsk-core/src/vcs.rs:447-449 | from any crash state of a relink, recovery gives back all the original entries if the checkout was left empty, and moves nothing otherwise |
| Relink.Workspace.MoveDirContents | crates/tsk-core/src/vcs.rs:1108-1129 | at every step the entries are spread over the two folders without loss or overlap; on success all are in the destination |
| Relink.Workspace.RemoveDirAll | crates/tsk-core/src/vcs.rs:1099-1102 | at every step only that folder differs and it gains nothing; on success it is gone |
| Relink.Workspace.Overlay | crates/tsk-core/src/vcs.rs:1152-1185 | at every step what left the backup is in the checkout; on success the checkout is the new tree overridden by the old entries except the metadata, and the backup holds at most that |
| Relink.Workspace.RestoreBackup | crates/tsk-core/src/vcs.rs:1131-1150 | nothing is lost at any step; if no file operation fails, the checkout is the old tree and the backup is gone |
| Relink.Workspace.RecoverOne | crates/tsk-core/src/vcs.rs:1063-1085 | one backup: the result is the specified recovery, and nothing is lost at any step |
| Relink.Workspace.Recover | crates/tsk-core/src/vcs.rs:1061-1087 | both backups: the specified recovery, nothing lost at any step, nothing moved if the checkout holds files |
| Relink.Workspace.Prepare | crates/tsk-core/src/vcs.rs:1089-1106 | refuses exactly when backup and checkout both hold files, touching nothing; otherwise touches only the backup and makes it empty, so files in it go only beside an empty checkout |
| Relink.Workspace.Prune | crates/tsk-core/src/vcs.rs:726-742 | a registered folder survives exactly when its `.git` file is there |
| Relink.Workspace.Add | crates/tsk-core/src/vcs.rs:925-940 | fills and registers an empty or missing folder under a free name, or changes nothing |
| Relink.Workspace.JjEdit | crates/tsk-core/src/vcs.rs:996-1011 | may replace the working copy but not `.jj` |
| Relink.Workspace.Forget | crates/tsk-core/src/vcs.rs:1472-1491 | removes at most this name, and may silently do nothing |
| Relink.Workspace.SaveNote | crates/tsk-core/src/vcs.rs:1347-1378 | on success the note of this checkout holds the trimmed name; other notes are untouched |
| Relink.Workspace.SetAside | crates/tsk-core/src/vcs.rs:946-955 | prepare and move: refuses untouched, or ends with an empty checkout and everything in the backup |
| Relink.Workspace.ClearStale | crates/tsk-core/src/vcs.rs:957-958 | after the prune exactly the folders with a `.git` file stay registered, and this checkout does not |
| Relink.Workspace.Recreate | crates/tsk-core/src/vcs.rs:960-968 | after the add: refilled and registered, or the old tree put back with registrations as they were |
| Relink.Workspace.Rebuild | crates/tsk-core/src/vcs.rs:947-968 | the relink from the backup check on: every state spreads or merges the old entries; each outcome's files, registrations and notes |
| Relink.Workspace.Relink | crates/tsk-core/src/vcs.rs:943-1024 | nothing but metadata is lost at any step from any start; done means new tree overridden by old entries, name registered, backup gone; files on both sides mean refused and nothing moved; over the states of a git relink the checkout is registered as before, then not at all from the prune on, then again from the add on |
| Relink.Workspace.RelinkedSame | crates/tsk-core/src/vcs.rs:945-947 | what a relink achieves depends on the files only, not on empty folders left about |
| Relink.Workspace.ReattachGit | crates/tsk-core/src/vcs.rs:545-581 | with a listing, relinks exactly unless the checkout is listed and has its `.git` file; a failed listing changes nothing |
| Relink.Workspace.ReattachJj | crates/tsk-core/src/vcs.rs:485-522 | a checkout with its `.jj` folder whose name is registered here, or with no root, is left alone; one reported linked is such a one; any other name is forgotten and the checkout relinked; a failed listing changes nothing |
| Relink.Workspace.UsableIsLive | crates/tsk-core/src/vcs.rs:528-543 | a jj checkout counts as linked exactly if it has its `.jj` folder and its name is registered for it, or with no root |
| Relink.Workspace.NameAt | crates/tsk-core/src/vcs.rs:1510-1535 | the name registered for the folder, else the folder's own name |
| Relink.Workspace.ChooseName | crates/tsk-core/src/vcs.rs:456-467 | the given name trimmed, or for jj the one found at the checkout; none for git |
| Relink.Workspace.ReattachUnnamed | crates/tsk-core/src/vcs.rs:463-469 | without a name git stops, jj reconnects a linked checkout and otherwise does nothing |
| Relink.Workspace.ReattachRecovered | crates/tsk-core/src/vcs.rs:450-482 | without a known source git stops, a folder that is no checkout is skipped, and jj asks the checkout |
| Relink.Workspace.Reattach | crates/tsk-core/src/vcs.rs:442-483 | for any given name or none, and with or without a known source: conservation at every step, the outcome's effect, a live checkout left alone, files on both sides left alone whatever the outcome, an error only if something failed; a jj checkout linked or done has its name registered for it, or with no root |
| Relink.Workspace.ReattachRegistered | crates/tsk-core/src/vcs.rs:485-522 | a jj checkout whose name is registered here stays as it is; a name registered elsewhere never counts as linked, and if nothing fails it is registered here in the end, unless the relink refuses |
| Relink.Workspace.Detach | crates/tsk-core/src/vcs.rs:583-628 | the files stay but for a `.git` file; a folder with neither a `.git` file nor a `.jj` folder is left alone; a jj checkout gets its note and loses at most its own registration; without a source git gives up |
| Relink.Workspace.DetachThenReattach | crates/tsk-core/src/vcs.rs:442-628 | from no backup: the new tree overridden by all old entries except metadata, registered, backup gone; when it succeeds if nothing fails; a failed add gives the old tree back |
| Relink.Workspace.ReattachTwice | crates/tsk-core/src/vcs.rs:566-569 | after a finished relink a second reattach moves nothing for jj or a path without white space; if nothing fails it finds the checkout linked exactly then |
| Relink.Workspace.LiveHasNoSpace | crates/tsk-core/src/vcs.rs:915-922 | git's listing never shows a checkout whose path has white space |
| Relink.Workspace.AddedIsLive | crates/tsk-core/src/vcs.rs:915-922 | a checkout just added counts as linked exactly if it is a jj one or its path has no white space |
| Relink.Workspace.LiveMeans | crates/tsk-core/src/vcs.rs:902-923 | a git checkout counts as linked exactly if it has its `.git` file, no white space in its path, and is registered or continued by a registered path |
| Relink.Workspace.ShadowExample | crates/tsk-core/src/vcs.rs:915-922 | `app` counts as linked because `app 2` is registered |
| Relink.Workspace.SpaceIsNeverLive | crates/tsk-core/src/vcs.rs:915-922 | a registered worktree below `/my tasks` does not count as linked |
| Relink.Workspace.ReattachAfterCrash | crates/tsk-core/src/vcs.rs:442-483 | for any name that is not blank, from any crash state, if nothing fails: the backup ends with at most metadata exactly if the checkout was empty or the backup held no more, and then every old entry is in the checkout |
| Relink.Workspace.Finishes | crates/tsk-core/src/vcs.rs:943-1024 | the same for every outcome of the relink that no failure causes |
| Relink.Workspace.CrashLeavesWork | crates/tsk-core/src/vcs.rs:960-966 | a crash state that counts as linked while an old file is in the backup alone |
| Rediscovery.OwnedCheckouts | crates/tsk-core/src/task_cleanup.rs:160-192 | lists each owned folder once, registered ones first, then forgotten jj ones by their note; fails exactly when one of those has no name |
| Rediscovery.ListLinked | crates/tsk-core/src/task_cleanup.rs:173-182 | each registered folder of the workspace directory once |
| Rediscovery.StillOwned | crates/tsk-core/src/task_cleanup.rs:160-210 | half way through the listed order, and at its end, exactly the same folders are owned under the same names |
| Rediscovery.DetachAll | crates/tsk-core/src/task_cleanup.rs:206-210 | detaching all keeps the owned set whether or not each forget worked, and wherever the loop stops; it succeeds and unlinks all of them if nothing fails |
| Rediscovery.FoundAfterPrune | crates/tsk-core/src/vcs.rs:957-963 | after a git reattach another checkout is found exactly if it still had `.git`; after a failed add the checkout itself is not |
| Rediscovery.OtherIsLost | crates/tsk-core/src/vcs.rs:957-963 | of two detached worktrees, reattaching one loses the other |
| Rediscovery.ListingBlocked | crates/tsk-core/src/vcs.rs:866-883 | after a crash in a jj relink the listing fails exactly if `.jj` is in the backup |
| Rediscovery.ListingExamples | crates/tsk-core/src/vcs.rs:866-883 | one rename into a relink, a state that blocks the listing and one that does not |
| ReattachAll.Unlisted | crates/tsk-core/src/vcs.rs:957-958 | a finished relink, or a failed add, leaves no registration of a detached worktree that waits |
| ReattachAll.TurnDone | crates/tsk-core/src/task_cleanup.rs:194-204 | a turn keeps what earlier turns brought back, and brings back its own |
| ReattachAll.ReattachOne | crates/tsk-core/src/task_cleanup.rs:212-216 | a detached checkout without backups is relinked if nothing fails |
| ReattachAll.ReattachAll | crates/tsk-core/src/task_cleanup.rs:212-216 | if nothing fails every owned checkout is back; it fails only at a checkout that was refused, not added or stopped; a git loop that stops after a first relink, or at a failed add, loses the ones not tried; a jj loop leaves those as they were |
| ReattachAll.DetachThenReattachAll | crates/tsk-core/src/task_cleanup.rs:206-216 | archive and restore: if nothing fails every owned checkout holds a new tree overridden by all it held but the metadata, and is registered |
| Workspaces.SlotOfTaskName | crates/tsk-core/src/workspaces.rs:31-109 | slot parsing inverts task-name construction, for every id |
| Workspaces.ParsedNumber | crates/tsk-core/src/workspaces.rs:25-29 | a name is a number exactly if it is that number's digits after an optional plus sign and zeros, and fits 32 bits |
| Workspaces.AllowedDistinct | crates/tsk-core/src/workspaces.rs:131-141 | one allowed name per slot, pairwise distinct |
| Workspaces.AllowedSpelled | crates/tsk-core/src/workspaces.rs:71-141 | the i-th name is the slot's number, or in a task, for a slot that is not global, the task's id, a dash and the number |
| Workspaces.Resolved | crates/tsk-core/src/workspaces.rs:148-171 | on the bar another task's workspace stands for the one with its slot, and for none beyond the last; a default number stands only for itself |
| Workspaces.OneOwner | crates/tsk-core/src/workspaces.rs:111-119 | with dash-free ids a name has at most one live owner, the specified one |
| Workspaces.ManagedMeans | crates/tsk-core/src/workspaces.rs:121-129 | managed are exactly the numbers of default slots and the names that begin with a live task's id and a dash |
| Workspaces.SharedName | crates/tsk-core/src/workspaces.rs:111-119 | two ids can own a common name exactly when they are equal or one begins with the other and a dash |
| Workspaces.FindTaskForWorkspaceName | crates/tsk-core/src/workspaces.rs:111-119 | the search finds that owner in whatever order the table yields the tasks |
| ContextSync.SessionState.TouchActiveTask | crates/tsk-core/src/context_sync.rs:73-80 | only the current task's clock moves |
| ContextSync.SessionState.SyncFromWorkspaceName | crates/tsk-core/src/context_sync.rs:10-70 | the session becomes the specified one, and the result tells whether taskspace, slot or this taskspace's monitors changed |
| ContextSync.SessionState.TaskspaceWouldChange | crates/tsk-core/src/context_sync.rs:83-92 | the probe answers whether mode or task would change, and changes nothing |
| ContextSync.ContextDestination | crates/tsk-core/src/context_sync.rs:17-41 | the taskspace a name leads to does not depend on the clock |
| ContextSync.NamesLead | crates/tsk-core/src/context_sync.rs:17-41 | a default slot leads out of the task unless it is global there; a live task's workspace leads to that task; an unmanaged name leads nowhere |
| ContextSync.KeySpelled | crates/tsk-core/src/models.rs:137-144 | the key slot memory is kept under |
| ContextSync.ContextKeepsCoherent | crates/tsk-core/src/context_sync.rs:17-41 | a sync keeps task mode and a live current task together |
| ContextSync.AgreementIgnoresMemory | crates/tsk-core/src/context_sync.rs:83-92 | slot memory plays no part in whether a name would change the taskspace |
| ContextSync.SyncSettles | crates/tsk-core/src/context_sync.rs:10-92 | after a sync the session agrees with the name |
| ContextSync.ChangeReported | crates/tsk-core/src/context_sync.rs:10-70 | a sync reports a change exactly if mode, task, a slot, or a monitor slot of the taskspace reached differs |
| ContextSync.MonitorsRefreshed | crates/tsk-core/src/workspace_nav.rs:243-317 | exactly the connected monitors are remembered, in every taskspace, and the current one takes the slots they show; with no monitor reported nothing is forgotten |
| ContextSync.SyncToAllowed | crates/tsk-core/src/context_sync.rs:43-52 | syncing to the i-th allowed name changes only slot memory and records slot i+1, even for a global slot |
| Service.SetTaskspaceKeeps | crates/tsk-core/src/workspace_nav.rs:557-633 | entering an existing taskspace keeps the invariant, the tasks and the windows |
| Service.ExternalKeeps | crates/tsk-core/src/service.rs:305-364 | handling any compositor event keeps the invariant |
| Service.ExternalIgnored | crates/tsk-core/src/service.rs:305-329 | a name that is not managed, or that focus has left, changes nothing |
| Service.ExternalOutcome | crates/tsk-core/src/service.rs:331-363 | an event that leads elsewhere is followed, and the task entered is touched, unless a monitor is plugged in or the guard holds: the name was left by the switch that led here, two seconds ago at most |
| Service.GuardExpires | crates/tsk-core/src/taskspace_switch_guard.rs:34-46 | after a switch the guard holds back exactly the names that were left, for two seconds; every other event, and every later one, is followed |
| Service.ExternalSlot | crates/tsk-core/src/service.rs:359-363 | a focus inside the taskspace stores its slot and changes nothing but slot memory |
| Service.GotoOutcome | crates/tsk-core/src/service.rs:442-459 | going to a workspace of the taskspace stores its slot; any other name changes nothing |
| Service.CompleteArchiveKeeps | crates/tsk-core/src/service.rs:750-760 | completing an archive keeps the invariant exactly when the task is no longer current |
| Service.RemovedKeeps | crates/tsk-core/src/task_cleanup.rs:122-137 | purging windows and keys and removing the task keeps the invariant |
| Service.RecordAllLive | crates/tsk-core/src/window_registry.rs:58-92 | window records only ever name live tasks |
| Service.WindowsOutcome | crates/tsk-core/src/window_registry.rs:58-92 | after a sync exactly the listed windows, and tsk's own that had one, have records, with the task and home workspace they had |
| Service.RecordSpelled | crates/tsk-core/src/window_registry.rs:21-92 | a listed window's record has what the compositor reports, and keeps the task and home it had, or takes the inferred task and its present workspace |
| Service.ApplyKeeps | crates/tsk-core/src/service.rs:305-912 | every operation keeps the invariant |
| Service.RunKeeps | crates/tsk-core/src/service.rs:305-1085 | over every run: task mode exactly with a live current task, records of live tasks only, slot memory only for the default or existing tasks |
| Service.SwitchOutcome | crates/tsk-core/src/service.rs:1059-1085 | a switch makes a live task active and current, on the remembered slot or the first, records the names left, and changes no other task; any other id changes nothing |
| Service.ArchiveOutcome | crates/tsk-core/src/service.rs:720-765 | archiving leaves the taskspace exactly if the task is current or on screen, else taskspace, slot memory and guard stay; only its own window records go and no other task changes; if its windows stay open no task and no record changes |
| Service.RestoreOutcome | crates/tsk-core/src/service.rs:768-823 | an archived task that is ready comes back active and current; else nothing changes |
| Service.ArchiveRestore | crates/tsk-core/src/service.rs:762-835 | archive then restore gives the task back active and current, with only its times changed, and no other task changes |
| Service.CreateOutcome | crates/tsk-core/src/service.rs:517-668 | at the task limit nothing changes; below it the new task is live beside the old ones, current if asked for, and else the taskspace stays |
| Service.DeleteOutcome | crates/tsk-core/src/service.rs:874-912 | a deleted task is gone from tasks, windows, slot memory and the current task; the taskspace is left exactly if it is current or on screen, and other tasks keep their records and memory |
| Service.CreateDelete | crates/tsk-core/src/service.rs:517-912 | creating and deleting a task gives back the tasks and windows there were |
| TaskServices.TaskService.ApplyExternalWorkspace | crates/tsk-core/src/service.rs:305-364 | the step on the stored session is the specified one; no change is reported only if nothing changed |
| TaskServices.TaskService.Enter | crates/tsk-core/src/workspace_nav.rs:557-633 | mode and task are set and the guard records the names that were left |
| TaskServices.TaskService.ContextDefault | crates/tsk-core/src/service.rs:392-397 | enters the default taskspace |
| TaskServices.TaskService.Switch | crates/tsk-core/src/service.rs:1059-1085 | switches exactly to a live task |
| TaskServices.TaskService.Create | crates/tsk-core/src/service.rs:517-668 | refuses exactly at the task limit |
| TaskServices.TaskService.Prepare | crates/tsk-core/src/service.rs:720-748 | leaves the taskspace of a live task that is current or on screen |
| TaskServices.TaskService.Complete | crates/tsk-core/src/service.rs:750-760 | drops the task's window records and marks it archived |
| TaskServices.TaskService.Archive | crates/tsk-core/src/service.rs:762-765 | works exactly for a live task whose windows could be closed |
| TaskServices.TaskService.Restore | crates/tsk-core/src/service.rs:768-823 | reactivates an archived task that is ready and switches to it |
| TaskServices.TaskService.Delete | crates/tsk-core/src/service.rs:874-912 | leaves, purges and removes the task |
| TaskServices.TaskService.PurgeTaskWindows | crates/tsk-core/src/task_cleanup.rs:122-126 | drops exactly the records of the task |
| TaskServices.TaskService.PurgeSessionKeys | crates/tsk-core/src/task_cleanup.rs:128-137 | drops the task's slot memory, and its taskspace if current |
| TaskServices.TaskService.ArchiveActiveTasksIfNewBoot | crates/tsk-core/src/service.rs:262-293 | on a new boot exactly the tasks whose windows would not close stay live; the ids returned are the archived ones |
| TaskServices.TaskService.LiveInOrder | crates/tsk-core/src/service.rs:267-281 | the live ids once each, the current one first |
| TaskServices.TaskService.SyncWindowRegistry | crates/tsk-core/src/window_registry.rs:58-92 | the loop over the clients leaves the specified window table |
| TaskServices.TaskService.InferTaskId | crates/tsk-core/src/window_registry.rs:36-50 | the owner by workspace name, else by title tag, in whatever order tasks are searched |
| TaskServices.TitleOwner | crates/tsk-core/src/window_registry.rs:36-50 | a title tags at most one live task: the text between its first brackets |
| TaskServices.InferMeans | crates/tsk-core/src/window_registry.rs:36-50 | a window belongs to the owner of its workspace, and only without one to the live task its title is tagged with |
| Convergence.HandledAgrees | crates/tsk-core/src/service.rs:305-364 | handling the active workspace's event makes the session agree exactly if the event is not dropped |
| Convergence.SwitchAgrees | crates/tsk-core/src/workspace_nav.rs:557-633 | a switch leaves the session agreeing with every workspace of its destination |
| Convergence.NextConverging | crates/tsk-core/src/service.rs:305-364 | each step keeps: the session agrees, or the active workspace is last in the queue |
| Convergence.Converges | crates/tsk-core/src/service.rs:305-364 | in every run without dropped events a drained queue means agreement |
| Convergence.LateFocusIsLost | crates/tsk-core/src/service.rs:331-345 | leaving a task and focusing one of its workspaces within the time limit drains the queue without agreement, for every session in a task |
| Convergence.LateFocusExample | crates/tsk-core/src/service.rs:331-345 | such a session exists |
| Convergence.GuardedStep | crates/tsk-core/src/taskspace_switch_guard.rs:34-46 | one event naming a workspace that was left, within the limit, does not change the taskspace |
| Convergence.SwitchIsNotReverted | crates/tsk-core/src/taskspace_switch_guard.rs:23-46 | no sequence of such events does, whatever the compositor answers |
| Handoff.FormatMetaBlock | crates/tsk-core/src/handoff.rs:283-306 | the block lists the fields in order, empty required ones as a placeholder, empty optional ones not at all |
| Handoff.BlockSpelled | crates/tsk-core/src/handoff.rs:283-312 | the seven lines as they are written, labels, order and placeholder spelled out |
| Handoff.RewriteMeta | crates/tsk-core/src/handoff.rs:233-277 | the loop computes the specified document |
| Handoff.BlockAtSection | crates/tsk-core/src/handoff.rs:239-248 | without a title first, the block and a blank line stand before the first section, and what was before it goes |
| Handoff.BlockAtTitle | crates/tsk-core/src/handoff.rs:249-266 | with a title first, the block stands below it; of the header only text lines after the title stay, and all from the first section on |
| Handoff.BlockBefore | crates/tsk-core/src/handoff.rs:271-275 | without title and section the block and a blank line go before the whole text |
| Handoff.ParseMeta | crates/tsk-core/src/handoff.rs:207-227 | the loop reads the specified metadata |
| Handoff.ReadBack | crates/tsk-core/src/handoff.rs:207-306 | reading a rewritten document gives the values written, for every document with a heading |
| Handoff.RewrittenTwice | crates/tsk-core/src/handoff.rs:233-277 | on lines, a second rewrite is a rewrite of the original with the second values |
| Handoff.KeptDecides | crates/tsk-core/src/handoff.rs:233-277 | a rewrite has a stray carriage return exactly where a line it copies has one |
| Handoff.RewriteTwice | crates/tsk-core/src/handoff.rs:233-277 | on text the same, exactly when no line that is copied from the original still ends in a carriage return |
| Handoff.RewriteTwiceFails | crates/tsk-core/src/handoff.rs:155-277 | for every valid document with such a line the second rewrite differs |
| Handoff.RewriteTwiceExample | crates/tsk-core/src/handoff.rs:155-277 | there is a valid document that a second rewrite changes |
| Handoff.SectionBody | crates/tsk-core/src/handoff.rs:188-203 | the text of the lines between the first line that reads as the heading and the next line that begins with `## `, or the end; empty without such a line |
| Handoff.SectionFound | crates/tsk-core/src/handoff.rs:188-203 | each heading that stands in the text has such a first line and end |
| Handoff.VerdictMeans | crates/tsk-core/src/handoff.rs:155-179 | the verdict names the first required heading that no line reads as; else a goal, else criteria, without a line of text before the next `## ` line |
| Handoff.ValidMeans | crates/tsk-core/src/handoff.rs:155-179 | valid are exactly the texts with all five headings and text under Goal and Success criteria |
| Handoff.TemplateRejected | crates/tsk-core/src/handoff.rs:118-179 | the blank template is rejected for its empty goal |
| Handoff.SectionsKept | crates/tsk-core/src/handoff.rs:188-277 | a rewrite keeps every section heading and body, up to line endings |
| Handoff.VerdictKept | crates/tsk-core/src/handoff.rs:155-179 | a rewrite never changes the validation verdict, so a valid document stays valid |
| Registry.TaskRoundTrip | crates/tsk-core/src/registry.rs:445-534 | a stored task reads back equal when its count fits 32 bits, and its columns hold signed 32-bit numbers |
| Registry.OtherTexts | crates/tsk-core/src/registry.rs:428-473 | a status or mode that no save writes reads as active, or default |
| Registry.Database.OldGlobal | crates/tsk-core/src/registry.rs:240-246 | a session saved as `global` loads as the default taskspace |
| Registry.DiffIsReplacement | crates/tsk-core/src/registry.rs:392-417 | upserting the rows that differ and deleting the absent ones is replacement |
| Registry.TaskDiffIsReplacement | crates/tsk-core/src/registry.rs:381-417 | the same for tasks compared after decoding, whatever the table held |
| Registry.StaleMeans | crates/tsk-core/src/registry.rs:381-404 | a save skips exactly the rows that are there already unchanged |
| Registry.Database.SyncTasks | crates/tsk-core/src/registry.rs:381-390 | the table becomes the desired one, writing exactly the rows that were missing or differed |
| Registry.Database.SyncWindows | crates/tsk-core/src/registry.rs:392-404 | the same for windows |
| Registry.Database.SaveState | crates/tsk-core/src/registry.rs:256-379 | a load after a save gives the saved state; without a session row nothing is touched |
| TaskIds.ShortestPrefix | crates/tsk-core/src/task_ids.rs:5-22 | the short id is the shortest non-empty prefix no other id starts with, or the whole id; the whole id if there is no other |
| TaskIds.UniqueMeans | crates/tsk-core/src/task_ids.rs:5-22 | a prefix is unique if every id that begins with it, in any case, is the id itself |
| TaskIds.LookupMeans | crates/tsk-core/src/task_ids.rs:71-97 | an exact id comes first, then a name in any case, then the only live task whose id the key begins; several are listed, none is not found |
| TaskIds.PrefixLookup | crates/tsk-core/src/task_ids.rs:71-97 | a prefix finds its task exactly as far as it is unique among live ids, else is ambiguous |
| TaskIds.WholeIdUnique | crates/tsk-core/src/models.rs:152-171 | ids of one length, distinct ignoring case, are no prefixes of each other |
| TaskIds.ShortIdFinds | crates/tsk-core/src/task_ids.rs:34-97 | the short id finds its task; a shorter prefix is ambiguous exactly when another task is live |
| Porcelain.ParseGitWorktreePorcelain | crates/tsk-core/src/vcs.rs:786-816 | of what git prints the result is, in order, path and name of each worktree on a branch `tsk-` name |
| Porcelain.StanzaRead | crates/tsk-core/src/vcs.rs:790-815 | a printed stanza on the branch made for a name, full ref or short, yields exactly its path and that name; any other yields nothing, whatever attributes it carries |
| Porcelain.PorcelainRoundTrip | crates/tsk-core/src/vcs.rs:786-816 | a whole printed list is read so, stanza by stanza, in order |
| Porcelain.LastStanza | crates/tsk-core/src/vcs.rs:814-815 | the last stanza counts whether or not a blank line ends it |
| Porcelain.BranchNameInverse | crates/tsk-core/src/vcs.rs:183-823 | the name of a branch is the one the branch was made for, and only such branches have one |
| Sidecar.ParseRestoreTarget | crates/tsk-core/src/vcs.rs:1413-1454 | the loop reads the specified target |
| Sidecar.NoteSpelled | crates/tsk-core/src/vcs.rs:1388-1399 | the text of a written note, marks and order spelled out |
| Sidecar.PlacesSpelled | crates/tsk-core/src/vcs.rs:1238-1297 | where the canonical and the two older notes of a checkout are: in a task's `workspace` directory, that directory itself, or elsewhere |
| Sidecar.NoteRoundTrip | crates/tsk-core/src/vcs.rs:1391-1454 | parsing a written note gives the target back |
| Sidecar.BareId | crates/tsk-core/src/vcs.rs:1448-1454 | an older note, a bare change id, reads as that id to edit and no base or name |
| Sidecar.Unreadable | crates/tsk-core/src/vcs.rs:1413-1420 | a note cannot be read exactly if it is blank |
| Sidecar.Notes.Write | crates/tsk-core/src/vcs.rs:1380-1411 | on success the canonical note is written and at most this checkout's older notes go; on failure only the canonical one may have changed |
| Sidecar.Notes.WriteThenRead | crates/tsk-core/src/vcs.rs:1380-1470 | reading after a write that worked gives the written target whatever older notes existed; at the file system root the write may have removed it again |
| Sidecar.Notes.OlderNote | crates/tsk-core/src/vcs.rs:1456-1470 | an older note is found where each newer place has none, or a blank one |
| Sidecar.Notes.WriteBesides | crates/tsk-core/src/vcs.rs:1380-1411 | a sibling's canonical note is left alone unless the two keys collide |
| Sidecar.SiblingNotes | crates/tsk-core/src/vcs.rs:1253-1281 | siblings share a canonical note exactly when they are `workspace` and `_` outside a `workspace` directory |
| Sidecar.CanonicalIsApart | crates/tsk-core/src/vcs.rs:1267-1297 | an older place of one checkout is never the canonical place of another |
| BrowserSession.BestTabIsMax | crates/tsk-core/src/browser_session.rs:302-323 | a window's score is the best of its tabs |
| BrowserSession.TabsRanked | crates/tsk-core/src/browser_session.rs:302-323 | scores rank tabs: an exact title above a partial one, active above not, none for a tab without title or overlap |
| BrowserSession.WindowsRanked | crates/tsk-core/src/browser_session.rs:302-323 | a window with a tab that fits better than every tab of another scores better |
| BrowserSession.WindowSaved | crates/tsk-core/src/browser_session.rs:275-288 | saved are the URLs of the tabs in order, and the title of the first active tab, else of the first |
| BrowserSession.BestLiveMatch | crates/tsk-core/src/browser_session.rs:290-300 | the last of the best-scoring windows, or none when no window scores |
| BrowserSession.AssignSessionWindows | crates/tsk-core/src/browser_session.rs:260-273 | pairs in client order with distinct windows, each best among those still unused, and none left that scores |
| HyprlandEvents.LinesDetermined | crates/tsk-core/src/hyprland_events.rs:249-256 | complete lines and tail are the only way to cut a stream at newlines |
| HyprlandEvents.StreamSplit | crates/tsk-core/src/hyprland_events.rs:249-256 | only the unfinished tail of what was read matters to what comes next |
| HyprlandEvents.LineParsed | crates/tsk-core/src/hyprland_events.rs:261-269 | a line gives the event named before its first `>>`, with the payload after it, both trimmed |
| HyprlandEvents.NoArrow | crates/tsk-core/src/hyprland_events.rs:261-269 | a line without `>>` gives none |
| HyprlandEvents.EventReader.Read | crates/tsk-core/src/hyprland_events.rs:241-269 | after each chunk of bytes, decoded on its own, delivered are the events of the complete lines and kept is the tail |
| HyprlandEvents.EventReader.ReadAll | crates/tsk-core/src/hyprland_events.rs:241-269 | what is delivered depends only on the decoded chunks put together |
| HyprlandEvents.EventReader.ReadPieces | crates/tsk-core/src/hyprland_events.rs:241-269 | however a text is cut between characters, delivered are the events of its complete lines and kept is its tail |
| HyprlandEvents.CutInTwo | crates/tsk-core/src/hyprland_events.rs:247-248 | of a text read in two chunks the reader gets the text exactly if the cut is between characters |
| Utf8.RoundTrip | crates/tsk-core/src/hyprland_events.rs:248 | decoding the UTF-8 bytes of a text gives the text |
| Utf8.OnlyEncoded | crates/tsk-core/src/hyprland_events.rs:248 | bytes are read as a character only if they are its encoding |
| Utf8.LongestStart | crates/tsk-core/src/hyprland_events.rs:248 | a piece read at once is never shorter than a start of a character there |
| Utf8.CutCharacter | crates/tsk-core/src/hyprland_events.rs:248 | a character cut in two is read as more than one character |
| Utf8.DecodedInTwo | crates/tsk-core/src/hyprland_events.rs:248 | two pieces decode to the text exactly if the cut is where a character ends |
| Quoting.LuaQuote | crates/tsk-core/src/hyprland.rs:299-313 | a Lua reader maps the literal back to the string |
| Quoting.LuaRoundTrip | crates/tsk-core/src/hyprland.rs:299-313 | the same for the specification, for every string |
| Quoting.ShellRoundTrip | crates/tsk-core/src/binary.rs:164-166 | a shell reads the quoted text as one word equal to the string |

## Left out

- Running git, jj, the compositor, containers, browsers and terminals: steps with the effects stated above, or parameters (`Env`, `Memory`, `Teardown`).
- Contents inside a top-level entry of a checkout: an entry is one value, since a relink moves whole entries; symbolic links and canonical paths are plain names.
- Checkouts that are not direct children of the workspace directory, and scratch tasks.
- `read_dir` in the middle of a change: a loop works on the names present when it starts, in any order, and the test for an empty folder is taken to work.
- Relink.Workspace.Reattach: without a known source the object stands for the checkout's own repository; a jj checkout of another one is not modelled then, nor a checkout that is itself named like a backup folder.
- Relink.Workspace.Detach: what a jj repository other than the task's own answers is arbitrary, and its registrations are not modelled.
- Relink.Workspace.SaveNote: notes are kept by folder name; that siblings do not share one is `Sidecar.SiblingNotes`, and what a note reads back as is `Sidecar.NoteRoundTrip`.
- Rediscovery.DetachAll: ownership is kept under one name per registered folder, registered jj folders that are there, and trimmed names, which both listings give.
- ReattachAll.DetachThenReattachAll: stated for checkouts whose folders and backup folders do not meet, that start without backups, and of which none is a git and a jj checkout at once.
- Service.RunKeeps: archiving is one operation; a switch between `prepare_archive` and `complete_archive` can archive the current task, and `Service.CompleteArchiveKeeps` says exactly when.
- Convergence.Converges: the task table is fixed except for access times; other monitors are later `Focus` steps; the query of the active workspace works.
- Slot memory after navigation is any memory whose keys were there or belong to the taskspaces concerned; how monitors fill it is not part of this model.
- BrowserSession.AssignSessionWindows: title normalisation is a parameter, so the result holds for every normalisation.
- TaskIds.ShortIdFinds: lower-casing is the ASCII one, as ids are hexadecimal.
- Quoting.LuaRoundTrip: the reader rejects numeric escapes and line-skipping escapes, which no quoted text contains.
- Registry.Database.SaveState: each table is a map by primary key; SQL, transactions, time stamps and JSON text are taken as lossless.
- Renaming tasks, reordering, `add_sibling_checkout`, window placement on restore, task hooks, configuration defaults, the daemon server and client, and all front ends are not modelled.
