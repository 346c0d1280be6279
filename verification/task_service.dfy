/** The service itself: every operation loads the session, changes it in place and saves it. */
module TaskServices {
  import opened Text
  import opened Models
  import opened Workspaces
  import opened ContextSync
  import opened Service

  /** How tearing one task down goes: see the fields of `Op.Archive`. */
  datatype Teardown = Teardown(viewing: bool, closed: bool, clock: int, mem: Memory)

  lemma ArchiveOne(w: World, id: string, e: Teardown)
    requires Inv(w.session) && IsLive(w.session, id)
    ensures var v := ArchiveTask(w, id, e.viewing, e.closed, e.clock, e.mem);
      && Inv(v.session)
      && (forall other :: IsLive(v.session, other) <==> IsLive(w.session, other) && !(other == id && e.closed))
  {
    ArchiveKeeps(w, id, e.viewing, e.closed, e.clock, e.mem);
    LeaveKeeps(w, IsActiveContext(w.session, id, e.viewing), e.clock, e.mem);
  }

  class TaskService {
    /** The saved session: what a load returns. */
    var db: Session
    var guard: Option<Recent>
    const hyprland: bool
    const maxTasks: nat

    function Now(): World
      reads this
    {
      World(db, guard)
    }

    constructor (db: Session, hyprland: bool, maxTasks: nat)
      ensures Now() == World(db, None) && this.hyprland == hyprland && this.maxTasks == maxTasks
    {
      this.db, this.guard, this.hyprland, this.maxTasks := db, None, hyprland, maxTasks;
    }

    /** `set_taskspace` on a loaded session; `mem` is what navigation leaves of the slot memory. */
    method Enter(state: SessionState, dest: Option<string>, clock: int, mem: Memory)
      modifies state, this`guard
      ensures World(state.Now(), guard) == SetTaskspace(World(old(state.Now()), old(guard)), dest, clock, mem)
    {
      var oldAllowed, oldKey := AllowedNames(state.Now()), TaskspaceKey(state.Now());
      state.mode, state.current := if dest.Some? then TaskMode else DefaultMode, dest;
      var key := TaskspaceKey(state.Now());
      guard := Some(Recent(key, oldAllowed, clock));
      Navigate(state, {oldKey, key}, mem);
    }

    method Navigate(state: SessionState, keys: set<string>, mem: Memory)
      modifies state
      ensures state.Now() == Remember(old(state.Now()), keys, mem)
    {
      state.lastWorkspace :=
        map k | k in mem.workspace && (k in state.lastWorkspace || k in keys) :: mem.workspace[k];
      state.lastMonitor := map k | k in mem.monitor && (k in state.lastMonitor || k in keys) :: mem.monitor[k];
    }

    /** `purge_task_windows`. */
    method PurgeTaskWindows(state: SessionState, id: string)
      modifies state
      ensures state.Now() == PurgeWindows(old(state.Now()), id)
    {
      state.windows := map k | k in state.windows && state.windows[k].taskId != Some(id) :: state.windows[k];
    }

    /** `purge_task_session_keys`. */
    method PurgeSessionKeys(state: SessionState, id: string)
      modifies state
      ensures state.Now() == PurgeKeys(old(state.Now()), id)
    {
      state.lastWorkspace := state.lastWorkspace - {TaskKey(id)};
      state.lastMonitor := state.lastMonitor - {TaskKey(id)};
      if state.current == Some(id) {
        state.mode, state.current := DefaultMode, None;
      }
    }

    method ApplyExternalWorkspace(name: string, env: Env) returns (changed: bool)
      requires GoodTasks(db)
      modifies this
      ensures Now() == if hyprland then ApplyExternal(old(Now()), name, env) else old(Now())
      ensures !changed ==> Now() == old(Now())
    {
      if !hyprland { return false; }
      var state := new SessionState(db);
      var owner := FindTaskForWorkspaceName(db, name);
      if name == "" || !(IsDefaultName(name, db.defaultCount) || owner.Some?) { return false; }
      if env.active.Some? && env.active.value != "" && env.active.value != name { return false; }
      var crossing := state.TaskspaceWouldChange(name);
      var oldKey := TaskspaceKey(state.Now());
      if crossing {
        if env.hotplug {
          Navigate(state, {oldKey}, env.mem);
          db := state.Now();
          return true;
        }
        if GuardIgnores(Now(), name, env.clock) { return false; }
        var _ := state.SyncFromWorkspaceName(name, env.clock, env.layout);
        Navigate(state, {oldKey, TaskspaceKey(state.Now())}, env.mem);
        db := state.Now();
        return true;
      }
      changed := state.SyncFromWorkspaceName(name, env.clock, env.layout);
      if changed { db := state.Now(); }
    }

    method ContextDefault(clock: int, mem: Memory)
      modifies this
      ensures Now() == SetTaskspace(old(Now()), None, clock, mem)
    {
      var state := new SessionState(db);
      Enter(state, None, clock, mem);
      db := state.Now();
    }

    method Switch(id: string, clock: int, mem: Memory) returns (ok: bool)
      modifies this
      ensures Now() == SwitchTask(old(Now()), id, clock, mem) && ok == IsLive(old(db), id)
    {
      var state := new SessionState(db);
      if id !in state.tasks || state.tasks[id].status.Archived? { return false; }
      state.tasks := state.tasks[id := state.tasks[id].(status := Active, lastActiveAt := clock)];
      Enter(state, Some(id), clock, mem);
      if TaskKey(id) !in state.lastWorkspace {
        state.lastWorkspace := state.lastWorkspace[TaskKey(id) := 1];
      }
      db := state.Now();
      ok := true;
    }

    method Create(task: Task, switchTo: bool, clock: int, mem: Memory) returns (ok: bool)
      requires IsNewTask(db, task)
      modifies this
      ensures Now() == CreateTask(old(Now()), maxTasks, task, switchTo, clock, mem)
      ensures ok == (|LiveIds(old(db))| < maxTasks)
    {
      var state := new SessionState(db);
      if |LiveIds(db)| >= maxTasks { return false; }
      state.tasks := state.tasks[task.id := task];
      db := state.Now();
      ok := true;
      if switchTo {
        var _ := Switch(task.id, clock, mem);
      }
    }

    method Prepare(id: string, viewing: bool, clock: int, mem: Memory) returns (ok: bool)
      modifies this
      ensures Now() == PrepareArchive(old(Now()), id, viewing, clock, mem) && ok == IsLive(old(db), id)
    {
      var state := new SessionState(db);
      if id !in state.tasks || state.tasks[id].status.Archived? { return false; }
      if state.current == Some(id) || viewing {
        Enter(state, None, clock, mem);
        db := state.Now();
      }
      ok := true;
    }

    method Complete(id: string)
      modifies this`db
      ensures db == CompleteArchive(old(db), id)
    {
      var state := new SessionState(db);
      if id !in state.tasks { return; }
      PurgeTaskWindows(state, id);
      state.tasks := state.tasks[id := state.tasks[id].(status := Archived)];
      db := state.Now();
    }

    method Archive(id: string, e: Teardown) returns (ok: bool)
      modifies this
      ensures Now() == ArchiveTask(old(Now()), id, e.viewing, e.closed, e.clock, e.mem)
      ensures ok == (IsLive(old(db), id) && e.closed)
    {
      ok := Prepare(id, e.viewing, e.clock, e.mem);
      if !ok || !e.closed { return false; }
      Complete(id);
    }

    method Restore(id: string, ready: bool, clock: int, mem: Memory) returns (ok: bool)
      modifies this
      ensures Now() == RestoreTask(old(Now()), id, ready, clock, mem)
    {
      var state := new SessionState(db);
      if id !in state.tasks || !state.tasks[id].status.Archived? || !ready { return false; }
      state.tasks := state.tasks[id := state.tasks[id].(status := Active, lastActiveAt := clock, listedAt := clock)];
      db := state.Now();
      ok := Switch(id, clock, mem);
    }

    method Delete(id: string, e: Teardown) returns (ok: bool)
      modifies this
      ensures Now() == DeleteTask(old(Now()), id, e.viewing, e.closed, e.clock, e.mem)
    {
      var state := new SessionState(db);
      if id !in state.tasks { return false; }
      if state.current == Some(id) || e.viewing {
        Enter(state, None, e.clock, e.mem);
        db := state.Now();
      }
      if !e.closed { return false; }
      PurgeTaskWindows(state, id);
      PurgeSessionKeys(state, id);
      state.tasks := state.tasks - {id};
      db := state.Now();
      ok := true;
    }

    /**
     * `archive_active_tasks_if_new_boot`: on a new boot every task that was live is archived, except those
     * whose windows could not be closed; the ids returned are the archived ones.
     */
    method ArchiveActiveTasksIfNewBoot(newBoot: bool, env: string -> Teardown) returns (archived: seq<string>)
      requires Inv(db)
      modifies this
      ensures Inv(db)
      ensures !newBoot ==> Now() == old(Now()) && archived == []
      ensures newBoot ==> forall id :: IsLive(db, id) <==> IsLive(old(db), id) && !env(id).closed
      ensures newBoot ==> forall id :: id in archived <==> IsLive(old(db), id) && env(id).closed
    {
      archived := [];
      if !newBoot { return; }
      var ids := LiveInOrder();
      ghost var before := db;
      for i := 0 to |ids|
        invariant Inv(db)
        invariant forall id :: IsLive(db, id) <==> IsLive(before, id) && !(id in ids[..i] && env(id).closed)
        invariant forall id :: id in archived <==> id in ids[..i] && env(id).closed
      {
        assert ids[..i + 1] == ids[..i] + [ids[i]];
        assert ids[i] !in ids[..i];
        assert ids[i] in ids;
        ArchiveOne(Now(), ids[i], env(ids[i]));
        var ok := Archive(ids[i], env(ids[i]));
        if ok { archived := archived + [ids[i]]; }
      }
      assert ids[..|ids|] == ids;
    }

    /** The live ids in table order, the current one moved to the front. */
    method LiveInOrder() returns (ids: seq<string>)
      requires Inv(db)
      ensures forall id :: id in ids <==> IsLive(db, id)
      ensures forall i, j | 0 <= i < j < |ids| :: ids[i] != ids[j]
      ensures db.current.Some? ==> ids != [] && ids[0] == db.current.value
    {
      ids := [];
      var todo := db.tasks.Keys;
      while todo != {}
        invariant todo <= db.tasks.Keys
        invariant forall id :: id in ids <==> IsLive(db, id) && id !in todo
        invariant forall i, j | 0 <= i < j < |ids| :: ids[i] != ids[j]
        decreases todo
      {
        var id :| id in todo;
        todo := todo - {id};
        if !db.tasks[id].status.Archived? { ids := ids + [id]; }
      }
      if db.current.Some? {
        var pos := Position(ids, db.current.value);
        PositionFound(ids, db.current.value);
        ghost var listed := ids;
        ids := ids[0 := ids[pos]][pos := ids[0]];
        SwapKeeps(listed, pos);
      }
    }

    method SyncWindowRegistry(clients: seq<Client>)
      requires GoodTasks(db)
      modifies this`db
      ensures db == SyncWindows(old(db), clients)
    {
      var state := new SessionState(db);
      state.windows := map k | k in state.windows && k in Addresses(clients) :: state.windows[k];
      ghost var kept := state.windows;
      for i := 0 to |clients|
        invariant RecordAll(db, state.windows, clients[i..]) == RecordAll(db, kept, clients)
        invariant state.Now() == db.(windows := state.windows) && db == old(db)
      {
        var c := clients[i];
        Extend(clients, i);
        if !IsEphemeral(c) {
          var name := ClientWorkspace(c);
          var inferred := InferTaskId(name, c.title);
          var entry := if c.address in state.windows then state.windows[c.address]
            else WindowRecord(c.address, inferred, "", "", 0, "", name, None);
          var home := if entry.homeWorkspaceName == "" then name else entry.homeWorkspaceName;
          var task := if entry.taskId.Some? then entry.taskId else inferred;
          state.windows := state.windows[c.address :=
            WindowRecord(entry.address, task, c.title, c.className, c.workspace, name, home, c.pid)];
        }
      }
      db := state.Now();
    }

    /** `infer_task_id`, searching the table in any order. */
    method InferTaskId(name: string, title: string) returns (r: Option<string>)
      requires GoodTasks(db)
      ensures r == InferTask(db, name, title)
    {
      r := FindTaskForWorkspaceName(db, name);
      if r.Some? { return; }
      var todo := db.tasks.Keys;
      while todo != {}
        invariant todo <= db.tasks.Keys && r == None
        invariant forall id | id in db.tasks && id !in todo :: !(IsLive(db, id) && TitleTagged(title, id))
        decreases todo
      {
        var id :| id in todo;
        todo := todo - {id};
        TitleOwner(db, id, title);
        if !db.tasks[id].status.Archived? && ['['] + (id + [']']) <= title {
          return Some(id);
        }
      }
      if TitleTask(db, title).Some? { TitleOwner(db, TitleTask(db, title).value, title); }
    }
  }

  lemma SwapKeeps(ids: seq<string>, pos: nat)
    requires pos < |ids| && forall i, j | 0 <= i < j < |ids| :: ids[i] != ids[j]
    ensures var s := ids[0 := ids[pos]][pos := ids[0]];
      && (forall id :: id in s <==> id in ids)
      && (forall i, j | 0 <= i < j < |s| :: s[i] != s[j])
      && s != [] && s[0] == ids[pos]
  {
    var s := ids[0 := ids[pos]][pos := ids[0]];
    forall id | id in ids
      ensures id in s
    {
      var i :| 0 <= i < |ids| && ids[i] == id;
      assert s[if i == 0 then pos else if i == pos then 0 else i] == id;
    }
  }

  /** A title is tagged with a good live id exactly when it is the text between the first brackets. */
  lemma TitleOwner(s: Session, id: string, title: string)
    requires GoodTasks(s)
    ensures IsLive(s, id) && TitleTagged(title, id) <==> TitleTask(s, title) == Some(id)
  {
    if IsLive(s, id) && TitleTagged(title, id) {
      var rest := title[|id| + 2..];
      assert title[1..] == id + [']'] + rest;
      FindFirst(id, ']', rest);
    }
    if TitleTask(s, title) == Some(id) {
      var t := title[1..];
      HeadTail(title);
      Cut(t, Find(t, ']'));
      Parts(id + [']'], t[Find(t, ']') + 1..]);
      Assoc(['['], id + [']'], t[Find(t, ']') + 1..]);
      Parts(['['] + (id + [']']), t[Find(t, ']') + 1..]);
    }
  }

  /** The live task whose workspace it is. */
  predicate OwnsWorkspace(s: Session, id: string, name: string) {
    id in s.tasks && !s.tasks[id].status.Archived? && id + "-" <= name && !IsDefaultName(name, s.defaultCount)
  }

  /** A window's task: the owner of its workspace, and only without one the live task its title is tagged with. */
  lemma InferMeans(s: Session, name: string, title: string, id: string)
    requires GoodTasks(s)
    ensures InferTask(s, name, title) == Some(id) <==>
      if exists owner :: OwnsWorkspace(s, owner, name) then OwnsWorkspace(s, id, name)
      else id in s.tasks && !s.tasks[id].status.Archived? && "[" + (id + "]") <= title
  {
    TitleOwner(s, id, title);
    assert "[" + (id + "]") == ['['] + (id + [']']);
    if !IsDefaultName(name, s.defaultCount) {
      OneOwner(s, id, name);
      assert id + "-" == id + ['-'];
      forall owner | OwnsWorkspace(s, owner, name)
        ensures TaskFor(s, name) == Some(owner)
      {
        assert owner + "-" == owner + ['-'];
        OneOwner(s, owner, name);
      }
      if TaskFor(s, name).Some? {
        var owner := TaskFor(s, name).value;
        OneOwner(s, owner, name);
        assert owner + "-" == owner + ['-'];
        assert OwnsWorkspace(s, owner, name);
      }
    }
  }
}
