/** Task operations and taskspace synchronisation, each as one change of the stored session. */
module Service {
  import opened Text
  import opened Models
  import opened Workspaces
  import opened ContextSync

  /** The last intentional switch: where it went, which names it left, and when. */
  datatype Recent = Recent(destKey: string, oldAllowed: seq<string>, at: int)

  const GUARD_TTL: int := 2000

  /** What the operations act on: the stored session and the in-process switch guard. */
  datatype World = World(session: Session, guard: Option<Recent>)

  /** Slot memory as navigation leaves it: it records monitors and focus, which this model does not have. */
  datatype Memory = Memory(workspace: map<string, int>, monitor: map<string, map<string, int>>)

  /** Navigation may drop or change remembered slots, and add them only for the taskspaces it handles. */
  function Remember(s: Session, keys: set<string>, mem: Memory): Session {
    s.(lastWorkspace := map k | k in mem.workspace && (k in s.lastWorkspace || k in keys) :: mem.workspace[k],
       lastMonitor := map k | k in mem.monitor && (k in s.lastMonitor || k in keys) :: mem.monitor[k])
  }

  function Entered(s: Session, dest: Option<string>): Session {
    s.(mode := if dest.Some? then TaskMode else DefaultMode, current := dest)
  }

  /** `set_taskspace`, for an existing destination. */
  function SetTaskspace(w: World, dest: Option<string>, clock: int, mem: Memory): World {
    var s, t := w.session, Entered(w.session, dest);
    World(Remember(t, {TaskspaceKey(s), TaskspaceKey(t)}, mem),
          Some(Recent(TaskspaceKey(t), AllowedNames(s), clock)))
  }

  predicate GuardIgnores(w: World, name: string, clock: int) {
    && w.guard.Some?
    && clock - w.guard.value.at <= GUARD_TTL
    && TaskspaceKey(w.session) == w.guard.value.destKey
    && name in w.guard.value.oldAllowed
  }

  /** What the compositor and the clock answer while an event is handled. */
  datatype Env = Env(active: Option<string>, hotplug: bool, clock: int, layout: Layout, mem: Memory)

  /** The event is late: focus has moved on. */
  predicate IsStale(name: string, env: Env) {
    env.active.Some? && env.active.value != "" && env.active.value != name
  }

  /** `apply_external_workspace` with the compositor enabled. */
  function ApplyExternal(w: World, name: string, env: Env): World {
    var s := w.session;
    var t := Synced(s, name, env.clock, env.layout);
    if !IsManaged(s, name) || IsStale(name, env) then w
    else if WouldChange(s, name) then
      if env.hotplug then w.(session := Remember(s, {TaskspaceKey(s)}, env.mem))
      else if GuardIgnores(w, name, env.clock) then w
      else w.(session := Remember(t, {TaskspaceKey(s), TaskspaceKey(t)}, env.mem))
    else if SyncChanged(s, name, env.clock, env.layout) then w.(session := t)
    else w
  }

  /* ---- Lifecycle ---- */

  function LiveIds(s: Session): set<string> {
    set id | id in s.tasks && !s.tasks[id].status.Archived?
  }

  /** A task as `create_task` builds it, under an id the registry found free. */
  predicate IsNewTask(s: Session, task: Task) {
    task.id !in s.tasks && GoodId(task.id) && task.status.Active?
  }

  function WithTask(s: Session, task: Task): Session {
    s.(tasks := s.tasks[task.id := task])
  }

  function SwitchTask(w: World, id: string, clock: int, mem: Memory): World {
    if !IsLive(w.session, id) then w
    else
      var s := w.session;
      var task := s.tasks[id].(status := Active, lastActiveAt := clock);
      var v := SetTaskspace(w.(session := s.(tasks := s.tasks[id := task])), Some(id), clock, mem);
      var key := TaskKey(id);
      if key in v.session.lastWorkspace then v
      else v.(session := v.session.(lastWorkspace := v.session.lastWorkspace[key := 1]))
  }

  function CreateTask(w: World, maxTasks: nat, task: Task, switchTo: bool, clock: int, mem: Memory): World {
    if |LiveIds(w.session)| >= maxTasks || !IsNewTask(w.session, task) then w
    else
      var v := w.(session := WithTask(w.session, task));
      if switchTo then SwitchTask(v, task.id, clock, mem) else v
  }

  function LeaveIf(w: World, leaving: bool, clock: int, mem: Memory): World {
    if leaving then SetTaskspace(w, None, clock, mem) else w
  }

  /** `viewing`: the compositor shows one of the task's workspaces. */
  predicate IsActiveContext(s: Session, id: string, viewing: bool) {
    s.current == Some(id) || viewing
  }

  function PurgeWindows(s: Session, id: string): Session {
    s.(windows := map k | k in s.windows && s.windows[k].taskId != Some(id) :: s.windows[k])
  }

  function PurgeKeys(s: Session, id: string): Session {
    var t := s.(lastWorkspace := s.lastWorkspace - {TaskKey(id)}, lastMonitor := s.lastMonitor - {TaskKey(id)});
    if t.current == Some(id) then t.(mode := DefaultMode, current := None) else t
  }

  function PrepareArchive(w: World, id: string, viewing: bool, clock: int, mem: Memory): World {
    if !IsLive(w.session, id) then w
    else LeaveIf(w, IsActiveContext(w.session, id, viewing), clock, mem)
  }

  function CompleteArchive(s: Session, id: string): Session {
    if id !in s.tasks then s
    else
      var t := PurgeWindows(s, id);
      t.(tasks := t.tasks[id := t.tasks[id].(status := Archived)])
  }

  /** `archive_task` in one step; closing the windows is the one teardown step that can fail it. */
  function ArchiveTask(w: World, id: string, viewing: bool, closed: bool, clock: int, mem: Memory): World {
    if !IsLive(w.session, id) then w
    else
      var v := PrepareArchive(w, id, viewing, clock, mem);
      if closed then v.(session := CompleteArchive(v.session, id)) else v
  }

  /** `ready`: the data directory exists and every checkout was reattached. */
  function RestoreTask(w: World, id: string, ready: bool, clock: int, mem: Memory): World {
    var s := w.session;
    if id !in s.tasks || !s.tasks[id].status.Archived? || !ready then w
    else
      var task := s.tasks[id].(status := Active, lastActiveAt := clock, listedAt := clock);
      SwitchTask(w.(session := s.(tasks := s.tasks[id := task])), id, clock, mem)
  }

  function DeleteTask(w: World, id: string, viewing: bool, closed: bool, clock: int, mem: Memory): World {
    if id !in w.session.tasks then w
    else
      var v := LeaveIf(w, IsActiveContext(w.session, id, viewing), clock, mem);
      if !closed then v
      else
        var s := PurgeKeys(PurgeWindows(v.session, id), id);
        v.(session := s.(tasks := s.tasks - {id}))
  }

  /* ---- Windows ---- */

  datatype Client = Client(
    address: string, title: string, className: string, workspace: int, workspaceName: string, pid: Option<int>)

  const TUI_WINDOW_TITLE: string := "tsk tasks"
  const TUI_WINDOW_CLASS: string := "org.tsk.task-tui"

  predicate IsEphemeral(c: Client) {
    c.title == TUI_WINDOW_TITLE || c.className == TUI_WINDOW_CLASS
  }

  function IntText(n: int): string {
    if n < 0 then "-" + Digits(-n) else Digits(n)
  }

  function ClientWorkspace(c: Client): string {
    if c.workspaceName != "" then c.workspaceName else IntText(c.workspace)
  }

  /** A title tagged `[id]`; with bracket-free ids it can only mean the text before the first bracket. */
  function TitleTask(s: Session, title: string): Option<string> {
    if title != "" && title[0] == '[' && Find(title[1..], ']') < |title| - 1
       && IsLive(s, title[1..][..Find(title[1..], ']')])
    then Some(title[1..][..Find(title[1..], ']')])
    else None
  }

  predicate TitleTagged(title: string, id: string) {
    ['['] + (id + [']']) <= title
  }

  function InferTask(s: Session, workspaceName: string, title: string): Option<string> {
    var owner := TaskFor(s, workspaceName);
    if owner.Some? then owner else TitleTask(s, title)
  }

  /** The record of one client: a window keeps its home and its task once it has them. */
  function Recorded(s: Session, old_: Option<WindowRecord>, c: Client): WindowRecord {
    var name := ClientWorkspace(c);
    var inferred := InferTask(s, name, c.title);
    var home := if old_.Some? && old_.value.homeWorkspaceName != "" then old_.value.homeWorkspaceName else name;
    var task := if old_.Some? && old_.value.taskId.Some? then old_.value.taskId else inferred;
    var address := if old_.Some? then old_.value.address else c.address;
    WindowRecord(address, task, c.title, c.className, c.workspace, name, home, c.pid)
  }

  function RecordAll(s: Session, windows: map<string, WindowRecord>, clients: seq<Client>): map<string, WindowRecord>
    decreases clients
  {
    if clients == [] then windows
    else if IsEphemeral(clients[0]) then RecordAll(s, windows, clients[1..])
    else
      var c := clients[0];
      var old_ := if c.address in windows then Some(windows[c.address]) else None;
      RecordAll(s, windows[c.address := Recorded(s, old_, c)], clients[1..])
  }

  function Addresses(clients: seq<Client>): set<string> {
    set i | 0 <= i < |clients| :: clients[i].address
  }

  /** `sync_window_registry`. */
  function SyncWindows(s: Session, clients: seq<Client>): Session {
    var kept := map k | k in s.windows && k in Addresses(clients) :: s.windows[k];
    s.(windows := RecordAll(s, kept, clients))
  }

  /* ---- The invariant over every run ---- */

  predicate KeyOk(s: Session, key: string) {
    key == "default" || ("task:" <= key && key[5..] in s.tasks)
  }

  predicate KeysOk(s: Session) {
    && (forall k | k in s.lastWorkspace :: KeyOk(s, k))
    && (forall k | k in s.lastMonitor :: KeyOk(s, k))
  }

  predicate WindowsOk(s: Session) {
    forall k | k in s.windows && s.windows[k].taskId.Some? :: IsLive(s, s.windows[k].taskId.value)
  }

  /**
   * Task mode holds exactly when a task is current, and it is a live one; every window record of a task
   * names a live one; slot memory is kept only for the default taskspace and for tasks that exist.
   */
  predicate Inv(s: Session) {
    GoodTasks(s) && Coherent(s) && WindowsOk(s) && KeysOk(s)
  }

  datatype Op =
    | Create(maxTasks: nat, task: Task, switchTo: bool, clock: int, mem: Memory)
    | Switch(id: string, clock: int, mem: Memory)
    | Default(clock: int, mem: Memory)
    | Archive(id: string, viewing: bool, closed: bool, clock: int, mem: Memory)
    | Restore(id: string, ready: bool, clock: int, mem: Memory)
    | Delete(id: string, viewing: bool, closed: bool, clock: int, mem: Memory)
    | External(name: string, env: Env)
    | Goto(name: string, clock: int, layout: Layout)
    | Windows(clients: seq<Client>)

  function Apply(w: World, op: Op): World {
    match op
    case Create(maxTasks, task, switchTo, clock, mem) => CreateTask(w, maxTasks, task, switchTo, clock, mem)
    case Switch(id, clock, mem) => SwitchTask(w, id, clock, mem)
    case Default(clock, mem) => SetTaskspace(w, None, clock, mem)
    case Archive(id, viewing, closed, clock, mem) => ArchiveTask(w, id, viewing, closed, clock, mem)
    case Restore(id, ready, clock, mem) => RestoreTask(w, id, ready, clock, mem)
    case Delete(id, viewing, closed, clock, mem) => DeleteTask(w, id, viewing, closed, clock, mem)
    case External(name, env) => ApplyExternal(w, name, env)
    case Goto(name, clock, layout) =>
      if name in AllowedNames(w.session) then w.(session := Synced(w.session, name, clock, layout)) else w
    case Windows(clients) => w.(session := SyncWindows(w.session, clients))
  }

  function Run(w: World, ops: seq<Op>): World
    decreases ops
  {
    if ops == [] then w else Run(Apply(w, ops[0]), ops[1..])
  }

  lemma TaskKeyOk(s: Session, id: string)
    ensures KeyOk(s, TaskKey(id)) <==> id in s.tasks
  {
    Parts("task:", id);
    assert "default"[0] == 'd' && "task:"[0] == 't';
  }

  lemma CurrentKeyOk(s: Session)
    requires Coherent(s)
    ensures KeyOk(s, TaskspaceKey(s))
  {
    if InTask(s) { TaskKeyOk(s, s.current.value); }
  }

  /** Only the parts the invariant looks at matter to it. */
  lemma LiveSame(s: Session, t: Session)
    requires s.tasks == t.tasks
    ensures forall id :: IsLive(s, id) <==> IsLive(t, id)
    ensures forall k :: KeyOk(s, k) <==> KeyOk(t, k)
  {}

  lemma RememberKeeps(s: Session, keys: set<string>, mem: Memory)
    requires Inv(s) && forall k | k in keys :: KeyOk(s, k)
    ensures Inv(Remember(s, keys, mem))
  {
    LiveSame(s, Remember(s, keys, mem));
  }

  lemma EnteredKeeps(s: Session, dest: Option<string>)
    requires Inv(s) && (dest.Some? ==> IsLive(s, dest.value))
    ensures Inv(Entered(s, dest))
  {
    LiveSame(s, Entered(s, dest));
  }

  lemma SetTaskspaceKeeps(w: World, dest: Option<string>, clock: int, mem: Memory)
    requires Inv(w.session) && (dest.Some? ==> IsLive(w.session, dest.value))
    ensures var v := SetTaskspace(w, dest, clock, mem);
      Inv(v.session) && v.session.tasks == w.session.tasks && v.session.windows == w.session.windows
      && v.session.current == dest
  {
    var t := Entered(w.session, dest);
    EnteredKeeps(w.session, dest);
    CurrentKeyOk(w.session);
    CurrentKeyOk(t);
    LiveSame(w.session, t);
    RememberKeeps(t, {TaskspaceKey(w.session), TaskspaceKey(t)}, mem);
  }

  /** Tasks may gain entries or change without any of them going missing or leaving the live ones. */
  lemma TasksGrow(s: Session, tasks: map<string, Task>)
    requires Inv(s) && GoodTasks(s.(tasks := tasks))
    requires s.tasks.Keys <= tasks.Keys
    requires forall id | IsLive(s, id) :: !tasks[id].status.Archived?
    ensures Inv(s.(tasks := tasks))
  {
    var t := s.(tasks := tasks);
    assert forall id | IsLive(s, id) :: IsLive(t, id);
    assert forall k | KeyOk(s, k) :: KeyOk(t, k);
  }

  lemma ContextKeeps(s: Session, name: string, now: int)
    requires Inv(s)
    ensures Inv(SyncContext(s, name, now))
  {
    var c := SyncContext(s, name, now);
    ContextKeepsCoherent(s, name, now);
    ContextIsNoMemory(s, name, now);
    assert forall k | KeyOk(s, k) :: KeyOk(c, k);
  }

  lemma RefreshedKeys(memory: map<string, map<string, int>>, key: string, layout: Layout)
    ensures Refreshed(memory, key, layout).Keys <= memory.Keys + {key}
  {}

  lemma SlotKeeps(s: Session, name: string, layout: Layout)
    requires Inv(s)
    ensures Inv(SyncSlot(s, name, layout))
  {
    CurrentKeyOk(s);
    SlotIsMemory(s, name, layout);
    RefreshedKeys(s.lastMonitor, TaskspaceKey(s), layout);
    LiveSame(s, SyncSlot(s, name, layout));
  }

  lemma SyncedKeeps(s: Session, name: string, now: int, layout: Layout)
    requires Inv(s)
    ensures Inv(Synced(s, name, now, layout))
    ensures forall k | KeyOk(s, k) :: KeyOk(Synced(s, name, now, layout), k)
  {
    ContextKeeps(s, name, now);
    ContextKeepsCoherent(s, name, now);
    SlotKeeps(SyncContext(s, name, now), name, layout);
    SlotIsMemory(SyncContext(s, name, now), name, layout);
  }

  lemma ExternalKeeps(w: World, name: string, env: Env)
    requires Inv(w.session)
    ensures Inv(ApplyExternal(w, name, env).session)
  {
    var s := w.session;
    var t := Synced(s, name, env.clock, env.layout);
    SyncedKeeps(s, name, env.clock, env.layout);
    CurrentKeyOk(s);
    CurrentKeyOk(t);
    RememberKeeps(s, {TaskspaceKey(s)}, env.mem);
    RememberKeeps(t, {TaskspaceKey(s), TaskspaceKey(t)}, env.mem);
  }

  /** A name the compositor's focus has left, or one that is no taskspace's, changes nothing. */
  lemma ExternalIgnored(w: World, name: string, env: Env)
    requires !IsManaged(w.session, name)
             || (env.active.Some? && env.active.value != "" && env.active.value != name)
    ensures ApplyExternal(w, name, env) == w
  {
    assert env.active.Some? ==> IsStale(name, env) == (env.active.value != "" && env.active.value != name);
  }

  /** A session that followed a name: only the task moved into is touched. */
  ghost predicate Follows(s: Session, t: Session, dest: (ContextMode, Option<string>), clock: int) {
    && t.windows == s.windows && (t.mode, t.current) == dest
    && t.tasks == (if dest == (s.mode, s.current) || dest.1.None? || dest.1.value !in s.tasks then s.tasks
                   else s.tasks[dest.1.value := s.tasks[dest.1.value].(lastActiveAt := clock)])
  }

  lemma SyncedFollows(s: Session, name: string, clock: int, layout: Layout)
    requires name != ""
    ensures Follows(s, Synced(s, name, clock, layout), Destination(s, name), clock)
  {
    var c := SyncContext(s, name, clock);
    ContextDestination(s, name, clock);
    ContextIsNoMemory(s, name, clock);
    SlotIsMemory(c, name, layout);
    assert c.tasks == Synced(s, name, clock, layout).tasks;
  }

  /** The guard holds an event back: the name was left by the last switch, which led here, two seconds ago at most. */
  ghost predicate HeldBack(w: World, name: string, clock: int) {
    && w.guard.Some? && name in w.guard.value.oldAllowed
    && w.guard.value.destKey == TaskspaceKey(w.session) && clock <= w.guard.value.at + 2000
  }

  /**
   * An event that the compositor still stands by. If it leads elsewhere the session follows, unless a monitor
   * is being plugged in or the guard holds it back; if not, the taskspace stays.
   */
  lemma ExternalOutcome(w: World, name: string, env: Env)
    requires IsManaged(w.session, name) && (env.active.Some? ==> env.active.value in ["", name])
    ensures var v := ApplyExternal(w, name, env); var s := w.session;
      var stays := env.hotplug || HeldBack(w, name, env.clock);
      && v.guard == w.guard
      && Follows(s, v.session, if stays then (s.mode, s.current) else Destination(s, name), env.clock)
      && (!env.hotplug && stays && Destination(s, name) != (s.mode, s.current) ==> v == w)
  {
    SyncedFollows(w.session, name, env.clock, env.layout);
    ContextDestination(w.session, name, 0);
  }

  /** The guard's limit, its names and its destination, told of the switch that set it. */
  lemma GuardExpires(w: World, dest: Option<string>, clock: int, mem: Memory, name: string, env: Env)
    requires IsManaged(w.session, name) && env.active == Some(name) && !env.hotplug
    ensures var v := SetTaskspace(w, dest, clock, mem); var t := ApplyExternal(v, name, env).session;
      (t.mode, t.current) ==
        if env.clock - clock > 2000 || name !in AllowedNames(w.session) then Destination(v.session, name)
        else (v.session.mode, v.session.current)
  {
    var v := SetTaskspace(w, dest, clock, mem);
    assert IsManaged(v.session, name);
    ExternalOutcome(v, name, env);
  }

  /** A focus on the i-th workspace of the current taskspace stores that slot and nothing else but monitors. */
  lemma ExternalSlot(w: World, i: nat, env: Env)
    requires Inv(w.session) && i < w.session.defaultCount < U32
    requires env.active.Some? ==> env.active.value in ["", AllowedNames(w.session)[i]]
    ensures var v := ApplyExternal(w, AllowedNames(w.session)[i], env); var s, t := w.session, v.session;
      && v.guard == w.guard && t == s.(lastWorkspace := t.lastWorkspace, lastMonitor := t.lastMonitor)
      && t.lastWorkspace == s.lastWorkspace[TaskspaceKey(s) := i + 1]
  {
    SyncToAllowed(w.session, i, env.clock, env.layout);
  }

  /** Going to the i-th workspace of the current taskspace stores its slot; no other name changes anything. */
  lemma GotoOutcome(w: World, name: string, i: nat, clock: int, layout: Layout)
    requires Inv(w.session) && i < w.session.defaultCount < U32
    ensures var v := Apply(w, Goto(name, clock, layout)); var s, t := w.session, v.session;
      && (name !in AllowedNames(s) ==> v == w)
      && (name == AllowedNames(s)[i] ==>
            && v.guard == w.guard && t == s.(lastWorkspace := t.lastWorkspace, lastMonitor := t.lastMonitor)
            && t.lastWorkspace == s.lastWorkspace[TaskspaceKey(s) := i + 1])
  {
    SyncToAllowed(w.session, i, clock, layout);
  }

  lemma FirstSlotKeeps(s: Session, id: string)
    requires Inv(s) && id in s.tasks
    ensures Inv(s.(lastWorkspace := s.lastWorkspace[TaskKey(id) := 1]))
  {
    TaskKeyOk(s, id);
    LiveSame(s, s.(lastWorkspace := s.lastWorkspace[TaskKey(id) := 1]));
  }

  lemma SwitchKeeps(w: World, id: string, clock: int, mem: Memory)
    requires Inv(w.session)
    ensures Inv(SwitchTask(w, id, clock, mem).session)
  {
    if IsLive(w.session, id) {
      var s := w.session;
      var tasks := s.tasks[id := s.tasks[id].(status := Active, lastActiveAt := clock)];
      TasksGrow(s, tasks);
      var v := w.(session := s.(tasks := tasks));
      SetTaskspaceKeeps(v, Some(id), clock, mem);
      FirstSlotKeeps(SetTaskspace(v, Some(id), clock, mem).session, id);
    }
  }

  lemma CreateKeeps(w: World, maxTasks: nat, task: Task, switchTo: bool, clock: int, mem: Memory)
    requires Inv(w.session)
    ensures Inv(CreateTask(w, maxTasks, task, switchTo, clock, mem).session)
  {
    if IsNewTask(w.session, task) {
      TasksGrow(w.session, w.session.tasks[task.id := task]);
      SwitchKeeps(w.(session := WithTask(w.session, task)), task.id, clock, mem);
    }
  }

  lemma LeaveKeeps(w: World, leaving: bool, clock: int, mem: Memory)
    requires Inv(w.session)
    ensures var v := LeaveIf(w, leaving, clock, mem);
      && Inv(v.session) && v.session.tasks == w.session.tasks
      && (leaving ==> v.session.current == None)
      && (!leaving ==> v == w)
  {
    if leaving { SetTaskspaceKeeps(w, None, clock, mem); }
  }

  lemma PurgeWindowsKeeps(s: Session, id: string)
    requires Inv(s)
    ensures Inv(PurgeWindows(s, id))
  {
    LiveSame(s, PurgeWindows(s, id));
  }

  /** Completing an archive keeps the invariant exactly when the task is no longer current. */
  lemma CompleteArchiveKeeps(s: Session, id: string)
    requires Inv(s) && id in s.tasks
    ensures Inv(CompleteArchive(s, id)) <==> s.current != Some(id)
  {
    var t := PurgeWindows(s, id);
    var u := CompleteArchive(s, id);
    PurgeWindowsKeeps(s, id);
    assert forall other | other != id :: IsLive(t, other) ==> IsLive(u, other);
    assert forall k | KeyOk(t, k) :: KeyOk(u, k);
    assert !IsLive(u, id);
  }

  lemma ArchiveKeeps(w: World, id: string, viewing: bool, closed: bool, clock: int, mem: Memory)
    requires Inv(w.session)
    ensures Inv(ArchiveTask(w, id, viewing, closed, clock, mem).session)
  {
    if IsLive(w.session, id) {
      LeaveKeeps(w, IsActiveContext(w.session, id, viewing), clock, mem);
      CompleteArchiveKeeps(PrepareArchive(w, id, viewing, clock, mem).session, id);
    }
  }

  lemma RestoreKeeps(w: World, id: string, ready: bool, clock: int, mem: Memory)
    requires Inv(w.session)
    ensures Inv(RestoreTask(w, id, ready, clock, mem).session)
  {
    var s := w.session;
    if id in s.tasks && s.tasks[id].status.Archived? && ready {
      var tasks := s.tasks[id := s.tasks[id].(status := Active, lastActiveAt := clock, listedAt := clock)];
      TasksGrow(s, tasks);
      SwitchKeeps(w.(session := s.(tasks := tasks)), id, clock, mem);
    }
  }

  lemma RemovedKeeps(s: Session, id: string)
    requires Inv(s) && s.current != Some(id)
    ensures var p := PurgeKeys(PurgeWindows(s, id), id); Inv(p.(tasks := p.tasks - {id}))
  {
    var t := PurgeWindows(s, id);
    PurgeWindowsKeeps(s, id);
    var p := PurgeKeys(t, id);
    var u := p.(tasks := p.tasks - {id});
    assert forall other | other != id :: IsLive(t, other) ==> IsLive(u, other);
    forall k | KeyOk(t, k) && k != TaskKey(id)
      ensures KeyOk(u, k)
    {
      if k != "default" {
        assert k == "task:" + k[5..];
      }
    }
  }

  lemma DeleteKeeps(w: World, id: string, viewing: bool, closed: bool, clock: int, mem: Memory)
    requires Inv(w.session)
    ensures Inv(DeleteTask(w, id, viewing, closed, clock, mem).session)
  {
    if id in w.session.tasks {
      LeaveKeeps(w, IsActiveContext(w.session, id, viewing), clock, mem);
      RemovedKeeps(LeaveIf(w, IsActiveContext(w.session, id, viewing), clock, mem).session, id);
    }
  }

  predicate RecordsLive(s: Session, windows: map<string, WindowRecord>) {
    forall k | k in windows && windows[k].taskId.Some? :: IsLive(s, windows[k].taskId.value)
  }

  lemma {:induction false} RecordAllLive(s: Session, windows: map<string, WindowRecord>, clients: seq<Client>)
    requires RecordsLive(s, windows)
    ensures RecordsLive(s, RecordAll(s, windows, clients))
    decreases clients
  {
    if clients != [] {
      var c := clients[0];
      if IsEphemeral(c) {
        RecordAllLive(s, windows, clients[1..]);
      } else {
        var old_ := if c.address in windows then Some(windows[c.address]) else None;
        RecordAllLive(s, windows[c.address := Recorded(s, old_, c)], clients[1..]);
      }
    }
  }

  /** Some client that is not tsk's own window has the address. */
  predicate Listed(clients: seq<Client>, address: string) {
    exists i :: 0 <= i < |clients| && clients[i].address == address && !TuiWindow(clients[i])
  }

  predicate TuiWindow(c: Client) {
    c.title == "tsk tasks" || c.className == "org.tsk.task-tui"
  }

  lemma ListedCons(clients: seq<Client>, a: string)
    requires clients != []
    ensures Listed(clients, a) <==> (clients[0].address == a && !TuiWindow(clients[0])) || Listed(clients[1..], a)
  {
    if Listed(clients[1..], a) {
      var i :| 0 <= i < |clients[1..]| && clients[1..][i].address == a && !TuiWindow(clients[1..][i]);
      assert clients[i + 1] == clients[1..][i];
    }
    if Listed(clients, a) {
      var i :| 0 <= i < |clients| && clients[i].address == a && !TuiWindow(clients[i]);
      if i > 0 { assert clients[1..][i - 1] == clients[i]; }
    }
  }

  /** A window that is listed gets a record; once it has a task or a home workspace, it keeps them. */
  lemma {:induction false} RecordAllOutcome(
    s: Session, windows: map<string, WindowRecord>, clients: seq<Client>, a: string)
    ensures var r := RecordAll(s, windows, clients);
      && (a in r <==> a in windows || Listed(clients, a))
      && (a in windows && !Listed(clients, a) ==> r[a] == windows[a])
      && (a in windows && windows[a].taskId.Some? ==> r[a].taskId == windows[a].taskId)
      && (a in windows && windows[a].homeWorkspaceName != "" ==>
            r[a].homeWorkspaceName == windows[a].homeWorkspaceName)
    decreases clients
  {
    if clients != [] {
      var c := clients[0];
      ListedCons(clients, a);
      if IsEphemeral(c) {
        RecordAllOutcome(s, windows, clients[1..], a);
      } else {
        var old_ := if c.address in windows then Some(windows[c.address]) else None;
        RecordAllOutcome(s, windows[c.address := Recorded(s, old_, c)], clients[1..], a);
      }
    }
  }

  lemma ListedAddress(clients: seq<Client>, a: string)
    ensures Listed(clients, a) ==> a in Addresses(clients)
  {}

  /** After a window sync only windows that still exist have records, with the task and home they had. */
  lemma WindowsOutcome(s: Session, clients: seq<Client>, a: string)
    ensures var r := SyncWindows(s, clients).windows;
      && (a in r <==> Listed(clients, a) || (a in s.windows && a in Addresses(clients)))
      && (a in r && a in s.windows && s.windows[a].taskId.Some? ==> r[a].taskId == s.windows[a].taskId)
      && (a in r && a in s.windows && s.windows[a].homeWorkspaceName != "" ==>
            r[a].homeWorkspaceName == s.windows[a].homeWorkspaceName)
  {
    var kept := map k | k in s.windows && k in Addresses(clients) :: s.windows[k];
    RecordAllOutcome(s, kept, clients, a);
    ListedAddress(clients, a);
  }

  lemma {:induction false} RecordAllOne(s: Session, windows: map<string, WindowRecord>, clients: seq<Client>, i: nat)
    requires i < |clients| && !TuiWindow(clients[i])
    requires forall j | 0 <= j < |clients| && j != i :: clients[j].address != clients[i].address
    ensures var a := clients[i].address; var old_ := if a in windows then Some(windows[a]) else None;
      a in RecordAll(s, windows, clients) && RecordAll(s, windows, clients)[a] == Recorded(s, old_, clients[i])
    decreases clients
  {
    var c, rest := clients[0], clients[1..];
    assert forall j | 0 < j < |clients| :: rest[j - 1] == clients[j];
    if i == 0 {
      var old_ := if c.address in windows then Some(windows[c.address]) else None;
      RecordAllOutcome(s, windows[c.address := Recorded(s, old_, c)], rest, c.address);
    } else if IsEphemeral(c) {
      RecordAllOne(s, windows, rest, i - 1);
    } else {
      var old_ := if c.address in windows then Some(windows[c.address]) else None;
      RecordAllOne(s, windows[c.address := Recorded(s, old_, c)], rest, i - 1);
    }
  }

  function WorkspaceShown(c: Client): string {
    if c.workspaceName != "" then c.workspaceName
    else if c.workspace < 0 then "-" + Digits(-c.workspace) else Digits(c.workspace)
  }

  /** What one record says: what the compositor reports, and the task and home it had or finds. */
  lemma RecordedSpelled(s: Session, old_: Option<WindowRecord>, c: Client)
    ensures var r, name := Recorded(s, old_, c), WorkspaceShown(c);
      && r.title == c.title && r.className == c.className && r.workspace == c.workspace && r.pid == c.pid
      && r.workspaceName == name && r.address == (if old_.Some? then old_.value.address else c.address)
      && r.taskId == (if old_.Some? && old_.value.taskId.Some? then old_.value.taskId else InferTask(s, name, c.title))
      && r.homeWorkspaceName ==
           (if old_.Some? && old_.value.homeWorkspaceName != "" then old_.value.homeWorkspaceName else name)
  {}

  /** What the record of a listed window says. */
  lemma RecordSpelled(s: Session, clients: seq<Client>, i: nat)
    requires i < |clients| && clients[i].title != "tsk tasks" && clients[i].className != "org.tsk.task-tui"
    requires forall j | 0 <= j < |clients| && j != i :: clients[j].address != clients[i].address
    ensures var c := clients[i]; var a, name := c.address, WorkspaceShown(c);
      a in SyncWindows(s, clients).windows && SyncWindows(s, clients).windows[a] == WindowRecord(
        if a in s.windows then s.windows[a].address else a,
        if a in s.windows && s.windows[a].taskId.Some? then s.windows[a].taskId else InferTask(s, name, c.title),
        c.title, c.className, c.workspace, name,
        if a in s.windows && s.windows[a].homeWorkspaceName != "" then s.windows[a].homeWorkspaceName else name,
        c.pid)
  {
    var kept, a := map k | k in s.windows && k in Addresses(clients) :: s.windows[k], clients[i].address;
    assert a in Addresses(clients);
    RecordAllOne(s, kept, clients, i);
    RecordedSpelled(s, if a in s.windows then Some(s.windows[a]) else None, clients[i]);
  }

  lemma WindowsKeeps(s: Session, clients: seq<Client>)
    requires Inv(s)
    ensures Inv(SyncWindows(s, clients))
  {
    var kept := map k | k in s.windows && k in Addresses(clients) :: s.windows[k];
    RecordAllLive(s, kept, clients);
    LiveSame(s, SyncWindows(s, clients));
  }

  lemma ApplyKeeps(w: World, op: Op)
    requires Inv(w.session)
    ensures Inv(Apply(w, op).session)
  {
    match op
    case Create(maxTasks, task, switchTo, clock, mem) => CreateKeeps(w, maxTasks, task, switchTo, clock, mem);
    case Switch(id, clock, mem) => SwitchKeeps(w, id, clock, mem);
    case Default(clock, mem) => SetTaskspaceKeeps(w, None, clock, mem);
    case Archive(id, viewing, closed, clock, mem) => ArchiveKeeps(w, id, viewing, closed, clock, mem);
    case Restore(id, ready, clock, mem) => RestoreKeeps(w, id, ready, clock, mem);
    case Delete(id, viewing, closed, clock, mem) => DeleteKeeps(w, id, viewing, closed, clock, mem);
    case External(name, env) => ExternalKeeps(w, name, env);
    case Goto(name, clock, layout) => SyncedKeeps(w.session, name, clock, layout);
    case Windows(clients) => WindowsKeeps(w.session, clients);
  }

  /** Every run of operations keeps the invariant. */
  lemma {:induction false} RunKeeps(w: World, ops: seq<Op>)
    requires Inv(w.session)
    ensures Inv(Run(w, ops).session)
    decreases ops
  {
    if ops != [] {
      ApplyKeeps(w, ops[0]);
      RunKeeps(Apply(w, ops[0]), ops[1..]);
    }
  }

  /* ---- What one operation undoes of another ---- */

  /**
   * A switch makes a live task active and current, on the slot that navigation remembers or else on the first;
   * any other id changes nothing.
   */
  lemma SwitchOutcome(w: World, id: string, clock: int, mem: Memory)
    requires Inv(w.session)
    ensures var v := SwitchTask(w, id, clock, mem); var s := v.session;
      if id in w.session.tasks && !w.session.tasks[id].status.Archived? then
        && s.tasks == w.session.tasks[id := w.session.tasks[id].(status := Active, lastActiveAt := clock)]
        && s.windows == w.session.windows && s.mode == TaskMode && s.current == Some(id)
        && "task:" + id in s.lastWorkspace
        && s.lastWorkspace["task:" + id] == (if "task:" + id in mem.workspace then mem.workspace["task:" + id] else 1)
        && v.guard == Some(Recent("task:" + id, AllowedNames(w.session), clock))
      else v == w
  {
    if IsLive(w.session, id) {
      var task := w.session.tasks[id].(status := Active, lastActiveAt := clock);
      NamesIgnoreTasks(w.session, w.session.(tasks := w.session.tasks[id := task]));
    }
  }

  /** The names of a taskspace do not depend on the tasks. */
  lemma NamesIgnoreTasks(s: Session, t: Session)
    requires t == s.(tasks := t.tasks)
    ensures AllowedNames(s) == AllowedNames(t)
  {
    forall i | 0 <= i < s.defaultCount
      ensures AllowedNames(s)[i] == AllowedNames(t)[i]
    {}
  }

  /** Where archiving or deleting a task leaves the session: in the default taskspace, or where it was. */
  ghost predicate LeftIfThere(w: World, v: World, id: string, viewing: bool, clock: int) {
    if w.session.current == Some(id) || viewing then
      && v.session.mode == DefaultMode && v.session.current == None
      && v.guard == Some(Recent("default", AllowedNames(w.session), clock))
    else v.session.mode == w.session.mode && v.session.current == w.session.current && v.guard == w.guard
  }

  /** Exactly the records of other tasks, or of none, are left, as they were. */
  ghost predicate OthersWindows(before: map<string, WindowRecord>, after: map<string, WindowRecord>, id: string) {
    && (forall k :: k in after <==> k in before && before[k].taskId != Some(id))
    && (forall k | k in after :: after[k] == before[k])
  }

  /**
   * Archiving leaves the taskspace exactly if the task is current or on screen. If its windows could be closed
   * the task is archived and only its own window records go; otherwise no task and no record changes.
   */
  lemma ArchiveOutcome(w: World, id: string, viewing: bool, closed: bool, clock: int, mem: Memory)
    requires Inv(w.session)
    ensures var v := ArchiveTask(w, id, viewing, closed, clock, mem); var s := v.session;
      if !IsLive(w.session, id) then v == w
      else
        && Inv(s) && LeftIfThere(w, v, id, viewing, clock)
        && (closed ==> s.tasks == w.session.tasks[id := w.session.tasks[id].(status := Archived)])
        && (closed ==> OthersWindows(w.session.windows, s.windows, id))
        && (!closed ==> s.tasks == w.session.tasks && s.windows == w.session.windows)
        && (w.session.current != Some(id) && !viewing ==>
              s.lastWorkspace == w.session.lastWorkspace && s.lastMonitor == w.session.lastMonitor)
  {
    ArchiveKeeps(w, id, viewing, closed, clock, mem);
    LeaveKeeps(w, IsActiveContext(w.session, id, viewing), clock, mem);
  }

  /** Archiving a live task and restoring it gives the task back, current, and leaves the others alone. */
  lemma ArchiveRestore(w: World, id: string, viewing: bool, at: int, m1: Memory, clock: int, m2: Memory)
    requires Inv(w.session) && IsLive(w.session, id)
    ensures var back := RestoreTask(ArchiveTask(w, id, viewing, true, at, m1), id, true, clock, m2).session;
      && back.tasks == w.session.tasks[id :=
           w.session.tasks[id].(status := Active, lastActiveAt := clock, listedAt := clock)]
      && back.mode == TaskMode && back.current == Some(id)
  {
    ArchiveOutcome(w, id, viewing, true, at, m1);
    var a := ArchiveTask(w, id, viewing, true, at, m1);
    var task := a.session.tasks[id].(status := Active, lastActiveAt := clock, listedAt := clock);
    var tasks := a.session.tasks[id := task];
    TasksGrow(a.session, tasks);
    SwitchOutcome(a.(session := a.session.(tasks := tasks)), id, clock, m2);
  }

  /** A task that is unknown, not archived or not ready to come back stays as it is, and so does all else. */
  lemma RestoreOutcome(w: World, id: string, ready: bool, clock: int, mem: Memory)
    requires Inv(w.session)
    ensures var v := RestoreTask(w, id, ready, clock, mem); var s := v.session;
      if id in w.session.tasks && w.session.tasks[id].status.Archived? && ready then
        && s.tasks == w.session.tasks[id :=
             w.session.tasks[id].(status := Active, lastActiveAt := clock, listedAt := clock)]
        && s.windows == w.session.windows && s.mode == TaskMode && s.current == Some(id)
      else v == w
  {
    var t := w.session;
    if id in t.tasks && t.tasks[id].status.Archived? && ready {
      var tasks := t.tasks[id := t.tasks[id].(status := Active, lastActiveAt := clock, listedAt := clock)];
      TasksGrow(t, tasks);
      SwitchOutcome(w.(session := t.(tasks := tasks)), id, clock, mem);
    }
  }

  /** At the task limit nothing is created; below it the new task is live beside the old ones. */
  lemma CreateOutcome(w: World, maxTasks: nat, task: Task, switchTo: bool, clock: int, mem: Memory)
    requires Inv(w.session) && IsNewTask(w.session, task)
    ensures var v := CreateTask(w, maxTasks, task, switchTo, clock, mem); var s := v.session;
      if |set id | id in w.session.tasks && !w.session.tasks[id].status.Archived?| >= maxTasks then v == w
      else
        && Inv(s) && s.windows == w.session.windows && IsLive(s, task.id)
        && s.tasks - {task.id} == w.session.tasks
        && s.tasks[task.id] == (if switchTo then task.(lastActiveAt := clock) else task)
        && (switchTo ==> s.current == Some(task.id))
        && (!switchTo ==> SameTaskspace(s, w.session) && v.guard == w.guard)
  {
    CreateKeeps(w, maxTasks, task, switchTo, clock, mem);
    if switchTo {
      TasksGrow(w.session, w.session.tasks[task.id := task]);
      SwitchOutcome(w.(session := WithTask(w.session, task)), task.id, clock, mem);
    }
  }

  /**
   * A deleted task leaves no trace: not among the tasks, the windows, the slot memory, nor current. The
   * taskspace is left exactly if the task is current or on screen. If its windows could not be closed, no task
   * and no record changes.
   */
  lemma DeleteOutcome(w: World, id: string, viewing: bool, closed: bool, clock: int, mem: Memory)
    requires Inv(w.session)
    ensures var v := DeleteTask(w, id, viewing, closed, clock, mem); var s := v.session;
      if id !in w.session.tasks then v == w
      else
        && LeftIfThere(w, v, id, viewing, clock)
        && (closed ==> s.tasks == w.session.tasks - {id} && OthersWindows(w.session.windows, s.windows, id))
        && (closed ==> "task:" + id !in s.lastWorkspace && "task:" + id !in s.lastMonitor)
        && (!closed ==> s.tasks == w.session.tasks && s.windows == w.session.windows)
        && (closed && w.session.current != Some(id) && !viewing ==>
              && s.lastWorkspace == w.session.lastWorkspace - {"task:" + id}
              && s.lastMonitor == w.session.lastMonitor - {"task:" + id})
  {
    LeaveKeeps(w, IsActiveContext(w.session, id, viewing), clock, mem);
  }

  /** Deleting a task that was just created gives back the tasks and windows there were. */
  lemma CreateDelete(
    w: World, maxTasks: nat, task: Task, switchTo: bool, at: int, m1: Memory, viewing: bool, clock: int, m2: Memory)
    requires Inv(w.session) && IsNewTask(w.session, task) && |LiveIds(w.session)| < maxTasks
    ensures var v := CreateTask(w, maxTasks, task, switchTo, at, m1);
      var s := DeleteTask(v, task.id, viewing, true, clock, m2).session;
      s.tasks == w.session.tasks && s.windows == w.session.windows && s.current != Some(task.id)
  {
    var v := CreateTask(w, maxTasks, task, switchTo, at, m1);
    CreateOutcome(w, maxTasks, task, switchTo, at, m1);
    DeleteOutcome(v, task.id, viewing, true, clock, m2);
    var after := DeleteTask(v, task.id, viewing, true, clock, m2).session.windows;
    assert after == v.session.windows by {
      forall k | k in w.session.windows
        ensures w.session.windows[k].taskId != Some(task.id)
      {}
      assert OthersWindows(v.session.windows, after, task.id);
    }
  }
}
