/** The state database: saving writes only the rows that differ, yet a load gives back what was saved. */
module Registry {
  import opened Text
  import opened Models

  datatype TaskRow = TaskRow(
    id: string, name: string, status: string, repoPath: string, sourceRepoPath: Option<string>,
    isolation: int, desktopCount: int, lastActiveAt: int, listedAt: int)

  datatype SessionRow = SessionRow(
    contextMode: string, currentTaskId: Option<string>, lastDesktop: map<string, int>,
    lastMonitorWorkspace: map<string, map<string, int>>)

  function StatusText(s: TaskStatus): string {
    match s
    case Active => "active"
    case Idle => "idle"
    case Archived => "archived"
  }

  function ParseStatus(text: string): TaskStatus {
    if text == "idle" then Idle else if text == "archived" then Archived else Active
  }

  function ModeText(m: ContextMode): string {
    match m
    case DefaultMode => "default"
    case TaskMode => "task"
  }

  function ParseMode(text: string): ContextMode {
    if text == "task" then TaskMode else DefaultMode
  }

  /** `as i32`: the low 32 bits read as a signed number. */
  function AsI32(n: nat): int {
    var w := n % U32;
    if w < U32 / 2 then w else w - U32
  }

  /** `as u32`. */
  function AsU32(i: int): nat {
    i % U32
  }

  function EncodeTask(t: Task): TaskRow {
    TaskRow(t.id, t.name, StatusText(t.status), t.repoPath, t.sourceRepoPath,
            if t.containerIsolation then 1 else 0, AsI32(t.workspaceCount), t.lastActiveAt, t.listedAt)
  }

  function DecodeTask(r: TaskRow): Task {
    Task(r.id, r.name, ParseStatus(r.status), r.repoPath, r.sourceRepoPath, r.isolation != 0,
         AsU32(r.desktopCount), r.lastActiveAt, r.listedAt)
  }

  /** A 32-bit count survives the signed 32-bit column. */
  lemma TaskRoundTrip(t: Task)
    requires t.workspaceCount < U32
    ensures DecodeTask(EncodeTask(t)) == t
    ensures -0x8000_0000 <= EncodeTask(t).desktopCount < 0x8000_0000 && EncodeTask(t).isolation in {0, 1}
  {
    assert "idle"[0] == 'i' && "archived"[1] == 'r' && "active"[1] == 'c' && "archived"[0] == 'a';
    assert "active" != "archived" && "idle" != "archived" && "active" != "idle";
    assert AsU32(AsI32(t.workspaceCount)) == t.workspaceCount;
  }

  /** A text no save writes reads as an active task, or as the default mode. */
  lemma OtherTexts(text: string)
    ensures text !in {"idle", "archived"} ==> ParseStatus(text) == Active
    ensures text != "task" ==> ParseMode(text) == DefaultMode
    ensures ParseStatus("idle") == Idle && ParseStatus("archived") == Archived && ParseMode("task") == TaskMode
    ensures {StatusText(Active), StatusText(Idle), StatusText(Archived)} == {"active", "idle", "archived"}
    ensures {ModeText(DefaultMode), ModeText(TaskMode)} == {"default", "task"}
  {
    assert "idle"[0] == 'i' && "archived"[0] == 'a' && "task"[0] == 't' && "default"[0] == 'd';
  }

  /** A table to be saved is keyed by task id and window address, with counts that fit 32 bits. */
  predicate Keyed(s: Session) {
    && (forall k | k in s.tasks :: s.tasks[k].id == k && s.tasks[k].workspaceCount < U32)
    && (forall k | k in s.windows :: s.windows[k].address == k)
  }

  /** The keys a diff save writes: rows that are missing or differ. */
  function Stale<R(==)>(existing: map<string, R>, desired: map<string, R>): set<string> {
    set k | k in desired && (k !in existing || existing[k] != desired[k])
  }

  /** Not written are the rows to be saved that are there already, unchanged, and those that are not to be saved. */
  lemma StaleMeans<R>(existing: map<string, R>, desired: map<string, R>, k: string)
    ensures k !in Stale(existing, desired) <==>
              k !in desired || (k in existing && existing[k] == desired[k])
  {}

  /** A table after some keys were upserted. */
  function Upserted<R>(before: map<string, R>, rows: map<string, R>, ks: set<string>): map<string, R> {
    before + map k | k in ks && k in rows :: rows[k]
  }

  /** `DELETE ... WHERE pk NOT IN keep`. */
  function Kept<R>(rows: map<string, R>, keep: set<string>): map<string, R> {
    map k | k in rows && k in keep :: rows[k]
  }

  function EncodeAll(tasks: map<string, Task>): map<string, TaskRow> {
    map k | k in tasks :: EncodeTask(tasks[k])
  }

  function DecodeAll(rows: map<string, TaskRow>): map<string, Task> {
    map k | k in rows :: DecodeTask(rows[k])
  }

  lemma UpsertOne<R>(before: map<string, R>, rows: map<string, R>, ks: set<string>, k: string)
    requires k in rows
    ensures Upserted(before, rows, ks)[k := rows[k]] == Upserted(before, rows, ks + {k})
  {}

  /** Upserting only the stale rows and dropping the absent ones is plain replacement. */
  lemma DiffIsReplacement<R>(before: map<string, R>, rows: map<string, R>)
    ensures Kept(Upserted(before, rows, Stale(before, rows)), rows.Keys) == rows
  {}

  /** The same when rows are compared after decoding: the load is what was to be saved. */
  lemma TaskDiffIsReplacement(before: map<string, TaskRow>, desired: map<string, Task>)
    requires forall k | k in desired :: desired[k].workspaceCount < U32
    ensures var stale := Stale(DecodeAll(before), desired);
      DecodeAll(Kept(Upserted(before, EncodeAll(desired), stale), desired.Keys)) == desired
  {
    forall k | k in desired { TaskRoundTrip(desired[k]); }
  }

  /** The rows after a save sit under their keys, and those that were not written are the old ones. */
  lemma SyncedRows(before: map<string, TaskRow>, desired: map<string, Task>, stale: set<string>)
    requires stale == Stale(DecodeAll(before), desired) && forall k | k in desired :: desired[k].id == k
    requires forall k | k in before :: before[k].id == k
    ensures var rows := Kept(Upserted(before, EncodeAll(desired), stale), desired.Keys);
      && (forall k | k in rows :: rows[k].id == k)
      && (forall k | k in desired && k !in stale :: k in before && k in rows && rows[k] == before[k])
  {}

  class Database {
    /** The one row of the session table; None before the schema is set up. */
    var session: Option<SessionRow>
    var taskRows: map<string, TaskRow>
    var windowRows: map<string, WindowRecord>
    /** Rows inserted or replaced by the last save. */
    ghost var taskWrites: set<string>
    ghost var windowWrites: set<string>

    /** Rows sit under their primary key. */
    ghost predicate Valid()
      reads this
    {
      && (forall k | k in taskRows :: taskRows[k].id == k)
      && (forall k | k in windowRows :: windowRows[k].address == k)
    }

    function LoadTasks(): map<string, Task>
      reads this
    {
      DecodeAll(taskRows)
    }

    /** `load_state`: the counts come from the configuration, not from the database. */
    function LoadState(defaultCount: nat, globalSlots: seq<nat>): Option<Session>
      reads this
    {
      if session.None? then None
      else
        var row := session.value;
        Some(Session(ParseMode(row.contextMode),
                     if row.contextMode == "global" then None else row.currentTaskId,
                     row.lastDesktop, row.lastMonitorWorkspace, defaultCount, globalSlots,
                     LoadTasks(), windowRows))
    }

    /** A session an older version saved as `global` is in no task. */
    lemma OldGlobal(defaultCount: nat, globalSlots: seq<nat>)
      requires session.Some? && session.value.contextMode == "global"
      ensures var s := LoadState(defaultCount, globalSlots).value; s.mode == DefaultMode && s.current == None
    {
      assert "global"[0] == 'g' && "task"[0] == 't';
    }

    method SyncTasks(desired: map<string, Task>)
      requires Valid() && forall k | k in desired :: desired[k].id == k && desired[k].workspaceCount < U32
      modifies this`taskRows, this`taskWrites
      ensures Valid() && LoadTasks() == desired
      ensures taskWrites == Stale(old(LoadTasks()), desired)
      ensures forall k | k in desired && k !in taskWrites :: k in old(taskRows) && taskRows[k] == old(taskRows)[k]
    {
      var existing := LoadTasks();
      ghost var before, rows, stale := taskRows, EncodeAll(desired), Stale(existing, desired);
      var todo := desired.Keys;
      taskWrites := {};
      assert taskRows == Upserted(before, rows, {});
      while todo != {}
        invariant todo <= desired.Keys && taskWrites == stale - todo
        invariant taskRows == Upserted(before, rows, taskWrites)
        decreases todo
      {
        var k :| k in todo;
        todo := todo - {k};
        if k !in existing || existing[k] != desired[k] {
          UpsertOne(before, rows, taskWrites, k);
          taskRows := taskRows[k := EncodeTask(desired[k])];
          taskWrites := taskWrites + {k};
        }
      }
      assert taskWrites == stale;
      taskRows := Kept(taskRows, desired.Keys);
      TaskDiffIsReplacement(before, desired);
      SyncedRows(before, desired, stale);
    }

    method SyncWindows(desired: map<string, WindowRecord>)
      requires Valid() && forall k | k in desired :: desired[k].address == k
      modifies this`windowRows, this`windowWrites
      ensures Valid() && windowRows == desired
      ensures windowWrites == Stale(old(windowRows), desired)
    {
      ghost var stale := Stale(windowRows, desired);
      var existing, todo := windowRows, desired.Keys;
      windowWrites := {};
      assert windowRows == Upserted(existing, desired, {});
      while todo != {}
        invariant todo <= desired.Keys && windowWrites == stale - todo
        invariant windowRows == Upserted(existing, desired, windowWrites)
        decreases todo
      {
        var k :| k in todo;
        todo := todo - {k};
        if k !in existing || existing[k] != desired[k] {
          UpsertOne(existing, desired, windowWrites, k);
          windowRows := windowRows[k := desired[k]];
          windowWrites := windowWrites + {k};
        }
      }
      assert windowWrites == stale;
      windowRows := Kept(windowRows, desired.Keys);
      DiffIsReplacement(existing, desired);
    }

    /**
     * `save_state`: fails without touching anything when the session row is missing; otherwise a load
     * gives back the saved state whatever the tables held, and rows already equal are left alone.
     */
    method SaveState(s: Session) returns (ok: bool)
      requires Valid() && Keyed(s)
      modifies this
      ensures Valid() && ok == old(session).Some?
      ensures !ok ==> session == old(session) && taskRows == old(taskRows) && windowRows == old(windowRows)
      ensures ok ==> forall count, slots ::
        LoadState(count, slots) == Some(s.(defaultCount := count, globalSlots := slots))
      ensures ok ==> taskWrites == Stale(old(LoadTasks()), s.tasks)
      ensures ok ==> windowWrites == Stale(old(windowRows), s.windows)
    {
      if session.None? { return false; }
      session := Some(SessionRow(ModeText(s.mode), s.current, s.lastWorkspace, s.lastMonitor));
      assert "default" != "task" && "default" != "global" && "task" != "global" by {
        assert "default"[0] == 'd' && "task"[0] == 't' && "global"[0] == 'g';
      }
      SyncTasks(s.tasks);
      SyncWindows(s.windows);
      ok := true;
    }
  }
}
