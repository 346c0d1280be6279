/** Data the other modules share. */
module Models {
  import opened Text

  /** One more than the largest 32-bit unsigned number. */
  const U32: int := 0x1_0000_0000

  datatype TaskStatus = Active | Idle | Archived

  /** The fields of a task that the modelled code reads or writes. */
  datatype Task = Task(
    id: string,
    name: string,
    status: TaskStatus,
    repoPath: string,
    sourceRepoPath: Option<string>,
    containerIsolation: bool,
    workspaceCount: nat,
    lastActiveAt: int,
    listedAt: int)

  datatype WindowRecord = WindowRecord(
    address: string,
    taskId: Option<string>,
    title: string,
    className: string,
    workspace: int,
    workspaceName: string,
    homeWorkspaceName: string,
    pid: Option<int>)

  datatype ContextMode = DefaultMode | TaskMode

  /** Everything `state.db` holds, with the two settings taken from the configuration. */
  datatype Session = Session(
    mode: ContextMode,
    current: Option<string>,
    lastWorkspace: map<string, int>,
    lastMonitor: map<string, map<string, int>>,
    defaultCount: nat,
    globalSlots: seq<nat>,
    tasks: map<string, Task>,
    windows: map<string, WindowRecord>)
}
