/** Aligning the session with the workspace the compositor shows. */
module ContextSync {
  import opened Text
  import opened Models
  import opened Workspaces

  /** What the compositor reports about monitors: who is connected, and slots of the current taskspace. */
  datatype Layout = Unavailable | Monitors(connected: set<string>, slots: map<string, int>)

  function TaskKey(id: string): string {
    "task:" + id
  }

  function TaskspaceKey(s: Session): string {
    if InTask(s) then TaskKey(s.current.value)
    else if s.mode.TaskMode? then "task" else "default"
  }

  /** `touch_active_task`. */
  function Touched(s: Session, now: int): Session {
    if s.current.Some? && s.current.value in s.tasks then
      var id := s.current.value;
      s.(tasks := s.tasks[id := s.tasks[id].(lastActiveAt := now)])
    else s
  }

  /** The first half of a sync: which taskspace the name puts us in. */
  function SyncContext(s: Session, name: string, now: int): Session {
    if IsDefaultName(name, s.defaultCount) then
      if InTask(s) && IsGlobalName(name, s) then s else s.(mode := DefaultMode, current := None)
    else
      var owner := TaskFor(s, name);
      if owner.None? || (s.mode.TaskMode? && s.current == owner) then s
      else Touched(s.(mode := TaskMode, current := owner), now)
  }

  function Restrict(slots: map<string, int>, names: set<string>): map<string, int> {
    map m | m in slots && m in names :: slots[m]
  }

  function Pruned(memory: map<string, map<string, int>>, connected: set<string>): map<string, map<string, int>> {
    if connected == {} then memory
    else map k | k in memory && Restrict(memory[k], connected) != map[] :: Restrict(memory[k], connected)
  }

  function SlotsOf(memory: map<string, map<string, int>>, key: string): map<string, int> {
    if key in memory then memory[key] else map[]
  }

  /** `refresh_monitor_slots`. */
  function Refreshed(
    memory: map<string, map<string, int>>, key: string, layout: Layout): map<string, map<string, int>>
  {
    match layout
    case Unavailable => memory
    case Monitors(connected, slots) =>
      var kept := Pruned(memory, connected);
      kept[key := SlotsOf(kept, key) + slots]
  }

  /** The second half: remember the slot within that taskspace. */
  function SyncSlot(s: Session, name: string, layout: Layout): Session {
    var allowed := AllowedNames(s);
    var resolved := ResolveBar(name, s, allowed);
    if resolved.None? then s
    else
      var key := TaskspaceKey(s);
      s.(lastWorkspace := s.lastWorkspace[key := Position(allowed, resolved.value) + 1],
         lastMonitor := Refreshed(s.lastMonitor, key, layout))
  }

  /** `sync_from_workspace_name`: the session afterwards. */
  function Synced(s: Session, name: string, now: int, layout: Layout): Session {
    if name == "" then s else SyncSlot(SyncContext(s, name, now), name, layout)
  }

  predicate SameTaskspace(a: Session, b: Session) {
    a.mode == b.mode && a.current == b.current
  }

  predicate SlotChanged(s: Session, t: Session) {
    || s.lastWorkspace != t.lastWorkspace
    || SlotsOf(s.lastMonitor, TaskspaceKey(t)) != SlotsOf(t.lastMonitor, TaskspaceKey(t))
  }

  /** What its result reports: a change of taskspace, of the slot, or of this taskspace's monitors. */
  predicate SyncChanged(s: Session, name: string, now: int, layout: Layout) {
    var t := Synced(s, name, now, layout);
    !SameTaskspace(s, t) || SlotChanged(s, t)
  }

  /** `taskspace_would_change`: the first half would move to another taskspace. */
  predicate WouldChange(s: Session, name: string) {
    name != "" && !SameTaskspace(s, SyncContext(s, name, 0))
  }

  /** Everything but the slot memory. */
  predicate SameButMemory(a: Session, b: Session) {
    b == a.(lastWorkspace := b.lastWorkspace, lastMonitor := b.lastMonitor)
  }

  lemma SlotIsMemory(s: Session, name: string, layout: Layout)
    ensures SameButMemory(s, SyncSlot(s, name, layout))
  {}

  /** The slots a taskspace remembers for monitors. */
  ghost function MonitorsAt(memory: map<string, map<string, int>>, key: string): map<string, int> {
    map m | key in memory && m in memory[key] :: memory[key][m]
  }

  class SessionState {
    var mode: ContextMode
    var current: Option<string>
    var lastWorkspace: map<string, int>
    var lastMonitor: map<string, map<string, int>>
    var defaultCount: nat
    var globalSlots: seq<nat>
    var tasks: map<string, Task>
    var windows: map<string, WindowRecord>

    constructor (s: Session)
      ensures Now() == s
    {
      mode, current, lastWorkspace, lastMonitor := s.mode, s.current, s.lastWorkspace, s.lastMonitor;
      defaultCount, globalSlots, tasks, windows := s.defaultCount, s.globalSlots, s.tasks, s.windows;
    }

    function Now(): Session
      reads this
    {
      Session(mode, current, lastWorkspace, lastMonitor, defaultCount, globalSlots, tasks, windows)
    }

    method TouchActiveTask(now: int)
      modifies this`tasks
      ensures Now() == Touched(old(Now()), now)
    {
      if current.Some? && current.value in tasks {
        tasks := tasks[current.value := tasks[current.value].(lastActiveAt := now)];
      }
    }

    method SyncFromWorkspaceName(name: string, now: int, layout: Layout) returns (changed: bool)
      requires GoodTasks(Now())
      modifies this
      ensures Now() == Synced(old(Now()), name, now, layout)
      ensures changed == SyncChanged(old(Now()), name, now, layout)
    {
      if name == "" { return false; }
      ghost var before := Now();
      changed := AlignTaskspace(name, now);
      ghost var aligned := Now();
      var moved := RememberSlot(name, layout);
      SlotIsMemory(aligned, name, layout);
      ContextIsNoMemory(before, name, now);
      changed := changed || moved;
    }

    method AlignTaskspace(name: string, now: int) returns (changed: bool)
      requires GoodTasks(Now())
      modifies this
      ensures Now() == SyncContext(old(Now()), name, now)
      ensures changed == !SameTaskspace(old(Now()), Now())
    {
      changed := false;
      if IsDefaultName(name, defaultCount) {
        var visitingGlobal := mode.TaskMode? && current.Some? && IsGlobalName(name, Now());
        if !visitingGlobal && (mode != DefaultMode || current.Some?) {
          mode, current := DefaultMode, None;
          changed := true;
        }
      } else {
        var owner := FindTaskForWorkspaceName(Now(), name);
        if owner.Some? && (mode != TaskMode || current != owner) {
          mode, current := TaskMode, owner;
          TouchActiveTask(now);
          changed := true;
        }
      }
    }

    method RememberSlot(name: string, layout: Layout) returns (changed: bool)
      modifies this
      ensures Now() == SyncSlot(old(Now()), name, layout)
      ensures changed == SlotChanged(old(Now()), Now())
    {
      var allowed := AllowedNames(Now());
      var resolved := ResolveBar(name, Now(), allowed);
      if resolved.None? { return false; }
      changed := false;
      var rel := Position(allowed, resolved.value) + 1;
      var key := TaskspaceKey(Now());
      if !(key in lastWorkspace && lastWorkspace[key] == rel) {
        lastWorkspace := lastWorkspace[key := rel];
        changed := true;
      }
      assert lastWorkspace == old(lastWorkspace)[key := rel];
      var before := SlotsOf(lastMonitor, key);
      lastMonitor := Refreshed(lastMonitor, key, layout);
      if before != SlotsOf(lastMonitor, key) {
        changed := true;
      }
    }

    /** The probe leaves this session alone. */
    method TaskspaceWouldChange(name: string) returns (r: bool)
      requires GoodTasks(Now())
      ensures r == WouldChange(Now(), name)
    {
      var probe := new SessionState(Now());
      var _ := probe.SyncFromWorkspaceName(name, 0, Unavailable);
      SlotIsMemory(SyncContext(Now(), name, 0), name, Unavailable);
      r := probe.mode != mode || probe.current != current;
    }
  }

  /* ---- What a sync keeps and reaches ---- */

  /** A taskspace is current exactly in task mode, and it is a live task's. */
  predicate Coherent(s: Session) {
    && (s.mode.TaskMode? <==> s.current.Some?)
    && (s.current.Some? ==> IsLive(s, s.current.value))
  }

  /** Everything but the taskspace and the tasks' clocks. */
  lemma ContextIsNoMemory(s: Session, name: string, now: int)
    ensures var c := SyncContext(s, name, now);
      c == s.(mode := c.mode, current := c.current, tasks := c.tasks)
  {}

  lemma TouchedOwners(s: Session, now: int, name: string)
    ensures TaskFor(Touched(s, now), name) == TaskFor(s, name)
  {}

  lemma TouchedGood(s: Session, now: int)
    requires GoodTasks(s)
    ensures GoodTasks(Touched(s, now)) && Touched(s, now).tasks.Keys == s.tasks.Keys
    ensures forall id | IsLive(s, id) :: IsLive(Touched(s, now), id)
  {}

  lemma ContextKeepsCoherent(s: Session, name: string, now: int)
    requires GoodTasks(s) && Coherent(s)
    ensures var c := SyncContext(s, name, now);
      && GoodTasks(c) && Coherent(c) && c.tasks.Keys == s.tasks.Keys
      && forall id | IsLive(s, id) :: IsLive(c, id)
  {
    TouchedGood(s.(mode := TaskMode, current := TaskFor(s, name)), now);
  }

  lemma OwnerIgnoresMemory(s: Session, t: Session, name: string)
    requires SameButMemory(s, t)
    ensures TaskFor(s, name) == TaskFor(t, name)
  {
    assert IsLive(s, BeforeDash(name)) == IsLive(t, BeforeDash(name));
  }

  /** Where a name leads, as a pair that mentions no clock. */
  function Destination(s: Session, name: string): (ContextMode, Option<string>) {
    if IsDefaultName(name, s.defaultCount) then
      if InTask(s) && IsGlobalName(name, s) then (s.mode, s.current) else (DefaultMode, None)
    else
      var owner := TaskFor(s, name);
      if owner.None? then (s.mode, s.current) else (TaskMode, owner)
  }

  lemma ContextDestination(s: Session, name: string, now: int)
    ensures var c := SyncContext(s, name, now); (c.mode, c.current) == Destination(s, name)
  {}

  /** Neither the clock nor slot memory plays a part in agreement. */
  lemma AgreementIgnoresMemory(s: Session, t: Session, name: string)
    requires SameButMemory(s, t)
    ensures WouldChange(s, name) <==> WouldChange(t, name)
  {
    ContextDestination(s, name, 0);
    ContextDestination(t, name, 0);
    OwnerIgnoresMemory(s, t, name);
  }

  /** Where names lead, by what they are: a default slot, a task's workspace, or neither. */
  lemma NamesLead(s: Session, name: string, n: nat, id: string)
    requires GoodTasks(s) && n < U32
    ensures 1 <= n <= s.defaultCount ==>
              Destination(s, Digits(n)) ==
                if s.mode.TaskMode? && s.current.Some? && n in s.globalSlots then (s.mode, s.current)
                else (DefaultMode, None)
    ensures id in s.tasks && !s.tasks[id].status.Archived? ==> Destination(s, id + "-" + name) == (TaskMode, Some(id))
    ensures !IsManaged(s, name) && name != "" ==> Destination(s, name) == (s.mode, s.current)
  {
    DefaultNames(s, n);
    if IsLive(s, id) {
      var full := id + "-" + name;
      assert id + "-" == id + ['-'];
      assert '-' in full by { assert full[|id|] == '-'; }
      DashIsNoNumber(full);
      Parts(id + ['-'], name);
      OneOwner(s, id, full);
    }
  }

  /** The key of the current taskspace, spelled out. */
  lemma KeySpelled(s: Session)
    ensures TaskspaceKey(s) ==
      if s.mode.DefaultMode? then "default" else if s.current.Some? then "task:" + s.current.value else "task"
  {}

  /**
   * What a sync remembers of monitors. If none are reported nothing is forgotten; otherwise exactly the connected
   * ones are kept, in every taskspace, and the current one takes the slots they show.
   */
  lemma MonitorsRefreshed(memory: map<string, map<string, int>>, key: string, layout: Layout, k: string, m: string)
    ensures var was, now := MonitorsAt(memory, k), MonitorsAt(Refreshed(memory, key, layout), k);
      match layout
      case Unavailable => now == was
      case Monitors(connected, slots) =>
        if k == key && m in slots then m in now && now[m] == slots[m]
        else if m in was && (connected == {} || m in connected) then m in now && now[m] == was[m]
        else m !in now
    ensures layout.Monitors? && layout.connected != {} && k != key && k in Refreshed(memory, key, layout) ==>
              Refreshed(memory, key, layout)[k] != map[]
  {
    if layout.Monitors? && k in memory {
      var kept := Restrict(memory[k], layout.connected);
      if m in memory[k] && m in layout.connected { assert m in kept; }
    }
  }

  /** A sync reports a change exactly if the taskspace, a slot, or a monitor of the taskspace reached is another. */
  lemma ChangeReported(s: Session, name: string, now: int, layout: Layout)
    ensures var t := Synced(s, name, now, layout);
      SyncChanged(s, name, now, layout) <==>
        || s.mode != t.mode || s.current != t.current || s.lastWorkspace != t.lastWorkspace
        || MonitorsAt(s.lastMonitor, TaskspaceKey(t)) != MonitorsAt(t.lastMonitor, TaskspaceKey(t))
  {
    var t := Synced(s, name, now, layout);
    SlotsAt(s.lastMonitor, TaskspaceKey(t));
    SlotsAt(t.lastMonitor, TaskspaceKey(t));
  }

  lemma SlotsAt(memory: map<string, map<string, int>>, key: string)
    ensures SlotsOf(memory, key) == MonitorsAt(memory, key)
  {}

  lemma ContextSettles(s: Session, name: string, now: int)
    ensures !WouldChange(SyncContext(s, name, now), name)
  {
    TouchedOwners(s.(mode := TaskMode, current := TaskFor(s, name)), now, name);
  }

  /** After a sync the session agrees with the name it was synced to. */
  lemma SyncSettles(s: Session, name: string, now: int, layout: Layout)
    ensures !WouldChange(Synced(s, name, now, layout), name)
  {
    ContextSettles(s, name, now);
    SlotIsMemory(SyncContext(s, name, now), name, layout);
    AgreementIgnoresMemory(SyncContext(s, name, now), SyncSlot(SyncContext(s, name, now), name, layout), name);
  }

  lemma OwnSlotName(s: Session, slot: nat, now: int)
    requires GoodTasks(s) && Coherent(s) && 1 <= slot <= s.defaultCount < U32
    ensures IsManaged(s, SlotName(s, slot)) && SyncContext(s, SlotName(s, slot), now) == s
  {
    DigitsParse(slot);
    DigitsRoundTrip(slot);
    if InTask(s) && slot !in s.globalSlots {
      var id := s.current.value;
      var name := TaskName(id, slot);
      assert '-' in name by { assert name[|id|] == '-'; }
      DashIsNoNumber(name);
      Parts(id + ['-'], Digits(slot));
      OneOwner(s, id, name);
    }
  }

  lemma {:induction false} PositionIs(names: seq<string>, i: nat)
    requires i < |names|
    requires forall a, b | 0 <= a < b < |names| :: names[a] != names[b]
    ensures Position(names, names[i]) == i
  {
    if i > 0 {
      var rest := names[1..];
      assert names[0] != names[i];
      assert forall a | 0 <= a < |rest| :: rest[a] == names[a + 1];
      PositionIs(rest, i - 1);
    }
  }

  lemma SlotOfAllowed(s: Session, i: nat, layout: Layout)
    requires i < s.defaultCount < U32
    ensures SyncSlot(s, AllowedNames(s)[i], layout).lastWorkspace == s.lastWorkspace[TaskspaceKey(s) := i + 1]
  {
    AllowedDistinct(s);
    PositionIs(AllowedNames(s), i);
    assert AllowedNames(s)[i] in AllowedNames(s);
  }

  /** Syncing to the i-th allowed name keeps the taskspace and records slot i + 1, global or not. */
  lemma SyncToAllowed(s: Session, i: nat, now: int, layout: Layout)
    requires GoodTasks(s) && Coherent(s) && i < s.defaultCount < U32
    ensures var t := Synced(s, AllowedNames(s)[i], now, layout);
      && SameButMemory(s, t) && t.lastWorkspace == s.lastWorkspace[TaskspaceKey(s) := i + 1]
    ensures IsManaged(s, AllowedNames(s)[i]) && !WouldChange(s, AllowedNames(s)[i])
  {
    var name := SlotName(s, i + 1);
    assert AllowedNames(s)[i] == name;
    OwnSlotName(s, i + 1, now);
    SlotIsMemory(s, name, layout);
    SlotOfAllowed(s, i, layout);
    OwnSlotName(s, i + 1, 0);
  }
}
