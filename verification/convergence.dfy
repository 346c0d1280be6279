/** The session and the compositor as one system: late events, stale events, and the revert guard. */
module Convergence {
  import opened Text
  import opened Models
  import opened Workspaces
  import opened ContextSync
  import opened Service

  /** The stored session, the workspace the compositor shows, and the focus events not handled yet. */
  datatype System = System(world: World, active: string, queue: seq<string>)

  datatype Step =
    | Focus(name: string)
    | Handle(env: Env)
    | SwitchTo(dest: Option<string>, slot: nat, clock: int, mem: Memory)

  /** The environment of a handled event whose query of the active workspace works. */
  function Seen(sys: System, env: Env): Env {
    env.(active := Some(sys.active))
  }

  /** The handler is about to drop an event that should move the session: hotplug, or the revert guard. */
  predicate Drops(sys: System, env: Env)
    requires sys.queue != []
  {
    var name := sys.queue[0];
    && IsManaged(sys.world.session, name) && !IsStale(name, Seen(sys, env)) && WouldChange(sys.world.session, name)
    && (env.hotplug || GuardIgnores(sys.world, name, env.clock))
  }

  /** A step that can be taken: an event to handle, or an existing taskspace and one of its slots. */
  predicate Enabled(sys: System, step: Step) {
    match step
    case Focus(_) => true
    case Handle(_) => sys.queue != []
    case SwitchTo(dest, slot, _, _) =>
      (dest.Some? ==> IsLive(sys.world.session, dest.value)) && slot < sys.world.session.defaultCount
  }

  /** The compositor moves to a workspace and queues an event for it. */
  function Focused(sys: System, name: string): System {
    sys.(active := name, queue := sys.queue + [name])
  }

  /** One step. Switching changes the session and then focuses a workspace of the destination. */
  function Next(sys: System, step: Step): System
    requires Enabled(sys, step)
  {
    match step
    case Focus(name) => Focused(sys, name)
    case Handle(env) =>
      sys.(world := ApplyExternal(sys.world, sys.queue[0], Seen(sys, env)), queue := sys.queue[1..])
    case SwitchTo(dest, slot, clock, mem) =>
      var w := SetTaskspace(sys.world, dest, clock, mem);
      Focused(sys.(world := w), AllowedNames(w.session)[slot])
  }

  predicate Agrees(sys: System) {
    !WouldChange(sys.world.session, sys.active)
  }

  /** Agreement, or its cause still to be handled as the very last event. */
  predicate Converging(sys: System) {
    Agrees(sys) || (sys.queue != [] && sys.queue[|sys.queue| - 1] == sys.active)
  }

  /** A run whose steps are enabled and none of whose handled events is dropped. */
  predicate Undropped(sys: System, steps: seq<Step>)
    decreases steps
  {
    steps == [] || (
      && Enabled(sys, steps[0])
      && (steps[0].Handle? ==> !Drops(sys, steps[0].env))
      && Undropped(Next(sys, steps[0]), steps[1..]))
  }

  function After(sys: System, steps: seq<Step>): System
    requires Undropped(sys, steps)
    decreases steps
  {
    if steps == [] then sys else After(Next(sys, steps[0]), steps[1..])
  }

  lemma UnmanagedAgrees(s: Session, name: string)
    requires !IsManaged(s, name)
    ensures !WouldChange(s, name)
  {}

  lemma RememberedAgreement(s: Session, keys: set<string>, mem: Memory, name: string)
    ensures WouldChange(Remember(s, keys, mem), name) <==> WouldChange(s, name)
  {
    AgreementIgnoresMemory(s, Remember(s, keys, mem), name);
  }

  /** Handling the event of the active workspace makes the session agree, unless the event is dropped. */
  lemma HandledAgrees(sys: System, env: Env)
    requires sys.queue != [] && sys.queue[0] == sys.active
    ensures Agrees(Next(sys, Handle(env))) <==> !Drops(sys, env)
  {
    var s := sys.world.session;
    var name := sys.active;
    var t := Synced(s, name, env.clock, env.layout);
    if !IsManaged(s, name) { UnmanagedAgrees(s, name); }
    SyncSettles(s, name, env.clock, env.layout);
    RememberedAgreement(t, {TaskspaceKey(s), TaskspaceKey(t)}, env.mem, name);
    RememberedAgreement(s, {TaskspaceKey(s)}, env.mem, name);
  }

  lemma StaleIsSkipped(sys: System, env: Env)
    requires sys.queue != [] && sys.queue[0] != sys.active && sys.active != ""
    ensures Next(sys, Handle(env)).world == sys.world
  {}

  /** A switch leaves the session agreeing with every workspace of its destination. */
  lemma SwitchAgrees(w: World, dest: Option<string>, slot: nat, clock: int, mem: Memory)
    requires Inv(w.session) && (dest.Some? ==> IsLive(w.session, dest.value))
    requires slot < w.session.defaultCount < U32
    ensures var v := SetTaskspace(w, dest, clock, mem).session;
      Inv(v) && v.defaultCount == w.session.defaultCount && !WouldChange(v, AllowedNames(v)[slot])
  {
    SetTaskspaceKeeps(w, dest, clock, mem);
    SyncToAllowed(SetTaskspace(w, dest, clock, mem).session, slot, 0, Unavailable);
  }

  /** What the run needs to hold on to: a sound session and a named active workspace. */
  predicate Sound(sys: System) {
    Inv(sys.world.session) && sys.world.session.defaultCount < U32
  }

  lemma CountKept(w: World, name: string, env: Env)
    ensures ApplyExternal(w, name, env).session.defaultCount == w.session.defaultCount
  {
    ContextIsNoMemory(w.session, name, env.clock);
    SlotIsMemory(SyncContext(w.session, name, env.clock), name, env.layout);
  }

  lemma NextSound(sys: System, step: Step)
    requires Sound(sys) && Enabled(sys, step)
    ensures Sound(Next(sys, step))
  {
    match step
    case Focus(_) =>
    case Handle(env) =>
      ExternalKeeps(sys.world, sys.queue[0], Seen(sys, env));
      CountKept(sys.world, sys.queue[0], Seen(sys, env));
    case SwitchTo(dest, slot, clock, mem) => SwitchAgrees(sys.world, dest, slot, clock, mem);
  }

  /** An unnamed active workspace changes nothing, so the session always agrees with it. */
  lemma UnnamedAgrees(sys: System)
    requires sys.active == ""
    ensures Agrees(sys)
  {}

  lemma NextConverging(sys: System, step: Step)
    requires Sound(sys) && Converging(sys) && Enabled(sys, step)
    requires step.Handle? ==> !Drops(sys, step.env)
    ensures Converging(Next(sys, step))
  {
    match step
    case Focus(name) =>
    case Handle(env) =>
      var next := Next(sys, step);
      if sys.active == "" {
        UnnamedAgrees(next);
      } else if sys.queue[0] == sys.active {
        HandledAgrees(sys, env);
      } else {
        StaleIsSkipped(sys, env);
        if !Agrees(sys) {
          assert next.queue[|next.queue| - 1] == sys.queue[|sys.queue| - 1];
        }
      }
    case SwitchTo(dest, slot, clock, mem) => SwitchAgrees(sys.world, dest, slot, clock, mem);
  }

  /**
   * In every state a run reaches without dropping an event, the session agrees with the active workspace
   * or that workspace is the last one queued; so once the queue is drained, they agree.
   */
  lemma {:induction false} Converges(sys: System, steps: seq<Step>)
    requires Sound(sys) && Converging(sys) && Undropped(sys, steps)
    ensures Converging(After(sys, steps)) && Sound(After(sys, steps))
    ensures After(sys, steps).queue == [] ==> Agrees(After(sys, steps))
    decreases steps
  {
    if steps != [] {
      NextSound(sys, steps[0]);
      NextConverging(sys, steps[0]);
      Converges(Next(sys, steps[0]), steps[1..]);
    }
  }

  /**
   * Without that hypothesis it fails, for every session in a task: leave the task, have the compositor focus
   * one of its own workspaces within the time limit, and the guard drops the last event of the queue.
   */
  lemma LateFocusIsLost(sys: System, i: nat, slot: nat, clock: int, mem: Memory, env: Env)
    requires Sound(sys) && sys.queue == [] && sys.world.session.current.Some?
    requires i < sys.world.session.defaultCount && i + 1 !in sys.world.session.globalSlots
    requires slot < sys.world.session.defaultCount && !env.hotplug && env.clock - clock <= GUARD_TTL
    ensures var left := Next(sys, SwitchTo(None, slot, clock, mem));
      var back := Next(left, Focus(TaskName(sys.world.session.current.value, i + 1)));
      var end := Next(Next(back, Handle(env)), Handle(env));
      Sound(back) && Converging(back) && end.queue == [] && !Agrees(end)
  {
    var s, id := sys.world.session, sys.world.session.current.value;
    var name := TaskName(id, i + 1);
    var left := Next(sys, SwitchTo(None, slot, clock, mem));
    var back := Next(left, Focus(name));
    SwitchAgrees(sys.world, None, slot, clock, mem);
    NamesApart(id, i + 1, slot + 1);
    assert name == AllowedNames(s)[i];
    StaleIsSkipped(back, env);
    var late := Next(back, Handle(env));
    assert late.world == left.world && late.queue == [name];
    LeftTaskIsManaged(s, left.world.session, id, i + 1);
    HandledAgrees(late, env);
  }

  lemma NamesApart(id: string, slot: nat, other: nat)
    requires other < U32
    ensures TaskName(id, slot) != DefaultName(other) && TaskName(id, slot) != ""
  {
    DigitsRoundTrip(other);
    assert '-' in TaskName(id, slot) by { assert TaskName(id, slot)[|id|] == '-'; }
  }

  /** The default taskspace would leave for a workspace of a live task. */
  lemma LeftTaskIsManaged(s: Session, t: Session, id: string, slot: nat)
    requires GoodTasks(s) && s.tasks == t.tasks && IsLive(s, id) && t.current == None
    ensures IsManaged(t, TaskName(id, slot)) && WouldChange(t, TaskName(id, slot))
  {
    var name := TaskName(id, slot);
    assert '-' in name by { assert name[|id|] == '-'; }
    DashIsNoNumber(name);
    Parts(id + ['-'], Digits(slot));
    assert id + "-" == id + ['-'];
    OneOwner(t, id, name);
    ContextDestination(t, name, 0);
  }

  /** Such a session: one task, current, with two workspaces. */
  lemma LateFocusExample() returns (sys: System)
    ensures Sound(sys) && sys.queue == [] && sys.world.session.current.Some? && Agrees(sys)
    ensures 1 < sys.world.session.defaultCount && 1 !in sys.world.session.globalSlots
  {
    var task := Task("t1", "one", Active, "", None, false, 2, 0, 0);
    var s := Session(TaskMode, Some("t1"), map[], map[], 2, [], map["t1" := task], map[]);
    sys := System(World(s, None), AllowedNames(s)[0], []);
    assert GoodId("t1");
    SyncToAllowed(s, 0, 0, Unavailable);
  }

  /* ---- The revert guard ---- */

  datatype Event = Event(name: string, env: Env)

  function HandleAll(w: World, events: seq<Event>): World
    decreases events
  {
    if events == [] then w else HandleAll(ApplyExternal(w, events[0].name, events[0].env), events[1..])
  }

  /** Events that name only workspaces the guard left, within its time limit. */
  predicate Reverting(guard: Recent, events: seq<Event>) {
    forall e | e in events :: e.name in guard.oldAllowed && e.env.clock - guard.at <= GUARD_TTL
  }

  lemma GuardedStep(w: World, name: string, env: Env)
    requires w.guard.Some? && TaskspaceKey(w.session) == w.guard.value.destKey
    requires name in w.guard.value.oldAllowed && env.clock - w.guard.value.at <= GUARD_TTL
    ensures var v := ApplyExternal(w, name, env);
      && SameTaskspace(v.session, w.session) && v.guard == w.guard
      && TaskspaceKey(v.session) == TaskspaceKey(w.session)
  {
    ContextDestination(w.session, name, env.clock);
    ContextDestination(w.session, name, 0);
    SlotIsMemory(SyncContext(w.session, name, env.clock), name, env.layout);
  }

  lemma {:induction false} Guarded(w: World, events: seq<Event>)
    requires w.guard.Some? && TaskspaceKey(w.session) == w.guard.value.destKey
    requires Reverting(w.guard.value, events)
    ensures SameTaskspace(HandleAll(w, events).session, w.session)
    decreases events
  {
    if events != [] {
      assert events[0] in events;
      GuardedStep(w, events[0].name, events[0].env);
      assert forall e | e in events[1..] :: e in events;
      Guarded(ApplyExternal(w, events[0].name, events[0].env), events[1..]);
    }
  }

  /**
   * After a switch, no sequence of events within the limit that name only workspaces of the taskspace
   * that was left changes the session's mode or current task, whatever the compositor answers.
   */
  lemma SwitchIsNotReverted(w: World, dest: Option<string>, clock: int, mem: Memory, events: seq<Event>)
    requires forall e | e in events :: e.name in AllowedNames(w.session) && e.env.clock <= clock + GUARD_TTL
    ensures var v := SetTaskspace(w, dest, clock, mem);
      && SameTaskspace(HandleAll(v, events).session, v.session)
      && v.session.current == dest && (v.session.mode.TaskMode? <==> dest.Some?)
  {
    var v := SetTaskspace(w, dest, clock, mem);
    assert TaskspaceKey(v.session) == v.guard.value.destKey;
    Guarded(v, events);
  }
}
