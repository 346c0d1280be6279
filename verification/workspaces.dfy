/** Workspace names: which taskspace and slot a compositor workspace belongs to. */
module Workspaces {
  import opened Text
  import opened Models

  /* ---- Decimal numbers ---- */

  predicate IsDigit(c: char) {
    '0' <= c <= '9'
  }

  predicate AllDigits(s: string) {
    s == "" || (IsDigit(s[|s| - 1]) && AllDigits(s[..|s| - 1]))
  }

  function Digits(n: nat): string {
    if n < 10 then ['0' + n as char] else Digits(n / 10) + ['0' + (n % 10) as char]
  }

  function Value(s: string): nat
    requires AllDigits(s)
  {
    if s == "" then 0 else Value(s[..|s| - 1]) * 10 + (s[|s| - 1] - '0') as int
  }

  /** `str::parse::<u32>`: decimal digits after an optional plus sign, below 2^32. */
  function ParseU32(s: string): Option<nat> {
    var body := if s != "" && s[0] == '+' then s[1..] else s;
    if body != "" && AllDigits(body) && Value(body) < U32 then Some(Value(body)) else None
  }

  lemma {:induction false} DigitsParse(n: nat)
    ensures Digits(n) != "" && AllDigits(Digits(n)) && Value(Digits(n)) == n && IsDigit(Digits(n)[0])
  {
    var s := Digits(n);
    if n < 10 {
      assert s[..|s| - 1] == "";
    } else {
      DigitsParse(n / 10);
      assert s[..|s| - 1] == Digits(n / 10);
    }
  }

  lemma {:induction false} AllDigitsDashFree(s: string)
    requires AllDigits(s)
    ensures '-' !in s
  {
    if s != "" {
      AllDigitsDashFree(s[..|s| - 1]);
      LastSplit(s);
    }
  }

  lemma DigitsRoundTrip(n: nat)
    requires n < U32
    ensures ParseU32(Digits(n)) == Some(n) && '-' !in Digits(n)
  {
    DigitsParse(n);
    AllDigitsDashFree(Digits(n));
  }

  lemma DashIsNoNumber(s: string)
    requires '-' in s
    ensures ParseU32(s) == None
  {
    if ParseU32(s).Some? {
      if s[0] == '+' {
        AllDigitsDashFree(s[1..]);
        HeadTail(s);
      } else {
        AllDigitsDashFree(s);
      }
    }
  }

  function Zeros(n: nat): string {
    seq(n, _ => '0')
  }

  /** One more digit after zeros and the digits of a number. */
  lemma DigitAfter(zeros: nat, v: nat, c: char) returns (more: nat)
    requires IsDigit(c)
    ensures Zeros(zeros) + Digits(v) + [c] == Zeros(more) + Digits(v * 10 + (c - '0') as int)
  {
    if v == 0 {
      more := zeros + 1;
      assert Zeros(zeros) + "0" == Zeros(zeros + 1);
    } else {
      more := zeros;
      Assoc(Zeros(zeros), Digits(v), [c]);
    }
  }

  /** Digits are some zeros and the digits of their value. */
  lemma {:induction false} LeadingZeros(s: string) returns (zeros: nat)
    requires s != "" && AllDigits(s)
    ensures s == Zeros(zeros) + Digits(Value(s))
  {
    var front, last := s[..|s| - 1], s[|s| - 1];
    LastSplit(s);
    if front == "" {
      zeros := 0;
    } else {
      var k := LeadingZeros(front);
      zeros := DigitAfter(k, Value(front), last);
    }
  }

  lemma {:induction false} ZerosValue(zeros: nat, n: nat)
    ensures AllDigits(Zeros(zeros) + Digits(n)) && Value(Zeros(zeros) + Digits(n)) == n
    decreases n
  {
    var s := Zeros(zeros) + Digits(n);
    if n < 10 {
      assert s[..|s| - 1] == Zeros(zeros);
      OnlyZeros(zeros);
    } else {
      assert s[..|s| - 1] == Zeros(zeros) + Digits(n / 10);
      ZerosValue(zeros, n / 10);
    }
  }

  lemma {:induction false} OnlyZeros(zeros: nat)
    ensures AllDigits(Zeros(zeros)) && Value(Zeros(zeros)) == 0
  {
    if zeros > 0 {
      OnlyZeros(zeros - 1);
      assert Zeros(zeros)[..zeros - 1] == Zeros(zeros - 1);
    }
  }

  /** A text reads as a number exactly if it is that number's digits after an optional plus sign and some zeros. */
  lemma ParsedNumber(s: string, n: nat)
    ensures ParseU32(s) == Some(n) <==>
              n < 0x1_0000_0000
              && exists zeros: nat :: s in {Zeros(zeros) + Digits(n), ['+'] + (Zeros(zeros) + Digits(n))}
  {
    if ParseU32(s) == Some(n) {
      var body := if s[0] == '+' then s[1..] else s;
      var zeros := LeadingZeros(body);
      HeadTail(s);
      assert s in {Zeros(zeros) + Digits(n), ['+'] + (Zeros(zeros) + Digits(n))};
    }
    if zeros: nat :| s in {Zeros(zeros) + Digits(n), ['+'] + (Zeros(zeros) + Digits(n))} {
      ZerosValue(zeros, n);
      DigitsParse(n);
      Cons('+', Zeros(zeros) + Digits(n));
      assert (Zeros(zeros) + Digits(n))[0] == (if zeros > 0 then '0' else Digits(n)[0]);
    }
  }

  /* ---- Names ---- */

  function DefaultName(slot: nat): string {
    Digits(slot)
  }

  function TaskName(id: string, slot: nat): string {
    id + "-" + Digits(slot)
  }

  predicate IsGlobalName(name: string, s: Session) {
    ParseU32(name).Some? && ParseU32(name).value in s.globalSlots
  }

  predicate IsDefaultName(name: string, count: nat) {
    ParseU32(name).Some? && 1 <= ParseU32(name).value <= count
  }

  /** The workspace behind slot `slot` of a task's taskspace: shared when the slot is global. */
  function TaskSlotName(s: Session, id: string, slot: nat): string {
    if slot in s.globalSlots then DefaultName(slot) else TaskName(id, slot)
  }

  predicate InTask(s: Session) {
    s.mode.TaskMode? && s.current.Some?
  }

  function SlotName(s: Session, slot: nat): string {
    if InTask(s) then TaskSlotName(s, s.current.value, slot) else DefaultName(slot)
  }

  /** `allowed_workspace_names`: one name per slot of the current taskspace. */
  function AllowedNames(s: Session): seq<string> {
    seq(s.defaultCount, i requires 0 <= i < s.defaultCount => SlotName(s, i + 1))
  }

  /** Position of the last dash, or the length when there is none. */
  function LastDash(s: string): (k: nat)
    ensures k <= |s|
  {
    if s == "" then 0
    else if s[|s| - 1] == '-' then |s| - 1
    else
      var k := LastDash(s[..|s| - 1]);
      if k == |s| - 1 then |s| else k
  }

  function RelativeSlot(name: string): Option<nat> {
    if ParseU32(name).Some? then ParseU32(name)
    else if LastDash(name) == |name| then None
    else ParseU32(name[LastDash(name) + 1..])
  }

  lemma {:induction false} LastDashIs(front: string, back: string)
    requires '-' !in back
    ensures LastDash(front + ['-'] + back) == |front|
    ensures (front + ['-'] + back)[|front| + 1..] == back
    decreases |back|
  {
    var s := front + ['-'] + back;
    Parts(front + ['-'], back);
    if back != "" {
      LastSplit(back);
      DropLast(front + ['-'], back);
      LastDashIs(front, back[..|back| - 1]);
    }
  }

  /** Slot parsing inverts task-name construction, whatever the id. */
  lemma SlotOfTaskName(id: string, slot: nat)
    requires slot < U32
    ensures RelativeSlot(TaskName(id, slot)) == Some(slot)
  {
    DigitsRoundTrip(slot);
    assert '-' in TaskName(id, slot) by { assert TaskName(id, slot)[|id|] == '-'; }
    DashIsNoNumber(TaskName(id, slot));
    LastDashIs(id, Digits(slot));
  }

  lemma SlotOfDefaultName(slot: nat)
    requires slot < U32
    ensures RelativeSlot(DefaultName(slot)) == Some(slot)
  {
    DigitsRoundTrip(slot);
  }

  lemma SlotOfSlotName(s: Session, slot: nat)
    requires slot < U32
    ensures RelativeSlot(SlotName(s, slot)) == Some(slot)
  {
    SlotOfDefaultName(slot);
    if InTask(s) { SlotOfTaskName(s.current.value, slot); }
  }

  lemma SlotNamesDiffer(s: Session, a: nat, b: nat)
    requires a < U32 && b < U32 && a != b
    ensures SlotName(s, a) != SlotName(s, b)
  {
    SlotOfSlotName(s, a);
    SlotOfSlotName(s, b);
  }

  lemma AllowedAt(s: Session, i: nat)
    requires i < s.defaultCount
    ensures |AllowedNames(s)| == s.defaultCount && AllowedNames(s)[i] == SlotName(s, i + 1)
  {}

  /** One allowed name per slot, and no two slots share one. */
  lemma AllowedDistinct(s: Session)
    requires s.defaultCount < U32
    ensures |AllowedNames(s)| == s.defaultCount
    ensures var names := AllowedNames(s); forall i, j | 0 <= i < j < |names| :: names[i] != names[j]
  {
    var names := AllowedNames(s);
    forall i, j | 0 <= i < j < s.defaultCount
      ensures names[i] != names[j]
    {
      AllowedAt(s, i);
      AllowedAt(s, j);
      SlotNamesDiffer(s, i + 1, j + 1);
    }
  }

  /* ---- Ownership ---- */

  predicate IsLive(s: Session, id: string) {
    id in s.tasks && !s.tasks[id].status.Archived?
  }

  /** The name begins with the id and a dash. */
  predicate Names(name: string, id: string) {
    id + ['-'] <= name
  }

  /** The test `task_for_workspace_name` makes on one task. */
  predicate Owns(s: Session, id: string, name: string) {
    IsLive(s, id) && Names(name, id)
  }

  /** Ids hold none of the characters that end them in a workspace name or a window title. */
  predicate GoodId(id: string) {
    id != "" && '-' !in id && ']' !in id
  }

  /** Tasks sit under their own id, and the ids are well formed. */
  predicate GoodTasks(s: Session) {
    forall k | k in s.tasks :: s.tasks[k].id == k && GoodId(k)
  }

  function BeforeDash(name: string): string {
    name[..Find(name, '-')]
  }

  /** The owner of a workspace name: with dash-free ids it can only be the text before the first dash. */
  function TaskFor(s: Session, name: string): Option<string> {
    if IsDefaultName(name, s.defaultCount) then None
    else if Find(name, '-') < |name| && IsLive(s, BeforeDash(name)) then Some(BeforeDash(name))
    else None
  }

  lemma NamesFindsId(name: string, id: string)
    requires '-' !in id && Names(name, id)
    ensures Find(name, '-') == |id| < |name| && BeforeDash(name) == id
  {
    var rest := name[|id| + 1..];
    assert name == id + ['-'] + rest;
    FindFirst(id, '-', rest);
  }

  lemma BeforeDashNames(name: string)
    requires Find(name, '-') < |name|
    ensures Names(name, BeforeDash(name))
  {
    Cut(name, Find(name, '-'));
    Parts(BeforeDash(name) + ['-'], name[Find(name, '-') + 1..]);
  }

  /** With dash-free ids a name has at most one live owner, the one `TaskFor` gives. */
  lemma OneOwner(s: Session, id: string, name: string)
    requires GoodTasks(s) && !IsDefaultName(name, s.defaultCount)
    ensures Owns(s, id, name) <==> TaskFor(s, name) == Some(id)
  {
    if Owns(s, id, name) { NamesFindsId(name, id); }
    if TaskFor(s, name).Some? { BeforeDashNames(name); }
  }

  /** In general two ids name a common workspace exactly when one begins with the other and a dash. */
  lemma SharedName(a: string, b: string)
    ensures (exists name :: Names(name, a) && Names(name, b)) <==> a == b || Names(b, a) || Names(a, b)
  {
    if a == b || Names(b, a) {
      NamesLonger(b, a);
    }
    if Names(a, b) {
      NamesLonger(a, b);
    }
    forall name | Names(name, a) && Names(name, b)
      ensures a == b || Names(b, a) || Names(a, b)
    {
      if |a| <= |b| { NamesNested(name, a, b); } else { NamesNested(name, b, a); }
    }
  }

  lemma NamesLonger(b: string, a: string)
    ensures Names(b + ['-'], b)
    ensures Names(b, a) ==> Names(b + ['-'], a)
  {}

  lemma NamesNested(name: string, a: string, b: string)
    requires Names(name, a) && Names(name, b) && |a| <= |b|
    ensures a == b || Names(b, a)
  {
    assert a == name[..|a|] && b == name[..|b|];
    if |a| < |b| {
      assert a + ['-'] == name[..|a| + 1];
      assert name[..|a| + 1] <= b;
    }
  }

  /** The search through the task table, in whatever order it yields the tasks. */
  method FindTaskForWorkspaceName(s: Session, name: string) returns (r: Option<string>)
    requires GoodTasks(s)
    ensures r == TaskFor(s, name)
  {
    if IsDefaultName(name, s.defaultCount) { return None; }
    var todo := s.tasks.Keys;
    while todo != {}
      invariant todo <= s.tasks.Keys
      invariant forall id | id in s.tasks && id !in todo :: !Owns(s, id, name)
      decreases todo
    {
      var id :| id in todo;
      todo := todo - {id};
      OneOwner(s, id, name);
      if !s.tasks[id].status.Archived? && Names(name, id) {
        return Some(id);
      }
    }
    if TaskFor(s, name).Some? { OneOwner(s, TaskFor(s, name).value, name); }
    r := None;
  }

  predicate IsManaged(s: Session, name: string) {
    name != "" && (IsDefaultName(name, s.defaultCount) || TaskFor(s, name).Some?)
  }

  lemma DefaultNames(s: Session, n: nat)
    requires n < U32
    ensures IsDefaultName(Digits(n), s.defaultCount) <==> 1 <= n <= s.defaultCount
    ensures IsGlobalName(Digits(n), s) <==> n in s.globalSlots
  {
    DigitsRoundTrip(n);
  }

  /** tsk manages a workspace if its name is the number of a default slot or begins with a live task's id and a dash. */
  lemma ManagedMeans(s: Session, name: string)
    requires GoodTasks(s)
    ensures IsManaged(s, name) <==>
              || (ParseU32(name).Some? && 1 <= ParseU32(name).value <= s.defaultCount)
              || exists id :: id in s.tasks && !s.tasks[id].status.Archived? && id + "-" <= name
  {
    if IsManaged(s, name) && !IsDefaultName(name, s.defaultCount) {
      OneOwner(s, TaskFor(s, name).value, name);
    }
    if id :| id in s.tasks && !s.tasks[id].status.Archived? && id + "-" <= name {
      assert id + "-" == id + ['-'];
      if !IsDefaultName(name, s.defaultCount) { OneOwner(s, id, name); }
    }
  }

  /** The names of the current taskspace, spelled out. */
  lemma AllowedSpelled(s: Session, i: nat)
    requires i < s.defaultCount
    ensures AllowedNames(s)[i] ==
      if s.mode.TaskMode? && s.current.Some? && i + 1 !in s.globalSlots then s.current.value + "-" + Digits(i + 1)
      else Digits(i + 1)
  {}

  /* ---- The bar ---- */

  /** `resolve_bar_workspace_name`. */
  function ResolveBar(name: string, s: Session, bar: seq<string>): Option<string> {
    if name in bar then Some(name)
    else
      var rel := RelativeSlot(name);
      if rel.None? || IsDefaultName(name, s.defaultCount) then None
      else if rel.value in s.globalSlots && DefaultName(rel.value) in bar then Some(DefaultName(rel.value))
      else
        var idx := if rel.value == 0 then 0 else rel.value - 1;
        if idx < |bar| then Some(bar[idx]) else None
  }

  lemma SlotIndex(s: Session, name: string, slot: nat)
    requires s.defaultCount < U32 && RelativeSlot(name) == Some(slot) && name in AllowedNames(s)
    ensures 1 <= slot <= s.defaultCount && AllowedNames(s)[slot - 1] == name
  {
    var i :| 0 <= i < |AllowedNames(s)| && AllowedNames(s)[i] == name;
    SlotOfSlotName(s, i + 1);
  }

  /**
   * On the bar of a taskspace another task's workspace stands for the one with its slot, and for none beyond the
   * last; a default one only for itself. Slot 0 is taken for the first.
   */
  lemma Resolved(s: Session, id: string, slot: nat)
    requires 0 < s.defaultCount < U32 && slot < U32
    ensures var bar := AllowedNames(s);
      && ResolveBar(id + "-" + Digits(slot), s, bar)
           == (if slot == 0 then Some(bar[0]) else if slot <= s.defaultCount then Some(bar[slot - 1]) else None)
      && (1 <= slot <= s.defaultCount ==>
            ResolveBar(Digits(slot), s, bar)
              == if InTask(s) && slot !in s.globalSlots then None else Some(Digits(slot)))
  {
    var bar, name, plain := AllowedNames(s), TaskName(id, slot), DefaultName(slot);
    SlotOfTaskName(id, slot);
    SlotOfDefaultName(slot);
    DigitsRoundTrip(slot);
    assert '-' in name by { assert name[|id|] == '-'; }
    DashIsNoNumber(name);
    if name in bar { SlotIndex(s, name, slot); }
    if plain in bar { SlotIndex(s, plain, slot); }
    if 1 <= slot <= s.defaultCount {
      AllowedAt(s, slot - 1);
      assert bar[slot - 1] in bar;
      if InTask(s) && slot !in s.globalSlots { assert TaskName(s.current.value, slot) != plain by { NoDash(s, slot); } }
    }
  }

  lemma NoDash(s: Session, slot: nat)
    requires InTask(s) && slot < U32
    ensures TaskName(s.current.value, slot) != DefaultName(slot)
  {
    DigitsRoundTrip(slot);
    assert '-' in TaskName(s.current.value, slot) by {
      assert TaskName(s.current.value, slot)[|s.current.value|] == '-';
    }
  }

  function Position(names: seq<string>, name: string): (k: nat)
    ensures k <= |names|
    ensures k < |names| ==> names[k] == name
  {
    if names == [] || names[0] == name then 0 else Position(names[1..], name) + 1
  }

  lemma {:induction false} PositionFound(names: seq<string>, name: string)
    requires name in names
    ensures Position(names, name) < |names|
  {
    if names[0] != name {
      HeadTail(names);
      PositionFound(names[1..], name);
    }
  }
}
