/** Short task ids: the shortest unambiguous prefix, and looking a task up by name or prefix. */
module TaskIds {
  import opened Text
  import opened Models

  function LowerChar(c: char): char {
    if 'A' <= c <= 'Z' then c - 'A' + 'a' else c
  }

  function Lower(s: string): (r: string)
    ensures |r| == |s|
  {
    if s == "" then "" else [LowerChar(s[0])] + Lower(s[1..])
  }

  /** The same letter in either case, or the same other character. */
  predicate SameLetter(a: char, b: char) {
    || a == b
    || ('A' <= a <= 'Z' && b as int == a as int + 32)
    || ('A' <= b <= 'Z' && a as int == b as int + 32)
  }

  predicate SameIgnoringCase(a: string, b: string) {
    |a| == |b| && forall i | 0 <= i < |a| :: SameLetter(a[i], b[i])
  }

  /** Lower-casing makes exactly the strings equal that differ in case alone. */
  lemma {:induction false} LowerSame(a: string, b: string)
    ensures Lower(a) == Lower(b) <==> SameIgnoringCase(a, b)
  {
    if a != "" && b != "" {
      LowerSame(a[1..], b[1..]);
      Cons(LowerChar(a[0]), Lower(a[1..]));
      Cons(LowerChar(b[0]), Lower(b[1..]));
      assert SameIgnoringCase(a, b) ==> SameIgnoringCase(a[1..], b[1..]);
      if SameIgnoringCase(a[1..], b[1..]) && |a| == |b| {
        assert forall i | 0 < i < |a| :: a[i] == a[1..][i - 1] && b[i] == b[1..][i - 1];
      }
    }
  }

  /** `other` starts with the first `len` characters of `id`, ignoring case. */
  predicate Shares(id: string, other: string, len: nat)
    requires len <= |id|
  {
    Lower(id)[..len] <= Lower(other)
  }

  /** No other id, ignoring case, starts with the first `len` characters of `id`. */
  predicate UniqueAt(id: string, ids: seq<string>, len: nat)
    requires len <= |id|
  {
    forall o | o in ids && Lower(o) != Lower(id) :: !Shares(id, o, len)
  }

  predicate Alone(id: string, ids: seq<string>) {
    forall o | o in ids :: Lower(o) == Lower(id)
  }

  lemma AloneMeans(id: string, ids: seq<string>)
    ensures Alone(id, ids) <==> forall o | o in ids :: SameIgnoringCase(o, id)
  {
    forall o | o in ids { LowerSame(o, id); }
  }

  /** A prefix is unique if every id that begins with it, in any case, is the id itself. */
  lemma UniqueMeans(id: string, ids: seq<string>, len: nat)
    requires len <= |id|
    ensures UniqueAt(id, ids, len) <==>
              forall o | o in ids && len <= |o| && SameIgnoringCase(o[..len], id[..len]) :: SameIgnoringCase(o, id)
  {
    LowerPrefix(id, len);
    forall o | o in ids
      ensures Lower(o) == Lower(id) <==> SameIgnoringCase(o, id)
      ensures Shares(id, o, len) <==> len <= |o| && SameIgnoringCase(o[..len], id[..len])
    {
      LowerSame(o, id);
      if len <= |o| {
        LowerPrefix(o, len);
        LowerSame(o[..len], id[..len]);
      }
    }
  }

  function PrefixFrom(id: string, ids: seq<string>, len: nat): string
    decreases |id| - len
  {
    if len > |id| then id
    else if UniqueAt(id, ids, len) then id[..len]
    else PrefixFrom(id, ids, len + 1)
  }

  function UniqueIdPrefix(id: string, ids: seq<string>): string {
    if Alone(id, ids) then id else PrefixFrom(id, ids, 1)
  }

  lemma {:induction false} PrefixFromShortest(id: string, ids: seq<string>, len: nat)
    requires 1 <= len <= |id| + 1
    ensures var r := PrefixFrom(id, ids, len);
      && r <= id
      && (forall l | len <= l < |r| :: !UniqueAt(id, ids, l))
      && (UniqueAt(id, ids, |r|) || r == id)
      && (len <= |id| ==> len <= |r|)
    decreases |id| - len
  {
    if len <= |id| && !UniqueAt(id, ids, len) {
      PrefixFromShortest(id, ids, len + 1);
    }
  }

  lemma SharesShorter(id: string, other: string, short: nat, long: nat)
    requires short <= long <= |id| && Shares(id, other, long)
    ensures Shares(id, other, short)
  {
    assert Lower(id)[..short] == Lower(id)[..long][..short];
  }

  /** A longer prefix is shared by fewer ids. */
  lemma UniqueMonotone(id: string, ids: seq<string>, short: nat, long: nat)
    requires short <= long <= |id| && UniqueAt(id, ids, short)
    ensures UniqueAt(id, ids, long)
  {
    forall o | o in ids && Shares(id, o, long)
      ensures Shares(id, o, short)
    {
      SharesShorter(id, o, short, long);
    }
  }

  /**
   * Beside another id, the short id is the shortest non-empty prefix that no other id starts with; it
   * is the whole id when another id extends it, or when there is no other id.
   */
  lemma ShortestPrefix(id: string, ids: seq<string>)
    requires id != ""
    ensures var r := UniqueIdPrefix(id, ids);
      if forall o | o in ids :: SameIgnoringCase(o, id) then r == id
      else
        && r != "" && r <= id
        && (forall l | 1 <= l <= |id| :: UniqueAt(id, ids, l) <==> |r| <= l && UniqueAt(id, ids, |id|))
        && (!UniqueAt(id, ids, |id|) ==> r == id)
  {
    var r := UniqueIdPrefix(id, ids);
    AloneMeans(id, ids);
    PrefixFromShortest(id, ids, 1);
    forall l | 1 <= l <= |id| && !Alone(id, ids)
      ensures UniqueAt(id, ids, l) <==> |r| <= l && UniqueAt(id, ids, |id|)
    {
      if UniqueAt(id, ids, l) { UniqueMonotone(id, ids, l, |id|); }
      if |r| <= l && UniqueAt(id, ids, |r|) { UniqueMonotone(id, ids, |r|, l); }
    }
    if UniqueAt(id, ids, |r|) { UniqueMonotone(id, ids, |r|, |id|); }
  }

  datatype Lookup = Found(task: Task) | NotFound | Ambiguous(ids: seq<string>)

  function WithId(tasks: seq<Task>, id: string): Option<Task> {
    if tasks == [] then None else if tasks[0].id == id then Some(tasks[0]) else WithId(tasks[1..], id)
  }

  function Named(tasks: seq<Task>, name: string): Option<Task> {
    if tasks == [] then None
    else if Lower(tasks[0].name) == Lower(name) then Some(tasks[0])
    else Named(tasks[1..], name)
  }

  predicate Qualifies(t: Task, key: string) {
    !t.status.Archived? && Lower(key) <= Lower(t.id)
  }

  function Matching(tasks: seq<Task>, key: string): seq<Task> {
    if tasks == [] then []
    else (if Qualifies(tasks[0], key) then [tasks[0]] else []) + Matching(tasks[1..], key)
  }

  function Ids(tasks: seq<Task>): seq<string> {
    if tasks == [] then [] else [tasks[0].id] + Ids(tasks[1..])
  }

  function Live(tasks: seq<Task>): seq<Task> {
    if tasks == [] then []
    else (if tasks[0].status.Archived? then [] else [tasks[0]]) + Live(tasks[1..])
  }

  /** `lookup_task`, with the tasks in whatever order the table yields them. */
  function LookupTask(tasks: seq<Task>, key: string): Lookup {
    if WithId(tasks, key).Some? then Found(WithId(tasks, key).value)
    else if Named(tasks, key).Some? then Found(Named(tasks, key).value)
    else
      var matches := Matching(tasks, key);
      if matches == [] then NotFound
      else if |matches| == 1 then Found(matches[0])
      else Ambiguous(Ids(matches))
  }

  function ShortTaskId(tasks: seq<Task>, id: string): string {
    UniqueIdPrefix(id, Ids(Live(tasks)))
  }

  /** Task ids as `generate_task_id` makes them: one length, distinct even ignoring case. */
  predicate RegularIds(tasks: seq<Task>) {
    && (forall i | 0 <= i < |tasks| :: tasks[i].id != "" && |tasks[i].id| == |tasks[0].id|)
    && (forall i, j | 0 <= i < j < |tasks| :: Lower(tasks[i].id) != Lower(tasks[j].id))
  }

  lemma {:induction false} LowerPrefix(s: string, n: nat)
    requires n <= |s|
    ensures Lower(s[..n]) == Lower(s)[..n]
  {
    if n > 0 {
      assert s[..n][1..] == s[1..][..n - 1];
      LowerPrefix(s[1..], n - 1);
      assert Lower(s)[..n] == [LowerChar(s[0])] + Lower(s[1..])[..n - 1];
    } else {
      assert s[..0] == "" && Lower(s)[..0] == "";
    }
  }

  lemma {:induction false} WithIdMember(tasks: seq<Task>, id: string)
    ensures WithId(tasks, id).Some? ==> WithId(tasks, id).value in tasks && WithId(tasks, id).value.id == id
    ensures WithId(tasks, id).None? ==> forall t | t in tasks :: t.id != id
  {
    if tasks != [] { WithIdMember(tasks[1..], id); HeadTail(tasks); }
  }

  lemma {:induction false} MatchingMember(tasks: seq<Task>, key: string, t: Task)
    ensures t in Matching(tasks, key) <==> t in tasks && Qualifies(t, key)
  {
    if tasks != [] { MatchingMember(tasks[1..], key, t); HeadTail(tasks); }
  }

  lemma {:induction false} LiveMember(tasks: seq<Task>, t: Task)
    ensures t in Live(tasks) <==> t in tasks && !t.status.Archived?
  {
    if tasks != [] { LiveMember(tasks[1..], t); HeadTail(tasks); }
  }

  lemma {:induction false} IdsMember(tasks: seq<Task>, id: string)
    ensures id in Ids(tasks) <==> exists t :: t in tasks && t.id == id
  {
    if tasks != [] {
      IdsMember(tasks[1..], id);
      HeadTail(tasks);
      assert tasks[0] in tasks;
    }
  }

  lemma LiveId(tasks: seq<Task>, id: string)
    ensures id in Ids(Live(tasks)) <==> exists t :: t in tasks && !t.status.Archived? && t.id == id
  {
    IdsMember(Live(tasks), id);
    forall t { LiveMember(tasks, t); }
  }

  lemma SameId(tasks: seq<Task>, a: Task, b: Task)
    requires RegularIds(tasks) && a in tasks && b in tasks && Lower(a.id) == Lower(b.id)
    ensures a == b
  {
    var i :| 0 <= i < |tasks| && tasks[i] == a;
    var j :| 0 <= j < |tasks| && tasks[j] == b;
  }

  lemma RegularTail(tasks: seq<Task>)
    requires tasks != [] && RegularIds(tasks)
    ensures RegularIds(tasks[1..])
  {
    var rest := tasks[1..];
    assert forall i | 0 <= i < |rest| :: rest[i] == tasks[i + 1];
  }

  lemma {:induction false} MatchingOne(tasks: seq<Task>, key: string, t: Task)
    requires RegularIds(tasks) && t in tasks && Qualifies(t, key)
    requires forall u | u in tasks && Qualifies(u, key) :: u == t
    ensures Matching(tasks, key) == [t]
  {
    var rest := tasks[1..];
    HeadTail(tasks);
    RegularTail(tasks);
    if tasks[0] == t {
      forall u | u in Matching(rest, key)
        ensures u in rest && u == t
      {
        MatchingMember(rest, key, u);
      }
      assert forall i | 0 <= i < |rest| :: rest[i] == tasks[i + 1];
      assert t !in rest;
      FirstIn(Matching(rest, key));
    } else {
      MatchingOne(rest, key, t);
    }
  }

  lemma MatchingTwo(tasks: seq<Task>, key: string, t: Task, u: Task)
    requires t in tasks && u in tasks && t != u && Qualifies(t, key) && Qualifies(u, key)
    ensures |Matching(tasks, key)| >= 2
  {
    MatchingMember(tasks, key, t);
    MatchingMember(tasks, key, u);
  }

  lemma {:induction false} NamedMember(tasks: seq<Task>, name: string)
    ensures Named(tasks, name).Some? ==>
              Named(tasks, name).value in tasks && SameIgnoringCase(Named(tasks, name).value.name, name)
    ensures Named(tasks, name).None? ==> forall t | t in tasks :: !SameIgnoringCase(t.name, name)
  {
    if tasks != [] {
      LowerSame(tasks[0].name, name);
      NamedMember(tasks[1..], name);
      HeadTail(tasks);
    }
  }

  /** The key begins the task's id, whatever the case, and the task is live. */
  predicate BeginsId(t: Task, key: string) {
    !t.status.Archived? && |key| <= |t.id| && SameIgnoringCase(key, t.id[..|key|])
  }

  lemma QualifiesIs(t: Task, key: string)
    ensures Qualifies(t, key) <==> BeginsId(t, key)
  {
    if |key| <= |t.id| {
      LowerPrefix(t.id, |key|);
      LowerSame(key, t.id[..|key|]);
    }
  }

  /**
   * What a key finds: the task with exactly this id, else one with this name in any case, archived or not, else
   * the only live one whose id it begins; it is ambiguous if it begins several, and lists them.
   */
  lemma LookupMeans(tasks: seq<Task>, key: string)
    ensures var r := LookupTask(tasks, key);
      if exists t :: t in tasks && t.id == key then r.Found? && r.task in tasks && r.task.id == key
      else if exists t :: t in tasks && SameIgnoringCase(t.name, key) then
        r.Found? && r.task in tasks && SameIgnoringCase(r.task.name, key)
      else
        && (r.NotFound? <==> forall t | t in tasks :: !BeginsId(t, key))
        && (r.Found? ==> r.task in tasks && forall t | t in tasks && BeginsId(t, key) :: t == r.task)
        && (r.Found? ==> BeginsId(r.task, key))
        && (r.Ambiguous? ==> forall id :: id in r.ids <==> exists t :: t in tasks && BeginsId(t, key) && t.id == id)
  {
    WithIdMember(tasks, key);
    NamedMember(tasks, key);
    var matches := Matching(tasks, key);
    forall t
      ensures t in matches <==> t in tasks && BeginsId(t, key)
    {
      MatchingMember(tasks, key, t);
      QualifiesIs(t, key);
    }
    forall id
      ensures id in Ids(matches) <==> exists t :: t in tasks && BeginsId(t, key) && t.id == id
    {
      IdsMember(matches, id);
    }
    FirstIn(matches);
  }

  /** A prefix of a task's id: which tasks it can mean. */
  lemma PrefixLookup(tasks: seq<Task>, t: Task, len: nat)
    requires RegularIds(tasks) && t in tasks && !t.status.Archived? && 1 <= len <= |t.id|
    requires Named(tasks, t.id[..len]) == None
    ensures len < |t.id| && !UniqueAt(t.id, Ids(Live(tasks)), len)
      ==> LookupTask(tasks, t.id[..len]).Ambiguous?
    ensures len == |t.id| || UniqueAt(t.id, Ids(Live(tasks)), len)
      ==> LookupTask(tasks, t.id[..len]) == Found(t)
  {
    var key := t.id[..len];
    LowerPrefix(t.id, len);
    WithIdMember(tasks, key);
    if len == |t.id| {
      assert key == t.id;
      SameId(tasks, t, WithId(tasks, key).value);
    } else {
      assert WithId(tasks, key).None? by {
        forall u | u in tasks
          ensures u.id != key
        {
          assert |u.id| == |tasks[0].id| == |t.id|;
        }
      }
      assert Qualifies(t, key);
      if UniqueAt(t.id, Ids(Live(tasks)), len) {
        forall u | u in tasks && Qualifies(u, key)
          ensures u == t
        {
          LiveId(tasks, u.id);
          assert Shares(t.id, u.id, len);
          SameId(tasks, u, t);
        }
        MatchingOne(tasks, key, t);
      } else {
        var o :| o in Ids(Live(tasks)) && Lower(o) != Lower(t.id) && Shares(t.id, o, len);
        LiveId(tasks, o);
        var u :| u in tasks && !u.status.Archived? && u.id == o;
        MatchingTwo(tasks, key, t, u);
      }
    }
  }

  lemma WholeIdUnique(tasks: seq<Task>, t: Task)
    requires RegularIds(tasks) && t in tasks
    ensures UniqueAt(t.id, Ids(Live(tasks)), |t.id|)
  {
    Whole(Lower(t.id));
    forall o | o in Ids(Live(tasks)) && Lower(o) != Lower(t.id)
      ensures !Shares(t.id, o, |t.id|)
    {
      LiveId(tasks, o);
      var u :| u in tasks && !u.status.Archived? && u.id == o;
      assert |u.id| == |t.id|;
    }
  }

  /**
   * The short id finds its task. A shorter non-empty prefix is ambiguous as soon as there is another
   * live task, and finds the task when there is none.
   */
  lemma ShortIdFinds(tasks: seq<Task>, t: Task, len: nat)
    requires RegularIds(tasks) && t in tasks && !t.status.Archived?
    requires 1 <= len <= |ShortTaskId(tasks, t.id)|
    requires len <= |t.id| && Named(tasks, t.id[..len]) == None
    ensures len == |ShortTaskId(tasks, t.id)| || Alone(t.id, Ids(Live(tasks))) ==>
      LookupTask(tasks, t.id[..len]) == Found(t)
    ensures LookupTask(tasks, t.id[..len]).Ambiguous? <==>
      len < |ShortTaskId(tasks, t.id)| && !Alone(t.id, Ids(Live(tasks)))
  {
    var ids := Ids(Live(tasks));
    WholeIdUnique(tasks, t);
    PrefixLookup(tasks, t, len);
    AloneMeans(t.id, ids);
    if !Alone(t.id, ids) {
      ShortestPrefix(t.id, ids);
    } else {
      assert UniqueAt(t.id, ids, len);
    }
  }
}
