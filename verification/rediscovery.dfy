/** Finding the checkouts that a task owns, before and after they are unlinked. */
module Rediscovery {
  import opened Text
  import opened Sidecar
  import opened Checkouts
  import opened Relink

  /** A folder of the workspace directory and the name of its workspace or worktree. */
  type Owned = (string, string)

  datatype Listing = Found(owned: seq<Owned>) | Unnamed(folder: string) | NoList

  /** A jj working copy of this repository that no registration names any more. */
  predicate Forgotten(d: Disk, repo: string, f: string) {
    f in d.dirs && ".jj" in d.dirs[f] && d.dirs[f][".jj"] == Folder(repo) && !RootedAt(d.regs, f)
  }

  function NotedName(d: Disk, f: string): Option<string> {
    if f in d.notes && d.notes[f].workspaceName.Some? && d.notes[f].workspaceName.value != ""
    then d.notes[f].workspaceName else None
  }

  /** The specification of `owned_task_checkouts`. */
  ghost predicate Owns(kind: Kind, repo: string, d: Disk, f: string, n: string) {
    || (n in d.regs && d.regs[n] == Child(f))
    || (kind.Jj? && Forgotten(d, repo, f) && NotedName(d, f) == Some(n))
  }

  ghost predicate AllNamed(d: Disk, repo: string) {
    forall f | f in d.dirs && Forgotten(d, repo, f) :: NotedName(d, f).Some?
  }

  /** No two registrations name the same folder. */
  ghost predicate OneNameEach(regs: map<string, Root>) {
    forall m, n | m in regs && n in regs && regs[m].Child? && regs[m] == regs[n] :: m == n
  }

  predicate Holds(owned: seq<Owned>, f: string) {
    exists i | 0 <= i < |owned| :: owned[i].0 == f
  }

  ghost predicate Exactly(kind: Kind, repo: string, d: Disk, owned: seq<Owned>) {
    && (forall i | 0 <= i < |owned| :: Owns(kind, repo, d, owned[i].0, owned[i].1))
    && (forall f, n | Owns(kind, repo, d, f, n) :: Holds(owned, f))
    && (forall i, j | 0 <= i < j < |owned| :: owned[i].0 != owned[j].0)
  }

  /** The registered checkouts come before the forgotten ones. */
  ghost predicate RegisteredFirst(d: Disk, owned: seq<Owned>) {
    forall i, j | 0 <= i < j < |owned| && RootedAt(d.regs, owned[j].0) ::
      owned[i].1 in d.regs && d.regs[owned[i].1] == Child(owned[i].0)
  }

  /**
   * `owned_task_checkouts`: each owned folder once, registered ones first; it fails exactly when a forgotten
   * checkout has no name.
   */
  method OwnedCheckouts(ws: Workspace) returns (r: Listing)
    ensures r.Found? ==> Exactly(ws.kind, ws.repo, ws.Now(), r.owned) && RegisteredFirst(ws.Now(), r.owned)
    ensures ws.kind.Jj? && !r.NoList? ==> (r.Found? <==> AllNamed(ws.Now(), ws.repo))
    ensures r.Unnamed? ==> ws.kind.Jj? && Forgotten(ws.Now(), ws.repo, r.folder) && NotedName(ws.Now(), r.folder).None?
  {
    var listed: bool := *;
    if !listed { return NoList; }
    var out := ListLinked(ws);
    if ws.kind.Git? { return Found(out); }
    var folders := ws.dirs.Keys;
    ghost var d := ws.Now();
    while folders != {}
      invariant folders <= ws.dirs.Keys
      invariant forall i | 0 <= i < |out| :: Owns(Jj, ws.repo, d, out[i].0, out[i].1)
      invariant forall f, n | n in d.regs && d.regs[n] == Child(f) :: Holds(out, f)
      invariant forall f | f in d.dirs && Forgotten(d, ws.repo, f) ::
                  if f in folders then !Holds(out, f) else NotedName(d, f).Some? && Holds(out, f)
      invariant forall i, j | 0 <= i < j < |out| :: out[i].0 != out[j].0
      invariant RegisteredFirst(d, out)
      decreases |folders|
    {
      var f :| f in folders;
      folders := folders - {f};
      if Forgotten(ws.Now(), ws.repo, f) {
        var name := NotedName(ws.Now(), f);
        if name.None? { return Unnamed(f); }
        HoldsMore(out, (f, name.value));
        out := out + [(f, name.value)];
      }
    }
    r := Found(out);
  }

  /** The registered checkouts in the workspace directory, in some order, each folder once. */
  method ListLinked(ws: Workspace) returns (out: seq<Owned>)
    ensures forall i | 0 <= i < |out| :: out[i].1 in ws.regs && ws.regs[out[i].1] == Child(out[i].0)
    ensures forall f, n | n in ws.regs && ws.regs[n] == Child(f) :: Holds(out, f)
    ensures forall i, j | 0 <= i < j < |out| :: out[i].0 != out[j].0
  {
    out := [];
    var names := ws.regs.Keys;
    while names != {}
      invariant names <= ws.regs.Keys
      invariant forall i | 0 <= i < |out| :: out[i].1 in ws.regs && ws.regs[out[i].1] == Child(out[i].0)
      invariant forall f, n | n in ws.regs && n !in names && ws.regs[n] == Child(f) :: Holds(out, f)
      invariant forall i, j | 0 <= i < j < |out| :: out[i].0 != out[j].0
      decreases |names|
    {
      var n :| n in names;
      names := names - {n};
      if ws.regs[n].Child? && !Holds(out, ws.regs[n].folder) {
        HoldsMore(out, (ws.regs[n].folder, n));
        out := out + [(ws.regs[n].folder, n)];
      }
    }
  }

  lemma HoldsMore(out: seq<Owned>, o: Owned)
    ensures forall f :: Holds(out + [o], f) <==> Holds(out, f) || f == o.0
  {
    forall f
      ensures Holds(out + [o], f) <==> Holds(out, f) || f == o.0
    {
      assert (out + [o])[|out|] == o;
      if Holds(out, f) {
        var i :| 0 <= i < |out| && out[i].0 == f;
        assert (out + [o])[i].0 == f;
      }
    }
  }

  /** Names as both listings and notes give them. */
  ghost predicate CleanNames(d: Disk) {
    && (forall n | n in d.regs :: Trimmed(n) && n != "")
    && (forall f | f in d.notes && d.notes[f].workspaceName.Some? :: Trimmed(d.notes[f].workspaceName.value))
  }

  /** Every registered folder is there and is a working copy of the repository. */
  ghost predicate AllPresent(d: Disk, repo: string) {
    forall n | n in d.regs && d.regs[n].Child? ::
      var f := d.regs[n].folder; f in d.dirs && ".jj" in d.dirs[f] && d.dirs[f][".jj"] == Folder(repo)
  }

  ghost predicate Rediscoverable(kind: Kind, repo: string, d: Disk) {
    OneNameEach(d.regs) && CleanNames(d) && (kind.Jj? ==> AllPresent(d, repo) && AllNamed(d, repo))
  }

  /** What detaching has done so far: checkouts before `k` are noted, later ones are as they were. */
  ghost predicate DetachedTo(before: Disk, now: Disk, owned: seq<Owned>, k: nat) {
    && now.dirs == before.dirs
    && (forall n | n in now.regs :: n in before.regs && now.regs[n] == before.regs[n])
    && (forall n | n in before.regs && n !in now.regs :: exists i :: 0 <= i < k && i < |owned| && owned[i].1 == n)
    && (forall i | 0 <= i < |owned| ::
          if i < k then NotedName(now, owned[i].0) == Some(owned[i].1)
          else NotedName(now, owned[i].0) == NotedName(before, owned[i].0))
  }

  lemma DetachedStep(before: Disk, now: Disk, next: Disk, owned: seq<Owned>, k: nat)
    requires k < |owned| && DetachedTo(before, now, owned, k)
    requires next.dirs == now.dirs && (next.regs == now.regs || next.regs == now.regs - {owned[k].1})
    requires next.notes - {owned[k].0} == now.notes - {owned[k].0}
    requires NotedName(next, owned[k].0) == Some(owned[k].1)
    requires forall i, j | 0 <= i < j < |owned| :: owned[i].0 != owned[j].0
    ensures DetachedTo(before, next, owned, k + 1)
  {
    forall i | 0 <= i < |owned| && i != k
      ensures NotedName(next, owned[i].0) == NotedName(now, owned[i].0)
    {
      var f, g := owned[i].0, owned[k].0;
      assert f != g;
      assert f in next.notes <==> f in next.notes - {g};
      assert f in now.notes <==> f in now.notes - {g};
      if f in next.notes { assert (next.notes - {g})[f] == (now.notes - {g})[f]; }
    }
  }

  /**
   * The same checkouts are owned under the same names, once every one is noted, and half way too: the name in
   * a forgotten checkout's note is forgotten only when every registered checkout has a note.
   */
  lemma StillOwned(repo: string, before: Disk, now: Disk, owned: seq<Owned>, k: nat, f: string, n: string)
    requires Rediscoverable(Jj, repo, before) && Exactly(Jj, repo, before, owned)
    requires k <= |owned| && DetachedTo(before, now, owned, k)
    requires RegisteredFirst(before, owned)
    ensures Owns(Jj, repo, before, f, n) <==> Owns(Jj, repo, now, f, n)
  {
    if Holds(owned, f) {
      var i :| 0 <= i < |owned| && owned[i].0 == f;
      if Owns(Jj, repo, before, f, n) { OwnedOnce(Jj, repo, before, f, owned[i].1, n); }
      if i < k {
        assert NotedName(now, f) == Some(owned[i].1);
      } else {
        KeptUntilNoted(repo, before, now, owned, k, i);
      }
    }
    if Owns(Jj, repo, now, f, n) && !Owns(Jj, repo, before, f, n) {
      assert Forgotten(now, repo, f);
      if RootedAt(before.regs, f) {
        var m :| m in before.regs && before.regs[m] == Child(f);
        assert Owns(Jj, repo, before, f, m);
      } else {
        assert Forgotten(before, repo, f);
        assert Owns(Jj, repo, before, f, NotedName(before, f).value);
      }
    }
  }

  /** A checkout that is not noted yet has all the registrations it had. */
  lemma KeptUntilNoted(repo: string, before: Disk, now: Disk, owned: seq<Owned>, k: nat, i: nat)
    requires OneNameEach(before.regs) && RegisteredFirst(before, owned) && Exactly(Jj, repo, before, owned)
    requires k <= i < |owned| && DetachedTo(before, now, owned, k)
    ensures forall m | m in before.regs && before.regs[m] == Child(owned[i].0) :: m in now.regs
  {
    assert forall j | 0 <= j < k :: Owns(Jj, repo, before, owned[j].0, owned[j].1) && owned[j].0 != owned[i].0;
  }

  lemma OwnedOnce(kind: Kind, repo: string, d: Disk, f: string, m: string, n: string)
    requires OneNameEach(d.regs) && Owns(kind, repo, d, f, m) && Owns(kind, repo, d, f, n)
    ensures m == n
  {}

  /** No owned checkout is linked any more; a git checkout that is also a jj one keeps its `.git`. */
  ghost predicate Unlinked(kind: Kind, d: Disk, f: string, n: string) {
    match kind
    case Git => !GitLinked(d.dirs, f) || JjLinked(d.dirs, f)
    case Jj => n !in d.regs || n == "" || !JjLinked(d.dirs, f)
  }

  lemma UnlinkedStays(kind: Kind, now: Disk, next: Disk, f: string, n: string, g: string)
    requires Unlinked(kind, now, f, n) && next.regs.Keys <= now.regs.Keys
    requires next.dirs == now.dirs || next.dirs == Removed(now.dirs, g, ".git")
    ensures Unlinked(kind, next, f, n)
  {}

  /**
   * `detach_task_checkout`: whether or not each forget worked, and wherever the loop stops, the task owns the
   * same checkouts under the same names afterwards, if every note could be written. It works if nothing fails
   * and every forgotten checkout has a name, and then all of them are unlinked.
   */
  method DetachAll(ws: Workspace) returns (ok: bool, listed: bool)
    modifies ws
    ensures ws.faults >= old(ws.faults) && ws.denials >= old(ws.denials)
    ensures ws.faults == old(ws.faults) && Rediscoverable(ws.kind, ws.repo, old(ws.Now())) ==>
              forall f, n :: Owns(ws.kind, ws.repo, old(ws.Now()), f, n) <==> Owns(ws.kind, ws.repo, ws.Now(), f, n)
    ensures listed && ws.faults == old(ws.faults) && ws.denials == old(ws.denials) ==>
              ok || (ws.kind.Jj? && !AllNamed(old(ws.Now()), ws.repo))
    ensures ok && ws.denials == old(ws.denials) && OneNameEach(old(ws.regs)) ==>
              forall f, n | Owns(ws.kind, ws.repo, old(ws.Now()), f, n) :: Unlinked(ws.kind, ws.Now(), f, n)
    ensures forall f, n | Owns(ws.kind, ws.repo, ws.Now(), f, n) ::
              exists m :: Owns(ws.kind, ws.repo, old(ws.Now()), f, m)
    ensures OnlyUnlinked(old(ws.dirs), ws.dirs)
    ensures forall n | n in ws.regs :: n in old(ws.regs) && ws.regs[n] == old(ws.regs)[n]
    ensures ws.faults == old(ws.faults) && ws.kind.Jj? && Rediscoverable(Jj, ws.repo, old(ws.Now())) ==>
              ws.dirs == old(ws.dirs)
  {
    ghost var before := ws.Now();
    var r := OwnedCheckouts(ws);
    listed := !r.NoList?;
    if !r.Found? { return false, listed; }
    var owned := r.owned;
    ghost var sure := ws.kind.Jj? && Rediscoverable(Jj, ws.repo, before);
    for i := 0 to |owned|
      invariant ws.faults >= old(ws.faults) && ws.denials >= old(ws.denials)
      invariant Detaching(ws.kind, before, ws.Now(), owned, i,
                          sure && ws.faults == old(ws.faults), ws.denials == old(ws.denials))
    {
      ghost var name;
      ok, name := DetachOne(ws, before, owned, i, sure && ws.faults == old(ws.faults), ws.denials == old(ws.denials));
      if !ok {
        HalfDetached(ws.kind, ws.repo, before, ws.Now(), owned, i + 1, sure && ws.faults == old(ws.faults), false);
        return;
      }
    }
    ok := true;
    HalfDetached(ws.kind, ws.repo, before, ws.Now(), owned, |owned|,
                 sure && ws.faults == old(ws.faults), ws.denials == old(ws.denials));
    if OneNameEach(before.regs) { ListedAs(ws, before, owned); }
  }

  /** The disk when checkouts before `k` are detached; `noted` and `forgot`: no fault, no denial so far. */
  ghost predicate Detaching(kind: Kind, before: Disk, now: Disk, owned: seq<Owned>, k: nat, noted: bool, forgot: bool) {
    && OnlyUnlinked(before.dirs, now.dirs)
    && (forall n | n in now.regs :: n in before.regs && now.regs[n] == before.regs[n])
    && (kind.Git? ==> now.regs == before.regs)
    && (forall f | f in now.notes && !Holds(owned, f) :: f in before.notes && now.notes[f] == before.notes[f])
    && (noted ==> DetachedTo(before, now, owned, k))
    && (forgot ==> forall j | 0 <= j < k && j < |owned| :: Unlinked(kind, now, owned[j].0, owned[j].1))
  }

  method DetachOne(ws: Workspace, ghost before: Disk, owned: seq<Owned>, i: nat, ghost noted: bool, ghost forgot: bool)
      returns (ok: bool, ghost name: string)
    requires i < |owned| && Exactly(ws.kind, ws.repo, before, owned)
    requires noted ==> ws.kind.Jj? && Rediscoverable(Jj, ws.repo, before)
    requires Detaching(ws.kind, before, ws.Now(), owned, i, noted, forgot)
    modifies ws
    ensures ws.faults >= old(ws.faults) && ws.denials >= old(ws.denials)
    ensures ws.faults == old(ws.faults) && ws.denials == old(ws.denials) ==> ok
    ensures Detaching(ws.kind, before, ws.Now(), owned, i + 1,
                      noted && ws.faults == old(ws.faults), ok && forgot && ws.denials == old(ws.denials))
  {
    ghost var now := ws.Now();
    ok, name := ws.Detach(owned[i].0, Some(owned[i].1), true);
    OnlyUnlinkedStep(before.dirs, now.dirs, ws.dirs, owned[i].0);
    OtherNotes(now.notes, ws.notes, owned, i);
    if noted && ws.faults == old(ws.faults) {
      OwnedIsLinked(ws.repo, before, owned[i].0, owned[i].1);
      DetachedStep(before, now, ws.Now(), owned, i);
    }
    if ok && forgot && ws.denials == old(ws.denials) {
      forall j | 0 <= j < i
        ensures Unlinked(ws.kind, ws.Now(), owned[j].0, owned[j].1)
      {
        UnlinkedStays(ws.kind, now, ws.Now(), owned[j].0, owned[j].1, owned[i].0);
      }
    }
  }

  /** Folders and entries are as they were, except that some `.git` files are gone. */
  ghost predicate OnlyUnlinked(before: Dirs, now: Dirs) {
    before.Keys == now.Keys && forall f | f in now :: now[f] == before[f] || now[f] == before[f] - {".git"}
  }

  lemma OnlyUnlinkedStep(before: Dirs, now: Dirs, next: Dirs, f: string)
    requires OnlyUnlinked(before, now)
    requires next == now || (GitLinked(now, f) && next == Removed(now, f, ".git"))
    ensures OnlyUnlinked(before, next)
  {
    if next != now {
      assert now[f] - {".git"} == before[f] - {".git"};
    }
  }

  lemma OtherNotes(now: map<string, RestoreTarget>, next: map<string, RestoreTarget>, owned: seq<Owned>, i: nat)
    requires i < |owned| && next - {owned[i].0} == now - {owned[i].0}
    ensures forall f | f in next && !Holds(owned, f) :: f in now && next[f] == now[f]
  {
    var g := owned[i].0;
    assert Holds(owned, g);
    forall f | f in next && !Holds(owned, f)
      ensures f in now && next[f] == now[f]
    {
      assert f in next - {g};
      assert (next - {g})[f] == (now - {g})[f];
    }
  }

  /** Detaching makes no other folder owned. */
  lemma NoneNew(kind: Kind, repo: string, before: Disk, now: Disk, owned: seq<Owned>, k: nat, f: string, n: string)
    requires Exactly(kind, repo, before, owned) && Detaching(kind, before, now, owned, k, false, false)
    requires Owns(kind, repo, now, f, n)
    ensures exists m :: Owns(kind, repo, before, f, m)
  {
    if Holds(owned, f) {
      var i :| 0 <= i < |owned| && owned[i].0 == f;
      assert Owns(kind, repo, before, f, owned[i].1);
    } else if RootedAt(before.regs, f) {
      var m :| m in before.regs && before.regs[m] == Child(f);
      assert Owns(kind, repo, before, f, m);
    } else {
      assert Owns(kind, repo, before, f, n);
    }
  }

  lemma HalfDetached(kind: Kind, repo: string, before: Disk, now: Disk, owned: seq<Owned>, k: nat,
                     noted: bool, forgot: bool)
    requires Exactly(kind, repo, before, owned) && RegisteredFirst(before, owned) && k <= |owned|
    requires Detaching(kind, before, now, owned, k, noted, forgot)
    requires noted ==> kind.Jj? && Rediscoverable(Jj, repo, before)
    ensures noted || kind.Git? ==>
              forall f, n :: Owns(kind, repo, before, f, n) <==> Owns(kind, repo, now, f, n)
    ensures forall f, n | Owns(kind, repo, now, f, n) :: exists m :: Owns(kind, repo, before, f, m)
  {
    forall f, n | Owns(kind, repo, now, f, n)
      ensures exists m :: Owns(kind, repo, before, f, m)
    {
      NoneNew(kind, repo, before, now, owned, k, f, n);
    }
    if noted {
      forall f, n
        ensures Owns(Jj, repo, before, f, n) <==> Owns(Jj, repo, now, f, n)
      {
        StillOwned(repo, before, now, owned, k, f, n);
      }
    }
  }

  lemma ListedAs(ws: Workspace, before: Disk, owned: seq<Owned>)
    requires Exactly(ws.kind, ws.repo, before, owned) && OneNameEach(before.regs)
    ensures forall f, n | Owns(ws.kind, ws.repo, before, f, n) :: exists i :: 0 <= i < |owned| && owned[i] == (f, n)
  {
    forall f, n | Owns(ws.kind, ws.repo, before, f, n)
      ensures exists i :: 0 <= i < |owned| && owned[i] == (f, n)
    {
      assert Holds(owned, f);
      var i :| 0 <= i < |owned| && owned[i].0 == f;
      OwnedOnce(ws.kind, ws.repo, before, f, owned[i].1, n);
      assert owned[i] == (f, n);
    }
  }

  lemma OwnedIsLinked(repo: string, d: Disk, f: string, n: string)
    requires Rediscoverable(Jj, repo, d) && Owns(Jj, repo, d, f, n)
    ensures JjLinked(d.dirs, f) && n != "" && Trim(n) == n
  {
    assert Trimmed(n);
    TrimTrimmed(n);
  }

  /**
   * Reattaching one git checkout prunes: another registered checkout is still found afterwards exactly if
   * it still had its `.git` file, and after a failed add the checkout itself is not found any more.
   */
  lemma FoundAfterPrune(ws: Workspace, ready: Dirs, before: Disk, after: Disk,
                        f: string, name: string, o: Outcome, made: Entries, g: string, n: string)
    requires ws.kind.Git? && (o.Done? || o.AddFailed?)
    requires ws.Relinked(ready, before.regs, before.notes, after, f, name, o, made)
    requires n != name && g != f && g != GitBackup(name) && Owns(Git, ws.repo, before, g, n)
    ensures Owns(Git, ws.repo, after, g, n) <==> GitLinked(ready, g)
    ensures o.AddFailed? ==> forall m :: !Owns(Git, ws.repo, after, f, m)
  {
    assert Pruned(before.regs, ready, after.regs, f, GitBackup(name), name);
    assert RegsKept(before.regs, after.regs, name);
  }

  /** Two detached worktrees: once one has been reattached, or its add has failed, the other is not found. */
  lemma OtherIsLost(ws: Workspace) returns (before: Disk)
    requires ws.kind.Git?
    ensures Owns(Git, ws.repo, before, "one", "a") && Owns(Git, ws.repo, before, "two", "b")
    ensures forall after, o, made | ws.Relinked(before.dirs, before.regs, before.notes, after, "one", "a", o, made)
              && (o.Done? || o.AddFailed?) :: !Owns(Git, ws.repo, after, "two", "b")
  {
    var work: Entries := map["notes" := File("")];
    before := Disk(map["one" := work, "two" := work], map["a" := Child("one"), "b" := Child("two")], map[]);
    assert "a"[0] != "b"[0] && "one"[0] != "two"[0] && "two"[0] != GitBackup("a")[0];
    assert "notes"[0] == 'n' && ".git"[0] == '.';
    forall after, o, made | ws.Relinked(before.dirs, before.regs, before.notes, after, "one", "a", o, made)
                            && (o.Done? || o.AddFailed?)
      ensures !Owns(Git, ws.repo, after, "two", "b")
    {
      FoundAfterPrune(ws, before.dirs, before, after, "one", "a", o, made, "two", "b");
    }
  }

  /** A leftover jj backup that counts as a working copy of the repository. */
  predicate HoldsLink(d: Disk, repo: string, name: string) {
    var es := Files(d.dirs, JjBackup(name)); ".jj" in es && es[".jj"] == Folder(repo)
  }

  /**
   * After a crash in a jj relink that began without leftovers the listing fails exactly if `.jj` had been
   * moved into the backup: that folder is then a forgotten checkout without a note. Only a direct reattach
   * reaches recovery from there.
   */
  lemma ListingBlocked(base: Disk, d: Disk, repo: string, f: string, name: string)
    requires Apart(f, name) && NoLeftover(base.dirs, name) && AllNamed(base, repo)
    requires RelinkState(base.dirs, Files(base.dirs, f), ".jj", d.dirs, f, JjBackup(name))
    requires d.notes - {f} == base.notes - {f} && NotedName(d, f).Some? && JjBackup(name) !in base.notes
    requires !RootedAt(d.regs, JjBackup(name))
    requires forall g | g != f && RootedAt(base.regs, g) :: RootedAt(d.regs, g)
    ensures AllNamed(d, repo) <==> !HoldsLink(d, repo, name)
  {
    var b := JjBackup(name);
    WiderFrame(base.dirs, d.dirs, f, b, {f, b});
    forall g | g != f
      ensures NotedName(d, g) == NotedName(base, g)
    {
      assert g in d.notes <==> g in d.notes - {f};
      assert g in base.notes <==> g in base.notes - {f};
      if g in d.notes { assert (d.notes - {f})[g] == (base.notes - {f})[g]; }
    }
    assert NotedName(d, b).None?;
    if HoldsLink(d, repo, name) { assert Forgotten(d, repo, b); }
    forall g | g in d.dirs && Forgotten(d, repo, g) && g != b
      ensures NotedName(d, g).Some?
    {
      if g != f { assert Forgotten(base, repo, g); }
    }
  }

  /** Two such crash states, after one rename each: with `.jj` moved first, and with another entry moved first. */
  lemma ListingExamples(repo: string, f: string, name: string) returns (base: Disk, blocked: Disk, open: Disk)
    requires Apart(f, name)
    ensures NoLeftover(base.dirs, name) && AllNamed(base, repo)
    ensures Split(base.dirs, Files(base.dirs, f), blocked.dirs, f, JjBackup(name)) && !AllNamed(blocked, repo)
    ensures Split(base.dirs, Files(base.dirs, f), open.dirs, f, JjBackup(name)) && AllNamed(open, repo)
    ensures Files(open.dirs, JjBackup(name)) != map[]
  {
    var tree: Entries := map[".jj" := Folder(repo), "notes" := File("")];
    var note, b := map[f := RestoreTarget(None, None, Some("n"))], JjBackup(name);
    assert ".jj"[0] != "notes"[0];
    base := Disk(map[f := tree], map[], note);
    SplitStart(base.dirs, f, b);
    SplitRename(base.dirs, tree, base.dirs, f, b, ".jj");
    SplitRename(base.dirs, tree, base.dirs, f, b, "notes");
    blocked := Disk(Renamed(base.dirs, f, b, ".jj"), map[], note);
    open := Disk(Renamed(base.dirs, f, b, "notes"), map[], note);
    assert Forgotten(blocked, repo, b);
  }
}
