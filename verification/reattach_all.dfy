/** Re-linking every checkout of a task, one after the other, from one listing. */
module ReattachAll {
  import opened Text
  import opened Checkouts
  import opened Relink
  import opened Rediscovery

  /** The checkout holds a new tree overridden by all its old entries but the metadata, and has no backup. */
  ghost predicate Back(ws: Workspace, orig: Entries, d: Disk, f: string, n: string) {
    ws.Backup(n) !in d.dirs && exists made :: ws.Restored(orig, d, f, n, made)
  }

  /** The checkout is not linked: git's file is gone, or jj has forgotten the name. */
  predicate Detached(kind: Kind, d: Disk, f: string, n: string) {
    match kind
    case Git => !GitLinked(d.dirs, f)
    case Jj => n !in d.regs
  }

  /** The places of the listed checkouts do not meet, none is named like a backup, and the names are clean. */
  ghost predicate Separate(owned: seq<Owned>) {
    && (forall i | 0 <= i < |owned| :: Plain(owned[i].0) && Trim(owned[i].1) == owned[i].1 != "")
    && (forall i, j | 0 <= i < j < |owned| :: Places(owned[i].0, owned[i].1) !! Places(owned[j].0, owned[j].1))
  }

  /** Ready to be reattached: no backups, all detached, no name registered for another place. */
  ghost predicate Fresh(kind: Kind, d: Disk, f: string, n: string) {
    && NoLeftover(d.dirs, n) && Detached(kind, d, f, n)
    && (n in d.regs ==> d.regs[n] == Child(f))
  }

  /** Checkouts from `k` on are as they were, and fresh; git lists none of them after a first relink. */
  ghost predicate Waiting(ws: Workspace, before: Disk, now: Disk, owned: seq<Owned>, k: nat) {
    forall i | k <= i < |owned| ::
      && Files(now.dirs, owned[i].0) == Files(before.dirs, owned[i].0)
      && Fresh(ws.kind, now, owned[i].0, owned[i].1)
      && (ws.kind.Git? && k > 0 ==> !RootedAt(now.regs, owned[i].0))
  }

  ghost predicate Returned(ws: Workspace, before: Disk, now: Disk, owned: seq<Owned>, k: nat) {
    forall i | 0 <= i < k && i < |owned| :: Back(ws, Files(before.dirs, owned[i].0), now, owned[i].0, owned[i].1)
  }

  /** What one turn says about the checkouts of the other turns. */
  ghost predicate Turned(ws: Workspace, now: Disk, next: Disk, f: string, n: string, o: Outcome, made: Entries) {
    && Conserved(now.dirs, next.dirs, Places(f, n), ws.Meta())
    && ws.Relinked(Recovered(now.dirs, f, n), now.regs, now.notes, next, f, n, o, made)
  }

  lemma Apart2(now: Dirs, next: Dirs, places: set<string>, p: string, skip: string)
    requires Conserved(now, next, places, skip) && p !in places
    ensures (p in next <==> p in now) && Files(next, p) == Files(now, p)
  {
    assert p in next <==> p in next - places;
    assert p in now <==> p in now - places;
    if p in now { assert (next - places)[p] == (now - places)[p]; }
  }

  lemma NamesDiffer(f: string, n: string, g: string, m: string)
    requires Places(f, n) !! Places(g, m)
    ensures m != n
  {
    assert JjBackup(n) in Places(f, n);
    assert JjBackup(m) in Places(g, m);
  }

  /** A turn leaves a checkout that waits as it was. */
  lemma StaysFresh(ws: Workspace, now: Disk, next: Disk, f: string, n: string, o: Outcome, made: Entries,
                   g: string, m: string)
    requires Turned(ws, now, next, f, n, o, made) && Places(f, n) !! Places(g, m)
    requires Fresh(ws.kind, now, g, m)
    ensures Files(next.dirs, g) == Files(now.dirs, g) && Fresh(ws.kind, next, g, m)
  {
    Apart2(now.dirs, next.dirs, Places(f, n), g, ws.Meta());
    Apart2(now.dirs, next.dirs, Places(f, n), JjBackup(m), ws.Meta());
    Apart2(now.dirs, next.dirs, Places(f, n), GitBackup(m), ws.Meta());
    NamesDiffer(f, n, g, m);
  }

  /** A turn leaves a checkout that is back as it is. */
  lemma StaysBack(ws: Workspace, now: Disk, next: Disk, f: string, n: string, made: Entries,
                  orig: Entries, g: string, m: string)
    requires Turned(ws, now, next, f, n, Done, made) && Places(f, n) !! Places(g, m)
    requires Apart(f, n) && NoLeftover(now.dirs, n)
    requires Back(ws, orig, now, g, m)
    ensures Back(ws, orig, next, g, m)
  {
    Apart2(now.dirs, next.dirs, Places(f, n), g, ws.Meta());
    Apart2(now.dirs, next.dirs, Places(f, n), ws.Backup(m), ws.Meta());
    NothingToRecover(now.dirs, f, n);
    NamesDiffer(f, n, g, m);
    var tree :| ws.Restored(orig, now, g, m, tree);
    assert ws.IsLink(now.dirs[g]);
    assert g != ws.Backup(n);
    assert m in next.regs;
    assert ws.Restored(orig, next, g, m, tree);
  }

  /** Every checkout that was back stays so, and the one whose turn it was is back too. */
  lemma TurnDone(ws: Workspace, before: Disk, now: Disk, next: Disk, owned: seq<Owned>, k: nat, made: Entries)
    requires k < |owned| && Separate(owned)
    requires Waiting(ws, before, now, owned, k) && Returned(ws, before, now, owned, k)
    requires Turned(ws, now, next, owned[k].0, owned[k].1, Done, made) && ws.Backup(owned[k].1) !in next.dirs
    ensures Returned(ws, before, next, owned, k + 1)
  {
    var f, n := owned[k].0, owned[k].1;
    NothingToRecover(now.dirs, f, n);
    assert ws.Restored(Files(before.dirs, f), next, f, n, made);
    forall i | 0 <= i < k
      ensures Back(ws, Files(before.dirs, owned[i].0), next, owned[i].0, owned[i].1)
    {
      StaysBack(ws, now, next, f, n, made, Files(before.dirs, owned[i].0), owned[i].0, owned[i].1);
    }
  }

  /** A turn lets the others wait, however it ends; unlisted, once git has pruned. */
  lemma TurnWaits(ws: Workspace, before: Disk, now: Disk, next: Disk, owned: seq<Owned>, k: nat,
                  o: Outcome, made: Entries)
    requires k < |owned| && Separate(owned) && Waiting(ws, before, now, owned, k)
    requires Turned(ws, now, next, owned[k].0, owned[k].1, o, made)
    ensures o.Done? || o.AddFailed? || ws.kind.Jj? || k > 0 ==> Waiting(ws, before, next, owned, k + 1)
  {
    var f, n := owned[k].0, owned[k].1;
    NothingToRecover(now.dirs, f, n);
    if o.Done? || o.AddFailed? || ws.kind.Jj? || k > 0 {
      forall i | k < i < |owned|
        ensures Files(next.dirs, owned[i].0) == Files(before.dirs, owned[i].0)
        ensures Fresh(ws.kind, next, owned[i].0, owned[i].1)
        ensures ws.kind.Git? ==> !RootedAt(next.regs, owned[i].0)
      {
        StaysFresh(ws, now, next, f, n, o, made, owned[i].0, owned[i].1);
        if ws.kind.Git? { Unlisted(ws, now, next, f, n, o, made, owned[i].0, owned[i].1, k > 0); }
      }
    }
  }

  lemma Unlisted(ws: Workspace, now: Disk, next: Disk, f: string, n: string, o: Outcome, made: Entries,
                 g: string, m: string, already: bool)
    requires ws.kind.Git? && Turned(ws, now, next, f, n, o, made) && Places(f, n) !! Places(g, m)
    requires Apart(f, n) && Fresh(Git, now, f, n) && Fresh(Git, now, g, m)
    requires o.Done? || o.AddFailed? || (already && !RootedAt(now.regs, g))
    ensures !RootedAt(next.regs, g)
  {
    NothingToRecover(now.dirs, f, n);
    assert g in Places(g, m) && f in Places(f, n) && GitBackup(n) in Places(f, n);
    forall r | r in next.regs
      ensures next.regs[r] != Child(g)
    {
      if r != n { assert r in now.regs && next.regs[r] == now.regs[r]; }
    }
  }

  /** One checkout of the loop: if it is fresh and nothing fails, it is relinked. */
  method ReattachOne(ws: Workspace, f: string, n: string) returns (o: Outcome, ghost made: Entries)
    requires Plain(f)
    modifies ws
    ensures ws.faults >= old(ws.faults) && ws.denials >= old(ws.denials)
    ensures Trim(n) == n != "" ==> Turned(ws, old(ws.Now()), ws.Now(), f, n, o, made)
    ensures Trim(n) == n != "" && Fresh(ws.kind, old(ws.Now()), f, n) ==>
              !o.Skipped? && (o.Linked? ==> ws.kind.Jj? && ws.denials > old(ws.denials))
    ensures Trim(n) == n != "" && Fresh(ws.kind, old(ws.Now()), f, n) ==>
              ws.faults > old(ws.faults) || ws.denials > old(ws.denials) || (o.Done? && ws.Backup(n) !in ws.dirs)
  {
    ghost var before := ws.dirs;
    RecoveredTwice(before, f, n);
    assert ws.AllPlaces(f, Some(n), n) == Places(f, n);
    if NoLeftover(before, n) { NothingToRecover(before, f, n); }
    ghost var name;
    o, made, name := ws.Reattach(f, Some(n), true);
    if o.Linked? && Trim(n) == n != "" && NoLeftover(before, n) {
      assert Files(ws.dirs, f) == Files(before, f);
    }
  }

  /** No owned checkout is named like a backup. */
  ghost predicate Listable(ws: Workspace, d: Disk) {
    forall f, n | Owns(ws.kind, ws.repo, d, f, n) :: Plain(f)
  }

  /** Names are clean and there are no backups of them, nor can the places of two checkouts meet. */
  ghost predicate Spaced(ws: Workspace, d: Disk) {
    && (forall f, n | Owns(ws.kind, ws.repo, d, f, n) :: Trim(n) == n != "" && NoLeftover(d.dirs, n))
    && (forall f, n, g, m | Owns(ws.kind, ws.repo, d, f, n) && Owns(ws.kind, ws.repo, d, g, m) && f != g ::
          Places(f, n) !! Places(g, m))
  }

  /** Besides, all owned checkouts are detached. */
  ghost predicate Reattachable(ws: Workspace, d: Disk) {
    Spaced(ws, d) && forall f, n | Owns(ws.kind, ws.repo, d, f, n) :: Fresh(ws.kind, d, f, n)
  }

  /**
   * `reattach_task_checkout`: the listing is taken once and the loop stops at the first error; `last` is the
   * outcome of the last turn. If nothing fails, every owned checkout is back. If a git loop stops after a first
   * relink, or at a failed add, a prune has dropped the registrations of the checkouts not tried yet, and the
   * task does not own them any more. A jj loop that stops leaves them as they were.
   */
  method ReattachAll(ws: Workspace)
      returns (ok: bool, listed: bool, last: Outcome, ghost owned: seq<Owned>, ghost done: nat)
    requires Listable(ws, ws.Now())
    modifies ws
    ensures ws.faults >= old(ws.faults) && ws.denials >= old(ws.denials)
    ensures listed && ws.faults == old(ws.faults) && ws.denials == old(ws.denials) ==>
              ok || !Reattachable(ws, old(ws.Now())) || (ws.kind.Jj? && !AllNamed(old(ws.Now()), ws.repo))
    ensures ok && ws.faults == old(ws.faults) && ws.denials == old(ws.denials)
            && Reattachable(ws, old(ws.Now())) && OneNameEach(old(ws.regs)) ==>
              forall f, n | Owns(ws.kind, ws.repo, old(ws.Now()), f, n) ::
                Back(ws, Files(old(ws.dirs), f), ws.Now(), f, n)
    ensures done <= |owned| && (ok ==> listed && done == |owned|)
    ensures !ok && owned != [] ==> last.Refused? || last.AddFailed? || last.Stopped?
    ensures forall i | 0 <= i < |owned| :: Owns(ws.kind, ws.repo, old(ws.Now()), owned[i].0, owned[i].1)
    ensures !ok && ws.kind.Git? && (done > 0 || last.AddFailed?) && Reattachable(ws, old(ws.Now())) ==>
              forall i, n | done < i < |owned| :: !Owns(Git, ws.repo, ws.Now(), owned[i].0, n)
    ensures !ok && ws.kind.Jj? && Reattachable(ws, old(ws.Now())) ==>
              forall i | done < i < |owned| ::
                && Files(ws.dirs, owned[i].0) == Files(old(ws.dirs), owned[i].0)
                && Fresh(Jj, ws.Now(), owned[i].0, owned[i].1)
  {
    ghost var before := ws.Now();
    var r := OwnedCheckouts(ws);
    listed, last, owned, done := !r.NoList?, Stopped, [], 0;
    if !r.Found? { return false, listed, last, owned, done; }
    owned := r.owned;
    ghost var sure := Reattachable(ws, before);
    for i := 0 to |r.owned|
      invariant done == i && ws.faults >= old(ws.faults) && ws.denials >= old(ws.denials)
      invariant sure ==> Separate(owned) && Waiting(ws, before, ws.Now(), owned, i)
      invariant sure && ws.faults == old(ws.faults) && ws.denials == old(ws.denials) ==>
                  Returned(ws, before, ws.Now(), owned, i)
    {
      ghost var now := ws.Now();
      assert Owns(ws.kind, ws.repo, before, owned[i].0, owned[i].1);
      ghost var made;
      last, made := ReattachOne(ws, r.owned[i].0, r.owned[i].1);
      if sure {
        TurnWaits(ws, before, now, ws.Now(), owned, i, last, made);
        if last.Done? && ws.Backup(owned[i].1) !in ws.dirs && Returned(ws, before, now, owned, i) {
          TurnDone(ws, before, now, ws.Now(), owned, i, made);
        }
      }
      if !last.Done? && !last.Linked? && !last.Skipped? { return false, listed, last, owned, done; }
      done := i + 1;
    }
    ok := true;
    if OneNameEach(before.regs) { ListedAs(ws, before, owned); }
  }

  /**
   * Archive and restore: if nothing fails, every owned checkout holds in the end a new tree overridden by all
   * it held at the start but the metadata, and is registered and owned as before.
   */
  method DetachThenReattachAll(ws: Workspace) returns (ok: bool, listed: bool)
    requires Listable(ws, ws.Now())
    modifies ws
    ensures listed && ws.faults == old(ws.faults) && ws.denials == old(ws.denials) && Ordinary(ws, old(ws.Now())) ==>
              ok && forall f, n | Owns(ws.kind, ws.repo, old(ws.Now()), f, n) ::
                Back(ws, Files(old(ws.dirs), f), ws.Now(), f, n)
  {
    ghost var start := ws.Now();
    ok, listed := DetachAll(ws);
    if !ok { return; }
    ghost var mid := ws.Now();
    ghost var owned, done;
    ghost var smooth := ws.faults == old(ws.faults) && ws.denials == old(ws.denials) && Ordinary(ws, start);
    if smooth { DetachedReady(ws, start, mid); }
    var last;
    ok, listed, last, owned, done := ReattachAll(ws);
    if smooth && ok && ws.faults == old(ws.faults) && ws.denials == old(ws.denials) {
      forall f, n | Owns(ws.kind, ws.repo, start, f, n)
        ensures Back(ws, Files(start.dirs, f), ws.Now(), f, n)
      {
        MetaIsNoMatter(ws, Files(start.dirs, f), Files(mid.dirs, f), ws.Now(), f, n);
      }
    }
  }

  /** An active task: its checkouts can be found again, their places do not meet, and none is of both kinds. */
  ghost predicate Ordinary(ws: Workspace, d: Disk) {
    && Rediscoverable(ws.kind, ws.repo, d) && Spaced(ws, d)
    && (ws.kind.Git? ==> forall f, n | Owns(Git, ws.repo, d, f, n) :: !JjLinked(d.dirs, f))
  }

  lemma DetachedReady(ws: Workspace, start: Disk, mid: Disk)
    requires Ordinary(ws, start) && OnlyUnlinked(start.dirs, mid.dirs) && (ws.kind.Jj? ==> mid.dirs == start.dirs)
    requires forall f, n :: Owns(ws.kind, ws.repo, start, f, n) <==> Owns(ws.kind, ws.repo, mid, f, n)
    requires forall f, n | Owns(ws.kind, ws.repo, start, f, n) :: Unlinked(ws.kind, mid, f, n)
    requires forall n | n in mid.regs :: n in start.regs && mid.regs[n] == start.regs[n]
    ensures Reattachable(ws, mid) && OneNameEach(mid.regs) && (ws.kind.Jj? ==> AllNamed(mid, ws.repo))
    ensures forall f, n | Owns(ws.kind, ws.repo, start, f, n) ::
              Files(mid.dirs, f) - {ws.Meta()} == Files(start.dirs, f) - {ws.Meta()}
  {
    forall f, n | Owns(ws.kind, ws.repo, start, f, n)
      ensures Files(mid.dirs, f) - {ws.Meta()} == Files(start.dirs, f) - {ws.Meta()}
      ensures Fresh(ws.kind, mid, f, n)
    {
      if f in mid.dirs { assert mid.dirs[f] == start.dirs[f] || mid.dirs[f] == start.dirs[f] - {".git"}; }
      if ws.kind.Jj? { OwnedIsLinked(ws.repo, start, f, n); }
      assert Owns(ws.kind, ws.repo, mid, f, n);
    }
    if ws.kind.Jj? {
      forall f | f in mid.dirs && Forgotten(mid, ws.repo, f)
        ensures NotedName(mid, f).Some?
      {
        if RootedAt(start.regs, f) {
          var m :| m in start.regs && start.regs[m] == Child(f);
          assert Owns(Jj, ws.repo, start, f, m);
        } else {
          assert Owns(Jj, ws.repo, start, f, NotedName(start, f).value);
        }
      }
    }
  }

  lemma MetaIsNoMatter(ws: Workspace, a: Entries, b: Entries, d: Disk, f: string, n: string)
    requires a - {ws.Meta()} == b - {ws.Meta()} && Back(ws, b, d, f, n)
    ensures Back(ws, a, d, f, n)
  {
    var made :| ws.Restored(b, d, f, n, made);
    assert ws.Restored(a, d, f, n, made);
  }
}
