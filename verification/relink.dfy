/** Unlinking and re-linking the checkouts in one task's workspace directory. */
module Relink {
  import opened Text
  import opened Sidecar
  import opened Checkouts

  datatype Kind = Git | Jj

  /**
   * `Linked`: the checkout needs no relink. `Skipped`: there is neither a name nor a link. `Stopped`: any
   * error but a refused backup or a failed add.
   */
  datatype Outcome = Linked | Skipped | Done | Refused | AddFailed | Stopped

  predicate GitLinked(dirs: Dirs, f: string) {
    var es := Files(dirs, f);
    ".git" in es && es[".git"].File?
  }

  predicate JjLinked(dirs: Dirs, f: string) {
    var es := Files(dirs, f);
    ".jj" in es && es[".jj"].Folder?
  }

  /** `split_whitespace().next()` of a line that begins with an absolute path. */
  function FirstWord(s: string): string {
    if s == "" || IsSpace(s[0]) then "" else [s[0]] + FirstWord(s[1..])
  }

  predicate SpaceFree(s: string) {
    s == "" || (!IsSpace(s[0]) && SpaceFree(s[1..]))
  }

  lemma {:induction false} FirstWordWhole(s: string)
    ensures SpaceFree(FirstWord(s)) && (FirstWord(s) == s <==> SpaceFree(s))
  {
    if s != "" {
      FirstWordWhole(s[1..]);
      HeadTail(s);
      if !IsSpace(s[0]) { Cons(s[0], FirstWord(s[1..])); }
    }
  }

  /** A word is the first one exactly if it has no white space and is followed by some or by nothing. */
  lemma {:induction false} FirstWordIs(s: string, w: string)
    ensures FirstWord(s) == w <==> SpaceFree(w) && w <= s && (|w| == |s| || IsSpace(s[|w|]))
  {
    if s == "" || IsSpace(s[0]) {
      assert w <= s && w != "" ==> w[0] == s[0];
    } else if w != "" {
      FirstWordIs(s[1..], w[1..]);
      HeadTail(s);
      HeadTail(w);
      Cons(s[0], FirstWord(s[1..]));
      Cons(w[0], w[1..]);
      assert w <= s <==> w[0] == s[0] && w[1..] <= s[1..];
    }
  }

  lemma {:induction false} SpaceInside(a: string, b: string)
    ensures !SpaceFree(a + [' '] + b)
  {
    Assoc(a, [' '], b);
    if a != "" {
      ConcatTail(a, [' '] + b);
      SpaceInside(a[1..], b);
      Assoc(a[1..], [' '], b);
    }
  }

  /** The name is registered for this folder, or for none that jj has recorded. */
  ghost predicate Usable(regs: map<string, Root>, f: string, name: string) {
    name in regs && (regs[name] == Child(f) || regs[name] == Unrecorded)
  }

  /** The folder is there and has a `.jj` folder. */
  ghost predicate JjFolder(dirs: Dirs, f: string) {
    f in dirs && ".jj" in dirs[f] && dirs[f][".jj"].Folder?
  }

  /** The folder is there and has a `.git` file; a repository of its own has a `.git` folder. */
  ghost predicate GitFile(dirs: Dirs, f: string) {
    f in dirs && ".git" in dirs[f] && dirs[f][".git"].File?
  }

  function NoteName(name: string): Option<string> {
    if Trim(name) == "" then None else Some(Trim(name))
  }

  /**
   * A workspace directory and the source repository's registrations. `history` holds the state after every
   * step, so every point where the process may die; `faults` counts the file operations and `denials`
   * the commands that failed, or did nothing, although they could have worked.
   */
  class Workspace {
    const kind: Kind
    const home: string
    /** What `.jj` of a checkout of the source repository holds. */
    const repo: string
    /** Whether this jj records the root of a workspace. */
    const recordsRoots: bool
    var dirs: Dirs
    var regs: map<string, Root>
    var notes: map<string, RestoreTarget>
    ghost var history: seq<Disk>
    ghost var faults: nat
    ghost var denials: nat

    constructor (kind: Kind, home: string, repo: string, recordsRoots: bool, start: Disk)
      ensures this.kind == kind && this.home == home && this.repo == repo && this.recordsRoots == recordsRoots
      ensures Now() == start && history == [start] && faults == 0 && denials == 0
    {
      this.kind, this.home, this.repo, this.recordsRoots := kind, home, repo, recordsRoots;
      dirs, regs, notes := start.dirs, start.regs, start.notes;
      history, faults, denials := [start], 0, 0;
    }

    function Now(): Disk
      reads this
    {
      Disk(dirs, regs, notes)
    }

    /** The metadata entry, which an overlay never copies. */
    function Meta(): string {
      if kind.Git? then ".git" else ".jj"
    }

    function Backup(name: string): string {
      if kind.Git? then GitBackup(name) else JjBackup(name)
    }

    predicate Noted(f: string, name: string)
      reads this
    {
      kind.Jj? ==> f in notes && notes[f].workspaceName == NoteName(name)
    }

    /** A working checkout of this source. */
    predicate IsLink(es: Entries) {
      Meta() in es && if kind.Git? then es[".git"].File? else es[".jj"] == Folder(repo)
    }

    function NewRoot(f: string): Root {
      if kind.Git? || recordsRoots then Child(f) else Unrecorded
    }

    function Location(r: Root): string {
      match r
      case Child(f) => home + "/" + f
      case Elsewhere(p) => p
      case Unrecorded => ""
    }

    /* ---- Single file operations and commands ---- */

    method CreateDir(f: string) returns (ok: bool)
      modifies this`dirs, this`history, this`faults
      ensures history == old(history) + [Now()]
      ensures dirs == if ok then Made(old(dirs), f) else old(dirs)
      ensures faults == old(faults) + if ok then 0 else 1
    {
      ok := *;
      if ok { dirs := Made(dirs, f); } else { faults := faults + 1; }
      history := history + [Now()];
    }

    /** `remove_dir`, which only takes an empty folder. */
    method RemoveDir(f: string) returns (ok: bool)
      modifies this`dirs, this`history, this`faults
      ensures history == old(history) + [Now()]
      ensures ok ==> Files(old(dirs), f) == map[]
      ensures dirs == if ok then old(dirs) - {f} else old(dirs)
      ensures faults == old(faults) + if !ok && f in old(dirs) && old(dirs)[f] == map[] then 1 else 0
    {
      var works: bool := *;
      var can := f in dirs && dirs[f] == map[];
      ok := works && can;
      if ok { dirs := dirs - {f}; } else if can { faults := faults + 1; }
      history := history + [Now()];
    }

    /** Moves an entry to a free name, or a file over a file. */
    method Rename(src: string, dest: string, n: string) returns (ok: bool)
      requires src in dirs && n in dirs[src]
      modifies this`dirs, this`history, this`faults
      ensures history == old(history) + [Now()]
      ensures dirs == if ok then Renamed(old(dirs), src, dest, n) else old(dirs)
      ensures ok ==> n !in Files(old(dirs), dest) || (old(dirs)[src][n].File? && Files(old(dirs), dest)[n].File?)
      ensures ok ==> faults == old(faults)
      ensures !ok && n !in Files(old(dirs), dest) ==> faults > old(faults)
    {
      var works: bool := *;
      var can := n !in Files(dirs, dest) || (dirs[src][n].File? && Files(dirs, dest)[n].File?);
      ok := works && can;
      if ok { dirs := Renamed(dirs, src, dest, n); } else if can { faults := faults + 1; }
      history := history + [Now()];
    }

    /** Removes a file or a whole tree; a tree may be left half removed. */
    method RemoveEntry(f: string, n: string) returns (ok: bool, ghost rest: Content)
      requires f in dirs && n in dirs[f]
      modifies this`dirs, this`history, this`faults
      ensures history == old(history) + [Now()]
      ensures dirs == if ok then Removed(old(dirs), f, n) else Damaged(old(dirs), f, n, rest)
      ensures faults == old(faults) + if ok then 0 else 1
    {
      ok := *;
      var left: Content := *;
      rest := left;
      if ok { dirs := Removed(dirs, f, n); } else { dirs := Damaged(dirs, f, n, left); faults := faults + 1; }
      history := history + [Now()];
    }

    /** `git worktree prune`: a registered folder survives exactly when it still has its `.git` file. */
    method Prune() returns (ok: bool)
      modifies this`regs, this`history, this`denials
      ensures history == old(history) + [Now()]
      ensures denials == old(denials) + if ok then 0 else 1
      ensures regs.Keys <= old(regs).Keys && forall n | n in regs :: regs[n] == old(regs)[n]
      ensures ok ==> forall n | n in old(regs) && old(regs)[n].Child? ::
                n in regs <==> GitLinked(dirs, old(regs)[n].folder)
      ensures !ok ==> regs == old(regs)
    {
      ok := *;
      if ok {
        var gone: set<string> := *;
        regs := map n | n in regs && if regs[n].Child? then GitLinked(dirs, regs[n].folder) else n !in gone
                  :: regs[n];
      } else {
        denials := denials + 1;
      }
      history := history + [Now()];
    }

    /**
     * `git worktree add` or `jj workspace add`: fills and registers an empty or missing folder under a free
     * name, or fails and leaves the folder and the registrations as they were.
     */
    method Add(f: string, name: string) returns (ok: bool, ghost made: Entries)
      modifies this`dirs, this`regs, this`history, this`denials
      ensures history == old(history) + [Now()]
      ensures ok ==> Files(old(dirs), f) == map[] && name !in old(regs)
      ensures !ok && Files(old(dirs), f) == map[] && name !in old(regs) ==> denials > old(denials)
      ensures denials >= old(denials)
      ensures dirs == if ok then old(dirs)[f := made] else old(dirs)
      ensures regs == if ok then old(regs)[name := NewRoot(f)] else old(regs)
      ensures IsLink(made)
    {
      var works: bool := *;
      ok := works && Files(dirs, f) == map[] && name !in regs;
      var tree: Entries := *;
      var link: string := *;
      tree := tree[Meta() := if kind.Git? then File(link) else Folder(repo)];
      made := tree;
      if ok { dirs, regs := dirs[f := tree], regs[name := NewRoot(f)]; } else { denials := denials + 1; }
      history := history + [Now()];
    }

    /** `jj edit` may replace the whole working copy, but not `.jj`. */
    method JjEdit(f: string) returns (ghost made: Entries)
      requires f in dirs && ".jj" in dirs[f]
      modifies this`dirs, this`history
      ensures history == old(history) + [Now()]
      ensures dirs == old(dirs)[f := made] && ".jj" in made && made[".jj"] == old(dirs)[f][".jj"]
    {
      var tree: Entries := *;
      var works: bool := *;
      tree := if works then tree[".jj" := dirs[f][".jj"]] else dirs[f];
      made := tree;
      dirs := dirs[f := tree];
      history := history + [Now()];
    }

    /** `jj workspace forget`: `ok` means only that the command ran. */
    method Forget(name: string) returns (ok: bool)
      modifies this`regs, this`history, this`denials
      ensures history == old(history) + [Now()]
      ensures regs == old(regs) || (ok && regs == old(regs) - {name})
      ensures denials >= old(denials) && (denials == old(denials) ==> ok && regs == old(regs) - {name})
    {
      ok := *;
      var gone: bool := *;
      if ok && gone { regs := regs - {name}; } else { denials := denials + 1; }
      history := history + [Now()];
    }

    /** `save_jj_restore_target_before_forget`; a failed write may leave no readable note. */
    method SaveNote(f: string, name: string) returns (ok: bool)
      modifies this`notes, this`history, this`faults
      ensures history == old(history) + [Now()]
      ensures notes - {f} == old(notes) - {f}
      ensures ok ==> f in notes && notes[f].workspaceName == NoteName(name)
      ensures faults == old(faults) + if ok then 0 else 1
    {
      ok := *;
      var edit: Option<string> := *;
      var commit: Option<string> := *;
      var torn: bool := *;
      if ok {
        notes := notes[f := RestoreTarget(edit, commit, NoteName(name))];
      } else {
        faults := faults + 1;
        if torn { notes := notes - {f}; }
      }
      history := history + [Now()];
    }

    /* ---- Loops over a folder ---- */

    method MoveOne(src: string, dest: string, n: string, ghost base: Dirs, ghost orig: Entries, ghost start: nat)
        returns (ok: bool)
      requires src != dest && Split(base, orig, dirs, src, dest) && src in dirs && dest in dirs && n in dirs[src]
      requires start <= |history| && Throughout(history, start, Spread(base, orig, src, dest))
      requires Fixed(history, start, regs)
      modifies this`dirs, this`history, this`faults
      ensures old(history) <= history && Throughout(history, start, Spread(base, orig, src, dest))
      ensures Fixed(history, start, regs)
      ensures Split(base, orig, dirs, src, dest) && src in dirs && dest in dirs
      ensures ok ==> dirs[src] == old(dirs)[src] - {n}
      ensures if ok then faults == old(faults) else faults > old(faults)
    {
      SplitRename(base, orig, dirs, src, dest, n);
      ok := Rename(src, dest, n);
      Step(old(history), start, Now(), Spread(base, orig, src, dest));
    }

    method MoveDirContents(src: string, dest: string, ghost base: Dirs, ghost orig: Entries) returns (ok: bool)
      requires src != dest && src in dirs && Split(base, orig, dirs, src, dest)
      modifies this`dirs, this`history, this`faults
      ensures Fixed(history, |old(history)|, regs)
      ensures old(history) <= history && Throughout(history, |old(history)|, Spread(base, orig, src, dest))
      ensures Split(base, orig, dirs, src, dest) && src in dirs
      ensures ok ==> dest in dirs && Files(dirs, src) == map[] && Files(dirs, dest) == orig
      ensures if ok then faults == old(faults) else faults > old(faults)
    {
      ghost var rule := Spread(base, orig, src, dest);
      SplitMake(base, orig, dirs, src, dest, dest);
      ok := CreateDir(dest);
      Step(old(history), |old(history)|, Now(), rule);
      if !ok { return; }
      var readable: bool := *;
      if !readable {
        faults := faults + 1;
        return false;
      }
      var names := dirs[src].Keys;
      while names != {}
        invariant src in dirs && dest in dirs && names == dirs[src].Keys
        invariant Split(base, orig, dirs, src, dest) && faults == old(faults) && ok
        invariant old(history) <= history && Throughout(history, |old(history)|, rule)
        invariant Fixed(history, |old(history)|, regs)
      {
        var n :| n in names;
        ok := MoveOne(src, dest, n, base, orig, |old(history)|);
        if !ok { return; }
        names := names - {n};
      }
      SplitWhole(base, orig, dirs, src, dest);
    }

    method RemoveDirAll(b: string) returns (ok: bool)
      requires b in dirs
      modifies this`dirs, this`history, this`faults
      ensures Fixed(history, |old(history)|, regs)
      ensures old(history) <= history && Throughout(history, |old(history)|, Shrinking(old(dirs), b))
      ensures Shrunk(old(dirs), dirs, b)
      ensures ok ==> dirs == old(dirs) - {b}
      ensures if ok then faults == old(faults) else faults > old(faults)
    {
      ghost var rule := Shrinking(old(dirs), b);
      ok := true;
      while dirs[b] != map[]
        invariant b in dirs && Shrunk(old(dirs), dirs, b) && faults == old(faults) && ok
        invariant old(history) <= history && Throughout(history, |old(history)|, rule)
        invariant Fixed(history, |old(history)|, regs)
        decreases |dirs[b]|
      {
        var n :| n in dirs[b];
        ghost var before, h := dirs, history;
        ghost var rest;
        ok, rest := RemoveEntry(b, n);
        ShrunkStep(old(dirs), before, b, n, rest);
        Step(h, |old(history)|, Now(), rule);
        if !ok { return; }
      }
      ghost var before, h := dirs, history;
      ok := RemoveDir(b);
      ShrunkDrop(old(dirs), before, b);
      Step(h, |old(history)|, Now(), rule);
    }

    method RemoveForOverlay(b: string, f: string, n: string, ghost base: Dirs, ghost orig: Entries, ghost start: nat)
        returns (ok: bool)
      requires f != b && Merging(base, orig, Meta(), dirs, f, b) && n in dirs[f] && n in Files(dirs, b) && n != Meta()
      requires start <= |history| && Throughout(history, start, Relinking(base, orig, Meta(), f, b))
      requires Fixed(history, start, regs)
      modifies this`dirs, this`history, this`faults
      ensures old(history) <= history && Throughout(history, start, Relinking(base, orig, Meta(), f, b))
      ensures Fixed(history, start, regs)
      ensures Merging(base, orig, Meta(), dirs, f, b) && Files(dirs, b) == Files(old(dirs), b)
      ensures b in dirs <==> b in old(dirs)
      ensures ok ==> dirs[f] == old(dirs)[f] - {n}
      ensures if ok then faults == old(faults) else faults > old(faults)
    {
      MergingRemove(base, orig, Meta(), dirs, f, b, n);
      ghost var rest;
      ok, rest := RemoveEntry(f, n);
      Step(old(history), start, Now(), Relinking(base, orig, Meta(), f, b));
    }

    method RenameForOverlay(b: string, f: string, n: string, ghost base: Dirs, ghost orig: Entries, ghost start: nat)
        returns (ok: bool)
      requires f != b && Merging(base, orig, Meta(), dirs, f, b) && b in dirs && n in dirs[b] && n != Meta()
      requires n !in dirs[f]
      requires start <= |history| && Throughout(history, start, Relinking(base, orig, Meta(), f, b))
      requires Fixed(history, start, regs)
      modifies this`dirs, this`history, this`faults
      ensures old(history) <= history && Throughout(history, start, Relinking(base, orig, Meta(), f, b))
      ensures Fixed(history, start, regs)
      ensures Merging(base, orig, Meta(), dirs, f, b) && b in dirs
      ensures ok ==> dirs[b] == old(dirs)[b] - {n} && dirs[f] == old(dirs)[f][n := old(dirs)[b][n]]
      ensures if ok then faults == old(faults) else faults > old(faults)
    {
      MergingRename(base, orig, Meta(), dirs, f, b, n);
      ok := Rename(b, f, n);
      Step(old(history), start, Now(), Relinking(base, orig, Meta(), f, b));
    }

    method OverlayOne(b: string, f: string, n: string, ghost base: Dirs, ghost orig: Entries,
                      ghost made: Entries, ghost start: nat) returns (ok: bool)
      requires f != b && b in dirs && Merging(base, orig, Meta(), dirs, f, b)
      requires n in dirs[b] && n != Meta()
      requires dirs[f] == Overlaid(made, orig, dirs[b].Keys + {Meta()})
      requires start <= |history| && Throughout(history, start, Relinking(base, orig, Meta(), f, b))
      requires Fixed(history, start, regs)
      modifies this`dirs, this`history, this`faults
      ensures old(history) <= history && Throughout(history, start, Relinking(base, orig, Meta(), f, b))
      ensures Fixed(history, start, regs)
      ensures Merging(base, orig, Meta(), dirs, f, b) && b in dirs
      ensures ok ==> dirs[b] == old(dirs)[b] - {n}
      ensures ok ==> dirs[f] == Overlaid(made, orig, dirs[b].Keys + {Meta()})
      ensures if ok then faults == old(faults) else faults > old(faults)
    {
      OverlaidStep(made, orig, dirs[b].Keys, n, Meta());
      if n in dirs[f] {
        ok := RemoveForOverlay(b, f, n, base, orig, start);
        if !ok { return; }
      }
      ok := RenameForOverlay(b, f, n, base, orig, start);
    }

    /** `overlay_backup_onto_checkout`. */
    method Overlay(b: string, f: string, ghost base: Dirs, ghost orig: Entries) returns (ok: bool)
      requires f != b && b in dirs && dirs[b] == orig && Merging(base, orig, Meta(), dirs, f, b)
      modifies this`dirs, this`history, this`faults
      ensures Fixed(history, |old(history)|, regs)
      ensures old(history) <= history
      ensures Throughout(history, |old(history)|, Relinking(base, orig, Meta(), f, b))
      ensures Merging(base, orig, Meta(), dirs, f, b) && b in dirs
      ensures ok ==> dirs[b].Keys <= {Meta()} && dirs[f] == Overlaid(old(dirs)[f], orig, {Meta()})
      ensures if ok then faults == old(faults) else faults > old(faults)
    {
      var readable: bool := *;
      if !readable {
        faults := faults + 1;
        return false;
      }
      ghost var rule := Relinking(base, orig, Meta(), f, b);
      ok := true;
      var names := dirs[b].Keys;
      OverlaidStart(dirs[f], orig, Meta());
      while names != {}
        invariant b in dirs && names <= dirs[b].Keys <= names + {Meta()} && faults == old(faults) && ok
        invariant Merging(base, orig, Meta(), dirs, f, b)
        invariant dirs[f] == Overlaid(old(dirs)[f], orig, dirs[b].Keys + {Meta()})
        invariant old(history) <= history && Throughout(history, |old(history)|, rule)
        invariant Fixed(history, |old(history)|, regs)
      {
        var n :| n in names;
        names := names - {n};
        if n != Meta() {
          ok := OverlayOne(b, f, n, base, orig, old(dirs)[f], |old(history)|);
          if !ok { return; }
        }
      }
      assert dirs[b].Keys + {Meta()} == {Meta()};
    }

    /** `restore_relink_backup`, after a failed add left the checkout empty. */
    method RestoreBackup(f: string, b: string, ghost base: Dirs, ghost orig: Entries)
      requires f != b && Split(base, orig, dirs, f, b) && Files(dirs, f) == map[]
      modifies this`dirs, this`history, this`faults
      ensures Fixed(history, |old(history)|, regs)
      ensures old(history) <= history && Throughout(history, |old(history)|, Spread(base, orig, f, b))
      ensures Split(base, orig, dirs, f, b) && faults >= old(faults)
      ensures faults == old(faults) ==> Files(dirs, f) == orig && b !in dirs
    {
      if b !in dirs {
        SplitWhole(base, orig, dirs, f, b);
        return;
      }
      ghost var h0, rule := history, Spread(base, orig, f, b);
      SplitMake(base, orig, dirs, f, b, f);
      var ok := CreateDir(f);
      Step(h0, |h0|, Now(), rule);
      if !ok { return; }
      ghost var h1 := history;
      SplitSymmetric(base, orig, dirs, f, b);
      ok := MoveDirContents(b, f, base, orig);
      SpreadFlips(history, |h1|, base, orig, b, f);
      SplitSymmetric(base, orig, dirs, b, f);
      Chained(h0, h1, history, rule);
      if !ok { return; }
      ghost var d, h2 := dirs, history;
      ok := RemoveDirAll(b);
      SplitShrunk(base, orig, d, dirs, f, b);
      ShrinkingSpreads(history, |h2|, base, orig, d, f, b);
      Chained(h0, h2, history, rule);
    }

    method MoveAndDrop(f: string, b: string, ghost base: Dirs, ghost orig: Entries) returns (ok: bool)
      requires f != b && b in dirs && Split(base, orig, dirs, b, f)
      modifies this`dirs, this`history, this`faults
      ensures Fixed(history, |old(history)|, regs)
      ensures old(history) <= history && Throughout(history, |old(history)|, Spread(base, orig, b, f))
      ensures Split(base, orig, dirs, b, f) && faults >= old(faults)
      ensures ok ==> f in dirs && Files(dirs, f) == orig && Files(dirs, b) == map[]
      ensures faults == old(faults) ==> ok && b !in dirs
    {
      ghost var h0, rule := history, Spread(base, orig, b, f);
      SplitMake(base, orig, dirs, b, f, f);
      ok := CreateDir(f);
      Step(h0, |h0|, Now(), rule);
      if !ok { return; }
      ghost var h1 := history;
      ok := MoveDirContents(b, f, base, orig);
      Chained(h0, h1, history, rule);
      if !ok { return; }
      ghost var d, h2 := dirs, history;
      SplitSymmetric(base, orig, dirs, b, f);
      var _ := RemoveDirAll(b);
      SplitShrunk(base, orig, d, dirs, f, b);
      SplitSymmetric(base, orig, dirs, f, b);
      ShrinkingSpreads(history, |h2|, base, orig, d, f, b);
      SpreadFlips(history, |h2|, base, orig, f, b);
      Chained(h0, h2, history, rule);
    }

    method MoveBack(f: string, b: string, ghost name: string) returns (ok: bool)
      requires Apart(f, name) && (b == JjBackup(name) || b == GitBackup(name))
      requires b in dirs && dirs[b] != map[] && Files(dirs, f) == map[]
      modifies this`dirs, this`history, this`faults
      ensures Fixed(history, |old(history)|, regs)
      ensures old(history) <= history
      ensures Throughout(history, |old(history)|, Keeping(old(dirs), Places(f, name), Meta()))
      ensures Conserved(old(dirs), dirs, Places(f, name), Meta()) && faults >= old(faults)
      ensures ok ==> SameFiles(dirs, RecoveredOne(old(dirs), f, b))
      ensures faults == old(faults) ==> ok && dirs == RecoveredOne(old(dirs), f, b)
    {
      ghost var base, orig, h0 := dirs, dirs[b], history;
      ghost var rule := Spread(base, orig, b, f);
      SplitStart(base, b, f);
      ok := MoveAndDrop(f, b, base, orig);
      RecoveryKeeps(history, |h0|, base, Meta(), f, b, name);
      RecoveryConserves(base, Meta(), dirs, f, b, name);
      if ok { MovedBack(base, dirs, f, b); }
    }

    /** One round of `recover_relink_backups`. */
    method RecoverOne(f: string, b: string, ghost name: string) returns (ok: bool)
      requires Apart(f, name) && (b == JjBackup(name) || b == GitBackup(name))
      modifies this`dirs, this`history, this`faults
      ensures Fixed(history, |old(history)|, regs)
      ensures old(history) <= history
      ensures Throughout(history, |old(history)|, Keeping(old(dirs), Places(f, name), Meta()))
      ensures Conserved(old(dirs), dirs, Places(f, name), Meta()) && faults >= old(faults)
      ensures ok ==> SameFiles(dirs, RecoveredOne(old(dirs), f, b))
      ensures faults == old(faults) ==> ok && dirs == RecoveredOne(old(dirs), f, b)
      ensures b !in old(dirs) ==> ok && dirs == old(dirs) && history == old(history) && faults == old(faults)
      ensures Files(old(dirs), f) != map[] ==> ok
    {
      ok := true;
      if b !in dirs {
        return;
      }
      ghost var base, h0 := dirs, history;
      if dirs[b] == map[] {
        var _ := RemoveDirAll(b);
        DroppedEmpty(base, dirs, history, |h0|, f, b, name, Meta());
      } else if Files(dirs, f) == map[] {
        ok := MoveBack(f, b, name);
      }
    }

    /** `recover_relink_backups`. */
    method Recover(f: string, name: string) returns (ok: bool)
      requires Apart(f, name)
      modifies this`dirs, this`history, this`faults
      ensures Fixed(history, |old(history)|, regs)
      ensures old(history) <= history
      ensures Throughout(history, |old(history)|, Keeping(old(dirs), Places(f, name), Meta()))
      ensures Conserved(old(dirs), dirs, Places(f, name), Meta()) && faults >= old(faults)
      ensures ok ==> SameFiles(dirs, Recovered(old(dirs), f, name)) && Settled(dirs, f, name)
      ensures faults == old(faults) ==> ok && dirs == Recovered(old(dirs), f, name)
      ensures NoLeftover(old(dirs), name) ==> ok && dirs == old(dirs) && history == old(history)
      ensures Files(old(dirs), f) != map[] ==> ok && SameFiles(dirs, old(dirs))
    {
      ghost var base, h0 := dirs, history;
      ok := RecoverOne(f, JjBackup(name), name);
      if !ok { return; }
      ghost var mid, h1 := dirs, history;
      ok := RecoverOne(f, GitBackup(name), name);
      KeepingFrom(history, |h1|, base, mid, Places(f, name), Meta());
      Chained(h0, h1, history, Keeping(base, Places(f, name), Meta()));
      ConservedTransitive(base, mid, dirs, Places(f, name), Meta());
      if ok {
        RecoveredOneSame(mid, RecoveredOne(base, f, JjBackup(name)), f, GitBackup(name));
        SettledBySame(base, dirs, f, name);
        if Files(base, f) != map[] { RecoveredKeeps(base, f, name); }
      }
    }

    /**
     * `prepare_relink_backup`: refuses exactly when both sides hold files. Otherwise only the backup is
     * touched, and emptied: a backup that holds files goes only beside a checkout that holds none.
     */
    method Prepare(f: string, b: string) returns (o: Outcome)
      requires f != b
      modifies this`dirs, this`history, this`faults
      ensures Fixed(history, |old(history)|, regs)
      ensures old(history) <= history
      ensures o.Refused? <==> Files(old(dirs), b) != map[] && Files(old(dirs), f) != map[]
      ensures o.Refused? ==> history == old(history) && dirs == old(dirs) && faults == old(faults)
      ensures Throughout(history, |old(history)|, Shrinking(old(dirs), b)) && Shrunk(old(dirs), dirs, b)
      ensures o.Done? ==> b in dirs && dirs[b] == map[] && faults == old(faults)
      ensures o.Done? || o.Refused? || (o.Stopped? && faults > old(faults))
    {
      if b in dirs && dirs[b] != map[] && Files(dirs, f) != map[] {
        return Refused;
      }
      if b in dirs {
        var ok := RemoveDirAll(b);
        if !ok { return Stopped; }
      }
      ghost var h := history;
      ShrunkMake(old(dirs), dirs, b);
      var ok := CreateDir(b);
      Step(h, |old(history)|, Now(), Shrinking(old(dirs), b));
      o := if ok then Done else Stopped;
    }

    /** The tree moves into the backup; git also wants the folder itself gone. */
    method MoveAside(f: string, b: string, ghost base: Dirs, ghost orig: Entries) returns (ok: bool)
      requires f != b && Split(base, orig, dirs, f, b) && Files(dirs, b) == map[] && b in dirs
      modifies this`dirs, this`history, this`faults
      ensures Fixed(history, |old(history)|, regs)
      ensures old(history) <= history && Throughout(history, |old(history)|, Spread(base, orig, f, b))
      ensures Split(base, orig, dirs, f, b)
      ensures ok ==> Files(dirs, f) == map[] && Files(dirs, b) == orig && b in dirs && (kind.Git? ==> f !in dirs)
      ensures kind.Jj? && ok ==> (f in dirs <==> f in old(dirs))
      ensures if ok then faults == old(faults) else faults > old(faults)
    {
      if f !in dirs {
        SplitWhole(base, orig, dirs, f, b);
        return true;
      }
      ok := MoveDirContents(f, b, base, orig);
      if ok && kind.Git? {
        ghost var h := history;
        SplitDrop(base, orig, dirs, f, b, f);
        ok := RemoveDir(f);
        Step(h, |old(history)|, Now(), Spread(base, orig, f, b));
      }
    }

    /** Before the overlay: jj may edit the new tree. */
    method EditTree(f: string, name: string, ghost base: Dirs, ghost orig: Entries, ghost tree: Entries)
        returns (ghost made: Entries)
      requires Apart(f, name) && f in dirs && dirs[f] == tree && Meta() in tree
      requires Framed(base, dirs, f, Backup(name)) && Backup(name) in dirs && dirs[Backup(name)] == orig
      modifies this`dirs, this`history
      ensures Fixed(history, |old(history)|, regs)
      ensures old(history) <= history
      ensures Throughout(history, |old(history)|, Relinking(base, orig, Meta(), f, Backup(name)))
      ensures Merging(base, orig, Meta(), dirs, f, Backup(name)) && dirs[f] == made
      ensures Backup(name) in dirs && dirs[Backup(name)] == orig
      ensures Meta() in made && made[Meta()] == tree[Meta()]
    {
      made := tree;
      if kind.Jj? {
        ghost var before := dirs;
        made := JjEdit(f);
        Filled(base, before, dirs, f, Backup(name), made);
      }
      MergingStart(base, orig, Meta(), dirs, f, Backup(name));
      Step(old(history), |old(history)|, Now(), Relinking(base, orig, Meta(), f, Backup(name)));
    }

    /** After the overlay: the backup, which holds at most metadata, goes if it can. */
    method DropBackup(f: string, name: string, ghost base: Dirs, ghost orig: Entries)
      requires Apart(f, name) && Merging(base, orig, Meta(), dirs, f, Backup(name))
      requires Backup(name) in dirs && dirs[Backup(name)].Keys <= {Meta()}
      modifies this`dirs, this`history, this`faults
      ensures Fixed(history, |old(history)|, regs)
      ensures old(history) <= history
      ensures Throughout(history, |old(history)|, Relinking(base, orig, Meta(), f, Backup(name)))
      ensures Merging(base, orig, Meta(), dirs, f, Backup(name)) && dirs[f] == old(dirs)[f]
      ensures Files(dirs, Backup(name)).Keys <= {Meta()} && faults >= old(faults)
      ensures faults == old(faults) ==> Backup(name) !in dirs
    {
      ghost var d := dirs;
      var _ := RemoveDirAll(Backup(name));
      Beside(d, dirs, f, Backup(name));
      MergingDiscard(base, orig, Meta(), d, dirs, f, Backup(name));
      ShrinkingRelinks(history, |old(history)|, base, orig, Meta(), d, f, Backup(name));
    }

    /** After a successful add: the old entries go over the new tree and the backup goes. */
    method Refill(f: string, name: string, ghost base: Dirs, ghost orig: Entries, ghost tree: Entries)
        returns (ok: bool, ghost made: Entries)
      requires Apart(f, name) && f in dirs && dirs[f] == tree && Meta() in tree
      requires Framed(base, dirs, f, Backup(name)) && Backup(name) in dirs && dirs[Backup(name)] == orig
      modifies this`dirs, this`history, this`faults
      ensures Fixed(history, |old(history)|, regs)
      ensures old(history) <= history
      ensures Throughout(history, |old(history)|, Relinking(base, orig, Meta(), f, Backup(name)))
      ensures RelinkState(base, orig, Meta(), dirs, f, Backup(name)) && faults >= old(faults)
      ensures Meta() in made && made[Meta()] == tree[Meta()]
      ensures ok ==> f in dirs && dirs[f] == Overlaid(made, orig, {Meta()})
      ensures ok ==> Files(dirs, Backup(name)).Keys <= {Meta()}
      ensures ok && faults == old(faults) ==> Backup(name) !in dirs
      ensures !ok ==> faults > old(faults)
    {
      ghost var b, h0 := Backup(name), history;
      ghost var rule := Relinking(base, orig, Meta(), f, b);
      made := EditTree(f, name, base, orig, tree);
      ghost var h1 := history;
      ok := Overlay(Backup(name), f, base, orig);
      Chained(h0, h1, history, rule);
      if !ok { return; }
      ghost var h2 := history;
      DropBackup(f, name, base, orig);
      Chained(h0, h2, history, rule);
    }

    /** The add alone, as a step of a relink. */
    method Register(f: string, name: string, ghost base: Dirs, ghost orig: Entries)
        returns (ok: bool, ghost made: Entries)
      requires Apart(f, name) && Split(base, orig, dirs, f, Backup(name)) && Files(dirs, f) == map[]
      modifies this`dirs, this`regs, this`history, this`denials
      ensures old(history) <= history && denials >= old(denials)
      ensures Throughout(history, |old(history)|, Relinking(base, orig, Meta(), f, Backup(name)))
      ensures RelinkState(base, orig, Meta(), dirs, f, Backup(name))
      ensures Fixed(history, |old(history)|, regs) && |history| > |old(history)|
      ensures !ok && name !in old(regs) ==> denials > old(denials)
      ensures ok ==> f in dirs && dirs[f] == made && IsLink(made)
      ensures ok ==> Framed(base, dirs, f, Backup(name)) && Files(dirs, Backup(name)) == orig
      ensures Backup(name) in old(dirs) ==> Backup(name) in dirs
      ensures !ok ==> dirs == old(dirs)
      ensures regs == if ok then old(regs)[name := NewRoot(f)] else old(regs)
    {
      ghost var before := dirs;
      ok, made := Add(f, name);
      if ok {
        SplitWhole(base, orig, before, f, Backup(name));
        Filled(base, before, dirs, f, Backup(name), made);
        MergingStart(base, orig, Meta(), dirs, f, Backup(name));
      }
      Step(old(history), |old(history)|, Now(), Relinking(base, orig, Meta(), f, Backup(name)));
    }

    /** The put-back as a step of a relink. */
    method PutBack(f: string, name: string, ghost base: Dirs, ghost orig: Entries)
      requires Apart(f, name) && Split(base, orig, dirs, f, Backup(name)) && Files(dirs, f) == map[]
      modifies this`dirs, this`history, this`faults
      ensures Fixed(history, |old(history)|, regs)
      ensures old(history) <= history
      ensures Throughout(history, |old(history)|, Relinking(base, orig, Meta(), f, Backup(name)))
      ensures RelinkState(base, orig, Meta(), dirs, f, Backup(name)) && faults >= old(faults)
      ensures faults == old(faults) ==> Files(dirs, f) == orig && Backup(name) !in dirs
    {
      RestoreBackup(f, Backup(name), base, orig);
      SpreadRelinks(history, |old(history)|, base, orig, Meta(), f, Backup(name));
    }

    /** `Refill`, and for jj a new note. */
    method RefillAndNote(f: string, name: string, ghost base: Dirs, ghost orig: Entries, ghost tree: Entries)
        returns (o: Outcome, ghost made: Entries)
      requires Apart(f, name) && f in dirs && dirs[f] == tree && IsLink(tree)
      requires Framed(base, dirs, f, Backup(name)) && Backup(name) in dirs && dirs[Backup(name)] == orig
      modifies this`dirs, this`notes, this`history, this`faults
      ensures Fixed(history, |old(history)|, regs)
      ensures old(history) <= history
      ensures Throughout(history, |old(history)|, Relinking(base, orig, Meta(), f, Backup(name)))
      ensures RelinkState(base, orig, Meta(), dirs, f, Backup(name)) && faults >= old(faults)
      ensures o.Done? ==> f in dirs && dirs[f] == Overlaid(made, orig, {Meta()}) && IsLink(made)
      ensures o.Done? ==> Files(dirs, Backup(name)).Keys <= {Meta()}
      ensures o.Done? && faults == old(faults) ==> Backup(name) !in dirs && Noted(f, name)
      ensures notes - {f} == old(notes) - {f} && (kind.Git? ==> notes == old(notes))
      ensures o.Done? || (o.Stopped? && faults > old(faults))
    {
      var ok;
      ok, made := Refill(f, name, base, orig, tree);
      if !ok { return Stopped, made; }
      if kind.Jj? {
        ghost var h := history;
        var _ := SaveNote(f, name);
        Step(h, |old(history)|, Now(), Relinking(base, orig, Meta(), f, Backup(name)));
      }
      o := Done;
    }

    /** A relink once the tree is aside: add, then refill the checkout or put everything back. */
    method Recreate(f: string, name: string, ghost base: Dirs, ghost orig: Entries)
        returns (o: Outcome, ghost made: Entries)
      requires Apart(f, name) && Split(base, orig, dirs, f, Backup(name)) && Files(dirs, f) == map[]
      requires Backup(name) in dirs
      modifies this
      ensures old(history) <= history && faults >= old(faults) && denials >= old(denials)
      ensures Throughout(history, |old(history)|, Relinking(base, orig, Meta(), f, Backup(name)))
      ensures RelinkState(base, orig, Meta(), dirs, f, Backup(name))
      ensures Fixed(history, |old(history)|, regs) && |history| > |old(history)|
      ensures o.Stopped? ==> faults > old(faults)
      ensures o.AddFailed? ==> denials > old(denials) || name in regs
      ensures o.Done? ==> f in dirs && dirs[f] == Overlaid(made, orig, {Meta()}) && IsLink(made)
      ensures o.Done? ==> Files(dirs, Backup(name)).Keys <= {Meta()}
      ensures o.Done? && faults == old(faults) ==> Backup(name) !in dirs && Noted(f, name)
      ensures o.AddFailed? && faults == old(faults) ==> Files(dirs, f) == orig && Backup(name) !in dirs
      ensures notes - {f} == old(notes) - {f} && (kind.Git? ==> notes == old(notes))
      ensures regs == if o.AddFailed? then old(regs) else old(regs)[name := NewRoot(f)]
      ensures o.Done? || o.AddFailed? || o.Stopped?
    {
      ghost var h0, rule := history, Relinking(base, orig, Meta(), f, Backup(name));
      var ok;
      ok, made := Register(f, name, base, orig);
      ghost var h1 := history;
      if !ok {
        PutBack(f, name, base, orig);
        Chained(h0, h1, history, rule);
        return AddFailed, made;
      }
      o, made := RefillAndNote(f, name, base, orig, made);
      Chained(h0, h1, history, rule);
    }

    /** `prepare_relink_backup`, then the whole tree into the backup. */
    method SetAside(f: string, name: string) returns (o: Outcome, ok: bool)
      requires Apart(f, name) && (Files(dirs, f) == map[] ==> Files(dirs, Backup(name)) == map[])
      modifies this`dirs, this`history, this`faults
      ensures Fixed(history, |old(history)|, regs)
      ensures old(history) <= history && faults >= old(faults)
      ensures o.Refused? <==> Files(old(dirs), Backup(name)) != map[]
      ensures o.Refused? ==> history == old(history) && dirs == old(dirs) && faults == old(faults)
      ensures !o.Refused? ==>
                Throughout(history, |old(history)|, Relinking(old(dirs), Files(old(dirs), f), Meta(), f, Backup(name)))
      ensures !o.Refused? ==> Split(old(dirs), Files(old(dirs), f), dirs, f, Backup(name))
      ensures ok ==> Files(dirs, f) == map[] && Backup(name) in dirs && (kind.Git? ==> f !in dirs)
      ensures if ok then o.Done? && faults == old(faults) else o.Refused? || (o.Stopped? && faults > old(faults))
    {
      ghost var base, orig, h0 := dirs, Files(dirs, f), history;
      o := Prepare(f, Backup(name));
      ok := false;
      if !o.Refused? {
        SplitStart(base, f, Backup(name));
        SplitShrunk(base, orig, base, dirs, f, Backup(name));
        ShrinkingSpreads(history, |h0|, base, orig, base, f, Backup(name));
      }
      if o.Done? {
        ghost var h1 := history;
        ok := MoveAside(f, Backup(name), base, orig);
        Chained(h0, h1, history, Spread(base, orig, f, Backup(name)));
        o := if ok then Done else Stopped;
      }
      if !o.Refused? { SpreadRelinks(history, |h0|, base, orig, Meta(), f, Backup(name)); }
    }

    /** The prune as a step of a git relink. */
    method ClearStale(f: string, name: string, ghost base: Dirs, ghost orig: Entries) returns (ok: bool)
      requires Apart(f, name) && Split(base, orig, dirs, f, Backup(name)) && f !in dirs
      modifies this`regs, this`history, this`denials
      ensures history == old(history) + [Now()] && denials == old(denials) + if ok then 0 else 1
      ensures Throughout(history, |old(history)|, Relinking(base, orig, Meta(), f, Backup(name)))
      ensures forall n | n in regs :: n in old(regs) && regs[n] == old(regs)[n]
      ensures !ok ==> regs == old(regs)
      ensures ok ==> Pruned(old(regs), base, regs, f, Backup(name), name)
      ensures ok ==> forall n | n in regs :: regs[n] != Child(f)
    {
      ok := Prune();
      Step(old(history), |old(history)|, Now(), Relinking(base, orig, Meta(), f, Backup(name)));
      WiderFrame(base, dirs, f, Backup(name), {f, Backup(name)});
    }

    /** An error has a cause: something failed, or the name was registered for another place. */
    twostate predicate Blamed(regs0: map<string, Root>, f: string, name: string, o: Outcome)
      reads this
    {
      && denials >= old(denials)
      && (faults == old(faults) && denials == old(denials) ==>
            && !o.Stopped?
            && (o.AddFailed? ==> name in regs0 && (kind.Git? ==> regs0[name] != Child(f))))
    }

    /** A git relink that is refused, or stopped before the prune. */
    lemma NeverLost(h: seq<Disk>, start: nat, regs0: map<string, Root>, f: string, name: string, o: Outcome)
      requires start <= |h| && Fixed(h, start, regs0) && !o.Done? && !o.AddFailed?
      ensures InPhases(h, start, regs0, f, name, o)
    {
      assert Phased(h, start, regs0, f, name, |h|, |h|);
    }

    lemma LostThenFound(h0: seq<Disk>, h1: seq<Disk>, h: seq<Disk>, regs0: map<string, Root>,
                        regs1: map<string, Root>, regs2: map<string, Root>, f: string, name: string, o: Outcome)
      requires h0 <= h1 <= h && |h0| < |h1| < |h| && !o.Refused?
      requires Fixed(h1, |h0|, regs1) && !RootedAt(regs1, f) && Fixed(h, |h1|, regs2)
      requires regs2 == if o.AddFailed? then regs1 else regs1[name := Child(f)]
      ensures InPhases(h, |h0|, regs0, f, name, o)
    {
      var found := if o.AddFailed? then |h| else |h1|;
      forall i | |h0| <= i < |h|
        ensures h[i].regs == if i < |h1| then regs1 else regs2
      {
        if i < |h1| { assert h[i] == h1[i]; }
      }
      assert Phased(h, |h0|, regs0, f, name, |h0|, found);
    }

    lemma PhasesFrom(h0: seq<Disk>, h1: seq<Disk>, h: seq<Disk>, regs0: map<string, Root>,
                     f: string, name: string, o: Outcome)
      requires h0 <= h1 <= h && Fixed(h1, |h0|, regs0) && InPhases(h, |h1|, regs0, f, name, o)
      ensures InPhases(h, |h0|, regs0, f, name, o)
    {
      var lost: nat, found: nat :| Phased(h, |h1|, regs0, f, name, lost, found) && Ends(o, lost, found, |h|);
      forall i | |h0| <= i < lost
        ensures h[i].regs == regs0
      {
        if i < |h1| { assert h[i] == h1[i]; }
      }
      assert Phased(h, |h0|, regs0, f, name, lost, found);
    }

    /** A relink once the tree is aside. */
    method PruneAndRecreate(f: string, name: string, ghost base: Dirs) returns (o: Outcome, ghost made: Entries)
      requires Apart(f, name) && Split(base, Files(base, f), dirs, f, Backup(name)) && Files(dirs, f) == map[]
      requires Files(base, Backup(name)) == map[] && Backup(name) in dirs && (kind.Git? ==> f !in dirs)
      modifies this
      ensures old(history) <= history && faults >= old(faults) && Blamed(old(regs), f, name, o)
      ensures Throughout(history, |old(history)|, Relinking(base, Files(base, f), Meta(), f, Backup(name)))
      ensures RelinkState(base, Files(base, f), Meta(), dirs, f, Backup(name))
      ensures Relinked(base, old(regs), old(notes), Now(), f, name, o, made)
      ensures o.Done? && faults == old(faults) ==> Backup(name) !in dirs && Noted(f, name)
      ensures o.AddFailed? && faults == old(faults) ==> Files(dirs, f) == Files(base, f) && Backup(name) !in dirs
      ensures o.Done? || o.AddFailed? || o.Stopped?
      ensures kind.Git? ==> InPhases(history, |old(history)|, old(regs), f, name, o)
    {
      ghost var orig, h0, regs0 := Files(base, f), history, regs;
      if kind.Git? {
        var ok := ClearStale(f, name, base, orig);
        if !ok {
          NeverLost(history, |h0|, regs0, f, name, Stopped);
          return Stopped, map[];
        }
      }
      ghost var h1, regs1 := history, regs;
      o, made := Recreate(f, name, base, orig);
      Chained(h0, h1, history, Relinking(base, orig, Meta(), f, Backup(name)));
      if kind.Git? { LostThenFound(h0, h1, history, regs0, regs1, regs, f, name, o); }
    }

    /** A relink from `prepare_relink_backup` on. */
    method Rebuild(f: string, name: string) returns (o: Outcome, ghost made: Entries)
      requires Apart(f, name) && (Files(dirs, f) == map[] ==> Files(dirs, Backup(name)) == map[])
      modifies this
      ensures old(history) <= history && faults >= old(faults) && Blamed(old(regs), f, name, o)
      ensures o.Refused? <==> Files(old(dirs), Backup(name)) != map[]
      ensures o.Refused? ==> history == old(history) && Now() == old(Now())
      ensures !o.Refused? ==>
                Throughout(history, |old(history)|, Relinking(old(dirs), Files(old(dirs), f), Meta(), f, Backup(name)))
      ensures !o.Refused? ==> RelinkState(old(dirs), Files(old(dirs), f), Meta(), dirs, f, Backup(name))
      ensures Relinked(old(dirs), old(regs), old(notes), Now(), f, name, o, made)
      ensures o.Done? && faults == old(faults) ==> Backup(name) !in dirs && Noted(f, name)
      ensures o.AddFailed? && faults == old(faults) ==>
                Files(dirs, f) == Files(old(dirs), f) && Backup(name) !in dirs
      ensures !o.Linked? && !o.Skipped?
      ensures kind.Git? ==> InPhases(history, |old(history)|, old(regs), f, name, o)
    {
      ghost var base, h0, regs0 := dirs, history, regs;
      ghost var orig := Files(dirs, f);
      var ok;
      made := map[];
      o, ok := SetAside(f, name);
      if !ok {
        NeverLost(history, |h0|, regs0, f, name, o);
        return;
      }
      ghost var h1 := history;
      o, made := PruneAndRecreate(f, name, base);
      Chained(h0, h1, history, Relinking(base, orig, Meta(), f, Backup(name)));
      if kind.Git? { PhasesFrom(h0, h1, history, regs0, f, name, o); }
    }

    /**
     * At every step, wherever the process dies, nothing but metadata is lost among the places. A run that
     * starts without backups there only passes through states of one relink.
     */
    twostate predicate Safe(f: string, name: string, places: set<string>)
      reads this
    {
      && old(history) <= history && old(faults) <= faults
      && Throughout(history, |old(history)|, Keeping(old(dirs), places, Meta()))
      && Conserved(old(dirs), dirs, places, Meta())
      && (Unused(old(dirs), f, places) ==>
            Throughout(history, |old(history)|, Relinking(old(dirs), Files(old(dirs), f), Meta(), f, Backup(name))))
    }

    /**
     * If no file operation failed, no backup is left, and the whole old tree is back after a failed add.
     * `ready` are the folders after recovery.
     */
    twostate predicate Tidy(ready: Dirs, f: string, name: string, o: Outcome)
      reads this
    {
      faults == old(faults) ==>
        && (o.Done? || o.AddFailed? ==> Backup(name) !in dirs)
        && (o.Done? ==> Noted(f, name))
        && (o.AddFailed? ==> Files(dirs, f) == Files(ready, f))
    }

    /** `relink_detached_git_worktree` and `relink_forgotten_jj_workspace`. */
    method Relink(f: string, name: string) returns (o: Outcome, ghost made: Entries)
      requires Apart(f, name)
      modifies this
      ensures Safe(f, name, Places(f, name)) && Blamed(old(regs), f, name, o)
      ensures Relinked(Recovered(old(dirs), f, name), old(regs), old(notes), Now(), f, name, o, made)
      ensures Tidy(Recovered(old(dirs), f, name), f, name, o)
      ensures Files(old(dirs), f) != map[] && Files(old(dirs), Backup(name)) != map[] ==>
                o.Refused? && SameFiles(dirs, old(dirs))
      ensures !o.Linked? && !o.Skipped?
      ensures kind.Git? ==> InPhases(history, |old(history)|, old(regs), f, name, o)
    {
      ghost var base, h0, regs0, notes0 := dirs, history, regs, notes;
      made := map[];
      var ok := Recover(f, name);
      if !ok {
        NeverLost(history, |h0|, regs0, f, name, Stopped);
        return Stopped, made;
      }
      ghost var mid, h1 := dirs, history;
      assert Files(mid, f) == Files(Recovered(base, f, name), f);
      o, made := Rebuild(f, name);
      RebuildKeeps(base, mid, dirs, history, |h1|, f, name, o);
      if kind.Git? { PhasesFrom(h0, h1, history, regs0, f, name, o); }
      Chained(h0, h1, history, Keeping(base, Places(f, name), Meta()));
      RelinkedSame(mid, Recovered(base, f, name), regs0, notes0, Now(), f, name, o, made);
    }

    lemma RebuildKeeps(base: Dirs, mid: Dirs, dirs: Dirs, h: seq<Disk>, from: nat, f: string, name: string, o: Outcome)
      requires Apart(f, name) && Conserved(base, mid, Places(f, name), Meta()) && from <= |h|
      requires o.Refused? ==> dirs == mid && from == |h|
      requires !o.Refused? ==> Files(mid, Backup(name)) == map[]
      requires !o.Refused? ==> Throughout(h, from, Relinking(mid, Files(mid, f), Meta(), f, Backup(name)))
      requires !o.Refused? ==> RelinkState(mid, Files(mid, f), Meta(), dirs, f, Backup(name))
      ensures Throughout(h, from, Keeping(base, Places(f, name), Meta()))
      ensures Conserved(base, dirs, Places(f, name), Meta())
    {
      if !o.Refused? {
        RelinkingKeeps(h, from, mid, Meta(), f, Backup(name), name);
        KeepingFrom(h, from, base, mid, Places(f, name), Meta());
        RelinkConserves(mid, Meta(), dirs, f, Backup(name), name);
        ConservedTransitive(base, mid, dirs, Places(f, name), Meta());
      }
    }

    /**
     * What a relink has done to the disk, by outcome, from folders that are `ready`: recovered from any
     * earlier crash. `made` is the tree that the add made.
     */
    ghost predicate Relinked(ready: Dirs, regs0: map<string, Root>, notes0: map<string, RestoreTarget>,
                             after: Disk, f: string, name: string, o: Outcome, made: Entries) {
      && (o.Done? ==> Restored(Files(ready, f), after, f, name, made))
      && (o.Refused? ==> SameFiles(after.dirs, ready) && (kind.Git? ==> after.regs == regs0))
      && (o.Refused? ==> Files(ready, Backup(name)) != map[] && Files(ready, f) != map[])
      && (Files(ready, Backup(name)) != map[] ==> !o.Done? && !o.AddFailed?)
      && RegsKept(regs0, after.regs, name)
      && (name in after.regs ==>
            after.regs[name] == NewRoot(f) || (name in regs0 && after.regs[name] == regs0[name]))
      && (kind.Jj? ==> forall n | n in regs0 && n != name :: n in after.regs)
      && (kind.Git? && (o.Done? || o.AddFailed?) ==> Pruned(regs0, ready, after.regs, f, Backup(name), name))
      && (kind.Git? && o.AddFailed? ==> forall n | n in after.regs :: after.regs[n] != Child(f))
      && after.notes - {f} == notes0 - {f} && (kind.Git? ==> after.notes == notes0)
    }

    /** The checkout is registered and holds the new tree overridden by all its old entries but the metadata. */
    ghost predicate Restored(orig: Entries, after: Disk, f: string, name: string, made: Entries) {
      && f in after.dirs && after.dirs[f] == Overlaid(made, orig, {Meta()}) && IsLink(made)
      && name in after.regs && after.regs[name] == NewRoot(f)
      && Files(after.dirs, Backup(name)).Keys <= {Meta()}
    }

    lemma RelinkedSame(a: Dirs, b: Dirs, regs0: map<string, Root>, notes0: map<string, RestoreTarget>,
                       after: Disk, f: string, name: string, o: Outcome, made: Entries)
      requires SameFiles(a, b) && Relinked(a, regs0, notes0, after, f, name, o, made)
      ensures Relinked(b, regs0, notes0, after, f, name, o, made)
    {
      assert Files(a, f) == Files(b, f) && Files(a, Backup(name)) == Files(b, Backup(name));
      if kind.Git? && (o.Done? || o.AddFailed?) {
        PrunedSame(a, b, regs0, after.regs, f, Backup(name), name);
      }
      if o.Refused? {
        forall p
          ensures Files(after.dirs, p) == Files(b, p)
        {
          assert Files(after.dirs, p) == Files(a, p);
        }
      }
    }

    lemma PrunedSame(a: Dirs, b: Dirs, regs0: map<string, Root>, regs1: map<string, Root>,
                     f: string, backup: string, name: string)
      requires SameFiles(a, b) && Pruned(regs0, a, regs1, f, backup, name)
      ensures Pruned(regs0, b, regs1, f, backup, name)
    {
      forall n | n in regs0 && n != name && regs0[n].Child? && regs0[n].folder != backup
        ensures n in regs1 <==> regs0[n].folder != f && GitLinked(b, regs0[n].folder)
      {
        assert Files(a, regs0[n].folder) == Files(b, regs0[n].folder);
      }
    }

    predicate HasLink(dirs: Dirs, f: string) {
      if kind.Git? then GitLinked(dirs, f) else JjLinked(dirs, f)
    }

    /** Whether some line of `git worktree list` begins with a word that is this checkout's path. */
    predicate Listed(regs: map<string, Root>, f: string) {
      exists n | n in regs :: FirstWord(Location(regs[n])) == home + "/" + f
    }

    /** The checkout needs no relink. */
    predicate Live(d: Disk, f: string, name: string) {
      match kind
      case Git => GitLinked(d.dirs, f) && Listed(d.regs, f)
      case Jj => JjLinked(d.dirs, f) && name in d.regs && (d.regs[name] == Child(f) || d.regs[name] == Unrecorded)
    }

    /** `reattach_git_worktree`; `listed` is whether git could list its worktrees. */
    method ReattachGit(f: string, name: string, listed: bool) returns (o: Outcome, ghost made: Entries)
      requires kind.Git? && Apart(f, name)
      modifies this
      ensures Safe(f, name, Places(f, name)) && Blamed(old(regs), f, name, o)
      ensures Relinked(Recovered(old(dirs), f, name), old(regs), old(notes), Now(), f, name, o, made)
      ensures Tidy(Recovered(old(dirs), f, name), f, name, o)
      ensures Untouched(f, name, o) && !o.Skipped?
      ensures !listed ==> Now() == old(Now()) && o == if GitFile(dirs, f) then Linked else Stopped
      ensures listed ==> (o.Linked? <==> Live(old(Now()), f, name))
    {
      made := map[];
      if listed {
        if Listed(regs, f) && GitLinked(dirs, f) {
          o := Linked;
        } else {
          o, made := Relink(f, name);
        }
      } else {
        denials := denials + 1;
        o := if GitLinked(dirs, f) then Linked else Stopped;
      }
    }

    /**
     * `reattach_jj_workspace`. It lists the workspaces to see whether the checkout is usable, if it has a `.jj`
     * folder, and else to see whether the name is registered; `usableListed` and `registeredListed` are whether
     * those listings work. If one that is asked for fails, nothing changes.
     */
    method ReattachJj(f: string, name: string, usableListed: bool, registeredListed: bool)
        returns (o: Outcome, ghost made: Entries)
      requires kind.Jj? && Apart(f, name)
      modifies this
      ensures Safe(f, name, Places(f, name)) && Blamed(map[], f, name, o)
      ensures Relinked(Recovered(old(dirs), f, name), old(regs), old(notes), Now(), f, name, o, made)
      ensures Tidy(Recovered(old(dirs), f, name), f, name, o)
      ensures Untouched(f, name, o) && !o.Skipped?
      ensures (JjFolder(old(dirs), f) && !usableListed)
              || (!(JjFolder(old(dirs), f) && Usable(old(regs), f, name)) && !registeredListed) ==>
                Now() == old(Now()) && (o.Linked? || o.Stopped?) && denials > old(denials)
      ensures usableListed && registeredListed && o.Linked? ==> Usable(regs, f, name)
      ensures o.Linked? ==> JjFolder(dirs, f)
      ensures Usable(old(regs), f, name) && JjFolder(old(dirs), f) ==>
                (o.Linked? || o.Stopped?) && Now() == old(Now())
    {
      made := map[];
      var reconnected: bool := *;
      if JjLinked(dirs, f) && (!usableListed || Live(Now(), f, name)) {
        if !usableListed || !reconnected { denials := denials + 1; }
        return if reconnected then Linked else Stopped, made;
      }
      if !registeredListed {
        denials := denials + 1;
        return if JjLinked(dirs, f) && reconnected then Linked else Stopped, made;
      }
      ghost var base, h0 := dirs, history;
      var ok := ForgetRegistered(f, name);
      if !ok { return Stopped, made; }
      ghost var h1 := history;
      o, made := Relink(f, name);
      Chained(h0, h1, history, Keeping(base, Places(f, name), Meta()));
      if Unused(base, f, Places(f, name)) {
        Chained(h0, h1, history, Relinking(base, Files(base, f), Meta(), f, Backup(name)));
      }
    }

    /** When nothing is relinked: for a live checkout, and when both sides hold files. */
    twostate predicate Untouched(f: string, name: string, o: Outcome)
      reads this
    {
      && (Live(old(Now()), f, name) ==> (o.Linked? || o.Stopped?) && Now() == old(Now()))
      && (o.Linked? ==> Now() == old(Now()) && HasLink(dirs, f))
      && (o.Linked? && name != "" && denials == old(denials) ==> Live(Now(), f, name))
      && (Files(old(dirs), f) != map[] && Files(old(dirs), Backup(name)) != map[] ==> SameFiles(dirs, old(dirs)))
      && (o.Skipped? ==> Now() == old(Now()))
    }

    /** Forgets a name that is still registered elsewhere, which touches no folder. */
    method ForgetRegistered(f: string, name: string) returns (ok: bool)
      requires Apart(f, name)
      modifies this`regs, this`history, this`denials
      ensures old(history) <= history && denials >= old(denials)
      ensures denials == old(denials) ==> ok && name !in regs
      ensures Throughout(history, |old(history)|, Keeping(dirs, Places(f, name), Meta()))
      ensures Unused(dirs, f, Places(f, name)) ==>
                Throughout(history, |old(history)|, Relinking(dirs, Files(dirs, f), Meta(), f, Backup(name)))
      ensures regs == old(regs) || regs == old(regs) - {name}
    {
      ok := true;
      if name in regs {
        ok := Forget(name);
        Step(old(history), |old(history)|, Now(), Keeping(dirs, Places(f, name), Meta()));
        if Unused(dirs, f, Places(f, name)) {
          SplitStart(dirs, f, Backup(name));
          Step(old(history), |old(history)|, Now(), Relinking(dirs, Files(dirs, f), Meta(), f, Backup(name)));
        }
      }
    }

    method ReattachByKind(f: string, name: string) returns (o: Outcome, ghost made: Entries)
      requires Apart(f, name)
      modifies this
      ensures Safe(f, name, Places(f, name)) && Tidy(Recovered(old(dirs), f, name), f, name, o)
      ensures Blamed(if kind.Git? then old(regs) else map[], f, name, o)
      ensures Relinked(Recovered(old(dirs), f, name), old(regs), old(notes), Now(), f, name, o, made)
      ensures Untouched(f, name, o) && !o.Skipped?
    {
      var usableListed: bool, registeredListed: bool := *, *;
      match kind
      case Git => o, made := ReattachGit(f, name, registeredListed);
      case Jj => o, made := ReattachJj(f, name, usableListed, registeredListed);
    }

    /**
     * `jj_workspace_name_at`: the name registered for the folder, else the folder's own name. The answer is
     * this repository's only if the folder is its working copy.
     */
    method NameAt(f: string) returns (name: Option<string>)
      modifies this`denials
      ensures denials >= old(denials) && (denials == old(denials) ==> name.Some?)
      ensures name.Some? && kind.Jj? && IsLink(Files(dirs, f)) ==>
                (name.value in regs && regs[name.value] == Child(f)) || (name.value == f && !RootedAt(regs, f))
    {
      var listed: bool := *;
      if !listed {
        denials := denials + 1;
        return None;
      }
      if kind.Git? || !IsLink(Files(dirs, f)) {
        var other: string := *;
        return Some(other);
      }
      var todo := regs.Keys;
      while todo != {}
        invariant todo <= regs.Keys
        invariant forall n | n in regs && n !in todo :: regs[n] != Child(f)
        decreases |todo|
      {
        var n :| n in todo;
        todo := todo - {n};
        if regs[n] == Child(f) { return Some(n); }
      }
      name := Some(f);
    }

    /** The name a reattach uses: the given one, trimmed, or for jj the one found at the checkout. */
    method ChooseName(f: string, given: Option<string>) returns (name: string)
      modifies this`denials
      ensures denials >= old(denials)
      ensures given.Some? && Trim(given.value) != "" ==> name == Trim(given.value) && denials == old(denials)
      ensures (given.None? || Trim(given.value) == "") && kind.Git? ==> name == ""
      ensures kind.Jj? && IsLink(Files(dirs, f)) && denials == old(denials) ==>
                (given.Some? && Trim(given.value) != "") ||
                (name in regs && regs[name] == Child(f)) || (name == f && !RootedAt(regs, f))
    {
      if given.Some? && Trim(given.value) != "" { return Trim(given.value); }
      if kind.Git? { return ""; }
      var found := NameAt(f);
      name := if found.Some? then found.value else "";
    }

    /** The places a reattach may touch: for the name it is given and for the name it uses. */
    function AllPlaces(f: string, given: Option<string>, name: string): set<string> {
      GivenPlaces(f, given) + Places(f, name)
    }

    function GivenPlaces(f: string, given: Option<string>): set<string> {
      if given.Some? then Places(f, given.value) else {f}
    }

    /** The folders after recovery for the name as given. */
    function Begun(dirs: Dirs, f: string, given: Option<string>): Dirs {
      if given.Some? then Recovered(dirs, f, given.value) else dirs
    }

    /** The folders after recovery for the name as given and for the name as used. */
    function Ready(dirs: Dirs, f: string, given: Option<string>, name: string): Dirs {
      Recovered(Begun(dirs, f, given), f, name)
    }

    method RecoverGiven(f: string, given: Option<string>) returns (ok: bool)
      requires Plain(f)
      modifies this`dirs, this`history, this`faults
      ensures old(history) <= history && faults >= old(faults)
      ensures Throughout(history, |old(history)|, Keeping(old(dirs), GivenPlaces(f, given), Meta()))
      ensures Conserved(old(dirs), dirs, GivenPlaces(f, given), Meta())
      ensures ok ==> SameFiles(dirs, Begun(old(dirs), f, given))
      ensures !ok ==> faults > old(faults)
      ensures Unused(old(dirs), f, GivenPlaces(f, given)) ==> ok && dirs == old(dirs) && history == old(history)
      ensures Files(old(dirs), f) != map[] ==> ok && SameFiles(dirs, old(dirs))
    {
      ok := true;
      if given.Some? {
        ok := Recover(f, given.value);
      }
    }

    /** Neither a given nor a found name: a linked jj checkout is reconnected, git has no branch to use. */
    method ReattachUnnamed(f: string) returns (o: Outcome)
      modifies this`denials
      ensures denials >= old(denials)
      ensures kind.Git? ==> o.Stopped?
      ensures kind.Jj? ==>
                o == if !JjLinked(dirs, f) then Skipped else if denials > old(denials) then Stopped else Linked
    {
      if kind.Git? { return Stopped; }
      if !JjLinked(dirs, f) { return Skipped; }
      var reconnected: bool := *;
      if !reconnected { denials := denials + 1; }
      o := if reconnected then Linked else Stopped;
    }

    /** A jj checkout of this repository, if it is a jj checkout at all. */
    predicate Own(es: Entries) {
      ".jj" in es && es[".jj"].Folder? ==> kind.Jj? && IsLink(es)
    }

    /**
     * A reattach after the recovery for the name as given. Without a known source the checkout itself tells
     * what it is: git then has no repository to ask, and jj takes the checkout's own.
     */
    method ReattachRecovered(f: string, given: Option<string>, known: bool)
        returns (o: Outcome, ghost made: Entries, ghost name: string)
      requires Plain(f) && (known || Own(Files(dirs, f)))
      modifies this
      ensures denials >= old(denials) && (given.Some? && Trim(given.value) != "" ==> name == Trim(given.value))
      ensures Safe(f, name, Places(f, name)) && Tidy(Recovered(old(dirs), f, name), f, name, o)
      ensures known || JjLinked(old(dirs), f) ==> Explained(old(regs), f, name, o)
      ensures !known && !JjLinked(old(dirs), f) ==> o == if GitLinked(old(dirs), f) then Stopped else Skipped
      ensures Relinked(Recovered(old(dirs), f, name), old(regs), old(notes), Now(), f, name, o, made)
      ensures Untouched(f, name, o)
      ensures kind.Jj? && name != "" && denials == old(denials) && (o.Linked? || o.Done?) ==> Usable(regs, f, name)
    {
      made := map[];
      if !known && !JjLinked(dirs, f) {
        name := if given.Some? then Trim(given.value) else "";
        return if GitLinked(dirs, f) then Stopped else Skipped, made, name;
      }
      var used := ChooseName(f, given);
      name := used;
      if used == "" {
        o := ReattachUnnamed(f);
        return;
      }
      if !known {
        var rooted: bool := *;
        if !rooted {
          denials := denials + 1;
          return Stopped, made, name;
        }
      }
      o, made := ReattachByKind(f, used);
    }

    /** Why a reattach ends as it does, by whether it has a name. */
    twostate predicate Explained(regs0: map<string, Root>, f: string, name: string, o: Outcome)
      reads this
    {
      if name != "" then Blamed(if kind.Git? then regs0 else map[], f, name, o) && !o.Skipped?
      else o.Skipped? || o.Linked? || o.Stopped?
    }

    /** Recovery brings no other repository's checkout. */
    lemma OwnAfter(base: Dirs, mid: Dirs, f: string, given: Option<string>)
      requires Plain(f) && SameFiles(mid, Begun(base, f, given)) && forall p | p in base :: Own(base[p])
      ensures Own(Files(mid, f))
    {
      if given.Some? { RecoveredFiles(base, f, given.value); }
      assert Files(mid, f) == Files(Begun(base, f, given), f);
    }

    /**
     * `reattach_linked_checkout`: recover for the given name, then relink unless the checkout is live. `known`
     * is whether the source is known; if not, this object stands for the repository of the checkout. `name` is
     * the name used; it is empty when there is none.
     */
    method Reattach(f: string, given: Option<string>, known: bool)
        returns (o: Outcome, ghost made: Entries, ghost name: string)
      requires Plain(f) && (known || forall p | p in dirs :: Own(dirs[p]))
      modifies this
      ensures denials >= old(denials) && (given.Some? && Trim(given.value) != "" ==> name == Trim(given.value))
      ensures Safe(f, name, AllPlaces(f, given, name)) && Tidy(Ready(old(dirs), f, given, name), f, name, o)
      ensures known || JjLinked(Begun(old(dirs), f, given), f) ==> Explained(old(regs), f, name, o)
      ensures !known && !JjLinked(Begun(old(dirs), f, given), f) ==> o.Stopped? || o.Skipped?
      ensures Relinked(Ready(old(dirs), f, given, name), old(regs), old(notes), Now(), f, name, o, made)
      ensures o.Linked? || o.Skipped? ==> SameFiles(dirs, Begun(old(dirs), f, given)) && regs == old(regs)
      ensures o.Linked? ==> HasLink(dirs, f)
      ensures o.Linked? && name != "" && denials == old(denials) ==> Live(Now(), f, name)
      ensures Live(old(Now()), f, name) ==>
                (o.Linked? || o.Stopped?) && SameFiles(dirs, old(dirs)) && regs == old(regs) && notes == old(notes)
      ensures Files(old(dirs), f) != map[] && Files(old(dirs), Backup(name)) != map[] ==> SameFiles(dirs, old(dirs))
      ensures kind.Jj? && name != "" && denials == old(denials) && (o.Linked? || o.Done?) ==> Usable(regs, f, name)
    {
      ghost var base, regs0, notes0, h0 := dirs, regs, notes, history;
      made := map[];
      var ok := RecoverGiven(f, given);
      ghost var mid, h1 := dirs, history;
      if !ok {
        name := if given.Some? then Trim(given.value) else "";
        Widened(base, mid, h0, h1, f, given, name);
        return Stopped, made, name;
      }
      if !known { OwnAfter(base, mid, f, given); }
      o, made, name := ReattachRecovered(f, given, known);
      Widened(base, mid, h0, h1, f, given, name);
      SafeFrom(base, mid, dirs, h0, h1, history, f, given, name);
      ReadyFrom(Disk(base, regs0, notes0), mid, Now(), f, given, name, o, made);
    }

    /** A jj checkout needs no relink exactly if it has its `.jj` folder and the name is registered here or nowhere. */
    lemma UsableIsLive(d: Disk, f: string, name: string)
      ensures kind.Jj? ==> (Live(d, f, name) <==> Usable(d.regs, f, name) && JjFolder(d.dirs, f))
    {}

    /**
     * A jj checkout whose name is registered here is left alone. One that the name's registration does not lead
     * to is never reported linked: if nothing fails it is registered here in the end, or refused.
     */
    method ReattachRegistered(f: string, given: string) returns (o: Outcome, ghost made: Entries)
      requires Plain(f) && kind.Jj? && Trim(given) != ""
      modifies this
      ensures Usable(old(regs), f, Trim(given)) && JjFolder(old(dirs), f) ==>
                (o.Linked? || o.Stopped?) && SameFiles(dirs, old(dirs)) && regs == old(regs)
      ensures o.Linked? && denials == old(denials) ==> Usable(old(regs), f, Trim(given)) && JjFolder(dirs, f)
      ensures faults == old(faults) && denials == old(denials) ==> Usable(regs, f, Trim(given)) || o.Refused?
    {
      ghost var name;
      UsableIsLive(Now(), f, Trim(given));
      o, made, name := Reattach(f, Some(given), true);
      UsableIsLive(Now(), f, name);
    }

    /** What a relink did from the recovered folders, told from the folders before the recovery. */
    lemma ReadyFrom(start: Disk, mid: Dirs, after: Disk, f: string, given: Option<string>, name: string,
                    o: Outcome, made: Entries)
      requires Plain(f) && SameFiles(mid, Begun(start.dirs, f, given))
      requires Files(start.dirs, f) != map[] ==> SameFiles(mid, start.dirs)
      requires Relinked(Recovered(mid, f, name), start.regs, start.notes, after, f, name, o, made)
      ensures Relinked(Ready(start.dirs, f, given, name), start.regs, start.notes, after, f, name, o, made)
      ensures Files(Recovered(mid, f, name), f) == Files(Ready(start.dirs, f, given, name), f)
      ensures Files(mid, f) == Files(Begun(start.dirs, f, given), f)
      ensures Live(start, f, name) ==> Live(Disk(mid, start.regs, start.notes), f, name) && SameFiles(mid, start.dirs)
      ensures Files(start.dirs, f) != map[] ==>
                Files(mid, f) == Files(start.dirs, f) && Files(mid, Backup(name)) == Files(start.dirs, Backup(name))
    {
      RecoveredSame(mid, Begun(start.dirs, f, given), f, name);
      var ready := Ready(start.dirs, f, given, name);
      RelinkedSame(Recovered(mid, f, name), ready, start.regs, start.notes, after, f, name, o, made);
      assert Files(Recovered(mid, f, name), f) == Files(ready, f);
      LiveSame(start, Disk(mid, start.regs, start.notes), f, name);
      if Files(start.dirs, f) != map[] {
        assert Files(mid, f) == Files(start.dirs, f) && Files(mid, Backup(name)) == Files(start.dirs, Backup(name));
      }
    }

    lemma Widened(base: Dirs, mid: Dirs, h0: seq<Disk>, h1: seq<Disk>, f: string, given: Option<string>, name: string)
      requires Throughout(h1, |h0|, Keeping(base, GivenPlaces(f, given), Meta()))
      requires Conserved(base, mid, GivenPlaces(f, given), Meta())
      ensures Throughout(h1, |h0|, Keeping(base, AllPlaces(f, given, name), Meta()))
      ensures Conserved(base, mid, AllPlaces(f, given, name), Meta())
    {
      KeepingWider(h1, |h0|, base, GivenPlaces(f, given), AllPlaces(f, given, name), Meta());
      ConservedWider(base, mid, GivenPlaces(f, given), AllPlaces(f, given, name), Meta());
    }

    lemma SafeFrom(base: Dirs, mid: Dirs, dirs: Dirs, h0: seq<Disk>, h1: seq<Disk>, h: seq<Disk>,
                   f: string, given: Option<string>, name: string)
      requires h0 <= h1 <= h && Conserved(base, mid, AllPlaces(f, given, name), Meta())
      requires Conserved(mid, dirs, Places(f, name), Meta())
      requires Throughout(h1, |h0|, Keeping(base, AllPlaces(f, given, name), Meta()))
      requires Throughout(h, |h1|, Keeping(mid, Places(f, name), Meta()))
      ensures h0 <= h && Throughout(h, |h0|, Keeping(base, AllPlaces(f, given, name), Meta()))
      ensures Conserved(base, dirs, AllPlaces(f, given, name), Meta())
    {
      var all := AllPlaces(f, given, name);
      KeepingWider(h, |h1|, mid, Places(f, name), all, Meta());
      ConservedWider(mid, dirs, Places(f, name), all, Meta());
      KeepingFrom(h, |h1|, base, mid, all, Meta());
      Chained(h0, h1, h, Keeping(base, all, Meta()));
      ConservedTransitive(base, mid, dirs, all, Meta());
    }

    lemma LiveSame(a: Disk, b: Disk, f: string, name: string)
      requires a.regs == b.regs && (Files(a.dirs, f) != map[] ==> SameFiles(b.dirs, a.dirs))
      ensures Live(a, f, name) ==> Live(b, f, name) && SameFiles(b.dirs, a.dirs)
    {
      if Files(a.dirs, f) != map[] { assert Files(b.dirs, f) == Files(a.dirs, f); }
    }

    /**
     * `detach_linked_checkout`: the files stay; `ok` is false when the command or removal failed. `known` is
     * whether the caller knows the source: without it git gives up and jj asks the checkout. `name` is the
     * name used, empty for none.
     */
    method Detach(f: string, given: Option<string>, known: bool) returns (ok: bool, ghost name: string)
      modifies this
      ensures old(history) <= history && faults >= old(faults) && denials >= old(denials)
      ensures given.Some? ==> name == given.value
      ensures faults == old(faults) && denials == old(denials) ==>
                ok || (!known && GitLinked(old(dirs), f) && !JjLinked(old(dirs), f))
      ensures denials == old(denials) && kind.Jj? && JjLinked(old(dirs), f) && name != "" ==>
                name !in regs || (!known && !IsLink(Files(old(dirs), f)))
      ensures dirs == old(dirs) || (GitLinked(old(dirs), f) && dirs == Removed(old(dirs), f, ".git"))
      ensures JjLinked(old(dirs), f) ==> dirs == old(dirs)
      ensures GitLinked(old(dirs), f) && !JjLinked(old(dirs), f) ==> (ok <==> !GitLinked(dirs, f)) && (ok ==> known)
      ensures regs == old(regs) || (kind.Jj? && JjLinked(old(dirs), f) && regs == old(regs) - {name})
      ensures notes - {f} == old(notes) - {f}
      ensures JjLinked(old(dirs), f) && known && name != "" && faults == old(faults) ==>
                f in notes && notes[f].workspaceName == NoteName(name)
      ensures !JjLinked(old(dirs), f) ==> regs == old(regs) && notes == old(notes)
      ensures JjFolder(old(dirs), f) && name == "" ==> ok && Now() == old(Now())
      ensures !JjFolder(old(dirs), f) && !GitFile(old(dirs), f) ==> ok && Now() == old(Now())
      ensures !JjFolder(old(dirs), f) && GitFile(old(dirs), f) && ok ==> dirs[f] == old(dirs)[f] - {".git"}
    {
      ok := true;
      name := if given.Some? then given.value else "";
      if JjLinked(dirs, f) {
        var found := given;
        if given.None? { found := NameAt(f); }
        var used := if found.Some? then found.value else "";
        name := used;
        if used == "" { return; }
        if !known {
          ok := *;
          if !ok { denials := denials + 1; return; }
        }
        var _ := SaveNote(f, used);
        if kind.Jj? && (known || IsLink(Files(dirs, f))) { ok := Forget(used); } else { ok := *; }
        if !ok { denials := denials + 1; }
      } else if GitLinked(dirs, f) {
        if !known { return false, name; }
        ok := *;
        if ok { dirs := Removed(dirs, f, ".git"); } else { faults := faults + 1; }
        history := history + [Now()];
      }
    }

    /**
     * A linked checkout that is detached and then reattached holds the new tree overridden by all it held,
     * except the metadata; if the add fails instead, it holds what it held. If nothing fails the reattach
     * works, unless git has the name registered for another place, or jj was given it with blanks around it
     * and so never forgot it.
     */
    method DetachThenReattach(f: string, given: string) returns (o: Outcome, ghost made: Entries)
      requires Plain(f) && NoLeftover(dirs, given) && NoLeftover(dirs, Trim(given)) && IsLink(Files(dirs, f))
      modifies this
      ensures faults == old(faults) && denials == old(denials) && Trim(given) != ""
              && (kind.Git? ==> !JjLinked(old(dirs), f)) ==>
                || o.Done?
                || (kind.Git? && Trim(given) in old(regs) && old(regs)[Trim(given)] != Child(f))
                || (kind.Jj? && Trim(given) != given && o.Linked?)
      ensures o.Done? && Trim(given) != "" ==> Restored(Files(old(dirs), f), Now(), f, Trim(given), made)
      ensures o.Done? && Trim(given) != "" && faults == old(faults) ==>
                Backup(Trim(given)) !in dirs && Noted(f, Trim(given))
      ensures o.AddFailed? && Trim(given) != "" && faults == old(faults) ==>
                Files(dirs, f) - {Meta()} == Files(old(dirs), f) - {Meta()} && Backup(Trim(given)) !in dirs
    {
      ghost var orig := Files(dirs, f);
      ghost var name;
      var ok;
      ok, name := Detach(f, Some(given), true);
      if !ok { return Stopped, map[]; }
      ghost var mid := Files(dirs, f);
      assert mid - {Meta()} == orig - {Meta()};
      NothingToRecover(dirs, f, given);
      NothingToRecover(dirs, f, Trim(given));
      o, made, name := Reattach(f, Some(given), true);
      if o.Linked? { assert Files(dirs, f) == mid; }
    }

    /**
     * After a finished relink a second reattach moves nothing, if the checkout is a jj one or its path has no
     * white space. When nothing fails the second one finds it linked exactly then, and so relinks otherwise.
     */
    method ReattachTwice(f: string, given: string) returns (first: Outcome, second: Outcome, ghost done: Dirs)
      requires Plain(f)
      modifies this
      ensures first.Done? && Trim(given) != "" && (kind.Jj? || SpaceFree(home + "/" + f)) ==>
                (second.Linked? || second.Stopped?) && SameFiles(dirs, done)
      ensures first.Done? && Trim(given) != "" && faults == old(faults) && denials == old(denials) ==>
                (second.Linked? <==> kind.Jj? || SpaceFree(home + "/" + f))
    {
      ghost var made, name;
      first, made, name := Reattach(f, Some(given), true);
      done := dirs;
      if first.Done? && Trim(given) != "" {
        assert dirs[f][Meta()] == made[Meta()];
        AddedIsLive(Now(), f, name);
      }
      second, made, name := Reattach(f, Some(given), true);
      LiveHasNoSpace(Now(), f, name);
    }

    /** Git's listing can only ever show a checkout whose path has no white space. */
    lemma LiveHasNoSpace(d: Disk, f: string, name: string)
      ensures Live(d, f, name) ==> kind.Jj? || SpaceFree(home + "/" + f)
    {
      forall n | n in d.regs
        ensures SpaceFree(FirstWord(Location(d.regs[n])))
      {
        FirstWordWhole(Location(d.regs[n]));
      }
    }

    /** Another registration whose path goes on, after this checkout's path, with white space. */
    predicate Shadows(r: Root, f: string) {
      var path, here := Location(r), home + "/" + f;
      here < path && IsSpace(path[|here|])
    }

    /** Git takes a checkout for a linked one if it is registered, or if a longer path shadows it. */
    lemma LiveMeans(d: Disk, f: string, name: string)
      requires kind.Git? && forall n | n in d.regs && d.regs[n].Elsewhere? :: d.regs[n].path != home + "/" + f
      ensures Live(d, f, name) <==> GitLinked(d.dirs, f) && SpaceFree(home + "/" + f)
                                    && (RootedAt(d.regs, f) || exists n | n in d.regs :: Shadows(d.regs[n], f))
    {
      var here := home + "/" + f;
      forall n | n in d.regs
        ensures FirstWord(Location(d.regs[n])) == here <==>
                  SpaceFree(here) && (d.regs[n] == Child(f) || Shadows(d.regs[n], f))
      {
        FirstWordIs(Location(d.regs[n]), here);
        SameChild(d.regs[n], f);
      }
    }

    lemma SameChild(r: Root, f: string)
      ensures r.Child? && Location(r) == home + "/" + f ==> r == Child(f)
    {
      if r.Child? && Location(r) == home + "/" + f {
        Parts(home + "/", f);
        Parts(home + "/", r.folder);
      }
    }

    /** A worktree `app` that is not registered counts as linked because `app 2` is. */
    lemma ShadowExample() returns (d: Disk)
      requires kind.Git? && home == "/h"
      ensures Live(d, "app", "t1") && !RootedAt(d.regs, "app")
    {
      d := Disk(map["app" := map[".git" := File("")]], map["t2" := Child("app 2")], map[]);
      LiveMeans(d, "app", "t1");
      var here, path := home + "/" + "app", home + "/" + "app 2";
      assert here == "/h/app" && path == "/h/app 2";
      assert Shadows(d.regs["t2"], "app");
      assert SpaceFree("/h/app");
    }

    /** A checkout that an add has made and registered is live; a git one exactly if its path has no spaces. */
    lemma AddedIsLive(d: Disk, f: string, name: string)
      requires f in d.dirs && IsLink(d.dirs[f]) && name in d.regs && d.regs[name] == NewRoot(f)
      ensures Live(d, f, name) <==> kind.Jj? || SpaceFree(home + "/" + f)
    {
      LiveHasNoSpace(d, f, name);
      FirstWordWhole(home + "/" + f);
      assert Location(Child(f)) == home + "/" + f;
    }

    /** A worktree below `/my tasks`, registered and with its `.git` file, is never taken for a linked one. */
    lemma SpaceIsNeverLive() returns (d: Disk)
      requires kind.Git? && home == "/my tasks"
      ensures "app" in d.dirs && IsLink(d.dirs["app"]) && "t1" in d.regs && d.regs["t1"] == NewRoot("app")
      ensures !Live(d, "app", "t1")
    {
      d := Disk(map["app" := map[".git" := File("")]], map["t1" := Child("app")], map[]);
      AddedIsLive(d, "app", "t1");
      SpaceInside("/my", "tasks/app");
      assert home + "/" + "app" == "/my" + [' '] + "tasks/app";
    }

    /**
     * Reattaching after a crash in a relink that began without leftovers. If nothing fails, the backup is
     * emptied of all but metadata exactly if the crash had left the checkout empty, or nothing else in the
     * backup; then every old entry is in the checkout. In particular a checkout that looks linked, because
     * the add had worked, is never merged.
     */
    method ReattachAfterCrash(f: string, given: string, ghost base: Dirs)
        returns (o: Outcome, ghost made: Entries, ghost name: string)
      requires Plain(f) && Trim(given) != "" && NoLeftover(base, given) && NoLeftover(base, Trim(given))
      requires RelinkState(base, Files(base, f), Meta(), dirs, f, Backup(Trim(given)))
      modifies this
      ensures name == Trim(given)
      ensures faults == old(faults) && denials == old(denials) ==>
                (Files(dirs, Backup(name)).Keys <= {Meta()} <==>
                 Files(old(dirs), f) == map[] || Files(old(dirs), Backup(name)).Keys <= {Meta()})
      ensures faults == old(faults) && denials == old(denials)
              && (Files(old(dirs), f) == map[] || Files(old(dirs), Backup(name)).Keys <= {Meta()}) ==>
                forall n | n in Files(base, f) && n != Meta() :: At(dirs, f, n, Files(base, f)[n])
      ensures o.Done? && Files(old(dirs), f) == map[] ==> Restored(Files(base, f), Now(), f, name, made)
      ensures Files(old(dirs), f) != map[] && Files(old(dirs), Backup(name)) != map[] ==> SameFiles(dirs, old(dirs))
      ensures Live(old(Now()), f, name) ==> SameFiles(dirs, old(dirs)) && (o.Linked? || o.Stopped?)
    {
      ghost var start, faults0, denials0 := Now(), faults, denials;
      CrashReadyFor(base, dirs, f, given);
      o, made, name := Reattach(f, Some(given), true);
      if o.Linked? { assert Files(dirs, f) == Files(Begun(start.dirs, f, Some(given)), f); }
      if faults == faults0 && denials == denials0 {
        Finishes(base, start, Now(), f, name, o, made);
      }
    }

    /** The two recoveries of a reattach are the one for the trimmed name. */
    lemma CrashReadyFor(base: Dirs, dirs: Dirs, f: string, given: string)
      requires Plain(f) && Trim(given) != "" && NoLeftover(base, given) && NoLeftover(base, Trim(given))
      requires RelinkState(base, Files(base, f), Meta(), dirs, f, Backup(Trim(given)))
      ensures var name := Trim(given); var begun := Begun(dirs, f, Some(given));
        && Ready(dirs, f, Some(given), name) == Recovered(dirs, f, name)
        && (Files(dirs, f) == map[] ==> Files(Recovered(dirs, f, name), f) == Files(base, f))
        && (Files(begun, f) != map[] ==> SameFiles(begun, Recovered(dirs, f, name)))
    {
      var name := Trim(given);
      CrashRecovery(base, Meta(), dirs, f, name, Backup(name));
      if given == name {
        RecoveredTwice(dirs, f, name);
      } else {
        TrimmedApart(given);
        WiderFrame(base, dirs, f, Backup(name), {f, Backup(name)});
        assert Apart(f, given);
        assert JjBackup(given) !in dirs && GitBackup(given) !in dirs;
        NothingToRecover(dirs, f, given);
      }
    }

    /**
     * A crash just after the add: the checkout is live, a git one if its path has no spaces, and an old
     * file is in the backup alone. `ReattachAfterCrash` says that it stays there.
     */
    lemma CrashLeavesWork(f: string, name: string) returns (base: Dirs, d: Disk)
      requires Apart(f, name)
      ensures NoLeftover(base, name) && Merging(base, Files(base, f), Meta(), d.dirs, f, Backup(name))
      ensures Live(d, f, name) <==> kind.Jj? || SpaceFree(home + "/" + f)
      ensures "notes" in Files(base, f) && "notes" !in Files(d.dirs, f) && "notes" in Files(d.dirs, Backup(name))
    {
      var old_: Entries := map["notes" := File("")];
      var tree: Entries := map[Meta() := if kind.Git? then File("") else Folder(repo)];
      base := map[f := old_];
      d := Disk(map[f := tree, Backup(name) := old_], map[name := NewRoot(f)], map[]);
      assert "notes" != ".git" && "notes" != ".jj" by { assert "notes"[0] == 'n' && ".git"[0] == '.' == ".jj"[0]; }
      MergingStart(base, old_, Meta(), d.dirs, f, Backup(name));
      AddedIsLive(d, f, name);
    }

    /** The files after recovery from a crash state of a relink. */
    lemma CrashReady(base: Dirs, dirs: Dirs, f: string, name: string)
      requires Apart(f, name) && NoLeftover(base, name)
      requires RelinkState(base, Files(base, f), Meta(), dirs, f, Backup(name))
      ensures var ready := Recovered(dirs, f, name);
        && Files(ready, f) == (if Files(dirs, f) == map[] then Files(base, f) else Files(dirs, f))
        && Files(ready, Backup(name)) == (if Files(dirs, f) == map[] then map[] else Files(dirs, Backup(name)))
    {
      CrashRecovery(base, Meta(), dirs, f, name, Backup(name));
      RecoveredFiles(dirs, f, name);
      OtherBackup(base, dirs, f, Backup(name), JjBackup(name));
      OtherBackup(base, dirs, f, Backup(name), GitBackup(name));
      BackupsDiffer(name);
    }

    /** How a reattach that nothing stops ends, from any crash state. */
    lemma Finishes(base: Dirs, start: Disk, after: Disk, f: string, name: string, o: Outcome, made: Entries)
      requires Plain(f) && NoLeftover(base, name)
      requires RelinkState(base, Files(base, f), Meta(), start.dirs, f, Backup(name))
      requires Relinked(Recovered(start.dirs, f, name), start.regs, start.notes, after, f, name, o, made)
      requires o.Done? || o.AddFailed? ==> Backup(name) !in after.dirs
      requires o.AddFailed? ==> Files(after.dirs, f) == Files(Recovered(start.dirs, f, name), f)
      requires o.Linked? ==> SameFiles(after.dirs, Recovered(start.dirs, f, name))
      requires !o.Stopped? && !o.Skipped?
      ensures Files(after.dirs, Backup(name)).Keys <= {Meta()}
        <==> Files(start.dirs, f) == map[] || Files(start.dirs, Backup(name)).Keys <= {Meta()}
      ensures Files(start.dirs, f) == map[] || Files(start.dirs, Backup(name)).Keys <= {Meta()} ==>
                forall n | n in Files(base, f) && n != Meta() :: At(after.dirs, f, n, Files(base, f)[n])
    {
      var ready := Recovered(start.dirs, f, name);
      CrashReady(base, start.dirs, f, name);
      EndsWith(ready, start, after, f, name, o, made);
      if Files(start.dirs, f) == map[] || Files(start.dirs, Backup(name)).Keys <= {Meta()} {
        forall n | n in Files(base, f) && n != Meta()
          ensures At(after.dirs, f, n, Files(base, f)[n])
        {
          assert n in Files(ready, f) && Files(ready, f)[n] == Files(base, f)[n];
        }
      }
    }

    /** At the end the checkout holds every entry it was ready with but metadata, and the backup at most that. */
    lemma EndsWith(ready: Dirs, start: Disk, after: Disk, f: string, name: string, o: Outcome, made: Entries)
      requires Relinked(ready, start.regs, start.notes, after, f, name, o, made) && !o.Stopped? && !o.Skipped?
      requires o.Done? || o.AddFailed? ==> Backup(name) !in after.dirs
      requires o.AddFailed? ==> Files(after.dirs, f) == Files(ready, f)
      requires o.Linked? ==> SameFiles(after.dirs, ready)
      ensures forall n | n in Files(ready, f) && n != Meta() :: At(after.dirs, f, n, Files(ready, f)[n])
      ensures if o.Done? || o.AddFailed? then Files(ready, Backup(name)) == map[] && Backup(name) !in after.dirs
              else Files(after.dirs, Backup(name)) == Files(ready, Backup(name))
    {
      if o.Linked? || o.Refused? {
        assert Files(after.dirs, Backup(name)) == Files(ready, Backup(name)) && Files(after.dirs, f) == Files(ready, f);
      }
    }
  }

  /**
   * The registrations over a git relink: as they were, then from `lost` on without the checkout, then from
   * `found` on with it.
   */
  ghost predicate Phased(h: seq<Disk>, start: nat, regs0: map<string, Root>, f: string, name: string,
                         lost: nat, found: nat) {
    && start <= lost <= found <= |h|
    && (forall i | start <= i < lost :: h[i].regs == regs0)
    && (forall i | lost <= i < found :: !RootedAt(h[i].regs, f))
    && (forall i | found <= i < |h| :: name in h[i].regs && h[i].regs[name] == Child(f))
  }

  /** Lost and found again if the relink is done; lost for good if the add failed; never lost if refused. */
  predicate Ends(o: Outcome, lost: nat, found: nat, end: nat) {
    && (o.Done? ==> lost < found < end)
    && (o.AddFailed? ==> lost < found == end)
    && (o.Refused? ==> lost == end)
  }

  /** Only a process that dies from the prune on, and before an add that works, leaves the checkout unregistered. */
  ghost predicate InPhases(h: seq<Disk>, start: nat, regs0: map<string, Root>, f: string, name: string, o: Outcome) {
    exists lost: nat, found: nat :: Phased(h, start, regs0, f, name, lost, found) && Ends(o, lost, found, |h|)
  }

  /** Only `name` may be registered anew; jj keeps every other registration. */
  ghost predicate RegsKept(before: map<string, Root>, after: map<string, Root>, name: string) {
    forall n | n in after && n != name :: n in before && after[n] == before[n]
  }

  /** Of the registered folders other than `b`, exactly those other than `f` with a `.git` file are left. */
  ghost predicate Pruned(before: map<string, Root>, dirs: Dirs, after: map<string, Root>,
                         f: string, b: string, name: string) {
    forall n | n in before && n != name && before[n].Child? && before[n].folder != b ::
      n in after <==> before[n].folder != f && GitLinked(dirs, before[n].folder)
  }

  lemma Filled(base: Dirs, dirs: Dirs, next: Dirs, f: string, b: string, tree: Entries)
    requires Framed(base, dirs, f, b) && next == dirs[f := tree]
    ensures Framed(base, next, f, b)
  {
    assert dirs[f := tree] - {f, b} == dirs - {f, b};
  }

  predicate NoLeftover(dirs: Dirs, name: string) {
    JjBackup(name) !in dirs && GitBackup(name) !in dirs
  }

  /** A folder that is not named like a backup. */
  ghost predicate Plain(f: string) {
    forall n: string :: Apart(f, n)
  }

  predicate RootedAt(regs: map<string, Root>, f: string) {
    exists n | n in regs :: regs[n] == Child(f)
  }

  /** None of the places beside `f` is there. */
  predicate Unused(dirs: Dirs, f: string, places: set<string>) {
    forall p | p in places && p != f :: p !in dirs
  }

  lemma NothingToRecover(dirs: Dirs, f: string, name: string)
    requires Apart(f, name) && NoLeftover(dirs, name)
    ensures Recovered(dirs, f, name) == dirs
  {}

  /** A name with blanks around it has other backups than the trimmed one. */
  lemma TrimmedApart(given: string)
    requires Trim(given) != "" && Trim(given) != given
    ensures {JjBackup(given), GitBackup(given)} !! {JjBackup(Trim(given)), GitBackup(Trim(given))}
  {
    var name := Trim(given);
    var lead, trail := TrimSplit(given);
    assert |given| == |lead| + |name| + |trail|;
    BackupsCollide(given, name);
    SuffixTrimmed(name);
  }

  lemma SuffixTrimmed(name: string)
    requires name != "" && Trimmed(name)
    ensures Trim(name + "-git") == name + "-git"
  {
    var long := name + "-git";
    assert long[0] == name[0] && long[|long| - 1] == "-git"[3] == 't';
    TrimTrimmed(long);
  }

  lemma SettledBySame(base: Dirs, dirs: Dirs, f: string, name: string)
    requires Apart(f, name) && SameFiles(dirs, Recovered(base, f, name))
    ensures Settled(dirs, f, name)
  {
    RecoveredTwice(base, f, name);
    var r := Recovered(base, f, name);
    assert Files(dirs, f) == Files(r, f) && Files(dirs, JjBackup(name)) == Files(r, JjBackup(name))
        && Files(dirs, GitBackup(name)) == Files(r, GitBackup(name));
  }

  /** Dropping an empty backup, whether or not the folder itself could be removed. */
  lemma DroppedEmpty(base: Dirs, dirs: Dirs, h: seq<Disk>, start: nat, f: string, b: string, name: string, skip: string)
    requires Apart(f, name) && (b == JjBackup(name) || b == GitBackup(name))
    requires b in base && base[b] == map[] && Shrunk(base, dirs, b) && Throughout(h, start, Shrinking(base, b))
    ensures Throughout(h, start, Keeping(base, Places(f, name), skip)) && Conserved(base, dirs, Places(f, name), skip)
    ensures SameFiles(dirs, RecoveredOne(base, f, b))
  {
    SplitStart(base, f, b);
    ShrinkingSpreads(h, start, base, Files(base, f), base, f, b);
    SpreadRelinks(h, start, base, Files(base, f), skip, f, b);
    RelinkingKeeps(h, start, base, skip, f, b, name);
    SplitShrunk(base, Files(base, f), base, dirs, f, b);
    RelinkConserves(base, skip, dirs, f, b, name);
    forall p
      ensures Files(dirs, p) == Files(RecoveredOne(base, f, b), p)
    {
      if p != b { Beside(base, dirs, p, b); }
    }
  }

  lemma MovedBack(base: Dirs, dirs: Dirs, f: string, b: string)
    requires f != b && Files(base, f) == map[] && b in base && base[b] != map[]
    requires Framed(base, dirs, b, f) && f in dirs && dirs[f] == base[b] && Files(dirs, b) == map[]
    ensures SameFiles(dirs, RecoveredOne(base, f, b))
    ensures b !in dirs ==> dirs == RecoveredOne(base, f, b)
  {
    WiderFrame(base, dirs, b, f, {b, f});
  }

  /** The new tree, overridden by all the old entries except those still `left`. */
  function Overlaid(made: Entries, orig: Entries, left: set<string>): Entries {
    made + (orig - left)
  }

  lemma OverlaidStart(made: Entries, orig: Entries, skip: string)
    ensures Overlaid(made, orig, orig.Keys + {skip}) == made
  {
    assert orig - (orig.Keys + {skip}) == map[];
  }

  lemma OverlaidStep(made: Entries, orig: Entries, left: set<string>, n: string, skip: string)
    requires n in left && n in orig && n != skip
    ensures var now := Overlaid(made, orig, left + {skip});
      && (now - {n})[n := orig[n]] == now[n := orig[n]]
      && now[n := orig[n]] == Overlaid(made, orig, left - {n} + {skip})
  {}

  lemma ShrunkStep(base: Dirs, dirs: Dirs, b: string, n: string, rest: Content)
    requires Shrunk(base, dirs, b) && n in Files(dirs, b)
    ensures Shrunk(base, Removed(dirs, b, n), b) && Shrunk(base, Damaged(dirs, b, n, rest), b)
    ensures |Removed(dirs, b, n)[b]| < |Files(dirs, b)|
  {
    assert Removed(dirs, b, n) - {b} == dirs - {b} == Damaged(dirs, b, n, rest) - {b};
    assert Files(dirs, b) == Removed(dirs, b, n)[b][n := Files(dirs, b)[n]];
  }

  lemma ShrunkMake(base: Dirs, dirs: Dirs, b: string)
    requires Shrunk(base, dirs, b)
    ensures Shrunk(base, Made(dirs, b), b)
  {
    assert Made(dirs, b) - {b} == dirs - {b};
  }

  lemma ShrunkDrop(base: Dirs, dirs: Dirs, b: string)
    requires Shrunk(base, dirs, b)
    ensures Shrunk(base, dirs - {b}, b) && dirs - {b} == base - {b}
  {
    assert dirs - {b} - {b} == dirs - {b};
  }
}
