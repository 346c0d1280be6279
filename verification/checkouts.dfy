/** Checkout directories as values: what a relink may do to them, and what it keeps at every step. */
module Checkouts {
  import opened Sidecar

  /** A top-level entry of a checkout. A file or a whole tree is one opaque value. */
  datatype Content = File(data: string) | Folder(data: string)

  type Entries = map<string, Content>

  /** The folders of one task's workspace directory, by name. */
  type Dirs = map<string, Entries>

  /** Where a source repository says a workspace or worktree lives. */
  datatype Root = Child(folder: string) | Elsewhere(path: string) | Unrecorded

  /** Folders, the source's registrations by workspace name, and the jj restore notes by folder. */
  datatype Disk = Disk(dirs: Dirs, regs: map<string, Root>, notes: map<string, RestoreTarget>)

  function JjBackup(name: string): string {
    "." + name + "-relink-tmp"
  }

  function GitBackup(name: string): string {
    "." + name + "-git-relink-tmp"
  }

  function Files(dirs: Dirs, f: string): Entries {
    if f in dirs then dirs[f] else map[]
  }

  /** Folder `f` is a checkout, not one of the backups that relinking `name` uses. */
  predicate Apart(f: string, name: string) {
    f != JjBackup(name) && f != GitBackup(name)
  }

  lemma BackupsDiffer(name: string)
    ensures JjBackup(name) != GitBackup(name)
  {
    assert |GitBackup(name)| == |JjBackup(name)| + 4;
  }

  lemma SameEnd(a: string, b: string, e: string)
    ensures "." + a + e == "." + b + e <==> a == b
  {
    if "." + a + e == "." + b + e {
      assert ("." + a + e)[1..|a| + 1] == a && ("." + b + e)[1..|b| + 1] == b;
    }
  }

  /** Two names share a backup folder exactly when they are equal or one is the other plus `-git`. */
  lemma BackupsCollide(a: string, b: string)
    ensures !({JjBackup(a), GitBackup(a)} !! {JjBackup(b), GitBackup(b)})
      <==> a == b || a == b + "-git" || b == a + "-git"
  {
    var jj := "-relink-tmp";
    assert "-git-relink-tmp" == "-git" + jj;
    forall n: string
      ensures GitBackup(n) == "." + (n + "-git") + jj
    {}
    SameEnd(a, b, jj);
    SameEnd(a + "-git", b, jj);
    SameEnd(a, b + "-git", jj);
    SameEnd(a + "-git", b + "-git", jj);
    if a + "-git" == b + "-git" {
      assert a == (a + "-git")[..|a|] && b == (b + "-git")[..|b|];
    }
  }

  /* ---- Single steps ---- */

  function Made(dirs: Dirs, f: string): Dirs {
    dirs[f := Files(dirs, f)]
  }

  function Renamed(dirs: Dirs, src: string, dest: string, n: string): Dirs
    requires src in dirs && n in dirs[src]
  {
    dirs[src := dirs[src] - {n}][dest := Files(dirs, dest)[n := dirs[src][n]]]
  }

  function Removed(dirs: Dirs, f: string, n: string): Dirs {
    dirs[f := Files(dirs, f) - {n}]
  }

  /** A removal that was interrupted leaves something under the name. */
  function Damaged(dirs: Dirs, f: string, n: string, c: Content): Dirs {
    dirs[f := Files(dirs, f)[n := c]]
  }

  /* ---- States of a relink ---- */

  predicate Framed(base: Dirs, dirs: Dirs, x: string, y: string) {
    dirs - {x, y} == base - {x, y}
  }

  /** The original entries are spread over the two folders, each in one of them. */
  ghost predicate Split(base: Dirs, orig: Entries, dirs: Dirs, x: string, y: string) {
    && Framed(base, dirs, x, y)
    && (forall n :: n in orig <==> n in Files(dirs, x) || n in Files(dirs, y))
    && (forall n :: !(n in Files(dirs, x) && n in Files(dirs, y)))
    && (forall n | n in Files(dirs, x) :: Files(dirs, x)[n] == orig[n])
    && (forall n | n in Files(dirs, y) :: Files(dirs, y)[n] == orig[n])
  }

  /**
   * A fresh tree with its own metadata stands in the checkout, and the original entries are going back
   * over it: what has left the backup is in place, except the old metadata, which is never copied.
   */
  ghost predicate Merging(base: Dirs, orig: Entries, skip: string, dirs: Dirs, f: string, b: string) {
    && Framed(base, dirs, f, b)
    && f in dirs && skip in dirs[f]
    && (forall n | n in Files(dirs, b) :: n in orig && (n == skip || Files(dirs, b)[n] == orig[n]))
    && (forall n | n in orig && n != skip && n !in Files(dirs, b) :: n in dirs[f] && dirs[f][n] == orig[n])
  }

  ghost predicate RelinkState(base: Dirs, orig: Entries, skip: string, dirs: Dirs, f: string, b: string) {
    Split(base, orig, dirs, f, b) || Merging(base, orig, skip, dirs, f, b)
  }

  lemma SplitSymmetric(base: Dirs, orig: Entries, dirs: Dirs, x: string, y: string)
    requires Split(base, orig, dirs, x, y)
    ensures Split(base, orig, dirs, y, x)
  {
    assert {x, y} == {y, x};
  }

  lemma SplitStart(dirs: Dirs, x: string, y: string)
    requires x != y && Files(dirs, y) == map[]
    ensures Split(dirs, Files(dirs, x), dirs, x, y)
  {}

  /** Making a folder that was missing changes no entry. */
  lemma SplitMake(base: Dirs, orig: Entries, dirs: Dirs, x: string, y: string, f: string)
    requires Split(base, orig, dirs, x, y) && (f == x || f == y)
    ensures Split(base, orig, Made(dirs, f), x, y)
  {
    assert Made(dirs, f) - {x, y} == dirs - {x, y};
  }

  lemma SplitDrop(base: Dirs, orig: Entries, dirs: Dirs, x: string, y: string, f: string)
    requires Split(base, orig, dirs, x, y) && (f == x || f == y) && Files(dirs, f) == map[]
    ensures Split(base, orig, dirs - {f}, x, y)
  {
    assert dirs - {f} - {x, y} == dirs - {x, y};
  }

  lemma SplitRename(base: Dirs, orig: Entries, dirs: Dirs, x: string, y: string, n: string)
    requires x != y && Split(base, orig, dirs, x, y) && x in dirs && n in dirs[x]
    ensures Split(base, orig, Renamed(dirs, x, y, n), x, y)
  {
    assert Renamed(dirs, x, y, n) - {x, y} == dirs - {x, y};
  }

  /** Once one side is empty the other holds exactly the original. */
  lemma SplitWhole(base: Dirs, orig: Entries, dirs: Dirs, x: string, y: string)
    requires Split(base, orig, dirs, x, y) && Files(dirs, x) == map[]
    ensures Files(dirs, y) == orig
  {}

  lemma MergingStart(base: Dirs, orig: Entries, skip: string, dirs: Dirs, f: string, b: string)
    requires f != b && Framed(base, dirs, f, b) && f in dirs && skip in dirs[f] && Files(dirs, b) == orig
    ensures Merging(base, orig, skip, dirs, f, b)
  {}

  lemma MergingRemove(base: Dirs, orig: Entries, skip: string, dirs: Dirs, f: string, b: string, n: string)
    requires f != b && Merging(base, orig, skip, dirs, f, b) && n in Files(dirs, b) && n != skip
    ensures Merging(base, orig, skip, Removed(dirs, f, n), f, b)
    ensures forall c :: Merging(base, orig, skip, Damaged(dirs, f, n, c), f, b)
  {
    assert Removed(dirs, f, n) - {f, b} == dirs - {f, b};
    forall c
      ensures Merging(base, orig, skip, Damaged(dirs, f, n, c), f, b)
    {
      assert Damaged(dirs, f, n, c) - {f, b} == dirs - {f, b};
    }
  }

  lemma MergingRename(base: Dirs, orig: Entries, skip: string, dirs: Dirs, f: string, b: string, n: string)
    requires f != b && Merging(base, orig, skip, dirs, f, b) && b in dirs && n in dirs[b] && n != skip
    ensures Merging(base, orig, skip, Renamed(dirs, b, f, n), f, b)
  {
    assert Renamed(dirs, b, f, n) - {f, b} == dirs - {f, b};
  }

  /** Removing the backup, which by then holds at most the old metadata. */
  lemma MergingDiscard(base: Dirs, orig: Entries, skip: string, dirs: Dirs, next: Dirs, f: string, b: string)
    requires f != b && Merging(base, orig, skip, dirs, f, b) && Files(dirs, b).Keys <= {skip}
    requires next - {b} == dirs - {b} && Files(next, b).Keys <= Files(dirs, b).Keys
    ensures Merging(base, orig, skip, next, f, b)
  {
    assert next - {f, b} == (next - {b}) - {f};
    assert dirs - {f, b} == (dirs - {b}) - {f};
    assert f in next - {b} && f in dirs - {b} && (next - {b})[f] == (dirs - {b})[f];
  }

  /* ---- Conservation ---- */

  predicate At(dirs: Dirs, p: string, n: string, c: Content) {
    p in dirs && n in dirs[p] && dirs[p][n] == c
  }

  /** One of the places holds the entry with this content. */
  ghost predicate Held(dirs: Dirs, places: set<string>, n: string, c: Content) {
    exists p | p in places :: At(dirs, p, n, c)
  }

  /** A checkout and the backups that relinking `name` uses. */
  function Places(f: string, name: string): set<string> {
    {f, JjBackup(name), GitBackup(name)}
  }

  /**
   * Nothing but the metadata entry is lost: every entry of the places is still in one of them, unchanged,
   * and all other folders are as they were.
   */
  ghost predicate Conserved(base: Dirs, dirs: Dirs, places: set<string>, skip: string) {
    && dirs - places == base - places
    && forall n, c | n != skip && Held(base, places, n, c) :: Held(dirs, places, n, c)
  }

  lemma ConservedTransitive(a: Dirs, b: Dirs, c: Dirs, places: set<string>, skip: string)
    requires Conserved(a, b, places, skip) && Conserved(b, c, places, skip)
    ensures Conserved(a, c, places, skip)
  {}

  /** What is conserved among some places is conserved among more. */
  lemma ConservedWider(base: Dirs, dirs: Dirs, some: set<string>, more: set<string>, skip: string)
    requires some <= more && Conserved(base, dirs, some, skip)
    ensures Conserved(base, dirs, more, skip)
  {
    assert dirs - more == (dirs - some) - more && base - more == (base - some) - more;
    forall n, c | n != skip && Held(base, more, n, c)
      ensures Held(dirs, more, n, c)
    {
      var p :| p in more && At(base, p, n, c);
      if p in some {
        assert Held(base, some, n, c);
        var q :| q in some && At(dirs, q, n, c);
        assert q in more;
      } else {
        assert p in base - some && p in dirs - some && (base - some)[p] == (dirs - some)[p];
        assert At(dirs, p, n, c);
      }
    }
  }

  lemma WiderFrame(base: Dirs, dirs: Dirs, x: string, y: string, wide: set<string>)
    requires Framed(base, dirs, x, y) && {x, y} <= wide
    ensures dirs - wide == base - wide
    ensures forall p | p != x && p != y :: (p in dirs <==> p in base) && (p in dirs ==> dirs[p] == base[p])
  {
    assert dirs - wide == (dirs - {x, y}) - wide;
    assert base - wide == (base - {x, y}) - wide;
    forall p | p != x && p != y
      ensures (p in dirs <==> p in base) && (p in dirs ==> dirs[p] == base[p])
    {
      assert p in dirs <==> p in dirs - {x, y};
      assert p in base <==> p in base - {x, y};
      if p in dirs { assert (dirs - {x, y})[p] == (base - {x, y})[p]; }
    }
  }

  /** A state of a relink that began with an empty backup loses nothing. */
  lemma RelinkConserves(base: Dirs, skip: string, dirs: Dirs, f: string, b: string, name: string)
    requires Apart(f, name) && (b == JjBackup(name) || b == GitBackup(name))
    requires Files(base, b) == map[] && RelinkState(base, Files(base, f), skip, dirs, f, b)
    ensures Conserved(base, dirs, Places(f, name), skip)
  {
    WiderFrame(base, dirs, f, b, Places(f, name));
    forall n, c | n != skip && Held(base, Places(f, name), n, c)
      ensures Held(dirs, Places(f, name), n, c)
    {
      var p :| p in Places(f, name) && At(base, p, n, c);
      assert n in Files(base, p);
      if p == f {
        assert At(dirs, f, n, c) || At(dirs, b, n, c);
      } else {
        assert At(dirs, p, n, c);
      }
    }
  }

  /** A state of a recovery into an empty checkout loses nothing. */
  lemma RecoveryConserves(base: Dirs, skip: string, dirs: Dirs, f: string, b: string, name: string)
    requires Apart(f, name) && (b == JjBackup(name) || b == GitBackup(name))
    requires Files(base, f) == map[] && Split(base, Files(base, b), dirs, b, f)
    ensures Conserved(base, dirs, Places(f, name), skip)
  {
    WiderFrame(base, dirs, b, f, Places(f, name));
    forall n, c | n != skip && Held(base, Places(f, name), n, c)
      ensures Held(dirs, Places(f, name), n, c)
    {
      var p :| p in Places(f, name) && At(base, p, n, c);
      assert n in Files(base, p);
      if p == b {
        assert At(dirs, f, n, c) || At(dirs, b, n, c);
      } else {
        assert At(dirs, p, n, c);
      }
    }
  }

  /* ---- Recovery ---- */

  /** `recover_relink_backups` for one backup, when every step works. */
  function RecoveredOne(dirs: Dirs, f: string, b: string): Dirs {
    if b !in dirs then dirs
    else if dirs[b] == map[] then dirs - {b}
    else if Files(dirs, f) == map[] then (dirs - {b})[f := dirs[b]]
    else dirs
  }

  function Recovered(dirs: Dirs, f: string, name: string): Dirs {
    RecoveredOne(RecoveredOne(dirs, f, JjBackup(name)), f, GitBackup(name))
  }

  /** No backup holds files while the checkout has none. */
  predicate Settled(dirs: Dirs, f: string, name: string) {
    Files(dirs, f) == map[] ==> Files(dirs, JjBackup(name)) == map[] && Files(dirs, GitBackup(name)) == map[]
  }

  /** Recovery is idempotent. */
  lemma RecoveredTwice(dirs: Dirs, f: string, name: string)
    requires Apart(f, name)
    ensures Recovered(Recovered(dirs, f, name), f, name) == Recovered(dirs, f, name)
    ensures Settled(Recovered(dirs, f, name), f, name)
  {
    BackupsDiffer(name);
  }

  /**
   * What recovery gives back: an empty or missing checkout gets exactly the first backup that holds
   * files; a checkout with files stays, and so does every backup with files.
   */
  lemma RecoveredFiles(dirs: Dirs, f: string, name: string)
    requires Apart(f, name)
    ensures var jj, git, r := JjBackup(name), GitBackup(name), Recovered(dirs, f, name);
      && Files(r, f) == (if Files(dirs, f) != map[] then Files(dirs, f)
                         else if Files(dirs, jj) != map[] then Files(dirs, jj)
                         else Files(dirs, git))
      && Files(r, jj) == (if Files(dirs, f) != map[] then Files(dirs, jj) else map[])
      && Files(r, git) == (if Files(dirs, f) != map[] || Files(dirs, jj) != map[] then Files(dirs, git) else map[])
      && r - {f, jj, git} == dirs - {f, jj, git}
  {
    BackupsDiffer(name);
  }

  /**
   * Recovery after a crash at any state of a relink: it gives back all the original entries when the
   * checkout was left empty or missing, and otherwise moves nothing.
   */
  lemma CrashRecovery(base: Dirs, skip: string, dirs: Dirs, f: string, name: string, b: string)
    requires Apart(f, name) && (b == JjBackup(name) || b == GitBackup(name))
    requires Files(base, JjBackup(name)) == map[] && Files(base, GitBackup(name)) == map[]
    requires RelinkState(base, Files(base, f), skip, dirs, f, b)
    ensures Files(dirs, f) == map[] ==> Files(Recovered(dirs, f, name), f) == Files(base, f)
    ensures Files(dirs, f) != map[] ==> SameFiles(Recovered(dirs, f, name), dirs)
  {
    if Files(dirs, f) == map[] {
      SplitWhole(base, Files(base, f), dirs, f, b);
      OtherBackup(base, dirs, f, b, JjBackup(name));
      OtherBackup(base, dirs, f, b, GitBackup(name));
    } else {
      RecoveredKeeps(dirs, f, name);
    }
    RecoveredFiles(dirs, f, name);
  }

  lemma OtherBackup(base: Dirs, dirs: Dirs, f: string, b: string, k: string)
    requires Framed(base, dirs, f, b) && k != f
    ensures k != b ==> Files(dirs, k) == Files(base, k)
  {
    WiderFrame(base, dirs, f, b, {f, b});
  }

  /** Recovery moves nothing when the checkout holds files. */
  lemma RecoveredKeeps(base: Dirs, f: string, name: string)
    requires Apart(f, name) && Files(base, f) != map[]
    ensures SameFiles(Recovered(base, f, name), base)
  {
    RecoveredFiles(base, f, name);
    var jj, git, r := JjBackup(name), GitBackup(name), Recovered(base, f, name);
    forall p
      ensures Files(r, p) == Files(base, p)
    {
      if p !in {f, jj, git} {
        assert p in r <==> p in r - {f, jj, git};
        assert p in base <==> p in base - {f, jj, git};
        if p in r { assert (r - {f, jj, git})[p] == (base - {f, jj, git})[p]; }
      }
    }
  }

  /* ---- Rules that every state of a run obeys ---- */

  /** Only folder `b` differs from the start, and it has gained no name. */
  predicate Shrunk(base: Dirs, dirs: Dirs, b: string) {
    dirs - {b} == base - {b} && Files(dirs, b).Keys <= Files(base, b).Keys
  }

  datatype Rule =
    | Spread(base: Dirs, orig: Entries, x: string, y: string)
    | Relinking(base: Dirs, orig: Entries, skip: string, f: string, b: string)
    | Shrinking(base: Dirs, b: string)
    | Keeping(base: Dirs, places: set<string>, skip: string)

  ghost predicate Obeys(dirs: Dirs, r: Rule) {
    match r
    case Spread(base, orig, x, y) => Split(base, orig, dirs, x, y)
    case Relinking(base, orig, skip, f, b) => RelinkState(base, orig, skip, dirs, f, b)
    case Shrinking(base, b) => Shrunk(base, dirs, b)
    case Keeping(base, places, skip) => Conserved(base, dirs, places, skip)
  }

  /** Every state from `start` on obeys the rule. */
  ghost predicate Throughout(h: seq<Disk>, start: nat, r: Rule) {
    forall i | start <= i < |h| :: Obeys(h[i].dirs, r)
  }

  /** Every state from `start` on has these registrations. */
  ghost predicate Fixed(h: seq<Disk>, start: nat, regs: map<string, Root>) {
    forall i | start <= i < |h| :: h[i].regs == regs
  }

  lemma Step(h: seq<Disk>, start: nat, d: Disk, r: Rule)
    requires Throughout(h, start, r) && Obeys(d.dirs, r)
    ensures h <= h + [d] && Throughout(h + [d], start, r)
    ensures Fixed(h, start, d.regs) ==> Fixed(h + [d], start, d.regs)
  {}

  lemma Chained(h0: seq<Disk>, h1: seq<Disk>, h2: seq<Disk>, r: Rule)
    requires h0 <= h1 <= h2 && Throughout(h1, |h0|, r) && Throughout(h2, |h1|, r)
    ensures h0 <= h2 && Throughout(h2, |h0|, r)
    ensures forall regs :: Fixed(h1, |h0|, regs) && Fixed(h2, |h1|, regs) ==> Fixed(h2, |h0|, regs)
  {
    forall i | |h0| <= i < |h2|
      ensures Obeys(h2[i].dirs, r)
      ensures i < |h1| ==> h2[i] == h1[i]
    {
      if i < |h1| { assert h2[i] == h1[i]; }
    }
  }

  lemma SpreadFlips(h: seq<Disk>, start: nat, base: Dirs, orig: Entries, x: string, y: string)
    requires Throughout(h, start, Spread(base, orig, x, y))
    ensures Throughout(h, start, Spread(base, orig, y, x))
  {
    forall i | start <= i < |h|
      ensures Obeys(h[i].dirs, Spread(base, orig, y, x))
    {
      assert Obeys(h[i].dirs, Spread(base, orig, x, y));
      SplitSymmetric(base, orig, h[i].dirs, x, y);
    }
  }

  lemma SpreadRelinks(h: seq<Disk>, start: nat, base: Dirs, orig: Entries, skip: string, f: string, b: string)
    requires Throughout(h, start, Spread(base, orig, f, b))
    ensures Throughout(h, start, Relinking(base, orig, skip, f, b))
  {
    forall i | start <= i < |h|
      ensures Obeys(h[i].dirs, Relinking(base, orig, skip, f, b))
    {
      assert Obeys(h[i].dirs, Spread(base, orig, f, b));
    }
  }

  /** Removing an empty folder changes no entry. */
  lemma SplitShrunk(base: Dirs, orig: Entries, dirs: Dirs, next: Dirs, f: string, b: string)
    requires Split(base, orig, dirs, f, b) && Files(dirs, b) == map[] && f != b && Shrunk(dirs, next, b)
    ensures Split(base, orig, next, f, b) && Files(next, b) == map[] && Files(next, f) == Files(dirs, f)
    ensures f in next <==> f in dirs
  {
    assert Files(next, b).Keys == {};
    Beside(dirs, next, f, b);
  }

  lemma Beside(dirs: Dirs, next: Dirs, f: string, b: string)
    requires f != b && dirs - {b} == next - {b}
    ensures next - {f, b} == dirs - {f, b} && Files(next, f) == Files(dirs, f) && (f in next <==> f in dirs)
  {
    assert next - {f, b} == (next - {b}) - {f};
    assert dirs - {f, b} == (dirs - {b}) - {f};
    assert f in dirs <==> f in dirs - {b};
    assert f in next <==> f in next - {b};
    if f in dirs { assert (dirs - {b})[f] == (next - {b})[f]; }
  }

  lemma ShrinkingSpreads(h: seq<Disk>, start: nat, base: Dirs, orig: Entries, dirs: Dirs, f: string, b: string)
    requires Split(base, orig, dirs, f, b) && Files(dirs, b) == map[] && f != b
    requires Throughout(h, start, Shrinking(dirs, b))
    ensures Throughout(h, start, Spread(base, orig, f, b))
  {
    forall i | start <= i < |h|
      ensures Obeys(h[i].dirs, Spread(base, orig, f, b))
    {
      assert Obeys(h[i].dirs, Shrinking(dirs, b));
      SplitShrunk(base, orig, dirs, h[i].dirs, f, b);
    }
  }

  lemma ShrinkingRelinks(h: seq<Disk>, start: nat, base: Dirs, orig: Entries, skip: string,
                         dirs: Dirs, f: string, b: string)
    requires f != b && Merging(base, orig, skip, dirs, f, b) && Files(dirs, b).Keys <= {skip}
    requires Throughout(h, start, Shrinking(dirs, b))
    ensures Throughout(h, start, Relinking(base, orig, skip, f, b))
  {
    forall i | start <= i < |h|
      ensures Obeys(h[i].dirs, Relinking(base, orig, skip, f, b))
    {
      assert Obeys(h[i].dirs, Shrinking(dirs, b));
      MergingDiscard(base, orig, skip, dirs, h[i].dirs, f, b);
    }
  }

  lemma RelinkingKeeps(h: seq<Disk>, start: nat, base: Dirs, skip: string, f: string, b: string, name: string)
    requires Apart(f, name) && (b == JjBackup(name) || b == GitBackup(name)) && Files(base, b) == map[]
    requires Throughout(h, start, Relinking(base, Files(base, f), skip, f, b))
    ensures Throughout(h, start, Keeping(base, Places(f, name), skip))
  {
    forall i | start <= i < |h|
      ensures Obeys(h[i].dirs, Keeping(base, Places(f, name), skip))
    {
      assert Obeys(h[i].dirs, Relinking(base, Files(base, f), skip, f, b));
      RelinkConserves(base, skip, h[i].dirs, f, b, name);
    }
  }

  lemma RecoveryKeeps(h: seq<Disk>, start: nat, base: Dirs, skip: string, f: string, b: string, name: string)
    requires Apart(f, name) && (b == JjBackup(name) || b == GitBackup(name)) && Files(base, f) == map[]
    requires Throughout(h, start, Spread(base, Files(base, b), b, f))
    ensures Throughout(h, start, Keeping(base, Places(f, name), skip))
  {
    forall i | start <= i < |h|
      ensures Obeys(h[i].dirs, Keeping(base, Places(f, name), skip))
    {
      assert Obeys(h[i].dirs, Spread(base, Files(base, b), b, f));
      RecoveryConserves(base, skip, h[i].dirs, f, b, name);
    }
  }

  /** Keeping what a later state held, which kept what the first one held. */
  lemma KeepingFrom(h: seq<Disk>, start: nat, a: Dirs, b: Dirs, places: set<string>, skip: string)
    requires Conserved(a, b, places, skip) && Throughout(h, start, Keeping(b, places, skip))
    ensures Throughout(h, start, Keeping(a, places, skip))
  {
    forall i | start <= i < |h|
      ensures Obeys(h[i].dirs, Keeping(a, places, skip))
    {
      assert Obeys(h[i].dirs, Keeping(b, places, skip));
      ConservedTransitive(a, b, h[i].dirs, places, skip);
    }
  }

  lemma KeepingWider(h: seq<Disk>, start: nat, base: Dirs, some: set<string>, more: set<string>, skip: string)
    requires some <= more && Throughout(h, start, Keeping(base, some, skip))
    ensures Throughout(h, start, Keeping(base, more, skip))
  {
    forall i | start <= i < |h|
      ensures Obeys(h[i].dirs, Keeping(base, more, skip))
    {
      assert Obeys(h[i].dirs, Keeping(base, some, skip));
      ConservedWider(base, h[i].dirs, some, more, skip);
    }
  }

  /** The same entries everywhere; an empty folder counts as a missing one. */
  ghost predicate SameFiles(a: Dirs, b: Dirs) {
    forall p :: Files(a, p) == Files(b, p)
  }

  lemma RecoveredSame(a: Dirs, b: Dirs, f: string, name: string)
    requires SameFiles(a, b) && Apart(f, name)
    ensures SameFiles(Recovered(a, f, name), Recovered(b, f, name))
  {
    RecoveredOneSame(a, b, f, JjBackup(name));
    RecoveredOneSame(RecoveredOne(a, f, JjBackup(name)), RecoveredOne(b, f, JjBackup(name)), f, GitBackup(name));
  }

  lemma RecoveredOneSame(a: Dirs, b: Dirs, f: string, k: string)
    requires SameFiles(a, b) && f != k
    ensures SameFiles(RecoveredOne(a, f, k), RecoveredOne(b, f, k))
  {
    assert Files(a, f) == Files(b, f) && Files(a, k) == Files(b, k);
    forall p
      ensures Files(RecoveredOne(a, f, k), p) == Files(RecoveredOne(b, f, k), p)
    {
      assert Files(a, p) == Files(b, p);
    }
  }
}
