/** `git worktree list --porcelain`: reading back which worktrees belong to a task branch. */
module Porcelain {
  import opened Text

  /** A worktree that tsk made, and the workspace name taken from its branch. */
  datatype Linked = Linked(path: string, name: string)

  function GitBranchForTask(name: string): string {
    "tsk-" + name
  }

  function TskNameFromGitBranch(branch: string): Option<string> {
    var short := StripPrefix(branch, "refs/heads/");
    var name := StripPrefix(if short.Some? then short.value else branch, "tsk-");
    if name.Some? && name.value != "" then name else None
  }

  function Flush(path: Option<string>, branch: Option<string>): seq<Linked> {
    if path.Some? && branch.Some? && TskNameFromGitBranch(branch.value).Some? then
      [Linked(path.value, TskNameFromGitBranch(branch.value).value)]
    else []
  }

  const WORKTREE: string := "worktree "
  const BRANCH: string := "branch "

  /** What the parser still adds to its output, with `path` and `branch` of the open stanza. */
  function ParsedFrom(ls: seq<string>, path: Option<string>, branch: Option<string>): seq<Linked> {
    if ls == [] then Flush(path, branch)
    else if ls[0] == "" then Flush(path, branch) + ParsedFrom(ls[1..], None, None)
    else if WORKTREE <= ls[0] then
      Flush(path, branch) + ParsedFrom(ls[1..], Some(Trim(ls[0][|WORKTREE|..])), None)
    else if BRANCH <= ls[0] then ParsedFrom(ls[1..], path, Some(Trim(ls[0][|BRANCH|..])))
    else ParsedFrom(ls[1..], path, branch)
  }

  method ParseGitWorktreePorcelain(stdout: string) returns (out: seq<Linked>)
    ensures out == ParsedFrom(Lines(stdout), None, None)
    ensures forall ss | AllWellFormed(ss) && stdout == Unlines(Printed(ss)) :: Reads(ss, out)
  {
    var path: Option<string>, branch: Option<string> := None, None;
    var lines := Lines(stdout);
    out := [];
    Whole(lines);
    for i := 0 to |lines|
      invariant out + ParsedFrom(lines[i..], path, branch) == ParsedFrom(lines, None, None)
    {
      var line := lines[i];
      ghost var rest := lines[i + 1..];
      Extend(lines, i);
      if line == "" {
        Assoc(out, Flush(path, branch), ParsedFrom(rest, None, None));
        out := out + Flush(path, branch);
        path, branch := None, None;
      } else if WORKTREE <= line {
        var next := Some(Trim(line[|WORKTREE|..]));
        Assoc(out, Flush(path, branch), ParsedFrom(rest, next, None));
        out := out + Flush(path, branch);
        path, branch := next, None;
      } else if BRANCH <= line {
        branch := Some(Trim(line[|BRANCH|..]));
      }
    }
    Whole(lines);
    out := out + Flush(path, branch);
    forall ss | AllWellFormed(ss) && stdout == Unlines(Printed(ss))
      ensures Reads(ss, out)
    {
      PorcelainRoundTrip(ss);
    }
  }

  /** One stanza as the git-worktree manual describes it: the path, attributes, and maybe a branch. */
  datatype Stanza = Stanza(path: string, before: seq<string>, branch: Option<string>, after: seq<string>)

  /** An attribute line other than the path and the branch: `HEAD ...`, `detached`, `locked ...`. */
  predicate Attribute(l: string) {
    l != "" && NewlineFree(l) && StripCr(l) == l && !(WORKTREE <= l) && !(BRANCH <= l)
  }

  predicate Attributes(ls: seq<string>) {
    ls == [] || (Attribute(ls[0]) && Attributes(ls[1..]))
  }

  predicate Printable(s: string) {
    s != "" && Trimmed(s) && NewlineFree(s)
  }

  predicate WellFormed(s: Stanza) {
    && Printable(s.path) && s.path[0] == '/'
    && Attributes(s.before) && Attributes(s.after)
    && (s.branch.Some? ==> Printable(s.branch.value))
  }

  function BranchLines(branch: Option<string>): seq<string> {
    if branch.None? then [] else [BRANCH + branch.value]
  }

  function StanzaLines(s: Stanza): seq<string> {
    [WORKTREE + s.path] + (s.before + (BranchLines(s.branch) + (s.after + [""])))
  }

  function Printed(ss: seq<Stanza>): seq<string> {
    if ss == [] then [] else StanzaLines(ss[0]) + Printed(ss[1..])
  }

  predicate AllWellFormed(ss: seq<Stanza>) {
    ss == [] || (WellFormed(ss[0]) && AllWellFormed(ss[1..]))
  }

  /** The stanza is on the branch made for this name, given as a full ref or short. */
  predicate OnBranch(s: Stanza, name: string) {
    name != "" && s.branch in {Some("refs/heads/" + GitBranchForTask(name)), Some(GitBranchForTask(name))}
  }

  /** One entry for each stanza on a task branch, in order, with its path and the name of its branch. */
  ghost predicate Reads(ss: seq<Stanza>, out: seq<Linked>)
    decreases ss
  {
    if ss == [] then out == []
    else if exists name :: OnBranch(ss[0], name) then
      out != [] && out[0].path == ss[0].path && OnBranch(ss[0], out[0].name) && Reads(ss[1..], out[1..])
    else Reads(ss[1..], out)
  }

  lemma {:induction false} AttributesSkipped(ls: seq<string>, rest: seq<string>, p: Option<string>, b: Option<string>)
    requires Attributes(ls)
    ensures ParsedFrom(ls + rest, p, b) == ParsedFrom(rest, p, b)
    decreases ls
  {
    if ls == [] {
      EmptyParts(rest);
    } else {
      ConcatTail(ls, rest);
      AttributesSkipped(ls[1..], rest, p, b);
    }
  }

  lemma WorktreeLine(path: string)
    requires Printable(path)
    ensures var l := WORKTREE + path;
      l != "" && WORKTREE <= l && Trim(l[|WORKTREE|..]) == path && NewlineFree(l) && StripCr(l) == l
  {
    Parts(WORKTREE, path);
    TrimTrimmed(path);
    assert (WORKTREE + path)[|WORKTREE + path| - 1] == path[|path| - 1];
  }

  lemma BranchLine(branch: string)
    requires Printable(branch)
    ensures var l := BRANCH + branch;
      l != "" && !(WORKTREE <= l) && BRANCH <= l && Trim(l[|BRANCH|..]) == branch && NewlineFree(l) && StripCr(l) == l
  {
    Parts(BRANCH, branch);
    TrimTrimmed(branch);
    var l := BRANCH + branch;
    assert l[0] == BRANCH[0] == 'b' && WORKTREE[0] == 'w';
    assert l[|l| - 1] == branch[|branch| - 1];
  }

  lemma BranchRead(b: Option<string>, rest: seq<string>, p: Option<string>)
    requires b.Some? ==> Printable(b.value)
    ensures ParsedFrom(BranchLines(b) + rest, p, None) == ParsedFrom(rest, p, b)
  {
    if b.Some? {
      BranchLine(b.value);
      Cons(BRANCH + b.value, rest);
    } else {
      EmptyParts(rest);
    }
  }

  lemma StanzaParsed(s: Stanza, rest: seq<string>)
    requires WellFormed(s)
    ensures ParsedFrom(StanzaLines(s) + rest, None, None)
         == Flush(Some(s.path), s.branch) + ParsedFrom(rest, None, None)
  {
    var p := Some(s.path);
    var d := [""] + rest;
    var c := s.after + d;
    var b := BranchLines(s.branch) + c;
    var a := s.before + b;
    Assoc(s.after, [""], rest);
    Assoc(BranchLines(s.branch), s.after + [""], rest);
    Assoc(s.before, BranchLines(s.branch) + (s.after + [""]), rest);
    Assoc([WORKTREE + s.path], s.before + (BranchLines(s.branch) + (s.after + [""])), rest);
    assert StanzaLines(s) + rest == [WORKTREE + s.path] + a;
    WorktreeLine(s.path);
    Cons(WORKTREE + s.path, a);
    EmptyParts(ParsedFrom(a, p, None));
    AttributesSkipped(s.before, b, p, None);
    BranchRead(s.branch, c, p);
    AttributesSkipped(s.after, d, p, s.branch);
    Cons("", rest);
  }

  /** A printed stanza on the branch made for a name yields that path and name; any other yields nothing. */
  lemma StanzaRead(s: Stanza, rest: seq<string>, name: string)
    requires WellFormed(s)
    ensures var after, all := ParsedFrom(rest, None, None), ParsedFrom(StanzaLines(s) + rest, None, None);
      && (OnBranch(s, name) ==> all == [Linked(s.path, name)] + after)
      && ((forall n :: !OnBranch(s, n)) ==> all == after)
  {
    StanzaParsed(s, rest);
    EmptyParts(ParsedFrom(rest, None, None));
    if s.branch.Some? {
      BranchNameInverse(s.branch.value, name);
      var found := TskNameFromGitBranch(s.branch.value);
      if found.Some? {
        BranchNameInverse(s.branch.value, found.value);
        assert OnBranch(s, found.value);
      }
    }
  }

  lemma {:induction false} PrintedRead(ss: seq<Stanza>)
    requires AllWellFormed(ss)
    ensures Reads(ss, ParsedFrom(Printed(ss), None, None))
  {
    if ss != [] {
      var more := ParsedFrom(Printed(ss[1..]), None, None);
      PrintedRead(ss[1..]);
      if name :| OnBranch(ss[0], name) {
        StanzaRead(ss[0], Printed(ss[1..]), name);
        Cons(Linked(ss[0].path, name), more);
      } else {
        StanzaRead(ss[0], Printed(ss[1..]), "");
      }
    }
  }

  lemma {:induction false} AttributesClean(ls: seq<string>)
    requires Attributes(ls)
    ensures AllNewlineFree(ls) && StripCrs(ls) == ls
  {
    if ls != [] {
      AttributesClean(ls[1..]);
      HeadTail(ls);
    }
  }

  lemma CleanConcat(a: seq<string>, b: seq<string>)
    requires AllNewlineFree(a) && AllNewlineFree(b) && StripCrs(a) == a && StripCrs(b) == b
    ensures AllNewlineFree(a + b) && StripCrs(a + b) == a + b
  {
    AllNewlineFreeConcat(a, b);
    StripCrsConcat(a, b);
  }

  lemma {:induction false} PrintedClean(ss: seq<Stanza>)
    requires AllWellFormed(ss)
    ensures AllNewlineFree(Printed(ss)) && StripCrs(Printed(ss)) == Printed(ss)
  {
    if ss != [] {
      var s := ss[0];
      AttributesClean(s.before);
      AttributesClean(s.after);
      WorktreeLine(s.path);
      if s.branch.Some? { BranchLine(s.branch.value); }
      CleanConcat(s.after, [""]);
      CleanConcat(BranchLines(s.branch), s.after + [""]);
      CleanConcat(s.before, BranchLines(s.branch) + (s.after + [""]));
      CleanConcat([WORKTREE + s.path], s.before + (BranchLines(s.branch) + (s.after + [""])));
      PrintedClean(ss[1..]);
      CleanConcat(StanzaLines(s), Printed(ss[1..]));
    }
  }

  /** The last stanza counts whether or not a blank line ends it. */
  lemma {:induction false} LastStanza(ls: seq<string>, p: Option<string>, b: Option<string>)
    ensures ParsedFrom(ls + [""], p, b) == ParsedFrom(ls, p, b)
    decreases ls
  {
    if ls == [] {
      EmptyParts([""]);
      EmptyParts(Flush(p, b));
      Cons("", []);
    } else {
      ConcatTail(ls, [""]);
      if ls[0] == "" {
        LastStanza(ls[1..], None, None);
      } else if WORKTREE <= ls[0] {
        LastStanza(ls[1..], Some(Trim(ls[0][|WORKTREE|..])), None);
      } else if BRANCH <= ls[0] {
        LastStanza(ls[1..], p, Some(Trim(ls[0][|BRANCH|..])));
      } else {
        LastStanza(ls[1..], p, b);
      }
    }
  }

  /** Parsing what git prints gives, in order, exactly the worktrees on a task branch. */
  lemma PorcelainRoundTrip(ss: seq<Stanza>)
    requires AllWellFormed(ss)
    ensures Reads(ss, ParsedFrom(Lines(Unlines(Printed(ss))), None, None))
  {
    PrintedClean(ss);
    LinesOfUnlines(Printed(ss));
    PrintedRead(ss);
  }

  /**
   * The name read from a branch is the one the branch was made for, full ref or short, and only such
   * branches have one.
   */
  lemma BranchNameInverse(branch: string, name: string)
    ensures TskNameFromGitBranch(branch) == Some(name) <==>
      name != "" && (branch == "refs/heads/" + GitBranchForTask(name) || branch == GitBranchForTask(name))
  {
    assert "refs/heads/"[0] == 'r' && "tsk-"[0] == 't';
    var full := "refs/heads/" + GitBranchForTask(name);
    StripPrefixOf("refs/heads/", GitBranchForTask(name));
    StripPrefixOf("tsk-", name);
    var short := StripPrefix(branch, "refs/heads/");
    if short.Some? {
      Rejoin(branch, "refs/heads/");
      if "tsk-" <= short.value { Rejoin(short.value, "tsk-"); }
    } else if "tsk-" <= branch {
      Rejoin(branch, "tsk-");
    }
  }

  lemma Rejoin(s: string, prefix: string)
    requires prefix <= s
    ensures s == prefix + s[|prefix|..]
  {}
}
