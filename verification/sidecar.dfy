/** The note that remembers how to re-create a forgotten jj workspace. */
module Sidecar {
  import opened Text

  datatype RestoreTarget = RestoreTarget(
    editChangeId: Option<string>, baseCommitId: Option<string>, workspaceName: Option<string>)

  const NO_TARGET := RestoreTarget(None, None, None)

  datatype Part = Edit | Base | Name

  function Tag(p: Part): string {
    match p
    case Edit => "edit:"
    case Base => "base:"
    case Name => "name:"
  }

  function With(t: RestoreTarget, p: Part, v: string): RestoreTarget {
    match p
    case Edit => t.(editChangeId := Some(v))
    case Base => t.(baseCommitId := Some(v))
    case Name => t.(workspaceName := Some(v))
  }

  function PartOf(line: string): Option<Part> {
    if Tag(Edit) <= line then Some(Edit)
    else if Tag(Base) <= line then Some(Base)
    else if Tag(Name) <= line then Some(Name)
    else None
  }

  function PartLine(p: Part, v: Option<string>): seq<string> {
    if v.None? then [] else [Tag(p) + v.value]
  }

  /** The lines of a written note. */
  function NoteLines(t: RestoreTarget): seq<string> {
    ["v1"] + (PartLine(Edit, t.editChangeId) + (PartLine(Base, t.baseCommitId) + PartLine(Name, t.workspaceName)))
  }

  /** One trimmed line of a `v1` note; an empty value is ignored. */
  function Absorb(line: string, t: RestoreTarget): RestoreTarget {
    var p := PartOf(line);
    if p.None? then t
    else
      var v := Trim(line[|Tag(p.value)|..]);
      if v == "" then t else With(t, p.value, v)
  }

  function ParsedLines(ls: seq<string>, t: RestoreTarget): RestoreTarget
    decreases ls
  {
    if ls == [] then t else ParsedLines(ls[1..], Absorb(Trim(ls[0]), t))
  }

  /** `parse_jj_restore_target_contents`; a note without the `v1` line is an old bare change id. */
  function Parsed(contents: string): Option<RestoreTarget> {
    var lines := Lines(Trim(contents));
    if lines == [] then None
    else if Trim(lines[0]) == "v1" then Some(ParsedLines(lines[1..], NO_TARGET))
    else Some(NO_TARGET.(editChangeId := Some(Trim(lines[0]))))
  }

  method ParseRestoreTarget(contents: string) returns (r: Option<RestoreTarget>)
    ensures r == Parsed(contents)
  {
    var lines := Lines(Trim(contents));
    if lines == [] { return None; }
    if Trim(lines[0]) != "v1" {
      return Some(NO_TARGET.(editChangeId := Some(Trim(lines[0]))));
    }
    var target := NO_TARGET;
    for i := 1 to |lines|
      invariant ParsedLines(lines[i..], target) == ParsedLines(lines[1..], NO_TARGET)
    {
      Extend(lines, i);
      target := Absorb(Trim(lines[i]), target);
    }
    Whole(lines);
    r := Some(target);
  }

  /** A path from the root, one component at a time. */
  type Path = seq<string>

  predicate NamedWorkspace(p: Path) {
    p != [] && p[|p| - 1] == "workspace"
  }

  function Parent(p: Path): Path
    requires p != []
  {
    p[..|p| - 1]
  }

  function FileName(p: Path): string
    requires p != []
  {
    p[|p| - 1]
  }

  /** The task home of a managed checkout: beside `workspace`, or above the checkouts in it. */
  function TaskHome(checkout: Path): Option<Path> {
    if checkout == [] then None
    else if FileName(checkout) == "workspace" then Some(Parent(checkout))
    else if NamedWorkspace(Parent(checkout)) then Some(Parent(Parent(checkout)))
    else None
  }

  function CheckoutKey(checkout: Path): string
    requires checkout != []
  {
    if FileName(checkout) == "workspace" then "_" else FileName(checkout)
  }

  /** The canonical note: under the task home, or beside an unmanaged checkout; the root has nothing beside it. */
  function Canonical(checkout: Path): Path {
    if checkout == [] then InRepo(checkout)
    else
      var home := TaskHome(checkout);
      (if home.Some? then home.value else Parent(checkout)) + [".tsk", "jj-restore", CheckoutKey(checkout)]
  }

  /** The older place beside the checkouts. */
  function Flat(checkout: Path): Option<Path> {
    if checkout == [] || Parent(checkout) == [] then None
    else if NamedWorkspace(Parent(checkout)) then Some(Parent(checkout) + [".jj-working-change"])
    else if FileName(checkout) == "workspace" then Some(checkout + [".jj-working-change"])
    else None
  }

  /** The oldest place, inside the checkout. */
  function InRepo(checkout: Path): Path {
    checkout + [".tsk", "jj-working-change"]
  }

  predicate CleanId(v: Option<string>) {
    v.Some? ==> v.value != "" && Trimmed(v.value) && NewlineFree(v.value)
  }

  predicate CleanTarget(t: RestoreTarget) {
    CleanId(t.editChangeId) && CleanId(t.baseCommitId) && CleanId(t.workspaceName)
  }

  lemma TagLine(p: Part, v: string, t: RestoreTarget)
    requires v != "" && Trimmed(v) && NewlineFree(v)
    ensures var l := Tag(p) + v;
      Trim(l) == l && NewlineFree(l) && StripCr(l) == l && Absorb(l, t) == With(t, p, v)
  {
    var l := Tag(p) + v;
    Parts(Tag(p), v);
    TrimTrimmed(v);
    assert l[0] == Tag(p)[0] && l[|l| - 1] == v[|v| - 1];
    TrimTrimmed(l);
    assert Tag(Edit)[0] == 'e' && Tag(Base)[0] == 'b' && Tag(Name)[0] == 'n';
  }

  lemma PartRead(p: Part, v: Option<string>, rest: seq<string>, t: RestoreTarget)
    requires CleanId(v)
    ensures ParsedLines(PartLine(p, v) + rest, t)
         == ParsedLines(rest, if v.Some? then With(t, p, v.value) else t)
    ensures AllNewlineFree(PartLine(p, v)) && StripCrs(PartLine(p, v)) == PartLine(p, v)
  {
    if v.Some? {
      TagLine(p, v.value, t);
      Cons(Tag(p) + v.value, rest);
    } else {
      EmptyParts(rest);
    }
  }

  lemma NoteLinesClean(t: RestoreTarget)
    requires CleanTarget(t)
    ensures AllNewlineFree(NoteLines(t)) && StripCrs(NoteLines(t)) == NoteLines(t)
    ensures ParsedLines(NoteLines(t)[1..], NO_TARGET) == t
  {
    var e := PartLine(Edit, t.editChangeId);
    var b := PartLine(Base, t.baseCommitId);
    var n := PartLine(Name, t.workspaceName);
    var t1 := NO_TARGET.(editChangeId := t.editChangeId);
    PartRead(Edit, t.editChangeId, b + n, NO_TARGET);
    PartRead(Base, t.baseCommitId, n, t1);
    PartRead(Name, t.workspaceName, [], t1.(baseCommitId := t.baseCommitId));
    EmptyParts(n);
    AllNewlineFreeConcat(b, n);
    AllNewlineFreeConcat(e, b + n);
    AllNewlineFreeConcat(["v1"], e + (b + n));
    StripCrsConcat(b, n);
    StripCrsConcat(e, b + n);
    StripCrsConcat(["v1"], e + (b + n));
    Cons("v1", e + (b + n));
  }

  /** All but the last newline of joined lines. */
  function Joined(ls: seq<string>): string
    requires ls != []
  {
    if |ls| == 1 then ls[0] else ls[0] + ['\n'] + Joined(ls[1..])
  }

  lemma {:induction false} JoinedUnlines(ls: seq<string>)
    requires ls != []
    ensures Unlines(ls) == Joined(ls) + ['\n']
  {
    if |ls| == 1 {
      EmptyParts(ls[0] + ['\n']);
    } else {
      JoinedUnlines(ls[1..]);
      Assoc(ls[0] + ['\n'], Joined(ls[1..]), ['\n']);
    }
  }

  lemma {:induction false} JoinedLines(ls: seq<string>)
    requires ls != [] && AllNewlineFree(ls) && StripCrs(ls) == ls && ls[|ls| - 1] != ""
    ensures Lines(Joined(ls)) == ls
  {
    if |ls| == 1 {
      FindNone(ls[0], '\n');
      HeadTail(ls);
    } else {
      HeadTail(ls);
      LinesCons(ls[0], Joined(ls[1..]));
      JoinedLines(ls[1..]);
    }
  }

  lemma {:induction false} JoinedEnds(ls: seq<string>)
    requires ls != [] && ls[|ls| - 1] != "" && ls[0] != ""
    ensures var s := Joined(ls); s != "" && s[0] == ls[0][0]
    ensures var s, last := Joined(ls), ls[|ls| - 1]; s[|s| - 1] == last[|last| - 1]
  {
    if |ls| > 1 {
      JoinedLast(ls[1..]);
    }
  }

  lemma {:induction false} JoinedLast(ls: seq<string>)
    requires ls != [] && ls[|ls| - 1] != ""
    ensures var s, last := Joined(ls), ls[|ls| - 1]; s != "" && s[|s| - 1] == last[|last| - 1]
  {
    if |ls| > 1 { JoinedLast(ls[1..]); }
  }

  lemma LastLineSolid(t: RestoreTarget)
    requires CleanTarget(t)
    ensures var ls := NoteLines(t); var last := ls[|ls| - 1];
      last != "" && !IsSpace(last[|last| - 1])
  {
    var e := PartLine(Edit, t.editChangeId);
    var b := PartLine(Base, t.baseCommitId);
    var n := PartLine(Name, t.workspaceName);
    LastOf(b, n);
    LastOf(e, b + n);
    LastOf(["v1"], e + (b + n));
    SolidPart(Edit, t.editChangeId);
    SolidPart(Base, t.baseCommitId);
    SolidPart(Name, t.workspaceName);
    assert "v1"[1] == '1';
  }

  lemma LastOf(a: seq<string>, b: seq<string>)
    ensures b != [] ==> (a + b)[|a + b| - 1] == b[|b| - 1]
    ensures b == [] ==> a + b == a
  {}

  lemma SolidPart(p: Part, v: Option<string>)
    requires CleanId(v)
    ensures v.Some? ==> PartLine(p, v)[0] != "" && !IsSpace(PartLine(p, v)[0][|PartLine(p, v)[0]| - 1])
  {
    if v.Some? {
      assert (Tag(p) + v.value)[|Tag(p) + v.value| - 1] == v.value[|v.value| - 1];
    }
  }

  /** Parsing a written note gives the target back. */
  lemma NoteRoundTrip(t: RestoreTarget)
    requires CleanTarget(t)
    ensures Parsed(Unlines(NoteLines(t))) == Some(t)
  {
    var ls := NoteLines(t);
    Cons("v1", ls[1..]);
    NoteLinesClean(t);
    LastLineSolid(t);
    JoinedUnlines(ls);
    JoinedEnds(ls);
    assert Trimmed(Joined(ls));
    TrimPadded("", Joined(ls), ['\n']);
    EmptyParts(Joined(ls));
    JoinedLines(ls);
    TrimTrimmed("v1");
  }

  function Line(mark: string, v: Option<string>): string {
    if v.Some? then mark + v.value + "\n" else ""
  }

  /** The text of a written note. */
  lemma NoteSpelled(t: RestoreTarget)
    ensures Unlines(NoteLines(t)) ==
      "v1\n" + (Line("edit:", t.editChangeId) + (Line("base:", t.baseCommitId) + Line("name:", t.workspaceName)))
  {
    var b, n := PartLine(Base, t.baseCommitId), PartLine(Name, t.workspaceName);
    LineText(Edit, t.editChangeId);
    LineText(Base, t.baseCommitId);
    LineText(Name, t.workspaceName);
    UnlinesConcat(b, n);
    UnlinesConcat(PartLine(Edit, t.editChangeId), b + n);
    UnlinesCons("v1", PartLine(Edit, t.editChangeId) + (b + n));
    assert "v1" + ['\n'] == "v1\n";
  }

  lemma LineText(p: Part, v: Option<string>)
    ensures Unlines(PartLine(p, v)) == Line(Tag(p), v)
  {
    if v.Some? {
      assert [Tag(p) + v.value][1..] == [];
      EmptyParts(Tag(p) + v.value + ['\n']);
    }
  }

  /**
   * Where notes are: of a checkout in a task's `workspace` directory, of that directory itself, and of any other.
   * The oldest place is always inside the checkout.
   */
  lemma PlacesSpelled(parent: Path, name: string)
    ensures var checkout := parent + [name];
      && InRepo(checkout) == checkout + [".tsk", "jj-working-change"]
      && (name == "workspace" ==> Canonical(checkout) == parent + [".tsk", "jj-restore", "_"])
      && (name != "workspace" && NamedWorkspace(parent) ==>
            && Canonical(checkout) == parent[..|parent| - 1] + [".tsk", "jj-restore", name]
            && Flat(checkout) == Some(parent + [".jj-working-change"]))
      && (name == "workspace" && parent != [] && parent[|parent| - 1] != "workspace" ==>
            Flat(checkout) == Some(checkout + [".jj-working-change"]))
      && (name != "workspace" && !NamedWorkspace(parent) ==>
            Canonical(checkout) == parent + [".tsk", "jj-restore", name] && Flat(checkout) == None)
      && (parent == [] ==> Flat(checkout) == None)
  {
    var checkout := parent + [name];
    assert Parent(checkout) == parent && FileName(checkout) == name;
  }

  /** A note of an older version: the change id alone, with blanks around it. */
  lemma BareId(lead: string, id: string, trail: string)
    requires AllSpace(lead) && AllSpace(trail) && CleanId(Some(id)) && id != "v1"
    ensures Parsed(lead + id + trail) == Some(RestoreTarget(Some(id), None, None))
  {
    TrimPadded(lead, id, trail);
    FindNone(id, '\n');
    TrimTrimmed(id);
  }

  /** A note is unreadable exactly if it is blank. */
  lemma Unreadable(contents: string)
    ensures Parsed(contents) == None <==> AllSpace(contents)
  {
    TrimEmpty(contents);
  }

  /** The note files, by path. */
  class Notes {
    var files: map<Path, string>

    /** Removing an older note may fail silently. */
    method TryRemove(path: Path)
      modifies this
      ensures files == old(files) || files == old(files) - {path}
    {
      if * { files := files - {path}; }
    }

    /**
     * `write_jj_restore_target`. If the folder cannot be made or the file not written, older notes stay and
     * the canonical one is as it was or broken. For the root the canonical place is also the oldest one, so
     * the note just written may be removed again.
     */
    method Write(checkout: Path, t: RestoreTarget) returns (ok: bool)
      modifies this
      ensures ok && Canonical(checkout) in files ==> files[Canonical(checkout)] == Unlines(NoteLines(t))
      ensures ok ==> Canonical(checkout) in files || checkout == []
      ensures !ok ==> files - {Canonical(checkout)} == old(files) - {Canonical(checkout)}
      ensures forall p | p in old(files) && p != Canonical(checkout) && p != InRepo(checkout)
                && Flat(checkout) != Some(p) :: p in files && files[p] == old(files)[p]
      ensures forall p | p in files && p != Canonical(checkout) :: p in old(files)
    {
      var made: bool, written: bool := *, *;
      if !made { return false; }
      if !written {
        var part: string := *;
        files := files[Canonical(checkout) := part];
        return false;
      }
      ok := true;
      files := files[Canonical(checkout) := Unlines(NoteLines(t))];
      if checkout != [] { CanonicalIsApart(checkout, checkout); }
      TryRemove(InRepo(checkout));
      if Flat(checkout).Some? {
        TryRemove(Flat(checkout).value);
      }
    }

    /** `read_jj_restore_target`: the first place with a readable note. */
    function Read(checkout: Path): Option<RestoreTarget>
      reads this
    {
      var first := ReadAt(Canonical(checkout));
      if first.Some? then first
      else
        var second := if Flat(checkout).Some? then ReadAt(Flat(checkout).value) else None;
        if second.Some? then second else ReadAt(InRepo(checkout))
    }

    function ReadAt(path: Path): Option<RestoreTarget>
      reads this
    {
      if path in files then Parsed(files[path]) else None
    }

    /** An older note is found where no newer place has one that is not blank. */
    lemma OlderNote(checkout: Path, old_: Path, id: string)
      requires CleanId(Some(id)) && id != "v1" && old_ in files && files[old_] in {id, id + ['\n']}
      requires Canonical(checkout) in files ==> AllSpace(files[Canonical(checkout)])
      requires Flat(checkout) == Some(old_) || (old_ == InRepo(checkout)
                 && (Flat(checkout).Some? && Flat(checkout).value in files ==> AllSpace(files[Flat(checkout).value])))
      ensures Read(checkout) == Some(RestoreTarget(Some(id), None, None))
    {
      BareId("", id, "");
      BareId("", id, ['\n']);
      EmptyParts(id);
      if Canonical(checkout) in files { Unreadable(files[Canonical(checkout)]); }
      if Flat(checkout).Some? && Flat(checkout).value in files { Unreadable(files[Flat(checkout).value]); }
    }

    /** Whatever older notes existed, a read after a write that worked gives what was written, except at the root. */
    method WriteThenRead(checkout: Path, t: RestoreTarget) returns (ok: bool, r: Option<RestoreTarget>)
      requires CleanTarget(t)
      modifies this
      ensures ok ==> r == Some(t) || (checkout == [] && r == None)
    {
      ok := Write(checkout, t);
      NoteRoundTrip(t);
      r := Read(checkout);
    }

    /**
     * Writing one checkout's note leaves a sibling's canonical note alone, unless one of the two is the
     * folder `workspace` and the other `_` outside a `workspace` directory.
     */
    method WriteBesides(checkout: Path, sibling: Path, t: RestoreTarget) returns (ok: bool)
      requires Siblings(checkout, sibling) && !KeysCollide(checkout, sibling)
      modifies this
      ensures Canonical(sibling) in files <==> Canonical(sibling) in old(files)
      ensures Canonical(sibling) in files ==> files[Canonical(sibling)] == old(files)[Canonical(sibling)]
    {
      SiblingNotes(checkout, sibling);
      CanonicalIsApart(checkout, sibling);
      ok := Write(checkout, t);
    }
  }

  predicate Siblings(a: Path, b: Path) {
    a != [] && b != [] && Parent(a) == Parent(b) && FileName(a) != FileName(b)
  }

  predicate KeysCollide(a: Path, b: Path)
    requires a != [] && b != []
  {
    !NamedWorkspace(Parent(a)) && {FileName(a), FileName(b)} == {"workspace", "_"}
  }

  lemma Suffix3(front: Path, x: string, y: string, z: string)
    ensures var p := front + [x, y, z];
      |p| == |front| + 3 && p[|p| - 1] == z && p[|p| - 2] == y && p[..|front|] == front
  {}

  /** Two siblings share a canonical note exactly when their keys collide. */
  lemma SiblingNotes(a: Path, b: Path)
    requires Siblings(a, b)
    ensures Canonical(a) == Canonical(b) <==> KeysCollide(a, b)
  {
    var ha := if TaskHome(a).Some? then TaskHome(a).value else Parent(a);
    var hb := if TaskHome(b).Some? then TaskHome(b).value else Parent(b);
    Suffix3(ha, ".tsk", "jj-restore", CheckoutKey(a));
    Suffix3(hb, ".tsk", "jj-restore", CheckoutKey(b));
  }

  /** The older places of one checkout are never the canonical place of another. */
  lemma CanonicalIsApart(checkout: Path, other: Path)
    requires checkout != [] && other != []
    ensures InRepo(checkout) != Canonical(other) && Flat(checkout) != Some(Canonical(other))
  {
    var home := if TaskHome(other).Some? then TaskHome(other).value else Parent(other);
    Suffix3(home, ".tsk", "jj-restore", CheckoutKey(other));
    var c := Canonical(other);
    assert "jj-restore"[0] == 'j' && ".tsk"[0] == '.' && "workspace"[0] == 'w';
    assert InRepo(checkout)[|InRepo(checkout)| - 2] == ".tsk";
    if Flat(checkout).Some? {
      var f := Flat(checkout).value;
      assert f[|f| - 2] == "workspace";
    }
  }
}
