/** HANDOFF.md: stamping the metadata list in the header, reading it back, and validating sections. */
module Handoff {
  import opened Text

  datatype Key = TaskId | TaskName | ParentPlan | ConcernIndex | Created | Repo | SourceRepo

  datatype Meta = Meta(
    taskId: string, taskName: string, created: string, repo: string, sourceRepo: string,
    parentPlan: string, concernIndex: string)

  datatype Problem = MissingHeading(heading: string) | EmptyGoal | EmptySuccessCriteria

  const NO_META := Meta("", "", "", "", "", "", "")

  const REQUIRED_HEADINGS: seq<string> :=
    ["Goal", "Scope", "Out of scope", "Success criteria", "Constraints"]

  function Label(k: Key): string {
    match k
    case TaskId => "- **task_id:**"
    case TaskName => "- **task_name:**"
    case ParentPlan => "- **parent_plan:**"
    case ConcernIndex => "- **concern_index:**"
    case Created => "- **created:**"
    case Repo => "- **repo:**"
    case SourceRepo => "- **source_repo:**"
  }

  function With(m: Meta, k: Key, v: string): Meta {
    match k
    case TaskId => m.(taskId := v)
    case TaskName => m.(taskName := v)
    case ParentPlan => m.(parentPlan := v)
    case ConcernIndex => m.(concernIndex := v)
    case Created => m.(created := v)
    case Repo => m.(repo := v)
    case SourceRepo => m.(sourceRepo := v)
  }

  /** The label a trimmed line starts with, tried in the order of `parse_meta`. */
  function KeyOf(t: string): Option<Key> {
    if Label(TaskId) <= t then Some(TaskId)
    else if Label(TaskName) <= t then Some(TaskName)
    else if Label(ParentPlan) <= t then Some(ParentPlan)
    else if Label(ConcernIndex) <= t then Some(ConcernIndex)
    else if Label(Created) <= t then Some(Created)
    else if Label(Repo) <= t then Some(Repo)
    else if Label(SourceRepo) <= t then Some(SourceRepo)
    else None
  }

  predicate IsSection(t: string) {
    "## " <= t
  }

  predicate IsTitle(t: string) {
    "# " <= t
  }

  predicate IsBullet(t: string) {
    "- **" <= t
  }

  function Placeholder(s: string): string {
    if s == "" then "\U{2026}" else s
  }

  datatype Field = Field(key: Key, value: string)

  function Optional(k: Key, v: string): seq<Field> {
    if v == "" then [] else [Field(k, v)]
  }

  /** The fields a metadata block lists, in the order of `format_meta_block`. */
  function Fields(m: Meta): seq<Field> {
    [Field(TaskId, Placeholder(m.taskId)), Field(TaskName, Placeholder(m.taskName))]
    + Optional(ParentPlan, m.parentPlan) + Optional(ConcernIndex, m.concernIndex)
    + [Field(Created, Placeholder(m.created)), Field(Repo, Placeholder(m.repo)),
       Field(SourceRepo, Placeholder(m.sourceRepo))]
  }

  function FieldLine(f: Field): string {
    Label(f.key) + " " + f.value
  }

  function FieldLines(fs: seq<Field>): seq<string> {
    if fs == [] then [] else [FieldLine(fs[0])] + FieldLines(fs[1..])
  }

  function Block(m: Meta): seq<string> {
    FieldLines(Fields(m))
  }

  /** What a reader of the block sees: required fields show a placeholder for an empty value. */
  function Stamped(m: Meta): Meta {
    m.(taskId := Placeholder(m.taskId), taskName := Placeholder(m.taskName),
       created := Placeholder(m.created), repo := Placeholder(m.repo),
       sourceRepo := Placeholder(m.sourceRepo))
  }

  predicate CleanValue(v: string) {
    Trimmed(v) && NewlineFree(v)
  }

  predicate CleanMeta(m: Meta) {
    && CleanValue(m.taskId) && CleanValue(m.taskName) && CleanValue(m.created)
    && CleanValue(m.repo) && CleanValue(m.sourceRepo) && CleanValue(m.parentPlan)
    && CleanValue(m.concernIndex)
  }

  predicate CleanFields(fs: seq<Field>) {
    fs == [] || (fs[0].value != "" && CleanValue(fs[0].value) && CleanFields(fs[1..]))
  }

  method FormatMetaBlock(m: Meta) returns (block: string)
    ensures block == Unlines(Block(m))
  {
    var fields := Fields(m);
    block := "";
    for i := 0 to |fields|
      invariant block + Unlines(FieldLines(fields[i..])) == Unlines(Block(m))
    {
      Extend(fields, i);
      UnlinesCons(FieldLine(fields[i]), FieldLines(fields[i + 1..]));
      Assoc(block, FieldLine(fields[i]) + ['\n'], Unlines(FieldLines(fields[i + 1..])));
      block := block + (FieldLine(fields[i]) + ['\n']);
    }
    Whole(fields);
    EmptyParts(block);
  }

  function Shown(v: string): string {
    if |v| > 0 then v else ['\U{2026}']
  }

  function Mark(k: Key): string {
    match k
    case TaskId => "- **task_id:** "
    case TaskName => "- **task_name:** "
    case ParentPlan => "- **parent_plan:** "
    case ConcernIndex => "- **concern_index:** "
    case Created => "- **created:** "
    case Repo => "- **repo:** "
    case SourceRepo => "- **source_repo:** "
  }

  lemma FieldSpelled(k: Key, v: string)
    ensures FieldLines([Field(k, v)]) == [Mark(k) + v]
    ensures FieldLines(Optional(k, v)) == if |v| > 0 then [Mark(k) + v] else []
  {
    assert Label(k) + " " == Mark(k);
  }

  lemma FieldsCons(f: Field, fs: seq<Field>)
    ensures FieldLines([f] + fs) == FieldLines([f]) + FieldLines(fs)
  {
    FieldLinesConcat([f], fs);
  }

  /** The lines of a block, spelled out. */
  lemma BlockSpelled(m: Meta)
    ensures Block(m) ==
      ["- **task_id:** " + Shown(m.taskId)] + (["- **task_name:** " + Shown(m.taskName)]
      + ((if |m.parentPlan| > 0 then ["- **parent_plan:** " + m.parentPlan] else [])
      + ((if |m.concernIndex| > 0 then ["- **concern_index:** " + m.concernIndex] else [])
      + (["- **created:** " + Shown(m.created)] + (["- **repo:** " + Shown(m.repo)]
      + ["- **source_repo:** " + Shown(m.sourceRepo)])))))
  {
    FieldSpelled(TaskId, Shown(m.taskId));
    FieldSpelled(TaskName, Shown(m.taskName));
    FieldSpelled(ParentPlan, m.parentPlan);
    FieldSpelled(ConcernIndex, m.concernIndex);
    FieldSpelled(Created, Shown(m.created));
    FieldSpelled(Repo, Shown(m.repo));
    FieldSpelled(SourceRepo, Shown(m.sourceRepo));
    FieldsChained(Field(TaskId, Shown(m.taskId)), Field(TaskName, Shown(m.taskName)),
                  Optional(ParentPlan, m.parentPlan), Optional(ConcernIndex, m.concernIndex),
                  Field(Created, Shown(m.created)), Field(Repo, Shown(m.repo)), Field(SourceRepo, Shown(m.sourceRepo)));
  }

  lemma FieldsChained(a: Field, b: Field, p: seq<Field>, c: seq<Field>, x: Field, y: Field, z: Field)
    ensures FieldLines([a, b] + p + c + [x, y, z])
         == FieldLines([a]) + (FieldLines([b]) + (FieldLines(p) + (FieldLines(c)
            + (FieldLines([x]) + (FieldLines([y]) + FieldLines([z]))))))
  {
    var tail := [x] + ([y] + [z]);
    assert [a, b] + p + c + [x, y, z] == [a] + ([b] + (p + (c + tail)));
    FieldsCons(a, [b] + (p + (c + tail)));
    FieldsCons(b, p + (c + tail));
    FieldLinesConcat(p, c + tail);
    FieldLinesConcat(c, tail);
    FieldsCons(x, [y] + [z]);
    FieldsCons(y, [z]);
  }

  lemma {:induction false} FieldLinesConcat(a: seq<Field>, b: seq<Field>)
    ensures FieldLines(a + b) == FieldLines(a) + FieldLines(b)
  {
    if a == [] {
      EmptyParts(b);
      EmptyParts(FieldLines(b));
    } else {
      ConcatTail(a, b);
      FieldLinesConcat(a[1..], b);
      Assoc([FieldLine(a[0])], FieldLines(a[1..]), FieldLines(b));
    }
  }

  /* ---- Rewriting ---- */

  /** The header lines of the rewritten document; from the first section on, lines are copied. */
  function RewrittenFrom(ls: seq<string>, m: Meta, wrote: bool): seq<string> {
    if ls == [] then []
    else
      var t := Trim(ls[0]);
      if IsSection(t) then (if wrote then [] else Block(m) + [""]) + ls
      else if IsTitle(t) then ([ls[0]] + [""]) + Block(m) + RewrittenFrom(ls[1..], m, true)
      else if IsBullet(t) || t == "" || !wrote then RewrittenFrom(ls[1..], m, wrote)
      else [ls[0]] + RewrittenFrom(ls[1..], m, wrote)
  }

  /** Some header line makes `rewrite_meta` write the block in place: a title or a section. */
  predicate HasHeading(ls: seq<string>) {
    ls != [] && (IsSection(Trim(ls[0])) || IsTitle(Trim(ls[0])) || HasHeading(ls[1..]))
  }

  function Rewritten(markdown: string, m: Meta): string {
    var ls := Lines(markdown);
    if HasHeading(ls) then Unlines(RewrittenFrom(ls, m, false))
    else Unlines(Block(m)) + ['\n'] + markdown
  }

  /** Header text: not blank, no metadata bullet. */
  predicate IsText(l: string) {
    Trim(l) != "" && !("- **" <= Trim(l))
  }

  function Texts(ls: seq<string>): seq<string> {
    if ls == [] then [] else (if IsText(ls[0]) then [ls[0]] else []) + Texts(ls[1..])
  }

  /** No line begins, trimmed, with a title or section mark. */
  ghost predicate NoMarks(ls: seq<string>) {
    forall i | 0 <= i < |ls| :: !("# " <= Trim(ls[i])) && !("## " <= Trim(ls[i]))
  }

  lemma {:induction false} BeforeMark(ls: seq<string>, m: Meta, i: nat)
    requires i <= |ls| && NoMarks(ls[..i])
    ensures RewrittenFrom(ls, m, false) == RewrittenFrom(ls[i..], m, false)
    ensures RewrittenFrom(ls, m, true) == Texts(ls[..i]) + RewrittenFrom(ls[i..], m, true)
  {
    if i == 0 {
      Whole(ls);
      EmptyParts(RewrittenFrom(ls, m, true));
    } else {
      var front := ls[..i];
      assert front[0] == ls[0] && front[1..] == ls[1..][..i - 1];
      assert forall k | 0 < k < i :: front[1..][k - 1] == front[k];
      BeforeMark(ls[1..], m, i - 1);
      assert ls[1..][i - 1..] == ls[i..];
      Assoc([ls[0]], Texts(front[1..]), RewrittenFrom(ls[i..], m, true));
      EmptyParts(Texts(front[1..]));
    }
  }

  /** Without a title before the first section the block goes before that, and the lines before it go. */
  lemma BlockAtSection(ls: seq<string>, m: Meta, i: nat)
    requires i < |ls| && NoMarks(ls[..i]) && "## " <= Trim(ls[i])
    ensures RewrittenFrom(ls, m, false) == Block(m) + [""] + ls[i..]
  {
    BeforeMark(ls, m, i);
  }

  /**
   * With a title before the first section the block goes below the title; the lines before the title go, and of
   * those up to the first section, at `j`, the bullets and blank ones.
   */
  lemma BlockAtTitle(ls: seq<string>, m: Meta, i: nat, j: nat)
    requires i < |ls| && NoMarks(ls[..i]) && "# " <= Trim(ls[i])
    requires i < j <= |ls| && NoMarks(ls[i + 1..j]) && (j == |ls| || "## " <= Trim(ls[j]))
    ensures RewrittenFrom(ls, m, false) == ([ls[i]] + [""]) + Block(m) + (Texts(ls[i + 1..j]) + ls[j..])
  {
    BeforeMark(ls, m, i);
    var more := ls[i + 1..];
    assert more[..j - i - 1] == ls[i + 1..j] && more[j - i - 1..] == ls[j..];
    assert j < |ls| ==> more[j - i - 1] == ls[j];
    TextsKept(more, m, j - i - 1);
    Extend(ls, i);
    TitleFirst(ls[i], more, m);
  }

  lemma TitleFirst(l: string, more: seq<string>, m: Meta)
    requires "# " <= Trim(l)
    ensures RewrittenFrom([l] + more, m, false) == ([l] + [""]) + Block(m) + RewrittenFrom(more, m, true)
  {
    Cons(l, more);
    assert !IsSection(Trim(l)) by { assert "## "[1] == '#' && "# "[1] == ' '; }
  }

  lemma TextsKept(ls: seq<string>, m: Meta, n: nat)
    requires n <= |ls| && NoMarks(ls[..n]) && (n == |ls| || "## " <= Trim(ls[n]))
    ensures RewrittenFrom(ls, m, true) == Texts(ls[..n]) + ls[n..]
  {
    BeforeMark(ls, m, n);
    EmptyParts(ls[n..]);
  }

  lemma {:induction false} HeadingMarks(ls: seq<string>)
    ensures HasHeading(ls) <==> !NoMarks(ls)
  {
    if ls != [] {
      HeadingMarks(ls[1..]);
      assert forall k | 0 < k < |ls| :: ls[1..][k - 1] == ls[k];
    }
  }

  /** A document without a title and without a section gets the block and a blank line before all it holds. */
  lemma BlockBefore(markdown: string, m: Meta)
    ensures Rewritten(markdown, m) ==
      if NoMarks(Lines(markdown)) then Unlines(Block(m)) + "\n" + markdown
      else Unlines(RewrittenFrom(Lines(markdown), m, false))
  {
    HeadingMarks(Lines(markdown));
  }

  method RewriteMeta(markdown: string, m: Meta) returns (out: string)
    ensures out == Rewritten(markdown, m)
  {
    var block := FormatMetaBlock(m);
    var lines := Lines(markdown);
    ghost var goal := Unlines(RewrittenFrom(lines, m, false));
    var inHeader, wrote := true, false;
    out := "";
    EmptyParts(goal);
    Whole(lines);
    for i := 0 to |lines|
      invariant inHeader ==> goal == out + Unlines(RewrittenFrom(lines[i..], m, wrote))
      invariant !inHeader ==> goal == out + Unlines(lines[i..]) && wrote
      invariant HasHeading(lines) <==> wrote || HasHeading(lines[i..])
    {
      var line := lines[i];
      var t := Trim(line);
      ghost var rest := lines[i + 1..];
      Extend(lines, i);
      if inHeader && IsSection(t) {
        if !wrote {
          RewriteAtSection(out, m, lines[i..]);
          out := out + (block + ['\n']);
          wrote := true;
        } else {
          EmptyParts(lines[i..]);
        }
        inHeader := false;
        Push(out, line, rest);
        out := out + (line + ['\n']);
      } else if inHeader && IsTitle(t) {
        RewriteAtTitle(out, line, m, RewrittenFrom(rest, m, true));
        out := out + (line + ['\n'] + ['\n'] + block);
        wrote := true;
      } else if inHeader {
        if !IsBullet(t) && t != "" && wrote {
          Push(out, line, RewrittenFrom(rest, m, wrote));
          out := out + (line + ['\n']);
        }
      } else {
        Push(out, line, rest);
        out := out + (line + ['\n']);
      }
    }
    Whole(lines);
    EmptyParts(out);
    if !wrote {
      out := block + ['\n'] + markdown;
    }
  }

  lemma Push(out: string, line: string, rest: seq<string>)
    ensures out + Unlines([line] + rest) == out + (line + ['\n']) + Unlines(rest)
  {
    UnlinesCons(line, rest);
    Assoc(out, line + ['\n'], Unlines(rest));
  }

  lemma RewriteAtSection(out: string, m: Meta, ls: seq<string>)
    ensures out + Unlines(Block(m) + [""] + ls) == out + (Unlines(Block(m)) + ['\n']) + Unlines(ls)
  {
    UnlinesConcat(Block(m) + [""], ls);
    UnlinesConcat(Block(m), [""]);
    assert Unlines([""]) == ['\n'];
    Assoc(out, Unlines(Block(m)) + ['\n'], Unlines(ls));
  }

  lemma RewriteAtTitle(out: string, line: string, m: Meta, rest: seq<string>)
    ensures out + Unlines(([line] + [""]) + Block(m) + rest)
         == out + (line + ['\n'] + ['\n'] + Unlines(Block(m))) + Unlines(rest)
  {
    var head := line + ['\n'] + ['\n'];
    UnlinesConcat(([line] + [""]) + Block(m), rest);
    UnlinesConcat([line] + [""], Block(m));
    assert Unlines([line] + [""]) == head by {
      UnlinesCons(line, [""]);
      assert Unlines([""]) == ['\n'];
    }
    Assoc(out, head + Unlines(Block(m)), Unlines(rest));
  }

  /* ---- Reading the metadata back ---- */

  function Absorb(t: string, m: Meta): Meta {
    var k := KeyOf(t);
    if k.None? then m else With(m, k.value, Trim(t[|Label(k.value)|..]))
  }

  function ParsedFrom(ls: seq<string>, m: Meta): Meta {
    if ls == [] then m
    else
      var t := Trim(ls[0]);
      if IsSection(t) then Absorb(t, m) else ParsedFrom(ls[1..], Absorb(t, m))
  }

  function Parsed(markdown: string): Meta {
    ParsedFrom(Lines(markdown), NO_META)
  }

  method ParseMeta(markdown: string) returns (m: Meta)
    ensures m == Parsed(markdown)
  {
    var lines := Lines(markdown);
    m := NO_META;
    Whole(lines);
    for i := 0 to |lines|
      invariant ParsedFrom(lines[i..], m) == Parsed(markdown)
    {
      Extend(lines, i);
      var t := Trim(lines[i]);
      m := Absorb(t, m);
      if IsSection(t) {
        return;
      }
    }
    Whole(lines);
  }

  lemma NotPrefix(a: string, b: string, v: string, i: nat)
    requires i < |a| && i < |b| && a[i] != b[i]
    ensures !(a <= b + v)
  {
    assert (b + v)[i] == b[i];
  }

  /** The first position where the labels of two keys differ. */
  function Differs(a: Key, b: Key): nat
    requires a != b
  {
    if {a, b} == {TaskId, TaskName} then 9
    else if {a, b} == {ConcernIndex, Created} then 5
    else 4
  }

  lemma LabelsDiffer(a: Key, b: Key)
    requires a != b
    ensures Differs(a, b) < |Label(a)| && Differs(a, b) < |Label(b)|
    ensures Label(a)[Differs(a, b)] != Label(b)[Differs(a, b)]
  {}

  lemma KeyOfLabel(k: Key, v: string)
    ensures KeyOf(Label(k) + v) == Some(k)
  {
    Parts(Label(k), v);
    forall other: Key | other != k
      ensures !(Label(other) <= Label(k) + v)
    {
      LabelsDiffer(other, k);
      NotPrefix(Label(other), Label(k), v, Differs(other, k));
    }
  }

  lemma LabelShape(k: Key)
    ensures |Label(k)| > 4 && Label(k)[0] == '-' && Label(k)[..4] == "- **" && NewlineFree(Label(k))
  {}

  lemma FieldLineShape(f: Field)
    requires f.value != "" && CleanValue(f.value)
    ensures var l := FieldLine(f);
      Trim(l) == l && IsBullet(l) && !IsSection(l) && !IsTitle(l) && StripCr(l) == l && NewlineFree(l)
  {
    var l := FieldLine(f);
    LabelShape(f.key);
    assert l[0] == '-' && l[|l| - 1] == f.value[|f.value| - 1];
    TrimTrimmed(l);
    assert "- **" <= l by { assert l[..4] == Label(f.key)[..4]; }
  }

  lemma FieldLineAbsorbed(f: Field, m: Meta)
    requires f.value != "" && CleanValue(f.value)
    ensures Absorb(FieldLine(f), m) == With(m, f.key, f.value)
  {
    Assoc(Label(f.key), " ", f.value);
    Parts(Label(f.key), " " + f.value);
    KeyOfLabel(f.key, " " + f.value);
    TrimPadded(" ", f.value, "");
    EmptyParts(" " + f.value);
  }

  /** A block line is trimmed, carries its field, and opens no title or section. */
  lemma FieldLineRead(f: Field, m: Meta)
    requires f.value != "" && CleanValue(f.value)
    ensures var l := FieldLine(f);
      && Trim(l) == l && IsBullet(l) && !IsSection(l) && !IsTitle(l) && StripCr(l) == l
      && NewlineFree(l) && Absorb(l, m) == With(m, f.key, f.value)
  {
    FieldLineShape(f);
    FieldLineAbsorbed(f, m);
  }

  function SetAll(m: Meta, fs: seq<Field>): Meta
    decreases fs
  {
    if fs == [] then m else SetAll(With(m, fs[0].key, fs[0].value), fs[1..])
  }

  lemma TwoFields(m: Meta, a: Field, b: Field)
    ensures SetAll(m, [a, b]) == With(With(m, a.key, a.value), b.key, b.value)
    ensures CleanFields([a, b]) <==> CleanFields([a]) && CleanFields([b])
  {
    assert [a, b] == [a] + [b];
    SetAllConcat(m, [a], [b]);
    CleanFieldsConcat([a], [b]);
  }

  lemma ThreeFields(m: Meta, a: Field, b: Field, c: Field)
    ensures SetAll(m, [a, b, c]) == SetAll(With(m, a.key, a.value), [b, c])
    ensures CleanFields([a, b, c]) <==> CleanFields([a]) && CleanFields([b, c])
  {
    assert [a, b, c] == [a] + [b, c];
    SetAllConcat(m, [a], [b, c]);
    CleanFieldsConcat([a], [b, c]);
  }

  lemma FieldsClean(m: Meta)
    requires CleanMeta(m)
    ensures CleanFields(Fields(m))
  {
    var a := [Field(TaskId, Placeholder(m.taskId)), Field(TaskName, Placeholder(m.taskName))];
    var b := [Field(Created, Placeholder(m.created)), Field(Repo, Placeholder(m.repo)),
              Field(SourceRepo, Placeholder(m.sourceRepo))];
    TwoFields(NO_META, a[0], a[1]);
    ThreeFields(NO_META, b[0], b[1], b[2]);
    TwoFields(NO_META, b[1], b[2]);
    CleanFour(a, Optional(ParentPlan, m.parentPlan), Optional(ConcernIndex, m.concernIndex), b);
  }

  lemma CleanFour(a: seq<Field>, b: seq<Field>, c: seq<Field>, d: seq<Field>)
    requires CleanFields(a) && CleanFields(b) && CleanFields(c) && CleanFields(d)
    ensures CleanFields(a + b + c + d)
  {
    CleanFieldsConcat(a, b);
    CleanFieldsConcat(a + b, c);
    CleanFieldsConcat(a + b + c, d);
  }

  lemma {:induction false} CleanFieldsConcat(a: seq<Field>, b: seq<Field>)
    ensures CleanFields(a + b) <==> CleanFields(a) && CleanFields(b)
  {
    if a == [] {
      EmptyParts(b);
    } else {
      ConcatTail(a, b);
      CleanFieldsConcat(a[1..], b);
    }
  }

  lemma {:induction false} SetAllConcat(m: Meta, a: seq<Field>, b: seq<Field>)
    ensures SetAll(m, a + b) == SetAll(SetAll(m, a), b)
    decreases a
  {
    if a == [] {
      EmptyParts(b);
    } else {
      ConcatTail(a, b);
      SetAllConcat(With(m, a[0].key, a[0].value), a[1..], b);
    }
  }

  /** Setting every listed field gives the stamped metadata, from nothing or once more. */
  lemma SetAllFields(m: Meta, start: Meta)
    requires start == NO_META || start == Stamped(m)
    ensures SetAll(start, Fields(m)) == Stamped(m)
  {
    var a := [Field(TaskId, Placeholder(m.taskId)), Field(TaskName, Placeholder(m.taskName))];
    var b := [Field(Created, Placeholder(m.created)), Field(Repo, Placeholder(m.repo)),
              Field(SourceRepo, Placeholder(m.sourceRepo))];
    var p, c := Optional(ParentPlan, m.parentPlan), Optional(ConcernIndex, m.concernIndex);
    var mid := SetAll(start, a + p + c);
    TwoFields(start, a[0], a[1]);
    ThreeFields(mid, b[0], b[1], b[2]);
    TwoFields(With(mid, b[0].key, b[0].value), b[1], b[2]);
    SetAllConcat(start, a + p + c, b);
    SetAllConcat(start, a + p, c);
    SetAllConcat(start, a, p);
  }

  lemma {:induction false} BlockParsed(fs: seq<Field>, rest: seq<string>, m: Meta)
    requires CleanFields(fs)
    ensures ParsedFrom(FieldLines(fs) + rest, m) == ParsedFrom(rest, SetAll(m, fs))
  {
    if fs == [] {
      EmptyParts(rest);
    } else {
      FieldLineRead(fs[0], m);
      ConcatTail(FieldLines(fs), rest);
      Cons(FieldLine(fs[0]), FieldLines(fs[1..]));
      BlockParsed(fs[1..], rest, With(m, fs[0].key, fs[0].value));
    }
  }

  lemma LabelIsBullet(k: Key, t: string)
    requires Label(k) <= t
    ensures IsBullet(t)
  {
    LabelShape(k);
    assert t[..4] == Label(k)[..4];
  }

  lemma NotBulletNoKey(t: string)
    requires !IsBullet(t)
    ensures KeyOf(t) == None
  {
    forall k: Key | Label(k) <= t
      ensures false
    {
      LabelIsBullet(k, t);
    }
  }

  lemma ParsedCons(l: string, rest: seq<string>, m: Meta)
    requires !IsSection(Trim(l)) && !IsBullet(Trim(l))
    ensures ParsedFrom([l] + rest, m) == ParsedFrom(rest, m)
  {
    Cons(l, rest);
    NotBulletNoKey(Trim(l));
  }

  lemma TitleIsNoBullet(t: string)
    requires IsTitle(t) || IsSection(t)
    ensures t != "" && t[0] == '#' && !IsBullet(t)
  {
    var first := if IsTitle(t) then "# " else "## ";
    assert first <= t && first[0] == '#';
    BulletHead(t);
  }

  lemma BulletHead(t: string)
    ensures IsBullet(t) ==> t != "" && t[0] == '-'
  {
    assert "- **"[0] == '-';
  }

  lemma {:induction false} RewrittenParsed(ls: seq<string>, m: Meta, wrote: bool)
    requires CleanMeta(m) && (wrote || HasHeading(ls))
    ensures ParsedFrom(RewrittenFrom(ls, m, wrote), if wrote then Stamped(m) else NO_META) == Stamped(m)
  {
    var start := if wrote then Stamped(m) else NO_META;
    if ls != [] {
      FieldsClean(m);
      SetAllFields(m, start);
      var t := Trim(ls[0]);
      if IsSection(t) {
        TitleIsNoBullet(t);
        NotBulletNoKey(t);
        EmptyParts(ls);
        Assoc(Block(m), [""], ls);
        BlockParsed(Fields(m), [""] + ls, start);
        ParsedCons("", ls, Stamped(m));
      } else if IsTitle(t) {
        TitleIsNoBullet(t);
        var more := RewrittenFrom(ls[1..], m, true);
        Assoc([ls[0]] + [""], Block(m), more);
        Assoc([ls[0]], [""], Block(m) + more);
        ParsedCons(ls[0], [""] + (Block(m) + more), start);
        ParsedCons("", Block(m) + more, start);
        BlockParsed(Fields(m), more, start);
        RewrittenParsed(ls[1..], m, true);
      } else {
        RewrittenParsed(ls[1..], m, wrote);
        if wrote && !IsBullet(t) {
          ParsedCons(ls[0], RewrittenFrom(ls[1..], m, wrote), start);
        }
      }
    }
  }

  lemma {:induction false} ParsedStripCrs(ls: seq<string>, m: Meta)
    ensures ParsedFrom(StripCrs(ls), m) == ParsedFrom(ls, m)
  {
    if ls != [] {
      TrimStripCr(ls[0]);
      Cons(StripCr(ls[0]), StripCrs(ls[1..]));
      ParsedStripCrs(ls[1..], Absorb(Trim(ls[0]), m));
    }
  }

  lemma {:induction false} FieldLinesClean(fs: seq<Field>)
    requires CleanFields(fs)
    ensures AllNewlineFree(FieldLines(fs)) && StripCrs(FieldLines(fs)) == FieldLines(fs)
  {
    if fs != [] {
      FieldLineRead(fs[0], NO_META);
      Cons(FieldLine(fs[0]), FieldLines(fs[1..]));
      FieldLinesClean(fs[1..]);
    }
  }

  lemma BlockClean(m: Meta)
    requires CleanMeta(m)
    ensures AllNewlineFree(Block(m)) && StripCrs(Block(m)) == Block(m)
  {
    FieldsClean(m);
    FieldLinesClean(Fields(m));
  }

  lemma NewlineFreeAround(l: string, block: seq<string>, rest: seq<string>)
    requires NewlineFree(l) && AllNewlineFree(block) && AllNewlineFree(rest)
    ensures AllNewlineFree(([l] + [""]) + block + rest) && AllNewlineFree(block + [""] + rest)
  {
    AllNewlineFreeConcat([l], [""]);
    AllNewlineFreeConcat([l] + [""], block);
    AllNewlineFreeConcat([l] + [""] + block, rest);
    AllNewlineFreeConcat(block, [""]);
    AllNewlineFreeConcat(block + [""], rest);
  }

  lemma {:induction false} RewrittenNewlineFree(ls: seq<string>, m: Meta, wrote: bool)
    requires CleanMeta(m) && AllNewlineFree(ls)
    ensures AllNewlineFree(RewrittenFrom(ls, m, wrote))
  {
    if ls != [] {
      BlockClean(m);
      var t := Trim(ls[0]);
      if IsSection(t) {
        EmptyParts(ls);
        NewlineFreeAround("", Block(m), ls);
      } else if IsTitle(t) {
        RewrittenNewlineFree(ls[1..], m, true);
        NewlineFreeAround(ls[0], Block(m), RewrittenFrom(ls[1..], m, true));
      } else {
        RewrittenNewlineFree(ls[1..], m, wrote);
        Cons(ls[0], RewrittenFrom(ls[1..], m, wrote));
      }
    }
  }

  /** The lines of a rewritten document that has a heading. */
  lemma RewrittenLines(markdown: string, m: Meta)
    requires CleanMeta(m) && HasHeading(Lines(markdown))
    ensures Lines(Rewritten(markdown, m)) == StripCrs(RewrittenFrom(Lines(markdown), m, false))
  {
    LinesNewlineFree(markdown);
    RewrittenNewlineFree(Lines(markdown), m, false);
    LinesOfUnlines(RewrittenFrom(Lines(markdown), m, false));
  }

  /** Reading the metadata of a rewritten document gives the values written. */
  lemma ReadBack(markdown: string, m: Meta)
    requires CleanMeta(m) && HasHeading(Lines(markdown))
    ensures Parsed(Rewritten(markdown, m)) == Stamped(m)
  {
    RewrittenLines(markdown, m);
    RewrittenParsed(Lines(markdown), m, false);
    ParsedStripCrs(RewrittenFrom(Lines(markdown), m, false), NO_META);
  }

  /* ---- Rewriting twice ---- */

  lemma {:induction false} BlockSkipped(fs: seq<Field>, rest: seq<string>, b: Meta, wrote: bool)
    requires CleanFields(fs)
    ensures RewrittenFrom(FieldLines(fs) + rest, b, wrote) == RewrittenFrom(rest, b, wrote)
    decreases fs
  {
    if fs == [] {
      EmptyParts(rest);
    } else {
      FieldLineRead(fs[0], NO_META);
      ConcatTail(FieldLines(fs), rest);
      Cons(FieldLine(fs[0]), FieldLines(fs[1..]));
      BlockSkipped(fs[1..], rest, b, wrote);
    }
  }

  lemma RewrittenCons(l: string, rest: seq<string>, b: Meta, wrote: bool)
    ensures l == "" ==> RewrittenFrom([l] + rest, b, wrote) == RewrittenFrom(rest, b, wrote)
    ensures !IsSection(Trim(l)) && IsTitle(Trim(l)) ==>
      RewrittenFrom([l] + rest, b, wrote) == ([l] + [""]) + Block(b) + RewrittenFrom(rest, b, true)
    ensures !IsSection(Trim(l)) && !IsTitle(Trim(l)) && !IsBullet(Trim(l)) && Trim(l) != "" && wrote ==>
      RewrittenFrom([l] + rest, b, wrote) == [l] + RewrittenFrom(rest, b, wrote)
  {
    Cons(l, rest);
    TrimTrimmed("");
  }

  /** On lines, a second rewrite is a rewrite of the original with the second values. */
  lemma {:induction false} RewrittenTwice(ls: seq<string>, a: Meta, b: Meta, wrote: bool)
    requires CleanMeta(a)
    ensures RewrittenFrom(RewrittenFrom(ls, a, wrote), b, wrote) == RewrittenFrom(ls, b, wrote)
  {
    if ls != [] {
      FieldsClean(a);
      var t := Trim(ls[0]);
      var more := RewrittenFrom(ls[1..], a, if IsTitle(t) then true else wrote);
      if IsSection(t) {
        if wrote {
          EmptyParts(ls);
        } else {
          Assoc(Block(a), [""], ls);
          BlockSkipped(Fields(a), [""] + ls, b, false);
          RewrittenCons("", ls, b, false);
        }
      } else if IsTitle(t) {
        Assoc([ls[0]] + [""], Block(a), more);
        Assoc([ls[0]], [""], Block(a) + more);
        RewrittenCons(ls[0], [""] + (Block(a) + more), b, wrote);
        RewrittenCons("", Block(a) + more, b, true);
        BlockSkipped(Fields(a), more, b, true);
        RewrittenTwice(ls[1..], a, b, true);
      } else {
        RewrittenTwice(ls[1..], a, b, wrote);
        if wrote && !IsBullet(t) && t != "" {
          RewrittenCons(ls[0], more, b, wrote);
        }
      }
    }
  }

  lemma StripCrsAround(front: seq<string>, block: seq<string>, rest: seq<string>)
    requires StripCrs(block) == block
    ensures StripCrs(front + block + rest) == StripCrs(front) + block + StripCrs(rest)
    ensures StripCrs(block + front + rest) == block + StripCrs(front) + StripCrs(rest)
  {
    StripCrsConcat(front + block, rest);
    StripCrsConcat(front, block);
    StripCrsConcat(block + front, rest);
    StripCrsConcat(block, front);
  }

  lemma StripCrsTitle(l: string)
    ensures StripCrs([l] + [""]) == [StripCr(l)] + [""]
    ensures StripCrs([""]) == [""]
  {
    StripCrsConcat([l], [""]);
  }

  /** Dropping stray carriage returns commutes with rewriting. */
  lemma {:induction false} RewrittenStripCrs(ls: seq<string>, b: Meta, wrote: bool)
    requires CleanMeta(b)
    ensures RewrittenFrom(StripCrs(ls), b, wrote) == StripCrs(RewrittenFrom(ls, b, wrote))
  {
    if ls != [] {
      TrimStripCr(ls[0]);
      Cons(StripCr(ls[0]), StripCrs(ls[1..]));
      BlockClean(b);
      StripCrsTitle(ls[0]);
      var t := Trim(ls[0]);
      if IsSection(t) {
        if wrote {
          EmptyParts(StripCrs(ls));
          EmptyParts(ls);
        } else {
          StripCrsAround([""], Block(b), ls);
        }
      } else if IsTitle(t) {
        RewrittenStripCrs(ls[1..], b, true);
        StripCrsAround([ls[0]] + [""], Block(b), RewrittenFrom(ls[1..], b, true));
      } else {
        RewrittenStripCrs(ls[1..], b, wrote);
        Cons(ls[0], RewrittenFrom(ls[1..], b, wrote));
      }
    }
  }

  lemma {:induction false} HasHeadingRewritten(ls: seq<string>, a: Meta, wrote: bool)
    requires CleanMeta(a) && HasHeading(ls)
    ensures HasHeading(StripCrs(RewrittenFrom(ls, a, wrote)))
  {
    var t := Trim(ls[0]);
    if IsSection(t) {
      EmptyParts(ls);
      StripCrsConcat(Block(a) + [""], ls);
      TrimStripCr(ls[0]);
      HasHeadingConcat(StripCrs(Block(a) + [""]), StripCrs(ls));
    } else if IsTitle(t) {
      var more := Block(a) + RewrittenFrom(ls[1..], a, true);
      Assoc([ls[0]] + [""], Block(a), RewrittenFrom(ls[1..], a, true));
      Assoc([ls[0]], [""], more);
      Cons(ls[0], [""] + more);
      TrimStripCr(ls[0]);
    } else {
      HasHeadingRewritten(ls[1..], a, wrote);
      Cons(ls[0], RewrittenFrom(ls[1..], a, wrote));
      Cons(StripCr(ls[0]), StripCrs(RewrittenFrom(ls[1..], a, wrote)));
    }
  }

  lemma {:induction false} HasHeadingConcat(a: seq<string>, b: seq<string>)
    requires HasHeading(b)
    ensures HasHeading(a + b)
  {
    if a == [] {
      EmptyParts(b);
    } else {
      ConcatTail(a, b);
      HasHeadingConcat(a[1..], b);
    }
  }

  function LengthOf(ls: seq<string>): nat {
    if ls == [] then 0 else |ls[0]| + 1 + LengthOf(ls[1..])
  }

  lemma {:induction false} UnlinesLength(ls: seq<string>)
    ensures |Unlines(ls)| == LengthOf(ls)
  {
    if ls != [] { UnlinesLength(ls[1..]); }
  }

  lemma {:induction false} StripCrsShorter(ls: seq<string>)
    ensures LengthOf(StripCrs(ls)) <= LengthOf(ls)
    ensures LengthOf(StripCrs(ls)) == LengthOf(ls) ==> StripCrs(ls) == ls
  {
    if ls != [] {
      Cons(StripCr(ls[0]), StripCrs(ls[1..]));
      StripCrsShorter(ls[1..]);
      HeadTail(ls);
    }
  }

  /**
   * The lines of the original that a rewrite copies: titles, header text after a title, and everything from
   * the first section on.
   */
  function KeptFrom(ls: seq<string>, wrote: bool): seq<string> {
    if ls == [] then []
    else
      var t := Trim(ls[0]);
      if IsSection(t) then ls
      else if IsTitle(t) then [ls[0]] + KeptFrom(ls[1..], true)
      else if IsBullet(t) || t == "" || !wrote then KeptFrom(ls[1..], wrote)
      else [ls[0]] + KeptFrom(ls[1..], wrote)
  }

  lemma {:induction false} StripCrsFixed(ls: seq<string>)
    ensures StripCrs(ls) == ls <==> forall l | l in ls :: StripCr(l) == l
  {
    if ls != [] {
      HeadTail(ls);
      Cons(StripCr(ls[0]), StripCrs(ls[1..]));
      StripCrsFixed(ls[1..]);
      FirstIn(ls);
    }
  }

  lemma StripCrsParts(a: seq<string>, b: seq<string>)
    ensures StripCrs(a + b) == a + b <==> StripCrs(a) == a && StripCrs(b) == b
  {
    StripCrsConcat(a, b);
    StripCrsLength(a);
    Parts(a, b);
    Parts(StripCrs(a), StripCrs(b));
  }

  lemma {:induction false} StripCrsLength(ls: seq<string>)
    ensures |StripCrs(ls)| == |ls|
  {
    if ls != [] { StripCrsLength(ls[1..]); }
  }

  /** A block in the middle plays no part. */
  lemma StripCrsMiddle(front: seq<string>, block: seq<string>, rest: seq<string>)
    requires StripCrs(block) == block
    ensures StripCrs(front + block + rest) == front + block + rest
      <==> StripCrs(front) == front && StripCrs(rest) == rest
    ensures StripCrs(front) == front ==>
              (StripCrs(block + front + rest) == block + front + rest <==> StripCrs(rest) == rest)
  {
    StripCrsParts(front + block, rest);
    StripCrsParts(front, block);
    StripCrsParts(block + front, rest);
    StripCrsParts(block, front);
  }

  lemma StripCrsOne(l: string)
    ensures StripCrs([l] + [""]) == [l] + [""] <==> StripCrs([l]) == [l]
    ensures StripCrs([""]) == [""]
  {
    StripCrsParts([l], [""]);
  }

  /** A rewrite leaves stray carriage returns exactly where a kept line has one. */
  lemma {:induction false} KeptDecides(ls: seq<string>, b: Meta, wrote: bool)
    requires CleanMeta(b)
    ensures StripCrs(RewrittenFrom(ls, b, wrote)) == RewrittenFrom(ls, b, wrote)
      <==> StripCrs(KeptFrom(ls, wrote)) == KeptFrom(ls, wrote)
  {
    if ls != [] {
      BlockClean(b);
      var t := Trim(ls[0]);
      StripCrsOne(ls[0]);
      if IsSection(t) {
        EmptyParts(ls);
        StripCrsMiddle([""], Block(b), ls);
      } else if IsTitle(t) {
        KeptDecides(ls[1..], b, true);
        StripCrsMiddle([ls[0]] + [""], Block(b), RewrittenFrom(ls[1..], b, true));
        StripCrsParts([ls[0]], KeptFrom(ls[1..], true));
      } else {
        KeptDecides(ls[1..], b, wrote);
        StripCrsParts([ls[0]], RewrittenFrom(ls[1..], b, wrote));
        StripCrsParts([ls[0]], KeptFrom(ls[1..], wrote));
      }
    }
  }

  /**
   * A second rewrite equals rewriting the original with the second values exactly when no kept line still
   * ends in a carriage return (one written before a CRLF); each pass takes one such off.
   */
  lemma RewriteTwice(markdown: string, a: Meta, b: Meta)
    requires CleanMeta(a) && CleanMeta(b) && HasHeading(Lines(markdown))
    ensures Rewritten(Rewritten(markdown, a), b) == Unlines(StripCrs(RewrittenFrom(Lines(markdown), b, false)))
    ensures Rewritten(Rewritten(markdown, a), b) == Rewritten(markdown, b)
      <==> forall l | l in KeptFrom(Lines(markdown), false) :: StripCr(l) == l
  {
    var ls := Lines(markdown);
    var once := RewrittenFrom(ls, b, false);
    RewrittenLines(markdown, a);
    HasHeadingRewritten(ls, a, false);
    RewrittenStripCrs(RewrittenFrom(ls, a, false), b, false);
    RewrittenTwice(ls, a, b, false);
    UnlinesLength(once);
    UnlinesLength(StripCrs(once));
    StripCrsShorter(once);
    KeptDecides(ls, b, false);
    StripCrsFixed(KeptFrom(ls, false));
  }

  /* ---- Sections ---- */

  /** Lines after the first one that reads as the heading, up to the next section. */
  function SectionLines(ls: seq<string>, heading: string): seq<string> {
    if ls == [] then []
    else if Trim(ls[0]) == "## " + heading then Body(ls[1..])
    else SectionLines(ls[1..], heading)
  }

  function Body(ls: seq<string>): seq<string> {
    if ls == [] || "## " <= ls[0] then [] else [ls[0]] + Body(ls[1..])
  }

  predicate HasLine(ls: seq<string>, t: string) {
    ls != [] && (Trim(ls[0]) == t || HasLine(ls[1..], t))
  }

  /** The section of a heading line: the first such line, and the next line that begins a section, or the end. */
  ghost predicate SectionAt(ls: seq<string>, t: string, i: nat, j: nat) {
    && i < j <= |ls| && Trim(ls[i]) == t
    && (forall k | 0 <= k < i :: Trim(ls[k]) != t)
    && (forall k | i < k < j :: !("## " <= ls[k]))
    && (j == |ls| || "## " <= ls[j])
  }

  /** Some line reads as the heading line. */
  ghost predicate Stands(ls: seq<string>, t: string) {
    exists i :: 0 <= i < |ls| && Trim(ls[i]) == t
  }

  lemma {:induction false} LineStands(ls: seq<string>, t: string)
    ensures HasLine(ls, t) <==> Stands(ls, t)
  {
    if ls != [] {
      LineStands(ls[1..], t);
      if Stands(ls[1..], t) {
        var i :| 0 <= i < |ls[1..]| && Trim(ls[1..][i]) == t;
        assert Trim(ls[i + 1]) == t;
      }
      if Stands(ls, t) && Trim(ls[0]) != t {
        var i :| 0 <= i < |ls| && Trim(ls[i]) == t;
        assert Trim(ls[1..][i - 1]) == t;
      }
    }
  }

  lemma SectionShift(ls: seq<string>, t: string, i: nat, j: nat)
    requires ls != [] && Trim(ls[0]) != t && SectionAt(ls[1..], t, i, j)
    ensures SectionAt(ls, t, i + 1, j + 1) && ls[1..][i + 1..j] == ls[i + 2..j + 1]
  {
    assert forall k | 0 < k < |ls| :: ls[k] == ls[1..][k - 1];
  }

  /** A section, as the two recursions find it, is the lines after the first of those two. */
  lemma {:induction false} SectionFound(ls: seq<string>, heading: string) returns (i: nat, j: nat)
    requires HasLine(ls, "## " + heading)
    ensures SectionAt(ls, "## " + heading, i, j) && SectionLines(ls, heading) == ls[i + 1..j]
  {
    if Trim(ls[0]) == "## " + heading {
      var n := BodyFound(ls[1..]);
      i, j := 0, n + 1;
      SectionHere(ls, "## " + heading, n);
    } else {
      i, j := SectionFound(ls[1..], heading);
      SectionShift(ls, "## " + heading, i, j);
      i, j := i + 1, j + 1;
    }
  }

  lemma SectionHere(ls: seq<string>, t: string, n: nat)
    requires ls != [] && Trim(ls[0]) == t && n <= |ls[1..]|
    requires (forall k | 0 <= k < n :: !("## " <= ls[1..][k])) && (n == |ls[1..]| || "## " <= ls[1..][n])
    ensures SectionAt(ls, t, 0, n + 1) && ls[1..][..n] == ls[1..n + 1]
  {
    assert forall k | 0 < k < |ls| :: ls[k] == ls[1..][k - 1];
  }

  lemma {:induction false} NoSection(ls: seq<string>, heading: string)
    requires !HasLine(ls, "## " + heading)
    ensures SectionLines(ls, heading) == []
  {
    if ls != [] { NoSection(ls[1..], heading); }
  }

  lemma {:induction false} BodyFound(ls: seq<string>) returns (n: nat)
    ensures n <= |ls| && Body(ls) == ls[..n]
    ensures forall k | 0 <= k < n :: !("## " <= ls[k])
    ensures n == |ls| || "## " <= ls[n]
  {
    if ls == [] || "## " <= ls[0] {
      n := 0;
    } else {
      var m := BodyFound(ls[1..]);
      n := m + 1;
      assert ls[..n] == [ls[0]] + ls[1..][..m];
      assert forall k | 0 < k < |ls| :: ls[k] == ls[1..][k - 1];
    }
  }

  lemma UnlinesSnoc(ls: seq<string>, from: nat, i: nat)
    requires from <= i < |ls|
    ensures Unlines(ls[from..i + 1]) == Unlines(ls[from..i]) + (ls[i] + ['\n'])
  {
    assert ls[from..i + 1] == ls[from..i] + [ls[i]];
    UnlinesConcat(ls[from..i], [ls[i]]);
    EmptyParts(ls[i] + ['\n']);
  }

  /** The text from the first line that reads as the heading up to the next section; empty without such a line. */
  method SectionBody(markdown: string, heading: string) returns (body: string)
    ensures body == Unlines(SectionLines(Lines(markdown), heading))
    ensures forall i: nat, j: nat | SectionAt(Lines(markdown), "## " + heading, i, j) ::
              body == Unlines(Lines(markdown)[i + 1..j])
    ensures !Stands(Lines(markdown), "## " + heading) ==> body == ""
  {
    var lines := Lines(markdown);
    ghost var t := "## " + heading;
    var i := 0;
    while i < |lines| && Trim(lines[i]) != "## " + heading
      invariant i <= |lines| && forall k | 0 <= k < i :: Trim(lines[k]) != t
    {
      i := i + 1;
    }
    body := "";
    if i < |lines| {
      ghost var start := i;
      i := i + 1;
      while i < |lines| && !("## " <= lines[i])
        invariant start < i <= |lines| && body == Unlines(lines[start + 1..i])
        invariant forall k | start < k < i :: !("## " <= lines[k])
      {
        UnlinesSnoc(lines, start + 1, i);
        body := body + (lines[i] + ['\n']);
        i := i + 1;
      }
      OneSection(lines, heading, start, i);
    } else {
      LineStands(lines, t);
      NoSection(lines, heading);
    }
    forall a: nat, b: nat | SectionAt(lines, t, a, b)
      ensures body == Unlines(lines[a + 1..b])
    {
      OneSection(lines, heading, a, b);
    }
  }

  lemma OneSection(ls: seq<string>, heading: string, i: nat, j: nat)
    requires SectionAt(ls, "## " + heading, i, j)
    ensures SectionLines(ls, heading) == ls[i + 1..j]
  {
    LineStands(ls, "## " + heading);
    var a, b := SectionFound(ls, heading);
    SameSection(ls, "## " + heading, i, j, a, b);
  }

  /** A heading has one section. */
  lemma SameSection(ls: seq<string>, t: string, i: nat, j: nat, a: nat, b: nat)
    requires SectionAt(ls, t, i, j) && SectionAt(ls, t, a, b)
    ensures a == i && b == j
  {}

  function FirstMissing(ls: seq<string>, hs: seq<string>): Option<Problem> {
    if hs == [] then None
    else if !HasLine(ls, "## " + hs[0]) then Some(MissingHeading(hs[0]))
    else FirstMissing(ls, hs[1..])
  }

  predicate BlankSection(ls: seq<string>, heading: string) {
    Trim(Unlines(SectionLines(ls, heading))) == ""
  }

  /** `validate_markdown`: the first problem it reports, if any. */
  function Verdict(ls: seq<string>): Option<Problem> {
    var missing := FirstMissing(ls, REQUIRED_HEADINGS);
    if missing.Some? then missing
    else if BlankSection(ls, "Goal") then Some(EmptyGoal)
    else if BlankSection(ls, "Success criteria") then Some(EmptySuccessCriteria)
    else None
  }

  function Validate(markdown: string): Option<Problem> {
    Verdict(Lines(markdown))
  }

  /** The section of the heading line has a line with text. */
  ghost predicate Filled(ls: seq<string>, t: string) {
    exists i: nat, j: nat, k: nat :: SectionAt(ls, t, i, j) && i < k < j && Trim(ls[k]) != ""
  }

  /** The first of the headings that is missing. */
  lemma {:induction false} MissingIs(ls: seq<string>, hs: seq<string>) returns (n: nat)
    ensures n <= |hs| && forall m | 0 <= m < n :: Stands(ls, "## " + hs[m])
    ensures FirstMissing(ls, hs) == if n < |hs| then Some(MissingHeading(hs[n])) else None
    ensures n < |hs| ==> !Stands(ls, "## " + hs[n])
  {
    n := 0;
    if hs != [] {
      LineStands(ls, "## " + hs[0]);
      if Stands(ls, "## " + hs[0]) {
        var k := MissingIs(ls, hs[1..]);
        n := k + 1;
        assert forall m | 0 < m < |hs| :: hs[m] == hs[1..][m - 1];
      }
    }
  }

  lemma {:induction false} BlankLines(ls: seq<string>)
    ensures AllSpace(Unlines(ls)) <==> forall k | 0 <= k < |ls| :: Trim(ls[k]) == ""
  {
    if ls != [] {
      BlankLines(ls[1..]);
      AllSpaceConcat(ls[0] + ['\n'], Unlines(ls[1..]));
      AllSpaceConcat(ls[0], ['\n']);
      TrimEmpty(ls[0]);
      assert forall k | 0 < k < |ls| :: ls[k] == ls[1..][k - 1];
      assert forall k | 0 <= k < |ls| - 1 :: ls[1..][k] == ls[k + 1];
    }
  }

  lemma FilledIs(ls: seq<string>, heading: string)
    requires Stands(ls, "## " + heading)
    ensures Filled(ls, "## " + heading) <==> !BlankSection(ls, heading)
  {
    var t := "## " + heading;
    LineStands(ls, t);
    var i, j := SectionFound(ls, heading);
    var body := ls[i + 1..j];
    BlankLines(body);
    TrimEmpty(Unlines(body));
    if Filled(ls, t) {
      var a: nat, b: nat, k: nat :| SectionAt(ls, t, a, b) && a < k < b && Trim(ls[k]) != "";
      SameSection(ls, t, i, j, a, b);
      assert body[k - i - 1] == ls[k];
    }
    if !BlankSection(ls, heading) {
      var k :| 0 <= k < |body| && Trim(body[k]) != "";
      assert ls[i + 1 + k] == body[k];
      assert i < i + 1 + k < j;
    }
  }

  /** The verdict: the first heading missing, the `n`-th, else a goal without text, else criteria without. */
  lemma VerdictMeans(markdown: string) returns (n: nat)
    ensures n <= |REQUIRED_HEADINGS|
    ensures forall m | 0 <= m < n :: Stands(Lines(markdown), "## " + REQUIRED_HEADINGS[m])
    ensures n < |REQUIRED_HEADINGS| ==> !Stands(Lines(markdown), "## " + REQUIRED_HEADINGS[n])
    ensures Validate(markdown) ==
      if n < |REQUIRED_HEADINGS| then Some(MissingHeading(REQUIRED_HEADINGS[n]))
      else if !Filled(Lines(markdown), "## " + "Goal") then Some(EmptyGoal)
      else if !Filled(Lines(markdown), "## " + "Success criteria") then Some(EmptySuccessCriteria)
      else None
  {
    var ls := Lines(markdown);
    n := MissingIs(ls, REQUIRED_HEADINGS);
    if n == |REQUIRED_HEADINGS| {
      assert REQUIRED_HEADINGS[0] == "Goal" && REQUIRED_HEADINGS[3] == "Success criteria";
      FilledIs(ls, "Goal");
      FilledIs(ls, "Success criteria");
    }
  }

  /** A document is valid exactly if each of the five headings stands in it and two sections have text. */
  lemma ValidMeans(markdown: string)
    ensures var ls := Lines(markdown);
      Validate(markdown) == None <==>
        && Stands(ls, "## " + "Goal") && Stands(ls, "## " + "Scope") && Stands(ls, "## " + "Out of scope")
        && Stands(ls, "## " + "Success criteria") && Stands(ls, "## " + "Constraints")
        && Filled(ls, "## " + "Goal") && Filled(ls, "## " + "Success criteria")
  {
    var n := VerdictMeans(markdown);
    var hs := REQUIRED_HEADINGS;
    assert hs[0] == "Goal" && hs[1] == "Scope" && hs[2] == "Out of scope" && hs[3] == "Success criteria";
    assert hs[4] == "Constraints" && |hs| == 5;
  }

  /** From the first section line on. */
  function Sections(ls: seq<string>): seq<string> {
    if ls == [] || IsSection(Trim(ls[0])) then ls else Sections(ls[1..])
  }

  lemma {:induction false} SectionsPast(front: seq<Field>, rest: seq<string>)
    requires CleanFields(front)
    ensures Sections(FieldLines(front) + rest) == Sections(rest)
    decreases front
  {
    if front == [] {
      EmptyParts(rest);
    } else {
      FieldLineRead(front[0], NO_META);
      ConcatTail(FieldLines(front), rest);
      Cons(FieldLine(front[0]), FieldLines(front[1..]));
      SectionsPast(front[1..], rest);
    }
  }

  lemma SectionsCons(l: string, rest: seq<string>)
    requires !IsSection(Trim(l))
    ensures Sections([l] + rest) == Sections(rest)
  {
    Cons(l, rest);
  }

  /** Rewriting leaves everything from the first section on alone. */
  lemma {:induction false} SectionsRewritten(ls: seq<string>, m: Meta, wrote: bool)
    requires CleanMeta(m)
    ensures Sections(RewrittenFrom(ls, m, wrote)) == Sections(ls)
  {
    if ls != [] {
      FieldsClean(m);
      TrimTrimmed("");
      var t := Trim(ls[0]);
      if IsSection(t) {
        EmptyParts(ls);
        Assoc(Block(m), [""], ls);
        SectionsPast(Fields(m), [""] + ls);
        SectionsCons("", ls);
      } else if IsTitle(t) {
        var more := RewrittenFrom(ls[1..], m, true);
        Assoc([ls[0]] + [""], Block(m), more);
        Assoc([ls[0]], [""], Block(m) + more);
        SectionsCons(ls[0], [""] + (Block(m) + more));
        SectionsCons("", Block(m) + more);
        SectionsPast(Fields(m), more);
        SectionsRewritten(ls[1..], m, true);
      } else {
        SectionsRewritten(ls[1..], m, wrote);
        if wrote && !IsBullet(t) && t != "" {
          SectionsCons(ls[0], RewrittenFrom(ls[1..], m, wrote));
        }
      }
    }
  }

  lemma NeedleIsSection(t: string, heading: string)
    requires t == "## " + heading
    ensures IsSection(t)
  {
    Parts("## ", heading);
  }

  lemma {:induction false} SectionsDecide(ls: seq<string>, heading: string)
    ensures SectionLines(Sections(ls), heading) == SectionLines(ls, heading)
    ensures HasLine(Sections(ls), "## " + heading) <==> HasLine(ls, "## " + heading)
  {
    if ls != [] && !IsSection(Trim(ls[0])) {
      if Trim(ls[0]) == "## " + heading { NeedleIsSection(Trim(ls[0]), heading); }
      SectionsDecide(ls[1..], heading);
    }
  }

  lemma {:induction false} BodyStripCrs(ls: seq<string>)
    ensures Body(StripCrs(ls)) == StripCrs(Body(ls))
  {
    if ls != [] {
      Cons(StripCr(ls[0]), StripCrs(ls[1..]));
      SectionPrefixStripCr(ls[0]);
      BodyStripCrs(ls[1..]);
      Cons(ls[0], Body(ls[1..]));
    }
  }

  lemma SectionPrefixStripCr(l: string)
    ensures "## " <= StripCr(l) <==> "## " <= l
  {
    if "## " <= l && StripCr(l) != l {
      assert l[2] == "## "[2];
      assert l[..3] == "## ";
      assert StripCr(l)[..3] == l[..3];
    }
  }

  /** Section bodies and headings do not depend on stray carriage returns. */
  lemma {:induction false} SectionsStripCrs(ls: seq<string>, heading: string)
    ensures SectionLines(StripCrs(ls), heading) == StripCrs(SectionLines(ls, heading))
    ensures HasLine(StripCrs(ls), "## " + heading) <==> HasLine(ls, "## " + heading)
  {
    if ls != [] {
      Cons(StripCr(ls[0]), StripCrs(ls[1..]));
      TrimStripCr(ls[0]);
      BodyStripCrs(ls[1..]);
      SectionsStripCrs(ls[1..], heading);
    }
  }

  lemma {:induction false} BlankStripCrs(ls: seq<string>)
    ensures AllSpace(Unlines(StripCrs(ls))) <==> AllSpace(Unlines(ls))
  {
    if ls != [] {
      var l, rest := ls[0], ls[1..];
      Cons(StripCr(l), StripCrs(rest));
      BlankStripCrs(rest);
      AllSpaceConcat(l + ['\n'], Unlines(rest));
      AllSpaceConcat(l, ['\n']);
      AllSpaceConcat(StripCr(l) + ['\n'], Unlines(StripCrs(rest)));
      AllSpaceConcat(StripCr(l), ['\n']);
      TrimStripCr(l);
      TrimEmpty(l);
      TrimEmpty(StripCr(l));
    }
  }

  lemma PrependedLines(markdown: string, m: Meta)
    requires CleanMeta(m)
    ensures Lines(Unlines(Block(m)) + ['\n'] + markdown) == Block(m) + ([""] + Lines(markdown))
  {
    BlockClean(m);
    Assoc(Unlines(Block(m)), ['\n'], markdown);
    LinesAfter(Block(m), ['\n'] + markdown);
    LinesCons("", markdown);
    EmptyParts(['\n']);
  }

  lemma {:induction false} LinesAfter(ls: seq<string>, rest: string)
    requires AllNewlineFree(ls)
    ensures Lines(Unlines(ls) + rest) == StripCrs(ls) + Lines(rest)
  {
    if ls == [] {
      EmptyParts(rest);
      EmptyParts(Lines(rest));
    } else {
      Assoc(ls[0] + ['\n'], Unlines(ls[1..]), rest);
      LinesCons(ls[0], Unlines(ls[1..]) + rest);
      LinesAfter(ls[1..], rest);
      Assoc([StripCr(ls[0])], StripCrs(ls[1..]), Lines(rest));
    }
  }

  /** The lines of any rewritten document have the original's sections, less stray carriage returns. */
  lemma RewrittenSections(markdown: string, m: Meta) returns (ls: seq<string>)
    requires CleanMeta(m)
    ensures Sections(ls) == Sections(Lines(markdown))
    ensures Lines(Rewritten(markdown, m)) == StripCrs(ls) || Lines(Rewritten(markdown, m)) == ls
    ensures Lines(Rewritten(markdown, m)) != StripCrs(ls) ==> !HasHeading(Lines(markdown))
  {
    if HasHeading(Lines(markdown)) {
      ls := RewrittenFrom(Lines(markdown), m, false);
      RewrittenLines(markdown, m);
      SectionsRewritten(Lines(markdown), m, false);
    } else {
      ls := Block(m) + ([""] + Lines(markdown));
      PrependedLines(markdown, m);
      FieldsClean(m);
      SectionsPast(Fields(m), [""] + Lines(markdown));
      TrimTrimmed("");
      SectionsCons("", Lines(markdown));
    }
  }

  lemma {:induction false} NoHeadingNoSections(ls: seq<string>, heading: string)
    requires !HasHeading(ls)
    ensures SectionLines(ls, heading) == []
  {
    if ls != [] {
      if Trim(ls[0]) == "## " + heading { NeedleIsSection(Trim(ls[0]), heading); }
      NoHeadingNoSections(ls[1..], heading);
    }
  }

  /** Every section body survives a rewrite, less stray carriage returns, and no heading is lost. */
  lemma SectionsKept(markdown: string, m: Meta, heading: string)
    requires CleanMeta(m)
    ensures var out := Lines(Rewritten(markdown, m));
      && SectionLines(out, heading) == StripCrs(SectionLines(Lines(markdown), heading))
      && (HasLine(out, "## " + heading) <==> HasLine(Lines(markdown), "## " + heading))
  {
    var ls := RewrittenSections(markdown, m);
    SectionsDecide(ls, heading);
    SectionsDecide(Lines(markdown), heading);
    if Lines(Rewritten(markdown, m)) == StripCrs(ls) {
      SectionsStripCrs(ls, heading);
    } else {
      NoHeadingNoSections(Lines(markdown), heading);
    }
  }

  lemma {:induction false} FirstMissingKept(markdown: string, m: Meta, hs: seq<string>)
    requires CleanMeta(m)
    ensures FirstMissing(Lines(Rewritten(markdown, m)), hs) == FirstMissing(Lines(markdown), hs)
  {
    if hs != [] {
      SectionsKept(markdown, m, hs[0]);
      FirstMissingKept(markdown, m, hs[1..]);
    }
  }

  lemma BlankKept(markdown: string, m: Meta, heading: string)
    requires CleanMeta(m)
    ensures BlankSection(Lines(Rewritten(markdown, m)), heading) <==> BlankSection(Lines(markdown), heading)
  {
    var body := SectionLines(Lines(markdown), heading);
    SectionsKept(markdown, m, heading);
    BlankStripCrs(body);
    TrimEmpty(Unlines(body));
    TrimEmpty(Unlines(StripCrs(body)));
  }

  /** Stamping metadata never changes the validation verdict, valid or not. */
  lemma VerdictKept(markdown: string, m: Meta)
    requires CleanMeta(m)
    ensures Validate(Rewritten(markdown, m)) == Validate(markdown)
  {
    FirstMissingKept(markdown, m, REQUIRED_HEADINGS);
    BlankKept(markdown, m, "Goal");
    BlankKept(markdown, m, "Success criteria");
  }

  /* ---- A valid document that a second rewrite changes ---- */

  lemma {:induction false} SectionIsHeading(ls: seq<string>, heading: string)
    requires HasLine(ls, "## " + heading)
    ensures HasHeading(ls)
  {
    if Trim(ls[0]) == "## " + heading {
      NeedleIsSection(Trim(ls[0]), heading);
    } else {
      SectionIsHeading(ls[1..], heading);
    }
  }

  /** For every valid document with a copied line that ends in a carriage return, the second rewrite differs. */
  lemma RewriteTwiceFails(markdown: string, l: string, a: Meta, b: Meta)
    requires CleanMeta(a) && CleanMeta(b) && Validate(markdown) == None
    requires l in KeptFrom(Lines(markdown), false) && StripCr(l) != l
    ensures Rewritten(Rewritten(markdown, a), b) != Rewritten(markdown, b)
  {
    assert REQUIRED_HEADINGS[0] == "Goal";
    SectionIsHeading(Lines(markdown), "Goal");
    RewriteTwice(markdown, a, b);
  }

  predicate PlainLine(l: string) {
    l != "" && Trimmed(l) && NewlineFree(l)
  }

  lemma PlainRead(l: string)
    requires PlainLine(l)
    ensures Trim(l) == l && StripCr(l) == l
  {
    TrimTrimmed(l);
  }

  lemma SectionStep(l: string, rest: seq<string>, heading: string)
    ensures SectionLines([l] + rest, heading)
         == if Trim(l) == "## " + heading then Body(rest) else SectionLines(rest, heading)
  {
    Cons(l, rest);
  }

  /** A section whose first line has text is not blank. */
  lemma TextIsNotBlank(l: string, rest: seq<string>)
    requires PlainLine(l) && !("## " <= l)
    ensures Trim(Unlines(Body([l] + rest))) != ""
  {
    Cons(l, rest);
    UnlinesCons(l, Body(rest));
    TrimEmpty(Unlines(Body([l] + rest)));
    AllSpaceConcat(l + ['\n'], Unlines(Body(rest)));
    AllSpaceConcat(l, ['\n']);
    PlainRead(l);
    TrimEmpty(l);
  }

  lemma {:induction false} LineAt(ls: seq<string>, i: nat, t: string)
    requires i < |ls| && Trim(ls[i]) == t
    ensures HasLine(ls, t)
  {
    if i > 0 { LineAt(ls[1..], i - 1, t); }
  }

  lemma Needle(h: string)
    requires PlainLine(h)
    ensures PlainLine("## " + h) && "## " <= "## " + h && Trim("## " + h) == "## " + h
  {
    var l := "## " + h;
    assert l[0] == '#' && l[|l| - 1] == h[|h| - 1];
    PlainRead(l);
  }

  /** Every heading line, some text below the first and the third, and a last line. */
  function Sample(g: string, t: string, c: string, s: string, o: string, last: string): seq<string> {
    ["## " + g] + ([t] + (["## " + c] + ([t] + (["## " + s] + (["## " + o] + [last])))))
  }

  lemma SampleLines(g: string, t: string, c: string, s: string, o: string, last: string)
    ensures var ls := Sample(g, t, c, s, o, last);
      && |ls| == 7 && ls[0] == "## " + g && ls[1] == ls[3] == t && ls[2] == "## " + c
      && ls[4] == "## " + s && ls[5] == "## " + o && ls[6] == last
  {}

  lemma SampleHeadings(g: string, t: string, c: string, s: string, o: string, last: string, k: string)
    requires PlainLine(g) && PlainLine(c) && PlainLine(s) && PlainLine(o) && Trim(last) == "## " + k
    ensures FirstMissing(Sample(g, t, c, s, o, last), [g] + ([s] + ([o] + ([c] + [k])))) == None
  {
    var ls := Sample(g, t, c, s, o, last);
    SampleLines(g, t, c, s, o, last);
    Needle(g);
    Needle(c);
    Needle(s);
    Needle(o);
    LineAt(ls, 0, "## " + g);
    LineAt(ls, 4, "## " + s);
    LineAt(ls, 5, "## " + o);
    LineAt(ls, 2, "## " + c);
    LineAt(ls, 6, "## " + k);
    Present(ls, k, []);
    EmptyParts([k]);
    Present(ls, c, [k]);
    Present(ls, o, [c] + [k]);
    Present(ls, s, [o] + ([c] + [k]));
    Present(ls, g, [s] + ([o] + ([c] + [k])));
  }

  lemma Present(ls: seq<string>, h: string, hs: seq<string>)
    requires HasLine(ls, "## " + h)
    ensures FirstMissing(ls, [h] + hs) == FirstMissing(ls, hs)
  {
    Cons(h, hs);
  }

  lemma SampleSections(g: string, t: string, c: string, s: string, o: string, last: string)
    requires PlainLine(g) && PlainLine(t) && PlainLine(c) && g != c && !("## " <= t)
    ensures !BlankSection(Sample(g, t, c, s, o, last), g) && !BlankSection(Sample(g, t, c, s, o, last), c)
  {
    var tail := ["## " + s] + (["## " + o] + [last]);
    var below := ["## " + c] + ([t] + tail);
    Needle(g);
    Needle(c);
    PlainRead(t);
    Parts("## ", g);
    Parts("## ", c);
    SectionStep("## " + g, [t] + below, g);
    TextIsNotBlank(t, below);
    SectionStep("## " + g, [t] + below, c);
    SectionStep(t, below, c);
    SectionStep("## " + c, [t] + tail, c);
    TextIsNotBlank(t, tail);
  }

  lemma {:induction false} StripCrsAt(ls: seq<string>, i: nat)
    requires i < |ls|
    ensures |StripCrs(ls)| == |ls| && StripCrs(ls)[i] == StripCr(ls[i])
  {
    StripCrsLength(ls);
    if i > 0 { StripCrsAt(ls[1..], i - 1); }
  }

  lemma {:induction false} NewlineFreeAll(ls: seq<string>)
    requires forall i | 0 <= i < |ls| :: NewlineFree(ls[i])
    ensures AllNewlineFree(ls)
  {
    if ls != [] {
      assert forall i | 0 <= i < |ls| - 1 :: ls[1..][i] == ls[i + 1];
      NewlineFreeAll(ls[1..]);
    }
  }

  /** Reading such a document changes its last line only. */
  lemma SampleRead(g: string, t: string, c: string, s: string, o: string, raw: string)
    requires PlainLine(g) && PlainLine(t) && PlainLine(c) && PlainLine(s) && PlainLine(o) && NewlineFree(raw)
    ensures Lines(Unlines(Sample(g, t, c, s, o, raw))) == Sample(g, t, c, s, o, StripCr(raw))
  {
    var a, b := Sample(g, t, c, s, o, raw), Sample(g, t, c, s, o, StripCr(raw));
    SampleLines(g, t, c, s, o, raw);
    SampleLines(g, t, c, s, o, StripCr(raw));
    Needle(g);
    Needle(c);
    Needle(s);
    Needle(o);
    PlainRead("## " + g);
    PlainRead(t);
    PlainRead("## " + c);
    PlainRead("## " + s);
    PlainRead("## " + o);
    NewlineFreeAll(a);
    LinesOfUnlines(a);
    forall i | 0 <= i < 7
      ensures |StripCrs(a)| == 7 && StripCrs(a)[i] == b[i]
    {
      StripCrsAt(a, i);
    }
    assert StripCrs(a) == b;
  }

  lemma StrayEnds(h: string)
    requires PlainLine(h)
    ensures var l := h + ['\r'];
      StripCr(l + ['\r']) == l && StripCr(l) != l && Trim(l) == h && NewlineFree(l + ['\r'])
  {
    var l := h + ['\r'];
    DropLast(l, ['\r']);
    DropLast(h, ['\r']);
    assert |StripCr(l)| == |h|;
    TrimPadded("", h, ['\r']);
    EmptyParts(h);
  }

  lemma HeadingNames()
    ensures PlainLine("Goal") && PlainLine("Scope") && PlainLine("Out of scope")
    ensures PlainLine("Success criteria") && PlainLine("Constraints")
    ensures PlainLine("text") && !("## " <= "text") && "Goal" != "Success criteria"
    ensures REQUIRED_HEADINGS == ["Goal"] + (["Scope"] + (["Out of scope"] + (["Success criteria"] + ["Constraints"])))
  {
    assert "text"[0] == 't' && "Goal"[0] == 'G' && "Success criteria"[0] == 'S';
  }

  /** A valid document whose last line is a heading with two carriage returns before the newline. */
  lemma ValidWithStray(g: string, t: string, c: string, s: string, o: string, k: string)
      returns (doc: string, l: string)
    requires PlainLine(g) && PlainLine(t) && PlainLine(c) && PlainLine(s) && PlainLine(o) && PlainLine(k)
    requires g == "Goal" && c == "Success criteria" && !("## " <= t) && g != c
    requires REQUIRED_HEADINGS == [g] + ([s] + ([o] + ([c] + [k])))
    ensures Validate(doc) == None && l in KeptFrom(Lines(doc), false) && StripCr(l) != l
  {
    Needle(k);
    StrayEnds("## " + k);
    l := "## " + k + ['\r'];
    doc := Unlines(Sample(g, t, c, s, o, l + ['\r']));
    SampleRead(g, t, c, s, o, l + ['\r']);
    SampleHeadings(g, t, c, s, o, l, k);
    SampleSections(g, t, c, s, o, l);
    SampleLines(g, t, c, s, o, l);
    Needle(g);
    assert Sample(g, t, c, s, o, l)[6] == l;
  }

  /** So there are valid documents that a second rewrite changes. */
  lemma RewriteTwiceExample(a: Meta, b: Meta) returns (doc: string)
    requires CleanMeta(a) && CleanMeta(b)
    ensures Validate(doc) == None && Rewritten(Rewritten(doc, a), b) != Rewritten(doc, b)
  {
    var l;
    HeadingNames();
    doc, l := ValidWithStray("Goal", "text", "Success criteria", "Scope", "Out of scope", "Constraints");
    RewriteTwiceFails(doc, l, a, b);
  }

  /* ---- The blank template ---- */

  /** A heading with nothing below it. */
  function EmptySection(h: string): seq<string> {
    ["## " + h] + ([""] + [""])
  }

  /** The lines of `handoff_template`. */
  function TemplateLines(): seq<string> {
    Header("# HANDOFF", NO_META, TemplateSections())
  }

  function TemplateSections(): seq<string> {
    EmptySection("Goal") + (EmptySection("Principles") + (EmptySection("Scope") + (EmptySection("Out of scope")
    + (EmptySection("Success criteria") + (EmptySection("Constraints") + (["## Handoff notes"] + [""]))))))
  }

  /** Lines that reading gives back as they are. */
  predicate Readable(ls: seq<string>) {
    AllNewlineFree(ls) && StripCrs(ls) == ls
  }

  lemma ReadableConcat(a: seq<string>, b: seq<string>)
    requires Readable(a) && Readable(b)
    ensures Readable(a + b)
  {
    AllNewlineFreeConcat(a, b);
    StripCrsConcat(a, b);
  }

  lemma {:induction false} LineLater(a: seq<string>, b: seq<string>, t: string)
    requires HasLine(b, t)
    ensures HasLine(a + b, t)
  {
    if a == [] {
      EmptyParts(b);
    } else {
      ConcatTail(a, b);
      LineLater(a[1..], b, t);
    }
  }

  /** An empty section before others: its heading stands, the others stay. */
  lemma SectionBefore(h: string, rest: seq<string>)
    requires PlainLine(h) && Readable(rest)
    ensures var ls := EmptySection(h) + rest;
      Readable(ls) && HasLine(ls, "## " + h) && forall t | HasLine(rest, t) :: HasLine(ls, t)
  {
    Needle(h);
    PlainRead("## " + h);
    ReadableConcat([""], [""]);
    ReadableConcat(["## " + h], [""] + [""]);
    ReadableConcat(EmptySection(h), rest);
    Assoc(["## " + h], [""] + [""], rest);
    Cons("## " + h, [""] + [""] + rest);
    forall t | HasLine(rest, t)
      ensures HasLine(EmptySection(h) + rest, t)
    {
      LineLater(EmptySection(h), rest, t);
    }
  }

  lemma TemplateHeadings()
    ensures Readable(TemplateSections())
    ensures FirstMissing(TemplateSections(), REQUIRED_HEADINGS) == None
  {
    HeadingNames();
    var f := ["## Handoff notes"] + [""];
    assert "## Handoff notes"[15] == 's';
    ReadableConcat(["## Handoff notes"], [""]);
    var e := EmptySection("Constraints") + f;
    SectionBefore("Constraints", f);
    var d := EmptySection("Success criteria") + e;
    SectionBefore("Success criteria", e);
    var c := EmptySection("Out of scope") + d;
    SectionBefore("Out of scope", d);
    var b := EmptySection("Scope") + c;
    SectionBefore("Scope", c);
    assert "Principles"[0] == 'P';
    var a := EmptySection("Principles") + b;
    SectionBefore("Principles", b);
    SectionBefore("Goal", a);
    var ls := TemplateSections();
    Present(ls, "Constraints", []);
    EmptyParts(["Constraints"]);
    Present(ls, "Success criteria", ["Constraints"]);
    Present(ls, "Out of scope", ["Success criteria"] + ["Constraints"]);
    Present(ls, "Scope", ["Out of scope"] + (["Success criteria"] + ["Constraints"]));
    Present(ls, "Goal", ["Scope"] + (["Out of scope"] + (["Success criteria"] + ["Constraints"])));
  }

  lemma BodyStep(l: string, rest: seq<string>)
    ensures Body([l] + rest) == if "## " <= l then [] else [l] + Body(rest)
  {
    Cons(l, rest);
  }

  lemma SectionFlat(h: string, more: seq<string>)
    ensures EmptySection(h) + more == ["## " + h] + ([""] + ([""] + more))
  {
    Assoc(["## " + h], [""] + [""], more);
    Assoc([""], [""], more);
  }

  lemma TwoBlank(more: seq<string>)
    requires more != [] && "## " <= more[0]
    ensures Body([""] + ([""] + more)) == [""] + [""] && Trim(Unlines([""] + [""])) == ""
  {
    BodyStep("", [""] + more);
    BodyStep("", more);
    EmptyParts([""]);
    BlankLines([""] + [""]);
    TrimTrimmed("");
    TrimEmpty(Unlines([""] + [""]));
  }

  /** Nothing stands between the heading and the next one. */
  lemma EmptyIsBlank(h: string, more: seq<string>)
    requires PlainLine(h) && more != [] && "## " <= more[0]
    ensures BlankSection(EmptySection(h) + more, h)
  {
    Needle(h);
    SectionFlat(h, more);
    SectionStep("## " + h, [""] + ([""] + more), h);
    TwoBlank(more);
  }

  function Header(title: string, m: Meta, rest: seq<string>): seq<string> {
    [title] + ([""] + (Block(m) + ([""] + rest)))
  }

  lemma HeaderRead(title: string, m: Meta, rest: seq<string>)
    requires PlainLine(title) && CleanMeta(m) && Readable(rest)
    ensures Readable(Header(title, m, rest))
  {
    PlainRead(title);
    BlockClean(m);
    ReadableOne(title);
    ReadableOne("");
    ReadableConcat([""], rest);
    ReadableConcat(Block(m), [""] + rest);
    ReadableConcat([""], Block(m) + ([""] + rest));
    ReadableConcat([title], [""] + (Block(m) + ([""] + rest)));
  }

  lemma ReadableOne(l: string)
    requires NewlineFree(l) && StripCr(l) == l
    ensures Readable([l])
  {}

  /** The verdict does not look at the header. */
  lemma HeaderPast(title: string, m: Meta, rest: seq<string>)
    requires PlainLine(title) && !IsSection(title) && CleanMeta(m)
    ensures Sections(Header(title, m, rest)) == Sections(rest)
  {
    PlainRead(title);
    FieldsClean(m);
    TrimTrimmed("");
    SectionsCons("", rest);
    SectionsPast(Fields(m), [""] + rest);
    SectionsCons("", Block(m) + ([""] + rest));
    SectionsCons(title, [""] + (Block(m) + ([""] + rest)));
  }

  /** With headings below the header that all stand, and nothing below the first one, the verdict is that. */
  lemma EmptyGoalFound(title: string, m: Meta, body: seq<string>)
    requires PlainLine(title) && !IsSection(title) && CleanMeta(m) && Readable(body)
    requires FirstMissing(body, REQUIRED_HEADINGS) == None && BlankSection(body, "Goal")
    ensures Validate(Unlines(Header(title, m, body))) == Some(EmptyGoal)
  {
    var ls := Header(title, m, body);
    HeaderRead(title, m, body);
    HeaderPast(title, m, body);
    LinesOfUnlines(ls);
    SectionsDecide(ls, "Goal");
    SectionsDecide(body, "Goal");
    FirstMissingPast(ls, body, REQUIRED_HEADINGS);
  }

  lemma TemplateTitle()
    ensures PlainLine("# HANDOFF") && !IsSection("# HANDOFF")
  {
    assert "# HANDOFF"[0] == '#' && "# HANDOFF"[1] == ' ' && "# HANDOFF"[8] == 'F' && "## "[1] == '#';
  }

  lemma TemplateGoal()
    ensures BlankSection(TemplateSections(), "Goal")
  {
    HeadingNames();
    assert "Principles"[0] == 'P';
    Needle("Principles");
    EmptyIsBlank("Goal", TemplateSections()[3..]);
    assert TemplateSections() == EmptySection("Goal") + TemplateSections()[3..];
    assert TemplateSections()[3] == "## " + "Principles";
  }

  /** The template that tsk hands out is rejected: its goal has no text. */
  lemma TemplateRejected()
    ensures Validate(Unlines(TemplateLines())) == Some(EmptyGoal)
  {
    TemplateTitle();
    TemplateHeadings();
    TemplateGoal();
    EmptyGoalFound("# HANDOFF", NO_META, TemplateSections());
  }

  lemma {:induction false} FirstMissingPast(a: seq<string>, b: seq<string>, hs: seq<string>)
    requires Sections(a) == Sections(b)
    ensures FirstMissing(a, hs) == FirstMissing(b, hs)
  {
    if hs != [] {
      SectionsDecide(a, hs[0]);
      SectionsDecide(b, hs[0]);
      FirstMissingPast(a, b, hs[1..]);
    }
  }
}
