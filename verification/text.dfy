/** Strings as the Rust standard library treats them: trimming, prefixes and line splitting. */
module Text {

  datatype Option<+T> = None | Some(value: T)

  /* Small facts about sequences, named so that longer proofs can ask for just one of them. */

  lemma Assoc<T>(a: seq<T>, b: seq<T>, c: seq<T>)
    ensures (a + b) + c == a + (b + c)
  {}

  lemma Cut<T>(s: seq<T>, k: nat)
    requires k < |s|
    ensures s == s[..k] + [s[k]] + s[k + 1..]
  {}

  lemma HeadTail<T>(s: seq<T>)
    requires s != []
    ensures s == [s[0]] + s[1..]
  {}

  lemma FirstIn<T>(s: seq<T>)
    ensures s == [] || s[0] in s
  {}

  lemma Cons<T>(x: T, s: seq<T>)
    ensures ([x] + s)[0] == x && ([x] + s)[1..] == s
  {}

  lemma ConcatTail<T>(a: seq<T>, b: seq<T>)
    requires a != []
    ensures (a + b)[0] == a[0] && (a + b)[1..] == a[1..] + b
  {}

  lemma LastSplit<T>(s: seq<T>)
    requires s != []
    ensures s == s[..|s| - 1] + [s[|s| - 1]]
  {}

  lemma Parts<T>(a: seq<T>, b: seq<T>)
    ensures (a + b)[..|a|] == a && (a + b)[|a|..] == b && a <= a + b
  {}

  lemma EmptyParts<T>(s: seq<T>)
    ensures [] + s == s && s + [] == s
  {}

  lemma Whole<T>(s: seq<T>)
    ensures s[..|s|] == s && s[|s|..] == [] && s[0..] == s
  {}

  lemma Extend<T>(s: seq<T>, i: nat)
    requires i < |s|
    ensures s[..i + 1] == s[..i] + [s[i]]
    ensures s[i..] == [s[i]] + s[i + 1..] && s[i..][0] == s[i] && s[i..][1..] == s[i + 1..]
  {}

  /** Characters with the Unicode White_Space property, the ones `str::trim` removes. */
  predicate IsSpace(c: char) {
    || '\t' <= c <= '\r' || c == ' ' || c == '\U{85}' || c == '\U{A0}' || c == '\U{1680}'
    || '\U{2000}' <= c <= '\U{200A}' || c == '\U{2028}' || c == '\U{2029}' || c == '\U{202F}'
    || c == '\U{205F}' || c == '\U{3000}'
  }

  predicate AllSpace(s: string) {
    s == "" || (IsSpace(s[0]) && AllSpace(s[1..]))
  }

  predicate Trimmed(s: string) {
    s == "" || (!IsSpace(s[0]) && !IsSpace(s[|s| - 1]))
  }

  predicate NewlineFree(s: string) {
    '\n' !in s
  }

  function TrimStart(s: string): string {
    if s != "" && IsSpace(s[0]) then TrimStart(s[1..]) else s
  }

  function TrimEnd(s: string): string {
    if s != "" && IsSpace(s[|s| - 1]) then TrimEnd(s[..|s| - 1]) else s
  }

  function Trim(s: string): string {
    TrimEnd(TrimStart(s))
  }

  lemma {:induction false} AllSpaceConcat(a: string, b: string)
    ensures AllSpace(a + b) <==> AllSpace(a) && AllSpace(b)
  {
    if a == "" {
      EmptyParts(b);
    } else {
      ConcatTail(a, b);
      AllSpaceConcat(a[1..], b);
    }
  }

  lemma {:induction false} TrimStartPadded(lead: string, core: string)
    requires AllSpace(lead) && (core == "" || !IsSpace(core[0]))
    ensures TrimStart(lead + core) == core
  {
    if lead == "" {
      EmptyParts(core);
    } else {
      ConcatTail(lead, core);
      TrimStartPadded(lead[1..], core);
    }
  }

  lemma DropLast(core: string, trail: string)
    requires trail != ""
    ensures (core + trail)[|core + trail| - 1] == trail[|trail| - 1]
    ensures (core + trail)[..|core + trail| - 1] == core + trail[..|trail| - 1]
    ensures trail == trail[..|trail| - 1] + [trail[|trail| - 1]]
  {}

  lemma {:induction false} TrimEndPadded(core: string, trail: string)
    requires AllSpace(trail) && (core == "" || !IsSpace(core[|core| - 1]))
    ensures TrimEnd(core + trail) == core
  {
    if trail == "" {
      EmptyParts(core);
    } else {
      DropLast(core, trail);
      AllSpaceConcat(trail[..|trail| - 1], [trail[|trail| - 1]]);
      TrimEndPadded(core, trail[..|trail| - 1]);
    }
  }

  /** Trimming removes exactly the white space around a trimmed core. */
  lemma {:induction false} TrimPadded(lead: string, core: string, trail: string)
    requires AllSpace(lead) && AllSpace(trail) && Trimmed(core)
    ensures Trim(lead + core + trail) == core
  {
    if core == "" {
      EmptyParts(lead);
      AllSpaceConcat(lead, trail);
      TrimStartPadded(lead + trail, "");
      EmptyParts(lead + trail);
    } else {
      Assoc(lead, core, trail);
      ConcatTail(core, trail);
      TrimStartPadded(lead, core + trail);
      TrimEndPadded(core, trail);
    }
  }

  lemma TrimTrimmed(s: string)
    requires Trimmed(s)
    ensures Trim(s) == s
  {
    TrimPadded("", s, "");
    EmptyParts(s);
  }

  lemma {:induction false} TrimStartSplit(s: string) returns (lead: string)
    ensures s == lead + TrimStart(s) && AllSpace(lead)
    ensures TrimStart(s) == "" || !IsSpace(TrimStart(s)[0])
  {
    if s != "" && IsSpace(s[0]) {
      var l := TrimStartSplit(s[1..]);
      lead := [s[0]] + l;
      HeadTail(s);
      Assoc([s[0]], l, TrimStart(s));
      Cons(s[0], l);
    } else {
      lead := "";
      EmptyParts(s);
    }
  }

  lemma {:induction false} TrimEndSplit(s: string) returns (trail: string)
    ensures s == TrimEnd(s) + trail && AllSpace(trail)
    ensures TrimEnd(s) == "" || !IsSpace(TrimEnd(s)[|TrimEnd(s)| - 1])
  {
    if s != "" && IsSpace(s[|s| - 1]) {
      var t := TrimEndSplit(s[..|s| - 1]);
      var last := [s[|s| - 1]];
      trail := t + last;
      LastSplit(s);
      Assoc(TrimEnd(s), t, last);
      AllSpaceConcat(t, last);
    } else {
      trail := "";
      EmptyParts(s);
    }
  }

  /** Every string is its trimmed core with white space on both sides. */
  lemma TrimSplit(s: string) returns (lead: string, trail: string)
    ensures s == lead + Trim(s) + trail && AllSpace(lead) && AllSpace(trail) && Trimmed(Trim(s))
  {
    lead := TrimStartSplit(s);
    trail := TrimEndSplit(TrimStart(s));
    Assoc(lead, Trim(s), trail);
    if Trim(s) != "" { ConcatTail(Trim(s), trail); }
  }

  lemma TrimEmpty(s: string)
    ensures Trim(s) == "" <==> AllSpace(s)
  {
    var lead, trail := TrimSplit(s);
    AllSpaceConcat(lead + Trim(s), trail);
    AllSpaceConcat(lead, Trim(s));
  }

  /** `str::strip_prefix`. */
  function StripPrefix(s: string, prefix: string): Option<string> {
    if prefix <= s then Some(s[|prefix|..]) else None
  }

  lemma StripPrefixOf(prefix: string, rest: string)
    ensures StripPrefix(prefix + rest, prefix) == Some(rest)
  {
    Parts(prefix, rest);
  }

  /** Position of the first `c`, or the length when there is none. */
  function Find(s: string, c: char): (k: nat)
    ensures k <= |s|
    ensures k < |s| ==> s[k] == c
  {
    if s == "" || s[0] == c then 0 else Find(s[1..], c) + 1
  }

  lemma NotInCons(s: string, c: char)
    requires s != ""
    ensures c in s <==> c == s[0] || c in s[1..]
  {
    HeadTail(s);
  }

  lemma {:induction false} FindNone(s: string, c: char)
    ensures Find(s, c) == |s| <==> c !in s
    ensures c !in s[..Find(s, c)]
  {
    if s != "" {
      NotInCons(s, c);
      if s[0] != c {
        FindNone(s[1..], c);
        var k := Find(s[1..], c);
        assert s[..k + 1] == [s[0]] + s[1..][..k];
      }
    }
  }

  lemma {:induction false} FindFirst(front: string, c: char, rest: string)
    requires c !in front
    ensures Find(front + [c] + rest, c) == |front|
    ensures (front + [c] + rest)[..|front|] == front && (front + [c] + rest)[|front| + 1..] == rest
  {
    Assoc(front, [c], rest);
    Parts(front, [c] + rest);
    Parts(front + [c], rest);
    FindPast(front, [c] + rest, c);
  }

  lemma {:induction false} FindPast(front: string, rest: string, c: char)
    requires c !in front
    ensures Find(front + rest, c) == |front| + Find(rest, c)
  {
    if front == "" {
      EmptyParts(rest);
    } else {
      NotInCons(front, c);
      ConcatTail(front, rest);
      FindPast(front[1..], rest, c);
    }
  }

  /** A line loses one carriage return that stood before its newline. */
  function StripCr(line: string): string {
    if line != "" && line[|line| - 1] == '\r' then line[..|line| - 1] else line
  }

  /** `str::lines`: pieces ended by a newline (CRLF counts as one), and an unfinished last piece. */
  function Lines(s: string): seq<string> {
    if s == "" then []
    else
      var k := Find(s, '\n');
      if k == |s| then [s] else [StripCr(s[..k])] + Lines(s[k + 1..])
  }

  predicate AllNewlineFree(ls: seq<string>) {
    ls == [] || (NewlineFree(ls[0]) && AllNewlineFree(ls[1..]))
  }

  lemma {:induction false} LinesNewlineFree(s: string)
    ensures AllNewlineFree(Lines(s))
  {
    if s != "" {
      var k := Find(s, '\n');
      FindNone(s, '\n');
      if k < |s| {
        LinesNewlineFree(s[k + 1..]);
        Cons(StripCr(s[..k]), Lines(s[k + 1..]));
        assert NewlineFree(StripCr(s[..k])) by {
          var l := s[..k];
          assert forall i | 0 <= i < |StripCr(l)| :: StripCr(l)[i] == l[i];
        }
      }
    }
  }

  function Unlines(ls: seq<string>): string {
    if ls == [] then "" else ls[0] + ['\n'] + Unlines(ls[1..])
  }

  function StripCrs(ls: seq<string>): seq<string> {
    if ls == [] then [] else [StripCr(ls[0])] + StripCrs(ls[1..])
  }

  lemma {:induction false} AllNewlineFreeConcat(a: seq<string>, b: seq<string>)
    ensures AllNewlineFree(a + b) <==> AllNewlineFree(a) && AllNewlineFree(b)
  {
    if a == [] {
      EmptyParts(b);
    } else {
      ConcatTail(a, b);
      AllNewlineFreeConcat(a[1..], b);
    }
  }

  lemma UnlinesCons(l: string, ls: seq<string>)
    ensures Unlines([l] + ls) == l + ['\n'] + Unlines(ls)
  {
    Cons(l, ls);
  }

  lemma {:induction false} UnlinesConcat(a: seq<string>, b: seq<string>)
    ensures Unlines(a + b) == Unlines(a) + Unlines(b)
  {
    if a == [] {
      EmptyParts(b);
      EmptyParts(Unlines(b));
    } else {
      ConcatTail(a, b);
      UnlinesConcat(a[1..], b);
      Assoc(a[0] + ['\n'], Unlines(a[1..]), Unlines(b));
    }
  }

  lemma LinesCons(line: string, rest: string)
    requires NewlineFree(line)
    ensures Lines(line + ['\n'] + rest) == [StripCr(line)] + Lines(rest)
  {
    FindFirst(line, '\n', rest);
  }

  /** Splitting joined lines gives the lines back, each less one trailing carriage return. */
  lemma {:induction false} LinesOfUnlines(ls: seq<string>)
    requires AllNewlineFree(ls)
    ensures Lines(Unlines(ls)) == StripCrs(ls)
  {
    if ls != [] {
      LinesCons(ls[0], Unlines(ls[1..]));
      LinesOfUnlines(ls[1..]);
    }
  }

  lemma {:induction false} StripCrsConcat(a: seq<string>, b: seq<string>)
    ensures StripCrs(a + b) == StripCrs(a) + StripCrs(b)
  {
    if a == [] {
      EmptyParts(b);
      EmptyParts(StripCrs(b));
    } else {
      ConcatTail(a, b);
      StripCrsConcat(a[1..], b);
      Assoc([StripCr(a[0])], StripCrs(a[1..]), StripCrs(b));
    }
  }

  lemma TrimStripCr(l: string)
    ensures Trim(StripCr(l)) == Trim(l)
  {
    if StripCr(l) != l {
      LastSplit(l);
      var m := l[..|l| - 1];
      var lead, trail := TrimSplit(m);
      AllSpaceConcat(trail, ['\r']);
      TrimPadded(lead, Trim(m), trail + ['\r']);
      Assoc(lead + Trim(m), trail, ['\r']);
    }
  }
}
