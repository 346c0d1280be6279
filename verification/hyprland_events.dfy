/** The compositor's event stream: newline-terminated `event>>payload` lines, read in chunks that may
    cut a line anywhere. */
module HyprlandEvents {
  import opened Text
  import opened Utf8

  datatype Event = Event(name: string, payload: string)

  /** Index of the first ">>", if any. */
  function FindArrow(s: string): (k: Option<nat>)
    ensures k.Some? ==> k.value + 2 <= |s|
  {
    if |s| < 2 then None
    else if s[0] == '>' && s[1] == '>' then Some(0)
    else
      var k := FindArrow(s[1..]);
      if k.None? then None else Some(k.value + 1)
  }

  /** `parse_line` on one raw line: at most one event. */
  function ParseLine(raw: string): seq<Event> {
    var line := Trim(raw);
    var k := FindArrow(line);
    if k.None? then [] else [Event(Trim(line[..k.value]), Trim(line[k.value + 2..]))]
  }

  predicate ArrowAt(s: string, k: nat) {
    k + 2 <= |s| && s[k] == '>' && s[k + 1] == '>'
  }

  lemma {:induction false} FirstArrow(s: string, k: nat)
    requires k <= |s| && forall i | 0 <= i < k :: !ArrowAt(s, i)
    ensures ArrowAt(s, k) ==> FindArrow(s) == Some(k)
    ensures k == |s| ==> FindArrow(s) == None
  {
    if k > 0 {
      assert forall i: nat | i + 1 < |s| :: ArrowAt(s[1..], i) <==> ArrowAt(s, i + 1);
      assert !ArrowAt(s, 0);
      FirstArrow(s[1..], k - 1);
    }
  }

  lemma TrimmedStart(a: string)
    ensures Trim(TrimStart(a)) == Trim(a)
  {
    var _ := TrimStartSplit(a);
  }

  lemma TrimmedEnd(b: string)
    ensures Trim(TrimEnd(b)) == Trim(b)
  {
    var back := TrimEnd(b);
    var trail := TrimEndSplit(b);
    var l, t := TrimSplit(back);
    AllSpaceConcat(t, trail);
    Assoc(l + Trim(back), t, trail);
    TrimPadded(l, Trim(back), t + trail);
  }

  /** Trimming the two halves of a line apart and together. */
  lemma TrimAround(a: string, b: string) returns (front: string, back: string)
    ensures Trim(a + ">>" + b) == front + ">>" + back && Trim(front) == Trim(a) && Trim(back) == Trim(b)
    ensures |front| <= |a| && a[|a| - |front|..] == front
  {
    front, back := TrimStart(a), TrimEnd(b);
    var lead := TrimStartSplit(a);
    var trail := TrimEndSplit(b);
    TrimmedStart(a);
    TrimmedEnd(b);
    Parts(lead, front);
    TrimCore(lead, front, back, trail);
  }

  lemma CoreEnds(front: string, back: string)
    requires front == "" || !IsSpace(front[0])
    requires back == "" || !IsSpace(back[|back| - 1])
    ensures Trimmed(front + ">>" + back)
  {
    var core := front + ">>" + back;
    assert core[0] == (if front == "" then '>' else front[0]);
    assert core[|core| - 1] == (if back == "" then '>' else back[|back| - 1]);
  }

  lemma Regroup<T>(a: seq<T>, b: seq<T>, c: seq<T>, d: seq<T>, e: seq<T>)
    ensures (a + b) + c + (d + e) == a + (b + c + d) + e
  {}

  lemma TrimCore(lead: string, front: string, back: string, trail: string)
    requires AllSpace(lead) && AllSpace(trail) && (front == "" || !IsSpace(front[0]))
    requires back == "" || !IsSpace(back[|back| - 1])
    ensures Trim((lead + front) + ">>" + (back + trail)) == front + ">>" + back
  {
    var core := front + ">>" + back;
    CoreEnds(front, back);
    Regroup(lead, front, ">>", back, trail);
    TrimPadded(lead, core, trail);
  }

  /** A line gives the event before its first arrow with the payload after it. */
  lemma LineParsed(raw: string, k: nat)
    requires ArrowAt(raw, k) && forall i | 0 <= i < k :: !ArrowAt(raw, i)
    ensures ParseLine(raw) == [Event(Trim(raw[..k]), Trim(raw[k + 2..]))]
  {
    var a, b := raw[..k], raw[k + 2..];
    assert raw == a + ">>" + b;
    var front, back := TrimAround(a, b);
    var line, d := front + ">>" + back, k - |front|;
    forall i | 0 <= i < |front|
      ensures !ArrowAt(line, i)
    {
      assert a[d + i] == front[i] && !ArrowAt(raw, d + i);
      if i + 1 < |front| { assert a[d + i + 1] == front[i + 1]; }
    }
    assert ArrowAt(line, |front|);
    FirstArrow(line, |front|);
    assert line[..|front|] == front && line[|front| + 2..] == back;
  }

  lemma ArrowInside(lead: string, core: string, trail: string, i: nat)
    ensures ArrowAt(core, i) ==> ArrowAt(lead + core + trail, |lead| + i)
  {}

  /** A line without an arrow gives no event. */
  lemma NoArrow(raw: string)
    requires forall i: nat :: !ArrowAt(raw, i)
    ensures ParseLine(raw) == []
  {
    var lead, trail := TrimSplit(raw);
    forall i: nat
      ensures !ArrowAt(Trim(raw), i)
    {
      ArrowInside(lead, Trim(raw), trail, i);
    }
    FirstArrow(Trim(raw), |Trim(raw)|);
  }

  /** The complete lines of a stream, without their newlines. */
  function CompleteLines(s: string): seq<string> {
    var k := Find(s, '\n');
    if k == |s| then [] else [s[..k]] + CompleteLines(s[k + 1..])
  }

  /** What follows the last newline. */
  function Tail(s: string): string {
    var k := Find(s, '\n');
    if k == |s| then s else Tail(s[k + 1..])
  }

  function EventsOf(lines: seq<string>): seq<Event> {
    if lines == [] then [] else ParseLine(lines[0]) + EventsOf(lines[1..])
  }

  lemma {:induction false} EventsOfConcat(a: seq<string>, b: seq<string>)
    ensures EventsOf(a + b) == EventsOf(a) + EventsOf(b)
  {
    if a == [] {
      EmptyParts(b);
      EmptyParts(EventsOf(b));
    } else {
      ConcatTail(a, b);
      EventsOfConcat(a[1..], b);
      Assoc(ParseLine(a[0]), EventsOf(a[1..]), EventsOf(b));
    }
  }

  /** Complete lines and tail are the one way to write the stream as terminated lines and a rest. */
  lemma {:induction false} LinesDetermined(lines: seq<string>, tail: string)
    requires NewlineFree(tail) && AllNewlineFree(lines)
    ensures CompleteLines(Unlines(lines) + tail) == lines
    ensures Tail(Unlines(lines) + tail) == tail
  {
    if lines == [] {
      EmptyParts(tail);
      FindNone(tail, '\n');
    } else {
      Assoc(lines[0] + ['\n'], Unlines(lines[1..]), tail);
      FindFirst(lines[0], '\n', Unlines(lines[1..]) + tail);
      LinesDetermined(lines[1..], tail);
      HeadTail(lines);
    }
  }

  lemma {:induction false} StreamPartition(s: string)
    ensures Unlines(CompleteLines(s)) + Tail(s) == s
    ensures AllNewlineFree(CompleteLines(s)) && NewlineFree(Tail(s))
  {
    var k := Find(s, '\n');
    FindNone(s, '\n');
    if k < |s| {
      var rest := s[k + 1..];
      StreamPartition(rest);
      UnlinesCons(s[..k], CompleteLines(rest));
      Assoc(s[..k] + ['\n'], Unlines(CompleteLines(rest)), Tail(rest));
      Cut(s, k);
      Cons(s[..k], CompleteLines(rest));
    } else {
      EmptyParts(s);
    }
  }

  /** Only the tail of what was already read matters to what comes next. */
  lemma StreamSplit(a: string, b: string)
    ensures CompleteLines(a + b) == CompleteLines(a) + CompleteLines(Tail(a) + b)
    ensures Tail(a + b) == Tail(Tail(a) + b)
  {
    var lines := CompleteLines(a);
    var more := Tail(a) + b;
    StreamPartition(a);
    StreamPartition(more);
    Assoc(Unlines(lines), Tail(a), b);
    UnlinesConcat(lines, CompleteLines(more));
    Assoc(Unlines(lines), Unlines(CompleteLines(more)), Tail(more));
    AllNewlineFreeConcat(lines, CompleteLines(more));
    LinesDetermined(lines + CompleteLines(more), Tail(more));
  }

  /** The loop of `read_events` on one connection, with the text of all it was sent and what it has delivered. */
  class EventReader {
    var buf: string
    var delivered: seq<Event>
    ghost var received: string

    /** Delivered: the events of exactly the complete lines so far. Kept: the unfinished tail. */
    ghost predicate Valid()
      reads this
    {
      delivered == EventsOf(CompleteLines(received)) && buf == Tail(received)
    }

    constructor ()
      ensures Valid() && received == ""
    {
      buf, delivered, received := "", [], "";
    }

    /** One read from the socket: its bytes are decoded on their own. */
    method Read(bytes: seq<Byte>)
      requires Valid()
      modifies this
      ensures Valid() && received == old(received) + Lossy(bytes)
    {
      var chunk := Lossy(bytes);
      ghost var all := received + chunk;
      StreamSplit(received, chunk);
      EventsOfConcat(CompleteLines(received), CompleteLines(buf + chunk));
      buf := buf + chunk;
      received := all;
      while Find(buf, '\n') < |buf|
        invariant delivered + EventsOf(CompleteLines(buf)) == EventsOf(CompleteLines(all))
        invariant Tail(buf) == Tail(all)
        invariant received == all
        decreases |buf|
      {
        var pos := Find(buf, '\n');
        Cons(buf[..pos], CompleteLines(buf[pos + 1..]));
        Assoc(delivered, ParseLine(buf[..pos]), EventsOf(CompleteLines(buf[pos + 1..])));
        delivered := delivered + ParseLine(buf[..pos]);
        buf := buf[pos + 1..];
      }
      EmptyParts(delivered);
    }

    method ReadAll(chunks: seq<seq<Byte>>)
      requires Valid()
      modifies this
      ensures Valid() && received == old(received) + Decoded(chunks)
    {
      for i := 0 to |chunks|
        invariant Valid() && received == old(received) + Decoded(chunks[..i])
      {
        DecodedSnoc(chunks[..i], chunks[i]);
        Extend(chunks, i);
        Assoc(old(received), Decoded(chunks[..i]), Lossy(chunks[i]));
        Read(chunks[i]);
      }
      Whole(chunks);
    }

    /** However a text is cut between characters, the events delivered are those of the text. */
    method ReadPieces(pieces: seq<string>)
      requires Valid() && received == ""
      modifies this
      ensures delivered == EventsOf(CompleteLines(Flatten(pieces))) && buf == Tail(Flatten(pieces))
    {
      ReadAll(Encoded(pieces));
      PiecesDecoded(pieces);
      EmptyParts(Flatten(pieces));
    }
  }

  function Flatten(pieces: seq<string>): string {
    if pieces == [] then "" else pieces[0] + Flatten(pieces[1..])
  }

  function Encoded(pieces: seq<string>): seq<seq<Byte>> {
    if pieces == [] then [] else [EncodeAll(pieces[0])] + Encoded(pieces[1..])
  }

  /** The text of the chunks, each decoded on its own. */
  function Decoded(chunks: seq<seq<Byte>>): string {
    if chunks == [] then "" else Lossy(chunks[0]) + Decoded(chunks[1..])
  }

  lemma {:induction false} DecodedSnoc(chunks: seq<seq<Byte>>, c: seq<Byte>)
    ensures Decoded(chunks + [c]) == Decoded(chunks) + Lossy(c)
  {
    if chunks == [] {
      EmptyParts(Lossy(c));
      EmptyParts([c]);
      Cons(c, []);
    } else {
      ConcatTail(chunks, [c]);
      DecodedSnoc(chunks[1..], c);
      Assoc(Lossy(chunks[0]), Decoded(chunks[1..]), Lossy(c));
    }
  }

  lemma {:induction false} PiecesDecoded(pieces: seq<string>)
    ensures Decoded(Encoded(pieces)) == Flatten(pieces)
  {
    if pieces != [] {
      RoundTrip(pieces[0]);
      Cons(EncodeAll(pieces[0]), Encoded(pieces[1..]));
      PiecesDecoded(pieces[1..]);
    }
  }

  /** Of a text read in two chunks, the reader gets the text exactly if the cut is between characters. */
  lemma CutInTwo(text: string, k: nat)
    requires k <= |EncodeAll(text)|
    ensures Decoded([EncodeAll(text)[..k]] + [EncodeAll(text)[k..]]) == text <==> AtBoundary(text, k)
  {
    var a, b := EncodeAll(text)[..k], EncodeAll(text)[k..];
    DecodedSnoc([a], b);
    EmptyParts(Lossy(a));
    DecodedInTwo(text, k);
  }
}
