/** UTF-8 as the Rust standard library reads it: `String::from_utf8_lossy`. */
module Utf8 {
  import opened Text

  type Byte = b: int | 0 <= b < 256

  const REPLACEMENT: char := '\U{FFFD}'

  /** A continuation byte with the low six bits of a number. */
  function Six(n: nat): (b: Byte)
    ensures Continues(b)
  {
    0x80 + n % 64
  }

  /** A number is its low six bits and the rest. */
  lemma SixBits(n: nat)
    ensures n == n / 64 * 64 + (Six(n) - 0x80)
  {}

  function Encode(c: char): (bytes: seq<Byte>)
    ensures 1 <= |bytes| <= 4
  {
    var n := c as int;
    var high, higher := n / 64, n / 64 / 64;
    if n < 0x80 then [n]
    else if n < 0x800 then [0xC0 + high, Six(n)]
    else if n < 0x1_0000 then [0xE0 + higher, Six(high), Six(n)]
    else [0xF0 + higher / 64, Six(higher), Six(high), Six(n)]
  }

  function EncodeAll(text: string): seq<Byte> {
    if text == "" then [] else Encode(text[0]) + EncodeAll(text[1..])
  }

  /** How many bytes a character takes that starts with this one; none starts with a byte of width 0. */
  function Width(lead: Byte): nat {
    if lead < 0x80 then 1
    else if 0xC2 <= lead < 0xE0 then 2
    else if 0xE0 <= lead < 0xF0 then 3
    else if 0xF0 <= lead < 0xF5 then 4
    else 0
  }

  predicate Continues(b: Byte) {
    0x80 <= b < 0xC0
  }

  /** The second byte must not make an overlong form, a surrogate, or a code beyond the last one. */
  predicate Second(lead: Byte, b: Byte) {
    && Continues(b) && (lead == 0xE0 ==> b >= 0xA0) && (lead == 0xED ==> b < 0xA0)
    && (lead == 0xF0 ==> b >= 0x90) && (lead == 0xF4 ==> b < 0x90)
  }

  /** The bytes of the first character, or of the longest start of one, at least one byte. */
  function Taken(s: seq<Byte>): (n: nat)
    requires s != []
    ensures 1 <= n <= |s| && (n <= Width(s[0]) || n == 1)
  {
    var w := Width(s[0]);
    if w < 2 || |s| < 2 || !Second(s[0], s[1]) then 1
    else if w == 2 || |s| < 3 || !Continues(s[2]) then 2
    else if w == 3 || |s| < 4 || !Continues(s[3]) then 3
    else 4
  }

  /** The six bits of the byte at a position. */
  function Bits(s: seq<Byte>, i: nat, base: int): int
    requires i < |s|
  {
    s[i] - base
  }

  function First(s: seq<Byte>): char
    requires s != []
  {
    var w := Width(s[0]);
    if Taken(s) != w then REPLACEMENT
    else if w == 1 then s[0] as char
    else if w == 2 then (Bits(s, 0, 0xC0) * 64 + Bits(s, 1, 0x80)) as char
    else if w == 3 then (Bits(s, 0, 0xE0) * 4096 + Bits(s, 1, 0x80) * 64 + Bits(s, 2, 0x80)) as char
    else (Bits(s, 0, 0xF0) * 262144 + Bits(s, 1, 0x80) * 4096 + Bits(s, 2, 0x80) * 64 + Bits(s, 3, 0x80)) as char
  }

  /** `String::from_utf8_lossy`: every piece that is no character becomes one replacement character. */
  function Lossy(s: seq<Byte>): string {
    if s == [] then "" else [First(s)] + Lossy(s[Taken(s)..])
  }

  /** One character is read back, whatever follows. */
  lemma CharRead(c: char, rest: seq<Byte>)
    ensures Lossy(Encode(c) + rest) == [c] + Lossy(rest)
  {
    var s := Encode(c) + rest;
    Parts(Encode(c), rest);
    CharTaken(c, rest);
    assert s[Taken(s)..] == rest;
  }

  lemma CharTaken(c: char, rest: seq<Byte>)
    ensures var s := Encode(c) + rest; Taken(s) == |Encode(c)| && First(s) == c
  {
    var n := c as int;
    var high, higher := n / 64, n / 64 / 64;
    SixBits(n);
    SixBits(high);
    SixBits(higher);
    if n < 0x80 {
      One(n, rest);
    } else if n < 0x800 {
      Two(0xC0 + high, Six(n), rest);
    } else if n < 0x1_0000 {
      Three(0xE0 + higher, Six(high), Six(n), rest);
    } else {
      Four(0xF0 + higher / 64, Six(higher), Six(high), Six(n), rest);
    }
  }

  lemma One(a: Byte, rest: seq<Byte>)
    requires a < 0x80
    ensures var s := [a] + rest; Taken(s) == 1 && First(s) == a as char
  {}

  lemma Two(a: Byte, b: Byte, rest: seq<Byte>)
    requires 0xC2 <= a < 0xE0 && Continues(b)
    ensures var s := [a, b] + rest; Taken(s) == 2 && First(s) as int == (a - 0xC0) * 64 + (b - 0x80)
  {}

  lemma Three(a: Byte, b: Byte, c: Byte, rest: seq<Byte>)
    requires 0xE0 <= a < 0xF0 && Second(a, b) && Continues(c)
    ensures var s := [a, b, c] + rest;
      Taken(s) == 3 && First(s) as int == (a - 0xE0) * 4096 + (b - 0x80) * 64 + (c - 0x80)
  {}

  lemma Four(a: Byte, b: Byte, c: Byte, d: Byte, rest: seq<Byte>)
    requires 0xF0 <= a < 0xF5 && Second(a, b) && Continues(c) && Continues(d)
    ensures var s := [a, b, c, d] + rest;
      Taken(s) == 4 && First(s) as int == (a - 0xF0) * 262144 + (b - 0x80) * 4096 + (c - 0x80) * 64 + (d - 0x80)
  {}

  /** Bytes are read as a character only if they are its encoding. */
  lemma OnlyEncoded(s: seq<Byte>)
    requires s != [] && First(s) != REPLACEMENT
    ensures Encode(First(s)) == s[..Taken(s)]
  {
    var c, w := First(s), Width(s[0]);
    if w == 2 {
      Unpacked(Bits(s, 0, 0xC0), Bits(s, 1, 0x80));
    } else if w == 3 {
      var high := Bits(s, 0, 0xE0) * 64 + Bits(s, 1, 0x80);
      Unpacked(high, Bits(s, 2, 0x80));
      Unpacked(Bits(s, 0, 0xE0), Bits(s, 1, 0x80));
    } else if w == 4 {
      var higher := Bits(s, 0, 0xF0) * 64 + Bits(s, 1, 0x80);
      var high := higher * 64 + Bits(s, 2, 0x80);
      Unpacked(high, Bits(s, 3, 0x80));
      Unpacked(higher, Bits(s, 2, 0x80));
      Unpacked(Bits(s, 0, 0xF0), Bits(s, 1, 0x80));
    }
  }

  lemma Unpacked(high: nat, low: nat)
    requires low < 64
    ensures (high * 64 + low) / 64 == high && (high * 64 + low) % 64 == low
  {}

  /** What is taken is never less than any start of a character that the bytes begin with. */
  lemma LongestStart(s: seq<Byte>, c: char, k: nat)
    requires 0 < k <= |Encode(c)| && Encode(c)[..k] <= s
    ensures k <= Taken(s)
  {
    var e := Encode(c);
    assert forall i | 0 <= i < k :: e[i] == s[i];
    CharTaken(c, []);
    EmptyParts(e);
  }

  lemma {:induction false} TextRead(text: string, rest: seq<Byte>)
    ensures Lossy(EncodeAll(text) + rest) == text + Lossy(rest)
  {
    if text == "" {
      EmptyParts(rest);
      EmptyParts(Lossy(rest));
    } else {
      var more := EncodeAll(text[1..]);
      Assoc(Encode(text[0]), more, rest);
      CharRead(text[0], more + rest);
      TextRead(text[1..], rest);
      Assoc([text[0]], text[1..], Lossy(rest));
      HeadTail(text);
    }
  }

  /** Decoding inverts encoding. */
  lemma RoundTrip(text: string)
    ensures Lossy(EncodeAll(text)) == text
  {
    TextRead(text, []);
    EmptyParts(EncodeAll(text));
    EmptyParts(text);
  }

  /** The byte position `k` of an encoded text is where a character ends. */
  predicate AtBoundary(text: string, k: nat) {
    k == 0 || (text != "" && k >= |Encode(text[0])| && AtBoundary(text[1..], k - |Encode(text[0])|))
  }

  /** A character cut short is one replacement character. */
  lemma CutStart(c: char, k: nat)
    requires 0 < k < |Encode(c)|
    ensures |Lossy(Encode(c)[..k])| == 1
  {
    var s := Encode(c)[..k];
    assert Taken(s) == k;
    assert s[k..] == [];
  }

  /** Each byte of the rest of a cut character is another. */
  lemma {:induction false} CutEnd(s: seq<Byte>, rest: seq<Byte>)
    requires forall i | 0 <= i < |s| :: Continues(s[i])
    ensures |Lossy(s + rest)| == |s| + |Lossy(rest)|
  {
    if s == [] {
      EmptyParts(rest);
    } else {
      ConcatTail(s, rest);
      assert Taken(s + rest) == 1;
      CutEnd(s[1..], rest);
    }
  }

  lemma CutCharacter(c: char, k: nat, rest: seq<Byte>)
    requires 0 < k < |Encode(c)|
    ensures |Lossy(Encode(c)[..k])| + |Lossy(Encode(c)[k..] + rest)| > 1 + |Lossy(rest)|
  {
    CutStart(c, k);
    CutEnd(Encode(c)[k..], rest);
  }

  /** A cut inside the first character shows. */
  lemma CutFirst(text: string, k: nat)
    requires text != "" && 0 < k < |Encode(text[0])|
    ensures Lossy(EncodeAll(text)[..k]) + Lossy(EncodeAll(text)[k..]) != text
  {
    var c, more := Encode(text[0]), EncodeAll(text[1..]);
    Sliced(c, more, k);
    CutCharacter(text[0], k, more);
    RoundTrip(text[1..]);
    assert |Lossy(c[..k]) + Lossy(c[k..] + more)| > |text|;
  }

  lemma Sliced<T>(a: seq<T>, b: seq<T>, k: nat)
    requires k <= |a| + |b|
    ensures k <= |a| ==> (a + b)[..k] == a[..k] && (a + b)[k..] == a[k..] + b
    ensures k >= |a| ==> (a + b)[..k] == a + b[..k - |a|] && (a + b)[k..] == b[k - |a|..]
  {}

  /** A cut after the first character leaves that character alone. */
  lemma CutLater(text: string, k: nat)
    requires text != "" && |Encode(text[0])| <= k <= |EncodeAll(text)|
    ensures var j, more := k - |Encode(text[0])|, EncodeAll(text[1..]);
      && j <= |more|
      && (Lossy(EncodeAll(text)[..k]) + Lossy(EncodeAll(text)[k..]) == text
          <==> Lossy(more[..j]) + Lossy(more[j..]) == text[1..])
  {
    var more, j := EncodeAll(text[1..]), k - |Encode(text[0])|;
    Sliced(Encode(text[0]), more, k);
    CharRead(text[0], more[..j]);
    SameAfter(text[0], Lossy(more[..j]), Lossy(more[j..]), text[1..]);
    HeadTail(text);
  }

  lemma SameAfter(x: char, a: string, b: string, t: string)
    ensures [x] + a + b == [x] + t <==> a + b == t
  {
    Assoc([x], a, b);
    Cons(x, a + b);
    Cons(x, t);
  }

  /** Decoding a text in two pieces gives the text exactly if the cut is where a character ends. */
  lemma {:induction false} DecodedInTwo(text: string, k: nat)
    requires k <= |EncodeAll(text)|
    ensures Lossy(EncodeAll(text)[..k]) + Lossy(EncodeAll(text)[k..]) == text <==> AtBoundary(text, k)
    decreases text
  {
    if k == 0 {
      RoundTrip(text);
      EmptyParts(text);
      Sliced([], EncodeAll(text), 0);
      EmptyParts(EncodeAll(text));
    } else if k >= |Encode(text[0])| {
      CutLater(text, k);
      DecodedInTwo(text[1..], k - |Encode(text[0])|);
    } else {
      CutFirst(text, k);
    }
  }
}
