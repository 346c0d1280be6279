/** The two literal quoters, read back by the languages they are written for. */
module Quoting {
  import opened Text

  /** `lua_quote`: the escape each character becomes inside the literal. */
  function LuaEscape(c: char): string {
    match c
    case '\\' => "\\\\"
    case '"' => "\\\""
    case '\n' => "\\n"
    case '\r' => "\\r"
    case _ => [c]
  }

  function LuaBody(s: string): string {
    if s == "" then "" else LuaEscape(s[0]) + LuaBody(s[1..])
  }

  lemma {:induction false} LuaBodySnoc(s: string, c: char)
    ensures LuaBody(s + [c]) == LuaBody(s) + LuaEscape(c)
  {
    if s == "" {
      assert s + [c] == [c] && [c][1..] == "";
    } else {
      assert (s + [c])[1..] == s[1..] + [c];
      LuaBodySnoc(s[1..], c);
    }
  }

  method LuaQuote(s: string) returns (out: string)
    ensures out == "\"" + LuaBody(s) + "\""
    ensures ReadLua(out) == Some(s)
  {
    out := "\"";
    for i := 0 to |s|
      invariant out == "\"" + LuaBody(s[..i])
    {
      LuaBodySnoc(s[..i], s[i]);
      assert s[..i + 1] == s[..i] + [s[i]];
      match s[i] {
        case '\\' => out := out + "\\\\";
        case '"' => out := out + "\\\"";
        case '\n' => out := out + "\\n";
        case '\r' => out := out + "\\r";
        case c => out := out + [c];
      }
    }
    assert s[..|s|] == s;
    out := out + "\"";
    LuaRoundTrip(s);
  }

  /** A single-letter escape of section 3.1 of the Lua 5.4 manual. */
  function LuaSimpleEscape(c: char): Option<char> {
    match c
    case 'a' => Some('\U{7}')
    case 'b' => Some('\U{8}')
    case 'f' => Some('\U{C}')
    case 'n' => Some('\n')
    case 'r' => Some('\r')
    case 't' => Some('\t')
    case 'v' => Some('\U{B}')
    case '\\' => Some('\\')
    case '"' => Some('"')
    case '\'' => Some('\'')
    case '\n' => Some('\n')
    case _ => None
  }

  /**
   * Reader for the rest of a short literal delimited by `"`: the text up to the closing quote, which
   * must end the input. A raw line break or an unknown escape is an error. The numeric escapes and
   * `\z` are errors here too: no quoted text contains them.
   */
  function ReadLuaBody(t: string): Option<string> {
    if t == "" then None
    else if t[0] == '"' then (if |t| == 1 then Some("") else None)
    else if t[0] == '\n' || t[0] == '\r' then None
    else if t[0] == '\\' then
      if |t| == 1 || LuaSimpleEscape(t[1]).None? then None
      else
        var rest := ReadLuaBody(t[2..]);
        if rest.None? then None else Some([LuaSimpleEscape(t[1]).value] + rest.value)
    else
      var rest := ReadLuaBody(t[1..]);
      if rest.None? then None else Some([t[0]] + rest.value)
  }

  function ReadLua(t: string): Option<string> {
    if t == "" || t[0] != '"' then None else ReadLuaBody(t[1..])
  }

  lemma {:induction false} LuaBodyRead(s: string)
    ensures ReadLuaBody(LuaBody(s) + "\"") == Some(s)
  {
    if s != "" {
      var t := LuaBody(s) + "\"";
      var rest := LuaBody(s[1..]) + "\"";
      var e := LuaEscape(s[0]);
      assert t == e + rest;
      assert t[|e|..] == rest;
      LuaBodyRead(s[1..]);
      assert s == [s[0]] + s[1..];
    }
  }

  /** The literal Lua reads is the string that was quoted, for every string. */
  lemma LuaRoundTrip(s: string)
    ensures ReadLua("\"" + LuaBody(s) + "\"") == Some(s)
  {
    LuaBodyRead(s);
    assert ("\"" + LuaBody(s) + "\"")[1..] == LuaBody(s) + "\"";
  }

  /** `s.replace('\'', "'\\''")`. */
  function ReplaceQuotes(s: string): string {
    if s == "" then ""
    else (if s[0] == '\'' then "'\\''" else [s[0]]) + ReplaceQuotes(s[1..])
  }

  function ShellQuote(s: string): string {
    "'" + ReplaceQuotes(s) + "'"
  }

  /** Characters that end an unquoted word or give it another meaning. */
  predicate ShellSpecial(c: char) {
    c in "|&;<>()$`\"*?[#~=% \t\n{}!"
  }

  /**
   * Reader for one shell word made of literal characters, backslash escapes (section 2.2.1 of the
   * POSIX Shell Command Language) and single quotes (section 2.2.2); `inside` is true between
   * quotes. None: not one such word, or an open quote.
   */
  function ReadWord(t: string, inside: bool): Option<string> {
    if t == "" then (if inside then None else Some(""))
    else if t[0] == '\'' then ReadWord(t[1..], !inside)
    else if inside then Keep(t[0], ReadWord(t[1..], true))
    else if t[0] == '\\' then
      if |t| == 1 then None
      else if t[1] == '\n' then ReadWord(t[2..], false)
      else Keep(t[1], ReadWord(t[2..], false))
    else if ShellSpecial(t[0]) then None
    else Keep(t[0], ReadWord(t[1..], false))
  }

  function Keep(c: char, rest: Option<string>): Option<string> {
    if rest.None? then None else Some([c] + rest.value)
  }

  lemma EscapedQuoteRead(rest: string)
    ensures ReadWord("'\\''" + rest, true) == Keep('\'', ReadWord(rest, true))
  {
    var t := "'\\''" + rest;
    var u := "\\''" + rest;
    var w := "'" + rest;
    assert t[1..] == u && u[2..] == w && w[1..] == rest;
    assert ReadWord(w, false) == ReadWord(rest, true);
    assert ReadWord(u, false) == Keep('\'', ReadWord(w, false));
  }

  lemma {:induction false} QuotedRead(s: string)
    ensures ReadWord(ReplaceQuotes(s) + "'", true) == Some(s)
  {
    if s == "" {
      assert (ReplaceQuotes(s) + "'")[1..] == "";
    } else {
      var rest := ReplaceQuotes(s[1..]) + "'";
      QuotedRead(s[1..]);
      assert s == [s[0]] + s[1..];
      if s[0] == '\'' {
        assert ReplaceQuotes(s) + "'" == "'\\''" + rest;
        EscapedQuoteRead(rest);
      } else {
        assert ReplaceQuotes(s) + "'" == [s[0]] + rest;
        assert ([s[0]] + rest)[1..] == rest;
      }
    }
  }

  /** The shell reads the quoted text as one word equal to the string, for every string. */
  lemma ShellRoundTrip(s: string)
    ensures ReadWord(ShellQuote(s), false) == Some(s)
  {
    QuotedRead(s);
    assert ShellQuote(s)[1..] == ReplaceQuotes(s) + "'";
  }
}
