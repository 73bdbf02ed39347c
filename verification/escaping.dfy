/** The two ways the exporters quote free text: backslash-escaping quotes
    for a Python string literal in the generated Blender scripts
    (`sanitizeString` in `src/components/blender_script.tsx` and the same
    chain of replacements in `src/components/home.tsx`), and quote doubling
    for a CSV field (section 2, rule 7 of RFC 4180). Each comes with the
    reading that undoes it. */
module Escaping {

  import opened Base
  import opened Text

  // ---------------------------------------------------------------------
  // the sanitiser as written
  // ---------------------------------------------------------------------

  predicate IsQuote(c: char)
  {
    c == '"' || c == '\''
  }

  /** The number of `"` and `'` characters in `s`. */
  function QuoteCount(s: string): nat
    decreases |s|
  {
    if |s| == 0 then 0 else (if IsQuote(s[0]) then 1 else 0) + QuoteCount(s[1..])
  }

  /** A single character as the sanitiser leaves it: a quote gains a
      backslash in front, anything else is kept. */
  function EscapeQuote(c: char): (r: string)
    ensures IsQuote(c) ==> r == ['\\', c]
    ensures !IsQuote(c) ==> r == [c]
  {
    if c == '"' then "\\\"" else if c == '\'' then "\\'" else [c]
  }

  /** The sanitiser's output described one character at a time: the length
      grows by one per quote, and quote-free text is kept as it is. */
  function EscapeQuotes(s: string): (r: string)
    ensures |r| == |s| + QuoteCount(s)
    ensures QuoteCount(s) == 0 ==> r == s
    decreases |s|
  {
    if |s| == 0 then ""
    else
      assert s == [s[0]] + s[1..];
      EscapeQuote(s[0]) + EscapeQuotes(s[1..])
  }

  /** The two global replacements act character by character. */
  lemma {:induction false} ReplaceQuotesPerChar(s: string)
    ensures ReplaceAll(ReplaceAll(s, '"', "\\\""), '\'', "\\'") == EscapeQuotes(s)
    decreases |s|
  {
    if |s| > 0 {
      var head, tail := [s[0]], s[1..];
      assert s == head + tail;
      ReplaceAllAppend(head, tail, '"', "\\\"");
      var h1 := ReplaceAll(head, '"', "\\\"");
      var t1 := ReplaceAll(tail, '"', "\\\"");
      ReplaceAllAppend(h1, t1, '\'', "\\'");
      assert head[1..] == [];
      if s[0] == '"' {
        assert h1 == "\\\"";
        assert ReplaceAll(h1, '\'', "\\'") == h1;
      } else {
        assert h1 == head;
        assert head[0] == s[0];
        assert ReplaceAll(h1, '\'', "\\'") == EscapeQuote(s[0]);
      }
      ReplaceQuotesPerChar(tail);
    }
  }

  /** `str.replace(/"/g, '\\"').replace(/'/g, "\\'")`: every quote gains a
      backslash in front and nothing else changes. */
  function SanitizeString(s: string): (r: string)
    ensures r == EscapeQuotes(s)
    ensures |r| == |s| + QuoteCount(s)
    ensures QuoteCount(s) == 0 ==> r == s
  {
    ReplaceQuotesPerChar(s);
    ReplaceAll(ReplaceAll(s, '"', "\\\""), '\'', "\\'")
  }

  // ---------------------------------------------------------------------
  // reading a Python string literal
  // ---------------------------------------------------------------------

  /** The character a backslash escape stands for, for the escapes this
      model covers (`\\`, `\"`, `\'`, `\n`, `\r`); `None` for any other. */
  function Unescaped(c: char): Option<char>
  {
    if c == '\\' then Some('\\')
    else if c == '"' then Some('"')
    else if c == '\'' then Some('\'')
    else if c == 'n' then Some('\n')
    else if c == 'r' then Some('\r')
    else None
  }

  function Prepend(c: char, rest: Option<string>): (r: Option<string>)
    ensures r.Some? <==> rest.Some?
    ensures r.Some? ==> r.value == [c] + rest.value
  {
    match rest
    case None => None
    case Some(t) => Some([c] + t)
  }

  /** The text denoted by a Python double-quoted literal whose body is
      `s`. `None` when the literal breaks: an unescaped `"` ends it early, a
      raw line break ends the line, or a final backslash escapes the
      closing quote; also `None` for escapes outside `Unescaped`. */
  function PyDecode(s: string): Option<string>
    decreases |s|
  {
    if |s| == 0 then Some("")
    else if s[0] == '"' || s[0] == '\n' || s[0] == '\r' then None
    else if s[0] == '\\' then
      if |s| == 1 then None
      else
        match Unescaped(s[1])
        case None => None
        case Some(c) => Prepend(c, PyDecode(s[2..]))
    else Prepend(s[0], PyDecode(s[1..]))
  }

  /** Text that a literal body written by the sanitiser reads back as
      itself: no backslash and no line break. */
  predicate Plain(s: string)
  {
    forall k :: 0 <= k < |s| ==> s[k] != '\\' && s[k] != '\n' && s[k] != '\r'
  }

  /** On plain text the sanitiser's output reads back as the text. */
  lemma {:induction false} SanitizePlainRoundTrip(s: string)
    requires Plain(s)
    ensures PyDecode(SanitizeString(s)) == Some(s)
    decreases |s|
  {
    if |s| > 0 {
      PlainTail(s);
      SanitizePlainRoundTrip(s[1..]);
      EscapeQuoteDecode(s[0], SanitizeString(s[1..]));
      assert s == [s[0]] + s[1..];
    } else {
      assert SanitizeString(s) == "";
    }
  }

  lemma PlainTail(s: string)
    requires Plain(s) && |s| > 0
    ensures Plain(s[1..]) && s[0] != '\\' && s[0] != '\n' && s[0] != '\r'
  {
    forall k | 0 <= k < |s[1..]|
      ensures s[1..][k] != '\\' && s[1..][k] != '\n' && s[1..][k] != '\r'
    {
      assert s[1..][k] == s[k + 1];
    }
  }

  /** Reading a character the sanitiser escaped, in front of any body,
      yields the character in front of what the body reads as. */
  lemma EscapeQuoteDecode(c: char, t: string)
    requires c != '\\' && c != '\n' && c != '\r'
    ensures PyDecode(EscapeQuote(c) + t) == Prepend(c, PyDecode(t))
  {
    var e := EscapeQuote(c);
    if IsQuote(c) {
      assert (e + t)[0] == '\\' && (e + t)[1] == c;
      assert (e + t)[2..] == t;
    } else {
      assert (e + t)[0] == c;
      assert (e + t)[1..] == t;
    }
  }

  /** A text ending in a backslash comes out of the sanitiser unchanged, so
      the generated literal `"a\"` never closes. */
  lemma SanitizeTrailingBackslash()
    ensures SanitizeString("a\\") == "a\\"
    ensures PyDecode(SanitizeString("a\\")) == None
    ensures PyDecode(PyEscape("a\\")) == Some("a\\")
  {
    PyEscapeRoundTrip("a\\");
    assert "a\\"[1..] == "\\";
    assert "a\\"[1..][1..] == "";
    assert QuoteCount("a\\") == 0;
    assert PyDecode("\\") == None;
    assert PyDecode("a\\") == Prepend('a', PyDecode("a\\"[1..]));
  }

  // ---------------------------------------------------------------------
  // the escaping a Python literal needs
  // ---------------------------------------------------------------------

  /** One character as a Python double-quoted literal needs it: the
      backslash itself, both quotes and the line breaks escaped. */
  function PyEscapeChar(c: char): (r: string)
    ensures 1 <= |r| <= 2
    ensures |r| == 1 <==> r == [c]
  {
    if c == '\\' then "\\\\"
    else if c == '"' then "\\\""
    else if c == '\'' then "\\'"
    else if c == '\n' then "\\n"
    else if c == '\r' then "\\r"
    else [c]
  }

  /** The sanitiser with backslashes and line breaks escaped as well. */
  function PyEscape(s: string): (r: string)
    ensures |r| >= |s|
    ensures Plain(s) ==> r == SanitizeString(s)
    decreases |s|
  {
    if |s| == 0 then ""
    else
      var r := PyEscapeChar(s[0]) + PyEscape(s[1..]);
      assert Plain(s) ==> Plain(s[1..]) && s[0] != '\\' && s[0] != '\n' && s[0] != '\r' by {
        if Plain(s) {
          PlainTail(s);
        }
      }
      assert SanitizeString(s) == EscapeQuote(s[0]) + SanitizeString(s[1..]);
      r
  }

  /** Reading an escaped character in front of any body yields the
      character in front of what the body reads as. */
  lemma PyEscapeCharDecode(c: char, t: string)
    ensures PyDecode(PyEscapeChar(c) + t) == Prepend(c, PyDecode(t))
  {
    var e := PyEscapeChar(c);
    if |e| == 2 {
      assert (e + t)[0] == '\\' && (e + t)[1] == e[1];
      assert (e + t)[2..] == t;
      assert Unescaped(e[1]) == Some(c);
    } else {
      assert (e + t)[0] == c;
      assert (e + t)[1..] == t;
    }
  }

  /** Every text survives the corrected escaping: the literal reads back as
      the text itself. */
  lemma {:induction false} PyEscapeRoundTrip(s: string)
    ensures PyDecode(PyEscape(s)) == Some(s)
    decreases |s|
  {
    if |s| > 0 {
      PyEscapeRoundTrip(s[1..]);
      PyEscapeCharDecode(s[0], PyEscape(s[1..]));
      assert s == [s[0]] + s[1..];
    }
  }

  // ---------------------------------------------------------------------
  // CSV fields
  // ---------------------------------------------------------------------

  /** `"${text.replace(/"/g, '""')}"`: the field wrapped in quotes with
      every quote inside doubled. */
  function CsvQuote(s: string): (r: string)
    ensures |r| >= 2 && r[0] == '"' && r[|r| - 1] == '"'
  {
    "\"" + ReplaceAll(s, '"', "\"\"") + "\""
  }

  /** Undoes the doubling: `""` reads as `"`; a lone `"` is malformed. */
  function Collapse(s: string): Option<string>
    decreases |s|
  {
    if |s| == 0 then Some("")
    else if s[0] == '"' then
      if |s| >= 2 && s[1] == '"' then Prepend('"', Collapse(s[2..])) else None
    else Prepend(s[0], Collapse(s[1..]))
  }

  /** Reads a quoted CSV field: outer quotes removed, doubled quotes
      collapsed. */
  function CsvUnquote(f: string): Option<string>
  {
    if |f| >= 2 && f[0] == '"' && f[|f| - 1] == '"' then Collapse(f[1..|f| - 1]) else None
  }

  lemma {:induction false} CollapseDoubled(s: string)
    ensures Collapse(ReplaceAll(s, '"', "\"\"")) == Some(s)
    decreases |s|
  {
    if |s| > 0 {
      var t := ReplaceAll(s[1..], '"', "\"\"");
      CollapseDoubled(s[1..]);
      assert s == [s[0]] + s[1..];
      if s[0] == '"' {
        var d := "\"\"" + t;
        assert d[0] == '"' && d[1] == '"';
        assert d[2..] == t;
      } else {
        var d := [s[0]] + t;
        assert d[0] == s[0];
        assert d[1..] == t;
      }
    }
  }

  /** A quoted field reads back as the original text, whatever quotes,
      commas or line breaks it holds. */
  lemma CsvQuoteRoundTrip(s: string)
    ensures CsvUnquote(CsvQuote(s)) == Some(s)
  {
    var q := CsvQuote(s);
    assert q[1..|q| - 1] == ReplaceAll(s, '"', "\"\"");
    CollapseDoubled(s);
  }
}
