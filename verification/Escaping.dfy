/** The two escapers of ILP string fields: four passes over the text in one service, one pass in the other. */
module Escaping {
  import opened Bytes

  /** Replacing every occurrence of one character by a text. */
  function ReplaceAll(s: string, c: char, text: string): string {
    if s == "" then "" else (if s[0] == c then text else [s[0]]) + ReplaceAll(s[1..], c, text)
  }

  /** The ingest service: backslashes first, then quotes and line ends. */
  function EscapeField(s: string): string {
    ReplaceAll(ReplaceAll(ReplaceAll(ReplaceAll(s, '\\', "\\\\"), '"', "\\\""), '\n', "\\n"), '\r', "\\r")
  }

  function EscapeChar(c: char): string {
    if c == '"' || c == '\\' then ['\\', c]
    else if c == '\n' then "\\n"
    else if c == '\r' then "\\r"
    else [c]
  }

  function EscapeBody(s: string): string {
    if s == "" then "" else EscapeChar(s[0]) + EscapeBody(s[1..])
  }

  /** The storage writer: one pass, with the quotes around. */
  method EscapeIlpString(s: string) returns (r: string)
    ensures r == "\"" + EscapeBody(s) + "\""
  {
    r := "\"";
    for i := 0 to |s|
      invariant r + EscapeBody(s[i..]) == "\"" + EscapeBody(s)
    {
      assert s[i..][1..] == s[i + 1..];
      ghost var before := r;
      if s[i] == '"' || s[i] == '\\' {
        r := r + ['\\', s[i]];
      } else if s[i] == '\n' {
        r := r + "\\n";
      } else if s[i] == '\r' {
        r := r + "\\r";
      } else {
        r := r + [s[i]];
      }
      ConcatAssoc(before, EscapeChar(s[i]), EscapeBody(s[i + 1..]));
    }
    assert s[|s|..] == "" && r + "" == r;
    r := r + "\"";
  }

  lemma {:induction false} ReplaceConcat(s: string, t: string, c: char, text: string)
    ensures ReplaceAll(s + t, c, text) == ReplaceAll(s, c, text) + ReplaceAll(t, c, text)
    decreases |s|
  {
    if s == "" {
      assert s + t == t;
    } else {
      assert (s + t)[1..] == s[1..] + t;
      ReplaceConcat(s[1..], t, c, text);
    }
  }

  lemma FieldConcat(s: string, t: string)
    ensures EscapeField(s + t) == EscapeField(s) + EscapeField(t)
  {
    ReplaceConcat(s, t, '\\', "\\\\");
    var s1, t1 := ReplaceAll(s, '\\', "\\\\"), ReplaceAll(t, '\\', "\\\\");
    ReplaceConcat(s1, t1, '"', "\\\"");
    var s2, t2 := ReplaceAll(s1, '"', "\\\""), ReplaceAll(t1, '"', "\\\"");
    ReplaceConcat(s2, t2, '\n', "\\n");
    ReplaceConcat(ReplaceAll(s2, '\n', "\\n"), ReplaceAll(t2, '\n', "\\n"), '\r', "\\r");
  }

  lemma ReplaceOne(x: char, c: char, text: string)
    ensures ReplaceAll([x], c, text) == if x == c then text else [x]
  {
    assert [x][1..] == "";
  }

  lemma ReplaceTwo(x: char, y: char, c: char, text: string)
    requires x != c && y != c
    ensures ReplaceAll([x, y], c, text) == [x, y]
  {
    assert [x, y][1..] == [y];
    ReplaceOne(y, c, text);
  }

  lemma FieldChar(x: char)
    ensures EscapeField([x]) == EscapeChar(x)
  {
    ReplaceOne(x, '\\', "\\\\");
    ReplaceOne(x, '"', "\\\"");
    ReplaceOne(x, '\n', "\\n");
    ReplaceOne(x, '\r', "\\r");
    ReplaceTwo('\\', '\\', '"', "\\\"");
    ReplaceTwo('\\', '\\', '\n', "\\n");
    ReplaceTwo('\\', '\\', '\r', "\\r");
    ReplaceTwo('\\', '"', '\n', "\\n");
    ReplaceTwo('\\', '"', '\r', "\\r");
    ReplaceTwo('\\', 'n', '\r', "\\r");
  }

  /** The two escapers agree on every string. */
  lemma {:induction false} EscapersAgree(s: string)
    ensures EscapeField(s) == EscapeBody(s)
  {
    hide EscapeField, EscapeChar;
    if s == "" {
      FieldNothing();
    } else {
      assert s == [s[0]] + s[1..];
      FieldConcat([s[0]], s[1..]);
      FieldChar(s[0]);
      EscapersAgree(s[1..]);
    }
  }

  lemma FieldNothing()
    ensures EscapeField("") == ""
  {}

  // ---------------------------------------------------------------- reading back

  function Unescaped(c: char): Option<char> {
    if c == '"' || c == '\\' then Some(c)
    else if c == 'n' then Some('\n')
    else if c == 'r' then Some('\r')
    else None
  }

  /** What follows an opening quote, up to the first quote that is not escaped: the text it stands for, and the rest. */
  function ReadQuoted(s: string): Option<(string, string)>
    decreases |s|
  {
    if s == "" then None
    else if s[0] == '"' then Some(("", s[1..]))
    else if s[0] == '\n' || s[0] == '\r' then None
    else if s[0] != '\\' then
      match ReadQuoted(s[1..]) case None => None case Some((t, rest)) => Some(([s[0]] + t, rest))
    else if |s| < 2 || Unescaped(s[1]).None? then None
    else match ReadQuoted(s[2..]) case None => None case Some((t, rest)) => Some(([Unescaped(s[1]).value] + t, rest))
  }

  /** An escaped string is read back whole, whatever it holds and whatever follows it. */
  lemma {:induction false} QuotedReadsBack(s: string, rest: string)
    ensures ReadQuoted(EscapeBody(s) + "\"" + rest) == Some((s, rest))
  {
    hide EscapeChar;
    if s == "" {
      assert "" + "\"" + rest == "\"" + rest && ("\"" + rest)[1..] == rest;
    } else {
      QuotedReadsBack(s[1..], rest);
      var tail := EscapeBody(s[1..]) + "\"" + rest;
      assert EscapeBody(s) + "\"" + rest == EscapeChar(s[0]) + tail;
      ReadChar(s[0], tail);
      assert [s[0]] + s[1..] == s;
    }
  }

  lemma ReadChar(c: char, tail: string)
    requires ReadQuoted(tail).Some?
    ensures ReadQuoted(EscapeChar(c) + tail) == Some(([c] + ReadQuoted(tail).value.0, ReadQuoted(tail).value.1))
  {
    var s := EscapeChar(c) + tail;
    if |EscapeChar(c)| == 1 {
      assert s[1..] == tail;
    } else {
      assert s[2..] == tail;
    }
  }

  /**
   * Conversely, everything that can be read up to a closing quote was written by the escaper: its
   * results are exactly the readable bodies.
   */
  lemma {:induction false} ReadIsEscaped(s: string)
    requires ReadQuoted(s).Some?
    ensures s == EscapeBody(ReadQuoted(s).value.0) + "\"" + ReadQuoted(s).value.1
    decreases |s|
  {
    var (t, rest) := ReadQuoted(s).value;
    if s[0] == '"' {
      assert s == "\"" + s[1..] && "" + "\"" + rest == "\"" + rest;
    } else {
      hide ReadQuoted, EscapeChar;
      var n := ReadFirst(s);
      ReadIsEscaped(s[n..]);
      assert s == s[..n] + s[n..];
    }
  }

  /** One readable character is the escape of what it stands for. */
  lemma ReadFirst(s: string) returns (n: nat)
    requires ReadQuoted(s).Some? && s[0] != '"'
    ensures 0 < n <= |s| && ReadQuoted(s[n..]).Some?
    ensures var (t, rest) := ReadQuoted(s).value;
            t != "" && s[..n] == EscapeChar(t[0]) && (t[1..], rest) == ReadQuoted(s[n..]).value
  {
    n := if s[0] == '\\' then 2 else 1;
  }

  /** The escapes: a backslash before quotes and backslashes, and before n and r for the line ends. */
  lemma EscapedOne(c: char)
    ensures EscapeBody([c]) == if c == '"' then "\\\"" else if c == '\\' then "\\\\" else if c == '\n' then "\\n"
                               else if c == '\r' then "\\r" else [c]
  {
    assert [c][1..] == "" && EscapeChar(c) + "" == EscapeChar(c);
  }

  /** No raw line end survives, so a field never breaks its line. */
  lemma {:induction false} NoLineEnds(s: string)
    ensures '\n' !in EscapeBody(s) && '\r' !in EscapeBody(s)
  {
    if s != "" {
      NoLineEnds(s[1..]);
    }
  }
}
