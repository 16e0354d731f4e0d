/** The string arguments of commands: atoms, quoted strings and literals, as clients write them and the parser reads
    them. */
module Strings {
  import opened Base
  import opened Text
  import opened Syntax
  import opened Sections

  /** An atom is read up to the first character that cannot be in one. */
  lemma AtomIsRead(atom: string, rest: string)
    requires atom != "" && forall c :: c in atom ==> c as int > 31 && c as int != 127 && c !in " (){}%*\"\\"
    requires rest == "" || rest[0] as int <= 31 || rest[0] as int == 127 || rest[0] in " (){}%*\"\\"
    ensures AString(atom + rest) == Parse(Ok(atom), rest)
  {
    forall c | c in atom ensures IsAtomChar(c) { TokenChars(c); }
    if rest != "" { TokenChars(rest[0]); }
    CharsOf(IsAtomChar, atom, rest);
  }

  // ---------- Quoted strings ----------

  /** How a client quotes a string without line breaks: section 4.3 of RFC 3501. */
  function Quoted(s: string): string {
    if s == "" then ""
    else (if s[0] == '"' || s[0] == '\\' then ['\\', s[0]] else [s[0]]) + Quoted(s[1..])
  }

  lemma {:induction false} ClosingQuoteOf(before: string, s: string, rest: string)
    requires '\r' !in s && '\n' !in s
    ensures ClosingQuote(before + (Quoted(s) + ("\"" + rest)), |before|) == Some(|before| + |Quoted(s)|)
    decreases |s|
  {
    var input := before + (Quoted(s) + ("\"" + rest));
    if s == "" {
      assert input[|before|] == '"';
    } else {
      var first := if s[0] == '"' || s[0] == '\\' then ['\\', s[0]] else [s[0]];
      assert input == (before + first) + (Quoted(s[1..]) + ("\"" + rest));
      ClosingQuoteOf(before + first, s[1..], rest);
      assert input[|before|] == first[0] && (|first| == 2 ==> input[|before| + 1] == first[1]);
    }
  }

  /** A quoted string is found with its end, whatever it holds; but the backslashes that quote stay in it. */
  lemma QuotedIsRead(s: string, rest: string)
    requires '\r' !in s && '\n' !in s
    ensures AString("\"" + (Quoted(s) + ("\"" + rest))) == Parse(Ok(Quoted(s)), rest)
  {
    var input := "\"" + (Quoted(s) + ("\"" + rest));
    ClosingQuoteOf("\"", s, rest);
    var close := 1 + |Quoted(s)|;
    assert input[0] == '"' && !IsAtomChar('"');
    assert Chars(IsAtomChar, input).result.Err?;
    assert input[1..close] == Quoted(s) && input[close + 1..] == rest;
  }

  lemma {:induction false} QuotedLonger(s: string)
    ensures |Quoted(s)| >= |s|
    ensures Quoted(s) == s <==> '"' !in s && '\\' !in s
    ensures |Quoted(s)| == |s| <==> '"' !in s && '\\' !in s
  {
    if s != "" {
      QuotedLonger(s[1..]);
      assert s == [s[0]] + s[1..];
    }
  }

  /** So the parser returns what the client meant if and only if there was nothing to quote. */
  lemma QuotedReadsBackIff(s: string, rest: string)
    requires '\r' !in s && '\n' !in s
    ensures AString("\"" + (Quoted(s) + ("\"" + rest))).result == Ok(s) <==> '"' !in s && '\\' !in s
  {
    QuotedIsRead(s, rest);
    QuotedLonger(s);
  }

  /** A mailbox called `a"b` is taken for one called `a\"b`. */
  lemma QuotedCanDiffer()
    ensures AString("\"a\\\"b\"").result == Ok("a\\\"b")
  {
    QuotedIsRead("a\"b", "");
    assert Quoted("a\"b") == "a\\\"b" by {
      assert "a\"b"[1..] == "\"b" && "\"b"[1..] == "b" && "b"[1..] == "";
    }
    assert "\"" + (Quoted("a\"b") + ("\"" + "")) == "\"a\\\"b\"";
  }

  // ---------- Literals ----------

  function LiteralText(n: nat, plus: bool, input: string): string {
    "{" + (Dec(n) + (if plus then "+" + Closed(input) else Closed(input)))
  }

  function Closed(input: string): (r: string)
    ensures |r| == |input| + 3 && r[..3] == "}\r\n" && r[3..] == input && r[0] == '}'
  {
    "}\r\n" + input
  }

  lemma AfterFirst(first: char, tail: string)
    ensures ([first] + tail)[1..] == tail
  {
  }

  lemma LiteralPrefixOf(n: nat, plus: bool, input: string)
    ensures LiteralPrefix(LiteralText(n, plus, input)) == Parse(Ok(n), input)
  {
    var tail := if plus then "+" + Closed(input) else Closed(input);
    DecRoundTrip(n);
    CharsOf(IsDigit, Dec(n), tail);
    AfterFirst('{', Dec(n) + tail);
    AfterFirst('+', Closed(input));
  }

  /** A literal of n bytes is the next n bytes, whatever they are; if there are fewer the command is refused. */
  lemma LiteralIsRead(n: nat, plus: bool, input: string)
    ensures AString(LiteralText(n, plus, input))
      == if n <= |input| then Parse(Ok(input[..n]), input[n..]) else Parse(Err(BadLiteral), input)
  {
    LiteralPrefixOf(n, plus, input);
    assert LiteralText(n, plus, input)[0] == '{' && !IsAtomChar('{');
    assert Chars(IsAtomChar, LiteralText(n, plus, input)).result.Err?;
  }
}
