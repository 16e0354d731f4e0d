/** Lines that end in CRLF. */
module Lines {
  import opened Base
  import opened Text

  const CRLF := "\r\n"

  /** The index of the first CRLF. */
  function FindCrlf(s: string): (r: Option<nat>)
    ensures r.Some? ==> r.value + 2 <= |s|
  {
    if |s| < 2 then None
    else if s[0] == '\r' && s[1] == '\n' then Some(0)
    else
      var r := FindCrlf(s[1..]);
      if r.None? then None else Some(r.value + 1)
  }

  predicate NoCrlf(s: string) { FindCrlf(s).None? }

  lemma {:induction false} FindCrlfAfter(line: string, rest: string)
    requires NoCrlf(line)
    ensures FindCrlf(line + CRLF + rest) == Some(|line|)
  {
    var s := line + CRLF + rest;
    if line != "" {
      assert s[1..] == line[1..] + CRLF + rest;
      FindCrlfAfter(line[1..], rest);
    }
  }

  lemma {:induction false} FindCrlfSplits(s: string)
    requires FindCrlf(s).Some?
    ensures var i := FindCrlf(s).value;
      NoCrlf(s[..i]) && s == s[..i] + CRLF + s[i + 2..]
  {
    var i := FindCrlf(s).value;
    if i > 0 {
      FindCrlfSplits(s[1..]);
      assert s[..i][1..] == s[1..][..i - 1];
      assert s[1..][i + 1..] == s[i + 2..];
    }
  }

  /** `s.split(b"\r\n")`. */
  function SplitLines(s: string): (lines: seq<string>)
    ensures lines != []
    decreases |s|
  {
    match FindCrlf(s)
    case None => [s]
    case Some(i) => [s[..i]] + SplitLines(s[i + 2..])
  }

  lemma {:induction false} SplitLinesJoin(s: string)
    ensures Join(SplitLines(s), CRLF) == s
    ensures forall line :: line in SplitLines(s) ==> NoCrlf(line)
    decreases |s|
  {
    var r := FindCrlf(s);
    if r.Some? {
      FindCrlfSplits(s);
      SplitLinesJoin(s[r.value + 2..]);
    }
  }
}
