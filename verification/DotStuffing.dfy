/** POP3 multi-line responses: `dot_stuff` against the reading rules of section 3 of RFC 1939. */
module DotStuffing {
  import opened Base
  import opened Text
  import opened Lines

  function Stuff(line: string): string {
    if line != "" && line[0] == '.' then "." + line else line
  }

  function StuffAll(lines: seq<string>): (r: seq<string>)
    ensures |r| == |lines| && forall i :: 0 <= i < |lines| ==> r[i] == Stuff(lines[i])
  {
    seq(|lines|, i requires 0 <= i < |lines| => Stuff(lines[i]))
  }

  method DotStuff(data: string) returns (stuffed: string)
    ensures stuffed == Join(StuffAll(SplitLines(data)), CRLF)
  {
    var lines := SplitLines(data);
    var result: seq<string> := [];
    var i := 0;
    while i < |lines|
      invariant 0 <= i <= |lines|
      invariant result == StuffAll(lines[..i])
    {
      if lines[i] != "" && lines[i][0] == '.' {
        result := result + ["." + lines[i]];
      } else {
        result := result + [lines[i]];
      }
      i := i + 1;
    }
    assert lines[..i] == lines;
    stuffed := Join(result, CRLF);
  }

  /** The lines of a response up to the one that is just ".", unstuffed, and the stream after that line. */
  datatype Response = Response(lines: seq<string>, rest: string)

  /** A client reading a multi-line response; None if the stream ends before the terminating line. */
  function ReadResponse(stream: string): Option<Response>
    decreases |stream|
  {
    var end := FindCrlf(stream);
    if end.None? then None
    else
      var line, rest := stream[..end.value], stream[end.value + 2..];
      if line == "." then Some(Response([], rest))
      else
        var more := ReadResponse(rest);
        if more.None? then None
        else
          var unstuffed := if line != "" && line[0] == '.' then line[1..] else line;
          Some(Response([unstuffed] + more.value.lines, more.value.rest))
  }

  function Prepend(lines: seq<string>, r: Option<Response>): Option<Response> {
    match r case None => None case Some(more) => Some(Response(lines + more.lines, more.rest))
  }

  lemma ReadOneLine(line: string, rest: string)
    requires NoCrlf(line)
    ensures ReadResponse(Stuff(line) + CRLF + rest) == Prepend([line], ReadResponse(rest))
  {
    var stream := Stuff(line) + CRLF + rest;
    if line != "" && line[0] == '.' {
      assert Stuff(line)[1..] == line;
    }
    assert NoCrlf(Stuff(line));
    FindCrlfAfter(Stuff(line), rest);
    assert stream[..|Stuff(line)|] == Stuff(line) && stream[|Stuff(line)| + 2..] == rest;
  }

  /** The stuffed lines, each with its CRLF, as the stream carries them. */
  function Sent(lines: seq<string>, rest: string): string {
    if lines == [] then rest else Stuff(lines[0]) + CRLF + Sent(lines[1..], rest)
  }

  lemma {:induction false} SentIsJoin(lines: seq<string>, rest: string)
    requires lines != []
    ensures Sent(lines, rest) == Join(StuffAll(lines), CRLF) + CRLF + rest
  {
    if |lines| == 1 {
      assert Sent(lines[1..], rest) == rest;
    } else {
      SentIsJoin(lines[1..], rest);
      assert StuffAll(lines)[1..] == StuffAll(lines[1..]);
    }
  }

  lemma PrependTwice(line: string, lines: seq<string>, r: Option<Response>)
    ensures Prepend([line], Prepend(lines, r)) == Prepend([line] + lines, r)
    ensures Prepend([], r) == r
  {
    if r.Some? {
      assert [line] + (lines + r.value.lines) == [line] + lines + r.value.lines;
      assert [] + r.value.lines == r.value.lines;
    }
  }

  lemma {:induction false} ReadLines(lines: seq<string>, rest: string)
    requires forall i :: 0 <= i < |lines| ==> NoCrlf(lines[i])
    ensures ReadResponse(Sent(lines, rest)) == Prepend(lines, ReadResponse(rest))
  {
    if lines == [] {
      PrependTwice("", [], ReadResponse(rest));
    } else {
      ReadLines(lines[1..], rest);
      ReadOneLine(lines[0], Sent(lines[1..], rest));
      PrependTwice(lines[0], lines[1..], ReadResponse(rest));
      assert [lines[0]] + lines[1..] == lines;
    }
  }

  /** A client that reads the stuffed data and the terminator gets back the data, whatever bytes it holds and
      whatever follows in the stream. */
  lemma ReadStuffed(data: string, rest: string)
    ensures var r := ReadResponse(Join(StuffAll(SplitLines(data)), CRLF) + CRLF + "." + CRLF + rest);
      r.Some? && Join(r.value.lines, CRLF) == data && r.value.rest == rest
  {
    var lines := SplitLines(data);
    var end := "." + CRLF + rest;
    SplitLinesJoin(data);
    ReadEnd(rest);
    ReadLines(lines, end);
    SentIsJoin(lines, end);
    Regroup(Join(StuffAll(lines), CRLF), CRLF, ".", CRLF, rest);
    assert Prepend(lines, Some(Response([], rest))) == Some(Response(lines, rest)) by { assert lines + [] == lines; }
  }

  lemma ReadEnd(rest: string)
    ensures ReadResponse("." + CRLF + rest) == Some(Response([], rest))
  {
    var end := "." + CRLF + rest;
    FindCrlfAfter(".", rest);
    assert end[..1] == "." && end[3..] == rest;
  }

  lemma Regroup(a: string, b: string, c: string, d: string, e: string)
    ensures a + b + c + d + e == a + b + (c + d + e)
  {
  }

  function Dotted(lines: seq<string>): nat {
    if lines == [] then 0 else (if "." <= lines[0] then 1 else 0) + Dotted(lines[1..])
  }

  lemma {:induction false} StuffedLength(lines: seq<string>)
    ensures |Join(StuffAll(lines), CRLF)| == |Join(lines, CRLF)| + Dotted(lines)
    ensures Dotted(lines) == 0 <==> forall line :: line in lines ==> !("." <= line)
  {
    if lines != [] {
      StuffedLength(lines[1..]);
      assert StuffAll(lines)[1..] == StuffAll(lines[1..]);
      assert lines[0] in lines;
      assert forall line :: line in lines <==> line == lines[0] || line in lines[1..];
    }
  }

  lemma {:induction false} StuffAllKeeps(lines: seq<string>)
    requires forall line :: line in lines ==> !("." <= line)
    ensures StuffAll(lines) == lines
  {
    forall i | 0 <= i < |lines| ensures StuffAll(lines)[i] == lines[i] {
      assert lines[i] in lines;
      assert lines[i] != "" ==> lines[i][..1] == [lines[i][0]];
    }
  }

  /** The data grow by one byte for each line that starts with a dot, and are left alone exactly if there is none. */
  lemma StuffedAddsDots(data: string)
    ensures
      var lines, stuffed := SplitLines(data), Join(StuffAll(SplitLines(data)), CRLF);
      && |stuffed| == |data| + Dotted(lines)
      && (stuffed == data <==> forall line :: line in lines ==> !("." <= line))
  {
    var lines := SplitLines(data);
    SplitLinesJoin(data);
    StuffedLength(lines);
    if forall line :: line in lines ==> !("." <= line) {
      StuffAllKeeps(lines);
    }
  }
}
