/** The root server's reassembly of commands from lines and literals, and its size accounting. */
module Reassembly {
  import opened Base
  import opened Text
  import opened Lines
  import opened Frames

  /** `s.rstrip()`. */
  function RStrip(s: string): (r: string)
    ensures |r| <= |s|
  {
    if s != "" && IsSpace(s[|s| - 1]) then RStrip(s[..|s| - 1]) else s
  }

  /** It takes away exactly the blanks at the end. */
  lemma {:induction false} RStripExact(s: string)
    ensures RStrip(s) <= s && forall i :: |RStrip(s)| <= i < |s| ==> s[i] in SPACES
    ensures RStrip(s) != "" ==> RStrip(s)[|RStrip(s)| - 1] !in SPACES
  {
    if s != "" {
      var rest := s[..|s| - 1];
      SpaceChars(s[|s| - 1]);
      if IsSpace(s[|s| - 1]) { RStripExact(rest); }
    }
  }

  const SPACES := " \t\n\r\U{0B}\U{0C}"

  lemma SpaceChars(c: char)
    ensures IsSpace(c) <==> c in SPACES
  {
    assert SPACES[4] as int == 11 && SPACES[5] as int == 12;
  }

  function Size(parts: seq<string>): nat {
    if parts == [] then 0 else Size(parts[..|parts| - 1]) + |parts[|parts| - 1]|
  }

  lemma {:induction false} JoinSize(parts: seq<string>)
    ensures |Join(parts, "")| == Size(parts)
  {
    if parts != [] {
      JoinSnoc(parts[..|parts| - 1], parts[|parts| - 1]);
      JoinSize(parts[..|parts| - 1]);
      assert parts == parts[..|parts| - 1] + [parts[|parts| - 1]];
    }
  }

  lemma {:induction false} JoinSnoc(parts: seq<string>, last: string)
    ensures Join(parts + [last], "") == Join(parts, "") + last
  {
    if parts != [] {
      assert (parts + [last])[1..] == parts[1..] + [last];
      JoinSnoc(parts[1..], last);
    }
  }

  /** One round of the read loop: the connection closes, or some commands are forwarded, `buf` stays buffered, and
      `rest` is still to be read. */
  datatype Round = Closed | Round(out: seq<string>, buf: string, rest: string)

  function Complete(whole: string): seq<string> {
    if whole == "" || |whole| > MAX_INPUT_SIZE then [] else [whole]
  }

  /** A line that announces a literal of `n` bytes has been buffered. */
  function ReadLiteral(line: string, n: nat, rest: string): (r: Round)
    ensures r.Round? ==> |r.rest| <= |rest| && r.out == []
  {
    if n > MAX_INPUT_SIZE then
      var drained := FindCrlf(rest);
      if drained.None? then Closed else Round([], "", rest[drained.value + 2..])
    else if n > |rest| then Closed
    else
      var whole := line + CRLF + rest[..n];
      Round([], if |whole| > MAX_INPUT_SIZE then "" else whole, rest[n..])
  }

  function ReadRound(buf: string, stream: string): (r: Round)
    ensures r.Round? ==> |r.rest| < |stream|
    ensures r.Round? ==> AllSmall(r.out)
  {
    var eol := FindCrlf(stream);
    if eol.None? then Closed
    else
      var msg := RStrip(stream[..eol.value + 2]);
      var rest := stream[eol.value + 2..];
      var marker := LiteralMarker(msg);
      if marker.None? then Round(Complete(buf + msg), "", rest)
      else ReadLiteral(buf + msg, marker.value.length, rest)
  }

  /** The commands forwarded when `buf` is buffered and `stream` is still to be read. */
  function Forwards(buf: string, stream: string): (out: seq<string>)
    ensures AllSmall(out)
    decreases |stream|
  {
    var r := ReadRound(buf, stream);
    if r.Closed? then [] else r.out + Forwards(r.buf, r.rest)
  }

  ghost predicate AllSmall(msgs: seq<string>) {
    forall m :: m in msgs ==> |m| <= MAX_INPUT_SIZE
  }

  class IMAPClient {
    var ibuffer: seq<string>
    var ibufferSize: nat
    /** The complete commands passed on to the user process, in order. */
    var forwarded: seq<string>

    constructor ()
      ensures Valid() && forwarded == []
    {
      ibuffer, ibufferSize, forwarded := [], 0, [];
    }

    /** The size on record is the size of what is buffered, and nothing oversized has been forwarded. */
    ghost predicate Valid()
      reads this
    {
      && ibufferSize == Size(ibuffer)
      && (ibuffer != [] ==> ibuffer[0] != "")
      && AllSmall(forwarded)
    }

    method Extend(part: string)
      requires ibufferSize == Size(ibuffer)
      modifies `ibuffer, `ibufferSize
      ensures ibuffer == old(ibuffer) + [part]
      ensures ibufferSize == Size(ibuffer)
      ensures Join(ibuffer, "") == old(Join(ibuffer, "")) + part
    {
      JoinSnoc(ibuffer, part);
      ibuffer := ibuffer + [part];
      assert ibuffer[..|ibuffer| - 1] == old(ibuffer);
      ibufferSize := ibufferSize + |part|;
    }

    method Reset()
      modifies `ibuffer, `ibufferSize
      ensures ibuffer == [] && ibufferSize == 0
    {
      ibuffer, ibufferSize := [], 0;
    }

    /** Passes on the buffered command, if there is one, or drops it when it is too large. */
    method Finish()
      requires Valid()
      modifies this
      ensures Valid() && ibuffer == []
      ensures forwarded == old(forwarded) + Complete(old(Join(ibuffer, "")))
    {
      JoinSize(ibuffer);
      JoinEmptyIff(ibuffer);
      if ibuffer == [] { return; }
      var whole := Join(ibuffer, "");
      if ibufferSize <= MAX_INPUT_SIZE {
        forwarded := forwarded + [whole];
      }
      Reset();
    }

    /** Buffers the literal that follows the buffered line, or drops the command when it is too large. */
    method TakeLiteral(length: nat, stream: string) returns (open: bool, rest: string)
      requires Valid() && ibuffer != []
      modifies `ibuffer, `ibufferSize
      ensures Valid()
      ensures var r := ReadLiteral(old(Join(ibuffer, "")), length, stream);
        open == r.Round? && (open ==> rest == r.rest && Join(ibuffer, "") == r.buf)
    {
      if length > MAX_INPUT_SIZE {
        Reset();
        var drained := FindCrlf(stream);
        if drained.None? { return false, stream; }
        return true, stream[drained.value + 2..];
      }
      if length > |stream| { return false, stream; }
      Extend(CRLF);
      Extend(stream[..length]);
      JoinSize(ibuffer);
      if ibufferSize > MAX_INPUT_SIZE {
        Reset();
      }
      return true, stream[length..];
    }

    /** Buffers a line, unless it is blank. */
    method AddLine(msg: string)
      requires Valid()
      modifies `ibuffer, `ibufferSize
      ensures Valid() && Join(ibuffer, "") == old(Join(ibuffer, "")) + msg
      ensures msg != "" ==> ibuffer != []
    {
      assert Join(ibuffer, "") + "" == Join(ibuffer, "");
      if msg != "" { Extend(msg); }
    }

    method OneRound(stream: string) returns (open: bool, rest: string)
      requires Valid()
      modifies this
      ensures Valid()
      ensures var r := ReadRound(old(Join(ibuffer, "")), stream);
        && open == r.Round?
        && (open ==> rest == r.rest && Join(ibuffer, "") == r.buf && forwarded == old(forwarded) + r.out)
        && (!open ==> forwarded == old(forwarded))
    {
      rest := stream;
      assert forwarded + [] == forwarded;
      var eol := FindCrlf(stream);
      if eol.None? { return false, rest; }
      var msg := RStrip(stream[..eol.value + 2]);
      rest := stream[eol.value + 2..];
      AddLine(msg);
      var marker := LiteralMarker(msg);
      if marker.None? {
        Finish();
        return true, rest;
      }
      open, rest := TakeLiteral(marker.value.length, rest);
    }

    method Start(stream: string)
      requires Valid()
      modifies this
      ensures Valid()
      ensures forwarded == old(forwarded) + Forwards("", stream)
    {
      Reset();
      var rest := stream;
      var clientConnected := true;
      ghost var done: seq<string> := [];
      ghost var buf := "";
      while clientConnected
        invariant Valid() && forwarded == old(forwarded) + done
        invariant clientConnected ==> buf == Join(ibuffer, "")
        invariant Forwards("", stream) == done + if clientConnected then Forwards(buf, rest) else []
        decreases clientConnected, |rest|
      {
        ghost var round := ReadRound(buf, rest);
        ghost var more := Forwards(buf, rest);
        clientConnected, rest := OneRound(rest);
        if clientConnected {
          buf := round.buf;
          assert more == round.out + Forwards(buf, rest);
          Reassociate(old(forwarded), done, round.out);
          Reassociate(done, round.out, Forwards(buf, rest));
          done := done + round.out;
        }
      }
    }
  }

  lemma JoinEmptyIff(parts: seq<string>)
    requires parts != [] ==> parts[0] != ""
    ensures Join(parts, "") == "" <==> parts == []
  {
  }

  /** What the root server forwards is decoded by the user process without refusal and without loss, whatever the
      client sent, unless the first command is the word reserved for POP3. */
  lemma ForwardedIsAccepted(stream: string)
    requires Forwards("", stream) != [] ==> Forwards("", stream)[0] != "POP3"
    ensures Decode(FramesOf(Forwards("", stream)), true) == Decoded(Forwards("", stream), Exhausted)
  {
    assert AllSmall(Forwards("", stream));
    DecodeFramesIff(Forwards("", stream));
  }

  // ---------- What a client's command becomes ----------

  /** A command as a client sends it: lines that each announce a literal, and a last line. */
  datatype Command = Last(line: string) | More(line: string, literal: string, next: Command)

  /** The bytes on the wire up to, and without, the final CRLF. */
  function Wire(c: Command): string {
    match c
    case Last(line) => line
    case More(line, literal, next) => line + CRLF + literal + Wire(next)
  }

  /** No line breaks or trailing blanks in the lines; each literal has the length its line announces. */
  predicate WellFormed(c: Command) {
    && NoCrlf(c.line) && (c.line == "" || !IsSpace(c.line[|c.line| - 1]))
    && match c
       case Last(line) => LiteralMarker(line).None?
       case More(line, literal, next) =>
         LiteralMarker(line).Some? && LiteralMarker(line).value.length == |literal| && WellFormed(next)
  }

  lemma RStripBlank(s: string, c: char)
    requires IsSpace(c)
    ensures RStrip(s + [c]) == RStrip(s)
  {
    assert (s + [c])[..|s|] == s;
  }

  lemma RStripOf(line: string)
    requires line == "" || !IsSpace(line[|line| - 1])
    ensures RStrip(line + CRLF) == line
  {
    RStripBlank(line, '\r');
    RStripBlank(line + ['\r'], '\n');
    assert line + CRLF == line + ['\r'] + ['\n'];
  }

  lemma ReadLine(line: string, rest: string)
    requires NoCrlf(line) && (line == "" || !IsSpace(line[|line| - 1]))
    ensures var stream := line + CRLF + rest;
      FindCrlf(stream) == Some(|line|) && RStrip(stream[..|line| + 2]) == line && stream[|line| + 2..] == rest
  {
    var stream := line + CRLF + rest;
    FindCrlfAfter(line, rest);
    RStripOf(line);
    assert stream[..|line| + 2] == line + CRLF;
  }

  lemma LastForwarded(buf: string, line: string, rest: string)
    requires WellFormed(Last(line)) && 0 < |buf + line| <= MAX_INPUT_SIZE
    ensures Forwards(buf, line + CRLF + rest) == [buf + line] + Forwards("", rest)
  {
    ReadLine(line, rest);
  }

  lemma LiteralBuffered(buf: string, line: string, literal: string, rest: string)
    requires NoCrlf(line) && line != "" && !IsSpace(line[|line| - 1])
    requires LiteralMarker(line).Some? && LiteralMarker(line).value.length == |literal|
    requires |buf + line + CRLF + literal| <= MAX_INPUT_SIZE
    ensures Forwards(buf, line + CRLF + (literal + rest)) == Forwards(buf + line + CRLF + literal, rest)
  {
    ReadLine(line, literal + rest);
    assert (literal + rest)[..|literal|] == literal && (literal + rest)[|literal|..] == rest;
    var more := Forwards(buf + line + CRLF + literal, rest);
    assert [] + more == more;
  }

  // ---------- What is dropped ----------

  /** A command that is too large is dropped when its last line has been read. */
  lemma LargeCommandDropped(buf: string, line: string, rest: string)
    requires WellFormed(Last(line)) && |buf + line| > MAX_INPUT_SIZE
    ensures Forwards(buf, line + CRLF + rest) == Forwards("", rest)
  {
    ReadLine(line, rest);
    var more := Forwards("", rest);
    assert [] + more == more;
  }

  /** One that becomes too large with a literal is dropped with it; what follows is taken for a new command. */
  lemma LargeLiteralDropped(buf: string, line: string, literal: string, rest: string)
    requires NoCrlf(line) && line != "" && !IsSpace(line[|line| - 1])
    requires LiteralMarker(line).Some? && LiteralMarker(line).value.length == |literal| <= MAX_INPUT_SIZE
    requires |buf + line + CRLF + literal| > MAX_INPUT_SIZE
    ensures Forwards(buf, line + CRLF + (literal + rest)) == Forwards("", rest)
  {
    ReadLine(line, literal + rest);
    assert (literal + rest)[..|literal|] == literal && (literal + rest)[|literal|..] == rest;
    var more := Forwards("", rest);
    assert [] + more == more;
  }

  /** One that announces a literal above the limit is dropped together with the next line, whatever that is: a client
      that waits for the go-ahead before it sends the literal loses its next command. */
  lemma AnnouncementEatsNextLine(buf: string, line: string, next: string, rest: string)
    requires NoCrlf(line) && line != "" && !IsSpace(line[|line| - 1]) && NoCrlf(next)
    requires LiteralMarker(line).Some? && LiteralMarker(line).value.length > MAX_INPUT_SIZE
    ensures Forwards(buf, line + CRLF + (next + CRLF + rest)) == Forwards("", rest)
  {
    ReadLine(line, next + CRLF + rest);
    FindCrlfAfter(next, rest);
    assert (next + CRLF + rest)[|next| + 2..] == rest;
    var more := Forwards("", rest);
    assert [] + more == more;
  }

  /** An empty line is no command. */
  lemma EmptyLineDropped(blanks: string, rest: string)
    requires NoCrlf(blanks) && forall c :: c in blanks ==> c in SPACES
    ensures Forwards("", blanks + CRLF + rest) == Forwards("", rest)
  {
    var stream := blanks + CRLF + rest;
    FindCrlfAfter(blanks, rest);
    assert stream[..|blanks| + 2] == blanks + CRLF && stream[|blanks| + 2..] == rest;
    RStripExact(blanks + CRLF);
    assert forall c :: c in blanks + CRLF ==> c in SPACES;
    var more := Forwards("", rest);
    assert [] + more == more;
  }

  /** The bytes of a command, nested as the server reads them, followed by `rest`. */
  function Sent(c: Command, rest: string): string {
    match c
    case Last(line) => line + CRLF + rest
    case More(line, literal, next) => line + CRLF + (literal + Sent(next, rest))
  }

  lemma {:induction false} SentIsWire(c: Command, rest: string)
    ensures Sent(c, rest) == Wire(c) + CRLF + rest
  {
    if c.More? { SentIsWire(c.next, rest); }
  }

  lemma WireMore(buf: string, c: Command)
    requires c.More?
    ensures buf + c.line + CRLF + c.literal + Wire(c.next) == buf + Wire(c)
  {
  }

  /** A well-formed command of acceptable size is forwarded whole and exactly, its literals being any bytes. */
  lemma {:induction false} CommandForwarded(buf: string, c: Command, rest: string)
    requires WellFormed(c) && 0 < |buf + Wire(c)| <= MAX_INPUT_SIZE
    ensures Forwards(buf, Sent(c, rest)) == [buf + Wire(c)] + Forwards("", rest)
    decreases c
  {
    match c
    case Last(line) =>
      LastForwarded(buf, line, rest);
    case More(line, literal, next) =>
      WireMore(buf, c);
      LiteralBuffered(buf, line, literal, Sent(next, rest));
      CommandForwarded(buf + line + CRLF + literal, next, rest);
  }
}
