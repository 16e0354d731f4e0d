/** The length-prefixed messages between the root server and a user process. */
module Frames {
  import opened Base
  import opened Text

  const MAX_INPUT_SIZE: nat := 10 * 1024 * 1024

  /** The regular expression `\{(\d+)(\+)?\}$` searched in a line without its terminator. */
  datatype Marker = Marker(length: nat, plus: bool)

  /** The number of digits at the end of `s`. */
  function TrailingDigits(s: string): (k: nat)
    ensures k <= |s|
    ensures forall i :: |s| - k <= i < |s| ==> IsDigit(s[i])
    ensures k < |s| ==> !IsDigit(s[|s| - k - 1])
  {
    if s != "" && IsDigit(s[|s| - 1]) then 1 + TrailingDigits(s[..|s| - 1]) else 0
  }

  /** `{digits` at the end of `text`. */
  function MarkerIn(text: string, plus: bool): Option<Marker> {
    var k := TrailingDigits(text);
    if k == 0 || k == |text| || text[|text| - k - 1] != '{' then None
    else Some(Marker(ToNat(text[|text| - k..]), plus))
  }

  function LiteralMarker(line: string): Option<Marker> {
    if line == "" || line[|line| - 1] != '}' then None
    else if |line| > 1 && line[|line| - 2] == '+' then MarkerIn(line[..|line| - 2], true)
    else MarkerIn(line[..|line| - 1], false)
  }

  lemma TrailingDigitsOf(a: string, digits: string)
    requires forall c :: c in digits ==> IsDigit(c)
    requires a == "" || !IsDigit(a[|a| - 1])
    ensures TrailingDigits(a + digits) == |digits|
  {
    var s := a + digits;
    assert forall i :: |a| <= i < |s| ==> s[i] in digits;
    assert a != "" ==> s[|a| - 1] == a[|a| - 1];
  }

  lemma MarkerInOf(a: string, n: nat, plus: bool)
    ensures MarkerIn(a + ['{'] + Dec(n), plus) == Some(Marker(n, plus))
  {
    var text := a + ['{'] + Dec(n);
    DecRoundTrip(n);
    TrailingDigitsOf(a + ['{'], Dec(n));
    assert text[|text| - |Dec(n)|..] == Dec(n);
  }

  lemma LiteralMarkerOf(a: string, n: nat, plus: bool)
    ensures LiteralMarker((a + ['{'] + Dec(n)) + (if plus then ['+', '}'] else ['}'])) == Some(Marker(n, plus))
  {
    var text := a + ['{'] + Dec(n);
    MarkerInOf(a, n, plus);
    assert text[|text| - 1] == Dec(n)[|Dec(n)| - 1] && Dec(n)[|Dec(n)| - 1] in Dec(n);
    MarkerAtEnd(text, plus);
  }

  lemma MarkerAtEnd(text: string, plus: bool)
    requires text != "" && text[|text| - 1] != '+'
    ensures LiteralMarker(text + (if plus then ['+', '}'] else ['}'])) == MarkerIn(text, plus)
  {
    var line := text + (if plus then ['+', '}'] else ['}']);
    assert line[..|text|] == text;
  }

  /** The line ends with `{n}` or `{n+}`, its brace standing at this place. */
  predicate Announces(line: string, at: nat, n: nat, plus: bool) {
    var end := |line| - if plus then 2 else 1;
    && at + 1 < end && line[at] == '{' && line[end..] == (if plus then "+}" else "}")
    && AllDigits(line[at + 1..end]) && ToNat(line[at + 1..end]) == n
  }

  /** `{digits` stands at the end of `text` from this place on. */
  predicate EndsInNumber(text: string, at: nat, n: nat) {
    at + 1 < |text| && text[at] == '{' && AllDigits(text[at + 1..]) && ToNat(text[at + 1..]) == n
  }

  lemma MarkerInIff(text: string, n: nat, plus: bool)
    ensures MarkerIn(text, plus) == Some(Marker(n, plus)) <==> exists at: nat :: EndsInNumber(text, at, n)
  {
    if at: nat :| EndsInNumber(text, at, n) {
      MarkerFromEnd(text, at, n, plus);
    }
    if MarkerIn(text, plus) == Some(Marker(n, plus)) {
      assert EndsInNumber(text, |text| - TrailingDigits(text) - 1, n);
    }
  }

  lemma MarkerFromEnd(text: string, at: nat, n: nat, plus: bool)
    requires EndsInNumber(text, at, n)
    ensures MarkerIn(text, plus) == Some(Marker(n, plus))
  {
    assert text == text[..at + 1] + text[at + 1..];
    TrailingDigitsOf(text[..at + 1], text[at + 1..]);
  }

  /** A literal is announced exactly by such a line. */
  lemma LiteralMarkerIff(line: string, n: nat, plus: bool)
    ensures LiteralMarker(line) == Some(Marker(n, plus)) <==> exists at: nat :: Announces(line, at, n, plus)
  {
    var mark := if plus then "+}" else "}";
    if |mark| < |line| && line[|line| - |mark|..] == mark {
      var text := line[..|line| - |mark|];
      MarkerInIff(text, n, plus);
      assert line[|line| - 1] == mark[|mark| - 1] && (plus ==> line[|line| - 2] == mark[0]);
      forall at: nat ensures Announces(line, at, n, plus) <==> EndsInNumber(text, at, n) {
        if at + 1 < |text| { assert text[at + 1..] == line[at + 1..|text|]; }
      }
      if !plus && |line| > 1 && line[|line| - 2] == '+' { NoNumberAfterPlus(text, n); }
    } else {
      NotAnnounced(line, n, plus);
    }
  }

  lemma NoNumberAfterPlus(text: string, n: nat)
    requires text != "" && text[|text| - 1] == '+'
    ensures forall at: nat :: !EndsInNumber(text, at, n)
  {
    forall at: nat ensures !EndsInNumber(text, at, n) {
      if at + 1 < |text| {
        var tail := text[at + 1..];
        assert tail[|tail| - 1] == '+' && '+' in tail && !IsDigit('+');
      }
    }
  }

  lemma NotAnnounced(line: string, n: nat, plus: bool)
    requires var mark := if plus then "+}" else "}"; |line| <= |mark| || line[|line| - |mark|..] != mark
    ensures LiteralMarker(line) != Some(Marker(n, plus))
  {
    if plus && |line| > 1 && line[|line| - 1] == '}' && line[|line| - 2] == '+' {
      assert line[|line| - 2..] == "+}";
    }
    if !plus && line != "" && line[|line| - 1] == '}' {
      assert line[|line| - 1..] == "}";
    }
  }

  function FindChar(s: string, c: char): (r: Option<nat>)
    ensures r.Some? ==> r.value < |s| && s[r.value] == c
  {
    if s == "" then None
    else if s[0] == c then Some(0)
    else
      var r := FindChar(s[1..], c);
      if r.None? then None else Some(r.value + 1)
  }

  lemma {:induction false} FindCharAfter(a: string, c: char, rest: string)
    requires c !in a
    ensures FindChar(a + [c] + rest, c) == Some(|a|)
  {
    if a != "" {
      assert (a + [c] + rest)[1..] == a[1..] + [c] + rest;
      FindCharAfter(a[1..], c, rest);
    }
  }

  // ---------- Encoding: IMAPSubprocessInterface.message ----------

  function Header(n: nat): string { ([] + ['{'] + Dec(n)) + ['}'] }

  function Frame(msg: string): string { Header(|msg|) + ['\n'] + msg }

  function FramesOf(msgs: seq<string>): string {
    if msgs == [] then "" else Frame(msgs[0]) + FramesOf(msgs[1..])
  }

  lemma FrameForm()
    ensures Frame("abc") == "{3}\nabc"
  {
    assert Dec(3) == "3";
  }

  // ---------- Decoding: the first part of IMAPClientProxy.run ----------

  /** Why the read loop ends: the stream is exhausted, a bad or oversized header, or a POP3 connection. */
  datatype End = Exhausted | BadHeader | TooLarge | Pop3

  datatype Decoded = Decoded(msgs: seq<string>, end: End)

  function Prepend(msgs: seq<string>, d: Decoded): Decoded {
    Decoded(msgs + d.msgs, d.end)
  }

  lemma PrependTwice(a: seq<string>, b: seq<string>, d: Decoded)
    ensures Prepend(a, Prepend(b, d)) == Prepend(a + b, d)
    ensures Prepend([], d) == d
  {
    assert a + (b + d.msgs) == a + b + d.msgs;
    assert [] + d.msgs == d.msgs;
  }

  function Decode(stream: string, first: bool): Decoded
    decreases |stream|
  {
    var eol := FindChar(stream, '\n');
    if eol.None? then Decoded([], Exhausted)
    else
      var header, rest := stream[..eol.value], stream[eol.value + 1..];
      var marker := LiteralMarker(header);
      if marker.None? then Decoded([], BadHeader)
      else
        var length := marker.value.length;
        if length > MAX_INPUT_SIZE then Decoded([], TooLarge)
        else if length > |rest| then Decoded([], Exhausted)
        else if first && rest[..length] == "POP3" then Decoded([], Pop3)
        else Prepend([rest[..length]], Decode(rest[length..], false))
  }

  class IMAPClientProxy {
    var clientConnected: bool
    var firstMessage: bool
    /** The messages handed to the command processor, in order. */
    var received: seq<string>

    constructor ()
      ensures received == []
    {
      clientConnected, firstMessage, received := false, true, [];
    }

    method Run(stream: string) returns (end: End)
      requires received == []
      modifies this
      ensures Decode(stream, true) == Decoded(received, end)
    {
      clientConnected := true;
      firstMessage := true;
      var rest := stream;
      end := Exhausted;
      PrependTwice([], [], Decode(stream, true));
      while clientConnected
        invariant clientConnected ==> Decode(stream, true) == Prepend(received, Decode(rest, firstMessage))
        invariant !clientConnected ==> Decode(stream, true) == Decoded(received, end)
        decreases clientConnected, |rest|
      {
        assert received + [] == received;
        var eol := FindChar(rest, '\n');
        if eol.None? { return Exhausted; }
        ghost var before := rest;
        var header := rest[..eol.value];
        rest := rest[eol.value + 1..];
        var marker := LiteralMarker(header);
        if marker.None? {
          end, clientConnected := BadHeader, false;
        } else if marker.value.length > MAX_INPUT_SIZE {
          end, clientConnected := TooLarge, false;
        } else {
          var length := marker.value.length;
          if length > |rest| { return Exhausted; }
          var msg := rest[..length];
          if firstMessage && msg == "POP3" { return Pop3; }
          rest := rest[length..];
          DecodeNext(before, firstMessage);
          PrependTwice(received, [msg], Decode(rest, false));
          firstMessage := false;
          received := received + [msg];
        }
      }
    }
  }

  /** What the stream holds if it starts with a frame that is passed on. */
  lemma DecodeNext(stream: string, first: bool)
    requires FindChar(stream, '\n').Some?
    ensures var eol := FindChar(stream, '\n').value;
      var rest, marker := stream[eol + 1..], LiteralMarker(stream[..eol]);
      marker.Some? && marker.value.length <= MAX_INPUT_SIZE && marker.value.length <= |rest|
      && !(first && rest[..marker.value.length] == "POP3")
      ==> Decode(stream, first) == Prepend([rest[..marker.value.length]], Decode(rest[marker.value.length..], false))
  {
  }

  lemma DecodeOne(msg: string, rest: string, first: bool)
    requires |msg| <= MAX_INPUT_SIZE
    ensures Decode(Header(|msg|) + ['\n'] + (msg + rest), first) ==
      if first && msg == "POP3" then Decoded([], Pop3) else Prepend([msg], Decode(rest, false))
  {
    var header := Header(|msg|);
    var stream := header + ['\n'] + (msg + rest);
    LiteralMarkerOf([], |msg|, false);
    assert '\n' !in Dec(|msg|);
    FindCharAfter(header, '\n', msg + rest);
    assert stream[..|header|] == header && stream[|header| + 1..] == msg + rest;
    assert (msg + rest)[..|msg|] == msg && (msg + rest)[|msg|..] == rest;
  }

  lemma FramesCons(msgs: seq<string>, rest: string)
    requires msgs != []
    ensures FramesOf(msgs) + rest == Header(|msgs[0]|) + ['\n'] + (msgs[0] + (FramesOf(msgs[1..]) + rest))
  {
    Regroup(Header(|msgs[0]|), ['\n'], msgs[0], FramesOf(msgs[1..]), rest);
  }

  lemma Regroup(a: string, b: string, c: string, d: string, e: string)
    ensures a + b + c + d + e == a + b + (c + (d + e))
  {
    assert (a + b) + c + d == (a + b) + (c + d);
    assert (a + b) + (c + d) + e == (a + b) + (c + d + e);
    assert c + d + e == c + (d + e);
  }

  /** Whatever bytes the messages contain, decoding their frames gives back exactly the messages and then what
      follows. */
  lemma {:induction false} DecodeFramesThen(msgs: seq<string>, rest: string)
    requires forall i :: 0 <= i < |msgs| ==> |msgs[i]| <= MAX_INPUT_SIZE
    ensures Decode(FramesOf(msgs) + rest, false) == Prepend(msgs, Decode(rest, false))
  {
    if msgs == [] {
      assert FramesOf(msgs) + rest == rest;
      PrependTwice([], [], Decode(rest, false));
    } else {
      FramesCons(msgs, rest);
      DecodeOne(msgs[0], FramesOf(msgs[1..]) + rest, false);
      DecodeFramesThen(msgs[1..], rest);
      PrependTwice([msgs[0]], msgs[1..], Decode(rest, false));
      assert [msgs[0]] + msgs[1..] == msgs;
    }
  }

  lemma DecodeWhole(msgs: seq<string>)
    requires msgs != [] && forall m :: m in msgs ==> |m| <= MAX_INPUT_SIZE
    ensures Decode(FramesOf(msgs), true)
      == if msgs[0] == "POP3" then Decoded([], Pop3) else Prepend(msgs, Decoded([], Exhausted))
  {
    var tail := FramesOf(msgs[1..]);
    assert msgs[0] in msgs && tail + "" == tail && FramesOf(msgs) + "" == FramesOf(msgs);
    FramesCons(msgs, "");
    DecodeOne(msgs[0], tail, true);
    DecodeFramesThen(msgs[1..], "");
    assert Decode("", false) == Decoded([], Exhausted);
    PrependTwice([msgs[0]], msgs[1..], Decoded([], Exhausted));
    assert [msgs[0]] + msgs[1..] == msgs;
  }

  /** A whole connection decodes to exactly its messages if and only if none is oversized and the first one is not
      the word that opens a POP3 session. */
  lemma DecodeFramesIff(msgs: seq<string>)
    ensures Decode(FramesOf(msgs), true) == Decoded(msgs, Exhausted)
      <==> (forall m :: m in msgs ==> |m| <= MAX_INPUT_SIZE) && (msgs != [] ==> msgs[0] != "POP3")
  {
    if msgs != [] {
      if forall m :: m in msgs ==> |m| <= MAX_INPUT_SIZE {
        DecodeWhole(msgs);
        assert msgs + [] == msgs;
      } else {
        DecodedAreSmall(FramesOf(msgs), true);
      }
    }
  }

  /** The limit is ten mebibytes, inclusive. */
  lemma TenMebibytes(msg: string)
    requires msg != "POP3"
    ensures Decode(FramesOf([msg]), true) == Decoded([msg], Exhausted) <==> |msg| <= 10485760
  {
    DecodeFramesIff([msg]);
    assert msg in [msg];
  }

  /** The user process never accepts an oversized message. */
  lemma {:induction false} DecodedAreSmall(stream: string, first: bool)
    ensures forall m :: m in Decode(stream, first).msgs ==> |m| <= MAX_INPUT_SIZE
    decreases |stream|
  {
    var eol := FindChar(stream, '\n');
    if eol.Some? {
      var rest := stream[eol.value + 1..];
      var marker := LiteralMarker(stream[..eol.value]);
      if marker.Some? && marker.value.length <= |rest| {
        DecodedAreSmall(rest[marker.value.length..], false);
      }
    }
  }
}
