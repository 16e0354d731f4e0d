/** The IMAP command parser's message sets and fetch sections, against the printers of the same texts. */
module Syntax {
  import opened Base
  import opened Text
  import opened SequenceSets

  datatype Fail = NoMatch | BadSyntax | BadLiteral

  /** The outcome of a parsing method, with the input it leaves. */
  datatype Parse<+T> = Parse(result: Result<T, Fail>, rest: string)

  // ---------- Token parsing: _p_re and _p_simple_string ----------

  function LowerChar(c: char): char {
    if 'A' <= c <= 'Z' then (c as int + 32) as char else c
  }

  function UpperChar(c: char): char {
    if 'a' <= c <= 'z' then (c as int - 32) as char else c
  }

  function Lower(s: string): (r: string)
    ensures |r| == |s| && forall i :: 0 <= i < |s| ==> r[i] == LowerChar(s[i])
  {
    seq(|s|, i requires 0 <= i < |s| => LowerChar(s[i]))
  }

  function Upper(s: string): (r: string)
    ensures |r| == |s| && forall i :: 0 <= i < |s| ==> r[i] == UpperChar(s[i])
  {
    seq(|s|, i requires 0 <= i < |s| => UpperChar(s[i]))
  }

  /** Whether the input starts with `s`, ignoring case. */
  predicate StartsWith(input: string, s: string) {
    |input| >= |s| && Lower(input[..|s|]) == Lower(s)
  }

  function SimpleString(s: string, input: string): Parse<string> {
    if StartsWith(input, s) then Parse(Ok(Lower(s)), input[|s|..]) else Parse(Err(NoMatch), input)
  }

  /** `_p_re` for a greedy one-character class repeated at least once. */
  function Chars(p: char -> bool, input: string): Parse<string> {
    var k := Span(p, input);
    if k == 0 then Parse(Err(NoMatch), input) else Parse(Ok(input[..k]), input[k..])
  }

  predicate IsMsgSetChar(c: char) { IsDigit(c) || c == ',' || c == ':' || c == '*' }

  predicate IsAtomChar(c: char) {
    c as int > 31 && c as int != 127 && c != ' '
    && c != '(' && c != ')' && c != '{' && c != '}' && c != '%' && c != '*' && c != '"' && c != '\\'
  }

  /** The characters of a message set, and those that end an atom. */
  lemma TokenChars(c: char)
    ensures IsMsgSetChar(c) <==> c in "0123456789,:*"
    ensures IsAtomChar(c) <==> c as int > 31 && c as int != 127 && c !in " (){}%*\"\\"
  {
  }

  const CAPITALS := "ABCDEFGHIJKLMNOPQRSTUVWXYZ"
  const SMALL_LETTERS := "abcdefghijklmnopqrstuvwxyz"

  /** Case is that of the English letters. */
  lemma LetterCase(c: char)
    ensures forall i :: 0 <= i < 26 ==> LowerChar(CAPITALS[i]) == SMALL_LETTERS[i] == LowerChar(SMALL_LETTERS[i])
    ensures forall i :: 0 <= i < 26 ==> UpperChar(SMALL_LETTERS[i]) == CAPITALS[i] == UpperChar(CAPITALS[i])
    ensures c !in CAPITALS ==> LowerChar(c) == c
    ensures c !in SMALL_LETTERS ==> UpperChar(c) == c
  {
    assert forall i :: 0 <= i < 26 ==> CAPITALS[i] as int == 65 + i && SMALL_LETTERS[i] as int == 97 + i;
    if 'A' <= c <= 'Z' { assert CAPITALS[c as int - 65] == c; }
    if 'a' <= c <= 'z' { assert SMALL_LETTERS[c as int - 97] == c; }
  }

  lemma CharsOf(p: char -> bool, a: string, b: string)
    requires a != "" && forall c :: c in a ==> p(c)
    requires b == "" || !p(b[0])
    ensures Chars(p, a + b) == Parse(Ok(a), b)
  {
    SpanOf(p, a, b);
    assert (a + b)[..|a|] == a && (a + b)[|a|..] == b;
  }

  lemma SimpleStringOf(s: string, input: string, b: string)
    requires Lower(input) == Lower(s)
    ensures SimpleString(s, input + b) == Parse(Ok(Lower(s)), b)
  {
    assert |input| == |Lower(input)| == |s|;
    assert (input + b)[..|s|] == input && (input + b)[|s|..] == b;
  }

  lemma Mismatch(s: string, input: string, i: nat)
    requires i < |s| && i < |input| && LowerChar(s[i]) != LowerChar(input[i])
    ensures !StartsWith(input, s)
  {
    if |input| >= |s| {
      assert Lower(input[..|s|])[i] == LowerChar(input[i]);
      assert Lower(s)[i] == LowerChar(s[i]);
    }
  }

  // ---------- Message sets: msg_set_to_str, is_seq_num, _p_msg_set ----------

  function NumText(num: Num): string {
    match num case N(n) => Dec(n) case Star => "*"
  }

  function EltText(elt: Elt): string {
    match elt
    case One(num) => NumText(num)
    case Pair(lo, hi) => NumText(lo) + ":" + NumText(hi)
  }

  function EltTexts(ms: MsgSet): (texts: seq<string>)
    ensures |texts| == |ms| && forall i :: 0 <= i < |ms| ==> texts[i] == EltText(ms[i])
  {
    seq(|ms|, i requires 0 <= i < |ms| => EltText(ms[i]))
  }

  function MsgSetToStr(ms: Option<MsgSet>): string {
    match ms
    case None => ""
    case Some(elts) => Join(EltTexts(elts), ",")
  }

  function IsSeqNum(val: string): Option<Num> {
    if AllDigits(val) then Some(N(ToNat(val)))
    else if val == "*" then Some(Star)
    else None
  }

  function ReadElt(text: string): Option<Elt> {
    var sn := IsSeqNum(text);
    if sn.Some? then Some(One(sn.value))
    else
      var parts := Split(text, ':');
      if |parts| != 2 then None
      else
        var lo, hi := IsSeqNum(parts[0]), IsSeqNum(parts[1]);
        if lo.None? || hi.None? then None else Some(Pair(lo.value, hi.value))
  }

  function ReadElts(texts: seq<string>): Option<MsgSet> {
    if texts == [] then Some([])
    else
      var elt, rest := ReadElt(texts[0]), ReadElts(texts[1..]);
      if elt.None? || rest.None? then None else Some([elt.value] + rest.value)
  }

  function ParseMsgSet(input: string): Parse<MsgSet> {
    var p := Chars(IsMsgSetChar, input);
    if p.result.Err? then Parse(Err(NoMatch), p.rest)
    else
      var elts := ReadElts(Split(p.result.value, ','));
      if elts.None? then Parse(Err(BadSyntax), p.rest) else Parse(Ok(elts.value), p.rest)
  }

  lemma NumTextRead(num: Num)
    ensures IsSeqNum(NumText(num)) == Some(num)
    ensures ':' !in NumText(num) && NumText(num) != ""
    ensures forall c :: c in NumText(num) ==> IsMsgSetChar(c) && c != ','
  {
    if num.N? { DecRoundTrip(num.n); } else { assert '*' in "*" && !IsDigit('*'); }
  }

  lemma EltTextRead(elt: Elt)
    ensures ReadElt(EltText(elt)) == Some(elt)
    ensures EltText(elt) != "" && forall c :: c in EltText(elt) ==> IsMsgSetChar(c) && c != ','
  {
    match elt
    case One(num) => NumTextRead(num);
    case Pair(lo, hi) =>
      NumTextRead(lo);
      NumTextRead(hi);
      var text := EltText(elt);
      assert text[|NumText(lo)|] == ':';
      assert ':' in text && !IsDigit(':');
      SplitHead(NumText(lo), NumText(hi), ':');
      SplitWhole(NumText(hi), ':');
  }

  lemma {:induction false} EltTextsRead(ms: MsgSet)
    ensures ReadElts(EltTexts(ms)) == Some(ms)
  {
    if ms == [] {
      assert EltTexts(ms) == [];
    } else {
      EltTextRead(ms[0]);
      assert EltTexts(ms)[1..] == EltTexts(ms[1..]);
      EltTextsRead(ms[1..]);
      assert ms == [ms[0]] + ms[1..];
    }
  }

  lemma {:induction false} JoinAll(parts: seq<string>, sep: string, p: char -> bool)
    requires forall c :: c in sep ==> p(c)
    requires forall s, c :: s in parts && c in s ==> p(c)
    ensures forall c :: c in Join(parts, sep) ==> p(c)
  {
    if |parts| > 1 { JoinAll(parts[1..], sep, p); }
  }

  /** Parsing a printed message set gives the set back and consumes exactly the printed text. */
  lemma ParsePrintedMsgSet(ms: MsgSet, rest: string)
    requires ms != []
    requires rest == "" || rest[0] !in "0123456789,:*"
    ensures ParseMsgSet(MsgSetToStr(Some(ms)) + rest) == Parse(Ok(ms), rest)
  {
    var texts := EltTexts(ms);
    if rest != "" { TokenChars(rest[0]); }
    forall s, c | s in texts && c in s ensures IsMsgSetChar(c) && c != ',' && s != "" {
      var i :| 0 <= i < |texts| && texts[i] == s;
      EltTextRead(ms[i]);
    }
    JoinAll(texts, ",", IsMsgSetChar);
    EltTextRead(ms[0]);
    assert texts[0] != "";
    CharsOf(IsMsgSetChar, MsgSetToStr(Some(ms)), rest);
    SplitJoin(texts, ',');
    EltTextsRead(ms);
  }
}
