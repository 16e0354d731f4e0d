/** Decimal numerals, and the text operations `str.split` and `str.join`. Byte strings are strings of
    characters below 256, as `latin-1` decodes them. */
module Text {

  /** Python's whitespace, for bytes. */
  predicate IsSpace(c: char) { c == ' ' || 9 <= c as int <= 13 }

  predicate IsDigit(c: char) { '0' <= c <= '9' }

  /** Python's `isdigit`, for ASCII text. */
  predicate AllDigits(s: string) {
    s != "" && forall c :: c in s ==> IsDigit(c)
  }

  function DigitChar(d: nat): (c: char)
    requires d < 10
  {
    ['0', '1', '2', '3', '4', '5', '6', '7', '8', '9'][d]
  }

  /** `str(n)`. */
  function Dec(n: nat): (s: string)
    ensures AllDigits(s)
  {
    if n < 10 then [DigitChar(n)] else Dec(n / 10) + [DigitChar(n % 10)]
  }

  /** `int(s)` of a string of digits. */
  function ToNat(s: string): (n: nat)
    requires forall c :: c in s ==> IsDigit(c)
  {
    if s == "" then 0
    else
      assert IsDigit(s[|s| - 1]);
      10 * ToNat(s[..|s| - 1]) + ((s[|s| - 1] as int) - ('0' as int))
  }

  lemma {:induction false} DecRoundTrip(n: nat)
    ensures ToNat(Dec(n)) == n
  {
    if n >= 10 {
      var s := Dec(n);
      assert s[..|s| - 1] == Dec(n / 10);
      DecRoundTrip(n / 10);
    } else {
      assert Dec(n)[..0] == "";
    }
  }

  /** The number of leading characters of `s` that satisfy `p`: how far a greedy `[...]*` reaches. */
  function Span(p: char -> bool, s: string): (k: nat)
    ensures k <= |s|
    ensures forall i :: 0 <= i < k ==> p(s[i])
    ensures k < |s| ==> !p(s[k])
  {
    if s != "" && p(s[0]) then 1 + Span(p, s[1..]) else 0
  }

  lemma SpanOf(p: char -> bool, a: string, b: string)
    requires forall c :: c in a ==> p(c)
    requires b == "" || !p(b[0])
    ensures Span(p, a + b) == |a|
  {
    assert forall i :: 0 <= i < |a| ==> (a + b)[i] in a;
    assert b != "" ==> (a + b)[|a|] == b[0];
  }

  /** `s.split(c)` for a one-character separator. */
  function Split(s: string, c: char): (parts: seq<string>)
    ensures parts != []
    ensures forall p :: p in parts ==> c !in p
    ensures Join(parts, [c]) == s
  {
    if s == "" then [""]
    else
      var rest := Split(s[1..], c);
      if s[0] == c then
        assert Join([""] + rest, [c]) == "" + [c] + Join(rest, [c]);
        [""] + rest
      else
        var first := [s[0]] + rest[0];
        assert Join([first] + rest[1..], [c]) == [s[0]] + Join(rest, [c]) by {
          assert ([first] + rest[1..])[1..] == rest[1..];
        }
        [first] + rest[1..]
  }

  /** `sep.join(parts)`. */
  function Join(parts: seq<string>, sep: string): string {
    if parts == [] then ""
    else if |parts| == 1 then parts[0]
    else parts[0] + sep + Join(parts[1..], sep)
  }

  lemma {:induction false} SplitHead(p: string, rest: string, c: char)
    requires c !in p
    ensures Split(p + [c] + rest, c) == [p] + Split(rest, c)
  {
    var s := p + [c] + rest;
    if p == "" {
      assert s[1..] == rest;
    } else {
      assert s[1..] == p[1..] + [c] + rest;
      SplitHead(p[1..], rest, c);
      assert [p[0]] + p[1..] == p;
      assert ([p[1..]] + Split(rest, c))[1..] == Split(rest, c);
    }
  }

  lemma {:induction false} SplitWhole(p: string, c: char)
    requires c !in p
    ensures Split(p, c) == [p]
  {
    if p != "" {
      SplitWhole(p[1..], c);
      assert [p[0]] + p[1..] == p;
    }
  }

  /** Splitting undoes joining when no part contains the separator. */
  lemma {:induction false} SplitJoin(parts: seq<string>, c: char)
    requires parts != []
    requires forall p :: p in parts ==> c !in p
    ensures Split(Join(parts, [c]), c) == parts
  {
    if |parts| == 1 {
      SplitWhole(parts[0], c);
    } else {
      SplitHead(parts[0], Join(parts[1..], [c]), c);
      SplitJoin(parts[1..], c);
    }
  }
}
