/** FETCH sections: the parser's `_p_section` against the text `FetchAtt.dbg` prints. */
module Sections {
  import opened Base
  import opened Text
  import opened Syntax

  datatype SectElt =
    | Num(n: nat)
    | Name(text: string)
    | Fields(text: string, headers: seq<string>)

  type Section = seq<SectElt>

  const FIELDS_NOT := "header.fields.not"
  const FIELDS := "header.fields"
  const HEADER := "header"
  const TEXT := "text"
  const MIME := "mime"

  // ---------- Printing: the section part of FetchAtt.dbg ----------

  function EltText(elt: SectElt): string {
    match elt
    case Num(n) => Dec(n)
    case Name(text) => Upper(text)
    case Fields(text, headers) => Upper(text) + " (" + Join(headers, " ") + ")"
  }

  function EltTexts(s: Section): (texts: seq<string>)
    ensures |texts| == |s| && forall i :: 0 <= i < |s| ==> texts[i] == EltText(s[i])
  {
    seq(|s|, i requires 0 <= i < |s| => EltText(s[i]))
  }

  function SectionText(s: Section): string {
    "[" + Join(EltTexts(s), ".") + "]"
  }

  lemma ShortNames()
    ensures Upper(HEADER) == "HEADER" && Upper(TEXT) == "TEXT" && Upper(MIME) == "MIME"
  {
  }

  lemma FieldsName()
    ensures Upper(FIELDS) == "HEADER.FIELDS"
  {
  }

  lemma FieldsNotName()
    ensures Upper(FIELDS_NOT) == "HEADER.FIELDS.NOT"
  {
  }

  /** The forms of a section, as section 6.4.5 of RFC 3501 writes them. */
  lemma SectionForms(n: nat, elt: SectElt, headers: seq<string>)
    ensures SectionText([]) == "[]" && SectionText([elt]) == "[" + EltText(elt) + "]"
    ensures SectionText([Num(n), elt]) == "[" + (Dec(n) + "." + EltText(elt)) + "]"
    ensures EltText(Name(HEADER)) == "HEADER" && EltText(Name(TEXT)) == "TEXT" && EltText(Name(MIME)) == "MIME"
    ensures EltText(Fields(FIELDS, headers)) == "HEADER.FIELDS" + " (" + Join(headers, " ") + ")"
    ensures EltText(Fields(FIELDS_NOT, headers)) == "HEADER.FIELDS.NOT" + " (" + Join(headers, " ") + ")"
  {
    ShortNames();
    FieldsName();
    FieldsNotName();
    assert EltTexts([elt]) == [EltText(elt)];
    assert EltTexts([Num(n), elt]) == [Dec(n), EltText(elt)];
    assert [Dec(n), EltText(elt)][1..] == [EltText(elt)];
  }

  // ---------- Parsing ----------

  /** `_p_section`'s loop over `number "."`; it stops at the first piece that does not match. */
  function Numbers(input: string): (p: Parse<Section>)
    ensures p.result.Ok?
    decreases |input|
  {
    var number := Chars(IsDigit, input);
    if number.result.Err? then Parse(Ok([]), input)
    else
      var elt := Num(ToNat(number.result.value));
      var dot := SimpleString(".", number.rest);
      if dot.result.Err? then Parse(Ok([elt]), dot.rest)
      else
        var more := Numbers(dot.rest);
        Parse(Ok([elt] + more.result.value), more.rest)
  }

  /** The section names, in the order they are tried. */
  function SectionNames(afterNumbers: bool): seq<string> {
    [FIELDS_NOT, FIELDS, HEADER, TEXT] + if afterNumbers then [MIME] else []
  }

  function FirstName(names: seq<string>, input: string): Parse<string> {
    if names == [] then Parse(Err(BadSyntax), input)
    else
      var p := SimpleString(names[0], input);
      if p.result.Ok? then p else FirstName(names[1..], input)
  }

  /** The index of the quote that closes a quoted string, from `i` on. */
  function ClosingQuote(s: string, i: nat): (r: Option<nat>)
    requires i <= |s|
    ensures r.Some? ==> i <= r.value < |s|
    decreases |s| - i
  {
    if i == |s| || s[i] == '\r' || s[i] == '\n' then None
    else if s[i] == '"' then Some(i)
    else if s[i] != '\\' then ClosingQuote(s, i + 1)
    else if i + 1 < |s| && (s[i + 1] == '"' || s[i + 1] == '\\') then ClosingQuote(s, i + 2)
    else None
  }

  /** The announced length of a literal and the input after its prefix `{n}CRLF` or `{n+}CRLF`. */
  function LiteralPrefix(input: string): (p: Parse<nat>)
    ensures p.result.Ok? ==> |p.rest| < |input|
  {
    if input == "" || input[0] != '{' then Parse(Err(NoMatch), input)
    else
      var digits := Chars(IsDigit, input[1..]);
      if digits.result.Err? then Parse(Err(NoMatch), input)
      else
        var rest := if digits.rest != "" && digits.rest[0] == '+' then digits.rest[1..] else digits.rest;
        if |rest| < 3 || rest[..3] != "}\r\n" then Parse(Err(NoMatch), input)
        else Parse(Ok(ToNat(digits.result.value)), rest[3..])
  }

  /** `_p_string`: a quoted string, escapes left as they are, or a literal. */
  function PString(input: string): (p: Parse<string>)
    ensures p.result.Ok? ==> |p.rest| < |input|
  {
    var close := if input != "" && input[0] == '"' then ClosingQuote(input, 1) else None;
    if close.Some? then Parse(Ok(input[1..close.value]), input[close.value + 1..])
    else
      var prefix := LiteralPrefix(input);
      if prefix.result.Err? then Parse(Err(NoMatch), input)
      else
        var n := prefix.result.value;
        if n > |prefix.rest| then Parse(Err(BadLiteral), prefix.rest)
        else Parse(Ok(prefix.rest[..n]), prefix.rest[n..])
  }

  function AString(input: string): (p: Parse<string>)
    ensures p.result.Ok? ==> |p.rest| < |input|
  {
    var atom := Chars(IsAtomChar, input);
    if atom.result.Ok? then atom else PString(input)
  }

  /** The items of a non-empty parenthesized list, up to and with its `)`. */
  function Items(input: string): Parse<seq<string>>
    decreases |input|
  {
    var item := AString(input);
    if item.result.Err? then Parse(Err(item.result.error), item.rest)
    else
      var close := SimpleString(")", item.rest);
      if close.result.Ok? then Parse(Ok([item.result.value]), close.rest)
      else
        var space := SimpleString(" ", item.rest);
        if space.result.Err? then Parse(Err(NoMatch), space.rest)
        else
          var more := Items(space.rest);
          if more.result.Err? then more else Parse(Ok([item.result.value] + more.result.value), more.rest)
  }

  function ParenList(input: string): Parse<seq<string>> {
    var open := SimpleString("(", input);
    if open.result.Err? then Parse(Err(NoMatch), open.rest)
    else
      var close := SimpleString(")", open.rest);
      if close.result.Ok? then Parse(Ok([]), close.rest) else Items(open.rest)
  }

  /** What follows the section name `name`. */
  function AfterName(name: string, input: string): Parse<SectElt> {
    if name != FIELDS && name != FIELDS_NOT then Parse(Ok(Name(name)), input)
    else
      var space := SimpleString(" ", input);
      if space.result.Err? then Parse(Err(NoMatch), space.rest)
      else
        var list := ParenList(space.rest);
        if list.result.Err? then Parse(Err(list.result.error), list.rest)
        else if list.result.value == [] then Parse(Err(BadSyntax), list.rest)
        else Parse(Ok(Fields(name, list.result.value)), list.rest)
  }

  function AfterNumbers(nums: Section, input: string): Parse<Section> {
    var close := SimpleString("]", input);
    if close.result.Ok? then Parse(Ok(nums), close.rest)
    else
      var name := FirstName(SectionNames(nums != []), input);
      if name.result.Err? then Parse(Err(name.result.error), name.rest)
      else
        var elt := AfterName(name.result.value, name.rest);
        if elt.result.Err? then Parse(Err(elt.result.error), elt.rest)
        else
          var end := SimpleString("]", elt.rest);
          if end.result.Err? then Parse(Err(NoMatch), end.rest)
          else Parse(Ok(nums + [elt.result.value]), end.rest)
  }

  function ParseSection(input: string): Parse<Section> {
    var open := SimpleString("[", input);
    if open.result.Err? then Parse(Err(NoMatch), open.rest)
    else
      var nums := Numbers(open.rest);
      AfterNumbers(nums.result.value, nums.rest)
  }

  // ---------- Parsing a printed section ----------

  predicate IsAtom(s: string) { s != "" && forall c :: c in s ==> IsAtomChar(c) }

  /** A named part that may end a section; MIME needs a part number before it. */
  predicate ValidTail(elt: SectElt, afterNumbers: bool) {
    match elt
    case Num(_) => false
    case Name(text) => text == HEADER || text == TEXT || (text == MIME && afterNumbers)
    case Fields(text, headers) =>
      (text == FIELDS || text == FIELDS_NOT) && headers != [] && forall h :: h in headers ==> IsAtom(h)
  }

  /** Part numbers, then optionally one named part. */
  predicate WellFormed(s: Section) {
    s != [] ==>
      && (forall i :: 0 <= i < |s| - 1 ==> s[i].Num?)
      && (s[|s| - 1].Num? || ValidTail(s[|s| - 1], |s| > 1))
  }

  /** The part numbers of a section, and the text of its named part. */
  function NumsOf(s: Section): Section {
    if s == [] || !s[0].Num? then [] else [s[0]] + NumsOf(s[1..])
  }

  function TailText(s: Section): string {
    if s == [] || s[|s| - 1].Num? then "" else EltText(s[|s| - 1])
  }

  lemma TailStart(elt: SectElt)
    requires ValidTail(elt, true)
    ensures EltText(elt) != "" && !IsDigit(EltText(elt)[0])
    ensures EltText(elt)[0] in "HTM"
  {
  }

  lemma NumbersNone(rest: string)
    requires rest != "" && !IsDigit(rest[0])
    ensures Numbers(rest) == Parse(Ok([]), rest)
  {
  }

  lemma NumbersLast(n: nat, rest: string)
    requires rest != "" && !IsDigit(rest[0]) && rest[0] != '.'
    ensures Numbers(Dec(n) + rest) == Parse(Ok([Num(n)]), rest)
  {
    DecRoundTrip(n);
    CharsOf(IsDigit, Dec(n), rest);
    assert LowerChar('.') == '.' && LowerChar(rest[0]) != '.';
    Mismatch(".", rest, 0);
  }

  lemma NumbersMore(n: nat, more: string)
    ensures var p := Numbers(more);
      Numbers(Dec(n) + ("." + more)) == Parse(Ok([Num(n)] + p.result.value), p.rest)
  {
    DecRoundTrip(n);
    CharsOf(IsDigit, Dec(n), "." + more);
    SimpleStringOf(".", ".", more);
  }

  /** The printed elements followed by `rest`, nested as the parser reads them. */
  function Printed(s: Section, rest: string): string {
    if s == [] then rest
    else if |s| == 1 then EltText(s[0]) + rest
    else EltText(s[0]) + ("." + Printed(s[1..], rest))
  }

  lemma {:induction false} PrintedIsJoin(s: Section, rest: string)
    ensures Printed(s, rest) == Join(EltTexts(s), ".") + rest
  {
    if |s| > 1 {
      assert EltTexts(s)[1..] == EltTexts(s[1..]);
      PrintedIsJoin(s[1..], rest);
    }
  }

  lemma {:induction false} NumbersOf(s: Section, rest: string)
    requires forall i :: 0 <= i < |s| - 1 ==> s[i].Num?
    requires s != [] ==> s[|s| - 1].Num? || ValidTail(s[|s| - 1], true)
    requires rest != "" && !IsDigit(rest[0]) && rest[0] != '.'
    ensures Numbers(Printed(s, rest)) == Parse(Ok(NumsOf(s)), TailText(s) + rest)
  {
    if s == [] {
      assert TailText(s) + rest == rest;
      NumbersNone(rest);
    } else if |s| > 1 {
      NumbersOf(s[1..], rest);
      NumbersOfMore(s, rest);
    } else if s[0].Num? {
      NumbersOfOne(s, rest);
    } else {
      NumbersOfTail(s, rest);
    }
  }

  lemma NumbersOfMore(s: Section, rest: string)
    requires |s| > 1 && s[0].Num?
    requires Numbers(Printed(s[1..], rest)) == Parse(Ok(NumsOf(s[1..])), TailText(s[1..]) + rest)
    ensures Numbers(Printed(s, rest)) == Parse(Ok(NumsOf(s)), TailText(s) + rest)
  {
    NumbersMore(s[0].n, Printed(s[1..], rest));
    assert TailText(s[1..]) == TailText(s);
    assert Printed(s, rest) == Dec(s[0].n) + ("." + Printed(s[1..], rest));
  }

  lemma NumbersOfTail(s: Section, rest: string)
    requires |s| == 1 && ValidTail(s[0], true)
    ensures Numbers(Printed(s, rest)) == Parse(Ok(NumsOf(s)), TailText(s) + rest)
  {
    TailStart(s[0]);
    NumbersNone(EltText(s[0]) + rest);
  }

  lemma NumbersOfOne(s: Section, rest: string)
    requires |s| == 1 && s[0].Num? && rest != "" && !IsDigit(rest[0]) && rest[0] != '.'
    ensures Numbers(Printed(s, rest)) == Parse(Ok(NumsOf(s)), TailText(s) + rest)
  {
    NumbersLast(s[0].n, rest);
    assert NumsOf(s) == [s[0]] + NumsOf(s[1..]) == [s[0]];
    assert TailText(s) + rest == rest;
  }

  /** Names are printed in upper case and read back in lower case. */
  lemma NameRead(name: string, rest: string)
    requires IsLowerWord(name)
    ensures SimpleString(name, Upper(name) + rest) == Parse(Ok(name), rest)
  {
    assert forall i :: 0 <= i < |name| ==> name[i] in name;
    assert Lower(name) == name && Lower(Upper(name)) == name;
    SimpleStringOf(name, Upper(name), rest);
  }

  lemma ItemsLast(item: string, rest: string)
    requires IsAtom(item)
    ensures Items(item + (")" + rest)) == Parse(Ok([item]), rest)
  {
    CharsOf(IsAtomChar, item, ")" + rest);
    SimpleStringOf(")", ")", rest);
  }

  lemma ItemsMore(item: string, more: string)
    requires IsAtom(item) && Items(more).result.Ok?
    ensures Items(item + (" " + more)) == Parse(Ok([item] + Items(more).result.value), Items(more).rest)
  {
    CharsOf(IsAtomChar, item, " " + more);
    Mismatch(")", " " + more, 0);
    SimpleStringOf(" ", " ", more);
  }

  lemma {:induction false} ItemsRead(headers: seq<string>, rest: string)
    requires headers != [] && forall h :: h in headers ==> IsAtom(h)
    ensures Items(Join(headers, " ") + (")" + rest)) == Parse(Ok(headers), rest)
  {
    var first := headers[0];
    assert IsAtom(first);
    if |headers| == 1 {
      ItemsLast(first, rest);
      assert headers == [first];
    } else {
      var more := Join(headers[1..], " ") + (")" + rest);
      assert Join(headers, " ") + (")" + rest) == first + (" " + more);
      ItemsRead(headers[1..], rest);
      ItemsMore(first, more);
      assert headers == [first] + headers[1..];
    }
  }

  predicate IsLowerWord(s: string) {
    forall c :: c in s ==> LowerChar(UpperChar(c)) == c && LowerChar(c) == c
  }

  /** Of the section names, the one that was printed is found, given what may follow it. */
  lemma FirstNameOf(name: string, afterNumbers: bool, more: string)
    requires name in SectionNames(afterNumbers)
    requires more != "" && more[0] != '.'
    ensures FirstName(SectionNames(afterNumbers), Upper(name) + more) == Parse(Ok(name), more)
  {
    var names := SectionNames(afterNumbers);
    var i :| 0 <= i < |names| && names[i] == name;
    forall j | 0 <= j < i ensures !StartsWith(Upper(name) + more, names[j]) {
      NamesDiffer(afterNumbers, j, i);
      EarlierNameFails(names[j], name, more);
    }
    assert IsLowerWord(name) by { LowerWords(); }
    NameRead(name, more);
    FirstNameAt(names, Upper(name) + more, i);
  }

  /** How each section name differs from those tried before it: at its own end, or at its first letter. */
  lemma NamesDiffer(afterNumbers: bool, j: nat, i: nat)
    requires j < i < |SectionNames(afterNumbers)|
    ensures DiffersFrom(SectionNames(afterNumbers)[j], SectionNames(afterNumbers)[i])
  {
  }

  predicate DiffersFrom(early: string, name: string) {
    || (|early| > |name| && early[|name|] == '.')
    || (early != "" && name != "" && LowerChar(early[0]) != LowerChar(UpperChar(name[0])))
  }

  lemma LowerWords()
    ensures IsLowerWord(FIELDS_NOT) && IsLowerWord(FIELDS) && IsLowerWord(HEADER) && IsLowerWord(TEXT) && IsLowerWord(MIME)
  {
    HeaderWords();
    OtherWords();
    JoinedWord(HEADER, ".fields");
    JoinedWord(FIELDS, ".not");
    assert HEADER + ".fields" == FIELDS;
    assert FIELDS + ".not" == FIELDS_NOT;
  }

  lemma HeaderWords()
    ensures IsLowerWord(HEADER) && IsLowerWord(".fields")
  {
  }

  lemma OtherWords()
    ensures IsLowerWord(".not") && IsLowerWord(TEXT) && IsLowerWord(MIME)
  {
  }

  lemma JoinedWord(a: string, b: string)
    ensures IsLowerWord(a) && IsLowerWord(b) ==> IsLowerWord(a + b)
  {
  }

  lemma {:induction false} FirstNameAt(names: seq<string>, input: string, i: nat)
    requires i < |names|
    requires forall j :: 0 <= j < i ==> !StartsWith(input, names[j])
    requires StartsWith(input, names[i])
    ensures FirstName(names, input) == SimpleString(names[i], input)
  {
    if i > 0 {
      assert forall j :: 0 <= j < i - 1 ==> names[1..][j] == names[j + 1];
      FirstNameAt(names[1..], input, i - 1);
    }
  }

  lemma EarlierNameFails(early: string, name: string, more: string)
    requires more != "" && more[0] != '.'
    requires DiffersFrom(early, name)
    ensures !StartsWith(Upper(name) + more, early)
  {
    var input := Upper(name) + more;
    if |early| > |name| && early[|name|] == '.' {
      assert input[|name|] == more[0];
      Mismatch(early, input, |name|);
    } else {
      assert input[0] == UpperChar(name[0]);
      Mismatch(early, input, 0);
    }
  }

  /** A printed list of header names is what may follow the name of a section with fields. */
  lemma FieldsRead(text: string, headers: seq<string>, rest: string)
    requires (text == FIELDS || text == FIELDS_NOT) && headers != [] && forall h :: h in headers ==> IsAtom(h)
    ensures AfterName(text, " " + ("(" + (Join(headers, " ") + (")" + rest)))) == Parse(Ok(Fields(text, headers)), rest)
  {
    var list := Join(headers, " ") + (")" + rest);
    SimpleStringOf(" ", " ", "(" + list);
    SimpleStringOf("(", "(", list);
    ItemsRead(headers, rest);
    assert IsAtom(headers[0]);
    assert list[0] == headers[0][0] && IsAtomChar(list[0]);
    Mismatch(")", list, 0);
  }

  lemma TailRead(elt: SectElt, afterNumbers: bool, rest: string)
    requires ValidTail(elt, afterNumbers)
    ensures var p := FirstName(SectionNames(afterNumbers), EltText(elt) + ("]" + rest));
      p.result == Ok(elt.text) && AfterName(elt.text, p.rest) == Parse(Ok(elt), "]" + rest)
  {
    match elt
    case Name(text) =>
      FirstNameOf(text, afterNumbers, "]" + rest);
    case Fields(text, headers) =>
      var list := Join(headers, " ") + (")" + ("]" + rest));
      assert EltText(elt) + ("]" + rest) == Upper(text) + (" " + ("(" + list));
      FirstNameOf(text, afterNumbers, " " + ("(" + list));
      FieldsRead(text, headers, "]" + rest);
  }

  lemma {:induction false} NumsOfWhole(s: Section)
    requires forall i :: 0 <= i < |s| - 1 ==> s[i].Num?
    ensures NumsOf(s) == if s != [] && !s[|s| - 1].Num? then s[..|s| - 1] else s
  {
    if s != [] && s[0].Num? {
      NumsOfWhole(s[1..]);
      assert s == [s[0]] + s[1..];
    }
  }

  lemma AfterNumbersClosed(nums: Section, rest: string)
    ensures AfterNumbers(nums, "]" + rest) == Parse(Ok(nums), rest)
  {
    SimpleStringOf("]", "]", rest);
  }

  lemma AfterNumbersTail(nums: Section, elt: SectElt, rest: string)
    requires ValidTail(elt, nums != [])
    ensures AfterNumbers(nums, EltText(elt) + ("]" + rest)) == Parse(Ok(nums + [elt]), rest)
  {
    var input := EltText(elt) + ("]" + rest);
    TailStart(elt);
    assert input[0] == EltText(elt)[0];
    Mismatch("]", input, 0);
    TailRead(elt, nums != [], rest);
    SimpleStringOf("]", "]", rest);
  }

  lemma AfterNumbersRead(s: Section, rest: string)
    requires WellFormed(s)
    ensures AfterNumbers(NumsOf(s), TailText(s) + ("]" + rest)) == Parse(Ok(s), rest)
  {
    NumsOfWhole(s);
    if s == [] || s[|s| - 1].Num? {
      assert TailText(s) + ("]" + rest) == "]" + rest;
      AfterNumbersClosed(s, rest);
    } else {
      var nums, elt := s[..|s| - 1], s[|s| - 1];
      assert NumsOf(s) == nums && TailText(s) == EltText(elt) && nums + [elt] == s;
      AfterNumbersTail(nums, elt, rest);
    }
  }

  /** Parsing a printed section gives the section back and consumes exactly the printed text. */
  lemma ParsePrintedSection(s: Section, rest: string)
    requires WellFormed(s)
    ensures ParseSection(SectionText(s) + rest) == Parse(Ok(s), rest)
  {
    var body := Printed(s, "]" + rest);
    PrintedIsJoin(s, "]" + rest);
    assert SectionText(s) + rest == "[" + body;
    SimpleStringOf("[", "[", body);
    NumbersOf(s, "]" + rest);
    AfterNumbersRead(s, rest);
  }

  // ---------- What the parser accepts ----------

  /** A named part that ends a section, with any header names. */
  predicate EndsSection(elt: SectElt, afterNumbers: bool) {
    match elt
    case Num(_) => false
    case Name(text) => text == "header" || text == "text" || (text == "mime" && afterNumbers)
    case Fields(text, headers) => (text == "header.fields" || text == "header.fields.not") && headers != []
  }

  lemma {:induction false} NumbersAreNumbers(input: string)
    ensures forall i :: 0 <= i < |Numbers(input).result.value| ==> Numbers(input).result.value[i].Num?
    decreases |input|
  {
    var number := Chars(IsDigit, input);
    if number.result.Ok? {
      var dot := SimpleString(".", number.rest);
      if dot.result.Ok? { NumbersAreNumbers(dot.rest); }
    }
  }

  lemma {:induction false} FirstNameIsOne(names: seq<string>, input: string)
    requires forall name :: name in names ==> Lower(name) == name
    ensures FirstName(names, input).result.Ok? ==> FirstName(names, input).result.value in names
  {
    if names != [] { FirstNameIsOne(names[1..], input); }
  }

  lemma NamesAreLower(afterNumbers: bool)
    ensures forall name :: name in SectionNames(afterNumbers) ==> Lower(name) == name
  {
    LowerWords();
    forall name | name in SectionNames(afterNumbers) ensures Lower(name) == name {
      assert IsLowerWord(name);
      assert forall i :: 0 <= i < |name| ==> name[i] in name;
    }
  }

  /** Whatever the input, an accepted section consists of part numbers and at most one named part at its end; MIME comes
      only after a number, and a list of header names is not empty. */
  lemma ParsedIsSection(input: string)
    ensures var p := ParseSection(input);
      p.result.Ok? && p.result.value != [] ==>
        var s := p.result.value;
        && (forall i :: 0 <= i < |s| - 1 ==> s[i].Num?)
        && (s[|s| - 1].Num? || EndsSection(s[|s| - 1], |s| > 1))
  {
    var open := SimpleString("[", input);
    if open.result.Ok? {
      var nums := Numbers(open.rest);
      NumbersAreNumbers(open.rest);
      AfterNumbersIsSection(nums.result.value, nums.rest);
    }
  }

  lemma AfterNumbersIsSection(nums: Section, input: string)
    ensures var p := AfterNumbers(nums, input);
      p.result.Ok? ==>
        p.result.value == nums
        || (|p.result.value| == |nums| + 1 && p.result.value[..|nums|] == nums
            && EndsSection(p.result.value[|nums|], nums != []))
  {
    NamesAreLower(nums != []);
    FirstNameIsOne(SectionNames(nums != []), input);
  }
}
