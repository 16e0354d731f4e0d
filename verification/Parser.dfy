/** `IMAPClientCommand`'s parsing methods, which consume `input` as they go. */
module Parser {
  import opened Base
  import opened Text
  import opened Syntax
  import opened Sections

  /** The elements read so far, in front of what the rest reads as. */
  function Prefixed<T>(read: seq<T>, rest: Option<seq<T>>): (r: Option<seq<T>>)
    ensures read == [] ==> r == rest
  {
    match rest case None => None case Some(more) => assert [] + more == more; Some(read + more)
  }

  lemma PrefixedSnoc<T>(read: seq<T>, item: T, rest: Option<seq<T>>)
    ensures Prefixed(read, Prefixed([item], rest)) == Prefixed(read + [item], rest)
  {
    if rest.Some? { assert read + ([item] + rest.value) == read + [item] + rest.value; }
  }

  /** The same for a list that may still fail to parse. */
  function After<T>(read: seq<T>, p: Parse<seq<T>>): (r: Parse<seq<T>>)
    ensures read == [] ==> r == p
  {
    if p.result.Err? then p else assert [] + p.result.value == p.result.value; Parse(Ok(read + p.result.value), p.rest)
  }

  lemma AfterSnoc<T>(read: seq<T>, item: T, p: Parse<seq<T>>)
    ensures After(read, After([item], p)) == After(read + [item], p)
  {
    if p.result.Ok? { assert read + ([item] + p.result.value) == read + [item] + p.result.value; }
  }

  class IMAPClientCommand {
    var input: string

    constructor (command: string)
      ensures input == command
    {
      input := command;
    }

    method PSimpleString(s: string) returns (r: Result<string, Fail>)
      modifies this
      ensures Parse(r, input) == SimpleString(s, old(input))
    {
      if |input| >= |s| && Lower(input[..|s|]) == Lower(s) {
        input := input[|s|..];
        return Ok(Lower(s));
      }
      return Err(NoMatch);
    }

    method PChars(p: char -> bool) returns (r: Result<string, Fail>)
      modifies this
      ensures Parse(r, input) == Chars(p, old(input))
    {
      var k := Span(p, input);
      if k == 0 { return Err(NoMatch); }
      r := Ok(input[..k]);
      input := input[k..];
    }

    method PMsgSet() returns (r: Result<SequenceSets.MsgSet, Fail>)
      modifies this
      ensures Parse(r, input) == ParseMsgSet(old(input))
    {
      var text := PChars(IsMsgSetChar);
      if text.Err? { return Err(NoMatch); }
      var seqs := Split(text.value, ',');
      var result: SequenceSets.MsgSet := [];
      var i := 0;
      assert seqs[i..] == seqs;
      while i < |seqs|
        invariant 0 <= i <= |seqs| && input == Chars(IsMsgSetChar, old(input)).rest
        invariant ReadElts(seqs) == Prefixed(result, ReadElts(seqs[i..]))
      {
        var elt := ReadElt(seqs[i]);
        assert seqs[i..][1..] == seqs[i + 1..];
        if elt.None? { return Err(BadSyntax); }
        PrefixedSnoc(result, elt.value, ReadElts(seqs[i + 1..]));
        result := result + [elt.value];
        i := i + 1;
      }
      assert result + [] == result;
      r := Ok(result);
    }

    method PAString() returns (r: Result<string, Fail>)
      modifies this
      ensures Parse(r, input) == AString(old(input))
    {
      r := PChars(IsAtomChar);
      if r.Err? {
        var p := PString(input);
        r, input := p.result, p.rest;
      }
    }

    /** `_p_paren_list_of(self._p_astring)`. */
    method PParenList() returns (r: Result<seq<string>, Fail>)
      modifies this
      ensures Parse(r, input) == ParenList(old(input))
    {
      var open := PSimpleString("(");
      if open.Err? { return Err(NoMatch); }
      var close := PSimpleString(")");
      if close.Ok? { return Ok([]); }
      r := PItems();
    }

    method PItems() returns (r: Result<seq<string>, Fail>)
      modifies this
      ensures Parse(r, input) == Items(old(input))
    {
      var result: seq<string> := [];
      while true
        invariant Items(old(input)) == After(result, Items(input))
        decreases |input|
      {
        ghost var (seen, before) := (result, input);
        var item := PAString();
        if item.Err? { return Err(item.error); }
        result := result + [item.value];
        var close := PSimpleString(")");
        if close.Ok? { return Ok(result); }
        var space := PSimpleString(" ");
        if space.Err? { return Err(NoMatch); }
        AfterSnoc(seen, item.value, Items(input));
        assert Items(before) == After([item.value], Items(input));
      }
    }

    method PSection() returns (r: Result<Section, Fail>)
      modifies this
      ensures Parse(r, input) == ParseSection(old(input))
    {
      var open := PSimpleString("[");
      if open.Err? { return Err(NoMatch); }
      var sectList := PNumbers();
      var close := PSimpleString("]");
      if close.Ok? { return Ok(sectList); }
      var names := SectionNames(sectList != []);
      var section: Result<string, Fail> := Err(BadSyntax);
      var i := 0;
      ghost var before := input;
      while i < |names| && section.Err?
        invariant 0 <= i <= |names|
        invariant section.Err? ==> section == Err(BadSyntax) && input == before
        invariant section.Err? ==> FirstName(names, before) == FirstName(names[i..], before)
        invariant section.Ok? ==> FirstName(names, before) == Parse(section, input)
        decreases |names| - i, section.Err?
      {
        var name := PSimpleString(names[i]);
        assert names[i..][1..] == names[i + 1..];
        if name.Ok? { section := name; } else { i := i + 1; }
      }
      if section.Err? { return Err(BadSyntax); }
      if section.value == FIELDS || section.value == FIELDS_NOT {
        var space := PSimpleString(" ");
        if space.Err? { return Err(NoMatch); }
        var headers := PParenList();
        if headers.Err? { return Err(headers.error); }
        if headers.value == [] { return Err(BadSyntax); }
        sectList := sectList + [Fields(section.value, headers.value)];
      } else {
        sectList := sectList + [Name(section.value)];
      }
      var end := PSimpleString("]");
      if end.Err? { return Err(NoMatch); }
      r := Ok(sectList);
    }

    method PNumbers() returns (result: Section)
      modifies this
      ensures Parse(Ok(result), input) == Numbers(old(input))
    {
      result := [];
      while true
        invariant Numbers(old(input)) == After(result, Numbers(input))
        decreases |input|
      {
        ghost var (seen, before) := (result, input);
        var number := PChars(IsDigit);
        assert result + [] == result;
        if number.Err? { return; }
        var elt := Num(ToNat(number.value));
        result := result + [elt];
        var dot := PSimpleString(".");
        if dot.Err? { return; }
        AfterSnoc(seen, elt, Numbers(input));
        assert Numbers(before) == After([elt], Numbers(input));
      }
    }
  }
}
