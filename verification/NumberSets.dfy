/** Numbers as text: MH sequence strings, COPYUID lists, and IMAP message sets. */
module NumberSets {
  import opened Base
  import opened Text

  // ---------- Runs of consecutive numbers ----------

  /** A maximal run of consecutive numbers, both ends included. */
  datatype Run = Run(lo: nat, hi: nat)

  /** The length of the first group of `groupby(s, key=n - index)`, given that the group holds `k` items. */
  function GroupLen(s: seq<nat>, k: nat): (n: nat)
    requires 0 < k <= |s|
    requires forall i :: 0 <= i < k ==> s[i] - i == s[0]
    ensures k <= n <= |s|
    ensures forall i :: 0 <= i < n ==> s[i] - i == s[0]
    decreases |s| - k
  {
    if k < |s| && s[k] - k == s[0] then GroupLen(s, k + 1) else k
  }

  function Runs(s: seq<nat>): (runs: seq<Run>)
    ensures s != [] ==> runs != []
    ensures forall r :: r in runs ==> r.lo <= r.hi
  {
    if s == [] then []
    else
      var n := GroupLen(s, 1);
      [Run(s[0], s[n - 1])] + Runs(s[n..])
  }

  function Unrun(runs: seq<Run>): seq<nat> {
    if runs == [] then [] else Range(runs[0].lo, runs[0].hi) + Unrun(runs[1..])
  }

  /** Grouping into runs loses nothing, whatever the list: its order and repetitions survive. */
  lemma {:induction false} UnrunRuns(s: seq<nat>)
    ensures Unrun(Runs(s)) == s
  {
    if s != [] {
      var n := GroupLen(s, 1);
      var run := Run(s[0], s[n - 1]);
      UnrunRuns(s[n..]);
      FirstGroup(s, n);
      UnrunOne(run, Runs(s[n..]));
      assert Runs(s) == [run] + Runs(s[n..]);
    }
  }

  lemma FirstGroup(s: seq<nat>, n: nat)
    requires 0 < n <= |s| && forall i :: 0 <= i < n ==> s[i] - i == s[0]
    ensures Range(s[0], s[n - 1]) + s[n..] == s
  {
    assert s[n - 1] - (n - 1) == s[0];
    assert Range(s[0], s[n - 1]) == s[..n];
  }

  lemma UnrunOne(run: Run, rest: seq<Run>)
    ensures Unrun([run] + rest) == Range(run.lo, run.hi) + Unrun(rest)
  {
    assert ([run] + rest)[1..] == rest;
  }

  /** Groups are as long as they can be. */
  lemma {:induction false} GroupLenOf(s: seq<nat>, k: nat, n: nat)
    requires 0 < k <= n <= |s| && forall i :: 0 <= i < n ==> s[i] - i == s[0]
    requires n < |s| ==> s[n] - n != s[0]
    ensures GroupLen(s, k) == n
    decreases n - k
  {
    if k < n { GroupLenOf(s, k + 1, n); }
  }

  lemma FirstGroupStays(a: seq<nat>, b: seq<nat>)
    requires a != [] && b != [] && b[0] != a[|a| - 1] + 1
    ensures GroupLen(a + b, 1) == GroupLen(a, 1)
  {
    var n := GroupLen(a, 1);
    GroupLenStops(a, 1);
    assert a[n - 1] - (n - 1) == a[0];
    assert forall i :: 0 <= i < n ==> (a + b)[i] == a[i];
    assert (a + b)[n] == if n < |a| then a[n] else b[0];
    GroupLenOf(a + b, 1, n);
  }

  lemma DropJoin<T>(a: seq<T>, b: seq<T>, n: nat)
    requires 0 < n <= |a|
    ensures (a + b)[n..] == a[n..] + b && (a + b)[0] == a[0] && (a + b)[n - 1] == a[n - 1]
  {
  }

  /** The first run of both. */
  lemma FirstRunStays(a: seq<nat>, b: seq<nat>)
    requires a != [] && b != [] && b[0] != a[|a| - 1] + 1
    ensures var n := GroupLen(a, 1);
      Runs(a + b) == [Run(a[0], a[n - 1])] + Runs(a[n..] + b) && Runs(a) == [Run(a[0], a[n - 1])] + Runs(a[n..])
  {
    FirstGroupStays(a, b);
    DropJoin(a, b, GroupLen(a, 1));
  }

  /** Runs end only where the numbers are not consecutive. */
  lemma {:induction false} RunsJoin(a: seq<nat>, b: seq<nat>)
    requires a != [] && b != [] && b[0] != a[|a| - 1] + 1
    ensures Runs(a + b) == Runs(a) + Runs(b)
    decreases |a|
  {
    var n := GroupLen(a, 1);
    var tail := a[n..];
    FirstRunStays(a, b);
    Reassociate([Run(a[0], a[n - 1])], Runs(tail), Runs(b));
    if tail != [] {
      assert tail[|tail| - 1] == a[|a| - 1];
      RunsJoin(tail, b);
    } else {
      assert tail + b == b && [] + Runs(b) == Runs(b);
    }
  }

  lemma {:induction false} GroupLenStops(s: seq<nat>, k: nat)
    requires 0 < k <= |s| && forall i :: 0 <= i < k ==> s[i] - i == s[0]
    ensures var n := GroupLen(s, k); n < |s| ==> s[n] - n != s[0]
    decreases |s| - k
  {
    if k < |s| && s[k] - k == s[0] { GroupLenStops(s, k + 1); }
  }

  lemma RunsOfRange(a: nat, b: nat)
    requires a <= b
    ensures Runs(Range(a, b)) == [Run(a, b)]
  {
    var s := Range(a, b);
    GroupLenOf(s, 1, |s|);
    assert s[|s|..] == [];
  }

  function RunText(r: Run, sep: char): string {
    if r.lo < r.hi then Dec(r.lo) + [sep] + Dec(r.hi) else Dec(r.lo)
  }

  function RunTexts(runs: seq<Run>, sep: char): (texts: seq<string>)
    ensures |texts| == |runs|
    ensures forall i :: 0 <= i < |runs| ==> texts[i] == RunText(runs[i], sep)
  {
    seq(|runs|, i requires 0 <= i < |runs| => RunText(runs[i], sep))
  }

  lemma RangeText(a: nat, b: nat, sep: char)
    requires a <= b
    ensures Join(RunTexts(Runs(Range(a, b)), sep), ",") == if a < b then Dec(a) + [sep] + Dec(b) else Dec(a)
  {
    RunsOfRange(a, b);
    assert RunTexts([Run(a, b)], sep) == [RunText(Run(a, b), sep)];
  }

  /** Reads one `lo` or `lo<sep>hi` item. */
  function ReadRun(text: string, sep: char): Option<Run> {
    if AllDigits(text) then Some(Run(ToNat(text), ToNat(text)))
    else
      var parts := Split(text, sep);
      if |parts| == 2 && AllDigits(parts[0]) && AllDigits(parts[1])
      then Some(Run(ToNat(parts[0]), ToNat(parts[1])))
      else None
  }

  lemma ReadRunText(r: Run, sep: char)
    requires !IsDigit(sep) && r.lo <= r.hi
    ensures ReadRun(RunText(r, sep), sep) == Some(r)
  {
    DecRoundTrip(r.lo);
    DecRoundTrip(r.hi);
    if r.lo < r.hi {
      var text := RunText(r, sep);
      assert text[|Dec(r.lo)|] == sep && sep in text;
      var parts := [Dec(r.lo), Dec(r.hi)];
      assert text == Join(parts, [sep]);
      SplitJoin(parts, sep);
    }
  }

  lemma RunTextChars(r: Run, sep: char, c: char)
    requires !IsDigit(c) && c != sep
    ensures c !in RunText(r, sep)
  {
  }

  // ---------- MH sequence strings: utils.compact_sequence and expand_sequence ----------

  function Insert(x: nat, s: seq<nat>): (r: seq<nat>)
    ensures forall y :: y in r <==> y in s || y == x
  {
    if s == [] || x <= s[0] then [x] + s else [s[0]] + Insert(x, s[1..])
  }

  /** `sorted(keys)` of a list, which keeps repetitions. */
  function SortList(keys: seq<nat>): (r: seq<nat>)
    ensures forall k :: k in r <==> k in keys
  {
    if keys == [] then [] else Insert(keys[0], SortList(keys[1..]))
  }

  function CompactSequence(keys: seq<nat>): string {
    Join(RunTexts(Runs(SortList(keys)), '-'), ",")
  }

  /** A sequence without gaps is stored as `a-b`, and a single number as itself. */
  lemma CompactForm(a: nat, b: nat)
    requires a <= b
    ensures CompactSequence(Range(a, b)) == if a < b then Dec(a) + "-" + Dec(b) else Dec(a)
  {
    SortedStays(Range(a, b));
    RangeText(a, b, '-');
  }

  lemma {:induction false} SortedStays(s: seq<nat>)
    requires Ascending(s)
    ensures SortList(s) == s
    decreases |s|
  {
    if s != [] {
      AscendingPairs(s);
      SortedStays(s[1..]);
      assert s == [s[0]] + s[1..];
    }
  }

  /** Whitespace of Python's `str`, as far as `latin-1` goes. */
  predicate IsTextSpace(c: char) {
    IsSpace(c) || 28 <= c as int <= 31 || c as int in {0x85, 0xa0}
  }

  /** Whether `s.strip()` is empty. */
  predicate IsBlank(s: string) {
    forall i :: 0 <= i < |s| ==> IsTextSpace(s[i])
  }

  function RunSet(r: Run): set<nat> {
    Elements(Range(r.lo, r.hi))
  }

  /** The keys denoted by the comma-separated items, or None if one of them is malformed. */
  function KeysOf(specs: seq<string>): Option<set<nat>> {
    if specs == [] then Some({})
    else
      var run, rest := ReadRun(specs[0], '-'), KeysOf(specs[1..]);
      if run.None? || rest.None? then None
      else Some(RunSet(run.value) + rest.value)
  }

  /** The same, item by item from the front, as the loop of `expand_sequence` collects them. */
  lemma {:induction false} KeysOfSnoc(specs: seq<string>, last: string)
    ensures var before, run := KeysOf(specs), ReadRun(last, '-');
      KeysOf(specs + [last]) ==
        if before.None? || run.None? then None
        else Some(before.value + RunSet(run.value))
  {
    var all := specs + [last];
    if specs == [] {
      assert all[1..] == [] && all[0] == last;
      var run := ReadRun(last, '-');
      assert run.Some? ==> RunSet(run.value) + {} == {} + RunSet(run.value);
    } else {
      KeysOfSnoc(specs[1..], last);
      assert all[1..] == specs[1..] + [last] && all[0] == specs[0];
      var first, rest, run := ReadRun(specs[0], '-'), KeysOf(specs[1..]), ReadRun(last, '-');
      assert first.Some? && rest.Some? && run.Some? ==>
        RunSet(first.value) + (rest.value + RunSet(run.value)) == RunSet(first.value) + rest.value + RunSet(run.value);
    }
  }

  /** What `expand_sequence` returns: Err is Python's ValueError. */
  function Expanded(contents: string): Result<seq<nat>, string> {
    if IsBlank(contents) then Ok([])
    else match KeysOf(Split(contents, ','))
      case Some(keys) => Ok(SortedNats(keys))
      case None => Err("ValueError")
  }

  method ExpandSequence(contents: string) returns (r: Result<seq<nat>, string>)
    ensures r == Expanded(contents)
  {
    if IsBlank(contents) {
      return Ok([]);
    }
    var keys: set<nat> := {};
    var specs := Split(contents, ',');
    var i := 0;
    while i < |specs|
      invariant 0 <= i <= |specs|
      invariant KeysOf(specs[..i]) == Some(keys)
    {
      KeysOfSnoc(specs[..i], specs[i]);
      TakeNext(specs, i);
      var run := ReadRun(specs[i], '-');
      if run.None? {
        FirstBadItem(specs, i);
        return Err("ValueError");
      }
      keys := keys + RunSet(run.value);
      i := i + 1;
    }
    TakeAll(specs);
    r := Ok(SortedNats(keys));
  }

  lemma {:induction false} FirstBadItem(specs: seq<string>, i: nat)
    requires i < |specs| && ReadRun(specs[i], '-').None?
    ensures KeysOf(specs).None?
  {
    if i > 0 { FirstBadItem(specs[1..], i - 1); }
  }

  lemma {:induction false} KeysOfRuns(runs: seq<Run>)
    requires forall r :: r in runs ==> r.lo <= r.hi
    ensures KeysOf(RunTexts(runs, '-')) == Some(Elements(Unrun(runs)))
  {
    var texts := RunTexts(runs, '-');
    if runs == [] {
      assert texts == [] && Elements(Unrun(runs)) == {};
    } else {
      ReadRunText(runs[0], '-');
      assert RunTexts(runs, '-')[1..] == RunTexts(runs[1..], '-');
      KeysOfRuns(runs[1..]);
      var r, rest := runs[0], Unrun(runs[1..]);
      assert Elements(Range(r.lo, r.hi) + rest) == RunSet(r) + Elements(rest);
    }
  }

  /** A non-empty list of run texts joins to a text that starts with a digit and splits back. */
  lemma RunTextsSplit(runs: seq<Run>, sep: char)
    requires runs != [] && !IsDigit(sep) && sep != ','
    ensures var text := Join(RunTexts(runs, sep), ",");
      text != "" && IsDigit(text[0]) && Split(text, ',') == RunTexts(runs, sep)
  {
    var texts := RunTexts(runs, sep);
    assert texts[0] == RunText(runs[0], sep) && texts[0][0] == Dec(runs[0].lo)[0];
    assert Join(texts, ",")[0] == texts[0][0];
    forall p | p in texts ensures ',' !in p {
      var i :| 0 <= i < |texts| && texts[i] == p;
      RunTextChars(runs[i], sep, ',');
    }
    SplitJoin(texts, ',');
  }

  /** Expanding a compacted list gives its numbers, sorted and without repetitions, for every list of naturals. */
  lemma ExpandCompact(keys: seq<nat>)
    ensures Expanded(CompactSequence(keys)) == Ok(SortedNats(Elements(keys)))
  {
    var sorted := SortList(keys);
    UnrunRuns(sorted);
    assert Elements(sorted) == Elements(keys);
    if keys == [] {
      assert sorted == [] && Elements(keys) == {};
      assert SortedNats({}) == [];
    } else {
      assert keys[0] in sorted;
      ExpandRuns(Runs(sorted));
    }
  }

  lemma ExpandRuns(runs: seq<Run>)
    requires runs != [] && forall r :: r in runs ==> r.lo <= r.hi
    ensures Expanded(Join(RunTexts(runs, '-'), ",")) == Ok(SortedNats(Elements(Unrun(runs))))
  {
    var text := Join(RunTexts(runs, '-'), ",");
    RunTextsSplit(runs, '-');
    KeysOfRuns(runs);
    assert !IsBlank(text) by { assert !IsTextSpace(text[0]); }
  }

  lemma {:induction false} SplitChars(s: string, c: char)
    ensures forall part, x :: part in Split(s, c) && x in part ==> x in s
  {
    if s != "" {
      SplitChars(s[1..], c);
    }
  }

  /** A text without a digit holds no keys if every character of it is one of these, and is refused otherwise. */
  lemma ExpandWithoutDigits(contents: string)
    requires forall c :: c in contents ==> !IsDigit(c)
    ensures
      var blanks := {9, 10, 11, 12, 13, 28, 29, 30, 31, 32, 0x85, 0xa0};
      Expanded(contents) == if forall c :: c in contents ==> c as int in blanks then Ok([]) else Err("ValueError")
  {
    var blanks := {9, 10, 11, 12, 13, 28, 29, 30, 31, 32, 0x85, 0xa0};
    if IsBlank(contents) {
      forall c | c in contents ensures c as int in blanks {
        var i :| 0 <= i < |contents| && contents[i] == c;
      }
    } else {
      var i :| 0 <= i < |contents| && !IsTextSpace(contents[i]);
      assert contents[i] in contents && contents[i] as int !in blanks;
    }
    var specs := Split(contents, ',');
    SplitChars(contents, ',');
    assert specs[0] in specs;
    assert !AllDigits(specs[0]) by {
      assert specs[0] != "" ==> specs[0][0] in contents;
    }
    var parts := Split(specs[0], '-');
    SplitChars(specs[0], '-');
    assert parts[0] in parts;
    assert !AllDigits(parts[0]) by {
      assert parts[0] != "" ==> parts[0][0] in specs[0];
    }
  }

  /** The round trip a mailbox relies on: an ascending list of naturals comes back as it was. */
  lemma ExpandCompactAscending(keys: seq<nat>)
    requires Ascending(keys)
    ensures Expanded(CompactSequence(keys)) == Ok(keys)
  {
    ExpandCompact(keys);
    SortedNatsAscending(Elements(keys));
    AscendingUnique(SortedNats(Elements(keys)), keys);
  }

  // ---------- COPYUID: client._format_copyuid ----------

  function FormatUids(uids: seq<nat>): string {
    Join(RunTexts(Runs(uids), ':'), ",")
  }

  const COPYUID := "[COPYUID "

  function FormatCopyUid(uidValidity: nat, src: seq<nat>, dst: seq<nat>): string {
    COPYUID + (Dec(uidValidity) + " " + FormatUids(src) + " " + FormatUids(dst)) + "]"
  }

  /** The form of the text: runs of consecutive numbers as `a:b`, others by themselves, with commas between. */
  lemma FormatRange(a: nat, b: nat)
    requires a <= b
    ensures FormatUids(Range(a, b)) == if a < b then Dec(a) + ":" + Dec(b) else Dec(a)
  {
    RangeText(a, b, ':');
  }

  lemma FormatGap(uids: seq<nat>, more: seq<nat>)
    requires uids != [] && more != [] && more[0] != uids[|uids| - 1] + 1
    ensures FormatUids(uids + more) == FormatUids(uids) + "," + FormatUids(more)
  {
    RunsJoin(uids, more);
    TextsJoin(Runs(uids), Runs(more), ':');
  }

  /** The whole response code, for runs of messages. */
  lemma CopyUidForm(uidValidity: nat, a: nat, b: nat, c: nat, d: nat)
    requires a < b && c < d
    ensures FormatCopyUid(uidValidity, Range(a, b), Range(c, d))
      == "[COPYUID " + (Dec(uidValidity) + " " + (Dec(a) + ":" + Dec(b)) + " " + (Dec(c) + ":" + Dec(d))) + "]"
  {
    FormatRange(a, b);
    FormatRange(c, d);
  }

  lemma TextsJoin(a: seq<Run>, b: seq<Run>, sep: char)
    requires a != [] && b != []
    ensures Join(RunTexts(a + b, sep), ",") == Join(RunTexts(a, sep), ",") + "," + Join(RunTexts(b, sep), ",")
  {
    assert RunTexts(a + b, sep) == RunTexts(a, sep) + RunTexts(b, sep);
    JoinBoth(RunTexts(a, sep), RunTexts(b, sep));
  }

  lemma {:induction false} JoinBoth(a: seq<string>, b: seq<string>)
    requires a != [] && b != []
    ensures Join(a + b, ",") == Join(a, ",") + "," + Join(b, ",")
    decreases |a|
  {
    assert (a + b)[1..] == a[1..] + b;
    if |a| > 1 {
      JoinBoth(a[1..], b);
    } else {
      assert a[1..] + b == b;
    }
  }

  /** How a client reads a `uid-set` of RFC 4315, in order. */
  function ReadUidSet(items: seq<string>): Option<seq<nat>> {
    if items == [] then Some([])
    else
      var run, rest := ReadRun(items[0], ':'), ReadUidSet(items[1..]);
      if run.None? || rest.None? then None
      else Some(Range(run.value.lo, run.value.hi) + rest.value)
  }

  function ReadUids(text: string): Option<seq<nat>> {
    if text == "" then Some([]) else ReadUidSet(Split(text, ','))
  }

  datatype CopyUid = CopyUid(uidValidity: nat, src: seq<nat>, dst: seq<nat>)

  /** How a client reads the whole response code. */
  function ReadCopyUid(text: string): Option<CopyUid> {
    if |text| <= |COPYUID| || !(COPYUID <= text) || text[|text| - 1] != ']' then None
    else ReadCopyUidParts(Split(text[|COPYUID|..|text| - 1], ' '))
  }

  function ReadCopyUidParts(parts: seq<string>): Option<CopyUid> {
    if |parts| != 3 || !AllDigits(parts[0]) then None
    else
      var src, dst := ReadUids(parts[1]), ReadUids(parts[2]);
      if src.None? || dst.None? then None
      else Some(CopyUid(ToNat(parts[0]), src.value, dst.value))
  }

  lemma {:induction false} ReadUidSetRuns(runs: seq<Run>)
    requires forall r :: r in runs ==> r.lo <= r.hi
    ensures ReadUidSet(RunTexts(runs, ':')) == Some(Unrun(runs))
  {
    if runs != [] {
      ReadRunText(runs[0], ':');
      assert RunTexts(runs, ':')[1..] == RunTexts(runs[1..], ':');
      ReadUidSetRuns(runs[1..]);
    }
  }

  lemma ReadFormatUids(uids: seq<nat>)
    ensures ReadUids(FormatUids(uids)) == Some(uids)
    ensures ' ' !in FormatUids(uids)
  {
    var runs := Runs(uids);
    var texts := RunTexts(runs, ':');
    UnrunRuns(uids);
    forall p | p in texts ensures ' ' !in p {
      var i :| 0 <= i < |texts| && texts[i] == p;
      RunTextChars(runs[i], ':', ' ');
    }
    JoinChars(texts, ",", ' ');
    if uids != [] {
      RunTextsSplit(runs, ':');
      ReadUidSetRuns(runs);
    }
  }

  lemma {:induction false} JoinChars(parts: seq<string>, sep: string, c: char)
    requires c !in sep && forall p :: p in parts ==> c !in p
    ensures c !in Join(parts, sep)
  {
    if |parts| > 1 { JoinChars(parts[1..], sep, c); }
  }

  /** The COPYUID text gives back exactly both UID lists, in order, for all lists. */
  lemma ReadFormatCopyUid(uidValidity: nat, src: seq<nat>, dst: seq<nat>)
    ensures ReadCopyUid(FormatCopyUid(uidValidity, src, dst)) == Some(CopyUid(uidValidity, src, dst))
  {
    var a, b, c := Dec(uidValidity), FormatUids(src), FormatUids(dst);
    ReadFormatUids(src);
    ReadFormatUids(dst);
    DecRoundTrip(uidValidity);
    SplitThree(a, b, c);
    Unwrap(a + " " + b + " " + c);
  }

  lemma Unwrap(body: string)
    ensures ReadCopyUid(COPYUID + body + "]") == ReadCopyUidParts(Split(body, ' '))
  {
    var text := COPYUID + body + "]";
    assert text[|COPYUID|..|text| - 1] == body;
  }

  lemma SplitThree(a: string, b: string, c: string)
    requires ' ' !in a && ' ' !in b && ' ' !in c
    ensures Split(a + " " + b + " " + c, ' ') == [a, b, c]
  {
    SplitHead(a, b + " " + c, ' ');
    SplitHead(b, c, ' ');
    SplitWhole(c, ' ');
    assert a + " " + b + " " + c == a + [' '] + (b + " " + c);
  }
}
