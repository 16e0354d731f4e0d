/** The flags of one message, as the set of MH sequences it is in, and what STORE and FETCH do to them. */
module Flags {
  import opened Base

  type Names = set<string>

  const SEEN := "Seen"
  const UNSEEN := "unseen"
  const RECENT := "Recent"
  const DELETED := "Deleted"

  /** `flag_to_seq`: system flags have MH names, other flags are their own name. */
  function FlagToSeq(flag: string): string {
    if flag == "\\Answered" then "replied" else if flag == "\\Deleted" then DELETED
    else if flag == "\\Draft" then "Draft" else if flag == "\\Flagged" then "flagged"
    else if flag == "\\Recent" then RECENT else if flag == "\\Seen" then SEEN else flag
  }

  function FlagsToSeqs(flags: seq<string>): (names: seq<string>)
    ensures |names| == |flags| && forall i :: 0 <= i < |flags| ==> names[i] == FlagToSeq(flags[i])
  {
    seq(|flags|, i requires 0 <= i < |flags| => FlagToSeq(flags[i]))
  }

  /** `seq_to_flag`. */
  function SeqToFlag(name: string): string {
    if name == "replied" then "\\Answered" else if name == DELETED then "\\Deleted"
    else if name == "Draft" then "\\Draft" else if name == "flagged" then "\\Flagged"
    else if name == RECENT then "\\Recent" else if name == SEEN then "\\Seen" else name
  }

  const SYSTEM_FLAGS: set<string> := {"\\Answered", "\\Deleted", "\\Draft", "\\Flagged", "\\Recent", "\\Seen"}
  const SYSTEM_NAMES: set<string> := {"replied", "Deleted", "Draft", "flagged", "Recent", "Seen"}

  /** The six system flags and their sequences are named in pairs; any other flag is its own name. A keyword that is
      called like one of the six sequences is taken for the system flag. */
  lemma FlagsAreNamed(flag: string)
    ensures flag in SYSTEM_FLAGS ==> FlagToSeq(flag) in SYSTEM_NAMES
    ensures flag !in SYSTEM_FLAGS ==> FlagToSeq(flag) == flag
    ensures FlagToSeq("\\Answered") == "replied" && FlagToSeq("\\Draft") == "Draft" && FlagToSeq("\\Flagged") == "flagged"
    ensures SeqToFlag(FlagToSeq(flag)) == flag <==> flag !in SYSTEM_NAMES
    ensures FlagToSeq(SeqToFlag(flag)) == flag <==> flag !in SYSTEM_FLAGS
    ensures FlagToSeq(flag) == DELETED <==> flag == "\\Deleted" || flag == "Deleted"
    ensures FlagToSeq(flag) == SEEN <==> flag == "\\Seen" || flag == "Seen"
    ensures FlagToSeq(flag) == RECENT <==> flag == "\\Recent" || flag == "Recent"
    ensures FlagToSeq(flag) == UNSEEN <==> flag == "unseen"
  {
    NamesDiffer();
    assert "\\Answered"[0] == "\\Deleted"[0] == "\\Draft"[0] == '\\';
    assert "\\Flagged"[0] == "\\Recent"[0] == "\\Seen"[0] == '\\';
    assert "replied"[0] == 'r' && "Draft"[1] == 'r' && "Deleted"[1] == 'e' && "flagged"[0] == 'f';
  }

  /** The same for lists. */
  lemma NamedInList(flags: seq<string>)
    ensures DELETED in FlagsToSeqs(flags) <==> "\\Deleted" in flags || "Deleted" in flags
    ensures SEEN in FlagsToSeqs(flags) <==> "\\Seen" in flags || "Seen" in flags
    ensures UNSEEN in FlagsToSeqs(flags) <==> "unseen" in flags
  {
    forall i | 0 <= i < |flags|
      ensures FlagToSeq(flags[i]) == DELETED <==> flags[i] == "\\Deleted" || flags[i] == "Deleted"
      ensures FlagToSeq(flags[i]) == SEEN <==> flags[i] == "\\Seen" || flags[i] == "Seen"
      ensures FlagToSeq(flags[i]) == UNSEEN <==> flags[i] == "unseen"
    {
      FlagsAreNamed(flags[i]);
    }
    NamedAt(flags, DELETED, {"\\Deleted", "Deleted"});
    NamedAt(flags, SEEN, {"\\Seen", "Seen"});
    NamedAt(flags, UNSEEN, {"unseen"});
  }

  lemma NamedAt(flags: seq<string>, name: string, spellings: set<string>)
    requires forall i :: 0 <= i < |flags| ==> (FlagToSeq(flags[i]) == name <==> flags[i] in spellings)
    ensures name in FlagsToSeqs(flags) <==> exists f :: f in spellings && f in flags
  {
    var names := FlagsToSeqs(flags);
    if name in names {
      var i :| 0 <= i < |names| && names[i] == name;
      assert flags[i] in spellings && flags[i] in flags;
    }
    if f :| f in spellings && f in flags {
      var i :| 0 <= i < |flags| && flags[i] == f;
      assert names[i] == name;
    }
  }

  lemma NamesDiffer()
    ensures SEEN != UNSEEN && SEEN != RECENT && UNSEEN != RECENT
    ensures DELETED != SEEN && DELETED != UNSEEN && DELETED != RECENT
  {
    assert SEEN[0] == 'S' && UNSEEN[0] == 'u' && RECENT[0] == 'R' && DELETED[0] == 'D';
  }

  datatype Action = AddFlags | RemoveFlags | ReplaceFlags

  /** `_help_add_flag`, seen from one message. */
  function Add(cur: Names, flag: string): Names {
    var with := cur + {flag};
    if flag == SEEN then with - {UNSEEN} else if flag == UNSEEN then with - {SEEN} else with
  }

  /** `_help_remove_flag`. */
  function Remove(cur: Names, flag: string): Names {
    var without := cur - {flag};
    if flag == SEEN then without + {UNSEEN} else if flag == UNSEEN then without + {SEEN} else without
  }

  /** `_help_replace_flags`. */
  function Replace(cur: Names, flags: seq<string>): Names {
    Elements(flags)
    + (if SEEN in flags then {} else {UNSEEN})
    + (if RECENT in cur then {RECENT} else {})
  }

  function AddAll(cur: Names, flags: seq<string>): Names
    decreases |flags|
  {
    if flags == [] then cur else AddAll(Add(cur, flags[0]), flags[1..])
  }

  function RemoveAll(cur: Names, flags: seq<string>): Names
    decreases |flags|
  {
    if flags == [] then cur else RemoveAll(Remove(cur, flags[0]), flags[1..])
  }

  /** The flags of a message that a STORE names. */
  function Stored(action: Action, flags: seq<string>, cur: Names): Names {
    match action
    case AddFlags => AddAll(cur, flags)
    case RemoveFlags => RemoveAll(cur, flags)
    case ReplaceFlags => Replace(cur, flags)
  }

  /** What STORE makes of every flag but Seen and unseen: adding, removing and replacing are what they say, except that
      a replacement leaves Recent alone. */
  lemma StoredHas(action: Action, flags: seq<string>, cur: Names, name: string)
    requires name != SEEN && name != UNSEEN
    ensures name in Stored(action, flags, cur) <==>
      match action
      case AddFlags => name in cur || name in flags
      case RemoveFlags => name in cur && name !in flags
      case ReplaceFlags => name in flags || (name == RECENT && name in cur)
  {
    match action
    case AddFlags => AddAllHas(cur, flags, name);
    case RemoveFlags => RemoveAllHas(cur, flags, name);
    case ReplaceFlags =>
  }

  lemma {:induction false} AddAllHas(cur: Names, flags: seq<string>, name: string)
    requires name != SEEN && name != UNSEEN
    ensures name in AddAll(cur, flags) <==> name in cur || name in flags
    decreases |flags|
  {
    if flags != [] { AddAllHas(Add(cur, flags[0]), flags[1..], name); }
  }

  lemma {:induction false} RemoveAllHas(cur: Names, flags: seq<string>, name: string)
    requires name != SEEN && name != UNSEEN
    ensures name in RemoveAll(cur, flags) <==> name in cur && name !in flags
    decreases |flags|
  {
    if flags != [] { RemoveAllHas(Remove(cur, flags[0]), flags[1..], name); }
  }

  /** What it makes of Seen and unseen, if at most one of them is named: adding one is removing the other, and a
      replacement that does not name Seen marks the message unseen. */
  lemma StoredSeen(action: Action, flags: seq<string>, cur: Names)
    requires OneOfSeen(cur) && !(SEEN in flags && UNSEEN in flags)
    ensures SEEN in Stored(action, flags, cur) <==>
      match action
      case AddFlags => SEEN in flags || (SEEN in cur && UNSEEN !in flags)
      case RemoveFlags => UNSEEN in flags || (SEEN in cur && SEEN !in flags)
      case ReplaceFlags => SEEN in flags
    ensures OneOfSeen(Stored(action, flags, cur))
  {
    NamesDiffer();
    StoredKeepsIff(action, flags, cur);
    match action
    case AddFlags => AddAllSeen(cur, flags);
    case RemoveFlags => RemoveAllSeen(cur, flags);
    case ReplaceFlags =>
  }

  lemma {:induction false} AddAllSeen(cur: Names, flags: seq<string>)
    requires OneOfSeen(cur) && !(SEEN in flags && UNSEEN in flags)
    ensures SEEN in AddAll(cur, flags) <==> SEEN in flags || (SEEN in cur && UNSEEN !in flags)
    decreases |flags|
  {
    NamesDiffer();
    if flags != [] { AddAllSeen(Add(cur, flags[0]), flags[1..]); }
  }

  lemma {:induction false} RemoveAllSeen(cur: Names, flags: seq<string>)
    requires OneOfSeen(cur) && !(SEEN in flags && UNSEEN in flags)
    ensures SEEN in RemoveAll(cur, flags) <==> UNSEEN in flags || (SEEN in cur && SEEN !in flags)
    decreases |flags|
  {
    NamesDiffer();
    if flags != [] { RemoveAllSeen(Remove(cur, flags[0]), flags[1..]); }
  }

  /** A message is either Seen or unseen, and not both. */
  predicate OneOfSeen(cur: Names) {
    SEEN in cur <==> UNSEEN !in cur
  }

  lemma {:induction false} AddAllKeeps(cur: Names, flags: seq<string>)
    requires OneOfSeen(cur)
    ensures OneOfSeen(AddAll(cur, flags))
    decreases |flags|
  {
    NamesDiffer();
    if flags != [] { AddAllKeeps(Add(cur, flags[0]), flags[1..]); }
  }

  lemma {:induction false} RemoveAllKeeps(cur: Names, flags: seq<string>)
    requires OneOfSeen(cur)
    ensures OneOfSeen(RemoveAll(cur, flags))
    decreases |flags|
  {
    NamesDiffer();
    if flags != [] { RemoveAllKeeps(Remove(cur, flags[0]), flags[1..]); }
  }

  /** STORE keeps every message in exactly one of Seen and unseen, except a replacement that names both. */
  lemma StoredKeepsIff(action: Action, flags: seq<string>, cur: Names)
    requires OneOfSeen(cur)
    ensures OneOfSeen(Stored(action, flags, cur))
      <==> !(action == ReplaceFlags && SEEN in flags && UNSEEN in flags)
  {
    NamesDiffer();
    match action
    case AddFlags => AddAllKeeps(cur, flags);
    case RemoveFlags => RemoveAllKeeps(cur, flags);
    case ReplaceFlags =>
  }

  /** A FETCH's effect: Recent goes when the flags were read, unseen becomes Seen when the body was. */
  function Fetched(cur: Names, readFlags: bool, readBody: bool): Names {
    var c := if readFlags then cur - {RECENT} else cur;
    if readBody && UNSEEN in cur then c - {UNSEEN} + {SEEN} else c
  }

  /** `fetch`'s final loop, for a message it noted as no longer recent, or as no longer unseen. */
  function AfterFetch(cur: Names, recent: bool, unseen: bool): Names {
    var c := if recent then cur - {RECENT} else cur;
    if unseen then c - {UNSEEN} + {SEEN} else c
  }

  /** What FETCHes do to a message in all: reading its flags ends its being Recent, reading its body makes it Seen if it
      was unseen, and nothing else changes. */
  lemma FetchedHas(cur: Names, readFlags: bool, readBody: bool, name: string)
    ensures name in Fetched(cur, readFlags, readBody) <==>
      if name == RECENT then RECENT in cur && !readFlags
      else if name == UNSEEN then UNSEEN in cur && !readBody
      else name in cur || (name == SEEN && readBody && UNSEEN in cur)
  {
    NamesDiffer();
  }

  /** The end of a FETCH takes Recent and unseen away from what it noted, marks it Seen, and leaves every other flag. */
  lemma AfterFetchHas(cur: Names, recent: bool, unseen: bool, name: string)
    ensures name in AfterFetch(cur, recent, unseen) <==>
      (unseen && name == SEEN) || (name in cur && !(recent && name == RECENT) && !(unseen && name == UNSEEN))
  {
    NamesDiffer();
  }

  /** The flags a new message gets, given the MH sequences an outsider put it in. */
  function Arrived(marks: Names): Names {
    marks + {RECENT} + (if UNSEEN in marks then {} else {SEEN}) - (if UNSEEN in marks then {SEEN} else {})
  }

  lemma ArrivedIsOneOfSeen(marks: Names)
    ensures OneOfSeen(Arrived(marks)) && RECENT in Arrived(marks)
    ensures UNSEEN in Arrived(marks) <==> UNSEEN in marks
  {
    NamesDiffer();
  }
}
