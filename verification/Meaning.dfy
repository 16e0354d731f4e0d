/** What STORE, EXPUNGE and APPEND mean to a client: which messages are Deleted, which go, and how a new one is flagged,
    in terms of the flags that the client names. */
module Meaning {
  import opened Base
  import opened Flags
  import opened Folder
  import opened Box

  // ---------- Deleted ----------

  predicate MarksDeleted(flags: seq<string>) { "\\Deleted" in flags || "Deleted" in flags }

  /** The UIDs of the messages that are marked Deleted after a STORE on these numbers. */
  function DeletedAfter(b: Box, nums: set<nat>, action: Action, flags: seq<string>): set<nat> {
    var before, named := DeletedUids(b.entries), UidsOfNumbers(b.entries, nums);
    match action
    case AddFlags => if MarksDeleted(flags) then before + named else before
    case RemoveFlags => if MarksDeleted(flags) then before - named else before
    case ReplaceFlags => if MarksDeleted(flags) then before + named else before - named
  }

  lemma HasDeleted(b: Box, u: nat)
    ensures u in DeletedUids(b.entries) <==>
      exists i :: 0 <= i < |b.entries| && b.entries[i].uid == u && DELETED in b.entries[i].flags
  {
    if i :| 0 <= i < |b.entries| && b.entries[i].uid == u && DELETED in b.entries[i].flags {
      assert b.entries[i] in b.entries;
    }
  }

  lemma DistinctUids(b: Box)
    requires UidsOk(b)
    ensures forall i, j :: 0 <= i < j < |b.entries| ==> b.entries[i].uid != b.entries[j].uid
  {
    AscendingPairs(Uids(b.entries));
    assert forall i :: 0 <= i < |b.entries| ==> Uids(b.entries)[i] == b.entries[i].uid;
  }

  /** Marked Deleted are, after a STORE, exactly the messages that should be. */
  lemma StoreDeletes(b: Box, nums: set<nat>, action: Action, flags: seq<string>)
    requires UidsOk(b)
    ensures DeletedUids(Do(b, Step.Store(nums, action, FlagsToSeqs(flags))).entries)
      == DeletedAfter(b, nums, action, flags)
  {
    var after, names := Do(b, Step.Store(nums, action, FlagsToSeqs(flags))), FlagsToSeqs(flags);
    NamesDiffer();
    NamedInList(flags);
    DistinctUids(b);
    forall i | 0 <= i < |b.entries|
      ensures DELETED in after.entries[i].flags <==> b.entries[i].uid in DeletedAfter(b, nums, action, flags)
    {
      StoredHas(action, names, b.entries[i].flags, DELETED);
      HasDeleted(b, b.entries[i].uid);
    }
    forall u ensures u in DeletedUids(after.entries) <==> u in DeletedAfter(b, nums, action, flags) {
      HasDeleted(after, u);
      HasDeleted(b, u);
    }
  }

  lemma IsDeletedUid(b: Box, e: Entry)
    requires UidsOk(b) && e in b.entries
    ensures e.uid in DeletedUids(b.entries) <==> DELETED in e.flags
  {
    DistinctUids(b);
    HasDeleted(b, e.uid);
  }

  /** EXPUNGE removes exactly the messages that are marked Deleted; an empty list restricts nothing. */
  lemma ExpungeRemovesDeleted(b: Box, uids: Option<seq<nat>>)
    requires UidsOk(b) && (uids == None || uids == Some([]))
    ensures forall e ::
      e in Do(b, Step.Expunge(Chosen(b, uids, true))).entries <==> e in b.entries && DELETED !in e.flags
  {
    WithoutHas(b.entries, DeletedUids(b.entries));
    forall e | e in b.entries ensures e.uid in DeletedUids(b.entries) <==> DELETED in e.flags { IsDeletedUid(b, e); }
  }

  /** With a list of UIDs it removes those of them that are marked Deleted; or, at the end of a MOVE, just these. */
  lemma ExpungeRemovesListed(b: Box, uids: seq<nat>, checkDeleted: bool)
    requires UidsOk(b) && (checkDeleted ==> uids != [])
    ensures forall e :: e in Do(b, Step.Expunge(Chosen(b, Some(uids), checkDeleted))).entries <==>
      e in b.entries && !(e.uid in uids && (checkDeleted ==> DELETED in e.flags))
  {
    WithoutHas(b.entries, Chosen(b, Some(uids), checkDeleted));
    forall e | e in b.entries ensures e.uid in DeletedUids(b.entries) <==> DELETED in e.flags { IsDeletedUid(b, e); }
  }

  /** What adding these flags, Deleted among them, makes of one entry. */
  lemma MarkedAt(b: Box, nums: set<nat>, names: seq<string>, i: nat)
    requires UidsOk(b) && i < |b.entries| && DELETED in names
    ensures var marked := StoreAll(b.entries, nums, AddFlags, names);
      && (b.entries[i].uid in UidsOfNumbers(b.entries, nums) <==> i + 1 in nums)
      && (i + 1 in nums ==> DELETED in marked[i].flags) && (i + 1 !in nums ==> marked[i] == b.entries[i])
  {
    NamesDiffer();
    DistinctUids(b);
    StoredHas(AddFlags, names, b.entries[i].flags, DELETED);
  }

  /** What is not marked Deleted after that was not before, and is not named. */
  lemma UnmarkedEntries(b: Box, nums: set<nat>, names: seq<string>)
    requires UidsOk(b) && DELETED in names
    ensures forall e :: e in StoreAll(b.entries, nums, AddFlags, names) && DELETED !in e.flags <==>
      e in b.entries && DELETED !in e.flags && e.uid !in UidsOfNumbers(b.entries, nums)
  {
    var marked := StoreAll(b.entries, nums, AddFlags, names);
    forall e | e in marked && DELETED !in e.flags ensures e in b.entries && e.uid !in UidsOfNumbers(b.entries, nums) {
      var i :| 0 <= i < |marked| && marked[i] == e;
      MarkedAt(b, nums, names, i);
      assert e == b.entries[i];
    }
    forall e | e in b.entries && DELETED !in e.flags && e.uid !in UidsOfNumbers(b.entries, nums) ensures e in marked {
      var i :| 0 <= i < |b.entries| && b.entries[i] == e;
      MarkedAt(b, nums, names, i);
      assert marked[i] == e;
    }
  }

  /** STORE +FLAGS (\Deleted) and then EXPUNGE: what goes is what was marked before, and just the messages named. */
  lemma MarkedIsExpunged(b: Box, nums: set<nat>)
    requires UidsOk(b)
    ensures var marked := Do(b, Step.Store(nums, AddFlags, FlagsToSeqs(["\\Deleted"])));
      var after := Do(marked, Step.Expunge(Chosen(marked, None, true)));
      forall e :: e in after.entries <==>
        e in b.entries && DELETED !in e.flags && e.uid !in UidsOfNumbers(b.entries, nums)
  {
    var store := Step.Store(nums, AddFlags, FlagsToSeqs(["\\Deleted"]));
    NamedInList(["\\Deleted"]);
    StepUids(b, store);
    ExpungeRemovesDeleted(Do(b, store), None);
    UnmarkedEntries(b, nums, store.names);
  }

  // ---------- New messages ----------

  /** The flags of a message that APPEND was given these: they are all there, it is Recent, and it is unseen unless
      Seen was given. If both are, unseen wins. */
  function AppendShows(flags: seq<string>): Names {
    var names := Elements(FlagsToSeqs(flags)) + {RECENT};
    if "\\Seen" !in flags && "Seen" !in flags then names + {UNSEEN}
    else if "unseen" in flags then names - {SEEN}
    else names
  }

  predicate HasEntry(b: Box, uid: nat, msg: Message, flags: Names) { Entry(uid, msg, flags) in b.entries }

  /** APPEND lists its message under the next UID, with just these flags, whatever arrives meanwhile. */
  lemma AppendListed(b: Box, msg: Message, flags: seq<string>, during: seq<Arrival>, between: seq<Arrival>,
                     late: seq<Arrival>)
    ensures HasEntry(Do(b, Step.Append(msg, FlagsToSeqs(flags), during, between, late)), DueUid(b), msg,
                  AppendShows(flags))
  {
    var after := Do(b, Step.Append(msg, FlagsToSeqs(flags), during, between, late));
    var names := FlagsToSeqs(flags);
    var found := WithMore(WithAppended(b, msg, AppendMarks(names), during), between).arrived;
    NamedInList(flags);
    NamesDiffer();
    assert found[|b.arrived|] == Arrival(msg, AppendMarks(names));
    assert Flags.Arrived(AppendMarks(names)) == AppendShows(flags);
    assert after.entries[|b.entries| + |b.arrived|] == Entry(DueUid(b), msg, AppendShows(flags));
  }
}
