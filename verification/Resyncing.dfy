/** What a resync does to an index, and what it tells the clients. */
module Resyncing {
  import opened Base
  import opened Folder
  import opened Box
  import opened Indexing
  import opened Notify
  import opened IndexView
  import opened Delivering

  /** The FETCH lines for the entries from position `lo` on. */
  function FetchNotes(entries: seq<Entry>, lo: nat): (notes: seq<Note>)
    requires lo <= |entries|
    ensures |notes| == |entries| - lo
    ensures forall i :: 0 <= i < |notes| ==> notes[i] == Flagged(lo + i + 1, entries[lo + i].flags)
  {
    seq(|entries| - lo, i requires 0 <= i < |entries| - lo => Flagged(lo + i + 1, entries[lo + i].flags))
  }

  /** The sequences that a resync continues with. */
  function Kept(ix: Index): Sequences {
    if Resets(ix.lists, Keys(ix.folder)) then map[] else ix.sequences
  }

  function Added(ix: Index): seq<nat> {
    NewKeys(Keys(ix.folder), Checked(ix.lists, Keys(ix.folder)).msgKeys)
  }

  function Resynced(ix: Index, seqs': Sequences): Index {
    Index(SetSequences(ix.folder, seqs'), Reindexed(ix.lists, Keys(ix.folder)), seqs')
  }

  lemma AddedInFolder(ix: Index)
    ensures forall k :: k in Added(ix) ==> k in ix.folder.msgs
  {
    KeysAscending(ix.folder);
    NewKeysAscending(Keys(ix.folder), Checked(ix.lists, Keys(ix.folder)).msgKeys);
  }

  /** The new keys are in the index that a resync builds. */
  lemma AddedListed(ix: Index)
    requires !Untouched(ix.lists, Keys(ix.folder))
    ensures forall i :: 0 <= i < |Added(ix)| ==> Added(ix)[i] in Positions(Reindexed(ix.lists, Keys(ix.folder)).msgKeys)
  {
    var keys := Reindexed(ix.lists, Keys(ix.folder)).msgKeys;
    PositionsExact(keys);
    assert forall i :: 0 <= i < |Added(ix)| ==> Added(ix)[i] in keys;
  }

  lemma AddedByResync(ix: Index)
    requires Tracks(ix) && !Untouched(ix.lists, Keys(ix.folder))
    ensures Viewable(ix) && Added(ix) == Unlisted(ix) && Kept(ix) == ix.sequences
  {
    TracksViewable(ix);
    KeysAscending(ix.folder);
    PrefixKeys(Keys(ix.folder), ix.lists.msgKeys);
    CheckedParallel(ix.lists, Keys(ix.folder));
  }

  lemma AfterResync(ix: Index, seqs': Sequences)
    requires !Untouched(ix.lists, Keys(ix.folder)) && Adopted(Kept(ix), ix.folder, Added(ix), seqs')
    ensures Tracks(ix) && Viewable(ix) ==>
      Sound(Resynced(ix, seqs')) && Viewable(Resynced(ix, seqs')) && View(Resynced(ix, seqs')) == Settle(View(ix))
  {
    if Tracks(ix) && Viewable(ix) {
      AddedByResync(ix);
      ResyncView(ix, seqs');
    }
  }

  ghost predicate HasShrunk(ix: Index) {
    var l := ix.lists;
    |l.msgKeys| == |l.uids| == l.numMsgs && |Keys(ix.folder)| < l.numMsgs
  }

  lemma AfterRebuild(ix: Index, seqs': Sequences)
    requires Adopted(Kept(ix), ix.folder, Added(ix), seqs')
    ensures HasShrunk(ix) ==>
      && Sound(Resynced(ix, seqs')) && Viewable(Resynced(ix, seqs'))
      && View(Resynced(ix, seqs')) == Settle(Box([], FolderArrivals(ix.folder), ix.lists.nextUid))
  {
    if HasShrunk(ix) {
      KeysAscending(ix.folder);
      PrefixKeys(Keys(ix.folder), []);
      RebuildView(ix, Box([], [], ix.lists.nextUid), seqs');
    }
  }

  /** The notes for the keys a resync added are those for the entries it added. */
  lemma NewNotes(ix: Index, seqs': Sequences, at: map<nat, nat>, notes: seq<Note>)
    requires !Untouched(ix.lists, Keys(ix.folder)) && Adopted(Kept(ix), ix.folder, Added(ix), seqs')
    requires at == Positions(Reindexed(ix.lists, Keys(ix.folder)).msgKeys) && |notes| == |Added(ix)|
    requires forall i :: 0 <= i < |notes| ==> IsNoteFor(seqs', at, Added(ix)[i], notes[i])
    ensures Tracks(ix) && Viewable(ix) ==>
      && Viewable(Resynced(ix, seqs')) && |ix.lists.msgKeys| <= |View(Resynced(ix, seqs')).entries|
      && notes == FetchNotes(View(Resynced(ix, seqs')).entries, |ix.lists.msgKeys|)
  {
    if Tracks(ix) && Viewable(ix) {
      AfterResync(ix, seqs');
      AddedByResync(ix);
      ResyncLists(ix);
      PositionsLocate(Resynced(ix, seqs').lists.msgKeys);
      NotesAfter(Resynced(ix, seqs'), at, ix.lists.msgKeys, Unlisted(ix), notes);
    }
  }

  // ---------- Mail that arrives after the keys were listed ----------

  /** The same, when the folder has become f by the time the sequences are written. */
  function ResyncedLate(ix: Index, seqs': Sequences, f: Folder): Index {
    Index(SetSequences(f, seqs'), Reindexed(ix.lists, Keys(ix.folder)), seqs')
  }

  lemma WrittenGrew(f: Folder, f': Folder, keys: seq<nat>, msgs: seq<Message>, seqs: Sequences)
    requires GrewBy(f, f', keys, msgs)
    ensures GrewBy(SetSequences(f, seqs), SetSequences(f', seqs), keys, msgs)
  {
    assert Keys(SetSequences(f, seqs)) == Keys(f) && Keys(SetSequences(f', seqs)) == Keys(f');
  }

  /** Late mail is not listed, and has no marks: the sequences in memory do not know it. */
  lemma LateView(now: Index, f: Folder, f': Folder, late: seq<Delivery>)
    requires Sound(now) && Viewable(now) && View(now).arrived == [] && f' == AllDeliveredTo(f, late)
    requires now.folder == SetSequences(f, now.sequences)
    ensures var ix' := now.(folder := SetSequences(f', now.sequences));
      Sound(ix') && Viewable(ix') && View(ix') == View(now).(arrived := Unmarked(Came(f, late)))
  {
    var ix', keys := now.(folder := SetSequences(f', now.sequences)), CameKeys(f, late);
    DeliveredGrows(f, late);
    WrittenGrew(f, f', keys, Msgs(ArrivalsOf(late)), now.sequences);
    GrewView(now, ix'.folder, keys, Msgs(ArrivalsOf(late)));
    assert Unlisted(now) == [] && Unlisted(ix') == keys;
    LateUnmarked(now, f, f', late);
    CameMsgs(f, late);
  }

  lemma LateUnmarked(now: Index, f: Folder, f': Folder, late: seq<Delivery>)
    requires Sound(now) && now.folder == SetSequences(f, now.sequences)
    requires f' == AllDeliveredTo(f, late) && GrewBy(f, f', CameKeys(f, late), Msgs(ArrivalsOf(late)))
    ensures var file := SetSequences(f', now.sequences);
      (forall i :: 0 <= i < |late| ==> CameKeys(f, late)[i] in file.msgs)
      && Arrivals(file, CameKeys(f, late), file.marks) == Unmarked(ArrivalsOf(late))
  {
    var file, keys := SetSequences(f', now.sequences), CameKeys(f, late);
    KeysAscending(now.folder);
    forall i | 0 <= i < |keys| ensures FlagsOf(file.marks, keys[i]) == {} {
      assert keys[i] !in Keys(now.folder);
      SetSequencesFlags(f', now.sequences, keys[i]);
      assert FlagsOf(now.sequences, keys[i]) == {};
    }
    BareArrivals(file, keys, file.marks, ArrivalsOf(late));
  }

  /** What the mailbox becomes when its folder has shrunk. */
  function RebuildOutcome(ix: Index, late: seq<Delivery>): Box {
    Do(Box([], [], ix.lists.nextUid), Step.Rebuild(FolderArrivals(ix.folder), Came(ix.folder, late)))
  }

  /** All that a resync of a changed folder achieves, whatever arrives in its course. */
  lemma LateOutcome(ix: Index, seqs': Sequences, at: map<nat, nat>, notes: seq<Note>, late: seq<Delivery>)
    requires !Untouched(ix.lists, Keys(ix.folder)) && Adopted(Kept(ix), ix.folder, Added(ix), seqs')
    requires at == Positions(Reindexed(ix.lists, Keys(ix.folder)).msgKeys) && |notes| == |Added(ix)|
    requires forall i :: 0 <= i < |notes| ==> IsNoteFor(seqs', at, Added(ix)[i], notes[i])
    ensures var ix' := ResyncedLate(ix, seqs', AllDeliveredTo(ix.folder, late));
      && (Tracks(ix) && Viewable(ix) ==>
            && Sound(ix') && Viewable(ix') && View(ix') == Relist(View(ix), Came(ix.folder, late))
            && |ix.lists.msgKeys| <= |View(ix').entries| && notes == FetchNotes(View(ix').entries, |ix.lists.msgKeys|))
      && (HasShrunk(ix) ==>
            && Sound(ix') && Viewable(ix') && View(ix') == RebuildOutcome(ix, late))
  {
    if Tracks(ix) && Viewable(ix) {
      NewNotes(ix, seqs', at, notes);
      AfterLateResync(ix, seqs', late);
    }
    if HasShrunk(ix) { AfterLateRebuild(ix, seqs', late); }
  }

  lemma AfterLateResync(ix: Index, seqs': Sequences, late: seq<Delivery>)
    requires !Untouched(ix.lists, Keys(ix.folder)) && Adopted(Kept(ix), ix.folder, Added(ix), seqs')
    requires Tracks(ix) && Viewable(ix)
    ensures var now, ix' := Resynced(ix, seqs'), ResyncedLate(ix, seqs', AllDeliveredTo(ix.folder, late));
      && Sound(ix') && Viewable(ix') && View(ix') == Relist(View(ix), Came(ix.folder, late))
      && Viewable(now) && View(ix').entries == View(now).entries
  {
    AfterResync(ix, seqs');
    LateView(Resynced(ix, seqs'), ix.folder, AllDeliveredTo(ix.folder, late), late);
    ChangedIffArrived(ix);
  }

  lemma AfterLateRebuild(ix: Index, seqs': Sequences, late: seq<Delivery>)
    requires Adopted(Kept(ix), ix.folder, Added(ix), seqs') && HasShrunk(ix)
    ensures var ix' := ResyncedLate(ix, seqs', AllDeliveredTo(ix.folder, late));
      Sound(ix') && Viewable(ix') && View(ix') == RebuildOutcome(ix, late)
  {
    AfterRebuild(ix, seqs');
    LateView(Resynced(ix, seqs'), ix.folder, AllDeliveredTo(ix.folder, late), late);
  }

  /** A sound index finds its folder changed exactly if something has arrived. */
  lemma ChangedIffArrived(ix: Index)
    requires Tracks(ix) && Viewable(ix)
    ensures Untouched(ix.lists, Keys(ix.folder)) <==> View(ix).arrived == []
  {
  }

  /** A resync that finds nothing leaves what arrives meanwhile as it is. */
  lemma LateUntouched(ix: Index, late: seq<Delivery>)
    requires Tracks(ix) && Viewable(ix) && Untouched(ix.lists, Keys(ix.folder))
    ensures var ix' := ix.(folder := AllDeliveredTo(ix.folder, late));
      Sound(ix') && Viewable(ix') && View(ix') == Relist(View(ix), Came(ix.folder, late))
  {
    SettleNothing(ix);
    ChangedIffArrived(ix);
    DeliveredView(ix, late);
    assert [] + Came(ix.folder, late) == Came(ix.folder, late);
  }

  predicate IsNoteFor(seqs: Sequences, at: map<nat, nat>, key: nat, note: Note) {
    key in at && note == Flagged(at[key] + 1, FlagsOf(seqs, key))
  }

  lemma NotesAfter(ix: Index, at: map<nat, nat>, old_: seq<nat>, new_: seq<nat>, notes: seq<Note>)
    requires Viewable(ix) && Locates(at, ix.lists.msgKeys) && ix.lists.msgKeys == old_ + new_ && |notes| == |new_|
    requires forall i :: 0 <= i < |notes| ==> IsNoteFor(ix.sequences, at, new_[i], notes[i])
    ensures notes == FetchNotes(View(ix).entries, |old_|)
  {
    var lo := |old_|;
    forall i | 0 <= i < |notes| ensures notes[i] == FetchNotes(View(ix).entries, lo)[i] {
      assert IsNoteFor(ix.sequences, at, new_[i], notes[i]) && ix.lists.msgKeys[lo + i] == new_[i];
      EntryAt(ix, lo + i);
    }
  }

  /** The index now lists what it did not list before, under the next UIDs. */
  ghost predicate Grown(ix: Index, ix': Index) {
    && Viewable(ix)
    && ix'.lists.msgKeys == ix.lists.msgKeys + Unlisted(ix)
    && ix'.lists.uids == ix.lists.uids + Fresh(ix.lists.nextUid, |Unlisted(ix)|)
  }

  lemma ResyncGrows(ix: Index, ix': Index)
    requires Tracks(ix) && ix'.lists == Reindexed(ix.lists, Keys(ix.folder))
    ensures Grown(ix, ix')
  {
    TracksViewable(ix);
    ResyncLists(ix);
  }

  /** After a resync the i-th message that had arrived has the i-th new UID. */
  lemma AddedHasUid(ix: Index, ix': Index, i: nat)
    requires Grown(ix, ix') && i < |Unlisted(ix)| && Ascending(ix'.lists.msgKeys)
    ensures UidIs(ix'.lists, Unlisted(ix)[i], ix.lists.nextUid + i)
  {
    var n := |ix.lists.msgKeys|;
    PositionsLocate(ix'.lists.msgKeys);
    assert ix'.lists.msgKeys[n + i] == Unlisted(ix)[i];
  }

  /** The lookup of a key's UID gives this one. */
  ghost predicate UidIs(l: Lists, key: nat, uid: nat) {
    var at := Positions(l.msgKeys);
    key in at && at[key] < |l.uids| && l.uids[at[key]] == uid
  }

  ghost predicate HaveUids(l: Lists, keys: seq<nat>, uids: seq<nat>) {
    |uids| == |keys| && forall i :: 0 <= i < |keys| ==> UidIs(l, keys[i], uids[i])
  }
}
