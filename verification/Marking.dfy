/** How changes to the sequences of listed messages, by STORE and at the end of FETCH, show in the mailbox. */
module Marking {
  import opened Base
  import opened Flags
  import opened Folder
  import opened Box
  import opened Indexing
  import opened Notify
  import opened IndexView

  /** Only the sequences of one key have changed. */
  ghost predicate Reflagged(seqs: Sequences, key: nat, names: Names, seqs': Sequences) {
    forall k {:trigger FlagsOf(seqs', k)} :: FlagsOf(seqs', k) == if k == key then names else FlagsOf(seqs, k)
  }

  // ---------- STORE ----------

  ghost predicate StoredOn(seqs: Sequences, keys: set<nat>, action: Action, names: seq<string>, seqs': Sequences) {
    forall k {:trigger FlagsOf(seqs', k)} ::
      FlagsOf(seqs', k) == if k in keys then Stored(action, names, FlagsOf(seqs, k)) else FlagsOf(seqs, k)
  }

  lemma StoredOnNone(seqs: Sequences, action: Action, names: seq<string>)
    ensures StoredOn(seqs, {}, action, names, seqs)
  {
  }

  lemma StoredOnMore(seqs0: Sequences, keys: set<nat>, action: Action, names: seq<string>, seqs: Sequences,
                     key: nat, seqs': Sequences)
    requires StoredOn(seqs0, keys, action, names, seqs) && key !in keys
    requires Reflagged(seqs, key, Stored(action, names, FlagsOf(seqs, key)), seqs')
    ensures StoredOn(seqs0, keys + {key}, action, names, seqs')
    ensures FlagsOf(seqs', key) == Stored(action, names, FlagsOf(seqs0, key))
  {
  }

  /** `[msg_keys[x - 1] for x in msg_set]`. */
  ghost predicate Looked(l: Lists, msgSet: seq<nat>, keys: seq<nat>) {
    && |keys| == |msgSet|
    && forall i :: 0 <= i < |msgSet| ==> 1 <= msgSet[i] <= |l.msgKeys| && keys[i] == l.msgKeys[msgSet[i] - 1]
  }

  lemma LookedDistinct(l: Lists, msgSet: seq<nat>, keys: seq<nat>)
    requires Looked(l, msgSet, keys) && Distinct(msgSet) && Ascending(l.msgKeys)
    ensures Distinct(keys)
  {
    AscendingPairs(l.msgKeys);
    forall i, j | 0 <= i < j < |keys| ensures keys[i] != keys[j] {
      assert msgSet[i] != msgSet[j];
    }
  }

  /** A message's key is among those looked up exactly if its number is in the message set. */
  lemma LookedMember(l: Lists, msgSet: seq<nat>, keys: seq<nat>, i: nat)
    requires Looked(l, msgSet, keys) && Ascending(l.msgKeys) && i < |l.msgKeys|
    ensures l.msgKeys[i] in keys <==> i + 1 in msgSet
  {
    AscendingPairs(l.msgKeys);
    if i + 1 in msgSet {
      var j :| 0 <= j < |msgSet| && msgSet[j] == i + 1;
      assert keys[j] == l.msgKeys[i];
    }
    if l.msgKeys[i] in keys {
      var j :| 0 <= j < |keys| && keys[j] == l.msgKeys[i];
      assert msgSet[j] - 1 == i;
    }
  }

  /** Writing the changed sequences: the named messages have the flags STORE says, and what has arrived but is not
      listed loses its marks. */
  lemma StoreView(ix: Index, msgSet: seq<nat>, keys: seq<nat>, action: Action, names: seq<string>, seqs': Sequences)
    requires Sound(ix) && Looked(ix.lists, msgSet, keys) && StoredOn(ix.sequences, Elements(keys), action, names, seqs')
    ensures var ix' := Index(SetSequences(ix.folder, seqs'), ix.lists, seqs');
      && Sound(ix') && Viewable(ix) && Viewable(ix')
      && View(ix') == Do(View(ix), Step.Store(Elements(msgSet), action, names))
  {
    StoreWithin(ix, msgSet, keys, action, names, seqs');
    WrittenView(ix, seqs', seqs', SetSequences(ix.folder, seqs'));
    UnlistedUnmarked(ix, seqs');
    StoreEntries(ix, msgSet, keys, action, names, seqs');
  }

  lemma StoreWithin(ix: Index, msgSet: seq<nat>, keys: seq<nat>, action: Action, names: seq<string>, seqs': Sequences)
    requires Sound(ix) && Looked(ix.lists, msgSet, keys) && StoredOn(ix.sequences, Elements(keys), action, names, seqs')
    ensures Within(seqs', ix.lists.msgKeys) && Within(seqs', Keys(ix.folder))
  {
    assert forall i :: 0 <= i < |keys| ==> keys[i] in ix.lists.msgKeys;
    assert forall k :: k in ix.lists.msgKeys ==> k in Keys(ix.folder);
  }

  lemma UnlistedUnmarked(ix: Index, seqs': Sequences)
    requires Sound(ix) && Within(seqs', ix.lists.msgKeys)
    ensures Viewable(ix) && Arrivals(ix.folder, Unlisted(ix), seqs') == Unmarked(View(ix).arrived)
  {
    TracksViewable(ix);
    UnlistedAreNew(ix);
    forall i | 0 <= i < |Unlisted(ix)| ensures FlagsOf(seqs', Unlisted(ix)[i]) == {} {
      assert Unlisted(ix)[i] in Unlisted(ix);
    }
    BareArrivals(ix.folder, Unlisted(ix), seqs', View(ix).arrived);
  }

  lemma StoreEntries(ix: Index, msgSet: seq<nat>, keys: seq<nat>, action: Action, names: seq<string>, seqs': Sequences)
    requires Sound(ix) && Looked(ix.lists, msgSet, keys) && StoredOn(ix.sequences, Elements(keys), action, names, seqs')
    ensures Viewable(ix)
    ensures Listed(ix.folder, ix.lists.msgKeys, ix.lists.uids, seqs')
      == StoreAll(View(ix).entries, Elements(msgSet), action, names)
  {
    TracksViewable(ix);
    var now := Listed(ix.folder, ix.lists.msgKeys, ix.lists.uids, seqs');
    var then_ := StoreAll(View(ix).entries, Elements(msgSet), action, names);
    forall i | 0 <= i < |now| ensures now[i] == then_[i] {
      LookedMember(ix.lists, msgSet, keys, i);
      EntryAt(ix, i);
    }
  }

  // ---------- The end of FETCH ----------

  ghost predicate FetchedOn(seqs: Sequences, recent: set<nat>, unseen: set<nat>, seqs': Sequences) {
    forall k {:trigger FlagsOf(seqs', k)} :: FlagsOf(seqs', k) == AfterFetch(FlagsOf(seqs, k), k in recent, k in unseen)
  }

  /** The numbers of the messages with these keys. */
  ghost function NumbersOf(l: Lists, keys: set<nat>): set<nat> {
    set i | 0 <= i < |l.msgKeys| && l.msgKeys[i] in keys :: i + 1
  }

  lemma FetchEntries(ix: Index, recent: set<nat>, unseen: set<nat>, seqs': Sequences)
    requires Tracks(ix) && FetchedOn(ix.sequences, recent, unseen, seqs')
    ensures Viewable(ix)
    ensures Listed(ix.folder, ix.lists.msgKeys, ix.lists.uids, seqs')
      == FetchAll(View(ix).entries, NumbersOf(ix.lists, recent), NumbersOf(ix.lists, unseen))
  {
    TracksViewable(ix);
    var now := Listed(ix.folder, ix.lists.msgKeys, ix.lists.uids, seqs');
    var then_ := FetchAll(View(ix).entries, NumbersOf(ix.lists, recent), NumbersOf(ix.lists, unseen));
    forall i | 0 <= i < |now| ensures now[i] == then_[i] {
      EntryAt(ix, i);
      NumberedBy(ix.lists, recent, i);
      NumberedBy(ix.lists, unseen, i);
    }
  }

  lemma NumberedBy(l: Lists, keys: set<nat>, i: nat)
    requires i < |l.msgKeys|
    ensures i + 1 in NumbersOf(l, keys) <==> l.msgKeys[i] in keys
  {
  }

  /** Sequences from which Recent and unseen have been taken and to which Seen has been added. */
  function Reseen(seqs: Sequences, recent: set<nat>, unseen: set<nat>, seen: set<nat>): Sequences {
    seqs[RECENT := Get(seqs, RECENT) - recent][UNSEEN := Get(seqs, UNSEEN) - unseen][SEEN := Get(seqs, SEEN) + seen]
  }

  lemma ReseenFlags(seqs: Sequences, recent: set<nat>, unseen: set<nat>, seen: set<nat>, k: nat)
    requires k in seen ==> k in unseen
    requires k in unseen && k !in seen ==> SEEN in FlagsOf(seqs, k)
    ensures FlagsOf(Reseen(seqs, recent, unseen, seen), k)
      == AfterFetch(FlagsOf(seqs, k), k in recent, k in unseen)
  {
    NamesDiffer();
    var a, b := FlagsOf(Reseen(seqs, recent, unseen, seen), k), AfterFetch(FlagsOf(seqs, k), k in recent, k in unseen);
    forall n ensures n in a <==> n in b {
      if n != RECENT && n != UNSEEN && n != SEEN {
        assert Get(Reseen(seqs, recent, unseen, seen), n) == Get(seqs, n);
      }
    }
  }

  // ---------- What is noted, and what clients are told ----------

  /** One FETCH line for each number of the message set, in its order, with the flags the entry has now. */
  ghost predicate NotesFor(notes: seq<Note>, msgSet: seq<nat>, entries: seq<Entry>) {
    && |notes| == |msgSet|
    && forall i :: 0 <= i < |msgSet| ==>
         1 <= msgSet[i] <= |entries| && notes[i] == Flagged(msgSet[i], entries[msgSet[i] - 1].flags)
  }

  /** A FETCH line that STORE returns; UID STORE adds the UID. */
  datatype Reply = Reply(note: Note, uid: Option<nat>)

  function NotesOf(replies: seq<Reply>): (notes: seq<Note>)
    ensures |notes| == |replies| && forall i :: 0 <= i < |replies| ==> notes[i] == replies[i].note
  {
    seq(|replies|, i requires 0 <= i < |replies| => replies[i].note)
  }

  ghost predicate RepliesFor(replies: seq<Reply>, msgSet: seq<nat>, uidCmd: bool, entries: seq<Entry>) {
    && NotesFor(NotesOf(replies), msgSet, entries)
    && forall i :: 0 <= i < |msgSet| ==>
         replies[i].uid == if uidCmd then Some(entries[msgSet[i] - 1].uid) else None
  }

  lemma LookedPlaces(l: Lists, msgSet: seq<nat>, keys: seq<nat>)
    requires Looked(l, msgSet, keys) && Ascending(l.msgKeys)
    ensures forall i :: 0 <= i < |keys| ==>
      keys[i] in Positions(l.msgKeys) && Positions(l.msgKeys)[keys[i]] + 1 == msgSet[i]
  {
    PositionsLocate(l.msgKeys);
  }

  lemma StoreNotes(ix: Index, msgSet: seq<nat>, keys: seq<nat>, action: Action, names: seq<string>, notes: seq<Note>)
    requires Sound(ix) && Viewable(ix) && Looked(ix.lists, msgSet, keys) && |notes| == |keys|
    requires forall i :: 0 <= i < |keys| ==>
      keys[i] in Positions(ix.lists.msgKeys)
      && notes[i] == Flagged(Positions(ix.lists.msgKeys)[keys[i]] + 1, Stored(action, names, FlagsOf(ix.sequences, keys[i])))
    ensures NotesFor(notes, msgSet, Do(View(ix), Step.Store(Elements(msgSet), action, names)).entries)
  {
    LookedPlaces(ix.lists, msgSet, keys);
    forall i | 0 <= i < |msgSet|
      ensures 1 <= msgSet[i] <= |View(ix).entries| && View(ix).entries[msgSet[i] - 1].flags == FlagsOf(ix.sequences, keys[i])
    {
      EntryAt(ix, msgSet[i] - 1);
    }
  }

  /** The keys of the messages in the set that are in a sequence, if a FETCH reads what bears on it. */
  ghost function Noted(ix: Index, msgSet: seq<nat>, looks: bool, name: string): set<nat> {
    set x | x in msgSet && looks && 1 <= x <= |ix.lists.msgKeys| && ix.lists.msgKeys[x - 1] in Get(ix.sequences, name)
      :: ix.lists.msgKeys[x - 1]
  }

  lemma NotedNext(ix: Index, msgSet: seq<nat>, i: nat, looks: bool, name: string)
    requires i < |msgSet| && 1 <= msgSet[i] <= |ix.lists.msgKeys|
    ensures var key := ix.lists.msgKeys[msgSet[i] - 1];
      Noted(ix, msgSet[..i + 1], looks, name)
        == Noted(ix, msgSet[..i], looks, name) + if looks && key in Get(ix.sequences, name) then {key} else {}
  {
    assert forall x :: x in msgSet[..i + 1] <==> x in msgSet[..i] || x == msgSet[i];
    var a, b := Noted(ix, msgSet[..i + 1], looks, name), Noted(ix, msgSet[..i], looks, name);
    var keys, named := ix.lists.msgKeys, Get(ix.sequences, name);
    var key := keys[msgSet[i] - 1];
    assert looks && key in Get(ix.sequences, name) ==> msgSet[i] in msgSet[..i + 1] && key in a;
    forall k | k in a ensures k in b || (looks && key in Get(ix.sequences, name) && k == key) {
      var x :| x in msgSet[..i + 1] && 1 <= x <= |keys| && keys[x - 1] == k && k in named;
      assert x in msgSet[..i] || x == msgSet[i];
      assert looks;
    }
    forall k | k in b ensures k in a {
      var x :| x in msgSet[..i] && 1 <= x <= |keys| && keys[x - 1] == k && k in named;
      assert x in msgSet[..i + 1];
    }
  }

  /** The FETCH lines for these keys, in order. */
  ghost predicate LinesFor(lines: seq<Note>, keys: seq<nat>, at: map<nat, nat>, seqs: Sequences) {
    && |lines| == |keys|
    && forall i :: 0 <= i < |keys| ==> keys[i] in at && lines[i] == Flagged(at[keys[i]] + 1, FlagsOf(seqs, keys[i]))
  }

  /** The step of the end of a FETCH that noted these keys. */
  ghost function FetchEndOf(l: Lists, recent: set<nat>, unseen: set<nat>): Step {
    Step.FetchEnd(NumbersOf(l, recent), NumbersOf(l, unseen))
  }

  lemma NothingFetched(ix: Index, recent: set<nat>, unseen: set<nat>)
    requires Sound(ix) && Viewable(ix) && recent + unseen == {}
    ensures Do(View(ix), FetchEndOf(ix.lists, recent, unseen)) == View(ix)
  {
    assert recent == {} && unseen == {};
    assert FetchAll(View(ix).entries, {}, {}) == View(ix).entries;
  }

  // ---------- What the end of FETCH writes, whether or not the noted messages are still listed ----------

  /** The index after both writes. */
  function AfterWrite(ix: Index, recent: set<nat>, unseen: set<nat>): Index {
    var seen := unseen - Get(ix.sequences, SEEN);
    Index(SetSequences(ix.folder, Reseen(GetSequences(ix.folder), recent, unseen, seen)), ix.lists,
          Reseen(ix.sequences, recent, unseen, seen))
  }

  /** No noted key is that of a message that has gone and whose key a new, unlisted one has got. */
  ghost predicate NoneReused(ix: Index, noted: set<nat>) {
    forall k :: k in noted ==> k in ix.lists.msgKeys || k !in ix.folder.msgs
  }

  lemma WrittenInMemory(ix: Index, recent: set<nat>, unseen: set<nat>)
    ensures FetchedOn(ix.sequences, recent, unseen, AfterWrite(ix, recent, unseen).sequences)
  {
    var seen, seqs' := unseen - Get(ix.sequences, SEEN), AfterWrite(ix, recent, unseen).sequences;
    forall k ensures FlagsOf(seqs', k) == AfterFetch(FlagsOf(ix.sequences, k), k in recent, k in unseen) {
      ReseenFlags(ix.sequences, recent, unseen, seen, k);
    }
  }

  /** The file agrees with memory on what is listed, and keeps the marks of what was not noted. */
  lemma WrittenOnDisk(ix: Index, recent: set<nat>, unseen: set<nat>, k: nat)
    requires Sound(ix) && k in ix.folder.msgs
    ensures var ix' := AfterWrite(ix, recent, unseen);
      && (k in ix.lists.msgKeys ==> FlagsOf(ix'.folder.marks, k) == FlagsOf(ix'.sequences, k))
      && (k !in recent && k !in unseen ==> FlagsOf(ix'.folder.marks, k) == FlagsOf(ix.folder.marks, k))
  {
    var seen := unseen - Get(ix.sequences, SEEN);
    var file := Reseen(GetSequences(ix.folder), recent, unseen, seen);
    GetSequencesFlags(ix.folder, k);
    SetSequencesFlags(ix.folder, file, k);
    if k in ix.lists.msgKeys {
      assert FlagsOf(ix.folder.marks, k) == FlagsOf(ix.sequences, k);
      ReseenFlags(GetSequences(ix.folder), recent, unseen, seen, k);
      ReseenFlags(ix.sequences, recent, unseen, seen, k);
    }
    if k !in recent && k !in unseen { ReseenFlags(GetSequences(ix.folder), recent, unseen, seen, k); }
  }

  /** A key that has gone while it was noted as unseen gets into Seen, where only listed keys belong. */
  lemma GoneKeyIsSeen(ix: Index, recent: set<nat>, unseen: set<nat>, k: nat)
    requires Sound(ix) && k in unseen && k !in ix.lists.msgKeys
    ensures !Within(AfterWrite(ix, recent, unseen).sequences, ix.lists.msgKeys)
  {
    WrittenInMemory(ix, recent, unseen);
    assert SEEN in FlagsOf(AfterWrite(ix, recent, unseen).sequences, k);
  }

  lemma WrittenWithin(ix: Index, recent: set<nat>, unseen: set<nat>)
    requires Sound(ix) && forall k :: k in unseen ==> k in ix.lists.msgKeys
    ensures Sound(AfterWrite(ix, recent, unseen))
  {
    var ix' := AfterWrite(ix, recent, unseen);
    WrittenInMemory(ix, recent, unseen);
    KeysAscending(ix.folder);
    assert Keys(ix'.folder) == Keys(ix.folder);
    forall k: nat | k !in ix.lists.msgKeys ensures FlagsOf(ix'.sequences, k) == {} {
      assert FlagsOf(ix.sequences, k) == {};
    }
    forall k | k in ix.lists.msgKeys
      ensures k in Keys(ix.folder) && FlagsOf(ix'.folder.marks, k) == FlagsOf(ix'.sequences, k)
    {
      assert k in Keys(ix.folder);
      WrittenOnDisk(ix, recent, unseen, k);
    }
  }

  lemma WrittenArrivals(ix: Index, recent: set<nat>, unseen: set<nat>)
    requires Sound(ix) && Viewable(ix) && NoneReused(ix, recent + unseen)
    ensures var ix' := AfterWrite(ix, recent, unseen); Viewable(ix') && View(ix').arrived == View(ix).arrived
  {
    var ix', us := AfterWrite(ix, recent, unseen), Unlisted(ix);
    assert Keys(ix'.folder) == Keys(ix.folder) && Unlisted(ix') == us;
    UnlistedAreNew(ix);
    assert forall k :: k in recent + unseen <==> k in recent || k in unseen;
    forall i | 0 <= i < |us| ensures FlagsOf(ix'.folder.marks, us[i]) == FlagsOf(ix.folder.marks, us[i]) {
      assert us[i] in us;
      WrittenOnDisk(ix, recent, unseen, us[i]);
    }
    ArrivalsStay(ix.folder, ix'.folder, us, ix.folder.marks, ix'.folder.marks);
  }

  /** The end of FETCH does to the listed messages what its step says, in every case. It keeps the invariant if and only
      if every message noted as unseen is still listed. */
  lemma FetchView(ix: Index, recent: set<nat>, unseen: set<nat>)
    requires Sound(ix)
    ensures var ix', step := AfterWrite(ix, recent, unseen), FetchEndOf(ix.lists, recent, unseen);
      && Viewable(ix) && Viewable(ix')
      && (Sound(ix') <==> forall k :: k in unseen ==> k in ix.lists.msgKeys)
      && View(ix').entries == Do(View(ix), step).entries && View(ix').nextUid == View(ix).nextUid
      && (NoneReused(ix, recent + unseen) ==> View(ix') == Do(View(ix), step))
  {
    WrittenEntries(ix, recent, unseen);
    SoundIffListed(ix, recent, unseen);
    if NoneReused(ix, recent + unseen) { WrittenBox(ix, recent, unseen); }
  }

  lemma WrittenBox(ix: Index, recent: set<nat>, unseen: set<nat>)
    requires Sound(ix) && Viewable(ix) && NoneReused(ix, recent + unseen)
    ensures var ix' := AfterWrite(ix, recent, unseen);
      Viewable(ix') && View(ix') == Do(View(ix), FetchEndOf(ix.lists, recent, unseen))
  {
    WrittenEntries(ix, recent, unseen);
    WrittenArrivals(ix, recent, unseen);
  }

  lemma WrittenEntries(ix: Index, recent: set<nat>, unseen: set<nat>)
    requires Sound(ix)
    ensures var ix' := AfterWrite(ix, recent, unseen);
      && Viewable(ix) && Viewable(ix')
      && View(ix').entries == Do(View(ix), FetchEndOf(ix.lists, recent, unseen)).entries
  {
    var ix' := AfterWrite(ix, recent, unseen);
    TracksViewable(ix);
    assert Keys(ix'.folder) == Keys(ix.folder);
    WrittenInMemory(ix, recent, unseen);
    FetchEntries(ix, recent, unseen, ix'.sequences);
    ListedStays(ix.folder, ix'.folder, ix.lists.msgKeys, ix.lists.uids, ix'.sequences);
  }

  lemma SoundIffListed(ix: Index, recent: set<nat>, unseen: set<nat>)
    requires Sound(ix)
    ensures Sound(AfterWrite(ix, recent, unseen)) <==> forall k :: k in unseen ==> k in ix.lists.msgKeys
  {
    if k :| k in unseen && k !in ix.lists.msgKeys {
      GoneKeyIsSeen(ix, recent, unseen, k);
    } else {
      WrittenWithin(ix, recent, unseen);
    }
  }
}
