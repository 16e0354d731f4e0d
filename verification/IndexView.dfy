/** What a mailbox index means, and why changing its lists and sequences changes that meaning as it should. */
module IndexView {
  import opened Base
  import opened Flags
  import opened Folder
  import opened Box
  import opened Indexing
  import opened Notify

  datatype Index = Index(folder: Folder, lists: Lists, sequences: Sequences)

  // ---------- Sequences ----------

  function Put(seqs: Sequences, name: string, key: nat): Sequences {
    seqs[name := Get(seqs, name) + {key}]
  }

  function Drop(seqs: Sequences, name: string, key: nat): Sequences {
    seqs[name := Get(seqs, name) - {key}]
  }

  lemma PutFlags(seqs: Sequences, name: string, key: nat)
    ensures forall k :: FlagsOf(Put(seqs, name, key), k) == FlagsOf(seqs, k) + if k == key then {name} else {}
  {
  }

  lemma DropFlags(seqs: Sequences, name: string, key: nat)
    ensures forall k :: FlagsOf(Drop(seqs, name, key), k) == FlagsOf(seqs, k) - if k == key then {name} else {}
  {
  }

  /** Only keys that the index lists are in sequences. */
  ghost predicate Within(seqs: Sequences, keys: seq<nat>) {
    forall k: nat {:trigger FlagsOf(seqs, k)} :: k !in keys ==> FlagsOf(seqs, k) == {}
  }

  /** Disk and memory agree on the sequences of every listed message. */
  ghost predicate InSync(f: Folder, keys: seq<nat>, seqs: Sequences) {
    forall k {:trigger FlagsOf(f.marks, k)} {:trigger FlagsOf(seqs, k)} ::
      k in keys ==> FlagsOf(f.marks, k) == FlagsOf(seqs, k)
  }

  // ---------- The meaning of an index ----------

  ghost predicate Listable(f: Folder, keys: seq<nat>, uids: seq<nat>) {
    |keys| == |uids| && forall i :: 0 <= i < |keys| ==> keys[i] in f.msgs
  }

  ghost function Listed(f: Folder, keys: seq<nat>, uids: seq<nat>, seqs: Sequences): (entries: seq<Entry>)
    requires Listable(f, keys, uids)
    ensures |entries| == |keys|
    ensures forall i :: 0 <= i < |keys| ==> entries[i] == Entry(uids[i], f.msgs[keys[i]], FlagsOf(seqs, keys[i]))
  {
    seq(|keys|, i requires 0 <= i < |keys| => Entry(uids[i], f.msgs[keys[i]], FlagsOf(seqs, keys[i])))
  }

  /** The messages of these keys, as they arrive if `marks` is the sequence file. */
  function Arrivals(f: Folder, keys: seq<nat>, marks: Sequences): (arrivals: seq<Arrival>)
    requires forall i :: 0 <= i < |keys| ==> keys[i] in f.msgs
    ensures |arrivals| == |keys|
    ensures forall i :: 0 <= i < |keys| ==> arrivals[i] == Arrival(f.msgs[keys[i]], FlagsOf(marks, keys[i]))
  {
    seq(|keys|, i requires 0 <= i < |keys| => Arrival(f.msgs[keys[i]], FlagsOf(marks, keys[i])))
  }

  /** The representation invariant, up to sequence members that the index does not list yet. */
  ghost predicate Tracks(ix: Index) {
    && Parallel(ix.lists) && UidsBelow(ix.lists)
    && ix.lists.msgKeys <= Keys(ix.folder)
    && Within(ix.sequences, Keys(ix.folder))
    && InSync(ix.folder, ix.lists.msgKeys, ix.sequences)
  }

  ghost predicate Sound(ix: Index) {
    Tracks(ix) && Within(ix.sequences, ix.lists.msgKeys)
  }

  function Unlisted(ix: Index): (keys: seq<nat>)
    requires |ix.lists.msgKeys| <= |Keys(ix.folder)|
    ensures forall i :: 0 <= i < |keys| ==> keys[i] in ix.folder.msgs
  {
    KeysExist(ix.folder);
    Keys(ix.folder)[|ix.lists.msgKeys|..]
  }

  ghost predicate Viewable(ix: Index) {
    && Listable(ix.folder, ix.lists.msgKeys, ix.lists.uids)
    && |ix.lists.msgKeys| <= |Keys(ix.folder)|
  }

  ghost function View(ix: Index): Box
    requires Viewable(ix)
  {
    Box(Listed(ix.folder, ix.lists.msgKeys, ix.lists.uids, ix.sequences),
        Arrivals(ix.folder, Unlisted(ix), ix.folder.marks),
        ix.lists.nextUid)
  }

  lemma TracksViewable(ix: Index)
    requires Tracks(ix)
    ensures Viewable(ix)
  {
    KeysExist(ix.folder);
  }

  lemma ViewUids(ix: Index)
    requires Tracks(ix)
    ensures Viewable(ix) && Uids(View(ix).entries) == ix.lists.uids && UidsOk(View(ix))
  {
    TracksViewable(ix);
  }

  // ---------- How many messages are Recent ----------

  /** The Recent sequence of a sound index has as many members as the mailbox has Recent messages. */
  lemma RecentCounted(ix: Index)
    requires Sound(ix) && Viewable(ix)
    ensures |Get(ix.sequences, RECENT)| == CountRecent(View(ix).entries)
  {
    var keys, recent, entries := ix.lists.msgKeys, Get(ix.sequences, RECENT), View(ix).entries;
    forall k | k in recent ensures k in keys {
      assert RECENT in FlagsOf(ix.sequences, k);
    }
    PlacesCount(keys, recent);
    assert forall i :: 0 <= i < |keys| ==> (RECENT in entries[i].flags <==> keys[i] in recent);
    assert (set i | 0 <= i < |entries| && RECENT in entries[i].flags) == set i | 0 <= i < |keys| && keys[i] in recent;
  }

  lemma {:induction false} PlacesCount(keys: seq<nat>, members: set<nat>)
    requires Ascending(keys) && forall k :: k in members ==> k in keys
    ensures |members| == |set i | 0 <= i < |keys| && keys[i] in members|
    decreases |keys|
  {
    var places := set i | 0 <= i < |keys| && keys[i] in members;
    if keys == [] {
      assert members == {} && places == {};
    } else {
      var last := |keys| - 1;
      var rest, others := keys[..last], members - {keys[last]};
      LastIsNew(keys);
      assert forall k :: k in others ==> k in rest by { assert keys == rest + [keys[last]]; }
      PlacesCount(rest, others);
      forall i | 0 <= i < last ensures keys[i] in members <==> rest[i] in others {
        assert rest[i] in rest;
      }
      assert places - {last} == set i | 0 <= i < |rest| && rest[i] in others;
    }
  }

  // ---------- Resync ----------

  /** What a resync makes of the sequences: those of the messages it did not know come from the file. */
  ghost predicate Adopted(seqs: Sequences, f: Folder, new_: seq<nat>, seqs': Sequences) {
    forall k: nat {:trigger FlagsOf(seqs', k)} ::
      FlagsOf(seqs', k) == if k in new_ then Flags.Arrived(FlagsOf(f.marks, k)) else FlagsOf(seqs, k)
  }

  lemma SettleNothing(ix: Index)
    requires Tracks(ix) && ix.lists.msgKeys == Keys(ix.folder)
    ensures Sound(ix) && Viewable(ix) && Settle(View(ix)) == View(ix)
  {
    TracksViewable(ix);
    assert View(ix).arrived == [];
    assert View(ix).entries + [] == View(ix).entries;
  }

  lemma ResyncSound(ix: Index, seqs': Sequences)
    requires Tracks(ix) && Adopted(ix.sequences, ix.folder, Unlisted(ix), seqs')
    ensures Sound(Index(SetSequences(ix.folder, seqs'), Reindexed(ix.lists, Keys(ix.folder)), seqs'))
  {
    var found, f' := Keys(ix.folder), SetSequences(ix.folder, seqs');
    KeysAscending(ix.folder);
    ReindexedExtension(ix.lists, found);
    ReindexedUids(ix.lists, found);
    assert Keys(f') == found;
    assert found == ix.lists.msgKeys + Unlisted(ix);
    forall k ensures FlagsOf(f'.marks, k) == FlagsOf(seqs', k) { SetSequencesFlags(ix.folder, seqs', k); }
  }

  /** Numbering new keys after the listed ones lists their arrivals after the entries. */
  lemma ListedWithNew(f: Folder, keys: seq<nat>, uids: seq<nat>, new_: seq<nat>, uid: nat,
                      seqs: Sequences, seqs': Sequences)
    requires Listable(f, keys, uids) && forall i :: 0 <= i < |new_| ==> new_[i] in f.msgs
    requires forall k :: k in keys ==> k !in new_
    requires Adopted(seqs, f, new_, seqs')
    ensures Listed(SetSequences(f, seqs'), keys + new_, uids + Fresh(uid, |new_|), seqs')
      == Listed(f, keys, uids, seqs) + Number(Arrivals(f, new_, f.marks), uid)
  {
    var all := keys + new_;
    var a := Listed(SetSequences(f, seqs'), all, uids + Fresh(uid, |new_|), seqs');
    var b := Listed(f, keys, uids, seqs) + Number(Arrivals(f, new_, f.marks), uid);
    forall i | 0 <= i < |all| ensures a[i] == b[i] {
      assert if i < |keys| then all[i] == keys[i] && keys[i] in keys
             else all[i] == new_[i - |keys|] && new_[i - |keys|] in new_;
    }
  }

  lemma UnlistedAreNew(ix: Index)
    requires Tracks(ix)
    ensures Keys(ix.folder) == ix.lists.msgKeys + Unlisted(ix)
    ensures forall k :: k in ix.lists.msgKeys ==> k !in Unlisted(ix)
  {
    KeysAscending(ix.folder);
    assert Keys(ix.folder) == ix.lists.msgKeys + Unlisted(ix);
    HalvesDiffer(ix.lists.msgKeys, Unlisted(ix));
  }

  lemma HalvesDiffer(a: seq<nat>, b: seq<nat>)
    requires Ascending(a + b)
    ensures forall k :: k in a ==> k !in b
  {
    AscendingPairs(a + b);
    forall i, j | 0 <= i < |a| && 0 <= j < |b| ensures a[i] < b[j] {
      assert (a + b)[i] == a[i] && (a + b)[|a| + j] == b[j];
    }
  }

  lemma ResyncLists(ix: Index)
    requires Tracks(ix)
    ensures var l, new_ := Reindexed(ix.lists, Keys(ix.folder)), Unlisted(ix);
      && l.msgKeys == ix.lists.msgKeys + new_ == Keys(ix.folder)
      && l.uids == ix.lists.uids + Fresh(ix.lists.nextUid, |new_|)
      && l.nextUid == ix.lists.nextUid + |new_|
  {
    KeysAscending(ix.folder);
    ReindexedExtension(ix.lists, Keys(ix.folder));
    UnlistedAreNew(ix);
  }

  lemma ResyncEntries(ix: Index, ix': Index)
    requires Viewable(ix) && Viewable(ix')
    requires ix'.folder == SetSequences(ix.folder, ix'.sequences)
    requires ix'.lists.msgKeys == ix.lists.msgKeys + Unlisted(ix) == Keys(ix.folder)
    requires ix'.lists.uids == ix.lists.uids + Fresh(ix.lists.nextUid, |Unlisted(ix)|)
    requires ix'.lists.nextUid == ix.lists.nextUid + |Unlisted(ix)|
    requires forall k :: k in ix.lists.msgKeys ==> k !in Unlisted(ix)
    requires Adopted(ix.sequences, ix.folder, Unlisted(ix), ix'.sequences)
    ensures View(ix') == Settle(View(ix))
  {
    ListedWithNew(ix.folder, ix.lists.msgKeys, ix.lists.uids, Unlisted(ix), ix.lists.nextUid,
                  ix.sequences, ix'.sequences);
    assert Keys(ix'.folder) == Keys(ix.folder);
    assert Unlisted(ix') == [];
  }

  /** A resync lists what has arrived, after all other messages, and changes nothing else. */
  lemma ResyncView(ix: Index, seqs': Sequences)
    requires Tracks(ix) && Adopted(ix.sequences, ix.folder, Unlisted(ix), seqs')
    ensures var ix' := Index(SetSequences(ix.folder, seqs'), Reindexed(ix.lists, Keys(ix.folder)), seqs');
      Viewable(ix) && Sound(ix') && Viewable(ix') && View(ix') == Settle(View(ix))
  {
    var ix' := Index(SetSequences(ix.folder, seqs'), Reindexed(ix.lists, Keys(ix.folder)), seqs');
    TracksViewable(ix);
    ResyncSound(ix, seqs');
    TracksViewable(ix');
    UnlistedAreNew(ix);
    ResyncLists(ix);
    ResyncEntries(ix, ix');
  }

  /** After a shrink everything in the folder counts as arrived, under UIDs never given out before. */
  lemma RebuildView(ix: Index, b: Box, seqs': Sequences)
    requires var l := ix.lists; |l.msgKeys| == |l.uids| == l.numMsgs && |Keys(ix.folder)| < l.numMsgs
    requires Adopted(map[], ix.folder, Keys(ix.folder), seqs') && b.nextUid == ix.lists.nextUid
    ensures var ix' := Index(SetSequences(ix.folder, seqs'), Reindexed(ix.lists, Keys(ix.folder)), seqs');
      && Sound(ix') && Viewable(ix')
      && View(ix') == Settle(Box([], FolderArrivals(ix.folder), b.nextUid))
  {
    var found := Keys(ix.folder);
    var empty := Index(ix.folder, Lists([], [], ix.lists.nextUid, 0), map[]);
    KeysAscending(ix.folder);
    StartAnew(ix.lists, found);
    EmptyTracks(empty);
    ResyncView(empty, seqs');
  }

  function FolderArrivals(f: Folder): seq<Arrival> {
    KeysExist(f);
    Arrivals(f, Keys(f), f.marks)
  }

  lemma EmptyTracks(ix: Index)
    requires ix.lists.msgKeys == [] && ix.lists.uids == [] && ix.lists.numMsgs == 0 && ix.sequences == map[]
    ensures Tracks(ix) && Viewable(ix) && Unlisted(ix) == Keys(ix.folder)
    ensures View(ix) == Box([], FolderArrivals(ix.folder), ix.lists.nextUid)
  {
    assert forall k :: FlagsOf(map[], k) == {};
  }

  lemma StartAnew(l: Lists, found: seq<nat>)
    requires |l.msgKeys| == |l.uids| == l.numMsgs && |found| < l.numMsgs && Ascending(found)
    ensures Reindexed(Lists([], [], l.nextUid, 0), found) == Reindexed(l, found)
  {
    ReindexedShrunk(l, found);
    ReindexedExtension(Lists([], [], l.nextUid, 0), found);
    assert [] + Fresh(l.nextUid, |found|) == Fresh(l.nextUid, |found|);
  }

  // ---------- Arrivals, and what overwriting the sequence file does to them ----------

  function AddMarks(seqs: Sequences, names: Names, key: nat): Sequences {
    map n | n in seqs.Keys + names :: Get(seqs, n) + if n in names then {key} else {}
  }

  lemma AddMarksFlags(seqs: Sequences, names: Names, key: nat)
    ensures forall k :: FlagsOf(AddMarks(seqs, names, key), k) == FlagsOf(seqs, k) + if k == key then names else {}
  {
    forall k ensures FlagsOf(AddMarks(seqs, names, key), k) == FlagsOf(seqs, k) + if k == key then names else {} {
      var f := FlagsOf(AddMarks(seqs, names, key), k);
      assert forall n :: n in f <==> k in Get(AddMarks(seqs, names, key), n);
      assert forall n :: Get(AddMarks(seqs, names, key), n) == Get(seqs, n) + if n in names then {key} else {};
    }
  }

  /** The folder has got more messages, all after the others, and the others are as they were. */
  ghost predicate GrewBy(f: Folder, f': Folder, keys: seq<nat>, msgs: seq<Message>) {
    && |keys| == |msgs| && Keys(f') == Keys(f) + keys
    && (forall i :: 0 <= i < |keys| ==> keys[i] in f'.msgs && keys[i] !in f.msgs && f'.msgs[keys[i]] == msgs[i])
    && (forall k :: k in f.msgs ==> k in f'.msgs && f'.msgs[k] == f.msgs[k])
    && (forall k :: k in f.msgs ==> FlagsOf(f'.marks, k) == FlagsOf(f.marks, k))
  }

  lemma GrewOne(f: Folder, key: nat, msg: Message, marks: Sequences)
    requires forall k :: k in f.msgs ==> k < key
    requires forall k :: k != key ==> FlagsOf(marks, k) == FlagsOf(f.marks, k)
    ensures GrewBy(f, Folder(f.msgs[key := msg], marks), [key], [msg])
  {
    KeysOfAdd(f, key, msg);
    assert Keys(Folder(f.msgs[key := msg], marks)) == Keys(AddMsg(f, key, msg));
  }

  lemma GrewNothing(f: Folder)
    ensures GrewBy(f, f, [], [])
  {
    assert Keys(f) + [] == Keys(f);
  }

  lemma GrewTwice(f: Folder, f1: Folder, f2: Folder, k1: seq<nat>, m1: seq<Message>, k2: seq<nat>, m2: seq<Message>)
    requires GrewBy(f, f1, k1, m1) && GrewBy(f1, f2, k2, m2)
    ensures GrewBy(f, f2, k1 + k2, m1 + m2)
  {
    assert Keys(f) + k1 + k2 == Keys(f) + (k1 + k2);
    forall i | 0 <= i < |k1 + k2|
      ensures (k1 + k2)[i] in f2.msgs && (k1 + k2)[i] !in f.msgs && f2.msgs[(k1 + k2)[i]] == (m1 + m2)[i]
    {
      if i < |k1| { assert k1[i] in f1.msgs; } else { assert k2[i - |k1|] !in f1.msgs; }
    }
  }

  /** What an index means does not change when the folder grows, except for what has arrived. */
  lemma GrewView(ix: Index, f': Folder, keys: seq<nat>, msgs: seq<Message>)
    requires Tracks(ix) && GrewBy(ix.folder, f', keys, msgs)
    ensures var ix' := ix.(folder := f');
      && Tracks(ix') && (Sound(ix) ==> Sound(ix')) && Viewable(ix) && Viewable(ix')
      && View(ix').entries == View(ix).entries && Unlisted(ix') == Unlisted(ix) + keys
  {
    var ix' := ix.(folder := f');
    TracksViewable(ix);
    GrewTracks(ix, f', keys, msgs);
    TracksViewable(ix');
    ListedStays(ix.folder, f', ix.lists.msgKeys, ix.lists.uids, ix.sequences);
  }

  lemma GrewTracks(ix: Index, f': Folder, keys: seq<nat>, msgs: seq<Message>)
    requires Tracks(ix) && GrewBy(ix.folder, f', keys, msgs)
    ensures Tracks(ix.(folder := f'))
  {
    KeysAscending(ix.folder);
    assert forall k :: k in ix.lists.msgKeys ==> k in Keys(ix.folder);
  }

  lemma ArrivalsSplit(f: Folder, a: seq<nat>, b: seq<nat>, marks: Sequences)
    requires forall i :: 0 <= i < |a| ==> a[i] in f.msgs
    requires forall i :: 0 <= i < |b| ==> b[i] in f.msgs
    ensures Arrivals(f, a + b, marks) == Arrivals(f, a, marks) + Arrivals(f, b, marks)
  {
  }

  /** Messages with the same content and marks arrive alike. */
  lemma ArrivalsStay(f: Folder, f': Folder, keys: seq<nat>, marks: Sequences, marks': Sequences)
    requires forall i :: 0 <= i < |keys| ==>
      keys[i] in f.msgs && keys[i] in f'.msgs && f'.msgs[keys[i]] == f.msgs[keys[i]]
      && FlagsOf(marks', keys[i]) == FlagsOf(marks, keys[i])
    ensures Arrivals(f', keys, marks') == Arrivals(f, keys, marks)
  {
  }

  /** One more arrival, with the marks the file gives it. */
  lemma DeliverView(ix: Index, key: nat, msg: Message, marks: Sequences)
    requires Tracks(ix) && forall k :: k in ix.folder.msgs ==> k < key
    requires forall k :: k != key ==> FlagsOf(marks, k) == FlagsOf(ix.folder.marks, k)
    ensures var ix' := ix.(folder := Folder(ix.folder.msgs[key := msg], marks));
      && GrewBy(ix.folder, ix'.folder, [key], [msg])
      && Tracks(ix') && (Sound(ix) ==> Sound(ix')) && Viewable(ix) && Viewable(ix')
      && View(ix') == View(ix).(arrived := View(ix).arrived + [Arrival(msg, FlagsOf(marks, key))])
  {
    var f' := Folder(ix.folder.msgs[key := msg], marks);
    GrewOne(ix.folder, key, msg, marks);
    GrewView(ix, f', [key], [msg]);
    ArrivalsSplit(f', Unlisted(ix), [key], marks);
    ArrivalsStay(ix.folder, f', Unlisted(ix), ix.folder.marks, marks);
    assert Arrivals(f', [key], marks) == [Arrival(msg, FlagsOf(marks, key))];
  }

  /** What is listed depends only on the listed messages. */
  lemma ListedStays(f: Folder, f': Folder, keys: seq<nat>, uids: seq<nat>, seqs: Sequences)
    requires Listable(f, keys, uids)
    requires forall i :: 0 <= i < |keys| ==> keys[i] in f'.msgs && f'.msgs[keys[i]] == f.msgs[keys[i]]
    ensures Listed(f', keys, uids, seqs) == Listed(f, keys, uids, seqs)
  {
  }

  /** New sequences in memory and on disk, which agree on what is listed, set the flags of the entries and the marks
      of the arrivals. */
  lemma WrittenView(ix: Index, seqs': Sequences, marks: Sequences, f': Folder)
    requires Tracks(ix) && Within(seqs', Keys(ix.folder)) && f' == SetSequences(ix.folder, marks)
    requires forall k :: k in ix.lists.msgKeys ==> FlagsOf(marks, k) == FlagsOf(seqs', k)
    ensures var ix' := Index(f', ix.lists, seqs');
      && Tracks(ix') && Viewable(ix) && Viewable(ix')
      && View(ix') == View(ix).(entries := Listed(ix.folder, ix.lists.msgKeys, ix.lists.uids, seqs'),
                                arrived := Arrivals(ix.folder, Unlisted(ix), marks))
  {
    var ix' := Index(f', ix.lists, seqs');
    TracksViewable(ix);
    assert Keys(f') == Keys(ix.folder);
    forall k ensures FlagsOf(f'.marks, k) == FlagsOf(marks, k) { SetSequencesFlags(ix.folder, marks, k); }
    assert Unlisted(ix') == Unlisted(ix);
    ListedStays(ix.folder, f', ix.lists.msgKeys, ix.lists.uids, seqs');
  }

  /** The entry for a message, found by its position. */
  lemma EntryAt(ix: Index, i: nat)
    requires Viewable(ix) && i < |ix.lists.msgKeys|
    ensures View(ix).entries[i]
      == Entry(ix.lists.uids[i], ix.folder.msgs[ix.lists.msgKeys[i]], FlagsOf(ix.sequences, ix.lists.msgKeys[i]))
  {
  }

  /** Messages the sequence file does not mention arrive unmarked. */
  lemma BareArrivals(f: Folder, keys: seq<nat>, marks: Sequences, arrivals: seq<Arrival>)
    requires |arrivals| == |keys|
    requires forall i :: 0 <= i < |keys| ==>
      keys[i] in f.msgs && f.msgs[keys[i]] == arrivals[i].msg && FlagsOf(marks, keys[i]) == {}
    ensures Arrivals(f, keys, marks) == Unmarked(arrivals)
  {
  }

  /** Listed messages, and no others, are in the sequences. */
  lemma UnlistedHaveNoFlags(ix: Index)
    requires Sound(ix)
    ensures Viewable(ix) && forall i :: 0 <= i < |Unlisted(ix)| ==> FlagsOf(ix.sequences, Unlisted(ix)[i]) == {}
  {
    TracksViewable(ix);
    UnlistedAreNew(ix);
    assert forall i :: 0 <= i < |Unlisted(ix)| ==> Unlisted(ix)[i] in Unlisted(ix);
  }

  // ---------- Expunge ----------

  /** Removing an entry with a smaller UID than all that went before: it still stands where it stood at first. */
  lemma {:induction false} RemoveEntry(entries: seq<Entry>, uids: set<nat>, p: nat)
    requires InUidOrder(entries) && p < |entries|
    requires forall i :: 0 <= i <= p ==> entries[i].uid !in uids
    ensures p < |Without(entries, uids)| && Without(entries, uids)[p] == entries[p]
    ensures Without(entries, uids + {entries[p].uid}) == RemoveAt(Without(entries, uids), p)
  {
    var more, rest := uids + {entries[p].uid}, entries[1..];
    assert entries[0].uid !in uids;
    if p == 0 {
      WithoutSame(rest, uids, more);
    } else {
      assert rest[p - 1] == entries[p];
      RemoveEntry(rest, uids, p - 1);
      assert entries[0].uid !in more;
      RemoveBehind(entries[0], Without(rest, uids), p - 1);
    }
  }

  lemma RemoveBehind(e: Entry, s: seq<Entry>, p: nat)
    requires p < |s|
    ensures RemoveAt([e] + s, p + 1) == [e] + RemoveAt(s, p)
  {
  }

  lemma {:induction false} WithoutSame(entries: seq<Entry>, a: set<nat>, b: set<nat>)
    requires forall i :: 0 <= i < |entries| ==> (entries[i].uid in a <==> entries[i].uid in b)
    ensures Without(entries, a) == Without(entries, b)
  {
    if entries != [] { WithoutSame(entries[1..], a, b); }
  }

  lemma {:induction false} WithoutNone(entries: seq<Entry>)
    ensures Without(entries, {}) == entries
  {
    if entries != [] { WithoutNone(entries[1..]); }
  }

  lemma ListedRemoved(f: Folder, keys: seq<nat>, uids: seq<nat>, seqs: Sequences, p: nat)
    requires Listable(f, keys, uids) && Ascending(keys) && p < |keys|
    ensures Ascending(RemoveAt(keys, p)) && Listable(RemoveMsg(f, keys[p]), RemoveAt(keys, p), RemoveAt(uids, p))
    ensures Listed(RemoveMsg(f, keys[p]), RemoveAt(keys, p), RemoveAt(uids, p), seqs)
      == RemoveAt(Listed(f, keys, uids, seqs), p)
  {
    var rest, f' := RemoveAt(keys, p), RemoveMsg(f, keys[p]);
    RemoveAscending(keys, p);
    forall i | 0 <= i < |rest| ensures rest[i] in f'.msgs && f'.msgs[rest[i]] == f.msgs[rest[i]] {
      assert rest[i] in rest;
    }
    ListedPart(f, f', keys, uids, seqs, p);
  }

  lemma ListedPart(f: Folder, f': Folder, keys: seq<nat>, uids: seq<nat>, seqs: Sequences, p: nat)
    requires Listable(f, keys, uids) && p < |keys|
    requires forall i :: 0 <= i < |keys| - 1 ==>
      RemoveAt(keys, p)[i] in f'.msgs && f'.msgs[RemoveAt(keys, p)[i]] == f.msgs[RemoveAt(keys, p)[i]]
    ensures Listable(f', RemoveAt(keys, p), RemoveAt(uids, p))
    ensures Listed(f', RemoveAt(keys, p), RemoveAt(uids, p), seqs) == RemoveAt(Listed(f, keys, uids, seqs), p)
  {
    var rest := RemoveAt(keys, p);
    assert forall i :: 0 <= i < |rest| ==> rest[i] == if i < p then keys[i] else keys[i + 1];
  }

  lemma KeysOfRemove(f: Folder, keys: seq<nat>, others: seq<nat>, p: nat)
    requires Keys(f) == keys + others && p < |keys|
    ensures Keys(RemoveMsg(f, keys[p])) == RemoveAt(keys, p) + others
  {
    var all, rest := keys + others, RemoveAt(keys, p) + others;
    assert all[p] == keys[p];
    assert rest == RemoveAt(all, p);
    KeysAscending(f);
    KeysAscending(RemoveMsg(f, keys[p]));
    RemoveAscending(all, p);
    assert forall k :: k in rest <==> k in RemoveMsg(f, keys[p]).msgs;
    AscendingUnique(Keys(RemoveMsg(f, keys[p])), rest);
  }

  lemma RemoveAscending(s: seq<nat>, p: nat)
    requires Ascending(s) && p < |s|
    ensures Ascending(RemoveAt(s, p))
    ensures forall k :: k in RemoveAt(s, p) <==> k in s && k != s[p]
  {
    var r := RemoveAt(s, p);
    AscendingPairs(s);
    assert forall i :: 0 <= i < |r| ==> r[i] == if i < p then s[i] else s[i + 1];
    forall k ensures k in r <==> k in s && k != s[p] {
      if k in s && k != s[p] {
        var i :| 0 <= i < |s| && s[i] == k;
        assert r[if i < p then i else i - 1] == k;
      }
    }
  }

  // ---------- Append ----------

  /** The sequences of one key have been extended. */
  ghost predicate Extends(seqs: Sequences, key: nat, names: Names, seqs': Sequences) {
    forall k {:trigger FlagsOf(seqs', k)} ::
      FlagsOf(seqs', k) == if k == key then FlagsOf(seqs, k) + names else FlagsOf(seqs, k)
  }

  /** `key` stands right behind what was not listed before. */
  predicate IsNext(now: seq<nat>, before: seq<nat>, key: nat) {
    |before| < |now| && now[|before|] == key
  }

  /** APPEND has put its message into the folder and, after `keys` had arrived, has overwritten the sequence file. */
  lemma AppendView(ix: Index, key: nat, msg: Message, names: Names, f: Folder, keys: seq<nat>, during: seq<Arrival>,
                   seqs': Sequences)
    requires Sound(ix) && (forall k :: k in ix.folder.msgs ==> k < key) && Extends(ix.sequences, key, names, seqs')
    requires GrewBy(AddMsg(ix.folder, key, msg), f, keys, Msgs(during))
    ensures var ix' := Index(SetSequences(f, seqs'), ix.lists, seqs');
      && Tracks(ix') && Viewable(ix) && Viewable(ix') && Unlisted(ix') == Unlisted(ix) + ([key] + keys)
      && View(ix') == WithAppended(View(ix), msg, names, during)
  {
    var ix1 := ix.(folder := f);
    GrewOne(ix.folder, key, msg, ix.folder.marks);
    GrewTwice(ix.folder, AddMsg(ix.folder, key, msg), f, [key], [msg], keys, Msgs(during));
    GrewView(ix, f, [key] + keys, [msg] + Msgs(during));
    AppendWithin(ix, key, names, f, seqs');
    WrittenView(ix1, seqs', seqs', SetSequences(f, seqs'));
    AppendEntries(ix1, key, names, seqs');
    KeysAscending(AddMsg(ix.folder, key, msg));
    assert key in AddMsg(ix.folder, key, msg).msgs;
    assert forall i :: 0 <= i < |keys| ==> keys[i] != key;
    AppendArrivals(ix, key, msg, names, f, keys, during, seqs');
  }

  function Msgs(arrivals: seq<Arrival>): (msgs: seq<Message>)
    ensures |msgs| == |arrivals| && forall i :: 0 <= i < |arrivals| ==> msgs[i] == arrivals[i].msg
  {
    seq(|arrivals|, i requires 0 <= i < |arrivals| => arrivals[i].msg)
  }

  lemma AppendWithin(ix: Index, key: nat, names: Names, f: Folder, seqs': Sequences)
    requires Within(ix.sequences, Keys(ix.folder)) && Extends(ix.sequences, key, names, seqs')
    requires key in Keys(f) && forall k :: k in Keys(ix.folder) ==> k in Keys(f)
    ensures Within(seqs', Keys(f))
  {
  }

  lemma AppendEntries(ix: Index, key: nat, names: Names, seqs': Sequences)
    requires Viewable(ix) && key !in ix.lists.msgKeys && Extends(ix.sequences, key, names, seqs')
    ensures Listed(ix.folder, ix.lists.msgKeys, ix.lists.uids, seqs') == View(ix).entries
  {
  }

  /** The key that was added has just these flags, and no other key that was not listed has any. */
  lemma AppendFlags(ix: Index, key: nat, names: Names, keys: seq<nat>, seqs': Sequences)
    requires Sound(ix) && Extends(ix.sequences, key, names, seqs') && key !in ix.folder.msgs
    requires forall i :: 0 <= i < |keys| ==> keys[i] !in ix.folder.msgs && keys[i] != key
    ensures Viewable(ix) && FlagsOf(seqs', key) == names
    ensures forall i :: 0 <= i < |keys| ==> FlagsOf(seqs', keys[i]) == {}
    ensures forall i :: 0 <= i < |Unlisted(ix)| ==> FlagsOf(seqs', Unlisted(ix)[i]) == {}
  {
    UnlistedHaveNoFlags(ix);
    KeysAscending(ix.folder);
    assert FlagsOf(ix.sequences, key) == {};
    assert forall i :: 0 <= i < |keys| ==> keys[i] !in Keys(ix.folder) && FlagsOf(ix.sequences, keys[i]) == {};
  }

  lemma AppendArrivals(ix: Index, key: nat, msg: Message, names: Names, f: Folder, keys: seq<nat>,
                       during: seq<Arrival>, seqs': Sequences)
    requires Sound(ix) && Extends(ix.sequences, key, names, seqs') && key !in ix.folder.msgs
    requires GrewBy(ix.folder, f, [key] + keys, [msg] + Msgs(during)) && |keys| == |during| && key !in keys
    ensures Viewable(ix) && (forall i :: 0 <= i < |Unlisted(ix)| ==> Unlisted(ix)[i] in f.msgs)
    ensures (forall i :: 0 <= i < |keys| ==> keys[i] in f.msgs) && key in f.msgs
    ensures Arrivals(f, Unlisted(ix) + ([key] + keys), seqs')
      == Unmarked(View(ix).arrived) + [Arrival(msg, names)] + Unmarked(during)
  {
    var us := Unlisted(ix);
    TracksViewable(ix);
    GrewFirst(ix.folder, f, key, msg, keys, Msgs(during));
    AppendFlags(ix, key, names, keys, seqs');
    forall i | 0 <= i < |us| ensures us[i] in f.msgs && f.msgs[us[i]] == View(ix).arrived[i].msg {
      assert us[i] in ix.folder.msgs;
    }
    AppendPieces(f, us, View(ix).arrived, key, msg, names, keys, during, seqs');
  }

  lemma GrewFirst(f: Folder, f': Folder, key: nat, msg: Message, keys: seq<nat>, msgs: seq<Message>)
    requires GrewBy(f, f', [key] + keys, [msg] + msgs)
    ensures |keys| == |msgs| && key in f'.msgs && f'.msgs[key] == msg
    ensures forall i :: 0 <= i < |keys| ==> keys[i] in f'.msgs && keys[i] !in f.msgs && f'.msgs[keys[i]] == msgs[i]
  {
    assert ([key] + keys)[0] == key;
    assert forall i :: 0 <= i < |keys| ==> keys[i] == ([key] + keys)[i + 1];
  }

  lemma AppendPieces(f: Folder, us: seq<nat>, arrived: seq<Arrival>, key: nat, msg: Message, names: Names,
                     keys: seq<nat>, during: seq<Arrival>, marks: Sequences)
    requires |us| == |arrived| && |keys| == |during|
    requires forall i :: 0 <= i < |us| ==>
      us[i] in f.msgs && f.msgs[us[i]] == arrived[i].msg && FlagsOf(marks, us[i]) == {}
    requires key in f.msgs && f.msgs[key] == msg && FlagsOf(marks, key) == names
    requires forall i :: 0 <= i < |keys| ==>
      keys[i] in f.msgs && f.msgs[keys[i]] == during[i].msg && FlagsOf(marks, keys[i]) == {}
    ensures Arrivals(f, us + ([key] + keys), marks) == Unmarked(arrived) + [Arrival(msg, names)] + Unmarked(during)
  {
    ArrivalsSplit(f, us, [key] + keys, marks);
    ArrivalsSplit(f, [key], keys, marks);
    BareArrivals(f, us, marks, arrived);
    BareArrivals(f, keys, marks, during);
    assert Arrivals(f, [key], marks) == [Arrival(msg, names)];
  }

  // ---------- Copy-in ----------

  /** The folder f has got `arrivals` since it was f0; `marks` are its sequences then, with those of the copies. */
  ghost predicate CopiedIn(f0: Folder, f: Folder, marks: Sequences, keys: seq<nat>, arrivals: seq<Arrival>) {
    && |keys| == |arrivals| && GrewBy(f0, f, keys, Msgs(arrivals))
    && (forall i :: 0 <= i < |keys| ==> FlagsOf(marks, keys[i]) == arrivals[i].marks)
    && (forall k {:trigger FlagsOf(marks, k)} :: k in f0.msgs ==> FlagsOf(marks, k) == FlagsOf(f0.marks, k))
    && (forall k {:trigger FlagsOf(marks, k)} :: k !in f.msgs ==> FlagsOf(marks, k) == {})
  }

  lemma CopiedNothing(f: Folder)
    ensures CopiedIn(f, f, GetSequences(f), [], [])
  {
    GrewNothing(f);
    forall k | k in f.msgs ensures FlagsOf(GetSequences(f), k) == FlagsOf(f.marks, k) { GetSequencesFlags(f, k); }
  }

  /** The next copy, and what arrives right after it. */
  lemma CopyOne(f0: Folder, f: Folder, marks: Sequences, keys: seq<nat>, arrivals: seq<Arrival>,
                key: nat, copy: Arrival, f': Folder, more: seq<nat>, during: seq<Arrival>)
    requires CopiedIn(f0, f, marks, keys, arrivals) && (forall k :: k in f.msgs ==> k < key)
    requires GrewBy(AddMsg(f, key, copy.msg), f', more, Msgs(during))
    ensures CopiedIn(f0, f', AddMarks(marks, copy.marks, key), keys + ([key] + more),
                     arrivals + ([copy] + Unmarked(during)))
  {
    var marks' := AddMarks(marks, copy.marks, key);
    AddMarksFlags(marks, copy.marks, key);
    GrewOne(f, key, copy.msg, f.marks);
    GrewTwice(f, AddMsg(f, key, copy.msg), f', [key], [copy.msg], more, Msgs(during));
    GrewTwice(f0, f, f', keys, Msgs(arrivals), [key] + more, [copy.msg] + Msgs(during));
    MsgsJoin(arrivals, copy, during);
    assert FlagsOf(marks', key) == copy.marks;
    CopyOneMarks(f, marks, marks', keys, arrivals, key, copy, more, during);
  }

  lemma MsgsJoin(arrivals: seq<Arrival>, copy: Arrival, during: seq<Arrival>)
    ensures Msgs(arrivals + ([copy] + Unmarked(during))) == Msgs(arrivals) + ([copy.msg] + Msgs(during))
  {
  }

  lemma CopyOneMarks(f: Folder, marks: Sequences, marks': Sequences, keys: seq<nat>, arrivals: seq<Arrival>,
                     key: nat, copy: Arrival, more: seq<nat>, during: seq<Arrival>)
    requires |keys| == |arrivals| && |more| == |during| && key !in f.msgs && FlagsOf(marks', key) == copy.marks
    requires forall i :: 0 <= i < |keys| ==> keys[i] in f.msgs && FlagsOf(marks, keys[i]) == arrivals[i].marks
    requires forall i :: 0 <= i < |more| ==> more[i] !in f.msgs && more[i] != key
    requires forall k {:trigger FlagsOf(marks', k)} :: k != key ==> FlagsOf(marks', k) == FlagsOf(marks, k)
    requires forall k {:trigger FlagsOf(marks, k)} :: k !in f.msgs ==> FlagsOf(marks, k) == {}
    ensures var all, now := keys + ([key] + more), arrivals + ([copy] + Unmarked(during));
      |all| == |now| && forall i :: 0 <= i < |all| ==> FlagsOf(marks', all[i]) == now[i].marks
  {
    var all, now := keys + ([key] + more), arrivals + ([copy] + Unmarked(during));
    forall i | 0 <= i < |all| ensures FlagsOf(marks', all[i]) == now[i].marks {
      if i < |keys| {
        assert all[i] == keys[i];
      } else if i > |keys| {
        assert all[i] == more[i - |keys| - 1];
      }
    }
  }

  /** The copies' sequences are written: they have arrived, and the others keep what the file said of them before. */
  lemma CopyView(ix: Index, f: Folder, marks: Sequences, keys: seq<nat>, arrivals: seq<Arrival>)
    requires Sound(ix) && CopiedIn(ix.folder, f, marks, keys, arrivals)
    ensures var ix' := ix.(folder := SetSequences(f, marks));
      && Tracks(ix') && Viewable(ix) && Viewable(ix') && Unlisted(ix') == Unlisted(ix) + keys
      && View(ix') == View(ix).(arrived := View(ix).arrived + arrivals)
  {
    var ix1 := ix.(folder := f);
    GrewView(ix, f, keys, Msgs(arrivals));
    KeysAscending(ix.folder);
    assert forall k :: k in ix.lists.msgKeys ==> k in Keys(ix.folder);
    WrittenView(ix1, ix.sequences, marks, SetSequences(f, marks));
    ArrivalsSplit(f, Unlisted(ix), keys, marks);
    ArrivalsStay(ix.folder, f, Unlisted(ix), ix.folder.marks, marks);
    assert Arrivals(f, keys, marks) == arrivals;
    assert Keys(SetSequences(f, marks)) == Keys(f);
  }
}
