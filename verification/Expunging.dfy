/** Why the loop of `expunge` deletes the right messages although its reverse lookup is out of date throughout. */
module Expunging {
  import opened Base
  import opened Flags
  import opened Folder
  import opened Box
  import opened Indexing
  import opened Notify
  import opened IndexView
  import opened Resyncing

  ghost predicate Descending(s: seq<nat>) {
    forall i, j :: 0 <= i < j < |s| ==> s[j] < s[i]
  }

  /** `sorted(keys, reverse=True)` of a list without repetitions. */
  function SortedDown(keys: set<nat>): seq<nat> {
    Reversed(SortedNats(keys))
  }

  function Reversed(s: seq<nat>): (r: seq<nat>)
    ensures |r| == |s| && forall i :: 0 <= i < |s| ==> r[i] == s[|s| - 1 - i]
  {
    seq(|s|, i requires 0 <= i < |s| => s[|s| - 1 - i])
  }

  lemma SortedDownDescends(keys: set<nat>)
    ensures Descending(SortedDown(keys)) && forall k :: k in SortedDown(keys) <==> k in keys
  {
    var s, r := SortedNats(keys), SortedDown(keys);
    SortedNatsAscending(keys);
    AscendingPairs(s);
    forall k ensures k in r <==> k in keys {
      if k in keys {
        var i :| 0 <= i < |s| && s[i] == k;
        assert r[|s| - 1 - i] == k;
      }
    }
  }

  /** The keys of the messages with these UIDs. */
  ghost function KeysOfUids(l: Lists, uids: set<nat>): set<nat>
    requires |l.msgKeys| == |l.uids|
  {
    set i | 0 <= i < |l.uids| && l.uids[i] in uids :: l.msgKeys[i]
  }

  /** The UIDs that the messages with these keys had at first. */
  ghost function UidsAt(l: Lists, keys: seq<nat>): set<nat>
    requires |l.msgKeys| == |l.uids|
  {
    set i | 0 <= i < |l.uids| && l.msgKeys[i] in keys :: l.uids[i]
  }

  ghost predicate SameUpTo(s: seq<nat>, s0: seq<nat>, m: nat)
    requires m <= |s| && m <= |s0|
  {
    forall i :: 0 <= i < m ==> s[i] == s0[i]
  }

  /** What holds of the lists after the messages `gone`, from the last to position m, have been deleted. */
  ghost predicate HalfDone(l0: Lists, l: Lists, gone: seq<nat>, m: nat, notes: seq<Note>) {
    && |l.msgKeys| == |l.uids| == l.numMsgs && l.nextUid == l0.nextUid && Ascending(l.msgKeys)
    && m <= |l.msgKeys| && m <= |l0.msgKeys| == |l0.uids|
    && SameUpTo(l.msgKeys, l0.msgKeys, m) && SameUpTo(l.uids, l0.uids, m)
    && (forall i :: 0 <= i < m ==> l0.msgKeys[i] !in gone)
    && (forall k :: k in l.msgKeys <==> k in l0.msgKeys && k !in gone)
    && Replay(l0.uids, notes) == l.uids
  }

  function Deleted(l: Lists, p: nat): Lists
    requires p < |l.msgKeys| && p < |l.uids| && 0 < l.numMsgs
  {
    l.(msgKeys := RemoveAt(l.msgKeys, p), uids := RemoveAt(l.uids, p), numMsgs := l.numMsgs - 1)
  }

  /** The message at an old position before m still stands there: deleting it continues the invariant. */
  lemma DeleteNext(l0: Lists, l: Lists, gone: seq<nat>, m: nat, notes: seq<Note>, p: nat)
    requires HalfDone(l0, l, gone, m, notes) && p < m && Ascending(l0.msgKeys)
    ensures l.msgKeys[p] == l0.msgKeys[p] && l.uids[p] == l0.uids[p]
    ensures HalfDone(l0, Deleted(l, p), gone + [l0.msgKeys[p]], p, notes + [Expunged(p + 1)])
  {
    RemoveAscending(l.msgKeys, p);
    ReplayTwice(l0.uids, notes, [Expunged(p + 1)]);
    SameBelow(l.msgKeys, l0.msgKeys, m, p);
    SameBelow(l.uids, l0.uids, m, p);
    StillThere(l0, l, gone, m, notes, p);
  }

  lemma SameBelow(s: seq<nat>, s0: seq<nat>, m: nat, p: nat)
    requires p < m <= |s| && m <= |s0| && SameUpTo(s, s0, m)
    ensures s[p] == s0[p] && SameUpTo(RemoveAt(s, p), s0, p)
  {
  }

  lemma StillThere(l0: Lists, l: Lists, gone: seq<nat>, m: nat, notes: seq<Note>, p: nat)
    requires HalfDone(l0, l, gone, m, notes) && p < m && Ascending(l0.msgKeys)
    ensures var more := gone + [l0.msgKeys[p]];
      && (forall i :: 0 <= i < p ==> l0.msgKeys[i] !in more)
      && (forall k :: k in RemoveAt(l.msgKeys, p) <==> k in l0.msgKeys && k !in more)
  {
    RemoveAscending(l.msgKeys, p);
    AscendingPairs(l0.msgKeys);
    assert forall k :: k in gone + [l0.msgKeys[p]] <==> k in gone || k == l0.msgKeys[p];
  }

  /** Descending order is what makes it work: after one deletion the old position of another element is right if and
      only if it lies below. */
  lemma OldPositionRightIff(s: seq<nat>, p: nat, q: nat)
    requires Distinct(s) && p < |s| && q < |s| && p != q
    ensures q < |s| - 1 && RemoveAt(s, p)[q] == s[q] <==> q < p
  {
  }

  /** A UID that the list repeats costs another message its place. */
  lemma RepeatedUidDeletesAnother()
    ensures var l := Lists([1, 2, 3], [1, 2, 3], 4, 3);
      Deleted(Deleted(l, 1), 1).uids == [1]
  {
  }

  // ---------- The messages ----------

  /** What holds of the folder meanwhile. */
  ghost predicate FolderHalfDone(ix: Index, f: Folder, l: Lists, gone: seq<nat>)
    requires Viewable(ix)
  {
    && f.marks == ix.folder.marks && Keys(f) == l.msgKeys + Unlisted(ix)
    && (forall k :: k in ix.folder.msgs && k !in gone ==> k in f.msgs && f.msgs[k] == ix.folder.msgs[k])
    && Listable(f, l.msgKeys, l.uids)
    && Listed(f, l.msgKeys, l.uids, ix.sequences) == Without(View(ix).entries, UidsAt(ix.lists, gone))
  }

  lemma RemoveNext(ix: Index, f: Folder, l: Lists, gone: seq<nat>, m: nat, notes: seq<Note>, p: nat)
    requires Sound(ix) && Viewable(ix) && HalfDone(ix.lists, l, gone, m, notes) && p < m
    requires FolderHalfDone(ix, f, l, gone) && l.msgKeys[p] == ix.lists.msgKeys[p]
    ensures FolderHalfDone(ix, RemoveMsg(f, l.msgKeys[p]), Deleted(l, p), gone + [l.msgKeys[p]])
  {
    var key := l.msgKeys[p];
    ListedRemoved(f, l.msgKeys, l.uids, ix.sequences, p);
    KeysOfRemove(f, l.msgKeys, Unlisted(ix), p);
    UidsAtSnoc(ix.lists, gone, p);
    KeptBefore(ix, gone, m, p);
    RemoveEntry(View(ix).entries, UidsAt(ix.lists, gone), p);
    assert View(ix).entries[p].uid == ix.lists.uids[p];
  }

  /** The loop has deleted `gone`, down to position m, and sent `notes`. */
  ghost predicate Deleting(ix: Index, now: Index, gone: seq<nat>, m: nat, notes: seq<Note>)
    requires Viewable(ix)
  {
    && now.sequences == ix.sequences
    && HalfDone(ix.lists, now.lists, gone, m, notes) && FolderHalfDone(ix, now.folder, now.lists, gone)
  }

  lemma FolderAtStart(ix: Index)
    requires Tracks(ix)
    ensures Viewable(ix) && Deleting(ix, ix, [], |ix.lists.msgKeys|, [])
  {
    TracksViewable(ix);
    assert UidsAt(ix.lists, []) == {};
    WithoutNone(View(ix).entries);
    UnlistedAreNew(ix);
  }

  lemma DeletingOne(ix: Index, now: Index, gone: seq<nat>, m: nat, notes: seq<Note>, p: nat)
    requires Sound(ix) && Viewable(ix) && Deleting(ix, now, gone, m, notes) && p < m
    ensures p < |now.lists.msgKeys| && p < |ix.lists.msgKeys| && now.lists.msgKeys[p] == ix.lists.msgKeys[p]
    ensures p < |now.lists.uids| && 0 < now.lists.numMsgs
    ensures Deleting(ix, Index(RemoveMsg(now.folder, ix.lists.msgKeys[p]), Deleted(now.lists, p), now.sequences),
                     gone + [ix.lists.msgKeys[p]], p, notes + [Expunged(p + 1)])
  {
    DeleteNext(ix.lists, now.lists, gone, m, notes, p);
    RemoveNext(ix, now.folder, now.lists, gone, m, notes, p);
  }

  lemma UidsAtSnoc(l: Lists, gone: seq<nat>, p: nat)
    requires |l.msgKeys| == |l.uids| && p < |l.uids| && Ascending(l.msgKeys)
    ensures UidsAt(l, gone + [l.msgKeys[p]]) == UidsAt(l, gone) + {l.uids[p]}
  {
    AscendingPairs(l.msgKeys);
    assert forall k :: k in gone + [l.msgKeys[p]] <==> k in gone || k == l.msgKeys[p];
    assert forall i :: 0 <= i < |l.uids| && l.msgKeys[i] == l.msgKeys[p] ==> i == p;
  }

  /** Messages up to position p are not among those deleted. */
  lemma KeptBefore(ix: Index, gone: seq<nat>, m: nat, p: nat)
    requires Sound(ix) && Viewable(ix) && p < m <= |ix.lists.msgKeys|
    requires forall i :: 0 <= i < m ==> ix.lists.msgKeys[i] !in gone
    ensures InUidOrder(View(ix).entries)
    ensures forall i :: 0 <= i <= p ==> View(ix).entries[i].uid !in UidsAt(ix.lists, gone)
  {
    AscendingPairs(ix.lists.uids);
    assert forall i :: 0 <= i < |ix.lists.uids| ==> View(ix).entries[i].uid == ix.lists.uids[i];
  }

  // ---------- The end ----------

  /** The UIDs of exactly the chosen messages are gone. */
  lemma GoneAreChosen(ix: Index, gone: seq<nat>, chosen: set<nat>)
    requires Sound(ix) && Viewable(ix) && forall k :: k in gone <==> k in KeysOfUids(ix.lists, chosen)
    ensures Without(View(ix).entries, UidsAt(ix.lists, gone)) == Without(View(ix).entries, chosen)
  {
    var l, entries := ix.lists, View(ix).entries;
    AscendingPairs(l.msgKeys);
    AscendingPairs(l.uids);
    forall i | 0 <= i < |entries| ensures entries[i].uid in UidsAt(l, gone) <==> entries[i].uid in chosen {
      assert entries[i].uid == l.uids[i];
      assert l.msgKeys[i] in gone <==> l.uids[i] in chosen;
    }
    WithoutSame(entries, UidsAt(l, gone), chosen);
  }

  /** The sequences without the deleted keys. */
  ghost predicate Cleared(seqs: Sequences, keys: seq<nat>, seqs': Sequences) {
    forall k {:trigger FlagsOf(seqs', k)} :: FlagsOf(seqs', k) == if k in keys then {} else FlagsOf(seqs, k)
  }

  /** The loop is over: exactly the messages with the chosen UIDs are gone. */
  ghost predicate AllDeleted(ix: Index, now: Index, gone: seq<nat>, m: nat, notes: seq<Note>, chosen: set<nat>) {
    && Sound(ix) && Viewable(ix) && Deleting(ix, now, gone, m, notes)
    && forall k :: k in gone <==> k in KeysOfUids(ix.lists, chosen)
  }

  /** The loop refines the removal of a set of UIDs, and its notes take any client from the old list to the new. */
  lemma ExpungeView(ix: Index, now: Index, gone: seq<nat>, m: nat, notes: seq<Note>, seqs': Sequences, chosen: set<nat>)
    requires AllDeleted(ix, now, gone, m, notes, chosen) && Cleared(ix.sequences, gone, seqs')
    ensures var ix' := now.(sequences := seqs');
      && Sound(ix') && Viewable(ix') && View(ix') == Do(View(ix), Step.Expunge(chosen))
      && Replay(ix.lists.uids, notes) == ix'.lists.uids
  {
    ExpungedUids(ix, now, gone, m, notes, chosen);
    ExpungedSound(ix, now, gone, m, notes, chosen, seqs');
    ExpungedEntries(ix, now, gone, m, notes, chosen, seqs');
    ExpungedArrivals(ix, now, gone, m, notes, chosen, seqs');
    ExpungedBox(View(ix), View(now.(sequences := seqs')), chosen);
  }

  lemma ExpungedBox(b: Box, b': Box, chosen: set<nat>)
    requires b'.entries == Without(b.entries, chosen) && b'.arrived == b.arrived && b'.nextUid == b.nextUid
    ensures b' == Do(b, Step.Expunge(chosen))
  {
  }

  lemma ExpungedEntries(ix: Index, now: Index, gone: seq<nat>, m: nat, notes: seq<Note>, chosen: set<nat>,
                        seqs': Sequences)
    requires AllDeleted(ix, now, gone, m, notes, chosen) && Cleared(ix.sequences, gone, seqs')
    ensures Viewable(now.(sequences := seqs'))
    ensures View(now.(sequences := seqs')).entries == Without(View(ix).entries, chosen)
  {
    var keys := now.lists.msgKeys;
    GoneAreChosen(ix, gone, chosen);
    assert forall i :: 0 <= i < |keys| ==> keys[i] in keys;
    assert Listed(now.folder, keys, now.lists.uids, seqs') == Listed(now.folder, keys, now.lists.uids, ix.sequences);
  }

  lemma ExpungedUids(ix: Index, now: Index, gone: seq<nat>, m: nat, notes: seq<Note>, chosen: set<nat>)
    requires AllDeleted(ix, now, gone, m, notes, chosen)
    ensures UidsBelow(now.lists)
  {
    var left, l := Without(View(ix).entries, chosen), now.lists;
    GoneAreChosen(ix, gone, chosen);
    ViewUids(ix);
    WithoutUids(View(ix).entries, chosen);
    WithoutHas(View(ix).entries, chosen);
    assert Uids(left) == l.uids;
    forall i | 0 <= i < |l.uids| ensures l.uids[i] < l.nextUid {
      assert left[i] in View(ix).entries && left[i].uid == l.uids[i];
    }
  }

  lemma ExpungedSound(ix: Index, now: Index, gone: seq<nat>, m: nat, notes: seq<Note>, chosen: set<nat>,
                      seqs': Sequences)
    requires AllDeleted(ix, now, gone, m, notes, chosen) && Cleared(ix.sequences, gone, seqs') && UidsBelow(now.lists)
    ensures Sound(now.(sequences := seqs'))
  {
    var l := now.lists;
    forall k | k in l.msgKeys ensures FlagsOf(now.folder.marks, k) == FlagsOf(seqs', k) {
      assert FlagsOf(ix.folder.marks, k) == FlagsOf(ix.sequences, k);
    }
    forall k: nat | k !in l.msgKeys ensures FlagsOf(seqs', k) == {} {
      assert k !in gone ==> k !in ix.lists.msgKeys && FlagsOf(ix.sequences, k) == {};
    }
    assert forall k :: k in l.msgKeys ==> k in Keys(now.folder);
  }

  lemma ExpungedArrivals(ix: Index, now: Index, gone: seq<nat>, m: nat, notes: seq<Note>, chosen: set<nat>,
                         seqs': Sequences)
    requires AllDeleted(ix, now, gone, m, notes, chosen) && Viewable(now.(sequences := seqs'))
    ensures View(now.(sequences := seqs')).arrived == View(ix).arrived
  {
    UnlistedAreNew(ix);
    assert forall i :: 0 <= i < |Unlisted(ix)| ==> Unlisted(ix)[i] in Unlisted(ix);
    ArrivalsStay(ix.folder, now.folder, Unlisted(ix), ix.folder.marks, now.folder.marks);
  }

  // ---------- Choosing ----------

  lemma PickOne(l: Lists, list: seq<nat>, i: nat, at: map<nat, nat>)
    requires |l.msgKeys| == |l.uids| && Locates(at, l.uids) && i < |list|
    ensures KeysOfUids(l, Elements(list[..i + 1])) == KeysOfUids(l, Elements(list[..i]))
      + if list[i] in at then {l.msgKeys[at[list[i]]]} else {}
  {
    assert forall u :: u in list[..i + 1] <==> u in list[..i] || u == list[i];
    var a, b := KeysOfUids(l, Elements(list[..i + 1])), KeysOfUids(l, Elements(list[..i]));
    forall k ensures k in a <==> k in b || (list[i] in at && k == l.msgKeys[at[list[i]]]) {
    }
  }

  /** The Deleted sequence holds exactly the keys of the messages that are marked Deleted, so their lookup succeeds. */
  lemma DeletedKeys(ix: Index)
    requires Sound(ix) && Viewable(ix)
    ensures Get(ix.sequences, DELETED) == KeysOfUids(ix.lists, DeletedUids(View(ix).entries))
  {
    var l, entries, deleted := ix.lists, View(ix).entries, Get(ix.sequences, DELETED);
    AscendingPairs(l.uids);
    forall i | 0 <= i < |l.uids| ensures l.uids[i] in DeletedUids(entries) <==> l.msgKeys[i] in deleted {
      assert entries[i] in entries && entries[i].uid == l.uids[i];
      assert DELETED in entries[i].flags <==> l.msgKeys[i] in deleted;
      assert forall j :: 0 <= j < |entries| && entries[j].uid == l.uids[i] ==> j == i;
    }
    forall k | k in deleted ensures k in l.msgKeys {
      assert DELETED in FlagsOf(ix.sequences, k);
    }
  }

  lemma NoneDeleted(ix: Index)
    requires Sound(ix) && Viewable(ix)
    ensures Get(ix.sequences, DELETED) == {} <==> DeletedUids(View(ix).entries) == {}
  {
    DeletedKeys(ix);
    if u :| u in DeletedUids(View(ix).entries) {
      var i :| 0 <= i < |View(ix).entries| && View(ix).entries[i].uid == u;
      assert ix.lists.uids[i] == u;
      assert ix.lists.msgKeys[i] in KeysOfUids(ix.lists, DeletedUids(View(ix).entries));
    }
  }

  /** `list.index(x)`. */
  function IndexOf(s: seq<nat>, x: nat): (i: nat)
    requires x in s
    ensures i < |s| && s[i] == x && x !in s[..i]
  {
    if s[0] == x then 0 else
      var i := IndexOf(s[1..], x);
      assert s[..i + 1] == [s[0]] + s[1..][..i];
      i + 1
  }

  lemma UidIsAt(l: Lists, key: nat, uid: nat)
    requires Ascending(l.msgKeys) && UidIs(l, key, uid)
    ensures exists p :: 0 <= p < |l.msgKeys| && p < |l.uids| && l.msgKeys[p] == key && l.uids[p] == uid
  {
    PositionsLocate(l.msgKeys);
  }

  /** One UID of the list: if it is that of a Deleted message, the message of this key is chosen, too. `keys` and `us`
      are the Deleted keys with their UIDs. */
  lemma PickOneDeleted(ix: Index, keys: seq<nat>, us: seq<nat>, u: nat)
    requires Sound(ix) && Viewable(ix) && HaveUids(ix.lists, keys, us)
    requires forall k :: k in keys <==> k in Get(ix.sequences, DELETED)
    ensures KeysOfUids(ix.lists, DeletedUids(View(ix).entries) * {u})
      == if u in us then {keys[IndexOf(us, u)]} else {}
  {
    DeletedKeys(ix);
    PickedKey(ix.lists, keys, us, DeletedUids(View(ix).entries), u);
  }

  lemma PickedKey(l: Lists, keys: seq<nat>, us: seq<nat>, gone: set<nat>, u: nat)
    requires |l.msgKeys| == |l.uids| && Ascending(l.msgKeys) && Ascending(l.uids) && HaveUids(l, keys, us)
    requires forall k :: k in keys <==> k in KeysOfUids(l, gone)
    ensures KeysOfUids(l, gone * {u}) == if u in us then {keys[IndexOf(us, u)]} else {}
  {
    forall p | 0 <= p < |l.uids| && l.uids[p] == u && u in gone ensures u in us && l.msgKeys[p] == keys[IndexOf(us, u)] {
      GoneIsPicked(l, keys, us, gone, p);
    }
    if u in us { PickedIsGone(l, keys, us, gone, IndexOf(us, u)); }
  }

  lemma GoneIsPicked(l: Lists, keys: seq<nat>, us: seq<nat>, gone: set<nat>, p: nat)
    requires |l.msgKeys| == |l.uids| && Ascending(l.msgKeys) && Ascending(l.uids) && HaveUids(l, keys, us)
    requires forall k :: k in keys <==> k in KeysOfUids(l, gone)
    requires p < |l.uids| && l.uids[p] in gone
    ensures l.uids[p] in us && l.msgKeys[p] == keys[IndexOf(us, l.uids[p])]
  {
    AscendingPairs(l.msgKeys);
    AscendingPairs(l.uids);
    assert l.msgKeys[p] in keys;
    var j :| 0 <= j < |keys| && keys[j] == l.msgKeys[p];
    UidIsAt(l, keys[j], us[j]);
    UidIsAt(l, keys[IndexOf(us, us[j])], us[j]);
  }

  lemma PickedIsGone(l: Lists, keys: seq<nat>, us: seq<nat>, gone: set<nat>, j: nat)
    requires |l.msgKeys| == |l.uids| && Ascending(l.msgKeys) && HaveUids(l, keys, us) && j < |keys|
    requires forall k :: k in keys <==> k in KeysOfUids(l, gone)
    ensures us[j] in gone && keys[j] in KeysOfUids(l, gone * {us[j]})
  {
    AscendingPairs(l.msgKeys);
    UidIsAt(l, keys[j], us[j]);
    assert keys[j] in KeysOfUids(l, gone);
  }

  lemma PickMoreDeleted(ix: Index, keys: seq<nat>, us: seq<nat>, list: seq<nat>, i: nat)
    requires Sound(ix) && Viewable(ix) && HaveUids(ix.lists, keys, us) && i < |list|
    requires forall k :: k in keys <==> k in Get(ix.sequences, DELETED)
    ensures var gone := DeletedUids(View(ix).entries);
      KeysOfUids(ix.lists, gone * Elements(list[..i + 1]))
        == KeysOfUids(ix.lists, gone * Elements(list[..i])) + if list[i] in us then {keys[IndexOf(us, list[i])]} else {}
  {
    var l, gone := ix.lists, DeletedUids(View(ix).entries);
    PickOneDeleted(ix, keys, us, list[i]);
    assert gone * Elements(list[..i + 1]) == gone * Elements(list[..i]) + gone * {list[i]} by {
      assert forall u :: u in list[..i + 1] <==> u in list[..i] || u == list[i];
    }
    KeysOfEither(l, gone * Elements(list[..i]), gone * {list[i]});
  }

  lemma KeysOfEither(l: Lists, a: set<nat>, b: set<nat>)
    requires |l.msgKeys| == |l.uids|
    ensures KeysOfUids(l, a + b) == KeysOfUids(l, a) + KeysOfUids(l, b)
  {
  }

  /** Descending keys stand at descending positions, all of them in the index. */
  lemma PlacesDescend(l: Lists, at: map<nat, nat>, keys: seq<nat>, chosen: set<nat>)
    requires |l.msgKeys| == |l.uids| && Ascending(l.msgKeys) && at == Positions(l.msgKeys) && Descending(keys)
    requires forall k :: k in keys <==> k in KeysOfUids(l, chosen)
    ensures forall i :: 0 <= i < |keys| ==>
      keys[i] in at && at[keys[i]] < |l.msgKeys| && l.msgKeys[at[keys[i]]] == keys[i]
    ensures forall i, j :: 0 <= i < j < |keys| ==> at[keys[j]] < at[keys[i]]
  {
    PositionsLocate(l.msgKeys);
    AscendingPairs(l.msgKeys);
    forall i | 0 <= i < |keys| ensures keys[i] in l.msgKeys { assert keys[i] in keys; }
    forall i, j | 0 <= i < j < |keys| ensures at[keys[j]] < at[keys[i]] {
      assert keys[i] in l.msgKeys && keys[j] in l.msgKeys;
    }
  }

  lemma KeysOfUidsHas(l: Lists, uids: set<nat>)
    requires |l.msgKeys| == |l.uids|
    ensures forall i :: 0 <= i < |l.uids| && l.uids[i] in uids ==> l.msgKeys[i] in KeysOfUids(l, uids)
  {
  }

  lemma NothingChosen(ix: Index, chosen: set<nat>)
    requires Sound(ix) && Viewable(ix) && KeysOfUids(ix.lists, chosen) == {}
    ensures Do(View(ix), Step.Expunge(chosen)) == View(ix)
  {
    var entries := View(ix).entries;
    KeysOfUidsHas(ix.lists, chosen);
    assert forall i :: 0 <= i < |entries| ==> entries[i].uid == ix.lists.uids[i];
    WithoutSame(entries, chosen, {});
    WithoutNone(entries);
  }

  /** When `expunge` returns at once there is indeed nothing to remove. */
  lemma NothingIsChosen(ix: Index, uids: Option<seq<nat>>, checkDeleted: bool)
    requires Sound(ix) && Viewable(ix) && NothingToExpunge(View(ix), uids, checkDeleted)
    ensures KeysOfUids(ix.lists, Chosen(View(ix), uids, checkDeleted)) == {}
  {
    assert Chosen(View(ix), uids, checkDeleted) == {};
  }

  lemma ClearedSequences(seqs: Sequences, keys: seq<nat>, seqs': Sequences)
    requires seqs'.Keys == seqs.Keys && forall n :: n in seqs ==> seqs'[n] == seqs[n] - Elements(keys)
    ensures Cleared(seqs, keys, seqs')
  {
    forall k ensures FlagsOf(seqs', k) == if k in keys then {} else FlagsOf(seqs, k) {
    }
  }
}
