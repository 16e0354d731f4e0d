/** The lists of a mailbox index, how a resync brings them up to date, and what the index means as a mailbox. */
module Indexing {
  import opened Base

  // ---------- The lists ----------

  /** `msg_keys`, `uids`, `next_uid` and `num_msgs`. */
  datatype Lists = Lists(msgKeys: seq<nat>, uids: seq<nat>, nextUid: nat, numMsgs: nat)

  /** `range(uid, uid + n)`. */
  function Fresh(uid: nat, n: nat): (uids: seq<nat>)
    ensures |uids| == n && forall i :: 0 <= i < n ==> uids[i] == uid + i
  {
    seq(n, i => uid + i)
  }

  /** `sorted(set(found) - set(known))`. */
  function NewKeys(found: seq<nat>, known: seq<nat>): seq<nat> {
    SortedNats(set k | k in found && k !in known)
  }

  lemma NewKeysAscending(found: seq<nat>, known: seq<nat>)
    ensures Ascending(NewKeys(found, known))
    ensures forall k :: k in NewKeys(found, known) <==> k in found && k !in known
  {
    SortedNatsAscending(set k | k in found && k !in known);
  }

  /** The reverse lookup `{x: i for i, x in enumerate(s)}`. */
  function Positions(s: seq<nat>): map<nat, nat> {
    if s == [] then map[] else Positions(s[..|s| - 1])[s[|s| - 1] := |s| - 1]
  }

  lemma {:induction false} PositionsExact(s: seq<nat>)
    ensures forall x :: x in Positions(s) <==> x in s
  {
    if s != [] {
      PositionsExact(s[..|s| - 1]);
      assert s == s[..|s| - 1] + [s[|s| - 1]];
    }
  }

  /** `at` gives each element of s its position, and knows nothing else. */
  ghost predicate Locates(at: map<nat, nat>, s: seq<nat>) {
    && (forall i :: 0 <= i < |s| ==> s[i] in at && at[s[i]] == i)
    && (forall x :: x in at ==> at[x] < |s| && s[at[x]] == x)
  }

  /** Without repetitions the reverse lookup is the exact inverse. */
  lemma {:induction false} PositionsLocate(s: seq<nat>)
    requires Ascending(s)
    ensures Locates(Positions(s), s)
  {
    if s != [] {
      var rest := s[..|s| - 1];
      AscendingPairs(s);
      PositionsLocate(rest);
      assert forall i :: 0 <= i < |rest| ==> rest[i] == s[i];
    }
  }

  predicate Untouched(l: Lists, found: seq<nat>) {
    found == l.msgKeys && |l.uids| == l.numMsgs
  }

  /** A shrunk folder, or one with fewer UIDs than keys, is treated as new; surplus UIDs are cut off at the front.
      With no keys at all, Python's `uids[-0:]` cuts off nothing. */
  predicate Resets(l: Lists, found: seq<nat>) {
    |found| < l.numMsgs || |l.uids| < |l.msgKeys|
  }

  function Checked(l: Lists, found: seq<nat>): Lists {
    if Resets(l, found) then Lists([], [], l.nextUid, 0)
    else if |l.uids| == |l.msgKeys| || l.msgKeys == [] then l
    else l.(uids := l.uids[|l.uids| - |l.msgKeys|..])
  }

  function Extended(l: Lists, found: seq<nat>): Lists {
    var added := NewKeys(found, l.msgKeys);
    var uids := l.uids + Fresh(l.nextUid, |added|);
    Lists(l.msgKeys + added, uids, if uids != [] then uids[|uids| - 1] + 1 else l.nextUid, |found|)
  }

  /** What a resync that finds the keys `found` makes of the lists. */
  function Reindexed(l: Lists, found: seq<nat>): Lists {
    if Untouched(l, found) then l else Extended(Checked(l, found), found)
  }

  ghost predicate Parallel(l: Lists) {
    Ascending(l.msgKeys) && |l.msgKeys| == |l.uids| == l.numMsgs
  }

  ghost predicate UidsBelow(l: Lists) {
    Ascending(l.uids) && forall i :: 0 <= i < |l.uids| ==> l.uids[i] < l.nextUid
  }

  lemma NewKeysOfExtension(found: seq<nat>, n: nat)
    requires Ascending(found) && n <= |found|
    ensures NewKeys(found, found[..n]) == found[n..]
  {
    NewKeysAscending(found, found[..n]);
    AscendingPairs(found);
    forall k ensures k in found[n..] <==> k in found && k !in found[..n] {
      if k in found[n..] {
        var i :| n <= i < |found| && found[i] == k;
        assert forall j :: 0 <= j < n ==> found[j] < found[i];
      }
    }
    AscendingUnique(NewKeys(found, found[..n]), found[n..]);
  }

  lemma AscendingSize(s: seq<int>)
    requires Ascending(s)
    ensures |Elements(s)| == |s|
  {
    SortedOfAscending(s);
    SortedAscending(Elements(s));
  }

  /** A folder that lacks nothing is either as long as the index, and then the same, or has something new. */
  lemma NothingNew(found: seq<nat>, known: seq<nat>)
    requires Ascending(found) && Ascending(known) && |known| <= |found|
    requires NewKeys(found, known) == []
    ensures found == known
  {
    NewKeysAscending(found, known);
    assert forall k :: k in found ==> k in known by {
      assert forall k :: k in found && k !in known ==> k in NewKeys(found, known);
    }
    var f, k := Elements<int>(found), Elements<int>(known);
    AscendingSize(found);
    AscendingSize(known);
    assert f <= k;
    SubsetOfSize(f, k);
    assert forall x :: x in known ==> x in f;
    AscendingUnique(found, known);
  }

  lemma SubsetOfSize(a: set<int>, b: set<int>)
    requires a <= b && |b| <= |a|
    ensures a == b
  {
    assert b == a + (b - a);
  }

  lemma CheckedUids(l: Lists, found: seq<nat>)
    requires UidsBelow(l)
    ensures UidsBelow(Checked(l, found)) && Checked(l, found).nextUid == l.nextUid
    ensures forall u :: u in Checked(l, found).uids ==> u in l.uids
  {
    AscendingPairs(l.uids);
  }

  lemma ExtendedUids(c: Lists, found: seq<nat>)
    requires UidsBelow(c)
    ensures UidsBelow(Extended(c, found))
    ensures forall u :: u in Extended(c, found).uids ==> u in c.uids || u >= c.nextUid
  {
    var n := |NewKeys(found, c.msgKeys)|;
    FreshFollow(c.uids, c.nextUid, n);
    var uids := c.uids + Fresh(c.nextUid, n);
    AscendingPairs(uids);
  }

  lemma FreshFollow(uids: seq<nat>, next: nat, n: nat)
    requires Ascending(uids) && forall i :: 0 <= i < |uids| ==> uids[i] < next
    ensures Ascending(uids + Fresh(next, n))
  {
    AscendingPairs(uids);
  }

  /** Whatever a resync finds and however broken the index is: UIDs stay ascending and below `next_uid`, and a UID that
      the index did not hold before is a new one. */
  lemma ReindexedUids(l: Lists, found: seq<nat>)
    requires UidsBelow(l)
    ensures UidsBelow(Reindexed(l, found))
    ensures forall u :: u in Reindexed(l, found).uids && u !in l.uids ==> u >= l.nextUid
  {
    CheckedUids(l, found);
    ExtendedUids(Checked(l, found), found);
  }

  /** `next_uid` goes down in one case only: an index with at least as many UIDs as keys, whose last UIDs have been
      expunged, does not match a folder in which nothing is new. */
  lemma NextUidDropsIff(l: Lists, found: seq<nat>)
    requires UidsBelow(l)
    ensures Reindexed(l, found).nextUid < l.nextUid <==>
      && !Untouched(l, found)
      && l.numMsgs <= |found| && |l.msgKeys| <= |l.uids| && NewKeys(found, l.msgKeys) == []
      && l.uids != [] && l.uids[|l.uids| - 1] + 1 < l.nextUid
  {
    var c := Checked(l, found);
    var added := NewKeys(found, c.msgKeys);
    assert forall i :: 0 <= i < |c.uids| ==> c.uids[i] in l.uids;
    assert added != [] ==> Reindexed(l, found).nextUid >= l.nextUid;
    if c.msgKeys == [] && c.uids == [] && added == [] {
      assert Reindexed(l, found).nextUid == l.nextUid;
    }
  }

  /** With a parallel index that case cannot arise. */
  lemma NextUidGrows(l: Lists, found: seq<nat>)
    requires Parallel(l) && UidsBelow(l) && Ascending(found)
    ensures Reindexed(l, found).nextUid >= l.nextUid
  {
    NextUidDropsIff(l, found);
    if l.numMsgs <= |found| && NewKeys(found, l.msgKeys) == [] {
      NothingNew(found, l.msgKeys);
    }
  }

  /** A migrated index that has lost its last UIDs gives UID 3 out again. */
  lemma NextUidCanDrop()
    ensures var l := Lists([1], [1, 2], 5, 1);
      UidsBelow(l) && Reindexed(l, [1]).nextUid == 3
  {
    var l := Lists([1], [1, 2], 5, 1);
    assert Checked(l, [1]).uids == [2];
    NewKeysAscending([1], [1]);
    assert NewKeys([1], [1]) == [];
  }

  /** A resync lists exactly the keys of the folder if and only if messages were only added at the end, or the folder
      holds fewer messages than before. */
  lemma ReindexedExactIff(l: Lists, found: seq<nat>)
    requires Parallel(l) && Ascending(found)
    ensures Reindexed(l, found).msgKeys == found <==> |found| < l.numMsgs || l.msgKeys <= found
  {
    if |found| < l.numMsgs {
      ReindexedShrunk(l, found);
    } else {
      if l.msgKeys <= found { PrefixKeys(found, l.msgKeys); }
      assert Reindexed(l, found).msgKeys == if found == l.msgKeys then l.msgKeys else l.msgKeys + NewKeys(found, l.msgKeys);
    }
  }

  lemma PrefixKeys(found: seq<nat>, known: seq<nat>)
    requires Ascending(found) && known <= found
    ensures NewKeys(found, known) == found[|known|..]
    ensures known + NewKeys(found, known) == found
  {
    assert found[..|known|] == known;
    NewKeysOfExtension(found, |known|);
  }

  /** If one message has gone and another has come, the resync lists the one that has gone for ever. */
  lemma ReindexedCanBeWrong()
    ensures var l := Lists([1, 2], [1, 2], 3, 2);
      Parallel(l) && Reindexed(l, [2, 3]).msgKeys == [1, 2, 3]
  {
    var l := Lists([1, 2], [1, 2], 3, 2);
    NewKeysAscending([2, 3], [1, 2]);
    AscendingUnique(NewKeys([2, 3], [1, 2]), [3]);
    assert Checked(l, [2, 3]) == l;
  }

  /** Added messages get the next UIDs, in the order of their keys. */
  lemma ReindexedExtension(l: Lists, found: seq<nat>)
    requires Parallel(l) && Ascending(found) && l.msgKeys <= found && UidsBelow(l)
    ensures var n := |found| - |l.msgKeys|;
      Reindexed(l, found) == Lists(found, l.uids + Fresh(l.nextUid, n), l.nextUid + n, |found|)
  {
    if found == l.msgKeys {
      assert l.uids + Fresh(l.nextUid, 0) == l.uids;
    } else {
      PrefixKeys(found, l.msgKeys);
      CheckedParallel(l, found);
      ExtendedLists(l, found);
    }
  }

  /** When there are more UIDs than keys, the first ones are given up: each listed message keeps the UID that stands as
      far from the end as its key. */
  lemma SurplusUidsCut(l: Lists, found: seq<nat>)
    requires 0 < |l.msgKeys| < |l.uids| && l.numMsgs <= |found|
    ensures var l', n := Reindexed(l, found), |l.msgKeys|;
      && l.msgKeys <= l'.msgKeys && n <= |l'.uids|
      && forall i :: 0 <= i < n ==> l'.uids[i] == l.uids[|l.uids| - n + i]
  {
    assert !Untouched(l, found);
  }

  lemma CheckedParallel(l: Lists, found: seq<nat>)
    requires |l.msgKeys| == |l.uids| == l.numMsgs <= |found|
    ensures Checked(l, found) == l
  {
  }

  lemma ExtendedLists(l: Lists, found: seq<nat>)
    requires l.msgKeys + NewKeys(found, l.msgKeys) == found && found != l.msgKeys
    ensures var n := |found| - |l.msgKeys|;
      Extended(l, found) == Lists(found, l.uids + Fresh(l.nextUid, n), l.nextUid + n, |found|)
  {
    var n := |found| - |l.msgKeys|;
    assert (l.uids + Fresh(l.nextUid, n))[|l.uids| + n - 1] == l.nextUid + n - 1;
  }

  /** A folder that shrank starts anew, with UIDs never used before. */
  lemma ReindexedShrunk(l: Lists, found: seq<nat>)
    requires Ascending(found) && |found| < l.numMsgs && |l.msgKeys| == |l.uids| == l.numMsgs
    ensures Reindexed(l, found) == Lists(found, Fresh(l.nextUid, |found|), l.nextUid + |found|, |found|)
  {
    NewKeysOfExtension(found, 0);
    assert found[..0] == [];
  }

  /** After a pack that took in messages without UIDs, a resync notices nothing; the next arrival then makes it treat
      the whole mailbox as new, and no message keeps its UID. */
  lemma PackedTooEarly(l: Lists, key: nat)
    requires Ascending(l.msgKeys) && |l.uids| == l.numMsgs < |l.msgKeys| && UidsBelow(l)
    requires forall k :: k in l.msgKeys ==> k < key
    ensures Reindexed(l, l.msgKeys) == l
    ensures forall u :: u in Reindexed(l, l.msgKeys + [key]).uids ==> u >= l.nextUid
    ensures Parallel(Reindexed(l, l.msgKeys + [key]))
  {
    var found := l.msgKeys + [key];
    AscendingPairs(l.msgKeys);
    assert Ascending(found) by {
      assert forall i :: 0 <= i < |l.msgKeys| ==> l.msgKeys[i] in l.msgKeys;
    }
    PrefixKeys(found, []);
    assert Reindexed(l, found) == Extended(Lists([], [], l.nextUid, 0), found);
  }
}
