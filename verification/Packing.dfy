/** Packing: when it happens, and why it changes only the keys. */
module Packing {
  import opened Base
  import opened Flags
  import opened Folder
  import opened Indexing
  import opened IndexView

  /** There are many messages, and a fifth or more of the keys up to the highest is unused. */
  predicate NeedsPack(l: Lists) {
    && FOLDER_SIZE_PACK_LIMIT <= l.numMsgs && l.msgKeys != [] && l.msgKeys[|l.msgKeys| - 1] > 0
    && l.numMsgs as real / l.msgKeys[|l.msgKeys| - 1] as real <= FOLDER_RATIO_PACK_LIMIT
  }

  const FOLDER_SIZE_PACK_LIMIT: nat := 100
  const FOLDER_RATIO_PACK_LIMIT := 0.8

  /** In whole numbers: at least a hundred messages, and at most four keys in five used. */
  lemma NeedsPackIff(l: Lists)
    requires Parallel(l)
    ensures NeedsPack(l) <==> 100 <= l.numMsgs && 5 * l.numMsgs <= 4 * l.msgKeys[|l.msgKeys| - 1]
  {
    if 100 <= l.numMsgs {
      LastKey(l.msgKeys);
      RatioIff(l.numMsgs, l.msgKeys[|l.msgKeys| - 1]);
    }
  }

  lemma RatioIff(n: nat, last: nat)
    requires last > 0
    ensures n as real / last as real <= 0.8 <==> 5 * n <= 4 * last
  {
    var q := n as real / last as real;
    assert q * last as real == n as real;
    if q <= 0.8 {
      RealTimes(q, 0.8, last as real);
    } else {
      RealTimesLess(0.8, q, last as real);
    }
  }

  lemma RealTimes(a: real, b: real, c: real)
    requires a <= b && c > 0.0
    ensures a * c <= b * c
  {
  }

  lemma RealTimesLess(a: real, b: real, c: real)
    requires a < b && c > 0.0
    ensures a * c < b * c
  {
  }

  function PackedIndex(ix: Index): Index {
    var f := Pack(SetSequences(ix.folder, ix.sequences));
    Index(f, ix.lists.(msgKeys := Keys(f)), GetSequences(f))
  }

  /** The sequences of every message survive being written, packed and read back. */
  lemma PackedKeepsFlags(ix: Index, i: nat)
    requires i < |Keys(ix.folder)|
    ensures var ix' := PackedIndex(ix);
      && Keys(ix'.folder) == Range(1, |Keys(ix.folder)|) && i + 1 in ix'.folder.msgs && Keys(ix.folder)[i] in ix.folder.msgs
      && ix'.folder.msgs[i + 1] == ix.folder.msgs[Keys(ix.folder)[i]]
      && FlagsOf(ix'.sequences, i + 1) == FlagsOf(ix.sequences, Keys(ix.folder)[i]) == FlagsOf(ix'.folder.marks, i + 1)
  {
    var f, key := SetSequences(ix.folder, ix.sequences), Keys(ix.folder)[i];
    KeysExist(ix.folder);
    assert Keys(f) == Keys(ix.folder);
    PackKeeps(f);
    assert SurvivesPack(f, i);
    SetSequencesFlags(ix.folder, ix.sequences, key);
    GetSequencesFlags(Pack(f), i + 1);
  }

  ghost predicate PackedAt(ix: Index, ix': Index, i: nat)
    requires i < |ix.lists.msgKeys|
  {
    var key := ix.lists.msgKeys[i];
    && i + 1 in ix'.folder.msgs && key in ix.folder.msgs && ix'.folder.msgs[i + 1] == ix.folder.msgs[key]
    && FlagsOf(ix'.sequences, i + 1) == FlagsOf(ix.sequences, key) == FlagsOf(ix'.folder.marks, i + 1)
  }

  lemma PackedEverywhere(ix: Index)
    requires ix.lists.msgKeys == Keys(ix.folder)
    ensures Keys(PackedIndex(ix).folder) == Range(1, |ix.lists.msgKeys|)
    ensures forall i: nat :: i < |ix.lists.msgKeys| ==> PackedAt(ix, PackedIndex(ix), i)
  {
    forall i: nat | i < |ix.lists.msgKeys| ensures PackedAt(ix, PackedIndex(ix), i) { PackedKeepsFlags(ix, i); }
    PackKeeps(SetSequences(ix.folder, ix.sequences));
    assert Keys(SetSequences(ix.folder, ix.sequences)) == Keys(ix.folder);
  }

  lemma PackedInSync(ix: Index, ix': Index)
    requires forall i: nat :: i < |ix.lists.msgKeys| ==> PackedAt(ix, ix', i)
    ensures InSync(ix'.folder, Range(1, |ix.lists.msgKeys|), ix'.sequences)
  {
    var n := |ix.lists.msgKeys|;
    forall k | k in Range(1, n) ensures FlagsOf(ix'.folder.marks, k) == FlagsOf(ix'.sequences, k) {
      RangeMembers(1, n);
      assert PackedAt(ix, ix', k - 1);
    }
  }

  lemma PackedWithin(f: Folder)
    ensures Within(GetSequences(f), Keys(f))
  {
    KeysAscending(f);
  }

  lemma PackSound(ix: Index, ix': Index)
    requires Parallel(ix.lists) && UidsBelow(ix.lists)
    requires ix'.lists == ix.lists.(msgKeys := Keys(ix'.folder)) && Keys(ix'.folder) == Range(1, |ix.lists.msgKeys|)
    requires Within(ix'.sequences, Keys(ix'.folder)) && InSync(ix'.folder, Keys(ix'.folder), ix'.sequences)
    ensures Sound(ix')
  {
  }

  lemma PackEntries(ix: Index, ix': Index)
    requires Viewable(ix) && Viewable(ix') && ix'.lists == ix.lists.(msgKeys := Range(1, |ix.lists.msgKeys|))
    requires forall i: nat :: i < |ix.lists.msgKeys| ==> PackedAt(ix, ix', i)
    ensures View(ix').entries == View(ix).entries
  {
    forall i: nat | i < |ix.lists.msgKeys| ensures View(ix').entries[i] == View(ix).entries[i] {
      assert PackedAt(ix, ix', i);
      EntryAt(ix, i);
      EntryAt(ix', i);
    }
  }

  /** Packing an index that lists the whole folder renumbers the keys 1..n and changes nothing else. */
  lemma PackView(ix: Index)
    requires Sound(ix) && ix.lists.msgKeys == Keys(ix.folder)
    ensures var ix' := PackedIndex(ix);
      && ix'.lists.msgKeys == Range(1, |ix.lists.msgKeys|)
      && Sound(ix') && Viewable(ix) && Viewable(ix') && View(ix') == View(ix)
  {
    var ix' := PackedIndex(ix);
    TracksViewable(ix);
    PackedEverywhere(ix);
    PackedInSync(ix, ix');
    PackedWithin(ix'.folder);
    PackSound(ix, ix');
    TracksViewable(ix');
    PackEntries(ix, ix');
  }

  lemma LastKey(keys: seq<nat>)
    requires Ascending(keys) && |keys| > 1
    ensures keys[|keys| - 1] > 0
  {
    assert Less(keys, 0, |keys| - 1);
  }

  lemma PackedEverything(ix: Index)
    requires Sound(ix) && Viewable(ix)
    ensures PackedIndex(ix).lists.msgKeys == Range(1, |Keys(ix.folder)|)
    ensures View(ix).arrived == [] ==>
      Sound(PackedIndex(ix)) && Viewable(PackedIndex(ix)) && View(PackedIndex(ix)) == View(ix)
    ensures Parallel(PackedIndex(ix).lists) <==> View(ix).arrived == []
  {
    PackKeys(SetSequences(ix.folder, ix.sequences));
    assert Keys(SetSequences(ix.folder, ix.sequences)) == Keys(ix.folder);
    if View(ix).arrived == [] {
      assert ix.lists.msgKeys == Keys(ix.folder);
      PackView(ix);
    }
  }

  // ---------- What packing does to mail that is not listed ----------

  /** The sequences are written from memory before the pack, so an unlisted message comes out of it in none: it keeps
      its marks if and only if it had none. */
  lemma PackKeepsMarksIff(ix: Index, i: nat)
    requires Sound(ix) && |ix.lists.msgKeys| <= i < |Keys(ix.folder)|
    ensures FlagsOf(PackedIndex(ix).sequences, i + 1) == {}
    ensures FlagsOf(PackedIndex(ix).sequences, i + 1) == FlagsOf(ix.folder.marks, Keys(ix.folder)[i])
      <==> FlagsOf(ix.folder.marks, Keys(ix.folder)[i]) == {}
  {
    PackedKeepsFlags(ix, i);
    UnlistedHaveNoFlags(ix);
    assert Unlisted(ix)[i - |ix.lists.msgKeys|] == Keys(ix.folder)[i];
  }

  /** A hundred listed messages under the keys from 101 on, and one that has just arrived unseen. */
  function NearlyListed(msg: Message): Index {
    var f := Folder(map k | k in Elements(Range(101, 201)) :: msg, map[UNSEEN := {201}]);
    Index(f, Lists(Range(101, 200), Range(1, 100), 101, 100), map[])
  }

  lemma NearlyListedSound(msg: Message)
    ensures Sound(NearlyListed(msg)) && Keys(NearlyListed(msg).folder) == Range(101, 201)
  {
    var ix := NearlyListed(msg);
    RangeMembers(101, 201);
    RangeMembers(101, 200);
    KeysAscending(ix.folder);
    AscendingUnique(Keys(ix.folder), Range(101, 201));
    assert forall k :: FlagsOf(map[], k) == {};
    forall k | k in ix.lists.msgKeys ensures FlagsOf(ix.folder.marks, k) == {} {
      assert k <= 200;
    }
    assert Range(101, 200) == Range(101, 201)[..100];
  }

  /** This mailbox is packed, and the new message is in no sequence afterwards, not even unseen. */
  lemma PackLosesUnseen(msg: Message)
    ensures var ix := NearlyListed(msg);
      && Sound(ix) && NeedsPack(ix.lists) && |Keys(ix.folder)| == 101 && UNSEEN in FlagsOf(ix.folder.marks, 201)
      && FlagsOf(PackedIndex(ix).sequences, 101) == {}
  {
    NearlyListedSound(msg);
    PackKeepsMarksIff(NearlyListed(msg), 100);
  }
}
