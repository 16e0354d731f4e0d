/** The MH folder on disk, by the contract of Python's `mailbox.MH`. */
module Folder {
  import opened Base
  import opened Flags

  /** `id` tells messages apart for ever; `content` is what a copy has in common with its original. */
  datatype Message = Message(id: nat, content: string)

  /** MH sequences: for each name the keys of its messages. A missing name is an empty sequence. */
  type Sequences = map<string, set<nat>>

  /** The messages by key, and the `.mh_sequences` file, which may mention keys that no longer exist. */
  datatype Folder = Folder(msgs: map<nat, Message>, marks: Sequences)

  /** `sequences[name]` of a defaultdict. */
  function Get(seqs: Sequences, name: string): set<nat> {
    if name in seqs then seqs[name] else {}
  }

  /** The names of the sequences a key is in. */
  function FlagsOf(seqs: Sequences, key: nat): Names {
    set n | n in seqs && key in seqs[n]
  }

  function Keys(f: Folder): seq<nat> {
    SortedNats(f.msgs.Keys)
  }

  lemma KeysAscending(f: Folder)
    ensures Ascending(Keys(f))
    ensures forall k :: k in Keys(f) <==> k in f.msgs
  {
    SortedNatsAscending(f.msgs.Keys);
  }

  lemma KeysExist(f: Folder)
    ensures forall i :: 0 <= i < |Keys(f)| ==> Keys(f)[i] in f.msgs
  {
    KeysAscending(f);
    assert forall i :: 0 <= i < |Keys(f)| ==> Keys(f)[i] in Keys(f);
  }

  /** `get_sequences`: only existing keys, only non-empty sequences. */
  function GetSequences(f: Folder): Sequences {
    map n | n in f.marks && f.marks[n] * f.msgs.Keys != {} :: f.marks[n] * f.msgs.Keys
  }

  /** `set_sequences`: overwrites the file. */
  function SetSequences(f: Folder, seqs: Sequences): Folder {
    f.(marks := map n | n in seqs && seqs[n] != {} :: seqs[n])
  }

  lemma GetSequencesFlags(f: Folder, key: nat)
    requires key in f.msgs
    ensures FlagsOf(GetSequences(f), key) == FlagsOf(f.marks, key)
  {
    var seqs := GetSequences(f);
    assert forall n :: n in FlagsOf(seqs, key) <==> n in FlagsOf(f.marks, key) by {
      assert forall n :: n in f.marks && key in f.marks[n] ==> key in f.marks[n] * f.msgs.Keys;
    }
  }

  lemma SetSequencesFlags(f: Folder, seqs: Sequences, key: nat)
    ensures FlagsOf(SetSequences(f, seqs).marks, key) == FlagsOf(seqs, key)
  {
    var marks := SetSequences(f, seqs).marks;
    assert forall n :: n in FlagsOf(marks, key) <==> n in FlagsOf(seqs, key);
  }

  /** The key `add` gives to a new message. */
  function NextKey(f: Folder): (k: nat)
    ensures forall j :: j in f.msgs ==> j < k
  {
    var keys := Keys(f);
    KeysAscending(f);
    if keys == [] then
      assert forall j :: j in f.msgs ==> j in keys;
      1
    else
      LastIsMax(keys);
      keys[|keys| - 1] + 1
  }

  function AddMsg(f: Folder, key: nat, msg: Message): Folder {
    f.(msgs := f.msgs[key := msg])
  }

  function RemoveMsg(f: Folder, key: nat): Folder {
    f.(msgs := f.msgs - {key})
  }

  /** A message with a key above all others comes last. */
  lemma KeysOfAdd(f: Folder, key: nat, msg: Message)
    requires forall j :: j in f.msgs ==> j < key
    ensures Keys(AddMsg(f, key, msg)) == Keys(f) + [key]
  {
    var keys := Keys(f);
    KeysAscending(f);
    assert forall i :: 0 <= i < |keys| ==> keys[i] in keys;
    var longer := keys + [key];
    AscendingPairs(keys);
    assert Ascending(longer);
    assert forall k :: k in longer <==> k in AddMsg(f, key, msg).msgs;
    KeysAscending(AddMsg(f, key, msg));
    AscendingUnique(Keys(AddMsg(f, key, msg)), longer);
  }

  /** A message that is added after the last one has been removed may get the same key. */
  lemma KeyReusedIff(f: Folder, key: nat)
    requires key in f.msgs
    ensures NextKey(RemoveMsg(f, key)) == key <==>
      && (forall k :: k in f.msgs ==> k <= key)
      && (if f.msgs.Keys == {key} then key == 1 else key > 0 && key - 1 in f.msgs)
  {
    var rest := RemoveMsg(f, key);
    var next := NextKey(rest);
    NextKeyAbove(rest);
    assert forall k :: k in rest.msgs <==> k in f.msgs && k != key;
    if rest.msgs.Keys == {} {
      assert forall k :: k in f.msgs ==> k == key;
      assert f.msgs.Keys == {key};
    } else {
      assert next - 1 in rest.msgs && next - 1 in f.msgs && next - 1 != key;
      assert f.msgs.Keys != {key};
    }
  }

  /** The next key is the one after the last. */
  lemma NextKeyAbove(f: Folder)
    ensures if f.msgs.Keys == {} then NextKey(f) == 1 else NextKey(f) > 0 && NextKey(f) - 1 in f.msgs
  {
    var keys := Keys(f);
    KeysAscending(f);
    if keys == [] {
      assert forall k :: k in f.msgs.Keys ==> k in keys;
    } else {
      assert keys[|keys| - 1] in keys && keys[|keys| - 1] in f.msgs.Keys;
    }
  }

  /** It then has the marks of the removed message, which stay in the sequence file. */
  lemma ReusedKeyInheritsMarks(f: Folder, key: nat, msg: Message)
    requires key in f.msgs && NextKey(RemoveMsg(f, key)) == key
    ensures FlagsOf(AddMsg(RemoveMsg(f, key), key, msg).marks, key) == FlagsOf(f.marks, key)
  {
  }

  /** So new mail can arrive marked Deleted. */
  lemma NewMailCanBeDeleted(first: Message, second: Message)
    ensures var f := Folder(map[1 := first], map[DELETED := {1}]);
      NextKey(RemoveMsg(f, 1)) == 1 && DELETED in FlagsOf(AddMsg(RemoveMsg(f, 1), 1, second).marks, 1)
  {
    var f := Folder(map[1 := first], map[DELETED := {1}]);
    KeyReusedIff(f, 1);
    ReusedKeyInheritsMarks(f, 1, second);
  }

  // ---------- pack ----------

  /** The new key of an existing message: its rank, counting from 1. */
  function Rank(f: Folder, key: nat): (r: nat)
    requires key in f.msgs
    ensures 1 <= r <= |Keys(f)| && Keys(f)[r - 1] == key
  {
    var keys := Keys(f);
    KeysAscending(f);
    AscendingPairs(keys);
    assert key in keys;
    var i :| 0 <= i < |keys| && keys[i] == key;
    i + 1
  }

  function Pack(f: Folder): Folder {
    var keys := Keys(f);
    KeysExist(f);
    if keys == Range(1, |keys|) then f
    else Folder(
      map k: nat | k in Elements(Range(1, |keys|)) && 1 <= k <= |keys| :: f.msgs[keys[k - 1]],
      map n | n in GetSequences(f) :: Ranks(f, GetSequences(f)[n]))
  }

  function Ranks(f: Folder, keys: set<nat>): set<nat> {
    set k | k in keys && k in f.msgs :: Rank(f, k)
  }

  lemma RankOf(f: Folder, i: nat)
    requires i < |Keys(f)|
    ensures Keys(f)[i] in f.msgs && Rank(f, Keys(f)[i]) == i + 1
  {
    var keys := Keys(f);
    KeysAscending(f);
    assert keys[i] in keys;
    var r := Rank(f, keys[i]) - 1;
    AscendingOrder(keys, i, r);
    AscendingOrder(keys, r, i);
  }

  lemma RanksMember(f: Folder, marked: set<nat>, i: nat)
    requires i < |Keys(f)|
    ensures i + 1 in Ranks(f, marked) <==> Keys(f)[i] in marked
  {
    var keys := Keys(f);
    var key := keys[i];
    RankOf(f, i);
    assert forall k :: k in marked && k in f.msgs && Rank(f, k) == i + 1 ==> k == key;
    assert key in marked ==> i + 1 in Ranks(f, marked);
  }

  /** Packing renumbers the messages 1..n in order, with their content and sequences. */
  lemma PackKeeps(f: Folder)
    ensures Keys(Pack(f)) == Range(1, |Keys(f)|)
    ensures forall i :: 0 <= i < |Keys(f)| ==> SurvivesPack(f, i)
  {
    PackKeys(f);
    forall i | 0 <= i < |Keys(f)| ensures SurvivesPack(f, i) { PackKeepsAt(f, i); }
  }

  /** The message at position i is the one with key i + 1 after packing, with all its sequences. */
  ghost predicate SurvivesPack(f: Folder, i: nat)
    requires i < |Keys(f)|
  {
    && i + 1 in Pack(f).msgs && Keys(f)[i] in f.msgs
    && Pack(f).msgs[i + 1] == f.msgs[Keys(f)[i]]
    && FlagsOf(Pack(f).marks, i + 1) == FlagsOf(f.marks, Keys(f)[i])
  }

  lemma PackKeys(f: Folder)
    ensures Keys(Pack(f)) == Range(1, |Keys(f)|)
  {
    var n := |Keys(f)|;
    RangeMembers(1, n);
    if Keys(f) != Range(1, n) {
      KeysAscending(Pack(f));
      AscendingUnique(Keys(Pack(f)), Range(1, n));
    }
  }

  lemma PackKeepsAt(f: Folder, i: nat)
    requires i < |Keys(f)|
    ensures SurvivesPack(f, i)
  {
    KeysExist(f);
    RangeMembers(1, |Keys(f)|);
    if Keys(f) == Range(1, |Keys(f)|) {
      assert Keys(f)[i] == i + 1;
    } else {
      GetSequencesFlags(f, Keys(f)[i]);
      PackedFlags(f, i);
    }
  }

  lemma PackedFlags(f: Folder, i: nat)
    requires i < |Keys(f)| && Keys(f) != Range(1, |Keys(f)|)
    ensures FlagsOf(Pack(f).marks, i + 1) == FlagsOf(GetSequences(f), Keys(f)[i])
  {
    var seqs, packed := GetSequences(f), Pack(f).marks;
    assert packed.Keys == seqs.Keys;
    forall name ensures name in FlagsOf(packed, i + 1) <==> name in FlagsOf(seqs, Keys(f)[i]) {
      if name in seqs { RanksMember(f, seqs[name], i); }
    }
  }
}
