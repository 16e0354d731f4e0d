/** The database record of a mailbox: what `commit_to_db` writes and what `_restore_from_db` makes of it. */
module Persist {
  import opened Base
  import opened NumberSets
  import opened Folder
  import opened Indexing
  import opened IndexView

  /** The row of the mailbox, and its rows in the table of sequences. */
  datatype Row = Row(nextUid: nat, numMsgs: nat, numRecent: nat, uids: string, msgKeys: string,
                     sequences: map<string, string>)

  /** What a row restores. */
  datatype Record = Record(lists: Lists, numRecent: nat, sequences: Sequences)

  function NonEmpty(seqs: Sequences): Sequences {
    map n | n in seqs && seqs[n] != {} :: seqs[n]
  }

  function SequenceRows(seqs: Sequences): map<string, string> {
    map n | n in seqs && seqs[n] != {} :: CompactSequence(SortedNats(seqs[n]))
  }

  function RowOf(l: Lists, numRecent: nat, seqs: Sequences): Row {
    Row(l.nextUid, l.numMsgs, numRecent, CompactSequence(l.uids), CompactSequence(l.msgKeys), SequenceRows(seqs))
  }

  predicate Readable(rows: map<string, string>) {
    forall n :: n in rows ==> Expanded(rows[n]).Ok?
  }

  function ReadSequences(rows: map<string, string>): Sequences
    requires Readable(rows)
  {
    map n | n in rows && !IsBlank(rows[n]) :: Elements(Expanded(rows[n]).value)
  }

  /** A record from the time before keys were stored has UIDs only: the first keys of the folder are taken. */
  function Migrated(l: Lists, found: seq<nat>): Lists {
    if l.msgKeys == [] && l.uids != [] then
      var keys := if |l.uids| <= |found| then found[..|l.uids|] else found;
      l.(msgKeys := keys, numMsgs := |keys|)
    else l
  }

  function Restored(row: Row, found: seq<nat>): Result<Record, string> {
    var uids, keys := Expanded(row.uids), Expanded(row.msgKeys);
    if uids.Err? || keys.Err? || !Readable(row.sequences) then Err("ValueError")
    else Ok(Record(Migrated(Lists(keys.value, uids.value, row.nextUid, row.numMsgs), found),
                   row.numRecent, ReadSequences(row.sequences)))
  }

  lemma RestoredOk(row: Row, found: seq<nat>)
    requires Expanded(row.uids).Ok? && Expanded(row.msgKeys).Ok?
    ensures Restored(row, found).Ok? <==> Readable(row.sequences)
    ensures Readable(row.sequences) ==>
      var read := Lists(Expanded(row.msgKeys).value, Expanded(row.uids).value, row.nextUid, row.numMsgs);
      Restored(row, found) == Ok(Record(Migrated(read, found), row.numRecent, ReadSequences(row.sequences)))
  {
  }

  lemma CompactNotBlank(keys: seq<nat>)
    requires keys != []
    ensures !IsBlank(CompactSequence(keys))
  {
    var sorted := SortList(keys);
    assert keys[0] in sorted;
    RunTextsSplit(Runs(sorted), '-');
    assert !IsTextSpace(CompactSequence(keys)[0]);
  }

  /** One sequence survives its way through the database. */
  lemma SequenceRoundTrip(members: set<nat>)
    requires members != {}
    ensures var text := CompactSequence(SortedNats(members));
      Expanded(text).Ok? && !IsBlank(text) && Elements(Expanded(text).value) == members
  {
    var keys := SortedNats(members);
    SortedNatsAscending(members);
    var k :| k in members;
    assert k in keys;
    ExpandCompactAscending(keys);
    CompactNotBlank(keys);
  }

  lemma SequencesRoundTrip(seqs: Sequences)
    ensures Readable(SequenceRows(seqs)) && ReadSequences(SequenceRows(seqs)) == NonEmpty(seqs)
  {
    var rows := SequenceRows(seqs);
    forall n | n in rows
      ensures Expanded(rows[n]).Ok? && !IsBlank(rows[n]) && Elements(Expanded(rows[n]).value) == seqs[n]
    {
      SequenceRoundTrip(seqs[n]);
    }
  }

  /** Commit then restore gives back the same keys and UIDs, counters and non-empty sequences, whatever has happened
      to the folder since. */
  lemma RestoreCommit(ix: Index, numRecent: nat, found: seq<nat>)
    requires Tracks(ix)
    ensures Restored(RowOf(ix.lists, numRecent, ix.sequences), found)
      == Ok(Record(ix.lists, numRecent, NonEmpty(ix.sequences)))
  {
    ExpandCompactAscending(ix.lists.uids);
    ExpandCompactAscending(ix.lists.msgKeys);
    SequencesRoundTrip(ix.sequences);
  }

  /** The record of a sound index whose folder has since got these messages. */
  ghost predicate RecordOf(row: Row, ix: Index, f: Folder, keys: seq<nat>, msgs: seq<Message>) {
    Sound(ix) && row == RowOf(ix.lists, row.numRecent, ix.sequences) && GrewBy(ix.folder, f, keys, msgs)
  }

  /** A restart: whatever has been delivered meanwhile, the restored index shows the mailbox as it was, with the new
      messages as arrived. */
  lemma RestartView(row: Row, ix: Index, f: Folder, keys: seq<nat>, msgs: seq<Message>)
    requires RecordOf(row, ix, f, keys, msgs)
    ensures var r, now := Restored(row, Keys(f)), ix.(folder := f);
      && r.Ok? && r.value.lists == ix.lists && Viewable(ix) && Viewable(now)
      && View(now).entries == View(ix).entries && Unlisted(now) == Unlisted(ix) + keys
      && var ix' := Index(f, r.value.lists, r.value.sequences);
         Sound(ix') && Viewable(ix') && View(ix') == View(now)
  {
    RestoreCommit(ix, row.numRecent, Keys(f));
    GrewView(ix, f, keys, msgs);
    NonEmptyView(ix.(folder := f));
  }

  /** A record from before keys were stored: if nothing had gone from the folder when it was written, and nothing has
      since, the migration finds each message's own key again. */
  lemma MigrationRestores(row: Row, ix: Index, f: Folder, keys: seq<nat>, msgs: seq<Message>)
    requires RecordOf(row, ix, f, keys, msgs)
    ensures Restored(row.(msgKeys := ""), Keys(f)) == Restored(row, Keys(f))
  {
    RestoreCommit(ix, row.numRecent, Keys(f));
    assert Expanded("") == Ok([]);
    assert Keys(f) == Keys(ix.folder) + keys;
    assert Keys(f)[..|ix.lists.uids|] == ix.lists.msgKeys;
  }

  /** A record without keys, of a mailbox that has lost a message outside and its last messages by EXPUNGE, restores the
      lists for which the next resync lowers `next_uid`. */
  lemma MigratedUidCanDrop()
    ensures var row := Row(5, 2, 0, CompactSequence([1, 2]), "", map[]);
      && Restored(row, [1]).Ok? && Restored(row, [1]).value.lists == Lists([1], [1, 2], 5, 1)
      && Reindexed(Restored(row, [1]).value.lists, [1]).nextUid == 3
  {
    var row := Row(5, 2, 0, CompactSequence([1, 2]), "", map[]);
    ExpandCompactAscending([1, 2]);
    assert Expanded("") == Ok([]);
    assert Readable(row.sequences);
    assert Migrated(Lists([], [1, 2], 5, 2), [1]) == Lists([1], [1, 2], 5, 1);
    NextUidCanDrop();
  }

  /** Dropping empty sequences changes nothing a user can see. */
  lemma NonEmptyView(ix: Index)
    requires Sound(ix)
    ensures var ix' := ix.(sequences := NonEmpty(ix.sequences));
      Sound(ix') && Viewable(ix) && Viewable(ix') && View(ix') == View(ix)
  {
    var ix' := ix.(sequences := NonEmpty(ix.sequences));
    TracksViewable(ix);
    forall k ensures FlagsOf(ix'.sequences, k) == FlagsOf(ix.sequences, k) {
      assert forall n :: n in FlagsOf(ix'.sequences, k) <==> n in FlagsOf(ix.sequences, k);
    }
    assert View(ix').entries == View(ix).entries;
  }
}
