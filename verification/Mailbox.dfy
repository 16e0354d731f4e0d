/** The mailbox object: an index over an MH folder to which others add messages. */
module Mailbox {
  import opened Base
  import opened NumberSets
  import opened SequenceSets
  import opened Flags
  import opened Folder
  import opened Box
  import opened Indexing
  import opened Notify
  import opened IndexView
  import opened Delivering
  import opened Resyncing
  import opened Copying
  import opened Selecting
  import opened Expunging
  import opened Packing
  import opened Marking
  import opened Persist
  import opened Meaning

  class Mailbox {
    /** The files that `self.mailbox` stands for. */
    var folder: Folder
    var msgKeys: seq<nat>
    var uids: seq<nat>
    var nextUid: nat
    var numMsgs: nat
    var numRecent: nat
    var sequences: Sequences
    var keyToIdx: map<nat, nat>
    var uidToIdx: map<nat, nat>
    var optionalResync: bool
    var clients: Clients

    ghost function Ix(): Index
      reads this
    {
      Index(folder, Lists(msgKeys, uids, nextUid, numMsgs), sequences)
    }

    ghost predicate Indexed()
      reads this
    {
      keyToIdx == Positions(msgKeys) && uidToIdx == Positions(uids)
    }

    ghost predicate Valid()
      reads this
    {
      Sound(Ix()) && Viewable(Ix()) && Indexed()
    }

    /** The mailbox as its users see it. */
    ghost function Mail(): Box
      requires Viewable(Ix())
      reads this
    {
      View(Ix())
    }

    constructor (f: Folder)
      ensures Valid() && Mail() == Box([], FolderArrivals(f), 1)
      ensures folder == f && sequences == map[] && clients == map[] && fresh(this)
    {
      folder, msgKeys, uids, nextUid, numMsgs, numRecent := f, [], [], 1, 0, 0;
      sequences, keyToIdx, uidToIdx, optionalResync, clients := map[], map[], map[], true, map[];
      new;
      EmptyTracks(Ix());
    }

    // ---------- Telling clients ----------

    method DispatchOrPend(notes: seq<Note>, dontNotify: set<string>)
      modifies this`clients
      ensures clients == Told(old(clients), notes, dontNotify)
    {
      if notes == [] {
        ToldNothing(clients, dontNotify);
        return;
      }
      var todo := clients.Keys;
      while todo != {}
        invariant todo <= clients.Keys == old(clients.Keys)
        invariant forall c :: c in clients ==>
          clients[c] == if c in todo || c in dontNotify then old(clients)[c] else Hear(old(clients)[c], notes)
      {
        var c :| c in todo;
        if c !in dontNotify {
          var l := clients[c];
          clients := clients[c := if l.idling then l.(pushed := l.pushed + notes) else l.(pending := l.pending + notes)];
        }
        todo := todo - {c};
      }
    }

    /** `during` is what `DispatchOrPend` leaves for this client while the push is awaited. */
    method SendPendingNotifications(c: string, during: seq<Note>)
      requires c in clients
      modifies this`clients
      ensures clients == old(clients)[c := Drained(old(clients)[c], during)]
    {
      if clients[c].pending != [] {
        clients := clients[c := clients[c].(pushed := clients[c].pushed + clients[c].pending)];
        clients := clients[c := clients[c].(pending := clients[c].pending + during)];
        clients := clients[c := clients[c].(pending := [])];
      } else {
        clients := clients[c := clients[c].(pending := during)];
      }
    }

    // ---------- The index ----------

    method RebuildIndexDicts()
      modifies this`keyToIdx, this`uidToIdx
      ensures Indexed()
      ensures Ascending(msgKeys) ==> Locates(keyToIdx, msgKeys)
      ensures Ascending(uids) ==> Locates(uidToIdx, uids)
    {
      keyToIdx := Positions(msgKeys);
      uidToIdx := Positions(uids);
      if Ascending(msgKeys) { PositionsLocate(msgKeys); }
      if Ascending(uids) { PositionsLocate(uids); }
    }

    /** Puts a key in exactly these sequences. */
    method SetSequencesOf(key: nat, names: Names)
      modifies this`sequences
      ensures forall k :: FlagsOf(sequences, k) == if k == key then names else FlagsOf(old(sequences), k)
    {
      var todo := names;
      while todo != {}
        invariant todo <= names
        invariant forall k :: FlagsOf(sequences, k) == FlagsOf(old(sequences), k) + if k == key then names - todo else {}
      {
        var name :| name in todo;
        PutFlags(sequences, name, key);
        sequences := Put(sequences, name, key);
        todo := todo - {name};
      }
      var others := sequences.Keys - names;
      assert FlagsOf(sequences, key) == names + (FlagsOf(sequences, key) * others);
      while others != {}
        invariant forall k :: k != key ==> FlagsOf(sequences, k) == FlagsOf(old(sequences), k)
        invariant names !! others
        invariant FlagsOf(sequences, key) == names + (FlagsOf(sequences, key) * others)
      {
        var name :| name in others;
        DropFlags(sequences, name, key);
        sequences := Drop(sequences, name, key);
        others := others - {name};
      }
    }

    /** The sequences of new messages come from the file, with Recent, Seen and unseen set right. */
    method AdoptSequences(added: seq<nat>)
      requires forall k :: k in added ==> k in folder.msgs
      modifies this`sequences
      ensures Adopted(old(sequences), folder, added, sequences)
    {
      var fileSeqs := GetSequences(folder);
      var i := 0;
      while i < |added|
        invariant 0 <= i <= |added|
        invariant Adopted(old(sequences), folder, added[..i], sequences)
      {
        var key := added[i];
        var names := {RECENT} + FlagsOf(fileSeqs, key);
        names := if UNSEEN in names then names - {SEEN} else names + {SEEN};
        NamesDiffer();
        GetSequencesFlags(folder, key);
        assert names == Flags.Arrived(FlagsOf(folder.marks, key));
        SetSequencesOf(key, names);
        assert forall k :: k in added[..i + 1] <==> k in added[..i] || k == key;
        i := i + 1;
      }
      assert added[..i] == added;
    }

    /** Starts anew, or cuts the UIDs down, if lists and folder do not fit together. */
    method CheckLists(found: seq<nat>)
      modifies this`msgKeys, this`uids, this`numMsgs, this`sequences
      ensures Ix().lists == Checked(old(Ix().lists), found)
      ensures sequences == if Resets(old(Ix().lists), found) then map[] else old(sequences)
    {
      if |found| < numMsgs {
        msgKeys, uids, numMsgs, sequences := [], [], 0, map[];
      } else if |msgKeys| != |uids| {
        if |uids| > |msgKeys| {
          // uids[-len(msg_keys):] is the whole list when there are no keys
          uids := if msgKeys == [] then uids else uids[|uids| - |msgKeys|..];
        } else {
          msgKeys, uids, numMsgs, sequences := [], [], 0, map[];
        }
      }
    }

    /** Lists the keys that are new, under new UIDs. */
    method ExtendLists(found: seq<nat>) returns (added: seq<nat>)
      modifies this`msgKeys, this`uids, this`nextUid, this`numMsgs, this`keyToIdx, this`uidToIdx
      ensures added == NewKeys(found, old(msgKeys))
      ensures Ix().lists == Extended(old(Ix().lists), found) && Indexed()
    {
      added := NewKeys(found, msgKeys);
      msgKeys := msgKeys + added;
      uids := uids + Fresh(nextUid, |added|);
      if uids != [] {
        nextUid := uids[|uids| - 1] + 1;
      }
      RebuildIndexDicts();
      numMsgs := |found|;
    }

    /** The FETCH line for a message. */
    function FetchMsgFor(key: nat): Note
      requires key in keyToIdx
      reads this
    {
      Flagged(keyToIdx[key] + 1, FlagsOf(sequences, key))
    }

    method FetchMsgsFor(keys: seq<nat>) returns (notes: seq<Note>)
      requires forall i :: 0 <= i < |keys| ==> keys[i] in keyToIdx
      ensures |notes| == |keys| && forall i :: 0 <= i < |keys| ==> notes[i] == FetchMsgFor(keys[i])
    {
      notes := [];
      for i := 0 to |keys|
        invariant |notes| == i && forall j :: 0 <= j < i ==> notes[j] == FetchMsgFor(keys[j])
      {
        notes := notes + [FetchMsgFor(keys[i])];
      }
    }

    /** What a resync starts from: an index that was sound when it was last left alone. */
    ghost predicate Resyncable()
      reads this
    {
      Tracks(Ix()) && Viewable(Ix()) && Indexed()
    }

    /** Gives the new messages their sequences, and makes the file reflect them. */
    method UpdateSequences(added: seq<nat>)
      requires forall k :: k in added ==> k in folder.msgs
      modifies this`folder, this`sequences, this`numRecent
      ensures Adopted(old(sequences), old(folder), added, sequences)
      ensures folder == SetSequences(old(folder), sequences) && numRecent == |Get(sequences, RECENT)|
    {
      AdoptSequences(added);
      folder := SetSequences(folder, sequences);
      numRecent := |Get(sequences, RECENT)|;
    }

    /** The resync proper, when the folder has changed: `ix` is the index with the folder whose keys were listed. */
    method TakeIn(found: seq<nat>, ghost ix: Index, ghost late: seq<Delivery>) returns (added: seq<nat>)
      requires found == Keys(ix.folder) && !Untouched(ix.lists, found)
      requires Ix() == ix.(folder := AllDeliveredTo(ix.folder, late))
      modifies this`folder, this`msgKeys, this`uids, this`nextUid, this`numMsgs, this`numRecent, this`sequences,
               this`keyToIdx, this`uidToIdx
      ensures Ix() == ResyncedLate(ix, sequences, AllDeliveredTo(ix.folder, late)) && Indexed()
      ensures added == Added(ix) && Adopted(Kept(ix), ix.folder, added, sequences)
      ensures numRecent == |Get(sequences, RECENT)|
    {
      AddedInFolder(ix);
      DeliveredGrows(ix.folder, late);
      CheckLists(found);
      added := ExtendLists(found);
      UpdateSequences(added);
    }

    /** EXISTS and RECENT go to every client at once, the FETCH lines when it may be told. */
    method Announce(added: seq<nat>, dontNotify: set<string>) returns (notes: seq<Note>)
      requires forall i :: 0 <= i < |added| ==> added[i] in keyToIdx
      modifies this`clients
      ensures |notes| == |added| && forall i :: 0 <= i < |added| ==> IsNoteFor(sequences, keyToIdx, added[i], notes[i])
      ensures Ix() == old(Ix())
      ensures clients == Told(Pushed(old(clients), [Exists(numMsgs), Recent(numRecent)]), notes, dontNotify)
    {
      ghost var ix := Ix();
      clients := Pushed(clients, [Exists(numMsgs), Recent(numRecent)]);
      notes := FetchMsgsFor(added);
      DispatchOrPend(notes, dontNotify);
      assert Ix() == ix;
    }

    method TakeInAndAnnounce(found: seq<nat>, dontNotify: set<string>, ghost ix: Index, ghost late: seq<Delivery>)
      returns (notes: seq<Note>)
      requires found == Keys(ix.folder) && !Untouched(ix.lists, found)
      requires Ix() == ix.(folder := AllDeliveredTo(ix.folder, late))
      modifies this`folder, this`msgKeys, this`uids, this`nextUid, this`numMsgs, this`numRecent, this`sequences,
               this`keyToIdx, this`uidToIdx, this`clients
      ensures Ix() == ResyncedLate(ix, sequences, AllDeliveredTo(ix.folder, late)) && Indexed()
      ensures Adopted(Kept(ix), ix.folder, Added(ix), sequences) && |notes| == |Added(ix)|
      ensures forall i :: 0 <= i < |notes| ==> IsNoteFor(sequences, keyToIdx, Added(ix)[i], notes[i])
      ensures numRecent == |Get(sequences, RECENT)|
      ensures clients == Told(Pushed(old(clients), [Exists(numMsgs), Recent(numRecent)]), notes, dontNotify)
    {
      var added := TakeIn(found, ix, late);
      ghost var now := Ix();
      assert clients == old(clients);
      AddedListed(ix);
      notes := Announce(added, dontNotify);
      assert Ix() == now;
    }

    /** A resync that has found a change. */
    method AcceptChange(found: seq<nat>, dontNotify: set<string>, ghost ix: Index, ghost late: seq<Delivery>)
      returns (notes: seq<Note>)
      requires found == Keys(ix.folder) && !Untouched(ix.lists, found)
      requires Ix() == ix.(folder := AllDeliveredTo(ix.folder, late))
      modifies this`folder, this`msgKeys, this`uids, this`nextUid, this`numMsgs, this`numRecent, this`sequences,
               this`keyToIdx, this`uidToIdx, this`clients
      ensures folder.msgs == old(folder.msgs) && Ix().lists == Reindexed(ix.lists, found)
      ensures Tracks(ix) && Viewable(ix) ==> Valid() && Mail() == Relist(View(ix), Came(ix.folder, late))
      ensures HasShrunk(ix) ==> Valid() && Mail() == RebuildOutcome(ix, late)
      ensures (Tracks(ix) && Viewable(ix)) || HasShrunk(ix) ==>
        numMsgs == |Mail().entries| && numRecent == CountRecent(Mail().entries)
      ensures clients == Told(Pushed(old(clients), [Exists(numMsgs), Recent(numRecent)]), notes, dontNotify)
      ensures Tracks(ix) && Viewable(ix) ==> notes == FetchNotes(Mail().entries, |ix.lists.msgKeys|)
    {
      notes := TakeInAndAnnounce(found, dontNotify, ix, late);
      LateOutcome(ix, sequences, keyToIdx, notes, late);
      if (Tracks(ix) && Viewable(ix)) || HasShrunk(ix) { RecentCounted(Ix()); }
    }

    /** The resync. `late` arrives after it has listed the keys of the folder. `notes` are the FETCH lines for the
        messages it has added. */
    method CheckNewMsgsAndFlags(dontNotify: set<string>, late: seq<Delivery>) returns (changed: bool, notes: seq<Note>)
      modifies this
      ensures folder.msgs == AllDeliveredTo(old(folder), late).msgs
      ensures Ix().lists == Reindexed(old(Ix().lists), old(Keys(folder)))
      ensures old(Resyncable()) ==> Valid() && Mail() == Do(old(Mail()), Step.Resync(Came(old(folder), late)))
      ensures old(HasShrunk(Ix())) ==> Valid() && Mail() == RebuildOutcome(old(Ix()), late)
      ensures changed == !Untouched(old(Ix().lists), old(Keys(folder))) && optionalResync
      ensures !changed ==> clients == old(clients)
      ensures changed ==> clients == Told(Pushed(old(clients), [Exists(numMsgs), Recent(numRecent)]), notes, dontNotify)
      ensures changed && (old(Resyncable()) || old(HasShrunk(Ix()))) ==>
        numMsgs == |Mail().entries| && numRecent == CountRecent(Mail().entries)
      ensures !changed ==> numRecent == old(numRecent)
      ensures old(Resyncable()) && changed ==> notes == FetchNotes(Mail().entries, |old(Ix().lists.msgKeys)|)
    {
      ghost var ix := Ix();
      var found := Keys(folder);
      optionalResync := true;
      DeliverAll(late);
      if found == msgKeys && |uids| == numMsgs {
        assert Ix() == ix.(folder := AllDeliveredTo(ix.folder, late));
        if Tracks(ix) && Viewable(ix) { LateUntouched(ix, late); }
        return false, [];
      }
      assert Ix() == ix.(folder := AllDeliveredTo(ix.folder, late));
      notes := AcceptChange(found, dontNotify, ix, late);
      changed := true;
    }

    /** A resync of an index that nothing but additions has happened to. */
    method Resync(late: seq<Delivery>)
      requires Resyncable()
      modifies this
      ensures Valid() && Mail() == Do(old(Mail()), Step.Resync(Came(old(folder), late))) && Grown(old(Ix()), Ix())
    {
      ghost var ix := Ix();
      var changed, notes := CheckNewMsgsAndFlags({}, late);
      ResyncGrows(ix, Ix());
    }

    // ---------- New messages ----------

    /** `add` of the folder; `gap` is how many keys another process leaves out. */
    method AddMessage(msg: Message, gap: nat) returns (key: nat)
      modifies this`folder
      ensures folder == AddMsg(old(folder), key, msg) && forall k :: k in old(folder).msgs ==> k < key
    {
      key := NextKey(folder) + gap;
      folder := AddMsg(folder, key, msg);
    }

    /** Another process adds a message. */
    method Deliver(d: Delivery)
      modifies this`folder
      ensures folder == DeliveredTo(old(folder), d)
      ensures old(Valid()) ==> Valid() && Mail() == Do(old(Mail()), Step.Deliver(Comes(old(folder), d)))
    {
      ghost var ix := Ix();
      var key := NextKey(folder) + d.gap;
      folder := Folder(folder.msgs[key := d.arrival.msg], AddMarks(folder.marks, d.arrival.marks, key));
      DeliveredAlone(ix.folder, d);
      if Tracks(ix) { DeliveredView(ix, [d]); }
    }

    method DeliverAll(ds: seq<Delivery>)
      modifies this`folder
      ensures folder == AllDeliveredTo(old(folder), ds)
    {
      for i := 0 to |ds|
        invariant AllDeliveredTo(folder, ds[i..]) == AllDeliveredTo(old(folder), ds)
      {
        Deliver(ds[i]);
        assert ds[i..][1..] == ds[i + 1..];
      }
    }

    /** `sequences[name].add(key)` for each name. */
    method AddToSequences(key: nat, names: seq<string>)
      modifies this`sequences
      ensures Extends(old(sequences), key, Elements(names), sequences)
    {
      for i := 0 to |names|
        invariant Extends(old(sequences), key, Elements(names[..i]), sequences)
      {
        PutFlags(sequences, names[i], key);
        sequences := Put(sequences, names[i], key);
        assert Elements(names[..i + 1]) == Elements(names[..i]) + {names[i]};
      }
      assert names[..|names|] == names;
    }

    /** What APPEND does until it has written the sequences; `names` are those of the message without Recent. */
    method PutMessage(msg: Message, names: seq<string>, during: seq<Delivery>) returns (key: nat)
      requires Valid()
      modifies this`folder, this`sequences
      ensures Resyncable() && Clean(folder) && IsNext(Unlisted(Ix()), old(Unlisted(Ix())), key)
      ensures Mail() == WithAppended(old(Mail()), msg, {RECENT} + Elements(names), ArrivalsOf(during))
    {
      ghost var ix := Ix();
      key := AddMessage(msg, 0);
      ghost var f1 := folder;
      DeliverAll(during);
      DeliveredGrows(f1, during);
      AddToSequences(key, [RECENT] + names);
      assert Elements([RECENT] + names) == {RECENT} + Elements(names);
      ghost var f := folder;
      folder := SetSequences(folder, sequences);
      assert Ix() == Index(SetSequences(f, sequences), ix.lists, sequences);
      AppendView(ix, key, msg, {RECENT} + Elements(names), f, CameKeys(f1, during), ArrivalsOf(during), sequences);
      WrittenClean(Ix(), f);
    }

    /** More mail arrives before the resync. */
    method ArriveBetween(between: seq<Delivery>)
      requires Resyncable() && Clean(folder)
      modifies this`folder
      ensures Resyncable() && Clean(folder) && Unlisted(Ix()) == old(Unlisted(Ix())) + CameKeys(old(folder), between)
      ensures Mail() == WithMore(old(Mail()), ArrivalsOf(between))
    {
      ghost var ix := Ix();
      DeliverAll(between);
      DeliveredView(ix, between);
      CleanCame(ix.folder, between);
      assert Ix() == ix.(folder := AllDeliveredTo(ix.folder, between));
    }

    /** What follows when the sequences are written: `between` arrives, the resync lists the keys, `late` arrives. `mid`
        is the index with the folder whose keys were listed. */
    method SettleIn(between: seq<Delivery>, late: seq<Delivery>) returns (ghost mid: Index)
      requires Resyncable() && Clean(folder)
      modifies this
      ensures Valid() && Mail() == Relist(WithMore(old(Mail()), ArrivalsOf(between)), ArrivalsOf(late))
      ensures Grown(mid, Ix()) && Unlisted(mid) == old(Unlisted(Ix())) + CameKeys(old(folder), between)
      ensures mid.lists.nextUid == old(nextUid)
    {
      ArriveBetween(between);
      CleanCame(folder, late);
      mid := Ix();
      Resync(late);
    }

    /** `during` arrives while APPEND waits for the lock on the sequence file, `between` before its resync lists the
        keys, `late` after that. */
    method Append(msg: Message, flags: seq<string>, during: seq<Delivery>, between: seq<Delivery>, late: seq<Delivery>)
      returns (uid: nat)
      requires Valid()
      modifies this
      ensures Valid() && Mail() == Do(old(Mail()), Step.Append(msg, FlagsToSeqs(flags), ArrivalsOf(during),
                                                               ArrivalsOf(between), ArrivalsOf(late)))
      ensures uid == DueUid(old(Mail())) && HasEntry(Mail(), uid, msg, AppendShows(flags))
    {
      ghost var box := Mail();
      AppendListed(box, msg, flags, ArrivalsOf(during), ArrivalsOf(between), ArrivalsOf(late));
      uid := PutAndSettle(msg, flags, during, between, late);
    }

    /** Writes the message with its sequences, and looks its UID up after the resync. */
    method PutAndSettle(msg: Message, flags: seq<string>, during: seq<Delivery>, between: seq<Delivery>,
                        late: seq<Delivery>) returns (uid: nat)
      requires Valid()
      modifies this
      ensures Valid() && Mail() == Do(old(Mail()), Step.Append(msg, FlagsToSeqs(flags), ArrivalsOf(during),
                                                               ArrivalsOf(between), ArrivalsOf(late)))
      ensures uid == DueUid(old(Mail()))
    {
      ghost var before := |Unlisted(Ix())|;
      ghost var done := Do(Mail(), Step.Append(msg, FlagsToSeqs(flags), ArrivalsOf(during),
                                               ArrivalsOf(between), ArrivalsOf(late)));
      var names := FlagsToSeqs(flags);
      if SEEN !in names {
        names := names + [UNSEEN];
      }
      assert {RECENT} + Elements(names) == AppendMarks(FlagsToSeqs(flags));
      var key := PutMessage(msg, names, during);
      assert Relist(WithMore(Mail(), ArrivalsOf(between)), ArrivalsOf(late)) == done;
      ghost var mid := SettleIn(between, late);
      AddedHasUid(mid, Ix(), before);
      uid := uids[keyToIdx[key]];
    }

    /** Writes one copy; `window` arrives right after it. */
    method PutCopy(copy: Arrival, window: seq<Delivery>, fileSeqs: Sequences)
      returns (key: nat, fileSeqs': Sequences, ghost more: seq<nat>)
      modifies this`folder
      ensures fileSeqs' == AddMarks(fileSeqs, copy.marks, key)
      ensures (forall k :: k in old(folder).msgs ==> k < key)
      ensures GrewBy(AddMsg(old(folder), key, copy.msg), folder, more, Msgs(ArrivalsOf(window)))
    {
      key := AddMessage(copy.msg, 0);
      fileSeqs' := AddMarks(fileSeqs, copy.marks, key);
      more := CameKeys(folder, window);
      DeliveredGrows(folder, window);
      DeliverAll(window);
    }

    /** Adds the copies; returns their keys and the sequences that the file is to have. */
    method WriteCopies(copies: seq<Arrival>, windows: seq<seq<Delivery>>)
      returns (keys: seq<nat>, fileSeqs: Sequences, ghost all: seq<nat>)
      requires |copies| == |windows|
      modifies this`folder
      ensures HalfCopied(old(folder), folder, fileSeqs, keys, all, copies, WindowsOf(windows), |copies|)
    {
      ghost var f0, wins := folder, WindowsOf(windows);
      fileSeqs := GetSequences(folder);
      keys, all := [], [];
      CopiedNothing(folder);
      for i := 0 to |copies|
        invariant HalfCopied(f0, folder, fileSeqs, keys, all, copies, wins, i)
      {
        ghost var f, marks := folder, fileSeqs;
        ghost var more;
        var key;
        key, fileSeqs, more := PutCopy(copies[i], windows[i], fileSeqs);
        CopyNext(f0, f, marks, keys, all, copies, wins, i, key, folder, more);
        keys := keys + [key];
        all := all + ([key] + more);
      }
    }

    /** The writing half of COPY, up to the writing of the sequences: returns the keys of the copies. */
    method PutCopies(copies: seq<Arrival>, windows: seq<seq<Delivery>>) returns (keys: seq<nat>)
      requires Valid() && |copies| == |windows|
      modifies this`folder
      ensures Resyncable() && Clean(folder)
      ensures Mail() == WithMore(old(Mail()), Interleave(copies, WindowsOf(windows)))
      ensures CopiesAt(keys, Unlisted(Ix()), |old(Mail()).arrived|, WindowsOf(windows))
    {
      ghost var ix := Ix();
      ghost var all;
      var fileSeqs;
      keys, fileSeqs, all := WriteCopies(copies, windows);
      ghost var f := folder;
      folder := SetSequences(folder, fileSeqs);
      ghost var now := ix.(folder := SetSequences(f, fileSeqs));
      assert Ix() == now;
      CopiesWritten(ix, f, fileSeqs, keys, all, copies, WindowsOf(windows));
    }

    /** The resync that gives copies their UIDs, which are then looked up. */
    method SettleCopies(keys: seq<nat>, between: seq<Delivery>, late: seq<Delivery>,
                        ghost before: nat, ghost windows: seq<seq<Arrival>>, ghost uid: nat)
      returns (dstUids: seq<nat>)
      requires Resyncable() && Clean(folder)
      requires CopiesAt(keys, Unlisted(Ix()), before, windows) && uid == nextUid + before
      modifies this
      ensures Valid() && Mail() == Relist(WithMore(old(Mail()), ArrivalsOf(between)), ArrivalsOf(late))
      ensures dstUids == CopyUids(uid, windows)
    {
      CopiesStay(keys, Unlisted(Ix()), CameKeys(folder, between), before, windows);
      ghost var mid := SettleIn(between, late);
      ghost var now := Ix();
      CopiesHaveUids(mid, now, keys, before, windows, uid);
      dstUids := UidsFromMsgs(keys, CopyUids(uid, windows));
      assert Ix() == now;
    }

    /** The writing half of COPY; `windows[i]` arrives right after copy i is written, `between` before the resync lists
        the keys, `late` after that. */
    method CopyIn(copies: seq<Arrival>, windows: seq<seq<Delivery>>, between: seq<Delivery>, late: seq<Delivery>)
      returns (dstUids: seq<nat>)
      requires Valid() && |copies| == |windows|
      modifies this
      ensures Valid() && Mail() == Do(old(Mail()), Step.CopyIn(copies, WindowsOf(windows), ArrivalsOf(between),
                                                               ArrivalsOf(late)))
      ensures dstUids == CopyUids(DueUid(old(Mail())), WindowsOf(windows))
    {
      ghost var before, uid := |Mail().arrived|, DueUid(Mail());
      ghost var done := Do(Mail(), Step.CopyIn(copies, WindowsOf(windows), ArrivalsOf(between), ArrivalsOf(late)));
      var keys := PutCopies(copies, windows);
      assert Relist(WithMore(Mail(), ArrivalsOf(between)), ArrivalsOf(late)) == done;
      dstUids := SettleCopies(keys, between, late, before, WindowsOf(windows), uid);
    }

    /** `get_uid_from_msg` for each key; all are listed. */
    method UidsFromMsgs(keys: seq<nat>, ghost expected: seq<nat>) returns (r: seq<nat>)
      requires Indexed() && HaveUids(Ix().lists, keys, expected)
      ensures r == expected
    {
      r := [];
      for i := 0 to |keys|
        invariant r == expected[..i]
      {
        assert UidIs(Ix().lists, keys[i], expected[i]);
        TakeNext(expected, i);
        r := r + [uids[keyToIdx[keys[i]]]];
      }
      TakeAll(expected);
    }

    // ---------- Expunge ----------

    /** The keys of the messages with the given UIDs. */
    method PickListed(list: seq<nat>) returns (picked: set<nat>)
      requires Valid()
      ensures picked == KeysOfUids(Ix().lists, Elements(list))
    {
      picked := {};
      PositionsLocate(uids);
      for i := 0 to |list|
        invariant picked == KeysOfUids(Ix().lists, Elements(list[..i]))
      {
        PickOne(Ix().lists, list, i, uidToIdx);
        if list[i] in uidToIdx {
          picked := picked + {msgKeys[uidToIdx[list[i]]]};
        }
      }
      TakeAll(list);
    }

    /** `[self.uids[self._msg_key_to_idx[x]] for x in keys]`: the lookups never fail. */
    method LookUpUids(keys: seq<nat>) returns (r: seq<nat>)
      requires Valid() && forall k :: k in keys ==> k in Get(sequences, DELETED)
      ensures HaveUids(Ix().lists, keys, r)
    {
      r := [];
      DeletedKeys(Ix());
      PositionsLocate(msgKeys);
      for i := 0 to |keys|
        invariant |r| == i && forall j :: 0 <= j < i ==> UidIs(Ix().lists, keys[j], r[j])
      {
        assert keys[i] in Get(sequences, DELETED);
        r := r + [uids[keyToIdx[keys[i]]]];
      }
    }

    /** Those of the Deleted messages, which have these keys and UIDs, whose UIDs are in the list. */
    method PickDeleted(list: seq<nat>, keys: seq<nat>, us: seq<nat>) returns (picked: set<nat>)
      requires Valid() && HaveUids(Ix().lists, keys, us) && forall k :: k in keys <==> k in Get(sequences, DELETED)
      ensures picked == KeysOfUids(Ix().lists, DeletedUids(Mail().entries) * Elements(list))
    {
      picked := {};
      for i := 0 to |list|
        invariant picked == KeysOfUids(Ix().lists, DeletedUids(Mail().entries) * Elements(list[..i]))
      {
        PickMoreDeleted(Ix(), keys, us, list, i);
        if list[i] in us {
          var pos := IndexOf(us, list[i]);
          picked := picked + {keys[pos]};
        }
      }
      TakeAll(list);
    }

    /** The keys of the messages to delete, highest first. `none` means that `expunge` returns at once. */
    method ChooseDeleted(uidMsgSet: Option<seq<nat>>, checkDeleted: bool) returns (none: bool, toDelete: seq<nat>)
      requires Valid()
      ensures Descending(toDelete)
      ensures forall k :: k in toDelete <==> k in KeysOfUids(Ix().lists, Chosen(Mail(), uidMsgSet, checkDeleted))
      ensures none <==> NothingToExpunge(Mail(), uidMsgSet, checkDeleted)
      ensures none ==> toDelete == []
    {
      var picked: set<nat> := {};
      if !checkDeleted {
        none := uidMsgSet.None?;
        if !none { picked := PickListed(uidMsgSet.value); }
      } else {
        none := Get(sequences, DELETED) == {};
        NoneDeleted(Ix());
        if !none { picked := PickAmongDeleted(uidMsgSet); }
      }
      SortedDownDescends(picked);
      toDelete := SortedDown(picked);
      if none {
        NothingIsChosen(Ix(), uidMsgSet, checkDeleted);
        HasFirst(toDelete);
      }
    }

    /** What is marked Deleted, or what of it has a UID of the list. */
    method PickAmongDeleted(uidMsgSet: Option<seq<nat>>) returns (picked: set<nat>)
      requires Valid()
      ensures picked == KeysOfUids(Ix().lists, Chosen(Mail(), uidMsgSet, true))
    {
      picked := Get(sequences, DELETED);
      DeletedKeys(Ix());
      SortedDownDescends(picked);
      var toDelete := SortedDown(picked);
      var uidsToDelete := LookUpUids(toDelete);
      if uidMsgSet.Some? && uidMsgSet.value != [] {
        picked := PickDeleted(uidMsgSet.value, toDelete, uidsToDelete);
      }
    }

    method DeleteMsg(key: nat)
      requires key in keyToIdx && keyToIdx[key] < |msgKeys| && keyToIdx[key] < |uids| && 0 < numMsgs
      modifies this`folder, this`msgKeys, this`uids, this`numMsgs, this`clients
      ensures Ix() == Index(RemoveMsg(old(folder), key), Deleted(old(Ix().lists), keyToIdx[key]), sequences)
      ensures clients == Told(old(clients), [Expunged(keyToIdx[key] + 1)], {})
    {
      var which := keyToIdx[key];
      msgKeys := RemoveAt(msgKeys, which);
      uids := RemoveAt(uids, which);
      numMsgs := numMsgs - 1;
      folder := RemoveMsg(folder, key);
      DispatchOrPend([Expunged(which + 1)], {});
    }

    /** Takes the deleted keys out of all sequences. */
    method ClearSequences(keys: seq<nat>)
      modifies this`sequences
      ensures Cleared(old(sequences), keys, sequences)
    {
      var names := sequences.Keys;
      while names != {}
        invariant names <= sequences.Keys == old(sequences.Keys)
        invariant forall n :: n in sequences ==>
          sequences[n] == if n in names then old(sequences)[n] else old(sequences)[n] - Elements(keys)
      {
        var n :| n in names;
        sequences := sequences[n := sequences[n] - Elements(keys)];
        names := names - {n};
      }
      ClearedSequences(old(sequences), keys, sequences);
    }

    /** One round of the loop of `expunge`, which looks the key up in the dict made before the loop. */
    method DeleteOne(key: nat, ghost ix: Index, ghost gone: seq<nat>, ghost m: nat, ghost notes: seq<Note>)
      returns (p: nat)
      requires Sound(ix) && Viewable(ix) && Deleting(ix, Ix(), gone, m, notes)
      requires key in keyToIdx && keyToIdx[key] < m <= |ix.lists.msgKeys| && ix.lists.msgKeys[keyToIdx[key]] == key
      modifies this`folder, this`msgKeys, this`uids, this`numMsgs, this`clients
      ensures p == keyToIdx[key] && Deleting(ix, Ix(), gone + [key], p, notes + [Expunged(p + 1)])
      ensures clients == Told(old(clients), [Expunged(p + 1)], {})
    {
      p := keyToIdx[key];
      DeletingOne(ix, Ix(), gone, m, notes, p);
      DeleteMsg(key);
    }

    /** The loop of `expunge`: `keyToIdx` is not brought up to date before all are gone. */
    method DeleteMsgs(toDelete: seq<nat>, ghost ix: Index, ghost chosen: set<nat>)
      returns (notes: seq<Note>, ghost m: nat)
      requires Valid() && ix == Ix() && Descending(toDelete)
      requires forall k :: k in toDelete <==> k in KeysOfUids(ix.lists, chosen)
      modifies this`folder, this`msgKeys, this`uids, this`numMsgs, this`clients
      ensures AllDeleted(ix, Ix(), toDelete, m, notes, chosen)
      ensures clients == Told(old(clients), notes, {})
    {
      notes, m := [], |msgKeys|;
      ToldNothing(clients, {});
      FolderAtStart(ix);
      PlacesDescend(ix.lists, keyToIdx, toDelete, chosen);
      for i := 0 to |toDelete|
        invariant Deleting(ix, Ix(), toDelete[..i], m, notes) && m <= |ix.lists.msgKeys|
        invariant clients == Told(old(clients), notes, {})
        invariant forall j :: i <= j < |toDelete| ==> keyToIdx[toDelete[j]] < m
      {
        var p := DeleteOne(toDelete[i], ix, toDelete[..i], m, notes);
        ToldTwice(old(clients), notes, [Expunged(p + 1)], {});
        TakeNext(toDelete, i);
        m := p;
        notes := notes + [Expunged(p + 1)];
      }
      TakeAll(toDelete);
    }

    /** EXPUNGE; once they have read what is pending, the clients have the server's list again.

        The list of UIDs must not repeat any: the second deletion would hit another message. */
    method Expunge(uidMsgSet: Option<seq<nat>>, checkDeleted: bool) returns (notes: seq<Note>)
      requires Valid() && (uidMsgSet.Some? ==> Distinct(uidMsgSet.value))
      modifies this
      ensures Valid() && Mail() == Do(old(Mail()), Step.Expunge(Chosen(old(Mail()), uidMsgSet, checkDeleted)))
      ensures Replay(old(uids), notes) == uids && clients == Told(old(clients), notes, {})
      ensures forall before :: AllFollow(old(clients), before, old(uids)) ==> AllFollow(clients, before, uids)
      ensures if NothingToExpunge(old(Mail()), uidMsgSet, checkDeleted)
        then numRecent == old(numRecent) && optionalResync == old(optionalResync)
        else numRecent == CountRecent(Mail().entries) && !optionalResync
    {
      ghost var ix, chosen := Ix(), Chosen(Mail(), uidMsgSet, checkDeleted);
      var none, toDelete := ChooseDeleted(uidMsgSet, checkDeleted);
      if none {
        NothingChosen(ix, chosen);
        ToldNothing(clients, {});
        return [];
      }
      notes := ExpungeThese(toDelete, chosen);
      AllToldFollow(old(clients), notes, ix.lists.uids);
    }

    /** Removes the messages with these keys, tells the clients, and counts anew. */
    method ExpungeThese(toDelete: seq<nat>, ghost chosen: set<nat>) returns (notes: seq<Note>)
      requires Valid() && Descending(toDelete)
      requires forall k :: k in toDelete <==> k in KeysOfUids(Ix().lists, chosen)
      modifies this
      ensures Valid() && Mail() == Do(old(Mail()), Step.Expunge(chosen))
      ensures Replay(old(uids), notes) == uids && clients == Told(old(clients), notes, {})
      ensures numRecent == CountRecent(Mail().entries) && !optionalResync
    {
      ghost var ix := Ix();
      ghost var m;
      notes, m := DeleteMsgs(toDelete, ix, chosen);
      ghost var now := Ix();
      FinishExpunge(toDelete);
      assert Ix() == now.(sequences := sequences);
      ExpungeView(ix, now, toDelete, m, notes, sequences, chosen);
      RecentCounted(now.(sequences := sequences));
    }

    /** What `expunge` does after its loop. */
    method FinishExpunge(deleted: seq<nat>)
      modifies this`keyToIdx, this`uidToIdx, this`sequences, this`numRecent, this`optionalResync
      ensures Indexed() && Cleared(old(sequences), deleted, sequences)
      ensures Ix() == old(Ix()).(sequences := sequences)
      ensures numRecent == |Get(sequences, RECENT)| && !optionalResync
    {
      RebuildIndexDicts();
      ClearSequences(deleted);
      numRecent := |Get(sequences, RECENT)|;
      optionalResync := false;
    }

    // ---------- STORE ----------

    method HelpAddFlag(key: nat, flag: string)
      modifies this`sequences
      ensures Reflagged(old(sequences), key, Add(FlagsOf(old(sequences), key), flag), sequences)
    {
      PutFlags(sequences, flag, key);
      sequences := Put(sequences, flag, key);
      if flag == SEEN {
        DropFlags(sequences, UNSEEN, key);
        sequences := Drop(sequences, UNSEEN, key);
      } else if flag == UNSEEN {
        DropFlags(sequences, SEEN, key);
        sequences := Drop(sequences, SEEN, key);
      }
    }

    method HelpRemoveFlag(key: nat, flag: string)
      modifies this`sequences
      ensures Reflagged(old(sequences), key, Remove(FlagsOf(old(sequences), key), flag), sequences)
    {
      DropFlags(sequences, flag, key);
      sequences := Drop(sequences, flag, key);
      if flag == SEEN {
        PutFlags(sequences, UNSEEN, key);
        sequences := Put(sequences, UNSEEN, key);
      } else if flag == UNSEEN {
        PutFlags(sequences, SEEN, key);
        sequences := Put(sequences, SEEN, key);
      }
    }

    method HelpReplaceFlags(key: nat, flags: seq<string>)
      modifies this`sequences
      ensures Reflagged(old(sequences), key, Replace(FlagsOf(old(sequences), key), flags), sequences)
    {
      var cur, names := FlagsOf(sequences, key), Elements(flags);
      if SEEN !in names {
        names := names + {UNSEEN};
      }
      if RECENT in cur {
        names := names + {RECENT};
      }
      assert names == Replace(cur, flags);
      SetSequencesOf(key, names);
    }

    method StoreOne(key: nat, action: Action, names: seq<string>)
      modifies this`sequences
      ensures Reflagged(old(sequences), key, Stored(action, names, FlagsOf(old(sequences), key)), sequences)
    {
      match action
      case AddFlags =>
        for i := 0 to |names|
          invariant AddAll(FlagsOf(sequences, key), names[i..]) == AddAll(FlagsOf(old(sequences), key), names)
          invariant Reflagged(old(sequences), key, FlagsOf(sequences, key), sequences)
        {
          HelpAddFlag(key, names[i]);
        }
      case RemoveFlags =>
        for i := 0 to |names|
          invariant RemoveAll(FlagsOf(sequences, key), names[i..]) == RemoveAll(FlagsOf(old(sequences), key), names)
          invariant Reflagged(old(sequences), key, FlagsOf(sequences, key), sequences)
        {
          HelpRemoveFlag(key, names[i]);
        }
      case ReplaceFlags =>
        HelpReplaceFlags(key, names);
    }

    /** `[self.msg_keys[x - 1] for x in msg_set]`; None is the IndexError. */
    method LookUp(msgSet: seq<nat>) returns (keys: Option<seq<nat>>)
      requires forall i :: 0 <= i < |msgSet| ==> 1 <= msgSet[i]
      ensures keys.Some? <==> forall i :: 0 <= i < |msgSet| ==> msgSet[i] <= |msgKeys|
      ensures keys.Some? ==> Looked(Ix().lists, msgSet, keys.value)
    {
      var found: seq<nat> := [];
      for i := 0 to |msgSet|
        invariant |found| == i
        invariant forall j :: 0 <= j < i ==> msgSet[j] <= |msgKeys| && found[j] == msgKeys[msgSet[j] - 1]
      {
        if msgSet[i] > |msgKeys| {
          return None;
        }
        found := found + [msgKeys[msgSet[i] - 1]];
      }
      return Some(found);
    }

    /** The body of STORE: changes the flags of each message and collects its FETCH line. */
    method StoreKeys(keys: seq<nat>, action: Action, names: seq<string>) returns (notes: seq<Note>)
      requires Distinct(keys) && forall i :: 0 <= i < |keys| ==> keys[i] in keyToIdx
      modifies this`sequences
      ensures StoredOn(old(sequences), Elements(keys), action, names, sequences)
      ensures |notes| == |keys| && forall i :: 0 <= i < |keys| ==>
        notes[i] == Flagged(keyToIdx[keys[i]] + 1, Stored(action, names, FlagsOf(old(sequences), keys[i])))
    {
      notes := [];
      StoredOnNone(sequences, action, names);
      assert Elements(keys[..0]) == {};
      for i := 0 to |keys|
        invariant StoredOn(old(sequences), Elements(keys[..i]), action, names, sequences)
        invariant |notes| == i && forall j :: 0 <= j < i ==>
          notes[j] == Flagged(keyToIdx[keys[j]] + 1, Stored(action, names, FlagsOf(old(sequences), keys[j])))
      {
        ghost var seqs := sequences;
        assert keys[i] !in keys[..i];
        StoreOne(keys[i], action, names);
        StoredOnMore(old(sequences), Elements(keys[..i]), action, names, seqs, keys[i], sequences);
        TakeNext(keys, i);
        assert Elements(keys[..i + 1]) == Elements(keys[..i]) + {keys[i]};
        notes := notes + [FetchMsgFor(keys[i])];
      }
      TakeAll(keys);
    }

    /** Stores on the messages that were looked up, and overwrites the sequence file. */
    method StoreMsgs(ghost msgSet: seq<nat>, keys: seq<nat>, action: Action, names: seq<string>)
      returns (notes: seq<Note>)
      requires Valid() && Distinct(msgSet) && Looked(Ix().lists, msgSet, keys)
      modifies this`sequences, this`folder
      ensures Valid() && Mail() == Do(old(Mail()), Step.Store(Elements(msgSet), action, names))
      ensures NotesFor(notes, msgSet, Mail().entries)
    {
      ghost var ix := Ix();
      LookedDistinct(ix.lists, msgSet, keys);
      LookedPlaces(ix.lists, msgSet, keys);
      notes := StoreKeys(keys, action, names);
      folder := SetSequences(folder, sequences);
      assert Ix() == Index(SetSequences(ix.folder, sequences), ix.lists, sequences);
      StoreView(ix, msgSet, keys, action, names, sequences);
      StoreNotes(ix, msgSet, keys, action, names, notes);
    }

    /** The lines that STORE returns. */
    method RepliesOf(notes: seq<Note>, ghost msgSet: seq<nat>, uidCmd: bool) returns (replies: seq<Reply>)
      requires Valid() && NotesFor(notes, msgSet, Mail().entries)
      ensures RepliesFor(replies, msgSet, uidCmd, Mail().entries) && NotesOf(replies) == notes
    {
      replies := [];
      ghost var entries := Mail().entries;
      for i := 0 to |notes|
        invariant |replies| == i && Mail().entries == entries
        invariant forall j :: 0 <= j < i ==>
          replies[j].note == notes[j] && replies[j].uid == if uidCmd then Some(entries[msgSet[j] - 1].uid) else None
      {
        assert notes[i].n == msgSet[i] && entries[msgSet[i] - 1].uid == uids[msgSet[i] - 1];
        replies := replies + [Reply(notes[i], if uidCmd then Some(uids[notes[i].n - 1]) else None)];
      }
    }

    method Store(msgSet: seq<nat>, action: Action, flags: seq<string>, uidCmd: bool, dontNotify: set<string>)
      returns (r: Result<seq<Reply>, string>)
      requires Valid() && Distinct(msgSet) && forall i :: 0 <= i < |msgSet| ==> 1 <= msgSet[i]
      modifies this`sequences, this`folder, this`clients
      ensures r.Ok? <==> "\\Recent" !in flags && forall i :: 0 <= i < |msgSet| ==> msgSet[i] <= |msgKeys|
      ensures r.Err? ==> Ix() == old(Ix()) && clients == old(clients)
      ensures r.Ok? ==> Valid() && Mail() == Do(old(Mail()), Step.Store(Elements(msgSet), action, FlagsToSeqs(flags)))
      ensures r.Ok? ==> RepliesFor(r.value, msgSet, uidCmd, Mail().entries)
      ensures r.Ok? ==> DeletedUids(Mail().entries) == DeletedAfter(old(Mail()), Elements(msgSet), action, flags)
      ensures r.Ok? ==> clients == Told(old(clients), NotesOf(r.value), dontNotify)
      ensures forall before :: AllFollow(old(clients), before, uids) ==> AllFollow(clients, before, uids)
    {
      if "\\Recent" in flags {
        return Err("You can not add or remove the '\\Recent' flag");
      }
      var looked := LookUp(msgSet);
      if looked.None? {
        return Err("IndexError");
      }
      ghost var ix := Ix();
      ViewUids(ix);
      StoreDeletes(View(ix), Elements(msgSet), action, flags);
      var notes := StoreMsgs(msgSet, looked.value, action, FlagsToSeqs(flags));
      var replies := RepliesOf(notes, msgSet, uidCmd);
      TellFlags(notes, dontNotify);
      r := Ok(replies);
    }

    /** FETCH lines leave each client's list of the mailbox as it is. */
    method TellFlags(notes: seq<Note>, dontNotify: set<string>)
      requires forall i :: 0 <= i < |notes| ==> notes[i].Flagged?
      modifies this`clients
      ensures clients == Told(old(clients), notes, dontNotify) && Ix() == old(Ix())
      ensures Valid() <==> old(Valid())
      ensures forall before :: AllFollow(old(clients), before, uids) ==> AllFollow(clients, before, uids)
    {
      ghost var ix := Ix();
      DispatchOrPend(notes, dontNotify);
      assert Ix() == ix;
      forall before | AllFollow(old(clients), before, uids) ensures AllFollow(clients, before, uids) {
        FlagNotesFollow(old(clients), notes, dontNotify, before, uids);
      }
    }

    // ---------- FETCH ----------

    /** The loop of FETCH over its messages, which only notes whose flags are to change. */
    method FetchScan(msgSet: seq<nat>, readFlags: bool, readBody: bool)
      returns (r: Result<(set<nat>, set<nat>), string>)
      requires Valid() && forall i :: 0 <= i < |msgSet| ==> 1 <= msgSet[i]
      ensures r.Ok? <==> forall i :: 0 <= i < |msgSet| ==> msgSet[i] <= |msgKeys|
      ensures r.Ok? ==>
        && r.value.0 == Noted(Ix(), msgSet, readFlags, RECENT) && r.value.1 == Noted(Ix(), msgSet, readBody, UNSEEN)
    {
      var recent: set<nat>, unseen: set<nat> := {}, {};
      for i := 0 to |msgSet|
        invariant forall j :: 0 <= j < i ==> msgSet[j] <= |msgKeys|
        invariant recent == Noted(Ix(), msgSet[..i], readFlags, RECENT)
        invariant unseen == Noted(Ix(), msgSet[..i], readBody, UNSEEN)
      {
        if msgSet[i] > |msgKeys| {
          return Err("MailboxInconsistency");
        }
        var key := msgKeys[msgSet[i] - 1];
        NotedNext(Ix(), msgSet, i, readFlags, RECENT);
        NotedNext(Ix(), msgSet, i, readBody, UNSEEN);
        if readFlags && key in Get(sequences, RECENT) {
          recent := recent + {key};
        }
        if readBody && key in Get(sequences, UNSEEN) {
          unseen := unseen + {key};
        }
      }
      TakeAll(msgSet);
      r := Ok((recent, unseen));
    }

    /** Changes the sequences in memory and on disk as FETCH has noted. Messages may have gone since they were noted. */
    method FetchWrite(recent: set<nat>, unseen: set<nat>)
      requires Valid()
      modifies this`sequences, this`folder
      ensures Valid() <==> forall k :: k in unseen ==> k in msgKeys
      ensures Viewable(Ix())
      ensures Mail().entries == Do(old(Mail()), FetchEndOf(Ix().lists, recent, unseen)).entries
      ensures NoneReused(old(Ix()), recent + unseen) ==>
        Mail() == Do(old(Mail()), FetchEndOf(Ix().lists, recent, unseen))
    {
      ghost var ix := Ix();
      var fileSeqs := GetSequences(folder);
      var seen := unseen - Get(sequences, SEEN);
      sequences := Reseen(sequences, recent, unseen, seen);
      folder := SetSequences(folder, Reseen(fileSeqs, recent, unseen, seen));
      assert Ix() == AfterWrite(ix, recent, unseen);
      FetchView(ix, recent, unseen);
    }

    /** The lines for the noted messages; None is the KeyError for one that is not listed. */
    method FetchLines(noted: set<nat>) returns (notes: Option<seq<Note>>)
      requires Indexed()
      ensures notes.Some? <==> forall k :: k in noted ==> k in msgKeys
      ensures notes.Some? ==> LinesFor(notes.value, SortedNats(noted), keyToIdx, sequences)
    {
      var keys := SortedNats(noted);
      SortedNatsAscending(noted);
      PositionsExact(msgKeys);
      var lines: seq<Note> := [];
      for i := 0 to |keys|
        invariant forall j :: 0 <= j < i ==> keys[j] in keyToIdx
        invariant LinesFor(lines, keys[..i], keyToIdx, sequences)
      {
        if keys[i] !in keyToIdx {
          assert keys[i] in keys;
          return None;
        }
        TakeNext(keys, i);
        lines := lines + [FetchMsgFor(keys[i])];
      }
      TakeAll(keys);
      return Some(lines);
    }

    /** The end of FETCH: every client hears of the messages whose flags have changed. If a noted message has gone, the
        writes have been made, and nobody hears of them. */
    method FetchApply(recent: set<nat>, unseen: set<nat>) returns (r: Result<seq<Note>, string>)
      requires Valid()
      modifies this`sequences, this`folder, this`clients
      ensures r.Ok? <==> forall k :: k in recent + unseen ==> k in msgKeys
      ensures Valid() <==> forall k :: k in unseen ==> k in msgKeys
      ensures Viewable(Ix()) && Ix().lists == old(Ix().lists)
      ensures Mail().entries == Do(old(Mail()), FetchEndOf(Ix().lists, recent, unseen)).entries
      ensures NoneReused(old(Ix()), recent + unseen) ==>
        Mail() == Do(old(Mail()), FetchEndOf(Ix().lists, recent, unseen))
      ensures r.Err? ==> clients == old(clients)
      ensures r.Ok? ==> clients == Told(old(clients), r.value, {})
      ensures r.Ok? ==> LinesFor(r.value, SortedNats(recent + unseen), keyToIdx, sequences)
      ensures forall before :: AllFollow(old(clients), before, uids) ==> AllFollow(clients, before, uids)
    {
      ghost var ix := Ix();
      if recent + unseen == {} {
        ToldNothing(clients, {});
        NothingFetched(ix, recent, unseen);
        SortedNatsAscending({});
        return Ok([]);
      }
      FetchWrite(recent, unseen);
      r := FetchTell(recent + unseen);
    }

    /** Every client hears of the noted messages, unless one of them has gone. */
    method FetchTell(noted: set<nat>) returns (r: Result<seq<Note>, string>)
      requires Viewable(Ix()) && Indexed()
      modifies this`clients
      ensures r.Ok? <==> forall k :: k in noted ==> k in msgKeys
      ensures Ix() == old(Ix()) && (Valid() <==> old(Valid()))
      ensures forall before :: AllFollow(old(clients), before, uids) ==> AllFollow(clients, before, uids)
      ensures r.Err? ==> clients == old(clients)
      ensures r.Ok? ==> clients == Told(old(clients), r.value, {})
      ensures r.Ok? ==> LinesFor(r.value, SortedNats(noted), keyToIdx, sequences)
    {
      var notes := FetchLines(noted);
      if notes.Some? {
        TellFlags(notes.value, {});
      }
      r := if notes.Some? then Ok(notes.value) else Err("KeyError");
    }

    // ---------- Pack ----------

    method PackFolder()
      modifies this`folder, this`msgKeys, this`sequences, this`keyToIdx, this`uidToIdx
      ensures Ix() == PackedIndex(old(Ix())) && Indexed()
    {
      ghost var ix := Ix();
      folder := Pack(SetSequences(folder, sequences));
      msgKeys := Keys(folder);
      sequences := GetSequences(folder);
      ghost var packed := PackedIndex(ix);
      assert Ix() == packed;
      RebuildIndexDicts();
      assert Ix() == packed;
    }

    /** Packing presupposes that a resync has just found nothing new: only then does the index stay sound. */
    method PackIfNecessary() returns (packed: bool)
      requires Valid()
      modifies this`folder, this`msgKeys, this`sequences, this`keyToIdx, this`uidToIdx
      ensures packed <==> 100 <= old(numMsgs) && 5 * old(numMsgs) <= 4 * old(msgKeys[|msgKeys| - 1])
      ensures packed ==> msgKeys == Range(1, |old(Keys(folder))|) && uids == old(uids) && Indexed()
      ensures old(Mail()).arrived == [] ==> Valid() && Mail() == old(Mail())
      ensures Parallel(Ix().lists) <==> !packed || old(Mail()).arrived == []
    {
      packed := IsSparse();
      if packed {
        PackAll();
      }
    }

    method PackAll()
      requires Valid()
      modifies this`folder, this`msgKeys, this`sequences, this`keyToIdx, this`uidToIdx
      ensures msgKeys == Range(1, |old(Keys(folder))|) && uids == old(uids) && Indexed()
      ensures old(Mail()).arrived == [] ==> Valid() && Mail() == old(Mail())
      ensures Parallel(Ix().lists) <==> old(Mail()).arrived == []
    {
      ghost var ix := Ix();
      PackFolder();
      PackedEverything(ix);
    }

    /** The two tests at the beginning of `_pack_if_necessary`. */
    method IsSparse() returns (sparse: bool)
      requires Valid()
      ensures sparse <==> 100 <= numMsgs && 5 * numMsgs <= 4 * msgKeys[|msgKeys| - 1]
    {
      NeedsPackIff(Ix().lists);
      if numMsgs < FOLDER_SIZE_PACK_LIMIT {
        return false;
      }
      LastKey(msgKeys);
      return !(numMsgs as real / msgKeys[|msgKeys| - 1] as real > FOLDER_RATIO_PACK_LIMIT);
    }

    // ---------- Message sets ----------

    method MsgSetToMsgSeqSet(msgSet: Option<MsgSet>, fromUids: bool) returns (r: Result<Option<set<nat>>, string>)
      requires Valid()
      ensures r == Ok(None) <==> msgSet == None
      ensures msgSet.Some? ==> (r.Ok? <==> Resolves(msgSet.value, |Mail().entries|, fromUids))
      ensures msgSet.Some? && r.Ok? ==> r.value.Some? && r.value.value == Numbers(Mail().entries, msgSet.value, fromUids)
    {
      if msgSet.None? {
        return Ok(None);
      }
      var seqMax := if fromUids then MaxUid(uids) else numMsgs;
      var list := SequenceSetToList(msgSet.value, seqMax, fromUids);
      ResolvesIff(msgSet.value, seqMax, fromUids);
      if list.Err? {
        return Err(list.error);
      }
      if !fromUids {
        NumbersInRange(Mail().entries, msgSet.value, list.value);
        return Ok(Some(Elements(list.value)));
      }
      var nums := UidsToNumbers(list.value);
      NumbersOfUids(Ix(), msgSet.value, list.value, uidToIdx);
      r := Ok(Some(Elements(nums)));
    }

    /** `[uid_to_idx[uid] + 1 for uid in list if uid in uid_to_idx]`. */
    method UidsToNumbers(list: seq<nat>) returns (nums: seq<nat>)
      requires Valid()
      ensures Elements(nums) == PlacesOf(list, uidToIdx)
      ensures Ascending(list) ==> Ascending(nums)
    {
      nums := [];
      PositionsLocate(uids);
      for i := 0 to |list|
        invariant Elements(nums) == PlacesOf(list[..i], uidToIdx)
        invariant Ascending(list) ==> Ascending(nums)
        invariant NumbersAmong(nums, list[..i], uids)
      {
        NumbersNext(list, i, uidToIdx);
        if list[i] in uidToIdx {
          var n := uidToIdx[list[i]] + 1;
          assert 1 <= n <= |uids| && uids[n - 1] == list[i];
          NumberAfter(list, i, uids, nums, n);
          nums := nums + [n];
        } else {
          NumbersStayAmong(nums, list, i, uids);
        }
      }
      TakeAll(list);
    }

    // ---------- The reading half of COPY ----------

    /** The numbers of the messages to copy, in ascending order. */
    method ResolveForCopy(msgSet: MsgSet, uidCmd: bool) returns (r: Result<seq<nat>, string>)
      requires Valid()
      ensures r.Ok? <==> Mail().entries != [] && Resolves(msgSet, |Mail().entries|, uidCmd)
      ensures r.Ok? ==> Ascending(r.value) && Elements(r.value) == Numbers(Mail().entries, msgSet, uidCmd)
    {
      if msgKeys == [] {
        return Err("IndexError");
      }
      var seqMax := if uidCmd then MaxUid(uids) else |msgKeys|;
      r := SequenceSetToList(msgSet, seqMax, uidCmd);
      ResolvesIff(msgSet, seqMax, uidCmd);
      if r.Err? {
        return;
      }
      if uidCmd {
        NumbersOfUids(Ix(), msgSet, r.value, uidToIdx);
        var nums := UidsToNumbers(r.value);
        r := Ok(nums);
      } else {
        NumbersInRange(Mail().entries, msgSet, r.value);
      }
    }

    method ReadEntries(nums: seq<nat>) returns (r: seq<Entry>)
      requires Viewable(Ix()) && forall i :: 0 <= i < |nums| ==> 1 <= nums[i] <= |msgKeys|
      ensures |r| == |nums| && forall i :: 0 <= i < |nums| ==> r[i] == Mail().entries[nums[i] - 1]
    {
      r := [];
      for i := 0 to |nums|
        invariant |r| == i && forall j :: 0 <= j < i ==> r[j] == Mail().entries[nums[j] - 1]
      {
        var key := msgKeys[nums[i] - 1];
        r := r + [Entry(uids[nums[i] - 1], folder.msgs[key], FlagsOf(sequences, key))];
      }
    }

    /** The messages a COPY reads, with their UIDs and flags. */
    method CopyOut(msgSet: MsgSet, uidCmd: bool) returns (r: Result<seq<Entry>, string>)
      requires Valid()
      ensures r.Ok? <==> Mail().entries != [] && Resolves(msgSet, |Mail().entries|, uidCmd)
      ensures r.Ok? ==> r.value == Picked(Mail().entries, Numbers(Mail().entries, msgSet, uidCmd))
    {
      var nums := ResolveForCopy(msgSet, uidCmd);
      if nums.Err? {
        return Err(nums.error);
      }
      InOrder(nums.value, Numbers(Mail().entries, msgSet, uidCmd));
      var entries := ReadEntries(nums.value);
      ThesePicked(Mail().entries, Numbers(Mail().entries, msgSet, uidCmd), nums.value, entries);
      r := Ok(entries);
    }

    // ---------- The database ----------

    /** Brings the stored rows in line with the sequences, which are not empty: deletes some, writes the others. */
    method WriteSequenceRows(stored: map<string, string>) returns (rows: map<string, string>)
      ensures rows == map n | n in sequences :: CompactSequence(SortedNats(sequences[n]))
    {
      rows := stored - (stored.Keys - sequences.Keys);
      var todo := sequences.Keys;
      while todo != {}
        invariant todo <= sequences.Keys && rows.Keys <= sequences.Keys && sequences.Keys - todo <= rows.Keys
        invariant forall n :: n in rows && n !in todo ==> rows[n] == CompactSequence(SortedNats(sequences[n]))
      {
        var n :| n in todo;
        rows := rows[n := CompactSequence(SortedNats(sequences[n]))];
        todo := todo - {n};
      }
    }

    /** `stored` are this mailbox's rows in the table of sequences. */
    method CommitToDb(stored: map<string, string>) returns (row: Row)
      requires Valid()
      modifies this`sequences
      ensures row == RowOf(Ix().lists, numRecent, old(sequences))
      ensures Valid() && Mail() == old(Mail()) && sequences == NonEmpty(old(sequences))
    {
      DropEmpty();
      var rows := WriteSequenceRows(stored);
      row := Row(nextUid, numMsgs, numRecent, CompactSequence(uids), CompactSequence(msgKeys), rows);
    }

    /** Forgets the sequences that are empty. */
    method DropEmpty()
      requires Valid()
      modifies this`sequences
      ensures Valid() && Mail() == old(Mail()) && sequences == NonEmpty(old(sequences))
    {
      ghost var ix := Ix();
      sequences := NonEmpty(sequences);
      assert Ix() == ix.(sequences := NonEmpty(ix.sequences));
      NonEmptyView(ix);
    }

    method ReadSequenceRows(rows: map<string, string>) returns (ok: bool)
      requires sequences == map[]
      modifies this`sequences
      ensures ok <==> Readable(rows)
      ensures ok ==> sequences == ReadSequences(rows)
    {
      var todo := rows.Keys;
      while todo != {}
        invariant todo <= rows.Keys
        invariant forall n :: n in rows && n !in todo ==> Expanded(rows[n]).Ok?
        invariant forall n :: n in sequences <==> n in rows && n !in todo && !IsBlank(rows[n])
        invariant forall n :: n in sequences ==> sequences[n] == Elements(Expanded(rows[n]).value)
      {
        var n :| n in todo;
        if !IsBlank(rows[n]) {
          var members := ExpandSequence(rows[n]);
          if members.Err? {
            return false;
          }
          sequences := sequences[n := Elements(members.value)];
        }
        todo := todo - {n};
      }
      ok := true;
    }

    /** Reads lists and counters; false is the ValueError. */
    method RestoreLists(row: Row) returns (ok: bool)
      modifies this`msgKeys, this`uids, this`nextUid, this`numMsgs, this`numRecent
      ensures ok <==> Expanded(row.uids).Ok? && Expanded(row.msgKeys).Ok?
      ensures ok ==> var read := Lists(Expanded(row.msgKeys).value, Expanded(row.uids).value, row.nextUid, row.numMsgs);
        numRecent == row.numRecent && Ix().lists == Migrated(read, Keys(folder))
    {
      var us := ExpandSequence(row.uids);
      var ks := ExpandSequence(row.msgKeys);
      if us.Err? || ks.Err? {
        return false;
      }
      nextUid, numMsgs, numRecent, uids, msgKeys := row.nextUid, row.numMsgs, row.numRecent, us.value, ks.value;
      if msgKeys == [] && uids != [] {
        var found := Keys(folder);
        msgKeys := if |uids| <= |found| then found[..|uids|] else found;
        numMsgs := |msgKeys|;
      }
      ok := true;
    }

    /** Reads the record into a new mailbox. On a malformed list of numbers it raises ValueError. */
    method RestoreFromDb(row: Row) returns (r: Result<(), string>)
      requires sequences == map[]
      modifies this`msgKeys, this`uids, this`nextUid, this`numMsgs, this`numRecent, this`sequences,
               this`keyToIdx, this`uidToIdx
      ensures r.Ok? <==> Restored(row, Keys(folder)).Ok?
      ensures r.Ok? ==> Record(Ix().lists, numRecent, sequences) == Restored(row, Keys(folder)).value && Indexed()
    {
      var ok := RestoreLists(row);
      if !ok {
        return Err("ValueError");
      }
      ghost var lists := Ix().lists;
      RestoredOk(row, Keys(folder));
      RebuildIndexDicts();
      ok := ReadSequenceRows(row.sequences);
      assert Ix().lists == lists;
      r := if ok then Ok(()) else Err("ValueError");
    }
  }

  /** Opens a mailbox: reads its record and resyncs. If the record is that of a mailbox which was sound, and to whose
      folder messages have been added since, the result is that mailbox with them listed, under the UIDs due to them. */
  method OpenMailbox(f: Folder, row: Row, late: seq<Delivery>,
                     ghost before: Index, ghost keys: seq<nat>, ghost msgs: seq<Message>)
    returns (r: Result<Mailbox, string>)
    ensures r.Ok? <==> Restored(row, Keys(f)).Ok?
    ensures RecordOf(row, before, f, keys, msgs) ==>
      && r.Ok? && r.value.Valid() && Viewable(before.(folder := f))
      && r.value.Mail() == Do(View(before.(folder := f)), Step.Resync(Came(f, late)))
  {
    var m := new Mailbox(f);
    var restored := m.RestoreFromDb(row);
    if restored.Err? {
      if RecordOf(row, before, f, keys, msgs) { RestartView(row, before, f, keys, msgs); }
      return Err(restored.error);
    }
    if RecordOf(row, before, f, keys, msgs) { RestartView(row, before, f, keys, msgs); }
    var changed, notes := m.CheckNewMsgsAndFlags({}, late);
    r := Ok(m);
  }
}
