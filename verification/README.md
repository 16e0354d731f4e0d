# asimap, modelled in Dafny

asimap is an IMAP and POP3 server over MH folders. Other programs deliver mail into the folders directly, many clients
share one mailbox object, and commands run side by side. This project models the parts where that is hard and proves
what users rely on.

- **The mailbox** (`Mailbox.dfy`). The class `Mailbox` has the fields of the Python object: parallel lists of keys and
  UIDs, counters, sequences, reverse lookups, clients. `Box.dfy` says what a mailbox is to its users: numbered
  messages with UIDs and flags, mail that has arrived but is not listed yet, and the next UID. The methods of the
  class are proved to act as steps of that machine and to keep the representation invariant (`IndexView.Sound`), or it
  is said exactly when they do; the UID guarantees are then proved over every run of the machine. The reasons are in
  `Indexing`, `IndexView`, `Delivering`, `Resyncing`, `Copying`, `Expunging`, `Marking`, `Packing`, `Selecting` and
  `Persist`; `Folder` is the contract of the MH folder, `Flags` the flags of one message, `Notify` what clients hear and
  make of it. `Meaning` says what STORE, EXPUNGE and APPEND do in terms of the flags that clients name.
- **COPY, MOVE, POP3** (`CopyMove`, `Pop3`): protocols over mailboxes whose correctness rests on the run theorems.
- **The command scheduler** (`Admission`, `Scheduler`, `SchedulerSafety`, `SchedulerProgress`, `Requests`,
  `EarlyRelease`): queues, admission and completion over any number of mailboxes and clients; safety, deadlock freedom
  and draining; which commands a request becomes, and what they may run beside.
  `Confluence` and `RunningJobs`: what runs side by side gives one result.
- **The read/write lock** (`RwLock`): the class, and the protocol it implements over any number of tasks.
- **Text and wire formats** (`Text`, `NumberSets`, `SequenceSets`, `Syntax`, `Sections`, `Strings`, `Parser`, `Lines`,
  `DotStuffing`, `Frames`, `Reassembly`): printers, parsers, framing and command reassembly, with their round trips.

Bytes are characters below 256, as `latin-1` decodes them. A message has an identity, which only the proofs use, and a
content; a copy has a new identity and the same content. Awaited windows in which mail can arrive are parameters: in
every resync after it has listed the keys, in APPEND between adding the message and writing the sequences, in COPY after
each copy, in both before their resync. So are the notes that come during the push in `send_pending_notifications`.
Other processes only add messages, under keys above all others, or make the folder shrink.

## What the code does not keep

The model follows the code. Where a promise fails, a lemma names an input and another says exactly when it holds.

- UID EXPUNGE hands message numbers on as UIDs (`Box.UidExpungeIff`, `Box.UidExpungeCanMiss`). One that names nothing
  removes every Deleted message (`Box.UidExpungeOfNothing`, `Box.UidExpungeOfNothingCanRemove`).
- EXPUNGE does not rewrite `.mh_sequences`, against the comment at asimap/mbox.py:219-226. A message that reuses a key
  inherits its marks, even Deleted (`Folder.KeyReusedIff`, `Folder.NewMailCanBeDeleted`).
- STORE, APPEND and every resync that lists something overwrite `.mh_sequences` from memory: mail that has arrived but is
  not in memory becomes Seen, be it there before (`Box.ArrivalIsListed`) or come in the course of the step
  (`Box.InsideIsListed`, `Box.LateMailCanBeSeen`).
- So does packing, against the comment at asimap/mbox.py:1361-1367: such mail ends up in no sequence at all
  (`Packing.PackKeepsMarksIff`, `Packing.PackLosesUnseen`).
- A message that a MOVE removes beside a FETCH that has noted it stays in Seen, and its FETCH fails
  (`Mailbox.Mailbox.FetchApply`, `Marking.GoneKeyIsSeen`, `RunningJobs.FetchOutlivesMessage`).
- Packing while mail is unlisted breaks the parallel lists, the next resync does not notice, and the one after renumbers
  every message (`Mailbox.Mailbox.PackIfNecessary`, `Indexing.PackedTooEarly`).
- `next_uid` can go down after the migration of an old record (`Indexing.NextUidDropsIff`, `Persist.MigratedUidCanDrop`).
- A resync is exact only if messages were added at the end or the count went down (`Indexing.ReindexedExactIff`,
  `Indexing.ReindexedCanBeWrong`).
- STORE can put a message in both Seen and unseen (`Flags.StoredKeepsIff`, `Box.StepKeepsSeenIff`).
- Notes that come while pending ones are being sent are lost (`Notify.DrainedLosesNothingIff`); EXISTS overtakes pending
  EXPUNGEs (`Notify.OvertakenExistsIff`).
- A command whose message set does not resolve, at the first look or after a resync, is dropped and never answered
  (`SchedulerProgress.DrainsIff`, `RunningJobs.SecondLookCanFail`).
- SEARCH does not match reversed ranges, and fails on a leading star (`SequenceSets.SearchAgreesIff`,
  `SequenceSets.SearchCanFail`).
- A quoted string keeps the backslashes that quote (`Strings.QuotedReadsBackIff`, `Strings.QuotedCanDiffer`).
- After the announcement of a literal above the limit the next line is lost, against the comment at
  asimap/server.py:555-556: a client that waits for the go-ahead loses its next command
  (`Reassembly.AnnouncementEatsNextLine`).
- Packing starts at a hundred messages, not at twenty as its documentation at asimap/mbox.py:1343-1347 says
  (`Packing.NeedsPackIff`).
- A keyword that is called like the sequence of a system flag, such as `flagged`, is taken for that flag
  (`Flags.FlagsAreNamed`).

## Model

| member | source | states |
|---|---|---|
| `Mailbox.Mailbox.constructor` | asimap/mbox.py:165-260 | a new mailbox is sound: it lists nothing, its next UID is 1, and everything in the folder counts as arrived |
| `Mailbox.Mailbox.CheckNewMsgsAndFlags` | asimap/mbox.py:995-1280 | from any state the lists become `Indexing.Reindexed` of the keys listed at its start; from a sound index the mailbox afterwards is the same with all arrivals listed, in order, under the next UIDs, and what came after the listing has arrived without its marks, or with them if there was nothing to list; after a shrink everything is new; EXISTS and RECENT go to all clients at once, with the true number of messages and of Recent ones, the FETCH lines of exactly the new messages are told or pended |
| `Mailbox.Mailbox.AdoptSequences` | asimap/mbox.py:1198-1226 | a new message is in the sequences the file says, plus Recent, and in exactly one of Seen and unseen; no other message's sequences change |
| `Mailbox.Mailbox.RebuildIndexDicts` | asimap/mbox.py:1512-1515 | both reverse lookups are those of the present lists, and their exact inverses if these ascend |
| `Mailbox.Mailbox.Resync` | asimap/mbox.py:1077-1231 | after a resync of an index to which only additions happened, whatever arrives in its course, the invariant holds, the mailbox has made the step `Box.Step.Resync`, and the index has grown by exactly the unlisted keys, with consecutive UIDs |
| `Mailbox.Mailbox.Deliver` | asimap/mbox.py:1077-1083 | another process adds a message: the invariant is kept, and the message arrives with its own marks and those the file still holds for its key |
| `Mailbox.Mailbox.PutMessage` | asimap/mbox.py:1936-1951 | before its resync APPEND has added its message with its sequences, and whatever else is not listed has lost its marks |
| `Mailbox.Mailbox.Append` | asimap/mbox.py:1909-1979 | APPEND keeps the invariant and acts as the step `Box.Step.Append`; whatever arrives meanwhile at any of its three awaited windows, its message is listed under the UID it returns, with exactly the flags given, Recent, and unseen unless Seen was given |
| `Mailbox.Mailbox.PutCopies` | asimap/mbox.py:2720-2740 | the copies have arrived in order with the sequences of their originals; earlier arrivals keep their marks, messages that come in between lose them |
| `Mailbox.Mailbox.CopyIn` | asimap/mbox.py:2720-2795 | the writing half of COPY keeps the invariant, acts as the step `Box.Step.CopyIn` whatever arrives after each copy, before and during the resync, and returns exactly the copies' UIDs |
| `Mailbox.Mailbox.CopyOut` | asimap/mbox.py:2606-2664 | the reading half of COPY succeeds exactly for a resolvable set on a non-empty mailbox, and returns exactly the messages the set names, in ascending order: those with the numbers or UIDs in it, `*` being the last message |
| `Mailbox.Mailbox.ChooseDeleted` | asimap/mbox.py:2016-2065 | the keys to delete are those of exactly the chosen UIDs, in descending order, in all three cases |
| `Mailbox.Mailbox.LookUpUids` | asimap/mbox.py:2044-2047 | the lookup of the UIDs of all Deleted messages never fails and yields each one's own UID |
| `Mailbox.Mailbox.PickDeleted` | asimap/mbox.py:2054-2063 | the search by `uids_to_delete.index` picks exactly the Deleted messages with a UID of the list |
| `Mailbox.Mailbox.DeleteOne` | asimap/mbox.py:2086-2100 | one round of the loop, with a lookup made before the loop, deletes the message it means and continues the loop's invariant |
| `Mailbox.Mailbox.Expunge` | asimap/mbox.py:1983-2108 | EXPUNGE removes exactly the chosen messages, keeps order and UIDs of the others and the invariant; replaying its `* n EXPUNGE` lines on the old list of UIDs gives the new one; every client gets these lines, and one that followed the server before follows it after; the number of Recent messages is counted anew, and the next resync is no longer optional, unless nothing was chosen |
| `Mailbox.Mailbox.DispatchOrPend` | asimap/mbox.py:969-991 | every client but the excepted ones gets the notes: at once if it is idling, at the end of its pending ones if not |
| `Mailbox.Mailbox.SendPendingNotifications` | asimap/client.py:385-397 | the pending notes are sent and the list is emptied, together with what came while the push was awaited |
| `Mailbox.Mailbox.HelpAddFlag` | asimap/mbox.py:2429-2442 | adding a flag changes the sequences of this one message, and Seen and unseen exclude each other |
| `Mailbox.Mailbox.HelpRemoveFlag` | asimap/mbox.py:2446-2460 | removing a flag changes the sequences of this one message; removing Seen makes it unseen and the reverse |
| `Mailbox.Mailbox.HelpReplaceFlags` | asimap/mbox.py:2464-2482 | replacing flags changes the sequences of this one message; Recent stays, unseen comes unless Seen is given |
| `Mailbox.Mailbox.Store` | asimap/mbox.py:2486-2563 | STORE fails exactly for Recent or a number out of range, and then changes nothing; else it keeps the invariant, acts as `Box.Step.Store`, leaves Deleted exactly the messages that the action and the flags say, returns one FETCH line for each message with its new flags, with its UID in the UID variant, tells the lines without UIDs to all clients but one, and keeps every client in step |
| `Mailbox.Mailbox.FetchScan` | asimap/mbox.py:2243-2321 | the loop of FETCH notes exactly the named messages that are Recent when flags are read, and unseen when bodies are read |
| `Mailbox.Mailbox.FetchApply` | asimap/mbox.py:2339-2384 | the end of FETCH changes exactly the noted flags of the listed messages; it fails exactly if a noted message has gone, after both writes, and keeps the invariant if and only if all messages noted as unseen are still listed; every client is told the new flags of exactly the noted messages |
| `Mailbox.Mailbox.FetchWrite` | asimap/mbox.py:2342-2355 | the two writes: the invariant holds afterwards if and only if all messages noted as unseen are still listed, and they are the step of the mailbox unless the key of a noted message has been reused |
| `Mailbox.Mailbox.PackIfNecessary` | asimap/mbox.py:1338-1384 | packing happens exactly from a hundred messages on, if at most four in five keys are used; it makes the keys 1..n, keeps the UIDs and, if nothing unlisted had arrived, the whole mailbox; keys and UIDs stay parallel if and only if nothing had arrived |
| `Mailbox.Mailbox.MsgSetToMsgSeqSet` | asimap/mbox.py:611-658 | resolution is sound and complete in both modes: exactly the numbers, or the positions of the UIDs, between the ends of some item, `*` being the last message; and an error exactly if a number set reaches beyond the mailbox, or a UID set holds the single UID 0 |
| `Selecting.StarIsLast` | asimap/mbox.py:623-658 | in a mailbox that is not empty `*` is its last message, for numbers and for UIDs, and `1:*` is every message with a UID above 0 |
| `Selecting.NamedIff` | asimap/utils.py:533-608 | in a mailbox with ascending UIDs, what a set names by the order of its messages is what it denotes when `*` is read as the greatest UID, as the code does |
| `Selecting.ResolvesIff` | asimap/utils.py:556-608 | a set resolves if and only if each of its items passes the range check of the code |
| `Mailbox.Mailbox.CommitToDb` | asimap/mbox.py:1664-1744 | the record written is exactly that of the index, and what users see does not change |
| `Mailbox.Mailbox.RestoreFromDb` | asimap/mbox.py:1598-1644 | a new mailbox takes exactly what the record denotes, or fails exactly if a number list is malformed |
| `Mailbox.OpenMailbox` | asimap/mbox.py:305-340 | opening a mailbox after a restart: if messages have been added to the folder since the record was written, the result is the mailbox of before with them listed, under the UIDs due to them |
| `Indexing.ReindexedUids` | asimap/mbox.py:1112-1186 | whatever a resync finds and however broken the lists are, UIDs stay ascending and below `next_uid`, and no old UID is given out again by it |
| `Indexing.NextUidDropsIff` | asimap/mbox.py:1154-1185 | `next_uid` goes down exactly in one case, which the lists show beforehand |
| `Indexing.NextUidGrows` | asimap/mbox.py:1176-1185 | with parallel lists it never goes down |
| `Indexing.NextUidCanDrop` | asimap/mbox.py:1154-1185 | concrete input on which it goes down |
| `Indexing.ReindexedExactIff` | asimap/mbox.py:1077-1186 | a resync lists exactly the folder's keys if and only if the folder shrank or was only extended |
| `Indexing.ReindexedCanBeWrong` | asimap/mbox.py:1154-1171 | concrete input: with one message gone and another come, a message that has gone stays listed |
| `Indexing.ReindexedExtension` | asimap/mbox.py:1166-1186 | added messages get consecutive UIDs in the order of their keys |
| `Indexing.ReindexedShrunk` | asimap/mbox.py:1110-1126 | a shrunk folder starts anew under UIDs never used before |
| `Indexing.SurplusUidsCut` | asimap/mbox.py:1127-1163 | with more UIDs than keys a resync gives up the first UIDs |
| `Indexing.PackedTooEarly` | asimap/mbox.py:1094-1163 | after a pack that took in unlisted messages a resync notices nothing, and the next arrival makes every message change its UID |
| `Indexing.PositionsLocate` | asimap/mbox.py:1512-1515 | on ascending lists the reverse lookup is the exact inverse |
| `IndexView.ResyncView` | asimap/mbox.py:1166-1231 | listing the unlisted keys with adopted sequences means settling the mailbox, and keeps the invariant |
| `IndexView.RebuildView` | asimap/mbox.py:1110-1126 | the same for a folder that shrank |
| `IndexView.ViewUids` | asimap/mbox.py:192-207 | the invariant gives the users' mailbox ascending UIDs below `next_uid` |
| `IndexView.RecentCounted` | asimap/mbox.py:1233 | the Recent sequence of a sound index has as many members as the mailbox has Recent messages |
| `Expunging.DeletingOne` | asimap/mbox.py:2094-2100 | deleting in descending order keeps the reverse lookup right for all that remain to be deleted, and list, folder and notes in step |
| `Expunging.ExpungeView` | asimap/mbox.py:2066-2108 | when the loop is over, exactly the messages with the chosen UIDs are gone |
| `Expunging.DeletedKeys` | asimap/mbox.py:2043-2047 | the Deleted sequence holds exactly the keys of the listed messages marked Deleted |
| `Expunging.OldPositionRightIff` | asimap/mbox.py:2086-2096 | after one deletion an old position is right if and only if it lies below |
| `Expunging.RepeatedUidDeletesAnother` | asimap/mbox.py:2016-2030 | a repeated UID makes the loop delete another message |
| `Packing.PackView` | asimap/mbox.py:1369-1384 | packing an index of the whole folder makes the keys 1..n and changes nothing a user sees |
| `Packing.NeedsPackIff` | asimap/mbox.py:1338-1360 | the limits in whole numbers: at least 100 messages, and at most four fifths of the keys up to the last in use |
| `Packing.PackKeepsMarksIff` | asimap/mbox.py:1361-1377 | for every message that is not listed when the folder is packed: it is in no sequence afterwards, so that it keeps its marks if and only if it had none |
| `Packing.PackLosesUnseen` | asimap/mbox.py:1361-1377 | concrete input: a sound mailbox that is packed, in which a new message loses its unseen mark |
| `Persist.RestoreCommit` | asimap/mbox.py:1598-1744 | commit then restore returns the same keys, UIDs, counters and non-empty sequences |
| `Persist.RestartView` | asimap/mbox.py:1598-1644 | the restored index means the mailbox of before the restart, with what was added since as arrived |
| `Persist.MigrationRestores` | asimap/mbox.py:1622-1632 | a record without keys, of a mailbox that listed its whole folder and whose folder has only grown since, gets the very keys back that it lacks |
| `Persist.MigratedUidCanDrop` | asimap/mbox.py:1622-1632 | a record in the old form from which the lists are restored whose next resync lowers `next_uid` |
| `Box.RunUids` | asimap/mbox.py:1176-1185 | over every run of deliveries, resyncs, shrinks, appends, copy-ins, expunges, stores and fetches UIDs stay ascending and below `next_uid`, `next_uid` never decreases, and what is below it later carried that UID before |
| `Box.UidNamesOneMessage` | asimap/mbox.py:1166-1186 | between any two moments of a run a UID names one message only, and a UID that has gone does not come back: section 2.3.1.1 of RFC 3501 |
| `Box.RunKeepsMessage` | asimap/mbox.py:1077-1083 | a message keeps its UID through every run until an expunge names that UID or the folder shrinks |
| `Box.StepKeepsSeenIff` | asimap/mbox.py:1207-1214 | every step keeps every message in exactly one of Seen and unseen, except exactly a STORE that replaces the flags of some message by both |
| `Box.ArrivalIsListed` | asimap/mbox.py:1195-1231 | a message that has arrived before a step is listed by the next resync under the due UID, and stays unseen if and only if it was marked so and the step does not overwrite the file |
| `Box.InsideIsListed` | asimap/mbox.py:1087-1231 | a message that arrives inside a step, at any of its windows, is listed under the due UID by this step's resync or the next, and stays unseen if and only if it was marked so and came at a moment after which the file is not overwritten |
| `Box.LateMailCanBeSeen` | asimap/mbox.py:1087-1231 | concrete input: unseen mail that comes while a resync lists another message becomes Seen |
| `Box.UidExpungeIff` | asimap/client.py:1343-1348 | UID EXPUNGE removes what section 2.1 of RFC 4315 asks for, for every choice of messages, if and only if every Deleted message's UID is its number |
| `Box.UidExpungeCanMiss` | asimap/client.py:1343-1348 | concrete input on which it does not |
| `Box.UidExpungeOfNothing` | asimap/client.py:1343-1348 | a UID EXPUNGE that names no message removes every Deleted one |
| `Box.UidExpungeOfNothingCanRemove` | asimap/client.py:1343-1348 | concrete input on which it removes one |
| `Folder.PackKeeps` | asimap/mbox.py:1370-1372 | `MH.pack` renumbers 1..n in order and keeps content and sequences |
| `Folder.KeyReusedIff` | asimap/mbox.py:1937-1938 | when the key of a removed message is given out again |
| `Folder.NewMailCanBeDeleted` | asimap/mbox.py:2101-2107 | EXPUNGE leaves its keys in `.mh_sequences`, so that new mail can arrive marked Deleted |
| `Flags.StoredKeepsIff` | asimap/mbox.py:2429-2482 | STORE keeps Seen and unseen exclusive except exactly when a replacement names both |
| `Flags.ArrivedIsOneOfSeen` | asimap/mbox.py:1198-1214 | a new message is Recent, in exactly one of Seen and unseen, and unseen exactly if it was marked so |
| `Flags.FlagsAreNamed` | asimap/constants.py:66-121 | six system flags and six sequences are each other's names, with Deleted, Seen and Recent for `\Deleted`, `\Seen` and `\Recent`; any other flag is its own; going to the sequence and back fails exactly for keywords called like one of the six sequences |
| `Flags.StoredHas` | asimap/mbox.py:2429-2482 | adding, removing and replacing flags are what they say for every flag but Seen and unseen, except that a replacement leaves Recent alone |
| `Flags.StoredSeen` | asimap/mbox.py:2429-2482 | adding one of Seen and unseen is removing the other, and a replacement that does not name Seen marks the message unseen |
| `Flags.FetchedHas` | asimap/mbox.py:2310-2357 | reading flags ends being Recent, reading the body makes an unseen message Seen, and FETCH changes nothing else |
| `Flags.AfterFetchHas` | asimap/mbox.py:2339-2357 | the end of FETCH takes Recent and unseen from what it noted as such, makes what was unseen Seen, and leaves every other flag |
| `Meaning.StoreDeletes` | asimap/mbox.py:2513-2545 | the messages that are Deleted after a STORE: adding `\Deleted` adds exactly those named, removing it takes exactly those away, replacing by flags with or without it adds them or takes them away, and adding or removing other flags changes nothing |
| `Meaning.ExpungeRemovesDeleted` | asimap/mbox.py:1983-2063 | without a list of UIDs, or with an empty one, EXPUNGE leaves exactly the messages without the mark Deleted |
| `Meaning.ExpungeRemovesListed` | asimap/mbox.py:2016-2063 | with a list it removes exactly those of the list that are marked Deleted, or at the end of a MOVE all of the list |
| `Meaning.MarkedIsExpunged` | asimap/mbox.py:2429-2442 | after STORE +FLAGS (\Deleted) EXPUNGE removes exactly the messages named and those marked before |
| `Meaning.AppendListed` | asimap/mbox.py:1931-1936 | APPEND lists its message under the next UID with exactly the flags given, Recent, and unseen unless Seen was given |
| `Notify.HearFollows` | asimap/mbox.py:976-991 | a client whose sent and pending notes lead to the server's list still does after new notes, pushed or pended |
| `Notify.ToldFollows` | asimap/mbox.py:976-991 | the same for all clients at once |
| `Notify.ToldExactly` | asimap/mbox.py:969-991 | the excepted client keeps what it has; every other one gets all notes after what it has, at once only if it is idling |
| `Notify.PushedExactly` | asimap/mbox.py:1249-1256 | EXISTS and RECENT go to every client at once, idling or not, before what is pending for it |
| `Notify.FlagNotesFollow` | asimap/mbox.py:976-991 | FETCH lines keep every client in step, also those that are not told |
| `Notify.OvertakenExistsIff` | asimap/mbox.py:1249-1253 | an EXISTS pushed at once leaves a client with the announced size if and only if no EXPUNGE was pending |
| `Notify.DrainedLosesNothingIff` | asimap/client.py:395-397 | draining loses nothing if and only if nothing came during the awaited push |
| `CopyMove.Copy` | asimap/mbox.py:2568-2797 | COPY between two mailboxes, or within one: error exactly if the source is empty or the set reaches beyond it, and then no change; else the destination gets exactly the messages that the set names, and both UID lists are returned |
| `CopyMove.CopyPairs` | asimap/mbox.py:2606-2797 | both UID lists have equal length and ascend strictly, new UIDs are at least the old `next_uid`, the i-th destination message has content and flags of the i-th source message plus Recent, and the COPYUID text says exactly this: section 3 of RFC 4315 |
| `CopyMove.MoveRemovesExactly` | asimap/client.py:1663-1702 | whatever happens to the source between the phases, afterwards no message there has the UID of a moved one, and what the last phase removes are the very messages that were copied: section 3.3 of RFC 6851 |
| `CopyMove.CopyStays` | asimap/mbox.py:2720-2797 | each copy, with the content of its original, stays in the destination through every run of steps until one there removes its UID |
| `CopyMove.MoveConserves` | asimap/client.py:1663-1702 | MOVE as a whole with anything else happening to both mailboxes: each resolved message has its copy in the destination unless something else removed that, no message in the source has the UID of a moved one, and nothing else has left the source |
| `CopyMove.MoveWithinConserves` | asimap/client.py:1663-1702 | the same for a MOVE into its own mailbox, whose last phase spares the copies |
| `CopyMove.QuietMoveConserves` | asimap/client.py:1663-1702 | with no interference MOVE to another mailbox keeps the total number of messages |
| `CopyMove.QuietMoveWithinConserves` | asimap/client.py:1663-1702 | with no interference MOVE into the same mailbox keeps their number |
| `Marking.StoreView` | asimap/mbox.py:2513-2545 | changing the sequences of the looked-up keys is the step STORE of the mailbox |
| `Marking.FetchView` | asimap/mbox.py:2339-2357 | what the two writes at the end of FETCH mean, whether or not the noted messages are still there: listed messages change as its step says, the invariant is kept if and only if all messages noted as unseen are listed, and arrivals are left alone unless a noted key has been reused |
| `Marking.GoneKeyIsSeen` | asimap/mbox.py:2348-2353 | a message that has gone while noted as unseen gets into Seen, where only listed ones belong |
| `NumberSets.ExpandSequence` | asimap/utils.py:775-800 | the loop returns the sorted set of all numbers denoted, or the error exactly if an item is malformed |
| `NumberSets.ExpandCompactAscending` | asimap/utils.py:740-800 | expanding a compacted strictly ascending list gives it back |
| `NumberSets.ExpandCompact` | asimap/utils.py:740-800 | for every list it gives its numbers, sorted and without repetitions |
| `NumberSets.ExpandWithoutDigits` | asimap/utils.py:789-800 | a text without digits is an empty sequence exactly if it is blank, and malformed otherwise |
| `NumberSets.UnrunRuns` | asimap/utils.py:740-772 | grouping into runs loses nothing, for every list |
| `NumberSets.RunsJoin` | asimap/utils.py:740-772 | a run ends exactly where the numbers are not consecutive |
| `NumberSets.CompactForm` | asimap/utils.py:740-772 | an unbroken sequence is stored as `a-b`, a single number as itself |
| `NumberSets.ReadFormatCopyUid` | asimap/client.py:1726-1763 | a client that reads the COPYUID text gets exactly both lists, in order, for all lists |
| `NumberSets.FormatRange` | asimap/client.py:1726-1745 | an unbroken list of UIDs is sent as `a:b`, a single one as itself |
| `NumberSets.FormatGap` | asimap/client.py:1726-1745 | lists with a gap between them are sent with a comma between them |
| `NumberSets.CopyUidForm` | asimap/client.py:1747-1763 | the whole response code for two unbroken lists, character by character |
| `SequenceSets.SequenceSetToList` | asimap/utils.py:533-608 | the loop succeeds exactly on sets in range and returns, strictly ascending, exactly the numbers denoted; ranges work in either direction |
| `SequenceSets.SearchMatchExact` | asimap/search.py:420-444 | for every set: SEARCH matches what the unreversed elements before the first leading star denote, and fails on any other message if there is a leading star |
| `SequenceSets.SearchAgrees` | asimap/search.py:552-570 | with ordered pairs and no leading star SEARCH agrees with the commands on every number |
| `SequenceSets.SearchAgreesIff` | asimap/search.py:420-444 | for every set: SEARCH agrees with the commands on all numbers if and only if there is no leading star and each number denoted is denoted by an unreversed element |
| `SequenceSets.SearchAgreesOnPairIff` | asimap/search.py:420-444 | for one pair: if and only if it starts with a number and is ordered |
| `SequenceSets.SearchCanFail` | asimap/search.py:420-444 | concrete input: `3:1` does not find message 2, and a leading star fails |
| `Syntax.ParsePrintedMsgSet` | asimap/parse.py:1810-1876 | parsing the printed text of a non-empty message set, before anything but a digit, comma, colon or star, returns the set and consumes exactly that text |
| `Syntax.TokenChars` | asimap/parse.py:275-295 | the characters of a message set and of an atom, as plain lists |
| `Syntax.LetterCase` | asimap/parse.py:2116-2150 | what comparing without case means: the 26 English letters and no others |
| `Sections.ParsePrintedSection` | asimap/parse.py:1413-1493 | parsing the printed text of a well-formed section returns the section and consumes exactly that text |
| `Sections.ParsedIsSection` | asimap/parse.py:1413-1493 | whatever the input: an accepted section is part numbers and at most one name at the end, MIME only after a number, header lists not empty |
| `Sections.SectionForms` | asimap/parse.py:1413-1493 | the printed forms are those of section 6.4.5 of RFC 3501 |
| `Sections.NumbersOf` | asimap/parse.py:1437-1446 | the leading part numbers are read back, up to the section name |
| `Sections.ItemsRead` | asimap/parse.py:1161-1208 | the printed list of header names is read back |
| `Strings.AtomIsRead` | asimap/parse.py:2004-2010 | an atom is read up to the first character that cannot be in one |
| `Strings.QuotedIsRead` | asimap/parse.py:2030-2035 | a string quoted as in section 4.3 of RFC 3501 is found with its end, whatever it holds, and returned as it was quoted |
| `Strings.QuotedReadsBackIff` | asimap/parse.py:2030-2035 | so the string itself is returned if and only if it holds no quote and no backslash |
| `Strings.QuotedCanDiffer` | asimap/parse.py:2030-2035 | concrete input on which it is not |
| `Strings.LiteralIsRead` | asimap/parse.py:2037-2054 | a literal of n bytes is the next n bytes whatever they are, and is refused if there are fewer |
| `Parser.IMAPClientCommand.PMsgSet` | asimap/parse.py:1810-1876 | the method returns and consumes what the function does, on every input |
| `Parser.IMAPClientCommand.PSection` | asimap/parse.py:1413-1493 | the same for sections |
| `Parser.IMAPClientCommand.PParenList` | asimap/parse.py:1161-1208 | the same for parenthesised lists |
| `Parser.IMAPClientCommand.PSimpleString` | asimap/parse.py:2116-2150 | the same for fixed words, compared without case |
| `DotStuffing.DotStuff` | asimap/pop3_client.py:42-57 | the loop stuffs each line of the data |
| `DotStuffing.ReadStuffed` | asimap/pop3_client.py:424-431 | a client reading stuffed data and terminator gets exactly the data, for every byte string: section 3 of RFC 1939 |
| `DotStuffing.StuffedAddsDots` | asimap/pop3_client.py:42-57 | the data grow by one byte for each line that starts with a dot, and are left alone exactly if there is none |
| `Lines.SplitLinesJoin` | asimap/pop3_client.py:50-57 | splitting at CRLF and joining again is the identity, and no line holds a CRLF |
| `Frames.IMAPClientProxy.Run` | asimap/user_server.py:205-262 | the read loop receives exactly the messages the decoder finds in the stream |
| `Frames.DecodeFramesThen` | asimap/server.py:776-797 | decoding frames gives back exactly the messages, whatever bytes they contain, and then what follows |
| `Frames.FrameForm` | asimap/server.py:776-797 | the frame of one message, character by character |
| `Frames.DecodeFramesIff` | asimap/user_server.py:224-262 | a connection decodes to exactly its messages if and only if none is oversized and the first is not the word that opens a POP3 session |
| `Frames.DecodedAreSmall` | asimap/user_server.py:236-244 | no oversized message is ever accepted |
| `Frames.TenMebibytes` | asimap/user_server.py:236-244 | the limit is 10485760 bytes, inclusive |
| `Frames.LiteralMarkerIff` | asimap/server.py:40-49 | a line announces a literal of n bytes exactly if it ends with `{n}` or `{n+}`, and n in decimal digits |
| `Reassembly.IMAPClient.Start` | asimap/server.py:494-633 | over the whole connection exactly the commands of the specification are forwarded, and the size counter is always that of the buffer |
| `Reassembly.IMAPClient.OneRound` | asimap/server.py:512-633 | the same for one command with its literals |
| `Reassembly.ForwardedIsAccepted` | asimap/server.py:604-633 | what the root server forwards the user process accepts |
| `Reassembly.CommandForwarded` | asimap/server.py:515-633 | a well-formed command with literals is forwarded as it was sent |
| `Reassembly.LargeCommandDropped` | asimap/server.py:604-622 | a command above the limit is dropped when its last line has been read, and the next one is read as usual |
| `Reassembly.LargeLiteralDropped` | asimap/server.py:569-597 | one that a literal makes too large is dropped after this literal |
| `Reassembly.AnnouncementEatsNextLine` | asimap/server.py:538-559 | one that announces a literal above the limit is dropped together with the next line, whatever that is |
| `Reassembly.EmptyLineDropped` | asimap/server.py:516-530 | a blank line is no command |
| `Reassembly.RStripExact` | asimap/server.py:517 | exactly the white space at the end of a line is taken away |
| `RwLock.UpgradeableReadWriteLock.EnterRead` | asimap/utils.py:197-205 | entering a read section is the step of the protocol and keeps its invariant |
| `RwLock.UpgradeableReadWriteLock.ExitRead` | asimap/utils.py:206-218 | leaving it is the step of the protocol and keeps its invariant |
| `RwLock.UpgradeableReadWriteLock.Upgrade` | asimap/utils.py:223-256 | asking to write, as often as wanted in one read section, is the step of the protocol and keeps its invariant |
| `RwLock.UpgradeableReadWriteLock.EndWrite` | asimap/utils.py:257-266 | leaving the write section is the step of the protocol and keeps its invariant |
| `RwLock.StepKeepsInv` | asimap/utils.py:197-266 | every step keeps the counters equal to the true task counts, the writer exclusive, and every wakeup delivered |
| `RwLock.RunKeepsInv` | asimap/utils.py:197-266 | so it is in every state of every run |
| `RwLock.NotStuck` | asimap/utils.py:244-256 | while a task is unfinished some step is enabled |
| `RwLock.RunsEnd` | asimap/utils.py:197-266 | a run that cannot go on has finished every task, however often each one upgrades |
| `RwLock.RunBounded` | asimap/utils.py:197-266 | every run is finite, by a measure |
| `Admission.AdmittedIff` | asimap/mbox.py:378-549 | a command is admitted exactly if it is compatible with all that runs, except that CLOSE and EXPUNGE also wait while messages are Deleted |
| `Admission.OrderMatters` | asimap/mbox.py:461-495 | the relation depends on the order of admission |
| `Admission.MayRunBeside` | asimap/mbox.py:425-549 | what must not be refused: commands that only read may run beside each other, commands on different messages beside each other unless one searches, and NOOP, SELECT, EXAMINE and STATUS beside anything that is not exclusive |
| `Scheduler.OpsDisciplined` | asimap/mbox.py:2677-2709 | early release makes every COPY and MOVE hold nothing when it enters a mailbox, even if source and destination are the same; which commands these are is the subject of `Requests` |
| `Scheduler.ProgramDisciplined` | asimap/parse.py:461-500 | the same for every list of requests of a client |
| `Requests.RunKeepsAsked` | asimap/client.py:1655-1702 | in every state of every run, each task that a mailbox holds is the very command that its client's requests have at its place, in the mailbox they name, and what a client has yet to enter is the rest of them |
| `Requests.CopyIsGuarded` | asimap/mbox.py:435-457 | a running COPY is in its source as a COPY, and shares no message with a running STORE or FETCH of bodies there, whichever was admitted first; in its destination it is an APPEND, alone |
| `Requests.MoveIsGuarded` | asimap/client.py:1655-1702 | a running MOVE is in its source as a MOVE, alone, then in its destination as an APPEND, alone, then in its source as an EXPUNGE beside which nothing is admitted |
| `Requests.SimpleIsItself` | asimap/mbox.py:707-795 | every other request runs as the command it is |
| `Requests.FinishedHasEntered` | asimap/client.py:1655-1702 | a client that has finished has entered every command of every request once: one for each, two for a COPY, three for a MOVE |
| `SchedulerSafety.StepKeepsInv` | asimap/mbox.py:707-823 | every step, dropped commands included, keeps queues in order, running commands compatible in the order of their admission, exclusive commands alone, and no command forgotten |
| `SchedulerSafety.InitInv` | asimap/mbox.py:707-730 | the invariant holds at the start |
| `SchedulerProgress.RunningTogether` | asimap/mbox.py:384-549 | in every reachable state, of any two uncompleted commands of a mailbox in the order of admission: no APPEND, CHECK, DELETE, MOVE or RENAME is among them and nothing follows a CLOSE or EXPUNGE; STORE runs with no SEARCH and no STORE, FETCH or COPY of a common message; a FETCH of bodies with no SEARCH, no COPY of a common message, and after no FETCH of one |
| `SchedulerProgress.DrainedBeforeAdmission` | asimap/mbox.py:584-598 | when the last resync is too long ago, the next command is admitted only when nothing runs, after a resync |
| `SchedulerProgress.WaitersHoldNothing` | asimap/client.py:1655-1701 | no command waiting for a mailbox is uncompleted in the executing list of another |
| `SchedulerProgress.NotStuck` | asimap/mbox.py:728-823 | while any client is unfinished whose command has not been dropped some step is enabled, whatever message sets the others have: opposite COPYs and MOVEs never deadlock |
| `SchedulerProgress.StepDecreases` | asimap/mbox.py:728-795 | every progress step uses up remaining work |
| `SchedulerProgress.RunsDrain` | asimap/mbox.py:728-823 | a run has at most as many steps as there is work, and cannot go on if and only if every client has finished or had its command dropped |
| `SchedulerProgress.ClientFinishes` | asimap/mbox.py:728-823 | in every run that cannot go on, a client whose sets are valid has finished, and one with an invalid set has not, whatever the others did |
| `SchedulerProgress.CanDrain` | asimap/mbox.py:728-823 | from every state with the invariant some run reaches its end |
| `SchedulerProgress.DrainsIff` | asimap/mbox.py:761-823 | for every client: it finishes in every run that cannot go on if and only if all its own message sets are valid at both looks |
| `EarlyRelease.HoldingDeadlocks` | asimap/mbox.py:2677-2687 | without early release two opposite MOVEs reach a state in which neither can go on |
| `Confluence.RunOutcome` | asimap/mbox.py:2310-2353 | however admitted STOREs and FETCHes interleave, every message ends with flags that do not depend on it |
| `Confluence.Confluent` | asimap/mbox.py:461-549 | any two complete interleavings give the same sequences |
| `RunningJobs.RunningAreAdmitted` | asimap/mbox.py:750-795 | the STOREs and FETCHes a mailbox runs in a reachable state are admitted jobs |
| `RunningJobs.RunningConfluent` | asimap/mbox.py:461-549 | so they are confluent |
| `RunningJobs.StoreIsRunStore` | asimap/mbox.py:2526-2545 | a job's STORE is the mailbox's step |
| `RunningJobs.FetchEndIsFinish` | asimap/mbox.py:2339-2353 | a job's end of FETCH is the mailbox's step |
| `RunningJobs.FetchOutlivesMessage` | asimap/mbox.py:384-549 | concrete input: an EXPUNGE is admitted beside a FETCH, and the end of FETCH then breaks the invariant |
| `RunningJobs.SecondLookFails` | asimap/mbox.py:761-793 | a set that resolves at the first look and not after the resync consists of message numbers, and the mailbox has become smaller |
| `RunningJobs.SecondLookCanFail` | asimap/mbox.py:761-793 | concrete input on which that happens |
| `Pop3.POP3CommandHandler.constructor` | asimap/pop3_client.py:306-314 | the snapshot is the inbox's messages and UIDs, with nothing marked |
| `Pop3.POP3CommandHandler.DoDele` | asimap/pop3_client.py:436-445 | DELE marks exactly a number of the snapshot that is not marked yet, and answers `-ERR` otherwise, so also to a second DELE |
| `Pop3.POP3CommandHandler.DoRset` | asimap/pop3_client.py:556-560 | RSET unmarks all |
| `Pop3.POP3CommandHandler.DoQuit` | asimap/pop3_client.py:449-473 | QUIT expunges the snapshot UIDs of the marked numbers |
| `Pop3.MarkedIff` | asimap/pop3_client.py:336-350 | a number is marked exactly if a DELE named it since the last RSET |
| `Pop3.QuitRemovesExactly` | asimap/pop3_client.py:449-473 | after any session interleaved with anything on the inbox, QUIT removes exactly the messages that were in the snapshot under a marked number and still carry that UID: section 6 of RFC 1939 |
| `Pop3.NoQuitNoEffect` | asimap/pop3_client.py:449-455 | without QUIT the inbox is as if there had been no session |

## Left out

- Sockets, TLS, subprocesses, sqlite, files, logging, tracing, statistics, timeouts and password hashing: input and output or foreign code.
- MIME rendering, envelopes, body structure, dates, LIST patterns: they rest on libraries or are easy.
- Skipping a resync because file times are unchanged: it depends on file clocks. A resync always looks at the folder.
- The attributes Marked, Unmarked and Noselect, subscription and special-use flags, and the UID validity value of a mailbox.
- `delete` and renaming of the inbox: they leave the reverse lookups stale, so that the invariant does not hold there.
- A folder that shrinks: it is resynced before any other command uses it; commands that run into the gap raise errors.
- Cancellation, command timeouts and disconnects in the middle of a command.
- Methods are atomic apart from the windows named above; what may interleave is the subject of the scheduler and of `Confluence`.
- Mailbox.Mailbox.Expunge: asks for a list without repeated UIDs, as all callers give; `Expunging.RepeatedUidDeletesAnother` says what a repeated one would do.
- Mailbox.Mailbox.CommitToDb: the record is without attributes, subscription, UID validity and times; other operations end with a commit, which the model has as a step of its own.
- Mailbox.Mailbox.RestoreFromDb: the same fields are not restored.
- Mailbox.Mailbox.CheckNewMsgsAndFlags: always looks at the folder, and leaves out the attribute Marked and the commit at the end.
- Mailbox.OpenMailbox: always resyncs; a mailbox with Noselect, which is not resynced, is not modelled.
- The idle branch of the management task, which resyncs and packs only after finding nothing executing, and the choice of its timeout.
- The clock of `command_can_proceed`: that the last resync is too long ago is an event of the surroundings.
- `msg_set_as_set` after a wait: the set that admission uses may be out of date; the scheduler model lets it be any set. Whether a message set resolves at the first and at the second look is given with each request.
- Pop3.POP3CommandHandler.DoQuit: calls `expunge` without the command queue, as the code does; what may run beside it is not modelled.
- POP3 RETR, TOP, STAT, LIST and UIDL: RETR and TOP use snapshot keys, which packing renumbers; the others only read.
- Pop3.POP3CommandHandler.DoDele: message numbers are plain ASCII digits; Python's `int` also takes signs, blanks, underscores and other digits.
- Pop3.MarkedIff: the same restriction on number spellings.
- NumberSets.ExpandSequence: the same holds for the items of a sequence string.
- RwLock.RunKeepsInv: what RwLock.StepKeepsInv leaves out.
- RwLock.StepKeepsInv: no cancellation, and not the two errors of a task that asks to write without a read section or inside its write section.
- Frames.IMAPClientProxy.Run: the first part of the loop only; what is done with a received message is not part of this model.
- Reassembly.IMAPClient.Start: commands before authentication, the connection to the user process and the replies to the client are not modelled.
- Reassembly.IMAPClient.OneRound: says what is forwarded, not which BAD and continuation replies the client gets.
- Sections.ParsePrintedSection: header names that need quoting are not printed by the code in a form it can read, so they are not well-formed here.
