/** COPY and MOVE between mailboxes: pairing of messages and UIDs, and conservation. */
module CopyMove {
  import opened Base
  import NumberSets
  import opened SequenceSets
  import opened Flags
  import opened Folder
  import opened Box
  import opened IndexView
  import opened Delivering
  import opened Copying
  import opened Selecting
  import M = Mailbox

  /** Copies are new messages with the content and sequences of their originals. */
  function CopiesOf(picked: seq<Entry>, firstId: nat): (copies: seq<Arrival>)
    ensures |copies| == |picked|
    ensures forall i :: 0 <= i < |picked| ==>
      copies[i] == Arrival(Message(firstId + i, picked[i].msg.content), picked[i].flags)
  {
    seq(|picked|, i requires 0 <= i < |picked| =>
      Arrival(Message(firstId + i, picked[i].msg.content), picked[i].flags))
  }

  /** What comes between the copies: `window(i)` right after copy i. */
  function Windows(window: nat -> seq<Delivery>, n: nat): (windows: seq<seq<Delivery>>)
    ensures |windows| == n
  {
    seq(n, i requires 0 <= i < n => window(i))
  }

  /** The destination after the copies of `picked` have come in. */
  function CopiedTo(dst: Box, picked: seq<Entry>, firstId: nat, windows: seq<seq<Arrival>>, between: seq<Arrival>,
                    late: seq<Arrival>): Box
    requires |windows| == |picked|
  {
    Do(dst, Step.CopyIn(CopiesOf(picked, firstId), windows, between, late))
  }

  /** COPY: reads from the source, then writes to the destination, which may be the same mailbox. */
  method Copy(src: M.Mailbox, dst: M.Mailbox, msgSet: MsgSet, uidCmd: bool, firstId: nat,
              window: nat -> seq<Delivery>, between: seq<Delivery>, late: seq<Delivery>)
    returns (r: Result<(seq<nat>, seq<nat>), string>)
    requires src.Valid() && dst.Valid()
    modifies dst
    ensures dst.Valid()
    ensures r.Ok? <==>
      old(src.Mail()).entries != [] && Resolves(msgSet, |old(src.Mail()).entries|, uidCmd)
    ensures r.Err? ==> dst.Ix() == old(dst.Ix())
    ensures r.Ok? ==>
      var picked := Picked(old(src.Mail()).entries, Numbers(old(src.Mail()).entries, msgSet, uidCmd));
      var windows := WindowsOf(Windows(window, |picked|));
      && dst.Mail() == CopiedTo(old(dst.Mail()), picked, firstId, windows, ArrivalsOf(between), ArrivalsOf(late))
      && r.value == (Uids(picked), CopyUids(DueUid(old(dst.Mail())), windows))
  {
    var read := src.CopyOut(msgSet, uidCmd);
    if read.Err? {
      return Err(read.error);
    }
    var dstUids := dst.CopyIn(CopiesOf(read.value, firstId), Windows(window, |read.value|), between, late);
    r := Ok((Uids(read.value), dstUids));
  }

  // ---------- Pairing ----------

  /** A message that is in exactly one of Seen and unseen arrives with its own flags and Recent. */
  lemma ArrivesWithItsFlagsIff(flags: Names)
    ensures Flags.Arrived(flags) == flags + {RECENT} <==> OneOfSeen(flags)
  {
    NamesDiffer();
    assert UNSEEN in Flags.Arrived(flags) <==> UNSEEN in flags;
    assert SEEN in Flags.Arrived(flags) <==> UNSEEN !in flags;
    assert SEEN in flags + {RECENT} <==> SEEN in flags;
  }

  lemma {:induction false} OffsetGrows(windows: seq<seq<Arrival>>, i: nat, j: nat)
    requires i < j <= |windows|
    ensures Offset(windows, i) < Offset(windows, j)
    decreases j
  {
    if i < j - 1 { OffsetGrows(windows, i, j - 1); }
  }

  lemma {:induction false} InterleaveAt(copies: seq<Arrival>, windows: seq<seq<Arrival>>, i: nat)
    requires |copies| == |windows| && i < |copies|
    ensures Offset(windows, i) < |Interleave(copies, windows)|
    ensures Interleave(copies, windows)[Offset(windows, i)] == copies[i]
    decreases |copies|
  {
    if i > 0 {
      InterleaveAt(copies[1..], windows[1..], i - 1);
      OffsetOfTail(windows, i - 1);
      AfterPrefix([copies[0]] + Unmarked(windows[0]), Interleave(copies[1..], windows[1..]), Offset(windows[1..], i - 1));
    }
  }

  lemma AfterPrefix<T>(prefix: seq<T>, rest: seq<T>, i: nat)
    requires i < |rest|
    ensures (prefix + rest)[|prefix| + i] == rest[i]
  {
  }

  /** The i-th source message and the i-th destination UID belong together: that UID now names a message with the same
      content, and the same flags plus Recent. */
  ghost predicate Paired(picked: seq<Entry>, dstUids: seq<nat>, dst: Box, i: nat)
    requires i < |picked| && i < |dstUids|
  {
    exists e :: e in dst.entries && e.uid == dstUids[i]
      && e.msg.content == picked[i].msg.content && e.flags == Flags.Arrived(picked[i].flags)
  }

  /** Copy i stands where it should among the new entries. */
  lemma CopyAt(dst: Box, picked: seq<Entry>, firstId: nat, windows: seq<seq<Arrival>>, between: seq<Arrival>,
               late: seq<Arrival>, i: nat)
    requires |windows| == |picked| && i < |picked|
    ensures var copy := CopiesOf(picked, firstId)[i];
      Entry(CopyUids(DueUid(dst), windows)[i], copy.msg, Flags.Arrived(copy.marks))
        in CopiedTo(dst, picked, firstId, windows, between, late).entries
  {
    var copies := CopiesOf(picked, firstId);
    var mixed := Interleave(copies, windows);
    var at := |dst.arrived| + Offset(windows, i);
    InterleaveAt(copies, windows, i);
    AfterPrefix(dst.arrived, mixed, Offset(windows, i));
    var found := dst.arrived + mixed + between;
    assert found[at] == copies[i];
    var new_ := Number(found, dst.nextUid);
    AfterPrefix(dst.entries, new_, at);
    assert new_[at] in dst.entries + new_;
  }

  /** COPY pairs correctly: the UID lists have equal length and ascend strictly, new UIDs lie above all old ones, and
      the i-th message of one list is the copy of the i-th of the other. The COPYUID text says exactly this. */
  lemma CopyPairs(src: Box, dst: Box, nums: set<nat>, firstId: nat, windows: seq<seq<Arrival>>, between: seq<Arrival>,
                  late: seq<Arrival>, uidValidity: nat)
    requires UidsOk(src) && SeenOk(src) && forall n :: n in nums ==> 1 <= n <= |src.entries|
    requires |windows| == |Picked(src.entries, nums)|
    ensures var picked := Picked(src.entries, nums);
      var dstUids := CopyUids(DueUid(dst), windows);
      && |dstUids| == |picked| && Ascending(Uids(picked)) && Ascending(dstUids)
      && (forall i :: 0 <= i < |dstUids| ==> dstUids[i] >= dst.nextUid)
      && (forall i :: 0 <= i < |picked| ==> Flags.Arrived(picked[i].flags) == picked[i].flags + {RECENT})
      && (forall i :: 0 <= i < |picked| ==>
            Paired(picked, dstUids, CopiedTo(dst, picked, firstId, windows, between, late), i))
      && NumberSets.ReadCopyUid(NumberSets.FormatCopyUid(uidValidity, Uids(picked), dstUids))
            == Some(NumberSets.CopyUid(uidValidity, Uids(picked), dstUids))
  {
    var picked := Picked(src.entries, nums);
    var dstUids := CopyUids(DueUid(dst), windows);
    PickedUids(src, nums);
    forall i, j | 0 <= i < j < |dstUids| ensures dstUids[i] < dstUids[j] { OffsetGrows(windows, i, j); }
    forall i | 0 <= i < |picked|
      ensures Flags.Arrived(picked[i].flags) == picked[i].flags + {RECENT}
      ensures Paired(picked, dstUids, CopiedTo(dst, picked, firstId, windows, between, late), i)
    {
      PickedFrom(src, nums, i);
      ArrivesWithItsFlagsIff(picked[i].flags);
      CopyAt(dst, picked, firstId, windows, between, late, i);
    }
    NumberSets.ReadFormatCopyUid(uidValidity, Uids(picked), dstUids);
  }

  lemma PickedFrom(src: Box, nums: set<nat>, i: nat)
    requires forall n :: n in nums ==> 1 <= n <= |src.entries|
    requires i < |Picked(src.entries, nums)|
    ensures SortedNats(nums)[i] in nums && Picked(src.entries, nums)[i] == src.entries[SortedNats(nums)[i] - 1]
  {
    SortedNatsAscending(nums);
    assert SortedNats(nums)[i] in SortedNats(nums);
  }

  lemma PickedUids(src: Box, nums: set<nat>)
    requires UidsOk(src) && forall n :: n in nums ==> 1 <= n <= |src.entries|
    ensures Ascending(Uids(Picked(src.entries, nums)))
    ensures forall e :: e in Picked(src.entries, nums) ==> e in src.entries
  {
    var picked, list := Picked(src.entries, nums), SortedNats(nums);
    SortedNatsAscending(nums);
    forall i | 0 <= i < |picked| ensures picked[i] in src.entries { PickedFrom(src, nums, i); }
    forall i, j | 0 <= i < j < |picked| ensures Uids(picked)[i] < Uids(picked)[j] {
      PickedFrom(src, nums, i);
      PickedFrom(src, nums, j);
      assert Less(list, i, j);
      assert Less(Uids(src.entries), list[i] - 1, list[j] - 1);
    }
  }

  // ---------- MOVE ----------

  /** The source when the last phase of a MOVE is over: `steps` is what happened to it since the first. */
  function MovedFrom(src: Box, picked: seq<Entry>, steps: seq<Step>): Box
    requires forall i :: 0 <= i < |steps| ==> Enabled(steps[i])
  {
    Do(Run(src, steps), Step.Expunge(Chosen(Run(src, steps), Some(Uids(picked)), false)))
  }

  ghost predicate AmongPicked(e: Entry, picked: seq<Entry>) {
    exists p :: p in picked && p.uid == e.uid && p.msg == e.msg
  }

  /** Whatever happens to the source between the phases: afterwards no message is there under the UID of a moved one,
      all other messages that were there still are, and what the last phase removes is the very message that was
      copied. */
  lemma MoveRemovesExactly(src: Box, picked: seq<Entry>, steps: seq<Step>)
    requires UidsOk(src) && (forall i :: 0 <= i < |steps| ==> Enabled(steps[i]))
    requires forall e :: e in picked ==> e in src.entries
    ensures var before, after := Run(src, steps).entries, MovedFrom(src, picked, steps).entries;
      && (forall e :: e in after ==> e in before && e.uid !in Uids(picked))
      && (forall e :: e in before && e !in after ==> AmongPicked(e, picked))
  {
    var now, uids := Run(src, steps), Uids(picked);
    WithoutHas(now.entries, Elements(uids));
    forall e | e in now.entries && e.uid in Elements(uids) ensures AmongPicked(e, picked) {
      MovedMessage(src, picked, steps, e);
    }
  }

  /** A message still found under the UID of a picked one is that very message. */
  lemma MovedMessage(src: Box, picked: seq<Entry>, steps: seq<Step>, e: Entry)
    requires UidsOk(src) && (forall i :: 0 <= i < |steps| ==> Enabled(steps[i]))
    requires forall p :: p in picked ==> p in src.entries
    requires e in Run(src, steps).entries && e.uid in Uids(picked)
    ensures AmongPicked(e, picked)
  {
    var i :| 0 <= i < |picked| && Uids(picked)[i] == e.uid;
    assert picked[i] in picked;
    UidNamesOneMessage(src, steps, picked[i], e);
  }

  lemma {:induction false} WithoutSize(entries: seq<Entry>, uids: set<nat>)
    requires InUidOrder(entries) && forall u :: u in uids ==> exists e :: e in entries && e.uid == u
    ensures |Without(entries, uids)| + |uids| == |entries|
  {
    if entries == [] {
      assert uids == {};
    } else {
      var rest, others := entries[1..], uids - {entries[0].uid};
      assert forall e :: e in rest ==> e.uid != entries[0].uid;
      forall u | u in others ensures exists e :: e in rest && e.uid == u {
        var e :| e in entries && e.uid == u;
        assert e in rest;
      }
      WithoutSize(rest, others);
      WithoutSame(rest, uids, others);
    }
  }

  lemma {:induction false} InterleaveSize(copies: seq<Arrival>, windows: seq<seq<Arrival>>)
    requires |copies| == |windows| && forall i :: 0 <= i < |windows| ==> windows[i] == []
    ensures |Interleave(copies, windows)| == |copies|
  {
    if copies != [] { InterleaveSize(copies[1..], windows[1..]); }
  }

  lemma DistinctSize(uids: seq<nat>)
    requires Ascending(uids)
    ensures |Elements(uids)| == |uids|
    decreases |uids|
  {
    if uids != [] {
      var rest, last := uids[..|uids| - 1], uids[|uids| - 1];
      LastIsNew(uids);
      DistinctSize(rest);
      assert uids == rest + [last];
      assert Elements(uids) == Elements(rest) + {last};
    }
  }

  /** A copy stays in the destination until something there removes its UID. */
  lemma CopyStays(dst: Box, picked: seq<Entry>, firstId: nat, windows: seq<seq<Arrival>>, between: seq<Arrival>,
                  late: seq<Arrival>, steps: seq<Step>, i: nat)
    requires |windows| == |picked| && i < |picked|
    requires forall j :: 0 <= j < |steps| ==> Enabled(steps[j]) && !Removes(steps[j], CopyUids(DueUid(dst), windows)[i])
    ensures Present(Run(CopiedTo(dst, picked, firstId, windows, between, late), steps),
                    CopyUids(DueUid(dst), windows)[i], CopiesOf(picked, firstId)[i].msg)
  {
    CopyAt(dst, picked, firstId, windows, between, late, i);
    RunKeepsMessage(CopiedTo(dst, picked, firstId, windows, between, late), steps, CopyUids(DueUid(dst), windows)[i],
                    CopiesOf(picked, firstId)[i].msg);
  }

  /** MOVE as a whole, with anything else happening to both mailboxes between its phases: every moved message has its
      copy in the destination, unless something else there has removed that UID; no message is left in the source under
      the UID of a moved one; and whatever else was in the source still is. */
  lemma MoveConserves(src: Box, dst: Box, nums: set<nat>, firstId: nat, windows: seq<seq<Arrival>>,
                      between: seq<Arrival>, late: seq<Arrival>, srcSteps: seq<Step>, dstSteps: seq<Step>)
    requires UidsOk(src) && forall n :: n in nums ==> 1 <= n <= |src.entries|
    requires |windows| == |Picked(src.entries, nums)|
    requires forall i :: 0 <= i < |srcSteps| ==> Enabled(srcSteps[i])
    requires forall i :: 0 <= i < |dstSteps| ==> Enabled(dstSteps[i])
    ensures var picked, dstUids := Picked(src.entries, nums), CopyUids(DueUid(dst), windows);
      var before, after := Run(src, srcSteps).entries, MovedFrom(src, picked, srcSteps).entries;
      && (forall i :: 0 <= i < |picked| && (forall j :: 0 <= j < |dstSteps| ==> !Removes(dstSteps[j], dstUids[i])) ==>
            Present(Run(CopiedTo(dst, picked, firstId, windows, between, late), dstSteps), dstUids[i],
                    Message(firstId + i, picked[i].msg.content)))
      && (forall e :: e in after ==> e in before && e.uid !in Uids(picked))
      && (forall e :: e in before && e !in after ==> AmongPicked(e, picked))
  {
    var picked, dstUids := Picked(src.entries, nums), CopyUids(DueUid(dst), windows);
    PickedUids(src, nums);
    MoveRemovesExactly(src, picked, srcSteps);
    forall i | 0 <= i < |picked| && forall j :: 0 <= j < |dstSteps| ==> !Removes(dstSteps[j], dstUids[i])
      ensures Present(Run(CopiedTo(dst, picked, firstId, windows, between, late), dstSteps), dstUids[i],
                      Message(firstId + i, picked[i].msg.content))
    {
      CopyStays(dst, picked, firstId, windows, between, late, dstSteps, i);
    }
  }

  /** A MOVE into its own mailbox: the copies come in first, and the last phase expunges the originals. */
  function MovedWithin(b: Box, picked: seq<Entry>, firstId: nat, windows: seq<seq<Arrival>>, between: seq<Arrival>,
                       late: seq<Arrival>, steps: seq<Step>): Box
    requires |windows| == |picked| && forall i :: 0 <= i < |steps| ==> Enabled(steps[i])
  {
    MovedFrom(CopiedTo(b, picked, firstId, windows, between, late), picked, steps)
  }

  /** There, too, each copy survives the last phase, and no original does. */
  lemma MoveWithinConserves(b: Box, nums: set<nat>, firstId: nat, windows: seq<seq<Arrival>>, between: seq<Arrival>,
                            late: seq<Arrival>, steps: seq<Step>, i: nat)
    requires UidsOk(b) && (forall n :: n in nums ==> 1 <= n <= |b.entries|)
    requires |windows| == |Picked(b.entries, nums)| && i < |windows|
    requires forall j :: 0 <= j < |steps| ==> Enabled(steps[j])
    ensures var picked, uid := Picked(b.entries, nums), CopyUids(DueUid(b), windows)[i];
      var after := MovedWithin(b, picked, firstId, windows, between, late, steps);
      && (forall e :: e in after.entries ==> e.uid !in Uids(picked))
      && ((forall j :: 0 <= j < |steps| ==> !Removes(steps[j], uid)) ==>
            Present(after, uid, Message(firstId + i, picked[i].msg.content)))
  {
    var picked, uid := Picked(b.entries, nums), CopyUids(DueUid(b), windows)[i];
    var now := Run(CopiedTo(b, picked, firstId, windows, between, late), steps);
    var last := Step.Expunge(Chosen(now, Some(Uids(picked)), false));
    WithoutHas(now.entries, Elements(Uids(picked)));
    PickedBelow(b, nums);
    if forall j :: 0 <= j < |steps| ==> !Removes(steps[j], uid) {
      CopyStays(b, picked, firstId, windows, between, late, steps, i);
      StepKeepsMessage(now, last, uid, Message(firstId + i, picked[i].msg.content));
    }
  }

  lemma PickedBelow(b: Box, nums: set<nat>)
    requires UidsOk(b) && forall n :: n in nums ==> 1 <= n <= |b.entries|
    ensures forall u :: u in Uids(Picked(b.entries, nums)) ==> u < b.nextUid
  {
    var picked := Picked(b.entries, nums);
    PickedUids(b, nums);
    forall u | u in Uids(picked) ensures u < b.nextUid {
      var i :| 0 <= i < |picked| && Uids(picked)[i] == u;
      assert picked[i] in picked;
      HasUid(b, picked[i]);
    }
  }

  // ---------- Nothing else happens ----------

  ghost predicate Quiet(windows: seq<seq<Arrival>>) {
    forall i :: 0 <= i < |windows| ==> windows[i] == []
  }

  lemma QuietCopy(dst: Box, picked: seq<Entry>, firstId: nat, windows: seq<seq<Arrival>>)
    requires dst.arrived == [] && |windows| == |picked| && Quiet(windows)
    ensures var now := CopiedTo(dst, picked, firstId, windows, [], []);
      |now.entries| == |dst.entries| + |picked| && forall e :: e in dst.entries ==> e in now.entries
  {
    InterleaveSize(CopiesOf(picked, firstId), windows);
  }

  /** Removing messages that are there makes the mailbox smaller by so many. */
  lemma ExpungedSize(b: Box, now: Box, nums: set<nat>)
    requires UidsOk(b) && UidsOk(now) && forall n :: n in nums ==> 1 <= n <= |b.entries|
    requires forall e :: e in b.entries ==> e in now.entries
    ensures var picked := Picked(b.entries, nums);
      |Without(now.entries, Elements(Uids(picked)))| + |picked| == |now.entries|
  {
    var picked := Picked(b.entries, nums);
    PickedAmong(b, now, nums);
    WithoutSize(now.entries, Elements(Uids(picked)));
    PickedUids(b, nums);
    DistinctSize(Uids(picked));
  }

  /** When nothing else happens, MOVE changes where messages are, not how many. */
  lemma QuietMoveConserves(src: Box, dst: Box, nums: set<nat>, firstId: nat, windows: seq<seq<Arrival>>)
    requires UidsOk(src) && (forall n :: n in nums ==> 1 <= n <= |src.entries|) && dst.arrived == []
    requires |windows| == |Picked(src.entries, nums)| && Quiet(windows)
    ensures var picked := Picked(src.entries, nums);
      && |MovedFrom(src, picked, []).entries| + |picked| == |src.entries|
      && |CopiedTo(dst, picked, firstId, windows, [], []).entries| == |dst.entries| + |picked|
  {
    ExpungedSize(src, src, nums);
    QuietCopy(dst, Picked(src.entries, nums), firstId, windows);
  }

  /** Nor does a MOVE into its own mailbox. */
  lemma QuietMoveWithinConserves(b: Box, nums: set<nat>, firstId: nat, windows: seq<seq<Arrival>>)
    requires UidsOk(b) && (forall n :: n in nums ==> 1 <= n <= |b.entries|) && b.arrived == []
    requires |windows| == |Picked(b.entries, nums)| && Quiet(windows)
    ensures |MovedWithin(b, Picked(b.entries, nums), firstId, windows, [], [], []).entries| == |b.entries|
  {
    var picked := Picked(b.entries, nums);
    CopiedUids(b, picked, firstId, windows);
    QuietCopy(b, picked, firstId, windows);
    ExpungedSize(b, CopiedTo(b, picked, firstId, windows, [], []), nums);
    MovedQuietly(CopiedTo(b, picked, firstId, windows, [], []), picked);
  }

  lemma CopiedUids(b: Box, picked: seq<Entry>, firstId: nat, windows: seq<seq<Arrival>>)
    requires UidsOk(b) && |windows| == |picked|
    ensures UidsOk(CopiedTo(b, picked, firstId, windows, [], []))
  {
    StepUids(b, Step.CopyIn(CopiesOf(picked, firstId), windows, [], []));
  }

  lemma MovedQuietly(b: Box, picked: seq<Entry>)
    ensures MovedFrom(b, picked, []).entries == Without(b.entries, Elements(Uids(picked)))
  {
  }

  /** The picked messages are among the entries of a mailbox that still has them all. */
  lemma PickedAmong(b: Box, now: Box, nums: set<nat>)
    requires UidsOk(b) && UidsOk(now) && forall n :: n in nums ==> 1 <= n <= |b.entries|
    requires forall e :: e in b.entries ==> e in now.entries
    ensures InUidOrder(now.entries)
    ensures forall u :: u in Elements(Uids(Picked(b.entries, nums))) ==> exists e :: e in now.entries && e.uid == u
  {
    var picked := Picked(b.entries, nums);
    PickedUids(b, nums);
    forall u | u in Elements(Uids(picked)) ensures exists e :: e in now.entries && e.uid == u {
      var i :| 0 <= i < |picked| && Uids(picked)[i] == u;
      assert picked[i] in picked;
    }
    forall i, j | 0 <= i < j < |now.entries| ensures now.entries[i].uid < now.entries[j].uid {
      assert Less(Uids(now.entries), i, j);
    }
  }
}
