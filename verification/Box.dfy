/** What a mailbox is to its users: a list of messages with UIDs and flags. Every operation of the mailbox index is
    proved to act as the corresponding step of this machine; here are the UID guarantees of its runs. */
module Box {
  import opened Base
  import opened Flags
  import opened Folder

  datatype Entry = Entry(uid: nat, msg: Message, flags: Names)

  /** A message on disk that the index does not list yet, with the sequences the file puts it in. */
  datatype Arrival = Arrival(msg: Message, marks: Names)

  datatype Box = Box(entries: seq<Entry>, arrived: seq<Arrival>, nextUid: nat)

  function Uids(entries: seq<Entry>): (uids: seq<nat>)
    ensures |uids| == |entries| && forall i :: 0 <= i < |entries| ==> uids[i] == entries[i].uid
  {
    seq(|entries|, i requires 0 <= i < |entries| => entries[i].uid)
  }

  /** Arrivals receive consecutive UIDs from `uid` on, and become Recent, and Seen unless marked unseen. */
  function Number(arrivals: seq<Arrival>, uid: nat): (entries: seq<Entry>)
    ensures |entries| == |arrivals|
    ensures forall i :: 0 <= i < |arrivals| ==>
      entries[i] == Entry(uid + i, arrivals[i].msg, Flags.Arrived(arrivals[i].marks))
  {
    seq(|arrivals|, i requires 0 <= i < |arrivals| =>
      Entry(uid + i, arrivals[i].msg, Flags.Arrived(arrivals[i].marks)))
  }

  function Settle(b: Box): Box {
    Box(b.entries + Number(b.arrived, b.nextUid), [], b.nextUid + |b.arrived|)
  }

  /** The sequence file has been overwritten from memory: marks on messages not yet listed are gone. */
  function Unmarked(arrivals: seq<Arrival>): (r: seq<Arrival>)
    ensures |r| == |arrivals|
    ensures forall i :: 0 <= i < |arrivals| ==> r[i] == Arrival(arrivals[i].msg, {})
  {
    seq(|arrivals|, i requires 0 <= i < |arrivals| => Arrival(arrivals[i].msg, {}))
  }

  /** The entries whose UID is not in `uids`. */
  function Without(entries: seq<Entry>, uids: set<nat>): seq<Entry> {
    if entries == [] then []
    else if entries[0].uid in uids then Without(entries[1..], uids)
    else [entries[0]] + Without(entries[1..], uids)
  }

  lemma {:induction false} WithoutHas(entries: seq<Entry>, uids: set<nat>)
    ensures forall e :: e in Without(entries, uids) <==> e in entries && e.uid !in uids
  {
    if entries != [] { WithoutHas(entries[1..], uids); }
  }

  /** STORE on the messages numbered in `msgSet`, counting from 1. */
  function StoreAll(entries: seq<Entry>, msgSet: set<nat>, action: Action, flags: seq<string>): (r: seq<Entry>)
    ensures |r| == |entries|
    ensures forall i :: 0 <= i < |entries| ==> r[i] == entries[i].(flags :=
      if i + 1 in msgSet then Stored(action, flags, entries[i].flags) else entries[i].flags)
  {
    seq(|entries|, i requires 0 <= i < |entries| => entries[i].(flags :=
      if i + 1 in msgSet then Stored(action, flags, entries[i].flags) else entries[i].flags))
  }

  /** The end of a FETCH that noted these messages as no longer recent and no longer unseen. */
  function FetchAll(entries: seq<Entry>, recent: set<nat>, unseen: set<nat>): (r: seq<Entry>)
    ensures |r| == |entries|
    ensures forall i :: 0 <= i < |entries| ==> r[i] == entries[i].(flags :=
      AfterFetch(entries[i].flags, i + 1 in recent, i + 1 in unseen))
  {
    seq(|entries|, i requires 0 <= i < |entries| => entries[i].(flags :=
      AfterFetch(entries[i].flags, i + 1 in recent, i + 1 in unseen)))
  }

  /** The sequences APPEND puts its message in. */
  function AppendMarks(flags: seq<string>): Names {
    Elements(flags) + {RECENT} + if SEEN in flags then {} else {UNSEEN}
  }

  /** Copies reach the folder one by one; `during[i]` arrives from outside right after copy i, and loses its marks
      when the copies' sequences are written. */
  function Interleave(copies: seq<Arrival>, during: seq<seq<Arrival>>): seq<Arrival>
    requires |copies| == |during|
  {
    if copies == [] then [] else [copies[0]] + Unmarked(during[0]) + Interleave(copies[1..], during[1..])
  }

  function DeletedUids(entries: seq<Entry>): set<nat> {
    set e | e in entries && DELETED in e.flags :: e.uid
  }

  /** What the three cases of `expunge` remove: exactly the given UIDs; or what is marked Deleted; or what is both. An
      empty list counts as none. */
  function Chosen(b: Box, uids: Option<seq<nat>>, checkDeleted: bool): set<nat> {
    if !checkDeleted then (if uids.None? then {} else Elements(uids.value))
    else if uids.None? || uids.value == [] then DeletedUids(b.entries)
    else DeletedUids(b.entries) * Elements(uids.value)
  }

  /** When `expunge` returns at once: nothing is marked Deleted, or a MOVE names no list. */
  predicate NothingToExpunge(b: Box, uids: Option<seq<nat>>, checkDeleted: bool) {
    if checkDeleted then DeletedUids(b.entries) == {} else uids.None?
  }

  /** Where copy i stands among what `Interleave` yields. */
  function Offset(during: seq<seq<Arrival>>, i: nat): nat
    requires i <= |during|
  {
    if i == 0 then 0 else Offset(during, i - 1) + 1 + |during[i - 1]|
  }

  lemma {:induction false} InterleaveSnoc(copies: seq<Arrival>, during: seq<seq<Arrival>>, i: nat)
    requires |copies| == |during| && i < |copies|
    ensures Interleave(copies[..i + 1], during[..i + 1])
      == Interleave(copies[..i], during[..i]) + ([copies[i]] + Unmarked(during[i]))
  {
    if i == 0 {
      assert copies[..1] == [copies[0]] && during[..1] == [during[0]];
      assert copies[..1][1..] == [] && during[..1][1..] == [];
    } else {
      InterleaveSnoc(copies[1..], during[1..], i - 1);
      assert copies[..i + 1][1..] == copies[1..][..i] && during[..i + 1][1..] == during[1..][..i];
      assert copies[..i][1..] == copies[1..][..i - 1] && during[..i][1..] == during[1..][..i - 1];
    }
  }

  /** How many of the messages are Recent. */
  function CountRecent(entries: seq<Entry>): nat {
    |set i | 0 <= i < |entries| && RECENT in entries[i].flags|
  }

  // ---------- Steps and runs ----------

  datatype Step =
    /** An outside process adds a message. */
    | Deliver(arrival: Arrival)
    /** A resync finds that messages were only added; `late` arrives after it has listed the keys of the folder. */
    | Resync(late: seq<Arrival>)
    /** A resync finds that the folder shrank: what is there is treated as new. */
    | Rebuild(all: seq<Arrival>, late: seq<Arrival>)
    /** `during` arrives before the sequences of the new message are written, `between` after that and before the keys
        are listed by the resync, `late` after that. */
    | Append(msg: Message, flags: seq<string>, during: seq<Arrival>, between: seq<Arrival>, late: seq<Arrival>)
    /** The same; `windows[i]` arrives right after copy i, and before the sequences are written. */
    | CopyIn(copies: seq<Arrival>, windows: seq<seq<Arrival>>, between: seq<Arrival>, late: seq<Arrival>)
    | Expunge(uids: set<nat>)
    | Store(msgSet: set<nat>, action: Action, names: seq<string>)
    | FetchEnd(recent: set<nat>, unseen: set<nat>)

  ghost predicate Enabled(step: Step) {
    step.CopyIn? ==> |step.copies| == |step.windows|
  }

  function WithMore(b: Box, more: seq<Arrival>): Box {
    b.(arrived := b.arrived + more)
  }

  /** What has arrived once APPEND's message has been added and the sequence file has been overwritten. */
  function WithAppended(b: Box, msg: Message, names: Names, during: seq<Arrival>): Box {
    b.(arrived := Unmarked(b.arrived) + [Arrival(msg, names)] + Unmarked(during))
  }

  /** A resync that finds something new lists it and overwrites the sequence file; one that does not leaves it alone. */
  function Relist(b: Box, late: seq<Arrival>): Box {
    if b.arrived == [] then b.(arrived := late) else Settle(b).(arrived := Unmarked(late))
  }

  function Do(b: Box, step: Step): Box
    requires Enabled(step)
  {
    match step
    case Deliver(arrival) => b.(arrived := b.arrived + [arrival])
    case Resync(late) => Relist(b, late)
    case Rebuild(all, late) => Settle(Box([], all, b.nextUid)).(arrived := Unmarked(late))
    case Append(msg, flags, during, between, late) =>
      Relist(WithMore(WithAppended(b, msg, AppendMarks(flags), during), between), late)
    case CopyIn(copies, windows, between, late) =>
      Relist(WithMore(WithMore(b, Interleave(copies, windows)), between), late)
    case Expunge(uids) => b.(entries := Without(b.entries, uids))
    case Store(msgSet, action, names) =>
      b.(entries := StoreAll(b.entries, msgSet, action, names), arrived := Unmarked(b.arrived))
    case FetchEnd(recent, unseen) => b.(entries := FetchAll(b.entries, recent, unseen))
  }

  function Run(b: Box, steps: seq<Step>): Box
    requires forall i :: 0 <= i < |steps| ==> Enabled(steps[i])
    decreases |steps|
  {
    if steps == [] then b else Run(Do(b, steps[0]), steps[1..])
  }

  // ---------- UIDs ----------

  /** The UID that the next message to be added will get. */
  function DueUid(b: Box): nat {
    b.nextUid + |b.arrived|
  }

  /** UIDs strictly ascend and lie below the next one. */
  ghost predicate UidsOk(b: Box) {
    && Ascending(Uids(b.entries))
    && forall i :: 0 <= i < |b.entries| ==> b.entries[i].uid < b.nextUid
  }

  /** Nothing below the old `next_uid` is given out again: what carries such a UID later carried it before. */
  ghost predicate Stable(b: Box, b': Box) {
    && b.nextUid <= b'.nextUid
    && forall e' :: e' in b'.entries && e'.uid < b.nextUid ==>
         exists e :: e in b.entries && e.uid == e'.uid && e.msg == e'.msg
  }

  lemma SettleUids(b: Box)
    requires UidsOk(b)
    ensures UidsOk(Settle(b)) && Stable(b, Settle(b))
  {
    var entries := Settle(b).entries;
    assert forall i :: |b.entries| <= i < |entries| ==> entries[i].uid == b.nextUid + (i - |b.entries|);
    assert forall i :: 0 <= i < |b.entries| ==> entries[i] == b.entries[i] && Uids(b.entries)[i] < b.nextUid;
    forall i, j | 0 <= i < j < |entries| ensures Uids(entries)[i] < Uids(entries)[j] {
      if j < |b.entries| { assert Less(Uids(b.entries), i, j); }
    }
  }

  /** Entries ascend by UID. */
  ghost predicate InUidOrder(entries: seq<Entry>) {
    forall i, j :: 0 <= i < j < |entries| ==> entries[i].uid < entries[j].uid
  }

  lemma {:induction false} WithoutInOrder(entries: seq<Entry>, uids: set<nat>)
    requires InUidOrder(entries)
    ensures InUidOrder(Without(entries, uids))
  {
    if entries != [] {
      WithoutInOrder(entries[1..], uids);
      WithoutHas(entries[1..], uids);
      assert forall e :: e in Without(entries[1..], uids) ==> e in entries[1..];
      assert forall e :: e in entries[1..] ==> entries[0].uid < e.uid;
    }
  }

  lemma WithoutUids(entries: seq<Entry>, uids: set<nat>)
    requires Ascending(Uids(entries))
    ensures Ascending(Uids(Without(entries, uids)))
  {
    assert InUidOrder(entries) by {
      forall i, j | 0 <= i < j < |entries| ensures entries[i].uid < entries[j].uid {
        assert Less(Uids(entries), i, j);
      }
    }
    WithoutInOrder(entries, uids);
  }

  /** Relisting what has come to a mailbox. */
  lemma RelistUids(b: Box, more: Box, late: seq<Arrival>)
    requires UidsOk(b) && more.entries == b.entries && more.nextUid == b.nextUid
    ensures UidsOk(Relist(more, late)) && Stable(b, Relist(more, late))
  {
    SettleUids(more);
  }

  lemma RebuildUids(b: Box, all: seq<Arrival>, late: seq<Arrival>)
    ensures var b' := Settle(Box([], all, b.nextUid)).(arrived := Unmarked(late)); UidsOk(b') && Stable(b, b')
  {
    SettleUids(Box([], all, b.nextUid));
  }

  lemma ExpungeUids(b: Box, uids: set<nat>)
    requires UidsOk(b)
    ensures var b' := b.(entries := Without(b.entries, uids)); UidsOk(b') && Stable(b, b')
  {
    var rest := Without(b.entries, uids);
    WithoutUids(b.entries, uids);
    WithoutHas(b.entries, uids);
    assert forall i :: 0 <= i < |rest| ==> rest[i] in b.entries;
  }

  lemma StepUids(b: Box, step: Step)
    requires UidsOk(b) && Enabled(step)
    ensures UidsOk(Do(b, step)) && Stable(b, Do(b, step))
  {
    match step
    case Deliver(arrival) => SameUids(b, b.(arrived := b.arrived + [arrival]));
    case Resync(late) => RelistUids(b, b, late);
    case Rebuild(all, late) => RebuildUids(b, all, late);
    case Append(msg, flags, during, between, late) =>
      var more := WithMore(WithAppended(b, msg, AppendMarks(flags), during), between);
      assert Do(b, step) == Relist(more, late);
      RelistUids(b, more, late);
    case CopyIn(copies, windows, between, late) =>
      var more := WithMore(WithMore(b, Interleave(copies, windows)), between);
      assert Do(b, step) == Relist(more, late);
      RelistUids(b, more, late);
    case Expunge(uids) => ExpungeUids(b, uids);
    case Store(_, _, _) => SameUids(b, Do(b, step));
    case FetchEnd(_, _) => SameUids(b, Do(b, step));
  }

  lemma SameUids(b: Box, b': Box)
    requires UidsOk(b) && |b'.entries| == |b.entries| && b'.nextUid == b.nextUid
    requires forall i :: 0 <= i < |b.entries| ==>
      b'.entries[i].uid == b.entries[i].uid && b'.entries[i].msg == b.entries[i].msg
    ensures UidsOk(b') && Stable(b, b')
  {
    assert Uids(b'.entries) == Uids(b.entries);
    forall e' | e' in b'.entries ensures exists e :: e in b.entries && e.uid == e'.uid && e.msg == e'.msg {
      var i :| 0 <= i < |b'.entries| && b'.entries[i] == e';
      assert b.entries[i] in b.entries;
    }
  }

  lemma StableTransitive(a: Box, b: Box, c: Box)
    requires Stable(a, b) && Stable(b, c)
    ensures Stable(a, c)
  {
    forall e' | e' in c.entries && e'.uid < a.nextUid
      ensures exists e :: e in a.entries && e.uid == e'.uid && e.msg == e'.msg
    {
      var e'' :| e'' in b.entries && e''.uid == e'.uid && e''.msg == e'.msg;
      var e :| e in a.entries && e.uid == e''.uid && e.msg == e''.msg;
    }
  }

  /** Over every run: UIDs stay ascending and below `next_uid`, `next_uid` never decreases, and no UID that was ever
      given out names another message later. */
  lemma {:induction false} RunUids(b: Box, steps: seq<Step>)
    requires UidsOk(b) && forall i :: 0 <= i < |steps| ==> Enabled(steps[i])
    ensures UidsOk(Run(b, steps)) && Stable(b, Run(b, steps))
    decreases |steps|
  {
    if steps == [] {
      assert forall e :: e in b.entries ==> e.uid == e.uid && e.msg == e.msg;
    } else {
      StepUids(b, steps[0]);
      RunUids(Do(b, steps[0]), steps[1..]);
      StableTransitive(b, Do(b, steps[0]), Run(b, steps));
    }
  }

  /** The UID guarantee of section 2.3.1.1 of RFC 3501, between any two moments of a run: a UID refers to one message
      for ever, and once its message has gone it never comes back. */
  lemma UidNamesOneMessage(b: Box, steps: seq<Step>, e: Entry, e': Entry)
    requires UidsOk(b) && forall i :: 0 <= i < |steps| ==> Enabled(steps[i])
    requires e' in Run(b, steps).entries
    ensures e in b.entries && e'.uid == e.uid ==> e'.msg == e.msg
    ensures e'.uid < b.nextUid ==> e'.uid in Uids(b.entries)
  {
    RunUids(b, steps);
    if e'.uid < b.nextUid {
      var o :| o in b.entries && o.uid == e'.uid && o.msg == e'.msg;
      HasUid(b, o);
      if e in b.entries && e.uid == e'.uid { OneEntryPerUid(b, e, o); }
    } else if e in b.entries {
      HasUid(b, e);
    }
  }

  lemma HasUid(b: Box, e: Entry)
    requires UidsOk(b) && e in b.entries
    ensures e.uid in Uids(b.entries) && e.uid < b.nextUid
  {
    var i :| 0 <= i < |b.entries| && b.entries[i] == e;
    assert Uids(b.entries)[i] == e.uid;
  }

  lemma OneEntryPerUid(b: Box, e: Entry, o: Entry)
    requires UidsOk(b) && e in b.entries && o in b.entries && e.uid == o.uid
    ensures e == o
  {
    var i :| 0 <= i < |b.entries| && b.entries[i] == e;
    var j :| 0 <= j < |b.entries| && b.entries[j] == o;
    assert if i < j then Less(Uids(b.entries), i, j) else j < i ==> Less(Uids(b.entries), j, i);
  }

  // ---------- Messages stay ----------

  ghost predicate Present(b: Box, uid: nat, msg: Message) {
    exists e :: e in b.entries && e.uid == uid && e.msg == msg
  }

  predicate Removes(step: Step, uid: nat) {
    step.Rebuild? || (step.Expunge? && uid in step.uids)
  }

  lemma StaysAt(b: Box, b': Box, i: nat)
    requires i < |b.entries| && i < |b'.entries|
    requires b'.entries[i].uid == b.entries[i].uid && b'.entries[i].msg == b.entries[i].msg
    ensures Present(b', b.entries[i].uid, b.entries[i].msg)
  {
    assert b'.entries[i] in b'.entries;
  }

  lemma StepKeepsMessage(b: Box, step: Step, uid: nat, msg: Message)
    requires Enabled(step) && Present(b, uid, msg) && !Removes(step, uid)
    ensures Present(Do(b, step), uid, msg)
  {
    var e :| e in b.entries && e.uid == uid && e.msg == msg;
    var i :| 0 <= i < |b.entries| && b.entries[i] == e;
    if step.Expunge? {
      WithoutHas(b.entries, step.uids);
    } else {
      StaysAt(b, Do(b, step), i);
    }
  }

  /** A message keeps its UID through every run, until an expunge names that UID or the folder shrinks. */
  lemma {:induction false} RunKeepsMessage(b: Box, steps: seq<Step>, uid: nat, msg: Message)
    requires (forall i :: 0 <= i < |steps| ==> Enabled(steps[i]) && !Removes(steps[i], uid)) && Present(b, uid, msg)
    ensures Present(Run(b, steps), uid, msg)
    decreases |steps|
  {
    if steps != [] {
      StepKeepsMessage(b, steps[0], uid, msg);
      RunKeepsMessage(Do(b, steps[0]), steps[1..], uid, msg);
    }
  }

  // ---------- Seen and unseen ----------

  /** Every message is in exactly one of Seen and unseen. */
  ghost predicate SeenOk(b: Box) {
    forall i :: 0 <= i < |b.entries| ==> OneOfSeen(b.entries[i].flags)
  }

  predicate NamesBoth(step: Step) {
    step.Store? && step.action == ReplaceFlags && SEEN in step.names && UNSEEN in step.names
  }

  lemma SettleKeepsSeen(b: Box)
    requires SeenOk(b)
    ensures SeenOk(Settle(b))
  {
    var after := Settle(b);
    forall i | 0 <= i < |after.entries| ensures OneOfSeen(after.entries[i].flags) {
      if i >= |b.entries| { ArrivedIsOneOfSeen(b.arrived[i - |b.entries|].marks); }
    }
  }

  /** Every step keeps that, except a STORE that replaces the flags of some message by both Seen and unseen. */
  lemma StepKeepsSeenIff(b: Box, step: Step)
    requires Enabled(step) && SeenOk(b)
    ensures SeenOk(Do(b, step)) <==>
      !(NamesBoth(step) && exists n :: n in step.msgSet && 1 <= n <= |b.entries|)
  {
    NamesDiffer();
    match step
    case Deliver(_) =>
    case Resync(_) => SettleKeepsSeen(b);
    case Rebuild(all, _) => SettleKeepsSeen(Box([], all, b.nextUid));
    case Append(msg, flags, during, between, _) =>
      SettleKeepsSeen(WithMore(WithAppended(b, msg, AppendMarks(flags), during), between));
    case CopyIn(copies, windows, between, _) =>
      SettleKeepsSeen(WithMore(WithMore(b, Interleave(copies, windows)), between));
    case Expunge(uids) =>
      WithoutHas(b.entries, uids);
      assert forall i :: 0 <= i < |Do(b, step).entries| ==> Do(b, step).entries[i] in b.entries;
    case Store(msgSet, action, names) =>
      var after := Do(b, step).entries;
      forall i | 0 <= i < |b.entries| ensures OneOfSeen(after[i].flags) <==> !(NamesBoth(step) && i + 1 in msgSet) {
        StoredKeepsIff(action, names, b.entries[i].flags);
      }
      if NamesBoth(step) && exists n :: n in msgSet && 1 <= n <= |b.entries| {
        var n :| n in msgSet && 1 <= n <= |b.entries|;
        assert !OneOfSeen(after[n - 1].flags);
      }
    case FetchEnd(_, _) =>
  }

  // ---------- What becomes of new mail ----------

  /** These steps overwrite the sequence file from memory, which knows nothing of the messages that arrived before. */
  predicate LosesMarks(step: Step) {
    step.Store? || step.Append?
  }

  ghost predicate ListedAs(entries: seq<Entry>, uid: nat, msg: Message, unseen: bool) {
    exists e :: e in entries && e.uid == uid && e.msg == msg && (UNSEEN in e.flags <==> unseen)
  }

  lemma ListedAt(entries: seq<Entry>, k: nat, uid: nat, msg: Message, marks: Names)
    requires k < |entries| && entries[k] == Entry(uid, msg, Flags.Arrived(marks))
    ensures ListedAs(entries, uid, msg, UNSEEN in marks)
  {
    ArrivedIsOneOfSeen(marks);
    assert entries[k] in entries;
  }

  /** Whatever step comes first, a message that has arrived is listed by the next resync under the UID that was due to
      it; and it is unseen if and only if its deliverer marked it so and the step did not overwrite the file. */
  lemma ArrivalIsListed(b: Box, step: Step, i: nat)
    requires Enabled(step) && !step.Rebuild? && i < |b.arrived|
    ensures ListedAs(Settle(Do(b, step)).entries, b.nextUid + i, b.arrived[i].msg,
                     UNSEEN in b.arrived[i].marks && !LosesMarks(step))
  {
    var k := (if step.Expunge? then |Without(b.entries, step.uids)| else |b.entries|) + i;
    ListedAt(Settle(Do(b, step)).entries, k, b.nextUid + i, b.arrived[i].msg,
             if LosesMarks(step) then {} else b.arrived[i].marks);
  }

  // ---------- Mail that arrives inside a step ----------

  /** A moment inside a step at which mail arrives, and its place among what arrives there. */
  datatype Moment = During(i: nat) | AfterCopy(copy: nat, i: nat) | Between(i: nat) | Late(i: nat)

  predicate HasMoment(step: Step, w: Moment)
    requires Enabled(step)
  {
    match w
    case During(i) => step.Append? && i < |step.during|
    case AfterCopy(copy, i) => step.CopyIn? && copy < |step.windows| && i < |step.windows[copy]|
    case Between(i) => (step.Append? || step.CopyIn?) && i < |step.between|
    case Late(i) => (step.Resync? || step.Rebuild? || step.Append? || step.CopyIn?) && i < |step.late|
  }

  function ArrivesThen(step: Step, w: Moment): Arrival
    requires Enabled(step) && HasMoment(step, w)
  {
    match w
    case During(i) => step.during[i]
    case AfterCopy(copy, i) => step.windows[copy][i]
    case Between(i) => step.between[i]
    case Late(i) => step.late[i]
  }

  /** The messages a step's resync finds besides those listed, in order. */
  function FoundBy(b: Box, step: Step): seq<Arrival>
    requires Enabled(step)
  {
    match step
    case Rebuild(all, _) => all
    case Append(msg, flags, during, between, _) =>
      WithMore(WithAppended(b, msg, AppendMarks(flags), during), between).arrived
    case CopyIn(copies, windows, between, _) => WithMore(WithMore(b, Interleave(copies, windows)), between).arrived
    case _ => b.arrived
  }

  /** The UID it gets. */
  function DueThen(b: Box, step: Step, w: Moment): nat
    requires Enabled(step) && HasMoment(step, w)
  {
    match w
    case During(i) => b.nextUid + |b.arrived| + 1 + i
    case AfterCopy(copy, i) => b.nextUid + |b.arrived| + Offset(step.windows, copy) + 1 + i
    case Between(i) => b.nextUid + |FoundBy(b, step)| - |step.between| + i
    case Late(i) => b.nextUid + |FoundBy(b, step)| + i
  }

  /** Marks survive between the writing of the sequences and the listing of the keys, and after that exactly if the
      resync finds nothing to list, and so does not write. */
  predicate KeepsMarks(b: Box, step: Step, w: Moment)
    requires Enabled(step) && HasMoment(step, w)
  {
    w.Between? || (w.Late? && !step.Rebuild? && FoundBy(b, step) == [])
  }

  lemma {:induction false} InterleaveWindow(copies: seq<Arrival>, during: seq<seq<Arrival>>, copy: nat, i: nat)
    requires |copies| == |during| && copy < |during| && i < |during[copy]|
    ensures var at := Offset(during, copy) + 1 + i;
      at < |Interleave(copies, during)| && Interleave(copies, during)[at] == Arrival(during[copy][i].msg, {})
    decreases |copies|
  {
    var rest := Interleave(copies[1..], during[1..]);
    assert Interleave(copies, during) == [copies[0]] + Unmarked(during[0]) + rest;
    if copy > 0 {
      InterleaveWindow(copies[1..], during[1..], copy - 1, i);
      OffsetOfTail(during, copy - 1);
    }
  }

  lemma {:induction false} OffsetOfTail(windows: seq<seq<Arrival>>, i: nat)
    requires i < |windows|
    ensures Offset(windows, i + 1) == 1 + |windows[0]| + Offset(windows[1..], i)
    decreases i
  {
    if i > 0 { OffsetOfTail(windows, i - 1); }
  }

  /** The marks with which it is listed. */
  function MarksThen(b: Box, step: Step, w: Moment): Names
    requires Enabled(step) && HasMoment(step, w)
  {
    if KeepsMarks(b, step, w) then ArrivesThen(step, w).marks else {}
  }

  /** What is found in time stands where it should among what is found. */
  lemma FoundThen(b: Box, step: Step, w: Moment)
    requires Enabled(step) && HasMoment(step, w) && !w.Late?
    ensures var at := DueThen(b, step, w) - b.nextUid;
      0 <= at < |FoundBy(b, step)| && FoundBy(b, step)[at] == Arrival(ArrivesThen(step, w).msg, MarksThen(b, step, w))
  {
    if w.AfterCopy? { InterleaveWindow(step.copies, step.windows, w.copy, w.i); }
  }

  function EntriesBefore(b: Box, step: Step): seq<Entry> {
    if step.Rebuild? then [] else b.entries
  }

  /** A step's resync numbers what it finds; the next one numbers what came late. */
  lemma RelistedTwice(b: Box, step: Step, i: nat)
    requires step.Resync? || step.Rebuild? || step.Append? || step.CopyIn?
    requires Enabled(step) && i < |FoundBy(b, step)| + |step.late|
    ensures var found, entries, n := FoundBy(b, step), Settle(Do(b, step)).entries, |EntriesBefore(b, step)|;
      && n + i < |entries|
      && (i < |found| ==> entries[n + i] == Entry(b.nextUid + i, found[i].msg, Flags.Arrived(found[i].marks)))
      && (i >= |found| ==>
            && HasMoment(step, Late(i - |found|))
            && entries[n + i] == Entry(b.nextUid + i, step.late[i - |found|].msg,
                                       Flags.Arrived(MarksThen(b, step, Late(i - |found|)))))
  {
    var start := Box(EntriesBefore(b, step), FoundBy(b, step), b.nextUid);
    assert !step.Rebuild? ==> Do(b, step) == Relist(start, step.late);
    assert step.Rebuild? ==> Do(b, step) == Settle(start).(arrived := Unmarked(step.late));
  }

  /** Mail that arrives inside a step is listed by it or by the next resync, and is unseen if and only if its deliverer
      marked it so and it arrived at a moment at which the file is not overwritten any more. */
  lemma InsideIsListed(b: Box, step: Step, w: Moment)
    requires Enabled(step) && HasMoment(step, w)
    ensures ListedAs(Settle(Do(b, step)).entries, DueThen(b, step, w), ArrivesThen(step, w).msg,
                     UNSEEN in ArrivesThen(step, w).marks && KeepsMarks(b, step, w))
  {
    var at := DueThen(b, step, w) - b.nextUid;
    if !w.Late? { FoundThen(b, step, w); }
    RelistedTwice(b, step, at);
    ListedAt(Settle(Do(b, step)).entries, |EntriesBefore(b, step)| + at, DueThen(b, step, w), ArrivesThen(step, w).msg,
             MarksThen(b, step, w));
  }

  /** So a message that comes in unseen while a resync lists another ends up Seen. */
  lemma LateMailCanBeSeen(first: Message, second: Message)
    ensures var b := Box([], [Arrival(first, {UNSEEN})], 1);
      ListedAs(Settle(Do(b, Step.Resync([Arrival(second, {UNSEEN})]))).entries, 2, second, false)
  {
    var b := Box([], [Arrival(first, {UNSEEN})], 1);
    InsideIsListed(b, Step.Resync([Arrival(second, {UNSEEN})]), Late(0));
  }

  // ---------- UID EXPUNGE ----------

  /** The UIDs of the messages with these numbers. */
  function UidsOfNumbers(entries: seq<Entry>, nums: set<nat>): set<nat> {
    set i | 0 <= i < |entries| && i + 1 in nums :: entries[i].uid
  }

  /** `do_expunge` hands the numbers of the messages on where UIDs are expected, and nothing at all if there are none.
      `nums` lists the numbers of the messages named by a UID EXPUNGE. */
  function UidExpungeChooses(b: Box, nums: seq<nat>): set<nat> {
    Chosen(b, if nums == [] then None else Some(nums), true)
  }

  /** The numbers of messages, at least one. */
  ghost predicate SomeNumbers(b: Box, nums: seq<nat>) {
    nums != [] && forall i :: 0 <= i < |nums| ==> 1 <= nums[i] <= |b.entries|
  }

  /** What section 2.1 of RFC 4315 asks for: the named messages that are marked Deleted. */
  function UidExpungeMeant(b: Box, nums: seq<nat>): set<nat> {
    DeletedUids(b.entries) * UidsOfNumbers(b.entries, Elements(nums))
  }

  /** UID EXPUNGE of any messages removes what it should if and only if the UID of every Deleted message is its number,
      as in a mailbox from which nothing before it has ever been removed. */
  lemma UidExpungeIff(b: Box)
    requires UidsOk(b)
    ensures (forall nums :: SomeNumbers(b, nums) ==> UidExpungeChooses(b, nums) == UidExpungeMeant(b, nums))
      <==> forall i :: 0 <= i < |b.entries| && DELETED in b.entries[i].flags ==> b.entries[i].uid == i + 1
  {
    if forall i :: 0 <= i < |b.entries| && DELETED in b.entries[i].flags ==> b.entries[i].uid == i + 1 {
      forall nums | SomeNumbers(b, nums) ensures UidExpungeChooses(b, nums) == UidExpungeMeant(b, nums) {
        NumbersAreUids(b, nums);
      }
    } else {
      var i :| 0 <= i < |b.entries| && DELETED in b.entries[i].flags && b.entries[i].uid != i + 1;
      UidExpungeMisses(b, i);
      assert SomeNumbers(b, [i + 1]);
    }
  }

  lemma NumbersAreUids(b: Box, nums: seq<nat>)
    requires UidsOk(b) && SomeNumbers(b, nums)
    requires forall i :: 0 <= i < |b.entries| && DELETED in b.entries[i].flags ==> b.entries[i].uid == i + 1
    ensures UidExpungeChooses(b, nums) == UidExpungeMeant(b, nums)
  {
    var meant := UidsOfNumbers(b.entries, Elements(nums));
    forall u | u in DeletedUids(b.entries) ensures u in nums <==> u in meant {
      var e :| e in b.entries && DELETED in e.flags && e.uid == u;
      var i :| 0 <= i < |b.entries| && b.entries[i] == e;
      if u in meant {
        var j :| 0 <= j < |b.entries| && j + 1 in Elements(nums) && b.entries[j].uid == u;
        OneEntryPerUid(b, b.entries[j], e);
      }
    }
  }

  /** Naming the one message whose UID differs from its number is enough. */
  lemma UidExpungeMisses(b: Box, i: nat)
    requires i < |b.entries| && DELETED in b.entries[i].flags && b.entries[i].uid != i + 1
    ensures UidExpungeChooses(b, [i + 1]) != UidExpungeMeant(b, [i + 1])
  {
    var uid := b.entries[i].uid;
    assert b.entries[i] in b.entries && i + 1 in [i + 1];
    assert uid in UidExpungeMeant(b, [i + 1]);
    assert uid !in UidExpungeChooses(b, [i + 1]);
  }

  /** A UID EXPUNGE that names no message at all removes every Deleted one. */
  lemma UidExpungeOfNothing(b: Box)
    ensures UidExpungeChooses(b, []) == DeletedUids(b.entries) && UidExpungeMeant(b, []) == {}
  {
    assert UidsOfNumbers(b.entries, Elements([])) == {};
  }

  lemma UidExpungeOfNothingCanRemove(msg: Message)
    ensures UidExpungeChooses(Box([Entry(5, msg, {DELETED})], [], 6), []) == {5}
  {
    var b := Box([Entry(5, msg, {DELETED})], [], 6);
    assert b.entries[0] in b.entries;
  }

  /** UID EXPUNGE 5 of the only message, which is marked Deleted and has UID 5, removes nothing. */
  lemma UidExpungeCanMiss(msg: Message)
    ensures var b := Box([Entry(5, msg, {DELETED})], [], 6);
      UidExpungeChooses(b, [1]) == {} && DeletedUids(b.entries) * UidsOfNumbers(b.entries, {1}) == {5}
  {
    var b := Box([Entry(5, msg, {DELETED})], [], 6);
    assert b.entries[0] in b.entries;
    assert 0 + 1 in {1};
    assert DeletedUids(b.entries) == {5};
    assert UidsOfNumbers(b.entries, {1}) == {5};
  }
}
