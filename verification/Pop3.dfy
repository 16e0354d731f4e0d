/** A POP3 session: a snapshot of the inbox, marks, and the expunge at QUIT. */
module Pop3 {
  import opened Base
  import opened Text
  import opened Box
  import opened IndexView
  import M = Mailbox

  /** The message number a client means, if it is one of the snapshot's and not marked. */
  function ValidMsgNum(arg: string, msgCount: nat, deleted: set<nat>): Option<nat> {
    if !AllDigits(arg) then None
    else
      var n := ToNat(arg);
      if n < 1 || n > msgCount || n in deleted then None else Some(n)
  }

  function Dele(arg: string, msgCount: nat, deleted: set<nat>): set<nat> {
    var n := ValidMsgNum(arg, msgCount, deleted);
    if n.Some? then deleted + {n.value} else deleted
  }

  /** `[snapshot_uids[n - 1] for n in sorted(deleted)]`. */
  function UidsToDelete(snapshotUids: seq<nat>, deleted: set<nat>): seq<nat>
    requires forall n :: n in deleted ==> 1 <= n <= |snapshotUids|
  {
    var nums := SortedNats(deleted);
    SortedNatsAscending(deleted);
    assert forall i :: 0 <= i < |nums| ==> nums[i] in nums;
    seq(|nums|, i requires 0 <= i < |nums| => snapshotUids[nums[i] - 1])
  }

  lemma UidsToDeleteHas(snapshotUids: seq<nat>, deleted: set<nat>)
    requires Ascending(snapshotUids) && forall n :: n in deleted ==> 1 <= n <= |snapshotUids|
    ensures Distinct(UidsToDelete(snapshotUids, deleted))
    ensures forall u :: u in UidsToDelete(snapshotUids, deleted) <==> exists n :: n in deleted && HasUid(snapshotUids, n, u)
  {
    UidsToDeleteDistinct(snapshotUids, deleted);
    var nums, uids := SortedNats(deleted), UidsToDelete(snapshotUids, deleted);
    SortedNatsAscending(deleted);
    forall u, n | n in deleted && HasUid(snapshotUids, n, u) ensures u in uids {
      assert n in nums;
      var i :| 0 <= i < |nums| && nums[i] == n;
      assert uids[i] == u;
    }
    forall u | u in uids ensures exists n :: n in deleted && HasUid(snapshotUids, n, u) {
      var i :| 0 <= i < |uids| && uids[i] == u;
      assert nums[i] in nums;
      assert HasUid(snapshotUids, nums[i], u);
    }
  }

  predicate HasUid(snapshotUids: seq<nat>, n: nat, uid: nat) {
    1 <= n <= |snapshotUids| && snapshotUids[n - 1] == uid
  }

  lemma UidsToDeleteDistinct(snapshotUids: seq<nat>, deleted: set<nat>)
    requires Ascending(snapshotUids) && forall n :: n in deleted ==> 1 <= n <= |snapshotUids|
    ensures Distinct(UidsToDelete(snapshotUids, deleted))
  {
    var nums, uids := SortedNats(deleted), UidsToDelete(snapshotUids, deleted);
    SortedNatsAscending(deleted);
    assert forall i :: 0 <= i < |nums| ==> nums[i] in nums;
    forall i, j | 0 <= i < j < |uids| ensures uids[i] < uids[j] {
      assert Less(nums, i, j);
      assert Less(snapshotUids, nums[i] - 1, nums[j] - 1);
    }
  }

  class POP3CommandHandler {
    var mbox: M.Mailbox
    var snapshotMsgKeys: seq<nat>
    var snapshotUids: seq<nat>
    var msgCount: nat
    var deleted: set<nat>

    ghost predicate Valid()
      reads this
    {
      && |snapshotUids| == |snapshotMsgKeys| == msgCount && Ascending(snapshotUids)
      && forall n :: n in deleted ==> 1 <= n <= msgCount
    }

    /** `init_session`: the inbox as it is now, with nothing marked. */
    constructor (inbox: M.Mailbox)
      requires inbox.Valid()
      ensures Valid() && mbox == inbox && deleted == {}
      ensures snapshotUids == Uids(inbox.Mail().entries) && snapshotMsgKeys == inbox.msgKeys
    {
      mbox, snapshotMsgKeys, snapshotUids, msgCount, deleted := inbox, inbox.msgKeys, inbox.uids, |inbox.msgKeys|, {};
      new;
      ViewUids(inbox.Ix());
    }

    method DoDele(args: string) returns (ok: bool)
      requires Valid()
      modifies this`deleted
      ensures Valid() && deleted == Dele(args, msgCount, old(deleted))
      ensures ok <==> AllDigits(args) && 1 <= ToNat(args) <= msgCount && ToNat(args) !in old(deleted)
      ensures deleted == if ok then old(deleted) + {ToNat(args)} else old(deleted)
    {
      var n := ValidMsgNum(args, msgCount, deleted);
      if n.None? {
        return false;
      }
      deleted := deleted + {n.value};
      ok := true;
    }

    method DoRset()
      requires Valid()
      modifies this`deleted
      ensures Valid() && deleted == {}
    {
      deleted := {};
    }

    method DoQuit()
      requires Valid() && mbox.Valid()
      modifies mbox
      ensures mbox.Valid() && mbox.Mail() == AfterQuit(old(mbox.Mail()), snapshotUids, deleted)
    {
      UidsToDeleteHas(snapshotUids, deleted);
      if deleted != {} {
        var notes := mbox.Expunge(Some(UidsToDelete(snapshotUids, deleted)), false);
      } else {
        NoneToDelete(mbox.Mail(), snapshotUids);
      }
    }
  }

  /** The inbox after QUIT. */
  function AfterQuit(b: Box, snapshotUids: seq<nat>, deleted: set<nat>): Box
    requires forall n :: n in deleted ==> 1 <= n <= |snapshotUids|
  {
    Do(b, Step.Expunge(Chosen(b, Some(UidsToDelete(snapshotUids, deleted)), false)))
  }

  lemma NoneToDelete(b: Box, snapshotUids: seq<nat>)
    ensures AfterQuit(b, snapshotUids, {}) == b
  {
    SortedNatsAscending({});
    assert SortedNats({}) == [];
    assert UidsToDelete(snapshotUids, {}) == [];
    assert Elements<nat>([]) == {};
    WithoutNone(b.entries);
  }

  // ---------- Sessions ----------

  /** What happens between the snapshot and the end: commands of the session, and anything at all to the inbox. */
  datatype Event = Delete(arg: string) | Reset | Inbox(step: Step)

  ghost predicate Possible(events: seq<Event>) {
    forall i :: 0 <= i < |events| && events[i].Inbox? ==> Enabled(events[i].step)
  }

  function Marks(events: seq<Event>, msgCount: nat): set<nat> {
    if events == [] then {}
    else
      var marks, last := Marks(events[..|events| - 1], msgCount), events[|events| - 1];
      match last
      case Delete(arg) => Dele(arg, msgCount, marks)
      case Reset => {}
      case Inbox(_) => marks
  }

  function InboxSteps(events: seq<Event>): (steps: seq<Step>)
    requires Possible(events)
    ensures forall i :: 0 <= i < |steps| ==> Enabled(steps[i])
  {
    if events == [] then []
    else InboxSteps(events[..|events| - 1])
         + if events[|events| - 1].Inbox? then [events[|events| - 1].step] else []
  }

  /** The i-th event marks message n for good. */
  ghost predicate MarksForGood(events: seq<Event>, msgCount: nat, n: nat, i: nat)
    requires i < |events|
  {
    && events[i].Delete? && AllDigits(events[i].arg) && ToNat(events[i].arg) == n && 1 <= n <= msgCount
    && forall j :: i < j < |events| ==> !events[j].Reset?
  }

  /** A message is marked exactly if it was named by a DELE since the last RSET. */
  lemma {:induction false} MarkedIff(events: seq<Event>, msgCount: nat, n: nat)
    ensures n in Marks(events, msgCount) <==> exists i :: 0 <= i < |events| && MarksForGood(events, msgCount, n, i)
    decreases |events|
  {
    if events != [] {
      var before, last := events[..|events| - 1], |events| - 1;
      MarkedIff(before, msgCount, n);
      assert forall i :: 0 <= i < last && MarksForGood(events, msgCount, n, i) ==> MarksForGood(before, msgCount, n, i);
      if !events[last].Reset? {
        assert forall i :: 0 <= i < last && MarksForGood(before, msgCount, n, i) ==> MarksForGood(events, msgCount, n, i);
      }
      assert MarksForGood(events, msgCount, n, last) <==>
        events[last].Delete? && AllDigits(events[last].arg) && ToNat(events[last].arg) == n && 1 <= n <= msgCount;
    }
  }

  lemma {:induction false} MarksInSnapshot(events: seq<Event>, msgCount: nat)
    ensures forall n :: n in Marks(events, msgCount) ==> 1 <= n <= msgCount
    decreases |events|
  {
    if events != [] { MarksInSnapshot(events[..|events| - 1], msgCount); }
  }

  /** A QUIT removes a message exactly if it still carries the snapshot UID of a marked number; it is then the message
      that had this number in the snapshot. Whatever else happened to the inbox meanwhile, nothing else goes. */
  lemma QuitRemovesExactly(b0: Box, events: seq<Event>)
    requires UidsOk(b0) && Possible(events)
    ensures forall n :: n in Marks(events, |b0.entries|) ==> 1 <= n <= |b0.entries|
    ensures var marks, b1 := Marks(events, |b0.entries|), Run(b0, InboxSteps(events));
      var after := AfterQuit(b1, Uids(b0.entries), marks).entries;
      && (forall e :: e in after ==> e in b1.entries)
      && (forall e :: e in b1.entries ==>
            (e !in after <==> exists n :: n in marks && HadNumber(b0, e, n)))
  {
    var marks, b1 := Marks(events, |b0.entries|), Run(b0, InboxSteps(events));
    MarksInSnapshot(events, |b0.entries|);
    UidsToDeleteHas(Uids(b0.entries), marks);
    var uids := UidsToDelete(Uids(b0.entries), marks);
    WithoutHas(b1.entries, Elements(uids));
    forall e | e in b1.entries ensures e.uid in uids <==> exists n :: n in marks && HadNumber(b0, e, n) {
      if e.uid in uids {
        var n :| n in marks && HasUid(Uids(b0.entries), n, e.uid);
        UidNamesOneMessage(b0, InboxSteps(events), b0.entries[n - 1], e);
        assert HadNumber(b0, e, n);
      }
      if n :| n in marks && HadNumber(b0, e, n) {
        assert HasUid(Uids(b0.entries), n, e.uid);
      }
    }
  }

  /** In the snapshot, message number n was this one, under this UID. */
  ghost predicate HadNumber(b0: Box, e: Entry, n: nat) {
    1 <= n <= |b0.entries| && b0.entries[n - 1].uid == e.uid && b0.entries[n - 1].msg == e.msg
  }

  /** Without QUIT the session's commands have no effect: the inbox is what it would be without the session. */
  lemma NoQuitNoEffect(b0: Box, events: seq<Event>)
    requires Possible(events)
    ensures Possible(Mailing(events)) && Run(b0, InboxSteps(events)) == Run(b0, InboxSteps(Mailing(events)))
  {
    MailingSteps(events);
  }

  /** The events that are not commands of the session. */
  function Mailing(events: seq<Event>): seq<Event> {
    if events == [] then []
    else Mailing(events[..|events| - 1]) + if events[|events| - 1].Inbox? then [events[|events| - 1]] else []
  }

  lemma {:induction false} MailingSteps(events: seq<Event>)
    requires Possible(events)
    ensures Possible(Mailing(events)) && InboxSteps(Mailing(events)) == InboxSteps(events)
    decreases |events|
  {
    if events != [] {
      var before, last := events[..|events| - 1], events[|events| - 1];
      MailingSteps(before);
      if last.Inbox? {
        var all := Mailing(events);
        assert all[..|all| - 1] == Mailing(before) && all[|all| - 1] == last;
      } else {
        assert Mailing(events) == Mailing(before);
      }
    }
  }
}
