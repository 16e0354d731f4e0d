/** From the scheduler to the flags: the STORE and FETCH commands that a mailbox really runs at the same time are
    confluent, and their steps are those of the mailbox. */
module RunningJobs {
  import opened Flags
  import opened Admission
  import opened Scheduler
  import opened SchedulerSafety
  import Confluence
  import opened Folder
  import opened Indexing
  import opened IndexView
  import opened Marking
  import opened SequenceSets
  import Selecting

  /** The STORE and FETCH commands among some running ones, in the order of their admission. */
  function FlagTasks(tasks: seq<Task>): seq<Task> {
    if tasks == [] then []
    else (if tasks[0].cmd.kind in {Store, Fetch} then [tasks[0]] else []) + FlagTasks(tasks[1..])
  }

  lemma {:induction false} FlagTasksHas(tasks: seq<Task>)
    ensures forall t :: t in FlagTasks(tasks) <==> t in tasks && t.cmd.kind in {Store, Fetch}
  {
    if tasks != [] { FlagTasksHas(tasks[1..]); }
  }

  lemma {:induction false} FlagTasksInOrder(tasks: seq<Task>)
    requires InOrder(tasks)
    ensures InOrder(FlagTasks(tasks))
  {
    if tasks != [] {
      FlagTasksInOrder(tasks[1..]);
      FlagTasksHas(tasks[1..]);
      assert forall t :: t in tasks[1..] ==> Compatible(tasks[0].cmd, t.cmd);
    }
  }

  /** What a task does to flags: a STORE stores something, and a FETCH reads bodies if it is not a peek. */
  predicate Does(t: Task, job: Confluence.Job) {
    match job
    case StoreJob(msgs, _, _) => t.cmd.kind == Store && t.cmd.msgs == msgs
    case FetchJob(msgs, _, readBody) => t.cmd.kind == Fetch && t.cmd.msgs == msgs && t.cmd.peek == !readBody
  }

  ghost predicate AllDo(tasks: seq<Task>, jobs: seq<Confluence.Job>) {
    |tasks| == |jobs| && forall i :: 0 <= i < |jobs| ==> Does(tasks[i], jobs[i])
  }

  lemma RunningAreAdmitted(s: State, m: nat, jobs: seq<Confluence.Job>)
    requires Inv(s) && m < |s.mboxes|
    requires AllDo(FlagTasks(Uncompleted(s, s.mboxes[m].executing)), jobs)
    ensures Confluence.Admitted(jobs)
  {
    var running := Uncompleted(s, s.mboxes[m].executing);
    SweptCompatible(s, m);
    FlagTasksInOrder(running);
    var tasks := FlagTasks(running);
    forall i, j | 0 <= i < j < |jobs| ensures Compatible(Confluence.CmdOf(jobs[i]), Confluence.CmdOf(jobs[j])) {
      assert Does(tasks[i], jobs[i]) && Does(tasks[j], jobs[j]);
      assert Compatible(tasks[i].cmd, tasks[j].cmd);
      SameCompatible(tasks[i].cmd, tasks[j].cmd, Confluence.CmdOf(jobs[i]), Confluence.CmdOf(jobs[j]));
    }
  }

  /** Whether a STORE counts as a peek has no bearing on admission. */
  lemma SameCompatible(a: Cmd, b: Cmd, a': Cmd, b': Cmd)
    requires Compatible(a, b) && a'.kind == a.kind && a'.msgs == a.msgs && b'.kind == b.kind && b'.msgs == b.msgs
    requires (a.kind == Fetch ==> a'.peek == a.peek) && (b.kind == Fetch ==> b'.peek == b.peek)
    requires a.kind in {Store, Fetch} && b.kind in {Store, Fetch}
    ensures Compatible(a', b')
  {
  }

  /** In every reachable state of the scheduler, the STORE and FETCH commands a mailbox runs leave the same sequences
      behind however they interleave. */
  lemma RunningConfluent(s: State, m: nat, jobs: seq<Confluence.Job>, f0: map<nat, Names>,
                         states1: seq<Confluence.State>, steps1: seq<Confluence.Step>,
                         states2: seq<Confluence.State>, steps2: seq<Confluence.Step>)
    requires Inv(s) && m < |s.mboxes|
    requires AllDo(FlagTasks(Uncompleted(s, s.mboxes[m].executing)), jobs)
    requires Confluence.IsRun(jobs, states1, steps1) && Confluence.IsRun(jobs, states2, steps2)
    requires states1[0] == Confluence.Init(jobs, f0) && Confluence.AllDone(states1[|states1| - 1])
    requires states2[0] == Confluence.Init(jobs, f0) && Confluence.AllDone(states2[|states2| - 1])
    ensures states1[|states1| - 1].flags == states2[|states2| - 1].flags
  {
    RunningAreAdmitted(s, m, jobs);
    Confluence.Confluent(jobs, f0, states1, steps1, states2, steps2);
  }

  // ---------- The steps are those of the mailbox ----------

  /** The flags of the messages by number. */
  function FlagMap(entries: seq<Box.Entry>): map<nat, Names> {
    map n: nat | 1 <= n <= |entries| :: FlagsAt(entries, n)
  }

  function FlagsAt(entries: seq<Box.Entry>, n: nat): Names
    requires 1 <= n <= |entries|
  {
    entries[n - 1].flags
  }

  lemma StoreIsRunStore(b: Box.Box, jobs: seq<Confluence.Job>, s: Confluence.State, j: nat)
    requires Confluence.Enabled(jobs, s, Confluence.RunStore(j)) && s.flags == FlagMap(b.entries)
    ensures Confluence.Do(jobs, s, Confluence.RunStore(j)).flags
      == FlagMap(Box.Do(b, Box.Store(jobs[j].msgs, jobs[j].action, jobs[j].flags)).entries)
  {
    var after := Box.Do(b, Box.Store(jobs[j].msgs, jobs[j].action, jobs[j].flags)).entries;
    var done := Confluence.Do(jobs, s, Confluence.RunStore(j)).flags;
    assert FlagMap(after).Keys == done.Keys;
    forall n | n in done ensures done[n] == FlagMap(after)[n] {
      assert n - 1 + 1 == n;
    }
  }

  lemma FetchEndIsFinish(b: Box.Box, jobs: seq<Confluence.Job>, s: Confluence.State, j: nat)
    requires Confluence.Enabled(jobs, s, Confluence.Finish(j)) && s.flags == FlagMap(b.entries)
    ensures Confluence.Do(jobs, s, Confluence.Finish(j)).flags
      == FlagMap(Box.Do(b, Box.FetchEnd(s.status[j].recent, s.status[j].unseen)).entries)
  {
    var r, u := s.status[j].recent, s.status[j].unseen;
    var after := Box.Do(b, Box.FetchEnd(r, u)).entries;
    assert after == Box.FetchAll(b.entries, r, u);
    FetchedFlags(b.entries, r, u);
  }

  lemma FetchedFlags(entries: seq<Box.Entry>, recent: set<nat>, unseen: set<nat>)
    ensures FlagMap(Box.FetchAll(entries, recent, unseen))
      == map n | n in FlagMap(entries) :: AfterFetch(FlagMap(entries)[n], n in recent, n in unseen)
  {
    var after := Box.FetchAll(entries, recent, unseen);
    forall n: nat | 1 <= n <= |entries|
      ensures FlagsAt(after, n) == AfterFetch(FlagsAt(entries, n), n in recent, n in unseen)
    {
      assert n - 1 + 1 == n;
    }
  }

  // ---------- A FETCH whose message goes ----------

  /** While nothing is marked Deleted the last phase of a MOVE is admitted beside a FETCH. If it removes a message the
      FETCH has noted as unseen, the end of the FETCH puts a key that is not listed into Seen. */
  lemma FetchOutlivesMessage()
    ensures var fetch := Cmd(Fetch, false, {1});
      !WouldConflict([fetch], false, EXPUNGE_CMD)
    ensures var ix := Index(Folder(map[], map[]), Lists([], [], 2, 0), map[]);
      Sound(ix) && !Sound(AfterWrite(ix, {}, {1}))
  {
    var ix := Index(Folder(map[], map[]), Lists([], [], 2, 0), map[]);
    EmptyTracks(ix);
    assert forall k :: FlagsOf(map[], k) == {};
    FetchView(ix, {}, {1});
  }

  // ---------- Message sets that turn out invalid ----------

  /** What the management task finds of a message set when the largest number or UID is `before` at its first look and
      `after` at its second. */
  ghost function ValidityOf(ms: MsgSet, uidCmd: bool, before: nat, after: nat): Validity {
    if !Selecting.Resolves(ms, before, uidCmd) then Invalid
    else if !Selecting.Resolves(ms, after, uidCmd) then InvalidAfterResync
    else Valid
  }

  /** A set can turn out invalid only at the second look if it names message numbers and the mailbox has become
      smaller. */
  lemma SecondLookFails(ms: MsgSet, uidCmd: bool, before: nat, after: nat)
    ensures ValidityOf(ms, uidCmd, before, after) == InvalidAfterResync ==> !uidCmd && after < before
    ensures ValidityOf(ms, uidCmd, before, after) == Valid
      <==> Selecting.Resolves(ms, before, uidCmd) && Selecting.Resolves(ms, after, uidCmd)
  {
    Selecting.ResolvesIff(ms, before, uidCmd);
    Selecting.ResolvesIff(ms, after, uidCmd);
    if Selecting.Resolves(ms, before, uidCmd) && (uidCmd || before <= after) {
      forall i | 0 <= i < |ms| ensures InRange(ms[i], after, uidCmd) {
        assert InRange(ms[i], before, uidCmd);
      }
    }
  }

  /** A set that was valid for three messages is not for two. */
  lemma SecondLookCanFail()
    ensures ValidityOf([One(N(3))], false, 3, 2) == InvalidAfterResync
  {
    Selecting.ResolvesIff([One(N(3))], 3, false);
    Selecting.ResolvesIff([One(N(3))], 2, false);
    assert !InRange([One(N(3))][0], 2, false);
  }
}
