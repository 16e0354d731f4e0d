/** STORE and FETCH commands that run at the same time on one mailbox: their effect on the flags in memory does not
    depend on how they interleave. */
module Confluence {
  import opened Flags
  import Admission

  /** A running command. A STORE updates all its messages without awaiting. A FETCH looks at its messages one by one,
      notes whose flags are to change, and changes them all at its end. */
  datatype Job =
    | StoreJob(msgs: set<nat>, action: Action, flags: seq<string>)
    | FetchJob(msgs: set<nat>, readFlags: bool, readBody: bool)

  /** What admission sees of a job: a FETCH that reads a body is not a peek. */
  function CmdOf(j: Job): Admission.Cmd {
    match j
    case StoreJob(msgs, _, _) => Admission.Cmd(Admission.Store, true, msgs)
    case FetchJob(msgs, _, readBody) => Admission.Cmd(Admission.Fetch, !readBody, msgs)
  }

  /** `recent` and `unseen` are `no_longer_recent_msgs` and `no_longer_unseen_msgs`. */
  datatype Status = Status(scanned: set<nat>, recent: set<nat>, unseen: set<nat>, done: bool)

  /** The flags of each message, and how far each job has come. */
  datatype State = State(flags: map<nat, Names>, status: seq<Status>)

  datatype Step = RunStore(j: nat) | Scan(j: nat, msg: nat) | Finish(j: nat)

  predicate Enabled(jobs: seq<Job>, s: State, step: Step) {
    && |s.status| == |jobs| && step.j < |jobs| && jobs[step.j].msgs <= s.flags.Keys && !s.status[step.j].done
    && match step
       case RunStore(j) => jobs[j].StoreJob?
       case Scan(j, msg) => jobs[j].FetchJob? && msg in jobs[j].msgs && msg !in s.status[j].scanned
       case Finish(j) => jobs[j].FetchJob? && s.status[j].scanned == jobs[j].msgs
  }

  function Do(jobs: seq<Job>, s: State, step: Step): State
    requires Enabled(jobs, s, step)
  {
    var job, status := jobs[step.j], s.status[step.j];
    match step
    case RunStore(j) =>
      State(map k | k in s.flags :: if k in job.msgs then Stored(job.action, job.flags, s.flags[k]) else s.flags[k],
            s.status[j := status.(done := true)])
    case Scan(j, msg) =>
      var recent := if job.readFlags && RECENT in s.flags[msg] then {msg} else {};
      var unseen := if job.readBody && UNSEEN in s.flags[msg] then {msg} else {};
      s.(status := s.status[j := Status(status.scanned + {msg}, status.recent + recent, status.unseen + unseen, false)])
    case Finish(j) =>
      State(map k | k in s.flags :: AfterFetch(s.flags[k], k in status.recent, k in status.unseen),
            s.status[j := status.(done := true)])
  }

  function Init(jobs: seq<Job>, flags: map<nat, Names>): State {
    State(flags, seq(|jobs|, _ => Status({}, {}, {}, false)))
  }

  ghost predicate IsRun(jobs: seq<Job>, states: seq<State>, steps: seq<Step>) {
    && |states| == |steps| + 1
    && forall i :: 0 <= i < |steps| ==>
         Enabled(jobs, states[i], steps[i]) && states[i + 1] == Do(jobs, states[i], steps[i])
  }

  predicate AllDone(s: State) {
    forall j :: 0 <= j < |s.status| ==> s.status[j].done
  }

  /** The jobs stand in the order of their admission. */
  ghost predicate Admitted(jobs: seq<Job>) {
    forall i, j :: 0 <= i < j < |jobs| ==> Admission.Compatible(CmdOf(jobs[i]), CmdOf(jobs[j]))
  }

  // ---------- The result, independent of any interleaving ----------

  ghost predicate FlagsRead(jobs: seq<Job>, k: nat, done: seq<bool>)
    requires |done| == |jobs|
  {
    exists j :: 0 <= j < |jobs| && done[j] && jobs[j].FetchJob? && k in jobs[j].msgs && jobs[j].readFlags
  }

  ghost predicate BodyRead(jobs: seq<Job>, k: nat, done: seq<bool>)
    requires |done| == |jobs|
  {
    exists j :: 0 <= j < |jobs| && done[j] && jobs[j].FetchJob? && k in jobs[j].msgs && jobs[j].readBody
  }

  /** Message k after the jobs marked in `done`: at most one STORE touches it, and then no FETCH does. */
  ghost function Outcome(jobs: seq<Job>, k: nat, cur: Names, done: seq<bool>): Names
    requires |done| == |jobs|
  {
    if j :| 0 <= j < |jobs| && jobs[j].StoreJob? && k in jobs[j].msgs then
      if done[j] then Stored(jobs[j].action, jobs[j].flags, cur) else cur
    else
      Fetched(cur, FlagsRead(jobs, k, done), BodyRead(jobs, k, done))
  }

  // ---------- The invariant of every interleaving ----------

  function DoneOf(s: State): (r: seq<bool>)
    ensures |r| == |s.status| && forall j :: 0 <= j < |r| ==> r[j] == s.status[j].done
  {
    seq(|s.status|, j requires 0 <= j < |s.status| => s.status[j].done)
  }

  /** A message touched by a STORE is touched by no other running job. */
  ghost predicate StoresAlone(jobs: seq<Job>) {
    forall i, j, k :: 0 <= i < |jobs| && 0 <= j < |jobs| && i != j && jobs[j].StoreJob? && k in jobs[j].msgs ==>
      k !in jobs[i].msgs
  }

  lemma AdmittedStoresAlone(jobs: seq<Job>)
    requires Admitted(jobs)
    ensures StoresAlone(jobs)
  {
    forall i, j, k | 0 <= i < |jobs| && 0 <= j < |jobs| && i != j && jobs[j].StoreJob? && k in jobs[j].msgs
      ensures k !in jobs[i].msgs
    {
      var a, b := CmdOf(jobs[i]), CmdOf(jobs[j]);
      assert if i < j then Admission.Compatible(a, b) else Admission.Compatible(b, a);
      assert a.msgs * b.msgs == {} && b.msgs * a.msgs == {};
      assert k in a.msgs ==> k in a.msgs * b.msgs;
    }
  }

  ghost predicate MsgOk(jobs: seq<Job>, f0: map<nat, Names>, s: State, k: nat)
    requires |s.status| == |jobs| && k in f0 && k in s.flags
  {
    s.flags[k] == Outcome(jobs, k, f0[k], DoneOf(s))
  }

  /** An unfinished FETCH has noted only what was there at the start, and what it saw absent stays absent. */
  ghost predicate FetchOk(jobs: seq<Job>, f0: map<nat, Names>, s: State, j: nat)
    requires |s.status| == |jobs| && j < |jobs| && f0.Keys == s.flags.Keys
  {
    var st := s.status[j];
    jobs[j].FetchJob? && !st.done && jobs[j].msgs <= f0.Keys ==>
      && st.scanned <= jobs[j].msgs && st.recent <= st.scanned && st.unseen <= st.scanned
      && (st.recent != {} ==> jobs[j].readFlags) && (st.unseen != {} ==> jobs[j].readBody)
      && (forall k :: k in st.unseen ==> UNSEEN in f0[k])
      && (forall k :: k in st.scanned && jobs[j].readFlags && k !in st.recent ==> RECENT !in s.flags[k])
      && (forall k :: k in st.scanned && jobs[j].readBody && k !in st.unseen ==> UNSEEN !in s.flags[k])
  }

  ghost predicate Inv(jobs: seq<Job>, f0: map<nat, Names>, s: State) {
    && |s.status| == |jobs| && s.flags.Keys == f0.Keys
    && (forall k :: k in f0 ==> MsgOk(jobs, f0, s, k))
    && (forall j :: 0 <= j < |jobs| ==> FetchOk(jobs, f0, s, j))
  }

  lemma InitInv(jobs: seq<Job>, f0: map<nat, Names>)
    ensures Inv(jobs, f0, Init(jobs, f0))
  {
    var s := Init(jobs, f0);
    assert forall k :: k in f0 ==> !FlagsRead(jobs, k, DoneOf(s)) && !BodyRead(jobs, k, DoneOf(s));
  }

  /** A job that does not touch a message has no part in its outcome. */
  lemma OutcomeIgnores(jobs: seq<Job>, k: nat, cur: Names, done: seq<bool>, j: nat)
    requires |done| == |jobs| && j < |jobs| && k !in jobs[j].msgs
    ensures Outcome(jobs, k, cur, done[j := true]) == Outcome(jobs, k, cur, done)
  {
    var done' := done[j := true];
    assert forall i :: 0 <= i < |jobs| && i != j ==> done'[i] == done[i];
    assert FlagsRead(jobs, k, done') == FlagsRead(jobs, k, done);
    assert BodyRead(jobs, k, done') == BodyRead(jobs, k, done);
  }

  lemma OutcomeOfStore(jobs: seq<Job>, k: nat, cur: Names, done: seq<bool>, j: nat)
    requires |done| == |jobs| && j < |jobs| && k in jobs[j].msgs && jobs[j].StoreJob? && StoresAlone(jobs)
    ensures Outcome(jobs, k, cur, done) == if done[j] then Stored(jobs[j].action, jobs[j].flags, cur) else cur
  {
  }

  lemma OutcomeOfFetch(jobs: seq<Job>, k: nat, cur: Names, done: seq<bool>, j: nat)
    requires |done| == |jobs| && j < |jobs| && k in jobs[j].msgs && jobs[j].FetchJob? && StoresAlone(jobs)
    ensures Outcome(jobs, k, cur, done) == Fetched(cur, FlagsRead(jobs, k, done), BodyRead(jobs, k, done))
    ensures FlagsRead(jobs, k, done[j := true]) == (FlagsRead(jobs, k, done) || jobs[j].readFlags)
    ensures BodyRead(jobs, k, done[j := true]) == (BodyRead(jobs, k, done) || jobs[j].readBody)
  {
    var done' := done[j := true];
    assert forall i :: 0 <= i < |jobs| && i != j ==> done'[i] == done[i];
    assert done'[j];
  }

  lemma RunStoreKeepsInv(jobs: seq<Job>, f0: map<nat, Names>, s: State, j: nat)
    requires StoresAlone(jobs) && Inv(jobs, f0, s) && Enabled(jobs, s, RunStore(j))
    ensures Inv(jobs, f0, Do(jobs, s, RunStore(j)))
  {
    var s' := Do(jobs, s, RunStore(j));
    assert DoneOf(s') == DoneOf(s)[j := true];
    forall k | k in f0 ensures MsgOk(jobs, f0, s', k) {
      assert MsgOk(jobs, f0, s, k);
      if k in jobs[j].msgs {
        OutcomeOfStore(jobs, k, f0[k], DoneOf(s), j);
        OutcomeOfStore(jobs, k, f0[k], DoneOf(s'), j);
      } else {
        OutcomeIgnores(jobs, k, f0[k], DoneOf(s), j);
      }
    }
    forall i | 0 <= i < |jobs| ensures FetchOk(jobs, f0, s', i) {
      assert FetchOk(jobs, f0, s, i);
    }
  }

  lemma ScanKeepsInv(jobs: seq<Job>, f0: map<nat, Names>, s: State, j: nat, msg: nat)
    requires StoresAlone(jobs) && Inv(jobs, f0, s) && Enabled(jobs, s, Scan(j, msg))
    ensures Inv(jobs, f0, Do(jobs, s, Scan(j, msg)))
  {
    var s' := Do(jobs, s, Scan(j, msg));
    NamesDiffer();
    assert DoneOf(s') == DoneOf(s);
    forall k | k in f0 ensures MsgOk(jobs, f0, s', k) {
      assert MsgOk(jobs, f0, s, k);
    }
    assert MsgOk(jobs, f0, s, msg);
    OutcomeOfFetch(jobs, msg, f0[msg], DoneOf(s), j);
    forall i | 0 <= i < |jobs| ensures FetchOk(jobs, f0, s', i) {
      assert FetchOk(jobs, f0, s, i);
    }
  }

  /** Applying a finished FETCH to one message does what its meaning says, whatever other FETCHes did meanwhile. */
  lemma AppliedIsFetched(cur: Names, r: bool, u: bool, readFlags: bool, readBody: bool, recent: bool, unseen: bool)
    requires recent ==> readFlags
    requires unseen ==> readBody && UNSEEN in cur
    requires readFlags && !recent ==> RECENT !in Fetched(cur, r, u)
    requires readBody && !unseen ==> UNSEEN !in Fetched(cur, r, u)
    ensures AfterFetch(Fetched(cur, r, u), recent, unseen) == Fetched(cur, r || readFlags, u || readBody)
  {
    NamesDiffer();
  }

  lemma FinishKeepsMsg(jobs: seq<Job>, f0: map<nat, Names>, s: State, j: nat, k: nat)
    requires StoresAlone(jobs) && Inv(jobs, f0, s) && Enabled(jobs, s, Finish(j)) && k in f0
    ensures MsgOk(jobs, f0, Do(jobs, s, Finish(j)), k)
  {
    var s' := Do(jobs, s, Finish(j));
    var st, done := s.status[j], DoneOf(s);
    assert DoneOf(s') == done[j := true];
    assert MsgOk(jobs, f0, s, k) && FetchOk(jobs, f0, s, j);
    if k in jobs[j].msgs {
      OutcomeOfFetch(jobs, k, f0[k], done, j);
      OutcomeOfFetch(jobs, k, f0[k], DoneOf(s'), j);
      AppliedIsFetched(f0[k], FlagsRead(jobs, k, done), BodyRead(jobs, k, done),
                       jobs[j].readFlags, jobs[j].readBody, k in st.recent, k in st.unseen);
    } else {
      OutcomeIgnores(jobs, k, f0[k], done, j);
    }
  }

  lemma FinishKeepsInv(jobs: seq<Job>, f0: map<nat, Names>, s: State, j: nat)
    requires StoresAlone(jobs) && Inv(jobs, f0, s) && Enabled(jobs, s, Finish(j))
    ensures Inv(jobs, f0, Do(jobs, s, Finish(j)))
  {
    var s' := Do(jobs, s, Finish(j));
    NamesDiffer();
    forall k | k in f0 ensures MsgOk(jobs, f0, s', k) {
      FinishKeepsMsg(jobs, f0, s, j, k);
    }
    forall i | 0 <= i < |jobs| ensures FetchOk(jobs, f0, s', i) {
      assert FetchOk(jobs, f0, s, i);
    }
  }

  lemma {:induction false} RunKeepsInv(jobs: seq<Job>, f0: map<nat, Names>, states: seq<State>, steps: seq<Step>, i: nat)
    requires Admitted(jobs) && IsRun(jobs, states, steps) && states[0] == Init(jobs, f0) && i < |states|
    ensures Inv(jobs, f0, states[i])
  {
    if i == 0 {
      InitInv(jobs, f0);
    } else {
      RunKeepsInv(jobs, f0, states, steps, i - 1);
      AdmittedStoresAlone(jobs);
      match steps[i - 1]
      case RunStore(j) => RunStoreKeepsInv(jobs, f0, states[i - 1], j);
      case Scan(j, msg) => ScanKeepsInv(jobs, f0, states[i - 1], j, msg);
      case Finish(j) => FinishKeepsInv(jobs, f0, states[i - 1], j);
    }
  }

  /** However admitted STORE and FETCH commands interleave, every message ends with the flags of `Outcome`. */
  lemma RunOutcome(jobs: seq<Job>, f0: map<nat, Names>, states: seq<State>, steps: seq<Step>)
    requires Admitted(jobs) && IsRun(jobs, states, steps) && states[0] == Init(jobs, f0)
    requires AllDone(states[|states| - 1])
    ensures states[|states| - 1].flags == map k | k in f0 :: Outcome(jobs, k, f0[k], seq(|jobs|, _ => true))
  {
    var last := states[|states| - 1];
    RunKeepsInv(jobs, f0, states, steps, |states| - 1);
    assert DoneOf(last) == seq(|jobs|, _ => true);
    assert forall k :: k in f0 ==> MsgOk(jobs, f0, last, k);
  }

  /** Confluence: any two complete interleavings of the same admitted commands give the same sequences. */
  lemma Confluent(jobs: seq<Job>, f0: map<nat, Names>,
                  states1: seq<State>, steps1: seq<Step>, states2: seq<State>, steps2: seq<Step>)
    requires Admitted(jobs)
    requires IsRun(jobs, states1, steps1) && states1[0] == Init(jobs, f0) && AllDone(states1[|states1| - 1])
    requires IsRun(jobs, states2, steps2) && states2[0] == Init(jobs, f0) && AllDone(states2[|states2| - 1])
    ensures states1[|states1| - 1].flags == states2[|states2| - 1].flags
  {
    RunOutcome(jobs, f0, states1, steps1);
    RunOutcome(jobs, f0, states2, steps2);
  }
}
