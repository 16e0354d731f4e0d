/** Whole runs of the scheduler: what may run together, and that every workload drains. */
module SchedulerProgress {
  import opened Base
  import opened Admission
  import opened Scheduler
  import opened SchedulerSafety

  ghost predicate IsRun(states: seq<State>, steps: seq<Step>) {
    && |states| == |steps| + 1
    && forall i :: 0 <= i < |steps| ==> Enabled(states[i], steps[i]) && states[i + 1] == Do(states[i], steps[i])
  }

  ghost predicate ValidRequests(requests: seq<seq<Request>>, mboxes: nat) {
    forall c, i :: 0 <= c < |requests| && 0 <= i < |requests[c]| ==> InMboxes(requests[c][i], mboxes)
  }

  lemma StartInv(requests: seq<seq<Request>>, mboxes: nat)
    requires ValidRequests(requests, mboxes)
    ensures Inv(Init(requests, mboxes))
  {
    forall rs, r | rs in requests && r in rs ensures InMboxes(r, mboxes) {
      var c :| 0 <= c < |requests| && requests[c] == rs;
      var i :| 0 <= i < |rs| && rs[i] == r;
    }
    InitInv(requests, mboxes);
  }

  lemma {:induction false} RunKeepsInv(states: seq<State>, steps: seq<Step>, i: nat)
    requires IsRun(states, steps) && Inv(states[0]) && i < |states|
    ensures Inv(states[i])
  {
    if i > 0 {
      RunKeepsInv(states, steps, i - 1);
      StepKeepsInv(states[i - 1], steps[i - 1]);
    }
  }

  // ---------- What may run together ----------

  /** Two commands that a mailbox's executing list holds, both uncompleted, in the order of admission. */
  ghost predicate RunTogether(s: State, m: nat, i: nat, j: nat) {
    && m < |s.mboxes| && i < j < |s.mboxes[m].executing|
    && !Completed(s, s.mboxes[m].executing[i]) && !Completed(s, s.mboxes[m].executing[j])
  }

  /** In every reachable state: an APPEND, CHECK, DELETE, MOVE or RENAME is alone in the list; after one of these, a
      CLOSE or an EXPUNGE nothing was admitted; no STORE runs with a SEARCH or with a STORE, FETCH or COPY of the same
      messages; no FETCH that reads bodies runs with a SEARCH, with a COPY of the same messages, or after a FETCH of
      them. */
  lemma RunningTogether(requests: seq<seq<Request>>, mboxes: nat, states: seq<State>, steps: seq<Step>,
                        k: nat, m: nat, i: nat, j: nat)
    requires ValidRequests(requests, mboxes) && IsRun(states, steps) && states[0] == Init(requests, mboxes)
    requires k < |states| && RunTogether(states[k], m, i, j)
    ensures var a, b := states[k].mboxes[m].executing[i].cmd, states[k].mboxes[m].executing[j].cmd;
      && a.kind !in {Append, Check, Close, Delete, Expunge, Move, Rename}
      && b.kind !in {Append, Check, Delete, Move, Rename}
      && !(a.kind == Store && b.kind == Search) && !(a.kind == Search && b.kind == Store)
      && (a.kind == Store && b.kind in {Store, Fetch, Copy} ==> a.msgs * b.msgs == {})
      && (b.kind == Store && a.kind in {Store, Fetch, Copy} ==> a.msgs * b.msgs == {})
      && (a.kind == Fetch && !a.peek ==> b.kind != Search && (b.kind == Copy ==> a.msgs * b.msgs == {}))
      && (b.kind == Fetch && !b.peek ==> a.kind != Search && (a.kind in {Copy, Fetch} ==> a.msgs * b.msgs == {}))
  {
    StartInv(requests, mboxes);
    RunKeepsInv(states, steps, k);
    assert RunOk(states[k], m);
    var a, b := states[k].mboxes[m].executing[i].cmd, states[k].mboxes[m].executing[j].cmd;
    assert Compatible(a, b);
    assert a.msgs * b.msgs == b.msgs * a.msgs;
  }

  /** A client that waits for one mailbox has no uncompleted command in any mailbox's executing list. */
  lemma WaitersHoldNothing(s: State, c: nat, m: nat, i: nat)
    requires Inv(s) && c < |s.clients| && !s.clients[c].stage.Go?
    requires m < |s.mboxes| && i < |s.mboxes[m].executing| && s.mboxes[m].executing[i].client == c
    ensures Completed(s, s.mboxes[m].executing[i])
  {
    assert ClientOk(s, c) && RunOk(s, m);
  }

  /** When the last resync is too long ago, nothing more is admitted beside what runs: the next command is admitted when
      all before it are completed, and so after a resync, and runs by itself. */
  lemma DrainedBeforeAdmission(s: State, m: nat, msgs: set<nat>)
    requires Enabled(s, Admit(m, msgs)) && s.mboxes[m].drain
    ensures forall t :: t in s.mboxes[m].executing ==> Completed(s, t)
    ensures var mbox := Do(s, Admit(m, msgs)).mboxes[m]; |mbox.executing| == 1 && !mbox.drain
  {
    var ex := s.mboxes[m].executing;
    var running := Uncompleted(s, ex);
    assert forall t :: t in running <==> t in ex && !Completed(s, t);
  }

  // ---------- Progress ----------

  /** No step but those of the surroundings is possible any more. */
  ghost predicate Exhausted(s: State) {
    forall step :: IsProgress(step) ==> !Enabled(s, step)
  }

  /** The client has finished, or its command was dropped. */
  predicate Settled(client: Client) { client.ops == [] || client.stage == Lost }

  /** A client that is not waiting can always go on; in particular `copy`'s wait for solitude is over at once. */
  lemma FreeClientMoves(s: State, c: nat) returns (step: Step)
    requires Inv(s) && c < |s.clients| && s.clients[c].stage == Go && s.clients[c].ops != []
    ensures IsProgress(step) && !step.Admit? && Enabled(s, step)
  {
    var client := s.clients[c];
    assert ClientOk(s, c) && HoldOk(s, c);
    match client.ops[0]
    case Enter(_, _, _) => step := Submit(c);
    case Done(_) => step := Advance(c);
    case AwaitAlone(m) =>
      var kind :| client.last == Some((m, kind)) && Exclusive(kind);
      var ex := s.mboxes[m].executing;
      assert RunOk(s, m);
      var i :| 0 <= i < |ex| && IsHeld(ex[i], c, client.entered - 1, kind);
      assert !Completed(s, ex[i]) && |ex| == 1;
      step := Advance(c);
  }

  lemma NothingRuns(s: State, m: nat)
    requires Inv(s) && m < |s.mboxes|
    requires forall c :: 0 <= c < |s.clients| ==> s.clients[c].stage != Go || s.clients[c].ops == []
    ensures Uncompleted(s, s.mboxes[m].executing) == []
  {
    var ex := s.mboxes[m].executing;
    assert RunOk(s, m);
    forall i | 0 <= i < |ex| ensures Completed(s, ex[i]) {
      assert ClientOk(s, ex[i].client);
    }
    NoneUncompleted(s, ex);
  }

  lemma {:induction false} NoneUncompleted(s: State, tasks: seq<Task>)
    requires forall i :: 0 <= i < |tasks| ==> Completed(s, tasks[i])
    ensures Uncompleted(s, tasks) == []
  {
    if tasks != [] { NoneUncompleted(s, tasks[1..]); }
  }

  /** The surroundings at their worst: every set that can turn out invalid is looked at again. */
  ghost predicate Strict(s: State, step: Step)
    requires Enabled(s, step)
  {
    step.Admit? ==> s.mboxes[step.m].cur.value.validity == Valid
  }

  /** No deadlock: while any client that has not had its command dropped is unfinished, some step is possible, whatever
      became of the others; and one in the harshest surroundings, too. */
  lemma NotStuck(s: State, c: nat) returns (step: Step)
    requires Inv(s) && c < |s.clients| && !Settled(s.clients[c])
    ensures IsProgress(step) && Enabled(s, step) && Strict(s, step)
  {
    if d: nat :| d < |s.clients| && s.clients[d].stage == Go && s.clients[d].ops != [] {
      step := FreeClientMoves(s, d);
    } else {
      assert ClientOk(s, c) && WaitOk(s, c);
      var m := s.clients[c].ops[0].mbox;
      NothingRuns(s, m);
      assert QueueOk(s, m);
      if s.mboxes[m].cur.None? {
        step := Take(m, {});
      } else {
        assert Pending(s, m, s.mboxes[m].cur.value, Taken);
        step := if s.mboxes[m].cur.value.validity == Valid then Admit(m, {}) else Drop(m);
      }
    }
  }

  /** A run cannot go on exactly when every client has finished or has had its command dropped. */
  lemma ExhaustedIff(s: State)
    requires Inv(s)
    ensures Exhausted(s) <==> forall c :: 0 <= c < |s.clients| ==> Settled(s.clients[c])
  {
    if c: nat :| c < |s.clients| && !Settled(s.clients[c]) {
      var step := NotStuck(s, c);
    } else {
      forall step | IsProgress(step) ensures !Enabled(s, step) {
        NothingEnabled(s, step);
      }
    }
  }

  lemma NothingEnabled(s: State, step: Step)
    requires Inv(s) && IsProgress(step)
    requires forall c :: 0 <= c < |s.clients| ==> Settled(s.clients[c])
    ensures !Enabled(s, step)
  {
    match step
    case Submit(_) =>
    case Take(m, _) => if m < |s.mboxes| { WaitersAreUnsettled(s, m); }
    case Admit(m, _) => if m < |s.mboxes| { WaitersAreUnsettled(s, m); }
    case Drop(m) => if m < |s.mboxes| { WaitersAreUnsettled(s, m); }
    case Advance(_) =>
  }

  lemma WaitersAreUnsettled(s: State, m: nat)
    requires Inv(s) && m < |s.mboxes|
    ensures s.mboxes[m].queue != [] || s.mboxes[m].cur.Some? ==>
      exists c :: 0 <= c < |s.clients| && !Settled(s.clients[c])
  {
    var mbox := s.mboxes[m];
    assert QueueOk(s, m);
    if mbox.queue != [] {
      assert Pending(s, m, mbox.queue[0], Queued);
      assert !Settled(s.clients[mbox.queue[0].client]);
    } else if mbox.cur.Some? {
      assert Pending(s, m, mbox.cur.value, Taken);
      assert !Settled(s.clients[mbox.cur.value.client]);
    }
  }

  // ---------- Every workload drains ----------

  function StageWeight(stage: Stage): nat {
    match stage case Go => 3 case Queued => 2 case Taken => 1 case Lost => 0
  }

  function ClientWeight(c: Client): nat {
    if c.ops == [] then 0 else 4 * |c.ops| + StageWeight(c.stage)
  }

  function Weight(clients: seq<Client>): nat {
    if clients == [] then 0 else ClientWeight(clients[0]) + Weight(clients[1..])
  }

  function Measure(s: State): nat { Weight(s.clients) }

  lemma {:induction false} WeightMoved(clients: seq<Client>, c: nat, client: Client)
    requires c < |clients|
    ensures Weight(clients[c := client]) == Weight(clients) - ClientWeight(clients[c]) + ClientWeight(client)
  {
    var clients' := clients[c := client];
    if c == 0 {
      assert clients'[1..] == clients[1..];
    } else {
      assert clients'[1..] == clients[1..][c - 1 := client];
      WeightMoved(clients[1..], c - 1, client);
    }
  }

  /** Each progress step uses up some of the remaining work; the surroundings add none. */
  lemma StepDecreases(s: State, step: Step)
    requires Inv(s) && Enabled(s, step)
    ensures if IsProgress(step) then Measure(Do(s, step)) < Measure(s) else Measure(Do(s, step)) == Measure(s)
  {
    match step
    case Submit(c) => WeightMoved(s.clients, c, Do(s, step).clients[c]);
    case Take(m, msgs) => TakeDecreases(s, m, msgs);
    case Admit(m, msgs) => AdmitDecreases(s, m, msgs);
    case Drop(m) => DropDecreases(s, m);
    case Advance(c) => WeightMoved(s.clients, c, Do(s, step).clients[c]);
    case Sweep(_) =>
    case Change(_, _, _) =>
  }

  lemma TakeDecreases(s: State, m: nat, msgs: set<nat>)
    requires Inv(s) && CanTake(s, m)
    ensures Measure(DoTake(s, m, msgs)) < Measure(s)
  {
    var t := s.mboxes[m].queue[0];
    assert QueueOk(s, m) && Pending(s, m, t, Queued);
    WeightMoved(s.clients, t.client, DoTake(s, m, msgs).clients[t.client]);
  }

  lemma AdmitDecreases(s: State, m: nat, msgs: set<nat>)
    requires Inv(s) && Enabled(s, Admit(m, msgs))
    ensures Measure(DoAdmit(s, m, msgs)) < Measure(s)
  {
    var c := s.mboxes[m].cur.value.client;
    assert QueueOk(s, m) && Pending(s, m, s.mboxes[m].cur.value, Taken);
    WeightMoved(s.clients, c, DoAdmit(s, m, msgs).clients[c]);
  }

  lemma DropDecreases(s: State, m: nat)
    requires Inv(s) && CanDrop(s, m)
    ensures Measure(DoDrop(s, m)) < Measure(s)
  {
    var c := s.mboxes[m].cur.value.client;
    assert QueueOk(s, m) && Pending(s, m, s.mboxes[m].cur.value, Taken);
    WeightMoved(s.clients, c, DoDrop(s, m).clients[c]);
  }

  function ProgressSteps(steps: seq<Step>): nat {
    if steps == [] then 0
    else ProgressSteps(steps[..|steps| - 1]) + if IsProgress(steps[|steps| - 1]) then 1 else 0
  }

  lemma {:induction false} ProgressBounded(states: seq<State>, steps: seq<Step>, i: nat)
    requires IsRun(states, steps) && Inv(states[0]) && i <= |steps|
    ensures ProgressSteps(steps[..i]) + Measure(states[i]) <= Measure(states[0])
  {
    if i > 0 {
      ProgressBounded(states, steps, i - 1);
      RunKeepsInv(states, steps, i - 1);
      StepDecreases(states[i - 1], steps[i - 1]);
      ProgressStepsNext(steps, i - 1);
    }
  }

  lemma ProgressStepsNext(steps: seq<Step>, i: nat)
    requires i < |steps|
    ensures ProgressSteps(steps[..i + 1]) == ProgressSteps(steps[..i]) + if IsProgress(steps[i]) then 1 else 0
  {
    assert steps[..i + 1][..i] == steps[..i];
  }

  /** Every run makes at most as many steps as the work it starts with, and one that cannot go on leaves only finished
      clients and those whose commands were dropped. */
  lemma RunsDrain(states: seq<State>, steps: seq<Step>)
    requires IsRun(states, steps) && Inv(states[0])
    ensures ProgressSteps(steps) <= Measure(states[0])
    ensures var last := states[|states| - 1];
      Exhausted(last) <==> forall c :: 0 <= c < |last.clients| ==> Settled(last.clients[c])
  {
    ProgressBounded(states, steps, |steps|);
    TakeAll(steps);
    RunKeepsInv(states, steps, |states| - 1);
    ExhaustedIff(states[|states| - 1]);
  }

  // ---------- Which clients finish ----------

  predicate IsSet(op: Op, v: Validity) { op.Enter? && op.validity == v }

  ghost predicate HoldsSet(ops: seq<Op>, v: Validity) {
    exists i :: 0 <= i < |ops| && IsSet(ops[i], v)
  }

  /** Client c still has to enter with a message set of this validity. */
  ghost predicate HasSet(s: State, c: nat, v: Validity) {
    c < |s.clients| && HoldsSet(s.clients[c].ops, v)
  }

  /** A set that is not valid stays before its client, unless it is one that only a second look would catch and no
      second look is taken. */
  lemma StepKeepsSet(s: State, step: Step, c: nat, v: Validity)
    requires Inv(s) && Enabled(s, step) && HasSet(s, c, v) && v != Valid && (v == Invalid || Strict(s, step))
    ensures HasSet(Do(s, step), c, v)
  {
    var s' := Do(s, step);
    var ops, ops' := s.clients[c].ops, s'.clients[c].ops;
    var i :| 0 <= i < |ops| && IsSet(ops[i], v);
    if step.Admit? {
      assert QueueOk(s, step.m) && Pending(s, step.m, s.mboxes[step.m].cur.value, Taken);
    }
    if ops' != ops {
      assert ops' == ops[1..] && i > 0;
      assert ops'[i - 1] == ops[i];
    }
  }

  lemma {:induction false} RunKeepsSet(states: seq<State>, steps: seq<Step>, c: nat, v: Validity, i: nat)
    requires IsRun(states, steps) && Inv(states[0]) && HasSet(states[0], c, v) && i < |states| && v != Valid
    requires v == Invalid || forall j :: 0 <= j < |steps| ==> Strict(states[j], steps[j])
    ensures HasSet(states[i], c, v)
  {
    if i > 0 {
      RunKeepsSet(states, steps, c, v, i - 1);
      RunKeepsInv(states, steps, i - 1);
      StepKeepsSet(states[i - 1], steps[i - 1], c, v);
    }
  }

  /** All sets before client c are valid. */
  ghost predicate AllValid(s: State, c: nat)
    requires c < |s.clients|
  {
    forall i :: 0 <= i < |s.clients[c].ops| && s.clients[c].ops[i].Enter? ==> s.clients[c].ops[i].validity == Valid
  }

  lemma {:induction false} RunKeepsValid(states: seq<State>, steps: seq<Step>, c: nat, i: nat)
    requires IsRun(states, steps) && Inv(states[0]) && c < |states[0].clients| && AllValid(states[0], c) && i < |states|
    ensures c < |states[i].clients| && AllValid(states[i], c)
  {
    if i > 0 {
      RunKeepsValid(states, steps, c, i - 1);
      var ops, ops' := states[i - 1].clients[c].ops, states[i].clients[c].ops;
      assert ops' == ops || (ops != [] && ops' == ops[1..]);
    }
  }

  /** In every run that cannot go on, a client with valid sets has finished, and one with an invalid set has not:
      whether another client's command is dropped makes no difference to it. */
  lemma ClientFinishes(states: seq<State>, steps: seq<Step>, c: nat)
    requires IsRun(states, steps) && Inv(states[0]) && c < |states[0].clients| && Exhausted(states[|states| - 1])
    ensures c < |states[|states| - 1].clients|
    ensures AllValid(states[0], c) ==> states[|states| - 1].clients[c].ops == []
    ensures HasSet(states[0], c, Invalid) ==> states[|states| - 1].clients[c].ops != []
  {
    var last := states[|states| - 1];
    RunKeepsInv(states, steps, |states| - 1);
    RunKeepsClients(states, steps, |states| - 1);
    ExhaustedIff(last);
    assert ClientOk(last, c);
    if AllValid(states[0], c) { RunKeepsValid(states, steps, c, |states| - 1); }
    if HasSet(states[0], c, Invalid) { RunKeepsSet(states, steps, c, Invalid, |states| - 1); }
  }

  lemma {:induction false} RunKeepsClients(states: seq<State>, steps: seq<Step>, i: nat)
    requires IsRun(states, steps) && i < |states|
    ensures |states[i].clients| == |states[0].clients|
  {
    if i > 0 { RunKeepsClients(states, steps, i - 1); }
  }

  /** From any reachable state some run goes as far as it can, in the harshest surroundings. */
  lemma {:induction false} CanDrain(s: State) returns (states: seq<State>, steps: seq<Step>)
    requires Inv(s)
    ensures IsRun(states, steps) && states[0] == s && Exhausted(states[|states| - 1])
    ensures forall i :: 0 <= i < |steps| ==> Strict(states[i], steps[i])
    decreases Measure(s)
  {
    if c: nat :| c < |s.clients| && !Settled(s.clients[c]) {
      var step := NotStuck(s, c);
      StepKeepsInv(s, step);
      StepDecreases(s, step);
      var later, laterSteps := CanDrain(Do(s, step));
      states, steps := [s] + later, [step] + laterSteps;
      assert states[|states| - 1] == later[|later| - 1];
      forall i | 0 <= i < |steps|
        ensures Enabled(states[i], steps[i]) && states[i + 1] == Do(states[i], steps[i]) && Strict(states[i], steps[i])
      {
        if i > 0 { assert states[i] == later[i - 1] && steps[i] == laterSteps[i - 1]; }
      }
    } else {
      ExhaustedIff(s);
      states, steps := [s], [];
    }
  }

  /** A run from s that cannot go on. */
  ghost predicate IsFullRun(states: seq<State>, steps: seq<Step>, s: State) {
    IsRun(states, steps) && states[0] == s && Exhausted(states[|states| - 1])
  }

  /** Client c has finished in every such run. */
  ghost predicate AlwaysFinishes(s: State, c: nat)
    requires c < |s.clients|
  {
    forall states: seq<State>, steps: seq<Step> :: IsFullRun(states, steps, s) ==>
      c < |states[|states| - 1].clients| && states[|states| - 1].clients[c].ops == []
  }

  lemma HoldsSetAppend(a: seq<Op>, b: seq<Op>, v: Validity)
    ensures HoldsSet(a + b, v) <==> HoldsSet(a, v) || HoldsSet(b, v)
  {
    assert forall i :: 0 <= i < |a| ==> (a + b)[i] == a[i];
    assert forall i :: 0 <= i < |b| ==> (a + b)[|a| + i] == b[i];
  }

  lemma RequestValid(r: Request, n: nat, v: Validity)
    requires v != Valid
    ensures HoldsSet(OpsOf(r, n), v) <==> r.validity == v
  {
    assert OpsOf(r, n)[0].Enter? && OpsOf(r, n)[0].validity == r.validity;
  }

  lemma {:induction false} ProgramValid(rs: seq<Request>, n: nat, v: Validity)
    requires v != Valid
    ensures HoldsSet(Program(rs, n), v) <==> exists i :: 0 <= i < |rs| && rs[i].validity == v
  {
    if rs != [] {
      var first, rest := OpsOf(rs[0], n), Program(rs[1..], n + EntersOf(rs[0]));
      ProgramValid(rs[1..], n + EntersOf(rs[0]), v);
      RequestValid(rs[0], n, v);
      HoldsSetAppend(first, rest, v);
      assert forall i :: 0 <= i < |rs| - 1 ==> rs[1..][i] == rs[i + 1];
      assert forall i :: 1 <= i < |rs| ==> rs[i] == rs[1..][i - 1];
    }
  }

  lemma StartsWithSet(requests: seq<seq<Request>>, mboxes: nat, c: nat, v: Validity)
    requires c < |requests| && v != Valid
    ensures HasSet(Init(requests, mboxes), c, v) <==> exists i :: 0 <= i < |requests[c]| && requests[c][i].validity == v
  {
    ProgramValid(requests[c], 0, v);
    assert Init(requests, mboxes).clients[c].ops == Program(requests[c], 0);
  }

  /** In a workload of any number of clients and mailboxes, a client always finishes if and only if all its own message
      sets are valid: opposite COPYs and MOVEs, those into their own source, and the dropped commands of others never
      stand in its way. */
  lemma DrainsIff(requests: seq<seq<Request>>, mboxes: nat, c: nat)
    requires ValidRequests(requests, mboxes) && c < |requests|
    ensures AlwaysFinishes(Init(requests, mboxes), c)
      <==> forall i :: 0 <= i < |requests[c]| ==> requests[c][i].validity == Valid
  {
    var s := Init(requests, mboxes);
    StartInv(requests, mboxes);
    StartsWithSet(requests, mboxes, c, Invalid);
    StartsWithSet(requests, mboxes, c, InvalidAfterResync);
    if forall i :: 0 <= i < |requests[c]| ==> requests[c][i].validity == Valid {
      assert AllValid(s, c) by {
        assert forall i, v :: 0 <= i < |s.clients[c].ops| && IsSet(s.clients[c].ops[i], v) ==> v == Valid;
        assert forall i :: 0 <= i < |s.clients[c].ops| && s.clients[c].ops[i].Enter? ==>
          IsSet(s.clients[c].ops[i], s.clients[c].ops[i].validity);
      }
      forall states: seq<State>, steps: seq<Step> | IsFullRun(states, steps, s)
        ensures c < |states[|states| - 1].clients| && states[|states| - 1].clients[c].ops == []
      {
        ClientFinishes(states, steps, c);
      }
    } else {
      var i :| 0 <= i < |requests[c]| && requests[c][i].validity != Valid;
      var states, steps := CanDrain(s);
      RunKeepsSet(states, steps, c, requests[c][i].validity, |states| - 1);
      assert IsFullRun(states, steps, s);
    }
  }
}
