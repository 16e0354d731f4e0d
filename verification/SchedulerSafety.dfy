/** What every step of the scheduler keeps. */
module SchedulerSafety {
  import opened Admission
  import opened Scheduler

  /** The client's remaining operations are disciplined, and it waits only to enter a mailbox. */
  ghost predicate ClientOk(s: State, c: nat)
    requires c < |s.clients|
  {
    var client := s.clients[c];
    && Disciplined(client.ops, client.entered, client.completed, client.last, |s.mboxes|)
    && (!client.stage.Go? ==> client.ops != [] && client.ops[0].Enter?)
    && (client.stage.Lost? ==> client.ops[0].validity != Valid)
  }

  /** Task t is the pending command of a client that stands at stage `stage` before mailbox m. */
  ghost predicate Pending(s: State, m: nat, t: Task, stage: Stage) {
    && t.client < |s.clients|
    && var client := s.clients[t.client];
       client.stage == stage && t.n == client.entered
       && client.ops != [] && client.ops[0].Enter? && client.ops[0].mbox == m
       && client.ops[0].validity == t.validity && client.ops[0].cmd.kind == t.cmd.kind
  }

  /** The queue and the management task hold pending commands, of different clients. */
  ghost predicate QueueOk(s: State, m: nat)
    requires m < |s.mboxes|
  {
    var mbox := s.mboxes[m];
    && (forall i :: 0 <= i < |mbox.queue| ==> Pending(s, m, mbox.queue[i], Queued))
    && (forall i, j :: 0 <= i < j < |mbox.queue| ==> mbox.queue[i].client != mbox.queue[j].client)
    && (mbox.cur.Some? ==> Pending(s, m, mbox.cur.value, Taken) && mbox.cur.value.validity != Invalid)
  }

  /** A waiting client's command is where the client believes it to be. */
  ghost predicate WaitOk(s: State, c: nat)
    requires c < |s.clients|
  {
    var client := s.clients[c];
    client.ops != [] && client.ops[0].Enter? && client.ops[0].mbox < |s.mboxes| ==>
      var mbox := s.mboxes[client.ops[0].mbox];
      && (client.stage == Queued ==> exists i :: 0 <= i < |mbox.queue| && mbox.queue[i].client == c)
      && (client.stage == Taken ==> mbox.cur.Some? && mbox.cur.value.client == c)
  }

  /** Running commands are compatible in the order of their admission, and an exclusive one is alone. */
  ghost predicate RunOk(s: State, m: nat)
    requires m < |s.mboxes|
  {
    var ex := s.mboxes[m].executing;
    && (forall i :: 0 <= i < |ex| ==> ex[i].client < |s.clients| && ex[i].n < s.clients[ex[i].client].entered)
    && (forall i, j :: 0 <= i < j < |ex| && !Completed(s, ex[i]) && !Completed(s, ex[j]) ==>
          Compatible(ex[i].cmd, ex[j].cmd))
    && (forall i :: 0 <= i < |ex| && !Completed(s, ex[i]) && Exclusive(ex[i].cmd.kind) ==> |ex| == 1)
  }

  ghost predicate IsHeld(t: Task, c: nat, n: nat, kind: Kind) {
    t.client == c && t.n == n && t.cmd.kind == kind
  }

  /** An uncompleted command is in the executing list of the mailbox that admitted it. */
  ghost predicate HoldOk(s: State, c: nat)
    requires c < |s.clients|
  {
    var client := s.clients[c];
    0 < client.entered && client.entered - 1 !in client.completed ==>
      && client.last.Some?
      && client.last.value.0 < |s.mboxes|
      && var ex := s.mboxes[client.last.value.0].executing;
         exists i :: 0 <= i < |ex| && IsHeld(ex[i], c, client.entered - 1, client.last.value.1)
  }

  function Ids(tasks: seq<Task>): (r: seq<(nat, nat)>)
    ensures |r| == |tasks| && forall i :: 0 <= i < |tasks| ==> r[i] == (tasks[i].client, tasks[i].n)
  {
    seq(|tasks|, i requires 0 <= i < |tasks| => (tasks[i].client, tasks[i].n))
  }

  /** First come, first served: commands are settled in the order in which they arrived, and none is forgotten. */
  ghost predicate FifoOk(s: State, m: nat)
    requires m < |s.mboxes|
  {
    var mbox := s.mboxes[m];
    mbox.arrived == mbox.settled + Ids(if mbox.cur.Some? then [mbox.cur.value] else []) + Ids(mbox.queue)
  }

  ghost predicate Inv(s: State) {
    && (forall c :: 0 <= c < |s.clients| ==> ClientOk(s, c) && WaitOk(s, c) && HoldOk(s, c))
    && (forall m :: 0 <= m < |s.mboxes| ==> QueueOk(s, m) && RunOk(s, m) && FifoOk(s, m))
  }

  lemma InitInv(requests: seq<seq<Request>>, mboxes: nat)
    requires forall rs :: rs in requests ==> forall r :: r in rs ==> InMboxes(r, mboxes)
    ensures Inv(Init(requests, mboxes))
  {
    var s := Init(requests, mboxes);
    forall c | 0 <= c < |s.clients| ensures ClientOk(s, c) {
      assert requests[c] in requests;
      ProgramDisciplined(requests[c], 0, mboxes);
      assert Below(0) == {};
    }
  }

  // ---------- What a step leaves alone ----------

  /** Only client c and mailbox m may differ. */
  ghost predicate Frame(s: State, s': State, c: nat, m: nat) {
    && |s'.clients| == |s.clients| && |s'.mboxes| == |s.mboxes|
    && (forall d :: 0 <= d < |s.clients| && d != c ==> s'.clients[d] == s.clients[d])
    && (forall k :: 0 <= k < |s.mboxes| && k != m ==> s'.mboxes[k] == s.mboxes[k])
  }

  /** Completed commands stay completed, and clients' counters only grow. */
  ghost predicate Grows(s: State, s': State) {
    && |s'.clients| == |s.clients|
    && forall c :: 0 <= c < |s.clients| ==>
         s.clients[c].entered <= s'.clients[c].entered && s.clients[c].completed <= s'.clients[c].completed
  }

  lemma RunStays(s: State, s': State, m: nat)
    requires m < |s.mboxes| && m < |s'.mboxes| && s'.mboxes[m].executing == s.mboxes[m].executing
    requires Grows(s, s') && RunOk(s, m)
    ensures RunOk(s', m)
  {
    var ex := s.mboxes[m].executing;
    forall i | 0 <= i < |ex| && !Completed(s', ex[i]) ensures !Completed(s, ex[i]) {
    }
  }

  lemma {:induction false} UncompletedKeepsOrder(s: State, tasks: seq<Task>, i: nat, j: nat) returns (a: nat, b: nat)
    requires i < j < |Uncompleted(s, tasks)|
    ensures a < b < |tasks| && tasks[a] == Uncompleted(s, tasks)[i] && tasks[b] == Uncompleted(s, tasks)[j]
  {
    if Completed(s, tasks[0]) {
      a, b := UncompletedKeepsOrder(s, tasks[1..], i, j);
      a, b := a + 1, b + 1;
    } else if i > 0 {
      a, b := UncompletedKeepsOrder(s, tasks[1..], i - 1, j - 1);
      a, b := a + 1, b + 1;
    } else {
      var t := Uncompleted(s, tasks[1..])[j - 1];
      assert t in tasks[1..];
      b :| 1 <= b < |tasks| && tasks[b] == t;
      a := 0;
    }
  }

  /** Each task is compatible with those admitted after it. */
  ghost predicate InOrder(tasks: seq<Task>) {
    forall i, j :: 0 <= i < j < |tasks| ==> Compatible(tasks[i].cmd, tasks[j].cmd)
  }

  ghost predicate AloneIfExclusive(tasks: seq<Task>) {
    forall i :: 0 <= i < |tasks| && Exclusive(tasks[i].cmd.kind) ==> |tasks| == 1
  }

  ghost predicate AllEntered(s: State, tasks: seq<Task>) {
    forall i :: 0 <= i < |tasks| ==>
      tasks[i].client < |s.clients| && tasks[i].n < s.clients[tasks[i].client].entered
  }

  lemma SweptCompatible(s: State, m: nat)
    requires m < |s.mboxes| && RunOk(s, m)
    ensures var u := Uncompleted(s, s.mboxes[m].executing);
      AllEntered(s, u) && InOrder(u) && AloneIfExclusive(u)
  {
    var ex := s.mboxes[m].executing;
    var u := Uncompleted(s, ex);
    forall i | 0 <= i < |u| ensures u[i] in ex && !Completed(s, u[i]) {
      assert u[i] in u;
    }
    forall i, j | 0 <= i < j < |u| ensures Compatible(u[i].cmd, u[j].cmd) {
      var a, b := UncompletedKeepsOrder(s, ex, i, j);
    }
    forall i | 0 <= i < |u| && Exclusive(u[i].cmd.kind) ensures |u| == 1 {
      assert u[i] in ex && !Completed(s, u[i]);
    }
  }

  predicate StandsElsewhere(client: Client, k: nat) {
    client.ops != [] && client.ops[0].Enter? && client.ops[0].mbox != k
  }

  /** A mailbox before which the moving client does not stand keeps its queue in order. */
  lemma QueueStays(s: State, s': State, k: nat, c: nat)
    requires k < |s.mboxes| && k < |s'.mboxes| && QueueOk(s, k) && FifoOk(s, k)
    requires s'.mboxes[k].(executing := []) == s.mboxes[k].(executing := [])
    requires |s'.clients| == |s.clients| && forall d :: 0 <= d < |s.clients| && d != c ==> s'.clients[d] == s.clients[d]
    requires c < |s.clients| ==> s.clients[c].stage == Go || StandsElsewhere(s.clients[c], k)
    ensures QueueOk(s', k) && FifoOk(s', k)
  {
    var mbox := s.mboxes[k];
    assert s'.mboxes[k].queue == mbox.queue && s'.mboxes[k].cur == mbox.cur;
    forall i | 0 <= i < |mbox.queue| ensures Pending(s', k, mbox.queue[i], Queued) {
      assert Pending(s, k, mbox.queue[i], Queued);
    }
  }

  /** A client that does not move keeps its standing when no waiting command leaves its mailbox. */
  lemma ClientStays(s: State, s': State, d: nat)
    requires d < |s.clients| && d < |s'.clients| && |s'.mboxes| == |s.mboxes|
    requires s'.clients[d] == s.clients[d] && ClientOk(s, d) && WaitOk(s, d) && HoldOk(s, d)
    requires forall k, i :: 0 <= k < |s.mboxes| && 0 <= i < |s.mboxes[k].queue| && s.mboxes[k].queue[i].client == d ==>
      exists j :: 0 <= j < |s'.mboxes[k].queue| && s'.mboxes[k].queue[j].client == d
    requires forall k :: 0 <= k < |s.mboxes| && s.mboxes[k].cur.Some? && s.mboxes[k].cur.value.client == d ==>
      s'.mboxes[k].cur == s.mboxes[k].cur
    requires forall k :: 0 <= k < |s.mboxes| ==> s'.mboxes[k].executing == s.mboxes[k].executing
    ensures ClientOk(s', d) && WaitOk(s', d) && HoldOk(s', d)
  {
  }

  // ---------- Preservation, step by step ----------

  lemma SubmitKeepsQueue(s: State, c: nat)
    requires Inv(s) && CanSubmit(s, c)
    ensures var m := s.clients[c].ops[0].mbox; QueueOk(DoSubmit(s, c), m) && FifoOk(DoSubmit(s, c), m)
  {
    var s' := DoSubmit(s, c);
    var m := s.clients[c].ops[0].mbox;
    var queue, queue' := s.mboxes[m].queue, s'.mboxes[m].queue;
    assert QueueOk(s, m) && FifoOk(s, m);
    assert Ids(queue') == Ids(queue) + [(c, s.clients[c].entered)];
    forall i | 0 <= i < |queue| ensures queue[i].client != c && Pending(s', m, queue[i], Queued) {
      assert Pending(s, m, queue[i], Queued);
    }
    assert Pending(s', m, queue'[|queue|], Queued);
  }

  lemma SubmitKeeps(s: State, c: nat)
    requires Inv(s) && CanSubmit(s, c)
    ensures Inv(DoSubmit(s, c))
  {
    var s' := DoSubmit(s, c);
    var m := s.clients[c].ops[0].mbox;
    var queue, queue' := s.mboxes[m].queue, s'.mboxes[m].queue;
    assert Frame(s, s', c, m) && Grows(s, s');
    forall k | 0 <= k < |s.mboxes| ensures QueueOk(s', k) && RunOk(s', k) && FifoOk(s', k) {
      assert QueueOk(s, k) && RunOk(s, k) && FifoOk(s, k);
      RunStays(s, s', k);
      if k == m { SubmitKeepsQueue(s, c); } else { QueueStays(s, s', k, c); }
    }
    assert queue'[|queue|].client == c;
    assert forall i :: 0 <= i < |queue| ==> queue'[i] == queue[i];
    forall d | 0 <= d < |s.clients| ensures ClientOk(s', d) && WaitOk(s', d) && HoldOk(s', d) {
      assert ClientOk(s, d) && WaitOk(s, d) && HoldOk(s, d);
      if d != c { ClientStays(s, s', d); }
    }
  }

  lemma TakeKeepsFifo(s: State, m: nat, msgs: set<nat>)
    requires CanTake(s, m) && FifoOk(s, m)
    ensures FifoOk(DoTake(s, m, msgs), m)
  {
    var s' := DoTake(s, m, msgs);
    var queue, settled := s.mboxes[m].queue, s.mboxes[m].settled;
    var id := (queue[0].client, queue[0].n);
    assert Ids(queue) == [id] + Ids(queue[1..]) && Ids([]) == [];
    assert s.mboxes[m].arrived == settled + [id] + Ids(queue[1..]);
    if queue[0].validity != Invalid {
      assert Ids([s'.mboxes[m].cur.value]) == [id];
    }
  }

  lemma TakeKeepsQueue(s: State, m: nat, msgs: set<nat>)
    requires Inv(s) && CanTake(s, m)
    ensures QueueOk(DoTake(s, m, msgs), m)
  {
    var s' := DoTake(s, m, msgs);
    var queue, queue' := s.mboxes[m].queue, s'.mboxes[m].queue;
    assert QueueOk(s, m) && Pending(s, m, queue[0], Queued);
    assert queue' == queue[1..];
    forall i | 0 <= i < |queue'| ensures Pending(s', m, queue'[i], Queued) {
      assert queue'[i] == queue[i + 1] && Pending(s, m, queue[i + 1], Queued);
      assert queue[i + 1].client != queue[0].client;
    }
    forall i, j | 0 <= i < j < |queue'| ensures queue'[i].client != queue'[j].client {
      assert queue[i + 1].client != queue[j + 1].client;
    }
  }

  lemma TakeKeeps(s: State, m: nat, msgs: set<nat>)
    requires Inv(s) && CanTake(s, m)
    ensures Inv(DoTake(s, m, msgs))
  {
    var s' := DoTake(s, m, msgs);
    var queue := s.mboxes[m].queue;
    var c := queue[0].client;
    assert QueueOk(s, m) && Pending(s, m, queue[0], Queued);
    assert Frame(s, s', c, m) && Grows(s, s');
    forall k | 0 <= k < |s.mboxes| ensures QueueOk(s', k) && RunOk(s', k) && FifoOk(s', k) {
      assert QueueOk(s, k) && RunOk(s, k) && FifoOk(s, k);
      RunStays(s, s', k);
      if k == m {
        TakeKeepsQueue(s, m, msgs);
        TakeKeepsFifo(s, m, msgs);
      } else { QueueStays(s, s', k, c); }
    }
    forall d | 0 <= d < |s.clients| ensures ClientOk(s', d) && WaitOk(s', d) && HoldOk(s', d) {
      assert ClientOk(s, d) && WaitOk(s, d) && HoldOk(s, d);
      if d != c {
        assert forall i :: 1 <= i < |queue| ==> s'.mboxes[m].queue[i - 1] == queue[i];
        ClientStays(s, s', d);
      }
    }
  }

  /** What may be added to a list of compatible commands. */
  ghost predicate Addable(running: seq<Task>, cmd: Cmd) {
    forall i :: 0 <= i < |running| ==> Compatible(running[i].cmd, cmd)
  }

  lemma AddedCompatible(running: seq<Task>, task: Task)
    requires InOrder(running) && (running != [] ==> Addable(running, task.cmd))
    ensures InOrder(running + [task]) && AloneIfExclusive(running + [task])
  {
    if running != [] {
      assert Compatible(running[0].cmd, task.cmd);
      assert forall i :: 0 <= i < |running| ==> !Exclusive(running[i].cmd.kind);
    }
  }

  lemma AdmitAddable(s: State, m: nat)
    requires CanAdmit(s, m)
    ensures Addable(Uncompleted(s, s.mboxes[m].executing), s.mboxes[m].cur.value.cmd)
  {
    var running := Uncompleted(s, s.mboxes[m].executing);
    AdmittedIff(Cmds(running), s.mboxes[m].deleted, s.mboxes[m].cur.value.cmd);
    forall i | 0 <= i < |running| ensures Compatible(running[i].cmd, s.mboxes[m].cur.value.cmd) {
      assert Cmds(running)[i] in Cmds(running);
    }
  }

  lemma AdmitRunOk(s: State, m: nat, msgs: set<nat>)
    requires Inv(s) && Enabled(s, Admit(m, msgs))
    ensures RunOk(DoAdmit(s, m, msgs), m)
  {
    var s' := DoAdmit(s, m, msgs);
    var running := Uncompleted(s, s.mboxes[m].executing);
    var cur := s.mboxes[m].cur.value;
    var ex := s'.mboxes[m].executing;
    assert RunOk(s, m) && QueueOk(s, m) && Pending(s, m, cur, Taken);
    SweptCompatible(s, m);
    AdmitAddable(s, m);
    AddedCompatible(running, ex[|running|]);
    assert AllEntered(s', ex);
  }

  lemma AdmitHoldOk(s: State, m: nat, msgs: set<nat>, d: nat)
    requires Inv(s) && Enabled(s, Admit(m, msgs)) && d < |s.clients|
    ensures HoldOk(DoAdmit(s, m, msgs), d)
  {
    var s' := DoAdmit(s, m, msgs);
    var cur := s.mboxes[m].cur.value;
    var ex, ex' := s.mboxes[m].executing, s'.mboxes[m].executing;
    var running := Uncompleted(s, ex);
    assert HoldOk(s, d) && QueueOk(s, m) && Pending(s, m, cur, Taken);
    if d == cur.client {
      assert IsHeld(ex'[|running|], d, s'.clients[d].entered - 1, s'.clients[d].last.value.1);
    } else {
      var client := s.clients[d];
      if 0 < client.entered && client.entered - 1 !in client.completed && client.last.value.0 == m {
        var i :| 0 <= i < |ex| && IsHeld(ex[i], d, client.entered - 1, client.last.value.1);
        assert ex[i] in running;
        var j :| 0 <= j < |running| && running[j] == ex[i];
        assert ex'[j] == ex[i];
      }
    }
  }

  lemma AdmitKeepsQueue(s: State, m: nat, msgs: set<nat>)
    requires Inv(s) && Enabled(s, Admit(m, msgs))
    ensures QueueOk(DoAdmit(s, m, msgs), m) && FifoOk(DoAdmit(s, m, msgs), m)
  {
    var s' := DoAdmit(s, m, msgs);
    var queue, cur := s.mboxes[m].queue, s.mboxes[m].cur.value;
    assert QueueOk(s, m) && FifoOk(s, m) && Pending(s, m, cur, Taken);
    forall i | 0 <= i < |queue| ensures Pending(s', m, queue[i], Queued) {
      assert Pending(s, m, queue[i], Queued);
    }
    assert Ids([cur]) == [(cur.client, cur.n)];
    assert Ids([]) == [];
  }

  lemma AdmitKeeps(s: State, m: nat, msgs: set<nat>)
    requires Inv(s) && Enabled(s, Admit(m, msgs))
    ensures Inv(DoAdmit(s, m, msgs))
  {
    var s' := DoAdmit(s, m, msgs);
    var c := s.mboxes[m].cur.value.client;
    assert QueueOk(s, m) && Pending(s, m, s.mboxes[m].cur.value, Taken);
    assert Frame(s, s', c, m) && Grows(s, s');
    forall k | 0 <= k < |s.mboxes| ensures QueueOk(s', k) && RunOk(s', k) && FifoOk(s', k) {
      assert QueueOk(s, k) && RunOk(s, k) && FifoOk(s, k);
      if k == m {
        AdmitRunOk(s, m, msgs);
        AdmitKeepsQueue(s, m, msgs);
      } else {
        RunStays(s, s', k);
        QueueStays(s, s', k, c);
      }
    }
    forall d | 0 <= d < |s.clients| ensures ClientOk(s', d) && WaitOk(s', d) && HoldOk(s', d) {
      assert ClientOk(s, d) && WaitOk(s, d);
      AdmitHoldOk(s, m, msgs, d);
    }
  }

  lemma DropKeepsQueue(s: State, m: nat)
    requires Inv(s) && CanDrop(s, m)
    ensures QueueOk(DoDrop(s, m), m) && FifoOk(DoDrop(s, m), m) && RunOk(DoDrop(s, m), m)
  {
    var s' := DoDrop(s, m);
    var queue, cur := s.mboxes[m].queue, s.mboxes[m].cur.value;
    assert QueueOk(s, m) && FifoOk(s, m) && Pending(s, m, cur, Taken);
    forall i | 0 <= i < |queue| ensures Pending(s', m, queue[i], Queued) {
      assert Pending(s, m, queue[i], Queued);
    }
    assert Ids([cur]) == [(cur.client, cur.n)];
    assert Ids([]) == [];
  }

  /** A dropped client held nothing, and what the list loses was completed. */
  lemma DropKeepsClient(s: State, m: nat, d: nat)
    requires Inv(s) && CanDrop(s, m) && d < |s.clients|
    ensures var s' := DoDrop(s, m); ClientOk(s', d) && WaitOk(s', d) && HoldOk(s', d)
  {
    var s' := DoDrop(s, m);
    var ex, cur := s.mboxes[m].executing, s.mboxes[m].cur.value;
    assert ClientOk(s, d) && WaitOk(s, d) && HoldOk(s, d) && QueueOk(s, m) && Pending(s, m, cur, Taken);
    assert forall k :: 0 <= k < |s.mboxes| ==> s'.mboxes[k].queue == s.mboxes[k].queue;
    AllCompleted(s, ex);
  }

  lemma AllCompleted(s: State, tasks: seq<Task>)
    requires Uncompleted(s, tasks) == []
    ensures forall i :: 0 <= i < |tasks| ==> Completed(s, tasks[i])
  {
    forall i | 0 <= i < |tasks| ensures Completed(s, tasks[i]) {
      assert tasks[i] in tasks;
    }
  }

  lemma DropKeeps(s: State, m: nat)
    requires Inv(s) && CanDrop(s, m)
    ensures Inv(DoDrop(s, m))
  {
    var s' := DoDrop(s, m);
    var c := s.mboxes[m].cur.value.client;
    assert QueueOk(s, m) && Pending(s, m, s.mboxes[m].cur.value, Taken);
    assert Frame(s, s', c, m) && Grows(s, s');
    forall k | 0 <= k < |s.mboxes| ensures QueueOk(s', k) && RunOk(s', k) && FifoOk(s', k) {
      assert QueueOk(s, k) && RunOk(s, k) && FifoOk(s, k);
      if k == m {
        DropKeepsQueue(s, m);
      } else {
        RunStays(s, s', k);
        QueueStays(s, s', k, c);
      }
    }
    forall d | 0 <= d < |s.clients| ensures ClientOk(s', d) && WaitOk(s', d) && HoldOk(s', d) {
      DropKeepsClient(s, m, d);
    }
  }

  lemma AdvanceKeeps(s: State, c: nat)
    requires Inv(s) && CanAdvance(s, c)
    ensures Inv(DoAdvance(s, c))
  {
    var s' := DoAdvance(s, c);
    assert Frame(s, s', c, |s.mboxes|) && Grows(s, s');
    forall k | 0 <= k < |s.mboxes| ensures QueueOk(s', k) && RunOk(s', k) && FifoOk(s', k) {
      assert QueueOk(s, k) && RunOk(s, k) && FifoOk(s, k);
      RunStays(s, s', k);
      QueueStays(s, s', k, c);
    }
    forall d | 0 <= d < |s.clients| ensures ClientOk(s', d) && WaitOk(s', d) && HoldOk(s', d) {
      assert ClientOk(s, d) && WaitOk(s, d) && HoldOk(s, d);
    }
  }

  lemma SweepKeepsRun(s: State, m: nat)
    requires m < |s.mboxes| && RunOk(s, m)
    ensures RunOk(Do(s, Sweep(m)), m)
  {
    var ex' := Uncompleted(s, s.mboxes[m].executing);
    SweptCompatible(s, m);
    assert AllEntered(Do(s, Sweep(m)), ex');
  }

  lemma SweepKeepsClient(s: State, m: nat, d: nat)
    requires Inv(s) && m < |s.mboxes| && d < |s.clients|
    ensures var s' := Do(s, Sweep(m)); ClientOk(s', d) && WaitOk(s', d) && HoldOk(s', d)
  {
    var s' := Do(s, Sweep(m));
    var ex, ex' := s.mboxes[m].executing, s'.mboxes[m].executing;
    assert ClientOk(s, d) && WaitOk(s, d) && HoldOk(s, d);
    assert forall k :: 0 <= k < |s.mboxes| ==>
      s'.mboxes[k].queue == s.mboxes[k].queue && s'.mboxes[k].cur == s.mboxes[k].cur;
    var client := s.clients[d];
    if 0 < client.entered && client.entered - 1 !in client.completed && client.last.value.0 == m {
      var i :| 0 <= i < |ex| && IsHeld(ex[i], d, client.entered - 1, client.last.value.1);
      assert ex[i] in ex';
      var j :| 0 <= j < |ex'| && ex'[j] == ex[i];
    }
  }

  lemma SweepKeeps(s: State, m: nat)
    requires Inv(s) && m < |s.mboxes|
    ensures Inv(Do(s, Sweep(m)))
  {
    var s' := Do(s, Sweep(m));
    forall k | 0 <= k < |s.mboxes| ensures QueueOk(s', k) && RunOk(s', k) && FifoOk(s', k) {
      assert QueueOk(s, k) && RunOk(s, k) && FifoOk(s, k);
      QueueStays(s, s', k, |s.clients|);
      if k == m { SweepKeepsRun(s, m); } else { RunStays(s, s', k); }
    }
    forall d | 0 <= d < |s.clients| ensures ClientOk(s', d) && WaitOk(s', d) && HoldOk(s', d) {
      SweepKeepsClient(s, m, d);
    }
  }

  lemma ChangeKeeps(s: State, m: nat, deleted: bool, drain: bool)
    requires Inv(s) && m < |s.mboxes|
    ensures Inv(Do(s, Change(m, deleted, drain)))
  {
    var s' := Do(s, Change(m, deleted, drain));
    forall k | 0 <= k < |s.mboxes| ensures QueueOk(s', k) && RunOk(s', k) && FifoOk(s', k) {
      ChangeKeepsMailbox(s, m, deleted, drain, k);
    }
    forall d | 0 <= d < |s.clients| ensures ClientOk(s', d) && WaitOk(s', d) && HoldOk(s', d) {
      ChangeKeepsClient(s, m, deleted, drain, d);
    }
  }

  lemma ChangeKeepsMailbox(s: State, m: nat, deleted: bool, drain: bool, k: nat)
    requires Inv(s) && m < |s.mboxes| && k < |s.mboxes|
    ensures var s' := Do(s, Change(m, deleted, drain)); QueueOk(s', k) && RunOk(s', k) && FifoOk(s', k)
  {
    assert QueueOk(s, k) && RunOk(s, k) && FifoOk(s, k);
  }

  lemma ChangeKeepsClient(s: State, m: nat, deleted: bool, drain: bool, d: nat)
    requires Inv(s) && m < |s.mboxes| && d < |s.clients|
    ensures var s' := Do(s, Change(m, deleted, drain)); ClientOk(s', d) && WaitOk(s', d) && HoldOk(s', d)
  {
    var s' := Do(s, Change(m, deleted, drain));
    assert forall k :: 0 <= k < |s.mboxes| ==>
      s'.mboxes[k] == s.mboxes[k].(deleted := s'.mboxes[k].deleted, drain := s'.mboxes[k].drain);
    assert ClientOk(s, d) && WaitOk(s, d) && HoldOk(s, d);
  }

  /** Every step keeps the invariant. */
  lemma StepKeepsInv(s: State, step: Step)
    requires Inv(s) && Enabled(s, step)
    ensures Inv(Do(s, step))
  {
    match step
    case Submit(c) => SubmitKeeps(s, c);
    case Take(m, msgs) => TakeKeeps(s, m, msgs);
    case Admit(m, msgs) => AdmitKeeps(s, m, msgs);
    case Drop(m) => DropKeeps(s, m);
    case Advance(c) => AdvanceKeeps(s, c);
    case Sweep(m) => SweepKeeps(s, m);
    case Change(m, deleted, drain) => ChangeKeeps(s, m, deleted, drain);
  }
}
