/** The command queues and management tasks of several mailboxes, and the clients that use them.

    A client runs a list of operations. `Enter` is `ready_and_okay`'s entry: the command is queued and the client
    waits until the mailbox's management task has admitted it. `Done` sets a command's `completed`. */
module Scheduler {
  import opened Base
  import opened Admission

  // ---------- Clients ----------

  /** What the management task finds when it looks at a command's message set: when it takes the command up, and again
      if it then resyncs and the mailbox has changed. */
  datatype Validity = Valid | Invalid | InvalidAfterResync

  datatype Op =
    | Enter(mbox: nat, cmd: Cmd, validity: Validity)
    /** `copy`'s loop `while len(dst_mbox.executing_tasks) > 1`. */
    | AwaitAlone(mbox: nat)
    /** Sets `completed` on the client's n-th command; harmless when it is set already. */
    | Done(n: nat)

  /** An IMAP command of a client; `msgs` is what its message set resolves to. */
  datatype Request =
    | Simple(mbox: nat, cmd: Cmd, validity: Validity)
    | CopyTo(src: nat, dst: nat, msgs: set<nat>, validity: Validity)
    | MoveTo(src: nat, dst: nat, msgs: set<nat>, validity: Validity)

  const APPEND_CMD := Cmd(Append, true, {})
  const EXPUNGE_CMD := Cmd(Expunge, true, {})

  /** The operations of one request, when the client has entered `n` commands before. */
  function OpsOf(r: Request, n: nat): seq<Op> {
    match r
    case Simple(m, cmd, validity) => [Enter(m, cmd, validity), Done(n)]
    // copy() completes the source command before it queues the phony APPEND; both are completed again on the way out.
    case CopyTo(src, dst, msgs, validity) =>
      [Enter(src, Cmd(Copy, true, msgs), validity), Done(n),
       Enter(dst, APPEND_CMD, Valid), AwaitAlone(dst), Done(n + 1), Done(n + 1), Done(n)]
    case MoveTo(src, dst, msgs, validity) =>
      [Enter(src, Cmd(Move, true, msgs), validity), Done(n),
       Enter(dst, APPEND_CMD, Valid), AwaitAlone(dst), Done(n + 1), Done(n + 1), Done(n),
       Enter(src, EXPUNGE_CMD, Valid), Done(n + 2)]
  }

  function EntersOf(r: Request): nat {
    match r case Simple(_, _, _) => 1 case CopyTo(_, _, _, _) => 2 case MoveTo(_, _, _, _) => 3
  }

  function Program(rs: seq<Request>, n: nat): seq<Op> {
    if rs == [] then [] else OpsOf(rs[0], n) + Program(rs[1..], n + EntersOf(rs[0]))
  }

  /** Where a client stands before its next operation: free to go on, in a queue, in the hands of a management task,
      or lost because the task dropped its command. */
  datatype Stage = Go | Queued | Taken | Lost

  /** `last` is the mailbox and kind of the last admitted command. */
  datatype Client = Client(ops: seq<Op>, stage: Stage, entered: nat, completed: set<nat>, last: Option<(nat, Kind)>)

  // ---------- Mailboxes ----------

  /** The n-th command of a client. */
  datatype Task = Task(client: nat, n: nat, cmd: Cmd, validity: Validity)

  /** `cur` is the command the management task holds. `deleted`: some message is marked Deleted. `drain`: the last
      resync is too long ago, so that everything running must finish first. `arrived` and `settled` list the commands
      queued so far, and those admitted or dropped so far. */
  datatype Mbox = Mbox(
    queue: seq<Task>, cur: Option<Task>, executing: seq<Task>, deleted: bool, drain: bool,
    arrived: seq<(nat, nat)>, settled: seq<(nat, nat)>)

  datatype State = State(clients: seq<Client>, mboxes: seq<Mbox>)

  predicate Completed(s: State, t: Task) {
    t.client < |s.clients| && t.n in s.clients[t.client].completed
  }

  /** `_cleanup_executing_tasks`. */
  function Uncompleted(s: State, tasks: seq<Task>): (r: seq<Task>)
    ensures |r| <= |tasks|
    ensures forall t :: t in r <==> t in tasks && !Completed(s, t)
  {
    if tasks == [] then []
    else if Completed(s, tasks[0]) then Uncompleted(s, tasks[1..])
    else [tasks[0]] + Uncompleted(s, tasks[1..])
  }

  function Cmds(tasks: seq<Task>): (r: seq<Cmd>)
    ensures |r| == |tasks| && forall i :: 0 <= i < |tasks| ==> r[i] == tasks[i].cmd
  {
    seq(|tasks|, i requires 0 <= i < |tasks| => tasks[i].cmd)
  }

  // ---------- Steps ----------

  datatype Step =
    /** A client puts its next command on the mailbox's queue. */
    | Submit(c: nat)
    /** The management task takes the head of the queue and resolves its message set. */
    | Take(m: nat, msgs: set<nat>)
    /** It admits that command; if nothing runs it resyncs first and may resolve the set anew. */
    | Admit(m: nat, msgs: set<nat>)
    /** Nothing runs, and the set turns out invalid when it is resolved anew. */
    | Drop(m: nat)
    /** A client that is not waiting performs its next `Done` or finds `AwaitAlone` satisfied. */
    | Advance(c: nat)
    /** The surroundings: completed commands are swept out, flags and time change. */
    | Sweep(m: nat)
    | Change(m: nat, deleted: bool, drain: bool)

  predicate IsProgress(step: Step) { !step.Sweep? && !step.Change? }

  predicate CanSubmit(s: State, c: nat) {
    && c < |s.clients| && s.clients[c].stage == Go && s.clients[c].ops != []
    && s.clients[c].ops[0].Enter? && s.clients[c].ops[0].mbox < |s.mboxes|
  }

  predicate CanTake(s: State, m: nat) {
    m < |s.mboxes| && s.mboxes[m].cur.None? && s.mboxes[m].queue != []
  }

  predicate CanAdmit(s: State, m: nat) {
    && m < |s.mboxes| && s.mboxes[m].cur.Some?
    && var running := Uncompleted(s, s.mboxes[m].executing);
       && !WouldConflict(Cmds(running), s.mboxes[m].deleted, s.mboxes[m].cur.value.cmd)
       && (s.mboxes[m].drain ==> running == [])
  }

  predicate CanDrop(s: State, m: nat) {
    && m < |s.mboxes| && s.mboxes[m].cur.Some? && s.mboxes[m].cur.value.validity == InvalidAfterResync
    && Uncompleted(s, s.mboxes[m].executing) == []
  }

  predicate CanAdvance(s: State, c: nat) {
    && c < |s.clients| && s.clients[c].stage == Go && s.clients[c].ops != []
    && match s.clients[c].ops[0]
       case Enter(_, _, _) => false
       case Done(_) => true
       case AwaitAlone(m) => m < |s.mboxes| && |s.mboxes[m].executing| <= 1
  }

  predicate Enabled(s: State, step: Step) {
    match step
    case Submit(c) => CanSubmit(s, c)
    case Take(m, _) => CanTake(s, m)
    case Admit(m, _) => CanAdmit(s, m) && s.mboxes[m].cur.value.client < |s.clients|
                        && s.clients[s.mboxes[m].cur.value.client].ops != []
    case Drop(m) => CanDrop(s, m)
    case Advance(c) => CanAdvance(s, c)
    case Sweep(m) => m < |s.mboxes|
    case Change(m, _, _) => m < |s.mboxes|
  }

  function WithClient(s: State, c: nat, client: Client): State
    requires c < |s.clients|
  {
    s.(clients := s.clients[c := client])
  }

  function WithMbox(s: State, m: nat, mbox: Mbox): State
    requires m < |s.mboxes|
  {
    s.(mboxes := s.mboxes[m := mbox])
  }

  function DoSubmit(s: State, c: nat): State
    requires CanSubmit(s, c)
  {
    var client := s.clients[c];
    var op := client.ops[0];
    var mbox := s.mboxes[op.mbox];
    var task := Task(c, client.entered, op.cmd, op.validity);
    WithMbox(
      WithClient(s, c, client.(stage := Queued)),
      op.mbox, mbox.(queue := mbox.queue + [task], arrived := mbox.arrived + [(c, client.entered)]))
  }

  /** An exception from an invalid message set is swallowed by the management task, and the command with it. */
  function DoTake(s: State, m: nat, msgs: set<nat>): State
    requires CanTake(s, m)
  {
    var mbox := s.mboxes[m];
    var task := mbox.queue[0];
    var c := task.client;
    var stage := if task.validity != Invalid then Taken else Lost;
    var s1 := if c < |s.clients| then WithClient(s, c, s.clients[c].(stage := stage)) else s;
    var left := mbox.(queue := mbox.queue[1..]);
    WithMbox(s1, m,
      if task.validity != Invalid then left.(cur := Some(task.(cmd := task.cmd.(msgs := msgs))))
      else left.(settled := left.settled + [(task.client, task.n)]))
  }

  function DoAdmit(s: State, m: nat, msgs: set<nat>): State
    requires Enabled(s, Admit(m, msgs))
  {
    var mbox := s.mboxes[m];
    var running := Uncompleted(s, mbox.executing);
    var cur := mbox.cur.value;
    var task := if running == [] && cur.validity == Valid then cur.(cmd := cur.cmd.(msgs := msgs)) else cur;
    var client := s.clients[task.client];
    WithMbox(
      WithClient(s, task.client,
        client.(ops := client.ops[1..], stage := Go, entered := client.entered + 1, last := Some((m, task.cmd.kind)))),
      m, mbox.(cur := None, executing := running + [task], drain := false,
               settled := mbox.settled + [(task.client, task.n)]))
  }

  /** The exception of the second look is swallowed like that of the first. */
  function DoDrop(s: State, m: nat): State
    requires CanDrop(s, m)
  {
    var mbox := s.mboxes[m];
    var task := mbox.cur.value;
    var s1 := if task.client < |s.clients|
      then WithClient(s, task.client, s.clients[task.client].(stage := Lost)) else s;
    WithMbox(s1, m, mbox.(cur := None, executing := [], drain := false,
                          settled := mbox.settled + [(task.client, task.n)]))
  }

  function DoAdvance(s: State, c: nat): State
    requires CanAdvance(s, c)
  {
    var client := s.clients[c];
    var next := client.(ops := client.ops[1..]);
    WithClient(s, c,
      if client.ops[0].Done? then next.(completed := client.completed + {client.ops[0].n}) else next)
  }

  function Do(s: State, step: Step): State
    requires Enabled(s, step)
  {
    match step
    case Submit(c) => DoSubmit(s, c)
    case Take(m, msgs) => DoTake(s, m, msgs)
    case Admit(m, msgs) => DoAdmit(s, m, msgs)
    case Drop(m) => DoDrop(s, m)
    case Advance(c) => DoAdvance(s, c)
    case Sweep(m) => WithMbox(s, m, s.mboxes[m].(executing := Uncompleted(s, s.mboxes[m].executing)))
    case Change(m, deleted, drain) => WithMbox(s, m, s.mboxes[m].(deleted := deleted, drain := drain))
  }

  function InitClient(rs: seq<Request>): Client {
    Client(Program(rs, 0), Go, 0, {}, None)
  }

  function Init(requests: seq<seq<Request>>, mboxes: nat): State {
    State(seq(|requests|, c requires 0 <= c < |requests| => InitClient(requests[c])),
          seq(mboxes, _ => Mbox([], None, [], false, false, [], [])))
  }

  // ---------- Discipline: what a client's remaining operations may do ----------

  /** No command that was admitted is left uncompleted. */
  ghost predicate HoldsNothing(entered: nat, completed: set<nat>) {
    forall n :: 0 <= n < entered ==> n in completed
  }

  /** From here on the client never enters a mailbox while a command of its own is uncompleted, ends with none, and
      awaits solitude only in the mailbox where it holds an exclusive command. */
  ghost predicate Disciplined(ops: seq<Op>, entered: nat, completed: set<nat>, last: Option<(nat, Kind)>, mboxes: nat)
    decreases |ops|
  {
    && (forall n :: n in completed ==> n < entered)
    && if ops == [] then HoldsNothing(entered, completed)
       else match ops[0]
         case Enter(m, cmd, _) =>
           && m < mboxes && HoldsNothing(entered, completed)
           && Disciplined(ops[1..], entered + 1, completed, Some((m, cmd.kind)), mboxes)
         case AwaitAlone(m) =>
           && (exists kind :: last == Some((m, kind)) && Exclusive(kind))
           && 0 < entered && entered - 1 !in completed
           && Disciplined(ops[1..], entered, completed, last, mboxes)
         case Done(n) =>
           n < entered && Disciplined(ops[1..], entered, completed + {n}, last, mboxes)
  }

  predicate InMboxes(r: Request, mboxes: nat) {
    match r
    case Simple(m, _, _) => m < mboxes
    case CopyTo(src, dst, _, _) => src < mboxes && dst < mboxes
    case MoveTo(src, dst, _, _) => src < mboxes && dst < mboxes
  }

  function Below(n: nat): (r: set<nat>)
    ensures forall k: nat :: k in r <==> k < n
  {
    if n == 0 then {} else Below(n - 1) + {n - 1}
  }

  lemma BelowUnique(completed: set<nat>, n: nat)
    requires forall k: nat :: k in completed <==> k < n
    ensures completed == Below(n)
  {
  }

  lemma SimpleDisciplined(m: nat, cmd: Cmd, validity: Validity, rest: seq<Op>, n: nat, last: Option<(nat, Kind)>,
                          mboxes: nat)
    requires m < mboxes
    requires Disciplined(rest, n + 1, Below(n + 1), Some((m, cmd.kind)), mboxes)
    ensures Disciplined([Enter(m, cmd, validity), Done(n)] + rest, n, Below(n), last, mboxes)
  {
    var ops := [Enter(m, cmd, validity), Done(n)] + rest;
    assert ops[1..] == [Done(n)] + rest;
    assert ([Done(n)] + rest)[1..] == rest;
    BelowUnique(Below(n) + {n}, n + 1);
  }

  lemma PhonyDisciplined(m: nat, rest: seq<Op>, n: nat, last: Option<(nat, Kind)>, mboxes: nat)
    requires m < mboxes && 0 < n
    requires Disciplined(rest, n + 1, Below(n + 1), Some((m, Append)), mboxes)
    ensures Disciplined([Enter(m, APPEND_CMD, Valid), AwaitAlone(m), Done(n), Done(n), Done(n - 1)] + rest,
                        n, Below(n), last, mboxes)
  {
    var now := Some((m, Append));
    var ops4, ops3, ops2, ops1 :=
      [Done(n - 1)] + rest, [Done(n), Done(n - 1)] + rest, [Done(n), Done(n), Done(n - 1)] + rest,
      [AwaitAlone(m), Done(n), Done(n), Done(n - 1)] + rest;
    assert ops4[1..] == rest && ops3[1..] == ops4 && ops2[1..] == ops3 && ops1[1..] == ops2;
    assert ([Enter(m, APPEND_CMD, Valid), AwaitAlone(m), Done(n), Done(n), Done(n - 1)] + rest)[1..] == ops1;
    BelowUnique(Below(n) + {n}, n + 1);
    BelowUnique(Below(n + 1) + {n}, n + 1);
    BelowUnique(Below(n + 1) + {n - 1}, n + 1);
    assert Disciplined(ops4, n + 1, Below(n + 1), now, mboxes);
    assert Disciplined(ops3, n + 1, Below(n + 1), now, mboxes);
    assert Disciplined(ops2, n + 1, Below(n), now, mboxes);
    assert Exclusive(Append);
    assert Disciplined(ops1, n + 1, Below(n), now, mboxes);
  }

  /** `rest` is disciplined from any point at which exactly the first n commands were entered and completed. */
  ghost predicate Continues(rest: seq<Op>, n: nat, mboxes: nat) {
    forall last :: Disciplined(rest, n, Below(n), last, mboxes)
  }

  lemma SimpleContinues(m: nat, cmd: Cmd, validity: Validity, rest: seq<Op>, n: nat, mboxes: nat)
    requires m < mboxes && Continues(rest, n + 1, mboxes)
    ensures Continues([Enter(m, cmd, validity), Done(n)] + rest, n, mboxes)
  {
    forall last ensures Disciplined([Enter(m, cmd, validity), Done(n)] + rest, n, Below(n), last, mboxes) {
      SimpleDisciplined(m, cmd, validity, rest, n, last, mboxes);
    }
  }

  function Phony(m: nat, n: nat): seq<Op>
    requires 0 < n
  {
    [Enter(m, APPEND_CMD, Valid), AwaitAlone(m), Done(n), Done(n), Done(n - 1)]
  }

  lemma PhonyContinues(m: nat, rest: seq<Op>, n: nat, mboxes: nat)
    requires m < mboxes && 0 < n && Continues(rest, n + 1, mboxes)
    ensures Continues(Phony(m, n) + rest, n, mboxes)
  {
    forall last ensures Disciplined(Phony(m, n) + rest, n, Below(n), last, mboxes) {
      PhonyDisciplined(m, rest, n, last, mboxes);
    }
  }

  /** Early release makes every request disciplined, also one whose source is its destination. */
  lemma OpsDisciplined(r: Request, rest: seq<Op>, n: nat, mboxes: nat)
    requires InMboxes(r, mboxes) && Continues(rest, n + EntersOf(r), mboxes)
    ensures Continues(OpsOf(r, n) + rest, n, mboxes)
  {
    match r
    case Simple(m, cmd, validity) =>
      SimpleContinues(m, cmd, validity, rest, n, mboxes);
    case CopyTo(src, dst, msgs, validity) =>
      var copy := Cmd(Copy, true, msgs);
      PhonyContinues(dst, rest, n + 1, mboxes);
      SimpleContinues(src, copy, validity, Phony(dst, n + 1) + rest, n, mboxes);
      assert OpsOf(r, n) + rest == [Enter(src, copy, validity), Done(n)] + (Phony(dst, n + 1) + rest);
    case MoveTo(src, dst, msgs, validity) =>
      var move := Cmd(Move, true, msgs);
      var expunge := [Enter(src, EXPUNGE_CMD, Valid), Done(n + 2)];
      SimpleContinues(src, EXPUNGE_CMD, Valid, rest, n + 2, mboxes);
      PhonyContinues(dst, expunge + rest, n + 1, mboxes);
      SimpleContinues(src, move, validity, Phony(dst, n + 1) + (expunge + rest), n, mboxes);
      assert OpsOf(r, n) + rest == [Enter(src, move, validity), Done(n)] + (Phony(dst, n + 1) + (expunge + rest));
  }

  lemma {:induction false} ProgramDisciplined(rs: seq<Request>, n: nat, mboxes: nat)
    requires forall r :: r in rs ==> InMboxes(r, mboxes)
    ensures Continues(Program(rs, n), n, mboxes)
  {
    if rs != [] {
      ProgramDisciplined(rs[1..], n + EntersOf(rs[0]), mboxes);
      OpsDisciplined(rs[0], Program(rs[1..], n + EntersOf(rs[0])), n, mboxes);
    }
  }
}
