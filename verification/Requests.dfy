/** From clients' requests to the commands that mailboxes run: which command each part of a request becomes, and what it
    may run beside. */
module Requests {
  import opened Admission
  import opened Scheduler
  import opened SchedulerSafety
  import opened SchedulerProgress

  /** What one command asks for: of which mailbox, and what admission sees of it. */
  datatype Ask = Ask(mbox: nat, kind: Kind, peek: bool)

  /** The commands of a request, in order. A COPY is a COPY in its source and then an APPEND in its destination; a MOVE
      is a MOVE, an APPEND, and at last an EXPUNGE in its source. */
  function AsksOf(r: Request): seq<Ask> {
    match r
    case Simple(m, cmd, _) => [Ask(m, cmd.kind, cmd.peek)]
    case CopyTo(src, dst, _, _) => [Ask(src, Copy, true), Ask(dst, Append, true)]
    case MoveTo(src, dst, _, _) => [Ask(src, Move, true), Ask(dst, Append, true), Ask(src, Expunge, true)]
  }

  function Asks(rs: seq<Request>): seq<Ask> {
    if rs == [] then [] else AsksOf(rs[0]) + Asks(rs[1..])
  }

  /** The number of commands before those of request r. */
  function FirstAsk(rs: seq<Request>, r: nat): nat
    requires r <= |rs|
  {
    if r == 0 then 0 else |AsksOf(rs[0])| + FirstAsk(rs[1..], r - 1)
  }

  lemma {:induction false} AsksAt(rs: seq<Request>, r: nat, i: nat)
    requires r < |rs| && i < |AsksOf(rs[r])|
    ensures FirstAsk(rs, r) + i < |Asks(rs)| && Asks(rs)[FirstAsk(rs, r) + i] == AsksOf(rs[r])[i]
    decreases r
  {
    if r > 0 { AsksAt(rs[1..], r - 1, i); }
  }

  // ---------- What the operations of a client enter ----------

  function Enters(ops: seq<Op>): seq<Ask> {
    if ops == [] then []
    else (if ops[0].Enter? then [Ask(ops[0].mbox, ops[0].cmd.kind, ops[0].cmd.peek)] else []) + Enters(ops[1..])
  }

  lemma {:induction false} EntersJoin(a: seq<Op>, b: seq<Op>)
    ensures Enters(a + b) == Enters(a) + Enters(b)
  {
    if a == [] {
      assert a + b == b;
    } else {
      EntersJoin(a[1..], b);
      assert (a + b)[1..] == a[1..] + b;
    }
  }

  lemma OnlyEnter(m: nat, cmd: Cmd, validity: Validity, rest: seq<Op>)
    ensures Enters([Enter(m, cmd, validity)] + rest) == [Ask(m, cmd.kind, cmd.peek)] + Enters(rest)
  {
    assert ([Enter(m, cmd, validity)] + rest)[1..] == rest;
  }

  lemma {:induction false} NoEnter(ops: seq<Op>)
    requires forall i :: 0 <= i < |ops| ==> !ops[i].Enter?
    ensures Enters(ops) == []
  {
    if ops != [] { NoEnter(ops[1..]); }
  }

  /** The operations from the completion of a COPY's or MOVE's first command on. */
  lemma SecondEnters(dst: nat, n: nat, rest: seq<Op>)
    ensures Enters([Done(n)] + (Phony(dst, n + 1) + rest)) == [Ask(dst, Append, true)] + Enters(rest)
  {
    var phony := Phony(dst, n + 1);
    NoEnter([Done(n)]);
    NoEnter(phony[1..]);
    EntersJoin(phony[1..], rest);
    OnlyEnter(dst, APPEND_CMD, Valid, phony[1..] + rest);
    EntersJoin([Done(n)], phony + rest);
    assert phony + rest == [Enter(dst, APPEND_CMD, Valid)] + (phony[1..] + rest);
  }

  lemma OpsEnter(r: Request, n: nat)
    ensures Enters(OpsOf(r, n)) == AsksOf(r)
  {
    var ops := OpsOf(r, n);
    OnlyEnter(ops[0].mbox, ops[0].cmd, ops[0].validity, ops[1..]);
    assert ops == [ops[0]] + ops[1..];
    match r
    case Simple(m, cmd, validity) => NoEnter(ops[1..]);
    case CopyTo(src, dst, msgs, validity) =>
      SecondEnters(dst, n, []);
      assert Enters([]) == [] && ops[1..] == [Done(n)] + (Phony(dst, n + 1) + []);
    case MoveTo(src, dst, msgs, validity) =>
      var last := [Enter(src, EXPUNGE_CMD, Valid)] + [Done(n + 2)];
      SecondEnters(dst, n, last);
      OnlyEnter(src, EXPUNGE_CMD, Valid, [Done(n + 2)]);
      NoEnter([Done(n + 2)]);
      assert ops[1..] == [Done(n)] + (Phony(dst, n + 1) + last);
  }

  lemma {:induction false} ProgramEnters(rs: seq<Request>, n: nat)
    ensures Enters(Program(rs, n)) == Asks(rs)
  {
    if rs != [] {
      OpsEnter(rs[0], n);
      ProgramEnters(rs[1..], n + EntersOf(rs[0]));
      EntersJoin(OpsOf(rs[0], n), Program(rs[1..], n + EntersOf(rs[0])));
    }
  }

  // ---------- The invariant ----------

  /** Task t of mailbox m is the command that its client's requests have at its place. */
  ghost predicate IsAsked(requests: seq<seq<Request>>, m: nat, t: Task) {
    && t.client < |requests| && t.n < |Asks(requests[t.client])|
    && Asks(requests[t.client])[t.n] == Ask(m, t.cmd.kind, t.cmd.peek)
  }

  ghost predicate AllAsked(requests: seq<seq<Request>>, m: nat, tasks: seq<Task>) {
    forall t :: t in tasks ==> IsAsked(requests, m, t)
  }

  /** What client c has yet to enter is what its requests ask for besides what it has entered. */
  ghost predicate StillAsks(requests: seq<seq<Request>>, s: State, c: nat)
    requires |s.clients| == |requests| && c < |requests|
  {
    var all, entered := Asks(requests[c]), s.clients[c].entered;
    entered <= |all| && Enters(s.clients[c].ops) == all[entered..]
  }

  ghost predicate MailboxAsked(requests: seq<seq<Request>>, s: State, m: nat)
    requires m < |s.mboxes|
  {
    var mbox := s.mboxes[m];
    && AllAsked(requests, m, mbox.queue) && AllAsked(requests, m, mbox.executing)
    && (mbox.cur.Some? ==> IsAsked(requests, m, mbox.cur.value))
  }

  ghost predicate AskedOk(requests: seq<seq<Request>>, s: State) {
    && |s.clients| == |requests|
    && (forall c :: 0 <= c < |requests| ==> StillAsks(requests, s, c))
    && (forall m :: 0 <= m < |s.mboxes| ==> MailboxAsked(requests, s, m))
  }

  lemma InitAsked(requests: seq<seq<Request>>, mboxes: nat)
    ensures AskedOk(requests, Init(requests, mboxes))
  {
    var s := Init(requests, mboxes);
    forall c | 0 <= c < |requests| ensures StillAsks(requests, s, c) {
      ProgramEnters(requests[c], 0);
      assert Asks(requests[c])[0..] == Asks(requests[c]);
    }
  }

  /** A client whose first operation is an Enter asks for just that next. */
  lemma NextAsk(requests: seq<seq<Request>>, s: State, c: nat)
    requires |s.clients| == |requests| && c < |requests| && StillAsks(requests, s, c)
    requires s.clients[c].ops != [] && s.clients[c].ops[0].Enter?
    ensures var all, n, op := Asks(requests[c]), s.clients[c].entered, s.clients[c].ops[0];
      && n < |all| && all[n] == Ask(op.mbox, op.cmd.kind, op.cmd.peek)
      && Enters(s.clients[c].ops[1..]) == all[n + 1..]
  {
    var all, n, ops := Asks(requests[c]), s.clients[c].entered, s.clients[c].ops;
    OnlyEnter(ops[0].mbox, ops[0].cmd, ops[0].validity, ops[1..]);
    assert ops == [ops[0]] + ops[1..];
    assert all[n..] == [all[n..][0]] + Enters(ops[1..]);
    assert all[n..][1..] == all[n + 1..] == Enters(ops[1..]);
  }

  lemma SubmitKeepsAsked(requests: seq<seq<Request>>, s: State, c: nat)
    requires AskedOk(requests, s) && CanSubmit(s, c)
    ensures AskedOk(requests, DoSubmit(s, c))
  {
    var s' := DoSubmit(s, c);
    var m := s.clients[c].ops[0].mbox;
    NextAsk(requests, s, c);
    forall d | 0 <= d < |requests| ensures StillAsks(requests, s', d) {
      assert StillAsks(requests, s, d);
    }
    forall k | 0 <= k < |s.mboxes| ensures MailboxAsked(requests, s', k) {
      assert MailboxAsked(requests, s, k);
      if k == m { assert forall t :: t in s'.mboxes[m].queue ==> t in s.mboxes[m].queue || t.client == c; }
    }
  }

  lemma TakeKeepsAsked(requests: seq<seq<Request>>, s: State, m: nat, msgs: set<nat>)
    requires AskedOk(requests, s) && CanTake(s, m)
    ensures AskedOk(requests, DoTake(s, m, msgs))
  {
    var s' := DoTake(s, m, msgs);
    forall d | 0 <= d < |requests| ensures StillAsks(requests, s', d) {
      assert StillAsks(requests, s, d);
    }
    forall k | 0 <= k < |s.mboxes| ensures MailboxAsked(requests, s', k) {
      assert MailboxAsked(requests, s, k);
      if k == m { assert s.mboxes[m].queue[0] in s.mboxes[m].queue; }
    }
  }

  lemma AdmitKeepsAsked(requests: seq<seq<Request>>, s: State, m: nat, msgs: set<nat>)
    requires Inv(s) && AskedOk(requests, s) && Enabled(s, Admit(m, msgs))
    ensures AskedOk(requests, DoAdmit(s, m, msgs))
  {
    var s' := DoAdmit(s, m, msgs);
    var cur := s.mboxes[m].cur.value;
    assert QueueOk(s, m) && Pending(s, m, cur, Taken);
    NextAsk(requests, s, cur.client);
    forall d | 0 <= d < |requests| ensures StillAsks(requests, s', d) {
      assert StillAsks(requests, s, d);
    }
    forall k | 0 <= k < |s.mboxes| ensures MailboxAsked(requests, s', k) {
      assert MailboxAsked(requests, s, k);
    }
  }

  lemma AdvanceKeepsAsked(requests: seq<seq<Request>>, s: State, c: nat)
    requires AskedOk(requests, s) && CanAdvance(s, c)
    ensures AskedOk(requests, DoAdvance(s, c))
  {
    var s' := DoAdvance(s, c);
    forall d | 0 <= d < |requests| ensures StillAsks(requests, s', d) {
      assert StillAsks(requests, s, d);
    }
    forall k | 0 <= k < |s.mboxes| ensures MailboxAsked(requests, s', k) {
      assert MailboxAsked(requests, s, k);
    }
  }

  /** The other steps change no client's operations, and add no task. */
  lemma OthersKeepAsked(requests: seq<seq<Request>>, s: State, step: Step)
    requires AskedOk(requests, s) && Enabled(s, step) && (step.Drop? || step.Sweep? || step.Change?)
    ensures AskedOk(requests, Do(s, step))
  {
    var s' := Do(s, step);
    forall d | 0 <= d < |requests| ensures StillAsks(requests, s', d) {
      assert StillAsks(requests, s, d);
    }
    forall k | 0 <= k < |s.mboxes| ensures MailboxAsked(requests, s', k) {
      assert MailboxAsked(requests, s, k);
    }
  }

  lemma StepKeepsAsked(requests: seq<seq<Request>>, s: State, step: Step)
    requires Inv(s) && AskedOk(requests, s) && Enabled(s, step)
    ensures AskedOk(requests, Do(s, step))
  {
    match step
    case Submit(c) => SubmitKeepsAsked(requests, s, c);
    case Take(m, msgs) => TakeKeepsAsked(requests, s, m, msgs);
    case Admit(m, msgs) => AdmitKeepsAsked(requests, s, m, msgs);
    case Advance(c) => AdvanceKeepsAsked(requests, s, c);
    case _ => OthersKeepAsked(requests, s, step);
  }

  /** In every state of every run, what mailboxes hold is what was asked for. */
  lemma {:induction false} RunKeepsAsked(requests: seq<seq<Request>>, mboxes: nat, states: seq<State>,
                                         steps: seq<Step>, k: nat)
    requires ValidRequests(requests, mboxes) && IsRun(states, steps) && states[0] == Init(requests, mboxes)
    requires k < |states|
    ensures Inv(states[k]) && AskedOk(requests, states[k]) && |states[k].mboxes| == mboxes
  {
    StartInv(requests, mboxes);
    RunKeepsInv(states, steps, k);
    if k == 0 {
      InitAsked(requests, mboxes);
    } else {
      RunKeepsAsked(requests, mboxes, states, steps, k - 1);
      StepKeepsAsked(requests, states[k - 1], steps[k - 1]);
    }
  }

  // ---------- What becomes of a request ----------

  /** In the executing list of mailbox m, entry i is part p of request r of client c. */
  ghost predicate IsPart(requests: seq<seq<Request>>, s: State, m: nat, i: nat, c: nat, r: nat, p: nat) {
    && m < |s.mboxes| && i < |s.mboxes[m].executing| && c < |requests| && r < |requests[c]|
    && s.mboxes[m].executing[i].client == c && s.mboxes[m].executing[i].n == FirstAsk(requests[c], r) + p
  }

  predicate IsBodyFetch(cmd: Cmd) { cmd.kind == Fetch && !cmd.peek }

  /** No STORE and no FETCH of bodies that is running shares a message with entry i of the list. */
  ghost predicate Undisturbed(s: State, ex: seq<Task>, i: nat)
    requires i < |ex|
  {
    forall j :: 0 <= j < |ex| && !Completed(s, ex[j]) && (ex[j].cmd.kind == Store || IsBodyFetch(ex[j].cmd)) ==>
      ex[i].cmd.msgs * ex[j].cmd.msgs == {}
  }

  lemma PartIsAsked(requests: seq<seq<Request>>, s: State, m: nat, i: nat, c: nat, r: nat, p: nat)
    requires AskedOk(requests, s) && IsPart(requests, s, m, i, c, r, p) && p < |AsksOf(requests[c][r])|
    ensures var t := s.mboxes[m].executing[i]; AsksOf(requests[c][r])[p] == Ask(m, t.cmd.kind, t.cmd.peek)
  {
    assert MailboxAsked(requests, s, m);
    assert s.mboxes[m].executing[i] in s.mboxes[m].executing;
    AsksAt(requests[c], r, p);
  }

  /** A COPY runs in its source as a COPY, and beside no STORE and no FETCH of bodies that shares a message with it;
      then it runs in its destination as an APPEND, alone. */
  lemma CopyIsGuarded(requests: seq<seq<Request>>, mboxes: nat, states: seq<State>, steps: seq<Step>, k: nat,
                      m: nat, i: nat, c: nat, r: nat, p: nat)
    requires ValidRequests(requests, mboxes) && IsRun(states, steps) && states[0] == Init(requests, mboxes)
    requires k < |states| && IsPart(requests, states[k], m, i, c, r, p) && requests[c][r].CopyTo? && p < 2
    requires !Completed(states[k], states[k].mboxes[m].executing[i])
    ensures var request, ex := requests[c][r], states[k].mboxes[m].executing;
      && (p == 0 ==> m == request.src && ex[i].cmd.kind == Copy && Undisturbed(states[k], ex, i))
      && (p == 1 ==> m == request.dst && ex[i].cmd.kind == Append && |ex| == 1)
  {
    var s, ex := states[k], states[k].mboxes[m].executing;
    RunKeepsAsked(requests, mboxes, states, steps, k);
    PartIsAsked(requests, s, m, i, c, r, p);
    assert RunOk(s, m);
    if p == 0 {
      forall j | 0 <= j < |ex| && !Completed(s, ex[j]) && ChangesFlags(ex[j].cmd)
        ensures ex[i].cmd.msgs * ex[j].cmd.msgs == {}
      {
        assert if i < j then Compatible(ex[i].cmd, ex[j].cmd) else Compatible(ex[j].cmd, ex[i].cmd);
        assert ex[i].cmd.msgs * ex[j].cmd.msgs == ex[j].cmd.msgs * ex[i].cmd.msgs;
      }
    }
  }

  /** A MOVE runs in its source as a MOVE, alone; then in its destination as an APPEND, alone; then in its source as an
      EXPUNGE, after whose admission nothing is admitted before it is completed. */
  lemma MoveIsGuarded(requests: seq<seq<Request>>, mboxes: nat, states: seq<State>, steps: seq<Step>, k: nat,
                      m: nat, i: nat, c: nat, r: nat, p: nat)
    requires ValidRequests(requests, mboxes) && IsRun(states, steps) && states[0] == Init(requests, mboxes)
    requires k < |states| && IsPart(requests, states[k], m, i, c, r, p) && requests[c][r].MoveTo? && p < 3
    requires !Completed(states[k], states[k].mboxes[m].executing[i])
    ensures var request, ex := requests[c][r], states[k].mboxes[m].executing;
      && (p == 0 ==> m == request.src && ex[i].cmd.kind == Move && |ex| == 1)
      && (p == 1 ==> m == request.dst && ex[i].cmd.kind == Append && |ex| == 1)
      && (p == 2 ==> m == request.src && ex[i].cmd.kind == Expunge)
      && (p == 2 ==> forall j :: i < j < |ex| ==> Completed(states[k], ex[j]))
  {
    var s, ex := states[k], states[k].mboxes[m].executing;
    RunKeepsAsked(requests, mboxes, states, steps, k);
    PartIsAsked(requests, s, m, i, c, r, p);
    assert RunOk(s, m);
    if p == 2 {
      forall j | i < j < |ex| ensures Completed(s, ex[j]) {
        assert !Completed(s, ex[j]) ==> Compatible(ex[i].cmd, ex[j].cmd);
      }
    }
  }

  /** Any other request runs in its mailbox as the command it is. */
  lemma SimpleIsItself(requests: seq<seq<Request>>, mboxes: nat, states: seq<State>, steps: seq<Step>, k: nat,
                       m: nat, i: nat, c: nat, r: nat)
    requires ValidRequests(requests, mboxes) && IsRun(states, steps) && states[0] == Init(requests, mboxes)
    requires k < |states| && IsPart(requests, states[k], m, i, c, r, 0) && requests[c][r].Simple?
    ensures var request, cmd := requests[c][r], states[k].mboxes[m].executing[i].cmd;
      m == request.mbox && cmd.kind == request.cmd.kind && cmd.peek == request.cmd.peek
  {
    RunKeepsAsked(requests, mboxes, states, steps, k);
    PartIsAsked(requests, states[k], m, i, c, r, 0);
  }

  /** A client that has finished has entered every command of every request exactly once: one for each, two for a COPY,
      three for a MOVE. */
  lemma FinishedHasEntered(requests: seq<seq<Request>>, mboxes: nat, states: seq<State>, steps: seq<Step>, k: nat,
                           c: nat)
    requires ValidRequests(requests, mboxes) && IsRun(states, steps) && states[0] == Init(requests, mboxes)
    requires k < |states| && c < |requests| && c < |states[k].clients| && states[k].clients[c].ops == []
    ensures states[k].clients[c].entered == FirstAsk(requests[c], |requests[c]|)
  {
    RunKeepsAsked(requests, mboxes, states, steps, k);
    assert StillAsks(requests, states[k], c);
    AllAsks(requests[c]);
  }

  lemma {:induction false} AllAsks(rs: seq<Request>)
    ensures FirstAsk(rs, |rs|) == |Asks(rs)|
  {
    if rs != [] { AllAsks(rs[1..]); }
  }
}
