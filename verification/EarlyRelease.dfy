/** Why COPY and MOVE complete their source command before they queue for the destination. */
module EarlyRelease {
  import opened Base
  import opened Admission
  import opened Scheduler
  import opened SchedulerProgress

  const MOVE_CMD := Cmd(Move, true, {1})

  /** A MOVE that would keep its source until the destination has been written. */
  function HoldingMove(src: nat, dst: nat): seq<Op> {
    [Enter(src, MOVE_CMD, Valid), Enter(dst, APPEND_CMD, Valid), AwaitAlone(dst), Done(1), Done(0)]
  }

  /** The second half of it, after the source has been entered. */
  function Rest(dst: nat): seq<Op> {
    [Enter(dst, APPEND_CMD, Valid), AwaitAlone(dst), Done(1), Done(0)]
  }

  function At(src: nat, dst: nat, stage: Stage): Client {
    Client(Rest(dst), stage, 1, {}, Some((src, Move)))
  }

  function Holder(c: nat): Task { Task(c, 0, MOVE_CMD, Valid) }

  function Waiter(c: nat): Task { Task(c, 1, APPEND_CMD, Valid) }

  function Start(): State {
    State([Client(HoldingMove(0, 1), Go, 0, {}, None), Client(HoldingMove(1, 0), Go, 0, {}, None)],
          [Mbox([], None, [], false, false, [], []), Mbox([], None, [], false, false, [], [])])
  }

  /** Mailbox c with only client c's MOVE running. */
  function Held(c: nat): Mbox {
    Mbox([], None, [Holder(c)], false, false, [(c, 0)], [(c, 0)])
  }

  /** The same, with the other client's APPEND waiting. */
  function Blocked(c: nat): Mbox
    requires c < 2
  {
    Mbox([], Some(Waiter(1 - c)), [Holder(c)], false, false, [(c, 0), (1 - c, 1)], [(c, 0)])
  }

  /** One client moves from mailbox 0 to mailbox 1, the other back; each holds its source and waits for the other's. */
  function Stuck(): State {
    State([At(0, 1, Taken), At(1, 0, Taken)], [Blocked(0), Blocked(1)])
  }

  function Entered(): State {
    State([At(0, 1, Go), At(1, 0, Go)], [Held(0), Held(1)])
  }

  /** Client c is on its way into the empty mailbox m = c. */
  function Entering(s: State, c: nat, stage: Stage, queue: seq<Task>, cur: Option<Task>): State
    requires c < |s.clients| && c < |s.mboxes| && c < 2
  {
    State(s.clients[c := Client(HoldingMove(c, 1 - c), stage, 0, {}, None)],
          s.mboxes[c := Mbox(queue, cur, [], false, false, [(c, 0)], [])])
  }

  lemma FreeTaken(s: State, c: nat)
    requires |s.clients| == |s.mboxes| == 2 && c < 2
    requires s.clients[c] == Start().clients[c] && s.mboxes[c] == Start().mboxes[c]
    ensures CanSubmit(s, c) && DoSubmit(s, c) == Entering(s, c, Queued, [Holder(c)], None)
    ensures var s1 := Entering(s, c, Queued, [Holder(c)], None);
      CanTake(s1, c) && DoTake(s1, c, {1}) == Entering(s, c, Taken, [], Some(Holder(c)))
  {
    var s1, s2 := Entering(s, c, Queued, [Holder(c)], None), Entering(s, c, Taken, [], Some(Holder(c)));
    assert DoSubmit(s, c).clients == s1.clients && DoSubmit(s, c).mboxes[c] == s1.mboxes[c];
    assert DoTake(s1, c, {1}).clients == s2.clients && DoTake(s1, c, {1}).mboxes[c] == s2.mboxes[c];
    assert DoSubmit(s, c).mboxes == s1.mboxes && DoTake(s1, c, {1}).mboxes == s2.mboxes;
  }

  lemma AdmitFree(s: State, c: nat)
    requires |s.clients| == |s.mboxes| == 2 && c < 2
    ensures var s2 := Entering(s, c, Taken, [], Some(Holder(c)));
      Enabled(s2, Admit(c, {1})) && DoAdmit(s2, c, {1}) ==
        State(s.clients[c := Entered().clients[c]], s.mboxes[c := Entered().mboxes[c]])
  {
    var s2 := Entering(s, c, Taken, [], Some(Holder(c)));
    assert Uncompleted(s2, []) == [] && Cmds([]) == [];
    assert HoldingMove(c, 1 - c)[1..] == Rest(1 - c);
    var s3 := DoAdmit(s2, c, {1});
    assert s3.clients == s.clients[c := Entered().clients[c]] && s3.mboxes[c] == Held(c);
    assert s3.mboxes == s.mboxes[c := Entered().mboxes[c]];
  }

  /** Client c enters the empty mailbox m = c: its command is submitted, taken and admitted. */
  lemma EnterFree(s: State, c: nat) returns (states: seq<State>, steps: seq<Step>)
    requires |s.clients| == |s.mboxes| == 2 && c < 2
    requires s.clients[c] == Start().clients[c] && s.mboxes[c] == Start().mboxes[c]
    ensures IsRun(states, steps) && states[0] == s
    ensures states[|states| - 1] ==
      State(s.clients[c := Entered().clients[c]], s.mboxes[c := Entered().mboxes[c]])
  {
    var s1, s2 := Entering(s, c, Queued, [Holder(c)], None), Entering(s, c, Taken, [], Some(Holder(c)));
    FreeTaken(s, c);
    AdmitFree(s, c);
    states, steps := [s, s1, s2, DoAdmit(s2, c, {1})], [Submit(c), Take(c, {1}), Admit(c, {1})];
  }

  /** Client c then queues for the other mailbox, whose management task takes the command up. */
  lemma WaitForOther(s: State, c: nat) returns (states: seq<State>, steps: seq<Step>)
    requires |s.clients| == |s.mboxes| == 2 && c < 2
    requires s.clients[c] == Entered().clients[c] && s.mboxes[1 - c] == Entered().mboxes[1 - c]
    ensures IsRun(states, steps) && states[0] == s
    ensures states[|states| - 1] ==
      State(s.clients[c := Stuck().clients[c]], s.mboxes[1 - c := Stuck().mboxes[1 - c]])
  {
    var s1 := DoSubmit(s, c);
    var s2 := DoTake(s1, 1 - c, {});
    assert s2.clients == s.clients[c := Stuck().clients[c]];
    assert s1.mboxes[1 - c].queue == [Waiter(c)];
    assert s2.mboxes[1 - c] == Blocked(1 - c);
    assert s2.mboxes == s.mboxes[1 - c := Stuck().mboxes[1 - c]];
    states, steps := [s, s1, s2], [Submit(c), Take(1 - c, {})];
  }

  lemma JoinRuns(a: seq<State>, sa: seq<Step>, b: seq<State>, sb: seq<Step>)
    requires IsRun(a, sa) && IsRun(b, sb) && a[|a| - 1] == b[0]
    ensures IsRun(a + b[1..], sa + sb)
    ensures (a + b[1..])[0] == a[0] && (a + b[1..])[|a + b[1..]| - 1] == b[|b| - 1]
  {
    var states, steps := a + b[1..], sa + sb;
    forall i | 0 <= i < |steps| ensures Enabled(states[i], steps[i]) && states[i + 1] == Do(states[i], steps[i]) {
      if i >= |sa| { assert states[i] == b[i - |sa|] && steps[i] == sb[i - |sa|] && states[i + 1] == b[i + 1 - |sa|]; }
    }
  }

  /** Without early release two opposite MOVEs reach a state from which neither ever goes on. */
  lemma HoldingDeadlocks() returns (states: seq<State>, steps: seq<Step>)
    ensures IsRun(states, steps) && states[0] == Start()
    ensures var last := states[|states| - 1];
      Exhausted(last) && forall c :: 0 <= c < |last.clients| ==> !Settled(last.clients[c])
  {
    states, steps := EnterFree(Start(), 0);
    var b, sb := EnterFree(states[|states| - 1], 1);
    JoinRuns(states, steps, b, sb);
    states, steps := states + b[1..], steps + sb;
    assert states[|states| - 1] == Entered();
    b, sb := WaitForOther(Entered(), 0);
    JoinRuns(states, steps, b, sb);
    states, steps := states + b[1..], steps + sb;
    b, sb := WaitForOther(states[|states| - 1], 1);
    JoinRuns(states, steps, b, sb);
    states, steps := states + b[1..], steps + sb;
    assert states[|states| - 1] == Stuck();
    StuckIsStuck();
  }

  lemma StuckIsStuck()
    ensures Exhausted(Stuck()) && forall c :: 0 <= c < |Stuck().clients| ==> !Settled(Stuck().clients[c])
  {
    var s := Stuck();
    forall m: nat | m < 2 ensures !CanAdmit(s, m) {
      var running := Uncompleted(s, s.mboxes[m].executing);
      assert running == [Holder(m)];
      assert MOVE_CMD in Cmds(running) by { assert Cmds(running)[0] == MOVE_CMD; }
    }
  }
}
