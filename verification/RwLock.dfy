/** `UpgradeableReadWriteLock`: many readers, each of which may upgrade to the one writer through a condition variable.

    Tasks are numbered. A task is suspended either outside the lock's own code or in the condition's wait; every
    other stretch of the lock's code holds the condition's mutex without awaiting, so it is one atomic step. */
module RwLock {
  import opened Base

  /** Where a task stands. `left` is how often it may still upgrade within its read section. */
  datatype Pc = Idle | Reading(left: nat) | Waiting(left: nat, notified: bool) | Writing(left: nat)

  /** `rounds[t]` are the read sections that task t still wants to begin, with how often it may upgrade in each. */
  datatype State = State(
    readers: int,
    wantWrite: int,
    readersTasks: seq<nat>,
    writer: Option<nat>,
    pcs: seq<Pc>,
    rounds: seq<seq<nat>>)

  datatype Step = EnterRead(t: nat) | Upgrade(t: nat) | Wake(t: nat) | EndWrite(t: nat) | ExitRead(t: nat)

  function Remove(s: seq<nat>, t: nat): seq<nat> {
    if s == [] then [] else if s[0] == t then s[1..] else [s[0]] + Remove(s[1..], t)
  }

  function Notified(pc: Pc): Pc {
    if pc.Waiting? then pc.(notified := true) else pc
  }

  function NotifyAll(pcs: seq<Pc>): (r: seq<Pc>)
    ensures |r| == |pcs|
    ensures forall t :: 0 <= t < |pcs| ==> r[t] == Notified(pcs[t])
  {
    seq(|pcs|, t requires 0 <= t < |pcs| => Notified(pcs[t]))
  }

  ghost predicate WellFormed(s: State) { |s.pcs| == |s.rounds| }

  /** The mutex is held across an await only by the writer. A waiter runs again only once notified. */
  predicate Enabled(s: State, step: Step)
    requires WellFormed(s)
  {
    && step.t < |s.pcs|
    && match step
       case EnterRead(t) => s.writer.None? && s.pcs[t] == Idle && s.rounds[t] != []
       case Upgrade(t) => s.writer.None? && s.pcs[t].Reading? && s.pcs[t].left > 0
       case Wake(t) => s.writer.None? && s.pcs[t].Waiting? && s.pcs[t].notified
       case EndWrite(t) => s.pcs[t].Writing?
       case ExitRead(t) => s.writer.None? && s.pcs[t].Reading?
  }

  /** The lock as the source writes it. `pcs` records where each task is suspended. */
  class UpgradeableReadWriteLock {
    var readers: int
    var wantWrite: int
    var readersTasks: seq<nat>
    var writeLockTask: Option<nat>
    var pcs: seq<Pc>
    var rounds: seq<seq<nat>>

    constructor (rounds: seq<seq<nat>>)
      ensures St() == Init(rounds) && Inv(St())
    {
      readers, wantWrite, readersTasks, writeLockTask := 0, 0, [], None;
      pcs, this.rounds := seq(|rounds|, _ => Idle), rounds;
      new;
      InitInv(rounds);
    }

    function St(): State
      reads this
    {
      State(readers, wantWrite, readersTasks, writeLockTask, pcs, rounds)
    }

    /** `async with lock.read_lock()`: the entry. */
    method EnterRead(t: nat)
      requires Inv(St()) && Enabled(St(), Step.EnterRead(t))
      modifies this
      ensures Next(old(St()), Step.EnterRead(t), St()) && Inv(St())
    {
      readers := readers + 1;
      readersTasks := [t] + readersTasks;
      pcs, rounds := pcs[t := Reading(rounds[t][0])], rounds[t := rounds[t][1..]];
      StepKeepsInv(old(St()), Step.EnterRead(t), St());
    }

    /** The exit of the read section. */
    method ExitRead(t: nat)
      requires Inv(St()) && Enabled(St(), Step.ExitRead(t))
      modifies this
      ensures Next(old(St()), Step.ExitRead(t), St()) && Inv(St())
    {
      readers := readers - 1;
      readersTasks := Remove(readersTasks, t);
      pcs := pcs[t := Idle];
      if readers == wantWrite {
        pcs := NotifyAll(pcs);
      }
      StepKeepsInv(old(St()), Step.ExitRead(t), St());
    }

    /** `async with lock.write_lock()`: the entry, up to the first test of the condition. */
    method Upgrade(t: nat)
      requires Inv(St()) && Enabled(St(), Step.Upgrade(t))
      modifies this
      ensures Next(old(St()), Step.Upgrade(t), St()) && Inv(St())
    {
      wantWrite := wantWrite + 1;
      TestCondition(t, pcs[t].left - 1);
      StepKeepsInv(old(St()), Step.Upgrade(t), St());
    }

    /** A notified waiter has the mutex again and repeats the test. */
    method Wake(t: nat)
      requires Inv(St()) && Enabled(St(), Step.Wake(t))
      modifies this
      ensures Next(old(St()), Step.Wake(t), St()) && Inv(St())
    {
      TestCondition(t, pcs[t].left);
      StepKeepsInv(old(St()), Step.Wake(t), St());
    }

    /** `wait_for(lambda: readers == want_write)`. */
    method TestCondition(t: nat, left: nat)
      requires t < |pcs|
      modifies `wantWrite, `writeLockTask, `pcs
      ensures if readers == old(wantWrite)
        then wantWrite == old(wantWrite) - 1 && writeLockTask == Some(t) && pcs == old(pcs)[t := Writing(left)]
        else wantWrite == old(wantWrite) && writeLockTask == old(writeLockTask)
             && pcs == old(pcs)[t := Waiting(left, false)]
    {
      if readers == wantWrite {
        wantWrite := wantWrite - 1;
        writeLockTask := Some(t);
        pcs := pcs[t := Writing(left)];
      } else {
        pcs := pcs[t := Waiting(left, false)];
      }
    }

    /** The exit of the write section. */
    method EndWrite(t: nat)
      requires Inv(St()) && Enabled(St(), Step.EndWrite(t))
      modifies this
      ensures Next(old(St()), Step.EndWrite(t), St()) && Inv(St())
    {
      writeLockTask := None;
      pcs := pcs[t := Reading(pcs[t].left)];
      StepKeepsInv(old(St()), Step.EndWrite(t), St());
    }
  }

  function Init(rounds: seq<seq<nat>>): State {
    State(0, 0, [], None, seq(|rounds|, _ => Idle), rounds)
  }

  /** The transition relation. A task that finds `readers == want_write` becomes the writer. */
  ghost predicate Next(s: State, step: Step, s': State)
    requires WellFormed(s)
  {
    && Enabled(s, step)
    && var t := step.t;
       match step
       case EnterRead(_) =>
         s' == s.(readers := s.readers + 1, readersTasks := [t] + s.readersTasks,
                  pcs := s.pcs[t := Reading(s.rounds[t][0])], rounds := s.rounds[t := s.rounds[t][1..]])
       case Upgrade(_) => Test(s.(wantWrite := s.wantWrite + 1), t, s.pcs[t].left - 1, s')
       case Wake(_) => Test(s, t, s.pcs[t].left, s')
       case EndWrite(_) => s' == s.(writer := None, pcs := s.pcs[t := Reading(s.pcs[t].left)])
       case ExitRead(_) =>
         var left := s.(readers := s.readers - 1, readersTasks := Remove(s.readersTasks, t), pcs := s.pcs[t := Idle]);
         s' == if left.readers == left.wantWrite then left.(pcs := NotifyAll(left.pcs)) else left
  }

  ghost predicate Test(s: State, t: nat, left: nat, s': State)
    requires t < |s.pcs|
  {
    s' == if s.readers == s.wantWrite
      then s.(wantWrite := s.wantWrite - 1, writer := Some(t), pcs := s.pcs[t := Writing(left)])
      else s.(pcs := s.pcs[t := Waiting(left, false)])
  }

  // ---------- The invariant ----------

  ghost function Holders(pcs: seq<Pc>): set<nat> {
    set t: nat | t < |pcs| && !pcs[t].Idle?
  }

  ghost function Waiters(pcs: seq<Pc>): set<nat> {
    set t: nat | t < |pcs| && pcs[t].Waiting?
  }

  /** The counters count, the task list lists. */
  ghost predicate Counts(s: State) {
    && Distinct(s.readersTasks)
    && Elements(s.readersTasks) == Holders(s.pcs)
    && s.readers == |s.readersTasks| == |Holders(s.pcs)|
    && s.wantWrite == |Waiters(s.pcs)|
  }

  /** Task t is in its write section only while every other holder is blocked in the upgrade wait. */
  ghost predicate Exclusive(s: State) {
    && (forall t :: s.writer == Some(t) ==> t < |s.pcs| && s.pcs[t].Writing?)
    && forall t, u :: 0 <= t < |s.pcs| && 0 <= u < |s.pcs| && s.pcs[t].Writing? ==>
         s.writer == Some(t) && (u == t || s.pcs[u].Idle? || s.pcs[u].Waiting?)
  }

  /** Whenever the lock is free and every reader wants to write, all of them have been notified. */
  ghost predicate NoLostWakeup(s: State) {
    s.writer.None? && s.readers == s.wantWrite ==>
      forall t :: 0 <= t < |s.pcs| && s.pcs[t].Waiting? ==> s.pcs[t].notified
  }

  ghost predicate Inv(s: State) {
    WellFormed(s) && Counts(s) && Exclusive(s) && NoLostWakeup(s)
  }

  lemma InitInv(rounds: seq<seq<nat>>)
    ensures Inv(Init(rounds))
  {
    var s := Init(rounds);
    assert Holders(s.pcs) == {} && Waiters(s.pcs) == {};
  }

  lemma {:induction false} RemoveOne(s: seq<nat>, t: nat)
    requires Distinct(s) && t in s
    ensures Distinct(Remove(s, t)) && |Remove(s, t)| == |s| - 1
    ensures Elements(Remove(s, t)) == Elements(s) - {t}
  {
    assert s == [s[0]] + s[1..];
    if s[0] != t {
      assert t in s[1..];
      RemoveOne(s[1..], t);
      assert Elements(s) == {s[0]} + Elements(s[1..]);
      assert Elements(Remove(s, t)) == {s[0]} + Elements(Remove(s[1..], t));
      assert s[0] !in Elements(s[1..]);
      assert s[0] !in Elements(Remove(s[1..], t));
    } else {
      assert t !in s[1..];
      assert Elements(s) == {t} + Elements(s[1..]);
    }
  }

  /** All holders want to write exactly when the two counters agree. */
  lemma AllWaitingIff(s: State)
    requires Counts(s)
    ensures s.readers == s.wantWrite <==> forall t :: 0 <= t < |s.pcs| ==> s.pcs[t].Idle? || s.pcs[t].Waiting?
  {
    var h, w := Holders(s.pcs), Waiters(s.pcs);
    assert w <= h;
    if forall t :: 0 <= t < |s.pcs| ==> s.pcs[t].Idle? || s.pcs[t].Waiting? {
      assert w == h;
    } else {
      var t :| 0 <= t < |s.pcs| && !s.pcs[t].Idle? && !s.pcs[t].Waiting?;
      assert t in h - w;
      SubsetSize(w, h);
    }
  }

  lemma SubsetSize<T>(a: set<T>, b: set<T>)
    requires a < b
    ensures |a| < |b|
  {
    assert b == a + (b - a);
  }

  /** How one task's move changes the two counted sets. */
  lemma Moved(pcs: seq<Pc>, t: nat, pc: Pc)
    requires t < |pcs|
    ensures Holders(pcs[t := pc]) == if pc.Idle? then Holders(pcs) - {t} else Holders(pcs) + {t}
    ensures Waiters(pcs[t := pc]) == if pc.Waiting? then Waiters(pcs) + {t} else Waiters(pcs) - {t}
  {
  }

  lemma TestKeepsCounts(s: State, t: nat, left: nat, s': State)
    requires t < |s.pcs| && Test(s, t, left, s') && !s.pcs[t].Idle?
    requires Elements(s.readersTasks) == Holders(s.pcs) && Distinct(s.readersTasks)
    requires s.readers == |s.readersTasks| == |Holders(s.pcs)|
    requires s.wantWrite == |Waiters(s.pcs) + {t}|
    ensures Counts(s')
  {
    Moved(s.pcs, t, s'.pcs[t]);
    assert Holders(s'.pcs) == Holders(s.pcs);
    if s'.pcs[t].Writing? {
      assert Waiters(s.pcs) + {t} == Waiters(s'.pcs) + {t};
    }
  }

  lemma EnterKeepsCounts(s: State, t: nat, s': State)
    requires Counts(s) && WellFormed(s) && Next(s, EnterRead(t), s')
    ensures Counts(s')
  {
    Moved(s.pcs, t, s'.pcs[t]);
    assert t !in Holders(s.pcs) && t !in Elements(s.readersTasks);
    assert Elements(s'.readersTasks) == Elements(s.readersTasks) + {t};
    assert Waiters(s'.pcs) == Waiters(s.pcs);
  }

  lemma ExitKeepsCounts(s: State, t: nat, s': State)
    requires Counts(s) && WellFormed(s) && Next(s, ExitRead(t), s')
    ensures Counts(s')
  {
    assert t in Holders(s.pcs) && t in Elements(s.readersTasks);
    RemoveOne(s.readersTasks, t);
    Moved(s.pcs, t, Idle);
    assert Waiters(s.pcs[t := Idle]) == Waiters(s.pcs);
    NotifiedSame(s.pcs[t := Idle]);
  }

  lemma NotifiedSame(pcs: seq<Pc>)
    ensures Holders(NotifyAll(pcs)) == Holders(pcs) && Waiters(NotifyAll(pcs)) == Waiters(pcs)
  {
  }

  lemma StepKeepsCounts(s: State, step: Step, s': State)
    requires Inv(s) && Next(s, step, s')
    ensures Counts(s')
  {
    var t := step.t;
    match step
    case EnterRead(_) => EnterKeepsCounts(s, t, s');
    case Upgrade(_) =>
      assert t !in Waiters(s.pcs);
      TestKeepsCounts(s.(wantWrite := s.wantWrite + 1), t, s.pcs[t].left - 1, s');
    case Wake(_) =>
      assert Waiters(s.pcs) + {t} == Waiters(s.pcs);
      TestKeepsCounts(s, t, s.pcs[t].left, s');
    case EndWrite(_) => EndWriteKeepsCounts(s, t, s');
    case ExitRead(_) => ExitKeepsCounts(s, t, s');
  }

  lemma EndWriteKeepsCounts(s: State, t: nat, s': State)
    requires Counts(s) && WellFormed(s) && Next(s, EndWrite(t), s')
    ensures Counts(s')
  {
    Moved(s.pcs, t, s'.pcs[t]);
    assert t in Holders(s.pcs) && t !in Waiters(s.pcs);
    assert Holders(s'.pcs) == Holders(s.pcs) && Waiters(s'.pcs) == Waiters(s.pcs);
  }

  /** Every step keeps the counters true, keeps the writer alone, and loses no wakeup. */
  lemma StepKeepsInv(s: State, step: Step, s': State)
    requires Inv(s) && Next(s, step, s')
    ensures Inv(s')
  {
    StepKeepsCounts(s, step, s');
    StepKeepsExclusive(s, step, s');
    StepKeepsWakeups(s, step, s');
  }

  lemma StepKeepsExclusive(s: State, step: Step, s': State)
    requires Inv(s) && Next(s, step, s') && Counts(s')
    ensures WellFormed(s') && Exclusive(s')
  {
    var t := step.t;
    if step.Upgrade? || step.Wake? {
      assert forall u :: 0 <= u < |s.pcs| && u != t ==> s'.pcs[u] == s.pcs[u];
      if s'.pcs[t].Writing? {
        WriterIsAlone(s, step, s');
      }
    }
  }

  lemma StepKeepsWakeups(s: State, step: Step, s': State)
    requires Inv(s) && Next(s, step, s') && Counts(s') && WellFormed(s') && Exclusive(s')
    ensures NoLostWakeup(s')
  {
    AllWaitingIff(s);
    AllWaitingIff(s');
    assert step.Upgrade? || step.Wake? ==> forall u :: 0 <= u < |s.pcs| && u != step.t ==> s'.pcs[u] == s.pcs[u];
  }

  lemma WriterIsAlone(s: State, step: Step, s': State)
    requires Inv(s) && Next(s, step, s') && (step.Upgrade? || step.Wake?) && s'.pcs[step.t].Writing?
    requires Counts(s')
    ensures forall u :: 0 <= u < |s.pcs| && u != step.t ==> s'.pcs[u].Idle? || s'.pcs[u].Waiting?
  {
    // Take the state just before: the task counts as a waiter.
    var t := step.t;
    var before := s'.(wantWrite := s'.wantWrite + 1, pcs := s'.pcs[t := Waiting(0, true)]);
    CountsBefore(s', t, before);
    AllWaitingIff(before);
    assert forall u :: 0 <= u < |s.pcs| && u != t ==> before.pcs[u] == s'.pcs[u];
  }

  /** If a writer were still waiting, the counters would be right with one more waiter. */
  lemma CountsBefore(s: State, t: nat, before: State)
    requires Counts(s) && t < |s.pcs| && s.pcs[t].Writing?
    requires before == s.(wantWrite := s.wantWrite + 1, pcs := s.pcs[t := Waiting(0, true)])
    ensures Counts(before)
  {
    Moved(s.pcs, t, Waiting(0, true));
    assert t in Holders(s.pcs) && t !in Waiters(s.pcs);
    assert Holders(before.pcs) == Holders(s.pcs);
  }

  // ---------- Runs ----------

  /** `states[i + 1]` follows from `states[i]` by `steps[i]`. */
  ghost predicate IsRun(states: seq<State>, steps: seq<Step>) {
    && |states| == |steps| + 1
    && forall i :: 0 <= i < |steps| ==> WellFormed(states[i]) && Next(states[i], steps[i], states[i + 1])
  }

  lemma {:induction false} RunKeepsInv(states: seq<State>, steps: seq<Step>, i: nat)
    requires IsRun(states, steps) && Inv(states[0]) && i < |states|
    ensures Inv(states[i])
  {
    if i > 0 {
      RunKeepsInv(states, steps, i - 1);
      StepKeepsInv(states[i - 1], steps[i - 1], states[i]);
    }
  }

  predicate Finished(s: State)
    requires WellFormed(s)
  {
    forall t :: 0 <= t < |s.pcs| ==> s.pcs[t] == Idle && s.rounds[t] == []
  }

  /** Some step is always possible until every task has finished: no set of upgraders waits for ever. */
  lemma NotStuck(s: State) returns (step: Step)
    requires Inv(s) && !Finished(s)
    ensures Enabled(s, step)
  {
    AllWaitingIff(s);
    var t: nat :| t < |s.pcs| && (s.pcs[t] != Idle || s.rounds[t] != []);
    if w :| s.writer == Some(w) {
      step := EndWrite(w);
    } else if u: nat :| u < |s.pcs| && s.pcs[u].Reading? {
      step := ExitRead(u);
    } else if s.pcs[t] == Idle {
      step := EnterRead(t);
    } else {
      step := Wake(t);
    }
  }

  // ---------- Termination ----------

  /** What the read sections a task has not begun amount to, in phases: each upgrade takes three, the rest two. */
  function Phases(rounds: seq<nat>): nat {
    if rounds == [] then 0 else 3 * rounds[0] + 2 + Phases(rounds[1..])
  }

  /** The phases of the read section a task is in. */
  function PhasesLeft(pc: Pc): nat {
    match pc
    case Idle => 0
    case Reading(left) => 3 * left + 1
    case Waiting(left, _) => 3 * left + 3
    case Writing(left) => 3 * left + 2
  }

  /** What a task has left to do, in units of `b` per phase; a pending wakeup weighs one. */
  function Weight(pc: Pc, rounds: seq<nat>, b: nat): nat {
    (Phases(rounds) + PhasesLeft(pc)) * b + if pc.Waiting? && pc.notified then 1 else 0
  }

  function Total(pcs: seq<Pc>, rounds: seq<seq<nat>>, b: nat): nat
    requires |pcs| == |rounds|
  {
    if pcs == [] then 0 else Weight(pcs[0], rounds[0], b) + Total(pcs[1..], rounds[1..], b)
  }

  function Measure(s: State): nat
    requires WellFormed(s)
  {
    Total(s.pcs, s.rounds, |s.pcs| + 1)
  }

  lemma {:induction false} TotalMoved(pcs: seq<Pc>, rounds: seq<seq<nat>>, b: nat, t: nat, pc: Pc, r: seq<nat>)
    requires |pcs| == |rounds| && t < |pcs|
    ensures Total(pcs[t := pc], rounds[t := r], b) ==
      Total(pcs, rounds, b) - Weight(pcs[t], rounds[t], b) + Weight(pc, r, b)
  {
    var pcs', rounds' := pcs[t := pc], rounds[t := r];
    if t == 0 {
      assert pcs'[1..] == pcs[1..] && rounds'[1..] == rounds[1..];
    } else {
      assert pcs'[1..] == pcs[1..][t - 1 := pc] && rounds'[1..] == rounds[1..][t - 1 := r];
      TotalMoved(pcs[1..], rounds[1..], b, t - 1, pc, r);
    }
  }

  lemma {:induction false} TotalNotified(pcs: seq<Pc>, rounds: seq<seq<nat>>, b: nat)
    requires |pcs| == |rounds|
    ensures Total(NotifyAll(pcs), rounds, b) <= Total(pcs, rounds, b) + |pcs|
  {
    if pcs != [] {
      assert NotifyAll(pcs)[1..] == NotifyAll(pcs[1..]);
      TotalNotified(pcs[1..], rounds[1..], b);
    }
  }

  /** How the weight of the moving task drops: by a whole phase, or by the one pending wakeup. */
  lemma WeightDrops(s: State, step: Step, s': State, b: nat)
    requires WellFormed(s) && Next(s, step, s') && b > 1
    ensures var t := step.t;
      var before, after := Weight(s.pcs[t], s.rounds[t], b), Weight(s'.pcs[t], s'.rounds[t], b);
      after < before && (step.ExitRead? ==> after + b <= before)
  {
    var t := step.t;
    var now, next := Phases(s.rounds[t]) + PhasesLeft(s.pcs[t]), Phases(s'.rounds[t]) + PhasesLeft(s'.pcs[t]);
    if step.Wake? && s'.pcs[t].Waiting? {
      assert now == next;
    } else {
      assert next + 1 <= now;
      PhaseDrops(next, now, b);
    }
  }

  lemma {:induction false} PhaseDrops(a: nat, c: nat, b: nat)
    requires a + 1 <= c
    ensures a * b + b <= c * b
    decreases c
  {
    assert c * b == (c - 1) * b + b;
    if a + 1 < c { PhaseDrops(a, c - 1, b); }
  }

  /** Every step brings the workload nearer its end, wakeups that find the condition false included. */
  lemma StepDecreases(s: State, step: Step, s': State)
    requires WellFormed(s) && Next(s, step, s')
    ensures WellFormed(s') && |s'.pcs| == |s.pcs| && Measure(s') < Measure(s)
  {
    var t, b := step.t, |s.pcs| + 1;
    WeightDrops(s, step, s', b);
    assert s'.rounds == s.rounds[t := s'.rounds[t]];
    if step.ExitRead? {
      var pcs := s.pcs[t := Idle];
      TotalMoved(s.pcs, s.rounds, b, t, Idle, s'.rounds[t]);
      TotalNotified(pcs, s'.rounds, b);
      assert s'.pcs == pcs || s'.pcs == NotifyAll(pcs);
      assert s'.pcs[t] == Idle;
    } else {
      assert s'.pcs == s.pcs[t := s'.pcs[t]];
      TotalMoved(s.pcs, s.rounds, b, t, s'.pcs[t], s'.rounds[t]);
    }
  }

  /** A run is never longer than the work it starts with, so every run that cannot go on has finished. */
  lemma {:induction false} RunsEnd(states: seq<State>, steps: seq<Step>)
    requires IsRun(states, steps) && Inv(states[0])
    ensures |steps| <= Measure(states[0])
    ensures var last := states[|states| - 1];
      Inv(last) && ((forall step :: !Enabled(last, step)) ==> Finished(last))
  {
    var last := states[|states| - 1];
    RunKeepsInv(states, steps, |states| - 1);
    if !Finished(last) { var step := NotStuck(last); }
    RunBounded(states, steps, |steps|);
  }

  lemma {:induction false} RunBounded(states: seq<State>, steps: seq<Step>, i: nat)
    requires IsRun(states, steps) && Inv(states[0]) && i <= |steps|
    ensures WellFormed(states[i]) && Measure(states[i]) + i <= Measure(states[0])
  {
    if i > 0 {
      RunBounded(states, steps, i - 1);
      RunKeepsInv(states, steps, i - 1);
      StepDecreases(states[i - 1], steps[i - 1], states[i]);
    }
  }
}
