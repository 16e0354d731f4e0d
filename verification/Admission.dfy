/** Which commands may run beside which others on one mailbox: `Mailbox.would_conflict`. */
module Admission {

  datatype Kind =
    | Append | Check | Close | Copy | Delete | Examine | Expunge | Fetch
    | Move | Noop | Rename | Search | Select | Status | Store

  /** A command with what admission looks at; `msgs` is `msg_set_as_set`, empty for None. */
  datatype Cmd = Cmd(kind: Kind, peek: bool, msgs: set<nat>)

  /** `CONFLICTING_COMMANDS`: while one of these runs, nothing else is admitted. */
  predicate Conflicting(kind: Kind) {
    kind in {Append, Check, Close, Delete, Expunge, Move, Rename}
  }

  /** Those of them that are themselves admitted only when nothing else runs. */
  predicate Exclusive(kind: Kind) {
    kind in {Append, Check, Delete, Move, Rename}
  }

  predicate Intersect(a: Cmd, b: Cmd) { a.msgs * b.msgs != {} }

  /** Branch by branch as the source has it; `deleted` says whether the Deleted sequence has members. */
  predicate WouldConflict(executing: seq<Cmd>, deleted: bool, cmd: Cmd) {
    if executing == [] then false
    else if exists x :: x in executing && Conflicting(x.kind) then true
    else match cmd.kind
      case Append | Check | Delete | Move | Rename => true
      case Close | Expunge => deleted
      case Copy =>
        exists x :: x in executing &&
          ((x.kind == Store && Intersect(cmd, x)) || (x.kind == Fetch && !x.peek && Intersect(cmd, x)))
      case Fetch =>
        if !cmd.peek then
          exists x :: x in executing &&
            (x.kind == Search || (x.kind in {Copy, Fetch, Store} && Intersect(cmd, x)))
        else
          exists x :: x in executing && x.kind == Store && Intersect(cmd, x)
      case Noop | Select | Status | Examine => false
      case Search =>
        exists x :: x in executing && ((x.kind == Fetch && !x.peek) || x.kind == Store)
      case Store =>
        exists x :: x in executing &&
          (x.kind == Search || (x.kind in {Store, Fetch, Copy} && Intersect(cmd, x)))
  }

  // ---------- What admission guarantees about any two running commands ----------

  /** A FETCH that may set flags beyond Recent, or a STORE. */
  predicate ChangesFlags(c: Cmd) { c.kind == Store || (c.kind == Fetch && !c.peek) }

  /** What may hold of a running command `a` and one `b` admitted after it. */
  predicate Compatible(a: Cmd, b: Cmd) {
    && !Conflicting(a.kind)
    && !Exclusive(b.kind)
    && (a.kind == Store && b.kind in {Store, Fetch, Copy} ==> !Intersect(a, b))
    && (b.kind == Store && a.kind in {Store, Fetch, Copy} ==> !Intersect(a, b))
    && (a.kind == Search ==> !ChangesFlags(b))
    && (b.kind == Search ==> !ChangesFlags(a))
    && (a.kind == Copy && ChangesFlags(b) ==> !Intersect(a, b))
    && (b.kind == Copy && ChangesFlags(a) ==> !Intersect(a, b))
    && (a.kind == Fetch && b.kind == Fetch && !b.peek ==> !Intersect(a, b))
  }

  /** A command is admitted exactly when it is compatible with all that runs, except that CLOSE and EXPUNGE also
      wait for everything else while messages are marked Deleted. */
  lemma AdmittedIff(executing: seq<Cmd>, deleted: bool, cmd: Cmd)
    ensures !WouldConflict(executing, deleted, cmd) <==>
      && (forall x :: x in executing ==> Compatible(x, cmd))
      && (cmd.kind in {Close, Expunge} && deleted ==> executing == [])
  {
    if executing != [] {
      assert executing[0] in executing;
      assert forall x :: x in executing ==> Intersect(cmd, x) == Intersect(x, cmd) by {
        forall x | x in executing ensures Intersect(cmd, x) == Intersect(x, cmd) {
          assert cmd.msgs * x.msgs == x.msgs * cmd.msgs;
        }
      }
    }
  }

  /** Commands that only read may always run together, one FETCH of bodies among them excepted; and whatever does not
      want the mailbox for itself may run beside what concerns other messages, unless one searches and the other
      changes flags. */
  lemma MayRunBeside(executing: seq<Cmd>, deleted: bool, cmd: Cmd)
    requires forall x :: x in executing ==> x.kind !in {Append, Check, Close, Delete, Expunge, Move, Rename}
    requires cmd.kind in {Copy, Examine, Fetch, Noop, Search, Select, Status, Store}
    ensures (cmd.kind != Store && !(cmd.kind == Fetch && !cmd.peek)
             && (forall x :: x in executing ==> x.kind != Store && !(x.kind == Fetch && !x.peek)))
      ==> !WouldConflict(executing, deleted, cmd)
    ensures ((forall x :: x in executing ==> x.msgs !! cmd.msgs)
             && cmd.kind != Search && (forall x :: x in executing ==> x.kind != Search))
      ==> !WouldConflict(executing, deleted, cmd)
    ensures cmd.kind in {Examine, Noop, Select, Status} ==> !WouldConflict(executing, deleted, cmd)
  {
    forall x | x in executing && x.msgs !! cmd.msgs ensures !Intersect(cmd, x) {
      assert cmd.msgs * x.msgs == {};
    }
  }

  /** The relation depends on the order of admission: a peeking FETCH may join a FETCH of the same messages that sets
      flags, but not the other way round. */
  lemma OrderMatters(msgs: set<nat>)
    requires msgs != {}
    ensures var peek, body := Cmd(Fetch, true, msgs), Cmd(Fetch, false, msgs);
      !WouldConflict([body], false, peek) && WouldConflict([peek], false, body)
  {
    var peek := Cmd(Fetch, true, msgs);
    assert msgs * msgs == msgs;
    assert peek in [peek] && Intersect(Cmd(Fetch, false, msgs), peek);
  }
}
