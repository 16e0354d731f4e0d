/** What clients are told about changes, and what they make of it. */
module Notify {
  import opened Flags

  /** The untagged `EXPUNGE`, `EXISTS`, `RECENT` and `FETCH (FLAGS ...)` responses. */
  datatype Note = Expunged(n: nat) | Exists(n: nat) | Recent(n: nat) | Flagged(n: nat, flags: Names)

  /** A client that has the mailbox selected: what was sent to it, and its `pending_notifications`. */
  datatype Listener = Listener(idling: bool, pushed: seq<Note>, pending: seq<Note>)

  function Push(l: Listener, notes: seq<Note>): Listener {
    l.(pushed := l.pushed + notes)
  }

  function Hear(l: Listener, notes: seq<Note>): Listener {
    if l.idling then Push(l, notes) else l.(pending := l.pending + notes)
  }

  type Clients = map<string, Listener>

  /** Every client except possibly one hears the notes. */
  function Told(clients: Clients, notes: seq<Note>, except: set<string>): Clients {
    map c | c in clients :: if c in except then clients[c] else Hear(clients[c], notes)
  }

  function Pushed(clients: Clients, notes: seq<Note>): Clients {
    map c | c in clients :: Push(clients[c], notes)
  }

  lemma ToldTwice(clients: Clients, a: seq<Note>, b: seq<Note>, except: set<string>)
    ensures Told(Told(clients, a, except), b, except) == Told(clients, a + b, except)
  {
    forall c | c in clients ensures Hear(Hear(clients[c], a), b) == Hear(clients[c], a + b) {
      var l := clients[c];
      assert l.pushed + a + b == l.pushed + (a + b);
      assert l.pending + a + b == l.pending + (a + b);
    }
  }

  lemma ToldNothing(clients: Clients, except: set<string>)
    ensures Told(clients, [], except) == clients
  {
    assert forall c :: c in clients ==> Hear(clients[c], []) == clients[c];
  }

  /** What has been said to a client, in the order in which it will read it. */
  function Heard(l: Listener): seq<Note> { l.pushed + l.pending }

  /** Nobody is forgotten, nobody else is told: the excepted client keeps what it has; every other one gets all the
      notes after what it has, at once if it is idling, and else not before it is sent what is pending. */
  lemma ToldExactly(clients: Clients, notes: seq<Note>, except: set<string>, c: string)
    requires c in clients && (clients[c].idling ==> clients[c].pending == [])
    ensures var told := Told(clients, notes, except);
      && told.Keys == clients.Keys && told[c].idling == clients[c].idling
      && (c in except ==> told[c] == clients[c])
      && (c !in except ==> Heard(told[c]) == Heard(clients[c]) + notes)
      && (if clients[c].idling then told[c].pending == [] else told[c].pushed == clients[c].pushed)
  {
    var l := clients[c];
    assert l.pushed + (l.pending + notes) == l.pushed + l.pending + notes;
    assert l.idling ==> l.pushed + notes + [] == l.pushed + [] + notes;
  }

  /** EXISTS and RECENT are pushed to every client at once, in front of what is pending for it. */
  lemma PushedExactly(clients: Clients, exists_: nat, recent: nat, c: string)
    requires c in clients
    ensures var told := Pushed(clients, [Exists(exists_), Recent(recent)]);
      && told.Keys == clients.Keys && told[c].pending == clients[c].pending
      && Heard(told[c]) == clients[c].pushed + [Exists(exists_), Recent(recent)] + clients[c].pending
  {
  }

  // ---------- The client's own list of the mailbox ----------

  function RemoveAt<T>(s: seq<T>, i: nat): (r: seq<T>)
    requires i < |s|
    ensures |r| == |s| - 1
  {
    s[..i] + s[i + 1..]
  }

  /** A client's list after it has read the notes: section 7.4.1 of RFC 3501. */
  function Replay(list: seq<nat>, notes: seq<Note>): seq<nat>
    decreases |notes|
  {
    if notes == [] then list
    else Replay(if notes[0].Expunged? && 1 <= notes[0].n <= |list| then RemoveAt(list, notes[0].n - 1) else list, notes[1..])
  }

  lemma {:induction false} ReplayTwice(list: seq<nat>, a: seq<Note>, b: seq<Note>)
    ensures Replay(list, a + b) == Replay(Replay(list, a), b)
    decreases |a|
  {
    if a == [] {
      assert a + b == b;
    } else {
      var next := if a[0].Expunged? && 1 <= a[0].n <= |list| then RemoveAt(list, a[0].n - 1) else list;
      ReplayTwice(next, a[1..], b);
      assert (a + b)[1..] == a[1..] + b;
    }
  }

  /** Once it has read what is pending, the client that had `before` when it started has `now`. */
  ghost predicate Follows(l: Listener, before: seq<nat>, now: seq<nat>) {
    && (l.idling ==> l.pending == [])
    && Replay(before, l.pushed + l.pending) == now
  }

  /** Notes whose replay turns the server's old list into its new one keep every client in step, whether they are
      pushed to it or kept for later. */
  lemma HearFollows(l: Listener, before: seq<nat>, now: seq<nat>, notes: seq<Note>)
    requires Follows(l, before, now)
    ensures Follows(Hear(l, notes), before, Replay(now, notes))
  {
    var heard := Hear(l, notes);
    assert heard.pushed + heard.pending == (l.pushed + l.pending) + notes;
    ReplayTwice(before, l.pushed + l.pending, notes);
  }

  /** Every client that started with the list `before` gives for it follows the server to `now`. */
  ghost predicate AllFollow(clients: Clients, before: map<string, seq<nat>>, now: seq<nat>) {
    forall c :: c in clients ==> c in before && Follows(clients[c], before[c], now)
  }

  lemma ToldFollows(clients: Clients, notes: seq<Note>, before: map<string, seq<nat>>, now: seq<nat>)
    requires AllFollow(clients, before, now)
    ensures AllFollow(Told(clients, notes, {}), before, Replay(now, notes))
  {
    forall c | c in clients ensures Follows(Told(clients, notes, {})[c], before[c], Replay(now, notes)) {
      HearFollows(clients[c], before[c], now, notes);
    }
  }

  lemma AllToldFollow(clients: Clients, notes: seq<Note>, now: seq<nat>)
    ensures forall before ::
      AllFollow(clients, before, now) ==> AllFollow(Told(clients, notes, {}), before, Replay(now, notes))
  {
    forall before | AllFollow(clients, before, now)
      ensures AllFollow(Told(clients, notes, {}), before, Replay(now, notes))
    {
      ToldFollows(clients, notes, before, now);
    }
  }

  /** FETCH lines do not change a client's list. */
  lemma {:induction false} FlagNotesKeepList(list: seq<nat>, notes: seq<Note>)
    requires forall i :: 0 <= i < |notes| ==> notes[i].Flagged?
    ensures Replay(list, notes) == list
    decreases |notes|
  {
    if notes != [] { FlagNotesKeepList(list, notes[1..]); }
  }

  /** A STORE or the end of a FETCH keeps every client in step, also those that are not told. */
  lemma FlagNotesFollow(clients: Clients, notes: seq<Note>, except: set<string>, before: map<string, seq<nat>>,
                        now: seq<nat>)
    requires forall i :: 0 <= i < |notes| ==> notes[i].Flagged?
    requires AllFollow(clients, before, now)
    ensures AllFollow(Told(clients, notes, except), before, now)
  {
    FlagNotesKeepList(now, notes);
    forall c | c in clients ensures Follows(Told(clients, notes, except)[c], before[c], now) {
      HearFollows(clients[c], before[c], now, notes);
    }
  }

  // ---------- EXISTS overtakes what is pending ----------

  /** The size of the mailbox as the client sees it. */
  function Size(size: nat, notes: seq<Note>): nat
    decreases |notes|
  {
    if notes == [] then size
    else Size(
      match notes[0]
      case Exists(n) => n
      case Expunged(_) => if size > 0 then size - 1 else 0
      case _ => size,
      notes[1..])
  }

  function Expunges(notes: seq<Note>): nat {
    if notes == [] then 0 else (if notes[0].Expunged? then 1 else 0) + Expunges(notes[1..])
  }

  lemma {:induction false} SizeAfter(size: nat, notes: seq<Note>)
    requires forall n :: n in notes ==> !n.Exists?
    ensures Size(size, notes) == if Expunges(notes) <= size then size - Expunges(notes) else 0
    decreases |notes|
  {
    if notes != [] {
      SizeAfter(if notes[0].Expunged? && size > 0 then size - 1 else if notes[0].Expunged? then 0 else size, notes[1..]);
    }
  }

  lemma {:induction false} SizeTwice(size: nat, a: seq<Note>, b: seq<Note>)
    ensures Size(size, a + b) == Size(Size(size, a), b)
    decreases |a|
  {
    if a == [] {
      assert a + b == b;
    } else {
      assert (a + b)[1..] == a[1..] + b;
      match a[0]
      case Exists(n) => SizeTwice(n, a[1..], b);
      case Expunged(_) => SizeTwice(if size > 0 then size - 1 else 0, a[1..], b);
      case Recent(_) => SizeTwice(size, a[1..], b);
      case Flagged(_, _) => SizeTwice(size, a[1..], b);
    }
  }

  /** An EXISTS is pushed at once. A client that reads its pending notes afterwards ends with the announced size if
      and only if no EXPUNGE was pending (or the mailbox is empty). */
  lemma OvertakenExistsIff(l: Listener, size: nat, n: nat)
    requires forall note :: note in l.pending ==> !note.Exists?
    ensures var told := Push(l, [Exists(n)]);
      Size(size, told.pushed + told.pending) == n <==> Expunges(l.pending) == 0 || n == 0
  {
    var told := Push(l, [Exists(n)]);
    SizeTwice(size, told.pushed, l.pending);
    SizeTwice(size, l.pushed, [Exists(n)]);
    assert Size(Size(size, l.pushed), [Exists(n)]) == n;
    SizeAfter(n, l.pending);
  }

  // ---------- send_pending_notifications ----------

  /** `during` is what other tasks leave for the client while the push is awaited; the list is emptied after it. */
  function Drained(l: Listener, during: seq<Note>): Listener {
    if l.pending == [] then l.(pending := during)
    else l.(pushed := l.pushed + l.pending, pending := [])
  }

  /** Nothing is lost if and only if nothing came during the push (or there was no push). */
  lemma DrainedLosesNothingIff(l: Listener, during: seq<Note>)
    ensures Drained(l, during).pushed + Drained(l, during).pending == l.pushed + l.pending + during
      <==> during == [] || l.pending == []
  {
    if l.pending == [] {
      assert l.pushed + l.pending + during == l.pushed + during;
    } else {
      assert |l.pushed + l.pending + []| == |l.pushed + l.pending|;
      assert |l.pushed + l.pending + during| == |l.pushed + l.pending| + |during|;
      if during == [] { assert l.pushed + l.pending + during == l.pushed + l.pending + []; }
    }
  }
}
