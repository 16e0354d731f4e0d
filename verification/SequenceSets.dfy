/** IMAP message sets: what they denote, `utils.sequence_set_to_list`, and SEARCH's per-message tests. */
module SequenceSets {
  import opened Base

  datatype Num = N(n: nat) | Star

  /** What the parser produces: a number, `*`, or a pair `a:b`. */
  datatype Elt = One(num: Num) | Pair(lo: Num, hi: Num)

  type MsgSet = seq<Elt>

  function Value(num: Num, max: nat): nat {
    match num case N(n) => n case Star => max
  }

  /** The meaning of one element: `a:b` and `b:a` denote the same numbers. */
  predicate Denotes(elt: Elt, max: nat, n: nat) {
    match elt
    case One(num) => n == Value(num, max)
    case Pair(lo, hi) =>
      var a, b := Value(lo, max), Value(hi, max);
      a <= n <= b || b <= n <= a
  }

  predicate SetDenotes(ms: MsgSet, max: nat, n: nat) {
    exists i :: 0 <= i < |ms| && Denotes(ms[i], max, n)
  }

  /** RFC 3501: a number command may only name messages 1..max; a UID command may name absent ones. */
  predicate InRange(elt: Elt, max: nat, uidCmd: bool) {
    match elt
    case One(N(n)) => 1 <= n && (n <= max || uidCmd)
    case One(Star) => 0 < max || uidCmd
    case Pair(lo, hi) => uidCmd || (1 <= Value(lo, max) <= max && 1 <= Value(hi, max) <= max)
  }

  /** The exception text is not modelled: every failure is Bad. */
  method SequenceSetToList(seqSet: MsgSet, seqMax: nat, uidCmd: bool) returns (r: Result<seq<nat>, string>)
    ensures r.Ok? <==> forall i :: 0 <= i < |seqSet| ==> InRange(seqSet[i], seqMax, uidCmd)
    ensures r.Ok? ==> Ascending(r.value) && forall n: nat :: n in r.value <==> SetDenotes(seqSet, seqMax, n)
  {
    var result: seq<nat> := [];
    var i := 0;
    while i < |seqSet|
      invariant 0 <= i <= |seqSet|
      invariant forall j :: 0 <= j < i ==> InRange(seqSet[j], seqMax, uidCmd)
      invariant forall n: nat :: n in result <==> SetDenotes(seqSet[..i], seqMax, n)
    {
      var elt := seqSet[i];
      match elt {
        case One(Star) =>
          if seqMax == 0 && !uidCmd { return Err("Bad"); }
          result := result + [seqMax];
        case One(N(n)) =>
          if n < 1 { return Err("Bad"); }
          if n > seqMax && !uidCmd { return Err("Bad"); }
          result := result + [n];
        case Pair(lo, hi) =>
          if (lo.Star? || hi.Star?) && seqMax == 0 && !uidCmd { return Err("Bad"); }
          var start, end := Value(lo, seqMax), Value(hi, seqMax);
          RangeMembers(start, end);
          RangeMembers(end, start);
          if (start < 1 || end < 1 || start > seqMax || end > seqMax) && !uidCmd { return Err("Bad"); }
          result := result + (if start > end then Range(end, start) else Range(start, end));
      }
      DenotesSnoc(seqSet[..i], elt, seqMax);
      assert seqSet[..i + 1] == seqSet[..i] + [elt];
      i := i + 1;
    }
    assert seqSet[..i] == seqSet;
    SortedNatsAscending(Elements(result));
    r := Ok(SortedNats(Elements(result)));
  }

  lemma DenotesSnoc(ms: MsgSet, elt: Elt, max: nat)
    ensures forall n: nat :: SetDenotes(ms + [elt], max, n) <==> SetDenotes(ms, max, n) || Denotes(elt, max, n)
  {
    forall n: nat ensures SetDenotes(ms + [elt], max, n) <==> SetDenotes(ms, max, n) || Denotes(elt, max, n) {
      var all := ms + [elt];
      assert all[|ms|] == elt;
      assert forall i :: 0 <= i < |ms| ==> all[i] == ms[i];
    }
  }

  // ---------- search.py: _match_message_set and _match_uid ----------

  /** The test `SEARCH` makes of one message; Err is the TypeError of comparing a number with `*`. */
  function SearchMatch(ms: MsgSet, max: nat, n: nat): Result<bool, string> {
    if ms == [] then Ok(false)
    else match ms[0]
      case One(Star) => if n == max then Ok(true) else SearchMatch(ms[1..], max, n)
      case One(N(m)) => if m == n then Ok(true) else SearchMatch(ms[1..], max, n)
      case Pair(Star, _) => Err("TypeError")
      case Pair(N(lo), hi) =>
        if lo <= n <= Value(hi, max) then Ok(true) else SearchMatch(ms[1..], max, n)
  }

  predicate LeadingStar(elt: Elt) { elt.Pair? && elt.lo.Star? }

  /** A pair whose first end lies above its second. */
  predicate Reversed(elt: Elt, max: nat) { elt.Pair? && Value(elt.lo, max) > Value(elt.hi, max) }

  /** The test an element makes, if it makes one. */
  predicate Matches(elt: Elt, max: nat, n: nat) {
    !LeadingStar(elt) && Denotes(elt, max, n) && !Reversed(elt, max)
  }

  /** The elements before the first leading star. */
  function BeforeStar(ms: MsgSet): (r: MsgSet)
    ensures r <= ms && forall i :: 0 <= i < |r| ==> !LeadingStar(r[i])
    ensures |r| < |ms| <==> exists i :: 0 <= i < |ms| && LeadingStar(ms[i])
  {
    if ms == [] || LeadingStar(ms[0]) then []
    else
      var r := BeforeStar(ms[1..]);
      assert forall i :: 1 <= i < |ms| ==> ms[i] == ms[1..][i - 1];
      [ms[0]] + r
  }

  ghost predicate SomeMatches(ms: MsgSet, max: nat, n: nat) {
    exists i :: 0 <= i < |ms| && Matches(ms[i], max, n)
  }

  /** SEARCH matches what the set denotes through its unreversed elements before the first leading star; a message that
      none of them matches makes it fail if there is a leading star. */
  lemma {:induction false} SearchMatchExact(ms: MsgSet, max: nat, n: nat)
    ensures SearchMatch(ms, max, n) ==
      if SomeMatches(BeforeStar(ms), max, n) then Ok(true)
      else if |BeforeStar(ms)| < |ms| then Err("TypeError")
      else Ok(false)
  {
    if ms != [] && !LeadingStar(ms[0]) {
      var r, rest := BeforeStar(ms), BeforeStar(ms[1..]);
      SearchMatchExact(ms[1..], max, n);
      assert r == [ms[0]] + rest;
      assert forall i :: 1 <= i < |r| ==> r[i] == rest[i - 1];
      assert forall i :: 0 <= i < |rest| ==> rest[i] == r[i + 1];
    }
  }

  /** For sets with ordered pairs and no leading star, SEARCH and the commands agree on every number. */
  lemma SearchAgrees(ms: MsgSet, max: nat, n: nat)
    requires forall i :: 0 <= i < |ms| ==> !LeadingStar(ms[i]) && !Reversed(ms[i], max)
    ensures SearchMatch(ms, max, n) == Ok(SetDenotes(ms, max, n))
  {
    SearchMatchExact(ms, max, n);
    assert BeforeStar(ms) == ms;
  }

  /** A number above all that the set denotes. */
  function Above(ms: MsgSet, max: nat): (n: nat)
    ensures forall i :: 0 <= i < |ms| ==> !Denotes(ms[i], max, n)
    ensures forall i, k: nat :: 0 <= i < |ms| && k >= n ==> !Denotes(ms[i], max, k)
  {
    if ms == [] then 0
    else
      var rest := Above(ms[1..], max);
      var own := match ms[0]
        case One(num) => Value(num, max)
        case Pair(lo, hi) => Value(lo, max) + Value(hi, max);
      assert forall i :: 1 <= i < |ms| ==> ms[i] == ms[1..][i - 1];
      rest + own + 1
  }

  /** SEARCH agrees with the commands on every number if and only if the set has no leading star and each number that it
      denotes is denoted by an unreversed element, too. */
  lemma SearchAgreesIff(ms: MsgSet, max: nat)
    ensures (forall n: nat :: SearchMatch(ms, max, n) == Ok(SetDenotes(ms, max, n)))
      <==> (forall i :: 0 <= i < |ms| ==> !LeadingStar(ms[i]))
           && forall n: nat :: SetDenotes(ms, max, n) ==> SomeMatches(ms, max, n)
  {
    forall n: nat ensures SomeMatches(ms, max, n) ==> SetDenotes(ms, max, n) {
    }
    if exists i :: 0 <= i < |ms| && LeadingStar(ms[i]) {
      var n := Above(ms, max);
      SearchMatchExact(ms, max, n);
      assert SearchMatch(ms, max, n) == Err("TypeError") by {
        assert forall i :: 0 <= i < |BeforeStar(ms)| ==> BeforeStar(ms)[i] == ms[i];
      }
    } else {
      assert BeforeStar(ms) == ms;
      forall n: nat ensures SearchMatch(ms, max, n) == Ok(SomeMatches(ms, max, n)) { SearchMatchExact(ms, max, n); }
    }
  }

  /** One pair, whatever its ends: SEARCH agrees on all numbers if and only if it starts with a number and is ordered.
      */
  lemma SearchAgreesOnPairIff(lo: Num, hi: Num, max: nat)
    ensures (forall n: nat :: SearchMatch([Pair(lo, hi)], max, n) == Ok(SetDenotes([Pair(lo, hi)], max, n)))
      <==> lo.N? && Value(lo, max) <= Value(hi, max)
  {
    var ms := [Pair(lo, hi)];
    SearchAgreesIff(ms, max);
    assert Denotes(ms[0], max, Value(lo, max));
    assert LeadingStar(ms[0]) <==> lo.Star?;
    if Value(lo, max) <= Value(hi, max) {
      assert forall i :: 0 <= i < |ms| ==> !Reversed(ms[i], max);
      if lo.N? { assert forall n: nat, i :: 0 <= i < |ms| && Denotes(ms[i], max, n) ==> Matches(ms[i], max, n); }
    } else {
      assert !SomeMatches(ms, max, Value(lo, max));
    }
  }

  /** SEARCH of a reversed range finds nothing, and one that starts with a star fails. */
  lemma SearchCanFail(max: nat, n: nat)
    ensures SearchMatch([Pair(N(3), N(1))], max, 2) == Ok(false) && SetDenotes([Pair(N(3), N(1))], max, 2)
    ensures SearchMatch([Pair(Star, N(1))], max, n) == Err("TypeError")
  {
    assert Denotes([Pair(N(3), N(1))][0], max, 2);
  }
}
