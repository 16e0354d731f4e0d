/** Which messages a message set selects. */
module Selecting {
  import opened Base
  import opened SequenceSets
  import opened Box
  import opened Indexing
  import opened IndexView

  /** The numbers of the messages that a message set names: directly, or by their UIDs. */
  ghost function Numbers(entries: seq<Entry>, ms: MsgSet, fromUids: bool): set<nat> {
    set n: nat | 1 <= n <= |entries| && IsNamed(entries, ms, fromUids, n)
  }

  ghost predicate IsNamed(entries: seq<Entry>, ms: MsgSet, fromUids: bool, n: nat)
    requires 1 <= n <= |entries|
  {
    exists i :: 0 <= i < |ms| && Covers(ms[i], entries, fromUids, n)
  }

  /** What one element means for message n of a mailbox, by its number or by its UID: `*` is the last message, and is
      named by any range that ends there; ranges work in either direction. */
  ghost predicate Covers(elt: Elt, entries: seq<Entry>, fromUids: bool, n: nat)
    requires 1 <= n <= |entries|
  {
    var at := if fromUids then entries[n - 1].uid else n;
    match elt
    case One(N(k)) => at == k
    case One(Star) => n == |entries|
    case Pair(N(a), N(b)) => a <= at <= b || b <= at <= a
    case Pair(N(a), Star) => a <= at || n == |entries|
    case Pair(Star, N(b)) => b <= at || n == |entries|
    case Pair(Star, Star) => n == |entries|
  }

  /** A set of message numbers is accepted if it names none that the mailbox, of this size, does not have; a set of UIDs
      if it does not hold the number 0 by itself. */
  ghost predicate Resolves(ms: MsgSet, size: nat, fromUids: bool) {
    if fromUids then One(N(0)) !in ms else forall n: nat :: SetDenotes(ms, size, n) ==> 1 <= n <= size
  }

  lemma ResolvesIff(ms: MsgSet, max: nat, fromUids: bool)
    ensures Resolves(ms, max, fromUids) <==> forall i :: 0 <= i < |ms| ==> InRange(ms[i], max, fromUids)
  {
    if !fromUids {
      forall i | 0 <= i < |ms|
        ensures InRange(ms[i], max, false) <==> forall n: nat :: Denotes(ms[i], max, n) ==> 1 <= n <= max
      {
        InRangeIff(ms[i], max);
      }
      if i, n: nat :| 0 <= i < |ms| && Denotes(ms[i], max, n) && !(1 <= n <= max) {
        assert SetDenotes(ms, max, n);
      }
    }
  }

  /** What is in range denotes only numbers of messages. */
  lemma InRangeIff(elt: Elt, max: nat)
    ensures InRange(elt, max, false) <==> forall n: nat :: Denotes(elt, max, n) ==> 1 <= n <= max
  {
    match elt
    case One(num) => assert Denotes(elt, max, Value(num, max));
    case Pair(lo, hi) => assert Denotes(elt, max, Value(lo, max)) && Denotes(elt, max, Value(hi, max));
  }

  /** `self.uids[-1] if self.uids else 1`. */
  function MaxUid(uids: seq<nat>): nat {
    if uids == [] then 1 else uids[|uids| - 1]
  }

  lemma CoversIff(elt: Elt, entries: seq<Entry>, fromUids: bool, n: nat)
    requires 1 <= n <= |entries| && (fromUids ==> Ascending(Uids(entries)))
    ensures Covers(elt, entries, fromUids, n) <==>
      if fromUids then Denotes(elt, MaxUid(Uids(entries)), entries[n - 1].uid) else Denotes(elt, |entries|, n)
  {
    if fromUids {
      var uids := Uids(entries);
      LastIsMax(uids);
      assert uids[n - 1] in uids;
      AscendingOrder(uids, n - 1, |uids| - 1);
    }
  }

  lemma NamedIff(entries: seq<Entry>, ms: MsgSet, fromUids: bool, n: nat)
    requires 1 <= n <= |entries| && (fromUids ==> Ascending(Uids(entries)))
    ensures IsNamed(entries, ms, fromUids, n) <==>
      if fromUids then SetDenotes(ms, MaxUid(Uids(entries)), entries[n - 1].uid) else SetDenotes(ms, |entries|, n)
  {
    forall i | 0 <= i < |ms|
      ensures Covers(ms[i], entries, fromUids, n) <==>
        if fromUids then Denotes(ms[i], MaxUid(Uids(entries)), entries[n - 1].uid) else Denotes(ms[i], |entries|, n)
    {
      CoversIff(ms[i], entries, fromUids, n);
    }
  }

  /** In a mailbox that is not empty `*` is the last message, and `1:*` is every message with a UID above 0. */
  lemma StarIsLast(entries: seq<Entry>, fromUids: bool)
    requires entries != []
    ensures Numbers(entries, [One(Star)], fromUids) == {|entries|}
    ensures forall n :: n in Numbers(entries, [Pair(N(1), Star)], fromUids) <==>
      1 <= n <= |entries| && (fromUids ==> entries[n - 1].uid >= 1 || n == |entries|)
  {
    forall n: nat | 1 <= n <= |entries|
      ensures IsNamed(entries, [One(Star)], fromUids, n) <==> n == |entries|
      ensures IsNamed(entries, [Pair(N(1), Star)], fromUids, n) <==>
        (fromUids ==> entries[n - 1].uid >= 1 || n == |entries|)
    {
      assert [One(Star)][0] == One(Star) && [Pair(N(1), Star)][0] == Pair(N(1), Star);
      assert Covers([One(Star)][0], entries, fromUids, n) <==> n == |entries|;
      assert Covers([Pair(N(1), Star)][0], entries, fromUids, n) <==>
        (fromUids ==> entries[n - 1].uid >= 1 || n == |entries|);
    }
  }

  function PlacesOf(list: seq<nat>, at: map<nat, nat>): set<nat> {
    set u | u in list && u in at :: at[u] + 1
  }

  lemma NumbersNext(list: seq<nat>, i: nat, at: map<nat, nat>)
    requires i < |list|
    ensures PlacesOf(list[..i + 1], at) == PlacesOf(list[..i], at) + if list[i] in at then {at[list[i]] + 1} else {}
  {
    assert forall u :: u in list[..i + 1] <==> u in list[..i] || u == list[i];
    var a, b := PlacesOf(list[..i + 1], at), PlacesOf(list[..i], at);
    forall n ensures n in a <==> n in b || (list[i] in at && n == at[list[i]] + 1) {
    }
  }

  lemma NumbersInRange(entries: seq<Entry>, ms: MsgSet, list: seq<nat>)
    requires Resolves(ms, |entries|, false)
    requires forall n: nat :: n in list <==> SetDenotes(ms, |entries|, n)
    ensures Elements(list) == Numbers(entries, ms, false)
  {
    forall n: nat ensures n in list <==> 1 <= n <= |entries| && IsNamed(entries, ms, false, n) {
      if 1 <= n <= |entries| { NamedIff(entries, ms, false, n); }
    }
  }

  lemma NumbersOfUids(ix: Index, ms: MsgSet, list: seq<nat>, at: map<nat, nat>)
    requires Sound(ix) && Viewable(ix) && at == Positions(ix.lists.uids)
    requires forall n: nat :: n in list <==> SetDenotes(ms, MaxUid(ix.lists.uids), n)
    ensures PlacesOf(list, at) == Numbers(View(ix).entries, ms, true)
  {
    var a, b := PlacesOf(list, at), Numbers(View(ix).entries, ms, true);
    ViewUids(ix);
    PositionsLocate(ix.lists.uids);
    PlacesOfUids(ix.lists.uids, ms, list, at);
    assert Uids(View(ix).entries) == ix.lists.uids;
    forall n: nat | 1 <= n <= |ix.lists.uids|
      ensures IsNamed(View(ix).entries, ms, true, n) <==> SetDenotes(ms, MaxUid(ix.lists.uids), ix.lists.uids[n - 1])
    {
      NamedIff(View(ix).entries, ms, true, n);
    }
  }

  lemma PlacesOfUids(uids: seq<nat>, ms: MsgSet, list: seq<nat>, at: map<nat, nat>)
    requires Locates(at, uids) && forall n: nat :: n in list <==> SetDenotes(ms, MaxUid(uids), n)
    ensures forall n :: n in PlacesOf(list, at) <==> 1 <= n <= |uids| && SetDenotes(ms, MaxUid(uids), uids[n - 1])
  {
    forall n: nat | 1 <= n <= |uids| && SetDenotes(ms, MaxUid(uids), uids[n - 1]) ensures n in PlacesOf(list, at) {
      assert uids[n - 1] in list && at[uids[n - 1]] == n - 1;
    }
    forall n | n in PlacesOf(list, at) ensures 1 <= n <= |uids| && SetDenotes(ms, MaxUid(uids), uids[n - 1]) {
      var u :| u in list && u in at && n == at[u] + 1;
      assert uids[at[u]] == u;
    }
  }

  /** The entries with these numbers, in order. */
  ghost function Picked(entries: seq<Entry>, nums: set<nat>): (r: seq<Entry>)
    requires forall n :: n in nums ==> 1 <= n <= |entries|
  {
    var list := SortedNats(nums);
    SortedNatsAscending(nums);
    assert forall i :: 0 <= i < |list| ==> list[i] in list;
    seq(|list|, i requires 0 <= i < |list| => entries[list[i] - 1])
  }

  lemma ThesePicked(entries: seq<Entry>, nums: set<nat>, list: seq<nat>, r: seq<Entry>)
    requires (forall n :: n in nums ==> 1 <= n <= |entries|) && SortedNats(nums) == list && |r| == |list|
    requires forall i :: 0 <= i < |list| ==> 1 <= list[i] <= |entries| && r[i] == entries[list[i] - 1]
    ensures r == Picked(entries, nums)
  {
  }

  lemma InOrder(list: seq<nat>, nums: set<nat>)
    requires Ascending(list) && Elements(list) == nums
    ensures SortedNats(nums) == list && forall i :: 0 <= i < |list| ==> list[i] in nums
  {
    SortedNatsAscending(nums);
    AscendingUnique(SortedNats(nums), list);
    assert forall i :: 0 <= i < |list| ==> list[i] in list;
  }

  /** `nums` are numbers of messages with UIDs of the list. */
  ghost predicate NumbersAmong(nums: seq<nat>, list: seq<nat>, uids: seq<nat>) {
    forall j :: 0 <= j < |nums| ==> 1 <= nums[j] <= |uids| && uids[nums[j] - 1] in list
  }

  /** UIDs looked up in ascending order give ascending numbers. */
  lemma NumberAfter(list: seq<nat>, i: nat, uids: seq<nat>, nums: seq<nat>, n: nat)
    requires i < |list| && Ascending(uids) && 1 <= n <= |uids| && uids[n - 1] == list[i]
    requires NumbersAmong(nums, list[..i], uids)
    ensures NumbersAmong(nums + [n], list[..i + 1], uids)
    ensures Ascending(list) && Ascending(nums) ==> Ascending(nums + [n])
  {
    TakeNext(list, i);
    if Ascending(list) && Ascending(nums) {
      AscendingPairs(list);
      AscendingPairs(nums);
      forall j | 0 <= j < |nums| ensures nums[j] < n {
        AscendingOrder(uids, nums[j] - 1, n - 1);
      }
    }
  }

  lemma NumbersStayAmong(nums: seq<nat>, list: seq<nat>, i: nat, uids: seq<nat>)
    requires i < |list| && NumbersAmong(nums, list[..i], uids)
    ensures NumbersAmong(nums, list[..i + 1], uids)
  {
    TakeNext(list, i);
  }
}
