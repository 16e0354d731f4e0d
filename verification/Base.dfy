/** Results, and sorted sequences of integers as Python's `sorted` produces them. */
module Base {

  datatype Option<+T> = None | Some(value: T)

  /** The outcome of an operation that raises an exception when it fails. */
  datatype Result<+T, +E> = Ok(value: T) | Err(error: E)

  /** Strictly ascending: sorted and free of duplicates. */
  ghost predicate Ascending(s: seq<int>) {
    forall i, j {:trigger Less(s, i, j)} :: 0 <= i < j < |s| ==> Less(s, i, j)
  }

  ghost predicate Less(s: seq<int>, i: nat, j: nat)
    requires i < |s| && j < |s|
  {
    s[i] < s[j]
  }

  /** The order of all elements, for proofs that need more of it than single pairs. */
  lemma AscendingPairs(s: seq<int>)
    requires Ascending(s)
    ensures forall i, j :: 0 <= i < j < |s| ==> s[i] < s[j]
  {
    forall i: nat, j: nat | i < j < |s| ensures s[i] < s[j] { assert Less(s, i, j); }
  }

  ghost predicate Distinct<T>(s: seq<T>) {
    forall i, j :: 0 <= i < j < |s| ==> s[i] != s[j]
  }

  function Elements<T>(s: seq<T>): set<T> {
    set x | x in s
  }

  lemma {:induction false} MinExists(s: set<int>)
    ensures s == {} || exists m :: m in s && forall x :: x in s ==> m <= x
  {
    if exists x :: x in s {
      var x :| x in s;
      var rest := s - {x};
      MinExists(rest);
      if rest == {} {
        assert forall y :: y in s ==> x <= y by { assert s == rest + {x}; }
      } else {
        var k :| k in rest && forall y :: y in rest ==> k <= y;
        var m := if k < x then k else x;
        assert m in s && forall y :: y in s ==> m <= y by { assert s == rest + {x}; }
      }
    } else {
      assert s == {};
    }
  }

  function Min(s: set<int>): (m: int)
    requires s != {}
    ensures m in s && forall x :: x in s ==> m <= x
  {
    MinExists(s);
    var m :| m in s && forall x :: x in s ==> m <= x;
    m
  }

  /** `sorted(s)` of a Python set. */
  function Sorted(s: set<int>): seq<int>
    decreases s
  {
    if s == {} then [] else
    var m := Min(s);
    [m] + Sorted(s - {m})
  }

  lemma {:induction false} SortedAscending(s: set<int>)
    ensures Ascending(Sorted(s)) && |Sorted(s)| == |s|
    ensures forall x :: x in Sorted(s) <==> x in s
    decreases s
  {
    if s != {} {
      var m := Min(s);
      SortedAscending(s - {m});
      PrependAscending(m, Sorted(s - {m}));
    }
  }

  lemma PrependAscending(m: int, s: seq<int>)
    requires Ascending(s) && forall x :: x in s ==> m < x
    ensures Ascending([m] + s)
  {
    AscendingPairs(s);
    assert forall i :: 0 <= i < |s| ==> s[i] in s;
  }

  lemma HasFirst(s: seq<int>)
    ensures s == [] || s[0] in s
  {
  }

  /** Two ascending sequences with the same elements are the same sequence. */
  lemma {:induction false} AscendingUnique(a: seq<int>, b: seq<int>)
    requires Ascending(a) && Ascending(b)
    requires forall x :: x in a <==> x in b
    ensures a == b
    decreases |a|
  {
    AscendingPairs(a);
    AscendingPairs(b);
    if a == [] {
      HasFirst(b);
    } else {
      assert a[0] in b && b != [];
      assert b[0] in a;
      assert a[0] == b[0];
      forall x ensures x in a[1..] <==> x in b[1..] {
        assert x in a[1..] <==> x in a && x != a[0];
        assert x in b[1..] <==> x in b && x != b[0];
      }
      AscendingUnique(a[1..], b[1..]);
      assert a == [a[0]] + a[1..] && b == [b[0]] + b[1..];
    }
  }

  lemma SortedOfAscending(s: seq<int>)
    requires Ascending(s)
    ensures Sorted(Elements(s)) == s
  {
    SortedAscending(Elements(s));
    AscendingUnique(Sorted(Elements(s)), s);
  }

  /** In an ascending sequence a smaller element stands at a smaller position. */
  lemma AscendingOrder(s: seq<int>, i: nat, j: nat)
    requires Ascending(s) && i < |s| && j < |s|
    ensures s[i] < s[j] <==> i < j
  {
    assert if i < j then Less(s, i, j) else j < i ==> Less(s, j, i);
  }

  lemma LastIsMax(s: seq<int>)
    requires Ascending(s) && s != []
    ensures forall x :: x in s ==> x <= s[|s| - 1]
  {
    AscendingPairs(s);
  }

  lemma LastIsNew(s: seq<nat>)
    requires Ascending(s) && s != []
    ensures Ascending(s[..|s| - 1]) && s[|s| - 1] !in s[..|s| - 1]
  {
    AscendingPairs(s);
  }

  lemma TakeNext<T>(s: seq<T>, i: nat)
    requires i < |s|
    ensures s[..i + 1] == s[..i] + [s[i]]
  {
  }

  lemma TakeAll<T>(s: seq<T>)
    ensures s[..|s|] == s
  {
  }

  lemma Reassociate<T>(a: seq<T>, b: seq<T>, c: seq<T>)
    ensures a + b + c == a + (b + c)
  {
  }

  /** `range(lo, hi + 1)`. */
  function Range(lo: nat, hi: nat): (r: seq<nat>)
    ensures |r| == if lo <= hi then hi - lo + 1 else 0
    ensures forall i :: 0 <= i < |r| ==> r[i] == lo + i
  {
    if lo <= hi then seq(hi - lo + 1, i requires 0 <= i => lo + i) else []
  }

  lemma RangeMembers(lo: nat, hi: nat)
    ensures forall n: nat :: n in Range(lo, hi) <==> lo <= n <= hi
  {
    forall n: nat | lo <= n <= hi ensures n in Range(lo, hi) {
      assert Range(lo, hi)[n - lo] == n;
    }
  }

  /** `sorted(keys)` of a set of naturals. */
  function SortedNats(keys: set<nat>): seq<nat> {
    var s := Sorted(set k: nat | k in keys :: k as int);
    SortedAscending(set k: nat | k in keys :: k as int);
    assert forall i :: 0 <= i < |s| ==> s[i] in s;
    s
  }

  lemma SortedNatsAscending(keys: set<nat>)
    ensures Ascending(SortedNats(keys))
    ensures forall k :: k in SortedNats(keys) <==> k in keys
  {
    SortedAscending(set k: nat | k in keys :: k as int);
  }
}
