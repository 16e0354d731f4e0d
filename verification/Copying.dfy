/** The UIDs of copies, which others' messages may come between. */
module Copying {
  import opened Base
  import opened Folder
  import opened Box
  import opened IndexView
  import opened Delivering
  import opened Resyncing

  function WindowsOf(windows: seq<seq<Delivery>>): (r: seq<seq<Arrival>>)
    ensures |r| == |windows| && forall i :: 0 <= i < |windows| ==> r[i] == ArrivalsOf(windows[i])
  {
    seq(|windows|, i requires 0 <= i < |windows| => ArrivalsOf(windows[i]))
  }

  /** The copies have these keys among what the index does not list, of which `before` had arrived earlier. */
  ghost predicate CopiesAt(keys: seq<nat>, unlisted: seq<nat>, before: nat, windows: seq<seq<Arrival>>) {
    && |keys| == |windows|
    && forall i :: 0 <= i < |keys| ==>
         before + Offset(windows, i) < |unlisted| && unlisted[before + Offset(windows, i)] == keys[i]
  }

  function Copied(copies: seq<Arrival>, windows: seq<seq<Arrival>>, i: nat): seq<Arrival>
    requires |copies| == |windows| && i <= |copies|
  {
    Interleave(copies[..i], windows[..i])
  }

  /** The first i copies have these keys, with what arrived between them in `all`. */
  ghost predicate KeysAt(keys: seq<nat>, all: seq<nat>, windows: seq<seq<Arrival>>, i: nat)
    requires i <= |windows|
  {
    && |keys| == i && |all| == Offset(windows, i)
    && forall j :: 0 <= j < i ==> Offset(windows, j) < |all| && all[Offset(windows, j)] == keys[j]
  }

  lemma KeysAtSnoc(keys: seq<nat>, all: seq<nat>, windows: seq<seq<Arrival>>, i: nat, key: nat, more: seq<nat>)
    requires i < |windows| && KeysAt(keys, all, windows, i) && |more| == |windows[i]|
    ensures KeysAt(keys + [key], all + ([key] + more), windows, i + 1)
  {
  }

  /** The first i copies have been written, with what came between them. */
  ghost predicate HalfCopied(f0: Folder, f: Folder, marks: Sequences, keys: seq<nat>, all: seq<nat>,
                             copies: seq<Arrival>, windows: seq<seq<Arrival>>, i: nat)
    requires |copies| == |windows| && i <= |copies|
  {
    CopiedIn(f0, f, marks, all, Copied(copies, windows, i)) && KeysAt(keys, all, windows, i)
  }

  lemma CopyNext(f0: Folder, f: Folder, marks: Sequences, keys: seq<nat>, all: seq<nat>,
                 copies: seq<Arrival>, windows: seq<seq<Arrival>>, i: nat, key: nat, f': Folder, more: seq<nat>)
    requires |copies| == |windows| && i < |copies| && HalfCopied(f0, f, marks, keys, all, copies, windows, i)
    requires forall k :: k in f.msgs ==> k < key
    requires GrewBy(AddMsg(f, key, copies[i].msg), f', more, Msgs(windows[i]))
    ensures HalfCopied(f0, f', AddMarks(marks, copies[i].marks, key), keys + [key], all + ([key] + more),
                       copies, windows, i + 1)
  {
    CopyOne(f0, f, marks, all, Copied(copies, windows, i), key, copies[i], f', more, windows[i]);
    InterleaveSnoc(copies, windows, i);
    KeysAtSnoc(keys, all, windows, i, key, more);
  }

  lemma AllCopied(f0: Folder, f: Folder, marks: Sequences, keys: seq<nat>, all: seq<nat>,
                  copies: seq<Arrival>, windows: seq<seq<Arrival>>, before: seq<nat>)
    requires |copies| == |windows| && HalfCopied(f0, f, marks, keys, all, copies, windows, |copies|)
    ensures CopiedIn(f0, f, marks, all, Interleave(copies, windows))
    ensures CopiesAt(keys, before + all, |before|, windows)
  {
    TakeAll(copies);
    TakeAll(windows);
  }

  lemma CopiesStay(keys: seq<nat>, unlisted: seq<nat>, more: seq<nat>, before: nat, windows: seq<seq<Arrival>>)
    requires CopiesAt(keys, unlisted, before, windows)
    ensures CopiesAt(keys, unlisted + more, before, windows)
  {
  }

  /** The file that COPY writes mentions only existing messages. */
  lemma CopiedClean(f0: Folder, f: Folder, marks: Sequences, keys: seq<nat>, arrivals: seq<Arrival>)
    requires CopiedIn(f0, f, marks, keys, arrivals)
    ensures Clean(SetSequences(f, marks))
  {
    forall k: nat | k !in f.msgs ensures FlagsOf(SetSequences(f, marks).marks, k) == {} {
      SetSequencesFlags(f, marks, k);
    }
  }

  /** Once the sequences are written, the copies and what came between them have arrived. */
  lemma CopiesWritten(ix: Index, f: Folder, marks: Sequences, keys: seq<nat>, all: seq<nat>,
                      copies: seq<Arrival>, windows: seq<seq<Arrival>>)
    requires Sound(ix) && |copies| == |windows|
    requires HalfCopied(ix.folder, f, marks, keys, all, copies, windows, |copies|)
    ensures var ix' := ix.(folder := SetSequences(f, marks));
      && Tracks(ix') && Clean(ix'.folder) && Viewable(ix) && Viewable(ix')
      && View(ix') == WithMore(View(ix), Interleave(copies, windows))
      && CopiesAt(keys, Unlisted(ix'), |View(ix).arrived|, windows)
  {
    AllCopied(ix.folder, f, marks, keys, all, copies, windows, Unlisted(ix));
    CopyView(ix, f, marks, all, Interleave(copies, windows));
    CopiedClean(ix.folder, f, marks, all, Interleave(copies, windows));
  }

  /** The UIDs of copies written with these arrivals between them, when the first of them gets `uid`. */
  function CopyUids(uid: nat, windows: seq<seq<Arrival>>): (uids: seq<nat>)
    ensures |uids| == |windows| && forall i :: 0 <= i < |uids| ==> uids[i] == uid + Offset(windows, i)
  {
    seq(|windows|, i requires 0 <= i < |windows| => uid + Offset(windows, i))
  }

  lemma CopiesHaveUids(ix: Index, ix': Index, keys: seq<nat>, before: nat, windows: seq<seq<Arrival>>, uid: nat)
    requires Grown(ix, ix') && Ascending(ix'.lists.msgKeys) && CopiesAt(keys, Unlisted(ix), before, windows)
    requires uid == ix.lists.nextUid + before
    ensures HaveUids(ix'.lists, keys, CopyUids(uid, windows))
  {
    forall i | 0 <= i < |keys| ensures UidIs(ix'.lists, keys[i], uid + Offset(windows, i)) {
      AddedHasUid(ix, ix', before + Offset(windows, i));
    }
  }
}
