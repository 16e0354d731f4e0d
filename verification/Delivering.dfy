/** Mail that other processes put into the folder, and what it changes. */
module Delivering {
  import opened Base
  import opened Folder
  import opened Box
  import opened IndexView

  /** What another process adds: a message and the sequences it puts it in. `gap` is how many keys above all others it
      leaves out. */
  datatype Delivery = Delivery(arrival: Arrival, gap: nat)

  function ArrivalsOf(ds: seq<Delivery>): (arrivals: seq<Arrival>)
    ensures |arrivals| == |ds| && forall i :: 0 <= i < |ds| ==> arrivals[i] == ds[i].arrival
  {
    seq(|ds|, i requires 0 <= i < |ds| => ds[i].arrival)
  }

  function DeliveryKey(f: Folder, d: Delivery): nat { NextKey(f) + d.gap }

  function DeliveredTo(f: Folder, d: Delivery): Folder {
    Folder(f.msgs[DeliveryKey(f, d) := d.arrival.msg], AddMarks(f.marks, d.arrival.marks, DeliveryKey(f, d)))
  }

  function AllDeliveredTo(f: Folder, ds: seq<Delivery>): Folder
    decreases |ds|
  {
    if ds == [] then f else AllDeliveredTo(DeliveredTo(f, ds[0]), ds[1..])
  }

  /** How a message arrives: marks that the file still holds for its key become its own. */
  function Comes(f: Folder, d: Delivery): Arrival {
    Arrival(d.arrival.msg, d.arrival.marks + FlagsOf(f.marks, DeliveryKey(f, d)))
  }

  function Came(f: Folder, ds: seq<Delivery>): (came: seq<Arrival>)
    ensures |came| == |ds|
    decreases |ds|
  {
    if ds == [] then [] else [Comes(f, ds[0])] + Came(DeliveredTo(f, ds[0]), ds[1..])
  }

  function CameKeys(f: Folder, ds: seq<Delivery>): (keys: seq<nat>)
    ensures |keys| == |ds|
    decreases |ds|
  {
    if ds == [] then [] else [DeliveryKey(f, ds[0])] + CameKeys(DeliveredTo(f, ds[0]), ds[1..])
  }

  lemma {:induction false} CameMsgs(f: Folder, ds: seq<Delivery>)
    ensures Msgs(Came(f, ds)) == Msgs(ArrivalsOf(ds)) && Unmarked(Came(f, ds)) == Unmarked(ArrivalsOf(ds))
    decreases |ds|
  {
    if ds != [] {
      var rest, came := ds[1..], Came(DeliveredTo(f, ds[0]), ds[1..]);
      CameMsgs(DeliveredTo(f, ds[0]), rest);
      assert forall i :: 0 <= i < |rest| ==> Msgs(came)[i] == Msgs(ArrivalsOf(rest))[i];
      assert forall i :: 1 <= i < |ds| ==> ds[i] == rest[i - 1];
      assert forall i :: 1 <= i < |ds| ==> Came(f, ds)[i] == came[i - 1];
    }
  }

  lemma DeliveredOne(f: Folder, d: Delivery)
    ensures GrewBy(f, DeliveredTo(f, d), [DeliveryKey(f, d)], [d.arrival.msg])
    ensures forall k ::
      FlagsOf(DeliveredTo(f, d).marks, k) == if k == DeliveryKey(f, d) then Comes(f, d).marks else FlagsOf(f.marks, k)
  {
    var key := DeliveryKey(f, d);
    AddMarksFlags(f.marks, d.arrival.marks, key);
    assert FlagsOf(f.marks, key) + d.arrival.marks == Comes(f, d).marks;
    GrewOne(f, key, d.arrival.msg, DeliveredTo(f, d).marks);
  }

  lemma DeliveredAlone(f: Folder, d: Delivery)
    ensures AllDeliveredTo(f, [d]) == DeliveredTo(f, d) && Came(f, [d]) == [Comes(f, d)]
  {
    assert [d][1..] == [];
  }

  lemma {:induction false} DeliveredGrows(f: Folder, ds: seq<Delivery>)
    ensures GrewBy(f, AllDeliveredTo(f, ds), CameKeys(f, ds), Msgs(ArrivalsOf(ds)))
    decreases |ds|
  {
    if ds == [] {
      GrewNothing(f);
      assert Msgs(ArrivalsOf(ds)) == [];
    } else {
      var f1, rest := DeliveredTo(f, ds[0]), ds[1..];
      DeliveredOne(f, ds[0]);
      DeliveredGrows(f1, rest);
      GrewTwice(f, f1, AllDeliveredTo(f, ds), [DeliveryKey(f, ds[0])], [ds[0].arrival.msg],
                CameKeys(f1, rest), Msgs(ArrivalsOf(rest)));
      assert Msgs(ArrivalsOf(ds)) == [ds[0].arrival.msg] + Msgs(ArrivalsOf(rest));
    }
  }

  /** What an index means when mail has been delivered: it has arrived, and nothing else has changed. */
  lemma {:induction false} DeliveredView(ix: Index, ds: seq<Delivery>)
    requires Tracks(ix)
    ensures var ix' := ix.(folder := AllDeliveredTo(ix.folder, ds));
      && Tracks(ix') && (Sound(ix) ==> Sound(ix')) && Viewable(ix) && Viewable(ix')
      && Unlisted(ix') == Unlisted(ix) + CameKeys(ix.folder, ds)
      && View(ix') == WithMore(View(ix), Came(ix.folder, ds))
    decreases |ds|
  {
    var f := ix.folder;
    TracksViewable(ix);
    if ds == [] {
      assert View(ix).arrived + [] == View(ix).arrived;
      assert Unlisted(ix) + [] == Unlisted(ix);
    } else {
      var ix1 := ix.(folder := DeliveredTo(f, ds[0]));
      DeliveredOne(f, ds[0]);
      DeliverView(ix, DeliveryKey(f, ds[0]), ds[0].arrival.msg, ix1.folder.marks);
      GrewView(ix, ix1.folder, [DeliveryKey(f, ds[0])], [ds[0].arrival.msg]);
      DeliveredView(ix1, ds[1..]);
      Reassociate(View(ix).arrived, [Comes(f, ds[0])], Came(ix1.folder, ds[1..]));
      Reassociate(Unlisted(ix), [DeliveryKey(f, ds[0])], CameKeys(ix1.folder, ds[1..]));
    }
  }

  // ---------- A sequence file without stale entries ----------

  /** The file mentions only existing messages. */
  ghost predicate Clean(f: Folder) {
    forall k: nat {:trigger FlagsOf(f.marks, k)} :: k !in f.msgs ==> FlagsOf(f.marks, k) == {}
  }

  lemma WrittenClean(ix: Index, f: Folder)
    requires Tracks(ix) && ix.folder == SetSequences(f, ix.sequences)
    ensures Clean(ix.folder)
  {
    KeysAscending(ix.folder);
    forall k: nat | k !in ix.folder.msgs ensures FlagsOf(ix.folder.marks, k) == {} {
      SetSequencesFlags(f, ix.sequences, k);
      assert k !in Keys(ix.folder);
    }
  }

  /** Then messages arrive with just the marks they are given. */
  lemma {:induction false} CleanCame(f: Folder, ds: seq<Delivery>)
    requires Clean(f)
    ensures Came(f, ds) == ArrivalsOf(ds) && Clean(AllDeliveredTo(f, ds))
    decreases |ds|
  {
    if ds != [] {
      var d, rest := ds[0], ds[1..];
      DeliveredOne(f, d);
      assert DeliveryKey(f, d) !in f.msgs;
      assert Comes(f, d) == d.arrival;
      CleanCame(DeliveredTo(f, d), rest);
      assert ArrivalsOf(ds) == [d.arrival] + ArrivalsOf(rest);
    }
  }
}
