/** Classification of one two-character window against the clip store, and
    the order-preserving partition of a window sequence by classification. */
module Resolve {
  import opened Media

  /** What the handlers learn about one window: its clip file exists and
      loads, exists but raises when loaded, or does not exist. */
  datatype Status = Loaded | Unloadable | Missing

  /** Existence of the window's clip file is checked first; loading is only
      tried on an existing file. */
  function Classify(disk: Disk, pair: string): (st: Status)
    ensures st == Missing <==> !disk.fileExists(pair)
    ensures st == Loaded <==> disk.fileExists(pair) && disk.loads(pair)
  {
    if !disk.fileExists(pair) then Missing
    else if !disk.loads(pair) then Unloadable
    else Loaded
  }

  /** The windows of `ws` classified as `st`, in their original order and
      with repeats kept. */
  function Having(disk: Disk, ws: seq<string>, st: Status): (r: seq<string>)
    ensures |r| <= |ws|
  {
    if ws == [] then []
    else (if Classify(disk, ws[0]) == st then [ws[0]] else []) + Having(disk, ws[1..], st)
  }

  /** Selecting distributes over concatenation: the windows chosen from a
      prefix come first, in order, then those chosen from the rest. This is
      what lets a left-to-right loop build the selection by appending. */
  lemma {:induction false} HavingAppend(disk: Disk, a: seq<string>, b: seq<string>, st: Status)
    ensures Having(disk, a + b, st) == Having(disk, a, st) + Having(disk, b, st)
  {
    if a != [] {
      var head := if Classify(disk, a[0]) == st then [a[0]] else [];
      assert (a + b)[0] == a[0];
      assert (a + b)[1..] == a[1..] + b;
      HavingAppend(disk, a[1..], b, st);
      assert Having(disk, a + b, st) == head + (Having(disk, a[1..], st) + Having(disk, b, st));
    } else {
      assert a + b == b;
    }
  }

  /** Appending one window extends the selection by that window exactly
      when it has status `st`. */
  lemma HavingSnoc(disk: Disk, ws: seq<string>, w: string, st: Status)
    ensures Having(disk, ws + [w], st)
            == Having(disk, ws, st) + (if Classify(disk, w) == st then [w] else [])
  {
    HavingAppend(disk, ws, [w], st);
  }

  /** No deduplication and no loss: each window occurs in the selection
      exactly as often as in the input when it has status `st`, and not at
      all otherwise. */
  lemma {:induction false} HavingCount(disk: Disk, ws: seq<string>, st: Status, w: string)
    ensures multiset(Having(disk, ws, st))[w] == if Classify(disk, w) == st then multiset(ws)[w] else 0
  {
    if ws != [] {
      var head := if Classify(disk, ws[0]) == st then [ws[0]] else [];
      var rest := Having(disk, ws[1..], st);
      HavingCount(disk, ws[1..], st, w);
      assert ws == [ws[0]] + ws[1..];
      assert multiset(ws)[w] == multiset([ws[0]])[w] + multiset(ws[1..])[w];
      assert Having(disk, ws, st) == head + rest;
      assert multiset(head + rest)[w] == multiset(head)[w] + multiset(rest)[w];
    }
  }

  /** The selection is empty exactly when no window has status `st`. */
  lemma {:induction false} HavingEmpty(disk: Disk, ws: seq<string>, st: Status)
    ensures Having(disk, ws, st) == [] <==> forall w :: w in ws ==> Classify(disk, w) != st
  {
    var r := Having(disk, ws, st);
    if r == [] {
      forall w | w in ws ensures Classify(disk, w) != st {
        HavingCount(disk, ws, st, w);
      }
    } else {
      HavingCount(disk, ws, st, r[0]);
    }
  }

  /** Every window lands in exactly one of the three selections, so their
      sizes add up to the number of windows. */
  lemma {:induction false} PartitionSizes(disk: Disk, ws: seq<string>)
    ensures |Having(disk, ws, Loaded)| + |Having(disk, ws, Unloadable)| + |Having(disk, ws, Missing)| == |ws|
  {
    if ws != [] {
      PartitionSizes(disk, ws[1..]);
    }
  }

  /** When nothing was skipped and nothing was missing, the loaded windows
      are all the windows, in the same order. */
  lemma {:induction false} AllLoaded(disk: Disk, ws: seq<string>)
    ensures Having(disk, ws, Unloadable) == [] && Having(disk, ws, Missing) == []
            <==> Having(disk, ws, Loaded) == ws
  {
    PartitionSizes(disk, ws);
    if ws != [] && Having(disk, ws, Unloadable) == [] && Having(disk, ws, Missing) == [] {
      assert Having(disk, ws[1..], Unloadable) == [] && Having(disk, ws[1..], Missing) == [];
      AllLoaded(disk, ws[1..]);
    }
  }
}
