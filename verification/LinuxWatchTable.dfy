/** The table of watched directories of the inotify backend: entries are removed by swapping in
the last one, and renamed by prefix. */
module LinuxWatchTable {

  datatype Entry = Entry(descriptor: int, path: string)

  predicate HasPrefix(path: string, prefix: string) {
    path == prefix || (|prefix| != 0 && prefix < path && path[|prefix|] == '/')
  }

  /** The path after the renaming of a directory above it or of itself. */
  function Rewrite(path: string, from: string, to: string): string
    requires |from| <= |path|
  {
    to + path[|from|..]
  }

  lemma {:induction false} PrefixLength(path: string, prefix: string)
    requires HasPrefix(path, prefix)
    ensures |prefix| <= |path| && path[..|prefix|] == prefix
  {
  }

  /** A path moved with its directory lies under the new name in the same place, and moving
      the directory back restores it. */
  lemma {:induction false} RewriteMoves(path: string, from: string, to: string)
    requires HasPrefix(path, from) && from != "" && to != ""
    ensures HasPrefix(Rewrite(path, from, to), to)
    ensures Rewrite(Rewrite(path, from, to), to, from) == path
  {
    PrefixLength(path, from);
    var moved := Rewrite(path, from, to);
    assert moved[|to|..] == path[|from|..];
    if path != from {
      assert moved[|to|] == path[|from|] == '/';
    }
  }

  function Moved(path: string, from: string, to: string): string {
    if HasPrefix(path, from) then PrefixLength(path, from); Rewrite(path, from, to) else path
  }

  function MoveAll(es: seq<Entry>, from: string, to: string): seq<Entry> {
    seq(|es|, i requires 0 <= i < |es| => es[i].(path := Moved(es[i].path, from, to)))
  }

  lemma {:induction false} PrefixRest(path: string, prefix: string) returns (rest: string)
    requires HasPrefix(path, prefix)
    ensures path == prefix + rest && (rest == "" || rest[0] == '/')
  {
    PrefixLength(path, prefix);
    rest := path[|prefix|..];
  }

  /** Entry by entry, what moving a directory does: descriptors stay, what lies at `from + rest`
      goes to `to + rest`, and everything else stays where it is. */
  lemma {:induction false} MoveAllExact(es: seq<Entry>, from: string, to: string, i: nat, rest: string)
    requires i < |es|
    ensures |MoveAll(es, from, to)| == |es| && MoveAll(es, from, to)[i].descriptor == es[i].descriptor
    ensures HasPrefix(es[i].path, from) && es[i].path == from + rest ==> MoveAll(es, from, to)[i].path == to + rest
    ensures !HasPrefix(es[i].path, from) ==> MoveAll(es, from, to)[i] == es[i]
  {
    if es[i].path == from + rest {
      assert es[i].path[|from|..] == rest;
    }
  }

  /** When a path that moved still lies under the old name: the new name does, or it is a
      directory above the old one and the path comes to lie there again. */
  lemma {:induction false} StillUnder(from: string, to: string, rest: string)
    requires from != "" && to != "" && (rest == "" || rest[0] == '/')
    ensures HasPrefix(to + rest, from) <==>
              || HasPrefix(to, from)
              || (HasPrefix(from, to) && from != to && HasPrefix(rest, from[if |to| <= |from| then |to| else 0..]))
  {
    var path := to + rest;
    if |from| <= |to| {
      assert path[..|from|] == to[..|from|];
      if |from| < |to| {
        assert path[|from|] == to[|from|];
      }
    } else {
      var f := from[|to|..];
      if HasPrefix(path, from) {
        PrefixLength(path, from);
        assert path[..|to|] == to && from == path[..|from|];
        assert from[..|to|] == to && f == rest[..|f|];
        assert from[|to|] == rest[0];
        if path != from {
          assert path[|from|] == rest[|f|];
        } else {
          assert rest == f;
        }
      }
      if HasPrefix(from, to) && HasPrefix(rest, f) {
        PrefixLength(from, to);
        PrefixLength(rest, f);
        assert from == to + f && f == rest[..|f|];
        assert path[..|from|] == to + rest[..|f|];
        if rest != f {
          assert path[|from|] == rest[|f|];
        }
      }
    }
  }

  /** After a directory moved to a name that is neither under its old one nor above it, nothing
      lies under the old name. */
  lemma {:induction false} NothingLeftBehind(es: seq<Entry>, from: string, to: string, i: nat)
    requires i < |es| && from != "" && to != "" && !HasPrefix(to, from) && !HasPrefix(from, to)
    ensures |MoveAll(es, from, to)| == |es| && !HasPrefix(MoveAll(es, from, to)[i].path, from)
  {
    hide HasPrefix, Moved, MoveAll;
    if HasPrefix(es[i].path, from) {
      var rest := PrefixRest(es[i].path, from);
      MoveAllExact(es, from, to, i, rest);
      StillUnder(from, to, rest);
    } else {
      MoveAllExact(es, from, to, i, "");
    }
  }

  /** Every path that is to move still fits a slot of the given capacity. */
  predicate FitAll(es: seq<Entry>, from: string, to: string, capacity: nat) {
    forall i :: 0 <= i < |es| && HasPrefix(es[i].path, from) ==> |to| + (|es[i].path| - |from|) < capacity
  }

  /** The test before a move is that every moved path will be short enough. */
  lemma {:induction false} FitMeansShort(es: seq<Entry>, from: string, to: string, capacity: nat)
    ensures FitAll(es, from, to, capacity) <==>
              forall i :: 0 <= i < |es| && HasPrefix(es[i].path, from) ==> |Moved(es[i].path, from, to)| < capacity
  {
    forall i | 0 <= i < |es| && HasPrefix(es[i].path, from)
      ensures |Moved(es[i].path, from, to)| == |to| + (|es[i].path| - |from|)
    {
    }
  }

  // ----- removing one entry

  /** The list without entry `i`, the last entry taking its place. */
  function RemoveAt(es: seq<Entry>, i: nat): seq<Entry>
    requires i < |es|
  {
    var last := |es| - 1;
    if i == last then es[..last] else es[..last][i := es[last]]
  }

  lemma {:induction false} RemoveAtExact(es: seq<Entry>, i: nat)
    requires i < |es|
    ensures multiset(RemoveAt(es, i)) + multiset{es[i]} == multiset(es)
  {
    var last := |es| - 1;
    assert es == es[..last] + [es[last]];
    if i != last {
      assert es[..last] == es[..i] + [es[i]] + es[i + 1..last];
      assert RemoveAt(es, i) == es[..i] + [es[last]] + es[i + 1..last];
    }
  }

  predicate Unique(es: seq<Entry>) {
    forall i, j :: 0 <= i < j < |es| ==> es[i].descriptor != es[j].descriptor
  }

  lemma {:induction false} RemoveAtUnique(es: seq<Entry>, i: nat)
    requires i < |es| && Unique(es)
    ensures Unique(RemoveAt(es, i))
  {
  }

  /** The descriptors of entries that the system still watches. */
  function Natives(es: seq<Entry>): seq<int> {
    if es == [] then [] else (if es[0].descriptor >= 0 then [es[0].descriptor] else []) + Natives(es[1..])
  }

  lemma {:induction false} NativesConcat(a: seq<Entry>, b: seq<Entry>)
    ensures Natives(a + b) == Natives(a) + Natives(b)
  {
    if a == [] {
      assert a + b == b;
    } else {
      assert (a + b)[0] == a[0] && (a + b)[1..] == a[1..] + b;
      NativesConcat(a[1..], b);
    }
  }

  // ----- removing by prefix

  /** What the removal loop keeps and what it drops, from `index` on. */
  function Sweep(es: seq<Entry>, index: nat, prefix: string): (r: (seq<Entry>, seq<Entry>))
    ensures |r.0| + |r.1| == |es|
    decreases |es| - index
  {
    if index >= |es| then (es, [])
    else if HasPrefix(es[index].path, prefix) then
      var (kept, dropped) := Sweep(RemoveAt(es, index), index, prefix);
      (kept, [es[index]] + dropped)
    else Sweep(es, index + 1, prefix)
  }

  /** The old entries are the present ones and the dropped ones; what was dropped lies under
      the prefix and the first `index` present ones do not. */
  ghost predicate Removing(old_: seq<Entry>, es: seq<Entry>, dropped: seq<Entry>, index: nat, prefix: string) {
    && index <= |es|
    && multiset(old_) == multiset(es) + multiset(dropped)
    && (forall i :: 0 <= i < |dropped| ==> HasPrefix(dropped[i].path, prefix))
    && (forall i :: 0 <= i < index ==> !HasPrefix(es[i].path, prefix))
  }

  lemma {:induction false} RemovingStarts(es: seq<Entry>, prefix: string)
    ensures Removing(es, es, [], 0, prefix)
  {
  }

  lemma {:induction false} RemovingKeeps(old_: seq<Entry>, es: seq<Entry>, dropped: seq<Entry>, index: nat, prefix: string)
    requires Removing(old_, es, dropped, index, prefix) && index < |es| && !HasPrefix(es[index].path, prefix)
    ensures Removing(old_, es, dropped, index + 1, prefix)
  {
  }

  lemma {:induction false} RemovingDrops(old_: seq<Entry>, es: seq<Entry>, dropped: seq<Entry>, index: nat, prefix: string)
    requires Removing(old_, es, dropped, index, prefix) && index < |es| && HasPrefix(es[index].path, prefix)
    ensures |RemoveAt(es, index)| == |es| - 1
    ensures Removing(old_, RemoveAt(es, index), dropped + [es[index]], index, prefix)
  {
    hide HasPrefix;
    var dropped' := dropped + [es[index]];
    RemoveAtExact(es, index);
    assert multiset(dropped') == multiset(dropped) + multiset{es[index]};
  }

  /** Once every present entry was examined, the present entries are exactly the old ones that
      do not lie under the prefix, with their multiplicity. */
  lemma {:induction false} RemovedExactly(old_: seq<Entry>, es: seq<Entry>, dropped: seq<Entry>, prefix: string, e: Entry)
    requires Removing(old_, es, dropped, |es|, prefix)
    ensures multiset(es)[e] == if HasPrefix(e.path, prefix) then 0 else multiset(old_)[e]
  {
    hide HasPrefix;
    if e in multiset(es) {
      var i :| 0 <= i < |es| && es[i] == e;
    } else if e in multiset(dropped) {
      var i :| 0 <= i < |dropped| && dropped[i] == e;
    }
    if !HasPrefix(e.path, prefix) {
      assert e !in multiset(dropped);
    }
  }

  lemma {:induction false} SweepRemoves(old_: seq<Entry>, es: seq<Entry>, dropped: seq<Entry>, index: nat, prefix: string)
    requires Removing(old_, es, dropped, index, prefix)
    ensures var (kept, more) := Sweep(es, index, prefix); Removing(old_, kept, dropped + more, |kept|, prefix)
    decreases |es| - index
  {
    hide HasPrefix, RemoveAt, Removing;
    RemovingIndex(old_, es, dropped, index, prefix);
    if index >= |es| {
      assert dropped + [] == dropped;
    } else if HasPrefix(es[index].path, prefix) {
      RemovingDrops(old_, es, dropped, index, prefix);
      SweepRemoves(old_, RemoveAt(es, index), dropped + [es[index]], index, prefix);
      var more := Sweep(RemoveAt(es, index), index, prefix).1;
      assert dropped + [es[index]] + more == dropped + ([es[index]] + more);
    } else {
      RemovingKeeps(old_, es, dropped, index, prefix);
      SweepRemoves(old_, es, dropped, index + 1, prefix);
    }
  }

  lemma {:induction false} RemovingIndex(old_: seq<Entry>, es: seq<Entry>, dropped: seq<Entry>, index: nat, prefix: string)
    requires Removing(old_, es, dropped, index, prefix)
    ensures index <= |es|
  {
  }

  /** Removal by prefix is exact, in spite of the swaps: an entry is kept as often as it was there
      if it does not lie under the prefix, and dropped as often as it was there if it does. */
  lemma {:induction false} SweepExact(es: seq<Entry>, prefix: string, e: Entry)
    ensures var (kept, dropped) := Sweep(es, 0, prefix);
            && multiset(kept)[e] == (if HasPrefix(e.path, prefix) then 0 else multiset(es)[e])
            && multiset(dropped)[e] == (if HasPrefix(e.path, prefix) then multiset(es)[e] else 0)
  {
    hide HasPrefix, RemoveAt;
    var (kept, dropped) := Sweep(es, 0, prefix);
    RemovingStarts(es, prefix);
    SweepRemoves(es, es, [], 0, prefix);
    assert [] + dropped == dropped;
    RemovedExactly(es, kept, dropped, prefix, e);
  }

  lemma {:induction false} SweepUnique(es: seq<Entry>, index: nat, prefix: string)
    requires Unique(es)
    ensures Unique(Sweep(es, index, prefix).0)
    decreases |es| - index
  {
    hide Unique, HasPrefix;
    if index < |es| {
      if HasPrefix(es[index].path, prefix) {
        RemoveAtUnique(es, index);
        SweepUnique(RemoveAt(es, index), index, prefix);
      } else {
        SweepUnique(es, index + 1, prefix);
      }
    }
  }

  lemma {:induction false} MoveAllUnique(es: seq<Entry>, from: string, to: string)
    requires Unique(es)
    ensures Unique(MoveAll(es, from, to))
  {
  }

  /** The first entry with the descriptor, or the length. */
  function FindFrom(es: seq<Entry>, descriptor: int, k: nat): (r: nat)
    requires k <= |es|
    ensures k <= r <= |es| && (r < |es| ==> es[r].descriptor == descriptor)
    ensures forall i :: k <= i < r ==> es[i].descriptor != descriptor
    decreases |es| - k
  {
    if k == |es| || es[k].descriptor == descriptor then k else FindFrom(es, descriptor, k + 1)
  }

  lemma {:induction false} FindIs(es: seq<Entry>, descriptor: int, r: nat)
    requires r <= |es| && (r < |es| ==> es[r].descriptor == descriptor)
    requires forall i :: 0 <= i < r ==> es[i].descriptor != descriptor
    ensures FindFrom(es, descriptor, 0) == r
  {
  }
}
