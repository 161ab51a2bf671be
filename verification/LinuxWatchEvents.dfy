/** What the inotify backend makes of its events: the table it keeps, the events it publishes, and
the pairing of the two halves of a rename within one batch. */
module LinuxWatchEvents {
  import opened LinuxWatchTable

  datatype Flag = Overflow | Ignored | Unmount | DeleteSelf | MoveSelf | MovedFrom | MovedTo | Create | Delete | Attrib | Modify | CloseWrite | IsDir

  /** A native event. `tree` is what a scan of the directory it names would find, in scanning
      order, and `scanned` whether that scan would succeed. */
  datatype Native = Native(wd: int, flags: set<Flag>, cookie: nat, name: string, tree: seq<Entry>, scanned: bool)

  datatype Publication =
    | Created(path: string)
    | Removed(path: string)
    | Attributes(path: string)
    | Modified(path: string)
    | Renamed(path: string, old_: string, isDir: bool)
    | RootChanged
    | Loss

  datatype Config = Config(pathCapacity: nat, recursive: bool, capacity: nat)

  /** The first half of a rename that waits for the second. */
  datatype Pending = NoRename | Half(path: string, cookie: nat, isDir: bool)

  datatype State = State(entries: seq<Entry>, pending: Pending, published: seq<Publication>, unwatched: seq<int>)

  // ----- one event

  function Join(base: string, name: string): string {
    base + (if base == "" then "" else "/") + name
  }

  function Say(s: State, p: Publication): State {
    s.(published := s.published + [p])
  }

  /** Everything watched at or under `prefix` is watched no more. */
  function Drop(s: State, prefix: string): State {
    var (kept, dropped) := Sweep(s.entries, 0, prefix);
    s.(entries := kept, unwatched := s.unwatched + Natives(dropped))
  }

  /** Gives up a rename that waits for its second half, and asks for a rescan. */
  function Lose(cfg: Config, s: State): State {
    var t := if cfg.recursive && s.pending.Half? && s.pending.isDir then Drop(s, s.pending.path) else s;
    Say(t.(pending := NoRename), Loss)
  }

  /** Watches one more directory, unless its path is too long or, being new, finds no room. */
  function AddOne(cfg: Config, s: State, e: Entry): (State, bool) {
    if |e.path| >= cfg.pathCapacity then (s, false)
    else if FindFrom(s.entries, e.descriptor, 0) < |s.entries| then (s, true)
    else if |s.entries| >= cfg.capacity then (s.(unwatched := s.unwatched + [e.descriptor]), false)
    else (s.(entries := s.entries + [e]), true)
  }

  function AddTree(cfg: Config, s: State, tree: seq<Entry>, scanned: bool): (State, bool)
    decreases |tree|
  {
    if tree == [] then (s, scanned)
    else
      var (t, ok) := AddOne(cfg, s, tree[0]);
      if !ok || !cfg.recursive then (t, ok) else AddTree(cfg, t, tree[1..], scanned)
  }

  predicate Paired(s: State, native: Native) {
    s.pending.Half? && native.cookie != 0 && native.cookie == s.pending.cookie
  }

  /** The table can follow a renamed directory to its new name. */
  predicate CanFollow(cfg: Config, s: State, path: string)
    requires s.pending.Half?
  {
    FitAll(s.entries, s.pending.path, path, cfg.pathCapacity)
  }

  /** The second half of a rename. */
  function MoveIn(cfg: Config, s: State, native: Native, path: string): State {
    var follows := cfg.recursive && IsDir in native.flags;
    if !Paired(s, native) then
      Lose(cfg, if follows then AddTree(cfg, s, native.tree, native.scanned).0 else s)
    else if follows && !CanFollow(cfg, s, path) then Lose(cfg, s)
    else
      var t := if follows then s.(entries := MoveAll(s.entries, s.pending.path, path)) else s;
      Say(t.(pending := NoRename), Renamed(path, s.pending.path, s.pending.isDir))
  }

  /** An event about the entry `path` of a watched directory. */
  function OnEntry(cfg: Config, s: State, native: Native, path: string): State {
    var follows := cfg.recursive && IsDir in native.flags;
    if MovedFrom in native.flags then
      (if s.pending.Half? then Lose(cfg, s) else s).(pending := Half(path, native.cookie, IsDir in native.flags))
    else if MovedTo in native.flags then MoveIn(cfg, s, native, path)
    else if Create in native.flags then
      if !follows then Say(s, Created(path))
      else
        var (t, ok) := AddTree(cfg, s, native.tree, native.scanned);
        if ok then Say(t, Created(path)) else Lose(cfg, t)
    else if Delete in native.flags then
      if follows then Drop(Say(s, Removed(path)), path) else Say(s, Removed(path))
    else if Attrib in native.flags then Say(s, Attributes(path))
    else if Modify in native.flags || CloseWrite in native.flags then Say(s, Modified(path))
    else s
  }

  function Forget(s: State, index: nat): State
    requires index < |s.entries|
  {
    s.(entries := RemoveAt(s.entries, index))
  }

  /** One event of a batch. */
  function Handle(cfg: Config, s: State, native: Native): State {
    var index := FindFrom(s.entries, native.wd, 0);
    if Overflow in native.flags then Lose(cfg, s)
    else if Ignored in native.flags then if index < |s.entries| then Forget(s, index) else s
    else if index >= |s.entries| then s
    else if Unmount in native.flags || DeleteSelf in native.flags then
      if s.entries[index].path == "" then Say(s, RootChanged)
      else if DeleteSelf in native.flags then Forget(s, index)
      else s
    else if MoveSelf in native.flags then
      if s.entries[index].path == "" then Say(s, RootChanged) else s
    else
      var path := Join(s.entries[index].path, native.name);
      if native.name == "" || |path| >= cfg.pathCapacity then Lose(cfg, s) else OnEntry(cfg, s, native, path)
  }

  // ----- a batch

  /** The state before event `k`: it is determined by the first state and the events before. */
  function At(cfg: Config, s: State, batch: seq<Native>, k: nat): State
    requires k <= |batch|
  {
    if k == 0 then s else Handle(cfg, At(cfg, s, batch, k - 1), batch[k - 1])
  }

  /** The end of a batch: a read that ends inside a record, or half a rename, is a loss. */
  function Finish(cfg: Config, s: State, whole: bool): State {
    if !whole || s.pending.Half? then Lose(cfg, s) else s
  }

  function Process(cfg: Config, s: State, batch: seq<Native>, whole: bool): State {
    Finish(cfg, At(cfg, s, batch, |batch|), whole)
  }

  // ----- the table stays in order

  predicate Ordered(cfg: Config, s: State) {
    Unique(s.entries) && |s.entries| <= cfg.capacity
  }

  lemma {:induction false} LoseOrdered(cfg: Config, s: State)
    requires Ordered(cfg, s)
    ensures Ordered(cfg, Lose(cfg, s))
    ensures Lose(cfg, s).published == s.published + [Loss] && Lose(cfg, s).pending.NoRename?
  {
    hide Unique;
    if s.pending.Half? {
      SweepUnique(s.entries, 0, s.pending.path);
    }
  }

  lemma {:induction false} AddOneOrdered(cfg: Config, s: State, e: Entry)
    requires Ordered(cfg, s)
    ensures var (t, _) := AddOne(cfg, s, e);
            Ordered(cfg, t) && s.entries <= t.entries && t.pending == s.pending && t.published == s.published
  {
  }

  lemma {:induction false} AddTreeOrdered(cfg: Config, s: State, tree: seq<Entry>, scanned: bool)
    requires Ordered(cfg, s)
    ensures var (t, _) := AddTree(cfg, s, tree, scanned);
            Ordered(cfg, t) && s.entries <= t.entries && t.pending == s.pending && t.published == s.published
    decreases |tree|
  {
    hide AddOne, Ordered;
    if tree != [] {
      AddOneOrdered(cfg, s, tree[0]);
      AddTreeOrdered(cfg, AddOne(cfg, s, tree[0]).0, tree[1..], scanned);
    }
  }

  lemma {:induction false} MoveInOrdered(cfg: Config, s: State, native: Native, path: string)
    requires Ordered(cfg, s)
    ensures Ordered(cfg, MoveIn(cfg, s, native, path))
  {
    hide AddTree, Lose, Unique, MoveAll, FitAll;
    AddTreeOrdered(cfg, s, native.tree, native.scanned);
    LoseOrdered(cfg, AddTree(cfg, s, native.tree, native.scanned).0);
    LoseOrdered(cfg, s);
    if s.pending.Half? {
      MoveAllUnique(s.entries, s.pending.path, path);
      MoveAllLength(s.entries, s.pending.path, path);
    }
  }

  lemma {:induction false} MoveAllLength(es: seq<Entry>, from: string, to: string)
    ensures |MoveAll(es, from, to)| == |es|
  {
  }

  lemma {:induction false} OnEntryOrdered(cfg: Config, s: State, native: Native, path: string)
    requires Ordered(cfg, s)
    ensures Ordered(cfg, OnEntry(cfg, s, native, path))
  {
    hide AddTree, Lose, Unique, MoveIn;
    MoveInOrdered(cfg, s, native, path);
    LoseOrdered(cfg, s);
    AddTreeOrdered(cfg, s, native.tree, native.scanned);
    LoseOrdered(cfg, AddTree(cfg, s, native.tree, native.scanned).0);
    SweepUnique(s.entries, 0, path);
  }

  /** Descriptors stay unique and the table within its capacity. */
  lemma {:induction false} HandleOrdered(cfg: Config, s: State, native: Native)
    requires Ordered(cfg, s)
    ensures Ordered(cfg, Handle(cfg, s, native))
  {
    hide Lose, Unique, OnEntry, RemoveAt, Join;
    var index := FindFrom(s.entries, native.wd, 0);
    LoseOrdered(cfg, s);
    if index < |s.entries| {
      RemoveAtUnique(s.entries, index);
      RemoveAtLength(s.entries, index);
      OnEntryOrdered(cfg, s, native, Join(s.entries[index].path, native.name));
    }
  }

  lemma {:induction false} RemoveAtLength(es: seq<Entry>, i: nat)
    requires i < |es|
    ensures |RemoveAt(es, i)| == |es| - 1
  {
  }

  // ----- renames

  /** The path an event names: its own name behind the path of the directory it is watched by. */
  predicate Names(es: seq<Entry>, native: Native, path: string) {
    var index := FindFrom(es, native.wd, 0);
    index < |es| && path == Join(es[index].path, native.name)
  }

  /** An event that gets as far as the entry it names. */
  predicate Reaches(cfg: Config, s: State, native: Native, path: string) {
    && native.flags !! {Overflow, Ignored, Unmount, DeleteSelf, MoveSelf}
    && Names(s.entries, native, path) && native.name != "" && |path| < cfg.pathCapacity
  }

  lemma {:induction false} ReachesEntry(cfg: Config, s: State, native: Native, path: string)
    requires Reaches(cfg, s, native, path)
    ensures Handle(cfg, s, native) == OnEntry(cfg, s, native, path)
  {
    hide OnEntry, Lose, Join;
  }

  /** The pending half is the event `i` of the batch. */
  ghost predicate HalfOf(cfg: Config, s: State, batch: seq<Native>, i: nat, half: Pending) {
    && i < |batch| && half.Half? && MovedFrom in batch[i].flags
    && Reaches(cfg, At(cfg, s, batch, i), batch[i], half.path)
    && half.cookie == batch[i].cookie && half.isDir == (IsDir in batch[i].flags)
  }

  /** Events `i` and `j` of the batch are the halves of the rename: one cookie, not zero, and the
      paths are those the two events name in the table as it is when each is handled. */
  ghost predicate Halves(cfg: Config, s: State, batch: seq<Native>, i: nat, j: nat, p: Publication) {
    && i < j < |batch| && p.Renamed?
    && HalfOf(cfg, s, batch, i, Half(p.old_, batch[j].cookie, p.isDir))
    && MovedTo in batch[j].flags && MovedFrom !in batch[j].flags && batch[j].cookie != 0
    && Reaches(cfg, At(cfg, s, batch, j), batch[j], p.path)
  }

  /** What an event does to the pending half and publishes, as far as renames go. */
  lemma {:induction false} HandleHalf(cfg: Config, s: State, native: Native)
    ensures var t := Handle(cfg, s, native);
            && s.published <= t.published
            && (t.pending.Half? ==>
                  || t.pending == s.pending
                  || (&& MovedFrom in native.flags && Reaches(cfg, s, native, t.pending.path)
                      && t.pending.cookie == native.cookie && t.pending.isDir == (IsDir in native.flags)))
            && (forall k :: |s.published| <= k < |t.published| && t.published[k].Renamed? ==>
                  && Paired(s, native) && MovedTo in native.flags && MovedFrom !in native.flags
                  && Reaches(cfg, s, native, t.published[k].path)
                  && t.published[k].old_ == s.pending.path && t.published[k].isDir == s.pending.isDir)
  {
    hide AddTree, Lose, Drop, OnEntry, Join, RemoveAt, FindFrom;
    LoseHalf(cfg, s);
    var index := FindFrom(s.entries, native.wd, 0);
    if index < |s.entries| {
      OnEntryHalf(cfg, s, native, Join(s.entries[index].path, native.name));
    }
  }

  lemma {:induction false} LoseHalf(cfg: Config, s: State)
    ensures Lose(cfg, s).published == s.published + [Loss] && Lose(cfg, s).pending.NoRename?
  {
  }

  lemma {:induction false} DropHalf(s: State, prefix: string)
    ensures Drop(s, prefix).published == s.published && Drop(s, prefix).pending == s.pending
  {
  }

  lemma {:induction false} AddTreeHalf(cfg: Config, s: State, tree: seq<Entry>, scanned: bool)
    ensures var (t, _) := AddTree(cfg, s, tree, scanned); t.pending == s.pending && t.published == s.published
    decreases |tree|
  {
    if tree != [] {
      AddTreeHalf(cfg, AddOne(cfg, s, tree[0]).0, tree[1..], scanned);
    }
  }

  lemma {:induction false} OnEntryHalf(cfg: Config, s: State, native: Native, path: string)
    ensures var t := OnEntry(cfg, s, native, path);
            && s.published <= t.published
            && (t.pending.Half? ==>
                  t.pending == s.pending ||
                  (MovedFrom in native.flags && t.pending == Half(path, native.cookie, IsDir in native.flags)))
            && (forall k :: |s.published| <= k < |t.published| && t.published[k].Renamed? ==>
                  && Paired(s, native) && MovedTo in native.flags && MovedFrom !in native.flags
                  && t.published[k] == Renamed(path, s.pending.path, s.pending.isDir))
  {
    hide AddTree, Lose, Drop, FitAll, MoveAll;
    AddTreeHalf(cfg, s, native.tree, native.scanned);
    LoseHalf(cfg, s);
    LoseHalf(cfg, AddTree(cfg, s, native.tree, native.scanned).0);
    DropHalf(Say(s, Removed(path)), path);
  }

  /** Before every event, a pending half is an earlier event of the batch, and every rename
      published so far has its two halves in it. */
  lemma {:induction false} RenamesSoFar(cfg: Config, s: State, batch: seq<Native>, k: nat)
    requires s.pending.NoRename? && k <= |batch|
    ensures var t := At(cfg, s, batch, k);
            && s.published <= t.published
            && (t.pending.Half? ==> exists i :: 0 <= i < k && HalfOf(cfg, s, batch, i, t.pending))
            && (forall m :: |s.published| <= m < |t.published| && t.published[m].Renamed? ==>
                  exists i, j :: 0 <= i < j < k && Halves(cfg, s, batch, i, j, t.published[m]))
  {
    hide Handle, Reaches;
    if k > 0 {
      RenamesSoFar(cfg, s, batch, k - 1);
      var u := At(cfg, s, batch, k - 1);
      var t := At(cfg, s, batch, k);
      HandleHalf(cfg, u, batch[k - 1]);
      if t.pending.Half? && t.pending != u.pending {
        assert HalfOf(cfg, s, batch, k - 1, t.pending);
      }
      forall m | |s.published| <= m < |t.published| && t.published[m].Renamed?
        ensures exists i, j :: 0 <= i < j < k && Halves(cfg, s, batch, i, j, t.published[m])
      {
        if m < |u.published| {
          assert t.published[m] == u.published[m];
          var i, j :| 0 <= i < j < k - 1 && Halves(cfg, s, batch, i, j, u.published[m]);
          assert Halves(cfg, s, batch, i, j, t.published[m]);
        } else {
          var i :| 0 <= i < k - 1 && HalfOf(cfg, s, batch, i, u.pending);
          assert Halves(cfg, s, batch, i, k - 1, t.published[m]);
        }
      }
    }
  }

  /** Main result: no half waits for a later batch, and each rename published in this one pairs two
      of its events, under the paths these events name when they are handled. */
  lemma {:induction false} RenamesPairEvents(cfg: Config, s: State, batch: seq<Native>, whole: bool, m: nat)
    requires s.pending.NoRename?
    ensures var t := Process(cfg, s, batch, whole);
            && t.pending.NoRename? && s.published <= t.published
            && (!whole ==> t.published != s.published && t.published[|t.published| - 1] == Loss)
            && (|s.published| <= m < |t.published| && t.published[m].Renamed? ==>
                  exists i, j :: 0 <= i < j < |batch| && Halves(cfg, s, batch, i, j, t.published[m]))
  {
    hide Halves, HalfOf, Lose;
    RenamesSoFar(cfg, s, batch, |batch|);
    LoseHalf(cfg, At(cfg, s, batch, |batch|));
  }

  /** The pending half stays the same from event `i` up to event `j`. */
  predicate Undisturbed(cfg: Config, s: State, batch: seq<Native>, i: nat, j: nat)
    requires j <= |batch|
  {
    forall k :: i < k < j ==> At(cfg, s, batch, k + 1).pending == At(cfg, s, batch, k).pending
  }

  lemma {:induction false} HalfStays(cfg: Config, s: State, batch: seq<Native>, i: nat, j: nat)
    requires i < j <= |batch| && Undisturbed(cfg, s, batch, i, j)
    ensures At(cfg, s, batch, j).pending == At(cfg, s, batch, i + 1).pending
    decreases j
  {
    hide At;
    if i + 1 < j {
      HalfStays(cfg, s, batch, i, j - 1);
      assert At(cfg, s, batch, j - 1 + 1).pending == At(cfg, s, batch, j - 1).pending;
    }
  }

  /** Main result, the other way: two events of a batch that are the halves of a rename, with
      nothing between them that disturbs the first, are published as that rename exactly when
      the table can follow a directory; and what was published stays published. */
  lemma {:induction false} HalvesArePublished(cfg: Config, s: State, batch: seq<Native>, i: nat, j: nat, p: Publication)
    requires Halves(cfg, s, batch, i, j, p) && Undisturbed(cfg, s, batch, i, j)
    ensures var u, t := At(cfg, s, batch, j), At(cfg, s, batch, j + 1);
            && u.pending == Half(p.old_, batch[j].cookie, p.isDir)
            && t.published == u.published + [if cfg.recursive && IsDir in batch[j].flags && !CanFollow(cfg, u, p.path) then Loss else p]
  {
    hide Handle, Lose, FitAll, MoveAll, Reaches;
    var first, u := At(cfg, s, batch, i), At(cfg, s, batch, j);
    ReachesEntry(cfg, first, batch[i], p.old_);
    HalfStays(cfg, s, batch, i, j);
    ReachesEntry(cfg, u, batch[j], p.path);
    LoseHalf(cfg, u);
  }

  lemma {:induction false} PublishedStays(cfg: Config, s: State, batch: seq<Native>, k: nat, whole: bool)
    requires k <= |batch|
    ensures At(cfg, s, batch, k).published <= Process(cfg, s, batch, whole).published
  {
    hide Handle, Lose;
    PublishedGrows(cfg, s, batch, k, |batch|);
    LoseHalf(cfg, At(cfg, s, batch, |batch|));
  }

  lemma {:induction false} PublishedGrows(cfg: Config, s: State, batch: seq<Native>, k: nat, n: nat)
    requires k <= n <= |batch|
    ensures At(cfg, s, batch, k).published <= At(cfg, s, batch, n).published
    decreases n
  {
    hide Handle;
    if k < n {
      PublishedGrows(cfg, s, batch, k, n - 1);
      HandleHalf(cfg, At(cfg, s, batch, n - 1), batch[n - 1]);
    }
  }

  // ----- what each event says, and what it does to the table

  /** The kernel lost events, or an event names no entry or one that does not fit: a loss. */
  lemma {:induction false} UnusableIsLoss(cfg: Config, s: State, native: Native)
    requires || Overflow in native.flags
             || (&& native.flags !! {Ignored, Unmount, DeleteSelf, MoveSelf}
                 && exists path :: Names(s.entries, native, path) && (native.name == "" || |path| >= cfg.pathCapacity))
    ensures Handle(cfg, s, native).published == s.published + [Loss]
    ensures Handle(cfg, s, native).pending.NoRename?
  {
    LoseHalf(cfg, s);
  }

  /** An event about an entry publishes exactly its kind with the entry's path; a directory that
      cannot be watched whole is a loss. */
  lemma {:induction false} EventPublishes(cfg: Config, s: State, native: Native, path: string)
    requires Reaches(cfg, s, native, path) && native.flags !! {MovedFrom, MovedTo}
    ensures var t := Handle(cfg, s, native);
            var whole := cfg.recursive && IsDir in native.flags ==> AddTree(cfg, s, native.tree, native.scanned).1;
            if Create in native.flags then t.published == s.published + [if whole then Created(path) else Loss]
            else if Delete in native.flags then t.published == s.published + [Removed(path)]
            else if Attrib in native.flags then t.published == s.published + [Attributes(path)]
            else if Modify in native.flags || CloseWrite in native.flags then t.published == s.published + [Modified(path)]
            else t == s
  {
    hide Handle, AddTree, Lose, Drop, Reaches;
    ReachesEntry(cfg, s, native, path);
    AddTreeHalf(cfg, s, native.tree, native.scanned);
    LoseHalf(cfg, AddTree(cfg, s, native.tree, native.scanned).0);
    DropHalf(Say(s, Removed(path)), path);
  }

  /** The end of the root directory is published; that of another one ends its entry. */
  lemma {:induction false} SelfEvents(cfg: Config, s: State, native: Native, index: nat)
    requires Ordered(cfg, s) && index < |s.entries| && s.entries[index].descriptor == native.wd && Overflow !in native.flags
    ensures Ignored in native.flags ==> Handle(cfg, s, native) == Forget(s, index)
    ensures Ignored !in native.flags && native.flags * {Unmount, DeleteSelf, MoveSelf} != {} ==>
              Handle(cfg, s, native) ==
                if s.entries[index].path == "" then Say(s, RootChanged)
                else if DeleteSelf in native.flags then Forget(s, index)
                else s
  {
    hide Lose, OnEntry, Join;
    FoundByDescriptor(s.entries, native.wd, index);
  }

  lemma {:induction false} FoundByDescriptor(es: seq<Entry>, wd: int, index: nat)
    requires Unique(es) && index < |es| && es[index].descriptor == wd
    ensures FindFrom(es, wd, 0) == index
  {
    FindIs(es, wd, index);
  }

  /** Forgetting takes one entry out and leaves the others, and its descriptor is then unknown. */
  lemma {:induction false} ForgetsOne(s: State, index: nat)
    requires Unique(s.entries) && index < |s.entries|
    ensures multiset(Forget(s, index).entries) + multiset{s.entries[index]} == multiset(s.entries)
    ensures forall k :: 0 <= k < |Forget(s, index).entries| ==> Forget(s, index).entries[k].descriptor != s.entries[index].descriptor
  {
    RemoveAtExact(s.entries, index);
  }

  /** A scan that succeeds leaves every directory it found watched, and none unwatched. */
  lemma {:induction false} TreeIsWatched(cfg: Config, s: State, tree: seq<Entry>, scanned: bool, k: nat)
    requires Ordered(cfg, s) && cfg.recursive && AddTree(cfg, s, tree, scanned).1 && k < |tree|
    ensures var es := AddTree(cfg, s, tree, scanned).0.entries;
            s.entries <= es && exists i :: 0 <= i < |es| && es[i].descriptor == tree[k].descriptor
    decreases |tree|
  {
    hide Ordered;
    AddTreeOrdered(cfg, s, tree, scanned);
    AddOneOrdered(cfg, s, tree[0]);
    var t := AddOne(cfg, s, tree[0]).0;
    AddTreeOrdered(cfg, t, tree[1..], scanned);
    if k == 0 {
      var i := AddedOne(cfg, s, tree[0]);
      var es := AddTree(cfg, s, tree, scanned).0.entries;
      assert es[i] == t.entries[i];
    } else {
      TreeIsWatched(cfg, t, tree[1..], scanned, k - 1);
    }
  }

  lemma {:induction false} AddedOne(cfg: Config, s: State, e: Entry) returns (i: nat)
    requires AddOne(cfg, s, e).1
    ensures i < |AddOne(cfg, s, e).0.entries| && AddOne(cfg, s, e).0.entries[i].descriptor == e.descriptor
  {
    i := FindFrom(s.entries, e.descriptor, 0);
  }

  /** A joined path lies in its directory and ends with the name. */
  lemma {:induction false} JoinLiesIn(base: string, name: string)
    ensures base != "" ==> HasPrefix(Join(base, name), base) && Join(base, name)[|base| + 1..] == name
    ensures base == "" ==> Join(base, name) == name
  {
    if base != "" {
      assert Join(base, name) == base + ("/" + name);
    }
  }

  /** A rename that is given up takes what was watched under the directory's old name along. */
  lemma {:induction false} LossForgetsRename(cfg: Config, s: State, e: Entry)
    ensures multiset(Lose(cfg, s).entries)[e] ==
              if cfg.recursive && s.pending.Half? && s.pending.isDir && HasPrefix(e.path, s.pending.path) then 0
              else multiset(s.entries)[e]
  {
    hide HasPrefix, Drop;
    if s.pending.Half? {
      DropLeavesOthers(s, s.pending.path, e);
    }
  }

  /** What a removed directory or a given-up rename leaves: nothing at or under the name, and
      every other entry as it was. */
  lemma {:induction false} DropLeavesOthers(s: State, prefix: string, e: Entry)
    ensures multiset(Drop(s, prefix).entries)[e] == if HasPrefix(e.path, prefix) then 0 else multiset(s.entries)[e]
  {
    SweepExact(s.entries, prefix, e);
  }

  /** The table after a renamed directory: each entry at or under the old name is at the same
      place under the new one, the others are unchanged, and, unless one name lies under the
      other, nothing is left under the old one. */
  lemma {:induction false} RenameMovesTable(cfg: Config, s: State, native: Native, path: string, i: nat, rest: string)
    requires Paired(s, native) && cfg.recursive && IsDir in native.flags && CanFollow(cfg, s, path) && i < |s.entries|
    ensures var t, from := MoveIn(cfg, s, native, path), s.pending.path;
            && |t.entries| == |s.entries| && t.entries[i].descriptor == s.entries[i].descriptor
            && (HasPrefix(s.entries[i].path, from) && s.entries[i].path == from + rest ==> t.entries[i].path == path + rest)
            && (!HasPrefix(s.entries[i].path, from) ==> t.entries[i] == s.entries[i])
            && (from != "" && path != "" && !HasPrefix(path, from) && !HasPrefix(from, path) ==>
                  !HasPrefix(t.entries[i].path, from))
  {
    hide HasPrefix, Moved, MoveAll, FitAll, Lose;
    MoveAllExact(s.entries, s.pending.path, path, i, rest);
    if s.pending.path != "" && path != "" && !HasPrefix(path, s.pending.path) && !HasPrefix(s.pending.path, path) {
      NothingLeftBehind(s.entries, s.pending.path, path, i);
    }
  }
}
