/** The inotify backend as it works in place: an array of entries edited by swaps and rewrites, and
the fields of a rename that waits for its second half. */
module LinuxWatchBackend {
  import opened LinuxWatchTable
  import opened LinuxWatchEvents

  class Backend {
    const pathCapacity: nat
    const recursive: bool
    const watches: array<Entry>
    var count: nat
    var renamePending: bool
    var renameCookie: nat
    var renameOld: string
    var renameDir: bool
    var published: seq<Publication>
    var unwatched: seq<int>

    ghost predicate Valid()
      reads this, watches
    {
      count <= watches.Length && Unique(watches[..count])
    }

    ghost function Cfg(): Config {
      Config(pathCapacity, recursive, watches.Length)
    }

    ghost function Abs(): State
      reads this, watches
      requires count <= watches.Length
    {
      State(watches[..count], if renamePending then Half(renameOld, renameCookie, renameDir) else NoRename, published, unwatched)
    }

    constructor (pathCapacity: nat, recursive: bool, capacity: nat)
      ensures Valid() && fresh(watches) && Abs() == State([], NoRename, [], [])
      ensures Cfg() == Config(pathCapacity, recursive, capacity)
    {
      this.pathCapacity, this.recursive := pathCapacity, recursive;
      watches := new Entry[capacity](_ => Entry(-1, ""));
      count, renamePending, renameCookie, renameOld, renameDir := 0, false, 0, "", false;
      published, unwatched := [], [];
    }

    method Find(descriptor: int) returns (index: nat)
      requires Valid()
      ensures index == FindFrom(watches[..count], descriptor, 0)
    {
      index := 0;
      while index < count && watches[index].descriptor != descriptor
        invariant index <= count && forall i :: 0 <= i < index ==> watches[i].descriptor != descriptor
      {
        index := index + 1;
      }
      FindIs(watches[..count], descriptor, index);
    }

    method RemoveIndex(index: nat, native: bool)
      requires Valid() && index < count
      modifies this`count, this`unwatched, watches
      ensures Valid()
      ensures Abs() == Forget(old(Abs()), index).(unwatched := old(unwatched) + (if native then Natives([old(watches[index])]) else []))
    {
      RemoveAtUnique(watches[..count], index);
      if native && watches[index].descriptor >= 0 {
        unwatched := unwatched + [watches[index].descriptor];
      }
      var last := count - 1;
      if index != last {
        watches[index] := watches[last];
      }
      watches[last] := Entry(-1, "");
      count := count - 1;
      assert watches[..count] == RemoveAt(old(watches[..count]), index);
    }

    /** The removal loop does what `Sweep` says. */
    method RemovePrefix(prefix: string)
      requires Valid()
      modifies this`count, this`unwatched, watches
      ensures Valid() && Abs() == Drop(old(Abs()), prefix)
    {
      hide HasPrefix, Unique, RemoveAt, Natives;
      ghost var dropped: seq<Entry> := [];
      NoNatives();
      var index := 0;
      while index < count
        invariant index <= count && Valid() && Abs() == old(Abs()).(entries := watches[..count], unwatched := unwatched)
        invariant Sweep(old(watches[..count]), 0, prefix).0 == Sweep(watches[..count], index, prefix).0
        invariant Sweep(old(watches[..count]), 0, prefix).1 == dropped + Sweep(watches[..count], index, prefix).1
        invariant unwatched == old(unwatched) + Natives(dropped)
        decreases count - index
      {
        if HasPrefix(watches[index].path, prefix) {
          ghost var e := watches[index];
          ghost var rest := Sweep(RemoveAt(watches[..count], index), index, prefix).1;
          assert dropped + ([e] + rest) == dropped + [e] + rest;
          NativesConcat(dropped, [e]);
          RemoveIndex(index, true);
          dropped := dropped + [e];
        } else {
          index := index + 1;
        }
      }
      assert dropped + [] == dropped;
    }

    /** Renames every entry at or under `from`, or changes nothing when one would not fit. */
    method UpdatePrefix(from: string, to: string) returns (ok: bool)
      requires Valid()
      modifies watches
      ensures Valid() && ok == FitAll(old(watches[..count]), from, to, pathCapacity)
      ensures watches[..count] == if ok then MoveAll(old(watches[..count]), from, to) else old(watches[..count])
    {
      hide HasPrefix, Moved;
      var i := 0;
      while i < count
        invariant 0 <= i <= count
        invariant forall k :: 0 <= k < i && HasPrefix(watches[k].path, from) ==>
                    |to| + (|watches[k].path| - |from|) < pathCapacity
      {
        if HasPrefix(watches[i].path, from) && |to| + (|watches[i].path| - |from|) >= pathCapacity {
          assert watches[..count][i] == watches[i];
          return false;
        }
        i := i + 1;
      }
      i := 0;
      while i < count
        invariant 0 <= i <= count && Valid()
        invariant forall k :: 0 <= k < i ==> watches[k] == old(watches[k]).(path := Moved(old(watches[k].path), from, to))
        invariant forall k :: i <= k < count ==> watches[k] == old(watches[k])
      {
        MovedOnly(watches[i], from, to);
        if HasPrefix(watches[i].path, from) {
          watches[i] := watches[i].(path := Moved(watches[i].path, from, to));
        }
        i := i + 1;
      }
      assert watches[..count] == MoveAll(old(watches[..count]), from, to);
      ok := true;
    }

    method PublishLoss()
      requires Valid()
      modifies this, watches
      ensures Valid() && Abs() == Lose(Cfg(), old(Abs()))
    {
      hide Unique, Drop;
      if recursive && renamePending && renameDir {
        RemovePrefix(renameOld);
      }
      renamePending, renameCookie := false, 0;
      published := published + [Loss];
    }

    method Add(entry: Entry) returns (ok: bool)
      requires Valid()
      modifies this`count, this`unwatched, watches
      ensures Valid() && (Abs(), ok) == AddOne(Cfg(), old(Abs()), entry)
    {
      if |entry.path| >= pathCapacity {
        return false;
      }
      var index := Find(entry.descriptor);
      if index < count {
        return true;
      }
      if count == watches.Length {
        unwatched := unwatched + [entry.descriptor];
        return false;
      }
      AddOneOrdered(Cfg(), Abs(), entry);
      watches[count] := entry;
      count := count + 1;
      assert watches[..count] == old(watches[..count]) + [entry];
      return true;
    }

    method AddAll(tree: seq<Entry>, scanned: bool) returns (ok: bool)
      requires Valid()
      modifies this`count, this`unwatched, watches
      ensures Valid() && (Abs(), ok) == AddTree(Cfg(), old(Abs()), tree, scanned)
    {
      hide AddOne, Unique;
      var i := 0;
      while i < |tree|
        invariant 0 <= i <= |tree| && Valid()
        invariant AddTree(Cfg(), Abs(), tree[i..], scanned) == AddTree(Cfg(), old(Abs()), tree, scanned)
      {
        assert tree[i..][0] == tree[i] && tree[i..][1..] == tree[i + 1..];
        ok := Add(tree[i]);
        if !ok || !recursive {
          return;
        }
        i := i + 1;
      }
      return scanned;
    }

    method Publish(p: Publication)
      requires Valid()
      modifies this`published
      ensures Valid() && Abs() == Say(old(Abs()), p)
    {
      published := published + [p];
    }

    method HandleMovedTo(native: Native, path: string)
      requires Valid()
      modifies this, watches
      ensures Valid() && Abs() == MoveIn(Cfg(), old(Abs()), native, path)
    {
      hide Unique, FitAll, MoveAll, AddTree, Lose;
      var isDir := IsDir in native.flags;
      if !renamePending || native.cookie == 0 || native.cookie != renameCookie {
        if recursive && isDir {
          var added := AddAll(native.tree, native.scanned);
        }
        PublishLoss();
        return;
      }
      var ok := true;
      if recursive && isDir {
        ok := UpdatePrefix(renameOld, path);
      }
      if ok {
        Publish(Renamed(path, renameOld, renameDir));
      } else {
        PublishLoss();
        LoseHalf(Cfg(), old(Abs()));
      }
      renamePending, renameCookie := false, 0;
    }

    method HandleEntry(native: Native, path: string)
      requires Valid()
      modifies this, watches
      ensures Valid() && Abs() == OnEntry(Cfg(), old(Abs()), native, path)
    {
      hide Unique, MoveIn, AddTree, Lose, Drop;
      var isDir := IsDir in native.flags;
      if MovedFrom in native.flags {
        if renamePending {
          PublishLoss();
        }
        renameOld, renameCookie, renameDir, renamePending := path, native.cookie, isDir, true;
      } else if MovedTo in native.flags {
        HandleMovedTo(native, path);
      } else if Create in native.flags {
        var ok := true;
        if recursive && isDir {
          ok := AddAll(native.tree, native.scanned);
        }
        if ok {
          Publish(Created(path));
        } else {
          PublishLoss();
        }
      } else if Delete in native.flags {
        Publish(Removed(path));
        if recursive && isDir {
          RemovePrefix(path);
        }
      } else if Attrib in native.flags {
        Publish(Attributes(path));
      } else if Modify in native.flags || CloseWrite in native.flags {
        Publish(Modified(path));
      }
    }

    method HandleEvent(native: Native)
      requires Valid()
      modifies this, watches
      ensures Valid() && Abs() == Handle(Cfg(), old(Abs()), native)
    {
      hide Unique, OnEntry, Lose, RemoveAt, Natives, FindFrom;
      if Overflow in native.flags {
        PublishLoss();
        return;
      }
      var index := Find(native.wd);
      if Ignored in native.flags {
        if index < count {
          RemoveIndex(index, false);
        }
        return;
      }
      if index >= count {
        return;
      }
      if Unmount in native.flags || DeleteSelf in native.flags {
        if watches[index].path == "" {
          Publish(RootChanged);
        } else if DeleteSelf in native.flags {
          RemoveIndex(index, false);
        }
        return;
      }
      if MoveSelf in native.flags {
        if watches[index].path == "" {
          Publish(RootChanged);
        }
        return;
      }
      var path := Join(watches[index].path, native.name);
      if native.name == "" || |path| >= pathCapacity {
        PublishLoss();
        return;
      }
      HandleEntry(native, path);
    }

    /** The loop over the events of one read. `whole` is false when the read ends inside a
        record. */
    method ProcessBatch(batch: seq<Native>, whole: bool)
      requires Valid()
      modifies this, watches
      ensures Valid() && Abs() == Process(Cfg(), old(Abs()), batch, whole)
    {
      hide Unique, Handle, Lose;
      var k := 0;
      while k < |batch|
        invariant 0 <= k <= |batch| && Valid() && Abs() == At(Cfg(), old(Abs()), batch, k)
      {
        HandleEvent(batch[k]);
        k := k + 1;
      }
      if !whole || renamePending {
        PublishLoss();
      }
    }
  }

  lemma {:induction false} MovedOnly(e: Entry, from: string, to: string)
    ensures !HasPrefix(e.path, from) ==> e.(path := Moved(e.path, from, to)) == e
  {
  }

  lemma {:induction false} NoNatives()
    ensures Natives([]) == []
  {
  }
}
