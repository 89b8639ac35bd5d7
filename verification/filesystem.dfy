/** The file system the storage engine acts on, as an immutable value: a map
    from absolute paths, written as their component sequences, to nodes.
    Symbolic links, permissions and metadata are not part of it. */
module FileSystem {
  import opened Wrappers
  import opened PathValidation

  /** An absolute path as its components; `[]` is `/`. */
  type Key = seq<string>

  datatype Node = File(content: string) | Dir

  type Fs = map<Key, Node>

  /** The error numbers the modelled system calls can fail with. */
  datatype Errno = ENOENT | EEXIST | ENOTDIR | EISDIR | ENOTEMPTY | EBUSY

  /** A tree: the root is a directory and every other entry sits in a
      directory that is itself present. */
  predicate Wf(fs: Fs) {
    && [] in fs && fs[[]] == Dir
    && forall k {:trigger DropLast(k) in fs} :: k in fs && k != [] ==> DropLast(k) in fs && fs[DropLast(k)] == Dir
  }

  predicate IsDir(fs: Fs, k: Key) {
    k in fs && fs[k].Dir?
  }

  predicate IsFile(fs: Fs, k: Key) {
    k in fs && fs[k].File?
  }

  /** Some proper ancestor of `k` is a regular file, so resolving `k` stops
      with "Not a directory". */
  predicate UnderFile(fs: Fs, k: Key) {
    exists j :: 0 <= j < |k| && k[..j] in fs && fs[k[..j]].File?
  }

  /** The error a lookup of a missing `k` reports. */
  function MissingErrno(fs: Fs, k: Key): Errno {
    if UnderFile(fs, k) then ENOTDIR else ENOENT
  }

  /** In a tree every proper ancestor of a present entry is a directory. */
  lemma {:induction false} AncestorsAreDirs(fs: Fs, k: Key, j: int)
    requires Wf(fs) && k in fs && 0 <= j < |k|
    ensures k[..j] in fs && fs[k[..j]] == Dir
    decreases |k| - j
  {
    var p := DropLast(k);
    if j < |p| {
      AncestorsAreDirs(fs, p, j);
      assert p[..j] == k[..j];
    } else {
      assert p == k[..j];
    }
  }

  /** A present entry is never under a file. */
  lemma PresentNotUnderFile(fs: Fs, k: Key)
    requires Wf(fs) && k in fs
    ensures !UnderFile(fs, k)
  {
    forall j | 0 <= j < |k|
      ensures k[..j] in fs && fs[k[..j]] == Dir
    {
      AncestorsAreDirs(fs, k, j);
    }
  }

  /** The keys of a path and of all its ancestors. */
  function Prefixes(k: Key): set<Key> {
    set j | 0 <= j <= |k| :: k[..j]
  }

  /** `Path(k).mkdir(parents=True, exist_ok=True)`: an existing directory is
      fine, an existing file is "File exists", a file among the ancestors is
      "Not a directory"; otherwise every missing ancestor and `k` itself are
      created and nothing else changes. */
  function MkdirP(fs: Fs, k: Key): (r: Result<Fs, Errno>)
    requires Wf(fs)
    ensures r.Ok? <==> !IsFile(fs, k) && !UnderFile(fs, k)
    ensures r.Err? ==> r.error == (if k in fs then EEXIST else ENOTDIR)
    ensures r.Ok? ==> Wf(r.value) && IsDir(r.value, k)
    ensures r.Ok? ==> forall x :: x in fs ==> x in r.value && r.value[x] == fs[x]
    ensures r.Ok? ==> forall x :: x in r.value && x !in fs ==> IsPrefix(x, k) && r.value[x] == Dir
    ensures IsDir(fs, k) ==> r == Ok(fs)
  {
    if k in fs then
      PresentNotUnderFile(fs, k);
      if fs[k].Dir? then Ok(fs) else Err(EEXIST)
    else if UnderFile(fs, k) then Err(ENOTDIR)
    else
      var added := map x | x in Prefixes(k) && x !in fs :: Dir;
      var fs' := fs + added;
      assert k == k[..|k|];
      forall x | x in fs' && x != []
        ensures DropLast(x) in fs' && fs'[DropLast(x)] == Dir
      {
        if x !in fs {
          var j :| 0 <= j <= |k| && x == k[..j];
          assert DropLast(x) == k[..j - 1];
          if DropLast(x) in fs {
            assert !fs[k[..j - 1]].File?;
          }
        }
      }
      forall x | x in fs' && x !in fs
        ensures IsPrefix(x, k)
      {
        var j :| 0 <= j <= |k| && x == k[..j];
      }
      Ok(fs')
  }

  /** The entries strictly below `k`. */
  predicate Below(k: Key, x: Key) {
    IsPrefix(k, x) && x != k
  }

  /** `k` and everything below it removed: the effect of `shutil.rmtree` on a
      path other than `/`. */
  function RemoveTree(fs: Fs, k: Key): (r: Fs)
    requires Wf(fs) && k != []
    ensures Wf(r)
    ensures forall x :: x in r <==> x in fs && !IsPrefix(k, x)
    ensures forall x :: x in r ==> r[x] == fs[x]
  {
    var r := map x | x in fs && !IsPrefix(k, x) :: fs[x];
    r
  }

  /** Everything strictly below `k` removed, `k` kept. */
  function ClearTree(fs: Fs, k: Key): (r: Fs)
    requires Wf(fs)
    ensures Wf(r)
    ensures forall x :: x in r <==> x in fs && !Below(k, x)
    ensures forall x :: x in r ==> r[x] == fs[x]
  {
    var r := map x | x in fs && !Below(k, x) :: fs[x];
    r
  }

  /** The immediate entries of directory `k`. */
  function Children(fs: Fs, k: Key): set<Key> {
    set x | x in fs && |x| == |k| + 1 && IsPrefix(k, x)
  }

  /** The entry `k` removed, when it has no children: `os.rmdir` and
      `os.remove` on success. */
  function RemoveEntry(fs: Fs, k: Key): (r: Fs)
    requires Wf(fs) && k != [] && Children(fs, k) == {}
    ensures Wf(r)
    ensures forall x :: x in r <==> x in fs && x != k
    ensures forall x :: x in r ==> r[x] == fs[x]
  {
    var r := map x | x in fs && x != k :: fs[x];
    forall x | x in r && x != []
      ensures DropLast(x) in r
    {
      assert x !in Children(fs, k);
    }
    r
  }

  /** A regular file has no entries below it. */
  lemma FileHasNoChildren(fs: Fs, k: Key)
    requires Wf(fs) && IsFile(fs, k)
    ensures Children(fs, k) == {}
  {
    forall x | x in fs && |x| == |k| + 1 && IsPrefix(k, x)
      ensures DropLast(x) != k
    {
    }
  }

  /** `x`, which lies at or below `k`, re-rooted at `d`. */
  function Rebase(x: Key, k: Key, d: Key): Key
    requires IsPrefix(k, x)
  {
    d + x[|k|..]
  }

  lemma RebaseFacts(x: Key, k: Key, d: Key)
    requires IsPrefix(k, x)
    ensures IsPrefix(d, Rebase(x, k, d)) && k + Rebase(x, k, d)[|d|..] == x
  {
    assert Rebase(x, k, d)[|d|..] == x[|k|..];
    assert x == k + x[|k|..];
  }

  /** The entries at or below `k`, re-rooted at `d`. */
  function MovedPart(fs: Fs, k: Key, d: Key): (r: Fs)
    ensures forall x :: x in fs && IsPrefix(k, x) ==> Rebase(x, k, d) in r && r[Rebase(x, k, d)] == fs[x]
    ensures forall y :: y in r ==> IsPrefix(d, y) && k + y[|d|..] in fs && IsPrefix(k, k + y[|d|..])
  {
    forall x, x' | IsPrefix(k, x) && IsPrefix(k, x') && Rebase(x, k, d) == Rebase(x', k, d)
      ensures x == x'
    {
      RebaseFacts(x, k, d);
      RebaseFacts(x', k, d);
    }
    var r := map x | x in fs && IsPrefix(k, x) :: Rebase(x, k, d) := fs[x];
    forall y | y in r
      ensures IsPrefix(d, y) && k + y[|d|..] in fs && IsPrefix(k, k + y[|d|..])
    {
      var x :| x in fs && IsPrefix(k, x) && y == Rebase(x, k, d);
      RebaseFacts(x, k, d);
    }
    r
  }

  /** `k` renamed to `d`, with everything below it: `os.rename` of an entry to
      a free name whose parent is a directory. */
  function MoveTree(fs: Fs, k: Key, d: Key): (r: Fs)
    requires Wf(fs) && k in fs && k != []
    requires d != [] && d !in fs && IsDir(fs, DropLast(d)) && !IsPrefix(k, d)
    ensures Wf(r)
    ensures forall x :: x in fs && !IsPrefix(k, x) ==> x in r && r[x] == fs[x]
    ensures forall x :: x in fs && IsPrefix(k, x) ==> Rebase(x, k, d) in r && r[Rebase(x, k, d)] == fs[x]
    ensures forall y :: y in r ==> (y in fs && !IsPrefix(k, y)) || (IsPrefix(d, y) && k + y[|d|..] in fs)
  {
    var kept := RemoveTree(fs, k);
    var moved := MovedPart(fs, k, d);
    forall y | y in moved
      ensures y !in kept
    {
      if y in kept {
        NoEntryBelowMissing(fs, d, y);
      }
    }
    MoveTreeWf(fs, k, d);
    kept + moved
  }

  /** The parent of a moved entry is the parent of `d` or a moved directory. */
  lemma MoveTreeWf(fs: Fs, k: Key, d: Key)
    requires Wf(fs) && k in fs && k != []
    requires d != [] && d !in fs && IsDir(fs, DropLast(d)) && !IsPrefix(k, d)
    ensures Wf(RemoveTree(fs, k) + MovedPart(fs, k, d))
  {
    var kept := RemoveTree(fs, k);
    var moved := MovedPart(fs, k, d);
    var r := kept + moved;
    forall y | y in moved && y != []
      ensures DropLast(y) in r && r[DropLast(y)] == Dir
    {
      MovedParent(fs, k, d, y);
    }
    forall y | y in r && y !in moved && y != []
      ensures DropLast(y) in r && r[DropLast(y)] == Dir
    {
      if DropLast(y) in moved {
        assert IsPrefix(d, y) by {
          assert y[..|d|] == DropLast(y)[..|d|];
        }
        NoEntryBelowMissing(fs, d, y);
      }
    }
  }

  lemma MovedParent(fs: Fs, k: Key, d: Key, y: Key)
    requires Wf(fs) && k in fs && k != []
    requires d != [] && d !in fs && IsDir(fs, DropLast(d)) && !IsPrefix(k, d)
    requires y in MovedPart(fs, k, d)
    ensures DropLast(y) in RemoveTree(fs, k) + MovedPart(fs, k, d)
    ensures (RemoveTree(fs, k) + MovedPart(fs, k, d))[DropLast(y)] == Dir
  {
    if y == d {
      MovedRootParent(fs, k, d);
    } else {
      MovedInnerParent(fs, k, d, y);
    }
  }

  /** Below `d`, the parent of a moved entry was moved too. */
  lemma MovedInnerParent(fs: Fs, k: Key, d: Key, y: Key)
    requires Wf(fs) && k in fs
    requires y in MovedPart(fs, k, d) && y != d
    ensures DropLast(y) in MovedPart(fs, k, d) && MovedPart(fs, k, d)[DropLast(y)] == Dir
  {
    var x := k + y[|d|..];
    assert y == d + y[|d|..];
    assert |x| > |k|;
    var p := DropLast(x);
    assert x in fs && x != [];
    assert p in fs && fs[p] == Dir;
    assert p[..|k|] == x[..|k|];
    assert DropLast(y) == Rebase(p, k, d);
  }

  /** The moved entry `d` itself sits in the untouched parent of `d`. */
  lemma MovedRootParent(fs: Fs, k: Key, d: Key)
    requires Wf(fs) && k in fs && k != []
    requires d != [] && d !in fs && IsDir(fs, DropLast(d)) && !IsPrefix(k, d)
    ensures DropLast(d) in RemoveTree(fs, k) + MovedPart(fs, k, d)
    ensures (RemoveTree(fs, k) + MovedPart(fs, k, d))[DropLast(d)] == Dir
  {
    assert !IsPrefix(k, DropLast(d));
    if DropLast(d) in MovedPart(fs, k, d) {
      NoEntryBelowMissing(fs, d, DropLast(d));
    }
  }

  /** Nothing in a tree lies at or below a missing path. */
  lemma NoEntryBelowMissing(fs: Fs, d: Key, y: Key)
    requires Wf(fs) && d !in fs && IsPrefix(d, y)
    ensures y !in fs
  {
    if y in fs && y != d {
      AncestorsAreDirs(fs, y, |d|);
    }
  }
}
