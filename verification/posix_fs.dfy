/**
 * The part of a POSIX file system that `pathlib.Path.mkdir`, `write_text`
 * and `rename` touch: a map from absolute paths to nodes, shaped as a tree
 * under the root directory `[]`.
 */
module PosixFs {
  import opened Wrappers

  /** Path components from the root; `[]` is the root directory itself. */
  type Path = seq<string>

  datatype Node = Directory | File(text: string)

  /** The `OSError` subclasses the operations raise, each with the path reported. */
  datatype OsError =
    | FileExistsError(path: Path)
    | FileNotFoundError(path: Path)
    | NotADirectoryError(path: Path)
    | IsADirectoryError(path: Path)
    | StorageError(path: Path)

  /**
   * How a `write_text` meets the device: it completes, `open` itself fails
   * (permissions, no space for a new inode), or the write fails after
   * `open` created or truncated the file.
   */
  datatype WriteOutcome = WriteCompletes | OpenFails | WriteFailsAfterOpen

  type Entries = map<Path, Node>

  function Parent(p: Path): Path
    requires |p| >= 1
  {
    p[..|p| - 1]
  }

  /** Every entry sits in an existing directory; the root is never an entry. */
  predicate TreeShaped(m: Entries) {
    forall q :: q in m ==> |q| >= 1 && (|q| > 1 ==> q[..|q| - 1] in m && m[q[..|q| - 1]] == Directory)
  }

  predicate IsDirectory(m: Entries, d: Path) {
    d == [] || (d in m && m[d] == Directory)
  }

  /** Some component along `p`, `p` included, is a regular file. */
  predicate Blocked(m: Entries, p: Path) {
    exists k :: 1 <= k <= |p| && p[..k] in m && m[p[..k]].File?
  }

  /** The non-empty prefixes of `p`: the directories `mkdir -p` walks. */
  function Prefixes(p: Path): set<Path> {
    set k | 1 <= k <= |p| :: p[..k]
  }

  /** `m` after `mkdir(parents=True, exist_ok=True)` on an unblocked `p`. */
  function WithDirs(m: Entries, p: Path): Entries {
    m + map q | q in Prefixes(p) && q !in m :: Directory
  }

  /** The error `mkdir(parents=True, exist_ok=True)` raises on a blocked `p`. */
  function MkdirError(m: Entries, p: Path): OsError {
    if p in m then FileExistsError(p) else NotADirectoryError(p)
  }

  /** The error opening `p` for writing raises when its directory does not exist. */
  function OpenError(m: Entries, p: Path): OsError
    requires |p| >= 1
  {
    if Blocked(m, Parent(p)) then NotADirectoryError(p) else FileNotFoundError(p)
  }

  // ---------------------------------------------------------------- tree lemmas

  /** Every ancestor of an entry is a directory. */
  lemma {:induction false} AncestorsAreDirectories(m: Entries, q: Path, k: nat)
    requires TreeShaped(m) && q in m && 1 <= k < |q|
    ensures q[..k] in m && m[q[..k]] == Directory
    decreases |q|
  {
    var parent := q[..|q| - 1];
    assert parent in m && m[parent] == Directory;
    if k < |q| - 1 {
      AncestorsAreDirectories(m, parent, k);
      assert parent[..k] == q[..k];
    } else {
      assert parent == q[..k];
    }
  }

  /** A prefix of `p` beyond which `p` is blocked was already there. */
  lemma BlockedPrefix(m: Entries, p: Path, k: nat)
    requires TreeShaped(m) && 1 <= k <= |p| && p[..k] in m && m[p[..k]].File?
    ensures Blocked(m, p)
    ensures forall j :: 1 <= j < k ==> p[..j] in m && m[p[..j]] == Directory
    ensures p in m <==> k == |p|
  {
    forall j | 1 <= j < k
      ensures p[..j] in m && m[p[..j]] == Directory
    {
      AncestorsAreDirectories(m, p[..k], j);
      assert p[..k][..j] == p[..j];
    }
    if k == |p| {
      assert p[..k] == p;
    } else if p in m {
      AncestorsAreDirectories(m, p, k);
      assert false;
    }
  }

  lemma PrefixesSnoc(p: Path, k: nat)
    requires 1 <= k <= |p|
    ensures Prefixes(p[..k]) == Prefixes(p[..k - 1]) + {p[..k]}
  {
    forall q | q in Prefixes(p[..k])
      ensures q in Prefixes(p[..k - 1]) + {p[..k]}
    {
      var j :| 1 <= j <= k && q == p[..k][..j];
      if j < k {
        assert q == p[..k - 1][..j];
      } else {
        assert q == p[..k];
      }
    }
    forall q | q in Prefixes(p[..k - 1]) + {p[..k]}
      ensures q in Prefixes(p[..k])
    {
      if q == p[..k] {
        assert q == p[..k][..k];
      } else {
        var j :| 1 <= j <= k - 1 && q == p[..k - 1][..j];
        assert q == p[..k][..j];
      }
    }
  }

  /** Creating the next directory along `p` extends the map by that one entry. */
  lemma WithDirsStep(m: Entries, p: Path, k: nat)
    requires 1 <= k <= |p|
    ensures p[..k] in m ==> WithDirs(m, p[..k]) == WithDirs(m, p[..k - 1])
    ensures p[..k] !in m ==> WithDirs(m, p[..k]) == WithDirs(m, p[..k - 1])[p[..k] := Directory]
  {
    PrefixesSnoc(p, k);
    DirsUnion(m, Prefixes(p[..k - 1]), p[..k]);
  }

  lemma DirsUnion(m: Entries, s: set<Path>, x: Path)
    ensures x in m ==> m + (map q | q in s + {x} && q !in m :: Directory) == m + (map q | q in s && q !in m :: Directory)
    ensures x !in m ==> m + (map q | q in s + {x} && q !in m :: Directory) == (m + (map q | q in s && q !in m :: Directory))[x := Directory]
  {
  }

  /** When every prefix exists, `mkdir -p` adds nothing. */
  lemma WithDirsPresent(m: Entries, p: Path, n: nat)
    requires n <= |p|
    requires forall j :: 1 <= j <= n ==> p[..j] in m
    ensures WithDirs(m, p[..n]) == m
  {
    forall q | q in Prefixes(p[..n])
      ensures q in m
    {
      var j :| 1 <= j <= n && q == p[..n][..j];
      assert q == p[..j];
    }
  }

  /** `mkdir -p` keeps every existing entry and only adds directories along `p`. */
  lemma WithDirsKeeps(m: Entries, p: Path)
    ensures forall q :: q in m ==> q in WithDirs(m, p) && WithDirs(m, p)[q] == m[q]
    ensures forall q :: q in WithDirs(m, p) && q !in m ==> WithDirs(m, p)[q] == Directory && q in Prefixes(p)
  {
  }

  /** On an unblocked path every prefix, `p` included, ends up a directory. */
  lemma WithDirsMakes(m: Entries, p: Path)
    requires !Blocked(m, p)
    ensures forall k :: 1 <= k <= |p| ==> p[..k] in WithDirs(m, p) && WithDirs(m, p)[p[..k]] == Directory
  {
    forall k | 1 <= k <= |p|
      ensures p[..k] in WithDirs(m, p) && WithDirs(m, p)[p[..k]] == Directory
    {
      assert p[..k] in Prefixes(p);
    }
  }

  /** `exist_ok=True`: a second `mkdir -p` of the same path changes nothing. */
  lemma WithDirsIdempotent(m: Entries, p: Path)
    requires !Blocked(m, p)
    ensures WithDirs(WithDirs(m, p), p) == WithDirs(m, p)
  {
    WithDirsMakes(m, p);
    WithDirsPresent(WithDirs(m, p), p, |p|);
    assert p[..|p|] == p;
  }

  /** `mkdir -p` neither creates nor removes a file, so it blocks and unblocks nothing. */
  lemma BlockedWithDirs(m: Entries, p: Path, q: Path)
    ensures Blocked(WithDirs(m, p), q) <==> Blocked(m, q)
  {
    WithDirsKeeps(m, p);
    if Blocked(WithDirs(m, p), q) {
      var k :| 1 <= k <= |q| && q[..k] in WithDirs(m, p) && WithDirs(m, p)[q[..k]].File?;
      assert q[..k] in m;
    }
  }

  /** `mkdir -p` on an unblocked path keeps the tree shape. */
  lemma WithDirsTree(m: Entries, p: Path)
    requires TreeShaped(m) && !Blocked(m, p)
    ensures TreeShaped(WithDirs(m, p))
  {
    var r := WithDirs(m, p);
    WithDirsKeeps(m, p);
    WithDirsMakes(m, p);
    forall q | q in r && |q| > 1
      ensures q[..|q| - 1] in r && r[q[..|q| - 1]] == Directory
    {
      if q !in m {
        var k :| 1 <= k <= |p| && q == p[..k];
        assert q[..|q| - 1] == p[..k - 1];
      }
    }
  }

  /** `mkdir -p` part way along `p` meets a file: it was there before and blocks `p`. */
  lemma MkdirMeetsFile(m: Entries, p: Path, k: nat)
    requires TreeShaped(m) && 1 <= k <= |p|
    requires p[..k] in WithDirs(m, p[..k - 1]) && WithDirs(m, p[..k - 1])[p[..k]].File?
    ensures WithDirs(m, p[..k - 1]) == m
    ensures Blocked(m, p)
    ensures p in m <==> k == |p|
  {
    WithDirsKeeps(m, p[..k - 1]);
    assert p[..k] in m;
    BlockedPrefix(m, p, k);
    WithDirsPresent(m, p, k - 1);
  }

  /** `mkdir -p` part way along `p` meets a directory that was there before. */
  lemma MkdirMeetsDirectory(m: Entries, p: Path, k: nat)
    requires 1 <= k <= |p|
    requires p[..k] in WithDirs(m, p[..k - 1])
    ensures p[..k] in m
    ensures WithDirs(m, p[..k]) == WithDirs(m, p[..k - 1])
  {
    WithDirsKeeps(m, p[..k - 1]);
    WithDirsStep(m, p, k);
  }

  /** `mkdir -p` part way along `p` creates the next directory, keeping the tree. */
  lemma MkdirCreates(m: Entries, p: Path, k: nat)
    requires 1 <= k <= |p|
    requires TreeShaped(WithDirs(m, p[..k - 1]))
    requires k > 1 ==> p[..k - 1] in WithDirs(m, p[..k - 1]) && WithDirs(m, p[..k - 1])[p[..k - 1]] == Directory
    requires p[..k] !in WithDirs(m, p[..k - 1])
    ensures WithDirs(m, p[..k]) == WithDirs(m, p[..k - 1])[p[..k] := Directory]
    ensures TreeShaped(WithDirs(m, p[..k]))
  {
    WithDirsKeeps(m, p[..k - 1]);
    WithDirsStep(m, p, k);
    if k > 1 {
      assert p[..k][..k - 1] == p[..k - 1];
    }
  }

  lemma BlockedFromPrefixes(m: Entries, p: Path)
    requires forall j :: 1 <= j < |p| + 1 && p[..j] in m ==> m[p[..j]] == Directory
    ensures !Blocked(m, p)
  {
  }

  /**
   * `mkdir -p` has walked the first `k - 1` components of `p` from `m`
   * without meeting a file, and the file system is now `e`.
   */
  ghost predicate Walked(m: Entries, p: Path, k: nat, e: Entries) {
    && 1 <= k <= |p| + 1
    && TreeShaped(m)
    && e == Walk(m, p, k - 1)
    && TreeShaped(e)
    && (k > 1 ==> p[..k - 1] in e && e[p[..k - 1]] == Directory)
    && (forall j :: 1 <= j < k && p[..j] in m ==> m[p[..j]] == Directory)
  }

  /** The directories `mkdir -p` has after creating the first `n` components of `p` one by one. */
  ghost function Walk(m: Entries, p: Path, n: nat): Entries
    requires n <= |p|
  {
    if n == 0 then m
    else
      var w := Walk(m, p, n - 1);
      if p[..n] in w then w else w[p[..n] := Directory]
  }

  /** Creating the components one by one is `mkdir -p` on the prefix. */
  lemma {:induction false} WalkIsWithDirs(m: Entries, p: Path, n: nat)
    requires n <= |p|
    ensures Walk(m, p, n) == WithDirs(m, p[..n])
  {
    if n == 0 {
      WithDirsPresent(m, p, 0);
    } else {
      WalkIsWithDirs(m, p, n - 1);
      WithDirsStep(m, p, n);
      NextNotAdded(m, p, n);
    }
  }

  /** `mkdir -p` on a prefix adds no longer path, the next component included. */
  lemma NextNotAdded(m: Entries, p: Path, n: nat)
    requires 1 <= n <= |p|
    ensures p[..n] in WithDirs(m, p[..n - 1]) <==> p[..n] in m
  {
    WithDirsKeeps(m, p[..n - 1]);
    PrefixesShorter(p[..n - 1]);
  }

  lemma PrefixesShorter(p: Path)
    ensures forall q :: q in Prefixes(p) ==> |q| <= |p|
  {
    forall q | q in Prefixes(p)
      ensures |q| <= |p|
    {
      var j :| 1 <= j <= |p| && q == p[..j];
    }
  }

  lemma WalkStart(m: Entries, p: Path)
    requires TreeShaped(m) && |p| >= 1
    ensures Walked(m, p, 1, m)
  {
  }

  /** One more component walked: an existing directory is kept, a missing one created. */
  lemma WalkStep(m: Entries, p: Path, k: nat, e: Entries)
    requires Walked(m, p, k, e) && k <= |p|
    requires p[..k] !in e || e[p[..k]] == Directory
    ensures Walked(m, p, k + 1, if p[..k] in e then e else e[p[..k] := Directory])
  {
    WalkIsWithDirs(m, p, k - 1);
    WalkIsWithDirs(m, p, k);
    WithDirsKeeps(m, p[..k - 1]);
    if p[..k] in e {
      MkdirMeetsDirectory(m, p, k);
    } else {
      MkdirCreates(m, p, k);
    }
  }

  lemma WalkMeetsFile(m: Entries, p: Path, k: nat, e: Entries)
    requires Walked(m, p, k, e) && k <= |p|
    requires p[..k] in e && e[p[..k]].File?
    ensures e == m && Blocked(m, p)
  {
    WalkIsWithDirs(m, p, k - 1);
    MkdirMeetsFile(m, p, k);
  }

  lemma WalkDone(m: Entries, p: Path, e: Entries)
    requires Walked(m, p, |p| + 1, e)
    ensures e == WithDirs(m, p) && TreeShaped(e) && !Blocked(m, p)
  {
    WalkIsWithDirs(m, p, |p|);
    assert p[..|p|] == p;
    BlockedFromPrefixes(m, p);
  }

  // ---------------------------------------------------------------- the file system

  class FileSystem {
    var entries: Entries

    ghost predicate Valid()
      reads this
    {
      TreeShaped(entries)
    }

    constructor (initial: Entries)
      requires TreeShaped(initial)
      ensures Valid() && entries == initial
    {
      entries := initial;
    }

    /**
     * `Path(p).mkdir(parents=True, exist_ok=True)`: creates the missing
     * directories along `p`, shortest first; an existing directory is fine,
     * a file at `p` raises `FileExistsError`, a file above it
     * `NotADirectoryError`, and then nothing has been created.
     */
    method MakeDirs(p: Path) returns (err: Option<OsError>)
      requires Valid() && |p| >= 1
      modifies this
      ensures Valid()
      ensures err.None? <==> !Blocked(old(entries), p)
      ensures err.None? ==> entries == WithDirs(old(entries), p)
      ensures err.Some? ==> entries == old(entries) && err.value == MkdirError(old(entries), p)
    {
      ghost var m := entries;
      WalkStart(m, p);
      var k := 1;
      while k <= |p|
        invariant Walked(m, p, k, entries)
        decreases |p| + 1 - k
      {
        var q := p[..k];
        if q in entries && entries[q].File? {
          WalkMeetsFile(m, p, k, entries);
          return Some(MkdirError(entries, p));
        }
        WalkStep(m, p, k, entries);
        if q !in entries {
          entries := entries[q := Directory];
        }
        k := k + 1;
      }
      WalkDone(m, p, entries);
      return None;
    }

    /**
     * `Path(p).write_text(text)`: the directory of `p` must exist and `p`
     * must not be a directory; then the file is created or truncated and
     * written, unless the device refuses.
     */
    method WriteText(p: Path, text: string, outcome: WriteOutcome) returns (err: Option<OsError>)
      requires Valid() && |p| >= 1
      modifies this
      ensures Valid()
      ensures !IsDirectory(old(entries), Parent(p)) ==>
                entries == old(entries) && err == Some(OpenError(old(entries), p))
      ensures IsDirectory(old(entries), Parent(p)) && p in old(entries) && old(entries)[p] == Directory ==>
                entries == old(entries) && err == Some(IsADirectoryError(p))
      ensures IsDirectory(old(entries), Parent(p)) && (p !in old(entries) || old(entries)[p].File?) ==>
                match outcome
                case WriteCompletes => entries == old(entries)[p := File(text)] && err.None?
                case OpenFails => entries == old(entries) && err == Some(StorageError(p))
                case WriteFailsAfterOpen => entries == old(entries)[p := File("")] && err == Some(StorageError(p))
    {
      if !IsDirectory(entries, Parent(p)) {
        return Some(OpenError(entries, p));
      }
      if p in entries && entries[p] == Directory {
        return Some(IsADirectoryError(p));
      }
      match outcome
      case WriteCompletes =>
        entries := entries[p := File(text)];
        err := None;
      case OpenFails =>
        err := Some(StorageError(p));
      case WriteFailsAfterOpen =>
        entries := entries[p := File("")];
        err := Some(StorageError(p));
    }

    /**
     * `Path(src).rename(dst)` for a regular file `src`: atomically the file
     * is gone from `src` and present, with the same text, at `dst`, which it
     * replaces if `dst` was a file.
     */
    method Rename(src: Path, dst: Path) returns (err: Option<OsError>)
      requires Valid() && |src| >= 1 && |dst| >= 1
      requires src in entries ==> entries[src].File?
      modifies this
      ensures Valid()
      ensures src !in old(entries) ==> entries == old(entries) && err == Some(FileNotFoundError(src))
      ensures src in old(entries) && !IsDirectory(old(entries), Parent(dst)) ==>
                entries == old(entries) && err == Some(OpenError(old(entries), dst))
      ensures src in old(entries) && IsDirectory(old(entries), Parent(dst)) && dst in old(entries) && old(entries)[dst] == Directory ==>
                entries == old(entries) && err == Some(IsADirectoryError(dst))
      ensures src in old(entries) && IsDirectory(old(entries), Parent(dst)) && (dst !in old(entries) || old(entries)[dst].File?) ==>
                entries == (if src == dst then old(entries) else (old(entries) - {src})[dst := old(entries)[src]]) && err.None?
    {
      if src !in entries {
        return Some(FileNotFoundError(src));
      }
      if !IsDirectory(entries, Parent(dst)) {
        return Some(OpenError(entries, dst));
      }
      if dst in entries && entries[dst] == Directory {
        return Some(IsADirectoryError(dst));
      }
      if src != dst {
        var node := entries[src];
        entries := (entries - {src})[dst := node];
        forall q | q in entries && |q| > 1
          ensures q[..|q| - 1] in entries && entries[q[..|q| - 1]] == Directory
        {
          if q != dst && q[..|q| - 1] == src {
            assert false;
          }
        }
      }
      err := None;
    }
  }
}
