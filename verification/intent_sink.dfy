/**
 * `FileIntentSink`: a spool directory with `pending`, `done` and `failed`
 * partitions; `emit` publishes one payload into `pending` by writing a
 * `.tmp` file and renaming it to its final `.json` name.
 */
module IntentSink {
  import opened Wrappers
  import opened PosixFs

  function PartitionsOf(root: Path): seq<Path> {
    [root + ["pending"], root + ["done"], root + ["failed"]]
  }

  /** The entries after `mkdir -p` of each path of `ps` in turn. */
  function CreateAll(m: Entries, ps: seq<Path>): Entries {
    if ps == [] then m else WithDirs(CreateAll(m, ps[..|ps| - 1]), ps[|ps| - 1])
  }

  /** The index of the first path of `ps` that a file blocks, or `|ps|`. */
  function FirstBlocked(m: Entries, ps: seq<Path>): (j: nat)
    ensures j <= |ps|
    ensures forall t :: 0 <= t < j ==> !Blocked(m, ps[t])
    ensures j < |ps| ==> Blocked(m, ps[j])
  {
    if ps == [] then 0
    else if Blocked(m, ps[0]) then 0
    else 1 + FirstBlocked(m, ps[1..])
  }

  /** Creating directories blocks and unblocks nothing. */
  lemma {:induction false} BlockedCreateAll(m: Entries, ps: seq<Path>, q: Path)
    ensures Blocked(CreateAll(m, ps), q) <==> Blocked(m, q)
    decreases |ps|
  {
    if ps != [] {
      BlockedCreateAll(m, ps[..|ps| - 1], q);
      BlockedWithDirs(CreateAll(m, ps[..|ps| - 1]), ps[|ps| - 1], q);
    }
  }

  /**
   * After the partitions are created every old entry is unchanged, every
   * new entry is a directory, and each unblocked path is a directory.
   */
  lemma {:induction false} CreateAllKeeps(m: Entries, ps: seq<Path>)
    ensures forall q :: q in m ==> q in CreateAll(m, ps) && CreateAll(m, ps)[q] == m[q]
    ensures forall q :: q in CreateAll(m, ps) && q !in m ==> CreateAll(m, ps)[q] == Directory
    ensures forall t :: 0 <= t < |ps| && !Blocked(m, ps[t]) ==>
              IsDirectory(CreateAll(m, ps), ps[t])
    decreases |ps|
  {
    if ps != [] {
      var init := ps[..|ps| - 1];
      var before := CreateAll(m, init);
      CreateAllKeeps(m, init);
      WithDirsKeeps(before, ps[|ps| - 1]);
      forall t | 0 <= t < |ps| && !Blocked(m, ps[t])
        ensures IsDirectory(CreateAll(m, ps), ps[t])
      {
        if t < |ps| - 1 {
          assert init[t] == ps[t];
        } else if ps[t] != [] {
          BlockedCreateAll(m, init, ps[t]);
          WithDirsMakes(before, ps[t]);
          assert ps[t][..|ps[t]|] == ps[t];
        }
      }
    }
  }

  /**
   * A sink that opened has its three partitions as directories, and every
   * entry that existed before, partitions and their contents included, is
   * as it was.
   */
  lemma PartitionsExist(m: Entries, root: Path)
    requires FirstBlocked(m, PartitionsOf(root)) == 3
    ensures var r := CreateAll(m, PartitionsOf(root));
      IsDirectory(r, root + ["pending"]) && IsDirectory(r, root + ["done"]) && IsDirectory(r, root + ["failed"]) &&
      forall q :: q in m ==> q in r && r[q] == m[q]
  {
    var ps := PartitionsOf(root);
    CreateAllKeeps(m, ps);
    assert !Blocked(m, ps[0]) && !Blocked(m, ps[1]) && !Blocked(m, ps[2]);
  }

  /** The entry names `emit` uses for the id `uuid4()` drew. */
  function FinalName(id: string): (n: string)
    ensures |n| == |id| + 5 && n[..|id|] == id && n[|id|..] == ".json"
  {
    id + ".json"
  }

  function TmpName(id: string): (n: string)
    ensures |n| == |id| + 9 && n[..|id| + 5] == FinalName(id) && n[|id| + 5..] == ".tmp"
  {
    FinalName(id) + ".tmp"
  }

  /** Different ids give different names, and no temporary name is ever a final name. */
  lemma EntryNamesDistinct(id1: string, id2: string)
    ensures FinalName(id1) == FinalName(id2) ==> id1 == id2
    ensures TmpName(id1) == TmpName(id2) ==> id1 == id2
    ensures TmpName(id1) != FinalName(id2)
  {
    if FinalName(id1) == FinalName(id2) {
      assert id1 == FinalName(id1)[..|FinalName(id1)| - 5];
    }
    if TmpName(id1) == TmpName(id2) {
      assert id1 == TmpName(id1)[..|TmpName(id1)| - 9];
      assert id2 == TmpName(id2)[..|TmpName(id2)| - 9];
    }
    assert TmpName(id1)[|TmpName(id1)| - 1] == 'p';
    assert FinalName(id2)[|FinalName(id2)| - 1] == 'n';
  }

  /** The entries after `emit` published `text` under `final`. */
  function Published(m: Entries, final: Path, text: string): (r: Entries)
    requires final !in m
    ensures r.Keys == m.Keys + {final}
    ensures forall q :: q in m ==> r[q] == m[q]
    ensures r[final] == File(text)
  {
    m[final := File(text)]
  }

  /** Publishing under a path of `pending` leaves every entry outside it as it was. */
  lemma PublishedOnlyInPending(m: Entries, pending: Path, id: string, text: string, q: Path)
    requires pending + [FinalName(id)] !in m
    requires q != pending + [FinalName(id)]
    ensures q in Published(m, pending + [FinalName(id)], text) <==> q in m
    ensures q in m ==> Published(m, pending + [FinalName(id)], text)[q] == m[q]
  {
  }

  class FileIntentSink {
    const fs: FileSystem
    const root: Path
    const pending: Path
    const done: Path
    const failed: Path

    ghost predicate Valid()
      reads this
    {
      [pending, done, failed] == PartitionsOf(root)
    }

    function FinalPath(id: string): Path
      reads this
    {
      pending + [FinalName(id)]
    }

    function TmpPath(id: string): Path
      reads this
    {
      pending + [TmpName(id)]
    }

    /** The attribute assignments of `__init__`. */
    constructor (fs: FileSystem, rootDir: Path)
      ensures Valid()
      ensures this.fs == fs && root == rootDir
    {
      this.fs := fs;
      root := rootDir;
      pending := rootDir + ["pending"];
      done := rootDir + ["done"];
      failed := rootDir + ["failed"];
    }

    /**
     * `FileIntentSink(root_dir)`: creates the three partitions in order with
     * `mkdir(parents=True, exist_ok=True)`. The first one a file blocks
     * raises, and the partitions created before it stay.
     */
    static method Open(fs: FileSystem, rootDir: Path) returns (sink: FileIntentSink?, err: Option<OsError>)
      requires fs.Valid()
      modifies fs
      ensures fs.Valid()
      ensures err.None? <==> sink != null
      ensures err.None? <==> FirstBlocked(old(fs.entries), PartitionsOf(rootDir)) == 3
      ensures sink != null ==> fresh(sink) && sink.Valid() && sink.fs == fs && sink.root == rootDir
      ensures err.None? ==> fs.entries == CreateAll(old(fs.entries), PartitionsOf(rootDir))
      ensures err.Some? ==>
                var j := FirstBlocked(old(fs.entries), PartitionsOf(rootDir));
                j < 3 &&
                fs.entries == CreateAll(old(fs.entries), PartitionsOf(rootDir)[..j]) &&
                err.value == MkdirError(fs.entries, PartitionsOf(rootDir)[j])
    {
      var parts := PartitionsOf(rootDir);
      ghost var m := fs.entries;
      var j := 0;
      while j < 3
        invariant 0 <= j <= 3
        invariant fs.Valid()
        invariant fs.entries == CreateAll(m, parts[..j])
        invariant forall t :: 0 <= t < j ==> !Blocked(m, parts[t])
      {
        BlockedCreateAll(m, parts[..j], parts[j]);
        assert parts[..j + 1][..j] == parts[..j];
        var e := fs.MakeDirs(parts[j]);
        if e.Some? {
          FirstBlockedAt(m, parts, j);
          return null, e;
        }
        j := j + 1;
      }
      assert parts[..3] == parts;
      FirstBlockedAt(m, parts, 3);
      sink := new FileIntentSink(fs, rootDir);
      err := None;
    }

    /**
     * `emit(intent_json)` under the name `id` drawn by `uuid4()`, which no
     * entry of `pending` has yet. The payload is written to the temporary
     * name, then renamed to the final one; `between` is the state after the
     * write. A failed write leaves no final entry, possibly an empty
     * temporary one.
     */
    method Emit(intentJson: string, id: string, outcome: WriteOutcome) returns (err: Option<OsError>, ghost between: Entries)
      requires Valid() && fs.Valid()
      requires FinalPath(id) !in fs.entries && TmpPath(id) !in fs.entries
      modifies fs
      ensures fs.Valid()
      ensures err.None? <==> IsDirectory(old(fs.entries), pending) && outcome == WriteCompletes
      ensures err.None? ==> between == old(fs.entries)[TmpPath(id) := File(intentJson)] && FinalPath(id) !in between
      ensures err.None? ==> fs.entries == Published(old(fs.entries), FinalPath(id), intentJson)
      ensures err.None? ==> TmpPath(id) !in fs.entries
      ensures !IsDirectory(old(fs.entries), pending) ==>
                fs.entries == old(fs.entries) && err == Some(OpenError(old(fs.entries), TmpPath(id)))
      ensures IsDirectory(old(fs.entries), pending) && outcome == OpenFails ==>
                fs.entries == old(fs.entries) && err == Some(StorageError(TmpPath(id)))
      ensures IsDirectory(old(fs.entries), pending) && outcome == WriteFailsAfterOpen ==>
                fs.entries == old(fs.entries)[TmpPath(id) := File("")] && err == Some(StorageError(TmpPath(id)))
    {
      var tmp := TmpPath(id);
      var final := FinalPath(id);
      EntryNamesDistinct(id, id);
      assert tmp[|pending|] != final[|pending|];
      assert Parent(tmp) == pending && Parent(final) == pending;
      ghost var m := fs.entries;
      err := fs.WriteText(tmp, intentJson, outcome);
      between := fs.entries;
      if err.Some? {
        return;
      }
      err := fs.Rename(tmp, final);
      assert fs.entries == (between - {tmp})[final := File(intentJson)];
      assert fs.entries == Published(m, final, intentJson);
    }
  }

  lemma FirstBlockedAt(m: Entries, ps: seq<Path>, j: nat)
    requires j <= |ps|
    requires forall t :: 0 <= t < j ==> !Blocked(m, ps[t])
    requires j < |ps| ==> Blocked(m, ps[j])
    ensures FirstBlocked(m, ps) == j
  {
  }
}
