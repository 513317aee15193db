/**
 * The drive index of photo_organizer/drive_comparison.py and the pure
 * computations over it: the three-way comparison of two drives, the space
 * a synchronization needs, the split of a scan into fixed-size batches,
 * and the choice of archive files a backup copies.
 */
module Drives {
  import opened Wrappers
  import opened Paths

  /** `(file_size, checksum)` of one indexed file. */
  datatype FileInfo = FileInfo(size: nat, checksum: string)

  /** `{relative_path: (file_size, checksum)}`, a relative path kept as its components. */
  type DriveFiles = map<Path, FileInfo>

  /** A row of the `drive_files` table, keyed elsewhere by its relative path. */
  datatype Row = Row(fullPath: Path, size: nat, checksum: string, drive: Path)

  /** The `drive_files` table: `relative_path` is its primary key. */
  type Table = map<Path, Row>

  // ---------------------------------------------------------------------
  // Comparing two drives

  /** The four groups `compare_backup_drives` sorts the paths of both drives into. */
  datatype Comparison = Comparison(identical: set<Path>, different: set<Path>, only1: set<Path>, only2: set<Path>)

  /** Paths indexed on `a` but not on `b`. */
  function OnlyIn(a: DriveFiles, b: DriveFiles): set<Path>
  {
    set f | f in a && f !in b
  }

  /** Paths on both drives whose checksums differ; sizes are not compared. */
  function Different(a: DriveFiles, b: DriveFiles): set<Path>
  {
    set f | f in a && f in b && a[f].checksum != b[f].checksum
  }

  /** Paths on both drives with the same checksum. */
  function Identical(a: DriveFiles, b: DriveFiles): set<Path>
  {
    set f | f in a && f in b && a[f].checksum == b[f].checksum
  }

  function Compare(d1: DriveFiles, d2: DriveFiles): Comparison
  {
    Comparison(Identical(d1, d2), Different(d1, d2), OnlyIn(d1, d2), OnlyIn(d2, d1))
  }

  /** The comparison partitions the paths of both drives: every path lands in exactly one group. */
  lemma {:induction false} ComparePartition(d1: DriveFiles, d2: DriveFiles)
    ensures var c := Compare(d1, d2);
            c.identical + c.different + c.only1 + c.only2 == d1.Keys + d2.Keys
            && c.identical !! c.different && c.identical !! c.only1 && c.identical !! c.only2
            && c.different !! c.only1 && c.different !! c.only2 && c.only1 !! c.only2
  {
  }

  /** So the group sizes add up to the number of distinct paths on the two drives. */
  lemma {:induction false} CompareCounts(d1: DriveFiles, d2: DriveFiles)
    ensures var c := Compare(d1, d2);
            |d1.Keys + d2.Keys| == |c.identical| + |c.different| + |c.only1| + |c.only2|
  {
    ComparePartition(d1, d2);
    var c := Compare(d1, d2);
    FourCards(c.identical, c.different, c.only1, c.only2);
  }

  lemma {:induction false} FourCards(a: set<Path>, b: set<Path>, c: set<Path>, d: set<Path>)
    requires a !! b && a !! c && a !! d && b !! c && b !! d && c !! d
    ensures |a + b + c + d| == |a| + |b| + |c| + |d|
  {
    assert |a + b| == |a| + |b|;
    assert (a + b) !! c;
    assert |a + b + c| == |a + b| + |c|;
    assert (a + b + c) !! d;
  }

  /** Two drives are in sync exactly when no path needs copying and none differs. */
  lemma {:induction false} InSyncMeansEqualIndex(d1: DriveFiles, d2: DriveFiles)
    ensures Different(d1, d2) == {} && OnlyIn(d1, d2) == {} && OnlyIn(d2, d1) == {} <==>
              d1.Keys == d2.Keys && forall f | f in d1 :: d1[f].checksum == d2[f].checksum
  {
    if Different(d1, d2) == {} && OnlyIn(d1, d2) == {} && OnlyIn(d2, d1) == {} {
      forall f | f in d1 ensures f in d2 {
        assert f !in OnlyIn(d1, d2);
      }
      forall f | f in d2 ensures f in d1 {
        assert f !in OnlyIn(d2, d1);
      }
      forall f | f in d1 ensures d1[f].checksum == d2[f].checksum {
        assert f !in Different(d1, d2);
      }
    }
  }

  // ---------------------------------------------------------------------
  // Sizes

  /** `sum(files[f][0] for f in fs)`. */
  function SumSizes(m: DriveFiles, fs: seq<Path>): nat
    requires forall f | f in fs :: f in m
  {
    if fs == [] then 0 else m[fs[0]].size + SumSizes(m, fs[1..])
  }

  lemma {:induction false} SumSizesAppend(m: DriveFiles, a: seq<Path>, b: seq<Path>)
    requires forall f | f in a + b :: f in m
    ensures SumSizes(m, a + b) == SumSizes(m, a) + SumSizes(m, b)
  {
    if a != [] {
      assert (a + b)[0] == a[0];
      assert (a + b)[1..] == a[1..] + b;
      SumSizesAppend(m, a[1..], b);
      assert SumSizes(m, a + b) == m[a[0]].size + SumSizes(m, a[1..] + b);
    } else {
      assert a + b == b;
    }
  }

  /** Only the sizes of the listed paths count: entries for other paths do not change the sum. */
  lemma {:induction false} SumSizesAgree(m: DriveFiles, n: DriveFiles, fs: seq<Path>)
    requires forall f | f in fs :: f in m && f in n && m[f].size == n[f].size
    ensures SumSizes(m, fs) == SumSizes(n, fs)
  {
    if fs != [] {
      SumSizesAgree(m, n, fs[1..]);
    }
  }

  /**
   * The order a drive's paths are listed in. The source walks dictionary
   * keys in database row order; the model lists them sorted.
   */
  function Listed(s: set<Path>): (r: seq<Path>)
    ensures |r| == |s| && (forall f :: f in r <==> f in s) && Sorted(r)
  {
    SortedPaths(s)
  }

  /** `space_needed_drive1`: the sizes, on drive 2, of the files drive 1 lacks. */
  function SpaceNeeded(need: DriveFiles, have: DriveFiles): nat
  {
    SumSizes(need, Listed(OnlyIn(need, have)))
  }

  /** `_check_drive_space` with the free space as an input: a failed `statvfs` passes. */
  function CheckDriveSpace(free: Option<nat>, required: nat): (r: bool)
    ensures r <==> free.None? || free.value >= required
  {
    match free
    case None => true
    case Some(bytes) => bytes >= required
  }

  // ---------------------------------------------------------------------
  // Batching

  const BatchSize := 20

  /** The batches laid end to end. */
  function Flatten(batches: seq<seq<Path>>): seq<Path>
  {
    if batches == [] then [] else Flatten(batches[..|batches| - 1]) + batches[|batches| - 1]
  }

  /**
   * `for i in range(0, len(files), size): batches.append(files[i:i + size])`:
   * consecutive slices, all full but the last, together the whole list.
   */
  method SplitBatches(files: seq<Path>, size: nat) returns (batches: seq<seq<Path>>)
    requires size > 0
    ensures Flatten(batches) == files
    ensures forall k | 0 <= k < |batches| :: 0 < |batches[k]| <= size
    ensures forall k | 0 <= k < |batches| - 1 :: |batches[k]| == size
    ensures files == [] <==> batches == []
    ensures files != [] ==> (|batches| - 1) * size < |files| <= |batches| * size
  {
    batches := [];
    var i := 0;
    while i < |files|
      invariant 0 <= i <= |files|
      invariant Flatten(batches) == files[..i]
      invariant forall k | 0 <= k < |batches| :: 0 < |batches[k]| <= size
      invariant forall k | 0 <= k < |batches| - 1 :: |batches[k]| == size
      invariant i < |files| ==> forall k | 0 <= k < |batches| :: |batches[k]| == size
      invariant i < |files| ==> i == |batches| * size
      invariant i == |files| && files != [] ==> (|batches| - 1) * size < |files| <= |batches| * size
      invariant batches == [] <==> i == 0
    {
      var end := if i + size <= |files| then i + size else |files|;
      var batch := files[i..end];
      assert files[..end] == files[..i] + batch;
      assert (|batches| + 1) * size == |batches| * size + size;
      ghost var prev := batches;
      batches := batches + [batch];
      assert batches[..|batches| - 1] == prev;
      i := end;
    }
    assert files[..i] == files;
  }

  /** `min(4, (n + batch_size - 1) // batch_size)`: one worker per batch, four at most. */
  function MaxWorkers(n: nat): (w: nat)
    ensures n > 0 ==> 1 <= w <= 4
    ensures w <= 4 && (w < 4 ==> (w - 1) * BatchSize < n <= w * BatchSize)
  {
    var batches := (n + BatchSize - 1) / BatchSize;
    if batches < 4 then batches else 4
  }

  // ---------------------------------------------------------------------
  // Choosing what a backup copies

  /**
   * The index key of archive file `f` once it is copied into directory
   * `dirName` at the root of a drive: `str(Path(dirName) / file_path)`.
   */
  function DriveKey(dirName: string, f: Path): Path
  {
    [dirName] + f
  }

  /** The archive file `f` is missing from the drive, or held there with other content. */
  predicate NeedsBackup(dirName: string, archive: DriveFiles, drive: DriveFiles, f: Path)
    requires f in archive
  {
    var key := DriveKey(dirName, f);
    key !in drive || drive[key].checksum != archive[f].checksum
  }

  /** The directory name the selection loop of `backup_archive_to_drives` looks files up under. */
  const ArchiveKeyDir := "archive"

  /**
   * The selection loop as written: every archive file is looked up under
   * "archive/", whichever directory of the drive the backup copies into.
   */
  method SelectForBackupAsWritten(archive: DriveFiles, drive: DriveFiles) returns (toCopy: seq<Path>, bytes: nat)
    ensures forall f :: f in toCopy <==> f in archive && NeedsBackup(ArchiveKeyDir, archive, drive, f)
    ensures Sorted(toCopy)
    ensures bytes == SumSizes(archive, toCopy)
  {
    toCopy, bytes := SelectForBackup(ArchiveKeyDir, archive, drive);
  }

  /**
   * With the fixed "archive/" key, a backup into an existing "Photos"
   * directory that already holds a file with the same checksum still
   * selects that file; looking it up under the directory actually copied
   * into does not.
   */
  lemma {:induction false} FixedKeyIgnoresTarget()
    ensures var archive := map[["x.jpg"] := FileInfo(1, "h")];
            var drive := map[["Photos", "x.jpg"] := FileInfo(1, "h")];
            NeedsBackup(ArchiveKeyDir, archive, drive, ["x.jpg"]) && !NeedsBackup("Photos", archive, drive, ["x.jpg"])
  {
    assert DriveKey("Photos", ["x.jpg"]) == ["Photos", "x.jpg"];
    assert DriveKey(ArchiveKeyDir, ["x.jpg"]) != ["Photos", "x.jpg"] by {
      assert DriveKey(ArchiveKeyDir, ["x.jpg"])[0] == "archive";
      assert "archive"[0] != "Photos"[0];
    }
  }

  /**
   * The selection loop of `backup_archive_to_drives`, looking each file up
   * under the directory `dirName` the backup copies into: in archive
   * order, the files the drive lacks or holds with another checksum, and
   * the bytes they add up to.
   */
  method SelectForBackup(dirName: string, archive: DriveFiles, drive: DriveFiles) returns (toCopy: seq<Path>, bytes: nat)
    ensures forall f :: f in toCopy <==> f in archive && NeedsBackup(dirName, archive, drive, f)
    ensures Sorted(toCopy)
    ensures bytes == SumSizes(archive, toCopy)
  {
    var files := Listed(archive.Keys);
    toCopy, bytes := [], 0;
    var i := 0;
    while i < |files|
      invariant 0 <= i <= |files|
      invariant toCopy == Selection(dirName, archive, drive, files[..i])
      invariant forall f | f in toCopy :: f in archive
      invariant bytes == SumSizes(archive, toCopy)
    {
      var f := files[i];
      SelectionStep(dirName, archive, drive, files, i);
      if NeedsBackup(dirName, archive, drive, f) {
        SumSizesAppend(archive, toCopy, [f]);
        toCopy, bytes := toCopy + [f], bytes + archive[f].size;
      }
      i := i + 1;
    }
    assert files[..i] == files;
    SelectionMembers(dirName, archive, drive, files);
    SelectionSorted(dirName, archive, drive, files);
  }

  /** The files of `fs`, in order, that need a backup. */
  function Selection(dirName: string, archive: DriveFiles, drive: DriveFiles, fs: seq<Path>): seq<Path>
    requires forall f | f in fs :: f in archive
  {
    if fs == [] then []
    else
      var rest := Selection(dirName, archive, drive, fs[..|fs| - 1]);
      if NeedsBackup(dirName, archive, drive, fs[|fs| - 1]) then rest + [fs[|fs| - 1]] else rest
  }

  lemma {:induction false} SelectionStep(dirName: string, archive: DriveFiles, drive: DriveFiles, fs: seq<Path>, i: int)
    requires forall f | f in fs :: f in archive
    requires 0 <= i < |fs|
    ensures Selection(dirName, archive, drive, fs[..i + 1]) ==
              Selection(dirName, archive, drive, fs[..i]) + if NeedsBackup(dirName, archive, drive, fs[i]) then [fs[i]] else []
  {
    assert fs[..i + 1][..i] == fs[..i];
  }

  lemma {:induction false} SelectionMembers(dirName: string, archive: DriveFiles, drive: DriveFiles, fs: seq<Path>)
    requires forall f | f in fs :: f in archive
    ensures forall f :: f in Selection(dirName, archive, drive, fs) <==> f in fs && NeedsBackup(dirName, archive, drive, f)
  {
    if fs != [] {
      var init := fs[..|fs| - 1];
      SelectionMembers(dirName, archive, drive, init);
      assert fs == init + [fs[|fs| - 1]];
    }
  }

  lemma {:induction false} SelectionSorted(dirName: string, archive: DriveFiles, drive: DriveFiles, fs: seq<Path>)
    requires forall f | f in fs :: f in archive
    requires Sorted(fs)
    ensures Sorted(Selection(dirName, archive, drive, fs))
  {
    if fs != [] {
      var init := fs[..|fs| - 1];
      var last := fs[|fs| - 1];
      assert Sorted(init);
      SelectionSorted(dirName, archive, drive, init);
      SelectionMembers(dirName, archive, drive, init);
      var rest := Selection(dirName, archive, drive, init);
      forall g | g in rest ensures PathLt(g, last) {
        SortedBefore(fs, |fs| - 1, g);
      }
    }
  }

  lemma {:induction false} SortedBefore(files: seq<Path>, i: int, g: Path)
    requires Sorted(files) && 0 <= i < |files| && g in files[..i]
    ensures PathLt(g, files[i])
  {
    var j :| 0 <= j < i && files[..i][j] == g;
  }

  /** `_add_file_to_db` for every copied file: the drive index after a backup. */
  function Recorded(dirName: string, drive: DriveFiles, archive: DriveFiles, copied: seq<Path>): (r: DriveFiles)
    requires forall f | f in copied :: f in archive
  {
    if copied == [] then drive
    else Recorded(dirName, drive, archive, copied[..|copied| - 1])[DriveKey(dirName, copied[|copied| - 1]) := archive[copied[|copied| - 1]]]
  }

  lemma {:induction false} RecordedHolds(dirName: string, drive: DriveFiles, archive: DriveFiles, copied: seq<Path>, f: Path)
    requires forall g | g in copied :: g in archive
    requires f in copied
    ensures DriveKey(dirName, f) in Recorded(dirName, drive, archive, copied)
    ensures Recorded(dirName, drive, archive, copied)[DriveKey(dirName, f)] == archive[f]
  {
    var last := copied[|copied| - 1];
    if f != last {
      assert f in copied[..|copied| - 1];
      RecordedHolds(dirName, drive, archive, copied[..|copied| - 1], f);
      assert DriveKey(dirName, f) != DriveKey(dirName, last) by {
        assert DriveKey(dirName, f)[1..] == f;
      }
    }
  }

  lemma {:induction false} RecordedElsewhere(dirName: string, drive: DriveFiles, archive: DriveFiles, copied: seq<Path>, key: Path)
    requires forall g | g in copied :: g in archive
    requires forall g | g in copied :: DriveKey(dirName, g) != key
    ensures key in Recorded(dirName, drive, archive, copied) <==> key in drive
    ensures key in drive ==> Recorded(dirName, drive, archive, copied)[key] == drive[key]
  {
    if copied != [] {
      RecordedElsewhere(dirName, drive, archive, copied[..|copied| - 1], key);
      assert copied[|copied| - 1] in copied;
    }
  }

  /**
   * Once every selected file is copied and entered in the drive index, a
   * second selection against that index finds nothing to copy.
   */
  lemma {:induction false} BackupThenUpToDate(dirName: string, archive: DriveFiles, drive: DriveFiles, toCopy: seq<Path>)
    requires forall f :: f in toCopy <==> f in archive && NeedsBackup(dirName, archive, drive, f)
    ensures forall f | f in archive :: !NeedsBackup(dirName, archive, Recorded(dirName, drive, archive, toCopy), f)
  {
    var after := Recorded(dirName, drive, archive, toCopy);
    forall f | f in archive ensures !NeedsBackup(dirName, archive, after, f) {
      if f in toCopy {
        RecordedHolds(dirName, drive, archive, toCopy, f);
      } else {
        forall g | g in toCopy ensures DriveKey(dirName, g) != DriveKey(dirName, f) {
          assert DriveKey(dirName, g)[1..] == g;
        }
        RecordedElsewhere(dirName, drive, archive, toCopy, DriveKey(dirName, f));
      }
    }
  }
}
