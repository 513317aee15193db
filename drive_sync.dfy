/**
 * `threading.Event` as the drive loops observe it. A signal handler may
 * call `set()` at any moment; the loops only see the flag when they read
 * it, so the model fixes the read from which on the flag is seen set.
 */
module Cancellation {
  import opened Wrappers

  class CancelEvent {
    /** How many times `is_set()` has been called so far. */
    var checks: nat
    /** The first read that sees the flag set, if any does. */
    const setFrom: Option<nat>

    constructor (setFrom0: Option<nat>)
      ensures checks == 0 && setFrom == setFrom0
    {
      checks, setFrom := 0, setFrom0;
    }

    /** The `k`-th read sees the flag set; once set it stays set. */
    predicate SetAt(k: nat)
    {
      setFrom.Some? && setFrom.value <= k
    }

    /** `event.is_set()` */
    method IsSet() returns (b: bool)
      modifies this
      ensures checks == old(checks) + 1
      ensures b == SetAt(old(checks))
    {
      b := SetAt(checks);
      checks := checks + 1;
    }
  }
}

/**
 * `DriveSynchronizer` of photo_organizer/drive_comparison.py: the verified
 * copy between drives and `sync_drives`, which copies the files one drive
 * lacks from the other and leaves files whose contents differ alone.
 */
module DriveSync {
  import opened Wrappers
  import opened Paths
  import opened Filesystem
  import opened Drives
  import opened Cancellation
  import FileUtils

  /** `_calculate_checksum`: the SHA-256 digest of the file, or "" when it cannot be read. */
  function ChecksumOf(fs: FileSystem, p: Path): string
    reads fs
  {
    match fs.Read(p)
    case Some(bytes) => fs.sha256(bytes)
    case None => ""
  }

  /**
   * In the file contents `files`, the copy of `f` on drive `to` is there
   * and, when the source's checksum `sum` is known, has that checksum.
   */
  predicate Delivered(fs: FileSystem, files: map<Path, Bytes>, to: Path, f: Path, sum: string)
  {
    to + f in files && (sum != "" ==> Digest(fs, files, to + f) == sum)
  }

  /** Every file of `done` is delivered, with the checksum `sums` holds for it. */
  predicate AllDelivered(fs: FileSystem, files: map<Path, Bytes>, to: Path, done: seq<Path>, sums: map<Path, string>)
  {
    forall g | g in done :: g in sums && Delivered(fs, files, to, g, sums[g])
  }

  /** The checksums the sources of `files` have in `m`, as far as a copy can be held to them. */
  function SourceSums(fs: FileSystem, m: map<Path, Bytes>, from: Path, to: Path, files: seq<Path>): (sums: map<Path, string>)
    ensures forall f | f in files :: f in sums && (Apart(from, to) ==> sums[f] == Digest(fs, m, from + f))
  {
    map f | f in files :: if Apart(from, to) then Digest(fs, m, from + f) else ""
  }

  /** `ChecksumOf` judged on the given file contents. */
  function Digest(fs: FileSystem, files: map<Path, Bytes>, p: Path): string
  {
    if p in files && p !in fs.unreadable then fs.sha256(files[p]) else ""
  }

  /** A write to the `k`-th target of a sorted list keeps every delivery made before it. */
  lemma {:induction false} DeliveredKept(fs: FileSystem, before: map<Path, Bytes>, after: map<Path, Bytes>, to: Path,
                                         files: seq<Path>, k: nat, done: seq<Path>, sums: map<Path, string>)
    requires Sorted(files) && k < |files|
    requires after - {to + files[k]} == before - {to + files[k]}
    requires (forall g | g in done :: g in files[..k]) && AllDelivered(fs, before, to, done, sums)
    ensures AllDelivered(fs, after, to, done, sums)
  {
    forall g | g in done ensures g in sums && Delivered(fs, after, to, g, sums[g]) {
      var j :| 0 <= j < k && files[j] == g;
      SortedDistinct(files, j, k);
      JoinedDiffer(to, g, files[k]);
      KeptElsewhere(before, after, to + files[k], to + g);
    }
  }

  /** Deliveries of a list and of one more file are deliveries of the longer list. */
  /** Appending the next file of a sorted list to a sorted selection of the earlier ones keeps it sorted. */
  lemma {:induction false} SortedSnoc(files: seq<Path>, k: nat, done: seq<Path>)
    requires Sorted(files) && k < |files|
    requires Sorted(done) && forall g | g in done :: g in files[..k]
    ensures Sorted(done + [files[k]])
  {
    var s := done + [files[k]];
    forall i, j | 0 <= i < j < |s| ensures PathLt(s[i], s[j]) {
      if j == |done| {
        assert s[i] in files[..k];
        var m :| 0 <= m < k && files[m] == s[i];
      }
    }
  }

  lemma {:induction false} DeliveredSnoc(fs: FileSystem, files: map<Path, Bytes>, to: Path, done: seq<Path>, f: Path,
                                         sums: map<Path, string>)
    requires AllDelivered(fs, files, to, done, sums)
    requires f in sums && Delivered(fs, files, to, f, sums[f])
    ensures AllDelivered(fs, files, to, done + [f], sums)
  {
    forall g | g in done + [f] ensures g in sums && Delivered(fs, files, to, g, sums[g]) {
      assert g in done || g == f;
    }
  }

  /** Where `base / f` lands for each listed `f`. */
  function Targets(base: Path, fs: set<Path>): set<Path>
  {
    set f | f in fs :: base + f
  }

  /** Every path `sync_drives` may write: the missing files, on the drive that lacks them. */
  function SyncTargets(drive1: Path, drive2: Path, d1: DriveFiles, d2: DriveFiles): set<Path>
  {
    Targets(drive1, OnlyIn(d2, d1)) + Targets(drive2, OnlyIn(d1, d2))
  }

  /** The statistics `sync_drives` returns when it runs. */
  datatype SyncStats = SyncStats(copiedToDrive1: nat, copiedToDrive2: nat, skipped: nat, errors: nat, bytesCopied: nat)

  lemma {:induction false} JoinedDiffer(base: Path, f: Path, g: Path)
    requires f != g
    ensures base + f != base + g
  {
    assert (base + f)[|base|..] == f;
    assert (base + g)[|base|..] == g;
  }

  /**
   * A path on both drives is never among the paths a sync writes, as long
   * as neither drive lies inside the other; so files whose contents differ
   * are left as they are on both drives.
   */
  lemma {:induction false} SharedNeverTargeted(drive1: Path, drive2: Path, d1: DriveFiles, d2: DriveFiles, f: Path)
    requires !IsStrictPrefix(drive1, drive2) && !IsStrictPrefix(drive2, drive1)
    requires f in d1 && f in d2
    ensures drive1 + f !in SyncTargets(drive1, drive2, d1, d2)
    ensures drive2 + f !in SyncTargets(drive1, drive2, d1, d2)
  {
    forall g | g in OnlyIn(d2, d1) ensures drive1 + f != drive1 + g && drive2 + f != drive1 + g {
      JoinedDiffer(drive1, f, g);
      SamePrefixLength(drive2, f, drive1, g);
    }
    forall g | g in OnlyIn(d1, d2) ensures drive1 + f != drive2 + g && drive2 + f != drive2 + g {
      JoinedDiffer(drive2, f, g);
      SamePrefixLength(drive1, f, drive2, g);
    }
  }

  /** Two drives neither inside the other: a path under both has the same relative part. */
  lemma {:induction false} SamePrefixLength(a: Path, f: Path, b: Path, g: Path)
    requires !IsStrictPrefix(a, b) && !IsStrictPrefix(b, a)
    requires f != g
    ensures a + f != b + g
  {
    if |a| <= |b| {
      JoinPrefix(a, f, b, g);
    } else {
      JoinPrefix(b, g, a, f);
    }
  }

  /** Two drive roots, distinct and neither inside the other. */
  predicate Apart(a: Path, b: Path)
  {
    a != b && !IsStrictPrefix(a, b) && !IsStrictPrefix(b, a)
  }

  /** On drives apart, no path under one drive is a path under the other. */
  lemma {:induction false} ApartJoins(a: Path, f: Path, b: Path, g: Path)
    requires Apart(a, b)
    ensures a + f != b + g
  {
    if |a| <= |b| {
      JoinPrefix(a, f, b, g);
      assert b[..|b|] == b;
    } else {
      JoinPrefix(b, g, a, f);
    }
  }

  /** On drives apart, a path under one drive is never a target on the other. */
  lemma {:induction false} ApartNotTarget(a: Path, f: Path, b: Path, s: set<Path>)
    requires Apart(a, b)
    ensures a + f !in Targets(b, s)
  {
    forall g | g in s ensures a + f != b + g {
      ApartJoins(a, f, b, g);
    }
  }

  /** On one drive, a path not listed is never the target of a listed one. */
  lemma {:induction false} NotTargetOf(b: Path, f: Path, s: set<Path>)
    requires f !in s
    ensures b + f !in Targets(b, s)
  {
    forall g | g in s ensures b + f != b + g {
      JoinedDiffer(b, f, g);
    }
  }

  lemma {:induction false} JoinPrefix(a: Path, f: Path, b: Path, g: Path)
    requires |a| <= |b|
    ensures a + f == b + g ==> b[..|a|] == a && (|a| == |b| ==> f == g)
  {
    if a + f == b + g {
      assert b[..|a|] == (b + g)[..|a|];
      assert (a + f)[..|a|] == a;
      if |a| == |b| {
        assert (a + f)[|a|..] == f;
        assert (b + g)[|b|..] == g;
      }
    }
  }

  /** Two loops, each writing only within its own set of paths, together write only within both. */
  lemma {:induction false} TwoWrites(m0: map<Path, Bytes>, m1: map<Path, Bytes>, m2: map<Path, Bytes>, a: set<Path>, b: set<Path>)
    requires m1 - a == m0 - a && m2 - b == m1 - b
    ensures m2 - (a + b) == m0 - (a + b)
  {
    forall q | q !in a + b ensures (q in m2 <==> q in m0) && (q in m2 ==> m2[q] == m0[q]) {
      assert q in m2 <==> q in m2 - b;
      assert q in m1 <==> q in m1 - b;
      assert q in m1 <==> q in m1 - a;
      assert q in m0 <==> q in m0 - a;
      if q in m2 {
        assert m2[q] == (m2 - b)[q] == (m1 - b)[q] == (m1 - a)[q] == (m0 - a)[q];
      }
    }
    assert m2 - (a + b) == m0 - (a + b);
  }

  /** A write to `t`, one of the paths `w` a loop may write, keeps the rest as it was. */
  lemma {:induction false} WriteWithin(m0: map<Path, Bytes>, m1: map<Path, Bytes>, m2: map<Path, Bytes>, t: Path, w: set<Path>)
    requires m1 - w == m0 - w && m2 - {t} == m1 - {t} && t in w
    ensures m2 - w == m0 - w
  {
    forall q | q !in w ensures (q in m2 <==> q in m0) && (q in m2 ==> m2[q] == m0[q]) {
      assert q in m2 <==> q in m2 - {t};
      assert q in m1 <==> q in m1 - {t};
      assert q in m1 <==> q in m1 - w;
      assert q in m0 <==> q in m0 - w;
      if q in m2 {
        assert m2[q] == (m2 - {t})[q] == (m1 - {t})[q] == (m1 - w)[q] == (m0 - w)[q];
      }
    }
    assert m2 - w == m0 - w;
  }

  /** A file other than the one written survives the write, bytes and all. */
  lemma {:induction false} KeptElsewhere(m1: map<Path, Bytes>, m2: map<Path, Bytes>, t: Path, q: Path)
    requires m2 - {t} == m1 - {t} && q != t && q in m1
    ensures q in m2 && m2[q] == m1[q]
  {
    assert q in m1 - {t};
    assert m2[q] == (m2 - {t})[q];
  }

  /** A path outside what a loop may write is as it was before the loop. */
  lemma {:induction false} OutsideKept(m0: map<Path, Bytes>, m1: map<Path, Bytes>, w: set<Path>, q: Path)
    requires m1 - w == m0 - w && q !in w
    ensures (q in m1 <==> q in m0) && (q in m1 ==> m1[q] == m0[q])
  {
    assert q in m1 <==> q in m1 - w;
    assert q in m0 <==> q in m0 - w;
    if q in m1 {
      assert m1[q] == (m1 - w)[q];
    }
  }

  class DriveSynchronizer {
    const fs: FileSystem
    const cancel: CancelEvent

    constructor (fs0: FileSystem, cancel0: CancelEvent)
      ensures fs == fs0 && cancel == cancel0
    {
      fs, cancel := fs0, cancel0;
    }

    /**
     * `_safe_copy_file`: create the target's directory, checksum the
     * source when verifying, copy, and, when the source had a checksum,
     * compare the copy's and remove a copy that differs.
     */
    method SafeCopyFile(source: Path, target: Path, verify: bool, faults: Faults) returns (ok: bool)
      modifies fs
      // nothing but the target changes, so the source is never harmed
      ensures fs.files - {target} == old(fs.files) - {target}
      ensures source in old(fs.files) ==> source in fs.files && fs.files[source] == old(fs.files[source])
      ensures fs.dirs == old(fs.dirs) || fs.dirs == old(fs.dirs) + Prefixes(Parent(target))
      // a reported copy exists, and matches the source whenever a checksum was compared
      ensures ok ==> old(fs.Read(source)).Some? && target in fs.files
      ensures ok && verify && old(ChecksumOf(fs, source)) != "" ==> ChecksumOf(fs, target) == old(ChecksumOf(fs, source))
      // a failed copy leaves no new bytes at the target, unless the device raised mid-write
      // or the mismatching copy could not be removed
      ensures !ok && !faults.copy.CopyTruncated? && !faults.unlinkDenied ==>
                fs.files == old(fs.files) || target !in fs.files
      // with nothing going wrong, the target receives the source's bytes
      ensures faults == NoFaults && old(fs.Read(source)).Some? && source != target
              && Name(target) != "" && target !in old(fs.dirs) && !BlockedByFile(old(fs.files), Parent(target))
              && (verify ==> target !in fs.unreadable) ==>
                ok && fs.files == old(fs.files)[target := old(fs.files[source])]
    {
      FileUtils.NotAmongParentPrefixes(target);
      var made := fs.Mkdirs(Parent(target), faults.mkdirDenied);
      if !made {
        return false;
      }
      var original := "";
      if verify {
        original := ChecksumOf(fs, source);
      }
      var copied := fs.Copy2(source, target, faults.copy);
      if !copied {
        return false;
      }
      if verify && original != "" {
        var now := ChecksumOf(fs, target);
        if now != original {
          var _ := fs.Unlink(target, true, faults.unlinkDenied);
          return false;
        }
      }
      return true;
    }

    /** The body of a copying loop: copy one file, or in a dry run only report success. */
    method CopyOne(source: Path, target: Path, dryRun: bool, faults: Faults) returns (ok: bool)
      modifies fs
      ensures fs.files - {target} == old(fs.files) - {target}
      ensures old(fs.dirs) <= fs.dirs
      ensures dryRun ==> ok && fs.files == old(fs.files) && fs.dirs == old(fs.dirs)
      ensures !dryRun && ok ==> target in fs.files
      ensures !dryRun && ok && old(ChecksumOf(fs, source)) != "" ==> ChecksumOf(fs, target) == old(ChecksumOf(fs, source))
    {
      ok := true;
      if !dryRun {
        ok := SafeCopyFile(source, target, true, faults);
      }
    }

    /**
     * One turn of a copying loop, past its cancellation check: copy the
     * `k`-th file, keeping every copy the earlier turns delivered.
     */
    method CopyTurn(fromDrive: Path, toDrive: Path, files: seq<Path>, k: nat, dryRun: bool, faults: Faults,
                    ghost sums: map<Path, string>, ghost done: seq<Path>)
      returns (ok: bool)
      requires k < |files| && files[k] in sums
      requires sums[files[k]] != "" ==> ChecksumOf(fs, fromDrive + files[k]) == sums[files[k]]
      requires !dryRun && Sorted(files) ==>
                 (forall g | g in done :: g in files[..k]) && AllDelivered(fs, fs.files, toDrive, done, sums)
      modifies fs
      ensures fs.files - {toDrive + files[k]} == old(fs.files) - {toDrive + files[k]}
      ensures old(fs.dirs) <= fs.dirs
      ensures dryRun ==> ok && fs.files == old(fs.files) && fs.dirs == old(fs.dirs)
      ensures !dryRun && Sorted(files) ==>
                AllDelivered(fs, fs.files, toDrive, if ok then done + [files[k]] else done, sums)
    {
      ghost var before := fs.files;
      ok := CopyOne(fromDrive + files[k], toDrive + files[k], dryRun, faults);
      if !dryRun && Sorted(files) {
        DeliveredKept(fs, before, fs.files, toDrive, files, k, done, sums);
        if ok {
          assert Delivered(fs, fs.files, toDrive, files[k], sums[files[k]]);
          DeliveredSnoc(fs, fs.files, toDrive, done, files[k], sums);
        }
      }
    }

    /**
     * One copying loop of `sync_drives`: for each listed file, stop when
     * cancelled, otherwise copy it from one drive to the other (or, in a
     * dry run, only count it) and tally a copy with its size or an error.
     */
    method CopyMissing(fromDrive: Path, toDrive: Path, sizes: DriveFiles, files: seq<Path>, dryRun: bool,
                       faults: Path -> Faults)
      returns (copied: nat, errors: nat, bytes: nat, ghost attempted: nat, ghost done: seq<Path>)
      requires forall f | f in files :: f in sizes
      modifies fs, cancel
      // the loop stops early only at a read that sees the cancellation
      ensures attempted <= |files| && copied + errors == attempted
      ensures cancel.checks == old(cancel.checks) + attempted + (if attempted < |files| then 1 else 0)
      ensures attempted < |files| ==> cancel.SetAt(old(cancel.checks) + attempted)
      ensures attempted > 0 ==> !cancel.SetAt(old(cancel.checks) + attempted - 1)
      // the copied files, and the bytes they add up to
      ensures |done| == copied && (forall f | f in done :: f in files[..attempted])
      ensures Sorted(files) ==> Sorted(done)
      ensures errors == 0 ==> done == files[..attempted]
      ensures forall f | f in done :: f in sizes
      ensures bytes == SumSizes(sizes, done)
      ensures dryRun ==> errors == 0 && done == files[..attempted] && fs.files == old(fs.files) && fs.dirs == old(fs.dirs)
      // each copied file is in place, with the checksum its source had when the drives are apart
      ensures !dryRun && Sorted(files) ==>
                AllDelivered(fs, fs.files, toDrive, done, SourceSums(fs, old(fs.files), fromDrive, toDrive, files))
      // nothing but the targets is written
      ensures fs.files - Targets(toDrive, set f | f in files) == old(fs.files) - Targets(toDrive, set f | f in files)
      ensures old(fs.dirs) <= fs.dirs
    {
      ghost var written := Targets(toDrive, set f | f in files);
      // the sources' checksums before the loop, when the drives are apart
      ghost var files0 := fs.files;
      ghost var sums := SourceSums(fs, files0, fromDrive, toDrive, files);
      copied, errors, bytes, attempted, done := 0, 0, 0, 0, [];
      var k := 0;
      while k < |files|
        invariant 0 <= k <= |files| && attempted == k
        invariant copied + errors == k
        invariant cancel.checks == old(cancel.checks) + k
        invariant k > 0 ==> !cancel.SetAt(old(cancel.checks) + k - 1)
        invariant |done| == copied && (forall f | f in done :: f in files[..k])
        invariant Sorted(files) ==> Sorted(done)
        invariant errors == 0 ==> done == files[..k]
        invariant forall f | f in done :: f in sizes
        invariant bytes == SumSizes(sizes, done)
        invariant dryRun ==> errors == 0 && done == files[..k] && fs.files == old(fs.files) && fs.dirs == old(fs.dirs)
        invariant !dryRun && Sorted(files) ==> AllDelivered(fs, fs.files, toDrive, done, sums)
        invariant fs.files - written == old(fs.files) - written
        invariant old(fs.dirs) <= fs.dirs
      {
        var stop := cancel.IsSet();
        if stop {
          return;
        }
        var f := files[k];
        assert files[..k + 1] == files[..k] + [f];
        ghost var before := fs.files;
        if Apart(fromDrive, toDrive) {
          ApartNotTarget(fromDrive, f, toDrive, set f | f in files);
          OutsideKept(files0, fs.files, written, fromDrive + f);
        }
        var ok := CopyTurn(fromDrive, toDrive, files, k, dryRun, faults(f), sums, done);
        assert toDrive + f in written;
        WriteWithin(old(fs.files), before, fs.files, toDrive + f, written);
        if ok {
          SumSizesAppend(sizes, done, [f]);
          if Sorted(files) {
            SortedSnoc(files, k, done);
          }
          copied, bytes, done := copied + 1, bytes + sizes[f].size, done + [f];
        } else {
          errors := errors + 1;
        }
        k := k + 1;
        attempted := k;
      }
    }

    /**
     * `sync_drives` over the two drive indexes, with the free space of
     * each drive as an input: nothing happens when already cancelled or
     * when either drive lacks the space; otherwise the files missing from
     * drive 1 are copied there, then those missing from drive 2, and files
     * whose contents differ are only counted.
     */
    method SyncDrives(drive1: Path, drive2: Path, d1: DriveFiles, d2: DriveFiles, dryRun: bool,
                      free1: Option<nat>, free2: Option<nat>, faults: Path -> Faults)
      returns (r: Option<SyncStats>, ghost done1: seq<Path>, ghost done2: seq<Path>)
      modifies fs, cancel
      ensures r.None? <==> cancel.SetAt(old(cancel.checks)) || !CheckDriveSpace(free1, SpaceNeeded(d2, d1))
                           || !CheckDriveSpace(free2, SpaceNeeded(d1, d2))
      ensures r.None? ==> fs.files == old(fs.files) && fs.dirs == old(fs.dirs)
      ensures r.Some? ==> r.value.skipped == |Different(d1, d2)|
      ensures r.Some? ==> r.value.copiedToDrive1 <= |OnlyIn(d2, d1)| && r.value.copiedToDrive2 <= |OnlyIn(d1, d2)|
      ensures r.Some? && dryRun ==> r.value.errors == 0 && fs.files == old(fs.files) && fs.dirs == old(fs.dirs)
      // without a cancellation every missing file is attempted exactly once
      ensures r.Some? && cancel.setFrom.None? ==>
                r.value.copiedToDrive1 + r.value.copiedToDrive2 + r.value.errors == |OnlyIn(d2, d1)| + |OnlyIn(d1, d2)|
      ensures r.Some? && dryRun && cancel.setFrom.None? ==>
                r.value.copiedToDrive1 == |OnlyIn(d2, d1)| && r.value.copiedToDrive2 == |OnlyIn(d1, d2)|
                && r.value.bytesCopied == SpaceNeeded(d2, d1) + SpaceNeeded(d1, d2)
      // only the missing files are written
      ensures fs.files - SyncTargets(drive1, drive2, d1, d2) == old(fs.files) - SyncTargets(drive1, drive2, d1, d2)
      // the files copied to each drive, with the bytes reported
      ensures r.None? ==> done1 == [] && done2 == []
      ensures r.Some? ==> |done1| == r.value.copiedToDrive1 && |done2| == r.value.copiedToDrive2
      ensures (forall f | f in done1 :: f in d2 && f !in d1) && (forall f | f in done2 :: f in d1 && f !in d2)
      ensures Sorted(done1) && Sorted(done2)
      ensures r.Some? && cancel.setFrom.None? && r.value.errors == 0 ==>
                (forall f | f in OnlyIn(d2, d1) :: f in done1) && forall f | f in OnlyIn(d1, d2) :: f in done2
      // so on drives apart, after a sync without errors both drives hold every file, with the originals' checksums
      ensures r.Some? && !dryRun && Apart(drive1, drive2) && cancel.setFrom.None? && r.value.errors == 0 ==>
                (forall f | f in OnlyIn(d2, d1) :: Delivered(fs, fs.files, drive1, f, Digest(fs, old(fs.files), drive2 + f)))
                && forall f | f in OnlyIn(d1, d2) :: Delivered(fs, fs.files, drive2, f, Digest(fs, old(fs.files), drive1 + f))
      ensures r.Some? ==> r.value.bytesCopied == SumSizes(d2, done1) + SumSizes(d1, done2)
      // on drives apart, every copy is in place with the checksum its source had at the start
      ensures !dryRun && Apart(drive1, drive2) ==>
                (forall f | f in done1 :: Delivered(fs, fs.files, drive1, f, Digest(fs, old(fs.files), drive2 + f)))
                && forall f | f in done2 :: Delivered(fs, fs.files, drive2, f, Digest(fs, old(fs.files), drive1 + f))
    {
      done1, done2 := [], [];
      var cancelled := cancel.IsSet();
      if cancelled {
        r := None;
        return;
      }
      if !CheckDriveSpace(free1, SpaceNeeded(d2, d1)) || !CheckDriveSpace(free2, SpaceNeeded(d1, d2)) {
        r := None;
        return;
      }
      var stats;
      stats, done1, done2 := CopyBothWays(drive1, drive2, d1, d2, dryRun, faults);
      r := Some(stats);
    }

    /** The two copying loops of `sync_drives` and the count of differing files. */
    method CopyBothWays(drive1: Path, drive2: Path, d1: DriveFiles, d2: DriveFiles, dryRun: bool, faults: Path -> Faults)
      returns (stats: SyncStats, ghost done1: seq<Path>, ghost done2: seq<Path>)
      modifies fs, cancel
      ensures stats.skipped == |Different(d1, d2)|
      // the files copied to each drive and the bytes they add up to
      ensures |done1| == stats.copiedToDrive1 && (forall f | f in done1 :: f in d2 && f !in d1)
      ensures |done2| == stats.copiedToDrive2 && (forall f | f in done2 :: f in d1 && f !in d2)
      ensures Sorted(done1) && Sorted(done2)
      // without a cancellation and without an error, every missing file is copied
      ensures cancel.setFrom.None? && stats.errors == 0 ==>
                (forall f | f in OnlyIn(d2, d1) :: f in done1) && forall f | f in OnlyIn(d1, d2) :: f in done2
      // so on drives apart, both drives end up holding every file, with the checksums of the originals
      ensures !dryRun && Apart(drive1, drive2) && cancel.setFrom.None? && stats.errors == 0 ==>
                (forall f | f in OnlyIn(d2, d1) :: Delivered(fs, fs.files, drive1, f, Digest(fs, old(fs.files), drive2 + f)))
                && forall f | f in OnlyIn(d1, d2) :: Delivered(fs, fs.files, drive2, f, Digest(fs, old(fs.files), drive1 + f))
      ensures stats.bytesCopied == SumSizes(d2, done1) + SumSizes(d1, done2)
      // on drives apart, every copy is in place with the checksum its source had at the start
      ensures !dryRun && Apart(drive1, drive2) ==>
                (forall f | f in done1 :: Delivered(fs, fs.files, drive1, f, Digest(fs, old(fs.files), drive2 + f)))
                && forall f | f in done2 :: Delivered(fs, fs.files, drive2, f, Digest(fs, old(fs.files), drive1 + f))
      ensures stats.copiedToDrive1 <= |OnlyIn(d2, d1)| && stats.copiedToDrive2 <= |OnlyIn(d1, d2)|
      ensures dryRun ==> stats.errors == 0 && fs.files == old(fs.files) && fs.dirs == old(fs.dirs)
      ensures cancel.setFrom.None? ==>
                stats.copiedToDrive1 + stats.copiedToDrive2 + stats.errors == |OnlyIn(d2, d1)| + |OnlyIn(d1, d2)|
      ensures dryRun && cancel.setFrom.None? ==>
                stats.copiedToDrive1 == |OnlyIn(d2, d1)| && stats.copiedToDrive2 == |OnlyIn(d1, d2)|
                && stats.bytesCopied == SpaceNeeded(d2, d1) + SpaceNeeded(d1, d2)
      ensures fs.files - SyncTargets(drive1, drive2, d1, d2) == old(fs.files) - SyncTargets(drive1, drive2, d1, d2)
    {
      ghost var files0 := fs.files;
      var to1, err1, bytes1;
      to1, err1, bytes1, done1 := CopyDirection(drive2, drive1, d2, d1, dryRun, faults);
      ghost var files1 := fs.files;
      var to2, err2, bytes2;
      to2, err2, bytes2, done2 := CopyDirection(drive1, drive2, d1, d2, dryRun, faults);
      TwoWrites(files0, files1, fs.files, Targets(drive1, OnlyIn(d2, d1)), Targets(drive2, OnlyIn(d1, d2)));
      stats := SyncStats(to1, to2, |Different(d1, d2)|, err1 + err2, bytes1 + bytes2);
      if !dryRun && Apart(drive1, drive2) {
        // the second direction leaves the first one's copies alone
        forall f | f in done1 ensures Delivered(fs, fs.files, drive1, f, Digest(fs, files0, drive2 + f)) {
          ApartNotTarget(drive1, f, drive2, OnlyIn(d1, d2));
          OutsideKept(files1, fs.files, Targets(drive2, OnlyIn(d1, d2)), drive1 + f);
        }
        // and reads sources the first one never wrote
        forall f | f in done2 ensures Delivered(fs, fs.files, drive2, f, Digest(fs, files0, drive1 + f)) {
          NotTargetOf(drive1, f, OnlyIn(d2, d1));
          OutsideKept(files0, files1, Targets(drive1, OnlyIn(d2, d1)), drive1 + f);
        }
      }
    }

    /** Copy, in listing order, the files `need` indexes and `have` lacks from one drive to the other. */
    method CopyDirection(fromDrive: Path, toDrive: Path, need: DriveFiles, have: DriveFiles, dryRun: bool,
                         faults: Path -> Faults)
      returns (copied: nat, errors: nat, bytes: nat, ghost done: seq<Path>)
      modifies fs, cancel
      ensures copied <= |OnlyIn(need, have)|
      // the files copied, the bytes they add up to, and where they are now
      ensures |done| == copied && forall f | f in done :: f in OnlyIn(need, have)
      ensures Sorted(done)
      // without a cancellation and without an error, every missing file is copied
      ensures cancel.setFrom.None? && errors == 0 ==> forall f | f in OnlyIn(need, have) :: f in done
      ensures !dryRun && cancel.setFrom.None? && errors == 0 ==> forall f | f in OnlyIn(need, have) :: toDrive + f in fs.files
      ensures bytes == SumSizes(need, done)
      ensures !dryRun ==> forall f | f in done :: toDrive + f in fs.files
      ensures !dryRun && Apart(fromDrive, toDrive) ==>
                forall f | f in done :: Delivered(fs, fs.files, toDrive, f, Digest(fs, old(fs.files), fromDrive + f))
      ensures dryRun ==> errors == 0 && fs.files == old(fs.files) && fs.dirs == old(fs.dirs)
      ensures cancel.setFrom.None? ==> copied + errors == |OnlyIn(need, have)|
      ensures dryRun && cancel.setFrom.None? ==> copied == |OnlyIn(need, have)| && bytes == SpaceNeeded(need, have)
      ensures fs.files - Targets(toDrive, OnlyIn(need, have)) == old(fs.files) - Targets(toDrive, OnlyIn(need, have))
    {
      var missing := Listed(OnlyIn(need, have));
      assert (set f | f in missing) == OnlyIn(need, have);
      ghost var attempted;
      copied, errors, bytes, attempted, done := CopyMissing(fromDrive, toDrive, need, missing, dryRun, faults);
      if cancel.setFrom.None? {
        assert missing[..|missing|] == missing;
      }
      if !dryRun {
        forall f | f in done
          ensures toDrive + f in fs.files
          ensures Apart(fromDrive, toDrive) ==> Delivered(fs, fs.files, toDrive, f, Digest(fs, old(fs.files), fromDrive + f))
        {
        }
      }
    }
  }
}
