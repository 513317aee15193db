/**
 * `DriveScanner` of photo_organizer/drive_comparison.py: the incremental
 * scan of a drive into its index database, reading the index back, and
 * the comparison loop of `compare_backup_drives`.
 */
module DriveScan {
  import opened Wrappers
  import opened Text
  import opened Paths
  import opened Filesystem
  import opened Drives
  import opened Cancellation
  import opened DriveSync

  /** The index database of one drive: whether its file exists, and its `drive_files` table. */
  class DriveDatabase {
    var present: bool
    var rows: Table

    constructor (present0: bool, rows0: Table)
      ensures present == present0 && rows == rows0
    {
      present, rows := present0, rows0;
    }
  }

  /** `get_drive_files`: `{relative_path: (file_size, checksum)}`, empty when there is no database. */
  function IndexOf(present: bool, rows: Table): DriveFiles
  {
    if !present then map[] else map rel | rel in rows :: FileInfo(rows[rel].size, rows[rel].checksum)
  }

  /** `p.relative_to(drive)`, or `None` where it raises because `p` is not below `drive`. */
  function RelativeTo(p: Path, drive: Path): (r: Option<Path>)
    ensures r.Some? <==> |drive| <= |p| && p[..|drive|] == drive
    ensures r.Some? ==> drive + r.value == p
  {
    if |drive| <= |p| && p[..|drive|] == drive then Some(p[|drive|..]) else None
  }

  /**
   * The row `_process_file_batch` produces for one file: none when the
   * path is not below the drive, cannot be stat'ed, or its checksum is
   * empty (the file cannot be read).
   */
  function ScanRow(fs: FileSystem, drive: Path, p: Path): (r: Option<(Path, Row)>)
    reads fs
    ensures r.Some? <==> RelativeTo(p, drive).Some? && fs.Read(p).Some? && fs.sha256(fs.files[p]) != ""
    ensures r.Some? ==> drive + r.value.0 == p
                        && r.value.1 == Row(p, |fs.files[p]|, fs.sha256(fs.files[p]), drive)
  {
    match RelativeTo(p, drive)
    case None => None
    case Some(rel) =>
      if p !in fs.files then None
      else
        var checksum := ChecksumOf(fs, p);
        if checksum == "" then None else Some((rel, Row(p, |fs.files[p]|, checksum, drive)))
  }

  /** The rows of a batch, in order, for the files that produce one. */
  function BatchRows(fs: FileSystem, drive: Path, batch: seq<Path>): seq<(Path, Row)>
    reads fs
  {
    if batch == [] then []
    else
      var rest := BatchRows(fs, drive, batch[..|batch| - 1]);
      match ScanRow(fs, drive, batch[|batch| - 1])
      case None => rest
      case Some(e) => rest + [e]
  }

  lemma {:induction false} BatchRowsStep(fs: FileSystem, drive: Path, batch: seq<Path>, i: int)
    requires 0 <= i < |batch|
    ensures BatchRows(fs, drive, batch[..i + 1]) ==
              BatchRows(fs, drive, batch[..i]) + match ScanRow(fs, drive, batch[i]) case None => [] case Some(e) => [e]
  {
    assert batch[..i + 1][..i] == batch[..i];
  }

  lemma {:induction false} BatchRowsAppend(fs: FileSystem, drive: Path, a: seq<Path>, b: seq<Path>)
    ensures BatchRows(fs, drive, a + b) == BatchRows(fs, drive, a) + BatchRows(fs, drive, b)
  {
    if b == [] {
      assert a + b == a;
    } else {
      assert (a + b)[..|a + b| - 1] == a + b[..|b| - 1];
      BatchRowsAppend(fs, drive, a, b[..|b| - 1]);
    }
  }

  /**
   * The rows of a batch are exactly those of its files that produce one:
   * each row describes a file of the batch as it is.
   */
  lemma {:induction false} BatchRowsMeaning(fs: FileSystem, drive: Path, batch: seq<Path>)
    ensures forall e | e in BatchRows(fs, drive, batch) :: e.1.fullPath in batch && ScanRow(fs, drive, e.1.fullPath) == Some(e)
    ensures forall p | p in batch && ScanRow(fs, drive, p).Some? :: ScanRow(fs, drive, p).value in BatchRows(fs, drive, batch)
  {
    if batch != [] {
      var init := batch[..|batch| - 1];
      BatchRowsMeaning(fs, drive, init);
      assert batch == init + [batch[|batch| - 1]];
    }
  }

  /** `existing_files`: full path to size for this drive's rows, later rows overriding earlier ones. */
  function ExistingSizes(rows: Table, drive: Path, keys: seq<Path>): map<Path, nat>
    requires forall k | k in keys :: k in rows
  {
    if keys == [] then map[]
    else
      var m := ExistingSizes(rows, drive, keys[..|keys| - 1]);
      var row := rows[keys[|keys| - 1]];
      if row.drive == drive then m[row.fullPath := row.size] else m
  }

  lemma {:induction false} ExistingSizesStep(rows: Table, drive: Path, keys: seq<Path>, i: int)
    requires forall k | k in keys :: k in rows
    requires 0 <= i < |keys|
    ensures ExistingSizes(rows, drive, keys[..i + 1]) ==
              var m := ExistingSizes(rows, drive, keys[..i]);
              if rows[keys[i]].drive == drive then m[rows[keys[i]].fullPath := rows[keys[i]].size] else m
  {
    assert keys[..i + 1][..i] == keys[..i];
  }

  /**
   * A full path is known exactly when one of the drive's rows records it,
   * and its size is the size one of those rows records.
   */
  lemma {:induction false} ExistingSizesMeaning(rows: Table, drive: Path, keys: seq<Path>)
    requires forall k | k in keys :: k in rows
    ensures forall k | k in keys && rows[k].drive == drive :: rows[k].fullPath in ExistingSizes(rows, drive, keys)
    ensures forall q | q in ExistingSizes(rows, drive, keys) ::
              exists k | k in keys :: rows[k].drive == drive && rows[k].fullPath == q && rows[k].size == ExistingSizes(rows, drive, keys)[q]
  {
    if keys != [] {
      var init := keys[..|keys| - 1];
      var last := keys[|keys| - 1];
      ExistingSizesMeaning(rows, drive, init);
      assert keys == init + [last];
      var m := ExistingSizes(rows, drive, keys);
      forall q | q in m
        ensures exists k | k in keys :: rows[k].drive == drive && rows[k].fullPath == q && rows[k].size == m[q]
      {
        if rows[last].drive == drive && q == rows[last].fullPath {
          assert rows[last].size == m[q];
        } else {
          assert q in ExistingSizes(rows, drive, init) && m[q] == ExistingSizes(rows, drive, init)[q];
          var k :| k in init && rows[k].drive == drive && rows[k].fullPath == q && rows[k].size == ExistingSizes(rows, drive, init)[q];
          assert k in keys;
        }
      }
    }
  }

  /** The file is new or its size differs from the one recorded: it has to be read. */
  predicate NeedsScan(fs: FileSystem, existing: map<Path, nat>, p: Path)
    reads fs
    requires p in fs.files
  {
    !(p in existing && existing[p] == |fs.files[p]|)
  }

  /** The files of `ps`, in order, that need reading. */
  function Rescan(fs: FileSystem, existing: map<Path, nat>, ps: seq<Path>): seq<Path>
    reads fs
    requires forall p | p in ps :: p in fs.files
  {
    if ps == [] then []
    else
      var rest := Rescan(fs, existing, ps[..|ps| - 1]);
      if NeedsScan(fs, existing, ps[|ps| - 1]) then rest + [ps[|ps| - 1]] else rest
  }

  lemma {:induction false} RescanStep(fs: FileSystem, existing: map<Path, nat>, ps: seq<Path>, i: int)
    requires forall p | p in ps :: p in fs.files
    requires 0 <= i < |ps|
    ensures Rescan(fs, existing, ps[..i + 1]) ==
              Rescan(fs, existing, ps[..i]) + if NeedsScan(fs, existing, ps[i]) then [ps[i]] else []
  {
    assert ps[..i + 1][..i] == ps[..i];
  }

  lemma {:induction false} RescanMembers(fs: FileSystem, existing: map<Path, nat>, ps: seq<Path>)
    requires forall p | p in ps :: p in fs.files
    ensures forall p :: p in Rescan(fs, existing, ps) <==> p in ps && NeedsScan(fs, existing, p)
  {
    if ps != [] {
      var init := ps[..|ps| - 1];
      RescanMembers(fs, existing, init);
      assert ps == init + [ps[|ps| - 1]];
    }
  }

  /** `drive.rglob("*")` kept to regular files whose name does not start with ".", in listing order. */
  function DriveListing(fs: FileSystem, drive: Path): (r: seq<Path>)
    reads fs
    ensures forall p | p in r :: p in fs.files
  {
    Listed(set q | q in fs.files && IsAncestor(drive, q) && !StartsWith(Name(q), "."))
  }

  /** The files a scan reads: the listed files that are new or changed in size since the rows were written. */
  function Pending(fs: FileSystem, rows: Table, drive: Path): seq<Path>
    reads fs
  {
    Rescan(fs, ExistingSizes(rows, drive, Listed(rows.Keys)), DriveListing(fs, drive))
  }

  /**
   * A scan reads every listed file no row of the drive records, and skips
   * a listed file whose recorded size, under every row of the drive that
   * records it, is its current size.
   */
  lemma {:induction false} PendingMeaning(fs: FileSystem, rows: Table, drive: Path, p: Path)
    ensures p in Pending(fs, rows, drive) ==> p in fs.files && IsAncestor(drive, p) && !StartsWith(Name(p), ".")
    ensures p in DriveListing(fs, drive) && (forall k | k in rows && rows[k].drive == drive :: rows[k].fullPath != p) ==>
              p in Pending(fs, rows, drive)
    ensures p in DriveListing(fs, drive) && (exists k | k in rows :: rows[k].drive == drive && rows[k].fullPath == p)
            && (forall k | k in rows && rows[k].drive == drive && rows[k].fullPath == p :: rows[k].size == |fs.files[p]|) ==>
              p !in Pending(fs, rows, drive)
  {
    var keys := Listed(rows.Keys);
    var existing := ExistingSizes(rows, drive, keys);
    ExistingSizesMeaning(rows, drive, keys);
    RescanMembers(fs, existing, DriveListing(fs, drive));
    if p in Pending(fs, rows, drive) {
      assert p in DriveListing(fs, drive);
    }
    if p in DriveListing(fs, drive) && exists k | k in rows :: rows[k].drive == drive && rows[k].fullPath == p {
      var k :| k in rows && rows[k].drive == drive && rows[k].fullPath == p;
      assert k in keys;
      assert p in existing;
    }
  }

  /** `INSERT OR REPLACE` of each row in turn, keyed by relative path. */
  function Upsert(rows: Table, entries: seq<(Path, Row)>): Table
  {
    if entries == [] then rows
    else Upsert(rows, entries[..|entries| - 1])[entries[|entries| - 1].0 := entries[|entries| - 1].1]
  }

  /**
   * After the upsert a key holds the last row written for it; keys no row
   * was written for keep their old row.
   */
  lemma {:induction false} UpsertMeaning(rows: Table, entries: seq<(Path, Row)>, key: Path)
    ensures (forall e | e in entries :: e.0 != key) ==>
              (key in Upsert(rows, entries) <==> key in rows) && (key in rows ==> Upsert(rows, entries)[key] == rows[key])
    ensures (exists e | e in entries :: e.0 == key) ==>
              key in Upsert(rows, entries) && (key, Upsert(rows, entries)[key]) in entries
  {
    if entries != [] {
      var init := entries[..|entries| - 1];
      var last := entries[|entries| - 1];
      UpsertMeaning(rows, init, key);
      assert entries == init + [last];
      if last.0 != key && exists e | e in entries :: e.0 == key {
        var e :| e in entries && e.0 == key;
        assert e in init;
      }
    }
  }

  class DriveScanner {
    const fs: FileSystem
    const cancel: CancelEvent

    constructor (fs0: FileSystem, cancel0: CancelEvent)
      ensures fs == fs0 && cancel == cancel0
    {
      fs, cancel := fs0, cancel0;
    }

    /**
     * `_process_file_batch`: for each file, stop when cancelled, otherwise
     * collect its row; files that cannot be read are left out.
     */
    method ProcessFileBatch(batch: seq<Path>, drive: Path) returns (data: seq<(Path, Row)>, ghost processed: nat)
      modifies cancel
      ensures processed <= |batch|
      ensures cancel.checks == old(cancel.checks) + processed + (if processed < |batch| then 1 else 0)
      ensures processed < |batch| ==> cancel.SetAt(old(cancel.checks) + processed)
      ensures processed > 0 ==> !cancel.SetAt(old(cancel.checks) + processed - 1)
      ensures data == BatchRows(fs, drive, batch[..processed])
    {
      data, processed := [], 0;
      var i := 0;
      while i < |batch|
        invariant 0 <= i <= |batch| && processed == i
        invariant cancel.checks == old(cancel.checks) + i
        invariant i > 0 ==> !cancel.SetAt(old(cancel.checks) + i - 1)
        invariant data == BatchRows(fs, drive, batch[..i])
      {
        var stop := cancel.IsSet();
        if stop {
          return;
        }
        BatchRowsStep(fs, drive, batch, i);
        var row := ScanRow(fs, drive, batch[i]);
        if row.Some? {
          data := data + [row.value];
        }
        i := i + 1;
        processed := i;
      }
    }

    /** The loop building `existing_files` from this drive's rows. */
    method LoadExisting(rows: Table, drive: Path) returns (existing: map<Path, nat>)
      ensures existing == ExistingSizes(rows, drive, Listed(rows.Keys))
    {
      var keys := Listed(rows.Keys);
      existing := map[];
      var i := 0;
      while i < |keys|
        invariant 0 <= i <= |keys|
        invariant existing == ExistingSizes(rows, drive, keys[..i])
      {
        ExistingSizesStep(rows, drive, keys, i);
        var row := rows[keys[i]];
        if row.drive == drive {
          existing := existing[row.fullPath := row.size];
        }
        i := i + 1;
      }
      assert keys[..i] == keys;
    }

    /** The loop that skips files whose recorded size is unchanged. */
    method FilterUnchanged(files: seq<Path>, existing: map<Path, nat>) returns (toScan: seq<Path>, skipped: nat)
      requires forall p | p in files :: p in fs.files
      ensures toScan == Rescan(fs, existing, files)
      ensures skipped + |toScan| == |files|
    {
      toScan, skipped := [], 0;
      var i := 0;
      while i < |files|
        invariant 0 <= i <= |files|
        invariant toScan == Rescan(fs, existing, files[..i])
        invariant skipped + |toScan| == i
      {
        var p := files[i];
        RescanStep(fs, existing, files, i);
        var size := |fs.files[p]|;
        if p in existing && existing[p] == size {
          skipped := skipped + 1;
        } else {
          toScan := toScan + [p];
        }
        i := i + 1;
      }
      assert files[..i] == files;
    }

    /** Listing the drive, loading the recorded sizes and skipping unchanged files. */
    method PendingFiles(rows: Table, drive: Path) returns (toScan: seq<Path>)
      ensures toScan == Pending(fs, rows, drive)
    {
      var files := DriveListing(fs, drive);
      var existing := LoadExisting(rows, drive);
      var skipped;
      toScan, skipped := FilterUnchanged(files, existing);
    }

    /**
     * The batch loop: take the batches in order, stop when cancelled, and
     * gather their rows.
     */
    method ProcessBatches(batches: seq<seq<Path>>, drive: Path) returns (results: seq<(Path, Row)>, ghost scanned: seq<Path>)
      modifies cancel
      ensures scanned <= Flatten(batches)
      ensures cancel.setFrom.None? ==> scanned == Flatten(batches)
      ensures results == BatchRows(fs, drive, scanned)
    {
      results, scanned := [], [];
      ghost var partial := false;
      var j := 0;
      while j < |batches|
        invariant 0 <= j <= |batches|
        invariant !partial ==> scanned == Flatten(batches[..j])
        invariant partial ==> cancel.SetAt(cancel.checks) && scanned <= Flatten(batches[..j])
        invariant results == BatchRows(fs, drive, scanned)
        invariant cancel.setFrom.None? ==> !partial
      {
        var stop := cancel.IsSet();
        if stop {
          break;
        }
        var data, processed := ProcessFileBatch(batches[j], drive);
        BatchRowsAppend(fs, drive, scanned, batches[j][..processed]);
        assert batches[..j + 1][..j] == batches[..j];
        assert Flatten(batches[..j + 1]) == Flatten(batches[..j]) + batches[j];
        if processed < |batches[j]| {
          partial := true;
        } else {
          assert batches[j][..processed] == batches[j];
        }
        results, scanned := results + data, scanned + batches[j][..processed];
        j := j + 1;
      }
      FlattenPrefix(batches, j);
      if j == |batches| {
        assert batches[..j] == batches;
      }
    }

    /**
     * `scan_drive_to_db` with the database as an object: nothing happens
     * for a missing drive; otherwise the database comes into being, files
     * whose recorded size is unchanged are skipped, the rest are read in
     * batches of 20, and their rows replace the old ones.
     */
    method ScanDriveToDb(drive: Path, db: DriveDatabase) returns (n: nat, ghost results: seq<(Path, Row)>, ghost scanned: seq<Path>)
      modifies db, cancel
      ensures !fs.Exists(drive) ==> n == 0 && db.rows == old(db.rows) && db.present == old(db.present)
      ensures fs.Exists(drive) ==> db.present
      // the rows written are those of a leading part of the pending files, all of it unless cancelled
      ensures n == |results| && db.rows == Upsert(old(db.rows), results)
      ensures results == BatchRows(fs, drive, scanned)
      ensures scanned <= Pending(fs, old(db.rows), drive)
      ensures fs.Exists(drive) && cancel.setFrom.None? ==> scanned == Pending(fs, old(db.rows), drive)
      ensures !fs.Exists(drive) ==> scanned == []
    {
      results, scanned := [], [];
      if !fs.Exists(drive) {
        return 0, results, scanned;
      }
      db.present := true;
      var toScan := PendingFiles(db.rows, drive);
      if toScan == [] {
        return 0, results, scanned;
      }
      var workers := MaxWorkers(|toScan|);
      var batches := SplitBatches(toScan, BatchSize);
      var all;
      all, scanned := ProcessBatches(batches, drive);
      if all != [] {
        db.rows := Upsert(db.rows, all);
      }
      n, results := |all|, all;
    }

    /**
     * After an uncancelled scan, every pending file that can be read is
     * indexed under its relative path with its current size and checksum,
     * and rows for other paths are left as they were.
     */
    lemma {:induction false} ScanIndexesPending(rows: Table, drive: Path, scanned: seq<Path>, p: Path)
      requires p in scanned && ScanRow(fs, drive, p).Some?
      ensures var e := ScanRow(fs, drive, p).value;
              e.0 in Upsert(rows, BatchRows(fs, drive, scanned)) && Upsert(rows, BatchRows(fs, drive, scanned))[e.0] == e.1
      ensures var e := ScanRow(fs, drive, p).value;
              var index := IndexOf(true, Upsert(rows, BatchRows(fs, drive, scanned)));
              e.0 in index && index[e.0] == FileInfo(|fs.files[p]|, fs.sha256(fs.files[p]))
    {
      var results := BatchRows(fs, drive, scanned);
      var e := ScanRow(fs, drive, p).value;
      BatchRowsMeaning(fs, drive, scanned);
      UpsertMeaning(rows, results, e.0);
      var written := Upsert(rows, results)[e.0];
      assert (e.0, written) in results;
      assert ScanRow(fs, drive, written.fullPath) == Some((e.0, written));
      assert drive + e.0 == written.fullPath && drive + e.0 == p;
    }

    /**
     * `compare_backup_drives` after loading both indexes: walk every path
     * of either drive, give up when cancelled, and sort each path into one
     * of the four groups.
     */
    method CompareIndexes(d1: DriveFiles, d2: DriveFiles) returns (r: Option<Comparison>)
      modifies cancel
      ensures r.Some? ==> r.value == Compare(d1, d2)
      ensures r.Some? <==> |d1.Keys + d2.Keys| == 0 || !cancel.SetAt(old(cancel.checks) + |d1.Keys + d2.Keys| - 1)
    {
      var all := Listed(d1.Keys + d2.Keys);
      var c := Comparison({}, {}, {}, {});
      var i := 0;
      while i < |all|
        invariant 0 <= i <= |all|
        invariant cancel.checks == old(cancel.checks) + i
        invariant i > 0 ==> !cancel.SetAt(old(cancel.checks) + i - 1)
        invariant c == ComparePrefix(d1, d2, all[..i])
      {
        var stop := cancel.IsSet();
        if stop {
          return None;
        }
        ComparePrefixStep(d1, d2, all, i);
        c := Classify(d1, d2, c, all[i]);
        i := i + 1;
      }
      assert all[..i] == all;
      ComparePrefixMeaning(d1, d2, all);
      r := Some(c);
    }
  }

  /** One step of the comparison loop: put `f` into its group. */
  function Classify(d1: DriveFiles, d2: DriveFiles, c: Comparison, f: Path): Comparison
  {
    if f in d1 && f in d2 then
      if d1[f].checksum == d2[f].checksum then c.(identical := c.identical + {f})
      else c.(different := c.different + {f})
    else if f in d1 then c.(only1 := c.only1 + {f})
    else c.(only2 := c.only2 + {f})
  }

  /** The groups after the loop has walked `fs`. */
  function ComparePrefix(d1: DriveFiles, d2: DriveFiles, fs: seq<Path>): Comparison
  {
    if fs == [] then Comparison({}, {}, {}, {})
    else Classify(d1, d2, ComparePrefix(d1, d2, fs[..|fs| - 1]), fs[|fs| - 1])
  }

  lemma {:induction false} ComparePrefixStep(d1: DriveFiles, d2: DriveFiles, fs: seq<Path>, i: int)
    requires 0 <= i < |fs|
    ensures ComparePrefix(d1, d2, fs[..i + 1]) == Classify(d1, d2, ComparePrefix(d1, d2, fs[..i]), fs[i])
  {
    assert fs[..i + 1][..i] == fs[..i];
  }

  /** Walking exactly the paths of both drives yields the comparison of the two indexes. */
  lemma {:induction false} ComparePrefixMeaning(d1: DriveFiles, d2: DriveFiles, fs: seq<Path>)
    requires forall f :: f in fs <==> f in d1 || f in d2
    ensures ComparePrefix(d1, d2, fs) == Compare(d1, d2)
  {
    ComparePrefixMembers(d1, d2, fs);
    var c := ComparePrefix(d1, d2, fs);
    assert c.identical == Identical(d1, d2);
    assert c.different == Different(d1, d2);
    assert c.only1 == OnlyIn(d1, d2);
    assert c.only2 == OnlyIn(d2, d1);
  }

  lemma {:induction false} ComparePrefixMembers(d1: DriveFiles, d2: DriveFiles, fs: seq<Path>)
    requires forall f | f in fs :: f in d1 || f in d2
    ensures var c := ComparePrefix(d1, d2, fs);
            (forall f :: f in c.identical <==> f in fs && f in Identical(d1, d2))
            && (forall f :: f in c.different <==> f in fs && f in Different(d1, d2))
            && (forall f :: f in c.only1 <==> f in fs && f in OnlyIn(d1, d2))
            && (forall f :: f in c.only2 <==> f in fs && f in OnlyIn(d2, d1))
  {
    if fs != [] {
      var init := fs[..|fs| - 1];
      ComparePrefixMembers(d1, d2, init);
      assert fs == init + [fs[|fs| - 1]];
    }
  }

  lemma {:induction false} FlattenPrefix(batches: seq<seq<Path>>, j: int)
    requires 0 <= j <= |batches|
    ensures Flatten(batches[..j]) <= Flatten(batches)
  {
    if j < |batches| {
      var init := batches[..|batches| - 1];
      assert batches[..j] == init[..j];
      FlattenPrefix(init, j);
      assert Flatten(batches) == Flatten(init) + batches[|batches| - 1];
    } else {
      assert batches[..j] == batches;
    }
  }
}
