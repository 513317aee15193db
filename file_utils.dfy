/**
 * `FileOperations` from photo_organizer/file_utils.py: copy, move and
 * rename as step sequences over the file system, each guarded by a
 * before/after checksum, plus checksum computation, integrity checks and
 * numbered backups. Every exception the source catches becomes a `false`
 * (or `None`) result here.
 */
module FileUtils {
  import opened Wrappers
  import opened Text
  import opened Paths
  import opened Configuration
  import opened Filesystem

  /** A named path is not one of the directories `mkdir` creates for its parent. */
  lemma {:induction false} NotAmongParentPrefixes(t: Path)
    ensures Name(t) != "" ==> t !in Prefixes(Parent(t))
  {
    if Name(t) != "" {
      assert |Parent(t)| < |t|;
    }
  }

  /** `f"{name}.backup"` and then `f"{name}.backup.{counter}"` for counter 1, 2, ... */
  function BackupName(name: string, k: nat): string
  {
    if k == 0 then name + ".backup" else name + ".backup." + Decimal(k)
  }

  lemma {:induction false} BackupNameInjective(name: string, j: nat, k: nat)
    requires BackupName(name, j) == BackupName(name, k)
    ensures j == k
  {
    if j > 0 && k > 0 {
      var p := name + ".backup.";
      var b := BackupName(name, j);
      assert Decimal(j) == b[|p|..] == Decimal(k);
      DecimalInjective(j, k);
    }
  }

  /** The first `k` backup candidates in `dir`. */
  function BackupCandidates(dir: Path, name: string, k: nat): set<Path>
  {
    if k == 0 then {} else BackupCandidates(dir, name, k - 1) + {dir + [BackupName(name, k - 1)]}
  }

  lemma {:induction false} BackupCandidatesMembers(dir: Path, name: string, k: nat, c: Path)
    requires c in BackupCandidates(dir, name, k)
    ensures exists j | 0 <= j < k :: c == dir + [BackupName(name, j)]
  {
    if c != dir + [BackupName(name, k - 1)] {
      BackupCandidatesMembers(dir, name, k - 1, c);
    }
  }

  /** The candidates are pairwise distinct: there are exactly `k` of them. */
  lemma {:induction false} BackupCandidatesCount(dir: Path, name: string, k: nat)
    ensures |BackupCandidates(dir, name, k)| == k
  {
    if k > 0 {
      BackupCandidatesCount(dir, name, k - 1);
      var c := dir + [BackupName(name, k - 1)];
      if c in BackupCandidates(dir, name, k - 1) {
        BackupCandidatesMembers(dir, name, k - 1, c);
        var j :| 0 <= j < k - 1 && c == dir + [BackupName(name, j)];
        assert BackupName(name, j) == c[|dir|];
        BackupNameInjective(name, j, k - 1);
      }
    }
  }

  /** When the first `k` candidates all exist, there are at least `k` existing paths. */
  lemma {:induction false} TakenCandidatesBound(dir: Path, name: string, k: nat, taken: set<Path>)
    requires forall j | 0 <= j < k :: dir + [BackupName(name, j)] in taken
    ensures k <= |taken|
  {
    BackupCandidatesCount(dir, name, k);
    forall c | c in BackupCandidates(dir, name, k) ensures c in taken {
      BackupCandidatesMembers(dir, name, k, c);
    }
    SubsetCard(BackupCandidates(dir, name, k), taken);
  }

  class FileOperations {
    const config: Config
    const fs: FileSystem

    constructor (config: Config, fs: FileSystem)
      ensures this.config == config && this.fs == fs
    {
      this.config := config;
      this.fs := fs;
    }

    /**
     * `_calculate_checksum`: the hex digest of the file's bytes under
     * "sha256" or "md5"; any other algorithm, or a file that cannot be
     * read, raises.
     */
    function CalculateChecksum(p: Path, algorithm: string): (r: Option<string>)
      reads fs
      ensures r.Some? <==> (algorithm == "sha256" || algorithm == "md5") && p in fs.files && p !in fs.unreadable
      ensures r.Some? && algorithm == "sha256" ==> r.value == fs.sha256(fs.files[p])
      ensures r.Some? && algorithm == "md5" ==> r.value == fs.md5(fs.files[p])
    {
      if algorithm != "sha256" && algorithm != "md5" then None
      else
        match fs.Read(p)
        case None => None
        case Some(data) => Some(if algorithm == "sha256" then fs.sha256(data) else fs.md5(data))
    }

    /** `verify_file_integrity`: the recomputed checksum equals the expected one; any error gives false. */
    function VerifyFileIntegrity(p: Path, expected: string, algorithm: string): (r: bool)
      reads fs
      ensures r <==> CalculateChecksum(p, algorithm) == Some(expected)
    {
      match CalculateChecksum(p, algorithm)
      case None => false
      case Some(actual) => actual == expected
    }

    /** A readable file passes the integrity check against its own checksum, and only against it. */
    lemma {:induction false} IntegrityOfOwnChecksum(p: Path, algorithm: string, expected: string)
      requires p in fs.files && p !in fs.unreadable
      requires algorithm == "sha256" || algorithm == "md5"
      ensures algorithm == "sha256" ==> (VerifyFileIntegrity(p, expected, algorithm) <==> expected == fs.sha256(fs.files[p]))
      ensures algorithm == "md5" ==> (VerifyFileIntegrity(p, expected, algorithm) <==> expected == fs.md5(fs.files[p]))
    {
    }

    /**
     * `safe_copy`: create the target's directory, then (outside a dry run)
     * checksum the source, copy, and checksum the copy, removing it when
     * the two differ.
     */
    method SafeCopy(source: Path, target: Path, verify: bool, faults: Faults) returns (ok: bool)
      modifies fs
      // the source is never modified or removed, and nothing but the target is
      ensures source in old(fs.files) ==> source in fs.files && fs.files[source] == old(fs.files[source])
      ensures fs.files - {target} == old(fs.files) - {target}
      // the directory is created before the dry-run check and stays whatever follows;
      // when it cannot be created nothing changes
      ensures old(fs.MkdirsSucceeds(Parent(target), faults.mkdirDenied)) ==>
                fs.dirs == old(fs.dirs) + Prefixes(Parent(target)) && fs.IsDirectory(Parent(target))
      ensures !old(fs.MkdirsSucceeds(Parent(target), faults.mkdirDenied)) ==>
                !ok && fs.files == old(fs.files) && fs.dirs == old(fs.dirs)
      ensures ok ==> fs.dirs == old(fs.dirs) + Prefixes(Parent(target))
      ensures config.dryRun ==> fs.files == old(fs.files) && (ok <==> old(fs.MkdirsSucceeds(Parent(target), faults.mkdirDenied)))
      // a reported copy holds the source's checksum whenever verification ran
      ensures ok && !config.dryRun ==> source in old(fs.files) && target in fs.files
      ensures ok && !config.dryRun && verify && fs.sha256(old(fs.files[source])) != "" ==>
                fs.sha256(fs.files[target]) == fs.sha256(old(fs.files[source]))
      // when the device wrote faithfully, a reported copy holds the source's very bytes
      ensures ok && !config.dryRun && faults.copy.CopyOk? ==> fs.files[target] == old(fs.files[source])
      // a failed copy leaves no new bytes at the target, unless the device raised mid-write
      // or the copy cannot be read back or removed
      ensures !ok && !faults.copy.CopyTruncated? && target !in fs.unreadable && !faults.unlinkDenied ==>
                fs.files == old(fs.files) || target !in fs.files
      // with nothing going wrong, the target receives the source's bytes
      ensures faults == NoFaults && !config.dryRun && old(fs.Read(source)).Some? && source != target
              && Name(target) != "" && target !in old(fs.dirs) && !BlockedByFile(old(fs.files), Parent(target))
              && (verify ==> target !in fs.unreadable) ==>
                ok && fs.files == old(fs.files)[target := old(fs.files[source])]
    {
      NotAmongParentPrefixes(target);
      var made := fs.Mkdirs(Parent(target), faults.mkdirDenied);
      if !made {
        return false;
      }
      if config.dryRun {
        return true;
      }
      var original := "";
      if verify {
        var c := CalculateChecksum(source, "sha256");
        if c.None? {
          return false;
        }
        original := c.value;
      }
      var copied := fs.Copy2(source, target, faults.copy);
      if !copied {
        return false;
      }
      if verify && original != "" {
        var now := CalculateChecksum(target, "sha256");
        if now.None? {
          return false;
        }
        if now.value != original {
          var _ := fs.Unlink(target, true, faults.unlinkDenied);
          return false;
        }
      }
      return true;
    }

    /**
     * `safe_move`: the steps of `safe_copy`, then `source.unlink()` as the
     * last change, reached only after the copy succeeded and verified.
     */
    method SafeMove(source: Path, target: Path, verify: bool, faults: Faults) returns (ok: bool)
      modifies fs
      // a move that fails leaves the source byte-identical
      ensures !ok && source in old(fs.files) ==> source in fs.files && fs.files[source] == old(fs.files[source])
      // the source disappears only in a reported, verified move
      ensures source in old(fs.files) && source !in fs.files ==> ok
      ensures ok && !config.dryRun ==> source in old(fs.files) && source !in fs.files && target in fs.files
      ensures ok && !config.dryRun && verify && fs.sha256(old(fs.files[source])) != "" ==>
                fs.sha256(fs.files[target]) == fs.sha256(old(fs.files[source]))
      // when the device wrote faithfully, a reported copy holds the source's very bytes
      ensures ok && !config.dryRun && faults.copy.CopyOk? ==> fs.files[target] == old(fs.files[source])
      // nothing but the source and the target changes
      ensures fs.files - {source, target} == old(fs.files) - {source, target}
      // the directory is created before the dry-run check and stays whatever follows;
      // when it cannot be created nothing changes
      ensures old(fs.MkdirsSucceeds(Parent(target), faults.mkdirDenied)) ==>
                fs.dirs == old(fs.dirs) + Prefixes(Parent(target)) && fs.IsDirectory(Parent(target))
      ensures !old(fs.MkdirsSucceeds(Parent(target), faults.mkdirDenied)) ==>
                !ok && fs.files == old(fs.files) && fs.dirs == old(fs.dirs)
      ensures ok ==> fs.dirs == old(fs.dirs) + Prefixes(Parent(target))
      ensures config.dryRun ==> fs.files == old(fs.files) && (ok <==> old(fs.MkdirsSucceeds(Parent(target), faults.mkdirDenied)))
      ensures !ok && !faults.copy.CopyTruncated? && target !in fs.unreadable && !faults.unlinkDenied ==>
                fs.files == old(fs.files) || target !in fs.files
      ensures faults == NoFaults && !config.dryRun && old(fs.Read(source)).Some? && source != target
              && Name(target) != "" && target !in old(fs.dirs) && !BlockedByFile(old(fs.files), Parent(target))
              && (verify ==> target !in fs.unreadable) ==>
                ok && fs.files == (old(fs.files) - {source})[target := old(fs.files[source])]
    {
      NotAmongParentPrefixes(target);
      var made := fs.Mkdirs(Parent(target), faults.mkdirDenied);
      if !made {
        return false;
      }
      if config.dryRun {
        return true;
      }
      var original := "";
      if verify {
        var c := CalculateChecksum(source, "sha256");
        if c.None? {
          return false;
        }
        original := c.value;
      }
      var copied := fs.Copy2(source, target, faults.copy);
      if !copied {
        return false;
      }
      if verify && original != "" {
        var now := CalculateChecksum(target, "sha256");
        if now.None? {
          return false;
        }
        if now.value != original {
          var _ := fs.Unlink(target, true, faults.unlinkDenied);
          return false;
        }
      }
      ok := fs.Unlink(source, false, faults.unlinkDenied);
    }

    /**
     * `safe_rename`: a single `rename`, checksummed before and after. A
     * failure after the rename is not undone.
     */
    method SafeRename(source: Path, target: Path, verify: bool, faults: Faults) returns (ok: bool)
      modifies fs
      ensures fs.dirs == old(fs.dirs)
      ensures config.dryRun ==> ok && fs.files == old(fs.files)
      // a reported rename moved the original bytes to the target
      ensures ok && !config.dryRun ==>
                source in old(fs.files) && fs.files == (old(fs.files) - {source})[target := old(fs.files[source])]
      // a failure either changed nothing or came after the rename
      ensures !ok ==> fs.files == old(fs.files)
                      || (source in old(fs.files) && fs.files == (old(fs.files) - {source})[target := old(fs.files[source])])
      // after a rename the checksums cannot differ: only an unreadable target fails it
      ensures !ok && fs.files != old(fs.files) ==> verify && target in fs.unreadable
    {
      if config.dryRun {
        return true;
      }
      var original := "";
      if verify {
        var c := CalculateChecksum(source, "sha256");
        if c.None? {
          return false;
        }
        original := c.value;
      }
      var renamed := fs.Rename(source, target, faults.renameDenied);
      if !renamed {
        return false;
      }
      if verify && original != "" {
        var now := CalculateChecksum(target, "sha256");
        if now.None? {
          return false;
        }
        if now.value != original {
          assert false;
          return false;
        }
      }
      return true;
    }

    /**
     * `create_backup`: copies the file to the first name among
     * `name.backup`, `name.backup.1`, `name.backup.2`, ... that does not
     * exist in the backup directory (by default `.backups` beside it).
     */
    method CreateBackup(file: Path, backupDir: Option<Path>, faults: Faults) returns (r: Option<Path>)
      modifies fs
      ensures !config.createBackups ==> r.None? && fs.files == old(fs.files) && fs.dirs == old(fs.dirs)
      // no existing file is ever overwritten or removed
      ensures forall q | q in old(fs.files) :: q in fs.files && fs.files[q] == old(fs.files[q])
      ensures r.Some? ==> file in old(fs.files) && r.value !in old(fs.files) && r.value !in old(fs.dirs)
      ensures r.Some? ==> exists k: nat ::
                r.value == backupDir.GetOr(Parent(file) + [".backups"]) + [BackupName(Name(file), k)]
                && forall j | 0 <= j < k ::
                     fs.Exists(backupDir.GetOr(Parent(file) + [".backups"]) + [BackupName(Name(file), j)])
      ensures r.Some? && faults.copy.CopyOk? ==> fs.files == old(fs.files)[r.value := old(fs.files[file])]
    {
      if !config.createBackups {
        return None;
      }
      var dir := backupDir.GetOr(Parent(file) + [".backups"]);
      var made := fs.Mkdirs(dir, faults.mkdirDenied);
      if !made {
        return None;
      }
      ghost var k: nat;
      var path;
      path, k := FreeBackupPath(dir, Name(file));
      var copied := fs.Copy2(file, path, faults.copy);
      if !copied {
        return None;
      }
      forall j | 0 <= j < k ensures fs.Exists(dir + [BackupName(Name(file), j)]) {
        assert old(fs.Exists(dir + [BackupName(Name(file), j)]));
      }
      return Some(path);
    }

    /** The first of `name.backup`, `name.backup.1`, ... in `dir` that does not exist. */
    method FreeBackupPath(dir: Path, name: string) returns (path: Path, ghost k: nat)
      ensures !fs.Exists(path)
      ensures path == dir + [BackupName(name, k)]
      ensures forall j | 0 <= j < k :: fs.Exists(dir + [BackupName(name, j)])
    {
      var taken := fs.files.Keys + fs.dirs;
      var i: nat := 0;
      path := dir + [BackupName(name, 0)];
      while fs.Exists(path)
        invariant path == dir + [BackupName(name, i)]
        invariant forall j | 0 <= j < i :: dir + [BackupName(name, j)] in taken
        decreases |taken| - i
      {
        TakenCandidatesBound(dir, name, i + 1, taken);
        i := i + 1;
        path := dir + [BackupName(name, i)];
      }
      k := i;
    }
  }

  lemma {:induction false} SubsetCard<T>(a: set<T>, b: set<T>)
    requires a <= b
    ensures |a| <= |b|
  {
    if a != {} {
      var x :| x in a;
      SubsetCard(a - {x}, b - {x});
    }
  }
}
