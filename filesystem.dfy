/**
 * The part of the operating system the organizer relies on: regular files
 * holding bytes and directories, addressed by component paths, together
 * with the calls the source makes on them (`Path.mkdir(parents=True,
 * exist_ok=True)`, `shutil.copy2`, `Path.unlink`, `Path.rename`) and the
 * two digests it reads files through. Failures the operating system may
 * report (a refused permission, a disk that fills up mid-copy, a copy that
 * silently differs) are injected through `Faults`; files that cannot be
 * opened for reading are fixed in `unreadable`.
 */
module Filesystem {
  import opened Wrappers
  import opened Paths

  type Bytes = seq<bv8>

  /** How one `shutil.copy2` call behaves. */
  datatype CopyFault =
    | CopyOk                         // the bytes are copied
    | CopyRaises                     // raises before the target is written
    | CopyTruncated(written: Bytes)  // writes part of the target, then raises
    | CopyCorrupted(written: Bytes)  // returns normally, the target holding other bytes

  /** The failures injected into one transfer. */
  datatype Faults = Faults(mkdirDenied: bool, copy: CopyFault, unlinkDenied: bool, renameDenied: bool)

  const NoFaults := Faults(false, CopyOk, false, false)

  /** Some leading part of `p` (`p` itself included) is a regular file. */
  predicate BlockedByFile(files: map<Path, Bytes>, p: Path)
  {
    exists k | 1 <= k <= |p| :: p[..k] in files
  }

  /** `p` and all of its ancestors below the starting point. */
  function Prefixes(p: Path): set<Path>
  {
    set k | 1 <= k <= |p| :: p[..k]
  }

  class FileSystem {
    var files: map<Path, Bytes>
    var dirs: set<Path>
    /** Files whose `open(..., 'rb')` raises. */
    const unreadable: set<Path>
    /** `hashlib.sha256(data).hexdigest()` */
    const sha256: Bytes -> string
    /** `hashlib.md5(data).hexdigest()` */
    const md5: Bytes -> string

    constructor (files0: map<Path, Bytes>, dirs0: set<Path>, unreadable0: set<Path>,
                 sha: Bytes -> string, md: Bytes -> string)
      ensures files == files0 && dirs == dirs0 && unreadable == unreadable0
      ensures sha256 == sha && md5 == md
    {
      files, dirs, unreadable := files0, dirs0, unreadable0;
      sha256, md5 := sha, md;
    }

    /** `path.exists()` */
    predicate Exists(p: Path)
      reads this
    {
      p in files || p in dirs
    }

    /** `path.is_dir()`; the current directory and the root always are. */
    predicate IsDirectory(p: Path)
      reads this
    {
      p == [] || p == ["/"] || p in dirs
    }

    /** The bytes `open(p, 'rb').read()` returns, or `None` where it raises. */
    function Read(p: Path): Option<Bytes>
      reads this
    {
      if p in files && p !in unreadable then Some(files[p]) else None
    }

    /**
     * `p.mkdir(parents=True, exist_ok=True)`: creates `p` and its missing
     * ancestors; raises when one of them is a regular file, or when a
     * directory has to be created and that is refused.
     */
    method Mkdirs(p: Path, denied: bool) returns (ok: bool)
      modifies this
      ensures files == old(files)
      ensures ok <==> old(MkdirsSucceeds(p, denied))
      ensures ok ==> dirs == old(dirs) + Prefixes(p) && IsDirectory(p)
      ensures !ok ==> dirs == old(dirs)
    {
      if !MkdirsSucceeds(p, denied) {
        return false;
      }
      assert p != [] ==> p[..|p|] == p;
      dirs := dirs + Prefixes(p);
      return true;
    }

    /** No ancestor is a file, and nothing needs creating or creating is allowed. */
    predicate MkdirsSucceeds(p: Path, denied: bool)
      reads this
    {
      !BlockedByFile(files, p) && (Prefixes(p) <= dirs || !denied)
    }

    /**
     * `shutil.copy2(src, dst)` onto a file path: the source must be a
     * readable file distinct from the target, and the target's directory
     * must exist; an existing target file is overwritten.
     */
    method Copy2(src: Path, dst: Path, fault: CopyFault) returns (ok: bool)
      modifies this
      ensures dirs == old(dirs)
      ensures old(CopyRefused(src, dst)) || fault.CopyRaises? ==> !ok && files == old(files)
      ensures !old(CopyRefused(src, dst)) && !fault.CopyRaises? ==>
                ok == !fault.CopyTruncated?
                && files == old(files)[dst := if fault.CopyOk? then old(files[src]) else fault.written]
    {
      if CopyRefused(src, dst) {
        return false;
      }
      match fault
      case CopyOk =>
        files := files[dst := files[src]];
        ok := true;
      case CopyRaises =>
        ok := false;
      case CopyTruncated(w) =>
        files := files[dst := w];
        ok := false;
      case CopyCorrupted(w) =>
        files := files[dst := w];
        ok := true;
    }

    /** The conditions under which `shutil.copy2` raises whatever the device does. */
    predicate CopyRefused(src: Path, dst: Path)
      reads this
    {
      Read(src).None? || src == dst || dst in dirs || !IsDirectory(Parent(dst))
    }

    /**
     * `p.unlink(missing_ok)`: removes a file; a directory cannot be
     * unlinked, and a missing path is an error unless `missing_ok`.
     */
    method Unlink(p: Path, missingOk: bool, denied: bool) returns (ok: bool)
      modifies this
      ensures dirs == old(dirs)
      ensures ok <==> if p in old(files) then !denied else p !in old(dirs) && missingOk
      ensures files == if ok then old(files) - {p} else old(files)
    {
      if p in files {
        if denied {
          return false;
        }
        files := files - {p};
        return true;
      }
      return p !in dirs && missingOk;
    }

    /**
     * `src.rename(dst)` on a regular file: an existing target file is
     * replaced; renaming onto a directory or into a missing directory raises.
     */
    method Rename(src: Path, dst: Path, denied: bool) returns (ok: bool)
      modifies this
      ensures dirs == old(dirs)
      ensures ok <==> src in old(files) && !denied && dst !in old(dirs) && old(IsDirectory(Parent(dst)))
      ensures ok ==> files == (old(files) - {src})[dst := old(files[src])]
      ensures !ok ==> files == old(files)
    {
      if src !in files || denied || dst in dirs || !IsDirectory(Parent(dst)) {
        return false;
      }
      files := (files - {src})[dst := files[src]];
      return true;
    }
  }
}
