/**
 * The per-file pipeline of photo_organizer/organizer.py: the name a photo
 * receives from its creation date, the archive layout it is filed under,
 * the collision handling that never overwrites a file, the ledger of
 * processed files that makes a second run a no-op, the ordered decisions
 * `process_file` takes, and the tally `process_directory` keeps.
 */
module Organizer {
  import opened Wrappers
  import opened Text
  import opened Paths
  import opened Configuration
  import opened Metadata
  import opened Filesystem
  import opened FileUtils

  // ---------------------------------------------------------------------
  // Target names and the archive layout

  /** `%Y-%m-%d_%H-%M-%S` as format items. */
  const StampFormat: seq<Item> :=
    [Num(Year), Lit('-'), Num(Month), Lit('-'), Num(Day), Lit('_'),
     Num(Hour), Lit('-'), Num(Minute), Lit('-'), Num(Second)]

  /** `creation_date.strftime("%Y-%m-%d_%H-%M-%S")` */
  function FormatStamp(d: DateTime): string
  {
    Render(StampFormat, d)
  }

  lemma {:induction false} RenderWithoutChar(fmt: seq<Item>, d: DateTime, c: char)
    requires Lit(c) !in fmt && !IsDigit(c) && c != ' '
    ensures c !in Render(fmt, d)
  {
    if fmt != [] {
      assert fmt[0] in fmt;
      assert forall x | x in fmt[1..] :: x in fmt;
      RenderWithoutChar(fmt[1..], d, c);
      if fmt[0].Num? {
        var z := ZeroPad(Get(d, fmt[0].field), Width(fmt[0].field));
        assert forall i | 0 <= i < |z| :: z[i] != c;
      }
    }
  }

  /** A stamp is never empty, starts with a digit and holds no dot, slash or blank. */
  lemma {:induction false} StampShape(d: DateTime)
    ensures var s := FormatStamp(d); |s| >= 4 && IsDigit(s[0]) && '.' !in s && '/' !in s
  {
    RenderWithoutChar(StampFormat, d, '.');
    RenderWithoutChar(StampFormat, d, '/');
    var y := ZeroPad(d.year, 4);
    assert FormatStamp(d) == y + Render(StampFormat[1..], d);
  }

  /** A valid date comes back out of its stamp: the name records the date exactly. */
  lemma {:induction false} StampRoundTrip(d: DateTime)
    requires Valid(d)
    ensures Strptime(StampFormat, FormatStamp(d)) == Some(d)
  {
    var f := StampFormat;
    assert BlanksBeforeFields(f);
    StrptimeRender(f, d);
    assert f[0] == Num(Year) && f[2] == Num(Month) && f[4] == Num(Day);
    assert f[6] == Num(Hour) && f[8] == Num(Minute) && f[10] == Num(Second);
    ApplyGet(f, d, Defaults, Year);
    ApplyGet(f, d, Defaults, Month);
    ApplyGet(f, d, Defaults, Day);
    ApplyGet(f, d, Defaults, Hour);
    ApplyGet(f, d, Defaults, Minute);
    ApplyGet(f, d, Defaults, Second);
  }

  /** Distinct valid dates get distinct stamps. */
  lemma {:induction false} StampInjective(d1: DateTime, d2: DateTime)
    requires Valid(d1) && Valid(d2) && FormatStamp(d1) == FormatStamp(d2)
    ensures d1 == d2
  {
    StampRoundTrip(d1);
    StampRoundTrip(d2);
  }

  /** The year directory `YYYY`. */
  function YearDir(d: DateTime): string
  {
    ZeroPad(d.year, 4)
  }

  /** The month directory `YYYY_MM`. */
  function MonthDir(d: DateTime): string
  {
    ZeroPad(d.year, 4) + "_" + ZeroPad(d.month, 2)
  }

  /**
   * `_generate_target_path`: the stamp plus the lower-cased suffix, beside
   * the original in rename-only mode, under `output_dir/YYYY/YYYY_MM`
   * otherwise.
   */
  function GenerateTargetPath(c: Config, p: Path, d: DateTime): (t: Path)
    ensures Name(t) == FormatStamp(d) + Lower(Suffix(p))
    ensures c.renameOnly ==> Parent(t) == Parent(p)
    ensures !c.renameOnly ==> Parent(t) == c.outputDir + [YearDir(d), MonthDir(d)]
  {
    StampShape(d);
    var name := FormatStamp(d) + Lower(Suffix(p));
    assert name[0] == FormatStamp(d)[0];
    if c.renameOnly then Parent(p) + [name]
    else c.outputDir + [YearDir(d), MonthDir(d)] + [name]
  }

  /** `Lower` keeps the shape of a suffix: one leading dot and no other. */
  lemma {:induction false} LowerSuffixShape(suf: string)
    requires suf == [] || (suf[0] == '.' && |suf| >= 2 && '.' !in suf[1..])
    ensures var l := Lower(suf); l == [] || (l[0] == '.' && |l| >= 2 && '.' !in l[1..])
  {
    var l := Lower(suf);
    if suf != [] {
      forall i | 1 <= i < |l| ensures l[i] != '.' {
        assert suf[i] == suf[1..][i - 1];
      }
    }
  }

  /**
   * The target keeps the original's extension, lower-cased, behind the
   * stamp, and the stamp in front of it parses back to the date.
   */
  lemma {:induction false} TargetNameParts(c: Config, p: Path, d: DateTime)
    ensures var t := GenerateTargetPath(c, p, d);
      Stem(t) == FormatStamp(d) && Suffix(t) == Lower(Suffix(p))
    ensures Valid(d) ==> Strptime(StampFormat, Stem(GenerateTargetPath(c, p, d))) == Some(d)
  {
    var t := GenerateTargetPath(c, p, d);
    var s := FormatStamp(d);
    var suf := Lower(Suffix(p));
    var name := s + suf;
    StampShape(d);
    LowerSuffixShape(Suffix(p));
    assert Name(t) == name;
    if suf == [] {
      assert name == s;
      assert LastDot(name) == -1;
    } else {
      assert name[|s|] == '.';
      forall j | |s| < j < |name| ensures name[j] != '.' {
        assert name[j] == suf[1..][j - |s| - 1];
      }
      assert LastDot(name) == |s|;
      assert name[|s|..] == suf && name[..|s|] == s;
    }
    if Valid(d) {
      StampRoundTrip(d);
    }
  }

  /** Files in the same place with the same extension but different dates get different targets. */
  lemma {:induction false} TargetInjective(c: Config, p: Path, q: Path, d1: DateTime, d2: DateTime)
    requires Valid(d1) && Valid(d2) && Lower(Suffix(p)) == Lower(Suffix(q))
    requires GenerateTargetPath(c, p, d1) == GenerateTargetPath(c, q, d2)
    ensures d1 == d2
  {
    TargetNameParts(c, p, d1);
    TargetNameParts(c, q, d2);
    StampInjective(d1, d2);
  }

  /** A target is supported exactly when its original is. */
  lemma {:induction false} TargetKeepsSupport(c: Config, p: Path, d: DateTime)
    ensures IsSupportedExtension(c, GenerateTargetPath(c, p, d)) == IsSupportedExtension(c, p)
  {
    TargetNameParts(c, p, d);
    var t := GenerateTargetPath(c, p, d);
    var suf := Suffix(p);
    if suf != [] {
      LowerTail(suf);
    }
    SupportedExtensionMeaning(c, t);
    SupportedExtensionMeaning(c, p);
  }

  lemma {:induction false} LowerTail(s: string)
    requires s != []
    ensures Lower(Lower(s)[1..]) == Lower(s[1..])
  {
  }

  /** A directory pair `YYYY` / `YYYY-??`. */
  predicate YearMonthPair(year: string, month: string)
  {
    |year| == 4 && AllDigits(year) && |month| == 7 && StartsWith(month, year + "-")
  }

  /**
   * `_is_in_archive_structure`: some directory component (the file name
   * excluded) is a four-digit year and the next one, also a directory, is
   * that year, a hyphen and two more characters.
   */
  predicate IsInArchiveStructure(p: Path)
  {
    exists i | 0 <= i && i + 2 < |p| :: YearMonthAt(p, i)
  }

  /** Components `i` and `i + 1` of `p` form a `YYYY` / `YYYY-??` pair. */
  predicate YearMonthAt(p: Path, i: int)
    requires 0 <= i && i + 1 < |p|
  {
    YearMonthPair(p[i], p[i + 1])
  }

  /**
   * The organizer's own `YYYY/YYYY_MM` layout is not recognised: one of its
   * targets is in archive structure only when the output directory itself
   * holds such a pair.
   */
  lemma {:induction false} OwnLayoutNotRecognised(c: Config, p: Path, d: DateTime)
    requires !c.renameOnly && Valid(d)
    ensures IsInArchiveStructure(GenerateTargetPath(c, p, d))
            <==> exists i | 0 <= i && i + 1 < |c.outputDir| :: YearMonthAt(c.outputDir, i)
  {
    var t := GenerateTargetPath(c, p, d);
    var y, m, n := YearDir(d), MonthDir(d), FormatStamp(d) + Lower(Suffix(p));
    assert t == c.outputDir + [y, m] + [n];
    assert t == c.outputDir + [y, m, n];
    FourDigits(d.year);
    assert m[4] == '_';
    ExtensionPairs(c.outputDir, y, m, n);
  }

  /**
   * Three components after `o`, the first of four characters and not
   * starting a pair with the second: a pair of the whole lies inside `o`.
   */
  lemma {:induction false} ExtensionPairs(o: Path, y: string, m: string, n: string)
    requires |y| == 4 && !YearMonthPair(y, m)
    ensures IsInArchiveStructure(o + [y, m, n]) <==> exists i | 0 <= i && i + 1 < |o| :: YearMonthAt(o, i)
  {
    var t := o + [y, m, n];
    if IsInArchiveStructure(t) {
      var i :| 0 <= i && i + 2 < |t| && YearMonthAt(t, i);
      assert i != |o| && i + 1 != |o|;
      assert t[i] == o[i] && t[i + 1] == o[i + 1];
      assert YearMonthAt(o, i);
    }
    if exists i | 0 <= i && i + 1 < |o| :: YearMonthAt(o, i) {
      var i :| 0 <= i && i + 1 < |o| && YearMonthAt(o, i);
      assert t[i] == o[i] && t[i + 1] == o[i + 1];
      assert YearMonthAt(t, i);
    }
  }

  /** The hyphenated `YYYY/YYYY-MM` layout is recognised wherever it sits. */
  lemma {:induction false} HyphenLayoutRecognised(dir: Path, d: DateTime, name: string)
    requires Valid(d)
    ensures IsInArchiveStructure(dir + [YearDir(d), YearDir(d) + "-" + ZeroPad(d.month, 2), name])
  {
    FourDigits(d.year);
    TwoDigits(d.month);
    var p := dir + [YearDir(d), YearDir(d) + "-" + ZeroPad(d.month, 2), name];
    assert YearMonthAt(p, |dir|);
  }

  /** `path.resolve()` on a path without symbolic links or `..`: relative paths are taken from `cwd`. */
  function Resolve(cwd: Path, p: Path): (r: Path)
    ensures IsAbsolute(cwd) ==> IsAbsolute(r)
  {
    if IsAbsolute(p) then p else cwd + p
  }

  /** `_is_inside_archive_dir`: `archive in file.parents or file == archive`. */
  function IsInsideArchiveDir(f: Path, archive: Path): (r: bool)
    ensures IsAbsolute(f) && IsAbsolute(archive) ==> (r <==> |archive| <= |f| && f[..|archive|] == archive)
  {
    IsAncestor(archive, f) || f == archive
  }

  /** Every archive target resolves inside the resolved output directory. */
  lemma {:induction false} TargetInsideArchive(c: Config, cwd: Path, p: Path, d: DateTime)
    requires IsAbsolute(cwd) && !c.renameOnly
    ensures IsInsideArchiveDir(Resolve(cwd, GenerateTargetPath(c, p, d)), Resolve(cwd, c.outputDir))
  {
    var t := GenerateTargetPath(c, p, d);
    var y := YearDir(d);
    assert t == c.outputDir + [y, MonthDir(d), Name(t)];
    assert y != "/" by {
      assert y[0] != '/';
    }
    ExtensionInside(cwd, c.outputDir, [y, MonthDir(d), Name(t)]);
  }

  /** A path extended by components, the first not the root, resolves inside the resolved original. */
  lemma {:induction false} ExtensionInside(cwd: Path, o: Path, more: Path)
    requires IsAbsolute(cwd) && more != [] && more[0] != "/"
    ensures IsInsideArchiveDir(Resolve(cwd, o + more), Resolve(cwd, o))
  {
    var t := o + more;
    if IsAbsolute(o) {
      assert t[0] == o[0];
      assert t[..|o|] == o;
    } else {
      assert t[0] == more[0] || t[0] == o[0];
      assert !IsAbsolute(t);
      assert cwd + t == (cwd + o) + more;
      assert (cwd + t)[..|cwd + o|] == cwd + o;
    }
  }

  // ---------------------------------------------------------------------
  // Duplicate names

  /** `parent / f"{stem}_{i:03d}{suffix}"` */
  function Candidate(t: Path, i: nat): Path
  {
    Parent(t) + [Stem(t) + "_" + ZeroPad(i, 3) + Suffix(t)]
  }

  /** The candidates `_001`, `_002`, ... are pairwise distinct. */
  lemma {:induction false} CandidatesDistinct(t: Path, i: nat, j: nat)
    requires Candidate(t, i) == Candidate(t, j)
    ensures i == j
  {
    var a := Stem(t) + "_";
    var s := Suffix(t);
    var n1 := a + ZeroPad(i, 3) + s;
    var n2 := a + ZeroPad(j, 3) + s;
    assert n1 == Candidate(t, i)[|Parent(t)|];
    assert n2 == Candidate(t, j)[|Parent(t)|];
    assert n1[|a|..|n1| - |s|] == ZeroPad(i, 3);
    assert n2[|a|..|n2| - |s|] == ZeroPad(j, 3);
    ZeroPadInjective(i, j, 3);
  }

  /** A `_NNN` candidate sits beside its target, so it too resolves inside the output directory. */
  lemma {:induction false} CandidateInsideArchive(c: Config, cwd: Path, p: Path, d: DateTime, i: nat)
    requires IsAbsolute(cwd) && !c.renameOnly
    ensures IsInsideArchiveDir(Resolve(cwd, Candidate(GenerateTargetPath(c, p, d), i)), Resolve(cwd, c.outputDir))
  {
    var o := c.outputDir;
    var t := GenerateTargetPath(c, p, d);
    var x := Candidate(t, i);
    var y := YearDir(d);
    assert x == o + [y, MonthDir(d), x[|o| + 2]];
    assert y[0] != '/';
    assert y != "/";
    if IsAbsolute(o) {
      assert x[0] == o[0];
      assert x[..|o|] == o;
    } else {
      assert !IsAbsolute(x);
      assert (cwd + x)[..|cwd + o|] == cwd + o;
    }
  }

  /** Cardinality of sets of paths: a subset is no larger. */
  lemma {:induction false} SubsetNoLarger(a: set<Path>, b: set<Path>)
    requires a <= b
    ensures |a| <= |b|
  {
    if a != {} {
      var x :| x in a;
      SubsetNoLarger(a - {x}, b - {x});
    }
  }

  /** A set inside another plus one element is at most one larger. */
  lemma {:induction false} AtMostOneMore(a: set<Path>, b: set<Path>, x: Path)
    requires b <= a + {x}
    ensures |b| <= |a| + 1
  {
    SubsetNoLarger(b, a + {x});
  }

  /** A subset missing one element of the larger set is smaller by at least one. */
  lemma {:induction false} AtLeastOneMore(a: set<Path>, b: set<Path>, x: Path)
    requires a <= b && x in b && x !in a
    ensures |a| + 1 <= |b|
  {
    SubsetNoLarger(a + {x}, b);
  }

  // ---------------------------------------------------------------------
  // Outcomes

  /** A row of the `processed_files` table. */
  datatype LedgerEntry = LedgerEntry(checksum: string, newPath: Path, size: nat)

  type Ledger = map<Path, LedgerEntry>

  /** What `_is_already_processed` finds; `LookupRaised` when checksumming raises. */
  datatype Lookup = Processed(previous: Path) | NotProcessed | LookupRaised

  /** The conflict kinds of `_handle_existing_file`. */
  datatype Conflict = NoConflict | DuplicateFile | NameConflict

  datatype Action = Skipped | Moved | Copied | Renamed | DryRun

  /** The exceptions `process_file` turns into its reason. */
  datatype Failure =
    | ReadFailed(path: Path)                                 // opening the file for a checksum
    | TooManyDuplicates(target: Path)                        // `_find_safe_target_path` ran out of names
    | TransferFailed(action: Action, source: Path, target: Path)  // "Safe rename/copy/move failed"

  datatype Reason =
    | NoReason | UnsupportedExtension | AlreadyProcessed | AlreadyInArchive
    | NoCreationDate | Duplicate | Error(failure: Failure)

  /** The dictionary `process_file` returns. */
  datatype FileResult = FileResult(success: bool, action: Action, reason: Reason,
                                   target: Option<Path>, checksum: Option<string>)

  /** The counters of `process_directory`. */
  datatype Counts = Counts(processed: nat, skipped: nat, duplicates: nat, errors: nat)

  /**
   * One file's contribution to the counters: a success counts as
   * processed, a duplicate or an already processed file as a duplicate,
   * the three skip reasons as skipped, anything else as an error.
   */
  function Tally(c: Counts, r: FileResult): (n: Counts)
    ensures r.success && r.action.Skipped? ==> n == c
    ensures !(r.success && r.action.Skipped?) ==>
              n.processed + n.skipped + n.duplicates + n.errors == c.processed + c.skipped + c.duplicates + c.errors + 1
              && n.processed >= c.processed && n.skipped >= c.skipped
              && n.duplicates >= c.duplicates && n.errors >= c.errors
    ensures n.processed > c.processed <==> r.success && !r.action.Skipped?
    ensures n.duplicates > c.duplicates <==> !r.success && (r.reason.Duplicate? || r.reason.AlreadyProcessed?)
    ensures n.skipped > c.skipped <==>
              !r.success && (r.reason.UnsupportedExtension? || r.reason.AlreadyInArchive? || r.reason.NoCreationDate?)
    ensures n.errors > c.errors <==> !r.success && (r.reason.NoReason? || r.reason.Error?)
  {
    if r.success then
      if r.action.Skipped? then c else c.(processed := c.processed + 1)
    else if r.reason.Duplicate? || r.reason.AlreadyProcessed? then c.(duplicates := c.duplicates + 1)
    else if r.reason.UnsupportedExtension? || r.reason.AlreadyInArchive? || r.reason.NoCreationDate? then
      c.(skipped := c.skipped + 1)
    else c.(errors := c.errors + 1)
  }

  /** The reasons `process_directory` counts as skipped. */
  predicate SkipReason(reason: Reason)
  {
    reason.UnsupportedExtension? || reason.AlreadyInArchive? || reason.NoCreationDate?
  }

  /** The reasons `process_directory` counts as duplicates. */
  predicate DuplicateReason(reason: Reason)
  {
    reason.Duplicate? || reason.AlreadyProcessed?
  }

  /** `input_dir.rglob(f"*.{ext}")`: the name ends with a dot and the extension. */
  predicate GlobMatches(name: string, ext: string)
  {
    EndsWith(name, "." + ext) || EndsWith(name, "." + Upper(ext))
  }

  // ---------------------------------------------------------------------
  // The organizer

  class PhotoOrganizer {
    const config: Config
    const fs: FileSystem
    const ops: FileOperations
    /** `MetadataExtractor.get_creation_date`, which never raises. */
    const creationDate: Path -> Option<DateTime>
    /** The directory `Path.resolve` completes relative paths from. */
    const cwd: Path
    /** The `processed_files` table, keyed by the original path. */
    var ledger: Ledger

    /** The file operations work on the same settings and files as the organizer. */
    predicate Valid()
    {
      ops.config == config && ops.fs == fs && IsAbsolute(cwd)
    }

    constructor (config: Config, fs: FileSystem, creationDate: Path -> Option<DateTime>,
                 cwd: Path, ledger: Ledger)
      requires IsAbsolute(cwd)
      ensures Valid()
      ensures this.config == config && this.fs == fs && this.creationDate == creationDate
      ensures this.cwd == cwd && this.ledger == ledger
    {
      this.config := config;
      this.fs := fs;
      this.creationDate := creationDate;
      this.cwd := cwd;
      this.ledger := ledger;
      this.ops := new FileOperations(config, fs);
    }

    /** `_get_file_checksum`: the SHA-256 digest of the file, `None` where opening it raises. */
    function Checksum(p: Path): (r: Option<string>)
      reads fs
      ensures r.Some? <==> p in fs.files && p !in fs.unreadable
      ensures r.Some? ==> r.value == fs.sha256(fs.files[p])
    {
      match fs.Read(p)
      case Some(bytes) => Some(fs.sha256(bytes))
      case None => None
    }

    /**
     * `_is_already_processed`: processed exactly when the file exists, the
     * ledger has an entry for its path, and the stored checksum is the
     * current one.
     */
    function IsAlreadyProcessed(p: Path): (r: Lookup)
      reads this, fs
      ensures r.Processed? <==> fs.Exists(p) && Checksum(p).Some? && p in ledger
                                && ledger[p].checksum == Checksum(p).value
      ensures r.Processed? ==> r.previous == ledger[p].newPath
      ensures r.LookupRaised? <==> fs.Exists(p) && Checksum(p).None?
    {
      if !fs.Exists(p) then NotProcessed
      else match Checksum(p)
        case None => LookupRaised
        case Some(current) =>
          if p in ledger && ledger[p].checksum == current then Processed(ledger[p].newPath)
          else NotProcessed
    }

    /**
     * `_mark_as_processed`: `INSERT OR REPLACE` of the row for `p`; marking
     * a file with its current checksum makes it count as processed.
     */
    method MarkAsProcessed(p: Path, checksum: string, newPath: Path, size: nat)
      modifies this
      ensures ledger == old(ledger)[p := LedgerEntry(checksum, newPath, size)]
      ensures ledger.Keys == old(ledger.Keys) + {p}
      ensures Checksum(p) == Some(checksum) ==> IsAlreadyProcessed(p) == Processed(newPath)
    {
      ledger := ledger[p := LedgerEntry(checksum, newPath, size)];
    }

    /**
     * `_handle_existing_file`: no conflict when the target is absent, a
     * duplicate when both checksums agree, a name conflict otherwise;
     * `None` when checksumming either file raises.
     */
    function HandleExistingFile(source: Path, target: Path): (r: Option<(bool, Conflict)>)
      reads fs
      ensures !fs.Exists(target) ==> r == Some((true, NoConflict))
      ensures fs.Exists(target) ==> (r.None? <==> Checksum(source).None? || Checksum(target).None?)
      ensures r.Some? ==> (r.value.0 <==> r.value.1 != DuplicateFile)
      ensures r == Some((false, DuplicateFile)) <==>
                fs.Exists(target) && Checksum(source).Some? && Checksum(source) == Checksum(target)
    {
      if !fs.Exists(target) then Some((true, NoConflict))
      else
        match Checksum(source)
        case None => None
        case Some(s) =>
          match Checksum(target)
          case None => None
          case Some(t) => if s == t then Some((false, DuplicateFile)) else Some((true, NameConflict))
    }

    /** With a collision-free digest, a duplicate is a file holding the very same bytes. */
    lemma {:induction false} DuplicateMeansSameBytes(source: Path, target: Path)
      requires forall a: Bytes, b: Bytes :: fs.sha256(a) == fs.sha256(b) ==> a == b
      ensures HandleExistingFile(source, target) == Some((false, DuplicateFile)) <==>
                fs.Read(source).Some? && fs.Read(target).Some? && fs.Read(source) == fs.Read(target)
    {
      if fs.Read(source).Some? && fs.Read(target).Some? {
        assert Checksum(source) == Checksum(target) ==> fs.files[source] == fs.files[target];
      }
    }

    /**
     * `_find_safe_target_path`: the target itself when it is free,
     * otherwise the first free `stem_001.suffix` ... up to
     * `max_duplicate_suffix`; `None` (the `ValueError`) when all are taken.
     */
    method FindSafeTargetPath(target: Path) returns (r: Option<Path>, ghost n: nat)
      ensures !fs.Exists(target) ==> r == Some(target)
      ensures r.Some? ==> !fs.Exists(r.value)
      // otherwise the first free candidate, all those before it taken
      ensures fs.Exists(target) && r.Some? ==>
                1 <= n <= config.maxDuplicateSuffix && r.value == Candidate(target, n)
      ensures fs.Exists(target) ==> forall j: nat | 1 <= j < n :: fs.Exists(Candidate(target, j))
      ensures r.None? <==>
                fs.Exists(target) && forall i: nat | 1 <= i <= config.maxDuplicateSuffix :: fs.Exists(Candidate(target, i))
    {
      if !fs.Exists(target) {
        return Some(target), 0;
      }
      var i: nat := 1;
      while i <= config.maxDuplicateSuffix
        invariant i == 1 || i <= config.maxDuplicateSuffix + 1
        invariant forall j: nat | 1 <= j < i :: fs.Exists(Candidate(target, j))
        decreases config.maxDuplicateSuffix - i
      {
        var c := Candidate(target, i);
        if !fs.Exists(c) {
          return Some(c), i;
        }
        i := i + 1;
      }
      return None, i;
    }

    /** `_is_inside_archive_dir(file, output_dir)` as `process_directory` asks it. */
    predicate InOutputDir(q: Path)
    {
      IsInsideArchiveDir(Resolve(cwd, q), Resolve(cwd, config.outputDir))
    }

    /**
     * Where `process_file` puts a file whose generated target is `t`: at
     * `t` when it is free, otherwise at the first free `_NNN` candidate,
     * all candidates before it being taken.
     */
    predicate Placed(t: Path, target: Path)
      reads fs
    {
      if !fs.Exists(t) then target == t
      else exists i: nat | 1 <= i <= config.maxDuplicateSuffix && FirstFree(t, i) :: target == Candidate(t, i)
    }

    /** Candidate `i` is free and every candidate before it is taken. */
    predicate FirstFree(t: Path, i: nat)
      reads fs
    {
      1 <= i <= config.maxDuplicateSuffix && !fs.Exists(Candidate(t, i))
      && forall j: nat | 1 <= j < i :: fs.Exists(Candidate(t, j))
    }

    /** A generated target leaves no choice: the place is unique. */
    lemma {:induction false} PlacedUnique(t: Path, a: Path, b: Path)
      requires Placed(t, a) && Placed(t, b)
      ensures a == b
    {
      if fs.Exists(t) {
        var i: nat :| 1 <= i <= config.maxDuplicateSuffix && FirstFree(t, i) && a == Candidate(t, i);
        var k: nat :| 1 <= k <= config.maxDuplicateSuffix && FirstFree(t, k) && b == Candidate(t, k);
        FirstFreeUnique(t, i, k);
      }
    }

    /** Only one candidate is the first free one. */
    lemma {:induction false} FirstFreeUnique(t: Path, i: nat, k: nat)
      requires FirstFree(t, i) && FirstFree(t, k)
      ensures i == k
    {
      // each is free, so neither lies before the other
      assert !fs.Exists(Candidate(t, i)) && !fs.Exists(Candidate(t, k));
    }

    /** Outside rename-only mode the place is inside the output directory. */
    lemma {:induction false} PlacedInsideArchive(p: Path, d: DateTime, x: Path)
      requires Valid() && !config.renameOnly && Placed(GenerateTargetPath(config, p, d), x)
      ensures InOutputDir(x)
    {
      var t := GenerateTargetPath(config, p, d);
      if !fs.Exists(t) {
        TargetInsideArchive(config, cwd, p, d);
      } else {
        var i: nat :| 1 <= i <= config.maxDuplicateSuffix && FirstFree(t, i) && x == Candidate(t, i);
        CandidateInsideArchive(config, cwd, p, d, i);
      }
    }

    /**
     * A file `process_file` turns away, judged on the given contents and
     * ledger: unsupported, in a dated layout, without a creation date,
     * missing or unreadable, recorded with its current checksum, or equal
     * by checksum to the file already at its target.
     */
    predicate SettledIn(files: map<Path, Bytes>, led: Ledger, q: Path)
    {
      || !IsSupportedExtension(config, q) || IsInArchiveStructure(q) || creationDate(q).None?
      || q !in files || q in fs.unreadable
      || RecordedIn(files, led, q)
      || var t := GenerateTargetPath(config, q, creationDate(q).value);
         t in files && t !in fs.unreadable && fs.sha256(files[t]) == fs.sha256(files[q])
    }

    /**
     * A settled file stays settled while no existing file changes, no file
     * appears at its path and no current ledger row goes stale.
     */
    lemma {:induction false} SettledStable(files0: map<Path, Bytes>, led0: Ledger,
                                           files1: map<Path, Bytes>, led1: Ledger, q: Path)
      requires SettledIn(files0, led0, q)
      requires forall x | x in files0 :: x in files1 && files1[x] == files0[x]
      requires q !in files0 ==> q !in files1
      requires RecordedIn(files0, led0, q) ==> RecordedIn(files1, led1, q)
      ensures SettledIn(files1, led1, q)
    {
      if IsSupportedExtension(config, q) && !IsInArchiveStructure(q) && creationDate(q).Some?
         && q in files0 && q !in fs.unreadable && !RecordedIn(files0, led0, q) {
        var t := GenerateTargetPath(config, q, creationDate(q).value);
        assert t in files0;
        assert files1[t] == files0[t] && files1[q] == files0[q];
      }
    }

    /** Inside a dated layout or without a creation date: `process_file` has no target for `q`. */
    predicate NotPlaceable(q: Path)
    {
      IsInArchiveStructure(q) || creationDate(q).None?
    }

    /** Checksumming `q` raises: it exists, but as a directory or an unreadable file. */
    predicate RaisesIn(files: map<Path, Bytes>, dirs: set<Path>, q: Path)
    {
      (q in files || q in dirs) && (q !in files || q in fs.unreadable)
    }

    /** `q` and the file at its generated target are readable and have the same checksum. */
    predicate SameAtTarget(files: map<Path, Bytes>, q: Path)
    {
      && creationDate(q).Some?
      && var t := GenerateTargetPath(config, q, creationDate(q).value);
         q in files && q !in fs.unreadable && t in files && t !in fs.unreadable
         && fs.sha256(files[t]) == fs.sha256(files[q])
    }

    /**
     * `process_file` skips `q`, judged on the given state: its extension is
     * unsupported, or the lookup lets it through and it has no target.
     */
    predicate SkipIn(files: map<Path, Bytes>, dirs: set<Path>, led: Ledger, q: Path)
    {
      || !IsSupportedExtension(config, q)
      || (NotPlaceable(q) && !RecordedIn(files, led, q) && !RaisesIn(files, dirs, q))
    }

    /**
     * `process_file` counts `q` as a duplicate, judged on the given state:
     * a supported file recorded already, or one equal by checksum to the
     * file at its target.
     */
    predicate DupIn(files: map<Path, Bytes>, led: Ledger, q: Path)
    {
      IsSupportedExtension(config, q) && (RecordedIn(files, led, q) || (!NotPlaceable(q) && SameAtTarget(files, q)))
    }

    /** `process_file` turns `q` away without an error and without writing anything. */
    predicate QuietIn(files: map<Path, Bytes>, dirs: set<Path>, led: Ledger, q: Path)
    {
      SkipIn(files, dirs, led, q) || DupIn(files, led, q)
    }

    /** Every file of `xs` is turned away quietly in the given state. */
    ghost predicate AllQuiet(xs: seq<Path>, files: map<Path, Bytes>, dirs: set<Path>, led: Ledger)
    {
      forall q | q in xs :: QuietIn(files, dirs, led, q)
    }

    /**
     * Whether `q` is skipped does not change from one state to another in
     * which every file is kept, no file or directory appears at `q`, every
     * recorded file stays recorded and, when `q` has no target, it is
     * recorded only if it was before; a quiet `q` stays quiet.
     */
    lemma {:induction false} ClassStable(files0: map<Path, Bytes>, dirs0: set<Path>, led0: Ledger,
                                         files1: map<Path, Bytes>, dirs1: set<Path>, led1: Ledger, q: Path)
      requires forall x | x in files0 :: x in files1 && files1[x] == files0[x]
      requires q !in files0 ==> q !in files1
      requires q in dirs1 <==> q in dirs0
      requires forall x | RecordedIn(files0, led0, x) :: RecordedIn(files1, led1, x)
      requires NotPlaceable(q) && RecordedIn(files1, led1, q) ==> RecordedIn(files0, led0, q)
      ensures SkipIn(files0, dirs0, led0, q) <==> SkipIn(files1, dirs1, led1, q)
      ensures QuietIn(files0, dirs0, led0, q) ==> QuietIn(files1, dirs1, led1, q)
    {
      if SameAtTarget(files0, q) {
        var t := GenerateTargetPath(config, q, creationDate(q).value);
        assert files1[t] == files0[t] && files1[q] == files0[q];
      }
    }

    /**
     * One turn of the copy-mode loop, processing `p`, keeps the class of
     * every file `q` outside the output directory, once all the output
     * directory's ancestors exist.
     */
    lemma {:induction false} OutsideStable(p: Path, filesPre: map<Path, Bytes>, dirsPre: set<Path>, ledgerPre: Ledger,
                                           cur: map<Path, Bytes>, dirs: set<Path>, led: Ledger, q: Path)
      requires !InOutputDir(q) && TurnKeeps(p, filesPre, dirsPre, ledgerPre, cur, dirs, led)
      ensures SkipIn(filesPre, dirsPre, ledgerPre, q) <==> SkipIn(cur, dirs, led, q)
      ensures QuietIn(filesPre, dirsPre, ledgerPre, q) ==> QuietIn(cur, dirs, led, q)
    {
      if AboveOutput(q) {
        assert config.outputDir[..|q|] in dirsPre;
      }
      if q != p && NotPlaceable(q) && RecordedIn(cur, led, q) {
        assert q in ledgerPre;
      }
      ClassStable(filesPre, dirsPre, ledgerPre, cur, dirs, led, q);
    }

    /**
     * What a copy-mode turn processing `p` keeps, once every ancestor of
     * the output directory exists: files keep their bytes and new ones lie
     * in the output directory, new directories lie in it too, recorded
     * files stay recorded, and the ledger changes only at `p`, and not
     * there when `p` has no target.
     */
    ghost predicate TurnKeeps(p: Path, filesPre: map<Path, Bytes>, dirsPre: set<Path>, ledgerPre: Ledger,
                              cur: map<Path, Bytes>, dirs: set<Path>, led: Ledger)
    {
      && AboveOutputExists(dirsPre) && DirsPlaced(dirsPre, dirs) && !config.renameOnly
      && (forall x | x in filesPre :: x in cur && cur[x] == filesPre[x])
      && (forall x | x in cur && x !in filesPre :: InOutputDir(x))
      && (forall x | RecordedIn(filesPre, ledgerPre, x) :: RecordedIn(cur, led, x))
      && (forall x | x in ledgerPre && x != p :: x in led && led[x] == ledgerPre[x])
      && (forall x | x in led && x !in ledgerPre :: x == p)
      && (NotPlaceable(p) ==> led == ledgerPre)
    }

    /** A copy-mode turn keeps what `TurnKeeps` says, once the output directory's ancestors exist. */
    lemma {:induction false} KeepsFromStep(p: Path, dirs0: set<Path>, filesPre: map<Path, Bytes>, dirsPre: set<Path>,
                                           ledgerPre: Ledger, before: Counts, cur: map<Path, Bytes>, dirs: set<Path>,
                                           led: Ledger, after: Counts)
      requires Copying() && AboveOutputExists(dirs0) && DirsPlaced(dirs0, dirsPre)
      requires StepFacts(p, filesPre, ledgerPre, before, cur, led, after)
      requires ClassFacts(p, filesPre, dirsPre, ledgerPre, before, cur, dirs, led, after)
      ensures TurnKeeps(p, filesPre, dirsPre, ledgerPre, cur, dirs, led)
    {
      forall j | 0 < j < |config.outputDir| ensures config.outputDir[..j] in dirsPre {
        assert config.outputDir[..j] in dirs0;
      }
      forall x | x in filesPre ensures x in cur && cur[x] == filesPre[x] {
        if x != p {
          assert x in filesPre && x != p;
        }
      }
    }

    /** The skipped count after one more turn is what the new state skips among the files so far. */
    lemma {:induction false} AdvanceSkips(files: seq<Path>, k: nat, filesPre: map<Path, Bytes>, dirsPre: set<Path>,
                                          ledgerPre: Ledger, before: Counts, cur: map<Path, Bytes>, dirs: set<Path>,
                                          led: Ledger, after: Counts)
      requires k < |files| && AllOutside(files)
      requires TurnKeeps(files[k], filesPre, dirsPre, ledgerPre, cur, dirs, led)
      requires before.skipped == CountSkip(files[..k], filesPre, dirsPre, ledgerPre)
      requires after.skipped > before.skipped <==> SkipIn(filesPre, dirsPre, ledgerPre, files[k])
      requires before.skipped <= after.skipped <= before.skipped + 1
      ensures after.skipped == CountSkip(files[..k + 1], cur, dirs, led)
    {
      SkipsKept(files, k, filesPre, dirsPre, ledgerPre, cur, dirs, led);
      CountSkipStable(files[..k], filesPre, dirsPre, ledgerPre, cur, dirs, led);
      CountSkipNext(files, k, cur, dirs, led);
    }

    /** One turn keeps which of the files up to and including the current one are skipped. */
    lemma {:induction false} SkipsKept(files: seq<Path>, k: nat, filesPre: map<Path, Bytes>, dirsPre: set<Path>,
                                       ledgerPre: Ledger, cur: map<Path, Bytes>, dirs: set<Path>, led: Ledger)
      requires k < |files| && AllOutside(files)
      requires TurnKeeps(files[k], filesPre, dirsPre, ledgerPre, cur, dirs, led)
      ensures forall q | q in files[..k] :: SkipIn(filesPre, dirsPre, ledgerPre, q) <==> SkipIn(cur, dirs, led, q)
      ensures SkipIn(filesPre, dirsPre, ledgerPre, files[k]) <==> SkipIn(cur, dirs, led, files[k])
    {
      var p := files[k];
      forall q | q in files[..k] ensures SkipIn(filesPre, dirsPre, ledgerPre, q) <==> SkipIn(cur, dirs, led, q) {
        assert q in files;
        OutsideStable(p, filesPre, dirsPre, ledgerPre, cur, dirs, led, q);
      }
      OutsideStable(p, filesPre, dirsPre, ledgerPre, cur, dirs, led, p);
    }

    /** Counting one more file adds one exactly when that file is skipped. */
    lemma {:induction false} CountSkipNext(files: seq<Path>, k: nat, cur: map<Path, Bytes>, dirs: set<Path>, led: Ledger)
      requires k < |files|
      ensures CountSkip(files[..k + 1], cur, dirs, led)
              == CountSkip(files[..k], cur, dirs, led) + if SkipIn(cur, dirs, led, files[k]) then 1 else 0
    {
      var xs := files[..k + 1];
      assert xs[..|xs| - 1] == files[..k];
    }

    /** Without errors so far, the files so far stay quiet after one more turn. */
    lemma {:induction false} AdvanceQuiet(files: seq<Path>, k: nat, filesPre: map<Path, Bytes>, dirsPre: set<Path>,
                                          ledgerPre: Ledger, before: Counts, cur: map<Path, Bytes>, dirs: set<Path>,
                                          led: Ledger, after: Counts)
      requires k < |files| && AllOutside(files)
      requires TurnKeeps(files[k], filesPre, dirsPre, ledgerPre, cur, dirs, led)
      requires before.errors == 0 ==> AllQuiet(files[..k], filesPre, dirsPre, ledgerPre)
      requires after.errors >= before.errors
      requires after.errors == before.errors ==> QuietIn(cur, dirs, led, files[k])
      ensures after.errors == 0 ==> AllQuiet(files[..k + 1], cur, dirs, led)
    {
      var p := files[k];
      if after.errors == 0 {
        PrefixStep(files, k);
        forall q | q in files[..k + 1] ensures QuietIn(cur, dirs, led, q) {
          if q != p {
            assert q in files[..k] && q in files;
            OutsideStable(p, filesPre, dirsPre, ledgerPre, cur, dirs, led, q);
          }
        }
      }
    }

    /** How many files of `xs` `process_file` skips, judged on the given state. */
    ghost function CountSkip(xs: seq<Path>, files: map<Path, Bytes>, dirs: set<Path>, led: Ledger): (n: nat)
      ensures n <= |xs|
      ensures n == |xs| <==> forall q | q in xs :: SkipIn(files, dirs, led, q)
      decreases |xs|
    {
      if xs == [] then 0
      else
        var init := xs[..|xs| - 1];
        assert xs == init + [xs[|xs| - 1]];
        CountSkip(init, files, dirs, led) + if SkipIn(files, dirs, led, xs[|xs| - 1]) then 1 else 0
    }

    /** States that skip the same files of `xs` count the same. */
    lemma {:induction false} CountSkipStable(xs: seq<Path>, files0: map<Path, Bytes>, dirs0: set<Path>, led0: Ledger,
                                             files1: map<Path, Bytes>, dirs1: set<Path>, led1: Ledger)
      requires forall q | q in xs :: SkipIn(files0, dirs0, led0, q) <==> SkipIn(files1, dirs1, led1, q)
      ensures CountSkip(xs, files0, dirs0, led0) == CountSkip(xs, files1, dirs1, led1)
      decreases |xs|
    {
      if xs != [] {
        var init := xs[..|xs| - 1];
        assert forall q | q in init :: q in xs;
        CountSkipStable(init, files0, dirs0, led0, files1, dirs1, led1);
      }
    }

    /**
     * The counter a result of `process_file` goes to follows from the state
     * its checks saw: skipped exactly when `SkipIn`, a duplicate exactly
     * when `DupIn`.
     */
    lemma {:induction false} DecidedCounters(p: Path)
      requires Valid()
      ensures forall r | Decided(p, r) ::
                && (SkipReason(r.reason) <==> SkipIn(fs.files, fs.dirs, ledger, p))
                && (DuplicateReason(r.reason) <==> DupIn(fs.files, ledger, p))
    {
      RecordedMeansProcessed(p);
      forall r | Decided(p, r)
        ensures SkipReason(r.reason) <==> SkipIn(fs.files, fs.dirs, ledger, p)
        ensures DuplicateReason(r.reason) <==> DupIn(fs.files, ledger, p)
      {
        if Eligible(p) && creationDate(p).Some? {
          var t := GenerateTargetPath(config, p, creationDate(p).value);
          assert HandleExistingFile(p, t) == Some((false, DuplicateFile)) <==> SameAtTarget(fs.files, p);
        }
      }
    }

    /**
     * Outside rename-only mode, the directories made for a target under
     * `output_dir/YYYY/YYYY_MM` are the output directory's own ancestors
     * or lie inside it.
     */
    /**
     * Directories are only added, and outside rename-only mode each new one
     * lies inside the output directory or above it.
     */
    predicate DirsPlaced(dirs0: set<Path>, dirs1: set<Path>)
    {
      && dirs0 <= dirs1
      && (!config.renameOnly ==>
            forall q | q in dirs1 && q !in dirs0 :: InOutputDir(q) || AboveOutput(q))
    }

    /** A proper ancestor of the output directory, which `mkdir(parents=True)` may create. */
    predicate AboveOutput(q: Path)
    {
      0 < |q| < |config.outputDir| && config.outputDir[..|q|] == q
    }

    /** Every proper ancestor of the output directory exists already. */
    predicate AboveOutputExists(dirs: set<Path>)
    {
      forall k | 0 < k < |config.outputDir| :: config.outputDir[..k] in dirs
    }

    /** Adding directories in two stages adds them as one stage does. */
    lemma {:induction false} DirsPlacedTrans(dirs0: set<Path>, dirs1: set<Path>, dirs2: set<Path>)
      requires DirsPlaced(dirs0, dirs1) && DirsPlaced(dirs1, dirs2)
      ensures DirsPlaced(dirs0, dirs2)
    {
    }

    lemma {:induction false} MadeDirsPlaced(x: Path, d: DateTime, dirs0: set<Path>)
      requires Valid()
      requires !config.renameOnly ==> Parent(x) == config.outputDir + [YearDir(d), MonthDir(d)]
      ensures DirsPlaced(dirs0, dirs0) && DirsPlaced(dirs0, dirs0 + Prefixes(Parent(x)))
    {
      if !config.renameOnly {
        forall q | q in Prefixes(Parent(x)) ensures InOutputDir(q) || AboveOutput(q) {
          MadeDirPlaced(x, d, q);
        }
      }
    }

    lemma {:induction false} MadeDirPlaced(x: Path, d: DateTime, q: Path)
      requires Valid() && !config.renameOnly
      requires Parent(x) == config.outputDir + [YearDir(d), MonthDir(d)]
      requires q in Prefixes(Parent(x))
      ensures InOutputDir(q) || AboveOutput(q)
    {
      var o := config.outputDir;
      var y := YearDir(d);
      assert y[0] != '/';
      var k :| 1 <= k <= |Parent(x)| && q == Parent(x)[..k];
      if k == |o| {
        assert q == o;
      } else if k == |o| + 1 {
        assert q == o + [y];
        ExtensionInside(cwd, o, [y]);
      } else if k == |o| + 2 {
        assert q == o + [y, MonthDir(d)];
        ExtensionInside(cwd, o, [y, MonthDir(d)]);
      } else {
        assert q == o[..k];
      }
    }

    /**
     * A file that passes every check is settled only by being missing or
     * unreadable, which its transfer then meets.
     */
    lemma {:induction false} PassedUnsettled(p: Path)
      requires Eligible(p) && creationDate(p).Some?
      requires HandleExistingFile(p, GenerateTargetPath(config, p, creationDate(p).value)) != Some((false, DuplicateFile))
      ensures SettledIn(fs.files, ledger, p) ==> p !in fs.files || p in fs.unreadable
    {
    }

    /** The checks before the creation date all pass. */
    predicate Eligible(p: Path)
      reads this, fs
    {
      IsSupportedExtension(config, p) && IsAlreadyProcessed(p).NotProcessed? && !IsInArchiveStructure(p)
    }

    /**
     * The checks of `process_file` in their fixed order, as they bear on
     * the result `r`: an unsupported extension, a file processed already,
     * one inside an archive layout, one without a creation date, and a
     * duplicate of its target each stop it with that reason; a success
     * passed them all and names the free place its generated target
     * leads to.
     */
    predicate Decided(p: Path, r: FileResult)
      reads this, fs
    {
      && (!IsSupportedExtension(config, p) ==> r.reason == UnsupportedExtension)
      && (IsSupportedExtension(config, p) && IsAlreadyProcessed(p).Processed? ==>
            r.reason == AlreadyProcessed && r.target == Some(IsAlreadyProcessed(p).previous))
      && (IsSupportedExtension(config, p) && IsAlreadyProcessed(p).NotProcessed? && IsInArchiveStructure(p) ==>
            r.reason == AlreadyInArchive)
      && (IsSupportedExtension(config, p) && IsAlreadyProcessed(p).LookupRaised? ==> r.reason.Error?)
      && (Eligible(p) && creationDate(p).None? ==> r.reason == NoCreationDate)
      && (Eligible(p) && creationDate(p).Some? ==> r.reason.Duplicate? || r.reason.NoReason? || r.reason.Error?)
      && (r.reason == Duplicate <==>
            Eligible(p) && creationDate(p).Some?
            && HandleExistingFile(p, GenerateTargetPath(config, p, creationDate(p).value)) == Some((false, DuplicateFile)))
      && (r.success ==>
            Eligible(p) && p in fs.files && p !in fs.unreadable
            && r.checksum == Some(fs.sha256(fs.files[p]))
            && r.target.Some? && !fs.Exists(r.target.value)
            && creationDate(p).Some? && Placed(GenerateTargetPath(config, p, creationDate(p).value), r.target.value))
    }

    /**
     * The checks of `process_file` in their order and the choice of its
     * target: the result that stops it before anything changes, or the free
     * place its file goes to.
     */
    method Prepare(p: Path) returns (stop: FileResult, target: Option<Path>)
      requires Valid()
      ensures target.None? ==> !stop.success && !stop.reason.NoReason? && Decided(p, stop)
      ensures target.Some? ==>
                && Eligible(p) && creationDate(p).Some?
                && HandleExistingFile(p, GenerateTargetPath(config, p, creationDate(p).value)) != Some((false, DuplicateFile))
                && !fs.Exists(target.value)
                && Placed(GenerateTargetPath(config, p, creationDate(p).value), target.value)
    {
      stop := FileResult(false, Skipped, NoReason, None, None);
      if !IsSupportedExtension(config, p) {
        return stop.(reason := UnsupportedExtension), None;
      }
      var lookup := IsAlreadyProcessed(p);
      if lookup.LookupRaised? {
        return stop.(reason := Error(ReadFailed(p))), None;
      }
      if lookup.Processed? {
        return stop.(reason := AlreadyProcessed, target := Some(lookup.previous)), None;
      }
      if IsInArchiveStructure(p) {
        return stop.(reason := AlreadyInArchive), None;
      }
      var date := creationDate(p);
      if date.None? {
        return stop.(reason := NoCreationDate), None;
      }
      var generated := GenerateTargetPath(config, p, date.value);
      var conflict := HandleExistingFile(p, generated);
      if conflict.None? {
        return stop.(reason := Error(ReadFailed(if Checksum(p).None? then p else generated))), None;
      }
      if !conflict.value.0 {
        return stop.(reason := Duplicate, target := Some(generated)), None;
      }
      var t := generated;
      if conflict.value.1 == NameConflict {
        var safe, n := FindSafeTargetPath(generated);
        if safe.None? {
          return stop.(reason := Error(TooManyDuplicates(generated))), None;
        }
        assert FirstFree(generated, n);
        t := safe.value;
      }
      assert Placed(generated, t);
      target := Some(t);
    }

    /**
     * `process_file`: the checks in their fixed order, then the transfer
     * the mode asks for, then the ledger row; every exception becomes a
     * failed result carrying it as the reason.
     */
    method ProcessFile(p: Path, faults: Faults) returns (r: FileResult)
      requires Valid()
      modifies this, fs
      ensures r.success <==> r.reason.NoReason?
      // the checks, in order, judged on the state before the call
      ensures old(Decided(p, r))
      ensures old(Recorded(p)) ==> r.reason == AlreadyProcessed
      ensures old(SettledIn(fs.files, ledger, p)) ==> !r.success
      // directories are only added, inside the output directory or above it unless renaming
      ensures DirsPlaced(old(fs.dirs), fs.dirs)
      // outcomes other than success and exceptions change nothing
      ensures !r.success && !r.reason.Error? ==>
                fs.files == old(fs.files) && fs.dirs == old(fs.dirs) && ledger == old(ledger)
      ensures r.success ==> p in old(fs.files) && r.checksum.Some? && r.target.Some?
      ensures r.success ==>
                r.action == if config.dryRun then DryRun else if config.renameOnly then Renamed
                            else if config.copyMode then Copied else Moved
      // the ledger changes only after a real transfer succeeded, and only for p
      ensures ledger == if r.success && !config.dryRun
                        then old(ledger)[p := LedgerEntry(r.checksum.value, r.target.value, |old(fs.files[p])|)]
                        else old(ledger)
      ensures config.dryRun ==> fs.files == old(fs.files) && fs.dirs == old(fs.dirs)
      // no file but the source is ever overwritten or removed
      ensures forall q | q in old(fs.files) && q != p :: q in fs.files && fs.files[q] == old(fs.files[q])
      // the only file that can appear is the target, inside the output directory unless renaming
      ensures forall q | q in fs.files && q !in old(fs.files) ::
                r.target == Some(q) && (!config.renameOnly ==> InOutputDir(q))
      // outside rename-only mode, a copy or any failure leaves the source byte-identical
      ensures !config.renameOnly && (config.copyMode || !r.success) && p in old(fs.files) ==>
                p in fs.files && fs.files[p] == old(fs.files[p])
      // a real transfer puts the file at its target, and a move removes the source
      ensures r.success && !config.dryRun ==>
                r.target.value in fs.files && (p in fs.files <==> config.copyMode && !config.renameOnly)
      // the target holds the recorded checksum when verification ran, the source's bytes when the device wrote faithfully
      ensures r.success && !config.dryRun && config.verifyChecksums && r.checksum.value != "" ==>
                fs.sha256(fs.files[r.target.value]) == r.checksum.value
      ensures r.success && !config.dryRun && faults.copy.CopyOk? ==> fs.files[r.target.value] == old(fs.files[p])
      // in copy mode a processed file ends up recorded, every recorded file stays so,
      // and a file that met no error is settled for good
      ensures config.copyMode && !config.renameOnly && !config.dryRun ==>
                (r.success ==> Recorded(p)) && forall q | RecordedIn(old(fs.files), old(ledger), q) :: RecordedIn(fs.files, ledger, q)
      ensures config.copyMode && !config.renameOnly && !config.dryRun && !r.reason.Error? ==> SettledIn(fs.files, ledger, p)
    {
      RecordedMeansProcessed(p);
      assert DirsPlaced(fs.dirs, fs.dirs);
      var stop, target := Prepare(p);
      if target.None? {
        return stop;
      }
      var date := creationDate(p).value;
      var generated := GenerateTargetPath(config, p, date);
      if !config.renameOnly {
        PlacedInsideArchive(p, date, target.value);
        assert Parent(target.value) == Parent(generated);
      }
      MadeDirsPlaced(target.value, date, fs.dirs);
      PassedUnsettled(p);
      r := Transfer(p, target.value, faults);
      RecordedMeansProcessed(p);
    }

    /**
     * The second half of `process_file`, once a free target is chosen:
     * checksum and size of the source, the transfer the mode asks for
     * (skipped in a dry run), then the ledger row.
     */
    method Transfer(p: Path, target: Path, faults: Faults) returns (r: FileResult)
      requires Valid() && !fs.Exists(target)
      modifies this, fs
      ensures r.target == Some(target)
      ensures r.success <==> r.reason.NoReason?
      ensures r.reason.NoReason? || r.reason.Error?
      ensures r.success ==>
                p in old(fs.files) && p !in fs.unreadable && r.checksum == Some(fs.sha256(old(fs.files[p])))
      ensures r.success ==>
                r.action == if config.dryRun then DryRun else if config.renameOnly then Renamed
                            else if config.copyMode then Copied else Moved
      ensures ledger == if r.success && !config.dryRun
                        then old(ledger)[p := LedgerEntry(r.checksum.value, target, |old(fs.files[p])|)]
                        else old(ledger)
      ensures config.dryRun ==> fs.files == old(fs.files) && fs.dirs == old(fs.dirs)
      ensures forall q | q in old(fs.files) && q != p :: q in fs.files && fs.files[q] == old(fs.files[q])
      ensures !config.renameOnly && (config.copyMode || !r.success) && p in old(fs.files) ==>
                p in fs.files && fs.files[p] == old(fs.files[p])
      ensures r.success && !config.dryRun ==>
                target in fs.files && (p in fs.files <==> config.copyMode && !config.renameOnly)
      ensures forall q | q in fs.files && q !in old(fs.files) :: q == target
      ensures fs.dirs == old(fs.dirs) || fs.dirs == old(fs.dirs) + Prefixes(Parent(target))
      ensures r.success && !config.dryRun && config.verifyChecksums && r.checksum.value != "" ==>
                fs.sha256(fs.files[target]) == r.checksum.value
      ensures r.success && !config.dryRun && faults.copy.CopyOk? ==> fs.files[target] == old(fs.files[p])
      ensures config.copyMode && !config.renameOnly && !config.dryRun ==>
                (r.success ==> IsAlreadyProcessed(p).Processed?)
                && forall q | q != p && RecordedIn(old(fs.files), old(ledger), q) :: RecordedIn(fs.files, ledger, q)
    {
      r := FileResult(false, Skipped, NoReason, Some(target), None);
      var checksum := Checksum(p);
      if checksum.None? {
        return r.(reason := Error(ReadFailed(p)));
      }
      var size := |fs.files[p]|;
      r := r.(checksum := checksum);
      if !config.dryRun {
        var ok: bool;
        var action: Action;
        if config.renameOnly {
          ok := ops.SafeRename(p, target, config.verifyChecksums, faults);
          action := Renamed;
        } else if config.copyMode {
          ok := ops.SafeCopy(p, target, config.verifyChecksums, faults);
          action := Copied;
          forall q | q in old(fs.files) && q != target ensures q in fs.files && fs.files[q] == old(fs.files[q]) {
            assert q in old(fs.files) - {target};
          }
          ghost var after := fs.files;
          forall q | q in after && q !in old(fs.files) ensures q == target {
            assert q != target ==> q in after - {target};
          }
        } else {
          ok := ops.SafeMove(p, target, config.verifyChecksums, faults);
          action := Moved;
          forall q | q in old(fs.files) && q != p && q != target
            ensures q in fs.files && fs.files[q] == old(fs.files[q])
          {
            assert q in old(fs.files) - {p, target};
          }
          ghost var after := fs.files;
          forall q | q in after && q !in old(fs.files) ensures q == target {
            assert q != p && q != target ==> q in after - {p, target};
          }
        }
        if !ok {
          return r.(reason := Error(TransferFailed(action, p, target)));
        }
        MarkAsProcessed(p, checksum.value, target, size);
        r := r.(action := action);
      } else {
        r := r.(action := DryRun);
      }
      r := r.(success := true);
    }

    /** The paths the `rglob` calls for every extension yield under `input`. */
    function Listing(input: Path): set<Path>
      reads fs
    {
      ListingIn(fs.files, fs.dirs, input)
    }

    /** `Listing` over the given files and directories. */
    function ListingIn(files: map<Path, Bytes>, dirs: set<Path>, input: Path): set<Path>
    {
      set q | q in files.Keys + dirs && IsAncestor(input, q)
                && exists e | e in config.extensions :: GlobMatches(Name(q), e)
    }

    /** Two sorted lists of the paths of two listings that agree outside the output directory are equal. */
    lemma {:induction false} SameListing(input: Path, listed1: seq<Path>, listed2: seq<Path>,
                                         listing1: set<Path>, listing2: set<Path>)
      requires forall q :: q in listed1 <==> q in listing1 && !InOutputDir(q)
      requires forall q :: q in listed2 <==> q in listing2 && !InOutputDir(q)
      requires Sorted(listed1) && Sorted(listed2)
      requires listing1 <= listing2
      requires forall q | q in listing2 && !InOutputDir(q) :: q in listing1
      ensures listed2 == listed1
    {
      SortedUnique(listed2, listed1);
    }

    /**
     * Files and directories added only inside the output directory or
     * above it keep every listed path listed and list nothing new outside
     * the output directory, except a new ancestor of it; none is new once
     * they all exist (`above`).
     */
    lemma {:induction false} ListingKept(input: Path, files0: map<Path, Bytes>, dirs0: set<Path>,
                                         files1: map<Path, Bytes>, dirs1: set<Path>, above: bool)
      requires forall q | q in files0 :: q in files1
      requires forall q | q in files1 && q !in files0 :: InOutputDir(q)
      requires DirsPlaced(dirs0, dirs1) && !config.renameOnly
      requires above ==> AboveOutputExists(dirs0)
      ensures ListingIn(files0, dirs0, input) <= ListingIn(files1, dirs1, input)
      ensures forall q | q in ListingIn(files1, dirs1, input) && !InOutputDir(q) && (q in files1 || above) ::
                q in ListingIn(files0, dirs0, input)
    {
      forall q | q in ListingIn(files1, dirs1, input) && !InOutputDir(q) && (q in files1 || above)
        ensures q in ListingIn(files0, dirs0, input)
      {
        if AboveOutput(q) && above {
          assert config.outputDir[..|q|] in dirs0;
        }
      }
    }

    /**
     * The ledger is current for `q`, judged on the given file contents and
     * ledger: a readable file whose ledger row holds its current checksum.
     */
    predicate RecordedIn(files: map<Path, Bytes>, led: Ledger, q: Path)
    {
      q in files && q !in fs.unreadable && q in led && led[q].checksum == fs.sha256(files[q])
    }

    /** Organized already: a supported file whose ledger row is current. */
    predicate Recorded(q: Path)
      reads this, fs
    {
      IsSupportedExtension(config, q) && RecordedIn(fs.files, ledger, q)
    }

    /** A recorded file is exactly one the lookup of `process_file` skips as processed. */
    lemma {:induction false} RecordedMeansProcessed(q: Path)
      ensures Recorded(q) <==> IsSupportedExtension(config, q) && IsAlreadyProcessed(q).Processed?
    {
    }

    /**
     * The filter of `process_directory`: keeps, in order, the paths whose
     * resolved form is not inside the resolved output directory.
     */
    method OutsideArchive(files: seq<Path>) returns (kept: seq<Path>)
      requires Sorted(files)
      ensures forall q :: q in kept <==> q in files && !InOutputDir(q)
      ensures Sorted(kept)
    {
      var archive := Resolve(cwd, config.outputDir);
      kept := [];
      var i := 0;
      while i < |files|
        invariant 0 <= i <= |files|
        invariant forall q :: q in kept <==> q in files[..i] && !IsInsideArchiveDir(Resolve(cwd, q), archive)
        invariant Sorted(kept)
      {
        var q := files[i];
        if !IsInsideArchiveDir(Resolve(cwd, q), archive) {
          forall a | 0 <= a < |kept| ensures PathLt(kept[a], q) {
            assert kept[a] in files[..i];
            var j :| 0 <= j < i && files[j] == kept[a];
          }
          kept := kept + [q];
        }
        assert files[..i + 1] == files[..i] + [q];
        i := i + 1;
      }
      assert files[..i] == files;
    }

    /**
     * `process_directory`: the sorted, de-duplicated listing without the
     * files under the resolved output directory, each processed once and
     * counted in exactly one counter.
     */
    method ProcessDirectory(input: Path, faults: Path -> Faults) returns (counts: Counts, ghost listed: seq<Path>)
      requires Valid()
      modifies this, fs
      ensures forall q :: q in listed <==> q in old(Listing(input)) && !InOutputDir(q)
      ensures Sorted(listed)
      ensures counts.processed + counts.skipped + counts.duplicates + counts.errors == |listed|
      // files not listed, those of the output directory among them, keep their bytes,
      // and the ledger changes only at listed paths
      ensures forall q | q in old(fs.files) && q !in listed :: q in fs.files && fs.files[q] == old(fs.files[q])
      ensures forall q | q in old(ledger) && q !in listed :: q in ledger && ledger[q] == old(ledger[q])
      ensures forall q | q in ledger && q !in old(ledger) :: q in listed
      ensures !config.renameOnly ==> forall q | q in fs.files && q !in old(fs.files) :: InOutputDir(q)
      // copy mode: nothing existing changes, every processed file ends recorded, every file
      // recorded before is a duplicate; without errors every listed file ends settled,
      // and a tree of settled files sees nothing processed
      ensures config.copyMode && !config.renameOnly && !config.dryRun ==>
                (forall q | q in old(fs.files) :: q in fs.files && fs.files[q] == old(fs.files[q]))
                && counts.processed <= |RecordedAmong(listed, fs.files, ledger)|
                && counts.duplicates >= |RecordedAmong(listed, old(fs.files), old(ledger))|
                && (counts.errors == 0 ==> AllSettled(listed, fs.files, ledger))
                && (old(AllSettled(listed, fs.files, ledger)) ==> counts.processed == 0)
      // a tree whose files are all processed already is left alone, all of it counted as duplicates
      ensures (forall q | q in listed :: old(Recorded(q))) ==>
                counts == Counts(0, 0, |listed|, 0)
                && fs.files == old(fs.files) && fs.dirs == old(fs.dirs) && ledger == old(ledger)
      // a copy-mode run that processed everything leaves everything recorded
      ensures config.copyMode && !config.renameOnly && !config.dryRun && counts.processed == |listed| ==>
                forall q | q in listed :: Recorded(q)
      // directories are only added, inside the output directory or above it
      ensures DirsPlaced(old(fs.dirs), fs.dirs)
      // copy mode, once every ancestor of the output directory exists: the skipped count is what
      // the final state skips, a run without errors leaves every listed file quiet, and a run over
      // quiet files processes nothing, meets no error and changes nothing
      ensures Copying() && AboveOutputExists(old(fs.dirs)) ==>
                && counts.skipped == CountSkip(listed, fs.files, fs.dirs, ledger)
                && (counts.errors == 0 ==> AllQuiet(listed, fs.files, fs.dirs, ledger))
                && (AllQuiet(listed, old(fs.files), old(fs.dirs), old(ledger)) ==>
                      counts.processed == 0 && counts.errors == 0
                      && fs.files == old(fs.files) && fs.dirs == old(fs.dirs) && ledger == old(ledger))
    {
      var sorted := SortedPaths(Listing(input));
      var filtered := OutsideArchive(sorted);
      listed := filtered;
      counts := ProcessAll(filtered, faults);
    }

    /** The first `k` files of `files` are recorded in the given contents and ledger. */
    predicate RecordedUpTo(files: seq<Path>, k: nat, contents: map<Path, Bytes>, led: Ledger)
      requires k <= |files|
    {
      forall q | q in files[..k] :: IsSupportedExtension(config, q) && RecordedIn(contents, led, q)
    }

    /** One more file of the listing recorded, none of the earlier ones lost. */
    lemma {:induction false} RecordedPrefixGrows(files: seq<Path>, k: nat, files0: map<Path, Bytes>, led0: Ledger,
                                                 files1: map<Path, Bytes>, led1: Ledger)
      requires k < |files|
      requires RecordedUpTo(files, k, files0, led0)
      requires forall q | q != files[k] && RecordedIn(files0, led0, q) :: RecordedIn(files1, led1, q)
      requires IsSupportedExtension(config, files[k]) && RecordedIn(files1, led1, files[k])
      ensures RecordedUpTo(files, k + 1, files1, led1)
    {
      PrefixStep(files, k);
      forall q | q in files[..k + 1] ensures IsSupportedExtension(config, q) && RecordedIn(files1, led1, q) {
        if q != files[k] {
          assert q in files[..k];
        }
      }
    }

    /** One turn of the loop of `process_directory`: the file processed, its result counted. */
    method ProcessCounted(p: Path, faults: Faults, before: Counts) returns (counts: Counts)
      requires Valid()
      modifies this, fs
      ensures counts.processed + counts.skipped + counts.duplicates + counts.errors == before.processed + before.skipped + before.duplicates + before.errors + 1
      ensures counts.processed >= before.processed && counts.skipped >= before.skipped
              && counts.duplicates >= before.duplicates && counts.errors >= before.errors
      ensures old(Recorded(p)) ==>
                counts == before.(duplicates := before.duplicates + 1)
                && fs.files == old(fs.files) && fs.dirs == old(fs.dirs) && ledger == old(ledger)
      ensures config.copyMode && !config.renameOnly && !config.dryRun && counts.processed > before.processed ==>
                Recorded(p)
      // what other files and the ledger keep
      ensures forall q | q in old(fs.files) && q != p :: q in fs.files && fs.files[q] == old(fs.files[q])
      ensures forall q | q in old(ledger) && q != p :: q in ledger && ledger[q] == old(ledger[q])
      ensures forall q | q in ledger && q !in old(ledger) :: q == p
      ensures !config.renameOnly ==> forall q | q in fs.files && q !in old(fs.files) :: InOutputDir(q)
      // a settled file is never counted as processed; in copy mode one that met no error ends settled
      ensures old(SettledIn(fs.files, ledger, p)) ==> counts.processed == before.processed
      ensures config.copyMode && !config.renameOnly && !config.dryRun ==>
                (p in old(fs.files) ==> p in fs.files && fs.files[p] == old(fs.files[p]))
                && (forall q | RecordedIn(old(fs.files), old(ledger), q) :: RecordedIn(fs.files, ledger, q))
                && (counts.errors == before.errors ==> SettledIn(fs.files, ledger, p))
      // the counter is the one the state before the call decides, and a quiet file changes nothing
      ensures ClassFacts(p, old(fs.files), old(fs.dirs), old(ledger), before, fs.files, fs.dirs, ledger, counts)
    {
      ghost var filesPre, dirsPre, ledgerPre := fs.files, fs.dirs, ledger;
      DecidedCounters(p);
      var r := ProcessFile(p, faults);
      counts := Tally(before, r);
      TallyStep(p, r, filesPre, dirsPre, ledgerPre, fs.files, fs.dirs, ledger, before, counts);
      ClassStep(p, r, filesPre, dirsPre, ledgerPre, fs.files, fs.dirs, ledger, before, counts);
    }

    /**
     * What one call of `process_file` does to the counters and the state,
     * judged on values: it is skipped exactly when `SkipIn` held before;
     * a file turned away quietly changes neither the state nor the
     * processed and error counts; a file without a target leaves the
     * ledger alone; new directories lie inside or above the output
     * directory; and in copy mode a file that met no error ends quiet.
     */
    ghost predicate ClassFacts(p: Path, filesPre: map<Path, Bytes>, dirsPre: set<Path>, ledgerPre: Ledger,
                               before: Counts, cur: map<Path, Bytes>, dirs: set<Path>, led: Ledger, after: Counts)
    {
      && DirsPlaced(dirsPre, dirs)
      && (after.skipped > before.skipped <==> SkipIn(filesPre, dirsPre, ledgerPre, p))
      && (QuietIn(filesPre, dirsPre, ledgerPre, p) ==>
            after.processed == before.processed && after.errors == before.errors
            && cur == filesPre && dirs == dirsPre && led == ledgerPre)
      && (NotPlaceable(p) ==> led == ledgerPre)
      && (Copying() && after.errors == before.errors ==> QuietIn(cur, dirs, led, p))
    }

    lemma {:induction false} ClassStep(p: Path, r: FileResult, filesPre: map<Path, Bytes>, dirsPre: set<Path>,
                                       ledgerPre: Ledger, files: map<Path, Bytes>, dirs: set<Path>, led: Ledger,
                                       before: Counts, counts: Counts)
      requires counts == Tally(before, r)
      requires r.success <==> r.reason.NoReason?
      requires r.success ==> !r.action.Skipped? && !NotPlaceable(p)
      requires SkipReason(r.reason) <==> SkipIn(filesPre, dirsPre, ledgerPre, p)
      requires DuplicateReason(r.reason) <==> DupIn(filesPre, ledgerPre, p)
      requires DirsPlaced(dirsPre, dirs)
      requires !r.success && !r.reason.Error? ==> files == filesPre && dirs == dirsPre && led == ledgerPre
      requires !r.success ==> led == ledgerPre
      requires Copying() && r.success ==> IsSupportedExtension(config, p) && RecordedIn(files, led, p)
      ensures ClassFacts(p, filesPre, dirsPre, ledgerPre, before, files, dirs, led, counts)
    {
    }

    /**
     * What one turn of the loop adds up to: the facts `ProcessFile` states
     * about its result and the state it leaves, taken as values, together
     * with the counters `Tally` makes of that result.
     */
    lemma {:induction false} TallyStep(p: Path, r: FileResult, filesPre: map<Path, Bytes>, dirsPre: set<Path>,
                                       ledgerPre: Ledger, files: map<Path, Bytes>, dirs: set<Path>, led: Ledger,
                                       before: Counts, counts: Counts)
      requires counts == Tally(before, r)
      requires r.success <==> r.reason.NoReason?
      requires IsSupportedExtension(config, p) && RecordedIn(filesPre, ledgerPre, p) ==> r.reason == AlreadyProcessed
      requires SettledIn(filesPre, ledgerPre, p) ==> !r.success
      requires !r.success && !r.reason.Error? ==> files == filesPre && dirs == dirsPre && led == ledgerPre
      requires r.success ==> p in filesPre && r.checksum.Some? && r.target.Some?
      requires r.success ==> !r.action.Skipped?
      requires led == if r.success && !config.dryRun
                      then ledgerPre[p := LedgerEntry(r.checksum.value, r.target.value, |filesPre[p]|)]
                      else ledgerPre
      requires !config.renameOnly && (config.copyMode || !r.success) && p in filesPre ==>
                 p in files && files[p] == filesPre[p]
      requires Copying() ==>
                 (r.success ==> IsSupportedExtension(config, p) && RecordedIn(files, led, p))
                 && forall q | RecordedIn(filesPre, ledgerPre, q) :: RecordedIn(files, led, q)
      requires Copying() && !r.reason.Error? ==> SettledIn(files, led, p)
      ensures counts.processed + counts.skipped + counts.duplicates + counts.errors == before.processed + before.skipped + before.duplicates + before.errors + 1
      ensures counts.processed >= before.processed && counts.skipped >= before.skipped
              && counts.duplicates >= before.duplicates && counts.errors >= before.errors
      ensures IsSupportedExtension(config, p) && RecordedIn(filesPre, ledgerPre, p) ==>
                counts == before.(duplicates := before.duplicates + 1)
                && files == filesPre && dirs == dirsPre && led == ledgerPre
      ensures Copying() && counts.processed > before.processed ==>
                IsSupportedExtension(config, p) && RecordedIn(files, led, p)
      ensures forall q | q in ledgerPre && q != p :: q in led && led[q] == ledgerPre[q]
      ensures forall q | q in led && q !in ledgerPre :: q == p
      ensures SettledIn(filesPre, ledgerPre, p) ==> counts.processed == before.processed
      ensures Copying() && counts.errors == before.errors ==> SettledIn(files, led, p)
    {
    }

    /** The files of `xs` that are supported and recorded in the given contents and ledger. */
    function RecordedAmong(xs: seq<Path>, contents: map<Path, Bytes>, led: Ledger): set<Path>
    {
      set q | q in xs && IsSupportedExtension(config, q) && RecordedIn(contents, led, q)
    }

    /** The loop of `process_directory`: every file processed in turn and counted once. */
    method ProcessAll(files: seq<Path>, faults: Path -> Faults) returns (counts: Counts)
      requires Valid()
      modifies this, fs
      ensures counts.processed + counts.skipped + counts.duplicates + counts.errors == |files|
      ensures (forall q | q in files :: old(Recorded(q))) ==>
                counts == Counts(0, 0, |files|, 0)
                && fs.files == old(fs.files) && fs.dirs == old(fs.dirs) && ledger == old(ledger)
      ensures config.copyMode && !config.renameOnly && !config.dryRun && counts.processed == |files| ==>
                forall q | q in files :: Recorded(q)
      // files not in the list keep their bytes, and the ledger changes only at listed paths
      ensures forall q | q in old(fs.files) && q !in files :: q in fs.files && fs.files[q] == old(fs.files[q])
      ensures forall q | q in old(ledger) && q !in files :: q in ledger && ledger[q] == old(ledger[q])
      ensures forall q | q in ledger && q !in old(ledger) :: q in files
      ensures !config.renameOnly ==> forall q | q in fs.files && q !in old(fs.files) :: InOutputDir(q)
      // copy mode: nothing existing changes; every processed file is recorded at the end,
      // every file recorded at the start is counted as a duplicate
      ensures config.copyMode && !config.renameOnly && !config.dryRun ==>
                (forall q | q in old(fs.files) :: q in fs.files && fs.files[q] == old(fs.files[q]))
                && counts.processed <= |RecordedAmong(files, fs.files, ledger)|
                && counts.duplicates >= |RecordedAmong(files, old(fs.files), old(ledger))|
      // copy mode over files outside the output directory: a run without errors leaves them
      // all settled, and a run over settled files processes none
      ensures config.copyMode && !config.renameOnly && !config.dryRun && AllOutside(files) ==>
                (counts.errors == 0 ==> AllSettled(files, fs.files, ledger))
                && (old(AllSettled(files, fs.files, ledger)) ==> counts.processed == 0)
      // directories are only added, inside the output directory or above it
      ensures DirsPlaced(old(fs.dirs), fs.dirs)
      // copy mode over files outside the output directory, whose ancestors all exist: the
      // skipped count is what the final state skips, a run without errors leaves every file
      // quiet, and a run over quiet files processes nothing, meets no error and changes nothing
      ensures Copying() && AllOutside(files) && AboveOutputExists(old(fs.dirs)) ==>
                && counts.skipped == CountSkip(files, fs.files, fs.dirs, ledger)
                && (counts.errors == 0 ==> AllQuiet(files, fs.files, fs.dirs, ledger))
                && (AllQuiet(files, old(fs.files), old(fs.dirs), old(ledger)) ==>
                      counts.processed == 0 && counts.errors == 0
                      && fs.files == old(fs.files) && fs.dirs == old(fs.dirs) && ledger == old(ledger))
    {
      ghost var files0, dirs0, ledger0 := fs.files, fs.dirs, ledger;
      ghost var allRecorded := AllRecorded(files, files0, ledger0);
      ghost var outside := AllOutside(files);
      ghost var settled0 := AllSettled(files, files0, ledger0);
      ghost var above := AboveOutputExists(dirs0);
      ghost var quiet0 := AllQuiet(files, files0, dirs0, ledger0);
      counts := ProcessLoop(files, faults, files0, dirs0, ledger0, allRecorded, outside, settled0, above, quiet0);
      WholePrefix(files);
      if Copying() {
        CopyAtEnd(files, files0, ledger0, outside, settled0, counts, fs.files, ledger);
      }
    }

    /**
     * The loop of `ProcessAll`. The invariant `LoopInv` is carried whole (compared
     * with `true`, here and in `ProcessStep`'s precondition) so that it is checked
     * as one fact rather than conjunct by conjunct.
     */
    method ProcessLoop(files: seq<Path>, faults: Path -> Faults, ghost files0: map<Path, Bytes>,
                       ghost dirs0: set<Path>, ghost ledger0: Ledger, ghost allRecorded: bool,
                       ghost outside: bool, ghost settled0: bool, ghost above: bool, ghost quiet0: bool)
      returns (counts: Counts)
      requires Valid() && fs.files == files0 && fs.dirs == dirs0 && ledger == ledger0
      requires allRecorded ==> AllRecorded(files, files0, ledger0)
      requires outside ==> AllOutside(files)
      requires settled0 ==> AllSettled(files, files0, ledger0)
      requires above ==> AboveOutputExists(dirs0)
      requires quiet0 ==> AllQuiet(files, files0, dirs0, ledger0)
      modifies this, fs
      ensures LoopInv(files, |files|, files0, dirs0, ledger0, allRecorded, outside, settled0, above, quiet0,
                      counts, fs.files, fs.dirs, ledger)
    {
      counts := Counts(0, 0, 0, 0);
      var k := 0;
      LoopInvInit(files, files0, dirs0, ledger0, allRecorded, outside, settled0, above, quiet0, counts);
      while k < |files|
        invariant 0 <= k <= |files|
        invariant LoopInv(files, k, files0, dirs0, ledger0, allRecorded, outside, settled0, above, quiet0,
                          counts, fs.files, fs.dirs, ledger) == true
      {
        counts := ProcessStep(files, k, faults(files[k]), files0, dirs0, ledger0, allRecorded, outside, settled0,
                              above, quiet0, counts);
        k := k + 1;
      }
    }

    /** The invariant of the loop of `ProcessAll` after `k` files. */
    ghost predicate LoopInv(files: seq<Path>, k: nat, files0: map<Path, Bytes>, dirs0: set<Path>, ledger0: Ledger,
                            allRecorded: bool, outside: bool, settled0: bool, above: bool, quiet0: bool,
                            counts: Counts, cur: map<Path, Bytes>, dirs: set<Path>, led: Ledger)
      requires k <= |files|
    {
      && counts.processed + counts.skipped + counts.duplicates + counts.errors == k
      && (allRecorded ==> counts == Counts(0, 0, k, 0) && cur == files0 && dirs == dirs0 && led == ledger0)
      && (Copying() && counts.processed == k ==> RecordedUpTo(files, k, cur, led))
      && LoopFrame(files, k, files0, ledger0, cur, led)
      && (Copying() ==> CopyInv(files, k, files0, ledger0, outside, settled0, counts, cur, led))
      && ClassInv(files, k, files0, dirs0, ledger0, outside, above, quiet0, counts, cur, dirs, led)
    }

    /** Before the first file the loop invariant holds. */
    lemma LoopInvInit(files: seq<Path>, files0: map<Path, Bytes>, dirs0: set<Path>, ledger0: Ledger,
                      allRecorded: bool, outside: bool, settled0: bool, above: bool, quiet0: bool, counts: Counts)
      requires counts == Counts(0, 0, 0, 0)
      requires settled0 ==> AllSettled(files, files0, ledger0)
      ensures LoopInv(files, 0, files0, dirs0, ledger0, allRecorded, outside, settled0, above, quiet0,
                      counts, files0, dirs0, ledger0)
    {
      CopyInvInit(files, files0, ledger0, outside, settled0, counts);
      assert files[..0] == [];
    }

    /**
     * The classification invariant of the loop after `k` files: directories
     * are only added inside or above the output directory; and in copy mode,
     * over files outside the output directory whose ancestors all exist
     * (`above`), the skipped count is the number of the first `k` files the
     * current state skips, without errors those files are all quiet now,
     * and when all files were quiet at the start (`quiet0`) nothing has
     * been processed, nothing has failed and nothing has changed.
     */
    ghost predicate ClassInv(files: seq<Path>, k: nat, files0: map<Path, Bytes>, dirs0: set<Path>, ledger0: Ledger,
                             outside: bool, above: bool, quiet0: bool, counts: Counts,
                             cur: map<Path, Bytes>, dirs: set<Path>, led: Ledger)
      requires k <= |files|
    {
      && DirsPlaced(dirs0, dirs)
      && (Copying() && outside && above ==>
            && counts.skipped == CountSkip(files[..k], cur, dirs, led)
            && (counts.errors == 0 ==> AllQuiet(files[..k], cur, dirs, led))
            && (quiet0 ==> counts.processed == 0 && counts.errors == 0
                           && cur == files0 && dirs == dirs0 && led == ledger0))
    }

    lemma {:induction false} AdvanceClass(files: seq<Path>, k: nat, files0: map<Path, Bytes>, dirs0: set<Path>,
                                          ledger0: Ledger, outside: bool, above: bool, quiet0: bool,
                                          filesPre: map<Path, Bytes>, dirsPre: set<Path>, ledgerPre: Ledger,
                                          before: Counts, cur: map<Path, Bytes>, dirs: set<Path>, led: Ledger,
                                          after: Counts)
      requires k < |files|
      requires outside ==> AllOutside(files)
      requires above ==> AboveOutputExists(dirs0)
      requires quiet0 ==> AllQuiet(files, files0, dirs0, ledger0)
      requires ClassInv(files, k, files0, dirs0, ledger0, outside, above, quiet0, before, filesPre, dirsPre, ledgerPre)
      requires StepFacts(files[k], filesPre, ledgerPre, before, cur, led, after)
      requires ClassFacts(files[k], filesPre, dirsPre, ledgerPre, before, cur, dirs, led, after)
      ensures ClassInv(files, k + 1, files0, dirs0, ledger0, outside, above, quiet0, after, cur, dirs, led)
    {
      DirsPlacedTrans(dirs0, dirsPre, dirs);
      if Copying() && outside && above {
        var p := files[k];
        KeepsFromStep(p, dirs0, filesPre, dirsPre, ledgerPre, before, cur, dirs, led, after);
        AdvanceSkips(files, k, filesPre, dirsPre, ledgerPre, before, cur, dirs, led, after);
        AdvanceQuiet(files, k, filesPre, dirsPre, ledgerPre, before, cur, dirs, led, after);
      }
    }

    lemma WholePrefix(files: seq<Path>)
      ensures files[..|files|] == files
    {
    }

    lemma PrefixStep(files: seq<Path>, k: nat)
      requires k < |files|
      ensures files[..k + 1] == files[..k] + [files[k]]
    {
    }

    /** The recorded files of a list extended by one path. */
    lemma AmongSnoc(xs: seq<Path>, p: Path, contents: map<Path, Bytes>, led: Ledger)
      ensures RecordedAmong(xs + [p], contents, led) ==
                RecordedAmong(xs, contents, led)
                + (if IsSupportedExtension(config, p) && RecordedIn(contents, led, p) then {p} else {})
    {
      forall q
        ensures q in RecordedAmong(xs + [p], contents, led) <==>
                q in RecordedAmong(xs, contents, led) || (q == p && IsSupportedExtension(config, p) && RecordedIn(contents, led, p))
      {
        assert q in xs + [p] <==> q in xs || q == p;
      }
    }

    /** The copy-mode invariant over the whole list gives what `ProcessAll` promises in copy mode. */
    lemma CopyAtEnd(files: seq<Path>, files0: map<Path, Bytes>, ledger0: Ledger, outside: bool, settled0: bool,
                    counts: Counts, cur: map<Path, Bytes>, led: Ledger)
      requires outside == AllOutside(files)
      requires settled0 == AllSettled(files, files0, ledger0)
      requires CopyInv(files, |files|, files0, ledger0, outside, settled0, counts, cur, led)
      ensures forall q | q in files0 :: q in cur && cur[q] == files0[q]
      ensures counts.processed <= |RecordedAmong(files, cur, led)|
      ensures counts.duplicates >= |RecordedAmong(files, files0, ledger0)|
      ensures AllOutside(files) ==>
                (counts.errors == 0 ==> AllSettled(files, cur, led))
                && (AllSettled(files, files0, ledger0) ==> counts.processed == 0)
    {
      assert files[..|files|] == files;
    }

    /** The body of the loop of `ProcessAll`: file `k` processed and counted, every invariant carried over. */
    method ProcessStep(files: seq<Path>, k: nat, faults: Faults, ghost files0: map<Path, Bytes>,
                       ghost dirs0: set<Path>, ghost ledger0: Ledger, ghost allRecorded: bool,
                       ghost outside: bool, ghost settled0: bool, ghost above: bool, ghost quiet0: bool,
                       before: Counts) returns (counts: Counts)
      requires Valid() && k < |files|
      requires allRecorded ==> forall q | q in files :: IsSupportedExtension(config, q) && RecordedIn(files0, ledger0, q)
      requires outside ==> AllOutside(files)
      requires above ==> AboveOutputExists(dirs0)
      requires quiet0 ==> AllQuiet(files, files0, dirs0, ledger0)
      requires LoopInv(files, k, files0, dirs0, ledger0, allRecorded, outside, settled0, above, quiet0,
                       before, fs.files, fs.dirs, ledger) == true
      modifies this, fs
      ensures LoopInv(files, k + 1, files0, dirs0, ledger0, allRecorded, outside, settled0, above, quiet0,
                      counts, fs.files, fs.dirs, ledger)
    {
      var p := files[k];
      assert allRecorded ==> Recorded(p);
      ghost var filesPre, dirsPre, ledgerPre := fs.files, fs.dirs, ledger;
      counts := ProcessCounted(p, faults, before);
      assert StepFacts(p, filesPre, ledgerPre, before, fs.files, ledger, counts);
      AdvanceLoop(files, k, files0, dirs0, ledger0, allRecorded, outside, settled0, above, quiet0,
                  filesPre, dirsPre, ledgerPre, before, fs.files, fs.dirs, ledger, counts);
    }

    /** One turn of the loop of `ProcessAll` keeps the loop invariant, judged on values. */
    lemma {:induction false} AdvanceLoop(files: seq<Path>, k: nat, files0: map<Path, Bytes>, dirs0: set<Path>,
                                         ledger0: Ledger, allRecorded: bool, outside: bool, settled0: bool,
                                         above: bool, quiet0: bool,
                                         filesPre: map<Path, Bytes>, dirsPre: set<Path>, ledgerPre: Ledger,
                                         before: Counts, cur: map<Path, Bytes>, dirs: set<Path>, led: Ledger,
                                         after: Counts)
      requires k < |files|
      requires allRecorded ==> forall q | q in files :: IsSupportedExtension(config, q) && RecordedIn(files0, ledger0, q)
      requires outside ==> AllOutside(files)
      requires above ==> AboveOutputExists(dirs0)
      requires quiet0 ==> AllQuiet(files, files0, dirs0, ledger0)
      requires LoopInv(files, k, files0, dirs0, ledger0, allRecorded, outside, settled0, above, quiet0,
                       before, filesPre, dirsPre, ledgerPre)
      requires IsSupportedExtension(config, files[k]) && RecordedIn(filesPre, ledgerPre, files[k]) ==>
                 cur == filesPre && dirs == dirsPre && led == ledgerPre
      requires StepFacts(files[k], filesPre, ledgerPre, before, cur, led, after)
      requires ClassFacts(files[k], filesPre, dirsPre, ledgerPre, before, cur, dirs, led, after)
      ensures LoopInv(files, k + 1, files0, dirs0, ledger0, allRecorded, outside, settled0, above, quiet0,
                      after, cur, dirs, led)
    {
      if Copying() && after.processed == k + 1 {
        assert before.processed == k;
        RecordedPrefixGrows(files, k, filesPre, ledgerPre, cur, led);
      }
      AdvanceFrame(files, k, files0, ledger0, filesPre, ledgerPre, before, cur, led, after);
      if Copying() {
        AdvanceCopy(files, k, files0, ledger0, outside, settled0, filesPre, ledgerPre, before, cur, led, after);
      }
      AdvanceClass(files, k, files0, dirs0, ledger0, outside, above, quiet0, filesPre, dirsPre, ledgerPre, before,
                   cur, dirs, led, after);
    }

    /** Copy mode for real: `copy_mode` without `rename_only` or `dry_run`. */
    predicate Copying()
    {
      config.copyMode && !config.renameOnly && !config.dryRun
    }

    /**
     * What one turn of the loop guarantees, judged on the contents and the
     * ledger before and after processing `p`.
     */
    ghost predicate StepFacts(p: Path, filesPre: map<Path, Bytes>, ledgerPre: Ledger, before: Counts,
                        cur: map<Path, Bytes>, led: Ledger, after: Counts)
    {
      && (forall q | q in filesPre && q != p :: q in cur && cur[q] == filesPre[q])
      && (forall q | q in ledgerPre && q != p :: q in led && led[q] == ledgerPre[q])
      && (forall q | q in led && q !in ledgerPre :: q == p)
      && (!config.renameOnly ==> forall q | q in cur && q !in filesPre :: InOutputDir(q))
      && after.processed >= before.processed && after.skipped >= before.skipped
      && after.duplicates >= before.duplicates && after.errors >= before.errors
      && after.processed + after.skipped + after.duplicates + after.errors == before.processed + before.skipped + before.duplicates + before.errors + 1
      && (IsSupportedExtension(config, p) && RecordedIn(filesPre, ledgerPre, p) ==>
            after == before.(duplicates := before.duplicates + 1))
      && (SettledIn(filesPre, ledgerPre, p) ==> after.processed == before.processed)
      && (Copying() ==>
            && (p in filesPre ==> p in cur && cur[p] == filesPre[p])
            && (forall q | RecordedIn(filesPre, ledgerPre, q) :: RecordedIn(cur, led, q))
            && (after.processed > before.processed ==> IsSupportedExtension(config, p) && RecordedIn(cur, led, p))
            && (after.errors == before.errors ==> SettledIn(cur, led, p)))
    }

    /** The frame of the loop after `k` files: only listed paths may change, new files lie in the output directory. */
    ghost predicate LoopFrame(files: seq<Path>, k: nat, files0: map<Path, Bytes>, ledger0: Ledger,
                        cur: map<Path, Bytes>, led: Ledger)
      requires k <= |files|
    {
      && (forall q | q in files0 && q !in files[..k] :: q in cur && cur[q] == files0[q])
      && (forall q | q in ledger0 && q !in files[..k] :: q in led && led[q] == ledger0[q])
      && (forall q | q in led && q !in ledger0 :: q in files[..k])
      && (!config.renameOnly ==> forall q | q in cur && q !in files0 :: InOutputDir(q))
    }

    lemma {:induction false} AdvanceFrame(files: seq<Path>, k: nat, files0: map<Path, Bytes>, ledger0: Ledger,
                                          filesPre: map<Path, Bytes>, ledgerPre: Ledger, before: Counts,
                                          cur: map<Path, Bytes>, led: Ledger, after: Counts)
      requires k < |files|
      requires LoopFrame(files, k, files0, ledger0, filesPre, ledgerPre)
      requires StepFacts(files[k], filesPre, ledgerPre, before, cur, led, after)
      ensures LoopFrame(files, k + 1, files0, ledger0, cur, led)
    {
      var p := files[k];
      PrefixStep(files, k);
      forall q | q in files0 && q !in files[..k + 1] ensures q in cur && cur[q] == files0[q] {
        assert q !in files[..k] && q != p;
      }
      forall q | q in ledger0 && q !in files[..k + 1] ensures q in led && led[q] == ledger0[q] {
        assert q !in files[..k] && q != p;
      }
      forall q | q in led && q !in ledger0 ensures q in files[..k + 1] {
        if q != p {
          assert q in ledgerPre;
        }
      }
    }

    /**
     * The copy-mode invariant of the loop after `k` files: nothing existing
     * changes, the processed files are recorded, the files recorded at the
     * start are counted as duplicates, and settled files stay settled.
     */
    ghost predicate CopyInv(files: seq<Path>, k: nat, files0: map<Path, Bytes>, ledger0: Ledger,
                            outside: bool, settled0: bool, counts: Counts, cur: map<Path, Bytes>, led: Ledger)
      requires k <= |files|
    {
      && Kept(files0, ledger0, cur, led)
      && counts.processed <= |RecordedAmong(files[..k], cur, led)|
      && counts.duplicates >= |RecordedAmong(files[..k], files0, ledger0)|
      && SettledInv(files, k, outside, settled0, counts, cur, led)
    }

    /** Every existing file keeps its bytes and every current ledger row stays current. */
    ghost predicate Kept(files0: map<Path, Bytes>, ledger0: Ledger, cur: map<Path, Bytes>, led: Ledger)
    {
      && (forall q | q in files0 :: q in cur && cur[q] == files0[q])
      && (forall q | RecordedIn(files0, ledger0, q) :: RecordedIn(cur, led, q))
    }

    /** Every file of `xs` is supported and recorded in the given contents and ledger. */
    predicate AllRecorded(xs: seq<Path>, contents: map<Path, Bytes>, led: Ledger)
    {
      forall q | q in xs :: IsSupportedExtension(config, q) && RecordedIn(contents, led, q)
    }

    /** No file of `xs` lies inside the output directory. */
    predicate AllOutside(xs: seq<Path>)
    {
      forall q | q in xs :: !InOutputDir(q)
    }

    /** Every file of `xs` is settled in the given contents and ledger. */
    ghost predicate AllSettled(xs: seq<Path>, cur: map<Path, Bytes>, led: Ledger)
    {
      forall q | q in xs :: SettledIn(cur, led, q)
    }

    /**
     * Over files outside the output directory (`outside`): without errors they
     * end settled, and when all were settled at the start (`settled0`) they stay so.
     */
    ghost predicate SettledInv(files: seq<Path>, k: nat, outside: bool, settled0: bool, counts: Counts,
                               cur: map<Path, Bytes>, led: Ledger)
      requires k <= |files|
    {
      outside ==>
        && (counts.errors == 0 ==> AllSettled(files[..k], cur, led))
        && (settled0 ==> counts.processed == 0 && AllSettled(files, cur, led))
    }

    /** Before the first file nothing is counted and everything holds trivially. */
    lemma {:induction false} CopyInvInit(files: seq<Path>, files0: map<Path, Bytes>, ledger0: Ledger,
                                         outside: bool, settled0: bool, counts: Counts)
      requires counts.processed == 0 && counts.duplicates == 0
      requires settled0 ==> AllSettled(files, files0, ledger0)
      ensures CopyInv(files, 0, files0, ledger0, outside, settled0, counts, files0, ledger0)
    {
      assert files[..0] == [];
      assert RecordedAmong(files[..0], files0, ledger0) == {};
    }

    lemma {:induction false} AdvanceCopy(files: seq<Path>, k: nat, files0: map<Path, Bytes>, ledger0: Ledger,
                                         outside: bool, settled0: bool,
                                         filesPre: map<Path, Bytes>, ledgerPre: Ledger, before: Counts,
                                         cur: map<Path, Bytes>, led: Ledger, after: Counts)
      requires Copying() && k < |files|
      requires outside ==> AllOutside(files)
      requires CopyInv(files, k, files0, ledger0, outside, settled0, before, filesPre, ledgerPre)
      requires StepFacts(files[k], filesPre, ledgerPre, before, cur, led, after)
      ensures CopyInv(files, k + 1, files0, ledger0, outside, settled0, after, cur, led)
    {
      var p := files[k];
      assert Kept(filesPre, ledgerPre, cur, led);
      CountStep(files, k, filesPre, ledgerPre, files0, ledger0, before, cur, led, after);
      AdvanceSettled(files, k, outside, settled0, filesPre, ledgerPre, before, cur, led, after);
    }

    lemma {:induction false} AdvanceSettled(files: seq<Path>, k: nat, outside: bool, settled0: bool,
                                            filesPre: map<Path, Bytes>, ledgerPre: Ledger, before: Counts,
                                            cur: map<Path, Bytes>, led: Ledger, after: Counts)
      requires Copying() && k < |files|
      requires outside ==> AllOutside(files)
      requires SettledInv(files, k, outside, settled0, before, filesPre, ledgerPre)
      requires Kept(filesPre, ledgerPre, cur, led)
      requires forall q | q in cur && q !in filesPre :: InOutputDir(q)
      requires after.errors >= before.errors
      requires SettledIn(filesPre, ledgerPre, files[k]) ==> after.processed == before.processed
      requires after.errors == before.errors ==> SettledIn(cur, led, files[k])
      ensures SettledInv(files, k + 1, outside, settled0, after, cur, led)
    {
      var p := files[k];
      PrefixStep(files, k);
      if outside {
        forall q | q in files && SettledIn(filesPre, ledgerPre, q) ensures SettledIn(cur, led, q) {
          assert !InOutputDir(q);
          SettledStable(filesPre, ledgerPre, cur, led, q);
        }
        if after.errors == 0 {
          forall q | q in files[..k + 1] ensures SettledIn(cur, led, q) {
            if q != p {
              assert q in files[..k];
            }
          }
        }
        if settled0 {
          assert SettledIn(filesPre, ledgerPre, p);
        }
      }
    }

    /**
     * The counting step of the loop in copy mode: a file newly processed
     * joins the recorded files, and a file recorded at the start of the
     * loop adds a duplicate.
     */
    lemma {:induction false} CountStep(files: seq<Path>, k: nat, filesPre: map<Path, Bytes>, ledgerPre: Ledger,
                                       files0: map<Path, Bytes>, ledger0: Ledger, before: Counts,
                                       cur: map<Path, Bytes>, led: Ledger, after: Counts)
      requires k < |files|
      requires forall q | RecordedIn(filesPre, ledgerPre, q) :: RecordedIn(cur, led, q)
      requires forall q | RecordedIn(files0, ledger0, q) :: RecordedIn(filesPre, ledgerPre, q)
      requires before.processed <= |RecordedAmong(files[..k], filesPre, ledgerPre)|
      requires before.duplicates >= |RecordedAmong(files[..k], files0, ledger0)|
      requires after.processed > before.processed ==>
                 IsSupportedExtension(config, files[k]) && RecordedIn(cur, led, files[k])
                 && !RecordedIn(filesPre, ledgerPre, files[k])
      requires IsSupportedExtension(config, files[k]) && RecordedIn(filesPre, ledgerPre, files[k]) ==>
                 after.duplicates == before.duplicates + 1
      requires after.processed >= before.processed && after.duplicates >= before.duplicates
      requires after.processed <= before.processed + 1
      ensures after.processed <= |RecordedAmong(files[..k + 1], cur, led)|
      ensures after.duplicates >= |RecordedAmong(files[..k + 1], files0, ledger0)|
    {
      var p := files[k];
      PrefixStep(files, k);
      AmongSnoc(files[..k], p, cur, led);
      AmongSnoc(files[..k], p, files0, ledger0);
      var old1, new1 := RecordedAmong(files[..k], filesPre, ledgerPre), RecordedAmong(files[..k + 1], cur, led);
      assert old1 <= new1;
      if after.processed > before.processed {
        AtLeastOneMore(old1, new1, p);
      } else {
        SubsetNoLarger(old1, new1);
      }
      var old0, new0 := RecordedAmong(files[..k], files0, ledger0), RecordedAmong(files[..k + 1], files0, ledger0);
      if p in new0 && p !in old0 {
        AtMostOneMore(old0, new0, p);
      } else {
        SubsetNoLarger(new0, old0);
      }
    }

    /**
     * Two copy-mode runs over the same input directory: both list the same
     * files, and when the first run met no error the second processes
     * nothing and counts every file the first one processed as a duplicate.
     * When, besides, every ancestor of the output directory exists at the
     * start, the second run lists exactly the files of the first, skips
     * the same ones, counts all the others as duplicates, and leaves the
     * files, directories and ledger the first run left (`filesMid`,
     * `dirsMid`, `ledgerMid`) as they are.
     */
    method OrganizeTwice(input: Path, faults1: Path -> Faults, faults2: Path -> Faults)
      returns (first: Counts, second: Counts, ghost listed1: seq<Path>, ghost listed2: seq<Path>,
               ghost filesMid: map<Path, Bytes>, ghost dirsMid: set<Path>, ghost ledgerMid: Ledger)
      requires Valid() && config.copyMode && !config.renameOnly && !config.dryRun
      modifies this, fs
      ensures forall q | q in fs.files :: q in listed1 <==> q in listed2
      ensures first.errors == 0 ==> second.processed == 0 && second.duplicates >= first.processed
      ensures forall q | q in old(fs.files) :: q in filesMid && filesMid[q] == old(fs.files[q])
      ensures old(fs.dirs) <= dirsMid
      ensures AboveOutputExists(old(fs.dirs)) && first.errors == 0 ==>
                && listed2 == listed1
                && second == Counts(0, first.skipped, first.duplicates + first.processed, 0)
                && fs.files == filesMid && fs.dirs == dirsMid && ledger == ledgerMid
    {
      ghost var files0, dirs0 := fs.files, fs.dirs;
      first, listed1 := ProcessDirectory(input, faults1);
      filesMid, dirsMid, ledgerMid := fs.files, fs.dirs, ledger;
      ghost var above := AboveOutputExists(dirs0);
      // outside the output directory the second run lists what the first did, files at least
      ListingKept(input, files0, dirs0, filesMid, dirsMid, above);
      ghost var quiet := above && first.errors == 0;
      if quiet {
        assert AboveOutputExists(dirsMid);
        assert AllQuiet(listed1, filesMid, dirsMid, ledgerMid);
      }
      second, listed2 := ProcessDirectory(input, faults2);
      if quiet {
        SameListing(input, listed1, listed2, ListingIn(files0, dirs0, input), ListingIn(filesMid, dirsMid, input));
        assert AllQuiet(listed2, filesMid, dirsMid, ledgerMid);
        assert second.skipped == first.skipped;
      }
      ghost var listing0, listing1 := ListingIn(files0, dirs0, input), ListingIn(filesMid, dirsMid, input);
      ListedAlike(listed1, listed2, listing0, listing1, filesMid, fs.files);
      if first.errors == 0 {
        SecondSettled(listed1, listed2, listing0, listing1, filesMid, ledgerMid);
      }
    }

    /** The two listings agree on every file that exists after both runs. */
    lemma {:induction false} ListedAlike(listed1: seq<Path>, listed2: seq<Path>, listing0: set<Path>, listing1: set<Path>,
                                         filesMid: map<Path, Bytes>, files: map<Path, Bytes>)
      requires forall q :: q in listed1 <==> q in listing0 && !InOutputDir(q)
      requires forall q :: q in listed2 <==> q in listing1 && !InOutputDir(q)
      requires listing0 <= listing1
      requires forall q | q in listing1 && !InOutputDir(q) && q in filesMid :: q in listing0
      requires forall q | q in files && q !in filesMid :: InOutputDir(q)
      ensures forall q | q in files :: q in listed1 <==> q in listed2
    {
    }

    /**
     * After a first run without errors the second run's files are settled,
     * and it finds at least as many of them recorded as the first run's.
     */
    lemma {:induction false} SecondSettled(listed1: seq<Path>, listed2: seq<Path>, listing0: set<Path>, listing1: set<Path>,
                                           filesMid: map<Path, Bytes>, ledgerMid: Ledger)
      requires forall q :: q in listed1 <==> q in listing0 && !InOutputDir(q)
      requires forall q :: q in listed2 <==> q in listing1 && !InOutputDir(q)
      requires listing0 <= listing1
      requires forall q | q in listing1 && !InOutputDir(q) && q in filesMid :: q in listing0
      requires AllSettled(listed1, filesMid, ledgerMid)
      ensures AllSettled(listed2, filesMid, ledgerMid)
      ensures |RecordedAmong(listed1, filesMid, ledgerMid)| <= |RecordedAmong(listed2, filesMid, ledgerMid)|
    {
      forall q | q in listed2 ensures SettledIn(filesMid, ledgerMid, q) {
        if q in filesMid {
          assert q in listed1;
        }
      }
      assert RecordedAmong(listed1, filesMid, ledgerMid) <= RecordedAmong(listed2, filesMid, ledgerMid);
      SubsetNoLarger(RecordedAmong(listed1, filesMid, ledgerMid), RecordedAmong(listed2, filesMid, ledgerMid));
    }
  }
}
