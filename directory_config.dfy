// Per-directory configurations: the dataclass defaults, the path-to-filename
// sanitiser and the manager's in-memory map from resolved source directories
// to their configurations.

module DirectoryConfigs {
  import opened Wrappers
  import opened Text
  import opened Paths
  import opened Configuration
  import Organizer

  // ---------------------------------------------------------------------------
  // Paths as text: `str(path)` and `Path(text)` for POSIX paths
  // ---------------------------------------------------------------------------

  /** Relative path components: non-empty, not ".", without a separator. */
  predicate Components(cs: seq<string>)
  {
    forall i | 0 <= i < |cs| :: cs[i] != "" && cs[i] != "." && '/' !in cs[i]
  }

  /** The shape `Path` objects have: an optional root "/" followed by components. */
  predicate WellFormed(p: Path)
  {
    p == [] || (if p[0] == "/" then Components(p[1..]) else Components(p))
  }

  /** Components joined by "/". */
  function Join(cs: seq<string>): string
  {
    if cs == [] then "" else if |cs| == 1 then cs[0] else cs[0] + "/" + Join(cs[1..])
  }

  /** `str(path)`: the empty path prints as ".". */
  function PathString(p: Path): (r: string)
    ensures WellFormed(p) ==> r != []
  {
    if p == [] then "."
    else if p[0] == "/" then "/" + Join(p[1..])
    else Join(p)
  }

  lemma {:induction false} SplitAfter(a: string, b: string)
    requires '/' !in a
    ensures SplitSlash(a + b) == [a + SplitSlash(b)[0]] + SplitSlash(b)[1..]
    decreases |a|
  {
    if a == [] {
      assert a + b == b;
      assert a + SplitSlash(b)[0] == SplitSlash(b)[0];
      assert SplitSlash(b) == [SplitSlash(b)[0]] + SplitSlash(b)[1..];
    } else {
      assert (a + b)[1..] == a[1..] + b;
      SplitAfter(a[1..], b);
      assert [a[0]] + (a[1..] + SplitSlash(b)[0]) == a + SplitSlash(b)[0];
    }
  }

  lemma {:induction false} SplitJoin(cs: seq<string>)
    requires cs != [] && Components(cs)
    ensures SplitSlash(Join(cs)) == cs
    decreases |cs|
  {
    if |cs| == 1 {
      SplitAfter(cs[0], "");
      assert cs[0] + "" == cs[0];
    } else {
      var j := Join(cs[1..]);
      assert Join(cs) == cs[0] + ("/" + j);
      SplitAfter(cs[0], "/" + j);
      assert ("/" + j)[0] == '/' && ("/" + j)[1..] == j;
      SplitJoin(cs[1..]);
      assert SplitSlash("/" + j) == [""] + cs[1..];
      assert cs[0] + "" == cs[0];
      assert cs == [cs[0]] + cs[1..];
    }
  }

  lemma {:induction false} DropEmptyKeeps(cs: seq<string>)
    requires Components(cs)
    ensures DropEmpty(cs) == cs
    decreases |cs|
  {
    if cs != [] {
      DropEmptyKeeps(cs[1..]);
    }
  }

  lemma {:induction false} RoundTripRoot()
    ensures ParsePath("/") == ["/"]
  {
    assert StartsWith("/", "/") && "/"[1..] == "";
    assert SplitSlash("") == [""];
    assert SplitSlash("/") == ["", ""];
    assert ["", ""][1..] == [""];
    assert DropEmpty([""]) == [];
    assert DropEmpty(["", ""]) == [];
  }

  lemma {:induction false} RoundTripAbsolute(rest: seq<string>)
    requires rest != [] && Components(rest)
    ensures ParsePath("/" + Join(rest)) == ["/"] + rest
  {
    var s := "/" + Join(rest);
    assert s[0] == '/' && s[1..] == Join(rest);
    SplitJoin(rest);
    assert SplitSlash(s) == [""] + rest;
    var parts := [""] + rest;
    assert parts[0] == "" && parts[1..] == rest;
    DropEmptyKeeps(rest);
    assert DropEmpty(parts) == rest;
    assert StartsWith(s, "/");
  }

  lemma {:induction false} RoundTripRelative(p: seq<string>)
    requires p != [] && Components(p)
    ensures ParsePath(Join(p)) == p
  {
    var s := Join(p);
    assert p[0] != [] && '/' !in p[0];
    assert p[0][0] in p[0];
    JoinFirst(p);
    assert s[0] != '/';
    assert !StartsWith(s, "/");
    SplitJoin(p);
    DropEmptyKeeps(p);
    assert DropEmpty(SplitSlash(s)) == p;
  }

  lemma {:induction false} JoinFirst(p: seq<string>)
    requires p != [] && p[0] != []
    ensures Join(p) != [] && Join(p)[0] == p[0][0]
  {
    if |p| > 1 {
      assert Join(p) == p[0] + ("/" + Join(p[1..]));
    }
  }

  /** Printing a path and parsing the text gives the path back. */
  lemma {:induction false} PathRoundTrip(p: Path)
    requires WellFormed(p)
    ensures ParsePath(PathString(p)) == p
  {
    if p == [] {
      assert "."[0] == '.' && "."[1..] == "";
      assert SplitSlash(".") == [['.'] + ""];
    } else if p == ["/"] {
      RoundTripRoot();
    } else if p[0] == "/" {
      RoundTripAbsolute(p[1..]);
      assert p == ["/"] + p[1..];
    } else {
      RoundTripRelative(p);
    }
  }

  /** Distinct paths print differently. */
  lemma {:induction false} PathStringInjective(p: Path, q: Path)
    requires WellFormed(p) && WellFormed(q) && p != q
    ensures PathString(p) != PathString(q)
  {
    PathRoundTrip(p);
    PathRoundTrip(q);
  }

  // ---------------------------------------------------------------------------
  // BackupDriveConfig
  // ---------------------------------------------------------------------------

  /** The `mount_path` a caller supplies: nothing, text, or a path. */
  datatype MountArg = NoMount | MountText(text: string) | MountAt(path: Path)

  datatype BackupDrive = BackupDrive(
    driveLabel: string,
    uuid: Option<string>,
    mountPath: Option<Path>,
    targetPath: string,
    enabled: bool,
    verifySync: bool)

  /** `BackupDriveConfig(...)` with its `__post_init__`. */
  function NewBackupDrive(driveLabel: string, uuid: Option<string>, mount: MountArg,
                          targetPath: string, enabled: bool, verifySync: bool): (d: BackupDrive)
    ensures d.mountPath.None? <==> mount.NoMount? || mount == MountText("")
    ensures mount.MountText? && mount.text != "" ==> d.mountPath == Some(ParsePath(mount.text))
    ensures mount.MountAt? ==> d.mountPath == Some(mount.path)
    ensures d.driveLabel == driveLabel && d.uuid == uuid && d.targetPath == targetPath
    ensures d.enabled == enabled && d.verifySync == verifySync
  {
    var m := match mount
      case NoMount => None
      case MountText(s) => if s != "" then Some(ParsePath(s)) else None
      case MountAt(p) => Some(p);
    BackupDrive(driveLabel, uuid, m, targetPath, enabled, verifySync)
  }

  /** A mount path stored as `str(path)` comes back as the same path. */
  lemma {:induction false} MountPathRoundTrip(driveLabel: string, p: Path)
    requires WellFormed(p)
    ensures NewBackupDrive(driveLabel, None, MountText(PathString(p)), "", true, true).mountPath == Some(p)
  {
    PathRoundTrip(p);
  }

  // ---------------------------------------------------------------------------
  // GooglePhotosConfig and DirectoryConfig
  // ---------------------------------------------------------------------------

  datatype GooglePhotos = GooglePhotos(
    accountEmail: string,
    credentialsFile: Option<string>,
    albumNamePattern: string,
    albumDescriptionPattern: string,
    enabled: bool,
    uploadQuality: string,
    createAlbumsAutomatically: bool,
    groupBy: string)

  /** `GooglePhotosConfig()`: the field defaults. */
  const DefaultGooglePhotos := GooglePhotos("", None, "{year}_{month:02d}",
    "Photos from {year}-{month:02d}", false, "original", true, "month")

  const DefaultOutputDir: Path := ["archive"]
  const DefaultRenamePattern := "{year}-{month:02d}-{day:02d}_{hour:02d}-{minute:02d}-{second:02d}"
  const DefaultFolderPattern := "{year}/{year}_{month:02d}"

  datatype DirectoryConfig = DirectoryConfig(
    sourcePath: Path,
    outputDir: Path,
    extensions: seq<string>,
    renamePattern: string,
    organizeIntoFolders: bool,
    folderPattern: string,
    backupDrives: seq<BackupDrive>,
    googlePhotos: GooglePhotos,
    createdAt: string,
    updatedAt: string)

  /**
   * `DirectoryConfig(...)` with its `__post_init__`. An argument left at its
   * default is `None`; `now` is the timestamp `datetime.now().isoformat()`
   * produces, and it replaces any supplied `updated_at`.
   */
  function NewDirectoryConfig(source: PathArg, outputDir: Option<PathArg>,
                              extensions: Option<seq<string>>, renamePattern: string,
                              organizeIntoFolders: bool, folderPattern: string,
                              backupDrives: Option<seq<BackupDrive>>,
                              googlePhotos: Option<GooglePhotos>,
                              createdAt: Option<string>, updatedAt: Option<string>,
                              now: string): (c: DirectoryConfig)
    ensures c.sourcePath == ToPath(source)
    ensures c.outputDir == if outputDir.Some? then ToPath(outputDir.value) else DefaultOutputDir
    ensures c.extensions == extensions.GetOr(DefaultExtensions)
    ensures c.backupDrives == backupDrives.GetOr([])
    ensures c.googlePhotos == googlePhotos.GetOr(DefaultGooglePhotos)
    ensures c.updatedAt == now
    ensures c.createdAt == createdAt.GetOr(now)
    ensures createdAt.None? ==> c.createdAt == c.updatedAt
  {
    DirectoryConfig(
      ToPath(source),
      if outputDir.Some? then ToPath(outputDir.value) else DefaultOutputDir,
      if extensions.Some? then extensions.value else DefaultExtensions,
      renamePattern, organizeIntoFolders, folderPattern,
      if backupDrives.Some? then backupDrives.value else [],
      if googlePhotos.Some? then googlePhotos.value else DefaultGooglePhotos,
      if createdAt.Some? then createdAt.value else now,
      now)
  }

  /** `DirectoryConfig(source_path=...)` with every other argument left at its default. */
  lemma {:induction false} DefaultsFilledIn(source: string, now: string)
    ensures var c := NewDirectoryConfig(FromString(source), None, None, DefaultRenamePattern, true,
                                        DefaultFolderPattern, None, None, None, None, now);
      && c.outputDir == ["archive"]
      && |c.extensions| == 8 && c.extensions[0] == "jpg"
      && c.backupDrives == [] && !c.googlePhotos.enabled
      && c.createdAt == c.updatedAt == now
  {
  }

  // ---------------------------------------------------------------------------
  // _path_to_filename
  // ---------------------------------------------------------------------------

  /** Characters that `_path_to_filename` removes. */
  predicate Unsafe(c: char) { c == '/' || c == '\\' || c == ':' || c == ' ' || c == '~' }

  predicate NoUnsafe(s: string) { forall i | 0 <= i < |s| :: !Unsafe(s[i]) }

  /** The five replacements of `_path_to_filename`, in the order the source applies them. */
  function ReplaceUnsafe(s: string): string
  {
    var a := ReplaceChar(ReplaceChar(ReplaceChar(s, '/', "_"), '\\', "_"), ':', "_");
    ReplaceChar(ReplaceChar(a, ' ', "_"), '~', "home")
  }

  /** What the replacements do to one character. */
  function SafeText(c: char): (r: string)
    ensures NoUnsafe(r) && r != []
  {
    if c == '/' || c == '\\' || c == ':' || c == ' ' then "_"
    else if c == '~' then "home"
    else [c]
  }

  /** The replacements as one pass, character by character. */
  function Sanitise(s: string): (r: string)
    ensures NoUnsafe(r)
  {
    if s == [] then [] else SafeText(s[0]) + Sanitise(s[1..])
  }

  lemma {:induction false} SanitiseSafe(s: string)
    requires NoUnsafe(s)
    ensures Sanitise(s) == s
    decreases |s|
  {
    if s != [] {
      SanitiseSafe(s[1..]);
      assert [s[0]] + s[1..] == s;
    }
  }

  lemma {:induction false} ReplaceAppend(a: string, b: string, from: char, to: string)
    ensures ReplaceChar(a + b, from, to) == ReplaceChar(a, from, to) + ReplaceChar(b, from, to)
    decreases |a|
  {
    if a == [] {
      assert a + b == b;
    } else {
      assert (a + b)[1..] == a[1..] + b;
      ReplaceAppend(a[1..], b, from, to);
    }
  }

  lemma {:induction false} ReplaceOne(c: char, from: char, to: string)
    ensures ReplaceChar([c], from, to) == if c == from then to else [c]
  {
    assert [c][1..] == [];
  }

  lemma {:induction false} ReplaceUnsafeChar(c: char)
    ensures ReplaceUnsafe([c]) == SafeText(c)
  {
    ReplaceOne(c, '/', "_");
    ReplaceOne(c, '\\', "_");
    ReplaceOne(c, ':', "_");
    ReplaceOne(c, ' ', "_");
    ReplaceOne(c, '~', "home");
    ReplaceOne('_', '\\', "_");
    ReplaceOne('_', ':', "_");
    ReplaceOne('_', ' ', "_");
    ReplaceOne('_', '~', "home");
  }

  lemma {:induction false} ReplaceUnsafeAppend(a: string, b: string)
    ensures ReplaceUnsafe(a + b) == ReplaceUnsafe(a) + ReplaceUnsafe(b)
  {
    var a1, b1 := ReplaceChar(a, '/', "_"), ReplaceChar(b, '/', "_");
    ReplaceAppend(a, b, '/', "_");
    var a2, b2 := ReplaceChar(a1, '\\', "_"), ReplaceChar(b1, '\\', "_");
    ReplaceAppend(a1, b1, '\\', "_");
    var a3, b3 := ReplaceChar(a2, ':', "_"), ReplaceChar(b2, ':', "_");
    ReplaceAppend(a2, b2, ':', "_");
    var a4, b4 := ReplaceChar(a3, ' ', "_"), ReplaceChar(b3, ' ', "_");
    ReplaceAppend(a3, b3, ' ', "_");
    ReplaceAppend(a4, b4, '~', "home");
  }

  /** The chain of replaces is the one-pass sanitiser: no replacement undoes an earlier one. */
  lemma {:induction false} ReplaceUnsafeIsSanitise(s: string)
    ensures ReplaceUnsafe(s) == Sanitise(s)
    decreases |s|
  {
    if s != [] {
      assert s == [s[0]] + s[1..];
      ReplaceUnsafeAppend([s[0]], s[1..]);
      ReplaceUnsafeChar(s[0]);
      ReplaceUnsafeIsSanitise(s[1..]);
    }
  }

  lemma {:induction false} NoUnsafeSlice(b: string, i: int, j: int)
    requires NoUnsafe(b) && 0 <= i <= j <= |b|
    ensures NoUnsafe(b[i..j])
  {
    assert forall k | 0 <= k < j - i :: b[i..j][k] == b[i + k];
  }

  /** `strip("_")`: leading and trailing underscores removed. */
  function StripUnderscores(b: string): (r: string)
    ensures r == [] || (r[0] != '_' && r[|r| - 1] != '_')
  {
    var t := RStrip(b, '_');
    var r := LStrip(t, '_');
    assert r != [] ==> r[|r| - 1] == t[|t| - 1];
    r
  }

  /** Stripping keeps a contiguous part of the name, so it adds no character. */
  lemma {:induction false} StripUnderscoresSafe(b: string)
    requires NoUnsafe(b)
    ensures NoUnsafe(StripUnderscores(b))
  {
    var t := RStrip(b, '_');
    var r := LStrip(t, '_');
    assert t == b[0..|t|];
    NoUnsafeSlice(b, 0, |t|);
    assert r == t[|t| - |r|..|t|];
    NoUnsafeSlice(t, |t| - |r|, |t|);
  }

  /** A name without "_" at either end is not stripped. */
  lemma {:induction false} StripUnderscoresKeeps(b: string)
    requires b == [] || (b[0] != '_' && b[|b| - 1] != '_')
    ensures StripUnderscores(b) == b
  {
    assert RStrip(b, '_') == b;
    assert LStrip(b, '_') == b;
  }

  /**
   * `_path_to_filename`: separators, colons and spaces become "_", "~" becomes
   * "home", and leading and trailing "_" are stripped.
   */
  function PathToFilename(s: string): (r: string)
    ensures NoUnsafe(r)
    ensures r == [] || (r[0] != '_' && r[|r| - 1] != '_')
  {
    ReplaceUnsafeIsSanitise(s);
    StripUnderscoresSafe(ReplaceUnsafe(s));
    StripUnderscores(ReplaceUnsafe(s))
  }

  /** A sanitised name is left as it is by a second pass. */
  lemma {:induction false} PathToFilenameIdempotent(s: string)
    ensures PathToFilename(PathToFilename(s)) == PathToFilename(s)
  {
    var r := PathToFilename(s);
    ReplaceUnsafeIsSanitise(r);
    SanitiseSafe(r);
    StripUnderscoresKeeps(r);
  }

  lemma {:induction false} SanitiseAppend(a: string, b: string)
    ensures Sanitise(a + b) == Sanitise(a) + Sanitise(b)
    decreases |a|
  {
    if a == [] {
      assert a + b == b;
    } else {
      assert (a + b)[1..] == a[1..] + b;
      SanitiseAppend(a[1..], b);
    }
  }

  lemma {:induction false} FilenameViaSanitise(s: string)
    ensures PathToFilename(s) == StripUnderscores(Sanitise(s))
  {
    ReplaceUnsafeIsSanitise(s);
  }

  /** Components joined by "_". */
  function Underscored(cs: seq<string>): string
  {
    if cs == [] then "" else if |cs| == 1 then cs[0] else cs[0] + "_" + Underscored(cs[1..])
  }

  lemma {:induction false} UnderscoredEnds(cs: seq<string>)
    requires cs != [] && forall i | 0 <= i < |cs| :: cs[i] != []
    ensures var u := Underscored(cs);
      u != [] && u[0] == cs[0][0] && u[|u| - 1] == cs[|cs| - 1][|cs[|cs| - 1]| - 1]
    decreases |cs|
  {
    if |cs| > 1 {
      UnderscoredEnds(cs[1..]);
    }
  }

  lemma {:induction false} SanitiseJoin(cs: seq<string>)
    requires cs != [] && forall i | 0 <= i < |cs| :: NoUnsafe(cs[i])
    ensures Sanitise(Join(cs)) == Underscored(cs)
    decreases |cs|
  {
    if |cs| == 1 {
      SanitiseSafe(cs[0]);
    } else {
      var j := Join(cs[1..]);
      assert Join(cs) == cs[0] + ("/" + j);
      SanitiseSeparated(cs[0], j);
      assert forall i | 0 <= i < |cs[1..]| :: NoUnsafe(cs[1..][i]) by {
        forall i | 0 <= i < |cs[1..]| ensures NoUnsafe(cs[1..][i]) {
          assert cs[1..][i] == cs[i + 1];
        }
      }
      SanitiseJoin(cs[1..]);
      assert Underscored(cs) == cs[0] + "_" + Underscored(cs[1..]);
    }
  }

  lemma {:induction false} SanitiseSeparated(a: string, j: string)
    requires NoUnsafe(a)
    ensures Sanitise(a + ("/" + j)) == a + "_" + Sanitise(j)
  {
    SanitiseSafe(a);
    SanitiseAppend(a, "/" + j);
    SanitiseAppend("/", j);
    assert Sanitise("/") == "_";
  }

  /**
   * An absolute directory whose components hold no replaced character and do
   * not begin or end the path with "_" is named by its components joined with "_"
   * (`/home/user/photos` gives `home_user_photos`).
   */
  lemma {:induction false} AbsoluteFilename(cs: seq<string>)
    requires cs != [] && forall i | 0 <= i < |cs| :: NoUnsafe(cs[i])
    requires forall i | 0 <= i < |cs| :: cs[i] != []
    requires cs[0][0] != '_' && cs[|cs| - 1][|cs[|cs| - 1]| - 1] != '_'
    ensures PathToFilename(PathString(["/"] + cs)) == Underscored(cs)
  {
    assert (["/"] + cs)[1..] == cs;
    var u := Underscored(cs);
    FilenameViaSanitise("/" + Join(cs));
    SanitiseAppend("/", Join(cs));
    assert Sanitise("/") == "_";
    SanitiseJoin(cs);
    UnderscoredEnds(cs);
    var b := "_" + u;
    assert b[|b| - 1] == u[|u| - 1] && b[1..] == u;
    assert RStrip(b, '_') == b;
    assert LStrip(b, '_') == LStrip(u, '_') == u;
  }

  /** A name the sanitiser leaves alone and that has no "_" at either end is the file name. */
  lemma {:induction false} FilenameOfSanitised(s: string, b: string)
    requires Sanitise(s) == b && b != [] && b[0] != '_' && b[|b| - 1] != '_'
    ensures PathToFilename(s) == b
  {
    FilenameViaSanitise(s);
    StripUnderscoresKeeps(b);
  }

  lemma {:induction false} SanitiseHome(x: string)
    requires NoUnsafe(x)
    ensures Sanitise("~/" + x) == "home_" + x
  {
    SanitiseAppend("~/", x);
    assert "~/"[1..] == "/";
    assert Sanitise("/") == "_";
    assert Sanitise("~/") == "home" + "_";
    SanitiseSafe(x);
  }

  /** A leading "~/" becomes "home_" (`~/Pictures` gives `home_Pictures`). */
  lemma {:induction false} HomeFilename(x: string)
    requires NoUnsafe(x) && x != [] && x[|x| - 1] != '_'
    ensures PathToFilename("~/" + x) == "home_" + x
  {
    SanitiseHome(x);
    var b := "home_" + x;
    assert b[0] == 'h' && b[|b| - 1] == x[|x| - 1];
    FilenameOfSanitised("~/" + x, b);
  }

  lemma {:induction false} SanitiseDriveLetter(d: string, x: string)
    requires NoUnsafe(d) && NoUnsafe(x)
    ensures Sanitise(d + ":\\" + x) == d + "__" + x
  {
    var sep := ":\\";
    assert sep == [':'] + ['\\'] && sep[1..] == ['\\'];
    assert Sanitise(['\\']) == "_";
    assert Sanitise(sep) == "__";
    SanitiseAppend(d + sep, x);
    SanitiseAppend(d, sep);
    SanitiseSafe(d);
    SanitiseSafe(x);
  }

  /**
   * A drive letter followed by ":\\" keeps both underscores: the replacements
   * never merge a run of "_" (`C:\\Users` gives `C__Users`).
   */
  lemma {:induction false} DriveLetterFilename(d: string, x: string)
    requires NoUnsafe(d) && d != [] && d[0] != '_'
    requires NoUnsafe(x) && x != [] && x[|x| - 1] != '_'
    ensures PathToFilename(d + ":\\" + x) == d + "__" + x
  {
    SanitiseDriveLetter(d, x);
    var b := d + "__" + x;
    assert b[0] == d[0] && b[|b| - 1] == x[|x| - 1];
    FilenameOfSanitised(d + ":\\" + x, b);
  }

  lemma {:induction false} SanitiseSpaceOrUnderscore(x: string, y: string)
    ensures Sanitise(x + " " + y) == Sanitise(x + "_" + y)
  {
    SanitiseAppend(x + " ", y);
    SanitiseAppend(x + "_", y);
    SanitiseAppend(x, " ");
    SanitiseAppend(x, "_");
    assert Sanitise(" ") == "_";
    assert Sanitise("_") == "_";
  }

  lemma {:induction false} PathStringOfChild(c: string)
    ensures PathString(["/", c]) == "/" + c
  {
    assert ["/", c][1..] == [c];
  }

  /** Two different directories can be given the same configuration file name. */
  lemma {:induction false} FilenamesCanCollide(x: string, y: string)
    ensures PathString(["/", x + " " + y]) != PathString(["/", x + "_" + y])
    ensures PathToFilename(PathString(["/", x + " " + y])) == PathToFilename(PathString(["/", x + "_" + y]))
  {
    var a, b := x + " " + y, x + "_" + y;
    PathStringOfChild(a);
    PathStringOfChild(b);
    assert ("/" + a)[|x| + 1] == ' ' && ("/" + b)[|x| + 1] == '_';
    SanitiseSpaceOrUnderscore(x, y);
    SanitiseAppend("/", a);
    SanitiseAppend("/", b);
    FilenameViaSanitise("/" + a);
    FilenameViaSanitise("/" + b);
  }

  // ---------------------------------------------------------------------------
  // DirectoryConfigManager
  // ---------------------------------------------------------------------------

  /** The key a configuration is stored under: `str(Path(p).resolve())`. */
  function Key(cwd: Path, p: PathArg): string
  {
    PathString(Organizer.Resolve(cwd, ToPath(p)))
  }

  /** Two directories that resolve to different paths never share a key. */
  lemma {:induction false} KeysDistinct(cwd: Path, p: PathArg, q: PathArg)
    requires WellFormed(Organizer.Resolve(cwd, ToPath(p))) && WellFormed(Organizer.Resolve(cwd, ToPath(q)))
    requires Organizer.Resolve(cwd, ToPath(p)) != Organizer.Resolve(cwd, ToPath(q))
    ensures Key(cwd, p) != Key(cwd, q)
  {
    PathStringInjective(Organizer.Resolve(cwd, ToPath(p)), Organizer.Resolve(cwd, ToPath(q)));
  }

  class DirectoryConfigManager {
    /** `_directory_configs`: resolved source directory text to its configuration. */
    var configs: map<string, DirectoryConfig>
    /** The working directory relative paths resolve against. */
    const cwd: Path

    /** The manager after `_load_index` produced `loaded`. */
    constructor (cwd0: Path, loaded: map<string, DirectoryConfig>)
      ensures cwd == cwd0 && configs == loaded
    {
      cwd := cwd0;
      configs := loaded;
    }

    /** `get_config`. */
    function GetConfig(p: PathArg): (r: Option<DirectoryConfig>)
      reads this
      ensures r.Some? <==> Key(cwd, p) in configs
      ensures r.Some? ==> r.value == configs[Key(cwd, p)]
    {
      if Key(cwd, p) in configs then Some(configs[Key(cwd, p)]) else None
    }

    /**
     * `set_config`: the configuration, stamped with `now`, is stored in memory
     * before its file is written; `writeOk` says whether writing the file and
     * the index succeeded. `stored` is the caller's object after the stamp.
     */
    method SetConfig(config: DirectoryConfig, now: string, writeOk: bool) returns (ok: bool, stored: DirectoryConfig)
      modifies this
      ensures stored == config.(updatedAt := now)
      ensures configs == old(configs)[Key(cwd, FromPath(config.sourcePath)) := stored]
      ensures GetConfig(FromPath(config.sourcePath)) == Some(stored)
      ensures ok == writeOk
    {
      var key := Key(cwd, FromPath(config.sourcePath));
      stored := config.(updatedAt := now);
      configs := configs[key := stored];
      ok := writeOk;
    }

    /** `list_configurations`: a snapshot of the map, unaffected by later changes. */
    method ListConfigurations() returns (snapshot: map<string, DirectoryConfig>)
      ensures snapshot.Keys == configs.Keys
      ensures forall k | k in snapshot :: snapshot[k] == configs[k]
    {
      snapshot := configs;
    }

    /**
     * `remove_config`: an unknown directory is reported with `false` and
     * nothing changes; otherwise the entry is removed first and `diskOk` says
     * whether removing its file and saving the index succeeded.
     */
    method RemoveConfig(p: PathArg, diskOk: bool) returns (ok: bool)
      modifies this
      ensures Key(cwd, p) !in old(configs) ==> !ok && configs == old(configs)
      ensures Key(cwd, p) in old(configs) ==> configs == old(configs) - {Key(cwd, p)} && ok == diskOk
      ensures GetConfig(p).None?
    {
      var key := Key(cwd, p);
      if key in configs {
        configs := configs - {key};
        ok := diskOk;
      } else {
        ok := false;
      }
    }
  }

  /** Storing one directory's configuration leaves every other directory's lookup as it was. */
  lemma {:induction false} SetKeepsOthers(cwd: Path, m: map<string, DirectoryConfig>, c: DirectoryConfig,
                                          stored: DirectoryConfig, q: PathArg)
    requires WellFormed(Organizer.Resolve(cwd, c.sourcePath)) && WellFormed(Organizer.Resolve(cwd, ToPath(q)))
    requires Organizer.Resolve(cwd, c.sourcePath) != Organizer.Resolve(cwd, ToPath(q))
    ensures var m' := m[Key(cwd, FromPath(c.sourcePath)) := stored];
      (Key(cwd, q) in m' <==> Key(cwd, q) in m) && (Key(cwd, q) in m ==> m'[Key(cwd, q)] == m[Key(cwd, q)])
  {
    KeysDistinct(cwd, FromPath(c.sourcePath), q);
  }
}
