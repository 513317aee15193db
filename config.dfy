/**
 * The organizer's settings (`Config` in photo_organizer/config.py): a
 * dataclass whose `__post_init__` fills in the default extension list,
 * normalises every extension to lower case without leading dots, and turns
 * a string output directory into a path.
 */
module Configuration {
  import opened Wrappers
  import opened Text
  import opened Paths

  /** An output directory as the caller passes it: a string or a path. */
  datatype PathArg = FromString(s: string) | FromPath(p: Path)

  datatype Config = Config(
    outputDir: Path,
    extensions: seq<string>,
    dryRun: bool,
    copyMode: bool,
    createBackups: bool,
    verifyChecksums: bool,
    maxDuplicateSuffix: int,
    /** Read by the organizer but not declared by `Config`; see README. */
    renameOnly: bool)

  const DefaultExtensions: seq<string> := ["jpg", "jpeg", "png", "tiff", "raw", "cr2", "nef", "arw"]

  /** `ext.lower().lstrip('.')` */
  function NormalizeExtension(ext: string): (r: string)
    ensures r == [] || r[0] != '.'
    ensures forall i | 0 <= i < |r| :: !('A' <= r[i] <= 'Z')
  {
    var low := Lower(ext);
    var r := LStrip(low, '.');
    assert forall i | 0 <= i < |r| :: r[i] == low[|low| - |r| + i];
    r
  }

  predicate IsNormalized(ext: string)
  {
    (ext == [] || ext[0] != '.') && forall i | 0 <= i < |ext| :: !('A' <= ext[i] <= 'Z')
  }

  /** Normalising an already normalised extension changes nothing. */
  lemma {:induction false} NormalizeExtensionFixes(ext: string)
    requires IsNormalized(ext)
    ensures NormalizeExtension(ext) == ext
  {
    assert Lower(ext) == ext;
  }

  /** Normalising twice is normalising once. */
  lemma {:induction false} NormalizeExtensionIdempotent(ext: string)
    ensures NormalizeExtension(NormalizeExtension(ext)) == NormalizeExtension(ext)
  {
    NormalizeExtensionFixes(NormalizeExtension(ext));
  }

  /** The pieces of `s` between '/' separators (empty pieces included). */
  function SplitSlash(s: string): (r: seq<string>)
    ensures |r| >= 1
    ensures forall i | 0 <= i < |r| :: '/' !in r[i]
  {
    if s == [] then [[]]
    else
      var rest := SplitSlash(s[1..]);
      if s[0] == '/' then [[]] + rest else [[s[0]] + rest[0]] + rest[1..]
  }

  function DropEmpty(parts: seq<string>): (r: seq<string>)
    ensures forall i | 0 <= i < |r| :: r[i] != [] && r[i] != "."
    ensures forall i | 0 <= i < |r| :: r[i] in parts
  {
    if parts == [] then []
    else (if parts[0] == [] || parts[0] == "." then [] else [parts[0]]) + DropEmpty(parts[1..])
  }

  /**
   * `Path(s)`: repeated and trailing separators and "." components vanish;
   * a leading '/' becomes the root component.
   */
  function ParsePath(s: string): (p: Path)
    ensures forall i | 0 <= i < |p| :: p[i] != [] && p[i] != "." && ('/' !in p[i] || (i == 0 && p[i] == "/"))
    ensures IsAbsolute(p) <==> StartsWith(s, "/")
  {
    var comps := DropEmpty(SplitSlash(s));
    if StartsWith(s, "/") then ["/"] + comps else comps
  }

  function ToPath(arg: PathArg): Path
  {
    match arg
    case FromString(s) => ParsePath(s)
    case FromPath(p) => p
  }

  function NormalizeAll(exts: seq<string>): (r: seq<string>)
    ensures |r| == |exts|
    ensures forall i | 0 <= i < |exts| :: r[i] == NormalizeExtension(exts[i])
    ensures forall i | 0 <= i < |r| :: IsNormalized(r[i])
  {
    seq(|exts|, i requires 0 <= i < |exts| => NormalizeExtension(exts[i]))
  }

  /** Normalising a normalised list again changes nothing. */
  lemma {:induction false} NormalizeAllIdempotent(exts: seq<string>)
    ensures NormalizeAll(NormalizeAll(exts)) == NormalizeAll(exts)
  {
    var r := NormalizeAll(exts);
    forall i | 0 <= i < |r| ensures NormalizeAll(r)[i] == r[i] {
      NormalizeExtensionFixes(r[i]);
    }
  }

  /** `Config(...)` followed by `__post_init__`. */
  function NewConfig(outputDir: PathArg, extensions: Option<seq<string>>, dryRun: bool,
                     copyMode: bool, createBackups: bool, verifyChecksums: bool,
                     maxDuplicateSuffix: int, renameOnly: bool): (c: Config)
    ensures extensions.None? ==> c.extensions == DefaultExtensions
    ensures extensions.Some? ==> |c.extensions| == |extensions.value|
    ensures extensions.Some? ==>
              forall i | 0 <= i < |extensions.value| :: c.extensions[i] == NormalizeExtension(extensions.value[i])
    ensures extensions.Some? ==> forall e | e in extensions.value :: NormalizeExtension(e) in c.extensions
    ensures forall i | 0 <= i < |c.extensions| :: IsNormalized(c.extensions[i])
    ensures outputDir.FromPath? ==> c.outputDir == outputDir.p
    ensures outputDir.FromString? ==> c.outputDir == ParsePath(outputDir.s)
    ensures c.dryRun == dryRun && c.copyMode == copyMode && c.createBackups == createBackups
    ensures c.verifyChecksums == verifyChecksums && c.maxDuplicateSuffix == maxDuplicateSuffix
    ensures c.renameOnly == renameOnly
  {
    var exts := NormalizeAll(extensions.GetOr(DefaultExtensions));
    DefaultExtensionsNormalized();
    Config(ToPath(outputDir), exts, dryRun, copyMode, createBackups, verifyChecksums,
           maxDuplicateSuffix, renameOnly)
  }

  /** The built-in extension list is already in normal form. */
  lemma {:induction false} DefaultExtensionsNormalized()
    ensures NormalizeAll(DefaultExtensions) == DefaultExtensions
  {
    var d := DefaultExtensions;
    forall i | 0 <= i < |d| ensures IsNormalized(d[i]) {
      assert d[i] in {"jpg", "jpeg", "png", "tiff", "raw", "cr2", "nef", "arw"};
    }
    forall i | 0 <= i < |d| ensures NormalizeAll(d)[i] == d[i] {
      NormalizeExtensionFixes(d[i]);
    }
  }

  /** `Config()` with every default. */
  function DefaultConfig(): (c: Config)
    ensures c.outputDir == ["archive"] && c.extensions == DefaultExtensions
    ensures !c.dryRun && !c.copyMode && !c.createBackups && c.verifyChecksums
    ensures c.maxDuplicateSuffix == 999 && !c.renameOnly
  {
    NewConfig(FromPath(["archive"]), None, false, false, false, true, 999, false)
  }

  /** Running `__post_init__` on an already built config changes nothing. */
  lemma {:induction false} NewConfigIdempotent(outputDir: PathArg, extensions: Option<seq<string>>, dryRun: bool,
                            copyMode: bool, createBackups: bool, verifyChecksums: bool,
                            maxDuplicateSuffix: int, renameOnly: bool)
    ensures var c := NewConfig(outputDir, extensions, dryRun, copyMode, createBackups,
                               verifyChecksums, maxDuplicateSuffix, renameOnly);
            NewConfig(FromPath(c.outputDir), Some(c.extensions), c.dryRun, c.copyMode,
                      c.createBackups, c.verifyChecksums, c.maxDuplicateSuffix, c.renameOnly) == c
  {
    var c := NewConfig(outputDir, extensions, dryRun, copyMode, createBackups,
                       verifyChecksums, maxDuplicateSuffix, renameOnly);
    var again := NewConfig(FromPath(c.outputDir), Some(c.extensions), c.dryRun, c.copyMode,
                           c.createBackups, c.verifyChecksums, c.maxDuplicateSuffix, c.renameOnly);
    forall i | 0 <= i < |c.extensions| ensures again.extensions[i] == c.extensions[i] {
      NormalizeExtensionFixes(c.extensions[i]);
    }
  }

  /** `file_path.suffix.lower().lstrip('.') in self.extensions` */
  predicate IsSupportedExtension(c: Config, p: Path)
  {
    NormalizeExtension(Suffix(p)) in c.extensions
  }

  /** A path is supported exactly when its lower-cased suffix, dot removed, is listed. */
  lemma {:induction false} SupportedExtensionMeaning(c: Config, p: Path)
    ensures IsSupportedExtension(c, p) <==>
              if Suffix(p) == [] then "" in c.extensions else Lower(Suffix(p)[1..]) in c.extensions
  {
    SuffixNormalized(Suffix(p));
  }

  lemma {:induction false} SuffixNormalized(suffix: string)
    requires suffix == [] || (suffix[0] == '.' && |suffix| >= 2 && '.' !in suffix[1..])
    ensures NormalizeExtension(suffix) == if suffix == [] then [] else Lower(suffix[1..])
  {
    if suffix != [] {
      var low := Lower(suffix);
      assert low[1..] == Lower(suffix[1..]);
      assert low[1] != '.' by {
        assert suffix[1] == suffix[1..][0];
      }
      assert LStrip(low[1..], '.') == low[1..];
    }
  }
}
