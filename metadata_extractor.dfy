/**
 * The creation-date strategies of photo_organizer/metadata.py: the chain
 * that asks each available backend in turn and keeps the first date found,
 * and the EXIF tag lookups that feed a tag's text to the date parser.
 * What Pillow and exifread read out of an image, and the file's
 * modification time, arrive here as values.
 */
module MetadataExtractor {
  import opened Wrappers
  import opened Metadata

  /** The extraction strategies, in order of preference. */
  datatype Method = Pillow | ExifRead | FileSystem

  /** What one strategy did: returned a date or nothing, or raised. */
  datatype Attempt = Returned(value: Option<DateTime>) | Raised

  predicate Found(a: Attempt)
  {
    a.Returned? && a.value.Some?
  }

  /** The strategies `get_creation_date` tries: the installed libraries, then the filesystem. */
  function Methods(pillowAvailable: bool, exifreadAvailable: bool): (ms: seq<Method>)
    ensures |ms| >= 1 && ms[|ms| - 1] == FileSystem
    ensures Pillow in ms <==> pillowAvailable
    ensures ExifRead in ms <==> exifreadAvailable
    ensures pillowAvailable ==> ms[0] == Pillow
    ensures pillowAvailable && exifreadAvailable ==> ms[1] == ExifRead
  {
    (if pillowAvailable then [Pillow] else []) + (if exifreadAvailable then [ExifRead] else []) + [FileSystem]
  }

  /**
   * The first date any strategy returns; a strategy that raises or returns
   * nothing hands over to the next one.
   */
  function FirstDate(ms: seq<Method>, run: Method -> Attempt): (r: Option<DateTime>)
    ensures r.Some? <==> exists k | 0 <= k < |ms| :: Found(run(ms[k]))
    ensures r.Some? ==> exists k | 0 <= k < |ms| ::
              run(ms[k]) == Returned(r) && forall j | 0 <= j < k :: !Found(run(ms[j]))
  {
    if ms == [] then None
    else if Found(run(ms[0])) then run(ms[0]).value
    else
      var r := FirstDate(ms[1..], run);
      assert forall k | 1 <= k < |ms| :: ms[k] == ms[1..][k - 1];
      r
  }

  function GetCreationDate(pillowAvailable: bool, exifreadAvailable: bool, run: Method -> Attempt)
    : (r: Option<DateTime>)
  {
    FirstDate(Methods(pillowAvailable, exifreadAvailable), run)
  }

  /** With Pillow installed, a date from Pillow wins over every other strategy. */
  lemma {:induction false} PillowFirst(exifreadAvailable: bool, run: Method -> Attempt)
    requires Found(run(Pillow))
    ensures GetCreationDate(true, exifreadAvailable, run) == run(Pillow).value
  {
  }

  /** With no library installed, the modification time decides. */
  lemma {:induction false} FileSystemOnly(run: Method -> Attempt)
    ensures GetCreationDate(false, false, run) == (if Found(run(FileSystem)) then run(FileSystem).value else None)
  {
    assert Methods(false, false) == [FileSystem];
  }

  /** No date comes out when every available strategy fails. */
  lemma {:induction false} NothingFound(pillowAvailable: bool, exifreadAvailable: bool, run: Method -> Attempt)
    requires !Found(run(FileSystem))
    requires pillowAvailable ==> !Found(run(Pillow))
    requires exifreadAvailable ==> !Found(run(ExifRead))
    ensures GetCreationDate(pillowAvailable, exifreadAvailable, run).None?
  {
    var ms := Methods(pillowAvailable, exifreadAvailable);
    forall k | 0 <= k < |ms| ensures !Found(run(ms[k])) {
      assert ms[k] in ms;
    }
  }

  // ---------------------------------------------------------------------
  // EXIF tag lookups

  /** The tags Pillow is asked for, in order of preference. */
  const PillowTags := ["DateTimeOriginal", "DateTimeDigitized", "DateTime"]

  /** The tags exifread is asked for, in order of preference. */
  const ExifReadTags := ["EXIF DateTimeOriginal", "EXIF DateTimeDigitized", "Image DateTime"]

  /** An entry of an EXIF table, its tag already translated to a name, and its text. */
  type Entry = (string, string)

  predicate Carries(items: seq<Entry>, tag: string)
  {
    exists i | 0 <= i < |items| :: items[i].0 == tag && items[i].1 != ""
  }

  /** The text of the first entry carrying `tag` with a non-empty value. */
  function FirstEntry(items: seq<Entry>, tag: string): (r: Option<string>)
    ensures r.Some? <==> Carries(items, tag)
    ensures r.Some? ==> r.value != ""
    ensures r.Some? ==> exists i | 0 <= i < |items| ::
              items[i] == (tag, r.value) && forall j | 0 <= j < i :: !(items[j].0 == tag && items[j].1 != "")
  {
    if items == [] then None
    else if items[0].0 == tag && items[0].1 != "" then Some(items[0].1)
    else
      var r := FirstEntry(items[1..], tag);
      assert forall i | 1 <= i < |items| :: items[i] == items[1..][i - 1];
      r
  }

  /**
   * The Pillow walk: for each preferred tag in turn, the first entry
   * carrying it decides, and its text goes to the parser; a text that does
   * not parse ends the walk with nothing rather than moving on.
   */
  function PillowLookup(tags: seq<string>, items: seq<Entry>): (r: Option<DateTime>)
    ensures r.Some? ==> exists k | 0 <= k < |tags| :: Carries(items, tags[k])
    ensures (forall k | 0 <= k < |tags| :: !Carries(items, tags[k])) ==> r.None?
  {
    if tags == [] then None
    else
      match FirstEntry(items, tags[0])
      case Some(text) => ParseExifDate(text)
      case None =>
        var r := PillowLookup(tags[1..], items);
        assert forall k | 1 <= k < |tags| :: tags[k] == tags[1..][k - 1];
        r
  }

  /** `_get_date_with_pillow`; `None` for the EXIF table stands for a file Pillow cannot open. */
  function DateWithPillow(available: bool, exif: Option<seq<Entry>>): Option<DateTime>
  {
    if !available then None
    else match exif
      case None => None
      case Some(items) => PillowLookup(PillowTags, items)
  }

  /** The exifread walk over a tag dictionary: the first preferred tag present with text decides. */
  function ExifReadLookup(names: seq<string>, tags: map<string, string>): (r: Option<DateTime>)
    ensures r.Some? ==> exists k | 0 <= k < |names| :: names[k] in tags && tags[names[k]] != ""
  {
    if names == [] then None
    else if names[0] in tags && tags[names[0]] != "" then ParseExifDate(tags[names[0]])
    else
      var r := ExifReadLookup(names[1..], tags);
      assert forall k | 1 <= k < |names| :: names[k] == names[1..][k - 1];
      r
  }

  /** `_get_date_with_exifread`; `None` for the tag dictionary stands for an unreadable file. */
  function DateWithExifRead(available: bool, tags: Option<map<string, string>>): Option<DateTime>
  {
    if !available then None
    else match tags
      case None => None
      case Some(t) => ExifReadLookup(ExifReadTags, t)
  }

  /**
   * The preferred tag decides even when its text does not parse: a later
   * tag holding a good date is then never looked at.
   */
  lemma {:induction false} PreferredTagDecides(tags: seq<string>, items: seq<Entry>, k: nat)
    requires k < |tags| && Carries(items, tags[k])
    requires forall j | 0 <= j < k :: !Carries(items, tags[j])
    ensures PillowLookup(tags, items) == ParseExifDate(FirstEntry(items, tags[k]).value)
    decreases k
  {
    if k > 0 {
      PreferredTagDecides(tags[1..], items, k - 1);
    }
  }

  /** Likewise for exifread: the first preferred tag with text decides. */
  lemma {:induction false} PreferredNameDecides(names: seq<string>, tags: map<string, string>, k: nat)
    requires k < |names| && names[k] in tags && tags[names[k]] != ""
    requires forall j | 0 <= j < k :: !(names[j] in tags && tags[names[j]] != "")
    ensures ExifReadLookup(names, tags) == ParseExifDate(tags[names[k]])
    decreases k
  {
    if k > 0 {
      PreferredNameDecides(names[1..], tags, k - 1);
    }
  }

  /**
   * The whole extractor on one file, with the libraries' readings and the
   * modification time as inputs.
   */
  function Extract(pillowAvailable: bool, exifreadAvailable: bool, exif: Option<seq<Entry>>,
                   tags: Option<map<string, string>>, mtime: Option<DateTime>): (r: Option<DateTime>)
    ensures r.Some? ==> (r == DateWithPillow(pillowAvailable, exif)
                         || r == DateWithExifRead(exifreadAvailable, tags) || r == mtime)
    ensures mtime.Some? ==> r.Some?
  {
    var run := (m: Method) =>
      match m
      case Pillow => Returned(DateWithPillow(pillowAvailable, exif))
      case ExifRead => Returned(DateWithExifRead(exifreadAvailable, tags))
      case FileSystem => Returned(mtime);
    var ms := Methods(pillowAvailable, exifreadAvailable);
    assert mtime.Some? ==> Found(run(ms[|ms| - 1]));
    GetCreationDate(pillowAvailable, exifreadAvailable, run)
  }
}
