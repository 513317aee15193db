/**
 * Creation-date extraction (photo_organizer/metadata.py): the EXIF date
 * parser, which tries four `strptime` formats in order, and the chain of
 * extraction strategies in which the first strategy that yields a date
 * wins. The `strptime` matcher follows the regular expressions CPython's
 * `_strptime` builds for the directives used here, including their
 * alternatives, backtracking, and the "unconverted data remains" check.
 */
module Metadata {
  import opened Wrappers
  import opened Text

  datatype DateTime = DateTime(year: nat, month: nat, day: nat, hour: nat, minute: nat, second: nat)

  predicate IsLeapYear(y: nat)
  {
    y % 4 == 0 && (y % 100 != 0 || y % 400 == 0)
  }

  function DaysInMonth(y: nat, m: nat): nat
    requires 1 <= m <= 12
  {
    if m == 2 then (if IsLeapYear(y) then 29 else 28)
    else if m == 4 || m == 6 || m == 9 || m == 11 then 30
    else 31
  }

  /** The ranges the `datetime` constructor accepts. */
  predicate Valid(d: DateTime)
  {
    1 <= d.year <= 9999 && 1 <= d.month <= 12 && 1 <= d.day <= DaysInMonth(d.year, d.month)
    && d.hour <= 23 && d.minute <= 59 && d.second <= 59
  }

  // ---------------------------------------------------------------------
  // Formats

  datatype Field = Year | Month | Day | Hour | Minute | Second
  datatype Item = Num(field: Field) | Lit(c: char) | Spaces

  /** A range of characters; one entry of a regular-expression alternative. */
  datatype CharClass = Range(lo: char, hi: char)

  const D := Range('0', '9')

  /**
   * The alternatives `_strptime` uses for each directive, in the order the
   * regular expression tries them: %Y `\d\d\d\d`, %m `1[0-2]|0[1-9]|[1-9]`,
   * %d `3[01]|[12]\d|0[1-9]|[1-9]| [1-9]`, %H `2[0-3]|[0-1]\d|\d`,
   * %M `[0-5]\d|\d`, %S `6[0-1]|[0-5]\d|\d`.
   */
  function Alternatives(f: Field): (alts: seq<seq<CharClass>>)
    ensures forall k | 0 <= k < |alts| :: |alts[k]| >= MinWidth(f)
  {
    match f
    case Year => [[D, D, D, D]]
    case Month => [[Range('1', '1'), Range('0', '2')], [Range('0', '0'), Range('1', '9')], [Range('1', '9')]]
    case Day => [[Range('3', '3'), Range('0', '1')], [Range('1', '2'), D], [Range('0', '0'), Range('1', '9')],
                 [Range('1', '9')], [Range(' ', ' '), Range('1', '9')]]
    case Hour => [[Range('2', '2'), Range('0', '3')], [Range('0', '1'), D], [D]]
    case Minute => [[Range('0', '5'), D], [D]]
    case Second => [[Range('6', '6'), Range('0', '1')], [Range('0', '5'), D], [D]]
  }

  function MinWidth(f: Field): nat
  {
    if f == Year then 4 else 1
  }

  /** The characters `strftime` writes for a field: %Y four digits, the rest two. */
  function Width(f: Field): nat
  {
    if f == Year then 4 else 2
  }

  predicate Fits(alt: seq<CharClass>, s: string)
  {
    |alt| <= |s| && forall i | 0 <= i < |alt| :: alt[i].lo <= s[i] <= alt[i].hi
  }

  /** `int(text)` for the texts the alternatives accept (" 5" is 5). */
  function FieldValue(text: string): nat
  {
    if text != [] && text[0] == ' ' then FieldValue(text[1..])
    else if AllDigits(text) then DecimalValue(text)
    else 0
  }

  function Get(d: DateTime, f: Field): nat
  {
    match f
    case Year => d.year
    case Month => d.month
    case Day => d.day
    case Hour => d.hour
    case Minute => d.minute
    case Second => d.second
  }

  function Set(d: DateTime, f: Field, v: nat): (r: DateTime)
    ensures Get(r, f) == v
    ensures forall g | g != f :: Get(r, g) == Get(d, g)
  {
    match f
    case Year => d.(year := v)
    case Month => d.(month := v)
    case Day => d.(day := v)
    case Hour => d.(hour := v)
    case Minute => d.(minute := v)
    case Second => d.(second := v)
  }

  function SpaceRun(s: string): (n: nat)
    ensures n <= |s|
    ensures forall i | 0 <= i < n :: IsSpace(s[i])
    ensures n < |s| ==> !IsSpace(s[n])
  {
    if s != [] && IsSpace(s[0]) then 1 + SpaceRun(s[1..]) else 0
  }

  /**
   * The regular-expression match of `fmt` at the start of `s`: the fields
   * found (over `acc`) and the unconsumed rest. A literal matches itself,
   * a blank in the format matches one or more whitespace characters
   * (greedy, backtracking), and a directive tries its alternatives in order,
   * backtracking into the next one when the rest of the format fails.
   */
  function Match(fmt: seq<Item>, s: string, acc: DateTime): (r: Option<(DateTime, string)>)
    ensures r.Some? ==> |r.value.1| + MinLength(fmt) <= |s|
    decreases |fmt|, 1, 0
  {
    if fmt == [] then Some((acc, s))
    else
      match fmt[0]
      case Lit(c) => if s != [] && s[0] == c then Match(fmt[1..], s[1..], acc) else None
      case Spaces => MatchSpaces(fmt[1..], s, acc, SpaceRun(s))
      case Num(f) => MatchAlts(f, Alternatives(f), fmt[1..], s, acc)
  }

  function MatchSpaces(rest: seq<Item>, s: string, acc: DateTime, n: nat): (r: Option<(DateTime, string)>)
    requires n <= |s|
    ensures r.Some? ==> |r.value.1| + MinLength(rest) + 1 <= |s|
    decreases |rest| + 1, 0, n
  {
    if n == 0 then None
    else
      match Match(rest, s[n..], acc)
      case Some(x) => Some(x)
      case None => MatchSpaces(rest, s, acc, n - 1)
  }

  function MatchAlts(f: Field, alts: seq<seq<CharClass>>, rest: seq<Item>, s: string, acc: DateTime)
    : (r: Option<(DateTime, string)>)
    requires forall k | 0 <= k < |alts| :: |alts[k]| >= MinWidth(f)
    ensures r.Some? ==> |r.value.1| + MinLength(rest) + MinWidth(f) <= |s|
    decreases |rest| + 1, 0, |alts|
  {
    if alts == [] then None
    else if Fits(alts[0], s) then
      var w := |alts[0]|;
      match Match(rest, s[w..], Set(acc, f, FieldValue(s[..w])))
      case Some(x) => Some(x)
      case None => MatchAlts(f, alts[1..], rest, s, acc)
    else MatchAlts(f, alts[1..], rest, s, acc)
  }

  /** The fewest characters a match of `fmt` consumes. */
  function MinLength(fmt: seq<Item>): nat
  {
    if fmt == [] then 0
    else
      (match fmt[0] case Num(f) => MinWidth(f) case Lit(_) => 1 case Spaces => 1)
      + MinLength(fmt[1..])
  }

  /** `_strptime` defaults: 1900-01-01 00:00:00. */
  const Defaults := DateTime(1900, 1, 1, 0, 0, 0)

  /** `datetime.strptime(s, fmt)`; `None` where it raises ValueError. */
  function Strptime(fmt: seq<Item>, s: string): (r: Option<DateTime>)
    ensures r.Some? ==> Valid(r.value)
  {
    match Match(fmt, s, Defaults)
    case Some((d, rest)) => if rest == [] && Valid(d) then Some(d) else None
    case None => None
  }

  const ExifFull: seq<Item> := [Num(Year), Lit(':'), Num(Month), Lit(':'), Num(Day), Spaces,
                                Num(Hour), Lit(':'), Num(Minute), Lit(':'), Num(Second)]
  const DashFull: seq<Item> := [Num(Year), Lit('-'), Num(Month), Lit('-'), Num(Day), Spaces,
                                Num(Hour), Lit(':'), Num(Minute), Lit(':'), Num(Second)]
  const ExifDateOnly: seq<Item> := [Num(Year), Lit(':'), Num(Month), Lit(':'), Num(Day)]
  const DashDateOnly: seq<Item> := [Num(Year), Lit('-'), Num(Month), Lit('-'), Num(Day)]

  /** The four formats `_parse_exif_date` tries, in order. */
  const ExifFormats: seq<seq<Item>> := [ExifFull, DashFull, ExifDateOnly, DashDateOnly]

  function FirstParse(formats: seq<seq<Item>>, s: string): (r: Option<DateTime>)
    ensures r.Some? ==> Valid(r.value)
    ensures r.Some? <==> exists k | 0 <= k < |formats| :: Strptime(formats[k], s).Some?
  {
    if formats == [] then None
    else
      match Strptime(formats[0], s)
      case Some(d) => Some(d)
      case None =>
        var r := FirstParse(formats[1..], s);
        assert forall k | 1 <= k < |formats| :: formats[k] == formats[1..][k - 1];
        r
  }

  /**
   * `_parse_exif_date`: strip surrounding whitespace, then the first of the
   * four formats that parses the whole string gives the date; `None` when
   * none does.
   */
  function ParseExifDate(s: string): (r: Option<DateTime>)
    ensures r.Some? ==> Valid(r.value)
  {
    FirstParse(ExifFormats, StripSpaces(s))
  }

  // ---------------------------------------------------------------------
  // Rendering (`strftime`) and the round trip

  function ItemText(x: Item, d: DateTime): string
  {
    match x
    case Num(f) => ZeroPad(Get(d, f), Width(f))
    case Lit(c) => [c]
    case Spaces => " "
  }

  /** `strftime` of a format built from the same items (blank as one space). */
  function Render(fmt: seq<Item>, d: DateTime): string
  {
    if fmt == [] then [] else ItemText(fmt[0], d) + Render(fmt[1..], d)
  }

  /** A blank in the format is always followed by a directive. */
  predicate BlanksBeforeFields(fmt: seq<Item>)
  {
    forall i | 0 <= i < |fmt| && fmt[i].Spaces? :: i + 1 < |fmt| && fmt[i + 1].Num?
  }

  /** What a directive records: the field it reads, taken from `d`. */
  function Record(x: Item, d: DateTime, acc: DateTime): DateTime
  {
    if x.Num? then Set(acc, x.field, Get(d, x.field)) else acc
  }

  /** `acc` with every field that `fmt` mentions taken from `d`. */
  function Apply(fmt: seq<Item>, d: DateTime, acc: DateTime): DateTime
  {
    if fmt == [] then acc else Apply(fmt[1..], d, Record(fmt[0], d, acc))
  }

  lemma {:induction false} ApplyGet(fmt: seq<Item>, d: DateTime, acc: DateTime, g: Field)
    ensures Get(Apply(fmt, d, acc), g) == if Num(g) in fmt then Get(d, g) else Get(acc, g)
  {
    if fmt != [] {
      ApplyGet(fmt[1..], d, Record(fmt[0], d, acc), g);
      assert Num(g) in fmt <==> fmt[0] == Num(g) || Num(g) in fmt[1..] by {
        assert fmt == [fmt[0]] + fmt[1..];
      }
    }
  }

  /** Every field fits its `strftime` width and is accepted by its directive. */
  predicate Renderable(d: DateTime)
  {
    d.year <= 9999 && 1 <= d.month <= 12 && 1 <= d.day <= 31
    && d.hour <= 23 && d.minute <= 59 && d.second <= 59
  }

  lemma {:induction false} ValidIsRenderable(d: DateTime)
    requires Valid(d)
    ensures Renderable(d)
  {
  }

  lemma {:induction false} TwoDigits(v: nat)
    requires v < 100
    ensures ZeroPad(v, 2) == [DigitChar(v / 10), DigitChar(v % 10)]
  {
    if v >= 10 {
      assert Decimal(v) == Decimal(v / 10) + [DigitChar(v % 10)];
    }
  }

  lemma {:induction false} FourDigits(v: nat)
    requires v < 10000
    ensures |ZeroPad(v, 4)| == 4
  {
    DecimalLength(v, 4);
  }

  lemma {:induction false} RenderStartsWithDigit(fmt: seq<Item>, d: DateTime, tail: string)
    requires fmt != [] && fmt[0].Num? && Renderable(d)
    ensures var s := Render(fmt, d) + tail; s != [] && IsDigit(s[0])
  {
    var f := fmt[0].field;
    if f == Year { FourDigits(d.year); } else { TwoDigits(Get(d, f)); }
    assert Render(fmt, d) == ZeroPad(Get(d, f), Width(f)) + Render(fmt[1..], d);
  }

  /** The first alternative of `alts` that fits is number `k`, of width `w`, reading `v`. */
  lemma {:induction false} AltsFrom(f: Field, alts: seq<seq<CharClass>>, rest: seq<Item>, s: string, acc: DateTime, k: nat, v: nat)
    requires forall j | 0 <= j < |alts| :: |alts[j]| >= MinWidth(f)
    requires k < |alts| && Fits(alts[k], s) && FieldValue(s[..|alts[k]|]) == v
    requires forall j | 0 <= j < k :: !Fits(alts[j], s)
    requires Match(rest, s[|alts[k]|..], Set(acc, f, v)).Some?
    ensures MatchAlts(f, alts, rest, s, acc) == Match(rest, s[|alts[k]|..], Set(acc, f, v))
    decreases k
  {
    if k > 0 {
      AltsFrom(f, alts[1..], rest, s, acc, k - 1, v);
    }
  }

  /** The two digits of a two-digit field read back as its value. */
  lemma {:induction false} TwoDigitValue(v: nat, s: string)
    requires v < 100 && StartsWith(s, ZeroPad(v, 2))
    ensures |s| >= 2 && s[0] == DigitChar(v / 10) && s[1] == DigitChar(v % 10)
    ensures FieldValue(s[..2]) == v
  {
    TwoDigits(v);
    assert s[..2] == ZeroPad(v, 2);
    ZeroPadValue(v, 2);
  }

  /** A rendered field reads back as its value, through the directive's alternatives. */
  lemma {:induction false} NumRoundTrip(f: Field, d: DateTime, rest: seq<Item>, s: string, acc: DateTime)
    requires Renderable(d)
    requires StartsWith(s, ZeroPad(Get(d, f), Width(f)))
    requires Match(rest, s[Width(f)..], Set(acc, f, Get(d, f))).Some?
    ensures MatchAlts(f, Alternatives(f), rest, s, acc) == Match(rest, s[Width(f)..], Set(acc, f, Get(d, f)))
  {
    var v := Get(d, f);
    if f == Year {
      FourDigits(v);
      assert s[..4] == ZeroPad(v, 4);
      ZeroPadValue(v, 4);
      AltsFrom(f, Alternatives(f), rest, s, acc, 0, v);
    } else {
      TwoDigitValue(v, s);
      var k := FirstTwoDigitAlternative(f, v, s);
      AltsFrom(f, Alternatives(f), rest, s, acc, k, v);
    }
  }

  /** Which alternative of a two-digit directive reads the zero-padded rendering of `v`. */
  lemma {:induction false} FirstTwoDigitAlternative(f: Field, v: nat, s: string) returns (k: nat)
    requires f != Year
    requires match f
      case Month => 1 <= v <= 12
      case Day => 1 <= v <= 31
      case Hour => v <= 23
      case Year => false
      case _ => v <= 59
    requires |s| >= 2 && s[0] == DigitChar(v / 10) && s[1] == DigitChar(v % 10)
    ensures k < |Alternatives(f)| && |Alternatives(f)[k]| == 2 && Fits(Alternatives(f)[k], s)
    ensures forall j | 0 <= j < k :: !Fits(Alternatives(f)[j], s)
  {
    var alts := Alternatives(f);
    if f == Month {
      k := if v >= 10 then 0 else 1;
    } else if f == Day {
      k := if v >= 30 then 0 else if v >= 10 then 1 else 2;
      assert k >= 1 ==> !Fits(alts[0], s);
      assert k >= 2 ==> !Fits(alts[1], s);
    } else if f == Hour {
      k := if v >= 20 then 0 else 1;
    } else if f == Minute {
      k := 0;
    } else {
      k := 1;
      assert !Fits(alts[0], s);
    }
  }

  lemma {:induction false} RestBlanks(fmt: seq<Item>)
    requires fmt != [] && BlanksBeforeFields(fmt)
    ensures BlanksBeforeFields(fmt[1..])
  {
    var rest := fmt[1..];
    forall i | 0 <= i < |rest| && rest[i].Spaces? ensures i + 1 < |rest| && rest[i + 1].Num? {
      assert fmt[i + 1] == rest[i];
    }
  }

  lemma {:induction false} StepLit(fmt: seq<Item>, d: DateTime, tail: string, acc: DateTime)
    requires fmt != [] && fmt[0].Lit?
    requires Match(fmt[1..], Render(fmt[1..], d) + tail, acc) == Some((Apply(fmt[1..], d, acc), tail))
    ensures Match(fmt, Render(fmt, d) + tail, acc) == Some((Apply(fmt, d, acc), tail))
  {
    var c, r := fmt[0].c, Render(fmt[1..], d) + tail;
    assert Render(fmt, d) == [c] + Render(fmt[1..], d);
    var s := Render(fmt, d) + tail;
    assert s == [c] + r;
    assert s[1..] == r;
    assert Match(fmt, s, acc) == Match(fmt[1..], r, acc);
  }

  lemma {:induction false} StepSpaces(fmt: seq<Item>, d: DateTime, tail: string, acc: DateTime)
    requires |fmt| >= 2 && fmt[0].Spaces? && fmt[1].Num? && Renderable(d)
    requires Match(fmt[1..], Render(fmt[1..], d) + tail, acc) == Some((Apply(fmt[1..], d, acc), tail))
    ensures Match(fmt, Render(fmt, d) + tail, acc) == Some((Apply(fmt, d, acc), tail))
  {
    var r := Render(fmt[1..], d) + tail;
    var s := Render(fmt, d) + tail;
    assert s == " " + r;
    RenderStartsWithDigit(fmt[1..], d, tail);
    assert s[1..] == r;
    assert SpaceRun(s) == 1 by {
      assert !IsSpace(r[0]);
      assert SpaceRun(s) == 1 + SpaceRun(r);
    }
    assert Match(fmt, s, acc) == MatchSpaces(fmt[1..], s, acc, 1);
    assert MatchSpaces(fmt[1..], s, acc, 1) == Match(fmt[1..], r, acc);
  }

  lemma {:induction false} StepNum(fmt: seq<Item>, d: DateTime, tail: string, acc: DateTime)
    requires fmt != [] && fmt[0].Num? && Renderable(d)
    requires var f := fmt[0].field;
      Match(fmt[1..], Render(fmt[1..], d) + tail, Set(acc, f, Get(d, f)))
        == Some((Apply(fmt[1..], d, Set(acc, f, Get(d, f))), tail))
    ensures Match(fmt, Render(fmt, d) + tail, acc) == Some((Apply(fmt, d, acc), tail))
  {
    var f := fmt[0].field;
    var v := Get(d, f);
    var text := ZeroPad(v, Width(f));
    var r := Render(fmt[1..], d) + tail;
    var s := Render(fmt, d) + tail;
    if f == Year { FourDigits(v); } else { TwoDigits(v); }
    assert s == text + r;
    assert s[Width(f)..] == r;
    NumRoundTrip(f, d, fmt[1..], s, acc);
  }

  /** Parsing what `Render` writes gives back the rendered fields. */
  lemma {:induction false} MatchRender(fmt: seq<Item>, d: DateTime, tail: string, acc: DateTime)
    requires BlanksBeforeFields(fmt) && Renderable(d)
    ensures Match(fmt, Render(fmt, d) + tail, acc) == Some((Apply(fmt, d, acc), tail))
    decreases |fmt|
  {
    if fmt == [] {
      assert Render(fmt, d) + tail == tail;
    } else {
      RestBlanks(fmt);
      match fmt[0]
      case Lit(c) => {
        MatchRender(fmt[1..], d, tail, acc);
        StepLit(fmt, d, tail, acc);
      }
      case Spaces => {
        MatchRender(fmt[1..], d, tail, acc);
        StepSpaces(fmt, d, tail, acc);
      }
      case Num(f) => {
        MatchRender(fmt[1..], d, tail, Set(acc, f, Get(d, f)));
        StepNum(fmt, d, tail, acc);
      }
    }
  }

  /** Apply is decided field by field. */
  lemma {:induction false} ApplyFields(fmt: seq<Item>, d: DateTime, acc: DateTime)
    ensures var r := Apply(fmt, d, acc);
      r.year == Get(r, Year) && r.month == Get(r, Month) && r.day == Get(r, Day)
      && r.hour == Get(r, Hour) && r.minute == Get(r, Minute) && r.second == Get(r, Second)
  {
  }

  /** A format naming every field takes every field from the rendered date. */
  lemma {:induction false} ApplyEveryField(fmt: seq<Item>, d: DateTime, acc: DateTime)
    requires fmt == ExifFull || fmt == DashFull
    ensures Apply(fmt, d, acc) == d
  {
    assert fmt[0] == Num(Year) && fmt[2] == Num(Month) && fmt[4] == Num(Day);
    assert fmt[6] == Num(Hour) && fmt[8] == Num(Minute) && fmt[10] == Num(Second);
    ApplyGet(fmt, d, acc, Year);
    ApplyGet(fmt, d, acc, Month);
    ApplyGet(fmt, d, acc, Day);
    ApplyGet(fmt, d, acc, Hour);
    ApplyGet(fmt, d, acc, Minute);
    ApplyGet(fmt, d, acc, Second);
  }

  /** A date-only format leaves the time at the default midnight. */
  lemma {:induction false} ApplyDateOnly(fmt: seq<Item>, d: DateTime)
    requires fmt == ExifDateOnly || fmt == DashDateOnly
    ensures Apply(fmt, d, Defaults) == Midnight(d)
  {
    assert fmt[0] == Num(Year) && fmt[2] == Num(Month) && fmt[4] == Num(Day);
    assert Num(Hour) !in fmt && Num(Minute) !in fmt && Num(Second) !in fmt;
    ApplyGet(fmt, d, Defaults, Year);
    ApplyGet(fmt, d, Defaults, Month);
    ApplyGet(fmt, d, Defaults, Day);
    ApplyGet(fmt, d, Defaults, Hour);
    ApplyGet(fmt, d, Defaults, Minute);
    ApplyGet(fmt, d, Defaults, Second);
  }

  /** "YYYY:MM:DD HH:MM:SS", the standard EXIF rendering of a date and time. */
  function FormatExif(d: DateTime): string
  {
    Render(ExifFull, d)
  }

  /** A rendering that starts and ends with a field has no surrounding blanks to strip. */
  lemma {:induction false} StripRendered(fmt: seq<Item>, d: DateTime)
    requires |fmt| >= 1 && fmt[0].Num? && fmt[|fmt| - 1].Num? && Renderable(d)
    ensures StripSpaces(Render(fmt, d)) == Render(fmt, d)
  {
    var s := Render(fmt, d);
    RenderStartsWithDigit(fmt, d, []);
    assert s + [] == s;
    var f := fmt[|fmt| - 1].field;
    var text := ZeroPad(Get(d, f), Width(f));
    RenderLast(fmt, d);
    assert text != [] by {
      if f == Year { FourDigits(Get(d, f)); } else { TwoDigits(Get(d, f)); }
    }
    assert s[|s| - 1] == text[|text| - 1];
    assert !IsSpace(s[0]) && !IsSpace(s[|s| - 1]);
  }

  /** Strptime of a rendering of a format naming every field. */
  lemma {:induction false} StrptimeRender(fmt: seq<Item>, d: DateTime)
    requires BlanksBeforeFields(fmt) && Valid(d)
    ensures Strptime(fmt, Render(fmt, d)) == Some(Apply(fmt, d, Defaults)) || !Valid(Apply(fmt, d, Defaults))
  {
    MatchRender(fmt, d, [], Defaults);
    assert Render(fmt, d) + [] == Render(fmt, d);
  }

  lemma {:induction false} ExifFullWellFormed()
    ensures BlanksBeforeFields(ExifFull) && BlanksBeforeFields(ExifDateOnly) && BlanksBeforeFields(DashDateOnly)
    ensures BlanksBeforeFields(DashFull)
  {
  }

  /** The first format that parses decides the result. */
  lemma {:induction false} FirstParseAt(formats: seq<seq<Item>>, s: string, k: nat, d: DateTime)
    requires k < |formats| && Strptime(formats[k], s) == Some(d)
    requires forall j | 0 <= j < k :: Strptime(formats[j], s).None?
    ensures FirstParse(formats, s) == Some(d)
    decreases k
  {
    if k > 0 {
      FirstParseAt(formats[1..], s, k - 1, d);
    }
  }

  function OrElse(a: Option<DateTime>, b: Option<DateTime>): Option<DateTime>
  {
    if a.Some? then a else b
  }

  lemma {:induction false} FirstParseCons(formats: seq<seq<Item>>, s: string)
    requires formats != []
    ensures FirstParse(formats, s) == OrElse(Strptime(formats[0], s), FirstParse(formats[1..], s))
  {
  }

  /** The four formats of `_parse_exif_date`, tried one after the other. */
  lemma {:induction false} ParseExifDateCascade(s: string)
    ensures ParseExifDate(s)
         == OrElse(Strptime(ExifFull, StripSpaces(s)), OrElse(Strptime(DashFull, StripSpaces(s)),
            OrElse(Strptime(ExifDateOnly, StripSpaces(s)), Strptime(DashDateOnly, StripSpaces(s)))))
  {
    var t := StripSpaces(s);
    var f4 := [DashDateOnly];
    var f3 := [ExifDateOnly] + f4;
    var f2 := [DashFull] + f3;
    var f1 := [ExifFull] + f2;
    assert ExifFormats == f1;
    FirstParseCons(f1, t);
    assert f1[1..] == f2;
    FirstParseCons(f2, t);
    assert f2[1..] == f3;
    FirstParseCons(f3, t);
    assert f3[1..] == f4;
    FirstParseCons(f4, t);
    assert f4[1..] == [];
  }

  /** Every valid date and time survives rendering and parsing. */
  lemma {:induction false} ParseFormatExif(d: DateTime)
    requires Valid(d)
    ensures ParseExifDate(FormatExif(d)) == Some(d)
  {
    StrptimeFormatExif(d);
    StripRendered(ExifFull, d);
    ParseExifDateCascade(FormatExif(d));
  }

  lemma {:induction false} StrptimeFormatExif(d: DateTime)
    requires Valid(d)
    ensures Strptime(ExifFull, FormatExif(d)) == Some(d)
  {
    ExifFullWellFormed();
    StrptimeRender(ExifFull, d);
    ApplyEveryField(ExifFull, d, Defaults);
  }

  /** `Render` of a format ending in a field ends with that field's digits. */
  lemma {:induction false} RenderLast(fmt: seq<Item>, d: DateTime)
    requires |fmt| >= 1 && fmt[|fmt| - 1].Num?
    ensures EndsWith(Render(fmt, d), ZeroPad(Get(d, fmt[|fmt| - 1].field), Width(fmt[|fmt| - 1].field)))
  {
    if |fmt| > 1 {
      RenderLast(fmt[1..], d);
    } else {
      assert Render(fmt, d) == ZeroPad(Get(d, fmt[0].field), Width(fmt[0].field)) + [];
    }
  }

  function RenderedLength(fmt: seq<Item>): nat
  {
    if fmt == [] then 0
    else (match fmt[0] case Num(f) => Width(f) case _ => 1) + RenderedLength(fmt[1..])
  }

  lemma {:induction false} RenderLength(fmt: seq<Item>, d: DateTime)
    requires Renderable(d)
    ensures |Render(fmt, d)| == RenderedLength(fmt)
  {
    if fmt != [] {
      RenderLength(fmt[1..], d);
      if fmt[0].Num? {
        var f := fmt[0].field;
        if f == Year { FourDigits(Get(d, f)); } else { TwoDigits(Get(d, f)); }
      }
    }
  }

  /** A year followed by a separator other than the format's literal does not match. */
  lemma {:induction false} YearThenOtherSeparator(fmt: seq<Item>, s: string, acc: DateTime)
    requires |fmt| >= 2 && fmt[0] == Num(Year) && fmt[1].Lit?
    requires |s| > 4 && s[4] != fmt[1].c
    ensures Match(fmt, s, acc).None?
  {
    var alts := Alternatives(Year);
    assert Match(fmt[1..], s[4..], Set(acc, Year, FieldValue(s[..4]))).None?;
    assert MatchAlts(Year, alts[1..], fmt[1..], s, acc).None?;
  }

  lemma {:induction false} OtherSeparatorFails(fmt: seq<Item>, s: string)
    requires |fmt| >= 2 && fmt[0] == Num(Year) && fmt[1].Lit?
    requires |s| > 4 && s[4] != fmt[1].c
    ensures Strptime(fmt, s).None?
  {
    YearThenOtherSeparator(fmt, s, Defaults);
  }

  function Midnight(d: DateTime): DateTime
  {
    DateTime(d.year, d.month, d.day, 0, 0, 0)
  }

  lemma {:induction false} MinLengthCountsItems(fmt: seq<Item>)
    ensures MinLength(fmt) >= |fmt|
  {
    if fmt != [] { MinLengthCountsItems(fmt[1..]); }
  }

  /** Strings shorter than eleven characters cannot hold a date and a time. */
  lemma {:induction false} TooShortForTime(s: string)
    requires |s| < 11
    ensures Strptime(ExifFull, s).None? && Strptime(DashFull, s).None?
  {
    TooShort(ExifFull, s);
    TooShort(DashFull, s);
  }

  /** A match consumes at least one character per format item. */
  lemma {:induction false} TooShort(fmt: seq<Item>, s: string)
    requires |s| < |fmt|
    ensures Strptime(fmt, s).None?
  {
    MinLengthCountsItems(fmt);
  }

  lemma {:induction false} StrptimeDateOnly(fmt: seq<Item>, d: DateTime)
    requires fmt == ExifDateOnly || fmt == DashDateOnly
    requires Valid(d)
    ensures Strptime(fmt, Render(fmt, d)) == Some(Midnight(d))
  {
    ExifFullWellFormed();
    StrptimeRender(fmt, d);
    ApplyDateOnly(fmt, d);
  }

  lemma {:induction false} DateOnlyLength(fmt: seq<Item>, d: DateTime)
    requires fmt == ExifDateOnly || fmt == DashDateOnly
    requires Renderable(d)
    ensures |Render(fmt, d)| == 10
  {
    RenderLength(fmt, d);
    var f := fmt;
    assert RenderedLength(f[5..]) == 0;
    assert RenderedLength(f[4..]) == 2;
    assert RenderedLength(f[3..]) == 3;
    assert RenderedLength(f[2..]) == 5;
    assert RenderedLength(f[1..]) == 6;
  }

  /** The third or fourth format decides when the ones before it fail. */
  lemma {:induction false} ParseByDateFormat(s: string, k: nat, d: DateTime)
    requires k == 2 || k == 3
    requires StripSpaces(s) == s && Strptime(ExifFull, s).None? && Strptime(DashFull, s).None?
    requires k == 3 ==> Strptime(ExifDateOnly, s).None?
    requires Strptime(if k == 2 then ExifDateOnly else DashDateOnly, s) == Some(d)
    ensures ParseExifDate(s) == Some(d)
  {
    ParseExifDateCascade(s);
  }

  /**
   * A date written without a time, with either separator, parses to
   * midnight of that day: the two formats with a time are too long to
   * match, and the other date-only format stops at the separator.
   */
  lemma {:induction false} ParseDateOnly(d: DateTime, dash: bool)
    requires Valid(d)
    ensures ParseExifDate(Render(if dash then DashDateOnly else ExifDateOnly, d)) == Some(Midnight(d))
  {
    var fmt := if dash then DashDateOnly else ExifDateOnly;
    var s := Render(fmt, d);
    StripRendered(fmt, d);
    StrptimeDateOnly(fmt, d);
    DateOnlyLength(fmt, d);
    TooShortForTime(s);
    if dash {
      SeparatorAfterYear(fmt, d);
      YearThenOtherSeparator(ExifDateOnly, s, Defaults);
      ParseByDateFormat(s, 3, Midnight(d));
    } else {
      ParseByDateFormat(s, 2, Midnight(d));
    }
  }

  lemma {:induction false} StrptimeFormatDash(d: DateTime)
    requires Valid(d)
    ensures Strptime(DashFull, Render(DashFull, d)) == Some(d)
  {
    ExifFullWellFormed();
    StrptimeRender(DashFull, d);
    ApplyEveryField(DashFull, d, Defaults);
  }

  /** The character after the year is the format's first separator. */
  lemma {:induction false} SeparatorAfterYear(fmt: seq<Item>, d: DateTime)
    requires |fmt| >= 2 && fmt[0] == Num(Year) && fmt[1].Lit? && Renderable(d)
    ensures |Render(fmt, d)| > 4 && Render(fmt, d)[4] == fmt[1].c
  {
    FourDigits(d.year);
    assert Render(fmt, d) == ZeroPad(d.year, 4) + Render(fmt[1..], d);
    assert Render(fmt[1..], d) == [fmt[1].c] + Render(fmt[2..], d);
  }

  /** The second format decides when the first fails. */
  lemma {:induction false} ParseBySecond(s: string, d: DateTime)
    requires StripSpaces(s) == s && Strptime(ExifFull, s).None? && Strptime(DashFull, s) == Some(d)
    ensures ParseExifDate(s) == Some(d)
  {
    ParseExifDateCascade(s);
  }

  /** A date and time written with '-' in the date parses back through the second format. */
  lemma {:induction false} ParseFormatDash(d: DateTime)
    requires Valid(d)
    ensures ParseExifDate(Render(DashFull, d)) == Some(d)
  {
    ParseRenderedDash(d, Render(DashFull, d));
  }

  lemma {:induction false} ParseRenderedDash(d: DateTime, s: string)
    requires Valid(d) && s == Render(DashFull, d)
    ensures ParseExifDate(s) == Some(d)
  {
    StrptimeFormatDash(d);
    StripRendered(DashFull, d);
    assert DashFull[0] == Num(Year) && DashFull[1] == Lit('-');
    SeparatorAfterYear(DashFull, d);
    assert ExifFull[0] == Num(Year) && ExifFull[1] == Lit(':');
    OtherSeparatorFails(ExifFull, s);
    ParseBySecond(s, d);
  }

  lemma {:induction false} RenderAppend(a: seq<Item>, b: seq<Item>, d: DateTime)
    ensures Render(a + b, d) == Render(a, d) + Render(b, d)
  {
    if a == [] {
      assert a + b == b;
    } else {
      assert (a + b)[1..] == a[1..] + b;
      RenderAppend(a[1..], b, d);
    }
  }

  /** A date written out: four-digit year, two-digit month and day, `sep` between them. */
  function DateText(d: DateTime, sep: char): string
  {
    ZeroPad(d.year, 4) + ([sep] + (ZeroPad(d.month, 2) + ([sep] + ZeroPad(d.day, 2))))
  }

  /** A time written out as two-digit hours, minutes and seconds with ':' between them. */
  function TimeText(d: DateTime): string
  {
    ZeroPad(d.hour, 2) + ([':'] + (ZeroPad(d.minute, 2) + ([':'] + ZeroPad(d.second, 2))))
  }

  lemma {:induction false} RenderSingle(x: Item, d: DateTime)
    ensures Render([x], d) == ItemText(x, d)
  {
    assert [x][1..] == [];
    assert ItemText(x, d) + [] == ItemText(x, d);
  }

  lemma {:induction false} RenderFive(x1: Item, x2: Item, x3: Item, x4: Item, x5: Item, d: DateTime)
    ensures Render([x1, x2, x3, x4, x5], d)
         == ItemText(x1, d) + (ItemText(x2, d) + (ItemText(x3, d) + (ItemText(x4, d) + ItemText(x5, d))))
  {
    var s5, s4, s3, s2, s1 := [x5], [x4, x5], [x3, x4, x5], [x2, x3, x4, x5], [x1, x2, x3, x4, x5];
    RenderSingle(x5, d);
    assert Render(s4, d) == ItemText(x4, d) + Render(s5, d) by { assert s4[1..] == s5; }
    assert Render(s3, d) == ItemText(x3, d) + Render(s4, d) by { assert s3[1..] == s4; }
    assert Render(s2, d) == ItemText(x2, d) + Render(s3, d) by { assert s2[1..] == s3; }
    assert Render(s1, d) == ItemText(x1, d) + Render(s2, d) by { assert s1[1..] == s2; }
  }

  lemma {:induction false} DateSpelled(d: DateTime, sep: char)
    ensures Render([Num(Year), Lit(sep), Num(Month), Lit(sep), Num(Day)], d) == DateText(d, sep)
  {
    RenderFive(Num(Year), Lit(sep), Num(Month), Lit(sep), Num(Day), d);
  }

  /** The part of the two full formats after the date. */
  const TimeOfDay: seq<Item> := [Spaces, Num(Hour), Lit(':'), Num(Minute), Lit(':'), Num(Second)]

  lemma {:induction false} TimeSpelled(d: DateTime)
    ensures Render(TimeOfDay, d) == " " + TimeText(d)
  {
    var t := TimeOfDay;
    assert t == [Spaces] + [Num(Hour), Lit(':'), Num(Minute), Lit(':'), Num(Second)];
    RenderFive(Num(Hour), Lit(':'), Num(Minute), Lit(':'), Num(Second), d);
    assert t[1..] == [Num(Hour), Lit(':'), Num(Minute), Lit(':'), Num(Second)];
  }

  lemma {:induction false} FullFormatsSplit()
    ensures ExifFull == ExifDateOnly + TimeOfDay && DashFull == DashDateOnly + TimeOfDay
  {
  }

  /** The two full formats write the date, one blank and the time. */
  lemma {:induction false} RenderSpelledFull(d: DateTime, dash: bool)
    ensures Render(if dash then DashFull else ExifFull, d)
         == DateText(d, if dash then '-' else ':') + (" " + TimeText(d))
  {
    var date := if dash then DashDateOnly else ExifDateOnly;
    DateSpelled(d, if dash then '-' else ':');
    TimeSpelled(d);
    FullFormatsSplit();
    RenderAppend(date, TimeOfDay, d);
  }
}
