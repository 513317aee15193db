/**
 * The date strings the parser's own tests use, worked through the model:
 * the well-formed ones parse to the dates the tests expect, the malformed
 * ones to nothing.
 */
module MetadataExamples {
  import opened Wrappers
  import opened Text
  import opened Metadata

  /** A string that does not start with four digits matches none of the four formats. */
  lemma {:induction false} NoLeadingYear(s: string)
    requires !Fits([D, D, D, D], s)
    ensures ParseExifDate(s) == None || StripSpaces(s) != s
  {
    if StripSpaces(s) == s {
      forall k | 0 <= k < |ExifFormats| ensures Strptime(ExifFormats[k], s).None? {
        var fmt := ExifFormats[k];
        assert fmt[0] == Num(Year);
        assert MatchAlts(Year, Alternatives(Year)[1..], fmt[1..], s, Defaults).None?;
      }
    }
  }

  const Christmas := DateTime(2023, 12, 25, 14, 30, 45)

  lemma {:induction false} ChristmasDigits()
    ensures ZeroPad(2023, 4) == "2023" && ZeroPad(12, 2) == "12" && ZeroPad(25, 2) == "25"
    ensures ZeroPad(14, 2) == "14" && ZeroPad(30, 2) == "30" && ZeroPad(45, 2) == "45"
  {
    TwoDigits(12);
    TwoDigits(25);
    TwoDigits(14);
    TwoDigits(30);
    TwoDigits(45);
    FourDigits(2023);
  }

  lemma {:induction false} ChristmasTexts(d: DateTime)
    requires d == Christmas
    ensures DateText(d, ':') == "2023:12:25" && DateText(d, '-') == "2023-12-25"
    ensures TimeText(d) == "14:30:45"
  {
    ChristmasDigits();
  }

  lemma {:induction false} JoinedExif(a: string, b: string, s: string)
    requires a == "2023:12:25" && b == "14:30:45" && s == "2023:12:25 14:30:45"
    ensures s == a + (" " + b)
  {
  }

  lemma {:induction false} JoinedDash(a: string, b: string, s: string)
    requires a == "2023-12-25" && b == "14:30:45" && s == "2023-12-25 14:30:45"
    ensures s == a + (" " + b)
  {
  }

  lemma {:induction false} ChristmasExif(d: DateTime, s: string)
    requires DateText(d, ':') == "2023:12:25" && TimeText(d) == "14:30:45" && s == "2023:12:25 14:30:45"
    ensures FormatExif(d) == s
  {
    RenderSpelledFull(d, false);
    JoinedExif(DateText(d, ':'), TimeText(d), s);
  }

  lemma {:induction false} ChristmasDash(d: DateTime, s: string)
    requires DateText(d, '-') == "2023-12-25" && TimeText(d) == "14:30:45" && s == "2023-12-25 14:30:45"
    ensures Render(DashFull, d) == s
  {
    RenderSpelledFull(d, true);
    JoinedDash(DateText(d, '-'), TimeText(d), s);
  }

  lemma {:induction false} ChristmasDate(dash: bool)
    ensures Render(if dash then DashDateOnly else ExifDateOnly, Christmas)
         == if dash then "2023-12-25" else "2023:12:25"
  {
    if dash {
      DateSpelled(Christmas, '-');
    } else {
      DateSpelled(Christmas, ':');
    }
    ChristmasTexts(Christmas);
  }

  /** The parser's test of the standard EXIF form. */
  lemma {:induction false} ParseExifDateExample(s: string)
    requires s == "2023:12:25 14:30:45"
    ensures ParseExifDate(s) == Some(DateTime(2023, 12, 25, 14, 30, 45))
  {
    ParseFormatExif(Christmas);
    ChristmasTexts(Christmas);
    ChristmasExif(Christmas, s);
  }

  /** The parser's test of the ISO-like form with '-' in the date. */
  lemma {:induction false} ParseDashDateExample(s: string)
    requires s == "2023-12-25 14:30:45"
    ensures ParseExifDate(s) == Some(DateTime(2023, 12, 25, 14, 30, 45))
  {
    ParseFormatDash(Christmas);
    ChristmasTexts(Christmas);
    ChristmasDash(Christmas, s);
  }

  /** The well-formed examples of the parser's tests, without a time. */
  lemma {:induction false} ParseExifDateOnlyExamples()
    ensures ParseExifDate("2023:12:25") == Some(DateTime(2023, 12, 25, 0, 0, 0))
    ensures ParseExifDate("2023-12-25") == Some(DateTime(2023, 12, 25, 0, 0, 0))
  {
    ChristmasDate(false);
    ChristmasDate(true);
    ParseDateOnly(Christmas, false);
    ParseDateOnly(Christmas, true);
  }

  /** The malformed examples of the parser's tests. */
  lemma {:induction false} ParseExifDateRejects()
    ensures ParseExifDate("invalid date") == None
    ensures ParseExifDate("") == None
    ensures ParseExifDate("None") == None
    ensures ParseExifDate("2023/12/25") == None
  {
    NoLeadingYear("invalid date");
    NoLeadingYear("");
    NoLeadingYear("None");
    SlashedDate();
  }

  lemma {:induction false} SlashedDate()
    ensures ParseExifDate("2023/12/25") == None
  {
    var s := "2023/12/25";
    assert StripSpaces(s) == s;
    TooShortForTime(s);
    YearThenOtherSeparator(ExifDateOnly, s, Defaults);
    YearThenOtherSeparator(DashDateOnly, s, Defaults);
  }
}
