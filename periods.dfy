/** The period-label parser: the first year 19xx/20xx that stands as a whole
    word in a free-text label, and the start/end range of a label such as
    "2021–2023". A timestamp is an integer count of milliseconds; 0 doubles
    as "no year found". */
module Periods {
  import opened Wrappers
  import opened Text
  import opened Calendar

  /** The "absent" timestamp. It is also Date.UTC(1970, 0, 1). */
  const NoYear: int := 0

  datatype PeriodRange = PeriodRange(start: int, end: int)

  function DigitValue(c: char): int
    requires IsDigit(c)
  {
    c as int - '0' as int
  }

  function DigitChar(d: int): char
    requires 0 <= d <= 9
  {
    ('0' as int + d) as char
  }

  /** /\b(19|20)\d{2}\b/ matches at index i: a word boundary before s[i]
      (s[i] is a word character, so the previous character must be absent or
      a non-word character), the digits 19 or 20, two more digits, and a word
      boundary after them. */
  predicate YearAt(s: String, i: int) {
    && 0 <= i && i + 4 <= |s|
    && (i == 0 || !IsWordChar(s[i - 1]))
    && ((s[i] == '1' && s[i + 1] == '9') || (s[i] == '2' && s[i + 1] == '0'))
    && IsDigit(s[i + 2]) && IsDigit(s[i + 3])
    && (i + 4 == |s| || !IsWordChar(s[i + 4]))
  }

  /** Number(match[0]) for a match at i. */
  function YearValue(s: String, i: int): (y: int)
    requires YearAt(s, i)
    ensures 1900 <= y <= 2099
  {
    DigitValue(s[i]) * 1000 + DigitValue(s[i + 1]) * 100 + DigitValue(s[i + 2]) * 10 + DigitValue(s[i + 3])
  }

  /** The leftmost index at or after `from` where the year pattern matches. */
  function FindYear(s: String, from: nat): (r: Option<nat>)
    ensures r.Some? ==>
      && from <= r.value && YearAt(s, r.value)
      && (forall j :: from <= j < r.value ==> !YearAt(s, j))
    ensures r.None? ==> forall j :: from <= j ==> !YearAt(s, j)
    decreases |s| - from
  {
    if from + 4 > |s| then None
    else if YearAt(s, from) then Some(from)
    else FindYear(s, from + 1)
  }

  /** parseYearFast: Date.UTC(year, 0, 1) for the leftmost whole-word year
      19xx/20xx of the text, and 0 when there is none. Number(match[0]) is
      always finite, so the source's non-finite branch is dead. */
  function ParseYear(s: String): (t: int)
    ensures (forall i :: !YearAt(s, i)) ==> t == NoYear
    ensures forall i ::
      (YearAt(s, i) && (forall j :: 0 <= j < i ==> !YearAt(s, j))) ==> t == YearStart(YearValue(s, i))
    ensures t == NoYear || exists y :: 1900 <= y <= 2099 && t == YearStart(y)
  {
    match FindYear(s, 0)
    case None => NoYear
    case Some(i) =>
      YearStart(YearValue(s, i))
  }

  /** The pieces of a label: split at each en dash or hyphen, trimmed, with
      the empty ones dropped. */
  function Segments(text: String): seq<String> {
    NonEmpty(MapAll(Split(text, IsDash), Trim))
  }

  /** Every segment is non-empty and has no whitespace at either end. */
  lemma SegmentsTrimmed(text: String)
    ensures forall k :: 0 <= k < |Segments(text)| ==>
      Segments(text)[k] != [] && !IsWhitespace(Segments(text)[k][0])
      && !IsWhitespace(Segments(text)[k][|Segments(text)[k]| - 1])
  {
    var trimmed := MapAll(Split(text, IsDash), Trim);
    var segs := Segments(text);
    assert forall k :: 0 <= k < |segs| ==> segs[k] in trimmed;
  }

  /** extractPeriodRange: an absent or empty label, or one without a
      non-blank piece, gives {0, 0}; a single piece gives a one-year range;
      otherwise the first and the last piece give start and end, and pieces
      between them are ignored. An unparseable piece gives 0. */
  function ExtractPeriodRange(period: Option<String>): (r: PeriodRange)
    ensures r.start == NoYear || exists y :: 1900 <= y <= 2099 && r.start == YearStart(y)
    ensures r.end == NoYear || exists y :: 1900 <= y <= 2099 && r.end == YearStart(y)
  {
    if period.None? || period.value == [] then PeriodRange(NoYear, NoYear)
    else
      var segments := Segments(period.value);
      if |segments| == 0 then PeriodRange(NoYear, NoYear)
      else if |segments| == 1 then
        var year := ParseYear(segments[0]);
        PeriodRange(year, year)
      else
        PeriodRange(ParseYear(segments[0]), ParseYear(segments[|segments| - 1]))
  }

  /** The four digits of a year, as the labels write it. */
  function YearText(y: int): (s: String)
    requires 1000 <= y <= 9999
    ensures |s| == 4 && AllSatisfy(s, IsDigit)
  {
    [DigitChar(y / 1000), DigitChar(y / 100 % 10), DigitChar(y / 10 % 10), DigitChar(y % 10)]
  }

  /** A year 1900..2099 written out matches the pattern and reads back as
      itself. */
  lemma YearTextRoundTrip(y: int)
    requires 1900 <= y <= 2099
    ensures YearAt(YearText(y), 0) && YearValue(YearText(y), 0) == y
  {
    var s := YearText(y);
    assert y == 1000 * (y / 1000) + 100 * (y / 100 % 10) + 10 * (y / 10 % 10) + y % 10;
    if y < 2000 {
      assert y / 1000 == 1 && y / 100 % 10 == 9;
    } else {
      assert y / 1000 == 2 && y / 100 % 10 == 0;
    }
  }

  /** Text around a year does not matter, as long as it holds no year of its
      own before it and the year stands as a whole word: parseYearFast gives
      Date.UTC(y, 0, 1) for "Experiência 2021" as for "2021". */
  lemma ParseYearEmbedded(prefix: String, y: int, suffix: String)
    requires 1900 <= y <= 2099
    requires forall i :: !YearAt(prefix, i)
    requires prefix == [] || !IsWordChar(prefix[|prefix| - 1])
    requires suffix == [] || !IsWordChar(suffix[0])
    ensures ParseYear(prefix + YearText(y) + suffix) == YearStart(y)
  {
    var digits := YearText(y);
    var s := prefix + digits + suffix;
    var n := |prefix|;
    YearTextRoundTrip(y);
    assert s[n..n + 4] == digits;
    assert YearAt(s, n) && YearValue(s, n) == y;
    forall j | 0 <= j < n ensures !YearAt(s, j) {
      if j + 4 < n {
        assert !YearAt(prefix, j);
        assert s[j..j + 5] == prefix[j..j + 5];
        assert j > 0 ==> s[j - 1] == prefix[j - 1];
      } else {
        assert s[n - 1] == prefix[n - 1];
        assert !IsWordChar(s[n - 1]);
      }
    }
  }

  /** Text without digits holds no year. */
  lemma NoDigitsNoYear(s: String)
    requires NoneSatisfy(s, IsDigit)
    ensures ParseYear(s) == NoYear
  {
    forall i ensures !YearAt(s, i) {
      if 0 <= i && i + 4 <= |s| { assert !IsDigit(s[i + 2]); }
    }
  }

  /** Every piece of a label made only of dashes and whitespace is blank. */
  lemma {:induction false} SplitBlank(text: String)
    requires forall k :: 0 <= k < |text| ==> IsDash(text[k]) || IsWhitespace(text[k])
    ensures forall k :: 0 <= k < |Split(text, IsDash)| ==> AllSatisfy(Split(text, IsDash)[k], IsWhitespace)
    decreases |text|
  {
    if text != [] {
      SplitBlank(text[1..]);
      var rest := Split(text[1..], IsDash);
      if !IsDash(text[0]) {
        var first := [text[0]] + rest[0];
        assert AllSatisfy(first, IsWhitespace) by {
          forall k | 0 <= k < |first| ensures IsWhitespace(first[k]) {
            if k > 0 { assert first[k] == rest[0][k - 1]; }
          }
        }
        assert Split(text, IsDash) == [first] + rest[1..];
      }
    }
  }

  /** An absent label, an empty one, and one whose pieces are all blank
      ("–", " - ") all give {0, 0}. */
  lemma BlankLabel(text: String)
    requires forall k :: 0 <= k < |text| ==> IsDash(text[k]) || IsWhitespace(text[k])
    ensures ExtractPeriodRange(Some(text)) == PeriodRange(NoYear, NoYear)
    ensures ExtractPeriodRange(None) == PeriodRange(NoYear, NoYear)
  {
    var pieces := Split(text, IsDash);
    SplitBlank(text);
    var trimmed := MapAll(pieces, Trim);
    forall k | 0 <= k < |trimmed| ensures trimmed[k] == [] {
      TrimEmpty(pieces[k]);
    }
    NonEmptyNone(trimmed);
  }

  /** A label with a single non-blank piece gives a one-year range. */
  lemma SinglePiece(text: String)
    requires NoneSatisfy(text, IsDash) && Trim(text) != []
    ensures ExtractPeriodRange(Some(text)) == PeriodRange(ParseYear(Trim(text)), ParseYear(Trim(text)))
  {
    SplitWithoutSeparator(text, IsDash);
    assert MapAll([text], Trim) == [Trim(text)];
    assert Segments(text) == [Trim(text)];
  }

  /** NonEmpty on three parts whose outer two are single non-empty strings. */
  lemma NonEmptyFrame(a: String, middle: seq<String>, b: String)
    requires a != [] && b != []
    ensures NonEmpty([a] + middle + [b]) == [a] + NonEmpty(middle) + [b]
  {
    NonEmptyAppend([a] + middle, [b]);
    NonEmptyAppend([a], middle);
    assert NonEmpty([b]) == [b];
    assert NonEmpty([a]) == [a];
  }

  /** Splitting "first - middle - last" at dashes, when first and last hold
      none. */
  lemma FramedSplit(first: String, sep1: char, middle: String, sep2: char, last: String)
    requires IsDash(sep1) && IsDash(sep2)
    requires NoneSatisfy(first, IsDash) && NoneSatisfy(last, IsDash)
    ensures Split(first + [sep1] + middle + [sep2] + last, IsDash) == [first] + Split(middle, IsDash) + [last]
  {
    assert first + [sep1] + middle + [sep2] + last == first + [sep1] + (middle + [sep2] + last);
    SplitAtSeparator(first, sep1, middle + [sep2] + last, IsDash);
    SplitAtSeparator(middle, sep2, last, IsDash);
    SplitWithoutSeparator(first, IsDash);
    SplitWithoutSeparator(last, IsDash);
  }

  /** The segments of "first - middle - last" when first and last hold no
      dash and are not blank. */
  lemma FramedSegments(first: String, sep1: char, middle: String, sep2: char, last: String)
    requires IsDash(sep1) && IsDash(sep2)
    requires NoneSatisfy(first, IsDash) && NoneSatisfy(last, IsDash)
    requires Trim(first) != [] && Trim(last) != []
    ensures Segments(first + [sep1] + middle + [sep2] + last)
      == [Trim(first)] + NonEmpty(MapAll(Split(middle, IsDash), Trim)) + [Trim(last)]
  {
    var text := first + [sep1] + middle + [sep2] + last;
    FramedSplit(first, sep1, middle, sep2, last);
    var inner := Split(middle, IsDash);
    MapAllAppend([first] + inner, [last], Trim);
    MapAllAppend([first], inner, Trim);
    assert MapAll([first], Trim) == [Trim(first)];
    assert MapAll([last], Trim) == [Trim(last)];
    NonEmptyFrame(Trim(first), MapAll(inner, Trim), Trim(last));
  }

  /** How extractPeriodRange reads a label with two or more segments. */
  lemma RangeOfSegments(text: String)
    requires |Segments(text)| >= 2
    ensures ExtractPeriodRange(Some(text))
      == PeriodRange(ParseYear(Segments(text)[0]), ParseYear(Segments(text)[|Segments(text)| - 1]))
  {
    var segs := Segments(text);
    assert Some(text).value == text && text != [];
    assert ExtractPeriodRange(Some(text)) == PeriodRange(ParseYear(segs[0]), ParseYear(segs[|segs| - 1]));
  }

  /** The range of a label depends on its segments alone: two labels with
      the same segments get the same range, the empty label included. */
  lemma RangeBySegments(t1: String, t2: String)
    requires Segments(t1) == Segments(t2)
    ensures ExtractPeriodRange(Some(t1)) == ExtractPeriodRange(Some(t2))
  {
    assert MapAll(Split([], IsDash), Trim) == [[]];
    assert Segments([]) == [];
  }

  /** A blank piece splits as itself and trims to nothing. */
  lemma BlankPiece(blank: String)
    requires AllSatisfy(blank, IsWhitespace)
    ensures Split(blank, IsDash) == [blank] && Trim(blank) == []
  {
    assert NoneSatisfy(blank, IsDash);
    SplitWithoutSeparator(blank, IsDash);
    TrimEmpty(blank);
  }

  /** A blank piece before the first dash is dropped: "–2019–2021" and
      " - 2019–2021" read as "2019–2021". */
  lemma LeadingBlankPiece(blank: String, sep: char, rest: String)
    requires IsDash(sep) && AllSatisfy(blank, IsWhitespace)
    ensures Segments(blank + [sep] + rest) == Segments(rest)
    ensures ExtractPeriodRange(Some(blank + [sep] + rest)) == ExtractPeriodRange(Some(rest))
  {
    var pieces := Split(rest, IsDash);
    BlankPiece(blank);
    SplitAtSeparator(blank, sep, rest, IsDash);
    MapAllAppend([blank], pieces, Trim);
    assert MapAll([blank], Trim) == [[]];
    NonEmptyAppend([[]], MapAll(pieces, Trim));
    assert NonEmpty([[]]) == [];
    assert [] + NonEmpty(MapAll(pieces, Trim)) == NonEmpty(MapAll(pieces, Trim));
    RangeBySegments(blank + [sep] + rest, rest);
  }

  /** A blank piece after the last dash is dropped: "2019–2021–" and
      "2019 – 2021 – " read as "2019–2021". */
  lemma TrailingBlankPiece(rest: String, sep: char, blank: String)
    requires IsDash(sep) && AllSatisfy(blank, IsWhitespace)
    ensures Segments(rest + [sep] + blank) == Segments(rest)
    ensures ExtractPeriodRange(Some(rest + [sep] + blank)) == ExtractPeriodRange(Some(rest))
  {
    var pieces := Split(rest, IsDash);
    BlankPiece(blank);
    SplitAtSeparator(rest, sep, blank, IsDash);
    MapAllAppend(pieces, [blank], Trim);
    assert MapAll([blank], Trim) == [[]];
    NonEmptyAppend(MapAll(pieces, Trim), [[]]);
    assert NonEmpty([[]]) == [];
    assert NonEmpty(MapAll(pieces, Trim)) + [] == NonEmpty(MapAll(pieces, Trim));
    RangeBySegments(rest + [sep] + blank, rest);
  }

  /** An open-ended label "2023–" (a job still running) has one non-blank
      piece, so it gives start = end = the start of its year, and the
      timeline sorts it by that year. */
  lemma OpenEndedLabel(y: int, sep: char)
    requires 1900 <= y <= 2099 && IsDash(sep)
    ensures ExtractPeriodRange(Some(YearText(y) + [sep])) == PeriodRange(YearStart(y), YearStart(y))
  {
    assert YearText(y) + [sep] + [] == YearText(y) + [sep];
    TrailingBlankPiece(YearText(y), sep, []);
    SingleYearLabel(y);
  }

  /** A label "–2025", open at the start, likewise gives a one-year range. */
  lemma OpenStartLabel(sep: char, y: int)
    requires 1900 <= y <= 2099 && IsDash(sep)
    ensures ExtractPeriodRange(Some([sep] + YearText(y))) == PeriodRange(YearStart(y), YearStart(y))
  {
    assert [] + [sep] + YearText(y) == [sep] + YearText(y);
    LeadingBlankPiece([], sep, YearText(y));
    SingleYearLabel(y);
  }

  /** Only the first and the last piece count, whatever lies between them
      (more dashes and years included): "2019–2021–2023" is 2019 to 2023. */
  lemma FirstAndLastPieces(first: String, sep1: char, middle: String, sep2: char, last: String)
    requires IsDash(sep1) && IsDash(sep2)
    requires NoneSatisfy(first, IsDash) && NoneSatisfy(last, IsDash)
    requires Trim(first) != [] && Trim(last) != []
    ensures ExtractPeriodRange(Some(first + [sep1] + middle + [sep2] + last))
      == PeriodRange(ParseYear(Trim(first)), ParseYear(Trim(last)))
  {
    var text := first + [sep1] + middle + [sep2] + last;
    FramedSegments(first, sep1, middle, sep2, last);
    RangeOfSegments(text);
  }

  /** The segments of "first - last" when neither piece holds a dash. */
  lemma PairSegments(first: String, sep: char, last: String)
    requires IsDash(sep)
    requires NoneSatisfy(first, IsDash) && NoneSatisfy(last, IsDash)
    ensures Segments(first + [sep] + last) == NonEmpty([Trim(first)] + [Trim(last)])
  {
    SplitAtSeparator(first, sep, last, IsDash);
    SplitWithoutSeparator(first, IsDash);
    SplitWithoutSeparator(last, IsDash);
    assert Split(first + [sep] + last, IsDash) == [first] + [last];
    MapAllAppend([first], [last], Trim);
    assert MapAll([first], Trim) == [Trim(first)];
    assert MapAll([last], Trim) == [Trim(last)];
  }

  /** Two pieces around one dash give start and end. */
  lemma TwoPieces(first: String, sep: char, last: String)
    requires IsDash(sep)
    requires NoneSatisfy(first, IsDash) && NoneSatisfy(last, IsDash)
    requires Trim(first) != [] && Trim(last) != []
    ensures ExtractPeriodRange(Some(first + [sep] + last))
      == PeriodRange(ParseYear(Trim(first)), ParseYear(Trim(last)))
  {
    var text := first + [sep] + last;
    PairSegments(first, sep, last);
    NonEmptyAppend([Trim(first)], [Trim(last)]);
    assert NonEmpty([Trim(first)]) == [Trim(first)];
    assert NonEmpty([Trim(last)]) == [Trim(last)];
    assert Segments(text) == [Trim(first), Trim(last)];
    RangeOfSegments(text);
  }

  /** A year written alone parses to its own start. */
  lemma ParseYearText(y: int)
    requires 1900 <= y <= 2099
    ensures ParseYear(YearText(y)) == YearStart(y)
  {
    ParseYearEmbedded([], y, []);
    assert [] + YearText(y) + [] == YearText(y);
  }

  /** The shape of every shipped label: "yyyy–yyyy" or "yyyy-yyyy". */
  lemma YearRangeLabel(a: int, sep: char, b: int)
    requires 1900 <= a <= 2099 && 1900 <= b <= 2099 && IsDash(sep)
    ensures ExtractPeriodRange(Some(YearText(a) + [sep] + YearText(b))) == PeriodRange(YearStart(a), YearStart(b))
  {
    TrimTight(YearText(a));
    TrimTight(YearText(b));
    TwoPieces(YearText(a), sep, YearText(b));
    ParseYearText(a);
    ParseYearText(b);
  }

  /** "2025" is the one-year range 2025 to 2025. */
  lemma SingleYearLabel(y: int)
    requires 1900 <= y <= 2099
    ensures ExtractPeriodRange(Some(YearText(y))) == PeriodRange(YearStart(y), YearStart(y))
  {
    TrimTight(YearText(y));
    SinglePiece(YearText(y));
    ParseYearText(y);
  }

  /** A year inside text, and text without a year. */
  lemma ParseYearExamples()
    ensures ParseYear("Experiência 2021–2023") == YearStart(2021)
  {
    var prefix := "Experiência ";
    NoDigitsNoYear(prefix);
    assert "Experiência 2021–2023" == prefix + YearText(2021) + "–2023";
    ParseYearEmbedded(prefix, 2021, "–2023");
  }

  lemma NoYearExample()
    ensures ParseYear("abc") == NoYear
  {
    NoDigitsNoYear("abc");
  }

  /** A hyphen range. */
  lemma HyphenRangeExample()
    ensures ExtractPeriodRange(Some("2018-2020")) == PeriodRange(YearStart(2018), YearStart(2020))
  {
    assert "2018-2020" == YearText(2018) + ['-'] + YearText(2020);
    YearRangeLabel(2018, '-', 2020);
  }

  /** A single year, and the empty label. */
  lemma SingleYearExample()
    ensures ExtractPeriodRange(Some("2025")) == PeriodRange(YearStart(2025), YearStart(2025))
    ensures ExtractPeriodRange(Some("")) == PeriodRange(NoYear, NoYear)
  {
    assert "2025" == YearText(2025);
    SingleYearLabel(2025);
  }

  /** Three pieces: the middle year is ignored. */
  lemma ThreePieceExample()
    ensures ExtractPeriodRange(Some("2019–2021–2023")) == PeriodRange(YearStart(2019), YearStart(2023))
  {
    assert "2019–2021–2023" == YearText(2019) + ['–'] + YearText(2021) + ['–'] + YearText(2023);
    ThreeYearLabel(2019, 2021, 2023);
  }

  /** 1970 starts at the "absent" sentinel. */
  lemma EpochCollisionExample()
    ensures ExtractPeriodRange(Some("1970–1975")).start == NoYear
  {
    assert "1970–1975" == YearText(1970) + ['–'] + YearText(1975);
    YearRangeLabel(1970, '–', 1975);
    EpochYear();
  }

  lemma ThreeYearLabel(a: int, b: int, c: int)
    requires 1900 <= a <= 2099 && 1900 <= b <= 2099 && 1900 <= c <= 2099
    ensures ExtractPeriodRange(Some(YearText(a) + ['–'] + YearText(b) + ['–'] + YearText(c)))
      == PeriodRange(YearStart(a), YearStart(c))
  {
    TrimTight(YearText(a));
    TrimTight(YearText(c));
    FirstAndLastPieces(YearText(a), '–', YearText(b), '–', YearText(c));
    ParseYearText(a);
    ParseYearText(c);
  }
}
