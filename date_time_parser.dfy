// DateTimeParser: a date-time is read by trying eight fixed patterns in order
// under strict resolution. A text whose shape fits no pattern moves on to the
// next; a text that fits a pattern but names an impossible date or time stops
// the search; a year below 1 is refused.
module DateTimeParser {
  import opened Errors
  import opened Chars

  datatype Option<T> = None | Some(value: T)

  datatype Field = Year | Month | Day | Hour | Minute

  /** One letter group of a formatter pattern (a zero-padded number of fixed
      width) or one literal character. */
  datatype Element = Num(field: Field, width: nat) | Lit(symbol: char)

  type Pattern = seq<Element>

  /** The field values a pattern has read; `LocalDateTime` when `IsValid` holds. */
  datatype DateTime = DateTime(year: int, month: int, day: int, hour: int, minute: int)

  const Unset: DateTime := DateTime(0, 0, 0, 0, 0)

  const DmyDashCompact: Pattern :=    // dd-MM-uuuu HHmm
    [Num(Day, 2), Lit('-'), Num(Month, 2), Lit('-'), Num(Year, 4), Lit(' '), Num(Hour, 2), Num(Minute, 2)]
  const YmdDashColon: Pattern :=      // uuuu-MM-dd HH:mm
    [Num(Year, 4), Lit('-'), Num(Month, 2), Lit('-'), Num(Day, 2), Lit(' '), Num(Hour, 2), Lit(':'), Num(Minute, 2)]
  const YmdDashCompact: Pattern :=    // uuuu-MM-dd HHmm
    [Num(Year, 4), Lit('-'), Num(Month, 2), Lit('-'), Num(Day, 2), Lit(' '), Num(Hour, 2), Num(Minute, 2)]
  const YmdSlashColon: Pattern :=     // uuuu/MM/dd HH:mm
    [Num(Year, 4), Lit('/'), Num(Month, 2), Lit('/'), Num(Day, 2), Lit(' '), Num(Hour, 2), Lit(':'), Num(Minute, 2)]
  const YmdSlashCompact: Pattern :=   // uuuu/MM/dd HHmm
    [Num(Year, 4), Lit('/'), Num(Month, 2), Lit('/'), Num(Day, 2), Lit(' '), Num(Hour, 2), Num(Minute, 2)]
  const DmySlashColon: Pattern :=     // dd/MM/uuuu HH:mm
    [Num(Day, 2), Lit('/'), Num(Month, 2), Lit('/'), Num(Year, 4), Lit(' '), Num(Hour, 2), Lit(':'), Num(Minute, 2)]
  const DmySlashCompact: Pattern :=   // dd/MM/uuuu HHmm
    [Num(Day, 2), Lit('/'), Num(Month, 2), Lit('/'), Num(Year, 4), Lit(' '), Num(Hour, 2), Num(Minute, 2)]
  const DmyDashColon: Pattern :=      // dd-MM-uuuu HH:mm
    [Num(Day, 2), Lit('-'), Num(Month, 2), Lit('-'), Num(Year, 4), Lit(' '), Num(Hour, 2), Lit(':'), Num(Minute, 2)]

  /** `ALLOWED_FORMATTERS`, in order. */
  const AllowedFormatters: seq<Pattern> := [
    DmyDashCompact, YmdDashColon, YmdDashCompact, YmdSlashColon,
    YmdSlashCompact, DmySlashColon, DmySlashCompact, DmyDashColon
  ]

  function Get(d: DateTime, f: Field): int {
    match f
    case Year => d.year
    case Month => d.month
    case Day => d.day
    case Hour => d.hour
    case Minute => d.minute
  }

  function Assign(d: DateTime, f: Field, v: int): (r: DateTime)
    ensures Get(r, f) == v
    ensures forall g :: g != f ==> Get(r, g) == Get(d, g)
  {
    match f
    case Year => d.(year := v)
    case Month => d.(month := v)
    case Day => d.(day := v)
    case Hour => d.(hour := v)
    case Minute => d.(minute := v)
  }

  function DigitValue(c: char): int {
    c as int - '0' as int
  }

  /** The value of a run of decimal digits, most significant first. */
  function DigitsValue(s: string): (v: nat)
    requires AllDigits(s)
    ensures v < Pow10(|s|)
  {
    if s == [] then 0 else DigitsValue(s[..|s| - 1]) * 10 + DigitValue(s[|s| - 1])
  }

  function Pow10(n: nat): (p: nat)
    ensures p >= 1
  {
    if n == 0 then 1 else 10 * Pow10(n - 1)
  }

  /** Reads `text` against `pattern`, every number group taking exactly its
      width in ASCII digits and every literal itself, with nothing left over. */
  function Match(text: string, pattern: Pattern, acc: DateTime): (r: Option<DateTime>)
    ensures r.Some? ==> Mask(text) == ShapeOf(pattern)
    decreases pattern
  {
    if pattern == [] then (if text == [] then Some(acc) else None)
    else match pattern[0]
      case Lit(c) =>
        if text != [] && text[0] == c then
          var r := Match(text[1..], pattern[1..], acc);
          assert r.Some? ==> Mask(text) == [MaskChar(c)] + Mask(text[1..]);
          r
        else None
      case Num(f, w) =>
        if w <= |text| && AllDigits(text[..w]) then
          var r := Match(text[w..], pattern[1..], Assign(acc, f, DigitsValue(text[..w])));
          assert r.Some? ==> Mask(text) == Nines(w) + Mask(text[w..]) by {
            assert Mask(text[..w]) == Nines(w);
            MaskSplit(text, w);
          }
          r
        else None
  }

  /** A character's shape: every digit looks alike. */
  function MaskChar(c: char): char {
    if IsAsciiDigit(c) then '9' else c
  }

  function Mask(s: string): (m: string)
    ensures |m| == |s| && forall k :: 0 <= k < |s| ==> m[k] == MaskChar(s[k])
  {
    seq(|s|, k requires 0 <= k < |s| => MaskChar(s[k]))
  }

  lemma MaskSplit(s: string, w: nat)
    requires w <= |s|
    ensures Mask(s) == Mask(s[..w]) + Mask(s[w..])
  {
  }

  function Nines(n: nat): (s: string)
    ensures |s| == n && forall k :: 0 <= k < n ==> s[k] == '9'
  {
    seq(n, k => '9')
  }

  /** The shape of the texts a pattern reads. */
  function ShapeOf(pattern: Pattern): string {
    if pattern == [] then []
    else match pattern[0]
      case Lit(c) => [MaskChar(c)] + ShapeOf(pattern[1..])
      case Num(_, w) => Nines(w) + ShapeOf(pattern[1..])
  }

  predicate IsLeapYear(year: int) {
    year % 4 == 0 && (year % 100 != 0 || year % 400 == 0)
  }

  /** Days in a month of the proleptic Gregorian calendar. */
  function DaysInMonth(year: int, month: int): int
    requires 1 <= month <= 12
  {
    if month == 2 then (if IsLeapYear(year) then 29 else 28)
    else if month == 4 || month == 6 || month == 9 || month == 11 then 30
    else 31
  }

  /** Strict resolution: every field in its range and the day in its month,
      with no rolling over into the next. */
  predicate IsValid(d: DateTime) {
    && 1 <= d.month <= 12
    && 1 <= d.day <= DaysInMonth(d.year, d.month)
    && 0 <= d.hour <= 23
    && 0 <= d.minute <= 59
  }

  /** What the search answers once a pattern has read the text. */
  function Verdict(d: DateTime): Result<DateTime> {
    if !IsValid(d) then Err(ParseError(DateTimeValueInvalid))
    else if d.year < 1 then Err(ParseError(DateTimeYearInvalid))
    else Ok(d)
  }

  /** Pattern `i` is the first of `formatters` that reads `text`. */
  predicate IsFirstMatch(text: string, formatters: seq<Pattern>, i: nat) {
    && i < |formatters|
    && Match(text, formatters[i], Unset).Some?
    && forall j :: 0 <= j < i ==> Match(text, formatters[j], Unset).None?
  }

  /** Past a pattern that does not read the text, the search goes on as over
      the rest of the list. */
  lemma SkipMiss(text: string, formatters: seq<Pattern>)
    requires formatters != [] && Match(text, formatters[0], Unset).None?
    ensures forall i: nat :: IsFirstMatch(text, formatters, i) ==> i > 0 && IsFirstMatch(text, formatters[1..], i - 1)
    ensures forall i: nat :: IsFirstMatch(text, formatters[1..], i) ==> IsFirstMatch(text, formatters, i + 1)
    ensures (forall i :: 0 <= i < |formatters| ==> Match(text, formatters[i], Unset).None?) <==>
            (forall i :: 0 <= i < |formatters| - 1 ==> Match(text, formatters[1..][i], Unset).None?)
  {
    forall i | 0 < i < |formatters| ensures formatters[1..][i - 1] == formatters[i] {}
  }

  /** The loop of `parseDateTime` over a list of formatters. */
  function ParseWith(dateTime: string, formatters: seq<Pattern>): (r: Result<DateTime>)
    ensures r == Err(ParseError(DateTimeFormatInvalid)) <==>
      forall i :: 0 <= i < |formatters| ==> Match(dateTime, formatters[i], Unset).None?
    ensures forall i: nat :: IsFirstMatch(dateTime, formatters, i) ==>
      r == Verdict(Match(dateTime, formatters[i], Unset).value)
    ensures r.Ok? ==> exists i: nat :: IsFirstMatch(dateTime, formatters, i)
                                     && Match(dateTime, formatters[i], Unset) == Some(r.value)
  {
    if formatters == [] then Err(ParseError(DateTimeFormatInvalid))
    else
      match Match(dateTime, formatters[0], Unset)
      case None =>
        SkipMiss(dateTime, formatters);
        ParseWith(dateTime, formatters[1..])
      case Some(d) =>
        assert IsFirstMatch(dateTime, formatters, 0);
        assert forall i: nat :: IsFirstMatch(dateTime, formatters, i) ==> i == 0;
        Verdict(d)
  }

  /** `parseDateTime`. */
  function ParseDateTime(dateTime: string): (r: Result<DateTime>)
    ensures r.Ok? ==> IsValid(r.value) && 1 <= r.value.year
    ensures r.Ok? ==> exists i: nat :: IsFirstMatch(dateTime, AllowedFormatters, i)
                                     && Match(dateTime, AllowedFormatters[i], Unset) == Some(r.value)
  {
    ParseWith(dateTime, AllowedFormatters)
  }

  // The partner of the search: a printer for the same patterns.

  /** `v` written in exactly `w` ASCII digits, zero-padded. */
  function PadDigits(v: int, w: nat): (s: string)
    decreases w
    ensures |s| == w && AllDigits(s)
  {
    if w == 0 then [] else PadDigits(v / 10, w - 1) + [('0' as int + v % 10) as char]
  }

  lemma {:induction false} PadDigitsValue(v: nat, w: nat)
    requires v < Pow10(w)
    ensures DigitsValue(PadDigits(v, w)) == v
  {
    if w > 0 {
      var s := PadDigits(v, w);
      assert s[..w - 1] == PadDigits(v / 10, w - 1);
      PadDigitsValue(v / 10, w - 1);
    }
  }

  /** Every field a pattern prints fits its width. */
  predicate Fits(d: DateTime, pattern: Pattern) {
    forall k :: 0 <= k < |pattern| && pattern[k].Num? ==>
      0 <= Get(d, pattern[k].field) < Pow10(pattern[k].width)
  }

  /** `d` written in the shape of `pattern`. */
  function Format(d: DateTime, pattern: Pattern): (s: string) {
    if pattern == [] then []
    else
      match pattern[0]
      case Lit(c) => [c] + Format(d, pattern[1..])
      case Num(f, w) => PadDigits(Get(d, f), w) + Format(d, pattern[1..])
  }

  /** What one element prints. */
  function FormatElement(d: DateTime, e: Element): (s: string)
    ensures e.Lit? ==> s == [e.symbol]
    ensures e.Num? ==> |s| == e.width && AllDigits(s)
  {
    match e
    case Lit(c) => [c]
    case Num(f, w) => PadDigits(Get(d, f), w)
  }

  /** A pattern prints element by element. */
  lemma FormatCons(d: DateTime, e: Element, rest: Pattern)
    ensures Format(d, [e] + rest) == FormatElement(d, e) + Format(d, rest)
  {
    assert ([e] + rest)[1..] == rest;
  }

  /** One printing step, from what the element and the rest print. */
  lemma FormatStep(d: DateTime, e: Element, rest: Pattern, head: string, tail: string)
    requires FormatElement(d, e) == head && Format(d, rest) == tail
    ensures Format(d, [e] + rest) == head + tail
  {
    FormatCons(d, e, rest);
  }

  /** `acc` with every field that `pattern` names taken from `d`. */
  function CopyFields(acc: DateTime, d: DateTime, pattern: Pattern): DateTime
    decreases |pattern|
  {
    if pattern == [] then acc
    else CopyFields(if pattern[0].Num? then Assign(acc, pattern[0].field, Get(d, pattern[0].field)) else acc,
                    d, pattern[1..])
  }

  /** Reading back what a pattern printed recovers every field it names. */
  lemma {:induction false} FormatThenMatch(d: DateTime, pattern: Pattern, acc: DateTime)
    requires Fits(d, pattern)
    ensures Match(Format(d, pattern), pattern, acc) == Some(CopyFields(acc, d, pattern))
  {
    if pattern != [] {
      assert Fits(d, pattern[1..]) by {
        forall k | 0 <= k < |pattern| - 1 ensures pattern[1..][k] == pattern[k + 1] {}
      }
      var rest := Format(d, pattern[1..]);
      var text := Format(d, pattern);
      match pattern[0]
      case Lit(c) =>
        assert text[1..] == rest;
        FormatThenMatch(d, pattern[1..], acc);
      case Num(f, w) =>
        var digits := PadDigits(Get(d, f), w);
        assert text[..w] == digits && text[w..] == rest;
        assert 0 <= Get(d, f) < Pow10(w) by {
          assert pattern[0].Num?;
        }
        PadDigitsValue(Get(d, f), w);
        FormatThenMatch(d, pattern[1..], Assign(acc, f, Get(d, f)));
    }
  }

  /** Field values that the allowed patterns can print: a year of at most four
      digits, the other fields of at most two. */
  predicate InWidths(d: DateTime) {
    && 0 <= d.year < 10000
    && 0 <= d.month < 100 && 0 <= d.day < 100
    && 0 <= d.hour < 100 && 0 <= d.minute < 100
  }

  /** The field widths the allowed patterns use, two digits and four. */
  lemma PowersOfTen()
    ensures Pow10(2) == 100 && Pow10(4) == 10000
  {
    assert Pow10(1) == 10;
    assert Pow10(3) == 1000;
  }

  /** Each allowed pattern prints every field in its width and names all five. */
  lemma AllowedPatternsCover(d: DateTime, i: nat)
    requires InWidths(d) && i < |AllowedFormatters|
    ensures Fits(d, AllowedFormatters[i])
    ensures CopyFields(Unset, d, AllowedFormatters[i]) == d
  {
    if i < 2 {
      if i == 0 { CoversAt0(d); } else { CoversAt1(d); }
    } else if i < 4 {
      if i == 2 { CoversAt2(d); } else { CoversAt3(d); }
    } else if i < 6 {
      if i == 4 { CoversAt4(d); } else { CoversAt5(d); }
    } else {
      if i == 6 { CoversAt6(d); } else { CoversAt7(d); }
    }
  }

  /** `DmyDashCompact` covers every field. */
  lemma CoversAt0(d: DateTime)
    requires InWidths(d)
    ensures Fits(d, AllowedFormatters[0]) && CopyFields(Unset, d, AllowedFormatters[0]) == d
  {
    PowersOfTen();
  }

  /** `YmdDashColon` covers every field. */
  lemma CoversAt1(d: DateTime)
    requires InWidths(d)
    ensures Fits(d, AllowedFormatters[1]) && CopyFields(Unset, d, AllowedFormatters[1]) == d
  {
    PowersOfTen();
  }

  /** `YmdDashCompact` covers every field. */
  lemma CoversAt2(d: DateTime)
    requires InWidths(d)
    ensures Fits(d, AllowedFormatters[2]) && CopyFields(Unset, d, AllowedFormatters[2]) == d
  {
    PowersOfTen();
  }

  /** `YmdSlashColon` covers every field. */
  lemma CoversAt3(d: DateTime)
    requires InWidths(d)
    ensures Fits(d, AllowedFormatters[3]) && CopyFields(Unset, d, AllowedFormatters[3]) == d
  {
    PowersOfTen();
  }

  /** `YmdSlashCompact` covers every field. */
  lemma CoversAt4(d: DateTime)
    requires InWidths(d)
    ensures Fits(d, AllowedFormatters[4]) && CopyFields(Unset, d, AllowedFormatters[4]) == d
  {
    PowersOfTen();
  }

  /** `DmySlashColon` covers every field. */
  lemma CoversAt5(d: DateTime)
    requires InWidths(d)
    ensures Fits(d, AllowedFormatters[5]) && CopyFields(Unset, d, AllowedFormatters[5]) == d
  {
    PowersOfTen();
  }

  /** `DmySlashCompact` covers every field. */
  lemma CoversAt6(d: DateTime)
    requires InWidths(d)
    ensures Fits(d, AllowedFormatters[6]) && CopyFields(Unset, d, AllowedFormatters[6]) == d
  {
    PowersOfTen();
  }

  /** `DmyDashColon` covers every field. */
  lemma CoversAt7(d: DateTime)
    requires InWidths(d)
    ensures Fits(d, AllowedFormatters[7]) && CopyFields(Unset, d, AllowedFormatters[7]) == d
  {
    PowersOfTen();
  }

  /** The digit masks of the allowed patterns, in order. */
  const AllowedShapes: seq<string> := [
    "99-99-9999 9999", "9999-99-99 99:99", "9999-99-99 9999", "9999/99/99 99:99",
    "9999/99/99 9999", "99/99/9999 99:99", "99/99/9999 9999", "99-99-9999 99:99"
  ]

  lemma ShapeOfDmyDashCompact()
    ensures ShapeOf(DmyDashCompact) == "99-99-9999 9999"
  {
  }

  lemma ShapeOfYmdDashColon()
    ensures ShapeOf(YmdDashColon) == "9999-99-99 99:99"
  {
  }

  lemma ShapeOfYmdDashCompact()
    ensures ShapeOf(YmdDashCompact) == "9999-99-99 9999"
  {
  }

  lemma ShapeOfYmdSlashColon()
    ensures ShapeOf(YmdSlashColon) == "9999/99/99 99:99"
  {
  }

  lemma ShapeOfYmdSlashCompact()
    ensures ShapeOf(YmdSlashCompact) == "9999/99/99 9999"
  {
  }

  lemma ShapeOfDmySlashColon()
    ensures ShapeOf(DmySlashColon) == "99/99/9999 99:99"
  {
  }

  lemma ShapeOfDmySlashCompact()
    ensures ShapeOf(DmySlashCompact) == "99/99/9999 9999"
  {
  }

  lemma ShapeOfDmyDashColon()
    ensures ShapeOf(DmyDashColon) == "99-99-9999 99:99"
  {
  }

  lemma ShapesOfAllowed(i: nat)
    requires i < |AllowedFormatters|
    ensures ShapeOf(AllowedFormatters[i]) == AllowedShapes[i]
  {
    if i < 4 {
      if i < 2 {
        if i == 0 { ShapeOfDmyDashCompact(); } else { ShapeOfYmdDashColon(); }
      } else {
        if i == 2 { ShapeOfYmdDashCompact(); } else { ShapeOfYmdSlashColon(); }
      }
    } else {
      if i < 6 {
        if i == 4 { ShapeOfYmdSlashCompact(); } else { ShapeOfDmySlashColon(); }
      } else {
        if i == 6 { ShapeOfDmySlashCompact(); } else { ShapeOfDmyDashColon(); }
      }
    }
  }

  /** The masks differ in length or at position 2 or 4. */
  lemma ShapesDistinct(i: nat, j: nat)
    requires i < |AllowedShapes| && j < |AllowedShapes| && i != j
    ensures AllowedShapes[i] != AllowedShapes[j]
  {
    var a, b := AllowedShapes[i], AllowedShapes[j];
    assert |a| != |b| || a[2] != b[2] || a[4] != b[4];
  }

  /** No text fits two allowed patterns, so their order never decides the
      result. */
  lemma AtMostOneMatch(text: string, i: nat, j: nat)
    requires i < |AllowedFormatters| && j < |AllowedFormatters|
    requires Match(text, AllowedFormatters[i], Unset).Some?
    requires Match(text, AllowedFormatters[j], Unset).Some?
    ensures i == j
  {
    ShapesOfAllowed(i);
    ShapesOfAllowed(j);
    if i != j {
      ShapesDistinct(i, j);
    }
  }

  /** A date-time written in any allowed shape is read back by that pattern and
      judged as it is: itself when valid with a year from 1, the
      invalid-value error when strict resolution refuses it, the year error
      for year 0. */
  lemma ReadBack(d: DateTime, i: nat)
    requires InWidths(d) && i < |AllowedFormatters|
    ensures ParseDateTime(Format(d, AllowedFormatters[i])) == Verdict(d)
  {
    AllowedPatternsCover(d, i);
    var text := Format(d, AllowedFormatters[i]);
    FormatThenMatch(d, AllowedFormatters[i], Unset);
    forall j: nat | j < i ensures Match(text, AllowedFormatters[j], Unset).None? {
      if Match(text, AllowedFormatters[j], Unset).Some? {
        AtMostOneMatch(text, i, j);
      }
    }
    assert IsFirstMatch(text, AllowedFormatters, i);
  }

  // The converse: what a pattern reads is what it prints.

  /** Padding the value of a run of digits to its length gives the run back. */
  lemma {:induction false} DigitsPadded(s: string)
    requires AllDigits(s)
    ensures PadDigits(DigitsValue(s), |s|) == s
  {
    if s != [] {
      var n := |s|;
      var init := s[..n - 1];
      var v := DigitsValue(s);
      assert v / 10 == DigitsValue(init) && v % 10 == DigitValue(s[n - 1]);
      DigitsPadded(init);
      assert s == init + [s[n - 1]];
    }
  }

  /** `pattern` reads field `f` somewhere. */
  predicate Names(pattern: Pattern, f: Field) {
    exists k :: 0 <= k < |pattern| && pattern[k].Num? && pattern[k].field == f
  }

  /** No field is read twice. */
  predicate DistinctFields(pattern: Pattern) {
    forall j, k :: 0 <= j < k < |pattern| && pattern[j].Num? && pattern[k].Num? ==>
      pattern[j].field != pattern[k].field
  }

  /** Past its first element a pattern still reads each field at most once,
      names no new field, and never again the field the first element reads. */
  lemma DistinctRest(pattern: Pattern)
    requires pattern != [] && DistinctFields(pattern)
    ensures DistinctFields(pattern[1..])
    ensures forall f :: Names(pattern[1..], f) ==> Names(pattern, f)
    ensures pattern[0].Num? ==> Names(pattern, pattern[0].field) && !Names(pattern[1..], pattern[0].field)
  {
    var rest := pattern[1..];
    assert forall k :: 0 <= k < |rest| ==> rest[k] == pattern[k + 1];
    forall f | Names(rest, f) ensures Names(pattern, f) {
      var k :| 0 <= k < |rest| && rest[k].Num? && rest[k].field == f;
      assert pattern[k + 1] == rest[k];
    }
    if pattern[0].Num? {
      assert pattern[0].Num? && pattern[0].field == pattern[0].field;
    }
  }

  /** A pattern fits when its first element and the rest do. */
  lemma FitsCons(d: DateTime, pattern: Pattern)
    requires pattern != [] && Fits(d, pattern[1..])
    requires pattern[0].Num? ==> 0 <= Get(d, pattern[0].field) < Pow10(pattern[0].width)
    ensures Fits(d, pattern)
  {
    assert forall k :: 0 < k < |pattern| ==> pattern[k] == pattern[1..][k - 1];
  }

  /** What `MatchThenFormat` states of one pattern and what it read. */
  predicate ReadsAsPrinted(text: string, pattern: Pattern, acc: DateTime, d: DateTime) {
    && Fits(d, pattern)
    && Format(d, pattern) == text
    && forall f :: !Names(pattern, f) ==> Get(d, f) == Get(acc, f)
  }

  /** A literal step: the literal is the text's first character. */
  lemma LitStep(text: string, pattern: Pattern, acc: DateTime, d: DateTime)
    requires pattern != [] && pattern[0].Lit? && DistinctFields(pattern)
    requires text != [] && text[0] == pattern[0].symbol
    requires ReadsAsPrinted(text[1..], pattern[1..], acc, d)
    ensures ReadsAsPrinted(text, pattern, acc, d)
  {
    DistinctRest(pattern);
    FitsCons(d, pattern);
    assert text == [pattern[0].symbol] + text[1..];
  }

  /** A number step: the digits read are the padded value the field keeps. */
  lemma NumStep(text: string, pattern: Pattern, acc: DateTime, d: DateTime)
    requires pattern != [] && pattern[0].Num? && DistinctFields(pattern)
    requires pattern[0].width <= |text| && AllDigits(text[..pattern[0].width])
    requires ReadsAsPrinted(text[pattern[0].width..], pattern[1..],
                            Assign(acc, pattern[0].field, DigitsValue(text[..pattern[0].width])), d)
    ensures ReadsAsPrinted(text, pattern, acc, d)
  {
    var f, w := pattern[0].field, pattern[0].width;
    DistinctRest(pattern);
    assert Get(d, f) == DigitsValue(text[..w]);
    FitsCons(d, pattern);
    DigitsPadded(text[..w]);
    assert text == text[..w] + text[w..];
  }

  /** A pattern read past its leading literal. */
  lemma MatchLit(text: string, pattern: Pattern, acc: DateTime)
    requires pattern != [] && pattern[0].Lit? && Match(text, pattern, acc).Some?
    ensures text != [] && text[0] == pattern[0].symbol
    ensures Match(text[1..], pattern[1..], acc) == Match(text, pattern, acc)
  {
  }

  /** A pattern read past its leading number. */
  lemma MatchNum(text: string, pattern: Pattern, acc: DateTime)
    requires pattern != [] && pattern[0].Num? && Match(text, pattern, acc).Some?
    ensures pattern[0].width <= |text| && AllDigits(text[..pattern[0].width])
    ensures Match(text[pattern[0].width..], pattern[1..],
                  Assign(acc, pattern[0].field, DigitsValue(text[..pattern[0].width])))
            == Match(text, pattern, acc)
  {
  }

  /** A pattern that reads each field at most once prints back exactly the
      text it read, every field read fits its width, and the fields it does
      not name keep their starting value. */
  lemma {:induction false} MatchThenFormat(text: string, pattern: Pattern, acc: DateTime)
    requires DistinctFields(pattern) && Match(text, pattern, acc).Some?
    ensures ReadsAsPrinted(text, pattern, acc, Match(text, pattern, acc).value)
  {
    var d := Match(text, pattern, acc).value;
    if pattern == [] {
      assert text == [];
    } else {
      DistinctRest(pattern);
      if pattern[0].Lit? {
        MatchLit(text, pattern, acc);
        MatchThenFormat(text[1..], pattern[1..], acc);
        LitStep(text, pattern, acc, d);
      } else {
        var w := pattern[0].width;
        MatchNum(text, pattern, acc);
        MatchThenFormat(text[w..], pattern[1..], Assign(acc, pattern[0].field, DigitsValue(text[..w])));
        NumStep(text, pattern, acc, d);
      }
    }
  }

  lemma DistinctInDmyDashCompact()
    ensures DistinctFields(DmyDashCompact)
  {
  }

  lemma DistinctInYmdDashColon()
    ensures DistinctFields(YmdDashColon)
  {
  }

  lemma DistinctInYmdDashCompact()
    ensures DistinctFields(YmdDashCompact)
  {
  }

  lemma DistinctInYmdSlashColon()
    ensures DistinctFields(YmdSlashColon)
  {
  }

  lemma DistinctInYmdSlashCompact()
    ensures DistinctFields(YmdSlashCompact)
  {
  }

  lemma DistinctInDmySlashColon()
    ensures DistinctFields(DmySlashColon)
  {
  }

  lemma DistinctInDmySlashCompact()
    ensures DistinctFields(DmySlashCompact)
  {
  }

  lemma DistinctInDmyDashColon()
    ensures DistinctFields(DmyDashColon)
  {
  }

  /** No allowed pattern reads a field twice. */
  lemma AllowedDistinct(i: nat)
    requires i < |AllowedFormatters|
    ensures DistinctFields(AllowedFormatters[i])
  {
    if i < 4 {
      if i < 2 {
        if i == 0 { DistinctInDmyDashCompact(); } else { DistinctInYmdDashColon(); }
      } else {
        if i == 2 { DistinctInYmdDashCompact(); } else { DistinctInYmdSlashColon(); }
      }
    } else {
      if i < 6 {
        if i == 4 { DistinctInYmdSlashCompact(); } else { DistinctInDmySlashColon(); }
      } else {
        if i == 6 { DistinctInDmySlashCompact(); } else { DistinctInDmyDashColon(); }
      }
    }
  }

  /** The fields an allowed pattern reads fit their widths, so they fit
      `InWidths`. */
  lemma AllowedWidths(d: DateTime, i: nat)
    requires i < |AllowedFormatters| && Fits(d, AllowedFormatters[i])
    ensures InWidths(d)
  {
    PowersOfTen();
    var p := AllowedFormatters[i];
    assert p in AllowedFormatters;
    assert p[0].Num? && p[2].Num? && p[4].Num? && p[6].Num? && p[|p| - 1].Num?;
  }

  /** Every text an allowed pattern reads is that pattern's print of the fields
      it read, so `ReadBack` judges it. */
  lemma ReadIsPrinted(text: string, i: nat)
    requires i < |AllowedFormatters| && Match(text, AllowedFormatters[i], Unset).Some?
    ensures InWidths(Match(text, AllowedFormatters[i], Unset).value)
    ensures Format(Match(text, AllowedFormatters[i], Unset).value, AllowedFormatters[i]) == text
    ensures ParseDateTime(text) == Verdict(Match(text, AllowedFormatters[i], Unset).value)
  {
    var d := Match(text, AllowedFormatters[i], Unset).value;
    AllowedDistinct(i);
    MatchThenFormat(text, AllowedFormatters[i], Unset);
    AllowedWidths(d, i);
    ReadBack(d, i);
  }

  /** A pattern that opens with a number reads no text that does not start
      with a digit. */
  lemma NumberFirst(text: string, pattern: Pattern, acc: DateTime)
    requires pattern != [] && pattern[0].Num? && pattern[0].width >= 1
    requires text == [] || !IsAsciiDigit(text[0])
    ensures Match(text, pattern, acc).None?
  {
    if pattern[0].width <= |text| {
      assert text[..pattern[0].width][0] == text[0];
    }
  }

  lemma OpensWithNumber(i: nat)
    requires i < |AllowedFormatters|
    ensures AllowedFormatters[i] != [] && AllowedFormatters[i][0].Num? && AllowedFormatters[i][0].width >= 1
  {
    assert AllowedFormatters[i] in AllowedFormatters;
  }

  /** Every allowed pattern opens with a number, so a text that does not start
      with a digit fits none of them. */
  lemma NoLeadingDigit(text: string)
    requires text == [] || !IsAsciiDigit(text[0])
    ensures ParseDateTime(text) == Err(ParseError(DateTimeFormatInvalid))
  {
    forall i | 0 <= i < |AllowedFormatters| ensures Match(text, AllowedFormatters[i], Unset).None? {
      OpensWithNumber(i);
      NumberFirst(text, AllowedFormatters[i], Unset);
    }
  }

  /** A valid date-time with a year from 1 to 9999, written in any allowed
      shape, is accepted as itself. */
  lemma FormattedParses(d: DateTime, i: nat)
    requires IsValid(d) && 1 <= d.year <= 9999 && i < |AllowedFormatters|
    ensures InWidths(d)
    ensures ParseDateTime(Format(d, AllowedFormatters[i])) == Ok(d)
  {
    ReadBack(d, i);
  }

  /** Strict resolution: a date or time that does not exist, written in an
      allowed shape, stops the search with the invalid-value error. */
  lemma ImpossibleValueStops(d: DateTime, i: nat)
    requires InWidths(d) && !IsValid(d) && i < |AllowedFormatters|
    ensures ParseDateTime(Format(d, AllowedFormatters[i])) == Err(ParseError(DateTimeValueInvalid))
  {
    ReadBack(d, i);
  }

  /** 12 January 2025, 14:00, written `dd/MM/uuuu HHmm`, is read back. */
  lemma DayFirstExample()
    ensures ParseDateTime(Format(DateTime(2025, 1, 12, 14, 0), DmySlashCompact)) == Ok(DateTime(2025, 1, 12, 14, 0))
  {
    var d := DateTime(2025, 1, 12, 14, 0);
    assert AllowedFormatters[6] == DmySlashCompact;
    FormattedParses(d, 6);
  }

  /** Two zero-padded digits. */
  lemma PadTwo(v: int)
    requires 0 <= v < 100
    ensures PadDigits(v, 2) == [('0' as int + v / 10) as char, ('0' as int + v % 10) as char]
  {
    assert PadDigits(v / 10, 1) == [('0' as int + v / 10) as char];
  }

  /** The padded fields of 12 January 2025, 14:00. */
  lemma TwoDigitFields()
    ensures PadDigits(0, 2) == "00" && PadDigits(1, 2) == "01"
    ensures PadDigits(12, 2) == "12" && PadDigits(14, 2) == "14"
  {
    PadTwo(0);
    PadTwo(1);
    PadTwo(12);
    PadTwo(14);
  }

  /** The year 2025 in four digits. */
  lemma Year2025()
    ensures PadDigits(2025, 4) == "2025"
  {
    PadTwo(20);
    assert PadDigits(202, 3) == "202";
  }

  // `dd/MM/uuuu HHmm` printed for 12 January 2025, 14:00, one element at a
  // time from the end; each step keeps the text as a concatenation of pieces.

  lemma DayFirstClock(d: DateTime)
    requires d.hour == 14 && d.minute == 0
    ensures Format(d, [Lit(' '), Num(Hour, 2), Num(Minute, 2)]) == " " + ("14" + "00")
  {
    var p2: Pattern := [Num(Minute, 2)];
    var p1 := [Num(Hour, 2)] + p2;
    assert [Lit(' ')] + p1 == [Lit(' '), Num(Hour, 2), Num(Minute, 2)];
    TwoDigitFields();
    FormatStep(d, Num(Minute, 2), [], "00", []);
    assert "00" + [] == "00";
    FormatStep(d, Num(Hour, 2), p2, "14", "00");
    FormatStep(d, Lit(' '), p1, " ", "14" + "00");
  }

  lemma DayFirstYear(d: DateTime)
    requires d.year == 2025 && d.hour == 14 && d.minute == 0
    ensures Format(d, [Lit('/'), Num(Year, 4), Lit(' '), Num(Hour, 2), Num(Minute, 2)])
            == "/" + ("2025" + (" " + ("14" + "00")))
  {
    var p2: Pattern := [Lit(' '), Num(Hour, 2), Num(Minute, 2)];
    var p1 := [Num(Year, 4)] + p2;
    assert [Lit('/')] + p1 == [Lit('/'), Num(Year, 4), Lit(' '), Num(Hour, 2), Num(Minute, 2)];
    DayFirstClock(d);
    Year2025();
    FormatStep(d, Num(Year, 4), p2, "2025", " " + ("14" + "00"));
    FormatStep(d, Lit('/'), p1, "/", "2025" + (" " + ("14" + "00")));
  }

  lemma DayFirstMonth(d: DateTime)
    requires d.month == 1 && d.year == 2025 && d.hour == 14 && d.minute == 0
    ensures Format(d, [Lit('/'), Num(Month, 2), Lit('/'), Num(Year, 4), Lit(' '), Num(Hour, 2), Num(Minute, 2)])
            == "/" + ("01" + ("/" + ("2025" + (" " + ("14" + "00")))))
  {
    var p2: Pattern := [Lit('/'), Num(Year, 4), Lit(' '), Num(Hour, 2), Num(Minute, 2)];
    var p1 := [Num(Month, 2)] + p2;
    assert [Lit('/')] + p1 == [Lit('/'), Num(Month, 2), Lit('/'), Num(Year, 4), Lit(' '), Num(Hour, 2), Num(Minute, 2)];
    DayFirstYear(d);
    TwoDigitFields();
    FormatStep(d, Num(Month, 2), p2, "01", "/" + ("2025" + (" " + ("14" + "00"))));
    FormatStep(d, Lit('/'), p1, "/", "01" + ("/" + ("2025" + (" " + ("14" + "00")))));
  }

  /** The pieces of the day-first text, put together. */
  lemma DayFirstPieces()
    ensures "12" + ("/" + ("01" + ("/" + ("2025" + (" " + ("14" + "00")))))) == "12/01/2025 1400"
  {
  }

  /** 12 January 2025, 14:00, printed in `dd/MM/uuuu HHmm`. */
  lemma DayFirstText(d: DateTime)
    requires d.day == 12 && d.month == 1 && d.year == 2025 && d.hour == 14 && d.minute == 0
    ensures Format(d, DmySlashCompact) == "12/01/2025 1400"
  {
    var p1: Pattern := [Lit('/'), Num(Month, 2), Lit('/'), Num(Year, 4), Lit(' '), Num(Hour, 2), Num(Minute, 2)];
    assert [Num(Day, 2)] + p1 == DmySlashCompact;
    DayFirstMonth(d);
    TwoDigitFields();
    FormatStep(d, Num(Day, 2), p1, "12", "/" + ("01" + ("/" + ("2025" + (" " + ("14" + "00"))))));
    DayFirstPieces();
  }

  /** The day-first text of the tests, `12/01/2025 1400`, is 12 January 2025, 14:00. */
  lemma DayFirstTestText()
    ensures ParseDateTime("12/01/2025 1400") == Ok(DateTime(2025, 1, 12, 14, 0))
  {
    DayFirstText(DateTime(2025, 1, 12, 14, 0));
    DayFirstExample();
  }

  /** The same instant written `uuuu/MM/dd HH:mm` is read back too. */
  lemma YearFirstExample()
    ensures ParseDateTime(Format(DateTime(2025, 1, 12, 14, 0), YmdSlashColon)) == Ok(DateTime(2025, 1, 12, 14, 0))
  {
    var d := DateTime(2025, 1, 12, 14, 0);
    assert AllowedFormatters[3] == YmdSlashColon;
    FormattedParses(d, 3);
  }

  // `uuuu/MM/dd HH:mm` printed for the same instant, in the same way.

  lemma YearFirstClock(d: DateTime)
    requires d.hour == 14 && d.minute == 0
    ensures Format(d, [Lit(' '), Num(Hour, 2), Lit(':'), Num(Minute, 2)]) == " " + ("14" + (":" + "00"))
  {
    var p3: Pattern := [Num(Minute, 2)];
    var p2 := [Lit(':')] + p3;
    var p1 := [Num(Hour, 2)] + p2;
    assert [Lit(' ')] + p1 == [Lit(' '), Num(Hour, 2), Lit(':'), Num(Minute, 2)];
    TwoDigitFields();
    FormatStep(d, Num(Minute, 2), [], "00", []);
    assert "00" + [] == "00";
    FormatStep(d, Lit(':'), p3, ":", "00");
    FormatStep(d, Num(Hour, 2), p2, "14", ":" + "00");
    FormatStep(d, Lit(' '), p1, " ", "14" + (":" + "00"));
  }

  lemma YearFirstDay(d: DateTime)
    requires d.day == 12 && d.hour == 14 && d.minute == 0
    ensures Format(d, [Lit('/'), Num(Day, 2), Lit(' '), Num(Hour, 2), Lit(':'), Num(Minute, 2)])
            == "/" + ("12" + (" " + ("14" + (":" + "00"))))
  {
    var p2: Pattern := [Lit(' '), Num(Hour, 2), Lit(':'), Num(Minute, 2)];
    var p1 := [Num(Day, 2)] + p2;
    assert [Lit('/')] + p1 == [Lit('/'), Num(Day, 2), Lit(' '), Num(Hour, 2), Lit(':'), Num(Minute, 2)];
    YearFirstClock(d);
    TwoDigitFields();
    FormatStep(d, Num(Day, 2), p2, "12", " " + ("14" + (":" + "00")));
    FormatStep(d, Lit('/'), p1, "/", "12" + (" " + ("14" + (":" + "00"))));
  }

  lemma YearFirstMonth(d: DateTime)
    requires d.month == 1 && d.day == 12 && d.hour == 14 && d.minute == 0
    ensures Format(d, [Lit('/'), Num(Month, 2), Lit('/'), Num(Day, 2), Lit(' '), Num(Hour, 2), Lit(':'), Num(Minute, 2)])
            == "/" + ("01" + ("/" + ("12" + (" " + ("14" + (":" + "00"))))))
  {
    var p2: Pattern := [Lit('/'), Num(Day, 2), Lit(' '), Num(Hour, 2), Lit(':'), Num(Minute, 2)];
    var p1 := [Num(Month, 2)] + p2;
    assert [Lit('/')] + p1 == [Lit('/'), Num(Month, 2), Lit('/'), Num(Day, 2), Lit(' '), Num(Hour, 2), Lit(':'), Num(Minute, 2)];
    YearFirstDay(d);
    TwoDigitFields();
    FormatStep(d, Num(Month, 2), p2, "01", "/" + ("12" + (" " + ("14" + (":" + "00")))));
    FormatStep(d, Lit('/'), p1, "/", "01" + ("/" + ("12" + (" " + ("14" + (":" + "00"))))));
  }

  /** The pieces of the year-first text, put together. */
  lemma YearFirstPieces()
    ensures "2025" + ("/" + ("01" + ("/" + ("12" + (" " + ("14" + (":" + "00"))))))) == "2025/01/12 14:00"
  {
  }

  /** 12 January 2025, 14:00, printed in `uuuu/MM/dd HH:mm`. */
  lemma YearFirstText(d: DateTime)
    requires d.day == 12 && d.month == 1 && d.year == 2025 && d.hour == 14 && d.minute == 0
    ensures Format(d, YmdSlashColon) == "2025/01/12 14:00"
  {
    var p1: Pattern := [Lit('/'), Num(Month, 2), Lit('/'), Num(Day, 2), Lit(' '), Num(Hour, 2), Lit(':'), Num(Minute, 2)];
    assert [Num(Year, 4)] + p1 == YmdSlashColon;
    YearFirstMonth(d);
    Year2025();
    FormatStep(d, Num(Year, 4), p1, "2025", "/" + ("01" + ("/" + ("12" + (" " + ("14" + (":" + "00")))))));
    YearFirstPieces();
  }

  /** The year-first text of the tests, `2025/01/12 14:00`, is the same instant. */
  lemma YearFirstTestText()
    ensures ParseDateTime("2025/01/12 14:00") == Ok(DateTime(2025, 1, 12, 14, 0))
  {
    YearFirstText(DateTime(2025, 1, 12, 14, 0));
    YearFirstExample();
  }

  /** The 31st of April does not exist. */
  lemma ThirtyFirstOfApril()
    ensures ParseDateTime(Format(DateTime(2025, 4, 31, 10, 0), DmyDashCompact)) == Err(ParseError(DateTimeValueInvalid))
  {
    var d := DateTime(2025, 4, 31, 10, 0);
    assert AllowedFormatters[0] == DmyDashCompact;
    ImpossibleValueStops(d, 0);
  }

  /** The 29th of February exists in a leap year such as 2024. */
  lemma LeapDay()
    ensures ParseDateTime(Format(DateTime(2024, 2, 29, 10, 0), DmyDashCompact)) == Ok(DateTime(2024, 2, 29, 10, 0))
  {
    var d := DateTime(2024, 2, 29, 10, 0);
    assert AllowedFormatters[0] == DmyDashCompact;
    FormattedParses(d, 0);
  }

  /** It does not exist in a common year such as 2023. */
  lemma NoLeapDay()
    ensures ParseDateTime(Format(DateTime(2023, 2, 29, 10, 0), DmyDashCompact)) == Err(ParseError(DateTimeValueInvalid))
  {
    var d := DateTime(2023, 2, 29, 10, 0);
    assert AllowedFormatters[0] == DmyDashCompact;
    ImpossibleValueStops(d, 0);
  }

  /** Nor in 1900, a century year not divisible by 400. */
  lemma NoLeapDayInCentury()
    ensures ParseDateTime(Format(DateTime(1900, 2, 29, 10, 0), DmyDashCompact)) == Err(ParseError(DateTimeValueInvalid))
  {
    var d := DateTime(1900, 2, 29, 10, 0);
    assert AllowedFormatters[0] == DmyDashCompact;
    ImpossibleValueStops(d, 0);
  }

  /** Year 0 is a leap year of the proleptic calendar, so its 29th of February
      resolves, and is then refused for its year. */
  lemma YearZero()
    ensures ParseDateTime(Format(DateTime(0, 2, 29, 10, 0), DmyDashCompact)) == Err(ParseError(DateTimeYearInvalid))
  {
    var d := DateTime(0, 2, 29, 10, 0);
    assert AllowedFormatters[0] == DmyDashCompact;
    ReadBack(d, 0);
  }

  /** Hour 24 does not exist: there is no rolling over into the next day. */
  lemma NoHourTwentyFour()
    ensures ParseDateTime(Format(DateTime(2025, 1, 12, 24, 0), DmyDashColon)) == Err(ParseError(DateTimeValueInvalid))
  {
    var d := DateTime(2025, 1, 12, 24, 0);
    assert AllowedFormatters[7] == DmyDashColon;
    ImpossibleValueStops(d, 7);
  }

  /** Nothing, a space, a caret and a word fit no pattern. */
  lemma NotDateTimes()
    ensures ParseDateTime("") == Err(ParseError(DateTimeFormatInvalid))
    ensures ParseDateTime(" ") == Err(ParseError(DateTimeFormatInvalid))
    ensures ParseDateTime("^") == Err(ParseError(DateTimeFormatInvalid))
    ensures ParseDateTime("peter*") == Err(ParseError(DateTimeFormatInvalid))
  {
    NoLeadingDigit("");
    NoLeadingDigit(" ");
    NoLeadingDigit("^");
    NoLeadingDigit("peter*");
  }
}
