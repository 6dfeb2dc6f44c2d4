// Venue: where a meeting takes place, at most 95 characters once trimmed, over
// letters, marks, digits, space and `, . ' ( ) # & @ : - /`, with at least one
// letter or digit.
module Venue {
  import opened Errors
  import opened Chars

  const MaxVenueCharLength: nat := 95

  /** The stored venue, kept as given; equality is by that text. */
  datatype Venue = Venue(value: string)

  /** The character class `[\p{L}\p{M}\d ,.'()#&@:\-/]`. */
  predicate IsVenueChar(c: char) {
    || IsLetter(c) || IsMark(c) || IsAsciiDigit(c)
    || c == ' ' || c == ',' || c == '.' || c == '\'' || c == '(' || c == ')' || c == '#'
    || c == '&' || c == '@' || c == ':' || c == '-' || c == '/'
  }

  /** `VALIDATION_REGEX`, `^(?=.*[\p{L}\d])[...]+$`: allowed characters only
      (none of them a line terminator, so the lookahead sees the whole text),
      and a letter or a digit among them. */
  predicate MatchesVenue(s: string) {
    && s != []
    && (forall k :: 0 <= k < |s| ==> IsVenueChar(s[k]))
    && exists k :: 0 <= k < |s| && (IsLetter(s[k]) || IsAsciiDigit(s[k]))
  }

  /** `isValidVenue`: over 95 trimmed characters is an error before the regex is
      tried; otherwise the regex decides. */
  function IsValidVenue(test: string): (r: Result<bool>)
    ensures |Trim(test)| > MaxVenueCharLength <==> r == Err(ParseError(VenueTooLong))
    ensures r == Ok(true) <==> |Trim(test)| <= MaxVenueCharLength && MatchesVenue(test)
  {
    if |Trim(test)| > MaxVenueCharLength then Err(ParseError(VenueTooLong))
    else Ok(MatchesVenue(test))
  }

  /** The constructor: any error of the check becomes an illegal argument with
      the length message; a text the regex refuses is an illegal argument with
      the constraints message; the venue is stored as given. */
  function NewVenue(venue: string): (r: Result<Venue>)
    ensures r.Ok? <==> IsValidVenue(venue) == Ok(true)
    ensures r.Ok? ==> r.value.value == venue
    ensures r.Err? ==> r.error == IllegalArgument(
      if |Trim(venue)| > MaxVenueCharLength then VenueTooLong else VenueConstraints)
  {
    match IsValidVenue(venue)
    case Err(_) => Err(IllegalArgument(VenueTooLong))
    case Ok(false) => Err(IllegalArgument(VenueConstraints))
    case Ok(true) => Ok(Venue(venue))
  }

  /** `isBlank`. */
  predicate IsBlankVenue(v: Venue) {
    IsBlank(v.value)
  }

  /** A constructed venue is never blank: it holds a letter or a digit. */
  lemma ConstructedIsNotBlank(venue: string)
    requires NewVenue(venue).Ok?
    ensures !IsBlankVenue(NewVenue(venue).value)
  {
    assert IsValidVenue(venue) == Ok(true);
    assert MatchesVenue(venue);
    var k :| 0 <= k < |venue| && (IsLetter(venue[k]) || IsAsciiDigit(venue[k]));
    LetterOrDigitIsNotWhitespace(venue[k]);
    assert !IsBlank(venue);
  }

  /** For plain lower-case letters only the length can fail: 95 pass, 96 are
      too long. */
  lemma PlainVenueLength(s: string)
    requires s != [] && forall k :: 0 <= k < |s| ==> 'a' <= s[k] <= 'z'
    ensures IsValidVenue(s) == if |s| > MaxVenueCharLength then Err(ParseError(VenueTooLong)) else Ok(true)
  {
    assert Trim(s) == s;
    assert IsLetter(s[0]);
    assert forall k :: 0 <= k < |s| ==> IsVenueChar(s[k]) by {
      forall k | 0 <= k < |s| ensures IsVenueChar(s[k]) {
        assert IsLetter(s[k]);
      }
    }
  }

  /** Words with a level number are a venue. */
  lemma WordsAndNumber()
    ensures IsValidVenue("amk hub level 2") == Ok(true)
  {
    var s := "amk hub level 2";
    assert |Trim(s)| <= |s|;
    assert MatchesVenue(s) by {
      assert IsLetter(s[0]);
      forall k | 0 <= k < |s| ensures IsVenueChar(s[k]) {
        assert IsLetter(s[k]) || s[k] == ' ' || IsAsciiDigit(s[k]);
      }
    }
  }

  /** Digits alone are a venue. */
  lemma DigitsOnly()
    ensures IsValidVenue("12345") == Ok(true)
  {
    var s := "12345";
    assert |Trim(s)| <= |s|;
    assert MatchesVenue(s) by {
      assert IsAsciiDigit(s[0]);
      forall k | 0 <= k < |s| ensures IsVenueChar(s[k]) {
        assert IsAsciiDigit(s[k]);
      }
    }
  }

  /** Nothing, and a lone space, are not venues. */
  lemma BlankRefused()
    ensures IsValidVenue("") == Ok(false)
    ensures IsValidVenue(" ") == Ok(false)
  {
    assert |Trim("")| <= 0;
    var s := " ";
    assert |Trim(s)| <= |s|;
    assert !MatchesVenue(s) by {
      assert !IsLetter(s[0]) && !IsAsciiDigit(s[0]);
    }
  }

  /** One character outside the allowed set refuses a text short enough for
      the regex to be tried. */
  lemma ForeignCharRefused(s: string, k: nat)
    requires k < |s| <= MaxVenueCharLength && !IsVenueChar(s[k])
    ensures IsValidVenue(s) == Ok(false)
  {
  }

  /** A caret alone is not a venue. */
  lemma CaretRefused()
    ensures IsValidVenue("^") == Ok(false)
  {
    ForeignCharRefused("^", 0);
  }

  /** Symbols outside the allowed set are not venues. */
  lemma SymbolsRefused()
    ensures IsValidVenue("%$") == Ok(false)
  {
    ForeignCharRefused("%$", 0);
  }
}
