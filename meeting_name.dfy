// MeetingName: the name of a meeting, at most 95 characters once trimmed, over
// letters, marks, digits, whitespace and `' . ( ) / & , -`.
module MeetingName {
  import opened Errors
  import opened Chars

  const MaxMeetingNameCharLength: nat := 95

  /** The stored name, kept as given; equality is by that text. */
  datatype MeetingName = MeetingName(meetingName: string)

  /** The character class `[\p{L}\p{M}0-9 '\s.()/&,-]`. */
  predicate IsMeetingNameChar(c: char) {
    || IsLetter(c) || IsMark(c) || IsAsciiDigit(c) || IsRegexSpace(c)
    || c == '\'' || c == '.' || c == '(' || c == ')' || c == '/' || c == '&' || c == ',' || c == '-'
  }

  predicate HasOnlyMeetingNameChars(s: string) {
    s != [] && forall k :: 0 <= k < |s| ==> IsMeetingNameChar(s[k])
  }

  /** No line terminator occurs before position `k`, so `.*` can reach it. */
  predicate Reachable(s: string, k: nat)
    requires k <= |s|
  {
    forall j :: 0 <= j < k ==> !IsLineTerminator(s[j])
  }

  /** The lookahead as written, `(?=.*\p{L}|\d)`: the alternation binds looser
      than the sequence, so it reads "a letter before any line terminator, or a
      digit first". */
  predicate LookaheadAsWritten(s: string) {
    || (exists k :: 0 <= k < |s| && IsLetter(s[k]) && Reachable(s, k))
    || (s != [] && IsAsciiDigit(s[0]))
  }

  /** The lookahead as the message states it, `(?=.*(\p{L}|\d))`: a letter or a
      digit before any line terminator. */
  predicate LookaheadIntended(s: string) {
    exists k :: 0 <= k < |s| && (IsLetter(s[k]) || IsAsciiDigit(s[k])) && Reachable(s, k)
  }

  /** `isValidMeetingName` as written: over 95 trimmed characters is an error
      before the regex is tried; otherwise the regex decides. */
  function IsValidMeetingNameAsWritten(test: string): (r: Result<bool>)
    ensures |Trim(test)| > MaxMeetingNameCharLength <==> r == Err(ParseError(MeetingNameTooLong))
    ensures r == Ok(true) <==>
      |Trim(test)| <= MaxMeetingNameCharLength && LookaheadAsWritten(test) && HasOnlyMeetingNameChars(test)
  {
    if |Trim(test)| > MaxMeetingNameCharLength then Err(ParseError(MeetingNameTooLong))
    else Ok(LookaheadAsWritten(test) && HasOnlyMeetingNameChars(test))
  }

  /** `isValidMeetingName` with the lookahead the message describes. */
  function IsValidMeetingName(test: string): (r: Result<bool>)
    ensures |Trim(test)| > MaxMeetingNameCharLength <==> r == Err(ParseError(MeetingNameTooLong))
    ensures r == Ok(true) <==>
      |Trim(test)| <= MaxMeetingNameCharLength && LookaheadIntended(test) && HasOnlyMeetingNameChars(test)
  {
    if |Trim(test)| > MaxMeetingNameCharLength then Err(ParseError(MeetingNameTooLong))
    else Ok(LookaheadIntended(test) && HasOnlyMeetingNameChars(test))
  }

  /** The two readings differ on a digit that is not the first character and
      has no letter beside it: `(1)` has a digit, which the message asks for,
      yet the regex as written refuses it. */
  lemma BracketedDigit()
    ensures IsValidMeetingNameAsWritten("(1)") == Ok(false)
    ensures IsValidMeetingName("(1)") == Ok(true)
  {
    var s := "(1)";
    assert |Trim(s)| <= |s|;
    assert HasOnlyMeetingNameChars(s);
    BracketedDigitReadings(s);
  }

  lemma BracketedDigitReadings(s: string)
    requires s == "(1)"
    ensures !LookaheadAsWritten(s) && LookaheadIntended(s)
  {
    assert forall k :: 0 <= k < |s| ==> !IsLetter(s[k]);
    assert IsAsciiDigit(s[1]) && Reachable(s, 1);
  }

  /** Whatever the intended check accepts holds a letter or a digit, and every
      text of allowed characters with a letter or a digit ahead of any line
      terminator, up to 95 characters once trimmed, is accepted. */
  lemma IntendedMeaning(s: string)
    ensures IsValidMeetingName(s) == Ok(true) ==> exists k :: 0 <= k < |s| && (IsLetter(s[k]) || IsAsciiDigit(s[k]))
    ensures HasOnlyMeetingNameChars(s) && NoLineTerminator(s) && |Trim(s)| <= MaxMeetingNameCharLength
            && (exists k :: 0 <= k < |s| && (IsLetter(s[k]) || IsAsciiDigit(s[k])))
            ==> IsValidMeetingName(s) == Ok(true)
  {
  }

  /** Where the text has a letter ahead of any line terminator, or opens with a
      digit, the two readings agree. */
  lemma ReadingsAgree(s: string)
    requires LookaheadAsWritten(s)
    ensures IsValidMeetingNameAsWritten(s) == IsValidMeetingName(s)
  {
    if s != [] && IsAsciiDigit(s[0]) {
      assert Reachable(s, 0);
    }
  }

  /** The lookahead as written is the stricter: a letter ahead of any line
      terminator, or a leading digit, is a letter or digit ahead of any line
      terminator. So whatever the check as written accepts, the intended check
      accepts too, and whatever the intended check refuses, the check as
      written refuses. */
  lemma AsWrittenIsStricter(s: string)
    ensures LookaheadAsWritten(s) ==> LookaheadIntended(s)
    ensures IsValidMeetingNameAsWritten(s) == Ok(true) ==> IsValidMeetingName(s) == Ok(true)
    ensures IsValidMeetingName(s) == Ok(false) ==> IsValidMeetingNameAsWritten(s) == Ok(false)
    ensures IsValidMeetingName(s).Err? <==> IsValidMeetingNameAsWritten(s).Err?
  {
    if s != [] && IsAsciiDigit(s[0]) {
      assert Reachable(s, 0);
    }
  }

  /** Digits alone are a meeting name, up to 95 of them, in either reading. */
  lemma DigitsAccepted(s: string)
    requires s != [] && |s| <= MaxMeetingNameCharLength && AllDigits(s)
    ensures IsValidMeetingNameAsWritten(s) == Ok(true)
    ensures IsValidMeetingName(s) == Ok(true)
  {
    assert |Trim(s)| <= |s|;
    assert LookaheadAsWritten(s) by {
      assert IsAsciiDigit(s[0]);
    }
    assert HasOnlyMeetingNameChars(s) by {
      forall k | 0 <= k < |s| ensures IsMeetingNameChar(s[k]) {
        assert IsAsciiDigit(s[k]);
      }
    }
    ReadingsAgree(s);
  }

  lemma DigitsOnly()
    ensures IsValidMeetingNameAsWritten("12345") == Ok(true)
    ensures IsValidMeetingName("12345") == Ok(true)
  {
    var s := "12345";
    assert AllDigits(s);
    DigitsAccepted(s);
  }

  /** Nothing is not a meeting name, in either reading. */
  lemma EmptyRefused()
    ensures IsValidMeetingNameAsWritten("") == Ok(false)
    ensures IsValidMeetingName("") == Ok(false)
  {
    assert |Trim("")| <= 0;
  }

  /** A lone space has no letter or digit. */
  lemma SpaceRefused()
    ensures IsValidMeetingNameAsWritten(" ") == Ok(false)
    ensures IsValidMeetingName(" ") == Ok(false)
  {
    var s := " ";
    assert |Trim(s)| <= |s|;
    assert !LookaheadIntended(s) by {
      assert !IsLetter(s[0]) && !IsAsciiDigit(s[0]);
    }
    AsWrittenIsStricter(s);
  }

  /** One character outside the allowed set refuses a text short enough for
      the regex to be tried, in either reading. */
  lemma ForeignCharRefused(s: string, k: nat)
    requires k < |s| <= MaxMeetingNameCharLength && !IsMeetingNameChar(s[k])
    ensures IsValidMeetingNameAsWritten(s) == Ok(false)
    ensures IsValidMeetingName(s) == Ok(false)
  {
  }

  /** A caret is not allowed. */
  lemma CaretRefused()
    ensures IsValidMeetingNameAsWritten("^") == Ok(false)
    ensures IsValidMeetingName("^") == Ok(false)
  {
    ForeignCharRefused("^", 0);
  }

  /** `peter*`: the asterisk is not allowed. */
  lemma AsteriskRefused()
    ensures IsValidMeetingNameAsWritten("peter*") == Ok(false)
    ensures IsValidMeetingName("peter*") == Ok(false)
  {
    ForeignCharRefused("peter*", 5);
  }

  /** For plain lower-case letters only the length can fail: 95 pass, 96 are
      too long, in either reading. */
  lemma PlainMeetingNameLength(s: string)
    requires s != [] && forall k :: 0 <= k < |s| ==> 'a' <= s[k] <= 'z'
    ensures IsValidMeetingNameAsWritten(s)
            == if |s| > MaxMeetingNameCharLength then Err(ParseError(MeetingNameTooLong)) else Ok(true)
    ensures IsValidMeetingName(s)
            == if |s| > MaxMeetingNameCharLength then Err(ParseError(MeetingNameTooLong)) else Ok(true)
  {
    assert Trim(s) == s;
    assert LookaheadAsWritten(s) by {
      assert IsLetter(s[0]) && Reachable(s, 0);
    }
    assert HasOnlyMeetingNameChars(s) by {
      forall k | 0 <= k < |s| ensures IsMeetingNameChar(s[k]) {
        assert IsLetter(s[k]);
      }
    }
    ReadingsAgree(s);
  }

  /** The constructor, on the check as written: the length error keeps its
      message as an illegal argument; a text the regex refuses is an illegal
      argument too; the name is stored as given. */
  function NewMeetingName(name: string): (r: Result<MeetingName>)
    ensures r.Ok? <==> IsValidMeetingNameAsWritten(name) == Ok(true)
    ensures r.Ok? ==> r.value.meetingName == name
    ensures r.Err? ==> r.error == IllegalArgument(
      if |Trim(name)| > MaxMeetingNameCharLength then MeetingNameTooLong else MeetingNameConstraints)
  {
    match IsValidMeetingNameAsWritten(name)
    case Err(e) => Err(IllegalArgument(e.reason))
    case Ok(false) => Err(IllegalArgument(MeetingNameConstraints))
    case Ok(true) => Ok(MeetingName(name))
  }

  /** The constructor on the intended check: the same errors, and it accepts
      every name the constructor as written accepts. */
  function NewMeetingNameIntended(name: string): (r: Result<MeetingName>)
    ensures r.Ok? <==> IsValidMeetingName(name) == Ok(true)
    ensures r.Ok? ==> r.value.meetingName == name
    ensures r.Err? ==> r.error == IllegalArgument(
      if |Trim(name)| > MaxMeetingNameCharLength then MeetingNameTooLong else MeetingNameConstraints)
    ensures NewMeetingName(name).Ok? ==> r == NewMeetingName(name)
  {
    AsWrittenIsStricter(name);
    match IsValidMeetingName(name)
    case Err(e) => Err(IllegalArgument(e.reason))
    case Ok(false) => Err(IllegalArgument(MeetingNameConstraints))
    case Ok(true) => Ok(MeetingName(name))
  }

  /** `isBlank`. */
  predicate IsBlankName(m: MeetingName) {
    IsBlank(m.meetingName)
  }

  /** A meeting name the intended constructor builds is never blank: it holds
      a letter or a digit. */
  lemma IntendedIsNotBlank(name: string)
    requires NewMeetingNameIntended(name).Ok?
    ensures !IsBlankName(NewMeetingNameIntended(name).value)
  {
    assert IsValidMeetingName(name) == Ok(true);
    assert LookaheadIntended(name);
    var k :| 0 <= k < |name| && (IsLetter(name[k]) || IsAsciiDigit(name[k])) && Reachable(name, k);
    LetterOrDigitIsNotWhitespace(name[k]);
    assert !IsBlank(name);
  }

  /** A constructed meeting name is never blank, since the constructor as
      written accepts fewer names than the intended one. */
  lemma ConstructedIsNotBlank(name: string)
    requires NewMeetingName(name).Ok?
    ensures !IsBlankName(NewMeetingName(name).value)
  {
    IntendedIsNotBlank(name);
  }
}
