// Name: a person's name, checked by six rules in a fixed order, each failure
// with its own message.
module Name {
  import opened Errors
  import opened Chars

  const MaxNameCharLength: nat := 95

  /** The stored name, kept as given; equality is by that text. */
  datatype Name = Name(fullName: string)

  /** The special characters a name may contain but not start or end with:
      hyphen, apostrophe, right single quotation mark, period, slash. */
  predicate IsEdgeSpecial(c: char) {
    c == '-' || c == '\'' || c == '\U{2019}' || c == '.' || c == '/'
  }

  /** The characters that must not appear twice in a row: the edge specials and
      the space. */
  predicate IsRepeatSpecial(c: char) {
    c == ' ' || IsEdgeSpecial(c)
  }

  /** `VALIDATION_REGEX_AT_LEAST_ONE_ALPHANUMERIC`, `(?=.*(\p{L}|\d)).*`: the whole
      text is free of line terminators and holds a letter or a digit. */
  predicate HasAlphanumeric(s: string) {
    NoLineTerminator(s) && exists k :: 0 <= k < |s| && (IsLetter(s[k]) || IsAsciiDigit(s[k]))
  }

  predicate IsNameChar(c: char) {
    IsLetter(c) || IsMark(c) || IsAsciiDigit(c) || c == ' ' || IsEdgeSpecial(c)
  }

  /** `VALIDATION_REGEX_NAME_CONSTRAINTS`, `^[\p{L}\p{M}0-9 \-'’./]+$`. */
  predicate HasOnlyNameChars(s: string) {
    s != [] && forall k :: 0 <= k < |s| ==> IsNameChar(s[k])
  }

  /** `VALIDATION_REGEX_NO_SPECIAL_CHAR_START` or `..._END`, for a text already
      free of line terminators. */
  predicate StartsOrEndsWithSpecial(s: string) {
    s != [] && (IsEdgeSpecial(s[0]) || IsEdgeSpecial(s[|s| - 1]))
  }

  /** `VALIDATION_REGEX_NO_CONSECUTIVE_SPECIAL_CHAR`, `.*([ \-'’./])\1.*`, for a
      text already free of line terminators. */
  predicate HasDoubledSpecial(s: string) {
    exists k :: 0 <= k < |s| - 1 && IsRepeatSpecial(s[k]) && s[k + 1] == s[k]
  }

  /** `isValidName`: the first rule that fails decides the error; a name that
      passes them all is valid. */
  function IsValidName(test: string): (r: Result<bool>)
    ensures r != Ok(false)
    ensures r == Ok(true) <==>
      && !IsBlank(test) && HasAlphanumeric(test) && HasOnlyNameChars(test)
      && !StartsOrEndsWithSpecial(test) && !HasDoubledSpecial(test)
      && |Trim(test)| <= MaxNameCharLength
    // the rules in order, the first that fails deciding the message
    ensures IsBlank(test) ==> r == Err(ParseError(NameBlank))
    ensures !IsBlank(test) && !HasAlphanumeric(test) ==> r == Err(ParseError(NameNoAlphanumeric))
    ensures !IsBlank(test) && HasAlphanumeric(test) && !HasOnlyNameChars(test) ==>
      r == Err(ParseError(NameConstraints))
    ensures !IsBlank(test) && HasAlphanumeric(test) && HasOnlyNameChars(test) && StartsOrEndsWithSpecial(test) ==>
      r == Err(ParseError(NameInvalidStartEnd))
    ensures && !IsBlank(test) && HasAlphanumeric(test) && HasOnlyNameChars(test)
            && !StartsOrEndsWithSpecial(test) && HasDoubledSpecial(test) ==>
      r == Err(ParseError(NameConsecutiveSpecial))
    ensures && !IsBlank(test) && HasAlphanumeric(test) && HasOnlyNameChars(test)
            && !StartsOrEndsWithSpecial(test) && !HasDoubledSpecial(test) && |Trim(test)| > MaxNameCharLength ==>
      r == Err(ParseError(NameTooLong))
  {
    if IsBlank(test) then Err(ParseError(NameBlank))
    else if !HasAlphanumeric(test) then Err(ParseError(NameNoAlphanumeric))
    else if !HasOnlyNameChars(test) then Err(ParseError(NameConstraints))
    else if StartsOrEndsWithSpecial(test) then Err(ParseError(NameInvalidStartEnd))
    else if HasDoubledSpecial(test) then Err(ParseError(NameConsecutiveSpecial))
    else if |Trim(test)| > MaxNameCharLength then Err(ParseError(NameTooLong))
    else Ok(true)
  }

  /** The constructor: every rule's error becomes an illegal argument with the
      same message; the name is stored as given. */
  function NewName(name: string): (r: Result<Name>)
    ensures r.Ok? <==> IsValidName(name) == Ok(true)
    ensures r.Ok? ==> r.value.fullName == name
    ensures r.Err? ==> IsValidName(name) == Err(ParseError(r.error.reason)) && r.error.IllegalArgument?
  {
    match IsValidName(name)
    case Err(e) => Err(IllegalArgument(e.reason))
    case Ok(false) => Err(IllegalArgument(NameConstraints))
    case Ok(true) => Ok(Name(name))
  }

  /** For a name of plain lower-case letters only the length can fail: up to 95
      letters are accepted, 96 or more are too long. */
  lemma PlainNameLength(s: string)
    requires s != [] && forall k :: 0 <= k < |s| ==> 'a' <= s[k] <= 'z'
    ensures IsValidName(s) == if |s| > MaxNameCharLength then Err(ParseError(NameTooLong)) else Ok(true)
  {
    assert !IsBlank(s) by {
      assert !IsWhitespace(s[0]);
    }
    assert HasAlphanumeric(s) by {
      assert IsLetter(s[0]);
    }
    assert HasOnlyNameChars(s) by {
      forall k | 0 <= k < |s| ensures IsNameChar(s[k]) {
        assert IsLetter(s[k]);
      }
    }
    assert !HasDoubledSpecial(s);
    assert !StartsOrEndsWithSpecial(s);
    assert Trim(s) == s;
  }

  /** A name of digits alone is accepted: the rule asks for a letter or a digit. */
  lemma DigitName()
    ensures IsValidName("1") == Ok(true)
  {
    assert IsAsciiDigit("1"[0]);
  }

  /** The rules are ordered: a lone hyphen has no letter or digit, which is
      reported before its position at the start. */
  lemma LoneHyphen()
    ensures IsValidName("-") == Err(ParseError(NameNoAlphanumeric))
  {
    assert !IsWhitespace("-"[0]) && !IsBlank("-");
    assert !IsLetter("-"[0]) && !IsAsciiDigit("-"[0]);
  }

  /** A leading hyphen. */
  lemma LeadingHyphen()
    ensures IsValidName("-al") == Err(ParseError(NameInvalidStartEnd))
  {
    assert IsLetter("-al"[1]);
  }

  /** Two hyphens in a row. */
  lemma DoubleHyphen()
    ensures IsValidName("a--b") == Err(ParseError(NameConsecutiveSpecial))
  {
    assert IsLetter("a--b"[0]);
    assert IsRepeatSpecial("a--b"[1]) && "a--b"[2] == "a--b"[1];
  }

  /** A character outside the allowed set. */
  lemma ForbiddenCharacter()
    ensures IsValidName("al*") == Err(ParseError(NameConstraints))
  {
    assert IsLetter("al*"[0]);
    assert !IsNameChar("al*"[2]);
  }
}
