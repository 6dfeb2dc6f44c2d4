// Phone: a person's main phone number, `VALIDATION_REGEX` hand-coded as a
// recognizer, and the constructor that trims before it validates.
module Phone {
  import opened Errors
  import opened Chars

  /** The stored, validated number; equality is by value. */
  datatype Phone = Phone(value: string)

  /** `^(?:\+\d{2,} )?\d{3,}(?: x\d+)?$` written out by its cut points: the main
      number is `s[a..b]`; before it either nothing (`a == 0`) or `+`, at least
      two digits and one space; after it either nothing or ` x` and at least one
      digit. */
  predicate PhoneCuts(s: string, a: int, b: int) {
    && 0 <= a <= b <= |s|
    && (a == 0 || (a >= 4 && s[0] == '+' && DigitsIn(s, 1, a - 1) && s[a - 1] == ' '))
    && b - a >= 3 && DigitsIn(s, a, b)
    && (b == |s| || (b + 3 <= |s| && s[b] == ' ' && s[b + 1] == 'x' && DigitsIn(s, b + 2, |s|)))
  }

  /** Where the main number starts: after the country code when `s` opens with
      `+`, at 0 otherwise; -1 when the country code is malformed. */
  function MainStart(s: string): (a: int)
    ensures a <= |s|
  {
    if 0 < |s| && s[0] == '+' then
      var c := DigitRun(s, 1);
      if c >= 3 && c < |s| && s[c] == ' ' then c + 1 else -1
    else 0
  }

  /** `Phone.isValidPhone`: the whole string matches `VALIDATION_REGEX`. */
  predicate IsValidPhone(s: string) {
    var a := MainStart(s);
    && 0 <= a
    && var b := DigitRun(s, a);
       && b - a >= 3
       && (b == |s| || (b + 3 <= |s| && s[b] == ' ' && s[b + 1] == 'x' && DigitRun(s, b + 2) == |s|))
  }

  /** The recognizer accepts exactly the strings the regex describes. */
  lemma IsValidPhoneIffCuts(s: string)
    ensures IsValidPhone(s) <==> exists a, b :: PhoneCuts(s, a, b)
  {
    if IsValidPhone(s) {
      var a := MainStart(s);
      assert PhoneCuts(s, a, DigitRun(s, a));
    }
    if a, b :| PhoneCuts(s, a, b) {
      CutsAreValid(s, a, b);
    }
  }

  /** Cut points that fit the regex are the ones the recognizer finds. */
  lemma CutsAreValid(s: string, a: int, b: int)
    requires PhoneCuts(s, a, b)
    ensures MainStart(s) == a && DigitRun(s, a) == b
    ensures IsValidPhone(s)
  {
    if a == 0 {
      assert IsAsciiDigit(s[0]);
    } else {
      DigitRunEnd(s, 1, a - 1);
    }
    DigitRunEnd(s, a, b);
    if b < |s| {
      DigitRunEnd(s, b + 2, |s|);
    }
  }

  /** A valid number opens with `+` or a digit and closes with a digit, so it
      has no surrounding whitespace and is at least three characters long. */
  lemma ValidPhoneShape(s: string)
    requires IsValidPhone(s)
    ensures |s| >= 3
    ensures s[0] == '+' || IsAsciiDigit(s[0])
    ensures IsAsciiDigit(s[|s| - 1])
    ensures Trim(s) == s
  {
    var a := MainStart(s);
    var b := DigitRun(s, a);
    assert IsAsciiDigit(s[b - 1]);
    if b < |s| {
      assert IsAsciiDigit(s[|s| - 1]);
    }
  }

  /** The constructor: trims, then rejects what `isValidPhone` rejects. */
  function NewPhone(phone: string): (r: Result<Phone>)
    ensures r.Ok? ==> IsValidPhone(r.value.value) && r.value.value == Trim(phone)
    ensures r.Err? ==> r.error == IllegalArgument(PhoneConstraints) && !IsValidPhone(Trim(phone))
  {
    var input := Trim(phone);
    if IsValidPhone(input) then Ok(Phone(input)) else Err(IllegalArgument(PhoneConstraints))
  }

  /** Constructing again from a stored value gives back the same phone: what the
      constructor stores is already trimmed and valid. */
  lemma NewPhoneFromStored(phone: string)
    requires NewPhone(phone).Ok?
    ensures NewPhone(NewPhone(phone).value.value) == NewPhone(phone)
  {
    ValidPhoneShape(Trim(phone));
  }

  /** Three digits make the shortest phone. */
  lemma ShortestPhone()
    ensures IsValidPhone("999")
    ensures !IsValidPhone("99")
  {
    IsValidPhoneIffCuts("999");
    assert PhoneCuts("999", 0, 3);
    if IsValidPhone("99") {
      ValidPhoneShape("99");
    }
  }

  /** A country code, a main number and an extension, each in its place. */
  lemma FullPhone()
    ensures IsValidPhone("+65 91234567 x12")
  {
    var s := "+65 91234567 x12";
    assert DigitsIn(s, 1, 3) && DigitsIn(s, 4, 12) && DigitsIn(s, 14, |s|);
    assert PhoneCuts(s, 4, 12);
    IsValidPhoneIffCuts(s);
  }

  /** A one-digit country code is refused. */
  lemma ShortCountryCode()
    ensures !IsValidPhone("+6 91234567")
  {
    DigitRunEnd("+6 91234567", 1, 2);
  }

  /** The extension must be set off by a space. */
  lemma ExtensionNeedsSpace()
    ensures !IsValidPhone("91234567x12")
  {
    DigitRunEnd("91234567x12", 0, 8);
  }
}
