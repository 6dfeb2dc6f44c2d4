// OtherPhones: a person's further numbers, written like an address list as
// `NUMBER (LABEL) NUMBER (LABEL) ...`, a lone number needing no label. Each
// number is held to a looser single-number grammar than `Phone`, and none may
// equal the person's main phone.
module OtherPhones {
  import opened Errors
  import opened Chars
  import opened Tokenizer
  import opened ValidationUtil
  import Phone

  /** The display name used in the tokenizer's and the walk's messages. */
  const DisplayName: string := "other number"

  /** `mainPhoneExists` hands the tokenizer the lower-cased class name instead. */
  const ClassName: string := "seedu.address.model.person.otherphones"

  datatype OtherPhones = OtherPhones(numbers: string)

  /** `SINGLE_PHONE_REGEX`, `^\s*(?:\+\d{1,3}\s*)?\d{3,}(?:\s*x\d+)?\s*$`, written out
      by its cut points: leading spaces `s[..p]`; either no country code
      (`c == q == p`) or `+`, one to three digits `s[p+1..c]` and spaces `s[c..q]`;
      the main number `s[q..m]` of three digits or more; either no extension
      (`x == e == m`) or spaces `s[m..x]`, `x` and digits `s[x+1..e]`; trailing
      spaces `s[e..]`. */
  predicate SingleCuts(s: string, p: int, c: int, q: int, m: int, x: int, e: int) {
    HeadCuts(s, p, c, q, m) && TailCuts(s, m, x, e)
  }

  /** Up to the end of the main number. */
  predicate HeadCuts(s: string, p: int, c: int, q: int, m: int) {
    && 0 <= p <= c <= q <= m <= |s|
    && SpacesIn(s, 0, p)
    && ((c == p && q == p) || (s[p] == '+' && p + 2 <= c <= p + 4 && DigitsIn(s, p + 1, c) && SpacesIn(s, c, q)))
    && m - q >= 3 && DigitsIn(s, q, m)
  }

  /** After the main number. */
  predicate TailCuts(s: string, m: int, x: int, e: int) {
    && 0 <= m <= x <= e <= |s|
    && ((x == m && e == m) || (SpacesIn(s, m, x) && x < |s| && s[x] == 'x' && x + 2 <= e && DigitsIn(s, x + 1, e)))
    && SpacesIn(s, e, |s|)
  }

  /** Where the main number of a single number ends, or -1 when the text before
      it does not fit. After `+` the digit run is either the country code and the
      main number written together (four digits or more), or a one- to
      three-digit code that spaces separate from the main number. */
  function MainEnd(s: string): int {
    var p := SpaceRun(s, 0);
    if p < |s| && s[p] == '+' then
      var r := DigitRun(s, p + 1);
      if r - p - 1 >= 4 then r
      else if r - p - 1 >= 1 then
        var q := SpaceRun(s, r);
        var m := DigitRun(s, q);
        if m - q >= 3 then m else -1
      else -1
    else
      var m := DigitRun(s, p);
      if m - p >= 3 then m else -1
  }

  /** What may follow the main number: spaces, an optional `x` extension, spaces. */
  predicate TailFits(s: string, m: nat)
    requires m <= |s|
  {
    var w := SpaceRun(s, m);
    || w == |s|
    || (s[w] == 'x' && var e := DigitRun(s, w + 1); e > w + 1 && SpaceRun(s, e) == |s|)
  }

  /** One number matches `SINGLE_PHONE_REGEX`. */
  predicate IsSinglePhone(s: string) {
    var m := MainEnd(s);
    0 <= m <= |s| && TailFits(s, m)
  }

  lemma SingleSound(s: string)
    requires IsSinglePhone(s)
    ensures exists p, c, q, m, x, e :: SingleCuts(s, p, c, q, m, x, e)
  {
    var m := MainEnd(s);
    var p, c, q := HeadSound(s);
    var x, e := TailSound(s, m);
    assert SingleCuts(s, p, c, q, m, x, e);
  }

  lemma HeadSound(s: string) returns (p: int, c: int, q: int)
    requires 0 <= MainEnd(s) <= |s|
    ensures HeadCuts(s, p, c, q, MainEnd(s))
  {
    p := SpaceRun(s, 0);
    if p < |s| && s[p] == '+' {
      var r := DigitRun(s, p + 1);
      if r - p - 1 >= 4 {
        c, q := p + 2, p + 2;
      } else {
        c, q := r, SpaceRun(s, r);
      }
    } else {
      c, q := p, p;
    }
  }

  lemma TailSound(s: string, m: nat) returns (x: int, e: int)
    requires m <= |s| && TailFits(s, m)
    ensures TailCuts(s, m, x, e)
  {
    var w := SpaceRun(s, m);
    if w == |s| {
      x, e := m, m;
    } else {
      x, e := w, DigitRun(s, w + 1);
    }
  }

  /** Given its cut points, the recognizer finds the end of the main number. */
  lemma MainEndAtCut(s: string, p: int, c: int, q: int, m: int)
    requires HeadCuts(s, p, c, q, m) && (m == |s| || !IsAsciiDigit(s[m]))
    ensures MainEnd(s) == m
  {
    SpaceRunEnd(s, 0, p);
    if c != p || q != p {
      CodeEndAtCut(s, p, c, q, m);
    } else {
      DigitRunEnd(s, p, m);
    }
  }

  /** With a country code: one digit run when no space follows the code. */
  lemma CodeEndAtCut(s: string, p: int, c: int, q: int, m: int)
    requires HeadCuts(s, p, c, q, m) && (m == |s| || !IsAsciiDigit(s[m]))
    requires (c != p || q != p) && SpaceRun(s, 0) == p
    ensures MainEnd(s) == m
  {
    if q == c {
      assert DigitsIn(s, p + 1, m);
      DigitRunEnd(s, p + 1, m);
    } else {
      DigitRunEnd(s, p + 1, c);
      SpaceRunEnd(s, c, q);
      DigitRunEnd(s, q, m);
    }
  }

  lemma SingleComplete(s: string, p: int, c: int, q: int, m: int, x: int, e: int)
    requires SingleCuts(s, p, c, q, m, x, e)
    ensures IsSinglePhone(s)
  {
    TailComplete(s, m, x, e);
    MainEndAtCut(s, p, c, q, m);
  }

  /** What follows the main number at its cut points is what the recognizer accepts. */
  lemma TailComplete(s: string, m: int, x: int, e: int)
    requires TailCuts(s, m, x, e)
    ensures m == |s| || !IsAsciiDigit(s[m])
    ensures TailFits(s, m)
  {
    if x == m && e == m {
      SpaceRunEnd(s, m, |s|);
    } else {
      SpaceRunEnd(s, m, x);
      DigitRunEnd(s, x + 1, e);
      SpaceRunEnd(s, e, |s|);
    }
  }

  /** The recognizer accepts exactly what the regex describes. */
  lemma IsSinglePhoneIffCuts(s: string)
    ensures IsSinglePhone(s) <==> exists p, c, q, m, x, e :: SingleCuts(s, p, c, q, m, x, e)
  {
    if IsSinglePhone(s) {
      SingleSound(s);
    }
    if p, c, q, m, x, e :| SingleCuts(s, p, c, q, m, x, e) {
      SingleComplete(s, p, c, q, m, x, e);
    }
  }

  /** A label token, which opens with `(`, never passes for a number. */
  lemma LabelIsNoNumber(s: string)
    requires s != [] && s[0] == '('
    ensures !IsSinglePhone(s)
  {
    SpaceRunEnd(s, 0, 0);
    DigitRunEnd(s, 0, 0);
  }

  /** The looser grammar admits a one-digit country code, which `Phone` refuses. */
  lemma OneDigitCountryCode()
    ensures IsSinglePhone("+1 999")
    ensures !Phone.IsValidPhone("+1 999")
  {
    assert SingleCuts("+1 999", 0, 2, 3, 6, 6, 6);
    SingleComplete("+1 999", 0, 2, 3, 6, 6, 6);
    DigitRunEnd("+1 999", 1, 2);
  }

  /** A token list `isValidPhone` accepts: the label policy of a non-compulsory
      field, and every token, lower-cased, new in its role and matching its
      grammar. */
  predicate AcceptedList(tokens: seq<string>, labelGrammar: string -> bool) {
    SizeAllowed(|tokens|, false) && AllAccepted(tokens, labelGrammar)
  }

  predicate AllAccepted(tokens: seq<string>, labelGrammar: string -> bool) {
    forall k :: 0 <= k < |tokens| ==> Accepted(LowerAll(tokens), k, IsSinglePhone, labelGrammar)
  }

  /** `isPhonesAndLabelsValid`. */
  function IsPhonesAndLabelsValid(phones: seq<string>, labelGrammar: string -> bool): (r: Result<bool>)
    ensures r == Ok(true) <==> AllAccepted(phones, labelGrammar)
  {
    IsParameterAndLabelsValid(phones, IsSinglePhone, labelGrammar, DisplayName)
  }

  /** `OtherPhones.isValidPhone`: blank is valid; anything else must tokenize with
      an optional label for a lone number and pass the walk. */
  function IsValidPhone(phones: string, labelGrammar: string -> bool): (r: Result<bool>)
    ensures Trim(phones) == [] ==> r == Ok(true)
    ensures Trim(phones) != [] && ParseParametersAndLabels(DisplayName, Trim(phones), false).Err? ==>
      r == Err(ParseParametersAndLabels(DisplayName, Trim(phones), false).error)
    ensures Trim(phones) != [] && ParseParametersAndLabels(DisplayName, Trim(phones), false).Ok? ==>
      r == IsPhonesAndLabelsValid(ParseParametersAndLabels(DisplayName, Trim(phones), false).value, labelGrammar)
    ensures Trim(phones) != [] && r == Ok(true) ==>
      exists tokens :: && WellFormed(tokens, true, true) && Join(tokens) == Trim(phones)
                       && AcceptedList(tokens, labelGrammar)
  {
    var trimmedPhones := Trim(phones);
    if trimmedPhones == [] then Ok(true)
    else
      match ParseParametersAndLabels(DisplayName, trimmedPhones, false)
      case Err(e) => Err(e)
      case Ok(paramsAndLabels) =>
        var r := IsPhonesAndLabelsValid(paramsAndLabels, labelGrammar);
        TrimTwice(phones);
        assert r == Ok(true) ==> AcceptedList(paramsAndLabels, labelGrammar);
        r
  }

  /** Conversely, the canonical text of every accepted token list is valid. */
  lemma AcceptedListIsValid(tokens: seq<string>, labelGrammar: string -> bool)
    requires WellFormed(tokens, true, true) && AcceptedList(tokens, labelGrammar)
    requires Trim(Join(tokens)) == Join(tokens)
    ensures IsValidPhone(Join(tokens), labelGrammar) == Ok(true)
  {
    ParseCanonical(DisplayName, tokens, false);
  }

  /** A token stops the search for the main phone: it looks like a number (as
      typed, not lower-cased) and the `Phone` constructor either refuses it or
      gives the main phone. The grammar and the constructor are parameters, so
      that the search is stated once, apart from what they compute. */
  predicate Stops(tokens: seq<string>, k: nat, mainPhone: Phone.Phone,
                  looksLikePhone: string -> bool, newPhone: string -> Result<Phone.Phone>)
    requires k < |tokens|
  {
    looksLikePhone(tokens[k]) && (newPhone(tokens[k]).Err? || newPhone(tokens[k]) == Ok(mainPhone))
  }

  /** What the search answers at the token that stops it: the constructor's
      error, or true. */
  function StopVerdict(tokens: seq<string>, k: nat, newPhone: string -> Result<Phone.Phone>): Result<bool>
    requires k < |tokens|
  {
    if newPhone(tokens[k]).Err? then Err(newPhone(tokens[k]).error) else Ok(true)
  }

  /** The search over the token list from position `k` on, as recursion: false
      when no token stops it, otherwise the verdict of the first that does. */
  function FindMainPhone(tokens: seq<string>, mainPhone: Phone.Phone, looksLikePhone: string -> bool,
                         newPhone: string -> Result<Phone.Phone>, k: nat): (r: Result<bool>)
    requires k <= |tokens|
    ensures r == Ok(false) <==>
      forall j :: k <= j < |tokens| ==> !Stops(tokens, j, mainPhone, looksLikePhone, newPhone)
    ensures r != Ok(false) ==>
      exists j :: && k <= j < |tokens| && Stops(tokens, j, mainPhone, looksLikePhone, newPhone)
                  && (forall i :: k <= i < j ==> !Stops(tokens, i, mainPhone, looksLikePhone, newPhone))
                  && r == StopVerdict(tokens, j, newPhone)
    decreases |tokens| - k
  {
    if k == |tokens| then Ok(false)
    else if !looksLikePhone(tokens[k]) then FindMainPhone(tokens, mainPhone, looksLikePhone, newPhone, k + 1)
    else
      match newPhone(tokens[k])
      case Err(e) =>
        assert Stops(tokens, k, mainPhone, looksLikePhone, newPhone);
        Err(e)
      case Ok(phone) =>
        if mainPhone == phone then
          assert Stops(tokens, k, mainPhone, looksLikePhone, newPhone);
          Ok(true)
        else FindMainPhone(tokens, mainPhone, looksLikePhone, newPhone, k + 1)
  }

  /** `mainPhoneExists`: false for blank input; otherwise the tokenizer's error,
      or the search's answer with the loose grammar and the `Phone` constructor.
      A hit is always a number, never a label. */
  function MainPhoneExists(otherPhones: string, mainPhone: Phone.Phone): (r: Result<bool>)
    ensures Trim(otherPhones) == [] ==> r == Ok(false)
    ensures r == Ok(true) ==>
      exists tokens, k :: && ParseParametersAndLabels(ClassName, otherPhones, false) == Ok(tokens)
                          && 0 <= k < |tokens| && k % 2 == 0
                          && Phone.NewPhone(tokens[k]) == Ok(mainPhone)
    // a non-blank list that the tokenizer refuses is the tokenizer's error
    ensures Trim(otherPhones) != [] && ParseParametersAndLabels(ClassName, otherPhones, false).Err? ==>
      r == Err(ParseParametersAndLabels(ClassName, otherPhones, false).error)
    // otherwise the scan of its tokens decides: false exactly when no token
    // stops the scan, else the verdict of the first token that does
    ensures Trim(otherPhones) != [] && ParseParametersAndLabels(ClassName, otherPhones, false).Ok? ==>
      r == FindMainPhone(ParseParametersAndLabels(ClassName, otherPhones, false).value,
                         mainPhone, IsSinglePhone, Phone.NewPhone, 0)
  {
    var trimmed := Trim(otherPhones);
    if trimmed == [] then Ok(false)
    else
      ParseTrimmed(ClassName, otherPhones, false);
      match ParseParametersAndLabels(ClassName, trimmed, false)
      case Err(e) => Err(e)
      case Ok(paramsAndLabels) =>
        var r := FindMainPhone(paramsAndLabels, mainPhone, IsSinglePhone, Phone.NewPhone, 0);
        SingleRejectsLabels();
        HitIsNumber(paramsAndLabels, mainPhone, IsSinglePhone, Phone.NewPhone, r);
        r
  }

  /** No text that opens with `(`, as every label does, looks like a number. */
  ghost predicate RejectsLabels(looksLikePhone: string -> bool) {
    forall t: string :: t != [] && t[0] == '(' ==> !looksLikePhone(t)
  }

  lemma SingleRejectsLabels()
    ensures RejectsLabels(IsSinglePhone)
  {
    forall t: string | t != [] && t[0] == '(' ensures !IsSinglePhone(t) {
      LabelIsNoNumber(t);
    }
  }

  /** When labels never look like numbers, the search can only stop at a number. */
  lemma HitIsNumber(tokens: seq<string>, mainPhone: Phone.Phone, looksLikePhone: string -> bool,
                    newPhone: string -> Result<Phone.Phone>, r: Result<bool>)
    requires WellFormed(tokens, true, true) && RejectsLabels(looksLikePhone)
    requires r == FindMainPhone(tokens, mainPhone, looksLikePhone, newPhone, 0)
    ensures r == Ok(true) ==>
      exists k :: 0 <= k < |tokens| && k % 2 == 0 && newPhone(tokens[k]) == Ok(mainPhone)
  {
    if r == Ok(true) {
      var k :| && 0 <= k < |tokens| && Stops(tokens, k, mainPhone, looksLikePhone, newPhone)
               && r == StopVerdict(tokens, k, newPhone);
      Alternation(tokens, true, true);
      assert k % 2 == 0;
    }
  }

  /** The loop of `mainPhoneExists`: skip what does not look like a number,
      construct a `Phone` from what does, stop at the first equal to the main
      phone. */
  method SearchMainPhone(otherPhones: string, mainPhone: Phone.Phone) returns (r: Result<bool>)
    ensures r == MainPhoneExists(otherPhones, mainPhone)
  {
    var trimmed := Trim(otherPhones);
    if trimmed == [] {
      return Ok(false);
    }
    ParseTrimmed(ClassName, otherPhones, false);
    var parsed := ParseParametersAndLabels(ClassName, trimmed, false);
    if parsed.Err? {
      return Err(parsed.error);
    }
    r := ScanForMainPhone(parsed.value, mainPhone);
  }

  /** The `for` loop of `mainPhoneExists` over the token list. */
  method ScanForMainPhone(paramsAndLabels: seq<string>, mainPhone: Phone.Phone) returns (r: Result<bool>)
    ensures r == FindMainPhone(paramsAndLabels, mainPhone, IsSinglePhone, Phone.NewPhone, 0)
  {
    for k := 0 to |paramsAndLabels|
      invariant FindMainPhone(paramsAndLabels, mainPhone, IsSinglePhone, Phone.NewPhone, 0)
                == FindMainPhone(paramsAndLabels, mainPhone, IsSinglePhone, Phone.NewPhone, k)
    {
      var currPhone := paramsAndLabels[k];
      if !IsSinglePhone(currPhone) {
        continue;
      }
      var phone := Phone.NewPhone(currPhone);
      if phone.Err? {
        return Err(phone.error);
      }
      if mainPhone == phone.value {
        return Ok(true);
      }
    }
    return Ok(false);
  }

  /** A number the loose grammar lets through but `Phone` refuses aborts the
      search with `Phone`'s error. */
  lemma SearchAbortsOnStrictPhone(mainPhone: Phone.Phone)
    ensures FindMainPhone(["+1 999"], mainPhone, IsSinglePhone, Phone.NewPhone, 0) == Err(IllegalArgument(PhoneConstraints))
  {
    OneDigitCountryCode();
    assert Trim("+1 999") == "+1 999";
  }

  /** The constructor: a non-empty input is trimmed and must be valid; a
      tokenizer or duplicate error is only logged, and the trimmed text is kept. */
  function NewOtherPhones(phones: string, labelGrammar: string -> bool): (r: Result<OtherPhones>)
    ensures phones == [] ==> r == Ok(OtherPhones([]))
    ensures r.Ok? && phones != [] ==> r.value.numbers == Trim(phones)
    ensures r.Err? <==> phones != [] && IsValidPhone(Trim(phones), labelGrammar) == Ok(false)
    ensures r.Err? ==> r.error == IllegalArgument(OtherPhonesConstraints)
  {
    if phones == [] then Ok(OtherPhones(phones))
    else
      var trimmed := Trim(phones);
      match IsValidPhone(trimmed, labelGrammar)
      case Err(_) => Ok(OtherPhones(trimmed))
      case Ok(false) => Err(IllegalArgument(OtherPhonesConstraints))
      case Ok(true) => Ok(OtherPhones(trimmed))
  }
}
