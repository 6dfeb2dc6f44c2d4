// Address: one or more addresses, `ADDRESS (LABEL) ADDRESS (LABEL) ...`, a lone
// address needing no label; at most 200 characters once trimmed; addresses and
// labels each unique regardless of case.
module Address {
  import opened Errors
  import opened Chars
  import opened Tokenizer
  import opened ValidationUtil

  const DisplayName: string := "address"
  const FieldMaximumLength: nat := 200

  /** The stored text, kept as given (untrimmed); equality is by that text. */
  datatype Address = Address(value: string)

  /** `ADDRESS_VALIDATION_REGEX`, `[^\s].*`: a first character outside `\s`,
      then anything but a line terminator. */
  predicate IsAddressText(s: string) {
    && s != []
    && !IsRegexSpace(s[0])
    && forall k :: 1 <= k < |s| ==> !IsLineTerminator(s[k])
  }

  /** Every token, lower-cased, is new in its role and matches its grammar. */
  predicate AllAccepted(tokens: seq<string>, labelGrammar: string -> bool) {
    forall k :: 0 <= k < |tokens| ==> Accepted(LowerAll(tokens), k, IsAddressText, labelGrammar)
  }

  /** `isAddressesAndLabelsValid`. */
  function IsAddressesAndLabelsValid(list: seq<string>, labelGrammar: string -> bool): (r: Result<bool>)
    ensures r == Ok(true) <==> AllAccepted(list, labelGrammar)
  {
    IsParameterAndLabelsValid(list, IsAddressText, labelGrammar, DisplayName)
  }

  /** `isValidAddress`: blank is invalid (without an error); over 200 trimmed
      characters is an error before anything is tokenized; then the tokenizer
      with an optional label for a lone address, then the walk. */
  function IsValidAddress(addresses: string, labelGrammar: string -> bool): (r: Result<bool>)
    ensures Trim(addresses) == [] ==> r == Ok(false)
    ensures Trim(addresses) != [] && |Trim(addresses)| > FieldMaximumLength ==>
      r == Err(ParseError(FieldTooLong(DisplayName, FieldMaximumLength)))
    ensures 0 < |Trim(addresses)| <= FieldMaximumLength && ParseParametersAndLabels(DisplayName, Trim(addresses), false).Err? ==>
      r == Err(ParseParametersAndLabels(DisplayName, Trim(addresses), false).error)
    ensures 0 < |Trim(addresses)| <= FieldMaximumLength && ParseParametersAndLabels(DisplayName, Trim(addresses), false).Ok? ==>
      var tokens := ParseParametersAndLabels(DisplayName, Trim(addresses), false).value;
      r == if tokens == [] then Ok(false) else IsAddressesAndLabelsValid(tokens, labelGrammar)
    ensures r == Ok(true) ==>
      && 0 < |Trim(addresses)| <= FieldMaximumLength
      && exists tokens :: && WellFormed(tokens, true, true) && Join(tokens) == Trim(addresses)
                          && SizeAllowed(|tokens|, false) && AllAccepted(tokens, labelGrammar)
  {
    var trimmedAddress := Trim(addresses);
    if trimmedAddress == [] then Ok(false)
    else if |trimmedAddress| > FieldMaximumLength then
      Err(ParseError(FieldTooLong(DisplayName, FieldMaximumLength)))
    else
      TrimTwice(addresses);
      match ParseParametersAndLabels(DisplayName, trimmedAddress, false)
      case Err(e) => Err(e)
      case Ok(paramsAndLabels) =>
        if paramsAndLabels == [] then Ok(false)
        else IsAddressesAndLabelsValid(paramsAndLabels, labelGrammar)
  }

  /** Conversely, the canonical text of an accepted token list of at most 200
      characters is a valid address. */
  lemma AcceptedListIsValid(tokens: seq<string>, labelGrammar: string -> bool)
    requires WellFormed(tokens, true, true) && SizeAllowed(|tokens|, false)
    requires AllAccepted(tokens, labelGrammar)
    requires Trim(Join(tokens)) == Join(tokens) && |Join(tokens)| <= FieldMaximumLength
    ensures IsValidAddress(Join(tokens), labelGrammar) == Ok(true)
  {
    ParseCanonical(DisplayName, tokens, false);
  }

  /** Lower-casing keeps an address an address: it maps `\s` and the line
      terminators to themselves. */
  lemma LowerKeepsAddressText(s: string)
    requires IsAddressText(s)
    ensures IsAddressText(ToLowerCase(s))
  {
    var t := ToLowerCase(s);
    assert !IsRegexSpace(t[0]);
    assert forall k :: 1 <= k < |t| ==> !IsLineTerminator(t[k]) by {
      forall k | 1 <= k < |t| ensures !IsLineTerminator(t[k]) {
        assert t[k] == LowerChar(s[k]);
      }
    }
  }

  /** A lone address with no label and no `(`, already trimmed and within the
      cap, is valid. */
  lemma LoneAddress(address: string, labelGrammar: string -> bool)
    requires IsAddressText(address) && Trim(address) == address
    requires 0 < |address| <= FieldMaximumLength
    requires forall k :: 0 <= k < |address| ==> address[k] != '('
    ensures IsValidAddress(address, labelGrammar) == Ok(true)
  {
    var tokens := [address];
    assert Join(tokens) == address;
    assert WellFormed(tokens, true, true) by {
      assert tokens[1..] == [];
    }
    assert AllAccepted(tokens, labelGrammar) by {
      LowerKeepsAddressText(address);
      assert LowerAll(tokens)[0] == ToLowerCase(address);
      assert Accepted(LowerAll(tokens), 0, IsAddressText, labelGrammar);
    }
    AcceptedListIsValid(tokens, labelGrammar);
  }

  /** `Blk 30` is such an address. */
  lemma BlockThirty(labelGrammar: string -> bool)
    ensures IsValidAddress("Blk 30", labelGrammar) == Ok(true)
  {
    var address := "Blk 30";
    assert IsAddressText(address);
    LoneAddress(address, labelGrammar);
  }

  /** An address repeated right after its first label is the walk's first
      rejection, so the verdict is the duplicate error whatever follows. */
  lemma RepeatAfterFirstLabel(tokens: seq<string>, labelGrammar: string -> bool)
    requires 3 <= |tokens| && tokens[2] == tokens[0]
    requires IsAddressText(tokens[0]) && labelGrammar(ToLowerCase(tokens[1]))
    ensures IsAddressesAndLabelsValid(tokens, labelGrammar) == Err(ParseError(DuplicateParameter(DisplayName)))
  {
    var lower := LowerAll(tokens);
    LowerKeepsAddressText(tokens[0]);
    assert Accepted(lower, 0, IsAddressText, labelGrammar);
    assert Accepted(lower, 1, IsAddressText, labelGrammar);
    assert RepeatsEarlier(lower, 2) by {
      assert lower[0] == lower[2];
    }
    assert !Accepted(lower, 2, IsAddressText, labelGrammar);
    FirstRejectedDecides(tokens, IsAddressText, labelGrammar, DisplayName, 2);
  }

  lemma JoinFour(a: string, b: string, c: string, d: string)
    ensures Join([a, b, c, d]) == a + (" " + (b + (" " + (c + (" " + d)))))
  {
    assert [b, c, d][1..] == [c, d] && [c, d][1..] == [d];
    assert Join([c, d]) == c + (" " + d);
    assert Join([b, c, d]) == b + (" " + Join([c, d]));
    assert [a, b, c, d][1..] == [b, c, d];
  }

  lemma RepeatedAddressPieces()
    ensures "Blk 30" + (" " + ("(Home)" + (" " + ("Blk 30" + (" " + "(Work)")))))
            == "Blk 30 (Home) Blk 30 (Work)"
  {
  }

  lemma RepeatedAddressWellFormed()
    ensures WellFormed(["Blk 30", "(Home)", "Blk 30", "(Work)"], true, true)
  {
    var tokens := ["Blk 30", "(Home)", "Blk 30", "(Work)"];
    assert tokens[1..][1..][1..][1..] == [];
  }

  /** `Blk 30 (Home) Blk 30 (Work)` tokenizes into its two addresses and two labels. */
  lemma RepeatedAddressTokens()
    ensures ParseParametersAndLabels(DisplayName, "Blk 30 (Home) Blk 30 (Work)", false)
            == Ok(["Blk 30", "(Home)", "Blk 30", "(Work)"])
  {
    var text := "Blk 30 (Home) Blk 30 (Work)";
    JoinFour("Blk 30", "(Home)", "Blk 30", "(Work)");
    RepeatedAddressPieces();
    RepeatedAddressWellFormed();
    assert Trim(text) == text by {
      assert text[0] > ' ' && text[|text| - 1] > ' ';
    }
    ParseCanonical(DisplayName, ["Blk 30", "(Home)", "Blk 30", "(Work)"], false);
  }

  /** The walk over those tokens stops at the second `Blk 30`. */
  lemma RepeatedAddressWalk(labelGrammar: string -> bool)
    requires labelGrammar("(home)")
    ensures IsAddressesAndLabelsValid(["Blk 30", "(Home)", "Blk 30", "(Work)"], labelGrammar)
            == Err(ParseError(DuplicateParameter(DisplayName)))
  {
    assert IsAddressText("Blk 30");
    assert ToLowerCase("(Home)") == "(home)";
    RepeatAfterFirstLabel(["Blk 30", "(Home)", "Blk 30", "(Work)"], labelGrammar);
  }

  /** A repeated address is the duplicate error, not false, so the constructor
      only logs it and still builds the address. */
  lemma RepeatedAddress(labelGrammar: string -> bool)
    requires labelGrammar("(home)")
    ensures IsValidAddress("Blk 30 (Home) Blk 30 (Work)", labelGrammar)
            == Err(ParseError(DuplicateParameter(DisplayName)))
    ensures NewAddress("Blk 30 (Home) Blk 30 (Work)", labelGrammar)
            == Ok(Address("Blk 30 (Home) Blk 30 (Work)"))
  {
    var text := "Blk 30 (Home) Blk 30 (Work)";
    assert Trim(text) == text by {
      assert text[0] > ' ' && text[|text| - 1] > ' ';
    }
    RepeatedAddressTokens();
    RepeatedAddressWalk(labelGrammar);
  }

  /** The constructor: an invalid address is refused; a tokenizer, length or
      duplicate error is only logged; the text is stored exactly as given. */
  function NewAddress(address: string, labelGrammar: string -> bool): (r: Result<Address>)
    ensures r.Ok? ==> r.value.value == address
    ensures r.Err? <==> IsValidAddress(address, labelGrammar) == Ok(false)
    ensures r.Err? ==> r.error == IllegalArgument(AddressConstraints)
  {
    match IsValidAddress(address, labelGrammar)
    case Err(_) => Ok(Address(address))
    case Ok(false) => Err(IllegalArgument(AddressConstraints))
    case Ok(true) => Ok(Address(address))
  }
}
