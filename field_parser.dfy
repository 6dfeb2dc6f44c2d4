// The entry points of `ParserUtil` for the multi-valued fields: the
// 200-character cap of `parseAddress` and `parseEmail`, and `parseOtherPhones`
// with its check against the main phone.
module FieldParser {
  import opened Errors
  import opened Chars
  import Address
  import Phone
  import OtherPhones

  const FieldMaximumLength: nat := 200

  /** The email value object; its own checks are not part of this model. */
  datatype Email = Email(value: string)

  /** `parseAddress`: trim; over 200 characters is refused before any grammar;
      an invalid address is refused; the trimmed text is stored. */
  function ParseAddress(address: string, labelGrammar: string -> bool): (r: Result<Address.Address>)
    ensures |Trim(address)| > FieldMaximumLength ==>
      r == Err(ParseError(FieldTooLong(Address.DisplayName, FieldMaximumLength)))
    ensures Trim(address) == [] ==> r == Err(ParseError(AddressConstraints))
    ensures r.Ok? ==> r.value == Address.Address(Trim(address))
                      && Address.IsValidAddress(Trim(address), labelGrammar) == Ok(true)
    // within the cap, the address check decides: accepted, refused, or its error
    ensures |Trim(address)| <= FieldMaximumLength && Address.IsValidAddress(Trim(address), labelGrammar) == Ok(true) ==>
      r == Ok(Address.Address(Trim(address)))
    ensures |Trim(address)| <= FieldMaximumLength && Address.IsValidAddress(Trim(address), labelGrammar) == Ok(false) ==>
      r == Err(ParseError(AddressConstraints))
    ensures |Trim(address)| <= FieldMaximumLength && Address.IsValidAddress(Trim(address), labelGrammar).Err? ==>
      r == Err(Address.IsValidAddress(Trim(address), labelGrammar).error)
  {
    var trimmedAddress := Trim(address);
    if |trimmedAddress| > FieldMaximumLength then
      Err(ParseError(FieldTooLong(Address.DisplayName, FieldMaximumLength)))
    else
      match Address.IsValidAddress(trimmedAddress, labelGrammar)
      case Err(e) => Err(e)
      case Ok(false) => Err(ParseError(AddressConstraints))
      case Ok(true) => Address.NewAddress(trimmedAddress, labelGrammar)
  }

  /** `parseEmail`: trim; over 200 characters is refused before the email
      grammar, which is a parameter here, as is the field's display name. */
  function ParseEmail(email: string, emailGrammar: string -> bool, displayName: string): (r: Result<Email>)
    ensures |Trim(email)| > FieldMaximumLength ==>
      r == Err(ParseError(FieldTooLong(displayName, FieldMaximumLength)))
    ensures r.Ok? <==> |Trim(email)| <= FieldMaximumLength && emailGrammar(Trim(email))
    ensures r.Ok? ==> r.value == Email(Trim(email))
    ensures r.Err? && |Trim(email)| <= FieldMaximumLength ==> r.error == ParseError(EmailConstraints)
  {
    var trimmedEmail := Trim(email);
    if |trimmedEmail| > FieldMaximumLength then
      Err(ParseError(FieldTooLong(displayName, FieldMaximumLength)))
    else if !emailGrammar(trimmedEmail) then Err(ParseError(EmailConstraints))
    else Ok(Email(trimmedEmail))
  }

  /** `parseOtherPhones`: unless the input is empty it must be valid; no number
      in it may equal the main phone; the constructor then trims it. */
  function ParseOtherPhones(otherPhones: string, mainPhone: Phone.Phone, labelGrammar: string -> bool)
    : (r: Result<OtherPhones.OtherPhones>)
    ensures otherPhones != [] && OtherPhones.IsValidPhone(otherPhones, labelGrammar) == Ok(false) ==>
      r == Err(ParseError(OtherPhonesConstraints))
    ensures r.Ok? ==>
      && (otherPhones == [] || OtherPhones.IsValidPhone(otherPhones, labelGrammar) == Ok(true))
      && OtherPhones.MainPhoneExists(otherPhones, mainPhone) == Ok(false)
      && r.value.numbers == Trim(otherPhones)
    ensures otherPhones != [] && OtherPhones.IsValidPhone(otherPhones, labelGrammar).Err? ==>
      r == Err(OtherPhones.IsValidPhone(otherPhones, labelGrammar).error)
    // once the text is valid, the search for the main phone decides
    ensures (otherPhones == [] || OtherPhones.IsValidPhone(otherPhones, labelGrammar) == Ok(true)) &&
            OtherPhones.MainPhoneExists(otherPhones, mainPhone) == Ok(true) ==>
      r == Err(ParseError(MainPhoneDuplicated))
    ensures (otherPhones == [] || OtherPhones.IsValidPhone(otherPhones, labelGrammar) == Ok(true)) &&
            OtherPhones.MainPhoneExists(otherPhones, mainPhone) == Ok(false) ==>
      r.Ok?
    ensures (otherPhones == [] || OtherPhones.IsValidPhone(otherPhones, labelGrammar) == Ok(true)) &&
            OtherPhones.MainPhoneExists(otherPhones, mainPhone).Err? ==>
      r == Err(OtherPhones.MainPhoneExists(otherPhones, mainPhone).error)
  {
    var valid := if otherPhones == [] then Ok(true) else OtherPhones.IsValidPhone(otherPhones, labelGrammar);
    match valid
    case Err(e) => Err(e)
    case Ok(false) => Err(ParseError(OtherPhonesConstraints))
    case Ok(true) =>
      match OtherPhones.MainPhoneExists(otherPhones, mainPhone)
      case Err(e) => Err(e)
      case Ok(true) => Err(ParseError(MainPhoneDuplicated))
      case Ok(false) =>
        OtherPhonesStable(otherPhones, labelGrammar);
        OtherPhones.NewOtherPhones(otherPhones, labelGrammar)
  }

  /** Validity does not depend on surrounding whitespace, so what
      `parseOtherPhones` accepted the constructor accepts again after trimming. */
  lemma OtherPhonesStable(otherPhones: string, labelGrammar: string -> bool)
    ensures OtherPhones.IsValidPhone(Trim(otherPhones), labelGrammar)
            == OtherPhones.IsValidPhone(otherPhones, labelGrammar)
  {
    TrimTwice(otherPhones);
  }

  /** The empty input is accepted and kept as it is. */
  lemma EmptyOtherPhones(mainPhone: Phone.Phone, labelGrammar: string -> bool)
    ensures ParseOtherPhones("", mainPhone, labelGrammar) == Ok(OtherPhones.OtherPhones(""))
  {
  }
}
