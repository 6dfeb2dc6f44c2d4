// Errors raised by the field-validation layer.
//
// The Java code signals failure by throwing: a `ParseException` for input the
// user must correct, an `IllegalArgumentException` from a value class's
// constructor (through `checkArgument`). Both become an `Err` here; the reason
// names the message constant the code would have used, and carries the field's
// display name where the message is formatted with one.
module Errors {

  datatype Reason =
    // tokenizer: spacing around the bracket of a label
    | FirstLabelAtStart(field: string)
    | ParameterMissing(field: string)
    | MissingSpaceBeforeLabel(field: string)
    | ExtraSpaceBeforeLabel(field: string)
    | LastLabelMissingSpace(field: string)
    | MissingSpaceAfterLabel(field: string)
    | ExtraSpaceAfterLabel(field: string)
    // tokenizer: number of tokens
    | EmptyField(field: string)
    | LabelRequired(field: string)
    // duplicate/grammar walk
    | DuplicateParameter(field: string)
    | DuplicateLabel(field: string)
    // the 200-character cap of multi-valued fields
    | FieldTooLong(field: string, limit: nat)
    // field constraints
    | AddressConstraints
    | EmailConstraints
    | OtherPhonesConstraints
    | MainPhoneDuplicated
    | PhoneConstraints
    | NameBlank
    | NameNoAlphanumeric
    | NameConstraints
    | NameInvalidStartEnd
    | NameConsecutiveSpecial
    | NameTooLong
    | MeetingNameTooLong
    | MeetingNameConstraints
    | VenueTooLong
    | VenueConstraints
    // date and time
    | DateTimeValueInvalid
    | DateTimeYearInvalid
    | DateTimeFormatInvalid

  datatype Error =
    | ParseError(reason: Reason)
    | IllegalArgument(reason: Reason)

  datatype Result<T> = Ok(value: T) | Err(error: Error)

  /** A check that either passes or fails with an error. */
  datatype Outcome = Pass | Fail(error: Error)
}
