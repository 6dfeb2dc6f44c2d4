# Field validation of a contact-management application

This project models the field-validation layer of a desktop contact book,
whose persons carry phones, further phone numbers, addresses, names and
e-mails, and whose meetings carry a name, a venue and a date-time. It proves
properties of that model. The model covers:

- **The parameter/label tokenizer** (`ParserUtil.parseParametersAndLabels`).
  It cuts a multi-valued field such as `Blk 30 Geylang St (Home) Blk 11 AMK (Work)`
  into alternating parameters and bracketed labels. It checks the single space
  around every label, then checks the number of tokens against the field's
  label policy.
  - The scan loop is a `method` proved equal to a recursive specification.
  - On success, joining the tokens with single spaces gives the trimmed text
    back, and the tokens alternate parameter, label, parameter.
  - Conversely, every well-formed token list is what the tokenizer yields
    from its joined text.
- **The duplicate/grammar walk** (`ValidationUtil.isParameterAndLabelsValid`).
  It is a loop with two seen-sets, proved equal to a recursive walk. The walk
  accepts exactly the lists with no repeated parameter or label (ignoring
  case) and every token in its grammar. Otherwise the first failing token
  decides the result: a repeat throws, a grammar failure returns false.
- **The validators built on the two above**: `Address` (200-character cap,
  lone address needs no label) and `OtherPhones`. `OtherPhones` has a looser
  per-number grammar and a linear search for the person's main phone, which
  is a `method` proved equal to a recursive search. The `ParserUtil` entry
  points `parseAddress`, `parseEmail` and `parseOtherPhones` are modelled too.
- **Single-value grammars**:
  - `Phone`, a hand-coded recognizer proved equivalent to a cut-point reading
    of its regular expression;
  - `Name`, six ordered rules;
  - `MeetingName` and `Venue`, a 95-character cap and then a character
    grammar.
- **The date-time parser** (`DateTimeParser.parseDateTime`). It tries eight
  fixed patterns in order under strict resolution. Its partner is a printer
  for the same patterns. Any date-time printed in an allowed shape is read
  back and judged as it is: itself, the invalid-value error, or the year
  error. The patterns' digit masks are pairwise distinct, so at most one
  pattern reads any text.

Failure by exception is modelled as an `Err` value of `Errors.Result`:
- a `ParseError` for a `ParseException`;
- an `IllegalArgument` for the `IllegalArgumentException` of a constructor.

The reason names the message constant the code uses.

## Model

| member | source | states |
|---|---|---|
| Chars.TrimStart | src/main/java/seedu/address/logic/parser/ParserUtil.java:120 | the result is a suffix of the input, every dropped character is at most U+0020, and the result is empty or opens above U+0020 |
| Chars.TrimEnd | src/main/java/seedu/address/logic/parser/ParserUtil.java:120 | the result is a prefix of the input, every dropped character is at most U+0020, and the result is empty or ends above U+0020 |
| Chars.Trim | src/main/java/seedu/address/logic/parser/ParserUtil.java:120 | `String.trim` as used on the address here, the email at line 144 and the parameter text at line 171: no longer than the input, empty exactly when every character is at most U+0020, otherwise opening and ending above U+0020, and the identity on text already trimmed |
| Chars.TrimTwice | src/main/java/seedu/address/logic/parser/ParserUtil.java:120 | trimming is idempotent |
| Chars.ToLowerCase | src/main/java/seedu/address/model/util/ValidationUtil.java:35 | same length as the input, each character lower-cased on its own |
| Chars.DigitRun | src/main/java/seedu/address/model/person/OtherPhones.java:26 | the end of the longest run of `\d` from a position: all digits up to it, and no digit at it |
| Chars.SpaceRun | src/main/java/seedu/address/model/person/OtherPhones.java:26 | the end of the longest run of `\s` from a position: all spaces up to it, and no space at it |
| Chars.DigitRunEnd | src/main/java/seedu/address/model/person/OtherPhones.java:26 | any end of a digit run that cannot be extended is the one `DigitRun` finds |
| Chars.SpaceRunEnd | src/main/java/seedu/address/model/person/OtherPhones.java:26 | any end of a space run that cannot be extended is the one `SpaceRun` finds |
| Tokenizer.IndexOf | src/main/java/seedu/address/logic/parser/ParserUtil.java:235-243 | `indexOf(c, from)`: -1 or an index at or after `from` holding `c`, with no earlier `c` from `from` on |
| Tokenizer.CheckForParameterSpacingIssue | src/main/java/seedu/address/logic/parser/ParserUtil.java:264-300 | no `(` passes; otherwise the guards in order, the first failing one naming the error: a `(` before index 2 is a label at the start, a `(` at the parameter start a missing parameter, then a missing space, then an extra space before it; a `(` passes exactly when the guards all hold, that is, with a non-empty parameter and exactly one space before it |
| Tokenizer.CheckForLabelSpacingIssue | src/main/java/seedu/address/logic/parser/ParserUtil.java:308-342 | no `)`, or a `)` at the end, passes; otherwise the guards in order: a `)` one before the end is a last label missing its space, then a missing space, then an extra space after it; a `)` not at the end passes exactly when exactly one space, then a non-space, follows it |
| Tokenizer.GetEndIndexOfParameterOrLabel | src/main/java/seedu/address/logic/parser/ParserUtil.java:228-254 | the end index it returns lies between the current index and the text length |
| Tokenizer.Extract | src/main/java/seedu/address/logic/parser/ParserUtil.java:192-214 | the scan read recursively: from index `i` it cuts one parameter or label at the end index, steps past the separating space and switches role; the first refused bound is its error |
| Tokenizer.ExtractStops | src/main/java/seedu/address/logic/parser/ParserUtil.java:199-200 | the scan stops with the error of the first token whose bound is refused |
| Tokenizer.ExtractPassesOn | src/main/java/seedu/address/logic/parser/ParserUtil.java:199-210 | an error later in the scan is passed back unchanged |
| Tokenizer.ScanErrorIsParseError | src/main/java/seedu/address/logic/parser/ParserUtil.java:169-173 | a scan error is the tokenizer's error, reported before the list size is checked |
| Tokenizer.FirstTokenError | src/main/java/seedu/address/logic/parser/ParserUtil.java:169-173 | a spacing error on the first parameter is the tokenizer's error |
| Tokenizer.ScanStopsAtFirstLabel | src/main/java/seedu/address/logic/parser/ParserUtil.java:199-210 | a refused label right after an accepted first parameter ends the scan with that label's error |
| Tokenizer.FirstLabelError | src/main/java/seedu/address/logic/parser/ParserUtil.java:169-173 | a spacing error on the label after the first parameter is the tokenizer's error |
| Tokenizer.TwoSpacesBeforeLabel | src/main/java/seedu/address/logic/parser/ParserUtil.java:295-298 | the end-index search refuses the first parameter of `Blk 30  (Home)` because two spaces precede the bracket |
| Tokenizer.ExtraSpaceBeforeLabelExample | src/main/java/seedu/address/logic/parser/ParserUtil.java:295-298 | `Blk 30  (Home)` is refused with the extra-space-before-label error |
| Tokenizer.StreetBeforeLabel | src/main/java/seedu/address/logic/parser/ParserUtil.java:286-298 | the end-index search accepts the first parameter of `Blk 30 (Home)  Blk 31` and ends it before the single space |
| Tokenizer.LabelBeforeStreet | src/main/java/seedu/address/logic/parser/ParserUtil.java:334-340 | the end-index search refuses the label `(Home)` of `Blk 30 (Home)  Blk 31` because two spaces follow its bracket |
| Tokenizer.ExtraSpaceAfterLabelExample | src/main/java/seedu/address/logic/parser/ParserUtil.java:337-340 | `Blk 30 (Home)  Blk 31` is refused with the extra-space-after-label error |
| Tokenizer.PrefixedStep | src/main/java/seedu/address/logic/parser/ParserUtil.java:205-210 | cutting one token moves it from the rest of the scan to the end of the list |
| Tokenizer.ExtractParametersAndLabels | src/main/java/seedu/address/logic/parser/ParserUtil.java:192-214 | the `while` loop computes the recursive scan from index 0; on success the tokens joined by single spaces are the text and alternate parameter/label |
| Tokenizer.ExtractSound | src/main/java/seedu/address/logic/parser/ParserUtil.java:192-214 | a successful scan from any index yields well-formed tokens whose join is the rest of the text, and no tokens past the end |
| Tokenizer.ExtractSoundParameter | src/main/java/seedu/address/logic/parser/ParserUtil.java:232-239 | the same for a scan that starts with a parameter |
| Tokenizer.ExtractSoundLabel | src/main/java/seedu/address/logic/parser/ParserUtil.java:240-248 | the same for a scan that starts with a label |
| Tokenizer.ParameterCut | src/main/java/seedu/address/logic/parser/ParserUtil.java:232-239 | a cut parameter is non-empty and free of `(`; it ends at the single space before the next `(`, or at the end of the text |
| Tokenizer.LabelCut | src/main/java/seedu/address/logic/parser/ParserUtil.java:240-248 | a cut label starts with `(` and runs through the first `)`, which one space and a non-space follow, or runs to the end of the text |
| Tokenizer.ExtractFromStart | src/main/java/seedu/address/logic/parser/ParserUtil.java:192-214 | a successful scan of a whole text gives it back when joined; the token list is empty exactly when the text is |
| Tokenizer.ExtractComplete | src/main/java/seedu/address/logic/parser/ParserUtil.java:192-214 | conversely, every non-empty well-formed token list is exactly what the scan of its joined text yields |
| Tokenizer.Alternation | src/main/java/seedu/address/logic/parser/ParserUtil.java:194-210 | in a well-formed list, a token opens with `(` exactly at the positions whose parity makes it a label |
| Tokenizer.CheckForIncorrectListSize | src/main/java/seedu/address/logic/parser/ParserUtil.java:351-373 | passes exactly for a non-empty list of even size, or of size 1 when labels are optional; the empty list gets the "cannot be empty" error, any other refusal the "label required" error |
| Tokenizer.ParseParametersAndLabels | src/main/java/seedu/address/logic/parser/ParserUtil.java:169-182 | blank text is the "cannot be empty" error; a list extracted from the trimmed text whose size is not allowed gives the "label required" error; an accepted list is well formed, of an allowed size, and joins back to the trimmed text |
| Tokenizer.ScanTrimmed | src/main/java/seedu/address/logic/parser/ParserUtil.java:172-173 | the same for the scan and size check applied to already-trimmed text |
| Tokenizer.ParseTrimmed | src/main/java/seedu/address/logic/parser/ParserUtil.java:171 | trimming before the call changes nothing |
| Tokenizer.ParseCanonical | src/main/java/seedu/address/logic/parser/ParserUtil.java:169-182 | parsing the canonical text of an accepted token list gives that list back (round trip) |
| ValidationUtil.LowerAll | src/main/java/seedu/address/model/util/ValidationUtil.java:33-35 | every token is lower-cased in place, with the length kept |
| ValidationUtil.Walk | src/main/java/seedu/address/model/util/ValidationUtil.java:33-72 | from token `k` on: true exactly when every later token is accepted; otherwise the verdict of the first rejected token |
| ValidationUtil.WalkAccepts | src/main/java/seedu/address/model/util/ValidationUtil.java:61-71 | an accepted token joins the seen-set of its role only, and the walk continues from the next token |
| ValidationUtil.SeenIffRepeats | src/main/java/seedu/address/model/util/ValidationUtil.java:38-50 | a token is in the seen-set of its role exactly when it repeats an earlier token of the same parity |
| ValidationUtil.IsParameterAndLabelsValid | src/main/java/seedu/address/model/util/ValidationUtil.java:23-75 | true iff every lower-cased token is new in its role and matches its grammar; otherwise the first token that fails decides: a repeat gives the duplicate error of its role, a grammar failure gives false |
| ValidationUtil.ValidateParametersAndLabels | src/main/java/seedu/address/model/util/ValidationUtil.java:23-75 | the `for` loop with its toggle and two sets computes exactly that function |
| ValidationUtil.RepeatIsNeverValid | src/main/java/seedu/address/model/util/ValidationUtil.java:37-50 | two tokens of the same role that differ only in case are never accepted together |
| ValidationUtil.RepeatInGrammarIsDuplicate | src/main/java/seedu/address/model/util/ValidationUtil.java:37-59 | when every token matches its grammar, a repeat is reported as a duplicate error, never as false, because the duplicate check comes first |
| ValidationUtil.FirstRejectedUnique | src/main/java/seedu/address/model/util/ValidationUtil.java:32-66 | at most one token is the first the walk does not accept |
| ValidationUtil.FirstRejectedDecides | src/main/java/seedu/address/model/util/ValidationUtil.java:32-66 | the verdict is that of the first rejected token: the duplicate error of its role if it repeats, else false |
| ValidationUtil.SameTextInBothRoles | src/main/java/seedu/address/model/util/ValidationUtil.java:28-29 | parameters and labels have separate sets: a label equal to its parameter is no duplicate |
| Phone.IsValidPhone | src/main/java/seedu/address/model/person/Phone.java:39-41 | the recognizer for `Phone`'s regex: an optional `+`, two or more digits and one space, then at least three digits, then an optional extension of one space, `x` and digits; the next two rows state that this is the regex |
| Phone.IsValidPhoneIffCuts | src/main/java/seedu/address/model/person/Phone.java:20 | the recognizer accepts exactly the strings with cut points fitting `(+DD… )?DDD…( xD…)?` |
| Phone.CutsAreValid | src/main/java/seedu/address/model/person/Phone.java:20 | cut points that fit the regex are the ones the recognizer finds |
| Phone.ValidPhoneShape | src/main/java/seedu/address/model/person/Phone.java:20 | a valid phone has at least 3 characters, opens with `+` or a digit, ends with a digit, and is unchanged by trimming |
| Phone.NewPhone | src/main/java/seedu/address/model/person/Phone.java:29-34 | the constructor stores the trimmed input when it is valid, and otherwise refuses it with the constraints message |
| Phone.NewPhoneFromStored | src/main/java/seedu/address/model/person/Phone.java:29-34 | constructing again from a stored value gives the same phone |
| Phone.ShortestPhone | src/main/java/seedu/address/model/person/Phone.java:18-20 | `999` is valid and `99` is not |
| Phone.FullPhone | src/main/java/seedu/address/model/person/Phone.java:16-20 | a country code, main number and extension together are valid |
| Phone.ShortCountryCode | src/main/java/seedu/address/model/person/Phone.java:16 | a one-digit country code is refused |
| Phone.ExtensionNeedsSpace | src/main/java/seedu/address/model/person/Phone.java:19-20 | an extension without a space before the `x` is refused |
| OtherPhones.IsSinglePhone | src/main/java/seedu/address/model/person/OtherPhones.java:25-26 | the recognizer for the single-number regex: optional whitespace, an optional `+` with one to three digits and optional whitespace, at least three digits, an optional extension of optional whitespace, `x` and digits, optional whitespace; the next three rows state that this is the regex |
| OtherPhones.SingleSound | src/main/java/seedu/address/model/person/OtherPhones.java:25-26 | what the single-number recognizer accepts has cut points fitting `SINGLE_PHONE_REGEX` |
| OtherPhones.SingleComplete | src/main/java/seedu/address/model/person/OtherPhones.java:25-26 | every string with such cut points is accepted |
| OtherPhones.IsSinglePhoneIffCuts | src/main/java/seedu/address/model/person/OtherPhones.java:25-26 | the recognizer accepts exactly the strings the regex describes |
| OtherPhones.LabelIsNoNumber | src/main/java/seedu/address/model/person/OtherPhones.java:25-26 | no text opening with `(`, as every label does, matches the number grammar |
| OtherPhones.OneDigitCountryCode | src/main/java/seedu/address/model/person/OtherPhones.java:25-26 | `+1 999` fits the loose grammar but not `Phone`'s |
| OtherPhones.IsPhonesAndLabelsValid | src/main/java/seedu/address/model/person/OtherPhones.java:89-91 | true iff every lower-cased token is new in its role and matches the number or label grammar |
| OtherPhones.IsValidPhone | src/main/java/seedu/address/model/person/OtherPhones.java:58-72 | blank input is valid; non-blank input the tokenizer refuses gives exactly the tokenizer's error; otherwise the result is the walk's verdict on the tokens: true, a duplicate error, or false; valid non-blank input is the join of a well-formed token list of an allowed size with every token accepted |
| OtherPhones.AcceptedListIsValid | src/main/java/seedu/address/model/person/OtherPhones.java:58-72 | conversely, the canonical text of such a token list is valid |
| OtherPhones.FindMainPhone | src/main/java/seedu/address/model/person/OtherPhones.java:109-117 | false exactly when no token stops the search; otherwise the verdict of the first token that looks like a number and is refused by `Phone` or equals the main phone |
| OtherPhones.MainPhoneExists | src/main/java/seedu/address/model/person/OtherPhones.java:99-118 | blank input gives false; a non-blank input the tokenizer refuses gives the tokenizer's error; otherwise the search over its tokens decides: false exactly when no token stops it, else the first stopping token's verdict; true only when a number token (never a label) constructs the main phone |
| OtherPhones.SingleRejectsLabels | src/main/java/seedu/address/model/person/OtherPhones.java:109-112 | the loose grammar skips every label |
| OtherPhones.HitIsNumber | src/main/java/seedu/address/model/person/OtherPhones.java:109-116 | when labels never look like numbers, a hit is at an even (parameter) position and constructs the main phone |
| OtherPhones.SearchMainPhone | src/main/java/seedu/address/model/person/OtherPhones.java:99-118 | the method computes `mainPhoneExists` exactly |
| OtherPhones.ScanForMainPhone | src/main/java/seedu/address/model/person/OtherPhones.java:109-117 | the `for` loop with `continue` and early returns computes the recursive search |
| OtherPhones.SearchAbortsOnStrictPhone | src/main/java/seedu/address/model/person/OtherPhones.java:110-113 | a number that the loose grammar lets through but `Phone` refuses aborts the search with `Phone`'s error |
| OtherPhones.NewOtherPhones | src/main/java/seedu/address/model/person/OtherPhones.java:38-50 | empty input is kept as it is; other input is stored trimmed; only a plain refusal (false) is an illegal argument, while a tokenizer or duplicate error is swallowed |
| Address.IsAddressesAndLabelsValid | src/main/java/seedu/address/model/person/Address.java:106-108 | true iff every lower-cased token is new in its role and matches the address or label grammar |
| Address.IsValidAddress | src/main/java/seedu/address/model/person/Address.java:61-89 | blank input is false without error; over 200 trimmed characters is the length error; within the cap, a text the tokenizer refuses gives exactly the tokenizer's error, an empty token list is false, and any other list gets the walk's verdict: true, a duplicate error, or false; true only for at most 200 characters that join a well-formed, accepted token list of an allowed size |
| Address.AcceptedListIsValid | src/main/java/seedu/address/model/person/Address.java:61-89 | conversely, the canonical text of such a list, within 200 characters, is valid |
| Address.IsAddressText | src/main/java/seedu/address/model/person/Address.java:33 | `[^\s].*`: a first character that is no regex space, then no line terminator |
| Address.LowerKeepsAddressText | src/main/java/seedu/address/model/person/Address.java:33 | lower-casing keeps a text in `[^\s].*` |
| Address.LoneAddress | src/main/java/seedu/address/model/person/Address.java:81-88 | a trimmed single address without `(`, within the cap and matching the grammar, is valid with no label |
| Address.BlockThirty | src/main/java/seedu/address/model/person/Address.java:61-89 | `Blk 30` is a valid address |
| Address.NewAddress | src/main/java/seedu/address/model/person/Address.java:43-53 | the text is stored exactly as given; only a plain refusal is an illegal argument |
| Address.RepeatAfterFirstLabel | src/main/java/seedu/address/model/person/Address.java:80-87 | an address repeated right after an accepted first label is the walk's first rejection, so the check throws the duplicate-address error |
| Address.RepeatedAddressTokens | src/main/java/seedu/address/model/person/Address.java:80-81 | `Blk 30 (Home) Blk 30 (Work)` tokenizes into two addresses and two labels |
| Address.RepeatedAddressWalk | src/main/java/seedu/address/model/person/Address.java:83-87 | the walk over those tokens gives the duplicate-address error |
| Address.RepeatedAddress | src/main/java/seedu/address/model/person/Address.java:43-53 | `Blk 30 (Home) Blk 30 (Work)` throws the duplicate-address error from the check, and the constructor only logs it and still builds the address |
| FieldParser.ParseAddress | src/main/java/seedu/address/logic/parser/ParserUtil.java:118-133 | over 200 trimmed characters is refused before any grammar; within the cap the address check decides: valid gives the address holding the trimmed text, invalid gives the address constraints error, and an error of the check is passed through unchanged; an accepted address is the trimmed text and valid |
| FieldParser.ParseEmail | src/main/java/seedu/address/logic/parser/ParserUtil.java:141-157 | over 200 trimmed characters is refused first; accepted iff within the cap and in the email grammar; stored trimmed |
| FieldParser.ParseOtherPhones | src/main/java/seedu/address/logic/parser/ParserUtil.java:85-95 | non-empty input the check refuses gives the constraints error, and an error of the check is passed through; once the input is empty or valid, the main-phone search decides: found gives the duplicate error, not found gives a value, and an error of the search is passed through; accepted input is empty or valid, does not contain the main phone, and is stored trimmed |
| FieldParser.OtherPhonesStable | src/main/java/seedu/address/logic/parser/ParserUtil.java:87-94 | validity ignores surrounding whitespace, so the constructor's own check after trimming agrees |
| FieldParser.EmptyOtherPhones | src/main/java/seedu/address/logic/parser/ParserUtil.java:87-94 | the empty input is accepted and kept as it is |
| Name.IsValidName | src/main/java/seedu/address/model/person/Name.java:66-96 | never false; true iff not blank, has a letter or digit, only allowed characters, no special at either end, no doubled special, and at most 95 characters trimmed; otherwise the first rule that fails, in that order, names the error |
| Name.NewName | src/main/java/seedu/address/model/person/Name.java:49-59 | accepts exactly the valid names and stores them as given; every rule's error becomes an illegal argument with the same reason |
| Name.PlainNameLength | src/main/java/seedu/address/model/person/Name.java:91-93 | for plain letters only the length rule can fail: 95 pass, 96 do not |
| Name.DigitName | src/main/java/seedu/address/model/person/Name.java:17 | `1` is a valid name |
| Name.LoneHyphen | src/main/java/seedu/address/model/person/Name.java:72-85 | `-` is refused for lacking a letter or digit, a rule checked before the start rule |
| Name.LeadingHyphen | src/main/java/seedu/address/model/person/Name.java:82-85 | `-al` is refused by the start/end rule |
| Name.DoubleHyphen | src/main/java/seedu/address/model/person/Name.java:87-89 | `a--b` is refused by the consecutive-special rule |
| Name.ForbiddenCharacter | src/main/java/seedu/address/model/person/Name.java:77-79 | `al*` is refused by the character rule |
| MeetingName.LookaheadAsWritten | src/main/java/seedu/address/model/meeting/MeetingName.java:22 | the lookahead as the regex groups it: a letter reachable before any line terminator, or a digit first |
| MeetingName.IsValidMeetingNameAsWritten | src/main/java/seedu/address/model/meeting/MeetingName.java:48-54 | the length error exactly when over 95 trimmed characters; otherwise true iff the regex as written matches |
| MeetingName.IsValidMeetingName | src/main/java/seedu/address/model/meeting/MeetingName.java:48-54 | the same, with the lookahead the constraints message describes (a letter or digit) |
| MeetingName.BracketedDigit | src/main/java/seedu/address/model/meeting/MeetingName.java:22 | `(1)` is refused as written and accepted as intended |
| MeetingName.ReadingsAgree | src/main/java/seedu/address/model/meeting/MeetingName.java:22 | the two readings agree whenever a letter is reachable or the text opens with a digit |
| MeetingName.AsWrittenIsStricter | src/main/java/seedu/address/model/meeting/MeetingName.java:22 | the lookahead as written implies the intended one, so what the check as written accepts the intended check accepts, what the intended check refuses the check as written refuses, and both give the length error on the same texts |
| MeetingName.DigitsAccepted | src/main/java/seedu/address/model/meeting/MeetingName.java:22 | up to 95 digits alone are a meeting name in both readings |
| MeetingName.DigitsOnly | src/test/java/seedu/address/model/meeting/MeetingNameTest.java:51 | `12345` is valid, by the check as written and by the intended one |
| MeetingName.EmptyRefused | src/test/java/seedu/address/model/meeting/MeetingNameTest.java:35 | the empty text is refused, by the check as written and by the intended one |
| MeetingName.SpaceRefused | src/test/java/seedu/address/model/meeting/MeetingNameTest.java:36 | a lone space is refused, by the check as written and by the intended one |
| MeetingName.ForeignCharRefused | src/main/java/seedu/address/model/meeting/MeetingName.java:22 | one character outside the class refuses any text within the cap, in both readings |
| MeetingName.CaretRefused | src/test/java/seedu/address/model/meeting/MeetingNameTest.java:39 | `^` is refused, by the check as written and by the intended one |
| MeetingName.AsteriskRefused | src/test/java/seedu/address/model/meeting/MeetingNameTest.java:42 | `peter*` is refused, by the check as written and by the intended one |
| MeetingName.PlainMeetingNameLength | src/main/java/seedu/address/model/meeting/MeetingName.java:49-53 | for plain letters only the cap can fail: 95 pass, 96 are the length error, in both readings |
| MeetingName.NewMeetingName | src/main/java/seedu/address/model/meeting/MeetingName.java:35-43 | accepts exactly the names the check as written accepts (so `(1)` is an illegal argument), stored as given; the length error keeps its reason, a refusal is the constraints error |
| MeetingName.NewMeetingNameIntended | src/main/java/seedu/address/model/meeting/MeetingName.java:13-15 | the constructor with the lookahead the message describes: the same errors, accepting every name the constructor as written accepts, and with the same result on it |
| MeetingName.IntendedIsNotBlank | src/main/java/seedu/address/model/meeting/MeetingName.java:56-58 | a meeting name the intended constructor builds is never blank |
| MeetingName.ConstructedIsNotBlank | src/main/java/seedu/address/model/meeting/MeetingName.java:56-58 | a constructed meeting name is never blank |
| Venue.MatchesVenue | src/main/java/seedu/address/model/meeting/Venue.java:22 | the regex: at least one character, all in the class, one of them a letter or digit (the class holds no line terminator, so the lookahead's `.*` always reaches it) |
| Venue.IsValidVenue | src/main/java/seedu/address/model/meeting/Venue.java:48-54 | the length error exactly when over 95 trimmed characters; otherwise true iff allowed characters only, with a letter or digit |
| Venue.NewVenue | src/main/java/seedu/address/model/meeting/Venue.java:35-43 | accepts exactly the valid venues, stored as given; any error of the check becomes the length message, a refusal the constraints message |
| Venue.ConstructedIsNotBlank | src/main/java/seedu/address/model/meeting/Venue.java:56-58 | a constructed venue is never blank |
| Venue.PlainVenueLength | src/main/java/seedu/address/model/meeting/Venue.java:49-53 | for plain letters only the cap can fail: 95 pass, 96 are the length error |
| Venue.WordsAndNumber | src/test/java/seedu/address/model/meeting/VenueTest.java:47 | `amk hub level 2` is valid |
| Venue.DigitsOnly | src/test/java/seedu/address/model/meeting/VenueTest.java:46 | `12345` is valid |
| Venue.BlankRefused | src/test/java/seedu/address/model/meeting/VenueTest.java:35-36 | the empty text and a lone space are refused |
| Venue.ForeignCharRefused | src/main/java/seedu/address/model/meeting/Venue.java:22 | one character outside the class refuses any text within the cap |
| Venue.CaretRefused | src/test/java/seedu/address/model/meeting/VenueTest.java:37 | `^` is refused |
| Venue.SymbolsRefused | src/test/java/seedu/address/model/meeting/VenueTest.java:38 | `%$` is refused |
| DateTimeParser.Match | src/main/java/seedu/address/logic/parser/DateTimeParser.java:57 | a text a pattern reads has that pattern's digit mask |
| DateTimeParser.SkipMiss | src/main/java/seedu/address/logic/parser/DateTimeParser.java:69 | after a pattern that does not read the text, the search is the search over the remaining patterns |
| DateTimeParser.ParseWith | src/main/java/seedu/address/logic/parser/DateTimeParser.java:55-73 | the format error iff no pattern reads the text; otherwise the first pattern that reads it decides: invalid value, year below 1, or the date-time it read |
| DateTimeParser.ParseDateTime | src/main/java/seedu/address/logic/parser/DateTimeParser.java:53-74 | an accepted date-time is strictly valid, has a year from 1, and is what the first matching allowed pattern read |
| DateTimeParser.PadDigitsValue | src/main/java/seedu/address/logic/parser/DateTimeParser.java:31-40 | a number written zero-padded in a width it fits reads back as itself |
| DateTimeParser.FormatThenMatch | src/main/java/seedu/address/logic/parser/DateTimeParser.java:31-40 | a pattern reads back every field it printed |
| DateTimeParser.AllowedPatternsCover | src/main/java/seedu/address/logic/parser/DateTimeParser.java:31-40 | every allowed pattern prints all five fields in their widths and reads all five back |
| DateTimeParser.ShapesOfAllowed | src/main/java/seedu/address/logic/parser/DateTimeParser.java:31-40 | the digit masks of the eight allowed patterns |
| DateTimeParser.ShapesDistinct | src/main/java/seedu/address/logic/parser/DateTimeParser.java:31-40 | the eight masks are pairwise different |
| DateTimeParser.AtMostOneMatch | src/main/java/seedu/address/logic/parser/DateTimeParser.java:31-40 | no text fits two allowed patterns, so their order never decides the result |
| DateTimeParser.ReadBack | src/main/java/seedu/address/logic/parser/DateTimeParser.java:53-74 | a date-time printed in any allowed shape parses to its verdict: itself, the invalid-value error, or the year error |
| DateTimeParser.DigitsPadded | src/main/java/seedu/address/logic/parser/DateTimeParser.java:57 | a run of digits is the zero-padded print of its own value |
| DateTimeParser.MatchThenFormat | src/main/java/seedu/address/logic/parser/DateTimeParser.java:57 | a pattern that reads each field at most once prints back exactly the text it read; every field read fits its width and the others keep their start value |
| DateTimeParser.AllowedDistinct | src/main/java/seedu/address/logic/parser/DateTimeParser.java:31-40 | no allowed pattern reads a field twice |
| DateTimeParser.AllowedWidths | src/main/java/seedu/address/logic/parser/DateTimeParser.java:31-40 | what an allowed pattern reads has a four-digit year and two-digit other fields |
| DateTimeParser.ReadIsPrinted | src/main/java/seedu/address/logic/parser/DateTimeParser.java:53-74 | every text an allowed pattern reads is that pattern's print of the fields it read, so the search gives its verdict: with ReadBack, the texts the parser reads are exactly the prints of the allowed patterns |
| DateTimeParser.OpensWithNumber | src/main/java/seedu/address/logic/parser/DateTimeParser.java:31-40 | every allowed pattern opens with a number group |
| DateTimeParser.NoLeadingDigit | src/main/java/seedu/address/logic/parser/DateTimeParser.java:72-73 | with unsigned four-digit years, a text not starting with a digit is the format error |
| DateTimeParser.FormattedParses | src/main/java/seedu/address/logic/parser/DateTimeParser.java:55-61 | a valid date-time with a year from 1 to 9999, printed in any allowed shape, is accepted as itself |
| DateTimeParser.ImpossibleValueStops | src/main/java/seedu/address/logic/parser/DateTimeParser.java:62-68 | an impossible date or time printed in an allowed shape stops the search with the invalid-value error |
| DateTimeParser.DayFirstExample | src/test/java/seedu/address/model/meeting/WhenTest.java:44 | 12 January 2025, 14:00, printed in `dd/MM/uuuu HHmm`, is read back as itself |
| DateTimeParser.DayFirstText | src/main/java/seedu/address/logic/parser/DateTimeParser.java:38 | that print is the text `12/01/2025 1400` |
| DateTimeParser.DayFirstTestText | src/test/java/seedu/address/model/meeting/WhenTest.java:44 | the text `12/01/2025 1400` is accepted as 12 January 2025, 14:00 |
| DateTimeParser.YearFirstExample | src/test/java/seedu/address/model/meeting/WhenTest.java:41 | the same instant printed in `uuuu/MM/dd HH:mm` is read back as itself |
| DateTimeParser.YearFirstText | src/main/java/seedu/address/logic/parser/DateTimeParser.java:35 | that print is the text `2025/01/12 14:00` |
| DateTimeParser.YearFirstTestText | src/test/java/seedu/address/model/meeting/WhenTest.java:41 | the text `2025/01/12 14:00` is accepted as the same instant |
| DateTimeParser.ThirtyFirstOfApril | src/main/java/seedu/address/logic/parser/DateTimeParser.java:62-68 | 31 April is the invalid-value error |
| DateTimeParser.LeapDay | src/main/java/seedu/address/logic/parser/DateTimeParser.java:32 | 29 February 2024 is accepted |
| DateTimeParser.NoLeapDay | src/main/java/seedu/address/logic/parser/DateTimeParser.java:62-68 | 29 February 2023 is the invalid-value error |
| DateTimeParser.NoLeapDayInCentury | src/main/java/seedu/address/logic/parser/DateTimeParser.java:62-68 | 29 February 1900 is the invalid-value error |
| DateTimeParser.YearZero | src/main/java/seedu/address/logic/parser/DateTimeParser.java:58-60 | 29 February of year 0 resolves (a proleptic leap year), then is refused for its year |
| DateTimeParser.NoHourTwentyFour | src/main/java/seedu/address/logic/parser/DateTimeParser.java:39 | hour 24 is the invalid-value error: nothing rolls over |
| DateTimeParser.NotDateTimes | src/test/java/seedu/address/model/meeting/WhenTest.java:30-35 | the empty text, a space, `^` and `peter*` are the format error |

## Left out

- Logging, and the exact wording of messages. An error carries a reason
  that names its message constant, plus the field's display name where the
  message is formatted with one.
- Null arguments and `requireNonNull`: Dafny strings are never null. So the
  `null` branch of the `OtherPhones` constructor is not modelled.
- The other `ParserUtil` entry points (`parseIndex`, `parsePhone`,
  `parseEditOtherPhones`, `parseTag(s)`, `parseMeetingName`, `parseVenue`,
  `parseWhen`). Their helpers `StringUtil`, `Tag` and `When` are not part of
  this model.
- The label grammar (`Person.LABEL_VALIDATION_REGEX`) and the email grammar
  (`Email.isValidEmail`) are not part of this model. They are parameters of
  type `string -> bool`, and so is the email display name.
- FieldParser.Email: the `Email` constructor and its checks are not modelled.
  `parseEmail` is modelled up to the value it constructs.
- `AppUtil.checkArgument` is not part of this model. It is read as throwing
  `IllegalArgumentException` when its condition is false.
- Chars.IsLetter and Chars.IsMark cover only the Latin, Greek, Cyrillic and
  CJK letters and the combining diacritical marks, not the full Unicode
  classes `\p{L}` and `\p{M}`.
- Chars.ToLowerCase lower-cases only the Basic Latin and Latin-1 capitals;
  every other character is left unchanged. This is an approximation of
  locale-dependent `String.toLowerCase`.
- Java strings are sequences of UTF-16 code units, while the model's
  characters are Unicode scalar values. Surrogate pairs are therefore not
  modelled.
- DateTimeParser.ParseDateTime: the year field is exactly four unsigned ASCII
  digits. Signed years and years longer than four digits, which `uuuu` also
  reads, are not modelled. So `-2025/01/12 14:00` is the format error in the
  model where the source reaches the year check, and `+12345/01/12 14:00` is
  the format error where the source accepts it.
- DateTimeParser.NoLeadingDigit holds for the unsigned four-digit year model
  only. For a text opening with `+` or `-` the source can answer differently,
  as the line above says.
- DateTimeParser.NotDateTimes is stated in the same model. None of its four
  texts opens with a sign or a digit, so the source refuses them with the
  same format error.
- DateTimeParser.FormattedParses and DateTimeParser.ReadBack are stated only
  for date-times whose fields fit the patterns' widths.
- `DateTimeParser.format` is not modelled: its month abbreviations follow
  the default locale.
- The `labelAlwaysCompulsory = true` policy is modelled in
  `Tokenizer.CheckForIncorrectListSize`, although no shown caller uses it.
- OtherPhones.FindMainPhone takes the number grammar and the `Phone`
  constructor as parameters, so the search is stated once.
  `OtherPhones.MainPhoneExists` instantiates them with the real ones.
- The `equals` and `hashCode` methods of the value classes are not modelled
  as members. Datatype equality in Dafny is equality of the stored text,
  which is what they compute.
- Where the code and its tests disagree, the model follows the code.
  `NameTest.java` expects the name `1` to be refused, but `Name.java`
  accepts digits (`Name.DigitName`).

## Findings

| source | as written | input that shows it | evidently intended | confidence | as-written member | corrected member |
|---|---|---|---|---|---|---|
| src/main/java/seedu/address/model/meeting/MeetingName.java:22 | the lookahead `(?=.*\p{L}\|\d)` groups as "a letter somewhere, or a digit at the very start" | `(1)` holds a digit and only allowed characters, yet is refused | a letter or a digit anywhere, as the constraints message (lines 13-15) says and as `Venue`'s `(?=.*[\p{L}\d])` does | not executed | MeetingName.IsValidMeetingNameAsWritten | MeetingName.IsValidMeetingName |

`MeetingName.BracketedDigit` proves the discrepancy on `(1)`.
`MeetingName.ReadingsAgree` proves that the two readings differ on no other
kind of input: they agree whenever the text has a reachable letter or opens
with a digit. `MeetingName.NewMeetingName` models the constructor as written,
so it refuses `(1)`. `MeetingName.NewMeetingNameIntended` is the constructor
on the corrected reading. `MeetingName.AsWrittenIsStricter` proves that it
accepts every name the constructor as written accepts.
