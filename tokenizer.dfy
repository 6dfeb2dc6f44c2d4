// The parameter/label tokenizer of ParserUtil: it cuts a field such as
// `Blk 30 Geylang St (Home) Blk 11 AMK (Work)` into the alternating list
// `Blk 30 Geylang St`, `(Home)`, `Blk 11 AMK`, `(Work)`, checking the single
// space around every label as it goes, and then checks the number of tokens
// against the field's label policy.
module Tokenizer {
  import opened Errors
  import opened Chars

  /** `String.indexOf(c, from)`: the first index at or after `from` that holds `c`, or -1. */
  function IndexOf(text: string, c: char, from: nat): (r: int)
    ensures r == -1 || (from <= r < |text| && text[r] == c)
    ensures forall k :: from <= k < |text| && (r == -1 || k < r) ==> text[k] != c
    decreases |text| - from
  {
    if from >= |text| then -1
    else if text[from] == c then from
    else IndexOf(text, c, from + 1)
  }

  /** The guards run when a parameter starting at `parameterStart` is followed by
      the `(` at `openBracket` (-1: there is no further `(`). */
  function CheckForParameterSpacingIssue(field: string, parameterStart: nat, openBracket: int,
                                         text: string): (o: Outcome)
    requires openBracket == -1 || parameterStart <= openBracket < |text|
    ensures o.Pass? && openBracket != -1 ==>
      && parameterStart < openBracket
      && 2 <= openBracket && text[openBracket - 1] == ' ' && text[openBracket - 2] != ' '
    // the guards in order, the first that fails deciding the error
    ensures openBracket == -1 ==> o == Pass
    ensures openBracket != -1 && openBracket < 2 ==> o == Fail(ParseError(FirstLabelAtStart(field)))
    ensures 2 <= openBracket && parameterStart == openBracket ==> o == Fail(ParseError(ParameterMissing(field)))
    ensures 2 <= openBracket && parameterStart != openBracket && text[openBracket - 1] != ' ' ==>
      o == Fail(ParseError(MissingSpaceBeforeLabel(field)))
    ensures 2 <= openBracket && parameterStart != openBracket && text[openBracket - 1] == ' ' && text[openBracket - 2] == ' ' ==>
      o == Fail(ParseError(ExtraSpaceBeforeLabel(field)))
    ensures 2 <= openBracket && parameterStart != openBracket && text[openBracket - 1] == ' ' && text[openBracket - 2] != ' ' ==>
      o == Pass
  {
    if openBracket == -1 then Pass
    else if openBracket < 2 then Fail(ParseError(FirstLabelAtStart(field)))
    else if parameterStart == openBracket then Fail(ParseError(ParameterMissing(field)))
    else if text[openBracket - 1] != ' ' then Fail(ParseError(MissingSpaceBeforeLabel(field)))
    else if text[openBracket - 2] == ' ' then Fail(ParseError(ExtraSpaceBeforeLabel(field)))
    else Pass
  }

  /** The guards run when a label is closed by the `)` at `closeBracket`
      (-1: there is no further `)`). */
  function CheckForLabelSpacingIssue(field: string, closeBracket: int, text: string): (o: Outcome)
    requires closeBracket == -1 || 0 <= closeBracket < |text|
    ensures o.Pass? && closeBracket != -1 && closeBracket != |text| - 1 ==>
      closeBracket + 2 < |text| && text[closeBracket + 1] == ' ' && text[closeBracket + 2] != ' '
    // the guards in order, the first that fails deciding the error
    ensures closeBracket == -1 || closeBracket == |text| - 1 ==> o == Pass
    ensures closeBracket != -1 && closeBracket == |text| - 2 ==> o == Fail(ParseError(LastLabelMissingSpace(field)))
    ensures 0 <= closeBracket < |text| - 2 && text[closeBracket + 1] != ' ' ==>
      o == Fail(ParseError(MissingSpaceAfterLabel(field)))
    ensures 0 <= closeBracket < |text| - 2 && text[closeBracket + 1] == ' ' && text[closeBracket + 2] == ' ' ==>
      o == Fail(ParseError(ExtraSpaceAfterLabel(field)))
    ensures 0 <= closeBracket < |text| - 2 && text[closeBracket + 1] == ' ' && text[closeBracket + 2] != ' ' ==>
      o == Pass
  {
    if closeBracket == -1 then Pass
    else if closeBracket == |text| - 1 then Pass
    else if closeBracket + 2 >= |text| then Fail(ParseError(LastLabelMissingSpace(field)))
    else if text[closeBracket + 1] != ' ' then Fail(ParseError(MissingSpaceAfterLabel(field)))
    else if text[closeBracket + 2] == ' ' then Fail(ParseError(ExtraSpaceAfterLabel(field)))
    else Pass
  }

  /** Where the parameter or label starting at `current` ends (exclusive). */
  function GetEndIndexOfParameterOrLabel(field: string, text: string, current: nat,
                                         extractParameter: bool): (r: Result<nat>)
    requires current < |text|
    ensures r.Ok? ==> current <= r.value <= |text|
  {
    if extractParameter then
      var openBracket := IndexOf(text, '(', current);
      match CheckForParameterSpacingIssue(field, current, openBracket, text)
      case Fail(e) => Err(e)
      case Pass => Ok(if openBracket != -1 then openBracket - 1 else |text|)
    else
      var closeBracket := IndexOf(text, ')', current);
      match CheckForLabelSpacingIssue(field, closeBracket, text)
      case Fail(e) => Err(e)
      case Pass => Ok(if closeBracket != -1 then closeBracket + 1 else |text|)
  }

  /** The tokens cut from `text` by a scan that starts at index `i`, looking for
      a parameter when `extractParameter` holds and for a label otherwise. */
  function Extract(field: string, text: string, i: nat, extractParameter: bool): Result<seq<string>>
    decreases |text| - i
  {
    if i >= |text| then Ok([])
    else
      match GetEndIndexOfParameterOrLabel(field, text, i, extractParameter)
      case Err(e) => Err(e)
      case Ok(end) =>
        match Extract(field, text, end + 1, !extractParameter)
        case Err(e) => Err(e)
        case Ok(rest) => Ok([text[i..end]] + rest)
  }

  function Prefixed(tokens: seq<string>, r: Result<seq<string>>): Result<seq<string>> {
    match r
    case Ok(rest) => Ok(tokens + rest)
    case Err(e) => Err(e)
  }

  /** Cutting one token moves it from the scan into the list. */
  lemma PrefixedStep(field: string, text: string, i: nat, extractParameter: bool,
                     list: seq<string>, end: nat)
    requires i < |text| && GetEndIndexOfParameterOrLabel(field, text, i, extractParameter) == Ok(end)
    ensures Prefixed(list, Extract(field, text, i, extractParameter))
            == Prefixed(list + [text[i..end]], Extract(field, text, end + 1, !extractParameter))
  {
    var rest := Extract(field, text, end + 1, !extractParameter);
    assert rest.Ok? ==> list + ([text[i..end]] + rest.value) == (list + [text[i..end]]) + rest.value;
  }

  /** `extractParametersAndLabels`: the scan loop, toggling between parameter and label. */
  method ExtractParametersAndLabels(field: string, text: string) returns (r: Result<seq<string>>)
    ensures r == Extract(field, text, 0, true)
    ensures r.Ok? ==> Join(r.value) == text && WellFormed(r.value, true, true)
  {
    var extractParameter := true;
    var i := 0;
    var list: seq<string> := [];
    assert Prefixed(list, Extract(field, text, i, extractParameter)) == Extract(field, text, 0, true) by {
      var whole := Extract(field, text, 0, true);
      assert whole.Ok? ==> list + whole.value == whole.value;
    }
    while i < |text|
      invariant 0 <= i <= |text| + 1
      invariant Extract(field, text, 0, true) == Prefixed(list, Extract(field, text, i, extractParameter))
      decreases |text| - i
    {
      var end := GetEndIndexOfParameterOrLabel(field, text, i, extractParameter);
      if end.Err? {
        return Err(end.error);
      }
      PrefixedStep(field, text, i, extractParameter, list, end.value);
      list := list + [text[i..end.value]];
      i := end.value + 1;
      extractParameter := !extractParameter;
    }
    assert list + [] == list;
    r := Ok(list);
    ExtractFromStart(field, text, list);
  }

  /** The tokens written back with one space between each two. */
  function Join(tokens: seq<string>): string {
    if |tokens| == 0 then ""
    else if |tokens| == 1 then tokens[0]
    else tokens[0] + " " + Join(tokens[1..])
  }

  /** A parameter: never empty and free of `(`; after a label it does not start
      with a space, and before a label it does not end with one. */
  predicate IsParameterToken(p: string, first: bool, labelled: bool) {
    && p != []
    && (forall k :: 0 <= k < |p| ==> p[k] != '(')
    && (!first ==> p[0] != ' ')
    && (labelled ==> p[|p| - 1] != ' ')
  }

  /** A label: from `(` up to the first `)`, which ends it unless the label is the
      last token and has no `)` at all. */
  predicate IsLabelToken(l: string, last: bool) {
    && l != [] && l[0] == '('
    && (forall k :: 0 <= k < |l| - 1 ==> l[k] != ')')
    && (!last ==> l[|l| - 1] == ')')
  }

  /** The token lists the tokenizer produces: parameters and labels alternating,
      starting with a parameter when `parameter` holds. */
  predicate WellFormed(tokens: seq<string>, parameter: bool, first: bool)
    decreases |tokens|
  {
    || tokens == []
    || (&& (if parameter then IsParameterToken(tokens[0], first, |tokens| > 1)
            else IsLabelToken(tokens[0], |tokens| == 1))
        && WellFormed(tokens[1..], !parameter, false))
  }

  lemma JoinHead(tokens: seq<string>)
    requires tokens != []
    ensures |Join(tokens)| >= |tokens[0]| && Join(tokens)[..|tokens[0]|] == tokens[0]
  {
  }

  lemma JoinCons(t: string, rest: seq<string>)
    requires rest != []
    ensures Join([t] + rest) == t + " " + Join(rest)
  {
    assert ([t] + rest)[1..] == rest;
  }

  lemma WellFormedCons(t: string, rest: seq<string>, parameter: bool, first: bool)
    ensures WellFormed([t] + rest, parameter, first) <==>
      && (if parameter then IsParameterToken(t, first, rest != []) else IsLabelToken(t, rest == []))
      && WellFormed(rest, !parameter, false)
  {
    assert ([t] + rest)[1..] == rest;
  }

  lemma SplitAround(text: string, i: nat, end: nat)
    requires i <= end < |text| && text[end] == ' '
    ensures text[i..] == text[i..end] + " " + text[end + 1..]
  {
  }

  /** One step of the scan: the token it cuts at `i` and the scan that follows. */
  lemma ExtractStep(field: string, text: string, i: nat, parameter: bool, tokens: seq<string>)
    returns (end: nat, rest: seq<string>)
    requires i < |text| && Extract(field, text, i, parameter) == Ok(tokens)
    ensures GetEndIndexOfParameterOrLabel(field, text, i, parameter) == Ok(end)
    ensures i <= end <= |text|
    ensures Extract(field, text, end + 1, !parameter) == Ok(rest)
    ensures tokens == [text[i..end]] + rest
  {
    end := GetEndIndexOfParameterOrLabel(field, text, i, parameter).value;
    rest := Extract(field, text, end + 1, !parameter).value;
  }

  /** Every successful scan gives back its text when joined with single spaces,
      and yields well-formed tokens. */
  lemma {:induction false} ExtractSound(field: string, text: string, i: nat, parameter: bool,
                                        tokens: seq<string>)
    requires Extract(field, text, i, parameter) == Ok(tokens)
    requires i < |text| && parameter && i > 0 ==> text[i] != ' '
    requires i < |text| && !parameter ==> text[i] == '('
    ensures i >= |text| ==> tokens == []
    ensures i < |text| ==> tokens != [] && Join(tokens) == text[i..]
    ensures WellFormed(tokens, parameter, i == 0)
    decreases |text| - i, 1
  {
    if i < |text| {
      if parameter {
        ExtractSoundParameter(field, text, i, tokens);
      } else {
        ExtractSoundLabel(field, text, i, tokens);
      }
    }
  }

  lemma {:induction false} ExtractSoundParameter(field: string, text: string, i: nat, tokens: seq<string>)
    requires i < |text| && Extract(field, text, i, true) == Ok(tokens)
    requires i > 0 ==> text[i] != ' '
    ensures tokens != [] && Join(tokens) == text[i..]
    ensures WellFormed(tokens, true, i == 0)
    decreases |text| - i, 0
  {
    var end, rest := ExtractStep(field, text, i, true, tokens);
    ParameterCut(field, text, i, end);
    WellFormedCons(text[i..end], rest, true, i == 0);
    if end < |text| {
      ExtractSound(field, text, end + 1, false, rest);
      JoinCons(text[i..end], rest);
      SplitAround(text, i, end);
    }
  }

  /** A parameter the scan cuts at `i`: up to the space before the next `(`, or
      to the end of the text when there is none. */
  lemma ParameterCut(field: string, text: string, i: nat, end: nat)
    requires i < |text| && GetEndIndexOfParameterOrLabel(field, text, i, true) == Ok(end)
    requires i > 0 ==> text[i] != ' '
    ensures end < |text| ==> text[end] == ' ' && end + 1 < |text| && text[end + 1] == '('
    ensures IsParameterToken(text[i..end], i == 0, end < |text|)
  {
    var openBracket := IndexOf(text, '(', i);
    assert openBracket != -1 ==> end == openBracket - 1;
    assert openBracket == -1 ==> end == |text|;
    var token := text[i..end];
    assert forall k :: 0 <= k < |token| ==> token[k] == text[i + k];
  }

  lemma {:induction false} ExtractSoundLabel(field: string, text: string, i: nat, tokens: seq<string>)
    requires i < |text| && Extract(field, text, i, false) == Ok(tokens)
    requires text[i] == '('
    ensures tokens != [] && Join(tokens) == text[i..]
    ensures WellFormed(tokens, false, i == 0)
    decreases |text| - i, 0
  {
    var end, rest := ExtractStep(field, text, i, false, tokens);
    LabelCut(field, text, i, end);
    WellFormedCons(text[i..end], rest, false, i == 0);
    if end < |text| {
      ExtractSound(field, text, end + 1, true, rest);
      JoinCons(text[i..end], rest);
      SplitAround(text, i, end);
    } else {
      assert rest == [];
    }
  }

  /** A label the scan cuts at `i`: through the first `)`, which a single space
      and then a parameter follow, or to the end of the text. */
  lemma LabelCut(field: string, text: string, i: nat, end: nat)
    requires i < |text| && GetEndIndexOfParameterOrLabel(field, text, i, false) == Ok(end)
    requires text[i] == '('
    ensures end < |text| ==> text[end] == ' ' && end + 1 < |text| && text[end + 1] != ' '
    ensures IsLabelToken(text[i..end], end == |text|)
  {
    var closeBracket := IndexOf(text, ')', i);
    var token := text[i..end];
    if closeBracket == -1 || closeBracket == |text| - 1 {
      assert end == |text|;
    } else {
      assert end == closeBracket + 1 && end + 1 < |text|;
      assert token[|token| - 1] == ')';
    }
    assert forall k :: 0 <= k < |token| ==> token[k] == text[i + k];
  }

  /** A scan of a whole text that succeeds gives it back when joined. */
  lemma ExtractFromStart(field: string, text: string, tokens: seq<string>)
    requires Extract(field, text, 0, true) == Ok(tokens)
    ensures Join(tokens) == text && WellFormed(tokens, true, true)
    ensures text != [] <==> tokens != []
  {
    ExtractSound(field, text, 0, true, tokens);
  }

  lemma ExtractCons(field: string, text: string, i: nat, parameter: bool, end: nat,
                    t: string, rest: seq<string>, tokens: seq<string>)
    requires i < |text| && GetEndIndexOfParameterOrLabel(field, text, i, parameter) == Ok(end)
    requires text[i..end] == t && tokens == [t] + rest
    requires Extract(field, text, end + 1, !parameter) == Ok(rest)
    ensures Extract(field, text, i, parameter) == Ok(tokens)
  {
  }

  /** The scan of the last token, which runs to the end of the text. */
  lemma ExtractLast(field: string, text: string, i: nat, parameter: bool, t: string)
    requires i < |text| && text[i..] == t
    requires if parameter then IsParameterToken(t, false, false) || IsParameterToken(t, true, false)
             else IsLabelToken(t, true)
    ensures Extract(field, text, i, parameter) == Ok([t])
  {
    assert forall k :: i <= k < |text| ==> text[k] == t[k - i];
    if parameter {
      assert IndexOf(text, '(', i) == -1;
    } else {
      var closeBracket := IndexOf(text, ')', i);
      assert closeBracket == -1 || closeBracket == |text| - 1;
    }
    assert GetEndIndexOfParameterOrLabel(field, text, i, parameter) == Ok(|text|);
    assert text[i..|text|] == t;
    ExtractCons(field, text, i, parameter, |text|, t, [], [t]);
  }

  /** The scan of a token that a single space separates from the next one. */
  lemma EndOfFollowedToken(field: string, text: string, i: nat, parameter: bool, t: string)
    requires i + |t| + 1 < |text|
    requires text[i..i + |t|] == t && text[i + |t|] == ' '
    requires parameter ==>
      && t != [] && (forall k :: 0 <= k < |t| ==> t[k] != '(') && t[|t| - 1] != ' '
      && text[i + |t| + 1] == '('
    requires !parameter ==> IsLabelToken(t, false) && text[i + |t| + 1] != ' '
    ensures GetEndIndexOfParameterOrLabel(field, text, i, parameter) == Ok(i + |t|)
  {
    assert forall k :: i <= k < i + |t| ==> text[k] == t[k - i];
    if parameter {
      assert IndexOf(text, '(', i) == i + |t| + 1;
    } else {
      assert IndexOf(text, ')', i) == i + |t| - 1;
    }
  }

  /** Every well-formed token list is what the scan of its joined text yields. */
  lemma {:induction false} ExtractComplete(field: string, text: string, i: nat, parameter: bool,
                                           first: bool, tokens: seq<string>)
    requires WellFormed(tokens, parameter, first) && tokens != []
    requires i <= |text| && text[i..] == Join(tokens)
    ensures Extract(field, text, i, parameter) == Ok(tokens)
    decreases |tokens|, 1
  {
    if |tokens| == 1 {
      var t := tokens[0];
      assert tokens == [t] + [];
      WellFormedCons(t, [], parameter, first);
      ExtractLast(field, text, i, parameter, t);
    } else {
      var t, rest, end := SplitFirst(field, text, i, parameter, first, tokens);
      ExtractCompleteCons(field, text, i, parameter, end, t, rest, tokens);
    }
  }

  /** The scan cuts the first token at `end`, and the rest by induction. */
  lemma {:induction false} ExtractCompleteCons(field: string, text: string, i: nat, parameter: bool,
                                               end: nat, t: string, rest: seq<string>,
                                               tokens: seq<string>)
    requires tokens == [t] + rest && rest != [] && WellFormed(rest, !parameter, false)
    requires i <= end < |text| && text[i..end] == t && text[end + 1..] == Join(rest)
    requires GetEndIndexOfParameterOrLabel(field, text, i, parameter) == Ok(end)
    ensures Extract(field, text, i, parameter) == Ok(tokens)
    decreases |tokens|, 0
  {
    ExtractComplete(field, text, end + 1, !parameter, false, rest);
    ExtractCons(field, text, i, parameter, end, t, rest, tokens);
  }

  /** The first token of a longer list, where the scan cuts it, and the rest. */
  lemma SplitFirst(field: string, text: string, i: nat, parameter: bool, first: bool,
                   tokens: seq<string>) returns (t: string, rest: seq<string>, end: nat)
    requires WellFormed(tokens, parameter, first) && |tokens| > 1
    requires i <= |text| && text[i..] == Join(tokens)
    ensures tokens == [t] + rest && rest != [] && WellFormed(rest, !parameter, false)
    ensures i <= end < |text| && text[i..end] == t && text[end + 1..] == Join(rest)
    ensures GetEndIndexOfParameterOrLabel(field, text, i, parameter) == Ok(end)
  {
    t, rest := tokens[0], tokens[1..];
    assert tokens == [t] + rest;
    WellFormedCons(t, rest, parameter, first);
    end := i + |t|;
    JoinCons(t, rest);
    EndBeforeNext(field, text, i, parameter, first, t, rest);
  }

  /** A token that another follows ends just before the single space between them. */
  lemma EndBeforeNext(field: string, text: string, i: nat, parameter: bool, first: bool,
                      t: string, rest: seq<string>)
    requires rest != [] && WellFormed([t] + rest, parameter, first)
    requires i <= |text| && text[i..] == t + " " + Join(rest)
    ensures i + |t| < |text| && text[i..i + |t|] == t && text[i + |t| + 1..] == Join(rest)
    ensures GetEndIndexOfParameterOrLabel(field, text, i, parameter) == Ok(i + |t|)
  {
    WellFormedCons(t, rest, parameter, first);
    JoinHead(rest);
    WellFormedCons(rest[0], rest[1..], !parameter, false);
    assert rest == [rest[0]] + rest[1..];
    var end := i + |t|;
    assert text[i..end] == t && text[end] == ' ' by {
      assert text[i..end] == text[i..][..|t|];
    }
    assert text[end + 1] == rest[0][0] by {
      assert text[end + 1] == text[i..][|t| + 1];
    }
    assert text[end + 1..] == Join(rest) by {
      assert text[end + 1..] == text[i..][|t| + 1..];
    }
    EndOfFollowedToken(field, text, i, parameter, t);
  }

  /** In a well-formed list the role of each token shows in its first character. */
  lemma {:induction false} Alternation(tokens: seq<string>, parameter: bool, first: bool)
    requires WellFormed(tokens, parameter, first)
    ensures forall k :: 0 <= k < |tokens| ==>
      tokens[k] != [] && (tokens[k][0] == '(' <==> (k % 2 == 0) != parameter)
    decreases |tokens|
  {
    if tokens != [] {
      Alternation(tokens[1..], !parameter, false);
      forall k | 1 <= k < |tokens|
        ensures tokens[k] != [] && (tokens[k][0] == '(' <==> (k % 2 == 0) != parameter)
      {
        assert tokens[k] == tokens[1..][k - 1];
      }
    }
  }

  /** The label policy: a lone parameter may go without a label unless labels are
      compulsory; otherwise every parameter needs one. */
  predicate SizeAllowed(size: nat, labelAlwaysCompulsory: bool) {
    size > 0 && (size % 2 == 0 || (!labelAlwaysCompulsory && size == 1))
  }

  /** `checkForIncorrectListSize`. */
  function CheckForIncorrectListSize(field: string, list: seq<string>,
                                     labelAlwaysCompulsory: bool): (o: Outcome)
    ensures o.Pass? <==> SizeAllowed(|list|, labelAlwaysCompulsory)
    ensures o.Fail? ==> o.error == ParseError(if list == [] then EmptyField(field) else LabelRequired(field))
  {
    var listMinSize := if labelAlwaysCompulsory then 1 else 2;
    if list == [] then Fail(ParseError(EmptyField(field)))
    else if |list| >= listMinSize && |list| % 2 == 1 then Fail(ParseError(LabelRequired(field)))
    else Pass
  }

  /** `parseParametersAndLabels`: trim, then scan and check the number of tokens. */
  function ParseParametersAndLabels(field: string, text: string, labelAlwaysCompulsory: bool)
    : (r: Result<seq<string>>)
    ensures Trim(text) == [] ==> r == Err(ParseError(EmptyField(field)))
    ensures r.Ok? ==>
      && Join(r.value) == Trim(text)
      && WellFormed(r.value, true, true)
      && SizeAllowed(|r.value|, labelAlwaysCompulsory)
    ensures Trim(text) != [] && Extract(field, Trim(text), 0, true).Ok? &&
            !SizeAllowed(|Extract(field, Trim(text), 0, true).value|, labelAlwaysCompulsory) ==>
      r == Err(ParseError(LabelRequired(field)))
  {
    ScanTrimmed(field, Trim(text), labelAlwaysCompulsory)
  }

  /** The scan and the size check of `parseParametersAndLabels`, on the trimmed text. */
  function ScanTrimmed(field: string, trimmed: string, labelAlwaysCompulsory: bool)
    : (r: Result<seq<string>>)
    ensures trimmed == [] ==> r == Err(ParseError(EmptyField(field)))
    ensures r.Ok? ==>
      && Join(r.value) == trimmed
      && WellFormed(r.value, true, true)
      && SizeAllowed(|r.value|, labelAlwaysCompulsory)
  {
    match Extract(field, trimmed, 0, true)
    case Err(e) => Err(e)
    case Ok(list) =>
      ExtractFromStart(field, trimmed, list);
      match CheckForIncorrectListSize(field, list, labelAlwaysCompulsory)
      case Fail(e) => Err(e)
      case Pass => Ok(list)
  }

  /** The tokenizer trims first, so trimming before the call changes nothing. */
  lemma ParseTrimmed(field: string, text: string, labelAlwaysCompulsory: bool)
    ensures ParseParametersAndLabels(field, Trim(text), labelAlwaysCompulsory)
            == ParseParametersAndLabels(field, text, labelAlwaysCompulsory)
  {
    TrimTwice(text);
  }

  /** An error met by the scan is the tokenizer's error: it is reported before
      the list size is looked at. */
  lemma ScanErrorIsParseError(field: string, text: string, labelAlwaysCompulsory: bool, e: Error)
    requires Extract(field, Trim(text), 0, true) == Err(e)
    ensures ParseParametersAndLabels(field, text, labelAlwaysCompulsory) == Err(e)
  {
  }

  /** The scan stops at the first token whose bounds are refused. */
  lemma ExtractStops(field: string, text: string, i: nat, extractParameter: bool, e: Error)
    requires i < |text|
    requires GetEndIndexOfParameterOrLabel(field, text, i, extractParameter) == Err(e)
    ensures Extract(field, text, i, extractParameter) == Err(e)
  {
  }

  /** An error later in the scan is passed back unchanged. */
  lemma ExtractPassesOn(field: string, text: string, i: nat, extractParameter: bool, end: nat, e: Error)
    requires i < |text|
    requires GetEndIndexOfParameterOrLabel(field, text, i, extractParameter) == Ok(end)
    requires Extract(field, text, end + 1, !extractParameter) == Err(e)
    ensures Extract(field, text, i, extractParameter) == Err(e)
  {
  }

  /** A spacing error on the first parameter is the tokenizer's error: it is
      reported before any later token or the list size is looked at. */
  lemma FirstTokenError(field: string, text: string, labelAlwaysCompulsory: bool, e: Error)
    requires Trim(text) != []
    requires GetEndIndexOfParameterOrLabel(field, Trim(text), 0, true) == Err(e)
    ensures ParseParametersAndLabels(field, text, labelAlwaysCompulsory) == Err(e)
  {
    ExtractStops(field, Trim(text), 0, true, e);
    ScanErrorIsParseError(field, text, labelAlwaysCompulsory, e);
  }

  /** The scan stops at a refused label that follows the first parameter. */
  lemma ScanStopsAtFirstLabel(field: string, text: string, end: nat, e: Error)
    requires text != []
    requires GetEndIndexOfParameterOrLabel(field, text, 0, true) == Ok(end)
    requires end + 1 < |text|
    requires GetEndIndexOfParameterOrLabel(field, text, end + 1, false) == Err(e)
    ensures Extract(field, text, 0, true) == Err(e)
  {
    ExtractStops(field, text, end + 1, false, e);
    ExtractPassesOn(field, text, 0, true, end, e);
  }

  /** A spacing error on the label after the first parameter is likewise the
      tokenizer's error. */
  lemma FirstLabelError(field: string, text: string, labelAlwaysCompulsory: bool, end: nat, e: Error)
    requires Trim(text) != []
    requires GetEndIndexOfParameterOrLabel(field, Trim(text), 0, true) == Ok(end)
    requires end + 1 < |Trim(text)|
    requires GetEndIndexOfParameterOrLabel(field, Trim(text), end + 1, false) == Err(e)
    ensures ParseParametersAndLabels(field, text, labelAlwaysCompulsory) == Err(e)
  {
    ScanStopsAtFirstLabel(field, Trim(text), end, e);
    ScanErrorIsParseError(field, text, labelAlwaysCompulsory, e);
  }

  /** In "Blk 30  (Home)" two spaces stand before the label's bracket. */
  lemma TwoSpacesBeforeLabel(field: string)
    ensures GetEndIndexOfParameterOrLabel(field, "Blk 30  (Home)", 0, true)
            == Err(ParseError(ExtraSpaceBeforeLabel(field)))
  {
    var text := "Blk 30  (Home)";
    assert IndexOf(text, '(', 0) == 8 by {
      assert text[8] == '(';
      assert forall k :: 0 <= k < 8 ==> text[k] != '(';
    }
    assert text[7] == ' ' && text[6] == ' ';
  }

  /** Two spaces before a label's bracket are refused as an extra space. */
  lemma ExtraSpaceBeforeLabelExample(field: string, labelAlwaysCompulsory: bool)
    ensures ParseParametersAndLabels(field, "Blk 30  (Home)", labelAlwaysCompulsory)
            == Err(ParseError(ExtraSpaceBeforeLabel(field)))
  {
    var text := "Blk 30  (Home)";
    assert Trim(text) == text by {
      assert text[0] > ' ' && text[|text| - 1] > ' ';
    }
    TwoSpacesBeforeLabel(field);
    FirstTokenError(field, text, labelAlwaysCompulsory, ParseError(ExtraSpaceBeforeLabel(field)));
  }

  /** In "Blk 30 (Home)  Blk 31" the parameter "Blk 30" is well spaced. */
  lemma StreetBeforeLabel(field: string)
    ensures GetEndIndexOfParameterOrLabel(field, "Blk 30 (Home)  Blk 31", 0, true) == Ok(6)
  {
    var text := "Blk 30 (Home)  Blk 31";
    assert IndexOf(text, '(', 0) == 7 by {
      assert text[7] == '(';
      assert forall k :: 0 <= k < 7 ==> text[k] != '(';
    }
    assert text[6] == ' ' && text[5] != ' ';
  }

  /** In "Blk 30 (Home)  Blk 31" the label "(Home)" is followed by two spaces. */
  lemma LabelBeforeStreet(field: string)
    ensures GetEndIndexOfParameterOrLabel(field, "Blk 30 (Home)  Blk 31", 7, false)
            == Err(ParseError(ExtraSpaceAfterLabel(field)))
  {
    var text := "Blk 30 (Home)  Blk 31";
    assert IndexOf(text, ')', 7) == 12 by {
      assert text[12] == ')';
      assert forall k :: 7 <= k < 12 ==> text[k] != ')';
    }
    assert text[13] == ' ' && text[14] == ' ';
  }

  /** Two spaces after a label's bracket are refused as an extra space, once the
      parameter before the label has been read. */
  lemma ExtraSpaceAfterLabelExample(field: string, labelAlwaysCompulsory: bool)
    ensures ParseParametersAndLabels(field, "Blk 30 (Home)  Blk 31", labelAlwaysCompulsory)
            == Err(ParseError(ExtraSpaceAfterLabel(field)))
  {
    var text := "Blk 30 (Home)  Blk 31";
    assert Trim(text) == text by {
      assert text[0] > ' ' && text[|text| - 1] > ' ';
    }
    StreetBeforeLabel(field);
    LabelBeforeStreet(field);
    FirstLabelError(field, text, labelAlwaysCompulsory, 6, ParseError(ExtraSpaceAfterLabel(field)));
  }

  /** Re-parsing the canonical text of an accepted token list gives the list back. */
  lemma ParseCanonical(field: string, tokens: seq<string>, labelAlwaysCompulsory: bool)
    requires WellFormed(tokens, true, true) && SizeAllowed(|tokens|, labelAlwaysCompulsory)
    requires Trim(Join(tokens)) == Join(tokens)
    ensures ParseParametersAndLabels(field, Join(tokens), labelAlwaysCompulsory) == Ok(tokens)
  {
    ExtractComplete(field, Join(tokens), 0, true, true, tokens);
  }
}
