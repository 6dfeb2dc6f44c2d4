// ValidationUtil: one pass over the token list of a multi-valued field that
// rejects a repeated parameter or label (compared after lower-casing) by
// throwing, and answers false at the first token whose grammar fails.
// Even positions hold parameters, odd positions labels.
module ValidationUtil {
  import opened Errors
  import opened Chars

  /** Every token lower-cased, as the walk compares and matches them. */
  function LowerAll(list: seq<string>): (r: seq<string>)
    ensures |r| == |list|
    ensures forall k :: 0 <= k < |list| ==> r[k] == ToLowerCase(list[k])
  {
    if list == [] then [] else [ToLowerCase(list[0])] + LowerAll(list[1..])
  }

  /** The tokens before position `k` in the role of `parity` (0: parameters, 1: labels). */
  function SeenAs(lower: seq<string>, k: nat, parity: nat): set<string>
    requires k <= |lower|
  {
    set j | 0 <= j < k && j % 2 == parity :: lower[j]
  }

  /** Accepting the token at `k` adds it to the set of its role only. */
  lemma SeenAsStep(lower: seq<string>, k: nat)
    requires k < |lower|
    ensures SeenAs(lower, k + 1, 0) == if k % 2 == 0 then SeenAs(lower, k, 0) + {lower[k]} else SeenAs(lower, k, 0)
    ensures SeenAs(lower, k + 1, 1) == if k % 2 == 0 then SeenAs(lower, k, 1) else SeenAs(lower, k, 1) + {lower[k]}
  {
  }

  /** The token at `k` repeats an earlier token of the same role. */
  predicate RepeatsEarlier(lower: seq<string>, k: nat)
    requires k < |lower|
  {
    exists j :: 0 <= j < k && j % 2 == k % 2 && lower[j] == lower[k]
  }

  predicate MatchesGrammar(lower: seq<string>, k: nat, parameterRegex: string -> bool,
                           labelRegex: string -> bool)
    requires k < |lower|
  {
    if k % 2 == 0 then parameterRegex(lower[k]) else labelRegex(lower[k])
  }

  predicate Accepted(lower: seq<string>, k: nat, parameterRegex: string -> bool,
                     labelRegex: string -> bool)
    requires k < |lower|
  {
    !RepeatsEarlier(lower, k) && MatchesGrammar(lower, k, parameterRegex, labelRegex)
  }

  /** `k` is the first token the walk does not accept. */
  predicate IsFirstRejected(lower: seq<string>, k: nat, parameterRegex: string -> bool,
                            labelRegex: string -> bool)
  {
    && k < |lower|
    && !Accepted(lower, k, parameterRegex, labelRegex)
    && forall j :: 0 <= j < k ==> Accepted(lower, j, parameterRegex, labelRegex)
  }

  /** What the walk answers at a token it does not accept: the duplicate error of
      the token's role, or else false. */
  function Verdict(lower: seq<string>, k: nat, field: string): Result<bool>
    requires k < |lower|
  {
    if RepeatsEarlier(lower, k) then
      Err(ParseError(if k % 2 == 0 then DuplicateParameter(field) else DuplicateLabel(field)))
    else Ok(false)
  }

  /** The walk from token `k` on, `parameters` and `labels` holding what it has
      accepted so far. */
  function Walk(lower: seq<string>, parameterRegex: string -> bool, labelRegex: string -> bool,
                field: string, k: nat, parameters: set<string>, labels: set<string>): (r: Result<bool>)
    requires k <= |lower|
    requires parameters == SeenAs(lower, k, 0) && labels == SeenAs(lower, k, 1)
    requires forall j :: 0 <= j < k ==> Accepted(lower, j, parameterRegex, labelRegex)
    ensures r == Ok(true) <==> forall j :: k <= j < |lower| ==> Accepted(lower, j, parameterRegex, labelRegex)
    ensures r != Ok(true) ==>
      exists j :: k <= j && IsFirstRejected(lower, j, parameterRegex, labelRegex) && r == Verdict(lower, j, field)
    decreases |lower| - k
  {
    if k == |lower| then Ok(true)
    else
      var current := lower[k];
      var checkParameter := k % 2 == 0;
      assert checkParameter ==> (current in parameters <==> RepeatsEarlier(lower, k));
      assert !checkParameter ==> (current in labels <==> RepeatsEarlier(lower, k));
      if checkParameter && current in parameters then
        assert IsFirstRejected(lower, k, parameterRegex, labelRegex);
        Err(ParseError(DuplicateParameter(field)))
      else if !checkParameter && current in labels then
        assert IsFirstRejected(lower, k, parameterRegex, labelRegex);
        Err(ParseError(DuplicateLabel(field)))
      else if !MatchesGrammar(lower, k, parameterRegex, labelRegex) then
        assert IsFirstRejected(lower, k, parameterRegex, labelRegex);
        Ok(false)
      else
        SeenAsStep(lower, k);
        Walk(lower, parameterRegex, labelRegex, field, k + 1,
             if checkParameter then parameters + {current} else parameters,
             if checkParameter then labels else labels + {current})
  }

  /** One accepted token: the walk from `k` is the walk from `k + 1` with the
      token added to the set of its role. */
  lemma WalkAccepts(lower: seq<string>, parameterRegex: string -> bool, labelRegex: string -> bool,
                    field: string, k: nat, parameters: set<string>, labels: set<string>)
    requires k < |lower|
    requires parameters == SeenAs(lower, k, 0) && labels == SeenAs(lower, k, 1)
    requires forall j :: 0 <= j < k ==> Accepted(lower, j, parameterRegex, labelRegex)
    requires if k % 2 == 0 then lower[k] !in parameters else lower[k] !in labels
    requires MatchesGrammar(lower, k, parameterRegex, labelRegex)
    ensures SeenAs(lower, k + 1, 0) == if k % 2 == 0 then parameters + {lower[k]} else parameters
    ensures SeenAs(lower, k + 1, 1) == if k % 2 == 0 then labels else labels + {lower[k]}
    ensures forall j :: 0 <= j <= k ==> Accepted(lower, j, parameterRegex, labelRegex)
    ensures Walk(lower, parameterRegex, labelRegex, field, k, parameters, labels)
         == Walk(lower, parameterRegex, labelRegex, field, k + 1, SeenAs(lower, k + 1, 0), SeenAs(lower, k + 1, 1))
  {
    SeenAsStep(lower, k);
    SeenIffRepeats(lower, k);
  }

  /** A token was seen before in its role exactly when it repeats an earlier one. */
  lemma SeenIffRepeats(lower: seq<string>, k: nat)
    requires k < |lower|
    ensures lower[k] in SeenAs(lower, k, k % 2) <==> RepeatsEarlier(lower, k)
  {
    if lower[k] in SeenAs(lower, k, k % 2) {
      var j :| 0 <= j < k && j % 2 == k % 2 && lower[j] == lower[k];
    }
  }

  /** `isParameterAndLabelsValid`: true when no token repeats an earlier one of
      its role and every token matches its grammar; otherwise the first token
      that fails decides, a repeat by throwing, a grammar failure by false. */
  function IsParameterAndLabelsValid(list: seq<string>, parameterRegex: string -> bool,
                                     labelRegex: string -> bool, field: string): (r: Result<bool>)
    ensures r == Ok(true) <==>
      forall k :: 0 <= k < |list| ==> Accepted(LowerAll(list), k, parameterRegex, labelRegex)
    ensures r != Ok(true) ==>
      exists k :: IsFirstRejected(LowerAll(list), k, parameterRegex, labelRegex)
               && r == Verdict(LowerAll(list), k, field)
  {
    assert SeenAs(LowerAll(list), 0, 0) == {} && SeenAs(LowerAll(list), 0, 1) == {};
    Walk(LowerAll(list), parameterRegex, labelRegex, field, 0, {}, {})
  }

  /** At most one token is the first one the walk does not accept. */
  lemma FirstRejectedUnique(lower: seq<string>, parameterRegex: string -> bool,
                            labelRegex: string -> bool, j: nat, k: nat)
    requires IsFirstRejected(lower, j, parameterRegex, labelRegex)
    requires IsFirstRejected(lower, k, parameterRegex, labelRegex)
    ensures j == k
  {
  }

  /** So the first rejected token alone decides the verdict. */
  lemma FirstRejectedDecides(list: seq<string>, parameterRegex: string -> bool,
                             labelRegex: string -> bool, field: string, k: nat)
    requires IsFirstRejected(LowerAll(list), k, parameterRegex, labelRegex)
    ensures IsParameterAndLabelsValid(list, parameterRegex, labelRegex, field) == Verdict(LowerAll(list), k, field)
  {
    var lower := LowerAll(list);
    var r := IsParameterAndLabelsValid(list, parameterRegex, labelRegex, field);
    assert r != Ok(true);
    var j: nat :| IsFirstRejected(lower, j, parameterRegex, labelRegex) && r == Verdict(lower, j, field);
    FirstRejectedUnique(lower, parameterRegex, labelRegex, j, k);
  }

  /** The toggle flips with the parity of the position. */
  lemma ParityStep(k: nat)
    ensures (k + 1) % 2 == 0 <==> k % 2 != 0
  {
  }

  /** The loop of `isParameterAndLabelsValid`, with its toggle and its two sets. */
  method ValidateParametersAndLabels(list: seq<string>, parameterRegex: string -> bool,
                                     labelRegex: string -> bool, field: string)
    returns (r: Result<bool>)
    ensures r == IsParameterAndLabelsValid(list, parameterRegex, labelRegex, field)
  {
    var checkParameter := true;
    var currParameters: set<string> := {};
    var currLabels: set<string> := {};
    ghost var lower := LowerAll(list);
    assert SeenAs(lower, 0, 0) == {} && SeenAs(lower, 0, 1) == {};
    for k := 0 to |list|
      invariant checkParameter == (k % 2 == 0)
      invariant currParameters == SeenAs(lower, k, 0) && currLabels == SeenAs(lower, k, 1)
      invariant forall j :: 0 <= j < k ==> Accepted(lower, j, parameterRegex, labelRegex)
      invariant IsParameterAndLabelsValid(list, parameterRegex, labelRegex, field)
                == Walk(lower, parameterRegex, labelRegex, field, k, currParameters, currLabels)
    {
      var currString := ToLowerCase(list[k]);
      assert currString == lower[k];
      if checkParameter && currString in currParameters {
        return Err(ParseError(DuplicateParameter(field)));
      }
      if !checkParameter && currString in currLabels {
        return Err(ParseError(DuplicateLabel(field)));
      }
      if checkParameter && !parameterRegex(currString) {
        return Ok(false);
      }
      if !checkParameter && !labelRegex(currString) {
        return Ok(false);
      }
      WalkAccepts(lower, parameterRegex, labelRegex, field, k, currParameters, currLabels);
      if checkParameter {
        currParameters := currParameters + {currString};
      }
      if !checkParameter {
        currLabels := currLabels + {currString};
      }
      ParityStep(k);
      checkParameter := !checkParameter;
    }
    return Ok(true);
  }

  /** Two tokens of the same role that differ only in case are never accepted
      together: the later one is a repeat. */
  lemma RepeatIsNeverValid(list: seq<string>, parameterRegex: string -> bool,
                           labelRegex: string -> bool, field: string, i: nat, j: nat)
    requires i < j < |list| && i % 2 == j % 2
    requires ToLowerCase(list[i]) == ToLowerCase(list[j])
    ensures IsParameterAndLabelsValid(list, parameterRegex, labelRegex, field) != Ok(true)
  {
    var lower := LowerAll(list);
    assert lower[i] == lower[j];
    assert !Accepted(lower, j, parameterRegex, labelRegex);
  }

  /** When every token matches its grammar, a repeat is reported as the
      duplicate error of its role, never as false. */
  lemma RepeatInGrammarIsDuplicate(list: seq<string>, parameterRegex: string -> bool,
                                   labelRegex: string -> bool, field: string, i: nat, j: nat)
    requires i < j < |list| && i % 2 == j % 2
    requires ToLowerCase(list[i]) == ToLowerCase(list[j])
    requires forall k :: 0 <= k < |list| ==> MatchesGrammar(LowerAll(list), k, parameterRegex, labelRegex)
    ensures IsParameterAndLabelsValid(list, parameterRegex, labelRegex, field) in
      {Err(ParseError(DuplicateParameter(field))), Err(ParseError(DuplicateLabel(field)))}
  {
    RepeatIsNeverValid(list, parameterRegex, labelRegex, field, i, j);
    var r := IsParameterAndLabelsValid(list, parameterRegex, labelRegex, field);
    var k :| IsFirstRejected(LowerAll(list), k, parameterRegex, labelRegex) && r == Verdict(LowerAll(list), k, field);
    assert RepeatsEarlier(LowerAll(list), k);
  }

  /** Parameters and labels are kept apart: a label equal to the parameter
      before it is no duplicate. */
  lemma SameTextInBothRoles(token: string, parameterRegex: string -> bool,
                            labelRegex: string -> bool, field: string)
    requires parameterRegex(ToLowerCase(token)) && labelRegex(ToLowerCase(token))
    ensures IsParameterAndLabelsValid([token, token], parameterRegex, labelRegex, field) == Ok(true)
  {
    var lower := LowerAll([token, token]);
    assert !RepeatsEarlier(lower, 0);
    assert !RepeatsEarlier(lower, 1);
  }
}
