/**
 * The result record of a validation (errors, warnings, suggestions and
 * accolades, plus the repository URL and owner) and `check_condition`, the
 * single primitive through which the rules emit their findings.
 */
module Findings {
  import opened Wrappers

  /** The `ret` dictionary of one release validation, as a value. */
  datatype Report = Report(
    errors: seq<string>,
    warnings: seq<string>,
    suggestions: seq<string>,
    accolades: seq<string>,
    repoUrl: Option<string>,
    owner: Option<string>)

  const Empty := Report([], [], [], [], None, None)

  /** The arguments of one `check_condition` call: the expression and the four optional messages. */
  datatype Rule = Rule(
    holds: bool,
    error: Option<string> := None,
    warning: Option<string> := None,
    suggestion: Option<string> := None,
    accolade: Option<string> := None)

  // What one call appends to each list. A failed rule emits the first
  // message present among error, warning and suggestion; a rule that holds
  // emits its accolade.

  function ErrorOf(c: Rule): seq<string> {
    if !c.holds && c.error.Some? then [c.error.value] else []
  }

  function WarningOf(c: Rule): seq<string> {
    if !c.holds && c.error.None? && c.warning.Some? then [c.warning.value] else []
  }

  function SuggestionOf(c: Rule): seq<string> {
    if !c.holds && c.error.None? && c.warning.None? && c.suggestion.Some? then [c.suggestion.value] else []
  }

  function AccoladeOf(c: Rule): seq<string> {
    if c.holds && c.accolade.Some? then [c.accolade.value] else []
  }

  /** The number of messages in the four lists. */
  function Size(r: Report): nat {
    |r.errors| + |r.warnings| + |r.suggestions| + |r.accolades|
  }

  /** Every list of `b` starts with the corresponding list of `a`. */
  predicate Appends(a: Report, b: Report) {
    a.errors <= b.errors && a.warnings <= b.warnings &&
    a.suggestions <= b.suggestions && a.accolades <= b.accolades
  }

  lemma AppendsTransitive(a: Report, b: Report, c: Report)
    requires Appends(a, b) && Appends(b, c)
    ensures Appends(a, c)
  {
    assert a.errors <= c.errors by { PrefixTransitive(a.errors, b.errors, c.errors); }
    assert a.warnings <= c.warnings by { PrefixTransitive(a.warnings, b.warnings, c.warnings); }
    assert a.suggestions <= c.suggestions by { PrefixTransitive(a.suggestions, b.suggestions, c.suggestions); }
    assert a.accolades <= c.accolades by { PrefixTransitive(a.accolades, b.accolades, c.accolades); }
  }

  lemma PrefixTransitive(a: seq<string>, b: seq<string>, c: seq<string>)
    requires a <= b && b <= c
    ensures a <= c
  {
    assert c[..|a|] == b[..|a|];
  }

  /** `check_condition(expression, results, error, warning, suggestion, accolade)` on a value. */
  function Check(r: Report, c: Rule): (r': Report)
    ensures r'.errors == r.errors + ErrorOf(c)
    ensures r'.warnings == r.warnings + WarningOf(c)
    ensures r'.suggestions == r.suggestions + SuggestionOf(c)
    ensures r'.accolades == r.accolades + AccoladeOf(c)
    ensures r'.repoUrl == r.repoUrl && r'.owner == r.owner
    ensures Size(r') <= Size(r) + 1
  {
    if c.holds then
      if c.accolade.Some? then r.(accolades := r.accolades + [c.accolade.value]) else r
    else if c.error.Some? then r.(errors := r.errors + [c.error.value])
    else if c.warning.Some? then r.(warnings := r.warnings + [c.warning.value])
    else if c.suggestion.Some? then r.(suggestions := r.suggestions + [c.suggestion.value])
    else r
  }

  /**
   * One call appends at most one message: a rule that holds adds its
   * accolade if given, a failed rule the first given of error, warning and
   * suggestion; every other list is unchanged.
   */
  lemma CheckAppendsOne(r: Report, c: Rule)
    ensures var r' := Check(r, c);
      Size(r') == Size(r) + (if c.holds then (if c.accolade.Some? then 1 else 0)
                             else (if c.error.Some? || c.warning.Some? || c.suggestion.Some? then 1 else 0))
    ensures var r' := Check(r, c);
      c.holds ==> r'.errors == r.errors && r'.warnings == r.warnings && r'.suggestions == r.suggestions
    ensures var r' := Check(r, c);
      !c.holds ==> (r'.accolades == r.accolades &&
        (c.error.Some? ==> r'.errors == r.errors + [c.error.value] && r'.warnings == r.warnings && r'.suggestions == r.suggestions) &&
        (c.error.None? && c.warning.Some? ==> r'.warnings == r.warnings + [c.warning.value] && r'.errors == r.errors && r'.suggestions == r.suggestions) &&
        (c.error.None? && c.warning.None? ==> r'.suggestions == r.suggestions + SuggestionOf(c) && r'.errors == r.errors && r'.warnings == r.warnings))
  {
  }

  // What a sequence of calls appends to each list, call by call.

  function ErrorsOf(cs: seq<Rule>): seq<string> {
    if |cs| == 0 then [] else ErrorsOf(cs[..|cs| - 1]) + ErrorOf(cs[|cs| - 1])
  }

  function WarningsOf(cs: seq<Rule>): seq<string> {
    if |cs| == 0 then [] else WarningsOf(cs[..|cs| - 1]) + WarningOf(cs[|cs| - 1])
  }

  function SuggestionsOf(cs: seq<Rule>): seq<string> {
    if |cs| == 0 then [] else SuggestionsOf(cs[..|cs| - 1]) + SuggestionOf(cs[|cs| - 1])
  }

  function AccoladesOf(cs: seq<Rule>): seq<string> {
    if |cs| == 0 then [] else AccoladesOf(cs[..|cs| - 1]) + AccoladeOf(cs[|cs| - 1])
  }

  /** What one more rule at the end adds to each list. */
  lemma OfSnoc(cs: seq<Rule>, c: Rule)
    ensures ErrorsOf(cs + [c]) == ErrorsOf(cs) + ErrorOf(c)
    ensures WarningsOf(cs + [c]) == WarningsOf(cs) + WarningOf(c)
    ensures SuggestionsOf(cs + [c]) == SuggestionsOf(cs) + SuggestionOf(c)
    ensures AccoladesOf(cs + [c]) == AccoladesOf(cs) + AccoladeOf(c)
  {
    assert (cs + [c])[..|cs|] == cs;
  }

  /** Rules that each carry an error and no accolade add nothing but errors. */
  lemma {:induction false} OnlyErrors(cs: seq<Rule>)
    requires forall i :: 0 <= i < |cs| ==> cs[i].error.Some? && cs[i].accolade.None?
    ensures WarningsOf(cs) == [] && SuggestionsOf(cs) == [] && AccoladesOf(cs) == []
  {
    if |cs| > 0 {
      OnlyErrors(cs[..|cs| - 1]);
    }
  }

  /** Rules that each carry a warning and neither an error nor an accolade add nothing but warnings. */
  lemma {:induction false} OnlyWarnings(cs: seq<Rule>)
    requires forall i :: 0 <= i < |cs| ==> cs[i].error.None? && cs[i].warning.Some? && cs[i].accolade.None?
    ensures ErrorsOf(cs) == [] && SuggestionsOf(cs) == [] && AccoladesOf(cs) == []
  {
    if |cs| > 0 {
      OnlyWarnings(cs[..|cs| - 1]);
    }
  }

  /** `check_condition` called once per rule, in order. */
  function CheckAll(r: Report, cs: seq<Rule>): (r': Report)
    ensures r'.repoUrl == r.repoUrl && r'.owner == r.owner
    ensures Size(r') <= Size(r) + |cs|
  {
    if |cs| == 0 then r else Check(CheckAll(r, cs[..|cs| - 1]), cs[|cs| - 1])
  }

  /** What a sequence of calls appends to each list is what its calls append, one after the other. */
  lemma {:induction false} CheckAllLists(r: Report, cs: seq<Rule>)
    ensures CheckAll(r, cs).errors == r.errors + ErrorsOf(cs)
    ensures CheckAll(r, cs).warnings == r.warnings + WarningsOf(cs)
    ensures CheckAll(r, cs).suggestions == r.suggestions + SuggestionsOf(cs)
    ensures CheckAll(r, cs).accolades == r.accolades + AccoladesOf(cs)
  {
    if |cs| > 0 {
      var init, c := cs[..|cs| - 1], cs[|cs| - 1];
      CheckAllLists(r, init);
      AppendAssoc(r.errors, ErrorsOf(init), ErrorOf(c));
      AppendAssoc(r.warnings, WarningsOf(init), WarningOf(c));
      AppendAssoc(r.suggestions, SuggestionsOf(init), SuggestionOf(c));
      AppendAssoc(r.accolades, AccoladesOf(init), AccoladeOf(c));
    }
  }

  /** One more call at the end of a sequence of calls. */
  lemma CheckAllSnoc(r: Report, cs: seq<Rule>, c: Rule)
    ensures CheckAll(r, cs + [c]) == Check(CheckAll(r, cs), c)
  {
    assert (cs + [c])[..|cs|] == cs;
  }

  /** One turn of a loop over `rules`. */
  lemma CheckAllStep(r: Report, rules: seq<Rule>, i: int)
    requires 0 <= i < |rules|
    ensures CheckAll(r, rules[..i + 1]) == Check(CheckAll(r, rules[..i]), rules[i])
  {
    assert rules[..i + 1][..i] == rules[..i];
  }

  /**
   * The object form of the result record, which `check_condition` and the
   * validation steps update in place.
   */
  class Results {
    var errors: seq<string>
    var warnings: seq<string>
    var suggestions: seq<string>
    var accolades: seq<string>
    var repoUrl: Option<string>
    var owner: Option<string>

    function Value(): Report
      reads this
    {
      Report(errors, warnings, suggestions, accolades, repoUrl, owner)
    }

    constructor ()
      ensures Value() == Empty
    {
      errors, warnings, suggestions, accolades := [], [], [], [];
      repoUrl, owner := None, None;
    }

    /** `check_condition`: appends at most one message, chosen as `Check` describes. */
    method CheckCondition(expression: bool, error: Option<string> := None, warning: Option<string> := None,
                          suggestion: Option<string> := None, accolade: Option<string> := None)
      modifies this
      ensures Value() == Check(old(Value()), Rule(expression, error, warning, suggestion, accolade))
    {
      if expression {
        if accolade.Some? {
          accolades := accolades + [accolade.value];
        }
      } else {
        if error.Some? {
          errors := errors + [error.value];
        } else if warning.Some? {
          warnings := warnings + [warning.value];
        } else if suggestion.Some? {
          suggestions := suggestions + [suggestion.value];
        }
      }
    }

    /** `ret['errors'] += errors` and likewise for the warnings and accolades. */
    method Extend(moreErrors: seq<string>, moreWarnings: seq<string>, moreAccolades: seq<string>)
      modifies this
      ensures Value() == old(Value()).(errors := old(errors) + moreErrors, warnings := old(warnings) + moreWarnings,
                                        accolades := old(accolades) + moreAccolades)
    {
      errors := errors + moreErrors;
      warnings := warnings + moreWarnings;
      accolades := accolades + moreAccolades;
    }

    /** The four lists of `result` appended to those of `ret`, and `repo_url` and `owner` taken from `result`. */
    method Absorb(result: Report)
      modifies this
      ensures Value() == Report(old(errors) + result.errors, old(warnings) + result.warnings,
                                old(suggestions) + result.suggestions, old(accolades) + result.accolades,
                                result.repoUrl, result.owner)
    {
      errors := errors + result.errors;
      warnings := warnings + result.warnings;
      suggestions := suggestions + result.suggestions;
      accolades := accolades + result.accolades;
      repoUrl := result.repoUrl;
      owner := result.owner;
    }

    /** `ret['errors'].append(message)` */
    method AddError(message: string)
      modifies this
      ensures Value() == old(Value()).(errors := old(errors) + [message])
    {
      errors := errors + [message];
    }

    /** `ret['warnings'].append(message)` */
    method AddWarning(message: string)
      modifies this
      ensures Value() == old(Value()).(warnings := old(warnings) + [message])
    {
      warnings := warnings + [message];
    }

    /** `ret['accolades'].append(message)` */
    method AddAccolade(message: string)
      modifies this
      ensures Value() == old(Value()).(accolades := old(accolades) + [message])
    {
      accolades := accolades + [message];
    }
  }
}
