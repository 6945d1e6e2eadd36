/** The status test of `check_url` and the README analysis of `validate_readme`. */
module Urls {
  import opened Wrappers
  import opened Text
  import opened Oracles

  /** `str(status_code)[0] == '2'` */
  predicate StatusValid(code: int) {
    IntToString(code)[0] == '2'
  }

  /** `check_url(url)`: the validity and the status code; a transport failure gives `(False, 0)`. */
  function CheckUrl(env: Env, url: string): (res: (bool, int))
    ensures res.0 ==> res.1 > 0
  {
    match env.head(url)
    case Status(code) =>
      StatusValidPositive(code);
      (StatusValid(code), code)
    case Unreachable =>
      StatusTest(0);
      (false, 0)
  }

  lemma StatusValidPositive(code: int)
    ensures StatusValid(code) ==> code > 0
  {
    if code >= 0 {
      StatusTest(code);
    }
  }

  /** A status is valid exactly when its first decimal digit is 2; negative numbers start with `-`. */
  lemma StatusTest(code: int)
    ensures code < 0 ==> !StatusValid(code)
    ensures code >= 0 ==> (StatusValid(code) <==> LeadingDigit(code) == 2)
  {
    if code >= 0 {
      FirstCharIsLeadingDigit(code);
    }
  }

  /** For three-digit HTTP status codes the test accepts exactly the 2xx class. */
  lemma StatusTestThreeDigits(code: int)
    requires 100 <= code <= 999
    ensures StatusValid(code) <==> 200 <= code <= 299
  {
    StatusTest(code);
    assert LeadingDigit(code) == LeadingDigit(code / 10) == LeadingDigit(code / 100) == code / 100;
  }

  /** The leading-digit test also accepts numbers that are no HTTP status, and rejects the failure sentinel. */
  lemma StatusTestOddCases()
    ensures StatusValid(2) && StatusValid(20) && StatusValid(2000)
    ensures !StatusValid(0) && !StatusValid(302) && !StatusValid(404)
  {
    StatusTest(2);
    StatusTest(20);
    StatusTest(2000);
    StatusTest(0);
    StatusTestThreeDigits(302);
    StatusTestThreeDigits(404);
  }

  const Placeholder := "{APP-NAME}"

  /** The three lists `validate_readme` returns. */
  datatype ReadmeFindings = ReadmeFindings(errors: seq<string>, warnings: seq<string>, accolades: seq<string>)

  /** What `validate_readme(url)` returns for a given GET outcome; a transport failure raises. */
  function ReadmeSpec(url: string, reply: GetReply): Outcome<ReadmeFindings> {
    match reply
    case GetFailure => Raised(RequestError(url))
    case Response(status, content) =>
      if status >= 400 then
        Done(ReadmeFindings(["Error fetching README URL " + url + ": status " + IntToString(status)], [], []))
      else
        var short := if |content| < 500 then ["README content too short"] else [];
        var placeholder := if Contains(content, Placeholder) then ["README contains placeholder `{APP-NAME}`"] else [];
        var longer := if 500 <= |content| < 1000 then ["README content could be longer"] else [];
        var long := if |content| >= 1000 then ["README content appears reasonably long (" + NatToString(|content|) + " chars)"] else [];
        Done(ReadmeFindings(short + placeholder, longer, long))
  }

  /** `validate_readme(url)`, filling three local lists. */
  method ValidateReadme(env: Env, url: string) returns (out: Outcome<ReadmeFindings>)
    ensures out == ReadmeSpec(url, env.get(url))
  {
    var errors: seq<string> := [];
    var warnings: seq<string> := [];
    var accolades: seq<string> := [];
    var r := env.get(url);
    if r.GetFailure? {
      return Raised(RequestError(url));
    }
    if r.status >= 400 {
      errors := errors + ["Error fetching README URL " + url + ": status " + IntToString(r.status)];
    } else {
      var content := r.body;
      // length
      if |content| < 500 {
        errors := errors + ["README content too short"];
      } else if |content| < 1000 {
        warnings := warnings + ["README content could be longer"];
      } else {
        accolades := accolades + ["README content appears reasonably long (" + NatToString(|content|) + " chars)"];
      }
      // placeholder
      if Contains(content, Placeholder) {
        errors := errors + ["README contains placeholder `{APP-NAME}`"];
      }
    }
    ghost var spec := ReadmeSpec(url, r).value;
    assert spec.errors == errors && spec.warnings == warnings && spec.accolades == accolades;
    return Done(ReadmeFindings(errors, warnings, accolades));
  }

  /**
   * A failed fetch gives one error and nothing else; otherwise the length
   * gives exactly one of an error (under 500), a warning (under 1000) or an
   * accolade, and a second error comes exactly when the placeholder occurs.
   */
  lemma ReadmeClassification(url: string, reply: GetReply)
    requires reply.Response?
    ensures ReadmeSpec(url, reply).Done?
    ensures var f := ReadmeSpec(url, reply).value;
      if reply.status >= 400 then |f.errors| == 1 && f.warnings == [] && f.accolades == []
      else
        var n := |reply.body|;
        var placeholder := Contains(reply.body, Placeholder);
        |f.errors| == (if n < 500 then 1 else 0) + (if placeholder then 1 else 0) &&
        |f.warnings| == (if 500 <= n < 1000 then 1 else 0) &&
        |f.accolades| == (if n >= 1000 then 1 else 0) &&
        (placeholder <==> "README contains placeholder `{APP-NAME}`" in f.errors)
  {
  }
}
