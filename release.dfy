/**
 * The data of one chart release from a catalog index, and what
 * `validate_app_release` reports about it, stage by stage.
 */
module Release {
  import opened Wrappers
  import opened Text
  import opened Findings
  import opened Oracles
  import opened Urls
  import opened Duplicates

  // ---------------------------------------------------------------------------
  // Constants

  /** GitHub organisation expected to own the app home repository. */
  const GithubRepoOrg := "giantswarm"
  const HomePrefix := "https://github.com/" + GithubRepoOrg + "/"
  const IconPrefix := "https://s.giantswarm.io/app-icons/"

  const TeamAnnotation := "application.giantswarm.io/team"
  const ReadmeAnnotation := "application.giantswarm.io/readme"
  const MetadataAnnotation := "application.giantswarm.io/metadata"
  const ValuesSchemaAnnotation := "application.giantswarm.io/values-schema"

  const RequiredFields := [ApiVersionKey, CreatedKey, DescriptionKey, DigestKey, NameKey, VersionKey]
  const RecommendedFields := [AppVersionKey, IconKey, SourcesKey, UrlsKey]
  const SuggestedFields := [KeywordsKey, KubeVersionKey, MaintainersKey]
  const CheckedAnnotations := [MetadataAnnotation, ReadmeAnnotation, ValuesSchemaAnnotation]
  const RepoFiles := ["README.md", "LICENSE", "SECURITY.md", "DCO", "CONTRIBUTING.md"]

  const SecondsPerDay := 24 * 60 * 60

  // ---------------------------------------------------------------------------
  // A release

  /** One entry of `maintainers`; only its optional `url` is looked at. */
  datatype Maintainer = Maintainer(url: Option<string>)

  /** A release dictionary of the catalog index: every key may be absent. */
  datatype Release = Release(
    apiVersion: Option<string>,
    created: Option<string>,
    description: Option<string>,
    digest: Option<string>,
    name: Option<string>,
    version: Option<string>,
    appVersion: Option<string>,
    icon: Option<string>,
    sources: Option<seq<string>>,
    urls: Option<seq<string>>,
    keywords: Option<seq<string>>,
    kubeVersion: Option<string>,
    maintainers: Option<seq<Maintainer>>,
    dependencies: bool,                             // whether the `dependencies` key is present
    home: Option<string>,
    chartType: Option<string>,                      // the `type` key
    deprecated: Option<bool>,
    annotations: Option<map<string, string>>)

  /** The keys the field rules look up. */
  datatype Key =
    | ApiVersionKey | CreatedKey | DescriptionKey | DigestKey | NameKey | VersionKey
    | AppVersionKey | IconKey | SourcesKey | UrlsKey
    | KeywordsKey | KubeVersionKey | MaintainersKey

  /** The spelling of a key in the index. */
  function KeyName(k: Key): string {
    match k
    case ApiVersionKey => "apiVersion"
    case CreatedKey => "created"
    case DescriptionKey => "description"
    case DigestKey => "digest"
    case NameKey => "name"
    case VersionKey => "version"
    case AppVersionKey => "appVersion"
    case IconKey => "icon"
    case SourcesKey => "sources"
    case UrlsKey => "urls"
    case KeywordsKey => "keywords"
    case KubeVersionKey => "kubeVersion"
    case MaintainersKey => "maintainers"
  }

  /** `field in release`, for the keys the field rules ask about. */
  predicate Present(rel: Release, field: Key) {
    match field
    case ApiVersionKey => rel.apiVersion.Some?
    case CreatedKey => rel.created.Some?
    case DescriptionKey => rel.description.Some?
    case DigestKey => rel.digest.Some?
    case NameKey => rel.name.Some?
    case VersionKey => rel.version.Some?
    case AppVersionKey => rel.appVersion.Some?
    case IconKey => rel.icon.Some?
    case SourcesKey => rel.sources.Some?
    case UrlsKey => rel.urls.Some?
    case KeywordsKey => rel.keywords.Some?
    case KubeVersionKey => rel.kubeVersion.Some?
    case MaintainersKey => rel.maintainers.Some?
  }

  /** A list-valued key, with an absent key read as no entries. */
  function Entries(xs: Option<seq<string>>): seq<string> {
    if xs.Some? then xs.value else []
  }

  // ---------------------------------------------------------------------------
  // Field rules

  function RequiredRule(rel: Release, field: Key): Rule {
    Rule(Present(rel, field), error := Some("No `" + KeyName(field) + "` given"))
  }

  function RecommendedRule(rel: Release, field: Key): Rule {
    Rule(Present(rel, field), warning := Some("No `" + KeyName(field) + "` given"),
         accolade := Some("Chart specifies the `" + KeyName(field) + "` field"))
  }

  function SuggestedRule(rel: Release, field: Key): Rule {
    Rule(Present(rel, field), suggestion := Some("Specify `" + KeyName(field) + "` attribute"),
         accolade := Some("Chart specifies the `" + KeyName(field) + "` field"))
  }

  function RequiredRules(rel: Release, fields: seq<Key>): seq<Rule> {
    seq(|fields|, i requires 0 <= i < |fields| => RequiredRule(rel, fields[i]))
  }

  function RecommendedRules(rel: Release, fields: seq<Key>): seq<Rule> {
    seq(|fields|, i requires 0 <= i < |fields| => RecommendedRule(rel, fields[i]))
  }

  function SuggestedRules(rel: Release, fields: seq<Key>): seq<Rule> {
    seq(|fields|, i requires 0 <= i < |fields| => SuggestedRule(rel, fields[i]))
  }

  /** `release['apiVersion'] in ('v1', 'v2')` */
  function ApiVersionRule(v: string): Rule {
    Rule(v == "v1" || v == "v2", error := Some("Invalid helm chart apiVersion value `" + v + "`"))
  }

  /** `release['apiVersion'] == 'v1'`, with a suggestion to move to v2 when it does not hold. */
  function MigrateRule(v: string): Rule {
    Rule(v == "v1", suggestion := Some("Migrate helm chart to apiVersion v2"))
  }

  function DependenciesRule(rel: Release): Rule {
    Rule(rel.dependencies, suggestion := Some("Use `dependencies` to inform about required apps/charts"),
         accolade := Some("Chart specifies `dependencies`"))
  }

  function NameRule(name: string): Rule {
    Rule(!EndsWith(name, "-app"), warning := Some("App name should not end with `-app`"))
  }

  function DescriptionRule(d: string): Rule {
    Rule(!Contains(Lower(d), "helm chart for"), warning := Some("Description should be unique and meaningful (is: `" + d + "`)"))
  }

  /** The field rules, once `apiVersion` and `name` are known to be present. */
  function FieldStage(r: Report, rel: Release): (r': Report)
    requires rel.apiVersion.Some? && rel.name.Some?
    ensures r'.repoUrl == r.repoUrl && r'.owner == r.owner
  {
    var r1 := CheckAll(r, RequiredRules(rel, RequiredFields));
    var r2 := Check(Check(r1, ApiVersionRule(rel.apiVersion.value)), MigrateRule(rel.apiVersion.value));
    var r3 := CheckAll(r2, RecommendedRules(rel, RecommendedFields));
    var r4 := Check(CheckAll(r3, SuggestedRules(rel, SuggestedFields)), DependenciesRule(rel));
    NamingStage(r4, rel, rel.name.value)
  }

  /** The `name` and `description` rules. */
  function NamingStage(r: Report, rel: Release, name: string): (r': Report)
    ensures r'.repoUrl == r.repoUrl && r'.owner == r.owner
  {
    var r1 := Check(r, NameRule(name));
    if rel.description.Some? then Check(r1, DescriptionRule(rel.description.value)) else r1
  }

  /** `validate_app_release` raises for a missing `apiVersion`, then for a missing `name`. */
  function FieldsRaise(rel: Release): Option<Exception> {
    if rel.apiVersion.None? then Some(KeyError("apiVersion"))
    else if rel.name.None? then Some(KeyError("name"))
    else None
  }

  /** The fields among `fields` that `rel` lacks, in order. */
  function Missing(rel: Release, fields: seq<Key>): seq<Key> {
    if |fields| == 0 then []
    else Missing(rel, fields[..|fields| - 1]) + (if Present(rel, fields[|fields| - 1]) then [] else [fields[|fields| - 1]])
  }

  /** `"No `f` given"` for each field of `fs`. */
  function NotGiven(fs: seq<Key>): seq<string> {
    if |fs| == 0 then [] else NotGiven(fs[..|fs| - 1]) + ["No `" + KeyName(fs[|fs| - 1]) + "` given"]
  }

  /**
   * The required-field loop emits one error per missing field, in the order
   * of the fields, and nothing else.
   */
  lemma RequiredFieldErrors(rel: Release, fields: seq<Key>)
    ensures ErrorsOf(RequiredRules(rel, fields)) == NotGiven(Missing(rel, fields))
    ensures WarningsOf(RequiredRules(rel, fields)) == []
    ensures SuggestionsOf(RequiredRules(rel, fields)) == []
    ensures AccoladesOf(RequiredRules(rel, fields)) == []
  {
    RequiredErrors(rel, fields);
    OnlyErrors(RequiredRules(rel, fields));
  }

  lemma {:induction false} RequiredErrors(rel: Release, fields: seq<Key>)
    ensures ErrorsOf(RequiredRules(rel, fields)) == NotGiven(Missing(rel, fields))
  {
    if |fields| > 0 {
      var init := fields[..|fields| - 1];
      var f := fields[|fields| - 1];
      RequiredErrors(rel, init);
      RequiredRulesSnoc(rel, fields);
      OfSnoc(RequiredRules(rel, init), RequiredRule(rel, f));
      if !Present(rel, f) {
        assert Missing(rel, fields) == Missing(rel, init) + [f];
        NotGivenSnoc(Missing(rel, init), f);
      } else {
        assert Missing(rel, fields) == Missing(rel, init);
      }
    }
  }

  lemma RequiredRulesSnoc(rel: Release, fields: seq<Key>)
    requires |fields| > 0
    ensures RequiredRules(rel, fields) == RequiredRules(rel, fields[..|fields| - 1]) + [RequiredRule(rel, fields[|fields| - 1])]
  {
  }

  lemma NotGivenSnoc(fs: seq<Key>, f: Key)
    ensures NotGiven(fs + [f]) == NotGiven(fs) + ["No `" + KeyName(f) + "` given"]
  {
    assert (fs + [f])[..|fs|] == fs;
  }

  /** For the six required fields: an error per missing one, none when all are given. */
  lemma RequiredFieldsExample(rel: Release)
    ensures ErrorsOf(RequiredRules(rel, RequiredFields)) == NotGiven(Missing(rel, RequiredFields))
    ensures (forall k :: 0 <= k < |RequiredFields| ==> Present(rel, RequiredFields[k])) ==>
      ErrorsOf(RequiredRules(rel, RequiredFields)) == []
  {
    RequiredFieldErrors(rel, RequiredFields);
    MissingNone(rel, RequiredFields);
  }

  lemma {:induction false} MissingNone(rel: Release, fields: seq<Key>)
    ensures (forall k :: 0 <= k < |fields| ==> Present(rel, fields[k])) ==> Missing(rel, fields) == []
  {
    if |fields| > 0 {
      MissingNone(rel, fields[..|fields| - 1]);
    }
  }

  /**
   * The apiVersion rules: an error unless the value is `v1` or `v2`, and the
   * migration suggestion for every value except `v1`, so for `v2` too.
   */
  lemma ApiVersionFindings(v: string)
    ensures ErrorOf(ApiVersionRule(v)) == if v == "v1" || v == "v2" then [] else ["Invalid helm chart apiVersion value `" + v + "`"]
    ensures SuggestionOf(MigrateRule(v)) == if v == "v1" then [] else ["Migrate helm chart to apiVersion v2"]
    ensures SuggestionOf(MigrateRule("v2")) == ["Migrate helm chart to apiVersion v2"]
    ensures WarningOf(ApiVersionRule(v)) == [] && AccoladeOf(ApiVersionRule(v)) == []
    ensures ErrorOf(MigrateRule(v)) == [] && WarningOf(MigrateRule(v)) == [] && AccoladeOf(MigrateRule(v)) == []
  {
  }

  // ---------------------------------------------------------------------------
  // home

  /** Every `home` with the expected prefix splits into `https:`, ``, `github.com`, the organisation and the rest. */
  lemma HomeSegments(h: string)
    requires StartsWith(h, HomePrefix)
    ensures Split(h, '/') == ["https:", "", "github.com", GithubRepoOrg] + Split(h[|HomePrefix|..], '/')
  {
    var rest := h[|HomePrefix|..];
    assert h == "https:" + "/" + ("" + "/" + ("github.com" + "/" + (GithubRepoOrg + "/" + rest)));
    SplitAfter(GithubRepoOrg, '/', rest);
    SplitAfter("github.com", '/', GithubRepoOrg + "/" + rest);
    SplitAfter("", '/', "github.com" + "/" + (GithubRepoOrg + "/" + rest));
    SplitAfter("https:", '/', "" + "/" + ("github.com" + "/" + (GithubRepoOrg + "/" + rest)));
  }

  /** `f'{GITHUB_REPO_ORG}/{segments[4]}'` for a `home` inside the organisation, otherwise no handle. */
  function RepoHandle(rel: Release): (handle: Option<string>)
    ensures handle.Some? <==> rel.home.Some? && StartsWith(rel.home.value, HomePrefix)
  {
    if rel.home.Some? && StartsWith(rel.home.value, HomePrefix) then
      HomeSegments(rel.home.value);
      Some(GithubRepoOrg + "/" + Split(rel.home.value, '/')[4])
    else None
  }

  /** The handle names the organisation and the path segment after it: the repository name. */
  lemma RepoHandleIsRepository(rel: Release)
    requires rel.home.Some? && StartsWith(rel.home.value, HomePrefix)
    ensures RepoHandle(rel) == Some(GithubRepoOrg + "/" + TakeUntil(rel.home.value[|HomePrefix|..], '/'))
  {
    HomeSegments(rel.home.value);
    SplitFirst(rel.home.value[|HomePrefix|..], '/');
  }

  /** `home` is the repository URL itself, or a path inside the repository. */
  lemma RepoHandleOfRepository(rel: Release, repo: string, path: string)
    requires '/' !in repo
    requires rel.home == Some(HomePrefix + repo) || rel.home == Some(HomePrefix + repo + "/" + path)
    ensures RepoHandle(rel) == Some(GithubRepoOrg + "/" + repo)
  {
    var h := rel.home.value;
    assert h[..|HomePrefix|] == HomePrefix;
    RepoHandleIsRepository(rel);
    if h == HomePrefix + repo {
      assert h[|HomePrefix|..] == repo;
      TakeUntilWithout(repo, '/');
    } else {
      assert h[|HomePrefix|..] == repo + "/" + path;
      TakeUntilSeparator(repo, '/', path);
    }
  }

  lemma {:induction false} TakeUntilWithout(a: string, sep: char)
    requires sep !in a
    ensures TakeUntil(a, sep) == a
  {
    if |a| > 0 {
      TakeUntilWithout(a[1..], sep);
    }
  }

  lemma {:induction false} TakeUntilSeparator(a: string, sep: char, b: string)
    requires sep !in a
    ensures TakeUntil(a + [sep] + b, sep) == a
  {
    if |a| > 0 {
      TakeUntilSeparator(a[1..], sep, b);
      assert (a + [sep] + b)[1..] == a[1..] + [sep] + b;
    }
  }

  /** The `home` rules; a `home` inside the organisation also becomes `repo_url`. */
  function HomeStage(r: Report, rel: Release, env: Env): (r': Report)
    ensures r'.owner == r.owner
    ensures r'.repoUrl == if RepoHandle(rel).Some? then rel.home else r.repoUrl
  {
    var r1 := Check(r, Rule(rel.home.Some?, error := Some(
      "Field `home` not set, must be set to a `https://github.com/" + GithubRepoOrg + "/...` repository URL")));
    if rel.home.None? then r1
    else
      var h := rel.home.value;
      var r2 := Check(r1, Rule(StartsWith(h, HomePrefix),
        warning := Some("URL in `home` should point to a GitHub repo owned by " + GithubRepoOrg + " (is " + h + ")"),
        accolade := Some("URL in `home` points to a GitHub repo owned by " + GithubRepoOrg)));
      var r3 := if StartsWith(h, HomePrefix) then r2.(repoUrl := Some(h)) else r2;
      var (valid, code) := CheckUrl(env, h);
      Check(r3, Rule(valid, error := Some("URL in `home` is invalid, status code " + IntToString(code) + " - `" + h + "`")))
  }

  // ---------------------------------------------------------------------------
  // icon, keywords, type

  function IconHostRule(icon: string): Rule {
    Rule(StartsWith(icon, IconPrefix),
         warning := Some("Icon URL should start with `" + IconPrefix + "` (is " + icon + ")"),
         accolade := Some("Icon is hosted on our server s.giantswarm.io"))
  }

  function IconUrlRule(env: Env, icon: string): Rule {
    var (valid, code) := CheckUrl(env, icon);
    Rule(valid, error := Some("Icon URL is invalid, status code " + IntToString(code) + " - `" + icon + "`"))
  }

  function IconFormatRule(icon: string): Rule {
    Rule(EndsWith(Lower(icon), ".svg"),
         warning := Some("Icon should use the SVG format - currently: `" + icon + "`"),
         accolade := Some("Icon is in the SVG format"))
  }

  function KeywordRule(env: Env, kw: string): Rule {
    Rule(env.keywordMatches(kw), warning := Some("Keyword doesn't match the expected format: `" + kw + "`"))
  }

  function KeywordRules(env: Env, keywords: seq<string>): seq<Rule> {
    seq(|keywords|, i requires 0 <= i < |keywords| => KeywordRule(env, keywords[i]))
  }

  function TypeRule(t: string): Rule {
    Rule(t == "application", error := Some("Chart field `type` should be `application` but is `" + t + "` instead"))
  }

  /** The three icon rules, when there is an icon. */
  function IconStage(r: Report, rel: Release, env: Env): (r': Report)
    ensures r'.repoUrl == r.repoUrl && r'.owner == r.owner
  {
    if rel.icon.None? then r
    else
      var icon := rel.icon.value;
      Check(Check(Check(r, IconHostRule(icon)), IconUrlRule(env, icon)), IconFormatRule(icon))
  }

  /** An empty keyword list is an error; otherwise each keyword is matched. */
  function KeywordStage(r: Report, rel: Release, env: Env): (r': Report)
    ensures r'.repoUrl == r.repoUrl && r'.owner == r.owner
  {
    if rel.keywords.None? then r
    else
      var ks := rel.keywords.value;
      var r1 := Check(r, Rule(|ks| > 0, error := Some("Keywords list is empty")));
      if |ks| > 0 then CheckAll(r1, KeywordRules(env, ks)) else r1
  }

  function TypeStage(r: Report, rel: Release): (r': Report)
    ensures r'.repoUrl == r.repoUrl && r'.owner == r.owner
  {
    if rel.chartType.None? then r else Check(r, TypeRule(rel.chartType.value))
  }

  /** The icon, keyword and `type` rules. */
  function ChartStage(r: Report, rel: Release, env: Env): (r': Report)
    ensures r'.repoUrl == r.repoUrl && r'.owner == r.owner
  {
    TypeStage(KeywordStage(IconStage(r, rel, env), rel, env), rel)
  }

  // ---------------------------------------------------------------------------
  // annotations

  /** The README findings merged into the report. */
  function MergeReadme(r: Report, f: ReadmeFindings): (r': Report)
    ensures Appends(r, r') && r'.repoUrl == r.repoUrl && r'.owner == r.owner
  {
    r.(errors := r.errors + f.errors, warnings := r.warnings + f.warnings, accolades := r.accolades + f.accolades)
  }

  /**
   * One turn of the annotation loop. The error message of the URL check
   * reads `release["home"]` whether or not the URL is valid, so a present
   * annotation without `home` raises `KeyError`.
   */
  function AnnotationStep(r: Report, rel: Release, env: Env, m: map<string, string>, key: string): (out: Outcome<Report>)
    ensures out.Done? ==> Appends(r, out.value) && out.value.repoUrl == r.repoUrl && out.value.owner == r.owner
  {
    var r1 := Check(r, Rule(key in m, warning := Some("Annotation `" + key + "` should be set")));
    if key !in m then Done(r1)
    else if rel.home.None? then Raised(KeyError("home"))
    else
      var url := m[key];
      var (valid, code) := CheckUrl(env, url);
      var r2 := Check(r1, Rule(valid, error := Some("URL in annotation `" + key + "` is invalid, status code "
                                                    + IntToString(code) + " - `" + rel.home.value + "`")));
      if !valid || key != ReadmeAnnotation then Done(r2)
      else
        var r3 :=
          if rel.version.None? then r2
          else Check(r2, Rule(Contains(url, rel.version.value),
                              warning := Some("README URL " + url + " does not appear to be versioned"),
                              accolade := Some("README URL appears to be versioned")));
        match ReadmeSpec(url, env.get(url))
        case Raised(e) => Raised(e)
        case Done(f) => Done(MergeReadme(r3, f))
  }

  /** The annotation loop over `keys`, stopping at the first exception. */
  function AnnotationSteps(r: Report, rel: Release, env: Env, m: map<string, string>, keys: seq<string>): (out: Outcome<Report>)
    ensures out.Done? ==> Appends(r, out.value) && out.value.repoUrl == r.repoUrl && out.value.owner == r.owner
  {
    if |keys| == 0 then Done(r)
    else
      match AnnotationSteps(r, rel, env, m, keys[..|keys| - 1])
      case Raised(e) => Raised(e)
      case Done(r') =>
        var out := AnnotationStep(r', rel, env, m, keys[|keys| - 1]);
        if out.Done? then AppendsTransitive(r, r', out.value); out else out
  }

  function TeamRule(m: map<string, string>): Rule {
    Rule(TeamAnnotation in m, warning := Some("Annotation `" + TeamAnnotation + "` should be set"),
         accolade := Some("Team ownership is exposed via annotation"))
  }

  function TeamNameRule(team: string): Rule {
    Rule(Contains(team, "-"), warning := Some("Owner name in team annotation `" + team
         + "` does not look like a proper GitHub team name, misses prefix like `team-`"))
  }

  /** The annotation checks, when the release has annotations. */
  function AnnotationStage(r: Report, rel: Release, env: Env): (out: Outcome<Report>)
    ensures out.Done? ==> out.value.repoUrl == r.repoUrl && out.value.owner == r.owner
  {
    if rel.annotations.None? then Done(r)
    else
      var m := rel.annotations.value;
      match AnnotationSteps(r, rel, env, m, CheckedAnnotations)
      case Raised(e) => Raised(e)
      case Done(r') =>
        var r'' := Check(r', TeamRule(m));
        Done(if TeamAnnotation in m then Check(r'', TeamNameRule(m[TeamAnnotation])) else r'')
  }

  /** The owner named by the team annotation. */
  function AnnotationOwner(rel: Release): Option<string> {
    if rel.annotations.Some? && TeamAnnotation in rel.annotations.value then Some(rel.annotations.value[TeamAnnotation])
    else None
  }

  /**
   * Without `home`, the first checked annotation that is present raises
   * `KeyError('home')`; when none is present the loop only warns.
   */
  lemma {:induction false} AnnotationsWithoutHome(r: Report, rel: Release, env: Env, m: map<string, string>, keys: seq<string>)
    requires rel.home.None?
    ensures (exists k :: 0 <= k < |keys| && keys[k] in m) ==> AnnotationSteps(r, rel, env, m, keys) == Raised(KeyError("home"))
    ensures (forall k :: 0 <= k < |keys| ==> keys[k] !in m) ==> AnnotationSteps(r, rel, env, m, keys).Done?
  {
    if |keys| > 0 {
      var init := keys[..|keys| - 1];
      AnnotationsWithoutHome(r, rel, env, m, init);
      if exists k :: 0 <= k < |keys| && keys[k] in m {
        var k :| 0 <= k < |keys| && keys[k] in m;
        if k < |keys| - 1 {
          assert init[k] in m;
        }
      }
      if forall k :: 0 <= k < |keys| ==> keys[k] !in m {
        assert forall k :: 0 <= k < |init| ==> init[k] == keys[k];
      }
    }
  }

  // ---------------------------------------------------------------------------
  // created, deprecated

  /** `int(x)`: truncation toward zero. */
  function Truncate(x: real): int {
    if x >= 0.0 then x.Floor else -((-x).Floor)
  }

  /** The age in days, `age.total_seconds() / 60 / 60 / 24`. */
  function Days(seconds: int): real {
    seconds as real / SecondsPerDay as real
  }

  /** The whole days of an age are the integer quotient of its seconds, rounded toward zero. */
  lemma WholeDaysQuotient(seconds: int)
    ensures seconds >= 0 ==> Truncate(Days(seconds)) == seconds / SecondsPerDay
    ensures seconds < 0 ==> Truncate(Days(seconds)) == -((-seconds) / SecondsPerDay)
  {
    var q := if seconds >= 0 then seconds / SecondsPerDay else (-seconds) / SecondsPerDay;
    var a := if seconds >= 0 then seconds else -seconds;
    assert q * SecondsPerDay <= a < (q + 1) * SecondsPerDay;
    assert (q * SecondsPerDay) as real == q as real * SecondsPerDay as real;
    assert ((q + 1) * SecondsPerDay) as real == (q + 1) as real * SecondsPerDay as real;
    assert q as real <= a as real / SecondsPerDay as real < (q + 1) as real;
  }

  /** `days <= 100` holds exactly for ages up to 100 days of seconds. */
  lemma FreshThreshold(seconds: int)
    ensures Days(seconds) <= 100.0 <==> seconds <= 100 * SecondsPerDay
  {
  }

  function AgeRule(days: real): Rule {
    Rule(days <= 100.0, warning := Some("Latest release is older than 100 days"),
         accolade := Some("Latest release is fresh (" + IntToString(Truncate(days)) + " days old)"))
  }

  /** The age rule; an unparsable timestamp raises `ValueError`. */
  function CreatedStage(r: Report, rel: Release, env: Env): (out: Outcome<Report>)
    ensures out.Done? ==> Appends(r, out.value) && out.value.repoUrl == r.repoUrl && out.value.owner == r.owner
  {
    if rel.created.None? then Done(r)
    else
      match env.age(rel.created.value)
      case Unparsable(reason) => Raised(ValueError(reason))
      case Seconds(s) =>
        Done(Check(r, AgeRule(Days(s))))
  }

  function DeprecatedStage(r: Report, rel: Release): (r': Report)
    ensures r'.repoUrl == r.repoUrl && r'.owner == r.owner
  {
    if rel.deprecated == Some(true) then r.(warnings := r.warnings + ["Latest release is marked as deprecated"]) else r
  }

  // ---------------------------------------------------------------------------
  // URLs in sources, urls and maintainers; duplicates

  /** The error for a URL listed in `place` whose check fails with `code`. */
  function InvalidUrl(place: string, code: int, url: string): string {
    "URL in " + place + " is invalid, status code " + IntToString(code) + " - `" + url + "`"
  }

  /** The check of one URL listed under `field`. */
  function UrlRule(env: Env, field: string, url: string): Rule {
    var (valid, code) := CheckUrl(env, url);
    Rule(valid, error := Some(InvalidUrl("`" + field + "`", code, url)))
  }

  function UrlRules(env: Env, field: string, urls: seq<string>): (rules: seq<Rule>)
    ensures |rules| == |urls|
    ensures forall i :: 0 <= i < |urls| ==> rules[i] == UrlRule(env, field, urls[i])
  {
    if |urls| == 0 then [] else UrlRules(env, field, urls[..|urls| - 1]) + [UrlRule(env, field, urls[|urls| - 1])]
  }

  /** The check of one maintainer URL. */
  function MaintainerRule(env: Env, url: string): Rule {
    var (valid, code) := CheckUrl(env, url);
    Rule(valid, error := Some(InvalidUrl("maintainer", code, url)))
  }

  function MaintainerRules(env: Env, urls: seq<string>): (rules: seq<Rule>)
    ensures |rules| == |urls|
    ensures forall i :: 0 <= i < |urls| ==> rules[i] == MaintainerRule(env, urls[i])
  {
    if |urls| == 0 then [] else MaintainerRules(env, urls[..|urls| - 1]) + [MaintainerRule(env, urls[|urls| - 1])]
  }

  /** The URLs whose check fails, in their order. */
  function FailingUrls(env: Env, urls: seq<string>): (fs: seq<string>)
    ensures forall u :: u in fs <==> u in urls && !CheckUrl(env, u).0
  {
    if |urls| == 0 then []
    else
      var u := urls[|urls| - 1];
      assert urls == urls[..|urls| - 1] + [u];
      FailingUrls(env, urls[..|urls| - 1]) + (if CheckUrl(env, u).0 then [] else [u])
  }

  /** The errors for the failing URLs `us`, one each, in their order. */
  function InvalidUrls(env: Env, place: string, us: seq<string>): (ms: seq<string>)
    ensures |ms| == |us|
    ensures forall i :: 0 <= i < |us| ==> ms[i] == InvalidUrl(place, CheckUrl(env, us[i]).1, us[i])
  {
    if |us| == 0 then []
    else
      var n := |us| - 1;
      assert forall i :: 0 <= i < n ==> us[..n][i] == us[i];
      InvalidUrls(env, place, us[..n]) + [InvalidUrl(place, CheckUrl(env, us[n]).1, us[n])]
  }

  lemma InvalidUrlsSnoc(env: Env, place: string, us: seq<string>, u: string)
    ensures InvalidUrls(env, place, us + [u]) == InvalidUrls(env, place, us) + [InvalidUrl(place, CheckUrl(env, u).1, u)]
  {
    assert (us + [u])[..|us|] == us;
  }

  /**
   * The URL rules of one field give an error for each URL whose check
   * fails, in order.
   */
  lemma {:induction false} UrlRulesFindings(env: Env, field: string, urls: seq<string>)
    ensures ErrorsOf(UrlRules(env, field, urls)) == InvalidUrls(env, "`" + field + "`", FailingUrls(env, urls))
  {
    if |urls| > 0 {
      var init, u := urls[..|urls| - 1], urls[|urls| - 1];
      UrlRulesFindings(env, field, init);
      OfSnoc(UrlRules(env, field, init), UrlRule(env, field, u));
      if !CheckUrl(env, u).0 {
        InvalidUrlsSnoc(env, "`" + field + "`", FailingUrls(env, init), u);
      } else {
        assert FailingUrls(env, urls) == FailingUrls(env, init) + [];
      }
    }
  }

  /** The rules of `UrlRules` add nothing but errors. */
  lemma UrlRulesOnlyErrors(env: Env, field: string, urls: seq<string>)
    ensures WarningsOf(UrlRules(env, field, urls)) == [] && SuggestionsOf(UrlRules(env, field, urls)) == []
    ensures AccoladesOf(UrlRules(env, field, urls)) == []
  {
    OnlyErrors(UrlRules(env, field, urls));
  }

  /** The same for the maintainer URLs. */
  lemma {:induction false} MaintainerRulesFindings(env: Env, urls: seq<string>)
    ensures ErrorsOf(MaintainerRules(env, urls)) == InvalidUrls(env, "maintainer", FailingUrls(env, urls))
  {
    if |urls| > 0 {
      var init, u := urls[..|urls| - 1], urls[|urls| - 1];
      MaintainerRulesFindings(env, init);
      OfSnoc(MaintainerRules(env, init), MaintainerRule(env, u));
      if !CheckUrl(env, u).0 {
        InvalidUrlsSnoc(env, "maintainer", FailingUrls(env, init), u);
      } else {
        assert FailingUrls(env, urls) == FailingUrls(env, init) + [];
      }
    }
  }

  /** The rules of `MaintainerRules` add nothing but errors. */
  lemma MaintainerRulesOnlyErrors(env: Env, urls: seq<string>)
    ensures WarningsOf(MaintainerRules(env, urls)) == [] && SuggestionsOf(MaintainerRules(env, urls)) == []
    ensures AccoladesOf(MaintainerRules(env, urls)) == []
  {
    OnlyErrors(MaintainerRules(env, urls));
  }

  /** The `url`s of the maintainers that have one, in order. */
  function MaintainerUrls(ms: seq<Maintainer>): seq<string> {
    if |ms| == 0 then []
    else MaintainerUrls(ms[..|ms| - 1]) + (if ms[|ms| - 1].url.Some? then [ms[|ms| - 1].url.value] else [])
  }

  function MaintainersOf(rel: Release): seq<Maintainer> {
    if rel.maintainers.Some? then rel.maintainers.value else []
  }

  /** The URL checks of `sources`, `urls` and the maintainers. */
  function UrlStage(r: Report, rel: Release, env: Env): (r': Report)
    ensures r'.repoUrl == r.repoUrl && r'.owner == r.owner
  {
    var r1 := CheckAll(r, UrlRules(env, "sources", Entries(rel.sources)));
    var r2 := CheckAll(r1, UrlRules(env, "urls", Entries(rel.urls)));
    CheckAll(r2, MaintainerRules(env, MaintainerUrls(MaintainersOf(rel))))
  }

  /**
   * The URL stage adds exactly the errors of the failing URLs of `sources`,
   * then `urls`, then the maintainers, and no other message.
   */
  lemma UrlStageFindings(r: Report, rel: Release, env: Env)
    ensures UrlStage(r, rel, env).errors == r.errors
      + InvalidUrls(env, "`sources`", FailingUrls(env, Entries(rel.sources)))
      + InvalidUrls(env, "`urls`", FailingUrls(env, Entries(rel.urls)))
      + InvalidUrls(env, "maintainer", FailingUrls(env, MaintainerUrls(MaintainersOf(rel))))
    ensures UrlStage(r, rel, env).warnings == r.warnings && UrlStage(r, rel, env).suggestions == r.suggestions
    ensures UrlStage(r, rel, env).accolades == r.accolades
  {
    var cs1 := UrlRules(env, "sources", Entries(rel.sources));
    var cs2 := UrlRules(env, "urls", Entries(rel.urls));
    var cs3 := MaintainerRules(env, MaintainerUrls(MaintainersOf(rel)));
    assert "`" + "sources" + "`" == "`sources`" && "`" + "urls" + "`" == "`urls`";
    UrlRulesFindings(env, "sources", Entries(rel.sources));
    UrlRulesFindings(env, "urls", Entries(rel.urls));
    MaintainerRulesFindings(env, MaintainerUrls(MaintainersOf(rel)));
    UrlRulesOnlyErrors(env, "sources", Entries(rel.sources));
    UrlRulesOnlyErrors(env, "urls", Entries(rel.urls));
    MaintainerRulesOnlyErrors(env, MaintainerUrls(MaintainersOf(rel)));
    CheckAllThree(r, cs1, cs2, cs3);
  }

  /** Three runs of rules append, list by list, what the three runs emit. */
  lemma CheckAllThree(r: Report, cs1: seq<Rule>, cs2: seq<Rule>, cs3: seq<Rule>)
    ensures var r' := CheckAll(CheckAll(CheckAll(r, cs1), cs2), cs3);
      r'.errors == r.errors + ErrorsOf(cs1) + ErrorsOf(cs2) + ErrorsOf(cs3) &&
      r'.warnings == r.warnings + WarningsOf(cs1) + WarningsOf(cs2) + WarningsOf(cs3) &&
      r'.suggestions == r.suggestions + SuggestionsOf(cs1) + SuggestionsOf(cs2) + SuggestionsOf(cs3) &&
      r'.accolades == r.accolades + AccoladesOf(cs1) + AccoladesOf(cs2) + AccoladesOf(cs3)
  {
    var r1 := CheckAll(r, cs1);
    var r2 := CheckAll(r1, cs2);
    CheckAllLists(r, cs1);
    CheckAllLists(r1, cs2);
    CheckAllLists(r2, cs3);
  }

  /** The URLs collected for duplicate detection: `home`, `sources`, `urls` and maintainer URLs, but not `icon`. */
  function CollectedUrls(rel: Release): seq<string> {
    (if rel.home.Some? then [rel.home.value] else []) + Entries(rel.sources) + Entries(rel.urls)
      + MaintainerUrls(MaintainersOf(rel))
  }

  function DuplicateMessage(url: string): string {
    "URL is used in more than one field: `" + url + "`"
  }

  function DuplicateRules(urls: seq<string>, dupes: set<string>): seq<Rule> {
    seq(|urls|, i requires 0 <= i < |urls| => Rule(urls[i] !in dupes, warning := Some(DuplicateMessage(urls[i]))))
  }

  /** The duplicate-URL warnings, when there are duplicates. */
  function DuplicateStage(r: Report, urls: seq<string>): (r': Report)
    ensures r'.repoUrl == r.repoUrl && r'.owner == r.owner
  {
    var dupes := DuplicateSet(urls);
    if |dupes| > 0 then CheckAll(r, DuplicateRules(urls, dupes)) else r
  }

  function DuplicateMessages(urls: seq<string>): seq<string> {
    if |urls| == 0 then [] else DuplicateMessages(urls[..|urls| - 1]) + [DuplicateMessage(urls[|urls| - 1])]
  }

  /** The duplicate rules warn once for each entry that is a duplicate, and do nothing else. */
  lemma DuplicateRulesWarn(urls: seq<string>, dupes: set<string>)
    ensures WarningsOf(DuplicateRules(urls, dupes)) == DuplicateMessages(Flagged(urls, dupes))
    ensures ErrorsOf(DuplicateRules(urls, dupes)) == [] && SuggestionsOf(DuplicateRules(urls, dupes)) == []
    ensures AccoladesOf(DuplicateRules(urls, dupes)) == []
  {
    DuplicateWarningsOf(urls, dupes);
    OnlyWarnings(DuplicateRules(urls, dupes));
  }

  lemma {:induction false} DuplicateWarningsOf(urls: seq<string>, dupes: set<string>)
    ensures WarningsOf(DuplicateRules(urls, dupes)) == DuplicateMessages(Flagged(urls, dupes))
  {
    if |urls| > 0 {
      var init := urls[..|urls| - 1];
      var u := urls[|urls| - 1];
      var c := Rule(u !in dupes, warning := Some(DuplicateMessage(u)));
      DuplicateWarningsOf(init, dupes);
      DuplicateRulesSnoc(urls, dupes);
      OfSnoc(DuplicateRules(init, dupes), c);
      if u in dupes {
        assert Flagged(urls, dupes) == Flagged(init, dupes) + [u];
        DuplicateMessagesSnoc(Flagged(init, dupes), u);
      } else {
        assert Flagged(urls, dupes) == Flagged(init, dupes);
      }
    }
  }

  lemma DuplicateRulesSnoc(urls: seq<string>, dupes: set<string>)
    requires |urls| > 0
    ensures var u := urls[|urls| - 1];
      DuplicateRules(urls, dupes) == DuplicateRules(urls[..|urls| - 1], dupes) + [Rule(u !in dupes, warning := Some(DuplicateMessage(u)))]
  {
  }

  lemma DuplicateMessagesSnoc(us: seq<string>, u: string)
    ensures DuplicateMessages(us + [u]) == DuplicateMessages(us) + [DuplicateMessage(u)]
  {
    assert (us + [u])[..|us|] == us;
  }

  /** With no duplicates nothing is flagged. */
  lemma NothingFlagged(urls: seq<string>)
    ensures Flagged(urls, {}) == []
  {
  }

  /**
   * The duplicate stage adds exactly one warning per occurrence of a URL
   * that occurs more than once, in the order of the URLs, and nothing else.
   */
  lemma DuplicateWarnings(r: Report, urls: seq<string>)
    ensures DuplicateStage(r, urls) == r.(warnings := r.warnings + DuplicateMessages(Flagged(urls, DuplicateSet(urls))))
  {
    var dupes := DuplicateSet(urls);
    if |dupes| == 0 {
      assert dupes == {};
      NothingFlagged(urls);
    } else {
      DuplicateRulesWarn(urls, dupes);
      CheckAllLists(r, DuplicateRules(urls, dupes));
      var r' := CheckAll(r, DuplicateRules(urls, dupes));
      assert r'.errors == r.errors && r'.suggestions == r.suggestions && r'.accolades == r.accolades;
    }
  }

  /** The icon takes no part in duplicate detection: changing it leaves the collected URLs and the duplicate warnings as they are. */
  lemma IconIgnoredByDuplicates(r: Report, rel: Release, icon: Option<string>)
    ensures CollectedUrls(rel.(icon := icon)) == CollectedUrls(rel)
    ensures DuplicateStage(r, CollectedUrls(rel.(icon := icon))) == DuplicateStage(r, CollectedUrls(rel))
  {
    assert MaintainersOf(rel.(icon := icon)) == MaintainersOf(rel);
  }

  /** The icon takes no part in duplicate detection: a `home` reused as `icon` is never flagged. */
  lemma IconNotCollected(rel: Release)
    requires rel.home.Some? && rel.icon == rel.home
    requires rel.sources.None? && rel.urls.None? && rel.maintainers.None?
    ensures DuplicateSet(CollectedUrls(rel)) == {}
  {
    var urls := CollectedUrls(rel);
    assert urls == [rel.home.value];
    assert forall x :: multiset(urls)[x] <= 1;
  }

  // ---------------------------------------------------------------------------
  // the GitHub repository, CODEOWNERS and owners

  /** The `owner_codeowners` value: one team name as a string, otherwise the list of matches. */
  datatype CodeownersOwner = Team(name: string) | Teams(names: seq<string>)

  /**
   * `owner_codeowners`: set only when the repository exists and has a
   * `CODEOWNERS` file. `findall` always gives a list, so the
   * "no team name" branch (`matches is None`) is never taken.
   */
  function CodeownersOf(handle: Option<string>, env: Env): Option<CodeownersOwner> {
    if handle.None? || !env.repoExists(handle.value) then None
    else
      match env.repoFile(handle.value, "CODEOWNERS")
      case None => None
      case Some(text) =>
        var matches := env.teamMatches(text);
        if |matches| == 1 then Some(Team(matches[0])) else Some(Teams(matches))
  }

  function RepoFileStep(r: Report, h: string, env: Env, path: string): (r': Report)
    ensures Appends(r, r') && r'.repoUrl == r.repoUrl && r'.owner == r.owner
  {
    if env.repoFile(h, path).None? then r.(warnings := r.warnings + ["Repo " + h + " should have a `" + path + "` file"])
    else r.(accolades := r.accolades + ["Repo " + h + " has a `" + path + "` file"])
  }

  function RepoFileSteps(r: Report, h: string, env: Env, paths: seq<string>): (r': Report)
    ensures Appends(r, r') && r'.repoUrl == r.repoUrl && r'.owner == r.owner
  {
    if |paths| == 0 then r
    else
      var r1 := RepoFileSteps(r, h, env, paths[..|paths| - 1]);
      var r2 := RepoFileStep(r1, h, env, paths[|paths| - 1]);
      AppendsTransitive(r, r1, r2);
      r2
  }

  /** The repository checks: no handle is an error, a missing repository is silent. */
  function RepoStage(r: Report, handle: Option<string>, env: Env): (r': Report)
    ensures Appends(r, r') && r'.repoUrl == r.repoUrl && r'.owner == r.owner
  {
    if handle.None? then r.(errors := r.errors + ["Could not detect GitHub repo for this app"])
    else
      var h := handle.value;
      if !env.repoExists(h) then r
      else
        var r1 :=
          if env.repoFile(h, "CODEOWNERS").None? then r.(warnings := r.warnings + ["Repo " + h + " should have a `CODEOWNERS` file"])
          else r.(accolades := r.accolades + ["Repo " + h + " has a `CODEOWNERS` file"]);
        RepoFileSteps(r1, h, env, RepoFiles)
  }

  /** A repository that does not exist contributes no finding and no owner. */
  lemma MissingRepoSilent(r: Report, h: string, env: Env)
    requires !env.repoExists(h)
    ensures RepoStage(r, Some(h), env) == r
    ensures CodeownersOf(Some(h), env) == None
  {
  }

  /** The paths the repository lacks, in order. */
  function MissingFiles(h: string, env: Env, paths: seq<string>): (ms: seq<string>)
    ensures forall p :: p in ms <==> p in paths && env.repoFile(h, p).None?
  {
    if |paths| == 0 then []
    else
      var p := paths[|paths| - 1];
      assert paths == paths[..|paths| - 1] + [p];
      MissingFiles(h, env, paths[..|paths| - 1]) + (if env.repoFile(h, p).None? then [p] else [])
  }

  /** The paths the repository has, in order. */
  function PresentFiles(h: string, env: Env, paths: seq<string>): (ps: seq<string>)
    ensures forall p :: p in ps <==> p in paths && env.repoFile(h, p).Some?
  {
    if |paths| == 0 then []
    else
      var p := paths[|paths| - 1];
      assert paths == paths[..|paths| - 1] + [p];
      PresentFiles(h, env, paths[..|paths| - 1]) + (if env.repoFile(h, p).Some? then [p] else [])
  }

  /** "should have" for each path, in order. */
  function ShouldHave(h: string, paths: seq<string>): (ms: seq<string>)
    ensures |ms| == |paths|
    ensures forall i :: 0 <= i < |paths| ==> ms[i] == "Repo " + h + " should have a `" + paths[i] + "` file"
  {
    if |paths| == 0 then [] else ShouldHave(h, paths[..|paths| - 1]) + ["Repo " + h + " should have a `" + paths[|paths| - 1] + "` file"]
  }

  /** "has" for each path, in order. */
  function Has(h: string, paths: seq<string>): (ms: seq<string>)
    ensures |ms| == |paths|
    ensures forall i :: 0 <= i < |paths| ==> ms[i] == "Repo " + h + " has a `" + paths[i] + "` file"
  {
    if |paths| == 0 then [] else Has(h, paths[..|paths| - 1]) + ["Repo " + h + " has a `" + paths[|paths| - 1] + "` file"]
  }

  /** Every path is either missing or present. */
  lemma {:induction false} MissingOrPresent(h: string, env: Env, paths: seq<string>)
    ensures |MissingFiles(h, env, paths)| + |PresentFiles(h, env, paths)| == |paths|
  {
    if |paths| > 0 {
      MissingOrPresent(h, env, paths[..|paths| - 1]);
    }
  }

  /**
   * The file checks warn exactly about the missing files and praise exactly
   * the present ones, each in order; so each file gives one warning or one
   * accolade.
   */
  lemma {:induction false} RepoFileCount(r: Report, h: string, env: Env, paths: seq<string>)
    ensures var r' := RepoFileSteps(r, h, env, paths);
      r'.warnings == r.warnings + ShouldHave(h, MissingFiles(h, env, paths)) &&
      r'.accolades == r.accolades + Has(h, PresentFiles(h, env, paths)) &&
      r'.errors == r.errors && r'.suggestions == r.suggestions
    ensures var r' := RepoFileSteps(r, h, env, paths);
      |r'.warnings| + |r'.accolades| == |r.warnings| + |r.accolades| + |paths|
  {
    MissingOrPresent(h, env, paths);
    if |paths| > 0 {
      var init, p := paths[..|paths| - 1], paths[|paths| - 1];
      RepoFileCount(r, h, env, init);
      var r1 := RepoFileSteps(r, h, env, init);
      var ms, ps := MissingFiles(h, env, init), PresentFiles(h, env, init);
      FilesSnoc(h, env, paths);
      if env.repoFile(h, p).None? {
        ShouldHaveSnoc(h, ms, p);
        AppendAssoc(r.warnings, ShouldHave(h, ms), ["Repo " + h + " should have a `" + p + "` file"]);
        assert ps + [] == ps;
      } else {
        HasSnoc(h, ps, p);
        AppendAssoc(r.accolades, Has(h, ps), ["Repo " + h + " has a `" + p + "` file"]);
        assert ms + [] == ms;
      }
    }
  }

  lemma FilesSnoc(h: string, env: Env, paths: seq<string>)
    requires |paths| > 0
    ensures var init, p := paths[..|paths| - 1], paths[|paths| - 1];
      MissingFiles(h, env, paths) == MissingFiles(h, env, init) + (if env.repoFile(h, p).None? then [p] else []) &&
      PresentFiles(h, env, paths) == PresentFiles(h, env, init) + (if env.repoFile(h, p).Some? then [p] else [])
  {
  }

  lemma ShouldHaveSnoc(h: string, ps: seq<string>, p: string)
    ensures ShouldHave(h, ps + [p]) == ShouldHave(h, ps) + ["Repo " + h + " should have a `" + p + "` file"]
  {
    assert (ps + [p])[..|ps|] == ps;
  }

  lemma HasSnoc(h: string, ps: seq<string>, p: string)
    ensures Has(h, ps + [p]) == Has(h, ps) + ["Repo " + h + " has a `" + p + "` file"]
  {
    assert (ps + [p])[..|ps|] == ps;
  }

  /** The elements of a list, as a set. */
  function Elements(xs: seq<string>): set<string> {
    set x | x in xs
  }

  /** The owner set: the team annotation together with the CODEOWNERS teams. */
  function OwnerSet(annotation: Option<string>, codeowners: Option<CodeownersOwner>): set<string> {
    (if annotation.Some? then {annotation.value} else {}) +
    (if codeowners.None? then {}
     else match codeowners.value
       case Team(t) => {t}
       case Teams(ts) => Elements(ts))
  }

  function Owners(rel: Release, env: Env): set<string> {
    OwnerSet(AnnotationOwner(rel), CodeownersOf(RepoHandle(rel), env))
  }

  /** The only element of a singleton set. */
  function Only(s: set<string>): (x: string)
    requires |s| == 1
    ensures s == {x}
  {
    var x :| x in s;
    SingletonIs(s, x);
    x
  }

  lemma SingletonIs(s: set<string>, x: string)
    requires |s| == 1 && x in s
    ensures s == {x}
  {
    assert |s - {x}| == 0;
  }

  /** The owner verdict, which also sets `owner` for a single owner. */
  function OwnerStage(r: Report, owners: set<string>, env: Env): (r': Report)
    ensures Appends(r, r') && r'.repoUrl == r.repoUrl
  {
    if |owners| == 1 then
      r.(accolades := r.accolades + ["App data exposes a single owner `" + Only(owners) + "`"], owner := Some(Only(owners)))
    else if |owners| > 1 then
      r.(errors := r.errors + ["App data exposes various owners `" + Join(" ", env.listing(owners)) + "`"])
    else
      r.(errors := r.errors + ["App does not have a visible owner"])
  }

  /**
   * A single owner gives one accolade and becomes `owner`; no owner or
   * several give one error and leave `owner` as it was.
   */
  lemma OwnerClassification(r: Report, owners: set<string>, env: Env)
    ensures var r' := OwnerStage(r, owners, env);
      Size(r') == Size(r) + 1 && r'.suggestions == r.suggestions && r'.warnings == r.warnings &&
      (|owners| == 1 <==> |r'.accolades| == |r.accolades| + 1) &&
      (|owners| == 1 ==> exists x :: owners == {x} && r'.owner == Some(x) &&
                                   r'.accolades == r.accolades + ["App data exposes a single owner `" + x + "`"]) &&
      (owners == {} ==> r'.errors == r.errors + ["App does not have a visible owner"] && r'.owner == r.owner) &&
      (|owners| > 1 ==> |r'.errors| == |r.errors| + 1 && r'.owner == r.owner)
  {
    if |owners| == 1 {
      var x := Only(owners);
      assert owners == {x};
    }
  }

  /** An annotation team that also appears as the single CODEOWNERS team counts once. */
  lemma SameOwnerCountsOnce(t: string)
    ensures OwnerSet(Some(t), Some(Team(t))) == {t}
    ensures OwnerSet(Some(t), Some(Teams([t, t]))) == {t}
    ensures OwnerSet(Some(t), Some(Teams([]))) == {t}
    ensures OwnerSet(None, Some(Teams([]))) == {}
  {
    assert Elements([t, t]) == {t};
    assert Elements([]) == {};
  }

  // ---------------------------------------------------------------------------
  // the whole release

  /** What `validate_app_release(release)` returns or raises. */
  function ReleaseSpec(rel: Release, env: Env): (out: Outcome<Report>)
    ensures out == Raised(KeyError("apiVersion")) <==> rel.apiVersion.None?
    ensures rel.apiVersion.Some? && rel.name.None? ==> out == Raised(KeyError("name"))
  {
    if rel.apiVersion.None? then Raised(KeyError("apiVersion"))
    else if rel.name.None? then Raised(KeyError("name"))
    else AfterChart(EarlyStages(rel, env), rel, env)
  }

  /**
   * Besides the two `KeyError`s for `apiVersion` and `name`, only
   * `KeyError('home')`, a failed README fetch and the `ValueError` of an
   * unparsable `created` leave `validate_app_release`.
   */
  lemma ReleaseSpecRaises(rel: Release, env: Env)
    ensures var out := ReleaseSpec(rel, env);
      out.Raised? ==>
        out.exception in {KeyError("apiVersion"), KeyError("name"), KeyError("home")} || out.exception.RequestError? ||
        (out.exception.ValueError? && rel.created.Some? && env.age(rel.created.value) == Unparsable(out.exception.message))
  {
  }

  /**
   * A completed report has `repo_url` = `home` exactly when a GitHub handle
   * was found, and otherwise the "Could not detect" error.
   */
  lemma ReleaseSpecRepoUrl(rel: Release, env: Env)
    ensures var out := ReleaseSpec(rel, env);
      out.Done? ==> out.value.repoUrl == (if RepoHandle(rel).Some? then rel.home else None)
    ensures var out := ReleaseSpec(rel, env);
      out.Done? && RepoHandle(rel).None? ==> "Could not detect GitHub repo for this app" in out.value.errors
  {
  }

  /** The `owner` of a completed report is `x` exactly when the owner set is `{x}`. */
  lemma ReleaseSpecOwner(rel: Release, env: Env)
    ensures var out := ReleaseSpec(rel, env);
      out.Done? ==> forall x :: out.value.owner == Some(x) <==> Owners(rel, env) == {x}
  {
  }

  /** The field, `home` and chart checks, which raise nothing once `apiVersion` and `name` are present. */
  function EarlyStages(rel: Release, env: Env): (r: Report)
    requires rel.apiVersion.Some? && rel.name.Some?
    ensures r.repoUrl == (if RepoHandle(rel).Some? then rel.home else None) && r.owner == None
  {
    ChartStage(HomeStage(FieldStage(Empty, rel), rel, env), rel, env)
  }

  /** The annotation checks and everything after them. */
  function AfterChart(r: Report, rel: Release, env: Env): (out: Outcome<Report>)
    ensures out.Raised? ==>
      out.exception == KeyError("home") || out.exception.RequestError? ||
      (out.exception.ValueError? && rel.created.Some? && env.age(rel.created.value) == Unparsable(out.exception.message))
    ensures out.Done? ==> out.value.repoUrl == r.repoUrl
    ensures out.Done? && RepoHandle(rel).None? ==> "Could not detect GitHub repo for this app" in out.value.errors
    ensures out.Done? && r.owner == None ==> forall x :: out.value.owner == Some(x) <==> Owners(rel, env) == {x}
  {
    AnnotationStageRaise(r, rel, env);
    match AnnotationStage(r, rel, env)
    case Raised(e) => Raised(e)
    case Done(r') =>
      match CreatedStage(r', rel, env)
      case Raised(e) => Raised(e)
      case Done(r'') => Done(LateStages(r'', rel, env))
  }

  /** Deprecation, URLs, duplicates, repository and owner: the steps that cannot raise. */
  function LateStages(r: Report, rel: Release, env: Env): (out: Report)
    ensures out.repoUrl == r.repoUrl
    ensures RepoHandle(rel).None? ==> "Could not detect GitHub repo for this app" in out.errors
    ensures r.owner == None ==> forall x :: out.owner == Some(x) <==> Owners(rel, env) == {x}
  {
    LateStagesReport(r, rel, env);
    var r1 := DuplicateStage(UrlStage(DeprecatedStage(r, rel), rel, env), CollectedUrls(rel));
    OwnerStage(RepoStage(r1, RepoHandle(rel), env), Owners(rel, env), env)
  }

  /** The annotation loop raises only `KeyError('home')` or a failed README fetch. */
  lemma {:induction false} AnnotationStepsRaise(r: Report, rel: Release, env: Env, m: map<string, string>, keys: seq<string>)
    ensures var out := AnnotationSteps(r, rel, env, m, keys);
      out.Raised? ==> out.exception == KeyError("home") || out.exception.RequestError?
  {
    if |keys| > 0 {
      AnnotationStepsRaise(r, rel, env, m, keys[..|keys| - 1]);
    }
  }

  /** The annotation checks raise what their loop raises. */
  lemma AnnotationStageRaise(r: Report, rel: Release, env: Env)
    ensures var out := AnnotationStage(r, rel, env);
      out.Raised? ==> out.exception == KeyError("home") || out.exception.RequestError?
  {
    if rel.annotations.Some? {
      AnnotationStepsRaise(r, rel, env, rel.annotations.value, CheckedAnnotations);
    }
  }

  /** The late steps report a missing repository handle and set `owner` exactly for a single owner. */
  lemma LateStagesReport(r: Report, rel: Release, env: Env)
    ensures var r5 := RepoStage(DuplicateStage(UrlStage(DeprecatedStage(r, rel), rel, env), CollectedUrls(rel)), RepoHandle(rel), env);
      var out := OwnerStage(r5, Owners(rel, env), env);
      out.repoUrl == r.repoUrl &&
      (RepoHandle(rel).None? ==> "Could not detect GitHub repo for this app" in out.errors) &&
      (r.owner == None ==> forall x :: out.owner == Some(x) <==> Owners(rel, env) == {x})
  {
    var r4 := DuplicateStage(UrlStage(DeprecatedStage(r, rel), rel, env), CollectedUrls(rel));
    var r5 := RepoStage(r4, RepoHandle(rel), env);
    var out := OwnerStage(r5, Owners(rel, env), env);
    if RepoHandle(rel).None? {
      assert r5.errors[|r5.errors| - 1] == "Could not detect GitHub repo for this app";
      assert r5.errors <= out.errors;
    }
    if |Owners(rel, env)| == 1 {
      SingletonIs(Owners(rel, env), Only(Owners(rel, env)));
    }
  }
}
