/**
 * `validate_app_release`: the ordered rule sequence over one release,
 * filling a result record in place, one step per block of the function.
 */
module Validate {
  import opened Wrappers
  import opened Text
  import opened Findings
  import opened Oracles
  import opened Urls
  import opened Duplicates
  import opened Release

  /** The required-field loop. */
  method CheckRequiredFields(r: Results, rel: Release)
    modifies r
    ensures r.Value() == CheckAll(old(r.Value()), RequiredRules(rel, RequiredFields))
  {
    ghost var r0 := r.Value();
    ghost var rules := RequiredRules(rel, RequiredFields);
    for i := 0 to |RequiredFields|
      invariant r.Value() == CheckAll(r0, rules[..i])
    {
      var field := RequiredFields[i];
      CheckAllStep(r0, rules, i);
      r.CheckCondition(Present(rel, field), error := Some("No `" + KeyName(field) + "` given"));
    }
    assert rules[..|RequiredFields|] == rules;
  }

  /** The recommended-field loop. */
  method CheckRecommendedFields(r: Results, rel: Release)
    modifies r
    ensures r.Value() == CheckAll(old(r.Value()), RecommendedRules(rel, RecommendedFields))
  {
    ghost var r0 := r.Value();
    ghost var rules := RecommendedRules(rel, RecommendedFields);
    for i := 0 to |RecommendedFields|
      invariant r.Value() == CheckAll(r0, rules[..i])
    {
      var field := RecommendedFields[i];
      CheckAllStep(r0, rules, i);
      r.CheckCondition(Present(rel, field), warning := Some("No `" + KeyName(field) + "` given"),
                       accolade := Some("Chart specifies the `" + KeyName(field) + "` field"));
    }
    assert rules[..|RecommendedFields|] == rules;
  }

  /** The suggested-field loop. */
  method CheckSuggestedFields(r: Results, rel: Release)
    modifies r
    ensures r.Value() == CheckAll(old(r.Value()), SuggestedRules(rel, SuggestedFields))
  {
    ghost var r0 := r.Value();
    ghost var rules := SuggestedRules(rel, SuggestedFields);
    for i := 0 to |SuggestedFields|
      invariant r.Value() == CheckAll(r0, rules[..i])
    {
      var field := SuggestedFields[i];
      CheckAllStep(r0, rules, i);
      r.CheckCondition(Present(rel, field), suggestion := Some("Specify `" + KeyName(field) + "` attribute"),
                       accolade := Some("Chart specifies the `" + KeyName(field) + "` field"));
    }
    assert rules[..|SuggestedFields|] == rules;
  }

  /** Required, apiVersion, recommended, suggested and additional fields, then `name` and `description`. */
  method CheckFields(r: Results, rel: Release) returns (raised: Option<Exception>)
    modifies r
    ensures raised == FieldsRaise(rel)
    ensures raised.None? ==> r.Value() == FieldStage(old(r.Value()), rel)
  {
    CheckRequiredFields(r, rel);
    // apiVersions
    if rel.apiVersion.None? {
      return Some(KeyError("apiVersion"));
    }
    var api := rel.apiVersion.value;
    r.CheckCondition(api == "v1" || api == "v2", error := Some("Invalid helm chart apiVersion value `" + api + "`"));
    r.CheckCondition(api == "v1", suggestion := Some("Migrate helm chart to apiVersion v2"));
    CheckRecommendedFields(r, rel);
    CheckSuggestedFields(r, rel);
    // additional fields
    r.CheckCondition(rel.dependencies, suggestion := Some("Use `dependencies` to inform about required apps/charts"),
                     accolade := Some("Chart specifies `dependencies`"));
    // deeper evaluations
    if rel.name.None? {
      return Some(KeyError("name"));
    }
    CheckNaming(r, rel, rel.name.value);
    return None;
  }

  /** The `name` and `description` checks. */
  method CheckNaming(r: Results, rel: Release, name: string)
    modifies r
    ensures r.Value() == NamingStage(old(r.Value()), rel, name)
  {
    r.CheckCondition(!EndsWith(name, "-app"), warning := Some("App name should not end with `-app`"));
    if rel.description.Some? {
      var d := rel.description.value;
      r.CheckCondition(!Contains(Lower(d), "helm chart for"),
                       warning := Some("Description should be unique and meaningful (is: `" + d + "`)"));
    }
  }

  /** The `home` checks; collects `home` and derives the repository handle. */
  method CheckHome(r: Results, rel: Release, env: Env, urls: seq<string>) returns (handle: Option<string>, urls': seq<string>)
    modifies r
    ensures handle == RepoHandle(rel)
    ensures urls' == urls + (if rel.home.Some? then [rel.home.value] else [])
    ensures r.Value() == HomeStage(old(r.Value()), rel, env)
  {
    r.CheckCondition(rel.home.Some?, error := Some(
      "Field `home` not set, must be set to a `https://github.com/" + GithubRepoOrg + "/...` repository URL"));
    handle, urls' := None, urls;
    if rel.home.Some? {
      var home := rel.home.value;
      urls' := urls + [home];
      r.CheckCondition(StartsWith(home, HomePrefix),
        warning := Some("URL in `home` should point to a GitHub repo owned by " + GithubRepoOrg + " (is " + home + ")"),
        accolade := Some("URL in `home` points to a GitHub repo owned by " + GithubRepoOrg));
      if StartsWith(home, HomePrefix) {
        var segments := Split(home, '/');
        HomeSegments(home);
        handle := Some(GithubRepoOrg + "/" + segments[4]);
        r.repoUrl := Some(home);
      }
      var (valid, code) := CheckUrl(env, home);
      r.CheckCondition(valid, error := Some("URL in `home` is invalid, status code " + IntToString(code) + " - `" + home + "`"));
    }
  }

  /** The icon checks. */
  method CheckIcon(r: Results, rel: Release, env: Env)
    modifies r
    ensures r.Value() == IconStage(old(r.Value()), rel, env)
  {
    if rel.icon.Some? {
      var icon := rel.icon.value;
      r.CheckCondition(StartsWith(icon, IconPrefix),
        warning := Some("Icon URL should start with `" + IconPrefix + "` (is " + icon + ")"),
        accolade := Some("Icon is hosted on our server s.giantswarm.io"));
      var (valid, code) := CheckUrl(env, icon);
      r.CheckCondition(valid, error := Some("Icon URL is invalid, status code " + IntToString(code) + " - `" + icon + "`"));
      r.CheckCondition(EndsWith(Lower(icon), ".svg"),
        warning := Some("Icon should use the SVG format - currently: `" + icon + "`"),
        accolade := Some("Icon is in the SVG format"));
    }
  }

  /** The keyword checks. */
  method CheckKeywords(r: Results, rel: Release, env: Env)
    modifies r
    ensures r.Value() == KeywordStage(old(r.Value()), rel, env)
  {
    if rel.keywords.Some? {
      var keywords := rel.keywords.value;
      r.CheckCondition(|keywords| > 0, error := Some("Keywords list is empty"));
      if |keywords| > 0 {
        ghost var r0 := r.Value();
        ghost var rules := KeywordRules(env, keywords);
        for i := 0 to |keywords|
          invariant r.Value() == CheckAll(r0, rules[..i])
        {
          var kw := keywords[i];
          CheckAllStep(r0, rules, i);
          r.CheckCondition(env.keywordMatches(kw), warning := Some("Keyword doesn't match the expected format: `" + kw + "`"));
        }
        assert rules[..|keywords|] == rules;
      }
    }
  }

  /** The icon, keyword and `type` checks. */
  method CheckChart(r: Results, rel: Release, env: Env)
    modifies r
    ensures r.Value() == ChartStage(old(r.Value()), rel, env)
  {
    CheckIcon(r, rel, env);
    CheckKeywords(r, rel, env);
    if rel.chartType.Some? {
      var t := rel.chartType.value;
      r.CheckCondition(t == "application", error := Some("Chart field `type` should be `application` but is `" + t + "` instead"));
    }
  }

  /** A loop over annotation keys that has raised raises for the whole list. */
  lemma {:induction false} AnnotationStepsRaisedStays(r: Report, rel: Release, env: Env, m: map<string, string>,
                                                     keys: seq<string>, i: nat, e: Exception)
    requires i <= |keys|
    requires AnnotationSteps(r, rel, env, m, keys[..i]) == Raised(e)
    ensures AnnotationSteps(r, rel, env, m, keys) == Raised(e)
    decreases |keys| - i
  {
    if i < |keys| {
      assert keys[..i + 1][..i] == keys[..i];
      AnnotationStepsRaisedStays(r, rel, env, m, keys, i + 1, e);
    } else {
      assert keys[..i] == keys;
    }
  }

  lemma AnnotationStepsStep(r: Report, rel: Release, env: Env, m: map<string, string>, keys: seq<string>, i: nat, ri: Report)
    requires i < |keys|
    requires AnnotationSteps(r, rel, env, m, keys[..i]) == Done(ri)
    ensures AnnotationSteps(r, rel, env, m, keys[..i + 1]) == AnnotationStep(ri, rel, env, m, keys[i])
  {
    assert keys[..i + 1][..i] == keys[..i];
  }

  /** One turn of the annotation loop, raising where a key is read that the release lacks. */
  method CheckAnnotation(r: Results, rel: Release, env: Env, m: map<string, string>, annotation: string)
    returns (raised: Option<Exception>)
    modifies r
    ensures var out := AnnotationStep(old(r.Value()), rel, env, m, annotation);
      if raised.Some? then out == Raised(raised.value) else out == Done(r.Value())
  {
    r.CheckCondition(annotation in m, warning := Some("Annotation `" + annotation + "` should be set"));
    if annotation in m {
      var url := m[annotation];
      var (valid, code) := CheckUrl(env, url);
      if rel.home.None? {
        return Some(KeyError("home"));
      }
      r.CheckCondition(valid, error := Some("URL in annotation `" + annotation + "` is invalid, status code "
                                            + IntToString(code) + " - `" + rel.home.value + "`"));
      if valid {
        // deeper README analysis
        if annotation == ReadmeAnnotation {
          if rel.version.Some? {
            r.CheckCondition(Contains(url, rel.version.value),
              warning := Some("README URL " + url + " does not appear to be versioned"),
              accolade := Some("README URL appears to be versioned"));
          }
          var readme := ValidateReadme(env, url);
          if readme.Raised? {
            return Some(readme.exception);
          }
          r.Extend(readme.value.errors, readme.value.warnings, readme.value.accolades);
        }
      }
    }
    return None;
  }

  /** The loop over the checked annotation keys, stopping at the first exception. */
  method CheckAnnotationKeys(r: Results, rel: Release, env: Env, m: map<string, string>) returns (raised: Option<Exception>)
    modifies r
    ensures var out := AnnotationSteps(old(r.Value()), rel, env, m, CheckedAnnotations);
      if raised.Some? then out == Raised(raised.value) else out == Done(r.Value())
  {
    ghost var r0 := r.Value();
    for i := 0 to |CheckedAnnotations|
      invariant AnnotationSteps(r0, rel, env, m, CheckedAnnotations[..i]) == Done(r.Value())
    {
      var annotation := CheckedAnnotations[i];
      AnnotationStepsStep(r0, rel, env, m, CheckedAnnotations, i, r.Value());
      raised := CheckAnnotation(r, rel, env, m, annotation);
      if raised.Some? {
        AnnotationStepsRaisedStays(r0, rel, env, m, CheckedAnnotations, i + 1, raised.value);
        return raised;
      }
    }
    assert CheckedAnnotations[..|CheckedAnnotations|] == CheckedAnnotations;
    return None;
  }

  /** The team annotation checks; returns the team it names. */
  method CheckTeam(r: Results, m: map<string, string>) returns (ownerAnnotation: Option<string>)
    modifies r
    ensures ownerAnnotation == (if TeamAnnotation in m then Some(m[TeamAnnotation]) else None)
    ensures var r' := Check(old(r.Value()), TeamRule(m));
      r.Value() == (if TeamAnnotation in m then Check(r', TeamNameRule(m[TeamAnnotation])) else r')
  {
    ownerAnnotation := None;
    r.CheckCondition(TeamAnnotation in m, warning := Some("Annotation `" + TeamAnnotation + "` should be set"),
                     accolade := Some("Team ownership is exposed via annotation"));
    if TeamAnnotation in m {
      ownerAnnotation := Some(m[TeamAnnotation]);
      r.CheckCondition(Contains(m[TeamAnnotation], "-"), warning := Some("Owner name in team annotation `" + m[TeamAnnotation]
                       + "` does not look like a proper GitHub team name, misses prefix like `team-`"));
    }
  }

  /** The annotation checks; also reads the team annotation. */
  method CheckAnnotations(r: Results, rel: Release, env: Env) returns (raised: Option<Exception>, ownerAnnotation: Option<string>)
    modifies r
    ensures raised.None? ==> ownerAnnotation == AnnotationOwner(rel)
    ensures var out := AnnotationStage(old(r.Value()), rel, env);
      if raised.Some? then out == Raised(raised.value) else out == Done(r.Value())
  {
    ownerAnnotation := None;
    if rel.annotations.None? {
      return None, None;
    }
    var m := rel.annotations.value;
    raised := CheckAnnotationKeys(r, rel, env, m);
    if raised.Some? {
      return raised, None;
    }
    ownerAnnotation := CheckTeam(r, m);
  }

  /** The age check; an unparsable timestamp raises `ValueError`. */
  method CheckCreated(r: Results, rel: Release, env: Env) returns (raised: Option<Exception>)
    modifies r
    ensures var out := CreatedStage(old(r.Value()), rel, env);
      if raised.Some? then out == Raised(raised.value) else out == Done(r.Value())
  {
    if rel.created.Some? {
      var age := env.age(rel.created.value);
      if age.Unparsable? {
        return Some(ValueError(age.reason));
      }
      var days := age.seconds as real / SecondsPerDay as real;
      r.CheckCondition(days <= 100.0, warning := Some("Latest release is older than 100 days"),
                       accolade := Some("Latest release is fresh (" + IntToString(Truncate(days)) + " days old)"));
    }
    return None;
  }

  /** The check of one URL listed under `field`. */
  method CheckListedUrl(r: Results, env: Env, field: string, url: string)
    modifies r
    ensures r.Value() == Check(old(r.Value()), UrlRule(env, field, url))
  {
    var (valid, code) := CheckUrl(env, url);
    r.CheckCondition(valid, error := Some(InvalidUrl("`" + field + "`", code, url)));
  }

  /** The URL checks of one list-valued key; collects its URLs. */
  method CheckUrlList(r: Results, env: Env, field: string, list: seq<string>, urls: seq<string>) returns (urls': seq<string>)
    modifies r
    ensures urls' == urls + list
    ensures r.Value() == CheckAll(old(r.Value()), UrlRules(env, field, list))
  {
    ghost var r0 := r.Value();
    ghost var rules: seq<Rule> := [];
    urls' := urls;
    for i := 0 to |list|
      invariant urls' == urls + list[..i]
      invariant rules == UrlRules(env, field, list[..i])
      invariant r.Value() == CheckAll(r0, rules)
    {
      var url := list[i];
      UrlRulesStep(env, field, list, i);
      CheckAllSnoc(r0, rules, UrlRule(env, field, url));
      rules := rules + [UrlRule(env, field, url)];
      TakeSnoc(list, i);
      AppendAssoc(urls, list[..i], [url]);
      urls' := urls' + [url];
      CheckListedUrl(r, env, field, url);
    }
    assert list[..|list|] == list;
  }

  lemma UrlRulesStep(env: Env, field: string, list: seq<string>, i: int)
    requires 0 <= i < |list|
    ensures UrlRules(env, field, list[..i + 1]) == UrlRules(env, field, list[..i]) + [UrlRule(env, field, list[i])]
  {
    assert list[..i + 1][..i] == list[..i];
  }

  lemma MaintainerUrlsStep(ms: seq<Maintainer>, i: int)
    requires 0 <= i < |ms|
    ensures MaintainerUrls(ms[..i + 1]) == MaintainerUrls(ms[..i]) + (if ms[i].url.Some? then [ms[i].url.value] else [])
  {
    assert ms[..i + 1][..i] == ms[..i];
  }

  lemma MaintainerRulesStep(env: Env, found: seq<string>, url: string)
    ensures MaintainerRules(env, found + [url]) == MaintainerRules(env, found) + [MaintainerRule(env, url)]
  {
    assert (found + [url])[..|found|] == found;
  }

  /** The URL checks of the maintainers that have a `url`; collects those URLs. */
  method CheckMaintainers(r: Results, env: Env, ms: seq<Maintainer>, urls: seq<string>) returns (urls': seq<string>)
    modifies r
    ensures urls' == urls + MaintainerUrls(ms)
    ensures r.Value() == CheckAll(old(r.Value()), MaintainerRules(env, MaintainerUrls(ms)))
  {
    ghost var r0 := r.Value();
    ghost var found: seq<string> := [];
    ghost var rules: seq<Rule> := [];
    urls' := urls;
    for i := 0 to |ms|
      invariant found == MaintainerUrls(ms[..i])
      invariant urls' == urls + found
      invariant rules == MaintainerRules(env, found)
      invariant r.Value() == CheckAll(r0, rules)
    {
      var item := ms[i];
      MaintainerUrlsStep(ms, i);
      if item.url.Some? {
        var url := item.url.value;
        MaintainerRulesStep(env, found, url);
        CheckAllSnoc(r0, rules, MaintainerRule(env, url));
        AppendAssoc(urls, found, [url]);
        found, rules := found + [url], rules + [MaintainerRule(env, url)];
        urls' := urls' + [url];
        var (valid, code) := CheckUrl(env, url);
        r.CheckCondition(valid, error := Some(InvalidUrl("maintainer", code, url)));
      }
    }
    assert ms[..|ms|] == ms;
  }

  /** The URL checks of `sources`, `urls` and the maintainers. */
  method CheckFieldUrls(r: Results, rel: Release, env: Env, urls: seq<string>) returns (urls': seq<string>)
    modifies r
    ensures urls' == urls + Entries(rel.sources) + Entries(rel.urls) + MaintainerUrls(MaintainersOf(rel))
    ensures r.Value() == UrlStage(old(r.Value()), rel, env)
  {
    urls' := CheckUrlList(r, env, "sources", Entries(rel.sources), urls);
    urls' := CheckUrlList(r, env, "urls", Entries(rel.urls), urls');
    urls' := CheckMaintainers(r, env, MaintainersOf(rel), urls');
  }

  /** One warning per occurrence of a URL that is used more than once. */
  method CheckDuplicates(r: Results, urls: seq<string>)
    modifies r
    ensures r.Value() == DuplicateStage(old(r.Value()), urls)
  {
    var dupes := GetDuplicates(urls);
    if |dupes| > 0 {
      ghost var r0 := r.Value();
      ghost var rules := DuplicateRules(urls, dupes);
      for i := 0 to |urls|
        invariant r.Value() == CheckAll(r0, rules[..i])
      {
        var url := urls[i];
        CheckAllStep(r0, rules, i);
        r.CheckCondition(url !in dupes, warning := Some("URL is used in more than one field: `" + url + "`"));
      }
      assert rules[..|urls|] == rules;
    }
  }

  /** The repository checks; reads the CODEOWNERS teams. */
  method CheckRepo(r: Results, handle: Option<string>, env: Env) returns (ownerCodeowners: Option<CodeownersOwner>)
    modifies r
    ensures ownerCodeowners == CodeownersOf(handle, env)
    ensures r.Value() == RepoStage(old(r.Value()), handle, env)
  {
    ownerCodeowners := None;
    if handle.None? {
      r.AddError("Could not detect GitHub repo for this app");
      return;
    }
    var h := handle.value;
    if env.repoExists(h) {
      var codeowners := env.repoFile(h, "CODEOWNERS");
      if codeowners.None? {
        r.AddWarning("Repo " + h + " should have a `CODEOWNERS` file");
      } else {
        r.AddAccolade("Repo " + h + " has a `CODEOWNERS` file");
        // `findall` gives a list, never None: there is no "no team name" branch
        var matches := env.teamMatches(codeowners.value);
        if |matches| == 1 {
          ownerCodeowners := Some(Team(matches[0]));
        } else {
          ownerCodeowners := Some(Teams(matches));
        }
      }
      // check more files
      ghost var r1 := r.Value();
      for i := 0 to |RepoFiles|
        invariant r.Value() == RepoFileSteps(r1, h, env, RepoFiles[..i])
      {
        assert RepoFiles[..i + 1][..i] == RepoFiles[..i];
        var path := RepoFiles[i];
        var content := env.repoFile(h, path);
        if content.None? {
          r.AddWarning("Repo " + h + " should have a `" + path + "` file");
        } else {
          r.AddAccolade("Repo " + h + " has a `" + path + "` file");
        }
      }
      assert RepoFiles[..|RepoFiles|] == RepoFiles;
    }
  }

  /** The owner set: the team annotation and the CODEOWNERS teams. */
  method CollectOwners(ownerAnnotation: Option<string>, ownerCodeowners: Option<CodeownersOwner>) returns (owner: set<string>)
    ensures owner == OwnerSet(ownerAnnotation, ownerCodeowners)
  {
    owner := {};
    if ownerAnnotation.Some? {
      owner := owner + {ownerAnnotation.value};
    }
    if ownerCodeowners.Some? {
      match ownerCodeowners.value
      case Team(t) =>
        owner := owner + {t};
      case Teams(ts) =>
        ghost var base := owner;
        for i := 0 to |ts|
          invariant owner == base + Elements(ts[..i])
        {
          assert Elements(ts[..i + 1]) == Elements(ts[..i]) + {ts[i]} by {
            assert ts[..i + 1] == ts[..i] + [ts[i]];
          }
          owner := owner + {ts[i]};
        }
        assert ts[..|ts|] == ts;
    }
  }

  /** The owner verdict: one owner is reported and kept, none or several are errors. */
  method ResolveOwner(r: Results, owner: set<string>, env: Env)
    modifies r
    ensures r.Value() == OwnerStage(old(r.Value()), owner, env)
  {
    if |owner| == 1 {
      var o :| o in owner;
      SingletonIs(owner, o);
      r.AddAccolade("App data exposes a single owner `" + o + "`");
      r.owner := Some(o);
    } else if |owner| > 1 {
      r.AddError("App data exposes various owners `" + Join(" ", env.listing(owner)) + "`");
    } else {
      r.AddError("App does not have a visible owner");
    }
  }

  /** `validate_app_release(release)` */
  method ValidateAppRelease(rel: Release, env: Env) returns (out: Outcome<Report>)
    ensures out == ReleaseSpec(rel, env)
  {
    var r := new Results();
    var raised := CheckFields(r, rel);
    if raised.Some? {
      return Raised(raised.value);
    }
    var handle, urls := CheckHome(r, rel, env, []);
    CheckChart(r, rel, env);
    assert r.Value() == EarlyStages(rel, env);
    out := CheckAfterChart(r, rel, env, urls, handle);
  }

  /** The steps from the annotation checks on; the first two may raise. */
  method CheckAfterChart(r: Results, rel: Release, env: Env, urls: seq<string>, handle: Option<string>)
    returns (out: Outcome<Report>)
    modifies r
    requires urls == (if rel.home.Some? then [rel.home.value] else [])
    requires handle == RepoHandle(rel)
    ensures out == AfterChart(old(r.Value()), rel, env)
  {
    ghost var r1 := r.Value();
    var raised, ownerAnnotation := CheckAnnotations(r, rel, env);
    if raised.Some? {
      return Raised(raised.value);
    }
    ghost var ra := r.Value();
    assert AnnotationStage(r1, rel, env) == Done(ra);
    raised := CheckCreated(r, rel, env);
    if raised.Some? {
      return Raised(raised.value);
    }
    assert CreatedStage(ra, rel, env) == Done(r.Value());
    out := CheckLateStages(r, rel, env, urls, handle, ownerAnnotation);
  }

  /** The steps after the age check, which raise nothing. */
  method CheckLateStages(r: Results, rel: Release, env: Env, urls: seq<string>, handle: Option<string>, ownerAnnotation: Option<string>)
    returns (out: Outcome<Report>)
    modifies r
    requires urls == (if rel.home.Some? then [rel.home.value] else [])
    requires handle == RepoHandle(rel)
    requires ownerAnnotation == AnnotationOwner(rel)
    ensures out == Done(LateStages(old(r.Value()), rel, env))
  {
    if rel.deprecated == Some(true) {
      r.AddWarning("Latest release is marked as deprecated");
    }
    var collected := CheckFieldUrls(r, rel, env, urls);
    CheckDuplicates(r, collected);
    var ownerCodeowners := CheckRepo(r, handle, env);
    var owner := CollectOwners(ownerAnnotation, ownerCodeowners);
    ResolveOwner(r, owner, env);
    return Done(r.Value());
  }
}
