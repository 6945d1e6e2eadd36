# app-catalog-qa validation engine, in Dafny

This project models the per-app validation engine of `cli.py`, the quality
checker for app catalogs. The engine takes the releases of one app and
builds a dictionary of findings as follows:

1. It indexes the releases by version. The first release of each version is
   kept, and every later repeat adds a "Duplicate release" error.
2. It picks the latest version by Semantic Versioning 2.0.0 precedence
   (section 11). Build metadata is ignored (section 10).
3. It runs the fixed, ordered rule sequence of `validate_app_release` over that
   release. Each rule adds at most one message, through `check_condition`, to
   one of four lists: errors, warnings, suggestions and accolades. The rules
   also set `repo_url` and `owner`.

The model keeps the program's own shape:

- **`findings.dfy`**
  - The result record is the `Report` datatype.
  - `check_condition` is the value function `Check` and the `Results`
    class, whose methods append to its list fields in place.
- **`semver.dfy`**
  - A Semantic Versioning 2.0.0 grammar, as `Parse` and `Format`.
  - The precedence order used by `semver_cmp`.
- **`latest.dfy`**
  - `latest_version` as a loop method, proved against `LatestSpec`.
- **`duplicates.dfy`**
  - `get_duplicates` as a loop method over the two sets `items` and `dupes`.
- **`urls.dfy`**
  - The status test of `check_url`.
  - `validate_readme`.
- **`release.dfy`**
  - `validate_app_release` as a composition of stage functions, which form
    the specification `ReleaseSpec`.
- **`validate.dfy`**
  - The same steps as methods that mutate one `Results` object.
  - Each step is proved to produce exactly its stage function.
- **`catalog.dfy`**
  - `validate_app_releases`: the indexing loop, the `try` block, and the
    merge of the latest release's result.
- **`wrappers.dfy`**
  - `Option`.
  - The exceptions that can leave a step: `ValueError`, `KeyError`,
    `IndexError` and a failed HTTP GET.
- **`oracles.dfy`**
  - The outside world, passed in as an `Env` value:
    - HEAD and GET replies per URL;
    - whether a GitHub repository exists, and its files;
    - the keyword and CODEOWNERS regular expressions;
    - the age of the `created` timestamp;
    - the order in which Python lists a set.

Several behaviours of the code are reproduced as written:

- The "Migrate helm chart to apiVersion v2" suggestion fires for every
  `apiVersion` other than `v1`, so it also fires for `v2` (cli.py:195-196).
- `apiVersion` and `name` are read without a presence check. When either is
  missing, the call raises `KeyError` (cli.py:193, cli.py:216).
- The error for an invalid annotation URL quotes `home`, not the annotation.
  The message is built even when the URL is valid, so an annotation on a
  release without `home` raises `KeyError('home')` (cli.py:279).
- The icon is not collected for duplicate-URL detection (cli.py:228, 321, 330).
- `findall` always returns a list, so the "no team name" warning is never
  emitted (cli.py:355-356).
  - One match becomes a single owner.
  - Zero matches or several become a list; an empty list adds no owner.
- A handle whose repository does not exist produces no finding.
- A `ValueError` raised inside `validate_app_release` (an unparsable
  `created`) discards that release's partial results, but
  `latest_release` keeps its value (cli.py:148-158).
- No releases at all raises an uncaught `IndexError` (cli.py:424).

## Model

| member | source | states |
|---|---|---|
| Findings.Check | cli.py:393-405 | each list grows by exactly the message the rule emits: the accolade when the expression holds, else the first given of error, warning and suggestion; `repo_url` and `owner` are unchanged; at most one message is added |
| Findings.CheckAppendsOne | cli.py:393-405 | one call adds exactly one message or none, as chosen above, and leaves every other list unchanged |
| Findings.Results.CheckCondition | cli.py:393-405 | the in-place call leaves the record equal to `Check` of the old record |
| Findings.CheckAllLists | cli.py:188-208 | a loop of calls appends to each list the concatenation of what the single calls emit, in order |
| Findings.CheckAllStep | cli.py:188-190 | one more loop iteration is one more `check_condition` |
| Findings.Results.Extend | cli.py:290-292 | the README errors, warnings and accolades are appended to the matching lists; nothing else changes |
| Findings.Results.Absorb | cli.py:151-156 | the four lists of the latest release are appended to those of `ret`; `repo_url` and `owner` are taken over |
| Findings.Results.AddError | cli.py:345 | a direct append to the errors, and nothing else |
| SemVer.FormatParse | cli.py:415-419 | parsing the canonical text of any well-formed version gives that version back |
| SemVer.ParseFormat | cli.py:415-419 | every accepted string parses to a well-formed version whose canonical text is the string itself |
| SemVer.Compare | cli.py:427-428 | the comparison gives -1, 0 or 1 |
| SemVer.CompareAntisymmetric | cli.py:427-428 | swapping the operands negates the result; 0 exactly when the versions agree once build metadata is dropped |
| SemVer.CompareTransitive | cli.py:427-428 | the order is transitive, so sorting by it is well defined |
| SemVer.BuildIgnored | cli.py:427-428 | build metadata never changes precedence |
| SemVer.PrecedenceExample | cli.py:427-428 | the pre-release chain of section 11.4 of SemVer 2.0.0, `1.0.0-alpha` < … < `1.0.0`, holds step by step |
| Latest.LatestRaisesAt | cli.py:414-417 | when a string is the first that is not a semantic version, the `ValueError` names exactly that string |
| Latest.ParseEachAt | cli.py:414-420 | the list of parse results lines up with the strings, entry by entry |
| Latest.ParseVersion | cli.py:415-419 | the validity test followed by the parse gives the parse of the string, `None` for an invalid one |
| Latest.ParseTuples | cli.py:414-420 | the loop stops at the first invalid string, or pairs every string with its parsed version |
| Latest.LatestSpec | cli.py:408-424 | a returned string is one of the inputs and valid |
| Latest.LastMaxIndexIsMax | cli.py:422-424 | the position the stable sort moves last: of highest precedence, and after it only lower ones |
| Latest.LatestVersion | cli.py:408-424 | the loop raises, or returns, exactly what `LatestSpec` gives |
| Latest.LastOfSorted | cli.py:422-424 | the index found by scanning is the last maximal one |
| Latest.LatestRaises | cli.py:414-424 | `ValueError` exactly when some string is not a semantic version; `IndexError` exactly for no strings |
| Latest.LatestIsMaximal | cli.py:414-424 | a returned version is one of the inputs, valid, and at least as high as every input |
| Latest.LatestOrderIndependent | cli.py:422-424 | reordering the input changes the result only among versions of equal precedence |
| Latest.LatestUniqueWithoutTies | cli.py:422-424 | without ties every order gives the same string |
| Duplicates.GetDuplicates | cli.py:451-460 | the result holds exactly the values occurring at least twice |
| Duplicates.DuplicatesOrderFree | cli.py:452 | the result depends only on the multiset, so the initial sort changes nothing |
| Duplicates.FlaggedCounts | cli.py:339-341 | the follow-up loop flags every occurrence of a duplicate value and nothing else |
| Duplicates.DuplicatesFlaggedPerOccurrence | cli.py:336-341 | a value occurring n >= 2 times gets n warnings, a single one none |
| Duplicates.DuplicatesExample | cli.py:336-341 | `[A, A, B]` flags A twice and B never |
| Urls.CheckUrl | cli.py:475-485 | a URL judged valid always carries a positive status code |
| Urls.StatusTest | cli.py:483 | a status is valid exactly when its first decimal digit is 2; negative codes never |
| Urls.StatusTestThreeDigits | cli.py:483 | among three-digit codes exactly 200-299 are valid |
| Urls.StatusTestOddCases | cli.py:483 | 2, 20 and 2000 pass the test; 0, 302 and 404 do not |
| Urls.ValidateReadme | cli.py:488-515 | the three lists are exactly those `ReadmeSpec` gives for the GET reply; a failed GET raises |
| Urls.ReadmeClassification | cli.py:497-513 | status >= 400 gives one error only; otherwise exactly one of a short error, a warning or an accolade, plus an error exactly when `{APP-NAME}` occurs |
| Text.SplitJoin | cli.py:235 | joining the parts of `split('/')` restores the string |
| Text.Lower | cli.py:252 | lower-casing keeps the length, maps each character, and leaves no upper-case letter |
| Text.LowerIdempotent | cli.py:252 | lower-casing twice is lower-casing once |
| Text.LowerSuffixExample | cli.py:252 | `Icon.SVG` passes the SVG suffix test once lower-cased; `icon.png` does not |
| Text.NatToStringRoundTrip | cli.py:483 | the decimal text of a number reads back as that number |
| Text.FirstCharIsLeadingDigit | cli.py:483 | the first character of the decimal text is the leading digit |
| Release.RequiredFieldErrors | cli.py:188-190 | the required-field loop emits exactly one "No `f` given" per missing field, in order, and nothing else |
| Release.RequiredFieldsExample | cli.py:188-190 | for the six required fields, no error when all are present |
| Release.ApiVersionFindings | cli.py:193-196 | error unless `v1`/`v2`; the migration suggestion for every value except `v1`, `v2` included |
| Release.FieldStage | cli.py:187-221 | the field rules leave `repo_url` and `owner` untouched |
| Release.HomeSegments | cli.py:234-236 | a `home` with the organisation prefix splits into `https:`, ``, `github.com`, the organisation and the rest |
| Release.RepoHandle | cli.py:234-236 | a handle exists exactly when `home` is present and starts with the organisation prefix |
| Release.RepoHandleIsRepository | cli.py:234-236 | the handle is the organisation, `/`, and the fifth segment of `home` |
| Release.RepoHandleOfRepository | cli.py:234-236 | for `https://github.com/giantswarm/R` or `.../R/path` the handle is `giantswarm/R` |
| Release.HomeStage | cli.py:224-241 | `repo_url` becomes `home` exactly when a handle is derived; `owner` is unchanged |
| Release.ChartStage | cli.py:243-265 | the icon, keyword and type rules leave `repo_url` and `owner` untouched |
| Release.AnnotationStep | cli.py:272-292 | a completed step only appends and keeps `repo_url` and `owner` |
| Release.AnnotationsWithoutHome | cli.py:275-279 | without `home`, the first present checked annotation raises `KeyError('home')`; with none present the loop completes |
| Release.AnnotationStepsRaise | cli.py:267-292 | the annotation loop raises only `KeyError('home')` or a failed README fetch |
| Release.WholeDaysQuotient | cli.py:308-312 | `int(days)` is the number of whole days, rounded toward zero |
| Release.FreshThreshold | cli.py:308-310 | `days <= 100` holds exactly for ages up to 100 × 86400 seconds |
| Release.CreatedStage | cli.py:304-312 | a completed age check only appends and keeps `repo_url` and `owner` |
| Release.UrlRules | cli.py:318-325 | one URL rule per listed URL: rule i checks URL i |
| Release.FailingUrls | cli.py:322-325 | the failing URLs are exactly the listed URLs whose check fails, in order |
| Release.UrlRulesFindings | cli.py:318-325 | the rules of one field give an error for each failing URL, quoting its status code and the URL, in order, and no other error |
| Release.UrlRulesOnlyErrors | cli.py:323-325 | the URL rules of a field add no warning, suggestion or accolade |
| Release.MaintainerRulesFindings | cli.py:327-334 | the maintainer rules give an error for each failing maintainer URL, in order |
| Release.MaintainerRulesOnlyErrors | cli.py:332-334 | the maintainer rules add no warning, suggestion or accolade |
| Release.UrlStageFindings | cli.py:318-334 | the URL stage adds exactly the errors of the failing URLs of `sources`, then `urls`, then the maintainers, and no other message |
| Release.DuplicateRulesWarn | cli.py:336-341 | the duplicate loop emits one warning per flagged occurrence and nothing else |
| Release.DuplicateWarnings | cli.py:336-341 | the duplicate stage appends exactly the warnings of the flagged occurrences |
| Release.IconIgnoredByDuplicates | cli.py:318-341 | changing the icon changes neither the collected URLs nor the duplicate warnings |
| Release.IconNotCollected | cli.py:243-254 | an icon equal to `home` is no duplicate, because the icon is not collected |
| Release.MissingRepoSilent | cli.py:347-348 | a handle whose repository does not exist gives no finding and no CODEOWNERS owner |
| Release.RepoFileCount | cli.py:364-369 | the file checks add a "should have" warning for exactly the missing files and a "has" accolade for exactly the present ones, in order; so each file gives one of the two |
| Release.MissingFiles | cli.py:365-367 | the missing files are exactly the listed paths the repository lacks |
| Release.PresentFiles | cli.py:365-369 | the present files are exactly the listed paths the repository has |
| Release.MissingOrPresent | cli.py:364-369 | every path is missing or present, so the two lists together are as long as the paths |
| Release.RepoStage | cli.py:343-369 | the repository checks only append and keep `repo_url` and `owner` |
| Release.OwnerClassification | cli.py:382-388 | one owner gives one accolade and sets `owner`; none or several give one error and leave `owner` as it was |
| Release.SameOwnerCountsOnce | cli.py:372-380 | an annotation team repeated by CODEOWNERS counts once; an empty match list adds nothing |
| Release.OwnerStage | cli.py:382-388 | the owner verdict only appends and keeps `repo_url` |
| Release.ReleaseSpec | cli.py:163-216 | `KeyError('apiVersion')` exactly when it is missing; with it present and `name` missing, `KeyError('name')` |
| Release.ReleaseSpecRaises | cli.py:163-390 | the only other exceptions are `KeyError('home')`, a failed README fetch, and the `ValueError` of an unparsable `created` |
| Release.ReleaseSpecRepoUrl | cli.py:224-345 | a completed report has `repo_url` = `home` exactly when a handle exists, and otherwise the "Could not detect GitHub repo" error |
| Release.ReleaseSpecOwner | cli.py:372-390 | a completed report has `owner` = x exactly when the owner set is {x} |
| Release.EarlyStages | cli.py:187-265 | after the field, `home` and chart rules, `repo_url` is `home` exactly when a handle exists, and `owner` is unset |
| Release.LateStages | cli.py:314-390 | the steps that cannot raise report a missing handle and set `owner` exactly for a single owner |
| Validate.CheckRequiredFields | cli.py:188-190 | the loop leaves exactly the state of the required-field rules |
| Validate.CheckRecommendedFields | cli.py:199-202 | the loop leaves exactly the state of the recommended-field rules |
| Validate.CheckSuggestedFields | cli.py:205-208 | the loop leaves exactly the state of the suggested-field rules |
| Validate.CheckFields | cli.py:187-221 | raises exactly when `apiVersion` or `name` is missing, otherwise leaves the state `FieldStage` gives |
| Validate.CheckNaming | cli.py:216-221 | the name and description rules, in place |
| Validate.CheckHome | cli.py:224-241 | the handle, the collected `home` and the new state are those of the `home` stage |
| Validate.CheckIcon | cli.py:243-254 | the icon rules, in place |
| Validate.CheckKeywords | cli.py:256-261 | the keyword rules, one per keyword, in place |
| Validate.CheckChart | cli.py:243-265 | the icon, keyword and type rules, in place |
| Validate.CheckAnnotation | cli.py:272-292 | one annotation step, in place, raising exactly when the step raises |
| Validate.CheckAnnotationKeys | cli.py:268-292 | the loop over the three checked annotation keys, in place, raising exactly when the annotation loop raises, with its exception |
| Validate.CheckTeam | cli.py:294-302 | the team-annotation rules, in place; the team is returned exactly when the annotation is present |
| Validate.CheckAnnotations | cli.py:267-302 | the annotation loop and team rules, in place; the team annotation owner is returned |
| Validate.CheckCreated | cli.py:304-312 | the age rule, in place, raising exactly for an unparsable timestamp |
| Validate.CheckListedUrl | cli.py:322-325 | one URL check of a listed URL, in place |
| Validate.CheckUrlList | cli.py:318-325 | the URLs of one field are collected and each checked, in order |
| Validate.CheckMaintainers | cli.py:327-334 | the maintainer URLs are collected and each checked, in order |
| Validate.CheckFieldUrls | cli.py:318-334 | the collected URLs are `home`, sources, urls and maintainer URLs, and the state is that of the URL stage |
| Validate.CheckDuplicates | cli.py:336-341 | the duplicate warnings, in place |
| Validate.CheckRepo | cli.py:343-369 | the repository checks in place; the CODEOWNERS owner is returned |
| Validate.CollectOwners | cli.py:372-380 | the owner set is the union of the annotation and the CODEOWNERS matches |
| Validate.ResolveOwner | cli.py:382-388 | the owner verdict, in place |
| Validate.CheckAfterChart | cli.py:267-390 | the annotation, age and later steps, in place, returning or raising exactly what `AfterChart` gives |
| Validate.CheckLateStages | cli.py:314-390 | the steps after the age check, in place |
| Validate.ValidateAppRelease | cli.py:163-390 | the method returns or raises exactly what `ReleaseSpec` gives |
| Catalog.IndexOf | cli.py:139-146 | a missing version raises `KeyError('version')`; the keys are exactly the dictionary's; each release becomes either a key or an error |
| Catalog.IndexReleases | cli.py:139-146 | the loop fills the keys, the dictionary and the duplicate errors exactly as `IndexOf` does |
| Catalog.IndexKeys | cli.py:141-146 | every release has a version; the keys are distinct and are exactly the versions present |
| Catalog.IndexFirstKept | cli.py:141-146 | the release stored under a version is its first occurrence |
| Catalog.IndexDuplicateErrors | cli.py:141-144 | each error names an indexed version, and a version occurring k times has k - 1 errors |
| Catalog.Merge | cli.py:151-156 | each list of the merged report is the list of `ret` followed by the matching list of the release result; `repo_url` and `owner` are the release result's |
| Catalog.AppMergesLatest | cli.py:139-156 | when indexing, `latest_version` and the latest release all complete, the result is the duplicate-error report merged with that release's result, and `latest_release` is the latest version |
| Catalog.AppSpec | cli.py:124-160 | the duplicate errors precede all others; `latest_release` is unset exactly when `latest_version` failed, otherwise it is the latest indexed version |
| Catalog.TrySpec | cli.py:148-158 | the same for the `try` block: only `ValueError` is caught |
| Catalog.LatestReleaseSpec | cli.py:149-158 | a completed result keeps `latest_release`; only non-`ValueError` exceptions propagate |
| Catalog.ValidateAppReleases | cli.py:124-160 | the method returns or raises exactly what `AppSpec` gives |
| Catalog.AppValueErrorDiscards | cli.py:157-158 | a `ValueError` of the latest release comes from its `created` timestamp, and leaves only the duplicate errors and the failure, with `latest_release` kept |
| Catalog.AppLatest | cli.py:149 | `latest_release` is a valid version of some release, at least as high as every release's version |
| Catalog.AppIndexError | cli.py:149 | `IndexError` leaves the function exactly when there are no releases |
| Catalog.AppRaises | cli.py:148-158 | no `ValueError` leaves the function; only `IndexError`, the `KeyError`s and a failed README fetch do |

## Left out

- `main`, printing, the app filter and the totals are rendering and I/O.
  So are `load_catalog_index`, `read_config` and `read_token`.
- HTTP, the GitHub API, the configured regular expressions and the clock are
  not modelled. They become the fields of `Env`:
  - a HEAD reply per URL;
  - a GET reply per URL;
  - whether a repository exists;
  - the decoded text of a repository file;
  - the keyword predicate;
  - the CODEOWNERS match list;
  - the age in seconds.
- `codeowners.decode('utf-8')` is not modelled. The repository file is given
  as text, so a `UnicodeDecodeError` cannot occur.
- A failed HEAD request becomes `(False, 0)`, as the code's catch-all gives.
  A failed GET becomes one `RequestError`. The model does not say which
  `requests` exception class it is. `requests` exceptions that Python also
  classifies as `ValueError` (such as a malformed URL) are not told apart.
  In the code, such a README fetch failure would be caught at cli.py:157
  and reported as "Could not validate latest version: …". The model raises
  `RequestError` instead, which propagates.
- `github_repo_exists` and `get_github_repo_file` catch only
  `UnknownObjectException` (cli.py:523, cli.py:533). Any other GitHub
  failure, such as a rate limit or bad credentials, propagates in the code.
  The `Env` oracles always answer, so the model excludes these exceptions.
- Release.ReleaseSpecRaises, Catalog.AppRaises and
  Catalog.AppValueErrorDiscards: their exception lists hold of the model
  only. They do not include the unhandled GitHub exceptions or the
  `ValueError` subclasses of `requests` described in the two lines above.
- CreatedStage: `isoparse` and `utcnow` become the oracle age in whole
  seconds. Days are computed in exact rational arithmetic, not in binary
  floating point.
- `semver.VersionInfo.isvalid` is library code. The model states validity as
  the grammar of Semantic Versioning 2.0.0 (sections 2, 9 and 10), with an
  ASCII `[0-9A-Za-z-]` identifier alphabet.
- `cmp_to_key` and `sorted` are not modelled as a sort. The model uses their
  result: a stable ascending sort puts last the last input of highest
  precedence (`LastMaxIndex`).
- Duplicates.GetDuplicates: the initial `sorted(thelist)` is dropped.
  `DuplicatesOrderFree` shows the result does not depend on the order. The
  returned list is modelled as a set, because only membership in it is used.
- Release.OwnerStage: the order of `list(owner)` for several owners comes
  from the oracle `listing`, since Python's set order is unspecified. The
  oracle is not constrained at all: the model does not require that it lists
  each owner exactly once, so the "various owners" message may name other
  strings than the set's.
- `str.lower` covers ASCII letters only.
- The globals `GITHUB_CLIENT`, `CONF`, `KEYWORD_RE` and `CODEOWNER_TEAM_RE`
  become parameters, through `Env`.
- Release records are typed. A field of the wrong type can raise a
  `TypeError` or `AttributeError` in the code; the model does not capture
  this.
