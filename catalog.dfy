/**
 * `validate_app_releases`: all releases of one app. The releases are
 * indexed by version, the latest version is resolved and that release is
 * validated in depth.
 */
module Catalog {
  import opened Wrappers
  import opened Findings
  import opened Oracles
  import opened SemVer
  import opened Latest
  import opened Release
  import opened Validate

  /** The dictionary `validate_app_releases` returns: the four lists, `repo_url`, `owner` and `latest_release`. */
  datatype AppReport = AppReport(report: Report, latestRelease: Option<string>)

  /**
   * `releases_dict` after the indexing loop: its keys in insertion order, the
   * dictionary itself, and the "Duplicate release" errors appended so far.
   */
  datatype Index = Index(keys: seq<string>, byVersion: map<string, Release>, errors: seq<string>)

  function DuplicateRelease(v: string): string {
    "Duplicate release " + v
  }

  function VersionFailure(m: string): string {
    "Could not validate latest version: " + m
  }

  /** The versions of `releases`, as far as they are given. */
  ghost predicate HasVersion(releases: seq<Release>, v: string) {
    exists i :: 0 <= i < |releases| && releases[i].version == Some(v)
  }

  /**
   * The indexing loop over `releases`. A release without a version raises
   * `KeyError('version')`; a version already indexed adds an error and the
   * release is skipped; otherwise the release is stored under its version.
   */
  function IndexOf(releases: seq<Release>): (out: Outcome<Index>)
    ensures out.Raised? ==> out.exception == KeyError("version")
    ensures out.Done? ==> (forall v :: v in out.value.keys <==> v in out.value.byVersion)
    ensures out.Done? ==> |out.value.keys| + |out.value.errors| == |releases|
  {
    if |releases| == 0 then Done(Index([], map[], []))
    else
      match IndexOf(releases[..|releases| - 1])
      case Raised(e) => Raised(e)
      case Done(ix) =>
        var rel := releases[|releases| - 1];
        if rel.version.None? then Raised(KeyError("version"))
        else
          var v := rel.version.value;
          if v in ix.byVersion then Done(ix.(errors := ix.errors + [DuplicateRelease(v)]))
          else Done(Index(ix.keys + [v], ix.byVersion[v := rel], ix.errors))
  }

  /** Merging the result of the latest release into `ret`: the lists are concatenated, `repo_url` and `owner` taken over. */
  function Merge(base: Report, res: Report): (r: Report)
    ensures Appends(base, r)
    ensures r.errors == base.errors + res.errors && r.warnings == base.warnings + res.warnings
    ensures r.suggestions == base.suggestions + res.suggestions && r.accolades == base.accolades + res.accolades
    ensures r.repoUrl == res.repoUrl && r.owner == res.owner
  {
    Report(base.errors + res.errors, base.warnings + res.warnings, base.suggestions + res.suggestions,
           base.accolades + res.accolades, res.repoUrl, res.owner)
  }

  /**
   * What `validate_app_releases(releases)` returns or raises: the indexing
   * loop, then the `try` block on its result.
   */
  function AppSpec(releases: seq<Release>, env: Env): (out: Outcome<AppReport>)
    ensures out.Done? ==> IndexOf(releases).Done? && IndexOf(releases).value.errors <= out.value.report.errors
    ensures out.Done? ==> (out.value.latestRelease.None? <==> LatestSpec(IndexOf(releases).value.keys).Raised?)
    ensures out.Done? && out.value.latestRelease.Some? ==>
      var ix := IndexOf(releases).value;
      LatestSpec(ix.keys) == Done(out.value.latestRelease.value) && out.value.latestRelease.value in ix.byVersion
  {
    match IndexOf(releases)
    case Raised(e) => Raised(e)
    case Done(ix) => TrySpec(ix, env)
  }

  /**
   * The `try` block: only a `ValueError` is caught, from `latest_version` as
   * well as from `validate_app_release`; every other exception leaves the
   * function.
   */
  function TrySpec(ix: Index, env: Env): (out: Outcome<AppReport>)
    requires forall v :: v in ix.keys <==> v in ix.byVersion
    ensures out.Done? ==> ix.errors <= out.value.report.errors
    ensures out.Done? ==> (out.value.latestRelease.None? <==> LatestSpec(ix.keys).Raised?)
    ensures out.Done? && out.value.latestRelease.Some? ==>
      LatestSpec(ix.keys) == Done(out.value.latestRelease.value) && out.value.latestRelease.value in ix.byVersion
  {
    var base := Empty.(errors := ix.errors);
    match LatestSpec(ix.keys)
    case Raised(e) =>
      if e.ValueError? then Done(AppReport(base.(errors := base.errors + [VersionFailure(e.message)]), None))
      else Raised(e)
    case Done(v) =>
      LatestIsMaximal(ix.keys);
      LatestReleaseSpec(base, v, ix.byVersion[v], env)
  }

  /** The validation of the latest release `v` and the merge of its result into `base`. */
  function LatestReleaseSpec(base: Report, v: string, rel: Release, env: Env): (out: Outcome<AppReport>)
    ensures out.Done? ==> out.value.latestRelease == Some(v) && base.errors <= out.value.report.errors
    ensures out.Raised? ==> ReleaseSpec(rel, env) == Raised(out.exception) && !out.exception.ValueError?
  {
    match ReleaseSpec(rel, env)
    case Raised(e) =>
      if e.ValueError? then Done(AppReport(base.(errors := base.errors + [VersionFailure(e.message)]), Some(v)))
      else Raised(e)
    case Done(res) => Done(AppReport(Merge(base, res), Some(v)))
  }

  /** The indexing loop: once a release without a version is met, the outcome is that `KeyError`. */
  lemma {:induction false} IndexRaisedStays(releases: seq<Release>, i: nat)
    requires i <= |releases|
    requires IndexOf(releases[..i]).Raised?
    ensures IndexOf(releases).Raised?
    decreases |releases| - i
  {
    if i < |releases| {
      assert releases[..i + 1][..i] == releases[..i];
      IndexRaisedStays(releases, i + 1);
    } else {
      assert releases[..i] == releases;
    }
  }

  /** The indexing loop of `validate_app_releases`, filling `releases_dict` and appending to the errors of `ret`. */
  method IndexReleases(ret: Results, releases: seq<Release>) returns (ok: bool, keys: seq<string>, byVersion: map<string, Release>)
    modifies ret
    requires ret.Value() == Empty
    ensures ok <==> IndexOf(releases).Done?
    ensures ok ==> IndexOf(releases) == Done(Index(keys, byVersion, ret.errors))
    ensures ret.Value() == Empty.(errors := ret.errors)
  {
    keys, byVersion := [], map[];
    for i := 0 to |releases|
      invariant IndexOf(releases[..i]) == Done(Index(keys, byVersion, ret.errors))
      invariant ret.Value() == Empty.(errors := ret.errors)
    {
      assert releases[..i + 1][..i] == releases[..i];
      var release := releases[i];
      if release.version.None? {
        IndexRaisedStays(releases, i + 1);
        return false, keys, byVersion;
      }
      var v := release.version.value;
      if v in byVersion {
        ret.AddError(DuplicateRelease(v));
      } else {
        keys := keys + [v];
        byVersion := byVersion[v := release];
      }
    }
    assert releases[..|releases|] == releases;
    return true, keys, byVersion;
  }

  /** `validate_app_releases(releases)` */
  method ValidateAppReleases(releases: seq<Release>, env: Env) returns (out: Outcome<AppReport>)
    ensures out == AppSpec(releases, env)
  {
    var ret := new Results();
    var ok, keys, byVersion := IndexReleases(ret, releases);
    if !ok {
      return Raised(KeyError("version"));
    }
    var latest := LatestVersion(keys);
    if latest.Raised? {
      if latest.exception.ValueError? {
        ret.AddError(VersionFailure(latest.exception.message));
        return Done(AppReport(ret.Value(), None));
      }
      return Raised(latest.exception);
    }
    var v := latest.value;
    LatestIsMaximal(keys);
    var result := ValidateAppRelease(byVersion[v], env);
    if result.Raised? {
      if result.exception.ValueError? {
        ret.AddError(VersionFailure(result.exception.message));
        return Done(AppReport(ret.Value(), Some(v)));
      }
      return Raised(result.exception);
    }
    var res := result.value;
    ret.Absorb(res);
    return Done(AppReport(ret.Value(), Some(v)));
  }

  /** The versions of `releases`, in order, as far as they are given. */
  function VersionsOf(releases: seq<Release>): seq<string> {
    if |releases| == 0 then []
    else
      var rel := releases[|releases| - 1];
      VersionsOf(releases[..|releases| - 1]) + (if rel.version.Some? then [rel.version.value] else [])
  }

  /** `releases[i]` is the first release of version `v`. */
  ghost predicate FirstWith(releases: seq<Release>, v: string, i: int) {
    0 <= i < |releases| && releases[i].version == Some(v) &&
    forall j :: 0 <= j < i ==> releases[j].version != Some(v)
  }

  lemma DuplicateReleaseInjective(a: string, b: string)
    ensures DuplicateRelease(a) == DuplicateRelease(b) ==> a == b
  {
    assert DuplicateRelease(a)[18..] == a && DuplicateRelease(b)[18..] == b;
  }

  /**
   * A completed indexing loop saw a version on every release; its keys are
   * distinct and are exactly the versions that occur.
   */
  lemma {:induction false} IndexKeys(releases: seq<Release>)
    requires IndexOf(releases).Done?
    ensures forall i :: 0 <= i < |releases| ==> releases[i].version.Some?
    ensures var ix := IndexOf(releases).value;
      forall i, j :: 0 <= i < j < |ix.keys| ==> ix.keys[i] != ix.keys[j]
    ensures var ix := IndexOf(releases).value;
      forall v :: v in ix.byVersion <==> HasVersion(releases, v)
  {
    if |releases| > 0 {
      var init := releases[..|releases| - 1];
      IndexKeys(init);
      var v := releases[|releases| - 1].version.value;
      forall w ensures HasVersion(releases, w) <==> HasVersion(init, w) || w == v {
        if HasVersion(init, w) {
          var i :| 0 <= i < |init| && init[i].version == Some(w);
          assert releases[i] == init[i];
        }
        if HasVersion(releases, w) && w != v {
          var i :| 0 <= i < |releases| && releases[i].version == Some(w);
          assert init[i] == releases[i];
        }
      }
    }
  }

  /** The release stored under a version is the first release of that version. */
  lemma {:induction false} IndexFirstKept(releases: seq<Release>)
    requires IndexOf(releases).Done?
    ensures var ix := IndexOf(releases).value;
      forall v :: v in ix.byVersion ==> exists i :: FirstWith(releases, v, i) && ix.byVersion[v] == releases[i]
  {
    if |releases| > 0 {
      var n := |releases|;
      var init := releases[..n - 1];
      IndexFirstKept(init);
      IndexKeys(init);
      var ix0 := IndexOf(init).value;
      var ix := IndexOf(releases).value;
      var v := releases[n - 1].version.value;
      forall w | w in ix.byVersion
        ensures exists i :: FirstWith(releases, w, i) && ix.byVersion[w] == releases[i]
      {
        if w in ix0.byVersion {
          var i :| FirstWith(init, w, i) && ix0.byVersion[w] == init[i];
          assert forall j :: 0 <= j <= i ==> releases[j] == init[j];
          assert ix.byVersion[w] == ix0.byVersion[w];
        } else {
          assert w == v && !HasVersion(init, v);
          assert FirstWith(releases, v, n - 1);
        }
      }
    }
  }

  /**
   * Each error of the indexing loop names an indexed version, and a version
   * that occurs `k` times has `k - 1` "Duplicate release" errors: one per
   * later repeat.
   */
  lemma {:induction false} IndexDuplicateErrors(releases: seq<Release>)
    requires IndexOf(releases).Done?
    ensures var ix := IndexOf(releases).value;
      forall e :: e in ix.errors ==> exists v :: v in ix.keys && e == DuplicateRelease(v)
    ensures var ix := IndexOf(releases).value;
      forall v :: v in ix.byVersion ==> multiset(ix.errors)[DuplicateRelease(v)] + 1 == multiset(VersionsOf(releases))[v]
  {
    if |releases| > 0 {
      var n := |releases|;
      var init := releases[..n - 1];
      IndexDuplicateErrors(init);
      var ix0 := IndexOf(init).value;
      var ix := IndexOf(releases).value;
      var v := releases[n - 1].version.value;
      assert VersionsOf(releases) == VersionsOf(init) + [v];
      forall w | w in ix.byVersion
        ensures multiset(ix.errors)[DuplicateRelease(w)] + 1 == multiset(VersionsOf(releases))[w]
      {
        CountStep(ix0.errors, VersionsOf(init), v, w);
        if w !in ix0.byVersion {
          assert w == v;
          VersionsAreKeys(init, w);
          assert DuplicateRelease(w) !in ix0.errors by {
            forall u | u in ix0.keys ensures DuplicateRelease(u) != DuplicateRelease(w) {
              DuplicateReleaseInjective(u, w);
            }
          }
        }
      }
    }
  }

  /** One more version, and possibly one more "Duplicate release" error for it, as counted per version. */
  lemma CountStep(errors: seq<string>, versions: seq<string>, v: string, w: string)
    ensures multiset(versions + [v])[w] == multiset(versions)[w] + (if w == v then 1 else 0)
    ensures multiset(errors + [DuplicateRelease(v)])[DuplicateRelease(w)] ==
      multiset(errors)[DuplicateRelease(w)] + (if w == v then 1 else 0)
  {
    DuplicateReleaseInjective(w, v);
  }

  /** After a completed indexing loop, every version that occurs is a key. */
  lemma {:induction false} VersionsAreKeys(releases: seq<Release>, v: string)
    requires IndexOf(releases).Done?
    requires v !in IndexOf(releases).value.byVersion
    ensures multiset(VersionsOf(releases))[v] == 0
  {
    if |releases| > 0 {
      VersionsAreKeys(releases[..|releases| - 1], v);
    }
  }

  /**
   * When the validation of the latest release raised a `ValueError` (an
   * unparsable `created` timestamp, the only one it raises), its partial
   * results are gone: the report holds the duplicate errors and the failure
   * alone, while `latest_release` keeps its value.
   */
  lemma AppValueErrorDiscards(releases: seq<Release>, env: Env, v: string)
    requires IndexOf(releases).Done?
    requires LatestSpec(IndexOf(releases).value.keys) == Done(v)
    requires v in IndexOf(releases).value.byVersion
    requires ReleaseSpec(IndexOf(releases).value.byVersion[v], env).Raised?
    ensures var ix := IndexOf(releases).value;
      var rel := ix.byVersion[v];
      var e := ReleaseSpec(rel, env).exception;
      AppSpec(releases, env).Done? ==>
        e.ValueError? && rel.created.Some? && env.age(rel.created.value) == Unparsable(e.message) &&
        AppSpec(releases, env).value == AppReport(Report(ix.errors + [VersionFailure(e.message)], [], [], [], None, None), Some(v))
  {
    ReleaseSpecRaises(IndexOf(releases).value.byVersion[v], env);
  }

  /**
   * When the latest release validates, the app report is the duplicate
   * errors followed by that release's findings, with its `repo_url` and
   * `owner`, and `latest_release` set to its version.
   */
  lemma AppMergesLatest(releases: seq<Release>, env: Env, v: string, res: Report)
    requires IndexOf(releases).Done?
    requires LatestSpec(IndexOf(releases).value.keys) == Done(v)
    requires ReleaseSpec(IndexOf(releases).value.byVersion[v], env) == Done(res)
    ensures var ix := IndexOf(releases).value;
      AppSpec(releases, env) == Done(AppReport(Merge(Empty.(errors := ix.errors), res), Some(v)))
  {
  }

  /** The latest release is a version of one of the releases, valid and of precedence at least that of every release. */
  lemma AppLatest(releases: seq<Release>, env: Env)
    requires AppSpec(releases, env).Done? && AppSpec(releases, env).value.latestRelease.Some?
    ensures var v := AppSpec(releases, env).value.latestRelease.value;
      HasVersion(releases, v) && IsValid(v) &&
      forall i :: 0 <= i < |releases| ==>
        var w := releases[i].version; w.Some? && IsValid(w.value) && Compare(Parse(w.value).value, Parse(v).value) <= 0
  {
    var ix := IndexOf(releases).value;
    IndexKeys(releases);
    LatestIsMaximal(ix.keys);
    var v := AppSpec(releases, env).value.latestRelease.value;
    forall i | 0 <= i < |releases|
      ensures var w := releases[i].version; w.Some? && IsValid(w.value) && Compare(Parse(w.value).value, Parse(v).value) <= 0
    {
      assert HasVersion(releases, releases[i].version.value);
    }
  }

  /** `validate_app_releases` raises `IndexError` exactly for an empty list of releases. */
  lemma AppIndexError(releases: seq<Release>, env: Env)
    ensures AppSpec(releases, env) == Raised(IndexError) <==> releases == []
  {
    if IndexOf(releases).Done? {
      var ix := IndexOf(releases).value;
      LatestRaises(ix.keys);
      if |releases| > 0 {
        IndexKeys(releases);
        assert HasVersion(releases, releases[0].version.value);
        assert |ix.keys| > 0;
      }
      if LatestSpec(ix.keys).Done? && LatestSpec(ix.keys).value in ix.byVersion {
        ReleaseSpecRaises(ix.byVersion[LatestSpec(ix.keys).value], env);
      }
    }
  }

  /**
   * What leaves `validate_app_releases`: never a `ValueError`, but an
   * `IndexError`, a `KeyError` for a release without a version or from the
   * latest release, or a failed README fetch.
   */
  lemma AppRaises(releases: seq<Release>, env: Env)
    ensures var out := AppSpec(releases, env);
      out.Raised? ==>
        out.exception in {IndexError, KeyError("version"), KeyError("apiVersion"), KeyError("name"), KeyError("home")} ||
        out.exception.RequestError?
  {
    if IndexOf(releases).Done? {
      var ix := IndexOf(releases).value;
      LatestRaises(ix.keys);
      if LatestSpec(ix.keys).Done? && LatestSpec(ix.keys).value in ix.byVersion {
        ReleaseSpecRaises(ix.byVersion[LatestSpec(ix.keys).value], env);
      }
    }
  }
}
