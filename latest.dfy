/** `latest_version`: the release with the highest precedence among a collection of version strings. */
module Latest {
  import opened Wrappers
  import opened SemVer

  /** `vs[i]` is the first string of `vs` that is not a semantic version. */
  predicate FirstInvalidAt(vs: seq<string>, i: int) {
    0 <= i < |vs| && !IsValid(vs[i]) && forall j :: 0 <= j < i ==> IsValid(vs[j])
  }

  /** What `semver.VersionInfo.parse` makes of each string, in order; `None` for one that is not a semantic version. */
  function ParseEach(vs: seq<string>): (ps: seq<Option<Version>>)
    ensures |ps| == |vs|
  {
    if |vs| == 0 then [] else ParseEach(vs[..|vs| - 1]) + [Parse(vs[|vs| - 1])]
  }

  /** Each entry is the parse of the string at the same position. */
  lemma {:induction false} ParseEachAt(vs: seq<string>, j: int)
    requires 0 <= j < |vs|
    ensures ParseEach(vs)[j] == Parse(vs[j])
  {
    if j < |vs| - 1 {
      ParseEachAt(vs[..|vs| - 1], j);
    }
  }

  /** The position of the first `None` in `ps`, or `|ps|` when there is none. */
  function FirstNone(ps: seq<Option<Version>>): (k: nat)
    ensures k <= |ps|
    ensures forall j :: 0 <= j < k ==> ps[j].Some?
    ensures k < |ps| ==> ps[k].None?
  {
    if |ps| == 0 || ps[0].None? then 0
    else
      var k := FirstNone(ps[1..]);
      assert forall j :: 1 <= j <= k ==> ps[j] == ps[1..][j - 1];
      assert k + 1 < |ps| ==> ps[k + 1] == ps[1..][k];
      k + 1
  }

  /** A `None` after nothing but parsed versions is the first `None`. */
  lemma FirstNoneIs(ps: seq<Option<Version>>, i: int)
    requires 0 <= i <= |ps|
    requires forall j :: 0 <= j < i ==> ps[j].Some?
    requires i < |ps| ==> ps[i].None?
    ensures FirstNone(ps) == i
  {
    var k := FirstNone(ps);
    if k < i {
      assert false;
    } else if i < k {
      assert false;
    }
  }

  /** The versions of a list in which every string parsed. */
  function Values(ps: seq<Option<Version>>): (vs: seq<Version>)
    requires forall j :: 0 <= j < |ps| ==> ps[j].Some?
    ensures |vs| == |ps|
    ensures forall j :: 0 <= j < |ps| ==> ps[j] == Some(vs[j])
  {
    seq(|ps|, j requires 0 <= j < |ps| => ps[j].value)
  }

  /** The position a stable ascending sort moves to the end. */
  function LastMaxIndex(vs: seq<Version>): (k: nat)
    requires |vs| > 0
    ensures k < |vs|
  {
    if |vs| == 1 then 0
    else
      var k := LastMaxIndex(vs[..|vs| - 1]);
      if Compare(vs[|vs| - 1], vs[k]) >= 0 then |vs| - 1 else k
  }

  /** It is the last of the versions with the highest precedence. */
  lemma {:induction false} LastMaxIndexIsMax(vs: seq<Version>)
    requires |vs| > 0
    ensures var k := LastMaxIndex(vs);
      (forall j :: 0 <= j < |vs| ==> Compare(vs[j], vs[k]) <= 0) &&
      (forall j :: k < j < |vs| ==> Compare(vs[j], vs[k]) < 0)
  {
    if |vs| == 1 {
      CompareAntisymmetric(vs[0], vs[0]);
    } else {
      var init := vs[..|vs| - 1];
      LastMaxIndexIsMax(init);
      var k := LastMaxIndex(init);
      assert forall j :: 0 <= j < |vs| - 1 ==> vs[j] == init[j];
      if Compare(vs[|vs| - 1], vs[k]) >= 0 {
        NewMaximum(vs, k);
      }
    }
  }

  /** A last element at least as high as the maximum of the others is the new maximum. */
  lemma NewMaximum(vs: seq<Version>, k: nat)
    requires 0 <= k < |vs| - 1
    requires forall j :: 0 <= j < |vs| - 1 ==> Compare(vs[j], vs[k]) <= 0
    requires Compare(vs[|vs| - 1], vs[k]) >= 0
    ensures forall j :: 0 <= j < |vs| ==> Compare(vs[j], vs[|vs| - 1]) <= 0
  {
    var n := |vs|;
    CompareAntisymmetric(vs[n - 1], vs[k]);
    forall j | 0 <= j < n
      ensures Compare(vs[j], vs[n - 1]) <= 0
    {
      if j < n - 1 {
        CompareTransitive(vs[j], vs[k], vs[n - 1]);
      } else {
        CompareAntisymmetric(vs[j], vs[j]);
      }
    }
  }

  function NotConformant(v: string): Exception {
    ValueError("Version string not semver conformant: '" + v + "'")
  }

  /**
   * What `latest_version(version_strings)` returns or raises: a `ValueError`
   * naming the first invalid string, an `IndexError` for no strings at all,
   * and otherwise the last string of highest precedence.
   */
  function LatestSpec(vs: seq<string>): (out: Outcome<string>)
    ensures out.Done? ==> out.value in vs && IsValid(out.value)
  {
    var ps := ParseEach(vs);
    var k := FirstNone(ps);
    if k < |vs| then Raised(NotConformant(vs[k]))
    else if |vs| == 0 then Raised(IndexError)
    else
      var m := LastMaxIndex(Values(ps));
      ParseEachAt(vs, m);
      Done(vs[m])
  }

  /** `latest_version`: validates and parses every string, then takes the last of the stably sorted list. */
  method LatestVersion(versionStrings: seq<string>) returns (out: Outcome<string>)
    ensures out == LatestSpec(versionStrings)
  {
    var tuples, bad := ParseTuples(versionStrings);
    if bad.Some? {
      return Raised(NotConformant(versionStrings[bad.value]));
    }
    if |tuples| == 0 {
      return Raised(IndexError);
    }
    // sorted(versions_tuples, key=cmp_to_key(semver_cmp))[-1]
    var best := LastOfSorted(tuples);
    LatestOfTuples(versionStrings, tuples, best);
    return Done(tuples[best].1);
  }

  /**
   * The loop of `latest_version` that pairs each string with its parsed
   * version, stopping at the first string that is not a semantic version.
   */
  method ParseTuples(versionStrings: seq<string>) returns (tuples: seq<(Version, string)>, bad: Option<nat>)
    ensures bad.Some? ==> bad.value < |versionStrings| && bad.value == FirstNone(ParseEach(versionStrings))
    ensures bad.None? ==> FirstNone(ParseEach(versionStrings)) == |versionStrings| == |tuples|
    ensures bad.None? ==> forall j :: 0 <= j < |tuples| ==>
      ParseEach(versionStrings)[j] == Some(tuples[j].0) && tuples[j].1 == versionStrings[j]
  {
    ghost var ps := ParseEach(versionStrings);
    tuples := [];
    for i := 0 to |versionStrings|
      invariant |tuples| == i
      invariant forall j :: 0 <= j < i ==> ps[j] == Some(tuples[j].0) && tuples[j].1 == versionStrings[j]
    {
      var vstring := versionStrings[i];
      ParseEachAt(versionStrings, i);
      var version := ParseVersion(vstring);
      if version.None? {
        FirstNoneIs(ps, i);
        return tuples, Some(i);
      }
      ghost var prev := tuples;
      tuples := tuples + [(version.value, vstring)];
      forall j | 0 <= j <= i
        ensures ps[j] == Some(tuples[j].0) && tuples[j].1 == versionStrings[j]
      {
        if j < i {
          assert tuples[j] == prev[j];
        }
      }
    }
    FirstNoneIs(ps, |versionStrings|);
    return tuples, None;
  }

  /** `semver.VersionInfo.isvalid(vstring)` and, for a valid string, `semver.VersionInfo.parse(vstring)`. */
  method ParseVersion(vstring: string) returns (version: Option<Version>)
    ensures version == Parse(vstring)
  {
    if !IsValid(vstring) {
      return None;
    }
    return Some(Parse(vstring).value);
  }

  /** The string of the tuple that `LastOfSorted` picks is the specified result. */
  lemma LatestOfTuples(vs: seq<string>, tuples: seq<(Version, string)>, best: nat)
    requires |tuples| == |vs| > 0
    requires FirstNone(ParseEach(vs)) == |vs|
    requires forall j :: 0 <= j < |vs| ==> ParseEach(vs)[j] == Some(tuples[j].0) && tuples[j].1 == vs[j]
    requires best == LastMaxIndex(Firsts(tuples))
    ensures LatestSpec(vs) == Done(tuples[best].1)
  {
    FirstsAreValues(ParseEach(vs), tuples);
    assert best == LastMaxIndex(Values(ParseEach(vs)));
    assert tuples[best].1 == vs[best];
  }

  /** The versions of the pairs are the parsed strings. */
  lemma FirstsAreValues(ps: seq<Option<Version>>, tuples: seq<(Version, string)>)
    requires |tuples| == |ps|
    requires forall j :: 0 <= j < |ps| ==> ps[j] == Some(tuples[j].0)
    ensures Firsts(tuples) == Values(ps)
  {
    var firsts, values := Firsts(tuples), Values(ps);
    forall j | 0 <= j < |ps|
      ensures firsts[j] == values[j]
    {
      assert ps[j] == Some(tuples[j].0) && ps[j] == Some(values[j]);
    }
  }

  /**
   * The index of the entry that a stable sort by precedence puts last: the
   * last one of highest precedence.
   */
  method LastOfSorted(tuples: seq<(Version, string)>) returns (best: nat)
    requires |tuples| > 0
    ensures best == LastMaxIndex(Firsts(tuples))
  {
    ghost var versions := Firsts(tuples);
    best := 0;
    for i := 1 to |tuples|
      invariant best == LastMaxIndex(versions[..i])
    {
      LastMaxIndexStep(versions, i);
      assert versions[i] == tuples[i].0 && versions[best] == tuples[best].0;
      if Compare(tuples[i].0, tuples[best].0) >= 0 {
        best := i;
      }
    }
    assert versions[..|tuples|] == versions;
  }

  /** The versions of the pairs, in order. */
  function Firsts(tuples: seq<(Version, string)>): (vs: seq<Version>)
    ensures |vs| == |tuples|
    ensures forall i :: 0 <= i < |tuples| ==> vs[i] == tuples[i].0
  {
    seq(|tuples|, i requires 0 <= i < |tuples| => tuples[i].0)
  }

  /** One more version at the end of a prefix. */
  lemma LastMaxIndexStep(vs: seq<Version>, i: int)
    requires 0 < i < |vs|
    ensures var k := LastMaxIndex(vs[..i]);
      LastMaxIndex(vs[..i + 1]) == if Compare(vs[i], vs[k]) >= 0 then i else k
  {
    assert vs[..i + 1][..i] == vs[..i];
  }

  /** The first invalid string is the one the `ValueError` names. */
  lemma LatestRaisesAt(vs: seq<string>, i: int)
    requires FirstInvalidAt(vs, i)
    ensures LatestSpec(vs) == Raised(NotConformant(vs[i]))
  {
    var ps := ParseEach(vs);
    forall j | 0 <= j < i
      ensures ps[j].Some?
    {
      assert IsValid(vs[j]);
      ParseEachAt(vs, j);
    }
    ParseEachAt(vs, i);
    FirstNoneIs(ps, i);
  }

  /** `latest_version` raises `ValueError` exactly when some string is invalid, and `IndexError` only for no strings. */
  lemma LatestRaises(vs: seq<string>)
    ensures (LatestSpec(vs).Raised? && LatestSpec(vs).exception.ValueError?) <==> exists i :: 0 <= i < |vs| && !IsValid(vs[i])
    ensures LatestSpec(vs) == Raised(IndexError) <==> vs == []
  {
    var ps := ParseEach(vs);
    var k := FirstNone(ps);
    if k < |vs| {
      ParseEachAt(vs, k);
      assert !IsValid(vs[k]);
    } else {
      forall i | 0 <= i < |vs|
        ensures IsValid(vs[i])
      {
        ParseEachAt(vs, i);
      }
    }
  }

  /** The result is one of the inputs, valid, and of precedence at least that of every input. */
  lemma LatestIsMaximal(vs: seq<string>)
    requires LatestSpec(vs).Done?
    ensures LatestSpec(vs).value in vs && IsValid(LatestSpec(vs).value)
    ensures forall w :: w in vs ==> IsValid(w) && Compare(Parse(w).value, Parse(LatestSpec(vs).value).value) <= 0
  {
    var ps := ParseEach(vs);
    var vals := Values(ps);
    var m := LastMaxIndex(vals);
    LastMaxIndexIsMax(vals);
    ParseEachAt(vs, m);
    forall w | w in vs
      ensures IsValid(w) && Compare(Parse(w).value, Parse(vs[m]).value) <= 0
    {
      var j :| 0 <= j < |vs| && vs[j] == w;
      ParseEachAt(vs, j);
    }
  }

  /** Two lists holding the same strings agree on whether some string is invalid. */
  lemma SameInvalid(xs: seq<string>, ys: seq<string>)
    requires multiset(xs) == multiset(ys)
    ensures (exists i :: 0 <= i < |xs| && !IsValid(xs[i])) ==> (exists i :: 0 <= i < |ys| && !IsValid(ys[i]))
  {
    if exists i :: 0 <= i < |xs| && !IsValid(xs[i]) {
      var i :| 0 <= i < |xs| && !IsValid(xs[i]);
      assert xs[i] in multiset(ys);
      var j :| 0 <= j < |ys| && ys[j] == xs[i];
      assert !IsValid(ys[j]);
    }
  }

  /**
   * The result does not depend on the order of the input, up to ties in
   * precedence: any reordering raises the same kind of exception, or gives a
   * version of the same precedence.
   */
  lemma LatestOrderIndependent(xs: seq<string>, ys: seq<string>)
    requires multiset(xs) == multiset(ys)
    ensures LatestSpec(xs).Done? <==> LatestSpec(ys).Done?
    ensures LatestSpec(xs) == Raised(IndexError) <==> LatestSpec(ys) == Raised(IndexError)
    ensures LatestSpec(xs).Done? ==>
      Compare(Parse(LatestSpec(xs).value).value, Parse(LatestSpec(ys).value).value) == 0
  {
    assert |xs| == |multiset(xs)| == |ys|;
    LatestRaises(xs);
    LatestRaises(ys);
    SameInvalid(xs, ys);
    SameInvalid(ys, xs);
    if LatestSpec(xs).Done? {
      var x, y := LatestSpec(xs).value, LatestSpec(ys).value;
      LatestIsMaximal(xs);
      LatestIsMaximal(ys);
      assert x in multiset(ys) && y in multiset(xs);
      assert x in ys && y in xs;
      CompareAntisymmetric(Parse(x).value, Parse(y).value);
    }
  }

  /** When no two different strings tie in precedence, every order gives the same string. */
  lemma LatestUniqueWithoutTies(xs: seq<string>, ys: seq<string>)
    requires multiset(xs) == multiset(ys)
    requires forall i, j :: 0 <= i < |xs| && 0 <= j < |xs| && IsValid(xs[i]) && IsValid(xs[j]) ==>
      (Compare(Parse(xs[i]).value, Parse(xs[j]).value) == 0 ==> xs[i] == xs[j])
    ensures LatestSpec(xs) == LatestSpec(ys) || (LatestSpec(xs).Raised? && LatestSpec(ys).Raised?)
  {
    LatestOrderIndependent(xs, ys);
    if LatestSpec(xs).Done? {
      var x, y := LatestSpec(xs).value, LatestSpec(ys).value;
      assert y in multiset(ys);
      assert y in xs;
      var i :| 0 <= i < |xs| && xs[i] == x;
      var j :| 0 <= j < |xs| && xs[j] == y;
    }
  }
}
