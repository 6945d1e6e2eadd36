/**
 * Semantic versions as defined by Semantic Versioning 2.0.0: the grammar of
 * section 9 (with the identifier rules of sections 2, 9 and 10) and the
 * precedence of section 11, build metadata being ignored (section 10).
 */
module SemVer {
  import opened Wrappers
  import opened Text

  /** A pre-release identifier: numeric, or alphanumeric with at least one non-digit. */
  datatype Identifier = Numeric(n: nat) | Alphanumeric(s: string)

  datatype Version = Version(major: nat, minor: nat, patch: nat, pre: seq<Identifier>, build: seq<string>)

  /** `[0-9A-Za-z-]` */
  predicate IsIdentChar(c: char) {
    IsDigit(c) || ('A' <= c <= 'Z') || ('a' <= c <= 'z') || c == '-'
  }

  /** `[0-9A-Za-z-]+`: a build identifier, and the shape of every pre-release identifier. */
  predicate IsIdentString(s: string) {
    |s| > 0 && forall i :: 0 <= i < |s| ==> IsIdentChar(s[i])
  }

  /** A pre-release identifier: `0|[1-9][0-9]*|[0-9]*[A-Za-z-][0-9A-Za-z-]*`. */
  function ParseIdentifier(s: string): (r: Option<Identifier>)
    ensures r.Some? ==> IsIdentString(s)
  {
    if IsNumeral(s) then Some(Numeric(DigitsValue(s)))
    else if AllDigits(s) || !IsIdentString(s) then None
    else Some(Alphanumeric(s))
  }

  function ParseIdentifiers(parts: seq<string>): Option<seq<Identifier>> {
    if |parts| == 0 then Some([])
    else match (ParseIdentifier(parts[0]), ParseIdentifiers(parts[1..]))
      case (Some(i), Some(rest)) => Some([i] + rest)
      case _ => None
  }

  /** The index of the first `c` in `s`. */
  function IndexOf(s: string, c: char): (r: Option<nat>)
    ensures r.Some? ==> r.value < |s| && s[r.value] == c && c !in s[..r.value]
    ensures r.None? <==> c !in s
  {
    if |s| == 0 then None
    else if s[0] == c then Some(0)
    else match IndexOf(s[1..], c)
      case None => None
      case Some(k) =>
        assert s[..k + 1] == [s[0]] + s[1..][..k];
        Some(k + 1)
  }

  /** The text before the first `c`, and the text after it when `s` holds a `c`. */
  function Cut(s: string, c: char): (string, Option<string>) {
    match IndexOf(s, c)
    case None => (s, None)
    case Some(i) => (s[..i], Some(s[i + 1..]))
  }

  /** The dot-separated parts of an optional suffix. */
  function Parts(t: Option<string>): seq<string> {
    match t
    case None => []
    case Some(x) => Split(x, '.')
  }

  /** `major.minor.patch` with three numerals. */
  function ParseCore(core: string): Option<(nat, nat, nat)> {
    var nums := Split(core, '.');
    if |nums| == 3 && IsNumeral(nums[0]) && IsNumeral(nums[1]) && IsNumeral(nums[2])
    then Some((DigitsValue(nums[0]), DigitsValue(nums[1]), DigitsValue(nums[2])))
    else None
  }

  /** Parses `major.minor.patch[-pre][+build]`; `None` for every string outside the grammar. */
  function Parse(s: string): Option<Version> {
    var (main, buildText) := Cut(s, '+');
    var (core, preText) := Cut(main, '-');
    var build := Parts(buildText);
    match (ParseCore(core), ParseIdentifiers(Parts(preText)))
    case (Some(nums), Some(pre)) =>
      if forall k :: 0 <= k < |build| ==> IsIdentString(build[k])
      then Some(Version(nums.0, nums.1, nums.2, pre, build))
      else None
    case _ => None
  }

  /** `semver.VersionInfo.isvalid` */
  predicate IsValid(s: string) {
    Parse(s).Some?
  }

  // ---------------------------------------------------------------------------
  // Printing, and the round trip

  /** The identifiers a well-formed version may carry. */
  predicate WellFormed(v: Version) {
    (forall k :: 0 <= k < |v.pre| ==> v.pre[k].Alphanumeric? ==>
       IsIdentString(v.pre[k].s) && !AllDigits(v.pre[k].s)) &&
    (forall k :: 0 <= k < |v.build| ==> IsIdentString(v.build[k]))
  }

  function IdentifierToString(i: Identifier): string {
    match i
    case Numeric(n) => NatToString(n)
    case Alphanumeric(s) => s
  }

  function IdentifiersToStrings(ids: seq<Identifier>): (r: seq<string>)
    ensures |r| == |ids|
    ensures forall k :: 0 <= k < |ids| ==> r[k] == IdentifierToString(ids[k])
  {
    if |ids| == 0 then [] else [IdentifierToString(ids[0])] + IdentifiersToStrings(ids[1..])
  }

  function CoreToString(v: Version): string {
    NatToString(v.major) + "." + NatToString(v.minor) + "." + NatToString(v.patch)
  }

  function PreToString(v: Version): string {
    if v.pre == [] then "" else "-" + Join(".", IdentifiersToStrings(v.pre))
  }

  function BuildToString(v: Version): string {
    if v.build == [] then "" else "+" + Join(".", v.build)
  }

  /** The canonical text of a version. */
  function Format(v: Version): string {
    CoreToString(v) + PreToString(v) + BuildToString(v)
  }

  /** Every character of `s` is an identifier character or a dot. */
  predicate DottedIdentChars(s: string) {
    forall i :: 0 <= i < |s| ==> IsIdentChar(s[i]) || s[i] == '.'
  }

  lemma DigitsAreIdentChars(s: string)
    requires AllDigits(s)
    ensures DottedIdentChars(s) && '.' !in s && '-' !in s && '+' !in s
  {
    assert forall i :: 0 <= i < |s| ==> s[i] != '.' && s[i] != '-' && s[i] != '+';
  }

  lemma {:induction false} JoinDotted(parts: seq<string>)
    requires forall k :: 0 <= k < |parts| ==> DottedIdentChars(parts[k])
    ensures DottedIdentChars(Join(".", parts))
  {
    if |parts| > 1 {
      JoinDotted(parts[1..]);
    }
  }

  lemma NoPlusInDotted(s: string)
    requires DottedIdentChars(s)
    ensures '+' !in s
  {
    assert forall i :: 0 <= i < |s| ==> s[i] != '+';
  }

  lemma CoreShape(v: Version)
    ensures DottedIdentChars(CoreToString(v)) && '-' !in CoreToString(v) && '+' !in CoreToString(v)
    ensures ParseCore(CoreToString(v)) == Some((v.major, v.minor, v.patch))
  {
    CoreChars(v);
    CoreParses(v);
  }

  /** Two dotted identifier strings without `-` and `+`, joined by a dot, are one. */
  lemma DottedPair(x: string, y: string)
    requires DottedIdentChars(x) && '-' !in x && '+' !in x
    requires DottedIdentChars(y) && '-' !in y && '+' !in y
    ensures DottedIdentChars(x + "." + y) && '-' !in x + "." + y && '+' !in x + "." + y
  {
    var s := x + "." + y;
    assert forall i :: 0 <= i < |s| ==> s[i] == (if i < |x| then x[i] else if i == |x| then '.' else y[i - |x| - 1]);
  }

  lemma CoreChars(v: Version)
    ensures DottedIdentChars(CoreToString(v)) && '-' !in CoreToString(v) && '+' !in CoreToString(v)
  {
    var a, b, c := NatToString(v.major), NatToString(v.minor), NatToString(v.patch);
    DigitsAreIdentChars(a);
    DigitsAreIdentChars(b);
    DigitsAreIdentChars(c);
    DottedPair(a, b);
    DottedPair(a + "." + b, c);
  }

  lemma CoreParses(v: Version)
    ensures ParseCore(CoreToString(v)) == Some((v.major, v.minor, v.patch))
  {
    var a, b, c := NatToString(v.major), NatToString(v.minor), NatToString(v.patch);
    DigitsAreIdentChars(a);
    DigitsAreIdentChars(b);
    DigitsAreIdentChars(c);
    assert CoreToString(v) == a + ['.'] + (b + ['.'] + c);
    SplitAfter(a, '.', b + ['.'] + c);
    SplitAfter(b, '.', c);
    SplitWithout(c, '.');
    NatToStringRoundTrip(v.major);
    NatToStringRoundTrip(v.minor);
    NatToStringRoundTrip(v.patch);
  }

  /** `c` after a prefix that does not hold it: the prefix is cut off there. */
  lemma {:induction false} CutAfter(a: string, c: char, b: string)
    requires c !in a
    ensures Cut(a + [c] + b, c) == (a, Some(b))
  {
    IndexOfAfter(a, c, b);
    assert (a + [c] + b)[..|a|] == a;
    assert (a + [c] + b)[|a| + 1..] == b;
  }

  lemma {:induction false} IndexOfAfter(a: string, c: char, b: string)
    requires c !in a
    ensures IndexOf(a + [c] + b, c) == Some(|a|)
  {
    if |a| > 0 {
      IndexOfAfter(a[1..], c, b);
      assert (a + [c] + b)[1..] == a[1..] + [c] + b;
    }
  }

  lemma {:induction false} IdentifierStringsShape(ids: seq<Identifier>)
    requires forall k :: 0 <= k < |ids| ==> ids[k].Alphanumeric? ==> IsIdentString(ids[k].s) && !AllDigits(ids[k].s)
    ensures forall k :: 0 <= k < |ids| ==> DottedIdentChars(IdentifiersToStrings(ids)[k]) && '.' !in IdentifiersToStrings(ids)[k]
    ensures ParseIdentifiers(IdentifiersToStrings(ids)) == Some(ids)
  {
    var strs := IdentifiersToStrings(ids);
    forall k | 0 <= k < |ids|
      ensures DottedIdentChars(strs[k]) && '.' !in strs[k]
    {
      if ids[k].Numeric? {
        DigitsAreIdentChars(NatToString(ids[k].n));
      } else {
        var t := ids[k].s;
        assert forall i :: 0 <= i < |t| ==> t[i] != '.';
      }
    }
    if |ids| > 0 {
      IdentifierStringsShape(ids[1..]);
      assert strs[1..] == IdentifiersToStrings(ids[1..]);
      if ids[0].Numeric? {
        NatToStringRoundTrip(ids[0].n);
      } else {
        assert ParseIdentifier(ids[0].s) == Some(ids[0]);
      }
      assert [ids[0]] + ids[1..] == ids;
    }
  }

  /** The text after the core: the pre-release and build parts, in that order. */
  lemma {:induction false} TailShape(v: Version)
    requires WellFormed(v)
    ensures '+' !in CoreToString(v) + PreToString(v)
    ensures Cut(Format(v), '+') == (CoreToString(v) + PreToString(v), if v.build == [] then None else Some(Join(".", v.build)))
    ensures Parts(Cut(Format(v), '+').1) == v.build
  {
    var core, pre := CoreToString(v), PreToString(v);
    CoreShape(v);
    IdentifierStringsShape(v.pre);
    JoinDotted(IdentifiersToStrings(v.pre));
    NoPlusInDotted(Join(".", IdentifiersToStrings(v.pre)));
    var main := core + pre;
    assert forall i :: 0 <= i < |main| ==> main[i] != '+' by {
      forall i | 0 <= i < |main| ensures main[i] != '+' {
        if i >= |core| {
          assert main[i] == pre[i - |core|];
        }
      }
    }
    if v.build == [] {
      assert Format(v) == main;
    } else {
      assert Format(v) == main + ['+'] + Join(".", v.build);
      CutAfter(main, '+', Join(".", v.build));
      forall k | 0 <= k < |v.build| ensures '.' !in v.build[k] {
        var t := v.build[k];
        assert forall i :: 0 <= i < |t| ==> t[i] != '.';
      }
      JoinSplit(v.build, '.');
    }
  }

  /** Cutting the core from the pre-release, and splitting the pre-release. */
  lemma {:induction false} PreShape(v: Version)
    requires WellFormed(v)
    ensures Cut(CoreToString(v) + PreToString(v), '-').0 == CoreToString(v)
    ensures ParseIdentifiers(Parts(Cut(CoreToString(v) + PreToString(v), '-').1)) == Some(v.pre)
  {
    var core, pre := CoreToString(v), PreToString(v);
    CoreShape(v);
    IdentifierStringsShape(v.pre);
    var strs := IdentifiersToStrings(v.pre);
    if v.pre == [] {
      assert core + pre == core;
    } else {
      assert core + pre == core + ['-'] + Join(".", strs);
      CutAfter(core, '-', Join(".", strs));
      JoinSplit(strs, '.');
    }
  }

  /** Parsing the canonical text of a well-formed version gives the version back. */
  lemma FormatParse(v: Version)
    requires WellFormed(v)
    ensures Parse(Format(v)) == Some(v)
  {
    TailShape(v);
    PreShape(v);
    CoreShape(v);
  }

  /** The other direction: every string `Parse` accepts is the canonical text of a well-formed version. */
  lemma ParseFormat(s: string)
    requires Parse(s).Some?
    ensures WellFormed(Parse(s).value) && Format(Parse(s).value) == s
  {
    var (main, buildText) := Cut(s, '+');
    var (core, preText) := Cut(main, '-');
    var v := Parse(s).value;
    CutParts(s, '+');
    CutParts(main, '-');
    FormatOfParts(core, preText, buildText, v);
  }

  /** The canonical text of a version assembled from a core and two optional suffixes. */
  lemma FormatOfParts(core: string, preText: Option<string>, buildText: Option<string>, v: Version)
    requires ParseCore(core) == Some((v.major, v.minor, v.patch))
    requires ParseIdentifiers(Parts(preText)) == Some(v.pre)
    requires v.build == Parts(buildText) && forall k :: 0 <= k < |v.build| ==> IsIdentString(v.build[k])
    ensures WellFormed(v)
    ensures Format(v) == core + (if preText.None? then "" else "-" + preText.value)
                              + (if buildText.None? then "" else "+" + buildText.value)
  {
    ParseCoreFormat(core);
    ParseIdentifiersFormat(Parts(preText));
    PartsJoin(preText);
    PartsJoin(buildText);
  }

  /** Printing the value of a numeral gives the numeral back: numerals have no leading zeros. */
  lemma {:induction false} NumeralRoundTrip(s: string)
    requires IsNumeral(s)
    ensures NatToString(DigitsValue(s)) == s
  {
    if |s| > 1 {
      var p := s[..|s| - 1];
      assert p[0] == s[0];
      NumeralRoundTrip(p);
      LeadingNonZero(p);
      assert s == p + [s[|s| - 1]];
    }
  }

  lemma {:induction false} LeadingNonZero(s: string)
    requires |s| > 0 && AllDigits(s) && s[0] != '0'
    ensures DigitsValue(s) > 0
  {
    if |s| > 1 {
      var p := s[..|s| - 1];
      assert p[0] == s[0];
      LeadingNonZero(p);
    }
  }

  /** What `Cut` splits off: the text before the first `c`, and the rest after that `c`. */
  lemma CutParts(s: string, c: char)
    ensures var (before, after) := Cut(s, c);
      c !in before && s == before + (if after.None? then "" else [c] + after.value)
  {
    match IndexOf(s, c)
    case None =>
      assert s + "" == s;
    case Some(i) =>
      assert s == s[..i] + [c] + s[i + 1..];
  }

  /** Joining the dot-separated parts of a suffix gives the suffix back; only an absent suffix has no parts. */
  lemma PartsJoin(t: Option<string>)
    ensures t.None? <==> Parts(t) == []
    ensures t.Some? ==> Join(".", Parts(t)) == t.value
  {
    if t.Some? {
      SplitJoin(t.value, '.');
    }
  }

  lemma ParseCoreFormat(core: string)
    requires ParseCore(core).Some?
    ensures var n := ParseCore(core).value;
      NatToString(n.0) + "." + NatToString(n.1) + "." + NatToString(n.2) == core
  {
    var nums := Split(core, '.');
    NumeralRoundTrip(nums[0]);
    NumeralRoundTrip(nums[1]);
    NumeralRoundTrip(nums[2]);
    SplitJoin(core, '.');
    assert nums[1..][1..] == [nums[2]];
    assert Join(".", nums[1..][1..]) == nums[2];
    assert Join(".", nums[1..]) == nums[1] + "." + nums[2];
    assert Join(".", nums) == nums[0] + "." + (nums[1] + "." + nums[2]);
  }

  lemma ParseIdentifierFormat(p: string)
    requires ParseIdentifier(p).Some?
    ensures var i := ParseIdentifier(p).value;
      IdentifierToString(i) == p && (i.Alphanumeric? ==> IsIdentString(i.s) && !AllDigits(i.s))
  {
    if IsNumeral(p) {
      NumeralRoundTrip(p);
    }
  }

  lemma {:induction false} ParseIdentifiersFormat(parts: seq<string>)
    requires ParseIdentifiers(parts).Some?
    ensures var ids := ParseIdentifiers(parts).value;
      IdentifiersToStrings(ids) == parts &&
      forall k :: 0 <= k < |ids| ==> ids[k].Alphanumeric? ==> IsIdentString(ids[k].s) && !AllDigits(ids[k].s)
  {
    if |parts| > 0 {
      ParseIdentifierFormat(parts[0]);
      ParseIdentifiersFormat(parts[1..]);
      var ids := ParseIdentifiers(parts).value;
      assert ids[1..] == ParseIdentifiers(parts[1..]).value;
      assert IdentifiersToStrings(ids)[1..] == IdentifiersToStrings(ids[1..]);
      assert parts == [parts[0]] + parts[1..];
    }
  }

  // ---------------------------------------------------------------------------
  // Precedence

  function CompareInt(a: int, b: int): int {
    if a < b then -1 else if a > b then 1 else 0
  }

  /** Lexical order on character codes (section 11.4.2). */
  function CompareString(a: string, b: string): (c: int)
    ensures -1 <= c <= 1
  {
    if |a| == 0 && |b| == 0 then 0
    else if |a| == 0 then -1
    else if |b| == 0 then 1
    else if a[0] != b[0] then CompareInt(a[0] as int, b[0] as int)
    else CompareString(a[1..], b[1..])
  }

  /** Section 11.4.1-11.4.3: numbers numerically, numbers below words, words lexically. */
  function CompareIdentifier(a: Identifier, b: Identifier): (c: int)
    ensures -1 <= c <= 1
  {
    match (a, b)
    case (Numeric(x), Numeric(y)) => CompareInt(x, y)
    case (Numeric(_), Alphanumeric(_)) => -1
    case (Alphanumeric(_), Numeric(_)) => 1
    case (Alphanumeric(x), Alphanumeric(y)) => CompareString(x, y)
  }

  /** Section 11.4.4: field by field; a shorter series that is a prefix of a longer one is lower. */
  function CompareIdentifiers(a: seq<Identifier>, b: seq<Identifier>): (c: int)
    ensures -1 <= c <= 1
  {
    if |a| == 0 && |b| == 0 then 0
    else if |a| == 0 then -1
    else if |b| == 0 then 1
    else if CompareIdentifier(a[0], b[0]) != 0 then CompareIdentifier(a[0], b[0])
    else CompareIdentifiers(a[1..], b[1..])
  }

  /** `VersionInfo.compare`: -1, 0 or 1 as `a` has lower, equal or higher precedence than `b`. */
  function Compare(a: Version, b: Version): (c: int)
    ensures -1 <= c <= 1
  {
    if a.major != b.major then CompareInt(a.major, b.major)
    else if a.minor != b.minor then CompareInt(a.minor, b.minor)
    else if a.patch != b.patch then CompareInt(a.patch, b.patch)
    else if a.pre == [] && b.pre == [] then 0
    else if a.pre == [] then 1   // section 11.3: a pre-release is lower than the release
    else if b.pre == [] then -1
    else CompareIdentifiers(a.pre, b.pre)
  }

  // Compare is a total preorder whose ties are exactly the versions that differ in build metadata only.

  lemma {:induction false} CompareStringProps(a: string, b: string)
    ensures CompareString(a, b) == -CompareString(b, a)
    ensures CompareString(a, b) == 0 <==> a == b
    decreases |a|
  {
    if |a| > 0 && |b| > 0 && a[0] == b[0] {
      CompareStringProps(a[1..], b[1..]);
      if a[1..] == b[1..] {
        assert a == [a[0]] + a[1..] && b == [b[0]] + b[1..];
      }
    }
  }

  lemma {:induction false} CompareStringTrans(a: string, b: string, c: string)
    requires CompareString(a, b) <= 0 && CompareString(b, c) <= 0
    ensures CompareString(a, c) <= 0
    decreases |a|
  {
    if |a| > 0 && |b| > 0 && |c| > 0 && a[0] == b[0] && b[0] == c[0] {
      CompareStringTrans(a[1..], b[1..], c[1..]);
    }
  }

  lemma CompareIdentifierProps(a: Identifier, b: Identifier)
    ensures CompareIdentifier(a, b) == -CompareIdentifier(b, a)
    ensures CompareIdentifier(a, b) == 0 <==> a == b
  {
    if a.Alphanumeric? && b.Alphanumeric? {
      CompareStringProps(a.s, b.s);
    }
  }

  lemma CompareIdentifierTrans(a: Identifier, b: Identifier, c: Identifier)
    requires CompareIdentifier(a, b) <= 0 && CompareIdentifier(b, c) <= 0
    ensures CompareIdentifier(a, c) <= 0
  {
    if a.Alphanumeric? && b.Alphanumeric? && c.Alphanumeric? {
      CompareStringTrans(a.s, b.s, c.s);
    }
  }

  lemma {:induction false} CompareIdentifiersProps(a: seq<Identifier>, b: seq<Identifier>)
    ensures CompareIdentifiers(a, b) == -CompareIdentifiers(b, a)
    ensures CompareIdentifiers(a, b) == 0 <==> a == b
    decreases |a|
  {
    if |a| > 0 && |b| > 0 {
      CompareIdentifierProps(a[0], b[0]);
      if CompareIdentifier(a[0], b[0]) == 0 {
        CompareIdentifiersProps(a[1..], b[1..]);
        if a[1..] == b[1..] {
          assert a == [a[0]] + a[1..] && b == [b[0]] + b[1..];
        }
      }
    }
  }

  lemma {:induction false} CompareIdentifiersTrans(a: seq<Identifier>, b: seq<Identifier>, c: seq<Identifier>)
    requires CompareIdentifiers(a, b) <= 0 && CompareIdentifiers(b, c) <= 0
    ensures CompareIdentifiers(a, c) <= 0
    decreases |a|
  {
    if |a| > 0 && |b| > 0 && |c| > 0 {
      CompareIdentifierProps(a[0], b[0]);
      CompareIdentifierProps(b[0], c[0]);
      CompareIdentifierProps(a[0], c[0]);
      CompareIdentifierTrans(a[0], b[0], c[0]);
      if CompareIdentifier(a[0], b[0]) == 0 && CompareIdentifier(b[0], c[0]) == 0 {
        CompareIdentifiersTrans(a[1..], b[1..], c[1..]);
      }
    }
  }

  /** Precedence is antisymmetric, and a tie means equal numbers and pre-release. */
  lemma CompareAntisymmetric(a: Version, b: Version)
    ensures Compare(a, b) == -Compare(b, a)
    ensures Compare(a, b) == 0 <==> a.(build := []) == b.(build := [])
  {
    CompareIdentifiersProps(a.pre, b.pre);
  }

  /** Precedence is transitive. */
  lemma CompareTransitive(a: Version, b: Version, c: Version)
    requires Compare(a, b) <= 0 && Compare(b, c) <= 0
    ensures Compare(a, c) <= 0
  {
    CompareIdentifiersProps(a.pre, b.pre);
    CompareIdentifiersProps(b.pre, c.pre);
    CompareIdentifiersProps(a.pre, c.pre);
    if a.pre != [] && b.pre != [] && c.pre != [] && (a.major, a.minor, a.patch) == (b.major, b.minor, b.patch) == (c.major, c.minor, c.patch) {
      CompareIdentifiersTrans(a.pre, b.pre, c.pre);
    }
  }

  /** Build metadata does not take part in precedence (section 10). */
  lemma BuildIgnored(v: Version, build: seq<string>)
    ensures Compare(v, v.(build := build)) == 0
  {
    CompareAntisymmetric(v, v.(build := build));
  }

  /** The example chain of section 11.4 of Semantic Versioning 2.0.0. */
  lemma PrecedenceExample()
    ensures Compare(Version(1, 0, 0, [Alphanumeric("alpha")], []), Version(1, 0, 0, [Alphanumeric("alpha"), Numeric(1)], [])) == -1
    ensures Compare(Version(1, 0, 0, [Alphanumeric("alpha"), Numeric(1)], []), Version(1, 0, 0, [Alphanumeric("alpha"), Alphanumeric("beta")], [])) == -1
    ensures Compare(Version(1, 0, 0, [Alphanumeric("alpha"), Alphanumeric("beta")], []), Version(1, 0, 0, [Alphanumeric("beta")], [])) == -1
    ensures Compare(Version(1, 0, 0, [Alphanumeric("beta")], []), Version(1, 0, 0, [Alphanumeric("beta"), Numeric(2)], [])) == -1
    ensures Compare(Version(1, 0, 0, [Alphanumeric("beta"), Numeric(2)], []), Version(1, 0, 0, [Alphanumeric("beta"), Numeric(11)], [])) == -1
    ensures Compare(Version(1, 0, 0, [Alphanumeric("beta"), Numeric(11)], []), Version(1, 0, 0, [Alphanumeric("rc"), Numeric(1)], [])) == -1
    ensures Compare(Version(1, 0, 0, [Alphanumeric("rc"), Numeric(1)], []), Version(1, 0, 0, [], [])) == -1
  {
    var alpha, beta, rc := Alphanumeric("alpha"), Alphanumeric("beta"), Alphanumeric("rc");
    assert CompareString("alpha", "beta") == -1;
    assert CompareString("beta", "rc") == -1;
    assert [alpha, Numeric(1)][1..] == [Numeric(1)];
    assert [alpha, beta][1..] == [beta];
    assert [beta, Numeric(2)][1..] == [Numeric(2)];
    assert [beta, Numeric(11)][1..] == [Numeric(11)];
  }
}
