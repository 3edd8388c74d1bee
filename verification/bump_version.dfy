/**
  The release script's pure part: reading a `major.minor.patch` version,
  bumping it for a release type, writing it back, and pointing the example
  app's dependency at the new version. File I/O, JSON and the process exit
  are not modelled.
 */
module BumpVersion {
  import opened JsSemantics
  import opened Text
  import opened Decimal

  datatype Version = Version(major: nat, minor: nat, patch: nat)

  datatype ReleaseType = Patch | Minor | Major

  /** Lexicographic order on version triples. */
  predicate Less(a: Version, b: Version) {
    a.major < b.major
    || (a.major == b.major && a.minor < b.minor)
    || (a.major == b.major && a.minor == b.minor && a.patch < b.patch)
  }

  /** The `switch` of `bumpVersion`: a major bump resets minor and patch, a minor bump resets patch. */
  function Bump(v: Version, t: ReleaseType): (r: Version)
    ensures t == Major ==> r == Version(v.major + 1, 0, 0)
    ensures t == Minor ==> r == Version(v.major, v.minor + 1, 0)
    ensures t == Patch ==> r == Version(v.major, v.minor, v.patch + 1)
  {
    match t
    case Major => Version(v.major + 1, 0, 0)
    case Minor => Version(v.major, v.minor + 1, 0)
    case Patch => Version(v.major, v.minor, v.patch + 1)
  }

  /** Every release type produces a strictly greater version. */
  lemma BumpIncreases(v: Version, t: ReleaseType)
    ensures Less(v, Bump(v, t))
    ensures !Less(Bump(v, t), v)
  {
  }

  /** The three numbers joined by dots. */
  function VersionString(v: Version): string {
    Join([NatToString(v.major), NatToString(v.minor), NatToString(v.patch)], ".")
  }

  /** The version text spelled out: the three numbers with a dot between each. */
  lemma VersionStringShape(v: Version)
    ensures VersionString(v) == NatToString(v.major) + "." + NatToString(v.minor) + "." + NatToString(v.patch)
  {
    var parts := [NatToString(v.major), NatToString(v.minor), NatToString(v.patch)];
    assert parts[1..] == [NatToString(v.minor), NatToString(v.patch)];
    assert parts[1..][1..] == [NatToString(v.patch)];
    assert Join(parts[1..][1..], ".") == NatToString(v.patch);
    assert Join(parts[1..], ".") == NatToString(v.minor) + "." + NatToString(v.patch);
  }

  /** Three dot-free pieces joined by dots split back into those pieces. */
  lemma SplitDots3(a: string, b: string, c: string)
    requires Avoids(a, {'.'}) && Avoids(b, {'.'}) && Avoids(c, {'.'})
    ensures Split(a + "." + b + "." + c, {'.'}) == [a, b, c]
  {
    SplitWithoutSeparator(c, {'.'});
    SplitAtFirstSeparator(b, '.', c, {'.'});
    assert a + "." + b + "." + c == a + ['.'] + (b + ['.'] + c);
    SplitAtFirstSeparator(a, '.', b + ['.'] + c, {'.'});
  }

  /** Two dot-free pieces joined by a dot split back into those pieces. */
  lemma SplitDots2(a: string, b: string)
    requires Avoids(a, {'.'}) && Avoids(b, {'.'})
    ensures Split(a + "." + b, {'.'}) == [a, b]
  {
    SplitWithoutSeparator(b, {'.'});
    SplitAtFirstSeparator(a, '.', b, {'.'});
  }

  /**
    A well-formed version: exactly three non-empty runs of digits (leading
    zeros are read as `Number` reads them). The script itself reads any
    text, see `ReadParts`; on well-formed versions the two agree.
   */
  function ParseVersion(s: string): (r: Option<Version>)
    ensures r.Some? <==> |Split(s, {'.'})| == 3 && forall i :: 0 <= i < 3 ==> ParseNat(Split(s, {'.'})[i]).Some?
  {
    var parts := Split(s, {'.'});
    if |parts| != 3 then None
    else
      match (ParseNat(parts[0]), ParseNat(parts[1]), ParseNat(parts[2]))
      case (Some(major), Some(minor), Some(patch)) => Some(Version(major, minor, patch))
      case _ => None
  }

  lemma DigitsAvoidDot(s: string)
    requires AllDigits(s)
    ensures Avoids(s, {'.'})
  {
  }

  /** Writing a version and reading it back gives the same version. */
  lemma ParseVersionString(v: Version)
    ensures ParseVersion(VersionString(v)) == Some(v)
  {
    var parts := [NatToString(v.major), NatToString(v.minor), NatToString(v.patch)];
    DigitsAvoidDot(parts[0]);
    DigitsAvoidDot(parts[1]);
    DigitsAvoidDot(parts[2]);
    SplitJoin(parts, '.');
    ParseNatOfNatToString(v.major);
    ParseNatOfNatToString(v.minor);
    ParseNatOfNatToString(v.patch);
  }

  /** Distinct versions are written differently. */
  lemma VersionStringInjective(v: Version, w: Version)
    requires VersionString(v) == VersionString(w)
    ensures v == w
  {
    ParseVersionString(v);
    ParseVersionString(w);
  }

  /**
    One destructured part of `version.split('.').map(Number)`: a number,
    `NaN`, or `undefined` when the version has fewer than three parts.
   */
  datatype Part = Num(value: nat) | NaN | Undefined

  /** The three parts the script destructures. */
  datatype Parts = Parts(major: Part, minor: Part, patch: Part)

  function Lift(v: Version): Parts {
    Parts(Num(v.major), Num(v.minor), Num(v.patch))
  }

  /**
    `Number(s)` on a dot-free part: the empty text reads 0, a run of digits
    its value, and anything else is `NaN`.
   */
  function NumberOf(s: string): (p: Part)
    ensures !p.Undefined?
    ensures p.Num? <==> AllDigits(s)
    ensures s == "" ==> p == Num(0)
    ensures s != "" && p.Num? ==> ParseNat(s) == Some(p.value)
  {
    if s == "" then Num(0) else if AllDigits(s) then Num(DigitsValue(s)) else NaN
  }

  /**
    `const [major, minor, patch] = version.split('.').map(Number)`: the first
    three pieces read through `Number`, missing ones `undefined`, any
    further pieces ignored.
   */
  function ReadParts(version: string): (r: Parts)
    ensures !r.major.Undefined?
    ensures r.minor.Undefined? <==> CountIn(version, {'.'}) < 1
    ensures r.patch.Undefined? <==> CountIn(version, {'.'}) < 2
    ensures ParseVersion(version).Some? ==> r == Lift(ParseVersion(version).value)
  {
    var pieces := Split(version, {'.'});
    Parts(NumberOf(pieces[0]),
          if |pieces| > 1 then NumberOf(pieces[1]) else Undefined,
          if |pieces| > 2 then NumberOf(pieces[2]) else Undefined)
  }

  /** A well-formed version followed by more dot-separated text reads as the version: the rest is ignored. */
  lemma ReadPartsIgnoresRest(v: Version, rest: string)
    ensures ReadParts(VersionString(v) + "." + rest) == Lift(v)
  {
    var a, b, c := NatToString(v.major), NatToString(v.minor), NatToString(v.patch);
    DigitsAvoidDot(a);
    DigitsAvoidDot(b);
    DigitsAvoidDot(c);
    VersionStringShape(v);
    assert VersionString(v) + "." + rest == a + ['.'] + (b + ['.'] + (c + ['.'] + rest));
    SplitAtFirstSeparator(c, '.', rest, {'.'});
    SplitAtFirstSeparator(b, '.', c + ['.'] + rest, {'.'});
    SplitAtFirstSeparator(a, '.', b + ['.'] + (c + ['.'] + rest), {'.'});
    ParseNatOfNatToString(v.major);
    ParseNatOfNatToString(v.minor);
    ParseNatOfNatToString(v.patch);
  }

  /** `+= 1`: a number goes up by one; `NaN + 1` and `undefined + 1` are `NaN`. */
  function Inc(p: Part): (r: Part)
    ensures p.Num? <==> r.Num?
    ensures p.Num? ==> r.value == p.value + 1
    ensures !r.Undefined?
  {
    if p.Num? then Num(p.value + 1) else NaN
  }

  /** A part in the template literal. */
  function PartString(p: Part): (r: string)
    ensures p.Num? ==> r == NatToString(p.value) && AllDigits(r)
    ensures p.NaN? ==> r == "NaN"
    ensures p.Undefined? ==> r == "undefined"
  {
    match p
    case Num(n) => NatToString(n)
    case NaN => "NaN"
    case Undefined => "undefined"
  }

  /** `${newMajor}.${newMinor}.${newPatch}`. */
  function PartsString(c: Parts): string {
    PartString(c.major) + "." + PartString(c.minor) + "." + PartString(c.patch)
  }

  function TypeName(t: ReleaseType): string {
    match t
    case Major => "major"
    case Minor => "minor"
    case Patch => "patch"
  }

  /**
    The `switch (releaseType)` on the parts as read: major resets minor and
    patch to 0, minor resets patch, patch increments it; any other text
    matches no case and leaves all three as they were.
   */
  function BumpParts(c: Parts, releaseType: string): (r: Parts)
    ensures releaseType !in {"major", "minor", "patch"} ==> r == c
    ensures releaseType == "major" ==> r.major == Inc(c.major) && r.minor == Num(0) && r.patch == Num(0)
    ensures releaseType == "minor" ==> r.major == c.major && r.minor == Inc(c.minor) && r.patch == Num(0)
    ensures releaseType == "patch" ==> r.major == c.major && r.minor == c.minor && r.patch == Inc(c.patch)
  {
    if releaseType == "major" then Parts(Inc(c.major), Num(0), Num(0))
    else if releaseType == "minor" then Parts(c.major, Inc(c.minor), Num(0))
    else if releaseType == "patch" then Parts(c.major, c.minor, Inc(c.patch))
    else c
  }

  /** On the parts of a well-formed version the switch is the version bump. */
  lemma BumpPartsLifts(v: Version, t: ReleaseType)
    ensures BumpParts(Lift(v), TypeName(t)) == Lift(Bump(v, t))
  {
  }

  /** The parts of a version are written as its version text. */
  lemma PartsStringOfLift(v: Version)
    ensures PartsString(Lift(v)) == VersionString(v)
  {
    VersionStringShape(v);
  }

  const PackageName: string := "@appik-studio/expo-parsely"

  /**
    The example app's dependency rewrite: when the dependencies exist and
    name this package with a non-empty range, that range becomes `^` and the
    new version; otherwise nothing changes.
   */
  function UpdateExampleDependency(deps: Option<map<string, string>>, newVersion: string): (r: Option<map<string, string>>)
    ensures deps.None? ==> r == deps
    ensures deps.Some? && !(PackageName in deps.value && deps.value[PackageName] != "") ==> r == deps
    ensures deps.Some? && PackageName in deps.value && deps.value[PackageName] != "" ==>
      r.Some? && r.value.Keys == deps.value.Keys && r.value[PackageName] == "^" + newVersion
      && forall k :: k in deps.value && k != PackageName ==> r.value[k] == deps.value[k]
  {
    if deps.Some? && PackageName in deps.value && deps.value[PackageName] != "" then
      Some(deps.value[PackageName := "^" + newVersion])
    else deps
  }

  /** Rewriting twice for the same version is rewriting once. */
  lemma UpdateExampleDependencyIdempotent(deps: Option<map<string, string>>, newVersion: string)
    ensures UpdateExampleDependency(UpdateExampleDependency(deps, newVersion), newVersion) == UpdateExampleDependency(deps, newVersion)
  {
    if deps.Some? && PackageName in deps.value && deps.value[PackageName] != "" {
      var m := deps.value[PackageName := "^" + newVersion];
      assert m[PackageName := "^" + newVersion] == m;
    }
  }

  /** What a run computes: the new version text and the example app's new dependencies. */
  datatype Bumped = Bumped(newVersion: string, exampleDependencies: Option<map<string, string>>)

  /**
    `bumpVersion(releaseType)` on the version text: the parts as read,
    switched on the release type, written back, and the example dependency
    pointed at the result. A version that is not three runs of digits is
    still bumped, part by part, as `Number` reads it.
   */
  function BumpVersion(version: string, releaseType: string, deps: Option<map<string, string>>): (r: Bumped)
    ensures r.exampleDependencies == UpdateExampleDependency(deps, r.newVersion)
    ensures releaseType !in {"major", "minor", "patch"} ==> r.newVersion == PartsString(ReadParts(version))
    ensures forall t :: ParseVersion(version).Some? && releaseType == TypeName(t) ==>
      && ParseVersion(r.newVersion) == Some(Bump(ParseVersion(version).value, t))
      && Less(ParseVersion(version).value, ParseVersion(r.newVersion).value)
  {
    var text := PartsString(BumpParts(ReadParts(version), releaseType));
    assert forall t :: ParseVersion(version).Some? && releaseType == TypeName(t) ==>
      text == VersionString(Bump(ParseVersion(version).value, t)) by {
      forall t | ParseVersion(version).Some? && releaseType == TypeName(t)
        ensures text == VersionString(Bump(ParseVersion(version).value, t))
      {
        BumpPartsLifts(ParseVersion(version).value, t);
        PartsStringOfLift(Bump(ParseVersion(version).value, t));
      }
    }
    forall t | ParseVersion(version).Some? && releaseType == TypeName(t)
      ensures ParseVersion(text) == Some(Bump(ParseVersion(version).value, t))
    {
      ParseVersionString(Bump(ParseVersion(version).value, t));
      BumpIncreases(ParseVersion(version).value, t);
    }
    Bumped(text, UpdateExampleDependency(deps, text))
  }

  /** Versions that are not three runs of digits are still bumped, as `Number` reads their parts: extra parts are ignored. */
  lemma ExtraPartsIgnored()
    ensures BumpVersion("1.2.3.4", "patch", None).newVersion == "1.2.4"
  {
    var v := Version(1, 2, 3);
    VersionStringShape(v);
    assert "1.2.3.4" == VersionString(v) + "." + "4";
    ReadPartsIgnoresRest(v, "4");
    assert BumpParts(Lift(v), "patch") == Parts(Num(1), Num(2), Num(4));
  }

  /** An empty part reads as 0. */
  lemma EmptyPartReadsZero()
    ensures BumpVersion("1..3", "patch", None).newVersion == "1.0.4"
  {
    assert "1..3" == "1" + "." + "" + "." + "3";
    SplitDots3("1", "", "3");
    assert ReadParts("1..3") == Parts(Num(1), Num(0), Num(3));
  }

  /**
    A patch part that is not a run of digits (as in `1.2.3-beta`) is `NaN`:
    a minor bump resets it to 0, a patch bump writes it as `NaN`.
   */
  lemma NaNPatchBumped(v: Version, patch: string)
    requires Avoids(patch, {'.'}) && !AllDigits(patch)
    ensures var s := NatToString(v.major) + "." + NatToString(v.minor) + "." + patch;
      && BumpVersion(s, "minor", None).newVersion == VersionString(Version(v.major, v.minor + 1, 0))
      && BumpVersion(s, "patch", None).newVersion == NatToString(v.major) + "." + NatToString(v.minor) + ".NaN"
  {
    var a, b := NatToString(v.major), NatToString(v.minor);
    DigitsAvoidDot(a);
    DigitsAvoidDot(b);
    SplitDots3(a, b, patch);
    ParseNatOfNatToString(v.major);
    ParseNatOfNatToString(v.minor);
    assert ReadParts(a + "." + b + "." + patch) == Parts(Num(v.major), Num(v.minor), NaN);
    PartsStringOfLift(Version(v.major, v.minor + 1, 0));
  }

  /** A missing part is `undefined`: incremented it becomes `NaN`, left alone it is written as `undefined`. */
  lemma MissingPartBumped()
    ensures BumpVersion("1.2", "patch", None).newVersion == "1.2.NaN"
    ensures BumpVersion("1.2", "majr", None).newVersion == "1.2.undefined"
  {
    assert "1.2" == "1" + "." + "2";
    SplitDots2("1", "2");
    assert ReadParts("1.2") == Parts(Num(1), Num(2), Undefined);
  }

  /**
    The release type as written: `process.argv[2] as ReleaseType || 'patch'`
    lets any non-empty argument through to the switch.
   */
  function BumpAsWritten(version: string, argument: Option<string>, deps: Option<map<string, string>>): Bumped {
    BumpVersion(version, OrElse(argument, "patch"), deps)
  }

  /** A mistyped release type "bumps" a well-formed version to the very same version. */
  lemma MistypedReleaseTypeKeepsVersion(v: Version, deps: Option<map<string, string>>)
    ensures BumpAsWritten(VersionString(v), Some("majr"), deps).newVersion == VersionString(v)
    ensures ParseVersion(BumpAsWritten(VersionString(v), Some("majr"), deps).newVersion) == Some(v)
  {
    ParseVersionString(v);
    PartsStringOfLift(v);
  }

  /** The evidently intended reading of the argument: the three names, `patch` when absent or empty, anything else refused. */
  function ParseReleaseType(argument: Option<string>): (r: Option<ReleaseType>)
    ensures !Truthy(argument) ==> r == Some(Patch)
    ensures Truthy(argument) ==> (r.Some? <==> argument.value in {"major", "minor", "patch"})
    ensures r == Some(Major) <==> argument == Some("major")
    ensures r == Some(Minor) <==> argument == Some("minor")
    ensures r.Some? ==> TypeName(r.value) == OrElse(argument, "patch")
  {
    var releaseType := OrElse(argument, "patch");
    if releaseType == "major" then Some(Major)
    else if releaseType == "minor" then Some(Minor)
    else if releaseType == "patch" then Some(Patch)
    else None
  }

  /**
    Every argument the corrected reading accepts yields a strictly greater
    version, and on those arguments the script computes the same version.
   */
  lemma AcceptedReleaseTypeIncreases(v: Version, argument: Option<string>, deps: Option<map<string, string>>)
    requires ParseReleaseType(argument).Some?
    ensures Less(v, Bump(v, ParseReleaseType(argument).value))
    ensures BumpAsWritten(VersionString(v), argument, deps).newVersion == VersionString(Bump(v, ParseReleaseType(argument).value))
  {
    var t := ParseReleaseType(argument).value;
    ParseVersionString(v);
    BumpPartsLifts(v, t);
    PartsStringOfLift(Bump(v, t));
  }
}
