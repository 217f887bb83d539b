/**
 * The update check of `updater.rs`: version precedence (section 11 of
 * Semantic Versioning 2.0.0) over parsed versions, the tag stripping of
 * `check_for_updates`, and the tiered release-asset choice of
 * `find_7z_asset`.
 */
module Updater {

  import opened Wrappers
  import opened Text
  import opened Errors

  // ---------------------------------------------------------------------
  // Versions

  /** A pre-release identifier: numeric, or alphanumeric (section 9 of Semantic Versioning 2.0.0). */
  datatype Identifier = Numeric(n: nat) | Alphanumeric(s: string)

  /** MAJOR.MINOR.PATCH, pre-release identifiers and build identifiers. */
  datatype Version = Version(major: nat, minor: nat, patch: nat, pre: seq<Identifier>, build: seq<string>)

  /** Version numbers are 64-bit unsigned integers in the parser. */
  const U64_LIMIT: nat := 0x1_0000_0000_0000_0000

  /** The characters identifiers are made of: [0-9A-Za-z-]. */
  predicate IdentChar(c: char) {
    'a' <= c <= 'z' || 'A' <= c <= 'Z' || IsDigit(c) || c == '-'
  }

  predicate IdentChars(s: string) {
    forall i :: 0 <= i < |s| ==> IdentChar(s[i])
  }

  /** A non-empty digit string without leading zero. */
  predicate Canonical(s: string) {
    |s| > 0 && AllDigits(s) && (|s| > 1 ==> s[0] != '0')
  }

  /** A major, minor or patch number. */
  function ParseNumber(s: string): Option<nat> {
    if Canonical(s) && DigitsValue(s) < U64_LIMIT then Some(DigitsValue(s)) else None
  }

  /** A pre-release identifier: numeric ones may not have leading zeros. */
  function ParsePre(s: string): Option<Identifier> {
    if s == [] || !IdentChars(s) then None
    else if AllDigits(s) then (if Canonical(s) then Some(Numeric(DigitsValue(s))) else None)
    else Some(Alphanumeric(s))
  }

  /** A build identifier: any non-empty run of identifier characters. */
  function ParseBuild(s: string): Option<string> {
    if s != [] && IdentChars(s) then Some(s) else None
  }

  /** Every piece parsed by `parse`, or None when one fails. */
  function ParseAll<T>(pieces: seq<string>, parse: string -> Option<T>): (r: Option<seq<T>>)
    ensures r.Some? ==> |r.value| == |pieces|
    decreases |pieces|
  {
    if pieces == [] then Some([])
    else match (parse(pieces[0]), ParseAll(pieces[1..], parse))
      case (Some(x), Some(xs)) => Some([x] + xs)
      case _ => None
  }

  /**
   * `semver::Version::parse`: "MAJOR.MINOR.PATCH", then "-" and the
   * dot-separated pre-release identifiers, then "+" and the build
   * identifiers.
   */
  function ParseVersion(s: string): Option<Version> {
    var main := UntilChar(s, '+');
    var build := AfterChar(s, '+');
    var core := UntilChar(main, '-');
    var pre := AfterChar(main, '-');
    var numbers := Split(core, '.');
    if |numbers| != 3 then None
    else
      match (ParseNumber(numbers[0]), ParseNumber(numbers[1]), ParseNumber(numbers[2]))
      case (Some(major), Some(minor), Some(patch)) =>
        var pres := if pre.None? then Some([]) else ParseAll(Split(pre.value, '.'), ParsePre);
        var builds := if build.None? then Some([]) else ParseAll(Split(build.value, '.'), ParseBuild);
        if pres.Some? && builds.Some? then Some(Version(major, minor, patch, pres.value, builds.value))
        else None
      case _ => None
  }

  function FormatIdentifier(id: Identifier): string {
    match id
    case Numeric(n) => Decimal(n)
    case Alphanumeric(s) => s
  }

  /** "MAJOR.MINOR.PATCH". */
  function CoreText(v: Version): string {
    Join([Decimal(v.major), Decimal(v.minor), Decimal(v.patch)], ".")
  }

  function PrePieces(pre: seq<Identifier>): seq<string> {
    seq(|pre|, i requires 0 <= i < |pre| => FormatIdentifier(pre[i]))
  }

  /** The version without its build identifiers. */
  function MainText(v: Version): string {
    CoreText(v) + (if v.pre == [] then "" else "-" + Join(PrePieces(v.pre), "."))
  }

  /** The text of a version, as section 2 of Semantic Versioning 2.0.0 writes it. */
  function FormatVersion(v: Version): string {
    MainText(v) + (if v.build == [] then "" else "+" + Join(v.build, "."))
  }

  /** The versions the parser can produce. */
  predicate WellFormed(v: Version) {
    && v.major < U64_LIMIT && v.minor < U64_LIMIT && v.patch < U64_LIMIT
    && (forall i :: 0 <= i < |v.pre| && v.pre[i].Alphanumeric? ==>
          v.pre[i].s != [] && IdentChars(v.pre[i].s) && !AllDigits(v.pre[i].s))
    && (forall i :: 0 <= i < |v.build| ==> v.build[i] != [] && IdentChars(v.build[i]))
  }

  // ---------------------------------------------------------------------
  // Precedence (section 11 of Semantic Versioning 2.0.0)

  /** ASCII order on strings: lexicographic, a proper prefix first. */
  predicate AsciiLess(x: string, y: string)
    decreases |x|
  {
    if x == [] then y != []
    else y != [] && (x[0] < y[0] || (x[0] == y[0] && AsciiLess(x[1..], y[1..])))
  }

  /**
   * Sections 11.4.1-11.4.3 of Semantic Versioning 2.0.0: numbers
   * numerically, text in ASCII order, numbers before text.
   */
  predicate IdentLess(a: Identifier, b: Identifier) {
    match (a, b)
    case (Numeric(x), Numeric(y)) => x < y
    case (Numeric(_), Alphanumeric(_)) => true
    case (Alphanumeric(_), Numeric(_)) => false
    case (Alphanumeric(x), Alphanumeric(y)) => AsciiLess(x, y)
  }

  /** Section 11.4 of Semantic Versioning 2.0.0: field by field; a shorter list that is a prefix comes first. */
  predicate IdentsLess(a: seq<Identifier>, b: seq<Identifier>)
    decreases |a|
  {
    if a == [] then b != []
    else b != [] && (IdentLess(a[0], b[0]) || (a[0] == b[0] && IdentsLess(a[1..], b[1..])))
  }

  /** Section 11.3 of Semantic Versioning 2.0.0: a pre-release comes before the release itself. */
  predicate PreLess(a: seq<Identifier>, b: seq<Identifier>) {
    a != [] && (b == [] || IdentsLess(a, b))
  }

  /**
   * `v` has lower precedence than `w`; build identifiers do not count
   * (sections 11.2-11.4 of Semantic Versioning 2.0.0).
   */
  predicate Less(v: Version, w: Version) {
    if v.major != w.major then v.major < w.major
    else if v.minor != w.minor then v.minor < w.minor
    else if v.patch != w.patch then v.patch < w.patch
    else PreLess(v.pre, w.pre)
  }

  /** Equal precedence: everything but the build identifiers agrees. */
  predicate SamePrecedence(v: Version, w: Version) {
    v.major == w.major && v.minor == w.minor && v.patch == w.patch && v.pre == w.pre
  }

  // ---------------------------------------------------------------------
  // Precedence is a strict order

  lemma {:induction false} AsciiLessIrreflexive(x: string)
    ensures !AsciiLess(x, x)
    decreases |x|
  {
    if x != [] {
      AsciiLessIrreflexive(x[1..]);
    }
  }

  lemma {:induction false} AsciiLessTransitive(x: string, y: string, z: string)
    requires AsciiLess(x, y) && AsciiLess(y, z)
    ensures AsciiLess(x, z)
    decreases |x|
  {
    if x != [] && x[0] == y[0] && y[0] == z[0] {
      AsciiLessTransitive(x[1..], y[1..], z[1..]);
    }
  }

  lemma {:induction false} AsciiLessTotal(x: string, y: string)
    ensures x == y || AsciiLess(x, y) || AsciiLess(y, x)
    decreases |x|
  {
    if x != [] && y != [] && x[0] == y[0] {
      AsciiLessTotal(x[1..], y[1..]);
      if x[1..] == y[1..] {
        assert x == [x[0]] + x[1..] && y == [y[0]] + y[1..];
      }
    }
  }

  lemma IdentLessIrreflexive(a: Identifier)
    ensures !IdentLess(a, a)
  {
    if a.Alphanumeric? {
      AsciiLessIrreflexive(a.s);
    }
  }

  lemma IdentLessTransitive(a: Identifier, b: Identifier, c: Identifier)
    requires IdentLess(a, b) && IdentLess(b, c)
    ensures IdentLess(a, c)
  {
    if a.Alphanumeric? && b.Alphanumeric? && c.Alphanumeric? {
      AsciiLessTransitive(a.s, b.s, c.s);
    }
  }

  lemma IdentLessTotal(a: Identifier, b: Identifier)
    ensures a == b || IdentLess(a, b) || IdentLess(b, a)
  {
    if a.Alphanumeric? && b.Alphanumeric? {
      AsciiLessTotal(a.s, b.s);
    }
  }

  lemma {:induction false} IdentsLessIrreflexive(a: seq<Identifier>)
    ensures !IdentsLess(a, a)
    decreases |a|
  {
    if a != [] {
      IdentLessIrreflexive(a[0]);
      IdentsLessIrreflexive(a[1..]);
    }
  }

  lemma {:induction false} IdentsLessTransitive(a: seq<Identifier>, b: seq<Identifier>, c: seq<Identifier>)
    requires IdentsLess(a, b) && IdentsLess(b, c)
    ensures IdentsLess(a, c)
    decreases |a|
  {
    if a != [] {
      if IdentLess(a[0], b[0]) && IdentLess(b[0], c[0]) {
        IdentLessTransitive(a[0], b[0], c[0]);
      } else if a[0] == b[0] && b[0] == c[0] {
        IdentsLessTransitive(a[1..], b[1..], c[1..]);
      }
    }
  }

  lemma {:induction false} IdentsLessTotal(a: seq<Identifier>, b: seq<Identifier>)
    ensures a == b || IdentsLess(a, b) || IdentsLess(b, a)
    decreases |a|
  {
    if a != [] && b != [] {
      IdentLessTotal(a[0], b[0]);
      if a[0] == b[0] {
        IdentsLessTotal(a[1..], b[1..]);
        if a[1..] == b[1..] {
          assert a == [a[0]] + a[1..] && b == [b[0]] + b[1..];
        }
      }
    }
  }

  /**
   * Precedence is a strict total order up to build identifiers: never
   * `v < v`, transitive, and of two versions either one comes first or
   * they have the same precedence (section 11 of Semantic Versioning 2.0.0).
   */
  lemma LessIsStrictOrder(u: Version, v: Version, w: Version)
    ensures !Less(v, v)
    ensures Less(u, v) && Less(v, w) ==> Less(u, w)
    ensures Less(v, w) ==> !Less(w, v)
    ensures Less(v, w) || Less(w, v) || SamePrecedence(v, w)
  {
    IdentsLessIrreflexive(v.pre);
    IdentsLessTotal(v.pre, w.pre);
    if IdentsLess(u.pre, v.pre) && IdentsLess(v.pre, w.pre) {
      IdentsLessTransitive(u.pre, v.pre, w.pre);
    }
    if IdentsLess(v.pre, w.pre) && IdentsLess(w.pre, v.pre) {
      IdentsLessTransitive(v.pre, w.pre, v.pre);
    }
  }

  // ---------------------------------------------------------------------
  // Parsing undoes formatting

  /** Identifier characters exclude the separators '.' and '+'. */
  lemma IdentCharsAvoid(s: string)
    requires IdentChars(s)
    ensures '.' !in s && '+' !in s
  {
    assert forall i :: 0 <= i < |s| ==> s[i] != '.' && s[i] != '+';
  }

  lemma NumberRoundTrip(n: nat)
    requires n < U64_LIMIT
    ensures ParseNumber(Decimal(n)) == Some(n)
    ensures IdentChars(Decimal(n)) && '-' !in Decimal(n)
  {
    DecimalValue(n);
    DecimalNoLeadingZero(n);
    var d := Decimal(n);
    assert forall i :: 0 <= i < |d| ==> d[i] != '-';
  }

  lemma IdentifierRoundTrip(id: Identifier)
    requires id.Alphanumeric? ==> id.s != [] && IdentChars(id.s) && !AllDigits(id.s)
    ensures ParsePre(FormatIdentifier(id)) == Some(id)
    ensures IdentChars(FormatIdentifier(id))
  {
    if id.Numeric? {
      DecimalValue(id.n);
      DecimalNoLeadingZero(id.n);
    }
  }

  /** Parsing each formatted piece gives the piece back, so parsing them all does. */
  lemma {:induction false} ParseAllOf<T>(xs: seq<T>, pieces: seq<string>, parse: string -> Option<T>)
    requires |pieces| == |xs|
    requires forall i :: 0 <= i < |xs| ==> parse(pieces[i]) == Some(xs[i])
    ensures ParseAll(pieces, parse) == Some(xs)
    decreases |xs|
  {
    if xs != [] {
      ParseAllOf(xs[1..], pieces[1..], parse);
      assert xs == [xs[0]] + xs[1..];
    }
  }

  /** The pre-release part: its pieces parse back to the identifiers. */
  lemma PreRoundTrip(pre: seq<Identifier>)
    requires pre != []
    requires forall i :: 0 <= i < |pre| && pre[i].Alphanumeric? ==>
      pre[i].s != [] && IdentChars(pre[i].s) && !AllDigits(pre[i].s)
    ensures ParseAll(Split(Join(PrePieces(pre), "."), '.'), ParsePre) == Some(pre)
    ensures '+' !in Join(PrePieces(pre), ".")
  {
    var pieces := PrePieces(pre);
    forall i | 0 <= i < |pre|
      ensures ParsePre(pieces[i]) == Some(pre[i]) && '.' !in pieces[i] && '+' !in pieces[i]
    {
      IdentifierRoundTrip(pre[i]);
      IdentCharsAvoid(pieces[i]);
    }
    SplitJoin(pieces, '.');
    ParseAllOf(pre, pieces, ParsePre);
    JoinAvoids(pieces, ".", '+');
  }

  /** The build part: its pieces parse back to themselves. */
  lemma BuildRoundTrip(build: seq<string>)
    requires build != []
    requires forall i :: 0 <= i < |build| ==> build[i] != [] && IdentChars(build[i])
    ensures ParseAll(Split(Join(build, "."), '.'), ParseBuild) == Some(build)
  {
    forall i | 0 <= i < |build|
      ensures ParseBuild(build[i]) == Some(build[i]) && '.' !in build[i]
    {
      IdentCharsAvoid(build[i]);
    }
    SplitJoin(build, '.');
    ParseAllOf(build, build, ParseBuild);
  }

  /** The core splits back into its three numbers, and has no '-' or '+'. */
  lemma CoreRoundTrip(v: Version)
    requires WellFormed(v)
    ensures var numbers := Split(CoreText(v), '.');
      |numbers| == 3 && ParseNumber(numbers[0]) == Some(v.major)
      && ParseNumber(numbers[1]) == Some(v.minor) && ParseNumber(numbers[2]) == Some(v.patch)
    ensures '-' !in CoreText(v) && '+' !in CoreText(v)
  {
    var numbers := [Decimal(v.major), Decimal(v.minor), Decimal(v.patch)];
    NumberRoundTrip(v.major);
    NumberRoundTrip(v.minor);
    NumberRoundTrip(v.patch);
    IdentCharsAvoid(numbers[0]);
    IdentCharsAvoid(numbers[1]);
    IdentCharsAvoid(numbers[2]);
    SplitJoin(numbers, '.');
    JoinAvoids(numbers, ".", '+');
    JoinAvoids(numbers, ".", '-');
  }

  /** The first '-' of the main part ends the core. */
  lemma MainSplits(v: Version)
    requires WellFormed(v)
    ensures UntilChar(MainText(v), '-') == CoreText(v)
    ensures AfterChar(MainText(v), '-') == if v.pre == [] then None else Some(Join(PrePieces(v.pre), "."))
    ensures '+' !in MainText(v)
  {
    CoreRoundTrip(v);
    var core := CoreText(v);
    if v.pre != [] {
      var preText := Join(PrePieces(v.pre), ".");
      PreRoundTrip(v.pre);
      assert MainText(v) == core + ['-'] + preText;
      UntilCharFirst(core, '-', preText);
      AfterCharFirst(core, '-', preText);
    } else {
      assert MainText(v) == core;
      UntilAbsentChar(core, '-');
    }
  }

  /** The first '+' of the text ends the main part. */
  lemma FormatSplits(v: Version)
    requires WellFormed(v)
    ensures UntilChar(FormatVersion(v), '+') == MainText(v)
    ensures AfterChar(FormatVersion(v), '+') == if v.build == [] then None else Some(Join(v.build, "."))
  {
    MainSplits(v);
    var main := MainText(v);
    if v.build != [] {
      assert FormatVersion(v) == main + ['+'] + Join(v.build, ".");
      UntilCharFirst(main, '+', Join(v.build, "."));
      AfterCharFirst(main, '+', Join(v.build, "."));
    } else {
      assert FormatVersion(v) == main;
      UntilAbsentChar(main, '+');
    }
  }

  /** What the parser reads from a text, given how the text splits at '+', '-' and '.'. */
  lemma ParseFromParts(s: string, v: Version, preText: Option<string>, buildText: Option<string>)
    requires AfterChar(s, '+') == buildText && AfterChar(UntilChar(s, '+'), '-') == preText
    requires var numbers := Split(UntilChar(UntilChar(s, '+'), '-'), '.');
      |numbers| == 3 && ParseNumber(numbers[0]) == Some(v.major)
      && ParseNumber(numbers[1]) == Some(v.minor) && ParseNumber(numbers[2]) == Some(v.patch)
    requires preText.None? <==> v.pre == []
    requires preText.Some? ==> ParseAll(Split(preText.value, '.'), ParsePre) == Some(v.pre)
    requires buildText.None? <==> v.build == []
    requires buildText.Some? ==> ParseAll(Split(buildText.value, '.'), ParseBuild) == Some(v.build)
    ensures ParseVersion(s) == Some(v)
  {
  }

  /** Every version the parser can produce is read back from its text. */
  lemma ParseFormat(v: Version)
    requires WellFormed(v)
    ensures ParseVersion(FormatVersion(v)) == Some(v)
  {
    FormatSplits(v);
    MainSplits(v);
    CoreRoundTrip(v);
    if v.pre != [] {
      PreRoundTrip(v.pre);
    }
    if v.build != [] {
      BuildRoundTrip(v.build);
    }
    ParseFromParts(FormatVersion(v), v,
      if v.pre == [] then None else Some(Join(PrePieces(v.pre), ".")),
      if v.build == [] then None else Some(Join(v.build, ".")));
  }

  // ---------------------------------------------------------------------
  // Comparing and checking

  /**
   * `compare_versions`: whether `latest` is newer than `current`; either
   * failing to parse is an error.
   */
  function CompareVersions(current: string, latest: string): (r: Result<bool, Error>)
    ensures r.Failure? <==> ParseVersion(current).None? || ParseVersion(latest).None?
    ensures r.Failure? && ParseVersion(current).None? ==> r.error.top == "Failed to parse current version"
    ensures r.Failure? && ParseVersion(current).Some? ==> r.error.top == "Failed to parse latest version"
  {
    match ParseVersion(current)
    case None => Failure(Msg("Failed to parse current version"))
    case Some(c) =>
      match ParseVersion(latest)
      case None => Failure(Msg("Failed to parse latest version"))
      case Some(l) => Success(Less(c, l))
  }

  /** The tag with every leading 'v' removed (`trim_start_matches('v')`). */
  function TrimStartV(tag: string): (r: string)
    ensures |r| <= |tag| && tag[|tag| - |r|..] == r
    ensures forall i :: 0 <= i < |tag| - |r| ==> tag[i] == 'v'
    ensures r == [] || r[0] != 'v'
    decreases |tag|
  {
    if tag != [] && tag[0] == 'v' then TrimStartV(tag[1..]) else tag
  }

  /** For the texts of two versions, `compare_versions` is their precedence order. */
  lemma CompareFormatted(current: Version, latest: Version)
    requires WellFormed(current) && WellFormed(latest)
    ensures CompareVersions(FormatVersion(current), FormatVersion(latest)) == Success(Less(current, latest))
  {
    ParseFormat(current);
    ParseFormat(latest);
  }

  /** A version is never newer than itself: equal versions give false. */
  lemma SameVersionIsNoUpdate(version: string)
    ensures CompareVersions(version, version) != Success(true)
  {
    if ParseVersion(version).Some? {
      var v := ParseVersion(version).value;
      LessIsStrictOrder(v, v, v);
    }
  }

  /** Only a version of strictly higher precedence counts as newer. */
  lemma NewerIsHigher(current: string, latest: string)
    requires CompareVersions(current, latest) == Success(true)
    ensures CompareVersions(latest, current) == Success(false)
  {
    var c := ParseVersion(current).value;
    var l := ParseVersion(latest).value;
    LessIsStrictOrder(c, c, l);
  }

  /** Each piece of a successful `ParseAll` parses to the matching element. */
  lemma {:induction false} ParseAllPieces<T>(pieces: seq<string>, parse: string -> Option<T>)
    requires ParseAll(pieces, parse).Some?
    ensures forall i :: 0 <= i < |pieces| ==> parse(pieces[i]) == Some(ParseAll(pieces, parse).value[i])
    decreases |pieces|
  {
    if pieces != [] {
      ParseAllPieces(pieces[1..], parse);
    }
  }

  /** Pre-release identifiers the parser reads are well formed. */
  lemma ParsedPre(pieces: seq<string>)
    requires ParseAll(pieces, ParsePre).Some?
    ensures var pre := ParseAll(pieces, ParsePre).value;
      forall i :: 0 <= i < |pre| && pre[i].Alphanumeric? ==>
        pre[i].s != [] && IdentChars(pre[i].s) && !AllDigits(pre[i].s)
  {
    ParseAllPieces(pieces, ParsePre);
  }

  /** Build identifiers the parser reads are well formed. */
  lemma ParsedBuild(pieces: seq<string>)
    requires ParseAll(pieces, ParseBuild).Some?
    ensures var build := ParseAll(pieces, ParseBuild).value;
      forall i :: 0 <= i < |build| ==> build[i] != [] && IdentChars(build[i])
  {
    ParseAllPieces(pieces, ParseBuild);
  }

  /** Whatever the parser accepts is well formed, so `CompareFormatted` covers every comparison that succeeds. */
  lemma ParsedWellFormed(s: string)
    requires ParseVersion(s).Some?
    ensures WellFormed(ParseVersion(s).value)
    ensures ParseVersion(FormatVersion(ParseVersion(s).value)) == ParseVersion(s)
  {
    var main := UntilChar(s, '+');
    var pre := AfterChar(main, '-');
    var build := AfterChar(s, '+');
    if pre.Some? {
      ParsedPre(Split(pre.value, '.'));
    }
    if build.Some? {
      ParsedBuild(Split(build.value, '.'));
    }
    ParseFormat(ParseVersion(s).value);
  }

  /** The text of a release version with one-digit numbers. */
  lemma ShortVersionText(major: nat, minor: nat, patch: nat)
    requires major < 10 && minor < 10 && patch < 10
    ensures FormatVersion(Version(major, minor, patch, [], []))
      == [DigitChar(major), '.', DigitChar(minor), '.', DigitChar(patch)]
  {
    var pieces := [Decimal(major), Decimal(minor), Decimal(patch)];
    assert Join(pieces[2..], ".") == [DigitChar(patch)];
    assert Join(pieces[1..], ".") == [DigitChar(minor)] + "." + [DigitChar(patch)];
  }

  /** The release tag "v1.3.0" names version "1.3.0". */
  lemma TrimScenario()
    ensures TrimStartV("v1.3.0") == "1.3.0"
  {
    assert "v1.3.0"[1..] == "1.3.0";
  }

  /** "1.2.0" against the tag "v1.3.0" is an update; "1.3.0" against it is not. */
  lemma UpdateScenario()
    ensures CompareVersions("1.2.0", TrimStartV("v1.3.0")) == Success(true)
    ensures CompareVersions("1.3.0", TrimStartV("v1.3.0")) == Success(false)
  {
    var older := Version(1, 2, 0, [], []);
    var newer := Version(1, 3, 0, [], []);
    ShortVersionText(1, 2, 0);
    ShortVersionText(1, 3, 0);
    TrimScenario();
    CompareFormatted(older, newer);
    CompareFormatted(newer, newer);
  }

  datatype Asset = Asset(name: string, downloadUrl: string)

  datatype Release = Release(tagName: string, assets: seq<Asset>)

  datatype UpdateInfo = UpdateInfo(latestVersion: string, downloadUrl: string, isAvailable: bool)

  /**
   * `check_for_updates` on the release the GitHub API returned (or the
   * error fetching it).
   */
  function CheckForUpdates(currentVersion: string, release: Result<Release, Error>): (r: Result<UpdateInfo, Error>)
    ensures release.Failure? ==> r == Failure(release.error)
    ensures release.Success? ==> r.Success? == CompareVersions(currentVersion, TrimStartV(release.value.tagName)).Success?
  {
    match release
    case Failure(e) => Failure(e)
    case Success(rel) =>
      var latest := TrimStartV(rel.tagName);
      match CompareVersions(currentVersion, latest)
      case Failure(e) => Failure(e)
      case Success(available) =>
        var url := if available then SelectAsset(rel.assets).GetOr("") else "";
        Success(UpdateInfo(latest, url, available))
  }

  // ---------------------------------------------------------------------
  // Asset choice

  /** The suffix tiers of `find_7z_asset`, most preferred first. */
  const TIERS: seq<seq<string>> := [[".7z"], [".zip"], [".tar.gz", ".tgz"], [".tar.zst", ".tar.zstd"]]

  /** The first asset from index `from` on whose name is in the tier. */
  function FirstInTier(assets: seq<Asset>, tier: seq<string>, from: nat): (r: Option<nat>)
    requires from <= |assets|
    ensures r.Some? ==> from <= r.value < |assets| && EndsWithAny(assets[r.value].name, tier)
    ensures r.Some? ==> forall j :: from <= j < r.value ==> !EndsWithAny(assets[j].name, tier)
    ensures r.None? ==> forall j :: from <= j < |assets| ==> !EndsWithAny(assets[j].name, tier)
    decreases |assets| - from
  {
    if from == |assets| then None
    else if EndsWithAny(assets[from].name, tier) then Some(from)
    else FirstInTier(assets, tier, from + 1)
  }

  /** The asset chosen from tier `t` on: the first of the first tier that has one. */
  function SelectFrom(assets: seq<Asset>, tiers: seq<seq<string>>, t: nat): (r: Option<nat>)
    requires t <= |tiers|
    ensures r.Some? ==> r.value < |assets|
    decreases |tiers| - t
  {
    if t == |tiers| then None
    else match FirstInTier(assets, tiers[t], 0)
      case Some(i) => Some(i)
      case None => SelectFrom(assets, tiers, t + 1)
  }

  /** `find_7z_asset`: the download URL of the chosen asset. */
  function SelectAsset(assets: seq<Asset>): Option<string> {
    match SelectFrom(assets, TIERS, 0)
    case Some(i) => Some(assets[i].downloadUrl)
    case None => None
  }

  /** The most preferred tier from `t` on that a name belongs to, if any. */
  function RankFrom(name: string, tiers: seq<seq<string>>, t: nat): (r: Option<nat>)
    requires t <= |tiers|
    ensures r.Some? ==> t <= r.value < |tiers| && EndsWithAny(name, tiers[r.value])
    ensures r.Some? ==> forall w :: t <= w < r.value ==> !EndsWithAny(name, tiers[w])
    ensures r.None? ==> forall w :: t <= w < |tiers| ==> !EndsWithAny(name, tiers[w])
    decreases |tiers| - t
  {
    if t == |tiers| then None
    else if EndsWithAny(name, tiers[t]) then Some(t)
    else RankFrom(name, tiers, t + 1)
  }

  /** The most preferred tier a name belongs to (0 for ".7z", ..., 3 for ".tar.zst"), if any. */
  function Rank(name: string): Option<nat> {
    RankFrom(name, TIERS, 0)
  }

  lemma {:induction false} SelectFromSpec(assets: seq<Asset>, tiers: seq<seq<string>>, t: nat)
    requires t <= |tiers|
    ensures var r := SelectFrom(assets, tiers, t);
      r.Some? ==> (RankFrom(assets[r.value].name, tiers, t).Some?
        && (forall j :: 0 <= j < |assets| && RankFrom(assets[j].name, tiers, t).Some? ==>
              RankFrom(assets[r.value].name, tiers, t).value <= RankFrom(assets[j].name, tiers, t).value)
        && (forall j :: 0 <= j < r.value ==> RankFrom(assets[j].name, tiers, t) != RankFrom(assets[r.value].name, tiers, t)))
    ensures SelectFrom(assets, tiers, t).None? <==> forall j :: 0 <= j < |assets| ==> RankFrom(assets[j].name, tiers, t).None?
    decreases |tiers| - t
  {
    if t < |tiers| {
      SelectFromSpec(assets, tiers, t + 1);
      var first := FirstInTier(assets, tiers[t], 0);
      if first.Some? {
        assert RankFrom(assets[first.value].name, tiers, t) == Some(t);
      } else {
        assert forall j :: 0 <= j < |assets| ==> RankFrom(assets[j].name, tiers, t) == RankFrom(assets[j].name, tiers, t + 1);
      }
    }
  }

  /**
   * `find_7z_asset` picks an asset of the best tier present (.7z, then
   * .zip, then .tar.gz/.tgz, then .tar.zst/.tar.zstd), the earliest of
   * that tier in list order; it finds none iff no name has a supported
   * suffix.
   */
  lemma PreferredAsset(assets: seq<Asset>)
    ensures SelectAsset(assets).None? <==> forall j :: 0 <= j < |assets| ==> Rank(assets[j].name).None?
    ensures SelectAsset(assets).Some? ==>
      exists i :: (0 <= i < |assets| && SelectAsset(assets) == Some(assets[i].downloadUrl)
        && Rank(assets[i].name).Some?
        && (forall j :: 0 <= j < |assets| && Rank(assets[j].name).Some? ==> Rank(assets[i].name).value <= Rank(assets[j].name).value)
        && (forall j :: 0 <= j < i ==> Rank(assets[j].name) != Rank(assets[i].name)))
  {
    SelectFromSpec(assets, TIERS, 0);
  }

  /** One loop of `find_7z_asset`: the first asset whose name is in the tier. */
  method ScanTier(assets: seq<Asset>, tier: seq<string>) returns (found: Option<nat>)
    ensures found == FirstInTier(assets, tier, 0)
  {
    var i := 0;
    while i < |assets|
      invariant 0 <= i <= |assets|
      invariant FirstInTier(assets, tier, 0) == FirstInTier(assets, tier, i)
    {
      if EndsWithAny(assets[i].name, tier) {
        return Some(i);
      }
      i := i + 1;
    }
    return None;
  }

  /** `find_7z_asset`: the four loops, one tier after another. */
  method Find7zAsset(assets: seq<Asset>) returns (url: Option<string>)
    ensures url == SelectAsset(assets)
  {
    var t := 0;
    while t < |TIERS|
      invariant 0 <= t <= |TIERS|
      invariant SelectFrom(assets, TIERS, 0) == SelectFrom(assets, TIERS, t)
    {
      var found := ScanTier(assets, TIERS[t]);
      if found.Some? {
        return Some(assets[found.value].downloadUrl);
      }
      t := t + 1;
    }
    return None;
  }

  /**
   * The outcome of an update check: the latest version is the stripped
   * tag; an update is available iff it is newer; the download URL is that
   * of the preferred asset, and "" when there is no update or no
   * supported asset.
   */
  lemma UpdateDecision(currentVersion: string, release: Release)
    requires CheckForUpdates(currentVersion, Success(release)).Success?
    ensures var info := CheckForUpdates(currentVersion, Success(release)).value;
      var latest := TrimStartV(release.tagName);
      && info.latestVersion == latest
      && (info.isAvailable <==> Less(ParseVersion(currentVersion).value, ParseVersion(latest).value))
      && (!info.isAvailable ==> info.downloadUrl == "")
      && (info.isAvailable && SelectAsset(release.assets).Some? ==> info.downloadUrl == SelectAsset(release.assets).value)
      && (info.isAvailable && (forall j :: 0 <= j < |release.assets| ==> Rank(release.assets[j].name).None?) ==>
            info.downloadUrl == "")
  {
    PreferredAsset(release.assets);
  }
}
