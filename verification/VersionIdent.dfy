/** Version identifiers such as community-7.2.0-14-serverless. */
module VersionIdent {
  import Decimal
  import opened Options
  import opened Text

  datatype Version = Version(version: string, buildNo: int, community: bool, serverless: bool)

  const ENTERPRISE: string := "enterprise"
  const COMMUNITY: string := "community"
  const SERVERLESS: string := "serverless"
  const MAX_INT64: int := 0x7FFF_FFFF_FFFF_FFFF
  const MIN_INT64: int := -0x8000_0000_0000_0000

  /** An optional sign and at least one digit, within 64 bits. */
  function ParseInt(s: string): (r: Option<int>)
    ensures r.Some? ==> MIN_INT64 <= r.value <= MAX_INT64
  {
    if s == [] then None
    else
      var negative := s[0] == '-';
      var digits := if negative || s[0] == '+' then s[1..] else s;
      if digits == [] || !Decimal.AllDigits(digits) then None
      else
        var magnitude: int := Decimal.Value(digits);
        var v := if negative then -magnitude else magnitude;
        if MIN_INT64 <= v <= MAX_INT64 then Some(v) else None
  }

  lemma ParseIntNumeral(n: nat)
    requires n <= MAX_INT64
    ensures ParseInt(Decimal.Numeral(n)) == Some(n)
  {
    var s := Decimal.Numeral(n);
    assert s[0] in s;
  }

  /** Edition, version and build number of the parts that remain without the serverless mark. */
  function Classify(parts: seq<string>): (string, string, string) {
    if |parts| == 1 then (ENTERPRISE, parts[0], "0")
    else if |parts| == 2 then
      if '.' in parts[0] then (ENTERPRISE, parts[0], parts[1]) else (parts[0], parts[1], "0")
    else if |parts| == 3 then (parts[0], parts[1], parts[2])
    else (ENTERPRISE, "", "0")
  }

  function Assemble(edition: string, version: string, build: string, serverless: bool): Option<Version> {
    if edition != COMMUNITY && edition != ENTERPRISE then None
    else if |Split(version, '.')| < 2 then None
    else
      var buildNo := ParseInt(build);
      if buildNo.None? then None else Some(Version(version, buildNo.value, edition == COMMUNITY, serverless))
  }

  function IdentifyParts(parts: seq<string>): Option<Version>
    requires parts != []
  {
    var last := |parts| - 1;
    var serverless := parts[last] == SERVERLESS;
    var (edition, version, build) := Classify(if serverless then parts[..last] else parts);
    Assemble(edition, version, build, serverless)
  }

  function Identify(input: string): Option<Version> {
    IdentifyParts(Split(input, '-'))
  }

  // ----- what is identified -----

  ghost predicate IsEdition(s: string) {
    s == "community" || s == "enterprise"
  }

  /** A 64-bit number as the decimal parser reads it: perhaps a sign, then digits only. */
  ghost predicate IsNumber(s: string, n: int) {
    && -0x8000_0000_0000_0000 <= n < 0x8000_0000_0000_0000
    && exists digits | digits != "" && Decimal.AllDigits(digits) ::
         || ((s == digits || s == "+" + digits) && Decimal.Value(digits) == n)
         || (s == "-" + digits && Decimal.Value(digits) == -n)
  }

  lemma ParseIntMeans(s: string, n: int)
    ensures ParseInt(s) == Some(n) <==> IsNumber(s, n)
  {
    if ParseInt(s) == Some(n) {
      var digits := if s[0] == '-' || s[0] == '+' then s[1..] else s;
      assert s == digits || s == [s[0]] + digits;
      assert Decimal.AllDigits(digits);
    }
    if IsNumber(s, n) {
      var digits :| digits != "" && Decimal.AllDigits(digits)
                    && (|| ((s == digits || s == "+" + digits) && Decimal.Value(digits) == n)
                        || (s == "-" + digits && Decimal.Value(digits) == -n));
      assert digits[0] in digits;
      assert s != digits ==> s[1..] == digits;
    }
  }

  /** The four shapes: version; version-build; edition-version; edition-version-build. Without an edition it is the
      enterprise edition, without a build number it is 0. */
  ghost predicate Shape(parts: seq<string>, v: Version) {
    || (|parts| == 1 && '.' in parts[0] && v.version == parts[0] && !v.community && v.buildNo == 0)
    || (|parts| == 2 && '.' in parts[0] && v.version == parts[0] && !v.community && IsNumber(parts[1], v.buildNo))
    || (|parts| == 2 && IsEdition(parts[0]) && '.' in parts[1] && v.version == parts[1]
        && v.community == (parts[0] == "community") && v.buildNo == 0)
    || (|parts| == 3 && IsEdition(parts[0]) && '.' in parts[1] && v.version == parts[1]
        && v.community == (parts[0] == "community") && IsNumber(parts[2], v.buildNo))
  }

  lemma ClassifyMeans(parts: seq<string>, v: Version)
    ensures var (edition, version, build) := Classify(parts);
            Assemble(edition, version, build, v.serverless) == Some(v) <==> Shape(parts, v)
  {
    var (edition, version, build) := Classify(parts);
    PlainWords();
    PartsCount(version, '.');
    ParseIntMeans(build, v.buildNo);
    ZeroIsNumber(v.buildNo);
  }

  lemma ZeroIsNumber(n: int)
    ensures IsNumber("0", n) <==> n == 0
  {
    ParseIntMeans("0", n);
    ParseIntNumeral(0);
    assert Decimal.Numeral(0) == "0";
  }

  /** A last part "serverless" is a mark, and the others have one of the four shapes. */
  ghost predicate StandsFor(parts: seq<string>, v: Version)
    requires parts != []
  {
    var last := |parts| - 1;
    if parts[last] == "serverless" then v.serverless && Shape(parts[..last], v) else !v.serverless && Shape(parts, v)
  }

  lemma PartsStandFor(parts: seq<string>, v: Version)
    requires parts != []
    ensures IdentifyParts(parts) == Some(v) <==> StandsFor(parts, v)
  {
    var last := |parts| - 1;
    var serverless := parts[last] == SERVERLESS;
    var plain := if serverless then parts[..last] else parts;
    var (edition, version, build) := Classify(plain);
    assert IdentifyParts(parts) == Assemble(edition, version, build, serverless);
    ClassifyMeans(plain, v);
  }

  /** Exactly what a text without further dashes in its parts is identified as; everything else is rejected. */
  lemma IdentifiedExactly(parts: seq<string>, v: Version)
    requires parts != [] && forall p | p in parts :: '-' !in p
    ensures Identify(Join(parts, '-')) == Some(v) <==> StandsFor(parts, v)
  {
    SplitJoin(parts, '-');
    PartsStandFor(parts, v);
  }

  // ----- the tag printer -----

  function EditionName(community: bool): string {
    if community then COMMUNITY else ENTERPRISE
  }

  /** A build number is printed only if it is positive. */
  function TagParts(v: Version): seq<string> {
    [EditionName(v.community), v.version] + (if v.buildNo > 0 then [Decimal.Numeral(v.buildNo)] else [])
    + if v.serverless then [SERVERLESS] else []
  }

  function Tag(v: Version): string {
    Join(TagParts(v), '-')
  }

  predicate Dotted(version: string) {
    '.' in version && '-' !in version
  }

  lemma PlainWords()
    ensures '-' !in ENTERPRISE && '-' !in COMMUNITY && '-' !in SERVERLESS
    ensures '.' !in ENTERPRISE && '.' !in COMMUNITY && '.' !in SERVERLESS
    ensures ENTERPRISE != COMMUNITY
    ensures !Decimal.AllDigits(SERVERLESS)
  {
    assert SERVERLESS[0] == 's' && SERVERLESS[0] in SERVERLESS;
  }

  lemma NumeralIsPlain(n: nat)
    ensures '-' !in Decimal.Numeral(n) && Decimal.Numeral(n) != SERVERLESS
  {
  }

  lemma TagPartsAreFree(v: Version)
    requires Dotted(v.version)
    ensures TagParts(v) != [] && forall p | p in TagParts(v) :: '-' !in p
  {
  }

  lemma IdentifyTagParts(v: Version)
    requires Dotted(v.version) && v.buildNo <= MAX_INT64
    ensures IdentifyParts(TagParts(v)) == Some(Printable(v))
  {
    PlainWords();
    var edition := EditionName(v.community);
    var build := if v.buildNo > 0 then [Decimal.Numeral(v.buildNo)] else [];
    var parts, plain := TagParts(v), [edition, v.version] + build;
    if v.serverless {
      assert parts[..|parts| - 1] == plain;
    } else {
      assert parts == plain;
      if v.buildNo > 0 { NumeralIsPlain(v.buildNo); }
    }
    PartsCount(v.version, '.');
    ParseIntNumeral(if v.buildNo > 0 then v.buildNo else 0);
    assert Decimal.Numeral(0) == "0";
  }

  /** The text of a tag. */
  lemma TagText(v: Version)
    ensures var mark := if v.serverless then "-serverless" else "";
            var build := if v.buildNo > 0 then "-" + Decimal.Numeral(v.buildNo) else "";
            Tag(v) == (if v.community then "community" else "enterprise") + ("-" + v.version + (build + mark))
  {
    var last := if v.serverless then [SERVERLESS] else [];
    assert Dashed(last) == if v.serverless then "-serverless" else "";
    var build := if v.buildNo > 0 then [Decimal.Numeral(v.buildNo)] + last else last;
    assert TagParts(v) == [EditionName(v.community)] + ([v.version] + build);
    JoinDashed(EditionName(v.community), [v.version] + build);
    DashedMore(v.version, build);
    if v.buildNo > 0 { DashedMore(Decimal.Numeral(v.buildNo), last); }
    assert "" + Dashed(last) == Dashed(last);
  }

  /** What the later parts add to a tag. */
  ghost function Dashed(parts: seq<string>): string {
    if parts == [] then "" else "-" + Join(parts, '-')
  }

  lemma JoinDashed(first: string, rest: seq<string>)
    ensures Join([first] + rest, '-') == first + Dashed(rest)
  {
    JoinMore(first, rest, '-');
    if rest != [] { assert first + ['-'] + Join(rest, '-') == first + ("-" + Join(rest, '-')); }
  }

  lemma DashedMore(first: string, rest: seq<string>)
    ensures Dashed([first] + rest) == "-" + first + Dashed(rest)
  {
    JoinDashed(first, rest);
    assert "-" + (first + Dashed(rest)) == "-" + first + Dashed(rest);
  }

  lemma TagParses(v: Version, parts: seq<string>)
    requires parts == TagParts(v) && Dotted(v.version)
    ensures Identify(Tag(v)) == IdentifyParts(parts)
  {
    TagPartsAreFree(v);
    SplitJoin(parts, '-');
  }

  /** What is left of the build number. */
  function Printable(v: Version): Version {
    v.(buildNo := if v.buildNo > 0 then v.buildNo else 0)
  }

  /** Parsing a printed tag recovers the version, the edition and the serverless mark of every dotted version; the
      build number survives if and only if it is not negative. */
  lemma TagRoundTrip(v: Version)
    requires Dotted(v.version) && v.buildNo <= MAX_INT64
    ensures Identify(Tag(v)) == Some(v) <==> v.buildNo >= 0
    ensures Identify(Tag(v)) == Some(Printable(v))
  {
    TagParses(v, TagParts(v));
    IdentifyTagParts(v);
    PrintableIsSame(v);
  }

  lemma PrintableIsSame(v: Version)
    ensures Printable(v) == v <==> v.buildNo >= 0
  {
  }

  lemma NoSignNoNegative(s: string, n: int)
    requires '-' !in s && IsNumber(s, n)
    ensures n >= 0
  {
    var digits :| digits != "" && Decimal.AllDigits(digits)
                  && (|| ((s == digits || s == "+" + digits) && Decimal.Value(digits) == n)
                      || (s == "-" + digits && Decimal.Value(digits) == -n));
    var minus := "-" + digits;
    assert minus[0] == '-' && minus[0] in minus;
  }

  lemma ShapeIsDotted(parts: seq<string>, v: Version)
    requires Shape(parts, v) && forall p | p in parts :: '-' !in p
    ensures Dotted(v.version) && v.buildNo >= 0
  {
    if |parts| == 2 && IsNumber(parts[1], v.buildNo) { NoSignNoNegative(parts[1], v.buildNo); }
    if |parts| == 3 { NoSignNoNegative(parts[2], v.buildNo); }
  }

  /** Whatever parses is a dotted version without dashes and has no negative build number, because no part of the input
      holds a dash; so its tag parses to the same version again. */
  lemma IdentifiedIsDotted(input: string)
    requires Identify(input).Some?
    ensures Dotted(Identify(input).value.version) && Identify(input).value.buildNo >= 0
    ensures Identify(Tag(Identify(input).value)) == Identify(input)
  {
    var parts, v := Split(input, '-'), Identify(input).value;
    PartsAreFree(input, '-', |input| + 1);
    PartsStandFor(parts, v);
    ShapeIsDotted(if v.serverless then parts[..|parts| - 1] else parts, v);
    TagRoundTrip(v);
  }

  lemma {:induction false} PartsAreFree(s: string, sep: char, n: nat)
    requires n > |s|
    ensures forall p | p in SplitN(s, sep, n) :: sep !in p
    decreases |s|
  {
    var i := IndexOf(s, sep);
    if i == |s| {
      assert s[..i] == s;
    } else {
      PartsAreFree(s[i + 1..], sep, n - 1);
    }
  }
}
