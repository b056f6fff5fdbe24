/** Semantic versions: the parser and the comparator of the manifest package. */
module SemVer {
  import opened Wrappers
  import opened Words
  import opened Text

  datatype Version = Version(major: u64, minor: u64, patch: u64, prerelease: seq<string>)

  datatype VersionError =
    | Unsupported
    | LeadingZeroComponent
    | InvalidComponent
    | EmptyIdentifier
    | LeadingZeroIdentifier

  // ---------------------------------------------------------------- the accepted pattern

  /** End of the run of digits that starts at `i`. */
  function DigitRun(s: string, i: nat): (j: nat)
    requires i <= |s|
    ensures i <= j <= |s|
    ensures forall k :: i <= k < j ==> IsDigit(s[k])
    ensures j < |s| ==> !IsDigit(s[j])
    decreases |s| - i
  {
    if i < |s| && IsDigit(s[i]) then DigitRun(s, i + 1) else i
  }

  predicate IsIdentifierChar(c: char) {
    IsDigit(c) || 'a' <= c <= 'z' || 'A' <= c <= 'Z' || c == '-'
  }

  /** Three digit runs between dots, then nothing, or a dash and a run of identifier characters and dots. */
  predicate MatchesPattern(s: string) {
    var a := DigitRun(s, 0);
    && 0 < a < |s| && s[a] == '.'
    && var b := DigitRun(s, a + 1);
       && a + 1 < b < |s| && s[b] == '.'
       && var d := DigitRun(s, b + 1);
          && b + 1 < d
          && (d < |s| ==> s[d] == '-' && d + 1 < |s|
                          && forall i :: d < i < |s| ==> IsIdentifierChar(s[i]) || s[i] == '.')
  }

  // ---------------------------------------------------------------- parsing

  /** `strconv.ParseUint(s, 10, 64)`: the value and whether it was without error. A numeral that is
      out of range yields the largest word. */
  function ParseUint(s: string): (u64, bool) {
    if !IsNumeric(s) then (0, false)
    else if DecimalValue(s) < TWO_TO_THE_64 then (DecimalValue(s), true)
    else (MAX_WORD, false)
  }

  function ComponentError(part: string): Option<VersionError> {
    if |part| > 1 && part[0] == '0' then Some(LeadingZeroComponent)
    else if !ParseUint(part).1 then Some(InvalidComponent)
    else None
  }

  function IdentifierError(id: string): Option<VersionError> {
    if id == "" then Some(EmptyIdentifier)
    else if IsNumeric(id) && |id| > 1 && id[0] == '0' then Some(LeadingZeroIdentifier)
    else None
  }

  /** The error of the first element that has one. */
  function FirstError(parts: seq<string>, check: string -> Option<VersionError>): (e: Option<VersionError>)
    ensures e == None <==> forall i :: 0 <= i < |parts| ==> check(parts[i]) == None
  {
    if parts == [] then None
    else if check(parts[0]).Some? then check(parts[0])
    else FirstError(parts[1..], check)
  }

  /** The version made of three core components and a list of identifiers, or the first error in them. */
  function Assemble(core: seq<string>, prerelease: seq<string>): Result<Version, VersionError>
    requires |core| == 3
  {
    match FirstError(core, ComponentError)
    case Some(e) => Err(e)
    case None =>
      match FirstError(prerelease, IdentifierError)
      case Some(e) => Err(e)
      case None => Ok(Version(ParseUint(core[0]).0, ParseUint(core[1]).0, ParseUint(core[2]).0, prerelease))
  }

  /** The version made of a dotted core and a list of identifiers. */
  function ParsePieces(core: string, prerelease: seq<string>): Result<Version, VersionError> {
    var parts := Split(core, '.');
    if |parts| != 3 then Err(Unsupported) else Assemble(parts, prerelease)
  }

  /** The pieces around the first dash, parsed. */
  function ParseMatched(value: string): Result<Version, VersionError> {
    var dash := IndexOf(value, '-');
    ParsePieces(value[..dash], if dash < |value| then Split(value[dash + 1..], '.') else [])
  }

  function Parse(value: string): Result<Version, VersionError> {
    if MatchesPattern(value) then ParseMatched(value) else Err(Unsupported)
  }

  /** The first loop of the parser: a slice of numbers filled from the core components. */
  method ParseCore(core: seq<string>, numbers: array<u64>) returns (err: Option<VersionError>)
    requires |core| == numbers.Length == 3
    modifies numbers
    ensures err == FirstError(core, ComponentError)
    ensures err == None ==> forall k :: 0 <= k < 3 ==> numbers[k] == ParseUint(core[k]).0
  {
    for i := 0 to |core|
      invariant forall k :: 0 <= k < i ==> numbers[k] == ParseUint(core[k]).0
      invariant FirstError(core, ComponentError) == FirstError(core[i..], ComponentError)
    {
      var part := core[i];
      assert core[i..][1..] == core[i + 1..];
      if |part| > 1 && part[0] == '0' {
        return Some(LeadingZeroComponent);
      }
      var (n, ok) := ParseUint(part);
      if !ok {
        return Some(InvalidComponent);
      }
      numbers[i] := n;
    }
    return None;
  }

  /** The second loop: a scan of the prerelease identifiers. */
  method CheckIdentifiers(prerelease: seq<string>) returns (err: Option<VersionError>)
    ensures err == FirstError(prerelease, IdentifierError)
  {
    for i := 0 to |prerelease|
      invariant FirstError(prerelease, IdentifierError) == FirstError(prerelease[i..], IdentifierError)
    {
      var identifier := prerelease[i];
      assert prerelease[i..][1..] == prerelease[i + 1..];
      if identifier == "" {
        return Some(EmptyIdentifier);
      }
      if IsNumeric(identifier) && |identifier| > 1 && identifier[0] == '0' {
        return Some(LeadingZeroIdentifier);
      }
    }
    return None;
  }

  /** The parser as the source writes it. */
  method ParseVersion(value: string) returns (r: Result<Version, VersionError>)
    ensures r == Parse(value)
  {
    if !MatchesPattern(value) {
      return Err(Unsupported);
    }
    var dash := IndexOf(value, '-');
    var core := Split(value[..dash], '.');
    if |core| != 3 {
      return Err(Unsupported);
    }
    var numbers := new u64[3](_ => 0);
    var err := ParseCore(core, numbers);
    if err.Some? {
      return Err(err.value);
    }
    var prerelease: seq<string> := [];
    if dash < |value| {
      prerelease := Split(value[dash + 1..], '.');
      err := CheckIdentifiers(prerelease);
      if err.Some? {
        return Err(err.value);
      }
    }
    return Ok(Version(numbers[0], numbers[1], numbers[2], prerelease));
  }

  // ---------------------------------------------------------------- comparing

  function CompareWords(a: u64, b: u64): int {
    if a < b then -1 else if a > b then 1 else 0
  }

  /** Two different identifiers. Numeric ones are compared as words, an out-of-range one as the largest. */
  function CompareIdentifiers(l: string, r: string): int {
    if IsNumeric(l) && IsNumeric(r) then (if ParseUint(l).0 < ParseUint(r).0 then -1 else 1)
    else if IsNumeric(l) then -1
    else if IsNumeric(r) then 1
    else if Less(l, r) then -1
    else 1
  }

  function ComparePrereleases(l: seq<string>, r: seq<string>): int {
    if l == [] || r == [] then CompareLengths(l, r)
    else if l[0] == r[0] then ComparePrereleases(l[1..], r[1..])
    else CompareIdentifiers(l[0], r[0])
  }

  function CompareLengths(l: seq<string>, r: seq<string>): int {
    if |l| < |r| then -1 else if |l| > |r| then 1 else 0
  }

  function Compare(a: Version, b: Version): int {
    if CompareWords(a.major, b.major) != 0 then CompareWords(a.major, b.major)
    else if CompareWords(a.minor, b.minor) != 0 then CompareWords(a.minor, b.minor)
    else if CompareWords(a.patch, b.patch) != 0 then CompareWords(a.patch, b.patch)
    else if a.prerelease == [] && b.prerelease == [] then 0
    else if a.prerelease == [] then 1
    else if b.prerelease == [] then -1
    else ComparePrereleases(a.prerelease, b.prerelease)
  }

  /** The comparator as the source writes it, with its two loops and early returns. */
  method CompareVersion(left: Version, right: Version) returns (r: int)
    ensures r == Compare(left, right)
  {
    var pairs := [(left.major, right.major), (left.minor, right.minor), (left.patch, right.patch)];
    for i := 0 to |pairs|
      invariant forall k :: 0 <= k < i ==> pairs[k].0 == pairs[k].1
    {
      assert i == 0 || pairs[0].0 == pairs[0].1;
      assert i <= 1 || pairs[1].0 == pairs[1].1;
      if pairs[i].0 < pairs[i].1 {
        return -1;
      }
      if pairs[i].0 > pairs[i].1 {
        return 1;
      }
    }
    assert pairs[0].0 == pairs[0].1 && pairs[1].0 == pairs[1].1 && pairs[2].0 == pairs[2].1;
    var l, rr := left.prerelease, right.prerelease;
    if |l| == 0 && |rr| == 0 {
      return 0;
    }
    if |l| == 0 {
      return 1;
    }
    if |rr| == 0 {
      return -1;
    }
    var limit := if |rr| < |l| then |rr| else |l|;
    for i := 0 to limit
      invariant ComparePrereleases(l, rr) == ComparePrereleases(l[i..], rr[i..])
    {
      assert l[i..][1..] == l[i + 1..] && rr[i..][1..] == rr[i + 1..];
      if l[i] == rr[i] {
        continue;
      }
      var ln, rn := IsNumeric(l[i]), IsNumeric(rr[i]);
      if ln && rn {
        var li, ri := ParseUint(l[i]).0, ParseUint(rr[i]).0;
        return if li < ri then -1 else 1;
      } else if ln {
        return -1;
      } else if rn {
        return 1;
      } else if Less(l[i], rr[i]) {
        return -1;
      } else {
        return 1;
      }
    }
    if |l| < |rr| {
      return -1;
    }
    if |l| > |rr| {
      return 1;
    }
    return 0;
  }

  // ---------------------------------------------------------------- compatibility ranges

  datatype CompatibilityError = MinVersion(cause: VersionError) | MaxVersion(cause: VersionError) | MaxBelowMin

  method ValidateCompatibility(minVersion: string, maxVersion: string) returns (err: Option<CompatibilityError>)
    ensures err == CompatibilityProblem(minVersion, maxVersion)
  {
    var low := ParseVersion(minVersion);
    if low.Err? {
      return Some(MinVersion(low.error));
    }
    if maxVersion == "" {
      return None;
    }
    var high := ParseVersion(maxVersion);
    if high.Err? {
      return Some(MaxVersion(high.error));
    }
    var c := CompareVersion(high.value, low.value);
    if c < 0 {
      return Some(MaxBelowMin);
    }
    return None;
  }

  function CompatibilityProblem(minVersion: string, maxVersion: string): Option<CompatibilityError> {
    match Parse(minVersion)
    case Err(e) => Some(MinVersion(e))
    case Ok(low) =>
      if maxVersion == "" then None
      else
        match Parse(maxVersion)
        case Err(e) => Some(MaxVersion(e))
        case Ok(high) => if Compare(high, low) < 0 then Some(MaxBelowMin) else None
  }
}
