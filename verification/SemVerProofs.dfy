/** What the version parser accepts, and the order its comparator computes. */
module SemVerProofs {
  import opened Wrappers
  import opened Words
  import opened Text
  import opened SemVer

  // ---------------------------------------------------------------- the grammar

  /** A prerelease identifier of SemVer 2.0.0, section 9. */
  predicate ValidIdentifier(id: string) {
    && id != ""
    && (forall i :: 0 <= i < |id| ==> IsIdentifierChar(id[i]))
    && (AllDigits(id) ==> IsCanonical(id))
  }

  predicate Valid(v: Version) {
    forall i :: 0 <= i < |v.prerelease| ==> ValidIdentifier(v.prerelease[i])
  }

  function RenderCore(v: Version): string {
    Decimal(v.major) + "." + Decimal(v.minor) + "." + Decimal(v.patch)
  }

  /** The text of a version: sections 2 and 9 of SemVer 2.0.0, read as a grammar. */
  function Render(v: Version): string {
    RenderCore(v) + if v.prerelease == [] then "" else "-" + Join(v.prerelease, '.')
  }

  // ---------------------------------------------------------------- parse after render

  lemma DigitRunIs(s: string, i: nat, j: nat)
    requires i <= j <= |s|
    requires forall k :: i <= k < j ==> IsDigit(s[k])
    requires j < |s| ==> !IsDigit(s[j])
    ensures DigitRun(s, i) == j
  {
  }

  /** The part after the core: nothing, or a dash and a run of identifier characters and dots. */
  predicate IsTail(tail: string) {
    tail != "" ==>
      && |tail| > 1 && tail[0] == '-'
      && forall i :: 1 <= i < |tail| ==> IsIdentifierChar(tail[i]) || tail[i] == '.'
  }

  function CoreText(p: string, q: string, r: string): string { p + "." + q + "." + r }

  lemma CoreChars(p: string, q: string, r: string)
    ensures var core, a, b := CoreText(p, q, r), |p|, |p| + 1 + |q|;
            && |core| == b + 1 + |r| && core[a] == '.' && core[b] == '.'
            && (forall k :: 0 <= k < a ==> core[k] == p[k])
            && (forall k :: a < k < b ==> core[k] == q[k - a - 1])
            && (forall k :: b < k < |core| ==> core[k] == r[k - b - 1])
  {
  }

  lemma LayoutMatches(p: string, q: string, r: string, tail: string)
    requires IsNumeric(p) && IsNumeric(q) && IsNumeric(r) && IsTail(tail)
    ensures MatchesPattern(CoreText(p, q, r) + tail)
  {
    CoreChars(p, q, r);
    CoreAndTailMatch(CoreText(p, q, r), tail, |p|, |p| + 1 + |q|);
  }

  lemma CoreAndTailMatch(core: string, tail: string, a: nat, b: nat)
    requires 0 < a && a + 1 < b && b + 1 < |core| && core[a] == core[b] == '.'
    requires forall k :: 0 <= k < |core| && k != a && k != b ==> IsDigit(core[k])
    requires IsTail(tail)
    ensures MatchesPattern(core + tail)
  {
    var s, d := core + tail, |core|;
    assert forall k :: 0 <= k < d ==> s[k] == core[k];
    assert forall k :: d <= k < |s| ==> s[k] == tail[k - d];
    DigitRunIs(s, 0, a);
    DigitRunIs(s, a + 1, b);
    DigitRunIs(s, b + 1, d);
  }

  lemma JoinThree(p: string, q: string, r: string)
    ensures Join([p, q, r], '.') == CoreText(p, q, r)
  {
    assert [q, r][1..] == [r] && [p, q, r][1..] == [q, r];
    assert Join([q, r], '.') == q + ['.'] + r;
  }

  lemma LayoutHasNoDash(p: string, q: string, r: string)
    requires IsNumeric(p) && IsNumeric(q) && IsNumeric(r)
    ensures '-' !in CoreText(p, q, r)
  {
    CoreChars(p, q, r);
  }

  lemma LayoutSplits(p: string, q: string, r: string)
    requires IsNumeric(p) && IsNumeric(q) && IsNumeric(r)
    ensures Split(CoreText(p, q, r), '.') == [p, q, r]
  {
    JoinThree(p, q, r);
    var parts := [p, q, r];
    assert forall i :: 0 <= i < 3 ==> IsNumeric(parts[i]) && '.' !in parts[i];
    SplitJoin(parts, '.');
  }

  lemma DashAfterCore(core: string, rest: string)
    requires '-' !in core
    ensures var s := core + ['-'] + rest; IndexOf(s, '-') == |core| && s[..|core|] == core && s[|core| + 1..] == rest
  {
    IndexOfAfter(core, '-', rest);
  }

  lemma PiecesParse(core: string, tail: string)
    requires '-' !in core && (tail != "" ==> tail[0] == '-')
    ensures ParseMatched(core + tail) == ParsePieces(core, TailIds(tail))
  {
    if tail == "" {
      IndexOfAfter(core, '-', "");
      assert core + tail == core && core[..|core|] == core;
    } else {
      var rest := tail[1..];
      assert core + tail == core + ['-'] + rest;
      DashAfterCore(core, rest);
    }
  }

  /** A text laid out as a core and a tail is parsed from its pieces. */
  lemma LayoutParses(p: string, q: string, r: string, tail: string)
    requires IsNumeric(p) && IsNumeric(q) && IsNumeric(r) && IsTail(tail)
    ensures Parse(CoreText(p, q, r) + tail) == Assemble([p, q, r], TailIds(tail))
  {
    LayoutMatches(p, q, r, tail);
    LayoutHasNoDash(p, q, r);
    LayoutSplits(p, q, r);
    PiecesParse(CoreText(p, q, r), tail);
  }

  lemma {:induction false} JoinChars(ids: seq<string>)
    requires ids != []
    requires forall i :: 0 <= i < |ids| ==> ValidIdentifier(ids[i])
    ensures Join(ids, '.') != ""
    ensures forall i :: 0 <= i < |Join(ids, '.')| ==> IsIdentifierChar(Join(ids, '.')[i]) || Join(ids, '.')[i] == '.'
  {
    assert ValidIdentifier(ids[0]);
    if |ids| > 1 {
      JoinChars(ids[1..]);
    }
  }

  /** Parsing the text of a version gives the version back. */
  lemma ParseAfterRender(v: Version)
    requires Valid(v)
    ensures Parse(Render(v)) == Ok(v)
  {
    var p, q, r := Decimal(v.major), Decimal(v.minor), Decimal(v.patch);
    DecimalIsCanonical(v.major);
    DecimalIsCanonical(v.minor);
    DecimalIsCanonical(v.patch);
    var tail := if v.prerelease == [] then "" else "-" + Join(v.prerelease, '.');
    if v.prerelease != [] {
      JoinChars(v.prerelease);
      SplitJoin(v.prerelease, '.');
      assert tail[1..] == Join(v.prerelease, '.');
    }
    LayoutParses(p, q, r, tail);
    AssembleValid(p, q, r, v);
  }

  lemma AssembleValid(p: string, q: string, r: string, v: Version)
    requires IsCanonical(p) && IsCanonical(q) && IsCanonical(r)
    requires DecimalValue(p) == v.major && DecimalValue(q) == v.minor && DecimalValue(r) == v.patch && Valid(v)
    ensures Assemble([p, q, r], v.prerelease) == Ok(v)
  {
    assert forall i :: 0 <= i < |v.prerelease| ==> IdentifierError(v.prerelease[i]) == None;
  }

  // ---------------------------------------------------------------- render after parse

  /** Every text that matches the pattern is a core and a tail. */
  lemma PatternLayout(s: string) returns (p: string, q: string, r: string, tail: string)
    requires MatchesPattern(s)
    ensures IsNumeric(p) && IsNumeric(q) && IsNumeric(r) && IsTail(tail)
    ensures s == CoreText(p, q, r) + tail
  {
    var a := DigitRun(s, 0);
    var b := DigitRun(s, a + 1);
    var d := DigitRun(s, b + 1);
    p, q, r, tail := s[..a], s[a + 1..b], s[b + 1..d], s[d..];
    assert s[..a + 1] == p + ".";
    assert s[..b] == p + "." + q;
    assert s[..b + 1] == p + "." + q + ".";
    assert s[..d] == CoreText(p, q, r);
    assert forall i :: 0 <= i < |tail| ==> tail[i] == s[d + i];
    assert tail != "" ==> IsIdentifierChar(s[d + 1]) || s[d + 1] == '.';
  }

  /** The pieces of a dotted text have only characters of the text. */
  lemma {:induction false} SplitChars(s: string)
    requires forall i :: 0 <= i < |s| ==> IsIdentifierChar(s[i]) || s[i] == '.'
    ensures forall k :: 0 <= k < |Split(s, '.')| ==>
              forall i :: 0 <= i < |Split(s, '.')[k]| ==> IsIdentifierChar(Split(s, '.')[k][i])
    decreases |s|
  {
    var k := IndexOf(s, '.');
    assert forall i :: 0 <= i < k ==> s[i] in s[..k];
    if k < |s| {
      SplitChars(s[k + 1..]);
    }
  }

  lemma AssembledIsValid(p: string, q: string, r: string, prerelease: seq<string>)
    requires IsNumeric(p) && IsNumeric(q) && IsNumeric(r)
    requires forall k :: 0 <= k < |prerelease| ==>
               forall i :: 0 <= i < |prerelease[k]| ==> IsIdentifierChar(prerelease[k][i])
    requires Assemble([p, q, r], prerelease).Ok?
    ensures var v := Assemble([p, q, r], prerelease).value;
            Valid(v) && v.prerelease == prerelease && RenderCore(v) == CoreText(p, q, r)
  {
    var core := [p, q, r];
    assert ComponentError(core[0]) == None && ComponentError(core[1]) == None && ComponentError(core[2]) == None;
    CanonicalIsDecimal(p);
    CanonicalIsDecimal(q);
    CanonicalIsDecimal(r);
    forall i | 0 <= i < |prerelease| ensures ValidIdentifier(prerelease[i]) {
      assert IdentifierError(prerelease[i]) == None;
    }
  }

  lemma TailOfDotted(dotted: string)
    requires forall i :: 0 <= i < |dotted| ==> IsIdentifierChar(dotted[i]) || dotted[i] == '.'
    ensures Join(Split(dotted, '.'), '.') == dotted
    ensures forall k :: 0 <= k < |Split(dotted, '.')| ==>
              forall i :: 0 <= i < |Split(dotted, '.')[k]| ==> IsIdentifierChar(Split(dotted, '.')[k][i])
  {
    JoinSplit(dotted, '.');
    SplitChars(dotted);
  }

  lemma RenderOf(v: Version, core: string, tail: string)
    requires RenderCore(v) == core
    requires tail == if v.prerelease == [] then "" else "-" + Join(v.prerelease, '.')
    ensures Render(v) == core + tail
  {
  }

  function TailIds(tail: string): seq<string> { if tail == "" then [] else Split(tail[1..], '.') }

  lemma AssembledRenders(p: string, q: string, r: string, tail: string)
    requires IsNumeric(p) && IsNumeric(q) && IsNumeric(r) && IsTail(tail)
    requires Assemble([p, q, r], TailIds(tail)).Ok?
    ensures var v := Assemble([p, q, r], TailIds(tail)).value;
            Valid(v) && Render(v) == CoreText(p, q, r) + tail
  {
    if tail != "" {
      assert tail == "-" + tail[1..];
      TailOfDotted(tail[1..]);
    }
    AssembledIsValid(p, q, r, TailIds(tail));
    RenderOf(Assemble([p, q, r], TailIds(tail)).value, CoreText(p, q, r), tail);
  }

  /** Whatever the parser accepts is the text of the valid version it returns. */
  lemma RenderAfterParse(s: string)
    requires Parse(s).Ok?
    ensures Valid(Parse(s).value)
    ensures Render(Parse(s).value) == s
  {
    var p, q, r, tail := PatternLayout(s);
    LayoutParses(p, q, r, tail);
    AssembledRenders(p, q, r, tail);
  }

  /** Sections 2 and 9 of SemVer 2.0.0 as a grammar on texts, without build metadata and with core
      numbers below 2^64. */
  ghost predicate IsSemVerText(s: string) {
    exists p, q, r, ids :: HasLayout(s, p, q, r, ids)
  }

  predicate CoreNumber(p: string) { IsCanonical(p) && DecimalValue(p) < TWO_TO_THE_64 }

  predicate HasLayout(s: string, p: string, q: string, r: string, ids: seq<string>) {
    && CoreNumber(p) && CoreNumber(q) && CoreNumber(r)
    && (forall i :: 0 <= i < |ids| ==> ValidIdentifier(ids[i]))
    && s == CoreText(p, q, r) + if ids == [] then "" else "-" + Join(ids, '.')
  }

  lemma RenderedIsSemVerText(v: Version)
    requires Valid(v)
    ensures IsSemVerText(Render(v))
  {
    DecimalIsCanonical(v.major);
    DecimalIsCanonical(v.minor);
    DecimalIsCanonical(v.patch);
    assert HasLayout(Render(v), Decimal(v.major), Decimal(v.minor), Decimal(v.patch), v.prerelease);
  }

  lemma SemVerTextIsRendered(s: string, p: string, q: string, r: string, ids: seq<string>)
    requires HasLayout(s, p, q, r, ids)
    ensures var v := Version(DecimalValue(p), DecimalValue(q), DecimalValue(r), ids); Valid(v) && Render(v) == s
  {
    CanonicalIsDecimal(p);
    CanonicalIsDecimal(q);
    CanonicalIsDecimal(r);
  }

  /** The parser accepts exactly the texts of that grammar, and they are exactly the texts of valid versions. */
  lemma ParseAcceptsExactlySemVer(s: string)
    ensures Parse(s).Ok? <==> IsSemVerText(s)
    ensures Parse(s).Ok? <==> exists v :: Valid(v) && Render(v) == s
  {
    if Parse(s).Ok? {
      RenderAfterParse(s);
      RenderedIsSemVerText(Parse(s).value);
    }
    forall v | Valid(v) && Render(v) == s ensures Parse(s).Ok? {
      ParseAfterRender(v);
    }
    if IsSemVerText(s) {
      var p, q, r, ids :| HasLayout(s, p, q, r, ids);
      SemVerTextIsRendered(s, p, q, r, ids);
    }
  }

  /** The identifiers' alphabet by character code: digits, capitals, small letters and the hyphen. */
  lemma IdentifierCodes(c: char)
    ensures IsIdentifierChar(c)
            <==> 48 <= c as int <= 57 || 65 <= c as int <= 90 || 97 <= c as int <= 122 || c as int == 45
  {
  }

  /** What an accepted text is parsed to: major, minor and patch in the order written, then the identifiers. */
  lemma ParsedFields(s: string, p: string, q: string, r: string, ids: seq<string>)
    requires HasLayout(s, p, q, r, ids)
    ensures Parse(s) == Ok(Version(DecimalValue(p), DecimalValue(q), DecimalValue(r), ids))
  {
    SemVerTextIsRendered(s, p, q, r, ids);
    ParseAfterRender(Version(DecimalValue(p), DecimalValue(q), DecimalValue(r), ids));
  }

  // ---------------------------------------------------------------- errors

  /** A text is unsupported exactly when it is not three numerals between dots and a tail. */
  lemma UnsupportedExactly(s: string)
    ensures Parse(s) == Err(Unsupported)
            <==> !exists p, q, r, tail :: IsNumeric(p) && IsNumeric(q) && IsNumeric(r) && IsTail(tail)
                                          && s == CoreText(p, q, r) + tail
  {
    if MatchesPattern(s) {
      var p, q, r, tail := PatternLayout(s);
      LayoutParses(p, q, r, tail);
      NeverUnsupported([p, q, r], TailIds(tail));
    }
    forall p, q, r, tail | IsNumeric(p) && IsNumeric(q) && IsNumeric(r) && IsTail(tail) && s == CoreText(p, q, r) + tail
      ensures MatchesPattern(s)
    {
      LayoutMatches(p, q, r, tail);
    }
  }

  lemma {:induction false} FirstErrorIsSome(parts: seq<string>, check: string -> Option<VersionError>, e: VersionError)
    requires FirstError(parts, check) == Some(e)
    ensures exists i :: 0 <= i < |parts| && check(parts[i]) == Some(e)
  {
    if check(parts[0]) == None {
      FirstErrorIsSome(parts[1..], check, e);
      var i :| 0 <= i < |parts[1..]| && check(parts[1..][i]) == Some(e);
      assert check(parts[i + 1]) == Some(e);
    } else {
      assert check(parts[0]) == Some(e);
    }
  }

  lemma NeverUnsupported(core: seq<string>, prerelease: seq<string>)
    requires |core| == 3
    ensures Assemble(core, prerelease) != Err(Unsupported)
  {
    if FirstError(core, ComponentError) == Some(Unsupported) {
      FirstErrorIsSome(core, ComponentError, Unsupported);
    }
    if FirstError(prerelease, IdentifierError) == Some(Unsupported) {
      FirstErrorIsSome(prerelease, IdentifierError, Unsupported);
    }
  }

  lemma {:induction false} FirstErrorAt(parts: seq<string>, check: string -> Option<VersionError>, k: nat)
    requires k < |parts| && check(parts[k]).Some? && forall j :: 0 <= j < k ==> check(parts[j]) == None
    ensures FirstError(parts, check) == check(parts[k])
  {
    if k > 0 {
      assert check(parts[0]) == None;
      FirstErrorAt(parts[1..], check, k - 1);
    }
  }

  /** The first component that is no 64-bit number without leading zeros gives the error: a leading zero if it has
      one, and otherwise its size. */
  lemma ComponentErrors(p: string, q: string, r: string, tail: string, k: nat)
    requires IsNumeric(p) && IsNumeric(q) && IsNumeric(r) && IsTail(tail) && k < 3
    requires !CoreNumber([p, q, r][k]) && forall j :: 0 <= j < k ==> CoreNumber([p, q, r][j])
    ensures Parse(CoreText(p, q, r) + tail)
            == Err(if [p, q, r][k][0] == '0' then LeadingZeroComponent else InvalidComponent)
  {
    LayoutParses(p, q, r, tail);
    var parts := [p, q, r];
    forall j | 0 <= j < 3
      ensures CoreNumber(parts[j]) ==> ComponentError(parts[j]) == None
      ensures !CoreNumber(parts[j]) ==>
                ComponentError(parts[j]) == Some(if parts[j][0] == '0' then LeadingZeroComponent else InvalidComponent)
    {
      ComponentErrorIs(parts[j]);
    }
    FirstErrorAt(parts, ComponentError, k);
  }

  lemma ComponentErrorIs(p: string)
    requires IsNumeric(p)
    ensures CoreNumber(p) ==> ComponentError(p) == None
    ensures !CoreNumber(p) ==>
              ComponentError(p) == Some(if p[0] == '0' then LeadingZeroComponent else InvalidComponent)
  {
    if |p| == 1 {
      assert DecimalValue(p[..0]) == 0;
    }
  }

  predicate GoodIdentifier(id: string) { id != "" && (IsNumeric(id) ==> IsCanonical(id)) }

  /** With three good components, the first identifier that is empty or a numeral with a leading zero gives it. */
  lemma IdentifierErrors(p: string, q: string, r: string, tail: string, k: nat)
    requires CoreNumber(p) && CoreNumber(q) && CoreNumber(r) && IsTail(tail) && k < |TailIds(tail)|
    requires !GoodIdentifier(TailIds(tail)[k]) && forall j :: 0 <= j < k ==> GoodIdentifier(TailIds(tail)[j])
    ensures Parse(CoreText(p, q, r) + tail)
            == Err(if TailIds(tail)[k] == "" then EmptyIdentifier else LeadingZeroIdentifier)
  {
    LayoutParses(p, q, r, tail);
    ComponentErrorIs(p);
    ComponentErrorIs(q);
    ComponentErrorIs(r);
    assert forall i :: 0 <= i < 3 ==> ComponentError([p, q, r][i]) == None;
    FirstErrorAt(TailIds(tail), IdentifierError, k);
  }

  // ---------------------------------------------------------------- precedence

  /** Section 11.4 on two different identifiers; numbers are unbounded. */
  predicate IdentifierBefore(l: string, r: string) {
    if IsNumeric(l) && IsNumeric(r) then DecimalValue(l) < DecimalValue(r)
    else if IsNumeric(l) || IsNumeric(r) then IsNumeric(l)
    else Less(l, r)
  }

  /** Where the comparison of two identifier lists is decided: at the first difference, or at the shorter end. */
  ghost predicate DecidedAt(l: seq<string>, r: seq<string>, k: nat) {
    && k <= |l| && k <= |r|
    && l[..k] == r[..k]
    && (k < |l| && k < |r| ==> l[k] != r[k])
  }

  ghost predicate PrereleaseBefore(l: seq<string>, r: seq<string>) {
    exists k: nat :: DecidedAt(l, r, k) && k < |r| && (k == |l| || IdentifierBefore(l[k], r[k]))
  }

  function Core(v: Version): (u64, u64, u64) { (v.major, v.minor, v.patch) }

  predicate CoreBefore(a: Version, b: Version) {
    a.major < b.major || (a.major == b.major && (a.minor < b.minor || (a.minor == b.minor && a.patch < b.patch)))
  }

  /** Precedence as section 11 of SemVer 2.0.0 defines it. */
  ghost predicate Precedes(a: Version, b: Version) {
    || CoreBefore(a, b)
    || (Core(a) == Core(b) && a.prerelease != [] && b.prerelease == [])
    || (Core(a) == Core(b) && a.prerelease != [] && b.prerelease != [] && PrereleaseBefore(a.prerelease, b.prerelease))
  }

  lemma {:induction false} FindDecision(l: seq<string>, r: seq<string>) returns (k: nat)
    ensures DecidedAt(l, r, k)
    ensures ComparePrereleases(l, r) == if k < |l| && k < |r| then CompareIdentifiers(l[k], r[k])
            else CompareLengths(l, r)
    ensures k == |l| == |r| <==> l == r
  {
    if l == [] || r == [] || l[0] != r[0] {
      k := 0;
    } else {
      var j := FindDecision(l[1..], r[1..]);
      k := j + 1;
      assert l[..k] == [l[0]] + l[1..][..j] && r[..k] == [r[0]] + r[1..][..j];
      assert l == [l[0]] + l[1..] && r == [r[0]] + r[1..];
    }
  }

  lemma DecisionIsUnique(l: seq<string>, r: seq<string>, j: nat, k: nat)
    requires DecidedAt(l, r, j) && DecidedAt(l, r, k)
    ensures j == k
  {
    forall i | 0 <= i < j ensures l[i] == r[i] { assert l[..j][i] == r[..j][i]; }
    forall i | 0 <= i < k ensures l[i] == r[i] { assert l[..k][i] == r[..k][i]; }
  }

  lemma IdentifiersAreOrdered(l: string, r: string)
    requires ValidIdentifier(l) && ValidIdentifier(r)
    ensures l == r || IdentifierBefore(l, r) || IdentifierBefore(r, l)
    ensures !(IdentifierBefore(l, r) && IdentifierBefore(r, l))
    ensures !IdentifierBefore(l, l)
  {
    LessIsTotal(l, r);
    if IsNumeric(l) && IsNumeric(r) {
      CanonicalIsDecimal(l);
      CanonicalIsDecimal(r);
    }
  }

  lemma IdentifierBeforeIsTransitive(l: string, m: string, r: string)
    requires IdentifierBefore(l, m) && IdentifierBefore(m, r)
    ensures IdentifierBefore(l, r)
  {
    if !IsNumeric(l) {
      LessIsTransitive(l, m, r);
    }
  }

  /** A chain of two is decided at the earlier of its decisions. */
  lemma ChainDecision(l: seq<string>, m: seq<string>, r: seq<string>, i: nat, j: nat)
    requires DecidedAt(l, m, i) && i < |m| && (i == |l| || IdentifierBefore(l[i], m[i]))
    requires DecidedAt(m, r, j) && j < |r| && (j == |m| || IdentifierBefore(m[j], r[j]))
    requires forall n :: 0 <= n < |l| ==> ValidIdentifier(l[n])
    requires forall n :: 0 <= n < |r| ==> ValidIdentifier(r[n])
    ensures var k := if i < j then i else j;
            DecidedAt(l, r, k) && k < |r| && (k == |l| || IdentifierBefore(l[k], r[k]))
  {
    var k := if i < j then i else j;
    assert l[..k] == l[..i][..k] == m[..i][..k] == m[..k];
    assert r[..k] == r[..j][..k] == m[..j][..k] == m[..k];
    if i < j {
      assert r[i] == r[..j][i] == m[..j][i] == m[i];
      if i < |l| {
        IdentifiersAreOrdered(l[i], l[i]);
      }
    } else if j < i {
      assert l[j] == l[..i][j] == m[..i][j] == m[j];
      IdentifiersAreOrdered(r[j], r[j]);
    } else if i < |l| {
      IdentifierBeforeIsTransitive(l[i], m[i], r[i]);
      IdentifiersAreOrdered(l[i], l[i]);
    }
  }

  lemma PrereleaseBeforeIsTransitive(l: seq<string>, m: seq<string>, r: seq<string>)
    requires PrereleaseBefore(l, m) && PrereleaseBefore(m, r)
    requires forall i :: 0 <= i < |l| ==> ValidIdentifier(l[i])
    requires forall i :: 0 <= i < |r| ==> ValidIdentifier(r[i])
    ensures PrereleaseBefore(l, r)
  {
    var i: nat :| DecidedAt(l, m, i) && i < |m| && (i == |l| || IdentifierBefore(l[i], m[i]));
    var j: nat :| DecidedAt(m, r, j) && j < |r| && (j == |m| || IdentifierBefore(m[j], r[j]));
    ChainDecision(l, m, r, i, j);
  }

  /** Section 11 defines a strict total order on valid versions. */
  lemma PrecedesIsStrictTotalOrder(a: Version, b: Version, c: Version)
    requires Valid(a) && Valid(b) && Valid(c)
    ensures !Precedes(a, a)
    ensures a == b || Precedes(a, b) || Precedes(b, a)
    ensures !(Precedes(a, b) && Precedes(b, a))
    ensures Precedes(a, b) && Precedes(b, c) ==> Precedes(a, c)
  {
    PrereleasesAreOrdered(a.prerelease, a.prerelease);
    PrereleasesAreOrdered(a.prerelease, b.prerelease);
    if Precedes(a, b) && Precedes(b, c) && PrereleaseBefore(a.prerelease, b.prerelease)
        && PrereleaseBefore(b.prerelease, c.prerelease) {
      PrereleaseBeforeIsTransitive(a.prerelease, b.prerelease, c.prerelease);
    }
  }

  lemma PrereleasesAreOrdered(l: seq<string>, r: seq<string>)
    requires forall i :: 0 <= i < |l| ==> ValidIdentifier(l[i])
    requires forall i :: 0 <= i < |r| ==> ValidIdentifier(r[i])
    ensures l == r || PrereleaseBefore(l, r) || PrereleaseBefore(r, l)
    ensures !(PrereleaseBefore(l, r) && PrereleaseBefore(r, l))
    ensures !PrereleaseBefore(l, l)
  {
    var k := FindDecision(l, r);
    assert DecidedAt(r, l, k);
    if k < |l| && k < |r| {
      IdentifiersAreOrdered(l[k], r[k]);
    }
    forall j: nat | DecidedAt(l, r, j) ensures j == k { DecisionIsUnique(l, r, j, k); }
    forall j: nat | DecidedAt(r, l, j) ensures j == k { DecisionIsUnique(r, l, j, k); }
    forall j: nat | DecidedAt(l, l, j) ensures j == |l| {}
  }

  // ---------------------------------------------------------------- the comparator against precedence

  /** The decisive pair of identifiers, if any, and whether both are numbers too large to tell apart:
      an out-of-range numeral is compared as the largest word. */
  ghost predicate Indistinct(a: Version, b: Version) {
    && Core(a) == Core(b)
    && exists k: nat :: DecidedAt(a.prerelease, b.prerelease, k) && k < |a.prerelease| && k < |b.prerelease|
                        && TooLarge(a.prerelease[k]) && TooLarge(b.prerelease[k])
  }

  predicate TooLarge(id: string) {
    IsNumeric(id) && DecimalValue(id) >= MAX_WORD
  }

  predicate InRange(v: Version) {
    forall i :: 0 <= i < |v.prerelease| && IsNumeric(v.prerelease[i]) ==> DecimalValue(v.prerelease[i]) < TWO_TO_THE_64
  }

  lemma CompareIdentifiersAgrees(l: string, r: string)
    requires ValidIdentifier(l) && ValidIdentifier(r) && l != r
    ensures !(TooLarge(l) && TooLarge(r)) ==> CompareIdentifiers(l, r) == if IdentifierBefore(l, r) then -1 else 1
    ensures TooLarge(l) && TooLarge(r) ==> CompareIdentifiers(l, r) == 1
  {
    IdentifiersAreOrdered(l, r);
  }

  /** The comparator computes section 11, except that of two indistinct versions it reports the left one
      as newer, whichever that is. Equality is always exact. */
  lemma CompareComputesPrecedence(a: Version, b: Version)
    requires Valid(a) && Valid(b)
    ensures !Indistinct(a, b) ==> Compare(a, b) == if a == b then 0 else if Precedes(a, b) then -1 else 1
    ensures Indistinct(a, b) ==> Compare(a, b) == 1
    ensures Compare(a, b) == 0 <==> a == b
  {
    var l, r := a.prerelease, b.prerelease;
    var k := FindDecision(l, r);
    forall j: nat | DecidedAt(l, r, j) ensures j == k { DecisionIsUnique(l, r, j, k); }
    if k < |l| && k < |r| {
      CompareIdentifiersAgrees(l[k], r[k]);
    }
  }

  /** Swapping the arguments flips the sign exactly when the versions are not indistinct. */
  lemma CompareIsAntisymmetricExactly(a: Version, b: Version)
    requires Valid(a) && Valid(b)
    ensures Compare(a, b) == -Compare(b, a) <==> !Indistinct(a, b)
  {
    CompareComputesPrecedence(a, b);
    CompareComputesPrecedence(b, a);
    PrecedesIsStrictTotalOrder(a, b, a);
    if Indistinct(a, b) {
      var k: nat :| DecidedAt(a.prerelease, b.prerelease, k) && k < |a.prerelease| && k < |b.prerelease|
                    && TooLarge(a.prerelease[k]) && TooLarge(b.prerelease[k]);
      assert DecidedAt(b.prerelease, a.prerelease, k);
    }
    if Indistinct(b, a) {
      var k: nat :| DecidedAt(b.prerelease, a.prerelease, k) && k < |b.prerelease| && k < |a.prerelease|
                    && TooLarge(b.prerelease[k]) && TooLarge(a.prerelease[k]);
      assert DecidedAt(a.prerelease, b.prerelease, k);
    }
  }

  lemma InRangeIsDistinct(a: Version, b: Version)
    requires Valid(a) && Valid(b) && InRange(a) && InRange(b)
    ensures !Indistinct(a, b)
  {
    forall k: nat | DecidedAt(a.prerelease, b.prerelease, k) && k < |a.prerelease| && k < |b.prerelease|
                    && TooLarge(a.prerelease[k]) && TooLarge(b.prerelease[k])
      ensures false
    {
      CanonicalIsDecimal(a.prerelease[k]);
      CanonicalIsDecimal(b.prerelease[k]);
    }
  }

  /** Between two identifiers too large to tell apart there is only such an identifier. */
  lemma TooLargeBetween(l: string, m: string, r: string)
    requires TooLarge(l) && TooLarge(r) && IdentifierBefore(l, m) && IdentifierBefore(m, r)
    ensures TooLarge(m)
  {
  }

  /** A chain of precedences whose ends are indistinct has an indistinct link. */
  lemma IndistinctChain(a: Version, b: Version, c: Version)
    requires Valid(a) && Valid(b) && Valid(c)
    requires Precedes(a, b) && Precedes(b, c) && Indistinct(a, c)
    ensures Indistinct(a, b) || Indistinct(b, c)
  {
    var l, m, r := a.prerelease, b.prerelease, c.prerelease;
    var k: nat :| DecidedAt(l, r, k) && k < |l| && k < |r| && TooLarge(l[k]) && TooLarge(r[k]);
    assert Core(a) == Core(b) == Core(c);
    var i: nat :| DecidedAt(l, m, i) && i < |m| && (i == |l| || IdentifierBefore(l[i], m[i]));
    var j: nat :| DecidedAt(m, r, j) && j < |r| && (j == |m| || IdentifierBefore(m[j], r[j]));
    ChainDecision(l, m, r, i, j);
    DecisionIsUnique(l, r, if i < j then i else j, k);
    if i < j {
      assert r[i] == r[..j][i] == m[..j][i] == m[i];
    } else if j < i {
      assert l[j] == l[..i][j] == m[..i][j] == m[j];
    } else {
      TooLargeBetween(l[i], m[i], r[i]);
    }
  }

  /** Whatever the numbers, the comparator is transitive on valid versions. */
  lemma CompareIsTransitive(a: Version, b: Version, c: Version)
    requires Valid(a) && Valid(b) && Valid(c)
    ensures Compare(a, b) <= 0 && Compare(b, c) <= 0 ==> Compare(a, c) <= 0
  {
    CompareComputesPrecedence(a, b);
    CompareComputesPrecedence(b, c);
    CompareComputesPrecedence(a, c);
    if Compare(a, b) < 0 && Compare(b, c) < 0 {
      PrecedesIsStrictTotalOrder(a, b, c);
      if Indistinct(a, c) {
        IndistinctChain(a, b, c);
      }
    }
  }

  /** On valid versions whose numeric identifiers are 64-bit words, the comparator is the total order of section 11. */
  lemma CompareIsTotalOrder(a: Version, b: Version, c: Version)
    requires Valid(a) && Valid(b) && Valid(c)
    requires InRange(a) && InRange(b) && InRange(c)
    ensures Compare(a, b) == 0 <==> a == b
    ensures Compare(a, b) < 0 <==> Precedes(a, b)
    ensures Compare(a, b) == -Compare(b, a)
    ensures Compare(a, b) <= 0 && Compare(b, c) <= 0 ==> Compare(a, c) <= 0
  {
    InRangeIsDistinct(a, b);
    InRangeIsDistinct(b, c);
    InRangeIsDistinct(a, c);
    CompareComputesPrecedence(a, b);
    CompareComputesPrecedence(b, c);
    CompareComputesPrecedence(a, c);
    CompareIsAntisymmetricExactly(a, b);
    PrecedesIsStrictTotalOrder(a, b, c);
  }

  /** What the parser accepts are valid versions, and, whatever the numbers, the comparator calls two of
      them equal exactly when they are the same text. */
  lemma CompareIsZeroOnlyOnEqualText(s: string, t: string)
    ensures Parse(s).Ok? ==> Valid(Parse(s).value)
    ensures Parse(s).Ok? && Parse(t).Ok? ==> (Compare(Parse(s).value, Parse(t).value) == 0 <==> s == t)
  {
    if Parse(s).Ok? {
      RenderAfterParse(s);
      if Parse(t).Ok? {
        RenderAfterParse(t);
        CompareComputesPrecedence(Parse(s).value, Parse(t).value);
      }
    }
  }

  /** Two out-of-range identifiers break antisymmetry. */
  lemma OutOfRangeBreaksAntisymmetry() returns (a: Version, b: Version)
    ensures Valid(a) && Valid(b) && a != b
    ensures Compare(a, b) == 1 && Compare(b, a) == 1
  {
    var l, r := Decimal(TWO_TO_THE_64), Decimal(TWO_TO_THE_64 + 1);
    DecimalIsCanonical(TWO_TO_THE_64);
    DecimalIsCanonical(TWO_TO_THE_64 + 1);
    a, b := Version(1, 0, 0, [l]), Version(1, 0, 0, [r]);
    assert DecidedAt(a.prerelease, b.prerelease, 0) && DecidedAt(b.prerelease, a.prerelease, 0);
    CompareComputesPrecedence(a, b);
    CompareComputesPrecedence(b, a);
  }

  /** The parser's refusal of leading zeros is what antisymmetry rests on: wherever two lists of identifiers
      differ first in two numerals of equal value, as 1 and 01, each version would be the newer. Such
      versions cannot both be parsed. */
  lemma LeadingZerosWouldBreakAntisymmetry(a: Version, b: Version, k: nat)
    requires Core(a) == Core(b) && DecidedAt(a.prerelease, b.prerelease, k)
    requires k < |a.prerelease| && k < |b.prerelease|
    requires IsNumeric(a.prerelease[k]) && IsNumeric(b.prerelease[k])
    requires DecimalValue(a.prerelease[k]) == DecimalValue(b.prerelease[k])
    ensures Compare(a, b) == 1 && Compare(b, a) == 1
    ensures !(Valid(a) && Valid(b))
  {
    DecidedComparison(a.prerelease, b.prerelease, k);
    DecidedComparison(b.prerelease, a.prerelease, k);
    if Valid(a) && Valid(b) {
      CanonicalIsDecimal(a.prerelease[k]);
      CanonicalIsDecimal(b.prerelease[k]);
    }
  }

  lemma DecidedComparison(l: seq<string>, r: seq<string>, k: nat)
    requires DecidedAt(l, r, k) || DecidedAt(r, l, k)
    requires k < |l| && k < |r|
    ensures ComparePrereleases(l, r) == CompareIdentifiers(l[k], r[k])
  {
    var j := FindDecision(l, r);
    assert DecidedAt(l, r, k);
    DecisionIsUnique(l, r, j, k);
  }

  // ---------------------------------------------------------------- compatibility ranges

  /** A compatibility range is accepted exactly when both ends are versions (the upper one optional) and the
      upper end does not precede the lower, or the comparator cannot tell the two apart. */
  lemma CompatibilityRangeIsOrderedExactly(minVersion: string, maxVersion: string)
    ensures CompatibilityProblem(minVersion, "") == None <==> Parse(minVersion).Ok?
    ensures var low, high := Parse(minVersion), Parse(maxVersion);
            maxVersion != "" ==>
              (CompatibilityProblem(minVersion, maxVersion) == None
               <==> low.Ok? && high.Ok?
                    && (!Precedes(high.value, low.value) || Indistinct(high.value, low.value)))
    ensures Parse(minVersion).Err? ==>
              CompatibilityProblem(minVersion, maxVersion) == Some(MinVersion(Parse(minVersion).error))
    ensures Parse(minVersion).Ok? && maxVersion != "" && Parse(maxVersion).Err? ==>
              CompatibilityProblem(minVersion, maxVersion) == Some(MaxVersion(Parse(maxVersion).error))
  {
    var low, high := Parse(minVersion), Parse(maxVersion);
    if low.Ok? && high.Ok? {
      RenderAfterParse(minVersion);
      RenderAfterParse(maxVersion);
      CompareComputesPrecedence(high.value, low.value);
      PrecedesIsStrictTotalOrder(high.value, low.value, low.value);
    }
  }

  /** So a range can be accepted with its ends the wrong way round. */
  lemma ReversedRangeIsAccepted() returns (minVersion: string, maxVersion: string)
    ensures Parse(minVersion).Ok? && Parse(maxVersion).Ok?
    ensures Precedes(Parse(maxVersion).value, Parse(minVersion).value)
    ensures CompatibilityProblem(minVersion, maxVersion) == None
  {
    var l, r := Decimal(TWO_TO_THE_64), Decimal(TWO_TO_THE_64 + 1);
    DecimalIsCanonical(TWO_TO_THE_64);
    DecimalIsCanonical(TWO_TO_THE_64 + 1);
    var high, low := Version(1, 0, 0, [l]), Version(1, 0, 0, [r]);
    minVersion, maxVersion := Render(low), Render(high);
    ParseAfterRender(low);
    ParseAfterRender(high);
    assert DecidedAt(high.prerelease, low.prerelease, 0);
    CompatibilityRangeIsOrderedExactly(minVersion, maxVersion);
    assert IdentifierBefore(l, r) && PrereleaseBefore(high.prerelease, low.prerelease);
    assert maxVersion != "";
  }
}
