/** The string operations the program takes from its standard library. */
module Text {

  // ---------------------------------------------------------------- order

  /** The `<` on strings: compare character by character, a proper prefix coming first. */
  predicate Less(a: string, b: string) {
    b != [] && (a == [] || a[0] < b[0] || (a[0] == b[0] && Less(a[1..], b[1..])))
  }

  predicate AtMost(a: string, b: string) { a == b || Less(a, b) }

  lemma {:induction false} LessIsTotal(a: string, b: string)
    ensures a == b || Less(a, b) || Less(b, a)
    ensures !(Less(a, b) && Less(b, a))
    ensures !Less(a, a)
  {
    if a != [] && b != [] && a[0] == b[0] {
      LessIsTotal(a[1..], b[1..]);
      assert a == [a[0]] + a[1..] && b == [b[0]] + b[1..];
    }
    if a != [] {
      LessIsTotal(a[1..], a[1..]);
    }
  }

  lemma {:induction false} LessIsTransitive(a: string, b: string, c: string)
    requires Less(a, b) && Less(b, c)
    ensures Less(a, c)
  {
    if a != [] && a[0] == b[0] && b[0] == c[0] {
      LessIsTransitive(a[1..], b[1..], c[1..]);
    }
  }

  /** Two strings agree up to `k`, where the first has ended or has the smaller character. */
  predicate FirstSmallerAt(a: string, b: string, k: nat) {
    k < |b| && k <= |a| && a[..k] == b[..k] && (k == |a| || a[k] < b[k])
  }

  lemma {:induction false} LessHasDifference(a: string, b: string) returns (k: nat)
    requires Less(a, b)
    ensures FirstSmallerAt(a, b, k)
  {
    if a == [] || a[0] < b[0] {
      k := 0;
    } else {
      var n := LessHasDifference(a[1..], b[1..]);
      k := n + 1;
      assert a[..k] == [a[0]] + a[1..][..n] && b[..k] == [b[0]] + b[1..][..n];
    }
  }

  lemma {:induction false} DifferenceIsLess(a: string, b: string, k: nat)
    requires FirstSmallerAt(a, b, k)
    ensures Less(a, b)
    decreases k
  {
    if k > 0 {
      assert a[0] == a[..k][0] && b[0] == b[..k][0];
      assert a[1..][..k - 1] == a[..k][1..] && b[1..][..k - 1] == b[..k][1..];
      DifferenceIsLess(a[1..], b[1..], k - 1);
    }
  }

  /** The order by the first position at which two strings differ, where one of them may have ended. */
  lemma LessAtFirstDifference(a: string, b: string)
    ensures Less(a, b) <==> exists k: nat :: FirstSmallerAt(a, b, k)
  {
    if Less(a, b) {
      var k := LessHasDifference(a, b);
    }
    if k: nat :| FirstSmallerAt(a, b, k) {
      DifferenceIsLess(a, b, k);
    }
  }

  // ---------------------------------------------------------------- splitting and joining

  /** Position of the first `c`, or the length of the string. */
  function IndexOf(s: string, c: char): (k: nat)
    ensures k <= |s|
    ensures c !in s[..k]
    ensures k < |s| ==> s[k] == c
  {
    if s == [] || s[0] == c then 0
    else
      var k := IndexOf(s[1..], c);
      assert s[..k + 1] == [s[0]] + s[1..][..k];
      k + 1
  }

  /** The pieces between the separators; always at least one. */
  function Split(s: string, c: char): (parts: seq<string>)
    ensures parts != []
    decreases |s|
  {
    var k := IndexOf(s, c);
    if k == |s| then [s] else [s[..k]] + Split(s[k + 1..], c)
  }

  function Join(parts: seq<string>, c: char): string
    requires parts != []
  {
    if |parts| == 1 then parts[0] else parts[0] + [c] + Join(parts[1..], c)
  }

  lemma {:induction false} JoinSplit(s: string, c: char)
    ensures Join(Split(s, c), c) == s
    ensures forall i :: 0 <= i < |Split(s, c)| ==> c !in Split(s, c)[i]
    decreases |s|
  {
    var k := IndexOf(s, c);
    if k < |s| {
      var rest := Split(s[k + 1..], c);
      JoinSplit(s[k + 1..], c);
      assert Split(s, c)[1..] == rest;
      assert s == s[..k] + [c] + s[k + 1..];
    } else {
      assert s[..k] == s;
    }
  }

  lemma IndexOfAfter(a: string, c: char, rest: string)
    requires c !in a
    ensures IndexOf(a, c) == |a|
    ensures IndexOf(a + [c] + rest, c) == |a|
  {
    var s := a + [c] + rest;
    assert forall i :: 0 <= i < |a| ==> s[i] == a[i];
    FirstIndex(s, c, |a|);
    FirstIndex(a, c, |a|);
  }

  lemma {:induction false} FirstIndex(s: string, c: char, k: nat)
    requires k <= |s|
    requires forall i :: 0 <= i < k ==> s[i] != c
    requires k < |s| ==> s[k] == c
    ensures IndexOf(s, c) == k
  {
    if k > 0 {
      FirstIndex(s[1..], c, k - 1);
    }
  }

  lemma SplitAfter(a: string, c: char, rest: string)
    requires c !in a
    ensures Split(a + [c] + rest, c) == [a] + Split(rest, c)
  {
    var s := a + [c] + rest;
    IndexOfAfter(a, c, rest);
    assert s[..|a|] == a && s[|a| + 1..] == rest;
  }

  lemma {:induction false} SplitJoin(parts: seq<string>, c: char)
    requires parts != []
    requires forall i :: 0 <= i < |parts| ==> c !in parts[i]
    ensures Split(Join(parts, c), c) == parts
    decreases |parts|
  {
    if |parts| == 1 {
      IndexOfAfter(parts[0], c, []);
      assert parts == [parts[0]];
    } else {
      SplitAfter(parts[0], c, Join(parts[1..], c));
      SplitJoin(parts[1..], c);
      assert parts == [parts[0]] + parts[1..];
    }
  }

  // ---------------------------------------------------------------- decimal numerals

  predicate IsDigit(c: char) { '0' <= c <= '9' }

  predicate AllDigits(s: string) {
    forall i :: 0 <= i < |s| ==> IsDigit(s[i])
  }

  /** `isNumeric` of the manifest package: one or more digits. */
  predicate IsNumeric(s: string) { s != "" && AllDigits(s) }

  function DigitValue(c: char): nat
    requires IsDigit(c)
  {
    c as int - '0' as int
  }

  /** The number a digit string denotes. */
  function DecimalValue(s: string): nat
    requires AllDigits(s)
  {
    if s == [] then 0 else 10 * DecimalValue(s[..|s| - 1]) + DigitValue(s[|s| - 1])
  }

  /** The decimal numeral of a number, without leading zeros. */
  function Decimal(n: nat): (s: string)
    ensures IsNumeric(s)
  {
    if n < 10 then [('0' as int + n) as char] else Decimal(n / 10) + [('0' as int + n % 10) as char]
  }

  /** A numeral without leading zeros. */
  predicate IsCanonical(s: string) {
    IsNumeric(s) && (|s| > 1 ==> s[0] != '0')
  }

  lemma {:induction false} DecimalIsCanonical(n: nat)
    ensures IsCanonical(Decimal(n))
    ensures n > 0 ==> Decimal(n)[0] != '0'
    ensures DecimalValue(Decimal(n)) == n
  {
    if n < 10 {
      assert DecimalValue(Decimal(n)[..0]) == 0;
    } else {
      DecimalIsCanonical(n / 10);
      assert Decimal(n)[..|Decimal(n)| - 1] == Decimal(n / 10);
    }
  }

  lemma {:induction false} CanonicalIsDecimal(s: string)
    requires IsCanonical(s)
    ensures Decimal(DecimalValue(s)) == s
    ensures |s| > 1 ==> DecimalValue(s) >= 10
  {
    var init := s[..|s| - 1];
    if |s| == 1 {
      assert init == [];
      assert s == [s[0]];
    } else {
      CanonicalIsDecimal(init);
      assert s == init + [s[|s| - 1]];
      if |init| == 1 {
        assert init[..0] == [] && DecimalValue(init) == DigitValue(init[0]) > 0;
      }
      var v := DecimalValue(s);
      assert v / 10 == DecimalValue(init) && v % 10 == DigitValue(s[|s| - 1]);
    }
  }

  // ---------------------------------------------------------------- trimming

  /** The white space that trimming removes. */
  predicate IsSpace(c: char) {
    || c == ' ' || '\t' <= c <= '\r'
    || c == '\U{85}' || c == '\U{A0}' || c == '\U{1680}' || '\U{2000}' <= c <= '\U{200A}'
    || c == '\U{2028}' || c == '\U{2029}' || c == '\U{202F}' || c == '\U{205F}' || c == '\U{3000}'
  }

  /** Index of the first visible character from `i` on. */
  function Start(s: string, i: nat): (j: nat)
    requires i <= |s|
    ensures i <= j <= |s|
    decreases |s| - i
  {
    if i < |s| && IsSpace(s[i]) then Start(s, i + 1) else i
  }

  /** Index after the last visible character between `i` and `j`. */
  function End(s: string, i: nat, j: nat): (k: nat)
    requires i <= j <= |s|
    ensures i <= k <= j
    decreases j
  {
    if i < j && IsSpace(s[j - 1]) then End(s, i, j - 1) else j
  }

  function TrimSpace(s: string): string { s[Start(s, 0)..End(s, Start(s, 0), |s|)] }

  lemma {:induction false} StartIs(s: string, i: nat, j: nat)
    requires i <= j <= |s|
    requires forall k :: i <= k < j ==> IsSpace(s[k])
    requires j < |s| ==> !IsSpace(s[j])
    ensures Start(s, i) == j
    decreases j - i
  {
    if i < j {
      StartIs(s, i + 1, j);
    }
  }

  predicate Blank(s: string) { forall i :: 0 <= i < |s| ==> IsSpace(s[i]) }

  /** Nothing to trim at either end. */
  predicate Trimmed(s: string) { s != "" ==> !IsSpace(s[0]) && !IsSpace(s[|s| - 1]) }

  lemma {:induction false} EndIs(s: string, i: nat, k: nat, j: nat)
    requires i <= k <= j <= |s|
    requires forall n :: k <= n < j ==> IsSpace(s[n])
    requires i < k ==> !IsSpace(s[k - 1])
    ensures End(s, i, j) == k
    decreases j - k
  {
    if k < j {
      EndIs(s, i, k, j - 1);
    }
  }

  /** Trimming removes the blanks around a text and nothing else. */
  lemma TrimIs(a: string, t: string, b: string)
    requires Blank(a) && Trimmed(t) && Blank(b)
    ensures TrimSpace(a + t + b) == t
  {
    var s := a + t + b;
    if t == "" {
      assert Blank(s);
      StartIs(s, 0, |s|);
    } else {
      assert forall n :: 0 <= n < |t| ==> s[|a| + n] == t[n];
      StartIs(s, 0, |a|);
      EndIs(s, |a|, |a| + |t|, |s|);
      assert s[|a|..|a| + |t|] == t;
    }
  }

  lemma {:induction false} StartSkipsBlanks(s: string, i: nat)
    requires i <= |s|
    ensures forall n :: i <= n < Start(s, i) ==> IsSpace(s[n])
    ensures Start(s, i) < |s| ==> !IsSpace(s[Start(s, i)])
    decreases |s| - i
  {
    if i < |s| && IsSpace(s[i]) {
      StartSkipsBlanks(s, i + 1);
    }
  }

  lemma {:induction false} EndSkipsBlanks(s: string, i: nat, j: nat)
    requires i <= j <= |s|
    ensures forall n :: End(s, i, j) <= n < j ==> IsSpace(s[n])
    ensures i < End(s, i, j) ==> !IsSpace(s[End(s, i, j) - 1])
    decreases j
  {
    if i < j && IsSpace(s[j - 1]) {
      EndSkipsBlanks(s, i, j - 1);
    }
  }

  /** Every text is blanks, its trimmed part, and blanks. */
  lemma TrimParts(s: string) returns (a: string, b: string)
    ensures Blank(a) && Blank(b) && Trimmed(TrimSpace(s)) && s == a + TrimSpace(s) + b
  {
    var i := Start(s, 0);
    var j := End(s, i, |s|);
    StartSkipsBlanks(s, 0);
    EndSkipsBlanks(s, i, |s|);
    a, b := s[..i], s[j..];
  }

  // ---------------------------------------------------------------- alphabets and numerals by their codes

  lemma DigitCodes(c: char)
    ensures IsDigit(c) <==> 48 <= c as int <= 57
    ensures IsDigit(c) ==> DigitValue(c) == c as int - 48
  {
  }

  lemma SpaceCodes(c: char)
    ensures IsSpace(c) <==> 9 <= c as int <= 13 || 0x2000 <= c as int <= 0x200A
                            || c as int in {32, 0x85, 0xA0, 0x1680, 0x2028, 0x2029, 0x202F, 0x205F, 0x3000}
  {
  }

  function Power10(n: nat): nat { if n == 0 then 1 else 10 * Power10(n - 1) }

  /** Numerals are positional: a numeral in two parts is worth the first, moved left by the length of the second, and
      the second. */
  lemma {:induction false} DecimalIsPositional(a: string, b: string)
    requires AllDigits(a) && AllDigits(b)
    ensures AllDigits(a + b)
    ensures DecimalValue(a + b) == DecimalValue(a) * Power10(|b|) + DecimalValue(b)
    ensures |b| == 1 ==> DecimalValue(b) == b[0] as int - 48
  {
    if b == [] {
      assert a + b == a;
    } else {
      var init := b[..|b| - 1];
      DecimalIsPositional(a, init);
      assert (a + b)[..|a + b| - 1] == a + init;
      MovedLeft(DecimalValue(a), Power10(|init|), DecimalValue(init));
    }
  }

  lemma MovedLeft(x: nat, p: nat, y: nat)
    ensures 10 * (x * p + y) == x * (10 * p) + 10 * y
  {
  }
}
