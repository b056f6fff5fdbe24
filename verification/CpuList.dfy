/** CPU lists such as 0-3,8,10-11: how many CPUs they name. */
module CpuList {
  import opened Wrappers
  import opened Text
  import opened Sorting

  const MAX_INT: int := 0x7fff_ffff_ffff_ffff
  const MIN_INT: int := -MAX_INT - 1

  /** The source's int on a 64-bit machine. */
  type Int64 = x: int | MIN_INT <= x <= MAX_INT

  /** `NeverEnds` is not an error of the source but a call that does not return. */
  datatype CpuListError = InvalidRange(part: string) | InvalidCpu(part: string) | EmptyList | NeverEnds(part: string)

  /** `strconv.Atoi`: an optional sign and digits, within 64 signed bits. */
  function Atoi(s: string): Option<Int64> {
    var signed := s != "" && (s[0] == '-' || s[0] == '+');
    var digits := if signed then s[1..] else s;
    if !IsNumeric(digits) then None
    else
      var n: int := DecimalValue(digits);
      if signed && s[0] == '-' then (if -n >= MIN_INT then Some(-n) else None)
      else if n <= MAX_INT then Some(n) else None
  }

  // ---------------------------------------------------------------- the loop over a range

  /** The increment of the loop variable, which wraps. */
  function Succ(x: Int64): Int64 { if x == MAX_INT then MIN_INT else x + 1 }

  function Iterate(x: Int64, n: nat): Int64 {
    if n == 0 then x else Succ(Iterate(x, n - 1))
  }

  /** Whether a loop from `first` while the variable is at most `last` ever stops. */
  ghost predicate LoopEnds(first: Int64, last: Int64) {
    exists n: nat :: Iterate(first, n) > last
  }

  lemma {:induction false} IterateAdds(x: Int64, n: nat)
    requires x + n <= MAX_INT
    ensures Iterate(x, n) == x + n
  {
    if n > 0 {
      IterateAdds(x, n - 1);
    }
  }

  /** It stops exactly when the end of the range is not the largest integer. */
  lemma LoopEndsExactly(first: Int64, last: Int64)
    requires first <= last
    ensures LoopEnds(first, last) <==> last < MAX_INT
  {
    if last < MAX_INT {
      IterateAdds(first, last + 1 - first);
      assert Iterate(first, last + 1 - first) > last;
    }
  }

  /** The integers from `lo` up to but not including `hi`. */
  function Interval(lo: int, hi: int): (s: set<int>)
    ensures forall x :: x in s <==> lo <= x < hi
    decreases hi - lo
  {
    if hi <= lo then {} else Interval(lo, hi - 1) + {hi - 1}
  }

  /** The two ends of a range, around its first dash. */
  function RangeOf(part: string): (r: Result<(Int64, Int64), CpuListError>)
    requires '-' in part
    ensures r.Ok? ==> r.value.0 <= r.value.1
  {
    var dash := IndexOf(part, '-');
    assert part[..|part|] == part;
    var first, last := Atoi(TrimSpace(part[..dash])), Atoi(TrimSpace(part[dash + 1..]));
    if first == None || last == None || last.value < first.value then Err(InvalidRange(part))
    else Ok((first.value, last.value))
  }

  /** The CPUs one part names: a range, if the loop over it ends, a single number, or nothing when it is blank. */
  ghost function PartSet(raw: string): Result<set<int>, CpuListError> {
    var part := TrimSpace(raw);
    if part == "" then Ok({})
    else if '-' in part then
      match RangeOf(part)
      case Err(e) => Err(e)
      case Ok((first, last)) =>
        if LoopEnds(first, last) then Ok(Interval(first, last + 1)) else Err(NeverEnds(part))
    else
      var cpu := Atoi(part);
      if cpu == None || cpu.value < 0 then Err(InvalidCpu(part)) else Ok({cpu.value})
  }

  /** The union of the parts, or the first error. */
  ghost function UnionOf(parts: seq<string>): Result<set<int>, CpuListError> {
    if parts == [] then Ok({})
    else
      match UnionOf(parts[..|parts| - 1])
      case Err(e) => Err(e)
      case Ok(s) =>
        match PartSet(parts[|parts| - 1])
        case Err(e) => Err(e)
        case Ok(t) => Ok(s + t)
  }

  function Parts(value: string): seq<string> { Split(TrimSpace(value), ',') }

  ghost function Count(value: string): Result<nat, CpuListError> {
    match UnionOf(Parts(value))
    case Err(e) => Err(e)
    case Ok(s) => if s == {} then Err(EmptyList) else Ok(|s|)
  }

  lemma {:induction false} ErrorsStick(parts: seq<string>, i: nat)
    requires i <= |parts| && UnionOf(parts[..i]).Err?
    ensures UnionOf(parts) == UnionOf(parts[..i])
  {
    if i == |parts| {
      assert parts[..i] == parts;
    } else {
      var init := parts[..|parts| - 1];
      assert init[..i] == parts[..i];
      ErrorsStick(init, i);
    }
  }

  lemma UnionUpTo(parts: seq<string>, i: nat)
    requires i < |parts| && UnionOf(parts[..i]).Ok?
    ensures UnionOf(parts[..i + 1]) == match PartSet(parts[i])
                                       case Err(e) => Err(e)
                                       case Ok(t) => Ok(UnionOf(parts[..i]).value + t)
  {
    assert parts[..i + 1][..i] == parts[..i] && parts[..i + 1][i] == parts[i];
  }

  /** The loop over a range that does end. */
  method AddRange(first: Int64, last: Int64, cpus: set<int>) returns (more: set<int>)
    requires first <= last < MAX_INT
    ensures more == cpus + Interval(first, last + 1)
  {
    more := cpus;
    var cpu: Int64 := first;
    while cpu <= last
      invariant first <= cpu <= last + 1 && more == cpus + Interval(first, cpu)
      decreases last - cpu
    {
      more := more + {cpu};
      cpu := Succ(cpu);
    }
  }

  /** Puts the CPUs of one part into the set; on an error the set is left as it was. */
  method AddPart(raw: string, cpus: set<int>) returns (err: Option<CpuListError>, more: set<int>)
    ensures match PartSet(raw)
            case Ok(t) => err == None && more == cpus + t
            case Err(e) => err == Some(e)
  {
    more := cpus;
    var part := TrimSpace(raw);
    if part == "" {
      return None, cpus;
    }
    if '-' in part {
      var range := RangeOf(part);
      if range.Err? {
        return Some(range.error), cpus;
      }
      var (first, last) := range.value;
      LoopEndsExactly(first, last);
      if last == MAX_INT {
        return Some(NeverEnds(part)), cpus;
      }
      more := AddRange(first, last, cpus);
      return None, more;
    }
    var cpu := Atoi(part);
    if cpu == None || cpu.value < 0 {
      return Some(InvalidCpu(part)), cpus;
    }
    return None, cpus + {cpu.value};
  }

  /** The counter as the source writes it: a set filled in nested loops. */
  method CountCpuList(value: string) returns (r: Result<nat, CpuListError>)
    ensures r == Count(value)
  {
    var cpus: set<int> := {};
    var parts := Split(TrimSpace(value), ',');
    for i := 0 to |parts|
      invariant UnionOf(parts[..i]) == Ok(cpus)
    {
      UnionUpTo(parts, i);
      var err;
      err, cpus := AddPart(parts[i], cpus);
      if err.Some? {
        ErrorsStick(parts, i + 1);
        return Err(err.value);
      }
    }
    assert parts[..|parts|] == parts;
    if |cpus| == 0 {
      return Err(EmptyList);
    }
    return Ok(|cpus|);
  }

  // ---------------------------------------------------------------- the count is a cardinality

  /** The parts are all well formed exactly when there is a union, and then it holds what any part names. */
  lemma {:induction false} UnionHoldsWhatPartsName(parts: seq<string>)
    ensures UnionOf(parts).Ok? <==> forall p :: p in parts ==> PartSet(p).Ok?
    ensures UnionOf(parts).Ok? ==> forall x :: x in UnionOf(parts).value
                                               <==> exists p :: p in parts && PartSet(p).Ok? && x in PartSet(p).value
  {
    if parts != [] {
      var init, last := parts[..|parts| - 1], parts[|parts| - 1];
      UnionHoldsWhatPartsName(init);
      assert parts == init + [last];
    }
  }

  /** Repeating or reordering the parts of a list does not change the count, nor whether there is one. */
  lemma CountIgnoresOrderAndRepetition(a: string, b: string)
    requires forall p :: p in Parts(a) <==> p in Parts(b)
    ensures Count(a).Ok? <==> Count(b).Ok?
    ensures Count(a).Ok? ==> Count(a) == Count(b)
  {
    UnionHoldsWhatPartsName(Parts(a));
    UnionHoldsWhatPartsName(Parts(b));
    if UnionOf(Parts(a)).Ok? {
      assert UnionOf(Parts(a)).value == UnionOf(Parts(b)).value;
    }
  }

  lemma {:induction false} RangesAreNotNegative(part: string)
    requires '-' in part && RangeOf(part).Ok?
    ensures RangeOf(part).value.0 >= 0
  {
    var head := part[..IndexOf(part, '-')];
    var first := TrimSpace(head);
    assert forall i :: 0 <= i < |first| ==> first[i] in head;
    assert first != "" ==> first[0] != '-';
  }

  /** No negative CPU is ever counted: ranges are not checked for it, but no text before the first dash
      reads as a negative number. */
  lemma {:induction false} CpusAreNotNegative(parts: seq<string>, x: int)
    requires UnionOf(parts).Ok? && x in UnionOf(parts).value
    ensures x >= 0
  {
    var init, last := parts[..|parts| - 1], TrimSpace(parts[|parts| - 1]);
    if x in UnionOf(init).value {
      CpusAreNotNegative(init, x);
    } else if '-' in last {
      RangesAreNotNegative(last);
    }
  }

  // ---------------------------------------------------------------- calls that do not return

  /** A well-formed range that ends at the largest integer. */
  predicate EndlessRange(raw: string) {
    var part := TrimSpace(raw);
    '-' in part && RangeOf(part).Ok? && RangeOf(part).value.1 == MAX_INT
  }

  lemma EndlessPart(raw: string)
    ensures EndlessRange(raw) <==> PartSet(raw) == Err(NeverEnds(TrimSpace(raw)))
    ensures PartSet(raw).Err? && PartSet(raw).error.NeverEnds? ==> EndlessRange(raw)
  {
    var part := TrimSpace(raw);
    if '-' in part && RangeOf(part).Ok? {
      LoopEndsExactly(RangeOf(part).value.0, RangeOf(part).value.1);
    }
  }

  /** The error of a list is that of its first part that has one. */
  lemma {:induction false} FirstBadPart(parts: seq<string>) returns (i: nat)
    requires UnionOf(parts).Err?
    ensures i < |parts| && UnionOf(parts[..i]).Ok?
    ensures PartSet(parts[i]).Err? && PartSet(parts[i]).error == UnionOf(parts).error
  {
    var init := parts[..|parts| - 1];
    if UnionOf(init).Err? {
      i := FirstBadPart(init);
      assert init[..i] == parts[..i];
    } else {
      i := |parts| - 1;
    }
  }

  lemma PrefixIsWellFormed(parts: seq<string>, i: nat)
    requires i <= |parts|
    ensures UnionOf(parts[..i]).Ok? <==> forall j :: 0 <= j < i ==> PartSet(parts[j]).Ok?
  {
    UnionHoldsWhatPartsName(parts[..i]);
    if UnionOf(parts[..i]).Ok? {
      forall j | 0 <= j < i ensures PartSet(parts[j]).Ok? {
        assert parts[j] == parts[..i][j] && parts[j] in parts[..i];
      }
    }
  }

  lemma FirstEndlessPart(value: string) returns (i: nat)
    requires Count(value).Err? && Count(value).error.NeverEnds?
    ensures i < |Parts(value)| && EndlessRange(Parts(value)[i])
    ensures forall j :: 0 <= j < i ==> PartSet(Parts(value)[j]).Ok?
  {
    var parts := Parts(value);
    i := FirstBadPart(parts);
    EndlessPart(parts[i]);
    PrefixIsWellFormed(parts, i);
  }

  lemma EndlessPartStops(value: string, i: nat)
    requires i < |Parts(value)| && EndlessRange(Parts(value)[i])
    requires forall j :: 0 <= j < i ==> PartSet(Parts(value)[j]).Ok?
    ensures Count(value).Err? && Count(value).error.NeverEnds?
  {
    var parts := Parts(value);
    EndlessPart(parts[i]);
    PrefixIsWellFormed(parts, i);
    UnionUpTo(parts, i);
    ErrorsStick(parts, i + 1);
  }

  /** Counting does not return exactly when some part is an endless range and all parts before it are well formed. */
  lemma CountNeverEndsExactly(value: string)
    ensures var parts := Parts(value);
            (Count(value).Err? && Count(value).error.NeverEnds?)
            <==> exists i :: 0 <= i < |parts| && EndlessRange(parts[i])
                             && forall j :: 0 <= j < i ==> PartSet(parts[j]).Ok?
  {
    var parts := Parts(value);
    if Count(value).Err? && Count(value).error.NeverEnds? {
      var i := FirstEndlessPart(value);
    }
    if i :| 0 <= i < |parts| && EndlessRange(parts[i]) && forall j :: 0 <= j < i ==> PartSet(parts[j]).Ok? {
      EndlessPartStops(value, i);
    }
  }

  lemma NothingToTrim(s: string)
    requires forall i :: 0 <= i < |s| ==> !IsSpace(s[i])
    ensures TrimSpace(s) == s
  {
    StartIs(s, 0, 0);
  }

  lemma PlainNumber(n: nat)
    requires n <= MAX_INT
    ensures TrimSpace(Decimal(n)) == Decimal(n) && Atoi(Decimal(n)) == Some(n)
    ensures '-' !in Decimal(n) && ',' !in Decimal(n)
  {
    var s := Decimal(n);
    DecimalIsCanonical(n);
    assert IsDigit(s[0]);
    NothingToTrim(s);
  }

  lemma RangeRead(part: string, a: string, b: string, first: Int64, last: Int64)
    requires part == a + ['-'] + b && '-' !in a && first <= last
    requires Atoi(TrimSpace(a)) == Some(first) && Atoi(TrimSpace(b)) == Some(last)
    ensures '-' in part && RangeOf(part) == Ok((first, last))
  {
    IndexOfAfter(a, '-', b);
    assert part[|a|] == '-' && part[..|a|] == a && part[|a| + 1..] == b;
  }

  lemma OnlyPart(value: string)
    requires ',' !in value && TrimSpace(value) == value && PartSet(value).Err?
    ensures Count(value) == Err(PartSet(value).error)
  {
    IndexOfAfter(value, ',', "");
    assert Parts(value) == [value];
    assert [value][..0] == [] && [value][..1] == [value];
    UnionUpTo([value], 0);
  }

  lemma DashedNumbers(a: string, b: string)
    requires IsNumeric(a) && IsNumeric(b)
    ensures var value := a + ['-'] + b; TrimSpace(value) == value && ',' !in value
  {
    var value := a + ['-'] + b;
    forall i | 0 <= i < |value| ensures !IsSpace(value[i]) && value[i] != ',' {
      assert value[i] == '-' || IsDigit(value[i]);
    }
    NothingToTrim(value);
  }

  /** From whatever CPU it starts, a range up to the largest integer is counted for ever. */
  lemma RangeToTheLargestNeverEnds(n: nat)
    requires n <= MAX_INT
    ensures var value := Decimal(n) + ['-'] + Decimal(MAX_INT); Count(value) == Err(NeverEnds(value))
  {
    var a, b := Decimal(n), Decimal(MAX_INT);
    var value := a + ['-'] + b;
    PlainNumber(n);
    PlainNumber(MAX_INT);
    DashedNumbers(a, b);
    RangeRead(value, a, b, n, MAX_INT);
    EndlessPart(value);
    OnlyPart(value);
  }

  // ---------------------------------------------------------------- what lists of numerals count

  /** A part as it is usually written. */
  datatype Item = Single(cpu: nat) | Span(first: nat, last: nat)

  predicate ProperItem(item: Item) {
    match item
    case Single(n) => n <= MAX_INT
    case Span(a, b) => a <= b < MAX_INT
  }

  function ItemText(item: Item): string {
    match item
    case Single(n) => Decimal(n)
    case Span(a, b) => Decimal(a) + ['-'] + Decimal(b)
  }

  predicate Names(item: Item, x: int) {
    match item
    case Single(n) => x == n
    case Span(a, b) => a <= x <= b
  }

  function ItemTexts(items: seq<Item>): (texts: seq<string>)
    ensures |texts| == |items| && forall i :: 0 <= i < |items| ==> texts[i] == ItemText(items[i])
  {
    seq(|items|, i requires 0 <= i < |items| => ItemText(items[i]))
  }

  /** The list as text, with commas between the parts. */
  function ListText(items: seq<Item>): string
    requires items != []
  {
    Join(ItemTexts(items), ',')
  }

  lemma ItemTextIsPlain(item: Item)
    requires ProperItem(item)
    ensures forall i :: 0 <= i < |ItemText(item)| ==> !IsSpace(ItemText(item)[i]) && ItemText(item)[i] != ','
    ensures ItemText(item) != ""
  {
    match item
    case Single(n) => assert IsNumeric(Decimal(n));
    case Span(a, b) =>
      var s := ItemText(item);
      forall i | 0 <= i < |s| ensures !IsSpace(s[i]) && s[i] != ',' {
        assert s[i] == '-' || IsDigit(s[i]);
      }
  }

  /** A single number names itself, a range everything between its ends, both included. */
  lemma ItemNames(item: Item)
    requires ProperItem(item)
    ensures PartSet(ItemText(item)).Ok? && forall x: int :: x in PartSet(ItemText(item)).value <==> Names(item, x)
  {
    match item
    case Single(n) =>
      PlainNumber(n);
      DecimalIsCanonical(n);
    case Span(a, b) =>
      PlainNumber(a);
      PlainNumber(b);
      DashedNumbers(Decimal(a), Decimal(b));
      RangeRead(ItemText(item), Decimal(a), Decimal(b), a, b);
      LoopEndsExactly(a, b);
  }

  lemma {:induction false} JoinIsPlain(texts: seq<string>)
    requires texts != []
    requires forall k, i :: 0 <= k < |texts| && 0 <= i < |texts[k]| ==> !IsSpace(texts[k][i])
    ensures forall i :: 0 <= i < |Join(texts, ',')| ==> !IsSpace(Join(texts, ',')[i])
  {
    if |texts| > 1 {
      JoinIsPlain(texts[1..]);
    }
  }

  lemma PartsOfList(items: seq<Item>)
    requires items != [] && forall i :: 0 <= i < |items| ==> ProperItem(items[i])
    ensures Parts(ListText(items)) == ItemTexts(items)
  {
    var texts := ItemTexts(items);
    forall k | 0 <= k < |texts| ensures ',' !in texts[k] && forall i :: 0 <= i < |texts[k]| ==> !IsSpace(texts[k][i]) {
      ItemTextIsPlain(items[k]);
    }
    JoinIsPlain(texts);
    NothingToTrim(ListText(items));
    SplitJoin(texts, ',');
  }

  /** A list of numbers and ranges counts exactly the numbers that some part names. */
  lemma ListCountsWhatItNames(items: seq<Item>, cpus: set<int>)
    requires items != [] && forall i :: 0 <= i < |items| ==> ProperItem(items[i])
    requires forall x: int :: x in cpus <==> exists i :: 0 <= i < |items| && Names(items[i], x)
    ensures Count(ListText(items)) == Ok(|cpus|)
  {
    var texts := ItemTexts(items);
    PartsOfList(items);
    UnionHoldsWhatPartsName(texts);
    forall i | 0 <= i < |items|
      ensures PartSet(texts[i]).Ok? && forall x: int :: x in PartSet(texts[i]).value <==> Names(items[i], x)
    {
      ItemNames(items[i]);
    }
    assert UnionOf(texts).Ok?;
    UnionIsNamed(items, cpus);
    FirstIsNamed(items, cpus);
  }

  lemma UnionIsNamed(items: seq<Item>, cpus: set<int>)
    requires UnionOf(ItemTexts(items)).Ok?
    requires forall i :: 0 <= i < |items| ==> PartSet(ItemText(items[i])).Ok?
    requires forall i :: 0 <= i < |items| ==>
               forall x: int :: x in PartSet(ItemText(items[i])).value <==> Names(items[i], x)
    requires forall x: int :: x in cpus <==> exists i :: 0 <= i < |items| && Names(items[i], x)
    ensures UnionOf(ItemTexts(items)).value == cpus
  {
    var texts := ItemTexts(items);
    UnionHoldsWhatPartsName(texts);
    forall x: int ensures x in UnionOf(texts).value <==> x in cpus {
      if x in cpus {
        var i :| 0 <= i < |items| && Names(items[i], x);
        assert texts[i] in texts;
      }
      if x in UnionOf(texts).value {
        var p :| p in texts && PartSet(p).Ok? && x in PartSet(p).value;
        var i :| 0 <= i < |texts| && texts[i] == p;
        assert Names(items[i], x);
      }
    }
  }

  lemma FirstIsNamed(items: seq<Item>, cpus: set<int>)
    requires items != [] && ProperItem(items[0])
    requires forall x: int :: x in cpus <==> exists i :: 0 <= i < |items| && Names(items[i], x)
    ensures cpus != {}
  {
    var x := match items[0] case Single(n) => n case Span(a, _) => a;
    assert Names(items[0], x);
    assert x in cpus;
  }

  lemma {:induction false} IntervalSize(lo: int, hi: int)
    requires lo <= hi
    ensures |Interval(lo, hi)| == hi - lo
    decreases hi - lo
  {
    if lo < hi {
      IntervalSize(lo, hi - 1);
    }
  }

  lemma OneItemCounts(item: Item, cpus: set<int>)
    requires ProperItem(item) && forall x: int :: x in cpus <==> Names(item, x)
    ensures Count(ItemText(item)) == Ok(|cpus|)
  {
    assert ItemTexts([item]) == [ItemText(item)];
    assert forall x: int :: Names(item, x) <==> Names([item][0], x);
    ListCountsWhatItNames([item], cpus);
  }

  /** One number counts one. */
  lemma SingleCounts(n: nat)
    requires n <= MAX_INT
    ensures Count(Decimal(n)) == Ok(1)
  {
    OneItemCounts(Single(n), {n});
  }

  /** A range counts all from its first to its last. */
  lemma RangeCounts(a: nat, b: nat)
    requires a <= b < MAX_INT
    ensures Count(Decimal(a) + ['-'] + Decimal(b)) == Ok(b - a + 1)
  {
    IntervalSize(a, b + 1);
    OneItemCounts(Span(a, b), Interval(a, b + 1));
  }

  lemma RangeReadBackwards(part: string, a: string, b: string, first: Int64, last: Int64)
    requires part == a + ['-'] + b && '-' !in a && last < first
    requires TrimSpace(a) == a && TrimSpace(b) == b && Atoi(a) == Some(first) && Atoi(b) == Some(last)
    ensures '-' in part && RangeOf(part) == Err(InvalidRange(part))
  {
    IndexOfAfter(a, '-', b);
    assert part[|a|] == '-' && part[..|a|] == a && part[|a| + 1..] == b;
  }

  /** A range backwards is an error. */
  lemma BackwardsRangeIsRefused(a: nat, b: nat)
    requires b < a <= MAX_INT
    ensures var value := Decimal(a) + ['-'] + Decimal(b); Count(value) == Err(InvalidRange(value))
  {
    var value := Decimal(a) + ['-'] + Decimal(b);
    PlainNumber(a);
    PlainNumber(b);
    DashedNumbers(Decimal(a), Decimal(b));
    RangeReadBackwards(value, Decimal(a), Decimal(b), a, b);
    OnlyPart(value);
  }

  // ---------------------------------------------------------------- blanks, signs and empty lists

  lemma EmptyUnion(parts: seq<string>)
    requires UnionOf(parts).Ok?
    ensures UnionOf(parts).value == {} <==> forall p :: p in parts ==> PartSet(p) == Ok({})
  {
    UnionHoldsWhatPartsName(parts);
    var union := UnionOf(parts).value;
    if union == {} {
      forall p | p in parts ensures PartSet(p) == Ok({}) {
        NothingIn(PartSet(p).value, union);
      }
    }
    if forall p :: p in parts ==> PartSet(p) == Ok({}) {
      NothingIn(union, {});
    }
  }

  lemma NothingIn<T>(part: set<T>, union: set<T>)
    requires union == {} && forall x :: x in part ==> x in union
    ensures part == {}
  {
  }

  /** Counting finds no CPU exactly when all parts are blank. */
  lemma EmptyListExactly(value: string)
    ensures Count(value) == Err(EmptyList) <==> forall p :: p in Parts(value) ==> TrimSpace(p) == ""
  {
    var parts := Parts(value);
    forall p ensures TrimSpace(p) == "" <==> PartSet(p) == Ok({}) {
      OnlyBlanksNameNothing(p);
    }
    if UnionOf(parts).Ok? {
      EmptyUnion(parts);
    } else {
      var i := FirstBadPart(parts);
      NoPartIsEmptyList(parts[i]);
      assert parts[i] in parts;
    }
  }

  lemma OnlyBlanksNameNothing(p: string)
    ensures TrimSpace(p) == "" <==> PartSet(p) == Ok({})
  {
    var part := TrimSpace(p);
    if '-' in part && RangeOf(part).Ok? {
      var (first, last) := RangeOf(part).value;
      assert first in Interval(first, last + 1);
    }
  }

  lemma NoPartIsEmptyList(p: string)
    requires PartSet(p).Err?
    ensures PartSet(p).error != EmptyList
  {
  }

  /** Blanks around a part, a number or the dash do not count. */
  lemma BlanksDoNotCount(x: nat, y: nat, a: string, b: string, c: string, d: string)
    requires x <= y < MAX_INT && Blank(a) && Blank(b) && Blank(c) && Blank(d)
    ensures PartSet(a + Decimal(x) + b) == PartSet(Decimal(x))
    ensures PartSet(a + ((Decimal(x) + b) + ['-'] + (c + Decimal(y))) + d) == Ok(Interval(x, y + 1))
  {
    PlainNumber(x);
    PlainNumber(y);
    PlainEnds(Decimal(x));
    TrimIs(a, Decimal(x), b);
    BlankRange(a, Decimal(x), b, c, Decimal(y), d, x, y);
  }

  lemma PlainEnds(s: string)
    requires IsNumeric(s)
    ensures !IsSpace(s[0]) && !IsSpace(s[|s| - 1])
  {
    assert IsDigit(s[0]) && IsDigit(s[|s| - 1]);
  }

  lemma BlankRange(a: string, p: string, b: string, c: string, q: string, d: string, x: Int64, y: Int64)
    requires x <= y < MAX_INT && Blank(a) && Blank(b) && Blank(c) && Blank(d)
    requires IsNumeric(p) && IsNumeric(q) && Atoi(p) == Some(x) && Atoi(q) == Some(y)
    ensures PartSet(a + ((p + b) + ['-'] + (c + q)) + d) == Ok(Interval(x, y + 1))
  {
    var head, tail := p + b, c + q;
    var range := head + ['-'] + tail;
    TrimmedAfter(p, b);
    TrimmedBefore(c, q);
    PlainEnds(p);
    PlainEnds(q);
    assert range[0] == p[0] && range[|range| - 1] == q[|q| - 1];
    TrimIs(a, range, d);
    RangeRead(range, head, tail, x, y);
    LoopEndsExactly(x, y);
  }

  lemma TrimmedAfter(s: string, b: string)
    requires IsNumeric(s) && Blank(b)
    ensures TrimSpace(s + b) == s && '-' !in s + b
  {
    PlainEnds(s);
    TrimIs("", s, b);
    assert s + b == "" + s + b;
    assert forall i :: 0 <= i < |s + b| ==> IsDigit((s + b)[i]) || IsSpace((s + b)[i]);
  }

  lemma TrimmedBefore(c: string, s: string)
    requires IsNumeric(s) && Blank(c)
    ensures TrimSpace(c + s) == s
  {
    PlainEnds(s);
    TrimIs(c, s, "");
    assert c + s == c + s + "";
  }

  /** A numeral may carry a sign; anything else is no number. */
  lemma AtoiExactly(s: string, x: Int64)
    ensures Atoi(s) == Some(x)
            <==> || (IsNumeric(s) && DecimalValue(s) == x)
                 || (s != "" && s[0] == '+' && IsNumeric(s[1..]) && DecimalValue(s[1..]) == x)
                 || (s != "" && s[0] == '-' && IsNumeric(s[1..]) && DecimalValue(s[1..]) + x == 0)
  {
    if s != "" && IsNumeric(s) {
      assert IsDigit(s[0]);
    }
  }

  // ---------------------------------------------------------------- the least positive value

  /** `positiveMin`: zero when nothing is positive. */
  method PositiveMin(values: seq<int>) returns (least: int)
    ensures least == 0 <==> forall v :: v in values ==> v <= 0
    ensures least != 0 ==> least in values && least > 0 && forall v :: v in values && v > 0 ==> least <= v
  {
    var filtered: seq<int> := [];
    for i := 0 to |values|
      invariant forall v :: v in filtered <==> v in values[..i] && v > 0
    {
      assert values[..i + 1] == values[..i] + [values[i]];
      if values[i] > 0 {
        filtered := filtered + [values[i]];
      }
    }
    assert values[..|values|] == values;
    if |filtered| == 0 {
      return 0;
    }
    var sorted := SortSlice(filtered, (x: int, y: int) => x <= y);
    assert forall v :: v in filtered <==> v in multiset(sorted);
    assert |multiset(sorted)| == |multiset(filtered)|;
    assert sorted[0] in multiset(sorted);
    return sorted[0];
  }
}
