/** What every placement plan keeps, for every host and every request. */
module PlacementProofs {
  import opened Words
  import opened Wrappers
  import opened PlacementSpec

  // ---------------------------------------------------------------- sums over entries

  /** Bytes of one entry or item that count towards a class. */
  function Share(of: Kind, kind: Kind, bytes: nat): nat { if of == kind then bytes else 0 }

  lemma ClassSnoc(classes: seq<ClassPlacement>, e: ClassPlacement, kind: Kind)
    ensures ClassBytes(classes + [e], kind) == ClassBytes(classes, kind) + Share(e.kind, kind, e.bytes)
  {
    assert (classes + [e])[..|classes|] == classes;
  }

  lemma TierSnoc(classes: seq<ClassPlacement>, e: ClassPlacement, tier: Tier)
    ensures TierBytes(classes + [e], tier) == TierBytes(classes, tier) + if e.tier == tier then e.bytes else 0
  {
    assert (classes + [e])[..|classes|] == classes;
  }

  // ---------------------------------------------------------------- what VRAM takes

  function TotalBytes(items: seq<Item>): nat {
    if items == [] then 0 else items[0].bytes + TotalBytes(items[1..])
  }

  /** Bytes of one class that go to VRAM when `v` bytes of it are left. */
  function VramTake(item: Item, v: nat): nat {
    if item.whole then (if item.bytes <= v then item.bytes else 0) else Min(item.bytes, v)
  }

  /** Bytes of a list of classes that go to VRAM; remaining RAM plays no part. */
  function VramUsed(items: seq<Item>, v: nat): (used: nat)
    ensures used <= v
    ensures used <= TotalBytes(items)
    decreases |items|
  {
    if items == [] then 0
    else VramTake(items[0], v) + VramUsed(items[1..], v - VramTake(items[0], v))
  }

  /** Bytes that must find room in RAM. */
  function RamNeed(items: seq<Item>, v: nat): nat {
    TotalBytes(items) - VramUsed(items, v)
  }

  /** The greedy fills no less VRAM when there is more of it, whatever it splits or keeps whole. */
  lemma {:induction false} VramUsedIsMonotone(items: seq<Item>, v: nat, w: nat)
    requires v <= w
    ensures VramUsed(items, v) <= VramUsed(items, w)
    decreases |items|
  {
    if items != [] {
      var rest := items[1..];
      var takeV, takeW := VramTake(items[0], v), VramTake(items[0], w);
      if takeV == takeW {
        VramUsedIsMonotone(rest, v - takeV, w - takeW);
      } else {
        // Only the larger tier could hold this class (or more of it); what it put there
        // already exceeds everything the smaller tier can ever hold.
        assert VramUsed(items, v) <= v <= takeW;
      }
    }
  }

  // ---------------------------------------------------------------- one step, all steps

  lemma PlaceStep(a: Alloc, item: Item)
    ensures var b, take := Place(a, item), VramTake(item, a.vram);
            && b.vram == a.vram - take
            && (item.bytes - take <= a.ram ==> b.unplaced == a.unplaced && b.ram == a.ram - (item.bytes - take))
            && (item.bytes - take > a.ram ==> b.unplaced)
            && (a.unplaced ==> b.unplaced)
  {
  }

  lemma {:induction false} PlaceAllFeasible(a: Alloc, items: seq<Item>)
    ensures var b := PlaceAll(a, items);
            && b.vram == a.vram - VramUsed(items, a.vram)
            && (b.unplaced <==> a.unplaced || RamNeed(items, a.vram) > a.ram)
    decreases |items|
  {
    if items != [] {
      PlaceStep(a, items[0]);
      PlaceAllFeasible(Place(a, items[0]), items[1..]);
    }
  }

  /** What the allocation functions keep true of the counters and the entries together. */
  ghost predicate Consistent(a: Alloc, vram: u64, ram: u64) {
    && a.vram + a.vramAssigned == vram
    && a.ram + a.ramAssigned == ram
    && TierBytes(a.classes, Vram) == a.vramAssigned
    && TierBytes(a.classes, Ram) == a.ramAssigned
    && (forall e :: e in a.classes ==> e.tier != Nvme && e.kind != Cold && e.bytes > 0)
    && (a.unplaced <==> exists e :: e in a.classes && e.tier == Unplaced)
  }

  predicate MaySplit(kind: Kind) { kind == ModelWeights || kind == MoeExperts }

  /** Nothing left outside VRAM would still fit in what VRAM has left, and spilled weights exhaust it. */
  ghost predicate Tight(a: Alloc) {
    && (forall e :: e in a.classes && e.tier != Vram ==> e.bytes > a.vram)
    && (forall e :: e in a.classes && e.tier != Vram && MaySplit(e.kind) ==> a.vram == 0)
  }

  ghost predicate HotItem(item: Item) {
    item.kind != Cold && (item.whole <==> !MaySplit(item.kind))
  }

  lemma PutVramKeeps(a: Alloc, kind: Kind, n: u64, vram: u64, ram: u64)
    requires 0 < n <= a.vram && kind != Cold && Consistent(a, vram, ram)
    ensures Consistent(a.PutVram(kind, n), vram, ram)
    ensures Tight(a) ==> Tight(a.PutVram(kind, n))
  {
    var e := ClassPlacement(kind, Vram, n);
    TierSnoc(a.classes, e, Vram);
    TierSnoc(a.classes, e, Ram);
    assert forall x :: x in a.classes + [e] <==> x in a.classes || x == e;
  }

  lemma PutRamKeeps(a: Alloc, kind: Kind, n: u64, vram: u64, ram: u64)
    requires 0 < n <= a.ram && kind != Cold && Consistent(a, vram, ram)
    ensures Consistent(a.PutRam(kind, n), vram, ram)
    ensures Tight(a) && n > a.vram && (MaySplit(kind) ==> a.vram == 0) ==> Tight(a.PutRam(kind, n))
  {
    var e := ClassPlacement(kind, Ram, n);
    TierSnoc(a.classes, e, Vram);
    TierSnoc(a.classes, e, Ram);
    assert forall x :: x in a.classes + [e] <==> x in a.classes || x == e;
  }

  lemma GiveUpKeeps(a: Alloc, kind: Kind, n: u64, vram: u64, ram: u64)
    requires 0 < n && kind != Cold && Consistent(a, vram, ram)
    ensures Consistent(a.GiveUp(kind, n), vram, ram)
    ensures Tight(a) && n > a.vram && (MaySplit(kind) ==> a.vram == 0) ==> Tight(a.GiveUp(kind, n))
  {
    var e := ClassPlacement(kind, Unplaced, n);
    TierSnoc(a.classes, e, Vram);
    TierSnoc(a.classes, e, Ram);
    assert e in a.classes + [e];
    assert forall x :: x in a.classes + [e] <==> x in a.classes || x == e;
  }

  lemma PlaceWholeKeeps(a: Alloc, kind: Kind, bytes: u64, vram: u64, ram: u64)
    requires Consistent(a, vram, ram) && Tight(a) && kind != Cold && !MaySplit(kind)
    ensures Consistent(PlaceWhole(a, kind, bytes), vram, ram) && Tight(PlaceWhole(a, kind, bytes))
  {
    if bytes == 0 {
    } else if bytes <= a.vram {
      PutVramKeeps(a, kind, bytes, vram, ram);
    } else if bytes <= a.ram {
      PutRamKeeps(a, kind, bytes, vram, ram);
    } else {
      GiveUpKeeps(a, kind, bytes, vram, ram);
    }
  }

  lemma SplitVramKeeps(a: Alloc, kind: Kind, bytes: u64, vram: u64, ram: u64)
    requires Consistent(a, vram, ram) && Tight(a) && kind != Cold
    ensures var b := SplitVram(a, kind, bytes);
            Consistent(b, vram, ram) && Tight(b) && (bytes > a.vram ==> b.vram == 0)
  {
    if Min(bytes, a.vram) > 0 { PutVramKeeps(a, kind, Min(bytes, a.vram), vram, ram); }
  }

  lemma SplitRamKeeps(a: Alloc, kind: Kind, rest: u64, vram: u64, ram: u64)
    requires Consistent(a, vram, ram) && Tight(a) && kind != Cold && (rest > 0 ==> a.vram == 0)
    ensures var b := SplitRam(a, kind, rest);
            Consistent(b, vram, ram) && Tight(b) && b.vram == a.vram
  {
    if Min(rest, a.ram) > 0 { PutRamKeeps(a, kind, Min(rest, a.ram), vram, ram); }
  }

  lemma SplitRestKeeps(a: Alloc, kind: Kind, rest: u64, vram: u64, ram: u64)
    requires Consistent(a, vram, ram) && Tight(a) && kind != Cold && (rest > 0 ==> a.vram == 0)
    ensures Consistent(SplitRest(a, kind, rest), vram, ram) && Tight(SplitRest(a, kind, rest))
  {
    if rest > 0 { GiveUpKeeps(a, kind, rest, vram, ram); }
  }

  lemma SplitBelowKeeps(a: Alloc, kind: Kind, rest: u64, vram: u64, ram: u64)
    requires Consistent(a, vram, ram) && Tight(a) && kind != Cold && (rest > 0 ==> a.vram == 0)
    ensures Consistent(SplitBelow(a, kind, rest), vram, ram) && Tight(SplitBelow(a, kind, rest))
  {
    SplitRamKeeps(a, kind, rest, vram, ram);
    SplitRestKeeps(SplitRam(a, kind, rest), kind, rest - Min(rest, a.ram), vram, ram);
  }

  lemma PlaceSplitKeeps(a: Alloc, kind: Kind, bytes: u64, vram: u64, ram: u64)
    requires Consistent(a, vram, ram) && Tight(a) && kind != Cold
    ensures Consistent(PlaceSplit(a, kind, bytes), vram, ram) && Tight(PlaceSplit(a, kind, bytes))
  {
    SplitVramKeeps(a, kind, bytes, vram, ram);
    SplitBelowKeeps(SplitVram(a, kind, bytes), kind, bytes - Min(bytes, a.vram), vram, ram);
  }

  lemma PlaceWholeConserves(a: Alloc, of: Kind, bytes: u64, kind: Kind)
    ensures ClassBytes(PlaceWhole(a, of, bytes).classes, kind) == ClassBytes(a.classes, kind) + Share(of, kind, bytes)
  {
    ClassSnoc(a.classes, ClassPlacement(of, Vram, bytes), kind);
    ClassSnoc(a.classes, ClassPlacement(of, Ram, bytes), kind);
    ClassSnoc(a.classes, ClassPlacement(of, Unplaced, bytes), kind);
  }

  lemma SplitVramConserves(a: Alloc, of: Kind, n: u64, kind: Kind)
    ensures ClassBytes(SplitVram(a, of, n).classes, kind)
            == ClassBytes(a.classes, kind) + Share(of, kind, Min(n, a.vram))
  {
    ClassSnoc(a.classes, ClassPlacement(of, Vram, Min(n, a.vram)), kind);
  }

  lemma SplitRamConserves(a: Alloc, of: Kind, n: u64, kind: Kind)
    ensures ClassBytes(SplitRam(a, of, n).classes, kind) == ClassBytes(a.classes, kind) + Share(of, kind, Min(n, a.ram))
  {
    ClassSnoc(a.classes, ClassPlacement(of, Ram, Min(n, a.ram)), kind);
  }

  lemma SplitRestConserves(a: Alloc, of: Kind, n: u64, kind: Kind)
    ensures ClassBytes(SplitRest(a, of, n).classes, kind) == ClassBytes(a.classes, kind) + Share(of, kind, n)
  {
    ClassSnoc(a.classes, ClassPlacement(of, Unplaced, n), kind);
  }

  lemma SplitBelowConserves(a: Alloc, of: Kind, rest: u64, kind: Kind)
    ensures ClassBytes(SplitBelow(a, of, rest).classes, kind) == ClassBytes(a.classes, kind) + Share(of, kind, rest)
  {
    SplitRamConserves(a, of, rest, kind);
    SplitRestConserves(SplitRam(a, of, rest), of, rest - Min(rest, a.ram), kind);
  }

  lemma PlaceSplitConserves(a: Alloc, of: Kind, bytes: u64, kind: Kind)
    ensures ClassBytes(PlaceSplit(a, of, bytes).classes, kind) == ClassBytes(a.classes, kind) + Share(of, kind, bytes)
  {
    SplitVramConserves(a, of, bytes, kind);
    SplitBelowConserves(SplitVram(a, of, bytes), of, bytes - Min(bytes, a.vram), kind);
  }

  function ItemBytes(items: seq<Item>, kind: Kind): nat {
    if items == [] then 0
    else Share(items[0].kind, kind, items[0].bytes) + ItemBytes(items[1..], kind)
  }

  lemma {:induction false} PlaceAllKeeps(a: Alloc, items: seq<Item>, vram: u64, ram: u64, kind: Kind)
    requires Consistent(a, vram, ram) && Tight(a)
    requires forall i :: 0 <= i < |items| ==> HotItem(items[i])
    ensures var b := PlaceAll(a, items);
            && Consistent(b, vram, ram) && Tight(b)
            && ClassBytes(b.classes, kind) == ClassBytes(a.classes, kind) + ItemBytes(items, kind)
    decreases |items|
  {
    if items != [] {
      if items[0].whole {
        PlaceWholeKeeps(a, items[0].kind, items[0].bytes, vram, ram);
        PlaceWholeConserves(a, items[0].kind, items[0].bytes, kind);
      } else {
        PlaceSplitKeeps(a, items[0].kind, items[0].bytes, vram, ram);
        PlaceSplitConserves(a, items[0].kind, items[0].bytes, kind);
      }
      PlaceAllKeeps(Place(a, items[0]), items[1..], vram, ram, kind);
    }
  }

  /** Peels one class off the front of a tail of `items`. */
  lemma ItemsFrom(items: seq<Item>, i: nat, kind: Kind, v: nat)
    requires i < |items|
    ensures TotalBytes(items[i..]) == items[i].bytes + TotalBytes(items[i + 1..])
    ensures ItemBytes(items[i..], kind) == Share(items[i].kind, kind, items[i].bytes) + ItemBytes(items[i + 1..], kind)
    ensures var take := VramTake(items[i], v); VramUsed(items[i..], v) == take + VramUsed(items[i + 1..], v - take)
  {
    assert items[i..][1..] == items[i + 1..];
  }

  lemma SixItems(items: seq<Item>, kind: Kind)
    requires |items| == 6
    ensures TotalBytes(items)
            == items[0].bytes + items[1].bytes + items[2].bytes + items[3].bytes + items[4].bytes + items[5].bytes
    ensures ItemBytes(items, kind)
            == Share(items[0].kind, kind, items[0].bytes) + Share(items[1].kind, kind, items[1].bytes)
               + Share(items[2].kind, kind, items[2].bytes) + Share(items[3].kind, kind, items[3].bytes)
               + Share(items[4].kind, kind, items[4].bytes) + Share(items[5].kind, kind, items[5].bytes)
  {
    assert items[0..] == items && items[6..] == [];
    ItemsFrom(items, 0, kind, 0);
    ItemsFrom(items, 1, kind, 0);
    ItemsFrom(items, 2, kind, 0);
    ItemsFrom(items, 3, kind, 0);
    ItemsFrom(items, 4, kind, 0);
    ItemsFrom(items, 5, kind, 0);
  }

  /** The six classes of the hybrid branch, added up. */
  lemma HybridItemsAddUp(req: Request, kind: Kind)
    ensures TotalBytes(HybridItems(req)) == HotTotal(req)
    ensures ItemBytes(HybridItems(req), kind) == if kind == Cold then 0 else Requested(req, kind)
    ensures forall i :: 0 <= i < 6 ==> HotItem(HybridItems(req)[i])
  {
    SixItems(HybridItems(req), kind);
  }

  /** Everything the hybrid branch leaves behind. */
  lemma GreedyOutcome(host: Host, req: Request, kind: Kind)
    ensures var m := Measured(host, req);
            var a, usable, vram := Greedy(m, req), m.ram.availableBytes, m.vram.availableBytes;
            && Consistent(a, vram, usable) && Tight(a)
            && ClassBytes(a.classes, kind) == (if kind == Cold then 0 else Requested(req, kind))
            && a.vram == vram - VramUsed(HybridItems(req), vram)
            && (a.unplaced <==> HotTotal(req) - VramUsed(HybridItems(req), vram) > usable)
  {
    var m := Measured(host, req);
    var start := Alloc(m.vram.availableBytes, m.ram.availableBytes, false, 0, 0, []);
    HybridItemsAddUp(req, kind);
    PlaceAllKeeps(start, HybridItems(req), start.vram, start.ram, kind);
    PlaceAllFeasible(start, HybridItems(req));
  }

  // ---------------------------------------------------------------- the branches without VRAM

  lemma {:induction false} NonEmptyMembers(es: seq<ClassPlacement>)
    ensures forall e :: e in NonEmpty(es) <==> e in es && e.bytes > 0
  {
    if es != [] {
      var init, last := es[..|es| - 1], es[|es| - 1];
      NonEmptyMembers(init);
      assert es == init + [last];
    }
  }

  lemma {:induction false} NonEmptyKeepsClass(es: seq<ClassPlacement>, kind: Kind)
    ensures ClassBytes(NonEmpty(es), kind) == ClassBytes(es, kind)
  {
    if es != [] {
      var init, last := es[..|es| - 1], es[|es| - 1];
      NonEmptyKeepsClass(init, kind);
      ClassSnoc(NonEmpty(init), last, kind);
    }
  }

  lemma {:induction false} NonEmptyKeepsTier(es: seq<ClassPlacement>, tier: Tier)
    ensures TierBytes(NonEmpty(es), tier) == TierBytes(es, tier)
  {
    if es != [] {
      var init, last := es[..|es| - 1], es[|es| - 1];
      NonEmptyKeepsTier(init, tier);
      TierSnoc(NonEmpty(init), last, tier);
    }
  }

  /** Peels one entry off the back of a prefix of `es`. */
  lemma ClassUpTo(es: seq<ClassPlacement>, i: nat, kind: Kind)
    requires i < |es|
    ensures ClassBytes(es[..i + 1], kind) == ClassBytes(es[..i], kind) + Share(es[i].kind, kind, es[i].bytes)
  {
    assert es[..i + 1][..i] == es[..i];
  }

  lemma TierUpTo(es: seq<ClassPlacement>, i: nat, tier: Tier)
    requires i < |es|
    ensures TierBytes(es[..i + 1], tier) == TierBytes(es[..i], tier) + if es[i].tier == tier then es[i].bytes else 0
  {
    assert es[..i + 1][..i] == es[..i];
  }

  lemma WordsUpTo(es: seq<ClassPlacement>, i: nat)
    requires i < |es|
    ensures WordSum(0, es[..i + 1]) == Add64(WordSum(0, es[..i]), es[i].bytes)
  {
    assert es[..i + 1][..i] == es[..i];
  }

  lemma SixWords(es: seq<ClassPlacement>)
    requires |es| == 6
    ensures var four := Add64(Add64(Add64(es[0].bytes, es[1].bytes), es[2].bytes), es[3].bytes);
            WordSum(0, es) == Add64(Add64(four, es[4].bytes), es[5].bytes)
  {
    assert es[..6] == es && es[..0] == [];
    WordsUpTo(es, 0);
    WordsUpTo(es, 1);
    WordsUpTo(es, 2);
    WordsUpTo(es, 3);
    WordsUpTo(es, 4);
    WordsUpTo(es, 5);
  }

  lemma SixOfATier(es: seq<ClassPlacement>, tier: Tier)
    requires |es| == 6
    requires forall i :: 0 <= i < 6 ==> es[i].tier == es[0].tier
    ensures TierBytes(es, tier)
            == if tier != es[0].tier then 0
               else es[0].bytes + es[1].bytes + es[2].bytes + es[3].bytes + es[4].bytes + es[5].bytes
  {
    assert es[..6] == es && es[..0] == [];
    TierUpTo(es, 0, tier);
    TierUpTo(es, 1, tier);
    TierUpTo(es, 2, tier);
    TierUpTo(es, 3, tier);
    TierUpTo(es, 4, tier);
    TierUpTo(es, 5, tier);
  }

  lemma SixOfAClass(es: seq<ClassPlacement>, kind: Kind)
    requires |es| == 6
    ensures ClassBytes(es, kind) == Share(es[0].kind, kind, es[0].bytes) + Share(es[1].kind, kind, es[1].bytes)
                                    + Share(es[2].kind, kind, es[2].bytes) + Share(es[3].kind, kind, es[3].bytes)
                                    + Share(es[4].kind, kind, es[4].bytes) + Share(es[5].kind, kind, es[5].bytes)
  {
    assert es[..6] == es && es[..0] == [];
    ClassUpTo(es, 0, kind);
    ClassUpTo(es, 1, kind);
    ClassUpTo(es, 2, kind);
    ClassUpTo(es, 3, kind);
    ClassUpTo(es, 4, kind);
    ClassUpTo(es, 5, kind);
  }

  /** The six entries of `HotEntries`, without the empty ones. */
  lemma HotEntriesAddUp(req: Request, tier: Tier, kind: Kind, t: Tier)
    ensures ClassBytes(NonEmpty(HotEntries(req, tier)), kind) == if kind == Cold then 0 else Requested(req, kind)
    ensures TierBytes(NonEmpty(HotEntries(req, tier)), t) == if t == tier then HotTotal(req) else 0
  {
    var es := HotEntries(req, tier);
    NonEmptyKeepsClass(es, kind);
    NonEmptyKeepsTier(es, t);
    SixOfAClass(es, kind);
    SixOfATier(es, t);
  }

  lemma HotEntriesMembers(req: Request, tier: Tier)
    ensures forall e :: e in NonEmpty(HotEntries(req, tier)) ==> e.tier == tier && e.kind != Cold && e.bytes > 0
    ensures req.model > 0 ==> ClassPlacement(ModelWeights, tier, req.model) in NonEmpty(HotEntries(req, tier))
  {
    var es := HotEntries(req, tier);
    assert es[0] in es;
    NonEmptyMembers(es);
  }

  /** How often an addition wraps. */
  function Carry(w: u64, y: u64): (q: nat)
    ensures w + y == Add64(w, y) + q * TWO_TO_THE_64
  {
    if w + y < TWO_TO_THE_64 then 0 else 1
  }

  lemma ReducedBy(x: nat, w: u64, q: nat)
    requires x == w + q * TWO_TO_THE_64
    ensures w == x % TWO_TO_THE_64
  {
  }

  lemma SixWordsReduce(a: u64, b: u64, c: u64, d: u64, e: u64, f: u64)
    ensures Add64(Add64(Add64(Add64(Add64(a, b), c), d), e), f) == (a + b + c + d + e + f) % TWO_TO_THE_64
  {
    var ab := Add64(a, b);
    var abc := Add64(ab, c);
    var abcd := Add64(abc, d);
    var abcde := Add64(abcd, e);
    var carries := Carry(a, b) + Carry(ab, c) + Carry(abc, d) + Carry(abcd, e) + Carry(abcde, f);
    ReducedBy(a + b + c + d + e + f, Add64(abcde, f), carries);
  }

  /** The planner's hot sum is the true sum reduced to 64 bits, and so is what it books on RAM. */
  lemma HotWordIsReduced(req: Request)
    ensures HotWord(req) == HotTotal(req) % TWO_TO_THE_64
    ensures WordSum(0, HotEntries(req, Ram)) == HotWord(req)
  {
    SixWordsReduce(req.model, req.experts, req.kvCache, req.prefixCache, req.projector, req.workspace);
    SixWords(HotEntries(req, Ram));
  }

  // ---------------------------------------------------------------- the plan

  /** The entry, if any, that the cold bytes add. */
  function ColdPart(req: Request): seq<ClassPlacement> {
    if req.cold == 0 then []
    else [ClassPlacement(Cold, if req.allowNvme && req.cold <= req.nvmeBudget then Nvme else Unplaced, req.cold)]
  }

  lemma ColdPartSums(classes: seq<ClassPlacement>, req: Request, kind: Kind, tier: Tier)
    ensures ClassBytes(classes + ColdPart(req), kind)
            == ClassBytes(classes, kind) + if kind == Cold then req.cold else 0
    ensures tier == Vram || tier == Ram ==> TierBytes(classes + ColdPart(req), tier) == TierBytes(classes, tier)
    ensures TierBytes(classes + ColdPart(req), Nvme)
            == TierBytes(classes, Nvme) + if req.allowNvme && req.cold <= req.nvmeBudget then req.cold else 0
  {
    if req.cold == 0 {
      assert classes + [] == classes;
    } else {
      var e := ColdPart(req)[0];
      ClassSnoc(classes, e, kind);
      TierSnoc(classes, e, tier);
      TierSnoc(classes, e, Nvme);
    }
  }

  lemma ColdAdds(p: PlanValue, req: Request)
    ensures AssignCold(p, req).classes == p.classes + ColdPart(req)
    ensures forall e :: e in AssignCold(p, req).classes <==> e in p.classes || e in ColdPart(req)
  {
  }

  /** VRAM and RAM are booked as their entries add up, and not beyond their capacity. */
  ghost predicate HotTiersAddUp(p: PlanValue, req: Request) {
    && p.vram.assignedBytes == TierBytes(p.classes, Vram) <= p.vram.availableBytes
    && p.ram.assignedBytes <= p.ram.availableBytes
    && (p.decision == CpuOnly ==> p.ram.assignedBytes == HotWord(req) && TierBytes(p.classes, Ram) == HotTotal(req))
    && (p.decision != CpuOnly ==> p.ram.assignedBytes == TierBytes(p.classes, Ram))
  }

  /** The sums of a plan before its cold entry. */
  ghost predicate HotAddsUp(p: PlanValue, req: Request, kind: Kind) {
    && ClassBytes(p.classes, kind) == (if kind == Cold then 0 else Requested(req, kind))
    && TierBytes(p.classes, Nvme) == 0
    && p.nvme == TierAllocation(if req.allowNvme then req.nvmeBudget else 0, 0)
    && HotTiersAddUp(p, req)
  }

  /** All the sums of a plan at once; the theorems below read parts of it. */
  ghost predicate PlanAddsUp(p: PlanValue, req: Request, kind: Kind) {
    && ClassBytes(p.classes, kind) == Requested(req, kind)
    && p.nvme.assignedBytes == TierBytes(p.classes, Nvme) <= p.nvme.availableBytes
    && HotTiersAddUp(p, req)
  }

  lemma ColdBooks(p: PlanValue, req: Request)
    requires p.nvme.assignedBytes == 0
    ensures var q := AssignCold(p, req);
            && q.vram == p.vram && q.ram == p.ram && q.decision == p.decision
            && q.nvme == p.nvme.(assignedBytes := if req.allowNvme && req.cold <= req.nvmeBudget then req.cold else 0)
  {
  }

  lemma ColdSums(p: PlanValue, req: Request, kind: Kind)
    ensures var q := AssignCold(p, req);
            && ClassBytes(q.classes, kind) == ClassBytes(p.classes, kind) + (if kind == Cold then req.cold else 0)
            && TierBytes(q.classes, Vram) == TierBytes(p.classes, Vram)
            && TierBytes(q.classes, Ram) == TierBytes(p.classes, Ram)
            && TierBytes(q.classes, Nvme)
               == TierBytes(p.classes, Nvme) + if req.allowNvme && req.cold <= req.nvmeBudget then req.cold else 0
  {
    ColdAdds(p, req);
    ColdPartSums(p.classes, req, kind, Vram);
    ColdPartSums(p.classes, req, kind, Ram);
  }

  lemma SumsAgree(p: PlanValue, q: PlanValue, req: Request, kind: Kind)
    requires HotAddsUp(p, req, kind)
    requires q.vram == p.vram && q.ram == p.ram && q.decision == p.decision
    requires TierBytes(q.classes, Vram) == TierBytes(p.classes, Vram)
    requires TierBytes(q.classes, Ram) == TierBytes(p.classes, Ram)
    requires ClassBytes(q.classes, kind) == ClassBytes(p.classes, kind) + (if kind == Cold then req.cold else 0)
    requires TierBytes(q.classes, Nvme) == q.nvme.assignedBytes <= q.nvme.availableBytes
    ensures PlanAddsUp(q, req, kind)
  {
  }

  lemma ColdKeepsSums(p: PlanValue, req: Request, kind: Kind)
    requires HotAddsUp(p, req, kind)
    ensures PlanAddsUp(AssignCold(p, req), req, kind)
  {
    ColdSums(p, req, kind);
    ColdBooks(p, req);
    SumsAgree(p, AssignCold(p, req), req, kind);
  }

  lemma CpuHotAddsUp(host: Host, req: Request, kind: Kind)
    requires FitsCpu(Measured(host, req), req)
    ensures HotAddsUp(CpuHot(Measured(host, req), req), req, kind)
  {
    HotWordIsReduced(req);
    HotEntriesAddUp(req, Ram, kind, Nvme);
    HotEntriesAddUp(req, Ram, kind, Vram);
    HotEntriesAddUp(req, Ram, kind, Ram);
  }

  lemma HybridHotAddsUp(m: PlanValue, a: Alloc, req: Request, kind: Kind)
    requires Consistent(a, m.vram.availableBytes, m.ram.availableBytes)
    requires ClassBytes(a.classes, kind) == if kind == Cold then 0 else Requested(req, kind)
    requires m.nvme == TierAllocation(if req.allowNvme then req.nvmeBudget else 0, 0)
    ensures HotAddsUp(HybridHot(m, a, req), req, kind)
  {
    NoNvmeBytes(a.classes);
  }

  lemma ExceededHotAddsUp(host: Host, req: Request, kind: Kind)
    ensures HotAddsUp(ExceededHot(Measured(host, req), req), req, kind)
  {
    HotEntriesAddUp(req, Unplaced, kind, Nvme);
    HotEntriesAddUp(req, Unplaced, kind, Vram);
    HotEntriesAddUp(req, Unplaced, kind, Ram);
  }

  lemma PlanFacts(host: Host, bandwidth: Option<string>, req: Request, kind: Kind)
    ensures PlanAddsUp(BuildPlan(host, bandwidth, req), req, kind)
  {
    var m := Measured(host, req);
    if FitsCpu(m, req) {
      CpuHotAddsUp(host, req, kind);
      ColdKeepsSums(CpuHot(m, req), req, kind);
    } else if MayAccelerate(m, req) {
      GreedyOutcome(host, req, kind);
      HybridHotAddsUp(m, Greedy(m, req), req, kind);
      ColdKeepsSums(HybridHot(m, Greedy(m, req), req), req, kind);
    } else {
      ExceededHotAddsUp(host, req, kind);
      ColdKeepsSums(ExceededHot(m, req), req, kind);
    }
  }

  /** In every branch, the entries of each class add up to the bytes requested for it. */
  lemma EveryClassIsConserved(host: Host, bandwidth: Option<string>, req: Request, kind: Kind)
    ensures ClassBytes(BuildPlan(host, bandwidth, req).classes, kind) == Requested(req, kind)
  {
    PlanFacts(host, bandwidth, req, kind);
  }

  lemma {:induction false} NoNvmeBytes(classes: seq<ClassPlacement>)
    requires forall e :: e in classes ==> e.tier != Nvme
    ensures TierBytes(classes, Nvme) == 0
  {
    if classes != [] {
      assert classes[|classes| - 1] in classes;
      NoNvmeBytes(classes[..|classes| - 1]);
    }
  }

  /** No tier is booked beyond its capacity. Each booking is the sum of the tier's entries, except that
      a cpu_only plan whose hot sum does not fit in 64 bits books its reduction. */
  lemma TiersAreAccounted(host: Host, bandwidth: Option<string>, req: Request)
    ensures var p := BuildPlan(host, bandwidth, req);
            && p.vram.assignedBytes == TierBytes(p.classes, Vram) <= p.vram.availableBytes
            && p.nvme.assignedBytes == TierBytes(p.classes, Nvme) <= p.nvme.availableBytes
            && p.ram.assignedBytes <= p.ram.availableBytes
            && (p.ram.assignedBytes == TierBytes(p.classes, Ram)
                <==> !(HotWord(req) <= UsableRam(host, req) && HotTotal(req) >= TWO_TO_THE_64))
  {
    PlanFacts(host, bandwidth, req, KvCache);
    HotWordIsReduced(req);
  }

  ghost predicate HotSafe(p: PlanValue) {
    && (forall e :: e in p.classes && e.tier == Nvme ==> e.kind == Cold)
    && (p.decision == CapacityExceeded <==> exists e :: e in p.classes && e.kind != Cold && e.tier == Unplaced)
  }

  lemma ColdKeepsHotSafe(p: PlanValue, req: Request)
    requires HotSafe(p)
    ensures HotSafe(AssignCold(p, req))
  {
    ColdAdds(p, req);
  }

  /** Hot state is never on disk, and the decision is capacity_exceeded exactly when some of it has no tier. */
  lemma HotStateIsNeverOnDisk(host: Host, bandwidth: Option<string>, req: Request)
    requires ValidateRequest(req) == None
    ensures var p := BuildPlan(host, bandwidth, req);
            && (forall e :: e in p.classes && e.tier == Nvme ==> e.kind == Cold)
            && (p.decision == CapacityExceeded <==> exists e :: e in p.classes && e.kind != Cold && e.tier == Unplaced)
  {
    var m := Measured(host, req);
    if FitsCpu(m, req) {
      HotEntriesMembers(req, Ram);
      ColdKeepsHotSafe(CpuHot(m, req), req);
    } else if MayAccelerate(m, req) {
      GreedyOutcome(host, req, Cold);
      ColdKeepsHotSafe(HybridHot(m, Greedy(m, req), req), req);
    } else {
      HotEntriesMembers(req, Unplaced);
      ColdKeepsHotSafe(ExceededHot(m, req), req);
    }
    assert HotSafe(BuildPlan(host, bandwidth, req));
  }

  // ---------------------------------------------------------------- feasibility

  /** The plan is feasible iff the hot words fit in RAM, or, with acceleration, what the greedy cannot
      put in VRAM does. */
  lemma FeasibleExactly(host: Host, bandwidth: Option<string>, req: Request)
    ensures var usable, vram := UsableRam(host, req), BestVram(host.accelerators);
            BuildPlan(host, bandwidth, req).decision != CapacityExceeded
            <==> HotWord(req) <= usable
                 || (req.allowAcceleration && vram > 0 && HotTotal(req) - VramUsed(HybridItems(req), vram) <= usable)
  {
    GreedyOutcome(host, req, Cold);
  }

  /** More memory never hurts: with at least as much usable RAM and at least as large a best VRAM,
      a feasible request stays feasible. No bound on the hot sum is needed. */
  lemma MoreMemoryNeverHurts(small: Host, large: Host, before: Option<string>, after: Option<string>, req: Request)
    requires UsableRam(small, req) <= UsableRam(large, req)
    requires BestVram(small.accelerators) <= BestVram(large.accelerators)
    requires BuildPlan(small, before, req).decision != CapacityExceeded
    ensures BuildPlan(large, after, req).decision != CapacityExceeded
  {
    FeasibleExactly(small, before, req);
    FeasibleExactly(large, after, req);
    VramUsedIsMonotone(HybridItems(req), BestVram(small.accelerators), BestVram(large.accelerators));
  }

  /** Usable RAM is not monotone in what the host reports: the default reserve grows with the total,
      so a larger machine with the same available bytes can lose a plan, and so can a report of
      available bytes that replaces an unknown one. */
  lemma MoreReportedRamCanHurt() returns (req: Request, small: Host, large: Host, unknown: Host)
    ensures ValidateRequest(req) == None
    ensures small.totalRam < large.totalRam && small.availableRam == large.availableRam
    ensures BuildPlan(small, None, req).decision == CpuOnly && BuildPlan(large, None, req).decision == CapacityExceeded
    ensures unknown.totalRam == small.totalRam && unknown.availableRam < large.availableRam
    ensures BuildPlan(unknown, None, req).decision == CpuOnly
  {
    req := Request(TWO_GIB, 0, 0, 0, 0, 0, 0, false, false, 0, 0);
    small, large := Host(5 * TWO_GIB, 4 * TWO_GIB, []), Host(20 * TWO_GIB, 4 * TWO_GIB, []);
    unknown := Host(5 * TWO_GIB, 0, []);
    FeasibleExactly(large, None, req);
  }

  predicate Feasible(host: Host, bandwidth: Option<string>, req: Request) {
    BuildPlan(host, bandwidth, req).decision != CapacityExceeded
  }

  /** A request that needs `n` bytes of RAM and nothing else. */
  function RamRequest(n: u64, reserve: u64): Request {
    Request(n, 0, 0, 0, 0, 0, 0, false, false, 0, reserve)
  }

  lemma RamRequestFeasible(host: Host, bandwidth: Option<string>, n: u64, reserve: u64)
    ensures Feasible(host, bandwidth, RamRequest(n, reserve)) <==> n <= UsableWith(host, reserve)
  {
    FeasibleExactly(host, bandwidth, RamRequest(n, reserve));
    assert HotWord(RamRequest(n, reserve)) == n;
  }

  /** When a change of what the host reports can cost a plan: with no less VRAM, every valid request of a
      given reserve that was feasible stays feasible if and only if the usable RAM did not shrink. */
  lemma ReportedMemoryIsSafeExactly(small: Host, large: Host, before: Option<string>, after: Option<string>,
                                    reserve: u64)
    requires BestVram(small.accelerators) <= BestVram(large.accelerators)
    ensures (forall req: Request | req.reserveRam == reserve && ValidateRequest(req) == None ::
               Feasible(small, before, req) ==> Feasible(large, after, req))
            <==> UsableWith(small, reserve) <= UsableWith(large, reserve)
  {
    if UsableWith(small, reserve) <= UsableWith(large, reserve) {
      forall req: Request | req.reserveRam == reserve && Feasible(small, before, req)
        ensures Feasible(large, after, req)
      {
        MoreMemoryNeverHurts(small, large, before, after, req);
      }
    } else {
      var n := UsableWith(small, reserve);
      RamRequestFeasible(small, before, n, reserve);
      RamRequestFeasible(large, after, n, reserve);
      assert ValidateRequest(RamRequest(n, reserve)) == None;
    }
  }

  /** With an operator-chosen reserve and known available bytes, more available bytes never hurt,
      whatever totals the hosts report. */
  lemma ExplicitReserveIsMonotone(small: Host, large: Host, before: Option<string>, after: Option<string>, req: Request)
    requires req.reserveRam != 0 && 0 < small.availableRam <= large.availableRam
    requires BestVram(small.accelerators) <= BestVram(large.accelerators)
    requires BuildPlan(small, before, req).decision != CapacityExceeded
    ensures BuildPlan(large, after, req).decision != CapacityExceeded
  {
    MoreMemoryNeverHurts(small, large, before, after, req);
  }

  /** A cpu_only plan holds its hot set in usable RAM exactly when the hot sum fits in 64 bits. */
  lemma CpuOnlyIsSoundWithoutWrap(host: Host, bandwidth: Option<string>, req: Request)
    requires BuildPlan(host, bandwidth, req).decision == CpuOnly
    ensures HotTotal(req) <= UsableRam(host, req) <==> HotTotal(req) < TWO_TO_THE_64
  {
    PlanFacts(host, bandwidth, req, KvCache);
    HotWordIsReduced(req);
  }

  /** The wrapped sum at work: a host with no memory at all is offered a cpu_only plan. */
  lemma WrappedSumIsAccepted() returns (host: Host, req: Request)
    ensures ValidateRequest(req) == None && UsableRam(host, req) == 0 && HotTotal(req) > 0
    ensures BuildPlan(host, None, req).decision == CpuOnly
  {
    host := Host(0, 0, []);
    req := Request(TWO_TO_THE_64 - 1, 1, 0, 0, 0, 0, 0, false, false, 0, 0);
  }

  /** In a hybrid plan, VRAM left over is smaller than every hot entry outside VRAM; and when some
      weight byte is outside VRAM, none is left over and feasibility is a comparison of totals. */
  lemma LeftoverVramIsTooSmall(host: Host, bandwidth: Option<string>, req: Request)
    requires var m := Measured(host, req); !FitsCpu(m, req) && MayAccelerate(m, req)
    ensures var p := BuildPlan(host, bandwidth, req);
            var left := p.vram.availableBytes - p.vram.assignedBytes;
            && (forall e :: e in p.classes && e.kind != Cold && e.tier != Vram ==> left < e.bytes)
            && (forall e :: e in p.classes && e.tier != Vram && MaySplit(e.kind) ==>
                  && left == 0
                  && (p.decision != CapacityExceeded
                      <==> HotTotal(req) <= UsableRam(host, req) + BestVram(host.accelerators)))
  {
    var m := Measured(host, req);
    var a := Greedy(m, req);
    GreedyOutcome(host, req, Cold);
    var p := BuildPlan(host, bandwidth, req);
    assert p == HybridPlan(m, req);
    assert forall e :: e in p.classes && e.kind != Cold ==> e in a.classes;
  }

  // ---------------------------------------------------------------- priorities and requirements

  lemma {:induction false} PlaceInTwoParts(a: Alloc, first: seq<Item>, second: seq<Item>)
    ensures PlaceAll(a, first + second) == PlaceAll(PlaceAll(a, first), second)
    decreases |first|
  {
    if first == [] {
      assert first + second == second;
    } else {
      assert (first + second)[1..] == first[1..] + second;
      PlaceInTwoParts(Place(a, first[0]), first[1..], second);
    }
  }

  /** Every entry an allocation adds is of a class it was offered, and without VRAM left none is in VRAM. */
  lemma {:induction false} AddedEntries(a: Alloc, items: seq<Item>, e: ClassPlacement)
    requires e in PlaceAll(a, items).classes && e !in a.classes
    ensures exists i :: 0 <= i < |items| && items[i].kind == e.kind
    ensures a.vram == 0 ==> e.tier != Vram
    decreases |items|
  {
    if items != [] {
      var b := Place(a, items[0]);
      if e in b.classes {
        assert items[0].kind == e.kind;
      } else {
        AddedEntries(b, items[1..], e);
        var i :| 0 <= i < |items[1..]| && items[1..][i].kind == e.kind;
        assert items[i + 1].kind == e.kind;
      }
    }
  }

  /** When an entry of a class offered first is outside VRAM and may be split, nothing offered after is in VRAM. */
  lemma SpillStarves(start: Alloc, first: seq<Item>, second: seq<Item>, spilled: ClassPlacement, later: ClassPlacement)
    requires start.classes == [] && Consistent(start, start.vram, start.ram)
    requires forall i :: 0 <= i < |first| ==> HotItem(first[i]) && first[i].kind != later.kind
    requires forall i :: 0 <= i < |second| ==> second[i].kind != spilled.kind
    requires MaySplit(spilled.kind) && spilled.tier != Vram
    requires spilled in PlaceAll(start, first + second).classes && later in PlaceAll(start, first + second).classes
    ensures later.tier != Vram
  {
    PlaceInTwoParts(start, first, second);
    PlaceAllKeeps(start, first, start.vram, start.ram, Cold);
    var b := PlaceAll(start, first);
    if spilled !in b.classes {
      AddedEntries(b, second, spilled);
    }
    if later in b.classes {
      AddedEntries(start, first, later);
    } else {
      AddedEntries(b, second, later);
    }
  }

  lemma SpillInTheGreedy(m: PlanValue, req: Request, spilled: ClassPlacement, later: ClassPlacement)
    requires spilled in Greedy(m, req).classes && later in Greedy(m, req).classes
    requires spilled.kind == ModelWeights && spilled.tier != Vram
    requires later.kind == MoeExperts || later.kind == PrefixCache || later.kind == Workspace
    ensures later.tier != Vram
  {
    var items := HybridItems(req);
    var first, second := items[..3], items[3..];
    assert items == first + second;
    assert forall i :: 0 <= i < 3 ==> HotItem(first[i]) && first[i].kind != later.kind
                                      && second[i].kind != spilled.kind;
    SpillStarves(Alloc(m.vram.availableBytes, m.ram.availableBytes, false, 0, 0, []), first, second, spilled, later);
  }

  lemma HotEntriesOfAPlan(p: PlanValue, req: Request, e: ClassPlacement)
    requires e in AssignCold(p, req).classes && e.kind != Cold
    ensures e in p.classes
  {
  }

  /** The VRAM order of the classes: once model weights spill out of VRAM, no expert, prefix cache or
      workspace byte is in it. */
  lemma SpilledWeightsStarveLaterClasses(host: Host, bandwidth: Option<string>, req: Request, spilled: ClassPlacement,
                                         later: ClassPlacement)
    requires var p := BuildPlan(host, bandwidth, req); spilled in p.classes && later in p.classes
    requires spilled.kind == ModelWeights && spilled.tier != Vram
    requires later.kind == MoeExperts || later.kind == PrefixCache || later.kind == Workspace
    ensures later.tier != Vram
  {
    var m := Measured(host, req);
    if FitsCpu(m, req) {
      HotEntriesMembers(req, Ram);
      HotEntriesOfAPlan(CpuHot(m, req), req, later);
    } else if MayAccelerate(m, req) {
      HotEntriesOfAPlan(HybridHot(m, Greedy(m, req), req), req, spilled);
      HotEntriesOfAPlan(HybridHot(m, Greedy(m, req), req), req, later);
      SpillInTheGreedy(m, req, spilled, later);
    } else {
      HotEntriesMembers(req, Unplaced);
      HotEntriesOfAPlan(ExceededHot(m, req), req, later);
    }
  }

  ghost predicate UsesTier(p: PlanValue, tier: Tier) {
    exists e :: e in p.classes && e.tier == tier
  }

  ghost predicate RequirementsFit(p: PlanValue, req: Request) {
    && (NvmeColdTier in p.requirements <==> UsesTier(p, Nvme))
    && (KvCachePlacement in p.requirements <==> req.kvCache > 0 && UsesTier(p, Vram))
    && (ExpertOffload in p.requirements <==> req.experts > 0 && HybridPlacement in p.requirements)
    && (HybridPlacement in p.requirements <==> p.reason == AcceleratorAvailable || p.reason == HotSetTooLarge)
  }

  lemma ColdRequirement(p: PlanValue, req: Request)
    requires RequirementsFit(p, req) && !UsesTier(p, Nvme)
    ensures RequirementsFit(AssignCold(p, req), req)
  {
    var q := AssignCold(p, req);
    ColdAdds(p, req);
    assert UsesTier(q, Vram) <==> UsesTier(p, Vram);
    if req.cold > 0 {
      assert ColdPart(req)[0] in q.classes;
    }
  }

  lemma HybridRequirementsFit(m: PlanValue, a: Alloc, req: Request)
    requires Consistent(a, m.vram.availableBytes, m.ram.availableBytes)
    ensures RequirementsFit(HybridHot(m, a, req), req) && !UsesTier(HybridHot(m, a, req), Nvme)
  {
    SomeVramBytes(a.classes);
  }

  /** The backend requirements a plan names are those its placement makes necessary. */
  lemma RequirementsMatchPlacement(host: Host, bandwidth: Option<string>, req: Request)
    ensures RequirementsFit(BuildPlan(host, bandwidth, req), req)
  {
    var m := Measured(host, req);
    if FitsCpu(m, req) {
      HotEntriesMembers(req, Ram);
      ColdRequirement(CpuHot(m, req), req);
    } else if MayAccelerate(m, req) {
      GreedyOutcome(host, req, Cold);
      HybridRequirementsFit(m, Greedy(m, req), req);
      ColdRequirement(HybridHot(m, Greedy(m, req), req), req);
    } else {
      HotEntriesMembers(req, Unplaced);
      ColdRequirement(ExceededHot(m, req), req);
    }
  }

  lemma {:induction false} SomeVramBytes(classes: seq<ClassPlacement>)
    requires forall e :: e in classes ==> e.bytes > 0
    ensures TierBytes(classes, Vram) > 0 <==> exists e :: e in classes && e.tier == Vram
  {
    if classes != [] {
      var init, last := classes[..|classes| - 1], classes[|classes| - 1];
      assert classes == init + [last] && last in classes;
      assert forall e :: e in init ==> e in classes;
      SomeVramBytes(init);
    }
  }

  // ---------------------------------------------------------------- against every packing

  function Sum(xs: seq<nat>): nat {
    if xs == [] then 0 else xs[0] + Sum(xs[1..])
  }

  /** An assignment of bytes to VRAM, the rest going to RAM, that respects whole classes and capacities. */
  ghost predicate Packs(items: seq<Item>, inVram: seq<nat>, vram: nat, ram: nat) {
    && |inVram| == |items|
    && (forall i :: 0 <= i < |items| ==>
          inVram[i] <= items[i].bytes && (items[i].whole ==> inVram[i] == 0 || inVram[i] == items[i].bytes))
    && Sum(inVram) <= vram
    && TotalBytes(items) <= Sum(inVram) + ram
  }

  function GreedyPacking(items: seq<Item>, v: nat): seq<nat>
    decreases |items|
  {
    if items == [] then []
    else [VramTake(items[0], v)] + GreedyPacking(items[1..], v - VramTake(items[0], v))
  }

  lemma {:induction false} GreedyPacks(items: seq<Item>, vram: nat, ram: nat)
    requires RamNeed(items, vram) <= ram
    ensures Packs(items, GreedyPacking(items, vram), vram, ram)
    ensures Sum(GreedyPacking(items, vram)) == VramUsed(items, vram)
    decreases |items|
  {
    if items != [] {
      var take := VramTake(items[0], vram);
      var rest := GreedyPacking(items[1..], vram - take);
      GreedyPacks(items[1..], vram - take, RamNeed(items[1..], vram - take));
      assert GreedyPacking(items, vram)[1..] == rest;
      assert forall i :: 1 <= i < |items| ==>
               items[i] == items[1..][i - 1] && GreedyPacking(items, vram)[i] == rest[i - 1];
    }
  }

  /** A hybrid plan that places everything is a packing; and when the greedy spills weight bytes out of
      VRAM it is optimal: it is feasible iff any packing of the hot classes exists. */
  lemma SpillingGreedyIsOptimal(host: Host, bandwidth: Option<string>, req: Request)
    requires var m := Measured(host, req); !FitsCpu(m, req) && MayAccelerate(m, req)
    ensures var p := BuildPlan(host, bandwidth, req);
            var usable, vram := UsableRam(host, req), BestVram(host.accelerators);
            && (p.decision != CapacityExceeded ==> exists x :: Packs(HybridItems(req), x, vram, usable))
            && ((exists e :: e in p.classes && e.tier != Vram && MaySplit(e.kind)) ==>
                  (p.decision != CapacityExceeded <==> exists x :: Packs(HybridItems(req), x, vram, usable)))
  {
    var items, usable, vram := HybridItems(req), UsableRam(host, req), BestVram(host.accelerators);
    FeasibleExactly(host, bandwidth, req);
    HybridItemsAddUp(req, Cold);
    if BuildPlan(host, bandwidth, req).decision != CapacityExceeded {
      GreedyPacks(items, vram, usable);
    }
    LeftoverVramIsTooSmall(host, bandwidth, req);
  }

  /** VRAM taken by the whole classes one picks for it. */
  function Picked(items: seq<Item>, pick: seq<bool>): nat
    requires |pick| == |items|
  {
    if items == [] then 0
    else (if items[0].whole && pick[0] then items[0].bytes else 0) + Picked(items[1..], pick[1..])
  }

  /** Bytes of the classes that may be split. */
  function SplitTotal(items: seq<Item>): nat {
    if items == [] then 0 else (if items[0].whole then 0 else items[0].bytes) + SplitTotal(items[1..])
  }

  /** A choice of whole classes for VRAM that leaves room for the rest: splittable bytes fill VRAM up. */
  predicate GoodPick(items: seq<Item>, pick: seq<bool>, vram: nat, ram: nat) {
    && |pick| == |items|
    && Picked(items, pick) <= vram
    && TotalBytes(items) <= Min(vram, Picked(items, pick) + SplitTotal(items)) + ram
  }

  /** The whole classes that an assignment puts in VRAM. */
  function PickOf(items: seq<Item>, x: seq<nat>): (pick: seq<bool>)
    requires |x| == |items|
    ensures |pick| == |items|
  {
    if items == [] then [] else [x[0] > 0] + PickOf(items[1..], x[1..])
  }

  lemma {:induction false} PickBoundsPacking(items: seq<Item>, x: seq<nat>)
    requires |x| == |items|
    requires forall i :: 0 <= i < |items| ==>
               x[i] <= items[i].bytes && (items[i].whole ==> x[i] == 0 || x[i] == items[i].bytes)
    ensures Picked(items, PickOf(items, x)) <= Sum(x) <= Picked(items, PickOf(items, x)) + SplitTotal(items)
  {
    if items != [] {
      PickBoundsPacking(items[1..], x[1..]);
      assert PickOf(items, x)[1..] == PickOf(items[1..], x[1..]);
    }
  }

  /** The assignment that follows a choice and then fills `room` bytes with splittable classes. */
  function PackBy(items: seq<Item>, pick: seq<bool>, room: nat): (x: seq<nat>)
    requires |pick| == |items|
    ensures |x| == |items|
    ensures forall i :: 0 <= i < |items| ==>
              x[i] <= items[i].bytes && (items[i].whole ==> x[i] == 0 || x[i] == items[i].bytes)
    decreases |items|
  {
    if items == [] then []
    else if items[0].whole then
      [if pick[0] then items[0].bytes else 0] + PackBy(items[1..], pick[1..], room)
    else
      [Min(items[0].bytes, room)] + PackBy(items[1..], pick[1..], room - Min(items[0].bytes, room))
  }

  lemma {:induction false} PackByFills(items: seq<Item>, pick: seq<bool>, room: nat)
    requires |pick| == |items|
    ensures Sum(PackBy(items, pick, room)) == Picked(items, pick) + Min(room, SplitTotal(items))
    decreases |items|
  {
    if items != [] {
      var x := PackBy(items, pick, room);
      if items[0].whole {
        PackByFills(items[1..], pick[1..], room);
        assert x[1..] == PackBy(items[1..], pick[1..], room);
      } else {
        var n := Min(items[0].bytes, room);
        PackByFills(items[1..], pick[1..], room - n);
        assert x[1..] == PackBy(items[1..], pick[1..], room - n);
      }
    }
  }

  /** Over any classes: a packing exists if and only if some choice of the whole ones does. With four whole
      hot classes that is sixteen choices to try. */
  lemma PackableExactly(items: seq<Item>, vram: nat, ram: nat)
    ensures (exists x :: Packs(items, x, vram, ram)) <==> exists pick :: GoodPick(items, pick, vram, ram)
  {
    forall x | Packs(items, x, vram, ram) ensures GoodPick(items, PickOf(items, x), vram, ram) {
      PickBoundsPacking(items, x);
    }
    forall pick | GoodPick(items, pick, vram, ram) ensures exists x :: Packs(items, x, vram, ram) {
      var room := vram - Picked(items, pick);
      PackByFills(items, pick, room);
      assert Packs(items, PackBy(items, pick, room), vram, ram);
    }
  }

  /** When the greedy's verdict is that of the best possible planner: it finds a packing whenever one exists
      if and only if no choice of whole classes succeeds where what the greedy leaves outside VRAM
      exceeds usable RAM. */
  lemma GreedyIsOptimalExactly(host: Host, bandwidth: Option<string>, req: Request)
    requires var m := Measured(host, req); !FitsCpu(m, req) && MayAccelerate(m, req)
    ensures var items, usable, vram := HybridItems(req), UsableRam(host, req), BestVram(host.accelerators);
            (Feasible(host, bandwidth, req) <==> exists x :: Packs(items, x, vram, usable))
            <==> ((exists pick :: GoodPick(items, pick, vram, usable))
                  ==> HotTotal(req) - VramUsed(items, vram) <= usable)
  {
    var items, usable, vram := HybridItems(req), UsableRam(host, req), BestVram(host.accelerators);
    FeasibleExactly(host, bandwidth, req);
    PackableExactly(items, vram, usable);
    HybridItemsAddUp(req, Cold);
    if Feasible(host, bandwidth, req) {
      GreedyPacks(items, vram, usable);
    }
  }

  /** Without a spill the greedy is not optimal: here a packing exists and none is found. */
  lemma GreedyIsNotOptimal() returns (host: Host, req: Request, x: seq<nat>)
    ensures ValidateRequest(req) == None
    ensures Packs(HybridItems(req), x, BestVram(host.accelerators), UsableRam(host, req))
    ensures BuildPlan(host, None, req).decision == CapacityExceeded
  {
    req := Request(1, 0, 3, 0, 5, 0, 0, true, false, 0, 1);
    host := Host(5, 5, [5]);
    assert host.accelerators[..0] == [];
    x := [0, 5, 0, 0, 0, 0];
    MissedPacking(host, req, x);
  }

  lemma MissedPacking(host: Host, req: Request, x: seq<nat>)
    requires req.model == 1 && req.kvCache == 3 && req.projector == 5
    requires req.experts == req.prefixCache == req.workspace == 0
    requires UsableRam(host, req) == 4 && BestVram(host.accelerators) == 5
    requires |x| == 6 && x[1] == 5 && x[0] == x[2] == x[3] == x[4] == x[5] == 0
    ensures Packs(HybridItems(req), x, 5, 4)
    ensures BuildPlan(host, None, req).decision == CapacityExceeded
  {
    SixNumbers(x);
    FeasibleExactly(host, None, req);
    HybridItemsAddUp(req, Cold);
    OnlyKvCacheFits(HybridItems(req));
  }

  lemma SixNumbers(x: seq<nat>)
    requires |x| == 6
    ensures Sum(x) == x[0] + x[1] + x[2] + x[3] + x[4] + x[5]
  {
    assert x[1..][1..] == x[2..] && x[2..][1..] == x[3..] && x[3..][1..] == x[4..] && x[4..][1..] == x[5..]
           && x[5..][1..] == [];
    assert Sum(x[5..]) == x[5];
    assert Sum(x[4..]) == x[4] + x[5];
    assert Sum(x[3..]) == x[3] + x[4] + x[5];
    assert Sum(x[2..]) == x[2] + x[3] + x[4] + x[5];
  }

  lemma OnlyKvCacheFits(items: seq<Item>)
    requires |items| == 6
    requires items[0].whole && items[0].bytes == 3 && items[1].whole && items[1].bytes == 5
    requires items[2].bytes == 1 && !items[2].whole && items[3].bytes == items[4].bytes == items[5].bytes == 0
    ensures VramUsed(items, 5) == 4
  {
    assert items[0..] == items && items[6..] == [];
    ItemsFrom(items, 0, Cold, 5);
    ItemsFrom(items, 1, Cold, 2);
    ItemsFrom(items, 2, Cold, 2);
    ItemsFrom(items, 3, Cold, 1);
    ItemsFrom(items, 4, Cold, 1);
    ItemsFrom(items, 5, Cold, 1);
  }
}
