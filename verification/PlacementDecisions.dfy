/** What a plan decides, told from the request and the host alone. */
module PlacementDecisions {
  import opened Words
  import opened Wrappers
  import opened PlacementSpec
  import opened PlacementProofs

  // ---------------------------------------------------------------- inputs

  /** A request is valid when it has a model and, with NVMe allowed, its cold bytes fit the budget. */
  lemma ValidRequestsExactly(req: Request)
    ensures ValidateRequest(req) == None <==> req.model > 0 && (req.allowNvme ==> req.cold <= req.nvmeBudget)
    ensures req.model == 0 ==> ValidateRequest(req) == Some(ModelBytesMissing)
    ensures req.model > 0 && req.allowNvme && req.cold > req.nvmeBudget ==>
              ValidateRequest(req) == Some(if req.nvmeBudget == 0 then NvmeBudgetMissing else ColdExceedsBudget)
  {
  }

  /** What is available: the reported bytes, or the total when none are reported. What is kept back: the operator's
      reserve, or a fifth of the total but never less than two GiB. */
  lemma UsableRamIsWhatIsLeft(host: Host, reserve: u64, available: nat, kept: nat)
    requires available == if host.availableRam > 0 then host.availableRam else host.totalRam
    requires reserve > 0 ==> kept == reserve
    requires reserve == 0 ==> kept >= 0x8000_0000 && 5 * kept <= Max(host.totalRam, 5 * 0x8000_0000) < 5 * kept + 5
    ensures available <= kept ==> UsableWith(host, reserve) == 0
    ensures available > kept ==> UsableWith(host, reserve) + kept == available
  {
  }

  function Max(a: nat, b: nat): nat { if a < b then b else a }

  // ---------------------------------------------------------------- decisions and reasons

  lemma BranchDecides(host: Host, bandwidth: Option<string>, req: Request)
    ensures var p, m := BuildPlan(host, bandwidth, req), Measured(host, req);
            && (FitsCpu(m, req) ==> p.decision == CpuOnly && p.reason == FitsRam)
            && (!FitsCpu(m, req) && MayAccelerate(m, req) ==>
                  && p.decision == (if Greedy(m, req).unplaced then CapacityExceeded else HybridCandidate)
                  && p.reason == (if Greedy(m, req).unplaced then HotSetTooLarge else AcceleratorAvailable))
            && (!FitsCpu(m, req) && !MayAccelerate(m, req) ==>
                  p.decision == CapacityExceeded && p.reason == NoAccelerator)
  {
  }

  lemma TiersAreMeasured(host: Host, bandwidth: Option<string>, req: Request)
    ensures var p := BuildPlan(host, bandwidth, req);
            && p.ram.availableBytes == UsableRam(host, req) && p.vram.availableBytes == BestVram(host.accelerators)
            && p.nvme.availableBytes == (if req.allowNvme then req.nvmeBudget else 0)
  {
  }

  /** The planner is CPU-first: a request is planned without the accelerator exactly when its hot bytes, summed in
      64 bits, fit usable RAM, whatever acceleration would allow. Otherwise it is hybrid exactly when
      acceleration is allowed, there is VRAM, and what the greedy leaves outside VRAM fits. */
  lemma DecisionExactly(host: Host, bandwidth: Option<string>, req: Request)
    ensures var p := BuildPlan(host, bandwidth, req);
            var usable, vram := UsableRam(host, req), BestVram(host.accelerators);
            var fits := HotTotal(req) % TWO_TO_THE_64 <= usable;
            var tried := !fits && req.allowAcceleration && vram > 0;
            var outside := HotTotal(req) - VramUsed(HybridItems(req), vram);
            && (p.decision == CpuOnly <==> fits)
            && (p.decision == HybridCandidate <==> tried && outside <= usable)
            && (p.decision == CapacityExceeded <==> !fits && (tried ==> outside > usable))
            && (p.reason == FitsRam <==> fits)
            && (p.reason == AcceleratorAvailable <==> tried && outside <= usable)
            && (p.reason == HotSetTooLarge <==> tried && outside > usable)
            && (p.reason == NoAccelerator <==> !fits && !tried)
            && p.ram.availableBytes == usable && p.vram.availableBytes == vram
            && p.nvme.availableBytes == (if req.allowNvme then req.nvmeBudget else 0)
  {
    HotWordIsReduced(req);
    GreedyOutcome(host, req, Cold);
    BranchDecides(host, bandwidth, req);
    TiersAreMeasured(host, bandwidth, req);
  }

  // ---------------------------------------------------------------- cold bytes and warnings

  function EntryBytes(classes: seq<ClassPlacement>, kind: Kind, tier: Tier): nat {
    if classes == [] then 0
    else EntryBytes(classes[..|classes| - 1], kind, tier)
         + var e := classes[|classes| - 1]; if e.kind == kind && e.tier == tier then e.bytes else 0
  }

  lemma EntrySnoc(classes: seq<ClassPlacement>, e: ClassPlacement, kind: Kind, tier: Tier)
    ensures EntryBytes(classes + [e], kind, tier)
            == EntryBytes(classes, kind, tier) + if e.kind == kind && e.tier == tier then e.bytes else 0
  {
    assert (classes + [e])[..|classes|] == classes;
  }

  lemma {:induction false} NoEntry(classes: seq<ClassPlacement>, kind: Kind, tier: Tier)
    requires forall e :: e in classes ==> e.kind != kind || e.tier != tier
    ensures EntryBytes(classes, kind, tier) == 0
  {
    if classes != [] {
      assert classes[|classes| - 1] in classes;
      NoEntry(classes[..|classes| - 1], kind, tier);
    }
  }

  /** Where the cold bytes of a plan whose other entries are hot end up. */
  lemma ColdEntries(p: PlanValue, req: Request, kind: Kind, tier: Tier)
    requires forall e :: e in p.classes ==> e.kind != Cold
    ensures var q := AssignCold(p, req);
            var onDisk := req.allowNvme && req.cold <= req.nvmeBudget;
            EntryBytes(q.classes, kind, tier)
            == if kind != Cold then EntryBytes(p.classes, kind, tier)
               else if tier == (if onDisk then Nvme else Unplaced) then req.cold else 0
  {
    if kind == Cold {
      NoEntry(p.classes, Cold, tier);
    }
    if req.cold > 0 {
      var e := AssignCold(p, req).classes[|p.classes|];
      EntrySnoc(p.classes, e, kind, tier);
      assert AssignCold(p, req).classes == p.classes + [e];
    }
  }

  lemma ColdWarns(p: PlanValue, req: Request, w: Warning)
    requires p.warnings == []
    ensures w in AssignCold(p, req).warnings
            <==> w == ColdTierUnavailable && req.cold > 0 && !(req.allowNvme && req.cold <= req.nvmeBudget)
  {
  }

  /** The hot entries before the cold one, in every branch. */
  function HotPart(host: Host, req: Request): PlanValue {
    var m := Measured(host, req);
    if FitsCpu(m, req) then CpuHot(m, req)
    else if MayAccelerate(m, req) then HybridHot(m, Greedy(m, req), req)
    else ExceededHot(m, req)
  }

  lemma HotPartIsHot(host: Host, req: Request)
    ensures forall e :: e in HotPart(host, req).classes ==> e.kind != Cold
    ensures HotPart(host, req).warnings == []
  {
    HotEntriesMembers(req, Ram);
    HotEntriesMembers(req, Unplaced);
    GreedyOutcome(host, req, Cold);
  }

  /** Every branch is its hot part with the cold bytes assigned. */
  lemma PlanIsHotPart(host: Host, bandwidth: Option<string>, req: Request)
    ensures BuildPlan(host, bandwidth, req).classes == AssignCold(HotPart(host, req), req).classes
    ensures forall w :: w in BuildPlan(host, bandwidth, req).warnings
                        <==> w in AssignCold(HotPart(host, req), req).warnings
                             || (w == LowBandwidth && FitsCpu(Measured(host, req), req) && bandwidth == Some("low"))
  {
  }

  /** Cold bytes go to NVMe as a whole exactly when it is allowed and its budget holds them; otherwise they have
      no tier, which is warned of. A slow memory is warned of exactly for plans without the accelerator. */
  lemma ColdAndWarningsExactly(host: Host, bandwidth: Option<string>, req: Request)
    ensures var p := BuildPlan(host, bandwidth, req);
            var onDisk := req.allowNvme && req.cold <= req.nvmeBudget;
            && EntryBytes(p.classes, Cold, Nvme) == (if onDisk then req.cold else 0)
            && EntryBytes(p.classes, Cold, Unplaced) == (if onDisk then 0 else req.cold)
            && (ColdTierUnavailable in p.warnings <==> req.cold > 0 && !onDisk)
            && (LowBandwidth in p.warnings <==> p.decision == CpuOnly && bandwidth == Some("low"))
  {
    HotPartIsHot(host, req);
    PlanIsHotPart(host, bandwidth, req);
    ColdEntries(HotPart(host, req), req, Cold, Nvme);
    ColdEntries(HotPart(host, req), req, Cold, Unplaced);
    ColdWarns(HotPart(host, req), req, ColdTierUnavailable);
    ColdWarns(HotPart(host, req), req, LowBandwidth);
    DecisionExactly(host, bandwidth, req);
    HotWordIsReduced(req);
  }

  // ---------------------------------------------------------------- who gets which tier

  /** The order in which the hot classes are served. */
  const ORDER: seq<Kind> := [KvCache, Projector, ModelWeights, MoeExperts, PrefixCache, Workspace]

  /** Bytes of a tier held by the first `n` classes of a list. */
  function Held(classes: seq<ClassPlacement>, kinds: seq<Kind>, n: nat, tier: Tier): nat
    requires n <= |kinds|
  {
    if n == 0 then 0 else Held(classes, kinds, n - 1, tier) + EntryBytes(classes, kinds[n - 1], tier)
  }

  /** What a class of `bytes` takes of a tier with `left` bytes: all or nothing, or as much as there is room for. */
  function Portion(whole: bool, bytes: nat, left: nat): nat {
    if bytes <= left then bytes else if whole then 0 else left
  }

  /** Class number `i` has its share of what the classes before it left of VRAM, then of RAM, and the rest of it
      has no tier. */
  ghost predicate Served(classes: seq<ClassPlacement>, kinds: seq<Kind>, i: nat, whole: bool, bytes: nat,
                         vram: nat, ram: nat)
    requires i < |kinds|
  {
    var v, r := EntryBytes(classes, kinds[i], Vram), EntryBytes(classes, kinds[i], Ram);
    && Held(classes, kinds, i, Vram) <= vram && Held(classes, kinds, i, Ram) <= ram
    && v == Portion(whole, bytes, vram - Held(classes, kinds, i, Vram))
    && r == Portion(whole, bytes - v, ram - Held(classes, kinds, i, Ram))
    && EntryBytes(classes, kinds[i], Unplaced) == bytes - v - r
    && EntryBytes(classes, kinds[i], Nvme) == 0
  }

  function RamTake(item: Item, a: Alloc): nat {
    Portion(item.whole, item.bytes - VramTake(item, a.vram), a.ram)
  }

  function Took(a: Alloc, item: Item, tier: Tier): nat {
    match tier
    case Vram => VramTake(item, a.vram)
    case Ram => RamTake(item, a)
    case Unplaced => item.bytes - VramTake(item, a.vram) - RamTake(item, a)
    case Nvme => 0
  }

  lemma WholeTakes(a: Alloc, item: Item, kind: Kind, tier: Tier)
    requires item.whole
    ensures var b := Place(a, item);
            && b.vram == a.vram - VramTake(item, a.vram) && b.ram == a.ram - RamTake(item, a)
            && EntryBytes(b.classes, kind, tier)
               == EntryBytes(a.classes, kind, tier) + if kind == item.kind then Took(a, item, tier) else 0
  {
    if item.bytes == 0 {
    } else if item.bytes <= a.vram {
      EntrySnoc(a.classes, ClassPlacement(item.kind, Vram, item.bytes), kind, tier);
    } else if item.bytes <= a.ram {
      EntrySnoc(a.classes, ClassPlacement(item.kind, Ram, item.bytes), kind, tier);
    } else {
      EntrySnoc(a.classes, ClassPlacement(item.kind, Unplaced, item.bytes), kind, tier);
    }
  }

  lemma SplitVramTakes(a: Alloc, of: Kind, n: u64, kind: Kind, tier: Tier)
    ensures var b := SplitVram(a, of, n);
            && b.vram == a.vram - Min(n, a.vram) && b.ram == a.ram
            && EntryBytes(b.classes, kind, tier)
               == EntryBytes(a.classes, kind, tier) + if kind == of && tier == Vram then Min(n, a.vram) else 0
  {
    EntrySnoc(a.classes, ClassPlacement(of, Vram, Min(n, a.vram)), kind, tier);
  }

  lemma SplitBelowTakes(a: Alloc, of: Kind, n: u64, kind: Kind, tier: Tier)
    ensures var b := SplitBelow(a, of, n);
            && b.vram == a.vram && b.ram == a.ram - Min(n, a.ram)
            && EntryBytes(b.classes, kind, tier)
               == EntryBytes(a.classes, kind, tier)
                  + (if kind == of && tier == Ram then Min(n, a.ram) else 0)
                  + (if kind == of && tier == Unplaced then n - Min(n, a.ram) else 0)
  {
    var mid := SplitRam(a, of, n);
    EntrySnoc(a.classes, ClassPlacement(of, Ram, Min(n, a.ram)), kind, tier);
    EntrySnoc(mid.classes, ClassPlacement(of, Unplaced, n - Min(n, a.ram)), kind, tier);
  }

  lemma ItemTakes(a: Alloc, item: Item, kind: Kind, tier: Tier)
    ensures var b := Place(a, item);
            && b.vram == a.vram - VramTake(item, a.vram) && b.ram == a.ram - RamTake(item, a)
            && EntryBytes(b.classes, kind, tier)
               == EntryBytes(a.classes, kind, tier) + if kind == item.kind then Took(a, item, tier) else 0
  {
    if item.whole {
      WholeTakes(a, item, kind, tier);
    } else {
      var rest: u64 := item.bytes - Min(item.bytes, a.vram);
      SplitVramTakes(a, item.kind, item.bytes, kind, tier);
      SplitBelowTakes(SplitVram(a, item.kind, item.bytes), item.kind, rest, kind, tier);
    }
  }

  /** Serving other classes leaves the entries of a class alone. */
  lemma {:induction false} OthersKeep(a: Alloc, items: seq<Item>, kind: Kind, tier: Tier)
    requires forall i :: 0 <= i < |items| ==> items[i].kind != kind
    ensures EntryBytes(PlaceAll(a, items).classes, kind, tier) == EntryBytes(a.classes, kind, tier)
    decreases |items|
  {
    if items != [] {
      ItemTakes(a, items[0], kind, tier);
      OthersKeep(Place(a, items[0]), items[1..], kind, tier);
    }
  }

  ghost predicate KindsOf(items: seq<Item>, kinds: seq<Kind>) {
    && |items| == |kinds|
    && (forall i :: 0 <= i < |items| ==> items[i].kind == kinds[i])
    && (forall i, j :: 0 <= i < j < |kinds| ==> kinds[i] != kinds[j])
  }

  /** The state before class number `i` is served. */
  function Before(start: Alloc, items: seq<Item>, i: nat): Alloc
    requires i <= |items|
  {
    PlaceAll(start, items[..i])
  }

  lemma NextBefore(start: Alloc, items: seq<Item>, i: nat)
    requires i < |items|
    ensures Before(start, items, i + 1) == Place(Before(start, items, i), items[i])
  {
    assert items[..i + 1] == items[..i] + [items[i]];
    PlaceInTwoParts(start, items[..i], [items[i]]);
    assert [items[i]][1..] == [];
    assert PlaceAll(Before(start, items, i), [items[i]]) == PlaceAll(Place(Before(start, items, i), items[i]), []);
  }

  /** The final entries of class number `i` are those it was given in its turn. */
  lemma FinalEntries(start: Alloc, items: seq<Item>, kinds: seq<Kind>, i: nat, tier: Tier)
    requires KindsOf(items, kinds) && i < |items| && start.classes == []
    ensures EntryBytes(PlaceAll(start, items).classes, kinds[i], tier) == Took(Before(start, items, i), items[i], tier)
  {
    var a := Before(start, items, i);
    OthersKeep(start, items[..i], kinds[i], tier);
    ItemTakes(a, items[i], kinds[i], tier);
    NextBefore(start, items, i);
    assert items == items[..i + 1] + items[i + 1..];
    PlaceInTwoParts(start, items[..i + 1], items[i + 1..]);
    OthersKeep(Before(start, items, i + 1), items[i + 1..], kinds[i], tier);
  }

  lemma {:induction false} LeftBefore(start: Alloc, items: seq<Item>, kinds: seq<Kind>, i: nat)
    requires KindsOf(items, kinds) && i <= |items| && start.classes == []
    ensures var classes, a := PlaceAll(start, items).classes, Before(start, items, i);
            && a.vram + Held(classes, kinds, i, Vram) == start.vram
            && a.ram + Held(classes, kinds, i, Ram) == start.ram
  {
    if i == 0 {
      assert items[..0] == [];
    } else {
      LeftBefore(start, items, kinds, i - 1);
      NextBefore(start, items, i - 1);
      ItemTakes(Before(start, items, i - 1), items[i - 1], Cold, Vram);
      FinalEntries(start, items, kinds, i - 1, Vram);
      FinalEntries(start, items, kinds, i - 1, Ram);
    }
  }

  /** Over any list of different classes, each is served from what those before it left. */
  lemma GreedyServes(start: Alloc, items: seq<Item>, kinds: seq<Kind>, i: nat)
    requires KindsOf(items, kinds) && i < |items| && start.classes == []
    ensures Served(PlaceAll(start, items).classes, kinds, i, items[i].whole, items[i].bytes, start.vram, start.ram)
  {
    LeftBefore(start, items, kinds, i);
    FinalEntries(start, items, kinds, i, Vram);
    FinalEntries(start, items, kinds, i, Ram);
    FinalEntries(start, items, kinds, i, Unplaced);
    FinalEntries(start, items, kinds, i, Nvme);
  }

  lemma {:induction false} SameHeld(a: seq<ClassPlacement>, b: seq<ClassPlacement>, kinds: seq<Kind>, n: nat,
                                    tier: Tier)
    requires n <= |kinds|
    requires forall i :: 0 <= i < |kinds| ==> EntryBytes(a, kinds[i], tier) == EntryBytes(b, kinds[i], tier)
    ensures Held(a, kinds, n, tier) == Held(b, kinds, n, tier)
  {
    if n > 0 {
      SameHeld(a, b, kinds, n - 1, tier);
    }
  }

  lemma ServedAlike(a: seq<ClassPlacement>, b: seq<ClassPlacement>, kinds: seq<Kind>, i: nat, whole: bool, bytes: nat,
                    vram: nat, ram: nat)
    requires i < |kinds| && Served(a, kinds, i, whole, bytes, vram, ram)
    requires forall j, t :: 0 <= j < |kinds| ==> EntryBytes(b, kinds[j], t) == EntryBytes(a, kinds[j], t)
    ensures Served(b, kinds, i, whole, bytes, vram, ram)
  {
    SameHeld(b, a, kinds, i, Vram);
    SameHeld(b, a, kinds, i, Ram);
  }

  lemma ServedWithCold(p: PlanValue, req: Request, kinds: seq<Kind>, i: nat, whole: bool, bytes: nat,
                       vram: nat, ram: nat)
    requires i < |kinds| && (forall j :: 0 <= j < |kinds| ==> kinds[j] != Cold)
    requires forall e :: e in p.classes ==> e.kind != Cold
    requires Served(p.classes, kinds, i, whole, bytes, vram, ram)
    ensures Served(AssignCold(p, req).classes, kinds, i, whole, bytes, vram, ram)
  {
    var q := AssignCold(p, req);
    forall j, t | 0 <= j < |kinds| ensures EntryBytes(q.classes, kinds[j], t) == EntryBytes(p.classes, kinds[j], t) {
      ColdEntries(p, req, kinds[j], t);
    }
    ServedAlike(p.classes, q.classes, kinds, i, whole, bytes, vram, ram);
  }

  lemma OrderOfItems(req: Request, i: nat)
    requires i < 6
    ensures |ORDER| == 6 && KindsOf(HybridItems(req), ORDER)
    ensures HybridItems(req)[i].bytes == Requested(req, ORDER[i])
    ensures HybridItems(req)[i].whole <==> ORDER[i] != ModelWeights && ORDER[i] != MoeExperts
    ensures forall j :: 0 <= j < 6 ==> ORDER[j] != Cold
  {
  }

  /** In a hybrid attempt the entries of each hot class are fixed by those of the classes before it: KV cache,
      projector, model weights, experts, prefix cache, workspace. Weights and experts are split, the others not. */
  lemma EachClassIsServedInOrder(host: Host, bandwidth: Option<string>, req: Request, i: nat)
    requires i < 6
    requires HotTotal(req) % TWO_TO_THE_64 > UsableRam(host, req)
    requires req.allowAcceleration && BestVram(host.accelerators) > 0
    ensures var whole := ORDER[i] != ModelWeights && ORDER[i] != MoeExperts;
            Served(BuildPlan(host, bandwidth, req).classes, ORDER, i, whole, Requested(req, ORDER[i]),
                   BestVram(host.accelerators), UsableRam(host, req))
  {
    var m := Measured(host, req);
    HotWordIsReduced(req);
    OrderOfItems(req, i);
    HotPartIsHot(host, req);
    GreedyServes(Alloc(m.vram.availableBytes, m.ram.availableBytes, false, 0, 0, []), HybridItems(req), ORDER, i);
    ServedWithCold(HybridHot(m, Greedy(m, req), req), req, ORDER, i, ORDER[i] != ModelWeights && ORDER[i] != MoeExperts,
                   Requested(req, ORDER[i]), m.vram.availableBytes, m.ram.availableBytes);
  }

  /** In the other branches every hot entry has one tier: RAM, or none. */
  lemma OtherBranchesUseOneTier(host: Host, bandwidth: Option<string>, req: Request, e: ClassPlacement)
    requires e in BuildPlan(host, bandwidth, req).classes && e.kind != Cold
    ensures HotTotal(req) % TWO_TO_THE_64 <= UsableRam(host, req) ==> e.tier == Ram
    ensures (HotTotal(req) % TWO_TO_THE_64 > UsableRam(host, req)
             && !(req.allowAcceleration && BestVram(host.accelerators) > 0)) ==> e.tier == Unplaced
  {
    HotWordIsReduced(req);
    PlanIsHotPart(host, bandwidth, req);
    HotEntriesOfAPlan(HotPart(host, req), req, e);
    HotEntriesMembers(req, Ram);
    HotEntriesMembers(req, Unplaced);
  }

  // ---------------------------------------------------------------- the order of the entries

  /** The order in which the branches without the accelerator list the hot classes. */
  const LISTING: seq<Kind> := [ModelWeights, MoeExperts, KvCache, PrefixCache, Projector, Workspace]

  function Rank(kinds: seq<Kind>, kind: Kind): nat {
    if kinds == [] || kinds[0] == kind then 0 else 1 + Rank(kinds[1..], kind)
  }

  predicate InOrder(classes: seq<ClassPlacement>, kinds: seq<Kind>) {
    forall i, j :: 0 <= i < j < |classes| ==> Rank(kinds, classes[i].kind) <= Rank(kinds, classes[j].kind)
  }

  lemma OrderSnoc(classes: seq<ClassPlacement>, e: ClassPlacement, kinds: seq<Kind>)
    requires InOrder(classes, kinds)
    requires forall x :: x in classes ==> Rank(kinds, x.kind) <= Rank(kinds, e.kind)
    ensures InOrder(classes + [e], kinds)
  {
  }

  lemma {:induction false} NonEmptyInOrder(es: seq<ClassPlacement>, kinds: seq<Kind>)
    requires InOrder(es, kinds)
    ensures InOrder(NonEmpty(es), kinds)
  {
    if es != [] {
      var init, last := es[..|es| - 1], es[|es| - 1];
      NonEmptyInOrder(init, kinds);
      NonEmptyMembers(init);
      OrderSnoc(NonEmpty(init), last, kinds);
    }
  }

  predicate NoneAfter(classes: seq<ClassPlacement>, kinds: seq<Kind>, rank: nat) {
    forall e :: e in classes ==> Rank(kinds, e.kind) <= rank
  }

  lemma EntryInOrder(classes: seq<ClassPlacement>, e: ClassPlacement, kinds: seq<Kind>)
    requires InOrder(classes, kinds) && NoneAfter(classes, kinds, Rank(kinds, e.kind))
    ensures InOrder(classes + [e], kinds) && NoneAfter(classes + [e], kinds, Rank(kinds, e.kind))
  {
    OrderSnoc(classes, e, kinds);
  }

  lemma PlaceInOrder(a: Alloc, item: Item, kinds: seq<Kind>)
    requires InOrder(a.classes, kinds) && NoneAfter(a.classes, kinds, Rank(kinds, item.kind))
    ensures InOrder(Place(a, item).classes, kinds) && NoneAfter(Place(a, item).classes, kinds, Rank(kinds, item.kind))
  {
    if item.whole {
      EntryInOrder(a.classes, ClassPlacement(item.kind, Vram, item.bytes), kinds);
      EntryInOrder(a.classes, ClassPlacement(item.kind, Ram, item.bytes), kinds);
      EntryInOrder(a.classes, ClassPlacement(item.kind, Unplaced, item.bytes), kinds);
    } else {
      var b := SplitVram(a, item.kind, item.bytes);
      var rest: u64 := item.bytes - Min(item.bytes, a.vram);
      EntryInOrder(a.classes, ClassPlacement(item.kind, Vram, Min(item.bytes, a.vram)), kinds);
      BelowInOrder(b, item.kind, rest, kinds);
    }
  }

  lemma BelowInOrder(a: Alloc, kind: Kind, rest: u64, kinds: seq<Kind>)
    requires InOrder(a.classes, kinds) && NoneAfter(a.classes, kinds, Rank(kinds, kind))
    ensures InOrder(SplitBelow(a, kind, rest).classes, kinds)
    ensures NoneAfter(SplitBelow(a, kind, rest).classes, kinds, Rank(kinds, kind))
  {
    var b := SplitRam(a, kind, rest);
    EntryInOrder(a.classes, ClassPlacement(kind, Ram, Min(rest, a.ram)), kinds);
    EntryInOrder(b.classes, ClassPlacement(kind, Unplaced, rest - Min(rest, a.ram)), kinds);
  }

  lemma {:induction false} PlaceAllInOrder(a: Alloc, items: seq<Item>, kinds: seq<Kind>)
    requires InOrder(a.classes, kinds) && (items != [] ==> NoneAfter(a.classes, kinds, Rank(kinds, items[0].kind)))
    requires forall i, j :: 0 <= i < j < |items| ==> Rank(kinds, items[i].kind) <= Rank(kinds, items[j].kind)
    ensures InOrder(PlaceAll(a, items).classes, kinds)
    decreases |items|
  {
    if items != [] {
      PlaceInOrder(a, items[0], kinds);
      if |items| > 1 {
        assert Rank(kinds, items[0].kind) <= Rank(kinds, items[1].kind);
      }
      PlaceAllInOrder(Place(a, items[0]), items[1..], kinds);
    }
  }

  lemma {:induction false} RankOf(kinds: seq<Kind>, i: nat)
    requires i < |kinds| && forall j :: 0 <= j < i ==> kinds[j] != kinds[i]
    ensures Rank(kinds, kinds[i]) == i
  {
    if i > 0 {
      assert kinds[0] != kinds[i];
      RankOf(kinds[1..], i - 1);
    }
  }

  lemma HotEntriesInOrder(req: Request, tier: Tier)
    ensures InOrder(HotEntries(req, tier), LISTING)
  {
    var es := HotEntries(req, tier);
    forall i | 0 <= i < 6 ensures Rank(LISTING, es[i].kind) == i {
      assert es[i].kind == LISTING[i];
      RankOf(LISTING, i);
    }
  }

  lemma HybridItemsInOrder(req: Request)
    ensures forall i :: 0 <= i < 6 ==> Rank(ORDER, HybridItems(req)[i].kind) == i
  {
    forall i | 0 <= i < 6 ensures Rank(ORDER, HybridItems(req)[i].kind) == i {
      assert HybridItems(req)[i].kind == ORDER[i];
      RankOf(ORDER, i);
    }
  }

  /** The entries of a plan are listed by class: in the order of serving for a hybrid attempt, and otherwise weights,
      experts, KV cache, prefix cache, projector, workspace; the cold entry comes last. */
  lemma EntriesAreListedByClass(host: Host, bandwidth: Option<string>, req: Request)
    ensures var tried := HotTotal(req) % TWO_TO_THE_64 > UsableRam(host, req)
                         && req.allowAcceleration && BestVram(host.accelerators) > 0;
            var classes := BuildPlan(host, bandwidth, req).classes;
            && InOrder(HotPart(host, req).classes, if tried then ORDER else LISTING)
            && HotPart(host, req).classes <= classes
            && forall i :: 0 <= i < |classes| && classes[i].kind == Cold ==> i == |classes| - 1
  {
    HotWordIsReduced(req);
    HotPartIsHot(host, req);
    PlanIsHotPart(host, bandwidth, req);
    HotEntriesInOrder(req, Ram);
    HotEntriesInOrder(req, Unplaced);
    NonEmptyInOrder(HotEntries(req, Ram), LISTING);
    NonEmptyInOrder(HotEntries(req, Unplaced), LISTING);
    HybridItemsInOrder(req);
    var m := Measured(host, req);
    PlaceAllInOrder(Alloc(m.vram.availableBytes, m.ram.availableBytes, false, 0, 0, []), HybridItems(req), ORDER);
    ColdAdds(HotPart(host, req), req);
  }
}
