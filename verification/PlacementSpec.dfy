/** The placement planner on values: requests, plans and the two-tier greedy.

    Byte counts are 64-bit words, as in the source; every addition the planner performs
    is written with `Add64`, which wraps. */
module PlacementSpec {
  import opened Words
  import opened Wrappers

  const TWO_GIB: nat := 0x8000_0000

  function Min(a: nat, b: nat): nat { if a < b then a else b }

  // ---------------------------------------------------------------- data

  datatype Kind = ModelWeights | MoeExperts | KvCache | PrefixCache | Projector | Workspace | Cold

  datatype Tier = Vram | Ram | Nvme | Unplaced

  datatype ClassPlacement = ClassPlacement(kind: Kind, tier: Tier, bytes: u64)

  datatype TierAllocation = TierAllocation(availableBytes: u64, assignedBytes: u64)

  datatype Decision = CpuOnly | HybridCandidate | CapacityExceeded

  datatype Reason = FitsRam | AcceleratorAvailable | HotSetTooLarge | NoAccelerator

  datatype Requirement = HybridPlacement | ExpertOffload | KvCachePlacement | NvmeColdTier

  datatype Warning = LowBandwidth | ColdTierUnavailable

  datatype PlanValue = PlanValue(
    decision: Decision, reason: Reason,
    ram: TierAllocation, vram: TierAllocation, nvme: TierAllocation,
    classes: seq<ClassPlacement>, requirements: seq<Requirement>, warnings: seq<Warning>)

  datatype Request = Request(
    model: u64, experts: u64, kvCache: u64, prefixCache: u64, projector: u64, workspace: u64, cold: u64,
    allowAcceleration: bool, allowNvme: bool, nvmeBudget: u64, reserveRam: u64)

  datatype RequestError = ModelBytesMissing | NvmeBudgetMissing | ColdExceedsBudget

  /** What discovery reports: memory figures and the VRAM of each accelerator. */
  datatype Host = Host(totalRam: u64, availableRam: u64, accelerators: seq<u64>)

  // ---------------------------------------------------------------- inputs

  function ValidateRequest(req: Request): Option<RequestError> {
    if req.model == 0 then Some(ModelBytesMissing)
    else if req.allowNvme && req.cold > 0 && req.nvmeBudget == 0 then Some(NvmeBudgetMissing)
    else if req.cold > req.nvmeBudget && req.allowNvme then Some(ColdExceedsBudget)
    else None
  }

  function DefaultReserve(total: u64): u64 {
    if total == 0 then TWO_GIB
    else if total / 5 < TWO_GIB then TWO_GIB else total / 5
  }

  /** RAM left for the hot set when the operator asks for `reserve` bytes, zero meaning the default. */
  function UsableWith(host: Host, reserve: u64): u64 {
    var available := if host.availableRam == 0 then host.totalRam else host.availableRam;
    var kept := if reserve == 0 then DefaultReserve(host.totalRam) else reserve;
    if available > kept then available - kept else 0
  }

  function UsableRam(host: Host, req: Request): u64 { UsableWith(host, req.reserveRam) }

  function BestVram(accelerators: seq<u64>): u64 {
    if accelerators == [] then 0
    else
      var best := BestVram(accelerators[..|accelerators| - 1]);
      if accelerators[|accelerators| - 1] > best then accelerators[|accelerators| - 1] else best
  }

  // ---------------------------------------------------------------- totals

  /** Bytes of one class over a list of entries. */
  function ClassBytes(classes: seq<ClassPlacement>, kind: Kind): nat {
    if classes == [] then 0
    else ClassBytes(classes[..|classes| - 1], kind)
         + if classes[|classes| - 1].kind == kind then classes[|classes| - 1].bytes else 0
  }

  /** Bytes of one tier over a list of entries. */
  function TierBytes(classes: seq<ClassPlacement>, tier: Tier): nat {
    if classes == [] then 0
    else TierBytes(classes[..|classes| - 1], tier)
         + if classes[|classes| - 1].tier == tier then classes[|classes| - 1].bytes else 0
  }

  function Requested(req: Request, kind: Kind): u64 {
    match kind
    case ModelWeights => req.model
    case MoeExperts => req.experts
    case KvCache => req.kvCache
    case PrefixCache => req.prefixCache
    case Projector => req.projector
    case Workspace => req.workspace
    case Cold => req.cold
  }

  /** The hot working set, as a mathematical sum. */
  function HotTotal(req: Request): nat {
    req.model + req.experts + req.kvCache + req.prefixCache + req.projector + req.workspace
  }

  /** The same sum as the planner computes it, in 64-bit words. */
  function HotWord(req: Request): u64 {
    Add64(Add64(Add64(Add64(Add64(req.model, req.experts), req.kvCache), req.prefixCache), req.projector),
          req.workspace)
  }

  // ---------------------------------------------------------------- the greedy

  /** One hot class offered to the greedy: `whole` classes go to a single tier. */
  datatype Item = Item(kind: Kind, bytes: u64, whole: bool)

  /** The order in which the hybrid branch serves the hot classes. */
  function HybridItems(req: Request): seq<Item> {
    [Item(KvCache, req.kvCache, true), Item(Projector, req.projector, true),
     Item(ModelWeights, req.model, false), Item(MoeExperts, req.experts, false),
     Item(PrefixCache, req.prefixCache, true), Item(Workspace, req.workspace, true)]
  }

  /** The counters the allocation functions share, and what they write in the plan. */
  datatype Alloc = Alloc(vram: u64, ram: u64, unplaced: bool, vramAssigned: u64, ramAssigned: u64,
                         classes: seq<ClassPlacement>)
  {
    function PutVram(kind: Kind, n: u64): Alloc
      requires n <= vram
    {
      this.(vram := vram - n, vramAssigned := Add64(vramAssigned, n),
            classes := classes + [ClassPlacement(kind, Vram, n)])
    }

    function PutRam(kind: Kind, n: u64): Alloc
      requires n <= ram
    {
      this.(ram := ram - n, ramAssigned := Add64(ramAssigned, n), classes := classes + [ClassPlacement(kind, Ram, n)])
    }

    function GiveUp(kind: Kind, n: u64): Alloc {
      this.(unplaced := true, classes := classes + [ClassPlacement(kind, Unplaced, n)])
    }
  }

  function PlaceWhole(a: Alloc, kind: Kind, bytes: u64): Alloc {
    if bytes == 0 then a
    else if bytes <= a.vram then a.PutVram(kind, bytes)
    else if bytes <= a.ram then a.PutRam(kind, bytes)
    else a.GiveUp(kind, bytes)
  }

  /** As much of a class as VRAM has room for. */
  function SplitVram(a: Alloc, kind: Kind, bytes: u64): Alloc {
    if Min(bytes, a.vram) > 0 then a.PutVram(kind, Min(bytes, a.vram)) else a
  }

  function SplitRam(a: Alloc, kind: Kind, rest: u64): Alloc {
    if Min(rest, a.ram) > 0 then a.PutRam(kind, Min(rest, a.ram)) else a
  }

  function SplitRest(a: Alloc, kind: Kind, rest: u64): Alloc {
    if rest > 0 then a.GiveUp(kind, rest) else a
  }

  /** What VRAM left of a class: as much as RAM has room for, and a report of the rest. */
  function SplitBelow(a: Alloc, kind: Kind, rest: u64): Alloc {
    SplitRest(SplitRam(a, kind, rest), kind, rest - Min(rest, a.ram))
  }

  function PlaceSplit(a: Alloc, kind: Kind, bytes: u64): Alloc {
    SplitBelow(SplitVram(a, kind, bytes), kind, bytes - Min(bytes, a.vram))
  }

  function Place(a: Alloc, item: Item): Alloc {
    if item.whole then PlaceWhole(a, item.kind, item.bytes) else PlaceSplit(a, item.kind, item.bytes)
  }

  /** The greedy over any list of classes. */
  function PlaceAll(a: Alloc, items: seq<Item>): Alloc
    decreases |items|
  {
    if items == [] then a else PlaceAll(Place(a, items[0]), items[1..])
  }

  // ---------------------------------------------------------------- the other branches

  function HotEntries(req: Request, tier: Tier): seq<ClassPlacement> {
    [ClassPlacement(ModelWeights, tier, req.model), ClassPlacement(MoeExperts, tier, req.experts),
     ClassPlacement(KvCache, tier, req.kvCache), ClassPlacement(PrefixCache, tier, req.prefixCache),
     ClassPlacement(Projector, tier, req.projector), ClassPlacement(Workspace, tier, req.workspace)]
  }

  function NonEmpty(entries: seq<ClassPlacement>): seq<ClassPlacement> {
    if entries == [] then []
    else
      var init, last := entries[..|entries| - 1], entries[|entries| - 1];
      if last.bytes == 0 then NonEmpty(init) else NonEmpty(init) + [last]
  }

  function WordSum(start: u64, entries: seq<ClassPlacement>): u64 {
    if entries == [] then start
    else Add64(WordSum(start, entries[..|entries| - 1]), entries[|entries| - 1].bytes)
  }

  function AssignCold(p: PlanValue, req: Request): PlanValue {
    if req.cold == 0 then p
    else if req.allowNvme && req.cold <= req.nvmeBudget then
      p.(classes := p.classes + [ClassPlacement(Cold, Nvme, req.cold)],
         nvme := p.nvme.(assignedBytes := Add64(p.nvme.assignedBytes, req.cold)),
         requirements := p.requirements + [NvmeColdTier])
    else
      p.(classes := p.classes + [ClassPlacement(Cold, Unplaced, req.cold)],
         warnings := p.warnings + [ColdTierUnavailable])
  }

  // ---------------------------------------------------------------- the plan

  /** A plan with its tiers measured and nothing decided yet. */
  function Measured(host: Host, req: Request): PlanValue {
    PlanValue(CapacityExceeded, NoAccelerator,
              TierAllocation(UsableRam(host, req), 0), TierAllocation(BestVram(host.accelerators), 0),
              TierAllocation(if req.allowNvme then req.nvmeBudget else 0, 0), [], [], [])
  }

  /** The hot entries of a cpu_only plan. */
  function CpuHot(m: PlanValue, req: Request): PlanValue {
    m.(decision := CpuOnly, reason := FitsRam, classes := NonEmpty(HotEntries(req, Ram)),
       ram := m.ram.(assignedBytes := WordSum(0, HotEntries(req, Ram))))
  }

  function CpuPlan(m: PlanValue, bandwidth: Option<string>, req: Request): PlanValue {
    var p := AssignCold(CpuHot(m, req), req);
    if bandwidth == Some("low") then p.(warnings := p.warnings + [LowBandwidth]) else p
  }

  /** What the hybrid branch makes of the greedy's outcome. */
  function HybridHot(m: PlanValue, a: Alloc, req: Request): PlanValue {
    m.(decision := if a.unplaced then CapacityExceeded else HybridCandidate,
       reason := if a.unplaced then HotSetTooLarge else AcceleratorAvailable,
       vram := m.vram.(assignedBytes := a.vramAssigned), ram := m.ram.(assignedBytes := a.ramAssigned),
       classes := a.classes, requirements := HybridRequirements(req, a.vramAssigned))
  }

  function HybridPlan(m: PlanValue, req: Request): PlanValue {
    AssignCold(HybridHot(m, Greedy(m, req), req), req)
  }

  function HybridRequirements(req: Request, inVram: u64): seq<Requirement> {
    [HybridPlacement] + (if req.experts > 0 then [ExpertOffload] else [])
    + (if req.kvCache > 0 && inVram > 0 then [KvCachePlacement] else [])
  }

  /** The greedy started on the tiers a plan has measured. */
  function Greedy(m: PlanValue, req: Request): Alloc {
    PlaceAll(Alloc(m.vram.availableBytes, m.ram.availableBytes, false, 0, 0, []), HybridItems(req))
  }

  function ExceededHot(m: PlanValue, req: Request): PlanValue {
    m.(classes := NonEmpty(HotEntries(req, Unplaced)))
  }

  function ExceededPlan(m: PlanValue, req: Request): PlanValue {
    AssignCold(ExceededHot(m, req), req)
  }

  predicate FitsCpu(m: PlanValue, req: Request) {
    HotWord(req) <= m.ram.availableBytes
  }

  predicate MayAccelerate(m: PlanValue, req: Request) {
    req.allowAcceleration && m.vram.availableBytes > 0
  }

  /** The plan for a valid request; `bandwidth` is the class of the last calibration, if any. */
  function BuildPlan(host: Host, bandwidth: Option<string>, req: Request): PlanValue {
    var m := Measured(host, req);
    if FitsCpu(m, req) then CpuPlan(m, bandwidth, req)
    else if MayAccelerate(m, req) then HybridPlan(m, req)
    else ExceededPlan(m, req)
  }
}
