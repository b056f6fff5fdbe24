/** The planner as the source writes it: a plan and a set of counters updated in place. */
module Planner {
  import opened Words
  import opened Wrappers
  import opened PlacementSpec

  /** The locals of `Build` that the allocation functions receive by pointer. */
  class Counters {
    var vram: u64
    var ram: u64
    var unplaced: bool

    constructor (vram: u64, ram: u64)
      ensures this.vram == vram && this.ram == ram && !this.unplaced
    {
      this.vram, this.ram, this.unplaced := vram, ram, false;
    }
  }

  class Plan {
    var decision: Decision
    var reason: Reason
    var ram: TierAllocation
    var vram: TierAllocation
    var nvme: TierAllocation
    var classes: seq<ClassPlacement>
    var requirements: seq<Requirement>
    var warnings: seq<Warning>

    constructor ()
      ensures Value() == PlanValue(CapacityExceeded, NoAccelerator, TierAllocation(0, 0), TierAllocation(0, 0),
                                   TierAllocation(0, 0), [], [], [])
    {
      decision, reason := CapacityExceeded, NoAccelerator;
      ram, vram, nvme := TierAllocation(0, 0), TierAllocation(0, 0), TierAllocation(0, 0);
      classes, requirements, warnings := [], [], [];
    }

    function Value(): PlanValue
      reads this
    {
      PlanValue(decision, reason, ram, vram, nvme, classes, requirements, warnings)
    }

    /** The part of the plan and of the counters that one allocation may change. */
    function Allocation(c: Counters): Alloc
      reads this, c
    {
      Alloc(c.vram, c.ram, c.unplaced, vram.assignedBytes, ram.assignedBytes, classes)
    }

    /** The part of the plan that no allocation changes. */
    function Frame(): PlanValue
      reads this
    {
      Value().(ram := ram.(assignedBytes := 0), vram := vram.(assignedBytes := 0), classes := [])
    }

    method AllocateWhole(kind: Kind, bytes: u64, c: Counters)
      modifies this, c
      ensures Allocation(c) == PlaceWhole(old(Allocation(c)), kind, bytes)
      ensures Frame() == old(Frame())
    {
      if bytes == 0 {
        return;
      }
      if bytes <= c.vram {
        c.vram := c.vram - bytes;
        vram := vram.(assignedBytes := Add64(vram.assignedBytes, bytes));
        classes := classes + [ClassPlacement(kind, Vram, bytes)];
        return;
      }
      if bytes <= c.ram {
        c.ram := c.ram - bytes;
        ram := ram.(assignedBytes := Add64(ram.assignedBytes, bytes));
        classes := classes + [ClassPlacement(kind, Ram, bytes)];
        return;
      }
      c.unplaced := true;
      classes := classes + [ClassPlacement(kind, Unplaced, bytes)];
    }

    /** The VRAM share of a split class; returns what is left of it. */
    method FillVram(kind: Kind, bytes: u64, c: Counters) returns (rest: u64)
      modifies this, c
      ensures Allocation(c) == SplitVram(old(Allocation(c)), kind, bytes)
      ensures rest == bytes - Min(bytes, old(c.vram))
      ensures Frame() == old(Frame())
    {
      var toVram := Min(bytes, c.vram);
      rest := bytes - toVram;
      if toVram > 0 {
        c.vram := c.vram - toVram;
        vram := vram.(assignedBytes := Add64(vram.assignedBytes, toVram));
        classes := classes + [ClassPlacement(kind, Vram, toVram)];
      }
    }

    method FillRam(kind: Kind, bytes: u64, c: Counters) returns (rest: u64)
      modifies this, c
      ensures Allocation(c) == SplitRam(old(Allocation(c)), kind, bytes)
      ensures rest == bytes - Min(bytes, old(c.ram))
      ensures Frame() == old(Frame())
    {
      var toRam := Min(bytes, c.ram);
      rest := bytes - toRam;
      if toRam > 0 {
        c.ram := c.ram - toRam;
        ram := ram.(assignedBytes := Add64(ram.assignedBytes, toRam));
        classes := classes + [ClassPlacement(kind, Ram, toRam)];
      }
    }

    method AllocateSplit(kind: Kind, size: u64, c: Counters)
      modifies this, c
      ensures Allocation(c) == PlaceSplit(old(Allocation(c)), kind, size)
      ensures Frame() == old(Frame())
    {
      if size == 0 {
        return;
      }
      var bytes := FillVram(kind, size, c);
      bytes := FillRam(kind, bytes, c);
      if bytes > 0 {
        c.unplaced := true;
        classes := classes + [ClassPlacement(kind, Unplaced, bytes)];
      }
    }

    method AssignHotToRam(req: Request)
      modifies this
      ensures Value() == old(Value()).(
                         classes := old(classes) + NonEmpty(HotEntries(req, Ram)),
                         ram := old(ram).(assignedBytes := WordSum(old(ram.assignedBytes), HotEntries(req, Ram))))
    {
      var entries := HotEntries(req, Ram);
      for i := 0 to |entries|
        invariant Value() == old(Value()).(
                             classes := old(classes) + NonEmpty(entries[..i]),
                             ram := old(ram).(assignedBytes := WordSum(old(ram.assignedBytes), entries[..i])))
      {
        assert entries[..i + 1][..i] == entries[..i];
        if entries[i].bytes == 0 {
          continue;
        }
        classes := classes + [entries[i]];
        ram := ram.(assignedBytes := Add64(ram.assignedBytes, entries[i].bytes));
      }
      assert entries[..|entries|] == entries;
    }

    method AssignUnplaced(req: Request)
      modifies this
      ensures Value() == old(Value()).(classes := old(classes) + NonEmpty(HotEntries(req, Unplaced)))
    {
      var entries := HotEntries(req, Unplaced);
      for i := 0 to |entries|
        invariant Value() == old(Value()).(classes := old(classes) + NonEmpty(entries[..i]))
      {
        assert entries[..i + 1][..i] == entries[..i];
        if entries[i].bytes > 0 {
          classes := classes + [entries[i]];
        }
      }
      assert entries[..|entries|] == entries;
    }

    method AssignCold(req: Request)
      modifies this
      ensures Value() == PlacementSpec.AssignCold(old(Value()), req)
    {
      if req.cold == 0 {
        return;
      }
      if req.allowNvme && req.cold <= req.nvmeBudget {
        classes := classes + [ClassPlacement(Cold, Nvme, req.cold)];
        nvme := nvme.(assignedBytes := Add64(nvme.assignedBytes, req.cold));
        requirements := requirements + [NvmeColdTier];
        return;
      }
      classes := classes + [ClassPlacement(Cold, Unplaced, req.cold)];
      warnings := warnings + [ColdTierUnavailable];
    }

    /** The six calls of the hybrid branch, in its order. */
    method AllocateHot(req: Request, c: Counters)
      modifies this, c
      ensures Allocation(c) == PlaceAll(old(Allocation(c)), HybridItems(req))
      ensures Frame() == old(Frame())
    {
      ghost var items := HybridItems(req);
      ghost var a := Allocation(c);
      AllocateWhole(KvCache, req.kvCache, c);
      assert PlaceAll(a, items) == PlaceAll(Allocation(c), items[1..]);
      AllocateWhole(Projector, req.projector, c);
      assert items[1..][1..] == items[2..] && PlaceAll(a, items) == PlaceAll(Allocation(c), items[2..]);
      AllocateSplit(ModelWeights, req.model, c);
      assert items[2..][1..] == items[3..] && PlaceAll(a, items) == PlaceAll(Allocation(c), items[3..]);
      AllocateSplit(MoeExperts, req.experts, c);
      assert items[3..][1..] == items[4..] && PlaceAll(a, items) == PlaceAll(Allocation(c), items[4..]);
      AllocateWhole(PrefixCache, req.prefixCache, c);
      assert items[4..][1..] == items[5..] && PlaceAll(a, items) == PlaceAll(Allocation(c), items[5..]);
      AllocateWhole(Workspace, req.workspace, c);
      assert items[5..][1..] == [] && PlaceAll(a, items) == PlaceAll(Allocation(c), []);
    }

    /** The branch of `Build` for a hot set that fits in RAM. */
    method BuildCpuOnly(bandwidth: Option<string>, req: Request)
      requires ram.assignedBytes == 0 && classes == []
      modifies this
      ensures Value() == CpuPlan(old(Value()), bandwidth, req)
    {
      decision := CpuOnly;
      reason := FitsRam;
      AssignHotToRam(req);
      assert Value() == CpuHot(old(Value()), req);
      AssignCold(req);
      if bandwidth == Some("low") {
        warnings := warnings + [LowBandwidth];
      }
    }

    /** The branch of `Build` for one that does not, without acceleration. */
    method BuildExceeded(req: Request)
      requires decision == CapacityExceeded && reason == NoAccelerator && classes == []
      modifies this
      ensures Value() == ExceededPlan(old(Value()), req)
    {
      decision := CapacityExceeded;
      reason := NoAccelerator;
      AssignUnplaced(req);
      assert Value() == ExceededHot(old(Value()), req);
      AssignCold(req);
    }

    /** The hybrid branch of `Build`. */
    method BuildHybrid(req: Request)
      requires vram.assignedBytes == ram.assignedBytes == 0 && classes == [] && requirements == []
      modifies this
      ensures Value() == HybridPlan(old(Value()), req)
    {
      decision := HybridCandidate;
      reason := AcceleratorAvailable;
      var c := new Counters(vram.availableBytes, ram.availableBytes);
      AllocateHot(req, c);
      ghost var a := Greedy(old(Value()), req);
      assert Allocation(c) == a;
      if c.unplaced {
        decision := CapacityExceeded;
        reason := HotSetTooLarge;
      }
      AddRequirements(req);
      AssignCold(req);
    }

    method AddRequirements(req: Request)
      modifies `requirements
      ensures requirements == old(requirements) + HybridRequirements(req, vram.assignedBytes)
    {
      requirements := requirements + [HybridPlacement];
      if req.experts > 0 {
        requirements := requirements + [ExpertOffload];
      }
      if req.kvCache > 0 && vram.assignedBytes > 0 {
        requirements := requirements + [KvCachePlacement];
      }
    }

    method Measure(host: Host, req: Request)
      requires Value() == PlanValue(CapacityExceeded, NoAccelerator, TierAllocation(0, 0), TierAllocation(0, 0),
                                    TierAllocation(0, 0), [], [], [])
      modifies this
      ensures Value() == Measured(host, req)
    {
      var usable := UsableRam(host, req);
      ram := ram.(availableBytes := usable);
      var bestVram := LargestVram(host.accelerators);
      vram := vram.(availableBytes := bestVram);
      if req.allowNvme {
        nvme := nvme.(availableBytes := req.nvmeBudget);
      }
    }
  }

  method LargestVram(accelerators: seq<u64>) returns (best: u64)
    ensures best == BestVram(accelerators)
    ensures forall v :: v in accelerators ==> v <= best
    ensures best == 0 || best in accelerators
  {
    best := 0;
    for i := 0 to |accelerators|
      invariant best == BestVram(accelerators[..i])
      invariant forall k :: 0 <= k < i ==> accelerators[k] <= best
      invariant best == 0 || best in accelerators[..i]
    {
      assert accelerators[..i + 1][..i] == accelerators[..i];
      if accelerators[i] > best {
        best := accelerators[i];
      }
    }
    assert accelerators[..|accelerators|] == accelerators;
  }

  method Build(host: Host, bandwidth: Option<string>, req: Request) returns (plan: Plan, err: Option<RequestError>)
    ensures fresh(plan)
    ensures err == ValidateRequest(req)
    ensures err == None ==> plan.Value() == BuildPlan(host, bandwidth, req)
  {
    plan := new Plan();
    err := ValidateRequest(req);
    if err.Some? {
      return;
    }
    plan.Measure(host, req);
    var hot := HotWord(req);
    if hot <= plan.ram.availableBytes {
      plan.BuildCpuOnly(bandwidth, req);
    } else if req.allowAcceleration && plan.vram.availableBytes > 0 {
      plan.BuildHybrid(req);
    } else {
      plan.BuildExceeded(req);
    }
  }
}
