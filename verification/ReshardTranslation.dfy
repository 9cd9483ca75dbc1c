/**
 The loops of tpu_sync/core/transfer_program_reshard.cc, proved equal to the
 translations of ReshardPlans.
 */
module ReshardTranslation {
  import opened Ascents
  import opened ReshardPlans
  import opened ReshardRoundTrips

  datatype LoweringClass = Sender | Arm

  /**
   Admits exactly the well-formed fan-in programs of a supported role. Unsupported
   contracts and local copies are unimplemented; everything else is invalid.
   */
  method NormalizeReshardProgram(p: Program) returns (r: Result<LoweringClass>)
    ensures r.Ok? <==> Admitted(p)
    ensures r.Ok? ==> (r.value == Sender <==> p.envelope.role == ROLE_SENDER)
    ensures r == Err(Unimplemented)
       <==> p.completion.AwaitInline? || p.completion.Barrier? || (WellFormed(p) && p.envelope.role == ROLE_LOCAL_COPY)
  {
    match p.completion
    case AwaitInline => return Err(Unimplemented);
    case Barrier(_, _) => return Err(Unimplemented);
    case ModeNotSet => return Err(InvalidArgument);
    case FanIn(groups, _) =>
      if p.envelope.kind != KIND_POOL_RESHARD && p.envelope.kind != KIND_UNSPECIFIED { return Err(InvalidArgument); }
      if groups == [] { return Err(InvalidArgument); }
      if p.reshard.transferPools == [] { return Err(InvalidArgument); }
      if p.steps == [] { return Err(InvalidArgument); }
      for i := 0 to |p.steps|
        invariant forall j :: 0 <= j < i ==> StepAdmitted(p.steps[j], |groups|)
      {
        var step := p.steps[i];
        if |step.extents| != 1 { return Err(InvalidArgument); }
        if step.src.space != SpaceNotSet || step.dst.space != SpaceNotSet { return Err(InvalidArgument); }
        if step.group.Some? && (step.group.value < 0 || step.group.value >= |groups|) { return Err(InvalidArgument); }
      }
      if p.envelope.role == ROLE_SENDER { return Ok(Sender); }
      if p.envelope.role == ROLE_RECEIVER_ARM { return Ok(Arm); }
      if p.envelope.role == ROLE_LOCAL_COPY { return Err(Unimplemented); }
      return Err(InvalidArgument);
  }

  method CompileStartTransfer(r: Request) returns (out: Result<Program>)
    ensures out == Compile(r)
  {
    if !HasPoolReshardFields(r) { return Err(InvalidArgument); }
    var groups := [];
    for i := 0 to |r.poolGroups|
      invariant groups == FanInGroups(r.poolGroups[..i])
    {
      assert r.poolGroups[..i + 1][..i] == r.poolGroups[..i];
      groups := groups + [ToFanInGroup(r.poolGroups[i])];
    }
    assert r.poolGroups[..|r.poolGroups|] == r.poolGroups;
    var steps := CompileSteps(r.schedules);
    out := Ok(Program(
      Envelope(ToUnsigned(r.uuid), r.reqId, KIND_POOL_RESHARD, if r.isSender then ROLE_SENDER else ROLE_RECEIVER_ARM,
               "", 0, r.subPlanIndex, r.subPlanCount),
      steps,
      FanIn(groups, r.expectedBlockCount),
      Policy(r.parallelism, r.skipD2h, r.skipTiling, r.dstMemType, r.useBlockChunks),
      Binding(r.srcUnits, r.dstUnits, r.transferPools, r.dtypeTags, r.wirePools, r.receiverAddrs)));
  }

  /** Rank blocks in ascending rank order, whatever order the map yields its ranks in. */
  method CompileSteps(schedules: map<int, seq<Entry>>) returns (steps: seq<TransferStep>)
    ensures forall rank :: rank in Ascending(schedules.Keys) ==> rank in schedules
    ensures steps == Blocks(schedules, Ascending(schedules.Keys))
  {
    var ranks := ListAscending(schedules.Keys);
    AscendingElements(schedules.Keys);
    assert forall rank :: rank in ranks ==> rank in schedules;
    steps := [];
    for i := 0 to |ranks|
      invariant steps == Blocks(schedules, ranks[..i])
    {
      assert ranks[i] in ranks;
      var entries := schedules[ranks[i]];
      steps := CompileRank(ranks[i], entries, steps);
      assert ranks[..i + 1][..i] == ranks[..i];
    }
    assert ranks[..|ranks|] == ranks;
  }

  method CompileRank(rank: int, entries: seq<Entry>, before: seq<TransferStep>) returns (steps: seq<TransferStep>)
    ensures steps == before + StepsOf(rank, entries)
  {
    steps := before;
    for j := 0 to |entries|
      invariant steps == before + StepsOf(rank, entries[..j])
    {
      assert entries[..j + 1][..j] == entries[..j];
      steps := steps + [StepOf(rank, entries[j])];
    }
    assert entries[..|entries|] == entries;
  }

  method LowerToStartTransfer(p: Program) returns (out: Result<Request>)
    ensures out == Lower(p)
  {
    if !p.completion.FanIn? { return Err(InvalidArgument); }
    var groups := [];
    for i := 0 to |p.completion.groups|
      invariant groups == PoolGroups(p.completion.groups[..i])
    {
      assert p.completion.groups[..i + 1][..i] == p.completion.groups[..i];
      groups := groups + [ToPoolGroup(p.completion.groups[i])];
    }
    assert p.completion.groups[..|p.completion.groups|] == p.completion.groups;
    var schedules := LowerSteps(p.steps);
    if schedules.None? { return Err(InvalidArgument); }
    out := Ok(Request(
      p.reshard.srcUnits, p.reshard.dstUnits, schedules.value, ToSigned(p.envelope.uuid),
      p.envelope.role == ROLE_SENDER, p.policy.dstMemType, p.policy.useBlockChunks,
      p.completion.expectedBlockCount, p.envelope.reqId, p.reshard.dtypeTags, p.reshard.transferPools,
      p.policy.parallelism, p.policy.skipD2h, groups, p.policy.skipTiling,
      p.reshard.wirePools, p.reshard.receiverAddrs, p.envelope.subPlanIndex, p.envelope.subPlanCount,
      NO_REQUEST_EXTRA));
  }

  method LowerSteps(steps: seq<TransferStep>) returns (schedules: Option<map<int, seq<Entry>>>)
    ensures schedules.Some? <==> AllLowerable(steps)
    ensures schedules.Some? ==> schedules.value == Schedules(steps)
  {
    var lowered: map<int, seq<Entry>> := map[];
    for i := 0 to |steps|
      invariant AllLowerable(steps[..i]) && lowered == Schedules(steps[..i])
    {
      var step := steps[i];
      if |step.extents| != 1 { return None; }
      if !FitsInt32(step.src.blockId) { return None; }
      if !FitsInt32(step.dst.blockId) { return None; }
      assert steps[..i + 1][..i] == steps[..i];
      lowered := AddEntry(lowered, step.sourceRank, EntryOf(step));
    }
    assert steps[..|steps|] == steps;
    return Some(lowered);
  }

  /** The sender's block list is ascending, without repetition, and complete. */
  method DeriveSenderSourceBlockIds(r: Request) returns (ids: seq<int>)
    ensures StrictlyAscending(ids) && forall x :: x in ids <==> x in SourceBlocks(r.schedules)
  {
    var seen: set<int> := {};
    var rest := r.schedules.Keys;
    while rest != {}
      invariant rest <= r.schedules.Keys
      invariant seen == SourceBlocks(map rank | rank in r.schedules && rank !in rest :: r.schedules[rank])
      decreases |rest|
    {
      assert (forall y :: y !in rest) ==> rest == {};
      var rank :| rank in rest;
      var added := BlocksOfEntries(r.schedules[rank]);
      VisitRank(r.schedules, rest, rank);
      seen := seen + added;
      rest := rest - {rank};
    }
    assert r.schedules == map rank | rank in r.schedules && rank !in rest :: r.schedules[rank];
    ids := ListAscending(seen);
    AscendingElements(seen);
    AscendingIsStrict(seen);
  }

  method BlocksOfEntries(entries: seq<Entry>) returns (blocks: set<int>)
    ensures blocks == set i | 0 <= i < |entries| :: entries[i].srcBlock
  {
    blocks := {};
    for i := 0 to |entries|
      invariant blocks == set j | 0 <= j < i :: entries[j].srcBlock
    {
      blocks := blocks + {entries[i].srcBlock};
    }
  }

  lemma VisitRank(schedules: map<int, seq<Entry>>, rest: set<int>, rank: int)
    requires rest <= schedules.Keys && rank in rest
    ensures SourceBlocks(map k | k in schedules && k !in rest - {rank} :: schedules[k])
         == SourceBlocks(map k | k in schedules && k !in rest :: schedules[k])
          + set i | 0 <= i < |schedules[rank]| :: schedules[rank][i].srcBlock
  {
    var before := map k | k in schedules && k !in rest :: schedules[k];
    var after := map k | k in schedules && k !in rest - {rank} :: schedules[k];
    assert after == before[rank := schedules[rank]];
    AddRank(before, rank, schedules[rank]);
  }

  lemma AddRank(before: map<int, seq<Entry>>, rank: int, entries: seq<Entry>)
    requires rank !in before
    ensures SourceBlocks(before[rank := entries])
         == SourceBlocks(before) + set i | 0 <= i < |entries| :: entries[i].srcBlock
  {
    var after := before[rank := entries];
    forall x | x in SourceBlocks(before)
      ensures x in SourceBlocks(after)
    {
      var k, i :| k in before && 0 <= i < |before[k]| && before[k][i].srcBlock == x;
      assert after[k][i].srcBlock == x;
    }
    forall x | x in set i | 0 <= i < |entries| :: entries[i].srcBlock
      ensures x in SourceBlocks(after)
    {
      var i :| 0 <= i < |entries| && entries[i].srcBlock == x;
      assert after[rank][i].srcBlock == x;
    }
  }

  /** The arm's block list is the concatenation of the groups' lists. */
  method DeriveArmChipBlockIds(r: Request) returns (ids: seq<int>)
    ensures ids == DestinationBlocks(r.poolGroups)
  {
    ids := [];
    for i := 0 to |r.poolGroups|
      invariant ids == DestinationBlocks(r.poolGroups[..i])
    {
      assert r.poolGroups[..i + 1][..i] == r.poolGroups[..i];
      ids := ids + r.poolGroups[i].dstBlockIds;
    }
    assert r.poolGroups[..|r.poolGroups|] == r.poolGroups;
  }
}
