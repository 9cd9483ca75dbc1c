/**
 The two plan languages of tpu_sync/core/transfer_program_reshard.cc, the framed
 StartTransferRequest and the worker TransferProgram, and the translations between
 them. Messages carry every field, also those no translation reads. Integers that
 are only copied are plain; widths appear where a cast or a check depends on them.
 */
module ReshardPlans {
  import opened Ascents

  datatype Option<T> = None | Some(value: T)

  datatype Status = InvalidArgument | Unimplemented

  datatype Result<T> = Ok(value: T) | Err(error: Status)

  // ---- StartTransferRequest ----

  datatype UnitId = UnitId(jobName: string, jobReplicaId: string, dataName: string, dataReplicaIdx: int)

  /** Entry fields that programs have no place for. */
  datatype EntryExtra = EntryExtra(
    dstPeers: seq<string>, outerSrcStrides: seq<int>, outerDstStrides: seq<int>, outerCounts: seq<int>)

  datatype Entry = Entry(
    dstPeer: string,
    dstShardIdx: int,
    dstOffset: int,
    srcOffset: int,
    size: int,
    srcBlock: int,
    dstBlock: int,
    srcStride: int,
    dstStride: int,
    count: int,
    layerIdx: Option<int>,
    poolGroup: Option<int>,
    extra: EntryExtra)

  datatype PoolGroup = PoolGroup(
    poolIndices: seq<int>,
    dstBlockIds: seq<int>,
    expectedPushes: int,
    extentBytes: seq<int>,
    orderRank: int)

  /** Request fields that programs have no place for. */
  datatype RequestExtra = RequestExtra(
    expectedLayerChunks: map<int, int>,
    broadcastRound: Option<int>,
    broadcastDestinations: seq<(int, seq<string>, seq<string>)>,
    hostTilingMode: int)

  datatype Request = Request(
    srcUnits: seq<UnitId>,
    dstUnits: seq<UnitId>,
    schedules: map<int, seq<Entry>>,
    uuid: int,
    isSender: bool,
    dstMemType: int,
    useBlockChunks: bool,
    expectedBlockCount: int,
    reqId: string,
    dtypeTags: seq<string>,
    transferPools: seq<int>,
    parallelism: int,
    skipD2h: Option<bool>,
    poolGroups: seq<PoolGroup>,
    skipTiling: map<int, bool>,
    wirePools: map<int, int>,
    receiverAddrs: map<string, map<int, seq<int>>>,
    subPlanIndex: int,
    subPlanCount: int,
    extra: RequestExtra)

  /** The fields a cast or check looks at have their wire widths. */
  predicate RequestInRange(r: Request)
  {
    FitsInt64(r.uuid) && SchedulesInRange(r.schedules)
  }

  predicate SchedulesInRange(schedules: map<int, seq<Entry>>)
  {
    forall rank :: rank in schedules ==> EntriesInRange(schedules[rank])
  }

  predicate EntriesInRange(entries: seq<Entry>)
  {
    forall i :: 0 <= i < |entries| ==> FitsInt32(entries[i].srcBlock) && FitsInt32(entries[i].dstBlock)
  }

  const NO_ENTRY_EXTRA := EntryExtra([], [], [], [])
  const NO_REQUEST_EXTRA := RequestExtra(map[], None, [], 0)

  // ---- TransferProgram ----

  const KIND_UNSPECIFIED: int := 0
  const KIND_POOL_RESHARD: int := 2
  const ROLE_SENDER: int := 1
  const ROLE_RECEIVER_ARM: int := 2
  const ROLE_LOCAL_COPY: int := 3

  datatype Envelope = Envelope(
    uuid: int,
    reqId: string,
    kind: int,
    role: int,
    layoutFingerprint: string,
    deadlineMs: int,
    subPlanIndex: int,
    subPlanCount: int)

  datatype Space = SpaceNotSet | PoolIndex(pool: int) | BufferHandle(handle: int) | VariableIndex(variable: int)

  datatype MemoryRef = MemoryRef(space: Space, memType: int, blockId: int)

  datatype Extent = Extent(
    srcOffset: int, dstOffset: int, size: int, srcStride: int, dstStride: int, count: int)

  datatype TransferStep = TransferStep(
    src: MemoryRef,
    dst: MemoryRef,
    extents: seq<Extent>,
    dstPeer: string,
    dstShardIdx: int,
    group: Option<int>,
    sourceRank: int,
    layerIdx: Option<int>)

  datatype FanInGroup = FanInGroup(
    poolIndices: seq<int>,
    dstBlockIds: seq<int>,
    expectedPushes: int,
    extentBytes: seq<int>,
    orderRank: int)

  datatype Completion =
    | ModeNotSet
    | AwaitInline
    | FanIn(groups: seq<FanInGroup>, expectedBlockCount: int)
    | Barrier(roundId: int, expectedCensus: int)

  datatype Policy = Policy(
    parallelism: int, skipD2h: Option<bool>, skipTiling: map<int, bool>, dstMemType: int, useBlockChunks: bool)

  datatype Binding = Binding(
    srcUnits: seq<UnitId>,
    dstUnits: seq<UnitId>,
    transferPools: seq<int>,
    dtypeTags: seq<string>,
    wirePools: map<int, int>,
    receiverAddrs: map<string, map<int, seq<int>>>)

  datatype Program = Program(
    envelope: Envelope, steps: seq<TransferStep>, completion: Completion, policy: Policy, reshard: Binding)

  // ---- scalar conversions ----

  /** Two's-complement reinterpretation, as static_cast between uint64 and int64. */
  function ToUnsigned(x: int): (r: int)
    ensures FitsInt64(x) ==> FitsUInt64(r) && ToSigned(r) == x
  {
    if x < 0 then x + 0x1_0000_0000_0000_0000 else x
  }

  function ToSigned(x: int): (r: int)
    ensures FitsUInt64(x) ==> FitsInt64(r)
  {
    if x >= 0x8000_0000_0000_0000 then x - 0x1_0000_0000_0000_0000 else x
  }

  predicate FitsInt64(x: int)
  {
    -0x8000_0000_0000_0000 <= x < 0x8000_0000_0000_0000
  }

  predicate FitsUInt64(x: int)
  {
    0 <= x < 0x1_0000_0000_0000_0000
  }

  predicate FitsInt32(x: int)
  {
    -0x8000_0000 <= x < 0x8000_0000
  }

  // ---- compiling ----

  function ToFanInGroup(g: PoolGroup): (r: FanInGroup)
  {
    FanInGroup(g.poolIndices, g.dstBlockIds, g.expectedPushes, g.extentBytes, g.orderRank)
  }

  function ToPoolGroup(g: FanInGroup): (r: PoolGroup)
  {
    PoolGroup(g.poolIndices, g.dstBlockIds, g.expectedPushes, g.extentBytes, g.orderRank)
  }

  function FanInGroups(groups: seq<PoolGroup>): (r: seq<FanInGroup>)
  {
    if groups == [] then [] else FanInGroups(groups[..|groups| - 1]) + [ToFanInGroup(groups[|groups| - 1])]
  }

  function PoolGroups(groups: seq<FanInGroup>): (r: seq<PoolGroup>)
  {
    if groups == [] then [] else PoolGroups(groups[..|groups| - 1]) + [ToPoolGroup(groups[|groups| - 1])]
  }

  function StepOf(rank: int, e: Entry): (r: TransferStep)
  {
    TransferStep(
      MemoryRef(SpaceNotSet, 0, e.srcBlock), MemoryRef(SpaceNotSet, 0, e.dstBlock),
      [Extent(e.srcOffset, e.dstOffset, e.size, e.srcStride, e.dstStride, e.count)],
      e.dstPeer, e.dstShardIdx, e.poolGroup, rank, e.layerIdx)
  }

  function StepsOf(rank: int, entries: seq<Entry>): (r: seq<TransferStep>)
  {
    if entries == [] then []
    else StepsOf(rank, entries[..|entries| - 1]) + [StepOf(rank, entries[|entries| - 1])]
  }

  /** The steps of the given ranks, rank block after rank block. */
  function Blocks(schedules: map<int, seq<Entry>>, ranks: seq<int>): (r: seq<TransferStep>)
    requires forall rank :: rank in ranks ==> rank in schedules
  {
    if ranks == [] then []
    else
      var rank := ranks[|ranks| - 1];
      Blocks(schedules, ranks[..|ranks| - 1]) + StepsOf(rank, schedules[rank])
  }

  predicate HasPoolReshardFields(r: Request)
  {
    r.transferPools != [] || r.poolGroups != []
  }

  function ProgramOf(r: Request, steps: seq<TransferStep>): (p: Program)
  {
    Program(
      Envelope(ToUnsigned(r.uuid), r.reqId, KIND_POOL_RESHARD, if r.isSender then ROLE_SENDER else ROLE_RECEIVER_ARM,
               "", 0, r.subPlanIndex, r.subPlanCount),
      steps,
      FanIn(FanInGroups(r.poolGroups), r.expectedBlockCount),
      Policy(r.parallelism, r.skipD2h, r.skipTiling, r.dstMemType, r.useBlockChunks),
      Binding(r.srcUnits, r.dstUnits, r.transferPools, r.dtypeTags, r.wirePools, r.receiverAddrs))
  }

  // ---- lowering ----

  predicate Lowerable(s: TransferStep)
  {
    |s.extents| == 1 && FitsInt32(s.src.blockId) && FitsInt32(s.dst.blockId)
  }

  predicate AllLowerable(steps: seq<TransferStep>)
  {
    forall i :: 0 <= i < |steps| ==> Lowerable(steps[i])
  }

  function EntryOf(s: TransferStep): (r: Entry)
    requires Lowerable(s)
  {
    var e := s.extents[0];
    Entry(s.dstPeer, s.dstShardIdx, e.dstOffset, e.srcOffset, e.size, s.src.blockId, s.dst.blockId,
          e.srcStride, e.dstStride, e.count, s.layerIdx, s.group, NO_ENTRY_EXTRA)
  }

  /** Appends an entry to its rank's schedule, creating the schedule on first use. */
  function AddEntry(schedules: map<int, seq<Entry>>, rank: int, e: Entry): (r: map<int, seq<Entry>>)
  {
    schedules[rank := (if rank in schedules then schedules[rank] else []) + [e]]
  }

  function Schedules(steps: seq<TransferStep>): (r: map<int, seq<Entry>>)
    requires AllLowerable(steps)
  {
    if steps == [] then map[]
    else
      var last := steps[|steps| - 1];
      AddEntry(Schedules(steps[..|steps| - 1]), last.sourceRank, EntryOf(last))
  }

  function RequestOf(p: Program, schedules: map<int, seq<Entry>>): (r: Request)
    requires p.completion.FanIn?
  {
    Request(
      p.reshard.srcUnits, p.reshard.dstUnits, schedules, ToSigned(p.envelope.uuid),
      p.envelope.role == ROLE_SENDER, p.policy.dstMemType, p.policy.useBlockChunks,
      p.completion.expectedBlockCount, p.envelope.reqId, p.reshard.dtypeTags, p.reshard.transferPools,
      p.policy.parallelism, p.policy.skipD2h, PoolGroups(p.completion.groups), p.policy.skipTiling,
      p.reshard.wirePools, p.reshard.receiverAddrs, p.envelope.subPlanIndex, p.envelope.subPlanCount,
      NO_REQUEST_EXTRA)
  }

  ghost function Compile(r: Request): (p: Result<Program>)
  {
    if !HasPoolReshardFields(r) then Err(InvalidArgument)
    else
      AscendingElements(r.schedules.Keys);
      Ok(ProgramOf(r, Blocks(r.schedules, Ascending(r.schedules.Keys))))
  }

  ghost function Lower(p: Program): (r: Result<Request>)
  {
    if !p.completion.FanIn? || !AllLowerable(p.steps) then Err(InvalidArgument)
    else Ok(RequestOf(p, Schedules(p.steps)))
  }

  // ---- admission ----

  predicate StepAdmitted(s: TransferStep, groups: nat)
  {
    && |s.extents| == 1
    && s.src.space == SpaceNotSet && s.dst.space == SpaceNotSet
    && (s.group.Some? ==> 0 <= s.group.value < groups)
  }

  /** Everything the validator asks except a supported role. */
  predicate WellFormed(p: Program)
  {
    && p.completion.FanIn?
    && p.envelope.kind in {KIND_POOL_RESHARD, KIND_UNSPECIFIED}
    && p.completion.groups != []
    && p.reshard.transferPools != []
    && p.steps != []
    && forall i :: 0 <= i < |p.steps| ==> StepAdmitted(p.steps[i], |p.completion.groups|)
  }

  predicate Admitted(p: Program)
  {
    WellFormed(p) && p.envelope.role in {ROLE_SENDER, ROLE_RECEIVER_ARM}
  }

  predicate Int32Blocks(p: Program)
  {
    forall i :: 0 <= i < |p.steps| ==> FitsInt32(p.steps[i].src.blockId) && FitsInt32(p.steps[i].dst.blockId)
  }
}
