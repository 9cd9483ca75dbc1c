/**
 The shared-memory segment of tpu_sync/core/host_memory_allocator.cc and the steps
 one process takes on it. The file outlives processes; the ledger records which
 regions the header has ever completely recorded since the file was created.
 */
module ShmSegment {

  const PAGE := 4096
  const PAYLOAD_OFFSET := 4096
  const MAX_REGIONS := 256

  datatype Option<T> = None | Some(value: T)

  /** The header fields that make two segments compatible. */
  datatype Identity = Identity(
    magic: int, version: int, modelUid: string, numBlocks: int, numHeads: int, headDim: int, itemSize: int)

  datatype Header = Header(identity: Identity, totalPayloadBytes: int, regionCount: int, regionSizes: seq<int>)

  /** What the caller expects; its region table is empty. */
  datatype Schema = Schema(identity: Identity, totalPayloadBytes: int)

  /** `headerPage` says the file is at least one page long; payload follows it. */
  datatype File = File(headerPage: bool, header: Header, payload: seq<int>)

  datatype Store = NoFile | Store(file: File, ledger: seq<int>)

  /** A payload region: absolute file offset and size. */
  datatype Region = Region(offset: int, size: int)

  /** A process's view of the segment it has open. */
  datatype Segment = Segment(warm: bool, cursor: int, allocIndex: int, recovered: int, regions: seq<Region>)

  function Align(size: int): (r: int)
    ensures r % PAGE == 0 && size <= r < size + PAGE
  {
    (size + PAGE - 1) / PAGE * PAGE
  }

  /** A C string ends at its first NUL. */
  function CString(s: string): (r: string)
  {
    if s == [] || s[0] == '\0' then [] else [s[0]] + CString(s[1..])
  }

  predicate Matches(a: Identity, b: Identity)
  {
    && a.magic == b.magic
    && a.version == b.version
    && CString(a.modelUid) == CString(b.modelUid)
    && a.numBlocks == b.numBlocks
    && a.numHeads == b.numHeads
    && a.headDim == b.headDim
    && a.itemSize == b.itemSize
  }

  /** A table of zeros, as a fresh page or an empty schema holds. */
  function Zeros(n: nat): (r: seq<int>)
    ensures |r| == n
  {
    if n == 0 then [] else Zeros(n - 1) + [0]
  }

  function ZeroHeader(): (r: Header)
  {
    Header(Identity(0, 0, "", 0, 0, 0, 0), 0, 0, Zeros(MAX_REGIONS))
  }

  /** The region table of a header has a fixed capacity. */
  predicate FixedTable(store: Store)
  {
    store.Store? ==> |store.file.header.regionSizes| == MAX_REGIONS
  }

  function Sum(s: seq<int>): (r: int)
  {
    if s == [] then 0 else Sum(s[..|s| - 1]) + s[|s| - 1]
  }

  predicate WholePages(sizes: seq<int>)
  {
    forall i :: 0 <= i < |sizes| ==> sizes[i] > 0 && sizes[i] % PAGE == 0
  }

  /** The recorded region table can be replayed. */
  predicate TableOk(header: Header)
  {
    && 0 < header.regionCount <= MAX_REGIONS
    && header.regionCount <= |header.regionSizes|
    && WholePages(header.regionSizes[..header.regionCount])
    && Sum(header.regionSizes[..header.regionCount]) == header.totalPayloadBytes
  }

  /** An existing file a process may warm-attach for a first request of this size. */
  predicate Compatible(file: File, schema: Schema, aligned: int)
  {
    && file.headerPage
    && Matches(file.header.identity, schema.identity)
    && file.header.totalPayloadBytes <= |file.payload|
    && TableOk(file.header)
    && file.header.regionSizes[0] == aligned
  }

  // ---- what the environment decides ----

  /** Where in its header writes a process dies, if it does. */
  datatype Death =
    | Never
    | AfterUnlink
    | AfterCreate
    | AfterHeaderReserve
    | DuringHeaderCopy(torn: Identity, tornTotal: int)
    | AfterHeaderCopy
    | AfterRegionSize
    | AfterRegionCount
    | AfterReserve
    | DuringTouch(pages: nat)
    | AfterTotal

  /** `unlinks` and `cleansUp` are removals whose result the allocator ignores. */
  datatype Env = Env(
    locks: bool,
    opensOld: bool,
    oldHeaderMaps: bool,
    unlinks: bool,
    creates: bool,
    headerReserved: bool,
    newHeaderMaps: bool,
    cleansUp: bool,
    reserved: bool,
    grownTo: nat,
    maps: bool,
    dies: Death)

  datatype Outcome =
    | Handed(region: Region)
    | Empty
    | GeometryMismatch
    | TableFull
    | ReserveFailed
    | MapFailed
    | OpenFailed
    | Died

  datatype Step = Step(store: Store, segment: Option<Segment>, outcome: Outcome)

  // ---- opening ----

  function NewHeader(schema: Schema): (r: Header)
  {
    Header(schema.identity, schema.totalPayloadBytes, 0, Zeros(MAX_REGIONS))
  }

  function FreshFile(header: Header): (r: Store)
  {
    Store(File(true, header, []), [])
  }

  /** An old file that cannot be opened or removed makes the exclusive creation fail. */
  predicate OldFileStays(store: Store, env: Env)
  {
    store.Store? && !(env.opensOld && env.unlinks)
  }

  predicate AttachesWarm(store: Store, schema: Schema, aligned: int, env: Env)
  {
    store.Store? && env.opensOld && env.oldHeaderMaps && Compatible(store.file, schema, aligned)
  }

  /** Decides warm or cold under the creation lock and, if cold, re-creates and formats the file. */
  function Open(store: Store, schema: Schema, aligned: int, env: Env): (r: Step)
    requires FixedTable(store)
    ensures r.segment.Some? ==> Allocatable(r.store, r.segment.value)
  {
    if !env.locks then Step(store, None, OpenFailed)
    else if AttachesWarm(store, schema, aligned, env) then
      Step(store, Some(Segment(true, 0, 0, store.file.header.regionCount, [])), Empty)
    else if OldFileStays(store, env) then Step(store, None, OpenFailed)
    else Format(schema, env)
  }

  /** What a failed creation leaves when its own removal fails too. */
  function Leftover(headerPage: bool, env: Env): (r: Store)
  {
    if env.cleansUp then NoFile else Store(File(headerPage, ZeroHeader(), []), [])
  }

  function Format(schema: Schema, env: Env): (r: Step)
  {
    if env.dies == AfterUnlink then Step(NoFile, None, Died)
    else if !env.creates then Step(NoFile, None, OpenFailed)
    else if env.dies == AfterCreate then Step(Store(File(false, ZeroHeader(), []), []), None, Died)
    else if !env.headerReserved then Step(Leftover(false, env), None, OpenFailed)
    else if env.dies == AfterHeaderReserve then Step(FreshFile(ZeroHeader()), None, Died)
    else if !env.newHeaderMaps then Step(Leftover(true, env), None, OpenFailed)
    else if env.dies.DuringHeaderCopy? then
      Step(FreshFile(Header(env.dies.torn, env.dies.tornTotal, 0, Zeros(MAX_REGIONS))), None, Died)
    else if env.dies == AfterHeaderCopy then Step(FreshFile(NewHeader(schema)), None, Died)
    else
      Step(FreshFile(NewHeader(schema).(totalPayloadBytes := 0)), Some(Segment(false, 0, 0, 0, [])), Empty)
  }

  // ---- allocating ----

  function RecordSize(store: Store, index: nat, aligned: int): (r: Store)
    requires store.Store? && index < |store.file.header.regionSizes|
  {
    var header := store.file.header;
    store.(file := store.file.(header := header.(regionSizes := header.regionSizes[index := aligned])))
  }

  function RecordCount(store: Store, count: nat): (r: Store)
    requires store.Store?
  {
    store.(file := store.file.(header := store.file.header.(regionCount := count)))
  }

  /** Extends the payload with zeros up to `length` bytes. */
  function Extend(payload: seq<int>, length: int): (r: seq<int>)
  {
    if length <= |payload| then payload else payload + Zeros(length - |payload|)
  }

  function Reserve(store: Store, length: int): (r: Store)
    requires store.Store?
  {
    store.(file := store.file.(payload := Extend(store.file.payload, length)))
  }

  /** Zeroes the first byte of each of `pages` pages from `start`. */
  function TouchPages(payload: seq<int>, start: nat, pages: nat): (r: seq<int>)
    requires start + pages * PAGE <= |payload|
    ensures |r| == |payload|
  {
    if pages == 0 then payload
    else TouchPages(payload, start, pages - 1)[start + (pages - 1) * PAGE := 0]
  }

  function Touch(store: Store, start: nat, pages: nat): (r: Store)
    requires store.Store? && start + pages * PAGE <= |store.file.payload|
  {
    store.(file := store.file.(payload := TouchPages(store.file.payload, start, pages)))
  }

  /** The cumulative total moves only when the cursor passes it. */
  function RecordTotal(store: Store, cursor: int, aligned: int): (r: Store)
    requires store.Store?
  {
    if cursor > store.file.header.totalPayloadBytes then
      Store(store.file.(header := store.file.header.(totalPayloadBytes := cursor)), store.ledger + [aligned])
    else store
  }

  predicate Allocatable(store: Store, segment: Segment)
  {
    && store.Store?
    && FixedTable(store)
    && 0 <= segment.allocIndex <= MAX_REGIONS
    && segment.recovered <= MAX_REGIONS
    && 0 <= segment.cursor
  }

  function Allocate(store: Store, segment: Segment, size: int, env: Env): (r: Step)
    requires Allocatable(store, segment) && size > 0
  {
    var aligned := Align(size);
    var index := segment.allocIndex;
    if index < segment.recovered then
      if store.file.header.regionSizes[index] != aligned then Step(store, Some(segment), GeometryMismatch)
      else if !env.maps then Step(store, Some(segment), MapFailed)
      else HandOut(store, segment, aligned, env)
    else if index >= MAX_REGIONS then Step(store, Some(segment), TableFull)
    else Append(store, segment, aligned, env)
  }

  /** The region is entered in the table before its range is secured. */
  function Append(store: Store, segment: Segment, aligned: int, env: Env): (r: Step)
    requires Allocatable(store, segment) && segment.allocIndex < MAX_REGIONS
    requires aligned > 0 && aligned % PAGE == 0
  {
    var sized := RecordSize(store, segment.allocIndex, aligned);
    var counted := RecordCount(sized, segment.allocIndex + 1);
    if env.dies == AfterRegionSize then Step(sized, None, Died)
    else if env.dies == AfterRegionCount then Step(counted, None, Died)
    else SecureRange(counted, segment, aligned, env)
  }

  function SecureRange(store: Store, segment: Segment, aligned: int, env: Env): (r: Step)
    requires store.Store? && 0 <= segment.cursor && aligned > 0 && aligned % PAGE == 0
  {
    var end := segment.cursor + aligned;
    if !env.reserved then
      Step(Reserve(store, if env.grownTo < end then env.grownTo else end), Some(segment), ReserveFailed)
    else
      var reserved := Reserve(store, end);
      if env.dies == AfterReserve then Step(reserved, None, Died)
      else if !env.maps then Step(reserved, Some(segment), MapFailed)
      else TouchAndHandOut(reserved, segment, aligned, env)
  }

  function TouchAndHandOut(store: Store, segment: Segment, aligned: int, env: Env): (r: Step)
    requires store.Store? && aligned > 0 && aligned % PAGE == 0
    requires 0 <= segment.cursor && segment.cursor + aligned <= |store.file.payload|
  {
    if env.dies.DuringTouch? && env.dies.pages <= aligned / PAGE then
      Step(Touch(store, segment.cursor, env.dies.pages), None, Died)
    else HandOut(Touch(store, segment.cursor, aligned / PAGE), segment, aligned, env)
  }

  /** The tail of every successful allocation. */
  function HandOut(store: Store, segment: Segment, aligned: int, env: Env): (r: Step)
    requires store.Store?
  {
    var cursor := segment.cursor + aligned;
    var total := RecordTotal(store, cursor, aligned);
    var region := Region(PAYLOAD_OFFSET + segment.cursor, aligned);
    if env.dies == AfterTotal then Step(total, None, Died)
    else
      Step(total,
           Some(segment.(cursor := cursor,
                         allocIndex := segment.allocIndex + 1,
                         regions := segment.regions + [region])),
           Handed(region))
  }

  // ---- processes ----

  /** A running process; what it found at boot is kept for the record. */
  datatype Process = Process(
    schema: Schema, segment: Option<Segment>, bootLedger: seq<int>, bootPayload: seq<int>)

  datatype World = World(store: Store, process: Option<Process>)

  datatype Action =
    | Boot(schema: Schema)
    | Request(size: nat, env: Env)
    | Write(region: nat, at: nat, byte: int)
    | Exit

  function Ledger(store: Store): (r: seq<int>)
  {
    if store.Store? then store.ledger else []
  }

  function Payload(store: Store): (r: seq<int>)
  {
    if store.Store? then store.file.payload else []
  }

  predicate Enabled(w: World, a: Action)
  {
    match a
    case Boot(_) => w.process.None?
    case Request(size, env) =>
      && w.process.Some? && FixedTable(w.store)
      && (w.process.value.segment.Some? ==> Allocatable(w.store, w.process.value.segment.value))
    case Write(region, at, byte) =>
      && w.process.Some? && w.process.value.segment.Some? && w.store.Store?
      && region < |w.process.value.segment.value.regions|
      && at < w.process.value.segment.value.regions[region].size
      && 0 <= w.process.value.segment.value.regions[region].offset - PAYLOAD_OFFSET + at < |w.store.file.payload|
    case Exit => w.process.Some?
  }

  /** One request: open the segment first if this process has not yet. */
  function Serve(store: Store, process: Process, size: nat, env: Env): (r: Step)
    requires FixedTable(store)
    requires process.segment.Some? ==> Allocatable(store, process.segment.value)
  {
    if size == 0 then Step(store, process.segment, Empty)
    else if process.segment.Some? then Allocate(store, process.segment.value, size, env)
    else
      var attached := Open(store, process.schema, Align(size), env);
      if attached.segment.None? then attached
      else Allocate(attached.store, attached.segment.value, size, env)
  }

  function Poke(store: Store, position: nat, byte: int): (r: Store)
    requires store.Store? && position < |store.file.payload|
  {
    store.(file := store.file.(payload := store.file.payload[position := byte]))
  }

  function Apply(w: World, a: Action): (r: World)
    requires Enabled(w, a)
  {
    match a
    case Boot(schema) => World(w.store, Some(Process(schema, None, Ledger(w.store), Payload(w.store))))
    case Request(size, env) =>
      var step := Serve(w.store, w.process.value, size, env);
      World(step.store, if step.outcome == Died then None else Some(w.process.value.(segment := step.segment)))
    case Write(region, at, byte) =>
      w.(store := Poke(w.store, w.process.value.segment.value.regions[region].offset - PAYLOAD_OFFSET + at, byte))
    case Exit => w.(process := None)
  }

  const START := World(NoFile, None)

  predicate CanRun(w: World, actions: seq<Action>)
    decreases |actions|
  {
    actions == [] || (Enabled(w, actions[0]) && CanRun(Apply(w, actions[0]), actions[1..]))
  }

  function Run(w: World, actions: seq<Action>): (r: World)
    requires CanRun(w, actions)
    decreases |actions|
  {
    if actions == [] then w else Run(Apply(w, actions[0]), actions[1..])
  }
}
