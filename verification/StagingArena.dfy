/**
 The staging arena of tpu_sync/core/staging_arena.cc: a growing table of layer
 objects handed out as slots through move-only handles.
 */
module StagingArena {
  import opened Arith

  const NULL: nat := 0

  /** `hostPtr` is an address, null when zero. */
  datatype Shard = Shard(hostPtr: nat, hostSize: nat, deviceSize: nat, device: int, tiledPtr: nat, tiledSize: nat)

  datatype Template = Template(allocSize: nat, deviceSize: nat, tiledSize: nat, device: int)

  datatype Config = Config(
    initialCapacity: nat, numShards: nat, shardHostSize: nat, allowGrowth: bool, releaseOnFree: bool)

  /** What the host allocator answers to one call. */
  datatype Answer = Refused | Buffer(ptr: nat, size: nat)

  datatype Status = Ok | ResourceExhausted | FailedPrecondition | AllocatorError | Internal

  const EMPTY_SHARD := Shard(NULL, 0, 0, 0, NULL, 0)

  class Layer {
    var shards: seq<Shard>

    constructor (shards: seq<Shard>)
      ensures this.shards == shards
    {
      this.shards := shards;
    }
  }

  class Handle {
    var arena: Arena?
    var layerIdx: nat
    var layer: Layer?

    constructor (arena: Arena?, layerIdx: nat, layer: Layer?)
      ensures this.arena == arena && this.layerIdx == layerIdx && this.layer == layer
    {
      this.arena, this.layerIdx, this.layer := arena, layerIdx, layer;
    }
  }

  // ---- shards ----

  function Cleared(s: Shard): (r: Shard)
  {
    s.(hostPtr := NULL, hostSize := 0, tiledPtr := NULL, tiledSize := 0)
  }

  function AllCleared(shards: seq<Shard>): (r: seq<Shard>)
    ensures |r| == |shards| && forall s :: 0 <= s < |shards| ==> r[s] == Cleared(shards[s])
  {
    if shards == [] then [] else AllCleared(shards[..|shards| - 1]) + [Cleared(shards[|shards| - 1])]
  }

  /** A buffer that is there is at least as large as its template asks. */
  predicate Fits(shards: seq<Shard>, templates: seq<Template>)
    requires |shards| == |templates|
  {
    forall s :: 0 <= s < |shards| ==> shards[s].hostPtr != NULL ==> shards[s].hostSize >= templates[s].allocSize
  }

  /** Every shard that needs host memory has enough of it. */
  predicate Backed(shards: seq<Shard>, templates: seq<Template>)
    requires |shards| == |templates|
  {
    forall s :: 0 <= s < |shards| && templates[s].allocSize > 0 ==>
      shards[s].hostPtr != NULL && shards[s].hostSize >= templates[s].allocSize
  }

  /** Nothing is left to allocate. */
  predicate Complete(shards: seq<Shard>, templates: seq<Template>)
    requires |shards| == |templates|
  {
    forall s :: 0 <= s < |shards| ==> shards[s].hostPtr != NULL || templates[s].allocSize == 0
  }

  predicate NoDuplicates(s: seq<nat>)
  {
    forall i, j :: 0 <= i < j < |s| ==> s[i] != s[j]
  }

  ghost predicate Complement(free: seq<nat>, inUse: seq<bool>)
  {
    forall i: nat :: i in free <==> i < |inUse| && !inUse[i]
  }

  /** The template a supplied shard gets: its own size, else the configured, else the device size. */
  function TemplateOf(s: Shard, config: Config): (r: Template)
    ensures s.hostPtr != NULL ==>
              (s.hostSize >= r.allocSize <==> s.hostSize > 0 || (config.shardHostSize == 0 && s.deviceSize == 0))
  {
    Template(if s.hostSize > 0 then s.hostSize
             else if config.shardHostSize > 0 then config.shardHostSize else s.deviceSize,
             s.deviceSize, s.tiledSize, s.device)
  }

  // ---- slots ----

  /** Slot `i` is found in chunk `i / n` at `i % n`, for chunks of `n` layers. */
  ghost predicate Located(chunks: seq<seq<Layer>>, template: seq<seq<Template>>,
                          layer: Layer, needs: seq<Template>, i: nat)
  {
    var n := |template|;
    && n > 0 && i / n < |chunks| && i % n < |chunks[i / n]|
    && chunks[i / n][i % n] == layer
    && template[i % n] == needs
  }

  ghost predicate Apart(layers: seq<Layer>)
  {
    forall i, j :: 0 <= i < j < |layers| ==> layers[i] != layers[j]
  }

  ghost predicate ChunksHold(chunks: seq<seq<Layer>>, template: seq<seq<Template>>,
                             slots: seq<Layer>, needs: seq<seq<Template>>)
  {
    && |slots| == |needs| == |chunks| * |template|
    && (forall i {:trigger Located(chunks, template, slots[i], needs[i], i)} ::
          0 <= i < |slots| ==> Located(chunks, template, slots[i], needs[i], i))
    && Apart(slots)
  }

  lemma {:induction false} ChunkAdded(chunks: seq<seq<Layer>>, template: seq<seq<Template>>,
                                      slots: seq<Layer>, needs: seq<seq<Template>>, chunk: seq<Layer>)
    requires ChunksHold(chunks, template, slots, needs)
    requires |chunk| == |template| && Apart(slots + chunk)
    ensures ChunksHold(chunks + [chunk], template, slots + chunk, needs + template)
  {
    var base, n := |slots|, |template|;
    assert (|chunks| + 1) * n == |chunks| * n + n;
    forall i | 0 <= i < base + n
      ensures Located(chunks + [chunk], template, (slots + chunk)[i], (needs + template)[i], i)
    {
      if i >= base {
        NewSlotLocated(chunks, chunk, template, i - base);
      } else {
        assert Located(chunks, template, slots[i], needs[i], i);
        OldSlotLocated(chunks, chunk, template, slots[i], needs[i], i);
      }
    }
  }

  lemma OldSlotLocated(chunks: seq<seq<Layer>>, chunk: seq<Layer>, template: seq<seq<Template>>,
                       layer: Layer, needs: seq<Template>, i: nat)
    requires Located(chunks, template, layer, needs, i)
    ensures Located(chunks + [chunk], template, layer, needs, i)
  {
  }

  lemma {:induction false} NewSlotLocated(chunks: seq<seq<Layer>>, chunk: seq<Layer>,
                                          template: seq<seq<Template>>, k: nat)
    requires k < |chunk| == |template|
    ensures |chunks| * |template| + k >= 0
    ensures Located(chunks + [chunk], template, chunk[k], template[k], |chunks| * |template| + k)
  {
    DivModUnique(|chunks|, |template|, k);
  }

  /** The numbers from `from` on, in order. */
  function Range(from: nat, n: nat): (r: seq<nat>)
    ensures |r| == n && forall k :: 0 <= k < n ==> r[k] == from + k
  {
    if n == 0 then [] else Range(from, n - 1) + [from + n - 1]
  }

  function Falses(n: nat): (r: seq<bool>)
    ensures |r| == n && forall k :: 0 <= k < n ==> !r[k]
  {
    if n == 0 then [] else Falses(n - 1) + [false]
  }

  function EmptyShards(n: nat): (r: seq<Shard>)
    ensures |r| == n && forall k :: 0 <= k < n ==> r[k] == EMPTY_SHARD
  {
    if n == 0 then [] else EmptyShards(n - 1) + [EMPTY_SHARD]
  }

  lemma GrowFreeList(free: seq<nat>, inUse: seq<bool>, n: nat)
    requires NoDuplicates(free) && Complement(free, inUse)
    ensures NoDuplicates(free + Range(|inUse|, n)) && Complement(free + Range(|inUse|, n), inUse + Falses(n))
  {
    var grown, used := free + Range(|inUse|, n), inUse + Falses(n);
    forall k | 0 <= k < |free|
      ensures free[k] < |inUse|
    {
      assert free[k] in free;
    }
    forall i: nat
      ensures i in grown <==> i < |used| && !used[i]
    {
      if |inUse| <= i < |inUse| + n {
        assert Range(|inUse|, n)[i - |inUse|] == i;
      }
    }
  }

  lemma TakeFront(free: seq<nat>, inUse: seq<bool>)
    requires NoDuplicates(free) && Complement(free, inUse) && free != []
    ensures free[0] in free && free[0] < |inUse| && !inUse[free[0]]
    ensures NoDuplicates(free[1..]) && Complement(free[1..], inUse[free[0] := true])
  {
    assert free == [free[0]] + free[1..];
    assert free[0] in free;
    forall i: nat
      ensures i in free[1..] <==> i in free && i != free[0]
    {
    }
  }

  // ---- templates ----

  function Row(shards: seq<Shard>, config: Config): (r: seq<Template>)
    ensures |r| == |shards| && forall s :: 0 <= s < |shards| ==> r[s] == TemplateOf(shards[s], config)
  {
    if shards == [] then [] else Row(shards[..|shards| - 1], config) + [TemplateOf(shards[|shards| - 1], config)]
  }

  function Rows(layers: seq<seq<Shard>>, config: Config): (r: seq<seq<Template>>)
    ensures |r| == |layers| && forall i :: 0 <= i < |layers| ==> r[i] == Row(layers[i], config)
  {
    if layers == [] then [] else Rows(layers[..|layers| - 1], config) + [Row(layers[|layers| - 1], config)]
  }

  /** The template of an arena built from its configuration alone. */
  function ConfiguredRow(config: Config, shards: nat): (r: seq<Template>)
    ensures |r| == shards
  {
    if shards == 0 then []
    else ConfiguredRow(config, shards - 1) + [Template(config.shardHostSize, config.shardHostSize, 0, 0)]
  }

  function ConfiguredRows(config: Config, layers: nat): (r: seq<seq<Template>>)
    ensures |r| == layers && forall i :: 0 <= i < layers ==> r[i] == ConfiguredRow(config, config.numShards)
  {
    if layers == 0 then [] else ConfiguredRows(config, layers - 1) + [ConfiguredRow(config, config.numShards)]
  }

  /** A supplied buffer without a size is undersized unless nothing else gives its template a size. */
  predicate SuppliedFits(layers: seq<seq<Shard>>, config: Config)
  {
    forall i, s :: 0 <= i < |layers| && 0 <= s < |layers[i]| && layers[i][s].hostPtr != NULL ==>
      layers[i][s].hostSize > 0 || (config.shardHostSize == 0 && layers[i][s].deviceSize == 0)
  }

  lemma SuppliedRowsFit(layers: seq<seq<Shard>>, config: Config)
    ensures SuppliedFits(layers, config) <==> forall i :: 0 <= i < |layers| ==> Fits(layers[i], Row(layers[i], config))
  {
    if forall i :: 0 <= i < |layers| ==> Fits(layers[i], Row(layers[i], config)) {
      forall i, s | 0 <= i < |layers| && 0 <= s < |layers[i]| && layers[i][s].hostPtr != NULL
        ensures layers[i][s].hostSize > 0 || (config.shardHostSize == 0 && layers[i][s].deviceSize == 0)
      {
        assert Fits(layers[i], Row(layers[i], config));
        assert Row(layers[i], config)[s] == TemplateOf(layers[i][s], config);
      }
    }
  }

  class Arena {
    var config: Config
    const hasAllocator: bool
    const answers: nat -> Answer
    var calls: nat
    var capacity: nat
    var template: seq<seq<Template>>
    var chunks: seq<seq<Layer>>
    var freeSlots: seq<nat>
    var inUse: seq<bool>

    /** The layers by slot number, and the template each follows. */
    ghost var slots: seq<Layer>
    ghost var needs: seq<seq<Template>>
    /** Every handle made for this arena, and the one that holds each slot in use. */
    ghost var handles: set<Handle>
    ghost var owner: map<nat, Handle>
    /** Whether every buffer supplied at construction was as large as its template. */
    ghost const sized: bool

    /** Chunks of equal size hold the slots in order; no two slots share a layer. */
    ghost predicate Shape()
      reads this`capacity, this`template, this`chunks, this`inUse, this`slots, this`needs
    {
      |template| == capacity && |inUse| == |slots| && ChunksHold(chunks, template, slots, needs)
    }

    /** The free list has no duplicates and is the complement of the slots in use. */
    ghost predicate FreeList()
      reads this`freeSlots, this`inUse
    {
      NoDuplicates(freeSlots) && Complement(freeSlots, inUse)
    }

    /** Each slot in use has exactly one live handle, and live handles hold slots in use. */
    ghost predicate Handles()
      reads this`inUse, this`owner, this`handles, this`slots, handles
    {
      HandlesHold(inUse)
    }

    ghost predicate HandlesHold(used: seq<bool>)
      reads this`owner, this`handles, this`slots, handles
    {
      && (forall i: nat :: i in owner <==> i < |used| && used[i])
      && (forall i :: i in owner ==> owner[i] in handles && owner[i].arena == this && owner[i].layerIdx == i)
      && (forall h :: h in handles ==> HandleOk(h))
    }

    ghost predicate HandleOk(h: Handle)
      reads this`owner, this`slots, h
    {
      && h.arena in {null, this}
      && (h.arena == this ==>
            h.layerIdx in owner && owner[h.layerIdx] == h && h.layerIdx < |slots| && h.layer == slots[h.layerIdx])
    }

    /** Layers have the shards their templates list, and no buffer is undersized if none was supplied so. */
    ghost predicate Shards()
      reads this`slots, this`needs, slots
    {
      |slots| == |needs| && forall i :: 0 <= i < |slots| ==> LayerOk(slots[i], needs[i])
    }

    ghost predicate LayerOk(layer: Layer, templates: seq<Template>)
      reads layer
    {
      |layer.shards| == |templates| && (sized ==> Fits(layer.shards, templates))
    }

    ghost predicate Valid()
      reads this, handles, slots
    {
      Shape() && FreeList() && Handles() && Shards()
    }

    // ---- construction ----

    /** Nothing is in use and the slots are free in order. */
    ghost predicate AllFree()
      reads this
    {
      inUse == Falses(|slots|) && freeSlots == Range(0, |slots|) && handles == {} && owner == map[]
    }

    ghost predicate Blank()
      reads this
    {
      && |template| == capacity && chunks == [] && freeSlots == [] && inUse == []
      && slots == [] && needs == [] && handles == {} && owner == map[]
    }

    method Install(chunk: seq<Layer>)
      requires Blank() && |chunk| == capacity && Apart(chunk)
      requires forall k :: 0 <= k < capacity ==> LayerOk(chunk[k], template[k])
      modifies this`chunks, this`inUse, this`freeSlots, this`slots, this`needs
      ensures Valid() && AllFree() && slots == chunk
    {
      ChunkAdded(chunks, template, slots, needs, chunk);
      GrowFreeList(freeSlots, inUse, capacity);
      AddChunk(chunk);
      assert slots == chunk && needs == template;
    }

    /** Buffers that cannot be allocated now are allocated when their slot is acquired. */
    constructor Configured(config: Config, hasAllocator: bool, answers: nat -> Answer)
      ensures Valid() && AllFree() && this.config == config && this.hasAllocator == hasAllocator
      ensures |slots| == config.initialCapacity && sized && fresh(slots)
    {
      this.config, this.hasAllocator, this.answers, calls := config, hasAllocator, answers, 0;
      capacity, template := config.initialCapacity, ConfiguredRows(config, config.initialCapacity);
      chunks, freeSlots, inUse := [], [], [];
      slots, needs, handles, owner, sized := [], [], {}, map[], true;
      new;
      if capacity > 0 {
        var chunk := ConfiguredChunk();
        Install(chunk);
      }
    }

    method ConfiguredChunk() returns (chunk: seq<Layer>)
      requires |template| == capacity
      modifies this`calls
      ensures |chunk| == capacity && Apart(chunk) && fresh(chunk)
      ensures forall k :: 0 <= k < capacity ==> |chunk[k].shards| == |template[k]| && Fits(chunk[k].shards, template[k])
    {
      chunk := [];
      while |chunk| < capacity
        invariant |chunk| <= capacity && Apart(chunk) && fresh(chunk)
        invariant forall k :: 0 <= k < |chunk| ==>
          |chunk[k].shards| == |template[k]| && Fits(chunk[k].shards, template[k])
      {
        var layer := new Layer(EmptyShards(|template[|chunk|]|));
        TryFillLayer(layer, template[|chunk|]);
        chunk := chunk + [layer];
      }
    }

    /** Unlike growth, construction goes on when the allocator fails. */
    method TryFillLayer(layer: Layer, templates: seq<Template>)
      requires layer.shards == EmptyShards(|templates|)
      modifies layer, this`calls
      ensures |layer.shards| == |templates| && Fits(layer.shards, templates)
    {
      for s := 0 to |templates|
        invariant |layer.shards| == |templates| && Fits(layer.shards, templates)
        invariant forall k :: s <= k < |templates| ==> layer.shards[k] == EMPTY_SHARD
      {
        layer.shards := layer.shards[s := EMPTY_SHARD.(deviceSize := config.shardHostSize)];
        if config.shardHostSize > 0 && hasAllocator {
          var ignored := AllocateShard(layer, s, templates[s]);
        }
      }
    }

    /** Supplied layers become the first chunk and the template of later ones. */
    constructor FromLayers(layers: seq<seq<Shard>>, config: Config, hasAllocator: bool, answers: nat -> Answer)
      ensures Valid() && AllFree() && this.hasAllocator == hasAllocator && fresh(slots)
      ensures layers != [] ==> |slots| == |layers| && forall i :: 0 <= i < |layers| ==> slots[i].shards == layers[i]
      ensures layers != [] ==> template == Rows(layers, config)
      ensures sized <==> SuppliedFits(layers, config)
    {
      this.hasAllocator, this.answers, calls := hasAllocator, answers, 0;
      chunks, freeSlots, inUse := [], [], [];
      slots, needs, handles, owner := [], [], {}, map[];
      sized := SuppliedFits(layers, config);
      if layers != [] {
        capacity, template := |layers|, Rows(layers, config);
        this.config := config.(initialCapacity := |layers|,
          numShards := if config.numShards == 0 then |layers[0]| else config.numShards);
      } else {
        capacity, template := config.initialCapacity, ConfiguredRows(config, config.initialCapacity);
        this.config := config;
      }
      new;
      if layers != [] {
        InstallSupplied(layers, config);
      } else if capacity > 0 {
        var ignored := AppendChunk();
      }
    }

    method InstallSupplied(layers: seq<seq<Shard>>, config: Config)
      requires Blank() && capacity == |layers| && template == Rows(layers, config)
      requires sized <==> SuppliedFits(layers, config)
      modifies this`chunks, this`inUse, this`freeSlots, this`slots, this`needs
      ensures Valid() && AllFree() && fresh(slots) && |slots| == |layers|
      ensures forall i :: 0 <= i < |layers| ==> slots[i].shards == layers[i]
    {
      var chunk := SuppliedChunk(layers);
      SuppliedRowsFit(layers, config);
      Install(chunk);
    }

    method SuppliedChunk(layers: seq<seq<Shard>>) returns (chunk: seq<Layer>)
      ensures |chunk| == |layers| && Apart(chunk) && fresh(chunk)
      ensures forall k :: 0 <= k < |layers| ==> chunk[k].shards == layers[k]
    {
      chunk := [];
      while |chunk| < |layers|
        invariant |chunk| <= |layers| && Apart(chunk) && fresh(chunk)
        invariant forall k :: 0 <= k < |chunk| ==> chunk[k].shards == layers[k]
      {
        var layer := new Layer(layers[|chunk|]);
        chunk := chunk + [layer];
      }
    }

    // ---- allocation ----

    /** Fills one shard from the host allocator. */
    method AllocateShard(layer: Layer, s: nat, t: Template) returns (status: Status)
      requires s < |layer.shards|
      modifies layer, this`calls
      ensures |layer.shards| == |old(layer.shards)|
      ensures forall k :: 0 <= k < |layer.shards| && k != s ==> layer.shards[k] == old(layer.shards[k])
      ensures status == Ok && t.allocSize > 0 ==>
                layer.shards[s].hostPtr != NULL && layer.shards[s].hostSize >= t.allocSize
      ensures status != Ok || t.allocSize == 0 ==>
                && layer.shards[s].hostPtr == old(layer.shards[s].hostPtr)
                && layer.shards[s].hostSize == old(layer.shards[s].hostSize)
      ensures status == Ok ==> t.allocSize == 0 || hasAllocator
    {
      var shard := layer.shards[s].(deviceSize := t.deviceSize, device := t.device, tiledSize := t.tiledSize);
      layer.shards := layer.shards[s := shard];
      if t.allocSize == 0 { return Ok; }
      if !hasAllocator { return FailedPrecondition; }
      var answer := answers(calls);
      calls := calls + 1;
      if answer.Refused? { return AllocatorError; }
      if answer.ptr == NULL { return Internal; }
      if answer.size < t.allocSize { return Internal; }
      layer.shards := layer.shards[s := shard.(hostPtr := answer.ptr, hostSize := answer.size)];
      return Ok;
    }

    /** Gives a slot's missing buffers back; buffers that are there stay. */
    method EnsureLayerAllocated(idx: nat) returns (status: Status)
      requires Shape() && Shards() && idx < |slots|
      modifies slots[idx], this`calls
      ensures LayerOk(slots[idx], needs[idx])
      ensures forall s :: 0 <= s < |needs[idx]| && old(slots[idx].shards[s].hostPtr) != NULL ==>
                slots[idx].shards[s] == old(slots[idx].shards[s])
      ensures status == Ok && hasAllocator ==>
                (Backed(slots[idx].shards, needs[idx]) <==> old(Fits(slots[idx].shards, needs[idx])))
      ensures !hasAllocator || old(Complete(slots[idx].shards, needs[idx])) ==>
                status == Ok && slots[idx].shards == old(slots[idx].shards)
    {
      if !hasAllocator || capacity == 0 { return Ok; }
      assert Located(chunks, template, slots[idx], needs[idx], idx);
      var layer := chunks[idx / capacity][idx % capacity];
      var templates := template[idx % capacity];
      ghost var before := layer.shards;
      for s := 0 to |layer.shards|
        invariant |layer.shards| == |before|
        invariant forall k :: 0 <= k < |before| && (k >= s || before[k].hostPtr != NULL) ==> layer.shards[k] == before[k]
        invariant forall k :: 0 <= k < s && before[k].hostPtr == NULL ==> Filled(layer.shards[k], templates[k])
        invariant Complete(before, templates) ==> layer.shards == before
      {
        if layer.shards[s].hostPtr == NULL && templates[s].allocSize > 0 {
          status := AllocateShard(layer, s, templates[s]);
          if status != Ok { return; }
        }
      }
      status := Ok;
    }

    static predicate Filled(s: Shard, t: Template)
    {
      (s.hostPtr != NULL ==> s.hostSize >= t.allocSize) && (t.allocSize > 0 ==> s.hostPtr != NULL)
    }

    // ---- growth ----

    method FillLayer(layer: Layer, templates: seq<Template>) returns (status: Status)
      requires layer.shards == EmptyShards(|templates|)
      modifies layer, this`calls
      ensures |layer.shards| == |templates| && Fits(layer.shards, templates)
      ensures status == Ok ==> Backed(layer.shards, templates)
    {
      for s := 0 to |templates|
        invariant |layer.shards| == |templates|
        invariant forall k :: 0 <= k < s ==> Filled(layer.shards[k], templates[k])
        invariant forall k :: s <= k < |templates| ==> layer.shards[k] == EMPTY_SHARD
      {
        status := AllocateShard(layer, s, templates[s]);
        if status != Ok { return; }
      }
      status := Ok;
    }

    /** A chunk of new layers, one per template row; nothing of the arena changes. */
    method NewChunk() returns (status: Status, chunk: seq<Layer>)
      requires |template| == capacity
      modifies this`calls
      ensures status == Ok ==> |chunk| == capacity && Apart(chunk)
      ensures status == Ok ==>
        forall k :: 0 <= k < capacity ==>
          && fresh(chunk[k])
          && |chunk[k].shards| == |template[k]|
          && Fits(chunk[k].shards, template[k]) && Backed(chunk[k].shards, template[k])
    {
      chunk := [];
      while |chunk| < capacity
        invariant |chunk| <= capacity && Apart(chunk)
        invariant forall k :: 0 <= k < |chunk| ==>
          && fresh(chunk[k])
          && |chunk[k].shards| == |template[k]|
          && Fits(chunk[k].shards, template[k]) && Backed(chunk[k].shards, template[k])
      {
        var layer := new Layer(EmptyShards(|template[|chunk|]|));
        status := FillLayer(layer, template[|chunk|]);
        if status != Ok { return; }
        chunk := chunk + [layer];
      }
      status := Ok;
    }

    /** Appends a chunk of free slots; existing slot numbers keep their layers. */
    method AppendChunk() returns (status: Status)
      requires Shape() && FreeList() && Shards()
      modifies this`calls, this`chunks, this`inUse, this`freeSlots, this`slots, this`needs
      ensures Shape() && FreeList() && Shards()
      ensures status != Ok ==>
        slots == old(slots) && needs == old(needs) && inUse == old(inUse) && freeSlots == old(freeSlots)
      ensures capacity == 0 ==> status == ResourceExhausted
      ensures status == Ok ==>
        && |slots| == |old(slots)| + capacity && old(slots) <= slots
        && needs == old(needs) + template
        && inUse == old(inUse) + Falses(capacity)
        && freeSlots == old(freeSlots) + Range(|old(inUse)|, capacity)
      ensures forall i :: |old(slots)| <= i < |slots| ==>
        fresh(slots[i]) && Fits(slots[i].shards, needs[i]) && Backed(slots[i].shards, needs[i])
    {
      if capacity == 0 { return ResourceExhausted; }
      var chunk;
      status, chunk := NewChunk();
      if status != Ok { return; }
      ChunkAdded(chunks, template, slots, needs, chunk);
      GrowFreeList(freeSlots, inUse, capacity);
      AddChunk(chunk);
    }

    method AddChunk(chunk: seq<Layer>)
      modifies this`chunks, this`inUse, this`freeSlots, this`slots, this`needs
      ensures chunks == old(chunks) + [chunk] && slots == old(slots) + chunk && needs == old(needs) + template
      ensures inUse == old(inUse) + Falses(capacity)
      ensures freeSlots == old(freeSlots) + Range(|old(inUse)|, capacity)
    {
      var base := |inUse|;
      chunks := chunks + [chunk];
      inUse := inUse + Falses(capacity);
      for i := 0 to capacity
        invariant freeSlots == old(freeSlots) + Range(base, i)
        modifies this`freeSlots
      {
        freeSlots := freeSlots + [base + i];
      }
      slots, needs := slots + chunk, needs + template;
    }

    // ---- acquire and release ----

    /** Grows when there is no free slot. */
    method Refill() returns (status: Status)
      requires Shape() && FreeList() && Shards()
      modifies this`calls, this`chunks, this`inUse, this`freeSlots, this`slots, this`needs
      ensures Shape() && FreeList() && Shards()
      ensures old(slots) <= slots && old(needs) <= needs
      ensures inUse == old(inUse) + Falses(|slots| - |old(slots)|)
      ensures status == Ok ==> freeSlots != []
      ensures old(freeSlots) != [] ==> status == Ok && freeSlots == old(freeSlots) && slots == old(slots)
      ensures old(freeSlots) == [] && status == Ok ==> freeSlots[0] == |old(slots)|
      ensures forall i :: |old(slots)| <= i < |slots| ==>
        fresh(slots[i]) && Fits(slots[i].shards, needs[i]) && Backed(slots[i].shards, needs[i])
      ensures old(freeSlots) == [] && (!config.allowGrowth || capacity == 0) ==> status == ResourceExhausted
    {
      if freeSlots == [] {
        if !config.allowGrowth { return ResourceExhausted; }
        status := AppendChunk();
      } else {
        status := Ok;
      }
    }

    /** The slots in use are those before, plus the one acquired if any. */
    ghost predicate UseAdded(before: seq<bool>, acquired: bool, idx: nat)
      reads this
    {
      |before| <= |inUse| &&
      forall i :: 0 <= i < |inUse| ==> (inUse[i] <==> (i < |before| && before[i]) || (acquired && i == idx))
    }

    /** Gives the front slot its buffers and marks it in use. */
    method TakeFrontSlot() returns (status: Status)
      requires Shape() && FreeList() && Shards() && freeSlots != []
      requires freeSlots[0] < |slots|
      modifies this`calls, this`inUse, this`freeSlots, slots[freeSlots[0]]
      ensures Shape() && FreeList() && Shards()
      ensures status != Ok ==> inUse == old(inUse) && freeSlots == old(freeSlots)
      ensures status == Ok ==> inUse == old(inUse)[old(freeSlots[0]) := true] && freeSlots == old(freeSlots)[1..]
      ensures status == Ok && hasAllocator ==>
        (Backed(slots[old(freeSlots[0])].shards, needs[old(freeSlots[0])])
         <==> old(Fits(slots[freeSlots[0]].shards, needs[freeSlots[0]])))
      ensures old(Complete(slots[freeSlots[0]].shards, needs[freeSlots[0]])) ==>
        status == Ok && slots[old(freeSlots[0])].shards == old(slots[freeSlots[0]].shards)
    {
      TakeFront(freeSlots, inUse);
      var idx := freeSlots[0];
      status := EnsureLayerAllocated(idx);
      if status != Ok { return; }
      freeSlots := freeSlots[1..];
      inUse := inUse[idx := true];
    }

    /** The next slot to hand out needs no allocation. */
    ghost predicate FrontComplete()
      reads this, slots
    {
      && freeSlots != [] && freeSlots[0] < |slots| == |needs|
      && |slots[freeSlots[0]].shards| == |needs[freeSlots[0]]|
      && Complete(slots[freeSlots[0]].shards, needs[freeSlots[0]])
    }

    method AcquireSlot() returns (status: Status, idx: nat)
      requires Shape() && FreeList() && Shards()
      modifies this`calls, this`chunks, this`inUse, this`freeSlots, this`slots, this`needs, slots
      ensures Shape() && FreeList() && Shards()
      ensures old(slots) <= slots && old(needs) <= needs
      ensures UseAdded(old(inUse), status == Ok, idx)
      ensures status == Ok ==> idx == if old(freeSlots) != [] then old(freeSlots[0]) else |old(slots)|
      ensures status == Ok ==> idx < |slots| && (idx < |old(slots)| ==> !old(inUse[idx]))
      ensures old(freeSlots) != [] && status == Ok ==> freeSlots == old(freeSlots)[1..]
      ensures forall i :: 0 <= i < |old(slots)| && old(inUse[i]) ==> slots[i].shards == old(slots[i].shards)
      ensures status == Ok && hasAllocator ==>
        (Backed(slots[idx].shards, needs[idx]) <==> idx >= |old(slots)| || old(Fits(slots[idx].shards, needs[idx])))
      ensures old(freeSlots) == [] && (!config.allowGrowth || capacity == 0) ==> status == ResourceExhausted
      ensures old(FrontComplete()) ==> status == Ok && slots[idx].shards == old(slots[freeSlots[0]].shards)
    {
      idx := 0;
      status := Refill();
      if status != Ok { return; }
      TakeFront(freeSlots, inUse);
      idx := freeSlots[0];
      status := TakeFrontSlot();
    }

    /**
     Takes the front free slot, growing first when there is none. With an allocator
     the slot comes back backed exactly when no buffer it already had was undersized.
     */
    method Acquire() returns (status: Status, h: Handle?)
      requires Valid()
      modifies this, slots
      ensures Valid()
      ensures config == old(config) && template == old(template)
      ensures old(slots) <= slots && old(needs) <= needs
      ensures status == Ok <==> h != null
      ensures h == null ==> owner == old(owner) && handles == old(handles)
      ensures h != null ==>
        && fresh(h) && h.arena == this && h.layerIdx < |slots| && h.layer == slots[h.layerIdx]
        && h.layerIdx == (if old(freeSlots) != [] then old(freeSlots[0]) else |old(slots)|)
        && handles == old(handles) + {h} && owner == old(owner)[h.layerIdx := h]
      ensures old(freeSlots) != [] && h != null ==> freeSlots == old(freeSlots)[1..]
      ensures forall i :: 0 <= i < |old(slots)| && old(inUse[i]) ==> slots[i].shards == old(slots[i].shards)
      ensures h != null && hasAllocator ==>
        (Backed(slots[h.layerIdx].shards, needs[h.layerIdx])
         <==> h.layerIdx >= |old(slots)| || old(Fits(slots[freeSlots[0]].shards, needs[freeSlots[0]])))
      ensures old(freeSlots) == [] && (!config.allowGrowth || capacity == 0) ==> status == ResourceExhausted
      ensures old(FrontComplete()) ==> h != null && slots[h.layerIdx].shards == old(slots[freeSlots[0]].shards)
    {
      ghost var used := inUse;
      var idx;
      status, idx := AcquireSlot();
      HandlesKept(used);
      if status != Ok { return status, null; }
      h := MakeHandle(idx, used);
    }

    twostate lemma HandlesKept(used: seq<bool>)
      requires old(HandlesHold(used))
      requires owner == old(owner) && handles == old(handles) && old(slots) <= slots
      requires forall h :: h in handles ==> unchanged(h)
      ensures HandlesHold(used)
    {
      forall h | h in handles
        ensures HandleOk(h)
      {
        assert old(HandleOk(h));
      }
      forall i | i in owner
        ensures owner[i] in handles && owner[i].arena == this && owner[i].layerIdx == i
      {
        assert unchanged(owner[i]);
      }
    }

    method MakeHandle(idx: nat, ghost used: seq<bool>) returns (h: Handle)
      requires Shape() && HandlesHold(used) && UseAdded(used, true, idx)
      requires idx < |slots| && idx !in owner
      modifies this`handles, this`owner
      ensures Handles()
      ensures fresh(h) && h.arena == this && h.layerIdx == idx && h.layer == slots[idx]
      ensures handles == old(handles) + {h} && owner == old(owner)[idx := h]
    {
      assert Located(chunks, template, slots[idx], needs[idx], idx);
      h := new Handle(this, idx, chunks[idx / capacity][idx % capacity]);
      handles, owner := handles + {h}, owner[idx := h];
    }

    /** Drops the memory of every shard and keeps the rest of its record. */
    method ReleaseLayerMemory(layer: Layer)
      modifies layer
      ensures layer.shards == AllCleared(old(layer.shards))
    {
      ghost var before := layer.shards;
      for s := 0 to |layer.shards|
        invariant |layer.shards| == |before|
        invariant forall k :: 0 <= k < |before| ==> layer.shards[k] == if k < s then Cleared(before[k]) else before[k]
      {
        layer.shards := layer.shards[s := Cleared(layer.shards[s])];
      }
    }

    /** Puts a slot in use to the front of the free list; any other number is ignored. */
    method ReleaseSlot(idx: nat)
      requires Shape() && FreeList() && Shards()
      modifies this`inUse, this`freeSlots, slots
      ensures Shape() && FreeList() && Shards()
      ensures !(idx < |old(inUse)| && old(inUse[idx])) ==> inUse == old(inUse) && freeSlots == old(freeSlots)
      ensures idx < |old(inUse)| && old(inUse[idx]) ==>
        inUse == old(inUse)[idx := false] && freeSlots == [idx] + old(freeSlots)
      ensures forall i :: 0 <= i < |slots| ==>
        slots[i].shards == if i == idx && old(inUse[i]) && config.releaseOnFree then AllCleared(old(slots[i].shards))
                           else old(slots[i].shards)
    {
      if idx >= |inUse| || !inUse[idx] { return; }
      assert Located(chunks, template, slots[idx], needs[idx], idx);
      if config.releaseOnFree {
        ReleaseLayerMemory(chunks[idx / capacity][idx % capacity]);
      }
      inUse := inUse[idx := false];
      freeSlots := [idx] + freeSlots;
    }

    // ---- handles ----

    /** Clears a live handle; its slot loses its owner. */
    method DropHandle(h: Handle, ghost used: seq<bool>)
      requires HandlesHold(used) && h in handles && h.arena == this
      modifies this`owner, h
      ensures old(h.layerIdx) < |used| && used[old(h.layerIdx)]
      ensures HandlesHold(used[old(h.layerIdx) := false])
      ensures owner == old(owner) - {old(h.layerIdx)} && h.arena == null && h.layer == null
    {
      assert HandleOk(h);
      owner := owner - {h.layerIdx};
      h.arena, h.layerIdx, h.layer := null, 0, null;
    }

    /** Hands what one handle holds to an empty one. */
    method PassHandle(source: Handle, target: Handle, ghost used: seq<bool>)
      requires HandlesHold(used) && source in handles && target != source && target.arena == null
      modifies this`owner, this`handles, source, target
      ensures HandlesHold(used) && handles == old(handles) + {target}
      ensures target.arena == old(source.arena) && target.layerIdx == old(source.layerIdx)
      ensures target.layer == old(source.layer)
      ensures source.arena == null && source.layer == null
    {
      assert HandleOk(source);
      handles := handles + {target};
      if source.arena != null {
        PassLive(source, target, used);
      } else {
        target.layerIdx, target.layer := source.layerIdx, source.layer;
        source.layerIdx, source.layer := 0, null;
      }
    }

    method PassLive(source: Handle, target: Handle, ghost used: seq<bool>)
      requires HandlesHold(used) && source in handles && target in handles
      requires target != source && target.arena == null && source.arena == this
      modifies this`owner, source, target
      ensures HandlesHold(used)
      ensures target.arena == this && target.layerIdx == old(source.layerIdx) && target.layer == old(source.layer)
      ensures source.arena == null && source.layer == null
    {
      assert HandleOk(source);
      target.arena, target.layerIdx, target.layer := source.arena, source.layerIdx, source.layer;
      owner := owner[source.layerIdx := target];
      source.arena, source.layerIdx, source.layer := null, 0, null;
      forall h | h in handles
        ensures HandleOk(h)
      {
        if h != source && h != target {
          assert old(HandleOk(h));
        }
      }
    }

    /** Returns the handle's slot, once: a released or moved-from handle does nothing. */
    method ReleaseHandle(h: Handle)
      requires Valid() && h in handles
      modifies this`inUse, this`freeSlots, this`owner, h, slots
      ensures Valid() && h.arena == null
      ensures old(h.arena) == null ==> inUse == old(inUse) && freeSlots == old(freeSlots) && owner == old(owner)
      ensures old(h.arena) != null ==>
        && old(h.layerIdx) < |inUse| && inUse == old(inUse)[old(h.layerIdx) := false]
        && freeSlots == [old(h.layerIdx)] + old(freeSlots) && owner == old(owner) - {old(h.layerIdx)}
      ensures forall i :: 0 <= i < |slots| && i != old(h.layerIdx) ==> slots[i].shards == old(slots[i].shards)
    {
      assert HandleOk(h);
      if h.arena != null {
        ReleaseLive(h);
      }
    }

    method ReleaseLive(h: Handle)
      requires Valid() && h in handles && h.arena == this
      modifies this`inUse, this`freeSlots, this`owner, h, slots
      ensures Valid() && h.arena == null && owner == old(owner) - {old(h.layerIdx)}
      ensures old(h.layerIdx) < |inUse| && inUse == old(inUse)[old(h.layerIdx) := false]
      ensures freeSlots == [old(h.layerIdx)] + old(freeSlots)
      ensures forall i :: 0 <= i < |slots| && i != old(h.layerIdx) ==> slots[i].shards == old(slots[i].shards)
    {
      ghost var used := inUse;
      assert HandleOk(h);
      ReleaseHeld(h.layerIdx);
      DropHandle(h, used);
    }

    /** Releases a slot that still has its handle. */
    method ReleaseHeld(idx: nat)
      requires Valid() && idx < |inUse| && inUse[idx]
      modifies this`inUse, this`freeSlots, slots
      ensures Shape() && FreeList() && Shards() && HandlesHold(old(inUse))
      ensures inUse == old(inUse)[idx := false] && freeSlots == [idx] + old(freeSlots)
      ensures forall i :: 0 <= i < |slots| && i != idx ==> slots[i].shards == old(slots[i].shards)
    {
      ghost var used := inUse;
      ReleaseSlot(idx);
      HandlesKept(used);
    }

    /** Moving hands the slot over: the new handle is live exactly when the old one was. */
    method MoveHandle(h: Handle) returns (moved: Handle)
      requires Valid() && h in handles
      modifies this`handles, this`owner, h
      ensures Valid() && fresh(moved) && handles == old(handles) + {moved}
      ensures moved.arena == old(h.arena) && moved.layerIdx == old(h.layerIdx) && moved.layer == old(h.layer)
      ensures h.arena == null && h.layer == null
    {
      moved := new Handle(null, 0, null);
      PassHandle(h, moved, inUse);
    }

    /** Assigning releases what the target held, then takes over the source's slot. */
    method AssignHandle(target: Handle, source: Handle)
      requires Valid() && target in handles && source in handles
      modifies this`inUse, this`freeSlots, this`owner, this`handles, target, source, slots
      ensures Valid() && handles == old(handles)
      ensures target.arena == old(source.arena) && target.layer == old(source.layer)
      ensures target.layerIdx == old(source.layerIdx)
      ensures target != source ==> source.arena == null
      ensures target == source || old(target.arena) == null ==> inUse == old(inUse) && freeSlots == old(freeSlots)
      ensures target != source && old(target.arena) != null ==>
        && old(target.layerIdx) < |inUse| && inUse == old(inUse)[old(target.layerIdx) := false]
        && freeSlots == [old(target.layerIdx)] + old(freeSlots)
    {
      if target != source {
        ReleaseHandle(target);
        PassHandle(source, target, inUse);
        assert handles == old(handles);
        assert Handles();
      }
    }

    /** A live handle may drop its slot's memory early; the slot stays its own. */
    method ReleaseHandleMemory(h: Handle)
      requires Valid() && h in handles
      modifies slots
      ensures Valid()
      ensures forall i :: 0 <= i < |slots| ==>
        slots[i].shards == if h.arena != null && i == h.layerIdx then AllCleared(old(slots[i].shards))
                           else old(slots[i].shards)
    {
      if h.arena != null {
        assert HandleOk(h);
        ReleaseLayerMemory(h.layer);
      }
    }

    /** An empty handle stops being one of this arena's. */
    method Disown(h: Handle)
      requires Valid() && h in handles && h.arena == null
      modifies this`handles
      ensures Valid() && handles == old(handles) - {h}
    {
      handles := handles - {h};
    }

    /** An empty handle from elsewhere takes over what one of this arena's holds. */
    method Adopt(source: Handle, target: Handle)
      requires Valid() && source in handles && target != source && target.arena == null
      modifies this`owner, this`handles, source, target
      ensures Valid() && handles == old(handles) + {target}
      ensures target.arena == old(source.arena) && target.layerIdx == old(source.layerIdx)
      ensures target.layer == old(source.layer) && source.arena == null
    {
      PassHandle(source, target, inUse);
    }

    /**
     Assigning a handle of another arena returns the target's slot to this arena and
     takes over the source's slot there; the target then belongs to the other arena.
     */
    method AssignFromOther(target: Handle, source: Handle, other: Arena)
      requires Valid() && target in handles && other != this
      requires other.Valid() && source in other.handles && handles !! other.handles
      requires forall i, j :: 0 <= i < |slots| && 0 <= j < |other.slots| ==> slots[i] != other.slots[j]
      modifies this`inUse, this`freeSlots, this`owner, this`handles
      modifies other`owner, other`handles, target, source, slots
      ensures Valid() && other.Valid()
      ensures handles == old(handles) - {target} && other.handles == old(other.handles) + {target}
      ensures target.arena == old(source.arena) && target.layerIdx == old(source.layerIdx)
      ensures target.layer == old(source.layer) && source.arena == null
      ensures other.inUse == old(other.inUse) && other.freeSlots == old(other.freeSlots)
      ensures old(target.arena) == null ==> inUse == old(inUse) && freeSlots == old(freeSlots)
      ensures old(target.arena) != null ==>
        && old(target.layerIdx) < |inUse| && inUse == old(inUse)[old(target.layerIdx) := false]
        && freeSlots == [old(target.layerIdx)] + old(freeSlots)
    {
      ReleaseHandle(target);
      other.StaysValid();
      Disown(target);
      label Disowned:
      other.Adopt(source, target);
      StaysValid@Disowned();
    }

    twostate lemma StaysValid()
      requires old(Valid()) && unchanged(this)
      requires forall h :: h in handles ==> unchanged(h)
      requires forall i :: 0 <= i < |slots| ==> unchanged(slots[i])
      ensures Valid()
    {
      HandlesKept(inUse);
      forall i | 0 <= i < |slots|
        ensures LayerOk(slots[i], needs[i])
      {
        assert old(LayerOk(slots[i], needs[i]));
      }
    }
  }

  /**
   A layer supplied with a pointer but no size: with a device size of one page its
   template asks for a page, yet the slot is handed out with the empty buffer.
   */
  method UndersizedBufferIsHandedOut(answers: nat -> Answer) returns (arena: Arena, h: Handle)
    ensures fresh(arena) && arena.Valid() && arena.hasAllocator && h in arena.handles && h.arena == arena
    ensures h.layerIdx < |arena.slots| && h.layer == arena.slots[h.layerIdx]
    ensures |arena.needs| == |arena.slots| && |arena.slots[h.layerIdx].shards| == |arena.needs[h.layerIdx]|
    ensures !Backed(arena.slots[h.layerIdx].shards, arena.needs[h.layerIdx])
  {
    var shard := Shard(1, 0, 4096, 0, NULL, 0);
    var config := Config(0, 0, 0, false, false);
    var layers := [[shard]];
    arena := new Arena.FromLayers(layers, config, true, answers);
    assert arena.slots[0].shards == layers[0] == [shard];
    assert arena.freeSlots[0] == 0;
    assert Located(arena.chunks, arena.template, arena.slots[0], arena.needs[0], 0);
    var status, taken := arena.Acquire();
    h := taken;
  }
}
