/**
 The allocator object of tpu_sync/core/host_memory_allocator.cc over a segment file
 that outlives it. Every header write is a statement of its own, followed by the
 point at which the process may die. The file keeps a ghost history of actions, and
 every method is proved to append exactly its own, so what is proved of histories
 holds of the objects.
 */
module ShmAllocator {
  import opened ShmSegment
  import opened ShmRuns

  /** The file behind the segment name; the ledger is kept for the proofs only. */
  class SegmentFile {
    var file: Option<File>
    ghost var ledger: seq<int>
    ghost var history: seq<Action>

    ghost function Contents(): (r: Store)
      reads this
    {
      if file.None? then NoFile else Store(file.value, ledger)
    }

    /** The history led here, with no process attached. */
    ghost predicate Idle()
      reads this
    {
      CanRun(START, history) && Run(START, history) == World(Contents(), None)
    }

    constructor ()
      ensures Contents() == NoFile && history == [] && Idle()
    {
      file, ledger, history := None, [], [];
    }
  }

  /** Sums the recorded region table, refusing entries that are not whole pages. */
  method ReadTable(header: Header) returns (ok: bool)
    requires |header.regionSizes| == MAX_REGIONS
    ensures ok <==> TableOk(header)
  {
    var total, i := 0, 0;
    ok := 0 < header.regionCount <= MAX_REGIONS;
    while ok && i < header.regionCount
      invariant 0 <= i && (ok ==> 0 < header.regionCount <= MAX_REGIONS && i <= header.regionCount)
      invariant ok ==> total == Sum(header.regionSizes[..i]) && WholePages(header.regionSizes[..i])
      invariant !ok ==> !TableOk(header)
      decreases ok, header.regionCount - i
    {
      var region := header.regionSizes[i];
      SumStep(header.regionSizes, i);
      assert header.regionSizes[..header.regionCount][i] == region;
      if region <= 0 || region % PAGE != 0 {
        ok := false;
      }
      total := total + region;
      i := i + 1;
    }
    ok := ok && total == header.totalPayloadBytes;
  }

  method IsCompatible(file: File, schema: Schema, aligned: int) returns (ok: bool)
    requires |file.header.regionSizes| == MAX_REGIONS
    ensures ok <==> Compatible(file, schema, aligned)
  {
    ok := file.headerPage;
    if ok {
      ok := Matches(file.header.identity, schema.identity);
      if ok && file.header.totalPayloadBytes > |file.payload| {
        ok := false;
      }
      if ok {
        ok := ReadTable(file.header);
        if ok && file.header.regionSizes[0] != aligned {
          ok := false;
        }
      }
    }
  }

  class Allocator {
    const schema: Schema
    const disk: SegmentFile
    var segment: Option<Segment>
    ghost const bootLedger: seq<int>
    ghost const bootPayload: seq<int>

    ghost function ToProcess(): (r: Process)
      reads this
    {
      Process(schema, segment, bootLedger, bootPayload)
    }

    /** The history led here, with this process running. */
    ghost predicate Valid()
      reads this, disk
    {
      CanRun(START, disk.history) && Run(START, disk.history) == World(disk.Contents(), Some(ToProcess()))
    }

    constructor (schema: Schema, disk: SegmentFile)
      requires disk.Idle()
      modifies disk`history
      ensures this.schema == schema && this.disk == disk && segment == None
      ensures Valid() && disk.history == old(disk.history) + [Boot(schema)]
    {
      this.schema, this.disk := schema, disk;
      segment := None;
      bootLedger, bootPayload := Ledger(disk.Contents()), Payload(disk.Contents());
      new;
      RunAppend(START, disk.history, Boot(schema));
      disk.history := disk.history + [Boot(schema)];
    }

    /** Attaches warm or formats cold. */
    method OpenSegment(size: nat, env: Env) returns (outcome: Outcome)
      requires segment.None? && FixedTable(disk.Contents())
      modifies this, disk`file, disk`ledger
      ensures Step(disk.Contents(), segment, outcome) == Open(old(disk.Contents()), schema, Align(size), env)
    {
      if !env.locks { return OpenFailed; }
      var warm := disk.file.Some? && env.opensOld;
      if warm && env.oldHeaderMaps {
        warm := IsCompatible(disk.file.value, schema, Align(size));
        if warm {
          segment := Some(Segment(true, 0, 0, disk.file.value.header.regionCount, []));
          return Empty;
        }
      }
      if disk.file.Some? && env.opensOld && env.unlinks {
        disk.file, disk.ledger := None, [];
      }
      if disk.file.Some? { return OpenFailed; }
      if env.dies == AfterUnlink { return Died; }
      outcome := FormatSegment(env);
    }

    method FormatSegment(env: Env) returns (outcome: Outcome)
      requires segment.None? && disk.Contents() == NoFile && env.dies != AfterUnlink
      modifies this, disk`file, disk`ledger
      ensures Step(disk.Contents(), segment, outcome) == Format(schema, env)
    {
      if !env.creates { return OpenFailed; }
      disk.file, disk.ledger := Some(File(false, ZeroHeader(), [])), [];
      if env.dies == AfterCreate { return Died; }
      if !env.headerReserved {
        if env.cleansUp { disk.file := None; }
        return OpenFailed;
      }
      disk.file := Some(disk.file.value.(headerPage := true));
      if env.dies == AfterHeaderReserve { return Died; }
      if !env.newHeaderMaps {
        if env.cleansUp { disk.file := None; }
        return OpenFailed;
      }
      if env.dies.DuringHeaderCopy? {
        disk.file := Some(disk.file.value.(header :=
          Header(env.dies.torn, env.dies.tornTotal, 0, Zeros(MAX_REGIONS))));
        return Died;
      }
      disk.file := Some(disk.file.value.(header := NewHeader(schema)));
      if env.dies == AfterHeaderCopy { return Died; }
      disk.file := Some(disk.file.value.(header := disk.file.value.header.(totalPayloadBytes := 0)));
      segment := Some(Segment(false, 0, 0, 0, []));
      return Empty;
    }

    /** Writes a zero to the first byte of each page, dying in between if told so. */
    method TouchRange(start: nat, pages: nat, env: Env) returns (alive: bool)
      requires disk.file.Some? && start + pages * PAGE <= |disk.file.value.payload|
      modifies disk`file
      ensures alive <==> !(env.dies.DuringTouch? && env.dies.pages <= pages)
      ensures disk.Contents() == Touch(old(disk.Contents()), start, if alive then pages else env.dies.pages)
    {
      var i := 0;
      while i < pages && !(env.dies.DuringTouch? && env.dies.pages == i)
        invariant 0 <= i <= pages && (env.dies.DuringTouch? ==> i <= env.dies.pages)
        invariant disk.file.Some? && disk.Contents() == Touch(old(disk.Contents()), start, i)
      {
        var payload := disk.file.value.payload;
        disk.file := Some(disk.file.value.(payload := payload[start + i * PAGE := 0]));
        i := i + 1;
      }
      return !(env.dies.DuringTouch? && env.dies.pages == i);
    }

    /** Replays the recorded region or appends a fresh one. */
    method AllocateRegion(size: nat, env: Env) returns (outcome: Outcome)
      requires size > 0 && segment.Some? && Allocatable(disk.Contents(), segment.value)
      modifies this, disk`file, disk`ledger
      ensures var r := Allocate(old(disk.Contents()), old(segment.value), size, env);
              && disk.Contents() == r.store && outcome == r.outcome
              && (outcome != Died ==> segment == r.segment)
    {
      var aligned := Align(size);
      var s := segment.value;
      if s.allocIndex < s.recovered {
        if disk.file.value.header.regionSizes[s.allocIndex] != aligned { return GeometryMismatch; }
        if !env.maps { return MapFailed; }
      } else {
        if s.allocIndex >= MAX_REGIONS { return TableFull; }
        var error := AppendRegion(aligned, env);
        if error.Some? { return error.value; }
      }
      outcome := Finish(aligned, env);
    }

    /** Records the region and secures its range; no value means it can be handed out. */
    method AppendRegion(aligned: int, env: Env) returns (error: Option<Outcome>)
      requires segment.Some? && Allocatable(disk.Contents(), segment.value)
      requires segment.value.allocIndex < MAX_REGIONS && aligned > 0 && aligned % PAGE == 0
      modifies disk`file, disk`ledger
      ensures var r := Append(old(disk.Contents()), segment.value, aligned, env);
              if error.Some? then
                && disk.Contents() == r.store && error.value == r.outcome
                && (error.value != Died ==> r.segment == segment)
              else disk.Contents().Store? && r == HandOut(disk.Contents(), segment.value, aligned, env)
    {
      var s := segment.value;
      var header := disk.file.value.header;
      disk.file := Some(disk.file.value.(header :=
        header.(regionSizes := header.regionSizes[s.allocIndex := aligned])));
      if env.dies == AfterRegionSize { return Some(Died); }
      disk.file := Some(disk.file.value.(header := disk.file.value.header.(regionCount := s.allocIndex + 1)));
      if env.dies == AfterRegionCount { return Some(Died); }
      error := SecureRegion(aligned, env);
    }

    method SecureRegion(aligned: int, env: Env) returns (error: Option<Outcome>)
      requires segment.Some? && disk.file.Some? && 0 <= segment.value.cursor
      requires aligned > 0 && aligned % PAGE == 0
      modifies disk`file, disk`ledger
      ensures var r := SecureRange(old(disk.Contents()), segment.value, aligned, env);
              if error.Some? then
                && disk.Contents() == r.store && error.value == r.outcome
                && (error.value != Died ==> r.segment == segment)
              else disk.Contents().Store? && r == HandOut(disk.Contents(), segment.value, aligned, env)
    {
      var s := segment.value;
      var end := s.cursor + aligned;
      var payload := disk.file.value.payload;
      if !env.reserved {
        disk.file := Some(disk.file.value.(payload :=
          Extend(payload, if env.grownTo < end then env.grownTo else end)));
        return Some(ReserveFailed);
      }
      disk.file := Some(disk.file.value.(payload := Extend(payload, end)));
      if env.dies == AfterReserve { return Some(Died); }
      if !env.maps { return Some(MapFailed); }
      var alive := TouchRange(s.cursor, aligned / PAGE, env);
      if !alive { return Some(Died); }
      return None;
    }

    method Finish(aligned: int, env: Env) returns (outcome: Outcome)
      requires segment.Some? && disk.file.Some?
      modifies this, disk`file, disk`ledger
      ensures var r := HandOut(old(disk.Contents()), old(segment.value), aligned, env);
              && disk.Contents() == r.store && outcome == r.outcome
              && (outcome != Died ==> segment == r.segment)
    {
      var s := segment.value;
      var cursor := s.cursor + aligned;
      var region := Region(PAYLOAD_OFFSET + s.cursor, aligned);
      if cursor > disk.file.value.header.totalPayloadBytes {
        disk.file := Some(disk.file.value.(header := disk.file.value.header.(totalPayloadBytes := cursor)));
        disk.ledger := disk.ledger + [aligned];
      }
      if env.dies == AfterTotal { return Died; }
      segment := Some(s.(cursor := cursor, allocIndex := s.allocIndex + 1, regions := s.regions + [region]));
      return Handed(region);
    }

    /** One allocation, whatever state earlier processes left the file in. */
    method AllocateBytes(size: nat, env: Env) returns (outcome: Outcome)
      requires Valid()
      modifies this, disk
      ensures disk.history == old(disk.history) + [Request(size, env)]
      ensures if outcome == Died then disk.Idle() else Valid()
      ensures FixedTable(old(disk.Contents()))
      ensures old(segment).Some? ==> Allocatable(old(disk.Contents()), old(segment.value))
      ensures outcome == Serve(old(disk.Contents()), old(ToProcess()), size, env).outcome
    {
      ghost var w := World(disk.Contents(), Some(ToProcess()));
      EveryHistoryKeepsInv(disk.history);
      ValidServes(w, size, env);
      RunAppend(START, disk.history, Request(size, env));
      disk.history := disk.history + [Request(size, env)];
      outcome := ServeRequest(size, env);
    }

    method ServeRequest(size: nat, env: Env) returns (outcome: Outcome)
      requires FixedTable(disk.Contents())
      requires segment.Some? ==> Allocatable(disk.Contents(), segment.value)
      modifies this, disk`file, disk`ledger
      ensures var r := Serve(old(disk.Contents()), old(ToProcess()), size, env);
              && disk.Contents() == r.store && outcome == r.outcome
              && (outcome != Died ==> segment == r.segment)
    {
      if size == 0 { return Empty; }
      if segment.None? {
        outcome := OpenSegment(size, env);
        if segment.None? { return; }
      }
      outcome := AllocateRegion(size, env);
    }

    /** The owner of a region writes into it. */
    method WriteByte(region: nat, at: nat, byte: int)
      requires Valid() && segment.Some?
      requires region < |segment.value.regions| && at < segment.value.regions[region].size
      modifies disk
      ensures Valid() && disk.history == old(disk.history) + [Write(region, at, byte)]
    {
      CanWrite(disk.history, region, at, byte);
      RunAppend(START, disk.history, Write(region, at, byte));
      disk.history := disk.history + [Write(region, at, byte)];
      var position := segment.value.regions[region].offset - PAYLOAD_OFFSET + at;
      disk.file := Some(disk.file.value.(payload := disk.file.value.payload[position := byte]));
    }

    /** The destructor leaves the file for the next process. */
    method Close()
      requires Valid()
      modifies disk`history
      ensures disk.Idle() && disk.history == old(disk.history) + [Exit]
    {
      RunAppend(START, disk.history, Exit);
      disk.history := disk.history + [Exit];
    }
  }
  lemma CanWrite(history: seq<Action>, region: nat, at: nat, byte: int)
    requires CanRun(START, history)
    requires var w := Run(START, history);
             && w.process.Some? && w.process.value.segment.Some?
             && region < |w.process.value.segment.value.regions|
             && at < w.process.value.segment.value.regions[region].size
    ensures Enabled(Run(START, history), Write(region, at, byte))
  {
    EveryHistoryKeepsInv(history);
    ValidWrites(Run(START, history), region, at, byte);
  }
}
