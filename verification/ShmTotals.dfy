/**
 When the recorded total is the sum of the recorded region sizes, which the header's
 declaration promises always. It is decided by where the last writer stopped: between
 the count and the total of an append, or between copying the schema and zeroing its
 total.
 */
module ShmTotals {
  import opened ShmSegment
  import opened ShmRuns

  /** How far the last header writes got. */
  datatype Stop =
    | Whole
    | Counted
    | Seeded(total: int)

  function AppendStop(before: Stop, aligned: int, env: Env): (r: Stop)
  {
    if env.dies == AfterRegionSize then before
    else if env.dies == AfterRegionCount || !env.reserved || env.dies == AfterReserve || !env.maps then Counted
    else if env.dies.DuringTouch? && env.dies.pages <= aligned / PAGE then Counted
    else Whole
  }

  /** Replaying and refusing write nothing. */
  function AllocateStop(before: Stop, s: Segment, size: int, env: Env): (r: Stop)
  {
    if s.allocIndex < s.recovered || s.allocIndex >= MAX_REGIONS then before
    else AppendStop(before, Align(size), env)
  }

  function FormatStop(schema: Schema, env: Env): (r: Stop)
  {
    if !env.creates || !env.headerReserved || !env.newHeaderMaps then Whole
    else if env.dies.DuringHeaderCopy? then Seeded(env.dies.tornTotal)
    else if env.dies == AfterHeaderCopy then Seeded(schema.totalPayloadBytes)
    else Whole
  }

  function OpenStop(before: Stop, store: Store, schema: Schema, aligned: int, env: Env): (r: Stop)
  {
    if !env.locks || AttachesWarm(store, schema, aligned, env) || OldFileStays(store, env) then before
    else FormatStop(schema, env)
  }

  function ServeStop(before: Stop, store: Store, p: Process, size: nat, env: Env): (r: Stop)
    requires FixedTable(store)
  {
    if size == 0 then before
    else if p.segment.Some? then AllocateStop(before, p.segment.value, size, env)
    else
      var attached := Open(store, p.schema, Align(size), env);
      var stop := OpenStop(before, store, p.schema, Align(size), env);
      if attached.segment.None? then stop else AllocateStop(stop, attached.segment.value, size, env)
  }

  /** Where the last writer of a history stopped. */
  function StopAfter(w: World, before: Stop, actions: seq<Action>): (r: Stop)
    requires CanRun(w, actions)
    decreases |actions|
  {
    if actions == [] then before
    else
      var a := actions[0];
      var stop := if a.Request? then ServeStop(before, w.store, w.process.value, a.size, a.env) else before;
      StopAfter(Apply(w, a), stop, actions[1..])
  }

  // ---- the invariant ----

  predicate StopInv(store: Store, stop: Stop)
  {
    store.Store? ==>
      match stop
      case Whole => Formatted(store) && !HalfAppended(store)
      case Counted => Formatted(store) && HalfAppended(store)
      case Seeded(total) =>
        store.ledger == [] && store.file.header.regionCount == 0 && store.file.header.totalPayloadBytes == total
  }

  lemma {:induction false} HandOutIsWhole(store: Store, s: Segment, aligned: int, env: Env)
    requires Appending(store, s, aligned)
    ensures var r := HandOut(store, s, aligned, env).store;
            Formatted(r) && !HalfAppended(r)
  {
    var r := HandOut(store, s, aligned, env).store;
    SumStep(store.file.header.regionSizes, |store.ledger|);
    assert r.ledger == r.file.header.regionSizes[..|r.ledger|];
  }

  lemma {:induction false} SecureKeepsStop(store: Store, s: Segment, aligned: int, env: Env, before: Stop)
    requires Appending(store, s, aligned) && env.dies != AfterRegionSize && env.dies != AfterRegionCount
    ensures StopInv(SecureRange(store, s, aligned, env).store, AppendStop(before, aligned, env))
  {
    var end := s.cursor + aligned;
    var reserved := Reserve(store, if !env.reserved && env.grownTo < end then env.grownTo else end);
    ReserveKeepsAppending(store, s, aligned, if !env.reserved && env.grownTo < end then env.grownTo else end);
    if env.reserved && env.dies != AfterReserve && env.maps {
      TouchKeepsStop(reserved, s, aligned, env);
      assert SecureRange(store, s, aligned, env) == TouchAndHandOut(reserved, s, aligned, env);
    } else {
      AppendingIsCounted(reserved, s, aligned);
      assert SecureRange(store, s, aligned, env).store == reserved;
    }
  }

  lemma AppendingIsCounted(store: Store, s: Segment, aligned: int)
    requires Appending(store, s, aligned)
    ensures StopInv(store, Counted)
  {
  }

  lemma {:induction false} TouchKeepsStop(store: Store, s: Segment, aligned: int, env: Env)
    requires Appending(store, s, aligned) && s.cursor + aligned <= |store.file.payload|
    ensures StopInv(TouchAndHandOut(store, s, aligned, env).store,
                    if env.dies.DuringTouch? && env.dies.pages <= aligned / PAGE then Counted else Whole)
  {
    TouchKeepsStore(store, s.cursor, aligned / PAGE);
    if env.dies.DuringTouch? && env.dies.pages <= aligned / PAGE {
      TouchKeepsStore(store, s.cursor, env.dies.pages);
    }
    HandOutIsWhole(store, s, aligned, env);
  }

  lemma {:induction false} AppendKeepsStop(store: Store, s: Segment, aligned: int, env: Env, before: Stop)
    requires ReadyToAppend(store, s) && Allocatable(store, s) && aligned > 0 && aligned % PAGE == 0
    requires StopInv(store, before)
    ensures StopInv(Append(store, s, aligned, env).store, AppendStop(before, aligned, env))
  {
    var sized := RecordSize(store, s.allocIndex, aligned);
    assert sized.file.header.regionSizes[..|store.ledger|] == store.file.header.regionSizes[..|store.ledger|];
    if env.dies != AfterRegionSize {
      var counted := RecordCount(sized, s.allocIndex + 1);
      if env.dies != AfterRegionCount {
        SecureKeepsStop(counted, s, aligned, env, before);
      }
    }
  }

  lemma {:induction false} AllocateKeepsStop(store: Store, p: Process, s: Segment, size: int, env: Env, before: Stop)
    requires StoreInv(store) && SegmentInv(store, p, s) && Allocatable(store, s) && size > 0
    requires StopInv(store, before)
    ensures StopInv(Allocate(store, s, size, env).store, AllocateStop(before, s, size, env))
  {
    if s.allocIndex < s.recovered {
      ReplayKeepsSegment(store, p, s, env);
      assert store.file.header.regionSizes[s.allocIndex] == store.ledger[s.allocIndex];
    } else if s.allocIndex < MAX_REGIONS {
      assert store.ledger[..|store.ledger|] == store.ledger;
      AppendKeepsStop(store, s, Align(size), env, before);
    }
  }

  lemma {:induction false} FormatKeepsStop(schema: Schema, env: Env)
    ensures StopInv(Format(schema, env).store, FormatStop(schema, env))
  {
    assert Zeros(MAX_REGIONS)[..0] == [];
  }

  lemma {:induction false} ApplyKeepsStop(w: World, a: Action, before: Stop)
    requires WorldInv(w) && Enabled(w, a) && StopInv(w.store, before)
    ensures StopInv(Apply(w, a).store,
                    if a.Request? then ServeStop(before, w.store, w.process.value, a.size, a.env) else before)
  {
    if a.Request? && a.size > 0 {
      var p := w.process.value;
      match p.segment
      case Some(s) => AllocateKeepsStop(w.store, p, s, a.size, a.env, before);
      case None =>
        var r := Open(w.store, p.schema, Align(a.size), a.env);
        FormatKeepsStop(p.schema, a.env);
        OpenKeepsInv(w.store, p, Align(a.size), a.env);
        var stop := OpenStop(before, w.store, p.schema, Align(a.size), a.env);
        assert StopInv(r.store, stop);
        if r.segment.Some? {
          AllocateKeepsStop(r.store, p, r.segment.value, a.size, a.env, stop);
        }
    }
  }

  lemma {:induction false} RunKeepsStop(w: World, actions: seq<Action>, before: Stop)
    requires WorldInv(w) && CanRun(w, actions) && StopInv(w.store, before)
    ensures StopInv(Run(w, actions).store, StopAfter(w, before, actions))
    decreases |actions|
  {
    if actions != [] {
      var a := actions[0];
      ApplyKeepsInv(w, a);
      ApplyKeepsStop(w, a, before);
      var stop := if a.Request? then ServeStop(before, w.store, w.process.value, a.size, a.env) else before;
      RunKeepsStop(Apply(w, a), actions[1..], stop);
    }
  }

  // ---- guarantees ----

  function Recorded(header: Header): (r: int)
    requires 0 <= header.regionCount <= |header.regionSizes|
  {
    Sum(header.regionSizes[..header.regionCount])
  }

  /**
   In every reachable file the total is the sum of the table if and only if the last
   writer stopped neither inside an append nor with a schema total other than zero.
   After a stopped append exactly the last region is missing from the total.
   */
  lemma {:induction false} TotalIsSumExactly(actions: seq<Action>)
    requires CanRun(START, actions) && Run(START, actions).store.Store?
    ensures var header := Run(START, actions).store.file.header;
            var stop := StopAfter(START, Whole, actions);
            && 0 <= header.regionCount <= |header.regionSizes|
            && (header.totalPayloadBytes == Recorded(header) <==> stop == Whole || stop == Seeded(0))
            && (stop == Counted ==>
                  && header.regionCount > 0
                  && Recorded(header) == header.totalPayloadBytes + header.regionSizes[header.regionCount - 1])
            && (stop.Seeded? ==> header.regionCount == 0 && header.totalPayloadBytes == stop.total)
  {
    EveryHistoryKeepsInv(actions);
    RunKeepsStop(START, actions, Whole);
    var store := Run(START, actions).store;
    if HalfAppended(store) {
      SumStep(store.file.header.regionSizes, |store.ledger|);
    }
  }

  const CALM := Env(true, true, true, true, true, true, true, true, true, 0, true, Never)

  lemma RunOfTwo(w: World, a: Action, b: Action)
    requires Enabled(w, a) && Enabled(Apply(w, a), b)
    ensures CanRun(w, [a, b]) && Run(w, [a, b]) == Apply(Apply(w, a), b)
  {
    var last := Apply(Apply(w, a), b);
    assert [a, b][1..] == [b] && [b][1..] == [];
    assert CanRun(last, []) && CanRun(Apply(w, a), [b]);
    assert Run(Apply(w, a), [b]) == Run(last, []) == last;
  }

  /** A first request whose reservation fails: one region is counted and the total is zero. */
  lemma {:induction false} FailedAppendDisagrees(schema: Schema)
    ensures var actions := [Boot(schema), Request(1, CALM.(reserved := false))];
            && CanRun(START, actions)
            && var store := Run(START, actions).store;
               && store.Store? && store.file.header.regionCount == 1
               && store.file.header.regionSizes != []
               && store.file.header.regionSizes[0] == PAGE
               && store.file.header.totalPayloadBytes == 0
  {
    RunOfTwo(START, Boot(schema), Request(1, CALM.(reserved := false)));
  }

  /** A crash right after the schema copy: no region is counted and the schema's total stands. */
  lemma {:induction false} SeededTotalDisagrees(schema: Schema)
    ensures var actions := [Boot(schema), Request(1, CALM.(dies := AfterHeaderCopy))];
            && CanRun(START, actions)
            && var store := Run(START, actions).store;
               && store.Store? && store.file.header.regionCount == 0
               && store.file.header.totalPayloadBytes == schema.totalPayloadBytes
  {
    RunOfTwo(START, Boot(schema), Request(1, CALM.(dies := AfterHeaderCopy)));
  }
}
