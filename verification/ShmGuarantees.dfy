/**
 What a process may rely on, whatever runs, failures and crashes came before it.
 */
module ShmGuarantees {
  import opened ShmSegment
  import opened ShmRuns

  /** The guards of Request and Write never exclude a reachable request or write. */
  lemma RequestsArePossible(actions: seq<Action>, size: nat, env: Env, region: nat, at: nat, byte: int)
    requires CanRun(START, actions)
    requires var w := Run(START, actions);
             w.process.Some?
    ensures var w := Run(START, actions);
            var segment := w.process.value.segment;
            && Enabled(w, Request(size, env))
            && (segment.Some? && region < |segment.value.regions| && at < segment.value.regions[region].size ==>
                  Enabled(w, Write(region, at, byte)))
  {
    EveryHistoryKeepsInv(actions);
    var w := Run(START, actions);
    ValidServes(w, size, env);
    var segment := w.process.value.segment;
    if segment.Some? && region < |segment.value.regions| && at < segment.value.regions[region].size {
      ValidWrites(w, region, at, byte);
    }
  }

  // ---- warm or cold ----

  /**
   The warm-or-cold decision in every reachable state: warm exactly when a
   matching, completely recorded file with the requested first size is there;
   anything else, a first region of another size included, starts an empty ledger,
   unless the lock or the removal of the old file fails, which changes nothing.
   */
  lemma OpenDecision(actions: seq<Action>, size: nat, env: Env)
    requires CanRun(START, actions) && size > 0
    requires var w := Run(START, actions);
             w.process.Some? && w.process.value.segment.None?
    ensures var w := Run(START, actions);
            var p := w.process.value;
            FixedTable(w.store)
    ensures var w := Run(START, actions);
            var p := w.process.value;
            var r := Open(w.store, p.schema, Align(size), env);
            var warm := && w.store.Store? && env.opensOld && env.oldHeaderMaps
                        && w.store.ledger != [] && !HalfAppended(w.store)
                        && Matches(w.store.file.header.identity, p.schema.identity)
                        && w.store.ledger[0] == Align(size);
            if !env.locks || (!warm && OldFileStays(w.store, env)) then r == Step(w.store, None, OpenFailed)
            else if warm then
              r.store == w.store && r.segment == Some(Segment(true, 0, 0, |w.store.ledger|, []))
            else
              Ledger(r.store) == [] && (r.segment.Some? ==> r.segment == Some(Segment(false, 0, 0, 0, [])))
  {
    EveryHistoryKeepsInv(actions);
    var w := Run(START, actions);
    var p := w.process.value;
    if w.store.Store? {
      WarmExactly(w.store, p.schema, Align(size));
    }
  }

  /** A failed append stays unfinished: the caller gets an error and the header stays half-appended. */
  lemma FailedAppendIsUnfinished(actions: seq<Action>, size: nat, env: Env)
    requires CanRun(START, actions) && size > 0
    requires var w := Run(START, actions);
             && w.process.Some? && w.process.value.segment.Some?
             && var s := w.process.value.segment.value;
                s.allocIndex >= s.recovered && s.allocIndex < MAX_REGIONS
    requires env.dies == Never && (!env.reserved || !env.maps)
    ensures var w := Run(START, actions);
            Enabled(w, Request(size, env)) && Formatted(Apply(w, Request(size, env)).store)
            && HalfAppended(Apply(w, Request(size, env)).store)
  {
    EveryHistoryKeepsInv(actions);
    FailedRequest(Run(START, actions), size, env);
  }

  lemma FailedRequest(w: World, size: nat, env: Env)
    requires WorldInv(w) && w.process.Some? && w.process.value.segment.Some? && size > 0
    requires var s := w.process.value.segment.value;
             s.allocIndex >= s.recovered && s.allocIndex < MAX_REGIONS
    requires env.dies == Never && (!env.reserved || !env.maps)
    ensures Enabled(w, Request(size, env)) && Formatted(Apply(w, Request(size, env)).store)
            && HalfAppended(Apply(w, Request(size, env)).store)
  {
    ValidServes(w, size, env);
    FailedAppend(w.store, w.process.value, w.process.value.segment.value, Align(size), env);
  }

  lemma FailedAppend(store: Store, p: Process, s: Segment, aligned: int, env: Env)
    requires StoreInv(store) && SegmentInv(store, p, s) && Allocatable(store, s)
    requires s.recovered <= s.allocIndex < MAX_REGIONS && aligned > 0 && aligned % PAGE == 0
    requires env.dies == Never && (!env.reserved || !env.maps)
    ensures var r := Append(store, s, aligned, env);
            Formatted(r.store) && HalfAppended(r.store)
  {
    assert store.ledger[..|store.ledger|] == store.ledger;
    AppendKeepsInv(store, s, aligned, env);
  }

  // ---- replaying what a predecessor left ----

  /**
   Below the recovered count a request either asks for the recorded size and gets
   that region, at the recorded place and with the bytes found at boot, or is
   refused with file and allocator unchanged.
   */
  lemma ReplayGetsRecordedRegion(actions: seq<Action>, size: nat, env: Env)
    requires CanRun(START, actions) && size > 0
    requires var w := Run(START, actions);
             && w.process.Some? && w.process.value.segment.Some?
             && w.process.value.segment.value.allocIndex < w.process.value.segment.value.recovered
    ensures var w := Run(START, actions);
            Enabled(w, Request(size, env))
    ensures var w := Run(START, actions);
            var p := w.process.value;
            var s := p.segment.value;
            var k := s.allocIndex;
            var r := Serve(w.store, p, size, env);
            && 0 <= k < |p.bootLedger|
            && r.store == w.store
            && (Align(size) != p.bootLedger[k] ==> r == Step(w.store, Some(s), GeometryMismatch))
            && (r.outcome.Handed? ==>
                  && Align(size) == p.bootLedger[k]
                  && r.outcome.region == Region(PAYLOAD_OFFSET + Sum(p.bootLedger[..k]), p.bootLedger[k])
                  && SameBytes(w.store.file.payload, p.bootPayload, r.outcome.region))
            && (!r.outcome.Handed? ==> r.outcome in {GeometryMismatch, MapFailed, Died})
  {
    EveryHistoryKeepsInv(actions);
    RequestsArePossible(actions, size, env, 0, 0, 0);
    var w := Run(START, actions);
    var p := w.process.value;
    ReplayStep(w.store, p, p.segment.value, size, env);
  }

  /** Both payloads hold the whole region, with equal bytes. */
  predicate SameBytes(a: seq<int>, b: seq<int>, region: Region)
  {
    var start := region.offset - PAYLOAD_OFFSET;
    && 0 <= start && 0 <= region.size && start + region.size <= |a| && start + region.size <= |b|
    && a[start..start + region.size] == b[start..start + region.size]
  }

  lemma ReplayStep(store: Store, p: Process, s: Segment, size: nat, env: Env)
    requires StoreInv(store) && SegmentInv(store, p, s) && Allocatable(store, s)
    requires s.allocIndex < s.recovered && size > 0
    ensures var k := s.allocIndex;
            var r := Allocate(store, s, size, env);
            && 0 <= k < |p.bootLedger|
            && r.store == store
            && (Align(size) != p.bootLedger[k] ==> r == Step(store, Some(s), GeometryMismatch))
            && (r.outcome.Handed? ==>
                  && Align(size) == p.bootLedger[k]
                  && r.outcome.region == Region(PAYLOAD_OFFSET + Sum(p.bootLedger[..k]), p.bootLedger[k])
                  && SameBytes(store.file.payload, p.bootPayload, r.outcome.region))
            && (!r.outcome.Handed? ==> r.outcome in {GeometryMismatch, MapFailed, Died})
  {
    ReplaysRecord(store, p, s);
    ReplayKeepsSegment(store, p, s, env);
    ReplayBytes(store, p, s);
  }

  /** While replaying, table, ledger and boot ledger agree. */
  lemma ReplaysRecord(store: Store, p: Process, s: Segment)
    requires StoreInv(store) && SegmentInv(store, p, s) && s.allocIndex < s.recovered
    ensures var k := s.allocIndex;
            && s.warm && 0 <= k < |p.bootLedger| && k < |store.file.header.regionSizes|
            && p.bootLedger[k] == store.ledger[k] == store.file.header.regionSizes[k]
            && p.bootLedger[..k] == store.ledger[..k]
  {
  }

  lemma ReplayBytes(store: Store, p: Process, s: Segment)
    requires StoreInv(store) && SegmentInv(store, p, s) && s.allocIndex < s.recovered && s.warm
    ensures SameBytes(store.file.payload, p.bootPayload,
                      Region(PAYLOAD_OFFSET + s.cursor, store.ledger[s.allocIndex]))
  {
    var k := s.allocIndex;
    SumWholePages(store.ledger, k);
    ReplayStaysBelowTotal(store.ledger, k);
    SumMonotone(store.ledger, k + 1, s.recovered);
    var from, to := s.cursor, s.cursor + store.ledger[k];
    assert forall i :: from <= i < to ==> store.file.payload[i] == p.bootPayload[i];
  }

  // ---- across a restart ----

  predicate OneProcess(actions: seq<Action>)
  {
    forall i :: 0 <= i < |actions| ==> actions[i].Request? || actions[i].Write?
  }

  lemma {:induction false} BootRecordKept(w: World, actions: seq<Action>)
    requires w.process.Some? && CanRun(w, actions) && OneProcess(actions)
    ensures var w' := Run(w, actions);
            w'.process.Some? ==>
              && w'.process.value.bootLedger == w.process.value.bootLedger
              && w'.process.value.bootPayload == w.process.value.bootPayload
    decreases |actions|
  {
    if actions != [] {
      var next := Apply(w, actions[0]);
      if next.process.Some? {
        BootRecordKept(next, actions[1..]);
      }
    }
  }

  /** The process ends with this action: it exits, or dies anywhere inside a request. */
  predicate Ends(w: World, last: Action)
  {
    w.process.Some? && Enabled(w, last) && Apply(w, last).process.None?
  }

  function Restarted(w: World, last: Action, schema: Schema): (r: World)
    requires Ends(w, last)
  {
    Apply(Apply(w, last), Boot(schema))
  }

  /** Wherever a process with regions stops, the file still records them and holds their bytes. */
  lemma {:induction false} EndKeepsRecord(w: World, last: Action)
    requires WorldInv(w) && Ends(w, last) && w.process.value.segment.Some?
    ensures WorldInv(Apply(w, last))
    ensures var store := Apply(w, last).store;
            && w.store.Store? && store.Store?
            && w.store.ledger <= store.ledger && w.store.file.payload <= store.file.payload
  {
    ApplyKeepsInv(w, last);
    if last.Request? && last.size > 0 {
      AllocateKeepsRecord(w.store, w.process.value, w.process.value.segment.value, last.size, last.env);
    }
  }

  lemma {:induction false} AllocateKeepsRecord(store: Store, p: Process, s: Segment, size: int, env: Env)
    requires StoreInv(store) && SegmentInv(store, p, s) && Allocatable(store, s) && size > 0
    ensures var r := Allocate(store, s, size, env);
            r.store.Store? && store.ledger <= r.store.ledger && store.file.payload <= r.store.file.payload
  {
    if s.allocIndex < s.recovered {
      ReplayKeepsSegment(store, p, s, env);
      assert store.file.header.regionSizes[s.allocIndex] == store.ledger[s.allocIndex];
    } else if s.allocIndex < MAX_REGIONS {
      assert store.ledger[..|store.ledger|] == store.ledger;
      AppendKeepsInv(store, s, Align(size), env);
    }
  }

  lemma {:induction false} SuccessorInv(w: World, last: Action, schema: Schema, actions: seq<Action>)
    requires WorldInv(w) && Ends(w, last) && w.process.value.segment.Some? && OneProcess(actions)
    requires CanRun(Restarted(w, last, schema), actions)
    ensures var w' := Run(Restarted(w, last, schema), actions);
            && WorldInv(w')
            && (w'.process.Some? ==>
                  && w.store.Store?
                  && w.store.ledger <= w'.process.value.bootLedger
                  && w.store.file.payload <= w'.process.value.bootPayload)
  {
    EndKeepsRecord(w, last);
    var restarted := Restarted(w, last, schema);
    ApplyKeepsInv(Apply(w, last), Boot(schema));
    RunKeepsInv(restarted, actions);
    BootRecordKept(restarted, actions);
  }

  /**
   A process exits, or dies anywhere in a request, in any reachable state. A successor
   that attaches warm is handed, allocation by allocation, the regions its predecessor
   held, and found them at boot with the bytes its predecessor left there.
   */
  lemma {:induction false} SuccessorGetsSameRegions(history: seq<Action>, last: Action, schema: Schema,
                                                    actions: seq<Action>, k: nat)
    requires CanRun(START, history)
    requires var w := Run(START, history);
             && Ends(w, last) && w.process.value.segment.Some?
             && OneProcess(actions) && CanRun(Restarted(w, last, schema), actions)
    requires var w := Run(START, history);
             var w' := Run(Restarted(w, last, schema), actions);
             && w'.process.Some? && w'.process.value.segment.Some? && w'.process.value.segment.value.warm
             && k < |w.process.value.segment.value.regions|
             && k < |w'.process.value.segment.value.regions|
    ensures var w := Run(START, history);
            var w' := Run(Restarted(w, last, schema), actions);
            var region := w.process.value.segment.value.regions[k];
            && w'.process.value.segment.value.regions[k] == region
            && w.store.Store?
            && SameBytes(w'.process.value.bootPayload, w.store.file.payload, region)
  {
    EveryHistoryKeepsInv(history);
    var w := Run(START, history);
    SuccessorInv(w, last, schema, actions);
    RegionComesBack(w, Run(Restarted(w, last, schema), actions), k);
  }

  lemma {:induction false} RegionComesBack(w: World, w': World, k: nat)
    requires WorldInv(w) && w.process.Some? && w.process.value.segment.Some?
    requires WorldInv(w') && w'.process.Some? && w'.process.value.segment.Some? && w'.process.value.segment.value.warm
    requires w.store.Store? && w.store.ledger <= w'.process.value.bootLedger
    requires w.store.file.payload <= w'.process.value.bootPayload
    requires k < |w.process.value.segment.value.regions| && k < |w'.process.value.segment.value.regions|
    ensures var region := w.process.value.segment.value.regions[k];
            && w'.process.value.segment.value.regions[k] == region
            && SameBytes(w'.process.value.bootPayload, w.store.file.payload, region)
  {
    var s, s' := w.process.value.segment.value, w'.process.value.segment.value;
    RegionAt(w.store.ledger, s.allocIndex, k);
    RegionAt(w'.store.ledger, s'.allocIndex, k);
    SameEntry(w.store.ledger, w'.store.ledger, s'.recovered, k);
    PrefixHoldsRegion(w.store, s.allocIndex, k, w'.process.value.bootPayload);
  }

  /**
   At the moment the successor is handed region k, the region's bytes are still those
   the predecessor left.
   */
  lemma {:induction false} SuccessorReadsSameBytes(history: seq<Action>, last: Action, schema: Schema,
                                                   actions: seq<Action>, size: nat, env: Env)
    requires CanRun(START, history) && size > 0
    requires var w := Run(START, history);
             && Ends(w, last) && w.process.value.segment.Some?
             && OneProcess(actions) && CanRun(Restarted(w, last, schema), actions)
    requires var w := Run(START, history);
             var w' := Run(Restarted(w, last, schema), actions);
             && w'.process.Some? && w'.process.value.segment.Some? && w'.process.value.segment.value.warm
             && w'.process.value.segment.value.allocIndex < |w.process.value.segment.value.regions|
    ensures var w := Run(START, history);
            var w' := Run(Restarted(w, last, schema), actions);
            var k := w'.process.value.segment.value.allocIndex;
            && Enabled(w', Request(size, env)) && k >= 0
            && var r := Serve(w'.store, w'.process.value, size, env);
               r.outcome.Handed? ==>
                 && r.outcome.region == w.process.value.segment.value.regions[k]
                 && r.store.Store? && w.store.Store?
                 && SameBytes(r.store.file.payload, w.store.file.payload, r.outcome.region)
  {
    EveryHistoryKeepsInv(history);
    var w := Run(START, history);
    SuccessorInv(w, last, schema, actions);
    var w' := Run(Restarted(w, last, schema), actions);
    var p' := w'.process.value;
    SumWholePages(w'.store.ledger, p'.segment.value.allocIndex);
    ReplayReadsRecord(w.store, w.process.value.segment.value.allocIndex, w'.store, p', p'.segment.value, size, env);
  }

  /** Replaying over a file that extends `store` hands out the region and bytes `store` had. */
  lemma {:induction false} ReplayReadsRecord(store: Store, n: nat, later: Store, p: Process, s: Segment,
                                             size: nat, env: Env)
    requires StoreInv(store) && store.Store? && n <= |store.ledger| && size > 0
    requires StoreInv(later) && SegmentInv(later, p, s) && Allocatable(later, s) && s.warm && s.allocIndex < n
    requires store.ledger <= p.bootLedger && store.file.payload <= p.bootPayload
    ensures var r := Allocate(later, s, size, env);
            r.outcome.Handed? ==>
              && r.outcome.region == RegionsOf(store.ledger, n)[s.allocIndex]
              && r.store == later
              && SameBytes(later.file.payload, store.file.payload, r.outcome.region)
  {
    var k := s.allocIndex;
    RegionAt(store.ledger, n, k);
    assert p.bootLedger[..|p.bootLedger|] == p.bootLedger;
    SameEntry(store.ledger, p.bootLedger, |p.bootLedger|, k);
    ReplayStep(later, p, s, size, env);
    PrefixHoldsRegion(store, n, k, p.bootPayload);
  }

  lemma SameEntry(a: seq<int>, b: seq<int>, n: nat, k: nat)
    requires n <= |b| && a <= b[..n] && k < |a|
    ensures k < |b| && a[k] == b[k] && a[..k] == b[..k]
  {
    assert b[..n][k] == b[k];
    assert b[..n][..k] == b[..k];
  }

  /** A longer payload that starts with this one has the same bytes in every region. */
  lemma {:induction false} PrefixHoldsRegion(store: Store, n: nat, k: nat, payload: seq<int>)
    requires StoreInv(store) && store.Store? && k < n <= |store.ledger| && store.file.payload <= payload
    ensures SameBytes(payload, store.file.payload, RegionsOf(store.ledger, n)[k])
  {
    RegionAt(store.ledger, n, k);
    RegionBelowCursor(store.ledger, n, k);
    SumWholePages(store.ledger, k);
  }

  // ---- fresh regions ----

  predicate AllZero(payload: seq<int>, region: Region)
  {
    var start := region.offset - PAYLOAD_OFFSET;
    && 0 <= start && 0 <= region.size && start + region.size <= |payload|
    && forall i :: start <= i < start + region.size ==> payload[i] == 0
  }

  /** A region past the recorded layout is handed out zero in every byte. */
  lemma {:induction false} FreshRegionsAreZero(actions: seq<Action>, size: nat, env: Env)
    requires CanRun(START, actions) && size > 0
    requires Run(START, actions).process.Some?
    ensures var w := Run(START, actions);
            Enabled(w, Request(size, env))
    ensures var w := Run(START, actions);
            var p := w.process.value;
            var r := Serve(w.store, p, size, env);
            r.outcome.Handed? ==>
              && r.segment.Some? && r.store.Store?
              && (r.segment.value.allocIndex > r.segment.value.recovered ==>
                    r.outcome.region.size == Align(size) && AllZero(r.store.file.payload, r.outcome.region))
  {
    EveryHistoryKeepsInv(actions);
    RequestsArePossible(actions, size, env, 0, 0, 0);
    var w := Run(START, actions);
    var p := w.process.value;
    match p.segment
    case Some(s) => FreshAllocation(w.store, p, s, size, env);
    case None =>
      OpenKeepsInv(w.store, p, Align(size), env);
      var r := Open(w.store, p.schema, Align(size), env);
      if r.segment.Some? {
        FreshAllocation(r.store, p, r.segment.value, size, env);
      }
  }

  lemma FreshAllocation(store: Store, p: Process, s: Segment, size: nat, env: Env)
    requires StoreInv(store) && SegmentInv(store, p, s) && Allocatable(store, s) && size > 0
    ensures var r := Allocate(store, s, size, env);
            r.outcome.Handed? && s.allocIndex >= s.recovered ==>
              && r.store.Store?
              && r.outcome.region.size == Align(size)
              && AllZero(r.store.file.payload, r.outcome.region)
    ensures var r := Allocate(store, s, size, env);
            r.outcome.Handed? ==>
              && r.store.Store? && r.segment.Some?
              && r.segment.value.allocIndex == s.allocIndex + 1 && r.segment.value.recovered == s.recovered
  {
    if s.recovered <= s.allocIndex < MAX_REGIONS {
      assert store.ledger[..|store.ledger|] == store.ledger;
      SumWholePages(store.ledger, s.allocIndex);
      AppendKeepsInv(store, s, Align(size), env);
    }
  }

  /** The regions of a run are page-aligned, disjoint, past the header and in the file. */
  lemma {:induction false} RegionsAreSeparate(actions: seq<Action>, i: nat, j: nat)
    requires CanRun(START, actions)
    requires var w := Run(START, actions);
             w.process.Some? && w.process.value.segment.Some?
             && i < j < |w.process.value.segment.value.regions|
    ensures var w := Run(START, actions);
            var a, b := w.process.value.segment.value.regions[i], w.process.value.segment.value.regions[j];
            && a.offset % PAGE == 0 && a.size % PAGE == 0 && a.size > 0
            && PAYLOAD_OFFSET <= a.offset && a.offset + a.size <= b.offset
            && w.store.Store?
            && b.offset + b.size <= PAYLOAD_OFFSET + |w.store.file.payload|
  {
    EveryHistoryKeepsInv(actions);
    var w := Run(START, actions);
    LedgerRegionsSeparate(w.store, w.process.value, w.process.value.segment.value, i, j);
  }

  lemma {:induction false} LedgerRegionsSeparate(store: Store, p: Process, s: Segment, i: nat, j: nat)
    requires StoreInv(store) && SegmentInv(store, p, s) && i < j < |s.regions|
    ensures var a, b := s.regions[i], s.regions[j];
            && a.offset % PAGE == 0 && a.size % PAGE == 0 && a.size > 0
            && PAYLOAD_OFFSET <= a.offset && a.offset + a.size <= b.offset
            && store.Store?
            && b.offset + b.size <= PAYLOAD_OFFSET + |store.file.payload|
  {
    LedgerOrder(store.ledger, s.allocIndex, i, j);
    RegionBelowCursor(store.ledger, s.allocIndex, j);
  }

  lemma {:induction false} LedgerOrder(ledger: seq<int>, n: nat, i: nat, j: nat)
    requires WholePages(ledger) && i < j < n <= |ledger|
    ensures var a, b := RegionsOf(ledger, n)[i], RegionsOf(ledger, n)[j];
            && a.offset % PAGE == 0 && a.size % PAGE == 0 && a.size > 0
            && PAYLOAD_OFFSET <= a.offset && a.offset + a.size <= b.offset
  {
    RegionAt(ledger, n, i);
    RegionAt(ledger, n, j);
    SumWholePages(ledger, i);
    SumStep(ledger, i);
    SumMonotone(ledger, i + 1, j);
  }

  /** In every reachable file all bytes past the recorded payload are zero. */
  lemma PastPayloadIsZero(actions: seq<Action>)
    requires CanRun(START, actions) && Run(START, actions).store.Store?
    ensures var store := Run(START, actions).store;
            Sum(store.ledger) <= |store.file.payload| && ZeroFrom(store.file.payload, Sum(store.ledger))
  {
    EveryHistoryKeepsInv(actions);
  }
}
