/**
 What every history of boots, requests, failures and crashes keeps of a segment.
 */
module ShmRuns {
  import opened ShmSegment

  // ---- sums of region sizes ----

  lemma SumStep(s: seq<int>, k: nat)
    requires k < |s|
    ensures Sum(s[..k + 1]) == Sum(s[..k]) + s[k]
  {
    assert s[..k + 1][..k] == s[..k];
  }

  lemma {:induction false} SumMonotone(s: seq<int>, i: nat, j: nat)
    requires WholePages(s) && i <= j <= |s|
    ensures Sum(s[..i]) <= Sum(s[..j])
    decreases j - i
  {
    if i < j {
      SumMonotone(s, i, j - 1);
      SumStep(s, j - 1);
    }
  }

  lemma {:induction false} SumWholePages(s: seq<int>, i: nat)
    requires WholePages(s) && i <= |s|
    ensures Sum(s[..i]) % PAGE == 0 && 0 <= Sum(s[..i])
    decreases i
  {
    if i > 0 {
      SumWholePages(s, i - 1);
      SumStep(s, i - 1);
    }
  }

  // ---- payload bytes ----

  predicate ZeroFrom(payload: seq<int>, n: int)
  {
    forall i :: 0 <= i < |payload| && n <= i ==> payload[i] == 0
  }

  lemma {:induction false} ZerosAreZero(n: nat)
    ensures ZeroFrom(Zeros(n), 0)
  {
    if n > 0 {
      ZerosAreZero(n - 1);
    }
  }

  lemma ExtendIsZero(payload: seq<int>, length: int, n: int)
    requires ZeroFrom(payload, n)
    ensures ZeroFrom(Extend(payload, length), n)
    ensures payload <= Extend(payload, length) && |Extend(payload, length)| >= length
  {
    if length > |payload| {
      ZerosAreZero(length - |payload|);
    }
  }

  /** Touching pages that are already zero changes nothing. */
  lemma {:induction false} TouchIsNoop(payload: seq<int>, start: nat, pages: nat)
    requires start + pages * PAGE <= |payload| && ZeroFrom(payload, start)
    ensures TouchPages(payload, start, pages) == payload
    decreases pages
  {
    if pages > 0 {
      TouchIsNoop(payload, start, pages - 1);
    }
  }

  // ---- the invariant of the file ----

  /** The header agrees with the ledger, apart from at most one unfinished append. */
  predicate Formatted(store: Store)
  {
    && store.Store?
    && FixedTable(store)
    && |store.ledger| <= MAX_REGIONS
    && store.file.header.regionSizes[..|store.ledger|] == store.ledger
    && store.file.header.totalPayloadBytes == Sum(store.ledger)
    && (|| store.file.header.regionCount == |store.ledger|
        || HalfAppended(store))
  }

  /** A region was counted in the table but its bytes not added to the total. */
  predicate HalfAppended(store: Store)
  {
    && store.Store?
    && FixedTable(store)
    && |store.ledger| < MAX_REGIONS
    && store.file.header.regionCount == |store.ledger| + 1
    && store.file.header.regionSizes[|store.ledger|] > 0
  }

  predicate StoreInv(store: Store)
  {
    store.Store? ==>
      && FixedTable(store)
      && WholePages(store.ledger)
      && Sum(store.ledger) <= |store.file.payload|
      && ZeroFrom(store.file.payload, Sum(store.ledger))
      && (!store.file.headerPage ==> store.ledger == [])
      && (Formatted(store) || (store.ledger == [] && store.file.header.regionCount == 0))
  }

  /**
   When a process attaches warm: exactly to a file whose identity matches, whose
   table was completely recorded and whose first region has the requested size. A
   header left half-appended is never attached.
   */
  lemma WarmExactly(store: Store, schema: Schema, aligned: int)
    requires store.Store? && StoreInv(store)
    ensures Compatible(store.file, schema, aligned) <==>
              && store.ledger != []
              && !HalfAppended(store)
              && Matches(store.file.header.identity, schema.identity)
              && store.ledger[0] == aligned
  {
    var header := store.file.header;
    var n := |store.ledger|;
    if Formatted(store) {
      if HalfAppended(store) {
        SumStep(header.regionSizes, n);
        assert !TableOk(header);
      } else {
        assert header.regionSizes[..header.regionCount] == store.ledger;
      }
    }
  }

  // ---- the invariant of a process ----

  /** The regions of the first `n` ledger entries, back to back after the header. */
  function RegionsOf(ledger: seq<int>, n: nat): (r: seq<Region>)
    requires n <= |ledger|
    ensures |r| == n
  {
    if n == 0 then [] else RegionsOf(ledger, n - 1) + [Region(PAYLOAD_OFFSET + Sum(ledger[..n - 1]), ledger[n - 1])]
  }

  predicate SegmentInv(store: Store, p: Process, s: Segment)
  {
    && Formatted(store)
    && store.file.headerPage
    && 0 <= s.allocIndex <= |store.ledger|
    && 0 <= s.recovered <= |store.ledger|
    && (s.allocIndex == |store.ledger| || s.recovered == |store.ledger|)
    && s.cursor == Sum(store.ledger[..s.allocIndex])
    && s.regions == RegionsOf(store.ledger, s.allocIndex)
    && (s.allocIndex < s.recovered ==> !HalfAppended(store))
    && (if s.warm
        then s.recovered == |p.bootLedger| > 0 && store.ledger[..s.recovered] == p.bootLedger
        else s.recovered == 0)
    && Sum(p.bootLedger) <= |p.bootPayload|
    && (s.warm ==> Unread(store.file.payload, p.bootPayload, s.cursor, Sum(p.bootLedger)))
  }

  /** Bytes [from, to) are still those found at boot. */
  predicate Unread(payload: seq<int>, boot: seq<int>, from: int, to: int)
  {
    forall i :: 0 <= i < |payload| && i < |boot| && from <= i < to ==> payload[i] == boot[i]
  }

  predicate ProcessInv(store: Store, p: Process)
  {
    && Sum(p.bootLedger) <= |p.bootPayload|
    && match p.segment
       case None =>
         Ledger(store) == [] || (store.Store? && store.ledger == p.bootLedger && store.file.payload == p.bootPayload)
       case Some(s) => SegmentInv(store, p, s)
  }

  predicate WorldInv(w: World)
  {
    StoreInv(w.store) && (w.process.Some? ==> ProcessInv(w.store, w.process.value))
  }

  // ---- opening ----

  lemma OpenKeepsInv(store: Store, p: Process, aligned: int, env: Env)
    requires StoreInv(store) && ProcessInv(store, p) && p.segment.None?
    ensures var r := Open(store, p.schema, aligned, env);
            && StoreInv(r.store)
            && (r.segment.Some? ==> SegmentInv(r.store, p, r.segment.value))
            && (r.segment.None? ==> r.outcome == Died || r.store == store || Ledger(r.store) == [])
  {
    if env.locks {
      if AttachesWarm(store, p.schema, aligned, env) {
        WarmKeepsInv(store, p, aligned);
      } else if !OldFileStays(store, env) {
        FormatKeepsInv(p, env);
      }
    }
  }

  lemma WarmKeepsInv(store: Store, p: Process, aligned: int)
    requires store.Store? && StoreInv(store) && ProcessInv(store, p) && p.segment.None?
    requires Compatible(store.file, p.schema, aligned)
    ensures SegmentInv(store, p, Segment(true, 0, 0, store.file.header.regionCount, []))
  {
    WarmExactly(store, p.schema, aligned);
    assert store.ledger[..0] == [];
    assert store.ledger[..|store.ledger|] == store.ledger;
  }

  lemma FormatKeepsInv(p: Process, env: Env)
    requires Sum(p.bootLedger) <= |p.bootPayload|
    ensures var r := Format(p.schema, env);
            && StoreInv(r.store) && Ledger(r.store) == []
            && (r.segment.Some? ==> SegmentInv(r.store, p, r.segment.value))
  {
    assert Ledger(Format(p.schema, env).store)[..0] == [];
  }

  // ---- appending a region ----

  /** A store whose next region would start right after the recorded payload. */
  predicate ReadyToAppend(store: Store, s: Segment)
  {
    && StoreInv(store) && Formatted(store) && store.file.headerPage
    && s.allocIndex == |store.ledger| < MAX_REGIONS
    && s.cursor == Sum(store.ledger)
  }

  lemma ReserveKeepsInv(store: Store, length: int)
    requires StoreInv(store) && store.Store?
    ensures var r := Reserve(store, length);
            && StoreInv(r)
            && (Formatted(store) ==> Formatted(r))
            && (HalfAppended(store) <==> HalfAppended(r))
            && store.file.payload <= r.file.payload && |r.file.payload| >= length
  {
    ExtendIsZero(store.file.payload, length, Sum(store.ledger));
  }

  lemma TouchKeepsStore(store: Store, start: nat, pages: nat)
    requires store.Store? && start + pages * PAGE <= |store.file.payload| && ZeroFrom(store.file.payload, start)
    ensures Touch(store, start, pages) == store
  {
    TouchIsNoop(store.file.payload, start, pages);
  }

  /** What an append leaves behind, whichever way it ends. */
  predicate AppendResult(store: Store, s: Segment, aligned: int, r: Step)
  {
    && r.store.Store? && store.Store?
    && StoreInv(r.store)
    && store.file.payload <= r.store.file.payload
    && match r.outcome
       case Handed(region) =>
         && r.store.ledger == store.ledger + [aligned]
         && Formatted(r.store) && !HalfAppended(r.store) && r.store.file.headerPage
         && region == Region(PAYLOAD_OFFSET + s.cursor, aligned)
         && s.cursor + aligned <= |r.store.file.payload|
         && ZeroFrom(r.store.file.payload, s.cursor)
         && r.segment == Some(s.(cursor := s.cursor + aligned,
                                 allocIndex := s.allocIndex + 1,
                                 regions := s.regions + [region]))
       case Died => r.store.ledger == store.ledger || r.store.ledger == store.ledger + [aligned]
       case _ =>
         && (r.outcome == ReserveFailed || r.outcome == MapFailed)
         && r.store.ledger == store.ledger
         && Formatted(r.store) && HalfAppended(r.store) && r.store.file.headerPage
         && r.segment == Some(s)
  }

  lemma {:induction false} AppendKeepsInv(store: Store, s: Segment, aligned: int, env: Env)
    requires ReadyToAppend(store, s) && Allocatable(store, s) && aligned > 0 && aligned % PAGE == 0
    ensures AppendResult(store, s, aligned, Append(store, s, aligned, env))
  {
    var sized := RecordSize(store, s.allocIndex, aligned);
    var counted := RecordCount(sized, s.allocIndex + 1);
    if env.dies == AfterRegionSize {
      SizeKeepsInv(store, s, aligned);
    } else {
      CountKeepsInv(store, s, aligned);
      if env.dies != AfterRegionCount {
        SecureKeepsInv(counted, s, aligned, env);
        AppendResultWeaken(store, counted, s, aligned, SecureRange(counted, s, aligned, env));
      }
    }
  }

  lemma SizeKeepsInv(store: Store, s: Segment, aligned: int)
    requires ReadyToAppend(store, s) && aligned > 0
    ensures StoreInv(RecordSize(store, s.allocIndex, aligned))
  {
    TableSlot(store.file.header.regionSizes, store.ledger, aligned);
  }

  lemma CountKeepsInv(store: Store, s: Segment, aligned: int)
    requires ReadyToAppend(store, s) && s.cursor >= 0 && aligned > 0 && aligned % PAGE == 0
    ensures Appending(RecordCount(RecordSize(store, s.allocIndex, aligned), s.allocIndex + 1), s, aligned)
  {
    TableSlot(store.file.header.regionSizes, store.ledger, aligned);
  }

  /** Writing the first free table slot leaves the recorded ones. */
  lemma TableSlot(sizes: seq<int>, ledger: seq<int>, aligned: int)
    requires |ledger| < |sizes| && sizes[..|ledger|] == ledger
    ensures var next := sizes[|ledger| := aligned];
            next[..|ledger|] == ledger && next[|ledger|] == aligned && |next| == |sizes|
  {
  }

  /** A store between the table entry of a region and its total. */
  predicate Appending(store: Store, s: Segment, aligned: int)
  {
    && StoreInv(store) && Formatted(store) && HalfAppended(store) && store.file.headerPage
    && store.file.header.regionSizes[|store.ledger|] == aligned
    && aligned > 0 && aligned % PAGE == 0
    && s.cursor == Sum(store.ledger) >= 0
  }

  lemma {:induction false} SecureKeepsInv(store: Store, s: Segment, aligned: int, env: Env)
    requires Appending(store, s, aligned)
    ensures AppendResult(store, s, aligned, SecureRange(store, s, aligned, env))
  {
    if env.reserved && env.dies != AfterReserve && env.maps {
      SecuredKeepsInv(store, s, aligned, env);
    } else {
      UnsecuredKeepsInv(store, s, aligned, env);
    }
  }

  lemma {:induction false} SecuredKeepsInv(store: Store, s: Segment, aligned: int, env: Env)
    requires Appending(store, s, aligned) && env.reserved && env.dies != AfterReserve && env.maps
    ensures AppendResult(store, s, aligned, SecureRange(store, s, aligned, env))
  {
    var reserved := Reserve(store, s.cursor + aligned);
    ReserveKeepsAppending(store, s, aligned, s.cursor + aligned);
    assert reserved.ledger == store.ledger;
    SecuredResult(store, reserved, s, aligned, env);
    assert SecureRange(store, s, aligned, env) == TouchAndHandOut(reserved, s, aligned, env);
  }

  lemma {:induction false} SecuredResult(store: Store, reserved: Store, s: Segment, aligned: int, env: Env)
    requires store.Store? && Appending(reserved, s, aligned) && s.cursor + aligned <= |reserved.file.payload|
    requires store.ledger == reserved.ledger && store.file.payload <= reserved.file.payload
    ensures AppendResult(store, s, aligned, TouchAndHandOut(reserved, s, aligned, env))
  {
    TouchKeepsInv(reserved, s, aligned, env);
    AppendResultWeaken(store, reserved, s, aligned, TouchAndHandOut(reserved, s, aligned, env));
  }

  lemma AppendResultWeaken(store: Store, later: Store, s: Segment, aligned: int, r: Step)
    requires store.Store? && later.Store? && store.ledger == later.ledger
    requires store.file.payload <= later.file.payload
    requires AppendResult(later, s, aligned, r)
    ensures AppendResult(store, s, aligned, r)
  {
  }

  lemma {:induction false} UnsecuredKeepsInv(store: Store, s: Segment, aligned: int, env: Env)
    requires Appending(store, s, aligned) && !(env.reserved && env.dies != AfterReserve && env.maps)
    ensures AppendResult(store, s, aligned, SecureRange(store, s, aligned, env))
  {
    var end := s.cursor + aligned;
    ReserveKeepsAppending(store, s, aligned, end);
    ReserveKeepsAppending(store, s, aligned, if env.grownTo < end then env.grownTo else end);
  }

  lemma {:induction false} ReserveKeepsAppending(store: Store, s: Segment, aligned: int, length: int)
    requires Appending(store, s, aligned)
    ensures Appending(Reserve(store, length), s, aligned)
    ensures store.file.payload <= Reserve(store, length).file.payload
    ensures |Reserve(store, length).file.payload| >= length
  {
    ReserveKeepsInv(store, length);
  }

  lemma {:induction false} TouchKeepsInv(store: Store, s: Segment, aligned: int, env: Env)
    requires Appending(store, s, aligned) && s.cursor + aligned <= |store.file.payload|
    ensures AppendResult(store, s, aligned, TouchAndHandOut(store, s, aligned, env))
  {
    TouchKeepsStore(store, s.cursor, aligned / PAGE);
    if env.dies.DuringTouch? && env.dies.pages <= aligned / PAGE {
      TouchKeepsStore(store, s.cursor, env.dies.pages);
    }
    HandOutKeepsInv(store, s, aligned, env);
  }

  lemma HandOutKeepsInv(store: Store, s: Segment, aligned: int, env: Env)
    requires Appending(store, s, aligned) && s.cursor + aligned <= |store.file.payload|
    ensures AppendResult(store, s, aligned, HandOut(store, s, aligned, env))
  {
    var sizes, n := store.file.header.regionSizes, |store.ledger|;
    SumStep(sizes, n);
    assert sizes[..n + 1] == store.ledger + [aligned];
  }

  // ---- allocating ----

  lemma {:induction false} RegionsOfPrefix(a: seq<int>, b: seq<int>, n: nat)
    requires n <= |a| && a <= b
    ensures RegionsOf(a, n) == RegionsOf(b, n)
  {
    if n > 0 {
      RegionsOfPrefix(a, b, n - 1);
      assert a[..n - 1] == b[..n - 1];
    }
  }

  lemma HandedAppendKeepsSegment(store: Store, p: Process, s: Segment, aligned: int, r: Step)
    requires StoreInv(store) && SegmentInv(store, p, s) && s.allocIndex == |store.ledger| && s.recovered <= s.allocIndex
    requires AppendResult(store, s, aligned, r) && r.outcome.Handed?
    ensures SegmentInv(r.store, p, r.segment.value)
  {
    var n := s.allocIndex;
    assert store.ledger[..n] == store.ledger;
    assert r.store.ledger[..n + 1] == r.store.ledger && r.store.ledger[..n] == store.ledger;
    RegionsOfPrefix(store.ledger, r.store.ledger, n);
    assert r.store.ledger[..s.recovered] == store.ledger[..s.recovered];
    BootBelowCursor(store, p, s);
  }

  lemma BootBelowCursor(store: Store, p: Process, s: Segment)
    requires StoreInv(store) && SegmentInv(store, p, s) && s.recovered <= s.allocIndex
    ensures s.warm ==> Sum(p.bootLedger) <= s.cursor
  {
    if s.warm {
      SumMonotone(store.ledger, s.recovered, s.allocIndex);
    }
  }

  lemma FailedAppendKeepsSegment(store: Store, p: Process, s: Segment, aligned: int, r: Step)
    requires StoreInv(store) && SegmentInv(store, p, s) && s.allocIndex == |store.ledger| && s.recovered <= s.allocIndex
    requires AppendResult(store, s, aligned, r) && !r.outcome.Handed? && r.outcome != Died
    ensures SegmentInv(r.store, p, s)
  {
    BootBelowCursor(store, p, s);
  }

  /** Replaying a recorded region leaves the file alone and hands out its bytes. */
  lemma ReplayKeepsSegment(store: Store, p: Process, s: Segment, env: Env)
    requires StoreInv(store) && SegmentInv(store, p, s) && s.allocIndex < s.recovered
    ensures var aligned := store.ledger[s.allocIndex];
            var r := HandOut(store, s, aligned, env);
            && r.store == store
            && (r.outcome != Died ==>
                  && r.outcome == Handed(Region(PAYLOAD_OFFSET + Sum(store.ledger[..s.allocIndex]), aligned))
                  && r.segment.Some? && SegmentInv(store, p, r.segment.value))
  {
    ReplayStaysBelowTotal(store.ledger, s.allocIndex);
    var next := s.(cursor := s.cursor + store.ledger[s.allocIndex],
                   allocIndex := s.allocIndex + 1,
                   regions := RegionsOf(store.ledger, s.allocIndex + 1));
  }

  lemma ReplayStaysBelowTotal(ledger: seq<int>, n: nat)
    requires WholePages(ledger) && n < |ledger|
    ensures Sum(ledger[..n + 1]) == Sum(ledger[..n]) + ledger[n] <= Sum(ledger)
  {
    SumStep(ledger, n);
    SumMonotone(ledger, n + 1, |ledger|);
    assert ledger[..|ledger|] == ledger;
  }

  lemma {:induction false} AllocateKeepsInv(store: Store, p: Process, s: Segment, size: int, env: Env)
    requires StoreInv(store) && SegmentInv(store, p, s) && Allocatable(store, s) && size > 0
    ensures var r := Allocate(store, s, size, env);
            && StoreInv(r.store)
            && (r.outcome != Died ==> r.segment.Some? && SegmentInv(r.store, p, r.segment.value))
  {
    var aligned := Align(size);
    if s.allocIndex < s.recovered {
      assert store.file.header.regionSizes[s.allocIndex] == store.ledger[s.allocIndex];
      ReplayKeepsSegment(store, p, s, env);
    } else if s.allocIndex < MAX_REGIONS {
      AppendKeepsSegment(store, p, s, aligned, env);
    }
  }

  lemma {:induction false} AppendKeepsSegment(store: Store, p: Process, s: Segment, aligned: int, env: Env)
    requires StoreInv(store) && SegmentInv(store, p, s) && Allocatable(store, s)
    requires s.recovered <= s.allocIndex < MAX_REGIONS && aligned > 0 && aligned % PAGE == 0
    ensures var r := Append(store, s, aligned, env);
            && StoreInv(r.store)
            && (r.outcome != Died ==> r.segment.Some? && SegmentInv(r.store, p, r.segment.value))
  {
    assert store.ledger[..|store.ledger|] == store.ledger;
    AppendKeepsInv(store, s, aligned, env);
    var r := Append(store, s, aligned, env);
    if r.outcome.Handed? {
      HandedAppendKeepsSegment(store, p, s, aligned, r);
    } else if r.outcome != Died {
      FailedAppendKeepsSegment(store, p, s, aligned, r);
    }
  }

  // ---- user writes ----

  lemma {:induction false} RegionAt(ledger: seq<int>, n: nat, k: nat)
    requires k < n <= |ledger|
    ensures RegionsOf(ledger, n)[k] == Region(PAYLOAD_OFFSET + Sum(ledger[..k]), ledger[k])
  {
    if k < n - 1 {
      RegionAt(ledger, n - 1, k);
    }
  }

  lemma WriteKeepsInv(w: World, region: nat, at: nat, byte: int)
    requires WorldInv(w) && Enabled(w, Write(region, at, byte))
    ensures WorldInv(Apply(w, Write(region, at, byte)))
  {
    var p := w.process.value;
    var s := p.segment.value;
    RegionBelowCursor(w.store.ledger, s.allocIndex, region);
  }

  lemma RegionBelowCursor(ledger: seq<int>, n: nat, k: nat)
    requires WholePages(ledger) && k < n <= |ledger|
    ensures var region := RegionsOf(ledger, n)[k];
            region.offset - PAYLOAD_OFFSET + region.size <= Sum(ledger[..n]) <= Sum(ledger)
  {
    RegionAt(ledger, n, k);
    SumStep(ledger, k);
    SumMonotone(ledger, k + 1, n);
    SumMonotone(ledger, n, |ledger|);
    assert ledger[..|ledger|] == ledger;
  }

  // ---- what a process may ask ----

  lemma ValidServes(w: World, size: nat, env: Env)
    requires WorldInv(w) && w.process.Some?
    ensures Enabled(w, Request(size, env))
  {
    match w.process.value.segment
    case None =>
    case Some(s) => SumWholePages(w.store.ledger, s.allocIndex);
  }

  lemma ValidWrites(w: World, region: nat, at: nat, byte: int)
    requires WorldInv(w) && w.process.Some? && w.process.value.segment.Some?
    requires region < |w.process.value.segment.value.regions|
    requires at < w.process.value.segment.value.regions[region].size
    ensures Enabled(w, Write(region, at, byte))
  {
    var s := w.process.value.segment.value;
    RegionAt(w.store.ledger, s.allocIndex, region);
    SumWholePages(w.store.ledger, region);
    RegionBelowCursor(w.store.ledger, s.allocIndex, region);
  }

  // ---- every history ----

  lemma {:induction false} ServeKeepsInv(w: World, size: nat, env: Env)
    requires WorldInv(w) && Enabled(w, Request(size, env))
    ensures WorldInv(Apply(w, Request(size, env)))
  {
    var p := w.process.value;
    if size > 0 {
      match p.segment
      case Some(s) => AllocateKeepsInv(w.store, p, s, size, env);
      case None =>
        OpenKeepsInv(w.store, p, Align(size), env);
        var r := Open(w.store, p.schema, Align(size), env);
        if r.segment.Some? {
          AllocateKeepsInv(r.store, p, r.segment.value, size, env);
        }
    }
  }

  lemma {:induction false} ApplyKeepsInv(w: World, a: Action)
    requires WorldInv(w) && Enabled(w, a)
    ensures WorldInv(Apply(w, a))
  {
    match a
    case Boot(_) =>
    case Request(size, env) => ServeKeepsInv(w, size, env);
    case Write(region, at, byte) => WriteKeepsInv(w, region, at, byte);
    case Exit =>
  }

  lemma {:induction false} RunKeepsInv(w: World, actions: seq<Action>)
    requires WorldInv(w) && CanRun(w, actions)
    ensures WorldInv(Run(w, actions))
    decreases |actions|
  {
    if actions != [] {
      ApplyKeepsInv(w, actions[0]);
      RunKeepsInv(Apply(w, actions[0]), actions[1..]);
    }
  }

  lemma {:induction false} RunAppend(w: World, actions: seq<Action>, a: Action)
    requires CanRun(w, actions) && Enabled(Run(w, actions), a)
    ensures CanRun(w, actions + [a]) && Run(w, actions + [a]) == Apply(Run(w, actions), a)
    decreases |actions|
  {
    if actions == [] {
      assert [a][1..] == [];
    } else {
      RunAppend(Apply(w, actions[0]), actions[1..], a);
      assert (actions + [a])[1..] == actions[1..] + [a];
    }
  }

  lemma EveryHistoryKeepsInv(actions: seq<Action>)
    requires CanRun(START, actions)
    ensures WorldInv(Run(START, actions))
  {
    RunKeepsInv(START, actions);
  }
}
