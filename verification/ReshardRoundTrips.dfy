/**
 Compiling and lowering are inverse to each other exactly up to what the plan
 languages cannot express, in both directions.
 */
module ReshardRoundTrips {
  import opened Ascents
  import opened ReshardPlans

  // ---- one rank at a time ----

  /** The steps of one rank, in program order. */
  function OfRank(steps: seq<TransferStep>, rank: int): (r: seq<TransferStep>)
  {
    if steps == [] then []
    else
      var last := steps[|steps| - 1];
      var rest := OfRank(steps[..|steps| - 1], rank);
      if last.sourceRank == rank then rest + [last] else rest
  }

  lemma {:induction false} OfRankConcat(a: seq<TransferStep>, b: seq<TransferStep>, rank: int)
    ensures OfRank(a + b, rank) == OfRank(a, rank) + OfRank(b, rank)
  {
    if b == [] {
      assert a + b == a;
    } else {
      var front, last := b[..|b| - 1], b[|b| - 1];
      OfRankConcat(a, front, rank);
      assert a + front + [last] == a + b;
    }
  }

  lemma {:induction false} OfRankMember(steps: seq<TransferStep>, i: nat)
    requires i < |steps|
    ensures OfRank(steps, steps[i].sourceRank) != []
  {
    if i < |steps| - 1 {
      OfRankMember(steps[..|steps| - 1], i);
    }
  }

  lemma {:induction false} OfRankNonEmpty(steps: seq<TransferStep>, rank: int) returns (i: nat)
    requires OfRank(steps, rank) != []
    ensures i < |steps| && steps[i].sourceRank == rank
  {
    var last := steps[|steps| - 1];
    if last.sourceRank == rank {
      i := |steps| - 1;
    } else {
      i := OfRankNonEmpty(steps[..|steps| - 1], rank);
    }
  }

  // ---- sorted step lists ----

  predicate SortedByRank(steps: seq<TransferStep>)
  {
    forall i, j :: 0 <= i < j < |steps| ==> steps[i].sourceRank <= steps[j].sourceRank
  }

  ghost predicate SameRanks(a: seq<TransferStep>, b: seq<TransferStep>)
  {
    forall rank: int :: OfRank(a, rank) == OfRank(b, rank)
  }

  /** Sorted by rank with each rank's order kept: there is only one such list. */
  lemma {:induction false} StableOrderIsUnique(a: seq<TransferStep>, b: seq<TransferStep>)
    requires SortedByRank(a) && SortedByRank(b) && SameRanks(a, b)
    ensures a == b
    decreases |a|
  {
    if a == [] {
      if b != [] {
        OfRankMember(b, 0);
      }
    } else {
      SameLast(a, b);
      var a', b' := a[..|a| - 1], b[..|b| - 1];
      var last := a[|a| - 1];
      forall rank: int
        ensures OfRank(a', rank) == OfRank(b', rank)
      {
        assert a == a' + [last] && b == b' + [last];
        assert OfRank(a, rank) == OfRank(b, rank);
        if rank == last.sourceRank {
          DropLast(OfRank(a', rank), OfRank(b', rank), last);
        }
      }
      StableOrderIsUnique(a', b');
      assert a == a' + [last] && b == b' + [last];
    }
  }

  lemma DropLast(a: seq<TransferStep>, b: seq<TransferStep>, last: TransferStep)
    requires a + [last] == b + [last]
    ensures a == b
  {
    assert a == (a + [last])[..|a|];
    assert |a + [last]| == |b + [last]|;
    assert b == (b + [last])[..|b|];
  }

  lemma SameLast(a: seq<TransferStep>, b: seq<TransferStep>)
    requires SortedByRank(a) && SortedByRank(b) && SameRanks(a, b) && a != []
    ensures b != [] && b[|b| - 1] == a[|a| - 1]
  {
    var top := a[|a| - 1].sourceRank;
    OfRankMember(a, |a| - 1);
    assert OfRank(b, top) == OfRank(a, top);
    var i := OfRankNonEmpty(b, top);
    var top' := b[|b| - 1].sourceRank;
    OfRankMember(b, |b| - 1);
    assert OfRank(a, top') == OfRank(b, top');
    var j := OfRankNonEmpty(a, top');
    assert top == top';
    assert OfRank(a, top)[|OfRank(a, top)| - 1] == a[|a| - 1];
    assert OfRank(b, top)[|OfRank(b, top)| - 1] == b[|b| - 1];
  }

  /** Puts a step behind every step of no greater rank. */
  function Insert(steps: seq<TransferStep>, s: TransferStep): (r: seq<TransferStep>)
  {
    if steps == [] || steps[|steps| - 1].sourceRank <= s.sourceRank then steps + [s]
    else Insert(steps[..|steps| - 1], s) + [steps[|steps| - 1]]
  }

  /** Stable insertion sort by source rank. */
  function StableSort(steps: seq<TransferStep>): (r: seq<TransferStep>)
  {
    if steps == [] then [] else Insert(StableSort(steps[..|steps| - 1]), steps[|steps| - 1])
  }

  lemma {:induction false} InsertKeeps(steps: seq<TransferStep>, s: TransferStep, rank: int)
    requires SortedByRank(steps)
    ensures OfRank(Insert(steps, s), rank) == OfRank(steps + [s], rank)
  {
    if steps != [] && steps[|steps| - 1].sourceRank > s.sourceRank {
      var front, last := steps[..|steps| - 1], steps[|steps| - 1];
      InsertKeeps(front, s, rank);
    }
  }

  lemma {:induction false} InsertSorts(steps: seq<TransferStep>, s: TransferStep)
    requires SortedByRank(steps)
    ensures SortedByRank(Insert(steps, s)) && |Insert(steps, s)| == |steps| + 1
  {
    if steps != [] && steps[|steps| - 1].sourceRank > s.sourceRank {
      var front, last := steps[..|steps| - 1], steps[|steps| - 1];
      InsertSorts(front, s);
      InsertMembers(front, s);
      forall i | 0 <= i < |Insert(front, s)|
        ensures Insert(front, s)[i].sourceRank <= last.sourceRank
      {
        assert Insert(front, s)[i] in Insert(front, s);
      }
      AppendSorts(Insert(front, s), last);
    } else {
      AppendSorts(steps, s);
    }
  }

  lemma AppendSorts(steps: seq<TransferStep>, last: TransferStep)
    requires SortedByRank(steps)
    requires steps == [] || steps[|steps| - 1].sourceRank <= last.sourceRank
             || forall i :: 0 <= i < |steps| ==> steps[i].sourceRank <= last.sourceRank
    ensures SortedByRank(steps + [last])
  {
  }

  lemma {:induction false} InsertMembers(steps: seq<TransferStep>, s: TransferStep)
    ensures forall t :: t in Insert(steps, s) <==> t in steps || t == s
  {
    if steps != [] && steps[|steps| - 1].sourceRank > s.sourceRank {
      var front, last := steps[..|steps| - 1], steps[|steps| - 1];
      InsertMembers(front, s);
      assert steps == front + [last];
    }
  }

  /** The stable sort is sorted and keeps every rank's steps in order. */
  lemma {:induction false} StableSortIsStable(steps: seq<TransferStep>)
    ensures SortedByRank(StableSort(steps)) && SameRanks(steps, StableSort(steps))
    ensures forall t :: t in StableSort(steps) <==> t in steps
  {
    if steps != [] {
      var front, last := steps[..|steps| - 1], steps[|steps| - 1];
      StableSortIsStable(front);
      InsertSorts(StableSort(front), last);
      InsertMembers(StableSort(front), last);
      assert steps == front + [last];
      forall rank: int
        ensures OfRank(steps, rank) == OfRank(StableSort(steps), rank)
      {
        assert OfRank(front, rank) == OfRank(StableSort(front), rank);
        InsertKeepsRank(front, last, rank);
      }
    }
  }

  lemma InsertKeepsRank(front: seq<TransferStep>, last: TransferStep, rank: int)
    requires SortedByRank(StableSort(front)) && OfRank(front, rank) == OfRank(StableSort(front), rank)
    ensures OfRank(front + [last], rank) == OfRank(Insert(StableSort(front), last), rank)
  {
    InsertKeeps(StableSort(front), last, rank);
    OfRankAppend(front, last, rank);
    OfRankAppend(StableSort(front), last, rank);
  }

  lemma OfRankAppend(steps: seq<TransferStep>, s: TransferStep, rank: int)
    ensures OfRank(steps + [s], rank) == OfRank(steps, rank) + if s.sourceRank == rank then [s] else []
  {
    assert (steps + [s])[..|steps|] == steps;
  }

  // ---- rank blocks ----

  lemma {:induction false} StepsOfRank(rank: int, entries: seq<Entry>, k: int)
    ensures |StepsOf(rank, entries)| == |entries|
    ensures OfRank(StepsOf(rank, entries), k) == if k == rank then StepsOf(rank, entries) else []
    ensures forall i :: 0 <= i < |entries| ==> StepsOf(rank, entries)[i].sourceRank == rank
  {
    if entries != [] {
      var front, last := entries[..|entries| - 1], entries[|entries| - 1];
      StepsOfRank(rank, front, k);
    }
  }

  lemma {:induction false} BlocksOfOtherRank(schedules: map<int, seq<Entry>>, ranks: seq<int>, k: int)
    requires forall rank :: rank in ranks ==> rank in schedules
    requires k !in ranks
    ensures OfRank(Blocks(schedules, ranks), k) == []
  {
    if ranks != [] {
      var front, last := ranks[..|ranks| - 1], ranks[|ranks| - 1];
      BlocksOfOtherRank(schedules, front, k);
      StepsOfRank(last, schedules[last], k);
      OfRankConcat(Blocks(schedules, front), StepsOf(last, schedules[last]), k);
    }
  }

  lemma {:induction false} BlocksOfRank(schedules: map<int, seq<Entry>>, ranks: seq<int>, k: int)
    requires forall rank :: rank in ranks ==> rank in schedules
    requires StrictlyAscending(ranks) && k in ranks
    ensures OfRank(Blocks(schedules, ranks), k) == StepsOf(k, schedules[k])
  {
    var front, last := ranks[..|ranks| - 1], ranks[|ranks| - 1];
    StepsOfRank(last, schedules[last], k);
    OfRankConcat(Blocks(schedules, front), StepsOf(last, schedules[last]), k);
    if k == last {
      BlocksOfOtherRank(schedules, front, k);
    } else {
      BlocksOfRank(schedules, front, k);
    }
  }

  lemma {:induction false} BlocksSorted(schedules: map<int, seq<Entry>>, ranks: seq<int>)
    requires forall rank :: rank in ranks ==> rank in schedules
    requires StrictlyAscending(ranks)
    ensures SortedByRank(Blocks(schedules, ranks))
    ensures forall i :: 0 <= i < |Blocks(schedules, ranks)| ==> Blocks(schedules, ranks)[i].sourceRank in ranks
  {
    if ranks != [] {
      var front, last := ranks[..|ranks| - 1], ranks[|ranks| - 1];
      BlocksSorted(schedules, front);
      StepsOfRank(last, schedules[last], last);
      assert ranks == front + [last];
      SortedConcat(Blocks(schedules, front), StepsOf(last, schedules[last]), front, last);
    }
  }

  lemma SortedConcat(a: seq<TransferStep>, b: seq<TransferStep>, ranks: seq<int>, last: int)
    requires SortedByRank(a) && StrictlyAscending(ranks + [last])
    requires forall i :: 0 <= i < |a| ==> a[i].sourceRank in ranks
    requires forall i :: 0 <= i < |b| ==> b[i].sourceRank == last
    ensures SortedByRank(a + b)
    ensures forall i :: 0 <= i < |a + b| ==> (a + b)[i].sourceRank in ranks + [last]
  {
    forall r | r in ranks
      ensures r < last
    {
      var i :| 0 <= i < |ranks| && ranks[i] == r;
      assert (ranks + [last])[i] < (ranks + [last])[|ranks|];
    }
  }

  // ---- lowering rank by rank ----

  function EntriesOf(steps: seq<TransferStep>): (r: seq<Entry>)
    requires AllLowerable(steps)
  {
    if steps == [] then [] else EntriesOf(steps[..|steps| - 1]) + [EntryOf(steps[|steps| - 1])]
  }

  lemma {:induction false} OfRankLowerable(steps: seq<TransferStep>, rank: int)
    requires AllLowerable(steps)
    ensures AllLowerable(OfRank(steps, rank))
  {
    if steps != [] {
      OfRankLowerable(steps[..|steps| - 1], rank);
    }
  }

  /** Lowering collects each rank's steps in order and creates no other schedule. */
  lemma {:induction false} SchedulesAt(steps: seq<TransferStep>, rank: int)
    requires AllLowerable(steps)
    ensures AllLowerable(OfRank(steps, rank))
    ensures rank in Schedules(steps) <==> OfRank(steps, rank) != []
    ensures rank in Schedules(steps) ==> Schedules(steps)[rank] == EntriesOf(OfRank(steps, rank))
  {
    OfRankLowerable(steps, rank);
    if steps != [] {
      var front, last := steps[..|steps| - 1], steps[|steps| - 1];
      SchedulesAt(front, rank);
    }
  }

  // ---- request, compiled and lowered ----

  /** The part of an entry a program can carry. */
  function Carried(e: Entry): (r: Entry)
  {
    e.(extra := NO_ENTRY_EXTRA)
  }

  function AllCarried(entries: seq<Entry>): (r: seq<Entry>)
  {
    if entries == [] then [] else AllCarried(entries[..|entries| - 1]) + [Carried(entries[|entries| - 1])]
  }

  ghost function EssentialSchedules(schedules: map<int, seq<Entry>>): (r: map<int, seq<Entry>>)
  {
    map rank | rank in schedules && schedules[rank] != [] :: AllCarried(schedules[rank])
  }

  /** A request without empty ranks and without the fields programs have no place for. */
  ghost function Essence(r: Request): (e: Request)
  {
    r.(schedules := EssentialSchedules(r.schedules), extra := NO_REQUEST_EXTRA)
  }

  /** Nothing in the request is lost in a program. */
  predicate Expressible(r: Request)
  {
    && r.extra == NO_REQUEST_EXTRA
    && forall rank :: rank in r.schedules ==> r.schedules[rank] != [] && NoExtras(r.schedules[rank])
  }

  predicate NoExtras(entries: seq<Entry>)
  {
    forall i :: 0 <= i < |entries| ==> entries[i].extra == NO_ENTRY_EXTRA
  }

  lemma {:induction false} EntriesOfSteps(rank: int, entries: seq<Entry>)
    requires EntriesInRange(entries)
    ensures AllLowerable(StepsOf(rank, entries))
    ensures EntriesOf(StepsOf(rank, entries)) == AllCarried(entries)
  {
    if entries != [] {
      var front, last := entries[..|entries| - 1], entries[|entries| - 1];
      EntriesOfSteps(rank, front);
      var steps := StepsOf(rank, entries);
      assert steps[..|steps| - 1] == StepsOf(rank, front);
    }
  }

  lemma {:induction false} BlocksLowerable(schedules: map<int, seq<Entry>>, ranks: seq<int>)
    requires SchedulesInRange(schedules)
    requires forall rank :: rank in ranks ==> rank in schedules
    ensures AllLowerable(Blocks(schedules, ranks))
  {
    if ranks != [] {
      BlocksLowerable(schedules, ranks[..|ranks| - 1]);
      EntriesOfSteps(ranks[|ranks| - 1], schedules[ranks[|ranks| - 1]]);
    }
  }

  lemma {:induction false} GroupsRoundTrip(groups: seq<PoolGroup>)
    ensures PoolGroups(FanInGroups(groups)) == groups && |FanInGroups(groups)| == |groups|
  {
    if groups != [] {
      var front := groups[..|groups| - 1];
      GroupsRoundTrip(front);
      assert FanInGroups(groups)[..|groups| - 1] == FanInGroups(front);
    }
  }

  lemma {:induction false} GroupsRoundTripBack(groups: seq<FanInGroup>)
    ensures FanInGroups(PoolGroups(groups)) == groups && |PoolGroups(groups)| == |groups|
  {
    if groups != [] {
      var front := groups[..|groups| - 1];
      GroupsRoundTripBack(front);
      assert PoolGroups(groups)[..|groups| - 1] == PoolGroups(front);
    }
  }

  lemma ScheduleOfBlock(schedules: map<int, seq<Entry>>, ranks: seq<int>, rank: int)
    requires SchedulesInRange(schedules) && StrictlyAscending(ranks)
    requires forall k :: k in ranks <==> k in schedules
    requires AllLowerable(Blocks(schedules, ranks))
    ensures var lowered := Schedules(Blocks(schedules, ranks));
            && (rank in lowered <==> rank in schedules && schedules[rank] != [])
            && (rank in lowered ==> lowered[rank] == AllCarried(schedules[rank]))
  {
    SchedulesAt(Blocks(schedules, ranks), rank);
    if rank in schedules {
      BlocksOfRank(schedules, ranks, rank);
      StepsOfRank(rank, schedules[rank], rank);
      EntriesOfSteps(rank, schedules[rank]);
    } else {
      BlocksOfOtherRank(schedules, ranks, rank);
    }
  }

  lemma SchedulesOfBlocks(schedules: map<int, seq<Entry>>, ranks: seq<int>)
    requires SchedulesInRange(schedules) && StrictlyAscending(ranks)
    requires forall k :: k in ranks <==> k in schedules
    ensures AllLowerable(Blocks(schedules, ranks))
    ensures Schedules(Blocks(schedules, ranks)) == EssentialSchedules(schedules)
  {
    BlocksLowerable(schedules, ranks);
    var lowered := Schedules(Blocks(schedules, ranks));
    forall rank: int
      ensures && (rank in lowered <==> rank in schedules && schedules[rank] != [])
              && (rank in lowered ==> lowered[rank] == AllCarried(schedules[rank]))
    {
      ScheduleOfBlock(schedules, ranks, rank);
    }
    assert lowered.Keys == EssentialSchedules(schedules).Keys;
  }

  lemma RequestOfProgram(r: Request, steps: seq<TransferStep>, schedules: map<int, seq<Entry>>)
    requires FitsInt64(r.uuid)
    ensures RequestOf(ProgramOf(r, steps), schedules) == r.(schedules := schedules, extra := NO_REQUEST_EXTRA)
  {
    GroupsRoundTrip(r.poolGroups);
  }

  /** Every pool-reshard request compiles, and lowering gives back its essence. */
  lemma LowerAfterCompile(r: Request)
    requires RequestInRange(r)
    ensures Compile(r).Ok? <==> HasPoolReshardFields(r)
    ensures Compile(r).Ok? ==> Lower(Compile(r).value) == Ok(Essence(r))
  {
    if HasPoolReshardFields(r) {
      var ranks := Ascending(r.schedules.Keys);
      AscendingElements(r.schedules.Keys);
      AscendingIsStrict(r.schedules.Keys);
      SchedulesOfBlocks(r.schedules, ranks);
      var steps := Blocks(r.schedules, ranks);
      RequestOfProgram(r, steps, Schedules(steps));
    }
  }

  lemma {:induction false} CarriedAt(entries: seq<Entry>, i: nat)
    requires i < |entries|
    ensures |AllCarried(entries)| == |entries| && AllCarried(entries)[i] == Carried(entries[i])
  {
    if |entries| > 1 {
      CarriedAt(entries[..|entries| - 1], if i < |entries| - 1 then i else 0);
    }
  }

  lemma CarriedSame(entries: seq<Entry>)
    ensures AllCarried(entries) == entries <==> NoExtras(entries)
  {
    forall i | 0 <= i < |entries|
      ensures |AllCarried(entries)| == |entries| && AllCarried(entries)[i] == Carried(entries[i])
    {
      CarriedAt(entries, i);
    }
    if NoExtras(entries) {
      assert |AllCarried(entries)| == |entries|;
      assert forall i :: 0 <= i < |entries| ==> AllCarried(entries)[i] == entries[i];
    }
  }

  lemma EssentialSchedulesSame(schedules: map<int, seq<Entry>>)
    ensures EssentialSchedules(schedules) == schedules
       <==> forall rank :: rank in schedules ==> schedules[rank] != [] && NoExtras(schedules[rank])
  {
    forall rank | rank in schedules
      ensures AllCarried(schedules[rank]) == schedules[rank] <==> NoExtras(schedules[rank])
    {
      CarriedSame(schedules[rank]);
    }
    var essential := EssentialSchedules(schedules);
    if forall rank :: rank in schedules ==> schedules[rank] != [] && NoExtras(schedules[rank]) {
      assert forall rank :: rank in schedules <==> rank in essential;
      assert essential == schedules;
    } else {
      var rank :| rank in schedules && !(schedules[rank] != [] && NoExtras(schedules[rank]));
      assert rank !in essential || essential[rank] != schedules[rank];
    }
  }

  /** The round trip is the identity exactly on the expressible requests. */
  lemma LowerAfterCompileIsIdentity(r: Request)
    requires RequestInRange(r) && HasPoolReshardFields(r)
    ensures Compile(r).Ok?
    ensures Lower(Compile(r).value) == Ok(r) <==> Expressible(r)
  {
    LowerAfterCompile(r);
    EssentialSchedulesSame(r.schedules);
    assert Essence(r).schedules == EssentialSchedules(r.schedules) && Essence(r).extra == NO_REQUEST_EXTRA;
  }

  /** Rank 3 sends nothing. */
  const IDLE_RANK := Request(
    [], [], map[3 := []], 0, true, 0, false, 0, "", [], [7], 1, None, [], map[], map[], map[], 0, 1, NO_REQUEST_EXTRA)

  /** The idle rank does not come back. */
  lemma IdleRankIsLost()
    ensures Compile(IDLE_RANK).Ok? && Lower(Compile(IDLE_RANK).value) == Ok(IDLE_RANK.(schedules := map[]))
    ensures Lower(Compile(IDLE_RANK).value) != Ok(IDLE_RANK)
  {
    LowerAfterCompile(IDLE_RANK);
    assert EssentialSchedules(IDLE_RANK.schedules) == map[];
    assert 3 in IDLE_RANK.schedules;
  }

  // ---- program, lowered and compiled ----

  /** A step as compiling writes it: the memory types are not carried. */
  function Reset(s: TransferStep): (r: TransferStep)
  {
    s.(src := s.src.(memType := 0), dst := s.dst.(memType := 0))
  }

  function AllReset(steps: seq<TransferStep>): (r: seq<TransferStep>)
    ensures |r| == |steps|
  {
    if steps == [] then [] else AllReset(steps[..|steps| - 1]) + [Reset(steps[|steps| - 1])]
  }

  /** The program in its canonical form. */
  function Canonical(p: Program): (r: Program)
  {
    p.(envelope := p.envelope.(kind := KIND_POOL_RESHARD, layoutFingerprint := "", deadlineMs := 0),
       steps := AllReset(StableSort(p.steps)))
  }

  predicate SpacesUnset(steps: seq<TransferStep>)
  {
    forall i :: 0 <= i < |steps| ==> steps[i].src.space == SpaceNotSet && steps[i].dst.space == SpaceNotSet
  }

  predicate AllOfRank(steps: seq<TransferStep>, rank: int)
  {
    forall i :: 0 <= i < |steps| ==> steps[i].sourceRank == rank
  }

  lemma {:induction false} OfRankFacts(steps: seq<TransferStep>, rank: int)
    requires SpacesUnset(steps)
    ensures AllOfRank(OfRank(steps, rank), rank) && SpacesUnset(OfRank(steps, rank))
  {
    if steps != [] {
      OfRankFacts(steps[..|steps| - 1], rank);
    }
  }

  lemma {:induction false} StepsOfEntries(rank: int, steps: seq<TransferStep>)
    requires AllLowerable(steps) && SpacesUnset(steps) && AllOfRank(steps, rank)
    ensures StepsOf(rank, EntriesOf(steps)) == AllReset(steps)
  {
    if steps != [] {
      var front, last := steps[..|steps| - 1], steps[|steps| - 1];
      StepsOfEntries(rank, front);
      var entries := EntriesOf(steps);
      assert entries[..|entries| - 1] == EntriesOf(front);
      assert last.extents == [last.extents[0]];
      assert StepOf(rank, EntryOf(last)) == Reset(last);
    }
  }

  lemma {:induction false} ResetOfRank(steps: seq<TransferStep>, rank: int)
    ensures OfRank(AllReset(steps), rank) == AllReset(OfRank(steps, rank))
  {
    if steps != [] {
      var front, last := steps[..|steps| - 1], steps[|steps| - 1];
      ResetOfRank(front, rank);
      if last.sourceRank == rank {
        var rest := OfRank(front, rank);
        assert (rest + [last])[..|rest|] == rest;
      }
    }
  }

  lemma {:induction false} ResetAt(steps: seq<TransferStep>, i: nat)
    requires i < |steps|
    ensures AllReset(steps)[i] == Reset(steps[i])
  {
    if i < |steps| - 1 {
      ResetAt(steps[..|steps| - 1], i);
    }
  }

  lemma ResetKeepsOrder(steps: seq<TransferStep>)
    ensures SortedByRank(AllReset(steps)) <==> SortedByRank(steps)
  {
    forall i | 0 <= i < |steps|
      ensures AllReset(steps)[i].sourceRank == steps[i].sourceRank
    {
      ResetAt(steps, i);
    }
  }

  /** Compiling a lowered step list gives the stable sort by rank. */
  lemma BlocksOfSchedules(steps: seq<TransferStep>, ranks: seq<int>)
    requires AllLowerable(steps) && SpacesUnset(steps)
    requires StrictlyAscending(ranks) && forall rank :: rank in ranks <==> rank in Schedules(steps)
    ensures Blocks(Schedules(steps), ranks) == AllReset(StableSort(steps))
  {
    var compiled, want := Blocks(Schedules(steps), ranks), AllReset(StableSort(steps));
    BlocksSorted(Schedules(steps), ranks);
    StableSortIsStable(steps);
    ResetKeepsOrder(StableSort(steps));
    forall rank: int
      ensures OfRank(compiled, rank) == OfRank(want, rank)
    {
      CompiledRank(steps, ranks, rank);
      ResetOfRank(StableSort(steps), rank);
      assert OfRank(steps, rank) == OfRank(StableSort(steps), rank);
    }
    StableOrderIsUnique(compiled, want);
  }

  lemma CompiledRank(steps: seq<TransferStep>, ranks: seq<int>, rank: int)
    requires AllLowerable(steps) && SpacesUnset(steps)
    requires StrictlyAscending(ranks) && forall k :: k in ranks <==> k in Schedules(steps)
    ensures OfRank(Blocks(Schedules(steps), ranks), rank) == AllReset(OfRank(steps, rank))
  {
    SchedulesAt(steps, rank);
    if rank in ranks {
      BlocksOfRank(Schedules(steps), ranks, rank);
      OfRankFacts(steps, rank);
      StepsOfEntries(rank, OfRank(steps, rank));
    } else {
      BlocksOfOtherRank(Schedules(steps), ranks, rank);
    }
  }

  lemma ProgramOfRequest(p: Program, schedules: map<int, seq<Entry>>, steps: seq<TransferStep>)
    requires Admitted(p) && FitsUInt64(p.envelope.uuid)
    ensures ProgramOf(RequestOf(p, schedules), steps)
         == p.(envelope := p.envelope.(kind := KIND_POOL_RESHARD, layoutFingerprint := "", deadlineMs := 0),
               steps := steps)
  {
    GroupsRoundTripBack(p.completion.groups);
  }

  /** An admitted program with 32-bit block ids lowers, and compiling gives its canonical form. */
  lemma CompileAfterLower(p: Program)
    requires Admitted(p) && FitsUInt64(p.envelope.uuid)
    ensures Lower(p).Ok? <==> Int32Blocks(p)
    ensures Lower(p).Ok? ==> Compile(Lower(p).value) == Ok(Canonical(p))
  {
    if Int32Blocks(p) {
      assert forall i :: 0 <= i < |p.steps| ==> StepAdmitted(p.steps[i], |p.completion.groups|);
      assert AllLowerable(p.steps) && SpacesUnset(p.steps);
      var schedules := Schedules(p.steps);
      AscendingElements(schedules.Keys);
      AscendingIsStrict(schedules.Keys);
      BlocksOfSchedules(p.steps, Ascending(schedules.Keys));
      ProgramOfRequest(p, schedules, AllReset(StableSort(p.steps)));
    }
  }

  lemma CanonicalIsAdmitted(p: Program)
    requires Admitted(p) && Int32Blocks(p)
    ensures Admitted(Canonical(p)) && Int32Blocks(Canonical(p))
  {
    StableSortIsStable(p.steps);
    var sorted := StableSort(p.steps);
    forall i | 0 <= i < |sorted|
      ensures StepAdmitted(AllReset(sorted)[i], |p.completion.groups|)
      ensures FitsInt32(AllReset(sorted)[i].src.blockId) && FitsInt32(AllReset(sorted)[i].dst.blockId)
    {
      ResetAt(sorted, i);
      assert sorted[i] in p.steps;
    }
    assert p.steps[0] in sorted;
  }

  /** Canonical programs are admitted into the same class and are fixed points. */
  lemma CanonicalFormIsStable(p: Program)
    requires Admitted(p) && Int32Blocks(p) && FitsUInt64(p.envelope.uuid)
    ensures Admitted(Canonical(p)) && Int32Blocks(Canonical(p))
    ensures Canonical(p).envelope.role == p.envelope.role
    ensures Canonical(Canonical(p)) == Canonical(p)
  {
    CanonicalIsAdmitted(p);
    CompileAfterLower(p);
    CompileAfterLower(Canonical(p));
    LoweredIsExpressible(p);
    LoweredIsInRange(p);
    LowerAfterCompileIsIdentity(Lower(p).value);
  }

  /** What lowering produces can always be compiled back without loss. */
  lemma LoweredIsExpressible(p: Program)
    requires Lower(p).Ok?
    ensures Expressible(Lower(p).value)
  {
    var schedules: map<int, seq<Entry>> := Schedules(p.steps);
    forall rank | rank in schedules
      ensures schedules[rank] != [] && NoExtras(schedules[rank])
    {
      SchedulesAt(p.steps, rank);
      LoweredEntries(OfRank(p.steps, rank));
    }
  }

  lemma LoweredIsInRange(p: Program)
    requires Lower(p).Ok? && FitsUInt64(p.envelope.uuid)
    ensures RequestInRange(Lower(p).value)
  {
    var schedules: map<int, seq<Entry>> := Schedules(p.steps);
    forall rank | rank in schedules
      ensures EntriesInRange(schedules[rank])
    {
      SchedulesAt(p.steps, rank);
      LoweredEntries(OfRank(p.steps, rank));
    }
  }

  lemma {:induction false} LoweredEntries(steps: seq<TransferStep>)
    requires AllLowerable(steps)
    ensures |EntriesOf(steps)| == |steps| && EntriesInRange(EntriesOf(steps)) && NoExtras(EntriesOf(steps))
  {
    if steps != [] {
      LoweredEntries(steps[..|steps| - 1]);
    }
  }

  predicate NoMemTypes(steps: seq<TransferStep>)
  {
    forall i :: 0 <= i < |steps| ==> steps[i].src.memType == 0 && steps[i].dst.memType == 0
  }

  lemma ResetSame(steps: seq<TransferStep>)
    ensures AllReset(steps) == steps <==> NoMemTypes(steps)
  {
    forall i | 0 <= i < |steps|
      ensures AllReset(steps)[i] == Reset(steps[i])
    {
      ResetAt(steps, i);
    }
  }

  lemma CanonicalSteps(steps: seq<TransferStep>)
    ensures AllReset(StableSort(steps)) == steps <==> SortedByRank(steps) && NoMemTypes(steps)
  {
    StableSortIsStable(steps);
    var sorted := StableSort(steps);
    ResetKeepsOrder(sorted);
    ResetSame(steps);
    if SortedByRank(steps) {
      StableOrderIsUnique(steps, sorted);
    }
  }

  /** Compile-after-lower is the identity exactly on the programs already canonical. */
  lemma CompileAfterLowerIsIdentity(p: Program)
    requires Admitted(p) && Int32Blocks(p) && FitsUInt64(p.envelope.uuid)
    ensures Lower(p).Ok?
    ensures Compile(Lower(p).value) == Ok(p)
       <==> && p.envelope.kind == KIND_POOL_RESHARD && p.envelope.layoutFingerprint == "" && p.envelope.deadlineMs == 0
            && SortedByRank(p.steps) && NoMemTypes(p.steps)
  {
    CompileAfterLower(p);
    CanonicalSteps(p.steps);
    assert Canonical(p).steps == AllReset(StableSort(p.steps));
  }

  lemma SortPair(a: TransferStep, b: TransferStep)
    requires b.sourceRank < a.sourceRank
    ensures StableSort([a, b]) == [b, a]
  {
    assert [a, b][..1] == [a] && [a][..0] == [];
    assert StableSort([a]) == [a] && Insert([a], b) == [b, a];
  }

  lemma ResetPair(a: TransferStep, b: TransferStep)
    ensures AllReset([a, b]) == [Reset(a), Reset(b)]
  {
    assert [a, b][..1] == [a] && [a][..0] == [];
  }

  /** One page sent by the given rank. */
  function PageFrom(rank: int): (s: TransferStep)
  {
    TransferStep(MemoryRef(SpaceNotSet, 0, rank), MemoryRef(SpaceNotSet, 0, rank),
                 [Extent(0, 0, 4096, 0, 0, 1)], "peer", 0, Some(0), rank, None)
  }

  /** Rank 1 comes before rank 0. */
  const UNSORTED := Program(
    Envelope(0, "", KIND_POOL_RESHARD, ROLE_SENDER, "", 0, 0, 1), [PageFrom(1), PageFrom(0)],
    FanIn([FanInGroup([7], [0, 1], 2, [8192], 0)], 2), Policy(1, None, map[], 0, false),
    Binding([], [], [7], [], map[], map[]))

  /** Its steps come back in rank order. */
  lemma UnsortedComesBackSorted()
    ensures Admitted(UNSORTED) && Lower(UNSORTED).Ok?
    ensures Compile(Lower(UNSORTED).value) == Ok(UNSORTED.(steps := [PageFrom(0), PageFrom(1)]))
    ensures Compile(Lower(UNSORTED).value) != Ok(UNSORTED)
  {
    CompileAfterLower(UNSORTED);
    SortPair(PageFrom(1), PageFrom(0));
    ResetPair(PageFrom(0), PageFrom(1));
    assert UNSORTED.steps[0].sourceRank == 1;
  }

  // ---- the lists derived for the two roles ----

  /** The source blocks of all schedule entries. */
  ghost function SourceBlocks(schedules: map<int, seq<Entry>>): (r: set<int>)
  {
    set rank, i | rank in schedules && 0 <= i < |schedules[rank]| :: schedules[rank][i].srcBlock
  }

  function DestinationBlocks(groups: seq<PoolGroup>): (r: seq<int>)
  {
    if groups == [] then []
    else DestinationBlocks(groups[..|groups| - 1]) + groups[|groups| - 1].dstBlockIds
  }

  /** Dropping empty ranks and uncarried fields changes neither derived list. */
  lemma DerivedListsKept(r: Request)
    ensures SourceBlocks(Essence(r).schedules) == SourceBlocks(r.schedules)
    ensures DestinationBlocks(Essence(r).poolGroups) == DestinationBlocks(r.poolGroups)
  {
    var a: map<int, seq<Entry>>, b: map<int, seq<Entry>> := r.schedules, Essence(r).schedules;
    forall rank: int, i: int | rank in a && 0 <= i < |a[rank]|
      ensures rank in b && |b[rank]| == |a[rank]| && b[rank][i].srcBlock == a[rank][i].srcBlock
    {
      CarriedAt(a[rank], i);
    }
    forall x | x in SourceBlocks(a)
      ensures x in SourceBlocks(b)
    {
      var rank, i :| rank in a && 0 <= i < |a[rank]| && a[rank][i].srcBlock == x;
      assert b[rank][i].srcBlock == x;
    }
    forall x | x in SourceBlocks(b)
      ensures x in SourceBlocks(a)
    {
      var rank, i :| rank in b && 0 <= i < |b[rank]| && b[rank][i].srcBlock == x;
      CarriedAt(a[rank], 0);
      assert a[rank][i].srcBlock == x;
    }
  }
}
