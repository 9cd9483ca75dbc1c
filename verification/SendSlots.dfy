/**
 The number of (pool, peer) push completions a sender-side plan produces
 (tpu_sync/core/pool_reshard_send_slots.cc).
 */
module SendSlots {
  import opened ReshardPlans

  /** An entry without a group counts for group zero. */
  function GroupOf(e: Entry): (r: int)
  {
    if e.poolGroup.Some? then e.poolGroup.value else 0
  }

  /** The first group that lists the pool, or -1. */
  function FirstGroup(groups: seq<PoolGroup>, pool: int): (g: int)
    ensures g == -1 <==> forall i :: 0 <= i < |groups| ==> pool !in groups[i].poolIndices
    ensures g != -1 ==> 0 <= g < |groups| && pool in groups[g].poolIndices
    ensures g != -1 ==> forall i :: 0 <= i < g ==> pool !in groups[i].poolIndices
  {
    if groups == [] then -1
    else
      var front := groups[..|groups| - 1];
      var g := FirstGroup(front, pool);
      assert forall i :: 0 <= i < |front| ==> front[i] == groups[i];
      if g != -1 then g
      else if pool in groups[|groups| - 1].poolIndices then |groups| - 1
      else -1
  }

  /** The peers some entry of the group names. */
  ghost function Peers(entries: seq<Entry>, group: int): (r: set<string>)
  {
    set e | e in entries && GroupOf(e) == group :: e.dstPeer
  }

  /** A transfer pool paired with each peer its group's entries name. */
  ghost predicate IsSlot(plan: Request, entries: seq<Entry>, slot: (int, string))
  {
    && slot.0 in plan.transferPools
    && exists e :: e in entries && GroupOf(e) == FirstGroup(plan.poolGroups, slot.0) && e.dstPeer == slot.1
  }

  ghost function PoolPeers(plan: Request, entries: seq<Entry>, pool: int): (r: set<string>)
  {
    Peers(entries, FirstGroup(plan.poolGroups, pool))
  }

  /** No pool that has a peer is listed twice. */
  ghost predicate Distinct(plan: Request, entries: seq<Entry>, pools: seq<int>)
  {
    forall i, j :: 0 <= i < j < |pools| && pools[i] == pools[j] ==> PoolPeers(plan, entries, pools[i]) == {}
  }

  // ---- counting ----

  ghost function Tally(plan: Request, entries: seq<Entry>, pools: seq<int>): (r: nat)
  {
    if pools == [] then 0
    else Tally(plan, entries, pools[..|pools| - 1]) + |PoolPeers(plan, entries, pools[|pools| - 1])|
  }

  ghost function Paired(pool: int, peers: set<string>): (r: set<(int, string)>)
  {
    set peer | peer in peers :: (pool, peer)
  }

  ghost function Slots(plan: Request, entries: seq<Entry>, pools: seq<int>): (r: set<(int, string)>)
  {
    if pools == [] then {}
    else
      var last := pools[|pools| - 1];
      Slots(plan, entries, pools[..|pools| - 1]) + Paired(last, PoolPeers(plan, entries, last))
  }

  lemma {:induction false} SlotsMember(plan: Request, entries: seq<Entry>, pools: seq<int>, slot: (int, string))
    ensures slot in Slots(plan, entries, pools)
       <==> slot.0 in pools && slot.1 in PoolPeers(plan, entries, slot.0)
  {
    if pools != [] {
      var front, last := pools[..|pools| - 1], pools[|pools| - 1];
      SlotsMember(plan, entries, front, slot);
      assert pools == front + [last];
      assert slot == (slot.0, slot.1);
    }
  }

  lemma {:induction false} PairedSize(pool: int, peers: set<string>)
    ensures |Paired(pool, peers)| == |peers|
  {
    if peers != {} {
      assert (forall y :: y !in peers) ==> peers == {};
      var peer :| peer in peers;
      PairedSize(pool, peers - {peer});
      assert Paired(pool, peers) == Paired(pool, peers - {peer}) + {(pool, peer)};
    } else {
      assert Paired(pool, peers) == {};
    }
  }

  lemma PoolSlots(plan: Request, entries: seq<Entry>, front: seq<int>, last: int)
    ensures var before, added := Slots(plan, entries, front), Paired(last, PoolPeers(plan, entries, last));
            if last in front then before + added == before else |before + added| == |before| + |added|
  {
    var before, added := Slots(plan, entries, front), Paired(last, PoolPeers(plan, entries, last));
    forall slot | slot in added
      ensures slot in before <==> last in front
    {
      SlotsMember(plan, entries, front, slot);
    }
  }

  /** The tally counts each pool listed; it counts each slot once exactly when no used pool repeats. */
  lemma {:induction false} TallyCountsSlots(plan: Request, entries: seq<Entry>, pools: seq<int>)
    ensures Tally(plan, entries, pools) >= |Slots(plan, entries, pools)|
    ensures Tally(plan, entries, pools) == |Slots(plan, entries, pools)| <==> Distinct(plan, entries, pools)
  {
    if pools != [] {
      var front, last := pools[..|pools| - 1], pools[|pools| - 1];
      assert pools == front + [last];
      TallyCountsSlots(plan, entries, front);
      TallyStep(plan, entries, front, last);
      DistinctAppend(plan, entries, front, last);
    }
  }

  lemma {:induction false} TallyStep(plan: Request, entries: seq<Entry>, front: seq<int>, last: int)
    ensures var n := |PoolPeers(plan, entries, last)|;
            && (n == 0 <==> PoolPeers(plan, entries, last) == {})
            && Tally(plan, entries, front + [last]) == Tally(plan, entries, front) + n
            && |Slots(plan, entries, front + [last])|
               == |Slots(plan, entries, front)| + if last in front then 0 else n
  {
    assert (front + [last])[..|front|] == front;
    PoolSlots(plan, entries, front, last);
    PairedSize(last, PoolPeers(plan, entries, last));
  }

  lemma DistinctAppend(plan: Request, entries: seq<Entry>, front: seq<int>, last: int)
    ensures Distinct(plan, entries, front + [last])
       <==> Distinct(plan, entries, front) && (last in front ==> PoolPeers(plan, entries, last) == {})
  {
    var pools := front + [last];
    if Distinct(plan, entries, pools) {
      forall i, j | 0 <= i < j < |front| && front[i] == front[j]
        ensures PoolPeers(plan, entries, front[i]) == {}
      {
        assert pools[i] == pools[j];
      }
      if last in front {
        var i :| 0 <= i < |front| && front[i] == last;
        assert pools[i] == pools[|front|];
      }
    }
  }

  /** The slots are the (pool, peer) pairs the plan asks for. */
  lemma SlotsAreThePairs(plan: Request, entries: seq<Entry>, slot: (int, string))
    ensures slot in Slots(plan, entries, plan.transferPools) <==> IsSlot(plan, entries, slot)
  {
    SlotsMember(plan, entries, plan.transferPools, slot);
  }

  /** A pool contributes nothing exactly when no entry is of its group. */
  lemma PoolWithoutEntries(plan: Request, entries: seq<Entry>, pool: int)
    ensures |PoolPeers(plan, entries, pool)| == 0
       <==> forall e :: e in entries ==> GroupOf(e) != FirstGroup(plan.poolGroups, pool)
  {
    var peers := PoolPeers(plan, entries, pool);
    if e :| e in entries && GroupOf(e) == FirstGroup(plan.poolGroups, pool) {
      assert e.dstPeer in peers;
    } else {
      assert forall x :: x !in peers;
      assert peers == {};
    }
  }

  /** A pool outside every group contributes something exactly when an entry names group -1. */
  lemma GrouplessPool(plan: Request, entries: seq<Entry>, pool: int)
    requires forall i :: 0 <= i < |plan.poolGroups| ==> pool !in plan.poolGroups[i].poolIndices
    ensures |PoolPeers(plan, entries, pool)| > 0 <==> exists e :: e in entries && e.poolGroup == Some(-1)
  {
    PoolWithoutEntries(plan, entries, pool);
    assert FirstGroup(plan.poolGroups, pool) == -1;
  }

  /** A plan without groups whose one entry names group -1 counts a slot for its pool. */
  lemma GrouplessPoolCounted(plan: Request, e: Entry)
    ensures var bare := plan.(transferPools := [7], poolGroups := []);
            Tally(bare, [e.(poolGroup := Some(-1))], bare.transferPools) == 1
  {
    var bare := plan.(transferPools := [7], poolGroups := []);
    var entry := e.(poolGroup := Some(-1));
    assert PoolPeers(bare, [entry], 7) == {entry.dstPeer};
    assert [7][..0] == [];
  }

  /** Order and repetition of the entries do not matter. */
  lemma {:induction false} TallyIgnoresOrder(plan: Request, a: seq<Entry>, b: seq<Entry>, pools: seq<int>)
    requires forall e :: e in a <==> e in b
    ensures Tally(plan, a, pools) == Tally(plan, b, pools)
  {
    if pools != [] {
      TallyIgnoresOrder(plan, a, b, pools[..|pools| - 1]);
      assert PoolPeers(plan, a, pools[|pools| - 1]) == PoolPeers(plan, b, pools[|pools| - 1]);
    }
  }

  // ---- the loops ----

  method PeersByGroup(entries: seq<Entry>) returns (peers: map<int, set<string>>)
    ensures forall g :: g in peers ==> peers[g] == Peers(entries, g)
    ensures forall g :: g !in peers ==> Peers(entries, g) == {}
  {
    peers := map[];
    for i := 0 to |entries|
      invariant forall g :: g in peers ==> peers[g] == Peers(entries[..i], g)
      invariant forall g :: g !in peers ==> Peers(entries[..i], g) == {}
    {
      var e := entries[i];
      var g := GroupOf(e);
      forall k
        ensures Peers(entries[..i + 1], k) == Peers(entries[..i], k) + if k == g then {e.dstPeer} else {}
      {
      }
      peers := peers[g := (if g in peers then peers[g] else {}) + {e.dstPeer}];
    }
    assert entries[..|entries|] == entries;
  }

  method FindGroup(groups: seq<PoolGroup>, pool: int) returns (g: int)
    ensures g == FirstGroup(groups, pool)
  {
    for i := 0 to |groups|
      invariant forall j :: 0 <= j < i ==> pool !in groups[j].poolIndices
    {
      if pool in groups[i].poolIndices { return i; }
    }
    return -1;
  }

  /** Counts each listed pool's peers; with no used pool repeated that is the number of slots. */
  method CountPoolReshardSendSlots(plan: Request, entries: seq<Entry>) returns (slots: nat)
    ensures slots >= |Slots(plan, entries, plan.transferPools)|
    ensures slots == |Slots(plan, entries, plan.transferPools)| <==> Distinct(plan, entries, plan.transferPools)
    ensures slots == Tally(plan, entries, plan.transferPools)
  {
    var peers := PeersByGroup(entries);
    var pools := plan.transferPools;
    slots := 0;
    for i := 0 to |pools|
      invariant slots == Tally(plan, entries, pools[..i])
    {
      var g := FindGroup(plan.poolGroups, pools[i]);
      assert pools[..i + 1] == pools[..i] + [pools[i]];
      TallyStep(plan, entries, pools[..i], pools[i]);
      assert PoolPeers(plan, entries, pools[i]) == if g in peers then peers[g] else {};
      if g in peers {
        slots := slots + |peers[g]|;
      }
    }
    assert pools[..|pools|] == pools;
    TallyCountsSlots(plan, entries, pools);
  }
}
