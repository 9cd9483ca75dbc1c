/**
 The stub cache of tpu_sync/core/grpc_control_plane_backend.cc: two locked sections
 with an unlocked gap, in which the stub is created, between them. The state keeps a
 log of touches; the theorems relate the cache to that log for every interleaving.
 */
module StubCache {

  datatype Option<T> = None | Some(value: T)

  datatype Stub = Stub(id: nat, endpoint: string)

  /** `lru` is ordered from the most to the least recently used endpoint. */
  datatype Cache = Cache(max: nat, lru: seq<string>, stubs: map<string, Stub>)

  // ---- sequences of endpoints ----

  predicate NoDuplicates(s: seq<string>)
  {
    forall i, j :: 0 <= i < j < |s| ==> s[i] != s[j]
  }

  function Remove(s: seq<string>, e: string): (r: seq<string>)
    ensures forall x :: x in r <==> x in s && x != e
  {
    if s == [] then []
    else
      var front := s[..|s| - 1];
      assert s == front + [s[|s| - 1]];
      if s[|s| - 1] == e then Remove(front, e) else Remove(front, e) + [s[|s| - 1]]
  }

  function Front(s: seq<string>, n: nat): (r: seq<string>)
  {
    if n < |s| then s[..n] else s
  }

  lemma {:induction false} RemoveAbsent(s: seq<string>, e: string)
    requires e !in s
    ensures Remove(s, e) == s
  {
    if s != [] {
      RemoveAbsent(s[..|s| - 1], e);
    }
  }

  lemma {:induction false} RemoveConcat(a: seq<string>, b: seq<string>, e: string)
    ensures Remove(a + b, e) == Remove(a, e) + Remove(b, e)
  {
    if b == [] {
      assert a + b == a;
    } else {
      RemoveConcat(a, b[..|b| - 1], e);
      assert (a + b)[..|a + b| - 1] == a + b[..|b| - 1];
    }
  }

  lemma {:induction false} RemoveKeepsOrder(s: seq<string>, e: string)
    requires NoDuplicates(s)
    ensures NoDuplicates(Remove(s, e))
    ensures |Remove(s, e)| == if e in s then |s| - 1 else |s|
  {
    if s != [] {
      var front, last := s[..|s| - 1], s[|s| - 1];
      RemoveKeepsOrder(front, e);
      assert s == front + [last];
      assert last !in front;
    }
  }

  // ---- recency ----

  /** The endpoints of a touch log, each once, latest touch first. */
  function Recency(log: seq<string>): (r: seq<string>)
    ensures forall x :: x in r <==> x in log
  {
    if log == [] then []
    else
      var front, last := log[..|log| - 1], log[|log| - 1];
      assert log == front + [last];
      [last] + Remove(Recency(front), last)
  }

  lemma {:induction false} RecencyNoDuplicates(log: seq<string>)
    ensures NoDuplicates(Recency(log))
  {
    if log != [] {
      RecencyNoDuplicates(log[..|log| - 1]);
      RemoveKeepsOrder(Recency(log[..|log| - 1]), log[|log| - 1]);
    }
  }

  /** Touching a cached endpoint keeps the front of the recency order. */
  lemma TouchCached(order: seq<string>, n: nat, e: string)
    requires NoDuplicates(order) && e in Front(order, n)
    ensures [e] + Remove(Front(order, n), e) == Front([e] + Remove(order, e), n)
  {
    var a := Front(order, n);
    var b := order[|a|..];
    assert order == a + b;
    RemoveFromFront(a, b, e);
    RemoveKeepsOrder(a, e);
    FrontOfConcat(e, Remove(a, e), b, n);
  }

  lemma FrontOfConcat(e: string, a: seq<string>, b: seq<string>, n: nat)
    requires |a| + 1 == n || (|a| + 1 < n && b == [])
    ensures Front([e] + (a + b), n) == [e] + a
  {
  }

  lemma RemoveFromFront(a: seq<string>, b: seq<string>, e: string)
    requires NoDuplicates(a + b) && e in a
    ensures Remove(a + b, e) == Remove(a, e) + b
  {
    RemoveConcat(a, b, e);
    var i :| 0 <= i < |a| && a[i] == e;
    forall j | 0 <= j < |b|
      ensures b[j] != e
    {
      assert (a + b)[i] == e && (a + b)[|a| + j] == b[j];
    }
    RemoveAbsent(b, e);
  }

  /** So does inserting one that is not cached in place of the last. */
  lemma TouchUncached(order: seq<string>, n: nat, e: string)
    requires NoDuplicates(order) && e !in Front(order, n) && n > 0
    ensures [e] + Front(order, n - 1) == Front([e] + Remove(order, e), n)
  {
    var a := Front(order, n);
    var b := order[|a|..];
    assert order == a + b;
    RemoveConcat(a, b, e);
    RemoveAbsent(a, e);
    if n <= |order| {
      FrontOfLonger(e, a, Remove(b, e), n);
      assert order[..n - 1] == a[..n - 1];
    } else {
      assert b == [];
      FrontOfConcat(e, a, b, n);
    }
  }

  lemma FrontOfLonger(e: string, a: seq<string>, b: seq<string>, n: nat)
    requires |a| == n > 0
    ensures Front([e] + (a + b), n) == [e] + a[..n - 1]
  {
  }

  // ---- the locked sections ----

  /** A hit moves the endpoint to the front. */
  function Hit(c: Cache, e: string): (r: Cache)
  {
    c.(lru := [e] + Remove(c.lru, e))
  }

  /** Drops the least recently used endpoints until there is room. */
  function Evict(c: Cache): (r: Cache)
    decreases |c.lru|
  {
    if |c.stubs| >= c.max && c.lru != [] then
      var last := c.lru[|c.lru| - 1];
      Evict(c.(lru := c.lru[..|c.lru| - 1], stubs := c.stubs - {last}))
    else c
  }

  function Insert(c: Cache, e: string, stub: Stub): (r: Cache)
  {
    var room := Evict(c);
    room.(lru := [e] + room.lru, stubs := room.stubs[e := stub])
  }

  // ---- interleavings ----

  /** A thread past the first section: about to create its stub, or holding it. */
  datatype Thread = Creating(endpoint: string) | Holding(endpoint: string, stub: Stub)

  datatype Answer = Answer(endpoint: string, stub: Stub)

  datatype State = State(
    cache: Cache, threads: map<nat, Thread>, made: nat, touches: seq<string>, answers: seq<Answer>)

  datatype Action = Lookup(thread: nat, endpoint: string) | Create(thread: nat) | Finish(thread: nat)

  function Init(max: nat): (r: State)
  {
    State(Cache(max, [], map[]), map[], 0, [], [])
  }

  predicate Enabled(s: State, a: Action)
  {
    match a
    case Lookup(t, _) => t !in s.threads
    case Create(t) => t in s.threads && s.threads[t].Creating?
    case Finish(t) => t in s.threads && s.threads[t].Holding?
  }

  function Respond(s: State, e: string, cache: Cache, stub: Stub): (r: State)
  {
    s.(cache := cache, touches := s.touches + [e], answers := s.answers + [Answer(e, stub)])
  }

  function Apply(s: State, a: Action): (r: State)
    requires Enabled(s, a)
  {
    match a
    case Lookup(t, e) =>
      if e in s.cache.stubs then Respond(s, e, Hit(s.cache, e), s.cache.stubs[e])
      else s.(threads := s.threads[t := Creating(e)])
    case Create(t) =>
      var e := s.threads[t].endpoint;
      s.(threads := s.threads[t := Holding(e, Stub(s.made, e))], made := s.made + 1)
    case Finish(t) =>
      var e, stub := s.threads[t].endpoint, s.threads[t].stub;
      var left := s.(threads := s.threads - {t});
      if e in s.cache.stubs then Respond(left, e, Hit(s.cache, e), s.cache.stubs[e])
      else if s.cache.max == 0 then Respond(left, e, s.cache, stub)
      else Respond(left, e, Insert(s.cache, e, stub), stub)
  }

  predicate CanRun(s: State, actions: seq<Action>)
    decreases |actions|
  {
    actions == [] || (Enabled(s, actions[0]) && CanRun(Apply(s, actions[0]), actions[1..]))
  }

  function Run(s: State, actions: seq<Action>): (r: State)
    requires CanRun(s, actions)
    decreases |actions|
  {
    if actions == [] then s else Run(Apply(s, actions[0]), actions[1..])
  }

  // ---- the invariant ----

  ghost predicate CacheOk(c: Cache)
  {
    && NoDuplicates(c.lru) && |c.lru| <= c.max
    && (forall e :: e in c.lru <==> e in c.stubs)
    && forall e :: e in c.stubs ==> c.stubs[e].endpoint == e
  }

  ghost predicate Inv(s: State)
  {
    && CacheOk(s.cache)
    && s.cache.lru == Front(Recency(s.touches), s.cache.max)
    && (forall t :: t in s.threads && s.threads[t].Holding? ==> s.threads[t].stub.endpoint == s.threads[t].endpoint)
    && forall i :: 0 <= i < |s.answers| ==> s.answers[i].stub.endpoint == s.answers[i].endpoint
  }

  lemma {:induction false} KeysCounted(s: seq<string>, keys: set<string>)
    requires NoDuplicates(s) && forall e :: e in s <==> e in keys
    ensures |s| == |keys|
  {
    if s == [] {
      assert (forall e :: e !in keys) ==> keys == {};
      assert forall e :: e in keys ==> e in s;
    } else {
      var front, last := s[..|s| - 1], s[|s| - 1];
      assert s == front + [last] && last in s && last in keys;
      assert forall e :: e in front <==> e in keys - {last};
      KeysCounted(front, keys - {last});
    }
  }

  /** At most one endpoint is evicted, the least recently used. */
  lemma EvictMakesRoom(c: Cache)
    requires CacheOk(c) && c.max > 0
    ensures var r := Evict(c);
            CacheOk(r) && r.max == c.max && r.lru == Front(c.lru, c.max - 1)
    ensures forall e :: e in Evict(c).stubs ==> Evict(c).stubs[e] == c.stubs[e]
  {
    KeysCounted(c.lru, c.stubs.Keys);
    if |c.lru| == c.max {
      var front, last := c.lru[..|c.lru| - 1], c.lru[|c.lru| - 1];
      var next := c.(lru := front, stubs := c.stubs - {last});
      assert c.lru == front + [last];
      KeysCounted(front, next.stubs.Keys);
      assert Evict(next) == next;
    }
  }

  lemma HitKeepsCache(c: Cache, e: string)
    requires CacheOk(c) && e in c.stubs
    ensures CacheOk(Hit(c, e))
  {
    RemoveKeepsOrder(c.lru, e);
  }

  lemma InsertKeepsCache(c: Cache, e: string, stub: Stub)
    requires CacheOk(c) && e !in c.stubs && c.max > 0 && stub.endpoint == e
    ensures CacheOk(Insert(c, e, stub)) && Insert(c, e, stub).lru == [e] + Front(c.lru, c.max - 1)
  {
    EvictMakesRoom(c);
    assert e !in c.lru;
    assert forall x :: x in Front(c.lru, c.max - 1) ==> x in c.lru;
  }

  lemma TouchesAppended(touches: seq<string>, e: string)
    ensures Recency(touches + [e]) == [e] + Remove(Recency(touches), e)
  {
    assert (touches + [e])[..|touches|] == touches;
  }

  lemma HitKeepsRecency(s: State, e: string)
    requires Inv(s) && e in s.cache.stubs
    ensures Hit(s.cache, e).lru == Front(Recency(s.touches + [e]), s.cache.max)
  {
    TouchesAppended(s.touches, e);
    RecencyNoDuplicates(s.touches);
    TouchCached(Recency(s.touches), s.cache.max, e);
  }

  lemma InsertKeepsRecency(s: State, e: string, stub: Stub)
    requires Inv(s) && e !in s.cache.stubs && s.cache.max > 0 && stub.endpoint == e
    ensures Insert(s.cache, e, stub).lru == Front(Recency(s.touches + [e]), s.cache.max)
  {
    TouchesAppended(s.touches, e);
    RecencyNoDuplicates(s.touches);
    InsertKeepsCache(s.cache, e, stub);
    var order, n := Recency(s.touches), s.cache.max;
    assert e !in s.cache.lru;
    TouchUncached(order, n, e);
    assert Front(Front(order, n), n - 1) == Front(order, n - 1);
  }

  lemma RespondKeepsInv(s: State, e: string, cache: Cache, stub: Stub)
    requires Inv(s) && CacheOk(cache) && cache.max == s.cache.max && stub.endpoint == e
    requires cache.lru == Front(Recency(s.touches + [e]), s.cache.max)
    ensures Inv(Respond(s, e, cache, stub))
  {
  }

  lemma HitKeepsInv(s: State, e: string)
    requires Inv(s) && e in s.cache.stubs
    ensures Inv(Respond(s, e, Hit(s.cache, e), s.cache.stubs[e]))
  {
    HitKeepsCache(s.cache, e);
    HitKeepsRecency(s, e);
    RespondKeepsInv(s, e, Hit(s.cache, e), s.cache.stubs[e]);
  }

  lemma MissKeepsInv(s: State, e: string, stub: Stub)
    requires Inv(s) && e !in s.cache.stubs && stub.endpoint == e
    ensures Inv(Respond(s, e, if s.cache.max == 0 then s.cache else Insert(s.cache, e, stub), stub))
  {
    if s.cache.max > 0 {
      InsertKeepsCache(s.cache, e, stub);
      InsertKeepsRecency(s, e, stub);
      EvictMakesRoom(s.cache);
      RespondKeepsInv(s, e, Insert(s.cache, e, stub), stub);
    } else {
      RespondKeepsInv(s, e, s.cache, stub);
    }
  }

  lemma ApplyKeepsInv(s: State, a: Action)
    requires Inv(s) && Enabled(s, a)
    ensures Inv(Apply(s, a))
  {
    match a
    case Create(t) =>
    case Lookup(t, e) =>
      if e in s.cache.stubs {
        HitKeepsInv(s, e);
      }
    case Finish(t) =>
      var e, stub := s.threads[t].endpoint, s.threads[t].stub;
      var left := s.(threads := s.threads - {t});
      assert Inv(left);
      if e in s.cache.stubs {
        HitKeepsInv(left, e);
      } else {
        MissKeepsInv(left, e, stub);
      }
  }

  lemma {:induction false} RunKeepsInv(s: State, actions: seq<Action>)
    requires Inv(s) && CanRun(s, actions)
    ensures Inv(Run(s, actions)) && Run(s, actions).cache.max == s.cache.max
    decreases |actions|
  {
    if actions != [] {
      ApplyKeepsInv(s, actions[0]);
      ApplyKeepsMax(s, actions[0]);
      RunKeepsInv(Apply(s, actions[0]), actions[1..]);
    }
  }

  lemma ApplyKeepsMax(s: State, a: Action)
    requires Inv(s) && Enabled(s, a)
    ensures Apply(s, a).cache.max == s.cache.max
  {
    if s.cache.max > 0 {
      EvictMakesRoom(s.cache);
    }
  }

  // ---- guarantees ----

  /**
   For every interleaving the cached endpoints are exactly the first `max` in order of
   latest touch, listed without repetition, and every caller gets a stub of its endpoint.
   */
  lemma CacheIsMostRecent(max: nat, actions: seq<Action>)
    requires CanRun(Init(max), actions)
    ensures var s := Run(Init(max), actions);
            && s.cache.lru == Front(Recency(s.touches), max)
            && NoDuplicates(s.cache.lru)
            && (forall e :: e in s.cache.lru <==> e in s.cache.stubs)
            && forall i :: 0 <= i < |s.answers| ==> s.answers[i].stub.endpoint == s.answers[i].endpoint
  {
    assert Recency(Init(max).touches) == [];
    RunKeepsInv(Init(max), actions);
  }

  /** Endpoint `e` is in the cache before and after every step. */
  predicate StaysCached(s: State, actions: seq<Action>, e: string)
    requires CanRun(s, actions)
    decreases |actions|
  {
    e in s.cache.stubs && (actions == [] || StaysCached(Apply(s, actions[0]), actions[1..], e))
  }

  lemma ApplyKeepsStub(s: State, a: Action, e: string)
    requires Inv(s) && Enabled(s, a)
    requires e in s.cache.stubs && e in Apply(s, a).cache.stubs
    ensures Apply(s, a).cache.stubs[e] == s.cache.stubs[e]
  {
    if s.cache.max > 0 {
      EvictMakesRoom(s.cache);
    }
  }

  lemma {:induction false} StubIsStable(s: State, actions: seq<Action>, e: string)
    requires Inv(s) && CanRun(s, actions) && StaysCached(s, actions, e)
    ensures e in Run(s, actions).cache.stubs && Run(s, actions).cache.stubs[e] == s.cache.stubs[e]
    decreases |actions|
  {
    if actions != [] {
      ApplyKeepsInv(s, actions[0]);
      ApplyKeepsStub(s, actions[0], e);
      StubIsStable(Apply(s, actions[0]), actions[1..], e);
    }
  }

  /** The step answers a caller. */
  predicate Responds(s: State, a: Action)
    requires Enabled(s, a)
  {
    |Apply(s, a).answers| > |s.answers|
  }

  function Response(s: State, a: Action): (r: Answer)
    requires Enabled(s, a) && Responds(s, a)
  {
    Apply(s, a).answers[|s.answers|]
  }

  /** With a cache, what a caller gets is what is cached when it leaves. */
  lemma ResponseIsCached(s: State, a: Action)
    requires Inv(s) && Enabled(s, a) && Responds(s, a) && s.cache.max > 0
    ensures var r := Response(s, a);
            r.endpoint in Apply(s, a).cache.stubs && Apply(s, a).cache.stubs[r.endpoint] == r.stub
  {
  }

  /** Callers of one endpoint share one stub for as long as it stays cached, however they overlap. */
  lemma {:induction false} CallersShareStub(max: nat, before: seq<Action>, first: Action,
                                            between: seq<Action>, second: Action)
    requires max > 0 && CanRun(Init(max), before)
    requires var s := Run(Init(max), before);
             && Enabled(s, first) && Responds(s, first)
             && CanRun(Apply(s, first), between)
             && var t := Run(Apply(s, first), between);
                && Enabled(t, second) && Responds(t, second)
                && Response(t, second).endpoint == Response(s, first).endpoint
                && StaysCached(Apply(s, first), between, Response(s, first).endpoint)
    ensures var s := Run(Init(max), before);
            var t := Run(Apply(s, first), between);
            Response(t, second) == Response(s, first)
  {
    assert Recency(Init(max).touches) == [];
    RunKeepsInv(Init(max), before);
    SharedFrom(Run(Init(max), before), first, between, second);
  }

  lemma {:induction false} SharedFrom(s: State, first: Action, between: seq<Action>, second: Action)
    requires Inv(s) && s.cache.max > 0 && Enabled(s, first) && Responds(s, first) && CanRun(Apply(s, first), between)
    requires var t := Run(Apply(s, first), between);
             && Enabled(t, second) && Responds(t, second)
             && Response(t, second).endpoint == Response(s, first).endpoint
             && StaysCached(Apply(s, first), between, Response(s, first).endpoint)
    ensures Response(Run(Apply(s, first), between), second) == Response(s, first)
  {
    ApplyKeepsInv(s, first);
    ResponseIsCached(s, first);
    StubIsStable(Apply(s, first), between, Response(s, first).endpoint);
    CachedIsAnswered(Run(Apply(s, first), between), second);
  }

  /** A response for a cached endpoint is the cached stub. */
  lemma CachedIsAnswered(s: State, a: Action)
    requires Enabled(s, a) && Responds(s, a) && Response(s, a).endpoint in s.cache.stubs
    ensures Response(s, a).stub == s.cache.stubs[Response(s, a).endpoint]
  {
  }

  // ---- the object ----

  class Table {
    const max: nat
    var lru: seq<string>
    var stubs: map<string, Stub>

    ghost function Contents(): (r: Cache)
      reads this
    {
      Cache(max, lru, stubs)
    }

    constructor (max: nat)
      ensures Contents() == Cache(max, [], map[])
    {
      this.max, lru, stubs := max, [], map[];
    }

    /** The first locked section. */
    method Find(e: string) returns (stub: Option<Stub>)
      modifies this
      ensures if e in old(stubs) then stub == Some(old(stubs)[e]) && Contents() == Hit(old(Contents()), e)
              else stub == None && Contents() == old(Contents())
    {
      if e !in stubs { return None; }
      lru := [e] + Remove(lru, e);
      return Some(stubs[e]);
    }

    method MakeRoom()
      modifies this
      ensures Contents() == Evict(old(Contents()))
    {
      while |stubs| >= max && lru != []
        invariant Evict(Contents()) == Evict(old(Contents()))
        decreases |lru|
      {
        ghost var c := Contents();
        stubs := stubs - {lru[|lru| - 1]};
        lru := lru[..|lru| - 1];
        assert Contents() == c.(lru := c.lru[..|c.lru| - 1], stubs := c.stubs - {c.lru[|c.lru| - 1]});
      }
    }

    /** The second locked section, entered with the stub just created. */
    method FindOrInsert(e: string, created: Stub) returns (stub: Stub)
      modifies this
      ensures e in old(stubs) ==> stub == old(stubs)[e] && Contents() == Hit(old(Contents()), e)
      ensures e !in old(stubs) && max == 0 ==> stub == created && Contents() == old(Contents())
      ensures e !in old(stubs) && max > 0 ==> stub == created && Contents() == Insert(old(Contents()), e, created)
    {
      if e in stubs {
        lru := [e] + Remove(lru, e);
        return stubs[e];
      }
      if max == 0 { return created; }
      MakeRoom();
      lru := [e] + lru;
      stubs := stubs[e := created];
      return created;
    }
  }
}
