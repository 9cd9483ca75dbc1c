/**
 Which local addresses a manager serves and which shards each of them advertises
 (tpu_sync/core/raiden_manager_base.cc).
 */
module Placement {

  datatype Option<T> = None | Some(value: T)

  datatype NicClass = DataPlane | ControlPlane | Unclassified

  datatype Nic = Nic(ip: string, numaNode: int, nicClass: NicClass)

  const LOOPBACK := "127.0.0.1"

  predicate NoDuplicates<T(==)>(s: seq<T>)
  {
    forall i, j :: 0 <= i < j < |s| ==> s[i] != s[j]
  }

  // ---- which NICs are candidates ----

  predicate HasClass(nics: seq<Nic>, c: NicClass)
  {
    exists i :: 0 <= i < |nics| && nics[i].nicClass == c
  }

  /** Data-plane NICs if there are any, else control-plane ones, else all. */
  predicate Candidate(nics: seq<Nic>, nic: Nic)
  {
    && nic in nics
    && if HasClass(nics, DataPlane) then nic.nicClass == DataPlane
       else if HasClass(nics, ControlPlane) then nic.nicClass == ControlPlane
       else true
  }

  /** The candidate listed first. */
  predicate FirstCandidate(nics: seq<Nic>, nic: Nic)
  {
    exists i :: 0 <= i < |nics| && nics[i] == nic && Candidate(nics, nic)
                && forall j :: 0 <= j < i ==> !Candidate(nics, nics[j])
  }

  /** The nodes of the shards, or the assigned node when no shard has one. */
  predicate Target(shards: seq<int>, hostNode: Option<int>, node: int)
  {
    && node >= 0
    && (node in shards
        || ((forall i :: 0 <= i < |shards| ==> shards[i] < 0) && hostNode == Some(node)))
  }

  /** A candidate on a target node, of the data plane if that is asked. */
  predicate Chosen(nics: seq<Nic>, shards: seq<int>, hostNode: Option<int>, dataOnly: bool, nic: Nic)
  {
    Candidate(nics, nic) && Target(shards, hostNode, nic.numaNode) && (dataOnly ==> nic.nicClass == DataPlane)
  }

  ghost predicate SomeChosen(nics: seq<Nic>, shards: seq<int>, hostNode: Option<int>, dataOnly: bool)
  {
    exists nic :: nic in nics && Chosen(nics, shards, hostNode, dataOnly, nic)
  }

  ghost predicate AddressChosen(nics: seq<Nic>, shards: seq<int>, hostNode: Option<int>, dataOnly: bool, ip: string)
  {
    exists nic :: nic in nics && Chosen(nics, shards, hostNode, dataOnly, nic) && nic.ip == ip
  }

  // ---- nodes of addresses and shards ----

  /** The node an address was first listed with. */
  function FirstNode(nics: seq<Nic>, ip: string): (r: Option<int>)
    ensures r.None? <==> forall i :: 0 <= i < |nics| ==> !(nics[i].ip == ip && nics[i].numaNode >= 0)
  {
    if nics == [] then None
    else
      var front, last := nics[..|nics| - 1], nics[|nics| - 1];
      assert forall i :: 0 <= i < |front| ==> front[i] == nics[i];
      var r := FirstNode(front, ip);
      if r.Some? then r else if last.ip == ip && last.numaNode >= 0 then Some(last.numaNode) else None
  }

  function NodeOf(nodes: map<string, int>, ip: string): (r: Option<int>)
  {
    if ip in nodes then Some(nodes[ip]) else None
  }

  function ShardNode(shards: seq<int>, hostNode: Option<int>, shard: nat): (r: Option<int>)
  {
    if shard < |shards| then if shards[shard] >= 0 then Some(shards[shard]) else None
    else hostNode
  }

  /** Some served address is on the node. */
  predicate HasLocal(ips: seq<string>, nodes: map<string, int>, node: Option<int>)
  {
    exists i :: 0 <= i < |ips| && NodeOf(nodes, ips[i]) == node
  }

  // ---- who serves whom ----

  /** A shard's addresses: those on its node, or all when it has no node or no address there. */
  predicate Serves(ips: seq<string>, nodes: map<string, int>, node: Option<int>, ip: string)
  {
    ip in ips && (node.None? || NodeOf(nodes, ip) == node || !HasLocal(ips, nodes, node))
  }

  predicate Belongs(ips: seq<string>, nodes: map<string, int>, node: Option<int>, ip: string)
  {
    NodeOf(nodes, ip) == node || node.None? || !HasLocal(ips, nodes, node)
  }

  /** An address's shards: those that belong to it, or all when it has no node, is not served, or none belongs. */
  predicate Advertises(ips: seq<string>, nodes: map<string, int>, shards: seq<int>, hostNode: Option<int>,
                       ip: string, shard: nat)
  {
    && shard < |shards|
    && (|| NodeOf(nodes, ip).None? || ip !in ips
        || Belongs(ips, nodes, ShardNode(shards, hostNode, shard), ip)
        || forall other :: 0 <= other < |shards| ==> !Belongs(ips, nodes, ShardNode(shards, hostNode, other), ip))
  }

  /**
   An address a shard is told to use advertises that shard; the converse fails only for
   addresses without a node or without any shard of their own.
   */
  lemma AdvertisingAgainstServing(ips: seq<string>, nodes: map<string, int>, shards: seq<int>, hostNode: Option<int>,
                                  ip: string, shard: nat)
    requires ip in ips && shard < |shards|
    ensures Serves(ips, nodes, ShardNode(shards, hostNode, shard), ip) ==>
              Advertises(ips, nodes, shards, hostNode, ip, shard)
    ensures Advertises(ips, nodes, shards, hostNode, ip, shard)
            && !Serves(ips, nodes, ShardNode(shards, hostNode, shard), ip) ==>
              NodeOf(nodes, ip).None?
              || forall other :: 0 <= other < |shards| ==> !Belongs(ips, nodes, ShardNode(shards, hostNode, other), ip)
  {
  }

  /** Every shard is advertised by some served address. */
  lemma EveryShardIsAdvertised(ips: seq<string>, nodes: map<string, int>, shards: seq<int>, hostNode: Option<int>,
                               shard: nat)
    returns (ip: string)
    requires ips != [] && shard < |shards|
    ensures ip in ips && Serves(ips, nodes, ShardNode(shards, hostNode, shard), ip)
    ensures Advertises(ips, nodes, shards, hostNode, ip, shard)
  {
    var node := ShardNode(shards, hostNode, shard);
    if HasLocal(ips, nodes, node) {
      var i :| 0 <= i < |ips| && NodeOf(nodes, ips[i]) == node;
      ip := ips[i];
    } else {
      ip := ips[0];
    }
  }

  // ---- the object ----

  class Manager {
    const bindIp: Option<string>
    const shards: seq<int>
    const hostNode: Option<int>
    const boundIp: string
    var nodes: map<string, int>
    var localIps: seq<string>

    constructor (bindIp: Option<string>, shards: seq<int>, hostNode: Option<int>, boundIp: string)
      ensures this.bindIp == bindIp && this.shards == shards && this.hostNode == hostNode
      ensures this.boundIp == boundIp && nodes == map[] && localIps == []
    {
      this.bindIp, this.shards, this.hostNode, this.boundIp := bindIp, shards, hostNode, boundIp;
      nodes, localIps := map[], [];
    }

    /** Records the node each address is first listed with. */
    method RecordNodes(nics: seq<Nic>)
      modifies this`nodes
      ensures forall ip :: NodeOf(nodes, ip) == FirstNode(nics, ip)
    {
      nodes := map[];
      for i := 0 to |nics|
        invariant forall ip :: NodeOf(nodes, ip) == FirstNode(nics[..i], ip)
      {
        assert nics[..i + 1][..i] == nics[..i];
        if nics[i].numaNode >= 0 && nics[i].ip !in nodes {
          nodes := nodes[nics[i].ip := nics[i].numaNode];
        }
      }
      assert nics[..|nics|] == nics;
    }

    /** Keeps the NICs of the best class there is. */
    static method Candidates(nics: seq<Nic>) returns (r: seq<Nic>)
      ensures forall nic :: nic in r <==> Candidate(nics, nic)
      ensures nics != [] ==> r != [] && FirstCandidate(nics, r[0])
    {
      var data, ctrl := [], [];
      for i := 0 to |nics|
        invariant Collected(nics, i, DataPlane, data) && Collected(nics, i, ControlPlane, ctrl)
      {
        CollectNext(nics, i, DataPlane, data);
        CollectNext(nics, i, ControlPlane, ctrl);
        if nics[i].nicClass == DataPlane {
          data := data + [nics[i]];
        } else if nics[i].nicClass == ControlPlane {
          ctrl := ctrl + [nics[i]];
        }
      }
      AllCollected(nics, DataPlane, data);
      AllCollected(nics, ControlPlane, ctrl);
      r := if data != [] then data else if ctrl != [] then ctrl else nics;
      assert nics != [] && data == [] && ctrl == [] ==> nics[0] in nics;
    }

    /** The list is the NICs of one class among the first `n`, the first of them in front. */
    static ghost predicate Collected(nics: seq<Nic>, n: nat, c: NicClass, list: seq<Nic>)
      requires n <= |nics|
    {
      && (forall nic :: nic in list <==> nic in nics[..n] && nic.nicClass == c)
      && (list != [] ==> FirstOfClass(nics, n, c, list[0]))
    }

    static predicate FirstOfClass(nics: seq<Nic>, n: nat, c: NicClass, nic: Nic)
      requires n <= |nics|
    {
      exists i :: 0 <= i < n && nics[i] == nic && nic.nicClass == c && forall j :: 0 <= j < i ==> nics[j].nicClass != c
    }

    static lemma CollectNext(nics: seq<Nic>, n: nat, c: NicClass, list: seq<Nic>)
      requires n < |nics| && Collected(nics, n, c, list)
      ensures Collected(nics, n + 1, c, if nics[n].nicClass == c then list + [nics[n]] else list)
    {
      assert nics[..n + 1] == nics[..n] + [nics[n]];
      if list == [] && nics[n].nicClass == c {
        forall j | 0 <= j < n
          ensures nics[j].nicClass != c
        {
          assert nics[j] in nics[..n];
        }
        assert FirstOfClass(nics, n + 1, c, nics[n]);
      } else if list != [] {
        var i :| 0 <= i < n && nics[i] == list[0] && nics[i].nicClass == c
                 && forall j :: 0 <= j < i ==> nics[j].nicClass != c;
        assert FirstOfClass(nics, n + 1, c, list[0]);
      }
    }

    static lemma AllCollected(nics: seq<Nic>, c: NicClass, list: seq<Nic>)
      requires Collected(nics, |nics|, c, list)
      ensures list != [] <==> HasClass(nics, c)
      ensures forall nic :: nic in list <==> nic in nics && nic.nicClass == c
    {
      assert nics[..|nics|] == nics;
      if list != [] {
        assert list[0] in list;
      }
      if HasClass(nics, c) {
        var i :| 0 <= i < |nics| && nics[i].nicClass == c;
        assert nics[i] in list;
      }
    }

    /** The target nodes in first-seen shard order. */
    method Targets() returns (r: seq<int>)
      ensures NoDuplicates(r)
      ensures forall node :: node in r <==> Target(shards, hostNode, node)
    {
      r := [];
      for i := 0 to |shards|
        invariant NoDuplicates(r)
        invariant forall node :: node in r <==> node >= 0 && node in shards[..i]
      {
        assert shards[..i + 1] == shards[..i] + [shards[i]];
        if shards[i] >= 0 && shards[i] !in r {
          r := r + [shards[i]];
        }
      }
      assert shards[..|shards|] == shards;
      assert forall node :: node in r <==> node >= 0 && node in shards;
      if r == [] {
        assert forall i :: 0 <= i < |shards| ==> shards[i] < 0 || shards[i] in r;
        if hostNode.Some? && hostNode.value >= 0 {
          r := [hostNode.value];
        }
      } else {
        assert r[0] in r && r[0] in shards;
      }
    }

    /** Adds the chosen addresses, target node by target node, each once. */
    static method Collect(targets: seq<int>, nics: seq<Nic>, dataOnly: bool) returns (ips: seq<string>)
      ensures NoDuplicates(ips)
      ensures forall ip :: ip in ips <==> AnyWanted(nics, targets, dataOnly, ip)
    {
      ips := [];
      for t := 0 to |targets|
        invariant NoDuplicates(ips)
        invariant forall ip :: ip in ips <==> AnyWanted(nics, targets[..t], dataOnly, ip)
      {
        ips := CollectNode(targets, t, nics, dataOnly, ips);
      }
      assert targets[..|targets|] == targets;
    }

    static predicate Wanted(targets: seq<int>, dataOnly: bool, nic: Nic, ip: string)
    {
      nic.numaNode in targets && (dataOnly ==> nic.nicClass == DataPlane) && nic.ip == ip
    }

    static ghost predicate AnyWanted(nics: seq<Nic>, targets: seq<int>, dataOnly: bool, ip: string)
    {
      exists nic :: nic in nics && Wanted(targets, dataOnly, nic, ip)
    }

    static method CollectNode(targets: seq<int>, t: nat, nics: seq<Nic>, dataOnly: bool, before: seq<string>)
      returns (ips: seq<string>)
      requires t < |targets| && NoDuplicates(before)
      requires forall ip :: ip in before <==> AnyWanted(nics, targets[..t], dataOnly, ip)
      ensures NoDuplicates(ips)
      ensures forall ip :: ip in ips <==> AnyWanted(nics, targets[..t + 1], dataOnly, ip)
    {
      ips := before;
      for i := 0 to |nics|
        invariant NoDuplicates(ips)
        invariant forall ip :: ip in ips <==>
          ip in before || AnyWanted(nics[..i], [targets[t]], dataOnly, ip)
      {
        forall ip
          ensures AnyWanted(nics[..i + 1], [targets[t]], dataOnly, ip)
             <==> AnyWanted(nics[..i], [targets[t]], dataOnly, ip)
                  || Wanted([targets[t]], dataOnly, nics[i], ip)
        {
        }
        if nics[i].numaNode == targets[t] && !(dataOnly && nics[i].nicClass != DataPlane) && nics[i].ip !in ips {
          ips := ips + [nics[i].ip];
        }
      }
      assert nics[..|nics|] == nics;
      assert targets[..t + 1] == targets[..t] + [targets[t]];
    }

    /**
     Serves the bound address, else the data-plane candidates on the target nodes, else
     all candidates there, else the first candidate listed, else the loopback address.
     */
    method InitTransportServer(nics: seq<Nic>)
      modifies this
      ensures localIps != [] && NoDuplicates(localIps)
      ensures forall ip :: NodeOf(nodes, ip) == FirstNode(nics, ip)
      ensures bindIp.Some? && bindIp.value != "" ==> localIps == [bindIp.value]
      ensures !(bindIp.Some? && bindIp.value != "") && SomeChosen(nics, shards, hostNode, true) ==>
        forall ip :: ip in localIps <==> AddressChosen(nics, shards, hostNode, true, ip)
      ensures !(bindIp.Some? && bindIp.value != "") && !SomeChosen(nics, shards, hostNode, true)
              && SomeChosen(nics, shards, hostNode, false) ==>
        forall ip :: ip in localIps <==> AddressChosen(nics, shards, hostNode, false, ip)
      ensures !(bindIp.Some? && bindIp.value != "") && !SomeChosen(nics, shards, hostNode, false) && nics != [] ==>
        exists nic :: FirstCandidate(nics, nic) && localIps == [nic.ip]
      ensures !(bindIp.Some? && bindIp.value != "") && nics == [] ==> localIps == [LOOPBACK]
    {
      RecordNodes(nics);
      if bindIp.Some? && bindIp.value != "" {
        localIps := [bindIp.value];
        return;
      }
      var candidates := Candidates(nics);
      var targets := Targets();
      var ips := SelectFrom(nics, candidates, targets);
      localIps := if ips == [] then [LOOPBACK] else ips;
    }

    method SelectFrom(nics: seq<Nic>, candidates: seq<Nic>, targets: seq<int>) returns (ips: seq<string>)
      requires forall nic :: nic in candidates <==> Candidate(nics, nic)
      requires nics != [] ==> candidates != [] && FirstCandidate(nics, candidates[0])
      requires forall node :: node in targets <==> Target(shards, hostNode, node)
      ensures NoDuplicates(ips) && (ips == [] <==> nics == [])
      ensures SomeChosen(nics, shards, hostNode, true) ==>
        forall ip :: ip in ips <==> AddressChosen(nics, shards, hostNode, true, ip)
      ensures !SomeChosen(nics, shards, hostNode, true) && SomeChosen(nics, shards, hostNode, false) ==>
        forall ip :: ip in ips <==> AddressChosen(nics, shards, hostNode, false, ip)
      ensures !SomeChosen(nics, shards, hostNode, false) && nics != [] ==>
        exists nic :: FirstCandidate(nics, nic) && ips == [nic.ip]
    {
      ips := [];
      if candidates != [] {
        assert candidates[0] in candidates && Candidate(nics, candidates[0]);
        ips := Collect(targets, candidates, true);
        CollectedAreChosen(nics, candidates, targets, true, ips);
        if ips == [] {
          ips := Collect(targets, candidates, false);
          CollectedAreChosen(nics, candidates, targets, false, ips);
        }
        if ips == [] {
          ips := [candidates[0].ip];
        }
      }
    }

    lemma CollectedAreChosen(nics: seq<Nic>, candidates: seq<Nic>, targets: seq<int>, dataOnly: bool, ips: seq<string>)
      requires forall nic :: nic in candidates <==> Candidate(nics, nic)
      requires forall node :: node in targets <==> Target(shards, hostNode, node)
      requires forall ip :: ip in ips <==> AnyWanted(candidates, targets, dataOnly, ip)
      ensures forall ip :: ip in ips <==> AddressChosen(nics, shards, hostNode, dataOnly, ip)
      ensures ips == [] <==> !SomeChosen(nics, shards, hostNode, dataOnly)
    {
      forall ip
        ensures ip in ips <==> AddressChosen(nics, shards, hostNode, dataOnly, ip)
      {
        if ip in ips {
          var nic :| nic in candidates && Wanted(targets, dataOnly, nic, ip);
          assert Chosen(nics, shards, hostNode, dataOnly, nic) && nic.ip == ip;
        }
        if AddressChosen(nics, shards, hostNode, dataOnly, ip) {
          var nic :| nic in nics && Chosen(nics, shards, hostNode, dataOnly, nic) && nic.ip == ip;
          assert nic in candidates && Wanted(targets, dataOnly, nic, ip);
        }
      }
      if ips != [] {
        assert ips[0] in ips;
      }
      if SomeChosen(nics, shards, hostNode, dataOnly) {
        var nic :| nic in nics && Chosen(nics, shards, hostNode, dataOnly, nic);
        assert AddressChosen(nics, shards, hostNode, dataOnly, nic.ip);
      }
    }

    function LocalIps(): (r: seq<string>)
      reads this
      ensures r != []
    {
      if localIps == [] then [boundIp] else localIps
    }

    method LocalIpsForShard(shard: nat) returns (r: seq<string>)
      ensures r != []
      ensures forall ip :: ip in r <==> Serves(LocalIps(), nodes, ShardNode(shards, hostNode, shard), ip)
    {
      var all, node := LocalIps(), ShardNode(shards, hostNode, shard);
      if node.None? { return all; }
      r := [];
      for i := 0 to |all|
        invariant forall ip :: ip in r <==> ip in all[..i] && NodeOf(nodes, ip) == node
      {
        assert all[..i + 1] == all[..i] + [all[i]];
        if NodeOf(nodes, all[i]) == node {
          r := r + [all[i]];
        }
      }
      assert all[..|all|] == all;
      if r == [] {
        assert forall i :: 0 <= i < |all| ==> all[i] in all && all[i] !in r;
        r := all;
      } else {
        assert r[0] in r && r[0] in all;
      }
    }

    method ShardsForLocalIp(ip: string) returns (r: seq<nat>)
      ensures forall shard: nat :: shard in r <==> Advertises(LocalIps(), nodes, shards, hostNode, ip, shard)
      ensures forall i, j :: 0 <= i < j < |r| ==> r[i] < r[j]
    {
      var everyShard: seq<nat> := [];
      for s := 0 to |shards|
        invariant forall shard: nat :: shard in everyShard <==> shard < s
        invariant forall i, j :: 0 <= i < j < |everyShard| ==> everyShard[i] < everyShard[j]
      {
        assert forall i :: 0 <= i < |everyShard| ==> everyShard[i] in everyShard;
        everyShard := everyShard + [s];
      }
      var all, node := LocalIps(), NodeOf(nodes, ip);
      if node.None? || ip !in all { return everyShard; }
      r := [];
      for s := 0 to |shards|
        invariant forall shard: nat :: shard in r <==>
          shard < s && Belongs(all, nodes, ShardNode(shards, hostNode, shard), ip)
        invariant forall i, j :: 0 <= i < j < |r| ==> r[i] < r[j]
      {
        assert forall i :: 0 <= i < |r| ==> r[i] in r;
        if Belongs(all, nodes, ShardNode(shards, hostNode, s), ip) {
          r := r + [s];
        }
      }
      if r == [] {
        r := everyShard;
      } else {
        assert r[0] in r;
      }
    }
  }
}
