/**
Which meta partitions a balance plan takes up: overloaded meta nodes are given partitions to shed until each has enough.
*/
module BalanceCounting {
  import opened BalanceTopology
  import opened BalanceBooking
  import opened BalancePlan

  /** A partition's hosts are what the master assigned; its replicas are those that have reported to this master. */
  datatype Partition = Partition(
    id: nat, inodeCount: nat, hosts: seq<string>, replicas: seq<string>, crossZone: bool)

  /** Where a meta node is. */
  datatype Location = Location(setID: nat, zone: string)

  /** An overloaded meta node: how many partitions it should shed, and how many are planned. */
  datatype OverNode = OverNode(addr: string, estimate: int, planCnt: nat, inodeCount: nat, used: nat)

  ghost predicate NodesDiffer(nodes: seq<OverNode>) {
    forall i, j :: 0 <= i < j < |nodes| ==> nodes[i].addr != nodes[j].addr
  }

  predicate IsOverload(nodes: seq<OverNode>, addr: string) { exists k :: 0 <= k < |nodes| && nodes[k].addr == addr }

  // ---------------------------------------------------------------- counting

  function Times(rs: seq<Replica>, addr: string): nat {
    if rs == [] then 0 else Times(rs[..|rs| - 1], addr) + if rs[|rs| - 1].source == addr then 1 else 0
  }

  /** How often the plan lists a node as overloaded. */
  function Listings(plan: seq<Item>, addr: string): nat {
    if plan == [] then 0 else Listings(plan[..|plan| - 1], addr) + Times(plan[|plan| - 1].overload, addr)
  }

  predicate InPlan(plan: seq<Item>, id: nat) { exists i :: 0 <= i < |plan| && plan[i].id == id }

  ghost predicate IdsDiffer(plan: seq<Item>) { forall i, j :: 0 <= i < j < |plan| ==> plan[i].id != plan[j].id }

  ghost predicate Counted(nodes: seq<OverNode>, plan: seq<Item>) {
    forall k :: 0 <= k < |nodes| ==> nodes[k].planCnt == Listings(plan, nodes[k].addr)
  }

  /** A replica on an overloaded node has been reported. */
  predicate HasOverloaded(nodes: seq<OverNode>, mp: Partition) {
    exists i :: 0 <= i < |mp.replicas| && IsOverload(nodes, mp.replicas[i])
  }

  /** A node has shed enough, or everything it holds is planned. */
  ghost predicate Served(node: OverNode, hosted: seq<Partition>, plan: seq<Item>) {
    node.planCnt >= node.estimate || forall p :: p in hosted ==> InPlan(plan, p.id)
  }

  /** The items that list the node as overloaded. */
  ghost function ListedBy(plan: seq<Item>, addr: string): set<int> {
    set i | 0 <= i < |plan| && Listed(plan[i].overload, addr)
  }

  lemma {:induction false} TimesIs(rs: seq<Replica>, addr: string)
    requires Distinct(rs)
    ensures Times(rs, addr) == if Listed(rs, addr) then 1 else 0
  {
    if rs != [] {
      var rest, last := rs[..|rs| - 1], rs[|rs| - 1];
      TimesIs(rest, addr);
      assert forall i :: 0 <= i < |rest| ==> rest[i] == rs[i];
    }
  }

  /** Where no item lists a node twice, the listings are as many as the items that list it. */
  lemma {:induction false} ListingsAre(plan: seq<Item>, addr: string)
    requires forall i :: 0 <= i < |plan| ==> Distinct(plan[i].overload)
    ensures Listings(plan, addr) == |ListedBy(plan, addr)|
  {
    hide Times, Listed, Distinct;
    if plan == [] {
      assert ListedBy(plan, addr) == {};
    } else {
      hide ListedBy;
      ListingsAre(plan[..|plan| - 1], addr);
      TimesIs(plan[|plan| - 1].overload, addr);
      ListedByLast(plan, addr);
    }
  }

  lemma ListedByLast(plan: seq<Item>, addr: string)
    requires plan != []
    ensures var n := |plan| - 1;
            |ListedBy(plan, addr)| == |ListedBy(plan[..n], addr)| + if Listed(plan[n].overload, addr) then 1 else 0
  {
    hide Listed;
    var n := |plan| - 1;
    assert forall i :: 0 <= i < n ==> plan[..n][i] == plan[i];
    assert ListedBy(plan, addr) == ListedBy(plan[..n], addr) + if Listed(plan[n].overload, addr) then {n} else {};
  }

  lemma ListingsSnoc(plan: seq<Item>, item: Item, addr: string)
    ensures Listings(plan + [item], addr) == Listings(plan, addr) + Times(item.overload, addr)
  {
    assert (plan + [item])[..|plan|] == plan;
  }

  /** One node counted more often. */
  function Credited(node: OverNode, more: nat): OverNode { node.(planCnt := node.planCnt + more) }

  ghost predicate AllCredited(nodes: seq<OverNode>, nodes': seq<OverNode>, rs: seq<Replica>) {
    |nodes'| == |nodes|
    && forall k :: 0 <= k < |nodes| ==> nodes'[k] == Credited(nodes[k], Times(rs, nodes[k].addr))
  }

  lemma CreditedMore(nodes: seq<OverNode>, nodes': seq<OverNode>, nodes'': seq<OverNode>, rs: seq<Replica>, r: Replica)
    requires AllCredited(nodes, nodes', rs) && |nodes''| == |nodes'|
    requires forall k :: 0 <= k < |nodes'| ==>
               nodes''[k] == Credited(nodes'[k], if nodes'[k].addr == r.source then 1 else 0)
    ensures AllCredited(nodes, nodes'', rs + [r])
  {
    forall k | 0 <= k < |nodes| ensures nodes''[k] == Credited(nodes[k], Times(rs + [r], nodes[k].addr)) {
      assert (rs + [r])[..|rs|] == rs;
      assert nodes'[k] == Credited(nodes[k], Times(rs, nodes[k].addr));
    }
  }

  // ---------------------------------------------------------------- one partition

  /** The memory a replica takes on its node, as its share of the node's inodes. */
  function ShareOf(node: OverNode, mp: Partition): nat {
    if node.inodeCount > 0 then mp.inodeCount * node.used / node.inodeCount else 0
  }

  function MemSize(nodes: seq<OverNode>, addr: string, mp: Partition): nat {
    if nodes == [] then 0
    else if nodes[0].addr == addr then ShareOf(nodes[0], mp) else MemSize(nodes[1..], addr, mp)
  }

  function RecordOf(nodes: seq<OverNode>, mp: Partition, addr: string, at: Location): Replica {
    Replica(addr, MemSize(nodes, addr, mp), at.setID, at.zone)
  }

  /** The share is the quotient rounded down, of a node that has inodes at all. */
  lemma ShareIs(node: OverNode, mp: Partition)
    requires node.inodeCount > 0
    ensures ShareOf(node, mp) * node.inodeCount <= mp.inodeCount * node.used < (ShareOf(node, mp) + 1) * node.inodeCount
  {
    RoundedDown(mp.inodeCount * node.used, node.inodeCount);
  }

  lemma RoundedDown(n: nat, d: nat)
    requires d > 0
    ensures (n / d) * d <= n < (n / d + 1) * d
  {
    assert (n / d + 1) * d == (n / d) * d + d;
  }

  function Inodes(ps: seq<Partition>): nat {
    if ps == [] then 0 else Inodes(ps[..|ps| - 1]) + ps[|ps| - 1].inodeCount
  }

  function Shares(node: OverNode, ps: seq<Partition>): nat {
    if ps == [] then 0 else Shares(node, ps[..|ps| - 1]) + ShareOf(node, ps[|ps| - 1])
  }

  /** The partitions of a node together have no more of its memory than it uses. */
  lemma SharesFit(node: OverNode, ps: seq<Partition>)
    requires Inodes(ps) <= node.inodeCount
    ensures Shares(node, ps) <= node.used
  {
    hide Shares, Inodes;
    if node.inodeCount > 0 {
      SharesAtMost(node, ps);
      PartOfUsed(Shares(node, ps), Inodes(ps), node.inodeCount, node.used);
    } else {
      NoShares(node, ps);
    }
  }

  lemma PartOfUsed(shares: nat, part: nat, whole: nat, used: nat)
    requires 0 < whole && part <= whole && shares * whole <= part * used
    ensures shares <= used
  {
    Scaled(part, whole, used);
    Distributed(used, 1, whole);
    if shares > used {
      Scaled(used + 1, shares, whole);
      assert false;
    }
  }

  lemma Scaled(a: nat, b: nat, c: nat)
    requires a <= b
    ensures a * c <= b * c
  {
    Distributed(a, b - a, c);
  }

  lemma {:induction false} SharesAtMost(node: OverNode, ps: seq<Partition>)
    requires node.inodeCount > 0
    ensures Shares(node, ps) * node.inodeCount <= Inodes(ps) * node.used
  {
    if ps != [] {
      hide ShareOf;
      var rest, mp := ps[..|ps| - 1], ps[|ps| - 1];
      SharesAtMost(node, rest);
      ShareIs(node, mp);
      Distributed(Shares(node, rest), ShareOf(node, mp), node.inodeCount);
      Distributed(Inodes(rest), mp.inodeCount, node.used);
    }
  }

  lemma Distributed(a: nat, b: nat, c: nat)
    ensures (a + b) * c == a * c + b * c
  {
  }

  lemma {:induction false} NoShares(node: OverNode, ps: seq<Partition>)
    requires node.inodeCount == 0
    ensures Shares(node, ps) == 0
  {
    if ps != [] {
      NoShares(node, ps[..|ps| - 1]);
    }
  }

  /** The size recorded for a replica on an overloaded node is its share of that node. */
  lemma {:induction false} MemSizeAt(nodes: seq<OverNode>, k: nat, mp: Partition)
    requires NodesDiffer(nodes) && k < |nodes|
    ensures MemSize(nodes, nodes[k].addr, mp) == ShareOf(nodes[k], mp)
  {
    hide ShareOf;
    if k > 0 {
      assert nodes[0].addr != nodes[k].addr;
      MemSizeAt(nodes[1..], k - 1, mp);
    }
  }

  /** The sizes recorded for the replicas of the partitions at one address. */
  function Recorded(nodes: seq<OverNode>, addr: string, ps: seq<Partition>, at: Location): nat {
    if ps == [] then 0
    else Recorded(nodes, addr, ps[..|ps| - 1], at) + RecordOf(nodes, ps[|ps| - 1], addr, at).memSize
  }

  lemma {:induction false} RecordedAreShares(nodes: seq<OverNode>, k: nat, ps: seq<Partition>, at: Location)
    requires NodesDiffer(nodes) && k < |nodes|
    ensures Recorded(nodes, nodes[k].addr, ps, at) == Shares(nodes[k], ps)
  {
    hide ShareOf, MemSize;
    if ps != [] {
      RecordedAreShares(nodes, k, ps[..|ps| - 1], at);
      MemSizeAt(nodes, k, ps[|ps| - 1]);
    }
  }

  /** What is recorded for the partitions of an overloaded node is together no more than it uses. */
  lemma RecordsFit(nodes: seq<OverNode>, k: nat, ps: seq<Partition>, at: Location)
    requires NodesDiffer(nodes) && k < |nodes| && Inodes(ps) <= nodes[k].inodeCount
    ensures Recorded(nodes, nodes[k].addr, ps, at) <= nodes[k].used
  {
    RecordedAreShares(nodes, k, ps, at);
    SharesFit(nodes[k], ps);
  }

  lemma {:induction false} MemSizeNone(nodes: seq<OverNode>, addr: string, mp: Partition)
    requires !IsOverload(nodes, addr)
    ensures MemSize(nodes, addr, mp) == 0
  {
    if nodes != [] {
      assert nodes[0].addr != addr;
      MemSizeNone(nodes[1..], addr, mp);
    }
  }

  /** What an item records of a replica: where it is, and its share of the memory of an overloaded node. */
  ghost predicate RecordedAs(nodes: seq<OverNode>, mp: Partition, addr: string, at: Location, r: Replica) {
    && r.source == addr && r.setID == at.setID && r.zone == at.zone
    && (!IsOverload(nodes, addr) ==> r.memSize == 0)
    && forall k :: 0 <= k < |nodes| && nodes[k].addr == addr ==>
         if nodes[k].inodeCount == 0 then r.memSize == 0
         else
           && r.memSize * nodes[k].inodeCount <= mp.inodeCount * nodes[k].used
           && mp.inodeCount * nodes[k].used < (r.memSize + 1) * nodes[k].inodeCount
  }

  lemma RecordIs(nodes: seq<OverNode>, mp: Partition, addr: string, at: Location)
    requires NodesDiffer(nodes)
    ensures RecordedAs(nodes, mp, addr, at, RecordOf(nodes, mp, addr, at))
  {
    hide MemSize, NodesDiffer;
    if !IsOverload(nodes, addr) {
      MemSizeNone(nodes, addr, mp);
    }
    forall k | 0 <= k < |nodes| && nodes[k].addr == addr
      ensures MemSize(nodes, addr, mp) == ShareOf(nodes[k], mp)
      ensures nodes[k].inodeCount > 0 ==>
                && ShareOf(nodes[k], mp) * nodes[k].inodeCount <= mp.inodeCount * nodes[k].used
                && mp.inodeCount * nodes[k].used < (ShareOf(nodes[k], mp) + 1) * nodes[k].inodeCount
    {
      MemSizeAt(nodes, k, mp);
      if nodes[k].inodeCount > 0 {
        ShareIs(nodes[k], mp);
      }
    }
  }

  /** The replicas on overloaded nodes. */
  function Overloaded(nodes: seq<OverNode>, rs: seq<Replica>): seq<Replica> {
    if rs == [] then []
    else
      var rest := Overloaded(nodes, rs[..|rs| - 1]);
      if IsOverload(nodes, rs[|rs| - 1].source) then rest + [rs[|rs| - 1]] else rest
  }

  lemma {:induction false} OverloadedExact(nodes: seq<OverNode>, rs: seq<Replica>, r: Replica)
    ensures r in Overloaded(nodes, rs) <==> r in rs && IsOverload(nodes, r.source)
  {
    if rs != [] {
      OverloadedExact(nodes, rs[..|rs| - 1], r);
      assert rs == rs[..|rs| - 1] + [rs[|rs| - 1]];
    }
  }

  class PlanBuilder {
    const cluster: map<string, Location>
    var nodes: seq<OverNode>
    var plan: seq<Item>

    ghost predicate Valid()
      reads this
    {
      NodesDiffer(nodes) && IdsDiffer(plan) && Counted(nodes, plan)
    }

    constructor (cluster: map<string, Location>, nodes: seq<OverNode>)
      requires NodesDiffer(nodes) && forall k :: 0 <= k < |nodes| ==> nodes[k].planCnt == 0
      ensures Valid() && this.cluster == cluster && this.nodes == nodes && plan == []
    {
      this.cluster, this.nodes, this.plan := cluster, nodes, [];
    }

    method IsOverLoadNode(addr: string) returns (yes: bool)
      ensures yes <==> IsOverload(nodes, addr)
    {
      for k := 0 to |nodes|
        invariant forall i :: 0 <= i < k ==> nodes[i].addr != addr
      {
        if nodes[k].addr == addr {
          return true;
        }
      }
      yes := false;
    }

    method CheckMetaPartitionInPlan(id: nat) returns (yes: bool)
      ensures yes <==> InPlan(plan, id)
    {
      for k := 0 to |plan|
        invariant forall i :: 0 <= i < k ==> plan[i].id != id
      {
        if plan[k].id == id {
          return true;
        }
      }
      yes := false;
    }

    /** The plan item of a partition; a replica on an unknown meta node is an error. */
    method BuildItem(mp: Partition) returns (ok: bool, item: Item)
      ensures ok <==> forall i :: 0 <= i < |mp.replicas| ==> mp.replicas[i] in cluster
      ensures ok ==>
                && item == Item(mp.id, item.original, Overloaded(nodes, item.original), [], mp.crossZone)
                && |item.original| == |mp.replicas|
                && forall i :: 0 <= i < |mp.replicas| ==>
                     item.original[i] == RecordOf(nodes, mp, mp.replicas[i], cluster[mp.replicas[i]])
      ensures ok && NodesDiffer(nodes) ==>
                forall i :: 0 <= i < |mp.replicas| ==>
                  RecordedAs(nodes, mp, mp.replicas[i], cluster[mp.replicas[i]], item.original[i])
    {
      hide RecordedAs, NodesDiffer, MemSize;
      var original, overload := [], [];
      for i := 0 to |mp.replicas|
        invariant forall k :: 0 <= k < i ==> mp.replicas[k] in cluster
        invariant |original| == i && overload == Overloaded(nodes, original)
        invariant forall k :: 0 <= k < i ==> original[k] == RecordOf(nodes, mp, mp.replicas[k], cluster[mp.replicas[k]])
      {
        if mp.replicas[i] !in cluster {
          return false, Item(mp.id, [], [], [], mp.crossZone);
        }
        var record := RecordOf(nodes, mp, mp.replicas[i], cluster[mp.replicas[i]]);
        var over := IsOverLoadNode(record.source);
        assert (original + [record])[..i] == original;
        original := original + [record];
        if over {
          overload := overload + [record];
        }
      }
      ok, item := true, Item(mp.id, original, overload, [], mp.crossZone);
      if NodesDiffer(nodes) {
        forall i | 0 <= i < |mp.replicas|
          ensures RecordedAs(nodes, mp, mp.replicas[i], cluster[mp.replicas[i]], original[i])
        {
          RecordIs(nodes, mp, mp.replicas[i], cluster[mp.replicas[i]]);
        }
      }
    }

    /** The inner loop of UpdateMetaReplicaPlanCount. */
    method CreditNode(r: Replica)
      requires NodesDiffer(nodes)
      modifies `nodes
      ensures |nodes| == |old(nodes)|
      ensures forall k :: 0 <= k < |nodes| ==>
                nodes[k] == Credited(old(nodes)[k], if old(nodes)[k].addr == r.source then 1 else 0)
    {
      for j := 0 to |nodes|
        invariant nodes == old(nodes) && forall k :: 0 <= k < j ==> nodes[k].addr != r.source
      {
        if nodes[j].addr == r.source {
          nodes := nodes[j := Credited(nodes[j], 1)];
          return;
        }
      }
    }

    /** UpdateMetaReplicaPlanCount. */
    method UpdateMetaReplicaPlanCount(rs: seq<Replica>)
      requires NodesDiffer(nodes)
      modifies `nodes
      ensures NodesDiffer(nodes) && AllCredited(old(nodes), nodes, rs)
    {
      for i := 0 to |rs|
        invariant NodesDiffer(nodes) && AllCredited(old(nodes), nodes, rs[..i])
      {
        ghost var before := nodes;
        CreditNode(rs[i]);
        CreditedMore(old(nodes), before, nodes, rs[..i], rs[i]);
        assert rs[..i + 1] == rs[..i] + [rs[i]];
      }
      assert rs[..|rs|] == rs;
    }

    /** One turn of AddMetaPartitionIntoPlan's loop, for a partition that is not in the plan. */
    method AddItem(mp: Partition) returns (ok: bool)
      requires Valid() && ItemsValid() && !InPlan(plan, mp.id)
      requires OneZonePerSet(cluster) && GoodPartition(nodes, mp)
      modifies `nodes, `plan
      ensures Valid() && ItemsValid() && SameNodes(old(nodes), nodes)
      ensures ok <==> forall i :: 0 <= i < |mp.replicas| ==> mp.replicas[i] in cluster
      ensures !ok || !HasOverloaded(old(nodes), mp) ==> nodes == old(nodes) && plan == old(plan)
      ensures ok && HasOverloaded(old(nodes), mp) ==>
                && |plan| == |old(plan)| + 1 && plan[..|old(plan)|] == old(plan)
                && BuiltFrom(cluster, old(nodes), mp, plan[|old(plan)|])
    {
      hide Counted, Times, Listings, MemSize, Overloaded, ItemValid, NodesDiffer, IdsDiffer, GoodPartition;
      hide HasOverloaded;
      SameAsBefore(nodes);
      var item;
      ok, item := BuildItem(mp);
      if !ok {
        return;
      }
      BuiltValid(cluster, nodes, mp, item);
      SomeOverloaded(cluster, nodes, mp, item);
      if |item.overload| <= 0 {
        return;
      }
      UpdateMetaReplicaPlanCount(item.overload);
      CreditedSame(old(nodes), nodes, item.overload);
      CountedMore(old(nodes), nodes, plan, item);
      IdsMore(plan, item);
      plan := plan + [item];
    }

    /**
    AddMetaPartitionIntoPlan: unless a reported replica is on an unknown meta node, the node has enough planned, or what
    is planned of its partitions are those that were before and those with a reported overloaded replica. Every new item
    is one of its partitions, and without the last of them the node would not have enough. `hosted` are the partitions
    of the node in the order they are considered.
    */
    method AddMetaPartitionIntoPlan(k: nat, hosted: seq<Partition>) returns (ok: bool)
      requires Valid() && ItemsValid() && OneZonePerSet(cluster) && k < |nodes| && AllGood(nodes, hosted)
      modifies `nodes, `plan
      ensures Valid() && ItemsValid() && SameNodes(old(nodes), nodes) && Grown(old(plan), plan)
      ensures ok ==> nodes[k].planCnt >= nodes[k].estimate || Considered(old(nodes), hosted, plan)
      ensures NewItems(cluster, old(nodes), hosted, old(plan), plan)
      ensures |plan| > |old(plan)| ==> Listings(plan[..|plan| - 1], nodes[k].addr) < nodes[k].estimate
    {
      hide Valid, ItemsValid, OneZonePerSet, GoodPartition, BuiltFrom, Listings, HasOverloaded, NewItems;
      SameAsBefore(nodes);
      NothingNew(cluster, nodes, hosted, plan);
      if nodes[k].planCnt >= nodes[k].estimate {
        return true;
      }
      var i := 0;
      while i < |hosted|
        invariant i <= |hosted| && Valid() && ItemsValid() && SameNodes(old(nodes), nodes) && Grown(old(plan), plan)
        invariant Considered(old(nodes), hosted[..i], plan)
        invariant NewItems(cluster, old(nodes), hosted, old(plan), plan) && nodes[k].planCnt < nodes[k].estimate
        invariant |plan| > |old(plan)| ==> Listings(plan[..|plan| - 1], nodes[k].addr) < nodes[k].estimate
      {
        var planned := CheckMetaPartitionInPlan(hosted[i].id);
        if planned {
          OneConsidered(old(nodes), hosted, i, plan);
          i := i + 1;
          continue;
        }
        ghost var before, counts := plan, nodes;
        CountOf(k);
        GoodSame(old(nodes), nodes, hosted[i]);
        HasSame(old(nodes), nodes, hosted[i]);
        ok := AddItem(hosted[i]);
        SameTwice(old(nodes), counts, nodes);
        if !ok {
          return;
        }
        if HasOverloaded(old(nodes), hosted[i]) {
          GrownTwice(old(plan), before, plan);
          BuiltSame(cluster, old(nodes), counts, hosted[i], plan[|before|]);
          BuiltInPlan(cluster, old(nodes), hosted[i], before, plan);
          OneNew(cluster, old(nodes), hosted, hosted[i], old(plan), before, plan);
          ConsideredGrown(old(nodes), hosted[..i], before, plan);
        }
        OneConsidered(old(nodes), hosted, i, plan);
        i := i + 1;
        if nodes[k].planCnt >= nodes[k].estimate {
          break;
        }
      }
      assert i == |hosted| ==> hosted[..i] == hosted;
      ok := true;
    }

    lemma CountOf(k: nat)
      requires Valid() && k < |nodes|
      ensures Listings(plan, nodes[k].addr) == nodes[k].planCnt
    {
    }

    /**
    CreateMetaPartitionMigratePlan: one node after the other; a node with an error does not stop the rest. `hosted` are
    the partitions of each node. A node without an error has enough planned or everything it holds planned exactly when
    it has enough or a replica on an overloaded node has been reported of everything it holds.
    */
    method CreateMetaPartitionMigratePlan(all: seq<Partition>, hosted: seq<seq<Partition>>) returns (ok: seq<bool>)
      requires Valid() && plan == [] && OneZonePerSet(cluster) && AllGood(nodes, all) && OnePerId(all)
      requires |hosted| == |nodes| && forall k :: 0 <= k < |nodes| ==> HostedBy(all, nodes[k].addr, hosted[k])
      modifies `nodes, `plan
      ensures Valid() && ItemsValid() && SameNodes(old(nodes), nodes) && |ok| == |nodes|
      ensures NewItems(cluster, old(nodes), all, [], plan)
      ensures forall k :: 0 <= k < |nodes| ==> nodes[k].planCnt == |ListedBy(plan, nodes[k].addr)|
      ensures forall k :: 0 <= k < |nodes| && ok[k] ==>
                (Served(nodes[k], hosted[k], plan) <==>
                   || nodes[k].planCnt >= nodes[k].estimate
                   || forall p :: p in all && nodes[k].addr in p.hosts ==> HasOverloaded(nodes, p))
    {
      hide Valid, ItemsValid, OneZonePerSet, GoodPartition, Served, Grown, NewItems, Considered, HostedBy;
      hide HasOverloaded;
      ok := [];
      SameAsBefore(nodes);
      NothingNew(cluster, nodes, all, []);
      NoItems();
      for k := 0 to |hosted|
        invariant Valid() && ItemsValid() && SameNodes(old(nodes), nodes) && |ok| == k
        invariant NewItems(cluster, old(nodes), all, [], plan)
        invariant forall j :: 0 <= j < k && ok[j] ==>
                    nodes[j].planCnt >= nodes[j].estimate || Considered(old(nodes), hosted[j], plan)
      {
        ghost var before, counts := plan, nodes;
        HostedGood(old(nodes), nodes, all, nodes[k].addr, hosted[k]);
        var added := AddMetaPartitionIntoPlan(k, hosted[k]);
        SameTwice(old(nodes), counts, nodes);
        NewFromAll(cluster, old(nodes), counts, all, nodes[k].addr, hosted[k], before, plan);
        ConsideredSame(old(nodes), counts, hosted[k], plan);
        forall j | 0 <= j < k && ok[j]
          ensures nodes[j].planCnt >= nodes[j].estimate || Considered(old(nodes), hosted[j], plan)
        {
          if Considered(old(nodes), hosted[j], before) {
            ConsideredGrown(old(nodes), hosted[j], before, plan);
          }
        }
        ok := ok + [added];
      }
      forall k | 0 <= k < |nodes| && ok[k]
        ensures Served(nodes[k], hosted[k], plan) <==>
                  || nodes[k].planCnt >= nodes[k].estimate
                  || forall p :: p in all && nodes[k].addr in p.hosts ==> HasOverloaded(nodes, p)
      {
        ServedIff(cluster, old(nodes), nodes, all, k, hosted[k], plan);
      }
      CountsAre();
    }

    /** A node's count is the number of items that list it. */
    lemma CountsAre()
      requires Valid() && ItemsValid()
      ensures forall k :: 0 <= k < |nodes| ==> nodes[k].planCnt == |ListedBy(plan, nodes[k].addr)|
    {
      hide Listings, ListedBy, MaxMem;
      forall k | 0 <= k < |nodes| ensures nodes[k].planCnt == |ListedBy(plan, nodes[k].addr)| {
        ListingsAre(plan, nodes[k].addr);
      }
    }

    lemma NoItems()
      requires plan == []
      ensures ItemsValid()
    {
    }

    ghost predicate ItemsValid()
      reads this
    {
      forall i :: 0 <= i < |plan| ==> ItemValid(plan[i]) && plan[i].plan == []
    }
  }

  // ---------------------------------------------------------------- what an item is worth

  ghost predicate SameNodes(nodes: seq<OverNode>, nodes': seq<OverNode>) {
    |nodes'| == |nodes|
    && forall k :: 0 <= k < |nodes| ==>
         nodes'[k].planCnt >= nodes[k].planCnt && nodes'[k] == nodes[k].(planCnt := nodes'[k].planCnt)
  }

  ghost predicate OneZonePerSet(cluster: map<string, Location>) {
    forall a, b :: a in cluster && b in cluster && cluster[a].setID == cluster[b].setID ==>
      cluster[a].zone == cluster[b].zone
  }

  /** A partition reported by different nodes, none of which holds more of it than a signed 64-bit number of bytes. */
  ghost predicate GoodPartition(nodes: seq<OverNode>, mp: Partition) {
    && (forall i, j :: 0 <= i < j < |mp.replicas| ==> mp.replicas[i] != mp.replicas[j])
    && (forall k :: 0 <= k < |nodes| ==> MEMORY_RATIO * ShareOf(nodes[k], mp) < UINT64)
  }

  lemma CreditedSame(nodes: seq<OverNode>, nodes': seq<OverNode>, rs: seq<Replica>)
    requires AllCredited(nodes, nodes', rs)
    ensures SameNodes(nodes, nodes')
  {
  }

  lemma CountedMore(nodes: seq<OverNode>, nodes': seq<OverNode>, plan: seq<Item>, item: Item)
    requires Counted(nodes, plan) && AllCredited(nodes, nodes', item.overload)
    ensures Counted(nodes', plan + [item])
  {
    hide Times, Listings;
    forall k | 0 <= k < |nodes'| ensures nodes'[k].planCnt == Listings(plan + [item], nodes'[k].addr) {
      ListingsSnoc(plan, item, nodes[k].addr);
    }
  }

  lemma IdsMore(plan: seq<Item>, item: Item)
    requires IdsDiffer(plan) && !InPlan(plan, item.id)
    ensures IdsDiffer(plan + [item])
  {
  }

  ghost predicate BuiltFrom(cluster: map<string, Location>, nodes: seq<OverNode>, mp: Partition, item: Item) {
    && item == Item(mp.id, item.original, Overloaded(nodes, item.original), [], mp.crossZone)
    && |item.original| == |mp.replicas|
    && forall i :: 0 <= i < |mp.replicas| ==>
         mp.replicas[i] in cluster && item.original[i] == RecordOf(nodes, mp, mp.replicas[i], cluster[mp.replicas[i]])
  }

  /** An item of one of the partitions, with an overloaded replica. */
  ghost predicate ItemOf(cluster: map<string, Location>, nodes: seq<OverNode>, ps: seq<Partition>, item: Item) {
    item.overload != [] && exists p :: p in ps && BuiltFrom(cluster, nodes, p, item)
  }

  /** What was added to the plan are items of the partitions, each with an overloaded replica. */
  ghost predicate NewItems(cluster: map<string, Location>, nodes: seq<OverNode>, hosted: seq<Partition>,
                           plan: seq<Item>, plan': seq<Item>) {
    forall i :: |plan| <= i < |plan'| ==> ItemOf(cluster, nodes, hosted, plan'[i])
  }

  lemma {:induction false} MemSizeSame(nodes: seq<OverNode>, nodes': seq<OverNode>, addr: string, mp: Partition)
    requires SameNodes(nodes, nodes')
    ensures MemSize(nodes', addr, mp) == MemSize(nodes, addr, mp)
    ensures IsOverload(nodes', addr) == IsOverload(nodes, addr)
  {
    if nodes != [] {
      MemSizeSame(nodes[1..], nodes'[1..], addr, mp);
      assert nodes'[0] == nodes[0].(planCnt := nodes'[0].planCnt);
    }
    if IsOverload(nodes, addr) {
      var k :| 0 <= k < |nodes| && nodes[k].addr == addr;
      assert nodes'[k].addr == addr;
    }
    if IsOverload(nodes', addr) {
      var k :| 0 <= k < |nodes'| && nodes'[k].addr == addr;
      assert nodes[k].addr == addr;
    }
  }

  lemma {:induction false} OverloadedSame(nodes: seq<OverNode>, nodes': seq<OverNode>, rs: seq<Replica>, mp: Partition)
    requires SameNodes(nodes, nodes')
    ensures Overloaded(nodes', rs) == Overloaded(nodes, rs)
  {
    hide IsOverload, SameNodes;
    if rs != [] {
      OverloadedSame(nodes, nodes', rs[..|rs| - 1], mp);
      MemSizeSame(nodes, nodes', rs[|rs| - 1].source, mp);
    }
  }

  lemma BuiltSame(cluster: map<string, Location>, nodes: seq<OverNode>, nodes': seq<OverNode>, mp: Partition,
                  item: Item)
    requires SameNodes(nodes, nodes') && BuiltFrom(cluster, nodes', mp, item)
    ensures BuiltFrom(cluster, nodes, mp, item)
  {
    hide MemSize, Overloaded, SameNodes;
    OverloadedSame(nodes, nodes', item.original, mp);
    forall i | 0 <= i < |mp.replicas|
      ensures item.original[i] == RecordOf(nodes, mp, mp.replicas[i], cluster[mp.replicas[i]])
    {
      MemSizeSame(nodes, nodes', mp.replicas[i], mp);
    }
  }

  /** An item lists an overloaded replica exactly when one has been reported. */
  lemma SomeOverloaded(cluster: map<string, Location>, nodes: seq<OverNode>, mp: Partition, item: Item)
    requires BuiltFrom(cluster, nodes, mp, item)
    ensures item.overload != [] <==> HasOverloaded(nodes, mp)
  {
    hide MemSize, Overloaded;
    if HasOverloaded(nodes, mp) {
      var i :| 0 <= i < |mp.replicas| && IsOverload(nodes, mp.replicas[i]);
      OverloadedExact(nodes, item.original, item.original[i]);
    }
    if item.overload != [] {
      OverloadedExact(nodes, item.original, item.overload[0]);
    }
  }

  lemma {:induction false} NoShare(nodes: seq<OverNode>, addr: string, mp: Partition, bound: nat)
    requires forall k :: 0 <= k < |nodes| ==> MEMORY_RATIO * ShareOf(nodes[k], mp) <= bound
    ensures !IsOverload(nodes, addr) ==> MemSize(nodes, addr, mp) == 0
    ensures MEMORY_RATIO * MemSize(nodes, addr, mp) <= bound
  {
    if nodes != [] && nodes[0].addr != addr {
      NoShare(nodes[1..], addr, mp, bound);
      assert IsOverload(nodes[1..], addr) ==> IsOverload(nodes, addr);
    }
  }

  /** Every item meets what the search for destinations relies on. */
  lemma BuiltValid(cluster: map<string, Location>, nodes: seq<OverNode>, mp: Partition, item: Item)
    requires BuiltFrom(cluster, nodes, mp, item) && OneZonePerSet(cluster) && GoodPartition(nodes, mp)
    ensures ItemValid(item)
  {
    hide MemSize, MaxMem, Overloaded;
    DistinctHosts(cluster, nodes, mp, item);
    OverloadedDistinct(nodes, item.original);
    forall r | r in item.overload ensures r in item.original {
      OverloadedExact(nodes, item.original, r);
    }
    forall r | r in item.original ensures r.memSize <= MaxMem(item.overload) {
      MemSizeAtMost(cluster, nodes, mp, item, r);
    }
    MaxAtMostRatio(cluster, nodes, mp, item);
  }

  lemma DistinctHosts(cluster: map<string, Location>, nodes: seq<OverNode>, mp: Partition, item: Item)
    requires BuiltFrom(cluster, nodes, mp, item) && GoodPartition(nodes, mp)
    ensures Distinct(item.original)
  {
    hide MemSize, Overloaded;
  }

  lemma {:induction false} OverloadedDistinct(nodes: seq<OverNode>, rs: seq<Replica>)
    requires Distinct(rs)
    ensures Distinct(Overloaded(nodes, rs))
  {
    if rs != [] {
      var rest := rs[..|rs| - 1];
      OverloadedDistinct(nodes, rest);
      forall r | r in Overloaded(nodes, rest) ensures r.source != rs[|rs| - 1].source {
        OverloadedExact(nodes, rest, r);
      }
    }
  }

  lemma MemSizeAtMost(cluster: map<string, Location>, nodes: seq<OverNode>, mp: Partition, item: Item, r: Replica)
    requires BuiltFrom(cluster, nodes, mp, item) && GoodPartition(nodes, mp) && r in item.original
    ensures r.memSize <= MaxMem(item.overload)
  {
    hide MemSize, MaxMem, Overloaded;
    OverloadedExact(nodes, item.original, r);
    if IsOverload(nodes, r.source) {
      AtMostMax(item.overload, r);
    } else {
      NoShare(nodes, r.source, mp, UINT64 - 1);
    }
  }

  lemma MaxAtMostRatio(cluster: map<string, Location>, nodes: seq<OverNode>, mp: Partition, item: Item)
    requires BuiltFrom(cluster, nodes, mp, item) && GoodPartition(nodes, mp)
    ensures MEMORY_RATIO * MaxMem(item.overload) < UINT64
  {
    hide MemSize, MaxMem, Overloaded;
    var bound := (UINT64 - 1) / MEMORY_RATIO;
    forall r | r in item.overload ensures r.memSize <= bound {
      OverloadedExact(nodes, item.original, r);
      NoShare(nodes, r.source, mp, UINT64 - 1);
    }
    MaxAtMost(item.overload, bound);
  }

  // ---------------------------------------------------------------- nothing is taken back

  ghost predicate AllGood(nodes: seq<OverNode>, ps: seq<Partition>) { forall p :: p in ps ==> GoodPartition(nodes, p) }

  /** Partition ids are unique. */
  ghost predicate OnePerId(all: seq<Partition>) { forall p, q :: p in all && q in all && p.id == q.id ==> p == q }

  /** getAllMetaPartitionsByMetaNode, in any order: the partitions with the node among their hosts. */
  ghost predicate HostedBy(all: seq<Partition>, addr: string, hosted: seq<Partition>) {
    forall p :: p in hosted <==> p in all && addr in p.hosts
  }

  /** Every partition is planned, or no replica of it on an overloaded node has been reported. */
  ghost predicate Considered(nodes: seq<OverNode>, hosted: seq<Partition>, plan: seq<Item>) {
    forall p :: p in hosted ==> InPlan(plan, p.id) || !HasOverloaded(nodes, p)
  }

  ghost predicate Grown(plan: seq<Item>, plan': seq<Item>) { plan <= plan' }

  lemma SameAsBefore(nodes: seq<OverNode>)
    ensures SameNodes(nodes, nodes)
  {
  }

  lemma SameTwice(a: seq<OverNode>, b: seq<OverNode>, c: seq<OverNode>)
    requires SameNodes(a, b) && SameNodes(b, c)
    ensures SameNodes(a, c)
  {
  }

  lemma GoodSame(nodes: seq<OverNode>, nodes': seq<OverNode>, mp: Partition)
    requires SameNodes(nodes, nodes') && GoodPartition(nodes, mp)
    ensures GoodPartition(nodes', mp)
  {
    forall k | 0 <= k < |nodes'| ensures MEMORY_RATIO * ShareOf(nodes'[k], mp) < UINT64 {
      assert ShareOf(nodes'[k], mp) == ShareOf(nodes[k], mp);
    }
  }

  lemma HasSame(nodes: seq<OverNode>, nodes': seq<OverNode>, mp: Partition)
    requires SameNodes(nodes, nodes')
    ensures HasOverloaded(nodes', mp) <==> HasOverloaded(nodes, mp)
  {
    hide IsOverload, SameNodes;
    forall i | 0 <= i < |mp.replicas|
      ensures IsOverload(nodes', mp.replicas[i]) <==> IsOverload(nodes, mp.replicas[i])
    {
      MemSizeSame(nodes, nodes', mp.replicas[i], mp);
    }
  }

  lemma HostedGood(nodes: seq<OverNode>, nodes': seq<OverNode>, all: seq<Partition>, addr: string,
                   hosted: seq<Partition>)
    requires SameNodes(nodes, nodes') && AllGood(nodes, all) && HostedBy(all, addr, hosted)
    ensures AllGood(nodes', hosted)
  {
    forall p | p in hosted ensures GoodPartition(nodes', p) {
      GoodSame(nodes, nodes', p);
    }
  }

  lemma GrownTwice(a: seq<Item>, b: seq<Item>, c: seq<Item>)
    requires Grown(a, b) && |c| == |b| + 1 && c[..|b|] == b
    ensures Grown(a, c)
  {
  }

  lemma InGrown(plan: seq<Item>, plan': seq<Item>, id: nat)
    requires Grown(plan, plan') && InPlan(plan, id)
    ensures InPlan(plan', id)
  {
    var i :| 0 <= i < |plan| && plan[i].id == id;
    assert plan'[i].id == id;
  }

  lemma BuiltInPlan(cluster: map<string, Location>, nodes: seq<OverNode>, mp: Partition,
                    plan: seq<Item>, plan': seq<Item>)
    requires |plan'| == |plan| + 1 && plan'[..|plan|] == plan && BuiltFrom(cluster, nodes, mp, plan'[|plan|])
    ensures Grown(plan, plan') && InPlan(plan', mp.id)
  {
    assert plan'[|plan|].id == mp.id;
  }

  lemma OneNew(cluster: map<string, Location>, nodes: seq<OverNode>, hosted: seq<Partition>, mp: Partition,
               plan: seq<Item>, plan': seq<Item>, plan'': seq<Item>)
    requires NewItems(cluster, nodes, hosted, plan, plan') && |plan''| == |plan'| + 1 && plan''[..|plan'|] == plan'
    requires mp in hosted && BuiltFrom(cluster, nodes, mp, plan''[|plan'|]) && HasOverloaded(nodes, mp)
    ensures NewItems(cluster, nodes, hosted, plan, plan'')
  {
    hide BuiltFrom, HasOverloaded;
    SomeOverloaded(cluster, nodes, mp, plan''[|plan'|]);
  }

  lemma OneConsidered(nodes: seq<OverNode>, hosted: seq<Partition>, i: nat, plan: seq<Item>)
    requires i < |hosted| && Considered(nodes, hosted[..i], plan)
    requires InPlan(plan, hosted[i].id) || !HasOverloaded(nodes, hosted[i])
    ensures Considered(nodes, hosted[..i + 1], plan)
  {
    assert hosted[..i + 1] == hosted[..i] + [hosted[i]];
  }

  lemma ConsideredGrown(nodes: seq<OverNode>, hosted: seq<Partition>, plan: seq<Item>, plan': seq<Item>)
    requires Considered(nodes, hosted, plan) && Grown(plan, plan')
    ensures Considered(nodes, hosted, plan')
  {
    forall p | p in hosted && InPlan(plan, p.id) ensures InPlan(plan', p.id) {
      InGrown(plan, plan', p.id);
    }
  }

  lemma ConsideredSame(nodes: seq<OverNode>, nodes': seq<OverNode>, hosted: seq<Partition>, plan: seq<Item>)
    requires SameNodes(nodes, nodes')
    ensures Considered(nodes', hosted, plan) <==> Considered(nodes, hosted, plan)
  {
    hide HasOverloaded, InPlan;
    forall p | p in hosted ensures HasOverloaded(nodes', p) <==> HasOverloaded(nodes, p) {
      HasSame(nodes, nodes', p);
    }
  }

  lemma NothingNew(cluster: map<string, Location>, nodes: seq<OverNode>, ps: seq<Partition>, plan: seq<Item>)
    ensures NewItems(cluster, nodes, ps, plan, plan)
  {
  }

  lemma NewFromAll(cluster: map<string, Location>, nodes: seq<OverNode>, nodes': seq<OverNode>, all: seq<Partition>,
                   addr: string, hosted: seq<Partition>, plan: seq<Item>, plan': seq<Item>)
    requires SameNodes(nodes, nodes') && HostedBy(all, addr, hosted) && Grown(plan, plan')
    requires NewItems(cluster, nodes, all, [], plan) && NewItems(cluster, nodes', hosted, plan, plan')
    ensures NewItems(cluster, nodes, all, [], plan')
  {
    hide BuiltFrom, SameNodes;
    forall i | 0 <= i < |plan'|
      ensures ItemOf(cluster, nodes, all, plan'[i])
    {
      if i < |plan| {
        assert plan'[i] == plan[i];
      } else {
        assert ItemOf(cluster, nodes', hosted, plan'[i]);
        var p :| p in hosted && BuiltFrom(cluster, nodes', p, plan'[i]);
        BuiltSame(cluster, nodes, nodes', p, plan'[i]);
      }
    }
  }

  /** What is planned has a reported replica on an overloaded node. */
  lemma PlannedHas(cluster: map<string, Location>, nodes: seq<OverNode>, all: seq<Partition>,
                   plan: seq<Item>, p: Partition)
    requires OnePerId(all) && NewItems(cluster, nodes, all, [], plan) && p in all && InPlan(plan, p.id)
    ensures HasOverloaded(nodes, p)
  {
    hide Overloaded, MemSize, HasOverloaded;
    var i :| 0 <= i < |plan| && plan[i].id == p.id;
    assert ItemOf(cluster, nodes, all, plan[i]);
    var q :| q in all && BuiltFrom(cluster, nodes, q, plan[i]);
    SomeOverloaded(cluster, nodes, q, plan[i]);
  }

  lemma ServedIff(cluster: map<string, Location>, nodes: seq<OverNode>, nodes': seq<OverNode>, all: seq<Partition>,
                  k: nat, hosted: seq<Partition>, plan: seq<Item>)
    requires SameNodes(nodes, nodes') && k < |nodes'| && HostedBy(all, nodes'[k].addr, hosted) && OnePerId(all)
    requires NewItems(cluster, nodes, all, [], plan)
    requires nodes'[k].planCnt >= nodes'[k].estimate || Considered(nodes, hosted, plan)
    ensures Served(nodes'[k], hosted, plan) <==>
              || nodes'[k].planCnt >= nodes'[k].estimate
              || forall p :: p in all && nodes'[k].addr in p.hosts ==> HasOverloaded(nodes', p)
  {
    hide NewItems, HasOverloaded, SameNodes, OnePerId, InPlan;
    forall p | p in hosted
      ensures HasOverloaded(nodes', p) <==> HasOverloaded(nodes, p)
      ensures InPlan(plan, p.id) ==> HasOverloaded(nodes, p)
    {
      HasSame(nodes, nodes', p);
      if InPlan(plan, p.id) {
        PlannedHas(cluster, nodes, all, plan, p);
      }
    }
  }

  /** A partition that no replica has reported is passed over, and its overloaded host keeps it. */
  method UnreportedIsSkipped() returns (mp: Partition, builder: PlanBuilder)
    ensures |builder.nodes| == 1 && builder.nodes[0].addr in mp.hosts && mp.replicas == []
    ensures !Served(builder.nodes[0], [mp], builder.plan)
  {
    mp := Partition(1, 1, ["a"], [], false);
    var nodes := [OverNode("a", 1, 0, 1, 1)];
    builder := new PlanBuilder(map[], nodes);
    var ok := builder.CreateMetaPartitionMigratePlan([mp], [[mp]]);
    if InPlan(builder.plan, mp.id) {
      PlannedHas(builder.cluster, nodes, [mp], builder.plan, mp);
    }
  }
}
