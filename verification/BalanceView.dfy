/**
A balance plan from beginning to end: the partitions to move, and where they go.
*/
module BalanceView {
  import opened BalanceTopology
  import opened BalanceBooking
  import opened BalancePlan
  import opened BalanceCounting
  import opened BalancePlanner

  /** The moves go to nodes of the topology, each of which has room for all the moves that are charged to it. */
  ghost predicate ToRoom(low: Topology, plan: seq<Move>, charged: seq<Move>) {
    forall m :: m in plan ==>
      IsNode(low, m.to) && Fits(TheNode(low, PlaceOf(m.to)), Demand(charged, PlaceOf(m.to)))
  }

  /** The address is that of a node with room for all the moves that are charged to it. */
  ghost predicate HasRoom(low: Topology, addr: string, charged: seq<Move>) {
    exists p :: NodeAt(low, p) && TheNode(low, p).addr == addr && Fits(TheNode(low, p), Demand(charged, p))
  }

  /** Every host that carrying out a plan adds to a partition is the address of such a node. */
  lemma AddedHosts(low: Topology, item: Item, next: Item, charged: seq<Move>, hosts: seq<string>, a: string)
    requires Finished(item, next) && ToRoom(low, next.plan, charged) && MigrateAll(hosts, next.plan).Migrated?
    requires a in MigrateAll(hosts, next.plan).hosts && a !in hosts
    ensures HasRoom(low, a, charged)
  {
    hide Together, ZoneKept, SetsWhole, OneTarget, MigrateAll, Covers, Fits, Demand, NodeAt;
    assert PlanSound(item.original, next.plan);
    MigrateAllExact(item.original, hosts, next.plan, a);
    var i :| 0 <= i < |next.plan| && next.plan[i].to.addr == a;
    assert IsNode(low, next.plan[i].to);
  }

  /**
  GetMetaNodePressureView: in the plan it gives no partition occurs twice, every item is of a partition with a reported
  overloaded replica and moves all of these to new addresses, and every host that carrying out an item adds to the
  partition's hosts is the address of a meta node with room for all that is charged to it.
  */
  method GetMetaNodePressureView(builder: PlanBuilder, all: seq<Partition>, hosted: seq<seq<Partition>>,
                                 low: Topology, mid: real)
    returns (outcome: Outcome, view: ClusterPlan, ghost items: seq<Item>)
    requires TopologyValid(low, mid) && builder.Valid() && builder.plan == [] && OneZonePerSet(builder.cluster)
    requires AllGood(builder.nodes, all) && OnePerId(all) && |hosted| == |builder.nodes|
    requires forall k :: 0 <= k < |hosted| ==> HostedBy(all, builder.nodes[k].addr, hosted[k])
    modifies builder
    ensures items == builder.plan && IdsDiffer(items)
    ensures forall i :: 0 <= i < |items| ==> ItemOf(builder.cluster, old(builder.nodes), all, items[i])
    ensures outcome == Done ==>
              && |view.plan| <= |items|
              && forall i :: 0 <= i < |view.plan| ==> ItemValid(items[i]) && Finished(items[i], view.plan[i])
    ensures outcome == Done ==>
              forall p :: NodeAt(low, p) ==> Fits(TheNode(low, p), Demand(AllMoves(view.plan), p))
    ensures outcome == Done ==>
              forall i :: 0 <= i < |view.plan| ==> ToRoom(low, view.plan[i].plan, AllMoves(view.plan))
    ensures outcome == Done ==>
              forall i, hosts: seq<string>, a ::
                && 0 <= i < |view.plan| && MigrateAll(hosts, view.plan[i].plan).Migrated?
                && a in MigrateAll(hosts, view.plan[i].plan).hosts && a !in hosts ==>
                  HasRoom(low, a, AllMoves(view.plan))
  {
    hide TopologyValid, OneZonePerSet, AllGood, OnePerId, HostedBy, Served, HasOverloaded, ItemOf;
    hide ItemValid, Finished, Accounted, IdsDiffer, Demand, AllMoves, HasRoom, MigrateAll, Fits;
    var _ := builder.CreateMetaPartitionMigratePlan(all, hosted);
    items := builder.plan;
    view := new ClusterPlan(low, builder.plan, mid);
    ghost var unused;
    outcome, unused := view.FindMigrateDestination();
    if outcome == Done {
      assert view.booked == AllMoves(view.plan) + unused;
      forall p | NodeAt(low, p) ensures Fits(TheNode(low, p), Demand(AllMoves(view.plan), p)) {
        PlanFits(low, view.low, AllMoves(view.plan), unused, mid, p);
      }
      forall i | 0 <= i < |view.plan| ensures ToRoom(low, view.plan[i].plan, AllMoves(view.plan)) {
        assert AtNodes(low, view.plan[i].plan);
      }
      forall i, hosts: seq<string>, a |
        && 0 <= i < |view.plan| && MigrateAll(hosts, view.plan[i].plan).Migrated?
        && a in MigrateAll(hosts, view.plan[i].plan).hosts && a !in hosts
        ensures HasRoom(low, a, AllMoves(view.plan))
      {
        AddedHosts(low, items[i], view.plan[i], AllMoves(view.plan), hosts, a);
      }
    }
  }

  /**
  UpdateMigrateDestination, for an item whose destinations have filled up, in the topology as it is now: when it fails
  for lack of room, a partition that is kept in one node set is left with no move, and a partition across zones with the
  `k` moves that were found, none of which is for some overloaded replica.
  */
  method UpdateMigrateDestination(low: Topology, mid: real, item: Item) returns (outcome: Outcome, next: Item, k: nat)
    requires TopologyValid(low, mid) && ItemValid(item)
    ensures k == |next.plan|
    ensures outcome == Done ==> Finished(item, next) && AtNodes(low, next.plan)
    ensures outcome == Done && item.overload != [] ==> BeginsWith(next.plan, FirstSource(low, item))
    ensures outcome == NotEnough ==>
              && next == item.(plan := next.plan)
              && if item.crossZone then exists r :: r in item.overload && !Planned(next.plan, r.source) else k == 0
  {
    hide TopologyValid, ItemValid, Finished, Stuck, Planned;
    var view := new ClusterPlan(low, [item], mid);
    ghost var charged;
    outcome, next, charged := view.FindForItem(item);
    k := |next.plan|;
  }

  /** With one node to shed partitions, it is the overloaded replica of every item. */
  lemma OverloadIs(cluster: map<string, Location>, node: OverNode, ps: seq<Partition>, item: Item)
    requires ItemOf(cluster, [node], ps, item)
    ensures item.overload[0].source == node.addr
  {
    var p :| p in ps && BuiltFrom(cluster, [node], p, item);
    OverloadedExact([node], item.original, item.overload[0]);
  }

  /**
  CreateOfflineMetaNodePlan, for the one node of the builder, whose partitions are `hosted`: the node that the finished
  plan will take offline is that node exactly when its replica of the first partition stays in its node set, or comes
  first of the replicas that leave with it.
  */
  method CreateOfflineMetaNodePlan(builder: PlanBuilder, hosted: seq<Partition>, low: Topology, mid: real)
    returns (outcome: Outcome, view: ClusterPlan, ghost items: seq<Item>)
    requires TopologyValid(low, mid) && builder.Valid() && builder.plan == [] && OneZonePerSet(builder.cluster)
    requires |builder.nodes| == 1 && AllGood(builder.nodes, hosted)
    modifies builder
    ensures items == builder.plan && |builder.nodes| == 1 && builder.nodes[0].addr == old(builder.nodes[0].addr)
    ensures outcome == Done && view.plan != [] ==>
              && items != [] && view.plan[0].plan != [] && items[0].overload != [] && Leaving(items[0]) != []
              && (OfflineAddr(view.plan) == builder.nodes[0].addr <==>
                    StaysHome(low, items[0]) || Leaving(items[0])[0].source == builder.nodes[0].addr)
  {
    hide TopologyValid, OneZonePerSet, AllGood, HasOverloaded, ItemOf, ItemValid, Finished, Accounted, IdsDiffer;
    hide StaysHome, FirstSource, Leaving, Listings, Considered, AllMoves, Unplaceable, AtNodes;
    ghost var node := builder.nodes[0];
    builder.NoItems();
    var _ := builder.AddMetaPartitionIntoPlan(0, hosted);
    items := builder.plan;
    view := new ClusterPlan(low, builder.plan, mid);
    ghost var unused;
    outcome, unused := view.FindMigrateDestination();
    if outcome == Done && view.plan != [] {
      assert [node] == old(builder.nodes);
      SomeOverload(builder.cluster, [node], hosted, items[0]);
      OverloadIs(builder.cluster, node, hosted, items[0]);
      FirstIs(low, items[0], node.addr);
    }
  }

  lemma SomeOverload(cluster: map<string, Location>, nodes: seq<OverNode>, ps: seq<Partition>, item: Item)
    requires ItemOf(cluster, nodes, ps, item)
    ensures item.overload != []
  {
  }
}
