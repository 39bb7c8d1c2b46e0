/**
The planner of meta-partition balancing, as it works on the shared low-pressure topology and on the list of partitions
to move.
*/
module BalancePlanner {
  import opened BalanceTopology
  import opened BalanceBooking
  import opened BalancePlan

  // ---------------------------------------------------------------- what a search promises

  /** A listed node with room for a replica of `leastSize`, and its own address. */
  ghost predicate Room(low: Topology, d: Dest, leastSize: nat) {
    && IsNode(low, d)
    && TheNode(low, PlaceOf(d)).free > MEMORY_RATIO * leastSize
    && TheNode(low, PlaceOf(d)).memFree > MEMORY_RATIO * leastSize
  }

  ghost predicate Ready(low: Topology, dests: seq<Dest>, from: nat, leastSize: nat) {
    && (forall j :: from <= j < |dests| ==> Room(low, dests[j], leastSize))
    && (forall i, j :: 0 <= i < j < |dests| ==> dests[i].id != dests[j].id)
  }

  /** What the planner uses of a successful search. */
  lemma ChosenIsReady(topo: Topology, z: string, s: nat, req: Request, dests: seq<Dest>, mid: real)
    requires TopologyValid(topo, mid) && Chosen(topo, z, s, req, dests) && MEMORY_RATIO * req.leastSize < UINT64
    ensures Ready(topo, dests, 0, req.leastSize) && InTarget(dests, z, s) && |dests| == req.num
    ensures NewTargets(req.excludes, dests)
  {
    assert ZoneValid(z, topo[z], mid);
    var ns := topo[z].sets[s];
    assert SetValid(z, s, ns, mid);
    Unwrapped(MEMORY_RATIO * req.leastSize);
    forall j | 0 <= j < |dests|
      ensures Room(topo, dests[j], req.leastSize) && dests[j].zone == z && dests[j].setID == s
      ensures dests[j].addr == ns.nodes[dests[j].id].addr && dests[j].addr !in req.excludes
    {
      assert dests[j].id in EligibleIn(ns, req);
    }
  }

  class ClusterPlan {
    var low: Topology
    var plan: seq<Item>
    const mid: real

    /** The topology the planner started from, and every move it has charged since. */
    ghost var base: Topology
    ghost var booked: seq<Move>

    ghost predicate Valid()
      reads this
    {
      TopologyValid(low, mid) && Accounted(base, low, booked, mid)
    }

    constructor (low: Topology, plan: seq<Item>, mid: real)
      requires TopologyValid(low, mid)
      ensures Valid() && this.low == base == low && this.plan == plan && this.mid == mid && booked == []
    {
      this.low, this.plan, this.mid := low, plan, mid;
      base, booked := low, [];
      new;
      NothingBooked(low, mid);
    }

    // -------------------------------------------------------------- charging a move

    /** UpdateLowPressureNodeTopo: fails only when the destination is not listed. */
    method UpdateLowPressureNodeTopo(m: Move) returns (ok: bool)
      requires Valid() && MEMORY_RATIO * m.from.memSize < UINT64
      requires NodeAt(low, PlaceOf(m.to)) ==> Room(low, m.to, m.from.memSize)
      modifies `low, `booked
      ensures Valid()
      ensures ok == NodeAt(old(low), PlaceOf(m.to))
      ensures low == if ok then ChargedTopology(old(low), PlaceOf(m.to), m.from.memSize, mid) else old(low)
      ensures booked == if ok then old(booked) + [m] else old(booked)
    {
      if m.to.zone !in low {
        return false;
      }
      var zone := low[m.to.zone];
      if m.to.setID !in zone.sets {
        return false;
      }
      var nodeSet := zone.sets[m.to.setID];
      if m.to.id !in nodeSet.nodes {
        return false;
      }
      BookingKeepsValid(base, low, booked, mid, m);
      var metaNode := Charged(nodeSet.nodes[m.to.id], m.from.memSize);
      if metaNode.ratio >= mid || metaNode.memRatio >= mid {
        nodeSet := WithoutNode(nodeSet, metaNode.id);
      } else {
        nodeSet := WithNode(nodeSet, metaNode);
      }
      low := WithSet(low, m.to.zone, m.to.setID, nodeSet);
      booked := booked + [m];
      ok := true;
    }

    // -------------------------------------------------------------- adding moves to a partition's plan

    /** SrcIsPlaned. */
    static method SrcIsPlaned(plan: seq<Move>, source: string) returns (index: nat, exist: bool)
      ensures exist <==> Planned(plan, source)
      ensures exist ==> index < |plan| && plan[index].from.source == source
    {
      index, exist := 0, false;
      while index < |plan|
        invariant index <= |plan|
        invariant forall i :: 0 <= i < index ==> plan[i].from.source != source
      {
        if plan[index].from.source == source {
          return index, true;
        }
        index := index + 1;
      }
    }

    /** One turn of FillMigratePlanArray's loop. */
    method FillOne(item: Item, source: Replica, dest: Dest, ghost leastSize: nat) returns (ok: bool, next: Item)
      requires Valid() && Sized(item, source, leastSize)
      requires NodeAt(low, PlaceOf(dest)) ==> Room(low, dest, leastSize)
      modifies `low, `booked
      ensures Valid() && ok == NodeAt(old(low), PlaceOf(dest))
      ensures !Planned(item.plan, source.source) ==> next == item.(plan := item.plan + [Move(source, dest)])
      ensures Planned(item.plan, source.source) ==>
                exists i :: 0 <= i < |item.plan| && item.plan[i].from.source == source.source
                            && next == item.(plan := item.plan[i := item.plan[i].(to := dest)])
                            && (ok ==> booked == old(booked) + [item.plan[i].(to := dest)])
      ensures !Planned(item.plan, source.source) && ok ==>
                && low == ChargedTopology(old(low), PlaceOf(dest), source.memSize, mid)
                && booked == old(booked) + [Move(source, dest)]
    {
      var index, exist := SrcIsPlaned(item.plan, source.source);
      var move := Move(source, dest);
      if exist {
        move := item.plan[index].(to := dest);
        next := item.(plan := item.plan[index := move]);
      } else {
        next := item.(plan := item.plan + [move]);
      }
      ok := UpdateLowPressureNodeTopo(move);
    }

    /** One turn of FillMigratePlanArray's loop for a source without a move, to a listed destination. */
    method FillNext(item: Item, sources: seq<Replica>, dests: seq<Dest>, i: nat, ghost leastSize: nat)
      returns (ok: bool, next: Item)
      requires Valid() && Ready(low, dests, i, leastSize) && MEMORY_RATIO * leastSize < UINT64
      requires i < |sources| && i < |dests| && sources[i].memSize <= leastSize
      requires !Planned(item.plan, sources[i].source)
      modifies `low, `booked
      ensures Valid() && Ready(low, dests, i + 1, leastSize)
      ensures ok && next == item.(plan := item.plan + [Move(sources[i], dests[i])])
      ensures booked == old(booked) + [Move(sources[i], dests[i])]
    {
      ReadyAfter(low, dests, i, leastSize, sources[i].memSize, mid);
      ok, next := FillOne(item, sources[i], dests[i], leastSize);
    }

    /**
    FillMigratePlanArray: gives every source its destination and charges it. The index into `dests` runs out of range
    when there are more sources than destinations.
    */
    method FillMigratePlanArray(item: Item, sources: seq<Replica>, dests: seq<Dest>, ghost leastSize: nat)
      returns (outcome: Outcome, next: Item)
      requires Valid() && Ready(low, dests, 0, leastSize) && MEMORY_RATIO * leastSize < UINT64
      requires forall r :: r in sources ==> r.memSize <= leastSize
      requires Distinct(sources) && Unplanned(item.plan, sources)
      modifies `low, `booked
      ensures Valid()
      ensures outcome == if |dests| < |sources| then Panicked else Done
      ensures outcome == Done ==>
                && next == item.(plan := item.plan + Pairs(sources, dests, |sources|))
                && booked == old(booked) + Pairs(sources, dests, |sources|)
    {
      hide *;
      next := item;
      var i := 0;
      while i < |sources|
        invariant i <= |sources| && i <= |dests|
        invariant Valid() && Ready(low, dests, i, leastSize)
        invariant next == item.(plan := item.plan + Pairs(sources, dests, i))
        invariant booked == old(booked) + Pairs(sources, dests, i)
      {
        if i >= |dests| {
          return Panicked, next;
        }
        PairsUnplanned(item.plan, sources, dests, i);
        var ok;
        ok, next := FillNext(next, sources, dests, i, leastSize);
        if !ok {
          return Failed, next;
        }
        OneMorePair(item.plan, sources, dests, i);
        OneMorePair(old(booked), sources, dests, i);
        i := i + 1;
      }
      outcome := Done;
    }

    // -------------------------------------------------------------- what to search for

    /** GetOverLoadNodeArray and GetSameNodeSetArray, on the list they look through. */
    static method NodeSetArray(rs: seq<Replica>, s: nat) returns (ret: seq<Replica>)
      ensures ret == InSet(rs, s)
    {
      ret := [];
      for i := 0 to |rs|
        invariant ret == InSet(rs[..i], s)
      {
        assert rs[..i + 1] == rs[..i] + [rs[i]];
        assert rs[..i + 1][..i] == rs[..i];
        if rs[i].setID == s {
          ret := ret + [rs[i]];
        }
      }
      assert rs[..|rs|] == rs;
    }

    static method MaxMemSize(rs: seq<Replica>) returns (most: nat)
      ensures most == MaxMem(rs)
    {
      most := 0;
      for i := 0 to |rs|
        invariant most == MaxMem(rs[..i])
      {
        assert rs[..i + 1][..i] == rs[..i];
        if most < rs[i].memSize {
          most := rs[i].memSize;
        }
      }
      assert rs[..|rs|] == rs;
    }

    /** FillExcludeAddrIntoGetParam. */
    static method FillExcludes(item: Item) returns (excludes: seq<string>)
      ensures excludes == Excludes(item)
    {
      excludes := [];
      for i := 0 to |item.original|
        invariant excludes == seq(i, k requires 0 <= k < i => item.original[k].source)
      {
        excludes := excludes + [item.original[i].source];
      }
      ghost var sources := excludes;
      for i := 0 to |item.plan|
        invariant excludes == sources + seq(i, k requires 0 <= k < i => item.plan[k].to.addr)
      {
        excludes := excludes + [item.plan[i].to.addr];
      }
    }

    // -------------------------------------------------------------- partitions that may span zones

    /** CreateMigratePlanInNodeSet: succeeds exactly when the node set of the sources has enough eligible nodes. */
    method CreateMigratePlanInNodeSet(item: Item, sources: seq<Replica>)
      returns (outcome: Outcome, next: Item, ghost dests: seq<Dest>)
      requires Valid() && Distinct(sources) && Unplanned(item.plan, sources)
      requires MEMORY_RATIO * MaxMem(sources) < UINT64
      modifies `low, `booked
      ensures Valid() && (outcome == Done || outcome == Failed)
      ensures sources == [] ==> outcome == Done && next == item && booked == old(booked)
      ensures sources != [] ==>
                (outcome == Done <==> Enough(old(low), sources[0].zone, sources[0].setID, RequestFor(item, sources)))
      ensures sources != [] && outcome == Done ==>
                && InTarget(dests, sources[0].zone, sources[0].setID)
                && Added(item, sources, dests, next, old(booked), booked)
      ensures outcome == Failed ==> next == item && low == old(low) && booked == old(booked)
    {
      hide TopologyValid, Accounted, Ready, Enough, EnoughInZone, Chosen, Distinct, Unplanned, Excludes;
      next, dests := item, [];
      if |sources| <= 0 {
        return Done, next, dests;
      }
      var maxMemSize := MaxMemSize(sources);
      var excludes := FillExcludes(item);
      var req := Request(excludes, |sources|, maxMemSize);
      var find, found := GetMigrateDestAddr(low, sources[0].zone, sources[0].setID, req, mid);
      if !find {
        return Failed, next, dests;
      }
      dests := found;
      ChosenIsReady(low, sources[0].zone, sources[0].setID, req, found, mid);
      AllAtMostMax(sources);
      outcome, next := FillMigratePlanArray(item, sources, found, maxMemSize);
    }

    /** CreateMigratePlanExcludeNodeSet: succeeds exactly when some other node set of the zone has enough nodes. */
    method CreateMigratePlanExcludeNodeSet(item: Item, sources: seq<Replica>)
      returns (outcome: Outcome, next: Item, ghost dests: seq<Dest>, ghost to: nat)
      requires Valid() && Distinct(sources) && Unplanned(item.plan, sources)
      requires MEMORY_RATIO * MaxMem(sources) < UINT64
      modifies `low, `booked
      ensures Valid() && (outcome == Done || outcome == NotEnough)
      ensures sources == [] ==> outcome == Done && next == item && booked == old(booked)
      ensures sources != [] ==>
                (outcome == Done <==>
                 EnoughInZone(old(low), sources[0].zone, sources[0].setID, RequestFor(item, sources)))
      ensures sources != [] && outcome == Done ==>
                && to != sources[0].setID && InTarget(dests, sources[0].zone, to)
                && Added(item, sources, dests, next, old(booked), booked)
      ensures outcome == NotEnough ==> next == item && low == old(low) && booked == old(booked)
    {
      hide TopologyValid, Accounted, Ready, Enough, EnoughInZone, Chosen, Distinct, Unplanned, Excludes;
      next, dests, to := item, [], 0;
      if |sources| <= 0 {
        return Done, next, dests, to;
      }
      var maxMemSize := MaxMemSize(sources);
      var excludes := FillExcludes(item);
      var req := Request(excludes, |sources|, maxMemSize);
      var find, found;
      find, found, to := GetMigrateAddrExcludeNodeSet(low, sources[0].zone, sources[0].setID, req, mid);
      if !find {
        return NotEnough, next, dests, to;
      }
      dests := found;
      ChosenIsReady(low, sources[0].zone, to, req, found, mid);
      AllAtMostMax(sources);
      outcome, next := FillMigratePlanArray(item, sources, found, maxMemSize);
    }

    /** One turn of FindMigrateDestRetainZone's loop: the node set of an overloaded replica without a move. */
    method PlanNodeSet(item: Item, highPressure: Replica) returns (outcome: Outcome, next: Item, ghost added: seq<Move>)
      requires Valid() && ItemValid(item) && RetainInv(item, item.plan)
      requires highPressure in item.overload && !Planned(item.plan, highPressure.source)
      modifies `low, `booked
      ensures Valid() && (outcome == Done || outcome == NotEnough)
      ensures next == item.(plan := item.plan + added) && booked == old(booked) + added
      ensures outcome == Done ==> RetainInv(item, next.plan) && Planned(next.plan, highPressure.source)
      ensures EnoughAtOwn(old(low), item, highPressure) ==>
                outcome == Done && forall m :: m in added ==> m.to.setID == highPressure.setID
      ensures outcome == Done ==>
                var stays := EnoughAtOwn(old(low), item, highPressure);
                MovesFrom(added, InSet(if stays then item.overload else item.original, highPressure.setID))
      ensures !EnoughAtOwn(old(low), item, highPressure) ==>
                (outcome == Done <==> EnoughInOwnZone(old(low), item, highPressure))
      ensures outcome == NotEnough ==> added == [] && low == old(low) && Stuck(low, item, highPressure)
    {
      hide TopologyValid, Accounted, Enough, EnoughInZone, PlanSound, Together, ZoneKept, Distinct, Unplanned, InTarget;
      hide NewTargets, Excludes, ItemValid;
      added := [];
      NothingPlannedIn(item, highPressure);
      NodeSetUnplanned(item, highPressure, item.overload);
      NodeSetSources(item, highPressure, item.overload);
      var sources := NodeSetArray(item.overload, highPressure.setID);
      ghost var dests, to;
      outcome, next, dests := CreateMigratePlanInNodeSet(item, sources);
      if outcome == Done {
        StepRetains(item, highPressure, sources, dests, highPressure.setID);
        added := Pairs(sources, dests, |sources|);
        PairsTarget(sources, dests, highPressure.zone, highPressure.setID);
        PairsFrom(sources, dests);
        return;
      }
      NodeSetUnplanned(item, highPressure, item.original);
      NodeSetSources(item, highPressure, item.original);
      sources := NodeSetArray(item.original, highPressure.setID);
      outcome, next, dests, to := CreateMigratePlanExcludeNodeSet(item, sources);
      if outcome == Done {
        StepRetains(item, highPressure, sources, dests, to);
        added := Pairs(sources, dests, |sources|);
        PairsFrom(sources, dests);
      }
    }

    /** FindMigrateDestRetainZone. */
    method FindMigrateDestRetainZone(item: Item) returns (outcome: Outcome, next: Item)
      requires Valid() && ItemValid(item)
      modifies `low, `booked
      ensures Valid() && (outcome == Done || outcome == NotEnough)
      ensures next == item.(plan := next.plan) && booked == old(booked) + next.plan && RetainInv(item, next.plan)
      ensures AtNodes(base, next.plan)
      ensures outcome == Done ==> Covers(item.overload, next.plan)
      ensures outcome == Done && item.overload != [] ==> BeginsWith(next.plan, FirstAcross(old(low), item))
      ensures outcome == NotEnough ==> StuckInZone(low, next)
    {
      hide TopologyValid, Accounted, Stuck, PlanSound, Together, ZoneKept, SetsWhole, ItemValid, Planned;
      hide EnoughAtOwn, EnoughInOwnZone, InSet, MovesFrom, FirstAcross, AtNodes;
      next := item.(plan := []);
      NothingPlanned(item);
      var i := 0;
      while i < |item.overload|
        invariant i <= |item.overload| && Valid()
        invariant next == item.(plan := next.plan) && booked == old(booked) + next.plan && RetainInv(item, next.plan)
        invariant forall k :: 0 <= k < i ==> Planned(next.plan, item.overload[k].source)
        invariant i == 0 ==> low == old(low) && next.plan == []
        invariant i > 0 ==> BeginsWith(next.plan, FirstAcross(old(low), item))
      {
        var _, done := SrcIsPlaned(next.plan, item.overload[i].source);
        if done {
          i := i + 1;
          continue;
        }
        SameItem(item, next.plan);
        ghost var added;
        ghost var before := next.plan;
        outcome, next, added := PlanNodeSet(next, item.overload[i]);
        assert old(booked) + before + added == old(booked) + (before + added);
        if outcome != Done {
          assert before + added == before;
          LastAtNodes(base, low, old(booked), next.plan, mid);
          return outcome, next;
        }
        StillAllPlanned(item.overload, i, before, added);
        if i == 0 {
          FirstOfSet(old(low), item, added);
          assert [] + added == added;
        } else {
          StillBegins(before, added, FirstAcross(old(low), item));
        }
        i := i + 1;
      }
      LastAtNodes(base, low, old(booked), next.plan, mid);
      outcome := Done;
    }

    // -------------------------------------------------------------- partitions kept in one node set

    /** FindMigrateDestInOneNodeSet. */
    method FindMigrateDestInOneNodeSet(item: Item) returns (outcome: Outcome, next: Item)
      requires Valid() && ItemValid(item)
      modifies `low, `booked
      ensures Valid()
      ensures outcome == Failed <==> item.overload == []
      ensures outcome == Panicked <==>
                && item.overload != [] && |item.original| > WHOLE_PARTITION
                && !EnoughAtHome(old(low), item) && EnoughAway(old(low), item)
      ensures outcome == NotEnough <==>
                item.overload != [] && !EnoughAtHome(old(low), item) && !EnoughAway(old(low), item)
      ensures outcome == Done ==>
                && next == item.(plan := next.plan) && booked == old(booked) + next.plan
                && KeptInOne(item, next.plan) && AtNodes(base, next.plan)
                && MovesFrom(next.plan, if EnoughAtHome(old(low), item) then item.overload else item.original)
      ensures outcome == Failed ==> next == item && low == old(low) && booked == old(booked)
      ensures outcome == NotEnough ==> next == item.(plan := []) && low == old(low) && booked == old(booked)
    {
      hide TopologyValid, Accounted, Enough, EnoughInZone, EnoughElsewhere, Chosen, Ready, NewTargets, Excludes;
      hide PlanSound, Covers, OneTarget, InTarget, MovesFrom, AtNodes, Distinct, MaxMem, ItemValid, Unplanned;
      var requestNum := |item.overload|;
      if requestNum <= 0 {
        return Failed, item;
      }
      var maxMemSize := MaxMemSize(item.overload);
      next := item.(plan := []);
      SameItem(item, []);
      SourcesReady(next);
      var zone, setID := item.overload[0].zone, item.overload[0].setID;
      var excludes := FillExcludes(next);
      var find, dests := GetMigrateDestAddr(low, zone, setID, Request(excludes, requestNum, maxMemSize), mid);
      if find {
        ChosenIsReady(low, zone, setID, Request(excludes, requestNum, maxMemSize), dests, mid);
        OverloadMoves(item, dests);
        AllAtMostMax(item.overload);
        outcome, next := FillMigratePlanArray(next, item.overload, dests, maxMemSize);
        assert next.plan == Pairs(item.overload, dests, requestNum);
        PairsFrom(item.overload, dests);
        LastAtNodes(base, low, old(booked), next.plan, mid);
        return;
      }
      outcome, next := MoveWholePartition(next, maxMemSize, excludes);
      if outcome == Done {
        LastAtNodes(base, low, old(booked), next.plan, mid);
      }
    }

    /** The second half of FindMigrateDestInOneNodeSet, when the node set at home has too few nodes. */
    method MoveWholePartition(item: Item, maxMemSize: nat, excludes: seq<string>)
      returns (outcome: Outcome, next: Item)
      requires Valid() && ItemValid(item) && item.overload != [] && item.plan == []
      requires maxMemSize == MaxMem(item.overload) && excludes == Excludes(item)
      modifies `low, `booked
      ensures Valid() && outcome != Failed
      ensures outcome == Panicked <==> |item.original| > WHOLE_PARTITION && EnoughAway(old(low), item)
      ensures outcome == NotEnough <==> !EnoughAway(old(low), item)
      ensures outcome == Done ==>
                && next == item.(plan := next.plan) && booked == old(booked) + next.plan
                && KeptInOne(item, next.plan) && MovesFrom(next.plan, item.original)
      ensures outcome == NotEnough ==> next == item && low == old(low) && booked == old(booked)
    {
      hide TopologyValid, Accounted, Enough, EnoughInZone, EnoughElsewhere, Chosen, Ready, NewTargets, Excludes;
      hide KeptInOne, InTarget, MovesFrom, Distinct, MaxMem, ItemValid, Unplanned, Pairs;
      SourcesReady(item);
      var zone, setID := item.overload[0].zone, item.overload[0].setID;
      var req := Request(excludes, WHOLE_PARTITION, maxMemSize);
      ghost var z, s := zone, setID;
      var find, dests;
      find, dests, s := GetMigrateAddrExcludeNodeSet(low, zone, setID, req, mid);
      if !find {
        find, dests, z, s := GetMigrateAddrExcludeZone(low, zone, req, mid);
      }
      if !find {
        return NotEnough, item;
      }
      ChosenIsReady(low, z, s, req, dests, mid);
      if |item.original| <= |dests| {
        OriginalMoves(item, dests, z, s);
        PairsFrom(item.original, dests);
      }
      outcome, next := FillMigratePlanArray(item, item.original, dests, maxMemSize);
      assert outcome == Done ==> next.plan == Pairs(item.original, dests, |item.original|);
    }

    // -------------------------------------------------------------- all partitions

    /** One turn of FindMigrateDestination's loop. */
    method FindForItem(item: Item) returns (outcome: Outcome, next: Item, ghost charged: seq<Move>)
      requires Valid() && ItemValid(item)
      modifies `low, `booked
      ensures Valid() && (outcome != Panicked ==> booked == old(booked) + charged)
      ensures outcome == Done ==> Finished(item, next) && charged == next.plan && AtNodes(base, next.plan)
      ensures outcome == Done && item.overload != [] ==> BeginsWith(next.plan, FirstSource(old(low), item))
      ensures outcome == NotEnough ==>
                Unplaceable(low, next) && next == item.(plan := charged) && (!item.crossZone ==> charged == [])
      ensures outcome == Panicked ==> !item.crossZone && |item.original| > WHOLE_PARTITION
      ensures outcome == Failed ==> !item.crossZone && item.overload == []
    {
      hide TopologyValid, Accounted, PlanSound, RetainInv, KeptInOne, Covers, StuckInZone, Enough, EnoughInZone;
      hide EnoughElsewhere, Excludes, ItemValid;
      charged := [];
      if item.crossZone {
        outcome, next := FindMigrateDestRetainZone(item);
        charged := next.plan;
      } else {
        outcome, next := FindMigrateDestInOneNodeSet(item);
        if outcome == Done {
          OverloadListed(item);
          charged := next.plan;
        }
      }
    }

    /**
    FindMigrateDestination: plans the partitions in order. When one cannot be placed, the ones before it are kept,
    unless it is the first.
    */
    method FindMigrateDestination() returns (outcome: Outcome, ghost unused: seq<Move>)
      requires Valid() && forall i :: 0 <= i < |plan| ==> ItemValid(plan[i])
      modifies `low, `booked, `plan
      ensures Valid()
      ensures outcome == Done ==>
                && |plan| <= |old(plan)| && (old(plan) != [] ==> plan != [])
                && (forall i :: 0 <= i < |plan| ==> Finished(old(plan)[i], plan[i]) && AtNodes(base, plan[i].plan))
                && booked == old(booked) + AllMoves(plan) + unused
                && if |plan| == |old(plan)| then unused == []
                   else Unplaceable(low, old(plan)[|plan|].(plan := unused))
      ensures outcome == Done && plan != [] && old(plan)[0].overload != [] ==>
                BeginsWith(plan[0].plan, FirstSource(old(low), old(plan)[0]))
      ensures outcome == NotEnough ==>
                && old(plan) != [] && plan == old(plan)[0 := old(plan)[0].(plan := unused)]
                && Unplaceable(low, plan[0]) && booked == old(booked) + unused
      ensures outcome == Panicked ==> exists item :: item in old(plan) && |item.original| > WHOLE_PARTITION
      ensures outcome == Failed ==> exists item :: item in old(plan) && item.overload == []
    {
      hide TopologyValid, Accounted, ItemValid, Finished, Unplaceable, AllMoves, PlannedSoFar, AtNodes;
      hide BeginsWith, FirstSource;
      unused := [];
      var i := 0;
      NonePlanned(plan, booked);
      while i < |plan|
        invariant i <= |plan| == |old(plan)| && Valid() && unused == []
        invariant PlannedSoFar(old(plan), plan, i, old(booked), booked) && (i == 0 ==> low == old(low))
        invariant i > 0 && old(plan)[0].overload != [] ==>
                    BeginsWith(plan[0].plan, FirstSource(old(low), old(plan)[0]))
      {
        NextUnplanned(old(plan), plan, i, old(booked), booked);
        ghost var before, charges := plan, booked;
        var next;
        ghost var charged;
        outcome, next, charged := FindForItem(plan[i]);
        plan := plan[i := next];
        if outcome == NotEnough {
          unused := charged;
          FrontPlanned(old(plan), before, i, old(booked), charges, next);
          if i <= 0 {
            return;
          }
          plan := plan[..i];
          PlansAtNodes(base, low, old(booked), plan, unused, mid);
          return Done, unused;
        } else if outcome != Done {
          return;
        }
        OneMorePlanned(old(plan), before, i, next, old(booked), charges);
        i := i + 1;
      }
      AllPlanned(old(plan), plan, old(booked), booked);
      assert booked == old(booked) + AllMoves(plan) + unused;
      PlansAtNodes(base, low, old(booked), plan, unused, mid);
      outcome := Done;
    }
  }

  lemma PlansAtNodes(base: Topology, low: Topology, before: seq<Move>, items: seq<Item>, unused: seq<Move>, mid: real)
    requires Accounted(base, low, before + AllMoves(items) + unused, mid)
    ensures forall i :: 0 <= i < |items| ==> AtNodes(base, items[i].plan)
  {
    hide Accounted, AllMoves, IsNode;
    assert before + AllMoves(items) + unused == before + (AllMoves(items) + unused);
    LastAtNodes(base, low, before, AllMoves(items) + unused, mid);
    forall i, m | 0 <= i < |items| && m in items[i].plan ensures IsNode(base, m.to) {
      InAllMoves(items, i, m);
    }
  }

  /** The first `i` items have their plans, which are what was booked. */
  ghost predicate PlannedSoFar(was: seq<Item>, now: seq<Item>, i: nat, before: seq<Move>, booked: seq<Move>) {
    && i <= |now| == |was|
    && (forall k :: i <= k < |now| ==> now[k] == was[k])
    && (forall k :: 0 <= k < i ==> Finished(was[k], now[k]))
    && booked == before + AllMoves(now[..i])
  }

  lemma NonePlanned(plan: seq<Item>, booked: seq<Move>)
    ensures PlannedSoFar(plan, plan, 0, booked, booked)
  {
  }

  lemma NextUnplanned(was: seq<Item>, now: seq<Item>, i: nat, before: seq<Move>, booked: seq<Move>)
    requires PlannedSoFar(was, now, i, before, booked) && i < |now|
    ensures now[i] == was[i]
  {
  }

  lemma OneMorePlanned(was: seq<Item>, now: seq<Item>, i: nat, next: Item, before: seq<Move>, booked: seq<Move>)
    requires PlannedSoFar(was, now, i, before, booked) && i < |now| && Finished(was[i], next)
    ensures PlannedSoFar(was, now[i := next], i + 1, before, booked + next.plan)
  {
    hide Finished, AllMoves;
    OneMoreItem(now[..i], next, before);
    assert now[i := next][..i + 1] == now[..i] + [next];
  }

  /** When the next item cannot be placed, the ones before it are kept. */
  lemma FrontPlanned(was: seq<Item>, now: seq<Item>, i: nat, before: seq<Move>, booked: seq<Move>, next: Item)
    requires PlannedSoFar(was, now, i, before, booked) && i < |now|
    ensures forall k :: 0 <= k < i ==> Finished(was[k], now[i := next][..i][k])
    ensures booked == before + AllMoves(now[i := next][..i])
    ensures i == 0 ==> booked == before && now == was
  {
    hide Finished;
    assert now[i := next][..i] == now[..i];
  }

  lemma AllPlanned(was: seq<Item>, now: seq<Item>, before: seq<Move>, booked: seq<Move>)
    requires PlannedSoFar(was, now, |now|, before, booked)
    ensures |now| == |was| && booked == before + AllMoves(now)
    ensures forall k :: 0 <= k < |now| ==> Finished(was[k], now[k])
  {
    hide Finished, AllMoves;
    assert now[..|now|] == now;
  }

  /** The planner found no destination for the partition in the topology as it then was. */
  ghost predicate Unplaceable(low: Topology, item: Item) {
    if item.crossZone then StuckInZone(low, item)
    else item.overload != [] && !EnoughAtHome(low, item) && !EnoughAway(low, item)
  }

  lemma OneMoreItem(items: seq<Item>, next: Item, booked: seq<Move>)
    ensures booked + AllMoves(items) + next.plan == booked + AllMoves(items + [next])
  {
    assert (items + [next])[..|items|] == items;
  }

  /** The size charged for a source, whether it has a move already or not, is at most the size searched for. */
  ghost predicate Sized(item: Item, source: Replica, leastSize: nat) {
    && MEMORY_RATIO * leastSize < UINT64 && source.memSize <= leastSize
    && forall i :: 0 <= i < |item.plan| && item.plan[i].from.source == source.source ==>
         item.plan[i].from.memSize <= leastSize
  }

  function RequestFor(item: Item, sources: seq<Replica>): Request {
    Request(Excludes(item), |sources|, MaxMem(sources))
  }

  /** The sources got new destinations, and their moves were charged. */
  ghost predicate Added(item: Item, sources: seq<Replica>, dests: seq<Dest>, next: Item,
                        before: seq<Move>, after: seq<Move>) {
    && |dests| == |sources| && NewTargets(Excludes(item), dests)
    && next == item.(plan := Extended(item.plan, sources, dests))
    && after == before + Pairs(sources, dests, |sources|)
  }

  /** Neither the node set of the replica nor any other of its zone can take the replicas that would move. */
  ghost predicate Stuck(low: Topology, item: Item, h: Replica) {
    !EnoughAtOwn(low, item, h) && !EnoughInOwnZone(low, item, h)
  }

  /** The node set of the replica can take the overloaded replicas in it. */
  ghost predicate EnoughAtOwn(low: Topology, item: Item, h: Replica) {
    Enough(low, h.zone, h.setID, RequestFor(item, InSet(item.overload, h.setID)))
  }

  /** Another node set of its zone can take all the replicas in it. */
  ghost predicate EnoughInOwnZone(low: Topology, item: Item, h: Replica) {
    EnoughInZone(low, h.zone, h.setID, RequestFor(item, InSet(item.original, h.setID)))
  }

  lemma NothingPlannedIn(item: Item, h: Replica)
    requires SetsWhole(item.overload, item.plan) && h in item.overload && !Planned(item.plan, h.source)
    ensures forall i :: 0 <= i < |item.plan| ==> item.plan[i].from.setID != h.setID
  {
  }

  /** Some overloaded replica without a move is stuck. */
  ghost predicate StuckInZone(low: Topology, item: Item) {
    exists h :: h in item.overload && !Planned(item.plan, h.source) && Stuck(low, item, h)
  }

  /** The number of nodes asked for when every replica of a partition has to move. */
  const WHOLE_PARTITION := 3

  /** The node set of the first overloaded replica can take all overloaded replicas. */
  ghost predicate EnoughAtHome(low: Topology, item: Item)
    requires item.overload != []
  {
    Enough(low, item.overload[0].zone, item.overload[0].setID, RequestFor(item.(plan := []), item.overload))
  }

  /** Some other node set can take a whole partition. */
  ghost predicate EnoughAway(low: Topology, item: Item)
    requires item.overload != []
  {
    var req := Request(Excludes(item.(plan := [])), WHOLE_PARTITION, MaxMem(item.overload));
    || EnoughInZone(low, item.overload[0].zone, item.overload[0].setID, req)
    || EnoughElsewhere(low, item.overload[0].zone, req)
  }

  /** The moves are of these replicas, in order. */
  predicate MovesFrom(plan: seq<Move>, rs: seq<Replica>) {
    |plan| == |rs| && forall i :: 0 <= i < |rs| ==> plan[i].from == rs[i]
  }

  lemma PairsFrom(sources: seq<Replica>, dests: seq<Dest>)
    requires |sources| <= |dests|
    ensures MovesFrom(Pairs(sources, dests, |sources|), sources)
  {
    forall i | 0 <= i < |sources| ensures Pairs(sources, dests, |sources|)[i].from == sources[i] {
      PairsAt(sources, dests, |sources|, i);
    }
  }

  predicate BeginsWith(plan: seq<Move>, r: Replica) { plan != [] && plan[0].from == r }

  lemma StillBegins(plan: seq<Move>, added: seq<Move>, r: Replica)
    requires BeginsWith(plan, r)
    ensures BeginsWith(plan + added, r)
  {
  }

  /** What charging the moves of a partition without any asks of its replicas. */
  lemma SourcesReady(item: Item)
    requires ItemValid(item) && item.plan == []
    ensures Distinct(item.original) && Unplanned(item.plan, item.original)
    ensures Distinct(item.overload) && Unplanned(item.plan, item.overload)
    ensures MEMORY_RATIO * MaxMem(item.overload) < UINT64
    ensures forall r :: r in item.original ==> r.memSize <= MaxMem(item.overload)
  {
    hide MaxMem, Distinct;
  }

  lemma OverloadListed(item: Item)
    requires ItemValid(item) && item.overload != []
    ensures item.original != []
  {
    assert item.overload[0] in item.original;
  }

  /** The first overloaded replica can stay in its node set. */
  ghost predicate StaysAcross(low: Topology, item: Item)
    requires item.overload != []
  {
    EnoughAtOwn(low, item.(plan := []), item.overload[0])
  }

  /** The replica that moves first, of a partition that may span zones. */
  ghost function FirstAcross(low: Topology, item: Item): Replica
    requires item.overload != []
  {
    var there := InSet(item.original, item.overload[0].setID);
    if StaysAcross(low, item) || there == [] then item.overload[0] else there[0]
  }

  /** The replica that moves first: an overloaded one at home, and the first one there is when others leave with it. */
  ghost function FirstSource(low: Topology, item: Item): Replica
    requires item.overload != []
  {
    if item.crossZone then FirstAcross(low, item)
    else if EnoughAtHome(low, item) || item.original == [] then item.overload[0] else item.original[0]
  }

  lemma {:induction false} InSetFirst(rs: seq<Replica>)
    requires rs != []
    ensures InSet(rs, rs[0].setID) != [] && InSet(rs, rs[0].setID)[0] == rs[0]
  {
    if |rs| > 1 {
      InSetFirst(rs[..|rs| - 1]);
    } else {
      assert rs[..0] == [];
    }
  }

  /** The moves of the first node set begin with that replica. */
  lemma FirstOfSet(low: Topology, item: Item, added: seq<Move>)
    requires ItemValid(item) && item.overload != []
    requires var stays := EnoughAtOwn(low, item.(plan := []), item.overload[0]);
             MovesFrom(added, InSet(if stays then item.overload else item.original, item.overload[0].setID))
    ensures BeginsWith(added, FirstAcross(low, item))
  {
    hide MaxMem, InSet, EnoughAtOwn, Distinct;
    InSetFirst(item.overload);
    InSetExact(item.original, item.overload[0].setID, item.overload[0]);
  }

  lemma NothingPlanned(item: Item)
    ensures RetainInv(item, [])
  {
  }

  lemma StillAllPlanned(overload: seq<Replica>, n: nat, plan: seq<Move>, added: seq<Move>)
    requires n < |overload| && forall k :: 0 <= k < n ==> Planned(plan, overload[k].source)
    ensures forall k :: 0 <= k < n ==> Planned(plan + added, overload[k].source)
  {
    forall k | 0 <= k < n ensures Planned(plan + added, overload[k].source) {
      var i :| 0 <= i < |plan| && plan[i].from.source == overload[k].source;
      assert (plan + added)[i] == plan[i];
    }
  }

  lemma AllAtMostMax(rs: seq<Replica>)
    ensures forall r :: r in rs ==> r.memSize <= MaxMem(rs)
  {
    forall r | r in rs ensures r.memSize <= MaxMem(rs) {
      AtMostMax(rs, r);
    }
  }

  lemma OneMorePair(moves: seq<Move>, sources: seq<Replica>, dests: seq<Dest>, n: nat)
    requires n < |sources| && n < |dests|
    ensures moves + Pairs(sources, dests, n) + [Move(sources[n], dests[n])] == moves + Pairs(sources, dests, n + 1)
  {
  }

  lemma PairsTarget(sources: seq<Replica>, dests: seq<Dest>, z: string, s: nat)
    requires |sources| == |dests| && InTarget(dests, z, s)
    ensures forall m :: m in Pairs(sources, dests, |sources|) ==> m.to.setID == s
  {
    forall i | 0 <= i < |sources| ensures Pairs(sources, dests, |sources|)[i].to == dests[i] {
      PairsAt(sources, dests, |sources|, i);
    }
  }

  lemma PairsUnplanned(plan: seq<Move>, sources: seq<Replica>, dests: seq<Dest>, n: nat)
    requires n < |sources| && n <= |dests| && Distinct(sources) && Unplanned(plan, sources)
    ensures !Planned(plan + Pairs(sources, dests, n), sources[n].source)
  {
    forall k | 0 <= k < n ensures Pairs(sources, dests, n)[k].from == sources[k] {
      PairsAt(sources, dests, n, k);
    }
    assert !Planned(plan, sources[n].source);
  }

  lemma ReadyAfter(low: Topology, dests: seq<Dest>, i: nat, leastSize: nat, memSize: nat, mid: real)
    requires TopologyValid(low, mid) && Ready(low, dests, i, leastSize) && i < |dests|
    ensures NodeAt(low, PlaceOf(dests[i]))
    ensures Ready(ChargedTopology(low, PlaceOf(dests[i]), memSize, mid), dests, i + 1, leastSize)
  {
    assert Room(low, dests[i], leastSize);
    FiledAt(low, PlaceOf(dests[i]), mid);
    forall j | i < j < |dests|
      ensures Room(ChargedTopology(low, PlaceOf(dests[i]), memSize, mid), dests[j], leastSize)
    {
      assert Room(low, dests[j], leastSize);
      ChargedElsewhere(low, PlaceOf(dests[i]), memSize, mid, PlaceOf(dests[j]));
    }
  }

  lemma BookingKeepsValid(base: Topology, low: Topology, booked: seq<Move>, mid: real, m: Move)
    requires TopologyValid(low, mid) && Accounted(base, low, booked, mid)
    requires Room(low, m.to, m.from.memSize) && MEMORY_RATIO * m.from.memSize < UINT64
    ensures TopologyValid(ChargedTopology(low, PlaceOf(m.to), m.from.memSize, mid), mid)
    ensures Accounted(base, ChargedTopology(low, PlaceOf(m.to), m.from.memSize, mid), booked + [m], mid)
    ensures TheNode(low, PlaceOf(m.to)).id == m.to.id
  {
    hide Charged, Loaded, TopologyValid, Balanced, AccountedAt;
    var p := PlaceOf(m.to);
    FiledAt(low, p, mid);
    ChargedFits(TheNode(low, p), mid, m.from.memSize, m.from.memSize);
    ChargedValid(low, p, m.from.memSize, mid);
    forall q ensures AccountedAt(base, ChargedTopology(low, p, m.from.memSize, mid), booked + [m], mid, q) {
      BookedAt(base, low, booked, mid, m, q);
    }
  }

  // ---------------------------------------------------------------- a partition that makes the planner panic

  /** A meta node with much room. */
  function RoomyNode(id: nat, addr: string, setID: nat): Node {
    var size := 4 * RESERVE_MEMORY;
    Node(id, addr, setID, "z", size, 0, size, 0.0, size, 0, size, 0.0)
  }

  /** One zone with three such nodes in its second node set; the first has no node under low pressure. */
  function RoomyTopology(): Topology {
    var nodes := map[1 := RoomyNode(1, "x", 2), 2 := RoomyNode(2, "y", 2), 3 := RoomyNode(3, "w", 2)];
    map["z" := Zone("z", map[2 := NodeSet(2, 3, nodes)])]
  }

  /** A partition of four replicas in the first node set, one of them overloaded. */
  function FourReplicas(): Item {
    var over := Replica("a", 1, 1, "z");
    Item(1, [over, Replica("b", 0, 1, "z"), Replica("c", 0, 1, "z"), Replica("d", 0, 1, "z")], [over], [], false)
  }

  lemma RoomyBalanced(id: nat, addr: string, setID: nat)
    ensures Balanced(RoomyNode(id, addr, setID), 1.0)
  {
  }

  lemma RoomySet()
    ensures SetValid("z", 2, RoomyTopology()["z"].sets[2], 1.0)
  {
    hide Balanced;
    var ns := RoomyTopology()["z"].sets[2];
    RoomyBalanced(1, "x", 2);
    RoomyBalanced(2, "y", 2);
    RoomyBalanced(3, "w", 2);
    assert ns.nodes.Keys == {1, 2, 3} && |ns.nodes| == |ns.nodes.Keys|;
  }

  lemma RoomyValid()
    ensures TopologyValid(RoomyTopology(), 1.0)
  {
    hide SetValid;
    RoomySet();
  }

  lemma FourReplicasValid()
    ensures ItemValid(FourReplicas())
  {
    var item := FourReplicas();
    assert item.overload[..0] == [];
    assert MaxMem(item.overload) == 1;
  }

  /** All three nodes can take a replica of a partition at home in the first node set. */
  lemma RoomyAway(item: Item)
    requires item.overload != [] && item.overload[0].zone == "z" && item.overload[0].setID == 1
    requires MaxMem(item.overload) == 1
    requires var excludes := Excludes(item.(plan := [])); "x" !in excludes && "y" !in excludes && "w" !in excludes
    ensures !EnoughAtHome(RoomyTopology(), item) && EnoughAway(RoomyTopology(), item)
  {
    hide MaxMem, Excludes;
    var req := Request(Excludes(item.(plan := [])), WHOLE_PARTITION, MaxMem(item.overload));
    var ns := RoomyTopology()["z"].sets[2];
    assert EligibleIn(ns, req) == {1, 2, 3};
    assert Enough(RoomyTopology(), "z", 2, req);
  }

  lemma FourReplicasMax()
    ensures MaxMem(FourReplicas().overload) == 1
  {
    assert FourReplicas().overload[..0] == [];
  }

  /** Three nodes are asked for and found, and the fourth replica is taken from behind the end of the list. */
  method FourReplicasPanic() returns (outcome: Outcome)
    ensures outcome == Panicked
  {
    hide TopologyValid, ItemValid, EnoughAtHome, EnoughAway, RoomyTopology, MaxMem;
    RoomyValid();
    FourReplicasValid();
    FourReplicasMax();
    RoomyAway(FourReplicas());
    var view := new ClusterPlan(RoomyTopology(), [FourReplicas()], 1.0);
    var next;
    outcome, next := view.FindMigrateDestInOneNodeSet(FourReplicas());
  }

  // ---------------------------------------------------------------- the node that goes offline

  /** The overloaded replica that comes first stays in its node set. */
  ghost predicate StaysHome(low: Topology, item: Item)
    requires item.overload != []
  {
    if item.crossZone then StaysAcross(low, item) else EnoughAtHome(low, item)
  }

  /** The replicas that leave together when it does not. */
  function Leaving(item: Item): seq<Replica>
    requires item.overload != []
  {
    if item.crossZone then InSet(item.original, item.overload[0].setID) else item.original
  }

  /** offlineMetaNode: the source of the first move of the first item. */
  function OfflineAddr(plan: seq<Item>): string
    requires plan != [] && plan[0].plan != []
  {
    plan[0].plan[0].from.source
  }

  /** The first move is of the overloaded replica exactly when that stays at home or comes first of those that leave. */
  lemma FirstIs(low: Topology, item: Item, addr: string)
    requires ItemValid(item) && item.overload != [] && item.overload[0].source == addr
    ensures Leaving(item) != []
    ensures FirstSource(low, item).source == addr <==> StaysHome(low, item) || Leaving(item)[0].source == addr
  {
    hide MaxMem, InSet, EnoughAtOwn, EnoughAtHome, Distinct;
    OverloadListed(item);
    InSetExact(item.original, item.overload[0].setID, item.overload[0]);
  }

  /** A partition on "a", "b" and "c", of which "b" is to go offline. */
  function ToShedB(): Item {
    var b := Replica("b", 1, 1, "z");
    Item(1, [Replica("a", 0, 1, "z"), b, Replica("c", 0, 1, "z")], [b], [], false)
  }

  lemma ToShedBValid()
    ensures ItemValid(ToShedB()) && MaxMem(ToShedB().overload) == 1
  {
    var item := ToShedB();
    assert item.overload[..0] == [];
    assert MaxMem(item.overload) == 1;
  }

  /**
  With no room at home the whole partition leaves, its first replica first, and "a" is the node that goes offline.
  */
  method WrongNodeOffline() returns (outcome: Outcome, next: Item)
    ensures outcome == Done && ToShedB().overload[0].source == "b"
    ensures next.plan != [] && OfflineAddr([next]) == "a"
  {
    hide TopologyValid, ItemValid, EnoughAtHome, EnoughAway, RoomyTopology, MaxMem, KeptInOne, AtNodes;
    RoomyValid();
    ToShedBValid();
    RoomyAway(ToShedB());
    var view := new ClusterPlan(RoomyTopology(), [ToShedB()], 1.0);
    outcome, next := view.FindMigrateDestInOneNodeSet(ToShedB());
  }

  // ---------------------------------------------------------------- a destination that is a host already

  /** One zone with one node set, in which one node is under low pressure. */
  function HomeTopology(): Topology {
    map["z" := Zone("z", map[1 := NodeSet(1, 1, map[2 := RoomyNode(2, "b", 1)])])]
  }

  /** What is known of a partition on "a", "b" and "c" of which only the overloaded "a" has reported. */
  function OneReported(): Item {
    var over := Replica("a", 1, 1, "z");
    Item(1, [over], [over], [], false)
  }

  lemma HomeValid()
    ensures TopologyValid(HomeTopology(), 1.0)
  {
    hide Balanced;
    RoomyBalanced(2, "b", 1);
    var ns := HomeTopology()["z"].sets[1];
    assert ns.nodes.Keys == {2} && |ns.nodes| == |ns.nodes.Keys|;
  }

  lemma OneReportedValid()
    ensures ItemValid(OneReported()) && MaxMem(OneReported().overload) == 1
  {
    assert OneReported().overload[..0] == [];
  }

  lemma EnoughHome()
    ensures EnoughAtHome(HomeTopology(), OneReported())
  {
    hide MaxMem;
    OneReportedValid();
    var item := OneReported();
    var req := RequestFor(item, item.overload);
    assert item.(plan := []) == item;
    assert req.excludes == ["a"];
    assert EligibleIn(HomeTopology()["z"].sets[1], req) == {2};
  }

  /** A sound plan that moves the one replica to the one node goes to a host, and is refused. */
  lemma OnlyToHost(plan: seq<Move>)
    requires PlanSound(OneReported().original, plan) && Covers(OneReported().overload, plan)
    requires AtNodes(HomeTopology(), plan)
    ensures MigrateAll(["a", "b", "c"], plan) == Refused
  {
    hide MigrateAll;
    var r := OneReported().overload[0];
    assert Planned(plan, r.source);
    var i :| 0 <= i < |plan| && plan[i].from.source == r.source;
    assert IsNode(HomeTopology(), plan[i].to) && plan[i].to.addr == "b";
    MigratedIff(OneReported().original, ["a", "b", "c"], plan);
    assert !MovesFit(["a", "b", "c"], plan);
  }

  /** The planner excludes the replicas that have reported, and finds a host that has not. */
  method UnreportedHostRefuses() returns (outcome: Outcome, next: Item)
    ensures outcome == Done && MigrateAll(["a", "b", "c"], next.plan) == Refused
  {
    hide TopologyValid, ItemValid, EnoughAtHome, EnoughAway, HomeTopology, MigrateAll, AtNodes, Covers, PlanSound;
    HomeValid();
    OneReportedValid();
    EnoughHome();
    var view := new ClusterPlan(HomeTopology(), [OneReported()], 1.0);
    outcome, next := view.FindMigrateDestInOneNodeSet(OneReported());
    OnlyToHost(next.plan);
  }
}
