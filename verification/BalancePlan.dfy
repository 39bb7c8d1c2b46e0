/**
The migration plan of one meta partition: what the planner asks of a set of moves, and how it is kept while moves are
added one node set at a time.
*/
module BalancePlan {
  import opened BalanceTopology
  import opened BalanceBooking

  datatype Item = Item(id: nat, original: seq<Replica>, overload: seq<Replica>, plan: seq<Move>, crossZone: bool)

  datatype Outcome = Done | NotEnough | Failed | Panicked

  // ---------------------------------------------------------------- replicas

  predicate Distinct(rs: seq<Replica>) {
    forall i, j :: 0 <= i < j < |rs| ==> rs[i].source != rs[j].source
  }

  function MaxMem(rs: seq<Replica>): nat {
    if rs == [] then 0
    else
      var most := MaxMem(rs[..|rs| - 1]);
      if most < rs[|rs| - 1].memSize then rs[|rs| - 1].memSize else most
  }

  function InSet(rs: seq<Replica>, s: nat): seq<Replica> {
    if rs == [] then []
    else
      var rest := InSet(rs[..|rs| - 1], s);
      if rs[|rs| - 1].setID == s then rest + [rs[|rs| - 1]] else rest
  }

  /** What the planner knows of a partition: distinct replicas, of which some are on overloaded nodes. */
  ghost predicate ItemValid(item: Item) {
    && Distinct(item.original) && Distinct(item.overload)
    && (forall r :: r in item.overload ==> r in item.original)
    && (forall r :: r in item.original ==> r.memSize <= MaxMem(item.overload))
    && MEMORY_RATIO * MaxMem(item.overload) < UINT64
    && (forall r, q :: r in item.original && q in item.original && r.setID == q.setID ==> r.zone == q.zone)
  }

  lemma {:induction false} AtMostMax(rs: seq<Replica>, r: Replica)
    requires r in rs
    ensures r.memSize <= MaxMem(rs)
  {
    if r != rs[|rs| - 1] {
      AtMostMax(rs[..|rs| - 1], r);
    }
  }

  lemma {:induction false} MaxAtMost(rs: seq<Replica>, bound: nat)
    requires forall r :: r in rs ==> r.memSize <= bound
    ensures MaxMem(rs) <= bound
  {
    if rs != [] {
      MaxAtMost(rs[..|rs| - 1], bound);
    }
  }

  lemma {:induction false} InSetExact(rs: seq<Replica>, s: nat, r: Replica)
    ensures r in InSet(rs, s) <==> r in rs && r.setID == s
  {
    if rs != [] {
      InSetExact(rs[..|rs| - 1], s, r);
      assert rs == rs[..|rs| - 1] + [rs[|rs| - 1]];
    }
  }

  lemma {:induction false} InSetDistinct(rs: seq<Replica>, s: nat)
    requires Distinct(rs)
    ensures Distinct(InSet(rs, s))
  {
    if rs != [] {
      var rest := rs[..|rs| - 1];
      InSetDistinct(rest, s);
      forall r | r in InSet(rest, s) ensures r.source != rs[|rs| - 1].source {
        InSetExact(rest, s, r);
      }
    }
  }

  // ---------------------------------------------------------------- moves

  ghost predicate Planned(plan: seq<Move>, source: string) {
    exists i :: 0 <= i < |plan| && plan[i].from.source == source
  }

  /** The moves of `sources` to `dests`, one each. */
  function Pairs(sources: seq<Replica>, dests: seq<Dest>, n: nat): (moves: seq<Move>)
    requires n <= |sources| && n <= |dests|
    ensures |moves| == n
  {
    if n == 0 then [] else Pairs(sources, dests, n - 1) + [Move(sources[n - 1], dests[n - 1])]
  }

  lemma {:induction false} PairsAt(sources: seq<Replica>, dests: seq<Dest>, n: nat, i: nat)
    requires i < n <= |sources| && n <= |dests|
    ensures Pairs(sources, dests, n)[i] == Move(sources[i], dests[i])
  {
    if i < n - 1 {
      PairsAt(sources, dests, n - 1, i);
    }
  }

  function Excludes(item: Item): seq<string> {
    seq(|item.original|, i requires 0 <= i < |item.original| => item.original[i].source)
    + seq(|item.plan|, i requires 0 <= i < |item.plan| => item.plan[i].to.addr)
  }

  /** The moves leave distinct replicas of the partition for distinct addresses that hold none. */
  ghost predicate PlanSound(original: seq<Replica>, plan: seq<Move>) {
    && (forall i :: 0 <= i < |plan| ==> plan[i].from in original)
    && (forall i, j :: 0 <= i < j < |plan| ==> plan[i].from.source != plan[j].from.source)
    && (forall i, j :: 0 <= i < j < |plan| ==> plan[i].to.addr != plan[j].to.addr)
    && (forall i, r :: 0 <= i < |plan| && r in original ==> plan[i].to.addr != r.source)
  }

  ghost predicate Covers(overload: seq<Replica>, plan: seq<Move>) {
    forall r :: r in overload ==> Planned(plan, r.source)
  }

  ghost predicate ZoneKept(plan: seq<Move>) {
    forall i :: 0 <= i < |plan| ==> plan[i].to.zone == plan[i].from.zone
  }

  /** Every replica of the node set a move leaves for another node set leaves with it, to the same one. */
  ghost predicate Together(original: seq<Replica>, plan: seq<Move>) {
    && (forall i, j :: 0 <= i < |plan| && 0 <= j < |plan| && plan[i].from.setID == plan[j].from.setID ==>
          plan[i].to.setID == plan[j].to.setID)
    && (forall i, r :: 0 <= i < |plan| && r in original && r.setID == plan[i].from.setID ==>
          plan[i].to.setID == plan[i].from.setID || Planned(plan, r.source))
  }

  /** No node set is half planned. */
  ghost predicate SetsWhole(overload: seq<Replica>, plan: seq<Move>) {
    forall i, r :: 0 <= i < |plan| && r in overload && r.setID == plan[i].from.setID ==> Planned(plan, r.source)
  }

  ghost predicate InTarget(dests: seq<Dest>, z: string, s: nat) {
    forall i :: 0 <= i < |dests| ==> dests[i].zone == z && dests[i].setID == s
  }

  ghost predicate NewTargets(excludes: seq<string>, dests: seq<Dest>) {
    && (forall i :: 0 <= i < |dests| ==> dests[i].addr !in excludes)
    && (forall i, j :: 0 <= i < j < |dests| ==> dests[i].addr != dests[j].addr)
  }

  /** Exactly the addresses of the replicas and of the destinations so far are excluded. */
  lemma ExcludesAll(item: Item, a: string)
    ensures a !in Excludes(item) <==>
              && (forall r :: r in item.original ==> r.source != a)
              && (forall j :: 0 <= j < |item.plan| ==> item.plan[j].to.addr != a)
  {
    var n := |item.original|;
    assert forall i :: 0 <= i < n ==> Excludes(item)[i] == item.original[i].source;
    assert forall j :: 0 <= j < |item.plan| ==> Excludes(item)[n + j] == item.plan[j].to.addr;
    if a in Excludes(item) {
      var k :| 0 <= k < |Excludes(item)| && Excludes(item)[k] == a;
      if k < n {
        assert item.original[k] in item.original;
      } else {
        assert item.plan[k - n].to.addr == a;
      }
    }
  }

  // ---------------------------------------------------------------- adding moves

  /** `plan` with the moves of `sources` to `dests` added. */
  function Extended(plan: seq<Move>, sources: seq<Replica>, dests: seq<Dest>): (more: seq<Move>)
    requires |sources| == |dests|
    ensures |more| == |plan| + |sources|
  {
    plan + Pairs(sources, dests, |sources|)
  }

  lemma ExtendedAt(plan: seq<Move>, sources: seq<Replica>, dests: seq<Dest>, i: nat)
    requires |sources| == |dests| && i < |plan| + |sources|
    ensures Extended(plan, sources, dests)[i]
         == if i < |plan| then plan[i] else Move(sources[i - |plan|], dests[i - |plan|])
  {
    if i >= |plan| {
      PairsAt(sources, dests, |sources|, i - |plan|);
    }
  }

  lemma ExtendedAll(plan: seq<Move>, sources: seq<Replica>, dests: seq<Dest>)
    requires |sources| == |dests|
    ensures forall i :: 0 <= i < |plan| ==> Extended(plan, sources, dests)[i] == plan[i]
    ensures forall i :: |plan| <= i < |plan| + |sources| ==>
              Extended(plan, sources, dests)[i] == Move(sources[i - |plan|], dests[i - |plan|])
  {
    forall i | |plan| <= i < |plan| + |sources|
      ensures Extended(plan, sources, dests)[i] == Move(sources[i - |plan|], dests[i - |plan|])
    {
      ExtendedAt(plan, sources, dests, i);
    }
  }

  lemma StillPlanned(plan: seq<Move>, sources: seq<Replica>, dests: seq<Dest>, source: string)
    requires |sources| == |dests| && Planned(plan, source)
    ensures Planned(Extended(plan, sources, dests), source)
  {
    var i :| 0 <= i < |plan| && plan[i].from.source == source;
    ExtendedAt(plan, sources, dests, i);
  }

  lemma NowPlanned(plan: seq<Move>, sources: seq<Replica>, dests: seq<Dest>, r: Replica)
    requires |sources| == |dests| && r in sources
    ensures Planned(Extended(plan, sources, dests), r.source)
  {
    var k :| 0 <= k < |sources| && sources[k] == r;
    ExtendedAt(plan, sources, dests, |plan| + k);
  }

  ghost predicate Unplanned(plan: seq<Move>, sources: seq<Replica>) {
    forall k :: 0 <= k < |sources| ==> !Planned(plan, sources[k].source)
  }

  lemma ExtendedSound(item: Item, sources: seq<Replica>, dests: seq<Dest>)
    requires PlanSound(item.original, item.plan) && |sources| == |dests|
    requires Distinct(sources) && Unplanned(item.plan, sources)
    requires forall r :: r in sources ==> r in item.original
    requires NewTargets(Excludes(item), dests)
    ensures PlanSound(item.original, Extended(item.plan, sources, dests))
  {
    var plan := item.plan;
    var more := Extended(plan, sources, dests);
    ExtendedAll(plan, sources, dests);
    forall i | 0 <= i < |more|
      ensures more[i].from in item.original
      ensures forall r :: r in item.original ==> more[i].to.addr != r.source
    {
      if i >= |plan| {
        ExcludesAll(item, dests[i - |plan|].addr);
      }
    }
    forall i, j | 0 <= i < j < |more|
      ensures more[i].from.source != more[j].from.source && more[i].to.addr != more[j].to.addr
    {
      ExtendedApart(item, sources, dests, i, j);
    }
  }

  lemma ExtendedApart(item: Item, sources: seq<Replica>, dests: seq<Dest>, i: nat, j: nat)
    requires PlanSound(item.original, item.plan) && |sources| == |dests|
    requires Distinct(sources) && Unplanned(item.plan, sources)
    requires NewTargets(Excludes(item), dests) && i < j < |item.plan| + |sources|
    ensures Extended(item.plan, sources, dests)[i].from.source != Extended(item.plan, sources, dests)[j].from.source
    ensures Extended(item.plan, sources, dests)[i].to.addr != Extended(item.plan, sources, dests)[j].to.addr
  {
    ExtendedAt(item.plan, sources, dests, i);
    ExtendedAt(item.plan, sources, dests, j);
    if i < |item.plan| <= j {
      ExcludesAll(item, dests[j - |item.plan|].addr);
      assert !Planned(item.plan, sources[j - |item.plan|].source);
    }
  }

  // ---------------------------------------------------------------- one node set of a cross-zone partition

  /**
  The replicas of one node set that move together: the overloaded ones when they stay in the node set, all of them when
  they leave it.
  */
  ghost predicate SetStep(item: Item, h: Replica, sources: seq<Replica>, dests: seq<Dest>, s: nat) {
    && h in item.overload && |sources| == |dests| && InTarget(dests, h.zone, s)
    && (forall i :: 0 <= i < |item.plan| ==> item.plan[i].from.setID != h.setID)
    && sources == if s == h.setID then InSet(item.overload, h.setID) else InSet(item.original, h.setID)
  }

  lemma StepSource(item: Item, h: Replica, sources: seq<Replica>, dests: seq<Dest>, s: nat, r: Replica)
    requires ItemValid(item) && SetStep(item, h, sources, dests, s)
    ensures r in sources ==> r in item.original && r.setID == h.setID && r.zone == h.zone
    ensures r in item.overload && r.setID == h.setID ==> r in sources
    ensures r in item.original && r.setID == h.setID && s != h.setID ==> r in sources
  {
    InSetExact(item.overload, h.setID, r);
    InSetExact(item.original, h.setID, r);
  }

  lemma StepZone(item: Item, h: Replica, sources: seq<Replica>, dests: seq<Dest>, s: nat)
    requires ItemValid(item) && SetStep(item, h, sources, dests, s) && ZoneKept(item.plan)
    ensures ZoneKept(Extended(item.plan, sources, dests))
  {
    var more := Extended(item.plan, sources, dests);
    forall i | 0 <= i < |more| ensures more[i].to.zone == more[i].from.zone {
      ExtendedAt(item.plan, sources, dests, i);
      if i >= |item.plan| {
        StepSource(item, h, sources, dests, s, sources[i - |item.plan|]);
      }
    }
  }

  lemma StepWhole(item: Item, h: Replica, sources: seq<Replica>, dests: seq<Dest>, s: nat)
    requires ItemValid(item) && SetStep(item, h, sources, dests, s) && SetsWhole(item.overload, item.plan)
    ensures SetsWhole(item.overload, Extended(item.plan, sources, dests))
  {
    var more := Extended(item.plan, sources, dests);
    forall i, r | 0 <= i < |more| && r in item.overload && r.setID == more[i].from.setID
      ensures Planned(more, r.source)
    {
      ExtendedAt(item.plan, sources, dests, i);
      if i < |item.plan| {
        StillPlanned(item.plan, sources, dests, r.source);
      } else {
        StepSource(item, h, sources, dests, s, sources[i - |item.plan|]);
        StepSource(item, h, sources, dests, s, r);
        NowPlanned(item.plan, sources, dests, r);
      }
    }
  }

  lemma StepLeaves(item: Item, h: Replica, sources: seq<Replica>, dests: seq<Dest>, s: nat, i: nat, r: Replica)
    requires ItemValid(item) && SetStep(item, h, sources, dests, s) && Together(item.original, item.plan)
    requires i < |item.plan| + |sources| && r in item.original
    requires r.setID == Extended(item.plan, sources, dests)[i].from.setID
    ensures Extended(item.plan, sources, dests)[i].to.setID == r.setID
         || Planned(Extended(item.plan, sources, dests), r.source)
  {
    ExtendedAt(item.plan, sources, dests, i);
    if i < |item.plan| {
      if Planned(item.plan, r.source) {
        StillPlanned(item.plan, sources, dests, r.source);
      }
    } else {
      StepSource(item, h, sources, dests, s, sources[i - |item.plan|]);
      if s != h.setID {
        StepSource(item, h, sources, dests, s, r);
        NowPlanned(item.plan, sources, dests, r);
      }
    }
  }

  lemma StepSameTarget(item: Item, h: Replica, sources: seq<Replica>, dests: seq<Dest>, s: nat, i: nat, j: nat)
    requires ItemValid(item) && SetStep(item, h, sources, dests, s) && Together(item.original, item.plan)
    requires i < |item.plan| + |sources| && j < |item.plan| + |sources|
    requires Extended(item.plan, sources, dests)[i].from.setID == Extended(item.plan, sources, dests)[j].from.setID
    ensures Extended(item.plan, sources, dests)[i].to.setID == Extended(item.plan, sources, dests)[j].to.setID
  {
    ExtendedAt(item.plan, sources, dests, i);
    ExtendedAt(item.plan, sources, dests, j);
    if i >= |item.plan| {
      StepSource(item, h, sources, dests, s, sources[i - |item.plan|]);
    }
    if j >= |item.plan| {
      StepSource(item, h, sources, dests, s, sources[j - |item.plan|]);
    }
  }

  lemma StepTogether(item: Item, h: Replica, sources: seq<Replica>, dests: seq<Dest>, s: nat)
    requires ItemValid(item) && SetStep(item, h, sources, dests, s) && Together(item.original, item.plan)
    ensures Together(item.original, Extended(item.plan, sources, dests))
  {
    var more := Extended(item.plan, sources, dests);
    forall i, j | 0 <= i < |more| && 0 <= j < |more| && more[i].from.setID == more[j].from.setID
      ensures more[i].to.setID == more[j].to.setID
    {
      StepSameTarget(item, h, sources, dests, s, i, j);
    }
    forall i, r | 0 <= i < |more| && r in item.original && r.setID == more[i].from.setID
      ensures more[i].to.setID == more[i].from.setID || Planned(more, r.source)
    {
      StepLeaves(item, h, sources, dests, s, i, r);
    }
  }

  /** What holds of the moves found so far for a partition that may span zones. */
  ghost predicate RetainInv(item: Item, plan: seq<Move>) {
    PlanSound(item.original, plan) && ZoneKept(plan) && Together(item.original, plan) && SetsWhole(item.overload, plan)
  }

  lemma StepRetains(item: Item, h: Replica, sources: seq<Replica>, dests: seq<Dest>, s: nat)
    requires ItemValid(item) && RetainInv(item, item.plan) && SetStep(item, h, sources, dests, s)
    requires NewTargets(Excludes(item), dests)
    ensures RetainInv(item, Extended(item.plan, sources, dests))
    ensures Planned(Extended(item.plan, sources, dests), h.source)
  {
    StepUnplanned(item, h, sources, dests, s);
    ExtendedSound(item, sources, dests);
    StepZone(item, h, sources, dests, s);
    StepWhole(item, h, sources, dests, s);
    StepTogether(item, h, sources, dests, s);
    StepSource(item, h, sources, dests, s, h);
    NowPlanned(item.plan, sources, dests, h);
  }

  lemma StepUnplanned(item: Item, h: Replica, sources: seq<Replica>, dests: seq<Dest>, s: nat)
    requires ItemValid(item) && RetainInv(item, item.plan) && SetStep(item, h, sources, dests, s)
    ensures Unplanned(item.plan, sources) && Distinct(sources) && forall r :: r in sources ==> r in item.original
  {
    var all := if s == h.setID then item.overload else item.original;
    forall r | r in sources ensures r in item.original {
      StepSource(item, h, sources, dests, s, r);
    }
    NodeSetUnplanned(item, h, all);
  }

  /** No replica of the node set of an unplanned overloaded replica has a move yet. */
  lemma NodeSetUnplanned(item: Item, h: Replica, all: seq<Replica>)
    requires ItemValid(item) && PlanSound(item.original, item.plan) && (all == item.overload || all == item.original)
    requires forall i :: 0 <= i < |item.plan| ==> item.plan[i].from.setID != h.setID
    ensures Unplanned(item.plan, InSet(all, h.setID)) && Distinct(InSet(all, h.setID))
  {
    var sources := InSet(all, h.setID);
    InSetDistinct(all, h.setID);
    forall k, i | 0 <= k < |sources| && 0 <= i < |item.plan| ensures item.plan[i].from.source != sources[k].source {
      InSetExact(all, h.setID, sources[k]);
      OneRecord(item.original, item.plan[i].from, sources[k]);
    }
  }

  /** The replicas of the node set of an overloaded replica, as the sources of a search. */
  lemma NodeSetSources(item: Item, h: Replica, all: seq<Replica>)
    requires ItemValid(item) && h in item.overload && (all == item.overload || all == item.original)
    ensures MEMORY_RATIO * MaxMem(InSet(all, h.setID)) < UINT64
    ensures InSet(all, h.setID) != []
    ensures InSet(all, h.setID)[0].zone == h.zone && InSet(all, h.setID)[0].setID == h.setID
  {
    var sources := InSet(all, h.setID);
    forall r | r in sources ensures r in item.original && r.setID == h.setID {
      InSetExact(all, h.setID, r);
    }
    InSetExact(all, h.setID, h);
    MaxAtMost(sources, MaxMem(item.overload));
    assert sources[0] in sources;
  }

  lemma OneRecord(rs: seq<Replica>, r: Replica, q: Replica)
    requires Distinct(rs) && r in rs && q in rs
    ensures r.source == q.source ==> r == q
  {
  }

  /** Which moves a partition has so far does not matter to what it is. */
  lemma SameItem(item: Item, plan: seq<Move>)
    requires ItemValid(item)
    ensures ItemValid(item.(plan := plan))
  {
    hide Distinct, MaxMem;
  }

  // ---------------------------------------------------------------- a partition that stays in one node set

  ghost predicate MovesTo(plan: seq<Move>, z: string, s: nat) {
    forall i :: 0 <= i < |plan| ==> plan[i].to.zone == z && plan[i].to.setID == s
  }

  /**
  All moves go to one node set: to the one of the first overloaded replica, and then only overloaded replicas move, or
  to another one, and then every replica moves.
  */
  ghost predicate OneTarget(original: seq<Replica>, overload: seq<Replica>, plan: seq<Move>) {
    exists z, s ::
      && MovesTo(plan, z, s)
      && if overload != [] && z == overload[0].zone && s == overload[0].setID
         then forall i :: 0 <= i < |plan| ==> plan[i].from in overload
         else forall r :: r in original ==> Planned(plan, r.source)
  }

  /** The moves of `sources` to the front of `dests`, as the whole plan. */
  lemma WholePlan(item: Item, sources: seq<Replica>, dests: seq<Dest>)
    requires ItemValid(item) && |sources| <= |dests| && (sources == item.overload || sources == item.original)
    requires NewTargets(Excludes(item.(plan := [])), dests)
    ensures PlanSound(item.original, Pairs(sources, dests, |sources|))
  {
    hide MaxMem, Excludes, PlanSound, NewTargets, Distinct, Pairs;
    var cleared := item.(plan := []);
    var front := dests[..|sources|];
    PairsOfFront(sources, dests, |sources|);
    assert Extended(cleared.plan, sources, front) == Pairs(sources, front, |sources|);
    FrontTargets(Excludes(cleared), dests, |sources|);
    ExtendedSound(cleared, sources, front);
  }

  lemma FrontTargets(excludes: seq<string>, dests: seq<Dest>, n: nat)
    requires NewTargets(excludes, dests) && n <= |dests|
    ensures NewTargets(excludes, dests[..n])
  {
  }

  lemma FreshTarget(sources: seq<Replica>, dests: seq<Dest>, z: string, s: nat)
    requires |sources| <= |dests| && InTarget(dests, z, s)
    ensures MovesTo(Pairs(sources, dests, |sources|), z, s)
    ensures forall r :: r in sources ==> Planned(Pairs(sources, dests, |sources|), r.source)
    ensures forall i :: 0 <= i < |sources| ==> Pairs(sources, dests, |sources|)[i].from in sources
  {
    var moves := Pairs(sources, dests, |sources|);
    forall i | 0 <= i < |sources| ensures moves[i] == Move(sources[i], dests[i]) {
      PairsAt(sources, dests, |sources|, i);
    }
  }

  /** What the planner promises of a partition kept in one node set. */
  ghost predicate KeptInOne(item: Item, plan: seq<Move>) {
    && PlanSound(item.original, plan) && Covers(item.overload, plan)
    && OneTarget(item.original, item.overload, plan)
  }

  /** Moving the overloaded replicas into the node set of the first. */
  lemma OverloadMoves(item: Item, dests: seq<Dest>)
    requires ItemValid(item) && item.overload != [] && |item.overload| == |dests|
    requires InTarget(dests, item.overload[0].zone, item.overload[0].setID)
    requires NewTargets(Excludes(item.(plan := [])), dests)
    ensures KeptInOne(item, Pairs(item.overload, dests, |item.overload|))
  {
    hide PlanSound, InTarget, Excludes, NewTargets, MaxMem, Distinct;
    WholePlan(item, item.overload, dests);
    FreshTarget(item.overload, dests, item.overload[0].zone, item.overload[0].setID);
  }

  /** Moving every replica to another node set. */
  lemma OriginalMoves(item: Item, dests: seq<Dest>, z: string, s: nat)
    requires ItemValid(item) && item.overload != [] && |item.original| <= |dests| && InTarget(dests, z, s)
    requires z != item.overload[0].zone || s != item.overload[0].setID
    requires NewTargets(Excludes(item.(plan := [])), dests)
    ensures KeptInOne(item, Pairs(item.original, dests, |item.original|))
  {
    hide PlanSound, InTarget, Excludes, NewTargets, MaxMem, Distinct;
    WholePlan(item, item.original, dests);
    FreshTarget(item.original, dests, z, s);
  }

  lemma {:induction false} PairsOfFront(sources: seq<Replica>, dests: seq<Dest>, n: nat)
    requires n <= |sources| <= |dests|
    ensures Pairs(sources, dests, n) == Pairs(sources, dests[..|sources|], n)
  {
    if n > 0 {
      PairsOfFront(sources, dests, n - 1);
    }
  }

  // ---------------------------------------------------------------- a planned partition

  /** What the planner promises of the plan it gives to a partition. */
  ghost predicate Finished(item: Item, next: Item) {
    && next == item.(plan := next.plan)
    && if item.crossZone then RetainInv(item, next.plan) && Covers(item.overload, next.plan)
       else KeptInOne(item, next.plan)
  }

  function AllMoves(items: seq<Item>): seq<Move> {
    if items == [] then [] else AllMoves(items[..|items| - 1]) + items[|items| - 1].plan
  }

  lemma {:induction false} InAllMoves(items: seq<Item>, i: nat, m: Move)
    requires i < |items| && m in items[i].plan
    ensures m in AllMoves(items)
  {
    if i < |items| - 1 {
      InAllMoves(items[..|items| - 1], i, m);
    }
  }

  // ---------------------------------------------------------------- carrying out the moves

  datatype Migration = Migrated(hosts: seq<string>) | Refused

  predicate AllDiffer(hosts: seq<string>) { forall i, j :: 0 <= i < j < |hosts| ==> hosts[i] != hosts[j] }

  function Without(hosts: seq<string>, addr: string): seq<string> {
    if hosts == [] then []
    else
      var rest := Without(hosts[..|hosts| - 1], addr);
      if hosts[|hosts| - 1] == addr then rest else rest + [hosts[|hosts| - 1]]
  }

  /** migrateMetaPartition: the source must be one of the hosts, and the target none. */
  function Migrate(hosts: seq<string>, m: Move): Migration {
    if m.from.source !in hosts || m.to.addr in hosts then Refused
    else Migrated(Without(hosts, m.from.source) + [m.to.addr])
  }

  /** The moves of a plan, one after the other. */
  function MigrateAll(hosts: seq<string>, plan: seq<Move>): Migration {
    if plan == [] then Migrated(hosts)
    else
      var before := MigrateAll(hosts, plan[..|plan| - 1]);
      if before.Refused? then Refused else Migrate(before.hosts, plan[|plan| - 1])
  }

  predicate MovesIn(plan: seq<Move>, addr: string) { exists i :: 0 <= i < |plan| && plan[i].to.addr == addr }

  lemma {:induction false} WithoutExact(hosts: seq<string>, addr: string, a: string)
    ensures a in Without(hosts, addr) <==> a in hosts && a != addr
  {
    if hosts != [] {
      WithoutExact(hosts[..|hosts| - 1], addr, a);
      assert hosts == hosts[..|hosts| - 1] + [hosts[|hosts| - 1]];
    }
  }

  lemma {:induction false} WithoutOne(hosts: seq<string>, addr: string)
    requires AllDiffer(hosts)
    ensures AllDiffer(Without(hosts, addr))
    ensures |Without(hosts, addr)| == if addr in hosts then |hosts| - 1 else |hosts|
  {
    if hosts != [] {
      var rest, last := hosts[..|hosts| - 1], hosts[|hosts| - 1];
      WithoutOne(rest, addr);
      assert hosts == rest + [last];
      WithoutExact(rest, addr, last);
    }
  }

  lemma MigrateExact(hosts: seq<string>, m: Move, a: string)
    requires Migrate(hosts, m).Migrated?
    ensures a in Migrate(hosts, m).hosts <==> (a in hosts && a != m.from.source) || a == m.to.addr
  {
    WithoutExact(hosts, m.from.source, a);
  }

  lemma MigrateKeeps(hosts: seq<string>, m: Move)
    requires AllDiffer(hosts) && Migrate(hosts, m).Migrated?
    ensures AllDiffer(Migrate(hosts, m).hosts) && |Migrate(hosts, m).hosts| == |hosts|
  {
    WithoutOne(hosts, m.from.source);
    WithoutExact(hosts, m.from.source, m.to.addr);
  }

  lemma {:induction false} MigrateAllKeeps(hosts: seq<string>, plan: seq<Move>)
    requires AllDiffer(hosts) && MigrateAll(hosts, plan).Migrated?
    ensures AllDiffer(MigrateAll(hosts, plan).hosts) && |MigrateAll(hosts, plan).hosts| == |hosts|
  {
    hide AllDiffer, Migrate;
    if plan != [] {
      var rest := plan[..|plan| - 1];
      MigrateAllKeeps(hosts, rest);
      MigrateKeeps(MigrateAll(hosts, rest).hosts, plan[|plan| - 1]);
    }
  }

  /** Carrying out sound moves takes exactly the planned sources away and adds exactly the destinations. */
  lemma {:induction false} MigrateAllExact(original: seq<Replica>, hosts: seq<string>, plan: seq<Move>, a: string)
    requires PlanSound(original, plan) && MigrateAll(hosts, plan).Migrated?
    ensures a in MigrateAll(hosts, plan).hosts <==> (a in hosts && !Planned(plan, a)) || MovesIn(plan, a)
  {
    hide Migrate;
    if plan != [] {
      var rest, m := plan[..|plan| - 1], plan[|plan| - 1];
      assert plan == rest + [m];
      SoundFront(original, plan);
      MigrateAllExact(original, hosts, rest, a);
      MigrateExact(MigrateAll(hosts, rest).hosts, m, a);
      LastMove(plan, a);
      SourceNoTarget(original, plan, m.from.source);
    }
  }

  lemma LastMove(plan: seq<Move>, a: string)
    requires plan != []
    ensures var rest, m := plan[..|plan| - 1], plan[|plan| - 1];
            && (Planned(plan, a) <==> Planned(rest, a) || a == m.from.source)
            && (MovesIn(plan, a) <==> MovesIn(rest, a) || a == m.to.addr)
  {
    var rest := plan[..|plan| - 1];
    assert forall i :: 0 <= i < |rest| ==> rest[i] == plan[i];
  }

  lemma SoundFront(original: seq<Replica>, plan: seq<Move>)
    requires PlanSound(original, plan) && plan != []
    ensures PlanSound(original, plan[..|plan| - 1])
    ensures !Planned(plan[..|plan| - 1], plan[|plan| - 1].from.source)
    ensures !MovesIn(plan[..|plan| - 1], plan[|plan| - 1].to.addr)
  {
  }

  /** No destination is a source. */
  lemma SourceNoTarget(original: seq<Replica>, plan: seq<Move>, source: string)
    requires PlanSound(original, plan) && Planned(plan, source)
    ensures !MovesIn(plan, source)
  {
    var k :| 0 <= k < |plan| && plan[k].from.source == source;
    assert plan[k].from in original;
  }

  /** The moves leave hosts of the partition for addresses that are none. */
  predicate MovesFit(hosts: seq<string>, plan: seq<Move>) {
    forall i :: 0 <= i < |plan| ==> plan[i].from.source in hosts && plan[i].to.addr !in hosts
  }

  /** Sound moves are all carried out exactly when every source is a host and no destination is. */
  lemma {:induction false} MigratedIff(original: seq<Replica>, hosts: seq<string>, plan: seq<Move>)
    requires PlanSound(original, plan)
    ensures MigrateAll(hosts, plan).Migrated? <==> MovesFit(hosts, plan)
  {
    if plan != [] {
      var rest, m := plan[..|plan| - 1], plan[|plan| - 1];
      assert plan == rest + [m];
      SoundFront(original, plan);
      MigratedIff(original, hosts, rest);
      if MigrateAll(hosts, rest).Migrated? {
        MigrateAllExact(original, hosts, rest, m.from.source);
        MigrateAllExact(original, hosts, rest, m.to.addr);
        SourceNoTarget(original, plan, m.from.source);
        LastMove(plan, m.from.source);
        TargetNotPlanned(original, plan, m.to.addr);
        LastMove(plan, m.to.addr);
      }
      FitFront(hosts, plan);
    }
  }

  lemma FitFront(hosts: seq<string>, plan: seq<Move>)
    requires plan != []
    ensures var rest, m := plan[..|plan| - 1], plan[|plan| - 1];
            MovesFit(hosts, plan) <==> MovesFit(hosts, rest) && m.from.source in hosts && m.to.addr !in hosts
  {
    var rest := plan[..|plan| - 1];
    assert forall i :: 0 <= i < |rest| ==> rest[i] == plan[i];
  }

  lemma TargetNotPlanned(original: seq<Replica>, plan: seq<Move>, addr: string)
    requires PlanSound(original, plan) && MovesIn(plan, addr)
    ensures !Planned(plan, addr)
  {
    if Planned(plan, addr) {
      SourceNoTarget(original, plan, addr);
    }
  }

  /** The item lists a replica at the address. */
  predicate Listed(rs: seq<Replica>, addr: string) { exists i :: 0 <= i < |rs| && rs[i].source == addr }

  /**
  A plan made from the reported replicas, carried out over the partition's hosts: it goes through exactly when the moved
  replicas are hosts and no destination is a host that has not been reported. Then the hosts keep their number, are all
  different, and none of the overloaded ones is left.
  */
  lemma FinishedHosts(item: Item, next: Item, hosts: seq<string>)
    requires ItemValid(item) && Finished(item, next) && AllDiffer(hosts)
    ensures MigrateAll(hosts, next.plan).Migrated? <==>
              forall i :: 0 <= i < |next.plan| ==>
                && next.plan[i].from.source in hosts
                && !(next.plan[i].to.addr in hosts && !Listed(item.original, next.plan[i].to.addr))
    ensures MigrateAll(hosts, next.plan).Migrated? ==>
              var after := MigrateAll(hosts, next.plan).hosts;
              && |after| == |hosts| && AllDiffer(after)
              && forall r :: r in item.overload ==> r.source !in after
  {
    hide MaxMem, Together, ZoneKept, SetsWhole, OneTarget, MigrateAll, AllDiffer, Distinct;
    var plan := next.plan;
    MigratedIff(item.original, hosts, plan);
    forall i | 0 <= i < |plan| ensures !Listed(item.original, plan[i].to.addr) {
    }
    if MigrateAll(hosts, plan).Migrated? {
      MigrateAllKeeps(hosts, plan);
      forall r | r in item.overload ensures r.source !in MigrateAll(hosts, plan).hosts {
        MigrateAllExact(item.original, hosts, plan, r.source);
        SourceNoTarget(item.original, plan, r.source);
      }
    }
  }

  /** When every host has been reported, and nothing else has, the plan goes through. */
  lemma ReportedHosts(item: Item, next: Item, hosts: seq<string>)
    requires ItemValid(item) && Finished(item, next) && AllDiffer(hosts)
    requires forall a :: a in hosts <==> Listed(item.original, a)
    ensures MigrateAll(hosts, next.plan).Migrated?
  {
    hide MaxMem, Together, ZoneKept, SetsWhole, OneTarget, MigrateAll, AllDiffer, Distinct;
    FinishedHosts(item, next, hosts);
    assert PlanSound(item.original, next.plan);
    forall i | 0 <= i < |next.plan| ensures next.plan[i].from.source in hosts {
      assert next.plan[i].from in item.original;
    }
  }
}
