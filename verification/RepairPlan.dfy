/**
The repair planner of a data partition leader: from the extents that every replica reports it derives, for each
replica, what to create and what to repair; and the effect of carrying the plan out.
*/
module RepairPlan {

  const EXTENT_SIZE := 134217728
  const TINY_START := 1
  const TINY_COUNT := 64

  predicate IsTiny(id: nat) { TINY_START <= id < TINY_START + TINY_COUNT }

  /** What a replica reports about one extent. */
  datatype ExtentInfo = ExtentInfo(size: nat, snapshotOff: nat, isDeleted: bool)

  /** The size including the part of a snapshot region, which starts after the normal extent size. */
  function TotalSize(e: ExtentInfo): nat {
    if e.snapshotOff > EXTENT_SIZE then e.size + (e.snapshotOff - EXTENT_SIZE) else e.size
  }

  /** An entry of a create or repair list: the extent, the size to reach, and the replica to read from. */
  datatype Fix = Fix(id: nat, size: nat, snapshotOff: nat, source: nat)

  /** The task of one replica; a replica that did not reply has none. */
  datatype Task =
    | NoTask
    | Task(extents: map<nat, ExtentInfo>, toCreate: seq<Fix>, toRepair: seq<Fix>)

  // ---------------------------------------------------------------- what the plan should be

  predicate Reports(tasks: seq<Task>, i: nat, id: nat) {
    i < |tasks| && tasks[i].Task? && id in tasks[i].extents
  }

  predicate Live(tasks: seq<Task>, i: nat, id: nat) {
    Reports(tasks, i, id) && !tasks[i].extents[id].isDeleted
  }

  function Total(tasks: seq<Task>, i: nat, id: nat): nat
    requires Reports(tasks, i, id)
  {
    TotalSize(tasks[i].extents[id])
  }

  /** Among the first `n` replicas, `w` is the lowest-indexed of those that hold the most of the extent. */
  ghost predicate IsBest(tasks: seq<Task>, n: nat, id: nat, w: nat) {
    && w < n && Live(tasks, w, id)
    && (forall i: nat :: i < n && Live(tasks, i, id) ==> Total(tasks, i, id) <= Total(tasks, w, id))
    && (forall i: nat :: i < w && Live(tasks, i, id) ==> Total(tasks, i, id) < Total(tasks, w, id))
  }

  /** One of the first `n` replicas reports the extent as deleted. */
  ghost predicate FlaggedDeleted(tasks: seq<Task>, n: nat, id: nat) {
    exists i: nat :: i < n && Reports(tasks, i, id) && tasks[i].extents[id].isDeleted
  }

  function FixFrom(tasks: seq<Task>, id: nat, w: nat): Fix
    requires Reports(tasks, w, id)
  {
    Fix(id, tasks[w].extents[id].size, tasks[w].extents[id].snapshotOff, w)
  }

  /** Replica `i` lacks a normal extent that another replica holds, and nobody knows the extent to be deleted. */
  ghost predicate MustCreate(tasks: seq<Task>, deleted: set<nat>, i: nat, id: nat) {
    && i < |tasks| && tasks[i].Task? && id !in tasks[i].extents
    && !IsTiny(id) && id !in deleted && !FlaggedDeleted(tasks, |tasks|, id)
    && exists w: nat :: Live(tasks, w, id)
  }

  /** Replica `i` holds less of the extent than another replica. */
  ghost predicate MustRepair(tasks: seq<Task>, deleted: set<nat>, i: nat, id: nat) {
    && Live(tasks, i, id) && id !in deleted
    && exists w: nat :: Live(tasks, w, id) && Total(tasks, i, id) < Total(tasks, w, id)
  }

  function IdsOf(list: seq<Fix>): set<nat> { set f | f in list :: f.id }

  /** Every entry is for a different extent and names the size and the source of the best replica. */
  ghost predicate FromBest(tasks: seq<Task>, list: seq<Fix>) {
    && |list| == |IdsOf(list)|
    && forall f :: f in list ==> IsBest(tasks, |tasks|, f.id, f.source) && f == FixFrom(tasks, f.id, f.source)
  }

  function Max(a: nat, b: nat): nat { if a < b then b else a }

  /** Replica `w` holds no less than replica `i`, of the two regions, which meet at 128 MiB, taken together. */
  ghost predicate HoldsNoLess(tasks: seq<Task>, id: nat, w: nat, i: nat) {
    && Live(tasks, w, id) && Live(tasks, i, id)
    && var a, b := tasks[i].extents[id], tasks[w].extents[id];
       a.size + Max(a.snapshotOff, 134217728) <= b.size + Max(b.snapshotOff, 134217728)
  }

  lemma BestHoldsMost(tasks: seq<Task>, id: nat, w: nat, i: nat)
    requires IsBest(tasks, |tasks|, id, w) && Live(tasks, i, id)
    ensures HoldsNoLess(tasks, id, w, i)
  {
    assert Total(tasks, i, id) <= Total(tasks, w, id);
  }

  // ---------------------------------------------------------------- choosing the source of each extent

  /** The choice recorded for `id` is right for the first `n` replicas. */
  ghost predicate ChosenFor(tasks: seq<Task>, n: nat, best: map<nat, nat>, id: nat) {
    && (id in best ==> IsBest(tasks, n, id, best[id]))
    && (id !in best ==> forall i: nat :: i < n ==> !Live(tasks, i, id))
  }

  ghost predicate FlaggedIn(tasks: seq<Task>, n: nat, flagged: set<nat>, id: nat) {
    id in flagged <==> FlaggedDeleted(tasks, n, id)
  }

  /** What one reported extent does to the two maps. */
  lemma JudgedExtent(tasks: seq<Task>, n: nat, next: nat, best: map<nat, nat>, flagged: set<nat>, id: nat)
    requires ChosenFor(tasks, n, best, id) && FlaggedIn(tasks, n, flagged, id)
    requires next == n + 1 && Reports(tasks, n, id)
    ensures id in best ==> Reports(tasks, best[id], id)
    ensures
      if tasks[n].extents[id].isDeleted then
        ChosenFor(tasks, next, best, id) && FlaggedIn(tasks, next, flagged + {id}, id)
      else
        && FlaggedIn(tasks, next, flagged, id)
        && (id !in best || Total(tasks, n, id) > Total(tasks, best[id], id) ==>
              ChosenFor(tasks, next, best[id := n], id))
        && (!(id !in best || Total(tasks, n, id) > Total(tasks, best[id], id)) ==> ChosenFor(tasks, next, best, id))
  {
  }

  /** A replica that says nothing about an extent changes nothing for it. */
  lemma SilentReplica(tasks: seq<Task>, n: nat, next: nat, best: map<nat, nat>, flagged: set<nat>, id: nat)
    requires ChosenFor(tasks, n, best, id) && FlaggedIn(tasks, n, flagged, id)
    requires next == n + 1 && !Reports(tasks, n, id)
    ensures ChosenFor(tasks, next, best, id) && FlaggedIn(tasks, next, flagged, id)
  {
  }

  class RepairRound {
    var tasks: seq<Task>
    /** Extents in the leader's own cache of deleted normal extents. */
    const deleted: set<nat>

    constructor (reported: seq<Task>, deleted: set<nat>)
      ensures tasks == reported && this.deleted == deleted
    {
      tasks := reported;
      this.deleted := deleted;
    }

    /** The first loop of prepareRepairTasks. A map is walked in no particular order. */
    method ChooseBest() returns (best: map<nat, nat>, flagged: set<nat>)
      ensures forall id :: ChosenFor(tasks, |tasks|, best, id)
      ensures forall id :: FlaggedIn(tasks, |tasks|, flagged, id)
      ensures forall id, i: nat :: id in best && Live(tasks, i, id) ==> HoldsNoLess(tasks, id, best[id], i)
    {
      best, flagged := map[], {};
      var n := 0;
      while n < |tasks|
        invariant n <= |tasks|
        invariant forall id :: ChosenFor(tasks, n, best, id)
        invariant forall id :: FlaggedIn(tasks, n, flagged, id)
      {
        if tasks[n].Task? {
          best, flagged := CompareExtents(n, n + 1, best, flagged);
        } else {
          ghost var next := n + 1;
          forall id: nat ensures ChosenFor(tasks, next, best, id) { SilentReplica(tasks, n, next, best, flagged, id); }
          forall id: nat ensures FlaggedIn(tasks, next, flagged, id) {
            SilentReplica(tasks, n, next, best, flagged, id);
          }
        }
        n := n + 1;
      }
      forall id, i: nat | id in best && Live(tasks, i, id)
        ensures HoldsNoLess(tasks, id, best[id], i)
      {
        assert ChosenFor(tasks, |tasks|, best, id);
        BestHoldsMost(tasks, id, best[id], i);
      }
    }

    method CompareExtents(n: nat, next: nat, best0: map<nat, nat>, flagged0: set<nat>)
      returns (best: map<nat, nat>, flagged: set<nat>)
      requires n < |tasks| && tasks[n].Task? && next == n + 1
      requires forall id :: ChosenFor(tasks, n, best0, id)
      requires forall id :: FlaggedIn(tasks, n, flagged0, id)
      ensures forall id :: ChosenFor(tasks, next, best, id)
      ensures forall id :: FlaggedIn(tasks, next, flagged, id)
    {
      best, flagged := best0, flagged0;
      var todo := tasks[n].extents.Keys;
      forall id: nat | id !in todo ensures ChosenFor(tasks, next, best, id) {
        SilentReplica(tasks, n, next, best, flagged, id);
      }
      forall id: nat | id !in todo ensures FlaggedIn(tasks, next, flagged, id) {
        SilentReplica(tasks, n, next, best, flagged, id);
      }
      while todo != {}
        invariant todo <= tasks[n].extents.Keys
        invariant forall id :: id in todo ==> ChosenFor(tasks, n, best, id)
        invariant forall id :: id in todo ==> FlaggedIn(tasks, n, flagged, id)
        invariant forall id :: id !in todo ==> ChosenFor(tasks, next, best, id)
        invariant forall id :: id !in todo ==> FlaggedIn(tasks, next, flagged, id)
        decreases todo
      {
        var id :| id in todo;
        todo := todo - {id};
        JudgedExtent(tasks, n, next, best, flagged, id);
        if tasks[n].extents[id].isDeleted {
          flagged := flagged + {id};
        } else if id !in best || Total(tasks, n, id) > Total(tasks, best[id], id) {
          best := best[id := n];
        }
      }
    }

    /** The second loop: the entry that the map of best extents points to is shared with its replica's own task. */
    method MarkDeleted(best: map<nat, nat>, flagged: set<nat>)
      requires forall id :: id in best ==> Reports(tasks, best[id], id)
      modifies this
      ensures Marked(old(tasks), tasks, best, flagged)
    {
      var todo := flagged;
      ghost var done := {};
      while todo != {}
        invariant todo <= flagged && done == flagged - todo && Marked(old(tasks), tasks, best, done)
        decreases todo
      {
        var id :| id in todo;
        DoneOneMore(flagged, todo, id);
        MarkedOneMore(old(tasks), tasks, best, done, id);
        if id in best {
          var w := best[id];
          var e := tasks[w].extents[id].(isDeleted := true);
          tasks := tasks[w := tasks[w].(extents := tasks[w].extents[id := e])];
        }
        todo := todo - {id};
        done := done + {id};
      }
      NothingToDo(flagged);
    }

    /** Adds an extent to both lists of every replica that lacks it. */
    method CreateEverywhere(f: Fix)
      modifies this
      ensures |tasks| == |old(tasks)| && forall i :: 0 <= i < |tasks| ==> tasks[i] == WithCreate(old(tasks)[i], f)
    {
      for index := 0 to |tasks|
        invariant |tasks| == |old(tasks)|
        invariant forall i :: 0 <= i < index ==> tasks[i] == WithCreate(old(tasks)[i], f)
        invariant forall i :: index <= i < |tasks| ==> tasks[i] == old(tasks)[i]
      {
        var t := tasks[index];
        if t.Task? && f.id !in t.extents {
          tasks := tasks[index := t.(toCreate := t.toCreate + [f], toRepair := t.toRepair + [f])];
        }
      }
    }

    /** buildExtentCreationTasks. */
    method BuildCreationTasks(best: map<nat, nat>)
      requires forall id :: id in best ==> Reports(tasks, best[id], id)
      requires Created(tasks, tasks, map[], {})
      modifies this
      ensures Created(old(tasks), tasks, Fixes(old(tasks), best), ToCreate(old(tasks), deleted, best))
    {
      ghost var orig, fixes := tasks, Fixes(tasks, best);
      ghost var wanted := ToCreate(tasks, deleted, best);
      var todo := best.Keys;
      NothingCreated(tasks, fixes);
      ghost var done := {};
      while todo != {}
        invariant todo <= best.Keys && done == wanted - todo
        invariant Created(orig, tasks, fixes, done)
        decreases todo
      {
        var id :| id in todo;
        var w := best[id];
        CreatedKeepsExtents(orig, tasks, fixes, done, w);
        assert Reports(orig, w, id);
        assert id in wanted <==> !IsTiny(id) && id !in deleted && Live(orig, w, id);
        if !IsTiny(id) && !tasks[w].extents[id].isDeleted && id !in deleted {
          var f := FixFrom(tasks, id, w);
          ghost var before := tasks;
          CreateEverywhere(f);
          CreatedEverywhere(orig, before, tasks, fixes, done, f);
          done := done + {id};
        }
        DoneOneMore(wanted, todo, id);
        todo := todo - {id};
      }
      NothingToDo(wanted);
    }

    /** Adds an extent to the repair list of every replica that holds less of it. */
    method RepairEverywhere(f: Fix) returns (clean: bool)
      modifies this
      ensures |tasks| == |old(tasks)| && forall i :: 0 <= i < |tasks| ==> tasks[i] == WithRepair(old(tasks)[i], f)
      ensures clean <==> forall i :: 0 <= i < |tasks| ==> !Short(old(tasks)[i], f)
    {
      clean := true;
      for index := 0 to |tasks|
        invariant |tasks| == |old(tasks)|
        invariant forall i :: 0 <= i < index ==> tasks[i] == WithRepair(old(tasks)[i], f)
        invariant forall i :: index <= i < |tasks| ==> tasks[i] == old(tasks)[i]
        invariant clean <==> forall i :: 0 <= i < index ==> !Short(old(tasks)[i], f)
      {
        var t := tasks[index];
        if t.Task? && f.id in t.extents && !t.extents[f.id].isDeleted && TotalSize(t.extents[f.id]) < FixTotal(f) {
          tasks := tasks[index := t.(toRepair := t.toRepair + [f])];
          clean := false;
        }
      }
    }

    /** One extent of buildExtentRepairTasks. */
    method RepairExtent(best: map<nat, nat>, ghost orig: seq<Task>, ghost created: set<nat>, ghost seen: set<nat>,
                        id: nat)
      returns (clean: bool)
      requires forall id :: id in best ==> Reports(orig, best[id], id)
      requires Repaired(orig, tasks, Fixes(orig, best), created, seen - deleted) && id in best && id !in seen
      modifies this
      ensures Repaired(orig, tasks, Fixes(orig, best), created, (seen + {id}) - deleted)
      ensures clean <==> AllAlike(orig, Fixes(orig, best), deleted, id)
    {
      ghost var fixes := Fixes(orig, best);
      DoneBut(seen, deleted, id);
      RepairedKeepsExtents(orig, tasks, fixes, created, seen - deleted, best[id]);
      assert Reports(orig, best[id], id);
      var f := FixFrom(tasks, id, best[id]);
      clean := true;
      if id !in deleted {
        ghost var before := tasks;
        SameShort(orig, before, fixes, created, seen - deleted, f);
        clean := RepairEverywhere(f);
        RepairedEverywhere(orig, before, tasks, fixes, created, seen - deleted, f);
      }
    }

    /** buildExtentRepairTasks: fills the repair lists and sorts the tiny extents into those that all replicas hold
        alike and those that need another round. */
    method BuildRepairTasks(best: map<nat, nat>, ghost orig: seq<Task>, ghost created: set<nat>)
      returns (available: seq<nat>, broken: seq<nat>)
      requires forall id :: id in best ==> Reports(orig, best[id], id)
      requires Created(orig, tasks, Fixes(orig, best), created)
      modifies this
      ensures Repaired(orig, tasks, Fixes(orig, best), created, best.Keys - deleted)
      ensures SortedTiny(orig, Fixes(orig, best), deleted, best.Keys, available, broken)
    {
      available, broken := [], [];
      ghost var fixes := Fixes(orig, best);
      NothingRepaired(orig, tasks, fixes, created);
      var todo := best.Keys;
      ghost var seen := {};
      assert seen - deleted == {};
      while todo != {}
        invariant todo <= best.Keys && seen == best.Keys - todo
        invariant Repaired(orig, tasks, fixes, created, seen - deleted)
        invariant SortedTiny(orig, fixes, deleted, seen, available, broken)
        decreases todo
      {
        var id :| id in todo;
        DoneOneMore(best.Keys, todo, id);
        var clean := RepairExtent(best, orig, created, seen, id);
        SortedOneMore(orig, fixes, deleted, seen, available, broken, id, clean);
        if IsTiny(id) {
          if clean {
            available := available + [id];
          } else {
            broken := broken + [id];
          }
        }
        todo := todo - {id};
        seen := seen + {id};
      }
      NothingToDo(best.Keys);
    }

    /** prepareRepairTasks: the whole plan, in terms of what the replicas reported. */
    method PrepareRepairTasks() returns (available: seq<nat>, broken: seq<nat>)
      requires forall t :: t in tasks && t.Task? ==> t.toCreate == [] && t.toRepair == []
      modifies this
      ensures |tasks| == |old(tasks)|
      ensures forall i :: 0 <= i < |tasks| ==> ExactPlan(old(tasks), deleted, i, tasks[i])
      ensures |available| == |ElementsOf(available)| && |broken| == |ElementsOf(broken)|
      ensures forall id :: id in available <==> 1 <= id <= 64 && HeldAlike(old(tasks), deleted, id)
      ensures forall id :: id in broken <==>
                             1 <= id <= 64 && Held(old(tasks), id) && !HeldAlike(old(tasks), deleted, id)
    {
      ghost var reported := tasks;
      var best, flagged := ChooseBest();
      forall id | id in best ensures Reports(tasks, best[id], id) {
        assert ChosenFor(tasks, |tasks|, best, id);
      }
      MarkDeleted(best, flagged);
      ghost var marked := tasks;
      forall id | id in best ensures Reports(marked, best[id], id) {
        MarkedReports(reported, marked, best, flagged, id);
      }
      EmptyLists(reported, marked, best, flagged);
      BuildCreationTasks(best);
      ghost var created := ToCreate(marked, deleted, best);
      available, broken := BuildRepairTasks(best, marked, created);
      forall i | 0 <= i < |tasks| ensures ExactPlan(reported, deleted, i, tasks[i]) {
        PlanIsExact(reported, marked, best, flagged, deleted, tasks, i);
      }
      forall id: nat
        ensures id in best <==> Held(reported, id)
        ensures id in best ==>
                  (AllAlike(marked, Fixes(marked, best), deleted, id) <==> HeldAlike(reported, deleted, id))
      {
        AlikeIsExact(reported, marked, best, flagged, deleted, id);
      }
    }
  }

  /** Some replica holds the extent. */
  ghost predicate Held(tasks: seq<Task>, id: nat) { exists w: nat :: Live(tasks, w, id) }

  /** Some replica holds the extent, and no replica has to repair it. */
  ghost predicate HeldAlike(tasks: seq<Task>, deleted: set<nat>, id: nat) {
    Held(tasks, id) && forall i: nat :: !MustRepair(tasks, deleted, i, id)
  }

  /** The task of replica `i` is exactly what the reports call for. */
  ghost predicate ExactPlan(tasks: seq<Task>, deleted: set<nat>, i: nat, planned: Task)
    requires i < |tasks|
  {
    match tasks[i]
    case NoTask => planned.NoTask?
    case Task(_, _, _) =>
      && planned.Task?
      && (forall id :: id in IdsOf(planned.toCreate) <==> MustCreate(tasks, deleted, i, id))
      && (forall id :: id in IdsOf(planned.toRepair) <==>
            MustCreate(tasks, deleted, i, id) || MustRepair(tasks, deleted, i, id))
      && FromBest(tasks, planned.toCreate) && FromBest(tasks, planned.toRepair)
  }

  // ---------------------------------------------------------------- from the marked copy back to the reports

  lemma MarkedReports(tasks: seq<Task>, marked: seq<Task>, best: map<nat, nat>, flagged: set<nat>, id: nat)
    requires Marked(tasks, marked, best, flagged) && ChosenFor(tasks, |tasks|, best, id) && id in best
    ensures Reports(marked, best[id], id) && FixFrom(marked, id, best[id]) == FixFrom(tasks, id, best[id])
    ensures Live(marked, best[id], id) <==> id !in flagged
  {
    assert MarkedTask(tasks[best[id]], marked[best[id]], best[id], best, flagged);
  }

  lemma EmptyLists(tasks: seq<Task>, marked: seq<Task>, best: map<nat, nat>, flagged: set<nat>)
    requires Marked(tasks, marked, best, flagged)
    requires forall t :: t in tasks && t.Task? ==> t.toCreate == [] && t.toRepair == []
    ensures Created(marked, marked, map[], {})
  {
    forall i | 0 <= i < |marked| ensures CreatedTask(marked[i], marked[i], map[], {}) {
      assert MarkedTask(tasks[i], marked[i], i, best, flagged) && tasks[i] in tasks;
      if marked[i].Task? {
        assert {} - marked[i].extents.Keys == {};
        assert IdsOf([]) == {};
      }
    }
  }

  /** Being short in the marked copy is having to repair: the flag only ever hides the best entry itself. */
  lemma ShortIsRepair(tasks: seq<Task>, marked: seq<Task>, best: map<nat, nat>, flagged: set<nat>, deleted: set<nat>,
                      i: nat, id: nat)
    requires Marked(tasks, marked, best, flagged) && ChosenFor(tasks, |tasks|, best, id) && id in best && i < |tasks|
    requires Reports(marked, best[id], id)
    ensures id !in deleted && Short(marked[i], FixFrom(marked, id, best[id])) <==> MustRepair(tasks, deleted, i, id)
  {
    MarkedReports(tasks, marked, best, flagged, id);
    assert MarkedTask(tasks[i], marked[i], i, best, flagged);
    var w := best[id];
    assert FixTotal(FixFrom(tasks, id, w)) == Total(tasks, w, id);
    if MustRepair(tasks, deleted, i, id) {
      var v: nat :| Live(tasks, v, id) && Total(tasks, i, id) < Total(tasks, v, id);
      assert Total(tasks, v, id) <= Total(tasks, w, id);
    }
  }

  lemma ListIsFromBest(tasks: seq<Task>, marked: seq<Task>, best: map<nat, nat>, flagged: set<nat>, list: seq<Fix>,
                       ids: set<nat>)
    requires Marked(tasks, marked, best, flagged) && forall id :: ChosenFor(tasks, |tasks|, best, id)
    requires forall id :: id in best ==> Reports(marked, best[id], id)
    requires Lists(list, ids, Fixes(marked, best))
    ensures FromBest(tasks, list)
  {
    forall f | f in list ensures IsBest(tasks, |tasks|, f.id, f.source) && f == FixFrom(tasks, f.id, f.source) {
      assert f.id in best && ChosenFor(tasks, |tasks|, best, f.id);
      MarkedReports(tasks, marked, best, flagged, f.id);
    }
  }

  lemma PlanIsExact(tasks: seq<Task>, marked: seq<Task>, best: map<nat, nat>, flagged: set<nat>, deleted: set<nat>,
                    planned: seq<Task>, i: nat)
    requires Marked(tasks, marked, best, flagged) && i < |tasks|
    requires forall id :: ChosenFor(tasks, |tasks|, best, id)
    requires forall id :: FlaggedIn(tasks, |tasks|, flagged, id)
    requires forall id :: id in best ==> Reports(marked, best[id], id)
    requires Repaired(marked, planned, Fixes(marked, best), ToCreate(marked, deleted, best), best.Keys - deleted)
    ensures ExactPlan(tasks, deleted, i, planned[i])
  {
    var fixes, created := Fixes(marked, best), ToCreate(marked, deleted, best);
    assert MarkedTask(tasks[i], marked[i], i, best, flagged);
    assert RepairedTask(marked[i], planned[i], fixes, created, best.Keys - deleted);
    if tasks[i].Task? {
      ListIsFromBest(tasks, marked, best, flagged, planned[i].toCreate, created - marked[i].extents.Keys);
      ListIsFromBest(tasks, marked, best, flagged, planned[i].toRepair,
                     (created - marked[i].extents.Keys) + ShortIds(marked[i], fixes, best.Keys - deleted));
      forall id: nat
        ensures id in created - marked[i].extents.Keys <==> MustCreate(tasks, deleted, i, id)
        ensures id in ShortIds(marked[i], fixes, best.Keys - deleted) <==> MustRepair(tasks, deleted, i, id)
      {
        PlannedOne(tasks, marked, best, flagged, deleted, i, id);
      }
    }
  }

  lemma PlannedOne(tasks: seq<Task>, marked: seq<Task>, best: map<nat, nat>, flagged: set<nat>, deleted: set<nat>,
                   i: nat, id: nat)
    requires Marked(tasks, marked, best, flagged) && i < |tasks| && tasks[i].Task? && marked[i].Task?
    requires ChosenFor(tasks, |tasks|, best, id) && FlaggedIn(tasks, |tasks|, flagged, id)
    requires forall id :: id in best ==> Reports(marked, best[id], id)
    ensures id in ToCreate(marked, deleted, best) - marked[i].extents.Keys <==> MustCreate(tasks, deleted, i, id)
    ensures id in ShortIds(marked[i], Fixes(marked, best), best.Keys - deleted) <==> MustRepair(tasks, deleted, i, id)
  {
    assert MarkedTask(tasks[i], marked[i], i, best, flagged);
    if id in best {
      MarkedReports(tasks, marked, best, flagged, id);
      ShortIsRepair(tasks, marked, best, flagged, deleted, i, id);
    }
  }

  lemma AlikeIsExact(tasks: seq<Task>, marked: seq<Task>, best: map<nat, nat>, flagged: set<nat>, deleted: set<nat>,
                     id: nat)
    requires Marked(tasks, marked, best, flagged) && ChosenFor(tasks, |tasks|, best, id)
    requires forall id :: id in best ==> Reports(marked, best[id], id)
    ensures id in best <==> Held(tasks, id)
    ensures id in best ==> (AllAlike(marked, Fixes(marked, best), deleted, id) <==> HeldAlike(tasks, deleted, id))
  {
    if id in best {
      assert Live(tasks, best[id], id);
      forall i: nat | i < |tasks|
        ensures id !in deleted && Short(marked[i], Fixes(marked, best)[id]) <==> MustRepair(tasks, deleted, i, id)
      {
        ShortIsRepair(tasks, marked, best, flagged, deleted, i, id);
      }
    }
  }

  // ---------------------------------------------------------------- the repair lists

  function FixTotal(f: Fix): nat { TotalSize(ExtentInfo(f.size, f.snapshotOff, false)) }

  predicate Short(t: Task, f: Fix) {
    t.Task? && f.id in t.extents && !t.extents[f.id].isDeleted && TotalSize(t.extents[f.id]) < FixTotal(f)
  }

  function WithRepair(t: Task, f: Fix): Task {
    if Short(t, f) then t.(toRepair := t.toRepair + [f]) else t
  }

  ghost function ShortIds(t: Task, fixes: map<nat, Fix>, done: set<nat>): set<nat> {
    set id | id in done && id in fixes && Short(t, fixes[id])
  }

  ghost predicate RepairedTask(m: Task, now: Task, fixes: map<nat, Fix>, created: set<nat>, done: set<nat>) {
    match m
    case NoTask => now.NoTask?
    case Task(extents, _, _) =>
      && now.Task? && now.extents == extents
      && Lists(now.toCreate, created - extents.Keys, fixes)
      && Lists(now.toRepair, (created - extents.Keys) + ShortIds(m, fixes, done), fixes)
  }

  ghost predicate Repaired(orig: seq<Task>, now: seq<Task>, fixes: map<nat, Fix>, created: set<nat>, done: set<nat>) {
    |now| == |orig| && forall i :: 0 <= i < |orig| ==> RepairedTask(orig[i], now[i], fixes, created, done)
  }

  lemma NothingRepaired(orig: seq<Task>, now: seq<Task>, fixes: map<nat, Fix>, created: set<nat>)
    requires Created(orig, now, fixes, created)
    ensures Repaired(orig, now, fixes, created, {})
  {
    forall i | 0 <= i < |orig| ensures RepairedTask(orig[i], now[i], fixes, created, {}) {
      assert CreatedTask(orig[i], now[i], fixes, created);
      if orig[i].Task? {
        assert (created - orig[i].extents.Keys) + ShortIds(orig[i], fixes, {}) == created - orig[i].extents.Keys;
      }
    }
  }

  lemma RepairedKeepsExtents(orig: seq<Task>, now: seq<Task>, fixes: map<nat, Fix>, created: set<nat>, done: set<nat>,
                             i: nat)
    requires Repaired(orig, now, fixes, created, done) && i < |orig|
    ensures i < |now| && now[i].Task? == orig[i].Task? && (orig[i].Task? ==> now[i].extents == orig[i].extents)
  {
    assert RepairedTask(orig[i], now[i], fixes, created, done);
  }

  lemma SameShort(orig: seq<Task>, now: seq<Task>, fixes: map<nat, Fix>, created: set<nat>, done: set<nat>, f: Fix)
    requires Repaired(orig, now, fixes, created, done)
    ensures (forall i :: 0 <= i < |now| ==> !Short(now[i], f)) <==> (forall i :: 0 <= i < |orig| ==> !Short(orig[i], f))
  {
    forall i | 0 <= i < |orig| ensures Short(now[i], f) == Short(orig[i], f) {
      RepairedKeepsExtents(orig, now, fixes, created, done, i);
    }
  }

  lemma RepairedOneMore(m: Task, now: Task, fixes: map<nat, Fix>, created: set<nat>, done: set<nat>, f: Fix)
    requires RepairedTask(m, now, fixes, created, done) && f.id !in done && f.id in fixes && f == fixes[f.id]
    ensures RepairedTask(m, WithRepair(now, f), fixes, created, done + {f.id})
  {
    if now.Task? {
      var ids := created - m.extents.Keys;
      ShortOneMore(m, fixes, done, f);
      if Short(m, f) {
        SetAssoc(ids, ShortIds(m, fixes, done), f.id);
        ListsOneMore(now.toRepair, ids + ShortIds(m, fixes, done), fixes, f);
      }
    }
  }

  lemma ShortOneMore(m: Task, fixes: map<nat, Fix>, done: set<nat>, f: Fix)
    requires f.id in fixes && f == fixes[f.id]
    ensures ShortIds(m, fixes, done + {f.id}) ==
      if Short(m, f) then ShortIds(m, fixes, done) + {f.id} else ShortIds(m, fixes, done)
  {
  }

  lemma SetAssoc(a: set<nat>, b: set<nat>, x: nat)
    ensures a + (b + {x}) == (a + b) + {x}
  {
  }

  lemma RepairedEverywhere(orig: seq<Task>, now: seq<Task>, now': seq<Task>, fixes: map<nat, Fix>, created: set<nat>,
                           done: set<nat>, f: Fix)
    requires Repaired(orig, now, fixes, created, done) && f.id !in done && f.id in fixes && f == fixes[f.id]
    requires |now'| == |now| && forall i :: 0 <= i < |now| ==> now'[i] == WithRepair(now[i], f)
    ensures Repaired(orig, now', fixes, created, done + {f.id})
  {
    forall i | 0 <= i < |orig| ensures RepairedTask(orig[i], now'[i], fixes, created, done + {f.id}) {
      RepairedOneMore(orig[i], now[i], fixes, created, done, f);
    }
  }

  lemma DoneBut(seen: set<nat>, deleted: set<nat>, id: nat)
    ensures (seen + {id}) - deleted == if id in deleted then seen - deleted else (seen - deleted) + {id}
  {
  }

  // ---------------------------------------------------------------- tiny extents

  function ElementsOf(list: seq<nat>): set<nat> { set x | x in list }

  /** No replica holds less of the extent than the best one does. */
  ghost predicate AllAlike(tasks: seq<Task>, fixes: map<nat, Fix>, deleted: set<nat>, id: nat) {
    id in fixes && (id in deleted || forall i :: 0 <= i < |tasks| ==> !Short(tasks[i], fixes[id]))
  }

  ghost predicate SortedTiny(tasks: seq<Task>, fixes: map<nat, Fix>, deleted: set<nat>, seen: set<nat>,
                             available: seq<nat>, broken: seq<nat>)
  {
    && |available| == |ElementsOf(available)| && |broken| == |ElementsOf(broken)|
    && (forall id :: id in available <==> id in seen && IsTiny(id) && AllAlike(tasks, fixes, deleted, id))
    && (forall id :: id in broken <==> id in seen && IsTiny(id) && !AllAlike(tasks, fixes, deleted, id))
  }

  lemma SortedOneMore(tasks: seq<Task>, fixes: map<nat, Fix>, deleted: set<nat>, seen: set<nat>,
                      available: seq<nat>, broken: seq<nat>, id: nat, clean: bool)
    requires SortedTiny(tasks, fixes, deleted, seen, available, broken) && id !in seen
    requires clean <==> AllAlike(tasks, fixes, deleted, id)
    ensures IsTiny(id) && clean ==> SortedTiny(tasks, fixes, deleted, seen + {id}, available + [id], broken)
    ensures IsTiny(id) && !clean ==> SortedTiny(tasks, fixes, deleted, seen + {id}, available, broken + [id])
    ensures !IsTiny(id) ==> SortedTiny(tasks, fixes, deleted, seen + {id}, available, broken)
  {
    hide AllAlike;
    assert ElementsOf(available + [id]) == ElementsOf(available) + {id};
    assert ElementsOf(broken + [id]) == ElementsOf(broken) + {id};
  }

  lemma DoneOneMore(wanted: set<nat>, todo: set<nat>, id: nat)
    requires id in todo
    ensures wanted - (todo - {id}) == if id in wanted then (wanted - todo) + {id} else wanted - todo
  {
  }

  lemma NothingToDo(wanted: set<nat>)
    ensures wanted - {} == wanted
  {
  }

  lemma CreatedKeepsExtents(orig: seq<Task>, now: seq<Task>, fixes: map<nat, Fix>, done: set<nat>, i: nat)
    requires Created(orig, now, fixes, done) && i < |orig|
    ensures i < |now| && now[i].Task? == orig[i].Task? && (orig[i].Task? ==> now[i].extents == orig[i].extents)
  {
    assert CreatedTask(orig[i], now[i], fixes, done);
  }

  /** The entry for each extent that some replica holds. */
  ghost function Fixes(tasks: seq<Task>, best: map<nat, nat>): map<nat, Fix>
    requires forall id :: id in best ==> Reports(tasks, best[id], id)
  {
    map id | id in best :: FixFrom(tasks, id, best[id])
  }

  /** The extents that are created wherever they are missing. */
  ghost function ToCreate(tasks: seq<Task>, deleted: set<nat>, best: map<nat, nat>): set<nat>
    requires forall id :: id in best ==> Reports(tasks, best[id], id)
  {
    set id | id in best && !IsTiny(id) && id !in deleted && Live(tasks, best[id], id)
  }

  lemma NothingCreated(tasks: seq<Task>, fixes: map<nat, Fix>)
    requires Created(tasks, tasks, map[], {})
    ensures Created(tasks, tasks, fixes, {})
  {
    forall i | 0 <= i < |tasks| ensures CreatedTask(tasks[i], tasks[i], fixes, {}) {
      assert CreatedTask(tasks[i], tasks[i], map[], {});
    }
  }

  // ---------------------------------------------------------------- filling the lists

  /** `list` holds, in some order, exactly one entry for each extent in `ids`, namely the one in `fixes`. */
  ghost predicate Lists(list: seq<Fix>, ids: set<nat>, fixes: map<nat, Fix>) {
    && IdsOf(list) == ids && |list| == |ids|
    && forall f :: f in list ==> f.id in fixes && f == fixes[f.id]
  }

  lemma ListsOneMore(list: seq<Fix>, ids: set<nat>, fixes: map<nat, Fix>, f: Fix)
    requires Lists(list, ids, fixes) && f.id !in ids && f.id in fixes && f == fixes[f.id]
    ensures Lists(list + [f], ids + {f.id}, fixes)
  {
    var longer := list + [f];
    assert forall g :: g in longer <==> g in list || g == f;
    assert f in longer;
    assert IdsOf(longer) == IdsOf(list) + {f.id};
  }

  /** Every replica that lacks an extent of `done` has it in both lists; `m` is the task before any was added. */
  ghost predicate CreatedTask(m: Task, now: Task, fixes: map<nat, Fix>, done: set<nat>) {
    match m
    case NoTask => now.NoTask?
    case Task(extents, _, _) =>
      && now.Task? && now.extents == extents
      && Lists(now.toCreate, done - extents.Keys, fixes) && Lists(now.toRepair, done - extents.Keys, fixes)
  }

  ghost predicate Created(orig: seq<Task>, now: seq<Task>, fixes: map<nat, Fix>, done: set<nat>) {
    |now| == |orig| && forall i :: 0 <= i < |orig| ==> CreatedTask(orig[i], now[i], fixes, done)
  }

  function WithCreate(t: Task, f: Fix): Task {
    if t.Task? && f.id !in t.extents then t.(toCreate := t.toCreate + [f], toRepair := t.toRepair + [f]) else t
  }

  lemma CreatedEverywhere(orig: seq<Task>, now: seq<Task>, now': seq<Task>, fixes: map<nat, Fix>, done: set<nat>,
                          f: Fix)
    requires Created(orig, now, fixes, done) && f.id !in done && f.id in fixes && f == fixes[f.id]
    requires |now'| == |now| && forall i :: 0 <= i < |now| ==> now'[i] == WithCreate(now[i], f)
    ensures Created(orig, now', fixes, done + {f.id})
  {
    forall i | 0 <= i < |orig| ensures CreatedTask(orig[i], now'[i], fixes, done + {f.id}) {
      CreatedOneMore(orig[i], now[i], fixes, done, f);
    }
  }

  lemma CreatedOneMore(m: Task, now: Task, fixes: map<nat, Fix>, done: set<nat>, f: Fix)
    requires CreatedTask(m, now, fixes, done) && f.id !in done && f.id in fixes && f == fixes[f.id]
    ensures CreatedTask(m, WithCreate(now, f), fixes, done + {f.id})
  {
    if now.Task? {
      var keys := now.extents.Keys;
      SetOneMore(done, keys, f.id);
      if f.id !in keys {
        ListsOneMore(now.toCreate, done - keys, fixes, f);
        ListsOneMore(now.toRepair, done - keys, fixes, f);
      }
    }
  }

  lemma SetOneMore(done: set<nat>, keys: set<nat>, id: nat)
    ensures (done + {id}) - keys == if id in keys then done - keys else (done - keys) + {id}
  {
  }

  /** `now` is `orig` with the best entries of the extents in `done` flagged as deleted. */
  ghost predicate Marked(orig: seq<Task>, now: seq<Task>, best: map<nat, nat>, done: set<nat>) {
    |now| == |orig| && forall i :: 0 <= i < |orig| ==> MarkedTask(orig[i], now[i], i, best, done)
  }

  ghost predicate MarkedTask(orig: Task, now: Task, i: nat, best: map<nat, nat>, done: set<nat>) {
    match orig
    case NoTask => now.NoTask?
    case Task(extents, c, r) =>
      && now.Task? && now.toCreate == c && now.toRepair == r && now.extents.Keys == extents.Keys
      && forall id :: id in extents ==>
           var marked := id in done && id in best && best[id] == i;
           now.extents[id] == extents[id].(isDeleted := extents[id].isDeleted || marked)
  }

  function WithMark(t: Task, id: nat): Task
    requires t.Task? && id in t.extents
  {
    t.(extents := t.extents[id := t.extents[id].(isDeleted := true)])
  }

  lemma MarkedOneMore(orig: seq<Task>, now: seq<Task>, best: map<nat, nat>, done: set<nat>, id: nat)
    requires Marked(orig, now, best, done) && (id in best ==> Reports(orig, best[id], id))
    ensures id in best ==>
              && Reports(now, best[id], id)
              && Marked(orig, now[best[id] := WithMark(now[best[id]], id)], best, done + {id})
    ensures id !in best ==> Marked(orig, now, best, done + {id})
  {
    if id in best {
      assert MarkedTask(orig[best[id]], now[best[id]], best[id], best, done);
    }
    var now' := if id in best then now[best[id] := WithMark(now[best[id]], id)] else now;
    forall i | 0 <= i < |orig| ensures MarkedTask(orig[i], now'[i], i, best, done + {id}) {
      assert MarkedTask(orig[i], now[i], i, best, done);
    }
  }
}
