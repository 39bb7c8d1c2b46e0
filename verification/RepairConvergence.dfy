/**
Carrying out a repair plan, and what the next round then finds: nothing left to do.
*/
module RepairConvergence {
  import opened RepairPlan

  /** Extents without a snapshot region. */
  predicate NoSnapshot(extents: map<nat, ExtentInfo>) {
    forall id :: id in extents ==> extents[id].snapshotOff == EXTENT_SIZE
  }

  const EMPTY_EXTENT := ExtentInfo(0, EXTENT_SIZE, false)

  /** What streaming an extent up to the planned size leaves behind; one that is large enough is left alone. */
  function Streamed(e: ExtentInfo, f: Fix): ExtentInfo {
    if e.size >= f.size && e.snapshotOff >= f.snapshotOff then e else e.(size := f.size)
  }

  /** The first loop of DoExtentStoreRepair. */
  method CreateMissing(extents: map<nat, ExtentInfo>, toCreate: seq<Fix>) returns (store: map<nat, ExtentInfo>)
    requires forall f :: f in toCreate ==> !IsTiny(f.id)
    ensures store.Keys == extents.Keys + IdsOf(toCreate)
    ensures forall id :: id in store ==> store[id] == if id in extents then extents[id] else EMPTY_EXTENT
  {
    store := extents;
    for k := 0 to |toCreate|
      invariant store.Keys == extents.Keys + IdsOf(toCreate[..k])
      invariant forall id :: id in store ==> store[id] == if id in extents then extents[id] else EMPTY_EXTENT
    {
      var f := toCreate[k];
      IdsOfNext(toCreate, k);
      if !IsTiny(f.id) && f.id !in store {
        store := store[f.id := EMPTY_EXTENT];
      }
    }
    assert toCreate[..|toCreate|] == toCreate;
  }

  /** The second loop of DoExtentStoreRepair. */
  method StreamSmall(made: map<nat, ExtentInfo>, toRepair: seq<Fix>) returns (store: map<nat, ExtentInfo>)
    requires |toRepair| == |IdsOf(toRepair)|
    ensures store.Keys == made.Keys
    ensures forall k :: 0 <= k < |toRepair| && toRepair[k].id in made ==>
      store[toRepair[k].id] == Streamed(made[toRepair[k].id], toRepair[k])
    ensures forall id :: id in made && id !in IdsOf(toRepair) ==> store[id] == made[id]
  {
    store := made;
    for k := 0 to |toRepair|
      invariant store.Keys == made.Keys
      invariant forall j :: 0 <= j < k && toRepair[j].id in made ==>
        store[toRepair[j].id] == Streamed(made[toRepair[j].id], toRepair[j])
      invariant forall id :: id in made && id !in IdsOf(toRepair[..k]) ==> store[id] == made[id]
    {
      var f := toRepair[k];
      IdsOfNext(toRepair, k);
      DistinctIds(toRepair, k);
      forall j | 0 <= j < k ensures toRepair[j].id != f.id {
        assert toRepair[j] in toRepair[..k];
      }
      if f.id in store {
        store := store[f.id := Streamed(store[f.id], f)];
      }
    }
    assert toRepair[..|toRepair|] == toRepair;
  }

  /** The effect of a task on the extents of a replica. */
  ghost predicate CarriedOut(extents: map<nat, ExtentInfo>, planned: Task, store: map<nat, ExtentInfo>)
    requires planned.Task?
  {
    && store.Keys == extents.Keys + IdsOf(planned.toCreate)
    && (forall f :: f in planned.toRepair && f.id in store ==>
          store[f.id] == Streamed(if f.id in extents then extents[f.id] else EMPTY_EXTENT, f))
    && (forall id :: id in extents && id !in IdsOf(planned.toRepair) ==> store[id] == extents[id])
  }

  /** One replica carries out its task: create what is missing, then stream what is too small. */
  method DoExtentStoreRepair(extents: map<nat, ExtentInfo>, planned: Task) returns (store: map<nat, ExtentInfo>)
    requires planned.Task? && |planned.toRepair| == |IdsOf(planned.toRepair)|
    requires forall f :: f in planned.toCreate ==> !IsTiny(f.id)
    ensures CarriedOut(extents, planned, store)
  {
    var made := CreateMissing(extents, planned.toCreate);
    store := StreamSmall(made, planned.toRepair);
  }

  lemma IdsOfNext(list: seq<Fix>, k: nat)
    requires k < |list|
    ensures IdsOf(list[..k + 1]) == IdsOf(list[..k]) + {list[k].id}
  {
    assert list[..k + 1] == list[..k] + [list[k]];
    assert list[k] in list[..k + 1];
    assert forall f :: f in list[..k + 1] <==> f in list[..k] || f == list[k];
  }

  lemma {:induction false} IdsAtMost(list: seq<Fix>)
    ensures |IdsOf(list)| <= |list|
    decreases |list|
  {
    if list == [] {
      assert IdsOf(list) == {};
    } else {
      var front := list[..|list| - 1];
      IdsAtMost(front);
      IdsOfNext(list, |list| - 1);
      assert list[..|list|] == list;
    }
  }

  /** A list as long as its set of ids names each id once. */
  lemma {:induction false} DistinctIds(list: seq<Fix>, k: nat)
    requires |list| == |IdsOf(list)| && k < |list|
    ensures list[k].id !in IdsOf(list[..k])
    decreases |list|
  {
    var n := |list| - 1;
    var front := list[..n];
    IdsOfNext(list, n);
    assert list[..n + 1] == list;
    IdsAtMost(front);
    if k < n {
      DistinctIds(front, k);
      assert front[..k] == list[..k];
    }
  }

  // ---------------------------------------------------------------- the state after a round

  ghost predicate Planned(tasks: seq<Task>, deleted: set<nat>, i: nat, id: nat) {
    MustCreate(tasks, deleted, i, id) || MustRepair(tasks, deleted, i, id)
  }

  /** What a replica holds of one extent once its part of the plan is done: as much as the best replica, if there was
      something to do, and what it held before otherwise. */
  ghost predicate RepairedExtent(tasks: seq<Task>, deleted: set<nat>, i: nat, store: map<nat, ExtentInfo>, id: nat)
    requires i < |tasks| && tasks[i].Task?
  {
    && (id in store <==> id in tasks[i].extents || MustCreate(tasks, deleted, i, id))
    && (id in store && !Planned(tasks, deleted, i, id) ==> store[id] == tasks[i].extents[id])
    && (forall w: nat :: id in store && Planned(tasks, deleted, i, id) && IsBest(tasks, |tasks|, id, w)
          ==> store[id] == ExtentInfo(tasks[w].extents[id].size, EXTENT_SIZE, false))
  }

  ghost predicate RepairedAs(tasks: seq<Task>, deleted: set<nat>, i: nat, store: map<nat, ExtentInfo>)
    requires i < |tasks| && tasks[i].Task?
  {
    forall id :: RepairedExtent(tasks, deleted, i, store, id)
  }

  /** Carrying out an exact plan has that effect. */
  lemma PlanCarriedOut(tasks: seq<Task>, deleted: set<nat>, i: nat, planned: Task, store: map<nat, ExtentInfo>)
    requires i < |tasks| && tasks[i].Task? && ExactPlan(tasks, deleted, i, planned)
    requires forall t :: t in tasks && t.Task? ==> NoSnapshot(t.extents)
    requires CarriedOut(tasks[i].extents, planned, store)
    ensures RepairedAs(tasks, deleted, i, store)
  {
    forall id: nat ensures RepairedExtent(tasks, deleted, i, store, id) {
      assert id in IdsOf(planned.toRepair) <==> Planned(tasks, deleted, i, id);
      assert id in IdsOf(planned.toCreate) <==> MustCreate(tasks, deleted, i, id);
      forall w: nat | id in store && Planned(tasks, deleted, i, id) && IsBest(tasks, |tasks|, id, w)
        ensures store[id] == ExtentInfo(tasks[w].extents[id].size, EXTENT_SIZE, false)
      {
        var f :| f in planned.toRepair && f.id == id;
        StreamedIsBest(tasks, deleted, i, id, w, f);
      }
    }
  }

  lemma StreamedIsBest(tasks: seq<Task>, deleted: set<nat>, i: nat, id: nat, w: nat, f: Fix)
    requires i < |tasks| && tasks[i].Task? && IsBest(tasks, |tasks|, id, w)
    requires MustCreate(tasks, deleted, i, id) || MustRepair(tasks, deleted, i, id)
    requires forall t :: t in tasks && t.Task? ==> NoSnapshot(t.extents)
    requires f.id == id && IsBest(tasks, |tasks|, id, f.source) && f == FixFrom(tasks, id, f.source)
    ensures Streamed(if id in tasks[i].extents then tasks[i].extents[id] else EMPTY_EXTENT, f)
      == ExtentInfo(tasks[w].extents[id].size, EXTENT_SIZE, false)
  {
    assert f.source == w by {
      assert Live(tasks, f.source, id) && Live(tasks, w, id);
    }
    assert tasks[w] in tasks && tasks[i] in tasks;
    if MustRepair(tasks, deleted, i, id) {
      var v: nat :| Live(tasks, v, id) && Total(tasks, i, id) < Total(tasks, v, id);
      assert Total(tasks, v, id) <= Total(tasks, w, id);
    }
  }

  /** The same replicas report again after every one of them has carried out its part. */
  ghost predicate NextReports(tasks: seq<Task>, deleted: set<nat>, tasks': seq<Task>) {
    && |tasks'| == |tasks|
    && forall i :: 0 <= i < |tasks| ==>
         && tasks'[i].Task? == tasks[i].Task?
         && (tasks[i].Task? ==> RepairedAs(tasks, deleted, i, tasks'[i].extents))
  }

  lemma {:induction false} BestExists(tasks: seq<Task>, n: nat, id: nat) returns (w: nat)
    requires n <= |tasks| && exists i: nat :: i < n && Live(tasks, i, id)
    ensures IsBest(tasks, n, id, w)
    decreases n
  {
    if exists i: nat :: i < n - 1 && Live(tasks, i, id) {
      w := BestExists(tasks, n - 1, id);
      if Live(tasks, n - 1, id) && Total(tasks, n - 1, id) > Total(tasks, w, id) {
        w := n - 1;
      }
    } else {
      w := n - 1;
    }
  }

  /** After a round every replica that holds the extent holds as much of it as the best one did. */
  lemma AllReachBest(tasks: seq<Task>, deleted: set<nat>, tasks': seq<Task>, i: nat, id: nat, w: nat)
    requires NextReports(tasks, deleted, tasks') && IsBest(tasks, |tasks|, id, w) && id !in deleted
    requires forall t :: t in tasks && t.Task? ==> NoSnapshot(t.extents)
    requires Live(tasks', i, id)
    ensures Total(tasks', i, id) == Total(tasks, w, id)
  {
    assert RepairedExtent(tasks, deleted, i, tasks'[i].extents, id);
    assert tasks[w] in tasks && tasks[i] in tasks;
    if MustCreate(tasks, deleted, i, id) || MustRepair(tasks, deleted, i, id) {
      assert tasks'[i].extents[id] == ExtentInfo(tasks[w].extents[id].size, EXTENT_SIZE, false);
    } else {
      assert Live(tasks, i, id);
    }
  }

  lemma HeldBefore(tasks: seq<Task>, deleted: set<nat>, tasks': seq<Task>, id: nat)
    requires NextReports(tasks, deleted, tasks') && Held(tasks', id)
    ensures Held(tasks, id)
  {
    var i: nat :| Live(tasks', i, id);
    assert RepairedExtent(tasks, deleted, i, tasks'[i].extents, id);
    if MustCreate(tasks, deleted, i, id) || MustRepair(tasks, deleted, i, id) {
      var w: nat :| Live(tasks, w, id);
      assert Held(tasks, id);
    } else {
      assert Live(tasks, i, id);
    }
  }

  /** One completed round converges: planning again creates nothing and repairs nothing, for any extent of any
      replica, and therefore every tiny extent that is held at all is available. */
  lemma RoundConverges(tasks: seq<Task>, deleted: set<nat>, tasks': seq<Task>)
    requires forall t :: t in tasks && t.Task? ==> NoSnapshot(t.extents)
    requires NextReports(tasks, deleted, tasks')
    ensures forall i: nat, id: nat :: !MustCreate(tasks', deleted, i, id)
    ensures forall i: nat, id: nat :: !MustRepair(tasks', deleted, i, id)
    ensures forall id: nat :: Held(tasks', id) ==> HeldAlike(tasks', deleted, id)
  {
    forall i: nat, id: nat ensures !MustRepair(tasks', deleted, i, id) {
      NothingToRepair(tasks, deleted, tasks', i, id);
    }
    forall i: nat, id: nat ensures !MustCreate(tasks', deleted, i, id) {
      NothingToCreate(tasks, deleted, tasks', i, id);
    }
  }

  lemma NothingToRepair(tasks: seq<Task>, deleted: set<nat>, tasks': seq<Task>, i: nat, id: nat)
    requires forall t :: t in tasks && t.Task? ==> NoSnapshot(t.extents)
    requires NextReports(tasks, deleted, tasks')
    ensures !MustRepair(tasks', deleted, i, id)
  {
    if MustRepair(tasks', deleted, i, id) {
      HeldBefore(tasks, deleted, tasks', id);
      var w := BestExists(tasks, |tasks|, id);
      var v: nat :| Live(tasks', v, id) && Total(tasks', i, id) < Total(tasks', v, id);
      AllReachBest(tasks, deleted, tasks', i, id, w);
      AllReachBest(tasks, deleted, tasks', v, id, w);
    }
  }

  lemma NothingToCreate(tasks: seq<Task>, deleted: set<nat>, tasks': seq<Task>, i: nat, id: nat)
    requires NextReports(tasks, deleted, tasks')
    ensures !MustCreate(tasks', deleted, i, id)
  {
    if i < |tasks'| && tasks'[i].Task? {
      assert RepairedExtent(tasks, deleted, i, tasks'[i].extents, id);
    }
    if FlaggedDeleted(tasks, |tasks|, id) {
      FlagStays(tasks, deleted, tasks', id);
    }
    if Held(tasks', id) {
      HeldBefore(tasks, deleted, tasks', id);
    }
  }

  lemma FlagStays(tasks: seq<Task>, deleted: set<nat>, tasks': seq<Task>, id: nat)
    requires NextReports(tasks, deleted, tasks') && FlaggedDeleted(tasks, |tasks|, id)
    ensures FlaggedDeleted(tasks', |tasks'|, id)
  {
    var k: nat :| k < |tasks| && Reports(tasks, k, id) && tasks[k].extents[id].isDeleted;
    assert RepairedExtent(tasks, deleted, k, tasks'[k].extents, id);
  }

  // ---------------------------------------------------------------- two rounds

  /** Every replica carries out its part of an exact plan and reports again. */
  method CarryOut(reported: seq<Task>, ghost deleted: set<nat>, planned: seq<Task>) returns (next: seq<Task>)
    requires |planned| == |reported| && forall t :: t in reported && t.Task? ==> NoSnapshot(t.extents)
    requires forall i :: 0 <= i < |reported| ==> ExactPlan(reported, deleted, i, planned[i])
    ensures NextReports(reported, deleted, next)
    ensures forall t :: t in next && t.Task? ==> t.toCreate == [] && t.toRepair == []
  {
    hide CarriedOut, RepairedAs, NoSnapshot, ExactPlan;
    next := [];
    for i := 0 to |reported|
      invariant |next| == i
      invariant forall k :: 0 <= k < i ==>
                  && next[k].Task? == reported[k].Task?
                  && (reported[k].Task? ==> RepairedAs(reported, deleted, k, next[k].extents))
      invariant forall t :: t in next && t.Task? ==> t.toCreate == [] && t.toRepair == []
    {
      ExactTask(reported, deleted, i, planned[i]);
      if reported[i].Task? {
        var store := DoExtentStoreRepair(reported[i].extents, planned[i]);
        PlanCarriedOut(reported, deleted, i, planned[i], store);
        next := next + [Task(store, [], [])];
      } else {
        next := next + [NoTask];
      }
    }
  }

  lemma ExactTask(tasks: seq<Task>, deleted: set<nat>, i: nat, planned: Task)
    requires i < |tasks| && ExactPlan(tasks, deleted, i, planned)
    ensures planned.Task? == tasks[i].Task?
    ensures planned.Task? ==>
              && |planned.toRepair| == |IdsOf(planned.toRepair)|
              && forall f :: f in planned.toCreate ==> !IsTiny(f.id)
  {
    forall f | planned.Task? && f in planned.toCreate ensures !IsTiny(f.id) {
      assert f.id in IdsOf(planned.toCreate);
    }
  }

  /**
  The whole cycle: what is planned is carried out, and planning again finds nothing to create, repair or hold back.
  */
  method RepairTwice(round: RepairRound) returns (again: RepairRound, available: seq<nat>, broken: seq<nat>)
    requires forall t :: t in round.tasks && t.Task? ==> t.toCreate == [] && t.toRepair == [] && NoSnapshot(t.extents)
    modifies round
    ensures forall t :: t in again.tasks && t.Task? ==> t.toCreate == [] && t.toRepair == []
    ensures broken == []
    ensures forall id: nat :: IsTiny(id) && Held(old(round.tasks), id) ==> id in available
  {
    hide NoSnapshot, NextReports;
    var reported, deleted := round.tasks, round.deleted;
    var _, _ := round.PrepareRepairTasks();
    var next := CarryOut(reported, deleted, round.tasks);
    again := new RepairRound(next, deleted);
    available, broken := again.PrepareRepairTasks();
    RoundConverges(reported, deleted, next);
    forall i | 0 <= i < |again.tasks| && again.tasks[i].Task?
      ensures again.tasks[i].toCreate == [] && again.tasks[i].toRepair == []
    {
      NothingPlanned(next, deleted, i, again.tasks[i]);
    }
    forall id: nat | Held(reported, id) ensures Held(next, id) {
      HeldAfter(reported, deleted, next, id);
    }
  }

  lemma NothingPlanned(tasks: seq<Task>, deleted: set<nat>, i: nat, planned: Task)
    requires i < |tasks| && ExactPlan(tasks, deleted, i, planned) && planned.Task?
    requires forall id: nat :: !MustCreate(tasks, deleted, i, id) && !MustRepair(tasks, deleted, i, id)
    ensures planned.toCreate == [] && planned.toRepair == []
  {
    NoIds(planned.toCreate);
    NoIds(planned.toRepair);
  }

  lemma NoIds(list: seq<Fix>)
    ensures list != [] ==> exists id :: id in IdsOf(list)
  {
    assert list != [] ==> list[0].id in IdsOf(list);
  }

  lemma HeldAfter(tasks: seq<Task>, deleted: set<nat>, tasks': seq<Task>, id: nat)
    requires NextReports(tasks, deleted, tasks') && Held(tasks, id)
    ensures Held(tasks', id)
  {
    var i: nat :| Live(tasks, i, id);
    assert RepairedExtent(tasks, deleted, i, tasks'[i].extents, id);
    if Planned(tasks, deleted, i, id) {
      var w := BestExists(tasks, |tasks|, id);
      assert Live(tasks', i, id);
    } else {
      assert Live(tasks', i, id);
    }
  }
}
