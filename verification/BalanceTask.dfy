/**
The executor of a balance plan as the loop it is: every way through it, with any outcome of the calls it makes and with
a crash after any of its updates, is a run of the events that the guarantees are stated for. In a smooth run, in which
every call succeeds, no destination has filled up and nobody stops the executor, everything that can be done is.
*/
module BalanceTask {
  import opened BalanceExecutor

  /** One more event of a run. */
  lemma RunSnoc(s: Executor, events: seq<Event>, e: Event)
    requires CanRun(s, events) && Enabled(Run(s, events), e)
    ensures CanRun(s, events + [e]) && Run(s, events + [e]) == Step(Run(s, events), e)
  {
    hide Enabled, Step, CanRun, Run;
    RunOne(Run(s, events), e);
    RunAppend(s, events, [e]);
  }

  lemma RunOne(s: Executor, e: Event)
    requires Enabled(s, e)
    ensures CanRun(s, [e]) && Run(s, [e]) == Step(s, e)
  {
    hide Step;
    assert [e][0] == e && [e][1..] == [];
    assert CanRun(Step(s, e), []) && Run(Step(s, e), []) == Step(s, e);
  }

  /** A move that is running and then done. */
  lemma MovedOn(task: Task, i: nat, j: nat)
    requires i < |task.items| && j < |task.items[i]|
    ensures var running := SetMove(task, i, j, Running);
            && |running.items| == |task.items| && |running.items[i]| == |task.items[i]|
            && SetMove(running, i, j, Done) == task.(items := task.items[i := task.items[i][j := Done]])
  {
    var moves := task.items[i];
    assert moves[j := Running][j := Done] == moves[j := Done];
    assert task.items[i := moves[j := Running]][i := moves[j := Done]] == task.items[i := moves[j := Done]];
  }

  class Executing {
    var task: Task
    var disk: Task
    ghost var at: Place
    ghost var begun: seq<nat>
    ghost var migrations: multiset<(nat, nat)>
    ghost var offlines: nat

    /** What has happened since the plan was stored. */
    ghost var first: Executor
    ghost var events: seq<Event>

    ghost function State(): Executor
      reads this
    {
      Executor(task, disk, at, begun, migrations, offlines)
    }

    /** The object is where the events lead. */
    ghost predicate Valid()
      reads this
    {
      CanRun(first, events) && Run(first, events) == State()
    }

    constructor (items: seq<seq<Status>>)
      ensures Valid() && first == Created(items) && at == Idle
    {
      task, disk, at := Task(items, 0), Task(items, 0), Idle;
      begun, migrations, offlines := seq(|items|, _ => 0), multiset{}, 0;
      first, events := Created(items), [];
    }

    ghost method Happens(e: Event, before: Executor)
      requires CanRun(first, events) && Run(first, events) == before && Enabled(before, e) && State() == Step(before, e)
      modifies `events
      ensures Valid() && events == old(events) + [e]
    {
      hide Enabled, Step, CanRun, Run;
      RunSnoc(first, events, e);
      events := events + [e];
    }

    /** syncUpdateBalanceTask: it may fail, and it may fail and yet be stored. */
    method Sync(smooth: bool) returns (sync: Sync)
      modifies `disk
      ensures disk == if sync == Lost then old(disk) else task
      ensures smooth ==> sync == Stored
    {
      sync := *;
      if smooth {
        sync := Stored;
      }
      if sync != Lost {
        disk := task;
      }
    }

    /** SetMetaReplicaPlanStatusError. */
    method SetError(i: nat, j: nat)
      requires Valid() && (at == Marked(i, j) || at == Migrated(i, j))
      requires i < |task.items| && j < |task.items[i]|
      modifies `task, `disk, `at, `begun, `migrations, `events
      ensures Valid() && at == Idle
      ensures task.items == old(task.items)[i := old(task.items[i])[j := Error]] && task.doneNum == old(task.doneNum)
    {
      ghost var before := State();
      task := SetMove(task, i, j, Error);
      var sync := Sync(false);
      at := Idle;
      Happens(Fail(sync != Lost), before);
    }

    /** One turn of the loop over the moves of an item. */
    method RunMove(i: nat, j: nat, smooth: bool) returns (ok: bool)
      requires Valid() && at == AtMove(i, j) && i < |task.items| && j < |task.items[i]|
      modifies `task, `disk, `at, `begun, `migrations, `events
      ensures Valid()
      ensures at == if ok then AtMove(i, j + 1) else Idle
      ensures ok ==> task.items == old(task.items)[i := old(task.items[i])[j := Done]]
      ensures ok ==> task.doneNum == old(task.doneNum) && migrations == old(migrations) + multiset{(i, j)}
      ensures smooth ==> ok
    {
      hide CanRun, Run, SetMove;
      MovedOn(task, i, j);
      ok := Mark(i, j, smooth);
      if !ok {
        return;
      }
      var stopped, unready, refused, stuck: bool := *, *, *, *;
      if smooth {
        stopped, unready, refused, stuck := false, false, false, false;
      }
      if stopped {
        End();
        return false;
      }
      if unready {
        SetError(i, j);
        return false;
      }
      ghost var before := State();
      migrations := migrations + multiset{(i, j)};
      at := Migrated(i, j);
      Happens(Migrate, before);
      if refused || stuck {
        SetError(i, j);
        return false;
      }
      ok := Complete(i, j, smooth);
    }

    /** The move is persisted as running before anything is done for it. */
    method Mark(i: nat, j: nat, smooth: bool) returns (ok: bool)
      requires Valid() && at == AtMove(i, j) && i < |task.items| && j < |task.items[i]|
      modifies `task, `disk, `at, `begun, `migrations, `events
      ensures Valid() && at == if ok then Marked(i, j) else Idle
      ensures task == SetMove(old(task), i, j, Running) && migrations == old(migrations) && (smooth ==> ok)
    {
      ghost var before := State();
      task := SetMove(task, i, j, Running);
      var sync := Sync(smooth);
      ok := sync == Stored;
      if ok && j == 0 && i < |begun| {
        begun := begun[i := begun[i] + 1];
      }
      at := if ok then Marked(i, j) else Idle;
      Happens(MarkRunning(sync), before);
    }

    /** The move is persisted as done. */
    method Complete(i: nat, j: nat, smooth: bool) returns (ok: bool)
      requires Valid() && at == Migrated(i, j) && i < |task.items| && j < |task.items[i]|
      modifies `task, `disk, `at, `begun, `migrations, `events
      ensures Valid() && at == if ok then AtMove(i, j + 1) else Idle
      ensures task == SetMove(old(task), i, j, Done) && migrations == old(migrations) && (smooth ==> ok)
    {
      ghost var before := State();
      task := SetMove(task, i, j, Done);
      var sync := Sync(smooth);
      ok := sync == Stored;
      at := if ok then AtMove(i, j + 1) else Idle;
      Happens(MarkDone(sync), before);
    }

    /** The executor returns, or the master stops, without another update. */
    ghost method End()
      requires Valid() && at != Idle
      modifies `at, `events
      ensures Valid() && at == Idle
    {
      ghost var before := State();
      at := Idle;
      Happens(Crash, before);
    }

    /** VerifyMetaReplicaPlanNotAllInit. */
    static method NotAllInit(moves: seq<Status>) returns (yes: bool)
      ensures yes <==> !AllInit(moves)
    {
      for j := 0 to |moves|
        invariant AllInit(moves[..j])
      {
        if moves[j] != Init {
          return true;
        }
        assert moves[..j + 1] == moves[..j] + [moves[j]];
      }
      assert moves[..|moves|] == moves;
      yes := false;
    }

    /** The loop over the moves of an item, and the count after it. */
    method RunMoves(i: nat, smooth: bool) returns (ok: bool)
      requires Valid() && at == AtMove(i, 0) && i < |task.items|
      modifies `task, `disk, `at, `begun, `migrations, `events
      ensures Valid() && at == if ok then AtItem(i + 1) else Idle
      ensures ok ==> |task.items| == |old(task.items)| && task.doneNum == old(task.doneNum) + 1
      ensures ok ==> ItemRun(old(task.items), task.items, i, old(migrations), migrations)
      ensures smooth ==> ok
    {
      hide CanRun, Run;
      var j := 0;
      while j < |task.items[i]|
        invariant Valid() && at == AtMove(i, j) && |task.items| == |old(task.items)|
        invariant j <= |task.items[i]| == |old(task.items)[i]|
        invariant task.doneNum == old(task.doneNum) && forall k :: 0 <= k < j ==> task.items[i][k] == Done
        invariant forall k :: 0 <= k < |task.items| && k != i ==> task.items[k] == old(task.items)[k]
        invariant MovesMade(old(migrations), migrations, i, j)
        decreases |old(task.items)[i]| - j
      {
        ghost var made := migrations;
        ok := RunMove(i, j, smooth);
        if !ok {
          return;
        }
        OneMoreMade(old(migrations), made, i, j);
        j := j + 1;
      }
      ghost var before := State();
      task := task.(doneNum := task.doneNum + 1);
      at := AtItem(i + 1);
      Happens(ItemDone, before);
      ok := true;
    }

    /**
    VerifyAllDestinationsIsLowLoad, for an item none of whose moves has begun: when a destination has filled up, the
    moves are planned again, and their number may change. An error ends the run after one more update.
    */
    method VerifyDestinations(i: nat, smooth: bool) returns (ok: bool)
      requires Valid() && at == AtItem(i) && i < |task.items| && AllInit(task.items[i])
      modifies `task, `disk, `at, `begun, `migrations, `events
      ensures Valid() && at == (if ok then AtItem(i) else Idle) && migrations == old(migrations)
      ensures ok ==> |task.items| == |old(task.items)| && AllInit(task.items[i])
      ensures forall k :: 0 <= k < |old(task.items)| && k != i ==>
                            k < |task.items| && task.items[k] == old(task.items)[k]
      ensures task.doneNum == old(task.doneNum) && (smooth ==> ok && task == old(task))
    {
      hide CanRun, Run;
      ok := true;
      var overLoad: bool := *;
      if task.items[i] == [] || !overLoad || smooth {
        return;
      }
      ghost var before := State();
      var moves: nat := *;
      var failed: bool := *;
      task := SetItem(task, i, Fresh(moves));
      if !failed {
        Happens(Replan(moves), before);
        return;
      }
      var sync := Sync(smooth);
      at := Idle;
      Happens(ReplanFails(moves, sync != Lost), before);
      ok := false;
    }

    /**
    One turn of the loop over the items: one that has begun is passed over, and of the others, if any, all the moves are
    made and none of another item.
    */
    method RunItem(i: nat, smooth: bool) returns (ok: bool)
      requires Valid() && at == AtItem(i) && i < |task.items|
      modifies `task, `disk, `at, `begun, `migrations, `events
      ensures Valid() && at == if ok then AtItem(i + 1) else Idle
      ensures ok ==> |task.items| == |old(task.items)|
      ensures ok ==> forall k :: 0 <= k < |task.items| && k != i ==> task.items[k] == old(task.items)[k]
      ensures ok && !AllInit(old(task.items)[i]) ==> task == old(task) && migrations == old(migrations)
      ensures smooth ==> ok
      ensures smooth && AllInit(old(task.items)[i]) ==>
                && ItemRun(old(task.items), task.items, i, old(migrations), migrations)
                && task.doneNum == old(task.doneNum) + 1
    {
      hide CanRun, Run;
      ghost var before := State();
      var started := NotAllInit(task.items[i]);
      if started {
        at := AtItem(i + 1);
        Happens(SkipBegun, before);
        return true;
      }
      ok := VerifyDestinations(i, smooth);
      if !ok {
        return;
      }
      before := State();
      var unready: bool := *;
      if unready && !smooth {
        at := AtItem(i + 1);
        Happens(SkipItem, before);
        return;
      }
      at := AtMove(i, 0);
      Happens(Enter, before);
      ok := RunMoves(i, smooth);
    }

    /** The loop over the items. */
    method RunItems(smooth: bool) returns (ok: bool)
      requires Valid() && at == AtItem(0)
      modifies `task, `disk, `at, `begun, `migrations, `events
      ensures Valid() && at == if ok then AtItem(|task.items|) else Idle
      ensures smooth ==> ok && ItemsRun(old(task), task, |task.items|, old(migrations), migrations)
    {
      hide CanRun, Run, ItemsRun, ItemRun, AllInit;
      var i := 0;
      NoneRun(task, migrations);
      while i < |task.items|
        invariant Valid() && at == AtItem(i) && i <= |task.items| == |old(task.items)|
        invariant smooth ==> ItemsRun(old(task), task, i, old(migrations), migrations)
        decreases |old(task.items)| - i
      {
        ghost var now, made := task, migrations;
        ok := RunItem(i, smooth);
        if !ok {
          return;
        }
        if smooth {
          OneMoreRun(old(task), now, task, i, old(migrations), made, migrations);
        }
        i := i + 1;
      }
      ok := true;
    }

    /** The plan is stored as done, and offlineMetaNode looks at the count. */
    method FinishPlan(offlinePlan: bool, smooth: bool) returns (offline: bool)
      requires Valid() && at == AtItem(|task.items|)
      modifies `disk, `at, `offlines, `events
      ensures Valid() && at == Idle && offlines == old(offlines) + if offline then 1 else 0
      ensures offline <==> offlinePlan && task.items != [] && task.items[0] != [] && task.doneNum == |task.items|
      ensures smooth ==> disk == task
    {
      hide CanRun, Run;
      ghost var before := State();
      var sync := Sync(smooth);
      at := Finished;
      Happens(Finish(sync != Lost), before);
      offline := offlinePlan && |task.items| > 0 && |task.items[0]| > 0 && task.doneNum == |task.items|;
      if offline {
        before := State();
        at, offlines := Idle, offlines + 1;
        Happens(Offline, before);
      } else {
        End();
      }
    }

    /**
    RunMetaPartitionBalanceTask or RestartMetaPartitionBalanceTask, and DoMetaPartitionBalanceTask: the plan is loaded,
    its items are handled in order, and the meta node of an offline plan goes only if the count says that all are done.
    A smooth run makes every move of every item that has not begun, once, and takes the node of a new plan offline.
    */
    method DoMetaPartitionBalanceTask(offlinePlan: bool, smooth: bool) returns (offline: bool)
      requires Valid() && at == Idle
      modifies `task, `disk, `at, `begun, `migrations, `offlines, `events
      ensures Valid() && at == Idle && offlines == old(offlines) + if offline then 1 else 0
      ensures offline ==> offlinePlan && task.items != [] && task.items[0] != [] && task.doneNum == |task.items|
      ensures smooth ==> ItemsRun(old(disk), task, |task.items|, old(migrations), migrations) && disk == task
      ensures smooth && offlinePlan && NewPlan(old(disk)) ==> offline
    {
      hide CanRun, Run, ItemsRun, NewPlan;
      ghost var before := State();
      task := disk;
      at := AtItem(0);
      Happens(Start, before);
      var ok := RunItems(smooth);
      if !ok {
        return false;
      }
      offline := FinishPlan(offlinePlan, smooth);
      if smooth {
        NewPlanRun(old(disk), task, old(migrations), migrations);
      }
    }
  }

  // ---------------------------------------------------------------- what a smooth run does

  /** The first `n` moves of item `i` have been migrated, once more each, and no other move. */
  ghost predicate MovesMade(before: multiset<(nat, nat)>, now: multiset<(nat, nat)>, i: nat, n: nat) {
    forall k: nat, j: nat :: now[(k, j)] == before[(k, j)] + if k == i && j < n then 1 else 0
  }

  lemma OneMoreMade(before: multiset<(nat, nat)>, now: multiset<(nat, nat)>, i: nat, n: nat)
    requires MovesMade(before, now, i, n)
    ensures MovesMade(before, now + multiset{(i, n)}, i, n + 1)
  {
  }

  /** Every move of item `i` is done and was migrated, and nothing else has changed. */
  ghost predicate ItemRun(items: seq<seq<Status>>, items': seq<seq<Status>>, i: nat,
                          made: multiset<(nat, nat)>, made': multiset<(nat, nat)>) {
    && i < |items| == |items'| && |items[i]| == |items'[i]|
    && (forall j :: 0 <= j < |items[i]| ==> items'[i][j] == Done)
    && (forall k :: 0 <= k < |items| && k != i ==> items'[k] == items[k])
    && MovesMade(made, made', i, |items[i]|)
  }

  /** The items, of the first `n`, that have not begun. */
  ghost function NotBegun(items: seq<seq<Status>>, n: nat): set<nat>
    requires n <= |items|
  {
    set i: nat | i < n && AllInit(items[i])
  }

  /** An item that had not begun is done once it has been reached; any other is as it was. */
  ghost predicate ItemAfter(moves: seq<Status>, moves': seq<Status>, reached: bool) {
    if reached && AllInit(moves)
    then |moves'| == |moves| && forall j :: 0 <= j < |moves'| ==> moves'[j] == Done
    else moves' == moves
  }

  /** Of the first `n` items, the moves of those that had not begun have been migrated, and no others. */
  ghost predicate AllMade(items: seq<seq<Status>>, n: nat, made: multiset<(nat, nat)>, made': multiset<(nat, nat)>)
    requires n <= |items|
  {
    forall i: nat, j: nat ::
      made'[(i, j)] == made[(i, j)] + if i < n && AllInit(items[i]) && j < |items[i]| then 1 else 0
  }

  /**
  Of the first `n` items those that had not begun are done and counted, with every move migrated once more; nothing else
  has changed.
  */
  ghost predicate ItemsRun(t: Task, t': Task, n: nat, made: multiset<(nat, nat)>, made': multiset<(nat, nat)>) {
    && n <= |t.items| == |t'.items| && t'.doneNum == t.doneNum + |NotBegun(t.items, n)|
    && (forall i :: 0 <= i < |t.items| ==> ItemAfter(t.items[i], t'.items[i], i < n))
    && AllMade(t.items, n, made, made')
  }

  lemma NoneRun(t: Task, made: multiset<(nat, nat)>)
    ensures ItemsRun(t, t, 0, made, made)
  {
    assert NotBegun(t.items, 0) == {};
  }

  lemma OneMoreRun(t: Task, now: Task, t': Task, i: nat, made: multiset<(nat, nat)>, so: multiset<(nat, nat)>,
                   made': multiset<(nat, nat)>)
    requires ItemsRun(t, now, i, made, so) && i < |t.items|
    requires if AllInit(now.items[i])
             then ItemRun(now.items, t'.items, i, so, made') && t'.doneNum == now.doneNum + 1
             else t' == now && made' == so
    ensures ItemsRun(t, t', i + 1, made, made')
  {
    hide AllInit, AllMade, MovesMade, NotBegun;
    assert ItemAfter(t.items[i], now.items[i], false);
    OneMoreNotBegun(t.items, i);
    OneMoreAllMade(t.items, i, made, so, made');
  }

  lemma OneMoreNotBegun(items: seq<seq<Status>>, i: nat)
    requires i < |items|
    ensures |NotBegun(items, i + 1)| == |NotBegun(items, i)| + if AllInit(items[i]) then 1 else 0
  {
    hide AllInit;
    assert NotBegun(items, i + 1) == NotBegun(items, i) + if AllInit(items[i]) then {i} else {};
  }

  lemma OneMoreAllMade(items: seq<seq<Status>>, i: nat, made: multiset<(nat, nat)>, so: multiset<(nat, nat)>,
                       made': multiset<(nat, nat)>)
    requires i < |items| && AllMade(items, i, made, so)
    requires if AllInit(items[i]) then MovesMade(so, made', i, |items[i]|) else made' == so
    ensures AllMade(items, i + 1, made, made')
  {
    hide AllInit;
  }

  /** Nothing of the plan has begun, and it has something to move. */
  ghost predicate NewPlan(t: Task) {
    && t.items != [] && t.items[0] != [] && t.doneNum == 0
    && forall i :: 0 <= i < |t.items| ==> AllInit(t.items[i])
  }

  lemma NewPlanRun(t: Task, t': Task, made: multiset<(nat, nat)>, made': multiset<(nat, nat)>)
    requires ItemsRun(t, t', |t'.items|, made, made')
    ensures NewPlan(t) ==> t'.items != [] && t'.items[0] != [] && t'.doneNum == |t'.items|
  {
    if NewPlan(t) {
      AllNotBegun(t.items, |t.items|);
    }
  }

  lemma {:induction false} AllNotBegun(items: seq<seq<Status>>, n: nat)
    requires n <= |items| && forall i :: 0 <= i < n ==> AllInit(items[i])
    ensures |NotBegun(items, n)| == n
  {
    if n == 0 {
      assert NotBegun(items, 0) == {};
    } else {
      AllNotBegun(items, n - 1);
      assert NotBegun(items, n) == NotBegun(items, n - 1) + {n - 1};
    }
  }
}
