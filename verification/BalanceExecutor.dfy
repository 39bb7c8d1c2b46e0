/**
The executor of a meta-partition balance plan: a resumable task whose statuses are persisted at every step, run again
after any crash.
*/
module BalanceExecutor {

  datatype Status = Init | Running | Error | Done

  /** The persisted plan: the statuses of the moves of each item, and the number of finished items. */
  datatype Task = Task(items: seq<seq<Status>>, doneNum: nat)

  /** Where the executor is. */
  datatype Place =
    | Idle
    | AtItem(i: nat)              // about to look at item i
    | AtMove(i: nat, j: nat)      // in the loop of item i, about to start its move j
    | Marked(i: nat, j: nat)      // move j is persisted as running
    | Migrated(i: nat, j: nat)    // the migration of move j was issued
    | Finished                    // past the last item

  /** An update of the raft storage: persisted, failed, or reported as failed and persisted all the same. */
  datatype Sync = Stored | Lost | StoredUnseen

  /**
  `begun` counts how often the first move of an item was marked as running and the mark was known to be stored. An item
  whose first mark is lost enters the loop again, without having been begun.
  */
  datatype Executor = Executor(
    task: Task, disk: Task, at: Place,
    begun: seq<nat>, migrations: multiset<(nat, nat)>, offlines: nat)

  datatype Event =
    | Start                               // Run or Restart loads the plan and starts the executor
    | Crash                               // the executor ends here: crash, stop, or loss of leadership
    | SkipBegun                           // the item has a move that is not in the initial state
    | Replan(k: nat)                      // destinations are recomputed: k moves
    | ReplanFails(k: nat, stored: bool)   // recomputing fails and leaves k moves
    | SkipItem                            // the partition is missing, changed or not ready
    | Enter
    | MarkRunning(sync: Sync)
    | Migrate
    | Fail(stored: bool)                  // the move ends in an error
    | MarkDone(sync: Sync)
    | ItemDone
    | Finish(stored: bool)
    | Offline                             // offlineMetaNode gets as far as DoMetaNodeOffline

  predicate AllInit(moves: seq<Status>) { forall j :: 0 <= j < |moves| ==> moves[j] == Init }

  predicate AllDone(moves: seq<Status>) { moves != [] && forall j :: 0 <= j < |moves| ==> moves[j] == Done }

  function Fresh(k: nat): (moves: seq<Status>)
    ensures |moves| == k && AllInit(moves)
  {
    seq(k, _ => Init)
  }

  function Created(items: seq<seq<Status>>): Executor {
    var task := Task(items, 0);
    Executor(task, task, Idle, seq(|items|, _ => 0), multiset{}, 0)
  }

  function SetItem(task: Task, i: nat, moves: seq<Status>): Task
    requires i < |task.items|
  {
    task.(items := task.items[i := moves])
  }

  function SetMove(task: Task, i: nat, j: nat, status: Status): Task
    requires i < |task.items| && j < |task.items[i]|
  {
    SetItem(task, i, task.items[i][j := status])
  }

  predicate Enabled(s: Executor, e: Event) {
    var items := s.task.items;
    match e
    case Start => s.at == Idle
    case Crash => s.at != Idle
    case SkipBegun => s.at.AtItem? && s.at.i < |items| && !AllInit(items[s.at.i])
    case Replan(_) => s.at.AtItem? && s.at.i < |items| && AllInit(items[s.at.i]) && items[s.at.i] != []
    case ReplanFails(_, _) => s.at.AtItem? && s.at.i < |items| && AllInit(items[s.at.i]) && items[s.at.i] != []
    case SkipItem => s.at.AtItem? && s.at.i < |items| && AllInit(items[s.at.i])
    case Enter => s.at.AtItem? && s.at.i < |items| && AllInit(items[s.at.i])
    case MarkRunning(_) => s.at.AtMove? && s.at.i < |items| && s.at.j < |items[s.at.i]|
    case Migrate => s.at.Marked?
    case Fail(_) => (s.at.Marked? || s.at.Migrated?) && s.at.i < |items| && s.at.j < |items[s.at.i]|
    case MarkDone(_) => s.at.Migrated? && s.at.i < |items| && s.at.j < |items[s.at.i]|
    case ItemDone => s.at.AtMove? && s.at.i < |items| && s.at.j == |items[s.at.i]|
    case Finish(_) => s.at.AtItem? && s.at.i == |items|
    case Offline =>
      s.at == Finished && items != [] && items[0] != [] && s.task.doneNum == |items|
  }

  /** The executor after an update of the raft storage, which returns when the update fails. */
  function Synced(s: Executor, sync: Sync, next: Place): Executor {
    match sync
    case Stored => s.(disk := s.task, at := next)
    case Lost => s.(at := Idle)
    case StoredUnseen => s.(disk := s.task, at := Idle)
  }

  function Step(s: Executor, e: Event): Executor
    requires Enabled(s, e)
  {
    match e
    case Start => s.(task := s.disk, at := AtItem(0))
    case Crash => s.(at := Idle)
    case SkipBegun => s.(at := AtItem(s.at.i + 1))
    case Replan(k) => s.(task := SetItem(s.task, s.at.i, Fresh(k)))
    case ReplanFails(k, stored) =>
      var s' := s.(task := SetItem(s.task, s.at.i, Fresh(k)));
      Synced(s', if stored then StoredUnseen else Lost, Idle)
    case SkipItem => s.(at := AtItem(s.at.i + 1))
    case Enter => s.(at := AtMove(s.at.i, 0))
    case MarkRunning(sync) =>
      var i, j := s.at.i, s.at.j;
      var first := sync == Stored && j == 0 && i < |s.begun|;
      var s' := s.(task := SetMove(s.task, i, j, Running),
                   begun := if first then s.begun[i := s.begun[i] + 1] else s.begun);
      Synced(s', sync, Marked(i, j))
    case Migrate => s.(at := Migrated(s.at.i, s.at.j), migrations := s.migrations + multiset{(s.at.i, s.at.j)})
    case Fail(stored) =>
      Synced(s.(task := SetMove(s.task, s.at.i, s.at.j, Error)), if stored then StoredUnseen else Lost, Idle)
    case MarkDone(sync) =>
      Synced(s.(task := SetMove(s.task, s.at.i, s.at.j, Done)), sync, AtMove(s.at.i, s.at.j + 1))
    case ItemDone => s.(task := s.task.(doneNum := s.task.doneNum + 1), at := AtItem(s.at.i + 1))
    case Finish(stored) => s.(disk := if stored then s.task else s.disk, at := Finished)
    case Offline => s.(at := Idle, offlines := s.offlines + 1)
  }

  predicate CanRun(s: Executor, events: seq<Event>)
    decreases |events|
  {
    events != [] ==> Enabled(s, events[0]) && CanRun(Step(s, events[0]), events[1..])
  }

  function Run(s: Executor, events: seq<Event>): Executor
    requires CanRun(s, events)
    decreases |events|
  {
    if events == [] then s else Run(Step(s, events[0]), events[1..])
  }

  // ---------------------------------------------------------------- at most once

  predicate InLoop(at: Place) { at.AtMove? || at.Marked? || at.Migrated? }

  /** The first move of the item in hand that has not been migrated. */
  function NextMove(at: Place): nat
    requires InLoop(at)
  {
    if at.Migrated? then at.j + 1 else at.j
  }

  /** The moves of the item in hand: the ones before are done, the current one is running or untouched, the rest is. */
  ghost predicate InHand(moves: seq<Status>, at: Place)
    requires InLoop(at)
  {
    && at.j <= |moves| && (!at.AtMove? ==> at.j < |moves| && moves[at.j] == Running)
    && (forall j :: 0 <= j < at.j ==> moves[j] == Done)
    && (forall j :: (if at.AtMove? then at.j else at.j + 1) <= j < |moves| ==> moves[j] == Init)
  }

  /** An item that was begun shows it, in memory and on disk. */
  ghost predicate Shown(s: Executor, i: nat)
    requires i < |s.begun| == |s.disk.items| == |s.task.items|
  {
    && s.begun[i] <= 1
    && (s.begun[i] == 1 ==> !AllInit(s.disk.items[i]))
    && (s.at != Idle && !AllInit(s.disk.items[i]) ==> !AllInit(s.task.items[i]))
  }

  /** A move is migrated at most once, and only in the run that began its item. */
  ghost predicate MovedOnce(s: Executor, i: nat, j: nat) {
    && s.migrations[(i, j)] <= 1
    && (s.migrations[(i, j)] == 1 ==> i < |s.begun| && s.begun[i] == 1)
    && (InLoop(s.at) && i == s.at.i && s.migrations[(i, j)] == 1 ==> j < NextMove(s.at))
  }

  ghost predicate Shape(s: Executor) {
    && |s.begun| == |s.disk.items| == |s.task.items|
    && (s.at.AtItem? ==> s.at.i <= |s.task.items|)
    && (InLoop(s.at) ==>
          && s.at.i < |s.task.items| && InHand(s.task.items[s.at.i], s.at)
          && (s.at.AtMove? && s.at.j == 0 <==> s.begun[s.at.i] == 0))
  }

  ghost predicate OnceInv(s: Executor) {
    && Shape(s)
    && (forall i: nat :: i < |s.begun| ==> Shown(s, i))
    && (forall i: nat, j: nat :: MovedOnce(s, i, j))
  }

  lemma CreatedOnce(items: seq<seq<Status>>)
    ensures OnceInv(Created(items))
  {
  }

  lemma StepKeepsShape(s: Executor, e: Event)
    requires OnceInv(s) && Enabled(s, e)
    ensures Shape(Step(s, e))
  {
    hide MovedOnce;
    if e.Enter? {
      assert Shown(s, s.at.i);
    }
  }

  lemma StepKeepsShown(s: Executor, e: Event, i: nat)
    requires OnceInv(s) && Enabled(s, e) && i < |s.begun| && Shape(Step(s, e))
    ensures Shown(Step(s, e), i)
  {
    hide MovedOnce;
    assert Shown(s, i);
    if InLoop(s.at) {
      NotInit(s.task.items[s.at.i], s.at.j);
    }
  }

  lemma NotInit(moves: seq<Status>, j: nat)
    ensures j < |moves| ==> !AllInit(moves[j := Running]) && !AllInit(moves[j := Error]) && !AllInit(moves[j := Done])
  {
    if j < |moves| {
      assert moves[j := Running][j] == Running && moves[j := Error][j] == Error && moves[j := Done][j] == Done;
    }
  }

  lemma StepKeepsMoved(s: Executor, e: Event, i: nat, j: nat)
    requires OnceInv(s) && Enabled(s, e)
    ensures MovedOnce(Step(s, e), i, j)
  {
    assert MovedOnce(s, i, j);
    if e.Enter? || InLoop(s.at) {
      assert Shown(s, s.at.i);
    }
  }

  lemma StepKeepsOnce(s: Executor, e: Event)
    requires OnceInv(s) && Enabled(s, e)
    ensures OnceInv(Step(s, e))
  {
    hide Shown, MovedOnce, Step;
    StepKeepsShape(s, e);
    assert |Step(s, e).begun| == |s.begun| by {
      SameLength(s, e);
    }
    forall i: nat | i < |s.begun| ensures Shown(Step(s, e), i) {
      StepKeepsShown(s, e, i);
    }
    forall i: nat, j: nat ensures MovedOnce(Step(s, e), i, j) {
      StepKeepsMoved(s, e, i, j);
    }
  }

  lemma SameLength(s: Executor, e: Event)
    requires Enabled(s, e)
    ensures |Step(s, e).begun| == |s.begun|
  {
  }

  lemma {:induction false} RunKeepsOnce(s: Executor, events: seq<Event>)
    requires OnceInv(s) && CanRun(s, events)
    ensures OnceInv(Run(s, events)) && |Run(s, events).begun| == |s.begun|
    decreases |events|
  {
    hide OnceInv;
    if events != [] {
      SameLength(s, events[0]);
      StepKeepsOnce(s, events[0]);
      RunKeepsOnce(Step(s, events[0]), events[1..]);
    }
  }

  /**
  Whatever crashes, failed updates and new runs there are, no item is begun twice and no move of the plan is migrated
  twice.
  */
  lemma MigratedAtMostOnce(items: seq<seq<Status>>, events: seq<Event>, i: nat, j: nat)
    requires CanRun(Created(items), events) && i < |items|
    ensures |Run(Created(items), events).begun| == |items| && Run(Created(items), events).begun[i] <= 1
    ensures Run(Created(items), events).migrations[(i, j)] <= 1
  {
    CreatedOnce(items);
    RunKeepsOnce(Created(items), events);
    var s := Run(Created(items), events);
    assert MovedOnce(s, i, j);
    assert Shown(s, i);
  }

  // ---------------------------------------------------------------- what the done count means

  function CountDone(items: seq<seq<Status>>): (n: nat)
    ensures n <= |items|
  {
    if items == [] then 0
    else CountDone(items[..|items| - 1]) + if AllDone(items[|items| - 1]) then 1 else 0
  }

  lemma {:induction false} CountSet(items: seq<seq<Status>>, i: nat, moves: seq<Status>)
    requires i < |items|
    ensures CountDone(items[i := moves]) + (if AllDone(items[i]) then 1 else 0)
         == CountDone(items) + if AllDone(moves) then 1 else 0
  {
    var rest := items[..|items| - 1];
    if i < |items| - 1 {
      CountSet(rest, i, moves);
      assert items[i := moves][..|items| - 1] == rest[i := moves];
    } else {
      assert items[i := moves][..|items| - 1] == rest;
    }
  }

  lemma {:induction false} CountFull(items: seq<seq<Status>>, i: nat)
    requires CountDone(items) == |items| && i < |items|
    ensures AllDone(items[i])
  {
    if i < |items| - 1 {
      CountFull(items[..|items| - 1], i);
    }
  }

  /** Recomputing destinations leaves the item at least one move, unless it is the first item. */
  predicate KeepsMoves(s: Executor, e: Event) {
    match e
    case Replan(k) => k > 0 || s.at == AtItem(0)
    case ReplanFails(k, _) => k > 0 || s.at == AtItem(0)
    case _ => true
  }

  predicate AllKeepMoves(s: Executor, events: seq<Event>)
    requires CanRun(s, events)
    decreases |events|
  {
    events != [] ==> KeepsMoves(s, events[0]) && AllKeepMoves(Step(s, events[0]), events[1..])
  }

  /** Only the first item may be without moves. */
  ghost predicate RestKept(items: seq<seq<Status>>) { forall i :: 0 < i < |items| ==> items[i] != [] }

  predicate FirstEmpty(task: Task) { task.items != [] && task.items[0] == [] }

  /** The number of finished items the task may claim: the item in hand does not count yet. */
  function Claimable(task: Task, at: Place): nat {
    if InLoop(at) && at.i < |task.items| then CountDone(task.items[at.i := []]) else CountDone(task.items)
  }

  ghost predicate CountInv(s: Executor) {
    && RestKept(s.disk.items) && RestKept(s.task.items)
    && (!FirstEmpty(s.disk) ==> s.disk.doneNum <= CountDone(s.disk.items))
    && (s.at != Idle && !FirstEmpty(s.task) ==> s.task.doneNum <= Claimable(s.task, s.at))
  }

  lemma StepKeepsRest(s: Executor, e: Event)
    requires CountInv(s) && Enabled(s, e) && KeepsMoves(s, e)
    ensures RestKept(Step(s, e).disk.items) && RestKept(Step(s, e).task.items)
  {
    hide CountDone, AllInit, AllDone;
  }

  /** A task that claims no more than it may can be persisted as it stands. */
  lemma ClaimStored(task: Task, at: Place)
    requires task.doneNum <= Claimable(task, at)
    ensures task.doneNum <= CountDone(task.items)
  {
    if InLoop(at) && at.i < |task.items| {
      CountSet(task.items, at.i, []);
    }
  }

  lemma StepKeepsClaim(s: Executor, e: Event)
    requires Shape(s) && CountInv(s) && Enabled(s, e) && KeepsMoves(s, e)
    ensures Step(s, e).at != Idle && !FirstEmpty(Step(s, e).task) ==>
              Step(s, e).task.doneNum <= Claimable(Step(s, e).task, Step(s, e).at)
  {
    hide CountDone;
    if e.Enter? || e.Replan? {
      InitNotDone(s.task.items[s.at.i]);
      CountSet(s.task.items, s.at.i, if e.Replan? then Fresh(e.k) else []);
    } else if e.ItemDone? {
      CountSet(s.task.items, s.at.i, []);
    } else if e.MarkRunning? || e.MarkDone? {
      SetTwice(s.task.items, s.at.i, s.task.items[s.at.i][s.at.j := if e.MarkDone? then Done else Running]);
    }
  }

  lemma InitNotDone(moves: seq<Status>)
    requires AllInit(moves)
    ensures !AllDone(moves)
  {
    if moves != [] {
      assert moves[0] == Init;
    }
  }

  lemma SetTwice(items: seq<seq<Status>>, i: nat, moves: seq<Status>)
    requires i < |items|
    ensures items[i := moves][i := []] == items[i := []]
  {
  }

  lemma StepKeepsDisk(s: Executor, e: Event)
    requires Shape(s) && CountInv(s) && Enabled(s, e) && KeepsMoves(s, e)
    ensures !FirstEmpty(Step(s, e).disk) ==> Step(s, e).disk.doneNum <= CountDone(Step(s, e).disk.items)
  {
    hide CountDone;
    if s.at != Idle && !FirstEmpty(s.task) {
      ClaimStored(s.task, s.at);
    }
    if e.ReplanFails? {
      InitNotDone(s.task.items[s.at.i]);
      CountSet(s.task.items, s.at.i, Fresh(e.k));
    } else if e.MarkRunning? || e.MarkDone? || e.Fail? {
      var status := if e.MarkDone? then Done else if e.Fail? then Error else Running;
      var moves := s.task.items[s.at.i][s.at.j := status];
      CountSet(s.task.items, s.at.i, []);
      CountSet(s.task.items, s.at.i, moves);
    }
  }

  lemma StepKeepsCount(s: Executor, e: Event)
    requires Shape(s) && CountInv(s) && Enabled(s, e) && KeepsMoves(s, e)
    ensures CountInv(Step(s, e))
  {
    hide Step, RestKept;
    StepKeepsRest(s, e);
    StepKeepsClaim(s, e);
    StepKeepsDisk(s, e);
  }

  lemma {:induction false} RunKeepsCount(s: Executor, events: seq<Event>)
    requires OnceInv(s) && CountInv(s) && CanRun(s, events) && AllKeepMoves(s, events)
    ensures CountInv(Run(s, events)) && OnceInv(Run(s, events))
    decreases |events|
  {
    hide CountInv;
    if events != [] {
      StepKeepsOnce(s, events[0]);
      StepKeepsCount(s, events[0]);
      RunKeepsCount(Step(s, events[0]), events[1..]);
    }
  }

  /**
  As long as no recomputed item but the first is left without moves, a meta node is taken offline only when every move
  of the plan is done; and unless the first item is without moves, the persisted done count never exceeds the number of
  items all of whose moves are done.
  */
  lemma OfflineOnlyWhenDone(items: seq<seq<Status>>, events: seq<Event>)
    requires RestKept(items) && CanRun(Created(items), events) && AllKeepMoves(Created(items), events)
    ensures var s := Run(Created(items), events);
            && (!FirstEmpty(s.disk) ==> s.disk.doneNum <= CountDone(s.disk.items))
            && (Enabled(s, Offline) ==> forall i :: 0 <= i < |s.task.items| ==> AllDone(s.task.items[i]))
  {
    CreatedOnce(items);
    RunKeepsCount(Created(items), events);
    var s := Run(Created(items), events);
    if Enabled(s, Offline) {
      forall i | 0 <= i < |s.task.items| ensures AllDone(s.task.items[i]) {
        CountFull(s.task.items, i);
      }
    }
  }

  // ---------------------------------------------------------------- an item left without moves

  lemma {:induction false} RunAppend(s: Executor, before: seq<Event>, after: seq<Event>)
    requires CanRun(s, before) && CanRun(Run(s, before), after)
    ensures CanRun(s, before + after) && Run(s, before + after) == Run(Run(s, before), after)
    decreases |before|
  {
    if before == [] {
      assert before + after == after;
    } else {
      RunAppend(Step(s, before[0]), before[1..], after);
      assert (before + after)[0] == before[0] && (before + after)[1..] == before[1..] + after;
    }
  }

  function Skips(n: nat): seq<Event> { if n == 0 then [] else [SkipItem] + Skips(n - 1) }

  /** Items that are not ready are passed over, in every run again. */
  lemma {:induction false} SkipsPass(s: Executor, n: nat)
    requires s.at.AtItem? && s.at.i + n <= |s.task.items|
    requires forall k :: s.at.i <= k < s.at.i + n ==> AllInit(s.task.items[k])
    ensures CanRun(s, Skips(n)) && Run(s, Skips(n)) == s.(at := AtItem(s.at.i + n))
    decreases n
  {
    if n > 0 {
      assert Enabled(s, SkipItem);
      SkipsPass(Step(s, SkipItem), n - 1);
      assert Skips(n)[0] == SkipItem && Skips(n)[1..] == Skips(n - 1);
    }
  }

  ghost predicate NoneBegun(items: seq<seq<Status>>) { forall k :: 0 <= k < |items| ==> AllInit(items[k]) }

  /** A run in which only item i of n is found ready. */
  function Reach(i: nat): seq<Event> { [Start] + Skips(i) }

  function Round(n: nat, i: nat): seq<Event>
    requires i < n
  {
    Reach(i) + ([Enter, ItemDone] + (Skips(n - i - 1) + [Finish(true)]))
  }

  function Rounds(n: nat, i: nat, k: nat): seq<Event>
    requires i < n
  {
    if k == 0 then [] else Rounds(n, i, k - 1) + (Round(n, i) + [Crash])
  }

  lemma Reached(s: Executor, i: nat)
    requires s.at == Idle && i < |s.disk.items| && NoneBegun(s.disk.items)
    ensures CanRun(s, Reach(i)) && Run(s, Reach(i)) == s.(task := s.disk, at := AtItem(i))
  {
    var t := Step(s, Start);
    SkipsPass(t, i);
    assert Reach(i)[0] == Start && Reach(i)[1..] == Skips(i);
  }

  lemma RoundCounts(s: Executor, i: nat)
    requires s.at == Idle && i < |s.disk.items| && NoneBegun(s.disk.items)
    requires s.disk.items[i] == []
    ensures var task := s.disk.(doneNum := s.disk.doneNum + 1);
            && CanRun(s, Round(|s.disk.items|, i))
            && Run(s, Round(|s.disk.items|, i)) == s.(task := task, disk := task, at := Finished)
  {
    hide AllInit;
    var n := |s.disk.items|;
    Reached(s, i);
    var s1 := s.(task := s.disk, at := AtItem(i));
    EmptyItemCounts(s1);
    var s2 := s1.(task := s1.task.(doneNum := s1.task.doneNum + 1), at := AtItem(i + 1));
    RestSkipped(s2);
    RunAppend(s1, [Enter, ItemDone], Skips(n - i - 1) + [Finish(true)]);
    RunAppend(s, Reach(i), [Enter, ItemDone] + (Skips(n - i - 1) + [Finish(true)]));
  }

  lemma EmptyItemCounts(s: Executor)
    requires s.at.AtItem? && s.at.i < |s.task.items| && s.task.items[s.at.i] == []
    ensures CanRun(s, [Enter, ItemDone])
    ensures Run(s, [Enter, ItemDone])
         == s.(task := s.task.(doneNum := s.task.doneNum + 1), at := AtItem(s.at.i + 1))
  {
    var t := Step(s, Enter);
    assert Enabled(t, ItemDone);
    assert [Enter, ItemDone][1..] == [ItemDone] && [ItemDone][1..] == [];
  }

  lemma RestSkipped(s: Executor)
    requires s.at.AtItem? && s.at.i <= |s.task.items|
    requires NoneBegun(s.task.items)
    ensures CanRun(s, Skips(|s.task.items| - s.at.i) + [Finish(true)])
    ensures Run(s, Skips(|s.task.items| - s.at.i) + [Finish(true)]) == s.(disk := s.task, at := Finished)
  {
    var n := |s.task.items| - s.at.i;
    SkipsPass(s, n);
    RunAppend(s, Skips(n), [Finish(true)]);
  }

  lemma {:induction false} RoundsCount(s: Executor, i: nat, k: nat)
    requires s.at == Idle && i < |s.disk.items| && NoneBegun(s.disk.items)
    requires s.disk.items[i] == []
    ensures CanRun(s, Rounds(|s.disk.items|, i, k))
    ensures Run(s, Rounds(|s.disk.items|, i, k)).at == Idle
    ensures Run(s, Rounds(|s.disk.items|, i, k)).disk == s.disk.(doneNum := s.disk.doneNum + k)
  {
    hide AllInit;
    if k > 0 {
      var n := |s.disk.items|;
      RoundsCount(s, i, k - 1);
      var s1 := Run(s, Rounds(n, i, k - 1));
      RoundCounts(s1, i);
      RunAppend(s1, Round(n, i), [Crash]);
      RunAppend(s, Rounds(n, i, k - 1), Round(n, i) + [Crash]);
    }
  }

  /** A run that loses the moves of item i, and then finds nothing ready, as many times as there are items. */
  function EmptiedRun(n: nat, i: nat): seq<Event>
    requires i < n
  {
    (Reach(i) + [ReplanFails(0, true)]) + (Rounds(n, i, n - 1) + Round(n, i))
  }

  /**
  The condition cannot be dropped: in any plan, losing the moves of any item but the first leads to the meta node being
  taken offline although no move of the plan was carried out.
  */
  lemma EmptiedItemCountsAsDone(items: seq<seq<Status>>, i: nat)
    requires 0 < i < |items| && NoneBegun(items) && items[0] != [] && items[i] != []
    ensures var events := EmptiedRun(|items|, i);
            && CanRun(Created(items), events) && Enabled(Run(Created(items), events), Offline)
            && Run(Created(items), events).task.items == items[i := []]
  {
    hide AllInit, Created;
    var n := |items|;
    var s := Created(items);
    MovesLost(items, i);
    var s1 := Run(s, Reach(i) + [ReplanFails(0, true)]);
    RoundsCount(s1, i, n - 1);
    var s2 := Run(s1, Rounds(n, i, n - 1));
    RoundCounts(s2, i);
    RunAppend(s1, Rounds(n, i, n - 1), Round(n, i));
    RunAppend(s, Reach(i) + [ReplanFails(0, true)], Rounds(n, i, n - 1) + Round(n, i));
  }

  lemma MovesLost(items: seq<seq<Status>>, i: nat)
    requires 0 < i < |items| && NoneBegun(items) && items[0] != [] && items[i] != []
    ensures CanRun(Created(items), Reach(i) + [ReplanFails(0, true)])
    ensures Run(Created(items), Reach(i) + [ReplanFails(0, true)]).at == Idle
    ensures Run(Created(items), Reach(i) + [ReplanFails(0, true)]).disk == Task(items[i := []], 0)
    ensures NoneBegun(items[i := []])
  {
    MovesLeft(items, i, 0);
    assert Fresh(0) == [];
  }

  // ---------------------------------------------------------------- an item left with some of its moves

  lemma MovesLeft(items: seq<seq<Status>>, i: nat, k: nat)
    requires i < |items| && NoneBegun(items) && items[i] != []
    ensures CanRun(Created(items), Reach(i) + [ReplanFails(k, true)])
    ensures var s := Run(Created(items), Reach(i) + [ReplanFails(k, true)]);
            s.at == Idle && s.disk == Task(items[i := Fresh(k)], 0)
    ensures NoneBegun(items[i := Fresh(k)])
  {
    var s := Created(items);
    Reached(s, i);
    RunAppend(s, Reach(i), [ReplanFails(k, true)]);
  }

  /** Carrying out `k` moves, with every update stored. */
  function Carries(k: nat): seq<Event> {
    if k == 0 then [] else [MarkRunning(Stored), Migrate, MarkDone(Stored)] + Carries(k - 1)
  }

  lemma OneCarried(s: Executor)
    requires s.at.AtMove? && s.at.i < |s.task.items| && s.at.j < |s.task.items[s.at.i]|
    ensures CanRun(s, [MarkRunning(Stored), Migrate, MarkDone(Stored)])
    ensures var t := Run(s, [MarkRunning(Stored), Migrate, MarkDone(Stored)]);
            t.at == AtMove(s.at.i, s.at.j + 1) && t.task == SetMove(s.task, s.at.i, s.at.j, Done)
  {
    hide Run, CanRun, SetMove;
    MarkedTwice(s.task, s.at.i, s.at.j, Running, Done);
    var s1 := Step(s, MarkRunning(Stored));
    var s2 := Step(s1, Migrate);
    OneEvent(s, MarkRunning(Stored));
    OneEvent(s1, Migrate);
    OneEvent(s2, MarkDone(Stored));
    RunAppend(s1, [Migrate], [MarkDone(Stored)]);
    RunAppend(s, [MarkRunning(Stored)], [Migrate] + [MarkDone(Stored)]);
    assert [MarkRunning(Stored)] + ([Migrate] + [MarkDone(Stored)]) == [MarkRunning(Stored), Migrate, MarkDone(Stored)];
  }

  lemma MarkedTwice(task: Task, i: nat, j: nat, a: Status, b: Status)
    requires i < |task.items| && j < |task.items[i]|
    ensures var once := SetMove(task, i, j, a);
            && |once.items| == |task.items| && |once.items[i]| == |task.items[i]|
            && SetMove(once, i, j, b) == SetMove(task, i, j, b)
  {
    var moves := task.items[i];
    assert moves[j := a][j := b] == moves[j := b];
    assert task.items[i := moves[j := a]][i := moves[j := b]] == task.items[i := moves[j := b]];
  }

  lemma {:induction false} AllCarried(s: Executor, k: nat)
    requires s.at.AtMove? && s.at.i < |s.task.items| && s.at.j + k == |s.task.items[s.at.i]|
    requires forall x :: 0 <= x < s.at.j ==> s.task.items[s.at.i][x] == Done
    ensures CanRun(s, Carries(k))
    ensures var t := Run(s, Carries(k));
            && t.at == AtMove(s.at.i, s.at.j + k) && t.task.doneNum == s.task.doneNum
            && |t.task.items| == |s.task.items| && |t.task.items[s.at.i]| == s.at.j + k
            && forall x :: 0 <= x < s.at.j + k ==> t.task.items[s.at.i][x] == Done
    decreases k
  {
    if k > 0 {
      hide Run, CanRun;
      var one := [MarkRunning(Stored), Migrate, MarkDone(Stored)];
      OneCarried(s);
      AllCarried(Run(s, one), k - 1);
      RunAppend(s, one, Carries(k - 1));
    }
  }

  /** A run whose replanning of item i fails with `k` moves found, and one that carries these out. */
  function PartialRun(i: nat, k: nat): seq<Event> {
    (Reach(i) + [ReplanFails(k, true)]) + (Reach(i) + ([Enter] + (Carries(k) + [ItemDone])))
  }

  /**
  Replanning a partition across zones may fail with some of its moves found, while an overloaded replica has none. The
  item is then stored with what was found, and counts as done when that is carried out, however many moves it needs.
  */
  lemma PartialItemCountsAsDone(items: seq<seq<Status>>, i: nat, k: nat)
    requires i < |items| && NoneBegun(items) && items[i] != []
    ensures CanRun(Created(items), PartialRun(i, k))
    ensures var s := Run(Created(items), PartialRun(i, k));
            && s.task.doneNum == 1 && |s.task.items| == |items| && |s.task.items[i]| == k
            && forall x :: 0 <= x < k ==> s.task.items[i][x] == Done
  {
    hide AllInit, Created, Run, CanRun, Carries;
    MovesLeft(items, i, k);
    var s1 := Run(Created(items), Reach(i) + [ReplanFails(k, true)]);
    Reached(s1, i);
    var s2 := Run(s1, Reach(i));
    ItemCarried(s2, k);
    RunAppend(s1, Reach(i), [Enter] + (Carries(k) + [ItemDone]));
    RunAppend(Created(items), Reach(i) + [ReplanFails(k, true)], Reach(i) + ([Enter] + (Carries(k) + [ItemDone])));
  }

  lemma ItemCarried(s: Executor, k: nat)
    requires s.at.AtItem? && s.at.i < |s.task.items| && s.task.items[s.at.i] == Fresh(k)
    ensures CanRun(s, [Enter] + (Carries(k) + [ItemDone]))
    ensures var t := Run(s, [Enter] + (Carries(k) + [ItemDone]));
            && t.task.doneNum == s.task.doneNum + 1 && |t.task.items| == |s.task.items| && |t.task.items[s.at.i]| == k
            && forall x :: 0 <= x < k ==> t.task.items[s.at.i][x] == Done
  {
    hide Run, CanRun, Carries;
    OneEvent(s, Enter);
    var s1 := Step(s, Enter);
    AllCarried(s1, k);
    var s2 := Run(s1, Carries(k));
    OneEvent(s2, ItemDone);
    RunAppend(s1, Carries(k), [ItemDone]);
    RunAppend(s, [Enter], Carries(k) + [ItemDone]);
  }

  lemma OneEvent(s: Executor, e: Event)
    requires Enabled(s, e)
    ensures CanRun(s, [e]) && Run(s, [e]) == Step(s, e)
  {
    assert [e][1..] == [];
  }
}
