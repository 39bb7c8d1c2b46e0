/**
The data partition object itself: the methods that the raft library and the logging schedule call on it,
each shown to perform a sequence of the events of ReplicaModel. What is proved there about every run
therefore holds of every interleaving of these methods' individual steps.
*/
module ReplicaNode {
  import opened ReplicaModel

  /** What one attempt to write an entry to the extent store comes back with. */
  datatype WriteOutcome =
    | Written
    | Failed(cells: set<Cell>)     // an error, after some of the bytes may have reached the disk
    | DiskBroken(cells: set<Cell>) // the same, and the error is one of the disk
    | ExtentNotFound
    | StoreClosed

  datatype ApplyResult = Applied | Closed | Panicked

  const WRITE_RETRIES := 20

  class DataPartition {
    const cfg: Config
    // memory
    var appliedID: nat
    var metaAppliedID: nat
    var minAppliedID: nat
    var lastTruncateID: nat
    var raftApplied: nat
    var cutRequest: nat
    ghost var schedule: Schedule
    // disk
    var storedID: nat
    var fileApplyID: nat
    var fileTruncateID: nat
    var store: Store
    var firstCut: nat
    var lastIndex: nat
    // history
    ghost var high: nat
    ghost var everApplied: nat

    ghost function State(): Replica
      reads this
    {
      Replica(appliedID, metaAppliedID, minAppliedID, lastTruncateID, raftApplied, cutRequest, schedule, NoPersist,
              storedID, fileApplyID, fileTruncateID, store, firstCut, lastIndex, high, everApplied)
    }

    constructor (cfg: Config)
      ensures this.cfg == cfg && State() == Created(cfg)
    {
      this.cfg := cfg;
      appliedID, metaAppliedID, minAppliedID, lastTruncateID, raftApplied, cutRequest := 0, 0, 0, 0, 0, 0;
      storedID, fileApplyID, fileTruncateID, firstCut, lastIndex := 0, 0, 0, 0, 0;
      store := cfg.base;
      schedule := Idle;
      high, everApplied := 0, 0;
    }

    /** The periodic store of the applied id. */
    method StoreAppliedIDTick(storeOk: bool)
      modifies this
      ensures CanRun(cfg, old(State()), StoreEvents(storeOk))
      ensures State() == Run(cfg, old(State()), StoreEvents(storeOk))
      ensures storedID == (if storeOk then appliedID else old(storedID)) && appliedID == old(appliedID)
    {
      ghost var start := State();
      var id := appliedID;
      schedule := Loaded(id);
      if storeOk {
        storedID := id;
        schedule := Stored(id);
      }
      RunStore(cfg, start, storeOk);
    }

    /** Copies the metadata out; the copy in memory is updated before the file is renamed. */
    method PersistMetadata(writeOk: bool, renameOk: bool)
      modifies this
      ensures CanRun(cfg, old(State()), PersistEvents(writeOk, renameOk))
      ensures State() == Run(cfg, old(State()), PersistEvents(writeOk, renameOk))
      ensures appliedID == old(appliedID) && metaAppliedID == if writeOk then appliedID else old(metaAppliedID)
      ensures writeOk && renameOk ==> fileApplyID == appliedID && fileTruncateID == lastTruncateID
      ensures !(writeOk && renameOk) ==> fileApplyID == old(fileApplyID) && fileTruncateID == old(fileTruncateID)
      ensures lastTruncateID == old(lastTruncateID) && cutRequest == old(cutRequest) && storedID == old(storedID)
    {
      ghost var start := State();
      RunPersist(cfg, start, writeOk, renameOk);
      var copiedApply, copiedTruncate := appliedID, lastTruncateID;
      if !writeOk {
        return;
      }
      metaAppliedID := appliedID;
      if renameOk {
        fileApplyID, fileTruncateID := copiedApply, copiedTruncate;
      }
    }

    /**
    The truncation branch of the schedule: store the applied id first, then ask raft to cut. When a cut is due and the
    store succeeds, the log is cut at the minimum applied id, or at the own one where that is behind, which is further
    than before, and the cut is recorded.
    */
    method TruncateTick(storeOk: bool, writeOk: bool, renameOk: bool)
      modifies this
      ensures var evs := TruncateEvents(old(State()), storeOk, writeOk, renameOk);
        CanRun(cfg, old(State()), evs) && State() == Run(cfg, old(State()), evs)
      ensures old(minAppliedID > lastTruncateID) && storeOk ==>
                && storedID == old(appliedID) && lastTruncateID <= storedID && lastTruncateID <= old(minAppliedID)
                && (lastTruncateID == storedID || lastTruncateID == old(minAppliedID))
                && (old(appliedID > lastTruncateID) ==> lastTruncateID > old(lastTruncateID))
                && cutRequest >= lastTruncateID && cutRequest >= old(cutRequest)
                && (cutRequest == lastTruncateID || cutRequest == old(cutRequest))
                && (writeOk && renameOk ==> fileTruncateID == lastTruncateID)
      ensures !(old(minAppliedID > lastTruncateID) && storeOk) ==>
                && storedID == old(storedID) && lastTruncateID == old(lastTruncateID) && cutRequest == old(cutRequest)
    {
      hide CanRun, Run, PersistEvents, TruncateEvents, NextInLog, NextDelta, Uploads, Delta;
      ghost var start := State();
      RunTruncate(cfg, start, storeOk, writeOk, renameOk);
      if minAppliedID > lastTruncateID {
        var id := appliedID;
        schedule := Loaded(id);
        if !storeOk {
          return;
        }
        storedID := id;
        schedule := Stored(id);
        var truncIndex := minAppliedID;
        if truncIndex > id {
          truncIndex := id;
        }
        cutRequest := if cutRequest < truncIndex then truncIndex else cutRequest;
        lastTruncateID := truncIndex;
        schedule := Idle;
        PersistMetadata(writeOk, renameOk);
      }
    }

    /**
    Raft hands over the next entry. A write is tried up to twenty times; an error that stays, or one of the disk, is a
    panic, and an extent that is gone counts as written. A closed store leaves the applied id alone while raft's own
    index moves on, which the next load from disk forgets.
    */
    method Apply(attempts: seq<WriteOutcome>) returns (result: ApplyResult, ghost evs: seq<Event>)
      requires NextInLog(cfg, State())
      requires |attempts| == WRITE_RETRIES
      requires ExtentNotFound in attempts ==> Delta(cfg, raftApplied) == map[]
      modifies this
      ensures CanRun(cfg, old(State()), evs)
      ensures !result.Closed? ==> State() == Run(cfg, old(State()), evs)
      ensures result.Applied? ==> evs != [] && evs[|evs| - 1] == ApplyNext
      ensures result.Applied? ==>
                var entry, index := cfg.log[old(raftApplied)], old(raftApplied) + 1;
                var writes := entry.RandomWrite? && index > old(metaAppliedID);
                && raftApplied == index
                && appliedID == (if writes || entry.MemberChange? then index else old(appliedID))
                && (writes && entry.extent in cfg.present ==>
                      forall c :: c in entry.bytes ==> c in store && store[c] == entry.bytes[c])
                && (!writes ==> store == old(store))
      ensures !result.Applied? ==>
                appliedID == old(appliedID) && raftApplied == old(raftApplied) + if result.Closed? then 1 else 0
      ensures result.Closed? ==>
                && State().(raftApplied := old(raftApplied)) == Run(cfg, old(State()), evs)
                && Step(cfg, State(), Reload) == Step(cfg, Run(cfg, old(State()), evs), Reload)
    {
      hide CanRun, Run;
      ghost var start := State();
      evs := [];
      RunNothing(cfg, start, evs);
      if !cfg.log[raftApplied].RandomWrite? || raftApplied + 1 <= metaAppliedID {
        FinishApply(false);
        RunSnoc(cfg, start, evs, ApplyNext);
        result, evs := Applied, evs + [ApplyNext];
        return;
      }
      for i := 0 to WRITE_RETRIES
        invariant CanRun(cfg, start, evs) && State() == Run(cfg, start, evs)
        invariant SameButStore(start)
      {
        var attempt := attempts[i];
        if attempt.StoreClosed? {
          raftApplied := raftApplied + 1;
          return Closed, evs;
        }
        if attempt.Written? || attempt.ExtentNotFound? {
          FinishApply(attempt.Written?);
          RunSnoc(cfg, start, evs, ApplyNext);
          result, evs := Applied, evs + [ApplyNext];
          return;
        }
        FailWrite(attempt.cells);
        RunSnoc(cfg, start, evs, PartialWrite(attempt.cells));
        evs := evs + [PartialWrite(attempt.cells)];
        if attempt.DiskBroken? {
          return Panicked, evs;
        }
      }
      result := Panicked;
    }

    ghost predicate SameButStore(r: Replica)
      reads this
    {
      State() == r.(store := store, high := high)
    }

    /** The entry is done with: its bytes are in the store (or there are none), and the applied id moves on
        unless the entry is a JSON command or one that the metadata file already vouches for. */
    method FinishApply(write: bool)
      requires NextInLog(cfg, State())
      requires !write ==> NextDelta(cfg, State()) == map[]
      requires write ==> !Skipped(State(), raftApplied + 1)
      modifies this
      ensures State() == Step(cfg, old(State()), ApplyNext)
    {
      var command, index := cfg.log[raftApplied], raftApplied + 1;
      if write {
        store := store + Delta(cfg, raftApplied);
      }
      if command.MemberChange? || (command.RandomWrite? && index > metaAppliedID) {
        appliedID := index;
      }
      raftApplied := index;
      high := Max(high, index);
      everApplied := Max(everApplied, appliedID);
      assert store == old(store) + NextDelta(cfg, old(State()));
    }

    /** An attempt fails after some of the bytes have reached the disk. */
    method FailWrite(cells: set<Cell>)
      requires NextInLog(cfg, State()) && !Skipped(State(), raftApplied + 1)
      modifies this
      ensures State() == Step(cfg, old(State()), PartialWrite(cells))
    {
      var delta := Delta(cfg, raftApplied);
      store := store + map c | c in delta && c in cells :: delta[c];
      high := Max(high, raftApplied + 1);
    }

    /** Restart: everything in memory is rebuilt from the two files. */
    method LoadDataPartition()
      modifies `metaAppliedID, `appliedID, `lastTruncateID, `minAppliedID, `raftApplied, `cutRequest, `schedule
      ensures State() == Step(cfg, old(State()), Reload)
      ensures appliedID == raftApplied == storedID && metaAppliedID == fileApplyID && lastTruncateID == fileTruncateID
      ensures minAppliedID == 0 && cutRequest == 0
    {
      hide Step;
      ghost var r := State();
      metaAppliedID := fileApplyID;
      appliedID := storedID;
      lastTruncateID := fileTruncateID;
      minAppliedID := 0;
      raftApplied := appliedID;
      cutRequest := 0;
      schedule := Idle;
      Reloaded(cfg, r);
    }
  }

  /** What is left of a replica when only the disk is. */
  lemma Reloaded(cfg: Config, r: Replica)
    requires r.persisting.NoPersist?
    ensures Step(cfg, r, Reload) ==
            Replica(r.storedID, r.fileApplyID, 0, r.fileTruncateID, r.storedID, 0, Idle, NoPersist,
                    r.storedID, r.fileApplyID, r.fileTruncateID, r.store, r.firstCut, r.lastIndex, r.high,
                    r.everApplied)
  {
  }

  // ---------------------------------------------------------------- the events each method performs

  function StoreEvents(storeOk: bool): seq<Event> {
    if storeOk then [LoadID, StoreID] else [LoadID]
  }

  function PersistEvents(writeOk: bool, renameOk: bool): seq<Event> {
    if writeOk then [CopyMetadata, SetMetaApplied, RenameMetadata(renameOk)] else [CopyMetadata, RenameMetadata(false)]
  }

  function TruncateEvents(r: Replica, storeOk: bool, writeOk: bool, renameOk: bool): seq<Event> {
    if r.minAppliedID <= r.lastTruncateID then []
    else if !storeOk then [LoadID]
    else [LoadID, StoreID, RequestTruncate] + PersistEvents(writeOk, renameOk)
  }

  lemma RunCons(cfg: Config, r: Replica, ev: Event, evs: seq<Event>)
    requires Enabled(cfg, r, ev) && CanRun(cfg, Step(cfg, r, ev), evs)
    ensures CanRun(cfg, r, [ev] + evs) && Run(cfg, r, [ev] + evs) == Run(cfg, Step(cfg, r, ev), evs)
  {
    assert ([ev] + evs)[1..] == evs;
  }

  lemma RunStore(cfg: Config, r: Replica, storeOk: bool)
    ensures CanRun(cfg, r, StoreEvents(storeOk))
    ensures Run(cfg, r, StoreEvents(storeOk)) ==
      (var l := Step(cfg, r, LoadID); if storeOk then Step(cfg, l, StoreID) else l)
  {
    var l := Step(cfg, r, LoadID);
    RunCons(cfg, l, StoreID, []);
    RunCons(cfg, r, LoadID, [StoreID]);
    RunCons(cfg, r, LoadID, []);
    assert [LoadID] + [StoreID] == [LoadID, StoreID];
  }

  lemma RunPersist(cfg: Config, r: Replica, writeOk: bool, renameOk: bool)
    requires r.persisting.NoPersist?
    ensures CanRun(cfg, r, PersistEvents(writeOk, renameOk))
    ensures Run(cfg, r, PersistEvents(writeOk, renameOk)) ==
      if !writeOk then r
      else if !renameOk then r.(metaAppliedID := r.appliedID)
      else r.(metaAppliedID := r.appliedID, fileApplyID := r.appliedID, fileTruncateID := r.lastTruncateID)
  {
    var copied := Step(cfg, r, CopyMetadata);
    if writeOk {
      var ren := RenameMetadata(renameOk);
      RunCons(cfg, Step(cfg, copied, SetMetaApplied), ren, []);
      RunCons(cfg, copied, SetMetaApplied, [ren]);
      RunCons(cfg, r, CopyMetadata, [SetMetaApplied] + [ren]);
      assert [CopyMetadata] + ([SetMetaApplied] + [ren]) == PersistEvents(writeOk, renameOk);
    } else {
      RunCons(cfg, copied, RenameMetadata(false), []);
      RunCons(cfg, r, CopyMetadata, [RenameMetadata(false)]);
      assert [CopyMetadata] + [RenameMetadata(false)] == PersistEvents(writeOk, renameOk);
    }
  }

  /** Storing the applied id and asking raft to cut, before the metadata is written. */
  function CutRequested(r: Replica): Replica {
    var index := Min(r.minAppliedID, r.appliedID);
    r.(storedID := r.appliedID, cutRequest := Max(r.cutRequest, index), lastTruncateID := index, schedule := Idle)
  }

  lemma RunTruncate(cfg: Config, r: Replica, storeOk: bool, writeOk: bool, renameOk: bool)
    requires r.persisting.NoPersist?
    ensures CanRun(cfg, r, TruncateEvents(r, storeOk, writeOk, renameOk))
    ensures CanRun(cfg, CutRequested(r), PersistEvents(writeOk, renameOk))
    ensures Run(cfg, r, TruncateEvents(r, storeOk, writeOk, renameOk)) ==
      if r.minAppliedID <= r.lastTruncateID then r
      else if !storeOk then Step(cfg, r, LoadID)
      else Run(cfg, CutRequested(r), PersistEvents(writeOk, renameOk))
  {
    var p := PersistEvents(writeOk, renameOk);
    RunPersist(cfg, CutRequested(r), writeOk, renameOk);
    if r.minAppliedID > r.lastTruncateID {
      if storeOk {
        var stored := Step(cfg, Step(cfg, r, LoadID), StoreID);
        RunCons(cfg, stored, RequestTruncate, p);
        RunCons(cfg, Step(cfg, r, LoadID), StoreID, [RequestTruncate] + p);
        RunCons(cfg, r, LoadID, [StoreID] + ([RequestTruncate] + p));
        assert [LoadID] + ([StoreID] + ([RequestTruncate] + p)) == TruncateEvents(r, storeOk, writeOk, renameOk);
      } else {
        RunCons(cfg, r, LoadID, []);
      }
    }
  }

  lemma RunNothing(cfg: Config, r: Replica, evs: seq<Event>)
    requires evs == []
    ensures CanRun(cfg, r, evs) && Run(cfg, r, evs) == r
  {
  }

  lemma {:induction false} RunSnoc(cfg: Config, r: Replica, evs: seq<Event>, ev: Event)
    requires CanRun(cfg, r, evs) && Enabled(cfg, Run(cfg, r, evs), ev)
    ensures CanRun(cfg, r, evs + [ev]) && Run(cfg, r, evs + [ev]) == Step(cfg, Run(cfg, r, evs), ev)
    decreases |evs|
  {
    if evs == [] {
      assert evs + [ev] == [ev] && [ev][1..] == [];
    } else {
      assert (evs + [ev])[1..] == evs[1..] + [ev];
      RunSnoc(cfg, Step(cfg, r, evs[0]), evs[1..], ev);
    }
  }
}
