/**
Crash redo: whatever the interleaving of apply, partial writes, metadata writes and crashes,
replaying the replica's own log leaves the extents as if every entry had been applied once,
in order. This needs one guard on PersistMetadata, which is also shown to be the weakest one.
*/
module ReplicaRedo {
  import opened ReplicaModel

  // ---------------------------------------------------------------- overwrites as map unions

  lemma OverwriteAgain(s: Store, base: Store, a: Store, b: Store, c: Store)
    requires s + c == base + (a + (b + c))
    ensures s + (b + c) == base + (a + (b + c))
  {
    var t := base + (a + (b + c));
    assert (s + c).Keys == t.Keys;
    assert (s + (b + c)).Keys == t.Keys;
    forall x | x in t ensures (s + (b + c))[x] == t[x] {
      assert (s + c)[x] == t[x];
    }
  }

  lemma OverwritePart(s: Store, base: Store, a: Store, b: Store, c: Store, part: Store)
    requires s + c == base + (a + (b + c))
    requires forall x :: x in part ==> x in b && part[x] == b[x]
    ensures (s + part) + c == base + (a + (b + c))
  {
    var t := base + (a + (b + c));
    assert (s + c).Keys == t.Keys;
    assert ((s + part) + c).Keys == t.Keys;
    forall x | x in t ensures ((s + part) + c)[x] == t[x] {
      assert (s + c)[x] == t[x];
    }
  }

  lemma OverwriteAssociative(a: Store, b: Store, c: Store)
    ensures (a + b) + c == a + (b + c)
  {
  }

  lemma OverwriteAhead(s: Store, part: Store, b: Store)
    requires forall x :: x in part ==> x in b
    ensures (s + part) + b == s + b
  {
  }

  // ---------------------------------------------------------------- log effects

  lemma {:induction false} EffectSplit(cfg: Config, lo: nat, mid: nat, hi: nat)
    requires lo <= mid <= hi <= |cfg.log|
    ensures Effect(cfg, lo, hi) == Effect(cfg, lo, mid) + Effect(cfg, mid, hi)
    decreases hi
  {
    if mid < hi {
      hide Delta;
      EffectSplit(cfg, lo, mid, hi - 1);
      OverwriteAssociative(Effect(cfg, lo, mid), Effect(cfg, mid, hi - 1), Delta(cfg, hi - 1));
    }
  }

  // ---------------------------------------------------------------- the byte of the last write

  /** The entry is a write of the byte to an extent that exists. */
  predicate Writes(cfg: Config, j: nat, c: Cell) {
    j < |cfg.log| && cfg.log[j].RandomWrite? && cfg.log[j].extent in cfg.present && c in cfg.log[j].bytes
  }

  /** The j-th entry is the last of the first `n` that writes the byte. */
  ghost predicate LastWrite(cfg: Config, n: nat, c: Cell, j: nat) {
    j < n && Writes(cfg, j, c) && forall k :: j < k < n ==> !Writes(cfg, k, c)
  }

  /** A byte is that of the last of the first `n` entries that writes it, and what it was before if there is none. */
  ghost predicate ByteAsWritten(cfg: Config, n: nat, store: Store, c: Cell) {
    && ((forall k: nat :: k < n ==> !Writes(cfg, k, c)) ==>
          (c in store <==> c in cfg.base) && (c in cfg.base ==> c in store && store[c] == cfg.base[c]))
    && (forall j: nat :: LastWrite(cfg, n, c, j) ==> c in store && store[c] == cfg.log[j].bytes[c])
  }

  ghost predicate AsWritten(cfg: Config, n: nat, store: Store) { forall c :: ByteAsWritten(cfg, n, store, c) }

  lemma {:induction false} ReplayedAt(cfg: Config, n: nat, c: Cell)
    requires n <= |cfg.log|
    ensures ByteAsWritten(cfg, n, Replayed(cfg, n), c)
    decreases n
  {
    hide ByteAsWritten, Replayed, Delta;
    if n == 0 {
      NothingWritten(cfg, c);
    } else {
      ReplayedAt(cfg, n - 1, c);
      ReplayedNext(cfg, n - 1);
      WrittenNext(cfg, n - 1, Replayed(cfg, n - 1), c);
    }
  }

  lemma NothingWritten(cfg: Config, c: Cell)
    ensures ByteAsWritten(cfg, 0, Replayed(cfg, 0), c)
  {
    assert cfg.base + map[] == cfg.base;
  }

  lemma ReplayedNext(cfg: Config, n: nat)
    requires n < |cfg.log|
    ensures Replayed(cfg, n + 1) == Replayed(cfg, n) + Delta(cfg, n)
  {
    hide Delta;
    OverwriteAssociative(cfg.base, Effect(cfg, 0, n), Delta(cfg, n));
  }

  /** One more entry. */
  lemma WrittenNext(cfg: Config, n: nat, store: Store, c: Cell)
    requires n < |cfg.log| && ByteAsWritten(cfg, n, store, c)
    ensures ByteAsWritten(cfg, n + 1, store + Delta(cfg, n), c)
  {
    assert c in Delta(cfg, n) <==> Writes(cfg, n, c);
    forall j: nat | LastWrite(cfg, n + 1, c, j)
      ensures c in store + Delta(cfg, n) && (store + Delta(cfg, n))[c] == cfg.log[j].bytes[c]
    {
      if j < n {
        assert !Writes(cfg, n, c) && LastWrite(cfg, n, c, j);
      }
    }
  }

  /** Applying the first `n` entries once each, in order, leaves every byte as written last. */
  lemma ReplayedAsWritten(cfg: Config, n: nat)
    requires n <= |cfg.log|
    ensures AsWritten(cfg, n, Replayed(cfg, n))
  {
    forall c ensures ByteAsWritten(cfg, n, Replayed(cfg, n), c) {
      ReplayedAt(cfg, n, c);
    }
  }

  /** An overwrite of an extent that exists puts its data there. */
  lemma OverwriteLands(cfg: Config, i: nat, e: nat, off: int, data: seq<Byte>, k: nat)
    requires i < |cfg.log| && cfg.log[i] == Overwrite(e, off, data) && e in cfg.present && k < |data|
    ensures Cell(e, off + k) in Replayed(cfg, i + 1) && Replayed(cfg, i + 1)[Cell(e, off + k)] == data[k]
  {
    hide Replayed;
    var c := Cell(e, off + k);
    ReplayedAt(cfg, i + 1, c);
    assert LastWrite(cfg, i + 1, c, i);
  }

  // ---------------------------------------------------------------- replaying

  /** `store` becomes correct up to entry `h` once the entries after `k` are applied again. */
  ghost predicate RedoneFrom(cfg: Config, store: Store, k: nat, h: nat) {
    k <= h <= |cfg.log| && store + Effect(cfg, k, h) == Replayed(cfg, h)
  }

  /** Overwrites are idempotent as a sequence: starting the replay earlier changes nothing. */
  lemma RedoneFromEarlier(cfg: Config, store: Store, k: nat, k': nat, h: nat)
    requires RedoneFrom(cfg, store, k', h) && k <= k'
    ensures RedoneFrom(cfg, store, k, h)
  {
    EffectSplit(cfg, 0, k, h);
    EffectSplit(cfg, k, k', h);
    OverwriteAgain(store, cfg.base, Effect(cfg, 0, k), Effect(cfg, k, k'), Effect(cfg, k', h));
  }

  /** Writing some bytes of entry `i` again keeps a store that is correct from `i + 1` on correct from there. */
  lemma PartialRedo(cfg: Config, store: Store, i: nat, h: nat, part: Store)
    requires i < h && RedoneFrom(cfg, store, i + 1, h)
    requires forall x :: x in part ==> x in Delta(cfg, i) && part[x] == Delta(cfg, i)[x]
    ensures RedoneFrom(cfg, store + part, i + 1, h)
  {
    EffectSplit(cfg, 0, i, h);
    EffectSplit(cfg, i, i + 1, h);
    assert Effect(cfg, i, i + 1) == Delta(cfg, i);
    OverwritePart(store, cfg.base, Effect(cfg, 0, i), Delta(cfg, i), Effect(cfg, i + 1, h), part);
  }

  /** Writing some bytes of entry `i` for the first or a later time, while `i` is still to be replayed. */
  lemma PartialAhead(cfg: Config, store: Store, i: nat, h: nat, part: Store)
    requires i < |cfg.log| && RedoneFrom(cfg, store, i, h)
    requires forall x :: x in part ==> x in Delta(cfg, i) && part[x] == Delta(cfg, i)[x]
    ensures RedoneFrom(cfg, store + part, i, Max(h, i + 1))
  {
    assert Effect(cfg, i, i + 1) == Delta(cfg, i);
    if i == h {
      FirstApplied(cfg, store, i);
      OverwriteAhead(store, part, Delta(cfg, i));
    } else {
      EffectSplit(cfg, i, i + 1, h);
      OverwriteAhead(store, part, Effect(cfg, i, h));
    }
  }

  lemma FirstApplied(cfg: Config, store: Store, i: nat)
    requires i < |cfg.log| && RedoneFrom(cfg, store, i, i)
    ensures store + Delta(cfg, i) == Replayed(cfg, i + 1)
  {
    assert Effect(cfg, i, i) == map[];
    assert store == Replayed(cfg, i);
    assert Effect(cfg, 0, i + 1) == Effect(cfg, 0, i) + Delta(cfg, i);
    OverwriteAssociative(cfg.base, Effect(cfg, 0, i), Delta(cfg, i));
  }

  lemma WholeOverPart(s: Store, d: Store, e: Store, t: Store)
    requires s + (d + e) == t
    ensures (s + d) + e == t
  {
    OverwriteAssociative(s, d, e);
  }

  lemma OneEntry(cfg: Config, i: nat)
    requires i < |cfg.log|
    ensures Effect(cfg, i, i + 1) == Delta(cfg, i) && Effect(cfg, i + 1, i + 1) == map[]
  {
    assert Effect(cfg, i, i) == map[];
  }

  /** Applying entry `i` completely advances the point the replay must start from. */
  lemma AppliedWhole(cfg: Config, store: Store, i: nat, h: nat)
    requires i < |cfg.log| && RedoneFrom(cfg, store, i, h)
    ensures RedoneFrom(cfg, store + Delta(cfg, i), i + 1, Max(h, i + 1))
  {
    OneEntry(cfg, i);
    if i == h {
      FirstApplied(cfg, store, i);
      hide Effect, Delta, Replayed;
      assert store + Delta(cfg, i) + map[] == store + Delta(cfg, i);
    } else {
      EffectSplit(cfg, i, i + 1, h);
      hide Effect, Delta, Replayed;
      WholeOverPart(store, Delta(cfg, i), Effect(cfg, i + 1, h), Replayed(cfg, h));
    }
  }

  // ---------------------------------------------------------------- the invariant

  /** The entries after this one are written again before the replica can be up to date. */
  function ReplayStart(r: Replica): nat { Max(r.raftApplied, r.metaAppliedID) }

  /** The bound on what a reload may skip, now or after the next metadata write. */
  function SkipBound(r: Replica): nat { Max(ReplayStart(r), r.fileApplyID) }

  ghost predicate IdsOrdered(cfg: Config, r: Replica) {
    && r.storedID <= r.appliedID <= r.raftApplied <= r.high <= |cfg.log|
    && r.appliedID <= r.everApplied <= r.high <= r.lastIndex
    && (!r.persisting.NoPersist? ==> r.persisting.applyID <= r.appliedID)
    && (!r.schedule.Idle? ==> r.schedule.id <= r.appliedID)
  }

  ghost predicate SkipOrdered(r: Replica) {
    SkipBound(r) <= r.high && SkipBound(r) <= ReplayStart(r) + 1
  }

  ghost predicate CutOrdered(r: Replica, bound: nat) {
    && r.firstCut <= bound && r.cutRequest <= bound
    && r.lastTruncateID <= bound && r.fileTruncateID <= bound
    && (!r.persisting.NoPersist? ==> r.persisting.truncateID <= bound)
  }

  /** Nothing is cut, nor recorded as cut, beyond what the apply-index file would restore. */
  ghost predicate CutSafe(r: Replica) {
    && CutOrdered(r, r.storedID)
    && (!r.schedule.Idle? ==> CutOrdered(r, r.schedule.id))
    && (r.schedule.Stored? ==> r.schedule.id <= r.storedID)
  }

  ghost predicate RedoInv(cfg: Config, r: Replica) {
    && IdsOrdered(cfg, r)
    && SkipOrdered(r)
    && CutSafe(r)
    && RedoneFrom(cfg, r.store, SkipBound(r), r.high)
  }

  /** The guard on PersistMetadata: replay has come within one entry of the metadata file's ApplyID. */
  predicate Guarded(r: Replica, ev: Event) {
    ev.SetMetaApplied? ==> r.fileApplyID <= r.raftApplied + 1
  }

  predicate GuardedRun(cfg: Config, r: Replica, evs: seq<Event>)
    requires CanRun(cfg, r, evs)
    decreases |evs|
  {
    evs == [] || (Guarded(r, evs[0]) && GuardedRun(cfg, Step(cfg, r, evs[0]), evs[1..]))
  }

  // ---------------------------------------------------------------- one step

  lemma PartialWriteKeepsRedo(cfg: Config, r: Replica, cells: set<Cell>)
    requires RedoInv(cfg, r) && Enabled(cfg, r, PartialWrite(cells))
    ensures RedoInv(cfg, Step(cfg, r, PartialWrite(cells)))
  {
    hide Delta, Effect, Replayed, RedoneFrom;
    var i := r.raftApplied;
    var part := map c | c in NextDelta(cfg, r) && c in cells :: NextDelta(cfg, r)[c];
    if Skipped(r, i + 1) {
      assert r.store + part == r.store;
    } else if SkipBound(r) == i {
      PartialAhead(cfg, r.store, i, r.high, part);
    } else {
      PartialRedo(cfg, r.store, i, r.high, part);
    }
  }

  /** The store part of applying the next entry. */
  lemma ApplyRedone(cfg: Config, r: Replica)
    requires IdsOrdered(cfg, r) && SkipOrdered(r) && RedoneFrom(cfg, r.store, SkipBound(r), r.high)
    requires NextInLog(cfg, r)
    ensures var next := r.raftApplied + 1;
            RedoneFrom(cfg, r.store + NextDelta(cfg, r), Max(SkipBound(r), next), Max(r.high, next))
  {
    hide Delta, Effect, Replayed, RedoneFrom;
    var i := r.raftApplied;
    if Skipped(r, i + 1) {
      assert r.store + map[] == r.store;
    } else {
      RedoneFromEarlier(cfg, r.store, i, SkipBound(r), r.high);
      AppliedWhole(cfg, r.store, i, r.high);
    }
  }

  lemma ApplyKeepsRedo(cfg: Config, r: Replica)
    requires RedoInv(cfg, r) && Enabled(cfg, r, ApplyNext)
    ensures RedoInv(cfg, Step(cfg, r, ApplyNext))
  {
    var r' := Step(cfg, r, ApplyNext);
    StepKeepsCutSafe(cfg, r, ApplyNext);
    ApplyRedone(cfg, r);
    assert SkipBound(r') == Max(SkipBound(r), r.raftApplied + 1);
  }

  lemma StepKeepsIds(cfg: Config, r: Replica, ev: Event)
    requires IdsOrdered(cfg, r) && Enabled(cfg, r, ev)
    ensures IdsOrdered(cfg, Step(cfg, r, ev))
  {
    hide NextDelta, Delta;
  }

  /** The events of the schedule move the bounds. */
  lemma ScheduleKeepsCuts(cfg: Config, r: Replica, ev: Event)
    requires IdsOrdered(cfg, r) && CutSafe(r) && Enabled(cfg, r, ev)
    requires ev.LoadID? || ev.StoreID? || ev.RequestTruncate? || ev.StopStore?
    ensures CutSafe(Step(cfg, r, ev))
  {
  }

  /** The events of PersistMetadata and the restart record the bounds and read them back. */
  lemma RecordKeepsCuts(cfg: Config, r: Replica, ev: Event)
    requires CutSafe(r) && Enabled(cfg, r, ev)
    requires ev.CopyMetadata? || ev.SetMetaApplied? || ev.RenameMetadata? || ev.Reload? || ev.CutLog?
    ensures CutSafe(Step(cfg, r, ev))
  {
  }

  /** The other events leave the bounds alone. */
  lemma OthersKeepCuts(cfg: Config, r: Replica, ev: Event)
    requires CutSafe(r) && Enabled(cfg, r, ev)
    requires ev.Append? || ev.DropTail? || ev.PartialWrite? || ev.ApplyNext? || ev.SetMin?
    ensures CutSafe(Step(cfg, r, ev))
  {
    hide NextDelta, Delta, Uploads;
  }

  /** Needs no guard: no interleaving lets the raft log be cut beyond what a crash would fall back to. */
  lemma StepKeepsCutSafe(cfg: Config, r: Replica, ev: Event)
    requires IdsOrdered(cfg, r) && CutSafe(r) && Enabled(cfg, r, ev)
    ensures IdsOrdered(cfg, Step(cfg, r, ev)) && CutSafe(Step(cfg, r, ev))
  {
    hide Step, IdsOrdered, CutSafe;
    StepKeepsIds(cfg, r, ev);
    if ev.LoadID? || ev.StoreID? || ev.RequestTruncate? || ev.StopStore? {
      ScheduleKeepsCuts(cfg, r, ev);
    } else if ev.CopyMetadata? || ev.SetMetaApplied? || ev.RenameMetadata? || ev.Reload? || ev.CutLog? {
      RecordKeepsCuts(cfg, r, ev);
    } else {
      OthersKeepCuts(cfg, r, ev);
    }
  }

  /** The events that leave the extents alone. */
  lemma StepKeepsSkip(cfg: Config, r: Replica, ev: Event)
    requires IdsOrdered(cfg, r) && SkipOrdered(r) && Enabled(cfg, r, ev) && Guarded(r, ev)
    requires !ev.PartialWrite? && !ev.ApplyNext?
    ensures SkipOrdered(Step(cfg, r, ev)) && SkipBound(Step(cfg, r, ev)) <= SkipBound(r)
    ensures Step(cfg, r, ev).store == r.store && Step(cfg, r, ev).high == r.high
  {
  }

  lemma StepKeepsRedo(cfg: Config, r: Replica, ev: Event)
    requires RedoInv(cfg, r) && Enabled(cfg, r, ev) && Guarded(r, ev)
    ensures RedoInv(cfg, Step(cfg, r, ev))
  {
    if ev.PartialWrite? {
      PartialWriteKeepsRedo(cfg, r, ev.cells);
    } else if ev.ApplyNext? {
      ApplyKeepsRedo(cfg, r);
    } else {
      hide Step, Delta, Effect, Replayed, RedoneFrom, CutSafe;
      StepKeepsCutSafe(cfg, r, ev);
      StepKeepsSkip(cfg, r, ev);
      RedoneFromEarlier(cfg, r.store, SkipBound(Step(cfg, r, ev)), SkipBound(r), r.high);
    }
  }

  // ---------------------------------------------------------------- whole runs

  lemma CreatedIsRedone(cfg: Config)
    ensures RedoInv(cfg, Created(cfg))
  {
    assert cfg.base + map[] == cfg.base;
  }

  lemma {:induction false} RunKeepsRedo(cfg: Config, r: Replica, evs: seq<Event>)
    requires RedoInv(cfg, r) && CanRun(cfg, r, evs) && GuardedRun(cfg, r, evs)
    ensures RedoInv(cfg, Run(cfg, r, evs))
    decreases |evs|
  {
    if evs != [] {
      StepKeepsRedo(cfg, r, evs[0]);
      RunKeepsRedo(cfg, Step(cfg, r, evs[0]), evs[1..]);
    }
  }

  function Repeat(ev: Event, n: nat): seq<Event> { seq(n, _ => ev) }

  /** Raft can always replay up to `n` from the replica's own log, and ends up there. */
  lemma {:induction false} ReplayAvailable(cfg: Config, r: Replica, n: nat)
    requires RedoInv(cfg, r) && r.raftApplied <= n <= r.high
    ensures CanRun(cfg, r, Repeat(ApplyNext, n - r.raftApplied))
    ensures
      var r' := Run(cfg, r, Repeat(ApplyNext, n - r.raftApplied));
      && RedoInv(cfg, r') && r'.raftApplied == n && r'.high == r.high
      && r'.fileApplyID == r.fileApplyID && r'.metaAppliedID == r.metaAppliedID
    decreases n - r.raftApplied
  {
    var evs := Repeat(ApplyNext, n - r.raftApplied);
    if r.raftApplied < n {
      ApplyKeepsRedo(cfg, r);
      assert evs[1..] == Repeat(ApplyNext, n - (r.raftApplied + 1));
      ReplayAvailable(cfg, Step(cfg, r, ApplyNext), n);
    }
  }

  /** Once replay has caught up, the extents are as if every entry had been applied once, in order. */
  lemma CaughtUpIsExact(cfg: Config, r: Replica)
    requires RedoInv(cfg, r) && r.raftApplied == r.high
    ensures r.store == Replayed(cfg, r.high)
  {
    assert SkipBound(r) == r.high;
    assert Effect(cfg, r.high, r.high) == map[];
    assert r.store + map[] == r.store;
  }

  /** After any guarded run, a crash at this point is recovered from the replica's own log alone:
      every entry to be replayed is still in it, and the replay restores exactly the agreed contents, in which every
      byte is that of the last write to it. */
  lemma CrashIsRecovered(cfg: Config, evs: seq<Event>)
    requires CanRun(cfg, Created(cfg), evs) && GuardedRun(cfg, Created(cfg), evs)
    ensures
      var r := Run(cfg, Created(cfg), evs);
      var reloaded := Step(cfg, r, Reload);
      && r.firstCut <= r.storedID <= r.high <= r.lastIndex && r.high <= |cfg.log|
      && var replay := Repeat(ApplyNext, r.high - r.storedID);
      && CanRun(cfg, reloaded, replay)
      && Run(cfg, reloaded, replay).raftApplied == r.high
      && Run(cfg, reloaded, replay).store == Replayed(cfg, r.high)
      && AsWritten(cfg, r.high, Run(cfg, reloaded, replay).store)
  {
    hide Delta, Effect, Replayed, RedoneFrom, Created, AsWritten;
    CreatedIsRedone(cfg);
    RunKeepsRedo(cfg, Created(cfg), evs);
    var r := Run(cfg, Created(cfg), evs);
    StepKeepsRedo(cfg, r, Reload);
    var reloaded := Step(cfg, r, Reload);
    ReplayAvailable(cfg, reloaded, r.high);
    CaughtUpIsExact(cfg, Run(cfg, reloaded, Repeat(ApplyNext, r.high - r.storedID)));
    ReplayedAsWritten(cfg, r.high);
  }

  /** Replicas that started alike agree byte for byte whenever they are caught up to the same index. */
  lemma ReplicasAgree(cfg: Config, evs: seq<Event>, evs': seq<Event>)
    requires CanRun(cfg, Created(cfg), evs) && GuardedRun(cfg, Created(cfg), evs)
    requires CanRun(cfg, Created(cfg), evs') && GuardedRun(cfg, Created(cfg), evs')
    ensures
      var r, r' := Run(cfg, Created(cfg), evs), Run(cfg, Created(cfg), evs');
      r.raftApplied == r.high == r'.raftApplied == r'.high ==> r.store == r'.store && AsWritten(cfg, r.high, r.store)
  {
    hide Delta, Effect, Replayed, RedoneFrom, Created, AsWritten;
    CreatedIsRedone(cfg);
    RunKeepsRedo(cfg, Created(cfg), evs);
    RunKeepsRedo(cfg, Created(cfg), evs');
    var r, r' := Run(cfg, Created(cfg), evs), Run(cfg, Created(cfg), evs');
    if r.raftApplied == r.high == r'.raftApplied == r'.high {
      CaughtUpIsExact(cfg, r);
      CaughtUpIsExact(cfg, r');
      ReplayedAsWritten(cfg, r.high);
    }
  }

  // ---------------------------------------------------------------- the guard is the weakest one

  /** A log of `f` overwrites of one byte, only the last of which writes a one. */
  function OneByteLog(f: nat): Config {
    Config(seq(f, i => Overwrite(0, 0, [if i + 1 == f then 1 else 0])), map[], {0})
  }

  lemma {:induction false} OneByteEffect(f: nat, n: nat)
    requires n <= f
    ensures Effect(OneByteLog(f), 0, n) == if n == 0 then map[] else map[Cell(0, 0) := if n == f then 1 else 0]
  {
    if n > 0 {
      OneByteEffect(f, n - 1);
      OneByteDelta(f, n - 1);
    }
  }

  lemma OneByteDelta(f: nat, i: nat)
    requires i < f
    ensures Delta(OneByteLog(f), i) == map[Cell(0, 0) := if i + 1 == f then 1 else 0]
  {
    assert OneByteLog(f).log[i] == Overwrite(0, 0, [if i + 1 == f then 1 else 0]);
  }

  lemma {:induction false} RunAppend(cfg: Config, r: Replica, evs: seq<Event>, evs': seq<Event>)
    requires CanRun(cfg, r, evs) && CanRun(cfg, Run(cfg, r, evs), evs')
    ensures CanRun(cfg, r, evs + evs') && Run(cfg, r, evs + evs') == Run(cfg, Run(cfg, r, evs), evs')
    decreases |evs|
  {
    if evs == [] {
      assert evs + evs' == evs';
    } else {
      assert (evs + evs')[1..] == evs[1..] + evs';
      RunAppend(cfg, Step(cfg, r, evs[0]), evs[1..], evs');
    }
  }

  lemma {:induction false} GuardedAppend(cfg: Config, r: Replica, evs: seq<Event>, evs': seq<Event>)
    requires CanRun(cfg, r, evs) && CanRun(cfg, Run(cfg, r, evs), evs')
    requires GuardedRun(cfg, r, evs) && GuardedRun(cfg, Run(cfg, r, evs), evs')
    ensures CanRun(cfg, r, evs + evs') && GuardedRun(cfg, r, evs + evs')
    decreases |evs|
  {
    RunAppend(cfg, r, evs, evs');
    if evs == [] {
      assert evs + evs' == evs';
    } else {
      assert (evs + evs')[1..] == evs[1..] + evs';
      GuardedAppend(cfg, Step(cfg, r, evs[0]), evs[1..], evs');
    }
  }

  /** Applying `k` overwrites that are not skipped. */
  lemma {:induction false} ApplyFresh(f: nat, r: Replica, k: nat)
    requires r.metaAppliedID <= r.raftApplied == r.appliedID && r.raftApplied <= r.high
    requires r.firstCut <= r.raftApplied && r.raftApplied + k <= f <= r.lastIndex
    ensures
      var cfg, evs := OneByteLog(f), Repeat(ApplyNext, k);
      && CanRun(cfg, r, evs) && GuardedRun(cfg, r, evs)
      && var r' := Run(cfg, r, evs);
      && r'.raftApplied == r'.appliedID == r.raftApplied + k
      && r'.high == Max(r.high, r.raftApplied + k)
      && r' == r.(raftApplied := r'.raftApplied, appliedID := r'.appliedID, high := r'.high,
                  everApplied := r'.everApplied, store := r'.store)
    decreases k
  {
    if k > 0 {
      assert Repeat(ApplyNext, k)[1..] == Repeat(ApplyNext, k - 1);
      assert OneByteLog(f).log[r.raftApplied] == Overwrite(0, 0, [if r.raftApplied + 1 == f then 1 else 0]);
      ApplyFresh(f, Step(OneByteLog(f), r, ApplyNext), k - 1);
    }
  }

  /** Applying `k` overwrites that the metadata file already vouches for. */
  lemma {:induction false} ApplySkipped(f: nat, r: Replica, k: nat)
    requires r.firstCut <= r.raftApplied && r.raftApplied + k <= f <= r.lastIndex
    requires r.raftApplied + k <= r.metaAppliedID && r.raftApplied + k <= r.high
    ensures
      var cfg, evs := OneByteLog(f), Repeat(ApplyNext, k);
      && CanRun(cfg, r, evs)
      && var r' := Run(cfg, r, evs);
      && r'.raftApplied == r.raftApplied + k && r'.high == r.high && r'.store == r.store
    decreases k
  {
    if k > 0 {
      assert Repeat(ApplyNext, k)[1..] == Repeat(ApplyNext, k - 1);
      assert r.store + map[] == r.store;
      ApplySkipped(f, Step(OneByteLog(f), r, ApplyNext), k - 1);
    }
  }

  /**
  A run that applies `f` entries, with the apply-index file left at `p` and the metadata file at `f`, and crashes.
  */
  function BehindRun(p: nat, f: nat): seq<Event>
    requires p <= f
  {
    [Append(f)] + Repeat(ApplyNext, p) + [LoadID, StoreID] + Repeat(ApplyNext, f - p)
      + [CopyMetadata, SetMetaApplied, RenameMetadata(true), Reload]
  }

  lemma BehindRunReached(p: nat, f: nat)
    requires p < f
    ensures
      var cfg := OneByteLog(f);
      && CanRun(cfg, Created(cfg), BehindRun(p, f)) && GuardedRun(cfg, Created(cfg), BehindRun(p, f))
      && var r := Run(cfg, Created(cfg), BehindRun(p, f));
      && r.raftApplied == r.appliedID == r.storedID == p && r.fileApplyID == r.metaAppliedID == r.high == f
      && r.firstCut == 0 && r.lastIndex == f && r.persisting.NoPersist?
  {
    hide CanRun, Run, GuardedRun, OneByteLog, Repeat;
    var cfg := OneByteLog(f);
    var e0, e1, e2, e3 := [Append(f)], Repeat(ApplyNext, p), [LoadID, StoreID], Repeat(ApplyNext, f - p);
    var e4 := [CopyMetadata, SetMetaApplied, RenameMetadata(true), Reload];
    var r0 := Created(cfg);
    var r1 := Step(cfg, r0, Append(f));
    SingleRun(cfg, r0, Append(f));
    ApplyFresh(f, r1, p);
    GuardedAppend(cfg, r0, e0, e1);
    RunAppend(cfg, r0, e0, e1);
    var r2 := Run(cfg, r1, e1);
    TickRun(cfg, r2);
    GuardedAppend(cfg, r0, e0 + e1, e2);
    RunAppend(cfg, r0, e0 + e1, e2);
    var r3 := Run(cfg, r2, e2);
    ApplyFresh(f, r3, f - p);
    GuardedAppend(cfg, r0, e0 + e1 + e2, e3);
    RunAppend(cfg, r0, e0 + e1 + e2, e3);
    var r4 := Run(cfg, r3, e3);
    PersistThenReload(cfg, r4);
    GuardedAppend(cfg, r0, e0 + e1 + e2 + e3, e4);
    RunAppend(cfg, r0, e0 + e1 + e2 + e3, e4);
  }

  lemma SingleRun(cfg: Config, r: Replica, ev: Event)
    requires Enabled(cfg, r, ev) && !ev.SetMetaApplied?
    ensures CanRun(cfg, r, [ev]) && GuardedRun(cfg, r, [ev]) && Run(cfg, r, [ev]) == Step(cfg, r, ev)
  {
    assert [ev][1..] == [];
  }

  /** The timer reads the applied id and stores it. */
  lemma TickRun(cfg: Config, r: Replica)
    ensures
      var evs := [LoadID, StoreID];
      && CanRun(cfg, r, evs) && GuardedRun(cfg, r, evs)
      && Run(cfg, r, evs) == r.(storedID := r.appliedID, schedule := Stored(r.appliedID))
  {
    assert [LoadID, StoreID][1..] == [StoreID];
    assert [StoreID][1..] == [];
  }

  lemma PersistThenReload(cfg: Config, r: Replica)
    requires r.persisting.NoPersist? && r.fileApplyID <= r.raftApplied + 1
    ensures
      var evs := [CopyMetadata, SetMetaApplied, RenameMetadata(true), Reload];
      && CanRun(cfg, r, evs) && GuardedRun(cfg, r, evs)
      && var r' := Run(cfg, r, evs);
      && r'.raftApplied == r'.appliedID == r'.storedID == r.storedID
      && r'.fileApplyID == r'.metaAppliedID == r.appliedID
      && r'.high == r.high && r'.firstCut == r.firstCut && r'.lastIndex == r.lastIndex && r'.persisting.NoPersist?
      && r'.store == r.store
  {
    var evs := [CopyMetadata, SetMetaApplied, RenameMetadata(true), Reload];
    var r1 := Step(cfg, r, CopyMetadata);
    var r2 := Step(cfg, r1, SetMetaApplied);
    var r3 := Step(cfg, r2, RenameMetadata(true));
    assert evs[1..] == [SetMetaApplied, RenameMetadata(true), Reload];
    assert evs[1..][1..] == [RenameMetadata(true), Reload];
    assert evs[1..][1..][1..] == [Reload];
    assert [Reload][1..] == [];
  }

  /** PersistMetadata runs while replay is behind the metadata file; one more entry is applied, and the
      node crashes before the rename takes effect. Raft then replays everything again. */
  function UnguardedTail(p: nat, f: nat): seq<Event>
    requires p <= f
  {
    [CopyMetadata, SetMetaApplied, ApplyNext, Reload] + Repeat(ApplyNext, f - p)
  }

  /** The guard cannot be weakened: for every pair of positions that violates it there is a log, a guarded run
      reaching that state, and a crash after which the replayed extents hold a stale byte. */
  lemma GuardIsWeakest(p: nat, f: nat)
    requires p + 1 < f
    ensures
      var cfg := OneByteLog(f);
      && CanRun(cfg, Created(cfg), BehindRun(p, f)) && GuardedRun(cfg, Created(cfg), BehindRun(p, f))
      && var r := Run(cfg, Created(cfg), BehindRun(p, f));
      && r.raftApplied == p && r.fileApplyID == f
      && CanRun(cfg, r, UnguardedTail(p, f))
      && var r' := Run(cfg, r, UnguardedTail(p, f));
      && r'.raftApplied == r'.high == f
      && r'.store != Replayed(cfg, f)
  {
    var cfg := OneByteLog(f);
    BehindRunReached(p, f);
    var r := Run(cfg, Created(cfg), BehindRun(p, f));
    var head := [CopyMetadata, SetMetaApplied, ApplyNext, Reload];
    var r1 := Step(cfg, r, CopyMetadata);
    var r2 := Step(cfg, r1, SetMetaApplied);
    OneByteDelta(f, p);
    var r3 := Step(cfg, r2, ApplyNext);
    var r4 := Step(cfg, r3, Reload);
    assert head[1..] == [SetMetaApplied, ApplyNext, Reload];
    assert head[1..][1..] == [ApplyNext, Reload];
    assert head[1..][1..][1..] == [Reload];
    assert [Reload][1..] == [];
    assert CanRun(cfg, r, head) && Run(cfg, r, head) == r4;
    assert r4.store[Cell(0, 0)] == 0;
    ApplySkipped(f, r4, f - p);
    RunAppend(cfg, r, head, Repeat(ApplyNext, f - p));
    OneByteEffect(f, f);
  }
}
