/**
The state of one replica of a data partition, split into what lives in memory and what
survives a crash, and the atomic events that change it.

An event is one line (or one system call) of the raft schedule, the raft apply path, the
metadata writer or the restart path, so that a run may interleave them in any order and
crash between any two of them.
*/
module ReplicaModel {

  type Byte = x: int | 0 <= x < 256

  /** One byte position of one extent. */
  datatype Cell = Cell(extent: nat, offset: int)

  type Store = map<Cell, Byte>

  /** What a raft log entry asks for: an overwrite of some bytes of an extent, a JSON command, or a member change. */
  datatype Command =
    | RandomWrite(extent: nat, bytes: Store)
    | JsonCommand
    | MemberChange

  /** The agreed raft log (`log[i]` has index `i + 1`), and the extents the replica started with. */
  datatype Config = Config(log: seq<Command>, base: Store, present: set<nat>)

  /** Where the raft logging schedule stands between loading the applied id and using it. */
  datatype Schedule = Idle | Loaded(id: nat) | Stored(id: nat)

  /** A metadata write in progress: the values already copied into the temporary file, before and after
      the applied id has been copied into memory. */
  datatype Persisting =
    | NoPersist
    | Copied(applyID: nat, truncateID: nat)
    | Updated(applyID: nat, truncateID: nat)

  datatype Replica = Replica(
    // memory
    appliedID: nat,
    metaAppliedID: nat,
    minAppliedID: nat,
    lastTruncateID: nat,
    raftApplied: nat,          // index up to which the raft library has called Apply
    cutRequest: nat,           // largest index handed to raft's asynchronous Truncate
    schedule: Schedule,
    persisting: Persisting,
    // disk
    storedID: nat,             // the apply-index file
    fileApplyID: nat,          // ApplyID in the metadata file
    fileTruncateID: nat,       // LastTruncateID in the metadata file
    store: Store,
    firstCut: nat,             // the raft log holds the indexes firstCut + 1 .. lastIndex
    lastIndex: nat,
    // history
    high: nat,                 // largest index whose application was ever begun
    everApplied: nat           // largest applied id ever held
  )

  datatype Event =
    | Append(n: nat)                   // raft appends entries up to index n
    | DropTail(n: nat)                 // raft removes a conflicting, uncommitted tail
    | PartialWrite(cells: set<Cell>)   // some bytes of the next entry reach the disk
    | ApplyNext                        // the next entry is applied completely
    | LoadID                           // the schedule reads the applied id
    | StoreID                          // ... and renames the apply-index file
    | RequestTruncate                  // ... and asks raft to cut its log
    | CutLog(n: nat)                   // raft cuts its log, some time later
    | StopStore                        // Stop() stores the applied id on its own
    | CopyMetadata                     // PersistMetadata fills the temporary file
    | SetMetaApplied                   // ... copies the applied id into memory
    | RenameMetadata(ok: bool)         // ... and renames the file, or fails to
    | Reload                           // crash, then load from disk
    | SetMin(m: nat)                   // a minimum applied id arrives

  function Max(a: nat, b: nat): nat { if a < b then b else a }
  function Min(a: nat, b: nat): nat { if a < b then a else b }

  // ---------------------------------------------------------------- log effects

  /** The bytes that `data` covers when written to extent `e` at offset `off`. */
  function Bytes(e: nat, off: int, data: seq<Byte>): (bytes: Store)
    ensures forall c :: c in bytes <==> c.extent == e && off <= c.offset < off + |data|
    ensures forall c :: c in bytes ==> bytes[c] == data[c.offset - off]
  {
    if data == [] then map[] else Bytes(e, off, data[..|data| - 1])[Cell(e, off + |data| - 1) := data[|data| - 1]]
  }

  /** The entry for a write of `data` to extent `e` at offset `off`. */
  function Overwrite(e: nat, off: int, data: seq<Byte>): Command {
    RandomWrite(e, Bytes(e, off, data))
  }

  /** The bytes that entry `log[i]` writes; an entry for an extent that does not exist writes none. */
  function Delta(cfg: Config, i: nat): Store
    requires i < |cfg.log|
  {
    match cfg.log[i]
    case RandomWrite(e, bytes) => if e in cfg.present then bytes else map[]
    case _ => map[]
  }

  /** The bytes that `log[lo..hi]` leaves behind when applied in order. */
  function Effect(cfg: Config, lo: nat, hi: nat): Store
    requires hi <= |cfg.log|
    decreases hi
  {
    if lo >= hi then map[] else Effect(cfg, lo, hi - 1) + Delta(cfg, hi - 1)
  }

  /** The contents after applying each of the first `n` entries once, in order. */
  function Replayed(cfg: Config, n: nat): Store
    requires n <= |cfg.log|
  {
    cfg.base + Effect(cfg, 0, n)
  }

  // ---------------------------------------------------------------- steps

  /** An entry is skipped when the metadata file already vouches for it. */
  predicate Skipped(r: Replica, index: nat) { index <= r.metaAppliedID }

  /** Raft can hand over the next entry: it is committed and still in the replica's own log. */
  predicate NextInLog(cfg: Config, r: Replica) {
    r.firstCut <= r.raftApplied < r.lastIndex && r.raftApplied < |cfg.log|
  }

  /** What the next entry writes in this session. */
  function NextDelta(cfg: Config, r: Replica): Store
    requires NextInLog(cfg, r)
  {
    if Skipped(r, r.raftApplied + 1) then map[] else Delta(cfg, r.raftApplied)
  }

  /** Does applying the next entry move the applied id? JSON commands and skipped writes do not. */
  predicate Uploads(cfg: Config, r: Replica)
    requires NextInLog(cfg, r)
  {
    match cfg.log[r.raftApplied]
    case RandomWrite(_, _) => !Skipped(r, r.raftApplied + 1)
    case JsonCommand => false
    case MemberChange => true
  }

  predicate Enabled(cfg: Config, r: Replica, ev: Event) {
    match ev
    case Append(n) => n >= r.lastIndex
    case DropTail(n) => r.high <= n <= r.lastIndex
    case PartialWrite(_) => NextInLog(cfg, r)
    case ApplyNext => NextInLog(cfg, r)
    case LoadID => true
    case StoreID => r.schedule.Loaded?
    case RequestTruncate => r.schedule.Stored?
    case CutLog(n) => r.firstCut <= n <= r.cutRequest
    case StopStore => true
    case CopyMetadata => r.persisting.NoPersist?
    case SetMetaApplied => r.persisting.Copied?
    case RenameMetadata(ok) => r.persisting.Updated? || (r.persisting.Copied? && !ok)
    case Reload => true
    case SetMin(_) => true
  }

  function Step(cfg: Config, r: Replica, ev: Event): Replica
    requires Enabled(cfg, r, ev)
  {
    match ev
    case Append(n) => r.(lastIndex := n)
    case DropTail(n) => r.(lastIndex := n)
    case PartialWrite(cells) =>
      r.(store := r.store + (map c | c in NextDelta(cfg, r) && c in cells :: NextDelta(cfg, r)[c]),
         high := Max(r.high, r.raftApplied + 1))
    case ApplyNext =>
      var applied := if Uploads(cfg, r) then r.raftApplied + 1 else r.appliedID;
      r.(store := r.store + NextDelta(cfg, r),
         raftApplied := r.raftApplied + 1,
         appliedID := applied,
         high := Max(r.high, r.raftApplied + 1),
         everApplied := Max(r.everApplied, applied))
    case LoadID => r.(schedule := Loaded(r.appliedID))
    case StoreID => r.(storedID := r.schedule.id, schedule := Stored(r.schedule.id))
    case RequestTruncate =>
      var index := Min(r.minAppliedID, r.schedule.id);
      r.(cutRequest := Max(r.cutRequest, index), lastTruncateID := index, schedule := Idle)
    case CutLog(n) => r.(firstCut := n)
    case StopStore => r.(storedID := r.appliedID)
    case CopyMetadata => r.(persisting := Copied(r.appliedID, r.lastTruncateID))
    case SetMetaApplied =>
      r.(metaAppliedID := r.appliedID, persisting := Updated(r.persisting.applyID, r.persisting.truncateID))
    case RenameMetadata(ok) =>
      if ok then
        r.(fileApplyID := r.persisting.applyID, fileTruncateID := r.persisting.truncateID, persisting := NoPersist)
      else
        r.(persisting := NoPersist)
    case Reload =>
      r.(appliedID := r.storedID,
         metaAppliedID := r.fileApplyID,
         minAppliedID := 0,
         lastTruncateID := r.fileTruncateID,
         raftApplied := r.storedID,
         cutRequest := 0,
         schedule := Idle,
         persisting := NoPersist)
    case SetMin(m) => r.(minAppliedID := m)
  }

  /** A newly created replica: nothing applied, everything stored as zero. */
  function Created(cfg: Config): Replica {
    Replica(0, 0, 0, 0, 0, 0, Idle, NoPersist, 0, 0, 0, cfg.base, 0, 0, 0, 0)
  }

  // ---------------------------------------------------------------- runs

  predicate CanRun(cfg: Config, r: Replica, evs: seq<Event>)
    decreases |evs|
  {
    evs == [] || (Enabled(cfg, r, evs[0]) && CanRun(cfg, Step(cfg, r, evs[0]), evs[1..]))
  }

  function Run(cfg: Config, r: Replica, evs: seq<Event>): Replica
    requires CanRun(cfg, r, evs)
    decreases |evs|
  {
    if evs == [] then r else Run(cfg, Step(cfg, r, evs[0]), evs[1..])
  }
}
