/**
 * The message store as a step machine. A step is one effect that a crash can fall before or after:
 * an unlink, a directory sync, a commit, a rename. `writeMu` makes the steps of one process sequential.
 */
module Machine {
  import opened Options
  import opened Sums
  import opened PathOrder
  import opened Tables
  import opened Eviction
  import opened FileSystem
  import opened Recipients

  datatype Config = Config(maxMessage: nat, maxStorage: nat, ttl: int)

  /** The fault latch, with the file it stands for when there is one. */
  datatype Fault = Healthy | Orphan(path: Path, size: nat) | StaleUsage

  datatype Phase =
    | Down
    | Recovering
    | Ready
    | Staging(tmp: Path, raw: Bytes)
    | Placed(path: Path, raw: Bytes)
    | Durable(path: Path, raw: Bytes)

  /**
   * `accepted` records the bytes given to the `Save` of every committed blob, `ceiling` the disk bound
   * of the running process, `leaked` the temporaries it left behind without a record. None of them is
   * read by the program.
   */
  datatype State = State(
    disk: Disk, db: Db, storedBytes: int, storedMessages: int, fault: Fault, cursor: Path,
    phase: Phase, accepted: map<string, Bytes>, ceiling: nat, leaked: map<Path, nat>)

  datatype Event =
    | RemoveFile(p: Path)
    | Sync
    | Reclaim(paths: set<Path>)
    | MoveCursor(c: Path)
    | CreateTemp(tmp: Path, raw: Bytes)
    | WriteTemp(file: File)
    | MoveIntoPlace(path: Path)
    | CommitSave(blobId: string, ms: seq<Message>, before: int, k: nat)
    | DropStaged
    | RecordStaged
    | RecordStale(bytes: int, count: int)
    | Strand
    | LeaveBehind
    | CommitCleanup(before: int, gone: seq<Message>)
    | Stop
    | PowerLoss(after: map<Path, File>)
    | BeginRecovery
    | Renormalize
    | RecordOrphan(p: Path)
    | Load

  const BATCH: nat := 256

  // ----- steps -----

  ghost predicate Up(s: State)
  {
    !s.phase.Down? && !s.phase.Recovering?
  }

  ghost predicate HasStaged(s: State)
  {
    s.phase.Staging? || s.phase.Placed? || s.phase.Durable?
  }

  ghost function StagedPath(s: State): Path
    requires HasStaged(s)
  {
    if s.phase.Staging? then s.phase.tmp else s.phase.path
  }

  /** The size that `Save` knows for its staged file: a stat of the temporary, or the length of the message. */
  ghost function StagedSize(s: State): nat
    requires HasStaged(s)
  {
    if s.phase.Staging? then (if s.phase.tmp in s.disk.files then |s.disk.files[s.phase.tmp].bytes| else 0)
    else |s.phase.raw|
  }

  /** Random names do not collide with any name in use. */
  ghost predicate FreshName(s: State, p: Path)
  {
    && IsMessageFile(p) && p !in s.disk.files && p !in s.disk.unlinked
    && p !in s.db.pending && p !in BlobPaths(s.db.blobs)
  }

  ghost predicate Admits(cfg: Config, s: State, raw: Bytes)
  {
    && s.fault.Healthy?
    && |raw| <= cfg.maxMessage && |raw| <= cfg.maxStorage
    && s.storedBytes <= cfg.maxStorage
    && Sum(s.db.pending) + |raw| <= cfg.maxStorage
  }

  /** `out` is `tx` after giving up the shortest sufficient prefix, of length `k`, of its priority listing. */
  ghost predicate Settles(tx: Db, blobId: string, before: int, charged: int, cap: int, k: nat, out: Db)
  {
    var order := Priority(tx.messages, before, blobId);
    ShortestPrefix(tx, order, k, charged, cap) && DeleteFirst(tx, order, k) == Some(out)
  }

  /** A delivery commits together with its evictions. */
  ghost predicate Commits(cfg: Config, s: State, blobId: string, ms: seq<Message>, before: int, k: nat, t: State)
  {
    && s.phase.Durable? && blobId !in s.accepted
    && Deliverable(s.db, blobId, s.phase.path, |s.phase.raw|, ms)
    && Settles(Deliver(s.db, blobId, s.phase.path, |s.phase.raw|, ms), blobId, before, s.storedBytes + |s.phase.raw|,
               cfg.maxStorage, k, t.db)
    && t == s.(db := t.db, accepted := s.accepted[blobId := s.phase.raw],
               storedBytes := s.storedBytes + |s.phase.raw|,
               storedMessages := s.storedMessages + |ms| - k, phase := Ready)
  }

  ghost predicate NextSave(cfg: Config, s: State, e: Event, t: State)
  {
    match e
    case CreateTemp(tmp, raw) =>
      && s.phase.Ready? && Admits(cfg, s, raw) && FreshName(s, tmp)
      && t == s.(disk := Create(s.disk, tmp), phase := Staging(tmp, raw))
    case WriteTemp(file) =>
      && s.phase.Staging? && file.bytes <= s.phase.raw
      && t == s.(disk := Write(s.disk, s.phase.tmp, file))
    case MoveIntoPlace(path) =>
      && s.phase.Staging? && s.phase.tmp in s.disk.files
      && s.disk.files[s.phase.tmp] == File(s.phase.raw, true)
      && FreshName(s, path)
      && t == s.(disk := Rename(s.disk, s.phase.tmp, path), phase := Placed(path, s.phase.raw))
    case CommitSave(blobId, ms, before, k) => Commits(cfg, s, blobId, ms, before, k, t)
    case DropStaged =>
      HasStaged(s) && t == s.(disk := Unlink(s.disk, StagedPath(s)), phase := Ready)
    case RecordStaged =>
      && HasStaged(s)
      && var db := s.db.(pending := s.db.pending[StagedPath(s) := StagedSize(s)]);
         t == s.(db := db, storedBytes := Charge(db), storedMessages := |db.messages|, phase := Ready)
    case RecordStale(bytes, count) =>
      && HasStaged(s)
      && t == s.(db := s.db.(pending := s.db.pending[StagedPath(s) := StagedSize(s)]),
                 storedBytes := bytes, storedMessages := count, fault := StaleUsage, phase := Ready)
    case Strand =>
      && HasStaged(s)
      && t == s.(storedBytes := s.storedBytes + StagedSize(s),
                 fault := Orphan(StagedPath(s), StagedSize(s)), phase := Ready)
    case LeaveBehind =>
      s.phase.Staging? && t == s.(leaked := s.leaked[s.phase.tmp := StagedSize(s)], phase := Ready)
    case _ => false
  }

  ghost predicate NextUpkeep(s: State, e: Event, t: State)
  {
    match e
    case RemoveFile(p) =>
      s.phase.Ready? && p in s.db.pending && t == s.(disk := Unlink(s.disk, p))
    case Sync =>
      Up(s) && t == s.(disk := SyncDir(s.disk),
                       phase := if s.phase.Placed? then Durable(s.phase.path, s.phase.raw) else s.phase)
    case Reclaim(paths) =>
      && s.phase.Ready? && paths <= s.db.pending.Keys
      && paths !! s.disk.files.Keys && paths !! s.disk.unlinked.Keys
      && t == s.(db := s.db.(pending := s.db.pending - paths),
                 storedBytes := s.storedBytes - Sum(Restrict(s.db.pending, paths)))
    case MoveCursor(c) =>
      s.phase.Ready? && t == s.(cursor := c)
    case CommitCleanup(before, gone) =>
      && s.phase.Ready? && |gone| <= 256 && UniqueIds(gone)
      && (forall m :: m in gone ==> m in s.db.messages && m.expires <= before)
      && DeleteFirst(s.db, gone, |gone|) == Some(t.db)
      && t == s.(db := t.db, storedMessages := s.storedMessages - |gone|)
    case _ => false
  }

  /** `UPDATE messages SET recipient = norm(recipient)`. */
  function Readdress(ms: seq<Message>, norm: string -> string): seq<Message>
  {
    seq(|ms|, i requires 0 <= i < |ms| => ms[i].(recipient := norm(ms[i].recipient)))
  }

  ghost predicate AllListed(s: State)
  {
    forall p :: p in s.disk.files && IsMessageFile(p) ==> p in BlobPaths(s.db.blobs) || p in s.db.pending
  }

  function Max(a: nat, b: nat): nat
  {
    if a < b then b else a
  }

  ghost predicate NextRestart(cfg: Config, s: State, e: Event, t: State)
  {
    match e
    case Stop => t == s.(phase := Down)
    case PowerLoss(after) =>
      CrashImage(s.disk, after) && t == s.(disk := Disk(after, after.Keys, map[]), phase := Down)
    case BeginRecovery => s.phase.Down? && t == s.(phase := Recovering)
    case Renormalize =>
      s.phase.Recovering? && t == s.(db := s.db.(messages := Readdress(s.db.messages, Normalize)))
    case RecordOrphan(p) =>
      && s.phase.Recovering? && p in s.disk.files && IsMessageFile(p) && p !in BlobPaths(s.db.blobs)
      && t == (if p in s.db.pending then s
               else s.(db := s.db.(pending := s.db.pending[p := |s.disk.files[p].bytes|])))
    case Load =>
      && s.phase.Recovering? && AllListed(s)
      && t == s.(storedBytes := Charge(s.db), storedMessages := |s.db.messages|, fault := Healthy, cursor := "",
                 phase := Ready, ceiling := Max(Charge(s.db), cfg.maxStorage + cfg.maxMessage), leaked := map[])
    case _ => false
  }

  ghost predicate Next(cfg: Config, s: State, e: Event, t: State)
  {
    NextSave(cfg, s, e, t) || NextUpkeep(s, e, t) || NextRestart(cfg, s, e, t)
  }

  // ----- the invariant -----

  /** Every blob row's file is durably in place with the bytes given to its `Save`. */
  ghost predicate MailDurable(s: State)
  {
    forall b :: b in s.db.blobs ==>
      && b in s.accepted && |s.accepted[b]| == s.db.blobs[b].size
      && s.db.blobs[b].path in s.disk.solid && s.db.blobs[b].path in s.disk.files
      && s.disk.files[s.db.blobs[b].path] == File(s.accepted[b], true)
  }

  /** No queued file, visible or coming back, is larger than its record. */
  ghost predicate QueueCovers(s: State)
  {
    forall p :: p in s.db.pending ==>
      && (p in s.disk.files ==> |s.disk.files[p].bytes| <= s.db.pending[p])
      && (p in s.disk.unlinked ==> |s.disk.unlinked[p].bytes| <= s.db.pending[p])
  }

  ghost predicate StagedOk(cfg: Config, s: State)
    requires HasStaged(s)
  {
    var p := StagedPath(s);
    && s.fault.Healthy? && |s.phase.raw| <= cfg.maxMessage
    && Charge(s.db) <= cfg.maxStorage && Sum(s.db.pending) + |s.phase.raw| <= cfg.maxStorage
    && p in s.disk.files && p !in BlobPaths(s.db.blobs) && p !in s.db.pending
    && IsMessageFile(p) && |s.disk.files[p].bytes| <= |s.phase.raw|
    && (!s.phase.Staging? ==> s.disk.files[p] == File(s.phase.raw, true))
    && (s.phase.Durable? ==> p in s.disk.solid)
  }

  /** The counters agree with the tables. */
  ghost predicate Books(s: State)
  {
    s.fault.Healthy? ==> s.storedBytes == Charge(s.db) && s.storedMessages == |s.db.messages|
  }

  /** Every message file is named by a blob row or a queue record, staged, left behind, or the latched orphan. */
  ghost predicate Accounted(s: State)
  {
    forall p :: p in s.disk.files && IsMessageFile(p) ==>
      || p in BlobPaths(s.db.blobs) || p in s.db.pending || p in s.leaked
      || (HasStaged(s) && p == StagedPath(s))
      || (s.fault.Orphan? && p == s.fault.path && |s.disk.files[p].bytes| <= s.fault.size)
  }

  /** A temporary that was left behind stays as it is, on disk and in no table. */
  ghost predicate LeaksApart(s: State)
  {
    forall p :: p in s.leaked ==>
      && IsMessageFile(p) && p in s.disk.files && |s.disk.files[p].bytes| == s.leaked[p]
      && p !in BlobPaths(s.db.blobs) && p !in s.db.pending
      && (HasStaged(s) ==> p != StagedPath(s)) && (s.fault.Orphan? ==> p != s.fault.path)
  }

  ghost function StagedBytes(s: State): nat
  {
    if HasStaged(s) then |s.phase.raw| else 0
  }

  ghost function OrphanBytes(s: State): nat
  {
    if s.fault.Orphan? then s.fault.size else 0
  }

  ghost predicate Bounded(cfg: Config, s: State)
  {
    && Charge(s.db) + StagedBytes(s) + OrphanBytes(s) <= s.ceiling
    && cfg.maxStorage + cfg.maxMessage <= s.ceiling
  }

  /** What holds whether or not a process is running. */
  ghost predicate OnDisk(s: State)
  {
    Sane(s.disk) && Consistent(s.db) && MailDurable(s) && QueueCovers(s)
  }

  ghost predicate InMemory(cfg: Config, s: State)
  {
    && Books(s) && Accounted(s) && LeaksApart(s) && Bounded(cfg, s)
    && (HasStaged(s) ==> StagedOk(cfg, s))
  }

  ghost predicate Inv(cfg: Config, s: State)
  {
    OnDisk(s) && (Up(s) ==> InMemory(cfg, s))
  }

  // ----- every step keeps the invariant -----

  lemma KeepCreateTemp(cfg: Config, s: State, tmp: Path, raw: Bytes, t: State)
    requires Inv(cfg, s) && NextSave(cfg, s, CreateTemp(tmp, raw), t)
    ensures Inv(cfg, t)
  {
  }

  lemma KeepWriteTemp(cfg: Config, s: State, file: File, t: State)
    requires Inv(cfg, s) && NextSave(cfg, s, WriteTemp(file), t)
    ensures Inv(cfg, t)
  {
  }

  lemma KeepMoveIntoPlace(cfg: Config, s: State, path: Path, t: State)
    requires Inv(cfg, s) && NextSave(cfg, s, MoveIntoPlace(path), t)
    ensures Inv(cfg, t)
  {
  }

  lemma KeepDropStaged(cfg: Config, s: State, t: State)
    requires Inv(cfg, s) && NextSave(cfg, s, DropStaged, t)
    ensures Inv(cfg, t)
  {
  }

  lemma KeepRecordStaged(cfg: Config, s: State, t: State)
    requires Inv(cfg, s) && NextSave(cfg, s, RecordStaged, t)
    ensures Inv(cfg, t)
  {
    SumInsert(s.db.pending, StagedPath(s), StagedSize(s));
  }

  lemma KeepRecordStale(cfg: Config, s: State, bytes: int, count: int, t: State)
    requires Inv(cfg, s) && NextSave(cfg, s, RecordStale(bytes, count), t)
    ensures Inv(cfg, t)
  {
    SumInsert(s.db.pending, StagedPath(s), StagedSize(s));
  }

  lemma KeepStrand(cfg: Config, s: State, t: State)
    requires Inv(cfg, s) && NextSave(cfg, s, Strand, t)
    ensures Inv(cfg, t)
  {
  }

  lemma KeepLeaveBehind(cfg: Config, s: State, t: State)
    requires Inv(cfg, s) && NextSave(cfg, s, LeaveBehind, t)
    ensures Inv(cfg, t)
  {
  }

  lemma KeepRemoveFile(cfg: Config, s: State, p: Path, t: State)
    requires Inv(cfg, s) && NextUpkeep(s, RemoveFile(p), t)
    ensures Inv(cfg, t)
  {
  }

  lemma KeepSync(cfg: Config, s: State, t: State)
    requires Inv(cfg, s) && NextUpkeep(s, Sync, t)
    ensures Inv(cfg, t)
  {
  }

  lemma KeepReclaim(cfg: Config, s: State, paths: set<Path>, t: State)
    requires Inv(cfg, s) && NextUpkeep(s, Reclaim(paths), t)
    ensures Inv(cfg, t)
  {
    ReclaimOnDisk(s, paths, t);
    ReclaimInMemory(cfg, s, paths, t);
  }

  lemma ReclaimOnDisk(s: State, paths: set<Path>, t: State)
    requires OnDisk(s) && NextUpkeep(s, Reclaim(paths), t)
    ensures OnDisk(t)
  {
  }

  lemma ReclaimInMemory(cfg: Config, s: State, paths: set<Path>, t: State)
    requires InMemory(cfg, s) && NextUpkeep(s, Reclaim(paths), t)
    ensures InMemory(cfg, t)
  {
    SumSplit(s.db.pending, paths);
  }

  lemma KeepPowerLoss(cfg: Config, s: State, after: map<Path, File>, t: State)
    requires Inv(cfg, s) && NextRestart(cfg, s, PowerLoss(after), t)
    ensures Inv(cfg, t)
  {
  }

  lemma KeepRecordOrphan(cfg: Config, s: State, p: Path, t: State)
    requires Inv(cfg, s) && NextRestart(cfg, s, RecordOrphan(p), t)
    ensures Inv(cfg, t)
  {
  }

  lemma KeepLoad(cfg: Config, s: State, t: State)
    requires Inv(cfg, s) && NextRestart(cfg, s, Load, t)
    ensures Inv(cfg, t)
  {
  }

  /** Moving bytes and paths from the blobs to the queue disturbs no file property. */
  lemma MovedKeepsFiles(s: State, db: Db, t: State)
    requires Sane(s.disk) && MailDurable(s) && QueueCovers(s) && Moved(s.db, db)
    requires t.db == db && t.disk == s.disk && t.accepted == s.accepted
    ensures MailDurable(t) && QueueCovers(t)
    ensures forall p :: p in BlobPaths(s.db.blobs) || p in s.db.pending <==> p in BlobPaths(db.blobs) || p in db.pending
  {
    forall p | p in db.pending && p !in s.db.pending
      ensures p in s.disk.files && |s.disk.files[p].bytes| == db.pending[p]
    {
      var b :| b in s.db.blobs && s.db.blobs[b].path == p && s.db.blobs[b].size == db.pending[p];
    }
    forall p | p in BlobPaths(s.db.blobs) ensures p in BlobPaths(db.blobs) || p in db.pending {
      var b :| b in s.db.blobs && s.db.blobs[b].path == p;
      if b in db.blobs {
        assert db.blobs[b].path in BlobPaths(db.blobs);
      }
    }
  }

  lemma KeepCommitCleanup(cfg: Config, s: State, before: int, gone: seq<Message>, t: State)
    requires Inv(cfg, s) && NextUpkeep(s, CommitCleanup(before, gone), t)
    ensures Inv(cfg, t)
  {
    var out := DeleteListed(s.db, gone, |gone|);
    DeleteFirstMoves(s.db, gone, |gone|);
    MovedKeepsFiles(s, t.db, t);
  }

  /** The state between a delivery's inserts and its evictions, inside the transaction. */
  ghost function Delivered(s: State, blobId: string, ms: seq<Message>): State
    requires s.phase.Durable?
  {
    s.(db := Deliver(s.db, blobId, s.phase.path, |s.phase.raw|, ms), accepted := s.accepted[blobId := s.phase.raw])
  }

  lemma DeliveredFiles(cfg: Config, s: State, blobId: string, ms: seq<Message>)
    requires Inv(cfg, s) && s.phase.Durable? && blobId !in s.accepted
    requires Deliverable(s.db, blobId, s.phase.path, |s.phase.raw|, ms)
    ensures OnDisk(Delivered(s, blobId, ms))
    ensures forall p :: p in BlobPaths(s.db.blobs) || p == s.phase.path <==>
        p in BlobPaths(Delivered(s, blobId, ms).db.blobs)
  {
    DeliverConsistent(s.db, blobId, s.phase.path, |s.phase.raw|, ms);
    var blobs := Delivered(s, blobId, ms).db.blobs;
    assert blobs[blobId].path in BlobPaths(blobs);
    forall p | p in BlobPaths(s.db.blobs) ensures p in BlobPaths(blobs) {
      var b :| b in s.db.blobs && s.db.blobs[b].path == p;
      assert blobs[b].path == p;
    }
  }

  /** A commit leaves consistent tables, with the delivery charged and its messages counted. */
  lemma CommitSaveTables(cfg: Config, s: State, blobId: string, ms: seq<Message>, before: int, k: nat, t: State)
    requires Inv(cfg, s) && Commits(cfg, s, blobId, ms, before, k, t)
    ensures Consistent(t.db) && Moved(Delivered(s, blobId, ms).db, t.db)
    ensures Charge(t.db) == Charge(s.db) + |s.phase.raw|
    ensures |t.db.messages| == |s.db.messages| + |ms| - k
  {
    var tx := Delivered(s, blobId, ms).db;
    DeliverConsistent(s.db, blobId, s.phase.path, |s.phase.raw|, ms);
    DeliverCharge(s.db, blobId, s.phase.path, |s.phase.raw|, ms);
    var out := ProgressSurvivors(tx, k, before, blobId);
    DeleteFirstMoves(tx, Priority(tx.messages, before, blobId), k);
  }

  lemma CommitSaveMemory(cfg: Config, s: State, blobId: string, ms: seq<Message>, k: nat, t: State)
    requires InMemory(cfg, s) && s.phase.Durable?
    requires Charge(t.db) == Charge(s.db) + |s.phase.raw| && |t.db.messages| == |s.db.messages| + |ms| - k
    requires t == s.(db := t.db, accepted := s.accepted[blobId := s.phase.raw],
                     storedBytes := s.storedBytes + |s.phase.raw|,
                     storedMessages := s.storedMessages + |ms| - k, phase := Ready)
    requires forall p :: p in BlobPaths(s.db.blobs) || p in s.db.pending || p == s.phase.path <==>
               p in BlobPaths(t.db.blobs) || p in t.db.pending
    ensures InMemory(cfg, t)
  {
  }

  lemma CommitSaveFiles(cfg: Config, s: State, blobId: string, ms: seq<Message>, t: State)
    requires Inv(cfg, s) && s.phase.Durable? && blobId !in s.accepted
    requires Deliverable(s.db, blobId, s.phase.path, |s.phase.raw|, ms)
    requires Consistent(t.db) && Moved(Delivered(s, blobId, ms).db, t.db)
    requires t.disk == s.disk && t.accepted == s.accepted[blobId := s.phase.raw]
    ensures OnDisk(t)
    ensures forall p :: p in BlobPaths(s.db.blobs) || p in s.db.pending || p == s.phase.path <==>
              p in BlobPaths(t.db.blobs) || p in t.db.pending
  {
    DeliveredFiles(cfg, s, blobId, ms);
    MovedKeepsFiles(Delivered(s, blobId, ms), t.db, t);
  }

  lemma KeepCommitSave(cfg: Config, s: State, blobId: string, ms: seq<Message>, before: int, k: nat, t: State)
    requires Inv(cfg, s) && Commits(cfg, s, blobId, ms, before, k, t)
    ensures Inv(cfg, t)
  {
    CommitSaveTables(cfg, s, blobId, ms, before, k, t);
    CommitSaveFiles(cfg, s, blobId, ms, t);
    CommitSaveMemory(cfg, s, blobId, ms, k, t);
  }

  lemma {:induction false} ReaddressKeeps(ms: seq<Message>, norm: string -> string)
    ensures |Readdress(ms, norm)| == |ms|
    ensures forall i :: 0 <= i < |ms| ==> Readdress(ms, norm)[i] == ms[i].(recipient := norm(ms[i].recipient))
    ensures forall b :: Refs(Readdress(ms, norm), b) == Refs(ms, b)
  {
    if ms != [] {
      ReaddressKeeps(ms[1..], norm);
      assert Readdress(ms, norm)[1..] == Readdress(ms[1..], norm);
    }
  }

  lemma ReaddressConsistent(db: Db, norm: string -> string)
    requires Consistent(db)
    ensures Consistent(db.(messages := Readdress(db.messages, norm)))
  {
    var out := Readdress(db.messages, norm);
    ReaddressKeeps(db.messages, norm);
    forall m | m in out ensures m.blobId in db.blobs && db.blobs[m.blobId].size == m.size {
      var i :| 0 <= i < |out| && out[i] == m;
      assert db.messages[i] in db.messages;
    }
  }

  lemma KeepReaddress(cfg: Config, s: State, norm: string -> string, t: State)
    requires Inv(cfg, s) && s.phase.Recovering?
    requires t == s.(db := s.db.(messages := Readdress(s.db.messages, norm)))
    ensures Inv(cfg, t)
  {
    ReaddressConsistent(s.db, norm);
  }

  lemma KeepRenormalize(cfg: Config, s: State, t: State)
    requires Inv(cfg, s) && NextRestart(cfg, s, Renormalize, t)
    ensures Inv(cfg, t)
  {
    KeepReaddress(cfg, s, Normalize, t);
  }

  lemma NextSaveKeepsInv(cfg: Config, s: State, e: Event, t: State)
    requires Inv(cfg, s) && NextSave(cfg, s, e, t)
    ensures Inv(cfg, t)
  {
    match e
    case CreateTemp(tmp, raw) => KeepCreateTemp(cfg, s, tmp, raw, t);
    case WriteTemp(file) => KeepWriteTemp(cfg, s, file, t);
    case MoveIntoPlace(path) => KeepMoveIntoPlace(cfg, s, path, t);
    case CommitSave(blobId, ms, before, k) => KeepCommitSave(cfg, s, blobId, ms, before, k, t);
    case DropStaged => KeepDropStaged(cfg, s, t);
    case RecordStaged => KeepRecordStaged(cfg, s, t);
    case RecordStale(bytes, count) => KeepRecordStale(cfg, s, bytes, count, t);
    case Strand => KeepStrand(cfg, s, t);
    case LeaveBehind => KeepLeaveBehind(cfg, s, t);
  }

  lemma NextUpkeepKeepsInv(cfg: Config, s: State, e: Event, t: State)
    requires Inv(cfg, s) && NextUpkeep(s, e, t)
    ensures Inv(cfg, t)
  {
    match e
    case RemoveFile(p) => KeepRemoveFile(cfg, s, p, t);
    case Sync => KeepSync(cfg, s, t);
    case Reclaim(paths) => KeepReclaim(cfg, s, paths, t);
    case MoveCursor(c) =>
    case CommitCleanup(before, gone) => KeepCommitCleanup(cfg, s, before, gone, t);
  }

  lemma NextRestartKeepsInv(cfg: Config, s: State, e: Event, t: State)
    requires Inv(cfg, s) && NextRestart(cfg, s, e, t)
    ensures Inv(cfg, t)
  {
    match e
    case Stop =>
    case PowerLoss(after) => KeepPowerLoss(cfg, s, after, t);
    case BeginRecovery =>
    case Renormalize => KeepRenormalize(cfg, s, t);
    case RecordOrphan(p) => KeepRecordOrphan(cfg, s, p, t);
    case Load => KeepLoad(cfg, s, t);
  }

  /** No step, failure or crash breaks the invariant. */
  lemma NextKeepsInv(cfg: Config, s: State, e: Event, t: State)
    requires Inv(cfg, s) && Next(cfg, s, e, t)
    ensures Inv(cfg, t)
  {
    if NextSave(cfg, s, e, t) {
      NextSaveKeepsInv(cfg, s, e, t);
    } else if NextUpkeep(s, e, t) {
      NextUpkeepKeepsInv(cfg, s, e, t);
    } else {
      NextRestartKeepsInv(cfg, s, e, t);
    }
  }
}
