/**
 * The store itself. Its methods follow `store.go` statement by statement; every effect on the host is
 * recorded as a step of the machine, so each history of a `Store` is a run of `Machine`.
 */
module Stores {
  import opened Options
  import opened Sums
  import opened Faults
  import opened PathOrder
  import opened Repeats
  import opened Recipients
  import opened Tables
  import opened Eviction
  import opened FileSystem
  import opened Machine
  import opened Runs
  import opened Queue
  import opened Statements
  import opened Legacy

  datatype DrainError = UnlinkFailed | DrainAborted

  datatype SaveError =
    | NoRecipients | MessageTooLarge | StorageTooSmall | RecoveryRequired
    | AboveLimit | PendingExhausted | IoFailed | LimitExhausted

  /** The refusal of a `Save` past its checks: an operation failed, and nothing else. */
  ghost function Unless(clear: bool): Option<SaveError>
  {
    if clear then None else Some(IoFailed)
  }

  datatype SaveResult = Saved(messages: seq<Message>) | Refused(error: SaveError)

  /**
   * One drain of `batch`: it took the run from state `start` to state `moment`, with the clock of unlinks at
   * `unlinks` when it began and that of drains going from `drains` to `until`.
   */
  datatype Drainage = Drainage(start: nat, moment: nat, unlinks: nat, drains: nat, until: nat, batch: seq<Path>)

  const NO_DRAIN: Drainage := Drainage(0, 0, 0, 0, 0, [])

  datatype CleanupError = TransactionFailed | DrainFailed

  /** `Waiting` for the lock that other operations hold. */
  datatype CleanupOutcome = Returned(error: Option<CleanupError>) | Waiting

  /** Where a batch began: the three clocks and the number of events. */
  datatype Clocks = Clocks(general: nat, drains: nat, unlinks: nat, events: nat)

  datatype GetResult = Found(message: Message, body: Bytes) | NotFound | FileGone | GetFailed

  datatype OpenError = BlobMissing(path: Path) | OpenFailed

  ghost function AfterCommit(s: State, blobId: string, rows: seq<Message>, k: nat, tx: Db): State
    requires s.phase.Durable?
  {
    s.(db := tx, accepted := s.accepted[blobId := s.phase.raw], storedBytes := s.storedBytes + |s.phase.raw|,
       storedMessages := s.storedMessages + (|rows| - k), phase := Ready)
  }

  lemma CommitIsStep(cfg: Config, s: State, blobId: string, rows: seq<Message>, before: int, k: nat, tx: Db)
    requires s.phase.Durable? && blobId !in s.accepted
    requires Deliverable(s.db, blobId, s.phase.path, |s.phase.raw|, rows)
    requires Settles(Deliver(s.db, blobId, s.phase.path, |s.phase.raw|, rows), blobId, before,
                     s.storedBytes + |s.phase.raw|, cfg.maxStorage, k, tx)
    ensures Next(cfg, s, CommitSave(blobId, rows, before, k), AfterCommit(s, blobId, rows, k, tx))
  {
    assert Commits(cfg, s, blobId, rows, before, k, AfterCommit(s, blobId, rows, k, tx));
  }

  ghost function Recorded(s: State): Db
    requires HasStaged(s)
  {
    s.db.(pending := s.db.pending[StagedPath(s) := StagedSize(s)])
  }

  lemma RecordIsStep(cfg: Config, s: State)
    requires HasStaged(s)
    ensures Next(cfg, s, RecordStaged, s.(db := Recorded(s), storedBytes := Charge(Recorded(s)),
                                          storedMessages := |s.db.messages|, phase := Ready))
  {
  }

  lemma RecordStaleIsStep(cfg: Config, s: State, bytes: int, count: int)
    requires HasStaged(s)
    ensures Next(cfg, s, RecordStale(bytes, count), s.(db := Recorded(s), storedBytes := bytes, storedMessages := count,
                                                       fault := StaleUsage, phase := Ready))
  {
  }

  lemma LoadIsStep(cfg: Config, s: State)
    requires s.phase.Recovering? && AllListed(s)
    ensures Next(cfg, s, Load, s.(storedBytes := Charge(s.db), storedMessages := |s.db.messages|, fault := Healthy,
                                  cursor := "", phase := Ready,
                                  ceiling := Max(Charge(s.db), cfg.maxStorage + cfg.maxMessage), leaked := map[]))
  {
  }

  /** Every stored recipient in its normal form. */
  function Renormalized(db: Db): Db
  {
    db.(messages := Readdress(db.messages, Normalize))
  }

  lemma RenormalizeIsStep(cfg: Config, s: State)
    requires s.phase.Recovering?
    ensures Next(cfg, s, Renormalize, s.(db := Renormalized(s.db)))
  {
  }

  /** What `Save` puts in the i-th message row. */
  function Row(id: string, name: string, from: string, subject: string, now: int, ttl: int, size: nat,
               blobId: string): Message
  {
    Message(id, name, from, subject, now, now + ttl, size, blobId)
  }

  function Rows(ids: seq<string>, names: seq<string>, from: string, subject: string, now: int, ttl: int, size: nat,
                blobId: string): seq<Message>
    requires |names| <= |ids|
  {
    seq(|names|, i requires 0 <= i < |names| => Row(ids[i], names[i], from, subject, now, ttl, size, blobId))
  }

  function Addressees(ms: seq<Message>): set<string>
  {
    set m | m in ms :: m.recipient
  }

  function Mailboxes(recipients: seq<string>): set<string>
  {
    set a | a in recipients :: Normalize(a)
  }

  /** The `i`-th row has the `i`-th id, and all of them the delivery's own sender, subject, times, size and blob. */
  ghost predicate Alike(ms: seq<Message>, ids: seq<string>, from: string, subject: string, now: int, ttl: int,
                        size: nat, blobId: string)
  {
    && |ms| <= |ids|
    && forall i :: 0 <= i < |ms| ==>
         && ms[i].id == ids[i] && ms[i].from == from && ms[i].subject == subject
         && ms[i].received == now && ms[i].expires == now + ttl && ms[i].size == size && ms[i].blobId == blobId
  }

  /** The rows of one delivery: one for each mailbox that some recipient names. */
  ghost predicate AddressedTo(ms: seq<Message>, recipients: seq<string>, ids: seq<string>, from: string,
                              subject: string, now: int, ttl: int, size: nat, blobId: string)
  {
    && Alike(ms, ids, from, subject, now, ttl, size, blobId) && Addressees(ms) == Mailboxes(recipients)
    && forall i, j :: 0 <= i < j < |ms| ==> ms[i].recipient != ms[j].recipient
  }

  lemma RowsName(ids: seq<string>, names: seq<string>, from: string, subject: string, now: int, ttl: int, size: nat,
                 blobId: string)
    requires |names| <= |ids|
    ensures Addressees(Rows(ids, names, from, subject, now, ttl, size, blobId)) == set x | x in names
  {
    var ms := Rows(ids, names, from, subject, now, ttl, size, blobId);
    forall x | x in names ensures x in Addressees(ms) {
      var i :| 0 <= i < |names| && names[i] == x;
      assert ms[i] in ms;
    }
  }

  lemma NormalizedSet(recipients: seq<string>)
    ensures (set x | x in NormalizeAll(recipients)) == Mailboxes(recipients)
  {
    var all := NormalizeAll(recipients);
    forall a | a in recipients ensures Normalize(a) in all {
      var i :| 0 <= i < |recipients| && recipients[i] == a;
      assert all[i] == Normalize(a);
    }
    forall x | x in all ensures x in Mailboxes(recipients) {
      var i :| 0 <= i < |all| && all[i] == x;
      assert recipients[i] in recipients;
    }
  }

  lemma DistinctSet(all: seq<string>)
    ensures (set x | x in Distinct(all)) == (set x | x in all)
    ensures forall i, j :: 0 <= i < j < |Distinct(all)| ==> Distinct(all)[i] != Distinct(all)[j]
  {
    var at := DistinctIsFirstOccurrences(all);
    DistinctMembers(all);
  }

  lemma RowsAlike(ids: seq<string>, names: seq<string>, from: string, subject: string, now: int, ttl: int, size: nat,
                  blobId: string)
    requires |names| <= |ids| && forall i, j :: 0 <= i < j < |names| ==> names[i] != names[j]
    ensures var ms := Rows(ids, names, from, subject, now, ttl, size, blobId);
            && Alike(ms, ids, from, subject, now, ttl, size, blobId)
            && forall i, j :: 0 <= i < j < |ms| ==> ms[i].recipient != ms[j].recipient
  {
  }

  lemma RowsAreAddressed(recipients: seq<string>, all: seq<string>, names: seq<string>, ids: seq<string>, from: string,
                         subject: string, now: int, ttl: int, size: nat, blobId: string)
    requires all == NormalizeAll(recipients) && names == Distinct(all) && |names| <= |ids|
    ensures AddressedTo(Rows(ids, names, from, subject, now, ttl, size, blobId),
                        recipients, ids, from, subject, now, ttl, size, blobId)
  {
    NormalizedSet(recipients);
    DistinctSet(all);
    RowsName(ids, names, from, subject, now, ttl, size, blobId);
    RowsAlike(ids, names, from, subject, now, ttl, size, blobId);
  }

  lemma AddresseeIsNormal(ms: seq<Message>, recipients: seq<string>, m: Message)
    requires Addressees(ms) == Mailboxes(recipients) && m in ms
    ensures Normal(m)
  {
    assert m.recipient in Addressees(ms);
    var a :| a in recipients && Normalize(a) == m.recipient;
    NormalizeTwice(a);
    NormalFormStays(m.recipient);
  }

  lemma RowsFit(db: Db, ids: seq<string>, names: seq<string>, from: string, subject: string, now: int, ttl: int,
                size: nat, blobId: string)
    requires |names| <= |ids| && UniqueIds(db.messages)
    requires forall i, j :: 0 <= i < j < |ids| ==> ids[i] != ids[j]
    requires forall m :: m in db.messages ==> m.id !in ids
    ensures var rows := Rows(ids, names, from, subject, now, ttl, size, blobId);
            && UniqueIds(db.messages + rows)
            && (forall m :: m in rows ==> m.blobId == blobId && m.size == size)
  {
    var rows := Rows(ids, names, from, subject, now, ttl, size, blobId);
    forall i, j | 0 <= i < |db.messages| && 0 <= j < |rows| ensures db.messages[i].id != rows[j].id {
      assert rows[j].id in ids && db.messages[i] in db.messages;
    }
  }

  lemma DistinctCount(recipients: seq<string>)
    ensures |Distinct(NormalizeAll(recipients))| <= |recipients|
    ensures Distinct(NormalizeAll(recipients)) == [] <==> recipients == []
  {
    var names := NormalizeAll(recipients);
    DistinctMembers(names);
    if recipients != [] {
      assert names[0] in Distinct(names);
    }
  }

  /** The directory after the first `i` paths were tried, the j-th at tick `t + j`. */
  function UnlinkEach(disk: Disk, paths: seq<Path>, i: nat, oracle: Oracle, t: nat): Disk
    requires i <= |paths|
  {
    if i == 0 then disk
    else
      var d := UnlinkEach(disk, paths, i - 1, oracle, t);
      if oracle(t + i - 1) then Unlink(d, paths[i - 1]) else d
  }

  /** Those of them whose unlink succeeded, in order. */
  function Gone(paths: seq<Path>, i: nat, oracle: Oracle, t: nat): set<Path>
    requires i <= |paths|
  {
    if i == 0 then {}
    else Gone(paths, i - 1, oracle, t) + (if oracle(t + i - 1) then {paths[i - 1]} else {})
  }

  /** The bytes recorded for these. */
  function BytesGone(pending: map<Path, nat>, paths: seq<Path>, i: nat, oracle: Oracle, t: nat): nat
    requires i <= |paths| && forall p :: p in paths ==> p in pending
  {
    if i == 0 then 0
    else BytesGone(pending, paths, i - 1, oracle, t) + (if oracle(t + i - 1) then pending[paths[i - 1]] else 0)
  }

  function NoneFailed(i: nat, oracle: Oracle, t: nat): bool
  {
    i == 0 || (NoneFailed(i - 1, oracle, t) && oracle(t + i - 1))
  }

  lemma {:induction false} NoneFailedIsFaultless(i: nat, oracle: Oracle, t: nat)
    ensures NoneFailed(i, oracle, t) <==> Faultless(oracle, t, t + i)
  {
    if i > 0 {
      NoneFailedIsFaultless(i - 1, oracle, t);
    }
  }

  lemma OnlyOnce(paths: seq<Path>, i: nat)
    requires i < |paths| && Ascending(paths)
    ensures forall j :: 0 <= j < |paths| && j != i ==> paths[j] != paths[i]
  {
    LessIrreflexive(paths[i]);
  }

  /** Exactly those are gone whose unlink succeeded. */
  lemma {:induction false} GoneAsAllowed(paths: seq<Path>, i: nat, oracle: Oracle, t: nat)
    requires i <= |paths| && Ascending(paths)
    ensures forall p :: p in Gone(paths, i, oracle, t) ==> p in paths
    ensures forall j :: 0 <= j < |paths| ==> (paths[j] in Gone(paths, i, oracle, t) <==> j < i && oracle(t + j))
  {
    if i > 0 {
      GoneAsAllowed(paths, i - 1, oracle, t);
      OnlyOnce(paths, i - 1);
    }
  }

  lemma {:induction false} UnlinkedFiles(disk: Disk, paths: seq<Path>, i: nat, oracle: Oracle, t: nat)
    requires i <= |paths|
    ensures var d := UnlinkEach(disk, paths, i, oracle, t);
            && d.files.Keys <= disk.files.Keys && d.unlinked.Keys <= disk.unlinked.Keys + (set p | p in paths)
            && Gone(paths, i, oracle, t) !! d.files.Keys
  {
    if i > 0 {
      UnlinkedFiles(disk, paths, i - 1, oracle, t);
    }
  }

  lemma {:induction false} BytesOfGone(pending: map<Path, nat>, paths: seq<Path>, i: nat, oracle: Oracle, t: nat)
    requires i <= |paths| && Ascending(paths) && forall p :: p in paths ==> p in pending
    ensures BytesGone(pending, paths, i, oracle, t) == Sum(Restrict(pending, Gone(paths, i, oracle, t)))
  {
    if i == 0 {
      assert Restrict(pending, {}) == map[];
    } else {
      BytesOfGone(pending, paths, i - 1, oracle, t);
      GoneAsAllowed(paths, i - 1, oracle, t);
      var gone := Gone(paths, i - 1, oracle, t);
      if oracle(t + i - 1) {
        RestrictMore(pending, gone, paths[i - 1]);
      } else {
        assert gone + {} == gone;
      }
    }
  }

  /** Of the records in `batch`, tried in order from tick `t` on, exactly those are still queued whose unlink failed. */
  ghost predicate KeptFailures(batch: seq<Path>, pending: set<Path>, oracle: Oracle, t: nat)
  {
    forall j :: 0 <= j < |batch| ==> (batch[j] in pending <==> !oracle(t + j))
  }

  /** Of the files, exactly those in `batch` went whose unlink, tried in order from tick `t` on, succeeded. */
  ghost predicate TookAway(files: map<Path, File>, batch: seq<Path>, oracle: Oracle, t: nat, files': map<Path, File>)
  {
    && (forall p :: p in files' ==> p in files && files'[p] == files[p])
    && (forall p :: p in files && p !in batch ==> p in files')
    && (forall j :: 0 <= j < |batch| && batch[j] in files ==> (batch[j] in files' <==> !oracle(t + j)))
  }

  lemma {:induction false} UnlinkedTook(disk: Disk, paths: seq<Path>, i: nat, oracle: Oracle, t: nat)
    requires i <= |paths|
    ensures UnlinkEach(disk, paths, i, oracle, t).files == disk.files - Gone(paths, i, oracle, t)
  {
    if i > 0 {
      UnlinkedTook(disk, paths, i - 1, oracle, t);
    }
  }

  /** A further batch decides its own records only. */
  lemma KeptMore(seen: seq<Path>, batch: seq<Path>, pending: set<Path>, pending': set<Path>, oracle: Oracle, t: nat)
    requires Ascending(seen + batch) && pending' <= pending
    requires forall p :: p in pending && p !in batch ==> p in pending'
    requires KeptFailures(seen, pending, oracle, t) && KeptFailures(batch, pending', oracle, t + |seen|)
    ensures KeptFailures(seen + batch, pending', oracle, t)
  {
    var all := seen + batch;
    forall j | 0 <= j < |all| ensures all[j] in pending' <==> !oracle(t + j) {
      if j < |seen| {
        assert all[j] == seen[j] && seen[j] !in batch by {
          if i :| 0 <= i < |batch| && batch[i] == seen[j] {
            assert all[|seen| + i] == batch[i];
            LessIrreflexive(seen[j]);
          }
        }
      } else {
        assert all[j] == batch[j - |seen|];
      }
    }
  }

  lemma Regroup(a: seq<Path>, b: seq<Path>, c: seq<Path>)
    ensures a + b + c == a + (b + c)
  {
  }

  lemma AppendNext(a: seq<Path>, paths: seq<Path>, i: nat)
    requires i < |paths|
    ensures a + paths[..i] + [paths[i]] == a + paths[..i + 1]
  {
  }

  lemma RestrictMore(m: map<Path, nat>, s: set<Path>, p: Path)
    requires p in m && p !in s
    ensures Sum(Restrict(m, s + {p})) == Sum(Restrict(m, s)) + m[p]
  {
    SumInsert(Restrict(m, s), p, m[p]);
    assert Restrict(m, s + {p}) == Restrict(m, s)[p := m[p]];
  }

  /** Only records of `batch` left the queue, and exactly their bytes left the charge. */
  ghost predicate Unqueued(pending: map<Path, nat>, stored: int, pending': map<Path, nat>, stored': int,
                           batch: seq<Path>)
  {
    && pending'.Keys <= pending.Keys
    && (forall p :: p in pending' ==> pending'[p] == pending[p])
    && (forall p :: p in pending && p !in batch ==> p in pending')
    && stored' - Sum(pending') == stored - Sum(pending)
  }

  lemma UnqueuedLowers(pending: map<Path, nat>, stored: int, pending': map<Path, nat>, stored': int, batch: seq<Path>)
    requires Unqueued(pending, stored, pending', stored', batch)
    ensures stored' <= stored
  {
    SumMonotone(pending', pending);
  }

  /** The sweep so far: `seen` are the records up to `from`, the queue still holds all beyond. */
  ghost predicate Swept(initial: set<Path>, pending: set<Path>, from: Path, seen: seq<Path>)
  {
    && pending <= initial && Ascending(seen)
    && (forall p :: p in seen ==> p in initial && !Less(from, p) && p != "")
    && (forall p :: p in initial && Less(from, p) ==> p in pending)
    && (forall p :: p in initial && !Less(from, p) && p != "" ==> p in seen)
  }

  lemma SweptNothing(pending: set<Path>)
    ensures Swept(pending, pending, "", [])
  {
  }

  lemma AscendingConcat(a: seq<Path>, from: Path, b: seq<Path>)
    requires Ascending(a) && Ascending(b)
    requires forall p :: p in a ==> !Less(from, p)
    requires forall p :: p in b ==> Less(from, p)
    ensures Ascending(a + b)
  {
    forall i, j | 0 <= i < |a| && 0 <= j < |b| ensures Less(a[i], b[j]) {
      LessTotal(from, a[i]);
      if a[i] != from {
        LessTransitive(a[i], from, b[j]);
      }
    }
  }

  /** One more batch: a full one carries the sweep to its last record, a short one completes it. */
  lemma SweptMore(initial: set<Path>, pending: set<Path>, from: Path, seen: seq<Path>, batch: seq<Path>,
                  pending': set<Path>)
    requires Swept(initial, pending, from, seen) && IsBatch(pending, from, batch)
    requires pending' <= pending && (forall p :: p in pending && p !in batch ==> p in pending')
    ensures Ascending(seen + batch)
    ensures |batch| == BATCH ==> Swept(initial, pending', batch[BATCH - 1], seen + batch)
    ensures |batch| < BATCH ==> forall p :: p != "" ==> (p in seen + batch <==> p in initial)
  {
    AscendingConcat(seen, from, batch);
    if |batch| == BATCH {
      var c := batch[BATCH - 1];
      forall p | p in seen + batch ensures !Less(c, p) {
        if Less(c, p) {
          var i :| 0 <= i < |seen + batch| && (seen + batch)[i] == p;
          assert (seen + batch)[|seen| + BATCH - 1] == c;
          LessIrreflexive(c);
          LessTransitive(c, p, c);
        }
      }
      forall p | p in initial && Less(c, p) ensures p in pending' {
        LessTransitive(from, c, p);
        assert p !in seen + batch;
      }
    }
  }

  /** Only message files without a blob row were added to the queue, each with its size. */
  ghost predicate OrphansQueued(pending: map<Path, nat>, pending': map<Path, nat>, blobs: map<string, Blob>,
                                files: map<Path, File>)
  {
    && (forall p :: p in pending ==> p in pending' && pending'[p] == pending[p])
    && (forall p :: p in pending' && p !in pending ==>
          && p in files && IsMessageFile(p) && (forall b :: b in blobs ==> blobs[b].path != p)
          && pending'[p] == |files[p].bytes|)
  }

  /** The message files that no blob row names. */
  function Orphaned(files: map<Path, File>, blobs: map<string, Blob>): set<Path>
  {
    set p | p in files && IsMessageFile(p) && p !in BlobPaths(blobs)
  }

  /** Once every message file is listed, exactly the orphans have joined the queue. */
  lemma AllQueued(pending: map<Path, nat>, s: State)
    requires OrphansQueued(pending, s.db.pending, s.db.blobs, s.disk.files)
    ensures AllListed(s) ==> s.db.pending.Keys == pending.Keys + Orphaned(s.disk.files, s.db.blobs)
  {
    forall p | p in s.db.pending && p !in pending ensures p in Orphaned(s.disk.files, s.db.blobs) {
      assert forall b :: b in s.db.blobs ==> s.db.blobs[b].path != p;
    }
  }

  lemma MoreOrphans(a: map<Path, nat>, b: map<Path, nat>, c: map<Path, nat>, blobs: map<string, Blob>,
                    files: map<Path, File>)
    requires OrphansQueued(a, b, blobs, files) && OrphansQueued(b, c, blobs, files)
    ensures OrphansQueued(a, c, blobs, files)
  {
  }

  lemma {:induction false} IdsCount(ms: seq<Message>)
    requires UniqueIds(ms)
    ensures |set m | m in ms| == |ms|
  {
    if ms == [] {
      assert (set m | m in ms) == {};
    } else {
      var init, last := ms[..|ms| - 1], ms[|ms| - 1];
      IdsCount(init);
      assert (set m | m in ms) == (set m | m in init) + {last};
    }
  }

  /** Of `prior` only messages expired at `before` are missing in `now`, and there are `n` of them. */
  ghost predicate Cleaned(prior: seq<Message>, now: seq<Message>, n: nat, before: int)
  {
    && |now| == |prior| - n && (forall m :: m in now ==> m in prior)
    && (forall m :: m in prior && m !in now ==> m.expires <= before)
  }

  lemma CleanedMore(a: seq<Message>, b: seq<Message>, c: seq<Message>, n: nat, k: nat, before: int)
    requires Cleaned(a, b, n, before) && Cleaned(b, c, k, before)
    ensures Cleaned(a, c, n + k, before)
  {
  }

  /** Where a store begins: on an unused directory, or on a migrated database of the earlier schema. */
  ghost predicate Origin(s: State)
  {
    Fresh(s) || exists rows :: Migrated(s, rows)
  }

  lemma OriginIsSafe(cfg: Config, s: State)
    requires Origin(s)
    ensures Inv(cfg, s)
  {
    if Fresh(s) {
      FreshIsSafe(cfg, s);
    } else {
      var rows :| Migrated(s, rows);
      MigratedIsSafe(cfg, s, rows);
    }
  }

  /** What the files of the old rows hold, by message. */
  ghost function LegacyBytes(rows: seq<LegacyRow>, files: map<Path, File>): map<string, Bytes>
  {
    if rows == [] then map[]
    else
      var row, rest := rows[|rows| - 1], LegacyBytes(rows[..|rows| - 1], files);
      if row.path in files then rest[row.message.id := files[row.path].bytes] else rest
  }

  lemma {:induction false} LegacyBytesAt(rows: seq<LegacyRow>, files: map<Path, File>)
    requires DistinctIds(rows)
    ensures forall i :: 0 <= i < |rows| && rows[i].path in files ==>
              var id := rows[i].message.id;
              id in LegacyBytes(rows, files) && LegacyBytes(rows, files)[id] == files[rows[i].path].bytes
  {
    if rows != [] {
      LegacyBytesAt(rows[..|rows| - 1], files);
    }
  }

  ghost function Upgrading(rows: seq<LegacyRow>, files: map<Path, File>): State
  {
    State(Disk(files, files.Keys, map[]), Migrate(rows), 0, 0, Healthy, "", Down, LegacyBytes(rows, files), 0, map[])
  }

  lemma UpgradingSafe(cfg: Config, rows: seq<LegacyRow>, files: map<Path, File>)
    requires DistinctIds(rows)
    ensures Origin(Upgrading(rows, files)) <==> DistinctPaths(rows) && FilesIntact(rows, Disk(files, files.Keys, map[]))
    ensures forall i :: 0 <= i < |rows| && rows[i].path in files ==>
              var id := rows[i].message.id;
              id in LegacyBytes(rows, files) && LegacyBytes(rows, files)[id] == files[rows[i].path].bytes
  {
    var s := Upgrading(rows, files);
    LegacyBytesAt(rows, files);
    MigratedIsSafe(cfg, s, rows);
    if Origin(s) {
      OriginIsSafe(cfg, s);
    } else {
      assert !Migrated(s, rows);
    }
  }

  lemma {:induction false} RunExtends(cfg: Config, states: seq<State>, events: seq<Event>, e: Event, t: State)
    requires IsRun(cfg, states, events) && Next(cfg, states[|events|], e, t)
    ensures IsRun(cfg, states + [t], events + [e])
  {
    var ss, es := states + [t], events + [e];
    forall i | 0 <= i < |es| ensures StepAt(cfg, ss, es, i) {
      if i < |events| {
        assert StepAt(cfg, states, events, i);
      }
    }
  }

  class Store {
    const cfg: Config
    /**
     * What the host lets succeed: removals of queued files, the SQL and the sync of drains, and everything else,
     * each with a clock of its own, so that what a failure belongs to is always plain.
     */
    const oracle: Oracle
    const drainOracle: Oracle
    const unlinkOracle: Oracle
    var tick: nat
    var drainTick: nat
    var unlinkTick: nat
    var disk: Disk
    var db: Db
    var storedBytes: int
    var storedMessages: int
    var fault: Fault
    var cursor: Path
    ghost var phase: Phase
    ghost var accepted: map<string, Bytes>
    ghost var ceiling: nat
    ghost var leaked: map<Path, nat>
    /** The machine run so far, and every path handed to `removeFile` by a drain. */
    ghost var states: seq<State>
    ghost var events: seq<Event>
    ghost var attempts: seq<Path>

    ghost function Now(): State
      reads `disk, `db, `storedBytes, `storedMessages, `fault, `cursor, `phase, `accepted, `ceiling, `leaked
    {
      State(disk, db, storedBytes, storedMessages, fault, cursor, phase, accepted, ceiling, leaked)
    }

    ghost predicate Valid()
      reads `disk, `db, `storedBytes, `storedMessages, `fault, `cursor, `phase, `accepted, `ceiling, `leaked,
            `states, `events
    {
      IsRun(cfg, states, events) && states[|events|] == Now() && Origin(states[0])
    }

    /** A store over a directory that no store has used: no tables yet. */
    constructor (cfg: Config, oracles: Oracles, files: map<Path, File>)
      ensures Valid() && phase.Down? && this.cfg == cfg && Oracles(oracle, drainOracle, unlinkOracle) == oracles
      ensures db == Db([], map[], map[]) && disk.files == files
    {
      this.cfg, oracle, drainOracle, unlinkOracle := cfg, oracles.general, oracles.drains, oracles.unlinks;
      tick, drainTick, unlinkTick := 0, 0, 0;
      disk, db := Disk(files, files.Keys, map[]), Db([], map[], map[]);
      storedBytes, storedMessages, fault, cursor := 0, 0, Healthy, "";
      phase, accepted, ceiling, leaked := Down, map[], 0, map[];
      attempts, events := [], [];
      states := [State(Disk(files, files.Keys, map[]), Db([], map[], map[]), 0, 0, Healthy, "", Down, map[], 0, map[])];
      new;
    }

    /**
     * A store over the migrated database of the earlier program and whatever files it left. It begins a
     * run exactly when every old row has an intact file of its own.
     */
    constructor Upgrade(cfg: Config, oracles: Oracles, files: map<Path, File>, rows: seq<LegacyRow>)
      requires DistinctIds(rows)
      ensures phase.Down? && this.cfg == cfg && Oracles(oracle, drainOracle, unlinkOracle) == oracles
      ensures CarriedOver(rows, db) && disk == Disk(files, files.Keys, map[])
      ensures Valid() <==> DistinctPaths(rows) && FilesIntact(rows, disk)
      ensures forall i :: 0 <= i < |rows| && rows[i].path in files ==>
                rows[i].message.id in accepted && accepted[rows[i].message.id] == files[rows[i].path].bytes
    {
      this.cfg, oracle, drainOracle, unlinkOracle := cfg, oracles.general, oracles.drains, oracles.unlinks;
      tick, drainTick, unlinkTick := 0, 0, 0;
      disk, db := Disk(files, files.Keys, map[]), Migrate(rows);
      storedBytes, storedMessages, fault, cursor := 0, 0, Healthy, "";
      phase, accepted, ceiling, leaked := Down, LegacyBytes(rows, files), 0, map[];
      attempts, events := [], [];
      states := [Upgrading(rows, files)];
      new;
      UpgradingSafe(cfg, rows, files);
      MigrationKeepsRows(rows, db);
    }

    /** A store that finds what any earlier run left, wherever in an operation that run ended. */
    constructor Resume(cfg: Config, oracles: Oracles, last: State, ghost states: seq<State>, ghost events: seq<Event>)
      requires IsRun(cfg, states, events) && Origin(states[0]) && states[|events|] == last && last.phase.Down?
      ensures Valid() && phase.Down? && this.cfg == cfg && Oracles(oracle, drainOracle, unlinkOracle) == oracles
      ensures Now() == last && this.states == states && this.events == events
    {
      this.cfg, oracle, drainOracle, unlinkOracle := cfg, oracles.general, oracles.drains, oracles.unlinks;
      tick, drainTick, unlinkTick := 0, 0, 0;
      disk, db := last.disk, last.db;
      storedBytes, storedMessages, fault, cursor := last.storedBytes, last.storedMessages, last.fault, last.cursor;
      phase, accepted, ceiling, leaked := Down, last.accepted, last.ceiling, last.leaked;
      attempts, this.states, this.events := [], states, events;
    }

    /** The invariant of the machine holds at every moment of a store's history, so also now. */
    lemma Holds()
      requires Valid()
      ensures Inv(cfg, Now())
    {
      OriginIsSafe(cfg, states[0]);
      RunKeepsInv(cfg, states, events, |events|);
    }

    ghost method Emit(e: Event)
      requires IsRun(cfg, states, events) && Origin(states[0])
      requires Next(cfg, states[|events|], e, Now())
      modifies this`states, this`events
      ensures Valid()
      ensures states == old(states) + [Now()] && events == old(events) + [e]
    {
      RunExtends(cfg, states, events, e, Now());
      states, events := states + [Now()], events + [e];
    }

    /** One operation of the host: the oracle says whether it succeeds. */
    method Try() returns (ok: bool)
      modifies this`tick
      ensures tick == old(tick) + 1 && ok == oracle(old(tick))
      ensures ok <==> Faultless(oracle, old(tick), tick)
    {
      ok := oracle(tick);
      tick := tick + 1;
    }

    /** The same for the SQL and the sync of a drain. */
    method TryDrain() returns (ok: bool)
      modifies this`drainTick
      ensures drainTick == old(drainTick) + 1 && ok == drainOracle(old(drainTick))
      ensures ok <==> Faultless(drainOracle, old(drainTick), drainTick)
    {
      ok := drainOracle(drainTick);
      drainTick := drainTick + 1;
    }

    // ----- single effects, each one step of the machine -----

    ghost predicate Grew(states0: seq<State>, events0: seq<Event>)
      reads `states, `events
    {
      states0 <= states && events0 <= events
    }

    /** The same, after any number of drains. */
    ghost predicate Progressed(states0: seq<State>, events0: seq<Event>, drainTick0: nat)
      reads `states, `events, `drainTick
    {
      Grew(states0, events0) && drainTick0 <= drainTick
    }

    /** `removeFile` on a queued path. */
    method AttemptUnlink(p: Path) returns (gone: bool)
      requires Valid() && phase.Ready? && p in db.pending
      modifies `unlinkTick, `disk, `states, `events, `attempts
      ensures Valid() && Grew(old(states), old(events))
      ensures unlinkTick == old(unlinkTick) + 1 && gone == unlinkOracle(old(unlinkTick))
      ensures attempts == old(attempts) + [p]
      ensures disk == if gone then Unlink(old(disk), p) else old(disk)
    {
      attempts := attempts + [p];
      gone := unlinkOracle(unlinkTick);
      unlinkTick := unlinkTick + 1;
      if gone {
        disk := Unlink(disk, p);
        Emit(RemoveFile(p));
      }
    }

    method SyncDirectory()
      requires Valid() && Up(Now())
      modifies `disk, `phase, `states, `events
      ensures Valid() && Grew(old(states), old(events)) && disk == SyncDir(old(disk))
      ensures phase == if old(phase).Placed? then Durable(old(phase).path, old(phase).raw) else old(phase)
    {
      disk := SyncDir(disk);
      phase := if phase.Placed? then Durable(phase.path, phase.raw) else phase;
      Emit(Event.Sync);
    }

    method DropRecords(removed: set<Path>, reclaimed: nat)
      requires Valid() && phase.Ready? && removed <= db.pending.Keys
      requires removed !! disk.files.Keys && removed !! disk.unlinked.Keys
      requires reclaimed == Sum(Restrict(db.pending, removed))
      modifies `db, `storedBytes, `states, `events
      ensures Valid() && Grew(old(states), old(events))
      ensures db == old(db).(pending := old(db.pending) - removed) && storedBytes == old(storedBytes) - reclaimed
    {
      db := db.(pending := db.pending - removed);
      storedBytes := storedBytes - reclaimed;
      Emit(Reclaim(removed));
    }

    method SetCursor(c: Path)
      requires Valid() && phase.Ready?
      modifies `cursor, `states, `events
      ensures Valid() && Grew(old(states), old(events)) && |old(events)| < |events| && cursor == c
    {
      cursor := c;
      Emit(MoveCursor(c));
    }

    method CreateTempFile(tmp: Path, raw: Bytes)
      requires Valid() && phase.Ready? && Admits(cfg, Now(), raw) && FreshName(Now(), tmp)
      modifies `disk, `phase, `states, `events
      ensures Valid() && Grew(old(states), old(events))
      ensures disk == Create(old(disk), tmp) && phase == Staging(tmp, raw)
    {
      disk, phase := Create(disk, tmp), Staging(tmp, raw);
      Emit(CreateTemp(tmp, raw));
    }

    method WriteTempFile(tmp: Path, file: File)
      requires Valid() && phase.Staging? && phase.tmp == tmp && file.bytes <= phase.raw
      modifies `disk, `states, `events
      ensures Valid() && Grew(old(states), old(events)) && disk == Write(old(disk), tmp, file)
    {
      disk := Write(disk, tmp, file);
      Emit(WriteTemp(file));
    }

    method RenameTempFile(tmp: Path, path: Path)
      requires Valid() && phase.Staging? && phase.tmp == tmp && tmp in disk.files
      requires disk.files[tmp] == File(phase.raw, true) && FreshName(Now(), path)
      modifies `disk, `phase, `states, `events
      ensures Valid() && Grew(old(states), old(events))
      ensures disk == Rename(old(disk), tmp, path) && phase == Placed(path, old(phase).raw)
    {
      disk, phase := Rename(disk, tmp, path), Placed(path, phase.raw);
      Emit(MoveIntoPlace(path));
    }

    method DropStagedFile(path: Path)
      requires Valid() && HasStaged(Now()) && StagedPath(Now()) == path
      modifies `disk, `phase, `states, `events
      ensures Valid() && Grew(old(states), old(events)) && disk == Unlink(old(disk), path) && phase.Ready?
    {
      disk, phase := Unlink(disk, path), Ready;
      Emit(DropStaged);
    }

    /** `loadStorageUsage`: two queries, either of which may fail. */
    method LoadUsage() returns (ok: bool)
      modifies `tick, `storedBytes, `storedMessages
      ensures old(tick) < tick
      ensures ok ==> storedBytes == Charge(db) && storedMessages == |db.messages| && tick == old(tick) + 2
      ensures ok <==> Faultless(oracle, old(tick), tick)
    {
      ok := Try();
      if ok {
        var blobs := Total(BlobSizes(db.blobs));
        var queued := Total(db.pending);
        storedBytes := blobs + queued;
        ok := Try();
        if ok {
          storedMessages := |db.messages|;
        }
      }
    }

    /** `INSERT OR IGNORE INTO pending_deletions`, then `loadStorageUsage`. */
    method RecordStagedFile(path: Path, size: nat)
      requires Valid() && HasStaged(Now()) && StagedPath(Now()) == path && StagedSize(Now()) == size
      requires path !in db.pending
      modifies `tick, `db, `storedBytes, `storedMessages, `fault, `phase, `states, `events
      ensures Valid() && Grew(old(states), old(events)) && phase.Ready? && old(tick) < tick
      ensures |events| == |old(events)| + 1
      ensures db == old(db).(pending := old(db.pending)[path := size])
      ensures fault == if Faultless(oracle, old(tick), tick) then old(fault) else StaleUsage
    {
      ghost var s := Now();
      db := db.(pending := db.pending[path := size]);
      var ok := LoadUsage();
      phase := Ready;
      if ok {
        RecordIsStep(cfg, s);
        Emit(RecordStaged);
      } else {
        LatchStale(s);
      }
    }

    /** The record is in the queue and the usage unknown. */
    method LatchStale(ghost s: State)
      requires IsRun(cfg, states, events) && states[|events|] == s && Origin(states[0]) && HasStaged(s)
      requires Now() == s.(db := Recorded(s), storedBytes := storedBytes, storedMessages := storedMessages,
                           phase := Ready)
      modifies `fault, `states, `events
      ensures Valid() && Grew(old(states), old(events)) && |events| == |old(events)| + 1 && fault.StaleUsage?
    {
      RecordStaleIsStep(cfg, s, storedBytes, storedMessages);
      fault := StaleUsage;
      Emit(RecordStale(storedBytes, storedMessages));
    }

    method StrandStagedFile(path: Path, size: nat)
      requires Valid() && HasStaged(Now()) && StagedPath(Now()) == path && StagedSize(Now()) == size
      modifies `storedBytes, `fault, `phase, `states, `events
      ensures Valid() && Grew(old(states), old(events)) && phase.Ready? && fault == Orphan(path, size)
      ensures storedBytes == old(storedBytes) + size
    {
      storedBytes, fault, phase := storedBytes + size, Orphan(path, size), Ready;
      Emit(Strand);
    }

    /** The transaction holds what the machine demands of a committed delivery. */
    ghost predicate MayCommit(blobId: string, rows: seq<Message>, before: int, k: nat, tx: Db)
      requires phase.Durable?
      reads `disk, `db, `storedBytes, `storedMessages, `fault, `cursor, `phase, `accepted, `ceiling, `leaked
    {
      Next(cfg, Now(), CommitSave(blobId, rows, before, k), AfterCommit(Now(), blobId, rows, k, tx))
    }

    /** The commit of a delivery together with its evictions. */
    method CommitDelivery(blobId: string, path: Path, raw: Bytes, rows: seq<Message>, before: int, k: nat, tx: Db)
      requires Valid() && phase == Durable(path, raw) && MayCommit(blobId, rows, before, k, tx)
      modifies `db, `accepted, `storedBytes, `storedMessages, `phase, `states, `events
      ensures Valid() && phase.Ready? && db == tx && accepted == old(accepted)[blobId := raw]
      ensures states == old(states) + [Now()] && events == old(events) + [CommitSave(blobId, rows, before, k)]
    {
      ChargeDelivery(blobId, raw, |rows| - k, tx);
      Emit(CommitSave(blobId, rows, before, k));
    }

    /** The tables after the commit, and the counters after it. */
    method ChargeDelivery(blobId: string, raw: Bytes, added: int, tx: Db)
      modifies `db, `accepted, `storedBytes, `storedMessages, `phase
      ensures Now() == old(Now()).(db := tx, accepted := old(accepted)[blobId := raw],
                                   storedBytes := old(storedBytes) + |raw|,
                                   storedMessages := old(storedMessages) + added, phase := Ready)
    {
      db, accepted := tx, accepted[blobId := raw];
      storedBytes, storedMessages, phase := storedBytes + |raw|, storedMessages + added, Ready;
    }

    method CommitExpired(before: int, gone: seq<Message>, tx: Db)
      requires Valid() && phase.Ready? && |gone| <= BATCH && UniqueIds(gone)
      requires forall m :: m in gone ==> m in db.messages && m.expires <= before
      requires DeleteFirst(db, gone, |gone|) == Some(tx)
      modifies `db, `storedMessages, `states, `events
      ensures Valid() && db == tx && storedMessages == old(storedMessages) - |gone|
      ensures states == old(states) + [Now()] && events == old(events) + [CommitCleanup(before, gone)]
    {
      db, storedMessages := tx, storedMessages - |gone|;
      Emit(CommitCleanup(before, gone));
    }

    // ----- draining the unlink queue -----

    /**
     * The unlink loop of `drainPendingBatchLocked`: every path is tried once, in order; a failed unlink is noted
     * and passed over.
     */
    method UnlinkBatch(paths: seq<Path>) returns (removed: set<Path>, reclaimed: nat, clean: bool)
      requires Valid() && phase.Ready? && forall p :: p in paths ==> p in db.pending
      modifies `unlinkTick, `disk, `states, `events, `attempts
      ensures Valid() && Grew(old(states), old(events)) && unlinkTick == old(unlinkTick) + |paths|
      ensures attempts == old(attempts) + paths
      ensures disk == UnlinkEach(old(disk), paths, |paths|, unlinkOracle, old(unlinkTick))
      ensures removed == Gone(paths, |paths|, unlinkOracle, old(unlinkTick))
      ensures reclaimed == BytesGone(db.pending, paths, |paths|, unlinkOracle, old(unlinkTick))
      ensures clean == NoneFailed(|paths|, unlinkOracle, old(unlinkTick))
    {
      removed, reclaimed, clean := {}, 0, true;
      for i := 0 to |paths|
        invariant Valid() && Grew(old(states), old(events)) && unlinkTick == old(unlinkTick) + i
        invariant attempts == old(attempts) + paths[..i]
        invariant disk == UnlinkEach(old(disk), paths, i, unlinkOracle, old(unlinkTick))
        invariant removed == Gone(paths, i, unlinkOracle, old(unlinkTick))
        invariant reclaimed == BytesGone(db.pending, paths, i, unlinkOracle, old(unlinkTick))
        invariant clean == NoneFailed(i, unlinkOracle, old(unlinkTick))
      {
        removed, reclaimed, clean := UnlinkNext(paths, i, removed, reclaimed, clean, old(disk), old(unlinkTick));
        AppendNext(old(attempts), paths, i);
      }
      assert paths[..|paths|] == paths;
    }

    /** One turn of the loop. */
    method UnlinkNext(paths: seq<Path>, i: nat, removed: set<Path>, reclaimed: nat, clean: bool,
                      ghost was: Disk, ghost t: nat)
      returns (removed': set<Path>, reclaimed': nat, clean': bool)
      requires Valid() && phase.Ready? && i < |paths| && forall p :: p in paths ==> p in db.pending
      requires unlinkTick == t + i && disk == UnlinkEach(was, paths, i, unlinkOracle, t)
      requires removed == Gone(paths, i, unlinkOracle, t) && clean == NoneFailed(i, unlinkOracle, t)
      requires reclaimed == BytesGone(db.pending, paths, i, unlinkOracle, t)
      modifies `unlinkTick, `disk, `states, `events, `attempts
      ensures Valid() && Grew(old(states), old(events)) && attempts == old(attempts) + [paths[i]]
      ensures unlinkTick == t + i + 1 && disk == UnlinkEach(was, paths, i + 1, unlinkOracle, t)
      ensures removed' == Gone(paths, i + 1, unlinkOracle, t) && clean' == NoneFailed(i + 1, unlinkOracle, t)
      ensures reclaimed' == BytesGone(db.pending, paths, i + 1, unlinkOracle, t)
    {
      var gone := AttemptUnlink(paths[i]);
      if gone {
        removed', reclaimed', clean' := removed + {paths[i]}, reclaimed + db.pending[paths[i]], clean;
      } else {
        removed', reclaimed', clean' := removed, reclaimed, false;
      }
    }

    lemma UnlinkOutcome(was: Disk, paths: seq<Path>, t: nat)
      requires Ascending(paths) && forall p :: p in paths ==> p in db.pending
      ensures var removed := Gone(paths, |paths|, unlinkOracle, t);
              var d := UnlinkEach(was, paths, |paths|, unlinkOracle, t);
              && d.files.Keys <= was.files.Keys && d.unlinked.Keys <= was.unlinked.Keys + db.pending.Keys
              && removed <= db.pending.Keys && removed !! d.files.Keys && (forall p :: p in removed ==> p in paths)
              && BytesGone(db.pending, paths, |paths|, unlinkOracle, t) == Sum(Restrict(db.pending, removed))
              && KeptFailures(paths, db.pending.Keys - removed, unlinkOracle, t)
              && TookAway(was.files, paths, unlinkOracle, t, d.files)
      ensures NoneFailed(|paths|, unlinkOracle, t) <==> Faultless(unlinkOracle, t, t + |paths|)
    {
      NoneFailedIsFaultless(|paths|, unlinkOracle, t);
      GoneAsAllowed(paths, |paths|, unlinkOracle, t);
      UnlinkedFiles(was, paths, |paths|, unlinkOracle, t);
      UnlinkedTook(was, paths, |paths|, unlinkOracle, t);
      BytesOfGone(db.pending, paths, |paths|, unlinkOracle, t);
    }

    /** Sync the directory, then drop the records and their charge; without both, neither. */
    method FinishDrain(removed: set<Path>, reclaimed: nat, ghost batch: seq<Path>) returns (ok: bool)
      requires Valid() && phase.Ready?
      requires removed <= db.pending.Keys && removed !! disk.files.Keys
      requires forall p :: p in removed ==> p in batch
      requires reclaimed == Sum(Restrict(db.pending, removed))
      modifies `drainTick, `disk, `db, `storedBytes, `phase, `states, `events
      ensures Valid() && Grew(old(states), old(events)) && old(drainTick) <= drainTick
      ensures phase == old(phase)
      ensures disk.files == old(disk.files) && disk.unlinked.Keys <= old(disk.unlinked).Keys
      ensures Reclaimed(old(db), old(storedBytes), batch)
      ensures ok <==> Faultless(drainOracle, old(drainTick), drainTick)
      ensures db == if ok then old(db).(pending := old(db.pending) - removed) else old(db)
    {
      ok := true;
      if removed != {} {
        ok := SyncAndDelete(removed);
      }
      if ok {
        ReclaimRecords(removed, reclaimed, batch);
      }
    }

    /** The sync and, only if it succeeded, the transaction that drops the records. */
    method SyncAndDelete(removed: set<Path>) returns (ok: bool)
      requires Valid() && phase.Ready?
      modifies `drainTick, `disk, `phase, `states, `events
      ensures Valid() && Grew(old(states), old(events)) && old(drainTick) < drainTick && phase == old(phase)
      ensures disk.files == old(disk.files) && disk.unlinked.Keys <= old(disk.unlinked).Keys
      ensures ok ==> disk.unlinked == map[]
      ensures ok <==> Faultless(drainOracle, old(drainTick), drainTick)
    {
      ok := TryDrain();
      ghost var t := drainTick;
      if ok {
        SyncDirectory();
        var left;
        left, ok, drainTick := DeleteRecords(db.pending, removed, drainOracle, drainTick);
      }
      FaultlessJoin(drainOracle, old(drainTick), t, drainTick);
    }

    method ReclaimRecords(removed: set<Path>, reclaimed: nat, ghost batch: seq<Path>)
      requires Valid() && phase.Ready?
      requires removed <= db.pending.Keys && removed !! disk.files.Keys && removed !! disk.unlinked.Keys
      requires forall p :: p in removed ==> p in batch
      requires reclaimed == Sum(Restrict(db.pending, removed))
      modifies `db, `storedBytes, `states, `events
      ensures Valid() && Grew(old(states), old(events))
      ensures Reclaimed(old(db), old(storedBytes), batch)
      ensures db == old(db).(pending := old(db.pending) - removed)
    {
      SumSplit(db.pending, removed);
      DropRecords(removed, reclaimed);
    }

    /**
     * Everything `drainPendingBatchLocked` does with the rows it read. It is aborted by a failed sync or SQL
     * statement, never by a failed unlink.
     */
    method DrainPaths(paths: seq<Path>) returns (err: Option<DrainError>)
      requires Valid() && phase.Ready?
      requires Ascending(paths) && forall p :: p in paths ==> p in db.pending
      modifies `drainTick, `unlinkTick, `disk, `db, `storedBytes, `phase, `states, `events, `attempts
      ensures Valid() && Grew(old(states), old(events)) && old(drainTick) <= drainTick
      ensures phase == old(phase) && db.messages == old(db.messages) && db.blobs == old(db.blobs)
      ensures disk.files.Keys <= old(disk.files).Keys
      ensures disk.unlinked.Keys <= old(disk.unlinked).Keys + old(db.pending).Keys
      ensures Reclaimed(old(db), old(storedBytes), paths)
      ensures attempts == old(attempts) + paths && unlinkTick == old(unlinkTick) + |paths|
      ensures TookAway(old(disk).files, paths, unlinkOracle, old(unlinkTick), disk.files)
      ensures err == Some(DrainAborted) <==> !Faultless(drainOracle, old(drainTick), drainTick)
      ensures err != Some(DrainAborted) ==>
                (err.None? <==> Faultless(unlinkOracle, old(unlinkTick), unlinkTick))
                && KeptFailures(paths, db.pending.Keys, unlinkOracle, old(unlinkTick))
      ensures err == Some(DrainAborted) ==> db == old(db)
      ensures err == Some(UnlinkFailed) ==> paths != []
    {
      var removed, reclaimed, clean := UnlinkBatch(paths);
      UnlinkOutcome(old(disk), paths, old(unlinkTick));
      var ok := FinishDrain(removed, reclaimed, paths);
      err := if !ok then Some(DrainAborted) else if clean then None else Some(UnlinkFailed);
    }

    /** `drainPendingBatchLocked`: unlink a batch, sync the directory, then drop the records. */
    method DrainPendingBatch(after: Path)
      returns (next: Path, count: nat, err: Option<DrainError>, ghost batch: seq<Path>)
      requires Valid() && phase.Ready?
      modifies `drainTick, `unlinkTick, `disk, `db, `storedBytes, `phase, `states, `events, `attempts
      ensures Valid() && Grew(old(states), old(events)) && old(drainTick) < drainTick && old(unlinkTick) <= unlinkTick
      ensures phase == old(phase) && db.messages == old(db.messages) && db.blobs == old(db.blobs)
      ensures disk.files.Keys <= old(disk.files).Keys
      ensures disk.unlinked.Keys <= old(disk.unlinked).Keys + old(db.pending).Keys
      ensures IsBatch(old(db.pending).Keys, after, batch)
      ensures Reclaimed(old(db), old(storedBytes), batch)
      ensures err == Some(DrainAborted) <==> !Faultless(drainOracle, old(drainTick), drainTick)
      ensures err == Some(DrainAborted) ==> next == "" && count == 0 && db == old(db)
      ensures err != Some(DrainAborted) ==>
                && count == |batch| && next == (if batch == [] then "" else batch[|batch| - 1])
                && (err.None? <==> Faultless(unlinkOracle, old(unlinkTick), unlinkTick))
                && KeptFailures(batch, db.pending.Keys, unlinkOracle, old(unlinkTick))
      ensures if drainOracle(old(drainTick)) then
                && attempts == old(attempts) + batch && unlinkTick == old(unlinkTick) + |batch|
                && TookAway(old(disk).files, batch, unlinkOracle, old(unlinkTick), disk.files)
              else attempts == old(attempts) && unlinkTick == old(unlinkTick) && disk == old(disk)
      ensures err == Some(UnlinkFailed) ==> next != ""
    {
      var ok := TryDrain();
      ghost var t := drainTick;
      var paths := SelectPending(db.pending.Keys, after);
      batch, err := paths, Some(DrainAborted);
      if ok {
        err := DrainPaths(paths);
      }
      FaultlessJoin(drainOracle, old(drainTick), t, drainTick);
      assert paths != [] ==> paths[|paths| - 1] in paths;
      next, count := "", 0;
      if err != Some(DrainAborted) {
        next, count := if paths == [] then "" else paths[|paths| - 1], |paths|;
      }
    }

    /**
     * What one drain behind the cursor makes of `s`: it visits `batch`, with unlinks from tick `u` on and its SQL
     * and sync from `d` to `e`. Without a failure of the latter exactly the records stay whose unlink failed; with
     * one all do. Unless the query for the batch failed, exactly the files whose unlink succeeded are gone.
     */
    ghost predicate Drained(s: State, t: State, batch: seq<Path>, u: nat, d: nat, e: nat)
    {
      && IsBatch(s.db.pending.Keys, s.cursor, batch)
      && t.db.messages == s.db.messages && t.db.blobs == s.db.blobs && t.storedMessages == s.storedMessages
      && t.fault == s.fault && t.phase == s.phase
      && Unqueued(s.db.pending, s.storedBytes, t.db.pending, t.storedBytes, batch) && t.storedBytes <= s.storedBytes
      && (forall p :: p in s.db.pending && p !in t.db.pending ==> p !in t.disk.files && p !in t.disk.unlinked)
      && (if drainOracle(d) then TookAway(s.disk.files, batch, unlinkOracle, u, t.disk.files) else t.disk == s.disk)
      && if Faultless(drainOracle, d, e) then
           t.cursor == NextCursor(batch) && KeptFailures(batch, t.db.pending.Keys, unlinkOracle, u)
         else
           t.cursor == "" && t.db.pending == s.db.pending
    }

    /** The drain `d` happened in this run, from state `n` on, with the clocks of unlinks and drains at `u` and `t`. */
    ghost predicate Happened(ss: seq<State>, d: Drainage, n: nat, u: nat, t: nat)
    {
      && d.start == n && d.unlinks == u && d.drains == t && n < d.moment < |ss| && t < d.until
      && Drained(ss[n], ss[d.moment], d.batch, u, t, d.until)
    }

    /** The clock of unlinks after it: one tick for each path tried. */
    ghost function UnlinksAfter(d: Drainage): nat
    {
      d.unlinks + if drainOracle(d.drains) then |d.batch| else 0
    }

    /** It was the last thing that happened. */
    ghost predicate JustDrained(d: Drainage, n: nat, u: nat, t: nat)
      reads `states, `events, `drainTick, `unlinkTick
    {
      Happened(states, d, n, u, t) && d.moment == |events| && d.until == drainTick && UnlinksAfter(d) == unlinkTick
    }

    /** The commit `e`, after event `n`, and then the drain `c`, which was the last thing that happened. */
    ghost predicate Concluded(c: Drainage, n: nat, e: Event, u: nat, t: nat)
      reads `states, `events, `drainTick, `unlinkTick
    {
      n < c.start <= |events| && events[c.start - 1] == e && JustDrained(c, c.start, u, t)
    }

    /** `drainPendingLocked`: one batch behind the wrapping cursor. */
    method DrainPending() returns (err: Option<DrainError>, ghost d: Drainage)
      requires Valid() && phase.Ready?
      modifies `drainTick, `unlinkTick, `disk, `db, `storedBytes, `cursor, `phase, `states, `events, `attempts
      ensures Valid() && Grew(old(states), old(events)) && old(drainTick) < drainTick && old(unlinkTick) <= unlinkTick
      ensures |old(events)| < |events|
      ensures phase == old(phase) && db.messages == old(db.messages) && db.blobs == old(db.blobs)
      ensures disk.files.Keys <= old(disk.files).Keys
      ensures disk.unlinked.Keys <= old(disk.unlinked).Keys + old(db.pending).Keys
      ensures Reclaimed(old(db), old(storedBytes), d.batch)
      ensures JustDrained(d, |old(events)|, old(unlinkTick), old(drainTick))
      ensures Drained(old(Now()), Now(), d.batch, old(unlinkTick), old(drainTick), drainTick)
      ensures err == Some(DrainAborted) <==> !Faultless(drainOracle, old(drainTick), drainTick)
      ensures err != Some(DrainAborted) ==> (err.None? <==> Faultless(unlinkOracle, old(unlinkTick), unlinkTick))
      ensures attempts == old(attempts) + if drainOracle(old(drainTick)) then d.batch else []
    {
      ghost var batch;
      err, batch := DrainBehindCursor();
      MadeDrain(old(Now()), batch, old(unlinkTick), old(drainTick));
      d := Drainage(|old(events)|, |events|, old(unlinkTick), old(drainTick), drainTick, batch);
    }

    /** The batch and the move of the cursor. */
    method DrainBehindCursor() returns (err: Option<DrainError>, ghost batch: seq<Path>)
      requires Valid() && phase.Ready?
      modifies `drainTick, `unlinkTick, `disk, `db, `storedBytes, `cursor, `phase, `states, `events, `attempts
      ensures Valid() && Grew(old(states), old(events)) && old(drainTick) < drainTick && old(unlinkTick) <= unlinkTick
      ensures |old(events)| < |events|
      ensures phase == old(phase) && db.messages == old(db.messages) && db.blobs == old(db.blobs)
      ensures disk.files.Keys <= old(disk.files).Keys
      ensures disk.unlinked.Keys <= old(disk.unlinked).Keys + old(db.pending).Keys
      ensures IsBatch(old(db.pending).Keys, old(cursor), batch) && Reclaimed(old(db), old(storedBytes), batch)
      ensures err == Some(DrainAborted) <==> !Faultless(drainOracle, old(drainTick), drainTick)
      ensures if err == Some(DrainAborted) then cursor == "" && db == old(db)
              else cursor == NextCursor(batch) && KeptFailures(batch, db.pending.Keys, unlinkOracle, old(unlinkTick))
      ensures err != Some(DrainAborted) ==> (err.None? <==> Faultless(unlinkOracle, old(unlinkTick), unlinkTick))
      ensures if drainOracle(old(drainTick)) then
                && attempts == old(attempts) + batch && unlinkTick == old(unlinkTick) + |batch|
                && TookAway(old(disk).files, batch, unlinkOracle, old(unlinkTick), disk.files)
              else attempts == old(attempts) && unlinkTick == old(unlinkTick) && disk == old(disk)
    {
      var next, count;
      next, count, err, batch := DrainPendingBatch(cursor);
      CursorAfterBatch(old(db).pending.Keys, cursor, batch, next, count);
      SetCursor(CursorAfter(cursor, next, count));
    }

    /** The new cursor: the last path of the batch if there is one, and the start after a short batch. */
    function CursorAfter(from: Path, next: Path, count: nat): Path
    {
      var c := if next != "" then next else from;
      if count < BATCH then "" else c
    }

    lemma MadeDrain(s: State, batch: seq<Path>, u: nat, d: nat)
      requires IsBatch(s.db.pending.Keys, s.cursor, batch) && Reclaimed(s.db, s.storedBytes, batch)
      requires db.messages == s.db.messages && db.blobs == s.db.blobs
      requires storedMessages == s.storedMessages && fault == s.fault && phase == s.phase
      requires if Faultless(drainOracle, d, drainTick) then
                 cursor == NextCursor(batch) && KeptFailures(batch, db.pending.Keys, unlinkOracle, u)
               else cursor == "" && db == s.db
      requires if drainOracle(d) then TookAway(s.disk.files, batch, unlinkOracle, u, disk.files) else disk == s.disk
      ensures Drained(s, Now(), batch, u, d, drainTick)
    {
      UnqueuedLowers(s.db.pending, s.storedBytes, db.pending, storedBytes, batch);
    }

    lemma CursorAfterBatch(pending: set<Path>, from: Path, batch: seq<Path>, next: Path, count: nat)
      requires IsBatch(pending, from, batch)
      ensures count == |batch| && next == (if batch == [] then "" else batch[|batch| - 1]) ==>
                CursorAfter(from, next, count) == NextCursor(batch)
      ensures count == 0 ==> CursorAfter(from, next, count) == ""
    {
      assert batch != [] ==> batch[|batch| - 1] in batch;
    }

    /**
     * Fairness of the code itself: with `n` records queued, `ceil(n / 256) + 1` drains from wherever the
     * cursor stands try to unlink every one of them, however many unlinks fail. They stop early if and only
     * if SQL or a sync failed.
     */
    method DrainRounds() returns (aborted: bool, ghost tried: seq<Path>)
      requires Valid() && phase.Ready?
      modifies `drainTick, `unlinkTick, `disk, `db, `storedBytes, `cursor, `phase, `states, `events, `attempts
      ensures Valid() && Grew(old(states), old(events)) && phase == old(phase)
      ensures aborted <==> !Faultless(drainOracle, old(drainTick), drainTick)
      ensures !aborted ==> attempts == old(attempts) + tried
      ensures !aborted ==> forall p :: p in old(db.pending) && p != "" ==> p in tried
    {
      ghost var initial := db.pending.Keys;
      var i, rounds := 0, Batches(|db.pending|) + 1;
      assert |initial| == |db.pending|;
      ghost var r := Rounds([initial], [cursor], []);
      aborted, tried := false, [];
      while i < rounds && !aborted
        invariant i <= rounds
        invariant Valid() && Grew(old(states), old(events)) && phase == old(phase) && old(drainTick) <= drainTick
        invariant aborted <==> !Faultless(drainOracle, old(drainTick), drainTick)
        invariant !aborted ==> attempts == old(attempts) + tried
        invariant !aborted ==> TellsOf(r, i, initial, db.pending.Keys, cursor) && AllTried(r, tried)
        decreases rounds - i
      {
        ghost var t := drainTick;
        aborted, r, tried := DrainRound(r, i, initial, old(attempts), tried);
        FaultlessJoin(drainOracle, old(drainTick), t, drainTick);
        i := i + 1;
      }
      if !aborted {
        forall p | p in initial && p != "" ensures p in tried {
          AllRetried(r, initial, db.pending.Keys, cursor, tried, p);
        }
      }
    }

    /** One of these drains, told in `r`. */
    method DrainRound(ghost r: Rounds, ghost i: nat, ghost initial: set<Path>, ghost start: seq<Path>,
                      ghost tried: seq<Path>)
      returns (aborted: bool, ghost r': Rounds, ghost tried': seq<Path>)
      requires Valid() && phase.Ready? && attempts == start + tried
      requires TellsOf(r, i, initial, db.pending.Keys, cursor) && AllTried(r, tried)
      modifies `drainTick, `unlinkTick, `disk, `db, `storedBytes, `cursor, `phase, `states, `events, `attempts
      ensures Valid() && Grew(old(states), old(events)) && phase == old(phase) && old(drainTick) < drainTick
      ensures aborted <==> !Faultless(drainOracle, old(drainTick), drainTick)
      ensures !aborted ==> attempts == start + tried'
      ensures !aborted ==> TellsOf(r', i + 1, initial, db.pending.Keys, cursor) && AllTried(r', tried')
    {
      var err, d := DrainPending();
      ghost var batch := d.batch;
      aborted := err == Some(DrainAborted);
      r', tried' := r, tried;
      if !aborted {
        DrainedIsDrain(old(Now()), batch, old(unlinkTick), old(drainTick));
        TellsOfMore(r, i, initial, old(db.pending).Keys, old(cursor), batch, db.pending.Keys, cursor);
        AllTriedMore(r, tried, batch, db.pending.Keys, cursor);
        r', tried' := OneMore(r, batch, db.pending.Keys, cursor), tried + batch;
        Regroup(start, tried, batch);
      }
    }

    /** A drain of the code without SQL or sync failure is one of those the fairness theorem is about. */
    lemma DrainedIsDrain(s: State, batch: seq<Path>, u: nat, d: nat)
      requires Drained(s, Now(), batch, u, d, drainTick) && Faultless(drainOracle, d, drainTick)
      ensures IsDrain(s.db.pending.Keys, s.cursor, batch, db.pending.Keys, cursor)
    {
    }

    /** If nothing failed in a drain, exactly the records it visited have left the queue, and their files the disk. */
    lemma CleanDrainLeaves(s: State, t: State, batch: seq<Path>, u: nat, d: nat, e: nat)
      requires Drained(s, t, batch, u, d, e) && d < e && Faultless(drainOracle, d, e)
      requires Faultless(unlinkOracle, u, u + |batch|)
      ensures forall p :: p in t.db.pending <==> p in s.db.pending && p !in batch
      ensures forall p :: p in batch ==> p !in t.disk.files && p !in t.disk.unlinked
    {
      forall p | p in batch ensures p in s.db.pending && p !in t.db.pending {
        var j :| 0 <= j < |batch| && batch[j] == p;
        assert unlinkOracle(u + j);
      }
    }

    /**
     * What a drain after a commit comes to when nothing in it failed and at most 256 records were queued: everything
     * behind the cursor is gone, from the queue and from the disk, and no longer charged. So the queue is empty if
     * and only if the cursor stood in front of every record.
     */
    lemma CleanDrainFrees(d: Drainage, n: nat, u: nat, t: nat)
      requires Valid() && Up(Now()) && JustDrained(d, n, u, t) && Clean(d) && states[n].fault.Healthy?
      requires |states[n].db.pending| <= 256
      ensures forall p :: p in db.pending <==> p in states[n].db.pending && !Less(states[n].cursor, p)
      ensures forall p :: p in states[n].db.pending && Less(states[n].cursor, p) ==>
                p !in disk.files && p !in disk.unlinked
      ensures db.pending == map[] <==> forall p :: p in states[n].db.pending ==> Less(states[n].cursor, p)
      ensures storedBytes == BlobBytes(db.blobs) + Sum(db.pending)
      ensures db.pending == map[] ==> storedBytes == BlobBytes(db.blobs)
    {
      assert drainOracle(t);
      CleanDrainLeaves(states[n], Now(), d.batch, u, t, drainTick);
      FewQueued(states[n].db.pending.Keys, states[n].cursor, d.batch);
      BooksIfHealthy();
    }

    /** One batch of the startup sweep. */
    method SweepBatch(from: Path, ghost initial: set<Path>, ghost seen: seq<Path>)
      returns (next: Path, count: nat, err: Option<DrainError>, ghost batch: seq<Path>)
      requires Valid() && phase.Ready? && Swept(initial, db.pending.Keys, from, seen)
      modifies `drainTick, `unlinkTick, `disk, `db, `storedBytes, `phase, `states, `events, `attempts
      ensures Valid() && Grew(old(states), old(events)) && old(drainTick) < drainTick
      ensures phase == old(phase) && db.messages == old(db.messages) && db.blobs == old(db.blobs)
      ensures disk.files.Keys <= old(disk.files).Keys
      ensures Unqueued(old(db.pending), old(storedBytes), db.pending, storedBytes, batch)
      ensures err == Some(DrainAborted) <==> !Faultless(drainOracle, old(drainTick), drainTick)
      ensures next == "" && err.Some? <==> err == Some(DrainAborted)
      ensures err != Some(DrainAborted) ==>
                && count == |batch| && attempts == old(attempts) + batch && Ascending(seen + batch)
                && unlinkTick == old(unlinkTick) + |batch|
                && (err.None? <==> Faultless(unlinkOracle, old(unlinkTick), unlinkTick))
                && KeptFailures(batch, db.pending.Keys, unlinkOracle, old(unlinkTick))
                && (count < BATCH ==> forall p :: p != "" ==> (p in seen + batch <==> p in initial))
                && (count >= BATCH ==> Swept(initial, db.pending.Keys, next, seen + batch)
                                       && |Above(db.pending.Keys, next)| < |Above(old(db.pending).Keys, from)|)
    {
      next, count, err, batch := DrainPendingBatch(from);
      SweptMore(initial, old(db.pending).Keys, from, seen, batch, db.pending.Keys);
      if |batch| == BATCH {
        AboveShrinks(old(db.pending).Keys, from, batch, db.pending.Keys);
      }
    }

    /** The sweep since the ticks `d` and `u`: no SQL or sync failed, and `err` tells whether an unlink did. */
    ghost predicate Sweeping(err: Option<DrainError>, swept: seq<Path>, d: nat, u: nat)
      reads `drainTick, `unlinkTick, `db
    {
      && d <= drainTick && unlinkTick == u + |swept| && Faultless(drainOracle, d, drainTick)
      && (err.None? <==> Faultless(unlinkOracle, u, unlinkTick))
      && KeptFailures(swept, db.pending.Keys, unlinkOracle, u)
    }

    /**
     * `drainAllPendingLocked`: at startup every record gets exactly one attempt, in path order, however many
     * unlinks fail, and exactly those stay whose unlink failed. The sweep stops early (`aborted`) if and only if
     * an SQL statement or a sync failed.
     */
    method DrainAll() returns (err: Option<DrainError>, ghost aborted: bool, ghost swept: seq<Path>)
      requires Valid() && phase.Ready?
      modifies `drainTick, `unlinkTick, `disk, `db, `storedBytes, `phase, `states, `events, `attempts
      ensures Valid() && Grew(old(states), old(events))
      ensures phase == old(phase) && db.messages == old(db.messages) && db.blobs == old(db.blobs)
      ensures disk.files.Keys <= old(disk.files).Keys && db.pending.Keys <= old(db.pending).Keys
      ensures storedBytes - Sum(db.pending) == old(storedBytes) - Sum(old(db.pending))
      ensures aborted <==> !Faultless(drainOracle, old(drainTick), drainTick)
      ensures aborted ==> err.Some?
      ensures !aborted ==> (err.None? <==> Faultless(unlinkOracle, old(unlinkTick), unlinkTick))
      ensures !aborted ==> attempts == old(attempts) + swept && unlinkTick == old(unlinkTick) + |swept|
      ensures !aborted ==> Ascending(swept)
      ensures !aborted ==> forall p :: p != "" ==> (p in swept <==> p in old(db.pending))
      ensures !aborted ==> KeptFailures(swept, db.pending.Keys, unlinkOracle, old(unlinkTick))
    {
      var from := "";
      err, aborted, swept := None, false, [];
      SweptNothing(db.pending.Keys);
      while true
        invariant Valid() && Grew(old(states), old(events))
        invariant phase == old(phase) && db.messages == old(db.messages) && db.blobs == old(db.blobs)
        invariant disk.files.Keys <= old(disk.files).Keys && db.pending.Keys <= old(db.pending).Keys
        invariant storedBytes - Sum(db.pending) == old(storedBytes) - Sum(old(db.pending))
        invariant Sweeping(err, swept, old(drainTick), old(unlinkTick))
        invariant !aborted && attempts == old(attempts) + swept
        invariant Swept(old(db.pending).Keys, db.pending.Keys, from, swept)
        decreases |Above(db.pending.Keys, from)|
      {
        var next, count, e, batch := SweepNext(from, old(db.pending).Keys, swept, err, old(drainTick), old(unlinkTick));
        if e.Some? {
          err := if err.None? then e else err;
          if next == "" {
            aborted := true;
            return;
          }
        }
        Regroup(old(attempts), swept, batch);
        swept := swept + batch;
        if count < BATCH { return; }
        from := next;
      }
    }

    /** One more batch of the sweep, joined to those before it. */
    method SweepNext(from: Path, ghost initial: set<Path>, ghost seen: seq<Path>, ghost err: Option<DrainError>,
                     ghost d: nat, ghost u: nat)
      returns (next: Path, count: nat, e: Option<DrainError>, ghost batch: seq<Path>)
      requires Valid() && phase.Ready? && Swept(initial, db.pending.Keys, from, seen) && Sweeping(err, seen, d, u)
      modifies `drainTick, `unlinkTick, `disk, `db, `storedBytes, `phase, `states, `events, `attempts
      ensures Valid() && Grew(old(states), old(events))
      ensures phase == old(phase) && db.messages == old(db.messages) && db.blobs == old(db.blobs)
      ensures disk.files.Keys <= old(disk.files).Keys && db.pending.Keys <= old(db.pending).Keys
      ensures storedBytes - Sum(db.pending) == old(storedBytes) - Sum(old(db.pending))
      ensures next == "" && e.Some? <==> !Faultless(drainOracle, d, drainTick)
      ensures next != "" || e.None? ==>
                && Sweeping(if err.None? then e else err, seen + batch, d, u)
                && count == |batch| && attempts == old(attempts) + batch && Ascending(seen + batch)
                && (count < BATCH ==> forall p :: p != "" ==> (p in seen + batch <==> p in initial))
                && (count >= BATCH ==> Swept(initial, db.pending.Keys, next, seen + batch)
                                       && |Above(db.pending.Keys, next)| < |Above(old(db.pending).Keys, from)|)
    {
      ghost var t, v, queued := drainTick, unlinkTick, db.pending.Keys;
      next, count, e, batch := SweepBatch(from, initial, seen);
      FaultlessJoin(drainOracle, d, t, drainTick);
      if next != "" || e.None? {
        SweptFurther(err, e, seen, batch, queued, d, u, v);
      }
    }

    lemma SweptFurther(err: Option<DrainError>, e: Option<DrainError>, seen: seq<Path>, batch: seq<Path>,
                       queued: set<Path>, d: nat, u: nat, v: nat)
      requires v == u + |seen| && KeptFailures(seen, queued, unlinkOracle, u)
      requires err.None? <==> Faultless(unlinkOracle, u, v)
      requires d <= drainTick && unlinkTick == v + |batch| && Faultless(drainOracle, d, drainTick)
      requires e.None? <==> Faultless(unlinkOracle, v, unlinkTick)
      requires KeptFailures(batch, db.pending.Keys, unlinkOracle, v) && Ascending(seen + batch)
      requires db.pending.Keys <= queued && forall p :: p in queued && p !in batch ==> p in db.pending
      ensures Sweeping(if err.None? then e else err, seen + batch, d, u)
    {
      FaultlessJoin(unlinkOracle, u, v, unlinkTick);
      KeptMore(seen, batch, queued, db.pending.Keys, unlinkOracle, u);
    }

    // ----- saving a message -----

    /**
     * `discardFileLocked`: the staged file is queued for deletion, and a drain follows unless the usage could not be
     * read again. If it cannot be queued it is removed at once, or else the store latches a fault.
     */
    method Discard(path: Path, size: nat) returns (ghost d: Drainage)
      requires Valid() && HasStaged(Now()) && StagedPath(Now()) == path && StagedSize(Now()) == size
      modifies `tick, `drainTick, `unlinkTick, `disk, `db, `storedBytes, `storedMessages, `fault, `cursor, `phase,
               `states, `events, `attempts
      ensures Valid() && Progressed(old(states), old(events), old(drainTick)) && phase.Ready? && old(tick) < tick
      ensures db.messages == old(db.messages) && db.blobs == old(db.blobs)
      ensures path in disk.files && path !in db.pending ==> fault == Orphan(path, size)
      ensures fault != old(fault) ==> !Faultless(oracle, old(tick), tick)
      ensures if Faultless(oracle, old(tick), tick) then DrainedWith(d, path, size, old(db), |old(events)|,
                                                                     old(unlinkTick), old(drainTick))
              else drainTick == old(drainTick) && unlinkTick == old(unlinkTick)
      ensures !oracle(old(tick)) ==>
                (path in disk.files <==> !oracle(old(tick) + 1)) && (oracle(old(tick) + 2) ==> disk.unlinked == map[])
    {
      StagedIsUnclaimed();
      var recorded := Try();
      d := NO_DRAIN;
      if !recorded {
        DiscardUnrecorded(path, size);
      } else {
        d := RecordAndDrain(path, size);
      }
    }

    /** Event `n` recorded the file in the tables `db0`, and the drain `d`, the last thing that happened, followed. */
    ghost predicate DrainedWith(d: Drainage, path: Path, size: nat, db0: Db, n: nat, u: nat, t: nat)
      reads `states, `events, `drainTick, `unlinkTick
    {
      JustDrained(d, n + 1, u, t) && states[n + 1].db == db0.(pending := db0.pending[path := size])
    }

    /** The queue has the record; with the usage read again, its file is removed if it can be. */
    method RecordAndDrain(path: Path, size: nat) returns (ghost d: Drainage)
      requires Valid() && HasStaged(Now()) && StagedPath(Now()) == path && StagedSize(Now()) == size
      requires path !in db.pending && fault.Healthy?
      modifies `tick, `drainTick, `unlinkTick, `disk, `db, `storedBytes, `storedMessages, `fault, `cursor, `phase,
               `states, `events, `attempts
      ensures Valid() && Progressed(old(states), old(events), old(drainTick)) && phase.Ready? && old(tick) < tick
      ensures db.messages == old(db.messages) && db.blobs == old(db.blobs)
      ensures path in db.pending || path !in disk.files
      ensures fault == if Faultless(oracle, old(tick), tick) then Healthy else StaleUsage
      ensures if fault.Healthy? then DrainedWith(d, path, size, old(db), |old(events)|, old(unlinkTick), old(drainTick))
              else drainTick == old(drainTick) && unlinkTick == old(unlinkTick)
    {
      RecordStagedFile(path, size);
      d := DrainIfHealthy(path, size, old(db), |old(events)|);
    }

    /** A file with a record stays recorded until it is gone. */
    method DrainIfHealthy(path: Path, size: nat, ghost db0: Db, ghost n: nat) returns (ghost d: Drainage)
      requires Valid() && phase.Ready? && |events| == n + 1 && db == db0.(pending := db0.pending[path := size])
      modifies `drainTick, `unlinkTick, `disk, `db, `storedBytes, `cursor, `phase, `states, `events, `attempts
      ensures Valid() && Progressed(old(states), old(events), old(drainTick)) && phase.Ready?
      ensures db.messages == old(db.messages) && db.blobs == old(db.blobs)
      ensures path in db.pending || path !in disk.files
      ensures if fault.Healthy? then DrainedWith(d, path, size, db0, n, old(unlinkTick), old(drainTick))
              else drainTick == old(drainTick) && unlinkTick == old(unlinkTick)
    {
      d := NO_DRAIN;
      if fault.Healthy? {
        var err;
        err, d := DrainPending();
      }
    }

    /** The queue refused the record: remove the file at once, or latch the fault; either way sync the directory. */
    method DiscardUnrecorded(path: Path, size: nat)
      requires Valid() && HasStaged(Now()) && StagedPath(Now()) == path && StagedSize(Now()) == size
      modifies `tick, `disk, `storedBytes, `fault, `phase, `states, `events
      ensures Valid() && Grew(old(states), old(events)) && phase.Ready? && tick == old(tick) + 2
      ensures path in disk.files <==> !oracle(old(tick))
      ensures fault == if oracle(old(tick)) then old(fault) else Orphan(path, size)
      ensures oracle(old(tick) + 1) ==> disk.unlinked == map[]
    {
      DropOrStrand(path, size);
      var synced := Try();
      if synced {
        SyncDirectory();
      }
    }

    method DropOrStrand(path: Path, size: nat)
      requires Valid() && HasStaged(Now()) && StagedPath(Now()) == path && StagedSize(Now()) == size
      modifies `tick, `disk, `storedBytes, `fault, `phase, `states, `events
      ensures Valid() && Grew(old(states), old(events)) && phase.Ready? && tick == old(tick) + 1
      ensures path in disk.files <==> !oracle(old(tick))
      ensures fault == if oracle(old(tick)) then old(fault) else Orphan(path, size)
    {
      StagedIsUnclaimed();
      var gone := Try();
      if gone {
        DropStagedFile(path);
      } else {
        StrandStagedFile(path, size);
      }
    }

    /** Writing the temporary: any of write, chmod, fsync and close may fail, a write possibly part-way. */
    method FillTemp(tmp: Path, raw: Bytes) returns (ok: bool)
      requires Valid() && phase == Staging(tmp, raw)
      modifies `tick, `disk, `states, `events
      ensures Valid() && Grew(old(states), old(events)) && old(tick) < tick
      ensures disk.files.Keys == old(disk.files).Keys + {tmp} && disk.unlinked == old(disk.unlinked)
      ensures ok ==> disk.files[tmp] == File(raw, true)
      ensures ok <==> Faultless(oracle, old(tick), tick)
      ensures ok ==> tick == old(tick) + 4
    {
      ok := WriteAndFlush(tmp, raw);
      ghost var t := tick;
      var closed := Try();
      FaultlessJoin(oracle, old(tick), t, tick);
      ok := ok && closed;
    }

    method WriteAndFlush(tmp: Path, raw: Bytes) returns (ok: bool)
      requires Valid() && phase == Staging(tmp, raw)
      modifies `tick, `disk, `states, `events
      ensures Valid() && Grew(old(states), old(events)) && old(tick) < tick
      ensures disk.files.Keys == old(disk.files).Keys + {tmp} && disk.unlinked == old(disk.unlinked)
      ensures ok ==> disk.files[tmp] == File(raw, true)
      ensures ok <==> Faultless(oracle, old(tick), tick)
      ensures ok ==> tick == old(tick) + 3
    {
      ok := WriteBytes(tmp, raw);
      ghost var t := tick;
      if ok {
        ok := FlushTemp(tmp, raw);
      }
      FaultlessJoin(oracle, old(tick), t, tick);
    }

    /** The chmod and the fsync. */
    method FlushTemp(tmp: Path, raw: Bytes) returns (ok: bool)
      requires Valid() && phase == Staging(tmp, raw) && tmp in disk.files
      modifies `tick, `disk, `states, `events
      ensures Valid() && Grew(old(states), old(events)) && old(tick) < tick
      ensures disk.files.Keys == old(disk.files).Keys && disk.unlinked == old(disk.unlinked)
      ensures ok ==> disk.files[tmp] == File(raw, true)
      ensures ok <==> Faultless(oracle, old(tick), tick)
      ensures ok ==> tick == old(tick) + 2
    {
      ok := Try();
      if ok {
        ok := Try();
        if ok {
          WriteTempFile(tmp, File(raw, true));
        }
      }
    }

    /** A write that fails leaves some prefix of the message. */
    method WriteBytes(tmp: Path, raw: Bytes) returns (ok: bool)
      requires Valid() && phase == Staging(tmp, raw)
      modifies `tick, `disk, `states, `events
      ensures Valid() && Grew(old(states), old(events)) && tick == old(tick) + 1 && ok == oracle(old(tick))
      ensures disk.files.Keys == old(disk.files).Keys + {tmp} && disk.unlinked == old(disk.unlinked)
    {
      var n: nat :| n <= |raw|;
      ok := Try();
      WriteTempFile(tmp, File(if ok then raw else raw[..n], false));
    }

    /** The deferred removal of a temporary that was never renamed. */
    method AbandonTemp(tmp: Path)
      requires Valid() && phase.Staging? && phase.tmp == tmp
      modifies `tick, `drainTick, `unlinkTick, `disk, `db, `storedBytes, `storedMessages, `fault, `cursor, `phase,
               `states, `events, `attempts, `leaked
      ensures Valid() && Progressed(old(states), old(events), old(drainTick)) && phase.Ready? && old(tick) < tick
      ensures db.messages == old(db.messages) && db.blobs == old(db.blobs)
      ensures oracle(old(tick)) ==>
                tick == old(tick) + 1 && disk == Unlink(old(disk), tmp) && db == old(db) && fault == old(fault)
      ensures !oracle(old(tick)) && !oracle(old(tick) + 1) ==>
                disk == old(disk) && db == old(db) && fault == old(fault)
      ensures leaked == if oracle(old(tick)) || oracle(old(tick) + 1) then old(leaked)
                        else old(leaked)[tmp := old(StagedSize(Now()))]
      ensures fault != old(fault) ==> !Faultless(oracle, old(tick), tick)
    {
      StagedIsUnclaimed();
      var gone := Try();
      if gone {
        DropStagedFile(tmp);
      } else {
        var examined := Try();
        if examined {
          ghost var d := Discard(tmp, |disk.files[tmp].bytes|);
        } else {
          LeaveTempBehind(tmp);
        }
      }
    }

    /** A temporary that could be neither removed nor examined: the program takes no further notice of it. */
    method LeaveTempBehind(tmp: Path)
      requires Valid() && phase.Staging? && phase.tmp == tmp && tmp in disk.files
      modifies `leaked, `phase, `states, `events
      ensures Valid() && Grew(old(states), old(events)) && phase.Ready?
      ensures leaked == old(leaked)[tmp := |disk.files[tmp].bytes|]
    {
      leaked, phase := leaked[tmp := |disk.files[tmp].bytes|], Ready;
      Emit(LeaveBehind);
    }

    /** Create and write the temporary. */
    method StageTemp(tmp: Path, raw: Bytes) returns (ok: bool)
      requires Valid() && phase.Ready? && Admits(cfg, Now(), raw) && FreshName(Now(), tmp)
      modifies `tick, `drainTick, `unlinkTick, `disk, `db, `storedBytes, `storedMessages, `fault, `cursor, `phase,
               `states, `events, `attempts, `leaked
      ensures Valid() && Progressed(old(states), old(events), old(drainTick)) && old(tick) < tick
      ensures db.messages == old(db.messages) && db.blobs == old(db.blobs)
      ensures ok ==> phase == Staging(tmp, raw) && fault == old(fault) && db == old(db)
      ensures ok ==> disk.files.Keys == old(disk.files).Keys + {tmp} && disk.unlinked == old(disk.unlinked)
      ensures ok ==> disk.files[tmp] == File(raw, true)
      ensures !ok ==> phase.Ready?
      ensures ok <==> Faultless(oracle, old(tick), tick)
      ensures ok ==> drainTick == old(drainTick) && unlinkTick == old(unlinkTick)
      ensures ok ==> tick == old(tick) + 5
    {
      ok := Try();
      ghost var t := tick;
      if ok {
        CreateTempFile(tmp, raw);
        ok := FillOrAbandon(tmp, raw);
      }
      FaultlessJoin(oracle, old(tick), t, tick);
    }

    method FillOrAbandon(tmp: Path, raw: Bytes) returns (ok: bool)
      requires Valid() && phase == Staging(tmp, raw)
      modifies `tick, `drainTick, `unlinkTick, `disk, `db, `storedBytes, `storedMessages, `fault, `cursor, `phase,
               `states, `events, `attempts, `leaked
      ensures Valid() && Progressed(old(states), old(events), old(drainTick)) && old(tick) < tick
      ensures db.messages == old(db.messages) && db.blobs == old(db.blobs)
      ensures ok ==> phase == old(phase) && fault == old(fault) && db == old(db)
      ensures ok ==> disk.files.Keys == old(disk.files).Keys + {tmp} && disk.unlinked == old(disk.unlinked)
      ensures ok ==> disk.files[tmp] == File(raw, true)
      ensures !ok ==> phase.Ready?
      ensures ok <==> Faultless(oracle, old(tick), tick)
      ensures ok ==> drainTick == old(drainTick) && unlinkTick == old(unlinkTick)
      ensures ok ==> tick == old(tick) + 4
    {
      ok := FillTemp(tmp, raw);
      ghost var t := tick;
      if !ok {
        AbandonTemp(tmp);
      }
      FaultlessJoin(oracle, old(tick), t, tick);
    }

    /** Rename the temporary into place and sync the directory. */
    method Place(tmp: Path, path: Path, raw: Bytes) returns (ok: bool)
      requires Valid() && phase == Staging(tmp, raw) && tmp in disk.files && disk.files[tmp] == File(raw, true)
      requires FreshName(Now(), path)
      modifies `tick, `drainTick, `unlinkTick, `disk, `db, `storedBytes, `storedMessages, `fault, `cursor, `phase,
               `states, `events, `attempts, `leaked
      ensures Valid() && Progressed(old(states), old(events), old(drainTick)) && old(tick) < tick
      ensures db.messages == old(db.messages) && db.blobs == old(db.blobs)
      ensures ok ==> phase == Durable(path, raw) && db == old(db)
      ensures !ok ==> phase.Ready?
      ensures ok <==> Faultless(oracle, old(tick), tick)
      ensures ok ==> drainTick == old(drainTick) && unlinkTick == old(unlinkTick)
      ensures ok ==> tick == old(tick) + 2
    {
      ok := Try();
      ghost var t := tick;
      if ok {
        RenameTempFile(tmp, path);
        ok := SyncOrDiscard(path, raw);
      } else {
        AbandonTemp(tmp);
      }
      FaultlessJoin(oracle, old(tick), t, tick);
    }

    method SyncOrDiscard(path: Path, raw: Bytes) returns (ok: bool)
      requires Valid() && phase == Placed(path, raw)
      modifies `tick, `drainTick, `unlinkTick, `disk, `db, `storedBytes, `storedMessages, `fault, `cursor, `phase,
               `states, `events, `attempts, `leaked
      ensures Valid() && Progressed(old(states), old(events), old(drainTick)) && old(tick) < tick
      ensures db.messages == old(db.messages) && db.blobs == old(db.blobs)
      ensures ok ==> phase == Durable(path, raw) && db == old(db)
      ensures !ok ==> phase.Ready?
      ensures ok <==> Faultless(oracle, old(tick), tick)
      ensures ok ==> drainTick == old(drainTick) && unlinkTick == old(unlinkTick)
      ensures ok ==> tick == old(tick) + 1
    {
      ok := Try();
      ghost var t := tick;
      if ok {
        SyncDirectory();
      } else {
        ghost var d := Discard(path, |raw|);
      }
      FaultlessJoin(oracle, old(tick), t, tick);
    }

    /** Staging: the file is in place, with durable contents and a durable name, or it is discarded. */
    method Stage(tmp: Path, path: Path, raw: Bytes) returns (ok: bool)
      requires Valid() && phase.Ready? && Admits(cfg, Now(), raw)
      requires FreshName(Now(), tmp) && FreshName(Now(), path) && tmp != path
      modifies `tick, `drainTick, `unlinkTick, `disk, `db, `storedBytes, `storedMessages, `fault, `cursor, `phase,
               `states, `events, `attempts, `leaked
      ensures Valid() && Progressed(old(states), old(events), old(drainTick)) && old(tick) < tick
      ensures db.messages == old(db.messages) && db.blobs == old(db.blobs)
      ensures ok ==> phase == Durable(path, raw) && db == old(db)
      ensures !ok ==> phase.Ready?
      ensures ok <==> Faultless(oracle, old(tick), tick)
      ensures ok ==> drainTick == old(drainTick) && unlinkTick == old(unlinkTick)
      ensures ok ==> tick == old(tick) + 7
    {
      ok := StageTemp(tmp, raw);
      if ok {
        ok := Place(tmp, path, raw);
      }
    }

    /** With the file durable and the message admitted, the delivery's transaction cannot run out of victims. */
    lemma RoomForDelivery(blobId: string, path: Path, raw: Bytes, rows: seq<Message>, before: int)
      requires Valid() && phase == Durable(path, raw)
      requires Deliverable(db, blobId, path, |raw|, rows)
      ensures var tx := Deliver(db, blobId, path, |raw|, rows);
              Consistent(tx) && HasRoom(tx, blobId, before, storedBytes + |raw|, cfg.maxStorage)
    {
      Holds();
      DeliverConsistent(db, blobId, path, |raw|, rows);
      DeliverCharge(db, blobId, path, |raw|, rows);
      AdmissionComplete(Deliver(db, blobId, path, |raw|, rows), before, blobId, storedBytes + |raw|, cfg.maxStorage);
    }

    /** The statements of the transaction of `Save`, which never run out of messages to evict. */
    method FillDelivery(blobId: string, path: Path, raw: Bytes, rows: seq<Message>, before: int)
      returns (error: Option<EvictError>, out: Db, evicted: nat)
      requires Consistent(Deliver(db, blobId, path, |raw|, rows))
      requires HasRoom(Deliver(db, blobId, path, |raw|, rows), blobId, before, storedBytes + |raw|, cfg.maxStorage)
      modifies `tick
      ensures old(tick) < tick && (error.None? <==> Faultless(oracle, old(tick), tick))
      ensures error != Some(Exhausted)
      ensures error.None? ==>
                Settles(Deliver(db, blobId, path, |raw|, rows), blobId, before, storedBytes + |raw|, cfg.maxStorage,
                        evicted, out)
    {
      out, evicted, error, tick :=
        FillTransaction(db, blobId, path, |raw|, rows, storedBytes + |raw|, cfg.maxStorage, before, oracle, tick);
    }

    lemma MayCommitFilled(blobId: string, path: Path, raw: Bytes, rows: seq<Message>, before: int, k: nat, tx: Db)
      requires phase == Durable(path, raw) && blobId !in accepted && Deliverable(db, blobId, path, |raw|, rows)
      requires Settles(Deliver(db, blobId, path, |raw|, rows), blobId, before, storedBytes + |raw|, cfg.maxStorage,
                       k, tx)
      ensures MayCommit(blobId, rows, before, k, tx)
    {
      CommitIsStep(cfg, Now(), blobId, rows, before, k, tx);
    }

    /** The transaction of `Save`: inserts, evictions, commit. */
    method Transact(blobId: string, path: Path, raw: Bytes, rows: seq<Message>, before: int)
      returns (error: Option<SaveError>, ghost k: nat)
      requires Valid() && phase == Durable(path, raw) && blobId !in accepted
      requires Deliverable(db, blobId, path, |raw|, rows)
      modifies `tick, `db, `accepted, `storedBytes, `storedMessages, `phase, `states, `events
      ensures Valid() && old(tick) < tick && error == Unless(Faultless(oracle, old(tick), tick))
      ensures error.Some? ==> db == old(db) && phase == old(phase) && states == old(states) && events == old(events)
      ensures error.None? ==> phase.Ready? && accepted == old(accepted)[blobId := raw]
      ensures error.None? ==>
                states == old(states) + [Now()] && events == old(events) + [CommitSave(blobId, rows, before, k)]
    {
      RoomForDelivery(blobId, path, raw, rows, before);
      var failed, out, evicted := FillDelivery(blobId, path, raw, rows, before);
      k := evicted;
      if failed.Some? {
        error := Some(if failed.value.Exhausted? then LimitExhausted else IoFailed);
      } else {
        ghost var t := tick;
        var ok := CommitFilled(blobId, path, raw, rows, before, evicted, out);
        FaultlessJoin(oracle, old(tick), t, tick);
        error := if ok then None else Some(IoFailed);
      }
    }

    /** The commit of the transaction, which takes effect exactly when it succeeds. */
    method CommitFilled(blobId: string, path: Path, raw: Bytes, rows: seq<Message>, before: int, k: nat, tx: Db)
      returns (ok: bool)
      requires Valid() && phase == Durable(path, raw) && blobId !in accepted
      requires Deliverable(db, blobId, path, |raw|, rows)
      requires Settles(Deliver(db, blobId, path, |raw|, rows), blobId, before, storedBytes + |raw|, cfg.maxStorage,
                       k, tx)
      modifies `tick, `db, `accepted, `storedBytes, `storedMessages, `phase, `states, `events
      ensures Valid() && old(tick) < tick && (ok <==> Faultless(oracle, old(tick), tick))
      ensures !ok ==> db == old(db) && phase == old(phase) && states == old(states) && events == old(events)
      ensures ok ==> phase.Ready? && accepted == old(accepted)[blobId := raw]
      ensures ok ==> states == old(states) + [Now()] && events == old(events) + [CommitSave(blobId, rows, before, k)]
    {
      MayCommitFilled(blobId, path, raw, rows, before, k, tx);
      ok := Try();
      if ok {
        CommitDelivery(blobId, path, raw, rows, before, k, tx);
      }
    }

    /** The fresh names of one `Save`: the temporary, the blob, and the message ids. */
    ghost predicate FreshFor(tmp: Path, blobId: string, ids: seq<string>)
      reads this
    {
      && FreshName(Now(), tmp) && FreshName(Now(), blobId + ".eml") && tmp != blobId + ".eml"
      && blobId !in accepted && blobId !in db.blobs
      && (forall i, j :: 0 <= i < j < |ids| ==> ids[i] != ids[j])
      && (forall m :: m in db.messages ==> m.id !in ids)
    }

    /**
     * What decides a `Save` past the latch: the state `s` that its drain left, and whether any operation from the
     * query for the queued bytes to the commit failed. Those of drains are not among them.
     */
    ghost predicate Decided(r: SaveResult, raw: Bytes, s: State, clear: bool)
    {
      && (r == Refused(AboveLimit) <==> s.storedBytes > cfg.maxStorage)
      && (r == Refused(PendingExhausted) <==>
            s.storedBytes <= cfg.maxStorage && Sum(s.db.pending) + |raw| > cfg.maxStorage && clear)
      && (r == Refused(IoFailed) <==> s.storedBytes <= cfg.maxStorage && !clear)
      && (r.Saved? <==> s.storedBytes <= cfg.maxStorage && Sum(s.db.pending) + |raw| <= cfg.maxStorage && clear)
    }

    /** The checks of `Save` under the lock: the latch, a drain, the cap, and the queued bytes. */
    method Admit(raw: Bytes, ghost tmp: Path, ghost blobId: string, ghost ids: seq<string>)
      returns (error: Option<SaveError>, ghost d: Drainage)
      requires Valid() && phase.Ready? && FreshFor(tmp, blobId, ids)
      requires |raw| <= cfg.maxMessage && |raw| <= cfg.maxStorage
      modifies `tick, `drainTick, `unlinkTick, `disk, `db, `storedBytes, `cursor, `phase, `states, `events, `attempts
      ensures Valid() && Grew(old(states), old(events)) && phase.Ready? && old(tick) <= tick
      ensures FreshFor(tmp, blobId, ids)
      ensures db.messages == old(db.messages) && db.blobs == old(db.blobs)
      ensures error == Some(RecoveryRequired) <==> !fault.Healthy?
      ensures error == Some(RecoveryRequired) ==> Now() == old(Now()) && events == old(events)
      ensures error.None? ==> Admits(cfg, Now(), raw) && Faultless(oracle, old(tick), tick)
      ensures error != Some(RecoveryRequired) ==>
                JustDrained(d, |old(events)|, old(unlinkTick), old(drainTick))
      ensures error.Some? && error != Some(RecoveryRequired) ==>
                Decided(Refused(error.value), raw, Now(), Faultless(oracle, old(tick), tick))
    {
      if fault.Healthy? {
        var drainErr;
        drainErr, d := DrainPending();
        error := CheckLimits(raw);
      } else {
        error, d := Some(RecoveryRequired), NO_DRAIN;
      }
    }

    /** The cap, the query for the queued bytes, and what it answers. */
    method CheckLimits(raw: Bytes) returns (error: Option<SaveError>)
      requires Valid() && phase.Ready? && fault.Healthy?
      requires |raw| <= cfg.maxMessage && |raw| <= cfg.maxStorage
      modifies `tick
      ensures Valid() && old(tick) <= tick
      ensures error != Some(RecoveryRequired)
      ensures error.Some? ==> Decided(Refused(error.value), raw, Now(), Faultless(oracle, old(tick), tick))
      ensures error.None? ==> Admits(cfg, Now(), raw) && Faultless(oracle, old(tick), tick)
    {
      error := None;
      if storedBytes > cfg.maxStorage {
        error := Some(AboveLimit);
      } else {
        var ok := Try();
        if !ok {
          error := Some(IoFailed);
        } else {
          var queued := Total(db.pending);
          if queued + |raw| > cfg.maxStorage {
            error := Some(PendingExhausted);
          }
        }
      }
    }

    lemma StagedIsDeliverable(blobId: string, rows: seq<Message>)
      requires Valid() && phase.Durable? && blobId !in db.blobs
      requires rows != [] && UniqueIds(db.messages + rows)
      requires forall m :: m in rows ==> m.blobId == blobId && m.size == |phase.raw|
      ensures Deliverable(db, blobId, phase.path, |phase.raw|, rows)
    {
      Holds();
    }

    /** The last event was the commit that took the message in, with what it did to the tables `prior` found. */
    ghost predicate TakenIn(n: nat, prior: seq<Message>, blobId: string, path: Path, raw: Bytes, rows: seq<Message>,
                            before: int, k: nat)
      reads this
    {
      && n < |events| && events[|events| - 1] == CommitSave(blobId, rows, before, k)
      && TookIn(prior, blobId, path, |raw|, rows, before, k, db.messages, db.blobs)
      && blobId in accepted && accepted[blobId] == raw
    }

    /** Staging and the transaction of an admitted message; a failure of either discards the file. */
    method StageAndCommit(tmp: Path, path: Path, blobId: string, raw: Bytes, rows: seq<Message>, before: int)
      returns (error: Option<SaveError>, ghost k: nat)
      requires Valid() && phase.Ready? && Admits(cfg, Now(), raw)
      requires FreshName(Now(), tmp) && FreshName(Now(), path) && tmp != path
      requires blobId !in accepted && blobId !in db.blobs
      requires rows != [] && UniqueIds(db.messages + rows)
      requires forall m :: m in rows ==> m.blobId == blobId && m.size == |raw|
      modifies `tick, `drainTick, `unlinkTick, `disk, `db, `accepted, `storedBytes, `storedMessages, `fault, `cursor,
               `phase, `states, `events, `attempts, `leaked
      ensures Valid() && Progressed(old(states), old(events), old(drainTick)) && phase.Ready?
      ensures old(tick) < tick && error == Unless(Faultless(oracle, old(tick), tick))
      ensures error.Some? ==> db.messages == old(db.messages) && db.blobs == old(db.blobs)
      ensures error.None? ==> TakenIn(|old(events)|, old(db.messages), blobId, path, raw, rows, before, k)
      ensures error.None? ==> accepted == old(accepted)[blobId := raw]
      ensures error.None? ==> drainTick == old(drainTick) && unlinkTick == old(unlinkTick)
    {
      k := 0;
      var ok := Stage(tmp, path, raw);
      error := Some(IoFailed);
      if ok {
        error, k := CommitOrDiscard(blobId, path, raw, rows, before, old(tick));
      }
    }

    /** The second half, with nothing failed since tick `since`. */
    method CommitOrDiscard(blobId: string, path: Path, raw: Bytes, rows: seq<Message>, before: int,
                           ghost since: nat)
      returns (error: Option<SaveError>, ghost k: nat)
      requires Valid() && phase == Durable(path, raw) && blobId !in accepted && blobId !in db.blobs
      requires since <= tick && Faultless(oracle, since, tick)
      requires rows != [] && UniqueIds(db.messages + rows)
      requires forall m :: m in rows ==> m.blobId == blobId && m.size == |raw|
      modifies `tick, `drainTick, `unlinkTick, `disk, `db, `accepted, `storedBytes, `storedMessages, `fault, `cursor,
               `phase, `states, `events, `attempts
      ensures Valid() && Progressed(old(states), old(events), old(drainTick)) && phase.Ready?
      ensures old(tick) < tick && error == Unless(Faultless(oracle, since, tick))
      ensures error.Some? ==> db.messages == old(db.messages) && db.blobs == old(db.blobs)
      ensures error.None? ==> TakenIn(|old(events)|, old(db.messages), blobId, path, raw, rows, before, k)
      ensures error.None? ==> accepted == old(accepted)[blobId := raw]
      ensures error.None? ==> drainTick == old(drainTick) && unlinkTick == old(unlinkTick)
    {
      StagedIsDeliverable(blobId, rows);
      error, k := Transact(blobId, path, raw, rows, before);
      ghost var t := tick;
      if error.None? {
        Committed();
      } else {
        ghost var d := Discard(path, |raw|);
      }
      FaultlessJoin(oracle, old(tick), t, tick);
      FaultlessJoin(oracle, since, old(tick), tick);
    }

    lemma Committed()
      requires Valid() && |events| > 0 && events[|events| - 1].CommitSave?
      ensures var s, CommitSave(blobId, ms, before, k) := states[|events| - 1], events[|events| - 1];
              s.phase.Durable? && TookIn(s.db.messages, blobId, s.phase.path, |s.phase.raw|, ms, before, k,
                                         db.messages, db.blobs)
    {
      OriginIsSafe(cfg, states[0]);
      CommitOutcomeAt(cfg, states, events, |events| - 1);
    }

    /**
     * `Save`. `suffix`, `blobId` and `ids` are the random names it draws, `now` and `before` its two
     * readings of the clock. A refused message leaves the messages and blobs tables as they were. An
     * accepted one is durable, has one row per distinct recipient, and displaced exactly the first `k`
     * messages of the priority order.
     */
    method Save(recipients: seq<string>, from: string, subject: string, raw: Bytes,
                now: int, before: int, suffix: string, blobId: string, ids: seq<string>)
      returns (r: SaveResult, ghost k: nat, ghost d: Drainage, ghost c: Drainage)
      requires Valid() && phase.Ready?
      requires FreshFor(".incoming-" + suffix, blobId, ids) && |ids| >= |recipients|
      modifies this
      ensures Valid() && Grew(old(states), old(events)) && phase.Ready? && old(tick) <= tick
      ensures r.Refused? ==> db.messages == old(db.messages) && db.blobs == old(db.blobs)
      ensures r.Saved? ==>
                var names := Distinct(NormalizeAll(recipients));
                && |names| <= |ids|
                && r.messages == Rows(ids, names, from, subject, now, cfg.ttl, |raw|, blobId)
                && AddressedTo(r.messages, recipients, ids, from, subject, now, cfg.ttl, |raw|, blobId)
                && ServedUntil(r.messages, now + cfg.ttl)
                && TookIn(old(db.messages), blobId, blobId + ".eml", |raw|, r.messages, before, k, db.messages,
                          db.blobs)
                && Concluded(c, |old(events)|, CommitSave(blobId, r.messages, before, k), UnlinksAfter(d), d.until)
                && StoredDurably(blobId + ".eml", raw)
      ensures r == Refused(NoRecipients) <==> recipients == []
      ensures r == Refused(MessageTooLarge) <==> recipients != [] && |raw| > cfg.maxMessage
      ensures r == Refused(StorageTooSmall) <==> recipients != [] && cfg.maxStorage < |raw| <= cfg.maxMessage
      ensures r == Refused(RecoveryRequired) <==>
                recipients != [] && |raw| <= cfg.maxMessage && |raw| <= cfg.maxStorage && !old(fault).Healthy?
      ensures recipients == [] || |raw| > cfg.maxMessage || |raw| > cfg.maxStorage || !old(fault).Healthy? ==>
                Now() == old(Now()) && events == old(events)
      ensures recipients != [] && |raw| <= cfg.maxMessage && |raw| <= cfg.maxStorage && old(fault).Healthy? ==>
                && Happened(states, d, |old(events)|, old(unlinkTick), old(drainTick))
                && Decided(r, raw, states[d.moment], Faultless(oracle, old(tick), tick))
      ensures r != Refused(LimitExhausted)
    {
      k, d, c := 0, NO_DRAIN, NO_DRAIN;
      var names := DropRepeats(NormalizeAll(recipients));
      DistinctCount(recipients);
      if |names| == 0 { return Refused(NoRecipients), 0, d, c; }
      if |raw| > cfg.maxMessage { return Refused(MessageTooLarge), 0, d, c; }
      if |raw| > cfg.maxStorage { return Refused(StorageTooSmall), 0, d, c; }
      r, k, d, c := SaveLocked(names, from, subject, raw, now, before, ".incoming-" + suffix, blobId, ids);
      if r.Saved? {
        RowsAreAddressed(recipients, NormalizeAll(recipients), names, ids, from, subject, now, cfg.ttl, |raw|, blobId);
        NewRowsServed(r.messages, recipients, ids, from, subject, now, |raw|, blobId);
      }
    }

    /** The query of `Get` finds a row with this id at time `now`. */
    ghost predicate Served(id: string, now: int)
      reads `db
    {
      exists m :: m in db.messages && m.id == id && m.expires > now
    }

    /** It finds each of these exactly until time `t`. */
    ghost predicate ServedUntil(ms: seq<Message>, t: int)
      reads `db
    {
      forall m, now :: m in ms ==> (Served(m.id, now) <==> now < t)
    }

    lemma NewRowsServed(ms: seq<Message>, recipients: seq<string>, ids: seq<string>, from: string, subject: string,
                        now: int, size: nat, blobId: string)
      requires Valid() && AddressedTo(ms, recipients, ids, from, subject, now, cfg.ttl, size, blobId)
      requires forall m :: m in ms ==> m in db.messages
      ensures ServedUntil(ms, now + cfg.ttl)
    {
      forall m, t: int | m in ms ensures Served(m.id, t) <==> t < now + cfg.ttl {
        OnlyRow(m);
      }
    }

    /** Ids are unique. */
    lemma OnlyRow(m: Message)
      requires Valid() && m in db.messages
      ensures forall x :: x in db.messages && x.id == m.id ==> x == m
    {
      Holds();
    }

    /**
     * What a `Save` promises of its rows: as long as a row is stored, whatever else happens, `Get` finds a row with its
     * id exactly until the time to live is over.
     */
    lemma SavedIsServed(n: nat, ms: seq<Message>, recipients: seq<string>, ids: seq<string>, from: string,
                        subject: string, now: int, size: nat, blobId: string, m: Message, t: int)
      requires Valid() && n < |states| && m in ms && m in states[n].db.messages
      requires AddressedTo(ms, recipients, ids, from, subject, now, cfg.ttl, size, blobId)
      requires HeldThroughout(states, n, |events|, m.id)
      ensures Served(m.id, t) <==> t < now + cfg.ttl
    {
      OriginIsSafe(cfg, states[0]);
      AddresseeIsNormal(ms, recipients, m);
      StoredRowStays(cfg, states, events, n, |events|, m);
      OnlyRow(m);
    }

    /** A file in place whose contents and name no power loss can take. */
    ghost predicate StoredDurably(path: Path, raw: Bytes)
      reads this
    {
      path in disk.files && disk.files[path] == File(raw, true) && path in disk.solid
    }

    /** The part of `Save` under `writeMu`. */
    method SaveLocked(names: seq<string>, from: string, subject: string, raw: Bytes,
                      now: int, before: int, tmp: Path, blobId: string, ids: seq<string>)
      returns (r: SaveResult, ghost k: nat, ghost d: Drainage, ghost c: Drainage)
      requires Valid() && phase.Ready? && FreshFor(tmp, blobId, ids) && 0 < |names| <= |ids|
      requires |raw| <= cfg.maxMessage && |raw| <= cfg.maxStorage
      modifies this
      ensures Valid() && Grew(old(states), old(events)) && phase.Ready? && old(tick) <= tick
      ensures r.Refused? ==> db.messages == old(db.messages) && db.blobs == old(db.blobs)
      ensures r.Saved? ==>
                && r.messages == Rows(ids, names, from, subject, now, cfg.ttl, |raw|, blobId)
                && TookIn(old(db.messages), blobId, blobId + ".eml", |raw|, r.messages, before, k, db.messages,
                          db.blobs)
                && Concluded(c, |old(events)|, CommitSave(blobId, r.messages, before, k), UnlinksAfter(d), d.until)
                && StoredDurably(blobId + ".eml", raw)
      ensures r == Refused(RecoveryRequired) <==> !old(fault).Healthy?
      ensures !old(fault).Healthy? ==> Now() == old(Now()) && events == old(events)
      ensures old(fault).Healthy? ==>
                && Happened(states, d, |old(events)|, old(unlinkTick), old(drainTick))
                && Decided(r, raw, states[d.moment], Faultless(oracle, old(tick), tick))
      ensures r != Refused(LimitExhausted)
    {
      k, c := 0, NO_DRAIN;
      var error;
      error, d := Admit(raw, tmp, blobId, ids);
      if error.Some? { return Refused(error.value), 0, d, c; }
      var rows := Rows(ids, names, from, subject, now, cfg.ttl, |raw|, blobId);
      NewRowsFit(tmp, ids, names, from, subject, now, |raw|, blobId);
      ghost var t := tick;
      error, k, c := StageCommitDrain(tmp, blobId + ".eml", blobId, raw, rows, before);
      FaultlessJoin(oracle, old(tick), t, tick);
      r := if error.None? then Saved(rows) else Refused(error.value);
    }

    /** A committed delivery is followed by a drain, whose failure does not undo the acceptance. */
    method StageCommitDrain(tmp: Path, path: Path, blobId: string, raw: Bytes, rows: seq<Message>, before: int)
      returns (error: Option<SaveError>, ghost k: nat, ghost c: Drainage)
      requires Valid() && phase.Ready? && Admits(cfg, Now(), raw)
      requires FreshName(Now(), tmp) && FreshName(Now(), path) && tmp != path
      requires blobId !in accepted && blobId !in db.blobs
      requires rows != [] && UniqueIds(db.messages + rows)
      requires forall m :: m in rows ==> m.blobId == blobId && m.size == |raw|
      modifies `tick, `drainTick, `unlinkTick, `disk, `db, `accepted, `storedBytes, `storedMessages, `fault, `cursor,
               `phase, `states, `events, `attempts, `leaked
      ensures Valid() && Progressed(old(states), old(events), old(drainTick)) && phase.Ready?
      ensures old(tick) < tick && error == Unless(Faultless(oracle, old(tick), tick))
      ensures error.Some? ==> db.messages == old(db.messages) && db.blobs == old(db.blobs)
      ensures error.None? ==>
                Concluded(c, |old(events)|, CommitSave(blobId, rows, before, k), old(unlinkTick), old(drainTick))
      ensures error.None? ==>
                TookIn(old(db.messages), blobId, path, |raw|, rows, before, k, db.messages, db.blobs)
      ensures error.None? ==> StoredDurably(path, raw)
    {
      c := NO_DRAIN;
      error, k := StageAndCommit(tmp, path, blobId, raw, rows, before);
      if error.None? {
        c := DrainCommitted(|old(events)|, old(db.messages), blobId, path, raw, rows, before, k);
      }
    }

    /** The drain after a commit, which takes nothing from the blob just stored. */
    method DrainCommitted(ghost n: nat, ghost prior: seq<Message>, blobId: string, path: Path, raw: Bytes,
                          rows: seq<Message>, before: int, ghost k: nat)
      returns (ghost c: Drainage)
      requires Valid() && phase.Ready? && TakenIn(n, prior, blobId, path, raw, rows, before, k)
      modifies `drainTick, `unlinkTick, `disk, `db, `storedBytes, `cursor, `phase, `states, `events, `attempts
      ensures Valid() && Progressed(old(states), old(events), old(drainTick)) && phase.Ready?
      ensures Concluded(c, n, CommitSave(blobId, rows, before, k), old(unlinkTick), old(drainTick))
      ensures TookIn(prior, blobId, path, |raw|, rows, before, k, db.messages, db.blobs)
      ensures StoredDurably(path, raw)
    {
      var drainErr;
      drainErr, c := DrainPending();
      Stored(blobId, raw);
    }

    lemma NewRowsFit(tmp: Path, ids: seq<string>, names: seq<string>, from: string, subject: string, now: int,
                     size: nat, blobId: string)
      requires Valid() && FreshFor(tmp, blobId, ids) && |names| <= |ids|
      ensures var rows := Rows(ids, names, from, subject, now, cfg.ttl, size, blobId);
              && UniqueIds(db.messages + rows)
              && (forall m :: m in rows ==> m.blobId == blobId && m.size == size)
    {
      Holds();
      RowsFit(db, ids, names, from, subject, now, cfg.ttl, size, blobId);
    }

    lemma Stored(blobId: string, raw: Bytes)
      requires Valid() && blobId in db.blobs && blobId in accepted && accepted[blobId] == raw
      ensures StoredDurably(db.blobs[blobId].path, raw)
    {
      Holds();
    }

    lemma StagedIsUnclaimed()
      requires Valid() && HasStaged(Now())
      ensures StagedPath(Now()) in disk.files && StagedPath(Now()) !in db.pending && fault.Healthy?
    {
      Holds();
    }

    // ----- cleaning up expired messages -----

    /** Exactly `gone` left the messages table, and the counter followed. */
    ghost predicate Expelled(before: int, gone: seq<Message>, prior: seq<Message>, counted: int)
      reads this
    {
      && UniqueIds(gone) && (forall m :: m in gone ==> m in prior && m.expires <= before)
      && (forall m :: m in db.messages <==> m in prior && m !in gone)
      && |db.messages| == |prior| - |gone| && storedMessages == counted - |gone|
    }

    /** Event `n` expelled `gone`, and the messages table has been as it left it since. */
    ghost predicate CommittedBatch(n: nat, before: int, gone: seq<Message>)
      reads `states, `events, `db
    {
      && n < |events| && n + 1 < |states|
      && events[n] == CommitCleanup(before, gone) && states[n + 1].db.messages == db.messages
    }

    /** The transaction of one cleanup batch. */
    method ExpireBatch(before: int) returns (ok: bool, gone: seq<Message>)
      requires Valid() && phase.Ready?
      modifies `tick, `db, `storedMessages, `states, `events
      ensures Valid() && Grew(old(states), old(events)) && old(tick) < tick
      ensures !ok ==> gone == [] && db == old(db) && storedMessages == old(storedMessages)
      ensures ok <==> Faultless(oracle, old(tick), tick)
      ensures ok ==> IsExpiredBatch(old(db.messages), before, gone)
      ensures ok ==> Expelled(before, gone, old(db.messages), old(storedMessages))
      ensures ok ==> CommittedBatch(|old(events)|, before, gone) && |events| == |old(events)| + 1
    {
      Holds();
      gone := [];
      ok := Try();
      if !ok { return; }
      ok := Try();
      if !ok { return; }
      var batch := SelectExpired(db.messages, before);
      ghost var t := tick;
      var tx, deleted, t' := DeleteBatch(db, batch, oracle, tick);
      tick, ok := t', deleted;
      FaultlessJoin(oracle, old(tick), t, t');
      if !ok { return; }
      ok := Try();
      FaultlessJoin(oracle, old(tick), t', tick);
      if !ok { return; }
      ghost var out := DeleteListed(db, batch, |batch|);
      assert batch[..|batch|] == batch;
      CommitExpired(before, batch, tx);
      gone := batch;
    }

    /** Nothing that belongs to drains has failed since these ticks. */
    ghost predicate DrainsWell(drainTick0: nat, unlinkTick0: nat)
      reads `drainTick, `unlinkTick
    {
      Faultless(drainOracle, drainTick0, drainTick) && Faultless(unlinkOracle, unlinkTick0, unlinkTick)
    }

    /** No operation of any kind has failed since these ticks. */
    ghost predicate AllWell(tick0: nat, drainTick0: nat, unlinkTick0: nat)
      reads `tick, `drainTick, `unlinkTick
    {
      Faultless(oracle, tick0, tick) && DrainsWell(drainTick0, unlinkTick0)
    }

    lemma AllWellJoin(tick0: nat, drainTick0: nat, unlinkTick0: nat, t: nat, d: nat, u: nat)
      requires tick0 <= t <= tick && drainTick0 <= d <= drainTick && unlinkTick0 <= u <= unlinkTick
      ensures AllWell(tick0, drainTick0, unlinkTick0) <==>
                && AllWell(t, d, u) && Faultless(oracle, tick0, t) && Faultless(drainOracle, drainTick0, d)
                && Faultless(unlinkOracle, unlinkTick0, u)
    {
    }

    /**
     * `cleanupBatchLocked`: at most 256 expired messages leave in one transaction. A short batch leaves
     * none behind. A committed batch is followed by a drain, whose failure does not undo the commit.
     */
    method CleanupBatch(before: int)
      returns (expired: nat, err: Option<CleanupError>, ghost gone: seq<Message>, ghost d: Drainage)
      requires Valid() && phase.Ready?
      modifies `tick, `drainTick, `unlinkTick, `disk, `db, `storedBytes, `storedMessages, `cursor, `phase, `states,
               `events, `attempts
      ensures Valid() && Grew(old(states), old(events)) && phase.Ready?
      ensures err != Some(TransactionFailed) ==> CommittedBatch(|old(events)|, before, gone)
      ensures err != Some(TransactionFailed) ==>
                JustDrained(d, |old(events)| + 1, old(unlinkTick), old(drainTick))
      ensures old(tick) < tick && old(drainTick) <= drainTick && old(unlinkTick) <= unlinkTick
      ensures expired == |gone| <= 256 && Expelled(before, gone, old(db.messages), old(storedMessages))
      ensures err == Some(TransactionFailed) ==> gone == [] && db == old(db)
      ensures err != Some(TransactionFailed) && expired < 256 ==> forall m :: m in db.messages ==> m.expires > before
      ensures err == Some(TransactionFailed) <==> !Faultless(oracle, old(tick), tick)
      ensures err.None? <==> AllWell(old(tick), old(drainTick), old(unlinkTick))
    {
      var ok, batch := ExpireBatch(before);
      expired, gone, d := |batch|, batch, NO_DRAIN;
      if !ok {
        err := Some(TransactionFailed);
      } else {
        err, d := DrainExpired(before, batch, old(db.messages), old(storedMessages), |old(events)|);
      }
    }

    /** The drain after the commit. */
    method DrainExpired(before: int, ghost gone: seq<Message>, ghost prior: seq<Message>, ghost counted: int,
                        ghost n: nat)
      returns (err: Option<CleanupError>, ghost d: Drainage)
      requires Valid() && phase.Ready? && Expelled(before, gone, prior, counted) && CommittedBatch(n, before, gone)
      modifies `drainTick, `unlinkTick, `disk, `db, `storedBytes, `cursor, `phase, `states, `events, `attempts
      ensures Valid() && Grew(old(states), old(events)) && phase.Ready? && db.messages == old(db.messages)
      ensures Expelled(before, gone, prior, counted) && CommittedBatch(n, before, gone)
      ensures old(drainTick) <= drainTick && old(unlinkTick) <= unlinkTick
      ensures JustDrained(d, |old(events)|, old(unlinkTick), old(drainTick))
      ensures err == if DrainsWell(old(drainTick), old(unlinkTick)) then None else Some(DrainFailed)
    {
      var drainErr;
      drainErr, d := DrainPending();
      err := if drainErr.Some? then Some(DrainFailed) else None;
    }

    /** Event `n` is the commit of a batch of `size` messages expired at `before`. */
    ghost predicate BatchAt(es: seq<Event>, n: nat, before: int, size: nat)
    {
      n < |es| && es[n].CommitCleanup? && es[n].before == before && |es[n].gone| == size
    }

    /** The drain followed at once the commit of such a batch, which came after event `n`. */
    ghost predicate BatchDrained(ss: seq<State>, es: seq<Event>, d: Drainage, n: nat, before: int, size: nat)
    {
      n < d.start && BatchAt(es, d.start - 1, before, size) && Happened(ss, d, d.start, d.unlinks, d.drains)
    }

    lemma StillDrained(ss: seq<State>, es: seq<Event>, ss': seq<State>, es': seq<Event>, d: Drainage, n: nat,
                       before: int, size: nat)
      requires ss <= ss' && es <= es' && BatchDrained(ss, es, d, n, before, size)
      ensures BatchDrained(ss', es', d, n, before, size)
    {
    }

    /** Each of these drains did so, all on full batches, and each began where the one before it had left the clocks. */
    ghost predicate BatchesDrained(ss: seq<State>, es: seq<Event>, ds: seq<Drainage>, n: nat, before: int)
    {
      && (forall i :: 0 <= i < |ds| ==> BatchDrained(ss, es, ds[i], n, before, 256))
      && (forall i :: 0 < i < |ds| ==> Follows(ds[i - 1], ds[i]))
    }

    ghost predicate Follows(a: Drainage, b: Drainage)
    {
      a.moment < b.start && b.drains == a.until && b.unlinks == UnlinksAfter(a)
    }

    lemma StillBatchesDrained(ss: seq<State>, es: seq<Event>, ss': seq<State>, es': seq<Event>, ds: seq<Drainage>,
                              n: nat, before: int)
      requires ss <= ss' && es <= es' && BatchesDrained(ss, es, ds, n, before)
      ensures BatchesDrained(ss', es', ds, n, before)
    {
      forall i | 0 <= i < |ds| ensures BatchDrained(ss', es', ds[i], n, before, 256) {
        StillDrained(ss, es, ss', es', ds[i], n, before, 256);
      }
    }

    lemma OneMoreBatch(ss: seq<State>, es: seq<Event>, ds: seq<Drainage>, d: Drainage, n: nat, before: int)
      requires BatchesDrained(ss, es, ds, n, before) && BatchDrained(ss, es, d, n, before, 256)
      requires ds != [] ==> Follows(ds[|ds| - 1], d)
      ensures BatchesDrained(ss, es, ds + [d], n, before)
    {
      var all := ds + [d];
      forall i | 0 < i < |all| ensures Follows(all[i - 1], all[i]) {
        if i < |ds| { assert all[i - 1] == ds[i - 1] && all[i] == ds[i]; }
      }
    }

    /** This drain was the last thing that happened. */
    ghost predicate JustDone(d: Drainage)
      reads `events, `drainTick, `unlinkTick
    {
      d.moment == |events| && d.until == drainTick && UnlinksAfter(d) == unlinkTick
    }

    /** One more batch, and its drain. */
    method CleanupNext(before: int, ghost ds: seq<Drainage>, ghost n: nat)
      returns (expired: nat, err: Option<CleanupError>, ghost d: Drainage)
      requires Valid() && phase.Ready? && n <= |events| && BatchesDrained(states, events, ds, n, before)
      requires ds != [] ==> JustDone(ds[|ds| - 1])
      modifies `tick, `drainTick, `unlinkTick, `disk, `db, `storedBytes, `storedMessages, `cursor, `phase, `states,
               `events, `attempts
      ensures Valid() && Grew(old(states), old(events)) && phase.Ready?
      ensures old(tick) < tick && old(drainTick) <= drainTick && old(unlinkTick) <= unlinkTick
      ensures expired <= 256
      ensures Cleaned(old(db.messages), db.messages, expired, before)
      ensures storedMessages == old(storedMessages) - expired
      ensures err == Some(TransactionFailed) ==> expired == 0
      ensures err != Some(TransactionFailed) && expired < 256 ==> forall m :: m in db.messages ==> m.expires > before
      ensures err.None? <==> AllWell(old(tick), old(drainTick), old(unlinkTick))
      ensures BatchesDrained(states, events, ds, n, before)
      ensures err != Some(TransactionFailed) ==>
                && BatchDrained(states, events, d, n, before, expired) && JustDone(d)
                && (ds != [] ==> Follows(ds[|ds| - 1], d))
    {
      ghost var gone, ss, es := [], states, events;
      expired, err, gone, d := CleanupBatch(before);
      StillBatchesDrained(ss, es, states, events, ds, n, before);
    }

    /** The loop since the clocks `c`: full batches only, each drained, and nothing has failed. */
    ghost predicate CleanedSoFar(c: Clocks, prior: seq<Message>, counted: int, before: int, expired: nat,
                                 ds: seq<Drainage>)
      reads this
    {
      && Cleaned(prior, db.messages, expired, before) && storedMessages == counted - expired && expired == 256 * |ds|
      && c.general <= tick && c.drains <= drainTick && c.unlinks <= unlinkTick && c.events <= |events|
      && AllWell(c.general, c.drains, c.unlinks)
      && BatchesDrained(states, events, ds, c.events, before) && (ds != [] ==> JustDone(ds[|ds| - 1]))
    }

    /** One turn of the loop, and whether it was the last. */
    method CleanupStep(ghost c: Clocks, ghost prior: seq<Message>, ghost counted: int, before: int, expired: nat,
                       ghost ds: seq<Drainage>)
      returns (done: bool, expired': nat, err: Option<CleanupError>, ghost d: Drainage)
      requires Valid() && phase.Ready? && CleanedSoFar(c, prior, counted, before, expired, ds)
      modifies `tick, `drainTick, `unlinkTick, `disk, `db, `storedBytes, `storedMessages, `cursor, `phase, `states,
               `events, `attempts
      ensures Valid() && Grew(old(states), old(events)) && phase.Ready?
      ensures !done ==> CleanedSoFar(c, prior, counted, before, expired', ds + [d])
      ensures !done ==> |db.messages| < |old(db.messages)|
      ensures done ==> Cleaned(prior, db.messages, expired', before) && storedMessages == counted - expired'
      ensures done && err.None? ==> forall m :: m in db.messages ==> m.expires > before
      ensures done ==> (err.None? <==> AllWell(c.general, c.drains, c.unlinks))
      ensures done ==> LastBatch(c.events, before, err, expired', ds, d)
    {
      ghost var t, dt, u, ms := tick, drainTick, unlinkTick, db.messages;
      var n;
      n, err, d := CleanupNext(before, ds, c.events);
      AllWellJoin(c.general, c.drains, c.unlinks, t, dt, u);
      CleanedMore(prior, ms, db.messages, expired, n, before);
      expired', done := expired + n, err.Some? || n < BATCH;
      if !done {
        OneMoreBatch(states, events, ds, d, c.events, before);
      }
    }

    /** Since event `n`, `ds` drained the full batches, and `d` what was committed after them, if anything was. */
    ghost predicate LastBatch(n: nat, before: int, err: Option<CleanupError>, expired: nat, ds: seq<Drainage>,
                              d: Drainage)
      reads `states, `events
    {
      && BatchesDrained(states, events, ds, n, before)
      && if err == Some(TransactionFailed) then expired == 256 * |ds|
         else
           && 256 * |ds| <= expired <= 256 * (|ds| + 1)
           && BatchDrained(states, events, d, n, before, expired - 256 * |ds|)
           && (ds != [] ==> Follows(ds[|ds| - 1], d))
    }

    /**
     * `cleanupLocked`, the loop of `Cleanup` with the lock held throughout: it ends, removes expired
     * messages only, and without error leaves none. An error keeps what earlier batches committed. Each
     * committed batch is followed by a drain of its own: `ds` are those of full batches, `d` that of the last one.
     */
    method CleanupLocked(before: int)
      returns (expired: nat, err: Option<CleanupError>, ghost ds: seq<Drainage>, ghost d: Drainage)
      requires Valid() && phase.Ready?
      modifies `tick, `drainTick, `unlinkTick, `disk, `db, `storedBytes, `storedMessages, `cursor, `phase, `states,
               `events, `attempts
      ensures Valid() && Grew(old(states), old(events)) && phase.Ready?
      ensures Cleaned(old(db.messages), db.messages, expired, before)
      ensures storedMessages == old(storedMessages) - expired
      ensures err.None? ==> forall m :: m in db.messages ==> m.expires > before
      ensures err.None? <==> AllWell(old(tick), old(drainTick), old(unlinkTick))
      ensures LastBatch(|old(events)|, before, err, expired, ds, d)
    {
      ghost var c, ms, counted := Clocks(tick, drainTick, unlinkTick, |events|), db.messages, storedMessages;
      expired, ds := 0, [];
      while true
        invariant Valid() && Grew(old(states), old(events)) && phase.Ready?
        invariant CleanedSoFar(c, ms, counted, before, expired, ds)
        decreases |db.messages|
      {
        var done;
        done, expired, err, d := CleanupStep(c, ms, counted, before, expired, ds);
        if done { return; }
        ds := ds + [d];
      }
    }

    // ----- between other operations -----

    /** From state `n` on the process has been up and no random name it drew was one of `paths`. */
    ghost predicate Onward(n: nat, paths: set<Path>)
      reads `states, `events
    {
      && |states| == |events| + 1
      && (forall i :: n <= i < |states| ==> Up(states[i]))
      && (forall i, p :: n <= i < |events| && p in paths ==> Spares(events[i], p))
    }

    /**
     * What other operations of the process do while the caller looks away: any number of steps of the machine.
     * A caller knows this contract only, so what it promises holds for every such interference.
     */
    method Interference()
      requires Valid() && Up(Now())
      modifies this
      ensures Valid() && Grew(old(states), old(events)) && Onward(|old(events)|, BlobPaths(old(db.blobs)))
      ensures old(tick) <= tick && old(drainTick) <= drainTick && old(unlinkTick) <= unlinkTick
    {
    }

    /** The same while the lock is free: when the caller takes it again no operation is half done. */
    method LockFree()
      requires Valid() && phase.Ready?
      modifies this
      ensures Valid() && Grew(old(states), old(events)) && Onward(|old(events)|, BlobPaths(old(db.blobs)))
      ensures old(tick) <= tick && old(drainTick) <= drainTick && old(unlinkTick) <= unlinkTick && phase.Ready?
    {
    }

    /** No delivery since event `n` brought a message that has expired by `before`. */
    ghost predicate NoneArriveExpired(n: nat, before: int)
      reads `events
    {
      forall i :: n <= i < |events| && events[i].CommitSave? ==> forall m :: m in events[i].ms ==> m.expires > before
    }

    /** Nothing failed in this drain. */
    ghost predicate Clean(d: Drainage)
    {
      Faultless(drainOracle, d.drains, d.until) && Faultless(unlinkOracle, d.unlinks, UnlinksAfter(d))
    }

    /** Event `n` is the commit of a short batch, and no expired message is left. */
    ghost predicate FinalBatch(n: nat, before: int)
      reads `states, `events, `db
    {
      && n < |events| && n + 1 < |states|
      && events[n].CommitCleanup? && events[n].before == before && |events[n].gone| < 256
      && states[n + 1].db.messages == db.messages && forall m :: m in db.messages ==> m.expires > before
    }

    lemma ExpelledFewer(before: int, gone: seq<Message>, prior: seq<Message>, counted: int)
      requires Expelled(before, gone, prior, counted)
      ensures |ExpiredIn(db.messages, before)| + |gone| == |ExpiredIn(prior, before)|
    {
      IdsCount(gone);
      assert ExpiredIn(prior, before) == ExpiredIn(db.messages, before) + (set m | m in gone);
    }

    /** While the lock was free from event `n` on, expired messages only became fewer, unless some arrived. */
    lemma FewerSince(n: nat, paths: set<Path>, before: int)
      requires Valid() && n < |states| && Onward(n, paths) && NoneArriveExpired(n, before)
      ensures |ExpiredIn(db.messages, before)| <= |ExpiredIn(states[n].db.messages, before)|
    {
      OriginIsSafe(cfg, states[0]);
      ExpiredOnlyLeave(cfg, states, events, n, |events|, before);
      SubsetCount(ExpiredIn(db.messages, before), ExpiredIn(states[n].db.messages, before));
    }

    /**
     * The last batch began at the clocks `last`. Without an error it was a short one and left no expired message; an
     * error of its transaction left the messages as they were; and if it was committed, the drain `d` followed.
     */
    ghost predicate Ended(error: Option<CleanupError>, last: Clocks, d: Drainage, before: int)
      reads this
    {
      && (error.None? <==> AllWell(last.general, last.drains, last.unlinks))
      && (error.None? ==> FinalBatch(last.events, before))
      && (error == Some(TransactionFailed) ==>
            last.events < |states| && db.messages == states[last.events].db.messages)
      && (error != Some(TransactionFailed) ==> JustDrained(d, last.events + 1, last.unlinks, last.drains))
    }

    /** One turn of the loop of `Cleanup`: a batch and, if it was full and went well, the release of the lock. */
    method CleanupTurn(before: int) returns (done: bool, err: Option<CleanupError>, ghost d: Drainage)
      requires Valid() && phase.Ready?
      modifies this
      ensures Valid() && Grew(old(states), old(events)) && phase.Ready?
      ensures old(tick) <= tick && old(drainTick) <= drainTick && old(unlinkTick) <= unlinkTick
      ensures done ==> Ended(err, Clocks(old(tick), old(drainTick), old(unlinkTick), |old(events)|), d, before)
      ensures !done ==> err.None? && FullTurn(states, events, d, |old(events)|, before) && d.start <= |events|
      ensures !done && NoneArriveExpired(|old(events)|, before) ==>
                |ExpiredIn(db.messages, before)| + BATCH <= |ExpiredIn(old(db.messages), before)|
    {
      var n, e;
      ghost var gone;
      n, e, gone, d := CleanupBatch(before);
      err, done := e, e.Some? || n < BATCH;
      if !done {
        ExpelledFewer(before, gone, old(db.messages), old(storedMessages));
        ghost var from := |events|;
        LockFree();
        if NoneArriveExpired(|old(events)|, before) {
          ghost var paths :| Onward(from, paths);
          FewerSince(from, paths, before);
        }
      }
    }

    /** After event `n` a full batch was committed, and drained with no failure. */
    ghost predicate FullTurn(ss: seq<State>, es: seq<Event>, d: Drainage, n: nat, before: int)
    {
      BatchDrained(ss, es, d, n, before, 256) && Clean(d)
    }

    ghost predicate FullTurns(ss: seq<State>, es: seq<Event>, ds: seq<Drainage>, n: nat, before: int, end: nat)
    {
      forall d :: d in ds ==> FullTurn(ss, es, d, n, before) && d.start <= end
    }

    lemma OneMoreTurn(ss: seq<State>, es: seq<Event>, ss': seq<State>, es': seq<Event>, ds: seq<Drainage>, d: Drainage,
                      n: nat, before: int, end: nat, end': nat)
      requires ss <= ss' && es <= es' && end <= end' && n <= end && FullTurns(ss, es, ds, n, before, end)
      ensures FullTurns(ss', es', ds, n, before, end)
      ensures FullTurn(ss', es', d, end, before) && d.start <= end' ==> FullTurns(ss', es', ds + [d], n, before, end')
    {
      forall f | f in ds ensures FullTurn(ss', es', f, n, before) {
        StillDrained(ss, es, ss', es', f, n, before, 256);
      }
    }

    /**
     * `Cleanup`: batches with the lock released in between, for other operations to do anything. `turns` says how
     * many batches we watch. If it returns without error, its last commit left no message expired at `before`;
     * an error is that of its last batch, and those before it, all of them full, stay committed. Each commit is
     * followed by a drain. Unless expired messages keep arriving it returns.
     */
    method Cleanup(before: int, turns: nat)
      returns (outcome: CleanupOutcome, ghost full: seq<Drainage>, ghost last: Clocks, ghost d: Drainage)
      requires Valid() && phase.Ready?
      modifies this
      ensures Valid() && Grew(old(states), old(events)) && phase.Ready?
      ensures fault.Healthy? ==> storedBytes == Charge(db) && storedMessages == |db.messages|
      ensures FullTurns(states, events, full, |old(events)|, before, |events|)
      ensures outcome.Returned? ==>
                |old(events)| <= last.events < |states|
                && FullTurns(states, events, full, |old(events)|, before, last.events)
      ensures outcome.Returned? ==>
                old(tick) <= last.general && old(drainTick) <= last.drains && old(unlinkTick) <= last.unlinks
      ensures outcome.Returned? ==> Ended(outcome.error, last, d, before)
      ensures NoneArriveExpired(|old(events)|, before) && |ExpiredIn(old(db.messages), before)| < turns * 256 ==>
                outcome.Returned?
    {
      full, d := [], NO_DRAIN;
      for i := 0 to turns
        invariant Valid() && Grew(old(states), old(events)) && phase.Ready?
        invariant old(tick) <= tick && old(drainTick) <= drainTick && old(unlinkTick) <= unlinkTick
        invariant FullTurns(states, events, full, |old(events)|, before, |events|)
        invariant NoneArriveExpired(|old(events)|, before) ==>
                    |ExpiredIn(db.messages, before)| + i * BATCH <= |ExpiredIn(old(db.messages), before)|
      {
        last := Clocks(tick, drainTick, unlinkTick, |events|);
        var done, err;
        ghost var ss, es := states, events;
        done, err, d := CleanupTurn(before);
        OneMoreTurn(ss, es, states, events, full, d, |old(events)|, before, |es|, |events|);
        if done {
          BooksIfHealthy();
          return Returned(err), full, last, d;
        }
        full := full + [d];
      }
      BooksIfHealthy();
      outcome, last := Waiting, Clocks(0, 0, 0, 0);
    }

    // ----- shutting down, losing power, starting up -----

    /** The process ends; the directory stays as it is. */
    method Halt()
      requires Valid()
      modifies `phase, `states, `events
      ensures Valid() && Grew(old(states), old(events)) && phase.Down?
    {
      phase := Down;
      Emit(Stop);
    }

    /** The host loses power and leaves `after` in the directory. */
    method LosePower(after: map<Path, File>)
      requires Valid() && CrashImage(disk, after)
      modifies `disk, `phase, `states, `events
      ensures Valid() && Grew(old(states), old(events)) && phase.Down? && disk.files == after
    {
      disk, phase := Disk(after, after.Keys, map[]), Down;
      Emit(PowerLoss(after));
    }

    method StartRecovery()
      requires Valid() && phase.Down?
      modifies `phase, `states, `events
      ensures Valid() && Grew(old(states), old(events)) && phase.Recovering?
    {
      phase := Recovering;
      Emit(BeginRecovery);
    }

    /** `normalizeStoredRecipients`: one query and, if any address needs it, one transaction of updates. */
    method NormalizeStored() returns (ok: bool)
      requires Valid() && phase.Recovering?
      modifies `tick, `db, `states, `events
      ensures Valid() && Grew(old(states), old(events)) && old(tick) < tick
      ensures db == if ok then Renormalized(old(db)) else old(db)
      ensures ok <==> Faultless(oracle, old(tick), tick)
    {
      ok := Try();
      if ok {
        ghost var t := tick;
        var ms;
        ms, ok := UpdateStored();
        FaultlessJoin(oracle, old(tick), t, tick);
        if ok {
          RenormalizeIsStep(cfg, Now());
          db := db.(messages := ms);
          Emit(Renormalize);
        }
      }
    }

    /** The messages with every address in normal form; without one that is not, there is no transaction. */
    method UpdateStored() returns (ms: seq<Message>, ok: bool)
      modifies `tick
      ensures old(tick) <= tick
      ensures ok ==> ms == Renormalized(db).messages
      ensures ok <==> Faultless(oracle, old(tick), tick)
    {
      var todo := Unnormalized(db.messages, Normalize);
      forall x ensures Normalize(Normalize(x)) == Normalize(x) {
        NormalizeTwice(x);
      }
      ok, ms := true, db.messages;
      if |todo| == 0 {
        AllRenamed(ms, todo, Normalize, ms);
      } else {
        ms, ok, tick := UpdateRecipients(ms, todo, Normalize, oracle, tick);
      }
    }

    /** The `stat` of every blob row's file: an error if one is missing, or if a `stat` fails. */
    method FindMissingBlob() returns (missing: Option<OpenError>)
      modifies `tick
      ensures old(tick) <= tick
      ensures missing.None? <==> BlobPaths(db.blobs) <= disk.files.Keys && Faultless(oracle, old(tick), tick)
      ensures missing.None? ==> tick == old(tick) + |BlobPaths(db.blobs)|
      ensures missing.Some? ==>
                && missing.value.BlobMissing? && missing.value.path in BlobPaths(db.blobs)
                && (missing.value.path !in disk.files || !Faultless(oracle, old(tick), tick))
    {
      var rest := BlobPaths(db.blobs);
      while rest != {}
        invariant rest <= BlobPaths(db.blobs) && old(tick) <= tick && Faultless(oracle, old(tick), tick)
        invariant tick + |rest| == old(tick) + |BlobPaths(db.blobs)|
        invariant forall p :: p in BlobPaths(db.blobs) && p !in rest ==> p in disk.files
        decreases rest
      {
        var p :| p in rest;
        ghost var t := tick;
        var ok := Try();
        FaultlessJoin(oracle, old(tick), t, tick);
        if !ok || p !in disk.files { return Some(BlobMissing(p)); }
        rest := rest - {p};
      }
      missing := None;
    }

    /** `INSERT OR IGNORE INTO pending_deletions` for a file without a blob row. */
    method QueueOrphan(p: Path)
      requires Valid() && phase.Recovering? && p in disk.files && IsMessageFile(p) && p !in BlobPaths(db.blobs)
      modifies `db, `states, `events
      ensures Valid() && Grew(old(states), old(events)) && db.messages == old(db.messages) && db.blobs == old(db.blobs)
      ensures db.pending.Keys == old(db.pending).Keys + {p}
      ensures OrphansQueued(old(db.pending), db.pending, db.blobs, disk.files)
    {
      if p !in db.pending {
        db := db.(pending := db.pending[p := |disk.files[p].bytes|]);
      }
      Emit(RecordOrphan(p));
    }

    /** The directory scan of `reconcileFiles`. */
    method QueueOrphans() returns (ok: bool)
      requires Valid() && phase.Recovering?
      modifies `tick, `db, `states, `events
      ensures Valid() && Grew(old(states), old(events)) && old(tick) < tick
      ensures db.messages == old(db.messages) && db.blobs == old(db.blobs)
      ensures ok ==> AllListed(Now())
      ensures OrphansQueued(old(db.pending), db.pending, db.blobs, disk.files)
      ensures ok <==> Faultless(oracle, old(tick), tick)
    {
      ok := Try();
      if !ok { return; }
      var entries := disk.files.Keys;
      while entries != {}
        invariant Valid() && Grew(old(states), old(events)) && ok
        invariant old(tick) < tick && Faultless(oracle, old(tick), tick)
        invariant db.messages == old(db.messages) && db.blobs == old(db.blobs)
        invariant entries <= disk.files.Keys && OrphansQueued(old(db.pending), db.pending, db.blobs, disk.files)
        invariant forall p :: p in disk.files && p !in entries && IsMessageFile(p) ==>
                    p in BlobPaths(db.blobs) || p in db.pending
        decreases entries
      {
        var p :| p in entries;
        entries := entries - {p};
        if IsMessageFile(p) && p !in BlobPaths(db.blobs) {
          ghost var t, queued := tick, db.pending;
          ok := QueueEntry(p);
          FaultlessJoin(oracle, old(tick), t, tick);
          MoreOrphans(old(db.pending), queued, db.pending, db.blobs, disk.files);
          if !ok { return; }
        }
      }
    }

    /** The size of one entry, and its record. */
    method QueueEntry(p: Path) returns (ok: bool)
      requires Valid() && phase.Recovering? && p in disk.files && IsMessageFile(p) && p !in BlobPaths(db.blobs)
      modifies `tick, `db, `states, `events
      ensures Valid() && Grew(old(states), old(events)) && old(tick) < tick
      ensures db.messages == old(db.messages) && db.blobs == old(db.blobs)
      ensures db.pending.Keys == old(db.pending).Keys + (if ok then {p} else {})
      ensures OrphansQueued(old(db.pending), db.pending, db.blobs, disk.files)
      ensures ok <==> Faultless(oracle, old(tick), tick)
    {
      ok := Try();
      if !ok { return; }
      ok := Try();
      if !ok { return; }
      QueueOrphan(p);
    }

    /** The usage has been read over `bytes` and `count`: the process is up. */
    method Serve(ghost bytes: int, ghost count: int)
      requires IsRun(cfg, states, events) && Origin(states[0])
      requires states[|events|] == Now().(storedBytes := bytes, storedMessages := count)
      requires phase.Recovering? && AllListed(Now()) && storedBytes == Charge(db) && storedMessages == |db.messages|
      modifies `fault, `cursor, `phase, `ceiling, `leaked, `states, `events
      ensures Valid() && Grew(old(states), old(events)) && phase.Ready? && fault.Healthy? && cursor == ""
    {
      LoadIsStep(cfg, states[|events|]);
      fault, cursor, phase := Healthy, "", Ready;
      ceiling, leaked := Max(Charge(db), cfg.maxStorage + cfg.maxMessage), map[];
      Emit(Load);
    }

    /** The usage is loaded into a new process, with no fault and the cursor at the start. */
    method LoadProcess() returns (ok: bool)
      requires Valid() && phase.Recovering? && AllListed(Now())
      modifies `tick, `storedBytes, `storedMessages, `fault, `cursor, `phase, `ceiling, `leaked, `states, `events
      ensures Grew(old(states), old(events)) && old(tick) < tick
      ensures Valid() && (ok <==> Faultless(oracle, old(tick), tick))
      ensures ok ==> phase.Ready? && fault.Healthy? && cursor == "" && tick == old(tick) + 2
      ensures !ok ==> phase.Down?
    {
      // A process that fails to load exits, so what it read is of no account.
      var b, c := storedBytes, storedMessages;
      ok := LoadUsage();
      if ok {
        Serve(b, c);
      } else {
        storedBytes, storedMessages := b, c;
        Halt();
      }
    }

    /** Everything before requests are admitted: reconcile the files, load the usage, sweep the queue. */
    method Reconcile() returns (error: Option<OpenError>)
      requires Valid() && phase.Down?
      modifies `tick, `db, `storedBytes, `storedMessages, `fault, `cursor, `phase, `ceiling, `leaked, `states, `events
      ensures Valid() && Grew(old(states), old(events)) && old(tick) < tick && db.blobs == old(db.blobs)
      ensures error.None? ==> phase.Ready? && fault.Healthy? && cursor == ""
      ensures error.None? ==> db.messages == Readdress(old(db.messages), Normalize)
      ensures error.None? ==> old(tick) + |BlobPaths(db.blobs)| + 5 <= tick
      ensures error.None? ==> db.pending.Keys == old(db.pending).Keys + Orphaned(disk.files, db.blobs)
      ensures error.Some? ==> phase.Down? && NothingMissing(error.value)
      ensures error.None? <==> Faultless(oracle, old(tick), tick)
    {
      error := Recover();
      ghost var t := tick;
      AllQueued(old(db.pending), Now());
      if error.Some? {
        Halt();
      } else {
        var ok := LoadProcess();
        error := if ok then None else Some(OpenFailed);
      }
      FaultlessJoin(oracle, old(tick), t, tick);
    }

    /** The tables and the directory are brought into order. */
    method Recover() returns (error: Option<OpenError>)
      requires Valid() && phase.Down?
      modifies `tick, `db, `phase, `states, `events
      ensures Valid() && Grew(old(states), old(events)) && phase.Recovering? && old(tick) < tick
      ensures db.blobs == old(db.blobs)
      ensures error.None? ==> db.messages == Readdress(old(db.messages), Normalize) && AllListed(Now())
      ensures error.None? ==> old(tick) + |BlobPaths(db.blobs)| + 3 <= tick
      ensures OrphansQueued(old(db.pending), db.pending, db.blobs, disk.files)
      ensures error.Some? ==> NothingMissing(error.value)
      ensures error.None? <==> Faultless(oracle, old(tick), tick)
    {
      StartRecovery();
      var ok := NormalizeStored();
      ghost var t := tick;
      if ok {
        error := ReconcileFiles();
      } else {
        error := Some(OpenFailed);
      }
      FaultlessJoin(oracle, old(tick), t, tick);
    }

    /** Even if startup reports a referenced blob, its file is there, and only its `stat` failed. */
    ghost predicate NothingMissing(error: OpenError)
      reads this
    {
      error.BlobMissing? ==> error.path in disk.files
    }

    /** `reconcileFiles`: every referenced file is there, and every other message file is queued. */
    method ReconcileFiles() returns (error: Option<OpenError>)
      requires Valid() && phase.Recovering?
      modifies `tick, `db, `states, `events
      ensures Valid() && Grew(old(states), old(events)) && old(tick) < tick
      ensures db.messages == old(db.messages) && db.blobs == old(db.blobs)
      ensures error.None? ==> AllListed(Now()) && old(tick) + |BlobPaths(db.blobs)| + 2 <= tick
      ensures OrphansQueued(old(db.pending), db.pending, db.blobs, disk.files)
      ensures error.Some? ==> NothingMissing(error.value)
      ensures error.None? <==> Faultless(oracle, old(tick), tick)
    {
      error := Some(OpenFailed);
      var ok := Try();
      ghost var t := tick;
      if ok {
        error := ScanFiles();
      }
      FaultlessJoin(oracle, old(tick), t, tick);
    }

    /** The rows of the blobs table against the directory, then the directory against the rows. */
    method ScanFiles() returns (error: Option<OpenError>)
      requires Valid() && phase.Recovering?
      modifies `tick, `db, `states, `events
      ensures Valid() && Grew(old(states), old(events)) && old(tick) <= tick
      ensures db.messages == old(db.messages) && db.blobs == old(db.blobs)
      ensures error.None? ==> AllListed(Now()) && old(tick) + |BlobPaths(db.blobs)| + 1 <= tick
      ensures OrphansQueued(old(db.pending), db.pending, db.blobs, disk.files)
      ensures error.Some? ==> NothingMissing(error.value)
      ensures error.None? <==> Faultless(oracle, old(tick), tick)
    {
      BlobsPresent();
      error := FindMissingBlob();
      if error.None? {
        ghost var t := tick;
        var ok := QueueOrphans();
        FaultlessJoin(oracle, old(tick), t, tick);
        error := if ok then None else Some(OpenFailed);
      }
    }

    lemma BlobsPresent()
      requires Valid()
      ensures BlobPaths(db.blobs) <= disk.files.Keys
    {
      Holds();
    }

    /** The directory, two queries about the schema, and seven statements for what tables and indices are missing. */
    const SETUP: nat := 10

    /** What `OpenStore` does before it looks at any row. */
    method SetUp() returns (ok: bool)
      modifies `tick
      ensures old(tick) < tick && (ok <==> Faultless(oracle, old(tick), tick))
      ensures ok ==> tick == old(tick) + 10
    {
      ok := true;
      for i := 0 to SETUP
        invariant ok && tick == old(tick) + i && Faultless(oracle, old(tick), tick)
      {
        ok := Try();
        if !ok { return; }
      }
    }

    /**
     * The startup sweep has tried each of `queued` once, in order, with unlinks from tick `u` on, and exactly those
     * are still queued whose unlink failed; unless SQL or a sync failed since tick `d`.
     */
    ghost predicate SweptAll(queued: set<Path>, swept: seq<Path>, u: nat, d: nat)
      reads `db, `drainTick, `unlinkTick
    {
      Faultless(drainOracle, d, drainTick) ==>
        && Ascending(swept) && (forall p :: p != "" ==> (p in swept <==> p in queued))
        && db.pending.Keys <= queued && unlinkTick == u + |swept|
        && KeptFailures(swept, db.pending.Keys, unlinkOracle, u)
    }

    /**
     * `OpenStore` on tables of the current schema. It fails if and only if an operation of its own failed, whatever
     * becomes of the sweep; a referenced blob is never missing. It ends with exact counters and every recipient
     * normalized. Every orphan is queued, and every queued file tried once. A sweep without a failure leaves the
     * queue empty but for a record without a path, which no batch ever selects. To succeed it must have asked for ten
     * operations of the set-up, the rows of two tables, the status of every blob's file, the directory's entries, and
     * two readings of the usage.
     */
    method Open() returns (error: Option<OpenError>, ghost swept: seq<Path>)
      requires Valid() && phase.Down?
      modifies this
      ensures Valid() && Grew(old(states), old(events)) && db.blobs == old(db.blobs)
      ensures error.None? ==>
                && phase.Ready? && fault.Healthy? && cursor == ""
                && db.messages == Readdress(old(db.messages), Normalize)
                && storedBytes == Charge(db) && storedMessages == |db.messages|
      ensures error.None? ==>
                && old(tick) + |BlobPaths(db.blobs)| + 17 <= tick
                && SweptAll(old(db.pending).Keys + Orphaned(old(disk).files, db.blobs), swept, old(unlinkTick),
                            old(drainTick))
      ensures error.Some? ==> phase.Down? && NothingMissing(error.value)
      ensures error.None? <==> Faultless(oracle, old(tick), tick)
      ensures AllWell(old(tick), old(drainTick), old(unlinkTick)) ==> forall p :: p in db.pending ==> p == ""
    {
      var ok := SetUp();
      ghost var t := tick;
      swept := [];
      if ok {
        error, swept := OpenTables();
      } else {
        error := Some(OpenFailed);
      }
      FaultlessJoin(oracle, old(tick), t, tick);
    }

    /** The rest, with the tables there. */
    method OpenTables() returns (error: Option<OpenError>, ghost swept: seq<Path>)
      requires Valid() && phase.Down?
      modifies this
      ensures Valid() && Grew(old(states), old(events)) && old(tick) < tick && db.blobs == old(db.blobs)
      ensures error.None? ==>
                && phase.Ready? && fault.Healthy? && cursor == ""
                && db.messages == Readdress(old(db.messages), Normalize)
                && storedBytes == Charge(db) && storedMessages == |db.messages|
      ensures error.None? ==>
                && old(tick) + |BlobPaths(db.blobs)| + 7 <= tick
                && SweptAll(old(db.pending).Keys + Orphaned(old(disk).files, db.blobs), swept, old(unlinkTick),
                            old(drainTick))
      ensures error.Some? ==> phase.Down? && NothingMissing(error.value)
      ensures error.None? <==> Faultless(oracle, old(tick), tick)
      ensures error.None? && DrainsWell(old(drainTick), old(unlinkTick)) ==> forall p :: p in db.pending ==> p == ""
    {
      error := Reconcile();
      ghost var t := tick;
      swept := [];
      if error.None? {
        var ok;
        ok, swept := SweepAndRecount();
        error := if ok then None else Some(OpenFailed);
      }
      FaultlessJoin(oracle, old(tick), t, tick);
    }

    /** The startup sweep and, whatever became of it, a second reading of the usage. */
    method SweepAndRecount() returns (ok: bool, ghost swept: seq<Path>)
      requires Valid() && phase.Ready? && fault.Healthy?
      modifies `tick, `drainTick, `unlinkTick, `disk, `db, `storedBytes, `storedMessages, `phase, `states, `events,
               `attempts
      ensures Valid() && Grew(old(states), old(events)) && old(tick) < tick
      ensures db.messages == old(db.messages) && db.blobs == old(db.blobs)
      ensures ok ==> phase.Ready? && storedBytes == Charge(db) && storedMessages == |db.messages|
      ensures ok ==> tick == old(tick) + 2
      ensures !ok ==> phase.Down?
      ensures ok <==> Faultless(oracle, old(tick), tick)
      ensures SweptAll(old(db.pending).Keys, swept, old(unlinkTick), old(drainTick))
      ensures DrainsWell(old(drainTick), old(unlinkTick)) ==> forall p :: p in db.pending ==> p == ""
    {
      swept := SweepAtStart();
      ok := Recount();
      if !ok {
        Halt();
      }
    }

    /** The startup sweep, whose errors are only logged. */
    method SweepAtStart() returns (ghost swept: seq<Path>)
      requires Valid() && phase.Ready?
      modifies `drainTick, `unlinkTick, `disk, `db, `storedBytes, `phase, `states, `events, `attempts
      ensures Valid() && Grew(old(states), old(events))
      ensures phase == old(phase) && db.messages == old(db.messages) && db.blobs == old(db.blobs)
      ensures SweptAll(old(db.pending).Keys, swept, old(unlinkTick), old(drainTick))
      ensures DrainsWell(old(drainTick), old(unlinkTick)) ==> forall p :: p in db.pending ==> p == ""
    {
      ghost var queued := db.pending.Keys;
      var drainErr;
      ghost var aborted;
      drainErr, aborted, swept := DrainAll();
      if !aborted && drainErr.None? {
        SweptClean(swept, queued, old(unlinkTick));
      }
    }

    lemma SweptClean(swept: seq<Path>, queued: set<Path>, u: nat)
      requires KeptFailures(swept, db.pending.Keys, unlinkOracle, u) && db.pending.Keys <= queued
      requires unlinkTick == u + |swept| && Faultless(unlinkOracle, u, unlinkTick)
      requires forall p :: p != "" ==> (p in swept <==> p in queued)
      ensures forall p :: p in db.pending ==> p == ""
    {
      forall j | 0 <= j < |swept| ensures swept[j] !in db.pending {
        assert unlinkOracle(u + j);
      }
    }

    /** The usage is read once more after the sweep; it agrees with what the sweep has kept up to date. */
    method Recount() returns (ok: bool)
      requires Valid() && Up(Now()) && fault.Healthy?
      modifies `tick, `storedBytes, `storedMessages
      ensures Valid() && old(tick) < tick
      ensures ok ==> storedBytes == Charge(db) && storedMessages == |db.messages| && tick == old(tick) + 2
      ensures ok <==> Faultless(oracle, old(tick), tick)
    {
      var b, c := storedBytes, storedMessages;
      BooksIfHealthy();
      ok := LoadUsage();
      if !ok {
        storedBytes, storedMessages := b, c;
      }
    }

    lemma BooksIfHealthy()
      requires Valid() && Up(Now())
      ensures fault.Healthy? ==> storedBytes == Charge(db) && storedMessages == |db.messages|
    {
      Holds();
    }

    // ----- reading, and what the whole history promises -----

    /** The query of `Get`: the row of an unexpired message. */
    method FindRow(id: string, now: int) returns (row: Option<Message>)
      ensures row.None? ==> forall m :: m in db.messages && m.id == id ==> m.expires <= now
      ensures row.Some? ==> row.value in db.messages && row.value.id == id && row.value.expires > now
    {
      for i := 0 to |db.messages|
        invariant forall j :: 0 <= j < i ==> db.messages[j].id != id || db.messages[j].expires <= now
      {
        if db.messages[i].id == id && db.messages[i].expires > now { return Some(db.messages[i]); }
      }
      row := None;
    }

    /**
     * `Get` takes no lock, so between its query and the reading of the file, at tick `readAt`, other operations may
     * do anything. It finds a row exactly if an unexpired one was there, and the file of that row holds what its
     * delivery was given or, once the blob row has left, is gone.
     */
    method Get(id: string, now: int) returns (r: GetResult, ghost readAt: nat)
      requires Valid() && Up(Now())
      modifies this
      ensures Valid() && Grew(old(states), old(events))
      ensures r == NotFound <==>
                oracle(old(tick)) && forall m :: m in old(db.messages) && m.id == id ==> m.expires <= now
      ensures r.Found? ==>
                && r.message in old(db.messages) && r.message.id == id && r.message.expires > now
                && r.message.blobId in old(accepted) && r.body == old(accepted)[r.message.blobId]
      ensures r == FileGone ==>
                exists m :: m in old(db.messages) && m.id == id && m.expires > now && BlobLeft(m.blobId, old(db.blobs))
      ensures r == GetFailed <==> !oracle(old(tick)) || (r != NotFound && !oracle(readAt))
    {
      readAt := tick;
      var ok := Try();
      r := GetFailed;
      if ok {
        var row := FindRow(id, now);
        if row.None? {
          r := NotFound;
        } else {
          r, readAt := ReadBody(row.value);
        }
      }
    }

    /** The blob row that `b` had in `blobs` is no longer there. */
    ghost predicate BlobLeft(b: string, blobs: map<string, Blob>)
      reads `db
    {
      b in blobs && (b in db.blobs ==> db.blobs[b].path != blobs[b].path)
    }

    /** The file of the row, after whatever other operations did. */
    method ReadBody(m: Message) returns (r: GetResult, ghost readAt: nat)
      requires Valid() && Up(Now()) && m in db.messages
      modifies this
      ensures Valid() && Grew(old(states), old(events)) && r != NotFound
      ensures r.Found? ==> r.message == m && m.blobId in old(accepted) && r.body == old(accepted)[m.blobId]
      ensures r == FileGone ==> BlobLeft(m.blobId, old(db.blobs))
      ensures r == GetFailed <==> !oracle(readAt)
    {
      RowHasBlob(m);
      var path := db.blobs[m.blobId].path;
      Interference();
      ReadBack(|old(events)|, m.blobId);
      readAt := tick;
      var ok := Try();
      if !ok {
        r := GetFailed;
      } else if path in disk.files {
        r := Found(m, disk.files[path].bytes);
      } else {
        r := FileGone;
      }
    }

    lemma RowHasBlob(m: Message)
      requires Valid() && m in db.messages
      ensures m.blobId in db.blobs
    {
      Holds();
    }

    /** What a reader finds who looked up blob `b` at state `n`. */
    lemma ReadBack(n: nat, b: string)
      requires Valid() && n < |states| && b in states[n].db.blobs && Onward(n, BlobPaths(states[n].db.blobs))
      ensures var p := states[n].db.blobs[b].path;
              && b in states[n].accepted
              && (p in disk.files ==> disk.files[p].bytes == states[n].accepted[b])
              && (b in db.blobs && db.blobs[b].path == p ==> p in disk.files)
    {
      OriginIsSafe(cfg, states[0]);
      assert states[n].db.blobs[b].path in BlobPaths(states[n].db.blobs);
      ConcurrentRead(cfg, states, events, n, |events|, b);
    }

    /**
     * At every moment of a store's history, within an operation or between two, the invariant and the disk
     * bound hold.
     */
    lemma EveryMoment(i: nat)
      requires Valid() && i < |states|
      ensures Inv(cfg, states[i])
      ensures Up(states[i]) ==> DiskBytes(states[i].disk) <= states[i].ceiling + Sum(states[i].leaked)
    {
      OriginIsSafe(cfg, states[0]);
      RunKeepsInv(cfg, states, events, i);
      if Up(states[i]) {
        DiskBound(cfg, states[i]);
      }
    }

    /**
     * Only records of `batch` left the queue, each with its file gone beyond recall, and exactly their bytes
     * were given back.
     */
    ghost predicate Reclaimed(db0: Db, stored0: int, batch: seq<Path>)
      reads `disk, `db, `storedBytes
    {
      && Unqueued(db0.pending, stored0, db.pending, storedBytes, batch)
      && (forall p :: p in db0.pending && p !in db.pending ==> p !in disk.files && p !in disk.unlinked)
    }
  }
}
