/** Databases of the earlier schema, which kept one file per message and no blobs table. */
module Legacy {
  import opened PathOrder
  import opened Tables
  import opened FileSystem
  import opened Machine

  /** A row of the old messages table; `message.blobId` is the column that the migration adds. */
  datatype LegacyRow = LegacyRow(message: Message, path: Path)

  /** `INSERT INTO blobs ... SELECT id, path, size, 1 FROM messages`. */
  function MigratedBlobs(rows: seq<LegacyRow>): map<string, Blob>
  {
    if rows == [] then map[]
    else
      var row := rows[|rows| - 1];
      MigratedBlobs(rows[..|rows| - 1])[row.message.id := Blob(row.path, row.message.size, 1)]
  }

  /** `UPDATE messages SET blob_id = id`. */
  function MigratedMessages(rows: seq<LegacyRow>): seq<Message>
  {
    seq(|rows|, i requires 0 <= i < |rows| => rows[i].message.(blobId := rows[i].message.id))
  }

  /** `migrateLegacySchema`, committed. */
  function Migrate(rows: seq<LegacyRow>): Db
  {
    Db(MigratedMessages(rows), MigratedBlobs(rows), map[])
  }

  /** `id` is the primary key of the old table. */
  ghost predicate DistinctIds(rows: seq<LegacyRow>)
  {
    forall i, j :: 0 <= i < j < |rows| ==> rows[i].message.id != rows[j].message.id
  }

  ghost predicate DistinctPaths(rows: seq<LegacyRow>)
  {
    forall i, j :: 0 <= i < j < |rows| ==> rows[i].path != rows[j].path
  }

  lemma {:induction false} MigratedBlobAt(rows: seq<LegacyRow>)
    requires DistinctIds(rows)
    ensures forall i :: 0 <= i < |rows| ==>
              rows[i].message.id in MigratedBlobs(rows)
              && MigratedBlobs(rows)[rows[i].message.id] == Blob(rows[i].path, rows[i].message.size, 1)
    ensures forall b :: b in MigratedBlobs(rows) ==> exists i :: 0 <= i < |rows| && rows[i].message.id == b
  {
    if rows != [] {
      var init := rows[..|rows| - 1];
      MigratedBlobAt(init);
      forall b | b in MigratedBlobs(rows) ensures exists i :: 0 <= i < |rows| && rows[i].message.id == b {
        if b != rows[|rows| - 1].message.id {
          assert b in MigratedBlobs(init);
          var i :| 0 <= i < |init| && init[i].message.id == b;
          assert rows[i].message.id == b;
        }
      }
    }
  }

  lemma {:induction false} MigratedRefs(rows: seq<LegacyRow>, k: nat, b: string)
    requires DistinctIds(rows) && k <= |rows|
    ensures Refs(MigratedMessages(rows)[..k], b) <= 1
    ensures Refs(MigratedMessages(rows)[..k], b) == 1 <==> exists i :: 0 <= i < k && rows[i].message.id == b
  {
    var ms := MigratedMessages(rows);
    if k > 0 {
      MigratedRefs(rows, k - 1, b);
      assert ms[..k] == ms[..k - 1] + [ms[k - 1]];
      RefsConcat(ms[..k - 1], [ms[k - 1]], b);
    }
  }

  lemma MigratedCounts(rows: seq<LegacyRow>)
    requires DistinctIds(rows)
    ensures forall b :: b in MigratedBlobs(rows) ==> MigratedBlobs(rows)[b].refs == Refs(MigratedMessages(rows), b) == 1
  {
    MigratedBlobAt(rows);
    var ms := MigratedMessages(rows);
    assert ms[..|rows|] == ms;
    forall b | b in MigratedBlobs(rows) ensures MigratedBlobs(rows)[b].refs == Refs(ms, b) == 1 {
      MigratedRefs(rows, |rows|, b);
    }
  }

  /**
   * Every old row is in its place, the same but for its blob id, which is its own id; it has a blob row of its own
   * with its file, its size and one reference, there are no other blob rows, and nothing is queued.
   */
  ghost predicate CarriedOver(rows: seq<LegacyRow>, db: Db)
  {
    && |db.messages| == |rows| && db.pending == map[]
    && (forall i :: 0 <= i < |rows| ==>
          var m, row := db.messages[i], rows[i].message;
          && m.id == row.id && m.recipient == row.recipient && m.from == row.from && m.subject == row.subject
          && m.received == row.received && m.expires == row.expires && m.size == row.size && m.blobId == row.id)
    && (forall i :: 0 <= i < |rows| ==>
          var row := rows[i].message;
          && row.id in db.blobs && db.blobs[row.id].path == rows[i].path && db.blobs[row.id].size == row.size
          && db.blobs[row.id].refs == 1)
    && (forall b :: b in db.blobs ==> exists i :: 0 <= i < |rows| && rows[i].message.id == b)
  }

  /** These facts hold of the migrated tables, and of no others. */
  lemma MigrationKeepsRows(rows: seq<LegacyRow>, db: Db)
    requires DistinctIds(rows)
    ensures CarriedOver(rows, db) <==> db == Migrate(rows)
  {
    MigratedBlobAt(rows);
    if CarriedOver(rows, db) {
      assert db.messages == MigratedMessages(rows);
      assert db.blobs.Keys == MigratedBlobs(rows).Keys;
      assert db.blobs == MigratedBlobs(rows);
    }
  }

  /** The migration yields consistent tables exactly when no two old rows share a file. */
  lemma MigrationConsistent(rows: seq<LegacyRow>)
    requires DistinctIds(rows)
    ensures Consistent(Migrate(rows)) <==> DistinctPaths(rows)
  {
    var db := Migrate(rows);
    MigratedBlobAt(rows);
    MigratedCounts(rows);
    if DistinctPaths(rows) {
      forall b, c | b in db.blobs && c in db.blobs && b != c ensures db.blobs[b].path != db.blobs[c].path {
        var i :| 0 <= i < |rows| && rows[i].message.id == b;
        var j :| 0 <= j < |rows| && rows[j].message.id == c;
      }
    } else {
      var i, j :| 0 <= i < j < |rows| && rows[i].path == rows[j].path;
      assert db.blobs[rows[i].message.id].path == db.blobs[rows[j].message.id].path;
    }
  }

  /** The old program left every message in its own durable file of the recorded size. */
  ghost predicate FilesIntact(rows: seq<LegacyRow>, d: Disk)
  {
    forall i :: 0 <= i < |rows| ==>
      && rows[i].path in d.solid && rows[i].path in d.files && d.files[rows[i].path].flushed
      && |d.files[rows[i].path].bytes| == rows[i].message.size
  }

  /** A migrated database over some directory, before the first start; `accepted` is what its files hold. */
  ghost predicate Upgraded(s: State, rows: seq<LegacyRow>)
  {
    && s.phase.Down? && s.db == Migrate(rows) && DistinctIds(rows)
    && Sane(s.disk) && s.disk.unlinked == map[]
    && (forall i :: 0 <= i < |rows| && rows[i].path in s.disk.files ==>
          rows[i].message.id in s.accepted && s.accepted[rows[i].message.id] == s.disk.files[rows[i].path].bytes)
  }

  /** A migrated store that is fit to start. */
  ghost predicate Migrated(s: State, rows: seq<LegacyRow>)
  {
    Upgraded(s, rows) && DistinctPaths(rows) && FilesIntact(rows, s.disk)
  }

  /** A migrated store is safe exactly when no two old rows share a file and every old file is intact. */
  lemma MigratedIsSafe(cfg: Config, s: State, rows: seq<LegacyRow>)
    requires Upgraded(s, rows)
    ensures Inv(cfg, s) <==> Migrated(s, rows)
  {
    MigrationConsistent(rows);
    MigratedBlobAt(rows);
    if Inv(cfg, s) {
      forall i | 0 <= i < |rows|
        ensures rows[i].path in s.disk.solid && rows[i].path in s.disk.files && s.disk.files[rows[i].path].flushed
        ensures |s.disk.files[rows[i].path].bytes| == rows[i].message.size
      {
        var b := rows[i].message.id;
        assert b in s.db.blobs && s.db.blobs[b].path == rows[i].path;
      }
    }
  }

  /** The files that startup looks for after the migration are those of the old rows. */
  lemma MigratedPaths(rows: seq<LegacyRow>, p: Path)
    requires DistinctIds(rows)
    ensures p in BlobPaths(Migrate(rows).blobs) <==> exists i :: 0 <= i < |rows| && rows[i].path == p
  {
    MigratedBlobAt(rows);
    var blobs := Migrate(rows).blobs;
    if i :| 0 <= i < |rows| && rows[i].path == p {
      assert blobs[rows[i].message.id].path == p;
    }
  }
}
