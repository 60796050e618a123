/** The three SQL tables of the message store and the deletion of one message. */
module Tables {
  import opened Options
  import opened Sums
  import opened PathOrder
  import opened Faults

  datatype Message = Message(
    id: string, recipient: string, from: string, subject: string,
    received: int, expires: int, size: nat, blobId: string)

  datatype Blob = Blob(path: Path, size: nat, refs: int)

  /** `messages` is kept in rowid order: SQLite gives a new row a rowid above every existing one. */
  datatype Db = Db(messages: seq<Message>, blobs: map<string, Blob>, pending: map<Path, nat>)

  /** The number of messages naming blob `b`. */
  function Refs(ms: seq<Message>, b: string): nat
  {
    if ms == [] then 0 else (if ms[0].blobId == b then 1 else 0) + Refs(ms[1..], b)
  }

  function BlobSizes(blobs: map<string, Blob>): map<string, nat>
  {
    map b | b in blobs :: blobs[b].size
  }

  ghost function BlobBytes(blobs: map<string, Blob>): nat
  {
    Sum(BlobSizes(blobs))
  }

  /** Bytes charged against the storage cap: live blobs and files awaiting deletion. */
  ghost function Charge(db: Db): nat
  {
    BlobBytes(db.blobs) + Sum(db.pending)
  }

  function BlobPaths(blobs: map<string, Blob>): set<Path>
  {
    set b | b in blobs :: blobs[b].path
  }

  ghost predicate UniqueIds(ms: seq<Message>)
  {
    forall i, j :: 0 <= i < j < |ms| ==> ms[i].id != ms[j].id
  }

  /** Reference counting and key discipline of the tables. */
  ghost predicate Consistent(db: Db)
  {
    && UniqueIds(db.messages)
    && (forall m :: m in db.messages ==> m.blobId in db.blobs && db.blobs[m.blobId].size == m.size)
    && (forall b :: b in db.blobs ==> db.blobs[b].refs == Refs(db.messages, b) >= 1)
    && (forall b, c :: b in db.blobs && c in db.blobs && b != c ==> db.blobs[b].path != db.blobs[c].path)
    && (forall b :: b in db.blobs ==> db.blobs[b].path !in db.pending)
  }

  // ----- counting references -----

  lemma {:induction false} RefsConcat(a: seq<Message>, c: seq<Message>, b: string)
    ensures Refs(a + c, b) == Refs(a, b) + Refs(c, b)
  {
    if a == [] {
      assert a + c == c;
    } else {
      RefsConcat(a[1..], c, b);
      assert (a + c)[1..] == a[1..] + c;
    }
  }

  lemma {:induction false} RefsPositive(ms: seq<Message>, b: string)
    ensures Refs(ms, b) > 0 <==> exists m :: m in ms && m.blobId == b
  {
    if ms != [] {
      RefsPositive(ms[1..], b);
      assert forall m :: m in ms <==> m == ms[0] || m in ms[1..];
      assert ms[0] in ms;
    }
  }

  lemma {:induction false} RefsAll(ms: seq<Message>, b: string)
    requires forall m :: m in ms ==> m.blobId == b
    ensures Refs(ms, b) == |ms|
  {
    if ms != [] {
      RefsAll(ms[1..], b);
    }
  }

  /** Dropping row `i` lowers the count of its own blob by one and of no other. */
  lemma RefsRemoveAt(ms: seq<Message>, i: nat, b: string)
    requires i < |ms|
    ensures Refs(RemoveAt(ms, i), b) == Refs(ms, b) - (if ms[i].blobId == b then 1 else 0)
  {
    assert ms == ms[..i] + ([ms[i]] + ms[i + 1..]);
    RefsConcat(ms[..i], [ms[i]] + ms[i + 1..], b);
    RefsConcat([ms[i]], ms[i + 1..], b);
    RefsConcat(ms[..i], ms[i + 1..], b);
  }

  // ----- DELETE FROM messages WHERE id = ? -----

  function RemoveAt<T>(s: seq<T>, i: nat): seq<T>
    requires i < |s|
  {
    s[..i] + s[i + 1..]
  }

  function Without(ms: seq<Message>, id: string): seq<Message>
  {
    if ms == [] then []
    else if ms[0].id == id then Without(ms[1..], id)
    else [ms[0]] + Without(ms[1..], id)
  }

  lemma {:induction false} WithoutAbsent(ms: seq<Message>, id: string)
    requires forall m :: m in ms ==> m.id != id
    ensures Without(ms, id) == ms
  {
    if ms != [] {
      WithoutAbsent(ms[1..], id);
    }
  }

  lemma {:induction false} WithoutUnique(ms: seq<Message>, i: nat)
    requires UniqueIds(ms) && i < |ms|
    ensures Without(ms, ms[i].id) == RemoveAt(ms, i)
  {
    if i == 0 {
      WithoutAbsent(ms[1..], ms[0].id);
    } else {
      assert ms[1..][i - 1] == ms[i];
      WithoutUnique(ms[1..], i - 1);
    }
  }

  /**
   * Deletes a message. The last reference to a blob moves its bytes to the unlink queue.
   * `None` is the SQL error of a missing blob row or of a path that is already queued.
   */
  function DeleteMessage(db: Db, id: string, blobId: string): Option<(Db, nat)>
  {
    var ms := Without(db.messages, id);
    if blobId !in db.blobs then None
    else
      var blob := db.blobs[blobId];
      if blob.refs > 1 then
        Some((Db(ms, db.blobs[blobId := blob.(refs := blob.refs - 1)], db.pending), 0))
      else if blob.path in db.pending then None
      else Some((Db(ms, db.blobs - {blobId}, db.pending[blob.path := blob.size]), blob.size))
  }

  /** `deleteMessageTx`: its statements in order, any of which may fail and abort the transaction. */
  method DeleteMessageTx(tx: Db, id: string, blobId: string, oracle: Oracle, tick: nat)
    returns (r: Option<(Db, nat)>, now: nat)
    ensures tick < now
    ensures r.Some? ==> r == DeleteMessage(tx, id, blobId) && Faultless(oracle, tick, now)
    ensures r.None? ==> DeleteMessage(tx, id, blobId).None? || !Faultless(oracle, tick, now)
  {
    now := tick + 1;
    if !oracle(tick) { return None, now; }
    var out := tx.(messages := Without(tx.messages, id));
    now := tick + 2;
    if !oracle(tick + 1) || blobId !in out.blobs { return None, now; }
    var blob := out.blobs[blobId];
    now := tick + 3;
    if blob.refs <= 1 {
      if !oracle(tick + 2) || blob.path in out.pending { return None, now; }
      out := out.(pending := out.pending[blob.path := blob.size]);
      now := tick + 4;
      if !oracle(tick + 3) { return None, now; }
      out := out.(blobs := out.blobs - {blobId});
      return Some((out, blob.size)), now;
    }
    if !oracle(tick + 2) { return None, now; }
    out := out.(blobs := out.blobs[blobId := blob.(refs := blob.refs - 1)]);
    return Some((out, 0)), now;
  }

  lemma DeleteMessageRefs(db: Db, i: nat)
    requires Consistent(db) && i < |db.messages|
    ensures var m := db.messages[i];
            var ms := RemoveAt(db.messages, i);
            && UniqueIds(ms)
            && (forall x :: x in ms ==> x in db.messages)
            && (forall b :: Refs(ms, b) == Refs(db.messages, b) - (if m.blobId == b then 1 else 0))
  {
    forall b ensures Refs(RemoveAt(db.messages, i), b)
                     == Refs(db.messages, b) - (if db.messages[i].blobId == b then 1 else 0) {
      RefsRemoveAt(db.messages, i, b);
    }
  }

  lemma DeleteMessageConsistent(db: Db, i: nat)
    requires Consistent(db) && i < |db.messages|
    ensures var r := DeleteMessage(db, db.messages[i].id, db.messages[i].blobId);
            r.Some? && Consistent(r.value.0) && r.value.0.messages == RemoveAt(db.messages, i)
  {
    var m := db.messages[i];
    assert m in db.messages;
    WithoutUnique(db.messages, i);
    DeleteMessageRefs(db, i);
    var out := DeleteMessage(db, m.id, m.blobId).value.0;
    if db.blobs[m.blobId].refs <= 1 {
      RefsPositive(out.messages, m.blobId);
    }
  }

  lemma DeleteMessageBytes(db: Db, id: string, blobId: string)
    requires DeleteMessage(db, id, blobId).Some?
    ensures var (out, released) := DeleteMessage(db, id, blobId).value;
            && BlobBytes(out.blobs) + released == BlobBytes(db.blobs)
            && Sum(out.pending) == Sum(db.pending) + released
  {
    var out := DeleteMessage(db, id, blobId).value.0;
    var blob := db.blobs[blobId];
    if blob.refs > 1 {
      assert BlobSizes(out.blobs) == BlobSizes(db.blobs);
    } else {
      SumRemove(BlobSizes(db.blobs), blobId);
      assert BlobSizes(out.blobs) == BlobSizes(db.blobs) - {blobId};
      SumInsert(db.pending, blob.path, blob.size);
    }
  }

  /**
   * On consistent tables deleting a stored message never hits an SQL constraint, keeps the tables
   * consistent, and only moves bytes from the blobs to the queue.
   */
  lemma DeleteMessageSound(db: Db, i: nat)
    requires Consistent(db) && i < |db.messages|
    ensures var r := DeleteMessage(db, db.messages[i].id, db.messages[i].blobId);
            && r.Some?
            && Consistent(r.value.0)
            && r.value.0.messages == RemoveAt(db.messages, i)
            && BlobBytes(r.value.0.blobs) + r.value.1 == BlobBytes(db.blobs)
            && Sum(r.value.0.pending) == Sum(db.pending) + r.value.1
  {
    DeleteMessageConsistent(db, i);
    DeleteMessageBytes(db, db.messages[i].id, db.messages[i].blobId);
  }

  // ----- deleting a list of messages -----

  /** Deletes the first `k` listed messages, one after another. */
  function DeleteFirst(db: Db, order: seq<Message>, k: nat): Option<Db>
    requires k <= |order|
  {
    if k == 0 then Some(db)
    else
      var r := DeleteFirst(db, order, k - 1);
      var m := order[k - 1];
      if r.None? || DeleteMessage(r.value, m.id, m.blobId).None? then None
      else Some(DeleteMessage(r.value, m.id, m.blobId).value.0)
  }

  lemma RemoveAtMembers(ms: seq<Message>, i: nat)
    requires UniqueIds(ms) && i < |ms|
    ensures forall x :: x in RemoveAt(ms, i) <==> x in ms && x != ms[i]
  {
    forall x | x in ms && x != ms[i] ensures x in RemoveAt(ms, i) {
      var j :| 0 <= j < |ms| && ms[j] == x;
      assert RemoveAt(ms, i)[if j < i then j else j - 1] == x;
    }
    forall x | x in RemoveAt(ms, i) ensures x in ms && x != ms[i] {
      var j :| 0 <= j < |ms| - 1 && RemoveAt(ms, i)[j] == x;
      assert x == ms[if j < i then j else j + 1];
    }
  }

  /** Deleting a stored message removes that row and no other. */
  lemma DeleteStep(db: Db, m: Message)
    requires Consistent(db) && m in db.messages
    ensures var r := DeleteMessage(db, m.id, m.blobId);
            && r.Some? && Consistent(r.value.0)
            && |r.value.0.messages| == |db.messages| - 1
            && (forall x :: x in r.value.0.messages <==> x in db.messages && x != m)
  {
    var i :| 0 <= i < |db.messages| && db.messages[i] == m;
    DeleteMessageConsistent(db, i);
    RemoveAtMembers(db.messages, i);
  }

  /** `out` holds the rows of `ms` that are not among the first `k` of `list`. */
  ghost predicate LeftWithout(ms: seq<Message>, list: seq<Message>, k: nat, out: seq<Message>)
    requires k <= |list|
  {
    |out| == |ms| - k && forall m :: m in out <==> m in ms && m !in list[..k]
  }

  lemma LeftWithoutNext(ms: seq<Message>, list: seq<Message>, k: nat, mid: seq<Message>, out: seq<Message>)
    requires k < |list| && LeftWithout(ms, list, k, mid)
    requires |out| == |mid| - 1 && forall m :: m in out <==> m in mid && m != list[k]
    ensures LeftWithout(ms, list, k + 1, out)
  {
    assert list[..k + 1] == list[..k] + [list[k]];
  }

  ghost predicate Within(list: seq<Message>, ms: seq<Message>)
  {
    forall m :: m in list ==> m in ms
  }

  lemma StillThere(ms: seq<Message>, list: seq<Message>, k: nat, mid: seq<Message>)
    requires UniqueIds(list) && Within(list, ms) && k < |list| && LeftWithout(ms, list, k, mid)
    ensures list[k] in mid
  {
    assert list[k] in list && list[k] !in list[..k];
  }

  /** The first `k` of `list` have been deleted from `db`, and nothing else has. */
  ghost predicate Removed(db: Db, list: seq<Message>, k: nat, tx: Db)
    requires k <= |list|
  {
    DeleteFirst(db, list, k) == Some(tx) && Consistent(tx) && LeftWithout(db.messages, list, k, tx.messages)
  }

  lemma NoneRemoved(db: Db, list: seq<Message>)
    requires Consistent(db)
    ensures Removed(db, list, 0, db)
  {
  }

  lemma DeleteNext(db: Db, list: seq<Message>, k: nat, tx: Db) returns (out: Db)
    requires k < |list| && Removed(db, list, k, tx) && list[k] in tx.messages
    ensures Removed(db, list, k + 1, out)
  {
    DeleteStep(tx, list[k]);
    out := DeleteMessage(tx, list[k].id, list[k].blobId).value.0;
    LeftWithoutNext(db.messages, list, k, tx.messages, out.messages);
  }

  /** Distinct stored messages can always be deleted together; exactly they are gone afterwards. */
  lemma DeleteListed(db: Db, list: seq<Message>, k: nat) returns (out: Db)
    requires Consistent(db) && UniqueIds(list) && Within(list, db.messages) && k <= |list|
    ensures Removed(db, list, k, out)
  {
    NoneRemoved(db, list);
    out := db;
    for i := 0 to k
      invariant Removed(db, list, i, out)
    {
      out := DeleteListedNext(db, list, i, out);
    }
  }

  lemma DeleteListedNext(db: Db, list: seq<Message>, k: nat, tx: Db) returns (out: Db)
    requires UniqueIds(list) && Within(list, db.messages) && k < |list| && Removed(db, list, k, tx)
    ensures Removed(db, list, k + 1, out)
  {
    StillThere(db.messages, list, k, tx.messages);
    out := DeleteNext(db, list, k, tx);
  }

  /** Deletions only move bytes and paths from the blobs to the unlink queue. */
  ghost predicate Moved(db: Db, out: Db)
  {
    && (forall b :: b in out.blobs ==>
          b in db.blobs && out.blobs[b].path == db.blobs[b].path && out.blobs[b].size == db.blobs[b].size)
    && (forall p :: p in db.pending ==> p in out.pending && out.pending[p] == db.pending[p])
    && (forall p :: p in out.pending && p !in db.pending ==>
          exists b :: b in db.blobs && db.blobs[b].path == p && db.blobs[b].size == out.pending[p])
    && (forall b :: b in db.blobs && b !in out.blobs ==> db.blobs[b].path in out.pending)
  }

  lemma {:induction false} DeleteFirstMoves(db: Db, list: seq<Message>, k: nat)
    requires k <= |list| && DeleteFirst(db, list, k).Some?
    ensures Moved(db, DeleteFirst(db, list, k).value)
    ensures Charge(DeleteFirst(db, list, k).value) == Charge(db)
  {
    if k > 0 {
      var m := list[k - 1];
      DeleteFirstMoves(db, list, k - 1);
      DeleteMessageBytes(DeleteFirst(db, list, k - 1).value, m.id, m.blobId);
    }
  }

  // ----- INSERT INTO blobs / messages -----

  /** The tables after a delivery's inserts, before any eviction. */
  function Deliver(db: Db, blobId: string, path: Path, size: nat, ms: seq<Message>): Db
  {
    Db(db.messages + ms, db.blobs[blobId := Blob(path, size, |ms|)], db.pending)
  }

  ghost predicate Deliverable(db: Db, blobId: string, path: Path, size: nat, ms: seq<Message>)
  {
    && ms != [] && UniqueIds(db.messages + ms)
    && blobId !in db.blobs
    && path !in BlobPaths(db.blobs) && path !in db.pending
    && (forall m :: m in ms ==> m.blobId == blobId && m.size == size)
  }

  lemma DeliverRefs(db: Db, blobId: string, ms: seq<Message>)
    requires Consistent(db) && blobId !in db.blobs
    requires forall m :: m in ms ==> m.blobId == blobId
    ensures forall b :: Refs(db.messages + ms, b) == if b == blobId then |ms| else Refs(db.messages, b)
  {
    forall b ensures Refs(db.messages + ms, b) == if b == blobId then |ms| else Refs(db.messages, b) {
      RefsConcat(db.messages, ms, b);
      if b == blobId {
        RefsAll(ms, blobId);
        RefsPositive(db.messages, blobId);
      } else {
        RefsPositive(ms, b);
      }
    }
  }

  lemma DeliverCharge(db: Db, blobId: string, path: Path, size: nat, ms: seq<Message>)
    requires blobId !in db.blobs
    ensures Charge(Deliver(db, blobId, path, size, ms)) == Charge(db) + size
  {
    SumInsert(BlobSizes(db.blobs), blobId, size);
    assert BlobSizes(Deliver(db, blobId, path, size, ms).blobs) == BlobSizes(db.blobs)[blobId := size];
  }

  lemma DeliverConsistent(db: Db, blobId: string, path: Path, size: nat, ms: seq<Message>)
    requires Consistent(db) && Deliverable(db, blobId, path, size, ms)
    ensures Consistent(Deliver(db, blobId, path, size, ms))
  {
    DeliverRefs(db, blobId, ms);
  }
}
