/** The store's SQL transactions, statement by statement; each statement and commit may fail. */
module Statements {
  import opened Options
  import opened Faults
  import opened PathOrder
  import opened Tables
  import opened Eviction
  import opened Machine

  // ----- `normalizeStoredRecipients` -----

  /** `SELECT DISTINCT recipient`, of which those are kept that are not in normal form. */
  method Unnormalized(ms: seq<Message>, norm: string -> string) returns (todo: seq<string>)
    ensures forall r :: r in todo <==> (exists m <- ms :: m.recipient == r) && norm(r) != r
  {
    todo := [];
    for i := 0 to |ms|
      invariant forall r :: r in todo <==> (exists j :: 0 <= j < i && ms[j].recipient == r) && norm(r) != r
    {
      var r := ms[i].recipient;
      if norm(r) != r && r !in todo {
        todo := todo + [r];
      }
    }
  }

  /** `UPDATE messages SET recipient = ? WHERE recipient = ?`. */
  function Retarget(ms: seq<Message>, source: string, target: string): (out: seq<Message>)
    ensures |out| == |ms|
    ensures forall i :: 0 <= i < |ms| ==>
              out[i] == if ms[i].recipient == source then ms[i].(recipient := target) else ms[i]
  {
    seq(|ms|, i requires 0 <= i < |ms| => if ms[i].recipient == source then ms[i].(recipient := target) else ms[i])
  }

  /** The updates of `todo[..k]` are made. */
  ghost predicate Renamed(ms: seq<Message>, todo: seq<string>, k: nat, norm: string -> string, out: seq<Message>)
    requires k <= |todo|
  {
    && |out| == |ms|
    && forall i :: 0 <= i < |ms| ==>
         out[i] == if ms[i].recipient in todo[..k] then ms[i].(recipient := norm(ms[i].recipient)) else ms[i]
  }

  /** An update never catches a row that an earlier one has already put in normal form. */
  lemma RenamedNext(ms: seq<Message>, todo: seq<string>, k: nat, norm: string -> string, out: seq<Message>)
    requires k < |todo| && Renamed(ms, todo, k, norm, out)
    requires (forall x :: norm(norm(x)) == norm(x)) && norm(todo[k]) != todo[k]
    ensures Renamed(ms, todo, k + 1, norm, Retarget(out, todo[k], norm(todo[k])))
  {
    assert todo[..k + 1] == todo[..k] + [todo[k]];
  }

  /** The transaction of `normalizeStoredRecipients`: begin, one update for each address, commit. */
  method UpdateRecipients(ms: seq<Message>, todo: seq<string>, norm: string -> string, oracle: Oracle, tick: nat)
    returns (out: seq<Message>, ok: bool, now: nat)
    requires forall x :: norm(norm(x)) == norm(x)
    requires forall r :: r in todo <==> (exists m <- ms :: m.recipient == r) && norm(r) != r
    ensures tick < now
    ensures ok <==> Faultless(oracle, tick, now)
    ensures ok ==> out == Readdress(ms, norm)
  {
    now, out := tick + 1, ms;
    if !oracle(tick) { return ms, false, now; }
    for k := 0 to |todo|
      invariant tick < now && Faultless(oracle, tick, now)
      invariant Renamed(ms, todo, k, norm, out)
    {
      now := now + 1;
      if !oracle(now - 1) { return ms, false, now; }
      assert todo[k] in todo;
      RenamedNext(ms, todo, k, norm, out);
      out := Retarget(out, todo[k], norm(todo[k]));
    }
    AllRenamed(ms, todo, norm, out);
    now := now + 1;
    ok := oracle(now - 1);
  }

  lemma AllRenamed(ms: seq<Message>, todo: seq<string>, norm: string -> string, out: seq<Message>)
    requires Renamed(ms, todo, |todo|, norm, out)
    requires forall r :: r in todo <==> (exists m <- ms :: m.recipient == r) && norm(r) != r
    ensures out == Readdress(ms, norm)
  {
    assert todo[..|todo|] == todo;
    forall i | 0 <= i < |ms| ensures out[i] == ms[i].(recipient := norm(ms[i].recipient)) {
      assert ms[i] in ms;
      if norm(ms[i].recipient) == ms[i].recipient {
        assert ms[i].recipient !in todo;
      }
    }
  }

  // ----- the transaction of `Save` -----

  /** The inserts of a delivery inside its transaction: the blob row, then one row per recipient. */
  method InsertRows(db: Db, blobId: string, path: Path, size: nat, rows: seq<Message>, oracle: Oracle, tick: nat)
    returns (tx: Db, ok: bool, now: nat)
    ensures tick < now
    ensures ok ==> tx == Deliver(db, blobId, path, size, rows)
    ensures ok <==> Faultless(oracle, tick, now)
  {
    now := tick + 2;
    if !oracle(tick) || !oracle(tick + 1) { return db, false, now; }
    tx := db.(blobs := db.blobs[blobId := Blob(path, size, |rows|)]);
    for i := 0 to |rows|
      invariant now == tick + 2 + i && Faultless(oracle, tick, now)
      invariant tx == Deliver(db, blobId, path, size, rows).(messages := db.messages + rows[..i])
    {
      now := now + 1;
      if !oracle(now - 1) { return tx, false, now; }
      tx := tx.(messages := tx.messages + [rows[i]]);
      assert db.messages + rows[..i] + [rows[i]] == db.messages + rows[..i + 1];
    }
    assert rows[..|rows|] == rows;
    ok := true;
  }

  /** Giving up every other message brings the charge to the cap. */
  ghost predicate HasRoom(tx: Db, blobId: string, before: int, charged: int, cap: int)
  {
    var order := Priority(tx.messages, before, blobId);
    charged - Released(tx, order, |order|) <= cap
  }

  /** The statements of a delivery's transaction: inserts, then evictions. */
  method FillTransaction(db: Db, blobId: string, path: Path, size: nat, rows: seq<Message>, charged: int, cap: int,
                         before: int, oracle: Oracle, tick: nat)
    returns (out: Db, evicted: nat, error: Option<EvictError>, now: nat)
    requires var tx := Deliver(db, blobId, path, size, rows); Consistent(tx)
    ensures tick < now
    ensures error.None? ==> Settles(Deliver(db, blobId, path, size, rows), blobId, before, charged, cap, evicted, out)
    ensures error == Some(Exhausted) ==> !HasRoom(Deliver(db, blobId, path, size, rows), blobId, before, charged, cap)
    ensures error == Some(SqlFailed) <==> !Faultless(oracle, tick, now)
    ensures HasRoom(Deliver(db, blobId, path, size, rows), blobId, before, charged, cap) ==>
              (error.None? <==> Faultless(oracle, tick, now))
  {
    var tx, ok, t := InsertRows(db, blobId, path, size, rows, oracle, tick);
    if !ok { return db, 0, Some(SqlFailed), t; }
    var stats;
    out, stats, error, now := EvictTx(tx, blobId, charged, cap, before, oracle, t);
    evicted := stats.expired + stats.evicted;
    FaultlessJoin(oracle, tick, t, now);
    if error.Some? && error != Some(SqlFailed) {
      assert error.value.Exhausted?;
    }
  }

  // ----- the transaction of a cleanup batch -----

  /** `SELECT id, blob_id FROM messages WHERE expires_at <= ? LIMIT 256`: any such rows, all of them if fewer. */
  ghost predicate IsExpiredBatch(ms: seq<Message>, before: int, batch: seq<Message>)
  {
    && |batch| <= 256 && UniqueIds(batch)
    && (forall m :: m in batch ==> m in ms && m.expires <= before)
    && (|batch| < 256 ==> forall m :: m in ms && m.expires <= before ==> m in batch)
  }

  method SelectExpired(ms: seq<Message>, before: int) returns (batch: seq<Message>)
    requires UniqueIds(ms)
    ensures IsExpiredBatch(ms, before, batch)
  {
    batch := [];
    var i := 0;
    while i < |ms| && |batch| < BATCH
      invariant i <= |ms| && |batch| <= BATCH && UniqueIds(batch)
      invariant forall m :: m in batch ==> m in ms[..i] && m.expires <= before
      invariant forall m :: m in ms[..i] && m.expires <= before ==> m in batch
    {
      if Expired(ms[i], before) {
        forall b | b in batch ensures b.id != ms[i].id {
          var j :| 0 <= j < i && ms[j] == b;
        }
        batch := batch + [ms[i]];
      }
      i := i + 1;
    }
    assert i == |ms| ==> ms[..i] == ms;
  }

  lemma CanDelete(db: Db, batch: seq<Message>, i: nat, tx: Db)
    requires Consistent(db) && UniqueIds(batch) && Within(batch, db.messages)
    requires i < |batch| && DeleteFirst(db, batch, i) == Some(tx)
    ensures var r := DeleteMessage(tx, batch[i].id, batch[i].blobId);
            r.Some? && DeleteFirst(db, batch, i + 1) == Some(r.value.0)
  {
    var next := DeleteListed(db, batch, i + 1);
  }

  /** The deletions of one cleanup transaction. */
  method DeleteBatch(db: Db, batch: seq<Message>, oracle: Oracle, tick: nat) returns (tx: Db, ok: bool, now: nat)
    requires Consistent(db) && UniqueIds(batch) && Within(batch, db.messages)
    ensures tick <= now
    ensures ok ==> DeleteFirst(db, batch, |batch|) == Some(tx)
    ensures ok <==> Faultless(oracle, tick, now)
  {
    tx, ok, now := db, true, tick;
    for i := 0 to |batch|
      invariant tick <= now && ok && Faultless(oracle, tick, now)
      invariant DeleteFirst(db, batch, i) == Some(tx)
    {
      CanDelete(db, batch, i, tx);
      var r, t := DeleteMessageTx(tx, batch[i].id, batch[i].blobId, oracle, now);
      now := t;
      if r.None? { return tx, false, now; }
      tx := r.value.0;
    }
  }

  // ----- the transaction of a drain -----

  /** The transaction that drops queue records, one statement for each: begin, deletions, commit. */
  method DeleteRecords(pending: map<Path, nat>, removed: set<Path>, oracle: Oracle, tick: nat)
    returns (left: map<Path, nat>, ok: bool, now: nat)
    ensures tick < now
    ensures ok <==> Faultless(oracle, tick, now)
    ensures left == if ok then pending - removed else pending
  {
    now := tick + 1;
    if !oracle(tick) { return pending, false, now; }
    left := pending;
    var rest := removed;
    while rest != {}
      invariant rest <= removed && left == pending - (removed - rest)
      invariant tick < now && Faultless(oracle, tick, now)
      decreases rest
    {
      var p :| p in rest;
      now := now + 1;
      if !oracle(now - 1) { return pending, false, now; }
      left, rest := left - {p}, rest - {p};
    }
    now := now + 1;
    ok := oracle(now - 1);
    if !ok { left := pending; }
  }
}
