/** The unlink queue: which records one drain visits, and why every record gets its turn. */
module Queue {
  import opened PathOrder
  import opened Machine

  /** `SELECT path ... WHERE path > cursor ORDER BY path LIMIT 256`. */
  ghost predicate IsBatch(pending: set<Path>, cursor: Path, batch: seq<Path>)
  {
    && |batch| <= 256 && Ascending(batch)
    && (forall p :: p in batch ==> p in pending && Less(cursor, p))
    && (forall p :: p in pending && Less(cursor, p) && p !in batch ==> |batch| == 256 && Less(batch[255], p))
  }

  method SelectPending(pending: set<Path>, cursor: Path) returns (batch: seq<Path>)
    ensures IsBatch(pending, cursor, batch)
  {
    var rest := set p | p in pending && Less(cursor, p);
    batch := [];
    while rest != {} && |batch| < BATCH
      invariant |batch| <= BATCH && Ascending(batch)
      invariant forall p :: p in batch ==> p in pending && Less(cursor, p) && p !in rest
      invariant forall p :: p in pending && Less(cursor, p) && p !in batch ==> p in rest
      invariant forall p, q :: p in batch && q in rest ==> Less(p, q)
      invariant rest <= pending
      decreases rest
    {
      var p := Least(rest);
      batch := batch + [p];
      rest := rest - {p};
    }
  }

  /** A drain that reached the end of the queue starts over; otherwise it goes on after its last record. */
  function NextCursor(batch: seq<Path>): Path
  {
    if |batch| < BATCH then "" else batch[|batch| - 1]
  }

  /** One `drainPendingLocked` without SQL or sync failure: the records in `removed` were unlinked. */
  ghost predicate IsDrain(pending: set<Path>, cursor: Path, batch: seq<Path>, pending': set<Path>, cursor': Path)
  {
    && IsBatch(pending, cursor, batch)
    && pending' <= pending && (forall p :: p in pending && p !in batch ==> p in pending')
    && cursor' == NextCursor(batch)
  }

  /** Consecutive drains: `pending[i]` and `cursor[i]` before the i-th, which visits `batch[i]`. */
  ghost predicate Drains(pending: seq<set<Path>>, cursor: seq<Path>, batch: seq<seq<Path>>)
  {
    && |pending| == |cursor| == |batch| + 1
    && (forall i :: 0 <= i < |batch| ==> IsDrain(pending[i], cursor[i], batch[i], pending[i + 1], cursor[i + 1]))
  }

  ghost function Above(pending: set<Path>, cursor: Path): set<Path>
  {
    set q | q in pending && Less(cursor, q)
  }

  ghost function UpTo(pending: set<Path>, cursor: Path, p: Path): set<Path>
  {
    set q | q in pending && Less(cursor, q) && !Less(p, q)
  }

  lemma {:induction false} AscendingCount(s: seq<Path>)
    requires Ascending(s)
    ensures |set p | p in s| == |s|
  {
    if s == [] {
      assert (set p | p in s) == {};
    } else {
      var init, last := s[..|s| - 1], s[|s| - 1];
      AscendingCount(init);
      LessIrreflexive(last);
      assert last !in init;
      assert (set p | p in s) == (set p | p in init) + {last};
    }
  }

  lemma SubsetCount<T>(a: set<T>, b: set<T>)
    requires a <= b
    ensures |a| <= |b|
  {
    assert b == a + (b - a);
  }

  /** If at most 256 records are queued, a batch takes all that stand behind the cursor. */
  lemma FewQueued(pending: set<Path>, cursor: Path, batch: seq<Path>)
    requires IsBatch(pending, cursor, batch) && |pending| <= 256
    ensures forall p :: p in batch <==> p in pending && Less(cursor, p)
  {
    var seen := set q | q in batch;
    AscendingCount(batch);
    forall p | p in pending && Less(cursor, p) ensures p in batch {
      if p !in batch {
        SubsetCount(seen + {p}, pending);
      }
    }
  }

  /**
   * Records in front of the cursor have to wait: with the cursor at `b.eml` a drain passes over a lone record at
   * `a.eml`, and only the next one, from the start, visits it.
   */
  lemma BehindTheCursor(batch: seq<Path>, next: seq<Path>)
    requires IsBatch({"a.eml"}, "b.eml", batch) && IsBatch({"a.eml"}, NextCursor(batch), next)
    ensures batch == [] && next == ["a.eml"]
  {
    assert "a.eml"[0] < "b.eml"[0] && !Less("b.eml", "a.eml") && Less("", "a.eml");
    AscendingCount(batch);
    FewQueued({"a.eml"}, "b.eml", batch);
    assert (set p | p in batch) == {};
    AscendingCount(next);
    FewQueued({"a.eml"}, "", next);
    assert (set p | p in next) == {"a.eml"};
    assert next[0] in next;
  }

  /** A full batch that passes over `p` leaves 256 fewer records in front of it. */
  lemma BatchShrinks(pending: set<Path>, cursor: Path, batch: seq<Path>, pending': set<Path>, p: Path)
    requires IsBatch(pending, cursor, batch) && |batch| == BATCH && pending' <= pending
    requires Less(batch[BATCH - 1], p)
    ensures |UpTo(pending', batch[BATCH - 1], p)| + BATCH <= |UpTo(pending, cursor, p)|
  {
    var c := batch[BATCH - 1];
    var seen := set q | q in batch;
    AscendingCount(batch);
    forall q | q in batch ensures !Less(c, q) && !Less(p, q) {
      var i :| 0 <= i < |batch| && batch[i] == q;
      if Less(c, q) { LessTransitive(c, q, c); }
      if i < BATCH - 1 { LessTransitive(q, c, p); }
      if Less(p, q) { LessTransitive(p, q, p); }
      LessIrreflexive(c);
      LessIrreflexive(p);
    }
    forall q | q in UpTo(pending', c, p) ensures q in UpTo(pending, cursor, p) - seen {
      LessTransitive(cursor, c, q);
    }
    assert seen <= UpTo(pending, cursor, p);
    SubsetCount(UpTo(pending', c, p), UpTo(pending, cursor, p) - seen);
    assert UpTo(pending, cursor, p) == (UpTo(pending, cursor, p) - seen) + seen;
  }

  /** A record beyond the cursor is visited after at most `k` batches when at most `256 k` records stand before it. */
  lemma {:induction false} VisitedAhead(
    pending: seq<set<Path>>, cursor: seq<Path>, batch: seq<seq<Path>>, i: nat, k: nat, p: Path) returns (j: nat)
    requires Drains(pending, cursor, batch) && i + k <= |batch|
    requires p in pending[i] && Less(cursor[i], p)
    requires |UpTo(pending[i], cursor[i], p)| <= k * BATCH
    ensures i <= j < i + k && p in batch[j]
    decreases k
  {
    LessIrreflexive(p);
    assert p in UpTo(pending[i], cursor[i], p);
    assert k > 0;
    assert IsDrain(pending[i], cursor[i], batch[i], pending[i + 1], cursor[i + 1]);
    if p in batch[i] {
      j := i;
    } else {
      BatchShrinks(pending[i], cursor[i], batch[i], pending[i + 1], p);
      j := VisitedAhead(pending, cursor, batch, i + 1, k - 1, p);
    }
  }

  lemma AboveShrinks(pending: set<Path>, cursor: Path, batch: seq<Path>, pending': set<Path>)
    requires IsBatch(pending, cursor, batch) && |batch| == BATCH && pending' <= pending
    ensures |Above(pending', batch[BATCH - 1])| + BATCH <= |Above(pending, cursor)|
  {
    var c := batch[BATCH - 1];
    var seen := set q | q in batch;
    AscendingCount(batch);
    forall q | q in batch ensures !Less(c, q) {
      if Less(c, q) {
        var i :| 0 <= i < |batch| && batch[i] == q;
        LessTransitive(c, q, c);
        LessIrreflexive(c);
      }
    }
    forall q | q in Above(pending', c) ensures q in Above(pending, cursor) - seen {
      LessTransitive(cursor, c, q);
    }
    assert seen <= Above(pending, cursor);
    SubsetCount(Above(pending', c), Above(pending, cursor) - seen);
    assert Above(pending, cursor) == (Above(pending, cursor) - seen) + seen;
  }

  /** The cursor wraps after at most `k` drains when fewer than `256 k` records stand beyond it. */
  lemma {:induction false} Wraps(
    pending: seq<set<Path>>, cursor: seq<Path>, batch: seq<seq<Path>>, i: nat, k: nat, p: Path) returns (j: nat)
    requires Drains(pending, cursor, batch) && i + k <= |batch|
    requires p in pending[i] && |Above(pending[i], cursor[i])| < k * BATCH
    ensures i < j <= i + k
    ensures (exists n :: i <= n < j && p in batch[n])
        || (cursor[j] == "" && p in pending[j] && pending[j] <= pending[i])
    decreases k
  {
    assert IsDrain(pending[i], cursor[i], batch[i], pending[i + 1], cursor[i + 1]);
    if p in batch[i] || |batch[i]| < BATCH {
      j := i + 1;
    } else {
      AboveShrinks(pending[i], cursor[i], batch[i], pending[i + 1]);
      j := Wraps(pending, cursor, batch, i + 1, k - 1, p);
    }
  }

  /** The number of batches that hold `n` records. */
  function Batches(n: nat): nat
  {
    (n + BATCH - 1) / BATCH
  }

  lemma PassesFit(above: nat, front: nat, n: nat)
    requires above + front <= n
    ensures above / BATCH + 1 + Batches(front) <= Batches(n) + 1
    ensures Batches(front) <= Batches(n)
  {
  }

  lemma SplitAtCursor(pending: set<Path>, cursor: Path, p: Path)
    requires !Less(cursor, p)
    ensures |Above(pending, cursor)| + |UpTo(pending, "", p)| <= |pending|
  {
    var a, b := Above(pending, cursor), UpTo(pending, "", p);
    forall q | q in a ensures q !in b {
      LessTotal(cursor, p);
      if cursor != p {
        LessTransitive(p, cursor, q);
      }
    }
    assert a !! b && |a + b| == |a| + |b|;
    SubsetCount(a + b, pending);
  }

  /**
   * Retry fairness. From any cursor, with `n` records queued and none added, every record gets an
   * unlink attempt within `ceil(n / 256) + 1` drains, however many other unlinks keep failing.
   */
  lemma EveryRecordIsRetried(pending: seq<set<Path>>, cursor: seq<Path>, batch: seq<seq<Path>>, p: Path)
    returns (j: nat)
    requires Drains(pending, cursor, batch)
    requires p in pending[0] && p != ""
    requires |batch| == (|pending[0]| + 255) / 256 + 1
    ensures j < |batch| && p in batch[j]
  {
    var front := |UpTo(pending[0], "", p)|;
    if Less(cursor[0], p) {
      SubsetCount(UpTo(pending[0], cursor[0], p), pending[0]);
      j := VisitedAhead(pending, cursor, batch, 0, Batches(|pending[0]|), p);
    } else {
      SplitAtCursor(pending[0], cursor[0], p);
      var above := |Above(pending[0], cursor[0])|;
      PassesFit(above, front, |pending[0]|);
      var w := Wraps(pending, cursor, batch, 0, above / BATCH + 1, p);
      if n :| 0 <= n < w && p in batch[n] {
        j := n;
      } else {
        SubsetCount(UpTo(pending[w], "", p), UpTo(pending[0], "", p));
        j := VisitedAhead(pending, cursor, batch, w, Batches(front), p);
      }
    }
  }

  /** A record of consecutive drains: the queues and cursors between them, and the batches tried. */
  datatype Rounds = Rounds(pending: seq<set<Path>>, cursor: seq<Path>, batch: seq<seq<Path>>)

  /** `r` tells of `n` drains that began with the queue `initial` and ended with `pending` and `cursor`. */
  ghost predicate TellsOf(r: Rounds, n: nat, initial: set<Path>, pending: set<Path>, cursor: Path)
  {
    && Drains(r.pending, r.cursor, r.batch) && |r.batch| == n
    && r.pending[0] == initial && r.pending[n] == pending && r.cursor[n] == cursor
  }

  function OneMore(r: Rounds, b: seq<Path>, p: set<Path>, c: Path): Rounds
  {
    Rounds(r.pending + [p], r.cursor + [c], r.batch + [b])
  }

  lemma TellsOfMore(r: Rounds, n: nat, initial: set<Path>, pending: set<Path>, cursor: Path, b: seq<Path>,
                    p: set<Path>, c: Path)
    requires TellsOf(r, n, initial, pending, cursor) && IsDrain(pending, cursor, b, p, c)
    ensures TellsOf(OneMore(r, b, p, c), n + 1, initial, p, c)
  {
  }

  /** The paths of all batches are among `tried`. */
  ghost predicate AllTried(r: Rounds, tried: seq<Path>)
  {
    forall i :: 0 <= i < |r.batch| ==> forall p :: p in r.batch[i] ==> p in tried
  }

  lemma AllTriedMore(r: Rounds, tried: seq<Path>, b: seq<Path>, p: set<Path>, c: Path)
    requires AllTried(r, tried)
    ensures AllTried(OneMore(r, b, p, c), tried + b)
  {
  }

  /** After `ceil(n / 256) + 1` drains of `n` records all of them have been tried. */
  lemma AllRetried(r: Rounds, initial: set<Path>, pending: set<Path>, cursor: Path, tried: seq<Path>, p: Path)
    requires TellsOf(r, Batches(|initial|) + 1, initial, pending, cursor) && AllTried(r, tried)
    requires p in initial && p != ""
    ensures p in tried
  {
    var j := EveryRecordIsRetried(r.pending, r.cursor, r.batch, p);
  }
}
