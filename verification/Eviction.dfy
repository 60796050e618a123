/** Storage-limit eviction: which messages leave, in which order, and when that suffices. */
module Eviction {
  import opened Options
  import opened Sums
  import opened Faults
  import opened Tables

  datatype Stats = Stats(expired: nat, expiredBytes: nat, evicted: nat, evictedBytes: nat)

  datatype EvictError = SqlFailed | Exhausted

  datatype Result = Deleted(tx: Db, released: nat, expired: bool) | Failed(error: EvictError)

  // ----- the fixed priority order -----

  predicate Expired(m: Message, before: int)
  {
    m.expires <= before
  }

  /** Expired messages come first, by expiry; the others follow, by arrival. Ties keep rowid order. */
  predicate RankLess(a: Message, b: Message, before: int)
  {
    if Expired(a, before) != Expired(b, before) then Expired(a, before)
    else if Expired(a, before) then a.expires < b.expires
    else a.received < b.received
  }

  function Candidates(ms: seq<Message>, prot: string): seq<Message>
  {
    if ms == [] then []
    else if ms[0].blobId != prot then [ms[0]] + Candidates(ms[1..], prot)
    else Candidates(ms[1..], prot)
  }

  function Insert(m: Message, s: seq<Message>, before: int): seq<Message>
  {
    if s == [] || !RankLess(s[0], m, before) then [m] + s
    else [s[0]] + Insert(m, s[1..], before)
  }

  /** A stable sort by rank. */
  function Ranked(ms: seq<Message>, before: int): seq<Message>
  {
    if ms == [] then [] else Insert(ms[0], Ranked(ms[1..], before), before)
  }

  /** The order in which messages not of the protected blob are given up. */
  function Priority(ms: seq<Message>, before: int, prot: string): seq<Message>
  {
    Ranked(Candidates(ms, prot), before)
  }

  lemma {:induction false} CandidatesMembers(ms: seq<Message>, prot: string)
    ensures forall m :: m in Candidates(ms, prot) <==> m in ms && m.blobId != prot
  {
    if ms != [] {
      CandidatesMembers(ms[1..], prot);
      assert forall m :: m in ms <==> m == ms[0] || m in ms[1..];
    }
  }

  lemma {:induction false} NoCandidates(ms: seq<Message>, prot: string)
    requires forall j :: 0 <= j < |ms| ==> ms[j].blobId == prot
    ensures Candidates(ms, prot) == []
  {
    if ms != [] {
      NoCandidates(ms[1..], prot);
    }
  }

  lemma {:induction false} CandidatesConcat(a: seq<Message>, b: seq<Message>, prot: string)
    ensures Candidates(a + b, prot) == Candidates(a, prot) + Candidates(b, prot)
  {
    if a == [] {
      assert a + b == b;
    } else {
      CandidatesConcat(a[1..], b, prot);
      ConcatTail(a, b);
      var rest, more := Candidates(a[1..], prot), Candidates(b, prot);
      assert [a[0]] + (rest + more) == [a[0]] + rest + more;
    }
  }

  lemma ConcatTail(a: seq<Message>, b: seq<Message>)
    requires a != []
    ensures (a + b)[0] == a[0] && (a + b)[1..] == a[1..] + b
  {
  }

  lemma {:induction false} InsertMultiset(m: Message, s: seq<Message>, before: int)
    ensures multiset(Insert(m, s, before)) == multiset{m} + multiset(s)
  {
    if s != [] && RankLess(s[0], m, before) {
      InsertMultiset(m, s[1..], before);
      assert s == [s[0]] + s[1..];
    }
  }

  lemma {:induction false} RankedMultiset(ms: seq<Message>, before: int)
    ensures multiset(Ranked(ms, before)) == multiset(ms)
  {
    if ms != [] {
      RankedMultiset(ms[1..], before);
      InsertMultiset(ms[0], Ranked(ms[1..], before), before);
      assert ms == [ms[0]] + ms[1..];
    }
  }

  /** No element of the listing ranks below an earlier one. */
  ghost predicate SortedByRank(s: seq<Message>, before: int)
  {
    forall i, j :: 0 <= i < j < |s| ==> !RankLess(s[j], s[i], before)
  }

  lemma {:induction false} InsertSorted(m: Message, s: seq<Message>, before: int)
    requires SortedByRank(s, before)
    ensures SortedByRank(Insert(m, s, before), before)
  {
    if s != [] && RankLess(s[0], m, before) {
      InsertSorted(m, s[1..], before);
      InsertMultiset(m, s[1..], before);
      var rest := Insert(m, s[1..], before);
      forall j | 0 <= j < |rest| ensures !RankLess(rest[j], s[0], before) {
        assert rest[j] in multiset(rest);
        assert rest[j] == m || rest[j] in s[1..];
      }
    }
  }

  lemma {:induction false} RankedSorted(ms: seq<Message>, before: int)
    ensures SortedByRank(Ranked(ms, before), before)
  {
    if ms != [] {
      RankedSorted(ms[1..], before);
      InsertSorted(ms[0], Ranked(ms[1..], before), before);
    }
  }

  predicate SameRank(a: Message, b: Message, before: int)
  {
    !RankLess(a, b, before) && !RankLess(b, a, before)
  }

  /** The rows of the rank of `m`, in their order. */
  function Ties(s: seq<Message>, m: Message, before: int): seq<Message>
  {
    if s == [] then []
    else if SameRank(s[0], m, before) then [s[0]] + Ties(s[1..], m, before)
    else Ties(s[1..], m, before)
  }

  lemma TiesHead(x: Message, s: seq<Message>, m: Message, before: int)
    ensures Ties([x] + s, m, before) == (if SameRank(x, m, before) then [x] else []) + Ties(s, m, before)
  {
    assert ([x] + s)[1..] == s;
  }

  lemma {:induction false} InsertTies(x: Message, s: seq<Message>, m: Message, before: int)
    ensures Ties(Insert(x, s, before), m, before) == Ties([x] + s, m, before)
  {
    if s != [] && RankLess(s[0], x, before) {
      InsertTies(x, s[1..], m, before);
      TiesHead(s[0], Insert(x, s[1..], before), m, before);
      TiesHead(x, s[1..], m, before);
      TiesHead(x, s, m, before);
    }
  }

  lemma {:induction false} RankedTies(ms: seq<Message>, m: Message, before: int)
    ensures Ties(Ranked(ms, before), m, before) == Ties(ms, m, before)
  {
    if ms != [] {
      RankedTies(ms[1..], m, before);
      InsertTies(ms[0], Ranked(ms[1..], before), m, before);
      TiesHead(ms[0], Ranked(ms[1..], before), m, before);
    }
  }

  /**
   * The priority listing is a permutation of the unprotected messages, sorted by rank, in which
   * messages of equal rank keep their rowid order.
   */
  lemma PriorityIsOrder(ms: seq<Message>, before: int, prot: string)
    ensures multiset(Priority(ms, before, prot)) == multiset(Candidates(ms, prot))
    ensures SortedByRank(Priority(ms, before, prot), before)
    ensures var p := Priority(ms, before, prot);
            forall i, j :: 0 <= i < j < |p| ==>
              if p[j].expires <= before then p[i].expires <= p[j].expires
              else p[i].expires <= before || p[i].received <= p[j].received
    ensures forall m :: m in Priority(ms, before, prot) <==> m in ms && m.blobId != prot
    ensures forall m :: Ties(Priority(ms, before, prot), m, before) == Ties(Candidates(ms, prot), m, before)
  {
    forall m ensures Ties(Priority(ms, before, prot), m, before) == Ties(Candidates(ms, prot), m, before) {
      RankedTies(Candidates(ms, prot), m, before);
    }
    RankedMultiset(Candidates(ms, prot), before);
    RankedSorted(Candidates(ms, prot), before);
    CandidatesMembers(ms, prot);
    var p := Priority(ms, before, prot);
    assert forall m :: m in p <==> m in multiset(p);
    assert forall m :: m in Candidates(ms, prot) <==> m in multiset(Candidates(ms, prot));
  }

  /** Row `i` comes before every other row: lower rank than all earlier rows, no higher than later ones. */
  ghost predicate IsFirst(ms: seq<Message>, i: nat, before: int)
  {
    && i < |ms|
    && (forall j :: 0 <= j < i ==> RankLess(ms[i], ms[j], before))
    && (forall j :: i < j < |ms| ==> !RankLess(ms[j], ms[i], before))
  }

  /** Taking the first row and ranking what is left is the same as reading the listing one further. */
  lemma {:induction false} RankedHead(ms: seq<Message>, i: nat, before: int)
    requires IsFirst(ms, i, before)
    ensures Ranked(ms, before) == [ms[i]] + Ranked(RemoveAt(ms, i), before)
  {
    if i == 0 {
      var rest := Ranked(ms[1..], before);
      assert RemoveAt(ms, 0) == ms[1..];
      if rest != [] {
        RankedMultiset(ms[1..], before);
        assert rest[0] in multiset(rest);
        assert rest[0] in ms[1..];
      }
    } else {
      assert ms[1..][i - 1] == ms[i];
      forall j | 0 <= j < i - 1 ensures RankLess(ms[1..][i - 1], ms[1..][j], before) {
        assert ms[1..][j] == ms[j + 1];
      }
      forall j | i - 1 < j < |ms[1..]| ensures !RankLess(ms[1..][j], ms[1..][i - 1], before) {
        assert ms[1..][j] == ms[j + 1];
      }
      RankedHead(ms[1..], i - 1, before);
      assert RemoveAt(ms, i)[0] == ms[0];
      assert RemoveAt(ms, i)[1..] == RemoveAt(ms[1..], i - 1);
    }
  }

  // ----- the two SELECT ... ORDER BY ..., rowid LIMIT 1 queries -----

  /** The first row with the least expiry among the expired, unprotected ones. */
  function FirstExpired(ms: seq<Message>, before: int, prot: string): (r: Option<nat>)
    ensures r.Some? ==> r.value < |ms| && ms[r.value].blobId != prot && ms[r.value].expires <= before
    ensures r.Some? ==> forall j :: 0 <= j < |ms| && ms[j].blobId != prot && ms[j].expires <= before ==>
                          ms[r.value].expires <= ms[j].expires && (j < r.value ==> ms[r.value].expires < ms[j].expires)
    ensures r.None? ==> forall j :: 0 <= j < |ms| && ms[j].blobId != prot ==> ms[j].expires > before
  {
    if ms == [] then None
    else
      var last := |ms| - 1;
      var r := FirstExpired(ms[..last], before, prot);
      if ms[last].blobId == prot || !Expired(ms[last], before) then r
      else if r.Some? && ms[r.value].expires <= ms[last].expires then r
      else Some(last)
  }

  /** The first row with the least arrival time among the unprotected ones. */
  function FirstReceived(ms: seq<Message>, prot: string): (r: Option<nat>)
    ensures r.Some? ==> r.value < |ms| && ms[r.value].blobId != prot
    ensures r.Some? ==> forall j :: 0 <= j < |ms| && ms[j].blobId != prot ==>
                          && ms[r.value].received <= ms[j].received
                          && (j < r.value ==> ms[r.value].received < ms[j].received)
    ensures r.None? ==> forall j :: 0 <= j < |ms| ==> ms[j].blobId == prot
  {
    if ms == [] then None
    else
      var last := |ms| - 1;
      var r := FirstReceived(ms[..last], prot);
      if ms[last].blobId == prot then r
      else if r.Some? && ms[r.value].received <= ms[last].received then r
      else Some(last)
  }

  /** Row `i` comes before every other unprotected row. */
  ghost predicate IsVictim(ms: seq<Message>, i: nat, before: int, prot: string)
  {
    && i < |ms| && ms[i].blobId != prot
    && (forall j :: 0 <= j < i && ms[j].blobId != prot ==> RankLess(ms[i], ms[j], before))
    && (forall j :: i < j < |ms| && ms[j].blobId != prot ==> !RankLess(ms[j], ms[i], before))
  }

  lemma CandidatesSplit(ms: seq<Message>, i: nat, prot: string)
    requires i < |ms| && ms[i].blobId != prot
    ensures Candidates(ms, prot) == Candidates(ms[..i], prot) + ([ms[i]] + Candidates(ms[i + 1..], prot))
    ensures Candidates(RemoveAt(ms, i), prot) == Candidates(ms[..i], prot) + Candidates(ms[i + 1..], prot)
  {
    var a, b := ms[..i], ms[i + 1..];
    assert ms == a + ([ms[i]] + b);
    CandidatesConcat(a, [ms[i]] + b, prot);
    CandidatesConcat([ms[i]], b, prot);
    CandidatesConcat(a, b, prot);
  }

  lemma VictimRanks(ms: seq<Message>, i: nat, before: int, prot: string)
    requires IsVictim(ms, i, before, prot)
    ensures forall m :: m in Candidates(ms[..i], prot) ==> RankLess(ms[i], m, before)
    ensures forall m :: m in Candidates(ms[i + 1..], prot) ==> !RankLess(m, ms[i], before)
  {
    CandidatesMembers(ms[..i], prot);
    CandidatesMembers(ms[i + 1..], prot);
    forall m | m in Candidates(ms[i + 1..], prot) ensures !RankLess(m, ms[i], before) {
      var j :| 0 <= j < |ms| - i - 1 && ms[i + 1..][j] == m;
      assert ms[i + 1 + j] == m;
    }
  }

  lemma RankedMiddle(a: seq<Message>, m: Message, b: seq<Message>, before: int)
    requires forall x :: x in a ==> RankLess(m, x, before)
    requires forall x :: x in b ==> !RankLess(x, m, before)
    ensures Ranked(a + ([m] + b), before) == [m] + Ranked(a + b, before)
  {
    var c := a + ([m] + b);
    forall j | |a| < j < |c| ensures !RankLess(c[j], c[|a|], before) {
      assert c[j] == b[j - |a| - 1];
    }
    RankedHead(c, |a|, before);
    assert RemoveAt(c, |a|) == a + b;
  }

  /** Deleting the victim reads the priority listing one further. */
  lemma PriorityHead(ms: seq<Message>, i: nat, before: int, prot: string)
    requires IsVictim(ms, i, before, prot)
    ensures Priority(ms, before, prot) == [ms[i]] + Priority(RemoveAt(ms, i), before, prot)
  {
    CandidatesSplit(ms, i, prot);
    VictimRanks(ms, i, before, prot);
    RankedMiddle(Candidates(ms[..i], prot), ms[i], Candidates(ms[i + 1..], prot), before);
  }

  // ----- how much of the listing is given up -----

  /** Bytes that leave the live blobs when the first `k` listed messages are deleted. */
  ghost function Released(db: Db, order: seq<Message>, k: nat): int
    requires k <= |order|
  {
    var r := DeleteFirst(db, order, k);
    if r.None? then 0 else BlobBytes(db.blobs) - BlobBytes(r.value.blobs)
  }

  /** `k` is the least number of deletions from the listing that brings `charged` down to `cap`. */
  ghost predicate ShortestPrefix(db: Db, order: seq<Message>, k: nat, charged: int, cap: int)
  {
    && k <= |order|
    && charged - Released(db, order, k) <= cap
    && StillAbove(db, order, k, charged, cap)
  }

  /** Every shorter prefix leaves more than `cap`. */
  ghost predicate StillAbove(db: Db, order: seq<Message>, k: nat, charged: int, cap: int)
    requires k <= |order|
  {
    k > 0 ==> charged - Released(db, order, k - 1) > cap && StillAbove(db, order, k - 1, charged, cap)
  }

  lemma {:induction false} StillAboveEach(db: Db, order: seq<Message>, k: nat, charged: int, cap: int)
    requires k <= |order| && StillAbove(db, order, k, charged, cap)
    ensures EachAbove(db, order, k, charged, cap)
  {
    if k > 0 {
      StillAboveEach(db, order, k - 1, charged, cap);
    }
  }

  /** No prefix shorter than `k` is enough. */
  ghost predicate EachAbove(db: Db, order: seq<Message>, k: nat, charged: int, cap: int)
    requires k <= |order|
  {
    forall j: nat :: j < k ==> charged - Released(db, order, j) > cap
  }

  /** Of the first `k` of the listing the first `n` had expired, and the others had not. */
  ghost predicate ExpiredFirst(order: seq<Message>, n: nat, k: nat, before: int)
    requires n <= k <= |order|
  {
    (forall i :: 0 <= i < n ==> order[i].expires <= before) && (forall i :: n <= i < k ==> order[i].expires > before)
  }

  /** The counts of the first deletions of the listing, and the bytes that each kind released. */
  ghost predicate Counted(db: Db, order: seq<Message>, stats: Stats, before: int)
  {
    var k := stats.expired + stats.evicted;
    && k <= |order| && ExpiredFirst(order, stats.expired, k, before)
    && stats.expiredBytes == Released(db, order, stats.expired)
    && stats.expiredBytes + stats.evictedBytes == Released(db, order, k)
  }

  function Count(stats: Stats, expired: bool, released: nat): Stats
  {
    if expired then stats.(expired := stats.expired + 1, expiredBytes := stats.expiredBytes + released)
    else stats.(evicted := stats.evicted + 1, evictedBytes := stats.evictedBytes + released)
  }

  lemma CountNext(db: Db, order: seq<Message>, stats: Stats, before: int, expired: bool, released: nat)
    requires Counted(db, order, stats, before) && stats.expired + stats.evicted < |order|
    requires expired <==> order[stats.expired + stats.evicted].expires <= before
    requires expired ==> stats.evicted == 0 && stats.evictedBytes == 0
    requires Released(db, order, stats.expired + stats.evicted + 1) ==
             Released(db, order, stats.expired + stats.evicted) + released
    ensures Counted(db, order, Count(stats, expired, released), before)
  {
  }

  /** `tx` is what is left of `tx0` after the first `k` deletions of its priority listing. */
  ghost predicate Progress(tx0: Db, k: nat, tx: Db, before: int, prot: string)
  {
    var order := Priority(tx0.messages, before, prot);
    && Consistent(tx)
    && k <= |order|
    && DeleteFirst(tx0, order, k) == Some(tx)
    && Priority(tx.messages, before, prot) == order[k..]
    && (forall b :: b in tx.blobs ==> b in tx0.blobs && tx.blobs[b].size == tx0.blobs[b].size)
  }

  /** One turn of the loop: the victim is the next of the listing, and its deletion goes through. */
  lemma ProgressStep(tx0: Db, k: nat, tx: Db, i: nat, before: int, prot: string)
    requires Progress(tx0, k, tx, before, prot)
    requires IsVictim(tx.messages, i, before, prot)
    ensures var m := tx.messages[i];
            var order := Priority(tx0.messages, before, prot);
            var r := DeleteMessage(tx, m.id, m.blobId);
            && k < |order| && order[k] == m
            && r.Some?
            && Progress(tx0, k + 1, r.value.0, before, prot)
            && Released(tx0, order, k + 1) == Released(tx0, order, k) + r.value.1
            && r.value.0.messages == RemoveAt(tx.messages, i)
  {
    var m := tx.messages[i];
    var order := Priority(tx0.messages, before, prot);
    PriorityHead(tx.messages, i, before, prot);
    assert order[k] == order[k..][0] == m;
    assert order[k + 1..] == order[k..][1..];
    DeleteMessageSound(tx, i);
  }

  /** What the two queries of one loop turn select is the victim. */
  lemma SelectsVictim(ms: seq<Message>, before: int, prot: string)
    ensures var e := FirstExpired(ms, before, prot);
            var r := FirstReceived(ms, prot);
            && (e.Some? ==> IsVictim(ms, e.value, before, prot))
            && (e.None? && r.Some? ==> IsVictim(ms, r.value, before, prot) && !Expired(ms[r.value], before))
  {
  }

  /** Every prefix of the listing can be deleted, and leaves consistent tables whose listing is the rest. */
  lemma {:induction false} ProgressAt(tx0: Db, k: nat, before: int, prot: string)
    requires Consistent(tx0) && k <= |Priority(tx0.messages, before, prot)|
    ensures var r := DeleteFirst(tx0, Priority(tx0.messages, before, prot), k);
            r.Some? && Progress(tx0, k, r.value, before, prot)
  {
    if k > 0 {
      ProgressAt(tx0, k - 1, before, prot);
      var tx := DeleteFirst(tx0, Priority(tx0.messages, before, prot), k - 1).value;
      PriorityIsOrder(tx.messages, before, prot);
      assert Priority(tx.messages, before, prot)[0] in tx.messages;
      SelectsVictim(tx.messages, before, prot);
      var e := FirstExpired(tx.messages, before, prot);
      ProgressStep(tx0, k - 1, tx, if e.Some? then e.value else FirstReceived(tx.messages, prot).value, before, prot);
    }
  }

  lemma NextOfListing(tx0: Db, k: nat, tx: Db, before: int, prot: string)
    requires Progress(tx0, k, tx, before, prot) && k < |Priority(tx0.messages, before, prot)|
    ensures Priority(tx0.messages, before, prot)[k] in tx.messages
  {
    PriorityIsOrder(tx.messages, before, prot);
    assert Priority(tx0.messages, before, prot)[k] == Priority(tx.messages, before, prot)[0];
  }

  /** Exactly the first `k` of the listing are gone. */
  lemma ProgressSurvivors(tx0: Db, k: nat, before: int, prot: string) returns (out: Db)
    requires Consistent(tx0) && k <= |Priority(tx0.messages, before, prot)|
    ensures Removed(tx0, Priority(tx0.messages, before, prot), k, out)
  {
    NoneRemoved(tx0, Priority(tx0.messages, before, prot));
    out := tx0;
    for i := 0 to k
      invariant Removed(tx0, Priority(tx0.messages, before, prot), i, out)
    {
      out := SurvivorsNext(tx0, i, out, before, prot);
    }
  }

  lemma SurvivorsNext(tx0: Db, k: nat, tx: Db, before: int, prot: string) returns (out: Db)
    requires Consistent(tx0) && k < |Priority(tx0.messages, before, prot)|
    requires Removed(tx0, Priority(tx0.messages, before, prot), k, tx)
    ensures Removed(tx0, Priority(tx0.messages, before, prot), k + 1, out)
  {
    ProgressAt(tx0, k, before, prot);
    NextOfListing(tx0, k, tx, before, prot);
    out := DeleteNext(tx0, Priority(tx0.messages, before, prot), k, tx);
  }

  /** The loop finds no victim only when the listing is used up. */
  lemma NoVictim(tx0: Db, k: nat, tx: Db, before: int, prot: string)
    requires Progress(tx0, k, tx, before, prot)
    requires forall j :: 0 <= j < |tx.messages| ==> tx.messages[j].blobId == prot
    ensures k == |Priority(tx0.messages, before, prot)|
  {
    NoCandidates(tx.messages, prot);
  }

  /** The queries of one loop turn: the next message to give up, and whether expired ones may remain. */
  method NextVictim(ms: seq<Message>, before: int, prot: string, expiredRemain: bool, oracle: Oracle, tick: nat)
    returns (victim: Option<nat>, expired: bool, sqlOk: bool, now: nat)
    requires !expiredRemain ==> FirstExpired(ms, before, prot).None?
    ensures tick <= now
    ensures sqlOk <==> Faultless(oracle, tick, now)
    ensures sqlOk && victim.Some? ==> IsVictim(ms, victim.value, before, prot)
    ensures sqlOk && victim.Some? ==> (expired <==> ms[victim.value].expires <= before)
    ensures sqlOk && victim.None? ==> forall j :: 0 <= j < |ms| ==> ms[j].blobId == prot
    ensures sqlOk && !expired ==> FirstExpired(ms, before, prot).None?
    ensures expired ==> expiredRemain
  {
    SelectsVictim(ms, before, prot);
    victim, expired, sqlOk, now := None, false, true, tick;
    if expiredRemain {
      now := now + 1;
      if !oracle(now - 1) { return None, false, false, now; }
      victim := FirstExpired(ms, before, prot);
      expired := victim.Some?;
    }
    if !expired {
      now := now + 1;
      if !oracle(now - 1) { return None, false, false, now; }
      victim := FirstReceived(ms, prot);
    }
  }

  /** The loop's view of one deletion. */
  lemma EvictStep(tx0: Db, k: nat, tx: Db, i: nat, before: int, prot: string)
    requires Consistent(tx0) && k <= |Priority(tx0.messages, before, prot)|
    requires DeleteFirst(tx0, Priority(tx0.messages, before, prot), k) == Some(tx)
    requires IsVictim(tx.messages, i, before, prot)
    ensures var m := tx.messages[i];
            var order := Priority(tx0.messages, before, prot);
            var r := DeleteMessage(tx, m.id, m.blobId);
            && k < |order| && order[k] == m && r.Some?
            && DeleteFirst(tx0, order, k + 1) == Some(r.value.0)
            && Released(tx0, order, k + 1) == Released(tx0, order, k) + r.value.1
            && (FirstExpired(tx.messages, before, prot).None? ==> FirstExpired(r.value.0.messages, before, prot).None?)
  {
    ProgressAt(tx0, k, before, prot);
    ProgressStep(tx0, k, tx, i, before, prot);
    assert forall m :: m in RemoveAt(tx.messages, i) ==> m in tx.messages;
  }

  /** One turn of the `evictTx` loop. */
  method EvictOne(ghost tx0: Db, ghost k: nat, tx: Db, before: int, prot: string, expiredRemain: bool,
                  oracle: Oracle, tick: nat)
    returns (r: Result, now: nat)
    requires Consistent(tx0) && k <= |Priority(tx0.messages, before, prot)|
    requires DeleteFirst(tx0, Priority(tx0.messages, before, prot), k) == Some(tx)
    requires !expiredRemain ==> FirstExpired(tx.messages, before, prot).None?
    ensures tick <= now
    ensures r == Failed(SqlFailed) <==> !Faultless(oracle, tick, now)
    ensures r == Failed(Exhausted) ==> k == |Priority(tx0.messages, before, prot)|
    ensures r.Deleted? ==>
              var order := Priority(tx0.messages, before, prot);
              && k < |order|
              && DeleteFirst(tx0, order, k + 1) == Some(r.tx)
              && Released(tx0, order, k + 1) == Released(tx0, order, k) + r.released
              && (r.expired <==> order[k].expires <= before) && (r.expired ==> expiredRemain)
              && (!r.expired ==> FirstExpired(r.tx.messages, before, prot).None?)
  {
    var victim, expired, sqlOk, t := NextVictim(tx.messages, before, prot, expiredRemain, oracle, tick);
    if !sqlOk { return Failed(SqlFailed), t; }
    if victim.None? {
      ProgressAt(tx0, k, before, prot);
      NoVictim(tx0, k, tx, before, prot);
      return Failed(Exhausted), t;
    }
    var m := tx.messages[victim.value];
    EvictStep(tx0, k, tx, victim.value, before, prot);
    var d, t' := DeleteMessageTx(tx, m.id, m.blobId, oracle, t);
    if d.None? { return Failed(SqlFailed), t'; }
    return Deleted(d.value.0, d.value.1, expired), t';
  }

  /** `evictTx`. `charged` is `storedBytes + addedBytes`, `before` the clock read on entry. */
  method EvictTx(tx0: Db, prot: string, charged: int, cap: int, before: int, oracle: Oracle, tick: nat)
    returns (tx: Db, stats: Stats, err: Option<EvictError>, now: nat)
    requires Consistent(tx0)
    ensures tick <= now
    ensures err.None? ==>
              var order := Priority(tx0.messages, before, prot);
              var k := stats.expired + stats.evicted;
              && ShortestPrefix(tx0, order, k, charged, cap)
              && EachAbove(tx0, order, k, charged, cap)
              && DeleteFirst(tx0, order, k) == Some(tx)
              && Counted(tx0, order, stats, before)
    ensures err == Some(Exhausted) ==>
              var order := Priority(tx0.messages, before, prot);
              charged - Released(tx0, order, |order|) > cap
    ensures err == Some(SqlFailed) <==> !Faultless(oracle, tick, now)
  {
    tx, stats, err, now := tx0, Stats(0, 0, 0, 0), None, tick;
    var projected := charged;
    var expiredRemain := true;
    ghost var order := Priority(tx0.messages, before, prot);
    ghost var k := 0;
    while projected > cap
      invariant tick <= now && Faultless(oracle, tick, now)
      invariant k == stats.expired + stats.evicted <= |order|
      invariant DeleteFirst(tx0, order, k) == Some(tx)
      invariant projected == charged - Released(tx0, order, k)
      invariant StillAbove(tx0, order, k, charged, cap)
      invariant Counted(tx0, order, stats, before)
      invariant expiredRemain ==> stats.evicted == stats.evictedBytes == 0
      invariant !expiredRemain ==> FirstExpired(tx.messages, before, prot).None?
      decreases |order| - k
    {
      var r, t := EvictOne(tx0, k, tx, before, prot, expiredRemain, oracle, now);
      now := t;
      if r.Failed? { return tx, stats, Some(r.error), now; }
      CountNext(tx0, order, stats, before, r.expired, r.released);
      expiredRemain, tx, projected := r.expired, r.tx, projected - r.released;
      stats := Count(stats, r.expired, r.released);
      k := k + 1;
    }
    StillAboveEach(tx0, order, k, charged, cap);
  }

  // ----- eviction never runs dry -----

  /** Deleting the whole listing of consistent tables leaves at most the protected blob. */
  lemma DeleteWholeOrder(db: Db, before: int, prot: string)
    requires Consistent(db)
    ensures var order := Priority(db.messages, before, prot);
            var r := DeleteFirst(db, order, |order|);
            r.Some? && forall b :: b in r.value.blobs ==>
                         b == prot && b in db.blobs && r.value.blobs[b].size == db.blobs[b].size
  {
    var order := Priority(db.messages, before, prot);
    ProgressAt(db, |order|, before, prot);
    var tx := DeleteFirst(db, order, |order|).value;
    PriorityIsOrder(tx.messages, before, prot);
    forall b | b in tx.blobs ensures b == prot {
      RefsPositive(tx.messages, b);
    }
  }

  /**
   * Admission is complete: once the queued bytes and the incoming blob fit the cap together, giving
   * up the whole listing reaches the cap, so `evictTx` never reports an exhausted limit.
   */
  lemma AdmissionComplete(tx: Db, before: int, prot: string, charged: int, cap: int)
    requires Consistent(tx) && prot in tx.blobs
    requires charged == Charge(tx)
    requires Sum(tx.pending) + tx.blobs[prot].size <= cap
    ensures var order := Priority(tx.messages, before, prot);
            charged - Released(tx, order, |order|) <= cap
  {
    DeleteWholeOrder(tx, before, prot);
    var order := Priority(tx.messages, before, prot);
    var out := DeleteFirst(tx, order, |order|).value;
    var single := map[prot := tx.blobs[prot].size];
    SumMonotone(BlobSizes(out.blobs), single);
    SumSingle(prot, tx.blobs[prot].size);
  }
}
