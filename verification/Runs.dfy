/** What holds over whole runs of the store: any mix of operations, failures, restarts and power losses. */
module Runs {
  import opened Sums
  import opened PathOrder
  import opened Tables
  import opened Eviction
  import opened FileSystem
  import opened Recipients
  import opened Machine

  ghost predicate StepAt(cfg: Config, states: seq<State>, events: seq<Event>, i: nat)
    requires |states| == |events| + 1 && i < |events|
  {
    Next(cfg, states[i], events[i], states[i + 1])
  }

  ghost predicate IsRun(cfg: Config, states: seq<State>, events: seq<Event>)
  {
    && |states| == |events| + 1
    && (forall i :: 0 <= i < |events| ==> StepAt(cfg, states, events, i))
  }

  /** A store that was never opened: no rows, and only files that some earlier program left. */
  ghost predicate Fresh(s: State)
  {
    && s.phase.Down? && s.db == Db([], map[], map[])
    && s.disk.solid <= s.disk.files.Keys && s.disk.unlinked == map[]
  }

  lemma FreshIsSafe(cfg: Config, s: State)
    requires Fresh(s)
    ensures Inv(cfg, s)
  {
  }

  /** The invariant holds at every moment of every run. */
  lemma {:induction false} RunKeepsInv(cfg: Config, states: seq<State>, events: seq<Event>, i: nat)
    requires IsRun(cfg, states, events) && Inv(cfg, states[0]) && i < |states|
    ensures Inv(cfg, states[i])
  {
    if i > 0 {
      RunKeepsInv(cfg, states, events, i - 1);
      assert StepAt(cfg, states, events, i - 1);
      NextKeepsInv(cfg, states[i - 1], events[i - 1], states[i]);
    }
  }

  // ----- crash safety -----

  lemma NextKeepsAccepted(cfg: Config, s: State, e: Event, t: State, b: string)
    requires Next(cfg, s, e, t) && b in s.accepted
    ensures b in t.accepted && t.accepted[b] == s.accepted[b]
  {
  }

  lemma {:induction false} AcceptedForever(cfg: Config, states: seq<State>, events: seq<Event>, i: nat, j: nat,
                                           b: string)
    requires IsRun(cfg, states, events) && i <= j < |states| && b in states[i].accepted
    ensures b in states[j].accepted && states[j].accepted[b] == states[i].accepted[b]
  {
    if i < j {
      AcceptedForever(cfg, states, events, i, j - 1, b);
      assert StepAt(cfg, states, events, j - 1);
      NextKeepsAccepted(cfg, states[j - 1], events[j - 1], states[j], b);
    }
  }

  lemma AcceptedAt(cfg: Config, states: seq<State>, events: seq<Event>, i: nat)
    requires IsRun(cfg, states, events) && i < |events| && events[i].CommitSave? && states[i].phase.Durable?
    ensures var b := events[i].blobId;
            b in states[i + 1].accepted && states[i + 1].accepted[b] == states[i].phase.raw
  {
    assert StepAt(cfg, states, events, i);
  }

  /**
   * Crash safety. Once a `Save` of `raw` has committed, then at every later moment at which its blob
   * row still stands, the file holds `raw`, and holds it after every power loss at that moment.
   */
  lemma SavedMailSurvives(cfg: Config, states: seq<State>, events: seq<Event>, i: nat, j: nat, after: map<Path, File>)
    requires IsRun(cfg, states, events) && Inv(cfg, states[0])
    requires i < j < |states| && events[i].CommitSave? && states[i].phase.Durable?
    requires events[i].blobId in states[j].db.blobs
    requires CrashImage(states[j].disk, after)
    ensures var p := states[j].db.blobs[events[i].blobId].path;
            && p in states[j].disk.files && states[j].disk.files[p].bytes == states[i].phase.raw
            && p in after && after[p].bytes == states[i].phase.raw
  {
    var b := events[i].blobId;
    AcceptedAt(cfg, states, events, i);
    AcceptedForever(cfg, states, events, i + 1, j, b);
    RunKeepsInv(cfg, states, events, j);
  }

  /** Startup never misses a referenced blob, whatever happened before. */
  lemma NoBlobMissing(cfg: Config, states: seq<State>, events: seq<Event>, j: nat)
    requires IsRun(cfg, states, events) && Inv(cfg, states[0]) && j < |states|
    ensures BlobPaths(states[j].db.blobs) <= states[j].disk.files.Keys
  {
    RunKeepsInv(cfg, states, events, j);
  }

  // ----- accepted mail leaves only by expiry or eviction -----

  ghost predicate Holds(db: Db, id: string)
  {
    exists m :: m in db.messages && m.id == id
  }

  /**
   * The step removes `m` because it expired, or evicts it within the shortest prefix of the priority order
   * that brings the charge to the cap.
   */
  ghost predicate Departs(cfg: Config, s: State, e: Event, m: Message)
  {
    || (e.CommitCleanup? && m.expires <= e.before)
    || (e.CommitSave? && s.phase.Durable?
        && var tx := Deliver(s.db, e.blobId, s.phase.path, |s.phase.raw|, e.ms);
           var order := Priority(tx.messages, e.before, e.blobId);
           && ShortestPrefix(tx, order, e.k, s.storedBytes + |s.phase.raw|, cfg.maxStorage)
           && m in order[..e.k])
  }

  lemma CommitSaveDepartures(cfg: Config, s: State, e: Event, t: State, m: Message)
    requires Inv(cfg, s) && e.CommitSave? && NextSave(cfg, s, e, t)
    requires m in s.db.messages && m !in t.db.messages
    ensures Departs(cfg, s, e, m)
  {
    var tx := Deliver(s.db, e.blobId, s.phase.path, |s.phase.raw|, e.ms);
    DeliverConsistent(s.db, e.blobId, s.phase.path, |s.phase.raw|, e.ms);
    var out := ProgressSurvivors(tx, e.k, e.before, e.blobId);
    assert m in tx.messages;
  }

  lemma CleanupDepartures(cfg: Config, s: State, e: Event, t: State, m: Message)
    requires Inv(cfg, s) && e.CommitCleanup? && NextUpkeep(s, e, t)
    requires m in s.db.messages && m !in t.db.messages
    ensures Departs(cfg, s, e, m)
  {
    var out := DeleteListed(s.db, e.gone, |e.gone|);
    assert e.gone[..|e.gone|] == e.gone;
  }

  lemma ReaddressHolds(db: Db, norm: string -> string, id: string)
    requires Holds(db, id)
    ensures Holds(db.(messages := Readdress(db.messages, norm)), id)
  {
    var m :| m in db.messages && m.id == id;
    var i :| 0 <= i < |db.messages| && db.messages[i] == m;
    ReaddressKeeps(db.messages, norm);
    assert Readdress(db.messages, norm)[i] in Readdress(db.messages, norm);
  }

  /** Messages are only touched by the two commits and by the renormalization. */
  lemma OthersKeepMessages(cfg: Config, s: State, e: Event, t: State)
    requires Next(cfg, s, e, t) && !e.CommitSave? && !e.CommitCleanup? && !e.Renormalize?
    ensures t.db.messages == s.db.messages
  {
  }

  lemma OthersKeepHolds(cfg: Config, s: State, e: Event, t: State, id: string)
    requires Next(cfg, s, e, t) && !e.CommitSave? && !e.CommitCleanup? && Holds(s.db, id)
    ensures Holds(t.db, id)
  {
    if e.Renormalize? {
      ReaddressHolds(s.db, Normalize, id);
    } else {
      OthersKeepMessages(cfg, s, e, t);
    }
  }

  lemma NextDeparture(cfg: Config, s: State, e: Event, t: State, id: string) returns (m: Message)
    requires Inv(cfg, s) && Next(cfg, s, e, t)
    requires Holds(s.db, id) && !Holds(t.db, id)
    ensures m in s.db.messages && m.id == id && Departs(cfg, s, e, m)
  {
    m :| m in s.db.messages && m.id == id;
    if e.CommitSave? {
      CommitSaveDepartures(cfg, s, e, t, m);
    } else if e.CommitCleanup? {
      CleanupDepartures(cfg, s, e, t, m);
    } else {
      OthersKeepHolds(cfg, s, e, t, id);
    }
  }

  lemma DepartureAt(cfg: Config, states: seq<State>, events: seq<Event>, n: nat, id: string) returns (m: Message)
    requires IsRun(cfg, states, events) && Inv(cfg, states[0]) && n < |events|
    requires Holds(states[n].db, id) && !Holds(states[n + 1].db, id)
    ensures m in states[n].db.messages && m.id == id && Departs(cfg, states[n], events[n], m)
  {
    RunKeepsInv(cfg, states, events, n);
    assert StepAt(cfg, states, events, n);
    m := NextDeparture(cfg, states[n], events[n], states[n + 1], id);
  }

  /**
   * A message stored at moment `i` and gone at moment `j` left at a step in between that removed it as
   * expired, or evicted it as one of the shortest sufficient prefix of the priority order.
   */
  lemma {:induction false} MailLeavesOnlyByExpiryOrEviction(
    cfg: Config, states: seq<State>, events: seq<Event>, i: nat, j: nat, id: string) returns (n: nat, m: Message)
    requires IsRun(cfg, states, events) && Inv(cfg, states[0]) && i <= j < |states|
    requires Holds(states[i].db, id) && !Holds(states[j].db, id)
    ensures i <= n < j && m in states[n].db.messages && m.id == id && Departs(cfg, states[n], events[n], m)
  {
    if Holds(states[j - 1].db, id) {
      n := j - 1;
      m := DepartureAt(cfg, states, events, n, id);
    } else {
      n, m := MailLeavesOnlyByExpiryOrEviction(cfg, states, events, i, j - 1, id);
    }
  }

  // ----- no step of a running process makes a message expire -----

  ghost function ExpiredIn(ms: seq<Message>, before: int): set<Message>
  {
    set m | m in ms && m.expires <= before
  }

  lemma NextExpired(cfg: Config, s: State, e: Event, t: State, before: int)
    requires Inv(cfg, s) && Up(s) && Next(cfg, s, e, t)
    requires e.CommitSave? ==> forall m :: m in e.ms ==> m.expires > before
    ensures ExpiredIn(t.db.messages, before) <= ExpiredIn(s.db.messages, before)
  {
    if e.CommitSave? {
      CommitOutcome(cfg, s, e.blobId, e.ms, e.before, e.k, t);
    } else if e.CommitCleanup? {
      var out := DeleteListed(s.db, e.gone, |e.gone|);
    } else {
      OthersKeepMessages(cfg, s, e, t);
    }
  }

  /** As long as no delivery brings one, expired messages only become fewer. */
  lemma {:induction false} ExpiredOnlyLeave(
    cfg: Config, states: seq<State>, events: seq<Event>, i: nat, j: nat, before: int)
    requires IsRun(cfg, states, events) && Inv(cfg, states[0]) && i <= j < |states|
    requires forall n :: i <= n < j ==> Up(states[n])
    requires forall n :: i <= n < j && events[n].CommitSave? ==> forall m :: m in events[n].ms ==> m.expires > before
    ensures ExpiredIn(states[j].db.messages, before) <= ExpiredIn(states[i].db.messages, before)
  {
    if i < j {
      ExpiredOnlyLeave(cfg, states, events, i, j - 1, before);
      RunKeepsInv(cfg, states, events, j - 1);
      assert StepAt(cfg, states, events, j - 1);
      NextExpired(cfg, states[j - 1], events[j - 1], states[j], before);
    }
  }

  // ----- what one delivery leaves in the tables -----

  lemma {:induction false} OtherBlobUntouched(db: Db, list: seq<Message>, k: nat, b: string)
    requires k <= |list| && DeleteFirst(db, list, k).Some?
    requires b in db.blobs && forall m :: m in list ==> m.blobId != b
    ensures var out := DeleteFirst(db, list, k).value; b in out.blobs && out.blobs[b] == db.blobs[b]
  {
    if k > 0 {
      OtherBlobUntouched(db, list, k - 1, b);
      assert list[k - 1] in list;
    }
  }

  /**
   * Exactly the rows `ms` were added and the first `k` of the priority order dropped; the new blob counts
   * every row.
   */
  ghost predicate TookIn(prior: seq<Message>, blobId: string, path: Path, size: nat, ms: seq<Message>, before: int,
                         k: nat, out: seq<Message>, blobs: map<string, Blob>)
  {
    && k <= |Priority(prior + ms, before, blobId)|
    && (forall m :: m in out <==> (m in prior || m in ms) && m !in Priority(prior + ms, before, blobId)[..k])
    && (forall m :: m in ms ==> m in out)
    && blobId in blobs && blobs[blobId] == Blob(path, size, |ms|)
  }

  /**
   * A committed delivery adds its own rows and its blob, all of which survive its own eviction whatever
   * the clock says, and drops exactly the evicted prefix of the priority order.
   */
  lemma CommitOutcome(cfg: Config, s: State, blobId: string, ms: seq<Message>, before: int, k: nat, t: State)
    requires Inv(cfg, s) && Commits(cfg, s, blobId, ms, before, k, t)
    ensures TookIn(s.db.messages, blobId, s.phase.path, |s.phase.raw|, ms, before, k, t.db.messages, t.db.blobs)
  {
    var tx := Deliver(s.db, blobId, s.phase.path, |s.phase.raw|, ms);
    var order := Priority(tx.messages, before, blobId);
    DeliverConsistent(s.db, blobId, s.phase.path, |s.phase.raw|, ms);
    var out := ProgressSurvivors(tx, k, before, blobId);
    PriorityIsOrder(tx.messages, before, blobId);
    OtherBlobUntouched(tx, order, k, blobId);
  }

  lemma CommitOutcomeAt(cfg: Config, states: seq<State>, events: seq<Event>, n: nat)
    requires IsRun(cfg, states, events) && Inv(cfg, states[0]) && n < |events| && events[n].CommitSave?
    ensures states[n].phase.Durable?
    ensures var CommitSave(blobId, ms, before, k) := events[n];
            TookIn(states[n].db.messages, blobId, states[n].phase.path, |states[n].phase.raw|, ms, before, k,
                   states[n + 1].db.messages, states[n + 1].db.blobs)
  {
    RunKeepsInv(cfg, states, events, n);
    assert StepAt(cfg, states, events, n);
    var CommitSave(blobId, ms, before, k) := events[n];
    assert Commits(cfg, states[n], blobId, ms, before, k, states[n + 1]);
    CommitOutcome(cfg, states[n], blobId, ms, before, k, states[n + 1]);
  }

  // ----- a stored row stays as it is -----

  lemma SameId(ms: seq<Message>, a: Message, b: Message)
    requires UniqueIds(ms) && a in ms && b in ms && a.id == b.id
    ensures a == b
  {
  }

  /** The recipient is in its normal form. */
  ghost predicate Normal(m: Message)
  {
    NormalForm(m.recipient)
  }

  lemma SaveKeepsRow(cfg: Config, s: State, e: Event, t: State, m: Message)
    requires Inv(cfg, s) && e.CommitSave? && NextSave(cfg, s, e, t)
    requires m in s.db.messages && Holds(t.db, m.id)
    ensures m in t.db.messages
  {
    var x :| x in t.db.messages && x.id == m.id;
    CommitOutcome(cfg, s, e.blobId, e.ms, e.before, e.k, t);
    SameId(s.db.messages + e.ms, m, x);
  }

  lemma CleanupKeepsRow(cfg: Config, s: State, e: Event, t: State, m: Message)
    requires Inv(cfg, s) && e.CommitCleanup? && NextUpkeep(s, e, t)
    requires m in s.db.messages && Holds(t.db, m.id)
    ensures m in t.db.messages
  {
    var x :| x in t.db.messages && x.id == m.id;
    var out := DeleteListed(s.db, e.gone, |e.gone|);
    SameId(s.db.messages, m, x);
  }

  lemma RenormalizeKeepsRow(cfg: Config, s: State, e: Event, t: State, m: Message)
    requires e.Renormalize? && NextRestart(cfg, s, e, t) && m in s.db.messages && Normal(m)
    ensures m in t.db.messages
  {
    var i :| 0 <= i < |s.db.messages| && s.db.messages[i] == m;
    ReaddressKeeps(s.db.messages, Normalize);
    NormalFormStays(m.recipient);
    assert t.db.messages[i] == m;
  }

  lemma NextKeepsRow(cfg: Config, s: State, e: Event, t: State, m: Message)
    requires Inv(cfg, s) && Next(cfg, s, e, t) && m in s.db.messages && Normal(m) && Holds(t.db, m.id)
    ensures m in t.db.messages
  {
    if e.CommitSave? {
      SaveKeepsRow(cfg, s, e, t, m);
    } else if e.CommitCleanup? {
      CleanupKeepsRow(cfg, s, e, t, m);
    } else if e.Renormalize? {
      RenormalizeKeepsRow(cfg, s, e, t, m);
    } else {
      OthersKeepMessages(cfg, s, e, t);
    }
  }

  lemma RowStaysAt(cfg: Config, states: seq<State>, events: seq<Event>, n: nat, m: Message)
    requires IsRun(cfg, states, events) && Inv(cfg, states[0]) && n < |events|
    requires m in states[n].db.messages && Normal(m) && Holds(states[n + 1].db, m.id)
    ensures m in states[n + 1].db.messages
  {
    RunKeepsInv(cfg, states, events, n);
    assert StepAt(cfg, states, events, n);
    NextKeepsRow(cfg, states[n], events[n], states[n + 1], m);
  }

  /** From state `i` to state `j` the table always has a row with this id. */
  ghost predicate HeldThroughout(states: seq<State>, i: nat, j: nat, id: string)
    requires i <= j < |states|
  {
    Holds(states[j].db, id) && (i < j ==> HeldThroughout(states, i, j - 1, id))
  }

  /** As long as the table has a row with its id, a row is unchanged in every column. */
  lemma {:induction false} StoredRowStays(
    cfg: Config, states: seq<State>, events: seq<Event>, i: nat, j: nat, m: Message)
    requires IsRun(cfg, states, events) && Inv(cfg, states[0]) && i <= j < |states|
    requires m in states[i].db.messages && Normal(m) && HeldThroughout(states, i, j, m.id)
    ensures m in states[j].db.messages
  {
    if i < j {
      StoredRowStays(cfg, states, events, i, j - 1, m);
      RowStaysAt(cfg, states, events, j - 1, m);
    }
  }

  // ----- accounting, the disk bound, and files without a record -----

  /** With no fault latched the counters equal the tables, whichever steps failed before. */
  lemma ExactAccounting(cfg: Config, states: seq<State>, events: seq<Event>, j: nat)
    requires IsRun(cfg, states, events) && Inv(cfg, states[0]) && j < |states|
    requires Up(states[j]) && states[j].fault.Healthy?
    ensures states[j].storedBytes == Charge(states[j].db)
    ensures states[j].storedMessages == |states[j].db.messages|
  {
    RunKeepsInv(cfg, states, events, j);
  }

  /**
   * Outside staging and with no fault latched, a message file on disk has a blob row or a queue record
   * exactly when it is not a temporary that could be neither removed nor examined.
   */
  lemma NoUnaccountedFile(cfg: Config, states: seq<State>, events: seq<Event>, j: nat, p: Path)
    requires IsRun(cfg, states, events) && Inv(cfg, states[0]) && j < |states|
    requires states[j].phase.Ready? && states[j].fault.Healthy?
    requires p in states[j].disk.files && IsMessageFile(p)
    ensures p in BlobPaths(states[j].db.blobs) || p in states[j].db.pending <==> p !in states[j].leaked
  {
    RunKeepsInv(cfg, states, events, j);
  }

  /** How many temporaries were left behind by the steps from `i` on, up to `j`. */
  ghost function Leaks(events: seq<Event>, i: nat, j: nat): nat
    requires i <= j <= |events|
  {
    if i == j then 0 else Leaks(events, i, j - 1) + (if events[j - 1].LeaveBehind? then 1 else 0)
  }

  /** `n` temporaries are left behind, each of at most one message. */
  ghost predicate LeftBehind(cfg: Config, s: State, n: nat)
  {
    |s.leaked| == n && Sum(s.leaked) <= n * cfg.maxMessage
  }

  lemma OneMoreLeft(cfg: Config, s: State, t: State, n: nat)
    requires Inv(cfg, s) && NextSave(cfg, s, LeaveBehind, t) && LeftBehind(cfg, s, n)
    ensures LeftBehind(cfg, t, n + 1)
  {
    StagedFits(cfg, s);
    LeakInserted(s.leaked, s.phase.tmp, StagedSize(s), n, cfg.maxMessage);
  }

  lemma StagedFits(cfg: Config, s: State)
    requires Inv(cfg, s) && s.phase.Staging?
    ensures s.phase.tmp !in s.leaked && StagedSize(s) <= cfg.maxMessage
  {
  }

  lemma LeakInserted(leaked: map<Path, nat>, p: Path, size: nat, n: nat, max: nat)
    requires p !in leaked && size <= max && |leaked| == n && Sum(leaked) <= n * max
    ensures |leaked[p := size]| == n + 1 && Sum(leaked[p := size]) <= (n + 1) * max
  {
    assert leaked[p := size].Keys == leaked.Keys + {p};
    SumInsert(leaked, p, size);
    assert (n + 1) * max == n * max + max;
  }

  lemma OthersLeaveNothing(cfg: Config, s: State, e: Event, t: State)
    requires Next(cfg, s, e, t) && !e.LeaveBehind? && !e.Load?
    ensures t.leaked == s.leaked
  {
  }

  lemma LoadForgets(cfg: Config, s: State, e: Event, t: State)
    requires Next(cfg, s, e, t) && e.Load?
    ensures LeftBehind(cfg, t, 0)
  {
    assert t.leaked == map[];
  }

  lemma NextLeak(cfg: Config, s: State, e: Event, t: State, n: nat)
    requires Inv(cfg, s) && Next(cfg, s, e, t) && !e.Load? && LeftBehind(cfg, s, n)
    ensures LeftBehind(cfg, t, n + (if e.LeaveBehind? then 1 else 0))
  {
    if e.LeaveBehind? {
      OneMoreLeft(cfg, s, t, n);
    } else {
      OthersLeaveNothing(cfg, s, e, t);
    }
  }

  lemma LeakAt(cfg: Config, states: seq<State>, events: seq<Event>, j: nat, n: nat)
    requires IsRun(cfg, states, events) && Inv(cfg, states[0]) && j < |events| && !events[j].Load?
    requires LeftBehind(cfg, states[j], n)
    ensures LeftBehind(cfg, states[j + 1], n + (if events[j].LeaveBehind? then 1 else 0))
  {
    RunKeepsInv(cfg, states, events, j);
    assert StepAt(cfg, states, events, j);
    NextLeak(cfg, states[j], events[j], states[j + 1], n);
  }

  /** Since the process loaded, `leaked` has one temporary, of at most one message, for each one left behind. */
  lemma {:induction false} LeakedSinceLoad(cfg: Config, states: seq<State>, events: seq<Event>, i: nat, j: nat)
    requires IsRun(cfg, states, events) && Inv(cfg, states[0]) && i < j < |states| && events[i].Load?
    requires forall n :: i < n < j ==> !events[n].Load?
    ensures LeftBehind(cfg, states[j], Leaks(events, i, j))
  {
    assert StepAt(cfg, states, events, j - 1);
    if j > i + 1 {
      LeakedSinceLoad(cfg, states, events, i, j - 1);
      LeakAt(cfg, states, events, j - 1, Leaks(events, i, j - 1));
    } else {
      assert Leaks(events, i, i) == 0;
      LoadForgets(cfg, states[i], events[i], states[j]);
    }
  }

  /** `s` after a `Save` of `raw` that left its whole temporary behind. */
  ghost function AfterLeak(s: State, tmp: Path, raw: Bytes): State
  {
    s.(disk := Write(Create(s.disk, tmp), tmp, File(raw, false)), leaked := s.leaked[tmp := |raw|], phase := Ready)
  }

  lemma LeakRun(cfg: Config, s: State, tmp: Path, raw: Bytes) returns (states: seq<State>, events: seq<Event>)
    requires s.phase.Ready? && Admits(cfg, s, raw) && FreshName(s, tmp)
    ensures IsRun(cfg, states, events) && states[0] == s && states[|events|] == AfterLeak(s, tmp, raw)
    ensures OnlyLeaves(events)
  {
    var file := File(raw, false);
    var s1 := s.(disk := Create(s.disk, tmp), phase := Staging(tmp, raw));
    var s2 := s1.(disk := Write(s1.disk, tmp, file));
    var t := AfterLeak(s, tmp, raw);
    states, events := [s, s1, s2, t], [CreateTemp(tmp, raw), WriteTemp(file), LeaveBehind];
    assert NextSave(cfg, s, CreateTemp(tmp, raw), s1);
    assert NextSave(cfg, s1, WriteTemp(file), s2);
    assert NextSave(cfg, s2, LeaveBehind, t);
    assert StepAt(cfg, states, events, 0) && StepAt(cfg, states, events, 1) && StepAt(cfg, states, events, 2);
  }

  /**
   * It happens, and again and again: from every state that admits `raw`, a `Save` can leave its whole
   * temporary on disk with no row, record or latch, and the next one is admitted just the same.
   */
  lemma TemporaryLeftBehind(cfg: Config, s: State, tmp: Path, raw: Bytes)
    returns (states: seq<State>, events: seq<Event>)
    requires s.phase.Ready? && Admits(cfg, s, raw) && FreshName(s, tmp)
    ensures IsRun(cfg, states, events) && states[0] == s
    ensures var t := states[|events|];
            && t.phase.Ready? && Admits(cfg, t, raw) && t.db == s.db && t.storedBytes == s.storedBytes
            && tmp in t.disk.files && IsMessageFile(tmp) && tmp !in BlobPaths(t.db.blobs) && tmp !in t.db.pending
            && DiskBytes(t.disk) == DiskBytes(s.disk) + |raw|
  {
    states, events := LeakRun(cfg, s, tmp, raw);
    FileWritten(s.disk, tmp, File(raw, false));
  }

  /** Two runs, the second from where the first ended. */
  lemma RunsJoin(cfg: Config, states: seq<State>, events: seq<Event>, states': seq<State>, events': seq<Event>)
    requires IsRun(cfg, states, events) && IsRun(cfg, states', events') && states[|events|] == states'[0]
    ensures IsRun(cfg, states + states'[1..], events + events')
  {
    var ss, es := states + states'[1..], events + events';
    forall i | 0 <= i < |es| ensures StepAt(cfg, ss, es, i) {
      if i < |events| {
        assert StepAt(cfg, states, events, i);
      } else {
        assert StepAt(cfg, states', events', i - |events|);
      }
    }
  }

  /** A temporary's name of `n` letters that no name of at most `n + 9` characters can equal. */
  function LongName(n: nat): Path
  {
    ".incoming-" + seq(n, _ => 'x')
  }

  /** Only finitely many names are in use, so there is always one longer than all of them. */
  lemma {:induction false} LongerThanAll(used: set<Path>) returns (n: nat)
    ensures forall p :: p in used ==> |p| <= n
  {
    n := 0;
    if used != {} {
      var p :| p in used;
      n := LongerThanAll(used - {p});
      if n < |p| { n := |p|; }
    }
  }

  lemma FreshNameExists(s: State) returns (p: Path)
    ensures FreshName(s, p)
  {
    var n := LongerThanAll(s.disk.files.Keys + s.disk.unlinked.Keys + s.db.pending.Keys + BlobPaths(s.db.blobs));
    p := LongName(n);
  }

  /** All a process does in such a run is to start deliveries and to leave their temporaries behind. */
  ghost predicate OnlyLeaves(events: seq<Event>)
  {
    forall e :: e in events ==> e.CreateTemp? || e.WriteTemp? || e.LeaveBehind?
  }

  /**
   * What it comes to: from every state that admits a message with any bytes at all, some run of the same
   * process fills the directory beyond any size, with every table and counter as it was.
   */
  lemma {:induction false} DiskOutgrows(cfg: Config, s: State, raw: Bytes, size: nat)
    returns (states: seq<State>, events: seq<Event>)
    requires s.phase.Ready? && Admits(cfg, s, raw) && raw != []
    ensures IsRun(cfg, states, events) && states[0] == s && OnlyLeaves(events)
    ensures var t := states[|events|];
            && t.phase.Ready? && t.db == s.db && t.storedBytes == s.storedBytes && t.fault == s.fault
            && t.storedMessages == s.storedMessages && DiskBytes(t.disk) > size
    decreases size - DiskBytes(s.disk)
  {
    if DiskBytes(s.disk) > size {
      states, events := [s], [];
    } else {
      var tmp := FreshNameExists(s);
      var states1, events1 := LeakRun(cfg, s, tmp, raw);
      FileWritten(s.disk, tmp, File(raw, false));
      var states2, events2 := DiskOutgrows(cfg, AfterLeak(s, tmp, raw), raw, size);
      RunsJoin(cfg, states1, events1, states2, events2);
      states, events := states1 + states2[1..], events1 + events2;
    }
  }

  /** The commits only add to the queue. */
  lemma CommitsKeepRecords(cfg: Config, s: State, e: Event, t: State, p: Path)
    requires Next(cfg, s, e, t) && (e.CommitSave? || e.CommitCleanup?) && p in s.db.pending
    ensures p in t.db.pending
  {
    if e.CommitSave? {
      var tx := Deliver(s.db, e.blobId, s.phase.path, |s.phase.raw|, e.ms);
      DeleteFirstMoves(tx, Priority(tx.messages, e.before, e.blobId), e.k);
    } else {
      DeleteFirstMoves(s.db, e.gone, |e.gone|);
    }
  }

  lemma OthersKeepRecords(cfg: Config, s: State, e: Event, t: State, p: Path)
    requires Next(cfg, s, e, t) && !e.CommitSave? && !e.CommitCleanup? && !e.Reclaim? && p in s.db.pending
    ensures p in t.db.pending
  {
  }

  /** A queue record goes away only when no power loss can bring its file back. */
  lemma RecordOutlivesFile(cfg: Config, s: State, e: Event, t: State, p: Path, after: map<Path, File>)
    requires Inv(cfg, s) && Next(cfg, s, e, t) && p in s.db.pending && p !in t.db.pending
    requires CrashImage(s.disk, after)
    ensures p !in s.disk.files && p !in after
  {
    if e.CommitSave? || e.CommitCleanup? {
      CommitsKeepRecords(cfg, s, e, t, p);
    } else if !e.Reclaim? {
      OthersKeepRecords(cfg, s, e, t, p);
    }
  }

  /** Files at blob paths are no larger in all than the blob rows. */
  lemma {:induction false} BlobFilesFit(sizes: map<Path, nat>, blobs: map<string, Blob>)
    requires forall b :: b in blobs && blobs[b].path in sizes ==> sizes[blobs[b].path] <= blobs[b].size
    ensures Sum(Restrict(sizes, BlobPaths(blobs))) <= BlobBytes(blobs)
    decreases |blobs|
  {
    if blobs == map[] {
      assert Restrict(sizes, BlobPaths(blobs)) == map[];
    } else {
      var b :| b in blobs;
      var rest := blobs - {b};
      BlobFilesFit(sizes, rest);
      SumRemove(BlobSizes(blobs), b);
      assert BlobSizes(rest) == BlobSizes(blobs) - {b};
      var p := blobs[b].path;
      var all := Restrict(sizes, BlobPaths(blobs));
      assert forall c :: c in blobs ==> c == b || c in rest;
      if p in all {
        SumRemove(all, p);
        SumMonotone(all - {p}, Restrict(sizes, BlobPaths(rest)));
      } else {
        SumMonotone(all, Restrict(sizes, BlobPaths(rest)));
      }
    }
  }

  /** The one charged file that may be on disk without row or record: staged, or the latched orphan. */
  ghost function Extra(s: State): map<Path, nat>
  {
    if HasStaged(s) then map[StagedPath(s) := |s.phase.raw|]
    else if s.fault.Orphan? then map[s.fault.path := s.fault.size]
    else map[]
  }

  lemma ExtraBytes(s: State)
    requires HasStaged(s) ==> s.fault.Healthy?
    requires LeaksApart(s)
    ensures Sum(s.leaked + Extra(s)) == Sum(s.leaked) + StagedBytes(s) + OrphanBytes(s)
  {
    SumUnion(s.leaked, Extra(s));
    if HasStaged(s) {
      SumSingle(StagedPath(s), |s.phase.raw|);
    } else if s.fault.Orphan? {
      SumSingle(s.fault.path, s.fault.size);
    }
  }

  /**
   * The disk bound. In every state of a running process, staging included, the message files hold no
   * more than the ceiling fixed when the process loaded its usage, and what it left behind.
   */
  lemma DiskBound(cfg: Config, s: State)
    requires Inv(cfg, s) && Up(s)
    ensures DiskBytes(s.disk) <= s.ceiling + Sum(s.leaked)
  {
    var sizes := FileSizes(s.disk.files);
    SumSplit(sizes, BlobPaths(s.db.blobs));
    BlobFilesFit(sizes, s.db.blobs);
    var rest := sizes - BlobPaths(s.db.blobs);
    SumSplit(rest, s.db.pending.Keys);
    SumMonotone(Restrict(rest, s.db.pending.Keys), s.db.pending);
    ExtraBytes(s);
    SumMonotone(rest - s.db.pending.Keys, s.leaked + Extra(s));
  }

  lemma CeilingFixed(cfg: Config, s: State, e: Event, t: State)
    requires Next(cfg, s, e, t) && !e.Load?
    ensures t.ceiling == s.ceiling
  {
  }

  lemma {:induction false} CeilingSinceLoad(cfg: Config, states: seq<State>, events: seq<Event>, i: nat, j: nat)
    requires IsRun(cfg, states, events) && i < j < |states| && events[i].Load?
    requires forall n :: i < n < j ==> !events[n].Load?
    ensures states[j].ceiling == Max(Charge(states[i].db), cfg.maxStorage + cfg.maxMessage)
  {
    assert StepAt(cfg, states, events, j - 1);
    if j > i + 1 {
      CeilingSinceLoad(cfg, states, events, i, j - 1);
      CeilingFixed(cfg, states[j - 1], events[j - 1], states[j]);
    }
  }

  /**
   * Within one process run that started charged at or below the cap, the message files never hold more
   * than the cap plus one message, and one more for every temporary left behind, whatever else fails. A
   * run that started above the cap never grows beyond its start but by those.
   */
  lemma DiskStaysBounded(cfg: Config, states: seq<State>, events: seq<Event>, i: nat, j: nat)
    requires IsRun(cfg, states, events) && Inv(cfg, states[0]) && i < j < |states|
    requires events[i].Load? && (forall n :: i < n < j ==> !events[n].Load?) && Up(states[j])
    ensures var behind := Leaks(events, i, j) * cfg.maxMessage;
            && DiskBytes(states[j].disk) <= Max(Charge(states[i].db), cfg.maxStorage + cfg.maxMessage) + behind
            && (Charge(states[i].db) <= cfg.maxStorage ==>
                DiskBytes(states[j].disk) <= cfg.maxStorage + cfg.maxMessage + behind)
    ensures states[j].leaked == map[] <==> forall n :: i <= n < j ==> !events[n].LeaveBehind?
  {
    RunKeepsInv(cfg, states, events, j);
    DiskBound(cfg, states[j]);
    CeilingSinceLoad(cfg, states, events, i, j);
    LeakedSinceLoad(cfg, states, events, i, j);
    NoLeaks(events, i, j);
  }

  lemma {:induction false} NoLeaks(events: seq<Event>, i: nat, j: nat)
    requires i <= j <= |events|
    ensures Leaks(events, i, j) == 0 <==> forall n :: i <= n < j ==> !events[n].LeaveBehind?
  {
    if i < j { NoLeaks(events, i, j - 1); }
  }

  // ----- files that are none of the store's business -----

  /** `p` is durably in the directory as `f`, is no message file, and is in no table. */
  ghost predicate Foreign(s: State, p: Path, f: File)
  {
    && !IsMessageFile(p) && p !in BlobPaths(s.db.blobs) && p !in s.db.pending
    && p in s.disk.files && s.disk.files[p] == f && f.flushed && p in s.disk.solid
  }

  lemma MovedSpares(db: Db, out: Db, p: Path)
    requires Moved(db, out) && p !in BlobPaths(db.blobs) && p !in db.pending
    ensures p !in BlobPaths(out.blobs) && p !in out.pending
  {
  }

  lemma CommitsSpareForeign(cfg: Config, s: State, e: Event, t: State, p: Path, f: File)
    requires Inv(cfg, s) && Next(cfg, s, e, t) && (e.CommitSave? || e.CommitCleanup?) && Foreign(s, p, f)
    ensures Foreign(t, p, f)
  {
    if e.CommitSave? {
      var tx := Deliver(s.db, e.blobId, s.phase.path, |s.phase.raw|, e.ms);
      DeleteFirstMoves(tx, Priority(tx.messages, e.before, e.blobId), e.k);
      MovedSpares(tx, t.db, p);
    } else {
      DeleteFirstMoves(s.db, e.gone, |e.gone|);
      MovedSpares(s.db, t.db, p);
    }
  }

  lemma SaveSparesForeign(cfg: Config, s: State, e: Event, t: State, p: Path, f: File)
    requires Inv(cfg, s) && NextSave(cfg, s, e, t) && !e.CommitSave? && Foreign(s, p, f)
    ensures Foreign(t, p, f)
  {
  }

  lemma UpkeepSparesForeign(s: State, e: Event, t: State, p: Path, f: File)
    requires NextUpkeep(s, e, t) && !e.CommitCleanup? && Foreign(s, p, f)
    ensures Foreign(t, p, f)
  {
  }

  lemma RestartSparesForeign(cfg: Config, s: State, e: Event, t: State, p: Path, f: File)
    requires NextRestart(cfg, s, e, t) && Foreign(s, p, f)
    ensures Foreign(t, p, f)
  {
  }

  lemma NextSparesForeign(cfg: Config, s: State, e: Event, t: State, p: Path, f: File)
    requires Inv(cfg, s) && Next(cfg, s, e, t) && Foreign(s, p, f)
    ensures Foreign(t, p, f)
  {
    if e.CommitSave? || e.CommitCleanup? {
      CommitsSpareForeign(cfg, s, e, t, p, f);
    } else if NextSave(cfg, s, e, t) {
      SaveSparesForeign(cfg, s, e, t, p, f);
    } else if NextUpkeep(s, e, t) {
      UpkeepSparesForeign(s, e, t, p, f);
    } else {
      RestartSparesForeign(cfg, s, e, t, p, f);
    }
  }

  /** The store never touches a file that is neither named like a message nor in a table; not even a crash does. */
  lemma {:induction false} ForeignFilesStay(
    cfg: Config, states: seq<State>, events: seq<Event>, i: nat, j: nat, p: Path, f: File)
    requires IsRun(cfg, states, events) && Inv(cfg, states[0]) && i <= j < |states| && Foreign(states[i], p, f)
    ensures Foreign(states[j], p, f)
  {
    if i < j {
      ForeignFilesStay(cfg, states, events, i, j - 1, p, f);
      RunKeepsInv(cfg, states, events, j - 1);
      assert StepAt(cfg, states, events, j - 1);
      NextSparesForeign(cfg, states[j - 1], events[j - 1], states[j], p, f);
    }
  }

  // ----- a reader that holds no lock -----

  /** The file at `p`, if it is there, is `f`, and nobody is writing it. */
  ghost predicate Steady(s: State, p: Path, f: File)
  {
    && (p in s.disk.files ==> s.disk.files[p] == f)
    && !(s.phase.Staging? && s.phase.tmp == p)
  }

  /** The step does not draw the name `p`, and the host keeps running. */
  ghost predicate Spares(e: Event, p: Path)
  {
    !e.PowerLoss? && (e.CreateTemp? ==> e.tmp != p) && (e.MoveIntoPlace? ==> e.path != p)
  }

  lemma NextKeepsSteady(cfg: Config, s: State, e: Event, t: State, p: Path, f: File)
    requires Next(cfg, s, e, t) && Spares(e, p) && Steady(s, p, f)
    ensures Steady(t, p, f)
  {
  }

  lemma {:induction false} StaysSteady(
    cfg: Config, states: seq<State>, events: seq<Event>, i: nat, j: nat, p: Path, f: File)
    requires IsRun(cfg, states, events) && i <= j < |states| && Steady(states[i], p, f)
    requires forall n :: i <= n < j ==> Spares(events[n], p)
    ensures Steady(states[j], p, f)
  {
    if i < j {
      StaysSteady(cfg, states, events, i, j - 1, p, f);
      assert StepAt(cfg, states, events, j - 1);
      NextKeepsSteady(cfg, states[j - 1], events[j - 1], states[j], p, f);
    }
  }

  /**
   * A reader that looked up a blob at moment `i` and opens its file at any later moment `j`, with any
   * operations in between, gets exactly the bytes of the delivery or finds the file gone, the latter
   * only if the blob row has left the table.
   */
  lemma ConcurrentRead(cfg: Config, states: seq<State>, events: seq<Event>, i: nat, j: nat, b: string)
    requires IsRun(cfg, states, events) && Inv(cfg, states[0]) && i <= j < |states| && b in states[i].db.blobs
    requires forall n :: i <= n < j ==> Spares(events[n], states[i].db.blobs[b].path)
    ensures var p := states[i].db.blobs[b].path;
            && b in states[i].accepted
            && (p in states[j].disk.files ==> states[j].disk.files[p].bytes == states[i].accepted[b])
            && (b in states[j].db.blobs && states[j].db.blobs[b].path == p ==> p in states[j].disk.files)
  {
    RunKeepsInv(cfg, states, events, i);
    RunKeepsInv(cfg, states, events, j);
    var p := states[i].db.blobs[b].path;
    assert p in BlobPaths(states[i].db.blobs);
    StaysSteady(cfg, states, events, i, j, p, File(states[i].accepted[b], true));
  }
}
