/**
 * The analytics queue: any number of recorders and one worker, as interleaved atomic steps. Each step
 * is one operation on shared state: an atomic add, a channel operation, a counter update, a commit.
 */
module AnalyticsQueue {

  const QUEUE_SIZE: nat := 4096
  const BATCH_SIZE: nat := 128
  const MAX_ATTEMPTS: nat := 3

  datatype Event = Event(id: string, kind: string, timestamp: int)

  /** Which caller of `write` the worker returns to: the event loop, the stop branch, its drain loop. */
  datatype Caller = Main | Stopping | Shutdown

  datatype Pc =
    | Select
    | Write(caller: Caller)
    /** The batch was committed, or dropped, and `pending` not yet lowered. */
    | Committed(caller: Caller)
    | Dropped(caller: Caller)
    | DrainHead
    | DrainFill
    /** The drain loop is over, and what is left has yet to be counted. */
    | Counting
    /** `n` events were counted for the final drop; then dropped. */
    | Counted(n: nat)
    | Discarded(n: nat)
    | Exited

  datatype Worker = Worker(batch: seq<Event>, attempts: nat, db: bool, pc: Pc)

  /** Recorders by where they stand: past the closed check, counted and about to send, uncounted after an overflow. */
  datatype Recorders = Recorders(invalid: nat, checked: multiset<Event>, sending: multiset<Event>,
                                 overflowed: multiset<Event>)

  /** History, not read by the program. */
  datatype Tally = Tally(accepted: multiset<Event>, committed: multiset<Event>, discarded: multiset<Event>,
                         invalid: nat)

  /** `written` counts the queue entries that the final drop has written off. */
  datatype State = State(closed: bool, stop: bool, pending: int, dropped: nat, queue: seq<Event>, written: nat,
                         worker: Worker, rec: Recorders, tally: Tally)

  datatype Step =
    | Check(e: Event) | CheckInvalid | DropInvalid | Count(e: Event) | Send(e: Event)
    | Overflow(e: Event) | DropOverflow(e: Event)
    | Close | CloseStop
    | SeeStop | Take | Flush | Retry(reopened: bool) | Prune(failed: bool)
    | TryWrite(ok: bool) | SettleCommit(maintained: bool) | SettleDrop
    | Head | Fill | CountRest | FinalDrop | FinalSettle

  function Resume(c: Caller): Pc
  {
    if c.Main? then Select else DrainHead
  }

  // ----- recorders: `Record`, `drop`, `Close` -----

  ghost predicate NextRecorder(s: State, a: Step, t: State)
  {
    var r := s.rec;
    match a
    case Check(e) => !s.closed && t == s.(rec := r.(checked := r.checked + multiset{e}))
    case CheckInvalid => !s.closed && t == s.(rec := r.(invalid := r.invalid + 1))
    case DropInvalid =>
      r.invalid > 0 && t == s.(rec := r.(invalid := r.invalid - 1), dropped := s.dropped + 1,
                               tally := s.tally.(invalid := s.tally.invalid + 1))
    case Count(e) =>
      e in r.checked && t == s.(rec := r.(checked := r.checked - multiset{e}, sending := r.sending + multiset{e}),
                                pending := s.pending + 1, tally := s.tally.(accepted := s.tally.accepted + multiset{e}))
    case Send(e) =>
      e in r.sending && |s.queue| < QUEUE_SIZE
      && t == s.(rec := r.(sending := r.sending - multiset{e}), queue := s.queue + [e])
    case Overflow(e) =>
      e in r.sending && |s.queue| >= QUEUE_SIZE
      && t == s.(rec := r.(sending := r.sending - multiset{e}, overflowed := r.overflowed + multiset{e}),
                 pending := s.pending - 1)
    case DropOverflow(e) =>
      e in r.overflowed
      && t == s.(rec := r.(overflowed := r.overflowed - multiset{e}), dropped := s.dropped + 1,
                 tally := s.tally.(discarded := s.tally.discarded + multiset{e}))
    case Close => t == s.(closed := true)
    case CloseStop => s.closed && t == s.(stop := true)
    case _ => false
  }

  // ----- the worker: `run` and its `write` closure -----

  /** The batch is given up: counted as dropped, `pending` to follow. */
  function GiveUp(s: State, c: Caller): State
  {
    s.(dropped := s.dropped + |s.worker.batch|,
       worker := s.worker.(attempts := s.worker.attempts + 1, pc := Dropped(c)),
       tally := s.tally.(discarded := s.tally.discarded + multiset(s.worker.batch)))
  }

  function TakeOne(s: State, pc: Pc): State
    requires s.queue != []
  {
    s.(worker := s.worker.(batch := s.worker.batch + [s.queue[0]], pc := pc), queue := s.queue[1..])
  }

  /** The branches of the event loop's `select`. */
  ghost predicate NextSelect(s: State, a: Step, t: State)
  {
    var w := s.worker;
    && w.pc.Select?
    && match a
       case SeeStop => s.stop && t == s.(worker := w.(pc := Write(Stopping)))
       case Take =>
         && |w.batch| < BATCH_SIZE && s.queue != []
         && t == TakeOne(s, if |w.batch| + 1 == BATCH_SIZE then Write(Main) else Select)
       case Flush => t == s.(worker := w.(pc := Write(Main)))
       case Retry(reopened) =>
         var db := w.db || reopened;
         if db || w.batch == [] then t == s.(worker := w.(db := db, pc := Write(Main)))
         else if w.attempts + 1 >= MAX_ATTEMPTS then t == GiveUp(s, Main)
         else t == s.(worker := w.(attempts := w.attempts + 1))
       case Prune(failed) => t == s.(worker := w.(db := w.db && !failed))
       case _ => false
  }

  /** `pending` follows a decided batch, which is then cleared. */
  function Settled(s: State, db: bool, c: Caller): State
  {
    s.(pending := s.pending - |s.worker.batch|, worker := Worker([], 0, db, Resume(c)))
  }

  /** The `write` closure. */
  ghost predicate NextWrite(s: State, a: Step, t: State)
  {
    var w := s.worker;
    match a
    case TryWrite(ok) =>
      && w.pc.Write?
      && var c := w.pc.caller;
         if w.batch == [] || !w.db then t == s.(worker := w.(pc := Resume(c)))
         else if ok then t == s.(worker := w.(pc := Committed(c)),
                                 tally := s.tally.(committed := s.tally.committed + multiset(w.batch)))
         else if w.attempts + 1 >= MAX_ATTEMPTS then t == GiveUp(s, c)
         else t == s.(worker := w.(attempts := w.attempts + 1, db := false, pc := Resume(c)))
    case SettleCommit(maintained) => w.pc.Committed? && t == Settled(s, maintained, w.pc.caller)
    case SettleDrop => w.pc.Dropped? && t == Settled(s, false, w.pc.caller)
    case _ => false
  }

  /** The shutdown drain and the final drop. */
  ghost predicate NextDrain(s: State, a: Step, t: State)
  {
    var w := s.worker;
    match a
    case Head =>
      && w.pc.DrainHead?
      && t == s.(worker := w.(pc := if s.queue != [] && w.db then DrainFill else Counting))
    case Fill =>
      && w.pc.DrainFill?
      && t == (if |w.batch| < BATCH_SIZE && s.queue != [] then TakeOne(s, DrainFill)
               else s.(worker := w.(pc := Write(Shutdown))))
    case CountRest =>
      w.pc.Counting? && t == s.(worker := w.(pc := Counted(|w.batch| + |s.queue|)))
    case FinalDrop =>
      && w.pc.Counted? && |w.batch| <= w.pc.n <= |w.batch| + |s.queue|
      && var rest := w.pc.n - |w.batch|;
         t == s.(dropped := s.dropped + w.pc.n, written := rest, worker := w.(batch := [], pc := Discarded(w.pc.n)),
                 tally := s.tally.(discarded := s.tally.discarded + multiset(w.batch) + multiset(s.queue[..rest])))
    case FinalSettle =>
      w.pc.Discarded? && t == s.(pending := s.pending - w.pc.n, worker := w.(pc := Exited))
    case _ => false
  }

  ghost predicate NextWorker(s: State, a: Step, t: State)
  {
    NextSelect(s, a, t) || NextWrite(s, a, t) || NextDrain(s, a, t)
  }

  ghost predicate Next(s: State, a: Step, t: State)
  {
    NextRecorder(s, a, t) || NextWorker(s, a, t)
  }

  ghost predicate Init(s: State)
  {
    && !s.closed && !s.stop && s.pending == 0 && s.dropped == 0 && s.queue == [] && s.written == 0
    && s.worker.batch == [] && s.worker.attempts == 0 && s.worker.pc.Select?
    && s.rec == Recorders(0, multiset{}, multiset{}, multiset{})
    && s.tally == Tally(multiset{}, multiset{}, multiset{}, 0)
  }

  // ----- the invariant -----

  /** Queue entries not written off by the final drop. */
  function Live(s: State): seq<Event>
  {
    if s.written <= |s.queue| then s.queue[s.written..] else []
  }

  ghost predicate Decided(w: Worker)
  {
    w.pc.Committed? || w.pc.Dropped?
  }

  /** The batch, while its events are still undecided. */
  ghost function Undecided(w: Worker): seq<Event>
  {
    if Decided(w) then [] else w.batch
  }

  /** What `pending` still has to be lowered by for events already decided. */
  ghost function Owed(w: Worker): nat
  {
    if Decided(w) then |w.batch| else if w.pc.Discarded? then w.pc.n else 0
  }

  /** How often `e` stands somewhere: decided, in the batch or the queue, or with a recorder. */
  ghost function Places(s: State, e: Event): nat
  {
    s.tally.committed[e] + s.tally.discarded[e] + multiset(Undecided(s.worker))[e] + multiset(Live(s))[e]
    + s.rec.sending[e] + s.rec.overflowed[e]
  }

  /** Every accepted event is in exactly one place. */
  ghost predicate Conserved(s: State)
  {
    forall e :: s.tally.accepted[e] == Places(s, e)
  }

  ghost predicate Counters(s: State)
  {
    && s.pending == |Undecided(s.worker)| + |Live(s)| + |s.rec.sending| + Owed(s.worker)
    && s.dropped == |s.tally.discarded| + s.tally.invalid
  }

  ghost predicate InShutdown(w: Worker)
  {
    match w.pc
    case Select => false
    case Write(c) => !c.Main?
    case Committed(c) => !c.Main?
    case Dropped(c) => !c.Main?
    case _ => true
  }

  ghost predicate Over(w: Worker)
  {
    w.pc.Discarded? || w.pc.Exited?
  }

  ghost predicate WorkerOk(w: Worker, queued: nat)
  {
    && |w.batch| <= BATCH_SIZE
    && w.attempts <= MAX_ATTEMPTS && (w.attempts == MAX_ATTEMPTS ==> w.pc.Dropped?)
    && (w.attempts > 0 && !Over(w) ==> w.batch != [])
    && (Decided(w) ==> w.batch != []) && (w.pc.Committed? ==> w.db)
    && (w.pc.DrainFill? ==> w.db && |w.batch| + queued > 0)
    && (w.pc.Write? && w.pc.caller.Shutdown? ==> w.db && w.batch != [])
    && (w.pc.Counted? ==> |w.batch| <= w.pc.n <= |w.batch| + queued)
    && (Over(w) ==> w.batch == [])
  }

  ghost predicate Control(s: State)
  {
    && WorkerOk(s.worker, |s.queue|)
    && |s.queue| <= QUEUE_SIZE && s.written <= |s.queue|
    && (InShutdown(s.worker) ==> s.stop) && (s.stop ==> s.closed)
    && (!Over(s.worker) ==> s.written == 0)
  }

  ghost predicate Inv(s: State)
  {
    Conserved(s) && Counters(s) && Control(s)
  }

  // ----- every step keeps the invariant -----

  lemma RecorderKeepsControl(s: State, a: Step, t: State)
    requires Control(s) && NextRecorder(s, a, t)
    ensures Control(t)
  {
    assert t.worker == s.worker && |t.queue| >= |s.queue|;
  }

  lemma SelectKeepsControl(s: State, a: Step, t: State)
    requires Control(s) && NextSelect(s, a, t)
    ensures Control(t)
  {
  }

  lemma WriteKeepsControl(s: State, a: Step, t: State)
    requires Control(s) && NextWrite(s, a, t)
    ensures Control(t)
  {
  }

  lemma DrainKeepsControl(s: State, a: Step, t: State)
    requires Control(s) && NextDrain(s, a, t)
    ensures Control(t)
  {
  }

  lemma SendKeeps(s: State, e: Event, t: State)
    requires Control(s) && NextRecorder(s, Send(e), t)
    ensures Live(t) == Live(s) + [e]
  {
  }

  /** A recorder's step moves its event from one place to the next. */
  lemma RecorderMoves(s: State, a: Step, t: State, e: Event)
    requires Control(s) && NextRecorder(s, a, t)
    ensures t.tally.accepted[e] - s.tally.accepted[e] == Places(t, e) - Places(s, e)
  {
    if a.Send? {
      SendKeeps(s, a.e, t);
    } else {
      assert Live(t) == Live(s);
      RecorderHolds(s, a, t, e);
    }
  }

  /** Apart from a send, a step of a recorder touches neither queue nor worker. */
  lemma RecorderHolds(s: State, a: Step, t: State, e: Event)
    requires NextRecorder(s, a, t) && !a.Send?
    ensures t.worker == s.worker && t.tally.committed == s.tally.committed
    ensures t.tally.accepted[e] + s.tally.discarded[e] + s.rec.sending[e] + s.rec.overflowed[e]
         == s.tally.accepted[e] + t.tally.discarded[e] + t.rec.sending[e] + t.rec.overflowed[e]
  {
  }

  lemma RecorderKeepsConserved(s: State, a: Step, t: State)
    requires Control(s) && Conserved(s) && NextRecorder(s, a, t)
    ensures Conserved(t)
  {
    forall e ensures t.tally.accepted[e] == Places(t, e) {
      RecorderMoves(s, a, t, e);
    }
  }

  lemma RecorderKeepsCounters(s: State, a: Step, t: State)
    requires Control(s) && Counters(s) && NextRecorder(s, a, t)
    ensures Counters(t)
  {
    if a.Send? {
      SendKeeps(s, a.e, t);
    }
  }

  lemma TakeKeeps(s: State, pc: Pc)
    requires s.queue != [] && s.written == 0 && !Decided(s.worker)
    requires !pc.Committed? && !pc.Dropped?
    ensures var t := TakeOne(s, pc);
            && (forall e :: multiset(Undecided(t.worker))[e] + multiset(Live(t))[e]
                            == multiset(Undecided(s.worker))[e] + multiset(Live(s))[e])
            && |Undecided(t.worker)| + |Live(t)| == |Undecided(s.worker)| + |Live(s)|
  {
    assert s.queue == [s.queue[0]] + s.queue[1..];
    assert Live(s) == s.queue && Live(TakeOne(s, pc)) == s.queue[1..];
  }

  /** Steps that only move the worker, with the batch undecided before and after. */
  lemma MoveKeepsBooks(s: State, t: State)
    requires Conserved(s) && Counters(s) && !Decided(s.worker) && !s.worker.pc.Discarded?
    requires t == s.(worker := t.worker) && t.worker.batch == s.worker.batch
    requires !Decided(t.worker) && !t.worker.pc.Discarded?
    ensures Conserved(t) && Counters(t)
  {
    assert Live(t) == Live(s);
  }

  lemma GiveUpKeepsBooks(s: State, c: Caller)
    requires Conserved(s) && Counters(s) && !Decided(s.worker) && !s.worker.pc.Discarded?
    ensures Conserved(GiveUp(s, c)) && Counters(GiveUp(s, c))
  {
    assert Live(GiveUp(s, c)) == Live(s);
  }

  lemma SelectKeepsBooks(s: State, a: Step, t: State)
    requires Inv(s) && NextSelect(s, a, t)
    ensures Conserved(t) && Counters(t)
  {
    if a.Take? {
      TakeKeeps(s, t.worker.pc);
    } else if t.worker.pc.Dropped? {
      GiveUpKeepsBooks(s, Main);
    } else {
      MoveKeepsBooks(s, t);
    }
  }

  lemma CommitKeepsBooks(s: State, t: State)
    requires Conserved(s) && Counters(s) && s.worker.pc.Write?
    requires t == s.(worker := s.worker.(pc := Committed(s.worker.pc.caller)),
                     tally := s.tally.(committed := s.tally.committed + multiset(s.worker.batch)))
    ensures Conserved(t) && Counters(t)
  {
    assert Live(t) == Live(s);
  }

  lemma SettleKeepsBooks(s: State, db: bool)
    requires Conserved(s) && Counters(s) && Decided(s.worker)
    ensures Conserved(Settled(s, db, s.worker.pc.caller)) && Counters(Settled(s, db, s.worker.pc.caller))
  {
    assert Live(Settled(s, db, s.worker.pc.caller)) == Live(s);
  }

  lemma WriteKeepsBooks(s: State, a: Step, t: State)
    requires Inv(s) && NextWrite(s, a, t)
    ensures Conserved(t) && Counters(t)
  {
    if a.TryWrite? {
      if t.worker.pc.Committed? {
        CommitKeepsBooks(s, t);
      } else if t.worker.pc.Dropped? {
        GiveUpKeepsBooks(s, s.worker.pc.caller);
      } else {
        MoveKeepsBooks(s, t);
      }
    } else {
      SettleKeepsBooks(s, t.worker.db);
    }
  }

  lemma FinalDropKeepsBooks(s: State, t: State)
    requires Inv(s) && NextDrain(s, FinalDrop, t)
    ensures Conserved(t) && Counters(t)
  {
    var rest := s.worker.pc.n - |s.worker.batch|;
    assert s.queue == s.queue[..rest] + s.queue[rest..];
    assert Live(s) == s.queue && Live(t) == s.queue[rest..];
    assert multiset(s.queue) == multiset(s.queue[..rest]) + multiset(s.queue[rest..]);
  }

  lemma DrainKeepsBooks(s: State, a: Step, t: State)
    requires Inv(s) && NextDrain(s, a, t)
    ensures Conserved(t) && Counters(t)
  {
    if a.Fill? && |s.worker.batch| < BATCH_SIZE && s.queue != [] {
      TakeKeeps(s, DrainFill);
    } else if a.FinalDrop? {
      FinalDropKeepsBooks(s, t);
    } else if a.FinalSettle? {
      FinalSettleKeepsBooks(s, t);
    } else {
      MoveKeepsBooks(s, t);
    }
  }

  lemma FinalSettleKeepsBooks(s: State, t: State)
    requires Inv(s) && NextDrain(s, FinalSettle, t)
    ensures Conserved(t) && Counters(t)
  {
    assert Live(t) == Live(s);
  }

  lemma NextKeepsInv(s: State, a: Step, t: State)
    requires Inv(s) && Next(s, a, t)
    ensures Inv(t)
  {
    if NextRecorder(s, a, t) {
      RecorderKeepsControl(s, a, t);
      RecorderKeepsConserved(s, a, t);
      RecorderKeepsCounters(s, a, t);
    } else if NextSelect(s, a, t) {
      SelectKeepsControl(s, a, t);
      SelectKeepsBooks(s, a, t);
    } else if NextWrite(s, a, t) {
      WriteKeepsControl(s, a, t);
      WriteKeepsBooks(s, a, t);
    } else {
      DrainKeepsControl(s, a, t);
      DrainKeepsBooks(s, a, t);
    }
  }

  ghost predicate StepAt(states: seq<State>, steps: seq<Step>, i: nat)
    requires |states| == |steps| + 1 && i < |steps|
  {
    Next(states[i], steps[i], states[i + 1])
  }

  ghost predicate IsRun(states: seq<State>, steps: seq<Step>)
  {
    && |states| == |steps| + 1 && Init(states[0])
    && (forall i :: 0 <= i < |steps| ==> StepAt(states, steps, i))
  }

  lemma InitIsInv(s: State)
    requires Init(s)
    ensures Inv(s)
  {
  }

  lemma {:induction false} RunKeepsInv(states: seq<State>, steps: seq<Step>, i: nat)
    requires IsRun(states, steps) && i < |states|
    ensures Inv(states[i])
  {
    if i == 0 {
      InitIsInv(states[0]);
    } else {
      RunKeepsInv(states, steps, i - 1);
      assert StepAt(states, steps, i - 1);
      NextKeepsInv(states[i - 1], steps[i - 1], states[i]);
    }
  }

  /**
   * Conservation in every interleaving. The accepted events are the committed and the dropped ones and
   * those still pending, exactly: `Owed` and `overflowed` are the decrements that are one step behind.
   * The batch is bounded, and no batch sees more than three failed attempts.
   */
  lemma AnalyticsConservation(states: seq<State>, steps: seq<Step>, i: nat)
    requires IsRun(states, steps) && i < |states|
    ensures var s := states[i];
            && |s.tally.accepted| + s.tally.invalid + Owed(s.worker)
               == |s.tally.committed| + s.dropped + s.pending + |s.rec.overflowed|
            && (!Over(s.worker) ==> s.pending == |s.queue| + |s.worker.batch| + |s.rec.sending|)
            && |s.worker.batch| <= 128 && |s.queue| <= 4096
            && s.worker.attempts <= 3 && (s.worker.attempts == 3 ==> s.worker.pc.Dropped?)
  {
    RunKeepsInv(states, steps, i);
    var s := states[i];
    var held := multiset(Undecided(s.worker)) + multiset(Live(s));
    assert s.tally.accepted == s.tally.committed + s.tally.discarded + held + s.rec.sending + s.rec.overflowed by {
      forall e ensures s.tally.accepted[e] ==
          (s.tally.committed + s.tally.discarded + held + s.rec.sending + s.rec.overflowed)[e] {
        assert s.tally.accepted[e] == Places(s, e);
      }
    }
    assert |multiset(Undecided(s.worker))| == |Undecided(s.worker)| && |multiset(Live(s))| == |Live(s)|;
  }

  /** No accepted event is decided twice: committed and dropped together are at most what was accepted. */
  lemma EventsDecidedOnce(states: seq<State>, steps: seq<Step>, i: nat, e: Event)
    requires IsRun(states, steps) && i < |states|
    ensures states[i].tally.committed[e] + states[i].tally.discarded[e] <= states[i].tally.accepted[e]
  {
    RunKeepsInv(states, steps, i);
  }

  /** After the worker's exit `pending` is what recorders left in the queue behind its back, or will. */
  lemma LeftAfterExit(states: seq<State>, steps: seq<Step>, i: nat)
    requires IsRun(states, steps) && i < |states| && states[i].worker.pc.Exited?
    ensures states[i].pending == |states[i].queue| - states[i].written + |states[i].rec.sending|
  {
    RunKeepsInv(states, steps, i);
  }

  // ----- attempts -----

  /** An attempt to write a batch that failed: the transaction did, or a retry found no database. */
  ghost predicate FailedAttempt(s: State, a: Step)
  {
    var w := s.worker;
    && w.batch != []
    && ((w.pc.Write? && w.db && a == TryWrite(false)) || (w.pc.Select? && !w.db && a == Retry(false)))
  }

  /** An attempt that succeeded. */
  ghost predicate GoodAttempt(s: State, a: Step)
  {
    s.worker.batch != [] && s.worker.pc.Write? && s.worker.db && a == TryWrite(true)
  }

  /** How many attempts had failed by state `j` since the last batch was settled. */
  ghost function Failures(states: seq<State>, steps: seq<Step>, j: nat): nat
    requires j <= |steps| && |states| == |steps| + 1
  {
    if j == 0 || steps[j - 1].SettleCommit? || steps[j - 1].SettleDrop? then 0
    else Failures(states, steps, j - 1) + (if FailedAttempt(states[j - 1], steps[j - 1]) then 1 else 0)
  }

  /** The worker's own count follows. */
  ghost predicate AttemptsFollow(s: State, a: Step, t: State)
  {
    t.worker.attempts ==
    if a.SettleCommit? || a.SettleDrop? then 0 else s.worker.attempts + (if FailedAttempt(s, a) then 1 else 0)
  }

  lemma SelectAttempts(s: State, a: Step, t: State)
    requires NextSelect(s, a, t)
    ensures AttemptsFollow(s, a, t)
  {
  }

  lemma WriteAttempts(s: State, a: Step, t: State)
    requires NextWrite(s, a, t)
    ensures AttemptsFollow(s, a, t)
  {
  }

  lemma DrainAttempts(s: State, a: Step, t: State)
    requires NextDrain(s, a, t)
    ensures AttemptsFollow(s, a, t)
  {
  }

  lemma NextAttempts(s: State, a: Step, t: State)
    requires Next(s, a, t)
    ensures AttemptsFollow(s, a, t)
  {
    if NextRecorder(s, a, t) {
      assert t.worker == s.worker;
    } else if NextSelect(s, a, t) {
      SelectAttempts(s, a, t);
    } else if NextWrite(s, a, t) {
      WriteAttempts(s, a, t);
    } else {
      DrainAttempts(s, a, t);
    }
  }

  lemma {:induction false} AttemptsAreFailures(states: seq<State>, steps: seq<Step>, j: nat)
    requires IsRun(states, steps) && j < |states|
    ensures states[j].worker.attempts == Failures(states, steps, j)
  {
    if j > 0 {
      AttemptsAreFailures(states, steps, j - 1);
      assert StepAt(states, steps, j - 1);
      NextAttempts(states[j - 1], steps[j - 1], states[j]);
    }
  }

  /** The events that the step drops, given how many attempts on the batch have failed after it. */
  ghost function Drops(s: State, a: Step, failures: nat): multiset<Event>
  {
    var w := s.worker;
    if a.DropOverflow? then multiset{a.e}
    else if a.FinalDrop? && w.pc.Counted? && |w.batch| <= w.pc.n <= |w.batch| + |s.queue| then
      multiset(w.batch) + multiset(s.queue[..w.pc.n - |w.batch|])
    else if FailedAttempt(s, a) && failures == 3 then multiset(w.batch)
    else multiset{}
  }

  /** Exactly these are dropped, and exactly a batch whose attempt succeeds is committed. */
  ghost predicate Tallied(s: State, a: Step, t: State, failures: nat)
  {
    && t.tally.discarded == s.tally.discarded + Drops(s, a, failures)
    && t.tally.committed ==
       s.tally.committed + if GoodAttempt(s, a) then multiset(s.worker.batch) else multiset{}
  }

  lemma RecorderTallies(s: State, a: Step, t: State)
    requires NextRecorder(s, a, t)
    ensures Tallied(s, a, t, t.worker.attempts)
  {
  }

  lemma SelectTallies(s: State, a: Step, t: State)
    requires Control(s) && NextSelect(s, a, t)
    ensures Tallied(s, a, t, t.worker.attempts)
  {
  }

  lemma WriteTallies(s: State, a: Step, t: State)
    requires Control(s) && NextWrite(s, a, t)
    ensures Tallied(s, a, t, t.worker.attempts)
  {
  }

  lemma DrainTallies(s: State, a: Step, t: State)
    requires NextDrain(s, a, t)
    ensures Tallied(s, a, t, t.worker.attempts)
  {
  }

  lemma NextTallies(s: State, a: Step, t: State)
    requires Control(s) && Next(s, a, t)
    ensures Tallied(s, a, t, t.worker.attempts)
  {
    if NextRecorder(s, a, t) {
      RecorderTallies(s, a, t);
    } else if NextSelect(s, a, t) {
      SelectTallies(s, a, t);
    } else if NextWrite(s, a, t) {
      WriteTallies(s, a, t);
    } else {
      DrainTallies(s, a, t);
    }
  }

  /** Only a settled batch, or the final drop, is taken from the worker. */
  ghost predicate KeepsBatch(s: State, a: Step, t: State)
  {
    a.SettleCommit? || a.SettleDrop? || a.FinalDrop? || s.worker.batch <= t.worker.batch
  }

  lemma NextBatch(s: State, a: Step, t: State)
    requires Next(s, a, t)
    ensures KeepsBatch(s, a, t)
  {
    if NextRecorder(s, a, t) {
      assert t.worker == s.worker;
    } else if NextSelect(s, a, t) {
      assert s.worker.batch <= t.worker.batch;
    }
  }

  lemma NextAttempt(s: State, a: Step, t: State)
    requires Inv(s) && Next(s, a, t)
    ensures t.worker.attempts <= 3 && Tallied(s, a, t, t.worker.attempts)
    ensures KeepsBatch(s, a, t)
  {
    NextKeepsInv(s, a, t);
    NextTallies(s, a, t);
    NextBatch(s, a, t);
  }

  /**
   * A batch gets three attempts. Before shutdown's final drop the worker drops a batch exactly at the third attempt
   * that failed since the last batch was settled, and any attempt that succeeds commits it; until then it keeps it.
   * The only other drops are overflows.
   */
  lemma ThreeAttempts(states: seq<State>, steps: seq<Step>, j: nat)
    requires IsRun(states, steps) && j < |steps|
    ensures var s, t, a := states[j], states[j + 1], steps[j];
            && Failures(states, steps, j + 1) <= 3
            && Tallied(s, a, t, Failures(states, steps, j + 1))
            && KeepsBatch(s, a, t)
  {
    RunKeepsInv(states, steps, j);
    AttemptsAreFailures(states, steps, j + 1);
    assert StepAt(states, steps, j);
    NextAttempt(states[j], steps[j], states[j + 1]);
  }

  // ----- when the worker has a database -----

  /** It loses it only by a failure, and gets it back only from a retry that opened it. */
  ghost predicate DatabaseFollows(s: State, a: Step, t: State)
  {
    && (s.worker.db && !t.worker.db ==>
          a == TryWrite(false) || a == SettleDrop || a == SettleCommit(false) || a == Prune(true))
    && (!s.worker.db && t.worker.db ==> a == Retry(true))
    && (a == Retry(true) && s.worker.pc.Select? ==> t.worker.db && t.worker.pc == Write(Main))
  }

  lemma SelectDatabase(s: State, a: Step, t: State)
    requires NextSelect(s, a, t)
    ensures DatabaseFollows(s, a, t)
  {
  }

  lemma WriteDatabase(s: State, a: Step, t: State)
    requires Control(s) && NextWrite(s, a, t)
    ensures DatabaseFollows(s, a, t)
  {
  }

  /** In every run, and what a retry reopened is written to at once. */
  lemma DatabaseIsUsed(states: seq<State>, steps: seq<Step>, j: nat)
    requires IsRun(states, steps) && j < |steps|
    ensures DatabaseFollows(states[j], steps[j], states[j + 1])
  {
    var s, a, t := states[j], steps[j], states[j + 1];
    RunKeepsInv(states, steps, j);
    assert StepAt(states, steps, j);
    if NextSelect(s, a, t) {
      SelectDatabase(s, a, t);
    } else if NextWrite(s, a, t) {
      WriteDatabase(s, a, t);
    } else {
      assert t.worker.db == s.worker.db;
    }
  }

  // ----- order, and when the worker waits -----

  /** The events that recorders have put into the queue, in order. */
  ghost function Sent(steps: seq<Step>, j: nat): seq<Event>
    requires j <= |steps|
  {
    if j == 0 then [] else Sent(steps, j - 1) + SentBy(steps[j - 1])
  }

  ghost predicate IsSuffix(xs: seq<Event>, ys: seq<Event>)
  {
    |xs| <= |ys| && ys[|ys| - |xs|..] == xs
  }

  /** The batch and the queue behind it. */
  function Line(s: State): seq<Event>
  {
    s.worker.batch + s.queue
  }

  function SentBy(a: Step): seq<Event>
  {
    if a.Send? then [a.e] else []
  }

  lemma RecorderLine(s: State, a: Step, t: State)
    requires NextRecorder(s, a, t)
    ensures Line(t) == Line(s) + SentBy(a)
  {
  }

  lemma SelectLine(s: State, a: Step, t: State)
    requires NextSelect(s, a, t)
    ensures Line(t) == Line(s) + SentBy(a)
  {
    if a.Take? {
      assert s.queue == [s.queue[0]] + s.queue[1..];
    }
  }

  lemma WriteLine(s: State, a: Step, t: State)
    requires NextWrite(s, a, t)
    ensures IsSuffix(Line(t), Line(s) + SentBy(a))
  {
    assert t.queue == s.queue;
    if a.TryWrite? {
      assert Line(t) == Line(s);
    } else {
      assert Line(t) == Line(s)[|s.worker.batch|..];
    }
    assert Line(s) + SentBy(a) == Line(s);
  }

  lemma FillLine(s: State, t: State)
    requires NextDrain(s, Fill, t)
    ensures Line(t) == Line(s)
  {
    if t.queue != s.queue {
      assert s.queue == [s.queue[0]] + s.queue[1..];
    }
  }

  lemma FinalDropLine(s: State, t: State)
    requires NextDrain(s, FinalDrop, t)
    ensures IsSuffix(Line(t), Line(s))
  {
    assert t.worker.batch == [] && t.queue == s.queue;
    assert Line(s)[|s.worker.batch|..] == s.queue == Line(t);
  }

  lemma DrainLine(s: State, a: Step, t: State)
    requires NextDrain(s, a, t)
    ensures IsSuffix(Line(t), Line(s) + SentBy(a))
  {
    assert Line(s) + SentBy(a) == Line(s);
    if a.Fill? {
      FillLine(s, t);
    } else if a.FinalDrop? {
      FinalDropLine(s, t);
    }
  }

  lemma NextLine(s: State, a: Step, t: State)
    requires Next(s, a, t)
    ensures IsSuffix(Line(t), Line(s) + SentBy(a))
  {
    if NextRecorder(s, a, t) {
      RecorderLine(s, a, t);
    } else if NextSelect(s, a, t) {
      SelectLine(s, a, t);
    } else if NextWrite(s, a, t) {
      WriteLine(s, a, t);
    } else {
      DrainLine(s, a, t);
    }
  }

  lemma SuffixOfSuffix(xs: seq<Event>, ys: seq<Event>, zs: seq<Event>, more: seq<Event>)
    requires IsSuffix(xs, ys + more) && IsSuffix(ys, zs)
    ensures IsSuffix(xs, zs + more)
  {
    var all := zs + more;
    assert all[|all| - |ys + more|..] == ys + more;
    assert all[|all| - |xs|..] == (ys + more)[|ys + more| - |xs|..];
  }

  lemma LineAt(states: seq<State>, steps: seq<Step>, n: nat)
    requires IsRun(states, steps) && n < |steps|
    ensures IsSuffix(Line(states[n + 1]), Line(states[n]) + SentBy(steps[n]))
  {
    assert StepAt(states, steps, n);
    NextLine(states[n], steps[n], states[n + 1]);
  }

  /** First in, first out: what the batch and the queue hold are the events sent last, in order. */
  lemma {:induction false} FirstInFirstOut(states: seq<State>, steps: seq<Step>, j: nat)
    requires IsRun(states, steps) && j < |states|
    ensures IsSuffix(Line(states[j]), Sent(steps, j))
  {
    if j > 0 {
      FirstInFirstOut(states, steps, j - 1);
      LineAt(states, steps, j - 1);
      SuffixOfSuffix(Line(states[j]), Line(states[j - 1]), Sent(steps, j - 1), SentBy(steps[j - 1]));
    }
  }

  /** A full batch waits in the event loop only for want of a database. */
  ghost predicate WaitsForDatabase(w: Worker)
  {
    w.pc.Select? && |w.batch| == 128 ==> !w.db
  }

  lemma NextWaits(s: State, a: Step, t: State)
    requires Control(s) && Next(s, a, t) && WaitsForDatabase(s.worker)
    ensures WaitsForDatabase(t.worker)
  {
    if NextRecorder(s, a, t) {
      assert t.worker == s.worker;
    } else if NextSelect(s, a, t) {
      SelectWaits(s, a, t);
    }
  }

  lemma SelectWaits(s: State, a: Step, t: State)
    requires NextSelect(s, a, t) && WaitsForDatabase(s.worker)
    ensures WaitsForDatabase(t.worker)
  {
  }

  lemma {:induction false} FullBatchIsWritten(states: seq<State>, steps: seq<Step>, j: nat)
    requires IsRun(states, steps) && j < |states|
    ensures WaitsForDatabase(states[j].worker)
  {
    if j > 0 {
      FullBatchIsWritten(states, steps, j - 1);
      RunKeepsInv(states, steps, j - 1);
      assert StepAt(states, steps, j - 1);
      NextWaits(states[j - 1], steps[j - 1], states[j]);
    }
  }

  /**
   * A recorder never blocks: it can send unless 4096 events are queued, and only then can it drop its event. The
   * drain stops exactly when the queue is empty or the database gone, and writes once 128 events are taken or none
   * is left.
   */
  lemma QueueIsUsed(s: State, e: Event)
    requires Control(s)
    ensures e in s.rec.sending ==>
              if |s.queue| < 4096 then
                (exists t :: NextRecorder(s, Send(e), t)) && forall t :: !NextRecorder(s, Overflow(e), t)
              else
                (exists t :: NextRecorder(s, Overflow(e), t)) && forall t :: !NextRecorder(s, Send(e), t)
    ensures forall t :: NextDrain(s, Head, t) ==> (t.worker.pc.Counting? <==> s.queue == [] || !s.worker.db)
    ensures forall t :: NextDrain(s, Fill, t) ==>
              (t.worker.pc.Write? <==> |s.worker.batch| == 128 || s.queue == [])
  {
    var r := s.rec;
    if e in r.sending {
      if |s.queue| < 4096 {
        var t := s.(rec := r.(sending := r.sending - multiset{e}), queue := s.queue + [e]);
        assert NextRecorder(s, Send(e), t);
      } else {
        var t := s.(rec := r.(sending := r.sending - multiset{e}, overflowed := r.overflowed + multiset{e}),
                    pending := s.pending - 1);
        assert NextRecorder(s, Overflow(e), t);
      }
    }
  }

  // ----- shutdown -----

  function Rank(pc: Pc): nat
  {
    match pc
    case Write(c) => if c.Shutdown? then 2 else 5
    case Committed(_) => 1
    case Dropped(_) => 1
    case DrainHead => 4
    case DrainFill => 3
    case Counting => 3
    case Counted(_) => 2
    case Discarded(_) => 1
    case _ => 0
  }

  ghost function WorkerWork(w: Worker): nat
  {
    5 * |w.batch| + (if w.db then 10 else 0) + Rank(w.pc)
  }

  ghost function RecorderWork(r: Recorders): nat
  {
    20 * |r.checked| + 15 * |r.sending| + |r.overflowed| + r.invalid
  }

  /** Falls with every step once the worker has seen the stop signal. */
  ghost function Remaining(s: State): nat
  {
    RecorderWork(s.rec) + 10 * |s.queue| + WorkerWork(s.worker)
  }

  lemma RecorderStepFalls(s: State, a: Step, t: State)
    requires s.closed && s.stop && NextRecorder(s, a, t) && t != s
    ensures t.worker == s.worker && Remaining(t) < Remaining(s)
  {
    if a.Send? {
      SendFalls(s, a.e, t);
    }
  }

  lemma SendFalls(s: State, e: Event, t: State)
    requires NextRecorder(s, Send(e), t)
    ensures t.worker == s.worker && Remaining(t) < Remaining(s)
  {
    assert |s.rec.sending - multiset{e}| == |s.rec.sending| - 1;
  }

  lemma WorkerStepFalls(s: State, a: Step, t: State)
    requires Control(s) && InShutdown(s.worker) && NextWorker(s, a, t)
    ensures InShutdown(t.worker) && t.rec == s.rec
    ensures 10 * |t.queue| + WorkerWork(t.worker) < 10 * |s.queue| + WorkerWork(s.worker)
  {
  }

  /** A repeated `Close` changes nothing; every other step of a shutdown brings its end closer. */
  lemma ShutdownStepFalls(s: State, a: Step, t: State)
    requires Control(s) && InShutdown(s.worker) && Next(s, a, t) && t != s
    ensures InShutdown(t.worker) && Remaining(t) < Remaining(s)
  {
    if NextRecorder(s, a, t) {
      RecorderStepFalls(s, a, t);
    } else {
      WorkerStepFalls(s, a, t);
    }
  }

  /** The shutdown drain ends: from the stop signal on, a run has at most `Remaining` effective steps. */
  lemma {:induction false} ShutdownEnds(states: seq<State>, steps: seq<Step>, i: nat, j: nat)
    requires IsRun(states, steps) && i <= j < |states| && InShutdown(states[i].worker)
    requires forall n :: i <= n < j ==> states[n] != states[n + 1]
    ensures InShutdown(states[j].worker) && Remaining(states[j]) + (j - i) <= Remaining(states[i])
  {
    if i < j {
      ShutdownEnds(states, steps, i, j - 1);
      ShutdownStepAt(states, steps, j - 1);
    }
  }

  lemma ShutdownStepAt(states: seq<State>, steps: seq<Step>, j: nat)
    requires IsRun(states, steps) && j < |steps| && InShutdown(states[j].worker) && states[j] != states[j + 1]
    ensures InShutdown(states[j + 1].worker) && Remaining(states[j + 1]) < Remaining(states[j])
  {
    RunKeepsInv(states, steps, j);
    assert StepAt(states, steps, j);
    ShutdownStepFalls(states[j], steps[j], states[j + 1]);
  }

  /** Until it exits, the worker of a shutdown always has a next step. */
  lemma ShutdownNeverStuck(s: State) returns (a: Step, t: State)
    requires Control(s) && InShutdown(s.worker) && !s.worker.pc.Exited?
    ensures NextWorker(s, a, t)
  {
    var w := s.worker;
    match w.pc
    case Write(c) =>
      a := TryWrite(true);
      t := if w.batch == [] || !w.db then s.(worker := w.(pc := Resume(c)))
           else s.(worker := w.(pc := Committed(c)),
                   tally := s.tally.(committed := s.tally.committed + multiset(w.batch)));
      assert NextWrite(s, a, t);
    case Committed(c) =>
      a, t := SettleCommit(true), Settled(s, true, c);
      assert NextWrite(s, a, t);
    case Dropped(c) =>
      a, t := SettleDrop, Settled(s, false, c);
      assert NextWrite(s, a, t);
    case DrainHead =>
      a := Head;
      t := s.(worker := w.(pc := if s.queue != [] && w.db then DrainFill else Counting));
      assert NextDrain(s, a, t);
    case DrainFill =>
      a := Fill;
      t := if |w.batch| < BATCH_SIZE && s.queue != [] then TakeOne(s, DrainFill)
          else s.(worker := w.(pc := Write(Shutdown)));
      assert NextDrain(s, a, t);
    case Counting =>
      a, t := CountRest, s.(worker := w.(pc := Counted(|w.batch| + |s.queue|)));
      assert NextDrain(s, a, t);
    case Counted(n) =>
      var rest := n - |w.batch|;
      a := FinalDrop;
      t := s.(dropped := s.dropped + n, written := rest, worker := w.(batch := [], pc := Discarded(n)),
              tally := s.tally.(discarded := s.tally.discarded + multiset(w.batch) + multiset(s.queue[..rest])));
      assert NextDrain(s, a, t);
    case Discarded(n) =>
      a, t := FinalSettle, s.(pending := s.pending - n, worker := w.(pc := Exited));
      assert NextDrain(s, a, t);
  }
}
