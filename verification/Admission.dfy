/**
 * SMTP connection admission: session slots and per-source counts, acquired and released in separate
 * steps by any number of connections.
 */
module Admission {
  import opened Sums

  type Conn = nat

  /** Where a connection stands. Only `Admitted` connections were returned by `Accept`. */
  datatype Stage =
    | HoldsSlot(source: string)    // took a slot, source not yet counted
    | Rejected(source: string)     // over the per-source limit, slot not yet given back
    | Admitted(source: string)
    | Released(source: string)     // source uncounted by `Close`, slot not yet given back
    | Gone

  datatype State = State(slots: nat, sources: map<string, nat>, conns: map<Conn, Stage>)

  datatype Step =
    | TakeSlot(c: Conn, source: string)
    | RefuseGlobal(c: Conn)
    | AcquireSource(c: Conn)
    | GiveBackRejected(c: Conn)
    | ReleaseSource(c: Conn)
    | GiveBackReleased(c: Conn)
    | CloseAgain(c: Conn)

  // ----- acquireSource and releaseSource, each under the mutex -----

  function CountOf(sources: map<string, nat>, source: string): nat
  {
    if source in sources then sources[source] else 0
  }

  /** A limit of zero or less means no limit per source. */
  predicate Blocked(sources: map<string, nat>, source: string, perIP: int)
  {
    perIP > 0 && CountOf(sources, source) >= perIP
  }

  function Acquire(sources: map<string, nat>, source: string): map<string, nat>
  {
    sources[source := CountOf(sources, source) + 1]
  }

  function Release(sources: map<string, nat>, source: string): map<string, nat>
  {
    if CountOf(sources, source) <= 1 then sources - {source}
    else sources[source := sources[source] - 1]
  }

  // ----- steps -----

  ghost predicate Next(capacity: nat, perIP: int, s: State, a: Step, t: State)
  {
    match a
    case TakeSlot(c, source) =>
      c !in s.conns && s.slots < capacity
      && t == s.(slots := s.slots + 1, conns := s.conns[c := HoldsSlot(source)])
    case RefuseGlobal(c) =>
      c !in s.conns && s.slots >= capacity && t == s.(conns := s.conns[c := Gone])
    case AcquireSource(c) =>
      && c in s.conns && s.conns[c].HoldsSlot?
      && var source := s.conns[c].source;
         t == if Blocked(s.sources, source, perIP) then s.(conns := s.conns[c := Rejected(source)])
              else s.(sources := Acquire(s.sources, source), conns := s.conns[c := Admitted(source)])
    case GiveBackRejected(c) =>
      c in s.conns && s.conns[c].Rejected? && s.slots > 0 && t == s.(slots := s.slots - 1, conns := s.conns[c := Gone])
    case ReleaseSource(c) =>
      && c in s.conns && s.conns[c].Admitted?
      && t == s.(sources := Release(s.sources, s.conns[c].source), conns := s.conns[c := Released(s.conns[c].source)])
    case GiveBackReleased(c) =>
      c in s.conns && s.conns[c].Released? && s.slots > 0 && t == s.(slots := s.slots - 1, conns := s.conns[c := Gone])
    case CloseAgain(c) =>
      c in s.conns && (s.conns[c].Released? || s.conns[c].Gone?) && t == s
  }

  // ----- the invariant -----

  ghost function AdmittedFrom(conns: map<Conn, Stage>, source: string): set<Conn>
  {
    set c | c in conns && conns[c] == Admitted(source)
  }

  ghost function Occupying(conns: map<Conn, Stage>): set<Conn>
  {
    set c | c in conns && !conns[c].Gone?
  }

  ghost function AllAdmitted(conns: map<Conn, Stage>): set<Conn>
  {
    set c | c in conns && conns[c].Admitted?
  }

  ghost predicate Inv(capacity: nat, perIP: int, s: State)
  {
    && (forall source :: CountOf(s.sources, source) == |AdmittedFrom(s.conns, source)|)
    && (forall source :: source in s.sources ==> s.sources[source] > 0 && (perIP > 0 ==> s.sources[source] <= perIP))
    && s.slots == |Occupying(s.conns)| && s.slots <= capacity
  }

  /** Changing one connection changes the set of one source by that connection. */
  lemma AdmittedAfter(conns: map<Conn, Stage>, c: Conn, st: Stage, source: string)
    ensures AdmittedFrom(conns[c := st], source)
            == if st == Admitted(source) then AdmittedFrom(conns, source) + {c} else AdmittedFrom(conns, source) - {c}
  {
  }

  lemma OccupyingAfter(conns: map<Conn, Stage>, c: Conn, st: Stage)
    ensures Occupying(conns[c := st]) == if st.Gone? then Occupying(conns) - {c} else Occupying(conns) + {c}
  {
  }

  lemma AcquireKeeps(capacity: nat, perIP: int, s: State, c: Conn, t: State)
    requires Inv(capacity, perIP, s) && Next(capacity, perIP, s, AcquireSource(c), t)
    ensures Inv(capacity, perIP, t)
  {
    OccupyingAfter(s.conns, c, t.conns[c]);
    assert Occupying(t.conns) == Occupying(s.conns);
    forall source ensures CountOf(t.sources, source) == |AdmittedFrom(t.conns, source)| {
      AcquireCounts(capacity, perIP, s, c, t, source);
    }
  }

  lemma AcquireCounts(capacity: nat, perIP: int, s: State, c: Conn, t: State, source: string)
    requires Inv(capacity, perIP, s) && Next(capacity, perIP, s, AcquireSource(c), t)
    ensures CountOf(t.sources, source) == |AdmittedFrom(t.conns, source)|
  {
    AdmittedAfter(s.conns, c, t.conns[c], source);
    assert CountOf(s.sources, source) == |AdmittedFrom(s.conns, source)|;
  }

  lemma ReleaseKeeps(capacity: nat, perIP: int, s: State, c: Conn, t: State)
    requires Inv(capacity, perIP, s) && Next(capacity, perIP, s, ReleaseSource(c), t)
    ensures Inv(capacity, perIP, t)
  {
    OccupyingAfter(s.conns, c, t.conns[c]);
    assert Occupying(t.conns) == Occupying(s.conns);
    forall source ensures CountOf(t.sources, source) == |AdmittedFrom(t.conns, source)| {
      AdmittedAfter(s.conns, c, t.conns[c], source);
      if source == s.conns[c].source {
        assert c in AdmittedFrom(s.conns, source);
      }
    }
  }

  lemma SlotStepKeeps(capacity: nat, perIP: int, s: State, a: Step, t: State)
    requires Inv(capacity, perIP, s) && Next(capacity, perIP, s, a, t)
    requires !a.AcquireSource? && !a.ReleaseSource? && !a.CloseAgain?
    ensures Inv(capacity, perIP, t)
  {
    OccupyingAfter(s.conns, a.c, t.conns[a.c]);
    forall source ensures AdmittedFrom(t.conns, source) == AdmittedFrom(s.conns, source) {
      AdmittedAfter(s.conns, a.c, t.conns[a.c], source);
    }
  }

  lemma NextKeepsInv(capacity: nat, perIP: int, s: State, a: Step, t: State)
    requires Inv(capacity, perIP, s) && Next(capacity, perIP, s, a, t)
    ensures Inv(capacity, perIP, t)
  {
    if a.AcquireSource? {
      AcquireKeeps(capacity, perIP, s, a.c, t);
    } else if a.ReleaseSource? {
      ReleaseKeeps(capacity, perIP, s, a.c, t);
    } else if !a.CloseAgain? {
      SlotStepKeeps(capacity, perIP, s, a, t);
    }
  }

  ghost predicate StepAt(capacity: nat, perIP: int, states: seq<State>, steps: seq<Step>, i: nat)
    requires |states| == |steps| + 1 && i < |steps|
  {
    Next(capacity, perIP, states[i], steps[i], states[i + 1])
  }

  ghost predicate IsRun(capacity: nat, perIP: int, states: seq<State>, steps: seq<Step>)
  {
    && |states| == |steps| + 1 && states[0] == State(0, map[], map[])
    && (forall i :: 0 <= i < |steps| ==> StepAt(capacity, perIP, states, steps, i))
  }

  lemma {:induction false} RunKeepsInv(capacity: nat, perIP: int, states: seq<State>, steps: seq<Step>, i: nat)
    requires IsRun(capacity, perIP, states, steps) && i < |states|
    ensures Inv(capacity, perIP, states[i])
  {
    if i > 0 {
      RunKeepsInv(capacity, perIP, states, steps, i - 1);
      assert StepAt(capacity, perIP, states, steps, i - 1);
      NextKeepsInv(capacity, perIP, states[i - 1], steps[i - 1], states[i]);
    } else {
      assert forall source :: AdmittedFrom(map[], source) == {};
      assert Occupying(map[]) == {};
    }
  }

  // ----- slots against counts -----

  ghost predicate CountsAgree(sources: map<string, nat>, conns: map<Conn, Stage>)
  {
    forall source :: CountOf(sources, source) == |AdmittedFrom(conns, source)|
  }

  lemma NoneCounted(conns: map<Conn, Stage>)
    requires CountsAgree(map[], conns)
    ensures AllAdmitted(conns) == {}
  {
    forall source ensures AdmittedFrom(conns, source) == {} {
      assert |AdmittedFrom(conns, source)| == CountOf(map[], source) == 0;
    }
    forall c | c in conns ensures !conns[c].Admitted? {
      assert conns[c].Admitted? ==> c in AdmittedFrom(conns, conns[c].source);
    }
  }

  ghost function Others(conns: map<Conn, Stage>, src: string): map<Conn, Stage>
  {
    map c | c in conns && conns[c] != Admitted(src) :: conns[c]
  }

  /** Setting one source and its connections aside leaves the other counts right. */
  lemma OthersAgree(sources: map<string, nat>, conns: map<Conn, Stage>, src: string)
    requires CountsAgree(sources, conns) && src in sources
    ensures CountsAgree(sources - {src}, Others(conns, src))
    ensures |AllAdmitted(conns)| == |AllAdmitted(Others(conns, src))| + sources[src]
  {
    var others := Others(conns, src);
    forall source ensures CountOf(sources - {src}, source) == |AdmittedFrom(others, source)| {
      if source == src {
        assert AdmittedFrom(others, src) == {};
      } else {
        assert AdmittedFrom(others, source) == AdmittedFrom(conns, source);
      }
    }
    assert AllAdmitted(conns) == AllAdmitted(others) + AdmittedFrom(conns, src);
    assert CountOf(sources, src) == |AdmittedFrom(conns, src)|;
  }

  lemma {:induction false} CountsAddUp(sources: map<string, nat>, conns: map<Conn, Stage>)
    requires CountsAgree(sources, conns)
    ensures Sum(sources) == |AllAdmitted(conns)|
    decreases |sources|
  {
    if sources == map[] {
      NoneCounted(conns);
    } else {
      var src :| src in sources;
      OthersAgree(sources, conns, src);
      CountsAddUp(sources - {src}, Others(conns, src));
      SumRemove(sources, src);
    }
  }

  /** Connections between the two halves of an acquire or of a release. */
  ghost function Midway(conns: map<Conn, Stage>): set<Conn>
  {
    set c | c in conns && !conns[c].Gone? && !conns[c].Admitted?
  }

  /**
   * In every interleaving each source count is the number of its admitted, unreleased connections, is
   * never stored as zero and never above a positive limit; the occupied slots are the counts and the
   * connections midway, at most the capacity; when every connection is gone, nothing is left; and a
   * connection that has a slot to give back always finds one taken, so giving it back never blocks.
   */
  lemma AdmissionAccounts(capacity: nat, perIP: int, states: seq<State>, steps: seq<Step>, i: nat)
    requires IsRun(capacity, perIP, states, steps) && i < |states|
    ensures var s := states[i];
            && (forall source :: CountOf(s.sources, source) == |AdmittedFrom(s.conns, source)|)
            && (forall source :: source in s.sources ==>
                  s.sources[source] > 0 && (perIP > 0 ==> s.sources[source] <= perIP))
            && s.slots == Sum(s.sources) + |Midway(s.conns)| <= capacity
            && ((forall c :: c in s.conns ==> s.conns[c].Gone?) ==> s.slots == 0 && s.sources == map[])
            && (forall c :: c in s.conns && !s.conns[c].Gone? ==> s.slots > 0)
  {
    var s := states[i];
    RunKeepsInv(capacity, perIP, states, steps, i);
    CountsAddUp(s.sources, s.conns);
    assert Occupying(s.conns) == AllAdmitted(s.conns) + Midway(s.conns);
    forall c | c in s.conns && !s.conns[c].Gone? ensures s.slots > 0 {
      assert c in Occupying(s.conns);
    }
    if forall c :: c in s.conns ==> s.conns[c].Gone? {
      assert Occupying(s.conns) == {};
      forall source ensures source !in s.sources {
        assert AdmittedFrom(s.conns, source) == {};
      }
    }
  }

  /**
   * Nobody is turned away without need: in every interleaving a source is refused if and only if as many of its own
   * connections as a positive limit allows are admitted at that moment, and a connection is refused altogether only
   * when every slot is taken. A decision touches no other connection.
   */
  lemma AdmissionDecides(capacity: nat, perIP: int, states: seq<State>, steps: seq<Step>, i: nat)
    requires IsRun(capacity, perIP, states, steps) && i < |steps|
    ensures var s, t, a := states[i], states[i + 1], steps[i];
            && (a.AcquireSource? ==>
                  && a.c in s.conns && s.conns[a.c].HoldsSlot?
                  && var source := s.conns[a.c].source;
                     t.conns == s.conns[a.c := if perIP <= 0 || |AdmittedFrom(s.conns, source)| < perIP
                                               then Admitted(source) else Rejected(source)])
            && (a.RefuseGlobal? ==> |Occupying(s.conns)| == capacity && t.conns == s.conns[a.c := Gone])
            && (a.TakeSlot? ==> |Occupying(s.conns)| < capacity && t.conns == s.conns[a.c := HoldsSlot(a.source)])
  {
    var s := states[i];
    RunKeepsInv(capacity, perIP, states, steps, i);
    assert StepAt(capacity, perIP, states, steps, i);
    if steps[i].AcquireSource? {
      assert CountOf(s.sources, s.conns[steps[i].c].source) == |AdmittedFrom(s.conns, s.conns[steps[i].c].source)|;
    }
  }

  // ----- the server's table -----

  class SourceTable {
    const perIP: int
    var sources: map<string, nat>

    constructor (perIP: int)
      ensures this.perIP == perIP && sources == map[]
    {
      this.perIP, sources := perIP, map[];
    }

    /** `acquireSource`. */
    method AcquireSource(source: string) returns (ok: bool)
      modifies this
      ensures ok == !Blocked(old(sources), source, perIP)
      ensures ok <==> perIP <= 0 || source !in old(sources) || old(sources)[source] < perIP
      ensures sources == if ok then Acquire(old(sources), source) else old(sources)
    {
      var n := if source in sources then sources[source] else 0;
      if perIP > 0 && n >= perIP { return false; }
      sources := sources[source := n + 1];
      ok := true;
    }

    /** `releaseSource`. */
    method ReleaseSource(source: string)
      modifies this
      ensures sources == Release(old(sources), source)
    {
      var n := if source in sources then sources[source] else 0;
      if n <= 1 {
        sources := sources - {source};
      } else {
        sources := sources[source := n - 1];
      }
    }
  }
}
