/** The traffic chart of the admin overview: equal buckets over one time window, in milliseconds. */
module Buckets {

  import opened Options

  const HOUR: int := 3_600_000

  function Window(query: string): Option<int>
  {
    if query == "" || query == "24h" then Some(24 * HOUR)
    else if query == "1h" then Some(HOUR)
    else if query == "7d" then Some(7 * 24 * HOUR)
    else if query == "30d" then Some(30 * 24 * HOUR)
    else None
  }

  function Count(window: int): int
  {
    if window == HOUR then 60 else if window == 7 * 24 * HOUR then 21 else if window == 30 * 24 * HOUR then 30 else 24
  }

  /** Rounded up, so that `count` buckets reach from `lo` to `hi`. */
  function Width(lo: int, hi: int, count: int): int
    requires count > 0
  {
    (hi - lo + count - 1) / count
  }

  /** A query window and a bucket count that the chart can be asked for. */
  predicate Proper(lo: int, hi: int, count: int)
  {
    lo < hi && count > 0
  }

  lemma WidthBounds(lo: int, hi: int, count: int)
    requires Proper(lo, hi, count)
    ensures Width(lo, hi, count) > 0
    ensures count * Width(lo, hi, count) >= hi - lo > count * (Width(lo, hi, count) - 1)
    ensures (hi - lo) % count == 0 <==> count * Width(lo, hi, count) == hi - lo
  {
    var w, n := Width(lo, hi, count), hi - lo;
    assert n + count - 1 == w * count + (n + count - 1) % count;
    assert w > 0 by {
      if w <= 0 { Less(w, 0, count); assert false; }
    }
    if count * w == n { Multiple(w, count); }
    if n % count == 0 {
      var q := n / count;
      assert n == q * count;
      if w < q { Less(w + 1, q, count); assert false; }
      if w > q { Less(q + 1, w, count); assert false; }
    }
  }

  lemma Multiple(w: int, count: int)
    requires count > 0
    ensures (count * w) % count == 0
  {
    var n := count * w;
    var q := n / count;
    assert n == q * count + n % count;
    if q < w { Less(q + 1, w, count); }
    if q > w { Less(w + 1, q, count); }
  }

  lemma Less(a: int, b: int, c: int)
    requires a <= b && c > 0
    ensures a * c <= b * c
  {
  }

  /** The group number of an event in the query; the query divides nonnegative numbers only. */
  function Group(ts: int, lo: int, width: int): int
    requires width > 0
  {
    (ts - lo) / width
  }

  function Clamp(index: int, count: int): int
  {
    if index >= count then count - 1 else index
  }

  /** The stretch of time bucket `i` stands for: up to the next bucket's start, the last one up to `hi` itself. */
  predicate Covers(i: int, ts: int, lo: int, hi: int, count: int)
    requires count > 0
  {
    var w := Width(lo, hi, count);
    && 0 <= i < count
    && lo + i * w <= ts <= hi
    && (ts < lo + (i + 1) * w || i == count - 1)
  }

  /**
   * Every timestamp of the window lies in exactly one bucket, and that is where its group is added. Only
   * a timestamp of exactly `hi` is ever clamped, and only if the buckets divide the window.
   */
  lemma Partition(ts: int, lo: int, hi: int, count: int, i: int)
    requires Proper(lo, hi, count) && lo <= ts <= hi
    ensures Width(lo, hi, count) > 0
    ensures Covers(i, ts, lo, hi, count) <==> i == Clamp(Group(ts, lo, Width(lo, hi, count)), count)
    ensures Group(ts, lo, Width(lo, hi, count)) >= count <==> ts == hi && (hi - lo) % count == 0
  {
    WidthBounds(lo, hi, count);
    var w := Width(lo, hi, count);
    var g := Group(ts, lo, w);
    Floor(ts - lo, w);
    if g >= count { Less(count, g, w); } else { Less(g + 1, count, w); }
    GroupBounds(ts - lo, w, i);
  }

  lemma Floor(n: int, w: int)
    requires n >= 0 && w > 0
    ensures 0 <= n / w && n / w * w <= n < (n / w + 1) * w
  {
    var g := n / w;
    assert n == g * w + n % w;
    if g < 0 { Less(g, -1, w); assert false; }
  }

  lemma GroupBounds(n: int, w: int, i: int)
    requires n >= 0 && w > 0
    ensures i * w <= n <==> i <= n / w
    ensures n < (i + 1) * w <==> n / w <= i
  {
    Floor(n, w);
    var g := n / w;
    if i <= g { Less(i, g, w); } else { Less(g + 1, i, w); }
    if g <= i { Less(g + 1, i + 1, w); } else { Less(i + 1, g, w); }
  }

  /**
   * For each window the page offers, the buckets divide it into minutes, hours, thirds of a day or days,
   * and an event is clamped exactly when it is at `hi`.
   */
  lemma SupportedWindows(query: string, hi: int, ts: int)
    requires Window(query).Some?
    requires var lo := hi - Window(query).value; lo <= ts <= hi
    ensures var lo, count := hi - Window(query).value, Count(Window(query).value);
            && Proper(lo, hi, count) && count * Width(lo, hi, count) == hi - lo && Width(lo, hi, count) > 0
            && (Group(ts, lo, Width(lo, hi, count)) >= count <==> ts == hi)
            && Width(lo, hi, count) ==
                (match query case "1h" => HOUR / 60 case "7d" => 8 * HOUR case "30d" => 24 * HOUR case _ => HOUR)
  {
    var lo, count := hi - Window(query).value, Count(Window(query).value);
    WidthBounds(lo, hi, count);
    Partition(ts, lo, hi, count, 0);
  }

  // ----- counting events -----

  datatype Event = Delivery(timestamp: int) | Request(timestamp: int, polling: bool)

  datatype Tally = Tally(deliveries: int, http: int, polling: int)

  const ZERO: Tally := Tally(0, 0, 0)

  function Plus(a: Tally, b: Tally): Tally
  {
    Tally(a.deliveries + b.deliveries, a.http + b.http, a.polling + b.polling)
  }

  function One(e: Event): Tally
  {
    match e
    case Delivery(_) => Tally(1, 0, 0)
    case Request(_, polling) => Tally(0, 1, if polling then 1 else 0)
  }

  function Worth(e: Event, kept: bool): Tally
  {
    if kept then One(e) else ZERO
  }

  /** The marked ones of the first `n` events, counted. */
  ghost function Marked(events: seq<Event>, marks: seq<bool>, n: nat): Tally
    requires n <= |events| == |marks|
  {
    if n == 0 then ZERO else Plus(Marked(events, marks, n - 1), Worth(events[n - 1], marks[n - 1]))
  }

  ghost function Marks(events: seq<Event>, keep: Event -> bool): (marks: seq<bool>)
    ensures |marks| == |events| && forall i :: 0 <= i < |marks| ==> marks[i] == keep(events[i])
  {
    seq(|events|, i requires 0 <= i < |events| => keep(events[i]))
  }

  /** The events of the snapshot that satisfy `keep`, counted. */
  ghost function Tallied(events: seq<Event>, keep: Event -> bool): Tally
  {
    Marked(events, Marks(events, keep), |events|)
  }

  predicate IsDelivery(e: Event)
  {
    e.Delivery?
  }

  predicate IsRequest(e: Event)
  {
    e.Request?
  }

  predicate IsPoll(e: Event)
  {
    e.Request? && e.polling
  }

  /** How many of the first `n` events are marked and of a kind. */
  ghost function Number(events: seq<Event>, marks: seq<bool>, n: nat, kind: Event -> bool): nat
    requires n <= |events| == |marks|
  {
    if n == 0 then 0 else Number(events, marks, n - 1, kind) + if marks[n - 1] && kind(events[n - 1]) then 1 else 0
  }

  lemma {:induction false} MarkedNumbers(events: seq<Event>, marks: seq<bool>, n: nat)
    requires n <= |events| == |marks|
    ensures Marked(events, marks, n) == Tally(Number(events, marks, n, IsDelivery), Number(events, marks, n, IsRequest),
                                              Number(events, marks, n, IsPoll))
  {
    if n > 0 { MarkedNumbers(events, marks, n - 1); }
  }

  lemma {:induction false} NumberPicked(events: seq<Event>, marks: seq<bool>, n: nat, kind: Event -> bool)
    returns (at: set<int>)
    requires n <= |events| == |marks|
    ensures |at| == Number(events, marks, n, kind)
    ensures forall i :: i in at <==> 0 <= i < n && marks[i] && kind(events[i])
  {
    at := {};
    if n > 0 {
      at := NumberPicked(events, marks, n - 1, kind);
      if marks[n - 1] && kind(events[n - 1]) { at := at + {n - 1}; }
    }
  }

  /** The positions of the events of a kind that are kept. */
  ghost function Picked(events: seq<Event>, keep: Event -> bool, kind: Event -> bool): set<int>
  {
    set i | 0 <= i < |events| && keep(events[i]) && kind(events[i])
  }

  lemma PickedNumber(events: seq<Event>, keep: Event -> bool, kind: Event -> bool)
    ensures Number(events, Marks(events, keep), |events|, kind) == |Picked(events, keep, kind)|
  {
    var at := NumberPicked(events, Marks(events, keep), |events|, kind);
    assert at == Picked(events, keep, kind);
  }

  /** A tally is three counts: of deliveries, of requests, and of the requests that poll. */
  lemma TalliedCounts(events: seq<Event>, keep: Event -> bool)
    ensures Tallied(events, keep) == Tally(|Picked(events, keep, IsDelivery)|, |Picked(events, keep, IsRequest)|,
                                           |Picked(events, keep, IsPoll)|)
  {
    MarkedNumbers(events, Marks(events, keep), |events|);
    PickedNumber(events, keep, IsDelivery);
    PickedNumber(events, keep, IsRequest);
    PickedNumber(events, keep, IsPoll);
  }

  lemma TalliedSame(events: seq<Event>, f: Event -> bool, g: Event -> bool)
    requires forall e <- events :: f(e) == g(e)
    ensures Tallied(events, f) == Tallied(events, g)
  {
    forall i | 0 <= i < |events| ensures Marks(events, f)[i] == Marks(events, g)[i] {
      assert events[i] in events;
    }
    assert Marks(events, f) == Marks(events, g);
  }

  /** An event of the union adds to one side only. */
  lemma UnionStep(a: Tally, b: Tally, e: Event, inA: bool, inB: bool)
    requires !(inA && inB)
    ensures Plus(Plus(a, b), Worth(e, inA || inB)) == Plus(Plus(a, Worth(e, inA)), Plus(b, Worth(e, inB)))
  {
  }

  ghost predicate IsUnion(f: seq<bool>, g: seq<bool>, h: seq<bool>)
  {
    |f| == |g| == |h| && forall i :: 0 <= i < |f| ==> !(f[i] && g[i]) && h[i] == (f[i] || g[i])
  }

  ghost predicate AddsUp(events: seq<Event>, f: seq<bool>, g: seq<bool>, h: seq<bool>, n: nat)
    requires n <= |events| == |f| == |g| == |h|
  {
    Marked(events, h, n) == Plus(Marked(events, f, n), Marked(events, g, n))
  }

  lemma AddsUpNext(events: seq<Event>, f: seq<bool>, g: seq<bool>, h: seq<bool>, n: nat)
    requires n < |events| == |f| && IsUnion(f, g, h) && AddsUp(events, f, g, h, n)
    ensures AddsUp(events, f, g, h, n + 1)
  {
    UnionStep(Marked(events, f, n), Marked(events, g, n), events[n], f[n], g[n]);
  }

  lemma AddsUpNone(events: seq<Event>, f: seq<bool>, g: seq<bool>, h: seq<bool>)
    requires |events| == |f| == |g| == |h|
    ensures AddsUp(events, f, g, h, 0)
  {
  }

  lemma {:induction false} MarkedUnion(events: seq<Event>, f: seq<bool>, g: seq<bool>, h: seq<bool>, n: nat)
    requires n <= |events| == |f| && IsUnion(f, g, h)
    ensures AddsUp(events, f, g, h, n)
  {
    if n == 0 {
      AddsUpNone(events, f, g, h);
    } else {
      MarkedUnion(events, f, g, h, n - 1);
      AddsUpNext(events, f, g, h, n - 1);
    }
  }

  lemma TalliedUnion(events: seq<Event>, f: Event -> bool, g: Event -> bool, h: Event -> bool)
    requires forall e <- events :: h(e) == (f(e) || g(e)) && !(f(e) && g(e))
    ensures Tallied(events, h) == Plus(Tallied(events, f), Tallied(events, g))
  {
    var ff, gg, hh := Marks(events, f), Marks(events, g), Marks(events, h);
    forall i | 0 <= i < |events| ensures !(ff[i] && gg[i]) && hh[i] == (ff[i] || gg[i]) {
      assert events[i] in events;
    }
    MarkedUnion(events, ff, gg, hh, |events|);
  }

  lemma {:induction false} MarkedNone(events: seq<Event>, marks: seq<bool>, n: nat)
    requires n <= |events| == |marks| && forall i :: 0 <= i < n ==> !marks[i]
    ensures Marked(events, marks, n) == ZERO
  {
    if n > 0 { MarkedNone(events, marks, n - 1); }
  }

  lemma TalliedNone(events: seq<Event>, f: Event -> bool)
    requires forall e <- events :: !f(e)
    ensures Tallied(events, f) == ZERO
  {
    MarkedNone(events, Marks(events, f), |events|);
  }

  // ----- adding the query's rows up -----

  /** A row of the query: which half of the `UNION ALL` it is from, the group number, and the counts. */
  datatype Row = Row(delivery: bool, index: int, tally: Tally)

  datatype Bucket = Bucket(timestamp: int, tally: Tally)

  /** Which events a row counts. */
  type Grouping = (Event, Row) -> bool

  /** The rows, in whatever order, count each event at most once. */
  ghost predicate Counts(rows: seq<Row>, events: seq<Event>, belongs: Grouping)
  {
    && (forall e <- events, i, j :: 0 <= i < j < |rows| ==> !(belongs(e, rows[i]) && belongs(e, rows[j])))
    && (forall i :: 0 <= i < |rows| ==> rows[i].tally == RowTally(events, rows[i], belongs))
  }

  ghost function RowTally(events: seq<Event>, r: Row, belongs: Grouping): Tally
  {
    Tallied(events, e => belongs(e, r))
  }

  /** The event is counted by one of the first `k` rows, and that row is added to bucket `b`. */
  ghost predicate Added(e: Event, rows: seq<Row>, k: nat, b: int, count: int, belongs: Grouping)
    requires k <= |rows|
  {
    exists i :: 0 <= i < k && belongs(e, rows[i]) && Clamp(rows[i].index, count) == b
  }

  ghost function AddedTally(events: seq<Event>, rows: seq<Row>, k: nat, b: int, count: int, belongs: Grouping): Tally
    requires k <= |rows|
  {
    Tallied(events, e => Added(e, rows, k, b, count, belongs))
  }

  lemma AddRow(events: seq<Event>, rows: seq<Row>, k: nat, b: int, count: int, belongs: Grouping)
    requires Counts(rows, events, belongs) && k < |rows|
    ensures AddedTally(events, rows, k + 1, b, count, belongs)
         == if Clamp(rows[k].index, count) == b then Plus(AddedTally(events, rows, k, b, count, belongs), rows[k].tally)
            else AddedTally(events, rows, k, b, count, belongs)
  {
    var before, after := e => Added(e, rows, k, b, count, belongs), e => Added(e, rows, k + 1, b, count, belongs);
    if Clamp(rows[k].index, count) == b {
      var here := e => belongs(e, rows[k]);
      forall e <- events ensures after(e) == (before(e) || here(e)) && !(before(e) && here(e)) {
        if here(e) { assert Added(e, rows, k + 1, b, count, belongs); }
      }
      TalliedUnion(events, before, here, after);
    } else {
      TalliedSame(events, after, before);
    }
  }

  /** What the first `k` rows add to bucket `b`. */
  ghost function RowSum(rows: seq<Row>, k: nat, b: int, count: int): Tally
    requires k <= |rows|
  {
    if k == 0 then ZERO
    else if Clamp(rows[k - 1].index, count) == b then Plus(RowSum(rows, k - 1, b, count), rows[k - 1].tally)
    else RowSum(rows, k - 1, b, count)
  }

  lemma {:induction false} RowSumCounts(events: seq<Event>, rows: seq<Row>, k: nat, b: int, count: int,
                                        belongs: Grouping)
    requires Counts(rows, events, belongs) && k <= |rows|
    ensures RowSum(rows, k, b, count) == AddedTally(events, rows, k, b, count, belongs)
  {
    if k == 0 {
      TalliedNone(events, e => Added(e, rows, 0, b, count, belongs));
    } else {
      RowSumCounts(events, rows, k - 1, b, count, belongs);
      AddRow(events, rows, k - 1, b, count, belongs);
    }
  }

  function DeliveriesOf(t: Tally): int
  {
    t.deliveries
  }

  function HttpOf(t: Tally): int
  {
    t.http
  }

  function PollingOf(t: Tally): int
  {
    t.polling
  }

  /** One column of the rows that go to bucket `b`, summed up. */
  ghost function ColumnSum(rows: seq<Row>, k: nat, b: int, count: int, column: Tally -> int): int
    requires k <= |rows|
  {
    if k == 0 then 0
    else
      ColumnSum(rows, k - 1, b, count, column)
      + if (if rows[k - 1].index >= count then count - 1 else rows[k - 1].index) == b then column(rows[k - 1].tally)
        else 0
  }

  lemma {:induction false} RowSumColumns(rows: seq<Row>, k: nat, b: int, count: int)
    requires k <= |rows|
    ensures RowSum(rows, k, b, count).deliveries == ColumnSum(rows, k, b, count, DeliveriesOf)
    ensures RowSum(rows, k, b, count).http == ColumnSum(rows, k, b, count, HttpOf)
    ensures RowSum(rows, k, b, count).polling == ColumnSum(rows, k, b, count, PollingOf)
  {
    if k > 0 { RowSumColumns(rows, k - 1, b, count); }
  }

  /** The loop over the query's rows, with its clamp and its guard. */
  method Accumulate(rows: seq<Row>, empty: seq<Bucket>) returns (buckets: seq<Bucket>)
    requires forall b :: 0 <= b < |empty| ==> empty[b].tally == ZERO
    ensures |buckets| == |empty|
    ensures forall b :: 0 <= b < |buckets| ==>
        buckets[b] == Bucket(empty[b].timestamp, RowSum(rows, |rows|, b, |empty|))
    ensures forall b :: 0 <= b < |buckets| ==>
        && buckets[b].timestamp == empty[b].timestamp
        && buckets[b].tally.deliveries == ColumnSum(rows, |rows|, b, |empty|, DeliveriesOf)
        && buckets[b].tally.http == ColumnSum(rows, |rows|, b, |empty|, HttpOf)
        && buckets[b].tally.polling == ColumnSum(rows, |rows|, b, |empty|, PollingOf)
  {
    buckets := empty;
    var count, k := |empty|, 0;
    while k < |rows|
      invariant 0 <= k <= |rows| && |buckets| == count
      invariant forall b :: 0 <= b < count ==> buckets[b] == Bucket(empty[b].timestamp, RowSum(rows, k, b, count))
    {
      var index := rows[k].index;
      if index >= count { index := count - 1; }
      if index >= 0 {
        var sum, row := buckets[index].tally, rows[k].tally;
        sum := Tally(sum.deliveries + row.deliveries, sum.http + row.http, sum.polling + row.polling);
        buckets := buckets[index := buckets[index].(tally := sum)];
      }
      k := k + 1;
    }
    forall b | 0 <= b < |buckets| {
      RowSumColumns(rows, |rows|, b, count);
    }
  }

  ghost function Total(buckets: seq<Bucket>, n: nat): Tally
    requires n <= |buckets|
  {
    if n == 0 then ZERO else Plus(Total(buckets, n - 1), buckets[n - 1].tally)
  }

  /** The event falls into one of the first `n` buckets. */
  ghost predicate Early(e: Event, n: nat, within: (Event, int) -> bool)
  {
    exists b :: 0 <= b < n && within(e, b)
  }

  ghost predicate Apart(events: seq<Event>, within: (Event, int) -> bool)
  {
    forall e <- events, b, c :: 0 <= b < c ==> !(within(e, b) && within(e, c))
  }

  ghost function PlaceTally(events: seq<Event>, within: (Event, int) -> bool, b: int): Tally
  {
    Tallied(events, e => within(e, b))
  }

  ghost function EarlyTally(events: seq<Event>, n: nat, within: (Event, int) -> bool): Tally
  {
    Tallied(events, e => Early(e, n, within))
  }

  lemma NextPlace(events: seq<Event>, n: nat, within: (Event, int) -> bool)
    requires Apart(events, within)
    ensures EarlyTally(events, n + 1, within) == Plus(EarlyTally(events, n, within), PlaceTally(events, within, n))
  {
    var before, here, after := e => Early(e, n, within), e => within(e, n), e => Early(e, n + 1, within);
    forall e <- events ensures after(e) == (before(e) || here(e)) && !(before(e) && here(e)) {
      if here(e) { assert Early(e, n + 1, within); }
    }
    TalliedUnion(events, before, here, after);
  }

  lemma NoneEarly(events: seq<Event>, within: (Event, int) -> bool)
    ensures EarlyTally(events, 0, within) == ZERO
  {
    TalliedNone(events, e => Early(e, 0, within));
  }

  /** A running total that starts at zero and grows by each bucket in turn is their sum. */
  lemma {:induction false} RunningTotal(buckets: seq<Bucket>, upTo: nat -> Tally, n: nat)
    requires n <= |buckets| && upTo(0) == ZERO
    requires forall k: nat :: k < |buckets| ==> upTo(k + 1) == Plus(upTo(k), buckets[k].tally)
    ensures Total(buckets, n) == upTo(n)
  {
    if n > 0 {
      RunningTotal(buckets, upTo, n - 1);
      assert upTo(n - 1 + 1) == Plus(upTo(n - 1), buckets[n - 1].tally);
    }
  }

  // ----- the chart -----

  datatype Span = Span(lo: int, hi: int, count: int) {
    predicate Valid() { Proper(lo, hi, count) }
  }

  predicate InWindow(e: Event, s: Span)
  {
    s.lo <= e.timestamp <= s.hi
  }

  /** The row is the event's group in the query. */
  predicate InGroup(e: Event, r: Row, s: Span)
    requires s.Valid()
  {
    WidthBounds(s.lo, s.hi, s.count);
    InWindow(e, s) && e.Delivery? == r.delivery && Group(e.timestamp, s.lo, Width(s.lo, s.hi, s.count)) == r.index
  }

  /** Bucket `b` stands for the event's time. */
  predicate Within(e: Event, b: int, s: Span)
    requires s.Valid()
  {
    Covers(b, e.timestamp, s.lo, s.hi, s.count)
  }

  /** The rows, in whatever order, are the groups of the window's events. */
  ghost predicate IsGrouping(rows: seq<Row>, events: seq<Event>, s: Span)
    requires s.Valid()
  {
    && (forall i, j :: 0 <= i < j < |rows| ==> rows[i].delivery != rows[j].delivery || rows[i].index != rows[j].index)
    && (forall i :: 0 <= i < |rows| ==> rows[i].tally == Tallied(events, e => InGroup(e, rows[i], s)))
    && (forall e <- events :: InWindow(e, s) ==> exists i :: 0 <= i < |rows| && InGroup(e, rows[i], s))
  }

  lemma GroupsCount(rows: seq<Row>, events: seq<Event>, s: Span, belongs: Grouping)
    requires s.Valid() && IsGrouping(rows, events, s)
    requires forall e: Event, r: Row :: belongs(e, r) == InGroup(e, r, s)
    ensures Counts(rows, events, belongs)
  {
    forall i | 0 <= i < |rows| ensures rows[i].tally == RowTally(events, rows[i], belongs) {
      TalliedSame(events, e => InGroup(e, rows[i], s), e => belongs(e, rows[i]));
    }
  }

  /** Inside or outside the window, an event's row goes to bucket `b` exactly when `b` stands for its time. */
  lemma AddedWithin(rows: seq<Row>, events: seq<Event>, s: Span, belongs: Grouping, e: Event, b: int)
    requires s.Valid() && IsGrouping(rows, events, s) && e in events
    requires forall e: Event, r: Row :: belongs(e, r) == InGroup(e, r, s)
    ensures Added(e, rows, |rows|, b, s.count, belongs) == Within(e, b, s)
  {
    WidthBounds(s.lo, s.hi, s.count);
    if InWindow(e, s) {
      Partition(e.timestamp, s.lo, s.hi, s.count, b);
    } else {
      if b >= 0 { Less(0, b, Width(s.lo, s.hi, s.count)); }
    }
  }

  /** No event falls into two buckets, and exactly those of the window fall into one. */
  lemma WithinOnce(e: Event, s: Span, b: int, c: int)
    requires s.Valid()
    ensures b != c ==> !(Within(e, b, s) && Within(e, c, s))
    ensures Within(e, b, s) ==> InWindow(e, s)
    ensures InWindow(e, s) ==> exists home :: 0 <= home < s.count && Within(e, home, s)
  {
    WidthBounds(s.lo, s.hi, s.count);
    var w := Width(s.lo, s.hi, s.count);
    if InWindow(e, s) {
      Partition(e.timestamp, s.lo, s.hi, s.count, b);
      Partition(e.timestamp, s.lo, s.hi, s.count, c);
      var home := Clamp(Group(e.timestamp, s.lo, w), s.count);
      Partition(e.timestamp, s.lo, s.hi, s.count, home);
      assert Within(e, home, s);
    } else {
      if b >= 0 { Less(0, b, w); }
    }
  }

  /** If each bucket holds the events of its own time, together they hold the window's totals. */
  lemma ChartTotals(buckets: seq<Bucket>, events: seq<Event>, s: Span)
    requires s.Valid() && |buckets| == s.count
    requires forall b :: 0 <= b < |buckets| ==> buckets[b].tally == Tallied(events, e => Within(e, b, s))
    ensures Total(buckets, |buckets|) == Tallied(events, e => InWindow(e, s))
  {
    var within := (e, b) => Within(e, b, s);
    forall e <- events, b, c | 0 <= b < c ensures !(within(e, b) && within(e, c)) {
      WithinOnce(e, s, b, c);
    }
    var upTo := (k: nat) => EarlyTally(events, k, within);
    NoneEarly(events, within);
    forall k: nat | k < |buckets| ensures upTo(k + 1) == Plus(upTo(k), buckets[k].tally) {
      NextPlace(events, k, within);
      TalliedSame(events, e => Within(e, k, s), e => within(e, k));
    }
    RunningTotal(buckets, upTo, s.count);
    forall e <- events ensures Early(e, s.count, within) == InWindow(e, s) {
      WithinOnce(e, s, 0, 1);
      assert forall b :: Within(e, b, s) ==> within(e, b);
      if Early(e, s.count, within) {
        var b :| 0 <= b < s.count && within(e, b);
        WithinOnce(e, s, b, b);
      }
    }
    TalliedSame(events, e => Early(e, s.count, within), e => InWindow(e, s));
  }

  /** Every bucket counts exactly the events of its own stretch of time, and together they count the window. */
  method Chart(rows: seq<Row>, ghost events: seq<Event>, s: Span) returns (buckets: seq<Bucket>)
    requires s.Valid() && IsGrouping(rows, events, s)
    ensures |buckets| == s.count
    ensures forall b :: 0 <= b < s.count ==> buckets[b].timestamp == s.lo + b * Width(s.lo, s.hi, s.count)
    ensures forall b :: 0 <= b < s.count ==> buckets[b].tally == Tallied(events, e => Within(e, b, s))
    ensures Total(buckets, |buckets|) == Tallied(events, e => InWindow(e, s))
  {
    var width := Width(s.lo, s.hi, s.count);
    var empty: seq<Bucket> := [];
    while |empty| < s.count
      invariant |empty| <= s.count
      invariant forall b :: 0 <= b < |empty| ==> empty[b] == Bucket(s.lo + b * width, ZERO)
    {
      empty := empty + [Bucket(s.lo + |empty| * width, ZERO)];
    }
    ghost var belongs := (e, r) => InGroup(e, r, s);
    GroupsCount(rows, events, s, belongs);
    buckets := Accumulate(rows, empty);
    forall b | 0 <= b < s.count ensures buckets[b].tally == Tallied(events, e => Within(e, b, s)) {
      RowSumCounts(events, rows, |rows|, b, s.count, belongs);
      forall e <- events ensures Added(e, rows, |rows|, b, s.count, belongs) == Within(e, b, s) {
        AddedWithin(rows, events, s, belongs, e, b);
      }
      TalliedSame(events, e => Added(e, rows, |rows|, b, s.count, belongs), e => Within(e, b, s));
    }
    ChartTotals(buckets, events, s);
  }
}
