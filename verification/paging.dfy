/** What the gateway's three read endpoints return, as functions of the log a viewer sees, and
    what repeated calls deliver. */
module Paging {
  import opened Texts
  import opened EventLog
  import opened StoreSpec
  import opened RangeRead
  import opened Visibility
  import opened Digest

  const DEFAULT_LIMIT_TX := 64
  const DEFAULT_LIMIT_BYTES := 131072

  function AtLeast(floor: int, x: int): int { if x < floor then floor else x }

  // ---------------------------------------------------------------- syncPull

  function TotalBytes(bundles: Log): nat {
    if bundles == [] then 0 else TotalBytes(bundles[..|bundles| - 1]) + BundleBytes(bundles[|bundles| - 1])
  }

  /** How many leading bundles fit: always the first, then while the bytes stay within the limit. */
  function FitCount(page: Log, taken: nat, limitBytes: int): (n: nat)
    requires taken <= |page|
    ensures taken <= n <= |page|
    decreases |page| - taken
  {
    if taken == |page| then taken
    else if taken > 0 && TotalBytes(page[..taken + 1]) > limitBytes then taken
    else FitCount(page, taken + 1, limitBytes)
  }

  function Labelled(bundles: Log, from: int): (r: seq<VisibleTxBundle>)
    ensures |r| == |bundles|
  {
    seq(|bundles|, i requires 0 <= i < |bundles| => VisibleTxBundle(from + i + 1, bundles[i]))
  }

  /** `syncPull` on the visible log `v`: labelled bundles and the cursor after them. */
  function Pull(v: Log, from: int, limitTx: int, limitBytes: int): (r: (seq<VisibleTxBundle>, int)) {
    var page := Window(v, from, AtLeast(1, limitTx));
    var n := FitCount(page, 0, AtLeast(1, limitBytes));
    (Labelled(page[..n], from), from + n)
  }

  lemma {:induction false} FitCountGreedy(page: Log, taken: nat, limitBytes: int)
    requires taken <= |page| && (taken <= 1 || TotalBytes(page[..taken]) <= limitBytes)
    ensures var n := FitCount(page, taken, limitBytes);
      && (page != [] ==> n > 0)
      && (n > 1 ==> TotalBytes(page[..n]) <= limitBytes)
      && (n < |page| ==> TotalBytes(page[..n + 1]) > limitBytes)
    decreases |page| - taken
  {
    hide TotalBytes;
    if taken < |page| && (taken == 0 || TotalBytes(page[..taken + 1]) <= limitBytes) {
      FitCountGreedy(page, taken + 1, limitBytes);
    }
  }

  /** A pull returns a run of the visible log: it makes progress unless nothing is left, goes
      over the byte limit only with a single bundle, and stops only at a limit. */
  lemma PullIsGreedyPage(v: Log, from: nat, limitTx: int, limitBytes: int)
    requires from <= |v|
    ensures var (bundles, after) := Pull(v, from, limitTx, limitBytes);
      && from <= after <= |v| && bundles == Labelled(v[from..after], from)
      && (from < |v| ==> after > from)
      && after - from <= AtLeast(1, limitTx)
      && (after - from > 1 ==> TotalBytes(v[from..after]) <= AtLeast(1, limitBytes))
      && (after < |v| && after - from < AtLeast(1, limitTx) ==> TotalBytes(v[from..after + 1]) > AtLeast(1, limitBytes))
  {
    hide TotalBytes, FitCount;
    var page := Window(v, from, AtLeast(1, limitTx));
    var n := FitCount(page, 0, AtLeast(1, limitBytes));
    FitCountGreedy(page, 0, AtLeast(1, limitBytes));
    assert page[..n] == v[from..from + n];
    if n < |page| {
      assert page[..n + 1] == v[from..from + n + 1];
    }
  }

  /** Bundles carry their true visible rank, which is their 1-based place in the visible log. */
  ghost predicate TrueRanks(v: Log, bundles: seq<VisibleTxBundle>) {
    forall i | 0 <= i < |bundles| ::
      1 <= bundles[i].principalCursor <= |v| && bundles[i].txBundle == v[bundles[i].principalCursor - 1]
  }

  /** Ranks are true for every cursor a client can have been given; a negative one is clipped
      when reading but not when labelling, so the first label is then not positive. */
  lemma PullLabels(v: Log, from: int, limitTx: int, limitBytes: int)
    ensures TrueRanks(v, Pull(v, from, limitTx, limitBytes).0) <==> from >= 0 || v == []
  {
    hide TotalBytes, FitCount;
    var page := Window(v, from, AtLeast(1, limitTx));
    FitCountGreedy(page, 0, AtLeast(1, limitBytes));
    var bundles := Pull(v, from, limitTx, limitBytes).0;
    if from < 0 && v != [] {
      assert |bundles| > 0 && bundles[0].principalCursor == from + 1;
    }
  }

  // ---------------------------------------------------------------- eventsRead

  /** Where the run of events of one transaction starting at `i` ends. */
  function RunEnd(c: seq<EventEnvelope>, i: nat): (end: nat)
    requires i < |c|
    ensures i < end <= |c|
    decreases |c| - i
  {
    if i + 1 == |c| || c[i + 1].txId != c[i].txId then i + 1 else RunEnd(c, i + 1)
  }

  /** How many leading events fit, whole runs at a time, when `i` are already taken. */
  function FitEvents(space: Text, c: seq<EventEnvelope>, i: nat, bytes: nat, limitEvents: int, limitBytes: int)
    : (n: nat)
    requires i <= |c|
    ensures i <= n <= |c|
    decreases |c| - i
  {
    if i == |c| then i
    else
      var end := RunEnd(c, i);
      var size := EventsBytes(space, c[i..end]);
      if i > 0 && (end > limitEvents || bytes + size > limitBytes) then i
      else FitEvents(space, c, end, bytes + size, limitEvents, limitBytes)
  }

  /** The events after `from`, which a dense stream keeps in array order. */
  function After(events: seq<EventEnvelope>, from: int): seq<EventEnvelope> {
    var lo := if from < 0 then 0 else if from <= |events| then from else |events|;
    events[lo..]
  }

  function EventsRead(space: Text, v: Log, s: Stream, from: int, limitEvents: int, limitBytes: int)
    : seq<EventEnvelope>
  {
    var c := After(Events(v, s), from);
    c[..FitEvents(space, c, 0, 0, AtLeast(1, limitEvents), AtLeast(1, limitBytes))]
  }

  /** A run that starts inside transaction k ends with it. */
  lemma {:induction false} RunEndsWithTx(v: Log, s: Stream, from: nat, i: nat, k: nat)
    requires UniqueIds(v) && k < |v| && from <= Count(v, s)
    requires i < Count(v, s) - from && Count(v[..k], s) <= from + i < Count(v[..k + 1], s)
    ensures from + RunEnd(Events(v, s)[from..], i) == Count(v[..k + 1], s)
    decreases Count(v, s) - i
  {
    hide UniqueIds, Events, Count;
    var events := Events(v, s);
    var c := events[from..];
    var end := Count(v[..k + 1], s);
    CountMonotone(v, k + 1, |v|, s);
    assert v[..|v|] == v;
    var owner := TxOfEvent(v, from + i, s);
    SameTx(v, s, from + i, owner, k);
    if from + i + 1 < |events| {
      var next := TxOfEvent(v, from + i + 1, s);
      if from + i + 1 < end {
        SameTx(v, s, from + i + 1, next, k);
        RunEndsWithTx(v, s, from, i + 1, k);
      } else {
        DifferentTx(v, s, end, next, k);
      }
    }
  }

  lemma SameTx(v: Log, s: Stream, p: nat, a: nat, b: nat)
    requires a < |v| && b < |v|
    requires Count(v[..a], s) <= p < Count(v[..a + 1], s) && Count(v[..b], s) <= p < Count(v[..b + 1], s)
    ensures a == b
  {
    if a < b {
      CountMonotone(v, a + 1, b, s);
    } else if b < a {
      CountMonotone(v, b + 1, a, s);
    }
  }

  lemma DifferentTx(v: Log, s: Stream, p: nat, a: nat, b: nat)
    requires UniqueIds(v) && a < |v| && b < |v|
    requires Count(v[..a], s) <= p < Count(v[..a + 1], s) && p == Count(v[..b + 1], s)
    ensures v[a].txId != v[b].txId
  {
    assert a != b;
  }

  /** Bytes counted when `n` events are taken, `bytes` of them for the first `i`. */
  function BytesTaken(space: Text, c: seq<EventEnvelope>, i: nat, bytes: nat, n: nat): nat
    decreases |c| - i
  {
    if i >= n || i >= |c| then bytes
    else BytesTaken(space, c, RunEnd(c, i), bytes + EventsBytes(space, c[i..RunEnd(c, i)]), n)
  }

  /** The first run is always taken; a longer answer respects both limits; the run left out
      would have broken one of them. */
  lemma {:induction false} FitEventsGreedy(space: Text, c: seq<EventEnvelope>, i: nat, bytes: nat, limitEvents: int,
      limitBytes: int)
    requires i <= |c|
    ensures var n := FitEvents(space, c, i, bytes, limitEvents, limitBytes);
      var total := BytesTaken(space, c, i, bytes, n);
      && (c != [] ==> n > 0)
      && (n > i > 0 || (i == 0 < |c| && n > RunEnd(c, 0)) ==> n <= limitEvents && total <= limitBytes)
      && (n < |c| ==> RunEnd(c, n) > limitEvents || total + EventsBytes(space, c[n..RunEnd(c, n)]) > limitBytes)
    decreases |c| - i
  {
    hide EventsBytes, RunEnd;
    if i < |c| {
      var end := RunEnd(c, i);
      var size := EventsBytes(space, c[i..end]);
      if i == 0 || (end <= limitEvents && bytes + size <= limitBytes) {
        FitEventsGreedy(space, c, end, bytes + size, limitEvents, limitBytes);
      }
    }
  }

  /** From a boundary, whatever fits ends at a boundary too. */
  lemma {:induction false} FitEventsClosed(space: Text, v: Log, s: Stream, from: nat, i: nat, bytes: nat,
      limitEvents: int, limitBytes: int)
    requires UniqueIds(v) && from <= Count(v, s) && i <= Count(v, s) - from && Boundary(v, s, from + i)
    ensures Boundary(v, s, from + FitEvents(space, Events(v, s)[from..], i, bytes, limitEvents, limitBytes))
    decreases Count(v, s) - i
  {
    hide UniqueIds, Events, Count, Boundary, EventsBytes;
    var c := Events(v, s)[from..];
    if i < |c| {
      var k := TxOfEvent(v, from + i, s);
      RunEndsWithTx(v, s, from, i, k);
      var end := RunEnd(c, i);
      TxEndIsBoundary(v, s, k);
      FitEventsClosed(space, v, s, from, end, bytes + EventsBytes(space, c[i..end]), limitEvents, limitBytes);
    }
  }

  lemma TxEndIsBoundary(v: Log, s: Stream, k: nat)
    requires k < |v|
    ensures Boundary(v, s, Count(v[..k + 1], s))
  {
  }

  /** Started at a transaction boundary, eventsRead returns a transaction-closed run of the
      stream: it makes progress, goes over a limit only with one leading transaction, and stops
      only at a limit. */
  lemma EventsReadIsClosedRun(space: Text, v: Log, s: Stream, from: nat, limitEvents: int, limitBytes: int)
    requires UniqueIds(v) && Boundary(v, s, from) && from <= Count(v, s)
    ensures var r := EventsRead(space, v, s, from, limitEvents, limitBytes);
      var c := Events(v, s)[from..];
      && |r| <= |c| && r == Events(v, s)[from..from + |r|] && Boundary(v, s, from + |r|)
      && (from < Count(v, s) ==> |r| > 0)
      && (c != [] && |r| > RunEnd(c, 0) ==>
            |r| <= AtLeast(1, limitEvents) && BytesTaken(space, c, 0, 0, |r|) <= AtLeast(1, limitBytes))
      && (|r| < |c| ==>
            (|| RunEnd(c, |r|) > AtLeast(1, limitEvents)
             || BytesTaken(space, c, 0, 0, |r|) + EventsBytes(space, c[|r|..RunEnd(c, |r|)]) > AtLeast(1, limitBytes)))
  {
    hide UniqueIds, Events, Count, Boundary, EventsBytes, FitEvents, BytesTaken, RunEnd;
    FitEventsGreedy(space, Events(v, s)[from..], 0, 0, AtLeast(1, limitEvents), AtLeast(1, limitBytes));
    FitEventsClosed(space, v, s, from, 0, 0, AtLeast(1, limitEvents), AtLeast(1, limitBytes));
  }

  // ---------------------------------------------------------------- repeated calls

  /** Pull after pull until one makes no progress. */
  function PullAll(v: Log, from: int, limitTx: int, limitBytes: int): seq<VisibleTxBundle>
    decreases if from < |v| then |v| - from else 0
  {
    var (bundles, after) := Pull(v, from, limitTx, limitBytes);
    if after <= from || from >= |v| then [] else bundles + PullAll(v, after, limitTx, limitBytes)
  }

  /** Repeated pulls under any limits deliver the rest of the visible log once, in order. */
  lemma {:induction false} PullsDeliverAll(v: Log, from: nat, limitTx: int, limitBytes: int)
    requires from <= |v|
    ensures PullAll(v, from, limitTx, limitBytes) == Labelled(v[from..], from)
    decreases |v| - from
  {
    hide Pull, TotalBytes;
    PullIsGreedyPage(v, from, limitTx, limitBytes);
    var after := Pull(v, from, limitTx, limitBytes).1;
    if from < |v| {
      PullsDeliverAll(v, after, limitTx, limitBytes);
      assert Labelled(v[from..], from) == Labelled(v[from..after], from) + Labelled(v[after..], after);
    } else {
      assert v[from..] == [];
    }
  }

  function ReadAllEvents(space: Text, v: Log, s: Stream, from: nat, limitEvents: int, limitBytes: int)
    : seq<EventEnvelope>
    decreases if from < Count(v, s) then Count(v, s) - from else 0
  {
    var page := EventsRead(space, v, s, from, limitEvents, limitBytes);
    if page == [] || from >= Count(v, s) then []
      else page + ReadAllEvents(space, v, s, from + |page|, limitEvents, limitBytes)
  }

  /** Repeated reads from a boundary deliver the rest of the stream once, in order. */
  lemma {:induction false} ReadsDeliverAll(space: Text, v: Log, s: Stream, from: nat, limitEvents: int, limitBytes: int)
    requires UniqueIds(v) && Boundary(v, s, from) && from <= Count(v, s)
    ensures ReadAllEvents(space, v, s, from, limitEvents, limitBytes) == Events(v, s)[from..]
    decreases Count(v, s) - from
  {
    hide EventsRead, UniqueIds, Events, Count, Boundary, EventsBytes, BytesTaken, RunEnd;
    EventsReadIsClosedRun(space, v, s, from, limitEvents, limitBytes);
    var page := EventsRead(space, v, s, from, limitEvents, limitBytes);
    if from < Count(v, s) {
      ReadsDeliverAll(space, v, s, from + |page|, limitEvents, limitBytes);
    }
  }
}
