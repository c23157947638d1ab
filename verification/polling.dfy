/** `syncPoll`: a two-component cursor over two streams that stays transaction-closed under four
    separate limits. */
module Polling {
  import opened Texts
  import opened EventLog
  import opened Visibility
  import opened Digest
  import opened Paging

  datatype PollLimits = PollLimits(metaEvents: int, graphEvents: int, metaBytes: int, graphBytes: int) {
    /** The limits after the endpoint's own clipping. */
    function Clipped(): PollLimits {
      PollLimits(AtLeast(0, metaEvents), AtLeast(0, graphEvents), AtLeast(1, metaBytes), AtLeast(1, graphBytes))
    }

    predicate Positive() { metaEvents > 0 && graphEvents > 0 }
  }

  datatype PollState = PollState(meta: seq<EventEnvelope>, graph: seq<EventEnvelope>, metaBytes: nat, graphBytes: nat) {
    function Part(s: Stream): seq<EventEnvelope> { if s.Meta? then meta else graph }
  }

  const NothingPolled := PollState([], [], 0, 0)

  datatype PollResult = PollResult(meta: seq<EventEnvelope>, graph: seq<EventEnvelope>, cursorAfter: Cursor)

  // ---------------------------------------------------------------- one transaction of the scan

  /** The events of visible transaction i, numbered by what the viewer has been shown. */
  function TxPart(v: Log, i: nat, s: Stream): seq<EventEnvelope>
    requires i < |v|
  {
    Envelopes(v[i], s, Count(v[..i], s))
  }

  /** The part has events and its last one lies beyond the cursor. */
  predicate Wants(v: Log, cursor: Cursor, i: nat, s: Stream)
    requires i < |v|
  {
    |v[i].Part(s)| > 0 && Count(v[..i], s) + |v[i].Part(s)| > cursor.At(s)
  }

  /** One part is wanted while the other has events and is not. */
  predicate Straddles(v: Log, cursor: Cursor, i: nat)
    requires i < |v|
  {
    || (Wants(v, cursor, i, Meta) && |v[i].graphEvents| > 0 && !Wants(v, cursor, i, Graph))
    || (Wants(v, cursor, i, Graph) && |v[i].metaEvents| > 0 && !Wants(v, cursor, i, Meta))
  }

  function PartSize(space: Text, es: seq<EventEnvelope>): nat {
    if |es| > 0 then EventsBytes(space, es) else 0
  }

  predicate Exceeds(space: Text, v: Log, lim: PollLimits, acc: PollState, i: nat)
    requires i < |v|
  {
    || |acc.meta| + |v[i].metaEvents| > lim.metaEvents
    || |acc.graph| + |v[i].graphEvents| > lim.graphEvents
    || acc.metaBytes + PartSize(space, TxPart(v, i, Meta)) > lim.metaBytes
    || acc.graphBytes + PartSize(space, TxPart(v, i, Graph)) > lim.graphBytes
  }

  predicate ZeroLimited(v: Log, lim: PollLimits, i: nat)
    requires i < |v|
  {
    (lim.metaEvents == 0 && |v[i].metaEvents| > 0) || (lim.graphEvents == 0 && |v[i].graphEvents| > 0)
  }

  predicate Stops(space: Text, v: Log, cursor: Cursor, lim: PollLimits, acc: PollState, i: nat)
    requires i < |v|
  {
    || Straddles(v, cursor, i)
    || ZeroLimited(v, lim, i)
    || ((acc.meta != [] || acc.graph != []) && Exceeds(space, v, lim, acc, i))
  }

  function Take(space: Text, v: Log, acc: PollState, i: nat): PollState
    requires i < |v|
  {
    var m, g := TxPart(v, i, Meta), TxPart(v, i, Graph);
    PollState(acc.meta + m, acc.graph + g, acc.metaBytes + PartSize(space, m), acc.graphBytes + PartSize(space, g))
  }

  predicate Wanted(v: Log, cursor: Cursor, i: nat)
    requires i < |v|
  {
    Wants(v, cursor, i, Meta) || Wants(v, cursor, i, Graph)
  }

  // ---------------------------------------------------------------- the scan

  /** The scan from transaction i on: what it collected and the transaction it stopped at. */
  function Scan(space: Text, v: Log, cursor: Cursor, lim: PollLimits, acc: PollState, i: nat): (r: (PollState, nat))
    requires i <= |v|
    ensures i <= r.1 <= |v|
    decreases |v| - i
  {
    if i == |v| then (acc, i)
    else if !Wanted(v, cursor, i) then Scan(space, v, cursor, lim, acc, i + 1)
    else if Stops(space, v, cursor, lim, acc, i) then (acc, i)
    else Scan(space, v, cursor, lim, Take(space, v, acc, i), i + 1)
  }

  function ResultOf(acc: PollState, cursor: Cursor): PollResult {
    PollResult(acc.meta, acc.graph, Cursor(
      if |acc.meta| > 0 then acc.meta[|acc.meta| - 1].seqNo else cursor.metaSeq,
      if |acc.graph| > 0 then acc.graph[|acc.graph| - 1].seqNo else cursor.graphSeq))
  }

  function Poll(space: Text, v: Log, cursor: Cursor, lim: PollLimits): PollResult {
    ResultOf(Scan(space, v, cursor, lim.Clipped(), NothingPolled, 0).0, cursor)
  }

  // ---------------------------------------------------------------- any cursor at all

  /** The events of one stream of the wanted transactions before `stop`, whole. */
  function WantedEvents(v: Log, cursor: Cursor, stop: nat, s: Stream): seq<EventEnvelope>
    requires stop <= |v|
  {
    if stop == 0 then []
    else WantedEvents(v, cursor, stop - 1, s) + if Wanted(v, cursor, stop - 1) then TxPart(v, stop - 1, s) else []
  }

  /** No transaction before `stop` is wanted in one stream only. */
  predicate NoStraddle(v: Log, cursor: Cursor, stop: nat)
    requires stop <= |v|
  {
    forall i | 0 <= i < stop && Wanted(v, cursor, i) :: !Straddles(v, cursor, i)
  }

  lemma {:induction false} ScanTakesWhole(space: Text, v: Log, cursor: Cursor, lim: PollLimits, acc: PollState, i: nat)
    requires i <= |v| && NoStraddle(v, cursor, i)
    requires acc.meta == WantedEvents(v, cursor, i, Meta) && acc.graph == WantedEvents(v, cursor, i, Graph)
    ensures var (out, stop) := Scan(space, v, cursor, lim, acc, i);
      && out.meta == WantedEvents(v, cursor, stop, Meta) && out.graph == WantedEvents(v, cursor, stop, Graph)
      && NoStraddle(v, cursor, stop)
    decreases |v| - i
  {
    hide PartSize, Exceeds, TxPart, Wants;
    if i < |v| {
      if !Wanted(v, cursor, i) {
        ScanTakesWhole(space, v, cursor, lim, acc, i + 1);
      } else if !Stops(space, v, cursor, lim, acc, i) {
        ScanTakesWhole(space, v, cursor, lim, Take(space, v, acc, i), i + 1);
      }
    }
  }

  /** Events of wanted transactions lie beyond the cursor once they end. */
  lemma {:induction false} WantedEventsAdvance(v: Log, cursor: Cursor, stop: nat, s: Stream)
    requires stop <= |v| && NoStraddle(v, cursor, stop)
    ensures var es := WantedEvents(v, cursor, stop, s);
      |es| > 0 ==> es[|es| - 1].seqNo > cursor.At(s)
  {
    hide Count, Exceeds, PartSize;
    if stop > 0 {
      WantedEventsAdvance(v, cursor, stop - 1, s);
    }
  }

  /** From any cursor the output is made of whole transactions: for some point of the visible
      log it is exactly both parts of every wanted transaction before it, and neither component
      of the cursor drops. */
  lemma PollWholeTransactions(space: Text, v: Log, cursor: Cursor, lim: PollLimits)
    ensures var r := Poll(space, v, cursor, lim);
      && (exists stop: nat | stop <= |v| ::
            r.meta == WantedEvents(v, cursor, stop, Meta) && r.graph == WantedEvents(v, cursor, stop, Graph))
      && r.cursorAfter.metaSeq >= cursor.metaSeq && r.cursorAfter.graphSeq >= cursor.graphSeq
      && (r.meta != [] ==> r.cursorAfter.metaSeq > cursor.metaSeq)
      && (r.graph != [] ==> r.cursorAfter.graphSeq > cursor.graphSeq)
  {
    hide WantedEvents, NoStraddle, Scan;
    var stop := Scan(space, v, cursor, lim.Clipped(), NothingPolled, 0).1;
    NothingWantedYet(v, cursor);
    ScanTakesWhole(space, v, cursor, lim.Clipped(), NothingPolled, 0);
    WantedEventsAdvance(v, cursor, stop, Meta);
    WantedEventsAdvance(v, cursor, stop, Graph);
  }

  lemma NothingWantedYet(v: Log, cursor: Cursor)
    ensures NoStraddle(v, cursor, 0) && forall s :: WantedEvents(v, cursor, 0, s) == []
  {
  }

  // ---------------------------------------------------------------- transaction-closed cursors

  /** From the head after k transactions, exactly the later ones are wanted, in both parts. */
  lemma ClosedCursorWants(v: Log, k: nat, i: nat, s: Stream)
    requires k <= |v| && i < |v|
    ensures Wants(v, Head(v[..k]), i, s) <==> i >= k && |v[i].Part(s)| > 0
  {
    CountStep(v, i, s);
    if i < k {
      CountMonotone(v, i + 1, k, s);
    } else {
      CountMonotone(v, k, i, s);
    }
  }

  /** Bytes one stream of visible transactions k to j takes, counted a transaction at a time. */
  function StreamBytes(space: Text, v: Log, k: nat, j: nat, s: Stream): nat
    requires k <= j <= |v|
    decreases j
  {
    if j == k then 0 else StreamBytes(space, v, k, j - 1, s) + PartSize(space, TxPart(v, j - 1, s))
  }

  /** What has been collected after taking transactions k to i. */
  predicate Collected(space: Text, v: Log, k: nat, i: nat, acc: PollState)
    requires k <= i <= |v|
  {
    && acc.metaBytes == StreamBytes(space, v, k, i, Meta) && acc.graphBytes == StreamBytes(space, v, k, i, Graph)
    && Count(v[..k], Meta) <= Count(v[..i], Meta) <= Count(v, Meta)
    && Count(v[..k], Graph) <= Count(v[..i], Graph) <= Count(v, Graph)
    && acc.meta == Events(v, Meta)[Count(v[..k], Meta)..Count(v[..i], Meta)]
    && acc.graph == Events(v, Graph)[Count(v[..k], Graph)..Count(v[..i], Graph)]
  }

  lemma TakeCollects(space: Text, v: Log, k: nat, i: nat, acc: PollState)
    requires k <= i < |v| && Collected(space, v, k, i, acc)
    ensures Collected(space, v, k, i + 1, Take(space, v, acc, i))
  {
    hide EventsBytes, Events, Count, Envelopes;
    EventsOfTx(v, i, Meta);
    EventsOfTx(v, i, Graph);
  }

  lemma {:induction false} ScanSkips(space: Text, v: Log, k: nat, lim: PollLimits, i: nat)
    requires i <= k <= |v|
    ensures Scan(space, v, Head(v[..k]), lim, NothingPolled, i) == Scan(space, v, Head(v[..k]), lim, NothingPolled, k)
    decreases k - i
  {
    if i < k {
      ClosedCursorWants(v, k, i, Meta);
      ClosedCursorWants(v, k, i, Graph);
      ScanSkips(space, v, k, lim, i + 1);
    }
  }

  /** Why a scan from rank k ended at rank j. */
  predicate EndsAtLimit(space: Text, v: Log, lim: PollLimits, k: nat, j: nat, acc: PollState)
    requires k <= j <= |v|
  {
    j == |v| || ZeroLimited(v, lim, j) || (j > k && Exceeds(space, v, lim, acc, j))
  }

  /** All four limits are kept. */
  predicate WithinLimits(acc: PollState, lim: PollLimits) {
    && |acc.meta| <= lim.metaEvents && |acc.graph| <= lim.graphEvents
    && acc.metaBytes <= lim.metaBytes && acc.graphBytes <= lim.graphBytes
  }

  lemma {:induction false} ScanCollects(space: Text, v: Log, k: nat, lim: PollLimits, acc: PollState, i: nat)
    requires NonEmptyTxs(v) && k <= i <= |v| && Collected(space, v, k, i, acc)
    requires acc.meta != [] || acc.graph != [] <==> i > k
    requires i > k + 1 ==> WithinLimits(acc, lim)
    ensures var (out, j) := Scan(space, v, Head(v[..k]), lim, acc, i);
      && j >= i && Collected(space, v, k, j, out) && EndsAtLimit(space, v, lim, k, j, out)
      && (i < |v| && i == k && !ZeroLimited(v, lim, k) ==> j > k)
      && (j > k + 1 ==> WithinLimits(out, lim))
    decreases |v| - i
  {
    hide PartSize, Collected, Envelopes, Count, Events;
    if i < |v| {
      assert v[i] in v;
      ClosedCursorWants(v, k, i, Meta);
      ClosedCursorWants(v, k, i, Graph);
      assert Wanted(v, Head(v[..k]), i) && !Straddles(v, Head(v[..k]), i);
      if !Stops(space, v, Head(v[..k]), lim, acc, i) {
        var next := Take(space, v, acc, i);
        TakeCollects(space, v, k, i, acc);
        assert |next.meta| == |acc.meta| + |v[i].metaEvents| && |next.graph| == |acc.graph| + |v[i].graphEvents|;
        assert next.meta != [] || next.graph != [];
        ScanCollects(space, v, k, lim, next, i + 1);
      }
    }
  }

  /** The rank a poll from the closed cursor at k reaches. */
  function NextRank(space: Text, v: Log, k: nat, lim: PollLimits): (j: nat)
    requires k <= |v|
    ensures j <= |v|
  {
    Scan(space, v, Head(v[..k]), lim.Clipped(), NothingPolled, 0).1
  }

  lemma LastSeq(v: Log, k: nat, j: nat, s: Stream)
    requires k <= j <= |v| && Count(v[..k], s) < Count(v[..j], s) <= Count(v, s)
    ensures Events(v, s)[Count(v[..k], s)..Count(v[..j], s)][Count(v[..j], s) - Count(v[..k], s) - 1].seqNo ==
      Count(v[..j], s)
  {
    hide Events, Count;
    SeqNumbersDense(v, s);
  }

  /** From the closed cursor at rank k, a poll returns exactly the whole transactions k+1..j of
      both streams and the closed cursor at j.  It moves (j > k) unless nothing is left or a
      zero limit forbids the next transaction, goes over the limits only with one leading
      transaction, and ends short of the head only at a limit. */
  lemma PollFromClosedCursor(space: Text, v: Log, k: nat, lim: PollLimits)
    requires NonEmptyTxs(v) && k <= |v|
    ensures var r, j := Poll(space, v, Head(v[..k]), lim), NextRank(space, v, k, lim);
      var clipped := PollLimits(AtLeast(0, lim.metaEvents), AtLeast(0, lim.graphEvents),
                                AtLeast(1, lim.metaBytes), AtLeast(1, lim.graphBytes));
      && k <= j
      && Count(v[..k], Meta) <= Count(v[..j], Meta) <= Count(v, Meta)
      && Count(v[..k], Graph) <= Count(v[..j], Graph) <= Count(v, Graph)
      && r.meta == Events(v, Meta)[Count(v[..k], Meta)..Count(v[..j], Meta)]
      && r.graph == Events(v, Graph)[Count(v[..k], Graph)..Count(v[..j], Graph)]
      && r.cursorAfter == Head(v[..j])
      && (j == k <==> k == |v| || ZeroLimited(v, clipped, k))
      && (j > k + 1 ==>
            && |r.meta| <= clipped.metaEvents && |r.graph| <= clipped.graphEvents
            && StreamBytes(space, v, k, j, Meta) <= clipped.metaBytes
            && StreamBytes(space, v, k, j, Graph) <= clipped.graphBytes)
      && (j < |v| && j > k ==>
            || ZeroLimited(v, clipped, j)
            || |r.meta| + |v[j].metaEvents| > clipped.metaEvents
            || |r.graph| + |v[j].graphEvents| > clipped.graphEvents
            || StreamBytes(space, v, k, j + 1, Meta) > clipped.metaBytes
            || StreamBytes(space, v, k, j + 1, Graph) > clipped.graphBytes)
  {
    hide Scan, Events, Count, PartSize, TxPart;
    var clipped := lim.Clipped();
    ScanSkips(space, v, k, clipped, 0);
    NothingCollected(space, v, k);
    ScanCollects(space, v, k, clipped, NothingPolled, k);
    var (out, j) := Scan(space, v, Head(v[..k]), clipped, NothingPolled, k);
    if Count(v[..k], Meta) < Count(v[..j], Meta) {
      LastSeq(v, k, j, Meta);
    }
    if Count(v[..k], Graph) < Count(v[..j], Graph) {
      LastSeq(v, k, j, Graph);
    }
    if k < |v| && ZeroLimited(v, clipped, k) {
      ZeroLimitStops(space, v, k, clipped);
    }
  }

  lemma NothingCollected(space: Text, v: Log, k: nat)
    requires k <= |v|
    ensures Collected(space, v, k, k, NothingPolled)
  {
    CountMonotone(v, k, |v|, Meta);
    CountMonotone(v, k, |v|, Graph);
    assert v[..|v|] == v;
  }

  lemma ZeroLimitStops(space: Text, v: Log, k: nat, lim: PollLimits)
    requires NonEmptyTxs(v) && k < |v| && ZeroLimited(v, lim, k)
    ensures Scan(space, v, Head(v[..k]), lim, NothingPolled, k).1 == k
  {
    assert v[k] in v;
    ClosedCursorWants(v, k, k, Meta);
    ClosedCursorWants(v, k, k, Graph);
  }

  // ---------------------------------------------------------------- polling to the end

  function Unread(v: Log, cursor: Cursor): int {
    Count(v, Meta) + Count(v, Graph) - cursor.metaSeq - cursor.graphSeq
  }

  /** Poll after poll, each from the cursor the last one returned. */
  function PollAll(space: Text, v: Log, cursor: Cursor, lim: PollLimits): (seq<EventEnvelope>, seq<EventEnvelope>)
    decreases AtLeast(0, Unread(v, cursor))
  {
    var r := Poll(space, v, cursor, lim);
    if Unread(v, cursor) <= 0 || Unread(v, r.cursorAfter) >= Unread(v, cursor) then ([], [])
    else
      var rest := PollAll(space, v, r.cursorAfter, lim);
      (r.meta + rest.0, r.graph + rest.1)
  }

  /** Polling with positive limits from a closed cursor delivers the rest of both streams once,
      in order, however the four limits cut it. */
  lemma {:induction false} PollsDeliverAll(space: Text, v: Log, k: nat, lim: PollLimits)
    requires NonEmptyTxs(v) && k <= |v| && lim.Positive()
    ensures Count(v[..k], Meta) <= Count(v, Meta) && Count(v[..k], Graph) <= Count(v, Graph)
    ensures PollAll(space, v, Head(v[..k]), lim) ==
      (Events(v, Meta)[Count(v[..k], Meta)..], Events(v, Graph)[Count(v[..k], Graph)..])
    decreases |v| - k
  {
    hide Poll, Events, Count, NonEmptyTxs;
    PollFromClosedCursor(space, v, k, lim);
    var j := NextRank(space, v, k, lim);
    if k < |v| {
      HeadAdvances(v, k, j);
      PollsDeliverAll(space, v, j, lim);
      var r := Poll(space, v, Head(v[..k]), lim);
      assert r.meta + Events(v, Meta)[Count(v[..j], Meta)..] == Events(v, Meta)[Count(v[..k], Meta)..];
      assert r.graph + Events(v, Graph)[Count(v[..j], Graph)..] == Events(v, Graph)[Count(v[..k], Graph)..];
      assert Unread(v, Head(v[..j])) < Unread(v, Head(v[..k])) && Unread(v, Head(v[..j])) >= 0;
    } else {
      assert v[..k] == v;
      assert Events(v, Meta)[Count(v, Meta)..] == [] && Events(v, Graph)[Count(v, Graph)..] == [];
    }
  }
}
