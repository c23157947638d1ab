/** The two-stream transaction log every store, gateway and replica agrees on: a list of
    bundles, and everything a store records about it as functions of that list. */
module EventLog {
  import opened Texts
  import opened Json

  datatype Stream = Meta | Graph

  datatype TxBundle = TxBundle(txId: Text, metaEvents: seq<Payload>, graphEvents: seq<Payload>) {
    function Part(s: Stream): seq<Payload> {
      if s.Meta? then metaEvents else graphEvents
    }

    predicate Empty() {
      metaEvents == [] && graphEvents == []
    }
  }

  type Log = seq<TxBundle>

  datatype Cursor = Cursor(metaSeq: int, graphSeq: int) {
    function At(s: Stream): int {
      if s.Meta? then metaSeq else graphSeq
    }
  }

  /** `<txId>-m-<n>` and `<txId>-g-<n>`, kept as their three components. */
  datatype EventId = EventId(txId: Text, stream: Stream, ordinal: nat)

  datatype EventEnvelope = EventEnvelope(stream: Stream, seqNo: nat, txId: Text, eventId: EventId, payload: Payload)

  datatype Range = Range(start: nat, end: nat, count: nat)

  datatype TxIndexEntry = TxIndexEntry(txId: Text, txIndex: nat, meta: Range, graph: Range) {
    function Part(s: Stream): Range {
      if s.Meta? then meta else graph
    }
  }

  datatype EventRef = EventRef(stream: Stream, seqNo: nat, eventId: EventId)

  datatype Receipt = Receipt(txId: Text, txIndex: nat, cursorAfter: Cursor, metaRefs: seq<EventRef>,
      graphRefs: seq<EventRef>)

  /** A transaction as a store returns it. */
  datatype TxView = TxView(txId: Text, txIndex: nat, meta: seq<EventEnvelope>, graph: seq<EventEnvelope>) {
    function Part(s: Stream): seq<EventEnvelope> {
      if s.Meta? then meta else graph
    }
  }

  // ---------------------------------------------------------------- what a log determines

  /** Number of events of one stream. */
  function Count(log: Log, s: Stream): (n: nat) {
    if log == [] then 0 else Count(log[..|log| - 1], s) + |log[|log| - 1].Part(s)|
  }

  function Head(log: Log): Cursor {
    Cursor(Count(log, Meta), Count(log, Graph))
  }

  /** The envelopes a bundle gets when `before` events of the stream precede it. */
  function Envelopes(b: TxBundle, s: Stream, before: nat): (es: seq<EventEnvelope>)
    ensures |es| == |b.Part(s)|
  {
    seq(|b.Part(s)|, i requires 0 <= i < |b.Part(s)| =>
      EventEnvelope(s, before + i + 1, b.txId, EventId(b.txId, s, i + 1), b.Part(s)[i]))
  }

  /** One whole stream, numbered from 1. */
  function Events(log: Log, s: Stream): (es: seq<EventEnvelope>)
    ensures |es| == Count(log, s)
  {
    if log == [] then []
    else
      var init := log[..|log| - 1];
      Events(init, s) + Envelopes(log[|log| - 1], s, Count(init, s))
  }

  function RangeAfter(before: nat, count: nat): Range {
    if count > 0 then Range(before + 1, before + count, count) else Range(before, before, 0)
  }

  /** The index entry of a bundle appended to `before`. */
  function EntryFor(before: Log, b: TxBundle): TxIndexEntry {
    TxIndexEntry(b.txId, |before| + 1,
                 RangeAfter(Count(before, Meta), |b.metaEvents|),
                 RangeAfter(Count(before, Graph), |b.graphEvents|))
  }

  function IndexOf(log: Log): (index: seq<TxIndexEntry>)
    ensures |index| == |log|
  {
    if log == [] then []
    else IndexOf(log[..|log| - 1]) + [EntryFor(log[..|log| - 1], log[|log| - 1])]
  }

  function RefsOf(es: seq<EventEnvelope>): (refs: seq<EventRef>)
    ensures |refs| == |es|
  {
    seq(|es|, i requires 0 <= i < |es| => EventRef(es[i].stream, es[i].seqNo, es[i].eventId))
  }

  /** The receipt of a bundle appended to `before`. */
  function ReceiptFor(before: Log, b: TxBundle): Receipt {
    Receipt(b.txId, |before| + 1,
            Cursor(Count(before, Meta) + |b.metaEvents|, Count(before, Graph) + |b.graphEvents|),
            RefsOf(Envelopes(b, Meta, Count(before, Meta))),
            RefsOf(Envelopes(b, Graph, Count(before, Graph))))
  }

  function ReceiptAt(log: Log, k: nat): Receipt
    requires k < |log|
  {
    ReceiptFor(log[..k], log[k])
  }

  /** A reference to the event at a position of a stream. */
  ghost predicate RefersTo(ref: EventRef, log: Log, s: Stream, p: nat) {
    && ref.stream == s && ref.seqNo == p + 1
    && p < Count(log, s) && Events(log, s)[p].seqNo == p + 1 && Events(log, s)[p].stream == s
    && ref.eventId == Events(log, s)[p].eventId
  }

  predicate UniqueIds(log: Log) {
    forall i, j | 0 <= i < j < |log| :: log[i].txId != log[j].txId
  }

  predicate NonEmptyTxs(log: Log) {
    forall b | b in log :: !b.Empty()
  }

  // ---------------------------------------------------------------- growing a log

  lemma {:induction false} CountConcat(a: Log, b: Log, s: Stream)
    ensures Count(a + b, s) == Count(a, s) + Count(b, s)
  {
    if b == [] {
      assert a + b == a;
    } else {
      var init := b[..|b| - 1];
      assert (a + b)[..|a + b| - 1] == a + init;
      CountConcat(a, init, s);
    }
  }

  lemma CountMonotone(log: Log, i: nat, j: nat, s: Stream)
    requires i <= j <= |log|
    ensures Count(log[..i], s) <= Count(log[..j], s) <= Count(log, s)
  {
    assert log[..j] == log[..i] + log[i..j] && log == log[..j] + log[j..];
    CountConcat(log[..i], log[i..j], s);
    CountConcat(log[..j], log[j..], s);
  }

  lemma CountStep(log: Log, k: nat, s: Stream)
    requires k < |log|
    ensures Count(log[..k + 1], s) == Count(log[..k], s) + |log[k].Part(s)|
  {
    assert log[..k + 1][..k] == log[..k];
  }

  lemma PrefixOfPrefix<T>(all: seq<T>, low: seq<T>, more: seq<T>)
    requires low + more <= all
    ensures low <= all
  {
  }

  lemma EventsStep(log: Log, k: nat, s: Stream)
    requires k < |log|
    ensures Events(log[..k + 1], s) == Events(log[..k], s) + Envelopes(log[k], s, Count(log[..k], s))
  {
    assert log[..k + 1][..k] == log[..k];
  }

  /** Events of a prefix are a prefix of the events, so recorded sequence numbers never move. */
  lemma {:induction false} EventsPrefix(log: Log, k: nat, s: Stream)
    requires k <= |log|
    ensures Count(log[..k], s) <= Count(log, s)
    ensures Events(log, s)[..Count(log[..k], s)] == Events(log[..k], s)
    decreases |log| - k
  {
    if k == |log| {
      assert log[..k] == log;
    } else {
      EventsPrefix(log, k + 1, s);
      EventsStep(log, k, s);
      hide Events, Count;
      PrefixOfPrefix(Events(log, s), Events(log[..k], s), Envelopes(log[k], s, Count(log[..k], s)));
    }
  }

  /** The events of transaction k sit between the heads before and after it. */
  lemma EventsOfTx(log: Log, k: nat, s: Stream)
    requires k < |log|
    ensures var from, to := Count(log[..k], s), Count(log[..k + 1], s);
      && from <= to == from + |log[k].Part(s)| <= Count(log, s)
      && Events(log, s)[from..to] == Envelopes(log[k], s, from)
  {
    var from, to := Count(log[..k], s), Count(log[..k + 1], s);
    EventsPrefix(log, k + 1, s);
    CountStep(log, k, s);
    assert log[..k + 1][..k] == log[..k];
    assert Events(log, s)[from..to] == Events(log, s)[..to][from..];
  }

  /** Streams are numbered 1, 2, 3, ... without gaps. */
  lemma {:induction false} SeqNumbersDense(log: Log, s: Stream)
    ensures forall i | 0 <= i < Count(log, s) :: Events(log, s)[i].seqNo == i + 1 && Events(log, s)[i].stream == s
  {
    if log != [] {
      SeqNumbersDense(log[..|log| - 1], s);
    }
  }

  lemma {:induction false} IndexOfAt(log: Log, k: nat)
    requires k < |log|
    ensures IndexOf(log)[k] == EntryFor(log[..k], log[k])
  {
    hide EntryFor;
    var init := log[..|log| - 1];
    if k < |init| {
      IndexOfAt(init, k);
      assert init[..k] == log[..k] && init[k] == log[k];
    } else {
      assert log[..k] == init;
    }
  }

  lemma {:induction false} TxOfPosition(log: Log, p: nat, s: Stream) returns (k: nat)
    requires p < Count(log, s)
    ensures k < |log| && Count(log[..k], s) <= p < Count(log[..k + 1], s)
  {
    assert log != [];
    var n := |log| - 1;
    CountStep(log, n, s);
    hide Count;
    assert log[..n + 1] == log;
    if p < Count(log[..n], s) {
      k := TxOfPosition(log[..n], p, s);
      assert log[..n][..k] == log[..k] && log[..n][..k + 1] == log[..k + 1];
    } else {
      k := n;
    }
  }

  /** The transaction an event position belongs to. */
  lemma TxOfEvent(log: Log, p: nat, s: Stream) returns (k: nat)
    requires p < Count(log, s)
    ensures k < |log| && Count(log[..k], s) <= p < Count(log[..k + 1], s)
    ensures Events(log, s)[p].txId == log[k].txId
  {
    k := TxOfPosition(log, p, s);
    var from := Count(log[..k], s);
    EventsOfTx(log, k, s);
    assert Events(log, s)[p] == Events(log, s)[from..Count(log[..k + 1], s)][p - from];
  }

  // ---------------------------------------------------------------- positions and cursors

  /** A transaction-closed position of one stream. */
  predicate Boundary(log: Log, s: Stream, p: int) {
    exists k: nat | k <= |log| :: p == Count(log[..k], s)
  }

  /** The stored event for part i of transaction k, and the index entry for the transaction. */
  lemma StoredAt(log: Log, k: nat, s: Stream, i: nat)
    requires k < |log| && i < |log[k].Part(s)|
    ensures var p := Count(log[..k], s) + i;
      && p < Count(log, s)
      && Events(log, s)[p] == EventEnvelope(s, p + 1, log[k].txId, EventId(log[k].txId, s, i + 1), log[k].Part(s)[i])
  {
    hide Events, Count;
    var from := Count(log[..k], s);
    EventsOfTx(log, k, s);
    assert Events(log, s)[from + i] == Events(log, s)[from..from + |log[k].Part(s)|][i];
  }

  /** A receipt names what its commit stored: each reference the event at its place in the stream, and
      the head of the log with it. */
  lemma ReceiptNamesStored(before: Log, b: TxBundle)
    ensures var log, r := before + [b], ReceiptFor(before, b);
      && r.txId == b.txId && r.txIndex == |log|
      && r.cursorAfter == Cursor(|Events(log, Meta)|, |Events(log, Graph)|) == Head(log)
      && |r.metaRefs| == |b.metaEvents| && |r.graphRefs| == |b.graphEvents|
      && (forall i | 0 <= i < |r.metaRefs| :: RefersTo(r.metaRefs[i], log, Meta, Count(before, Meta) + i))
      && (forall i | 0 <= i < |r.graphRefs| :: RefersTo(r.graphRefs[i], log, Graph, Count(before, Graph) + i))
  {
    hide Events, Count;
    var log, n := before + [b], |before|;
    assert log[..n] == before && log[..n + 1] == log;
    CountStep(log, n, Meta);
    CountStep(log, n, Graph);
    forall i | 0 <= i < |b.metaEvents|
      ensures RefersTo(ReceiptFor(before, b).metaRefs[i], log, Meta, Count(before, Meta) + i)
    {
      StoredAt(log, n, Meta, i);
    }
    forall i | 0 <= i < |b.graphEvents|
      ensures RefersTo(ReceiptFor(before, b).graphRefs[i], log, Graph, Count(before, Graph) + i)
    {
      StoredAt(log, n, Graph, i);
    }
  }

  /** An index entry numbers its transaction by its place and names the first and the last event of each
      part, or where an empty part would go. */
  lemma EntryNamesParts(log: Log, k: nat, s: Stream)
    requires k < |log|
    ensures var e, before, n := IndexOf(log)[k], Count(log[..k], s), |log[k].Part(s)|;
      && e.txId == log[k].txId && e.txIndex == k + 1 && e.Part(s).count == n
      && e.Part(s).end == before + n && e.Part(s).start == (if n > 0 then before + 1 else before)
  {
    IndexOfAt(log, k);
  }

  /** Every transaction moves the head, so a head names one position of the log. */
  lemma HeadInjective(log: Log, i: nat, j: nat)
    requires NonEmptyTxs(log) && i <= |log| && j <= |log|
    requires Head(log[..i]) == Head(log[..j])
    ensures i == j
  {
    if i < j {
      HeadAdvances(log, i, j);
    } else if j < i {
      HeadAdvances(log, j, i);
    }
  }

  lemma HeadAdvances(log: Log, i: nat, j: nat)
    requires NonEmptyTxs(log) && i < j <= |log|
    ensures Head(log[..i]).metaSeq <= Head(log[..j]).metaSeq
    ensures Head(log[..i]).graphSeq <= Head(log[..j]).graphSeq
    ensures Head(log[..i]) != Head(log[..j])
  {
    CountStep(log, i, Meta);
    CountStep(log, i, Graph);
    assert log[i] in log;
    var upto := log[..j];
    assert upto[..i] == log[..i] && upto[..i + 1] == log[..i + 1];
    CountMonotone(upto, i + 1, j, Meta);
    CountMonotone(upto, i + 1, j, Graph);
    CountMonotone(upto, i, j, Meta);
    CountMonotone(upto, i, j, Graph);
  }
}
