/** Guarded ingestion of event batches, and snapshots of the graph it builds. */
module IngestionSpec {
  import opened Texts
  import opened Json
  import opened EventLog
  import opened GraphModel

  datatype IngestibleGraphEvent = IngestibleGraphEvent(eventId: EventId, event: GraphEvent)

  /** How an event payload reads as a graph event. */
  type Decoder = Payload -> GraphEvent

  function CompareCursor(left: Cursor, right: Cursor): int {
    if left.metaSeq != right.metaSeq then left.metaSeq - right.metaSeq else left.graphSeq - right.graphSeq
  }

  /** The cursor, the event ids seen and the graph built from them. */
  datatype Ingested = Ingested(cursor: Cursor, seen: set<EventId>, graph: Graph)

  const NothingIngested := Ingested(Cursor(0, 0), {}, EmptyGraph)

  /** The events of a batch whose ids are new, with all ids seen afterwards. */
  function Unique(events: seq<IngestibleGraphEvent>, seen: set<EventId>): (seq<GraphEvent>, set<EventId>) {
    if events == [] then ([], seen)
    else
      var (unique, after) := Unique(events[..|events| - 1], seen);
      var last := events[|events| - 1];
      if last.eventId in after then (unique, after) else (unique + [last.event], after + {last.eventId})
  }

  datatype IngestionResult = IngestionResult(appliedCount: nat, duplicateCount: int, cursorAdvanced: bool,
      nextCursor: Cursor)

  /** `applyGuardedSyncBatch`. */
  function Ingest(st: Ingested, candidate: Cursor, events: seq<IngestibleGraphEvent>): (Ingested, IngestionResult) {
    if CompareCursor(candidate, st.cursor) <= 0 then (st, IngestionResult(0, 0, false, st.cursor))
    else
      var (unique, seen) := Unique(events, st.seen);
      (Ingested(candidate, seen, ApplyEvents(st.graph, unique)),
        IngestionResult(|unique|, |events| - |unique|, true, candidate))
  }

  // ---------------------------------------------------------------- batches cut from a log

  function Decoded(decode: Decoder, es: seq<EventEnvelope>): (r: seq<IngestibleGraphEvent>)
    ensures |r| == |es|
  {
    seq(|es|, i requires 0 <= i < |es| => IngestibleGraphEvent(es[i].eventId, decode(es[i].payload)))
  }

  function JustEvents(entries: seq<IngestibleGraphEvent>): (r: seq<GraphEvent>)
    ensures |r| == |entries|
  {
    seq(|entries|, i requires 0 <= i < |entries| => entries[i].event)
  }

  function IdsOf(es: seq<EventEnvelope>): set<EventId> {
    set e | e in es :: e.eventId
  }

  /** The graph of a visible log: what the server's per-event fold over it gives. */
  function GraphOf(decode: Decoder, v: Log): Graph {
    ApplyEvents(EmptyGraph, JustEvents(Decoded(decode, Events(v, Stream.Graph))))
  }

  /** The graph events of transactions a to b of a log. */
  function Slice(v: Log, a: nat, b: nat): seq<EventEnvelope>
    requires a <= b <= |v|
  {
    CountMonotone(v, a, b, Stream.Graph);
    Events(v, Stream.Graph)[Count(v[..a], Stream.Graph)..Count(v[..b], Stream.Graph)]
  }

  /** The ingested state is that of the first p transactions. */
  ghost predicate Covers(decode: Decoder, v: Log, st: Ingested, p: nat) {
    && p <= |v|
    && st.cursor == Head(v[..p])
    && st.seen == IdsOf(Events(v[..p], Stream.Graph))
    && st.graph == GraphOf(decode, v[..p])
  }

  lemma StartCovers(decode: Decoder, v: Log)
    ensures Covers(decode, v, NothingIngested, 0)
  {
  }

  /** Cursors of a log compare like the positions they stand for. */
  lemma CursorOrder(v: Log, p: nat, q: nat)
    requires NonEmptyTxs(v) && p <= |v| && q <= |v|
    ensures CompareCursor(Head(v[..p]), Head(v[..q])) <= 0 <==> p <= q
  {
    if p < q {
      HeadAdvances(v, p, q);
    } else if q < p {
      HeadAdvances(v, q, p);
    }
  }

  /** No two events of a log with fresh transaction ids share an event id. */
  lemma EventIdsDistinct(v: Log, s: Stream, i: nat, j: nat)
    requires UniqueIds(v) && i < j < Count(v, s)
    ensures Events(v, s)[i].eventId != Events(v, s)[j].eventId
  {
    hide UniqueIds, Events, Count;
    var a, x := EventIdAt(v, s, i);
    var b, y := EventIdAt(v, s, j);
    if v[a].txId == v[b].txId {
      SameIdSameTx(v, a, b);
    }
  }

  lemma SameIdSameTx(v: Log, a: nat, b: nat)
    requires UniqueIds(v) && a < |v| && b < |v| && v[a].txId == v[b].txId
    ensures a == b
  {
  }

  lemma EventIdAt(v: Log, s: Stream, p: nat) returns (k: nat, ordinal: nat)
    requires p < Count(v, s)
    ensures k < |v| && p == Count(v[..k], s) + ordinal && Events(v, s)[p].eventId == EventId(v[k].txId, s, ordinal + 1)
  {
    hide Events, Count;
    k := TxOfPosition(v, p, s);
    ordinal := p - Count(v[..k], s);
    EventsOfTx(v, k, s);
    assert Events(v, s)[p] == Events(v, s)[Count(v[..k], s)..Count(v[..k + 1], s)][ordinal];
  }

  lemma DecodedConcat(decode: Decoder, a: seq<EventEnvelope>, b: seq<EventEnvelope>)
    ensures Decoded(decode, a + b) == Decoded(decode, a) + Decoded(decode, b)
    ensures JustEvents(Decoded(decode, a + b)) == JustEvents(Decoded(decode, a)) + JustEvents(Decoded(decode, b))
  {
  }

  lemma {:induction false} UniqueConcat(a: seq<IngestibleGraphEvent>, b: seq<IngestibleGraphEvent>, seen: set<EventId>)
    ensures var (ua, sa) := Unique(a, seen);
      var (ub, sb) := Unique(b, sa);
      Unique(a + b, seen) == (ua + ub, sb)
  {
    if b == [] {
      assert a + b == a;
      assert Unique(a, seen).0 + [] == Unique(a, seen).0;
    } else {
      assert (a + b)[..|a + b| - 1] == a + b[..|b| - 1];
      UniqueConcat(a, b[..|b| - 1], seen);
      var ua, last := Unique(a, seen), b[|b| - 1];
      var ub := Unique(b[..|b| - 1], ua.1);
      assert (a + b)[|a + b| - 1] == last;
      assert ua.0 + (ub.0 + [last.event]) == ua.0 + ub.0 + [last.event];
    }
  }

  /** Nothing of a run already seen is applied. */
  lemma {:induction false} SeenRunIgnored(decode: Decoder, es: seq<EventEnvelope>, seen: set<EventId>)
    requires IdsOf(es) <= seen
    ensures Unique(Decoded(decode, es), seen) == ([], seen)
  {
    if es != [] {
      var init, last := es[..|es| - 1], es[|es| - 1];
      assert last.eventId in IdsOf(es) && IdsOf(init) <= IdsOf(es);
      SeenRunIgnored(decode, init, seen);
      assert Decoded(decode, es)[..|es| - 1] == Decoded(decode, init);
    }
  }

  /** All of a run of new, distinct events is applied, in order. */
  lemma {:induction false} NewRunApplied(decode: Decoder, es: seq<EventEnvelope>, seen: set<EventId>)
    requires forall i, j | 0 <= i < j < |es| :: es[i].eventId != es[j].eventId
    requires forall e | e in es :: e.eventId !in seen
    ensures Unique(Decoded(decode, es), seen) == (JustEvents(Decoded(decode, es)), seen + IdsOf(es))
  {
    if es != [] {
      var init, last := es[..|es| - 1], es[|es| - 1];
      NewRunApplied(decode, init, seen);
      assert es == init + [last];
      hide Unique, Decoded, JustEvents, IdsOf;
      UniqueSnoc(decode, init, last, seen);
      DecodedSnoc(decode, init, last);
      IdsSnoc(init, last);
      assert seen + IdsOf(es) == seen + IdsOf(init) + {last.eventId};
      LastIsNew(init, last);
    } else {
      assert seen + IdsOf(es) == seen;
      assert Decoded(decode, es) == [];
    }
  }

  lemma LastIsNew(init: seq<EventEnvelope>, last: EventEnvelope)
    requires forall i | 0 <= i < |init| :: init[i].eventId != last.eventId
    ensures last.eventId !in IdsOf(init)
  {
  }

  lemma UniqueSnoc(decode: Decoder, init: seq<EventEnvelope>, last: EventEnvelope, seen: set<EventId>)
    ensures var (unique, after) := Unique(Decoded(decode, init), seen);
      Unique(Decoded(decode, init + [last]), seen) ==
        if last.eventId in after then (unique, after) else (unique + [decode(last.payload)], after + {last.eventId})
  {
    assert Decoded(decode, init + [last])[..|init|] == Decoded(decode, init);
  }

  lemma IdsSnoc(init: seq<EventEnvelope>, last: EventEnvelope)
    ensures IdsOf(init + [last]) == IdsOf(init) + {last.eventId}
  {
  }

  lemma DecodedSnoc(decode: Decoder, init: seq<EventEnvelope>, last: EventEnvelope)
    ensures JustEvents(Decoded(decode, init + [last])) == JustEvents(Decoded(decode, init)) + [decode(last.payload)]
  {
  }

  /** What a batch of transactions a..b starts with when the first p are covered. */
  lemma SliceSplits(v: Log, a: nat, p: nat, b: nat)
    requires a <= p <= b <= |v|
    ensures Slice(v, a, b) == Slice(v, a, p) + Slice(v, p, b)
    ensures Events(v[..b], Stream.Graph) == Events(v[..p], Stream.Graph) + Slice(v, p, b)
  {
    hide Events, Count;
    var all := Events(v, Stream.Graph);
    var cp, cb := Count(v[..p], Stream.Graph), Count(v[..b], Stream.Graph);
    CountMonotone(v, a, p, Stream.Graph);
    CountMonotone(v, p, b, Stream.Graph);
    EventsPrefix(v, p, Stream.Graph);
    EventsPrefix(v, b, Stream.Graph);
    assert all[..cb] == all[..cp] + all[cp..cb];
  }

  lemma SliceAt(v: Log, a: nat, b: nat, i: nat)
    requires a <= b <= |v| && i < |Slice(v, a, b)|
    ensures Count(v[..a], Stream.Graph) + i < Count(v[..b], Stream.Graph) <= Count(v, Stream.Graph)
    ensures Slice(v, a, b)[i] == Events(v, Stream.Graph)[Count(v[..a], Stream.Graph) + i]
  {
    hide Events, Count;
    CountMonotone(v, a, b, Stream.Graph);
  }

  lemma SliceIdsDistinct(v: Log, a: nat, b: nat)
    requires UniqueIds(v) && a <= b <= |v|
    ensures forall i, j | 0 <= i < j < |Slice(v, a, b)| :: Slice(v, a, b)[i].eventId != Slice(v, a, b)[j].eventId
  {
    hide UniqueIds, Slice, Events, Count;
    forall i, j | 0 <= i < j < |Slice(v, a, b)| ensures Slice(v, a, b)[i].eventId != Slice(v, a, b)[j].eventId {
      SliceAt(v, a, b, i);
      SliceAt(v, a, b, j);
      EventIdsDistinct(v, Stream.Graph, Count(v[..a], Stream.Graph) + i, Count(v[..a], Stream.Graph) + j);
    }
  }

  /** No event past the covered prefix has been seen. */
  lemma SliceIsNew(v: Log, p: nat, b: nat)
    requires UniqueIds(v) && p <= b <= |v|
    ensures forall e | e in Slice(v, p, b) :: e.eventId !in IdsOf(Events(v[..p], Stream.Graph))
  {
    hide UniqueIds, Events, Count, Slice;
    EventsPrefix(v, p, Stream.Graph);
    var before := Events(v[..p], Stream.Graph);
    forall e, d | e in Slice(v, p, b) && d in before ensures e.eventId != d.eventId {
      var i :| 0 <= i < |Slice(v, p, b)| && Slice(v, p, b)[i] == e;
      SliceAt(v, p, b, i);
      var j :| 0 <= j < |before| && before[j] == d;
      EventIdsDistinct(v, Stream.Graph, j, Count(v[..p], Stream.Graph) + i);
    }
  }

  /** A batch of transactions a..b with the cursor at b, offered when the first p are covered and
      leaving no gap: it is ignored as stale exactly when b brings nothing new, and otherwise
      applies exactly the events of p..b, once each, counts the others as duplicates, and moves the
      cursor up. */
  lemma BatchCovers(decode: Decoder, v: Log, st: Ingested, p: nat, a: nat, b: nat)
    requires UniqueIds(v) && NonEmptyTxs(v) && Covers(decode, v, st, p) && a <= b <= |v| && (b <= p || a <= p)
    ensures var (st', r) := Ingest(st, Head(v[..b]), Decoded(decode, Slice(v, a, b)));
      if b <= p then st' == st && !r.cursorAdvanced && r.appliedCount == 0
      else
        && Covers(decode, v, st', b) && r.cursorAdvanced && r.nextCursor == Head(v[..b])
        && r.appliedCount == |Slice(v, p, b)| && r.duplicateCount == |Slice(v, a, p)|
        && CompareCursor(st'.cursor, st.cursor) > 0
  {
    hide UniqueIds, NonEmptyTxs, Events, Count, Slice, ApplyEvents, Unique, IdsOf, Decoded, JustEvents;
    CursorOrder(v, b, p);
    if b > p {
      SliceSplits(v, a, p, b);
      SliceIdsDistinct(v, p, b);
      SliceIsNew(v, p, b);
      SliceWithin(v, a, p);
      var known, added := Slice(v, a, p), Slice(v, p, b);
      DecodedConcat(decode, known, added);
      SeenRunIgnored(decode, known, st.seen);
      NewRunApplied(decode, added, st.seen);
      UniqueConcat(Decoded(decode, known), Decoded(decode, added), st.seen);
      DecodedConcat(decode, Events(v[..p], Stream.Graph), added);
      ApplyConcat(EmptyGraph, JustEvents(Decoded(decode, Events(v[..p], Stream.Graph))),
        JustEvents(Decoded(decode, added)));
      IdsConcat(Events(v[..p], Stream.Graph), added);
      var applied := JustEvents(Decoded(decode, added));
      assert [] + applied == applied;
    }
  }

  lemma IdsConcat(a: seq<EventEnvelope>, b: seq<EventEnvelope>)
    ensures IdsOf(a + b) == IdsOf(a) + IdsOf(b)
  {
  }

  lemma SliceWithin(v: Log, a: nat, p: nat)
    requires a <= p <= |v|
    ensures IdsOf(Slice(v, a, p)) <= IdsOf(Events(v[..p], Stream.Graph))
  {
    EventsPrefix(v, p, Stream.Graph);
    CountMonotone(v, a, p, Stream.Graph);
    forall e | e in Slice(v, a, p) ensures e in Events(v[..p], Stream.Graph) {
      var i :| 0 <= i < |Slice(v, a, p)| && Slice(v, a, p)[i] == e;
      assert Events(v, Stream.Graph)[..Count(v[..p], Stream.Graph)][Count(v[..a], Stream.Graph) + i] == e;
    }
  }

  // ---------------------------------------------------------------- every run of batches

  /** A batch: which transactions it carries of the visible log as it was when the batch was made. */
  datatype AnyBatch = Batch(log: Log, a: nat, b: nat)

  type Batch = x: AnyBatch | x.a <= x.b <= |x.log| witness Batch([], 0, 0)

  function Max(x: nat, y: nat): nat { if x < y then y else x }

  /** Every batch is from some earlier state of the log, and one that reaches past what is covered
      starts at or before its end. */
  ghost predicate NoGaps(v: Log, p: nat, batches: seq<Batch>)
    decreases |batches|
  {
    batches == [] ||
    (&& batches[0].log <= v && (batches[0].b <= p || batches[0].a <= p)
     && NoGaps(v, Max(p, batches[0].b), batches[1..]))
  }

  function IngestAll(decode: Decoder, st: Ingested, batches: seq<Batch>): Ingested
    decreases |batches|
  {
    if batches == [] then st
    else
      var x := batches[0];
      IngestAll(decode, Ingest(st, Head(x.log[..x.b]), Decoded(decode, Slice(x.log, x.a, x.b))).0, batches[1..])
  }

  function FurthestEnd(p: nat, batches: seq<Batch>): nat
    decreases |batches|
  {
    if batches == [] then p else FurthestEnd(Max(p, batches[0].b), batches[1..])
  }

  /** A batch of an earlier log is a batch of the log as it is. */
  lemma SliceStable(v: Log, w: Log, a: nat, b: nat)
    requires v <= w && a <= b <= |v|
    ensures Slice(v, a, b) == Slice(w, a, b) && v[..b] == w[..b]
  {
    hide Events, Count;
    assert w[..|v|] == v && v[..a] == w[..a] && v[..b] == w[..b];
    EventsPrefix(w, |v|, Stream.Graph);
    CountMonotone(v, a, b, Stream.Graph);
    var n := Count(v, Stream.Graph);
    assert Events(w, Stream.Graph)[..n] == Events(v, Stream.Graph);
  }

  /** However batches overlap, repeat or arrive late while the log grows, without a gap the client's
      graph is the server's fold of everything up to the furthest batch end, each event applied once. */
  lemma {:induction false} OverlapIsHarmless(decode: Decoder, v: Log, st: Ingested, p: nat, batches: seq<Batch>)
    requires UniqueIds(v) && NonEmptyTxs(v) && Covers(decode, v, st, p) && NoGaps(v, p, batches)
    ensures Covers(decode, v, IngestAll(decode, st, batches), FurthestEnd(p, batches))
    decreases |batches|
  {
    hide UniqueIds, NonEmptyTxs, Covers, Ingest, Slice, Decoded;
    if batches != [] {
      var x := batches[0];
      SliceStable(x.log, v, x.a, x.b);
      BatchCovers(decode, v, st, p, x.a, x.b);
      var next := Ingest(st, Head(x.log[..x.b]), Decoded(decode, Slice(x.log, x.a, x.b))).0;
      OverlapIsHarmless(decode, v, next, Max(p, x.b), batches[1..]);
    }
  }

  /** A covered prefix stays covered as the log grows. */
  lemma GrowthCovers(decode: Decoder, v: Log, w: Log, st: Ingested, p: nat)
    requires Covers(decode, v, st, p) && v <= w
    ensures Covers(decode, w, st, p)
  {
    assert w[..p] == v[..p];
  }

  // ---------------------------------------------------------------- snapshots

  /** A listing of a map's values, in any order. */
  ghost predicate Lists<V(!new)>(listing: seq<V>, m: map<Text, V>) {
    (forall x | x in listing :: x in m.Values) && (forall x | x in m.Values :: x in listing)
  }

  /** `hydrateStoreFromProjection`: the graph after a reset and re-creation of what is listed. */
  function Hydrated(nodes: seq<GraphNode>, links: seq<GraphLink>): Graph {
    ApplyEvents(ApplyEvents(EmptyGraph, CreateNodes(nodes)), CreateLinks(links))
  }

  /** A snapshot of a graph, listed in any order, hydrates to the same graph. */
  lemma SnapshotRoundTrip(g: Graph, nodes: seq<GraphNode>, links: seq<GraphLink>)
    requires g.WellKeyed() && Lists(nodes, g.nodes) && Lists(links, g.links)
    ensures Hydrated(nodes, links) == g
  {
    hide ApplyEvents, NodeMap, LinkMap, Lists;
    CreateNodesDoes(EmptyGraph, nodes);
    CreateLinksDoes(ApplyEvents(EmptyGraph, CreateNodes(nodes)), links);
    NodeListing(g, nodes);
    LinkListing(g, links);
    assert map[] + g.nodes == g.nodes && map[] + g.links == g.links;
  }

  lemma NodeListing(g: Graph, nodes: seq<GraphNode>)
    requires g.WellKeyed() && Lists(nodes, g.nodes)
    ensures NodeMap(nodes) == g.nodes
  {
    hide NodeMap;
    NodeMapKeys(nodes);
    forall id | id in g.nodes ensures id in NodeMap(nodes) {
      assert g.nodes[id] in g.nodes.Values;
    }
  }

  lemma LinkListing(g: Graph, links: seq<GraphLink>)
    requires g.WellKeyed() && Lists(links, g.links)
    ensures LinkMap(links) == g.links
  {
    hide LinkMap;
    LinkMapKeys(links);
    forall id | id in g.links ensures id in LinkMap(links) {
      assert g.links[id] in g.links.Values;
    }
  }

  /** Every graph ingestion builds is keyed by id, so its snapshots restore it. */
  lemma GraphsAreKeyed(decode: Decoder, v: Log)
    ensures GraphOf(decode, v).WellKeyed()
  {
    EventsKeepKeys(EmptyGraph, JustEvents(Decoded(decode, Events(v, Stream.Graph))));
  }
}
