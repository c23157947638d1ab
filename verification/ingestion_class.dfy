/** The explorer's graph store, its guarded ingestion and snapshots, and the server's graph view. */
module Ingestion {
  import opened Texts
  import opened Json
  import opened EventLog
  import opened StoreSpec
  import opened Visibility
  import opened Arrivals
  import opened Digest
  import opened Paging
  import opened Polling
  import opened GraphModel
  import opened IngestionSpec
  import Gateway

  /** What the explorer shows. */
  datatype GraphState = GraphState(graph: Graph, selectedNodes: set<Text>, selectedLinks: set<Text>, cursor: Cursor) {
    /** Everything selected exists. */
    predicate SelectionExists() {
      selectedNodes <= graph.nodes.Keys && selectedLinks <= graph.links.Keys
    }
  }

  function TouchingIds(links: map<Text, GraphLink>, nodeId: Text): set<Text> {
    set id | id in links && links[id].Touches(nodeId)
  }

  function ApplyToState(s: GraphState, e: GraphEvent): GraphState {
    var graph := ApplyEvent(s.graph, e);
    match e
    case NodeDeleted(id) =>
      s.(graph := graph, selectedNodes := s.selectedNodes - {id},
         selectedLinks := s.selectedLinks - TouchingIds(s.graph.links, id))
    case LinkDeleted(id) => s.(graph := graph, selectedLinks := s.selectedLinks - {id})
    case _ => s.(graph := graph)
  }

  function ApplyAllToState(s: GraphState, events: seq<GraphEvent>): GraphState {
    if events == [] then s else ApplyToState(ApplyAllToState(s, events[..|events| - 1]), events[|events| - 1])
  }

  lemma ApplyAllStep(s: GraphState, events: seq<GraphEvent>, i: nat)
    requires i < |events|
    ensures ApplyAllToState(s, events[..i + 1]) == ApplyToState(ApplyAllToState(s, events[..i]), events[i])
  {
    assert events[..i + 1][..i] == events[..i];
  }

  /** The explorer's fold builds the graph the server's per-event fold builds, and never leaves
      something selected that is gone. */
  lemma {:induction false} ClientFoldIsServerFold(s: GraphState, events: seq<GraphEvent>)
    ensures var s' := ApplyAllToState(s, events);
      && s'.graph == ApplyEvents(s.graph, events) && s'.cursor == s.cursor
      && (s.SelectionExists() ==> s'.SelectionExists())
  {
    if events != [] {
      ClientFoldIsServerFold(s, events[..|events| - 1]);
      if s.SelectionExists() {
        SelectionSurvives(ApplyAllToState(s, events[..|events| - 1]), events[|events| - 1]);
      }
    }
  }

  lemma SelectionSurvives(s: GraphState, e: GraphEvent)
    requires s.SelectionExists()
    ensures ApplyToState(s, e).SelectionExists()
  {
  }

  class GraphStore {
    var nodesById: map<Text, GraphNode>
    var linksById: map<Text, GraphLink>
    var selectedNodeIds: set<Text>
    var selectedLinkIds: set<Text>
    var cursor: Cursor

    function State(): GraphState
      reads this
    {
      GraphState(GraphModel.Graph(nodesById, linksById), selectedNodeIds, selectedLinkIds, cursor)
    }

    constructor ()
      ensures State() == GraphState(EmptyGraph, {}, {}, Cursor(0, 0))
    {
      nodesById, linksById, selectedNodeIds, selectedLinkIds, cursor := map[], map[], {}, {}, Cursor(0, 0);
    }

    /** Works on copies and publishes the result once. */
    method ApplyGraphEvents(events: seq<GraphEvent>)
      modifies this
      ensures State() == ApplyAllToState(old(State()), events)
    {
      if |events| == 0 { return; }
      var nodes, links, selectedNodes, selectedLinks := nodesById, linksById, selectedNodeIds, selectedLinkIds;
      for i := 0 to |events|
        invariant unchanged(this)
        invariant GraphState(GraphModel.Graph(nodes, links), selectedNodes, selectedLinks, cursor) ==
          ApplyAllToState(State(), events[..i])
      {
        ApplyAllStep(State(), events, i);
        match events[i]
        case NodeCreated(node) => nodes := nodes[node.id := node];
        case NodeLabelUpdated(id, newName) =>
          if id in nodes { nodes := nodes[id := nodes[id].(name := newName)]; }
        case NodeDeleted(id) =>
          nodes := nodes - {id};
          selectedNodes := selectedNodes - {id};
          links, selectedLinks := Cascade(links, selectedLinks, id);
        case LinkCreated(link) => links := links[link.id := link];
        case LinkDeleted(id) =>
          links := links - {id};
          selectedLinks := selectedLinks - {id};
        case OtherEvent =>
      }
      assert events[..|events|] == events;
      nodesById, linksById, selectedNodeIds, selectedLinkIds := nodes, links, selectedNodes, selectedLinks;
    }

    /** Drops the links of a deleted node, and their selection, one by one. */
    method Cascade(links: map<Text, GraphLink>, selected: set<Text>, nodeId: Text)
        returns (kept: map<Text, GraphLink>, stillSelected: set<Text>)
      ensures kept == Untouched(links, nodeId) && stillSelected == selected - TouchingIds(links, nodeId)
    {
      kept, stillSelected := links, selected;
      var unvisited := links.Keys;
      while unvisited != {}
        invariant unvisited <= kept.Keys <= links.Keys
        invariant forall id | id in kept :: kept[id] == links[id]
        invariant forall id | id in links && id !in unvisited :: id in kept <==> !links[id].Touches(nodeId)
        invariant stillSelected == selected - (TouchingIds(links, nodeId) - unvisited)
        decreases |unvisited|
      {
        var id :| id in unvisited;
        if kept[id].Touches(nodeId) {
          kept := kept - {id};
          stillSelected := stillSelected - {id};
        }
        unvisited := unvisited - {id};
      }
    }

    method SetCursor(cursor: Cursor)
      modifies this`cursor
      ensures State() == old(State()).(cursor := cursor)
    {
      this.cursor := cursor;
    }

    method ResetProjection()
      modifies this
      ensures State() == GraphState(EmptyGraph, {}, {}, Cursor(0, 0))
    {
      nodesById, linksById, selectedNodeIds, selectedLinkIds, cursor := map[], map[], {}, {}, Cursor(0, 0);
    }

    method CreateProjectionSnapshot() returns (nodes: seq<GraphNode>, links: seq<GraphLink>)
      ensures Lists(nodes, nodesById) && Lists(links, linksById)
    {
      nodes := ListValues(nodesById);
      links := ListValues(linksById);
    }

    /** Rebuilds the graph from a snapshot; the cursor and the selection start over. */
    method HydrateFromProjection(nodes: seq<GraphNode>, links: seq<GraphLink>)
      modifies this
      ensures State() == GraphState(Hydrated(nodes, links), {}, {}, Cursor(0, 0))
    {
      hide ApplyEvents, ApplyAllToState;
      ResetProjection();
      ClientFoldIsServerFold(State(), CreateNodes(nodes));
      CreationsSelectNothing(State(), CreateNodes(nodes));
      ApplyGraphEvents(CreateNodes(nodes));
      ClientFoldIsServerFold(State(), CreateLinks(links));
      CreationsSelectNothing(State(), CreateLinks(links));
      ApplyGraphEvents(CreateLinks(links));
    }
  }

  lemma {:induction false} CreationsSelectNothing(s: GraphState, events: seq<GraphEvent>)
    requires s.selectedNodes == {} && s.selectedLinks == {}
    ensures ApplyAllToState(s, events).selectedNodes == {} && ApplyAllToState(s, events).selectedLinks == {}
  {
    if events != [] {
      CreationsSelectNothing(s, events[..|events| - 1]);
    }
  }

  method ListValues<V(!new)>(m: map<Text, V>) returns (values: seq<V>)
    ensures Lists(values, m)
  {
    values := [];
    var unvisited := m.Keys;
    while unvisited != {}
      invariant unvisited <= m.Keys
      invariant forall x | x in values :: exists k | k in m && k !in unvisited :: m[k] == x
      invariant forall k | k in m && k !in unvisited :: m[k] in values
      decreases |unvisited|
    {
      var k :| k in unvisited;
      values := values + [m[k]];
      unvisited := unvisited - {k};
    }
  }

  /** Ingestion into a store, deduplicating per graph space. */
  class SyncIngestion {
    var cursor: Cursor
    var seenEventIdsByGraphSpace: map<Text, set<EventId>>

    constructor ()
      ensures cursor == Cursor(0, 0) && seenEventIdsByGraphSpace == map[]
    {
      cursor, seenEventIdsByGraphSpace := Cursor(0, 0), map[];
    }

    function SeenIn(space: Text): set<EventId>
      reads this
    {
      if space in seenEventIdsByGraphSpace then seenEventIdsByGraphSpace[space] else {}
    }

    function StateWith(space: Text, store: GraphStore): Ingested
      reads this, store
    {
      Ingested(cursor, SeenIn(space), store.State().graph)
    }

    method EnsureGraphSpaceDedup(space: Text) returns (seen: set<EventId>)
      modifies this`seenEventIdsByGraphSpace
      ensures seen == old(SeenIn(space)) && SeenIn(space) == seen && space in seenEventIdsByGraphSpace
      ensures forall other | other != space :: SeenIn(other) == old(SeenIn(other))
    {
      if space !in seenEventIdsByGraphSpace {
        seenEventIdsByGraphSpace := seenEventIdsByGraphSpace[space := {}];
      }
      seen := seenEventIdsByGraphSpace[space];
    }

    method ApplyGuardedSyncBatch(space: Text, store: GraphStore, candidate: Cursor, events: seq<IngestibleGraphEvent>)
        returns (r: IngestionResult)
      modifies this, store
      ensures (StateWith(space, store), r) == Ingest(old(StateWith(space, store)), candidate, events)
      ensures forall other | other != space :: SeenIn(other) == old(SeenIn(other))
    {
      hide ApplyEvents, ApplyAllToState;
      if CompareCursor(candidate, cursor) <= 0 {
        return IngestionResult(0, 0, false, cursor);
      }
      var seen := EnsureGraphSpaceDedup(space);
      ghost var before := seen;
      var unique: seq<GraphEvent> := [];
      var duplicateCount := 0;
      for i := 0 to |events|
        invariant (unique, seen) == Unique(events[..i], before) && duplicateCount == i - |unique|
      {
        assert events[..i + 1][..i] == events[..i] && events[..i + 1][i] == events[i];
        if events[i].eventId in seen {
          duplicateCount := duplicateCount + 1;
        } else {
          seen := seen + {events[i].eventId};
          unique := unique + [events[i].event];
        }
      }
      assert events[..|events|] == events;
      seenEventIdsByGraphSpace := seenEventIdsByGraphSpace[space := seen];
      ClientFoldIsServerFold(store.State(), unique);
      if |unique| > 0 {
        store.ApplyGraphEvents(unique);
      } else {
        NothingApplied(store.State().graph);
      }
      cursor := candidate;
      r := IngestionResult(|unique|, duplicateCount, true, candidate);
    }
  }

  lemma NothingApplied(g: Graph)
    ensures ApplyEvents(g, []) == g
  {
  }

  // ---------------------------------------------------------------- the server's view

  function DecodedPayloads(decode: Decoder, payloads: seq<Payload>): (r: seq<GraphEvent>)
    ensures |r| == |payloads|
  {
    seq(|payloads|, i requires 0 <= i < |payloads| => decode(payloads[i]))
  }

  /** One more transaction of the log, folded into the graph of those before it. */
  lemma GraphOfSnoc(decode: Decoder, v: Log, k: nat)
    requires k < |v|
    ensures GraphOf(decode, v[..k + 1]) ==
      ApplyEvents(GraphOf(decode, v[..k]), DecodedPayloads(decode, v[k].graphEvents))
  {
    hide ApplyEvents, Count;
    assert v[..k + 1][..k] == v[..k];
    var before, added := Events(v[..k], Stream.Graph), Envelopes(v[k], Stream.Graph, Count(v[..k], Stream.Graph));
    DecodedConcat(decode, before, added);
    ApplyConcat(EmptyGraph, JustEvents(Decoded(decode, before)), JustEvents(Decoded(decode, added)));
    assert JustEvents(Decoded(decode, added)) == DecodedPayloads(decode, v[k].graphEvents);
  }

  /** Links with both ends present. */
  function Anchored(g: Graph): Graph {
    g.(links := map id | id in g.links && g.links[id].source in g.nodes && g.links[id].target in g.nodes :: g.links[id])
  }

  /** `readGraphView`: pulls until a pull moves nothing, folding each event in.  `arrivals` lists
      what other writers append before each pull; once they stop, every pull but the last moves the
      cursor, so the loop ends.  The view is the fold of the whole visible log as the last pull
      found it. */
  method ReadGraphView(gateway: Gateway.LocalSyncGateway, principal: Text, decode: Decoder,
                       arrivals: seq<seq<(TxBundle, IdempotencyCtx)>>)
    returns (view: Graph, ghost seen: nat)
    requires gateway.Ready()
    modifies gateway.eventStore
    ensures gateway.Ready() && old(gateway.eventStore.log) <= gateway.eventStore.log
    ensures seen <= |arrivals|
    ensures gateway.eventStore.Abs() == ArriveInTurn(old(gateway.eventStore.Abs()), arrivals[..seen])
    ensures view == Anchored(GraphOf(decode, gateway.VisibleTo(principal)))
    ensures var g := GraphOf(decode, gateway.VisibleTo(principal));
      && view.nodes == g.nodes
      && (forall id :: id in view.links <==>
            id in g.links && g.links[id].source in g.nodes.Keys && g.links[id].target in g.nodes.Keys)
      && forall id | id in view.links :: view.links[id] == g.links[id]
  {
    hide GraphOf, ApplyEvents, VisibleLog, UniqueIds, Pull, Count, Events, IndexOf, LastEntries, TotalBytes,
      BundleBytes, ArriveAll;
    var g := EmptyGraph;
    var cursor := 0;
    seen := 0;
    var round := 0;
    GraphOfNothing(decode, gateway.VisibleTo(principal));
    var moved := true;
    while moved
      invariant 0 <= round == seen <= |arrivals| && gateway.Ready()
        && old(gateway.eventStore.log) <= gateway.eventStore.log
      invariant gateway.eventStore.Abs() == ArriveInTurn(old(gateway.eventStore.Abs()), arrivals[..round])
      invariant 0 <= cursor <= |gateway.VisibleTo(principal)|
      invariant g == GraphOf(decode, gateway.VisibleTo(principal)[..cursor])
      invariant moved || cursor == |gateway.VisibleTo(principal)|
      decreases |arrivals| - round, |gateway.VisibleTo(principal)| - cursor, moved
    {
      if round < |arrivals| {
        ghost var before := gateway.VisibleTo(principal);
        ArriveInTurnStep(old(gateway.eventStore.Abs()), arrivals, round);
        AppendAmid(gateway, principal, arrivals[round]);
        SamePrefix(gateway.VisibleTo(principal), before, cursor);
        round := round + 1;
        seen := seen + 1;
      }
      var after: int;
      g, after := FoldPage(gateway, principal, decode, g, cursor);
      moved := after != cursor;
      cursor := after;
    }
    assert gateway.VisibleTo(principal)[..cursor] == gateway.VisibleTo(principal);
    view := Anchored(g);
  }

  /** One pull at the cursor, its events folded into the graph. */
  method FoldPage(gateway: Gateway.LocalSyncGateway, principal: Text, decode: Decoder, start: Graph, cursor: nat)
    returns (g: Graph, after: int)
    requires gateway.Ready() && cursor <= |gateway.VisibleTo(principal)|
    requires start == GraphOf(decode, gateway.VisibleTo(principal)[..cursor])
    ensures cursor <= after <= |gateway.VisibleTo(principal)|
      && (after == cursor ==> cursor == |gateway.VisibleTo(principal)|)
    ensures g == GraphOf(decode, gateway.VisibleTo(principal)[..after])
  {
    hide GraphOf, ApplyEvents, VisibleLog, UniqueIds, Pull, Count, Events, IndexOf, LastEntries, TotalBytes,
      BundleBytes;
    ghost var v := gateway.VisibleTo(principal);
    PullIsGreedyPage(v, cursor, 64, 128 * 1024);
    var bundles: seq<VisibleTxBundle>;
    bundles, after := gateway.SyncPull(principal, cursor, Some(64), Some(128 * 1024));
    g := start;
    for i := 0 to |bundles|
      invariant g == GraphOf(decode, v[..cursor + i])
    {
      GraphOfSnoc(decode, v, cursor + i);
      g := FoldPayloads(g, decode, bundles[i].txBundle.graphEvents);
    }
  }

  /** Other writers' appends extend what the principal sees. */
  method AppendAmid(gateway: Gateway.LocalSyncGateway, principal: Text, arrivals: seq<(TxBundle, IdempotencyCtx)>)
    requires gateway.Ready()
    modifies gateway.eventStore
    ensures gateway.Ready() && old(gateway.eventStore.log) <= gateway.eventStore.log
    ensures old(gateway.VisibleTo(principal)) <= gateway.VisibleTo(principal)
    ensures gateway.eventStore.Abs() == ArriveAll(old(gateway.eventStore.Abs()), arrivals)
  {
    hide VisibleLog, UniqueIds, Count, Events, IndexOf, LastEntries, ArriveAll;
    ghost var before := gateway.eventStore.log;
    AppendArrivals(gateway.eventStore, arrivals);
    VisibleGrows(before, gateway.eventStore.log, Viewer(gateway.policy, principal));
  }

  method FoldPayloads(start: Graph, decode: Decoder, payloads: seq<Payload>) returns (g: Graph)
    ensures g == ApplyEvents(start, DecodedPayloads(decode, payloads))
  {
    hide ApplyEvents;
    g := start;
    NothingApplied(start);
    assert DecodedPayloads(decode, payloads)[..0] == [];
    for j := 0 to |payloads|
      invariant g == ApplyEvents(start, DecodedPayloads(decode, payloads)[..j])
    {
      ApplyStep(start, DecodedPayloads(decode, payloads), j);
      g := ApplyEvent(g, decode(payloads[j]));
    }
    assert DecodedPayloads(decode, payloads)[..|payloads|] == DecodedPayloads(decode, payloads);
  }

  lemma SamePrefix(longer: Log, shorter: Log, n: nat)
    requires shorter <= longer && n <= |shorter|
    ensures longer[..n] == shorter[..n]
  {
  }

  lemma GraphOfNothing(decode: Decoder, v: Log)
    ensures GraphOf(decode, v[..0]) == EmptyGraph
  {
  }

  // ---------------------------------------------------------------- polling feeds ingestion

  /** Polls from the ingested cursor and ingests what comes back, once for each visible log a poll
      finds. */
  function PollAndIngest(space: Text, decode: Decoder, views: seq<Log>, st: Ingested, lim: PollLimits): Ingested
    decreases |views|
  {
    if views == [] then st
    else
      var r := Poll(space, views[0], st.cursor, lim);
      PollAndIngest(space, decode, views[1..], Ingest(st, r.cursorAfter, Decoded(decode, r.graph)).0, lim)
  }

  lemma PolledBatchIsSlice(space: Text, v: Log, k: nat, lim: PollLimits)
    requires NonEmptyTxs(v) && k <= |v| && lim.Positive()
    ensures var r, j := Poll(space, v, Head(v[..k]), lim), NextRank(space, v, k, lim);
      && k <= j <= |v| && (k < |v| ==> k < j)
      && r.graph == Slice(v, k, j) && r.cursorAfter == Head(v[..j])
  {
    hide Poll, Events, Count, NonEmptyTxs, NextRank;
    PollFromClosedCursor(space, v, k, lim);
  }

  /** Polling with any positive limits and ingesting every answer gives, within one round per
      transaction missing, the graph the server folds from at least what is visible now, however the
      log grows between the polls. */
  lemma {:induction false} PollingBuildsServerGraph(space: Text, decode: Decoder, v: Log, st: Ingested, k: nat,
      lim: PollLimits, views: seq<Log>, goal: nat)
    returns (p: nat)
    requires UniqueIds(v) && NonEmptyTxs(v) && Covers(decode, v, st, k) && lim.Positive() && GrowingViews(v, views)
    requires goal <= |v| && goal - k <= |views|
    ensures goal <= p && Covers(decode, if views == [] then v else views[|views| - 1],
                                PollAndIngest(space, decode, views, st, lim), p)
    decreases |views|
  {
    hide Poll, Events, Count, UniqueIds, NonEmptyTxs, NextRank, Slice, Ingest, Decoded, GraphOf;
    p := k;
    if views != [] {
      var w := views[0];
      GrowthCovers(decode, v, w, st, k);
      PolledBatchIsSlice(space, w, k, lim);
      var j := NextRank(space, w, k, lim);
      BatchCovers(decode, w, st, k, k, j);
      var r := Poll(space, w, st.cursor, lim);
      var next := Ingest(st, r.cursorAfter, Decoded(decode, r.graph)).0;
      p := PollingBuildsServerGraph(space, decode, w, next, j, lim, views[1..], goal);
    }
  }
}
