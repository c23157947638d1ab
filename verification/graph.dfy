/** The node and link maps (a label is called `name` here) both the graph server and the explorer
    build from graph events. */
module GraphModel {
  import opened Texts
  import opened Json

  datatype GraphNode = GraphNode(id: Text, name: Text, level: Option<int>, metadata: Option<Payload>)
  datatype GraphLink = GraphLink(id: Text, source: Text, target: Text, kind: Text, name: Option<Text>) {
    predicate Touches(nodeId: Text) { source == nodeId || target == nodeId }
  }

  /** `OtherEvent` is a payload of no type the graph knows; it is skipped. */
  datatype GraphEvent =
    | NodeCreated(node: GraphNode)
    | NodeLabelUpdated(nodeId: Text, newName: Text)
    | NodeDeleted(deletedId: Text)
    | LinkCreated(link: GraphLink)
    | LinkDeleted(linkId: Text)
    | OtherEvent

  datatype Graph = Graph(nodes: map<Text, GraphNode>, links: map<Text, GraphLink>) {
    /** Every entry is stored under its own id. */
    predicate WellKeyed() {
      (forall id | id in nodes :: nodes[id].id == id) && (forall id | id in links :: links[id].id == id)
    }
  }

  const EmptyGraph := Graph(map[], map[])

  /** The links that survive the deletion of a node. */
  function Untouched(links: map<Text, GraphLink>, nodeId: Text): map<Text, GraphLink> {
    map id | id in links && !links[id].Touches(nodeId) :: links[id]
  }

  function ApplyEvent(g: Graph, e: GraphEvent): Graph {
    match e
    case NodeCreated(node) => g.(nodes := g.nodes[node.id := node])
    case NodeLabelUpdated(id, newName) =>
      if id in g.nodes then g.(nodes := g.nodes[id := g.nodes[id].(name := newName)]) else g
    case NodeDeleted(id) => Graph(g.nodes - {id}, Untouched(g.links, id))
    case LinkCreated(link) => g.(links := g.links[link.id := link])
    case LinkDeleted(id) => g.(links := g.links - {id})
    case OtherEvent => g
  }

  function ApplyEvents(g: Graph, events: seq<GraphEvent>): Graph {
    if events == [] then g else ApplyEvent(ApplyEvents(g, events[..|events| - 1]), events[|events| - 1])
  }

  lemma {:induction false} ApplyConcat(g: Graph, a: seq<GraphEvent>, b: seq<GraphEvent>)
    ensures ApplyEvents(g, a + b) == ApplyEvents(ApplyEvents(g, a), b)
  {
    if b == [] {
      assert a + b == a;
    } else {
      assert (a + b)[..|a + b| - 1] == a + b[..|b| - 1];
      ApplyConcat(g, a, b[..|b| - 1]);
    }
  }

  lemma ApplyStep(g: Graph, events: seq<GraphEvent>, i: nat)
    requires i < |events|
    ensures ApplyEvents(g, events[..i + 1]) == ApplyEvent(ApplyEvents(g, events[..i]), events[i])
  {
    assert events[..i + 1][..i] == events[..i];
  }

  lemma EventKeepsKeys(g: Graph, e: GraphEvent)
    requires g.WellKeyed()
    ensures ApplyEvent(g, e).WellKeyed()
  {
  }

  lemma {:induction false} EventsKeepKeys(g: Graph, events: seq<GraphEvent>)
    requires g.WellKeyed()
    ensures ApplyEvents(g, events).WellKeyed()
  {
    if events != [] {
      EventsKeepKeys(g, events[..|events| - 1]);
      EventKeepsKeys(ApplyEvents(g, events[..|events| - 1]), events[|events| - 1]);
    }
  }

  // ---------------------------------------------------------------- runs of deletions and creations

  function DeleteNodes(ids: seq<Text>): (events: seq<GraphEvent>)
    ensures |events| == |ids|
  {
    seq(|ids|, i requires 0 <= i < |ids| => NodeDeleted(ids[i]))
  }

  function DeleteLinks(ids: seq<Text>): (events: seq<GraphEvent>)
    ensures |events| == |ids|
  {
    seq(|ids|, i requires 0 <= i < |ids| => LinkDeleted(ids[i]))
  }

  function CreateNodes(nodes: seq<GraphNode>): (events: seq<GraphEvent>)
    ensures |events| == |nodes|
  {
    seq(|nodes|, i requires 0 <= i < |nodes| => NodeCreated(nodes[i]))
  }

  function CreateLinks(links: seq<GraphLink>): (events: seq<GraphEvent>)
    ensures |events| == |links|
  {
    seq(|links|, i requires 0 <= i < |links| => LinkCreated(links[i]))
  }

  function IdsOfNodes(nodes: seq<GraphNode>): (ids: seq<Text>)
    ensures |ids| == |nodes|
  {
    seq(|nodes|, i requires 0 <= i < |nodes| => nodes[i].id)
  }

  function IdsOfLinks(links: seq<GraphLink>): (ids: seq<Text>)
    ensures |ids| == |links|
  {
    seq(|links|, i requires 0 <= i < |links| => links[i].id)
  }

  /** The map a run of creations leaves behind: the last entry of an id wins. */
  function NodeMap(nodes: seq<GraphNode>): map<Text, GraphNode> {
    if nodes == [] then map[] else NodeMap(nodes[..|nodes| - 1])[nodes[|nodes| - 1].id := nodes[|nodes| - 1]]
  }

  function LinkMap(links: seq<GraphLink>): map<Text, GraphLink> {
    if links == [] then map[] else LinkMap(links[..|links| - 1])[links[|links| - 1].id := links[|links| - 1]]
  }

  function IdSet(ids: seq<Text>): set<Text> {
    set id | id in ids
  }

  /** The links no deleted node touches. */
  function UntouchedByAll(links: map<Text, GraphLink>, ids: seq<Text>): map<Text, GraphLink> {
    map id | id in links && (forall n | n in ids :: !links[id].Touches(n)) :: links[id]
  }

  lemma RemoveOneMore<V>(m: map<Text, V>, ids: seq<Text>, id: Text)
    ensures m - IdSet(ids) - {id} == m - IdSet(ids + [id])
    ensures m - IdSet([]) == m
  {
  }

  lemma UntouchedOneMore(links: map<Text, GraphLink>, ids: seq<Text>, id: Text)
    ensures Untouched(UntouchedByAll(links, ids), id) == UntouchedByAll(links, ids + [id])
    ensures UntouchedByAll(links, []) == links
  {
  }

  lemma {:induction false} DeleteNodesDoes(g: Graph, ids: seq<Text>)
    ensures ApplyEvents(g, DeleteNodes(ids)) == Graph(g.nodes - IdSet(ids), UntouchedByAll(g.links, ids))
  {
    hide IdSet, UntouchedByAll, Untouched;
    if ids != [] {
      var init, last := ids[..|ids| - 1], ids[|ids| - 1];
      DeleteNodesDoes(g, init);
      assert DeleteNodes(ids)[..|ids| - 1] == DeleteNodes(init);
      assert ids == init + [last];
      RemoveOneMore(g.nodes, init, last);
      UntouchedOneMore(g.links, init, last);
    } else {
      RemoveOneMore(g.nodes, [], []);
      UntouchedOneMore(g.links, [], []);
    }
  }

  lemma {:induction false} DeleteLinksDoes(g: Graph, ids: seq<Text>)
    ensures ApplyEvents(g, DeleteLinks(ids)) == g.(links := g.links - IdSet(ids))
  {
    hide IdSet;
    if ids != [] {
      var init, last := ids[..|ids| - 1], ids[|ids| - 1];
      DeleteLinksDoes(g, init);
      assert DeleteLinks(ids)[..|ids| - 1] == DeleteLinks(init);
      assert ids == init + [last];
      RemoveOneMore(g.links, init, last);
    } else {
      RemoveOneMore(g.links, [], []);
    }
  }

  lemma PutMerges<V>(a: map<Text, V>, b: map<Text, V>, k: Text, v: V)
    ensures (a + b)[k := v] == a + b[k := v]
  {
  }

  lemma {:induction false} CreateNodesDoes(g: Graph, nodes: seq<GraphNode>)
    ensures ApplyEvents(g, CreateNodes(nodes)) == g.(nodes := g.nodes + NodeMap(nodes))
  {
    if nodes != [] {
      var init, last := nodes[..|nodes| - 1], nodes[|nodes| - 1];
      CreateNodesDoes(g, init);
      assert CreateNodes(nodes)[..|nodes| - 1] == CreateNodes(init);
      PutMerges(g.nodes, NodeMap(init), last.id, last);
    }
  }

  lemma {:induction false} CreateLinksDoes(g: Graph, links: seq<GraphLink>)
    ensures ApplyEvents(g, CreateLinks(links)) == g.(links := g.links + LinkMap(links))
  {
    if links != [] {
      var init, last := links[..|links| - 1], links[|links| - 1];
      CreateLinksDoes(g, init);
      assert CreateLinks(links)[..|links| - 1] == CreateLinks(init);
      PutMerges(g.links, LinkMap(init), last.id, last);
    }
  }

  lemma {:induction false} NodeMapKeys(nodes: seq<GraphNode>)
    ensures NodeMap(nodes).Keys == set n | n in nodes :: n.id
    ensures forall id | id in NodeMap(nodes) :: NodeMap(nodes)[id] in nodes && NodeMap(nodes)[id].id == id
  {
    if nodes != [] {
      NodeMapKeys(nodes[..|nodes| - 1]);
      assert nodes == nodes[..|nodes| - 1] + [nodes[|nodes| - 1]];
    }
  }

  lemma {:induction false} LinkMapKeys(links: seq<GraphLink>)
    ensures LinkMap(links).Keys == set l | l in links :: l.id
    ensures forall id | id in LinkMap(links) :: LinkMap(links)[id] in links && LinkMap(links)[id].id == id
  {
    if links != [] {
      LinkMapKeys(links[..|links| - 1]);
      assert links == links[..|links| - 1] + [links[|links| - 1]];
    }
  }
}
