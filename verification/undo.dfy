/** Undo and redo as a pointer into a history of graphs. */
module UndoSpec {
  import opened Texts
  import opened GraphModel

  datatype UndoItem =
    | Rename(nodeId: Text, nameBefore: Text, nameAfter: Text)
    | DeleteLink(link: GraphLink)
    | DeleteNode(node: GraphNode, incidentLinks: seq<GraphLink>)
    | CreateNode(created: GraphNode)
    | CreateLink(createdLink: GraphLink)
    | MultiDelete(nodes: seq<GraphNode>, links: seq<GraphLink>, explicitLinks: seq<GraphLink>)

  /** What recording or redoing an item sends to the graph. */
  function RedoEvents(item: UndoItem): seq<GraphEvent> {
    match item
    case Rename(id, _, after) => [NodeLabelUpdated(id, after)]
    case DeleteLink(link) => [LinkDeleted(link.id)]
    case DeleteNode(node, _) => [NodeDeleted(node.id)]
    case CreateNode(node) => [NodeCreated(node)]
    case CreateLink(link) => [LinkCreated(link)]
    case MultiDelete(nodes, _, explicitLinks) => DeleteNodes(IdsOfNodes(nodes)) + DeleteLinks(IdsOfLinks(explicitLinks))
  }

  function UndoEvents(item: UndoItem): seq<GraphEvent> {
    match item
    case Rename(id, before, _) => [NodeLabelUpdated(id, before)]
    case DeleteLink(link) => [LinkCreated(link)]
    case DeleteNode(node, incidentLinks) => [NodeCreated(node)] + CreateLinks(incidentLinks)
    case CreateNode(node) => [NodeDeleted(node.id)]
    case CreateLink(link) => [LinkDeleted(link.id)]
    case MultiDelete(nodes, links, _) => CreateNodes(nodes) + CreateLinks(links)
  }

  function Redone(g: Graph, item: UndoItem): Graph { ApplyEvents(g, RedoEvents(item)) }

  function Undone(g: Graph, item: UndoItem): Graph { ApplyEvents(g, UndoEvents(item)) }

  // ---------------------------------------------------------------- recording a multi-delete

  /** Insertion into a list kept in the order of some name of its elements. */
  function InsertBy<T>(name: T -> Text, x: T, sorted: seq<T>): seq<T> {
    if sorted == [] then [x]
    else if Less(name(sorted[0]), name(x)) then [sorted[0]] + InsertBy(name, x, sorted[1..])
    else [x] + sorted
  }

  function SortBy<T>(name: T -> Text, xs: seq<T>): seq<T> {
    if xs == [] then [] else InsertBy(name, xs[0], SortBy(name, xs[1..]))
  }

  const NodeId: GraphNode -> Text := (n: GraphNode) => n.id
  const LinkId: GraphLink -> Text := (l: GraphLink) => l.id

  function SortNodes(nodes: seq<GraphNode>): seq<GraphNode> { SortBy(NodeId, nodes) }

  function SortLinks(links: seq<GraphLink>): seq<GraphLink> { SortBy(LinkId, links) }

  predicate TouchesAny(link: GraphLink, nodes: seq<GraphNode>) {
    exists n | n in nodes :: link.Touches(n.id)
  }

  /** The links whose ends both stay. */
  function Explicit(links: seq<GraphLink>, nodes: seq<GraphNode>): seq<GraphLink> {
    if links == [] then []
    else
      var init, last := links[..|links| - 1], links[|links| - 1];
      Explicit(init, nodes) + if TouchesAny(last, nodes) then [] else [last]
  }

  function MultiDeleteItem(nodes: seq<GraphNode>, links: seq<GraphLink>): UndoItem {
    MultiDelete(SortNodes(nodes), SortLinks(links), Explicit(SortLinks(links), SortNodes(nodes)))
  }

  /** `getIncidentLinks` over a listing of the link map. */
  function IncidentLinks(links: seq<GraphLink>, nodeId: Text): seq<GraphLink> {
    if links == [] then []
    else
      var init, last := links[..|links| - 1], links[|links| - 1];
      IncidentLinks(init, nodeId) + if last.Touches(nodeId) then [last] else []
  }

  /** In the order of their names, said without the sort's own comparison. */
  predicate InOrder<T>(name: T -> Text, xs: seq<T>) {
    forall i, j | 0 <= i < j < |xs| :: !Before(name(xs[j]), name(xs[i]))
  }

  /** Not being before carries over. */
  lemma NotBefore(a: Text, b: Text, c: Text)
    requires !Before(b, a) && !Before(c, b)
    ensures !Before(c, a)
  {
    LessIsBefore(b, a);
    LessIsBefore(c, b);
    LessIsBefore(c, a);
    LessTotal(a, b);
    LessTotal(b, c);
    LessTotal(a, c);
    if Less(a, b) && Less(b, c) {
      LessTransitive(a, b, c);
    }
  }

  lemma {:induction false} InsertBySorts<T(!new)>(name: T -> Text, x: T, sorted: seq<T>)
    requires InOrder(name, sorted)
    ensures InOrder(name, InsertBy(name, x, sorted))
    ensures multiset(InsertBy(name, x, sorted)) == multiset(sorted) + multiset{x}
  {
    hide Before;
    if sorted != [] {
      var first, rest := sorted[0], sorted[1..];
      assert sorted == [first] + rest;
      LessIsBefore(name(first), name(x));
      LessIsBefore(name(x), name(first));
      LessTotal(name(first), name(x));
      if Less(name(first), name(x)) {
        InsertBySorts(name, x, rest);
        var inserted := InsertBy(name, x, rest);
        forall i | 0 <= i < |inserted| ensures !Before(name(inserted[i]), name(first)) {
          assert inserted[i] in multiset(inserted);
          assert inserted[i] == x || inserted[i] in rest;
        }
      } else {
        forall i | 0 <= i < |sorted| ensures !Before(name(sorted[i]), name(x)) {
          if i > 0 {
            NotBefore(name(x), name(first), name(sorted[i]));
          }
        }
      }
    }
  }

  /** Sorting keeps what is listed, as often, in the order of the names. */
  lemma {:induction false} SortBySorts<T(!new)>(name: T -> Text, xs: seq<T>)
    ensures InOrder(name, SortBy(name, xs)) && multiset(SortBy(name, xs)) == multiset(xs)
    ensures forall x :: x in SortBy(name, xs) <==> x in xs
  {
    hide InOrder;
    if xs != [] {
      SortBySorts(name, xs[1..]);
      InsertBySorts(name, xs[0], SortBy(name, xs[1..]));
      assert xs == [xs[0]] + xs[1..];
    } else {
      EmptyInOrder(name);
    }
    forall x ensures x in SortBy(name, xs) <==> x in xs {
      assert x in multiset(xs) <==> x in xs;
      assert x in multiset(SortBy(name, xs)) <==> x in SortBy(name, xs);
    }
  }

  lemma EmptyInOrder<T>(name: T -> Text)
    ensures InOrder(name, [])
  {
  }

  lemma SortNodesMembers(nodes: seq<GraphNode>)
    ensures forall x :: x in SortNodes(nodes) <==> x in nodes
  {
    SortBySorts(NodeId, nodes);
  }

  lemma SortLinksMembers(links: seq<GraphLink>)
    ensures forall x :: x in SortLinks(links) <==> x in links
  {
    SortBySorts(LinkId, links);
  }

  lemma {:induction false} ExplicitMembers(links: seq<GraphLink>, nodes: seq<GraphNode>)
    ensures forall x :: x in Explicit(links, nodes) <==> x in links && !TouchesAny(x, nodes)
  {
    if links != [] {
      ExplicitMembers(links[..|links| - 1], nodes);
      assert links == links[..|links| - 1] + [links[|links| - 1]];
    }
  }

  lemma {:induction false} IncidentMembers(links: seq<GraphLink>, nodeId: Text)
    ensures forall x :: x in IncidentLinks(links, nodeId) <==> x in links && x.Touches(nodeId)
  {
    if links != [] {
      IncidentMembers(links[..|links| - 1], nodeId);
      assert links == links[..|links| - 1] + [links[|links| - 1]];
    }
  }

  // ---------------------------------------------------------------- when undo undoes

  /** Part of a map, with the same values. */
  predicate Within<V(==)>(part: map<Text, V>, whole: map<Text, V>) {
    forall k | k in part :: k in whole && whole[k] == part[k]
  }

  /** The item records the graph's current values: for a creation the id is fresh and nothing
      already points at it, for a deletion every link that goes with it is listed. */
  predicate Current(g: Graph, item: UndoItem) {
    match item
    case Rename(id, before, _) => id in g.nodes ==> g.nodes[id].name == before
    case DeleteLink(link) => link.id in g.links && g.links[link.id] == link
    case DeleteNode(node, incident) =>
      && node.id in g.nodes && g.nodes[node.id] == node
      && Within(LinkMap(incident), g.links)
      && forall id | id in g.links && g.links[id].Touches(node.id) :: id in LinkMap(incident)
    case CreateNode(node) => node.id !in g.nodes && forall id | id in g.links :: !g.links[id].Touches(node.id)
    case CreateLink(link) => link.id !in g.links
    case MultiDelete(nodes, links, explicitLinks) =>
      && Within(NodeMap(nodes), g.nodes)
      && Within(LinkMap(links), g.links)
      && (forall id | id in g.links && TouchesAny(g.links[id], nodes) :: id in LinkMap(links))
      && (forall l | l in explicitLinks && l.id in g.links :: l.id in LinkMap(links))
  }

  lemma OneEvent(g: Graph, e: GraphEvent)
    ensures ApplyEvents(g, [e]) == ApplyEvent(g, e)
  {
    assert [e][..0] == [];
  }

  lemma PutBack<V>(m: map<Text, V>, k: Text, v: V)
    ensures (m - {k})[k := v] == m <==> k in m && m[k] == v
    ensures m[k := v] - {k} == m <==> k !in m
  {
    assert m - {k} == m <==> k !in m;
    if (m - {k})[k := v] == m {
      assert k in (m - {k})[k := v];
    }
    if m[k := v] - {k} == m {
      assert k !in m[k := v] - {k};
    }
  }

  /** Removing some keys and merging entries back restores a map exactly when the entries are its
      own and cover what was removed. */
  lemma MergeBack<V>(m: map<Text, V>, kept: map<Text, V>, back: map<Text, V>)
    requires Within(kept, m)
    ensures kept + back == m <==> Within(back, m) && forall k | k in m && k !in kept :: k in back
  {
    if kept + back == m {
      assert forall k | k in back :: k in kept + back && (kept + back)[k] == back[k];
      assert forall k | k in m :: k in kept + back;
    }
  }

  lemma RenameBack(g: Graph, id: Text, before: Text, after: Text)
    ensures Undone(Redone(g, Rename(id, before, after)), Rename(id, before, after)) == g <==>
      Current(g, Rename(id, before, after))
  {
    var g1 := Redone(g, Rename(id, before, after));
    OneEvent(g, NodeLabelUpdated(id, after));
    OneEvent(g1, NodeLabelUpdated(id, before));
    if id in g.nodes {
      var g2 := Undone(g1, Rename(id, before, after));
      assert g2.nodes == g.nodes[id := g.nodes[id].(name := before)];
      assert g2.nodes[id].name == before;
      assert g.nodes[id].name == before ==> g2.nodes == g.nodes;
    }
  }

  lemma DeleteNodeBack(g: Graph, node: GraphNode, incident: seq<GraphLink>)
    ensures Undone(Redone(g, DeleteNode(node, incident)), DeleteNode(node, incident)) == g <==>
      Current(g, DeleteNode(node, incident))
  {
    hide LinkMap;
    var g1 := Redone(g, DeleteNode(node, incident));
    OneEvent(g, NodeDeleted(node.id));
    ApplyConcat(g1, [NodeCreated(node)], CreateLinks(incident));
    OneEvent(g1, NodeCreated(node));
    CreateLinksDoes(ApplyEvent(g1, NodeCreated(node)), incident);
    PutBack(g.nodes, node.id, node);
    MergeBack(g.links, Untouched(g.links, node.id), LinkMap(incident));
  }

  lemma CreateNodeBack(g: Graph, node: GraphNode)
    ensures Undone(Redone(g, CreateNode(node)), CreateNode(node)) == g <==> Current(g, CreateNode(node))
  {
    var g1 := Redone(g, CreateNode(node));
    OneEvent(g, NodeCreated(node));
    OneEvent(g1, NodeDeleted(node.id));
    PutBack(g.nodes, node.id, node);
    MergeBack(g.links, Untouched(g.links, node.id), map[]);
    assert Untouched(g.links, node.id) + map[] == Untouched(g.links, node.id);
  }

  lemma LinkBack(g: Graph, link: GraphLink)
    ensures Undone(Redone(g, DeleteLink(link)), DeleteLink(link)) == g <==> Current(g, DeleteLink(link))
    ensures Undone(Redone(g, CreateLink(link)), CreateLink(link)) == g <==> Current(g, CreateLink(link))
  {
    OneEvent(g, LinkDeleted(link.id));
    OneEvent(g, LinkCreated(link));
    OneEvent(ApplyEvent(g, LinkDeleted(link.id)), LinkCreated(link));
    OneEvent(ApplyEvent(g, LinkCreated(link)), LinkDeleted(link.id));
    PutBack(g.links, link.id, link);
  }

  /** The graph after a multi-delete, and after undoing it. */
  lemma MultiDeleteDoes(g: Graph, item: UndoItem)
    requires item.MultiDelete?
    ensures Redone(g, item) == Graph(g.nodes - IdSet(IdsOfNodes(item.nodes)),
                                     UntouchedByAll(g.links, IdsOfNodes(item.nodes))
                                     - IdSet(IdsOfLinks(item.explicitLinks)))
    ensures Undone(Redone(g, item), item) ==
      Graph(Redone(g, item).nodes + NodeMap(item.nodes), Redone(g, item).links + LinkMap(item.links))
  {
    hide NodeMap, LinkMap, UntouchedByAll, IdSet, ApplyEvents;
    var ids, lids := IdsOfNodes(item.nodes), IdsOfLinks(item.explicitLinks);
    ApplyConcat(g, DeleteNodes(ids), DeleteLinks(lids));
    DeleteNodesDoes(g, ids);
    DeleteLinksDoes(ApplyEvents(g, DeleteNodes(ids)), lids);
    var g1 := Redone(g, item);
    ApplyConcat(g1, CreateNodes(item.nodes), CreateLinks(item.links));
    CreateNodesDoes(g1, item.nodes);
    CreateLinksDoes(ApplyEvents(g1, CreateNodes(item.nodes)), item.links);
  }

  lemma IdsAre(nodes: seq<GraphNode>, links: seq<GraphLink>)
    ensures forall n | n in nodes :: n.id in IdsOfNodes(nodes)
    ensures forall id | id in IdsOfNodes(nodes) :: exists n | n in nodes :: n.id == id
    ensures forall id :: id in IdSet(IdsOfLinks(links)) <==> exists l | l in links :: l.id == id
  {
    forall n | n in nodes ensures n.id in IdsOfNodes(nodes) {
      var i :| 0 <= i < |nodes| && nodes[i] == n;
      assert IdsOfNodes(nodes)[i] == n.id;
    }
    forall id ensures id in IdSet(IdsOfLinks(links)) <==> exists l | l in links :: l.id == id {
      if l :| l in links && l.id == id {
        var i :| 0 <= i < |links| && links[i] == l;
        assert IdsOfLinks(links)[i] == id;
      }
    }
  }

  lemma MultiDeleteBack(g: Graph, item: UndoItem)
    requires item.MultiDelete?
    ensures Undone(Redone(g, item), item) == g <==> Current(g, item)
  {
    hide ApplyEvents, Redone, Undone, NodeMap, LinkMap;
    MultiDeleteDoes(g, item);
    var g1 := Redone(g, item);
    NodeMapKeys(item.nodes);
    IdsAre(item.nodes, item.explicitLinks);
    MergeBack(g.nodes, g1.nodes, NodeMap(item.nodes));
    assert forall id | id in g.nodes && id !in g1.nodes :: id in NodeMap(item.nodes);
    MergeBack(g.links, g1.links, LinkMap(item.links));
  }

  /** Undoing right after recording restores the graph exactly when the record passed current
      values. */
  lemma UndoRestoresIff(g: Graph, item: UndoItem)
    ensures Undone(Redone(g, item), item) == g <==> Current(g, item)
  {
    hide Current, Redone, Undone;
    match item
    case Rename(id, before, after) => RenameBack(g, id, before, after);
    case DeleteLink(link) => LinkBack(g, link);
    case DeleteNode(node, incident) => DeleteNodeBack(g, node, incident);
    case CreateNode(node) => CreateNodeBack(g, node);
    case CreateLink(link) => LinkBack(g, link);
    case MultiDelete(_, _, _) => MultiDeleteBack(g, item);
  }

  // ---------------------------------------------------------------- what an item does to a graph

  /** Two maps that agree away from one key. */
  predicate AgreeBut<V(==)>(a: map<Text, V>, b: map<Text, V>, key: Text) {
    (forall k | k in a && k != key :: k in b && b[k] == a[k]) && (forall k | k in b && k != key :: k in a)
  }

  predicate NodeNamed(g: Graph, g': Graph, id: Text, name: Text) {
    && g'.links == g.links && AgreeBut(g.nodes, g'.nodes, id)
    && (id in g'.nodes <==> id in g.nodes)
    && (id in g.nodes ==>
          g'.nodes[id] == GraphNode(g.nodes[id].id, name, g.nodes[id].level, g.nodes[id].metadata))
  }

  predicate NodeStored(g: Graph, g': Graph, node: GraphNode) {
    g'.links == g.links && AgreeBut(g.nodes, g'.nodes, node.id) && node.id in g'.nodes && g'.nodes[node.id] == node
  }

  predicate LinkStored(g: Graph, g': Graph, link: GraphLink) {
    g'.nodes == g.nodes && AgreeBut(g.links, g'.links, link.id) && link.id in g'.links && g'.links[link.id] == link
  }

  predicate LinkGone(g: Graph, g': Graph, id: Text) {
    g'.nodes == g.nodes && AgreeBut(g.links, g'.links, id) && id !in g'.links
  }

  predicate NodeGone(g: Graph, g': Graph, id: Text) {
    && AgreeBut(g.nodes, g'.nodes, id) && id !in g'.nodes
    && (forall k | k in g'.links :: k in g.links && g'.links[k] == g.links[k])
    && (forall k | k in g.links :: k in g'.links <==> g.links[k].source != id && g.links[k].target != id)
  }

  /** Exactly the listed nodes are gone, and the links that touch one of them or are listed. */
  predicate ManyGone(g: Graph, g': Graph, nodes: seq<GraphNode>, links: seq<GraphLink>) {
    && (forall k | k in g'.nodes :: k in g.nodes && g'.nodes[k] == g.nodes[k])
    && (forall k | k in g.nodes :: k in g'.nodes <==> forall n | n in nodes :: n.id != k)
    && (forall k | k in g'.links :: k in g.links && g'.links[k] == g.links[k])
    && (forall k | k in g.links :: k in g'.links <==>
          && (forall n | n in nodes :: g.links[k].source != n.id && g.links[k].target != n.id)
          && (forall l | l in links :: l.id != k))
  }

  /** Listed nodes and links are there as listed, everything else as before. */
  predicate ManyStored(g: Graph, g': Graph, nodes: seq<GraphNode>, links: seq<GraphLink>) {
    && (forall n | n in nodes :: n.id in g'.nodes && g'.nodes[n.id] in nodes && g'.nodes[n.id].id == n.id)
    && (forall k | k in g'.nodes && (forall n | n in nodes :: n.id != k) :: k in g.nodes && g'.nodes[k] == g.nodes[k])
    && (forall k | k in g.nodes :: k in g'.nodes)
    && (forall l | l in links :: l.id in g'.links && g'.links[l.id] in links && g'.links[l.id].id == l.id)
    && (forall k | k in g'.links && (forall l | l in links :: l.id != k) :: k in g.links && g'.links[k] == g.links[k])
    && (forall k | k in g.links :: k in g'.links)
  }

  /** What recording or redoing an item makes of a graph. */
  predicate Performs(g: Graph, item: UndoItem, g': Graph) {
    match item
    case Rename(id, _, after) => NodeNamed(g, g', id, after)
    case DeleteLink(link) => LinkGone(g, g', link.id)
    case DeleteNode(node, _) => NodeGone(g, g', node.id)
    case CreateNode(node) => NodeStored(g, g', node)
    case CreateLink(link) => LinkStored(g, g', link)
    case MultiDelete(nodes, _, explicitLinks) => ManyGone(g, g', nodes, explicitLinks)
  }

  /** What undoing an item makes of a graph, whatever happened since. */
  predicate Reverts(g: Graph, item: UndoItem, g': Graph) {
    match item
    case Rename(id, before, _) => NodeNamed(g, g', id, before)
    case DeleteLink(link) => LinkStored(g, g', link)
    case DeleteNode(node, incident) => ManyStored(g, g', [node], incident)
    case CreateNode(node) => NodeGone(g, g', node.id)
    case CreateLink(link) => LinkGone(g, g', link.id)
    case MultiDelete(nodes, links, _) => ManyStored(g, g', nodes, links)
  }

  lemma OneEventDoes(g: Graph, e: GraphEvent)
    ensures var g' := ApplyEvents(g, [e]);
      match e
      case NodeCreated(node) => NodeStored(g, g', node)
      case NodeLabelUpdated(id, name) => NodeNamed(g, g', id, name)
      case NodeDeleted(id) => NodeGone(g, g', id)
      case LinkCreated(link) => LinkStored(g, g', link)
      case LinkDeleted(id) => LinkGone(g, g', id)
      case OtherEvent => g' == g
  {
    OneEvent(g, e);
  }

  lemma RedoPerforms(g: Graph, item: UndoItem)
    ensures Performs(g, item, Redone(g, item))
  {
    hide ApplyEvents, NodeNamed, NodeStored, LinkStored, LinkGone, NodeGone;
    if item.MultiDelete? {
      MultiDeleteDoes(g, item);
      IdsAre(item.nodes, item.explicitLinks);
      GoneAre(g, Redone(g, item), item.nodes, item.explicitLinks);
    } else {
      OneEventDoes(g, RedoEvents(item)[0]);
    }
  }

  lemma GoneAre(g: Graph, g': Graph, nodes: seq<GraphNode>, links: seq<GraphLink>)
    requires g' == Graph(g.nodes - IdSet(IdsOfNodes(nodes)),
                         UntouchedByAll(g.links, IdsOfNodes(nodes)) - IdSet(IdsOfLinks(links)))
    ensures ManyGone(g, g', nodes, links)
  {
    IdsAre(nodes, links);
    hide IdsOfNodes, IdsOfLinks;
  }

  lemma StoredAre(g: Graph, nodes: seq<GraphNode>, links: seq<GraphLink>)
    ensures ManyStored(g, Graph(g.nodes + NodeMap(nodes), g.links + LinkMap(links)), nodes, links)
  {
    NodeMapKeys(nodes);
    LinkMapKeys(links);
    hide NodeMap, LinkMap;
  }

  lemma UndoReverts(g: Graph, item: UndoItem)
    ensures Reverts(g, item, Undone(g, item))
  {
    hide ApplyEvents, NodeNamed, NodeStored, LinkStored, LinkGone, NodeGone, ManyStored, NodeMap, LinkMap;
    match item
    case DeleteNode(node, incident) =>
      assert CreateNodes([node]) == [NodeCreated(node)];
      StoresAll(g, [node], incident);
    case MultiDelete(nodes, links, _) => StoresAll(g, nodes, links);
    case _ => OneEventDoes(g, UndoEvents(item)[0]);
  }

  lemma StoresAll(g: Graph, nodes: seq<GraphNode>, links: seq<GraphLink>)
    ensures ManyStored(g, ApplyEvents(g, CreateNodes(nodes) + CreateLinks(links)), nodes, links)
  {
    hide ApplyEvents, ManyStored, NodeMap, LinkMap;
    ApplyConcat(g, CreateNodes(nodes), CreateLinks(links));
    CreateNodesDoes(g, nodes);
    CreateLinksDoes(ApplyEvents(g, CreateNodes(nodes)), links);
    StoredAre(g, nodes, links);
  }

  /** Recording a multi-delete, in terms of what it was given: exactly those nodes are gone, with the
      links that touch one of them and those of the given links that touch none. */
  lemma MultiDeletePerforms(g: Graph, nodes: seq<GraphNode>, links: seq<GraphLink>)
    ensures var g' := Redone(g, MultiDeleteItem(nodes, links));
      && ManyGone(g, g', nodes, Explicit(links, nodes))
      && forall l :: l in Explicit(links, nodes) <==>
           l in links && forall n | n in nodes :: l.source != n.id && l.target != n.id
  {
    hide Redone, SortNodes, SortLinks, Explicit;
    RedoPerforms(g, MultiDeleteItem(nodes, links));
    SortNodesMembers(nodes);
    SortLinksMembers(links);
    ExplicitMembers(SortLinks(links), SortNodes(nodes));
    ExplicitMembers(links, nodes);
    forall l ensures l in Explicit(SortLinks(links), SortNodes(nodes)) <==> l in Explicit(links, nodes) {
    }
  }

  // ---------------------------------------------------------------- what callers have to pass

  /** The incident links read off any listing of the link map are enough to delete a node. */
  lemma IncidentLinksSuffice(g: Graph, id: Text, listing: seq<GraphLink>)
    requires g.WellKeyed() && id in g.nodes
    requires forall l :: l in listing <==> l in g.links.Values
    ensures Current(g, DeleteNode(g.nodes[id], IncidentLinks(listing, id)))
  {
    IncidentMembers(listing, id);
    LinkMapKeys(IncidentLinks(listing, id));
    forall k | k in g.links && g.links[k].Touches(id) ensures k in LinkMap(IncidentLinks(listing, id)) {
      assert g.links[k] in g.links.Values;
    }
  }

  /** Current nodes, and current links that include all those the nodes take with them, are enough
      for a multi-delete, in any order. */
  lemma MultiDeleteSuffices(g: Graph, nodes: seq<GraphNode>, links: seq<GraphLink>)
    requires g.WellKeyed()
    requires forall n | n in nodes :: n.id in g.nodes && g.nodes[n.id] == n
    requires forall l | l in links :: l.id in g.links && g.links[l.id] == l
    requires forall id | id in g.links && TouchesAny(g.links[id], nodes) :: g.links[id] in links
    ensures Current(g, MultiDeleteItem(nodes, links))
  {
    SortNodesMembers(nodes);
    SortLinksMembers(links);
    var stableNodes, stableLinks := SortNodes(nodes), SortLinks(links);
    ExplicitMembers(stableLinks, stableNodes);
    NodeMapKeys(stableNodes);
    LinkMapKeys(stableLinks);
    forall id | id in g.links && TouchesAny(g.links[id], stableNodes) ensures id in LinkMap(stableLinks) {
      assert TouchesAny(g.links[id], nodes);
      assert g.links[id] in stableLinks;
    }
  }

  // ---------------------------------------------------------------- the history pointer

  datatype Manager = Manager(undoStack: seq<UndoItem>, redoStack: seq<UndoItem>)

  datatype Action = Record(item: UndoItem) | Undo | Redo | ClearRedo | Reset

  /** What one call does to the graph and the stacks. */
  function Step(g: Graph, m: Manager, a: Action): (Graph, Manager) {
    match a
    case Record(item) => (Redone(g, item), Manager(m.undoStack + [item], []))
    case Undo =>
      if m.undoStack == [] then (g, m)
      else
        var n := |m.undoStack| - 1;
        (Undone(g, m.undoStack[n]), Manager(m.undoStack[..n], m.redoStack + [m.undoStack[n]]))
    case Redo =>
      if m.redoStack == [] then (g, m)
      else
        var n := |m.redoStack| - 1;
        (Redone(g, m.redoStack[n]), Manager(m.undoStack + [m.redoStack[n]], m.redoStack[..n]))
    case ClearRedo => (g, m.(redoStack := []))
    case Reset => (g, Manager([], []))
  }

  /** The graphs a user can move through, and where they are. */
  datatype History = History(states: seq<Graph>, at: nat) {
    predicate Valid() { at < |states| }
  }

  /** The same call, on the history alone: only a record computes a graph. */
  function HistoryStep(h: History, a: Action): History
    requires h.Valid()
  {
    match a
    case Record(item) => History(h.states[..h.at + 1] + [Redone(h.states[h.at], item)], h.at + 1)
    case Undo => if h.at == 0 then h else h.(at := h.at - 1)
    case Redo => if h.at + 1 == |h.states| then h else h.(at := h.at + 1)
    case ClearRedo => History(h.states[..h.at + 1], h.at)
    case Reset => History([h.states[h.at]], 0)
  }

  /** Undo items in the order they were done, those undone last. */
  function Timeline(m: Manager): seq<UndoItem> {
    m.undoStack + Reversed(m.redoStack)
  }

  function Reversed<T>(xs: seq<T>): (r: seq<T>)
    ensures |r| == |xs| && forall i | 0 <= i < |xs| :: r[i] == xs[|xs| - 1 - i]
  {
    if xs == [] then [] else [xs[|xs| - 1]] + Reversed(xs[..|xs| - 1])
  }

  ghost predicate Tracks(g: Graph, m: Manager, h: History) {
    && h.Valid() && h.at == |m.undoStack| && |h.states| == |m.undoStack| + |m.redoStack| + 1
    && g == h.states[h.at]
    && forall i | 0 <= i < |Timeline(m)| ::
         Redone(h.states[i], Timeline(m)[i]) == h.states[i + 1]
           && Undone(h.states[i + 1], Timeline(m)[i]) == h.states[i]
  }

  /** Records pass the current values of the graph they are made on. */
  ghost predicate Proper(g: Graph, a: Action) {
    a.Record? ==> Current(g, a.item)
  }

  lemma RecordTracks(g: Graph, m: Manager, h: History, item: UndoItem)
    requires Tracks(g, m, h) && Current(g, item)
    ensures Tracks(Step(g, m, Record(item)).0, Step(g, m, Record(item)).1, HistoryStep(h, Record(item)))
  {
    hide Redone, Undone, Current;
    UndoRestoresIff(g, item);
    var (g', m') := Step(g, m, Record(item));
    assert Timeline(m') == m.undoStack + [item];
    forall i | 0 <= i < |m.undoStack| ensures Timeline(m)[i] == Timeline(m')[i] {
    }
  }

  lemma UndoKeepsTimeline(m: Manager)
    requires m.undoStack != []
    ensures var n := |m.undoStack| - 1;
      && Timeline(Manager(m.undoStack[..n], m.redoStack + [m.undoStack[n]])) == Timeline(m)
      && Timeline(m)[n] == m.undoStack[n]
  {
  }

  lemma RedoKeepsTimeline(m: Manager)
    requires m.redoStack != []
    ensures var n := |m.redoStack| - 1;
      && Timeline(Manager(m.undoStack + [m.redoStack[n]], m.redoStack[..n])) == Timeline(m)
      && Timeline(m)[|m.undoStack|] == m.redoStack[n]
  {
  }

  lemma TimelineLength(m: Manager)
    ensures |Timeline(m)| == |m.undoStack| + |m.redoStack|
  {
  }

  lemma MoveTracks(g: Graph, m: Manager, h: History)
    requires Tracks(g, m, h)
    ensures Tracks(Step(g, m, Undo).0, Step(g, m, Undo).1, HistoryStep(h, Undo))
    ensures Tracks(Step(g, m, Redo).0, Step(g, m, Redo).1, HistoryStep(h, Redo))
  {
    hide Redone, Undone, Timeline;
    TimelineLength(m);
    if m.undoStack != [] { UndoKeepsTimeline(m); }
    if m.redoStack != [] { RedoKeepsTimeline(m); }
  }

  lemma ForgetTracks(g: Graph, m: Manager, h: History)
    requires Tracks(g, m, h)
    ensures Tracks(Step(g, m, ClearRedo).0, Step(g, m, ClearRedo).1, HistoryStep(h, ClearRedo))
    ensures Tracks(Step(g, m, Reset).0, Step(g, m, Reset).1, HistoryStep(h, Reset))
  {
    hide Redone, Undone;
    assert Timeline(m.(redoStack := [])) == m.undoStack;
    forall i | 0 <= i < |m.undoStack| ensures Timeline(m)[i] == m.undoStack[i] {
    }
  }

  lemma StepTracks(g: Graph, m: Manager, h: History, a: Action)
    requires Tracks(g, m, h) && Proper(g, a)
    ensures Tracks(Step(g, m, a).0, Step(g, m, a).1, HistoryStep(h, a))
  {
    hide Step, HistoryStep, Tracks, Current;
    match a
    case Record(item) => RecordTracks(g, m, h, item);
    case Undo => MoveTracks(g, m, h);
    case Redo => MoveTracks(g, m, h);
    case ClearRedo => ForgetTracks(g, m, h);
    case Reset => ForgetTracks(g, m, h);
  }

  ghost predicate ProperRun(h: History, actions: seq<Action>)
    requires h.Valid()
    decreases |actions|
  {
    actions == [] || (Proper(h.states[h.at], actions[0]) && ProperRun(HistoryStep(h, actions[0]), actions[1..]))
  }

  function Run(g: Graph, m: Manager, actions: seq<Action>): (Graph, Manager)
    decreases |actions|
  {
    if actions == [] then (g, m)
    else
      var (g', m') := Step(g, m, actions[0]);
      Run(g', m', actions[1..])
  }

  function HistoryRun(h: History, actions: seq<Action>): (r: History)
    requires h.Valid()
    ensures r.Valid()
    decreases |actions|
  {
    if actions == [] then h else HistoryRun(HistoryStep(h, actions[0]), actions[1..])
  }

  /** After any sequence of records, undos, redos and resets the graph is the one the history
      points at, and there is something to undo or redo exactly when the history has something
      before or after it. */
  lemma {:induction false} UndoIsHistoryPointer(g: Graph, m: Manager, h: History, actions: seq<Action>)
    requires Tracks(g, m, h) && ProperRun(h, actions)
    ensures var (g', m') := Run(g, m, actions);
      var h' := HistoryRun(h, actions);
      && g' == h'.states[h'.at]
      && (m'.undoStack != [] <==> h'.at > 0)
      && (m'.redoStack != [] <==> h'.at + 1 < |h'.states|)
    decreases |actions|
  {
    hide Step, HistoryStep, Proper, Timeline, Redone, Undone;
    if actions != [] {
      StepTracks(g, m, h, actions[0]);
      var (g', m') := Step(g, m, actions[0]);
      UndoIsHistoryPointer(g', m', HistoryStep(h, actions[0]), actions[1..]);
    }
  }

  lemma StartTracks(g: Graph)
    ensures Tracks(g, Manager([], []), History([g], 0))
  {
  }
}
