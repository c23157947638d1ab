/** The graph the server keeps and the undo manager that drives it. */
module UndoRedo {
  import opened Texts
  import opened GraphModel
  import opened UndoSpec

  class GraphMaps {
    var nodes: map<Text, GraphNode>
    var links: map<Text, GraphLink>

    function Value(): Graph
      reads this
    {
      Graph(nodes, links)
    }

    constructor ()
      ensures Value() == EmptyGraph
    {
      nodes, links := map[], map[];
    }

    /** `applyGraphEvent`, with its cascade over the link map. */
    method ApplyGraphEvent(e: GraphEvent)
      modifies this
      ensures Value() == ApplyEvent(old(Value()), e)
    {
      match e
      case NodeCreated(node) => nodes := nodes[node.id := node];
      case NodeLabelUpdated(id, newName) =>
        if id in nodes {
          nodes := nodes[id := nodes[id].(name := newName)];
        }
      case NodeDeleted(id) =>
        nodes := nodes - {id};
        DeleteLinksTouching(id);
      case LinkCreated(link) => links := links[link.id := link];
      case LinkDeleted(id) => links := links - {id};
      case OtherEvent =>
    }

    method DeleteLinksTouching(nodeId: Text)
      modifies this`links
      ensures links == Untouched(old(links), nodeId)
    {
      var unvisited := links.Keys;
      while unvisited != {}
        invariant unvisited <= links.Keys <= old(links).Keys
        invariant forall id | id in links :: links[id] == old(links)[id]
        invariant forall id | id in old(links) && id !in unvisited :: id in links <==> !old(links)[id].Touches(nodeId)
        decreases |unvisited|
      {
        var id :| id in unvisited;
        if links[id].Touches(nodeId) {
          links := links - {id};
        }
        unvisited := unvisited - {id};
      }
    }

    /** Sends events one after the other. */
    method Send(events: seq<GraphEvent>)
      modifies this
      ensures Value() == ApplyEvents(old(Value()), events)
    {
      for i := 0 to |events|
        invariant Value() == ApplyEvents(old(Value()), events[..i])
      {
        ApplyGraphEvent(events[i]);
        ApplyStep(old(Value()), events, i);
      }
      assert events[..|events|] == events;
    }
  }

  class UndoRedoManager {
    var undoStack: seq<UndoItem>
    var redoStack: seq<UndoItem>

    function State(): Manager
      reads this
    {
      Manager(undoStack, redoStack)
    }

    constructor ()
      ensures State() == Manager([], [])
    {
      undoStack, redoStack := [], [];
    }

    /** Performs an item on the graph and makes it the latest one. */
    method Record(item: UndoItem, actions: GraphMaps)
      modifies this, actions
      ensures (actions.Value(), State()) == Step(old(actions.Value()), old(State()), Action.Record(item))
      ensures Performs(old(actions.Value()), item, actions.Value())
    {
      RedoPerforms(actions.Value(), item);
      actions.Send(RedoEvents(item));
      Push(item);
    }

    method RecordRename(nodeId: Text, nameBefore: Text, nameAfter: Text, actions: GraphMaps)
      modifies this, actions
      ensures (actions.Value(), State()) == Step(old(actions.Value()), old(State()),
        Action.Record(Rename(nodeId, nameBefore, nameAfter)))
      ensures NodeNamed(old(actions.Value()), actions.Value(), nodeId, nameAfter)
    {
      Record(Rename(nodeId, nameBefore, nameAfter), actions);
    }

    method RecordDeleteNode(node: GraphNode, incidentLinks: seq<GraphLink>, actions: GraphMaps)
      modifies this, actions
      ensures (actions.Value(), State()) == Step(old(actions.Value()), old(State()),
        Action.Record(DeleteNode(node, incidentLinks)))
      ensures NodeGone(old(actions.Value()), actions.Value(), node.id)
    {
      Record(DeleteNode(node, incidentLinks), actions);
    }

    /** Sorts what is deleted and keeps the links that no deleted node takes with it. */
    method RecordMultiDelete(nodes: seq<GraphNode>, links: seq<GraphLink>, actions: GraphMaps)
      modifies this, actions
      ensures (actions.Value(), State()) == Step(old(actions.Value()), old(State()),
        Action.Record(MultiDeleteItem(nodes, links)))
      ensures ManyGone(old(actions.Value()), actions.Value(), nodes, Explicit(links, nodes))
    {
      MultiDeletePerforms(actions.Value(), nodes, links);
      var stableNodes, stableLinks := SortNodes(nodes), SortLinks(links);
      Record(MultiDelete(stableNodes, stableLinks, Explicit(stableLinks, stableNodes)), actions);
    }

    method PerformUndo(actions: GraphMaps)
      modifies this, actions
      ensures (actions.Value(), State()) == Step(old(actions.Value()), old(State()), Action.Undo)
      ensures old(undoStack) != [] ==>
        Reverts(old(actions.Value()), old(undoStack)[|old(undoStack)| - 1], actions.Value())
    {
      if |undoStack| == 0 { return; }
      var item := undoStack[|undoStack| - 1];
      UndoReverts(actions.Value(), item);
      actions.Send(UndoEvents(item));
      undoStack := undoStack[..|undoStack| - 1];
      redoStack := redoStack + [item];
    }

    method PerformRedo(actions: GraphMaps)
      modifies this, actions
      ensures (actions.Value(), State()) == Step(old(actions.Value()), old(State()), Action.Redo)
      ensures old(redoStack) != [] ==>
        Performs(old(actions.Value()), old(redoStack)[|old(redoStack)| - 1], actions.Value())
    {
      if |redoStack| == 0 { return; }
      var item := redoStack[|redoStack| - 1];
      RedoPerforms(actions.Value(), item);
      actions.Send(RedoEvents(item));
      redoStack := redoStack[..|redoStack| - 1];
      undoStack := undoStack + [item];
    }

    method Push(item: UndoItem)
      modifies this
      ensures State() == Manager(old(undoStack) + [item], [])
    {
      undoStack := undoStack + [item];
      redoStack := [];
    }

    method ClearRedo()
      modifies this
      ensures State() == old(State()).(redoStack := [])
    {
      redoStack := [];
    }

    method Reset()
      modifies this
      ensures State() == Manager([], [])
    {
      undoStack, redoStack := [], [];
    }
  }
}
