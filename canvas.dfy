/**
 * QDataflowCanvas together with its scene: the maps from model nodes and
 * connections to their visuals, the display-mode flags, the grid settings, the
 * completion provider, the stacking order and focus of the scene, and the log
 * of commands the canvas has issued to its model.
 */
module Canvas {
  import opened Ids
  import opened Wrappers
  import opened Geometry
  import opened Items
  import opened Ports
  import opened Completion
  import opened Visuals
  import opened Stacking
  import opened Editing
  import opened Connecting

  /** qMax(1.0, sz): the grid size setGridSize keeps. */
  function ClampedGridSize(sz: real): (g: real)
    ensures g >= 1.0
    ensures sz >= 1.0 ==> g == sz
    ensures sz < 1.0 ==> g == 1.0
  {
    if 1.0 < sz then sz else 1.0
  }

  /** Every node record with its hover flag set (setAcceptHoverEvents for each node). */
  function NodesWithHover(nodes: map<NodeId, NodeVisual>, show: bool): (r: map<NodeId, NodeVisual>)
    ensures r.Keys == nodes.Keys
    ensures forall id :: id in nodes ==> r[id] == nodes[id].(acceptsHover := show)
  {
    map id | id in nodes :: nodes[id].(acceptsHover := show)
  }

  /** Every connection record with its hover flag set. */
  function ConnectionsWithHover(conns: map<ConnId, ConnVisual>, show: bool): (r: map<ConnId, ConnVisual>)
    ensures r.Keys == conns.Keys
    ensures forall id :: id in conns ==> r[id] == conns[id].(acceptsHover := show)
  {
    map id | id in conns :: conns[id].(acceptsHover := show)
  }

  /** Every node record is well formed and accepts hover events as the flag says. */
  predicate NodesOk(nodes: map<NodeId, NodeVisual>, metrics: string -> Extent, hover: bool)
  {
    forall id :: id in nodes ==> NodeOk(nodes[id], metrics, hover)
  }

  /** Replacing one record by a well-formed one keeps every record well formed. */
  lemma NodesOkUpdate(nodes: map<NodeId, NodeVisual>, n: NodeId, v: NodeVisual, metrics: string -> Extent, hover: bool)
    requires NodesOk(nodes, metrics, hover) && NodeOk(v, metrics, hover)
    ensures NodesOk(nodes[n := v], metrics, hover)
  {
  }

  /** Writing a key twice leaves the second value. */
  lemma Overwrite<K, V>(m: map<K, V>, k: K, a: V, b: V)
    ensures m[k := a][k := b] == m[k := b]
  {
  }

  lemma Associative<T>(a: seq<T>, b: seq<T>, c: seq<T>)
    ensures a + b + c == a + (b + c)
  {
  }

  /** The z-values after a label's completion overlay is shown, if it is. */
  function LiftIf(z: ZMap, ov: Overlaps, cond: bool, x: Item): (r: ZMap)
  {
    if cond then Lift(z, ov, x) else z
  }

  class Canvas {
    /** nodes_ and connections_: the visual of each model entity, keyed by the entity's identity. */
    var nodes: map<NodeId, NodeVisual>
    var connections: map<ConnId, ConnVisual>
    /** showIOletsTooltips_, showObjectHoverFeedback_, showConnectionHoverFeedback_. */
    var showIOletsTooltips: bool
    var showObjectHoverFeedback: bool
    var showConnectionHoverFeedback: bool
    var gridSize: real
    var drawGrid: bool
    /** completion_: the provider asked for candidates. */
    var completion: Provider
    /** The font metrics: the extent of a label showing a text. */
    const metrics: string -> Extent
    /** The scene's collidingItems for each item. */
    var overlaps: Overlaps
    /** The scene's z-values. */
    var z: ZMap
    /** The scene's focus item, as the node whose label holds it. */
    var focus: Option<NodeId>
    /** The commands issued to the model, oldest first. */
    var commands: seq<Command>

    /**
     * What the canvas maintains: the grid size is at least 1, tooltips exclude
     * both kinds of hover feedback, every node's port lists, label and layout
     * agree with each other, and every visual accepts hover events as its
     * feedback flag says.
     */
    predicate Valid()
      reads this`gridSize, this`showIOletsTooltips, this`showObjectHoverFeedback, this`showConnectionHoverFeedback
      reads this`nodes, this`connections
    {
      && gridSize >= 1.0
      && (showIOletsTooltips ==> !showObjectHoverFeedback && !showConnectionHoverFeedback)
      && NodesOk(nodes, metrics, showObjectHoverFeedback)
      && (forall id :: id in connections ==> connections[id].acceptsHover == showConnectionHoverFeedback)
    }

    /** The canvas as constructed: empty, all display modes off, grid size 1, the shipped completion provider. */
    constructor(metrics: string -> Extent, overlaps: Overlaps)
      ensures Valid()
      ensures nodes == map[] && connections == map[] && z == map[] && focus == None && commands == []
      ensures !showIOletsTooltips && !showObjectHoverFeedback && !showConnectionHoverFeedback
      ensures gridSize == 1.0 && !drawGrid && completion == DefaultComplete
      ensures this.metrics == metrics && this.overlaps == overlaps
    {
      this.metrics := metrics;
      this.overlaps := overlaps;
      nodes := map[];
      connections := map[];
      z := map[];
      focus := None;
      commands := [];
      completion := DefaultComplete;
      showObjectHoverFeedback := false;
      showConnectionHoverFeedback := false;
      showIOletsTooltips := false;
      gridSize := 1.0;
      drawGrid := false;
    }

    /** QDataflowCanvas::setCompletion. */
    method SetCompletionProvider(provider: Provider)
      modifies this`completion
      ensures completion == provider
      ensures old(Valid()) ==> Valid()
    {
      completion := provider;
    }

    /**
     * raiseItem: the item goes just above everything colliding with it; a node
     * then raises each connection of its inlets, then each of its outlets.
     */
    method RaiseItem(item: Item)
      modifies this`z
      ensures z == Raised(old(z), overlaps, nodes, item)
      decreases if item.NodeItem? then 3 else 0, 0
    {
      var maxZ := HighestZ(overlaps(item));
      z := z[item := maxZ + 1];
      assert z == Lift(old(z), overlaps, item);
      if item.NodeItem? && item.node in nodes {
        RaiseAttached(nodes[item.node]);
      }
    }

    /** The first loop of raiseItem: the highest z-value among the colliding items, and at least 0. */
    method HighestZ(colliding: seq<Item>) returns (maxZ: int)
      ensures maxZ == MaxZ(z, colliding)
      ensures maxZ >= 0 && forall k :: 0 <= k < |colliding| ==> ZOf(z, colliding[k]) <= maxZ
    {
      maxZ := 0;
      var k := 0;
      while k < |colliding|
        invariant 0 <= k <= |colliding|
        invariant maxZ == MaxZ(z, colliding[..k])
      {
        assert colliding[..k + 1][..k] == colliding[..k];
        maxZ := Max(maxZ, ZOf(z, colliding[k]));
        k := k + 1;
      }
      assert colliding[..k] == colliding;
    }

    /** The two loops of raiseItem over a node's ports: the inlets' connections, then the outlets'. */
    method RaiseAttached(v: NodeVisual)
      modifies this`z
      ensures z == LiftConnections(old(z), overlaps, AttachedConnections(v))
      decreases 2, 0
    {
      RaisePortConnections(v.inlets);
      RaisePortConnections(v.outlets);
      LiftConnectionsAppend(old(z), overlaps, PortConnections(v.inlets), PortConnections(v.outlets));
    }

    /** The loops of raiseItem over a node's inlets or outlets: each port's connections, port by port. */
    method RaisePortConnections(ports: seq<Port>)
      modifies this`z
      ensures z == LiftConnections(old(z), overlaps, PortConnections(ports))
      decreases 1, 0
    {
      var i := 0;
      while i < |ports|
        invariant 0 <= i <= |ports|
        invariant z == LiftConnections(old(z), overlaps, PortConnections(ports[..i]))
      {
        RaiseConnections(ports[i].connections);
        LiftConnectionsAppend(old(z), overlaps, PortConnections(ports[..i]), ports[i].connections);
        PortConnectionsPrefix(ports, i);
        i := i + 1;
      }
      assert ports[..i] == ports;
    }

    /** raiseItem on each connection of a port, in attachment order. */
    method RaiseConnections(cs: seq<ConnId>)
      modifies this`z
      ensures z == LiftConnections(old(z), overlaps, cs)
      decreases 0, 1
    {
      var j := 0;
      while j < |cs|
        invariant 0 <= j <= |cs|
        invariant z == LiftConnections(old(z), overlaps, cs[..j])
      {
        LiftConnectionsSnoc(old(z), overlaps, cs[..j], cs[j]);
        assert cs[..j] + [cs[j]] == cs[..j + 1];
        RaiseItem(ConnectionItem(cs[j]));
        j := j + 1;
      }
      assert cs[..j] == cs;
    }

    /** Every node accepts hover events as show says (the visiting order is not observable). */
    method SetNodesHover(show: bool)
      modifies this`nodes
      ensures nodes == NodesWithHover(old(nodes), show)
    {
      var before := nodes;
      var after := before;
      var todo := before.Keys;
      while todo != {}
        invariant todo <= after.Keys == before.Keys
        invariant forall id :: id in after ==> after[id] == if id in todo then before[id] else before[id].(acceptsHover := show)
        decreases |todo|
      {
        var id :| id in todo;
        after := after[id := before[id].(acceptsHover := show)];
        todo := todo - {id};
      }
      nodes := after;
    }

    /** Every connection accepts hover events as show says (the visiting order is not observable). */
    method SetConnectionsHover(show: bool)
      modifies this`connections
      ensures connections == ConnectionsWithHover(old(connections), show)
    {
      var before := connections;
      var after := before;
      var todo := before.Keys;
      while todo != {}
        invariant todo <= after.Keys == before.Keys
        invariant forall id :: id in after ==> after[id] == if id in todo then before[id] else before[id].(acceptsHover := show)
        decreases |todo|
      {
        var id :| id in todo;
        after := after[id := before[id].(acceptsHover := show)];
        todo := todo - {id};
      }
      connections := after;
    }

    /** setShowIOletTooltips: turning tooltips on turns both kinds of hover feedback off. */
    method SetShowIOletTooltips(show: bool)
      modifies this`showIOletsTooltips, this`showObjectHoverFeedback, this`showConnectionHoverFeedback, this`nodes, this`connections
      ensures showIOletsTooltips == show
      ensures showObjectHoverFeedback == (old(showObjectHoverFeedback) && !show)
      ensures showConnectionHoverFeedback == (old(showConnectionHoverFeedback) && !show)
      ensures nodes == if show && old(showObjectHoverFeedback) then NodesWithHover(old(nodes), false) else old(nodes)
      ensures connections == if show && old(showConnectionHoverFeedback) then ConnectionsWithHover(old(connections), false) else old(connections)
      ensures old(Valid()) ==> Valid()
      decreases if show then 2 else 0
    {
      showIOletsTooltips := show;
      if show {
        if showObjectHoverFeedback {
          SetShowObjectHoverFeedback(false);
        }
        if showConnectionHoverFeedback {
          SetShowConnectionHoverFeedback(false);
        }
      }
    }

    /** setShowObjectHoverFeedback: turning it on turns tooltips off; every node follows the flag. */
    method SetShowObjectHoverFeedback(show: bool)
      modifies this`showIOletsTooltips, this`showObjectHoverFeedback, this`showConnectionHoverFeedback, this`nodes, this`connections
      ensures showObjectHoverFeedback == show
      ensures showIOletsTooltips == (old(showIOletsTooltips) && !show)
      ensures showConnectionHoverFeedback == old(showConnectionHoverFeedback)
      ensures nodes == NodesWithHover(old(nodes), show)
      ensures connections == old(connections)
      ensures old(Valid()) ==> Valid()
      decreases if show then 1 else 0
    {
      showObjectHoverFeedback := show;
      if show {
        if showIOletsTooltips {
          SetShowIOletTooltips(false);
        }
      }
      SetNodesHover(show);
    }

    /** setShowConnectionHoverFeedback: turning it on turns tooltips off; every connection follows the flag. */
    method SetShowConnectionHoverFeedback(show: bool)
      modifies this`showIOletsTooltips, this`showObjectHoverFeedback, this`showConnectionHoverFeedback, this`nodes, this`connections
      ensures showConnectionHoverFeedback == show
      ensures showIOletsTooltips == (old(showIOletsTooltips) && !show)
      ensures showObjectHoverFeedback == old(showObjectHoverFeedback)
      ensures connections == ConnectionsWithHover(old(connections), show)
      ensures nodes == old(nodes)
      ensures old(Valid()) ==> Valid()
      decreases if show then 1 else 0
    {
      showConnectionHoverFeedback := show;
      if show {
        if showIOletsTooltips {
          SetShowIOletTooltips(false);
        }
      }
      SetConnectionsHover(show);
    }

    /** setGridSize: the grid size is clamped to at least 1. */
    method SetGridSize(sz: real)
      modifies this`gridSize
      ensures gridSize == ClampedGridSize(sz)
      ensures old(Valid()) ==> Valid()
    {
      gridSize := if 1.0 < sz then sz else 1.0;
    }

    method SetDrawGrid(draw: bool)
      modifies this`drawGrid
      ensures drawGrid == draw
      ensures old(Valid()) ==> Valid()
    {
      drawGrid := draw;
    }

    /** clearCompletion: the label of n has no candidate, no highlight, and is inactive. */
    method ClearCompletion(n: NodeId)
      requires n in nodes
      modifies this`nodes
      ensures nodes == old(nodes)[n := ClearedNode(old(nodes)[n])]
      ensures old(Valid()) ==> Valid()
    {
      nodes := nodes[n := ClearedNode(nodes[n])];
    }

    /**
     * setCompletion(list): the completion is cleared; a non-empty list becomes
     * the active candidate list with no highlight, and the label is raised.
     */
    method SetCompletion(n: NodeId, list: seq<string>)
      requires n in nodes
      modifies this`nodes, this`z
      ensures nodes == old(nodes)[n := old(nodes)[n].(textLabel := WithCandidates(old(nodes)[n].textLabel, list))]
      ensures z == LiftIf(old(z), overlaps, list != [], LabelItem(n))
      ensures old(Valid()) ==> Valid()
    {
      ClearCompletion(n);
      if list == [] {
        return;
      }
      var items := CopyCandidates(list);
      var v := nodes[n];
      var w := v.(textLabel := v.textLabel.(items := items, active := true));
      nodes := nodes[n := w];
      Overwrite(old(nodes), n, ClearedNode(old(nodes)[n]), w);
      if old(Valid()) {
        assert NodeOk(w, metrics, showObjectHoverFeedback);
        NodesOkUpdate(old(nodes), n, w, metrics, showObjectHoverFeedback);
      }
      RaiseItem(LabelItem(n));
    }

    /** The loop of setCompletion: one candidate item per string of the list, in order. */
    static method CopyCandidates(list: seq<string>) returns (items: seq<string>)
      ensures items == list
    {
      items := [];
      var k := 0;
      while k < |list|
        invariant 0 <= k <= |list|
        invariant items == list[..k]
      {
        items := items + [list[k]];
        k := k + 1;
      }
    }

    /** complete(): the provider's candidates for the label's current text are shown. */
    method Complete(n: NodeId)
      requires n in nodes
      modifies this`nodes, this`z
      ensures var l := old(nodes)[n].textLabel;
        nodes == old(nodes)[n := old(nodes)[n].(textLabel := WithCandidates(l, completion(l.text)))]
      ensures z == LiftIf(old(z), overlaps, completion(old(nodes)[n].textLabel.text) != [], LabelItem(n))
      ensures old(Valid()) ==> Valid()
    {
      var txt := nodes[n].textLabel.text;
      var list := completion(txt);
      SetCompletion(n, list);
    }

    /** itemTextEditorTextChange: the node of the changed label is laid out again and its completion is queried. */
    method ItemTextEditorTextChange(n: NodeId)
      requires n in nodes
      modifies this`nodes, this`z
      ensures var v := Adjusted(old(nodes)[n], metrics);
        nodes == old(nodes)[n := v.(textLabel := WithCandidates(v.textLabel, completion(v.textLabel.text)))]
      ensures z == LiftIf(old(z), overlaps, completion(old(nodes)[n].textLabel.text) != [], LabelItem(n))
      ensures old(Valid()) ==> Valid()
    {
      var a := Adjusted(nodes[n], metrics);
      nodes := nodes[n := a];
      if old(Valid()) {
        assert NodeOk(a, metrics, showObjectHoverFeedback);
        NodesOkUpdate(old(nodes), n, a, metrics, showObjectHoverFeedback);
      }
      Complete(n);
      Overwrite(old(nodes), n, a, a.(textLabel := WithCandidates(a.textLabel, completion(a.textLabel.text))));
    }

    /**
     * The label's document of n changes to t, by setPlainText or by typing;
     * contentsChanged then runs itemTextEditorTextChange.
     */
    method ChangeText(n: NodeId, t: string)
      requires n in nodes
      modifies this`nodes, this`z
      ensures nodes == old(nodes)[n := WithText(old(nodes)[n], t, completion, metrics)]
      ensures z == LiftIf(old(z), overlaps, completion(t) != [], LabelItem(n))
      ensures old(Valid()) ==> Valid()
    {
      var v := nodes[n];
      nodes := nodes[n := v.(textLabel := v.textLabel.(text := t, selectAll := false))];
      ItemTextEditorTextChange(n);
      if old(Valid()) {
        WithTextKeepsNodeOk(v, t, completion, metrics, showObjectHoverFeedback);
      }
    }

    /** QDataflowNode::setText: a text equal to the current one changes nothing, any other is set on the label. */
    method SetNodeText(n: NodeId, t: string)
      requires n in nodes
      modifies this`nodes, this`z
      ensures t == old(nodes)[n].textLabel.text ==> nodes == old(nodes) && z == old(z)
      ensures t != old(nodes)[n].textLabel.text ==>
        nodes == old(nodes)[n := WithText(old(nodes)[n], t, completion, metrics)] &&
        z == LiftIf(old(z), overlaps, completion(t) != [], LabelItem(n))
      ensures old(Valid()) ==> Valid()
    {
      if t == nodes[n].textLabel.text {
        return;
      }
      ChangeText(n, t);
    }

    /** cycleCompletion(d): the highlight moves by d among the candidates and wraps around. */
    method CycleCompletion(n: NodeId, d: int)
      requires n in nodes && |nodes[n].textLabel.items| >= 1
      modifies this`nodes
      ensures var l := old(nodes)[n].textLabel;
        nodes == old(nodes)[n := old(nodes)[n].(textLabel := l.(index := CycledIndex(l.index, |l.items|, d)))]
      ensures old(Valid()) ==> Valid()
    {
      var v := nodes[n];
      var count := |v.textLabel.items|;
      var index := v.textLabel.index;
      if index == -1 && d == -1 {
        index := count - 1;
      } else {
        index := index + d;
      }
      index := Wrap(index, count);
      nodes := nodes[n := v.(textLabel := v.textLabel.(index := index))];
    }

    /** The two loops of cycleCompletion: whole periods are added or removed until the index is in [0, count). */
    static method Wrap(index: int, count: int) returns (r: int)
      requires count >= 1
      ensures r == index % count
      ensures 0 <= r < count
    {
      r := index;
      while r < 0
        invariant r % count == index % count
        decreases -r
      {
        ModShift(r, count);
        r := r + count;
      }
      while r >= count
        invariant r >= 0 && r % count == index % count
        decreases r
      {
        ModShift(r - count, count);
        r := r - count;
      }
      RemainderUnique(r, count, 0, r);
    }

    /**
     * acceptCompletion: with a highlighted candidate the text becomes that
     * candidate; active with no highlight, the edit is committed; inactive,
     * the completion is cleared.
     */
    method AcceptCompletion(n: NodeId)
      requires n in nodes && Consistent(nodes[n].textLabel)
      modifies this`nodes, this`z, this`commands, this`focus
      ensures var v := old(nodes)[n]; var l := v.textLabel;
        if l.active && l.index >= 0 then
          && nodes == old(nodes)[n := WithText(v, l.items[l.index], completion, metrics)]
          && z == LiftIf(old(z), overlaps, completion(l.items[l.index]) != [], LabelItem(n))
          && commands == old(commands) && focus == old(focus)
        else if l.active then
          && nodes == old(nodes)[n := Exited(v, false, completion, metrics)]
          && commands == old(commands) + ExitCommands(n, v, false)
          && focus == ExitFocus(old(focus), n) && z == old(z)
        else
          && nodes == old(nodes)[n := ClearedNode(v)]
          && commands == old(commands) && focus == old(focus) && z == old(z)
      ensures old(Valid()) ==> Valid()
    {
      var l := nodes[n].textLabel;
      if l.active {
        if l.index >= 0 {
          ChangeText(n, l.items[l.index]);
        } else {
          ExitEditMode(n, false);
        }
      } else {
        ClearCompletion(n);
      }
    }

    /**
     * exitEditMode(revert): the completion is cleared; reverting sets the
     * text back to oldText_, committing issues setText when the text
     * changed; then the label gives up focus, selection and editing.
     */
    method ExitEditMode(n: NodeId, revert: bool)
      requires n in nodes
      modifies this`nodes, this`z, this`commands, this`focus
      ensures nodes == old(nodes)[n := Exited(old(nodes)[n], revert, completion, metrics)]
      ensures commands == old(commands) + ExitCommands(n, old(nodes)[n], revert)
      ensures focus == ExitFocus(old(focus), n)
      ensures z == LiftIf(old(z), overlaps, revert && completion(old(nodes)[n].oldText) != [], LabelItem(n))
      ensures old(Valid()) ==> Valid()
    {
      ClearCompletion(n);
      SettleText(n, revert);
      LeaveEditing(n);
    }

    /** The end of exitEditMode: the label of n loses the focus, its text selection and its text editing. */
    method LeaveEditing(n: NodeId)
      requires n in nodes
      modifies this`nodes, this`focus
      ensures var v := old(nodes)[n];
        nodes == old(nodes)[n := v.(textLabel := v.textLabel.(interactive := false, selectAll := false))]
      ensures focus == ExitFocus(old(focus), n)
      ensures old(Valid()) ==> Valid()
    {
      if focus == Some(n) {
        focus := None;
      }
      var v := nodes[n];
      var w := v.(textLabel := v.textLabel.(interactive := false, selectAll := false));
      nodes := nodes[n := w];
      if old(Valid()) {
        assert NodeOk(w, metrics, showObjectHoverFeedback);
        NodesOkUpdate(old(nodes), n, w, metrics, showObjectHoverFeedback);
      }
    }

    /** The middle of exitEditMode: revert the text, or commit a changed one with setText. */
    method SettleText(n: NodeId, revert: bool)
      requires n in nodes
      modifies this`nodes, this`z, this`commands
      ensures nodes == old(nodes)[n := Settled(old(nodes)[n], revert, completion, metrics)]
      ensures commands == old(commands) + ExitCommands(n, old(nodes)[n], revert)
      ensures z == LiftIf(old(z), overlaps, revert && completion(old(nodes)[n].oldText) != [], LabelItem(n))
      ensures old(Valid()) ==> Valid()
    {
      var v := nodes[n];
      if revert {
        ChangeText(n, v.oldText);
      } else if v.oldText != v.textLabel.text {
        commands := commands + [SetText(n, v.textLabel.text)];
        var w := v.(oldText := v.textLabel.text);
        nodes := nodes[n := w];
        if old(Valid()) {
          assert NodeOk(w, metrics, showObjectHoverFeedback);
          NodesOkUpdate(old(nodes), n, w, metrics, showObjectHoverFeedback);
        }
      }
    }

    /**
     * setSelected on a node: nothing happens when the node already has that
     * state; otherwise itemChange(ItemSelectedHasChanged) lays the node out,
     * then a selected node is raised and oldText_ takes its text, and a
     * deselected one leaves edit mode committing its text.
     */
    method SetSelected(n: NodeId, sel: bool)
      requires n in nodes
      modifies this`nodes, this`z, this`commands, this`focus
      ensures var v := old(nodes)[n];
        if sel == v.selected then
          nodes == old(nodes) && z == old(z) && commands == old(commands) && focus == old(focus)
        else if sel then
          && nodes == old(nodes)[n := Selected(v, metrics)]
          && z == Raised(old(z), overlaps, old(nodes), NodeItem(n))
          && commands == old(commands) && focus == old(focus)
        else
          && nodes == old(nodes)[n := Deselected(v, completion, metrics)]
          && commands == old(commands) + ExitCommands(n, v, false)
          && focus == ExitFocus(old(focus), n) && z == old(z)
      ensures old(Valid()) ==> Valid()
    {
      if sel == nodes[n].selected {
        return;
      }
      if sel {
        SelectNode(n);
      } else {
        DeselectNode(n);
      }
    }

    /** itemChange(ItemSelectedHasChanged, true): adjust, raise the node, capture the text in oldText_. */
    method SelectNode(n: NodeId)
      requires n in nodes
      modifies this`nodes, this`z
      ensures nodes == old(nodes)[n := Selected(old(nodes)[n], metrics)]
      ensures z == Raised(old(z), overlaps, old(nodes), NodeItem(n))
      ensures old(Valid()) ==> Valid()
    {
      var v := nodes[n];
      var laidOut := Adjusted(v.(selected := true), metrics);
      RaiseItem(NodeItem(n));
      nodes := nodes[n := laidOut.(oldText := v.textLabel.text)];
      if old(Valid()) {
        SelectionKeepsNodeOk(v, completion, metrics, showObjectHoverFeedback);
        NodesOkUpdate(old(nodes), n, Selected(v, metrics), metrics, showObjectHoverFeedback);
      }
    }

    /** itemChange(ItemSelectedHasChanged, false): adjust, then exitEditMode(false). */
    method DeselectNode(n: NodeId)
      requires n in nodes
      modifies this`nodes, this`z, this`commands, this`focus
      ensures nodes == old(nodes)[n := Deselected(old(nodes)[n], completion, metrics)]
      ensures commands == old(commands) + ExitCommands(n, old(nodes)[n], false)
      ensures focus == ExitFocus(old(focus), n) && z == old(z)
      ensures old(Valid()) ==> Valid()
    {
      var v := nodes[n];
      var a := Adjusted(v.(selected := false), metrics);
      nodes := nodes[n := a];
      if old(Valid()) {
        assert NodeOk(a, metrics, showObjectHoverFeedback);
        NodesOkUpdate(old(nodes), n, a, metrics, showObjectHoverFeedback);
      }
      ExitEditMode(n, false);
      Overwrite(old(nodes), n, a, Exited(a, false, completion, metrics));
    }

    /**
     * enterEditMode: oldText_ captures the text, the node is selected, its
     * label becomes editable with the whole text selected and takes the
     * focus, and complete() shows the candidates for the text.
     */
    method EnterEditMode(n: NodeId)
      requires n in nodes
      modifies this`nodes, this`z, this`commands, this`focus
      ensures nodes == old(nodes)[n := Entered(old(nodes)[n], completion, metrics)]
      ensures focus == Some(n) && commands == old(commands)
      ensures var v := old(nodes)[n];
        var z1 := if v.selected then old(z) else Raised(old(z), overlaps, old(nodes), NodeItem(n));
        z == LiftIf(z1, overlaps, completion(v.textLabel.text) != [], LabelItem(n))
      ensures old(Valid()) ==> Valid()
    {
      ghost var v := nodes[n];
      EnterEditModeSteps(n);
      if old(Valid()) {
        EnteredKeepsNodeOk(v, completion, metrics, showObjectHoverFeedback);
        NodesOkUpdate(old(nodes), n, Entered(v, completion, metrics), metrics, showObjectHoverFeedback);
      }
    }

    /** The steps of enterEditMode in source order; the setSelected(true) of a selected node does nothing. */
    method EnterEditModeSteps(n: NodeId)
      requires n in nodes
      modifies this`nodes, this`z, this`focus
      ensures nodes == old(nodes)[n := Entered(old(nodes)[n], completion, metrics)]
      ensures focus == Some(n)
      ensures var v := old(nodes)[n];
        var z1 := if v.selected then old(z) else Raised(old(z), overlaps, old(nodes), NodeItem(n));
        z == LiftIf(z1, overlaps, completion(v.textLabel.text) != [], LabelItem(n))
    {
      var v := nodes[n];
      var captured := v.(oldText := v.textLabel.text);
      nodes := nodes[n := captured];
      ghost var sel := if v.selected then captured else Selected(captured, metrics);
      if !captured.selected {
        SelectNode(n);
        Overwrite(old(nodes), n, captured, sel);
      }
      assert nodes == old(nodes)[n := sel];
      OpenEditor(n);
      ghost var editable := sel.(textLabel := sel.textLabel.(interactive := true, selectAll := true));
      Overwrite(old(nodes), n, sel, editable);
      Complete(n);
      Overwrite(old(nodes), n, editable, editable.(textLabel := WithCandidates(editable.textLabel, completion(editable.textLabel.text))));
    }

    /** The middle of enterEditMode: the label takes text editing, the whole-document selection and the focus. */
    method OpenEditor(n: NodeId)
      requires n in nodes
      modifies this`nodes, this`focus
      ensures var w := old(nodes)[n];
        nodes == old(nodes)[n := w.(textLabel := w.textLabel.(interactive := true, selectAll := true))]
      ensures focus == Some(n)
    {
      var w := nodes[n];
      nodes := nodes[n := w.(textLabel := w.textLabel.(interactive := true, selectAll := true))];
      focus := Some(n);
    }

    /** mouseDoubleClickEvent on a node: a node not in edit mode enters it; otherwise the event is ignored. */
    method NodeDoubleClick(n: NodeId) returns (accepted: bool)
      requires n in nodes
      modifies this`nodes, this`z, this`commands, this`focus
      ensures accepted <==> !old(InEditMode(nodes, focus, n))
      ensures accepted ==> nodes == old(nodes)[n := Entered(old(nodes)[n], completion, metrics)] && focus == Some(n)
      ensures !accepted ==> nodes == old(nodes) && z == old(z) && focus == old(focus)
      ensures commands == old(commands)
      ensures old(Valid()) ==> Valid()
    {
      if InEditMode(nodes, focus, n) {
        return false;
      }
      EnterEditMode(n);
      return true;
    }

    /**
     * The label's sceneEvent for a key press while editing: Tab is swallowed;
     * Escape clears an active completion or leaves edit mode reverting;
     * Return accepts an active completion or leaves edit mode committing;
     * Down and Up move the highlight of an active completion; every other key
     * goes on to the text item's own editing.
     */
    method LabelKeyPress(n: NodeId, key: Key) returns (consumed: bool)
      requires n in nodes && Consistent(nodes[n].textLabel)
      modifies this`nodes, this`z, this`commands, this`focus
      ensures consumed <==> key in {Tab, Escape, Return, Up, Down}
      ensures var v := old(nodes)[n]; var l := v.textLabel;
        match key
        case Escape =>
          if l.active then
            nodes == old(nodes)[n := ClearedNode(v)] && z == old(z) && commands == old(commands) && focus == old(focus)
          else
            && nodes == old(nodes)[n := Exited(v, true, completion, metrics)]
            && z == LiftIf(old(z), overlaps, completion(v.oldText) != [], LabelItem(n))
            && commands == old(commands) && focus == ExitFocus(old(focus), n)
        case Return =>
          if l.active && l.index >= 0 then
            && nodes == old(nodes)[n := WithText(v, l.items[l.index], completion, metrics)]
            && z == LiftIf(old(z), overlaps, completion(l.items[l.index]) != [], LabelItem(n))
            && commands == old(commands) && focus == old(focus)
          else
            && nodes == old(nodes)[n := Exited(v, false, completion, metrics)]
            && commands == old(commands) + ExitCommands(n, v, false)
            && focus == ExitFocus(old(focus), n) && z == old(z)
        case Down =>
          && nodes == (if l.active then old(nodes)[n := v.(textLabel := l.(index := CycledIndex(l.index, |l.items|, 1)))] else old(nodes))
          && z == old(z) && commands == old(commands) && focus == old(focus)
        case Up =>
          && nodes == (if l.active then old(nodes)[n := v.(textLabel := l.(index := CycledIndex(l.index, |l.items|, -1)))] else old(nodes))
          && z == old(z) && commands == old(commands) && focus == old(focus)
        case _ =>
          nodes == old(nodes) && z == old(z) && commands == old(commands) && focus == old(focus)
      ensures old(Valid()) ==> Valid()
    {
      var active := nodes[n].textLabel.active;
      match key
      case Tab =>
        consumed := true;
      case Escape =>
        if active {
          ClearCompletion(n);
        } else {
          ExitEditMode(n, true);
        }
        consumed := true;
      case Return =>
        if active {
          AcceptCompletion(n);
        } else {
          ExitEditMode(n, false);
        }
        consumed := true;
      case Down =>
        if active {
          CycleCompletion(n, 1);
        }
        consumed := true;
      case Up =>
        if active {
          CycleCompletion(n, -1);
        }
        consumed := true;
      case _ =>
        consumed := false;
    }

    /**
     * The two loops of set*Count: while the list is too long, each connection
     * of its last port and then the port itself leave the scene and the port
     * is popped; while it is too short, a fresh port is pushed. The removals
     * are reported in the order they happen.
     */
    method ResizePorts(ports: seq<Port>, count: nat) returns (r: seq<Port>, removed: seq<Removal>)
      modifies this`connections
      ensures r == Resized(ports, count)
      ensures removed == Drops(ports, count)
      ensures connections == HideAll(old(connections), RemovedConnections(removed))
    {
      r, removed := ShrinkPorts(ports, count);
      r := GrowPorts(r, count);
      assert r == Resized(ports, count);
    }

    /** The first loop of set*Count: pop the last port, its connections first, until at most count remain. */
    method ShrinkPorts(ports: seq<Port>, count: nat) returns (r: seq<Port>, removed: seq<Removal>)
      modifies this`connections
      ensures r == ports[..MinNat(|ports|, count)]
      ensures removed == Drops(ports, count)
      ensures connections == HideAll(old(connections), RemovedConnections(removed))
    {
      r := ports;
      removed := [];
      while |r| > count
        invariant |r| <= |ports| && r == ports[..|r|]
        invariant |r| == |ports| || |r| >= count
        invariant Drops(ports, count) == removed + Drops(r, count)
        invariant connections == HideAll(old(connections), RemovedConnections(removed))
        decreases |r|
      {
        ghost var r0, removed0 := r, removed;
        r, removed := PopPort(r, removed);
        HideAllAppend(old(connections), RemovedConnections(removed0), r0[|r0| - 1].connections);
        ghost var step := ConnectionRemovals(r0[|r0| - 1].connections) + [RemovedPort(r0[|r0| - 1].index)];
        assert Drops(r0, count) == step + Drops(r, count);
        Associative(removed0, step, Drops(r, count));
        assert ports[..|r0|][..|r|] == ports[..|r|];
      }
    }

    /** One turn of the first loop: the connections of the last port, then the port, leave the scene. */
    method PopPort(ports: seq<Port>, log: seq<Removal>) returns (r: seq<Port>, removed: seq<Removal>)
      requires |ports| > 0
      modifies this`connections
      ensures r == ports[..|ports| - 1]
      ensures var last := ports[|ports| - 1];
        && removed == log + (ConnectionRemovals(last.connections) + [RemovedPort(last.index)])
        && RemovedConnections(removed) == RemovedConnections(log) + last.connections
        && connections == HideAll(old(connections), last.connections)
    {
      var last := ports[|ports| - 1];
      DropConnections(last.connections);
      var step := ConnectionRemovals(last.connections) + [RemovedPort(last.index)];
      assert step[..|step| - 1] == ConnectionRemovals(last.connections);
      RemovedConnectionsOfConnections(last.connections);
      RemovedConnectionsAppend(log, step);
      removed := log + step;
      r := ports[..|ports| - 1];
    }

    /** The second loop of set*Count: push a fresh port at the next index until count are there. */
    static method GrowPorts(ports: seq<Port>, count: nat) returns (r: seq<Port>)
      requires |ports| <= count
      ensures r == ports + seq(count - |ports|, j requires 0 <= j => NewPort(|ports| + j))
    {
      r := ports;
      while |r| < count
        invariant |ports| <= |r| <= count
        invariant r == ports + seq(|r| - |ports|, j requires 0 <= j => NewPort(|ports| + j))
        decreases count - |r|
      {
        r := r + [NewPort(|r|)];
      }
    }

    /** The inner loop of set*Count: each connection of the dropped port leaves the scene in list order. */
    method DropConnections(cs: seq<ConnId>)
      modifies this`connections
      ensures connections == HideAll(old(connections), cs)
    {
      var k := 0;
      while k < |cs|
        invariant 0 <= k <= |cs|
        invariant connections == HideAll(old(connections), cs[..k])
      {
        assert cs[..k + 1][..k] == cs[..k];
        connections := Hide(connections, cs[k]);
        k := k + 1;
      }
      assert cs[..k] == cs;
    }

    /** QDataflowNode::setInletCount(count): the inlet list resized, its dropped connections out of the scene, then adjust. */
    method SetInletCount(n: NodeId, count: nat) returns (removed: seq<Removal>)
      requires n in nodes
      modifies this`nodes, this`connections
      ensures removed == Drops(old(nodes)[n].inlets, count)
      ensures var v := old(nodes)[n];
        nodes == old(nodes)[n := Adjusted(v.(inlets := Resized(v.inlets, count)), metrics)]
      ensures connections == HideAll(old(connections), RemovedConnections(removed))
      ensures old(Valid()) ==> Valid()
    {
      var v := nodes[n];
      var ports;
      ports, removed := ResizePorts(v.inlets, count);
      var w := Adjusted(v.(inlets := ports), metrics);
      nodes := nodes[n := w];
      ResizedShape(v.inlets, count);
      if old(Valid()) {
        assert NodeOk(w, metrics, showObjectHoverFeedback);
        NodesOkUpdate(old(nodes), n, w, metrics, showObjectHoverFeedback);
      }
    }

    /** QDataflowNode::setOutletCount(count): the same on the outlet list. */
    method SetOutletCount(n: NodeId, count: nat) returns (removed: seq<Removal>)
      requires n in nodes
      modifies this`nodes, this`connections
      ensures removed == Drops(old(nodes)[n].outlets, count)
      ensures var v := old(nodes)[n];
        nodes == old(nodes)[n := Adjusted(v.(outlets := Resized(v.outlets, count)), metrics)]
      ensures connections == HideAll(old(connections), RemovedConnections(removed))
      ensures old(Valid()) ==> Valid()
    {
      var v := nodes[n];
      var ports;
      ports, removed := ResizePorts(v.outlets, count);
      var w := Adjusted(v.(outlets := ports), metrics);
      nodes := nodes[n := w];
      ResizedShape(v.outlets, count);
      if old(Valid()) {
        assert NodeOk(w, metrics, showObjectHoverFeedback);
        NodesOkUpdate(old(nodes), n, w, metrics, showObjectHoverFeedback);
      }
    }

    /**
     * onNodeAdded: a node visual is built from the model node, recorded and
     * put in the scene; a node with an empty text enters edit mode at once.
     */
    method OnNodeAdded(m: ModelNode)
      modifies this`nodes, this`z, this`commands, this`focus
      ensures var v := NewNodeVisual(m, metrics, showObjectHoverFeedback).(inScene := true);
        nodes == old(nodes)[m.id := if m.text == "" then Entered(v, completion, metrics) else v]
      ensures focus == if m.text == "" then Some(m.id) else old(focus)
      ensures z == if m.text == "" then LiftIf(Lift(old(z), overlaps, NodeItem(m.id)), overlaps, completion("") != [], LabelItem(m.id)) else old(z)
      ensures commands == old(commands)
      ensures m.text == "" ==> InEditMode(nodes, focus, m.id)
      ensures old(Valid()) ==> Valid()
    {
      var v := InsertNode(m);
      if m.text == "" {
        NewNodeUnconnected(m, metrics, showObjectHoverFeedback);
        assert AttachedConnections(v) == [];
        assert Raised(z, overlaps, nodes, NodeItem(m.id)) == Lift(z, overlaps, NodeItem(m.id));
        EnterEditMode(m.id);
        Overwrite(old(nodes), m.id, v, Entered(v, completion, metrics));
      }
    }

    /** nodes_[mdlnode] = node and scene()->addItem(node): the new visual is recorded and in the scene. */
    method InsertNode(m: ModelNode) returns (v: NodeVisual)
      modifies this`nodes
      ensures v == NewNodeVisual(m, metrics, showObjectHoverFeedback).(inScene := true)
      ensures nodes == old(nodes)[m.id := v]
      ensures old(Valid()) ==> Valid()
    {
      v := NewNodeVisual(m, metrics, showObjectHoverFeedback).(inScene := true);
      nodes := nodes[m.id := v];
      if old(Valid()) {
        assert NodeOk(v, metrics, showObjectHoverFeedback);
        NodesOkUpdate(old(nodes), m.id, v, metrics, showObjectHoverFeedback);
      }
    }

    /** onNodeRemoved: a node in edit mode leaves it reverting its text; then the node leaves the scene (it stays in nodes_). */
    method OnNodeRemoved(id: NodeId)
      requires id in nodes
      modifies this`nodes, this`z, this`commands, this`focus
      ensures var v := old(nodes)[id];
        var settled := if old(InEditMode(nodes, focus, id)) then Exited(v, true, completion, metrics) else v;
        nodes == old(nodes)[id := settled.(inScene := false)]
      ensures focus == if old(InEditMode(nodes, focus, id)) then ExitFocus(old(focus), id) else old(focus)
      ensures z == if old(InEditMode(nodes, focus, id)) then LiftIf(old(z), overlaps, completion(old(nodes)[id].oldText) != [], LabelItem(id)) else old(z)
      ensures commands == old(commands)
      ensures !InEditMode(nodes, focus, id) && !nodes[id].inScene
      ensures old(Valid()) ==> Valid()
    {
      if InEditMode(nodes, focus, id) {
        ExitEditMode(id, true);
      }
      ghost var settled := nodes;
      var w := nodes[id].(inScene := false);
      nodes := nodes[id := w];
      if old(Valid()) {
        assert NodeOk(w, metrics, showObjectHoverFeedback);
        NodesOkUpdate(settled, id, w, metrics, showObjectHoverFeedback);
      }
      Overwrite(old(nodes), id, settled[id], w);
    }

    /** onNodeValidChanged, through QDataflowNode::setValid: the flag is set and the node laid out. */
    method OnNodeValidChanged(id: NodeId, valid: bool)
      requires id in nodes
      modifies this`nodes
      ensures nodes == old(nodes)[id := Adjusted(old(nodes)[id].(valid := valid), metrics)]
      ensures old(Valid()) ==> Valid()
    {
      nodes := nodes[id := Adjusted(nodes[id].(valid := valid), metrics)];
    }

    /** onNodePosChanged: a known node moves to the position, without telling the model back; an unknown one is ignored. */
    method OnNodePosChanged(id: NodeId, pos: Point)
      modifies this`nodes
      ensures nodes == if id in old(nodes) then old(nodes)[id := old(nodes)[id].(pos := pos)] else old(nodes)
      ensures old(Valid()) ==> Valid()
    {
      var found := LookupNode(nodes, id);
      if found.Some? {
        nodes := nodes[id := found.value.(pos := pos)];
      }
    }

    /** onNodeTextChanged, through QDataflowNode::setText. */
    method OnNodeTextChanged(id: NodeId, text: string)
      requires id in nodes
      modifies this`nodes, this`z
      ensures text == old(nodes)[id].textLabel.text ==> nodes == old(nodes) && z == old(z)
      ensures text != old(nodes)[id].textLabel.text ==>
        nodes == old(nodes)[id := WithText(old(nodes)[id], text, completion, metrics)] &&
        z == LiftIf(old(z), overlaps, completion(text) != [], LabelItem(id))
      ensures InEditMode(nodes, focus, id) == old(InEditMode(nodes, focus, id))
      ensures old(Valid()) ==> Valid()
    {
      SetNodeText(id, text);
    }

    /** onNodeInletCountChanged, through setInletCount. */
    method OnNodeInletCountChanged(id: NodeId, count: nat)
      requires id in nodes
      modifies this`nodes, this`connections
      ensures var v := old(nodes)[id];
        nodes == old(nodes)[id := Adjusted(v.(inlets := Resized(v.inlets, count)), metrics)]
      ensures id in nodes && |nodes[id].inlets| == count && nodes[id].outlets == old(nodes)[id].outlets
      ensures connections == HideAll(old(connections), RemovedConnections(Drops(old(nodes)[id].inlets, count)))
      ensures old(Valid()) ==> Valid()
    {
      var _ := SetInletCount(id, count);
      ResizedShape(old(nodes)[id].inlets, count);
    }

    /** onNodeOutletCountChanged, through setOutletCount. */
    method OnNodeOutletCountChanged(id: NodeId, count: nat)
      requires id in nodes
      modifies this`nodes, this`connections
      ensures var v := old(nodes)[id];
        nodes == old(nodes)[id := Adjusted(v.(outlets := Resized(v.outlets, count)), metrics)]
      ensures id in nodes && |nodes[id].outlets| == count && nodes[id].inlets == old(nodes)[id].inlets
      ensures connections == HideAll(old(connections), RemovedConnections(Drops(old(nodes)[id].outlets, count)))
      ensures old(Valid()) ==> Valid()
    {
      var _ := SetOutletCount(id, count);
      ResizedShape(old(nodes)[id].outlets, count);
    }

    /**
     * onConnectionAdded: a connection visual joins the source outlet and the
     * destination inlet (each appends it to its list), is recorded, put in
     * the scene and raised.
     */
    method OnConnectionAdded(mc: ModelConnection)
      requires Endpoints(nodes, mc)
      modifies this`nodes, this`connections, this`z
      ensures nodes == Attached(old(nodes), mc)
      ensures connections == old(connections)[mc.id := ConnVisual(true, false, mc.source, mc.dest, showConnectionHoverFeedback)]
      ensures z == Lift(old(z), overlaps, ConnectionItem(mc.id))
      ensures old(Valid()) ==> Valid()
    {
      AttachConnection(mc);
      AddConnectionVisual(mc);
      RaiseItem(ConnectionItem(mc.id));
    }

    /** connections_[mdlconn] = conn: the new visual, in the scene, unselected, with the canvas's hover setting. */
    method AddConnectionVisual(mc: ModelConnection)
      modifies this`connections
      ensures connections == old(connections)[mc.id := ConnVisual(true, false, mc.source, mc.dest, showConnectionHoverFeedback)]
      ensures old(Valid()) ==> Valid()
    {
      connections := connections[mc.id := ConnVisual(true, false, mc.source, mc.dest, showConnectionHoverFeedback)];
    }

    /** The QDataflowConnection constructor on the ports: source_->addConnection, then dest_->addConnection. */
    method AttachConnection(mc: ModelConnection)
      requires Endpoints(nodes, mc)
      modifies this`nodes
      ensures nodes == Attached(old(nodes), mc)
      ensures old(Valid()) ==> Valid()
    {
      var s, d := mc.source, mc.dest;
      nodes := nodes[s.node := AttachOutlet(nodes[s.node], s.index, mc.id)];
      nodes := nodes[d.node := AttachInlet(nodes[d.node], d.index, mc.id)];
      assert nodes == Attached(old(nodes), mc);
      if old(Valid()) {
        AttachedKeepsNodeOk(old(nodes), mc, metrics, showObjectHoverFeedback);
        assert NodesOk(nodes, metrics, showObjectHoverFeedback);
      }
    }

    /** onConnectionRemoved: the connection visual leaves the scene; an unknown connection changes nothing. */
    method OnConnectionRemoved(id: ConnId)
      modifies this`connections
      ensures connections == Hide(old(connections), id)
      ensures id in connections ==> !connections[id].inScene
      ensures old(Valid()) ==> Valid()
    {
      connections := Hide(connections, id);
    }

    /**
     * mousePressEvent on outlet src: a temporary line starts at the outlet
     * with the temporary pen and z-value 10000; the line, then the node, are
     * raised.
     */
    method OutletPress(src: PortRef)
      requires src.node in nodes && src.index < |nodes[src.node].outlets|
      modifies this`nodes, this`z
      ensures nodes == old(nodes)[src.node := WithDrag(old(nodes)[src.node], src.index, Some(TempPen))]
      ensures var line := TempLineItem(src);
        z == Raised(Lift(old(z)[line := 10000], overlaps, line), overlaps, nodes, NodeItem(src.node))
      ensures old(Valid()) ==> Valid()
    {
      SetDragLine(src, Some(TempPen));
      z := z[TempLineItem(src) := 10000];
      RaiseItem(TempLineItem(src));
      RaiseItem(NodeItem(src.node));
    }

    /**
     * mouseMoveEvent on outlet src during a drag: the line's pen says whether
     * the topmost inlet under the pointer can take a connection from src
     * (both model checks), cannot, or whether there is no inlet there.
     * Without a drag nothing happens.
     */
    method OutletMove(src: PortRef, under: seq<Item>, canMake: (PortRef, PortRef) -> bool, canAccept: (PortRef, PortRef) -> bool)
      requires src.node in nodes && src.index < |nodes[src.node].outlets|
      modifies this`nodes
      ensures var v := old(nodes)[src.node];
        nodes == if DragLine(v, src.index).None? then old(nodes)
                 else old(nodes)[src.node := WithDrag(v, src.index, Some(DragPen(FirstOfType(under, InletType), src, canMake, canAccept)))]
      ensures old(Valid()) ==> Valid()
    {
      var v := nodes[src.node];
      if v.outlets[src.index].tmpConn.None? {
        return;
      }
      var inlet := ItemAtT(under, InletType);
      var pen: Pen;
      if inlet.Some? {
        FirstInletIsInlet(under);
      }
      if inlet.Some? && canMake(src, inlet.value.inlet) && canAccept(inlet.value.inlet, src) {
        pen := ValidPen;
      } else if inlet.Some? {
        pen := InvalidPen;
      } else {
        pen := TempPen;
      }
      SetDragLine(src, Some(pen));
    }

    /** The drag line of outlet src gets a pen, or goes away. */
    method SetDragLine(src: PortRef, pen: Option<Pen>)
      requires src.node in nodes && src.index < |nodes[src.node].outlets|
      modifies this`nodes
      ensures nodes == old(nodes)[src.node := WithDrag(old(nodes)[src.node], src.index, pen)]
      ensures old(Valid()) ==> Valid()
    {
      var v := nodes[src.node];
      nodes := nodes[src.node := WithDrag(v, src.index, pen)];
      if old(Valid()) {
        WithDragKeepsNodeOk(v, src.index, pen, metrics, showObjectHoverFeedback);
        NodesOkUpdate(old(nodes), src.node, WithDrag(v, src.index, pen), metrics, showObjectHoverFeedback);
      }
    }

    /**
     * mouseReleaseEvent on outlet src: the temporary line is removed, and a
     * connect from src to the topmost inlet under the pointer is issued, if
     * there is one.
     */
    method OutletRelease(src: PortRef, under: seq<Item>)
      requires src.node in nodes && src.index < |nodes[src.node].outlets|
      modifies this`nodes, this`commands
      ensures nodes == old(nodes)[src.node := WithDrag(old(nodes)[src.node], src.index, None)]
      ensures commands == old(commands) + ReleaseCommands(src, under)
      ensures old(Valid()) ==> Valid()
    {
      var v := nodes[src.node];
      if v.outlets[src.index].tmpConn.Some? {
        SetDragLine(src, None);
      } else {
        assert WithDrag(v, src.index, None) == v;
      }
      var inlet := ItemAtT(under, InletType);
      if inlet.Some? {
        FirstInletIsInlet(under);
        commands := commands + [Connect(src, inlet.value.inlet)];
      }
    }

    /**
     * keyPressEvent: Backspace while no node is in edit mode disconnects every
     * selected connection and then removes every selected node; the event is
     * accepted exactly then.
     */
    method KeyPress(key: Key) returns (accepted: bool)
      modifies this`commands
      ensures accepted <==> key == Backspace && !IsSomeNodeInEditMode(nodes, focus)
      ensures commands == old(commands) + (if accepted then BackspaceCommands(nodes, connections) else [])
    {
      if key != Backspace || IsSomeNodeInEditMode(nodes, focus) {
        return false;
      }
      IssueBackspace();
      return true;
    }

    /** The two loops of keyPressEvent for Backspace. */
    method IssueBackspace()
      modifies this`commands
      ensures commands == old(commands) + BackspaceCommands(nodes, connections)
    {
      var sc := SelectedConnections(connections);
      IssueDisconnects(sc);
      var sn := SelectedNodes(nodes);
      IssueRemoves(sn);
      ghost var d, r := DisconnectCommands(sc, connections), RemoveCommands(sn);
      assert commands == old(commands) + d + r;
      Associative(old(commands), d, r);
    }

    /** The first loop of keyPressEvent: a disconnect of each listed connection's two ports. */
    method IssueDisconnects(ids: seq<ConnId>)
      requires forall k :: 0 <= k < |ids| ==> ids[k] in connections
      modifies this`commands
      ensures commands == old(commands) + DisconnectCommands(ids, connections)
    {
      var k := 0;
      while k < |ids|
        invariant 0 <= k <= |ids|
        invariant commands == old(commands) + DisconnectCommands(ids[..k], connections)
      {
        var c := connections[ids[k]];
        assert DisconnectCommands(ids[..k + 1], connections) == DisconnectCommands(ids[..k], connections) + [Disconnect(c.source, c.dest)];
        commands := commands + [Disconnect(c.source, c.dest)];
        k := k + 1;
      }
      assert ids[..k] == ids;
    }

    /** The second loop of keyPressEvent: a remove of each listed node. */
    method IssueRemoves(ids: seq<NodeId>)
      modifies this`commands
      ensures commands == old(commands) + RemoveCommands(ids)
    {
      var k := 0;
      while k < |ids|
        invariant 0 <= k <= |ids|
        invariant commands == old(commands) + RemoveCommands(ids[..k])
      {
        RemoveCommandsSnoc(ids, k);
        commands := commands + [Remove(ids[k])];
        k := k + 1;
      }
      assert ids[..k] == ids;
    }

    /**
     * mouseDoubleClickEvent on the canvas: on empty space a node with empty
     * text and no ports is created at the scene position; over an item the
     * event is passed on.
     */
    method CanvasDoubleClick(hit: Option<Item>, pos: Point) returns (accepted: bool)
      modifies this`commands
      ensures accepted <==> hit.None?
      ensures commands == old(commands) + (if accepted then [Create(pos, "", 0, 0)] else [])
    {
      if hit.None? {
        commands := commands + [Create(pos, "", 0, 0)];
        return true;
      }
      return false;
    }
  }
}
