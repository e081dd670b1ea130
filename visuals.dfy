/**
 * The canvas's visual records (QDataflowNode, QDataflowConnection), the model
 * data the notifications carry, the commands the canvas issues to the model,
 * and the read-only queries of QDataflowCanvas over its two maps: the lookups,
 * the selection filters, isSomeNodeInEditMode and the Backspace command list.
 */
module Visuals {
  import opened Ids
  import opened Wrappers
  import opened Geometry
  import opened Ports
  import opened Completion
  import opened Items

  /**
   * A node visual: whether it is in the scene, selected and valid, its
   * position, its inlet and outlet lists, the text captured when editing began
   * (oldText_), its text label, the layout adjust() last computed, and whether
   * it accepts hover events.
   */
  datatype NodeVisual = NodeVisual(
    inScene: bool, selected: bool, valid: bool, pos: Point,
    inlets: seq<Port>, outlets: seq<Port>,
    oldText: string, textLabel: Label, geometry: Layout, acceptsHover: bool)

  /** A connection visual and the two ports it was attached to when it was created. */
  datatype ConnVisual = ConnVisual(inScene: bool, selected: bool, source: PortRef, dest: PortRef, acceptsHover: bool)

  /** What nodeAdded tells about a model node. */
  datatype ModelNode = ModelNode(id: NodeId, text: string, inletCount: nat, outletCount: nat, pos: Point)

  /** What connectionAdded tells about a model connection: outlet source.index of source.node to inlet dest.index of dest.node. */
  datatype ModelConnection = ModelConnection(id: ConnId, source: PortRef, dest: PortRef)

  /** The commands the canvas issues to its model. */
  datatype Command =
    | Create(pos: Point, text: string, inletCount: nat, outletCount: nat)
    | Remove(node: NodeId)
    | SetText(node: NodeId, text: string)
    | Connect(source: PortRef, dest: PortRef)
    | Disconnect(source: PortRef, dest: PortRef)

  /** What the canvas keeps true of every node visual (see Canvas.Valid). */
  predicate NodeOk(v: NodeVisual, metrics: string -> Extent, hover: bool)
  {
    && WellFormed(v.inlets) && WellFormed(v.outlets) && NoDrag(v.inlets)
    && Consistent(v.textLabel)
    && v.geometry == LayoutOf(metrics(v.textLabel.text), |v.inlets|, |v.outlets|)
    && v.acceptsHover == hover
  }

  /** The node with its layout recomputed from its current text and port counts (adjust). */
  function Adjusted(v: NodeVisual, metrics: string -> Extent): (r: NodeVisual)
  {
    v.(geometry := LayoutOf(metrics(v.textLabel.text), |v.inlets|, |v.outlets|))
  }

  /**
   * The QDataflowNode constructor: the label holds the model text without
   * signalling a change, the port lists are built by set*Count with adjust
   * skipped, one adjust follows; the node starts valid, unselected, not yet in
   * the scene, and with an empty oldText_.
   */
  function NewNodeVisual(m: ModelNode, metrics: string -> Extent, hover: bool): (v: NodeVisual)
    ensures NodeOk(v, metrics, hover)
    ensures |v.inlets| == m.inletCount && |v.outlets| == m.outletCount
    ensures v.textLabel.text == m.text && !v.textLabel.active && !v.textLabel.interactive
    ensures v.valid && !v.selected && !v.inScene && v.pos == m.pos && v.oldText == ""
  {
    ResizedShape([], m.inletCount);
    ResizedShape([], m.outletCount);
    var lbl := Label(m.text, false, false, [], -1, false);
    var v := NodeVisual(false, false, true, m.pos,
                        Resized([], m.inletCount), Resized([], m.outletCount),
                        "", lbl, Layout(Point(0, 0), Rect(0, 0, 0, 0), Point(0, 0), Rect(0, 0, 0, 0), Point(0, 0), Rect(0, 0, 0, 0)),
                        hover);
    Adjusted(v, metrics)
  }

  /** QDataflowCanvas::node: the visual of a model node, or null when the canvas does not know it. */
  function LookupNode(nodes: map<NodeId, NodeVisual>, id: NodeId): (r: Option<NodeVisual>)
    ensures r.Some? <==> id in nodes
    ensures r.Some? ==> r.value == nodes[id]
  {
    if id in nodes then Some(nodes[id]) else None
  }

  /** QDataflowCanvas::connection: the visual of a model connection, or null when unknown. */
  function LookupConnection(conns: map<ConnId, ConnVisual>, id: ConnId): (r: Option<ConnVisual>)
    ensures r.Some? <==> id in conns
    ensures r.Some? ==> r.value == conns[id]
  {
    if id in conns then Some(conns[id]) else None
  }

  /** The ids of a list, in that list's order, whose node is in the scene and selected. */
  function FilterSelectedNodes(ids: seq<NodeId>, nodes: map<NodeId, NodeVisual>): (r: seq<NodeId>)
    requires forall k :: 0 <= k < |ids| ==> ids[k] in nodes
    ensures forall x :: x in r <==> x in ids && nodes[x].inScene && nodes[x].selected
    ensures Ascending(ids) ==> Ascending(r)
    ensures Ascending(ids) && |ids| > 0 && |r| > 0 ==> r[0] >= ids[0]
  {
    if ids == [] then []
    else
      var rest := FilterSelectedNodes(ids[1..], nodes);
      assert forall x :: x in ids <==> x == ids[0] || x in ids[1..];
      if nodes[ids[0]].inScene && nodes[ids[0]].selected then [ids[0]] + rest else rest
  }

  /** QDataflowCanvas::selectedNodes: the selected in-scene nodes, in map order. */
  function SelectedNodes(nodes: map<NodeId, NodeVisual>): (r: seq<NodeId>)
    ensures forall x :: x in r <==> x in nodes && nodes[x].inScene && nodes[x].selected
    ensures Ascending(r)
  {
    FilterSelectedNodes(SortedKeys(nodes.Keys), nodes)
  }

  /** The ids of a list, in that list's order, whose connection is in the scene and selected. */
  function FilterSelectedConnections(ids: seq<ConnId>, conns: map<ConnId, ConnVisual>): (r: seq<ConnId>)
    requires forall k :: 0 <= k < |ids| ==> ids[k] in conns
    ensures forall x :: x in r <==> x in ids && conns[x].inScene && conns[x].selected
    ensures Ascending(ids) ==> Ascending(r)
    ensures Ascending(ids) && |ids| > 0 && |r| > 0 ==> r[0] >= ids[0]
  {
    if ids == [] then []
    else
      var rest := FilterSelectedConnections(ids[1..], conns);
      assert forall x :: x in ids <==> x == ids[0] || x in ids[1..];
      if conns[ids[0]].inScene && conns[ids[0]].selected then [ids[0]] + rest else rest
  }

  /** QDataflowCanvas::selectedConnections: the selected in-scene connections, in map order. */
  function SelectedConnections(conns: map<ConnId, ConnVisual>): (r: seq<ConnId>)
    ensures forall x :: x in r <==> x in conns && conns[x].inScene && conns[x].selected
    ensures Ascending(r)
  {
    FilterSelectedConnections(SortedKeys(conns.Keys), conns)
  }

  /**
   * QDataflowNode::isInEditMode: the label accepts editing and holds the
   * scene's focus.
   */
  predicate InEditMode(nodes: map<NodeId, NodeVisual>, focus: Option<NodeId>, n: NodeId)
  {
    n in nodes && nodes[n].textLabel.interactive && focus == Some(n)
  }

  /** any_of over the ids of a list: some in-scene node among them is in edit mode. */
  function AnyInEditMode(ids: seq<NodeId>, nodes: map<NodeId, NodeVisual>, focus: Option<NodeId>): (r: bool)
    ensures r <==> exists k :: 0 <= k < |ids| && InEditMode(nodes, focus, ids[k]) && nodes[ids[k]].inScene
  {
    if ids == [] then false
    else if InEditMode(nodes, focus, ids[0]) && nodes[ids[0]].inScene then true
    else
      var r := AnyInEditMode(ids[1..], nodes, focus);
      assert forall k :: 1 <= k < |ids| ==> ids[k] == ids[1..][k - 1];
      r
  }

  /**
   * QDataflowCanvas::isSomeNodeInEditMode. Since only one label can hold the
   * focus, the scan over all nodes comes down to the focused one.
   */
  function IsSomeNodeInEditMode(nodes: map<NodeId, NodeVisual>, focus: Option<NodeId>): (r: bool)
    ensures r <==> exists n :: n in nodes && nodes[n].inScene && InEditMode(nodes, focus, n)
    ensures r <==> focus.Some? && focus.value in nodes && nodes[focus.value].inScene && nodes[focus.value].textLabel.interactive
  {
    var ids := SortedKeys(nodes.Keys);
    var r := AnyInEditMode(ids, nodes, focus);
    if r then
      var k :| 0 <= k < |ids| && InEditMode(nodes, focus, ids[k]) && nodes[ids[k]].inScene;
      r
    else
      assert forall n :: n in nodes ==> n in ids;
      r
  }

  /** At most one node is in edit mode at a time. */
  lemma AtMostOneEditing(nodes: map<NodeId, NodeVisual>, focus: Option<NodeId>, a: NodeId, b: NodeId)
    requires InEditMode(nodes, focus, a) && InEditMode(nodes, focus, b)
    ensures a == b
  {
  }

  /** The disconnect command for each connection of a list: its source outlet and its destination inlet. */
  function DisconnectCommands(ids: seq<ConnId>, conns: map<ConnId, ConnVisual>): (r: seq<Command>)
    requires forall k :: 0 <= k < |ids| ==> ids[k] in conns
    ensures |r| == |ids|
    ensures forall k :: 0 <= k < |ids| ==> r[k] == Disconnect(conns[ids[k]].source, conns[ids[k]].dest)
  {
    if ids == [] then []
    else [Disconnect(conns[ids[0]].source, conns[ids[0]].dest)] + DisconnectCommands(ids[1..], conns)
  }

  /** The remove command for each node of a list. */
  function RemoveCommands(ids: seq<NodeId>): (r: seq<Command>)
    ensures |r| == |ids|
    ensures forall k :: 0 <= k < |ids| ==> r[k] == Remove(ids[k])
  {
    if ids == [] then [] else [Remove(ids[0])] + RemoveCommands(ids[1..])
  }

  /** Extending the list by one node extends the commands by its remove. */
  lemma RemoveCommandsSnoc(ids: seq<NodeId>, k: nat)
    requires k < |ids|
    ensures RemoveCommands(ids[..k + 1]) == RemoveCommands(ids[..k]) + [Remove(ids[k])]
  {
    var a, b := RemoveCommands(ids[..k + 1]), RemoveCommands(ids[..k]) + [Remove(ids[k])];
    assert |a| == |b|;
    forall j | 0 <= j < |a|
      ensures a[j] == b[j]
    {
      if j < k {
        assert ids[..k + 1][j] == ids[..k][j];
      }
    }
  }

  /** What Backspace issues: a disconnect per selected connection, then a remove per selected node. */
  function BackspaceCommands(nodes: map<NodeId, NodeVisual>, conns: map<ConnId, ConnVisual>): (r: seq<Command>)
  {
    DisconnectCommands(SelectedConnections(conns), conns) + RemoveCommands(SelectedNodes(nodes))
  }

  /**
   * The Backspace commands: one disconnect per selected in-scene connection,
   * in map order, followed by one remove per selected in-scene node, in map
   * order.
   */
  lemma BackspaceLayout(nodes: map<NodeId, NodeVisual>, conns: map<ConnId, ConnVisual>)
    ensures var cmds := BackspaceCommands(nodes, conns);
      var sc := SelectedConnections(conns);
      var sn := SelectedNodes(nodes);
      && |cmds| == |sc| + |sn|
      && (forall k :: 0 <= k < |sc| ==> cmds[k] == Disconnect(conns[sc[k]].source, conns[sc[k]].dest))
      && (forall k :: |sc| <= k < |cmds| ==> cmds[k] == Remove(sn[k - |sc|]))
  {
  }

  /** Backspace removes exactly the selected in-scene nodes. */
  lemma BackspaceRemovesSelected(nodes: map<NodeId, NodeVisual>, conns: map<ConnId, ConnVisual>)
    ensures forall x :: Remove(x) in BackspaceCommands(nodes, conns) <==> x in nodes && nodes[x].inScene && nodes[x].selected
  {
    var sc := SelectedConnections(conns);
    var d := DisconnectCommands(sc, conns);
    forall k | 0 <= k < |d|
      ensures d[k].Disconnect?
    {
      assert d[k] == Disconnect(conns[sc[k]].source, conns[sc[k]].dest);
    }
    RemovesAfter(d, SelectedNodes(nodes));
  }

  /** After a run of disconnects, the removes of a list name exactly the list's nodes. */
  lemma RemovesAfter(d: seq<Command>, sn: seq<NodeId>)
    requires forall k :: 0 <= k < |d| ==> d[k].Disconnect?
    ensures forall x :: Remove(x) in d + RemoveCommands(sn) <==> x in sn
  {
    var cmds := d + RemoveCommands(sn);
    forall x
      ensures Remove(x) in cmds <==> x in sn
    {
      if Remove(x) in cmds {
        var k :| 0 <= k < |cmds| && cmds[k] == Remove(x);
        assert k >= |d|;
        assert sn[k - |d|] == x;
      }
      if x in sn {
        var k :| 0 <= k < |sn| && sn[k] == x;
        assert cmds[k + |d|] == Remove(x);
      }
    }
  }

  /** In a command list, every remove is followed only by removes of larger node ids. */
  predicate RemovesLastAscending(cmds: seq<Command>)
  {
    forall i, j :: 0 <= i < j < |cmds| && cmds[i].Remove? ==> cmds[j].Remove? && cmds[i].node < cmds[j].node
  }

  /** Every remove comes after every disconnect, and the removes go in ascending id order, so none repeats. */
  lemma BackspaceRemovesInOrder(nodes: map<NodeId, NodeVisual>, conns: map<ConnId, ConnVisual>)
    ensures RemovesLastAscending(BackspaceCommands(nodes, conns))
  {
    var sc := SelectedConnections(conns);
    var d := DisconnectCommands(sc, conns);
    forall k | 0 <= k < |d|
      ensures d[k].Disconnect?
    {
      assert d[k] == Disconnect(conns[sc[k]].source, conns[sc[k]].dest);
    }
    RemovesFollow(d, SelectedNodes(nodes));
  }

  lemma RemovesFollow(d: seq<Command>, sn: seq<NodeId>)
    requires forall k :: 0 <= k < |d| ==> d[k].Disconnect?
    requires Ascending(sn)
    ensures RemovesLastAscending(d + RemoveCommands(sn))
  {
    var cmds := d + RemoveCommands(sn);
    forall i, j | 0 <= i < j < |cmds| && cmds[i].Remove?
      ensures cmds[j].Remove? && cmds[i].node < cmds[j].node
    {
      assert i >= |d|;
      assert cmds[i] == Remove(sn[i - |d|]) && cmds[j] == Remove(sn[j - |d|]);
    }
  }

  /** Backspace issues nothing exactly when no in-scene item is selected. */
  lemma BackspaceEmptyIffNothingSelected(nodes: map<NodeId, NodeVisual>, conns: map<ConnId, ConnVisual>)
    ensures BackspaceCommands(nodes, conns) == [] <==>
      (forall n :: n in nodes ==> !(nodes[n].inScene && nodes[n].selected)) &&
      (forall c :: c in conns ==> !(conns[c].inScene && conns[c].selected))
  {
    var sc := SelectedConnections(conns);
    var sn := SelectedNodes(nodes);
    BackspaceLayout(nodes, conns);
    if sc != [] { assert sc[0] in sc; }
    if sn != [] { assert sn[0] in sn; }
  }

  /** The pen a drag line gets over the item found under the pointer. */
  function DragPen(under: Option<Item>, source: PortRef,
                   canMake: (PortRef, PortRef) -> bool, canAccept: (PortRef, PortRef) -> bool): (pen: Pen)
    ensures pen == ValidPen <==> under.Some? && under.value.InletItem? &&
                                 canMake(source, under.value.inlet) && canAccept(under.value.inlet, source)
    ensures pen == InvalidPen <==> under.Some? && under.value.InletItem? &&
                                   !(canMake(source, under.value.inlet) && canAccept(under.value.inlet, source))
    ensures pen == TempPen <==> !(under.Some? && under.value.InletItem?)
  {
    match under
    case Some(InletItem(inlet)) =>
      if canMake(source, inlet) && canAccept(inlet, source) then ValidPen else InvalidPen
    case _ => TempPen
  }

  /** A connection visual taken out of the scene (it stays in the map). */
  function Hide(conns: map<ConnId, ConnVisual>, c: ConnId): (r: map<ConnId, ConnVisual>)
    ensures r.Keys == conns.Keys
    ensures forall x :: x in conns ==> r[x] == if x == c then conns[x].(inScene := false) else conns[x]
  {
    if c in conns then conns[c := conns[c].(inScene := false)] else conns
  }

  /** Every connection of a list taken out of the scene, in list order. */
  function HideAll(conns: map<ConnId, ConnVisual>, cs: seq<ConnId>): (r: map<ConnId, ConnVisual>)
    ensures r.Keys == conns.Keys
    ensures forall x :: x in conns ==> r[x] == if x in cs then conns[x].(inScene := false) else conns[x]
  {
    if cs == [] then conns
    else
      var r := Hide(HideAll(conns, cs[..|cs| - 1]), cs[|cs| - 1]);
      assert forall x :: x in cs <==> x in cs[..|cs| - 1] || x == cs[|cs| - 1];
      r
  }

  /** Hiding two lists one after the other hides their concatenation. */
  lemma HideAllAppend(conns: map<ConnId, ConnVisual>, a: seq<ConnId>, b: seq<ConnId>)
    ensures HideAll(HideAll(conns, a), b) == HideAll(conns, a + b)
  {
    var l, r := HideAll(HideAll(conns, a), b), HideAll(conns, a + b);
    forall x | x in conns
      ensures l[x] == r[x]
    {
      assert x in a + b <==> x in a || x in b;
    }
  }

  /** QDataflowNode::inletCount. */
  function InletCount(v: NodeVisual): (r: nat)
  {
    |v.inlets|
  }

  /** QDataflowNode::outletCount. */
  function OutletCount(v: NodeVisual): (r: nat)
  {
    |v.outlets|
  }

  /** QDataflowNode::inlet(i). */
  function Inlet(v: NodeVisual, i: nat): (r: Port)
    requires i < InletCount(v)
  {
    v.inlets[i]
  }

  /** QDataflowNode::outlet(i). */
  function Outlet(v: NodeVisual, i: nat): (r: Port)
    requires i < OutletCount(v)
  {
    v.outlets[i]
  }

  /**
   * On a well-formed node the accessors agree with the layout: port i of
   * either list reports index i, sits at the position of index i inside its
   * header band, and the body is at least as wide as both port rows.
   */
  lemma PortAccessors(v: NodeVisual, metrics: string -> Extent, hover: bool)
    requires NodeOk(v, metrics, hover)
    ensures forall i :: 0 <= i < InletCount(v) ==>
      Inlet(v, i).index == i && Inlet(v, i).pos == PortPosition(i) && v.geometry.inputHeader.Contains(PortBox(Inlet(v, i).index))
    ensures forall i :: 0 <= i < OutletCount(v) ==>
      Outlet(v, i).index == i && Outlet(v, i).pos == PortPosition(i) && v.geometry.outputHeader.Contains(PortBox(Outlet(v, i).index))
    ensures v.geometry.body.width >= PortsWidth(InletCount(v)) && v.geometry.body.width >= PortsWidth(OutletCount(v))
  {
    var text := metrics(v.textLabel.text);
    forall i | 0 <= i < InletCount(v)
      ensures v.geometry.inputHeader.Contains(PortBox(Inlet(v, i).index))
    {
      PortsFitHeaders(text, |v.inlets|, |v.outlets|, i);
    }
    forall i | 0 <= i < OutletCount(v)
      ensures v.geometry.outputHeader.Contains(PortBox(Outlet(v, i).index))
    {
      PortsFitHeaders(text, |v.inlets|, |v.outlets|, i);
    }
  }
}
