/**
 * How connections come about on the canvas: the outlet drag gesture
 * (QDataflowOutlet press, move, release) with its temporary line, and the
 * attachment of a new connection visual to its two ports
 * (QDataflowConnection's constructor through QDataflowIOlet::addConnection).
 */
module Connecting {
  import opened Ids
  import opened Wrappers
  import opened Items
  import opened Ports
  import opened Visuals
  import opened Stacking

  /** The node with the drag line of outlet i set to pen (None: no drag line). */
  function WithDrag(v: NodeVisual, i: nat, pen: Option<Pen>): (r: NodeVisual)
    requires i < |v.outlets|
    ensures |r.outlets| == |v.outlets| && r.outlets[i].tmpConn == pen
    ensures r.outlets[i].connections == v.outlets[i].connections && r.outlets[i].index == v.outlets[i].index
    ensures r.outlets[i].pos == v.outlets[i].pos
    ensures forall j :: 0 <= j < |v.outlets| && j != i ==> r.outlets[j] == v.outlets[j]
    ensures r.(outlets := v.outlets) == v
  {
    v.(outlets := v.outlets[i := v.outlets[i].(tmpConn := pen)])
  }

  /** The pen the drag line of outlet i carries, if a drag is in progress. */
  function DragLine(v: NodeVisual, i: nat): (r: Option<Pen>)
    requires i < |v.outlets|
  {
    v.outlets[i].tmpConn
  }

  /**
   * What releasing the outlet src over some items issues: connect from src to
   * the topmost inlet among them, nothing when there is none.
   */
  function ReleaseCommands(src: PortRef, under: seq<Item>): (r: seq<Command>)
    ensures |r| <= 1
    ensures r == [] <==> forall k :: 0 <= k < |under| ==> !under[k].InletItem?
    ensures r != [] ==> exists k :: 0 <= k < |under| && under[k].InletItem? && r == [Connect(src, under[k].inlet)] &&
                                    forall j :: 0 <= j < k ==> !under[j].InletItem?
  {
    var hit := FirstOfType(under, InletType);
    if hit.Some? then
      FirstInletIsInlet(under);
      [Connect(src, hit.value.inlet)]
    else []
  }

  /** The ports of a model connection exist on the canvas. */
  predicate Endpoints(nodes: map<NodeId, NodeVisual>, mc: ModelConnection)
  {
    && mc.source.node in nodes && mc.source.index < |nodes[mc.source.node].outlets|
    && mc.dest.node in nodes && mc.dest.index < |nodes[mc.dest.node].inlets|
  }

  /** The node with connection c appended to outlet i. */
  function AttachOutlet(v: NodeVisual, i: nat, c: ConnId): (r: NodeVisual)
    requires i < |v.outlets|
  {
    v.(outlets := v.outlets[i := AddConnection(v.outlets[i], c)])
  }

  /** The node with connection c appended to inlet i. */
  function AttachInlet(v: NodeVisual, i: nat, c: ConnId): (r: NodeVisual)
    requires i < |v.inlets|
  {
    v.(inlets := v.inlets[i := AddConnection(v.inlets[i], c)])
  }

  /** The QDataflowConnection constructor on the port lists: source_->addConnection, then dest_->addConnection. */
  function Attached(nodes: map<NodeId, NodeVisual>, mc: ModelConnection): (r: map<NodeId, NodeVisual>)
    requires Endpoints(nodes, mc)
    ensures r.Keys == nodes.Keys
  {
    var s := mc.source;
    var d := mc.dest;
    var withSource := nodes[s.node := AttachOutlet(nodes[s.node], s.index, mc.id)];
    withSource[d.node := AttachInlet(withSource[d.node], d.index, mc.id)]
  }

  /**
   * Attaching a connection appends it to the source outlet and to the
   * destination inlet and changes nothing else; the two nodes then list it
   * among their attached connections, so raising either raises it.
   */
  lemma AttachedPorts(nodes: map<NodeId, NodeVisual>, mc: ModelConnection)
    requires Endpoints(nodes, mc)
    ensures var r := Attached(nodes, mc);
      && r[mc.source.node].outlets[mc.source.index].connections == nodes[mc.source.node].outlets[mc.source.index].connections + [mc.id]
      && r[mc.dest.node].inlets[mc.dest.index].connections == nodes[mc.dest.node].inlets[mc.dest.index].connections + [mc.id]
      && |r[mc.source.node].outlets| == |nodes[mc.source.node].outlets|
      && |r[mc.dest.node].inlets| == |nodes[mc.dest.node].inlets|
      && (forall n :: n in nodes && n != mc.source.node && n != mc.dest.node ==> r[n] == nodes[n])
    ensures mc.id in AttachedConnections(Attached(nodes, mc)[mc.source.node])
    ensures mc.id in AttachedConnections(Attached(nodes, mc)[mc.dest.node])
  {
    var r := Attached(nodes, mc);
    var s, d := mc.source, mc.dest;
    assert mc.id in r[s.node].outlets[s.index].connections;
    assert mc.id in r[d.node].inlets[d.index].connections;
    assert mc.id in PortConnections(r[s.node].outlets);
    assert mc.id in PortConnections(r[d.node].inlets);
  }

  /** Attaching keeps every node well formed: ports keep index, position and drag line. */
  lemma AttachedKeepsNodeOk(nodes: map<NodeId, NodeVisual>, mc: ModelConnection, metrics: string -> Geometry.Extent, hover: bool)
    requires Endpoints(nodes, mc)
    requires forall n :: n in nodes ==> NodeOk(nodes[n], metrics, hover)
    ensures forall n :: n in nodes ==> NodeOk(Attached(nodes, mc)[n], metrics, hover)
  {
    var s, d := mc.source, mc.dest;
    var withSource := nodes[s.node := AttachOutlet(nodes[s.node], s.index, mc.id)];
    AttachKeepsNodeOk(nodes[s.node], s.index, mc.id, metrics, hover);
    assert forall n :: n in withSource ==> NodeOk(withSource[n], metrics, hover);
    AttachKeepsNodeOk(withSource[d.node], d.index, mc.id, metrics, hover);
  }

  /** Appending a connection to one port keeps the node well formed. */
  lemma AttachKeepsNodeOk(v: NodeVisual, i: nat, c: ConnId, metrics: string -> Geometry.Extent, hover: bool)
    requires NodeOk(v, metrics, hover)
    ensures i < |v.outlets| ==> NodeOk(AttachOutlet(v, i, c), metrics, hover)
    ensures i < |v.inlets| ==> NodeOk(AttachInlet(v, i, c), metrics, hover)
  {
    if i < |v.outlets| {
      assert WellFormed(AttachOutlet(v, i, c).outlets);
    }
    if i < |v.inlets| {
      assert WellFormed(AttachInlet(v, i, c).inlets);
      assert NoDrag(AttachInlet(v, i, c).inlets);
    }
  }

  /** A drag line on an outlet keeps the node well formed. */
  lemma WithDragKeepsNodeOk(v: NodeVisual, i: nat, pen: Option<Pen>, metrics: string -> Geometry.Extent, hover: bool)
    requires i < |v.outlets| && NodeOk(v, metrics, hover)
    ensures NodeOk(WithDrag(v, i, pen), metrics, hover)
  {
  }

  /** A drag that ends leaves the node as it was before the drag started, whatever pens it showed. */
  lemma DragLeavesNoTrace(v: NodeVisual, i: nat, pens: seq<Pen>)
    requires i < |v.outlets| && DragLine(v, i).None?
    ensures WithDrag(DragThrough(v, i, pens), i, None) == v
  {
    DragThroughOutlets(v, i, pens);
    assert WithDrag(DragThrough(v, i, pens), i, None).outlets == v.outlets;
  }

  /** The node after its outlet i showed the pens of a list one after the other. */
  function DragThrough(v: NodeVisual, i: nat, pens: seq<Pen>): (r: NodeVisual)
    requires i < |v.outlets|
    ensures |r.outlets| == |v.outlets|
  {
    if pens == [] then v else WithDrag(DragThrough(v, i, pens[..|pens| - 1]), i, Some(pens[|pens| - 1]))
  }

  lemma {:induction false} DragThroughOutlets(v: NodeVisual, i: nat, pens: seq<Pen>)
    requires i < |v.outlets|
    ensures DragThrough(v, i, pens).(outlets := v.outlets) == v
    ensures forall j :: 0 <= j < |v.outlets| && j != i ==> DragThrough(v, i, pens).outlets[j] == v.outlets[j]
    ensures DragThrough(v, i, pens).outlets[i].(tmpConn := v.outlets[i].tmpConn) == v.outlets[i]
  {
    if pens != [] {
      DragThroughOutlets(v, i, pens[..|pens| - 1]);
    }
  }
}
