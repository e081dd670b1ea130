/**
 * Stacking order of the scene (QGraphicsItem::zValue) and the effect of
 * QDataflowCanvas::raiseItem on it.
 *
 * The z-values are a map from items to integers; an item without an entry has
 * the default z-value 0. Which items collide with which is scene geometry and
 * comes in as a function from an item to the items colliding with it.
 */
module Stacking {
  import opened Ids
  import opened Items
  import opened Ports
  import opened Visuals
  import Geometry

  type ZMap = map<Item, int>
  type Overlaps = Item -> seq<Item>

  /** The z-value of an item: its entry, or Qt's default 0. */
  function ZOf(z: ZMap, x: Item): (r: int)
  {
    if x in z then z[x] else 0
  }

  function Max(a: int, b: int): (m: int)
    ensures m >= a && m >= b && (m == a || m == b)
  {
    if a >= b then a else b
  }

  /** The highest z-value among some items, starting from 0 as raiseItem does. */
  function MaxZ(z: ZMap, os: seq<Item>): (m: int)
    ensures m >= 0
    ensures forall k :: 0 <= k < |os| ==> ZOf(z, os[k]) <= m
    ensures m == 0 || exists k :: 0 <= k < |os| && ZOf(z, os[k]) == m
  {
    if os == [] then 0
    else
      var m := Max(MaxZ(z, os[..|os| - 1]), ZOf(z, os[|os| - 1]));
      assert forall k :: 0 <= k < |os| - 1 ==> os[..|os| - 1][k] == os[k];
      m
  }

  /** One item raised just above everything colliding with it. */
  function Lift(z: ZMap, ov: Overlaps, x: Item): (r: ZMap)
  {
    z[x := MaxZ(z, ov(x)) + 1]
  }

  /** The connection items of a list raised one after the other. */
  function LiftConnections(z: ZMap, ov: Overlaps, cs: seq<ConnId>): (r: ZMap)
  {
    if cs == [] then z
    else Lift(LiftConnections(z, ov, cs[..|cs| - 1]), ov, ConnectionItem(cs[|cs| - 1]))
  }

  /** The connections attached to a port list, port by port, each port's in attachment order. */
  function PortConnections(ports: seq<Port>): (r: seq<ConnId>)
    ensures forall c :: c in r <==> exists i :: 0 <= i < |ports| && c in ports[i].connections
  {
    if ports == [] then []
    else
      var r := PortConnections(ports[..|ports| - 1]) + ports[|ports| - 1].connections;
      assert forall i :: 0 <= i < |ports| - 1 ==> ports[..|ports| - 1][i] == ports[i];
      r
  }

  /** The connections raiseItem raises after a node: those of its inlets, then those of its outlets. */
  function AttachedConnections(v: NodeVisual): (r: seq<ConnId>)
  {
    PortConnections(v.inlets) + PortConnections(v.outlets)
  }

  /** The stacking order after raiseItem(item). */
  function Raised(z: ZMap, ov: Overlaps, nodes: map<NodeId, NodeVisual>, item: Item): (r: ZMap)
  {
    if item.NodeItem? && item.node in nodes then LiftConnections(Lift(z, ov, item), ov, AttachedConnections(nodes[item.node]))
    else Lift(z, ov, item)
  }

  lemma LiftConnectionsSnoc(z: ZMap, ov: Overlaps, cs: seq<ConnId>, c: ConnId)
    ensures LiftConnections(z, ov, cs + [c]) == Lift(LiftConnections(z, ov, cs), ov, ConnectionItem(c))
  {
    assert (cs + [c])[..|cs|] == cs;
  }

  lemma {:induction false} LiftConnectionsAppend(z: ZMap, ov: Overlaps, a: seq<ConnId>, b: seq<ConnId>)
    ensures LiftConnections(z, ov, a + b) == LiftConnections(LiftConnections(z, ov, a), ov, b)
  {
    if b == [] {
      assert a + b == a;
    } else {
      var init := b[..|b| - 1];
      LiftConnectionsAppend(z, ov, a, init);
      assert (a + b)[..|a + b| - 1] == a + init;
    }
  }

  lemma PortConnectionsPrefix(ports: seq<Port>, i: nat)
    requires i < |ports|
    ensures PortConnections(ports[..i + 1]) == PortConnections(ports[..i]) + ports[i].connections
  {
    assert ports[..i + 1][..i] == ports[..i];
  }

  /**
   * A lifted item ends above every other item colliding with it, at 1 or more,
   * and no other item's z-value changes.
   */
  lemma LiftAbove(z: ZMap, ov: Overlaps, x: Item)
    ensures ZOf(Lift(z, ov, x), x) >= 1
    ensures forall o :: o in ov(x) && o != x ==> ZOf(Lift(z, ov, x), x) > ZOf(Lift(z, ov, x), o)
    ensures forall y :: y != x ==> ZOf(Lift(z, ov, x), y) == ZOf(z, y)
  {
    var os := ov(x);
    forall o | o in os && o != x
      ensures ZOf(Lift(z, ov, x), x) > ZOf(Lift(z, ov, x), o)
    {
      var k :| 0 <= k < |os| && os[k] == o;
      assert ZOf(z, os[k]) <= MaxZ(z, os);
    }
  }

  /** Raising a list of connections changes the z-value of those connections only. */
  lemma {:induction false} LiftConnectionsFrame(z: ZMap, ov: Overlaps, cs: seq<ConnId>, y: Item)
    requires !(y.ConnectionItem? && y.conn in cs)
    ensures ZOf(LiftConnections(z, ov, cs), y) == ZOf(z, y)
  {
    if cs != [] {
      var init := cs[..|cs| - 1];
      assert forall c :: c in init ==> c in cs;
      LiftConnectionsFrame(z, ov, init, y);
      LiftAbove(LiftConnections(z, ov, init), ov, ConnectionItem(cs[|cs| - 1]));
    }
  }

  /**
   * After raising a list of connections one after the other, each connection
   * that is not raised again later sits above every item colliding with it that
   * was not raised after it.
   */
  lemma {:induction false} LiftConnectionsAbove(z: ZMap, ov: Overlaps, cs: seq<ConnId>, k: nat, o: Item)
    requires k < |cs| && cs[k] !in cs[k + 1..]
    requires o in ov(ConnectionItem(cs[k])) && o != ConnectionItem(cs[k])
    requires !(o.ConnectionItem? && o.conn in cs[k + 1..])
    ensures ZOf(LiftConnections(z, ov, cs), ConnectionItem(cs[k])) > ZOf(LiftConnections(z, ov, cs), o)
  {
    var init := cs[..|cs| - 1];
    var last := ConnectionItem(cs[|cs| - 1]);
    var zi := LiftConnections(z, ov, init);
    LiftAbove(zi, ov, last);
    if k < |cs| - 1 {
      assert cs[|cs| - 1] in cs[k + 1..];
      assert init[k + 1..] == cs[k + 1..|cs| - 1];
      LiftConnectionsAbove(z, ov, init, k, o);
      assert o != last;
    }
  }

  /**
   * raiseItem on a node: the node ends above every item colliding with it
   * other than its own attached connections, and only the node and those
   * connections change their z-value.
   */
  lemma RaisedNode(z: ZMap, ov: Overlaps, nodes: map<NodeId, NodeVisual>, n: NodeId, o: Item)
    requires n in nodes
    requires o in ov(NodeItem(n)) && o != NodeItem(n)
    requires !(o.ConnectionItem? && o.conn in AttachedConnections(nodes[n]))
    ensures ZOf(Raised(z, ov, nodes, NodeItem(n)), NodeItem(n)) > ZOf(Raised(z, ov, nodes, NodeItem(n)), o)
    ensures forall y :: y != NodeItem(n) && !(y.ConnectionItem? && y.conn in AttachedConnections(nodes[n])) ==>
      ZOf(Raised(z, ov, nodes, NodeItem(n)), y) == ZOf(z, y)
  {
    var cs := AttachedConnections(nodes[n]);
    var z1 := Lift(z, ov, NodeItem(n));
    LiftAbove(z, ov, NodeItem(n));
    LiftConnectionsFrame(z1, ov, cs, NodeItem(n));
    LiftConnectionsFrame(z1, ov, cs, o);
    forall y | y != NodeItem(n) && !(y.ConnectionItem? && y.conn in cs)
      ensures ZOf(Raised(z, ov, nodes, NodeItem(n)), y) == ZOf(z, y)
    {
      LiftConnectionsFrame(z1, ov, cs, y);
    }
  }

  lemma {:induction false} UnconnectedPorts(ports: seq<Port>)
    requires forall i :: 0 <= i < |ports| ==> ports[i].connections == []
    ensures PortConnections(ports) == []
  {
    if ports != [] {
      UnconnectedPorts(ports[..|ports| - 1]);
    }
  }

  /** A node visual fresh from its constructor has no connection attached, so raising it raises only itself. */
  lemma NewNodeUnconnected(m: ModelNode, metrics: string -> Geometry.Extent, hover: bool)
    ensures AttachedConnections(NewNodeVisual(m, metrics, hover)) == []
  {
    ResizedShape([], m.inletCount);
    ResizedShape([], m.outletCount);
    UnconnectedPorts(NewNodeVisual(m, metrics, hover).inlets);
    UnconnectedPorts(NewNodeVisual(m, metrics, hover).outlets);
  }
}
