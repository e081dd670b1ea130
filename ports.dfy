/**
 * Port visuals (QDataflowIOlet, QDataflowInlet, QDataflowOutlet) as records,
 * their connection lists, and the effect of QDataflowNode::setInletCount /
 * setOutletCount on a port list.
 */
module Ports {
  import opened Ids
  import opened Wrappers
  import Geometry

  /** The pen of an outlet's temporary drag line: tempConnectionPen, connectionPen, invalidConnectionPen. */
  datatype Pen = TempPen | ValidPen | InvalidPen

  /**
   * A port visual: its index in the node's list, its position in the header
   * band, the connection visuals attached to it (in attachment order) and, for
   * an outlet, the temporary line of a drag in progress (tmpConn_).
   */
  datatype Port = Port(index: nat, pos: Geometry.Point, connections: seq<ConnId>, tmpConn: Option<Pen>)

  /** The port setInletCount / setOutletCount appends at index i. */
  function NewPort(i: nat): (r: Port)
  {
    Port(i, Geometry.PortPosition(i), [], None)
  }

  /** Every port sits at its own index and at the position of that index. */
  predicate WellFormed(ports: seq<Port>)
  {
    forall i :: 0 <= i < |ports| ==> ports[i].index == i && ports[i].pos == Geometry.PortPosition(i)
  }

  /** No port of the list has a drag line (inlets never start a drag). */
  predicate NoDrag(ports: seq<Port>)
  {
    forall i :: 0 <= i < |ports| ==> ports[i].tmpConn.None?
  }

  /** QDataflowIOlet::addConnection: the connection is appended to the port's list. */
  function AddConnection(p: Port, c: ConnId): (r: Port)
    ensures r.connections == p.connections + [c]
    ensures r.index == p.index && r.pos == p.pos && r.tmpConn == p.tmpConn
  {
    p.(connections := p.connections + [c])
  }

  /** QList::removeAll: every occurrence of c is dropped, the rest keeps its order. */
  function RemoveAll(s: seq<ConnId>, c: ConnId): (r: seq<ConnId>)
    ensures c !in r
    ensures forall x :: x in r <==> x in s && x != c
    ensures multiset(r) == multiset(s)[c := 0]
    ensures |r| <= |s|
    ensures c !in s ==> r == s
    ensures |s| == 1 ==> r == if s[0] == c then [] else s
  {
    if s == [] then []
    else
      assert s == [s[0]] + s[1..];
      if s[0] == c then RemoveAll(s[1..], c)
      else [s[0]] + RemoveAll(s[1..], c)
  }

  /** QDataflowIOlet::removeConnection. */
  function RemoveConnection(p: Port, c: ConnId): (r: Port)
    ensures c !in r.connections
    ensures forall x :: x in r.connections <==> x in p.connections && x != c
    ensures multiset(r.connections) == multiset(p.connections)[c := 0]
    ensures r.index == p.index && r.pos == p.pos && r.tmpConn == p.tmpConn
  {
    p.(connections := RemoveAll(p.connections, c))
  }

  /** Removing what was just added restores a port that did not hold the connection. */
  lemma RemoveUndoesAdd(p: Port, c: ConnId)
    requires c !in p.connections
    ensures RemoveConnection(AddConnection(p, c), c) == p
  {
    RemoveAllAppend(p.connections, [c], c);
  }

  /**
   * removeAll works element by element: on a concatenation it is the
   * concatenation of the two results, and (with the one-element case of its
   * contract) this fixes the order of what remains.
   */
  lemma {:induction false} RemoveAllAppend(a: seq<ConnId>, b: seq<ConnId>, c: ConnId)
    ensures RemoveAll(a + b, c) == RemoveAll(a, c) + RemoveAll(b, c)
  {
    if a != [] {
      assert (a + b)[1..] == a[1..] + b;
      RemoveAllAppend(a[1..], b, c);
    } else {
      assert a + b == b;
    }
  }

  function MinNat(a: nat, b: nat): (r: nat)
  {
    if a <= b then a else b
  }

  /**
   * The port list after set*Count(count): the ports below the new length kept
   * as they are, followed by fresh ports for the indices the list grew by.
   */
  function Resized(ports: seq<Port>, count: nat): (r: seq<Port>)
  {
    var keep := MinNat(|ports|, count);
    ports[..keep] + seq(count - keep, j requires 0 <= j => NewPort(keep + j))
  }

  /** After set*Count(c) the list has c ports, survivors keep their index, new ports are appended. */
  lemma ResizedShape(ports: seq<Port>, count: nat)
    ensures |Resized(ports, count)| == count
    ensures forall i :: 0 <= i < MinNat(|ports|, count) ==> Resized(ports, count)[i] == ports[i]
    ensures forall i :: |ports| <= i < count ==>
      Resized(ports, count)[i] == NewPort(i) && Resized(ports, count)[i].connections == []
    ensures WellFormed(ports) ==> WellFormed(Resized(ports, count))
    ensures NoDrag(ports) ==> NoDrag(Resized(ports, count))
  {
  }

  /** One scene removal performed while a port list shrinks. */
  datatype Removal = RemovedConnection(conn: ConnId) | RemovedPort(port: nat)

  function ConnectionRemovals(cs: seq<ConnId>): (r: seq<Removal>)
    ensures |r| == |cs|
    ensures forall k :: 0 <= k < |cs| ==> r[k] == RemovedConnection(cs[k])
  {
    if cs == [] then [] else [RemovedConnection(cs[0])] + ConnectionRemovals(cs[1..])
  }

  /**
   * The removals set*Count(count) performs, in order: the last port's
   * connections, then the last port itself, then the same for the port before
   * it, down to the new length.
   */
  function Drops(ports: seq<Port>, count: nat): (r: seq<Removal>)
    decreases |ports|
  {
    if |ports| <= count then []
    else
      var last := ports[|ports| - 1];
      ConnectionRemovals(last.connections) + [RemovedPort(last.index)] + Drops(ports[..|ports| - 1], count)
  }

  /** The connections a removal log takes out of the scene, in order. */
  function RemovedConnections(log: seq<Removal>): (r: seq<ConnId>)
  {
    if log == [] then []
    else if log[|log| - 1].RemovedConnection? then RemovedConnections(log[..|log| - 1]) + [log[|log| - 1].conn]
    else RemovedConnections(log[..|log| - 1])
  }

  /** The removed ports are exactly the dropped indices, from the last one down. */
  lemma DropsRemovePortsFromTheBack(ports: seq<Port>, count: nat)
    requires WellFormed(ports)
    ensures forall k :: 0 <= k < |Drops(ports, count)| && Drops(ports, count)[k].RemovedPort? ==>
      count <= Drops(ports, count)[k].port < |ports|
    ensures forall j :: count <= j < |ports| ==> RemovedPort(j) in Drops(ports, count)
    ensures forall k, l :: 0 <= k < l < |Drops(ports, count)| && Drops(ports, count)[k].RemovedPort? && Drops(ports, count)[l].RemovedPort? ==>
      Drops(ports, count)[k].port > Drops(ports, count)[l].port
    ensures |ports| <= count ==> Drops(ports, count) == []
  {
    DropsPortsDescend(ports, count);
    DropsEveryPort(ports, count);
  }

  /** The removed ports lie among the dropped indices, from the last one down. */
  lemma {:induction false} DropsPortsDescend(ports: seq<Port>, count: nat)
    requires WellFormed(ports)
    ensures forall k :: 0 <= k < |Drops(ports, count)| && Drops(ports, count)[k].RemovedPort? ==>
      count <= Drops(ports, count)[k].port < |ports|
    ensures forall k, l :: 0 <= k < l < |Drops(ports, count)| && Drops(ports, count)[k].RemovedPort? && Drops(ports, count)[l].RemovedPort? ==>
      Drops(ports, count)[k].port > Drops(ports, count)[l].port
    ensures |ports| <= count ==> Drops(ports, count) == []
    decreases |ports|
  {
    if |ports| <= count {
    } else {
      var last := ports[|ports| - 1];
      var rest := ports[..|ports| - 1];
      assert WellFormed(rest);
      DropsPortsDescend(rest, count);
      var head := ConnectionRemovals(last.connections) + [RemovedPort(last.index)];
      var log := Drops(ports, count);
      assert log == head + Drops(rest, count);
      forall k | 0 <= k < |log| && log[k].RemovedPort?
        ensures count <= log[k].port < |ports|
      {
        if k >= |head| { assert log[k] == Drops(rest, count)[k - |head|]; }
      }
      forall k, l | 0 <= k < l < |log| && log[k].RemovedPort? && log[l].RemovedPort?
        ensures log[k].port > log[l].port
      {
        assert l >= |head|;
        assert log[l] == Drops(rest, count)[l - |head|];
        if k >= |head| { assert log[k] == Drops(rest, count)[k - |head|]; }
      }
    }
  }

  /** Every index from the new length up to the old one is removed. */
  lemma {:induction false} DropsEveryPort(ports: seq<Port>, count: nat)
    requires WellFormed(ports)
    ensures forall j :: count <= j < |ports| ==> RemovedPort(j) in Drops(ports, count)
    decreases |ports|
  {
    if |ports| > count {
      var last := ports[|ports| - 1];
      var rest := ports[..|ports| - 1];
      assert WellFormed(rest);
      DropsEveryPort(rest, count);
      var head := ConnectionRemovals(last.connections) + [RemovedPort(last.index)];
      assert Drops(ports, count) == head + Drops(rest, count);
      assert RemovedPort(|ports| - 1) in head;
    }
  }

  /**
   * A dropped port's connections are all taken out of the scene before the
   * port itself: for the removal of port j at position k, each connection of
   * port j is removed at some earlier position.
   */
  lemma {:induction false} DropsRemoveConnectionsFirst(ports: seq<Port>, count: nat, k: nat)
    requires WellFormed(ports)
    requires k < |Drops(ports, count)| && Drops(ports, count)[k].RemovedPort?
    ensures Drops(ports, count)[k].port < |ports|
    ensures forall c :: c in ports[Drops(ports, count)[k].port].connections ==>
      exists a :: 0 <= a < k && Drops(ports, count)[a] == RemovedConnection(c)
    decreases |ports|
  {
    var last := ports[|ports| - 1];
    var rest := ports[..|ports| - 1];
    var head := ConnectionRemovals(last.connections) + [RemovedPort(last.index)];
    var log := Drops(ports, count);
    assert log == head + Drops(rest, count);
    if k < |head| {
      assert k == |head| - 1;
      assert log[k].port == |ports| - 1;
      forall c | c in last.connections
        ensures exists a :: 0 <= a < k && log[a] == RemovedConnection(c)
      {
        var a :| 0 <= a < |last.connections| && last.connections[a] == c;
        assert log[a] == head[a];
      }
    } else {
      var k' := k - |head|;
      assert log[k] == Drops(rest, count)[k'];
      assert WellFormed(rest);
      DropsRemoveConnectionsFirst(rest, count, k');
      var j := log[k].port;
      assert rest[j] == ports[j];
      forall c | c in ports[j].connections
        ensures exists a :: 0 <= a < k && log[a] == RemovedConnection(c)
      {
        var a' :| 0 <= a' < k' && Drops(rest, count)[a'] == RemovedConnection(c);
        assert log[a' + |head|] == Drops(rest, count)[a'];
      }
    }
  }

  lemma {:induction false} RemovedConnectionsAppend(a: seq<Removal>, b: seq<Removal>)
    ensures RemovedConnections(a + b) == RemovedConnections(a) + RemovedConnections(b)
  {
    if b == [] {
      assert a + b == a;
    } else {
      var init := b[..|b| - 1];
      RemovedConnectionsAppend(a, init);
      assert (a + b)[..|a + b| - 1] == a + init;
    }
  }

  lemma {:induction false} RemovedConnectionsOfConnections(cs: seq<ConnId>)
    ensures RemovedConnections(ConnectionRemovals(cs)) == cs
  {
    if cs != [] {
      RemovedConnectionsOfConnections(cs[1..]);
      RemovedConnectionsAppend([RemovedConnection(cs[0])], ConnectionRemovals(cs[1..]));
      assert RemovedConnections([RemovedConnection(cs[0])]) == [cs[0]];
    }
  }

  /** One turn of the shrinking loop takes out the last port's connections, then those of the shorter list. */
  lemma DropsConnectionsStep(ports: seq<Port>, count: nat)
    requires |ports| > count
    ensures RemovedConnections(Drops(ports, count)) ==
      ports[|ports| - 1].connections + RemovedConnections(Drops(ports[..|ports| - 1], count))
  {
    var last := ports[|ports| - 1];
    var rest := ports[..|ports| - 1];
    var head := ConnectionRemovals(last.connections) + [RemovedPort(last.index)];
    RemovedConnectionsAppend(head, Drops(rest, count));
    RemovedConnectionsAppend(ConnectionRemovals(last.connections), [RemovedPort(last.index)]);
    RemovedConnectionsOfConnections(last.connections);
    assert RemovedConnections([RemovedPort(last.index)]) == [];
  }

  /**
   * The connections set*Count(count) takes out of the scene are exactly the
   * connections attached to the ports it drops.
   */
  lemma {:induction false} DroppedConnections(ports: seq<Port>, count: nat)
    ensures forall c :: c in RemovedConnections(Drops(ports, count)) <==>
      exists j :: count <= j < |ports| && c in ports[j].connections
    decreases |ports|
  {
    if |ports| <= count {
    } else {
      var last := ports[|ports| - 1];
      var rest := ports[..|ports| - 1];
      DroppedConnections(rest, count);
      DropsConnectionsStep(ports, count);
      forall c ensures c in RemovedConnections(Drops(ports, count)) <==>
        exists j :: count <= j < |ports| && c in ports[j].connections
      {
        if c in RemovedConnections(Drops(rest, count)) {
          var j :| count <= j < |rest| && c in rest[j].connections;
          assert ports[j] == rest[j];
        }
        if exists j :: count <= j < |ports| && c in ports[j].connections {
          var j :| count <= j < |ports| && c in ports[j].connections;
          if j < |ports| - 1 {
            assert rest[j] == ports[j];
          }
        }
      }
    }
  }
}
