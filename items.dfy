/**
 * Scene items, their QDataflowItemType tags and the topmost-first hit-test
 * QDataflowCanvas::itemAtT.
 */
module Items {
  import opened Ids
  import opened Wrappers

  /** The four item classes of the widget that carry a QDataflowItemType tag. */
  datatype ItemType = NodeType | ConnectionType | InletType | OutletType

  /** QGraphicsItem::UserType, the first value Qt leaves to applications. */
  const UserType: int := 65536

  /** The tag each class returns from type(): UserType + 1 .. UserType + 4. */
  function Tag(t: ItemType): (r: int)
    ensures UserType < r <= UserType + 4
  {
    match t
    case NodeType => UserType + 1
    case ConnectionType => UserType + 2
    case InletType => UserType + 3
    case OutletType => UserType + 4
  }

  /** Reads a type() value back as one of the four kinds, if it is one of their tags. */
  function TypeOfTag(tag: int): (r: Option<ItemType>)
    ensures r.Some? <==> UserType < tag <= UserType + 4
  {
    if tag == UserType + 1 then Some(NodeType)
    else if tag == UserType + 2 then Some(ConnectionType)
    else if tag == UserType + 3 then Some(InletType)
    else if tag == UserType + 4 then Some(OutletType)
    else None
  }

  /** The tags are a closed variant: four distinct values, each read back as its own kind. */
  lemma TagsAreDistinct(a: ItemType, b: ItemType)
    ensures Tag(a) == Tag(b) <==> a == b
    ensures TypeOfTag(Tag(a)) == Some(a)
  {
  }

  /** Every value that reads back as a kind is that kind's tag. */
  lemma TagRoundTrip(tag: int)
    requires TypeOfTag(tag).Some?
    ensures Tag(TypeOfTag(tag).value) == tag
  {
  }

  /**
   * The items of a canvas scene. Only nodes, connections, inlets and outlets are
   * QDataflow classes with a tag; the text label, the temporary drag line and
   * every other child item (header bands, completion boxes, tooltips) are plain
   * Qt items.
   */
  datatype Item =
    | NodeItem(node: NodeId)
    | ConnectionItem(conn: ConnId)
    | InletItem(inlet: PortRef)
    | OutletItem(outlet: PortRef)
    | LabelItem(owner: NodeId)
    | TempLineItem(from: PortRef)
    | OtherItem(id: nat)

  /** The dynamic class of an item, as dynamic_cast sees it. */
  function TypeOf(item: Item): (r: Option<ItemType>)
  {
    match item
    case NodeItem(_) => Some(NodeType)
    case ConnectionItem(_) => Some(ConnectionType)
    case InletItem(_) => Some(InletType)
    case OutletItem(_) => Some(OutletType)
    case _ => None
  }

  /** The four tagged items report their class's tag: reading it back gives the class dynamic_cast sees. */
  lemma TypeOfTagOfItem(item: Item)
    requires TypeOf(item).Some?
    ensures TypeOfTag(Tag(TypeOf(item).value)) == TypeOf(item)
    ensures item.NodeItem? || item.ConnectionItem? || item.InletItem? || item.OutletItem?
  {
  }

  /**
   * The first item of a list in descending stacking order whose class is t,
   * or None when no item is of that class.
   */
  function FirstOfType(items: seq<Item>, t: ItemType): (r: Option<Item>)
    ensures r.None? <==> forall k :: 0 <= k < |items| ==> TypeOf(items[k]) != Some(t)
    ensures r.Some? ==> exists k :: 0 <= k < |items| && items[k] == r.value && TypeOf(items[k]) == Some(t) &&
                                    forall j :: 0 <= j < k ==> TypeOf(items[j]) != Some(t)
  {
    if items == [] then None
    else if TypeOf(items[0]) == Some(t) then Some(items[0])
    else
      var r := FirstOfType(items[1..], t);
      assert forall k :: 1 <= k < |items| ==> items[k] == items[1..][k - 1];
      r
  }

  /** A hit on an inlet is an inlet, and the kind decides the item's constructor. */
  lemma FirstInletIsInlet(items: seq<Item>)
    requires FirstOfType(items, InletType).Some?
    ensures FirstOfType(items, InletType).value.InletItem?
  {
    var k :| 0 <= k < |items| && items[k] == FirstOfType(items, InletType).value && TypeOf(items[k]) == Some(InletType);
  }

  /**
   * QDataflowCanvas::itemAtT: scans the items under a point, topmost first, and
   * returns the first one of class t.
   */
  method ItemAtT(items: seq<Item>, t: ItemType) returns (r: Option<Item>)
    ensures r == FirstOfType(items, t)
  {
    var k := 0;
    while k < |items|
      invariant 0 <= k <= |items|
      invariant forall j :: 0 <= j < k ==> TypeOf(items[j]) != Some(t)
      invariant FirstOfType(items, t) == FirstOfType(items[k..], t)
    {
      if TypeOf(items[k]) == Some(t) {
        return Some(items[k]);
      }
      assert items[k..][1..] == items[k + 1..];
      k := k + 1;
    }
    r := None;
  }
}
